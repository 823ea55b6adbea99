/** The Modbus RTU slave: frames ended by silence, closed by a CRC-16, answered from
    a small register file. */
module Modbus {
  import opened Checksum

  const ADDRESS: bv8 := 0x11
  const READ_HOLDING: bv8 := 0x03
  const REGISTERS: nat := 4
  const FRAME_MAX: nat := 16
  const FRAME_GAP: nat := 1500

  datatype Verdict = TooShort | BadCrc | Foreign | Unsupported | OutOfRange | Reply(bytes: seq<bv8>)

  function Word(lo: bv8, hi: bv8): bv16 {
    (lo as bv16) | ((hi as bv16) << 8)
  }

  /** The check a receiver makes on a frame. */
  predicate Closes(frame: seq<bv8>)
    requires |frame| >= 2
  {
    var n := |frame|;
    Word(frame[n - 2], frame[n - 1]) == Crc16(frame[..n - 2])
  }

  /** A body with its CRC, low byte first. */
  function Closed(body: seq<bv8>): (f: seq<bv8>)
    ensures |f| == |body| + 2
  {
    body + [LowByte(Crc16(body)), HighByte(Crc16(body))]
  }

  function BigEndian(words: seq<bv16>): (bytes: seq<bv8>)
    ensures |bytes| == 2 * |words|
  {
    if words == [] then [] else [HighByte(words[0]), LowByte(words[0])] + BigEndian(words[1..])
  }

  lemma BigEndianFirst(words: seq<bv16>, i: nat)
    requires i < |words|
    ensures BigEndian(words[i..]) == [HighByte(words[i]), LowByte(words[i])] + BigEndian(words[i + 1..])
  {
    hide HighByte, LowByte;
    assert words[i..][1..] == words[i + 1..];
  }

  lemma BigEndianNone(words: seq<bv16>)
    requires words == []
    ensures BigEndian(words) == []
  {
  }

  /** What the slave makes of a complete frame. */
  function Judge(frame: seq<bv8>, registers: seq<bv16>): Verdict
    requires |registers| == REGISTERS
  {
    if |frame| < 4 then TooShort
    else if !Closes(frame) then BadCrc
    else if frame[0] != ADDRESS then Foreign
    else if frame[1] != READ_HOLDING || |frame| != 8 then Unsupported
    else
      var first, count := Word(frame[3], frame[2]) as nat, Word(frame[5], frame[4]) as nat;
      if first + count > REGISTERS || count == 0 then OutOfRange
      else Reply(Closed([ADDRESS, READ_HOLDING, (2 * count) as bv8] + BigEndian(registers[first..first + count])))
  }

  lemma WordOfBytes(c: bv16)
    ensures Word(LowByte(c), HighByte(c)) == c
  {
  }

  lemma BytesOfWord(lo: bv8, hi: bv8)
    ensures LowByte(Word(lo, hi)) == lo && HighByte(Word(lo, hi)) == hi
  {
  }

  lemma ClosedCloses(body: seq<bv8>)
    ensures Closes(Closed(body))
    ensures Crc16(Closed(body)) == 0
  {
    hide LowByte, HighByte, Word, Crc16;
    var f := Closed(body);
    assert f[..|f| - 2] == body;
    WordOfBytes(Crc16(body));
    OwnCrcGivesZero(body);
  }

  /** Every reply passes the check the slave applies to requests, and leaves the
      receiver's register at zero. */
  lemma RepliesClose(frame: seq<bv8>, registers: seq<bv16>)
    requires |registers| == REGISTERS && Judge(frame, registers).Reply?
    ensures var r := Judge(frame, registers).bytes; |r| >= 4 && Closes(r) && Crc16(r) == 0
  {
    hide Closed, Closes, Word, Crc16;
    var first, count := Word(frame[3], frame[2]) as nat, Word(frame[5], frame[4]) as nat;
    ClosedCloses([ADDRESS, READ_HOLDING, (2 * count) as bv8] + BigEndian(registers[first..first + count]));
  }

  /** A well-formed request for registers the slave has is answered with them. */
  lemma RequestIsAnswered(first: bv16, count: bv16, registers: seq<bv16>)
    requires |registers| == REGISTERS
    requires count as nat >= 1 && first as nat + count as nat <= REGISTERS
    ensures var request := Closed([ADDRESS, READ_HOLDING, HighByte(first), LowByte(first),
                                   HighByte(count), LowByte(count)]);
            Judge(request, registers) ==
            Reply(Closed([ADDRESS, READ_HOLDING, (2 * (count as nat)) as bv8] +
                         BigEndian(registers[first as nat..first as nat + count as nat])))
  {
    hide LowByte, HighByte, Word, Crc16;
    var body := [ADDRESS, READ_HOLDING, HighByte(first), LowByte(first), HighByte(count), LowByte(count)];
    ClosedCloses(body);
    WordOfBytes(first);
    WordOfBytes(count);
  }

  /** No other closed frame is answered: one for another slave is foreign, another function
      or another length is not supported, and a read of no register or of one the slave
      has not got is out of range. */
  lemma OthersAreNotAnswered(address: bv8, code: bv8, first: bv16, count: bv16, registers: seq<bv16>)
    requires |registers| == REGISTERS
    ensures var v := Judge(Closed([address, code, HighByte(first), LowByte(first),
                                   HighByte(count), LowByte(count)]), registers);
            && (v.Foreign? <==> address != 0x11)
            && (v.Unsupported? <==> address == 0x11 && code != 0x03)
            && (v.OutOfRange? <==> address == 0x11 && code == 0x03
                                   && (count == 0 || first as nat + count as nat > 4))
            && !v.TooShort? && !v.BadCrc?
  {
    hide LowByte, HighByte, Word, Crc16;
    ClosedCloses([address, code, HighByte(first), LowByte(first), HighByte(count), LowByte(count)]);
    WordOfBytes(first);
    WordOfBytes(count);
  }

  lemma OtherLengthsAreNotAnswered(body: seq<bv8>, registers: seq<bv16>)
    requires |registers| == REGISTERS && |body| >= 2 && |body| != 6
    ensures Judge(Closed(body), registers) == if body[0] == 0x11 then Unsupported else Foreign
  {
    hide LowByte, HighByte, Word, Crc16;
    ClosedCloses(body);
  }

  /** The bytes of a reply read back as the registers. */
  lemma {:induction false} BigEndianReads(words: seq<bv16>, i: nat)
    requires i < |words|
    ensures Word(BigEndian(words)[2 * i + 1], BigEndian(words)[2 * i]) == words[i]
    decreases |words|
  {
    hide Word, LowByte, HighByte;
    WordOfBytes(words[0]);
    if i > 0 {
      BigEndianReads(words[1..], i - 1);
    }
  }

  lemma OneByteApart(frame: seq<bv8>, i: nat, b: bv8)
    requires i < |frame|
    ensures frame == frame[..i] + [frame[i]] + frame[i + 1..]
    ensures frame[i := b] == frame[..i] + [b] + frame[i + 1..]
  {
  }

  lemma DifferentBytes(a: bv8, b: bv8, c: bv8, d: bv8)
    requires Word(a, b) == Word(c, d)
    ensures a == c && b == d
  {
    BytesOfWord(a, b);
    BytesOfWord(c, d);
  }

  /** A frame with one byte changed on the line never passes. */
  lemma OneBadByteIsRefused(frame: seq<bv8>, i: nat, b: bv8, registers: seq<bv16>)
    requires |frame| >= 4 && Closes(frame) && i < |frame| && b != frame[i] && |registers| == REGISTERS
    ensures Judge(frame[i := b], registers) == BadCrc
  {
    hide Word, Crc16From;
    var n, bad := |frame|, frame[i := b];
    if i < n - 2 {
      var body := frame[..n - 2];
      assert bad[..n - 2] == body[i := b];
      OneByteApart(body, i, b);
      OneByteIsSeen16(0xFFFF, body[..i], frame[i], b, body[i + 1..]);
    } else {
      assert bad[..n - 2] == frame[..n - 2];
      if Closes(bad) {
        DifferentBytes(frame[n - 2], frame[n - 1], bad[n - 2], bad[n - 1]);
        assert false;
      }
    }
  }

  class ModbusModel {
    const frame: array<bv8>
    var frameLength: nat
    var idleAtUs: nat
    var pending: bool
    var registers: seq<bv16>
    var answered: nat
    var badCrc: nat
    var foreign: nat

    ghost predicate Valid()
      reads this
    {
      frame.Length == FRAME_MAX && frameLength <= FRAME_MAX && |registers| == REGISTERS
    }

    ghost function Frame(): seq<bv8>
      reads this, frame
      requires Valid()
    {
      frame[..frameLength]
    }

    constructor ()
      ensures Valid() && fresh(frame) && Frame() == [] && !pending
      ensures registers == [0x1000, 0x1001, 0x1002, 0x1003]
      ensures answered == badCrc == foreign == 0
    {
      frame := new bv8[FRAME_MAX];
      frameLength, idleAtUs, pending := 0, 0, false;
      registers := [0x1000, 0x1001, 0x1002, 0x1003];
      answered, badCrc, foreign := 0, 0, 0;
    }

    /** Bytes past the frame buffer are not kept; any byte restarts the silence. */
    method SerialIn(data: seq<bv8>, now: nat) returns (wakeAt: nat)
      requires Valid()
      modifies this`frameLength, this`idleAtUs, this`pending, frame
      ensures Valid() && pending && idleAtUs == now + FRAME_GAP == wakeAt
      ensures var all := old(Frame()) + data; Frame() == if |all| <= FRAME_MAX then all else all[..FRAME_MAX]
    {
      var i := 0;
      ghost var before := Frame();
      while i < |data|
        invariant Valid() && 0 <= i <= |data|
        invariant var all := before + data[..i]; Frame() == if |all| <= FRAME_MAX then all else all[..FRAME_MAX]
      {
        if frameLength < FRAME_MAX {
          frame[frameLength] := data[i];
          frameLength := frameLength + 1;
        }
        assert data[..i + 1] == data[..i] + [data[i]];
        i := i + 1;
      }
      assert data[..i] == data;
      idleAtUs := now + FRAME_GAP;
      pending := true;
      wakeAt := idleAtUs;
    }

    method RegisterBytes(first: nat, count: nat) returns (bytes: seq<bv8>)
      requires Valid() && first + count <= REGISTERS
      ensures bytes == BigEndian(registers[first..first + count])
    {
      hide LowByte, HighByte, BigEndian;
      bytes := [];
      var i := 0;
      ghost var words := registers[first..first + count];
      assert words[0..] == words;
      while i < count
        invariant 0 <= i <= count
        invariant BigEndian(words) == bytes + BigEndian(words[i..])
      {
        var value := registers[first + i];
        BigEndianFirst(words, i);
        ghost var was := bytes;
        bytes := bytes + [HighByte(value), LowByte(value)];
        i := i + 1;
        assert was + ([HighByte(value), LowByte(value)] + BigEndian(words[i..])) == bytes + BigEndian(words[i..]);
      }
      BigEndianNone(words[i..]);
    }

    method BuildReply(first: nat, count: nat) returns (reply: seq<bv8>)
      requires Valid() && 1 <= count && first + count <= REGISTERS
      ensures reply == Closed([ADDRESS, READ_HOLDING, (2 * count) as bv8] + BigEndian(registers[first..first + count]))
    {
      hide Crc16, LowByte, HighByte, BigEndian;
      var bytes := RegisterBytes(first, count);
      reply := [ADDRESS, READ_HOLDING, (2 * count) as bv8] + bytes;
      var crc := ComputeCrc16(reply);
      reply := reply + [LowByte(crc), HighByte(crc)];
    }

    method HandleFrame() returns (sent: seq<bv8>)
      requires Valid()
      modifies this`answered, this`badCrc, this`foreign
      ensures var v := Judge(Frame(), registers);
              && sent == (if v.Reply? then v.bytes else [])
              && answered == old(answered) + (if v.Reply? then 1 else 0)
              && badCrc == old(badCrc) + (if v.BadCrc? then 1 else 0)
              && foreign == old(foreign) + (if v.Foreign? then 1 else 0)
    {
      hide Word, Crc16, Closed, BigEndian;
      sent := [];
      if frameLength < 4 {
        return;
      }
      assert Frame()[..frameLength - 2] == frame[..frameLength - 2];
      var given := Word(frame[frameLength - 2], frame[frameLength - 1]);
      var expected := ComputeCrc16(frame[..frameLength - 2]);
      if given != expected {
        badCrc := badCrc + 1;
        return;
      }
      if frame[0] != ADDRESS {
        foreign := foreign + 1;
        return;
      }
      if frame[1] != READ_HOLDING || frameLength != 8 {
        return;
      }
      var first, count := Word(frame[3], frame[2]) as nat, Word(frame[5], frame[4]) as nat;
      if first + count > REGISTERS || count == 0 {
        return;
      }
      sent := BuildReply(first, count);
      answered := answered + 1;
    }

    /** Silence ends the frame: it is judged once and forgotten. */
    method AdvanceTo(now: nat) returns (sent: seq<bv8>)
      requires Valid()
      modifies this
      ensures Valid() && registers == old(registers) && idleAtUs == old(idleAtUs)
      ensures old(pending && now >= idleAtUs) ==>
                && !pending && Frame() == []
                && var v := Judge(old(Frame()), registers);
                   && sent == (if v.Reply? then v.bytes else [])
                   && answered == old(answered) + (if v.Reply? then 1 else 0)
                   && badCrc == old(badCrc) + (if v.BadCrc? then 1 else 0)
                   && foreign == old(foreign) + (if v.Foreign? then 1 else 0)
      ensures !old(pending && now >= idleAtUs) ==>
                && sent == [] && pending == old(pending) && Frame() == old(Frame())
                && answered == old(answered) && badCrc == old(badCrc) && foreign == old(foreign)
    {
      if !pending || now < idleAtUs {
        return [];
      }
      pending := false;
      sent := HandleFrame();
      frameLength := 0;
    }
  }
}
