/** The chunking node as the device model keeps it: two 32-byte buffers filled in place,
    counters, and one loop for each copy. */
module ChunkNode {
  import opened Wrappers
  import opened Chunk

  class ChunkNode {
    const links: Links
    const pending: array<Byte>
    const assembled: array<Byte>
    var chunkFormat: nat
    var assembledLen: nat
    var expectSeq: Byte
    var received: nat
    var outOfOrder: nat
    var pendingLen: nat
    var pendingSent: nat
    var perFrame: nat
    var sendBus: Byte
    var sendSeq: Byte
    var nextFrameUs: int
    var sending: bool
    var sentFrames: nat
    var sentMessages: nat
    var refused: nat
    // What the links have taken.
    var out: seq<Sent>

    ghost predicate Valid()
      reads this
    {
      && pending.Length == assembled.Length == MAX_MESSAGE && pending != assembled
      && pendingSent <= pendingLen <= MAX_MESSAGE && assembledLen <= MAX_MESSAGE
    }

    ghost function Sends(): (r: Sender)
      requires pendingSent <= pendingLen <= pending.Length
      reads this`sending, this`sendBus, this`pendingLen, this`pendingSent, this`perFrame, this`sendSeq,
            this`nextFrameUs, this`sentFrames, this`sentMessages, this`refused, this`out, pending
      ensures r.sent <= |r.pending|
    {
      Sender(sending, sendBus, pending[..pendingLen], pendingSent, perFrame, sendSeq,
             nextFrameUs, sentFrames, sentMessages, refused, out)
    }

    ghost function Receives(): Receiver
      requires assembledLen <= assembled.Length
      reads this`assembledLen, this`expectSeq, this`received, this`outOfOrder, assembled
    {
      Receiver(expectSeq, assembled[..assembledLen], received, outOfOrder)
    }

    constructor (links: Links, chunkFormat: nat)
      ensures Valid() && Sends() == QUIET && Receives() == WAITING && fresh(pending) && fresh(assembled)
      ensures this.links == links && this.chunkFormat == chunkFormat
    {
      this.links, this.chunkFormat := links, chunkFormat;
      pending := new Byte[MAX_MESSAGE](i => 0);
      assembled := new Byte[MAX_MESSAGE](i => 0);
      assembledLen, expectSeq, received, outOfOrder := 0, 0, 0, 0;
      pendingLen, pendingSent, perFrame, sendBus, sendSeq, nextFrameUs, sending := 0, 0, 0, 0, 0, 0, false;
      sentFrames, sentMessages, refused, out := 0, 0, 0, [];
    }

    /** The frame, byte by byte. */
    method BuildFrame(take: nat) returns (frame: seq<Byte>)
      requires Valid() && take == Min(pendingLen - pendingSent, perFrame)
      ensures frame == Piece(pending[..pendingLen], pendingSent, sendSeq, perFrame)
    {
      var head: seq<Byte> := [sendSeq, if pendingSent + take < pendingLen then 1 else 0];
      ghost var msg := pending[..pendingLen];
      frame := head;
      var i := 0;
      while i < take
        invariant 0 <= i <= take && frame == head + msg[pendingSent..pendingSent + i]
      {
        assert msg[pendingSent..pendingSent + i + 1] == msg[pendingSent..pendingSent + i] + [msg[pendingSent + i]];
        frame := frame + [pending[pendingSent + i]];
        i := i + 1;
      }
    }

    /** One frame offered to the link. */
    method EmitOne(now: int) returns (ok: bool)
      requires Valid()
      modifies this`sending, this`sendSeq, this`nextFrameUs, this`pendingSent, this`sentFrames, this`refused, this`out
      ensures Valid() && (Sends(), ok) == EmitNext(links, old(Sends()), now) && Receives() == old(Receives())
    {
      hide Piece;
      if !sending {
        return false;
      }
      var take := pendingLen - pendingSent;
      if take > perFrame {
        take := perFrame;
      }
      var frame := BuildFrame(take);
      sendSeq := (sendSeq + 1) % 256;
      if |frame| * 8 > links[sendBus] {
        refused := refused + 1;
        sending := false;
        return false;
      }
      Taken(frame, take, now);
      return true;
    }

    /** The link took the frame. */
    method Taken(frame: seq<Byte>, take: nat, now: int)
      requires Valid() && pendingSent + take <= pendingLen
      modifies this`sending, this`nextFrameUs, this`pendingSent, this`sentFrames, this`out
      ensures Valid()
      ensures var s := old(Sends());
              var m := s.(sentFrames := s.sentFrames + 1, sent := s.sent + take,
                          out := s.out + [Sent(s.bus, frame, now)]);
              Sends() == if m.sent >= |m.pending| then m.(sending := false) else m.(nextFrameUs := now + FRAME_GAP_US)
    {
      out := out + [Sent(sendBus, frame, now)];
      sentFrames := sentFrames + 1;
      pendingSent := pendingSent + take;
      if pendingSent >= pendingLen {
        sending := false;
        return;
      }
      nextFrameUs := now + FRAME_GAP_US;
    }

    method Load(data: seq<Byte>)
      requires Valid() && 1 <= |data| <= MAX_MESSAGE + 1
      modifies pending
      ensures pending[..|data| - 1] == data[1..]
    {
      var i := 0;
      while i < |data| - 1
        invariant 0 <= i < |data| && pending[..i] == data[1..i + 1]
      {
        pending[i] := data[i + 1];
        i := i + 1;
      }
    }

    /** The message taken over, nothing sent yet. */
    method StartMessage(data: seq<Byte>)
      requires Valid() && 2 <= |data| <= MAX_MESSAGE + 1
      modifies this`sendBus, this`pendingLen, this`pendingSent, this`sendSeq, this`sending, pending
      ensures Valid()
      ensures Sends() == old(Sends()).(bus := data[0], pending := data[1..], sent := 0, seqNo := 0, sending := true)
    {
      sendBus := data[0];
      pendingLen, pendingSent := |data| - 1, 0;
      Load(data);
      sendSeq := 0;
      sending := true;
    }

    /** A message from the world. */
    method Write(data: seq<Byte>, now: int) returns (ok: bool)
      requires Valid()
      modifies this, pending
      ensures Valid() && Receives() == old(Receives())
      ensures chunkFormat == old(chunkFormat)
      ensures chunkFormat == 0 ==> !ok && Sends() == old(Sends())
      ensures chunkFormat != 0 ==> (Sends(), ok) == ChannelWrite(links, old(Sends()), now, data)
    {
      if |data| < 2 || chunkFormat == 0 {
        return false;
      }
      var bus := data[0];
      var capacityBytes := links[bus] / 8;
      if capacityBytes <= HEADER {
        refused := refused + 1;
        return false;
      }
      perFrame := capacityBytes - HEADER;
      var bodyLen := |data| - 1;
      if bodyLen > MAX_MESSAGE {
        return false;
      }
      StartMessage(data);
      hide EmitNext;
      ok := EmitOne(now);
      if !ok {
        return;
      }
      sentMessages := sentMessages + 1;
    }

    /** The catching-up loop. */
    method Advance(now: int)
      requires Valid()
      modifies this
      ensures Valid() && Sends() == AdvanceTo(links, old(Sends()), now) && Receives() == old(Receives())
    {
      hide EmitNext;
      ghost var first := true;
      while sending && now >= nextFrameUs
        invariant Valid() && Receives() == old(Receives())
        invariant first ==> Sends() == old(Sends())
        invariant !first ==> Sends() == AdvanceTo(links, old(Sends()), now) && !(sending && now >= nextFrameUs)
        decreases first
      {
        var ok := EmitOne(now);
        first := false;
        if !ok {
          break;
        }
      }
    }

    /** As much of a frame's body as there is room for. */
    method Append(frame: seq<Byte>, bodyLen: nat)
      requires Valid() && |frame| == HEADER + bodyLen
      modifies this`assembledLen, assembled
      ensures Valid() && Sends() == old(Sends())
      ensures assembled[..assembledLen] == old(assembled[..assembledLen])
              + frame[HEADER..HEADER + Min(bodyLen, MAX_MESSAGE - old(assembledLen))]
    {
      ghost var start, from := assembled[..assembledLen], assembledLen;
      var i := 0;
      while i < bodyLen && assembledLen < MAX_MESSAGE
        invariant 0 <= i <= bodyLen && assembledLen == from + i <= MAX_MESSAGE
        invariant assembled[..assembledLen] == start + frame[HEADER..HEADER + i]
      {
        assembled[assembledLen] := frame[HEADER + i];
        assembledLen := assembledLen + 1;
        i := i + 1;
      }
    }

    /** A frame from a link. */
    method Frame(format: nat, frame: seq<Byte>, bits: nat)
      requires Valid() && |frame| == bits / 8 + (if bits % 8 != 0 then 1 else 0)
      modifies this`assembledLen, this`expectSeq, this`received, this`outOfOrder, assembled
      ensures Valid() && Sends() == old(Sends())
      ensures format != chunkFormat || bits < HEADER * 8 ==> Receives() == old(Receives())
      ensures format == chunkFormat && bits >= HEADER * 8 ==> Receives() == FrameIn(old(Receives()), frame)
    {
      if format != chunkFormat || bits < HEADER * 8 {
        return;
      }
      var bodyLen := |frame| - HEADER;
      if frame[0] != expectSeq {
        outOfOrder := outOfOrder + 1;
        expectSeq := 0;
        assembledLen := 0;
        return;
      }
      if frame[0] == 0 {
        assembledLen := 0;
      }
      Append(frame, bodyLen);
      if frame[1] != 0 {
        expectSeq := (expectSeq + 1) % 256;
      } else {
        expectSeq := 0;
        received := received + 1;
      }
    }
  }
}
