/** Splitting a message into frames a link can carry, and putting it together again. */
module Chunk {
  import opened Wrappers

  const HEADER: nat := 2
  const MAX_MESSAGE: nat := 32
  const FRAME_GAP_US: nat := 500

  datatype Sent = Sent(bus: Byte, frame: seq<Byte>, at: int)

  /** The sending side. `out` is what the links have taken so far. */
  datatype Sender = Sender(sending: bool, bus: Byte, pending: seq<Byte>, sent: nat, perFrame: nat, seqNo: nat,
                           nextFrameUs: int, sentFrames: nat, sentMessages: nat, refused: nat, out: seq<Sent>)

  const QUIET := Sender(false, 0, [], 0, 0, 0, 0, 0, 0, 0, [])

  datatype Receiver = Receiver(expectSeq: nat, assembled: seq<Byte>, received: nat, outOfOrder: nat)

  const WAITING := Receiver(0, [], 0, 0)

  /** What each bus can carry in one frame, in bits. */
  type Links = s: seq<nat> | |s| == 256 witness seq(256, i => 0)

  function Min(a: nat, b: nat): nat {
    if a < b then a else b
  }

  /** The next piece: its number, whether more follow, and its share of the message. */
  function Piece(msg: seq<Byte>, sent: nat, seqNo: nat, perFrame: nat): seq<Byte>
    requires sent <= |msg|
  {
    var take := Min(|msg| - sent, perFrame);
    [seqNo % 256, if sent + take < |msg| then 1 else 0] + msg[sent..sent + take]
  }

  /** One piece goes out, if the link takes it. */
  function EmitNext(links: Links, s: Sender, now: int): (r: (Sender, bool))
    requires s.sent <= |s.pending|
    ensures r.0.sent <= |r.0.pending|
    ensures !r.1 || !r.0.sending || r.0.nextFrameUs > now
  {
    if !s.sending then (s, false)
    else
      var take := Min(|s.pending| - s.sent, s.perFrame);
      var frame := Piece(s.pending, s.sent, s.seqNo, s.perFrame);
      var n := s.(seqNo := (s.seqNo + 1) % 256);
      if |frame| * 8 > links[s.bus] then (n.(refused := s.refused + 1, sending := false), false)
      else
        var m := n.(sentFrames := s.sentFrames + 1, sent := s.sent + take, out := s.out + [Sent(s.bus, frame, now)]);
        if m.sent >= |m.pending| then (m.(sending := false), true)
        else (m.(nextFrameUs := now + FRAME_GAP_US), true)
  }

  /** A message for a link: [bus, body...]. The order of the checks is the code's. */
  function ChannelWrite(links: Links, s: Sender, now: int, data: seq<Byte>): (r: (Sender, bool))
    requires s.sent <= |s.pending|
    ensures r.0.sent <= |r.0.pending|
  {
    if |data| < 2 then (s, false)
    else
      var bus, body := data[0], data[1..];
      var capacity := links[bus] / 8;
      if capacity <= HEADER then (s.(refused := s.refused + 1), false)
      else
        var p := s.(perFrame := capacity - HEADER);
        if |body| > MAX_MESSAGE then (p, false)
        else
          var (q, ok) := EmitNext(links, p.(bus := bus, pending := body, sent := 0, seqNo := 0, sending := true), now);
          if ok then (q.(sentMessages := q.sentMessages + 1), true) else (q, false)
  }

  /** The catching-up loop. Each piece sets the next one a gap after the present, so one
      call sends one piece. */
  function AdvanceTo(links: Links, s: Sender, now: int): (r: Sender)
    requires s.sent <= |s.pending|
    ensures r.sent <= |r.pending|
  {
    if s.sending && now >= s.nextFrameUs then EmitNext(links, s, now).0 else s
  }

  /** One frame of this format arriving. */
  function FrameIn(r: Receiver, frame: seq<Byte>): Receiver {
    if |frame| < HEADER then r
    else if frame[0] != r.expectSeq then r.(outOfOrder := r.outOfOrder + 1, expectSeq := 0, assembled := [])
    else
      var start := if frame[0] == 0 then [] else r.assembled;
      var room := if |start| < MAX_MESSAGE then MAX_MESSAGE - |start| else 0;
      var now := start + frame[HEADER..HEADER + Min(|frame| - HEADER, room)];
      if frame[1] != 0 then r.(assembled := now, expectSeq := (r.expectSeq + 1) % 256)
      else r.(assembled := now, expectSeq := 0, received := r.received + 1)
  }

  function Arrive(r: Receiver, frames: seq<seq<Byte>>): Receiver
    decreases |frames|
  {
    if frames == [] then r else Arrive(FrameIn(r, frames[0]), frames[1..])
  }

  // --- The split -----------------------------------------------------------

  /** Where the k-th piece starts. */
  function Offset(perFrame: nat, k: nat): (r: nat)
    requires perFrame > 0
    ensures r >= k
  {
    if k == 0 then 0 else Offset(perFrame, k - 1) + perFrame
  }

  function PieceAt(msg: seq<Byte>, perFrame: nat, k: nat): seq<Byte>
    requires perFrame > 0 && Offset(perFrame, k) <= |msg|
  {
    Piece(msg, Offset(perFrame, k), k, perFrame)
  }

  /** The pieces from the k-th on. */
  function PiecesFrom(msg: seq<Byte>, perFrame: nat, k: nat): seq<seq<Byte>>
    requires perFrame > 0
    decreases |msg| - Offset(perFrame, k)
  {
    if Offset(perFrame, k) >= |msg| then []
    else [PieceAt(msg, perFrame, k)] + PiecesFrom(msg, perFrame, k + 1)
  }

  function Split(msg: seq<Byte>, perFrame: nat): seq<seq<Byte>>
    requires perFrame > 0
  {
    PiecesFrom(msg, perFrame, 0)
  }

  /** Every piece fits the link and carries at least one byte of the message. */
  lemma {:induction false} PiecesFit(msg: seq<Byte>, perFrame: nat, k: nat)
    requires perFrame > 0
    ensures forall f :: f in PiecesFrom(msg, perFrame, k) ==> HEADER < |f| <= HEADER + perFrame
    decreases |msg| - Offset(perFrame, k)
  {
    if Offset(perFrame, k) < |msg| {
      PiecesFit(msg, perFrame, k + 1);
    }
  }

  lemma OffsetIs(perFrame: nat, k: nat)
    requires perFrame > 0
    ensures Offset(perFrame, k) == k * perFrame
  {
  }

  /** As few pieces as the link allows: the message's length over the piece size, rounded
      up. */
  lemma {:induction false} PieceCount(msg: seq<Byte>, perFrame: nat, k: nat)
    requires perFrame > 0 && Offset(perFrame, k) < |msg|
    ensures var n := k + |PiecesFrom(msg, perFrame, k)|;
            n > k && Offset(perFrame, n - 1) < |msg| <= Offset(perFrame, n)
    decreases |msg| - Offset(perFrame, k)
  {
    if Offset(perFrame, k + 1) < |msg| {
      PieceCount(msg, perFrame, k + 1);
    }
  }

  // --- Putting it together -------------------------------------------------

  /** A receiver that has the first pieces of a message, as many as it has counted. */
  predicate Partway(r: Receiver, msg: seq<Byte>, perFrame: nat)
    requires perFrame > 0
  {
    && Offset(perFrame, r.expectSeq) < |msg| <= MAX_MESSAGE
    && (r.expectSeq > 0 ==> r.assembled == msg[..Offset(perFrame, r.expectSeq)])
  }

  /** The next piece in order: one more of the message, and all of it with the last. */
  lemma NextPiece(r: Receiver, msg: seq<Byte>, perFrame: nat)
    requires perFrame > 0 && Partway(r, msg, perFrame)
    ensures var k := r.expectSeq;
            var q := FrameIn(r, PieceAt(msg, perFrame, k));
            && q.outOfOrder == r.outOfOrder
            && (Offset(perFrame, k + 1) < |msg| ==>
                  q.expectSeq == k + 1 && q.received == r.received && Partway(q, msg, perFrame))
            && (Offset(perFrame, k + 1) >= |msg| ==>
                  q.expectSeq == 0 && q.received == r.received + 1 && q.assembled == msg)
  {
    var k := r.expectSeq;
    var off := Offset(perFrame, k);
    PieceParts(msg, perFrame, k);
    var frame := PieceAt(msg, perFrame, k);
    var take := |frame| - HEADER;
    assert Offset(perFrame, k + 1) == off + perFrame;
    var start := if k == 0 then [] else r.assembled;
    assert start == msg[..off];
    hide Offset, PieceAt, Piece, FrameIn;
    FrameFits(r, frame);
    assert start + frame[HEADER..] == msg[..off + take];
  }

  /** A frame with the number due whose body fits. */
  lemma FrameFits(r: Receiver, frame: seq<Byte>)
    requires |frame| >= HEADER && frame[0] == r.expectSeq
    ensures var start := if frame[0] == 0 then [] else r.assembled;
            |start| + |frame| - HEADER <= MAX_MESSAGE ==>
              FrameIn(r, frame) ==
              if frame[1] != 0 then r.(assembled := start + frame[HEADER..], expectSeq := (r.expectSeq + 1) % 256)
              else r.(assembled := start + frame[HEADER..], expectSeq := 0, received := r.received + 1)
  {
    assert frame[HEADER..HEADER + |frame| - HEADER] == frame[HEADER..];
  }

  lemma PieceParts(msg: seq<Byte>, perFrame: nat, k: nat)
    requires perFrame > 0 && Offset(perFrame, k) < |msg| <= MAX_MESSAGE
    ensures var off := Offset(perFrame, k);
            var take := Min(|msg| - off, perFrame);
            var f := PieceAt(msg, perFrame, k);
            && |f| == HEADER + take && f[0] == k && (f[1] == 0 <==> off + perFrame >= |msg|)
            && f[HEADER..] == msg[off..off + take]
  {
  }

  /** Sent in order to a receiver that expects a message to start, the pieces of any
      message of 1 to 32 bytes assemble to it, once. */
  lemma {:induction false} SplitReassembles(r: Receiver, msg: seq<Byte>, perFrame: nat)
    requires perFrame > 0 && Partway(r, msg, perFrame)
    ensures var q := Arrive(r, PiecesFrom(msg, perFrame, r.expectSeq));
            && q.assembled == msg && q.received == r.received + 1 && q.expectSeq == 0 && q.outOfOrder == r.outOfOrder
    decreases |msg| - Offset(perFrame, r.expectSeq)
  {
    var k := r.expectSeq;
    NextPiece(r, msg, perFrame);
    if Offset(perFrame, k + 1) < |msg| {
      hide FrameIn, PieceAt;
      SplitReassembles(FrameIn(r, PieceAt(msg, perFrame, k)), msg, perFrame);
    } else {
      hide FrameIn, PieceAt;
      assert PiecesFrom(msg, perFrame, k + 1) == [];
      assert PiecesFrom(msg, perFrame, k) == [PieceAt(msg, perFrame, k)];
    }
  }

  /** The whole trip, over any link with room for more than the header: the pieces fit,
      are as few as possible, and assemble to the message. */
  lemma MessageCrossesLink(msg: seq<Byte>, capacity: nat, r: Receiver)
    requires 1 <= |msg| <= MAX_MESSAGE && capacity > HEADER && r.expectSeq == 0
    ensures var perFrame := capacity - HEADER;
            var frames := Split(msg, perFrame);
            && (forall f :: f in frames ==> |f| <= capacity)
            && (|frames| - 1) * perFrame < |msg| <= |frames| * perFrame
            && Arrive(r, frames).assembled == msg && Arrive(r, frames).received == r.received + 1
  {
    var perFrame := capacity - HEADER;
    assert Partway(r, msg, perFrame);
    hide PiecesFrom, Offset, Arrive, FrameIn, PieceAt, Partway;
    PiecesFit(msg, perFrame, 0);
    SplitReassembles(r, msg, perFrame);
    FewestPieces(msg, perFrame);
  }

  lemma FewestPieces(msg: seq<Byte>, perFrame: nat)
    requires perFrame > 0 && msg != []
    ensures var n := |Split(msg, perFrame)|; n > 0 && (n - 1) * perFrame < |msg| <= n * perFrame
  {
    PieceCount(msg, perFrame, 0);
    hide PiecesFrom;
    var n := |Split(msg, perFrame)|;
    OffsetIs(perFrame, n - 1);
    OffsetIs(perFrame, n);
    hide Offset;
  }

  /** A piece of this message, whichever. */
  ghost predicate DrawnFrom(frame: seq<Byte>, msg: seq<Byte>, perFrame: nat)
    requires perFrame > 0
  {
    exists k: nat {:trigger Offset(perFrame, k)} :: Offset(perFrame, k) < |msg| && frame == PieceAt(msg, perFrame, k)
  }

  lemma OnePiece(r: Receiver, msg: seq<Byte>, perFrame: nat, frame: seq<Byte>)
    requires perFrame > 0 && Partway(r, msg, perFrame) && DrawnFrom(frame, msg, perFrame)
    ensures var q := FrameIn(r, frame);
            && Partway(q, msg, perFrame)
            && (q.received == r.received || (q.received == r.received + 1 && q.assembled == msg))
  {
    var k: nat :| Offset(perFrame, k) < |msg| && frame == PieceAt(msg, perFrame, k);
    if k == r.expectSeq {
      hide FrameIn, PieceAt, Partway;
      NextPiece(r, msg, perFrame);
    } else {
      hide FrameIn, PieceAt, Partway;
      WrongPiece(r, msg, perFrame, k);
    }
  }

  /** A piece out of its turn throws the message away. */
  lemma WrongPiece(r: Receiver, msg: seq<Byte>, perFrame: nat, k: nat)
    requires perFrame > 0 && Partway(r, msg, perFrame) && Offset(perFrame, k) < |msg| && k != r.expectSeq
    ensures Partway(FrameIn(r, PieceAt(msg, perFrame, k)), msg, perFrame)
    ensures FrameIn(r, PieceAt(msg, perFrame, k)).received == r.received
  {
    var frame := PieceAt(msg, perFrame, k);
    assert |frame| >= HEADER && frame[0] == k;
    hide PieceAt;
    assert FrameIn(r, frame) == r.(outOfOrder := r.outOfOrder + 1, expectSeq := 0, assembled := []);
  }

  /** Lost, repeated or reordered, in any number: as long as the frames come from one
      message, the count of messages rises only when the whole message stands
      assembled. */
  lemma {:induction false} NeverHalfAMessage(r: Receiver, msg: seq<Byte>, perFrame: nat,
                                              frames: seq<seq<Byte>>, last: seq<Byte>)
    requires perFrame > 0 && Partway(r, msg, perFrame) && DrawnFrom(last, msg, perFrame)
    requires forall i :: 0 <= i < |frames| ==> DrawnFrom(frames[i], msg, perFrame)
    ensures var q := Arrive(r, frames);
            Partway(q, msg, perFrame) && (FrameIn(q, last).received != q.received ==> FrameIn(q, last).assembled == msg)
    decreases |frames|
  {
    if frames == [] {
      OnePiece(r, msg, perFrame, last);
    } else {
      OnePiece(r, msg, perFrame, frames[0]);
      hide FrameIn, DrawnFrom;
      NeverHalfAMessage(FrameIn(r, frames[0]), msg, perFrame, frames[1..], last);
    }
  }

  // --- Frames from anywhere ------------------------------------------------

  predicate Numbered(h: seq<seq<Byte>>) {
    |h| < 256 && forall i :: 0 <= i < |h| ==> |h[i]| >= HEADER && h[i][0] == i && h[i][1] != 0
  }

  function HandAfter(h: seq<seq<Byte>>, f: seq<Byte>): (r: seq<seq<Byte>>)
    requires Numbered(h)
    ensures Numbered(r)
  {
    if |f| < HEADER then h
    else if f[0] != |h| || f[1] == 0 || |h| == 255 then []
    else h + [f]
  }

  /** The frames the receiver has in hand after a list of any frames: those since the last
      gap, completion or wrap of the numbers, numbered from 0 and all promising more. */
  function InHand(frames: seq<seq<Byte>>): (h: seq<seq<Byte>>)
    ensures Numbered(h)
    decreases |frames|
  {
    if frames == [] then [] else HandAfter(InHand(frames[..|frames| - 1]), frames[|frames| - 1])
  }

  /** Frames too short to have a header are not looked at. */
  function LongEnough(frames: seq<seq<Byte>>): seq<seq<Byte>> {
    if frames == [] then []
    else
      LongEnough(frames[..|frames| - 1])
      + (if |frames[|frames| - 1]| < HEADER then [] else [frames[|frames| - 1]])
  }

  /** What is in hand is an unbroken stretch of what arrived, up to the last frame. */
  lemma {:induction false} InHandIsUnbroken(frames: seq<seq<Byte>>)
    ensures var all, h := LongEnough(frames), InHand(frames);
            |h| <= |all| && all[|all| - |h|..] == h
    decreases |frames|
  {
    if frames != [] {
      InHandIsUnbroken(frames[..|frames| - 1]);
    }
  }

  function Bodies(frames: seq<seq<Byte>>): seq<Byte>
    requires forall i :: 0 <= i < |frames| ==> |frames[i]| >= HEADER
  {
    if frames == [] then [] else Bodies(frames[..|frames| - 1]) + frames[|frames| - 1][HEADER..]
  }

  /** As much as the receiver's buffer holds. */
  function Cut(bytes: seq<Byte>): seq<Byte> {
    bytes[..Min(|bytes|, MAX_MESSAGE)]
  }

  lemma CutMore(a: seq<Byte>, b: seq<Byte>)
    ensures var start := Cut(a);
            var room := if |start| < MAX_MESSAGE then MAX_MESSAGE - |start| else 0;
            start + b[..Min(|b|, room)] == Cut(a + b)
  {
  }

  lemma {:induction false} ArriveSnoc(r: Receiver, frames: seq<seq<Byte>>, f: seq<Byte>)
    ensures Arrive(r, frames + [f]) == FrameIn(Arrive(r, frames), f)
    decreases |frames|
  {
    if frames == [] {
      assert [] + [f] == [f] && [f][1..] == [];
      assert Arrive(r, [f]) == Arrive(FrameIn(r, f), []);
    } else {
      assert (frames + [f])[1..] == frames[1..] + [f];
      ArriveSnoc(FrameIn(r, frames[0]), frames[1..], f);
    }
  }

  lemma BodiesSnoc(h: seq<seq<Byte>>, f: seq<Byte>)
    requires |f| >= HEADER && forall i :: 0 <= i < |h| ==> |h[i]| >= HEADER
    ensures Bodies(h + [f]) == Bodies(h) + f[HEADER..]
  {
    assert (h + [f])[..|h|] == h;
  }

  /** One frame of any sender: it completes a message exactly when it has the number due
      and promises no more. */
  lemma AnyFrame(r: Receiver, h: seq<seq<Byte>>, f: seq<Byte>)
    requires r.expectSeq == |h| < 256 && forall i :: 0 <= i < |h| ==> |h[i]| >= HEADER
    requires h != [] ==> r.assembled == Cut(Bodies(h))
    ensures var q := FrameIn(r, f);
            && (q.received == r.received + 1 <==> |f| >= HEADER && f[0] == |h| && f[1] == 0)
            && (q.received == r.received || q.received == r.received + 1)
            && (|f| >= HEADER && f[0] == |h| ==> q.assembled == Cut(Bodies(h + [f])))
            && q.expectSeq == if |f| < HEADER then |h| else if f[0] == |h| && f[1] != 0 then (|h| + 1) % 256 else 0
  {
    if |f| >= HEADER && f[0] == |h| {
      BodiesSnoc(h, f);
      var start := if h == [] then [] else r.assembled;
      assert start == Cut(Bodies(h));
      hide Bodies, Cut;
      CutMore(Bodies(h), f[HEADER..]);
      var room := if |start| < MAX_MESSAGE then MAX_MESSAGE - |start| else 0;
      assert f[HEADER..][..Min(|f| - HEADER, room)] == f[HEADER..HEADER + Min(|f| - HEADER, room)];
    }
  }

  lemma KeepsHand(q: Receiver, h: seq<seq<Byte>>, f: seq<Byte>)
    requires Numbered(h) && q.expectSeq == |h| && (h != [] ==> q.assembled == Cut(Bodies(h)))
    ensures var next, r := HandAfter(h, f), FrameIn(q, f);
            r.expectSeq == |next| && (next != [] ==> r.assembled == Cut(Bodies(next)))
  {
    AnyFrame(q, h, f);
    ShortFrame(q, f);
    hide FrameIn, Bodies, Cut;
  }

  lemma ShortFrame(q: Receiver, f: seq<Byte>)
    ensures |f| < HEADER ==> FrameIn(q, f) == q
  {
  }

  lemma {:induction false} HandIsKept(r: Receiver, frames: seq<seq<Byte>>)
    requires r.expectSeq == 0
    ensures var q := Arrive(r, frames);
            q.expectSeq == |InHand(frames)| && (InHand(frames) != [] ==> q.assembled == Cut(Bodies(InHand(frames))))
    decreases |frames|
  {
    if frames != [] {
      hide FrameIn, Arrive, Bodies, Cut;
      var n := |frames| - 1;
      assert frames == frames[..n] + [frames[n]];
      HandIsKept(r, frames[..n]);
      ArriveSnoc(r, frames[..n], frames[n]);
      hide HandAfter;
      KeepsHand(Arrive(r, frames[..n]), InHand(frames[..n]), frames[n]);
    }
  }

  /** Whoever sent them: a frame completes a message exactly when it has the number after
      the unbroken numbered run before it and promises no more, and what completes is the
      bodies of that run and its own, cut at the buffer's length. */
  lemma WhatCompletes(r: Receiver, frames: seq<seq<Byte>>, last: seq<Byte>)
    requires r.expectSeq == 0
    ensures var q, h := Arrive(r, frames), InHand(frames);
            && (FrameIn(q, last).received > q.received <==> |last| >= HEADER && last[0] == |h| && last[1] == 0)
            && (FrameIn(q, last).received > q.received ==> FrameIn(q, last).assembled == Cut(Bodies(h + [last])))
  {
    HandIsKept(r, frames);
    hide FrameIn, Arrive, Bodies, Cut, InHand;
    AnyFrame(Arrive(r, frames), InHand(frames), last);
  }

  /** Pieces of two messages are not told apart: after the first piece of one, the second
      of the other completes a message nobody sent. */
  lemma MixingGoesUnseen(a: seq<Byte>, b: seq<Byte>, perFrame: nat, r: Receiver)
    requires perFrame > 0 && perFrame < |a| <= MAX_MESSAGE && perFrame < |b| <= 2 * perFrame && |b| <= MAX_MESSAGE
    requires r.expectSeq == 0
    ensures Offset(perFrame, 1) == perFrame
    ensures Arrive(r, [PieceAt(a, perFrame, 0), PieceAt(b, perFrame, 1)])
            == r.(assembled := a[..perFrame] + b[perFrame..], received := r.received + 1)
  {
    assert Offset(perFrame, 1) == Offset(perFrame, 0) + perFrame;
    var f, g := PieceAt(a, perFrame, 0), PieceAt(b, perFrame, 1);
    var r1 := FrameIn(r, f);
    assert f[HEADER..] == a[..perFrame];
    assert r1.assembled == a[..perFrame];
    assert g[HEADER..] == b[perFrame..];
    assert Offset(perFrame, 1) + Min(|b| - perFrame, perFrame) == |b|;
    assert FrameIn(r1, g) == r.(assembled := a[..perFrame] + b[perFrame..], received := r.received + 1);
    assert Arrive(r, [f, g]) == Arrive(r1, [g]);
  }

  // --- The sender over a run -----------------------------------------------

  /** A message is on its way: what it still has to send is the rest of its split, at the
      size its link allows. */
  predicate OnItsWay(links: Links, s: Sender, msg: seq<Byte>, k: nat)
  {
    && s.sending && s.perFrame > 0 && s.pending == msg && 1 <= |msg| <= MAX_MESSAGE && k == s.seqNo
    && s.sent == Offset(s.perFrame, k) < |msg| && (HEADER + s.perFrame) * 8 <= links[s.bus]
  }

  lemma EmitOne(links: Links, s: Sender, msg: seq<Byte>, now: int)
    requires OnItsWay(links, s, msg, s.seqNo)
    ensures s.sent <= |s.pending|
    ensures var (q, ok) := EmitNext(links, s, now);
            && ok && q.out == s.out + [Sent(s.bus, PieceAt(msg, s.perFrame, s.seqNo), now)] && q.perFrame == s.perFrame
            && q.refused == s.refused && q.bus == s.bus
            && (Offset(s.perFrame, s.seqNo + 1) < |msg| ==>
                  OnItsWay(links, q, msg, s.seqNo + 1) && q.nextFrameUs == now + FRAME_GAP_US)
            && (Offset(s.perFrame, s.seqNo + 1) >= |msg| ==> !q.sending)
  {
    var k := s.seqNo;
    assert Offset(s.perFrame, k + 1) == s.sent + s.perFrame;
    assert k <= s.sent < MAX_MESSAGE;
  }

  /** Advancing at each moment the sender asks for. */
  function AdvanceAtWakes(links: Links, s: Sender, n: nat): (r: Sender)
    requires s.sent <= |s.pending|
    ensures r.sent <= |r.pending|
    decreases n
  {
    if n == 0 then s else AdvanceAtWakes(links, AdvanceTo(links, s, s.nextFrameUs), n - 1)
  }

  /** The split pieces go out on one bus, the first at `at` and the rest one gap apart. */
  function Spaced(bus: Byte, frames: seq<seq<Byte>>, at: int): seq<Sent>
    decreases |frames|
  {
    if frames == [] then [] else [Sent(bus, frames[0], at)] + Spaced(bus, frames[1..], at + FRAME_GAP_US)
  }

  lemma {:induction false} RestGoesOut(links: Links, s: Sender, msg: seq<Byte>, n: nat)
    requires OnItsWay(links, s, msg, s.seqNo) && n >= |PiecesFrom(msg, s.perFrame, s.seqNo)|
    ensures s.sent <= |s.pending|
    ensures var q := AdvanceAtWakes(links, s, n);
            && !q.sending && q.refused == s.refused
            && q.out == s.out + Spaced(s.bus, PiecesFrom(msg, s.perFrame, s.seqNo), s.nextFrameUs)
    decreases n
  {
    var k := s.seqNo;
    var now := s.nextFrameUs;
    EmitOne(links, s, msg, now);
    var q := AdvanceTo(links, s, now);
    assert q == EmitNext(links, s, now).0 && Offset(s.perFrame, k) < |msg|;
    hide EmitNext, PieceAt, OnItsWay, Offset, AdvanceTo;
    var rest := PiecesFrom(msg, s.perFrame, k + 1);
    var frames := [PieceAt(msg, s.perFrame, k)] + rest;
    assert PiecesFrom(msg, s.perFrame, k) == frames && frames[1..] == rest;
    SpacedCons(s.out, s.bus, frames, now);
    if Offset(s.perFrame, k + 1) < |msg| {
      RestGoesOut(links, q, msg, n - 1);
    } else {
      Idle(links, q, n - 1);
    }
  }

  lemma {:induction false} Idle(links: Links, s: Sender, n: nat)
    requires s.sent <= |s.pending| && !s.sending
    ensures AdvanceAtWakes(links, s, n) == s
    decreases n
  {
    if n > 0 {
      Idle(links, s, n - 1);
    }
  }

  lemma FirstGoesOut(links: Links, s: Sender, now: int, bus: Byte, msg: seq<Byte>)
    requires s.sent <= |s.pending| && 1 <= |msg| <= MAX_MESSAGE && links[bus] / 8 > HEADER
    ensures var (q, ok) := ChannelWrite(links, s, now, [bus] + msg);
            var per := links[bus] / 8 - HEADER;
            && ok && q.sentMessages == s.sentMessages + 1 && q.refused == s.refused && q.bus == bus
            && q.perFrame == per && q.out == s.out + [Sent(bus, PieceAt(msg, per, 0), now)]
            && (Offset(per, 1) < |msg| ==> OnItsWay(links, q, msg, 1) && q.nextFrameUs == now + FRAME_GAP_US)
            && (Offset(per, 1) >= |msg| ==> !q.sending)
  {
    assert ([bus] + msg)[1..] == msg;
    hide EmitNext, PieceAt;
    EmitOne(links, s.(perFrame := links[bus] / 8 - HEADER, bus := bus, pending := msg, sent := 0, seqNo := 0,
                      sending := true),
            msg, now);
  }

  lemma SpacedCons(out: seq<Sent>, bus: Byte, frames: seq<seq<Byte>>, now: int)
    requires frames != []
    ensures out + Spaced(bus, frames, now) ==
            out + [Sent(bus, frames[0], now)] + Spaced(bus, frames[1..], now + FRAME_GAP_US)
  {
  }

  /** An accepted message goes out whole: the frames its link sees are exactly its split,
      none refused, one gap apart. */
  lemma MessageGoesOut(links: Links, s: Sender, now: int, bus: Byte, msg: seq<Byte>)
    requires s.sent <= |s.pending| && 1 <= |msg| <= MAX_MESSAGE && links[bus] / 8 > HEADER
    ensures var (q, ok) := ChannelWrite(links, s, now, [bus] + msg);
            var frames := Split(msg, links[bus] / 8 - HEADER);
            && ok && q.sentMessages == s.sentMessages + 1
            && var done := AdvanceAtWakes(links, q, |frames|);
               !done.sending && done.refused == s.refused && done.out == s.out + Spaced(bus, frames, now)
  {
    var per := links[bus] / 8 - HEADER;
    FirstGoesOut(links, s, now, bus, msg);
    hide ChannelWrite, EmitNext, PieceAt, AdvanceAtWakes;
    var q := ChannelWrite(links, s, now, [bus] + msg).0;
    var rest := PiecesFrom(msg, per, 1);
    var frames := [PieceAt(msg, per, 0)] + rest;
    assert Split(msg, per) == frames && frames[1..] == rest;
    SpacedCons(s.out, bus, frames, now);
    if Offset(per, 1) < |msg| {
      RestGoesOut(links, q, msg, |frames|);
    } else {
      Idle(links, q, |frames|);
    }
  }

  // --- Advances at any moments ---------------------------------------------

  function AdvanceEach(links: Links, s: Sender, times: seq<int>): (r: Sender)
    requires s.sent <= |s.pending|
    ensures r.sent <= |r.pending|
    decreases |times|
  {
    if times == [] then s else AdvanceEach(links, AdvanceTo(links, s, times[0]), times[1..])
  }

  /** Each advance at or after the moment due takes one frame, and the next is due a gap
      after that advance. */
  function Taken(bus: Byte, frames: seq<seq<Byte>>, due: int, times: seq<int>): (r: seq<Sent>)
    ensures |r| <= |frames| && |r| <= |times|
    ensures forall k :: 0 <= k < |r| ==> r[k].bus == bus && r[k].frame == frames[k]
    ensures r != [] ==> r[0].at >= due
    ensures forall k :: 1 <= k < |r| ==> r[k].at >= r[k - 1].at + FRAME_GAP_US
    decreases |times|
  {
    if frames == [] || times == [] then []
    else if times[0] < due then Taken(bus, frames, due, times[1..])
    else [Sent(bus, frames[0], times[0])] + Taken(bus, frames[1..], times[0] + FRAME_GAP_US, times[1..])
  }

  lemma PiecesHead(msg: seq<Byte>, perFrame: nat, k: nat)
    requires perFrame > 0 && Offset(perFrame, k) < |msg|
    ensures var frames, rest := PiecesFrom(msg, perFrame, k), PiecesFrom(msg, perFrame, k + 1);
            && frames != [] && frames[0] == PieceAt(msg, perFrame, k) && frames[1..] == rest
            && (rest == [] <==> Offset(perFrame, k + 1) >= |msg|)
  {
  }

  lemma AdvanceOnce(links: Links, s: Sender, now: int)
    requires s.sent <= |s.pending| && s.sending
    ensures AdvanceTo(links, s, now) == if now >= s.nextFrameUs then EmitNext(links, s, now).0 else s
  {
  }

  /** Whenever the sender is advanced, what goes out is the rest of the split in order, at
      least a gap apart; the message is over once all of it has gone. */
  lemma {:induction false} AnyAdvances(links: Links, s: Sender, msg: seq<Byte>, times: seq<int>)
    requires OnItsWay(links, s, msg, s.seqNo)
    ensures s.sent <= |s.pending|
    ensures var q := AdvanceEach(links, s, times);
            var frames := PiecesFrom(msg, s.perFrame, s.seqNo);
            var taken := Taken(s.bus, frames, s.nextFrameUs, times);
            && q.out == s.out + taken && q.refused == s.refused && (q.sending <==> |taken| < |frames|)
    decreases |times|
  {
    PiecesHead(msg, s.perFrame, s.seqNo);
    AdvanceOnce(links, s, if times == [] then 0 else times[0]);
    hide EmitNext, PieceAt, PiecesFrom, AdvanceTo;
    var frames := PiecesFrom(msg, s.perFrame, s.seqNo);
    if times == [] {
    } else if times[0] < s.nextFrameUs {
      AnyAdvances(links, s, msg, times[1..]);
    } else {
      EmitOne(links, s, msg, times[0]);
      var q := AdvanceTo(links, s, times[0]);
      hide OnItsWay;
      if Offset(s.perFrame, s.seqNo + 1) < |msg| {
        AnyAdvances(links, q, msg, times[1..]);
        Later(s.out, frames[0], s.bus, times[0], Taken(q.bus, frames[1..], q.nextFrameUs, times[1..]));
      } else {
        IdleEach(links, q, times[1..]);
      }
    }
  }

  lemma Later(out: seq<Sent>, frame: seq<Byte>, bus: Byte, at: int, rest: seq<Sent>)
    ensures out + [Sent(bus, frame, at)] + rest == out + ([Sent(bus, frame, at)] + rest)
  {
  }

  lemma {:induction false} IdleEach(links: Links, s: Sender, times: seq<int>)
    requires s.sent <= |s.pending| && !s.sending
    ensures AdvanceEach(links, s, times) == s
    decreases |times|
  {
    if times != [] {
      IdleEach(links, s, times[1..]);
    }
  }

  /** An accepted message, the sender advanced at any moments whatever: its first piece
      goes at once, the others as they are due. */
  lemma MessageGoesOutAnyTime(links: Links, s: Sender, now: int, bus: Byte, msg: seq<Byte>, times: seq<int>)
    requires s.sent <= |s.pending| && 1 <= |msg| <= MAX_MESSAGE && links[bus] / 8 > HEADER
    ensures var q := AdvanceEach(links, ChannelWrite(links, s, now, [bus] + msg).0, times);
            var frames := Split(msg, links[bus] / 8 - HEADER);
            && frames != []
            && var taken := Taken(bus, frames[1..], now + FRAME_GAP_US, times);
               && q.out == s.out + [Sent(bus, frames[0], now)] + taken && q.refused == s.refused
               && (q.sending <==> |taken| < |frames| - 1)
  {
    var per := links[bus] / 8 - HEADER;
    FirstGoesOut(links, s, now, bus, msg);
    hide ChannelWrite, EmitNext, PieceAt, AdvanceTo;
    var q := ChannelWrite(links, s, now, [bus] + msg).0;
    assert Split(msg, per)[1..] == PiecesFrom(msg, per, 1);
    if Offset(per, 1) < |msg| {
      hide PiecesFrom, AdvanceEach;
      AnyAdvances(links, q, msg, times);
    } else {
      IdleEach(links, q, times);
    }
  }

  /** How time is cut into advances matters: with two pieces or more to go, advancing at
      m on the way to t sends one more than advancing to t alone exactly when a piece was
      due by m and the next a gap later by t. */
  lemma JumpsMatter(links: Links, s: Sender, msg: seq<Byte>, m: int, t: int)
    requires OnItsWay(links, s, msg, s.seqNo) && Offset(s.perFrame, s.seqNo + 1) < |msg| && m <= t
    ensures s.sent <= |s.pending|
    ensures |AdvanceEach(links, s, [m, t]).out| ==
            |AdvanceEach(links, s, [t]).out| + (if s.nextFrameUs <= m && m + FRAME_GAP_US <= t then 1 else 0)
  {
    hide AdvanceEach, PiecesFrom, PieceAt;
    AnyAdvances(links, s, msg, [m, t]);
    AnyAdvances(links, s, msg, [t]);
    PiecesHead(msg, s.perFrame, s.seqNo);
    hide OnItsWay, Offset;
    TwoMoments(s.bus, PiecesFrom(msg, s.perFrame, s.seqNo), s.nextFrameUs, m, t);
  }

  lemma TwoMoments(bus: Byte, frames: seq<seq<Byte>>, due: int, m: int, t: int)
    requires |frames| >= 2 && m <= t
    ensures |Taken(bus, frames, due, [m, t])| ==
            |Taken(bus, frames, due, [t])| + (if due <= m && m + FRAME_GAP_US <= t then 1 else 0)
  {
    assert [m, t][1..] == [t];
    OneMoment(bus, frames, due, t);
    OneMoment(bus, frames[1..], m + FRAME_GAP_US, t);
  }

  lemma OneMoment(bus: Byte, frames: seq<seq<Byte>>, due: int, t: int)
    requires frames != []
    ensures |Taken(bus, frames, due, [t])| == if t < due then 0 else 1
  {
    assert [t][1..] == [];
  }

  /** A message that is too long is refused, but only after the piece size has been set
      for its link: a message on its way to another link then loses its next piece, and
      with it the rest, exactly when the new size makes that piece too big. */
  lemma TooLongDisturbsAnother(links: Links, s: Sender, msg: seq<Byte>, now: int, bus: Byte, body: seq<Byte>)
    requires OnItsWay(links, s, msg, s.seqNo) && |body| > MAX_MESSAGE && links[bus] / 8 > HEADER
    ensures s.sent <= |s.pending|
    ensures var (q, ok) := ChannelWrite(links, s, now, [bus] + body);
            var per := links[bus] / 8 - HEADER;
            && !ok && q == s.(perFrame := per)
            && (EmitNext(links, q, now).1 <==> (HEADER + Min(|msg| - s.sent, per)) * 8 <= links[s.bus])
  {
    assert ([bus] + body)[1..] == body;
  }
}
