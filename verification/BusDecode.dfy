/** Putting a logic analyzer's bus events together into the transfers that made them, and on
    into a tape that answers as the bus did. */
module BusDecode {
  import opened Wrappers
  import opened Pairing
  import opened Tape
  import opened TapeBuild

  /** One bus event. Only an address row's time is kept. */
  datatype BusEvent =
    | Start
    | Address(time: Option<int>, address: nat, read: bool)
    | Byte(b: bv8)
    | Acked(ack: bool)
    | Stop

  /** A transfer being gathered: the first acknowledge is the address's, and a write's
      later ones are its bytes'. */
  datatype Gathered = Gathered(time: Option<int>, address: nat, read: bool, addressAcked: Option<bool>,
                               data: seq<bv8>, acks: seq<bool>, stop: bool)

  /** The two lines of a transfer. */
  datatype Line =
    | WriteLine(time: Option<int>, address: nat, data: seq<bv8>, stop: bool, rs: bool, status: nat)
    | ReadLine(time: Option<int>, address: nat, want: nat, stop: bool, rs: bool, got: seq<bv8>, refused: bool)

  datatype Decoder = Decoder(open: Option<Gathered>, last: Option<Gathered>, lines: seq<Line>)

  const IDLE := Decoder(None, None, [])

  function LineOf(x: Gathered, stop: bool, rs: bool): Line {
    var acked := x.addressAcked == Some(true);
    if x.read then ReadLine(x.time, x.address, |x.data|, stop, rs, if acked then x.data else [], !acked)
    else WriteLine(x.time, x.address, x.data, stop, rs,
                   if x.addressAcked == Some(false) then 2 else if false in x.acks then 3 else 0)
  }

  function Close(d: Decoder, x: Gathered, stop: bool): Decoder {
    var rs := d.last.Some? && !d.last.value.stop && d.last.value.address == x.address;
    Decoder(None, Some(x.(stop := stop)), d.lines + [LineOf(x, stop, rs)])
  }

  function CloseOpen(d: Decoder, stop: bool): Decoder {
    if d.open.Some? then Close(d, d.open.value, stop) else d
  }

  /** One row. An address without a START takes the open transfer as stopped. */
  function DecodeStep(d: Decoder, e: BusEvent): Decoder {
    match e
    case Start => CloseOpen(d, false)
    case Address(time, address, read) =>
      CloseOpen(d, true).(open := Some(Gathered(time, address, read, None, [], [], true)))
    case Byte(b) =>
      if d.open.None? then d else d.(open := Some(d.open.value.(data := d.open.value.data + [b])))
    case Acked(ack) =>
      if d.open.None? then d
      else
        var x := d.open.value;
        if x.addressAcked.None? then d.(open := Some(x.(addressAcked := Some(ack))))
        else if !x.read then d.(open := Some(x.(acks := x.acks + [ack])))
        else d
    case Stop => CloseOpen(d, true)
  }

  function DecodeFrom(d: Decoder, events: seq<BusEvent>): Decoder
    decreases |events|
  {
    if events == [] then d else DecodeFrom(DecodeStep(d, events[0]), events[1..])
  }

  function Decode(events: seq<BusEvent>): seq<Line> {
    CloseOpen(DecodeFrom(IDLE, events), true).lines
  }

  /** The loop over rows, with its open and its last transfer. */
  method ToLines(events: seq<BusEvent>) returns (lines: seq<Line>)
    ensures lines == Decode(events)
  {
    lines := [];
    var open: Option<Gathered>, last: Option<Gathered> := None, None;
    assert events[0..] == events;
    for n := 0 to |events|
      invariant DecodeFrom(Decoder(open, last, lines), events[n..]) == DecodeFrom(IDLE, events)
    {
      assert events[n..][1..] == events[n + 1..];
      match events[n] {
        case Start =>
          if open.Some? {
            lines, last := CloseLines(lines, last, open.value, false);
            open := None;
          }
        case Address(time, address, read) =>
          if open.Some? {
            lines, last := CloseLines(lines, last, open.value, true);
          }
          open := Some(Gathered(time, address, read, None, [], [], true));
        case Byte(b) =>
          if open.Some? {
            open := Some(open.value.(data := open.value.data + [b]));
          }
        case Acked(ack) =>
          if open.Some? {
            if open.value.addressAcked.None? {
              open := Some(open.value.(addressAcked := Some(ack)));
            } else if !open.value.read {
              open := Some(open.value.(acks := open.value.acks + [ack]));
            }
          }
        case Stop =>
          if open.Some? {
            lines, last := CloseLines(lines, last, open.value, true);
            open := None;
          }
      }
    }
    if open.Some? {
      lines, last := CloseLines(lines, last, open.value, true);
    }
  }

  method CloseLines(lines: seq<Line>, last: Option<Gathered>, x: Gathered, stop: bool)
    returns (now: seq<Line>, closed: Option<Gathered>)
    ensures Decoder(None, closed, now) == Close(Decoder(Some(x), last, lines), x, stop)
  {
    var rs := last.Some? && !last.value.stop && last.value.address == x.address;
    now := lines + [LineOf(x, stop, rs)];
    closed := Some(x.(stop := stop));
  }

  // --- What any rows mean --------------------------------------------------

  /** An address row with the byte and acknowledge rows that follow it, and whether the
      capture has it stopped: by a STOP, by an address without a START or by its end. */
  datatype Segment = Segment(time: Option<int>, address: nat, read: bool, rows: seq<BusEvent>, stop: bool)

  predicate Ends(e: BusEvent) {
    e.Start? || e.Address? || e.Stop?
  }

  function BodyLength(events: seq<BusEvent>): (r: nat)
    ensures r <= |events| && (r < |events| ==> Ends(events[r]))
    ensures forall i :: 0 <= i < r ==> !Ends(events[i])
  {
    if events == [] || Ends(events[0]) then 0 else 1 + BodyLength(events[1..])
  }

  function Segments(events: seq<BusEvent>): seq<Segment>
    decreases |events|
  {
    if events == [] then []
    else if !events[0].Address? then Segments(events[1..])
    else
      var rest := events[1..];
      var n := BodyLength(rest);
      [Segment(events[0].time, events[0].address, events[0].read, rest[..n], n == |rest| || !rest[n].Start?)]
        + Segments(rest[n..])
  }

  function BytesIn(rows: seq<BusEvent>): seq<bv8> {
    if rows == [] then [] else (if rows[0].Byte? then [rows[0].b] else []) + BytesIn(rows[1..])
  }

  function AcksIn(rows: seq<BusEvent>): seq<bool> {
    if rows == [] then [] else (if rows[0].Acked? then [rows[0].ack] else []) + AcksIn(rows[1..])
  }

  /** The lines of a segment: the first acknowledge is its address's. */
  function SegmentLine(s: Segment, continues: bool): Line {
    var bytes, acks := BytesIn(s.rows), AcksIn(s.rows);
    if s.read then
      var answered := acks != [] && acks[0];
      ReadLine(s.time, s.address, |bytes|, s.stop, continues, if answered then bytes else [], !answered)
    else
      var status := if acks == [] then 0 else if !acks[0] then 2
                    else if exists i :: 1 <= i < |acks| && !acks[i] then 3 else 0;
      WriteLine(s.time, s.address, bytes, s.stop, continues, status)
  }

  function SegmentLines(before: Option<Segment>, segments: seq<Segment>): (r: seq<Line>)
    decreases |segments|
  {
    if segments == [] then []
    else
      var s := segments[0];
      var continues := before.Some? && !before.value.stop && before.value.address == s.address;
      [SegmentLine(s, continues)] + SegmentLines(Some(s), segments[1..])
  }

  lemma {:induction false} DecodeAppend(d: Decoder, a: seq<BusEvent>, b: seq<BusEvent>)
    ensures DecodeFrom(d, a + b) == DecodeFrom(DecodeFrom(d, a), b)
    decreases |a|
  {
    if a == [] {
      assert a + b == b;
    } else {
      hide DecodeStep;
      assert (a + b)[1..] == a[1..] + b;
      DecodeAppend(DecodeStep(d, a[0]), a[1..], b);
    }
  }

  /** The transfer that byte and acknowledge rows make of an open one. */
  function WithRows(x: Gathered, rows: seq<BusEvent>): Gathered {
    var bytes, acks := BytesIn(rows), AcksIn(rows);
    if x.addressAcked.Some? then x.(data := x.data + bytes, acks := if x.read then x.acks else x.acks + acks)
    else if acks == [] then x.(data := x.data + bytes)
    else x.(data := x.data + bytes, addressAcked := Some(acks[0]),
            acks := if x.read then x.acks else x.acks + acks[1..])
  }

  lemma {:induction false} DecodeBody(d: Decoder, rows: seq<BusEvent>)
    requires d.open.Some? && forall i :: 0 <= i < |rows| ==> !Ends(rows[i])
    ensures DecodeFrom(d, rows) == d.(open := Some(WithRows(d.open.value, rows)))
    decreases |rows|
  {
    var x := d.open.value;
    if rows == [] {
      assert x.data + [] == x.data && x.acks + [] == x.acks;
    } else {
      var e := DecodeStep(d, rows[0]);
      DecodeBody(e, rows[1..]);
      hide DecodeFrom;
      RowsAgain(x, e.open.value, rows);
    }
  }

  lemma RowsAgain(x: Gathered, y: Gathered, rows: seq<BusEvent>)
    requires rows != [] && !Ends(rows[0]) && DecodeStep(Decoder(Some(x), None, []), rows[0]).open == Some(y)
    ensures WithRows(y, rows[1..]) == WithRows(x, rows)
  {
    var bytes, acks := BytesIn(rows[1..]), AcksIn(rows[1..]);
    if rows[0].Byte? {
      Regroup(x.data, [rows[0].b], bytes);
      assert [] + acks == acks;
    } else {
      Regroup(x.acks, [rows[0].ack], acks);
      assert ([rows[0].ack] + acks)[1..] == acks;
      assert [] + bytes == bytes;
    }
  }

  /** What the decoder calls its last transfer. */
  predicate Recalls(d: Decoder, before: Option<Segment>) {
    && (d.last.Some? <==> before.Some?)
    && (before.Some? ==> d.last.value.stop == before.value.stop && d.last.value.address == before.value.address)
  }

  lemma RefusedLater(acks: seq<bool>)
    requires acks != []
    ensures false in acks[1..] <==> exists i :: 1 <= i < |acks| && !acks[i]
  {
    if false in acks[1..] {
      var k :| 0 <= k < |acks[1..]| && acks[1..][k] == false;
      assert acks[k + 1] == false;
    }
    forall i | 1 <= i < |acks| && !acks[i]
      ensures false in acks[1..]
    {
      assert acks[1..][i - 1] == acks[i];
    }
  }

  function Opened(s: Segment): Gathered {
    Gathered(s.time, s.address, s.read, None, [], [], true)
  }

  lemma SegmentCloses(s: Segment, rs: bool)
    ensures LineOf(WithRows(Opened(s), s.rows), s.stop, rs) == SegmentLine(s, rs)
  {
    hide BytesIn, AcksIn;
    var acks := AcksIn(s.rows);
    assert [] + BytesIn(s.rows) == BytesIn(s.rows);
    if acks != [] {
      RefusedLater(acks);
      assert [] + acks[1..] == acks[1..];
    }
  }

  lemma CloseSegment(d: Decoder, before: Option<Segment>, s: Segment)
    requires Recalls(d, before) && d.open.None?
    ensures var c := Close(d, WithRows(Opened(s), s.rows), s.stop);
            && c.open.None? && Recalls(c, Some(s)) && c.lines == d.lines + SegmentLines(before, [s])
  {
    SegmentCloses(s, before.Some? && !before.value.stop && before.value.address == s.address);
    hide LineOf, SegmentLine;
  }

  /** What ends a segment closes it as the segment says, and then means what it would with
      nothing open. */
  lemma EndOfSegment(f: Decoder, c: Decoder, y: Gathered, rest: seq<BusEvent>, stop: bool)
    requires f.open == Some(y) && c == Close(f.(open := None), y, stop)
    requires rest == [] || Ends(rest[0])
    requires stop == (rest == [] || !rest[0].Start?)
    ensures CloseOpen(DecodeFrom(f, rest), true) == CloseOpen(DecodeFrom(c, rest), true)
  {
    if rest != [] {
      assert DecodeStep(f, rest[0]) == DecodeStep(c, rest[0]);
    }
  }

  /** The rows of a first segment, decoded. */
  lemma FirstSegment(d: Decoder, before: Option<Segment>, events: seq<BusEvent>) returns (c: Decoder)
    requires d.open.None? && Recalls(d, before) && events != [] && events[0].Address?
    ensures var s, rest := Segments(events)[0], events[1..][BodyLength(events[1..])..];
            && c.open.None? && Recalls(c, Some(s)) && c.lines == d.lines + SegmentLines(before, [s])
            && CloseOpen(DecodeFrom(d, events), true) == CloseOpen(DecodeFrom(c, rest), true)
            && Segments(events) == [s] + Segments(rest)
  {
    var rest := events[1..];
    var n := BodyLength(rest);
    var s := Segments(events)[0];
    var y := WithRows(Opened(s), s.rows);
    var o, f := d.(open := Some(Opened(s))), d.(open := Some(y));
    c := Close(d, y, s.stop);
    assert DecodeStep(d, events[0]) == o;
    assert DecodeFrom(d, events) == DecodeFrom(o, rest);
    hide DecodeStep, DecodeFrom, WithRows, SegmentLine, LineOf;
    CloseSegment(d, before, s);
    assert rest == rest[..n] + rest[n..];
    DecodeAppend(o, rest[..n], rest[n..]);
    DecodeBody(o, rest[..n]);
    EndOfSegment(f, c, y, rest[n..], s.stop);
  }

  lemma {:induction false} DecodeSegments(d: Decoder, before: Option<Segment>, events: seq<BusEvent>)
    requires d.open.None? && Recalls(d, before)
    ensures CloseOpen(DecodeFrom(d, events), true).lines == d.lines + SegmentLines(before, Segments(events))
    decreases |events|
  {
    if events == [] {
      assert d.lines + [] == d.lines;
    } else if !events[0].Address? {
      DecodeSegments(d, before, events[1..]);
    } else {
      var c := FirstSegment(d, before, events);
      var s, rest := Segments(events)[0], events[1..][BodyLength(events[1..])..];
      DecodeSegments(c, Some(s), rest);
      hide DecodeFrom, SegmentLine;
      Regroup(d.lines, SegmentLines(before, [s]), SegmentLines(Some(s), Segments(rest)));
    }
  }

  /** The lines of any rows whatever: one pair for each address row, in order, of what stands
      between it and the next START, address or STOP. */
  lemma DecodesBySegments(events: seq<BusEvent>)
    ensures Decode(events) == SegmentLines(None, Segments(events))
  {
    DecodeSegments(IDLE, None, events);
    assert [] + SegmentLines(None, Segments(events)) == SegmentLines(None, Segments(events));
  }

  // --- The bus side --------------------------------------------------------

  /** A transfer as the bus carried it: each byte with its acknowledge. */
  datatype Transfer = Transfer(time: Option<int>, address: nat, read: bool, acked: bool,
                               bytes: seq<(bv8, bool)>, stop: bool)

  /** A transfer as a capture shows it: its STOP as a row or not, and its START as a row or
      not. */
  datatype Captured = Captured(transfer: Transfer, started: bool)

  function BytesOnBus(bytes: seq<(bv8, bool)>): seq<BusEvent> {
    if bytes == [] then [] else [Byte(bytes[0].0), Acked(bytes[0].1)] + BytesOnBus(bytes[1..])
  }

  function BodyRows(t: Transfer): seq<BusEvent> {
    [Acked(t.acked)] + BytesOnBus(t.bytes)
  }

  function RowsOf(x: Captured): seq<BusEvent> {
    (if x.started then [Start] else [])
      + ([Address(x.transfer.time, x.transfer.address, x.transfer.read)]
         + (BodyRows(x.transfer) + (if x.transfer.stop then [Stop] else [])))
  }

  function Rows(xs: seq<Captured>): seq<BusEvent> {
    if xs == [] then [] else RowsOf(xs[0]) + Rows(xs[1..])
  }

  /** The transfers a capture is taken to show: one without a STOP row was followed by a
      repeated START if a START row follows, and else stopped. */
  function Seen(xs: seq<Captured>): (r: seq<Transfer>)
    ensures |r| == |xs|
  {
    if xs == [] then []
    else
      var t := xs[0].transfer;
      [t.(stop := t.stop || |xs| == 1 || !xs[1].started)] + Seen(xs[1..])
  }

  function DataOf(t: Transfer): (r: seq<bv8>)
    ensures |r| == |t.bytes|
  {
    seq(|t.bytes|, i requires 0 <= i < |t.bytes| => t.bytes[i].0)
  }

  function AcksOf(t: Transfer): (r: seq<bool>)
    ensures |r| == |t.bytes|
  {
    seq(|t.bytes|, i requires 0 <= i < |t.bytes| => t.bytes[i].1)
  }

  predicate AllAcked(t: Transfer) {
    forall i :: 0 <= i < |t.bytes| ==> t.bytes[i].1
  }

  /** What the transfer's lines must say, in the bus's own terms. */
  function LineFor(t: Transfer, continues: bool): Line {
    if t.read then
      ReadLine(t.time, t.address, |t.bytes|, t.stop, continues, if t.acked then DataOf(t) else [], !t.acked)
    else
      var status := if !t.acked then 2 else if AllAcked(t) then 0 else 3;
      WriteLine(t.time, t.address, DataOf(t), t.stop, continues, status)
  }

  /** Whether a transfer continues the one before it by a repeated START. */
  predicate Continues(before: Option<Transfer>, t: Transfer) {
    before.Some? && !before.value.stop && before.value.address == t.address
  }

  function LinesFor(before: Option<Transfer>, ts: seq<Transfer>): (r: seq<Line>)
    ensures |r| == |ts|
    decreases |ts|
  {
    if ts == [] then [] else [LineFor(ts[0], Continues(before, ts[0]))] + LinesFor(Some(ts[0]), ts[1..])
  }

  function SegmentOf(t: Transfer): Segment {
    Segment(t.time, t.address, t.read, BodyRows(t), t.stop)
  }

  lemma PairRead(b: bv8, ack: bool, rest: seq<BusEvent>)
    ensures BytesIn([Byte(b), Acked(ack)] + rest) == [b] + BytesIn(rest)
    ensures AcksIn([Byte(b), Acked(ack)] + rest) == [ack] + AcksIn(rest)
  {
    var rows := [Byte(b), Acked(ack)] + rest;
    assert rows[1..] == [Acked(ack)] + rest && rows[1..][1..] == rest;
    assert BytesIn(rows[1..]) == [] + BytesIn(rest) == BytesIn(rest);
    assert AcksIn(rows) == [] + AcksIn(rows[1..]) == AcksIn(rows[1..]);
  }

  lemma BytesApart(t: Transfer)
    requires t.bytes != []
    ensures var rest := t.(bytes := t.bytes[1..]);
            && DataOf(t) == [t.bytes[0].0] + DataOf(rest) && AcksOf(t) == [t.bytes[0].1] + AcksOf(rest)
            && BytesOnBus(t.bytes) == [Byte(t.bytes[0].0), Acked(t.bytes[0].1)] + BytesOnBus(rest.bytes)
  {
  }

  lemma {:induction false} BytesRead(t: Transfer)
    ensures BytesIn(BytesOnBus(t.bytes)) == DataOf(t) && AcksIn(BytesOnBus(t.bytes)) == AcksOf(t)
    ensures forall i :: 0 <= i < |BytesOnBus(t.bytes)| ==> !Ends(BytesOnBus(t.bytes)[i])
    decreases |t.bytes|
  {
    if t.bytes != [] {
      var rest := t.(bytes := t.bytes[1..]);
      hide BytesIn, AcksIn, DataOf, AcksOf, BytesOnBus;
      BytesRead(rest);
      BytesApart(t);
      PairRead(t.bytes[0].0, t.bytes[0].1, BytesOnBus(rest.bytes));
    }
  }

  lemma BodySays(t: Transfer)
    ensures BytesIn(BodyRows(t)) == DataOf(t) && AcksIn(BodyRows(t)) == [t.acked] + AcksOf(t)
  {
    BytesRead(t);
    var rows := BodyRows(t);
    assert rows[1..] == BytesOnBus(t.bytes);
    hide DataOf, AcksOf, BytesOnBus;
    assert BytesIn(rows) == [] + DataOf(t) == DataOf(t);
  }

  lemma SomeRefused(t: Transfer)
    ensures var acks := [t.acked] + AcksOf(t);
            AllAcked(t) <==> !exists i :: 1 <= i < |acks| && !acks[i]
  {
    var acks := [t.acked] + AcksOf(t);
    assert forall i :: 1 <= i < |acks| ==> acks[i] == t.bytes[i - 1].1;
    if !AllAcked(t) {
      var i :| 0 <= i < |t.bytes| && !t.bytes[i].1;
      assert !acks[i + 1];
    }
  }

  lemma SegmentSays(t: Transfer, rs: bool)
    ensures SegmentLine(SegmentOf(t), rs) == LineFor(t, rs)
  {
    BodySays(t);
    SomeRefused(t);
    assert ([t.acked] + AcksOf(t))[0] == t.acked;
    hide BytesIn, AcksIn, DataOf, AcksOf, AllAcked, BodyRows;
  }

  lemma {:induction false} BodyEndsAt(body: seq<BusEvent>, rest: seq<BusEvent>)
    requires (forall i :: 0 <= i < |body| ==> !Ends(body[i])) && (rest == [] || Ends(rest[0]))
    ensures BodyLength(body + rest) == |body|
    decreases |body|
  {
    if body == [] {
      assert body + rest == rest;
    } else {
      assert (body + rest)[1..] == body[1..] + rest;
      BodyEndsAt(body[1..], rest);
    }
  }

  function SegmentsOf(ts: seq<Transfer>): (r: seq<Segment>)
    ensures |r| == |ts|
  {
    if ts == [] then [] else [SegmentOf(ts[0])] + SegmentsOf(ts[1..])
  }

  /** Nothing follows a transfer's last row but a row that ends it. */
  lemma RowsEnd(xs: seq<Captured>)
    ensures Rows(xs) == [] <==> xs == []
    ensures xs != [] ==> Ends(Rows(xs)[0]) && (Rows(xs)[0].Start? <==> xs[0].started) && !Rows(xs)[0].Stop?
  {
  }

  lemma SegmentsSkip(e: BusEvent, rest: seq<BusEvent>)
    requires !e.Address?
    ensures Segments([e] + rest) == Segments(rest)
  {
    assert ([e] + rest)[1..] == rest;
  }

  lemma SegmentsFirst(t: Transfer, rest: seq<BusEvent>)
    requires rest == [] || Ends(rest[0])
    ensures Segments([Address(t.time, t.address, t.read)] + (BodyRows(t) + rest)) ==
            [Segment(t.time, t.address, t.read, BodyRows(t), rest == [] || !rest[0].Start?)] + Segments(rest)
  {
    BytesRead(t);
    var body := BodyRows(t);
    assert forall i :: 0 < i < |body| ==> body[i] == BytesOnBus(t.bytes)[i - 1];
    BodyEndsAt(body, rest);
    var all := [Address(t.time, t.address, t.read)] + (body + rest);
    assert all[1..] == body + rest && (body + rest)[..|body|] == body && (body + rest)[|body|..] == rest;
  }

  lemma {:induction false} SegmentsOfRows(xs: seq<Captured>)
    ensures Segments(Rows(xs)) == SegmentsOf(Seen(xs))
    decreases |xs|
  {
    if xs != [] {
      var t := xs[0].transfer;
      var later := Rows(xs[1..]);
      var rest := (if t.stop then [Stop] else []) + later;
      var head := [Address(t.time, t.address, t.read)];
      SegmentsOfRows(xs[1..]);
      RowsEnd(xs[1..]);
      SegmentsFirst(t, rest);
      if t.stop {
        SegmentsSkip(Stop, later);
      } else {
        assert rest == later;
      }
      hide Segments, Rows, BodyRows;
      var all := head + (BodyRows(t) + rest);
      RowsApart(xs);
      if xs[0].started {
        SegmentsSkip(Start, all);
      } else {
        assert [] + all == all;
      }
      assert Segments(Rows(xs)) == Segments(all);
      var seen := Seen(xs);
      assert seen[1..] == Seen(xs[1..]);
      assert SegmentsOf(seen) == [SegmentOf(seen[0])] + SegmentsOf(seen[1..]);
      assert BodyRows(seen[0]) == BodyRows(t) by { BodySame(t, seen[0].stop); }
    }
  }

  lemma BodySame(t: Transfer, stop: bool)
    ensures BodyRows(t.(stop := stop)) == BodyRows(t)
  {
  }

  lemma RowsApart(xs: seq<Captured>)
    requires xs != []
    ensures var t := xs[0].transfer;
            Rows(xs) == (if xs[0].started then [Start] else [])
                        + ([Address(t.time, t.address, t.read)]
                           + (BodyRows(t) + ((if t.stop then [Stop] else []) + Rows(xs[1..]))))
  {
    hide BodyRows;
  }

  lemma {:induction false} SegmentLinesFor(before: Option<Transfer>, ts: seq<Transfer>)
    ensures SegmentLines(if before.None? then None else Some(SegmentOf(before.value)), SegmentsOf(ts))
            == LinesFor(before, ts)
    decreases |ts|
  {
    if ts != [] {
      SegmentSays(ts[0], Continues(before, ts[0]));
      SegmentLinesFor(Some(ts[0]), ts[1..]);
      assert SegmentsOf(ts)[1..] == SegmentsOf(ts[1..]);
      hide SegmentLine, LineFor, BodyRows;
    }
  }

  /** Decoding any capture, with or without its START rows and however it ends, gives
      exactly the transfers it is taken to show, each with its status, its STOP and its
      repeated START. */
  lemma DecodesAnyCapture(xs: seq<Captured>)
    ensures Decode(Rows(xs)) == LinesFor(None, Seen(xs))
  {
    DecodesBySegments(Rows(xs));
    SegmentsOfRows(xs);
    SegmentLinesFor(None, Seen(xs));
  }

  /** A capture with all its rows. */
  function WithStarts(ts: seq<Transfer>): (r: seq<Captured>)
    ensures |r| == |ts|
    ensures forall i :: 0 <= i < |r| ==> r[i] == Captured(ts[i], true)
  {
    seq(|ts|, i requires 0 <= i < |ts| => Captured(ts[i], true))
  }

  function Encode(ts: seq<Transfer>): seq<BusEvent> {
    Rows(WithStarts(ts))
  }

  lemma {:induction false} AllSeen(ts: seq<Transfer>)
    requires ts != [] ==> ts[|ts| - 1].stop
    ensures Seen(WithStarts(ts)) == ts
    decreases |ts|
  {
    if ts != [] {
      assert WithStarts(ts)[1..] == WithStarts(ts[1..]);
      AllSeen(ts[1..]);
    }
  }

  /** Decoding a bus on which the last transfer was stopped gives exactly the transfers
      put on it, each with its status, its STOP and its repeated START. */
  lemma DecodeInvertsEncode(ts: seq<Transfer>)
    requires ts != [] ==> ts[|ts| - 1].stop
    ensures Decode(Encode(ts)) == LinesFor(None, ts)
  {
    DecodesAnyCapture(WithStarts(ts));
    AllSeen(ts);
  }

  // --- Nothing is lost -----------------------------------------------------

  /** A transfer that keeps the bus rules: nothing follows a refused address; only the
      last byte of a write may be refused; a reader acknowledges every byte but its
      last. */
  predicate KeepsRules(t: Transfer) {
    && (!t.acked ==> t.bytes == [])
    && (forall i :: 0 <= i < |t.bytes| - 1 ==> t.bytes[i].1)
    && (t.read && t.bytes != [] ==> !t.bytes[|t.bytes| - 1].1)
  }

  /** Reading a line back. */
  function Recovered(l: Line): Transfer {
    match l
    case WriteLine(time, address, data, stop, _, status) =>
      Transfer(time, address, false, status != 2, WithAcks(data, status != 3), stop)
    case ReadLine(time, address, _, stop, _, got, refused) =>
      Transfer(time, address, true, !refused, WithAcks(got, false), stop)
  }

  function WithAcks(data: seq<bv8>, last: bool): seq<(bv8, bool)> {
    seq(|data|, i requires 0 <= i < |data| => (data[i], i < |data| - 1 || last))
  }

  lemma LineRecovers(t: Transfer, rs: bool)
    requires KeepsRules(t)
    ensures Recovered(LineFor(t, rs)) == t
  {
    var l := LineFor(t, rs);
    if t.read {
      assert WithAcks(l.got, false) == t.bytes;
    } else {
      assert WithAcks(DataOf(t), AllAcked(t)) == t.bytes;
      if !t.acked {
        assert WithAcks(DataOf(t), true) == t.bytes;
      }
    }
  }

  /** A capture loses nothing: from the decoded lines alone, every transfer that keeps
      the bus rules comes back whole. */
  lemma {:induction false} EveryTransferIsRecovered(before: Option<Transfer>, ts: seq<Transfer>)
    requires forall i :: 0 <= i < |ts| ==> KeepsRules(ts[i])
    ensures forall i :: 0 <= i < |ts| ==> Recovered(LinesFor(before, ts)[i]) == ts[i]
    decreases |ts|
  {
    hide KeepsRules, LineFor, Recovered;
    if ts != [] {
      LineRecovers(ts[0], Continues(before, ts[0]));
      EveryTransferIsRecovered(Some(ts[0]), ts[1..]);
      assert LinesFor(before, ts)[1..] == LinesFor(Some(ts[0]), ts[1..]);
    }
  }

  // --- From a capture to a tape --------------------------------------------

  /** The pair of log lines a decoded transfer is printed as: no numbers, no links. */
  function ExchangeOf(l: Line): Exchange {
    match l
    case WriteLine(time, address, data, stop, _, status) =>
      Exchange([], Event(None, None, time, I2cReq(Some(address), data, stop)), [],
               Event(None, None, time, I2cResp(Some(status))))
    case ReadLine(time, address, want, stop, _, got, refused) =>
      Exchange([], Event(None, None, time, RdReq(Some(address), want, stop)), [],
               Event(None, None, time, RdResp(if refused then Some(2) else None, |got|, got)))
  }

  function ExchangesOf(lines: seq<Line>): (r: seq<Exchange>)
    ensures |r| == |lines|
    ensures forall i :: 0 <= i < |r| ==> r[i] == ExchangeOf(lines[i])
  {
    seq(|lines|, i requires 0 <= i < |lines| => ExchangeOf(lines[i]))
  }

  /** What the bus showed, as an exchange of a tape. */
  function BusItem(t: Transfer): Item {
    if t.read then ReadItem(|t.bytes|, t.stop, if t.acked then DataOf(t) else [])
    else WriteItem(DataOf(t), t.stop, if !t.acked then 2 else if AllAcked(t) then 0 else 3)
  }

  function BusItems(ts: seq<Transfer>, address: nat): seq<Item> {
    if ts == [] then []
    else (if ts[0].address == address then [BusItem(ts[0])] else []) + BusItems(ts[1..], address)
  }

  lemma LineLogs(t: Transfer, rs: bool, address: nat)
    ensures var x := ExchangeOf(LineFor(t, rs));
            && Logged(x) && ItemOf(x) == BusItem(t)
            && (Kept(Keep(true, Some(address), false), x) <==> t.address == address)
            && (x.request.body.RdReq? && x.response.body.RdResp? ==> |x.response.body.data| <= x.request.body.want)
  {
  }

  lemma {:induction false} CaptureItems(before: Option<Transfer>, ts: seq<Transfer>, address: nat)
    ensures var s := ExchangesOf(LinesFor(before, ts));
            Session(s) && Bounded(s) && Items(s, Keep(true, Some(address), false)) == BusItems(ts, address)
    decreases |ts|
  {
    if ts != [] {
      CaptureItems(Some(ts[0]), ts[1..], address);
      var s := ExchangesOf(LinesFor(before, ts));
      assert s[1..] == ExchangesOf(LinesFor(Some(ts[0]), ts[1..]));
      assert s[0] == ExchangeOf(LineFor(ts[0], Continues(before, ts[0])));
      LineLogs(ts[0], Continues(before, ts[0]), address);
      hide Logged, LineFor, ExchangeOf, BusItem, ItemOf, Kept, LinesFor, ExchangesOf;
      forall i | 0 <= i < |s|
        ensures Logged(s[i])
        ensures s[i].request.body.RdReq? && s[i].response.body.RdResp? ==>
                  |s[i].response.body.data| <= s[i].request.body.want
      {
        if i > 0 {
          assert s[i] == s[1..][i - 1];
        }
      }
    }
  }

  /** From the bus to the replay: the tape compiled from any capture for one address means
      the transfers seen to go to that address, and an application asking for them again
      gets what the bus gave. */
  lemma CaptureReplays(xs: seq<Captured>, address: nat, asked: seq<Asked>)
    requires Requests(asked) == RequestsOf(BusItems(Seen(xs), address))
    ensures var steps := Build(Log(ExchangesOf(Decode(Rows(xs)))), Keep(true, Some(address), false));
            var items := BusItems(Seen(xs), address);
            && Timeless(steps) && Meaning(steps) == items
            && Replay(steps, RESET, asked).1 == RepliesOf(items) && Replay(steps, RESET, asked).0.mismatches == 0
  {
    hide Build, Replay, Meaning, Decode, Rows, Seen, Items, BusItems;
    var ts := Seen(xs);
    DecodesAnyCapture(xs);
    CaptureItems(None, ts, address);
    var s := ExchangesOf(LinesFor(None, ts));
    TapeMeansSession(s, Keep(true, Some(address), false));
    RecordReplayFidelity(s, Keep(true, Some(address), false), asked);
  }
}
