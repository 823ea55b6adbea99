/** The event log as it runs: one fixed buffer, folded and compacted in place. */
module EventLog {
  import opened Checksum
  import opened Shapes
  import opened FoldSearch
  import opened Recorder

  method TextCrc(crc: bv8, text: string) returns (r: bv8)
    ensures r == Crc8From(crc, TextBytes(text))
  {
    r := crc;
    var q := 0;
    while q < |text|
      invariant 0 <= q <= |text|
      invariant Crc8From(crc, TextBytes(text)) == Crc8From(r, TextBytes(text)[q..])
    {
      assert TextBytes(text)[q..][1..] == TextBytes(text)[q + 1..];
      r := Crc8Step(r, CharByte(text[q]));
      q := q + 1;
    }
    assert TextBytes(text)[q..] == [];
  }

  lemma {:induction false} TotalDepends(a: seq<Event>, b: seq<Event>, pos: nat, width: nat, end: nat)
    requires width > 0 && end <= |a| && |a| == |b|
    requires forall i :: pos <= i < end ==> a[i] == b[i]
    ensures Total(a, pos, width, end) == Total(b, pos, width, end)
    decreases end - pos
  {
    if pos < end {
      TotalDepends(a, b, pos + width, width, end);
    }
  }

  lemma {:induction false} CrcDepends(a: seq<Event>, b: seq<Event>, pos: nat, width: nat, end: nat, crc: bv8)
    requires width > 0 && end <= |a| && |a| == |b|
    requires forall i :: pos <= i < end ==> a[i] == b[i]
    ensures CopiesCrc(a, pos, width, end, crc) == CopiesCrc(b, pos, width, end, crc)
    decreases end - pos
  {
    if pos < end {
      CrcDepends(a, b, pos + width, width, end, Crc8From(crc, TextBytes(a[pos].text)));
    }
  }

  /** A head depends on its own line and the lines after it only, so the heads can be
      written in place one after another. */
  lemma HeadDepends(a: seq<Event>, b: seq<Event>, c: Cycle, shape: bool, k: nat)
    requires Fits(c, |a|) && |a| == |b| && k < c.width
    requires forall i :: c.start + k <= i < |a| ==> a[i] == b[i]
    ensures Head(a, c, shape, k) == Head(b, c, shape, k)
  {
    hide Summary;
    TotalDepends(a, b, c.start + k, c.width, c.start + c.span);
    CrcDepends(a, b, c.start + k, c.width, c.start + c.span, 0);
  }

  lemma GapIsFold(before: seq<Event>, mid: seq<Event>, c: Cycle, shape: bool)
    requires Fits(c, |before|) && |mid| == |before|
    requires forall i :: 0 <= i < |mid| ==>
               mid[i] == if c.start <= i < c.start + c.width then Head(before, c, shape, i - c.start) else before[i]
    ensures mid[..c.start + c.width] + mid[c.start + c.span..] == Folded(before, c, shape)
  {
    hide Head;
  }

  class EventLog {
    const buf: array<Event>
    var count: nat
    var nextSeq: nat
    var dropped: nat
    var folded: nat
    var outsideWindow: nat
    var foldExhausted: bool
    var truncated: bool
    var running: bool

    ghost predicate Valid()
      reads this, buf
    {
      0 < buf.Length && count <= buf.Length && (truncated <==> foldExhausted)
    }

    ghost function Lines(): seq<Event>
      reads this, buf
      requires Valid()
    {
      buf[..count]
    }

    ghost function View(): Log
      reads this, buf
      requires Valid()
    {
      Log(Lines(), nextSeq, dropped, folded, outsideWindow, foldExhausted, truncated, running)
    }

    constructor (capacity: nat)
      requires capacity > 0
      ensures Valid() && fresh(buf) && buf.Length == capacity
      ensures View() == EMPTY
    {
      buf := new Event[capacity];
      count, nextSeq, dropped, folded, outsideWindow := 0, 1, 0, 0, 0;
      foldExhausted, truncated, running := false, false, false;
    }

    method RunBegin()
      requires Valid()
      modifies this
      ensures Valid() && View() == Begun(old(View()))
    {
      count, nextSeq, dropped, folded := 0, 1, 0, 0;
      foldExhausted, truncated, running := false, false, true;
    }

    method RunEnd()
      requires Valid()
      modifies this
      ensures Valid() && View() == old(View()).(running := false)
    {
      running := false;
    }

    /** What every copy of one line adds up to. */
    method CopiesTotal(pos: nat, width: nat, end: nat) returns (total: nat)
      requires Valid() && width > 0 && end <= count
      ensures total == Total(Lines(), pos, width, end)
    {
      total := 0;
      var at := pos;
      while at < end
        invariant total + Total(Lines(), at, width, end) == Total(Lines(), pos, width, end)
        decreases end - at
      {
        total := total + buf[at].repeats;
        at := at + width;
      }
    }

    /** The checksum over every copy of one line. */
    method CopiesChecksum(pos: nat, width: nat, end: nat) returns (crc: bv8)
      requires Valid() && width > 0 && end <= count
      ensures crc == CopiesCrc(Lines(), pos, width, end, 0)
    {
      crc := 0;
      var at := pos;
      while at < end
        invariant CopiesCrc(Lines(), at, width, end, crc) == CopiesCrc(Lines(), pos, width, end, 0)
        decreases end - at
      {
        crc := TextCrc(crc, buf[at].text);
        at := at + width;
      }
    }

    /** One line of the copy that stays takes over the counts of its copies. */
    method AbsorbLine(c: Cycle, shape: bool, k: nat)
      requires Valid() && Fits(c, count) && k < c.width
      modifies buf
      ensures Valid()
      ensures Lines() == old(Lines())[c.start + k := Head(old(Lines()), c, shape, k)]
    {
      hide Clip, Strip, ShapeOf, Hex2, Total, CopiesCrc;
      var end := c.start + c.span;
      var lastTime := buf[end - 1].timeUs;
      var total := CopiesTotal(c.start + k, c.width, end);
      var line := buf[c.start + k];
      var text := line.text;
      if shape {
        var crc := CopiesChecksum(c.start + k, c.width, end);
        var lineShape := ShapeText(line.text, TEXT_MAX + 1);
        text := Clip(Strip(lineShape) + " crc=" + Hex2(crc));
      }
      buf[c.start + k] := line.(repeats := total, lastTimeUs := lastTime, text := text);
    }

    method AbsorbLines(c: Cycle, shape: bool)
      requires Valid() && Fits(c, count)
      modifies buf
      ensures Valid()
      ensures forall i :: 0 <= i < count ==>
                buf[i] == if c.start <= i < c.start + c.width then Head(old(Lines()), c, shape, i - c.start)
                          else old(Lines())[i]
    {
      hide Summary, Head, Total, CopiesCrc;
      ghost var before := Lines();
      var k := 0;
      while k < c.width
        invariant 0 <= k <= c.width
        invariant forall i :: 0 <= i < count ==>
                    buf[i] == if c.start <= i < c.start + k then Head(before, c, shape, i - c.start) else before[i]
      {
        HeadDepends(before, Lines(), c, shape, k);
        AbsorbLine(c, shape, k);
        k := k + 1;
      }
    }

    /** Move the lines after a gap down over it. */
    method CloseGap(at: nat, removed: nat)
      requires Valid() && at + removed <= count
      modifies this`count, buf
      ensures Valid() && count == old(count) - removed
      ensures Lines() == old(Lines())[..at] + old(Lines())[at + removed..]
    {
      ghost var before := Lines();
      var k := at;
      while k + removed < count
        invariant Valid() && count == old(count)
        invariant at <= k && k + removed <= count
        invariant forall i :: 0 <= i < at ==> buf[i] == before[i]
        invariant forall i :: at <= i < k ==> buf[i] == before[i + removed]
        invariant forall i :: k + removed <= i < count ==> buf[i] == before[i]
      {
        buf[k] := buf[k + removed];
        k := k + 1;
      }
      count := count - removed;
    }

    /** Fold the copies of a cycle into the first one and close the gap. */
    method Absorb(c: Cycle, shape: bool)
      requires Valid() && Fits(c, count)
      modifies this`count, this`folded, buf
      ensures Valid()
      ensures View() == old(View()).(buf := Folded(old(Lines()), c, shape), folded := old(folded) + c.Removed())
    {
      hide Head, Folded;
      ghost var before := Lines();
      AbsorbLines(c, shape);
      ghost var mid := Lines();
      assert |mid| == |before| && forall i :: 0 <= i < |mid| ==>
          mid[i] == if c.start <= i < c.start + c.width then Head(before, c, shape, i - c.start) else before[i];
      var removed := c.span - c.width;
      CloseGap(c.start + c.width, removed);
      folded := folded + removed;
      GapIsFold(before, mid, c, shape);
    }

    /** The exact tier. */
    method FoldCycle() returns (made: bool)
      requires Valid()
      modifies this`count, this`folded, buf
      ensures Valid()
      ensures made == First(Texts(old(Lines()))).Best?
      ensures made ==> var c := First(Texts(old(Lines()))).cycle;
                       && Fits(c, |old(Lines())|)
                       && View() == old(View()).(buf := Folded(old(Lines()), c, false),
                                                   folded := old(folded) + c.Removed())
      ensures !made ==> View() == old(View())
    {
      var texts := Texts(buf[..count]);
      var found := FindFirst(texts);
      FirstIsNarrowestLeftmost(texts);
      if found.Best? {
        Absorb(found.cycle, false);
      }
      made := found.Best?;
    }

    /** The shape tier. */
    method FoldShapeCycle() returns (made: bool)
      requires Valid()
      modifies this`count, this`folded, buf
      ensures Valid()
      ensures made == Largest(ShapesOf(old(Lines()))).Best?
      ensures made ==> var c := Largest(ShapesOf(old(Lines()))).cycle;
                       && Fits(c, |old(Lines())|)
                       && View() == old(View()).(buf := Folded(old(Lines()), c, true),
                                                   folded := old(folded) + c.Removed())
      ensures !made ==> View() == old(View())
    {
      var shapes: seq<string> := [];
      var i := 0;
      while i < count
        invariant Valid() && View() == old(View()) && 0 <= i <= count
        invariant shapes == ShapesOf(Lines())[..i]
      {
        var s := ShapeText(buf[i].text, TEXT_MAX + 1);
        shapes := shapes + [s];
        i := i + 1;
      }
      assert shapes == ShapesOf(Lines());
      var found := FindLargest(shapes);
      LargestFreesTheMost(shapes);
      if found.Best? {
        Absorb(found.cycle, true);
      }
      made := found.Best?;
    }

    method MarkTruncated(e: Entry, seqNo: nat)
      requires Valid() && count == buf.Length
      modifies buf
      ensures Valid()
      ensures Lines() == old(Lines())[count - 1 := Notice(e, seqNo, dropped)]
    {
      buf[buf.Length - 1] := Event(seqNo, e.timeUs, e.timeUs, 1, e.ctx, Diag, 0,
                                   Clip("trace.truncated lost=" + Decimal(dropped)));
    }

    /** The drop counter takes this event, and once also the event whose slot the notice
        overwrites. */
    method Lose(e: Entry, seqNo: nat)
      requires Valid() && count == buf.Length
      modifies this, buf
      ensures Valid() && View() == Truncated(old(View()), e, seqNo)
    {
      if !foldExhausted {
        foldExhausted := true;
        dropped := dropped + 1;
        truncated := true;
      }
      dropped := dropped + 1;
      MarkTruncated(e, seqNo);
    }

    method Store(e: Entry, seqNo: nat)
      requires Valid() && count < buf.Length
      modifies this`count, buf
      ensures Valid() && View() == Stored(old(View()), e, seqNo)
    {
      buf[count] := Event(seqNo, e.timeUs, e.timeUs, 1, e.ctx, e.origin, e.link, Clip(e.text));
      count := count + 1;
    }

    /** Both tiers in turn. */
    method MakeRoom() returns (made: bool)
      requires Valid()
      modifies this`count, this`folded, buf
      ensures Valid()
      ensures made == PlanOf(old(Lines())).Fold?
      ensures match PlanOf(old(Lines()))
              case NoFold => View() == old(View())
              case Fold(c, shape) =>
                && Fits(c, |old(Lines())|)
                && View() == old(View()).(buf := Folded(old(Lines()), c, shape), folded := old(folded) + c.Removed())
    {
      hide Folded, First, Largest;
      made := FoldCycle();
      if !made {
        made := FoldShapeCycle();
      }
    }

    /** Record one event. */
    method VRecord(e: Entry) returns (seqNo: nat)
      requires Valid()
      modifies this, buf
      ensures Valid()
      ensures seqNo == old(nextSeq)
      ensures View() == Recorded(old(View()), buf.Length, e)
    {
      hide Folded, PlanOf, Stored;
      RoomFits(View(), buf.Length);
      seqNo := nextSeq;
      nextSeq := nextSeq + 1;
      if !running {
        outsideWindow := outsideWindow + 1;
        return;
      }
      if count >= buf.Length {
        var made := false;
        if !foldExhausted {
          made := MakeRoom();
        }
        if !made {
          Lose(e, seqNo);
          return;
        }
      }
      Store(e, seqNo);
    }
  }
}
