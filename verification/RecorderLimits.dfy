/** What folding gives up and what it does not: exact totals, the point past which
    the log can no longer change, and the shapes a summary cannot carry. */
module RecorderLimits {
  import opened Shapes
  import opened FoldSearch
  import opened Recorder
  import opened Ledger
  import opened RecorderRuns

  function CountOf(labels: seq<string>, t: string): nat {
    if labels == [] then 0
    else CountOf(labels[..|labels| - 1], t) + (if labels[|labels| - 1] == t then 1 else 0)
  }

  lemma {:induction false} HeldTail(home: seq<Fate>, f: Fate)
    requires Held(home, f) == 0
    ensures forall q :: 0 <= q < |home| ==> home[q] != f
    decreases |home|
  {
    if home != [] {
      HeldTail(home[..|home| - 1], f);
    }
  }

  /** The texts recorded in the current window while it was open. */
  function WindowTexts(ops: seq<Op>): seq<string>
    decreases |ops|
  {
    if ops == [] then []
    else
      var before := ops[..|ops| - 1];
      match ops[|ops| - 1]
      case Begin => []
      case End => WindowTexts(before)
      case Record(e) => WindowTexts(before) + (if Open(before) then [Clip(e.text)] else [])
  }

  /** The texts of the numbers that did not fall outside. */
  function Inside(home: seq<Fate>, hist: seq<string>): seq<string>
    requires |hist| == |home|
    decreases |home|
  {
    if home == [] then []
    else
      Inside(home[..|home| - 1], hist[..|home| - 1]) + (if home[|home| - 1] == Outside then [] else [hist[|home| - 1]])
  }

  lemma {:induction false} SameInside(a: seq<Fate>, b: seq<Fate>, hist: seq<string>)
    requires |a| == |b| == |hist| && forall q :: 0 <= q < |a| ==> (a[q] == Outside <==> b[q] == Outside)
    ensures Inside(a, hist) == Inside(b, hist)
    decreases |a|
  {
    if a != [] {
      SameInside(a[..|a| - 1], b[..|a| - 1], hist[..|a| - 1]);
    }
  }

  lemma BookedInside(l: Log, cap: nat, home: seq<Fate>, hist: seq<string>, plan: Plan, text: string)
    requires cap > 0 && PlanFits(l, plan) && |hist| == |home|
    ensures Inside(BookedWith(l, cap, home, plan), hist + [text]) ==
            Inside(home, hist) + (if l.running then [text] else [])
  {
    var r := BookedWith(l, cap, home, plan);
    assert (hist + [text])[..|home|] == hist;
    assert r[|home|] == Outside <==> !l.running;
    assert forall q :: 0 <= q < |home| ==> (r[..|home|][q] == Outside <==> home[q] == Outside);
    hide BookedWith, Inside;
    SameInside(r[..|home|], home, hist);
    InsideSnoc(r, hist + [text]);
  }

  lemma InsideSnoc(home: seq<Fate>, hist: seq<string>)
    requires |hist| == |home| > 0
    ensures var n := |home| - 1;
            Inside(home, hist) == Inside(home[..n], hist[..n]) + (if home[n] == Outside then [] else [hist[n]])
  {
  }

  lemma {:induction false} InsideIsTheWindow(cap: nat, ops: seq<Op>)
    requires cap > 0
    ensures var w := Run(cap, ops); |w.hist| == |w.home| && Inside(w.home, w.hist) == WindowTexts(ops)
    decreases |ops|
  {
    if ops != [] {
      var before := ops[..|ops| - 1];
      var w := Run(cap, before);
      InsideIsTheWindow(cap, before);
      if ops[|ops| - 1].Record? {
        hide BookedWith, Inside, Clip, Room;
        OpenIsRunning(cap, before);
        RoomFits(w.log, cap);
        BookedInside(w.log, cap, w.home, w.hist, Room(w.log, cap), Clip(ops[|ops| - 1].entry.text));
      }
    }
  }

  lemma {:induction false} InsideKeys(key: string -> string, home: seq<Fate>, hist: seq<string>)
    requires |hist| == |home|
    ensures KeysOf(key, Inside(home, hist)) == Inside(home, KeysOf(key, hist))
    decreases |home|
  {
    if home != [] {
      var n := |home| - 1;
      InsideKeys(key, home[..n], hist[..n]);
      assert KeysOf(key, hist)[..n] == KeysOf(key, hist[..n]);
      KeysSnoc(key, Inside(home[..n], hist[..n]), hist[n]);
    }
  }

  lemma KeysSnoc(key: string -> string, hist: seq<string>, x: string)
    ensures KeysOf(key, hist + [x]) == KeysOf(key, hist) + [key(x)]
  {
  }

  lemma {:induction false} InsideCount(home: seq<Fate>, labels: seq<string>, t: string)
    requires |labels| == |home| && forall q :: 0 <= q < |home| ==> home[q] != Lost
    ensures LabelCount(home, labels, t) == CountOf(Inside(home, labels), t)
    decreases |home|
  {
    if home != [] {
      var n := |home| - 1;
      InsideCount(home[..n], labels[..n], t);
      var kept := Inside(home[..n], labels[..n]);
      CountSnoc(kept, labels[n], t);
      assert home[n] != Lost && kept + [] == kept;
    }
  }

  lemma CountSnoc(labels: seq<string>, x: string, t: string)
    ensures CountOf(labels + [x], t) == CountOf(labels, t) + (if x == t then 1 else 0)
  {
    assert (labels + [x])[..|labels|] == labels;
  }

  /** While nothing has been dropped, the repeats of the lines of a shape are exactly
      the events of that shape recorded in the window. */
  lemma ShapeTotalsAreExact(cap: nat, ops: seq<Op>, t: string)
    requires cap > 0 && RunCountable(ops) && Run(cap, ops).log.dropped == 0
    ensures var w := Run(cap, ops);
            KeyTotal(w.log.buf, Keyed(ShapeKey(), w.log.buf), t) == CountOf(KeysOf(ShapeKey(), WindowTexts(ops)), t)
  {
    ShapesAddUp(cap, ops, t);
    EveryEventIsAccountedFor(cap, ops);
    var w := Run(cap, ops);
    HeldTail(w.home, Lost);
    TruncatedLoses(cap, ops);
    assert w.log.buf[..Real(w.log)] == w.log.buf;
    InsideIsTheWindow(cap, ops);
    InsideKeys(ShapeKey(), w.home, w.hist);
    InsideCount(w.home, KeysOf(ShapeKey(), w.hist), t);
  }

  /** A notice stands only where something was dropped. */
  lemma {:induction false} TruncatedLoses(cap: nat, ops: seq<Op>)
    requires cap > 0
    ensures Run(cap, ops).log.truncated ==> Run(cap, ops).log.dropped > 0
    decreases |ops|
  {
    if ops != [] {
      TruncatedLoses(cap, ops[..|ops| - 1]);
      if ops[|ops| - 1].Record? {
        var l, e := Run(cap, ops[..|ops| - 1]).log, ops[|ops| - 1].entry;
        RoomFits(l, cap);
        TruncatedMeans(l, cap, e, Room(l, cap));
      }
    }
  }

  lemma TruncatedMeans(l: Log, cap: nat, e: Entry, plan: Plan)
    requires cap > 0 && PlanFits(l, plan)
    ensures var after := RecordedWith(l, cap, e, plan);
            && after.dropped >= l.dropped
            && (after.truncated && !l.truncated ==> after.dropped > 0)
  {
  }

  // --- The exact tier ------------------------------------------------------

  function TextKey(): string -> string {
    (t: string) => t
  }

  /** A ledger for lines taken on their own: as many entries as each line repeats. */
  function Spread(evs: seq<Event>): seq<Fate> {
    if evs == [] then []
    else Spread(evs[..|evs| - 1]) + seq(evs[|evs| - 1].repeats, _ => InSlot(|evs| - 1))
  }

  lemma {:induction false} HeldRun(home: seq<Fate>, n: nat, x: Fate, f: Fate)
    ensures Held(home + seq(n, _ => x), f) == Held(home, f) + (if x == f then n else 0)
    decreases n
  {
    if n == 0 {
      assert home + seq(n, _ => x) == home;
    } else {
      HeldRun(home, n - 1, x, f);
      assert home + seq(n, _ => x) == (home + seq(n - 1, _ => x)) + [x];
      HeldSnoc(home + seq(n - 1, _ => x), x, f);
    }
  }

  lemma {:induction false} SpreadHolds(evs: seq<Event>, i: nat)
    ensures forall q :: 0 <= q < |Spread(evs)| ==> Spread(evs)[q].InSlot? && Spread(evs)[q].i < |evs|
    ensures Held(Spread(evs), InSlot(i)) == if i < |evs| then evs[i].repeats else 0
    decreases |evs|
  {
    if evs != [] {
      var n := |evs| - 1;
      SpreadHolds(evs[..n], i);
      HeldRun(Spread(evs[..n]), evs[n].repeats, InSlot(n), InSlot(i));
    }
  }

  lemma FoldedRepeatsHeld(evs: seq<Event>, home: seq<Fate>, c: Cycle, shape: bool)
    requires Fits(c, |evs|) && RepeatsHeld(evs, home)
    ensures RepeatsHeld(Folded(evs, c, shape), Moved(home, c))
  {
    var r := Folded(evs, c, shape);
    forall i | 0 <= i < |r| ensures r[i].repeats == Held(Moved(home, c), InSlot(i)) {
      FoldedAt(evs, c, shape, i);
      if c.start <= i < c.start + c.width {
        HeadRepeats(evs, home, c, shape, i);
      } else {
        HeldMoved(home, c, i);
      }
    }
  }

  lemma {:induction false} MovedCount(home: seq<Fate>, c: Cycle, labels: seq<string>, t: string)
    requires 0 < c.width < c.span && |labels| == |home|
    ensures LabelCount(Moved(home, c), labels, t) == LabelCount(home, labels, t)
    decreases |home|
  {
    if home != [] {
      assert Moved(home, c)[..|home| - 1] == Moved(home[..|home| - 1], c);
      MovedCount(home[..|home| - 1], c, labels[..|home| - 1], t);
    }
  }

  /** A fold that keeps a key keeps the repeat total of every value of that key. */
  lemma FoldKeepsTotals(key: string -> string, evs: seq<Event>, plan: Plan, t: string)
    requires plan.Fold? && Keeps(key, evs, plan)
    ensures var folded := Folded(evs, plan.cycle, plan.shape);
            KeyTotal(folded, Keyed(key, folded), t) == KeyTotal(evs, Keyed(key, evs), t)
  {
    var home, keys := Spread(evs), Keyed(key, evs);
    forall i | 0 <= i < |evs| ensures evs[i].repeats == Held(home, InSlot(i)) {
      SpreadHolds(evs, i);
    }
    SpreadHolds(evs, 0);
    var labels := seq(|home|, q requires 0 <= q < |home| => keys[home[q].i]);
    KeyTotalIsCount(evs, keys, home, labels, t);
    FoldLabelled(key, evs, home, labels, plan);
    FoldedRepeatsHeld(evs, home, plan.cycle, plan.shape);
    var folded := Folded(evs, plan.cycle, plan.shape);
    KeyTotalIsCount(folded, Keyed(key, folded), Moved(home, plan.cycle), labels, t);
    MovedCount(home, plan.cycle, labels, t);
  }

  /** The exact tier loses nothing: every text keeps its repeat total, word for word. */
  lemma ExactFoldKeepsTexts(evs: seq<Event>, t: string)
    requires PlanOf(evs).Fold? && !PlanOf(evs).shape
    ensures var p := PlanOf(evs);
            && Fits(p.cycle, |evs|)
            && var folded := Folded(evs, p.cycle, false);
               KeyTotal(folded, Texts(folded), t) == KeyTotal(evs, Texts(evs), t)
  {
    PlanIsACycle(evs);
    var p := PlanOf(evs);
    TextsAreKeys(evs);
    TextsAreKeys(Folded(evs, p.cycle, false));
    KeepsByHeads(TextKey(), evs, p);
    FoldKeepsTotals(TextKey(), evs, p, t);
  }

  lemma TextsAreKeys(evs: seq<Event>)
    ensures Texts(evs) == Keyed(TextKey(), evs)
  {
  }

  // --- When an event is kept -----------------------------------------------

  /** Some block of one to eight lines repeats at once, by text or by shape. */
  ghost predicate Foldable(evs: seq<Event>) {
    exists w, s :: Repeats(Texts(evs), s, w) || Repeats(ShapesOf(evs), s, w)
  }

  /** An event of an open window is lost exactly when the buffer is full and either the
      search was given up before or nothing in the buffer repeats; a fold always
      frees at least one slot for it. */
  lemma KeptExactlyWhen(l: Log, cap: nat, e: Entry)
    requires cap > 0 && l.running && |l.buf| <= cap
    ensures var after := Recorded(l, cap, e);
            && |after.buf| <= cap
            && (after.dropped == l.dropped <==> !Full(l, cap) || (!l.foldExhausted && Foldable(l.buf)))
            && (after.dropped == l.dropped ==>
                  after.buf[|after.buf| - 1] ==
                  Event(l.nextSeq, e.timeUs, e.timeUs, 1, e.ctx, e.origin, e.link, Clip(e.text)))
  {
    PlanIsACycle(l.buf);
    RoomFits(l, cap);
    KeptWith(l, cap, e, Room(l, cap));
  }

  lemma KeptWith(l: Log, cap: nat, e: Entry, plan: Plan)
    requires cap > 0 && l.running && |l.buf| <= cap && PlanFits(l, plan)
    ensures var after := RecordedWith(l, cap, e, plan);
            && |after.buf| <= cap
            && (after.dropped == l.dropped <==> !Full(l, cap) || plan.Fold?)
            && (after.dropped == l.dropped ==>
                  after.buf[|after.buf| - 1] ==
                  Event(l.nextSeq, e.timeUs, e.timeUs, 1, e.ctx, e.origin, e.link, Clip(e.text)))
  {
  }

  /** Once the search has failed, no run without a new window changes anything but the
      last slot. */
  lemma {:induction false} ExhaustedIsForGood(cap: nat, w: World, ops: seq<Op>)
    requires cap > 0 && w.log.foldExhausted && |w.log.buf| == cap
    requires forall k :: 0 <= k < |ops| ==> !ops[k].Begin?
    ensures var after := RunFrom(cap, w, ops).log;
            after.foldExhausted && |after.buf| == cap && after.buf[..cap - 1] == w.log.buf[..cap - 1]
    decreases |ops|
  {
    if ops != [] {
      var n := |ops| - 1;
      ExhaustedIsForGood(cap, w, ops[..n]);
      var mid := RunFrom(cap, w, ops[..n]);
      if ops[n].Record? {
        RoomFits(mid.log, cap);
        ExhaustedStep(mid.log, cap, ops[n].entry, Room(mid.log, cap));
      }
    }
  }

  lemma ExhaustedStep(l: Log, cap: nat, e: Entry, plan: Plan)
    requires cap > 0 && PlanFits(l, plan) && l.foldExhausted && |l.buf| == cap
    ensures var after := RecordedWith(l, cap, e, plan);
            after.foldExhausted && |after.buf| == cap && after.buf[..cap - 1] == l.buf[..cap - 1]
  {
  }

  // --- Times ---------------------------------------------------------------

  ghost predicate TimesOrdered(evs: seq<Event>, now: nat) {
    && (forall i :: 0 <= i < |evs| ==> evs[i].timeUs <= evs[i].lastTimeUs <= now)
    && (forall i, j :: 0 <= i <= j < |evs| ==> evs[i].timeUs <= evs[j].timeUs)
  }

  lemma FoldTimes(evs: seq<Event>, c: Cycle, shape: bool, now: nat)
    requires Fits(c, |evs|) && TimesOrdered(evs, now)
    ensures TimesOrdered(Folded(evs, c, shape), now)
  {
    var r := Folded(evs, c, shape);
    forall i | 0 <= i < |r| ensures r[i].timeUs <= r[i].lastTimeUs <= now {
      FoldedAt(evs, c, shape, i);
    }
    forall i, j | 0 <= i <= j < |r| ensures r[i].timeUs <= r[j].timeUs {
      FoldedAt(evs, c, shape, i);
      FoldedAt(evs, c, shape, j);
    }
  }

  lemma StoreTimes(evs: seq<Event>, e: Event)
    requires TimesOrdered(evs, e.timeUs) && e.lastTimeUs == e.timeUs
    ensures TimesOrdered(evs + [e], e.timeUs)
    ensures evs != [] ==> TimesOrdered(evs[|evs| - 1 := e], e.timeUs)
  {
  }

  /** With a clock that never goes back, a line's first and last time stay in order and
      never run ahead of the clock. */
  lemma RecordedTimes(l: Log, cap: nat, e: Entry, plan: Plan)
    requires cap > 0 && PlanFits(l, plan) && TimesOrdered(l.buf, e.timeUs)
    ensures TimesOrdered(RecordedWith(l, cap, e, plan).buf, e.timeUs)
  {
    hide Folded, TimesOrdered, Decimal, Clip;
    var after := RecordedWith(l, cap, e, plan).buf;
    if l.running {
      if Full(l, cap) && plan.Fold? {
        FoldTimes(l.buf, plan.cycle, plan.shape, e.timeUs);
        StoreTimes(Folded(l.buf, plan.cycle, plan.shape), after[|after| - 1]);
      } else {
        StoreTimes(l.buf, after[|after| - 1]);
      }
    }
  }

  /** The last moment recorded in the current window. */
  function ClockOf(ops: seq<Op>): nat
    decreases |ops|
  {
    if ops == [] then 0
    else match ops[|ops| - 1]
      case Begin => 0
      case End => ClockOf(ops[..|ops| - 1])
      case Record(e) => e.timeUs
  }

  /** In no window does the clock go back. */
  predicate ClockForward(ops: seq<Op>)
    decreases |ops|
  {
    ops != [] ==>
      ClockForward(ops[..|ops| - 1])
      && (ops[|ops| - 1].Record? ==> ops[|ops| - 1].entry.timeUs >= ClockOf(ops[..|ops| - 1]))
  }

  /** Over any run of windows in which it does not, the lines stand in the order of their
      first times, each line's first and last time are in order, and none passes the
      clock. */
  lemma {:induction false} RunTimes(cap: nat, ops: seq<Op>)
    requires cap > 0 && ClockForward(ops)
    ensures TimesOrdered(Run(cap, ops).log.buf, ClockOf(ops))
    decreases |ops|
  {
    if ops != [] {
      var before := ops[..|ops| - 1];
      var l := Run(cap, before).log;
      RunTimes(cap, before);
      if ops[|ops| - 1].Record? {
        var e := ops[|ops| - 1].entry;
        RoomFits(l, cap);
        LaterClock(l.buf, ClockOf(before), e.timeUs);
        RecordedTimes(l, cap, e, Room(l, cap));
      }
    }
  }

  lemma LaterClock(evs: seq<Event>, a: nat, b: nat)
    requires TimesOrdered(evs, a) && a <= b
    ensures TimesOrdered(evs, b)
  {
  }

  // --- Shapes a summary cannot carry ---------------------------------------

  function At(timeUs: nat, text: string): Op {
    Record(Entry(timeUs, 0, App, 0, text))
  }

  /** Two events of one shape and a third, in a log of two lines: the line left for the
      two is still counted under their shape exactly when that shape is countable. */
  lemma TwoOfAShape(a: string, b: string, third: string)
    requires Clip(a) != Clip(b) && ShapeOf(Clip(a)) == ShapeOf(Clip(b))
    ensures var buf := Run(2, [Begin, At(0, a), At(0, b), At(0, third)]).log.buf;
            && |buf| == 2 && buf[0].repeats == 2
            && (Norm(buf[0].text) == Norm(Clip(a)) <==> Countable(Norm(Clip(a))))
  {
    var ops := [Begin, At(0, a), At(0, b), At(0, third)];
    assert ops[..3] == [Begin, At(0, a), At(0, b)];
    var l := Run(2, ops[..3]).log;
    TwoRecorded(a, b);
    var c := TwoLines(l.buf);
    var e := Entry(0, 0, App, 0, third);
    RoomFits(l, 2);
    assert Run(2, ops).log == Recorded(l, 2, e);
    assert Recorded(l, 2, e) == FoldedAndStored(l, e, c, true);
    var text, crc := FoldedPair(l.buf, c);
    SummaryKeepsNorm(text, crc);
  }

  /** A frame of one byte from a device, in a format with a name of 19 characters. */
  function FrameLine(hex: string): string {
    "dev.frame bus=" + ("0" + (" fmt=temperature_sensors bits=" + ("8" + (" data=" + hex))))
  }

  const FRAME_SHAPE := "dev.frame bus=" + ("*" + (" fmt=temperature_sensors bits=" + ("*" + (" data=" + "*"))))

  lemma FrameLineShape(hex: string)
    requires |hex| == 2 && HexDigit(hex[0]) && HexDigit(hex[1])
    ensures Clip(FrameLine(hex)) == FrameLine(hex) && ShapeOf(FrameLine(hex)) == Norm(FrameLine(hex)) == FRAME_SHAPE
    ensures |FRAME_SHAPE| == 53
  {
    FrameCollapse(hex);
    FrameShapeEnds();
    hide Collapse;
  }

  lemma FrameCollapse(hex: string)
    requires |hex| == 2 && HexDigit(hex[0]) && HexDigit(hex[1])
    ensures Collapse(FrameLine(hex), false) == FRAME_SHAPE
  {
    FrameWords();
    TwoDigits(hex);
    hide NoHex, Collapse, HexDigit;
    var u1 := " data=" + hex;
    var u2 := " fmt=temperature_sensors bits=" + ("8" + u1);
    CollapsePrefix(" data=", hex, true);
    DigitFirst('8', u1);
    CollapsePrefix(" fmt=temperature_sensors bits=", "8" + u1, true);
    DigitFirst('0', u2);
    CollapsePrefix("dev.frame bus=", "0" + u2, false);
  }

  lemma FrameWords()
    ensures NoHex("dev.frame bus=") && NoHex(" fmt=temperature_sensors bits=") && NoHex(" data=")
    ensures HexDigit('0') && HexDigit('8')
  {
  }

  lemma TwoDigits(hex: string)
    requires |hex| == 2 && HexDigit(hex[0]) && HexDigit(hex[1])
    ensures Collapse(hex, false) == "*"
  {
    assert hex[1..][1..] == [] && Collapse([], true) == [];
    assert Collapse(hex[1..], true) == [] + Collapse(hex[1..][1..], true);
    assert Collapse(hex, false) == "*" + Collapse(hex[1..], true);
  }

  lemma FrameShapeEnds()
    ensures |FRAME_SHAPE| == 53 && !EndsWithCrc(FRAME_SHAPE)
  {
    assert CRC_TAIL[1] == 'c';
    assert FRAME_SHAPE[48] == 'a';
    assert FRAME_SHAPE[47..][1] == 'a';
  }

  lemma DigitFirst(c: char, u: string)
    requires HexDigit(c)
    ensures Collapse([c] + u, false) == "*" + Collapse(u, true)
  {
    assert ([c] + u)[1..] == u;
  }

  /** A pair of real lines whose count moves to another shape. */
  lemma FramesLoseTheirShape(third: string)
    ensures var buf := Run(2, [Begin, At(0, FrameLine("AB")), At(0, FrameLine("CD")), At(0, third)]).log.buf;
            && |buf| == 2 && buf[0].repeats == 2
            && Norm(FrameLine("AB")) == Norm(FrameLine("CD")) == FRAME_SHAPE && Norm(buf[0].text) != FRAME_SHAPE
  {
    FrameLineShape("AB");
    FrameLineShape("CD");
    assert FrameLine("AB")[|FrameLine("AB")| - 1] == 'B' && FrameLine("CD")[|FrameLine("CD")| - 1] == 'D';
    hide *;
    TwoOfAShape(FrameLine("AB"), FrameLine("CD"), third);
  }

  lemma FoldedPair(evs: seq<Event>, c: Cycle) returns (text: string, crc: bv8)
    requires |evs| == 2 && c.start == 0 && c.width == 1 && c.span == 2
    requires evs[0].repeats == 1 && evs[1].repeats == 1
    ensures text == evs[0].text
    ensures var r := Folded(evs, c, true); |r| == 1 && r[0].repeats == 2 && r[0].text == Summary(text, crc)
  {
    FoldedAt(evs, c, true, 0);
    assert Total(evs, 0, 1, 2) == 1 + Total(evs, 1, 1, 2);
    text, crc := evs[0].text, CopiesCrc(evs, 0, 1, 2, 0);
  }

  lemma TwoRecorded(a: string, b: string)
    ensures var l := Run(2, [Begin, At(0, a), At(0, b)]).log;
            && l.running && !l.foldExhausted
            && l.buf == [Event(1, 0, 0, 1, 0, App, 0, Clip(a)), Event(2, 0, 0, 1, 0, App, 0, Clip(b))]
  {
    var ops := [Begin, At(0, a), At(0, b)];
    assert ops[..2] == [Begin, At(0, a)] && ops[..2][..1] == [Begin] && ops[..2][..1][..0] == [];
    assert Run(2, [Begin]).log == Begun(EMPTY);
    assert Run(2, ops[..2]).log == Stored(Begun(EMPTY).(nextSeq := 2), Entry(0, 0, App, 0, a), 1);
    assert Run(2, ops).log == Recorded(Run(2, ops[..2]).log, 2, Entry(0, 0, App, 0, b));
  }

  lemma TwoLines(evs: seq<Event>) returns (c: Cycle)
    requires |evs| == 2 && evs[0].text != evs[1].text && ShapeOf(evs[0].text) == ShapeOf(evs[1].text)
    ensures c.start == 0 && c.width == 1 && c.span == 2 && PlanOf(evs) == Fold(c, true)
  {
    PlanIsACycle(evs);
    FirstIsNarrowestLeftmost(Texts(evs));
    LargestFreesTheMost(ShapesOf(evs));
    assert Repeats(ShapesOf(evs), 0, 1);
    assert Texts(evs)[0] != Texts(evs)[0 + 1];
    assert !SameLines(Texts(evs), 0, 1, 1);
    forall w, s ensures !Repeats(Texts(evs), s, w) {
    }
    c := PlanOf(evs).cycle;
  }
}
