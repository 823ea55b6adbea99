/** Whole runs of the event log: any sequence of windows opened and closed and of
    events recorded, for any capacity. */
module RecorderRuns {
  import opened Shapes
  import opened FoldSearch
  import opened Recorder
  import opened Ledger

  datatype Op = Begin | End | Record(entry: Entry)

  /** The log with its ledger, and the text of every event of the window. */
  datatype World = World(log: Log, home: seq<Fate>, hist: seq<string>)

  function Step(cap: nat, w: World, op: Op): World
    requires cap > 0
  {
    match op
    case Begin => World(Begun(w.log), [], [])
    case End => w.(log := w.log.(running := false))
    case Record(e) => World(Recorded(w.log, cap, e), Booked(w.log, cap, w.home), w.hist + [Clip(e.text)])
  }

  function RunFrom(cap: nat, w: World, ops: seq<Op>): World
    requires cap > 0
    decreases |ops|
  {
    if ops == [] then w else Step(cap, RunFrom(cap, w, ops[..|ops| - 1]), ops[|ops| - 1])
  }

  function Run(cap: nat, ops: seq<Op>): World
    requires cap > 0
  {
    RunFrom(cap, World(EMPTY, [], []), ops)
  }

  /** Nothing is lost in silence: after any run, every sequence number of the window
      is in exactly one slot, or counted as dropped, or fell outside the window; a
      slot's own number is the least it stands for; and the counters add up. */
  lemma {:induction false} EveryEventIsAccountedFor(cap: nat, ops: seq<Op>)
    requires cap > 0
    ensures var w := Run(cap, ops); Audited(w.log, cap, w.home) && |w.hist| == |w.home|
    decreases |ops|
  {
    hide PlanOf, RecordedWith, BookedWith;
    if ops != [] {
      EveryEventIsAccountedFor(cap, ops[..|ops| - 1]);
      var w := Run(cap, ops[..|ops| - 1]);
      if ops[|ops| - 1].Record? {
        RoomFits(w.log, cap);
        RecordedAudited(w.log, cap, w.home, ops[|ops| - 1].entry, Room(w.log, cap));
      }
    }
  }

  // --- Totals --------------------------------------------------------------

  /** The repeats of all the lines that carry key t. */
  function KeyTotal(evs: seq<Event>, keys: seq<string>, t: string): nat
    requires |keys| == |evs|
    decreases |evs|
  {
    if evs == [] then 0
    else KeyTotal(evs[..|evs| - 1], keys[..|keys| - 1], t) +
         (if keys[|keys| - 1] == t then evs[|evs| - 1].repeats else 0)
  }

  /** The sequence numbers still held in a slot that are labelled t. */
  function LabelCount(home: seq<Fate>, labels: seq<string>, t: string): nat
    requires |labels| == |home|
    decreases |home|
  {
    if home == [] then 0
    else LabelCount(home[..|home| - 1], labels[..|home| - 1], t) +
         (if home[|home| - 1].InSlot? && labels[|home| - 1] == t then 1 else 0)
  }

  function RepeatsTotal(evs: seq<Event>): nat {
    if evs == [] then 0 else RepeatsTotal(evs[..|evs| - 1]) + evs[|evs| - 1].repeats
  }

  function SlotSum(home: seq<Fate>, keys: seq<string>, t: string): nat
    decreases |keys|
  {
    if keys == [] then 0
    else SlotSum(home, keys[..|keys| - 1], t) +
         (if keys[|keys| - 1] == t then Held(home, InSlot(|keys| - 1)) else 0)
  }

  lemma {:induction false} SlotSumSnoc(home: seq<Fate>, x: Fate, keys: seq<string>, t: string)
    ensures SlotSum(home + [x], keys, t) ==
            SlotSum(home, keys, t) + (if x.InSlot? && x.i < |keys| && keys[x.i] == t then 1 else 0)
    decreases |keys|
  {
    if keys != [] {
      SlotSumSnoc(home, x, keys[..|keys| - 1], t);
      HeldSnoc(home, x, InSlot(|keys| - 1));
    }
  }

  lemma {:induction false} SlotSumEmpty(keys: seq<string>, t: string)
    ensures SlotSum([], keys, t) == 0
    decreases |keys|
  {
    if keys != [] {
      SlotSumEmpty(keys[..|keys| - 1], t);
    }
  }

  /** Each number is labelled with the key of the slot that stands for it. */
  ghost predicate Labelled(home: seq<Fate>, labels: seq<string>, keys: seq<string>) {
    && |labels| == |home|
    && forall q :: 0 <= q < |home| && home[q].InSlot? ==> home[q].i < |keys| && labels[q] == keys[home[q].i]
  }

  lemma {:induction false} SlotSumIsCount(home: seq<Fate>, labels: seq<string>, keys: seq<string>, t: string)
    requires Labelled(home, labels, keys)
    ensures SlotSum(home, keys, t) == LabelCount(home, labels, t)
    decreases |home|
  {
    if home == [] {
      SlotSumEmpty(keys, t);
    } else {
      var n := |home| - 1;
      assert home == home[..n] + [home[n]];
      SlotSumSnoc(home[..n], home[n], keys, t);
      SlotSumIsCount(home[..n], labels[..n], keys, t);
    }
  }

  ghost predicate RepeatsHeld(evs: seq<Event>, home: seq<Fate>) {
    forall i :: 0 <= i < |evs| ==> evs[i].repeats == Held(home, InSlot(i))
  }

  lemma {:induction false} KeyTotalIsSlotSum(evs: seq<Event>, keys: seq<string>, home: seq<Fate>, t: string)
    requires |keys| == |evs| && RepeatsHeld(evs, home)
    ensures KeyTotal(evs, keys, t) == SlotSum(home, keys, t)
    decreases |evs|
  {
    if evs != [] {
      KeyTotalIsSlotSum(evs[..|evs| - 1], keys[..|keys| - 1], home, t);
    }
  }

  lemma KeyTotalIsCount(evs: seq<Event>, keys: seq<string>, home: seq<Fate>, labels: seq<string>, t: string)
    requires |keys| == |evs| && RepeatsHeld(evs, home) && Labelled(home, labels, keys)
    ensures KeyTotal(evs, keys, t) == LabelCount(home, labels, t)
  {
    KeyTotalIsSlotSum(evs, keys, home, t);
    SlotSumIsCount(home, labels, keys, t);
  }

  lemma {:induction false} UniformTotal(evs: seq<Event>, keys: seq<string>, t: string)
    requires |keys| == |evs| && forall i :: 0 <= i < |keys| ==> keys[i] == t
    ensures KeyTotal(evs, keys, t) == RepeatsTotal(evs)
    decreases |evs|
  {
    if evs != [] {
      UniformTotal(evs[..|evs| - 1], keys[..|keys| - 1], t);
    }
  }

  lemma {:induction false} UniformCount(home: seq<Fate>, labels: seq<string>, t: string)
    requires |labels| == |home| && forall q :: 0 <= q < |labels| ==> labels[q] == t
    ensures LabelCount(home, labels, t) + Held(home, Lost) + Held(home, Outside) == |home|
    decreases |home|
  {
    if home != [] {
      UniformCount(home[..|home| - 1], labels[..|home| - 1], t);
    }
  }

  lemma AuditedRepeats(evs: seq<Event>, home: seq<Fate>)
    requires SlotsAudited(evs, home)
    ensures RepeatsHeld(evs, home)
  {
    forall i | 0 <= i < |evs| ensures evs[i].repeats == Held(home, InSlot(i)) {
      assert SlotAudited(evs[i], i, home);
    }
  }

  /** After any run the repeats of the buffer's lines, the notice included, add up to
      the lines held and the lines folded away. */
  lemma RepeatsAddUp(cap: nat, ops: seq<Op>)
    requires cap > 0
    ensures var l := Run(cap, ops).log; RepeatsTotal(l.buf) == |l.buf| + l.folded
  {
    EveryEventIsAccountedFor(cap, ops);
    var w := Run(cap, ops);
    var evs := w.log.buf[..Real(w.log)];
    AuditedRepeats(evs, w.home);
    var keys, labels := seq(|evs|, i => ""), seq(|w.home|, q => "");
    KeyTotalIsCount(evs, keys, w.home, labels, "");
    UniformTotal(evs, keys, "");
    UniformCount(w.home, labels, "");
    if w.log.truncated {
      assert w.log.buf[..|w.log.buf| - 1] == evs;
    } else {
      assert evs == w.log.buf;
    }
  }

  // --- Keys a fold keeps ---------------------------------------------------

  function Keyed(key: string -> string, evs: seq<Event>): (r: seq<string>)
    ensures |r| == |evs|
  {
    seq(|evs|, i requires 0 <= i < |evs| => key(evs[i].text))
  }

  function KeysOf(key: string -> string, texts: seq<string>): (r: seq<string>)
    ensures |r| == |texts|
  {
    seq(|texts|, i requires 0 <= i < |texts| => key(texts[i]))
  }

  /** The slot a line moves to carries the line's own key. */
  ghost predicate Keeps(key: string -> string, evs: seq<Event>, plan: Plan) {
    plan.Fold? ==>
      && Fits(plan.cycle, |evs|)
      && forall j :: 0 <= j < |evs| ==>
           && Target(plan.cycle, j) < |evs| - plan.cycle.Removed()
           && key(Folded(evs, plan.cycle, plan.shape)[Target(plan.cycle, j)].text) == key(evs[j].text)
  }

  /** What a fold joins really repeats. */
  ghost predicate PlanRepeats(evs: seq<Event>, plan: Plan) {
    plan.Fold? ==>
      && Fits(plan.cycle, |evs|)
      && Periodic(if plan.shape then ShapesOf(evs) else Texts(evs),
                  plan.cycle.start, plan.cycle.width, plan.cycle.start + plan.cycle.span)
  }

  lemma RoomRepeats(l: Log, cap: nat)
    ensures PlanRepeats(l.buf, Room(l, cap))
  {
    PlanIsACycle(l.buf);
  }

  lemma {:induction false} PeriodicHead(keys: seq<string>, c: Cycle, j: nat)
    requires 0 < c.width && c.start <= j < c.start + c.span <= |keys|
    requires Periodic(keys, c.start, c.width, c.start + c.span)
    ensures keys[c.start + Rem(j - c.start, c.width)] == keys[j]
    decreases j
  {
    if j >= c.start + c.width {
      PeriodicHead(keys, c, j - c.width);
      assert keys[j - c.width] == keys[j - c.width + c.width];
    }
  }

  lemma KeptAt(key: string -> string, evs: seq<Event>, c: Cycle, shape: bool, j: nat)
    requires Fits(c, |evs|) && j < |evs|
    requires Periodic(Keyed(key, evs), c.start, c.width, c.start + c.span)
    requires forall k :: 0 <= k < c.width ==> key(Head(evs, c, shape, k).text) == key(evs[c.start + k].text)
    ensures Target(c, j) < |evs| - c.Removed()
    ensures key(Folded(evs, c, shape)[Target(c, j)].text) == key(evs[j].text)
  {
    FoldedAt(evs, c, shape, Target(c, j));
    if c.start <= j < c.start + c.span {
      PeriodicHead(Keyed(key, evs), c, j);
      assert Keyed(key, evs)[Target(c, j)] == Keyed(key, evs)[j];
    }
  }

  /** A fold keeps a key when its heads do and the copies it joins share it. */
  lemma KeepsByHeads(key: string -> string, evs: seq<Event>, plan: Plan)
    requires plan.Fold? && Fits(plan.cycle, |evs|)
    requires Periodic(Keyed(key, evs), plan.cycle.start, plan.cycle.width, plan.cycle.start + plan.cycle.span)
    requires forall k :: 0 <= k < plan.cycle.width ==>
               key(Head(evs, plan.cycle, plan.shape, k).text) == key(evs[plan.cycle.start + k].text)
    ensures Keeps(key, evs, plan)
  {
    forall j | 0 <= j < |evs|
      ensures Target(plan.cycle, j) < |evs| - plan.cycle.Removed()
      ensures key(Folded(evs, plan.cycle, plan.shape)[Target(plan.cycle, j)].text) == key(evs[j].text)
    {
      KeptAt(key, evs, plan.cycle, plan.shape, j);
    }
  }

  lemma LabelledMore(home: seq<Fate>, labels: seq<string>, keys: seq<string>, f: Fate, mark: string)
    requires Labelled(home, labels, keys)
    requires f.InSlot? ==> f.i < |keys| && keys[f.i] == mark
    ensures Labelled(home + [f], labels + [mark], keys)
  {
  }

  lemma FoldLabelled(key: string -> string, evs: seq<Event>, home: seq<Fate>, labels: seq<string>, plan: Plan)
    requires plan.Fold? && Keeps(key, evs, plan)
    requires Labelled(home, labels, Keyed(key, evs))
    ensures Labelled(Moved(home, plan.cycle), labels, Keyed(key, Folded(evs, plan.cycle, plan.shape)))
  {
    var folded := Folded(evs, plan.cycle, plan.shape);
    forall q | 0 <= q < |home| && home[q].InSlot?
      ensures Target(plan.cycle, home[q].i) < |folded|
      ensures labels[q] == key(folded[Target(plan.cycle, home[q].i)].text)
    {
      assert labels[q] == key(evs[home[q].i].text);
    }
  }

  /** Recording keeps every number labelled with the key of its own text. */
  lemma RecordedLabelled(key: string -> string, l: Log, cap: nat, home: seq<Fate>, labels: seq<string>, e: Entry,
                         plan: Plan)
    requires cap > 0 && Audited(l, cap, home)
    requires PlanFits(l, plan) && Keeps(key, l.buf, plan)
    requires Labelled(home, labels, Keyed(key, l.buf[..Real(l)]))
    ensures var after := RecordedWith(l, cap, e, plan);
            Labelled(BookedWith(l, cap, home, plan), labels + [key(Clip(e.text))], Keyed(key, after.buf[..Real(after)]))
  {
    hide Folded, Clip, Decimal, SlotsAudited, Increasing, Held;
    var after := RecordedWith(l, cap, e, plan);
    var keys, mark := Keyed(key, after.buf[..Real(after)]), key(Clip(e.text));
    if !l.running {
      LabelledMore(home, labels, keys, Outside, mark);
    } else if !Full(l, cap) {
      assert keys == Keyed(key, l.buf[..Real(l)]) + [mark];
      assert Labelled(home, labels, keys);
      LabelledMore(home, labels, keys, InSlot(|l.buf|), mark);
    } else if plan.Fold? {
      assert l.buf[..Real(l)] == l.buf;
      FoldLabelled(key, l.buf, home, labels, plan);
      var folded := Folded(l.buf, plan.cycle, plan.shape);
      assert keys == Keyed(key, folded) + [mark];
      assert Labelled(Moved(home, plan.cycle), labels, keys);
      LabelledMore(Moved(home, plan.cycle), labels, keys, InSlot(|folded|), mark);
    } else {
      var kept := if l.foldExhausted then home else Evicted(home, |l.buf| - 1);
      assert keys == Keyed(key, l.buf[..|l.buf| - 1]);
      assert Labelled(kept, labels, keys);
      LabelledMore(kept, labels, keys, Lost, mark);
    }
  }

  // --- Shapes --------------------------------------------------------------

  function ShapeKey(): string -> string {
    (t: string) => Norm(t)
  }

  lemma SameShapeSameNorm(a: string, b: string)
    requires ShapeOf(a) == ShapeOf(b)
    ensures Norm(a) == Norm(b)
  {
  }

  lemma HeadKeepsNorm(evs: seq<Event>, c: Cycle, shape: bool, k: nat)
    requires Fits(c, |evs|) && k < c.width
    requires Countable(Norm(evs[c.start + k].text))
    ensures Norm(Head(evs, c, shape, k).text) == Norm(evs[c.start + k].text)
  {
    hide Norm, Countable, Summary, CopiesCrc;
    if shape {
      SummaryKeepsNorm(evs[c.start + k].text, CopiesCrc(evs, c.start + k, c.width, c.start + c.span, 0));
    }
  }

  lemma EqualKeys(evs: seq<Event>, shape: bool, i: nat, j: nat)
    requires i < |evs| && j < |evs|
    requires if shape then ShapesOf(evs)[i] == ShapesOf(evs)[j] else Texts(evs)[i] == Texts(evs)[j]
    ensures Keyed(ShapeKey(), evs)[i] == Keyed(ShapeKey(), evs)[j]
  {
    assert ShapeOf(evs[i].text) == ShapeOf(evs[j].text);
    SameShapeSameNorm(evs[i].text, evs[j].text);
  }

  lemma ShapesPeriodic(evs: seq<Event>, plan: Plan)
    requires plan.Fold? && PlanRepeats(evs, plan)
    ensures Periodic(Keyed(ShapeKey(), evs), plan.cycle.start, plan.cycle.width, plan.cycle.start + plan.cycle.span)
  {
    var c := plan.cycle;
    forall k | c.start <= k < c.start + c.span - c.width
      ensures Keyed(ShapeKey(), evs)[k] == Keyed(ShapeKey(), evs)[k + c.width]
    {
      EqualKeys(evs, plan.shape, k, k + c.width);
    }
  }

  lemma HeadsKeepShape(evs: seq<Event>, plan: Plan)
    requires plan.Fold? && Fits(plan.cycle, |evs|)
    requires forall i :: 0 <= i < |evs| ==> Countable(Norm(evs[i].text))
    ensures forall k :: 0 <= k < plan.cycle.width ==>
              ShapeKey()(Head(evs, plan.cycle, plan.shape, k).text) == ShapeKey()(evs[plan.cycle.start + k].text)
  {
    hide Norm, Head, Countable;
    forall k | 0 <= k < plan.cycle.width
      ensures ShapeKey()(Head(evs, plan.cycle, plan.shape, k).text) == ShapeKey()(evs[plan.cycle.start + k].text)
    {
      HeadKeepsNorm(evs, plan.cycle, plan.shape, k);
    }
  }

  /** A fold keeps every countable shape. */
  lemma FoldKeepsShapes(evs: seq<Event>, plan: Plan)
    requires PlanRepeats(evs, plan)
    requires forall i :: 0 <= i < |evs| ==> Countable(Norm(evs[i].text))
    ensures Keeps(ShapeKey(), evs, plan)
  {
    if plan.Fold? {
      ShapesPeriodic(evs, plan);
      HeadsKeepShape(evs, plan);
      hide Norm, ShapeKey, Head, Keyed, Periodic, Keeps;
      KeepsByHeads(ShapeKey(), evs, plan);
    }
  }

  /** Whether a window is open after these operations. */
  predicate Open(ops: seq<Op>)
    decreases |ops|
  {
    ops != [] && (ops[|ops| - 1].Begin? || (ops[|ops| - 1].Record? && Open(ops[..|ops| - 1])))
  }

  /** Every text recorded in the current window has a shape a summary can carry. */
  predicate RunCountable(ops: seq<Op>)
    decreases |ops|
  {
    ops != [] ==>
      match ops[|ops| - 1]
      case Begin => true
      case End => RunCountable(ops[..|ops| - 1])
      case Record(e) =>
        RunCountable(ops[..|ops| - 1]) && (Open(ops[..|ops| - 1]) ==> Countable(Norm(Clip(e.text))))
  }

  lemma {:induction false} OpenIsRunning(cap: nat, ops: seq<Op>)
    requires cap > 0
    ensures Run(cap, ops).log.running == Open(ops)
    decreases |ops|
  {
    if ops != [] {
      var w := Run(cap, ops[..|ops| - 1]);
      OpenIsRunning(cap, ops[..|ops| - 1]);
      if ops[|ops| - 1].Record? {
        RoomFits(w.log, cap);
        StaysRunning(w.log, cap, ops[|ops| - 1].entry, Room(w.log, cap));
      }
    }
  }

  lemma StaysRunning(l: Log, cap: nat, e: Entry, plan: Plan)
    requires cap > 0 && PlanFits(l, plan)
    ensures RecordedWith(l, cap, e, plan).running == l.running
  {
  }

  /** The labels of the numbers recorded in an open window. */
  ghost predicate LabelsCountable(home: seq<Fate>, labels: seq<string>) {
    |labels| == |home| && forall q :: 0 <= q < |home| && home[q] != Outside ==> Countable(labels[q])
  }

  lemma SlotsCountable(evs: seq<Event>, home: seq<Fate>, labels: seq<string>)
    requires SlotsAudited(evs, home) && Labelled(home, labels, Keyed(ShapeKey(), evs)) && LabelsCountable(home, labels)
    ensures forall i :: 0 <= i < |evs| ==> Countable(Norm(evs[i].text))
  {
    forall i | 0 <= i < |evs| ensures Countable(Norm(evs[i].text)) {
      assert SlotAudited(evs[i], i, home);
      assert labels[evs[i].seqNo - 1] == Keyed(ShapeKey(), evs)[i];
    }
  }

  ghost predicate WorldLabelled(w: World) {
    Labelled(w.home, KeysOf(ShapeKey(), w.hist), Keyed(ShapeKey(), w.log.buf[..Real(w.log)]))
  }

  lemma StepLabelled(cap: nat, w: World, e: Entry)
    requires cap > 0 && Audited(w.log, cap, w.home)
    requires WorldLabelled(w) && LabelsCountable(w.home, KeysOf(ShapeKey(), w.hist))
    ensures WorldLabelled(Step(cap, w, Record(e)))
  {
    var key, labels := ShapeKey(), KeysOf(ShapeKey(), w.hist);
    var plan := Room(w.log, cap);
    RoomFits(w.log, cap);
    RoomRepeats(w.log, cap);
    SlotsCountable(w.log.buf[..Real(w.log)], w.home, labels);
    if plan.Fold? {
      assert w.log.buf[..Real(w.log)] == w.log.buf;
    }
    FoldKeepsShapes(if plan.Fold? then w.log.buf else [], plan);
    RecordedLabelled(key, w.log, cap, w.home, labels, e, plan);
    assert KeysOf(key, w.hist + [Clip(e.text)]) == labels + [key(Clip(e.text))];
  }

  lemma BookedCountable(l: Log, cap: nat, home: seq<Fate>, labels: seq<string>, plan: Plan, mark: string)
    requires cap > 0 && PlanFits(l, plan) && LabelsCountable(home, labels) && (l.running ==> Countable(mark))
    ensures LabelsCountable(BookedWith(l, cap, home, plan), labels + [mark])
  {
  }

  lemma StepCountable(cap: nat, w: World, op: Op)
    requires cap > 0 && LabelsCountable(w.home, KeysOf(ShapeKey(), w.hist))
    requires op.Record? && w.log.running ==> Countable(Norm(Clip(op.entry.text)))
    ensures LabelsCountable(Step(cap, w, op).home, KeysOf(ShapeKey(), Step(cap, w, op).hist))
  {
    if op.Record? {
      var mark := Norm(Clip(op.entry.text));
      assert KeysOf(ShapeKey(), w.hist + [Clip(op.entry.text)]) == KeysOf(ShapeKey(), w.hist) + [mark];
      RoomFits(w.log, cap);
      BookedCountable(w.log, cap, w.home, KeysOf(ShapeKey(), w.hist), Room(w.log, cap), mark);
    }
  }

  lemma {:induction false} RunLabelled(cap: nat, ops: seq<Op>)
    requires cap > 0 && RunCountable(ops)
    ensures WorldLabelled(Run(cap, ops))
    ensures LabelsCountable(Run(cap, ops).home, KeysOf(ShapeKey(), Run(cap, ops).hist))
    decreases |ops|
  {
    if ops != [] && !ops[|ops| - 1].Begin? {
      var n := |ops| - 1;
      var w := Run(cap, ops[..n]);
      RunLabelled(cap, ops[..n]);
      EveryEventIsAccountedFor(cap, ops[..n]);
      OpenIsRunning(cap, ops[..n]);
      StepCountable(cap, w, ops[n]);
      match ops[n]
      case End => assert Step(cap, w, End).log.buf == w.log.buf;
      case Record(e) => StepLabelled(cap, w, e);
    } else if ops != [] {
      assert Run(cap, ops).home == [] && Run(cap, ops).hist == [];
    }
  }

  /** Whatever mix of the two tiers a run goes through, the repeats of the lines of a
      shape add up to the events of that shape that were neither dropped nor outside
      the window. */
  lemma ShapesAddUp(cap: nat, ops: seq<Op>, t: string)
    requires cap > 0 && RunCountable(ops)
    ensures var w := Run(cap, ops);
            var evs := w.log.buf[..Real(w.log)];
            && |w.hist| == |w.home|
            && KeyTotal(evs, Keyed(ShapeKey(), evs), t) == LabelCount(w.home, KeysOf(ShapeKey(), w.hist), t)
  {
    RunLabelled(cap, ops);
    EveryEventIsAccountedFor(cap, ops);
    var w := Run(cap, ops);
    var evs := w.log.buf[..Real(w.log)];
    AuditedRepeats(evs, w.home);
    KeyTotalIsCount(evs, Keyed(ShapeKey(), evs), w.home, KeysOf(ShapeKey(), w.hist), t);
  }
}
