/** What devices are owed: with no waits nested in callbacks, they are advanced at
    every tick boundary and at every moment they asked for, each once, in order. */
module ClockService {
  import opened WakeTable
  import opened HostClock

  ghost predicate OnlyAsks(actions: seq<Action>) {
    forall k :: 0 <= k < |actions| ==> actions[k].Ask?
  }

  ghost predicate NoNesting(script: seq<seq<Action>>) {
    forall k :: 0 <= k < |script| ==> OnlyAsks(script[k])
  }

  ghost predicate Multiple(m: nat, d: nat) {
    d > 0 && m % d == 0
  }

  ghost predicate Ascending(xs: seq<nat>) {
    forall i, j :: 0 <= i < j < |xs| ==> xs[i] < xs[j]
  }

  /** Every visit has a reason. */
  ghost predicate VisitsMeant(s: Clock) {
    && Ascending(s.visits)
    && forall v :: v in s.visits ==> 0 < v <= s.now && (v in s.taken || Multiple(v, s.tickUs))
  }

  /** Every reason up to now has had its visit. */
  ghost predicate NothingMissed(s: Clock) {
    && 0 !in s.taken
    && (forall w :: w in s.taken && w <= s.now ==> w in s.visits)
    && (forall m :: 0 < m <= s.now && Multiple(m, s.tickUs) ==> m in s.visits)
  }

  /** The table holds exactly the taken moments that still lie ahead. */
  ghost predicate TableAhead(s: Clock) {
    && IsTable(s.wakes) && DistinctWakes(s.wakes)
    && (forall w: nat :: Holds(s.wakes, w) <==> w in s.taken && w > s.now)
  }

  ghost predicate Served(s: Clock) {
    && TicksConserved(s) && s.pending == 0
    && NoNesting(s.script)
    && VisitsMeant(s) && NothingMissed(s) && TableAhead(s)
  }

  // --- Callbacks that only ask ---------------------------------------------

  lemma AskServed(s: Clock, whenUs: nat)
    requires Served(s)
    ensures Served(Asks(s, whenUs))
  {
    var r := Asks(s, whenUs);
    RequestHolds(s.wakes, s.now, whenUs, 0);
    forall w: nat ensures Holds(r.wakes, w) <==> w in r.taken && w > r.now {
      RequestHolds(s.wakes, s.now, whenUs, w);
    }
  }

  lemma {:induction false} ActAllServed(s: Clock, actions: seq<Action>)
    requires Served(s) && OnlyAsks(actions)
    ensures Served(ActAll(s, actions)) && ActAll(s, actions).now == s.now && ActAll(s, actions).visits == s.visits
    ensures ActAll(s, actions).nextTick == s.nextTick
    decreases |actions|
  {
    hide VisitsMeant, NothingMissed, TableAhead;
    if actions != [] {
      AskServed(s, actions[0].whenUs);
      ActConserves(s, actions[0]);
      ActAllServed(Act(s, actions[0]), actions[1..]);
    }
  }

  lemma CallbackServed(s: Clock)
    requires Served(s)
    ensures Served(Callback(s)) && Callback(s).now == s.now && Callback(s).visits == s.visits
    ensures Callback(s).nextTick == s.nextTick
  {
    hide VisitsMeant, NothingMissed, TableAhead, TicksConserved;
    if s.script != [] {
      var s1 := s.(script := s.script[1..]);
      assert Served(s1) by {
        SameButScript(s, s1);
      }
      ActAllServed(s1, s.script[0]);
    }
  }

  lemma SameButScript(s: Clock, r: Clock)
    requires Served(s) && r == s.(script := r.script, zeroWaits := r.zeroWaits) && NoNesting(r.script)
    ensures Served(r)
  {
  }

  // --- Stops ---------------------------------------------------------------

  lemma NoMultipleBetween(d: nat, n: nat, m: nat)
    requires d > 0 && d * n <= m < d * (n + 1) && Multiple(m, d)
    ensures m == d * n
  {
    Quotient(d, n, m);
  }

  lemma BoundaryIsMultiple(d: nat, n: nat)
    requires d > 0
    ensures Multiple(d * n, d)
  {
    assert d * n < d * (n + 1);
    Quotient(d, n, d * n);
  }

  /** Between the clock and its next stop nothing is owed. */
  lemma NothingBetween(s: Clock, m: nat)
    requires Served(s) && s.now < m <= NextStop(s).at
    ensures Multiple(m, s.tickUs) || m in s.taken ==> m == NextStop(s).at
  {
    NextStopAhead(s);
    NextAfterIsLeast(s.wakes, s.now);
    if Multiple(m, s.tickUs) && m < s.nextTick {
      NoMultipleBetween(s.tickUs, s.ticks, m);
    }
  }

  /** Once the clock has moved to a stop, only the stop itself is owed. */
  lemma MovedTo(s: Clock, at: nat, r: Clock)
    requires Served(s) && at == NextStop(s).at
    requires r == s.(now := at, wakes := Retired(s.wakes, at), visits := s.visits + [at],
                     nextTick := r.nextTick, ticks := r.ticks)
    requires at in s.taken || Multiple(at, s.tickUs)
    ensures VisitsMeant(r) && NothingMissed(r) && TableAhead(r)
  {
    NextStopAhead(s);
    assert r.visits[|s.visits|] == at;
    forall v | v in s.visits ensures v in r.visits {
      var i :| 0 <= i < |s.visits| && s.visits[i] == v;
      assert r.visits[i] == v;
    }
    forall v | v in r.visits ensures v == at || v in s.visits {
      var i :| 0 <= i < |r.visits| && r.visits[i] == v;
      assert i < |s.visits| ==> s.visits[i] == v;
    }
    assert Ascending(r.visits) by {
      forall i | 0 <= i < |s.visits| ensures r.visits[i] < at {
        assert s.visits[i] in s.visits;
      }
    }
    forall m | 0 < m <= at && Multiple(m, s.tickUs) ensures m in r.visits {
      if m > s.now {
        NothingBetween(s, m);
      } else {
        assert m in s.visits;
      }
    }
    forall w | w in s.taken && w <= at ensures w in r.visits {
      if w > s.now {
        NothingBetween(s, w);
      } else {
        assert w in s.visits;
      }
    }
    forall w: nat ensures Holds(r.wakes, w) <==> w in r.taken && w > at {
      RetiredHolds(s.wakes, at, w);
    }
    RetiredDistinct(s.wakes, at);
  }

  lemma WakeStopServed(s: Clock)
    requires Served(s) && NextStop(s).isWake
    ensures var at := NextStop(s).at;
            s.now < at < s.nextTick && Served(WakeStop(s, at)) && WakeStop(s, at).now == at && at in s.taken
  {
    var at := NextStop(s).at;
    NextStopAhead(s);
    NextAfterIsLeast(s.wakes, s.now);
    var r := s.(now := at, wakes := Retired(s.wakes, at), visits := s.visits + [at]);
    MovedTo(s, at, r);
    CallbackServed(r);
  }

  lemma TickStopServed(s: Clock)
    requires Served(s) && !NextStop(s).isWake
    ensures Served(TickStop(s)) && TickStop(s).now == s.nextTick
  {
    var at := s.nextTick;
    TickIsDue(s);
    BoundaryIsMultiple(s.tickUs, s.ticks + 1);
    var r := s.(now := at, wakes := Retired(s.wakes, at), visits := s.visits + [at],
                nextTick := at + s.tickUs, ticks := s.ticks + 1);
    MovedTo(s, at, r);
    CallbackServed(r);
    TickStopIsOne(s, r);
  }

  /** With no waits nested, no tick is deferred and a boundary is one callback. */
  lemma TickStopIsOne(s: Clock, r: Clock)
    requires TicksConserved(s) && s.pending == 0
    requires r == s.(now := s.nextTick, wakes := Retired(s.wakes, s.nextTick), visits := s.visits + [s.nextTick],
                     nextTick := s.nextTick + s.tickUs, ticks := s.ticks + 1)
    requires TicksConserved(r) && Callback(r).pending == 0
    ensures TickStop(s) == Callback(r)
  {
    TickIsDue(s);
    assert TickStop(s) == Drain(Callback(r)) == Callback(r);
  }

  // --- Waits ---------------------------------------------------------------

  ghost predicate AskedIn(script: seq<seq<Action>>, w: nat) {
    exists k :: 0 <= k < |script| && Ask(w) in script[k]
  }

  /** From one state to a later one, requests are only added: for moments ahead of the
      first, and such as its callbacks were going to ask for. */
  ghost predicate Later(s: Clock, r: Clock) {
    && s.taken <= r.taken
    && (forall w :: w in r.taken && w !in s.taken ==> w > s.now && AskedIn(s.script, w))
    && (forall w: nat :: AskedIn(r.script, w) ==> AskedIn(s.script, w))
  }

  lemma LaterStill(s: Clock, m: Clock, r: Clock)
    requires Later(s, m) && Later(m, r) && s.now <= m.now
    ensures Later(s, r)
  {
    hide AskedIn;
  }

  /** The requests among these actions, added to those of a state. */
  lemma {:induction false} ActAllTaken(s: Clock, actions: seq<Action>)
    requires TicksConserved(s)
    ensures var r := ActAll(s, actions);
            s.taken <= r.taken &&
            forall w :: w in r.taken && w !in s.taken ==> w > s.now && Ask(w) in actions
    decreases |actions|
  {
    hide TicksConserved;
    if actions != [] {
      ActConserves(s, actions[0]);
      ActAllTaken(Act(s, actions[0]), actions[1..]);
    }
  }

  lemma CallbackLater(s: Clock)
    requires TicksConserved(s)
    ensures Later(s, Callback(s))
  {
    if s.script != [] {
      ActAllTaken(s.(script := s.script[1..]), s.script[0]);
      var r := Callback(s);
      forall w: nat | AskedIn(r.script, w) ensures AskedIn(s.script, w) {
        var k :| 0 <= k < |r.script| && Ask(w) in r.script[k];
        assert s.script[k + 1] == r.script[k];
      }
    }
  }

  lemma WakeStopLater(s: Clock, at: nat)
    requires TicksConserved(s) && s.now < at < s.nextTick
    ensures Later(s, WakeStop(s, at))
  {
    var r := s.(now := at, wakes := Retired(s.wakes, at), visits := s.visits + [at]);
    CallbackLater(r);
  }

  /** Nothing asked for at a boundary is at or before it. */
  lemma TickStopLater(s: Clock)
    requires Served(s) && !NextStop(s).isWake
    ensures Later(s, TickStop(s)) && forall w :: w in TickStop(s).taken && w !in s.taken ==> w > s.nextTick
  {
    hide VisitsMeant, TableAhead;
    var at := s.nextTick;
    TickIsDue(s);
    var r := s.(now := at, wakes := Retired(s.wakes, at), visits := s.visits + [at],
                nextTick := at + s.tickUs, ticks := s.ticks + 1);
    CallbackLater(r);
    BoundaryIsMultiple(s.tickUs, s.ticks + 1);
    MovedTo(s, at, r);
    CallbackServed(r);
    TickStopIsOne(s, r);
  }

  lemma {:induction false} WaitLoopServed(s: Clock, target: nat, loops: bool)
    requires Served(s) && s.now <= target
    ensures var r := WaitLoop(s, target, loops);
            && Served(r.clock) && s.now <= r.clock.now <= target && Later(s, r.clock)
            && (r.early ==> r.clock.now in r.clock.taken && r.clock.now > s.now)
    decreases target - s.now
  {
    hide VisitsMeant, NothingMissed, TableAhead, Later;
    NextStopAhead(s);
    var stop := NextStop(s);
    if stop.at > target {
      LaterNow(s);
    } else if stop.isWake {
      WakeStopServed(s);
      WakeStopLater(s, stop.at);
      HeldStays(s, WakeStop(s, stop.at), stop.at);
      if !loops {
        WaitLoopServed(WakeStop(s, stop.at), target, loops);
        LaterStill(s, WakeStop(s, stop.at), WaitLoop(s, target, loops).clock);
      }
    } else {
      TickStopServed(s);
      TickStopLater(s);
      WaitLoopServed(TickStop(s), target, loops);
      LaterStill(s, TickStop(s), WaitLoop(s, target, loops).clock);
    }
  }

  lemma LaterNow(s: Clock)
    ensures Later(s, s)
  {
  }

  lemma HeldStays(s: Clock, r: Clock, w: nat)
    requires Later(s, r) && w in s.taken
    ensures w in r.taken
  {
  }

  lemma MoveToTarget(s: Clock, target: nat)
    requires Served(s) && s.now < target < NextStop(s).at
    ensures Served(s.(now := target))
  {
    NextStopAhead(s);
    var r := s.(now := target);
    forall m | s.now < m <= target ensures !Multiple(m, s.tickUs) && m !in s.taken {
      NothingBetween(s, m);
    }
    forall w: nat ensures Holds(r.wakes, w) <==> w in r.taken && w > target {
      assert Holds(s.wakes, w) <==> w in s.taken && w > s.now;
    }
  }

  lemma SettledServed(s: Clock, target: nat, loops: bool)
    requires Served(s) && s.now <= target
    ensures var r := Settled(WaitLoop(s, target, loops), target);
            && Served(r.clock)
            && (!r.early ==> r.clock.now == target)
            && (r.early ==> loops && s.now < r.clock.now <= target && r.clock.now in r.clock.taken)
  {
    hide VisitsMeant, NothingMissed, TableAhead;
    var w := WaitLoop(s, target, loops);
    WaitLoopServed(s, target, loops);
    if !w.early && target > w.clock.now {
      MoveToTarget(w.clock, target);
    }
  }

  /** A wait serves everything that falls in it. A one-shot wait ends exactly when it
      was asked to; a loop slice may also end early, at a moment a device asked for. */
  lemma WaitServed(s: Clock, us: nat)
    requires Served(s)
    ensures var r := OnWait(s, us);
            && Served(r.clock)
            && (!r.early ==> r.clock.now == s.now + us)
            && (r.early ==> us == LOOP_SLICE && s.now < r.clock.now <= s.now + us && r.clock.now in r.clock.taken)
  {
    hide VisitsMeant, NothingMissed, TableAhead, WaitLoop;
    if us == 0 {
      SameButScript(s, s.(zeroWaits := s.zeroWaits + 1));
      CallbackServed(s.(zeroWaits := s.zeroWaits + 1));
    } else {
      SettledServed(s, s.now + us, us == LOOP_SLICE);
    }
  }

  // --- Runs ----------------------------------------------------------------

  lemma BeginServed(tickUs: nat, script: seq<seq<Action>>)
    requires tickUs > 0 && NoNesting(script)
    ensures Served(Begin(tickUs, script))
  {
    assert forall w: nat :: !Holds(NO_WAKES, w);
  }

  /** After any run without nested waits: every visit was at a tick boundary or at a
      moment asked for, in strictly increasing order; every boundary and every such
      moment up to now was visited; and the table holds exactly the rest. */
  lemma {:induction false} EverythingIsServed(tickUs: nat, script: seq<seq<Action>>, ops: seq<Op>)
    requires tickUs > 0 && NoNesting(script)
    requires forall k :: 0 <= k < |ops| ==> !ops[k].IsrWait?
    ensures Served(Run(tickUs, script, ops))
    decreases |ops|
  {
    hide Served;
    if ops == [] {
      BeginServed(tickUs, script);
    } else {
      EverythingIsServed(tickUs, script, ops[..|ops| - 1]);
      var s := Run(tickUs, script, ops[..|ops| - 1]);
      match ops[|ops| - 1]
      case Wait(us) => WaitServed(s, us);
      case DeviceAsk(whenUs) => AskServed(s, whenUs);
    }
  }

  // --- The slice that may come back early ----------------------------------

  /** A moment a device may be owed that no tick serves. */
  ghost predicate OffBeat(s: Clock, target: nat, w: nat) {
    s.now < w <= target && !Multiple(w, s.tickUs)
  }

  ghost predicate WakeWithin(s: Clock, target: nat) {
    exists w: nat :: Holds(s.wakes, w) && OffBeat(s, target, w)
  }

  ghost predicate AskWithin(s: Clock, target: nat) {
    exists w: nat :: AskedIn(s.script, w) && OffBeat(s, target, w)
  }

  /** What the same stretch would have taken or held without the early exit. */
  ghost predicate OneShotTakes(s: Clock, target: nat)
    requires TicksConserved(s)
  {
    exists w :: w in WaitLoop(s, target, false).clock.taken && OffBeat(s, target, w)
  }

  lemma {:induction false} EarlyExactly(s: Clock, target: nat)
    requires Served(s) && s.now <= target
    ensures WaitLoop(s, target, true).early <==> OneShotTakes(s, target)
    decreases target - s.now
  {
    hide VisitsMeant, NothingMissed, TableAhead, Later;
    NextStopAhead(s);
    var stop := NextStop(s);
    if stop.at > target {
      forall m | s.now < m <= target ensures m !in s.taken {
        NothingBetween(s, m);
      }
    } else if stop.isWake {
      WakeIsTaken(s, target);
    } else {
      TickStopServed(s);
      TickStopLater(s);
      EarlyExactly(TickStop(s), target);
      SameAfterTick(s, target);
    }
  }

  lemma WakeIsTaken(s: Clock, target: nat)
    requires Served(s) && NextStop(s).isWake && NextStop(s).at <= target
    ensures OneShotTakes(s, target)
  {
    hide VisitsMeant, NothingMissed, TableAhead, Later;
    var at := NextStop(s).at;
    NextStopAhead(s);
    WakeStopServed(s);
    if Multiple(at, s.tickUs) {
      NoMultipleBetween(s.tickUs, s.ticks, at);
    }
    WaitLoopServed(s, target, false);
    HeldStays(s, WaitLoop(s, target, false).clock, at);
  }

  /** Up to a boundary that is the next stop there is nothing off the beat. */
  lemma SameAfterTick(s: Clock, target: nat)
    requires Served(s) && !NextStop(s).isWake && s.nextTick <= target
    ensures OneShotTakes(s, target) <==> OneShotTakes(TickStop(s), target)
  {
    hide VisitsMeant, NothingMissed, TableAhead;
    TickStopServed(s);
    TickStopLater(s);
    var t := TickStop(s);
    var o := WaitLoop(t, target, false).clock;
    WaitLoopServed(t, target, false);
    assert WaitLoop(s, target, false).clock == o;
    forall w | w in o.taken && OffBeat(s, target, w) ensures OffBeat(t, target, w) {
      if w <= t.now {
        assert w in t.taken && w in s.taken;
        NothingBetween(s, w);
        BoundaryIsMultiple(s.tickUs, s.ticks + 1);
      }
    }
  }

  /** Without nested waits, a wait of exactly one slice length takes its early exit exactly
      when, run to its end, it would take or hold a request for a moment inside it off the
      tick boundaries. */
  lemma SliceReturnsEarly(s: Clock)
    requires Served(s)
    ensures OnWait(s, LOOP_SLICE).early <==> OneShotTakes(s, s.now + LOOP_SLICE)
  {
    hide Served, OneShotTakes, WaitLoop;
    EarlyExactly(s, s.now + LOOP_SLICE);
  }

  /** Without nested waits, it is early if such a wake is held already, and not early if
      none is held and no callback is going to ask for one. */
  lemma SliceForeseen(s: Clock)
    requires Served(s)
    ensures var target := s.now + LOOP_SLICE;
            && (WakeWithin(s, target) ==> OnWait(s, LOOP_SLICE).early)
            && (OnWait(s, LOOP_SLICE).early ==> WakeWithin(s, target) || AskWithin(s, target))
  {
    hide VisitsMeant, NothingMissed, AskedIn;
    var target := s.now + LOOP_SLICE;
    SliceReturnsEarly(s);
    WaitLoopServed(s, target, false);
    var o := WaitLoop(s, target, false).clock;
    if WakeWithin(s, target) {
      var w: nat :| Holds(s.wakes, w) && OffBeat(s, target, w);
      assert w in o.taken;
    }
    if OneShotTakes(s, target) {
      var w :| w in o.taken && OffBeat(s, target, w);
      assert w in s.taken ==> Holds(s.wakes, w);
    }
  }

  /** The table after a callback's requests. */
  function Requested(wakes: Table, now: nat, actions: seq<Action>): Table
    decreases |actions|
  {
    if actions == [] then wakes
    else Requested(if actions[0].Ask? then Request(wakes, now, actions[0].whenUs).wakes else wakes, now, actions[1..])
  }

  predicate HoldsOffBeat(wakes: Table, tickUs: nat, target: nat)
    requires tickUs > 0
  {
    exists i :: 0 <= i < |wakes| && 0 < wakes[i] <= target && wakes[i] % tickUs != 0
  }

  /** Going through the ticks of a stretch and nothing else: whether at one of them, or at
      its beginning, the table holds a moment in it off the tick boundaries. */
  predicate Foreseen(wakes: Table, nextTick: nat, tickUs: nat, script: seq<seq<Action>>, target: nat)
    requires tickUs > 0
    decreases target + 1 - nextTick
  {
    || HoldsOffBeat(wakes, tickUs, target)
    || (nextTick <= target &&
        var actions := if script == [] then [] else script[0];
        Foreseen(Requested(Retired(wakes, nextTick), nextTick, actions), nextTick + tickUs, tickUs,
                 if script == [] then [] else script[1..], target))
  }

  lemma {:induction false} ActAllRequests(s: Clock, actions: seq<Action>)
    requires TicksConserved(s) && OnlyAsks(actions)
    ensures var r := ActAll(s, actions);
            r.wakes == Requested(s.wakes, s.now, actions) && r.now == s.now && r.nextTick == s.nextTick
    decreases |actions|
  {
    hide TicksConserved;
    if actions != [] {
      ActConserves(s, actions[0]);
      ActAllRequests(Act(s, actions[0]), actions[1..]);
    }
  }

  lemma TickStopRequests(s: Clock)
    requires Served(s) && !NextStop(s).isWake
    ensures var r := TickStop(s);
            var actions := if s.script == [] then [] else s.script[0];
            && r.wakes == Requested(Retired(s.wakes, s.nextTick), s.nextTick, actions)
            && r.nextTick == s.nextTick + s.tickUs && r.tickUs == s.tickUs
            && r.script == if s.script == [] then [] else s.script[1..]
  {
    var at := s.nextTick;
    TickIsDue(s);
    BoundaryIsMultiple(s.tickUs, s.ticks + 1);
    var r := s.(now := at, wakes := Retired(s.wakes, at), visits := s.visits + [at],
                nextTick := at + s.tickUs, ticks := s.ticks + 1);
    MovedTo(s, at, r);
    CallbackServed(r);
    TickStopIsOne(s, r);
    hide VisitsMeant, NothingMissed, TableAhead;
    if s.script != [] {
      ActAllRequests(r.(script := r.script[1..]), r.script[0]);
    }
  }

  lemma {:induction false} RequestedKeeps(wakes: Table, now: nat, actions: seq<Action>, w: nat)
    requires Holds(wakes, w)
    ensures Holds(Requested(wakes, now, actions), w)
    decreases |actions|
  {
    hide Request, Holds;
    if actions != [] {
      if actions[0].Ask? {
        RequestHolds(wakes, now, actions[0].whenUs, w);
      }
      RequestedKeeps(if actions[0].Ask? then Request(wakes, now, actions[0].whenUs).wakes else wakes, now,
                     actions[1..], w);
    }
  }

  /** What is held off the beat and lies past the next tick is still held after it. */
  lemma OffBeatStays(s: Clock, target: nat, actions: seq<Action>)
    requires Served(s) && !NextStop(s).isWake && HoldsOffBeat(s.wakes, s.tickUs, target)
    ensures HoldsOffBeat(Requested(Retired(s.wakes, s.nextTick), s.nextTick, actions), s.tickUs, target)
    ensures s.nextTick <= target
  {
    hide VisitsMeant, NothingMissed, Requested;
    var i :| 0 <= i < |s.wakes| && 0 < s.wakes[i] <= target && s.wakes[i] % s.tickUs != 0;
    var w := s.wakes[i];
    assert Holds(s.wakes, w);
    NextAfterIsLeast(s.wakes, s.now);
    BoundaryIsMultiple(s.tickUs, s.ticks + 1);
    assert w > s.nextTick;
    RetiredHolds(s.wakes, s.nextTick, w);
    RequestedKeeps(Retired(s.wakes, s.nextTick), s.nextTick, actions, w);
  }

  lemma LoopOnce(s: Clock, target: nat)
    requires TicksConserved(s)
    ensures s.now < NextStop(s).at && (!NextStop(s).isWake ==> NextStop(s).at == s.nextTick)
    ensures WaitLoop(s, target, true).early ==
            (NextStop(s).at <= target && (NextStop(s).isWake || WaitLoop(TickStop(s), target, true).early))
  {
    NextStopAhead(s);
  }

  lemma ForeseenOnce(s: Clock, target: nat)
    requires s.tickUs > 0
    ensures var actions := if s.script == [] then [] else s.script[0];
            Foreseen(s.wakes, s.nextTick, s.tickUs, s.script, target) ==
            (HoldsOffBeat(s.wakes, s.tickUs, target)
             || (s.nextTick <= target
                 && Foreseen(Requested(Retired(s.wakes, s.nextTick), s.nextTick, actions), s.nextTick + s.tickUs,
                             s.tickUs, if s.script == [] then [] else s.script[1..], target)))
  {
  }

  lemma {:induction false} LoopForeseen(s: Clock, target: nat)
    requires Served(s) && s.now <= target && s.tickUs > 0
    ensures WaitLoop(s, target, true).early <==> Foreseen(s.wakes, s.nextTick, s.tickUs, s.script, target)
    decreases target - s.now
  {
    hide VisitsMeant, NothingMissed, TableAhead, HoldsOffBeat, Requested, TicksConserved, NextStop, Retired;
    hide WaitLoop, Foreseen;
    LoopOnce(s, target);
    ForeseenOnce(s, target);
    var stop := NextStop(s);
    if stop.at > target {
      NothingOffBeat(s, target);
    } else if stop.isWake {
      WakeIsOffBeat(s, target);
    } else {
      TickStopServed(s);
      TickStopRequests(s);
      ForeseenOnce(TickStop(s), target);
      LoopForeseen(TickStop(s), target);
      if HoldsOffBeat(s.wakes, s.tickUs, target) {
        OffBeatStays(s, target, if s.script == [] then [] else s.script[0]);
      }
    }
  }

  lemma NothingOffBeat(s: Clock, target: nat)
    requires Served(s) && NextStop(s).at > target
    ensures s.nextTick > target && !HoldsOffBeat(s.wakes, s.tickUs, target)
  {
    NextStopAhead(s);
    NextAfterIsLeast(s.wakes, s.now);
    forall i | 0 <= i < |s.wakes| && 0 < s.wakes[i]
      ensures s.wakes[i] > target
    {
      assert Holds(s.wakes, s.wakes[i]);
    }
  }

  lemma WakeIsOffBeat(s: Clock, target: nat)
    requires Served(s) && NextStop(s).isWake && NextStop(s).at <= target
    ensures HoldsOffBeat(s.wakes, s.tickUs, target)
  {
    NextStopAhead(s);
    NextAfterIsLeast(s.wakes, s.now);
    var at := NextStop(s).at;
    if Multiple(at, s.tickUs) {
      NoMultipleBetween(s.tickUs, s.ticks, at);
    }
    var i :| 0 <= i < |s.wakes| && s.wakes[i] == at;
  }

  /** The same, told from what is held as the slice begins and what the callbacks of its
      ticks are going to ask for. */
  lemma SliceForeseenExactly(s: Clock)
    requires Served(s)
    ensures OnWait(s, LOOP_SLICE).early <==>
            Foreseen(s.wakes, s.nextTick, s.tickUs, s.script, s.now + LOOP_SLICE)
  {
    assert s.tickUs > 0;
    hide Served, Foreseen, WaitLoop;
    LoopForeseen(s, s.now + LOOP_SLICE);
  }

  /** Nothing is held, and a slice returns early: its first tick's callback asks for a
      moment that falls in it. */
  lemma AskedOnTheWay()
    ensures var s := Begin(500, [[Ask(700)]]);
            Served(s) && !WakeWithin(s, LOOP_SLICE) && OnWait(s, LOOP_SLICE).early
  {
    hide VisitsMeant, NothingMissed, TableAhead, Later;
    var s := Begin(500, [[Ask(700)]]);
    BeginServed(500, [[Ask(700)]]);
    assert forall w: nat :: !Holds(NO_WAKES, w);
    NextAfterIsLeast(s.wakes, s.now);
    assert !NextStop(s).isWake;
    FirstTickAsks(s);
    TickStopServed(s);
    WaitLoopServed(TickStop(s), 1000, false);
    HeldStays(TickStop(s), WaitLoop(s, 1000, false).clock, 700);
    assert OffBeat(s, 1000, 700);
    SliceReturnsEarly(s);
  }

  lemma FirstTickAsks(s: Clock)
    requires s == Begin(500, [[Ask(700)]])
    ensures 700 in TickStop(s).taken
  {
    var r := s.(now := 500, wakes := Retired(s.wakes, 500), visits := [500], nextTick := 1000, ticks := 1);
    AskTaken(r);
    TickStopIsOne(s, r);
  }

  lemma AskTaken(r: Clock)
    requires TicksConserved(r) && r.script == [[Ask(700)]] && r.now == 500 && r.wakes == Retired(NO_WAKES, 500)
    ensures 700 in Callback(r).taken && Callback(r).pending == r.pending
  {
    var t := r.(script := []);
    assert r.script[1..] == [] && r.script[0][1..] == [];
    assert r.wakes[0] == 0;
    ActConserves(t, Ask(700));
    assert Callback(r) == ActAll(t, [Ask(700)]) == Asks(t, 700);
  }
}
