/** Every callback the clock makes, with waits nested in them: what it was made for, when,
    and which list of the script it takes. */
module LateTicks {
  import opened WakeTable
  import opened HostClock
  import opened ClockService
  import opened NestedWaits

  /** One callback: for the boundary just reached, for a boundary passed in a nested wait,
      for a requested moment, or for a wait of length 0. */
  datatype Call = OnTime(at: nat) | Late(at: nat) | Wake(at: nat) | Zero(at: nat)

  predicate IsTick(c: Call) {
    c.OnTime? || c.Late?
  }

  /** When devices were advanced. */
  function Times(calls: seq<Call>): seq<nat> {
    if calls == [] then []
    else Times(calls[..|calls| - 1]) + (if calls[|calls| - 1].Zero? then [] else [calls[|calls| - 1].at])
  }

  function Ticks(calls: seq<Call>): nat {
    if calls == [] then 0 else Ticks(calls[..|calls| - 1]) + (if IsTick(calls[|calls| - 1]) then 1 else 0)
  }

  function Lates(calls: seq<Call>): nat {
    if calls == [] then 0 else Lates(calls[..|calls| - 1]) + (if calls[|calls| - 1].Late? then 1 else 0)
  }

  function Zeros(calls: seq<Call>): nat {
    if calls == [] then 0 else Zeros(calls[..|calls| - 1]) + (if calls[|calls| - 1].Zero? then 1 else 0)
  }

  /** When the i-th call since s ended: it took the i-th list of the script. */
  function Ended(s: Clock, calls: seq<Call>, i: nat): nat
    requires i < |calls|
  {
    calls[i].at + NestingAt(s.script, i)
  }

  /** When the call before the i-th ended. */
  function Before(s: Clock, calls: seq<Call>, i: nat): nat
    requires i <= |calls|
  {
    if i == 0 then s.now else Ended(s, calls, i - 1)
  }

  /** A boundary or a requested moment is served when it comes, after what went before; a
      late tick starts where the call before it ended. */
  ghost predicate CallMeant(s: Clock, r: Clock, calls: seq<Call>, i: nat)
    requires i < |calls|
  {
    && Ended(s, calls, i) <= r.now
    && match calls[i]
       case OnTime(at) => at > Before(s, calls, i) && Multiple(at, s.tickUs)
       case Late(at) => at == Before(s, calls, i)
       case Wake(at) => at > Before(s, calls, i) && at in r.taken
       case Zero(at) => at >= Before(s, calls, i)
  }

  ghost predicate HeldTaken(s: Clock) {
    forall w: nat :: Holds(s.wakes, w) ==> w in s.taken
  }

  /** From s to r exactly these calls were made, each for its reason and each taking the
      next list of the script. */
  ghost predicate Made(s: Clock, r: Clock, calls: seq<Call>) {
    && r.visits == s.visits + Times(calls) && r.script == Rest(s.script, |calls|)
    && r.ticks == s.ticks + Ticks(calls) && r.late == s.late + Lates(calls)
    && r.zeroWaits == s.zeroWaits + Zeros(calls)
    && s.now <= r.now && s.tickUs == r.tickUs && s.taken <= r.taken && HeldTaken(r)
    && forall i :: 0 <= i < |calls| ==> CallMeant(s, r, calls, i)
  }

  /** A late tick directly follows a tick, and once no more follow, as many ticks have been
      called as boundaries have passed. */
  ghost predicate Grouped(s: Clock, calls: seq<Call>) {
    && (forall i :: 0 <= i < |calls| && calls[i].Late? ==> i > 0 && IsTick(calls[i - 1]))
    && forall i :: 0 <= i < |calls| && LastOfGroup(calls, i) ==> AllCalled(s, calls, i)
  }

  predicate LastOfGroup(calls: seq<Call>, i: nat)
    requires i < |calls|
  {
    IsTick(calls[i]) && (i + 1 < |calls| ==> !calls[i + 1].Late?)
  }

  predicate AllCalled(s: Clock, calls: seq<Call>, i: nat)
    requires i < |calls|
  {
    s.tickUs > 0 && Called(s, calls, i) == Ended(s, calls, i) / s.tickUs
  }

  /** The ticks counted up to and with the i-th call. */
  function Called(s: Clock, calls: seq<Call>, i: nat): nat
    requires i < |calls|
  {
    s.ticks + Ticks(calls[..i + 1])
  }

  // --- Putting stretches together ------------------------------------------

  lemma {:induction false} CountsAppend(a: seq<Call>, b: seq<Call>)
    ensures Times(a + b) == Times(a) + Times(b) && Ticks(a + b) == Ticks(a) + Ticks(b)
    ensures Lates(a + b) == Lates(a) + Lates(b) && Zeros(a + b) == Zeros(a) + Zeros(b)
    decreases |b|
  {
    if b == [] {
      assert a + b == a;
    } else {
      assert (a + b)[..|a + b| - 1] == a + b[..|b| - 1];
      CountsAppend(a, b[..|b| - 1]);
    }
  }

  lemma SameEnds(s: Clock, m: Clock, a: seq<Call>, b: seq<Call>, i: nat)
    requires m.script == Rest(s.script, |a|) && i < |a| + |b|
    ensures Ended(s, a + b, i) == if i < |a| then Ended(s, a, i) else Ended(m, b, i - |a|)
  {
    hide Nesting;
  }

  lemma MadeJoin(s: Clock, m: Clock, r: Clock, a: seq<Call>, b: seq<Call>)
    requires Made(s, m, a) && Made(m, r, b)
    requires b != [] && b[0].Late? ==> a != [] && m.now == Ended(s, a, |a| - 1)
    ensures Made(s, r, a + b)
  {
    hide HeldTaken, Times, Ticks, Lates, Zeros, Ended, Multiple;
    CountsAppend(a, b);
    RestTwice(s.script, |a|, |b|);
    forall i | 0 <= i < |a + b|
      ensures CallMeant(s, r, a + b, i)
    {
      SameEnds(s, m, a, b, i);
      if i > 0 {
        SameEnds(s, m, a, b, i - 1);
      }
      if i < |a| {
        assert CallMeant(s, m, a, i);
      } else {
        assert CallMeant(m, r, b, i - |a|);
        if a != [] {
          assert CallMeant(s, m, a, |a| - 1);
        }
      }
    }
  }

  lemma RestTwice(script: seq<seq<Action>>, n: nat, k: nat)
    ensures Rest(Rest(script, n), k) == Rest(script, n + k)
  {
  }

  lemma GroupedJoin(s: Clock, m: Clock, a: seq<Call>, b: seq<Call>)
    requires Grouped(s, a) && Grouped(m, b) && m.script == Rest(s.script, |a|)
    requires m.ticks == s.ticks + Ticks(a) && m.tickUs == s.tickUs
    ensures Grouped(s, a + b)
  {
    hide AllCalled, Ticks, LastOfGroup;
    forall i | 0 <= i < |a + b| && LastOfGroup(a + b, i)
      ensures AllCalled(s, a + b, i)
    {
      LastInPart(a, b, i);
      if i < |a| {
        CalledInFirst(s, a, b, i);
      } else {
        CalledInSecond(s, m, a, b, i - |a|);
      }
    }
  }

  lemma LastInPart(a: seq<Call>, b: seq<Call>, i: nat)
    requires i < |a + b| && LastOfGroup(a + b, i)
    ensures if i < |a| then LastOfGroup(a, i) else LastOfGroup(b, i - |a|)
  {
    if i < |a| {
      assert i + 1 < |a| ==> (a + b)[i + 1] == a[i + 1];
    } else {
      assert i + 1 < |a + b| ==> (a + b)[i + 1] == b[i + 1 - |a|];
    }
  }

  lemma CalledInFirst(s: Clock, a: seq<Call>, b: seq<Call>, i: nat)
    requires i < |a| && AllCalled(s, a, i)
    ensures AllCalled(s, a + b, i)
  {
    assert (a + b)[..i + 1] == a[..i + 1];
    hide Ticks;
  }

  lemma CalledInSecond(s: Clock, m: Clock, a: seq<Call>, b: seq<Call>, i: nat)
    requires i < |b| && AllCalled(m, b, i) && m.script == Rest(s.script, |a|)
    requires m.ticks == s.ticks + Ticks(a) && m.tickUs == s.tickUs
    ensures AllCalled(s, a + b, |a| + i)
  {
    hide Called, Ticks, Ended;
    SameEnds(s, m, a, b, |a| + i);
    SameCalled(s, m, a, b, i);
  }

  lemma SameCalled(s: Clock, m: Clock, a: seq<Call>, b: seq<Call>, i: nat)
    requires i < |b| && m.ticks == s.ticks + Ticks(a)
    ensures Called(s, a + b, |a| + i) == Called(m, b, i)
  {
    hide Ticks, Lates, Zeros, Times;
    SamePart(a, b, i + 1);
    CountsAppend(a, b[..i + 1]);
  }

  lemma SamePart(a: seq<Call>, b: seq<Call>, n: nat)
    requires n <= |b|
    ensures (a + b)[..|a| + n] == a + b[..n]
  {
  }

  // --- One call ------------------------------------------------------------

  lemma ActHolds(s: Clock, a: Action)
    requires TicksConserved(s) && HeldTaken(s)
    ensures var r := Act(s, a);
            && HeldTaken(r) && s.taken <= r.taken && r.visits == s.visits && r.late == s.late
               && r.zeroWaits == s.zeroWaits
  {
    match a
    case Ask(whenUs) =>
      forall w: nat | Holds(Asks(s, whenUs).wakes, w)
        ensures w in Asks(s, whenUs).taken
      {
        RequestHolds(s.wakes, s.now, whenUs, w);
      }
    case Nested(us) =>
  }

  lemma {:induction false} ActAllHolds(s: Clock, actions: seq<Action>)
    requires TicksConserved(s) && HeldTaken(s)
    ensures var r := ActAll(s, actions);
            && HeldTaken(r) && s.taken <= r.taken && r.visits == s.visits && r.late == s.late
               && r.zeroWaits == s.zeroWaits
    decreases |actions|
  {
    hide HeldTaken, TicksConserved, Act;
    if actions != [] {
      ActConserves(s, actions[0]);
      ActHolds(s, actions[0]);
      ActAllHolds(Act(s, actions[0]), actions[1..]);
    }
  }

  /** A callback takes the next list and ends when that list's waits have passed. */
  lemma CallbackIs(s: Clock)
    requires TicksConserved(s) && HeldTaken(s)
    ensures var r := Callback(s);
            && r.now == s.now + NestingAt(s.script, 0) && r.script == Rest(s.script, 1) && r.visits == s.visits
            && r.ticks == s.ticks && r.late == s.late && r.zeroWaits == s.zeroWaits && r.tickUs == s.tickUs
            && HeldTaken(r) && s.taken <= r.taken
  {
    if s.script != [] {
      var t := s.(script := s.script[1..]);
      ActAllMoves(t, s.script[0]);
      ActAllHolds(t, s.script[0]);
      hide ActAll, HeldTaken;
    }
  }

  /** One call made at t, which is s moved on to it. */
  lemma OneCall(s: Clock, t: Clock, r: Clock, c: Call)
    requires TicksConserved(t) && HeldTaken(t) && t.script == s.script && t.taken == s.taken && t.tickUs == s.tickUs
    requires c.at == t.now && s.now <= t.now && r == Callback(t)
    requires t.visits == s.visits + (if c.Zero? then [] else [t.now])
    requires t.ticks == s.ticks + (if IsTick(c) then 1 else 0) && t.late == s.late + (if c.Late? then 1 else 0)
    requires t.zeroWaits == s.zeroWaits + (if c.Zero? then 1 else 0)
    requires match c case OnTime(at) => at > s.now && Multiple(at, s.tickUs)
                     case Late(at) => at == s.now
                     case Wake(at) => at > s.now && at in s.taken
                     case Zero(at) => true
    ensures Made(s, r, [c]) && r.now == Ended(s, [c], 0)
  {
    CallbackIs(t);
    hide Callback, HeldTaken, TicksConserved, Multiple;
    assert [c][..0] == [];
    assert Times([c]) == [] + (if c.Zero? then [] else [c.at]);
    assert Ticks([c]) == if IsTick(c) then 1 else 0;
    assert Lates([c]) == if c.Late? then 1 else 0;
    assert Zeros([c]) == if c.Zero? then 1 else 0;
  }

  lemma {:induction false} DrainCalls(s: Clock) returns (calls: seq<Call>)
    requires TicksConserved(s) && HeldTaken(s)
    ensures Made(s, Drain(s), calls) && (forall i :: 0 <= i < |calls| ==> calls[i].Late?)
    ensures Drain(s).now == if calls == [] then s.now else Ended(s, calls, |calls| - 1)
    decreases |s.script|, s.pending
  {
    if s.pending == 0 {
      calls := [];
      assert Times([]) == [];
    } else {
      var f := LateCall(s);
      hide Made, HeldTaken, TicksConserved, Ended;
      var rest := DrainCalls(f);
      calls := [Late(s.now)] + rest;
      MadeJoin(s, f, Drain(s), [Late(s.now)], rest);
      if rest != [] {
        JoinEnds(s, f, Drain(s), [Late(s.now)], rest);
      }
    }
  }

  lemma JoinEnds(s: Clock, m: Clock, r: Clock, a: seq<Call>, b: seq<Call>)
    requires Made(s, m, a) && b != []
    ensures Ended(s, a + b, |a + b| - 1) == Ended(m, b, |b| - 1)
  {
    SameEnds(s, m, a, b, |a + b| - 1);
  }

  /** One late tick. */
  lemma LateCall(s: Clock) returns (f: Clock)
    requires TicksConserved(s) && HeldTaken(s) && s.pending > 0
    ensures TicksConserved(f) && Drain(s) == Drain(f)
    ensures Made(s, f, [Late(s.now)]) && f.now == Ended(s, [Late(s.now)], 0) && HeldTaken(f)
    ensures |f.script| < |s.script| || (f.script == s.script && f.pending < s.pending)
  {
    var d := s.(pending := s.pending - 1, late := s.late + 1);
    var t := d.(ticks := d.ticks + 1, visits := d.visits + [d.now]);
    f := FireTick(d);
    assert f == Callback(t) && Drain(s) == Drain(f);
    OneCall(s, t, f, Late(s.now));
    hide Callback, FireTick, Drain, Ended;
  }

  lemma TickStopCalls(s: Clock) returns (calls: seq<Call>)
    requires TicksConserved(s) && HeldTaken(s)
    ensures Made(s, TickStop(s), calls) && Grouped(s, calls) && HeldTaken(TickStop(s))
    ensures calls != [] && calls[0] == OnTime(s.nextTick)
  {
    var f := BoundaryCall(s);
    hide Made, HeldTaken, Ended, Multiple, TickStop, Drain;
    var rest := DrainCalls(f);
    calls := [OnTime(s.nextTick)] + rest;
    MadeJoin(s, f, TickStop(s), [OnTime(s.nextTick)], rest);
    if rest != [] {
      JoinEnds(s, f, TickStop(s), [OnTime(s.nextTick)], rest);
    }
    GroupIsWhole(s, TickStop(s), calls);
  }

  lemma BoundaryCall(s: Clock) returns (f: Clock)
    requires TicksConserved(s) && HeldTaken(s)
    ensures TicksConserved(f) && HeldTaken(f) && TickStop(s) == Drain(f)
    ensures Made(s, f, [OnTime(s.nextTick)]) && f.now == Ended(s, [OnTime(s.nextTick)], 0)
  {
    TickIsDue(s);
    BoundaryIsMultiple(s.tickUs, s.ticks + s.pending + 1);
    var d := s.(now := s.nextTick, nextTick := s.nextTick + s.tickUs, wakes := Retired(s.wakes, s.nextTick));
    var t := d.(ticks := d.ticks + 1, visits := d.visits + [d.now]);
    RetiredTaken(s, s.nextTick);
    f := FireTick(d);
    assert f == Callback(t) && TickStop(s) == Drain(f);
    hide Retired, HeldTaken;
    OneCall(s, t, f, OnTime(s.nextTick));
    hide Callback, FireTick, Drain, Ended;
  }

  lemma RetiredTaken(s: Clock, at: nat)
    requires HeldTaken(s)
    ensures forall w: nat :: Holds(Retired(s.wakes, at), w) ==> w in s.taken
  {
    forall w: nat | Holds(Retired(s.wakes, at), w)
      ensures w in s.taken
    {
      RetiredHolds(s.wakes, at, w);
    }
  }

  lemma GroupIsWhole(s: Clock, r: Clock, calls: seq<Call>)
    requires Made(s, r, calls) && TicksConserved(r) && r.pending == 0 && calls != []
    requires r.now == Ended(s, calls, |calls| - 1)
    requires calls[0].OnTime? && forall i :: 1 <= i < |calls| ==> calls[i].Late?
    ensures Grouped(s, calls)
  {
    hide Ended, Ticks, Multiple;
    var n := |calls|;
    assert calls[..n] == calls;
    Quotient(s.tickUs, r.ticks, r.now);
    assert AllCalled(s, calls, n - 1);
  }

  lemma WakeCalls(s: Clock)
    requires TicksConserved(s) && HeldTaken(s) && NextStop(s).isWake && s.now < NextStop(s).at < s.nextTick
    ensures var at := NextStop(s).at;
            && Made(s, WakeStop(s, at), [Wake(at)]) && Grouped(s, [Wake(at)]) && HeldTaken(WakeStop(s, at))
  {
    var at := NextStop(s).at;
    NextAfterIsLeast(s.wakes, s.now);
    assert Holds(s.wakes, at);
    var t := s.(now := at, wakes := Retired(s.wakes, at), visits := s.visits + [at]);
    RetiredTaken(s, at);
    hide Retired;
    OneCall(s, t, WakeStop(s, at), Wake(at));
  }

  // --- Waits ---------------------------------------------------------------

  lemma {:induction false} LoopCalls(s: Clock, target: nat, loops: bool) returns (calls: seq<Call>)
    requires TicksConserved(s) && HeldTaken(s)
    ensures Made(s, WaitLoop(s, target, loops).clock, calls) && Grouped(s, calls)
    ensures calls != [] ==> !calls[0].Late?
    decreases if target >= s.now then target - s.now else 0
  {
    NextStopAhead(s);
    hide Made, Grouped, HeldTaken;
    if NextStop(s).at > target {
      calls := [];
      NoCalls(s);
    } else {
      calls := StopCalls(s);
      AfterStop(s, target, loops);
      if !(NextStop(s).isWake && loops) {
        hide Stopped, WaitLoop;
        var rest := LoopCalls(Stopped(s), target, loops);
        StretchCalls(s, Stopped(s), WaitLoop(s, target, loops).clock, calls, rest);
        calls := calls + rest;
      }
    }
  }

  lemma StopCalls(s: Clock) returns (calls: seq<Call>)
    requires TicksConserved(s) && HeldTaken(s)
    ensures Made(s, Stopped(s), calls) && Grouped(s, calls) && HeldTaken(Stopped(s))
    ensures calls != [] && !calls[0].Late? && Stopped(s).now >= NextStop(s).at > s.now
  {
    hide Made, Grouped, HeldTaken, Retired;
    NextStopAhead(s);
    if NextStop(s).isWake {
      WakeCalls(s);
      calls := [Wake(NextStop(s).at)];
    } else {
      calls := TickStopCalls(s);
    }
  }

  lemma NoCalls(s: Clock)
    requires HeldTaken(s)
    ensures Made(s, s, []) && Grouped(s, [])
  {
    assert Times([]) == [];
  }

  lemma StretchCalls(s: Clock, m: Clock, r: Clock, a: seq<Call>, b: seq<Call>)
    requires Made(s, m, a) && Made(m, r, b) && Grouped(s, a) && Grouped(m, b)
    ensures Made(s, r, a + b) && Grouped(s, a + b)
  {
    hide CallMeant, HeldTaken, Times, Ticks, Lates, Zeros;
    assert b != [] ==> !b[0].Late?;
    MadeJoin(s, m, r, a, b);
    GroupedJoin(s, m, a, b);
  }

  /** Moving the clock on, or anything else between calls, makes none. */
  lemma MovedOn(s: Clock, r: Clock)
    requires HeldTaken(r) && r.visits == s.visits && r.script == s.script && r.ticks == s.ticks && r.late == s.late
    requires r.zeroWaits == s.zeroWaits && s.now <= r.now && s.tickUs == r.tickUs && s.taken <= r.taken
    ensures Made(s, r, []) && Grouped(s, [])
  {
    assert Times([]) == [];
  }

  lemma StepCalls(s: Clock, op: Op) returns (calls: seq<Call>)
    requires TicksConserved(s) && HeldTaken(s)
    ensures Made(s, Step(s, op), calls) && Grouped(s, calls)
    ensures op.Wait? && op.us == 0 ==> calls == [Zero(s.now)]
  {
    match op
    case Wait(us) =>
      if us == 0 {
        OneCall(s, s.(zeroWaits := s.zeroWaits + 1), OnWait(s, 0).clock, Zero(s.now));
        calls := [Zero(s.now)];
        assert Grouped(s, calls);
      } else {
        calls := WaitCalls(s, us);
      }
    case IsrWait(us) =>
      ActConserves(s, Nested(us));
      ActHolds(s, Nested(us));
      calls := [];
      hide HeldTaken;
      ActMoves(s, us);
      MovedOn(s, NestedWait(s, us));
    case DeviceAsk(whenUs) =>
      ActHolds(s, Ask(whenUs));
      calls := [];
      hide HeldTaken;
      MovedOn(s, Asks(s, whenUs));
  }

  lemma ActMoves(s: Clock, us: nat)
    requires TicksConserved(s)
    ensures var r := NestedWait(s, us);
            s.now <= r.now && r.ticks == s.ticks && r.script == s.script && r.tickUs == s.tickUs
  {
  }

  lemma WaitCalls(s: Clock, us: nat) returns (calls: seq<Call>)
    requires TicksConserved(s) && HeldTaken(s) && us != 0
    ensures Made(s, OnWait(s, us).clock, calls) && Grouped(s, calls)
  {
    hide WaitLoop, HeldTaken, Grouped, Made, Settled, TicksConserved;
    var target := s.now + us;
    var w := WaitLoop(s, target, us == LOOP_SLICE);
    calls := LoopCalls(s, target, us == LOOP_SLICE);
    SettledCalls(s, w, target, calls);
    StretchCalls(s, w.clock, Settled(w, target).clock, calls, []);
    assert calls + [] == calls;
  }

  lemma SettledCalls(s: Clock, w: Waited, target: nat, calls: seq<Call>)
    requires TicksConserved(w.clock) && (!w.early ==> w.clock.nextTick > target) && Made(s, w.clock, calls)
    ensures Made(w.clock, Settled(w, target).clock, []) && Grouped(w.clock, [])
  {
    hide Times;
    assert HeldTaken(Settled(w, target).clock);
    MovedOn(w.clock, Settled(w, target).clock);
  }

  lemma BeginHolds(tickUs: nat, script: seq<seq<Action>>)
    ensures HeldTaken(Begin(tickUs, script))
  {
    assert forall w: nat :: !Holds(NO_WAKES, w);
  }

  /** Over any run, with waits nested in any callbacks: devices were advanced exactly once
      for each tick counted and each requested moment served, the sketch's waits of length
      0 made a call each, and every call took the next list of the script. A boundary or a
      requested moment was served when it came; a tick passed in a wait nested in a
      callback was called where the call before it ended, and no other call was made
      before as many ticks had been called as boundaries had passed. */
  lemma {:induction false} EveryCallIsMeant(tickUs: nat, script: seq<seq<Action>>, ops: seq<Op>)
    returns (calls: seq<Call>)
    requires tickUs > 0
    ensures Made(Begin(tickUs, script), Run(tickUs, script, ops), calls)
    ensures Grouped(Begin(tickUs, script), calls)
    decreases |ops|
  {
    BeginHolds(tickUs, script);
    var s := Begin(tickUs, script);
    hide Begin;
    if ops == [] {
      calls := [];
      NoCalls(s);
    } else {
      var n := |ops| - 1;
      var m := Run(tickUs, script, ops[..n]);
      calls := EveryCallIsMeant(tickUs, script, ops[..n]);
      assert HeldTaken(m);
      hide Made, Grouped, HeldTaken, TicksConserved;
      var more := StepCalls(m, ops[n]);
      StretchCalls(s, m, Step(m, ops[n]), calls, more);
      calls := calls + more;
    }
  }
}
