/** Waits nested in callbacks: where the wait around them ends. */
module NestedWaits {
  import opened WakeTable
  import opened HostClock
  import opened ClockService

  /** How long a callback waits in all. */
  function Nesting(actions: seq<Action>): nat {
    if actions == [] then 0
    else (if actions[0].Nested? then actions[0].us else 0) + Nesting(actions[1..])
  }

  /** How long the j-th callback from now will wait. */
  function NestingAt(script: seq<seq<Action>>, j: nat): nat {
    if j < |script| then Nesting(script[j]) else 0
  }

  /** The script after n callbacks. */
  function Rest(script: seq<seq<Action>>, n: nat): seq<seq<Action>> {
    if n <= |script| then script[n..] else []
  }

  lemma {:induction false} ActAllMoves(s: Clock, actions: seq<Action>)
    requires TicksConserved(s)
    ensures var r := ActAll(s, actions);
            r.now == s.now + Nesting(actions) && r.visits == s.visits && r.script == s.script
    decreases |actions|
  {
    hide TicksConserved, Deferred;
    if actions != [] {
      ActConserves(s, actions[0]);
      ActAllMoves(Act(s, actions[0]), actions[1..]);
    }
  }

  lemma VisitMoves(s: Clock)
    requires TicksConserved(s)
    ensures var r := Visit(s);
            && r.now == s.now + NestingAt(s.script, 0)
            && r.visits == s.visits + [s.now] && r.script == Rest(s.script, 1)
  {
    if s.script != [] {
      ActAllMoves(s.(visits := s.visits + [s.now], script := s.script[1..]), s.script[0]);
    }
  }

  /** From s to r, n callbacks were made: each took its part of the script, none of their
      waits reaches past where r stands, and r stands where the last of them ended. */
  ghost predicate Stretch(s: Clock, r: Clock, n: nat) {
    && |r.visits| == |s.visits| + n && s.visits == r.visits[..|s.visits|]
    && r.script == Rest(s.script, n) && s.now <= r.now
    && (forall j :: 0 <= j < n ==> EndOf(s, r, j) <= r.now)
    && r.now == if n == 0 then s.now else EndOf(s, r, n - 1)
  }

  /** When the j-th callback since s ended. */
  function EndOf(s: Clock, r: Clock, j: nat): nat
    requires |s.visits| + j < |r.visits|
  {
    r.visits[|s.visits| + j] + NestingAt(s.script, j)
  }

  lemma StretchJoin(s: Clock, m: Clock, r: Clock, n: nat, k: nat)
    requires Stretch(s, m, n) && Stretch(m, r, k)
    ensures Stretch(s, r, n + k)
  {
    hide Nesting;
    forall j | 0 <= j < n + k
      ensures EndOf(s, r, j) == if j < n then EndOf(s, m, j) else EndOf(m, r, j - n)
    {
      if j < n {
        assert r.visits[..|m.visits|][|s.visits| + j] == m.visits[|s.visits| + j];
      }
    }
    assert s.visits == m.visits[..|s.visits|] == r.visits[..|m.visits|][..|s.visits|];
  }

  /** A callback made at a moment that is s's present or later. */
  lemma VisitStretch(s: Clock, t: Clock)
    requires TicksConserved(t) && s.now <= t.now && t.visits == s.visits && t.script == s.script
    ensures Stretch(s, Visit(t), 1)
  {
    VisitMoves(t);
    hide Visit, Nesting;
    var r := Visit(t);
    assert EndOf(s, r, 0) == r.now;
  }

  lemma {:induction false} DrainStretch(s: Clock) returns (n: nat)
    requires TicksConserved(s)
    ensures Stretch(s, Drain(s), n)
    decreases |s.script|, s.pending
  {
    n := 0;
    if s.pending > 0 {
      var t := s.(pending := s.pending - 1, late := s.late + 1);
      VisitStretch(s, t.(ticks := t.ticks + 1));
      hide Stretch, Visit;
      n := DrainStretch(FireTick(t));
      StretchJoin(s, FireTick(t), Drain(s), 1, n);
      n := n + 1;
    }
  }

  lemma TickStopStretch(s: Clock) returns (n: nat)
    requires TicksConserved(s)
    ensures n > 0 && Stretch(s, TickStop(s), n)
    ensures TickStop(s).visits[|s.visits|] == s.nextTick
  {
    TickIsDue(s);
    var t := s.(now := s.nextTick, nextTick := s.nextTick + s.tickUs, wakes := Retired(s.wakes, s.nextTick));
    var f := FireTick(t);
    VisitStretch(s, t.(ticks := t.ticks + 1));
    VisitMoves(t.(ticks := t.ticks + 1));
    assert f.visits == s.visits + [s.nextTick] && TickStop(s) == Drain(f);
    hide Visit, Drain, TickStop, FireTick, Retired, NestingAt;
    n := DrainStretch(f);
    StretchJoin(s, f, TickStop(s), 1, n);
    FirstKept(f, TickStop(s), n, |s.visits|);
    n := n + 1;
  }

  lemma FirstKept(m: Clock, r: Clock, k: nat, i: nat)
    requires Stretch(m, r, k) && i < |m.visits|
    ensures i < |r.visits| && r.visits[i] == m.visits[i]
  {
    assert r.visits[..|m.visits|][i] == r.visits[i];
  }

  lemma WakeStopStretch(s: Clock, at: nat)
    requires TicksConserved(s) && s.now < at < s.nextTick
    ensures Stretch(s, WakeStop(s, at), 1) && WakeStop(s, at).visits[|s.visits|] == at
  {
    var t := s.(now := at, wakes := Retired(s.wakes, at));
    VisitStretch(s, t);
    VisitMoves(t);
  }

  /** One stop of the waiting loop. */
  function Stopped(s: Clock): (r: Clock)
    requires TicksConserved(s)
    ensures TicksConserved(r)
  {
    NextStopAhead(s);
    if NextStop(s).isWake then WakeStop(s, NextStop(s).at) else TickStop(s)
  }

  lemma StoppedStretch(s: Clock) returns (n: nat)
    requires TicksConserved(s)
    ensures n > 0 && Stretch(s, Stopped(s), n) && Stopped(s).visits[|s.visits|] == NextStop(s).at
    ensures Stopped(s).now >= NextStop(s).at > s.now
  {
    NextStopAhead(s);
    hide Stretch, WakeStop, TickStop;
    n := 1;
    if NextStop(s).isWake {
      WakeStopStretch(s, NextStop(s).at);
    } else {
      n := TickStopStretch(s);
    }
  }

  lemma {:induction false} LoopStretch(s: Clock, target: nat, loops: bool) returns (n: nat)
    requires TicksConserved(s)
    ensures Stretch(s, WaitLoop(s, target, loops).clock, n)
    decreases if target >= s.now then target - s.now else 0
  {
    hide Stretch, Stopped;
    NextStopAhead(s);
    if NextStop(s).at > target {
      n := NoStretch(s);
    } else {
      n := StoppedStretch(s);
      AfterStop(s, target, loops);
      if !(NextStop(s).isWake && loops) {
        var k := LoopStretch(Stopped(s), target, loops);
        StretchJoin(s, Stopped(s), WaitLoop(s, target, loops).clock, n, k);
        n := n + k;
      }
    }
  }

  lemma NoStretch(s: Clock) returns (n: nat)
    ensures n == 0 && Stretch(s, s, 0)
  {
    n := 0;
  }

  lemma AfterStop(s: Clock, target: nat, loops: bool)
    requires TicksConserved(s) && NextStop(s).at <= target
    ensures WaitLoop(s, target, loops) ==
            if NextStop(s).isWake && loops then Waited(Stopped(s), true) else WaitLoop(Stopped(s), target, loops)
  {
    NextStopAhead(s);
  }

  // --- Where a wait ends ---------------------------------------------------

  /** A callback between s and r waited past the target. */
  ghost predicate Overrun(s: Clock, r: Clock, target: nat) {
    exists j: nat :: |s.visits| + j < |r.visits| && EndOf(s, r, j) > target
  }

  /** A wait that does not come back early ends exactly when it was asked to, if and only
      if no callback made on the way waits past that moment; otherwise it ends later. */
  lemma WaitEndsExactly(s: Clock, us: nat)
    requires TicksConserved(s) && us != 0
    ensures var r := OnWait(s, us);
            && (us != LOOP_SLICE ==> !r.early)
            && (!r.early ==> r.clock.now >= s.now + us)
            && (!r.early ==> (r.clock.now == s.now + us <==> !Overrun(s, r.clock, s.now + us)))
  {
    hide WaitLoop, Settled, Stretch, Overrun, TicksConserved, NextStop;
    var target := s.now + us;
    var loop := WaitLoop(s, target, us == LOOP_SLICE);
    var n := LoopStretch(s, target, us == LOOP_SLICE);
    StretchEnds(s, loop.clock, n, target);
    SettledEnds(loop, target);
    SameVisits(s, loop.clock, Settled(loop, target).clock, target);
  }

  lemma SettledEnds(w: Waited, target: nat)
    requires TicksConserved(w.clock) && (!w.early ==> w.clock.nextTick > target)
    ensures var r := Settled(w, target);
            && r.early == w.early && r.clock.visits == w.clock.visits
            && (!w.early ==> r.clock.now == if target > w.clock.now then target else w.clock.now)
  {
  }

  lemma StretchEnds(s: Clock, r: Clock, n: nat, target: nat)
    requires Stretch(s, r, n) && s.now <= target
    ensures r.now > target <==> Overrun(s, r, target)
  {
    hide EndOf;
    if r.now > target {
      assert EndOf(s, r, n - 1) > target;
    }
  }

  lemma SameVisits(s: Clock, a: Clock, b: Clock, target: nat)
    requires a.visits == b.visits
    ensures Overrun(s, a, target) <==> Overrun(s, b, target)
  {
    hide NestingAt;
    assert forall j: nat :: |s.visits| + j < |a.visits| ==> EndOf(s, a, j) == EndOf(s, b, j);
  }

  /** The callbacks from the n-th on do not wait. */
  ghost predicate Quiet(script: seq<seq<Action>>, n: nat) {
    forall k :: n <= k < |script| ==> Nesting(script[k]) == 0
  }

  lemma {:induction false} QuietDrain(s: Clock)
    requires TicksConserved(s) && Quiet(s.script, 0)
    ensures Drain(s).now == s.now && Quiet(Drain(s).script, 0)
    decreases |s.script|, s.pending
  {
    if s.pending > 0 {
      var f := DrainOnce(s);
      hide Quiet, TicksConserved;
      QuietDrain(f);
    }
  }

  lemma DrainOnce(s: Clock) returns (f: Clock)
    requires TicksConserved(s) && Quiet(s.script, 0) && s.pending > 0
    ensures TicksConserved(f) && Drain(s) == Drain(f) && f.now == s.now && Quiet(f.script, 0)
    ensures |f.script| < |s.script| || (f.script == s.script && f.pending < s.pending)
  {
    var t := s.(pending := s.pending - 1, late := s.late + 1);
    VisitMoves(t.(ticks := t.ticks + 1));
    f := FireTick(t);
    assert f.now == s.now && f.script == Rest(s.script, 1);
    hide Visit, Nesting, TicksConserved;
  }

  /** One stop: the clock moves on to it, and by what its first callback waits. */
  lemma StopMoves(s: Clock)
    requires TicksConserved(s) && Quiet(s.script, 1)
    ensures Stopped(s).now == NextStop(s).at + NestingAt(s.script, 0) && Quiet(Stopped(s).script, 0)
  {
    NextStopAhead(s);
    hide Nesting;
    if NextStop(s).isWake {
      VisitMoves(s.(now := NextStop(s).at, wakes := Retired(s.wakes, NextStop(s).at)));
    } else {
      TickMoves(s);
      hide TickStop;
    }
  }

  lemma TickMoves(s: Clock)
    requires TicksConserved(s) && Quiet(s.script, 1)
    ensures TickStop(s).now == s.nextTick + NestingAt(s.script, 0) && Quiet(TickStop(s).script, 0)
  {
    TickIsDue(s);
    var t := s.(now := s.nextTick, nextTick := s.nextTick + s.tickUs, wakes := Retired(s.wakes, s.nextTick));
    var f := FireTick(t);
    VisitMoves(t.(ticks := t.ticks + 1));
    assert f.now == s.nextTick + NestingAt(s.script, 0) && f.script == Rest(s.script, 1) && TickStop(s) == Drain(f);
    hide Visit, Drain, TickStop, FireTick, Retired, Nesting;
    QuietDrain(f);
  }

  lemma {:induction false} QuietLoop(s: Clock, target: nat, loops: bool)
    requires TicksConserved(s) && Quiet(s.script, 0) && s.now <= target
    ensures WaitLoop(s, target, loops).clock.now <= target
    decreases target - s.now
  {
    NextStopAhead(s);
    if NextStop(s).at <= target {
      AfterStop(s, target, loops);
      StopMoves(s);
      hide Stopped, WaitLoop, Quiet;
      if !(NextStop(s).isWake && loops) {
        QuietLoop(Stopped(s), target, loops);
      }
    }
  }

  /** Where only the next callback may wait, whatever is asked for by it or later and
      whatever is held: a one-shot wait ends when it was asked to exactly when its first
      stop lies past that moment or what that callback waits fits before it. */
  lemma FirstNestedFits(s: Clock, us: nat)
    requires TicksConserved(s) && Quiet(s.script, 1) && us != 0 && us != LOOP_SLICE
    ensures OnWait(s, us).clock.now == s.now + us <==>
            NextStop(s).at > s.now + us || NextStop(s).at + NestingAt(s.script, 0) <= s.now + us
  {
    var target := s.now + us;
    if NextStop(s).at <= target {
      AfterStop(s, target, false);
      StopMoves(s);
      hide Stopped, NestingAt;
      if Stopped(s).now <= target {
        hide WaitLoop;
        QuietLoop(Stopped(s), target, false);
      }
    }
  }

  /** With no waits nested in what is left of the script, every such wait does. */
  lemma NoNestingEndsOnTime(s: Clock, us: nat)
    requires TicksConserved(s) && NoNesting(s.script) && us != 0 && us != LOOP_SLICE
    ensures OnWait(s, us).clock.now == s.now + us
  {
    forall k | 0 <= k < |s.script|
      ensures Nesting(s.script[k]) == 0
    {
      OnlyAsksNestsNothing(s.script[k]);
    }
    FirstNestedFits(s, us);
  }

  lemma {:induction false} OnlyAsksNestsNothing(actions: seq<Action>)
    requires OnlyAsks(actions)
    ensures Nesting(actions) == 0
  {
    if actions != [] {
      OnlyAsksNestsNothing(actions[1..]);
    }
  }

  /** A nested wait that runs past its target, and one of the same length that fits. */
  lemma NestedWaitsOverrun()
    ensures var s := Begin(1000, [[Nested(5000)]]);
            && TicksConserved(s)
            && OnWait(s, 1500).clock.now > 1500 && OnWait(s, 6000).clock.now == 6000
  {
    var s := Begin(1000, [[Nested(5000)]]);
    NextAfterIsLeast(s.wakes, s.now);
    assert forall w: nat :: !Holds(NO_WAKES, w);
    assert NextStop(s) == Stop(1000, false);
    assert [Nested(5000)][1..] == [] && NestingAt(s.script, 0) == 5000;
    hide OnWait, NextStop;
    FirstNestedFits(s, 1500);
    FirstNestedFits(s, 6000);
    WaitEndsExactly(s, 1500);
  }

  /** A first tick whose callback waits out the slice leaves nothing to come back early
      for, whatever was held. */
  lemma NestedSkipsWakes(s: Clock)
    requires TicksConserved(s) && Quiet(s.script, 1) && !NextStop(s).isWake
    requires s.nextTick + NestingAt(s.script, 0) >= s.now + LOOP_SLICE
    ensures !OnWait(s, LOOP_SLICE).early
  {
    var target := s.now + LOOP_SLICE;
    if s.nextTick <= target {
      StopMoves(s);
      AfterStop(s, target, true);
      NextStopAhead(Stopped(s));
      EndsHere(Stopped(s), target);
      SettledEnds(WaitLoop(s, target, true), target);
      hide Stopped, NestingAt, Settled, WaitLoop;
    }
  }

  lemma EndsHere(s: Clock, target: nat)
    requires TicksConserved(s) && s.now >= target
    ensures WaitLoop(s, target, true) == Waited(s, false)
  {
    NextStopAhead(s);
  }

  /** So a wake held when a slice begins can be jumped over. */
  lemma HeldWakeSkipped()
    ensures var s := Asks(Begin(500, [[Nested(1000)]]), 700);
            TicksConserved(s) && TableAhead(s) && WakeWithin(s, LOOP_SLICE) && !OnWait(s, LOOP_SLICE).early
  {
    var s := Asks(Begin(500, [[Nested(1000)]]), 700);
    AskFirst(Begin(500, [[Nested(1000)]]), 700);
    assert [Nested(1000)][1..] == [] && NestingAt(s.script, 0) == 1000;
    hide Asks, Nesting, NextStop, OnWait, TableAhead, WakeWithin;
    OneHeld(s);
    NestedSkipsWakes(s);
  }

  lemma AskFirst(s: Clock, w: nat)
    requires s.wakes == NO_WAKES && w > s.now && s.taken == {}
    ensures Asks(s, w) == s.(wakes := [w, 0, 0, 0, 0, 0, 0, 0], taken := {w})
  {
    assert NO_WAKES[0] == 0 && IndexOf(NO_WAKES, 0) == 0 && IndexOf(NO_WAKES, w) == 8;
    assert {} + {w} == {w};
  }

  lemma OneHeld(s: Clock)
    requires s.wakes == [700, 0, 0, 0, 0, 0, 0, 0] && s.taken == {700}
    requires s.now == 0 && s.nextTick == s.tickUs == 500
    ensures TableAhead(s) && WakeWithin(s, LOOP_SLICE) && NextStop(s) == Stop(500, false)
  {
    assert Holds(s.wakes, 700) && OffBeat(s, LOOP_SLICE, 700);
    NextAfterIsLeast(s.wakes, s.now);
  }
}
