/** The host environment's virtual clock: waits split at tick boundaries and at the
    moments devices ask for, with waits nested inside callbacks deferred. What the
    callbacks do is a script: each callback takes the next list of actions. */
module HostClock {
  import opened WakeTable

  /** The slice length of the core's own waiting loops. */
  const LOOP_SLICE: nat := 1000

  datatype Action = Ask(whenUs: nat) | Nested(us: nat)

  datatype Clock = Clock(tickUs: nat, now: nat, nextTick: nat,
                         ticks: nat, pending: nat, late: nat,
                         zeroWaits: nat, zeroInDirector: nat,
                         wakes: Table, droppedWakes: nat,
                         script: seq<seq<Action>>,
                         // What has happened: when devices were advanced, and the
                         // moments a request was taken for.
                         visits: seq<nat>, taken: set<nat>)

  function Begin(tickUs: nat, script: seq<seq<Action>>): Clock {
    Clock(tickUs, 0, tickUs, 0, 0, 0, 0, 0, NO_WAKES, 0, script, [], {})
  }

  /** No tick is lost and none fires twice: those fired and those deferred are exactly
      the boundaries passed, and the next one lies ahead. */
  ghost predicate TicksConserved(s: Clock) {
    && s.tickUs > 0
    && s.now < s.nextTick
    && s.nextTick == s.tickUs * (s.ticks + s.pending + 1)
    && s.tickUs * (s.ticks + s.pending) <= s.now
  }

  // --- What callbacks do ---------------------------------------------------

  function Asks(s: Clock, whenUs: nat): Clock {
    var a := Request(s.wakes, s.now, whenUs);
    if a.taken then s.(wakes := a.wakes, taken := if whenUs > s.now then s.taken + {whenUs} else s.taken)
    else s.(droppedWakes := s.droppedWakes + 1)
  }

  /** Boundaries up to the target are counted, not fired. */
  function Deferred(s: Clock, target: nat): (r: Clock)
    requires s.tickUs > 0
    ensures r == s.(pending := r.pending, nextTick := r.nextTick) && r.nextTick > target && r.pending >= s.pending
    decreases target + 1 - s.nextTick
  {
    if s.nextTick <= target
    then Deferred(s.(pending := s.pending + 1, nextTick := s.nextTick + s.tickUs), target)
    else s
  }

  function NestedWait(s: Clock, us: nat): Clock
    requires s.tickUs > 0
  {
    if us == 0 then s.(zeroInDirector := s.zeroInDirector + 1)
    else Deferred(s, s.now + us).(now := s.now + us)
  }

  function Act(s: Clock, a: Action): Clock
    requires s.tickUs > 0
  {
    match a
    case Ask(whenUs) => Asks(s, whenUs)
    case Nested(us) => NestedWait(s, us)
  }

  lemma {:induction false} DeferredConserves(s: Clock, target: nat)
    requires s.tickUs > 0 && s.now <= target
    requires s.nextTick == s.tickUs * (s.ticks + s.pending + 1)
    requires s.tickUs * (s.ticks + s.pending) <= target
    ensures TicksConserved(Deferred(s, target).(now := target))
    decreases target + 1 - s.nextTick
  {
    if s.nextTick <= target {
      var n := s.ticks + s.pending + 1;
      assert s.tickUs * (n + 1) == s.tickUs * n + s.tickUs;
      DeferredConserves(s.(pending := s.pending + 1, nextTick := s.nextTick + s.tickUs), target);
    }
  }

  lemma ActConserves(s: Clock, a: Action)
    requires TicksConserved(s)
    ensures var r := Act(s, a);
            TicksConserved(r) && r.now >= s.now && r.script == s.script && r.tickUs == s.tickUs && r.ticks == s.ticks
  {
    if a.Nested? && a.us > 0 {
      DeferredConserves(s, s.now + a.us);
    }
  }

  function ActAll(s: Clock, actions: seq<Action>): (r: Clock)
    requires TicksConserved(s)
    ensures TicksConserved(r) && r.now >= s.now && r.script == s.script && r.tickUs == s.tickUs && r.ticks == s.ticks
    decreases |actions|
  {
    if actions == [] then s
    else
      ActConserves(s, actions[0]);
      ActAll(Act(s, actions[0]), actions[1..])
  }

  /** One callback. That it may only be entered with the ticks conserved is checked at
      every place a callback is made. */
  function Callback(s: Clock): (r: Clock)
    requires TicksConserved(s)
    ensures TicksConserved(r) && r.now >= s.now && r.tickUs == s.tickUs && r.ticks == s.ticks
    ensures |r.script| <= |s.script| && (s.script != [] ==> |r.script| < |s.script|)
    ensures s.script == [] ==> r == s
  {
    if s.script == [] then s else ActAll(s.(script := s.script[1..]), s.script[0])
  }

  /** Devices are advanced to the present moment. */
  function Visit(s: Clock): (r: Clock)
    requires TicksConserved(s)
    ensures TicksConserved(r) && r.now >= s.now && r.tickUs == s.tickUs && r.ticks == s.ticks
    ensures |r.script| <= |s.script| && (s.script != [] ==> |r.script| < |s.script|)
    ensures s.script == [] ==> r.pending == s.pending
  {
    Callback(s.(visits := s.visits + [s.now]))
  }

  // --- A wait at the top ---------------------------------------------------

  /** The boundary just reached has left nextTick but is not fired yet. */
  ghost predicate OneDue(s: Clock) {
    && s.tickUs > 0
    && s.now < s.nextTick
    && s.nextTick == s.tickUs * (s.ticks + s.pending + 2)
    && s.tickUs * (s.ticks + s.pending + 1) <= s.now
  }

  function FireTick(s: Clock): (r: Clock)
    requires OneDue(s)
    ensures TicksConserved(r) && r.now >= s.now && r.tickUs == s.tickUs
    ensures |r.script| <= |s.script| && (s.script != [] ==> |r.script| < |s.script|)
    ensures s.script == [] ==> r.pending == s.pending
  {
    Visit(s.(ticks := s.ticks + 1))
  }

  function Drain(s: Clock): (r: Clock)
    requires TicksConserved(s)
    ensures TicksConserved(r) && r.now >= s.now && r.tickUs == s.tickUs && r.pending == 0
    decreases |s.script|, s.pending
  {
    if s.pending == 0 then s
    else Drain(FireTick(s.(pending := s.pending - 1, late := s.late + 1)))
  }

  datatype Stop = Stop(at: nat, isWake: bool)

  /** The next tick boundary, or a requested moment that falls earlier. */
  function NextStop(s: Clock): Stop {
    var wake := NextAfter(s.wakes, s.now);
    if wake != 0 && wake < s.nextTick then Stop(wake, true) else Stop(s.nextTick, false)
  }

  lemma NextStopAhead(s: Clock)
    requires s.now < s.nextTick
    ensures s.now < NextStop(s).at <= s.nextTick
  {
    NextAfterIsLeast(s.wakes, s.now);
  }

  /** Serve a requested moment. */
  function WakeStop(s: Clock, at: nat): (r: Clock)
    requires TicksConserved(s) && s.now < at < s.nextTick
    ensures TicksConserved(r) && r.now >= at && r.tickUs == s.tickUs
  {
    Visit(s.(now := at, wakes := Retired(s.wakes, at)))
  }

  lemma TickIsDue(s: Clock)
    requires TicksConserved(s)
    ensures OneDue(s.(now := s.nextTick, nextTick := s.nextTick + s.tickUs, wakes := Retired(s.wakes, s.nextTick)))
  {
    var n := s.ticks + s.pending + 1;
    assert s.tickUs * (n + 1) == s.tickUs * n + s.tickUs;
  }

  /** Serve a tick boundary, and every tick that callbacks deferred. */
  function TickStop(s: Clock): (r: Clock)
    requires TicksConserved(s)
    ensures TicksConserved(r) && r.now >= s.nextTick && r.tickUs == s.tickUs && r.pending == 0
  {
    TickIsDue(s);
    Drain(FireTick(s.(now := s.nextTick, nextTick := s.nextTick + s.tickUs, wakes := Retired(s.wakes, s.nextTick))))
  }

  datatype Waited = Waited(clock: Clock, early: bool)

  function WaitLoop(s: Clock, target: nat, loops: bool): (r: Waited)
    requires TicksConserved(s)
    ensures TicksConserved(r.clock) && r.clock.now >= s.now && r.clock.tickUs == s.tickUs
    ensures r.early ==> loops
    ensures !r.early ==> NextStop(r.clock).at > target && r.clock.nextTick > target
    decreases if target >= s.now then target - s.now else 0
  {
    NextStopAhead(s);
    var stop := NextStop(s);
    if stop.at > target then Waited(s, false)
    else if stop.isWake then
      var served := WakeStop(s, stop.at);
      if loops then Waited(served, true) else WaitLoop(served, target, loops)
    else WaitLoop(TickStop(s), target, loops)
  }

  /** A slice that ran to its end stands at its target. */
  function Settled(w: Waited, target: nat): (r: Waited)
    requires TicksConserved(w.clock) && (!w.early ==> w.clock.nextTick > target)
    ensures TicksConserved(r.clock) && r.clock.now >= w.clock.now && r.clock.tickUs == w.clock.tickUs
  {
    if !w.early && target > w.clock.now then Waited(w.clock.(now := target), false) else w
  }

  /** A wait made by the application, outside any callback. */
  function OnWait(s: Clock, us: nat): (r: Waited)
    requires TicksConserved(s)
    ensures TicksConserved(r.clock) && r.clock.now >= s.now && r.clock.tickUs == s.tickUs
  {
    if us == 0 then Waited(Callback(s.(zeroWaits := s.zeroWaits + 1)), false)
    else Settled(WaitLoop(s, s.now + us, us == LOOP_SLICE), s.now + us)
  }

  // --- Runs ----------------------------------------------------------------

  /** What can happen to the clock from outside its own loop: a wait of the sketch, a
      wait of an interrupt handler, a request a device makes while the sketch uses it. */
  datatype Op = Wait(us: nat) | IsrWait(us: nat) | DeviceAsk(whenUs: nat)

  function Step(s: Clock, op: Op): (r: Clock)
    requires TicksConserved(s)
    ensures TicksConserved(r) && r.tickUs == s.tickUs
  {
    match op
    case Wait(us) => OnWait(s, us).clock
    case IsrWait(us) =>
      ActConserves(s, Nested(us));
      NestedWait(s, us)
    case DeviceAsk(whenUs) => Asks(s, whenUs)
  }

  function Run(tickUs: nat, script: seq<seq<Action>>, ops: seq<Op>): (r: Clock)
    requires tickUs > 0
    ensures TicksConserved(r) && r.tickUs == tickUs
    decreases |ops|
  {
    if ops == [] then Begin(tickUs, script)
    else Step(Run(tickUs, script, ops[..|ops| - 1]), ops[|ops| - 1])
  }

  lemma {:induction false} Grows(d: nat, a: nat, b: nat)
    requires a <= b
    ensures d * a <= d * b
  {
    assert d * b == d * a + d * (b - a);
  }

  lemma Quotient(d: nat, n: nat, x: nat)
    requires d > 0 && d * n <= x < d * (n + 1)
    ensures x / d == n
  {
    var q := x / d;
    assert d * q <= x < d * (q + 1) by {
      assert x == d * q + x % d;
    }
    if q < n {
      Grows(d, q + 1, n);
    } else if q > n {
      Grows(d, n + 1, q);
    }
  }

  /** After any run, whatever the callbacks asked for and however they waited, the ticks
      fired and the ticks still deferred are the boundaries the clock has passed. */
  lemma TicksMatchTime(tickUs: nat, script: seq<seq<Action>>, ops: seq<Op>)
    requires tickUs > 0
    ensures var r := Run(tickUs, script, ops);
            r.now < r.nextTick && r.ticks + r.pending == r.now / tickUs
  {
    var r := Run(tickUs, script, ops);
    Quotient(tickUs, r.ticks + r.pending, r.now);
  }
}
