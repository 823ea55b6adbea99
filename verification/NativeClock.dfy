/** The second, independent clock: the native environment's `advance`, and its
    agreement with the host's. */
module NativeClock {
  import opened WakeTable
  import opened HostClock

  const TICK: nat := 1000

  /** A device advanced here can only ask; `script` holds the moments each callback
      asks for. */
  datatype Native = Native(now: nat, nextTick: nat, wakes: Table, script: seq<seq<nat>>, visits: seq<nat>)

  function NativeAsks(s: Native, moments: seq<nat>): (r: Native)
    ensures r == s.(wakes := r.wakes)
    decreases |moments|
  {
    if moments == [] then s
    else NativeAsks(s.(wakes := Request(s.wakes, s.now, moments[0]).wakes), moments[1..])
  }

  function NativeVisit(s: Native): (r: Native)
    ensures r.now == s.now && r.nextTick == s.nextTick
  {
    var s1 := s.(visits := s.visits + [s.now]);
    if s1.script == [] then s1 else NativeAsks(s1.(script := s1.script[1..]), s1.script[0])
  }

  function NativeStop(s: Native): Stop {
    var wake := NextAfter(s.wakes, s.now);
    if wake != 0 && wake < s.nextTick then Stop(wake, true) else Stop(s.nextTick, false)
  }

  lemma NativeStopAhead(s: Native)
    requires s.now < s.nextTick
    ensures s.now < NativeStop(s).at <= s.nextTick
  {
    NextAfterIsLeast(s.wakes, s.now);
  }

  function NativeServe(s: Native, stop: Stop): (r: Native)
    requires s.now < stop.at <= s.nextTick && (stop.isWake ==> stop.at < s.nextTick)
    ensures r.now == stop.at && r.now < r.nextTick
  {
    NativeVisit(s.(now := stop.at,
                   nextTick := if stop.isWake then s.nextTick else s.nextTick + TICK,
                   wakes := Retired(s.wakes, stop.at)))
  }

  function NativeLoop(s: Native, target: nat): (r: Native)
    requires s.now < s.nextTick
    ensures r.now < r.nextTick && r.nextTick > target
    decreases if target >= s.now then target - s.now else 0
  {
    NativeStopAhead(s);
    var stop := NativeStop(s);
    if stop.at > target then s else NativeLoop(NativeServe(s, stop), target)
  }

  function Advance(s: Native, us: nat): (r: Native)
    requires s.now < s.nextTick
    ensures r.now < r.nextTick
  {
    var target := s.now + us;
    var r := NativeLoop(s, target);
    if target > r.now then r.(now := target) else r
  }

  // --- Agreement -----------------------------------------------------------

  function AskAll(moments: seq<nat>): seq<Action> {
    seq(|moments|, i requires 0 <= i < |moments| => Ask(moments[i]))
  }

  function AskScript(script: seq<seq<nat>>): seq<seq<Action>> {
    seq(|script|, i requires 0 <= i < |script| => AskAll(script[i]))
  }

  /** The two clocks stand at the same moment, hold the same wakes, have advanced their
      devices at the same times, and face devices that will ask for the same. */
  ghost predicate Agree(h: Clock, n: Native) {
    && TicksConserved(h) && h.tickUs == TICK && h.pending == 0
    && h.now == n.now && h.nextTick == n.nextTick && h.wakes == n.wakes && h.visits == n.visits
    && h.script == AskScript(n.script)
  }

  lemma {:induction false} AsksAgree(h: Clock, n: Native, moments: seq<nat>)
    requires Agree(h, n)
    ensures Agree(ActAll(h, AskAll(moments)), NativeAsks(n, moments))
    ensures ActAll(h, AskAll(moments)).ticks == h.ticks
    decreases |moments|
  {
    if moments != [] {
      assert AskAll(moments)[0] == Ask(moments[0]);
      assert AskAll(moments)[1..] == AskAll(moments[1..]);
      ActConserves(h, Ask(moments[0]));
      AsksAgree(Asks(h, moments[0]), n.(wakes := Request(n.wakes, n.now, moments[0]).wakes), moments[1..]);
    }
  }

  lemma VisitsAgree(h: Clock, n: Native)
    requires Agree(h, n)
    ensures Agree(Visit(h), NativeVisit(n))
  {
    hide TicksConserved;
    if n.script != [] {
      assert h.script[0] == AskAll(n.script[0]) && h.script[1..] == AskScript(n.script[1..]);
      var h1 := h.(visits := h.visits + [h.now], script := h.script[1..]);
      var n1 := n.(visits := n.visits + [n.now], script := n.script[1..]);
      assert Agree(h1, n1) by {
        SameTicks(h, h1);
      }
      AsksAgree(h1, n1, n.script[0]);
    } else {
      SameTicks(h, h.(visits := h.visits + [h.now]));
    }
  }

  lemma SameTicks(s: Clock, r: Clock)
    requires TicksConserved(s) && r == s.(visits := r.visits, script := r.script)
    ensures TicksConserved(r)
  {
  }

  lemma WakeAgrees(h: Clock, n: Native, stop: Stop)
    requires Agree(h, n) && stop.isWake && h.now < stop.at < h.nextTick
    ensures Agree(WakeStop(h, stop.at), NativeServe(n, stop))
  {
    VisitsAgree(h.(now := stop.at, wakes := Retired(h.wakes, stop.at)),
                n.(now := stop.at, wakes := Retired(n.wakes, stop.at)));
  }

  lemma TickAgrees(h: Clock, n: Native)
    requires Agree(h, n)
    ensures Agree(TickStop(h), NativeServe(n, Stop(n.nextTick, false)))
  {
    hide Retired, Visit, NativeVisit;
    TickIsDue(h);
    var h1 := h.(now := h.nextTick, nextTick := h.nextTick + h.tickUs, wakes := Retired(h.wakes, h.nextTick));
    VisitsAgree(h1.(ticks := h1.ticks + 1),
                n.(now := n.nextTick, nextTick := n.nextTick + TICK, wakes := Retired(n.wakes, n.nextTick)));
    assert TickStop(h) == Drain(FireTick(h1)) == FireTick(h1);
  }

  lemma StopsAgree(h: Clock, n: Native)
    requires Agree(h, n)
    ensures NextStop(h) == NativeStop(n)
    ensures h.now < NextStop(h).at <= h.nextTick
    ensures var stop := NextStop(h);
            Agree(if stop.isWake then WakeStop(h, stop.at) else TickStop(h), NativeServe(n, stop))
  {
    hide NativeServe, WakeStop, TickStop;
    NextStopAhead(h);
    if NextStop(h).isWake {
      WakeAgrees(h, n, NextStop(h));
    } else {
      TickAgrees(h, n);
    }
  }

  lemma {:induction false} LoopsAgree(h: Clock, n: Native, target: nat)
    requires Agree(h, n)
    ensures Agree(WaitLoop(h, target, false).clock, NativeLoop(n, target))
    decreases if target >= h.now then target - h.now else 0
  {
    StopsAgree(h, n);
    var stop := NextStop(h);
    if stop.at <= target {
      LoopsAgree(if stop.isWake then WakeStop(h, stop.at) else TickStop(h), NativeServe(n, stop), target);
    }
  }

  lemma SettleAgrees(h: Clock, n: Native, target: nat)
    requires Agree(h, n) && h.nextTick > target
    ensures Agree(Settled(Waited(h, false), target).clock, if target > n.now then n.(now := target) else n)
  {
  }

  /** Any wait that is not a zero wait or a loop slice takes both clocks through the same
      stops to the same state. */
  lemma ClocksAgree(h: Clock, n: Native, us: nat)
    requires Agree(h, n) && us != 0 && us != LOOP_SLICE
    ensures Agree(OnWait(h, us).clock, Advance(n, us)) && !OnWait(h, us).early
  {
    hide Agree, WaitLoop, NativeLoop;
    AgreeNow(h, n);
    LoopsAgree(h, n, h.now + us);
    SettleAgrees(WaitLoop(h, h.now + us, false).clock, NativeLoop(n, n.now + us), h.now + us);
  }

  lemma AgreeNow(h: Clock, n: Native)
    requires Agree(h, n)
    ensures TicksConserved(h) && h.now == n.now && n.now < n.nextTick
  {
  }

  /** What a slice that came back early leaves undone is exactly what a loop without the
      early exit would do next. */
  lemma {:induction false} EarlyIsAPrefix(h: Clock, target: nat)
    requires TicksConserved(h)
    ensures var r := WaitLoop(h, target, true);
            && WaitLoop(h, target, false) == (if r.early then WaitLoop(r.clock, target, false) else r)
            && (r.early ==> r.clock.now > h.now)
    decreases if target >= h.now then target - h.now else 0
  {
    NextStopAhead(h);
    var stop := NextStop(h);
    if stop.at <= target && !stop.isWake {
      EarlyIsAPrefix(TickStop(h), target);
    }
  }

  lemma {:induction false} AgreedNow(h: Clock, n: Native, target: nat, loops: bool)
    requires Agree(h, n) && h.now <= target
    ensures WaitLoop(h, target, loops).clock.now <= target
    decreases target - h.now
  {
    StopsAgree(h, n);
    var stop := NextStop(h);
    if stop.at <= target && (!stop.isWake || !loops) {
      AgreedNow(if stop.isWake then WakeStop(h, stop.at) else TickStop(h), NativeServe(n, stop), target, loops);
    }
  }

  /** A loop slice that came back early, followed by a one-shot wait for what is left of
      it, reaches the state the native clock reaches in one step; a slice that did not
      come back early reaches it by itself. */
  lemma EarlySliceResumes(h: Clock, n: Native)
    requires Agree(h, n)
    ensures var r := OnWait(h, LOOP_SLICE);
            var rest := h.now + LOOP_SLICE - r.clock.now;
            && 0 <= rest && (r.early ==> rest < LOOP_SLICE)
            && Agree(if r.early && rest > 0 then OnWait(r.clock, rest).clock else r.clock, Advance(n, LOOP_SLICE))
  {
    hide Agree, WaitLoop, NativeLoop;
    AgreeNow(h, n);
    var target := h.now + LOOP_SLICE;
    LoopsAgree(h, n, target);
    EarlyIsAPrefix(h, target);
    AgreedNow(h, n, target, true);
    var r := WaitLoop(h, target, true);
    if !r.early {
      SettleAgrees(r.clock, NativeLoop(n, target), target);
    } else if r.clock.now < target {
      SettleAgrees(WaitLoop(r.clock, target, false).clock, NativeLoop(n, target), target);
    } else {
      EndedAtTarget(r.clock);
      SettleAgrees(WaitLoop(r.clock, target, false).clock, NativeLoop(n, target), target);
    }
  }

  lemma EndedAtTarget(s: Clock)
    requires TicksConserved(s)
    ensures WaitLoop(s, s.now, false) == Waited(s, false)
  {
    NextStopAhead(s);
  }
}
