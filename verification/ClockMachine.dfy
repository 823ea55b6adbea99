/** The two clocks as they run: loops over a fixed wake table and counters changed in
    place. */
module ClockMachine {
  import opened WakeTable
  import opened HostClock
  import opened NativeClock

  lemma IndexIs(wakes: Table, x: nat, i: nat)
    requires i <= |wakes| && (i < |wakes| ==> wakes[i] == x)
    requires forall j :: 0 <= j < i ==> wakes[j] != x
    ensures IndexOf(wakes, x) == i
  {
  }

  /** The slots of the wake table, shared by both environments. */
  class WakeSlots {
    const wakeAtUs: array<nat>

    ghost function View(): Table
      reads this, wakeAtUs
    {
      wakeAtUs[..]
    }

    constructor ()
      ensures fresh(wakeAtUs) && wakeAtUs.Length == WAKE_SLOTS && View() == NO_WAKES
    {
      wakeAtUs := new nat[WAKE_SLOTS](_ => 0);
    }

    method NextWakeAfter(after: nat) returns (best: nat)
      ensures best == NextAfter(View(), after)
    {
      best := 0;
      var i := 0;
      while i < wakeAtUs.Length
        invariant 0 <= i <= wakeAtUs.Length
        invariant NextAfter(View(), after) == EarliestFrom(View(), i, after, best)
      {
        var w := wakeAtUs[i];
        if w != 0 && w > after {
          if best == 0 || w < best {
            best := w;
          }
        }
        i := i + 1;
      }
    }

    method RetireWakesUpTo(whenUs: nat)
      modifies wakeAtUs
      ensures View() == Retired(old(View()), whenUs)
    {
      var i := 0;
      while i < wakeAtUs.Length
        invariant 0 <= i <= wakeAtUs.Length
        invariant forall j :: 0 <= j < wakeAtUs.Length ==>
                    wakeAtUs[j] == if j < i then Retired(old(View()), whenUs)[j] else old(View())[j]
      {
        if wakeAtUs[i] != 0 && wakeAtUs[i] <= whenUs {
          wakeAtUs[i] := 0;
        }
        i := i + 1;
      }
    }

    method RequestWake(now: nat, whenUs: nat) returns (taken: bool)
      modifies wakeAtUs
      ensures Asked(View(), taken) == Request(old(View()), now, whenUs)
    {
      if whenUs <= now {
        return true;
      }
      var i := 0;
      while i < wakeAtUs.Length
        invariant 0 <= i <= wakeAtUs.Length && View() == old(View())
        invariant forall j :: 0 <= j < i ==> View()[j] != whenUs
      {
        if wakeAtUs[i] == whenUs {
          return true;
        }
        i := i + 1;
      }
      IndexIs(View(), whenUs, |View()|);
      i := 0;
      while i < wakeAtUs.Length
        invariant 0 <= i <= wakeAtUs.Length && View() == old(View())
        invariant forall j :: 0 <= j < i ==> View()[j] != 0
      {
        if wakeAtUs[i] == 0 {
          IndexIs(View(), 0, i);
          wakeAtUs[i] := whenUs;
          return true;
        }
        i := i + 1;
      }
      IndexIs(View(), 0, |View()|);
      return false;
    }
  }

  class HostMachine {
    const slots: WakeSlots
    var tickUs: nat
    var now: nat
    var nextTick: nat
    var ticks: nat
    var pendingTicks: nat
    var lateTicks: nat
    var zeroWaits: nat
    var zeroInDirector: nat
    var droppedWakes: nat
    var dirDepth: nat
    var isrDepth: nat
    var script: seq<seq<Action>>
    ghost var visits: seq<nat>
    ghost var taken: set<nat>

    ghost predicate Valid()
      reads this, slots, slots.wakeAtUs
    {
      TicksConserved(View())
    }

    ghost function View(): Clock
      reads this, slots, slots.wakeAtUs
    {
      Clock(tickUs, now, nextTick, ticks, pendingTicks, lateTicks, zeroWaits, zeroInDirector,
            slots.View(), droppedWakes, script, visits, taken)
    }

    constructor (tick: nat, callbacks: seq<seq<Action>>)
      requires tick > 0
      ensures View() == Begin(tick, callbacks) && dirDepth == isrDepth == 0
      ensures Valid() && fresh(slots) && fresh(slots.wakeAtUs)
    {
      slots := new WakeSlots();
      tickUs, now, nextTick, ticks, pendingTicks, lateTicks := tick, 0, tick, 0, 0, 0;
      zeroWaits, zeroInDirector, droppedWakes, dirDepth, isrDepth := 0, 0, 0, 0, 0;
      script := callbacks;
      visits, taken := [], {};
    }

    method RequestWake(whenUs: nat) returns (ok: bool)
      modifies this`droppedWakes, this`taken, slots.wakeAtUs
      ensures View() == Asks(old(View()), whenUs)
      ensures ok == Request(old(slots.View()), now, whenUs).taken
    {
      ok := slots.RequestWake(now, whenUs);
      if ok {
        taken := if whenUs > now then taken + {whenUs} else taken;
      } else {
        droppedWakes := droppedWakes + 1;
      }
    }

    /** The branch for waits made in callbacks: ticks passed are put off, not fired. */
    method DeferTicks(us: nat)
      requires Valid() && us > 0
      modifies this`pendingTicks, this`nextTick, this`now
      ensures View() == HostClock.NestedWait(old(View()), us)
    {
      var target := now + us;
      while nextTick <= target
        invariant tickUs > 0
        invariant now == old(now)
        invariant Deferred(View(), target) == Deferred(old(View()), target)
        decreases target + 1 - nextTick
      {
        pendingTicks := pendingTicks + 1;
        nextTick := nextTick + tickUs;
      }
      now := target;
    }

    /** The next callback takes its actions from the script. */
    method RunCallback()
      requires Valid() && dirDepth > 0
      modifies this`script, this`droppedWakes, this`taken, this`pendingTicks, this`nextTick, this`now,
               this`zeroInDirector, slots.wakeAtUs
      ensures View() == Callback(old(View()))
    {
      if script == [] {
        return;
      }
      var actions := script[0];
      script := script[1..];
      ghost var start := View();
      var i := 0;
      while i < |actions|
        invariant 0 <= i <= |actions| && Valid() && dirDepth > 0
        invariant ActAll(start, actions) == ActAll(View(), actions[i..])
      {
        assert actions[i..][1..] == actions[i + 1..];
        ActConserves(View(), actions[i]);
        match actions[i] {
          case Ask(whenUs) =>
            var _ := RequestWake(whenUs);
          case Nested(us) =>
            if us == 0 {
              zeroInDirector := zeroInDirector + 1;
            } else {
              DeferTicks(us);
            }
        }
        i := i + 1;
      }
    }

    /** Advance the devices to now, and let what they raised run. */
    method AdvanceDevices()
      requires Valid() && dirDepth > 0
      modifies this`script, this`droppedWakes, this`taken, this`pendingTicks, this`nextTick, this`now,
               this`zeroInDirector, this`visits, slots.wakeAtUs
      ensures View() == Visit(old(View()))
    {
      visits := visits + [now];
      RunCallback();
    }

    method FireTick()
      requires OneDue(View())
      modifies this, slots.wakeAtUs
      ensures View() == HostClock.FireTick(old(View()))
      ensures dirDepth == old(dirDepth) && isrDepth == old(isrDepth)
    {
      ticks := ticks + 1;
      dirDepth := dirDepth + 1;
      AdvanceDevices();
      dirDepth := dirDepth - 1;
    }

    method ServeWake(at: nat)
      requires Valid() && now < at < nextTick
      modifies this, slots.wakeAtUs
      ensures View() == WakeStop(old(View()), at)
      ensures dirDepth == old(dirDepth) && isrDepth == old(isrDepth)
    {
      now := at;
      slots.RetireWakesUpTo(now);
      dirDepth := dirDepth + 1;
      AdvanceDevices();
      dirDepth := dirDepth - 1;
    }

    method DrainPending()
      requires Valid()
      modifies this, slots.wakeAtUs
      ensures View() == Drain(old(View()))
      ensures dirDepth == old(dirDepth) && isrDepth == old(isrDepth)
    {
      hide Visit;
      ghost var fired := View();
      while pendingTicks > 0
        invariant Valid() && Drain(fired) == Drain(View())
        invariant dirDepth == old(dirDepth) && isrDepth == old(isrDepth)
        decreases |script|, pendingTicks
      {
        pendingTicks := pendingTicks - 1;
        lateTicks := lateTicks + 1;
        FireTick();
      }
    }

    method ServeTick()
      requires Valid()
      modifies this, slots.wakeAtUs
      ensures View() == TickStop(old(View()))
      ensures dirDepth == old(dirDepth) && isrDepth == old(isrDepth)
    {
      hide Visit, Drain, Retired;
      TickIsDue(View());
      now := nextTick;
      nextTick := nextTick + tickUs;
      slots.RetireWakesUpTo(now);
      FireTick();
      DrainPending();
    }

    /** The slice loop; true when it came back early. */
    method ServeUntil(target: nat, loops: bool) returns (early: bool)
      requires Valid()
      modifies this, slots.wakeAtUs
      ensures dirDepth == old(dirDepth) && isrDepth == old(isrDepth)
      ensures Waited(View(), early) == WaitLoop(old(View()), target, loops)
    {
      hide WakeStop, TickStop, NextAfter, TicksConserved;
      while true
        invariant Valid() && dirDepth == old(dirDepth) && isrDepth == old(isrDepth)
        invariant WaitLoop(View(), target, loops) == WaitLoop(old(View()), target, loops)
        decreases if target >= now then target - now else 0
      {
        Ahead();
        var next := nextTick;
        var isWake := false;
        var wake := slots.NextWakeAfter(now);
        if wake != 0 && wake < next {
          next, isWake := wake, true;
        }
        if next > target {
          return false;
        }
        if isWake {
          ServeWake(next);
          if loops {
            return true;
          }
        } else {
          ServeTick();
        }
      }
    }

    lemma Ahead()
      requires Valid()
      ensures now < nextTick && now < NextStop(View()).at <= nextTick
    {
      NextStopAhead(View());
    }

    /** A wait of any length, from any context. */
    method OnWait(us: nat)
      requires Valid()
      modifies this, slots.wakeAtUs
      ensures Valid() && dirDepth == old(dirDepth) && isrDepth == old(isrDepth)
      ensures View() == if old(dirDepth > 0 || isrDepth > 0) then HostClock.NestedWait(old(View()), us)
                        else HostClock.OnWait(old(View()), us).clock
    {
      hide WaitLoop, Callback, Deferred;
      if us == 0 {
        if dirDepth > 0 || isrDepth > 0 {
          zeroInDirector := zeroInDirector + 1;
          return;
        }
        zeroWaits := zeroWaits + 1;
        dirDepth := dirDepth + 1;
        RunCallback();
        dirDepth := dirDepth - 1;
        return;
      }
      if dirDepth > 0 || isrDepth > 0 {
        ActConserves(View(), Nested(us));
        DeferTicks(us);
        return;
      }
      var loops := us == LOOP_SLICE;
      var target := now + us;
      var early := ServeUntil(target, loops);
      if early {
        return;
      }
      if target > now {
        now := target;
      }
    }
  }

  class NativeMachine {
    const slots: WakeSlots
    var nowUs: nat
    var nextTickUs: nat
    var script: seq<seq<nat>>
    ghost var visits: seq<nat>

    ghost predicate Valid()
      reads this
    {
      nowUs < nextTickUs
    }

    ghost function View(): Native
      reads this, slots, slots.wakeAtUs
    {
      Native(nowUs, nextTickUs, slots.View(), script, visits)
    }

    constructor (callbacks: seq<seq<nat>>)
      ensures Valid() && View() == Native(0, TICK, NO_WAKES, callbacks, [])
      ensures fresh(slots) && fresh(slots.wakeAtUs)
    {
      slots := new WakeSlots();
      nowUs, nextTickUs, script := 0, TICK, callbacks;
      visits := [];
    }

    method AdvanceDevices()
      modifies this`script, this`visits, slots.wakeAtUs
      ensures View() == NativeVisit(old(View()))
    {
      visits := visits + [nowUs];
      if script == [] {
        return;
      }
      var moments := script[0];
      script := script[1..];
      ghost var start := View();
      var i := 0;
      while i < |moments|
        invariant 0 <= i <= |moments| && nowUs == old(nowUs)
        invariant NativeAsks(start, moments) == NativeAsks(View(), moments[i..])
      {
        assert moments[i..][1..] == moments[i + 1..];
        var _ := slots.RequestWake(nowUs, moments[i]);
        i := i + 1;
      }
      assert moments[i..] == [];
    }

    method Serve(at: nat, isWake: bool)
      requires nowUs < at <= nextTickUs && (isWake ==> at < nextTickUs)
      modifies this, slots.wakeAtUs
      ensures View() == NativeServe(old(View()), Stop(at, isWake))
    {
      hide NativeVisit, Retired;
      nowUs := at;
      if !isWake {
        nextTickUs := nextTickUs + TICK;
      }
      slots.RetireWakesUpTo(nowUs);
      AdvanceDevices();
    }

    method Advance(us: nat)
      requires Valid()
      modifies this, slots.wakeAtUs
      ensures Valid() && View() == NativeClock.Advance(old(View()), us)
    {
      hide NativeServe, NextAfter;
      var target := nowUs + us;
      while true
        invariant Valid() && NativeLoop(View(), target) == NativeLoop(old(View()), target)
        decreases if target >= nowUs then target - nowUs else 0
      {
        NativeStopAhead(View());
        var next := nextTickUs;
        var isWake := false;
        var wake := slots.NextWakeAfter(nowUs);
        if wake != 0 && wake < next {
          next, isWake := wake, true;
        }
        if next > target {
          break;
        }
        Serve(next, isWake);
      }
      if target > nowUs {
        nowUs := target;
      }
    }
  }
}
