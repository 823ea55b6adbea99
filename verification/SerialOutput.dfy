/** When a tape sends by itself: each of the device's own steps waits its delay from where
    it was reached, and goes out with the first advance after that. */
module SerialOutput {
  import opened Tape
  import opened TapeModel

  /** Bytes the device sent, and when. */
  datatype Output = Output(at: int, data: seq<bv8>)

  function Outputs(at: int, sent: seq<seq<bv8>>): (r: seq<Output>)
    ensures |r| == |sent|
  {
    seq(|sent|, i requires 0 <= i < |sent| => Output(at, sent[i]))
  }

  /** Advances at a list of moments. */
  function AdvanceAll(steps: seq<Step>, p: Player, times: seq<int>): (r: (Player, seq<Output>))
    requires SerialOk(steps) && AtByte(steps, p)
    ensures AtByte(steps, r.0)
    decreases |times|
  {
    if times == [] then (p, [])
    else
      ArmedAtByte(steps, p, times[0]);
      var (q, sent) := AdvanceOnce(steps, p, times[0]);
      var (end, rest) := AdvanceAll(steps, q, times[1..]);
      (end, Outputs(times[0], sent) + rest)
  }

  lemma {:induction false} ArmedAtByte(steps: seq<Step>, p: Player, now: int)
    requires AtByte(steps, p)
    ensures AtByte(steps, Armed(steps, p, now))
  {
  }

  /** The device's own steps from i up to, and not with, n. */
  predicate OwnSteps(steps: seq<Step>, i: nat, n: nat) {
    && i <= n <= |steps| && (n < |steps| ==> steps[n].kind != SerialOut)
    && forall k :: i <= k < n ==> steps[k].kind == SerialOut && steps[k].delayUs >= 0
  }

  predicate NeverBack(times: seq<int>) {
    forall j, k :: 0 <= j <= k < |times| ==> times[j] <= times[k]
  }

  // --- What the moments are ------------------------------------------------

  /** The first moment of the list that is not before another. */
  ghost predicate FirstFrom(times: seq<int>, due: int, at: int) {
    at in times && at >= due && forall t :: t in times && t < at ==> t < due
  }

  /** When the k-th of the steps is due: the first at `due`, each other its delay after the
      one before it went out. */
  function DueOf(steps: seq<Step>, i: nat, due: int, r: seq<Output>, k: nat): int
    requires k <= |r| && i + k < |steps|
  {
    if k == 0 then due else r[k - 1].at + steps[i + k].delayUs
  }

  /** The steps go out whole and in order, each with the first advance not before it is due;
      the first that has not gone out was not due at any advance. */
  ghost predicate GoesOut(steps: seq<Step>, i: nat, n: nat, due: int, times: seq<int>, r: seq<Output>)
    requires i <= n <= |steps|
  {
    && |r| <= n - i
    && (forall k :: 0 <= k < |r| ==>
          r[k].data == steps[i + k].data && FirstFrom(times, DueOf(steps, i, due, r, k), r[k].at))
    && (|r| < n - i ==> forall t :: t in times ==> t < DueOf(steps, i, due, r, |r|))
  }

  // --- One step at a time --------------------------------------------------

  /** The outputs, taking one advance or one step at a time. */
  function Chain(steps: seq<Step>, i: nat, n: nat, due: int, times: seq<int>): seq<Output>
    requires i <= n <= |steps|
    decreases |times| + n - i
  {
    if i == n || times == [] then []
    else if times[0] < due then Chain(steps, i, n, due, times[1..])
    else
      [Output(times[0], steps[i].data)]
      + Chain(steps, i + 1, n, if i + 1 < n then times[0] + steps[i + 1].delayUs else 0, times)
  }

  lemma {:induction false} OutputsCons(at: int, data: seq<bv8>, rest: seq<seq<bv8>>)
    ensures Outputs(at, [data] + rest) == [Output(at, data)] + Outputs(at, rest)
  {
  }

  /** Where a finished step leads, its clock is running. */
  lemma {:induction false} FinishedArms(steps: seq<Step>, p: Player, t: int)
    requires SerialOk(steps) && p.step + 1 < |steps| && steps[p.step + 1].kind == SerialOut
    ensures var q := Finished(steps, p, t);
            q.armed && q.step == p.step + 1 && q.dueAtUs == t + steps[p.step + 1].delayUs && AtByte(steps, q)
  {
  }

  lemma {:induction false} ArmedTwice(steps: seq<Step>, p: Player, t: int)
    requires SerialOk(steps)
    ensures Armed(steps, Finished(steps, p, t), t) == Finished(steps, p, t)
  {
  }

  lemma {:induction false} NothingMore(steps: seq<Step>, p: Player, times: seq<int>)
    requires SerialOk(steps) && AtByte(steps, p) && (p.step < |steps| ==> steps[p.step].kind != SerialOut)
    ensures AdvanceAll(steps, p, times).1 == []
    decreases |times|
  {
    if times != [] {
      ArmedAtByte(steps, p, times[0]);
      NothingMore(steps, AdvanceOnce(steps, p, times[0]).0, times[1..]);
    }
  }

  lemma {:induction false} ChainNow(steps: seq<Step>, i: nat, n: nat, due: int, times: seq<int>)
    requires i < n <= |steps| && times != []
    ensures times[0] < due ==> Chain(steps, i, n, due, times) == Chain(steps, i, n, due, times[1..])
    ensures times[0] >= due ==>
              Chain(steps, i, n, due, times) ==
              [Output(times[0], steps[i].data)]
              + Chain(steps, i + 1, n, if i + 1 < n then times[0] + steps[i + 1].delayUs else 0, times)
  {
  }

  lemma {:induction false} AdvancesAreChain(steps: seq<Step>, p: Player, n: nat, times: seq<int>)
    requires SerialOk(steps) && AtByte(steps, p) && p.step <= n && OwnSteps(steps, p.step, n)
    requires p.step < n ==> p.armed
    ensures AdvanceAll(steps, p, times).1 == Chain(steps, p.step, n, p.dueAtUs, times)
    decreases |times| + n - p.step
  {
    if p.step == n {
      NothingMore(steps, p, times);
    } else if times != [] {
      ChainNow(steps, p.step, n, p.dueAtUs, times);
      if times[0] < p.dueAtUs {
        NotYet(steps, p, times);
        hide AdvanceAll, Chain, AtByte;
        AdvancesAreChain(steps, p, n, times[1..]);
      } else {
        var q := Finished(steps, p, times[0]);
        FinishedMoves(steps, p, times[0]);
        FinishedSane(steps, p, times[0]);
        if p.step + 1 < n {
          FinishedArms(steps, p, times[0]);
        }
        SentNow(steps, p, times);
        hide Finished, AdvanceAll, Chain, AtByte, SerialOk;
        AdvancesAreChain(steps, q, n, times);
        SameChain(steps, p.step + 1, n, q.dueAtUs, 0, times);
      }
    }
  }

  lemma {:induction false} SameChain(steps: seq<Step>, i: nat, n: nat, a: int, b: int, times: seq<int>)
    requires i <= n <= |steps|
    ensures i == n ==> Chain(steps, i, n, a, times) == Chain(steps, i, n, b, times)
  {
  }

  lemma {:induction false} FinishedSane(steps: seq<Step>, p: Player, t: int)
    requires SerialOk(steps)
    ensures AtByte(steps, Finished(steps, p, t))
  {
  }

  lemma {:induction false} NotYet(steps: seq<Step>, p: Player, times: seq<int>)
    requires SerialOk(steps) && AtByte(steps, p) && p.armed && times != [] && times[0] < p.dueAtUs
    ensures AdvanceAll(steps, p, times).1 == AdvanceAll(steps, p, times[1..]).1
  {
    assert AdvanceOnce(steps, p, times[0]) == (p, []);
    assert Outputs(times[0], []) + AdvanceAll(steps, p, times[1..]).1 == AdvanceAll(steps, p, times[1..]).1;
  }

  lemma {:induction false} OneMore(steps: seq<Step>, p: Player, t: int)
    requires SerialOk(steps) && AtByte(steps, p) && p.armed && t >= p.dueAtUs
    requires p.step < |steps| && steps[p.step].kind == SerialOut && AtByte(steps, Finished(steps, p, t))
    ensures var (end, rest) := AdvanceOnce(steps, Finished(steps, p, t), t);
            AdvanceOnce(steps, p, t) == (end, [steps[p.step].data] + rest)
  {
    ArmedTwice(steps, p, t);
    assert Armed(steps, p, t) == p;
    hide Finished;
  }

  lemma {:induction false} SentNow(steps: seq<Step>, p: Player, times: seq<int>)
    requires SerialOk(steps) && AtByte(steps, p) && p.armed && times != [] && times[0] >= p.dueAtUs
    requires p.step < |steps| && steps[p.step].kind == SerialOut
    ensures var q := Finished(steps, p, times[0]);
            && AtByte(steps, q)
            && AdvanceAll(steps, p, times).1 ==
               [Output(times[0], steps[p.step].data)] + AdvanceAll(steps, q, times).1
  {
    var t := times[0];
    var q := Finished(steps, p, t);
    FinishedSane(steps, p, t);
    OneMore(steps, p, t);
    hide Advanced, Finished, Armed, AdvanceOnce;
    var (end, rest) := AdvanceOnce(steps, q, t);
    OutputsCons(t, steps[p.step].data, rest);
    var more := AdvanceAll(steps, end, times[1..]).1;
    assert [Output(t, steps[p.step].data)] + Outputs(t, rest) + more ==
           [Output(t, steps[p.step].data)] + (Outputs(t, rest) + more);
  }

  /** None of the steps is due before the first. */
  ghost predicate Rising(steps: seq<Step>, i: nat, n: nat, due: int, r: seq<Output>)
    requires n <= |steps|
  {
    forall k :: 0 <= k <= |r| && i + k < n ==> DueOf(steps, i, due, r, k) >= due
  }

  lemma {:induction false} ChainGoesOut(steps: seq<Step>, i: nat, n: nat, due: int, times: seq<int>)
    requires OwnSteps(steps, i, n) && NeverBack(times)
    ensures var r := Chain(steps, i, n, due, times);
            GoesOut(steps, i, n, due, times, r) && Rising(steps, i, n, due, r)
    decreases |times| + n - i
  {
    if i == n || times == [] {
    } else if times[0] < due {
      hide GoesOut, Rising, OwnSteps;
      ChainGoesOut(steps, i, n, due, times[1..]);
      SkipFirst(steps, i, n, due, times, Chain(steps, i, n, due, times[1..]));
    } else {
      var t := times[0];
      var next := if i + 1 < n then t + steps[i + 1].delayUs else 0;
      assert OwnSteps(steps, i + 1, n);
      hide GoesOut, Rising, OwnSteps;
      ChainGoesOut(steps, i + 1, n, next, times);
      FirstNow(steps, i, n, due, next, times, Chain(steps, i + 1, n, next, times));
    }
  }

  lemma {:induction false} SkipFirst(steps: seq<Step>, i: nat, n: nat, due: int, times: seq<int>, r: seq<Output>)
    requires i <= n <= |steps| && times != [] && times[0] < due
    requires GoesOut(steps, i, n, due, times[1..], r) && Rising(steps, i, n, due, r)
    ensures GoesOut(steps, i, n, due, times, r)
  {
    hide DueOf;
    assert times == [times[0]] + times[1..];
    forall k | 0 <= k < |r|
      ensures FirstFrom(times, DueOf(steps, i, due, r, k), r[k].at)
    {
      assert DueOf(steps, i, due, r, k) >= due;
    }
  }

  lemma {:induction false} DueShift(steps: seq<Step>, i: nat, n: nat, due: int, next: int, first: Output,
                                    rest: seq<Output>, k: nat)
    requires 1 <= k <= |rest| + 1 && i + k < n <= |steps|
    requires next == first.at + steps[i + 1].delayUs
    ensures DueOf(steps, i, due, [first] + rest, k) == DueOf(steps, i + 1, next, rest, k - 1)
  {
  }

  lemma {:induction false} FirstNow(steps: seq<Step>, i: nat, n: nat, due: int, next: int, times: seq<int>,
                                    rest: seq<Output>)
    requires OwnSteps(steps, i, n) && i < n && NeverBack(times) && times != [] && times[0] >= due
    requires i + 1 < n ==> next == times[0] + steps[i + 1].delayUs
    requires GoesOut(steps, i + 1, n, next, times, rest) && Rising(steps, i + 1, n, next, rest)
    ensures var r := [Output(times[0], steps[i].data)] + rest;
            GoesOut(steps, i, n, due, times, r) && Rising(steps, i, n, due, r)
  {
    var first := Output(times[0], steps[i].data);
    var r := [first] + rest;
    assert DueOf(steps, i, due, r, 0) == due && FirstFrom(times, due, first.at);
    hide DueOf, FirstFrom;
    forall k | 0 <= k <= |r| && i + k < n
      ensures DueOf(steps, i, due, r, k) >= due
      ensures k > 0 ==> DueOf(steps, i, due, r, k) == DueOf(steps, i + 1, next, rest, k - 1)
    {
      if k > 0 {
        DueShift(steps, i, n, due, next, first, rest, k);
      }
    }
    forall k | 0 <= k < |r|
      ensures r[k].data == steps[i + k].data && FirstFrom(times, DueOf(steps, i, due, r, k), r[k].at)
    {
      if k > 0 {
        assert r[k] == rest[k - 1];
      }
    }
  }

  // --- The laws ------------------------------------------------------------

  /** The device's own steps that a finished step leads to at t: the first is due its delay
      after t, and whatever the moments of the advances, each goes out whole with the
      first advance at or after it is due and with none before. */
  lemma {:induction false} SentAfterFinish(steps: seq<Step>, p: Player, n: nat, t: int, times: seq<int>)
    requires SerialOk(steps) && p.step + 1 < n && OwnSteps(steps, p.step + 1, n) && NeverBack(times)
    ensures AtByte(steps, Finished(steps, p, t))
    ensures GoesOut(steps, p.step + 1, n, t + steps[p.step + 1].delayUs, times,
                    AdvanceAll(steps, Finished(steps, p, t), times).1)
  {
    FinishedArms(steps, p, t);
    hide GoesOut, AdvanceAll, Chain, Finished;
    AdvancesAreChain(steps, Finished(steps, p, t), n, times);
    ChainGoesOut(steps, p.step + 1, n, t + steps[p.step + 1].delayUs, times);
  }

  /** A tape that starts with steps of the device's own: its clock starts with the first
      advance. */
  lemma {:induction false} SentFromTheStart(steps: seq<Step>, n: nat, times: seq<int>)
    requires SerialOk(steps) && 0 < n && OwnSteps(steps, 0, n) && NeverBack(times) && times != []
    ensures AtByte(steps, RESET)
    ensures GoesOut(steps, 0, n, times[0] + steps[0].delayUs, times, AdvanceAll(steps, RESET, times).1)
  {
    var p := Armed(steps, RESET, times[0]);
    assert p.armed && p.step == 0 && p.dueAtUs == times[0] + steps[0].delayUs && AtByte(steps, p);
    assert AdvanceOnce(steps, RESET, times[0]) == AdvanceOnce(steps, p, times[0]);
    assert AdvanceAll(steps, RESET, times) == AdvanceAll(steps, p, times);
    hide GoesOut, AdvanceAll, Chain, Armed;
    AdvancesAreChain(steps, p, n, times);
    ChainGoesOut(steps, 0, n, p.dueAtUs, times);
  }

  /** The delays of the steps from i up to and with the k-th after it. */
  function Delays(steps: seq<Step>, i: nat, k: nat): int
    requires i + k < |steps|
  {
    steps[i + k].delayUs + (if k == 0 then 0 else Delays(steps, i, k - 1))
  }

  lemma {:induction false} FirstIsDue(times: seq<int>, due: int, at: int)
    requires FirstFrom(times, due, at) && due in times
    ensures at == due
  {
  }

  lemma {:induction false} DueIs(steps: seq<Step>, i: nat, t: int, r: seq<Output>, k: nat)
    requires k <= |r| && i + k < |steps|
    requires k > 0 ==> r[k - 1].at == t + Delays(steps, i, k - 1)
    ensures DueOf(steps, i, t + steps[i].delayUs, r, k) == t + Delays(steps, i, k)
  {
  }

  lemma {:induction false} OnTimeUpTo(steps: seq<Step>, i: nat, n: nat, t: int, times: seq<int>, r: seq<Output>, m: nat)
    requires i < n && OwnSteps(steps, i, n) && GoesOut(steps, i, n, t + steps[i].delayUs, times, r) && m <= |r|
    requires forall k :: 0 <= k < n - i ==> t + Delays(steps, i, k) in times
    ensures forall k :: 0 <= k < m ==> r[k] == Output(t + Delays(steps, i, k), steps[i + k].data)
    decreases m
  {
    if m > 0 {
      OnTimeUpTo(steps, i, n, t, times, r, m - 1);
      var k := m - 1;
      hide OwnSteps, FirstFrom, Delays, DueOf;
      DueIs(steps, i, t, r, k);
      FirstIsDue(times, DueOf(steps, i, t + steps[i].delayUs, r, k), r[k].at);
    }
  }

  /** Advanced when the steps are due, and at any other moments too, all of them go out,
      each at the sum of the delays up to its own. */
  lemma {:induction false} OnTime(steps: seq<Step>, i: nat, n: nat, t: int, times: seq<int>, r: seq<Output>)
    requires i < n && OwnSteps(steps, i, n) && GoesOut(steps, i, n, t + steps[i].delayUs, times, r)
    requires forall k :: 0 <= k < n - i ==> t + Delays(steps, i, k) in times
    ensures |r| == n - i && forall k :: 0 <= k < n - i ==> r[k] == Output(t + Delays(steps, i, k), steps[i + k].data)
  {
    OnTimeUpTo(steps, i, n, t, times, r, |r|);
    var m := if |r| < n - i then |r| else n - i - 1;
    hide FirstFrom, Delays, DueOf;
    DueIs(steps, i, t, r, m);
    assert t + Delays(steps, i, m) in times;
  }
}
