/** What folding is for: an application that keeps its own time and polls as often as it
    likes still gets every recorded answer from the folded tape. */
module FreePolling {
  import opened Wrappers
  import opened Tape
  import opened BusyFold

  /** One turn of an application: the moment it asks what the recording asked next, and what
      it asks after that while the part is busy. */
  datatype Turn = Turn(at: int, polls: seq<Asked>)

  /** How long the refused run that follows a step keeps the part busy: until just past its
      last poll. */
  function Wait(rest: seq<Step>): (w: nat)
    requires Recording(rest) && rest != []
    ensures w == 0 <==> Polls(rest[1..]) == 0
  {
    var n := Polls(rest[1..]);
    if n == 0 then 0 else rest[n].time.value - rest[0].time.value + 1
  }

  /** The recording from the next answered step on. */
  function After(rest: seq<Step>): (r: seq<Step>)
    requires rest != []
    ensures |r| < |rest|
  {
    rest[1 + Polls(rest[1..])..]
  }

  lemma AfterRecorded(rest: seq<Step>)
    requires Recording(rest) && rest != []
    ensures Recording(After(rest)) && Polls(After(rest)) == 0
  {
  }

  predicate InWait(polls: seq<Asked>, until: int) {
    forall i :: 0 <= i < |polls| ==> I2c(polls[i]) && polls[i].now < until
  }

  /** Turns that ask nothing before the part is ready, and poll only while it is busy. They
      may stop short of the end. */
  predicate Patient(rest: seq<Step>, turns: seq<Turn>, ready: int)
    requires Recording(rest)
    decreases |rest|
  {
    turns == [] ||
    (rest != [] && turns[0].at >= ready && (Wait(rest) == 0 ==> turns[0].polls == [])
     && InWait(turns[0].polls, turns[0].at + Wait(rest))
     && (AfterRecorded(rest); Patient(After(rest), turns[1..], turns[0].at + Wait(rest))))
  }

  /** Everything the turns ask, and what they must be answered: the recorded answers, and a
      refusal for each poll. */
  function Script(rest: seq<Step>, turns: seq<Turn>): seq<Asked>
    requires Recording(rest)
    decreases |rest|
  {
    if rest == [] || turns == [] then []
    else
      AfterRecorded(rest);
      [Asked(turns[0].at, Asks(rest[0]).request)] + turns[0].polls + Script(After(rest), turns[1..])
  }

  function Refusals(polls: seq<Asked>): (r: seq<Reply>)
    ensures |r| == |polls|
  {
    seq(|polls|, i requires 0 <= i < |polls| => RefusalOf(polls[i]))
  }

  function Expected(rest: seq<Step>, turns: seq<Turn>): seq<Reply>
    requires Recording(rest)
    decreases |rest|
  {
    if rest == [] || turns == [] then []
    else
      AfterRecorded(rest);
      [Answers(rest[0])] + Refusals(turns[0].polls) + Expected(After(rest), turns[1..])
  }

  lemma {:induction false} ReplayAppend(tape: seq<Step>, p: Player, a: seq<Asked>, b: seq<Asked>)
    requires WellFormed(tape) && InStep(tape, p)
    ensures var (q, first) := Replay(tape, p, a);
            Replay(tape, p, a + b) == (Replay(tape, q, b).0, first + Replay(tape, q, b).1)
    decreases |a|
  {
    if a == [] {
      assert a + b == b;
      assert [] + Replay(tape, p, b).1 == Replay(tape, p, b).1;
    } else {
      hide Play;
      assert (a + b)[1..] == a[1..] + b;
      var (m, reply) := Play(tape, p, a[0]);
      ReplayAppend(tape, m, a[1..], b);
      var (q, first) := Replay(tape, m, a[1..]);
      assert [reply] + (first + Replay(tape, q, b).1) == ([reply] + first) + Replay(tape, q, b).1;
    }
  }

  /** The player stands before `rest`, at its first step or at a busy step due when the part
      is ready. */
  ghost predicate Stands(tape: seq<Step>, p: Player, rest: seq<Step>, ready: int) {
    && p.progress == 0 && p.mismatches == 0 && !p.exhaustedSaid && p.step <= |tape| && Polls(rest) == 0
    && (OnStep(tape, p, rest)
        || (Waiting(tape, p) && p.dueAtUs == ready && tape[p.step + 1..] == FoldFrom(rest, None)))
  }

  /** Finishing an answered step, whenever, starts the wait of the run after it. */
  lemma FinishAnyTime(tape: seq<Step>, p: Player, rest: seq<Step>, now: int)
    requires WellFormed(tape) && Recording(rest) && rest != [] && OnStep(tape, p, rest)
    requires p.mismatches == 0 && !p.exhaustedSaid
    ensures Stands(tape, Finished(tape, p, now), After(rest), now + Wait(rest))
    ensures Wait(rest) > 0 ==>
              Waiting(tape, Finished(tape, p, now)) && Finished(tape, p, now).dueAtUs == now + Wait(rest)
    ensures Finished(tape, p, now).busyRefusals == p.busyRefusals
  {
    AfterRecorded(rest);
    var q := Finished(tape, p, now);
    var next := rest[1..];
    assert tape[p.step] == tape[p.step..][0];
    assert tape[p.step..][1..] == tape[p.step + 1..];
    assert tape[p.step + 1..] == FoldFrom(next, rest[0].time);
    var n := Polls(next);
    if n == 0 {
      assert After(rest) == next;
      SinceMatters(next, rest[0].time, None);
      if next != [] {
        assert tape[p.step + 1] == tape[p.step + 1..][0] == next[0];
      }
      assert OnStep(tape, q, next);
    } else {
      assert tape[p.step + 1] == tape[p.step + 1..][0] == BusyStep(next[..n], rest[0].time);
      assert next[..n][n - 1] == rest[n] && next[n..] == After(rest);
      SinceMatters(next[n..], next[0].time, None);
      assert tape[p.step + 1..][1..] == tape[p.step + 2..];
    }
  }

  lemma AskedOnStep(tape: seq<Step>, p: Player, rest: seq<Step>, at: int)
    requires WellFormed(tape) && Recording(rest) && rest != [] && OnStep(tape, p, rest) && p.progress == 0
    ensures InStep(tape, p)
    ensures Play(tape, p, Asked(at, Asks(rest[0]).request)) == (Finished(tape, p, at), Answers(rest[0]))
  {
    assert tape[p.step] == tape[p.step..][0] == rest[0];
    var s := rest[0];
    assert s.data[..|s.data|] == s.data;
    hide FoldFrom, Finished;
  }

  /** A step asked for when the part is ready is answered as recorded, whatever the time. */
  lemma AnsweredWhenReady(tape: seq<Step>, p: Player, rest: seq<Step>, ready: int, at: int)
    requires WellFormed(tape) && Recording(rest) && rest != [] && Stands(tape, p, rest, ready) && at >= ready
    ensures InStep(tape, p)
    ensures var (q, reply) := Play(tape, p, Asked(at, Asks(rest[0]).request));
            && reply == Answers(rest[0]) && Stands(tape, q, After(rest), at + Wait(rest))
            && (Wait(rest) > 0 ==> Waiting(tape, q) && q.dueAtUs == at + Wait(rest))
            && q.busyRefusals == p.busyRefusals
  {
    var a := Asked(at, Asks(rest[0]).request);
    if OnStep(tape, p, rest) {
      AskedOnStep(tape, p, rest, at);
      FinishAnyTime(tape, p, rest, at);
    } else {
      assert rest[0..] == rest;
      assert tape[p.step + 1] == tape[p.step + 1..][0] == rest[0];
      PassedWhenDue(tape, p, a);
      var q := Finished(tape, p, at);
      assert OnStep(tape, q, rest);
      AskedOnStep(tape, q, rest, at);
      FinishAnyTime(tape, q, rest, at);
    }
  }

  /** The polls made while the part is busy, and none where it is not. */
  lemma PolledInWait(tape: seq<Step>, q: Player, rest: seq<Step>, polls: seq<Asked>, ready: int)
    requires WellFormed(tape) && InStep(tape, q) && Stands(tape, q, rest, ready) && InWait(polls, ready)
    requires polls != [] ==> Waiting(tape, q) && q.dueAtUs == ready
    ensures var (r, replies) := Replay(tape, q, polls);
            replies == Refusals(polls) && Stands(tape, r, rest, ready) && r.busyRefusals == q.busyRefusals + |polls|
  {
    if polls != [] {
      BusyUnderAnyPolling(tape, q, polls);
    }
  }

  function PollCount(turns: seq<Turn>): nat {
    if turns == [] then 0 else |turns[0].polls| + PollCount(turns[1..])
  }

  lemma {:induction false} TurnsAnswered(tape: seq<Step>, p: Player, rest: seq<Step>, turns: seq<Turn>, ready: int)
    requires WellFormed(tape) && Recording(rest) && Stands(tape, p, rest, ready) && Patient(rest, turns, ready)
    ensures InStep(tape, p)
    ensures var (end, replies) := Replay(tape, p, Script(rest, turns));
            && replies == Expected(rest, turns) && end.mismatches == 0
            && end.busyRefusals == p.busyRefusals + PollCount(turns)
    decreases |rest|
  {
    if turns != [] {
      var turn := turns[0];
      var first := [Asked(turn.at, Asks(rest[0]).request)];
      AfterRecorded(rest);
      AnsweredWhenReady(tape, p, rest, ready, turn.at);
      var q := Play(tape, p, first[0]).0;
      hide Play, Stands, Asks, Answers, Recording, Wait, After, InStep;
      PolledInWait(tape, q, After(rest), turn.polls, turn.at + Wait(rest));
      var r := Replay(tape, q, turn.polls).0;
      TurnsAnswered(tape, r, After(rest), turns[1..], turn.at + Wait(rest));
      var later := Script(After(rest), turns[1..]);
      ReplayAppend(tape, p, first + turn.polls, later);
      ReplayAppend(tape, p, first, turn.polls);
      ReplayOne(tape, p, first[0]);
    }
  }

  lemma ReplayOne(tape: seq<Step>, p: Player, a: Asked)
    requires WellFormed(tape) && InStep(tape, p)
    ensures Replay(tape, p, [a]) == (Play(tape, p, a).0, [Play(tape, p, a).1])
  {
    hide Play;
    var q := Play(tape, p, a).0;
    assert [a][1..] == [] && Replay(tape, q, []) == (q, []);
    assert [Play(tape, p, a).1] + [] == [Play(tape, p, a).1];
  }

  /** The folded tape under any timing: unless the recording starts with a refused run, an
      application that asks for the answered transfers in order, each at its own moment once
      the part is ready, gets every recorded answer, however often it polls in between and
      with whatever I2C requests, and each poll is refused. Nothing is counted. */
  lemma FoldedUnderAnyTiming(steps: seq<Step>, turns: seq<Turn>, start: int)
    requires Recording(steps) && Polls(steps) == 0 && Patient(steps, turns, start)
    ensures WellFormed(Folded(steps))
    ensures var (end, replies) := Replay(Folded(steps), RESET, Script(steps, turns));
            && replies == Expected(steps, turns) && end.mismatches == 0 && end.busyRefusals == PollCount(turns)
  {
    hide Replay, Script, Expected, Patient;
    FoldedWellFormed(steps, None);
    assert Folded(steps)[0..] == Folded(steps);
    assert OnStep(Folded(steps), RESET, steps);
    TurnsAnswered(Folded(steps), RESET, steps, turns, start);
  }
}
