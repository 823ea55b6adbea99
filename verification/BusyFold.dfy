/** Folding each run of refused polls into one busy step, and when the
    folded tape answers as the unfolded one does. */
module BusyFold {
  import opened Wrappers
  import opened Tape

  predicate IsPoll(s: Step) {
    s.kind == Read && s.refused && s.time.Some?
  }

  /** How many polls a tape starts with. */
  function Polls(steps: seq<Step>): (n: nat)
    ensures n <= |steps| && (forall i :: 0 <= i < n ==> IsPoll(steps[i])) && (n < |steps| ==> !IsPoll(steps[n]))
  {
    if steps != [] && IsPoll(steps[0]) then 1 + Polls(steps[1..]) else 0
  }

  function OrZero(t: Option<int>): int {
    if t.Some? then t.value else 0
  }

  /** The step a run becomes: busy until just past its last poll, counted from the step
      before it. */
  function BusyStep(run: seq<Step>, since: Option<int>): Step
    requires run != [] && run[|run| - 1].time.Some?
  {
    Step(Busy, 0, true, 0, 0, [], run[|run| - 1].time.value - OrZero(since) + 1, run[0].time, false)
  }

  function FoldFrom(steps: seq<Step>, since: Option<int>): seq<Step>
    decreases |steps|
  {
    if steps == [] then []
    else
      var n := Polls(steps);
      if n == 0 then [steps[0]] + FoldFrom(steps[1..], steps[0].time)
      else [BusyStep(steps[..n], since)] + FoldFrom(steps[n..], steps[0].time)
  }

  function Folded(steps: seq<Step>): seq<Step> {
    FoldFrom(steps, None)
  }

  /** The two index loops, appending to a list. */
  method FoldBusy(steps: seq<Step>) returns (out: seq<Step>)
    ensures out == Folded(steps)
  {
    hide FoldFrom, BusyStep;
    out := [];
    var i := 0;
    assert steps[0..] == steps;
    while i < |steps|
      invariant 0 <= i <= |steps|
      invariant out + FoldFrom(steps[i..], LastTime(out)) == Folded(steps)
    {
      var s := steps[i];
      ghost var was := out;
      if !IsPoll(s) {
        FoldOther(steps, i, LastTime(out));
        out := out + [s];
        i := i + 1;
        Tight(was, s, FoldFrom(steps[i..], s.time));
        continue;
      }
      var j := i;
      while j < |steps| && IsPoll(steps[j])
        invariant i <= j <= |steps|
        invariant forall k :: i <= k < j ==> IsPoll(steps[k])
      {
        j := j + 1;
      }
      FoldRun(steps, i, j, LastTime(out));
      var busy := BusyStep(steps[i..j], LastTime(out));
      out := out + [busy];
      i := j;
      Tight(was, busy, FoldFrom(steps[i..], busy.time));
    }
    assert steps[i..] == [];
    FoldNothing(LastTime(out));
  }

  lemma FoldNothing(since: Option<int>)
    ensures FoldFrom([], since) == []
  {
  }

  lemma Tight<T>(a: seq<T>, x: T, b: seq<T>)
    ensures a + ([x] + b) == (a + [x]) + b
  {
  }

  lemma FoldOther(steps: seq<Step>, i: nat, since: Option<int>)
    requires i < |steps| && !IsPoll(steps[i])
    ensures FoldFrom(steps[i..], since) == [steps[i]] + FoldFrom(steps[i + 1..], steps[i].time)
  {
    assert steps[i..][1..] == steps[i + 1..];
  }

  lemma FoldRun(steps: seq<Step>, i: nat, j: nat, since: Option<int>)
    requires i < j <= |steps| && IsPoll(steps[j - 1]) && (forall k :: i <= k < j ==> IsPoll(steps[k]))
    requires j < |steps| ==> !IsPoll(steps[j])
    ensures var busy := BusyStep(steps[i..j], since);
            FoldFrom(steps[i..], since) == [busy] + FoldFrom(steps[j..], busy.time)
  {
    PollsAre(steps[i..], j - i);
    assert steps[i..][..j - i] == steps[i..j] && steps[i..][j - i..] == steps[j..];
  }

  function LastTime(out: seq<Step>): Option<int> {
    if out == [] then None else out[|out| - 1].time
  }

  lemma {:induction false} PollsAre(steps: seq<Step>, n: nat)
    requires n <= |steps| && (forall i :: 0 <= i < n ==> IsPoll(steps[i])) && (n < |steps| ==> !IsPoll(steps[n]))
    ensures Polls(steps) == n
  {
    if n > 0 {
      PollsAre(steps[1..], n - 1);
    }
  }

  lemma SinceMatters(steps: seq<Step>, s1: Option<int>, s2: Option<int>)
    requires Polls(steps) == 0
    ensures FoldFrom(steps, s1) == FoldFrom(steps, s2)
  {
  }

  // --- A recording of I2C transfers ----------------------------------------

  /** One transfer to a step, all timed, no two at once; a refused read has no bytes and
      no read has more than was asked for. */
  predicate Recording(steps: seq<Step>) {
    && (forall i :: 0 <= i < |steps| ==> Recorded(steps[i]))
    && (forall i, j :: 0 <= i < j < |steps| ==> steps[i].time.value < steps[j].time.value)
  }

  predicate Recorded(s: Step) {
    && StepOk(s) && (s.kind == Write || s.kind == Read) && s.time.Some?
    && (s.kind == Read ==> s.length <= s.request)
    && (s.refused ==> s.kind == Read && s.data == [])
  }

  function Asks(s: Step): Asked
    requires Recorded(s)
  {
    Asked(s.time.value, if s.kind == Write then WriteOf(s.data, s.stop) else ReadOf(s.request, s.stop))
  }

  function Answers(s: Step): Reply {
    if s.kind == Write then Status(s.status) else Data(s.data)
  }

  function AskAll(steps: seq<Step>): (r: seq<Asked>)
    requires Recording(steps)
    ensures |r| == |steps|
  {
    seq(|steps|, i requires 0 <= i < |steps| => Asks(steps[i]))
  }

  function AnswerAll(steps: seq<Step>): (r: seq<Reply>)
    ensures |r| == |steps|
  {
    seq(|steps|, i requires 0 <= i < |steps| => Answers(steps[i]))
  }

  lemma AskTail(steps: seq<Step>)
    requires Recording(steps) && steps != []
    ensures AskAll(steps)[0] == Asks(steps[0]) && AskAll(steps)[1..] == AskAll(steps[1..])
    ensures AnswerAll(steps) == [Answers(steps[0])] + AnswerAll(steps[1..])
  {
  }

  lemma ItemsCons(i: Item, items: seq<Item>)
    ensures RequestsOf([i] + items) == [RequestOf(i)] + RequestsOf(items)
    ensures RepliesOf([i] + items) == [ReplyOf(i)] + RepliesOf(items)
    ensures (i.ReadItem? ==> |i.got| <= i.want) && Answerable(items) ==> Answerable([i] + items)
  {
    hide RequestOf, ReplyOf;
  }

  lemma RequestsCons(asked: seq<Asked>)
    requires asked != []
    ensures Requests(asked) == [asked[0].request] + Requests(asked[1..])
  {
  }

  lemma OneItem(s: Step)
    requires Recorded(s)
    ensures |ItemsOf(s)| == 1
    ensures var i := ItemsOf(s)[0];
            && RequestOf(i) == Asks(s).request && ReplyOf(i) == Answers(s) && (i.ReadItem? ==> |i.got| <= i.want)
  {
  }

  lemma {:induction false} RecordingMeans(steps: seq<Step>)
    requires Recording(steps)
    ensures Timeless(steps) && RequestsOf(Meaning(steps)) == Requests(AskAll(steps))
    ensures RepliesOf(Meaning(steps)) == AnswerAll(steps) && Answerable(Meaning(steps))
  {
    if steps != [] {
      var rest := steps[1..];
      RecordingMeans(rest);
      OneItem(steps[0]);
      assert steps == [steps[0]] + rest;
      MeaningCons(steps[0], rest);
      var i := ItemsOf(steps[0])[0];
      assert ItemsOf(steps[0]) == [i];
      ItemsCons(i, Meaning(rest));
      AskTail(steps);
      RequestsCons(AskAll(steps));
      hide Meaning, ItemsOf, RequestOf, ReplyOf, Asks, Answers, Recorded, RequestsOf, RepliesOf, Requests;
      hide AskAll, AnswerAll, Answerable, Timeless;
    }
  }

  /** The unfolded tape gives the recorded answers. */
  lemma UnfoldedAnswers(steps: seq<Step>)
    requires Recording(steps)
    ensures Timeless(steps) && Replay(steps, RESET, AskAll(steps)).1 == AnswerAll(steps)
    ensures Replay(steps, RESET, AskAll(steps)).0.mismatches == 0
  {
    RecordingMeans(steps);
    RestAtReset(steps);
    ReplaysFaithfully(steps, RESET, AskAll(steps));
  }

  lemma {:induction false} FoldedWellFormed(steps: seq<Step>, since: Option<int>)
    requires WellFormed(steps)
    ensures WellFormed(FoldFrom(steps, since))
    decreases |steps|
  {
    if steps != [] {
      var n := Polls(steps);
      FoldedWellFormed(if n == 0 then steps[1..] else steps[n..], steps[0].time);
    }
  }

  // --- The busy step -------------------------------------------------------

  predicate I2c(a: Asked) {
    !a.request.SpiOf?
  }

  function RefusalOf(a: Asked): Reply {
    if a.request.WriteOf? then Status(ADDRESS_NACK) else Data([])
  }

  /** Waiting at a busy step whose clock runs. */
  predicate Waiting(tape: seq<Step>, p: Player) {
    p.step < |tape| && tape[p.step].kind == Busy && p.armed && p.progress == 0
  }

  /** Under any polling, a busy step refuses every request before its time and does not
      move; the first request at or after it is answered as the next step would. */
  lemma {:induction false} BusyUnderAnyPolling(tape: seq<Step>, p: Player, polls: seq<Asked>)
    requires WellFormed(tape) && Waiting(tape, p)
    requires forall i :: 0 <= i < |polls| ==> I2c(polls[i]) && polls[i].now < p.dueAtUs
    ensures var (end, replies) := Replay(tape, p, polls);
            && end == p.(busyRefusals := p.busyRefusals + |polls|)
            && forall i :: 0 <= i < |polls| ==> replies[i] == RefusalOf(polls[i])
    decreases |polls|
  {
    if polls != [] {
      PollRefused(tape, p, polls[0]);
      BusyUnderAnyPolling(tape, p.(busyRefusals := p.busyRefusals + 1), polls[1..]);
    }
  }

  lemma PassedWhenDue(tape: seq<Step>, p: Player, a: Asked)
    requires WellFormed(tape) && Waiting(tape, p) && I2c(a) && a.now >= p.dueAtUs
    requires p.step + 1 < |tape| ==> tape[p.step + 1].kind != Busy
    ensures InStep(tape, Finished(tape, p, a.now)) && Play(tape, p, a) == Play(tape, Finished(tape, p, a.now), a)
  {
  }

  // --- Folded and unfolded -------------------------------------------------

  /** The player of a folded tape stands where `rest` of the recording is still to come:
      at a step of its own, or at the busy step of the run that `rest` starts in. */
  ghost predicate Tracks(tape: seq<Step>, p: Player, rest: seq<Step>) {
    && p.progress == 0 && p.mismatches == 0 && p.step <= |tape| && !p.exhaustedSaid
    && (OnStep(tape, p, rest) || InRun(tape, p, rest))
  }

  ghost predicate OnStep(tape: seq<Step>, p: Player, rest: seq<Step>) {
    p.step <= |tape| && !p.armed && Polls(rest) == 0 && tape[p.step..] == FoldFrom(rest, None)
  }

  ghost predicate InRun(tape: seq<Step>, p: Player, rest: seq<Step>) {
    && Waiting(tape, p) && tape[p.step + 1..] == FoldFrom(rest[Polls(rest)..], None)
    && (forall i :: 0 <= i < Polls(rest) ==> rest[i].time.value < p.dueAtUs)
    && (Polls(rest) < |rest| ==> rest[Polls(rest)].time.Some? && p.dueAtUs <= rest[Polls(rest)].time.value)
  }

  lemma TrackPoll(tape: seq<Step>, p: Player, rest: seq<Step>)
    requires WellFormed(tape) && Recording(rest) && Polls(rest) > 0 && InRun(tape, p, rest)
    ensures Play(tape, p, Asks(rest[0])) == (p.(busyRefusals := p.busyRefusals + 1), Answers(rest[0]))
    ensures InRun(tape, p.(busyRefusals := p.busyRefusals + 1), rest[1..])
  {
    RecordedPoll(rest[0]);
    hide Play, FoldFrom, Recording, Recorded, Asks, Answers;
    PollsTail(rest);
    PollRefused(tape, p, Asks(rest[0]));
    InRunTail(tape, p, rest);
  }

  lemma RecordedPoll(s: Step)
    requires Recorded(s) && IsPoll(s)
    ensures I2c(Asks(s)) && Asks(s).now == s.time.value && Answers(s) == RefusalOf(Asks(s))
  {
  }

  lemma InRunTail(tape: seq<Step>, p: Player, rest: seq<Step>)
    requires Polls(rest) > 0 && InRun(tape, p, rest)
    ensures InRun(tape, p.(busyRefusals := p.busyRefusals + 1), rest[1..])
  {
    hide FoldFrom, IsPoll;
    PollsTail(rest);
    hide Polls;
  }

  lemma PollsTail(rest: seq<Step>)
    requires Polls(rest) > 0
    ensures var n := Polls(rest);
            && Polls(rest[1..]) == n - 1 && rest[1..][n - 1..] == rest[n..]
            && (n < |rest| ==> rest[1..][n - 1] == rest[n])
            && forall i :: 0 <= i < n - 1 ==> rest[1..][i] == rest[i + 1]
  {
    PollsAre(rest[1..], Polls(rest) - 1);
  }

  lemma PollRefused(tape: seq<Step>, p: Player, a: Asked)
    requires WellFormed(tape) && Waiting(tape, p) && I2c(a) && a.now < p.dueAtUs
    ensures Play(tape, p, a) == (p.(busyRefusals := p.busyRefusals + 1), RefusalOf(a))
  {
  }

  /** Finishing the step before a run starts the run's clock at the recorded moment. */
  lemma TrackFinish(tape: seq<Step>, p: Player, rest: seq<Step>, now: int)
    requires WellFormed(tape) && Recording(rest) && rest != [] && now == rest[0].time.value
    requires OnStep(tape, p, rest) && p.mismatches == 0 && !p.exhaustedSaid
    ensures Tracks(tape, Finished(tape, p, now), rest[1..])
  {
    var q := Finished(tape, p, now);
    var next := rest[1..];
    assert tape[p.step] == tape[p.step..][0];
    assert tape[p.step..][1..] == tape[p.step + 1..];
    assert tape[p.step + 1..] == FoldFrom(next, rest[0].time);
    var n := Polls(next);
    if n == 0 {
      SinceMatters(next, rest[0].time, None);
      if next != [] {
        assert tape[p.step + 1] == tape[p.step + 1..][0] == next[0];
      }
      assert OnStep(tape, q, next);
    } else {
      assert tape[p.step + 1] == tape[p.step + 1..][0] == BusyStep(next[..n], rest[0].time);
      assert q.dueAtUs == next[n - 1].time.value + 1;
      SinceMatters(next[n..], next[0].time, None);
      assert tape[p.step + 1..][1..] == tape[p.step + 2..];
      assert InRun(tape, q, next);
    }
  }

  lemma TrackStep(tape: seq<Step>, p: Player, rest: seq<Step>)
    requires WellFormed(tape) && Recording(rest) && rest != [] && Tracks(tape, p, rest) && OnStep(tape, p, rest)
    ensures InStep(tape, p)
    ensures var (q, reply) := Play(tape, p, Asks(rest[0]));
            Tracks(tape, q, rest[1..]) && reply == Answers(rest[0])
  {
    assert tape[p.step] == tape[p.step..][0] == rest[0];
    TrackFinish(tape, p, rest, rest[0].time.value);
    var s := rest[0];
    assert s.data[..|s.data|] == s.data;
  }

  lemma TrackAny(tape: seq<Step>, p: Player, rest: seq<Step>)
    requires WellFormed(tape) && Recording(rest) && rest != [] && Tracks(tape, p, rest)
    ensures InStep(tape, p)
    ensures var (q, reply) := Play(tape, p, Asks(rest[0]));
            Tracks(tape, q, rest[1..]) && reply == Answers(rest[0])
  {
    hide Play;
    if OnStep(tape, p, rest) {
      TrackStep(tape, p, rest);
    } else if Polls(rest) > 0 {
      TrackPoll(tape, p, rest);
    } else {
      TrackDue(tape, p, rest);
      TrackStep(tape, Finished(tape, p, rest[0].time.value), rest);
    }
  }

  lemma TrackDue(tape: seq<Step>, p: Player, rest: seq<Step>)
    requires WellFormed(tape) && Recording(rest) && rest != [] && Tracks(tape, p, rest)
    requires InRun(tape, p, rest) && Polls(rest) == 0
    ensures var q := Finished(tape, p, rest[0].time.value);
            && Tracks(tape, q, rest) && OnStep(tape, q, rest)
            && Play(tape, p, Asks(rest[0])) == Play(tape, q, Asks(rest[0]))
  {
    var q := Finished(tape, p, rest[0].time.value);
    assert rest[0..] == rest;
    assert tape[p.step + 1] == tape[p.step + 1..][0] == rest[0];
    PassedWhenDue(tape, p, Asks(rest[0]));
  }

  lemma {:induction false} TrackAll(tape: seq<Step>, p: Player, rest: seq<Step>)
    requires WellFormed(tape) && Recording(rest) && Tracks(tape, p, rest)
    ensures InStep(tape, p)
    ensures var (end, replies) := Replay(tape, p, AskAll(rest));
            replies == AnswerAll(rest) && end.mismatches == 0
    decreases |rest|
  {
    if rest != [] {
      hide Play, Tracks, Asks, Answers, Recorded, AskAll, AnswerAll;
      AskTail(rest);
      TrackAny(tape, p, rest);
      TrackAll(tape, Play(tape, p, Asks(rest[0])).0, rest[1..]);
    } else {
      assert AnswerAll(rest) == [];
    }
  }

  /** Folding preserves meaning: unless the recording starts with a refused run, the
      folded and the unfolded tape give the same answers at the recorded times, neither
      counting a mismatch. */
  lemma FoldingPreservesAnswers(steps: seq<Step>)
    requires Recording(steps) && Polls(steps) == 0
    ensures WellFormed(Folded(steps)) && WellFormed(steps)
    ensures Replay(Folded(steps), RESET, AskAll(steps)).1 == Replay(steps, RESET, AskAll(steps)).1 == AnswerAll(steps)
    ensures Replay(Folded(steps), RESET, AskAll(steps)).0.mismatches == 0
  {
    hide Replay;
    UnfoldedAnswers(steps);
    FoldedWellFormed(steps, None);
    assert Folded(steps)[0..] == Folded(steps);
    assert OnStep(Folded(steps), RESET, steps);
    TrackAll(Folded(steps), RESET, steps);
  }

  /** A refused run at the very start counts from the moment `armedAt` the tape first ran
      (its first advance or request), not from the recording's time zero, so it ends
      `armedAt` too late. If the request after the run came at least that much after the
      last poll, the folded tape gives every recorded answer; if it did not, that request
      is refused like a poll and the tape has still not moved. */
  lemma {:induction false} FirstRunEndsLate(steps: seq<Step>, armedAt: int)
    requires Recording(steps) && 0 < Polls(steps) < |steps| && 0 <= armedAt
    ensures WellFormed(Folded(steps)) && InStep(Folded(steps), Armed(Folded(steps), RESET, armedAt))
    ensures var n, tape := Polls(steps), Folded(steps);
            var p, due := Armed(tape, RESET, armedAt), armedAt + steps[n - 1].time.value + 1;
            && (due <= steps[n].time.value ==>
                  Replay(tape, p, AskAll(steps)).1 == AnswerAll(steps)
                  && Replay(tape, p, AskAll(steps)).0.mismatches == 0)
            && (steps[n].time.value < due ==>
                  Replay(tape, p, AskAll(steps)).1[n] == RefusalOf(Asks(steps[n]))
                  && Replay(tape, p, AskAll(steps)[..n + 1]).0 == p.(busyRefusals := p.busyRefusals + n + 1))
  {
    hide Replay, Folded, Armed, WellFormed, InStep, Tracks, Waiting, InRun, OnStep;
    FirstRunTracks(steps, armedAt);
    var p := Armed(Folded(steps), RESET, armedAt);
    if p.dueAtUs <= steps[Polls(steps)].time.value {
      TrackAll(Folded(steps), p, steps);
    } else {
      StillBusy(Folded(steps), p, steps, Polls(steps));
    }
  }

  /** So, unless that request was refused in the recording too, the folded tape gives the
      recorded answers exactly when it came late enough. */
  lemma {:induction false} FirstRunExactly(steps: seq<Step>, armedAt: int)
    requires Recording(steps) && 0 < Polls(steps) < |steps| && 0 <= armedAt
    requires Answers(steps[Polls(steps)]) != RefusalOf(Asks(steps[Polls(steps)]))
    ensures WellFormed(Folded(steps)) && InStep(Folded(steps), Armed(Folded(steps), RESET, armedAt))
    ensures Replay(Folded(steps), Armed(Folded(steps), RESET, armedAt), AskAll(steps)).1 == AnswerAll(steps)
            <==> armedAt + steps[Polls(steps) - 1].time.value + 1 <= steps[Polls(steps)].time.value
  {
    hide Replay, Folded, Armed, WellFormed, InStep;
    FirstRunEndsLate(steps, armedAt);
    assert AnswerAll(steps)[Polls(steps)] == Answers(steps[Polls(steps)]);
  }

  lemma {:induction false} FirstRunTracks(steps: seq<Step>, armedAt: int)
    requires Recording(steps) && 0 < Polls(steps) < |steps| && 0 <= armedAt
    ensures var p := Armed(Folded(steps), RESET, armedAt);
            && WellFormed(Folded(steps)) && InStep(Folded(steps), p)
            && p.dueAtUs == armedAt + steps[Polls(steps) - 1].time.value + 1 && Waiting(Folded(steps), p)
            && (p.dueAtUs <= steps[Polls(steps)].time.value ==> Tracks(Folded(steps), p, steps))
  {
    hide FoldFrom, InRun;
    RecordingWellFormed(steps);
    FoldedWellFormed(steps, None);
    FirstRunStarts(steps, armedAt);
  }

  lemma RecordingWellFormed(steps: seq<Step>)
    requires Recording(steps)
    ensures WellFormed(steps)
  {
  }

  lemma FirstRunStarts(steps: seq<Step>, armedAt: int)
    requires Recording(steps) && 0 < Polls(steps) < |steps| && 0 <= armedAt
    ensures var p := Armed(Folded(steps), RESET, armedAt);
            && p.dueAtUs == armedAt + steps[Polls(steps) - 1].time.value + 1 && Waiting(Folded(steps), p)
            && (p.dueAtUs <= steps[Polls(steps)].time.value ==> InRun(Folded(steps), p, steps))
  {
    var n := Polls(steps);
    var tape := Folded(steps);
    assert tape[0] == BusyStep(steps[..n], None);
    SinceMatters(steps[n..], steps[0].time, None);
    assert tape[1..] == FoldFrom(steps[n..], None);
    hide FoldFrom;
    assert forall i :: 0 <= i < n ==> steps[i].time.value <= steps[n - 1].time.value;
  }

  lemma StillBusy(tape: seq<Step>, p: Player, steps: seq<Step>, n: nat)
    requires WellFormed(tape) && Waiting(tape, p) && Recording(steps) && n < |steps|
    requires steps[n].time.value < p.dueAtUs
    ensures Replay(tape, p, AskAll(steps)).1[n] == RefusalOf(Asks(steps[n]))
    ensures Replay(tape, p, AskAll(steps)[..n + 1]).0 == p.(busyRefusals := p.busyRefusals + n + 1)
  {
    var asked := AskAll(steps);
    BusyUnderAnyPolling(tape, p, asked[..n + 1]);
    ReplayPrefix(tape, p, asked, n + 1);
    assert asked[..n + 1][n] == Asks(steps[n]);
  }

  lemma {:induction false} ReplayPrefix(tape: seq<Step>, p: Player, asked: seq<Asked>, k: nat)
    requires WellFormed(tape) && InStep(tape, p) && k <= |asked|
    ensures Replay(tape, p, asked[..k]).1 == Replay(tape, p, asked).1[..k]
    decreases |asked|
  {
    if k > 0 {
      hide Play;
      assert asked[..k][1..] == asked[1..][..k - 1];
      ReplayPrefix(tape, Play(tape, p, asked[0]).0, asked[1..], k - 1);
    }
  }
}
