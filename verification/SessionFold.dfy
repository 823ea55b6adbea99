/** From a timed I2C session to a folded tape: what the compiler and the folding make of
    it together. */
module SessionFold {
  import opened Wrappers
  import opened Pairing
  import opened Tape
  import opened TapeBuild
  import opened BusyFold

  /** The steps of the kept I2C exchanges, one each. */
  function StepsOf(session: seq<Exchange>, keep: Keep): seq<Step>
    requires Session(session)
  {
    if session == [] then []
    else (if Keeps(keep, XferOf(session[0])) then [StepFor(session[0])] else []) + StepsOf(session[1..], keep)
  }

  function StepFor(x: Exchange): Step
    requires Logged(x) && !x.request.body.SpiReq?
  {
    I2cStep(XferOf(x).value, x.request.time)
  }

  lemma {:induction false} QuietNoise(b: Builder, noise: seq<Event>, keep: Keep)
    requires b.run.None? && b.request.None? && Noise(noise)
    ensures BuildFrom(b, noise, Blank(|noise|), keep) == b
    decreases |noise|
  {
    if noise != [] {
      assert Blank(|noise|)[1..] == Blank(|noise| - 1);
      QuietNoise(b, noise[1..], keep);
    }
  }

  lemma QuietExchange(b: Builder, x: Exchange, keep: Keep)
    requires b.run.None? && b.request.None? && Logged(x) && !keep.spi
    ensures BuildFrom(b, Lines(x), CellsOf(x), keep)
            == if Keeps(keep, XferOf(x)) then b.(steps := b.steps + [StepFor(x)]) else b
  {
    BuildLines(b, x, keep);
    QuietNoise(b, x.before, keep);
    var b2 := BuildStep(b, x.request, XferOf(x), keep);
    QuietNoise(b2, x.during, keep);
    hide BuildFrom, Lines, CellsOf, Noise;
  }

  lemma {:induction false} QuietSession(b: Builder, session: seq<Exchange>, keep: Keep)
    requires b.run.None? && b.request.None? && Session(session) && !keep.spi
    ensures BuildFrom(b, Log(session), SessionCells(session), keep) == b.(steps := b.steps + StepsOf(session, keep))
    decreases |session|
  {
    if session == [] {
      assert b.steps + [] == b.steps;
    } else {
      hide BuildStep, CellsOf, Lines, Logged, Keeps, StepFor;
      var x := session[0];
      BuildAppend(b, Lines(x), CellsOf(x), Log(session[1..]), SessionCells(session[1..]), keep);
      QuietExchange(b, x, keep);
      var r := BuildFrom(b, Lines(x), CellsOf(x), keep);
      hide BuildFrom;
      QuietSession(r, session[1..], keep);
      Regroup(b.steps, if Keeps(keep, XferOf(x)) then [StepFor(x)] else [], StepsOf(session[1..], keep));
      assert b.steps + [] == b.steps;
    }
  }

  /** A tape without SPI has one step for each exchange kept, made of it alone. */
  lemma TapeOfSession(session: seq<Exchange>, keep: Keep)
    requires Session(session) && !keep.spi
    ensures Build(Log(session), keep) == StepsOf(session, keep)
  {
    hide BuildFrom, StepsOf, SessionCells, Log, Paired;
    EveryRequestGetsItsAnswer(session);
    QuietSession(EMPTY_TAPE, session, keep);
    assert [] + StepsOf(session, keep) == StepsOf(session, keep);
  }

  /** Whether an exchange is a poll the part refused. */
  predicate RefusedPoll(x: Exchange) {
    x.response.body.RdResp? && x.response.body.rdStatus == Some(ADDRESS_NACK)
  }

  /** Every exchange is timed and later than those before it, and a read refused at the
      address brought nothing. */
  predicate Timed(session: seq<Exchange>) {
    && (forall i :: 0 <= i < |session| ==> session[i].request.time.Some?)
    && (forall i, j :: 0 <= i < j < |session| ==> session[i].request.time.value < session[j].request.time.value)
    && (forall i :: 0 <= i < |session| && RefusedPoll(session[i]) ==> session[i].response.body.data == [])
  }

  predicate NoneBefore(steps: seq<Step>, time: int) {
    forall k :: 0 <= k < |steps| ==> steps[k].time.Some? && time <= steps[k].time.value
  }

  lemma {:induction false} TapeIsRecording(session: seq<Exchange>, keep: Keep)
    requires Session(session) && Bounded(session) && Timed(session)
    ensures Recording(StepsOf(session, keep))
    ensures session != [] ==> NoneBefore(StepsOf(session, keep), session[0].request.time.value)
    decreases |session|
  {
    if session != [] {
      var x, rest := session[0], session[1..];
      HeadAndTail(session);
      hide Recorded, Logged, StepFor, Keeps, Session, Bounded, Timed, Recording;
      TapeIsRecording(rest, keep);
      assert rest == [] ==> StepsOf(rest, keep) == [];
      var steps := StepsOf(rest, keep);
      hide StepsOf;
      NoneBeforeEarlier(steps, x.request.time.value, if rest == [] then 0 else rest[0].request.time.value);
      if Keeps(keep, XferOf(x)) {
        KeptIsI2c(x, keep);
        StepIsRecorded(x);
        RecordingCons(StepFor(x), steps);
        StepsKept(session, keep);
      } else {
        StepsSkipped(session, keep);
      }
    }
  }

  lemma HeadAndTail(session: seq<Exchange>)
    requires Session(session) && Bounded(session) && Timed(session) && session != []
    ensures Session(session[1..]) && Bounded(session[1..]) && Timed(session[1..])
    ensures var x := session[0];
            && Logged(x) && x.request.time.Some? && (RefusedPoll(x) ==> x.response.body.data == [])
            && (x.request.body.RdReq? && x.response.body.RdResp? ==> |x.response.body.data| <= x.request.body.want)
            && (session[1..] != [] ==> session[1..][0].request.time.Some?
                                       && x.request.time.value < session[1..][0].request.time.value)
  {
    hide Logged;
  }

  lemma StepsKept(session: seq<Exchange>, keep: Keep)
    requires Session(session) && session != [] && Keeps(keep, XferOf(session[0]))
    ensures StepsOf(session, keep) == [StepFor(session[0])] + StepsOf(session[1..], keep)
  {
  }

  lemma StepsSkipped(session: seq<Exchange>, keep: Keep)
    requires Session(session) && session != [] && !Keeps(keep, XferOf(session[0]))
    ensures StepsOf(session, keep) == StepsOf(session[1..], keep)
  {
    assert [] + StepsOf(session[1..], keep) == StepsOf(session[1..], keep);
  }

  lemma KeptIsI2c(x: Exchange, keep: Keep)
    requires Logged(x) && Keeps(keep, XferOf(x))
    ensures !x.request.body.SpiReq?
  {
  }

  lemma NoneBeforeEarlier(steps: seq<Step>, early: int, late: int)
    requires (early < late && NoneBefore(steps, late)) || steps == []
    ensures forall k :: 0 <= k < |steps| ==> steps[k].time.Some? && early < steps[k].time.value
  {
  }

  lemma StepIsRecorded(x: Exchange)
    requires Logged(x) && !x.request.body.SpiReq? && x.request.time.Some?
    requires x.request.body.RdReq? && x.response.body.RdResp? ==> |x.response.body.data| <= x.request.body.want
    requires RefusedPoll(x) ==> x.response.body.data == []
    ensures Recorded(StepFor(x)) && StepFor(x).time == x.request.time && (IsPoll(StepFor(x)) <==> RefusedPoll(x))
  {
  }

  lemma RecordingCons(s: Step, rest: seq<Step>)
    requires Recorded(s) && Recording(rest) && s.time.Some?
    requires forall k :: 0 <= k < |rest| ==> rest[k].time.Some? && s.time.value < rest[k].time.value
    ensures Recording([s] + rest)
  {
    hide Recorded;
  }

  /** The first exchange kept. */
  function FirstKept(session: seq<Exchange>, keep: Keep): Option<Exchange>
    requires Session(session)
  {
    if session == [] then None
    else if Keeps(keep, XferOf(session[0])) then Some(session[0])
    else FirstKept(session[1..], keep)
  }

  lemma {:induction false} FirstStep(session: seq<Exchange>, keep: Keep)
    requires Session(session) && Bounded(session) && Timed(session)
    ensures var first := FirstKept(session, keep);
            && (first.None? ==> StepsOf(session, keep) == [])
            && (first.Some? ==>
                  StepsOf(session, keep) != [] && (IsPoll(StepsOf(session, keep)[0]) <==> RefusedPoll(first.value)))
    decreases |session|
  {
    if session != [] {
      if Keeps(keep, XferOf(session[0])) {
        StepIsRecorded(session[0]);
      } else {
        FirstStep(session[1..], keep);
      }
    }
  }

  /** Record, compile, fold, replay: of a timed I2C session whose first kept exchange was
      not a refused poll, the folded tape gives at the recorded times every answer the
      part gave, the refusals included, and counts nothing. */
  lemma FoldedSessionReplays(session: seq<Exchange>, address: Option<nat>)
    requires Session(session) && Bounded(session) && Timed(session)
    requires var first := FirstKept(session, Keep(true, address, false)); first.Some? ==> !RefusedPoll(first.value)
    ensures var keep := Keep(true, address, false);
            var steps := Build(Log(session), keep);
            && Recording(steps) && WellFormed(Folded(steps))
            && Requests(AskAll(steps)) == RequestsOf(Items(session, keep))
            && Replay(Folded(steps), RESET, AskAll(steps)).1 == RepliesOf(Items(session, keep))
            && Replay(Folded(steps), RESET, AskAll(steps)).0.mismatches == 0
  {
    var keep := Keep(true, address, false);
    hide Build, StepsOf, Items, Replay, Folded, Meaning, Recording, FirstKept, RefusedPoll, Timed, Session, Bounded;
    TapeOfSession(session, keep);
    TapeIsRecording(session, keep);
    FirstStep(session, keep);
    TapeMeansSession(session, keep);
    var steps := Build(Log(session), keep);
    RecordingMeans(steps);
    FoldingPreservesAnswers(steps);
  }
}
