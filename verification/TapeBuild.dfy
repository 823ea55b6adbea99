/** Compiling a log into a tape, and what the tape then means: the exchanges of the
    session that were kept, in order, with consecutive SPI bytes merged into steps. */
module TapeBuild {
  import opened Wrappers
  import opened Pairing
  import opened Tape

  /** Which exchanges the tape is for. */
  datatype Keep = Keep(i2c: bool, address: Option<nat>, spi: bool)

  /** A run of single SPI bytes being merged. */
  datatype SpiRun = SpiRun(mosi: seq<bv8>, miso: seq<bv8>, time: Option<int>)

  datatype Builder = Builder(steps: seq<Step>, run: Option<SpiRun>, request: Option<Event>, skipped: seq<Event>)

  const EMPTY_TAPE := Builder([], None, None, [])

  function SpiStep(mosi: seq<bv8>, miso: seq<bv8>, time: Option<int>): Step {
    Step(Spi, 0, true, |mosi|, 0, mosi + miso, 0, time, false)
  }

  function Flushed(b: Builder): Builder {
    if b.run.None? then b
    else b.(steps := b.steps + [SpiStep(b.run.value.mosi, b.run.value.miso, b.run.value.time)], run := None)
  }

  /** An I2C transfer that goes on the tape. */
  predicate Keeps(keep: Keep, cell: Option<Xfer>) {
    keep.i2c && cell.Some? && cell.value.answered && (keep.address.None? || cell.value.addr == keep.address)
  }

  function I2cStep(x: Xfer, time: Option<int>): Step {
    if x.write then
      Step(Write, if x.status.Some? then x.status.value else 0, x.stop, |x.sent|, 0, x.sent, 0, time, false)
    else Step(Read, 0, x.stop, |x.got|, x.want, x.got, 0, time, x.status == Some(ADDRESS_NACK))
  }

  /** A response byte with its waiting request joins the run. */
  function Joined(b: Builder, e: Event): Builder
    requires b.request.Some? && b.request.value.body.SpiReq? && e.body.SpiResp?
  {
    var run := if b.run.Some? then b.run.value else SpiRun([], [], b.request.value.time);
    b.(run := Some(SpiRun(run.mosi + b.request.value.body.mosi, run.miso + e.body.miso, run.time)), request := None)
  }

  /** One SPI line. A response nobody asked for is left out like a checksum. */
  function BuildSpi(b: Builder, e: Event): Builder
    requires b.request.Some? ==> b.request.value.body.SpiReq?
  {
    if e.body.SpiReq? then b.(request := Some(e))
    else if e.body.SpiResp? && b.request.Some? then Joined(b, e)
    else
      var f := Flushed(b);
      if e.body.SpiXfer? && |e.body.mosi| == |e.body.miso| && e.body.mosi != []
      then f.(steps := f.steps + [SpiStep(e.body.mosi, e.body.miso, e.time)])
      else f.(skipped := f.skipped + [e])
  }

  predicate IsSpi(e: Event) {
    e.body.SpiReq? || e.body.SpiResp? || e.body.SpiXfer? || e.body.SpiBulk?
  }

  /** One line of the log. A run of SPI bytes stays open over SPI and diagnostic lines and
      is closed by every other. */
  function BuildStep(b: Builder, e: Event, cell: Option<Xfer>, keep: Keep): (r: Builder)
    requires b.request.Some? ==> b.request.value.body.SpiReq?
    ensures r.request.Some? ==> r.request.value.body.SpiReq?
  {
    if IsSpi(e) then (if keep.spi then BuildSpi(b, e) else b)
    else if e.body.Diag? then b
    else
      var f := Flushed(b);
      if Keeps(keep, cell) then f.(steps := f.steps + [I2cStep(cell.value, e.time)]) else f
  }

  function BuildFrom(b: Builder, events: seq<Event>, cells: seq<Option<Xfer>>, keep: Keep): (r: Builder)
    requires |events| == |cells|
    requires b.request.Some? ==> b.request.value.body.SpiReq?
    ensures r.request.Some? ==> r.request.value.body.SpiReq?
    decreases |events|
  {
    if events == [] then b else BuildFrom(BuildStep(b, events[0], cells[0], keep), events[1..], cells[1..], keep)
  }

  /** The tape of a log. */
  function Build(events: seq<Event>, keep: Keep): seq<Step> {
    Flushed(BuildFrom(EMPTY_TAPE, events, Paired(events), keep)).steps
  }

  /** The lines named as left out of it. */
  function Skipped(events: seq<Event>, keep: Keep): seq<Event> {
    Flushed(BuildFrom(EMPTY_TAPE, events, Paired(events), keep)).skipped
  }

  lemma {:induction false} BuildAppend(b: Builder, e1: seq<Event>, c1: seq<Option<Xfer>>,
                                        e2: seq<Event>, c2: seq<Option<Xfer>>, keep: Keep)
    requires |e1| == |c1| && |e2| == |c2|
    requires b.request.Some? ==> b.request.value.body.SpiReq?
    ensures BuildFrom(b, e1 + e2, c1 + c2, keep) == BuildFrom(BuildFrom(b, e1, c1, keep), e2, c2, keep)
    decreases |e1|
  {
    if e1 == [] {
      assert e1 + e2 == e2 && c1 + c2 == c2;
    } else {
      hide BuildStep;
      assert (e1 + e2)[1..] == e1[1..] + e2 && (c1 + c2)[1..] == c1[1..] + c2;
      BuildAppend(BuildStep(b, e1[0], c1[0], keep), e1[1..], c1[1..], e2, c2, keep);
    }
  }

  /** The transfers kept, by the line of the request. */
  ghost predicate ByIndex(byIndex: map<nat, Xfer>, cells: seq<Option<Xfer>>, keep: Keep) {
    && (forall i :: i in byIndex <==> 0 <= i < |cells| && Keeps(keep, cells[i]))
    && (forall i :: i in byIndex ==> byIndex[i] == cells[i].value)
  }

  method IndexTransfers(found: seq<Placed>, keep: Keep, ghost cells: seq<Option<Xfer>>)
    returns (byIndex: map<nat, Xfer>)
    requires Listed(found, cells)
    ensures ByIndex(byIndex, cells, keep)
  {
    byIndex := map[];
    for k := 0 to |found|
      invariant forall i :: i in byIndex ==> 0 <= i < |cells| && Keeps(keep, cells[i]) && byIndex[i] == cells[i].value
      invariant forall j :: 0 <= j < k && Keeps(keep, Some(found[j].xfer)) ==> found[j].index in byIndex
    {
      var p := found[k];
      assert p in found;
      if keep.i2c && (keep.address.None? || p.xfer.addr == keep.address) {
        byIndex := byIndex[p.index := p.xfer];
      }
    }
    forall i | 0 <= i < |cells| && Keeps(keep, cells[i])
      ensures i in byIndex
    {
      assert Placed(i, cells[i].value) in found;
    }
  }

  /** One SPI line, in the order of the branches that flush the run. */
  method SpiLine(b: Builder, e: Event) returns (r: Builder)
    requires IsSpi(e) && (b.request.Some? ==> b.request.value.body.SpiReq?)
    ensures r == BuildSpi(b, e)
  {
    r := b;
    if e.body.SpiReq? {
      r := r.(request := Some(e));
    } else if e.body.SpiResp? && r.request.Some? {
      var mosi := r.request.value.body.mosi;
      if r.run.None? {
        r := r.(run := Some(SpiRun([], [], r.request.value.time)));
      }
      r := r.(run := Some(SpiRun(r.run.value.mosi + mosi, r.run.value.miso + e.body.miso, r.run.value.time)),
              request := None);
    } else if e.body.SpiXfer? {
      r := Flushed(r);
      if |e.body.mosi| != |e.body.miso| || e.body.mosi == [] {
        r := r.(skipped := r.skipped + [e]);
        return;
      }
      r := r.(steps := r.steps + [SpiStep(e.body.mosi, e.body.miso, e.time)]);
    } else {
      r := Flushed(r);
      r := r.(skipped := r.skipped + [e]);
    }
  }

  /** The compiling loop over the lines of a log. */
  method BuildTape(events: seq<Event>, keep: Keep) returns (steps: seq<Step>, skipped: seq<Event>)
    ensures steps == Build(events, keep)
    ensures skipped == Skipped(events, keep)
  {
    var found := PairTransfers(events);
    ghost var cells := Paired(events);
    var byIndex := IndexTransfers(found, keep, cells);
    var b := EMPTY_TAPE;
    assert events[0..] == events && cells[0..] == cells;
    hide Paired;
    for n := 0 to |events|
      invariant b.request.Some? ==> b.request.value.body.SpiReq?
      invariant BuildFrom(b, events[n..], cells[n..], keep) == BuildFrom(EMPTY_TAPE, events, cells, keep)
    {
      var e := events[n];
      ghost var was := b;
      assert events[n..][1..] == events[n + 1..] && cells[n..][1..] == cells[n + 1..];
      if IsSpi(e) {
        if keep.spi {
          b := SpiLine(b, e);
        }
      } else if !e.body.Diag? {
        b := Flushed(b);
        if n in byIndex {
          b := b.(steps := b.steps + [I2cStep(byIndex[n], e.time)]);
        }
      }
      assert b == BuildStep(was, e, cells[n], keep) by {
        hide BuildFrom;
      }
      hide BuildStep;
    }
    b := Flushed(b);
    return b.steps, b.skipped;
  }

  // --- What a session's tape means -----------------------------------------

  /** The exchange as the application saw it. */
  function ItemOf(x: Exchange): Item
    requires Logged(x)
  {
    match x.request.body
    case I2cReq(_, sent, stop) =>
      WriteItem(sent, stop, if x.response.body.status.Some? then x.response.body.status.value else 255)
    case RdReq(_, want, stop) => ReadItem(want, stop, x.response.body.data)
    case SpiReq(mosi) => SpiItem(mosi[0], x.response.body.miso[0])
  }

  predicate Kept(keep: Keep, x: Exchange)
    requires Logged(x)
  {
    if x.request.body.SpiReq? then keep.spi
    else keep.i2c && (keep.address.None? || x.request.body.addr == keep.address)
  }

  function Items(session: seq<Exchange>, keep: Keep): seq<Item>
    requires Session(session)
  {
    if session == [] then []
    else (if Kept(keep, session[0]) then [ItemOf(session[0])] else []) + Items(session[1..], keep)
  }

  ghost predicate Sane(b: Builder) {
    && Timeless(b.steps)
    && (b.request.Some? ==> b.request.value.body.SpiReq? && |b.request.value.body.mosi| == 1)
    && (b.run.Some? ==> |b.run.value.mosi| == |b.run.value.miso| >= 1)
  }

  lemma FlushedTimeless(b: Builder)
    requires Sane(b)
    ensures Timeless(Flushed(b).steps) && Sane(Flushed(b))
  {
  }

  /** The meaning of what has been built, a run in progress included. */
  ghost function MeaningOf(b: Builder): seq<Item>
    requires Sane(b)
  {
    FlushedTimeless(b);
    Meaning(Flushed(b).steps)
  }

  lemma AddStep(b: Builder, s: Step)
    requires Sane(b) && StepOk(s) && Exchanged(s)
    ensures var f := Flushed(b);
            var g := f.(steps := f.steps + [s]);
            Sane(f) && Sane(g) && MeaningOf(f) == MeaningOf(b) && MeaningOf(g) == MeaningOf(b) + ItemsOf(s)
  {
    FlushedTimeless(b);
    MeaningAppend(Flushed(b).steps, [s]);
    assert Meaning([s]) == ItemsOf(s) + Meaning([]);
  }

  lemma FlushKeeps(b: Builder)
    requires Sane(b)
    ensures Sane(Flushed(b)) && MeaningOf(Flushed(b)) == MeaningOf(b) && Flushed(b).request == b.request
  {
    FlushedTimeless(b);
  }

  lemma {:induction false} BuildNoise(b: Builder, noise: seq<Event>, keep: Keep)
    requires Sane(b) && Noise(noise)
    ensures var r := BuildFrom(b, noise, Blank(|noise|), keep);
            Sane(r) && r.request == b.request && MeaningOf(r) == MeaningOf(b)
    decreases |noise|
  {
    if noise != [] {
      FlushKeeps(b);
      assert Blank(|noise|)[1..] == Blank(|noise| - 1);
      BuildNoise(BuildStep(b, noise[0], None, keep), noise[1..], keep);
    }
  }

  lemma WithRun(b: Builder)
    requires Sane(b) && b.run.Some?
    ensures var s := SpiStep(b.run.value.mosi, b.run.value.miso, b.run.value.time);
            StepOk(s) && MeaningOf(b) == Meaning(b.steps) + ItemsOf(s)
  {
    var s := SpiStep(b.run.value.mosi, b.run.value.miso, b.run.value.time);
    FlushedTimeless(b);
    MeaningAppend(b.steps, [s]);
    assert Meaning([s]) == ItemsOf(s) + Meaning([]);
  }

  /** A byte joining a run adds one exchange at the end. */
  lemma JoinedMeans(b: Builder, e: Event)
    requires Sane(b) && b.request.Some? && e.body.SpiResp? && |e.body.miso| == 1
    ensures var r := Joined(b, e);
            Sane(r) && r.request.None?
            && MeaningOf(r) == MeaningOf(b) + [SpiItem(b.request.value.body.mosi[0], e.body.miso[0])]
  {
    hide MeaningOf, Meaning, ItemsOf;
    var r := Joined(b, e);
    var x, y := b.request.value.body.mosi[0], e.body.miso[0];
    assert b.request.value.body.mosi == [x] && e.body.miso == [y];
    WithRun(r);
    if b.run.Some? {
      WithRun(b);
      LongerRun(b.run.value, x, y);
      Regroup(Meaning(b.steps), ItemsOf(SpiStep(b.run.value.mosi, b.run.value.miso, b.run.value.time)),
              [SpiItem(x, y)]);
    } else {
      WithoutRun(b);
      assert r.run.value.mosi == [x] && r.run.value.miso == [y];
      OneByteStep(x, y, r.run.value.time);
    }
  }

  lemma WithoutRun(b: Builder)
    requires Sane(b) && b.run.None?
    ensures MeaningOf(b) == Meaning(b.steps)
  {
  }

  lemma OneByteStep(x: bv8, y: bv8, time: Option<int>)
    ensures ItemsOf(SpiStep([x], [y], time)) == [SpiItem(x, y)]
  {
  }

  lemma LongerRun(run: SpiRun, x: bv8, y: bv8)
    requires |run.mosi| == |run.miso| >= 1
    ensures ItemsOf(SpiStep(run.mosi + [x], run.miso + [y], run.time))
            == ItemsOf(SpiStep(run.mosi, run.miso, run.time)) + [SpiItem(x, y)]
  {
  }

  /** The lines of an exchange, one after the other. */
  lemma BuildLines(b: Builder, x: Exchange, keep: Keep)
    requires Logged(x)
    requires b.request.Some? ==> b.request.value.body.SpiReq?
    ensures var b1 := BuildFrom(b, x.before, Blank(|x.before|), keep);
            var b2 := BuildStep(b1, x.request, XferOf(x), keep);
            var b3 := BuildFrom(b2, x.during, Blank(|x.during|), keep);
            BuildFrom(b, Lines(x), CellsOf(x), keep) == BuildStep(b3, x.response, None, keep)
  {
    hide BuildStep, XferOf;
    var b1 := BuildFrom(b, x.before, Blank(|x.before|), keep);
    BuildOne(b1, x.request, XferOf(x), keep);
    BuildAppend(b, x.before, Blank(|x.before|), [x.request], [XferOf(x)], keep);
    BuildAppend(b, x.before + [x.request], Blank(|x.before|) + [XferOf(x)], x.during, Blank(|x.during|), keep);
    BuildAppend(b, x.before + [x.request] + x.during, Blank(|x.before|) + [XferOf(x)] + Blank(|x.during|),
                [x.response], [None], keep);
    BuildOne(BuildFrom(b, x.before + [x.request] + x.during, Blank(|x.before|) + [XferOf(x)] + Blank(|x.during|), keep),
             x.response, None, keep);
  }

  lemma BuildOne(b: Builder, e: Event, cell: Option<Xfer>, keep: Keep)
    requires b.request.Some? ==> b.request.value.body.SpiReq?
    ensures BuildFrom(b, [e], [cell], keep) == BuildStep(b, e, cell, keep)
  {
  }

  lemma BuildI2c(b: Builder, x: Exchange, keep: Keep)
    requires Sane(b) && Logged(x) && !x.request.body.SpiReq?
    ensures var r := BuildStep(b, x.request, XferOf(x), keep);
            Sane(r) && r.request == b.request
            && MeaningOf(r) == MeaningOf(b) + (if Kept(keep, x) then [ItemOf(x)] else [])
  {
    hide Meaning;
    FlushKeeps(b);
    var xfer := XferOf(x).value;
    assert Keeps(keep, XferOf(x)) == Kept(keep, x);
    if Kept(keep, x) {
      var s := I2cStep(xfer, x.request.time);
      AddStep(b, s);
      ItemsByKind(s);
    }
  }

  lemma BuildExchange(b: Builder, x: Exchange, keep: Keep)
    requires Sane(b) && b.request.None? && Logged(x)
    ensures var r := BuildFrom(b, Lines(x), CellsOf(x), keep);
            Sane(r) && r.request.None?
            && MeaningOf(r) == MeaningOf(b) + (if Kept(keep, x) then [ItemOf(x)] else [])
  {
    hide BuildFrom, Meaning, MeaningOf, Flushed, Lines, CellsOf, Noise, Kept, ItemOf, BuildStep, Sane;
    BuildLines(b, x, keep);
    BuildNoise(b, x.before, keep);
    var b1 := BuildFrom(b, x.before, Blank(|x.before|), keep);
    if x.request.body.SpiReq? {
      SpiExchange(b1, x, keep);
    } else {
      BuildI2c(b1, x, keep);
      var b2 := BuildStep(b1, x.request, XferOf(x), keep);
      BuildNoise(b2, x.during, keep);
      ResponseIsNoStep(BuildFrom(b2, x.during, Blank(|x.during|), keep), x.response, keep);
    }
  }

  lemma SpiExchange(b: Builder, x: Exchange, keep: Keep)
    requires Sane(b) && b.request.None? && Logged(x) && x.request.body.SpiReq?
    ensures var b2 := BuildStep(b, x.request, XferOf(x), keep);
            var b3 := BuildFrom(b2, x.during, Blank(|x.during|), keep);
            var r := BuildStep(b3, x.response, None, keep);
            Sane(r) && r.request.None?
            && MeaningOf(r) == MeaningOf(b) + (if Kept(keep, x) then [ItemOf(x)] else [])
  {
    hide BuildFrom, Meaning, MeaningOf, Flushed;
    var b2 := BuildStep(b, x.request, XferOf(x), keep);
    RequestIsNoStep(b, x.request);
    BuildNoise(b2, x.during, keep);
    var b3 := BuildFrom(b2, x.during, Blank(|x.during|), keep);
    if keep.spi {
      JoinedMeans(b3, x.response);
    }
  }

  lemma ResponseIsNoStep(b: Builder, e: Event, keep: Keep)
    requires Sane(b) && IsResponse(e)
    ensures var r := BuildStep(b, e, None, keep);
            Sane(r) && r.request == b.request && MeaningOf(r) == MeaningOf(b)
  {
    FlushKeeps(b);
  }

  lemma RequestIsNoStep(b: Builder, e: Event)
    requires Sane(b) && e.body.SpiReq? && |e.body.mosi| == 1
    ensures Sane(b.(request := Some(e))) && MeaningOf(b.(request := Some(e))) == MeaningOf(b)
  {
  }

  lemma {:induction false} BuildSession(b: Builder, session: seq<Exchange>, keep: Keep)
    requires Sane(b) && b.request.None? && Session(session)
    ensures var r := BuildFrom(b, Log(session), SessionCells(session), keep);
            Sane(r) && MeaningOf(r) == MeaningOf(b) + Items(session, keep)
    decreases |session|
  {
    if session == [] {
    } else {
      hide BuildStep, Sane, MeaningOf, CellsOf, Lines, Logged, Flushed;
      hide Meaning;
      var x := session[0];
      BuildAppend(b, Lines(x), CellsOf(x), Log(session[1..]), SessionCells(session[1..]), keep);
      BuildExchange(b, x, keep);
      var r := BuildFrom(b, Lines(x), CellsOf(x), keep);
      hide BuildFrom;
      BuildSession(r, session[1..], keep);
      Regroup(MeaningOf(b), if Kept(keep, x) then [ItemOf(x)] else [], Items(session[1..], keep));
    }
  }

  lemma EmptyMeans()
    ensures Sane(EMPTY_TAPE) && MeaningOf(EMPTY_TAPE) == []
  {
  }

  /** Compilation preserves meaning: the tape of a session's log means the exchanges that
      were kept, in order, whatever other lines the log has and however the SPI bytes
      were merged. */
  lemma {:induction false} TapeMeansSession(session: seq<Exchange>, keep: Keep)
    requires Session(session)
    ensures Timeless(Build(Log(session), keep)) && Meaning(Build(Log(session), keep)) == Items(session, keep)
  {
    hide Items, SessionCells, BuildFrom, Flushed, Meaning, Sane, Log, Paired;
    EveryRequestGetsItsAnswer(session);
    EmptyMeans();
    BuildSession(EMPTY_TAPE, session, keep);
    FlushedTimeless(BuildFrom(EMPTY_TAPE, Log(session), SessionCells(session), keep));
  }

  /** No read answered more than it was asked for; the environment sees to that. */
  predicate Bounded(session: seq<Exchange>) {
    forall i :: 0 <= i < |session| && session[i].request.body.RdReq? && session[i].response.body.RdResp? ==>
                  |session[i].response.body.data| <= session[i].request.body.want
  }

  lemma {:induction false} ItemsAnswerable(session: seq<Exchange>, keep: Keep)
    requires Session(session) && Bounded(session)
    ensures Answerable(Items(session, keep))
  {
    if session != [] {
      ItemsAnswerable(session[1..], keep);
    }
  }

  /** Record, compile, replay: asked at any times what it was asked in the session, the
      tape gives every answer the device gave, counts no mismatch and finishes. */
  lemma {:induction false} RecordReplayFidelity(session: seq<Exchange>, keep: Keep, asked: seq<Asked>)
    requires Session(session) && Bounded(session)
    requires Requests(asked) == RequestsOf(Items(session, keep))
    ensures var steps := Build(Log(session), keep);
            && Timeless(steps)
            && var (end, replies) := Replay(steps, RESET, asked);
               replies == RepliesOf(Items(session, keep)) && end.mismatches == 0 && end.step >= |steps|
  {
    hide Build, Items, Replay;
    var steps := Build(Log(session), keep);
    TapeMeansSession(session, keep);
    ItemsAnswerable(session, keep);
    RestAtReset(steps);
    ReplaysFaithfully(steps, RESET, asked);
  }

  /** Where every recorded read asked for something, the replay counts nothing exactly
      when the application's requests are the session's, in order, as far as they go. */
  lemma {:induction false} DeparturesAreDetected(session: seq<Exchange>, keep: Keep, asked: seq<Asked>)
    requires Session(session)
    requires forall i :: 0 <= i < |session| && session[i].request.body.RdReq? ==> session[i].request.body.want > 0
    ensures Timeless(Build(Log(session), keep))
    ensures Replay(Build(Log(session), keep), RESET, asked).0.mismatches == 0
            <==> Requests(asked) <= RequestsOf(Items(session, keep))
  {
    TapeMeansSession(session, keep);
    ItemsWant(session, keep);
    DetectsDepartures(Build(Log(session), keep), asked);
  }

  lemma {:induction false} ItemsWant(session: seq<Exchange>, keep: Keep)
    requires Session(session)
    requires forall i :: 0 <= i < |session| && session[i].request.body.RdReq? ==> session[i].request.body.want > 0
    ensures forall i :: 0 <= i < |Items(session, keep)| && Items(session, keep)[i].ReadItem? ==>
                          Items(session, keep)[i].want > 0
  {
    if session != [] {
      ItemsWant(session[1..], keep);
    }
  }

  // --- When the table can be written ---------------------------------------

  /** How many SPI bytes in a row the log ends with, commentary aside. */
  function Trailing(n: nat, e: Event): nat {
    if e.body.Diag? || e.body.SpiReq? then n else if e.body.SpiResp? then n + 1 else 0
  }

  predicate RunsFit(n: nat, events: seq<Event>)
    decreases |events|
  {
    n <= 255 && (events == [] || RunsFit(Trailing(n, events[0]), events[1..]))
  }

  predicate CellFits(cell: Option<Xfer>) {
    cell.Some? ==> |cell.value.sent| <= 255 && |cell.value.got| <= 255 && cell.value.want <= 255
                   && (cell.value.status.Some? ==> cell.value.status.value <= 255)
  }

  predicate EventFits(e: Event) {
    match e.body
    case SpiReq(mosi) => |mosi| <= 1
    case SpiXfer(mosi, _) => |mosi| <= 255
    case _ => true
  }

  ghost predicate AllFit(b: Builder, n: nat) {
    && (forall i :: 0 <= i < |b.steps| ==> Fits(b.steps[i]))
    && (b.request.Some? ==> b.request.value.body.SpiReq? && |b.request.value.body.mosi| <= 1)
    && (b.run.Some? ==> |b.run.value.mosi| <= n)
  }

  lemma FitStep(b: Builder, e: Event, cell: Option<Xfer>, keep: Keep, n: nat)
    requires AllFit(b, n) && n <= 255 && EventFits(e) && CellFits(cell)
    ensures AllFit(BuildStep(b, e, cell, keep), Trailing(n, e)) || !keep.spi
    ensures !keep.spi && b.run.None? ==> AllFit(BuildStep(b, e, cell, keep), 0) && BuildStep(b, e, cell, keep).run.None?
  {
  }

  lemma {:induction false} FitEvents(b: Builder, events: seq<Event>, cells: seq<Option<Xfer>>, keep: Keep, n: nat)
    requires |events| == |cells| && AllFit(b, n) && RunsFit(n, events)
    requires !keep.spi ==> b.run.None?
    requires forall i :: 0 <= i < |events| ==> EventFits(events[i])
    requires forall i :: 0 <= i < |cells| ==> CellFits(cells[i])
    ensures AllFit(BuildFrom(b, events, cells, keep), 255)
    decreases |events|
  {
    if events != [] {
      FitStep(b, events[0], cells[0], keep, n);
      hide BuildStep, Fits;
      FitEvents(BuildStep(b, events[0], cells[0], keep), events[1..], cells[1..], keep, Trailing(n, events[0]));
    }
  }

  /** The table's one-byte fields hold every step as long as payloads, read lengths and
      statuses are at most 255 and no more than 255 SPI bytes come in a row. */
  lemma {:induction false} TableHolds(session: seq<Exchange>, keep: Keep)
    requires Session(session) && RunsFit(0, Log(session))
    requires forall i :: 0 <= i < |Log(session)| ==> EventFits(Log(session)[i])
    requires forall i :: 0 <= i < |SessionCells(session)| ==> CellFits(SessionCells(session)[i])
    ensures forall i :: 0 <= i < |Build(Log(session), keep)| ==> Fits(Build(Log(session), keep)[i])
  {
    EveryRequestGetsItsAnswer(session);
    FitEvents(EMPTY_TAPE, Log(session), SessionCells(session), keep, 0);
  }
}
