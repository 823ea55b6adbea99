/** Logs that also hold whole-call SPI transfers and SPI checksums: what their tape means,
    that it replays and detects, and which lines are left out of it. */
module SpiTraffic {
  import opened Wrappers
  import opened Pairing
  import opened Tape
  import opened TapeBuild

  /** A part of a log: an exchange, or any lines and then one SPI line of its own, which is
      a transfer with all its bytes, a checksum, or a response that nothing asked for. */
  datatype Part = Pair(exchange: Exchange) | Whole(before: seq<Event>, line: Event)

  predicate PartOk(p: Part) {
    match p
    case Pair(x) => Logged(x)
    case Whole(before, line) => Noise(before) && (line.body.SpiXfer? || line.body.SpiBulk? || line.body.SpiResp?)
  }

  predicate Traffic(parts: seq<Part>) {
    forall i :: 0 <= i < |parts| ==> PartOk(parts[i])
  }

  function PartLines(p: Part): seq<Event> {
    match p
    case Pair(x) => Lines(x)
    case Whole(before, line) => before + [line]
  }

  function TrafficLog(parts: seq<Part>): seq<Event> {
    if parts == [] then [] else PartLines(parts[0]) + TrafficLog(parts[1..])
  }

  function PartCells(p: Part): (r: seq<Option<Xfer>>)
    requires PartOk(p)
    ensures |r| == |PartLines(p)|
  {
    match p
    case Pair(x) => CellsOf(x)
    case Whole(before, _) => Blank(|before| + 1)
  }

  function TrafficCells(parts: seq<Part>): (r: seq<Option<Xfer>>)
    requires Traffic(parts)
    ensures |r| == |TrafficLog(parts)|
  {
    if parts == [] then [] else PartCells(parts[0]) + TrafficCells(parts[1..])
  }

  /** A transfer whose bytes both ways are all there. */
  predicate Complete(e: Event) {
    e.body.SpiXfer? && |e.body.mosi| == |e.body.miso| && e.body.mosi != []
  }

  /** What a part was for the application: each byte of a whole-call transfer is an exchange
      of its own, the byte sent and the byte that came back. */
  function PartItems(p: Part, keep: Keep): seq<Item>
    requires PartOk(p)
  {
    match p
    case Pair(x) => if Kept(keep, x) then [ItemOf(x)] else []
    case Whole(_, e) =>
      if keep.spi && Complete(e)
      then seq(|e.body.mosi|, i requires 0 <= i < |e.body.mosi| => SpiItem(e.body.mosi[i], e.body.miso[i]))
      else []
  }

  function TrafficItems(parts: seq<Part>, keep: Keep): seq<Item>
    requires Traffic(parts)
  {
    if parts == [] then [] else PartItems(parts[0], keep) + TrafficItems(parts[1..], keep)
  }

  /** The SPI lines a tape for SPI cannot hold. */
  function LeftOut(parts: seq<Part>, keep: Keep): seq<Event> {
    if parts == [] then []
    else
      (if keep.spi && parts[0].Whole? && !Complete(parts[0].line) then [parts[0].line] else [])
      + LeftOut(parts[1..], keep)
  }

  // --- Pairing -------------------------------------------------------------

  lemma PairPart(p: Pairs, part: Part)
    requires PairsOk(p) && AllAnswered(p.cells) && PartOk(part)
    ensures PairFrom(p, PartLines(part)).cells == p.cells + PartCells(part) && AllAnswered(PartCells(part))
  {
    match part
    case Pair(x) =>
      PairExchange(p, x);
      CellsAnswered(x);
    case Whole(before, line) =>
      PairAppend(p, before, [line]);
      PairNoise(p, before);
      var q := PairFrom(p, before);
      assert PairFrom(q, [line]) == PairStep(q, line);
      assert p.cells + Blank(|before|) + [None] == p.cells + Blank(|before| + 1);
  }

  lemma {:induction false} PairTraffic(p: Pairs, parts: seq<Part>)
    requires PairsOk(p) && AllAnswered(p.cells) && Traffic(parts)
    ensures PairFrom(p, TrafficLog(parts)).cells == p.cells + TrafficCells(parts)
    decreases |parts|
  {
    if parts != [] {
      hide PairFrom, PartCells, AllAnswered, PartOk, PairsOk, PartLines;
      PairAppend(p, PartLines(parts[0]), TrafficLog(parts[1..]));
      PairPart(p, parts[0]);
      BothAnswered(p.cells, PartCells(parts[0]));
      PairTraffic(PairFrom(p, PartLines(parts[0])), parts[1..]);
      Regroup(p.cells, PartCells(parts[0]), TrafficCells(parts[1..]));
    }
  }

  lemma TrafficPaired(parts: seq<Part>)
    requires Traffic(parts)
    ensures Paired(TrafficLog(parts)) == TrafficCells(parts)
  {
    hide PairFrom;
    PairTraffic(NONE, parts);
    assert NONE.cells + TrafficCells(parts) == TrafficCells(parts);
  }

  // --- Compiling -----------------------------------------------------------

  lemma {:induction false} NoiseLeavesOut(b: Builder, noise: seq<Event>, keep: Keep)
    requires Sane(b) && Noise(noise)
    ensures BuildFrom(b, noise, Blank(|noise|), keep).skipped == b.skipped
    decreases |noise|
  {
    if noise != [] {
      FlushKeeps(b);
      assert Blank(|noise|)[1..] == Blank(|noise| - 1);
      NoiseLeavesOut(BuildStep(b, noise[0], None, keep), noise[1..], keep);
    }
  }

  lemma ExchangeLeavesOut(b: Builder, x: Exchange, keep: Keep)
    requires Sane(b) && b.request.None? && Logged(x)
    ensures BuildFrom(b, Lines(x), CellsOf(x), keep).skipped == b.skipped
  {
    hide BuildFrom, Meaning, MeaningOf, Lines, CellsOf, Noise, Keeps, I2cStep, SpiStep;
    BuildLines(b, x, keep);
    BuildNoise(b, x.before, keep);
    NoiseLeavesOut(b, x.before, keep);
    var b1 := BuildFrom(b, x.before, Blank(|x.before|), keep);
    RequestIsSane(b1, x, keep);
    var b2 := BuildStep(b1, x.request, XferOf(x), keep);
    BuildNoise(b2, x.during, keep);
    NoiseLeavesOut(b2, x.during, keep);
    hide Sane;
  }

  lemma RequestIsSane(b: Builder, x: Exchange, keep: Keep)
    requires Sane(b) && b.request.None? && Logged(x)
    ensures Sane(BuildStep(b, x.request, XferOf(x), keep))
  {
    if x.request.body.SpiReq? {
      RequestIsNoStep(b, x.request);
    } else {
      BuildI2c(b, x, keep);
    }
  }

  /** One whole-call transfer, laid out byte for byte. */
  lemma WholeStep(e: Event)
    requires Complete(e)
    ensures var s := SpiStep(e.body.mosi, e.body.miso, e.time);
            && StepOk(s) && Exchanged(s)
            && ItemsOf(s) ==
               seq(|e.body.mosi|, i requires 0 <= i < |e.body.mosi| => SpiItem(e.body.mosi[i], e.body.miso[i]))
  {
  }

  lemma BuildWhole(b: Builder, p: Part, keep: Keep)
    requires Sane(b) && b.request.None? && PartOk(p) && p.Whole?
    ensures var r := BuildFrom(b, PartLines(p), PartCells(p), keep);
            && Sane(r) && r.request.None? && MeaningOf(r) == MeaningOf(b) + PartItems(p, keep)
            && r.skipped == b.skipped + (if keep.spi && !Complete(p.line) then [p.line] else [])
  {
    hide Meaning, ItemsOf, MeaningOf, Flushed;
    assert Blank(|p.before| + 1) == Blank(|p.before|) + [None];
    BuildAppend(b, p.before, Blank(|p.before|), [p.line], [None], keep);
    BuildNoise(b, p.before, keep);
    NoiseLeavesOut(b, p.before, keep);
    var b1 := BuildFrom(b, p.before, Blank(|p.before|), keep);
    BuildOne(b1, p.line, None, keep);
    hide BuildFrom, Sane, Noise;
    WholeLine(b1, p.line, keep);
  }

  lemma WholeLine(b: Builder, e: Event, keep: Keep)
    requires Sane(b) && b.request.None? && (e.body.SpiXfer? || e.body.SpiBulk? || e.body.SpiResp?)
    ensures var r := BuildStep(b, e, None, keep);
            && Sane(r) && r.request.None? && MeaningOf(r) == MeaningOf(b) + PartItems(Whole([], e), keep)
            && r.skipped == b.skipped + (if keep.spi && !Complete(e) then [e] else [])
  {
    hide Meaning, ItemsOf;
    FlushKeeps(b);
    if keep.spi && Complete(e) {
      WholeStep(e);
      AddStep(b, SpiStep(e.body.mosi, e.body.miso, e.time));
    } else if keep.spi {
      SameSteps(Flushed(b), Flushed(b).(skipped := Flushed(b).skipped + [e]));
    }
  }

  lemma SameSteps(b: Builder, r: Builder)
    requires Sane(b) && r == b.(skipped := r.skipped)
    ensures Sane(r) && MeaningOf(r) == MeaningOf(b)
  {
  }

  lemma BuildPart(b: Builder, p: Part, keep: Keep)
    requires Sane(b) && b.request.None? && PartOk(p)
    ensures var r := BuildFrom(b, PartLines(p), PartCells(p), keep);
            && Sane(r) && r.request.None? && MeaningOf(r) == MeaningOf(b) + PartItems(p, keep)
            && r.skipped == b.skipped + LeftOut([p], keep)
  {
    assert LeftOut([p][1..], keep) == [];
    hide BuildFrom, Meaning, MeaningOf, Sane, Lines, CellsOf;
    match p
    case Pair(x) =>
      BuildExchange(b, x, keep);
      ExchangeLeavesOut(b, x, keep);
    case Whole(_, _) => BuildWhole(b, p, keep);
  }

  lemma {:induction false} BuildTraffic(b: Builder, parts: seq<Part>, keep: Keep)
    requires Sane(b) && b.request.None? && Traffic(parts)
    ensures var r := BuildFrom(b, TrafficLog(parts), TrafficCells(parts), keep);
            && Sane(r) && MeaningOf(r) == MeaningOf(b) + TrafficItems(parts, keep)
            && r.skipped == b.skipped + LeftOut(parts, keep)
    decreases |parts|
  {
    if parts != [] {
      LeftOutFirst(parts, keep);
      hide BuildStep, Sane, MeaningOf, PartCells, PartLines, PartOk, Flushed, Meaning, PartItems, LeftOut;
      var p := parts[0];
      BuildAppend(b, PartLines(p), PartCells(p), TrafficLog(parts[1..]), TrafficCells(parts[1..]), keep);
      BuildPart(b, p, keep);
      var r := BuildFrom(b, PartLines(p), PartCells(p), keep);
      hide BuildFrom;
      BuildTraffic(r, parts[1..], keep);
      Regroup(MeaningOf(b), PartItems(p, keep), TrafficItems(parts[1..], keep));
      Regroup(b.skipped, LeftOut([p], keep), LeftOut(parts[1..], keep));
    } else {
      assert b.skipped + LeftOut([], keep) == b.skipped;
    }
  }

  lemma LeftOutFirst(parts: seq<Part>, keep: Keep)
    requires parts != []
    ensures LeftOut(parts, keep) == LeftOut([parts[0]], keep) + LeftOut(parts[1..], keep)
  {
    assert [parts[0]][1..] == [];
  }

  /** The tape of such a log means its exchanges and the bytes of its whole-call transfers,
      in order and each at its place; and the lines named as left out are exactly the SPI
      lines it could not hold, in order. */
  lemma {:induction false} TapeMeansTraffic(parts: seq<Part>, keep: Keep)
    requires Traffic(parts)
    ensures Timeless(Build(TrafficLog(parts), keep))
    ensures Meaning(Build(TrafficLog(parts), keep)) == TrafficItems(parts, keep)
    ensures Skipped(TrafficLog(parts), keep) == LeftOut(parts, keep)
  {
    hide TrafficItems, TrafficCells, BuildFrom, Meaning, Sane, TrafficLog, LeftOut, Traffic;
    TrafficPaired(parts);
    EmptyMeans();
    BuildTraffic(EMPTY_TAPE, parts, keep);
    FlushedTimeless(BuildFrom(EMPTY_TAPE, TrafficLog(parts), TrafficCells(parts), keep));
    assert [] + TrafficItems(parts, keep) == TrafficItems(parts, keep);
    assert [] + LeftOut(parts, keep) == LeftOut(parts, keep);
  }

  // --- Replay --------------------------------------------------------------

  /** No read answered more than it was asked for. */
  predicate ReadsBounded(parts: seq<Part>) {
    forall i :: 0 <= i < |parts| && parts[i].Pair? ==> Bounded([parts[i].exchange])
  }

  lemma {:induction false} TrafficAnswerable(parts: seq<Part>, keep: Keep)
    requires Traffic(parts) && ReadsBounded(parts)
    ensures Answerable(TrafficItems(parts, keep))
    decreases |parts|
  {
    if parts != [] {
      TrafficAnswerable(parts[1..], keep);
      PartAnswerable(parts[0], keep);
      hide PartItems;
    }
  }

  lemma PartAnswerable(p: Part, keep: Keep)
    requires PartOk(p) && (p.Pair? ==> Bounded([p.exchange]))
    ensures Answerable(PartItems(p, keep))
  {
    if p.Pair? {
      assert [p.exchange][0] == p.exchange;
    }
  }

  /** Record, compile, replay, whole-call transfers included: asked byte for byte what was
      sent, at any times, the tape gives back every byte that was answered. */
  lemma {:induction false} TrafficReplays(parts: seq<Part>, keep: Keep, asked: seq<Asked>)
    requires Traffic(parts) && ReadsBounded(parts)
    requires Requests(asked) == RequestsOf(TrafficItems(parts, keep))
    ensures var steps := Build(TrafficLog(parts), keep);
            && Timeless(steps)
            && var (end, replies) := Replay(steps, RESET, asked);
               replies == RepliesOf(TrafficItems(parts, keep)) && end.mismatches == 0 && end.step >= |steps|
  {
    hide Build, TrafficItems, Replay;
    var steps := Build(TrafficLog(parts), keep);
    TapeMeansTraffic(parts, keep);
    TrafficAnswerable(parts, keep);
    RestAtReset(steps);
    ReplaysFaithfully(steps, RESET, asked);
  }

  predicate ReadsWant(parts: seq<Part>) {
    forall i :: 0 <= i < |parts| && parts[i].Pair? && parts[i].exchange.request.body.RdReq? ==>
                  parts[i].exchange.request.body.want > 0
  }

  predicate AllWant(items: seq<Item>) {
    forall i :: 0 <= i < |items| && items[i].ReadItem? ==> items[i].want > 0
  }

  lemma {:induction false} TrafficWants(parts: seq<Part>, keep: Keep)
    requires Traffic(parts) && ReadsWant(parts)
    ensures AllWant(TrafficItems(parts, keep))
    decreases |parts|
  {
    if parts != [] {
      TrafficWants(parts[1..], keep);
      PartWants(parts[0], keep);
      hide PartItems;
      WantBoth(PartItems(parts[0], keep), TrafficItems(parts[1..], keep));
    }
  }

  lemma WantBoth(a: seq<Item>, b: seq<Item>)
    requires AllWant(a) && AllWant(b)
    ensures AllWant(a + b)
  {
  }

  lemma PartWants(p: Part, keep: Keep)
    requires PartOk(p) && (p.Pair? && p.exchange.request.body.RdReq? ==> p.exchange.request.body.want > 0)
    ensures AllWant(PartItems(p, keep))
  {
  }

  /** And nothing is counted exactly when the requests, each SPI byte one of them, are those
      of the log as far as they go. */
  lemma {:induction false} TrafficDepartures(parts: seq<Part>, keep: Keep, asked: seq<Asked>)
    requires Traffic(parts) && ReadsWant(parts)
    ensures Timeless(Build(TrafficLog(parts), keep))
    ensures Replay(Build(TrafficLog(parts), keep), RESET, asked).0.mismatches == 0
            <==> Requests(asked) <= RequestsOf(TrafficItems(parts, keep))
  {
    hide Build, TrafficItems, Replay;
    TapeMeansTraffic(parts, keep);
    TrafficWants(parts, keep);
    DetectsDepartures(Build(TrafficLog(parts), keep), asked);
  }

  /** The table's one-byte fields hold such a tape too. */
  lemma {:induction false} TrafficTableHolds(parts: seq<Part>, keep: Keep)
    requires Traffic(parts) && RunsFit(0, TrafficLog(parts))
    requires forall i :: 0 <= i < |TrafficLog(parts)| ==> EventFits(TrafficLog(parts)[i])
    requires forall i :: 0 <= i < |TrafficCells(parts)| ==> CellFits(TrafficCells(parts)[i])
    ensures forall i :: 0 <= i < |Build(TrafficLog(parts), keep)| ==> Fits(Build(TrafficLog(parts), keep)[i])
  {
    TrafficPaired(parts);
    FitEvents(EMPTY_TAPE, TrafficLog(parts), TrafficCells(parts), keep, 0);
  }
}
