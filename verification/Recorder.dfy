/** The bounded event log: what one recorded event does to the buffer, and the
    ledger that says, for every sequence number, where the event went. */
module Recorder {
  import opened Checksum
  import opened Shapes
  import opened FoldSearch

  datatype Origin = App | Dir | Dev | Core | Diag

  datatype Event = Event(seqNo: nat, timeUs: nat, lastTimeUs: nat, repeats: nat,
                         ctx: nat, origin: Origin, link: nat, text: string)

  /** What a caller hands to the recorder, with the clock and context it finds. */
  datatype Entry = Entry(timeUs: nat, ctx: nat, origin: Origin, link: nat, text: string)

  datatype Log = Log(buf: seq<Event>, nextSeq: nat, dropped: nat, folded: nat,
                     outsideWindow: nat, foldExhausted: bool, truncated: bool, running: bool)

  const EMPTY := Log([], 1, 0, 0, 0, false, false, false)

  // --- Folding -------------------------------------------------------------

  function Texts(evs: seq<Event>): seq<string> {
    seq(|evs|, i requires 0 <= i < |evs| => evs[i].text)
  }

  function ShapesOf(evs: seq<Event>): seq<string> {
    seq(|evs|, i requires 0 <= i < |evs| => ShapeOf(evs[i].text))
  }

  datatype Plan = NoFold | Fold(cycle: Cycle, shape: bool)

  /** A fold by text wherever there is one, else a fold by shape. */
  function PlanOf(evs: seq<Event>): Plan {
    match First(Texts(evs))
    case Best(c) => Fold(c, false)
    case Nothing =>
      match Largest(ShapesOf(evs))
      case Best(c) => Fold(c, true)
      case Nothing => NoFold
  }

  /** The repeats of every copy of one line: the lines at pos, pos + width, ... before end. */
  function Total(evs: seq<Event>, pos: nat, width: nat, end: nat): nat
    requires width > 0 && end <= |evs|
    decreases end - pos
  {
    if pos >= end then 0 else evs[pos].repeats + Total(evs, pos + width, width, end)
  }

  function CopiesCrc(evs: seq<Event>, pos: nat, width: nat, end: nat, crc: bv8): bv8
    requires width > 0 && end <= |evs|
    decreases end - pos
  {
    if pos >= end then crc
    else CopiesCrc(evs, pos + width, width, end, Crc8From(crc, TextBytes(evs[pos].text)))
  }

  predicate Fits(c: Cycle, n: nat) {
    0 < c.width && c.width < c.span && c.start + c.span <= n
  }

  /** Line k of the copy that stays. */
  function Head(evs: seq<Event>, c: Cycle, shape: bool, k: nat): Event
    requires Fits(c, |evs|) && k < c.width
  {
    var line := evs[c.start + k];
    var end := c.start + c.span;
    line.(repeats := Total(evs, c.start + k, c.width, end),
         lastTimeUs := evs[end - 1].timeUs,
         text := if shape then Summary(line.text, CopiesCrc(evs, c.start + k, c.width, end, 0)) else line.text)
  }

  function Folded(evs: seq<Event>, c: Cycle, shape: bool): (r: seq<Event>)
    requires Fits(c, |evs|)
    ensures |r| == |evs| - c.Removed()
  {
    evs[..c.start] + seq(c.width, k requires 0 <= k < c.width => Head(evs, c, shape, k)) + evs[c.start + c.span..]
  }

  lemma FoldedAt(evs: seq<Event>, c: Cycle, shape: bool, i: nat)
    requires Fits(c, |evs|) && i < |evs| - c.Removed()
    ensures Folded(evs, c, shape)[i] ==
            if i < c.start then evs[i]
            else if i < c.start + c.width then Head(evs, c, shape, i - c.start)
            else evs[i + c.Removed()]
  {
  }

  lemma PlanIsACycle(evs: seq<Event>)
    ensures PlanOf(evs).NoFold? <==>
            (forall w, s :: !Repeats(Texts(evs), s, w)) && (forall w, s :: !Repeats(ShapesOf(evs), s, w))
    ensures PlanOf(evs).Fold? ==>
              var p := PlanOf(evs);
              && Fits(p.cycle, |evs|)
              && IsCycle(if p.shape then ShapesOf(evs) else Texts(evs), p.cycle)
  {
    FirstIsNarrowestLeftmost(Texts(evs));
    LargestFreesTheMost(ShapesOf(evs));
  }

  // --- One event -----------------------------------------------------------

  function Decimal(n: nat): string {
    if n < 10 then ["0123456789"[n]] else Decimal(n / 10) + ["0123456789"[n % 10]]
  }

  function Stored(l: Log, e: Entry, seqNo: nat): Log {
    l.(buf := l.buf + [Event(seqNo, e.timeUs, e.timeUs, 1, e.ctx, e.origin, e.link, Clip(e.text))])
  }

  /** The standing notice in the last slot. */
  function Notice(e: Entry, seqNo: nat, dropped: nat): Event {
    Event(seqNo, e.timeUs, e.timeUs, 1, e.ctx, Diag, 0, Clip("trace.truncated lost=" + Decimal(dropped)))
  }

  function Truncated(l: Log, e: Entry, seqNo: nat): Log
    requires l.buf != []
  {
    var lost := l.dropped + (if l.foldExhausted then 1 else 2);
    l.(foldExhausted := true, truncated := true, dropped := lost,
       buf := l.buf[|l.buf| - 1 := Notice(e, seqNo, lost)])
  }

  predicate Full(l: Log, cap: nat) {
    |l.buf| >= cap
  }

  /** Whether this event is stored at once, stored after a fold, or lost. */
  function Room(l: Log, cap: nat): Plan {
    if Full(l, cap) && !l.foldExhausted then PlanOf(l.buf) else NoFold
  }

  predicate PlanFits(l: Log, plan: Plan) {
    plan.Fold? ==> Fits(plan.cycle, |l.buf|) && !l.foldExhausted
  }

  function FoldedAndStored(l: Log, e: Entry, c: Cycle, shape: bool): Log
    requires Fits(c, |l.buf|)
  {
    Stored(l.(nextSeq := l.nextSeq + 1, buf := Folded(l.buf, c, shape), folded := l.folded + c.Removed()), e, l.nextSeq)
  }

  /** One event, given what the search found. */
  function RecordedWith(l: Log, cap: nat, e: Entry, plan: Plan): Log
    requires cap > 0 && PlanFits(l, plan)
  {
    var l1 := l.(nextSeq := l.nextSeq + 1);
    if !l.running then l1.(outsideWindow := l.outsideWindow + 1)
    else if !Full(l, cap) then Stored(l1, e, l.nextSeq)
    else match plan
      case Fold(c, shape) => FoldedAndStored(l, e, c, shape)
      case NoFold => Truncated(l1, e, l.nextSeq)
  }

  lemma RoomFits(l: Log, cap: nat)
    ensures PlanFits(l, Room(l, cap))
  {
    PlanIsACycle(l.buf);
  }

  function Recorded(l: Log, cap: nat, e: Entry): Log
    requires cap > 0
  {
    RoomFits(l, cap);
    RecordedWith(l, cap, e, Room(l, cap))
  }

  function Begun(l: Log): Log {
    EMPTY.(outsideWindow := l.outsideWindow, running := true)
  }
}
