/** What a tape of exchanges does with any application, departures and all: it reads its
    exchanges one after another, whatever steps hold them. */
module TapeReader {
  import opened Wrappers
  import opened Tape

  /** An exchange, and whether it is the last of its step. */
  datatype Mark = Mark(item: Item, last: bool)

  function Marks(s: Step): (r: seq<Mark>)
    requires StepOk(s) && Exchanged(s)
    ensures |r| == |ItemsOf(s)|
  {
    var items := ItemsOf(s);
    seq(|items|, i requires 0 <= i < |items| => Mark(items[i], i == |items| - 1))
  }

  function MarksOf(steps: seq<Step>): seq<Mark>
    requires Timeless(steps)
  {
    if steps == [] then [] else Marks(steps[0]) + MarksOf(steps[1..])
  }

  function ItemsIn(marks: seq<Mark>): (r: seq<Item>)
    ensures |r| == |marks|
  {
    seq(|marks|, i requires 0 <= i < |marks| => marks[i].item)
  }

  lemma ItemsInAppend(a: seq<Mark>, b: seq<Mark>)
    ensures ItemsIn(a + b) == ItemsIn(a) + ItemsIn(b)
  {
  }

  lemma MarksSay(s: Step)
    requires StepOk(s) && Exchanged(s)
    ensures ItemsIn(Marks(s)) == ItemsOf(s)
  {
    hide ItemsOf;
  }

  lemma {:induction false} MarksMean(steps: seq<Step>)
    requires Timeless(steps)
    ensures ItemsIn(MarksOf(steps)) == Meaning(steps)
  {
    if steps != [] {
      hide ItemsOf, Marks, ItemsIn;
      MarksMean(steps[1..]);
      MarksSay(steps[0]);
      ItemsInAppend(Marks(steps[0]), MarksOf(steps[1..]));
    } else {
      assert ItemsIn([]) == [];
    }
  }

  /** A reader of exchanges: what is left, whether a departure has been counted in the step
      it stands in or past the end, and how many were counted. */
  datatype Reader = Reader(rest: seq<Mark>, said: bool, over: bool, mismatches: nat)

  /** One request. Where nothing is left it is refused, and counted once. One of another
      kind than the exchange that stands there is turned away, and the reader stays. One of
      its kind is given the recorded answer and the reader goes on; each part in which it
      differs is counted, the bytes of an SPI step once for them all. */
  function Ask(r: Reader, q: Request): (Reader, Reply) {
    if r.rest == [] then
      (r.(over := true, mismatches := r.mismatches + Differ(!r.over)),
       match q case WriteOf(_, _) => Status(2) case ReadOf(_, _) => Data([]) case SpiOf(_) => Miso(0xFF))
    else
      var m := r.rest[0];
      var next := r.(rest := r.rest[1..], said := r.said && !m.last);
      match q
      case WriteOf(data, stop) =>
        if m.item.WriteItem? then
          (next.(mismatches := r.mismatches + Differ(data != m.item.data) + Differ(stop != m.item.stop)),
           Status(m.item.status))
        else (r.(mismatches := r.mismatches + 1), Status(3))
      case ReadOf(len, stop) =>
        if m.item.ReadItem? then
          (next.(mismatches := r.mismatches + Differ(m.item.want != 0 && len != m.item.want)
                               + Differ(stop != m.item.stop)),
           Data(if len < |m.item.got| then m.item.got[..len] else m.item.got))
        else (r.(mismatches := r.mismatches + 1), Data([]))
      case SpiOf(mosi) =>
        if m.item.SpiItem? then
          var bad := mosi != m.item.mosi;
          (next.(mismatches := r.mismatches + Differ(bad && !r.said), said := (r.said || bad) && !m.last),
           Miso(m.item.miso))
        else (r.(mismatches := r.mismatches + Differ(!r.said), said := true), Miso(0xFF))
  }

  function AskAll(r: Reader, asked: seq<Asked>): (Reader, seq<Reply>)
    decreases |asked|
  {
    if asked == [] then (r, [])
    else
      var (next, reply) := Ask(r, asked[0].request);
      var (end, replies) := AskAll(next, asked[1..]);
      (end, [reply] + replies)
  }

  function Left(steps: seq<Step>, p: Player): seq<Mark>
    requires Timeless(steps) && InStep(steps, p)
  {
    if p.step >= |steps| then [] else Marks(steps[p.step])[p.progress..] + MarksOf(steps[p.step + 1..])
  }

  /** The player stands where the reader does. */
  ghost predicate Reads(steps: seq<Step>, p: Player, r: Reader)
    requires Timeless(steps) && InStep(steps, p)
  {
    && r == Reader(Left(steps, p), p.stepBad, p.exhaustedSaid, p.mismatches)
    && (p.step >= |steps| ==> !p.stepBad)
  }

  lemma LeftAtStep(steps: seq<Step>, p: Player)
    requires Timeless(steps) && p.progress == 0
    ensures InStep(steps, p) && Left(steps, p) == if p.step >= |steps| then [] else MarksOf(steps[p.step..])
  {
    if p.step < |steps| {
      assert steps[p.step..][1..] == steps[p.step + 1..];
    }
  }

  lemma FinishedLeft(steps: seq<Step>, p: Player, now: int)
    requires Timeless(steps) && InStep(steps, p) && p.step < |steps| && |ItemsOf(steps[p.step])| == p.progress + 1
    ensures var q := Finished(steps, p, now);
            && InStep(steps, q) && Left(steps, p) == [Marks(steps[p.step])[p.progress]] + Left(steps, q)
            && q.mismatches == p.mismatches && !q.stepBad && q.exhaustedSaid == p.exhaustedSaid
  {
    hide ItemsOf;
    LeftAtStep(steps, Finished(steps, p, now));
    assert Marks(steps[p.step])[p.progress..] == [Marks(steps[p.step])[p.progress]];
  }

  lemma TakeOne(a: seq<Mark>, k: nat, b: seq<Mark>)
    requires k < |a|
    ensures a[k..] + b == [a[k]] + (a[k + 1..] + b)
  {
  }

  lemma LeftIs(steps: seq<Step>, p: Player)
    requires Timeless(steps) && InStep(steps, p) && p.step < |steps|
    ensures StepOk(steps[p.step]) && Exchanged(steps[p.step]) && p.progress < |Marks(steps[p.step])|
    ensures Timeless(steps[p.step + 1..])
    ensures Left(steps, p) == Marks(steps[p.step])[p.progress..] + MarksOf(steps[p.step + 1..])
  {
    hide MarksOf;
  }

  lemma StillInStep(steps: seq<Step>, p: Player)
    requires Timeless(steps) && InStep(steps, p) && p.step < |steps| && p.progress + 1 < |ItemsOf(steps[p.step])|
    ensures InStep(steps, p.(progress := p.progress + 1))
  {
    ItemsByKind(steps[p.step]);
    hide ItemsOf;
  }

  lemma NextLeft(steps: seq<Step>, p: Player)
    requires Timeless(steps) && InStep(steps, p) && p.step < |steps| && p.progress + 1 < |ItemsOf(steps[p.step])|
    ensures InStep(steps, p.(progress := p.progress + 1))
    ensures Left(steps, p) == [Marks(steps[p.step])[p.progress]] + Left(steps, p.(progress := p.progress + 1))
  {
    StillInStep(steps, p);
    LeftIs(steps, p);
    LeftIs(steps, p.(progress := p.progress + 1));
    hide ItemsOf, Marks, MarksOf, Left, Timeless, InStep, Exchanged, StepOk;
    TakeOne(Marks(steps[p.step]), p.progress, MarksOf(steps[p.step + 1..]));
  }

  lemma FirstLeft(steps: seq<Step>, p: Player)
    requires Timeless(steps) && InStep(steps, p)
    ensures p.step >= |steps| <==> Left(steps, p) == []
    ensures p.step < |steps| ==>
              && p.progress < |ItemsOf(steps[p.step])|
              && Left(steps, p)[0] == Mark(ItemsOf(steps[p.step])[p.progress],
                                           p.progress + 1 == |ItemsOf(steps[p.step])|)
  {
    hide MarksOf;
  }

  lemma SameLeft(steps: seq<Step>, p: Player, q: Player)
    requires Timeless(steps) && InStep(steps, p) && q.step == p.step && q.progress == p.progress
    ensures InStep(steps, q) && Left(steps, q) == Left(steps, p)
  {
  }

  /** The exchange that stands at a step is of the step's kind. */
  lemma ItemAt(s: Step, i: nat)
    requires StepOk(s) && Exchanged(s) && i < |ItemsOf(s)|
    ensures |ItemsOf(s)| == if s.kind == Spi then s.length else 1
    ensures s.kind == Write ==> ItemsOf(s)[i] == WriteItem(s.data, s.stop, s.status)
    ensures s.kind == Read ==> ItemsOf(s)[i] == ReadItem(s.request, s.stop, s.data)
    ensures s.kind == Spi ==> ItemsOf(s)[i] == SpiItem(s.data[i], s.data[s.length + i])
  {
  }

  /** What the player and the reader do with a request they turn away. */
  lemma TurnedAway(steps: seq<Step>, p: Player, r: Reader, q: Player, s: Reader)
    requires Timeless(steps) && InStep(steps, p) && Reads(steps, p, r)
    requires q.step == p.step && q.progress == p.progress && (p.step >= |steps| ==> !q.stepBad)
    requires s == r.(said := q.stepBad, over := q.exhaustedSaid, mismatches := q.mismatches)
    ensures InStep(steps, q) && Reads(steps, q, s)
  {
    SameLeft(steps, p, q);
    hide Left;
  }

  lemma AskWrite(steps: seq<Step>, p: Player, r: Reader, now: int, data: seq<bv8>, stop: bool)
    requires Timeless(steps) && InStep(steps, p) && Reads(steps, p, r)
    ensures var (q, reply) := PlayWrite(steps, p, now, data, stop);
            var (s, answer) := Ask(r, WriteOf(data, stop));
            Reads(steps, q, s) && reply == answer
  {
    if p.step < |steps| && steps[p.step].kind == Write {
      AskWriteStep(steps, p, r, now, data, stop);
    } else {
      NeverBusy(steps, p, now);
      FirstLeft(steps, p);
      if p.step < |steps| {
        ItemAt(steps[p.step], p.progress);
      }
      hide BusyRefuses, ItemsOf, Left, Finished, MarksOf, Marks;
      TurnedAway(steps, p, r, PlayWrite(steps, p, now, data, stop).0, Ask(r, WriteOf(data, stop)).0);
    }
  }

  /** What a taken request leaves where it was the last of its step. */
  lemma StepTaken(steps: seq<Step>, p: Player, r: Reader, m: Player, s: Reader, now: int)
    requires Timeless(steps) && InStep(steps, p) && Reads(steps, p, r) && p.step < |steps|
    requires |ItemsOf(steps[p.step])| == p.progress + 1 && r.rest != []
    requires m.step == p.step && m.progress == p.progress && m.exhaustedSaid == p.exhaustedSaid
    requires s == r.(rest := r.rest[1..], said := false, mismatches := m.mismatches)
    ensures InStep(steps, Finished(steps, m, now)) && Reads(steps, Finished(steps, m, now), s)
  {
    hide ItemsOf, Left, Finished, MarksOf, Marks;
    SameLeft(steps, p, m);
    FinishedLeft(steps, m, now);
  }

  lemma AskWriteStep(steps: seq<Step>, p: Player, r: Reader, now: int, data: seq<bv8>, stop: bool)
    requires Timeless(steps) && InStep(steps, p) && Reads(steps, p, r)
    requires p.step < |steps| && steps[p.step].kind == Write
    ensures var (q, reply) := PlayWrite(steps, p, now, data, stop);
            var (s, answer) := Ask(r, WriteOf(data, stop));
            Reads(steps, q, s) && reply == answer
  {
    NeverBusy(steps, p, now);
    FirstLeft(steps, p);
    var s := steps[p.step];
    ItemAt(s, p.progress);
    hide BusyRefuses, ItemsOf, Left, Finished, MarksOf, Marks;
    var m := Mismatch(p, Differ(data != s.data) + Differ(stop != s.stop));
    var next := r.(rest := r.rest[1..], said := false, mismatches := m.mismatches);
    assert PlayWrite(steps, p, now, data, stop) == (Finished(steps, m, now), Status(s.status));
    assert Ask(r, WriteOf(data, stop)) == (next, Status(s.status));
    hide Ask, PlayWrite, Reads;
    StepTaken(steps, p, r, m, next, now);
  }

  lemma AskRead(steps: seq<Step>, p: Player, r: Reader, now: int, len: nat, stop: bool)
    requires Timeless(steps) && InStep(steps, p) && Reads(steps, p, r)
    ensures var (q, reply) := PlayRead(steps, p, now, len, stop);
            var (s, answer) := Ask(r, ReadOf(len, stop));
            Reads(steps, q, s) && reply == answer
  {
    if p.step < |steps| && steps[p.step].kind == Read {
      AskReadStep(steps, p, r, now, len, stop);
    } else {
      NeverBusy(steps, p, now);
      FirstLeft(steps, p);
      if p.step < |steps| {
        ItemAt(steps[p.step], p.progress);
      }
      hide BusyRefuses, ItemsOf, Left, Finished, MarksOf, Marks;
      TurnedAway(steps, p, r, PlayRead(steps, p, now, len, stop).0, Ask(r, ReadOf(len, stop)).0);
    }
  }

  lemma AskedToRead(r: Reader, want: nat, recorded: bool, got: seq<bv8>, len: nat, stop: bool)
    requires r.rest != [] && r.rest[0] == Mark(ReadItem(want, recorded, got), true)
    ensures Ask(r, ReadOf(len, stop)) ==
            (r.(rest := r.rest[1..], said := false,
                mismatches := r.mismatches + Differ(want != 0 && len != want) + Differ(stop != recorded)),
             Data(if len < |got| then got[..len] else got))
  {
  }

  lemma AskReadStep(steps: seq<Step>, p: Player, r: Reader, now: int, len: nat, stop: bool)
    requires Timeless(steps) && InStep(steps, p) && Reads(steps, p, r)
    requires p.step < |steps| && steps[p.step].kind == Read
    ensures var (q, reply) := PlayRead(steps, p, now, len, stop);
            var (s, answer) := Ask(r, ReadOf(len, stop));
            Reads(steps, q, s) && reply == answer
  {
    FirstLeft(steps, p);
    var s := steps[p.step];
    ItemAt(s, p.progress);
    PlayReadIs(steps, p, now, len, stop);
    var m := Mismatch(p, Differ(s.request != 0 && len != s.request) + Differ(stop != s.stop));
    hide ItemsOf, Left, MarksOf, Marks, Finished, PlayRead, Ask, StepOk, Exchanged, InStep;
    AskedToRead(r, s.request, s.stop, s.data, len, stop);
    StepTaken(steps, p, r, m, Ask(r, ReadOf(len, stop)).0, now);
  }

  lemma PlayReadIs(steps: seq<Step>, p: Player, now: int, len: nat, stop: bool)
    requires Timeless(steps) && InStep(steps, p) && p.step < |steps| && steps[p.step].kind == Read
    ensures var s := steps[p.step];
            var m := Mismatch(p, Differ(s.request != 0 && len != s.request) + Differ(stop != s.stop));
            PlayRead(steps, p, now, len, stop) ==
            (Finished(steps, m, now), Data(if len < |s.data| then s.data[..len] else s.data))
  {
    NeverBusy(steps, p, now);
    hide BusyRefuses, Finished;
    assert steps[p.step].data[..|steps[p.step].data|] == steps[p.step].data;
  }

  lemma AskSpi(steps: seq<Step>, p: Player, r: Reader, now: int, mosi: bv8)
    requires Timeless(steps) && InStep(steps, p) && Reads(steps, p, r)
    ensures var (q, reply) := PlaySpi(steps, p, now, mosi);
            var (s, answer) := Ask(r, SpiOf(mosi));
            Reads(steps, q, s) && reply == answer
  {
    FirstLeft(steps, p);
    if p.step < |steps| && steps[p.step].kind == Spi {
      AskSpiByte(steps, p, r, now, mosi);
    } else {
      if p.step < |steps| {
        ItemAt(steps[p.step], p.progress);
      }
      hide ItemsOf, Left, Finished, MarksOf, Marks;
      TurnedAway(steps, p, r, PlaySpi(steps, p, now, mosi).0, Ask(r, SpiOf(mosi)).0);
    }
  }

  /** What a taken byte leaves in the middle of its step. */
  lemma ByteTaken(steps: seq<Step>, p: Player, r: Reader, m: Player, s: Reader)
    requires Timeless(steps) && InStep(steps, p) && Reads(steps, p, r) && p.step < |steps|
    requires p.progress + 1 < |ItemsOf(steps[p.step])| && r.rest != []
    requires m.step == p.step && m.progress == p.progress && m.exhaustedSaid == p.exhaustedSaid
    requires s == r.(rest := r.rest[1..], said := m.stepBad, mismatches := m.mismatches)
    ensures InStep(steps, m.(progress := p.progress + 1)) && Reads(steps, m.(progress := p.progress + 1), s)
  {
    hide ItemsOf, Left, MarksOf, Marks;
    SameLeft(steps, p, m);
    NextLeft(steps, m);
  }

  lemma AskedForByte(r: Reader, want: bv8, miso: bv8, last: bool, mosi: bv8)
    requires r.rest != [] && r.rest[0] == Mark(SpiItem(want, miso), last)
    ensures var bad := mosi != want;
            Ask(r, SpiOf(mosi)) ==
            (r.(rest := r.rest[1..], said := (r.said || bad) && !last,
                mismatches := r.mismatches + Differ(bad && !r.said)), Miso(miso))
  {
  }

  lemma AskSpiByte(steps: seq<Step>, p: Player, r: Reader, now: int, mosi: bv8)
    requires Timeless(steps) && InStep(steps, p) && Reads(steps, p, r) && p.step < |steps| && steps[p.step].kind == Spi
    ensures var (q, reply) := PlaySpi(steps, p, now, mosi);
            var (s, answer) := Ask(r, SpiOf(mosi));
            Reads(steps, q, s) && reply == answer
  {
    FirstLeft(steps, p);
    var s := steps[p.step];
    ItemAt(s, p.progress);
    PlaySpiIs(steps, p, now, mosi);
    var last := p.progress + 1 == s.length;
    var m := Compared(s, p, mosi);
    hide ItemsOf, Left, MarksOf, Marks, Finished, PlaySpi, Ask, StepOk, Exchanged;
    AskedForByte(r, s.data[p.progress], s.data[s.length + p.progress], last, mosi);
    var next := Ask(r, SpiOf(mosi)).0;
    if last {
      StepTaken(steps, p, r, m, next, now);
    } else {
      ByteTaken(steps, p, r, m, next);
    }
  }

  /** The player after a byte has been compared. */
  function Compared(s: Step, p: Player, mosi: bv8): Player
    requires p.progress < |s.data|
  {
    var bad := mosi != s.data[p.progress] && !p.stepBad;
    Mismatch(p, Differ(bad)).(stepBad := p.stepBad || bad)
  }

  lemma PlaySpiIs(steps: seq<Step>, p: Player, now: int, mosi: bv8)
    requires Timeless(steps) && InStep(steps, p) && p.step < |steps| && steps[p.step].kind == Spi
    ensures var s := steps[p.step];
            p.progress < s.length && |s.data| == 2 * s.length
            && var m := Compared(s, p, mosi);
               PlaySpi(steps, p, now, mosi) ==
               (if p.progress + 1 == s.length then Finished(steps, m, now) else m.(progress := p.progress + 1),
                Miso(s.data[s.length + p.progress]))
  {
    assert StepOk(steps[p.step]);
    FinishedForgets(steps, Compared(steps[p.step], p, mosi), now);
    hide Finished;
  }

  lemma AskOne(steps: seq<Step>, p: Player, r: Reader, a: Asked)
    requires Timeless(steps) && InStep(steps, p) && Reads(steps, p, r)
    ensures var (q, reply) := Play(steps, p, a);
            var (s, answer) := Ask(r, a.request);
            Reads(steps, q, s) && reply == answer
  {
    hide Reads;
    match a.request
    case WriteOf(data, stop) => AskWrite(steps, p, r, a.now, data, stop);
    case ReadOf(len, stop) => AskRead(steps, p, r, a.now, len, stop);
    case SpiOf(mosi) => AskSpi(steps, p, r, a.now, mosi);
  }

  lemma {:induction false} AskEach(steps: seq<Step>, p: Player, r: Reader, asked: seq<Asked>)
    requires Timeless(steps) && InStep(steps, p) && Reads(steps, p, r)
    ensures var (q, replies) := Replay(steps, p, asked);
            var (s, answers) := AskAll(r, asked);
            Reads(steps, q, s) && replies == answers
    decreases |asked|
  {
    if asked != [] {
      hide Reads, Play, Ask;
      AskOne(steps, p, r, asked[0]);
      AskEach(steps, Play(steps, p, asked[0]).0, Ask(r, asked[0].request).0, asked[1..]);
    }
  }

  /** A tape of exchanges gives any application, at whatever times and however it departs
      from the recording, the answers of the reader, and counts what the reader counts. */
  lemma AnyApplicationIsRead(steps: seq<Step>, asked: seq<Asked>)
    requires Timeless(steps)
    ensures InStep(steps, RESET) && ItemsIn(MarksOf(steps)) == Meaning(steps)
    ensures var (end, replies) := Replay(steps, RESET, asked);
            var (reader, answers) := AskAll(Reader(MarksOf(steps), false, false, 0), asked);
            replies == answers && end.mismatches == reader.mismatches
  {
    MarksMean(steps);
    LeftAtStep(steps, RESET);
    assert steps[0..] == steps;
    if steps == [] {
      assert MarksOf(steps) == [];
    }
    hide Left, MarksOf, Play, Ask;
    AskEach(steps, RESET, Reader(MarksOf(steps), false, false, 0), asked);
  }

  lemma OneAnswerOfItems(a: Reader, b: Reader, q: Request)
    requires ItemsIn(a.rest) == ItemsIn(b.rest)
    ensures Ask(a, q).1 == Ask(b, q).1 && ItemsIn(Ask(a, q).0.rest) == ItemsIn(Ask(b, q).0.rest)
  {
    assert |a.rest| == |ItemsIn(a.rest)| == |b.rest|;
    if a.rest != [] {
      assert ItemsIn(a.rest)[0] == a.rest[0].item && ItemsIn(b.rest)[0] == b.rest[0].item;
      assert ItemsIn(a.rest[1..]) == ItemsIn(a.rest)[1..] && ItemsIn(b.rest[1..]) == ItemsIn(b.rest)[1..];
    }
    hide ItemsIn;
  }

  lemma {:induction false} AnswersOfItems(a: Reader, b: Reader, asked: seq<Asked>)
    requires ItemsIn(a.rest) == ItemsIn(b.rest)
    ensures AskAll(a, asked).1 == AskAll(b, asked).1
    decreases |asked|
  {
    hide Ask, ItemsIn;
    if asked != [] {
      OneAnswerOfItems(a, b, asked[0].request);
      AnswersOfItems(Ask(a, asked[0].request).0, Ask(b, asked[0].request).0, asked[1..]);
    }
  }

  /** However the exchanges of two tapes are grouped into steps, if they mean the same no
      application can tell the tapes apart by their answers. */
  lemma GroupingDoesNotShow(a: seq<Step>, b: seq<Step>, asked: seq<Asked>)
    requires Timeless(a) && Timeless(b) && Meaning(a) == Meaning(b)
    ensures InStep(a, RESET) && InStep(b, RESET) && Replay(a, RESET, asked).1 == Replay(b, RESET, asked).1
  {
    AnyApplicationIsRead(a, asked);
    AnyApplicationIsRead(b, asked);
    hide MarksOf, Meaning, Replay;
    AnswersOfItems(Reader(MarksOf(a), false, false, 0), Reader(MarksOf(b), false, false, 0), asked);
  }

  /** A step that waits for serial bytes or for the clock turns other requests away, and SPI
      bytes even while it is busy, where it stands: each is counted, SPI bytes once for the
      step. */
  lemma WaitingStepsTurnAway(steps: seq<Step>, p: Player, a: Asked)
    requires WellFormed(steps) && InStep(steps, p) && p.step < |steps|
    requires steps[p.step].kind in {SerialIn, SerialOut} || (steps[p.step].kind == Busy && a.request.SpiOf?)
    ensures var (q, reply) := Play(steps, p, a);
            && q == p.(mismatches := p.mismatches + (if a.request.SpiOf? && p.stepBad then 0 else 1),
                       stepBad := p.stepBad || a.request.SpiOf?)
            && reply == match a.request
                        case WriteOf(_, _) => Status(3)
                        case ReadOf(_, _) => Data([])
                        case SpiOf(_) => Miso(0xFF)
  {
  }
}
