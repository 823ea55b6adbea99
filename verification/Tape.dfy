/** A tape and its player: what each request gets from the step the player stands at, and
    what is counted when it is not the request recorded there. */
module Tape {
  import opened Wrappers

  datatype Kind = Write | Read | SerialIn | SerialOut | Spi | Busy

  /** One step of the table. A Spi step holds `length` expected bytes and then the
      `length` bytes that answered them. The time and `refused` come from the recording. */
  datatype Step = Step(kind: Kind, status: nat, stop: bool, length: nat, request: nat, data: seq<bv8>,
                       delayUs: int, time: Option<int>, refused: bool)

  const ADDRESS_NACK: nat := 2
  const DATA_NACK: nat := 3

  predicate WellFormed(steps: seq<Step>) {
    forall i :: 0 <= i < |steps| ==> StepOk(steps[i])
  }

  predicate StepOk(s: Step) {
    if s.kind == Spi then s.length >= 1 && |s.data| == 2 * s.length else |s.data| == s.length
  }

  /** What a compiled table can hold: its length, request and status are bytes. */
  predicate Fits(s: Step) {
    s.length <= 255 && s.request <= 255 && s.status <= 255 && 0 <= s.delayUs < 0x1_0000_0000
  }

  datatype Request = WriteOf(data: seq<bv8>, stop: bool) | ReadOf(len: nat, stop: bool) | SpiOf(mosi: bv8)

  datatype Reply = Status(status: nat) | Data(bytes: seq<bv8>) | Miso(miso: bv8)

  datatype Asked = Asked(now: int, request: Request)

  /** Where the player stands. */
  datatype Player = Player(step: nat, armed: bool, dueAtUs: int, progress: nat, stepBad: bool,
                           exhaustedSaid: bool, mismatches: nat, busyRefusals: nat)

  const RESET := Player(0, false, 0, 0, false, false, 0, 0)

  /** Start the clock of a step that waits for its time. */
  function Armed(steps: seq<Step>, p: Player, now: int): Player {
    if p.step >= |steps| || p.armed then p
    else if steps[p.step].kind != SerialOut && steps[p.step].kind != Busy then p
    else p.(armed := true, dueAtUs := now + steps[p.step].delayUs)
  }

  function Finished(steps: seq<Step>, p: Player, now: int): (r: Player)
    requires WellFormed(steps)
    ensures InStep(steps, r)
  {
    Armed(steps, p.(step := p.step + 1, progress := 0, stepBad := false, armed := false), now)
  }

  function Mismatch(p: Player, n: nat): Player {
    p.(mismatches := p.mismatches + n)
  }

  /** Past the end, the first request is a mismatch and the rest are silent. */
  function PastEnd(p: Player): Player {
    Mismatch(p, if p.exhaustedSaid then 0 else 1).(exhaustedSaid := true)
  }

  /** Whether a busy step refuses; once its time has come the step is passed. */
  function BusyRefuses(steps: seq<Step>, p: Player, now: int): (r: (Player, bool))
    requires WellFormed(steps) && InStep(steps, p)
    ensures InStep(steps, r.0)
  {
    if p.step >= |steps| || steps[p.step].kind != Busy then (p, false)
    else
      var q := Armed(steps, p, now);
      if now < q.dueAtUs then (q.(busyRefusals := q.busyRefusals + 1), true)
      else (Finished(steps, q, now), false)
  }

  function Differ(b: bool): nat {
    if b then 1 else 0
  }

  function PlayWrite(steps: seq<Step>, p: Player, now: int, data: seq<bv8>, stop: bool): (r: (Player, Reply))
    requires WellFormed(steps) && InStep(steps, p)
    ensures InStep(steps, r.0)
  {
    var (q, refused) := BusyRefuses(steps, p, now);
    if refused then (q, Status(ADDRESS_NACK))
    else if q.step >= |steps| then (PastEnd(q), Status(ADDRESS_NACK))
    else
      var s := steps[q.step];
      if s.kind != Write then (Mismatch(q, 1), Status(DATA_NACK))
      else (Finished(steps, Mismatch(q, Differ(data != s.data) + Differ(stop != s.stop)), now), Status(s.status))
  }

  function PlayRead(steps: seq<Step>, p: Player, now: int, len: nat, stop: bool): (r: (Player, Reply))
    requires WellFormed(steps) && InStep(steps, p)
    ensures InStep(steps, r.0)
  {
    var (q, refused) := BusyRefuses(steps, p, now);
    if refused then (q, Data([]))
    else if q.step >= |steps| then (PastEnd(q), Data([]))
    else
      var s := steps[q.step];
      if s.kind != Read then (Mismatch(q, 1), Data([]))
      else
        var count := if len < s.length then len else s.length;
        (Finished(steps, Mismatch(q, Differ(s.request != 0 && len != s.request) + Differ(stop != s.stop)), now),
         Data(s.data[..count]))
  }

  /** SPI matches byte by byte and says so once for each step. A busy step does not
      refuse it: there is no address to refuse. */
  function PlaySpi(steps: seq<Step>, p: Player, now: int, mosi: bv8): (r: (Player, Reply))
    requires WellFormed(steps) && InStep(steps, p)
    ensures InStep(steps, r.0)
  {
    if p.step >= |steps| then (PastEnd(p), Miso(0xFF))
    else
      var s := steps[p.step];
      if s.kind != Spi then (Mismatch(p, Differ(!p.stepBad)).(stepBad := true), Miso(0xFF))
      else
        var bad := mosi != s.data[p.progress] && !p.stepBad;
        var q := Mismatch(p, Differ(bad)).(stepBad := p.stepBad || bad, progress := p.progress + 1);
        (if q.progress >= s.length then Finished(steps, q, now) else q, Miso(s.data[s.length + p.progress]))
  }

  /** The bytes matched so far are fewer than the step holds. */
  predicate InStep(steps: seq<Step>, p: Player) {
    if p.step < |steps| && steps[p.step].kind == Spi then p.progress < steps[p.step].length
    else p.progress == 0 || (p.step < |steps| && steps[p.step].kind == SerialIn)
  }

  function Play(steps: seq<Step>, p: Player, a: Asked): (r: (Player, Reply))
    requires WellFormed(steps) && InStep(steps, p)
    ensures InStep(steps, r.0)
  {
    match a.request
    case WriteOf(data, stop) => PlayWrite(steps, p, a.now, data, stop)
    case ReadOf(len, stop) => PlayRead(steps, p, a.now, len, stop)
    case SpiOf(mosi) => PlaySpi(steps, p, a.now, mosi)
  }

  function Replay(steps: seq<Step>, p: Player, asked: seq<Asked>): (r: (Player, seq<Reply>))
    requires WellFormed(steps) && InStep(steps, p)
    ensures |r.1| == |asked| && InStep(steps, r.0)
    decreases |asked|
  {
    if asked == [] then (p, [])
    else
      var (q, reply) := Play(steps, p, asked[0]);
      var (end, replies) := Replay(steps, q, asked[1..]);
      (end, [reply] + replies)
  }

  // --- What a tape means ---------------------------------------------------

  /** One exchange of the recording, whatever steps hold it. */
  datatype Item =
    | WriteItem(data: seq<bv8>, stop: bool, status: nat)
    | ReadItem(want: nat, stop: bool, got: seq<bv8>)
    | SpiItem(mosi: bv8, miso: bv8)

  function RequestOf(i: Item): Request {
    match i
    case WriteItem(data, stop, _) => WriteOf(data, stop)
    case ReadItem(want, stop, _) => ReadOf(want, stop)
    case SpiItem(mosi, _) => SpiOf(mosi)
  }

  function ReplyOf(i: Item): Reply {
    match i
    case WriteItem(_, _, status) => Status(status)
    case ReadItem(_, _, got) => Data(got)
    case SpiItem(_, miso) => Miso(miso)
  }

  predicate Exchanged(s: Step) {
    s.kind == Write || s.kind == Read || s.kind == Spi
  }

  /** A tape of exchanges only: nothing on it waits for the clock. */
  predicate Timeless(steps: seq<Step>) {
    WellFormed(steps) && forall i :: 0 <= i < |steps| ==> Exchanged(steps[i])
  }

  function ItemsOf(s: Step): seq<Item>
    requires StepOk(s) && Exchanged(s)
  {
    match s.kind
    case Write => [WriteItem(s.data, s.stop, s.status)]
    case Read => [ReadItem(s.request, s.stop, s.data)]
    case Spi => seq(s.length, i requires 0 <= i < s.length => SpiItem(s.data[i], s.data[s.length + i]))
  }

  /** The exchanges of a tape in order: merging SPI bytes into steps does not show here. */
  function Meaning(steps: seq<Step>): seq<Item>
    requires Timeless(steps)
  {
    if steps == [] then [] else ItemsOf(steps[0]) + Meaning(steps[1..])
  }

  lemma TimelessAppend(a: seq<Step>, b: seq<Step>)
    requires Timeless(a) && Timeless(b)
    ensures Timeless(a + b)
  {
  }

  lemma MeaningCons(s: Step, rest: seq<Step>)
    requires Timeless([s] + rest)
    ensures StepOk(s) && Exchanged(s) && Timeless(rest) && Meaning([s] + rest) == ItemsOf(s) + Meaning(rest)
  {
    hide ItemsOf;
    var all := [s] + rest;
    assert all[0] == s && all[1..] == rest;
    assert forall i :: 0 <= i < |rest| ==> rest[i] == all[i + 1];
  }

  lemma {:induction false} MeaningAppend(a: seq<Step>, b: seq<Step>)
    requires Timeless(a) && Timeless(b)
    ensures Timeless(a + b) && Meaning(a + b) == Meaning(a) + Meaning(b)
  {
    hide ItemsOf, StepOk, Exchanged;
    TimelessAppend(a, b);
    if a == [] {
      assert a + b == b;
    } else {
      var rest := a[1..];
      assert a == [a[0]] + rest && a + b == [a[0]] + (rest + b);
      MeaningCons(a[0], rest);
      MeaningCons(a[0], rest + b);
      hide Meaning, Timeless;
      MeaningAppend(rest, b);
    }
  }

  /** What is still to be played. */
  function Rest(steps: seq<Step>, p: Player): seq<Item>
    requires Timeless(steps) && InStep(steps, p)
  {
    if p.step >= |steps| then [] else ItemsOf(steps[p.step])[p.progress..] + Meaning(steps[p.step + 1..])
  }

  lemma RestAtStep(steps: seq<Step>, p: Player)
    requires Timeless(steps) && p.progress == 0
    ensures InStep(steps, p) && Rest(steps, p) == if p.step >= |steps| then [] else Meaning(steps[p.step..])
  {
    if p.step < |steps| {
      assert steps[p.step..][1..] == steps[p.step + 1..];
    }
  }

  lemma RestAtReset(steps: seq<Step>)
    requires Timeless(steps)
    ensures InStep(steps, RESET) && Rest(steps, RESET) == Meaning(steps)
  {
    RestAtStep(steps, RESET);
    assert steps[0..] == steps;
  }

  /** A request the tape takes for the one recorded: a recorded length of zero is not
      checked. */
  predicate Accepts(i: Item, r: Request) {
    match i
    case WriteItem(data, stop, _) => r == WriteOf(data, stop)
    case ReadItem(want, stop, _) => r.ReadOf? && r.stop == stop && (want == 0 || r.len == want)
    case SpiItem(mosi, _) => r == SpiOf(mosi)
  }

  /** Nothing was said without a mismatch having been counted. */
  predicate Honest(p: Player) {
    p.stepBad || p.exhaustedSaid ==> p.mismatches > 0
  }

  lemma FinishedRest(steps: seq<Step>, p: Player, now: int)
    requires Timeless(steps) && InStep(steps, p) && p.step < |steps| && |ItemsOf(steps[p.step])| == p.progress + 1
    ensures var q := Finished(steps, p, now);
            && InStep(steps, q) && Rest(steps, p) != [] && Rest(steps, q) == Rest(steps, p)[1..]
            && q.mismatches == p.mismatches && !q.stepBad && q.exhaustedSaid == p.exhaustedSaid
  {
    hide ItemsOf;
    var q := Finished(steps, p, now);
    RestAtStep(steps, q);
    assert ItemsOf(steps[p.step])[p.progress..] == [ItemsOf(steps[p.step])[p.progress]];
  }

  lemma RestHead(steps: seq<Step>, p: Player)
    requires Timeless(steps) && InStep(steps, p)
    ensures p.step >= |steps| ==> Rest(steps, p) == []
    ensures p.step < |steps| ==> p.progress < |ItemsOf(steps[p.step])|
    ensures p.step < |steps| ==> Rest(steps, p) != [] && Rest(steps, p)[0] == ItemsOf(steps[p.step])[p.progress]
  {
    hide Meaning;
  }

  /** What one request on a tape of exchanges does. While nothing has been counted, it is
      counted unless it is the one recorded next; when it is, the recorded reply is
      given and the rest of the recording remains. */
  ghost predicate Follows(steps: seq<Step>, p: Player, r: Request, q: Player, reply: Reply)
    requires Timeless(steps) && InStep(steps, p)
  {
    && InStep(steps, q) && Honest(q) && q.mismatches >= p.mismatches
    && (p.mismatches == 0 ==> (q.mismatches == 0 <==> Rest(steps, p) != [] && Accepts(Rest(steps, p)[0], r)))
    && (p.mismatches == 0 && q.mismatches == 0 ==> Rest(steps, q) == Rest(steps, p)[1..])
    && (Rest(steps, p) != [] && RequestOf(Rest(steps, p)[0]) == r ==> reply == LimitedReply(Rest(steps, p)[0]))
  }

  /** The recorded reply, cut to what was asked for. */
  function LimitedReply(i: Item): Reply {
    if i.ReadItem? && i.want < |i.got| then Data(i.got[..i.want]) else ReplyOf(i)
  }

  lemma PlayOne(steps: seq<Step>, p: Player, a: Asked)
    requires Timeless(steps) && InStep(steps, p) && Honest(p)
    ensures Follows(steps, p, a.request, Play(steps, p, a).0, Play(steps, p, a).1)
  {
    hide Rest, Meaning, Follows;
    match a.request
    case WriteOf(data, stop) => PlayOneWrite(steps, p, a.now, data, stop);
    case ReadOf(len, stop) => PlayOneRead(steps, p, a.now, len, stop);
    case SpiOf(mosi) => PlayOneSpi(steps, p, a.now, mosi);
  }

  lemma NeverBusy(steps: seq<Step>, p: Player, now: int)
    requires Timeless(steps) && InStep(steps, p)
    ensures BusyRefuses(steps, p, now) == (p, false)
  {
  }

  lemma OffPath(steps: seq<Step>, p: Player, r: Request, q: Player, reply: Reply)
    requires Timeless(steps) && InStep(steps, p) && Honest(p)
    requires p.step < |steps| ==> q == Mismatch(p, 1) && !(r.WriteOf? && steps[p.step].kind == Write)
    requires p.step >= |steps| ==> q == PastEnd(p)
    requires p.step < |steps| ==> !(r.ReadOf? && steps[p.step].kind == Read)
    requires !r.SpiOf?
    ensures Follows(steps, p, r, q, reply)
  {
    hide Rest, Meaning, ItemsOf;
    RestHead(steps, p);
    if p.step < |steps| {
      ItemsByKind(steps[p.step]);
      SameRest(steps, p, q);
    }
  }

  /** A step that ends with this request, the player as it stands just before. */
  lemma FinishFollows(steps: seq<Step>, p: Player, m: Player, n: nat, now: int, r: Request, reply: Reply)
    requires Timeless(steps) && InStep(steps, p) && Honest(p)
    requires p.step < |steps| && |ItemsOf(steps[p.step])| == p.progress + 1
    requires m.step == p.step && m.progress == p.progress && m.exhaustedSaid == p.exhaustedSaid
    requires m.mismatches == p.mismatches + n
    requires var item := ItemsOf(steps[p.step])[p.progress];
             (p.mismatches == 0 ==> (n == 0 <==> Accepts(item, r)))
             && (RequestOf(item) == r ==> reply == LimitedReply(item))
    ensures Follows(steps, p, r, Finished(steps, m, now), reply)
  {
    hide Accepts, RequestOf, LimitedReply, ItemsOf, Meaning, Rest, Follows;
    RestHead(steps, p);
    SameRest(steps, p, m);
    FinishedRest(steps, m, now);
    FollowsIf(steps, p, Finished(steps, m, now), n, r, reply);
  }

  lemma PlayOneWrite(steps: seq<Step>, p: Player, now: int, data: seq<bv8>, stop: bool)
    requires Timeless(steps) && InStep(steps, p) && Honest(p)
    ensures var (q, reply) := PlayWrite(steps, p, now, data, stop);
            Follows(steps, p, WriteOf(data, stop), q, reply)
  {
    hide Rest, Meaning, Finished, ItemsOf, BusyRefuses, Follows;
    NeverBusy(steps, p, now);
    if p.step < |steps| && steps[p.step].kind == Write {
      var s := steps[p.step];
      ItemsByKind(s);
      var n := Differ(data != s.data) + Differ(stop != s.stop);
      FinishFollows(steps, p, Mismatch(p, n), n, now, WriteOf(data, stop), Status(s.status));
    } else {
      var (q, reply) := PlayWrite(steps, p, now, data, stop);
      OffPath(steps, p, WriteOf(data, stop), q, reply);
    }
  }

  lemma SameRest(steps: seq<Step>, p: Player, q: Player)
    requires Timeless(steps) && InStep(steps, p) && q.step == p.step && q.progress == p.progress
    ensures InStep(steps, q) && Rest(steps, q) == Rest(steps, p)
  {
  }

  lemma PlayOneRead(steps: seq<Step>, p: Player, now: int, len: nat, stop: bool)
    requires Timeless(steps) && InStep(steps, p) && Honest(p)
    ensures var (q, reply) := PlayRead(steps, p, now, len, stop);
            Follows(steps, p, ReadOf(len, stop), q, reply)
  {
    hide Rest, Meaning, Finished, ItemsOf, BusyRefuses, Follows;
    NeverBusy(steps, p, now);
    if p.step < |steps| && steps[p.step].kind == Read {
      var s := steps[p.step];
      ItemsByKind(s);
      var n := Differ(s.request != 0 && len != s.request) + Differ(stop != s.stop);
      assert s.data[..|s.data|] == s.data && |s.data| == s.length;
      FinishFollows(steps, p, Mismatch(p, n), n, now, ReadOf(len, stop),
                    Data(s.data[..if len < s.length then len else s.length]));
    } else {
      var (q, reply) := PlayRead(steps, p, now, len, stop);
      OffPath(steps, p, ReadOf(len, stop), q, reply);
    }
  }

  lemma PlayOneSpi(steps: seq<Step>, p: Player, now: int, mosi: bv8)
    requires Timeless(steps) && InStep(steps, p) && Honest(p)
    ensures var (q, reply) := PlaySpi(steps, p, now, mosi);
            Follows(steps, p, SpiOf(mosi), q, reply)
  {
    hide Rest, Meaning, Finished, ItemsOf, Follows;
    if p.step < |steps| && steps[p.step].kind == Spi {
      var s := steps[p.step];
      SpiItemAt(s, p.progress);
      var bad := mosi != s.data[p.progress] && !p.stepBad;
      var said := Mismatch(p, Differ(bad)).(stepBad := p.stepBad || bad);
      var miso := Miso(s.data[s.length + p.progress]);
      if p.progress + 1 == s.length {
        FinishedForgets(steps, said, now);
        FinishFollows(steps, p, said, Differ(bad), now, SpiOf(mosi), miso);
      } else {
        MiddleFollows(steps, p, said, mosi, miso);
      }
    } else {
      OffSpi(steps, p, now, mosi);
    }
  }

  lemma SpiItemAt(s: Step, i: nat)
    requires StepOk(s) && s.kind == Spi && i < s.length
    ensures |ItemsOf(s)| == s.length && ItemsOf(s)[i] == SpiItem(s.data[i], s.data[s.length + i])
  {
  }

  lemma MiddleFollows(steps: seq<Step>, p: Player, said: Player, mosi: bv8, reply: Reply)
    requires Timeless(steps) && InStep(steps, p) && Honest(p) && p.step < |steps|
    requires steps[p.step].kind == Spi && p.progress + 1 < steps[p.step].length
    requires var s := steps[p.step];
             var bad := mosi != s.data[p.progress] && !p.stepBad;
             said == Mismatch(p, Differ(bad)).(stepBad := p.stepBad || bad)
             && reply == Miso(s.data[s.length + p.progress])
    ensures Follows(steps, p, SpiOf(mosi), said.(progress := p.progress + 1), reply)
  {
    hide Rest, Meaning, ItemsOf, Follows;
    RestHead(steps, p);
    SpiItemAt(steps[p.step], p.progress);
    SameRest(steps, p, said);
    NextByte(steps, said);
    var bad := mosi != steps[p.step].data[p.progress] && !p.stepBad;
    FollowsIf(steps, p, said.(progress := p.progress + 1), Differ(bad), SpiOf(mosi), reply);
  }

  lemma FollowsIf(steps: seq<Step>, p: Player, q: Player, n: nat, r: Request, reply: Reply)
    requires Timeless(steps) && InStep(steps, p) && InStep(steps, q) && Honest(q) && q.mismatches == p.mismatches + n
    requires Rest(steps, p) != [] && Rest(steps, q) == Rest(steps, p)[1..]
    requires var item := Rest(steps, p)[0];
             (p.mismatches == 0 ==> (n == 0 <==> Accepts(item, r)))
             && (RequestOf(item) == r ==> reply == LimitedReply(item))
    ensures Follows(steps, p, r, q, reply)
  {
    hide Rest, Timeless, InStep, Honest, Accepts, RequestOf, LimitedReply;
  }

  lemma OffSpi(steps: seq<Step>, p: Player, now: int, mosi: bv8)
    requires Timeless(steps) && InStep(steps, p) && Honest(p) && (p.step < |steps| ==> steps[p.step].kind != Spi)
    ensures var (q, reply) := PlaySpi(steps, p, now, mosi);
            Follows(steps, p, SpiOf(mosi), q, reply)
  {
    hide Rest, Meaning, Finished, ItemsOf;
    RestHead(steps, p);
    if p.step < |steps| {
      ItemsByKind(steps[p.step]);
      SameRest(steps, p, PlaySpi(steps, p, now, mosi).0);
    }
  }

  lemma FinishedForgets(steps: seq<Step>, p: Player, now: int)
    requires WellFormed(steps)
    ensures Finished(steps, p.(progress := p.progress + 1), now) == Finished(steps, p, now)
  {
  }

  lemma ItemsByKind(s: Step)
    requires StepOk(s) && Exchanged(s)
    ensures s.kind == Spi ==> |ItemsOf(s)| == s.length
    ensures s.kind == Spi ==> forall i :: 0 <= i < s.length ==> ItemsOf(s)[i].SpiItem?
    ensures s.kind == Write ==> ItemsOf(s) == [WriteItem(s.data, s.stop, s.status)]
    ensures s.kind == Read ==> ItemsOf(s) == [ReadItem(s.request, s.stop, s.data)]
  {
  }

  lemma DropOne<T>(items: seq<T>, k: nat, rest: seq<T>)
    requires k < |items|
    ensures items[k..] + rest != [] && (items[k..] + rest)[1..] == items[k + 1..] + rest
  {
  }

  lemma NextByte(steps: seq<Step>, p: Player)
    requires Timeless(steps) && InStep(steps, p) && p.step < |steps|
    requires steps[p.step].kind == Spi && p.progress + 1 < steps[p.step].length
    ensures var q := p.(progress := p.progress + 1);
            InStep(steps, q) && Rest(steps, p) != [] && Rest(steps, q) == Rest(steps, p)[1..]
  {
    hide Meaning, ItemsOf, Rest;
    assert InStep(steps, p.(progress := p.progress + 1));
    SpiItemAt(steps[p.step], p.progress);
    RestIs(steps, p);
    RestIs(steps, p.(progress := p.progress + 1));
    DropOne(ItemsOf(steps[p.step]), p.progress, Meaning(steps[p.step + 1..]));
  }

  lemma RestIs(steps: seq<Step>, p: Player)
    requires Timeless(steps) && InStep(steps, p) && p.step < |steps|
    ensures p.progress <= |ItemsOf(steps[p.step])|
    ensures Rest(steps, p) == ItemsOf(steps[p.step])[p.progress..] + Meaning(steps[p.step + 1..])
  {
    hide Meaning;
  }

  // --- Fidelity and detection ----------------------------------------------

  function RequestsOf(items: seq<Item>): (r: seq<Request>)
    ensures |r| == |items|
  {
    seq(|items|, i requires 0 <= i < |items| => RequestOf(items[i]))
  }

  function RepliesOf(items: seq<Item>): (r: seq<Reply>)
    ensures |r| == |items|
  {
    seq(|items|, i requires 0 <= i < |items| => ReplyOf(items[i]))
  }

  function Requests(asked: seq<Asked>): (r: seq<Request>)
    ensures |r| == |asked|
  {
    seq(|asked|, i requires 0 <= i < |asked| => asked[i].request)
  }

  /** A read never answers more than was asked for. */
  predicate Answerable(items: seq<Item>) {
    forall i :: 0 <= i < |items| && items[i].ReadItem? ==> |items[i].got| <= items[i].want
  }

  predicate AllAccepted(items: seq<Item>, asked: seq<Asked>) {
    && |asked| <= |items|
    && forall i :: 0 <= i < |asked| ==> Accepts(items[i], asked[i].request)
  }

  /** Departures are detected exactly: nothing is counted as long as, and only as long
      as, each request is the one recorded at its place, SPI bytes included. */
  lemma {:induction false} DetectsExactly(steps: seq<Step>, p: Player, asked: seq<Asked>)
    requires Timeless(steps) && InStep(steps, p) && Honest(p)
    ensures Replay(steps, p, asked).0.mismatches >= p.mismatches
    ensures p.mismatches == 0 ==>
              (Replay(steps, p, asked).0.mismatches == 0 <==> AllAccepted(Rest(steps, p), asked))
    decreases |asked|
  {
    if asked != [] {
      PlayOne(steps, p, asked[0]);
      var q := Play(steps, p, asked[0]).0;
      hide Play, Rest, Accepts;
      DetectsExactly(steps, q, asked[1..]);
      if p.mismatches == 0 && q.mismatches == 0 {
        AcceptedCons(Rest(steps, p), asked);
      }
    }
  }

  lemma AcceptedCons(items: seq<Item>, asked: seq<Asked>)
    requires asked != [] && items != []
    ensures AllAccepted(items, asked) <==> Accepts(items[0], asked[0].request) && AllAccepted(items[1..], asked[1..])
  {
    if Accepts(items[0], asked[0].request) && AllAccepted(items[1..], asked[1..]) {
      forall i | 0 <= i < |asked|
        ensures Accepts(items[i], asked[i].request)
      {
        if i > 0 {
          assert items[i] == items[1..][i - 1] && asked[i] == asked[1..][i - 1];
        }
      }
    }
  }

  /** When every recorded read asked for something, that means: the requests are a prefix
      of the recorded ones. */
  lemma DetectsDepartures(steps: seq<Step>, asked: seq<Asked>)
    requires Timeless(steps)
    requires forall i :: 0 <= i < |Meaning(steps)| && Meaning(steps)[i].ReadItem? ==> Meaning(steps)[i].want > 0
    ensures Replay(steps, RESET, asked).0.mismatches == 0 <==> Requests(asked) <= RequestsOf(Meaning(steps))
  {
    hide Replay, Meaning, Rest;
    RestAtReset(steps);
    DetectsExactly(steps, RESET, asked);
    var items := Meaning(steps);
    if AllAccepted(items, asked) {
      assert forall i :: 0 <= i < |asked| ==> Requests(asked)[i] == RequestsOf(items)[i];
    } else if Requests(asked) <= RequestsOf(items) {
      forall i | 0 <= i < |asked|
        ensures Accepts(items[i], asked[i].request)
      {
        assert Requests(asked)[i] == RequestsOf(items)[i];
      }
    }
  }

  /** A recorded read of nothing is where detection ends: there, a read of any length
      passes. */
  lemma ZeroReadHidesDepartures(steps: seq<Step>, before: seq<Asked>, now: int, len: nat)
    requires Timeless(steps) && |before| < |Meaning(steps)|
    requires Requests(before) == RequestsOf(Meaning(steps))[..|before|]
    requires Meaning(steps)[|before|].ReadItem? && Meaning(steps)[|before|].want == 0
    ensures Replay(steps, RESET, before + [Asked(now, ReadOf(len, Meaning(steps)[|before|].stop))]).0.mismatches == 0
  {
    hide Replay, Meaning, Rest;
    var items := Meaning(steps);
    var asked := before + [Asked(now, ReadOf(len, items[|before|].stop))];
    RestAtReset(steps);
    forall i | 0 <= i < |asked|
      ensures Accepts(items[i], asked[i].request)
    {
      if i < |before| {
        assert Requests(before)[i] == RequestsOf(items)[i];
        assert before[i].request == RequestOf(items[i]);
      }
    }
    DetectsExactly(steps, RESET, asked);
  }

  lemma PlayNext(steps: seq<Step>, p: Player, a: Asked)
    requires Timeless(steps) && InStep(steps, p) && Honest(p) && p.mismatches == 0
    requires Rest(steps, p) != [] && RequestOf(Rest(steps, p)[0]) == a.request && Answerable(Rest(steps, p))
    ensures var (q, reply) := Play(steps, p, a);
            && Honest(q) && q.mismatches == 0 && Rest(steps, q) == Rest(steps, p)[1..]
            && reply == ReplyOf(Rest(steps, p)[0]) && Answerable(Rest(steps, q))
  {
    hide Play, Rest;
    PlayOne(steps, p, a);
  }

  lemma RequestsTail(items: seq<Item>, asked: seq<Asked>)
    requires asked != [] && Requests(asked) == RequestsOf(items)
    ensures asked[0].request == RequestOf(items[0]) && Requests(asked[1..]) == RequestsOf(items[1..])
    ensures RepliesOf(items) == [ReplyOf(items[0])] + RepliesOf(items[1..])
  {
    assert asked[0].request == Requests(asked)[0];
    assert Requests(asked[1..]) == Requests(asked)[1..];
    assert RequestsOf(items[1..]) == RequestsOf(items)[1..];
  }

  /** Asked the recorded requests, at any times, the tape gives the recorded replies,
      counts nothing and finishes. */
  lemma {:induction false} ReplaysFaithfully(steps: seq<Step>, p: Player, asked: seq<Asked>)
    requires Timeless(steps) && InStep(steps, p) && Honest(p) && p.mismatches == 0
    requires Answerable(Rest(steps, p)) && Requests(asked) == RequestsOf(Rest(steps, p))
    ensures var (end, replies) := Replay(steps, p, asked);
            replies == RepliesOf(Rest(steps, p)) && end.mismatches == 0 && end.step >= |steps|
    decreases |asked|
  {
    hide Play, Rest, WellFormed, Answerable, Honest, RequestsOf, RepliesOf, Requests, InStep, Exchanged;
    if asked == [] {
      RestHead(steps, p);
    } else {
      RequestsTail(Rest(steps, p), asked);
      PlayNext(steps, p, asked[0]);
      ReplaysFaithfully(steps, Play(steps, p, asked[0]).0, asked[1..]);
    }
  }
}
