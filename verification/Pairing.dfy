/** Matching each response of a log to the request it answers. */
module Pairing {
  import opened Wrappers

  datatype Body =
    | I2cReq(addr: Option<nat>, sent: seq<bv8>, stop: bool)
    | RdReq(addr: Option<nat>, want: nat, stop: bool)
    | I2cResp(status: Option<nat>)
    | RdResp(rdStatus: Option<nat>, len: nat, data: seq<bv8>)
    | SpiReq(mosi: seq<bv8>)
    | SpiResp(miso: seq<bv8>)
    | SpiXfer(mosi: seq<bv8>, miso: seq<bv8>)
    | SpiBulk
    | Diag
    | Other

  /** One line of the log. `seq` numbers it, `link` names the line it answers. */
  datatype Event = Event(number: Option<nat>, link: Option<nat>, time: Option<int>, body: Body)

  /** An I2C transfer: a request, and what answered it. */
  datatype Xfer = Xfer(write: bool, addr: Option<nat>, stop: bool, sent: seq<bv8>, want: nat,
                       answered: bool, status: Option<nat>, got: seq<bv8>, gotLen: nat, truncated: bool)

  predicate IsRequest(e: Event) {
    e.body.I2cReq? || e.body.RdReq?
  }

  predicate IsResponse(e: Event) {
    e.body.I2cResp? || e.body.RdResp?
  }

  function NewXfer(e: Event): Xfer
    requires IsRequest(e)
  {
    match e.body
    case I2cReq(addr, sent, stop) => Xfer(true, addr, stop, sent, 0, false, None, [], 0, false)
    case RdReq(addr, want, stop) => Xfer(false, addr, stop, [], want, false, None, [], 0, false)
  }

  /** A write without a status counts as 255; a read keeps no more bytes than it says. */
  function AnsweredBy(x: Xfer, e: Event): Xfer
    requires IsResponse(e) && x.write == e.body.I2cResp?
  {
    match e.body
    case I2cResp(status) => x.(answered := true, status := Some(if status.Some? then status.value else 255))
    case RdResp(status, len, data) =>
      x.(answered := true, status := if status.Some? then status else x.status,
         got := if |data| > len then data[..len] else data, gotLen := len, truncated := |data| < len)
  }

  /** The transfers found so far, at the places of their requests, and the numbered
      requests whose number no response has named. */
  datatype Pairs = Pairs(cells: seq<Option<Xfer>>, pending: map<nat, nat>)

  const NONE := Pairs([], map[])

  predicate PairsOk(p: Pairs) {
    forall k :: k in p.pending ==> p.pending[k] < |p.cells| && p.cells[p.pending[k]].Some?
  }

  /** The first request of a kind that nothing has answered. */
  function FirstOpen(cells: seq<Option<Xfer>>, write: bool): (r: Option<nat>)
    ensures r.Some? ==> r.value < |cells| && cells[r.value].Some? && cells[r.value].value.write == write
  {
    if cells == [] then None
    else if cells[0].Some? && cells[0].value.write == write && !cells[0].value.answered then Some(0)
    else
      var r := FirstOpen(cells[1..], write);
      if r.Some? then Some(r.value + 1) else None
  }

  /** The request a response answers: the one its link names if that is pending and of
      its kind, else the first open one of its kind. */
  function Target(p: Pairs, e: Event): (r: Option<nat>)
    requires PairsOk(p) && IsResponse(e)
    ensures r.Some? ==> r.value < |p.cells| && p.cells[r.value].Some? && p.cells[r.value].value.write == e.body.I2cResp?
  {
    if e.link.Some? && e.link.value in p.pending && p.cells[p.pending[e.link.value]].value.write == e.body.I2cResp?
    then Some(p.pending[e.link.value])
    else FirstOpen(p.cells, e.body.I2cResp?)
  }

  /** One line. A linked response takes the link out of the pending ones even when its
      kind is wrong. */
  function PairStep(p: Pairs, e: Event): (r: Pairs)
    requires PairsOk(p)
    ensures PairsOk(r) && |r.cells| == |p.cells| + 1
  {
    if IsRequest(e) then
      Pairs(p.cells + [Some(NewXfer(e))],
            if e.number.Some? then p.pending[e.number.value := |p.cells|] else p.pending)
    else if IsResponse(e) then
      var t := Target(p, e);
      Pairs((if t.Some? then p.cells[t.value := Some(AnsweredBy(p.cells[t.value].value, e))] else p.cells) + [None],
            if e.link.Some? then p.pending - {e.link.value} else p.pending)
    else p.(cells := p.cells + [None])
  }

  function PairFrom(p: Pairs, events: seq<Event>): (r: Pairs)
    requires PairsOk(p)
    ensures PairsOk(r) && |r.cells| == |p.cells| + |events|
    decreases |events|
  {
    if events == [] then p else PairFrom(PairStep(p, events[0]), events[1..])
  }

  /** What each line of a log turned out to be: a transfer at its request's line. */
  function Paired(events: seq<Event>): (r: seq<Option<Xfer>>)
    ensures |r| == |events|
  {
    PairFrom(NONE, events).cells
  }

  lemma {:induction false} PairAppend(p: Pairs, a: seq<Event>, b: seq<Event>)
    requires PairsOk(p)
    ensures PairFrom(p, a + b) == PairFrom(PairFrom(p, a), b)
    decreases |a|
  {
    if a == [] {
      assert a + b == b;
    } else {
      assert (a + b)[0] == a[0] && (a + b)[1..] == a[1..] + b;
      PairAppend(PairStep(p, a[0]), a[1..], b);
    }
  }

  // --- The loop over lists -------------------------------------------------

  /** A transfer with the line of its request. */
  datatype Placed = Placed(index: nat, xfer: Xfer)

  /** The lines of a kind of request, in order. */
  ghost predicate Queue(q: seq<nat>, cells: seq<Option<Xfer>>, write: bool) {
    && (forall j, k :: 0 <= j < k < |q| ==> q[j] < q[k])
    && (forall i :: i in q <==> 0 <= i < |cells| && cells[i].Some? && cells[i].value.write == write)
  }

  /** The answered transfers, in the order of their requests. */
  ghost predicate Listed(found: seq<Placed>, cells: seq<Option<Xfer>>) {
    && (forall j, k :: 0 <= j < k < |found| ==> found[j].index < found[k].index)
    && (forall p :: p in found <==> p.index < |cells| && cells[p.index] == Some(p.xfer) && p.xfer.answered)
  }

  lemma {:induction false} FirstOpenIs(cells: seq<Option<Xfer>>, at: nat)
    requires at < |cells| && cells[at].Some? && !cells[at].value.answered
    requires forall i :: 0 <= i < at && cells[i].Some? && cells[i].value.write == cells[at].value.write ==>
                           cells[i].value.answered
    ensures FirstOpen(cells, cells[at].value.write) == Some(at)
  {
    if at > 0 {
      FirstOpenIs(cells[1..], at - 1);
    }
  }

  lemma {:induction false} NoneOpen(cells: seq<Option<Xfer>>, write: bool)
    requires forall i :: 0 <= i < |cells| && cells[i].Some? && cells[i].value.write == write ==> cells[i].value.answered
    ensures FirstOpen(cells, write) == None
  {
    if cells != [] {
      NoneOpen(cells[1..], write);
    }
  }

  /** The first of a queue that nothing has answered. The objects are found through the
      lines of their requests. */
  method FirstUnanswered(queue: seq<nat>, objects: map<nat, Xfer>, ghost cells: seq<Option<Xfer>>, ghost write: bool)
    returns (r: Option<nat>)
    requires Queue(queue, cells, write) && Objects(objects, cells)
    ensures r == FirstOpen(cells, write)
  {
    var k := 0;
    while k < |queue|
      invariant 0 <= k <= |queue|
      invariant forall j :: 0 <= j < k ==> queue[j] in queue && cells[queue[j]].value.answered
    {
      var i := queue[k];
      assert i in queue;
      if !objects[i].answered {
        forall h | 0 <= h < i && cells[h].Some? && cells[h].value.write == write
          ensures cells[h].value.answered
        {
          assert h in queue;
          var j :| 0 <= j < |queue| && queue[j] == h;
        }
        FirstOpenIs(cells, i);
        return Some(i);
      }
      k := k + 1;
    }
    NoneOpen(cells, write);
    return None;
  }

  lemma StepQueue(q: seq<nat>, p: Pairs, e: Event, write: bool)
    requires PairsOk(p) && Queue(q, p.cells, write)
    ensures Queue(if IsRequest(e) && NewXfer(e).write == write then q + [|p.cells|] else q, PairStep(p, e).cells, write)
  {
    if IsRequest(e) {
      PushKind(q, p.cells, NewXfer(e), write);
    } else {
      var next := PairStep(p, e).cells;
      SameKinds(q, p.cells, next, write) by {
        forall i | 0 <= i < |p.cells|
          ensures next[i].Some? == p.cells[i].Some? && (next[i].Some? ==> next[i].value.write == p.cells[i].value.write)
        {
        }
      }
    }
  }

  lemma PushKind(q: seq<nat>, cells: seq<Option<Xfer>>, x: Xfer, write: bool)
    requires Queue(q, cells, write)
    ensures Queue(if x.write == write then q + [|cells|] else q, cells + [Some(x)], write)
  {
    forall j | 0 <= j < |q|
      ensures q[j] < |cells|
    {
      assert q[j] in q;
    }
    if x.write == write {
      assert |cells| in q + [|cells|];
    }
  }

  lemma SameKinds(q: seq<nat>, was: seq<Option<Xfer>>, now: seq<Option<Xfer>>, write: bool)
    requires Queue(q, was, write) && |now| == |was| + 1 && now[|was|].None?
    requires forall i :: 0 <= i < |was| ==>
                           now[i].Some? == was[i].Some? && (now[i].Some? ==> now[i].value.write == was[i].value.write)
    ensures Queue(q, now, write)
  {
  }

  /** The list of transfers, by line. */
  ghost predicate InOrder(order: seq<nat>, objects: map<nat, Xfer>) {
    && (forall j, k :: 0 <= j < k < |order| ==> order[j] < order[k])
    && (forall i :: i in order <==> i in objects)
  }

  lemma OrderPush(order: seq<nat>, objects: map<nat, Xfer>, n: nat, x: Xfer)
    requires InOrder(order, objects) && forall i :: i in objects ==> i < n
    ensures InOrder(order + [n], objects[n := x])
  {
    forall j | 0 <= j < |order|
      ensures order[j] < n
    {
      assert order[j] in order;
    }
  }

  /** The objects are the transfers found so far. */
  ghost predicate Objects(objects: map<nat, Xfer>, cells: seq<Option<Xfer>>) {
    && (forall i :: i in objects <==> 0 <= i < |cells| && cells[i].Some?)
    && (forall i :: i in objects ==> objects[i] == cells[i].value)
  }

  lemma StepObjects(objects: map<nat, Xfer>, p: Pairs, e: Event)
    requires PairsOk(p) && Objects(objects, p.cells)
    ensures IsRequest(e) ==> Objects(objects[|p.cells| := NewXfer(e)], PairStep(p, e).cells)
    ensures IsResponse(e) ==>
              var t := Target(p, e);
              && (t.Some? ==> t.value in objects && objects[t.value].write == e.body.I2cResp?
                              && Objects(objects[t.value := AnsweredBy(objects[t.value], e)], PairStep(p, e).cells))
              && (t.None? ==> Objects(objects, PairStep(p, e).cells))
    ensures !IsRequest(e) && !IsResponse(e) ==> Objects(objects, PairStep(p, e).cells)
  {
    hide AnsweredBy, NewXfer;
    if IsResponse(e) {
      var t := Target(p, e);
      assert t.Some? ==> p.cells[t.value].Some? && objects[t.value] == p.cells[t.value].value;
    }
  }

  lemma OrderSame(order: seq<nat>, objects: map<nat, Xfer>, i: nat, x: Xfer)
    requires InOrder(order, objects) && i in objects
    ensures InOrder(order, objects[i := x])
  {
  }

  /** The request a response goes to: by its link, else the first open one of its kind. */
  method FindRequest(e: Event, objects: map<nat, Xfer>, pending: map<nat, nat>, queue: seq<nat>, ghost p: Pairs)
    returns (x: Option<nat>)
    requires IsResponse(e) && PairsOk(p) && pending == p.pending
    requires Objects(objects, p.cells) && Queue(queue, p.cells, e.body.I2cResp?)
    ensures x == Target(p, e)
  {
    hide Queue;
    x := None;
    if e.link.Some? && e.link.value in pending {
      x := Some(pending[e.link.value]);
    }
    if x.None? || objects[x.value].write != e.body.I2cResp? {
      x := FirstUnanswered(queue, objects, p.cells, e.body.I2cResp?);
    }
  }

  lemma PendingStep(p: Pairs, e: Event)
    requires PairsOk(p)
    ensures PairStep(p, e).pending ==
            if IsRequest(e) && e.number.Some? then p.pending[e.number.value := |p.cells|]
            else if IsResponse(e) && e.link.Some? then p.pending - {e.link.value}
            else p.pending
  {
  }

  /** What the loop holds: the objects, named by the lines of their requests, in a list,
      a dictionary by number, and a queue of each kind. */
  datatype Held = Held(objects: map<nat, Xfer>, order: seq<nat>, pending: map<nat, nat>,
                       openWrites: seq<nat>, openReads: seq<nat>)

  ghost predicate Holds(h: Held, p: Pairs) {
    && PairsOk(p) && h.pending == p.pending && Objects(h.objects, p.cells) && InOrder(h.order, h.objects)
    && Queue(h.openWrites, p.cells, true) && Queue(h.openReads, p.cells, false)
  }

  /** One turn of the matching loop. */
  method PairLine(h: Held, e: Event, n: nat, ghost p: Pairs) returns (r: Held)
    requires Holds(h, p) && n == |p.cells|
    ensures Holds(r, PairStep(p, e))
  {
    StepQueue(h.openWrites, p, e, true);
    StepQueue(h.openReads, p, e, false);
    StepObjects(h.objects, p, e);
    PendingStep(p, e);
    hide Queue, AnsweredBy, PairStep, Target, PairsOk, InOrder;
    r := h;
    if IsRequest(e) {
      var x := NewXfer(e);
      OrderPush(h.order, h.objects, n, x);
      r := r.(objects := r.objects[n := x], order := r.order + [n]);
      if e.number.Some? {
        r := r.(pending := r.pending[e.number.value := n]);
      }
      if x.write {
        r := r.(openWrites := r.openWrites + [n]);
      } else {
        r := r.(openReads := r.openReads + [n]);
      }
    } else if IsResponse(e) {
      var x := FindRequest(e, h.objects, h.pending, if e.body.I2cResp? then h.openWrites else h.openReads, p);
      if e.link.Some? {
        r := r.(pending := r.pending - {e.link.value});
      }
      if x.Some? {
        OrderSame(h.order, h.objects, x.value, AnsweredBy(h.objects[x.value], e));
        r := r.(objects := r.objects[x.value := AnsweredBy(r.objects[x.value], e)]);
      }
    }
  }

  /** The matching loop finds the answered transfers of the log, in order. */
  method PairTransfers(events: seq<Event>) returns (found: seq<Placed>)
    ensures Listed(found, Paired(events))
  {
    hide Holds, PairStep;
    var h := Held(map[], [], map[], [], []);
    ghost var p := NONE;
    assert Holds(h, p) by {
      NothingHeld();
    }
    assert events[0..] == events;
    for n := 0 to |events|
      invariant PairsOk(p) && |p.cells| == n && Holds(h, p)
      invariant PairFrom(p, events[n..]).cells == Paired(events)
    {
      assert events[n..][1..] == events[n + 1..];
      h := PairLine(h, events[n], n, p);
      p := PairStep(p, events[n]);
    }
    HoldsListed(h, p);
    found := OnlyAnswered(h.order, h.objects, p.cells);
  }

  lemma NothingHeld()
    ensures Holds(Held(map[], [], map[], [], []), NONE)
  {
  }

  lemma HoldsListed(h: Held, p: Pairs)
    requires Holds(h, p)
    ensures Objects(h.objects, p.cells) && InOrder(h.order, h.objects)
  {
  }

  method OnlyAnswered(order: seq<nat>, objects: map<nat, Xfer>, ghost cells: seq<Option<Xfer>>)
    returns (found: seq<Placed>)
    requires Objects(objects, cells)
    requires InOrder(order, objects)
    ensures Listed(found, cells)
  {
    found := [];
    for k := 0 to |order|
      invariant forall j, k :: 0 <= j < k < |found| ==> found[j].index < found[k].index
      invariant forall p :: p in found <==> p.index in order[..k] && objects[p.index] == p.xfer && p.xfer.answered
    {
      assert order[k] in order;
      assert order[..k + 1] == order[..k] + [order[k]];
      if objects[order[k]].answered {
        found := found + [Placed(order[k], objects[order[k]])];
      }
    }
    assert order[..|order|] == order;
  }

  // --- Sessions ------------------------------------------------------------

  /** Lines that are no transfer. */
  predicate Noise(events: seq<Event>) {
    forall i :: 0 <= i < |events| ==> events[i].body.Diag? || events[i].body.Other?
  }

  /** One exchange as an environment logs it: any lines before it, its request, any lines
      while the device runs, and its response, which may name its request or not. */
  datatype Exchange = Exchange(before: seq<Event>, request: Event, during: seq<Event>, response: Event)

  /** Every byte is kept, and a response follows its own request. */
  predicate Logged(x: Exchange) {
    && Noise(x.before) && Noise(x.during)
    && (x.response.link.Some? ==> x.response.link == x.request.number)
    && match x.request.body
       case I2cReq(_, _, _) => x.response.body.I2cResp?
       case RdReq(_, _, _) => x.response.body.RdResp? && x.response.body.len == |x.response.body.data|
       case SpiReq(mosi) => |mosi| == 1 && x.response.body.SpiResp? && |x.response.body.miso| == 1
       case _ => false
  }

  function Lines(x: Exchange): seq<Event> {
    x.before + [x.request] + x.during + [x.response]
  }

  function Log(session: seq<Exchange>): seq<Event> {
    if session == [] then [] else Lines(session[0]) + Log(session[1..])
  }

  predicate Session(session: seq<Exchange>) {
    forall i :: 0 <= i < |session| ==> Logged(session[i])
  }

  function Blank(n: nat): (r: seq<Option<Xfer>>)
    ensures |r| == n
  {
    seq(n, i => None)
  }

  /** The transfer of an exchange with its own answer. */
  function XferOf(x: Exchange): Option<Xfer>
    requires Logged(x)
  {
    if x.request.body.SpiReq? then None else Some(AnsweredBy(NewXfer(x.request), x.response))
  }

  function CellsOf(x: Exchange): (r: seq<Option<Xfer>>)
    requires Logged(x)
    ensures |r| == |Lines(x)|
  {
    Blank(|x.before|) + [XferOf(x)] + Blank(|x.during|) + [None]
  }

  function SessionCells(session: seq<Exchange>): (r: seq<Option<Xfer>>)
    requires Session(session)
    ensures |r| == |Log(session)|
  {
    if session == [] then [] else CellsOf(session[0]) + SessionCells(session[1..])
  }

  predicate AllAnswered(cells: seq<Option<Xfer>>) {
    forall i :: 0 <= i < |cells| && cells[i].Some? ==> cells[i].value.answered
  }

  lemma {:induction false} PairNoise(p: Pairs, noise: seq<Event>)
    requires PairsOk(p) && Noise(noise)
    ensures PairFrom(p, noise) == p.(cells := p.cells + Blank(|noise|))
    decreases |noise|
  {
    if noise == [] {
      assert p.cells + Blank(0) == p.cells;
    } else {
      PairNoise(PairStep(p, noise[0]), noise[1..]);
      assert p.cells + [None] + Blank(|noise| - 1) == p.cells + Blank(|noise|);
    }
  }

  /** Where every earlier request has its answer, a request gets its own. */
  lemma PairRequest(p: Pairs, x: Exchange)
    requires PairsOk(p) && AllAnswered(p.cells) && Logged(x) && !x.request.body.SpiReq?
    ensures var p2 := PairStep(p, x.request);
            var p3 := p2.(cells := p2.cells + Blank(|x.during|));
            PairStep(p3, x.response).cells == p.cells + [XferOf(x)] + Blank(|x.during|) + [None]
  {
    var p2 := PairStep(p, x.request);
    var p3 := p2.(cells := p2.cells + Blank(|x.during|));
    var at := |p.cells|;
    assert p3.cells[at] == Some(NewXfer(x.request));
    FirstOpenIs(p3.cells, at);
    assert Target(p3, x.response) == Some(at);
    assert p3.cells[at := XferOf(x)] == p.cells + [XferOf(x)] + Blank(|x.during|);
  }

  lemma PairExchange(p: Pairs, x: Exchange)
    requires PairsOk(p) && AllAnswered(p.cells) && Logged(x)
    ensures PairFrom(p, Lines(x)).cells == p.cells + CellsOf(x)
  {
    hide PairFrom, Target, AnsweredBy;
    PairLines(p, x);
    PairNoise(p, x.before);
    var p1 := p.(cells := p.cells + Blank(|x.before|));
    PairNoise(PairStep(p1, x.request), x.during);
    if x.request.body.SpiReq? {
      SpiPairs(p1, x);
    } else {
      PairRequest(p1, x);
    }
    CellsSplit(p.cells, x);
  }

  lemma SpiPairs(p: Pairs, x: Exchange)
    requires PairsOk(p) && Logged(x) && x.request.body.SpiReq?
    ensures var p2 := PairStep(p, x.request);
            var p3 := p2.(cells := p2.cells + Blank(|x.during|));
            PairStep(p3, x.response).cells == p.cells + [XferOf(x)] + Blank(|x.during|) + [None]
  {
  }

  lemma CellsSplit(cells: seq<Option<Xfer>>, x: Exchange)
    requires Logged(x)
    ensures cells + Blank(|x.before|) + [XferOf(x)] + Blank(|x.during|) + [None] == cells + CellsOf(x)
  {
  }

  lemma PairLines(p: Pairs, x: Exchange)
    requires PairsOk(p)
    ensures PairFrom(p, Lines(x)) ==
            PairStep(PairFrom(PairStep(PairFrom(p, x.before), x.request), x.during), x.response)
  {
    var p1 := PairFrom(p, x.before);
    var p2 := PairStep(p1, x.request);
    PairAppend(p, x.before + [x.request] + x.during, [x.response]);
    PairAppend(p, x.before + [x.request], x.during);
    PairAppend(p, x.before, [x.request]);
    assert PairFrom(p1, [x.request]) == p2;
    var p3 := PairFrom(p2, x.during);
    assert PairFrom(p3, [x.response]) == PairStep(p3, x.response);
  }

  lemma {:induction false} PairSession(p: Pairs, session: seq<Exchange>)
    requires PairsOk(p) && AllAnswered(p.cells) && Session(session)
    ensures PairFrom(p, Log(session)).cells == p.cells + SessionCells(session)
    decreases |session|
  {
    if session == [] {
    } else {
      hide PairFrom, CellsOf, AllAnswered, Logged, PairsOk, Lines;
      var x := session[0];
      PairAppend(p, Lines(x), Log(session[1..]));
      PairExchange(p, x);
      CellsAnswered(x);
      BothAnswered(p.cells, CellsOf(x));
      PairSession(PairFrom(p, Lines(x)), session[1..]);
      Regroup(p.cells, CellsOf(x), SessionCells(session[1..]));
    }
  }

  lemma Regroup<T>(a: seq<T>, b: seq<T>, c: seq<T>)
    ensures a + b + c == a + (b + c)
  {
  }

  lemma BothAnswered(a: seq<Option<Xfer>>, b: seq<Option<Xfer>>)
    requires AllAnswered(a) && AllAnswered(b)
    ensures AllAnswered(a + b)
  {
  }

  lemma CellsAnswered(x: Exchange)
    requires Logged(x)
    ensures AllAnswered(CellsOf(x))
  {
  }

  /** In the log of any session, linked or not, with any other lines between, every
      request is paired with its own response and with no other. */
  lemma {:induction false} EveryRequestGetsItsAnswer(session: seq<Exchange>)
    requires Session(session)
    ensures Paired(Log(session)) == SessionCells(session)
  {
    PairSession(NONE, session);
  }

  // --- Overlapping exchanges -----------------------------------------------

  /** Response k answers request i by its link. */
  predicate Answers(events: seq<Event>, k: nat, i: nat)
    requires k < |events| && i < |events|
  {
    IsRequest(events[i]) && IsResponse(events[k]) && events[k].link.Some? && events[k].link == events[i].number
  }

  predicate Numbered(e: Event) {
    IsRequest(e) && e.number.Some?
  }

  /** A log whose responses all name their requests: no two requests share a number, and
      each response names an earlier request of its kind that no other response names.
      How the exchanges overlap, and what lies between, is open. */
  ghost predicate Linked(events: seq<Event>) {
    && (forall i, j :: 0 <= i < j < |events| && Numbered(events[i]) && Numbered(events[j]) ==>
          events[i].number != events[j].number)
    && (forall k :: 0 <= k < |events| && IsResponse(events[k]) ==> HasRequest(events, k))
    && (forall j, k :: 0 <= j < k < |events| && IsResponse(events[j]) && IsResponse(events[k]) ==>
          events[j].link != events[k].link)
  }

  ghost predicate HasRequest(events: seq<Event>, k: nat)
    requires k < |events| && IsResponse(events[k])
  {
    exists i :: 0 <= i < k && Answers(events, k, i) && NewXfer(events[i]).write == events[k].body.I2cResp?
  }

  /** What the first n lines make of the i-th. */
  ghost predicate RightAt(events: seq<Event>, cell: Option<Xfer>, i: nat, n: nat)
    requires i < n <= |events|
  {
    if !IsRequest(events[i]) then cell.None?
    else
      && cell.Some?
      && ((forall k :: 0 <= k < n ==> !Answers(events, k, i)) ==> cell.value == NewXfer(events[i]))
      && (forall k :: 0 <= k < n && Answers(events, k, i) ==>
            && NewXfer(events[i]).write == events[k].body.I2cResp?
            && cell.value == AnsweredBy(NewXfer(events[i]), events[k]))
  }

  /** The requests that nothing has named yet are pending at their lines. */
  ghost predicate StillPending(events: seq<Event>, p: Pairs, n: nat)
    requires n <= |events|
  {
    forall i :: 0 <= i < n && IsRequest(events[i]) && events[i].number.Some? ==>
      (forall k :: 0 <= k < n ==> !Answers(events, k, i)) ==>
        events[i].number.value in p.pending && p.pending[events[i].number.value] == i
  }

  ghost predicate RightSoFar(events: seq<Event>, p: Pairs, n: nat)
    requires n <= |events|
  {
    && PairsOk(p) && |p.cells| == n && StillPending(events, p, n)
    && forall i :: 0 <= i < n ==> RightAt(events, p.cells[i], i, n)
  }

  /** The next line is a response: it finds its own request. */
  lemma LinkFinds(events: seq<Event>, p: Pairs, n: nat) returns (i: nat)
    requires Linked(events) && n < |events| && RightSoFar(events, p, n) && IsResponse(events[n])
    ensures i < n && events[n].link.Some?
    ensures Answers(events, n, i) && NewXfer(events[i]).write == events[n].body.I2cResp?
    ensures Target(p, events[n]) == Some(i) && p.cells[i] == Some(NewXfer(events[i]))
    ensures forall j :: 0 <= j < n && Answers(events, n, j) ==> j == i
    ensures forall k :: 0 <= k < n ==> !Answers(events, k, i)
  {
    hide AnsweredBy;
    assert HasRequest(events, n);
    i :| 0 <= i < n && Answers(events, n, i) && NewXfer(events[i]).write == events[n].body.I2cResp?;
    assert forall k :: 0 <= k < n ==> !Answers(events, k, i);
    assert RightAt(events, p.cells[i], i, n);
  }

  lemma NextRight(events: seq<Event>, p: Pairs, n: nat)
    requires Linked(events) && n < |events| && RightSoFar(events, p, n)
    ensures RightSoFar(events, PairStep(p, events[n]), n + 1)
  {
    if IsResponse(events[n]) {
      ResponseRight(events, p, n);
    } else {
      OtherRight(events, p, n);
    }
  }

  lemma OtherRight(events: seq<Event>, p: Pairs, n: nat)
    requires Linked(events) && n < |events| && RightSoFar(events, p, n) && !IsResponse(events[n])
    ensures RightSoFar(events, PairStep(p, events[n]), n + 1)
  {
    hide AnsweredBy, NewXfer, RightAt, StillPending, Answers, Linked;
    var r := PairStep(p, events[n]);
    forall i | 0 <= i < n
      ensures RightAt(events, r.cells[i], i, n + 1)
    {
      SameCell(events, p.cells[i], i, n);
    }
    NotYetNamed(events, n);
    NewCell(events, n);
    OtherPending(events, p, n);
  }

  lemma SameCell(events: seq<Event>, cell: Option<Xfer>, i: nat, n: nat)
    requires i < n < |events| && !IsResponse(events[n]) && RightAt(events, cell, i, n)
    ensures RightAt(events, cell, i, n + 1)
  {
    hide AnsweredBy, NewXfer;
  }

  lemma NewCell(events: seq<Event>, n: nat)
    requires n < |events| && !IsResponse(events[n])
    requires IsRequest(events[n]) ==> forall k :: 0 <= k <= n ==> !Answers(events, k, n)
    ensures RightAt(events, if IsRequest(events[n]) then Some(NewXfer(events[n])) else None, n, n + 1)
  {
    hide AnsweredBy, NewXfer;
  }

  lemma OtherPending(events: seq<Event>, p: Pairs, n: nat)
    requires Linked(events) && n < |events| && !IsResponse(events[n]) && RightSoFar(events, p, n)
    ensures StillPending(events, PairStep(p, events[n]), n + 1)
  {
    hide AnsweredBy, NewXfer, RightAt;
    var r := PairStep(p, events[n]);
    forall i | 0 <= i <= n && IsRequest(events[i]) && events[i].number.Some?
               && forall k :: 0 <= k <= n ==> !Answers(events, k, i)
      ensures events[i].number.value in r.pending && r.pending[events[i].number.value] == i
    {
      if i < n && IsRequest(events[n]) {
        assert events[i].number != events[n].number;
      }
    }
  }

  /** Nothing names a request before its line. */
  lemma NotYetNamed(events: seq<Event>, n: nat)
    requires Linked(events) && n < |events|
    ensures forall k :: 0 <= k <= n ==> !Answers(events, k, n)
  {
    forall k | 0 <= k <= n
      ensures !Answers(events, k, n)
    {
      if IsResponse(events[k]) {
        assert HasRequest(events, k);
      }
    }
  }

  lemma ResponseRight(events: seq<Event>, p: Pairs, n: nat)
    requires Linked(events) && n < |events| && RightSoFar(events, p, n) && IsResponse(events[n])
    ensures RightSoFar(events, PairStep(p, events[n]), n + 1)
  {
    hide AnsweredBy, NewXfer, RightAt, StillPending, Answers, Linked;
    var at := LinkFinds(events, p, n);
    var r := PairStep(p, events[n]);
    forall i | 0 <= i < n
      ensures RightAt(events, r.cells[i], i, n + 1)
    {
      OneCell(events, p.cells[i], i, n, at);
    }
    assert RightAt(events, r.cells[n], n, n + 1) by {
      NoCell(events, n);
    }
    ResponsePending(events, p, n);
  }

  lemma NoCell(events: seq<Event>, n: nat)
    requires n < |events| && IsResponse(events[n])
    ensures RightAt(events, None, n, n + 1)
  {
  }

  /** What the response changes at a line before it. */
  lemma OneCell(events: seq<Event>, cell: Option<Xfer>, i: nat, n: nat, at: nat)
    requires i < n < |events| && at < n && IsResponse(events[n]) && RightAt(events, cell, i, n)
    requires Answers(events, n, at) && NewXfer(events[at]).write == events[n].body.I2cResp?
    requires Answers(events, n, i) ==> i == at
    requires i == at ==> cell == Some(NewXfer(events[at])) && forall k :: 0 <= k < n ==> !Answers(events, k, at)
    ensures RightAt(events, if i == at then Some(AnsweredBy(NewXfer(events[at]), events[n])) else cell, i, n + 1)
  {
    hide AnsweredBy, NewXfer, Answers;
  }

  lemma ResponsePending(events: seq<Event>, p: Pairs, n: nat)
    requires n < |events| && IsResponse(events[n]) && PairsOk(p) && StillPending(events, p, n) && events[n].link.Some?
    ensures StillPending(events, PairStep(p, events[n]), n + 1)
  {
    hide AnsweredBy, Target;
    var r := PairStep(p, events[n]);
    forall i | 0 <= i <= n && IsRequest(events[i]) && events[i].number.Some?
               && forall k :: 0 <= k <= n ==> !Answers(events, k, i)
      ensures events[i].number.value in r.pending && r.pending[events[i].number.value] == i
    {
      assert !Answers(events, n, i);
    }
  }

  lemma {:induction false} AllRight(events: seq<Event>, n: nat)
    requires Linked(events) && n <= |events|
    ensures RightSoFar(events, PairFrom(NONE, events[..n]), n)
    decreases n
  {
    hide Linked, PairStep;
    if n == 0 {
    } else {
      AllRight(events, n - 1);
      assert events[..n] == events[..n - 1] + [events[n - 1]];
      PairAppend(NONE, events[..n - 1], [events[n - 1]]);
      var p := PairFrom(NONE, events[..n - 1]);
      NextRight(events, p, n - 1);
      assert PairFrom(p, [events[n - 1]]) == PairStep(p, events[n - 1]);
    }
  }

  /** Pairing by link is right however exchanges overlap: where every response names its
      request and numbers are not shared, each request is paired with the response that
      names it and with no other, and one that none names stays unanswered. */
  lemma LinksPairAnyOverlap(events: seq<Event>)
    requires Linked(events)
    ensures forall i :: 0 <= i < |events| ==> RightAt(events, Paired(events)[i], i, |events|)
  {
    AllRight(events, |events|);
    assert events[..|events|] == events;
  }
}
