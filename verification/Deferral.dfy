/** The deferral queue as the environment keeps it: four slots in place, frames copied
    into eight bytes, and the check every frame passes first. */
module Deferral {
  import opened Reentrancy
  import opened Wrappers

  const MAX_FRAME_BITS: nat := 64
  const MAX_FORMATS: nat := 8
  const SLOT_BYTES: nat := 8

  datatype Payload = Null | Bytes(bytes: seq<bv8>)

  datatype Verdict = Accepted | NoFormat | UnknownFormat | Oversize | NoData | DirtyPadding

  function FrameBytes(bits: nat): nat {
    bits / 8 + (if bits % 8 != 0 then 1 else 0)
  }

  predicate PaddingClean(data: Payload, bits: nat)
    requires data.Null? || FrameBytes(bits) <= |data.bytes|
  {
    if bits == 0 then true
    else if data.Null? then false
    else if bits % 8 == 0 then true
    else data.bytes[FrameBytes(bits) - 1] & (((1 as bv8) << (8 - bits % 8)) - 1) == 0
  }

  function FrameAccept(formats: seq<bool>, format: nat, data: Payload, bits: nat): Verdict
    requires |formats| == MAX_FORMATS
    requires data.Null? || FrameBytes(bits) <= |data.bytes|
  {
    if format == 0 then NoFormat
    else if format > MAX_FORMATS || !formats[format - 1] then UnknownFormat
    else if bits > MAX_FRAME_BITS then Oversize
    else if bits > 0 && data.Null? then NoData
    else if bits > 0 && !PaddingClean(data, bits) then DirtyPadding
    else Accepted
  }

  /** The single bit a frame bit occupies in its byte: bit 0 of the frame is the top bit
      of the first byte. */
  function PlaceOf(i: nat): bv8 {
    match i % 8
    case 0 => 0x80
    case 1 => 0x40
    case 2 => 0x20
    case 3 => 0x10
    case 4 => 0x08
    case 5 => 0x04
    case 6 => 0x02
    case _ => 0x01
  }

  predicate FrameBit(data: seq<bv8>, i: nat)
    requires i / 8 < |data|
  {
    data[i / 8] & PlaceOf(i) != 0
  }

  ghost predicate LowBitsClear(b: bv8, r: nat) {
    forall k {:trigger PlaceOf(k)} :: r <= k < 8 ==> b & PlaceOf(k) == 0
  }

  lemma PaddingBits(b: bv8, r: nat)
    requires 0 < r < 8
    ensures (b & (((1 as bv8) << (8 - r)) - 1) == 0) <==> LowBitsClear(b, r)
  {
    assert PlaceOf(1) == 0x40 && PlaceOf(2) == 0x20 && PlaceOf(3) == 0x10 && PlaceOf(4) == 0x08;
    assert PlaceOf(5) == 0x04 && PlaceOf(6) == 0x02 && PlaceOf(7) == 0x01;
  }

  lemma SameByte(a: bv8, b: bv8)
    requires forall k {:trigger PlaceOf(k)} :: 0 <= k < 8 ==> (a & PlaceOf(k) == 0 <==> b & PlaceOf(k) == 0)
    ensures a == b
  {
    assert PlaceOf(0) == 0x80 && PlaceOf(1) == 0x40 && PlaceOf(2) == 0x20 && PlaceOf(3) == 0x10;
    assert PlaceOf(4) == 0x08 && PlaceOf(5) == 0x04 && PlaceOf(6) == 0x02 && PlaceOf(7) == 0x01;
  }

  lemma BitInByte(data: seq<bv8>, j: nat, k: nat)
    requires j < |data| && k < 8
    ensures (8 * j + k) / 8 == j && FrameBit(data, 8 * j + k) == (data[j] & PlaceOf(k) != 0)
  {
    assert (8 * j + k) % 8 == k;
    assert PlaceOf(8 * j + k) == PlaceOf(k);
  }

  /** The mask test says that no padding bit is set. */
  lemma CleanMeansNoBits(data: seq<bv8>, bits: nat)
    requires 0 < bits && FrameBytes(bits) <= |data|
    ensures PaddingClean(Bytes(data), bits) <==> forall i :: bits <= i < 8 * FrameBytes(bits) ==> !FrameBit(data, i)
  {
    hide PlaceOf, FrameBit, LowBitsClear;
    if bits % 8 != 0 {
      PaddingBits(data[bits / 8], bits % 8);
      LastByteBits(data, bits);
    } else {
      assert 8 * FrameBytes(bits) == bits;
    }
  }

  /** The padding bits are the low bits of the last byte. */
  lemma LastByteBits(data: seq<bv8>, bits: nat)
    requires bits % 8 != 0 && FrameBytes(bits) <= |data|
    ensures (forall i :: bits <= i < 8 * FrameBytes(bits) ==> !FrameBit(data, i)) <==>
            LowBitsClear(data[bits / 8], bits % 8)
  {
    hide PlaceOf, FrameBit, PaddingClean;
    var j := bits / 8;
    forall k {:trigger PlaceOf(k)} | 0 <= k < 8
      ensures FrameBit(data, 8 * j + k) == (data[j] & PlaceOf(k) != 0)
    {
      BitInByte(data, j, k);
    }
    if LowBitsClear(data[j], bits % 8) {
      forall i | bits <= i < 8 * FrameBytes(bits)
        ensures !FrameBit(data, i)
      {
        BitInByte(data, j, i - 8 * j);
      }
    }
  }

  /** The frames let in are exactly those of a registered format, of at most 64 bits,
      with data wherever they have bits, and with every unused bit of the last byte zero. */
  lemma AcceptedExactly(formats: seq<bool>, format: nat, data: Payload, bits: nat)
    requires |formats| == MAX_FORMATS
    requires data.Null? || FrameBytes(bits) <= |data.bytes|
    ensures FrameAccept(formats, format, data, bits) == Accepted <==>
            (1 <= format <= MAX_FORMATS && formats[format - 1] && bits <= MAX_FRAME_BITS && CleanFrame(data, bits))
  {
    hide PaddingClean, FrameBit;
    if bits > 0 && data.Bytes? {
      CleanMeansNoBits(data.bytes, bits);
    }
  }

  ghost predicate CleanFrame(data: Payload, bits: nat)
    requires data.Null? || FrameBytes(bits) <= |data.bytes|
  {
    bits > 0 ==> data.Bytes? && forall i :: bits <= i < 8 * FrameBytes(bits) ==> !FrameBit(data.bytes, i)
  }

  /** Clean padding makes the bytes canonical: two accepted frames with the same bits are
      the same bytes. */
  lemma SameBitsSameBytes(a: seq<bv8>, b: seq<bv8>, bits: nat)
    requires |a| == |b| == FrameBytes(bits)
    requires forall i :: 0 <= i < bits ==> FrameBit(a, i) == FrameBit(b, i)
    requires CleanFrame(Bytes(a), bits) && CleanFrame(Bytes(b), bits)
    ensures a == b
  {
    hide PlaceOf, FrameBit;
    forall j | 0 <= j < |a|
      ensures a[j] == b[j]
    {
      forall k {:trigger PlaceOf(k)} | 0 <= k < 8
        ensures a[j] & PlaceOf(k) == 0 <==> b[j] & PlaceOf(k) == 0
      {
        BitInByte(a, j, k);
        BitInByte(b, j, k);
        assert FrameBit(a, 8 * j + k) == FrameBit(b, 8 * j + k);
      }
      SameByte(a[j], b[j]);
    }
  }

  // --- The slots -----------------------------------------------------------

  /** One slot: the length is a byte and the payload has eight. */
  datatype Deferred = Deferred(kind: nat, pin: nat, bus: nat, format: nat, bits: nat, data: seq<bv8>)

  const EMPTY := Deferred(0, 0, 0, 0, 0, [0, 0, 0, 0, 0, 0, 0, 0])

  /** What a slot delivers: the receiver reads the bytes its length asks for. */
  function EffectOf(d: Deferred): Effect {
    if d.kind == 0 then IsrOn(d.pin)
    else
      var n := FrameBytes(d.bits);
      FrameTo(d.bus, d.format, if n <= |d.data| then d.data[..n] else d.data, d.bits)
  }

  function SlotOfIsr(pin: nat): Deferred {
    EMPTY.(pin := pin)
  }

  /** The copy of a frame: the length cast to a byte, as many payload bytes as fit. */
  function SlotOfFrame(bus: nat, format: nat, data: seq<bv8>, bits: nat): Deferred
    requires FrameBytes(bits) <= |data|
  {
    Deferred(1, 0, bus, format, bits % 256,
             seq(SLOT_BYTES, i => if 0 <= i < FrameBytes(bits) then data[i] else 0))
  }

  /** A deferred frame arrives as it was sent, bit for bit, exactly when it has at most
      64 bits, which is what the check lets in. */
  lemma ArrivesBitForBit(bus: nat, format: nat, data: seq<bv8>, bits: nat)
    requires FrameBytes(bits) <= |data|
    ensures (EffectOf(SlotOfFrame(bus, format, data, bits)) == FrameTo(bus, format, data[..FrameBytes(bits)], bits))
            <==> bits <= MAX_FRAME_BITS
  {
    var got := EffectOf(SlotOfFrame(bus, format, data, bits));
    if bits <= MAX_FRAME_BITS {
      assert FrameBytes(bits) <= SLOT_BYTES;
      assert got.data == data[..FrameBytes(bits)];
    } else {
      assert FrameBytes(bits) > SLOT_BYTES && |got.data| <= SLOT_BYTES;
    }
  }

  /** A frame that passed the check: no more than 64 bits, and the bytes they take. */
  predicate LetIn(e: Effect) {
    e.IsrOn? || (e.bits <= MAX_FRAME_BITS && |e.data| == FrameBytes(e.bits))
  }

  predicate AllLetIn(moves: seq<Move>) {
    forall k :: 0 <= k < |moves| && moves[k].Inject? ==> LetIn(moves[k].effect)
  }

  /** What the handler of the first effect may do: any moves after which it is on top of
      the stack again. */
  ghost predicate GoodTurn(w: World, turn: seq<Move>)
    requires w.queue != []
  {
    Possible(Delivered(w), turn) && AllLetIn(turn) && Run(Delivered(w), turn).stack == Delivered(w).stack
  }

  /** One turn of the loop: the first effect is taken, and whoever is there for it runs
      and returns. */
  ghost function TurnTaken(w: World, turn: seq<Move>): (r: World)
    requires w.stack != [] && w.queue != [] && GoodTurn(w, turn)
    ensures r.stack == w.stack
  {
    if HasHandler(w, w.queue[0]) then Step(Run(Delivered(w), turn), CodeReturns) else Delivered(w)
  }

  predicate Over(w: World) {
    w.deviceDepth > 0 || w.queue == []
  }

  /** The turns used by one run of the loop's body: none for an effect nobody is there
      for, or when there are none left. */
  function Used(w: World, turns: seq<seq<Move>>): (n: nat)
    requires w.queue != []
    ensures n <= |turns|
  {
    if HasHandler(w, w.queue[0]) && turns != [] then 1 else 0
  }

  function TurnOf(w: World, turns: seq<seq<Move>>): seq<Move>
    requires w.queue != []
  {
    if Used(w, turns) == 1 then turns[0] else []
  }

  /** Every handler the loop starts can do its turn. */
  ghost predicate Handled(w: World, turns: seq<seq<Move>>)
    requires w.stack != []
    decreases |turns|, |w.queue|
  {
    Over(w) || (GoodTurn(w, TurnOf(w, turns)) && Handled(TurnTaken(w, TurnOf(w, turns)), turns[Used(w, turns)..]))
  }

  ghost function AfterDelivery(w: World, turns: seq<seq<Move>>): World
    requires w.stack != [] && Handled(w, turns)
    decreases |turns|, |w.queue|
  {
    if Over(w) then w else AfterDelivery(TurnTaken(w, TurnOf(w, turns)), turns[Used(w, turns)..])
  }

  /** The effects the loop itself starts. */
  ghost function StartedBy(w: World, turns: seq<seq<Move>>): seq<Effect>
    requires w.stack != [] && Handled(w, turns)
    decreases |turns|, |w.queue|
  {
    if Over(w) then []
    else
      (if HasHandler(w, w.queue[0]) then [w.queue[0]] else [])
      + StartedBy(TurnTaken(w, TurnOf(w, turns)), turns[Used(w, turns)..])
  }

  lemma LoopOver(w: World, turns: seq<seq<Move>>)
    requires w.stack != [] && Handled(w, turns)
    ensures Over(w) ==> AfterDelivery(w, turns) == w && StartedBy(w, turns) == []
  {
  }

  /** One run of the loop's body leaves the rest of the turns to the rest of the loop. */
  lemma NextTurn(w: World, turns: seq<seq<Move>>)
    requires w.stack != [] && Top(w).Delivering? && Handled(w, turns) && !Over(w)
    ensures GoodTurn(w, TurnOf(w, turns))
    ensures var next, rest := TurnTaken(w, TurnOf(w, turns)), turns[Used(w, turns)..];
            && Handled(next, rest) && AfterDelivery(w, turns) == AfterDelivery(next, rest)
            && StartedBy(w, turns) == (if HasHandler(w, w.queue[0]) then [w.queue[0]] else []) + StartedBy(next, rest)
            && next.stack == w.stack && (Used(w, turns) == 0 ==> |next.queue| == |w.queue| - 1)
  {
    hide GoodTurn;
    UnfoldHandled(w, turns);
    ReturnKeepsAll(w, TurnOf(w, turns));
  }

  lemma UnfoldHandled(w: World, turns: seq<seq<Move>>)
    requires w.stack != [] && Handled(w, turns) && !Over(w)
    ensures GoodTurn(w, TurnOf(w, turns)) && Handled(TurnTaken(w, TurnOf(w, turns)), turns[Used(w, turns)..])
  {
  }

  lemma ReturnKeepsAll(w: World, turn: seq<Move>)
    requires w.stack != [] && w.queue != [] && GoodTurn(w, turn)
    requires !HasHandler(w, w.queue[0]) ==> turn == []
    ensures TurnTaken(w, turn) == Run(Delivered(w), turn).(stack := w.stack)
    ensures turn == [] ==> Run(Delivered(w), turn) == Delivered(w)
  {
  }

  /** The loop is a run of the step relation after which the operation may return: what
      holds of every interleaving holds of it. */
  lemma {:induction false} DeliveryIsARun(w: World, turns: seq<seq<Move>>)
    requires w.stack != [] && Top(w).Delivering? && Handled(w, turns)
    ensures Enabled(AfterDelivery(w, turns), OperationReturns) && AfterDelivery(w, turns).stack == w.stack
    ensures exists moves :: Possible(w, moves) && Run(w, moves) == AfterDelivery(w, turns)
    decreases |turns|, |w.queue|
  {
    hide GoodTurn, TurnTaken, Step, Run, Possible;
    if Over(w) {
      RunNothing(w);
    } else {
      NextTurn(w, turns);
      var next, rest := TurnTaken(w, TurnOf(w, turns)), turns[Used(w, turns)..];
      DeliveryIsARun(next, rest);
      var moves :| Possible(next, moves) && Run(next, moves) == AfterDelivery(next, rest);
      var all := TurnIsARun(w, TurnOf(w, turns), moves);
    }
  }

  lemma TurnIsARun(w: World, turn: seq<Move>, rest: seq<Move>) returns (moves: seq<Move>)
    requires w.stack != [] && Top(w).Delivering? && !Over(w) && GoodTurn(w, turn)
    requires Possible(TurnTaken(w, turn), rest)
    ensures Possible(w, moves) && Run(w, moves) == Run(TurnTaken(w, turn), rest)
  {
    hide Run, Possible, Delivered;
    if HasHandler(w, w.queue[0]) {
      var over := Run(Delivered(w), turn);
      StartedOnTop(w);
      RunOne(over, CodeReturns, rest, TurnTaken(w, turn));
      RunThen(Delivered(w), turn, [CodeReturns] + rest);
      RunOne(w, DeliverNext, turn + ([CodeReturns] + rest), Delivered(w));
      moves := [DeliverNext] + (turn + ([CodeReturns] + rest));
    } else {
      RunOne(w, DeliverNext, rest, Delivered(w));
      moves := [DeliverNext] + rest;
    }
  }

  lemma StartedOnTop(w: World)
    requires w.queue != [] && HasHandler(w, w.queue[0])
    ensures Delivered(w).stack == w.stack + [Runs(HandlerOf(w.queue[0]))]
  {
  }

  lemma {:induction false} RunThen(w: World, first: seq<Move>, rest: seq<Move>)
    requires Possible(w, first) && Possible(Run(w, first), rest)
    ensures Possible(w, first + rest) && Run(w, first + rest) == Run(Run(w, first), rest)
    decreases |first|
  {
    hide Step, Enabled;
    if first == [] {
      assert first + rest == rest;
    } else {
      RunThen(Step(w, first[0]), first[1..], rest);
      assert (first + rest)[1..] == first[1..] + rest;
    }
  }

  /** Where the handlers raise nothing more and let each other be, what is started is
      what waited and has someone to run for it, in order. */
  lemma {:induction false} PlainDelivery(w: World)
    requires w.stack != [] && Top(w).Delivering?
    ensures Handled(w, [])
    ensures !Over(w) ==> StartedBy(w, []) == Startable(w, w.queue)
    decreases |w.queue|
  {
    hide GoodTurn, HasHandler, TurnTaken;
    if !Over(w) {
      PlainTurn(w);
      var next := TurnTaken(w, []);
      PlainDelivery(next);
      SameHandlers(w, next, next.queue);
    }
  }

  lemma PlainTurn(w: World)
    requires w.stack != [] && Top(w).Delivering? && !Over(w)
    ensures GoodTurn(w, [])
    ensures var next := TurnTaken(w, []);
            && next.queue == w.queue[1..] && next.receiver == w.receiver && next.attached == w.attached
            && next.deviceDepth == w.deviceDepth && next.stack == w.stack
  {
    ReturnKeepsAll(w, []);
  }

  /** The effects of a queue that find someone to run. */
  function Startable(w: World, queue: seq<Effect>): seq<Effect> {
    if queue == [] then []
    else (if HasHandler(w, queue[0]) then [queue[0]] else []) + Startable(w, queue[1..])
  }

  lemma {:induction false} SameHandlers(v: World, w: World, queue: seq<Effect>)
    requires v.receiver == w.receiver && v.attached == w.attached
    ensures Startable(v, queue) == Startable(w, queue)
  {
    if queue != [] {
      SameHandlers(v, w, queue[1..]);
    }
  }

  /** The code a move starts for an effect. */
  function EffectStarts(w: World, m: Move): Option<Code>
    requires Enabled(w, m)
  {
    if m.Inject? || m.DeliverNext? then WhoStarts(w, m) else None
  }

  function ForEffects(w: World, moves: seq<Move>): seq<Code>
    requires Possible(w, moves)
    decreases |moves|
  {
    if moves == [] then []
    else
      var c := EffectStarts(w, moves[0]);
      (if c.Some? then [c.value] else []) + ForEffects(Step(w, moves[0]), moves[1..])
  }

  class DeferralQueue {
    const slots: array<Deferred>
    var count: nat
    var dropped: nat
    var deferredIsrs: nat
    var deferredFrames: nat
    var diags: nat
    var deviceDepth: nat
    var maxDeviceDepth: nat
    var receiver: bool
    var attached: set<nat>

    ghost predicate Valid()
      reads this
    {
      slots.Length == DEFERRAL_CAPACITY && count <= DEFERRAL_CAPACITY
    }

    /** The effects waiting, first in first. */
    ghost function Contents(): (s: seq<Effect>)
      requires Valid()
      reads this, slots
      ensures |s| == count
    {
      seq(count, i requires 0 <= i < count reads this, slots requires Valid() => EffectOf(slots[i]))
    }

    /** These fields are what the step relation says of them. */
    ghost predicate Shows(w: World)
      requires Valid()
      reads this, slots
    {
      && Contents() == w.queue && dropped == w.dropped && diags == w.diags
      && deviceDepth == w.deviceDepth && maxDeviceDepth == w.maxDepth
      && receiver == w.receiver && attached == w.attached
    }

    constructor ()
      ensures Valid() && Shows(START) && fresh(slots)
      ensures deferredIsrs == deferredFrames == 0
    {
      slots := new Deferred[DEFERRAL_CAPACITY](i => EMPTY);
      count, dropped, deferredIsrs, deferredFrames := 0, 0, 0, 0;
      diags, deviceDepth, maxDeviceDepth := 0, 0, 0;
      receiver, attached := false, {};
    }

    method EnterDevice(ghost w: World, ghost delivers: bool, ghost director: bool)
      requires Valid() && Shows(w)
      modifies this`deviceDepth, this`maxDeviceDepth
      ensures Valid() && Shows(Reentrancy.EnterDevice(w, delivers, director))
    {
      deviceDepth := deviceDepth + 1;
      if deviceDepth > maxDeviceDepth {
        maxDeviceDepth := deviceDepth;
      }
    }

    method LeaveDevice(ghost w: World)
      requires Valid() && Shows(w)
      requires |w.stack| >= 2 && w.stack[|w.stack| - 2].Running?
      modifies this`deviceDepth
      ensures Valid() && Shows(Reentrancy.LeaveDevice(w))
    {
      if deviceDepth > 0 {
        deviceDepth := deviceDepth - 1;
      }
    }

    method RefuseReentrantCall(ghost w: World) returns (refused: bool)
      requires Valid() && Shows(w) && Enabled(w, Reenter)
      modifies this`diags
      ensures Valid() && refused == (w.deviceDepth > 0)
      ensures refused ==> Shows(Step(w, Reenter))
      ensures !refused ==> Shows(w)
    {
      if deviceDepth == 0 {
        return false;
      }
      diags := diags + 1;
      return true;
    }

    method QueueDeferred(effect: Deferred, ghost w: World)
      requires Valid() && Shows(w)
      modifies this, slots
      ensures Valid() && Shows(Reentrancy.QueueDeferred(w, EffectOf(effect)))
      ensures deferredIsrs + deferredFrames + dropped == old(deferredIsrs + deferredFrames + dropped) + 1
      ensures deferredIsrs == old(deferredIsrs) + (if effect.kind == 0 && |w.queue| < DEFERRAL_CAPACITY then 1 else 0)
    {
      if count < DEFERRAL_CAPACITY {
        slots[count] := effect;
        count := count + 1;
        if effect.kind == 0 {
          deferredIsrs := deferredIsrs + 1;
        } else {
          deferredFrames := deferredFrames + 1;
        }
        assert Contents() == old(Contents()) + [EffectOf(effect)];
        return;
      }
      dropped := dropped + 1;
      diags := diags + 1;
    }

    /** Take the first effect out and close up the rest, as one turn of the delivery loop
        does before it starts anything. */
    method TakeFirst(ghost w: World) returns (effect: Effect)
      requires Valid() && Shows(w) && w.queue != []
      modifies this`count, slots
      ensures Valid() && effect == w.queue[0] && Shows(Delivered(w))
    {
      effect := EffectOf(slots[0]);
      ghost var was := slots[..];
      var i := 1;
      while i < count
        invariant 1 <= i <= count && Valid() && count == old(count)
        invariant forall k :: 0 <= k < i - 1 ==> slots[k] == was[k + 1]
        invariant forall k :: i - 1 <= k < slots.Length ==> slots[k] == was[k]
      {
        slots[i - 1] := slots[i];
        i := i + 1;
      }
      count := count - 1;
      assert Contents() == old(Contents())[1..];
    }

    /** A line edge: nothing without a handler, held while a device runs, else its handler
        at once. */
    method InjectIsr(pin: nat, ghost w: World) returns (now: Option<Code>)
      requires Valid() && Shows(w)
      modifies this, slots
      ensures Valid() && Shows(Injected(w, IsrOn(pin)))
      ensures now == if w.deviceDepth == 0 then WhoIsThere(w, IsrOn(pin)) else None
    {
      now := None;
      if pin in attached {
        if deviceDepth > 0 {
          QueueDeferred(SlotOfIsr(pin), w);
        } else {
          now := Some(Isr(pin));
        }
      }
    }

    /** A frame that was let in. */
    method InjectFrame(frame: Effect, ghost w: World) returns (now: Option<Code>)
      requires Valid() && Shows(w) && frame.FrameTo? && LetIn(frame)
      modifies this, slots
      ensures Valid() && Shows(Injected(w, frame))
      ensures now == if w.deviceDepth == 0 then WhoIsThere(w, frame) else None
    {
      now := None;
      if receiver {
        if deviceDepth > 0 {
          ArrivesBitForBit(frame.bus, frame.format, frame.data, frame.bits);
          assert frame.data[..FrameBytes(frame.bits)] == frame.data;
          QueueDeferred(SlotOfFrame(frame.bus, frame.format, frame.data, frame.bits), w);
        } else {
          now := Some(Receiver(frame));
        }
      }
    }

    /** Any one move of the step relation, in place, and the code it starts for an effect. */
    method Apply(m: Move, ghost w: World) returns (begun: Option<Code>)
      requires Valid() && Shows(w) && Enabled(w, m) && (m.Inject? ==> LetIn(m.effect))
      modifies this, slots
      ensures Valid() && Shows(Step(w, m))
      ensures begun == EffectStarts(w, m)
    {
      begun := None;
      hide Reentrancy.EnterDevice, Reentrancy.LeaveDevice, Injected, Delivered, LetIn;
      match m
      case Call(director) => EnterDevice(w, true, director);
      case SpiByte => EnterDevice(w, !w.inSpi, false);
      case Inject(effect) =>
        if effect.IsrOn? {
          begun := InjectIsr(effect.pin, w);
        } else {
          begun := InjectFrame(effect, w);
        }
      case Reenter =>
        var refused := RefuseReentrantCall(w);
        if !refused {
          EnterDevice(w, true, false);
        }
      case SetReceiver(bound) => receiver := bound;
      case Attach(pin) => attached := attached + {pin};
      case Detach(pin) => attached := attached - {pin};
      case WindowStart => StartWindow(w);
      case DeviceReturns => LeaveDevice(w);
      case DeliverNext =>
        var effect := TakeFirst(w);
        if effect.IsrOn? {
          begun := if effect.pin in attached then Some(Isr(effect.pin)) else None;
        } else {
          begun := if receiver then Some(Receiver(effect)) else None;
        }
      case _ =>
    }

    /** The part of a new window that concerns the queue. */
    method StartWindow(ghost w: World)
      requires Valid() && Shows(w)
      modifies this
      ensures Valid() && Shows(WindowBegun(w)) && deferredIsrs == deferredFrames == 0
    {
      diags, deviceDepth, maxDeviceDepth := 0, 0, 0;
      count, deferredIsrs, deferredFrames, dropped := 0, 0, 0, 0;
    }

    method Play(moves: seq<Move>, ghost w: World) returns (begun: seq<Code>)
      requires Valid() && Shows(w) && Possible(w, moves) && AllLetIn(moves)
      modifies this, slots
      ensures Valid() && Shows(Run(w, moves)) && begun == ForEffects(w, moves)
    {
      hide Step, Enabled, LetIn, EffectStarts;
      begun := [];
      ghost var now := w;
      var i := 0;
      while i < |moves|
        invariant 0 <= i <= |moves| && Valid() && Shows(now)
        invariant Possible(now, moves[i..]) && Run(now, moves[i..]) == Run(w, moves)
        invariant begun + ForEffects(now, moves[i..]) == ForEffects(w, moves)
      {
        assert moves[i..][0] == moves[i] && moves[i..][1..] == moves[i + 1..];
        var c := Apply(moves[i], now);
        if c.Some? {
          begun := begun + [c.value];
        }
        now := Step(now, moves[i]);
        i := i + 1;
      }
      assert moves[i..] == [];
    }

    /** One run of the loop's body: the first effect taken, its handler started if there
        is one, which does its moves and returns. */
    method TakeTurn(turn: seq<Move>, ghost w: World) returns (effect: Effect, found: bool)
      requires Valid() && Shows(w) && w.stack != [] && w.queue != []
      requires GoodTurn(w, if HasHandler(w, w.queue[0]) then turn else [])
      modifies this, slots
      ensures effect == w.queue[0] && found == HasHandler(w, effect)
      ensures Valid() && Shows(TurnTaken(w, if found then turn else []))
    {
      hide Run, Step, Possible, AllLetIn, Delivered;
      ghost var taken := Delivered(w);
      effect := TakeFirst(w);
      found := if effect.IsrOn? then effect.pin in attached else receiver;
      if found {
        var _ := Play(turn, taken);
      }
      ReturnKeepsAll(w, if found then turn else []);
    }

    /** The delivery loop. Each handler started does the moves of the next turn, calling
        devices, raising effects and having them delivered, attaching and detaching, and
        returns at once when the turns are used up. */
    method DeliverDeferred(turns: seq<seq<Move>>, ghost w: World) returns (started: seq<Effect>)
      requires Valid() && Shows(w) && w.stack != [] && Top(w).Delivering? && Handled(w, turns)
      modifies this, slots
      ensures Valid() && Shows(AfterDelivery(w, turns)) && started == StartedBy(w, turns)
      ensures deviceDepth > 0 || count == 0
    {
      hide HasHandler, GoodTurn, TurnTaken, Handled, AfterDelivery, StartedBy;
      started := [];
      ghost var now := w;
      var t := 0;
      LoopOver(w, turns);
      while deviceDepth == 0 && count > 0
        invariant 0 <= t <= |turns| && Valid() && Shows(now)
        invariant now.stack == w.stack && Handled(now, turns[t..])
        invariant AfterDelivery(now, turns[t..]) == AfterDelivery(w, turns)
        invariant started + StartedBy(now, turns[t..]) == StartedBy(w, turns)
        decreases |turns| - t, count
      {
        ghost var was, rest := now, turns[t..];
        ghost var first := started;
        NextTurn(was, rest);
        var effect, found := TakeTurn(if t < |turns| then turns[t] else [], was);
        now := TurnTaken(was, TurnOf(was, rest));
        if found {
          started := started + [effect];
          t := if t < |turns| then t + 1 else t;
        }
        assert rest[Used(was, rest)..] == turns[t..];
      }
      LoopOver(now, turns[t..]);
    }

    /** A frame from a device to the application's receiver: refused with a diagnostic,
        or injected as the step relation says, the receiver getting the sent bytes. */
    method FrameRx(formats: seq<bool>, bus: nat, format: nat, data: Payload, bits: nat, ghost w: World)
      returns (verdict: Verdict, now: bool)
      requires Valid() && Shows(w) && w.stack != [] && (Top(w).Runs? || Top(w).Device?)
      requires |formats| == MAX_FORMATS
      requires data.Null? || FrameBytes(bits) <= |data.bytes|
      modifies this, slots
      ensures Valid() && verdict == FrameAccept(formats, format, data, bits)
      ensures verdict == Accepted ==> Shows(Step(w, Inject(FrameTo(bus, format, Sent(data, bits), bits))))
      ensures verdict != Accepted ==> Shows(w.(diags := w.diags + 1))
      ensures now == (verdict == Accepted && receiver && w.deviceDepth == 0)
    {
      now := false;
      verdict := FrameAccept(formats, format, data, bits);
      if verdict != Accepted {
        diags := diags + 1;
        return;
      }
      if receiver {
        if deviceDepth > 0 {
          var copy := CopyFrame(bus, format, data, bits);
          if data.Bytes? {
            ArrivesBitForBit(bus, format, data.bytes, bits);
          }
          QueueDeferred(copy, w);
        } else {
          now := true;
        }
      }
    }

    /** The copying loop, byte by byte into a cleared slot. */
    static method CopyFrame(bus: nat, format: nat, data: Payload, bits: nat) returns (d: Deferred)
      requires bits <= MAX_FRAME_BITS && (bits > 0 ==> data.Bytes?)
      requires data.Null? || FrameBytes(bits) <= |data.bytes|
      ensures data.Bytes? ==> d == SlotOfFrame(bus, format, data.bytes, bits)
      ensures EffectOf(d) == FrameTo(bus, format, Sent(data, bits), bits)
    {
      var copied := EMPTY.data;
      var bytes := FrameBytes(bits);
      var i := 0;
      while i < bytes && i < SLOT_BYTES
        invariant 0 <= i <= bytes && i <= SLOT_BYTES && |copied| == SLOT_BYTES
        invariant forall k :: 0 <= k < SLOT_BYTES ==> copied[k] == if k < i then data.bytes[k] else 0
      {
        copied := copied[i := data.bytes[i]];
        i := i + 1;
      }
      d := Deferred(1, 0, bus, format, bits % 256, copied);
      if data.Bytes? {
        assert d.data == SlotOfFrame(bus, format, data.bytes, bits).data;
        ArrivesBitForBit(bus, format, data.bytes, bits);
      } else {
        assert d.data[..0] == [];
      }
    }
  }

  /** The bytes a sender hands over. */
  function Sent(data: Payload, bits: nat): seq<bv8>
    requires data.Null? || FrameBytes(bits) <= |data.bytes|
  {
    if data.Null? then [] else data.bytes[..FrameBytes(bits)]
  }

}
