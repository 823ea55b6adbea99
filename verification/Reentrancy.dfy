/** The re-entrancy contract as a step relation over the call stack: what application
    code, interrupt handlers, frame receivers, directors and devices can do, and what
    the environment does between them. */
module Reentrancy {
  import opened Wrappers

  const DEFERRAL_CAPACITY: nat := 4

  /** What a device brings about: an interrupt, or a frame for the application. */
  datatype Effect = IsrOn(pin: nat) | FrameTo(bus: nat, format: nat, data: seq<bv8>, bits: nat)

  datatype Code = App | Isr(pin: nat) | Receiver(frame: Effect) | Director

  /** An operation of the environment is Running while its device is on the stack above
      it, then Delivering. A byte inside an SPI transaction delivers nothing. */
  datatype Frame = Runs(code: Code) | Running(delivers: bool, director: bool) | Delivering(director: bool) | Device

  /** An effect that had to wait, and whether the queue had room for it. */
  datatype Raised = Raised(effect: Effect, kept: bool)

  /** How a deferred effect left the queue: its turn came and it started someone, or found
      nobody to run, or a new window began before its turn. */
  datatype Outcome = Started | FoundNobody | Forgotten

  datatype Taken = Taken(effect: Effect, outcome: Outcome)

  datatype World = World(stack: seq<Frame>, deviceDepth: nat, maxDepth: nat, queue: seq<Effect>,
                         inSpi: bool, receiver: bool, attached: set<nat>, open: bool, diags: nat, dropped: nat,
                         // What has happened to the effects raised inside devices, and the
                         // calls refused in this window and the drops of earlier ones.
                         raised: seq<Raised>, taken: seq<Taken>, refused: nat, before: nat)

  const START := World([Runs(App)], 0, 0, [], false, false, {}, false, 0, 0, [], [], 0, 0)

  datatype Move =
    | Call(director: bool)          // a bus, pin, UART, channel, frame or tick operation with a device
    | CallUnbound                   // a bus transfer that nothing answers
    | SpiByte                       // one byte to the SPI device
    | SpiBegin
    | SpiEnd
    | Inject(effect: Effect)        // a line edge a handler waits for, or a frame for the application
    | Reenter                       // a call on the environment that enters a device
    | SetReceiver(bound: bool)
    | Attach(pin: nat)
    | Detach(pin: nat)
    | ZeroHandler                   // a busy-waiting sketch yields to the director
    | WindowStart
    | WindowEnd
    | DeviceReturns
    | DeliverNext
    | OperationReturns
    | CodeReturns

  function Top(w: World): Frame
    requires w.stack != []
  {
    w.stack[|w.stack| - 1]
  }

  function Below(w: World): seq<Frame>
    requires w.stack != []
  {
    w.stack[..|w.stack| - 1]
  }

  /** Who may make a move. A device may only make HostPort calls; the SPI bus is observed
      only while a window is open. */
  predicate Enabled(w: World, m: Move) {
    && w.stack != []
    && match m
       case DeviceReturns => Top(w).Device? && |w.stack| >= 2 && w.stack[|w.stack| - 2].Running?
       case DeliverNext => Top(w).Delivering? && w.deviceDepth == 0 && w.queue != []
       case OperationReturns => Top(w).Delivering? && !(w.deviceDepth == 0 && w.queue != [])
       case CodeReturns => Top(w).Runs? && |w.stack| >= 2
       case Inject(_) => Top(w).Runs? || Top(w).Device?
       case Reenter => Top(w).Runs? || Top(w).Device?
       case SpiByte => Top(w).Runs? && w.open
       case SpiBegin => Top(w).Runs? && w.open
       case SpiEnd => Top(w).Runs? && w.open
       case _ => Top(w).Runs?
  }

  function EnterDevice(w: World, delivers: bool, director: bool): World {
    var depth := w.deviceDepth + 1;
    w.(stack := w.stack + [Running(delivers, director), Device], deviceDepth := depth,
       maxDepth := if depth > w.maxDepth then depth else w.maxDepth)
  }

  function LeaveDevice(w: World): World
    requires |w.stack| >= 2 && w.stack[|w.stack| - 2].Running?
  {
    var op := w.stack[|w.stack| - 2];
    var under := w.stack[..|w.stack| - 2];
    w.(deviceDepth := if w.deviceDepth > 0 then w.deviceDepth - 1 else 0,
       stack := if op.delivers then under + [Delivering(op.director)] else under)
  }

  function HandlerOf(e: Effect): Code {
    if e.IsrOn? then Isr(e.pin) else Receiver(e)
  }

  /** Whether an effect finds anyone to run: a handler still attached to the pin, or the
      application's receiver. */
  predicate HasHandler(w: World, e: Effect) {
    if e.IsrOn? then e.pin in w.attached else w.receiver
  }

  function QueueDeferred(w: World, e: Effect): World {
    if |w.queue| < DEFERRAL_CAPACITY
    then w.(raised := w.raised + [Raised(e, true)], queue := w.queue + [e])
    else w.(raised := w.raised + [Raised(e, false)], dropped := w.dropped + 1, diags := w.diags + 1)
  }

  /** Inside a device call an effect waits; outside it happens at once. */
  function Injected(w: World, e: Effect): World {
    if !HasHandler(w, e) then w
    else if w.deviceDepth > 0 then QueueDeferred(w, e)
    else w.(stack := w.stack + [Runs(HandlerOf(e))])
  }

  function TurnOutcome(w: World, e: Effect): Outcome {
    if HasHandler(w, e) then Started else FoundNobody
  }

  /** A new window: the counters start again, and whatever waits is let go. */
  function WindowBegun(w: World): World {
    w.(deviceDepth := 0, maxDepth := 0, queue := [], inSpi := false, open := true, diags := 0, dropped := 0,
       taken := w.taken + Dropped(w.queue), refused := 0, before := w.before + w.dropped)
  }

  function Dropped(queue: seq<Effect>): (r: seq<Taken>)
    ensures |r| == |queue|
  {
    seq(|queue|, i requires 0 <= i < |queue| => Taken(queue[i], Forgotten))
  }

  function Delivered(w: World): World
    requires w.queue != []
  {
    var e := w.queue[0];
    var w1 := w.(queue := w.queue[1..], taken := w.taken + [Taken(e, TurnOutcome(w, e))]);
    if HasHandler(w, e) then w1.(stack := w.stack + [Runs(HandlerOf(e))]) else w1
  }

  function Step(w: World, m: Move): World
    requires Enabled(w, m)
  {
    match m
    case Call(director) => EnterDevice(w, true, director)
    case CallUnbound => w.(stack := w.stack + [Delivering(false)])
    case SpiByte => EnterDevice(w, !w.inSpi, false)
    case SpiBegin => w.(inSpi := true)
    case SpiEnd => w.(inSpi := false, stack := w.stack + [Delivering(false)])
    case Inject(e) => Injected(w, e)
    case Reenter =>
      if w.deviceDepth > 0 then w.(diags := w.diags + 1, refused := w.refused + 1) else EnterDevice(w, true, false)
    case SetReceiver(bound) => w.(receiver := bound)
    case Attach(pin) => w.(attached := w.attached + {pin})
    case Detach(pin) => w.(attached := w.attached - {pin})
    case ZeroHandler => w.(stack := w.stack + [Runs(Director)])
    case WindowStart => WindowBegun(w)
    case WindowEnd => w.(open := false)
    case DeviceReturns => LeaveDevice(w)
    case DeliverNext => Delivered(w)
    case OperationReturns => w.(stack := Below(w) + (if Top(w).director then [Runs(Director)] else []))
    case CodeReturns => w.(stack := Below(w))
  }

  predicate Possible(w: World, moves: seq<Move>)
    decreases |moves|
  {
    moves == [] || (Enabled(w, moves[0]) && Possible(Step(w, moves[0]), moves[1..]))
  }

  function Run(w: World, moves: seq<Move>): World
    requires Possible(w, moves)
    decreases |moves|
  {
    if moves == [] then w else Run(Step(w, moves[0]), moves[1..])
  }

  // --- What every interleaving keeps ---------------------------------------

  /** At most one device runs, on top of everything, and the depth counter knows it. */
  ghost predicate OneDeviceOnTop(w: World) {
    && w.stack != [] && w.stack[0] == Runs(App)
    && (forall i :: 0 <= i < |w.stack| - 1 ==> !w.stack[i].Device?)
    && w.deviceDepth == (if Top(w).Device? then 1 else 0)
    && (forall i :: 0 <= i < |w.stack| && w.stack[i].Running? ==> i == |w.stack| - 2 && Top(w).Device?)
    && (Top(w).Device? ==> |w.stack| >= 2 && w.stack[|w.stack| - 2].Running?)
    && w.maxDepth <= 1
  }

  function Effects(taken: seq<Taken>): (r: seq<Effect>)
    ensures |r| == |taken|
  {
    seq(|taken|, i requires 0 <= i < |taken| => taken[i].effect)
  }

  /** The effects that were not dropped, in the order they were raised. */
  function Kept(raised: seq<Raised>): seq<Effect> {
    if raised == [] then []
    else Kept(raised[..|raised| - 1]) + (if raised[|raised| - 1].kept then [raised[|raised| - 1].effect] else [])
  }

  /** First in, first out, once each: the effects that have left the queue and those still
      in it are, in order, exactly those raised and not dropped; each drop was diagnosed. */
  ghost predicate FifoOnce(w: World) {
    && Kept(w.raised) == Effects(w.taken) + w.queue
    && |w.queue| <= DEFERRAL_CAPACITY
    && |w.raised| == |w.taken| + |w.queue| + w.before + w.dropped
    && w.diags == w.dropped + w.refused
  }

  ghost predicate SomeoneDelivers(stack: seq<Frame>) {
    exists i :: 0 <= i < |stack| && (stack[i].Delivering? || (stack[i].Running? && stack[i].delivers))
  }

  /** Whatever waits has someone on the stack who will deliver it, or an SPI transaction
      that has not been seen to end. */
  ghost predicate NothingStranded(w: World)
    requires OneDeviceOnTop(w)
  {
    && (w.queue != [] ==> SomeoneDelivers(w.stack) || w.inSpi)
    && (Top(w).Device? && !w.stack[|w.stack| - 2].delivers ==> w.inSpi)
  }

  ghost predicate Sound(w: World) {
    OneDeviceOnTop(w) && FifoOnce(w) && NothingStranded(w)
  }

  lemma StepOneDevice(w: World, m: Move)
    requires OneDeviceOnTop(w) && Enabled(w, m)
    ensures OneDeviceOnTop(Step(w, m))
  {
    hide EnterDevice, LeaveDevice, Delivered, QueueDeferred, OneDeviceOnTop;
    match m
    case DeviceReturns => LeaveOneDevice(w);
    case DeliverNext => PushCode(w, HandlerOf(w.queue[0]), Delivered(w));
    case Inject(e) => InjectOneDevice(w, e);
    case Reenter => ReenterOneDevice(w);
    case OperationReturns => PopOneDevice(w, m);
    case CodeReturns => PopOneDevice(w, m);
    case _ => PlainOneDevice(w, m);
  }

  lemma EnterOneDevice(w: World, delivers: bool, director: bool)
    requires OneDeviceOnTop(w) && Top(w).Runs?
    ensures OneDeviceOnTop(EnterDevice(w, delivers, director))
  {
  }

  lemma LeaveOneDevice(w: World)
    requires OneDeviceOnTop(w) && Top(w).Device? && |w.stack| >= 2 && w.stack[|w.stack| - 2].Running?
    ensures OneDeviceOnTop(LeaveDevice(w))
  {
  }

  lemma PushCode(w: World, code: Code, r: World)
    requires OneDeviceOnTop(w) && w.deviceDepth == 0 && w.queue != []
    requires r == Delivered(w) && code == HandlerOf(w.queue[0])
    ensures OneDeviceOnTop(r)
  {
  }

  lemma InjectOneDevice(w: World, e: Effect)
    requires OneDeviceOnTop(w)
    ensures OneDeviceOnTop(Injected(w, e))
  {
  }

  lemma ReenterOneDevice(w: World)
    requires OneDeviceOnTop(w) && Enabled(w, Reenter)
    ensures OneDeviceOnTop(Step(w, Reenter))
  {
    hide EnterDevice;
    if w.deviceDepth == 0 {
      assert Top(w).Runs?;
      EnterOneDevice(w, true, false);
    }
  }

  lemma PopOneDevice(w: World, m: Move)
    requires OneDeviceOnTop(w) && Enabled(w, m) && (m.OperationReturns? || m.CodeReturns?)
    ensures OneDeviceOnTop(Step(w, m))
  {
  }

  lemma PlainOneDevice(w: World, m: Move)
    requires OneDeviceOnTop(w) && Enabled(w, m) && Top(w).Runs?
    requires m.Call? || m.CallUnbound? || m.SpiByte? || m.SpiBegin? || m.SpiEnd? || m.SetReceiver? || m.ZeroHandler?
             || m.Attach? || m.Detach? || m.WindowStart? || m.WindowEnd?
    ensures OneDeviceOnTop(Step(w, m))
  {
    hide EnterDevice;
    match m
    case Call(director) => EnterOneDevice(w, true, director);
    case SpiByte => EnterOneDevice(w, !w.inSpi, false);
    case _ =>
  }

  lemma KeptSnoc(raised: seq<Raised>, r: Raised)
    ensures Kept(raised + [r]) == Kept(raised) + (if r.kept then [r.effect] else [])
  {
    assert (raised + [r])[..|raised|] == raised;
  }

  lemma StepFifo(w: World, m: Move)
    requires FifoOnce(w) && Enabled(w, m)
    ensures FifoOnce(Step(w, m))
  {
    match m
    case Inject(e) =>
      if HasHandler(w, e) && w.deviceDepth > 0 {
        QueueFifo(w, e);
      }
    case DeliverNext => DeliverFifo(w);
    case WindowStart =>
      assert Effects(w.taken + Dropped(w.queue)) == Effects(w.taken) + w.queue;
    case _ =>
  }

  lemma QueueFifo(w: World, e: Effect)
    requires FifoOnce(w)
    ensures FifoOnce(QueueDeferred(w, e))
  {
    KeptSnoc(w.raised, Raised(e, |w.queue| < DEFERRAL_CAPACITY));
  }

  lemma DeliverFifo(w: World)
    requires FifoOnce(w) && w.queue != []
    ensures FifoOnce(Delivered(w))
  {
    assert Effects(Delivered(w).taken) == Effects(w.taken) + [w.queue[0]];
    assert Effects(w.taken) + w.queue == Effects(w.taken) + [w.queue[0]] + w.queue[1..];
  }

  lemma DeliversStays(a: seq<Frame>, b: seq<Frame>)
    requires SomeoneDelivers(a)
    ensures SomeoneDelivers(a + b)
  {
    var i :| 0 <= i < |a| && (a[i].Delivering? || (a[i].Running? && a[i].delivers));
    assert (a + b)[i] == a[i];
  }

  lemma StepStranded(w: World, m: Move)
    requires Sound(w) && Enabled(w, m)
    ensures OneDeviceOnTop(Step(w, m)) && NothingStranded(Step(w, m))
  {
    StepOneDevice(w, m);
    hide OneDeviceOnTop, FifoOnce;
    match m
    case Call(_) => PushStranded(w, m);
    case SpiByte => PushStranded(w, m);
    case CallUnbound => PushStranded(w, m);
    case ZeroHandler => PushStranded(w, m);
    case Reenter => PushStranded(w, m);
    case Inject(e) => InjectStranded(w, e);
    case SpiEnd => TurnStranded(w, m);
    case DeviceReturns => TurnStranded(w, m);
    case DeliverNext => TurnStranded(w, m);
    case OperationReturns => PopStranded(w, m);
    case CodeReturns => PopStranded(w, m);
    case _ => PlainStranded(w, m);
  }

  lemma PushStranded(w: World, m: Move)
    requires OneDeviceOnTop(w) && NothingStranded(w) && Enabled(w, m) && OneDeviceOnTop(Step(w, m))
    requires m.Call? || m.SpiByte? || m.CallUnbound? || m.ZeroHandler? || m.Reenter?
    ensures NothingStranded(Step(w, m))
  {
    hide FifoOnce, SomeoneDelivers;
    var r := Step(w, m);
    assert r.stack == w.stack + r.stack[|w.stack|..];
    if w.queue != [] && !w.inSpi {
      DeliversStays(w.stack, r.stack[|w.stack|..]);
    }
  }

  lemma InjectStranded(w: World, e: Effect)
    requires OneDeviceOnTop(w) && NothingStranded(w) && Enabled(w, Inject(e)) && OneDeviceOnTop(Step(w, Inject(e)))
    ensures NothingStranded(Step(w, Inject(e)))
  {
    var r := Step(w, Inject(e));
    if w.deviceDepth > 0 {
      assert r.stack == w.stack && w.stack[|w.stack| - 2].Running?;
      assert w.stack[|w.stack| - 2].delivers ==> SomeoneDelivers(w.stack);
    } else {
      assert r.stack == w.stack + r.stack[|w.stack|..];
      if w.queue != [] && !w.inSpi {
        DeliversStays(w.stack, r.stack[|w.stack|..]);
      }
    }
  }

  lemma TurnStranded(w: World, m: Move)
    requires OneDeviceOnTop(w) && NothingStranded(w) && Enabled(w, m) && OneDeviceOnTop(Step(w, m))
    requires m.SpiEnd? || m.DeviceReturns? || m.DeliverNext?
    ensures NothingStranded(Step(w, m))
  {
    var r := Step(w, m);
    match m
    case SpiEnd => assert r.stack[|w.stack|].Delivering?;
    case DeviceReturns =>
      if w.stack[|w.stack| - 2].delivers {
        assert r.stack[|r.stack| - 1].Delivering?;
      }
    case DeliverNext => assert r.stack[|w.stack| - 1].Delivering?;
  }

  lemma PopStranded(w: World, m: Move)
    requires OneDeviceOnTop(w) && NothingStranded(w) && Enabled(w, m) && OneDeviceOnTop(Step(w, m))
    requires m.OperationReturns? || m.CodeReturns?
    ensures NothingStranded(Step(w, m))
  {
    var r := Step(w, m);
    if m.CodeReturns? && r.queue != [] && !r.inSpi {
      var i :| 0 <= i < |w.stack| && (w.stack[i].Delivering? || (w.stack[i].Running? && w.stack[i].delivers));
      assert r.stack[i] == w.stack[i];
    }
  }

  lemma PlainStranded(w: World, m: Move)
    requires OneDeviceOnTop(w) && NothingStranded(w) && Enabled(w, m) && OneDeviceOnTop(Step(w, m))
    requires m.SpiBegin? || m.SetReceiver? || m.Attach? || m.Detach? || m.WindowStart? || m.WindowEnd?
    ensures NothingStranded(Step(w, m))
  {
  }

  /** In every interleaving of the application, handlers, directors and devices: at most
      one device runs and nothing runs above it; deferred effects leave the queue in the
      order they were raised, once each; one that never does was dropped with a diagnostic
      or still waits, and what waits has someone to deliver it. Whether leaving the queue
      starts anyone is another matter, see below. */
  lemma {:induction false} EveryInterleavingIsSound(w: World, moves: seq<Move>)
    requires Sound(w) && Possible(w, moves)
    ensures Sound(Run(w, moves))
    decreases |moves|
  {
    hide OneDeviceOnTop, FifoOnce, NothingStranded, Step;
    if moves != [] {
      StepOneDevice(w, moves[0]);
      StepFifo(w, moves[0]);
      StepStranded(w, moves[0]);
      EveryInterleavingIsSound(Step(w, moves[0]), moves[1..]);
    }
  }

  lemma StartIsSound()
    ensures Sound(START)
  {
    assert Effects([]) == [];
  }

  /** Whenever the application is alone on the stack outside an SPI transaction, the queue
      is empty: every effect raised so far has left it or was dropped with a diagnostic. */
  lemma QuietMeansEmpty(moves: seq<Move>)
    requires Possible(START, moves)
    ensures var w := Run(START, moves);
            w.stack == [Runs(App)] && !w.inSpi ==>
              w.queue == [] && Kept(w.raised) == Effects(w.taken) && |w.raised| == |w.taken| + w.before + w.dropped
  {
    hide Run, Possible, Sound;
    StartIsSound();
    EveryInterleavingIsSound(START, moves);
    if Run(START, moves).stack == [Runs(App)] {
      Quiet(Run(START, moves));
    }
  }

  lemma Quiet(w: World)
    requires Sound(w) && w.stack == [Runs(App)]
    ensures !w.inSpi ==>
              w.queue == [] && Kept(w.raised) == Effects(w.taken) && |w.raised| == |w.taken| + w.before + w.dropped
  {
    hide Kept;
    assert !SomeoneDelivers(w.stack);
  }

  /** Code never runs while a device does: a handler is started only with the device
      depth at zero and no device anywhere on the stack. */
  lemma HandlersStartOutsideDevices(moves: seq<Move>, m: Move)
    requires Possible(START, moves) && Enabled(Run(START, moves), m)
    requires |Step(Run(START, moves), m).stack| > |Run(START, moves).stack|
    requires Top(Step(Run(START, moves), m)).Runs?
    ensures var w := Run(START, moves); w.deviceDepth == 0 && forall f :: f in w.stack ==> !f.Device?
  {
    hide Run, Possible, FifoOnce, NothingStranded;
    StartIsSound();
    EveryInterleavingIsSound(START, moves);
  }

  // --- Who starts ----------------------------------------------------------

  /** The code a move starts: what is on top of the stack after it and was not before. */
  function StartsCode(w: World, m: Move): Option<Code>
    requires Enabled(w, m)
  {
    NewOnTop(w.stack, Step(w, m).stack)
  }

  function NewOnTop(before: seq<Frame>, after: seq<Frame>): Option<Code> {
    if after != [] && after[|after| - 1].Runs? && !(after <= before) then Some(after[|after| - 1].code) else None
  }

  /** The handler of that very pin, while it is attached; the receiver of that very frame,
      while one is bound. */
  function WhoIsThere(w: World, e: Effect): Option<Code> {
    match e
    case IsrOn(pin) => if pin in w.attached then Some(Isr(pin)) else None
    case FrameTo(_, _, _, _) => if w.receiver then Some(Receiver(e)) else None
  }

  /** An effect raised with no device running, or whose turn has come, starts whoever is
      there for it; a director starts in a yielding wait, or as its operation returns. */
  function WhoStarts(w: World, m: Move): Option<Code>
    requires Enabled(w, m)
  {
    match m
    case Inject(e) => if w.deviceDepth == 0 then WhoIsThere(w, e) else None
    case DeliverNext => WhoIsThere(w, w.queue[0])
    case ZeroHandler => Some(Director)
    case OperationReturns => if Top(w).director then Some(Director) else None
    case _ => None
  }

  lemma StepStarts(w: World, m: Move)
    requires OneDeviceOnTop(w) && Enabled(w, m)
    ensures StartsCode(w, m) == WhoStarts(w, m)
    ensures WhoStarts(w, m).Some? && !m.OperationReturns? ==>
              Step(w, m).stack == w.stack + [Runs(WhoStarts(w, m).value)]
  {
    NotEmpty(w);
    hide OneDeviceOnTop, NewOnTop;
    match m
    case DeviceReturns => LeaveStarts(w);
    case Inject(e) => PushStarts(w.stack, HandlerOf(e));
    case DeliverNext => PushStarts(w.stack, HandlerOf(w.queue[0]));
    case ZeroHandler => PushStarts(w.stack, Director);
    case CodeReturns => PopStarts(w.stack);
    case OperationReturns => PopStarts(w.stack);
    case _ => OtherStarts(w, m);
  }

  lemma PushStarts(stack: seq<Frame>, code: Code)
    ensures NewOnTop(stack, stack + [Runs(code)]) == Some(code) && NewOnTop(stack, stack) == None
  {
  }

  lemma PopStarts(stack: seq<Frame>)
    requires stack != []
    ensures NewOnTop(stack, stack[..|stack| - 1]) == None && NewOnTop(stack, stack[..|stack| - 1] + []) == None
    ensures stack[|stack| - 1].Delivering? ==>
              NewOnTop(stack, stack[..|stack| - 1] + [Runs(Director)]) == Some(Director)
  {
    var below := stack[..|stack| - 1];
    assert below + [] == below <= stack;
    if stack[|stack| - 1].Delivering? {
      assert (below + [Runs(Director)])[|below|] != stack[|below|];
    }
  }

  lemma LeaveStarts(w: World)
    requires Enabled(w, DeviceReturns)
    ensures NewOnTop(w.stack, LeaveDevice(w).stack) == None
  {
    assert w.stack[..|w.stack| - 2] <= w.stack;
  }

  lemma OtherStarts(w: World, m: Move)
    requires Enabled(w, m)
    requires !m.DeviceReturns? && !m.Inject? && !m.DeliverNext? && !m.ZeroHandler? && !m.CodeReturns?
    requires !m.OperationReturns?
    ensures StartsCode(w, m) == None
  {
  }

  lemma NotEmpty(w: World)
    requires OneDeviceOnTop(w)
    ensures w.stack != []
  {
  }

  /** The code started over a run, in order. */
  function CodeStarted(w: World, moves: seq<Move>): seq<Code>
    requires Possible(w, moves)
    decreases |moves|
  {
    if moves == [] then []
    else
      var c := StartsCode(w, moves[0]);
      (if c.Some? then [c.value] else []) + CodeStarted(Step(w, moves[0]), moves[1..])
  }

  function OughtToStart(w: World, moves: seq<Move>): seq<Code>
    requires Possible(w, moves)
    decreases |moves|
  {
    if moves == [] then []
    else
      var c := WhoStarts(w, moves[0]);
      (if c.Some? then [c.value] else []) + OughtToStart(Step(w, moves[0]), moves[1..])
  }

  /** Over any run, what starts is, in order, exactly the handler or the receiver of each
      effect raised outside devices and of each turn, where there is one, and the
      directors. */
  lemma {:induction false} StartsAreMeant(w: World, moves: seq<Move>)
    requires OneDeviceOnTop(w) && Possible(w, moves)
    ensures CodeStarted(w, moves) == OughtToStart(w, moves)
    decreases |moves|
  {
    hide OneDeviceOnTop, Step, StartsCode, WhoStarts;
    if moves != [] {
      StepOneDevice(w, moves[0]);
      StepStarts(w, moves[0]);
      StartsAreMeant(Step(w, moves[0]), moves[1..]);
    }
  }

  // --- Effects lost in silence ---------------------------------------------

  ghost predicate NobodyMissed(w: World) {
    forall i :: 0 <= i < |w.taken| ==> w.taken[i].outcome != FoundNobody
  }

  ghost predicate NothingForgotten(w: World) {
    forall i :: 0 <= i < |w.taken| ==> w.taken[i].outcome != Forgotten
  }

  /** Every effect that left the queue started someone. */
  ghost predicate AllStarted(w: World) {
    forall i :: 0 <= i < |w.taken| ==> w.taken[i].outcome == Started
  }

  /** No turn of a run comes when nobody is left to run for it. */
  ghost predicate NoEmptyTurn(w: World, moves: seq<Move>)
    requires Possible(w, moves)
    decreases |moves|
  {
    moves == []
    || ((moves[0].DeliverNext? ==> HasHandler(w, w.queue[0])) && NoEmptyTurn(Step(w, moves[0]), moves[1..]))
  }

  /** No window of a run begins while something waits. */
  ghost predicate NoEarlyWindow(w: World, moves: seq<Move>)
    requires Possible(w, moves)
    decreases |moves|
  {
    moves == [] || ((moves[0].WindowStart? ==> w.queue == []) && NoEarlyWindow(Step(w, moves[0]), moves[1..]))
  }

  lemma StepOutcomes(w: World, m: Move)
    requires Enabled(w, m)
    ensures NobodyMissed(Step(w, m)) <==> NobodyMissed(w) && (m.DeliverNext? ==> HasHandler(w, w.queue[0]))
    ensures NothingForgotten(Step(w, m)) <==> NothingForgotten(w) && (m.WindowStart? ==> w.queue == [])
  {
    var r := Step(w, m);
    assert forall i :: 0 <= i < |w.taken| ==> r.taken[i] == w.taken[i];
    if m.DeliverNext? {
      assert r.taken[|w.taken|] == Taken(w.queue[0], TurnOutcome(w, w.queue[0]));
    } else if m.WindowStart? && w.queue != [] {
      assert r.taken[|w.taken|] == Taken(w.queue[0], Forgotten);
    }
  }

  /** A turn is wasted in silence exactly when it comes and nobody is left: the handler
      was detached, or the receiver unbound, since the effect was raised. */
  lemma {:induction false} MissedExactly(w: World, moves: seq<Move>)
    requires Possible(w, moves)
    ensures NobodyMissed(Run(w, moves)) <==> NobodyMissed(w) && NoEmptyTurn(w, moves)
    decreases |moves|
  {
    hide Step, NobodyMissed, NothingForgotten;
    if moves != [] {
      StepOutcomes(w, moves[0]);
      MissedExactly(Step(w, moves[0]), moves[1..]);
    }
  }

  /** An effect is forgotten exactly when a window begins while something waits. */
  lemma {:induction false} ForgottenExactly(w: World, moves: seq<Move>)
    requires Possible(w, moves)
    ensures NothingForgotten(Run(w, moves)) <==> NothingForgotten(w) && NoEarlyWindow(w, moves)
    decreases |moves|
  {
    hide Step, NobodyMissed, NothingForgotten;
    if moves != [] {
      StepOutcomes(w, moves[0]);
      ForgottenExactly(Step(w, moves[0]), moves[1..]);
    }
  }

  /** So, of the effects that were not dropped, every one that no longer waits started
      someone exactly when neither happened. */
  lemma StartedExactly(w: World, moves: seq<Move>)
    requires Possible(w, moves)
    ensures AllStarted(Run(w, moves)) <==> AllStarted(w) && NoEmptyTurn(w, moves) && NoEarlyWindow(w, moves)
  {
    MissedExactly(w, moves);
    ForgottenExactly(w, moves);
    hide Run, Possible, NoEmptyTurn, NoEarlyWindow;
  }

  /** Every window of a run begins where the application is alone outside an SPI
      transaction. */
  ghost predicate QuietWindows(w: World, moves: seq<Move>)
    requires Possible(w, moves)
    decreases |moves|
  {
    moves == []
    || ((moves[0].WindowStart? ==> w.stack == [Runs(App)] && !w.inSpi) && QuietWindows(Step(w, moves[0]), moves[1..]))
  }

  /** Then nothing is forgotten. */
  lemma {:induction false} QuietWindowsForgetNothing(w: World, moves: seq<Move>)
    requires Sound(w) && Possible(w, moves) && QuietWindows(w, moves)
    ensures NoEarlyWindow(w, moves) && (NothingForgotten(w) ==> NothingForgotten(Run(w, moves)))
    decreases |moves|
  {
    hide OneDeviceOnTop, FifoOnce, NothingStranded, Step, NothingForgotten;
    if moves != [] {
      StepOneDevice(w, moves[0]);
      StepFifo(w, moves[0]);
      StepStranded(w, moves[0]);
      if moves[0].WindowStart? {
        Quiet(w);
      }
      QuietWindowsForgetNothing(Step(w, moves[0]), moves[1..]);
    }
    ForgottenExactly(w, moves);
  }

  // --- Who leaves between a raise and its turn -----------------------------

  /** What a move says about who would run for an effect. */
  function Change(m: Move, e: Effect): Option<bool> {
    match m
    case SetReceiver(bound) => if e.FrameTo? then Some(bound) else None
    case Attach(pin) => if e == IsrOn(pin) then Some(true) else None
    case Detach(pin) => if e == IsrOn(pin) then Some(false) else None
    case _ => None
  }

  /** The last such word of a list of moves. */
  function LastChange(moves: seq<Move>, e: Effect): Option<bool> {
    if moves == [] then None
    else
      var rest := LastChange(moves[1..], e);
      if rest.Some? then rest else Change(moves[0], e)
  }

  lemma StepHandler(w: World, m: Move, e: Effect)
    requires Enabled(w, m)
    ensures HasHandler(Step(w, m), e) == if Change(m, e).Some? then Change(m, e).value else HasHandler(w, e)
  {
  }

  lemma {:induction false} HandlerAfter(w: World, moves: seq<Move>, e: Effect)
    requires Possible(w, moves)
    ensures HasHandler(Run(w, moves), e) ==
            if LastChange(moves, e).Some? then LastChange(moves, e).value else HasHandler(w, e)
    decreases |moves|
  {
    hide Step, HasHandler, Change;
    if moves != [] {
      StepHandler(w, moves[0], e);
      HandlerAfter(Step(w, moves[0]), moves[1..], e);
    }
  }

  /** How many effects have entered the queue. */
  function Entered(w: World): nat {
    |w.taken| + |w.queue|
  }

  /** The j-th move of a run raised the effect that entered the queue as the n-th. */
  ghost predicate RaisedBy(w: World, moves: seq<Move>, j: nat, n: nat, e: Effect)
    requires Possible(w, moves)
    decreases |moves|
  {
    && j < |moves|
    && if j == 0 then moves[0] == Inject(e) && Raises(w, e) && Entered(w) == n
       else RaisedBy(Step(w, moves[0]), moves[1..], j - 1, n, e)
  }

  /** An effect raised here enters the queue. */
  predicate Raises(w: World, e: Effect) {
    HasHandler(w, e) && w.deviceDepth > 0 && |w.queue| < DEFERRAL_CAPACITY
  }

  /** The effect that leaves the queue next, if the queue is what entered it. */
  predicate NextIs(w: World, n: nat, e: Effect) {
    |w.taken| <= n < Entered(w) && w.queue[n - |w.taken|] == e
  }

  lemma StepNext(w: World, m: Move, n: nat, e: Effect)
    requires Enabled(w, m) && NextIs(Step(w, m), n, e)
    ensures NextIs(w, n, e) || (m == Inject(e) && Raises(w, e) && Entered(w) == n)
  {
  }

  lemma StepEntered(w: World, m: Move)
    requires Enabled(w, m)
    ensures Entered(Step(w, m)) == Entered(w) + (if m.Inject? && Raises(w, m.effect) then 1 else 0)
  {
  }

  lemma {:induction false} WhoRaised(w: World, moves: seq<Move>, n: nat, e: Effect)
    requires Possible(w, moves) && NextIs(Run(w, moves), n, e)
    ensures NextIs(w, n, e) || exists j: nat :: RaisedBy(w, moves, j, n, e)
    decreases |moves|
  {
    hide Step, NextIs, Raises, Entered;
    if moves != [] {
      var w1 := Step(w, moves[0]);
      WhoRaised(w1, moves[1..], n, e);
      if NextIs(w1, n, e) {
        StepNext(w, moves[0], n, e);
        assert !NextIs(w, n, e) ==> RaisedBy(w, moves, 0, n, e);
      } else {
        var j: nat :| RaisedBy(w1, moves[1..], j, n, e);
        assert RaisedBy(w, moves, j + 1, n, e);
      }
    }
  }

  lemma {:induction false} SinceRaised(w: World, moves: seq<Move>, j: nat, n: nat, e: Effect)
    requires Possible(w, moves) && RaisedBy(w, moves, j, n, e)
    ensures HasHandler(Run(w, moves), e) <==> LastChange(moves[j + 1..], e) != Some(false)
    decreases |moves|
  {
    hide Step, HasHandler, LastChange;
    if j == 0 {
      var w1 := Step(w, moves[0]);
      StepHandler(w, moves[0], e);
      HandlerAfter(w1, moves[1..], e);
    } else {
      assert moves[1..][j..] == moves[j + 1..];
      SinceRaised(Step(w, moves[0]), moves[1..], j - 1, n, e);
    }
  }

  /** In any run from the start, the effect whose turn comes next was raised by one of the
      moves, and its turn finds nobody exactly when the last word about its pin, or about
      the receiver, since that move was a removal. */
  lemma TurnFindsNobodyExactly(moves: seq<Move>)
    requires Possible(START, moves) && Run(START, moves).queue != []
    ensures var w := Run(START, moves);
            var e := w.queue[0];
            exists j: nat :: RaisedBy(START, moves, j, |w.taken|, e)
                        && (!HasHandler(w, e) <==> LastChange(moves[j + 1..], e) == Some(false))
  {
    var w := Run(START, moves);
    var e := w.queue[0];
    hide Run, Possible, RaisedBy, LastChange, HasHandler;
    WhoRaised(START, moves, |w.taken|, e);
    var j: nat :| RaisedBy(START, moves, j, |w.taken|, e);
    SinceRaised(START, moves, j, |w.taken|, e);
  }

  /** There is only one such move. */
  lemma {:induction false} RaisedOnce(w: World, moves: seq<Move>, j: nat, k: nat, n: nat, e: Effect, f: Effect)
    requires Possible(w, moves) && RaisedBy(w, moves, j, n, e) && RaisedBy(w, moves, k, n, f)
    ensures j == k && e == f
    decreases |moves|
  {
    hide Step, HasHandler, Raises, Entered;
    if j > 0 && k > 0 {
      RaisedOnce(Step(w, moves[0]), moves[1..], j - 1, k - 1, n, e, f);
    } else if j > 0 {
      StepEntered(w, moves[0]);
      EntersLater(Step(w, moves[0]), moves[1..], j - 1, n, e);
    } else if k > 0 {
      StepEntered(w, moves[0]);
      EntersLater(Step(w, moves[0]), moves[1..], k - 1, n, f);
    }
  }

  lemma {:induction false} EntersLater(w: World, moves: seq<Move>, j: nat, n: nat, e: Effect)
    requires Possible(w, moves) && RaisedBy(w, moves, j, n, e)
    ensures Entered(w) <= n
    decreases |moves|
  {
    hide Step, Raises, Entered;
    if j > 0 {
      StepEntered(w, moves[0]);
      EntersLater(Step(w, moves[0]), moves[1..], j - 1, n, e);
    }
  }

  ghost predicate NobodyLeaves(moves: seq<Move>) {
    forall k :: 0 <= k < |moves| ==> moves[k] != SetReceiver(false) && !moves[k].Detach?
  }

  ghost predicate AllWaitingHandled(w: World) {
    forall i :: 0 <= i < |w.queue| ==> HasHandler(w, w.queue[i])
  }

  lemma StepWaiting(w: World, m: Move)
    requires Enabled(w, m) && m != SetReceiver(false) && !m.Detach? && AllWaitingHandled(w)
    ensures AllWaitingHandled(Step(w, m))
  {
  }

  /** As long as no handler is detached and the receiver is not unbound, every turn finds
      someone to run. */
  lemma {:induction false} StartedIfNobodyLeaves(w: World, moves: seq<Move>)
    requires Possible(w, moves) && NobodyLeaves(moves) && AllWaitingHandled(w)
    ensures NoEmptyTurn(w, moves) && (NobodyMissed(w) ==> NobodyMissed(Run(w, moves)))
    ensures NoEarlyWindow(w, moves) && AllStarted(w) ==> AllStarted(Run(w, moves))
    decreases |moves|
  {
    hide Step;
    if moves != [] {
      assert moves[0] != SetReceiver(false) && !moves[0].Detach?;
      assert NobodyLeaves(moves[1..]) by {
        assert forall k :: 0 <= k < |moves| - 1 ==> moves[1..][k] == moves[k + 1];
      }
      StepWaiting(w, moves[0]);
      StartedIfNobodyLeaves(Step(w, moves[0]), moves[1..]);
    }
    MissedExactly(w, moves);
    StartedExactly(w, moves);
  }

  /** A device has just been entered, with a handler on pin 1. */
  function InsideDevice(receiver: bool): World {
    World([Runs(App), Running(true, false), Device], 1, 1, [], false, receiver, {1}, true, 0, 0, [], [], 0, 0)
  }

  /** Two effects of one device call deferred, the call over, nothing delivered yet. */
  function BothDeferred(e: Effect, f: Effect, receiver: bool): World {
    World([Runs(App), Delivering(false)], 0, 1, [e, f], false, receiver, {1}, true, 0, 0,
          [Raised(e, true), Raised(f, true)], [], 0, 0)
  }

  /** The first one's handler has run, and taken away whoever the second was for. */
  function FirstLeft(f: Effect, leave: Move): World {
    World([Runs(App), Delivering(false)], 0, 1, [f], false, false, if leave == Detach(1) then {} else {1}, true,
          0, 0, [Raised(IsrOn(1), true), Raised(f, true)], [Taken(IsrOn(1), Started)], 0, 0)
  }

  lemma GoInside(receiver: bool, rest: seq<Move>) returns (moves: seq<Move>)
    requires Possible(InsideDevice(receiver), rest)
    ensures Possible(START, moves) && Run(START, moves) == Run(InsideDevice(receiver), rest)
  {
    hide Run, Possible;
    var s := START.(open := true);
    var s0 := s.(attached := {1});
    var s1 := s0.(receiver := receiver);
    var calls := [Call(false)] + rest;
    RunOne(s1, Call(false), rest, InsideDevice(receiver));
    RunOne(s0, SetReceiver(receiver), calls, s1);
    assert s.attached + {1} == {1};
    RunOne(s, Attach(1), [SetReceiver(receiver)] + calls, s0);
    assert Dropped([]) == [] && START.taken + [] == [];
    moves := [WindowStart] + ([Attach(1)] + ([SetReceiver(receiver)] + calls));
    RunOne(START, WindowStart, [Attach(1)] + ([SetReceiver(receiver)] + calls), s);
  }

  lemma DeferBoth(f: Effect, receiver: bool, rest: seq<Move>) returns (moves: seq<Move>)
    requires (f == IsrOn(1) || (f.FrameTo? && receiver)) && Possible(BothDeferred(IsrOn(1), f, receiver), rest)
    ensures Possible(InsideDevice(receiver), moves)
    ensures Run(InsideDevice(receiver), moves) == Run(BothDeferred(IsrOn(1), f, receiver), rest)
  {
    hide Run, Possible;
    var e := IsrOn(1);
    var s2 := InsideDevice(receiver);
    var s3 := s2.(queue := [e], raised := [Raised(e, true)]);
    var s4 := s2.(queue := [e, f], raised := [Raised(e, true), Raised(f, true)]);
    assert s4.stack[..1] == [Runs(App)];
    RunOne(s4, DeviceReturns, rest, BothDeferred(e, f, receiver));
    RunOne(s3, Inject(f), [DeviceReturns] + rest, s4);
    moves := [Inject(e)] + ([Inject(f)] + ([DeviceReturns] + rest));
    RunOne(s2, Inject(e), [Inject(f)] + ([DeviceReturns] + rest), s3);
  }

  lemma FirstRuns(f: Effect, receiver: bool, leave: Move, rest: seq<Move>) returns (moves: seq<Move>)
    requires (leave == Detach(1) && !receiver) || (leave == SetReceiver(false) && receiver)
    requires Possible(FirstLeft(f, leave), rest)
    ensures Possible(BothDeferred(IsrOn(1), f, receiver), moves)
    ensures Run(BothDeferred(IsrOn(1), f, receiver), moves) == Run(FirstLeft(f, leave), rest)
  {
    hide Run, Possible;
    var s5 := BothDeferred(IsrOn(1), f, receiver);
    var s7 := FirstLeft(f, leave);
    var s6 := s7.(stack := [Runs(App), Delivering(false), Runs(Isr(1))]);
    assert Below(s6) == s7.stack;
    RunOne(s6, CodeReturns, rest, s7);
    var s := s6.(receiver := receiver, attached := {1});
    assert {1} - {1} == {};
    RunOne(s, leave, [CodeReturns] + rest, s6);
    assert s5.queue[1..] == [f];
    assert s == Delivered(s5);
    moves := [DeliverNext] + ([leave] + ([CodeReturns] + rest));
    RunOne(s5, DeliverNext, [leave] + ([CodeReturns] + rest), s);
  }

  lemma SecondFindsNobody(f: Effect, leave: Move) returns (moves: seq<Move>)
    requires (f == IsrOn(1) && leave == Detach(1)) || (f.FrameTo? && leave == SetReceiver(false))
    ensures Possible(FirstLeft(f, leave), moves)
    ensures var w := Run(FirstLeft(f, leave), moves);
            w.stack == [Runs(App)] && w.queue == [] && w.dropped == 0 && w.diags == 0 &&
            w.taken == [Taken(IsrOn(1), Started), Taken(f, FoundNobody)]
  {
    hide Run, Possible;
    var s8 := FirstLeft(f, leave);
    var s9 := Delivered(s8);
    var s10 := s9.(stack := [Runs(App)]);
    assert Below(s9) == s10.stack;
    RunNothing(s10);
    RunOne(s9, OperationReturns, [], s10);
    moves := [DeliverNext] + ([OperationReturns] + []);
    RunOne(s8, DeliverNext, [OperationReturns] + [], s9);
  }

  /** A run in which somebody leaves: an interrupt and another effect are deferred
      together, the interrupt's handler takes away whoever the other was for, and that
      one is gone with no diagnostic. */
  lemma SecondVanishes(f: Effect, receiver: bool, leave: Move)
    requires (f == IsrOn(1) && leave == Detach(1) && !receiver)
             || (f.FrameTo? && leave == SetReceiver(false) && receiver)
    ensures exists moves :: Possible(START, moves) &&
              var w := Run(START, moves);
              w.stack == [Runs(App)] && w.queue == [] && w.dropped == 0 && w.diags == 0 &&
              w.taken == [Taken(IsrOn(1), Started), Taken(f, FoundNobody)]
  {
    hide *;
    var moves := SecondFindsNobody(f, leave);
    moves := FirstRuns(f, receiver, leave, moves);
    moves := DeferBoth(f, receiver, moves);
    moves := GoInside(receiver, moves);
  }

  /** The receiver is unbound while a frame waits. */
  lemma AFrameCanVanish(f: Effect)
    requires f.FrameTo?
    ensures exists moves :: Possible(START, moves) &&
              var w := Run(START, moves);
              w.stack == [Runs(App)] && w.queue == [] && w.dropped == 0 && w.diags == 0 &&
              w.taken == [Taken(IsrOn(1), Started), Taken(f, FoundNobody)]
  {
    hide Run, Possible;
    SecondVanishes(f, true, SetReceiver(false));
  }

  /** Two edges of one pin wait, and the handler of the first detaches itself. */
  lemma AnInterruptCanVanish()
    ensures exists moves :: Possible(START, moves) &&
              var w := Run(START, moves);
              w.stack == [Runs(App)] && w.queue == [] && w.dropped == 0 && w.diags == 0 &&
              w.taken == [Taken(IsrOn(1), Started), Taken(IsrOn(1), FoundNobody)]
  {
    hide Run, Possible;
    SecondVanishes(IsrOn(1), false, Detach(1));
  }

  /** An effect raised in an SPI transaction waits for its end; a window begun before that
      lets it go. */
  lemma AWindowCanForget()
    ensures exists moves :: Possible(START, moves) &&
              var w := Run(START, moves);
              w.stack == [Runs(App)] && w.queue == [] && w.dropped == 0 && w.diags == 0 &&
              w.taken == [Taken(IsrOn(1), Forgotten)]
  {
    hide Run, Possible;
    var moves := ForgetsWaiting();
    moves := RaiseInSpi(moves);
    moves := OpenSpi(moves);
  }

  /** An open transaction with an effect of one of its bytes waiting. */
  function WaitsInSpi(): World {
    World([Runs(App)], 0, 1, [IsrOn(1)], true, false, {1}, true, 0, 0, [Raised(IsrOn(1), true)], [], 0, 0)
  }

  lemma ForgetsWaiting() returns (moves: seq<Move>)
    ensures Possible(WaitsInSpi(), moves)
    ensures var w := Run(WaitsInSpi(), moves);
            w.stack == [Runs(App)] && w.queue == [] && w.dropped == 0 && w.diags == 0 &&
            w.taken == [Taken(IsrOn(1), Forgotten)]
  {
    hide Run, Possible;
    var end := WindowBegun(WaitsInSpi());
    assert Dropped([IsrOn(1)]) == [Taken(IsrOn(1), Forgotten)];
    RunNothing(end);
    RunOne(WaitsInSpi(), WindowStart, [], end);
    moves := [WindowStart] + [];
  }

  lemma RaiseInSpi(rest: seq<Move>) returns (moves: seq<Move>)
    requires Possible(WaitsInSpi(), rest)
    ensures Possible(START.(open := true, attached := {1}, inSpi := true), moves)
    ensures Run(START.(open := true, attached := {1}, inSpi := true), moves) == Run(WaitsInSpi(), rest)
  {
    hide Run, Possible;
    var s := START.(open := true, attached := {1}, inSpi := true);
    var inside := s.(stack := [Runs(App), Running(false, false), Device], deviceDepth := 1, maxDepth := 1);
    var raised := inside.(queue := [IsrOn(1)], raised := [Raised(IsrOn(1), true)]);
    assert raised.stack[..1] == [Runs(App)];
    RunOne(raised, DeviceReturns, rest, WaitsInSpi());
    RunOne(inside, Inject(IsrOn(1)), [DeviceReturns] + rest, raised);
    moves := [SpiByte] + ([Inject(IsrOn(1))] + ([DeviceReturns] + rest));
    RunOne(s, SpiByte, [Inject(IsrOn(1))] + ([DeviceReturns] + rest), inside);
  }

  /** A transaction opened in a first window, with a handler on pin 1. */
  lemma OpenSpi(rest: seq<Move>) returns (moves: seq<Move>)
    requires Possible(START.(open := true, attached := {1}, inSpi := true), rest)
    ensures Possible(START, moves)
    ensures Run(START, moves) == Run(START.(open := true, attached := {1}, inSpi := true), rest)
  {
    hide Run, Possible;
    var s := START.(open := true);
    var t := s.(attached := {1});
    assert s.attached + {1} == {1} && Dropped([]) == [] && START.taken + [] == [];
    RunOne(t, SpiBegin, rest, t.(inSpi := true));
    RunOne(s, Attach(1), [SpiBegin] + rest, t);
    moves := [WindowStart] + ([Attach(1)] + ([SpiBegin] + rest));
    RunOne(START, WindowStart, [Attach(1)] + ([SpiBegin] + rest), s);
  }

  lemma RunNothing(w: World)
    ensures Possible(w, []) && Run(w, []) == w
  {
  }

  lemma RunOne(w: World, m: Move, rest: seq<Move>, next: World)
    requires Enabled(w, m) && Step(w, m) == next && Possible(next, rest)
    ensures Possible(w, [m] + rest) && Run(w, [m] + rest) == Run(next, rest)
  {
    assert ([m] + rest)[1..] == rest;
  }
}
