/** A flash memory over SPI: releasing the select line carries a command out, and each
    change to the array uses up a write enable. */
module Flash {
  import opened Wrappers

  const SIZE: nat := 64
  const WRITE_ENABLE: Byte := 0x06
  const PAGE_PROGRAM: Byte := 0x02
  const READ_DATA: Byte := 0x03
  const READ_STATUS: Byte := 0x05
  const CHIP_ERASE: Byte := 0xC7
  const NOTHING: Byte := 0xFF
  const PROGRAM_US: nat := 3000
  const ERASE_US: nat := 8000

  datatype Phase = Idle | Command | Address | Data

  datatype Pending = Nothing | ProgramPending | ErasePending

  datatype Part = Part(phase: Phase, selected: bool, command: Byte, address: Byte, writeEnabled: bool, busy: bool,
                       pending: Pending, doneUs: int, memory: seq<Byte>, staged: seq<Byte>,
                       page: seq<Byte>, pageAddress: Byte, programs: nat, refused: nat)

  function Blank(): (r: seq<Byte>)
    ensures |r| == SIZE
  {
    seq(SIZE, i => 0xFF)
  }

  /** A power cycle: the array stays, a program in flight does not. */
  function Reset(p: Part): Part {
    Part(Idle, false, 0, 0, false, false, Nothing, 0, p.memory, [], [], 0, 0, 0)
  }

  predicate Sane(p: Part) {
    |p.memory| == SIZE && |p.staged| <= SIZE && |p.page| <= SIZE && (p.pending != Nothing <==> p.busy)
  }

  /** Releasing the line commits the command. */
  function Finish(p: Part, now: int): Part {
    var q :=
      if p.command == CHIP_ERASE then
        if !p.writeEnabled || p.busy then p.(refused := p.refused + 1)
        else p.(busy := true, pending := ErasePending, writeEnabled := false, doneUs := now + ERASE_US)
      else if p.command == PAGE_PROGRAM && p.staged != [] then
        if !p.writeEnabled || p.busy then p.(refused := p.refused + 1)
        else p.(busy := true, pending := ProgramPending, writeEnabled := false, doneUs := now + PROGRAM_US,
                pageAddress := p.address, page := p.staged)
      else p;
    q.(phase := Idle, command := 0, staged := [])
  }

  function LineIn(p: Part, line: nat, level: nat, now: int): Part {
    var selected := level == 0;
    if line != 0 || selected == p.selected then p
    else if selected then p.(selected := true, phase := Command, command := 0, staged := [])
    else Finish(p.(selected := false), now)
  }

  function Transfer(p: Part, mosi: Byte): (Part, Byte)
    requires Sane(p)
  {
    if !p.selected then (p, NOTHING)
    else
      match p.phase
      case Command =>
        var q := p.(command := mosi);
        (if mosi == WRITE_ENABLE then q.(writeEnabled := true, phase := Idle)
         else if mosi == CHIP_ERASE then q.(phase := Idle)
         else if mosi == READ_STATUS then q.(phase := Data)
         else q.(phase := Address), NOTHING)
      case Address => (p.(address := mosi, phase := Data), NOTHING)
      case Data =>
        if p.command == READ_STATUS then (p, (if p.busy then 1 else 0) + (if p.writeEnabled then 2 else 0))
        else if p.command == READ_DATA then
          if p.address < SIZE then (p.(address := p.address + 1), p.memory[p.address]) else (p, NOTHING)
        else if p.command == PAGE_PROGRAM then
          (if |p.staged| < SIZE then p.(staged := p.staged + [mosi]) else p, NOTHING)
        else (p, NOTHING)
      case Idle => (p, NOTHING)
  }

  /** Bytes laid down from an address, the rest of them past the end lost. */
  function Programmed(memory: seq<Byte>, address: nat, page: seq<Byte>): (r: seq<Byte>)
    requires |memory| == SIZE
    ensures |r| == SIZE
  {
    seq(SIZE, i requires 0 <= i < SIZE => if address <= i < address + |page| then page[i - address] else memory[i])
  }

  function Advance(p: Part, now: int): Part
    requires Sane(p)
  {
    if !p.busy || now < p.doneUs then p
    else p.(busy := false,
            memory := if p.pending == ErasePending then Blank() else Programmed(p.memory, p.pageAddress, p.page),
            programs := p.programs + 1, pending := Nothing, page := [])
  }

  lemma StaySane(p: Part, mosi: Byte, line: nat, level: nat, now: int)
    requires Sane(p)
    ensures Sane(Transfer(p, mosi).0) && Sane(LineIn(p, line, level, now)) && Sane(Advance(p, now)) && Sane(Reset(p))
  {
  }

  // --- What a selection means ----------------------------------------------

  datatype Op = Program(address: Byte, data: seq<Byte>) | Erase

  /** What the bytes of one selection ask the array to do: an erase, or a program of at
      most a page, if the bytes say one. */
  function Meant(bytes: seq<Byte>): Option<Op> {
    if bytes == [] then None
    else if bytes[0] == CHIP_ERASE then Some(Erase)
    else if bytes[0] == PAGE_PROGRAM && |bytes| >= 3 then
      Some(Program(bytes[1], bytes[2..if |bytes| <= SIZE + 2 then |bytes| else SIZE + 2]))
    else None
  }

  function Done(memory: seq<Byte>, op: Op): (r: seq<Byte>)
    requires |memory| == SIZE
    ensures |r| == SIZE
  {
    if op.Erase? then Blank() else Programmed(memory, op.address, op.data)
  }

  function Takes(op: Op): nat {
    if op.Erase? then ERASE_US else PROGRAM_US
  }

  datatype Act = Line(line: nat, level: nat, now: int) | Clock(mosi: Byte) | Tick(now: int) | PowerCycle

  /** An operation begun by the bytes of one selection. */
  datatype Begun = Begun(bytes: seq<Byte>, at: int)

  datatype Landing = Landing(begun: Begun, at: int)

  /** The part with its past: the bytes of this selection, the operation in flight, the
      ones that landed, and how many selections enabled a write. */
  datatype World = World(part: Part, bytes: seq<Byte>, inFlight: Option<Begun>, landed: seq<Landing>,
                         enables: nat, begins: nat)

  function Step(w: World, a: Act): World
    requires Sane(w.part)
  {
    match a
    case Line(line, level, now) =>
      var p := LineIn(w.part, line, level, now);
      if p.selected == w.part.selected then w.(part := p)
      else if !w.part.busy && p.busy
      then w.(part := p, bytes := [], inFlight := Some(Begun(w.bytes, now)), begins := w.begins + 1)
      else w.(part := p, bytes := [])
    case Clock(mosi) =>
      var p := Transfer(w.part, mosi).0;
      if !w.part.selected then w.(part := p)
      else w.(part := p, bytes := w.bytes + [mosi],
              enables := if w.bytes == [] && mosi == WRITE_ENABLE then w.enables + 1 else w.enables)
    case Tick(now) =>
      var p := Advance(w.part, now);
      if w.part.busy && !p.busy && w.inFlight.Some?
      then w.(part := p, landed := w.landed + [Landing(w.inFlight.value, now)], inFlight := None)
      else w.(part := p)
    case PowerCycle => w.(part := Reset(w.part), bytes := [], inFlight := None)
  }

  lemma StepSane(w: World, a: Act)
    requires Sane(w.part)
    ensures Sane(Step(w, a).part)
  {
    match a
    case Line(line, level, now) => StaySane(w.part, 0, line, level, now);
    case Clock(mosi) => StaySane(w.part, mosi, 0, 0, 0);
    case Tick(now) => StaySane(w.part, 0, 0, 0, now);
    case PowerCycle =>
  }

  function Run(w: World, acts: seq<Act>): World
    requires Sane(w.part)
    decreases |acts|
  {
    if acts == [] then w
    else
      StepSane(w, acts[0]);
      Run(Step(w, acts[0]), acts[1..])
  }

  /** The state of a selection is what its bytes make it. */
  predicate Follows(p: Part, bytes: seq<Byte>) {
    && (bytes == [] ==> p.phase == Command && p.staged == [] && p.command == 0)
    && (bytes != [] ==>
          && p.command == bytes[0]
          && (p.command == CHIP_ERASE || p.command == WRITE_ENABLE ==> p.phase == Idle && p.staged == [])
          && (p.command == READ_STATUS ==> p.phase == Data && p.staged == [])
          && (p.command == PAGE_PROGRAM ==>
                && (|bytes| == 1 ==> p.phase == Address && p.staged == [])
                && (|bytes| >= 2 ==>
                      p.phase == Data && p.address == bytes[1]
                      && p.staged == bytes[2..if |bytes| <= SIZE + 2 then |bytes| else SIZE + 2]))
          && (p.command !in {CHIP_ERASE, WRITE_ENABLE, READ_STATUS} ==>
              p.phase == if |bytes| == 1 then Address else Data))
  }

  predicate Tracks(w: World) {
    var p := w.part;
    && (!p.selected ==> w.bytes == [])
    && (p.selected ==> Follows(p, w.bytes))
    && (p.busy <==> w.inFlight.Some?)
    && (w.inFlight.Some? ==> InFlight(p, w.inFlight.value))
  }

  /** The latched operation is the one the selection's bytes asked for. */
  predicate InFlight(p: Part, b: Begun) {
    && Meant(b.bytes).Some?
    && var op := Meant(b.bytes).value;
       && p.doneUs == b.at + Takes(op)
       && (op.Erase? <==> p.pending == ErasePending)
       && (op.Program? ==> p.pageAddress == op.address && p.page == op.data)
  }

  ghost predicate Honest(landed: seq<Landing>) {
    forall i :: 0 <= i < |landed| ==>
                  Meant(landed[i].begun.bytes).Some?
                  && landed[i].at >= landed[i].begun.at + Takes(Meant(landed[i].begun.bytes).value)
  }

  function Landed(memory: seq<Byte>, landed: seq<Landing>): (r: seq<Byte>)
    requires |memory| == SIZE
    ensures |r| == SIZE
    decreases |landed|
  {
    if landed == [] then memory
    else
      var op := Meant(landed[|landed| - 1].begun.bytes);
      var before := Landed(memory, landed[..|landed| - 1]);
      if op.Some? then Done(before, op.value) else before
  }

  /** The array is the first one with the landed operations done in order; each was asked
      for by the bytes of one selection, its time passed, and a write enable was spent
      on it. */
  ghost predicate Explained(w: World, initial: seq<Byte>) {
    && Sane(w.part) && |initial| == SIZE && Tracks(w) && Honest(w.landed)
    && w.part.memory == Landed(initial, w.landed)
    && |w.landed| + (if w.inFlight.Some? then 1 else 0) <= w.begins
    && w.begins + (if w.part.writeEnabled then 1 else 0) <= w.enables
  }

  lemma FollowsOn(p: Part, bytes: seq<Byte>, mosi: Byte)
    requires Sane(p) && p.selected && Follows(p, bytes)
    ensures Follows(Transfer(p, mosi).0, bytes + [mosi])
  {
    if bytes != [] && p.command == PAGE_PROGRAM && |bytes| >= 2 && |bytes| < SIZE + 2 {
      assert (bytes + [mosi])[2..] == bytes[2..] + [mosi];
      assert (bytes + [mosi])[2..|bytes| + 1] == (bytes + [mosi])[2..] && bytes[2..|bytes|] == bytes[2..];
    }
  }

  lemma ClockTracks(w: World, mosi: Byte)
    requires Sane(w.part) && Tracks(w)
    ensures Tracks(Step(w, Clock(mosi)))
  {
    hide InFlight, Meant, Follows;
    InFlightKept(w.part, Step(w, Clock(mosi)).part, w.inFlight);
    if w.part.selected {
      FollowsOn(w.part, w.bytes, mosi);
    }
  }

  lemma InFlightKept(p: Part, q: Part, b: Option<Begun>)
    requires q.doneUs == p.doneUs && q.pending == p.pending && q.pageAddress == p.pageAddress && q.page == p.page
    ensures b.Some? && InFlight(p, b.value) ==> InFlight(q, b.value)
  {
  }

  lemma LineTracks(w: World, line: nat, level: nat, now: int)
    requires Sane(w.part) && Tracks(w)
    ensures Tracks(Step(w, Line(line, level, now)))
  {
    var p := w.part;
    var q := LineIn(p, line, level, now);
    if q.busy == p.busy {
      hide InFlight, Meant;
      InFlightKept(p, q, w.inFlight);
    } else {
      assert Meant(w.bytes).Some?;
    }
  }

  lemma StepExplained(w: World, a: Act, initial: seq<Byte>)
    requires Explained(w, initial)
    ensures Explained(Step(w, a), initial)
  {
    StepSane(w, a);
    match a
    case Line(line, level, now) =>
      LineTracks(w, line, level, now);
      hide Tracks, Honest, Landed;
      if !w.part.busy && LineIn(w.part, line, level, now).busy {
        TracksBusy(w);
      }
    case Clock(mosi) =>
      ClockTracks(w, mosi);
      EnableOnce(w, mosi);
      hide Tracks, Honest, Landed;
    case Tick(now) => TickExplained(w, now, initial);
    case PowerCycle =>
  }

  lemma TracksBusy(w: World)
    requires Tracks(w)
    ensures w.part.busy <==> w.inFlight.Some?
  {
  }

  lemma EnableOnce(w: World, mosi: Byte)
    requires Sane(w.part) && Tracks(w)
    ensures var r := Step(w, Clock(mosi));
            r.part.memory == w.part.memory && r.enables >= w.enables
            && (r.part.writeEnabled && !w.part.writeEnabled ==> r.enables == w.enables + 1)
            && (w.part.writeEnabled ==> r.part.writeEnabled)
  {
  }

  lemma TickExplained(w: World, now: int, initial: seq<Byte>)
    requires Explained(w, initial)
    ensures Explained(Step(w, Tick(now)), initial)
  {
    StepSane(w, Tick(now));
    if w.part.busy && now >= w.part.doneUs {
      var l := Landing(w.inFlight.value, now);
      assert (w.landed + [l])[..|w.landed|] == w.landed;
      assert Landed(initial, w.landed + [l]) == Done(w.part.memory, Meant(l.begun.bytes).value);
    }
  }

  /** Storage is atomic. Over any run of selections, bytes, time and power cycles the
      array holds exactly the operations that landed, in order: each was the whole
      content of one selection, had its time, and had a write enable of its own. What
      was abandoned, refused or interrupted changed nothing. */
  lemma {:induction false} ArrayIsTheLandedOperations(w: World, acts: seq<Act>, initial: seq<Byte>)
    requires Explained(w, initial)
    ensures Explained(Run(w, acts), initial)
    decreases |acts|
  {
    hide Tracks, Honest, Landed, Step;
    if acts != [] {
      StepSane(w, acts[0]);
      StepExplained(w, acts[0], initial);
      ArrayIsTheLandedOperations(Step(w, acts[0]), acts[1..], initial);
    }
  }

  lemma FreshIsExplained(p: Part)
    requires |p.memory| == SIZE
    ensures Explained(World(Reset(p), [], None, [], 0, 0), p.memory)
  {
  }

  /** What a busy part has latched. */
  predicate SameOperation(p: Part, q: Part) {
    && q.busy == p.busy && q.pending == p.pending && q.page == p.page && q.pageAddress == p.pageAddress
    && q.doneUs == p.doneUs && q.memory == p.memory
  }

  lemma StepUndisturbed(w: World, a: Act)
    requires Sane(w.part) && w.part.busy && (a.Line? || a.Clock?)
    ensures SameOperation(w.part, Step(w, a).part)
  {
  }

  /** While the part is busy, no selection, byte or status poll disturbs what is in
      flight. */
  lemma {:induction false} BusyIsUndisturbed(w: World, acts: seq<Act>)
    requires Sane(w.part) && w.part.busy
    requires forall i :: 0 <= i < |acts| ==> acts[i].Line? || acts[i].Clock?
    ensures SameOperation(w.part, Run(w, acts).part)
    decreases |acts|
  {
    hide Step;
    if acts != [] {
      StepSane(w, acts[0]);
      StepUndisturbed(w, acts[0]);
      BusyIsUndisturbed(Step(w, acts[0]), acts[1..]);
    }
  }

  // --- Programming and reading back ----------------------------------------

  function Send(p: Part, bytes: seq<Byte>): (r: (Part, seq<Byte>))
    requires Sane(p)
    ensures Sane(r.0) && |r.1| == |bytes|
    decreases |bytes|
  {
    if bytes == [] then (p, [])
    else
      StaySane(p, bytes[0], 0, 0, 0);
      var (q, reply) := Transfer(p, bytes[0]);
      var (end, replies) := Send(q, bytes[1..]);
      (end, [reply] + replies)
  }

  /** The byte a read finds at an address. */
  function ByteAt(memory: seq<Byte>, at: nat): Byte
    requires |memory| == SIZE
  {
    if at < SIZE then memory[at] else NOTHING
  }

  lemma SendCons(p: Part, b: Byte, rest: seq<Byte>)
    requires Sane(p)
    ensures var (q, reply) := Transfer(p, b);
            && Sane(q) && Send(p, [b] + rest) == (Send(q, rest).0, [reply] + Send(q, rest).1)
  {
    StaySane(p, b, 0, 0, 0);
    assert ([b] + rest)[1..] == rest;
    hide Transfer;
  }

  lemma ReadByte(p: Part, b: Byte)
    requires Sane(p) && p.selected && p.phase == Data && p.command == READ_DATA
    ensures var (q, reply) := Transfer(p, b);
            && reply == ByteAt(p.memory, p.address)
            && q == p.(address := if p.address < SIZE then p.address + 1 else p.address)
  {
  }

  lemma {:induction false} ReadOut(p: Part, clocks: seq<Byte>)
    requires Sane(p) && p.selected && p.phase == Data && p.command == READ_DATA
    ensures forall i :: 0 <= i < |clocks| ==> Send(p, clocks).1[i] == ByteAt(p.memory, p.address + i)
    decreases |clocks|
  {
    hide Transfer, Send;
    if clocks != [] {
      assert clocks == [clocks[0]] + clocks[1..];
      SendCons(p, clocks[0], clocks[1..]);
      ReadByte(p, clocks[0]);
      var q := Transfer(p, clocks[0]).0;
      ReadOut(q, clocks[1..]);
      forall i | 0 <= i < |clocks|
        ensures Send(p, clocks).1[i] == ByteAt(p.memory, p.address + i)
      {
        if i > 0 {
          assert Send(p, clocks).1[i] == Send(q, clocks[1..]).1[i - 1];
        }
      }
    }
  }

  lemma StageByte(p: Part, b: Byte)
    requires Sane(p) && p.selected && p.phase == Data && p.command == PAGE_PROGRAM && |p.staged| < SIZE
    ensures Transfer(p, b).0 == p.(staged := p.staged + [b])
  {
  }

  lemma {:induction false} StageAll(p: Part, data: seq<Byte>)
    requires Sane(p) && p.selected && p.phase == Data && p.command == PAGE_PROGRAM && |p.staged| + |data| <= SIZE
    ensures Send(p, data).0 == p.(staged := p.staged + data)
    decreases |data|
  {
    hide Transfer;
    if data == [] {
      assert p.staged + data == p.staged;
    } else {
      assert data == [data[0]] + data[1..];
      SendCons(p, data[0], data[1..]);
      StageByte(p, data[0]);
      StageAll(p.(staged := p.staged + [data[0]]), data[1..]);
      assert p.staged + [data[0]] + data[1..] == p.staged + data;
    }
  }

  lemma SendTwo(p: Part, a: Byte, b: Byte, rest: seq<Byte>)
    requires Sane(p)
    ensures var q := Transfer(p, a).0;
            && Sane(q) && Sane(Transfer(q, b).0)
            && Send(p, [a, b] + rest).0 == Send(Transfer(q, b).0, rest).0
            && Send(p, [a, b] + rest).1[2..] == Send(Transfer(q, b).0, rest).1
  {
    hide Transfer, Send;
    SendCons(p, a, [b] + rest);
    SendCons(Transfer(p, a).0, b, rest);
    assert [a, b] + rest == [a] + ([b] + rest);
  }

  lemma Addressed(p: Part, op: Byte, address: Byte)
    requires Sane(p) && p.selected && p.phase == Command && op in {PAGE_PROGRAM, READ_DATA}
    ensures Sane(Transfer(p, op).0)
    ensures Transfer(Transfer(p, op).0, address).0 == p.(command := op, address := address, phase := Data)
  {
  }

  /** A page staged under one selection and committed by releasing it. */
  lemma CommitPage(p: Part, address: Byte, data: seq<Byte>, now: int)
    requires Sane(p) && p.selected && p.phase == Command && p.staged == [] && p.writeEnabled && !p.busy
    requires 1 <= |data| <= SIZE
    ensures LineIn(Send(p, [PAGE_PROGRAM, address] + data).0, 0, 1, now) ==
            p.(selected := false, phase := Idle, command := 0, address := address, writeEnabled := false, busy := true,
               pending := ProgramPending, doneUs := now + PROGRAM_US, pageAddress := address, page := data)
  {
    hide Transfer, Send;
    SendTwo(p, PAGE_PROGRAM, address, data);
    var q := p.(command := PAGE_PROGRAM, address := address, phase := Data);
    Addressed(p, PAGE_PROGRAM, address);
    StageAll(q, data);
    assert q.staged + data == data;
  }

  /** A read command answers with the array from its address on. */
  lemma ReadAnswers(p: Part, address: Byte, clocks: seq<Byte>)
    requires Sane(p) && p.selected && p.phase == Command
    ensures forall i :: 2 <= i < |clocks| + 2 ==>
                          Send(p, [READ_DATA, address] + clocks).1[i] == ByteAt(p.memory, address + i - 2)
  {
    hide Transfer, Send;
    SendTwo(p, READ_DATA, address, clocks);
    var q := p.(command := READ_DATA, address := address, phase := Data);
    Addressed(p, READ_DATA, address);
    ReadOut(q, clocks);
    var replies := Send(p, [READ_DATA, address] + clocks).1;
    forall i | 2 <= i < |clocks| + 2
      ensures replies[i] == ByteAt(p.memory, address + i - 2)
    {
      assert replies[i] == replies[2..][i - 2];
    }
  }

  /** A page written with a write enable, and given its time, reads back from the address
      it was written to, cut at the end of the array. */
  lemma ProgramReadsBack(p: Part, address: Byte, data: seq<Byte>, clocks: seq<Byte>, now: int, later: int)
    requires Sane(p) && p.selected && p.phase == Command && p.staged == [] && p.writeEnabled && !p.busy
    requires 1 <= |data| <= SIZE && |clocks| == |data| && later >= now + PROGRAM_US
    ensures var busy := LineIn(Send(p, [PAGE_PROGRAM, address] + data).0, 0, 1, now);
            && Sane(busy) && busy.memory == p.memory && busy.busy && !busy.writeEnabled
            && var done := Advance(busy, later);
               && Sane(done) && Sane(LineIn(done, 0, 0, later))
               && var replies := Send(LineIn(done, 0, 0, later), [READ_DATA, address] + clocks).1;
                  forall i :: 2 <= i < |data| + 2 ==>
                                replies[i] == if address + i - 2 < SIZE then data[i - 2] else NOTHING
  {
    hide Transfer, Send;
    CommitPage(p, address, data, now);
    hide LineIn, Programmed, ByteAt;
    var busy := LineIn(Send(p, [PAGE_PROGRAM, address] + data).0, 0, 1, now);
    StaySane(busy, 0, 0, 0, later);
    var done := Advance(busy, later);
    StaySane(done, 0, 0, 0, later);
    Selecting(done, later);
    ReadAnswers(LineIn(done, 0, 0, later), address, clocks);
    var replies := Send(LineIn(done, 0, 0, later), [READ_DATA, address] + clocks).1;
    forall i | 2 <= i < |data| + 2
      ensures replies[i] == if address + i - 2 < SIZE then data[i - 2] else NOTHING
    {
      ProgrammedByte(p.memory, address, data, i - 2);
    }
  }

  lemma ProgrammedByte(memory: seq<Byte>, address: nat, data: seq<Byte>, i: nat)
    requires |memory| == SIZE && i < |data|
    ensures ByteAt(Programmed(memory, address, data), address + i) == if address + i < SIZE then data[i] else NOTHING
  {
  }

  lemma Selecting(p: Part, now: int)
    requires !p.selected
    ensures LineIn(p, 0, 0, now) == p.(selected := true, phase := Command, command := 0, staged := [])
  {
  }

  /** A status poll answers with the busy and the write enable bit, and changes neither. */
  lemma StatusAnswers(p: Part, clock: Byte)
    requires Sane(p) && p.selected && p.phase == Command
    ensures var (q, replies) := Send(p, [READ_STATUS, clock]);
            && (replies[1] % 2 == 1 <==> p.busy) && (replies[1] / 2 % 2 == 1 <==> p.writeEnabled) && replies[1] < 4
            && q.busy == p.busy && q.writeEnabled == p.writeEnabled
  {
    var q := Transfer(p, READ_STATUS).0;
    var bytes := [READ_STATUS] + ([clock] + []);
    assert bytes == [READ_STATUS, clock];
    SendCons(p, READ_STATUS, [clock] + []);
    SendCons(q, clock, []);
  }

  // --- Selections ----------------------------------------------------------

  /** One selection: the line taken low, bytes clocked, the line released. */
  function Selection(p: Part, bytes: seq<Byte>, now: int): (r: (Part, seq<Byte>))
    requires Sane(p) && !p.selected
    ensures Sane(r.0) && !r.0.selected && |r.1| == |bytes|
  {
    StaySane(p, 0, 0, 0, now);
    var (q, replies) := Send(LineIn(p, 0, 0, now), bytes);
    SendKeepsSelected(LineIn(p, 0, 0, now), bytes);
    StaySane(q, 0, 0, 1, now);
    (LineIn(q, 0, 1, now), replies)
  }

  lemma {:induction false} SendKeepsSelected(p: Part, bytes: seq<Byte>)
    requires Sane(p)
    ensures Send(p, bytes).0.selected == p.selected
    decreases |bytes|
  {
    if bytes != [] {
      StaySane(p, bytes[0], 0, 0, 0);
      SendKeepsSelected(Transfer(p, bytes[0]).0, bytes[1..]);
    }
  }

  /** What a selection under way has done to a part: nothing but follow its bytes, and be
      enabled if they began with the enable command. */
  predicate Heard(p: Part, q: Part, bytes: seq<Byte>) {
    && SameOperation(p, q) && q.selected && q.refused == p.refused && q.programs == p.programs
    && (q.writeEnabled <==> p.writeEnabled || (bytes != [] && bytes[0] == 0x06))
    && Follows(q, bytes)
  }

  lemma HeardOn(p: Part, q: Part, bytes: seq<Byte>, b: Byte)
    requires Sane(q) && Heard(p, q, bytes)
    ensures Heard(p, Transfer(q, b).0, bytes + [b])
  {
    FollowsOn(q, bytes, b);
    var first := if bytes == [] then b else bytes[0];
    assert (bytes + [b])[0] == first;
    assert bytes == [] <==> q.phase == Command;
  }

  lemma {:induction false} SendHeard(p: Part, q: Part, before: seq<Byte>, bytes: seq<Byte>)
    requires Sane(q) && Heard(p, q, before)
    ensures Heard(p, Send(q, bytes).0, before + bytes)
    decreases |bytes|
  {
    hide Heard, Transfer;
    if bytes == [] {
      assert before + bytes == before;
    } else {
      StaySane(q, bytes[0], 0, 0, 0);
      HeardOn(p, q, before, bytes[0]);
      SendHeard(p, Transfer(q, bytes[0]).0, before + [bytes[0]], bytes[1..]);
      assert before + [bytes[0]] + bytes[1..] == before + bytes;
    }
  }

  /** What a whole selection does to a part: an operation it asks for begins exactly when
      a write is enabled and nothing is in flight, spends the enable and is latched as it
      was asked; else it is refused and counted. A selection that asks for none refuses
      nothing, and enables a write exactly when it begins with the enable command. The
      array is left alone by all of them. */
  predicate BeginsOrNot(p: Part, q: Part, bytes: seq<Byte>, now: int) {
    && q.memory == p.memory && q.programs == p.programs
    && (Meant(bytes).None? ==>
          SameOperation(p, q) && q.refused == p.refused
          && (q.writeEnabled <==> p.writeEnabled || (bytes != [] && bytes[0] == 0x06)))
    && (Meant(bytes).Some? && p.writeEnabled && !p.busy ==>
          q.busy && InFlight(q, Begun(bytes, now)) && !q.writeEnabled && q.refused == p.refused)
    && (Meant(bytes).Some? && (!p.writeEnabled || p.busy) ==>
          SameOperation(p, q) && q.refused == p.refused + 1 && q.writeEnabled == p.writeEnabled)
  }

  lemma BeginsExactly(p: Part, bytes: seq<Byte>, now: int)
    requires Sane(p) && !p.selected
    ensures BeginsOrNot(p, Selection(p, bytes, now).0, bytes, now)
  {
    Selecting(p, now);
    var s := LineIn(p, 0, 0, now);
    assert Sane(s) && Heard(p, s, []);
    SendHeard(p, s, [], bytes);
    assert [] + bytes == bytes;
    ReleaseBegins(p, Send(s, bytes).0, bytes, now);
  }

  lemma ReleaseBegins(p: Part, q: Part, bytes: seq<Byte>, now: int)
    requires Sane(q) && Heard(p, q, bytes)
    ensures BeginsOrNot(p, LineIn(q, 0, 1, now), bytes, now)
  {
  }

  /** A read under a selection of its own. */
  lemma ReadSelection(p: Part, address: Byte, clocks: seq<Byte>, now: int)
    requires Sane(p) && !p.selected
    ensures var replies := Selection(p, [READ_DATA, address] + clocks, now).1;
            forall i :: 2 <= i < |replies| ==> replies[i] == ByteAt(p.memory, address + i - 2)
  {
    hide Send, Transfer;
    Selecting(p, now);
    ReadAnswers(LineIn(p, 0, 0, now), address, clocks);
  }

  /** The array as an operation was to leave it. */
  predicate Holds(memory: seq<Byte>, before: seq<Byte>, op: Op)
    requires |memory| == |before| == SIZE
  {
    forall k :: 0 <= k < SIZE ==>
                  memory[k] == if op.Erase? then 0xFF
                               else if op.address <= k < op.address + |op.data| then op.data[k - op.address]
                               else before[k]
  }

  /** A write enabled, an operation asked for and its time waited out, each under a
      selection of its own: nothing lands before the 3000 us of a program or the 8000 us
      of an erase are over, the first advance from then on lands it, and a read from any
      address answers with the array as it was to be. */
  lemma EnableOperateReadBack(p: Part, rest: seq<Byte>, bytes: seq<Byte>, address: Byte, clocks: seq<Byte>,
                              enableAt: int, at: int, early: int, later: int, readAt: int)
    requires Sane(p) && !p.selected && !p.busy && Meant(bytes).Some?
    requires early < at + (if bytes[0] == 0xC7 then 8000 else 3000) <= later
    ensures var enabled := Selection(p, [0x06] + rest, enableAt).0;
            var busy := Selection(enabled, bytes, at).0;
            var done := Advance(busy, later);
            && busy.busy && Advance(busy, early) == busy && busy.memory == p.memory
            && Sane(done) && !done.selected && !done.busy && !done.writeEnabled && done.programs == p.programs + 1
            && done.refused == p.refused && Holds(done.memory, p.memory, Meant(bytes).value)
            && var replies := Selection(done, [READ_DATA, address] + clocks, readAt).1;
               forall i :: 2 <= i < |replies| ==>
                             replies[i] == if address + i - 2 < 64 then done.memory[address + i - 2] else 0xFF
  {
    BeginsExactly(p, [0x06] + rest, enableAt);
    var enabled := Selection(p, [0x06] + rest, enableAt).0;
    assert ([0x06] + rest)[0] == 0x06;
    BeginsExactly(enabled, bytes, at);
    var busy := Selection(enabled, bytes, at).0;
    hide Selection;
    var done := Advance(busy, later);
    StaySane(busy, 0, 0, 0, later);
    ReadSelection(done, address, clocks, readAt);
  }
}
