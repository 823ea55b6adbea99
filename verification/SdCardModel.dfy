/** The SD card as the device model keeps it: the blocks, the staging buffer and the
    command buffer changed in place. */
module SdCardModel {
  import opened Wrappers
  import opened FatReader
  import opened SdImages
  import opened SdCard

  class SdCardModel {
    const store: array<Byte>
    const staging: array<Byte>
    const command: array<Byte>
    var phase: Phase
    var after: Phase
    var selected: bool
    var initialised: bool
    var commandLen: nat
    var block: nat
    var offset: nat
    var pending: Byte
    var doneUs: int
    var blocksRead: nat
    var blocksWritten: nat
    var rejected: nat

    ghost predicate Shaped()
      reads this`commandLen
    {
      && store.Length == SIZE && staging.Length == 512 && command.Length == 6 && commandLen <= 6
      && store != staging && staging != command && store != command
    }

    /** The registers, around given buffer contents. */
    ghost function With(inCommand: seq<Byte>, stored: seq<Byte>, staged: seq<Byte>): Card
      reads this
    {
      Card(phase, after, selected, initialised, inCommand, block, offset, pending, doneUs,
           stored, staged, blocksRead, blocksWritten, rejected)
    }

    ghost function State(): Card
      requires Shaped()
      reads this, store, staging, command
    {
      With(command[..commandLen], store[..], staging[..])
    }

    ghost predicate Valid()
      reads this, store, staging, command
    {
      Shaped() && Sane(State())
    }

    constructor ()
      ensures Valid() && fresh(store) && fresh(staging) && fresh(command)
      ensures State() == Reset(State()) && State().store == Zeros(SIZE)
    {
      store := new Byte[SIZE](i => 0);
      staging := new Byte[512](i => 0);
      command := new Byte[6](i => 0);
      phase, after, selected, initialised := Idle, Command, false, false;
      commandLen, block, offset, pending, doneUs := 0, 0, 0, NOTHING, 0;
      blocksRead, blocksWritten, rejected := 0, 0, 0;
    }

    method PowerCycle()
      requires Valid()
      modifies this, staging
      ensures Valid() && State() == Reset(old(State()))
    {
      StaySane(State(), 0, 0, 0, 0);
      PutAll(staging[..], Zeros(512));
      hide Put, Zeros, Sane;
      ghost var stored := store[..];
      Fill(staging, 0, Zeros(512));
      assert store[..] == stored;
      ClearRegisters(stored, staging[..]);
      assert command[..0] == [];
    }

    method ClearRegisters(ghost stored: seq<Byte>, ghost staged: seq<Byte>)
      modifies this
      ensures commandLen == 0
      ensures With([], stored, staged) ==
              Card(Idle, Command, false, false, [], 0, 0, NOTHING, 0, stored, staged, 0, 0, 0)
    {
      phase, after, selected, initialised := Idle, Command, false, false;
      commandLen, block, offset, pending, doneUs := 0, 0, 0, NOTHING, 0;
      blocksRead, blocksWritten, rejected := 0, 0, 0;
    }

    /** The copying loop. */
    static method Fill(a: array<Byte>, at: nat, bytes: seq<Byte>)
      requires at + |bytes| <= a.Length
      modifies a
      ensures a[..] == Put(old(a[..]), at, bytes)
    {
      var i := 0;
      while i < |bytes|
        invariant 0 <= i <= |bytes|
        invariant forall k :: 0 <= k < a.Length ==> a[k] == if at <= k < at + i then bytes[k - at] else old(a[k])
      {
        a[at + i] := bytes[i];
        i := i + 1;
      }
      assert a[..] == Put(old(a[..]), at, bytes);
    }

    method Select(line: nat, level: nat)
      requires Valid()
      modifies this`selected, this`phase, this`commandLen
      ensures Valid() && State() == LineIn(old(State()), line, level)
    {
      if line != 0 {
        return;
      }
      var now := level == 0;
      if now == selected {
        return;
      }
      selected := now;
      if !selected {
        if phase != Busy {
          phase := Idle;
        }
        commandLen := 0;
      } else if phase != Busy {
        phase := Command;
        commandLen := 0;
      }
    }

    method BeginCommand(ghost stored: seq<Byte>, ghost staged: seq<Byte>)
      requires command.Length == 6 && commandLen == 6
      modifies this`block, this`commandLen, this`initialised, this`pending
      modifies this`after, this`phase, this`rejected, this`offset
      ensures commandLen == 0 && With([], stored, staged) == Begin(old(With([], stored, staged)), command[..])
    {
      hide Address;
      var bytes := command[..];
      AddressOf(bytes);
      var op := bytes[0];
      block := (bytes[1] as int) * 0x1000000 + (bytes[2] as int) * 0x10000 + (bytes[3] as int) * 0x100
        + bytes[4] as int;
      commandLen := 0;
      after := Command;
      phase := Reply;
      if op == GO_IDLE {
        initialised := true;
        pending := R1_IDLE;
      } else if op == SEND_IF_COND {
        pending := if initialised then R1_OK else R1_ILLEGAL;
      } else if op == READ_SINGLE || op == WRITE_SINGLE {
        BeginTransfer(op);
      } else {
        rejected := rejected + 1;
        pending := R1_ILLEGAL;
      }
    }

    /** A block command: refused before initialisation or off the card. */
    method BeginTransfer(op: Byte)
      modifies this`pending, this`after, this`rejected, this`offset
      ensures var refused := !initialised || block >= BLOCKS;
              && rejected == old(rejected) + (if refused then 1 else 0)
              && pending == (if refused then R1_ILLEGAL else R1_OK)
              && offset == (if refused then old(offset) else 0)
              && after == (if refused then old(after) else if op == READ_SINGLE then Read else WriteWait)
    {
      if !initialised || block >= BLOCKS {
        rejected := rejected + 1;
        pending := R1_ILLEGAL;
        return;
      }
      pending := R1_OK;
      offset := 0;
      after := if op == READ_SINGLE then Read else WriteWait;
    }

    method CommandByte(mosi: Byte)
      requires Valid() && selected && phase == Command
      modifies this, command
      ensures Valid() && State() == Transfer(old(State()), mosi, 0).0
    {
      ghost var was := State();
      StaySane(was, mosi, 0, 0, 0);
      if mosi == NOTHING {
        return;
      }
      command[commandLen] := mosi;
      commandLen := commandLen + 1;
      if commandLen == 6 {
        assert command[..] == was.command + [mosi];
        BeginCommand(store[..], staging[..]);
        assert command[..0] == [];
        assert Begin(was.(command := []), was.command + [mosi]) == Begin(was, was.command + [mosi]);
      }
    }

    method ReadPhase() returns (miso: Byte)
      requires Valid() && phase == Read
      modifies this`offset, this`blocksRead, this`phase, this`pending
      ensures Valid() && (State(), miso) == ReadByte(old(State()))
    {
      StaySane(State(), 0, 0, 0, 0);
      if offset == 0 {
        offset := offset + 1;
        return TOKEN_START;
      }
      var index := offset - 1;
      if index < BLOCK {
        offset := offset + 1;
        return store[block * BLOCK + index];
      }
      offset := offset + 1;
      if offset >= BLOCK + 3 {
        blocksRead := blocksRead + 1;
        phase := Command;
        pending := NOTHING;
      }
      return NOTHING;
    }

    method WritePhase(mosi: Byte, now: int) returns (miso: Byte)
      requires Valid() && selected && phase == Write
      modifies this`offset, this`phase, this`doneUs, staging
      ensures Valid() && (State(), miso) == Transfer(old(State()), mosi, now)
    {
      StaySane(State(), mosi, now, 0, 0);
      if offset < BLOCK {
        staging[offset] := mosi;
        offset := offset + 1;
        return NOTHING;
      }
      offset := offset + 1;
      if offset < BLOCK + 2 {
        return NOTHING;
      }
      phase := Busy;
      doneUs := now + WRITE_US;
      return DATA_ACCEPTED;
    }

    method SpiTransfer(mosi: Byte, now: int) returns (miso: Byte)
      requires Valid()
      modifies this, staging, command
      ensures Valid() && (State(), miso) == Transfer(old(State()), mosi, now)
    {
      StaySane(State(), mosi, now, 0, 0);
      if !selected {
        return NOTHING;
      }
      match phase {
        case Command =>
          CommandByte(mosi);
          return NOTHING;
        case Reply =>
          miso := pending;
          pending := NOTHING;
          offset := 0;
          phase := after;
        case Read =>
          miso := ReadPhase();
        case WriteWait =>
          if mosi == TOKEN_START {
            phase := Write;
            offset := 0;
          }
          return NOTHING;
        case Write =>
          miso := WritePhase(mosi, now);
        case Busy =>
          return 0;
        case Idle =>
          return NOTHING;
      }
    }

    method AdvanceTo(now: int)
      requires Valid()
      modifies this`blocksWritten, this`phase, this`pending, store
      ensures Valid() && State() == Advance(old(State()), now)
    {
      StaySane(State(), 0, now, 0, 0);
      if phase != Busy || now < doneUs {
        return;
      }
      Fill(store, block * BLOCK, staging[..]);
      blocksWritten := blocksWritten + 1;
      phase := if selected then Command else Idle;
      pending := NOTHING;
    }

    /** Raw blocks laid down as given, or nothing if they do not fit. */
    method LoadBlocks(firstBlock: nat, data: seq<Byte>) returns (ok: bool)
      requires Valid()
      modifies store
      ensures Valid() && ok == (firstBlock * BLOCK + |data| <= SIZE)
      ensures var was := old(store[..]);
              State() == old(State()).(store := if ok then Put(was, firstBlock * BLOCK, data) else was)
    {
      var start := firstBlock * BLOCK;
      if start + |data| > SIZE {
        return false;
      }
      Fill(store, start, data);
      return true;
    }

    /** A whole image from its runs, over a blank card. An image with more blocks than the
        card changes nothing; one with a run that does not fit is left half laid. */
    method LoadImage(blocks: nat, runs: seq<Run>) returns (ok: bool)
      requires Valid()
      modifies store
      ensures Valid() && ok == (blocks <= BLOCKS && AllFit(runs))
      ensures ok ==> State() == old(State()).(store := Laid(Zeros(SIZE), runs))
      ensures blocks > BLOCKS ==> State() == old(State())
      ensures blocks <= BLOCKS ==> State() == old(State()).(store := Laid(Zeros(SIZE), runs[..Fitting(runs)]))
    {
      if blocks > BLOCKS {
        return false;
      }
      hide Put, Zeros, Laid, AllFit, Fitting;
      PutAll(store[..], Zeros(SIZE));
      Fill(store, 0, Zeros(SIZE));
      ok := LayRuns(store, runs);
    }

    /** The loop over the runs. */
    static method LayRuns(store: array<Byte>, runs: seq<Run>) returns (ok: bool)
      requires store.Length == SIZE && store[..] == Zeros(SIZE)
      modifies store
      ensures ok == AllFit(runs) && (ok ==> runs[..Fitting(runs)] == runs)
      ensures store[..] == Laid(Zeros(SIZE), runs[..Fitting(runs)])
    {
      hide Put, Zeros, Laid, AllFit, Fitting;
      LaidNothing();
      var r := 0;
      while r < |runs|
        invariant 0 <= r <= |runs| && AllFit(runs[..r]) && store[..] == Laid(Zeros(SIZE), runs[..r])
      {
        var run := runs[r];
        LaidSnoc(runs, r);
        if run.offset + |run.bytes| > SIZE {
          FittingIs(runs, r);
          return false;
        }
        Fill(store, run.offset, run.bytes);
        r := r + 1;
      }
      assert runs[..|runs|] == runs;
      FittingIs(runs, |runs|);
      return true;
    }
  }

  lemma AddressOf(c: seq<Byte>)
    requires |c| == 6
    ensures Address(c) == (c[1] as int) * 0x1000000 + (c[2] as int) * 0x10000 + (c[3] as int) * 0x100 + c[4] as int
  {
  }

  lemma PutAll(s: seq<Byte>, bytes: seq<Byte>)
    requires |s| == |bytes|
    ensures Put(s, 0, bytes) == bytes
  {
  }

  /** How many runs fit before the first that does not. */
  function Fitting(runs: seq<Run>): (n: nat)
    ensures n <= |runs| && AllFit(runs[..n])
  {
    if runs == [] || runs[0].offset + |runs[0].bytes| > SIZE then 0
    else
      var n := Fitting(runs[1..]);
      FitCons(runs, n);
      n + 1
  }

  lemma FitCons(runs: seq<Run>, n: nat)
    requires n < |runs|
    ensures AllFit(runs[..n + 1]) <==> runs[0].offset + |runs[0].bytes| <= SIZE && AllFit(runs[1..][..n])
  {
    var all, rest := runs[..n + 1], runs[1..][..n];
    assert all == [runs[0]] + rest;
    if AllFit(all) {
      forall k | 0 <= k < n
        ensures rest[k].offset + |rest[k].bytes| <= SIZE
      {
        assert rest[k] == all[k + 1];
      }
      assert all[0] == runs[0];
    }
  }

  lemma {:induction false} FittingIs(runs: seq<Run>, n: nat)
    requires n <= |runs| && AllFit(runs[..n]) && (n < |runs| ==> runs[n].offset + |runs[n].bytes| > SIZE)
    ensures Fitting(runs) == n
  {
    hide AllFit;
    if n > 0 {
      FitCons(runs, n - 1);
      FittingIs(runs[1..], n - 1);
    }
  }

  lemma LaidNothing()
    ensures AllFit([]) && Laid(Zeros(SIZE), []) == Zeros(SIZE)
  {
  }

  lemma LaidSnoc(runs: seq<Run>, r: nat)
    requires r < |runs| && AllFit(runs[..r])
    ensures AllFit(runs[..r + 1]) <==> runs[r].offset + |runs[r].bytes| <= SIZE
    ensures AllFit(runs) ==> AllFit(runs[..r + 1])
    ensures AllFit(runs[..r + 1]) ==>
              Laid(Zeros(SIZE), runs[..r + 1]) == Put(Laid(Zeros(SIZE), runs[..r]), runs[r].offset, runs[r].bytes)
  {
    hide Put;
    assert runs[..r + 1][..r] == runs[..r] && runs[..r + 1][r] == runs[r];
    if AllFit(runs[..r + 1]) {
      assert runs[..r + 1][r].offset + |runs[..r + 1][r].bytes| <= SIZE;
    }
  }

  /** Loading the runs of any image puts that image on the card; a card loaded with a
      built volume gives its file back through the reader. */
  lemma LoadedVolumeReads(image: seq<Byte>, runs: seq<Run>, content: seq<Byte>, name: seq<Byte>, ext: seq<Byte>,
                          result: ChainResult, bytes: seq<Byte>)
    requires |content| <= 512 && |name| <= 8 && |ext| <= 3 && (name != [] ==> name[0] != 0 && name[0] != 0xE5)
    requires image == BuildWithFile(content, name, ext) && RunsOf(image, runs)
    requires AllFit(runs) && Outcome(TOY, DiskOf(Laid(Zeros(SIZE), runs)), 2, |content|, result, bytes)
    ensures var d := DiskOf(Laid(Zeros(SIZE), runs));
            && MountVolume(d) == Some(TOY)
            && FindFile(TOY, d, Padded(name, 8) + Padded(ext, 3)) == Some((2, |content|))
            && result == Complete && bytes == content
  {
    hide RunsOf, Laid, BuildWithFile, DiskOf, MountVolume, FindFile, Outcome, AllFit;
    RunsLoadBack(image, runs);
    FileComesBack(content, name, ext, result, bytes);
  }
}
