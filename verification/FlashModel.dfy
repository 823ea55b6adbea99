/** The flash as the device model keeps it: array, staging and page buffers changed in
    place, byte by byte. */
module FlashModel {
  import opened Wrappers
  import opened Flash

  class FlashModel {
    const memory: array<Byte>
    const staging: array<Byte>
    const page: array<Byte>
    var phase: Phase
    var selected: bool
    var command: Byte
    var address: Byte
    var writeEnabled: bool
    var busy: bool
    var pending: Pending
    var doneUs: int
    var stagedLen: nat
    var pageLen: nat
    var pageAddress: Byte
    var programs: nat
    var refused: nat

    ghost predicate Shaped()
      reads this`stagedLen, this`pageLen
    {
      && memory.Length == staging.Length == page.Length == SIZE && stagedLen <= SIZE && pageLen <= SIZE
      && memory != staging && staging != page && memory != page
    }

    /** The registers, around given buffer contents. */
    ghost function With(stored: seq<Byte>, staged: seq<Byte>, latched: seq<Byte>): Part
      reads this
    {
      Part(phase, selected, command, address, writeEnabled, busy, pending, doneUs, stored, staged, latched,
           pageAddress, programs, refused)
    }

    ghost function State(): Part
      requires Shaped()
      reads this, memory, staging, page
    {
      With(memory[..], staging[..stagedLen], page[..pageLen])
    }

    ghost predicate Valid()
      reads this, memory, staging, page
    {
      Shaped() && Sane(State())
    }

    constructor ()
      ensures Valid() && State() == Reset(State()) && State().memory == Blank()
      ensures fresh(memory) && fresh(staging) && fresh(page)
    {
      memory := new Byte[SIZE](i => 0xFF);
      staging := new Byte[SIZE](i => 0);
      page := new Byte[SIZE](i => 0);
      phase, selected, command, address, writeEnabled := Idle, false, 0, 0, false;
      busy, pending, doneUs, stagedLen, pageLen, pageAddress := false, Nothing, 0, 0, 0, 0;
      programs, refused := 0, 0;
    }

    method PowerCycle()
      requires Valid()
      modifies this
      ensures Valid() && State() == Reset(old(State()))
    {
      ghost var stored := memory[..];
      ClearRegisters(stored);
      assert staging[..0] == [] && page[..0] == [] && memory[..] == stored;
    }

    method ClearRegisters(ghost stored: seq<Byte>)
      modifies this
      ensures stagedLen == pageLen == 0
      ensures With(stored, [], []) == Part(Idle, false, 0, 0, false, false, Nothing, 0, stored, [], [], 0, 0, 0)
    {
      ClearOperation();
      phase, selected, command, address, stagedLen := Idle, false, 0, 0, 0;
      programs, refused := 0, 0;
    }

    method ClearOperation()
      modifies this`writeEnabled, this`busy, this`pending, this`doneUs, this`pageLen, this`pageAddress
      ensures !writeEnabled && !busy && pending == Nothing && doneUs == 0 && pageLen == 0 && pageAddress == 0
    {
      writeEnabled, busy, pending, doneUs, pageLen, pageAddress := false, false, Nothing, 0, 0, 0;
    }

    /** The staged bytes outlive the command: they are latched when it is committed. */
    method LatchPage()
      requires Shaped()
      modifies this`pageLen, this`pageAddress, page
      ensures Shaped() && pageLen == stagedLen && pageAddress == address && page[..pageLen] == staging[..stagedLen]
    {
      pageAddress := address;
      pageLen := stagedLen;
      var i := 0;
      while i < stagedLen
        invariant 0 <= i <= stagedLen && page[..i] == staging[..i] && pageLen == stagedLen && pageAddress == address
      {
        page[i] := staging[i];
        i := i + 1;
      }
    }

    method Refuse()
      modifies this`refused
      ensures refused == old(refused) + 1
    {
      refused := refused + 1;
    }

    method FinishCommand(now: int)
      requires Valid()
      modifies this, page
      ensures Valid() && State() == Finish(old(State()), now)
    {
      ghost var was := State();
      if command == CHIP_ERASE {
        if !writeEnabled || busy {
          Refuse();
        } else {
          busy, pending, writeEnabled, doneUs := true, ErasePending, false, now + ERASE_US;
        }
      } else if command == PAGE_PROGRAM && stagedLen > 0 {
        if !writeEnabled || busy {
          Refuse();
        } else {
          busy, pending, writeEnabled, doneUs := true, ProgramPending, false, now + PROGRAM_US;
          LatchPage();
        }
      }
      EndCommand();
      assert staging[..0] == [];
    }

    method EndCommand()
      requires Shaped()
      modifies this`phase, this`command, this`stagedLen
      ensures phase == Idle && command == 0 && stagedLen == 0
    {
      phase, command, stagedLen := Idle, 0, 0;
    }

    method Select(line: nat, level: nat, now: int)
      requires Valid()
      modifies this, page
      ensures Valid() && State() == LineIn(old(State()), line, level, now)
    {
      var nowSelected := level == 0;
      if line != 0 || nowSelected == selected {
        return;
      }
      selected := nowSelected;
      if selected {
        phase, command, stagedLen := Command, 0, 0;
        assert staging[..0] == [];
      } else {
        FinishCommand(now);
      }
    }

    method DataByte(mosi: Byte) returns (miso: Byte)
      requires Valid() && selected && phase == Data
      modifies this`address, this`stagedLen, staging
      ensures Valid() && (State(), miso) == Transfer(old(State()), mosi)
    {
      StaySane(State(), mosi, 0, 0, 0);
      if command == READ_STATUS {
        return (if busy then 1 else 0) + (if writeEnabled then 2 else 0);
      }
      if command == READ_DATA {
        miso := if address < SIZE then memory[address] else NOTHING;
        if address < SIZE {
          address := address + 1;
        }
        return;
      }
      if command == PAGE_PROGRAM && stagedLen < SIZE {
        ghost var was := State();
        staging[stagedLen] := mosi;
        stagedLen := stagedLen + 1;
        assert staging[..stagedLen] == was.staged + [mosi];
        assert memory[..] == was.memory && page[..pageLen] == was.page;
      }
      return NOTHING;
    }

    method SpiTransfer(mosi: Byte) returns (miso: Byte)
      requires Valid()
      modifies this, staging
      ensures Valid() && (State(), miso) == Transfer(old(State()), mosi)
    {
      StaySane(State(), mosi, 0, 0, 0);
      if !selected {
        return NOTHING;
      }
      match phase {
        case Command =>
          command := mosi;
          if command == WRITE_ENABLE {
            writeEnabled := true;
            phase := Idle;
          } else if command == CHIP_ERASE {
            phase := Idle;
          } else if command == READ_STATUS {
            phase := Data;
          } else {
            phase := Address;
          }
          return NOTHING;
        case Address =>
          address := mosi;
          phase := Data;
          return NOTHING;
        case Data =>
          miso := DataByte(mosi);
        case Idle =>
          return NOTHING;
      }
    }

    method EraseAll()
      requires Shaped()
      modifies memory
      ensures memory[..] == Blank()
    {
      var i := 0;
      while i < SIZE
        invariant 0 <= i <= SIZE && forall k :: 0 <= k < i ==> memory[k] == 0xFF
      {
        memory[i] := 0xFF;
        i := i + 1;
      }
    }

    method LayPage()
      requires Shaped()
      modifies memory
      ensures memory[..] == Programmed(old(memory[..]), pageAddress, page[..pageLen])
    {
      var i := 0;
      while i < pageLen && pageAddress + i < SIZE
        invariant 0 <= i <= pageLen
        invariant forall k :: 0 <= k < SIZE ==>
                    memory[k] == if pageAddress <= k < pageAddress + i then page[k - pageAddress] else old(memory[k])
      {
        memory[pageAddress + i] := page[i];
        i := i + 1;
      }
    }

    method AdvanceTo(now: int)
      requires Valid()
      modifies this`busy, this`programs, this`pending, this`pageLen, memory
      ensures Valid() && State() == Advance(old(State()), now)
    {
      StaySane(State(), 0, 0, 0, now);
      if !busy || now < doneUs {
        return;
      }
      hide Programmed;
      if pending == ErasePending {
        EraseAll();
      } else {
        LayPage();
      }
      busy, programs, pending, pageLen := false, programs + 1, Nothing, 0;
      assert page[..0] == [];
    }
  }
}
