/** A register map driven by a table: registers of different widths packed end to end in
    one value array. */
module RegTable {
  import opened Wrappers

  const MAX_REGISTERS: nat := 24
  const VALUE_BYTES: nat := 96

  const ACK: nat := 0
  const DATA_NACK: nat := 3

  datatype Entry = Entry(address: Byte, reset: seq<Byte>, writable: bool)

  function Width(e: Entry): nat {
    |e.reset|
  }

  /** Where a register starts: after all before it. */
  function Offset(entries: seq<Entry>, i: nat): nat
    requires i <= |entries|
  {
    if i == 0 then 0 else Offset(entries, i - 1) + Width(entries[i - 1])
  }

  /** The registers held: as many from the start as fit, up to the first of no width. */
  function Held(entries: seq<Entry>, n: nat): (r: nat)
    requires n <= |entries| && Offset(entries, n) <= VALUE_BYTES && n <= MAX_REGISTERS
    ensures n <= r <= |entries| && r <= MAX_REGISTERS && Offset(entries, r) <= VALUE_BYTES
    decreases |entries| - n
  {
    if n == |entries| || n == MAX_REGISTERS || Width(entries[n]) == 0
       || Offset(entries, n) + Width(entries[n]) > VALUE_BYTES
    then n
    else Held(entries, n + 1)
  }

  function Registers(entries: seq<Entry>): (r: nat)
    ensures r <= |entries| && r <= MAX_REGISTERS && Offset(entries, r) <= VALUE_BYTES
  {
    Held(entries, 0)
  }

  lemma HeldStep(entries: seq<Entry>, n: nat)
    requires n < |entries| && n < MAX_REGISTERS && Offset(entries, n) <= VALUE_BYTES
    ensures Held(entries, n) == if Width(entries[n]) == 0 || Offset(entries, n + 1) > VALUE_BYTES then n
                                else Held(entries, n + 1)
  {
    assert Offset(entries, n + 1) == Offset(entries, n) + Width(entries[n]);
  }

  lemma HeldAll(entries: seq<Entry>, n: nat)
    requires n <= |entries| && n <= MAX_REGISTERS && Offset(entries, n) <= VALUE_BYTES
    requires n == |entries| || n == MAX_REGISTERS
    ensures Held(entries, n) == n
  {
  }

  /** The first register with an address. */
  function Find(entries: seq<Entry>, n: nat, address: Byte, i: nat): (r: Option<nat>)
    requires i <= n <= |entries|
    ensures r.Some? ==> i <= r.value < n && entries[r.value].address == address
    ensures r.None? ==> forall k :: i <= k < n ==> entries[k].address != address
    decreases n - i
  {
    if i == n then None
    else if entries[i].address == address then Some(i)
    else Find(entries, n, address, i + 1)
  }

  function IndexOf(entries: seq<Entry>, address: Byte): (r: Option<nat>)
    ensures r.Some? ==> r.value < Registers(entries) && entries[r.value].address == address
  {
    Find(entries, Registers(entries), address, 0)
  }

  /** The place of a register's byte in the value array. */
  function Place(entries: seq<Entry>, address: Byte, offset: nat): Option<nat> {
    var i := IndexOf(entries, address);
    if i.None? || offset >= Width(entries[i.value]) then None else Some(Offset(entries, i.value) + offset)
  }

  lemma {:induction false} OffsetsGrow(entries: seq<Entry>, i: nat, j: nat)
    requires i <= j <= |entries|
    ensures Offset(entries, i) <= Offset(entries, j)
    ensures i < j ==> Offset(entries, i) + Width(entries[i]) <= Offset(entries, j)
    decreases j - i
  {
    if i < j {
      OffsetsGrow(entries, i, j - 1);
    }
  }

  /** Every byte of every register has a place of its own. */
  lemma PlacesAreDistinct(entries: seq<Entry>, a: Byte, i: nat, b: Byte, j: nat)
    requires Place(entries, a, i).Some? && Place(entries, b, j).Some?
    ensures Place(entries, a, i).value < VALUE_BYTES
    ensures Place(entries, a, i) == Place(entries, b, j) <==> a == b && i == j
  {
    var x, y := IndexOf(entries, a).value, IndexOf(entries, b).value;
    OffsetsGrow(entries, x, Registers(entries));
    if x < y {
      OffsetsGrow(entries, x, y);
    } else if y < x {
      OffsetsGrow(entries, y, x);
    }
  }

  function Get(entries: seq<Entry>, values: seq<Byte>, address: Byte, offset: nat): Byte
    requires |values| == VALUE_BYTES
  {
    var p := Place(entries, address, offset);
    if p.Some? then PlacesAreDistinct(entries, address, offset, address, offset); values[p.value] else 0
  }

  function Set(entries: seq<Entry>, values: seq<Byte>, address: Byte, offset: nat, value: Byte): (r: seq<Byte>)
    requires |values| == VALUE_BYTES
    ensures |r| == VALUE_BYTES
  {
    var p := Place(entries, address, offset);
    if p.Some? then PlacesAreDistinct(entries, address, offset, address, offset); values[p.value := value] else values
  }

  /** A byte set reads back, and disturbs no other; where there is no register nothing is
      set. */
  lemma SetThenGet(entries: seq<Entry>, values: seq<Byte>, a: Byte, i: nat, v: Byte, b: Byte, j: nat)
    requires |values| == VALUE_BYTES
    ensures Get(entries, Set(entries, values, a, i, v), b, j) ==
            if a == b && i == j && Place(entries, a, i).Some? then v else Get(entries, values, b, j)
  {
    hide Place;
    var p, q := Place(entries, a, i), Place(entries, b, j);
    if p.Some? {
      PlacesAreDistinct(entries, a, i, a, i);
      if q.Some? {
        PlacesAreDistinct(entries, a, i, b, j);
        PlacesAreDistinct(entries, b, j, b, j);
      }
    }
  }

  /** Bytes set from an offset of a register on. */
  function SetFrom(entries: seq<Entry>, values: seq<Byte>, address: Byte, at: nat, bytes: seq<Byte>): (r: seq<Byte>)
    requires |values| == VALUE_BYTES
    ensures |r| == VALUE_BYTES
    decreases |bytes|
  {
    if bytes == [] then values
    else SetFrom(entries, Set(entries, values, address, at, bytes[0]), address, at + 1, bytes[1..])
  }

  function SetBytes(entries: seq<Entry>, values: seq<Byte>, address: Byte, bytes: seq<Byte>): (r: seq<Byte>)
    requires |values| == VALUE_BYTES
    ensures |r| == VALUE_BYTES
  {
    SetFrom(entries, values, address, 0, bytes)
  }

  lemma {:induction false} SetFromThenGet(entries: seq<Entry>, values: seq<Byte>, a: Byte, at: nat, bytes: seq<Byte>,
                                           b: Byte, j: nat)
    requires |values| == VALUE_BYTES
    ensures Get(entries, SetFrom(entries, values, a, at, bytes), b, j) ==
            if a == b && at <= j < at + |bytes| && Place(entries, a, j).Some? then bytes[j - at]
            else Get(entries, values, b, j)
    decreases |bytes|
  {
    hide Get, Set, Place;
    if bytes != [] {
      SetThenGet(entries, values, a, at, bytes[0], b, j);
      SetFromThenGet(entries, Set(entries, values, a, at, bytes[0]), a, at + 1, bytes[1..], b, j);
    }
  }

  /** A register written whole reads back, and every other register is as it was. */
  lemma SetBytesThenGet(entries: seq<Entry>, values: seq<Byte>, a: Byte, bytes: seq<Byte>, b: Byte, j: nat)
    requires |values| == VALUE_BYTES
    ensures Get(entries, SetBytes(entries, values, a, bytes), b, j) ==
            if a == b && j < |bytes| && Place(entries, a, j).Some? then bytes[j] else Get(entries, values, b, j)
  {
    SetFromThenGet(entries, values, a, 0, bytes, b, j);
  }

  /** Power-on contents. */
  function ResetFrom(entries: seq<Entry>, values: seq<Byte>, n: nat): (r: seq<Byte>)
    requires |values| == VALUE_BYTES && n <= |entries|
    ensures |r| == VALUE_BYTES
  {
    if n == 0 then values
    else
      var v := ResetFrom(entries, values, n - 1);
      var at := Offset(entries, n - 1);
      seq(VALUE_BYTES, k requires 0 <= k < VALUE_BYTES =>
        if at <= k < at + Width(entries[n - 1]) then entries[n - 1].reset[k - at] else v[k])
  }

  lemma {:induction false} ResetReads(entries: seq<Entry>, values: seq<Byte>, n: nat, i: nat, k: nat)
    requires |values| == VALUE_BYTES && i < n <= Registers(entries) && k < Width(entries[i])
    ensures Offset(entries, i) + k < VALUE_BYTES
    ensures ResetFrom(entries, values, n)[Offset(entries, i) + k] == entries[i].reset[k]
    decreases n
  {
    OffsetsGrow(entries, i, Registers(entries));
    if i < n - 1 {
      OffsetsGrow(entries, i, n - 1);
      ResetReads(entries, values, n - 1, i, k);
    }
  }

  /** After power-on every register found presents its power-on contents. */
  lemma PowerOnContents(entries: seq<Entry>, values: seq<Byte>, address: Byte, k: nat)
    requires |values| == VALUE_BYTES && Place(entries, address, k).Some?
    ensures Get(entries, ResetFrom(entries, values, Registers(entries)), address, k)
            == entries[IndexOf(entries, address).value].reset[k]
  {
    ResetReads(entries, values, Registers(entries), IndexOf(entries, address).value, k);
  }

  /** A write from the bus: a probe, a pointer, or data for a writable register it fits. */
  function BusWrite(entries: seq<Entry>, values: seq<Byte>, pointer: Byte, data: seq<Byte>): (r: (seq<Byte>, Byte, nat))
    requires |values| == VALUE_BYTES
    ensures |r.0| == VALUE_BYTES
  {
    if data == [] then (values, pointer, ACK)
    else if |data| == 1 then (values, data[0], ACK)
    else
      var i := IndexOf(entries, data[0]);
      if i.None? || !entries[i.value].writable || |data| - 1 > Width(entries[i.value]) then (values, data[0], DATA_NACK)
      else (SetBytes(entries, values, data[0], data[1..]), data[0], ACK)
  }

  /** What a bus write of data leaves, read back: stored from the register's first byte on
      where the table has the register, may write it and it is wide enough, and refused
      with nothing changed where not. A probe or a pointer changes no register. */
  lemma BusWriteReadsBack(entries: seq<Entry>, values: seq<Byte>, pointer: Byte, data: seq<Byte>, a: Byte, k: nat)
    requires |values| == VALUE_BYTES
    ensures var (after, p, status) := BusWrite(entries, values, pointer, data);
            var has := |data| >= 2 && exists i :: Takes(entries, i, data);
            && p == (if data == [] then pointer else data[0])
            && (status == 3 <==> |data| >= 2 && !has) && (status == 0 || status == 3)
            && Get(entries, after, a, k) ==
               if has && a == data[0] && k + 1 < |data| then data[k + 1] else Get(entries, values, a, k)
  {
    hide Get, SetBytes;
    if |data| >= 2 {
      var i := IndexOf(entries, data[0]);
      TakesFound(entries, data);
      if i.Some? && entries[i.value].writable && |data| - 1 <= Width(entries[i.value]) {
        SetBytesThenGet(entries, values, data[0], data[1..], a, k);
        if a == data[0] && k + 1 < |data| {
          assert Place(entries, a, k).Some?;
        }
      }
    }
  }

  /** The first register of that address that the table holds may be written and is wide
      enough for the data. */
  predicate Takes(entries: seq<Entry>, i: nat, data: seq<Byte>)
    requires data != []
  {
    && i < Registers(entries) && entries[i].address == data[0]
    && (forall j :: 0 <= j < i ==> entries[j].address != data[0])
    && entries[i].writable && |data| - 1 <= Width(entries[i])
  }

  lemma TakesFound(entries: seq<Entry>, data: seq<Byte>)
    requires data != []
    ensures var i := IndexOf(entries, data[0]);
            (exists j :: Takes(entries, j, data)) <==>
            i.Some? && entries[i.value].writable && |data| - 1 <= Width(entries[i.value])
  {
    hide Registers, Width;
    FindFirst(entries, Registers(entries), data[0], 0);
    var i := IndexOf(entries, data[0]);
    if i.Some? && entries[i.value].writable && |data| - 1 <= Width(entries[i.value]) {
      assert Takes(entries, i.value, data);
    }
  }

  lemma {:induction false} FindFirst(entries: seq<Entry>, n: nat, address: Byte, i: nat)
    requires i <= n <= |entries|
    ensures var r := Find(entries, n, address, i);
            r.Some? ==> forall j :: i <= j < r.value ==> entries[j].address != address
    decreases n - i
  {
    if i < n && entries[i].address != address {
      FindFirst(entries, n, address, i + 1);
    }
  }

  /** The table as the device model keeps it. */
  class Table {
    const entries: seq<Entry>
    const offsets: array<nat>
    const values: array<Byte>
    var count: nat
    var pointer: Byte
    var writes: nat
    var refused: nat

    ghost predicate Valid()
      reads this, offsets
    {
      && offsets.Length == MAX_REGISTERS && values.Length == VALUE_BYTES && count == Registers(entries)
      && forall i :: 0 <= i < count ==> offsets[i] == Offset(entries, i)
    }

    constructor (entries: seq<Entry>)
      ensures Valid() && this.entries == entries && fresh(offsets) && fresh(values)
      ensures values[..] == ResetFrom(entries, seq(VALUE_BYTES, i => 0), Registers(entries))
    {
      this.entries := entries;
      offsets := new nat[MAX_REGISTERS](i => 0);
      values := new Byte[VALUE_BYTES](i => 0);
      count, pointer, writes, refused := 0, 0, 0, 0;
      new;
      Lay();
      assert values[..] == seq(VALUE_BYTES, i => 0);
      LoadReset();
    }

    /** Registers are taken while they fit. */
    method Lay()
      requires offsets.Length == MAX_REGISTERS && values.Length == VALUE_BYTES && count == 0
      modifies this`count, offsets
      ensures Valid()
    {
      hide Width, Held;
      var used := 0;
      while count < |entries| && count < MAX_REGISTERS
        invariant 0 <= count <= |entries| && count <= MAX_REGISTERS && used == Offset(entries, count) <= VALUE_BYTES
        invariant Held(entries, count) == Registers(entries)
        invariant forall i :: 0 <= i < count ==> offsets[i] == Offset(entries, i)
        decreases |entries| - count
      {
        var w := Width(entries[count]);
        HeldStep(entries, count);
        if w == 0 || used + w > VALUE_BYTES {
          break;
        }
        offsets[count] := used;
        count := count + 1;
        used := used + w;
      }
      if count == |entries| || count == MAX_REGISTERS {
        HeldAll(entries, count);
      }
    }

    method LoadReset()
      requires Valid()
      modifies values
      ensures values[..] == ResetFrom(entries, old(values[..]), Registers(entries))
    {
      ghost var was := values[..];
      var i := 0;
      while i < count
        invariant 0 <= i <= count && values[..] == ResetFrom(entries, was, i)
      {
        OffsetsGrow(entries, i, count);
        LoadOne(i);
        i := i + 1;
      }
    }

    method LoadOne(i: nat)
      requires Valid() && i < count && offsets[i] + Width(entries[i]) <= VALUE_BYTES
      modifies values
      ensures forall k :: 0 <= k < VALUE_BYTES ==>
                            values[k] == if offsets[i] <= k < offsets[i] + Width(entries[i])
                                         then entries[i].reset[k - offsets[i]] else old(values[k])
    {
      var k := 0;
      while k < Width(entries[i])
        invariant 0 <= k <= Width(entries[i])
        invariant forall h :: 0 <= h < VALUE_BYTES ==>
                                values[h] == if offsets[i] <= h < offsets[i] + k then entries[i].reset[h - offsets[i]]
                                             else old(values[h])
      {
        values[offsets[i] + k] := entries[i].reset[k];
        k := k + 1;
      }
    }

    method FindIndex(address: Byte) returns (r: Option<nat>)
      requires Valid()
      ensures r == IndexOf(entries, address)
    {
      var i := 0;
      while i < count
        invariant 0 <= i <= count && Find(entries, count, address, i) == IndexOf(entries, address)
      {
        if entries[i].address == address {
          return Some(i);
        }
        i := i + 1;
      }
      return None;
    }

    method Write(address: Byte, offset: nat, value: Byte)
      requires Valid()
      modifies values
      ensures values[..] == Set(entries, old(values[..]), address, offset, value)
    {
      var idx := FindIndex(address);
      if idx.None? || offset >= Width(entries[idx.value]) {
        return;
      }
      PlacesAreDistinct(entries, address, offset, address, offset);
      values[offsets[idx.value] + offset] := value;
    }

    method WriteBytes(address: Byte, bytes: seq<Byte>)
      requires Valid()
      modifies values
      ensures values[..] == SetBytes(entries, old(values[..]), address, bytes)
    {
      assert bytes[0..] == bytes;
      var k := 0;
      while k < |bytes|
        invariant 0 <= k <= |bytes|
        invariant SetFrom(entries, values[..], address, k, bytes[k..]) ==
                  SetBytes(entries, old(values[..]), address, bytes)
      {
        assert bytes[k..][1..] == bytes[k + 1..];
        Write(address, k, bytes[k]);
        k := k + 1;
      }
    }

    method I2cWrite(data: seq<Byte>) returns (status: nat)
      requires Valid()
      modifies this`pointer, this`writes, this`refused, values
      ensures Valid() && (values[..], pointer, status) == BusWrite(entries, old(values[..]), old(pointer), data)
      ensures refused == old(refused) + (if status == DATA_NACK then 1 else 0)
      ensures writes == old(writes) + (if status == ACK && |data| >= 2 then 1 else 0)
    {
      if |data| == 0 {
        return ACK;
      }
      pointer := data[0];
      if |data| == 1 {
        return ACK;
      }
      var idx := FindIndex(pointer);
      if idx.None? || !entries[idx.value].writable || |data| - 1 > Width(entries[idx.value]) {
        refused := refused + 1;
        return DATA_NACK;
      }
      WriteBytes(pointer, data[1..]);
      writes := writes + 1;
      return ACK;
    }
  }
}
