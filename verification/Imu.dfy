/** An IMU whose samples fill a bounded FIFO as time passes. */
module Imu {
  import opened Wrappers

  const REG_STATUS: Byte := 0x00
  const REG_FIFO: Byte := 0x10
  const REG_CONTROL: Byte := 0x20
  const DEPTH: nat := 16
  const WATERMARK: nat := 8
  const SAMPLE_US: nat := 2500

  const ACK: nat := 0
  const ADDRESS_NACK: nat := 2
  const DATA_NACK: nat := 3

  type Word = x: int | 0 <= x < 0x10000

  datatype Unit = Unit(reg: Byte, sampling: bool, nextSampleUs: int, value: Word, fifo: seq<Word>, overflow: bool,
                       irq: bool, taken: nat, lost: nat)

  const OFF := Unit(0, false, 0, 0, [], false, false, 0, 0)

  /** The line follows the watermark both ways. */
  function WithIrq(u: Unit): Unit {
    u.(irq := |u.fifo| >= WATERMARK)
  }

  function WriteRegister(u: Unit, data: seq<Byte>, now: int): (Unit, nat) {
    if data == [] then (u, ADDRESS_NACK)
    else
      var v := u.(reg := data[0]);
      if data[0] == REG_CONTROL && |data| >= 2 then
        var wanted := data[1] != 0;
        (v.(nextSampleUs := if wanted && !u.sampling then now + SAMPLE_US else u.nextSampleUs, sampling := wanted), ACK)
      else if data[0] != REG_STATUS && data[0] != REG_FIFO && data[0] != REG_CONTROL then (v, DATA_NACK)
      else (v, ACK)
  }

  /** Samples as bytes, high byte first. */
  function Bytes(samples: seq<Word>): (r: seq<Byte>)
    ensures |r| == 2 * |samples|
    decreases |samples|
  {
    if samples == [] then [] else [samples[0] / 256, samples[0] % 256] + Bytes(samples[1..])
  }

  function ReadRegister(u: Unit, len: nat): (Unit, seq<Byte>) {
    if u.reg == REG_STATUS then
      if len < 2 then (u, []) else (u.(overflow := false), [|u.fifo| % 256, if u.overflow then 1 else 0])
    else if u.reg != REG_FIFO then (u, [])
    else
      var n := if len / 2 > |u.fifo| then |u.fifo| else len / 2;
      (WithIrq(u.(fifo := u.fifo[n..], taken := u.taken + n)), Bytes(u.fifo[..n]))
  }

  /** One sample: kept if there is room, lost and said so if not. */
  function Sampled(u: Unit): Unit {
    (if |u.fifo| < DEPTH then u.(fifo := u.fifo + [u.value]) else u.(lost := u.lost + 1, overflow := true))
      .(nextSampleUs := u.nextSampleUs + SAMPLE_US)
  }

  /** Every sample that is due. */
  function CaughtUp(u: Unit, now: int): Unit
    decreases now - u.nextSampleUs
  {
    if now < u.nextSampleUs then u else CaughtUp(Sampled(u), now)
  }

  function AdvanceTo(u: Unit, now: int): Unit {
    if !u.sampling then u else WithIrq(CaughtUp(u, now))
  }

  function SetValue(u: Unit, data: seq<Byte>): (Unit, bool) {
    if |data| < 2 then (u, false) else (u.(value := (data[0] as int) * 256 + data[1] as int), true)
  }

  // --- Jumps ---------------------------------------------------------------

  /** How many samples a jump makes. */
  function DueBy(u: Unit, now: int): nat {
    if now < u.nextSampleUs then 0 else 1 + (now - u.nextSampleUs) / SAMPLE_US
  }

  lemma {:induction false} CaughtUpTwice(u: Unit, t1: int, t2: int)
    requires t1 <= t2
    ensures CaughtUp(CaughtUp(u, t1), t2) == CaughtUp(u, t2)
    decreases t2 - u.nextSampleUs
  {
    if t1 >= u.nextSampleUs {
      CaughtUpTwice(Sampled(u), t1, t2);
    }
  }

  lemma {:induction false} IrqDoesNotMatter(u: Unit, now: int, irq: bool)
    ensures CaughtUp(u.(irq := irq), now) == CaughtUp(u, now).(irq := irq)
    decreases now - u.nextSampleUs
  {
    if now >= u.nextSampleUs {
      assert Sampled(u.(irq := irq)) == Sampled(u).(irq := irq);
      IrqDoesNotMatter(Sampled(u), now, irq);
    }
  }

  lemma {:induction false} CaughtUpKeeps(u: Unit, now: int)
    ensures var v := CaughtUp(u, now);
            v.sampling == u.sampling && v.reg == u.reg && v.value == u.value && v.taken == u.taken && v.irq == u.irq
    decreases now - u.nextSampleUs
  {
    if now >= u.nextSampleUs {
      CaughtUpKeeps(Sampled(u), now);
    }
  }

  /** It does not matter in how many jumps time passes. */
  lemma JumpIndependence(u: Unit, t1: int, t2: int)
    requires t1 <= t2
    ensures AdvanceTo(AdvanceTo(u, t1), t2) == AdvanceTo(u, t2)
  {
    if u.sampling {
      var v := CaughtUp(u, t1);
      CaughtUpKeeps(u, t1);
      IrqDoesNotMatter(v, t2, |v.fifo| >= WATERMARK);
      CaughtUpTwice(u, t1, t2);
    }
  }

  /** A jump makes one sample for each period that ended in it: as many as there is room
      for are kept, each with the value of the moment, and the rest are lost. */
  lemma {:induction false} JumpSamples(u: Unit, now: int)
    requires |u.fifo| <= DEPTH
    ensures var v := CaughtUp(u, now);
            var n := DueBy(u, now);
            var room := DEPTH - |u.fifo|;
            var kept := if n < room then n else room;
            && v.fifo == u.fifo + seq(kept, i => u.value) && v.lost == u.lost + (n - kept)
            && v.nextSampleUs == u.nextSampleUs + n * SAMPLE_US && now < v.nextSampleUs
            && (v.overflow <==> u.overflow || n > room)
    decreases now - u.nextSampleUs
  {
    if now >= u.nextSampleUs {
      var s := Sampled(u);
      OneMoreDue(u, s, now);
      JumpSamples(s, now);
      var n := DueBy(s, now);
      var room := DEPTH - |s.fifo|;
      OneMoreKept(u.fifo, u.value, if n < room then n else room);
    } else {
      OneMoreKept(u.fifo, u.value, 0);
    }
  }

  lemma OneMoreDue(u: Unit, s: Unit, now: int)
    requires now >= u.nextSampleUs && s.nextSampleUs == u.nextSampleUs + SAMPLE_US
    ensures DueBy(u, now) == 1 + DueBy(s, now)
  {
  }

  lemma OneMoreKept(fifo: seq<Word>, value: Word, kept: nat)
    ensures fifo + [value] + seq(kept, i => value) == fifo + seq(kept + 1, i => value)
    ensures fifo + seq(0, i => value) == fifo
  {
  }

  /** Switched on at `s`, the unit makes its first sample a period later and one a period
      after that; switching on what is on changes nothing. */
  lemma SamplesSince(u: Unit, s: int, on: Byte, now: int)
    requires !u.sampling && on != 0 && now >= s
    ensures var v := WriteRegister(u, [REG_CONTROL, on], s).0;
            v.sampling && DueBy(v, now) == (now - s) / SAMPLE_US
    ensures var v := WriteRegister(u, [REG_CONTROL, on], s).0;
            forall later, again: Byte | again != 0 :: WriteRegister(v, [REG_CONTROL, again], later).0 == v
  {
  }

  // --- Nothing is lost silently --------------------------------------------

  datatype Act = Write(data: seq<Byte>, now: int) | Read(len: nat) | Advance(now: int) | World(data: seq<Byte>)

  /** A sample made, and whether there was room for it. */
  datatype Made = Made(value: Word, kept: bool)

  /** The unit with its past: every sample made, every one handed out, the bytes of every
      burst read, and how many samples had been lost when the status was last read. */
  datatype Run = Run(u: Unit, made: seq<Made>, handed: seq<Word>, sent: seq<Byte>, reported: nat)

  function Kept(made: seq<Made>): seq<Word> {
    if made == [] then []
    else Kept(made[..|made| - 1]) + (if made[|made| - 1].kept then [made[|made| - 1].value] else [])
  }

  function MakeAll(r: Run, now: int): Run
    decreases now - r.u.nextSampleUs
  {
    if now < r.u.nextSampleUs then r
    else MakeAll(r.(u := Sampled(r.u), made := r.made + [Made(r.u.value, |r.u.fifo| < DEPTH)]), now)
  }

  function Step(r: Run, a: Act): Run {
    match a
    case Write(data, now) => r.(u := WriteRegister(r.u, data, now).0)
    case World(data) => r.(u := SetValue(r.u, data).0)
    case Advance(now) => if !r.u.sampling then r else var s := MakeAll(r, now); s.(u := WithIrq(s.u))
    case Read(len) =>
      var (v, bytes) := ReadRegister(r.u, len);
      r.(u := v, handed := r.handed + r.u.fifo[..|r.u.fifo| - |v.fifo|],
         sent := if r.u.reg == REG_FIFO then r.sent + bytes else r.sent,
         reported := if r.u.reg == REG_STATUS && len >= 2 then r.u.lost else r.reported)
  }

  function Play(r: Run, acts: seq<Act>): Run
    decreases |acts|
  {
    if acts == [] then r else Play(Step(r, acts[0]), acts[1..])
  }

  /** The samples kept went out, or are still there, in the order they were made; the
      bytes of the burst reads are those of the samples that went out; every sample is
      taken, held or counted as lost; the overflow flag says whether any was lost since it
      was last read. */
  predicate Accounted(r: Run) {
    && |r.u.fifo| <= DEPTH && r.handed + r.u.fifo == Kept(r.made) && r.sent == Bytes(r.handed)
    && |r.handed| == r.u.taken && |r.made| == r.u.taken + |r.u.fifo| + r.u.lost
    && r.reported <= r.u.lost && (r.u.overflow <==> r.u.lost > r.reported)
  }

  predicate Sound(r: Run) {
    Accounted(r) && (r.u.irq <==> |r.u.fifo| >= WATERMARK)
  }

  lemma {:induction false} MakeAllIs(r: Run, now: int)
    requires Accounted(r)
    ensures MakeAll(r, now).u == CaughtUp(r.u, now) && Accounted(MakeAll(r, now))
            && MakeAll(r, now).handed == r.handed
    decreases now - r.u.nextSampleUs
  {
    if now >= r.u.nextSampleUs {
      var m := Made(r.u.value, |r.u.fifo| < DEPTH);
      assert (r.made + [m])[..|r.made|] == r.made;
      assert r.handed + (r.u.fifo + [r.u.value]) == r.handed + r.u.fifo + [r.u.value];
      MakeAllIs(r.(u := Sampled(r.u), made := r.made + [m]), now);
    }
  }

  /** The bytes of a burst read are the samples, two bytes each. */
  lemma {:induction false} BytesCarrySamples(samples: seq<Word>, i: nat)
    requires i < |samples|
    ensures (Bytes(samples)[2 * i] as int) * 256 + Bytes(samples)[2 * i + 1] as int == samples[i]
    decreases |samples|
  {
    if i > 0 {
      BytesCarrySamples(samples[1..], i - 1);
    }
  }

  lemma {:induction false} BytesSnoc(samples: seq<Word>, x: Word)
    ensures Bytes(samples + [x]) == Bytes(samples) + [x / 256, x % 256]
    decreases |samples|
  {
    if samples != [] {
      assert (samples + [x])[1..] == samples[1..] + [x];
      BytesSnoc(samples[1..], x);
    }
  }

  lemma {:induction false} BytesAppend(a: seq<Word>, b: seq<Word>)
    ensures Bytes(a + b) == Bytes(a) + Bytes(b)
    decreases |a|
  {
    if a == [] {
      assert a + b == b;
    } else {
      assert (a + b)[1..] == a[1..] + b;
      BytesAppend(a[1..], b);
    }
  }

  lemma StepSound(r: Run, a: Act)
    requires Sound(r)
    ensures Sound(Step(r, a)) && (a.Advance? ==> Step(r, a).u == AdvanceTo(r.u, a.now))
  {
    match a
    case Advance(now) => MakeAllIs(r, now);
    case Read(len) => ReadSound(r, len);
    case Write(_, _) => hide Bytes, Kept;
    case World(_) => hide Bytes, Kept;
  }

  lemma ReadSound(r: Run, len: nat)
    requires Sound(r)
    ensures Sound(Step(r, Read(len)))
  {
    hide Bytes, Kept;
    if r.u.reg == REG_FIFO {
      var n := if len / 2 > |r.u.fifo| then |r.u.fifo| else len / 2;
      BurstIs(r, len, n);
      hide Step;
      Handed(r.handed, r.u.fifo, n);
      BytesAppend(r.handed, r.u.fifo[..n]);
    } else {
      Handed(r.handed, r.u.fifo, 0);
      assert r.u.fifo[..0] == [];
    }
  }

  /** A burst read hands out the n oldest samples that wait. */
  lemma BurstIs(r: Run, len: nat, n: nat)
    requires r.u.reg == REG_FIFO && n == if len / 2 > |r.u.fifo| then |r.u.fifo| else len / 2
    ensures Step(r, Read(len)) ==
            r.(u := WithIrq(r.u.(fifo := r.u.fifo[n..], taken := r.u.taken + n)),
               handed := r.handed + r.u.fifo[..n], sent := r.sent + Bytes(r.u.fifo[..n]))
  {
    hide Bytes;
    assert r.u.fifo[..|r.u.fifo| - |r.u.fifo[n..]|] == r.u.fifo[..n];
  }

  lemma Handed(handed: seq<Word>, fifo: seq<Word>, n: nat)
    requires n <= |fifo|
    ensures handed + fifo[..n] + fifo[n..] == handed + fifo && fifo[..|fifo| - |fifo[n..]|] == fifo[..n]
    ensures handed + [] == handed
  {
  }

  /** Over any run: first in, first out, every sample accounted for, and the interrupt line
      up exactly while eight or more are waiting. */
  lemma {:induction false} EverySampleIsAccountedFor(r: Run, acts: seq<Act>)
    requires Sound(r)
    ensures Sound(Play(r, acts))
    decreases |acts|
  {
    hide Sound, Step;
    if acts != [] {
      StepSound(r, acts[0]);
      EverySampleIsAccountedFor(Step(r, acts[0]), acts[1..]);
    }
  }

  /** What a status read and a burst read answer at any moment of a run: how many samples
      wait and whether one was lost since the last status read; and the oldest that wait,
      as many as fit, two bytes each with the high one first. */
  lemma ReadsAnswer(r: Run, register: Byte, now: int, len: nat)
    requires Sound(r)
    ensures var v := Step(r, Write([register], now));
            && Sound(v) && v.made == r.made && v.handed == r.handed
            && var bytes := ReadRegister(v.u, len).1;
               var waiting := |r.made| - |r.handed| - r.u.lost;
               && (register == 0x00 && len >= 2 ==> bytes == [waiting, if r.u.lost > r.reported then 1 else 0])
               && (register == 0x10 ==>
                     && |bytes| == 2 * (if len / 2 < waiting then len / 2 else waiting)
                     && forall i :: 0 <= i < |bytes| / 2 ==> SampleAt(bytes, i, Kept(r.made), |r.handed|))
               && ((register == 0x00 && len < 2) || register !in {0x00, 0x10} ==> bytes == [])
  {
    StepSound(r, Write([register], now));
    var v := Step(r, Write([register], now));
    hide Kept;
    if register == REG_FIFO {
      var n := if len / 2 > |r.u.fifo| then |r.u.fifo| else len / 2;
      var bytes := ReadRegister(v.u, len).1;
      assert bytes == Bytes(r.u.fifo[..n]);
      forall i | 0 <= i < |bytes| / 2
        ensures SampleAt(bytes, i, Kept(r.made), |r.handed|)
      {
        BytesCarrySamples(r.u.fifo[..n], i);
        assert Kept(r.made)[|r.handed| + i] == r.u.fifo[i];
      }
    }
  }

  /** A value set from the world goes out as it came in: the next sample made, if there is
      room, reads back as those two bytes; fewer bytes change nothing. */
  lemma ValueGoesThrough(u: Unit, data: seq<Byte>)
    requires |u.fifo| < DEPTH
    ensures var (v, taken) := SetValue(u, data);
            && (taken <==> |data| >= 2) && (!taken ==> v == u)
            && (taken ==> v == u.(value := v.value)
                          && Bytes(Sampled(v).fifo) == Bytes(u.fifo) + [data[0], data[1]])
  {
    if |data| >= 2 {
      var v := SetValue(u, data).0;
      assert v.value / 256 == data[0] && v.value % 256 == data[1];
      BytesSnoc(u.fifo, v.value);
    }
  }

  /** A write selects a register of the three there are, refuses any other, and answers an
      empty write like an absent unit; only the control register does more, switching the
      sampling by its second byte. */
  lemma WriteAnswers(u: Unit, data: seq<Byte>, now: int)
    ensures var (v, status) := WriteRegister(u, data, now);
            && (status == 2 <==> data == []) && (status == 2 ==> v == u)
            && (status == 3 <==> data != [] && data[0] !in {0x00, 0x10, 0x20})
            && (status == 0 || status == 2 || status == 3)
            && (data != [] ==> v.reg == data[0])
            && (|data| >= 2 && data[0] == 0x20 ==> (v.sampling <==> data[1] != 0))
            && (|data| < 2 || data[0] != 0x20 ==> v == u.(reg := v.reg))
            && v == u.(reg := v.reg, sampling := v.sampling, nextSampleUs := v.nextSampleUs)
            && (v.nextSampleUs != u.nextSampleUs ==> v.sampling && !u.sampling)
  {
  }

  /** Two bytes are a sample, high byte first. */
  predicate SampleAt(bytes: seq<Byte>, i: nat, samples: seq<Word>, from: nat) {
    2 * i + 1 < |bytes| && from + i < |samples|
    && (bytes[2 * i] as int) * 256 + bytes[2 * i + 1] as int == samples[from + i]
  }

  // --- In place ------------------------------------------------------------

  class ImuModel {
    const fifo: array<Word>
    var count: nat
    var reg: Byte
    var sampling: bool
    var nextSampleUs: int
    var value: Word
    var overflow: bool
    var irq: bool
    var taken: nat
    var lost: nat

    ghost predicate Valid()
      reads this`count
    {
      fifo.Length == DEPTH && count <= DEPTH
    }

    ghost function State(): Unit
      requires Valid()
      reads this, fifo
    {
      Unit(reg, sampling, nextSampleUs, value, fifo[..count], overflow, irq, taken, lost)
    }

    constructor ()
      ensures Valid() && State() == OFF && fresh(fifo)
    {
      fifo := new Word[DEPTH](i => 0);
      count, reg, sampling, nextSampleUs, value := 0, 0, false, 0, 0;
      overflow, irq, taken, lost := false, false, 0, 0;
    }

    method UpdateIrq()
      requires Valid()
      modifies this`irq
      ensures State() == WithIrq(old(State()))
    {
      var want := count >= WATERMARK;
      if want == irq {
        return;
      }
      irq := want;
    }

    method I2cWrite(data: seq<Byte>, now: int) returns (status: nat)
      requires Valid()
      modifies this`reg, this`nextSampleUs, this`sampling
      ensures (State(), status) == WriteRegister(old(State()), data, now)
    {
      if |data| == 0 {
        return ADDRESS_NACK;
      }
      reg := data[0];
      if reg == REG_CONTROL && |data| >= 2 {
        var wanted := data[1] != 0;
        if wanted && !sampling {
          nextSampleUs := now + SAMPLE_US;
        }
        sampling := wanted;
        return ACK;
      }
      if reg != REG_STATUS && reg != REG_FIFO && reg != REG_CONTROL {
        return DATA_NACK;
      }
      return ACK;
    }

    /** The rest of the FIFO moves down over what was handed out. */
    method Drop(n: nat)
      requires Valid() && n <= count
      modifies this`count, fifo
      ensures Valid() && fifo[..count] == old(fifo[n..count])
    {
      ghost var was := fifo[..];
      var i := n;
      while i < count
        invariant n <= i <= count && count == old(count)
        invariant forall k :: 0 <= k < i - n ==> fifo[k] == was[k + n]
        invariant forall k :: i - n <= k < DEPTH ==> fifo[k] == was[k]
      {
        fifo[i - n] := fifo[i];
        i := i + 1;
      }
      count := count - n;
    }

    method Burst(n: nat) returns (data: seq<Byte>)
      requires Valid() && n <= count
      ensures data == Bytes(fifo[..n])
    {
      data := [];
      var i := 0;
      while i < n
        invariant 0 <= i <= n && data == Bytes(fifo[..i])
      {
        data := data + [fifo[i] / 256, fifo[i] % 256];
        BytesSnoc(fifo[..i], fifo[i]);
        assert fifo[..i + 1] == fifo[..i] + [fifo[i]];
        i := i + 1;
      }
    }

    method I2cRead(len: nat) returns (data: seq<Byte>)
      requires Valid()
      modifies this, fifo
      ensures Valid() && (State(), data) == ReadRegister(old(State()), len)
    {
      if reg == REG_STATUS {
        if len < 2 {
          return [];
        }
        data := [count % 256, if overflow then 1 else 0];
        overflow := false;
        return;
      }
      if reg != REG_FIFO {
        return [];
      }
      ghost var was := State();
      var samples := len / 2;
      if samples > count {
        samples := count;
      }
      data := Burst(samples);
      assert was.fifo[..samples] == fifo[..samples] && was.fifo[samples..] == fifo[samples..count];
      Drop(samples);
      taken := taken + samples;
      UpdateIrq();
    }

    method Sample()
      requires Valid()
      modifies this`count, this`lost, this`overflow, this`nextSampleUs, fifo
      ensures Valid() && State() == Sampled(old(State()))
    {
      ghost var was := fifo[..count];
      if count < DEPTH {
        fifo[count] := value;
        count := count + 1;
        assert fifo[..count] == was + [value];
      } else {
        lost := lost + 1;
        if !overflow {
          overflow := true;
        }
      }
      nextSampleUs := nextSampleUs + SAMPLE_US;
    }

    method Advance(now: int)
      requires Valid()
      modifies this`count, this`lost, this`overflow, this`nextSampleUs, this`irq, fifo
      ensures Valid() && State() == AdvanceTo(old(State()), now)
    {
      if !sampling {
        return;
      }
      while now >= nextSampleUs
        invariant Valid() && CaughtUp(State(), now) == CaughtUp(old(State()), now)
        decreases now - nextSampleUs
      {
        Sample();
      }
      UpdateIrq();
    }
  }
}
