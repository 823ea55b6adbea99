/** A pressure sensor on the register table: forced and normal conversions that land in
    its data register on their own schedule. */
module Qmp6988 {
  import opened Wrappers
  import opened RegTable

  const REG_CALIBRATION: Byte := 0xA0
  const REG_RESET: Byte := 0xE0
  const REG_CTRL_MEAS: Byte := 0xF4
  const REG_IO_SETUP: Byte := 0xF5
  const REG_DATA: Byte := 0xF7
  const RESET_VALUE: Byte := 0xE6
  const SAMPLE_BYTES: nat := 6
  const CALIBRATION_BYTES: nat := 25
  const CONVERSION_BASE_US: nat := 2970
  const CONVERSION_PER_SAMPLE_US: nat := 855
  const STANDBY_US: seq<nat> := [972, 5391, 45600, 219640, 500000, 1000000, 2000000, 4000000]

  const CALIBRATION: seq<Byte> := [0x52, 0xDC, 0x0D, 0xA7, 0xF4, 0x82, 0x0D, 0xDC, 0x0C, 0xD2, 0x01, 0xE6, 0xFC, 0x86,
                                   0xF9, 0xC9, 0xFA, 0xA2, 0xF7, 0x2B, 0x0C, 0xBB, 0x03, 0xD8, 0xBB]

  const ENTRIES: seq<Entry> := [Entry(0xA0, CALIBRATION, false), Entry(0xD1, [0x5C], false), Entry(0xE0, [0], true),
                                Entry(0xF1, [0], true), Entry(0xF2, [1], true), Entry(0xF3, [0], false),
                                Entry(0xF4, [0], true), Entry(0xF5, [0], true), Entry(0xF7, [0, 0, 0, 0, 0, 0], false)]

  datatype Mode = Sleep | Forced | Normal

  datatype Sensor = Sensor(values: seq<Byte>, mode: Mode, pending: bool, startUs: int, dueUs: int,
                           samples: seq<seq<Byte>>, nextSample: nat, conversions: nat,
                           calibration: Option<seq<Byte>>)

  predicate Sane(q: Sensor) {
    && |q.values| == VALUE_BYTES && (forall i :: 0 <= i < |q.samples| ==> |q.samples[i]| == SAMPLE_BYTES)
    && (q.samples != [] ==> q.nextSample < |q.samples|)
    && (q.pending <==> q.mode != Sleep)
    && (q.calibration.Some? ==> |q.calibration.value| == CALIBRATION_BYTES)
  }

  /** Samples averaged for a three-bit oversampling field. */
  function Averaged(field: nat): nat {
    match field
    case 0 => 0
    case 1 => 1
    case 2 => 2
    case 3 => 4
    case 4 => 8
    case 5 => 16
    case 6 => 32
    case _ => 64
  }

  function Register(q: Sensor, address: Byte): Byte
    requires Sane(q)
  {
    Get(ENTRIES, q.values, address, 0)
  }

  function ConversionUs(q: Sensor): nat
    requires Sane(q)
  {
    var ctrl := Register(q, REG_CTRL_MEAS);
    CONVERSION_BASE_US + CONVERSION_PER_SAMPLE_US * (Averaged(ctrl / 32 % 8) + Averaged(ctrl / 4 % 8))
  }

  function PeriodUs(q: Sensor): (r: nat)
    requires Sane(q)
    ensures r > ConversionUs(q) > 0
  {
    ConversionUs(q) + STANDBY_US[Register(q, REG_IO_SETUP) / 32 % 8]
  }

  /** One conversion done: the next sample is in the data register, and in normal mode the
      next conversion is due a period later. */
  function Complete(q: Sensor): (r: Sensor)
    requires Sane(q) && q.pending
    ensures Sane(r)
  {
    var v := if q.samples == [] then q
             else q.(values := SetBytes(ENTRIES, q.values, REG_DATA, q.samples[q.nextSample]),
                     nextSample := (q.nextSample + 1) % |q.samples|);
    var c := v.(conversions := q.conversions + 1);
    if q.mode == Normal then c.(startUs := q.dueUs, dueUs := q.dueUs + PeriodUs(c))
    else c.(mode := Sleep, pending := false)
  }

  function AdvanceTo(q: Sensor, now: int): (r: Sensor)
    requires Sane(q)
    ensures Sane(r)
    decreases if q.pending then 1 else 0, now - q.dueUs
  {
    if q.pending && now >= q.dueUs then AdvanceTo(Complete(q), now) else q
  }

  /** The table at power-on, with the calibration the world has given the part, if any. */
  function PowerOn(q: Sensor): (r: seq<Byte>)
    requires Sane(q)
    ensures |r| == VALUE_BYTES
  {
    var v := ResetFrom(ENTRIES, q.values, Registers(ENTRIES));
    if q.calibration.None? then v else SetBytes(ENTRIES, v, REG_CALIBRATION, q.calibration.value)
  }

  /** The world gives the part a calibration. */
  function Calibrated(q: Sensor, data: seq<Byte>): (r: (Sensor, bool))
    requires Sane(q)
    ensures Sane(r.0)
  {
    if |data| != CALIBRATION_BYTES then (q, false)
    else (q.(calibration := Some(data), values := SetBytes(ENTRIES, q.values, REG_CALIBRATION, data)), true)
  }

  /** What a write of one byte to a register does beyond the table. */
  function AfterWrite(q: Sensor, address: Byte, value: Byte, now: int): (r: Sensor)
    requires Sane(q)
    ensures Sane(r)
  {
    if address == REG_RESET then
      if value == RESET_VALUE
      then Sensor(PowerOn(q), Sleep, false, 0, 0, q.samples, 0, 0, q.calibration)
      else q
    else if address != REG_CTRL_MEAS then q
    else if value % 4 == 0 then q.(mode := Sleep, pending := false)
    else
      var next := if value % 4 == 3 then Normal else Forced;
      if q.pending && q.mode == Forced && next == Normal then q.(mode := Normal)
      else
        var v := q.(mode := next, pending := true, startUs := now);
        v.(dueUs := now + ConversionUs(v))
  }

  function BusWritten(q: Sensor, pointer: Byte, data: seq<Byte>, now: int): (r: (Sensor, Byte, nat))
    requires Sane(q)
    ensures Sane(r.0)
  {
    var (values, p, status) := BusWrite(ENTRIES, q.values, pointer, data);
    var v := q.(values := values);
    if status == ACK && |data| == 2
    then (AfterWrite(v, data[0], data[1], now), if data == [REG_RESET, RESET_VALUE] then 0 else p, status)
    else (v, p, status)
  }

  // --- The schedule --------------------------------------------------------

  /** Landing a sample leaves the timing registers alone. */
  lemma CompleteKeepsTiming(q: Sensor)
    requires Sane(q) && q.pending
    ensures ConversionUs(Complete(q)) == ConversionUs(q) && PeriodUs(Complete(q)) == PeriodUs(q)
    ensures Complete(q).samples == q.samples && Complete(q).conversions == q.conversions + 1
    ensures q.samples != [] ==> Complete(q).nextSample == (q.nextSample + 1) % |q.samples|
    ensures q.mode == Normal ==> Complete(q).dueUs == q.dueUs + PeriodUs(q) && Complete(q).mode == Normal
  {
    hide Get;
    if q.samples != [] {
      SetBytesThenGet(ENTRIES, q.values, REG_DATA, q.samples[q.nextSample], REG_CTRL_MEAS, 0);
      SetBytesThenGet(ENTRIES, q.values, REG_DATA, q.samples[q.nextSample], REG_IO_SETUP, 0);
    }
  }

  /** It does not matter in how many jumps time passes. */
  lemma {:induction false} JumpIndependence(q: Sensor, t1: int, t2: int)
    requires Sane(q) && t1 <= t2
    ensures AdvanceTo(AdvanceTo(q, t1), t2) == AdvanceTo(q, t2)
    decreases if q.pending then 1 else 0, t2 - q.dueUs
  {
    if q.pending && t1 >= q.dueUs {
      hide Complete;
      CompleteDecreases(q);
      JumpIndependence(Complete(q), t1, t2);
    }
  }

  lemma CompleteDecreases(q: Sensor)
    requires Sane(q) && q.pending
    ensures Complete(q).pending ==> Complete(q).dueUs > q.dueUs
  {
  }

  /** The place of a sample in the repeating list. */
  function Wrapped(k: nat, n: nat): (r: nat)
    requires n > 0
    ensures r < n && (k < n ==> r == k)
  {
    if k < n then k else Wrapped(k - n, n)
  }

  /** That is the remainder. */
  lemma {:induction false} WrappedIsRemainder(k: nat, n: nat)
    requires n > 0
    ensures Wrapped(k, n) == k % n
  {
    if k < n {
      SmallRemainder(k, n);
    } else {
      WrappedIsRemainder(k - n, n);
      RemainderAgain(k, n);
    }
  }

  lemma SmallRemainder(k: nat, n: nat)
    requires k < n
    ensures k % n == k
  {
  }

  lemma RemainderAgain(k: int, n: int)
    requires k >= n > 0
    ensures k % n == (k - n) % n
  {
    var a: int, b: int := k / n, (k - n) / n;
    assert k == a * n + k % n && k - n == b * n + (k - n) % n;
    var d: int := a - b - 1;
    assert d * n == (k - n) % n - k % n by {
      assert (a - b - 1) * n == a * n - b * n - n;
    }
    NoSmallMultiple(d, n);
  }

  lemma NoSmallMultiple(d: int, n: int)
    requires n > 0 && -n < d * n < n
    ensures d == 0
  {
  }

  lemma WrappedNext(k: nat, n: nat, j: nat)
    requires n > 0 && k < n
    ensures Wrapped((k + 1) % n + j, n) == Wrapped(k + 1 + j, n)
  {
    if k + 1 == n {
      assert (k + 1) % n == 0;
    } else {
      assert (k + 1) % n == k + 1;
    }
  }

  /** The data register presents a sample. */
  predicate Presents(q: Sensor, sample: seq<Byte>)
    requires Sane(q) && |sample| == SAMPLE_BYTES
  {
    forall j :: 0 <= j < SAMPLE_BYTES ==> Get(ENTRIES, q.values, REG_DATA, j) == sample[j]
  }

  lemma TableFits()
    ensures Registers(ENTRIES) == 9
  {
    assert Offset(ENTRIES, 1) == 25;
    assert Offset(ENTRIES, 2) == 26;
    assert Offset(ENTRIES, 3) == 27;
    assert Offset(ENTRIES, 4) == 28;
    assert Offset(ENTRIES, 5) == 29;
    assert Offset(ENTRIES, 6) == 30;
    assert Offset(ENTRIES, 7) == 31;
    assert Offset(ENTRIES, 8) == 32;
    assert Offset(ENTRIES, 9) == 38;
    assert Held(ENTRIES, 9) == 9;
    assert Held(ENTRIES, 8) == 9 && Held(ENTRIES, 7) == 9 && Held(ENTRIES, 6) == 9;
    assert Held(ENTRIES, 5) == 9 && Held(ENTRIES, 4) == 9 && Held(ENTRIES, 3) == 9;
    assert Held(ENTRIES, 2) == 9 && Held(ENTRIES, 1) == 9 && Held(ENTRIES, 0) == 9;
  }

  /** The data register is there, six bytes wide. */
  lemma DataRegisterHeld(j: nat)
    requires j < SAMPLE_BYTES
    ensures Place(ENTRIES, REG_DATA, j).Some?
  {
    TableFits();
    hide Registers;
    assert Find(ENTRIES, 9, REG_DATA, 8) == Some(8);
    assert Find(ENTRIES, 9, REG_DATA, 6) == Some(8);
    assert Find(ENTRIES, 9, REG_DATA, 4) == Some(8);
    assert Find(ENTRIES, 9, REG_DATA, 2) == Some(8);
    assert Find(ENTRIES, 9, REG_DATA, 0) == Some(8);
  }

  lemma CompletePresents(q: Sensor)
    requires Sane(q) && q.pending && q.samples != []
    ensures Presents(Complete(q), q.samples[q.nextSample])
  {
    forall j | 0 <= j < SAMPLE_BYTES
      ensures Get(ENTRIES, Complete(q).values, REG_DATA, j) == q.samples[q.nextSample][j]
    {
      DataRegisterHeld(j);
      SetBytesThenGet(ENTRIES, q.values, REG_DATA, q.samples[q.nextSample], REG_DATA, j);
    }
  }

  /** Of moments starting at `due` and a period apart, exactly n have come by `now`. */
  predicate Passed(due: int, period: nat, now: int, n: nat) {
    (n > 0 ==> due + (n - 1) * period <= now) && now < due + n * period && (n == 0 ==> now < due)
  }

  lemma PassedLess(due: int, period: nat, now: int, n: nat)
    requires n > 0 && Passed(due, period, now, n)
    ensures now >= due && Passed(due + period, period, now, n - 1)
  {
    assert (n - 1) * period + period == n * period;
    if n > 1 {
      assert (n - 2) * period + period == (n - 1) * period;
      assert (n - 1) * period >= 0;
    }
  }

  /** In normal mode, the conversions done by a time are those of the schedule: the first
      when it was due and one for each period after that; the data register presents the
      sample of the last one, the list of samples repeating. */
  lemma {:induction false} NormalConversions(q: Sensor, now: int, n: nat)
    requires Sane(q) && q.mode == Normal && Passed(q.dueUs, PeriodUs(q), now, n)
    ensures var r := AdvanceTo(q, now);
            && r.conversions == q.conversions + n && r.mode == Normal && r.dueUs == q.dueUs + n * PeriodUs(q)
            && r.samples == q.samples
            && (n > 0 && q.samples != [] ==> Presents(r, q.samples[Wrapped(q.nextSample + n - 1, |q.samples|)]))
    decreases n
  {
    hide Complete, PeriodUs, Presents, Wrapped, Passed;
    if n == 0 {
      PassedNone(q.dueUs, PeriodUs(q), now);
    } else {
      PassedLess(q.dueUs, PeriodUs(q), now, n);
      CompleteKeepsTiming(q);
      var c := Complete(q);
      OnePeriod(n, PeriodUs(q));
      NormalConversions(c, now, n - 1);
      assert AdvanceTo(q, now) == AdvanceTo(c, now);
      if q.samples != [] {
        if n > 1 {
          WrappedNext(q.nextSample, |q.samples|, n - 2);
        } else {
          CompletePresents(q);
          WrappedNow(q.nextSample, |q.samples|);
          PassedNone(c.dueUs, PeriodUs(q), now);
          assert AdvanceTo(c, now) == c;
        }
      }
    }
  }

  lemma WrappedNow(k: nat, n: nat)
    requires k < n
    ensures Wrapped(k, n) == k
  {
  }

  lemma OnePeriod(n: nat, p: nat)
    requires n > 0
    ensures p + (n - 1) * p == n * p
  {
  }

  lemma PassedNone(due: int, period: nat, now: int)
    requires Passed(due, period, now, 0)
    ensures now < due
  {
  }

  /** A control byte written over the bus is stored and sets the conversion time. */
  lemma ControlWritten(q: Sensor, pointer: Byte, value: Byte, s: int)
    requires Sane(q)
    ensures var v := q.(values := SetBytes(ENTRIES, q.values, REG_CTRL_MEAS, [value]));
            && BusWritten(q, pointer, [REG_CTRL_MEAS, value], s) ==
               (AfterWrite(v, REG_CTRL_MEAS, value, s), REG_CTRL_MEAS, ACK)
            && Register(v, REG_CTRL_MEAS) == value && Register(v, REG_IO_SETUP) == Register(q, REG_IO_SETUP)
  {
    TableFits();
    hide Registers;
    assert Find(ENTRIES, 9, REG_CTRL_MEAS, 6) == Some(6);
    assert Find(ENTRIES, 9, REG_CTRL_MEAS, 4) == Some(6);
    assert Find(ENTRIES, 9, REG_CTRL_MEAS, 2) == Some(6);
    assert Find(ENTRIES, 9, REG_CTRL_MEAS, 0) == Some(6);
    assert [REG_CTRL_MEAS, value][1..] == [value];
    SetBytesThenGet(ENTRIES, q.values, REG_CTRL_MEAS, [value], REG_CTRL_MEAS, 0);
    SetBytesThenGet(ENTRIES, q.values, REG_CTRL_MEAS, [value], REG_IO_SETUP, 0);
    hide SetBytes, Get;
  }

  /** The conversion time and the period that a written control byte sets. */
  function ConversionSet(value: Byte): nat {
    CONVERSION_BASE_US + CONVERSION_PER_SAMPLE_US * (Averaged(value / 32 % 8) + Averaged(value / 4 % 8))
  }

  function PeriodSet(q: Sensor, value: Byte): nat
    requires Sane(q)
  {
    ConversionSet(value) + STANDBY_US[Register(q, REG_IO_SETUP) / 32 % 8]
  }

  /** The sample of the n-th conversion from now, the list repeating. */
  predicate PresentsNth(q: Sensor, r: Sensor, n: nat)
    requires Sane(q) && Sane(r)
  {
    n > 0 && q.samples != [] ==> Presents(r, q.samples[(q.nextSample + n - 1) % |q.samples|])
  }

  /** Normal mode written at `s`, whatever ran before unless it was a forced conversion:
      nothing until the conversion time of the written byte has passed, then one
      conversion a period, each presenting its sample. */
  lemma NormalModeFrom(q: Sensor, pointer: Byte, value: Byte, s: int, now: int, n: nat)
    requires Sane(q) && !(q.pending && q.mode == Forced) && value % 4 == 3
    requires Passed(s + ConversionSet(value), PeriodSet(q, value), now, n)
    ensures var r := AdvanceTo(BusWritten(q, pointer, [REG_CTRL_MEAS, value], s).0, now);
            r.conversions == q.conversions + n && PresentsNth(q, r, n)
  {
    hide AdvanceTo, Presents, Wrapped, Passed, Averaged, BusWritten, Get, SetBytes;
    ControlWritten(q, pointer, value, s);
    var v := q.(values := SetBytes(ENTRIES, q.values, REG_CTRL_MEAS, [value]));
    NormalConversions(AfterWrite(v, REG_CTRL_MEAS, value, s), now, n);
    if n > 0 && q.samples != [] {
      WrappedIsRemainder(q.nextSample + n - 1, |q.samples|);
    }
  }

  /** Normal mode written while a forced conversion runs does not restart it: the first
      conversion comes when that one was due, however the written byte changes the
      averaging, and the written period only counts from there. */
  lemma ForcedRunsOn(q: Sensor, pointer: Byte, value: Byte, s: int, now: int, n: nat)
    requires Sane(q) && q.pending && q.mode == Forced && value % 4 == 3
    requires Passed(q.dueUs, PeriodSet(q, value), now, n)
    ensures var r := AdvanceTo(BusWritten(q, pointer, [REG_CTRL_MEAS, value], s).0, now);
            r.conversions == q.conversions + n && PresentsNth(q, r, n)
  {
    hide AdvanceTo, Presents, Wrapped, Passed, Averaged, BusWritten, Get, SetBytes;
    ControlWritten(q, pointer, value, s);
    var v := q.(values := SetBytes(ENTRIES, q.values, REG_CTRL_MEAS, [value]));
    NormalConversions(AfterWrite(v, REG_CTRL_MEAS, value, s), now, n);
    if n > 0 && q.samples != [] {
      WrappedIsRemainder(q.nextSample + n - 1, |q.samples|);
    }
  }

  lemma ForcedLands(q: Sensor, value: Byte, s: int, now: int)
    requires Sane(q) && (value % 4 == 1 || value % 4 == 2)
    ensures var a := AfterWrite(q, REG_CTRL_MEAS, value, s);
            var r := AdvanceTo(a, now);
            && a.conversions == q.conversions
            && (now < s + ConversionUs(q) ==> r == a)
            && (now >= s + ConversionUs(q) ==>
                  r.mode == Sleep && !r.pending && r.conversions == q.conversions + 1
                  && (q.samples != [] ==> Presents(r, q.samples[q.nextSample])))
  {
    var a := AfterWrite(q, REG_CTRL_MEAS, value, s);
    if now >= s + ConversionUs(q) {
      if a.samples != [] {
        CompletePresents(a);
      }
      assert AdvanceTo(a, now) == AdvanceTo(Complete(a), now) == Complete(a);
    }
  }

  /** A forced conversion written over the bus at `s` lands once, when the conversion time
      of the written byte has passed, and the part sleeps. */
  lemma ForcedOnce(q: Sensor, pointer: Byte, value: Byte, s: int, now: int)
    requires Sane(q) && (value % 4 == 1 || value % 4 == 2)
    ensures var a := BusWritten(q, pointer, [REG_CTRL_MEAS, value], s).0;
            var r := AdvanceTo(a, now);
            && (now < s + ConversionSet(value) ==> r == a && r.conversions == q.conversions)
            && (now >= s + ConversionSet(value) ==>
                  r.mode == Sleep && !r.pending && r.conversions == q.conversions + 1
                  && (q.samples != [] ==> Presents(r, q.samples[q.nextSample])))
  {
    hide AdvanceTo, AfterWrite, Presents, BusWritten, Averaged, Get, SetBytes;
    ControlWritten(q, pointer, value, s);
    ForcedLands(q.(values := SetBytes(ENTRIES, q.values, REG_CTRL_MEAS, [value])), value, s, now);
  }

  /** Sleep mode written over the bus abandons whatever was running: no time brings a
      conversion. */
  lemma SleepStops(q: Sensor, pointer: Byte, value: Byte, s: int, now: int)
    requires Sane(q) && value % 4 == 0
    ensures var a := BusWritten(q, pointer, [REG_CTRL_MEAS, value], s).0;
            && a.mode == Sleep && !a.pending && a.conversions == q.conversions && AdvanceTo(a, now) == a
  {
    hide BusWritten, Get, SetBytes;
    ControlWritten(q, pointer, value, s);
  }

  function Doubled(n: nat): nat {
    if n == 0 then 1 else 2 * Doubled(n - 1)
  }

  /** A field of the control byte asks for no sample, or for twice as many as the field
      below it. */
  function SamplesOf(field: nat): nat {
    if field == 0 then 0 else Doubled(field - 1)
  }

  /** The conversion time of a written control byte: 2970 us, and 855 us for each sample
      averaged, of the temperature by its three high bits and of the pressure by the three
      below. */
  lemma ConversionTime(q: Sensor, pointer: Byte, t: nat, p: nat, m: nat, s: int)
    requires Sane(q) && t < 8 && p < 8 && m < 4
    ensures var value := 32 * t + 4 * p + m;
            && ConversionSet(value) == 2970 + 855 * (SamplesOf(t) + SamplesOf(p))
            && ConversionUs(BusWritten(q, pointer, [0xF4, value], s).0) == ConversionSet(value)
  {
    var value: Byte := 32 * t + 4 * p + m;
    Fields(t, p, m);
    AveragedIs(t);
    AveragedIs(p);
    hide BusWritten, Get, SetBytes, Averaged, SamplesOf;
    ControlWritten(q, pointer, value, s);
    var v := q.(values := SetBytes(ENTRIES, q.values, REG_CTRL_MEAS, [value]));
    AfterKeepsControl(v, value, s);
  }

  lemma AfterKeepsControl(q: Sensor, value: Byte, s: int)
    requires Sane(q)
    ensures AfterWrite(q, REG_CTRL_MEAS, value, s).values == q.values
  {
  }

  lemma Fields(t: nat, p: nat, m: nat)
    requires t < 8 && p < 8 && m < 4
    ensures var value := 32 * t + 4 * p + m;
            value < 256 && value / 32 % 8 == t && value / 4 % 8 == p
  {
    assert (32 * t + 4 * p + m) / 32 == t;
    assert (32 * t + 4 * p + m) / 4 == 8 * t + p;
  }

  lemma AveragedIs(field: nat)
    requires field < 8
    ensures Averaged(field) == SamplesOf(field)
  {
    assert Doubled(0) == 1 && Doubled(1) == 2 && Doubled(2) == 4 && Doubled(3) == 8;
    assert Doubled(4) == 16 && Doubled(5) == 32 && Doubled(6) == 64;
  }

  /** The standby of a written setup byte is chosen by its three high bits; the byte changes
      nothing else, and normal mode goes on from the conversion already due. */
  lemma StandbyTime(q: Sensor, pointer: Byte, i: nat, low: nat, s: int)
    requires Sane(q) && i < 8 && low < 32
    ensures var v := BusWritten(q, pointer, [0xF5, 32 * i + low], s).0;
            && v == q.(values := v.values) && ConversionUs(v) == ConversionUs(q)
            && PeriodUs(v) == ConversionUs(v) +
                              [972, 5391, 45600, 219640, 500000, 1000000, 2000000, 4000000][i]
  {
    var value: Byte := 32 * i + low;
    assert value / 32 % 8 == i;
    SetupStored(q, pointer, value);
    SetBytesThenGet(ENTRIES, q.values, REG_IO_SETUP, [value], REG_CTRL_MEAS, 0);
    SetBytesThenGet(ENTRIES, q.values, REG_IO_SETUP, [value], REG_IO_SETUP, 0);
    hide BusWrite, SetBytes, Get, Averaged;
  }

  lemma SetupStored(q: Sensor, pointer: Byte, value: Byte)
    requires Sane(q)
    ensures BusWrite(ENTRIES, q.values, pointer, [REG_IO_SETUP, value]) ==
            (SetBytes(ENTRIES, q.values, REG_IO_SETUP, [value]), REG_IO_SETUP, ACK)
    ensures Place(ENTRIES, REG_IO_SETUP, 0).Some?
  {
    TableFits();
    hide Registers, SetBytes;
    assert Find(ENTRIES, 9, REG_IO_SETUP, 7) == Some(7);
    assert Find(ENTRIES, 9, REG_IO_SETUP, 5) == Some(7);
    assert Find(ENTRIES, 9, REG_IO_SETUP, 3) == Some(7);
    assert Find(ENTRIES, 9, REG_IO_SETUP, 1) == Some(7);
    assert Find(ENTRIES, 9, REG_IO_SETUP, 0) == Some(7);
    assert [REG_IO_SETUP, value][1..] == [value];
  }

  /** A calibration of the right size is taken and presented; any other is refused. */
  lemma CalibrationPresents(q: Sensor, data: seq<Byte>, k: nat)
    requires Sane(q) && k < 25
    ensures var (r, taken) := Calibrated(q, data);
            && (taken <==> |data| == 25) && (!taken ==> r == q)
            && (taken ==> Get(ENTRIES, r.values, 0xA0, k) == data[k] && r.calibration == Some(data))
  {
    if |data| == 25 {
      TableFits();
      hide Registers;
      assert Find(ENTRIES, 9, REG_CALIBRATION, 0) == Some(0);
      SetBytesThenGet(ENTRIES, q.values, REG_CALIBRATION, data, REG_CALIBRATION, k);
      hide SetBytes, Get;
    }
  }

  /** What a soft reset leaves: the part asleep, nothing pending at any later time, its
      counters and its list of samples at their start, and every register at its power-on
      contents, the calibration at what the world has given. */
  lemma ResetLeaves(q: Sensor, pointer: Byte, s: int, later: int, address: Byte, k: nat)
    requires Sane(q) && Place(ENTRIES, address, k).Some?
    ensures var (r, p, status) := BusWritten(q, pointer, [0xE0, 0xE6], s);
            && status == ACK && p == 0 && r.mode == Sleep && !r.pending && r.conversions == 0 && r.nextSample == 0
            && r.samples == q.samples && r.calibration == q.calibration && AdvanceTo(r, later) == r
            && Get(ENTRIES, r.values, address, k) ==
               if address == 0xA0 && q.calibration.Some? && k < 25 then q.calibration.value[k]
               else ENTRIES[IndexOf(ENTRIES, address).value].reset[k]
  {
    var data: seq<Byte> := [REG_RESET, RESET_VALUE];
    var v := q.(values := SetBytes(ENTRIES, q.values, REG_RESET, data[1..]));
    ResetStored(q, pointer, RESET_VALUE);
    var base := ResetFrom(ENTRIES, v.values, Registers(ENTRIES));
    PowerOnContents(ENTRIES, v.values, address, k);
    if q.calibration.Some? {
      SetBytesThenGet(ENTRIES, base, REG_CALIBRATION, q.calibration.value, address, k);
    }
    hide BusWrite, SetBytes, Get, ResetFrom, Place, IndexOf;
  }

  /** Any other value written to the reset register is stored, and that is all. */
  lemma OtherValuesOnlyStore(q: Sensor, pointer: Byte, value: Byte, s: int, address: Byte, k: nat)
    requires Sane(q) && value != 0xE6
    ensures var (r, p, status) := BusWritten(q, pointer, [0xE0, value], s);
            && status == ACK && p == 0xE0 && r == q.(values := r.values)
            && Get(ENTRIES, r.values, address, k) ==
               if address == 0xE0 && k == 0 then value else Get(ENTRIES, q.values, address, k)
  {
    ResetStored(q, pointer, value);
    SetBytesThenGet(ENTRIES, q.values, REG_RESET, [value], address, k);
    hide BusWrite, SetBytes, Get;
  }

  lemma ResetStored(q: Sensor, pointer: Byte, value: Byte)
    requires Sane(q)
    ensures BusWrite(ENTRIES, q.values, pointer, [REG_RESET, value]) ==
            (SetBytes(ENTRIES, q.values, REG_RESET, [value]), REG_RESET, ACK)
    ensures [REG_RESET, value][1..] == [value] && Place(ENTRIES, REG_RESET, 0).Some?
  {
    TableFits();
    hide Registers, SetBytes;
    assert Find(ENTRIES, 9, REG_RESET, 2) == Some(2);
    assert Find(ENTRIES, 9, REG_RESET, 0) == Some(2);
    assert [REG_RESET, value][1..] == [value];
  }

  // --- In place ------------------------------------------------------------

  class Qmp6988Model {
    var values: seq<Byte>
    var mode: Mode
    var pending: bool
    var startUs: int
    var dueUs: int
    var samples: seq<seq<Byte>>
    var nextSample: nat
    var conversions: nat
    var calibration: Option<seq<Byte>>

    function State(): Sensor
      reads this
    {
      Sensor(values, mode, pending, startUs, dueUs, samples, nextSample, conversions, calibration)
    }

    ghost predicate Valid()
      reads this
    {
      Sane(State())
    }

    constructor ()
      ensures Valid() && mode == Sleep && samples == [] && conversions == 0 && calibration == None
      ensures values == ResetFrom(ENTRIES, seq(VALUE_BYTES, i => 0), Registers(ENTRIES))
    {
      values := ResetFrom(ENTRIES, seq(VALUE_BYTES, i => 0), Registers(ENTRIES));
      mode, pending, startUs, dueUs, samples, nextSample, conversions := Sleep, false, 0, 0, [], 0, 0;
      calibration := None;
    }

    method CompleteOne()
      requires Valid() && pending
      modifies this
      ensures Valid() && State() == Complete(old(State()))
    {
      hide SetBytes, Get, PeriodUs, ConversionUs;
      if |samples| > 0 {
        values := SetBytes(ENTRIES, values, REG_DATA, samples[nextSample]);
        nextSample := (nextSample + 1) % |samples|;
      }
      conversions := conversions + 1;
      if mode == Normal {
        var period := PeriodUs(State());
        startUs := dueUs;
        dueUs := dueUs + period;
      } else {
        mode := Sleep;
        pending := false;
      }
    }

    method Calibrate(data: seq<Byte>) returns (taken: bool)
      requires Valid()
      modifies this
      ensures Valid() && (State(), taken) == Calibrated(old(State()), data)
    {
      if |data| != CALIBRATION_BYTES {
        return false;
      }
      calibration := Some(data);
      values := SetBytes(ENTRIES, values, REG_CALIBRATION, data);
      return true;
    }

    method Written(address: Byte, value: Byte, now: int)
      requires Valid()
      modifies this
      ensures Valid() && State() == AfterWrite(old(State()), address, value, now)
    {
      if address == REG_RESET {
        if value == RESET_VALUE {
          values := ResetFrom(ENTRIES, values, Registers(ENTRIES));
          if calibration.Some? {
            values := SetBytes(ENTRIES, values, REG_CALIBRATION, calibration.value);
          }
          mode, pending, startUs, dueUs, nextSample, conversions := Sleep, false, 0, 0, 0, 0;
        }
        return;
      }
      if address != REG_CTRL_MEAS {
        return;
      }
      if value % 4 == 0 {
        mode, pending := Sleep, false;
        return;
      }
      var next := if value % 4 == 3 then Normal else Forced;
      if pending && mode == Forced && next == Normal {
        mode := Normal;
        return;
      }
      mode, pending, startUs := next, true, now;
      dueUs := now + ConversionUs(State());
    }

    method Advance(now: int)
      requires Valid()
      modifies this
      ensures Valid() && State() == AdvanceTo(old(State()), now)
    {
      hide Complete;
      while pending && now >= dueUs
        invariant Valid() && AdvanceTo(State(), now) == AdvanceTo(old(State()), now)
        decreases if pending then 1 else 0, now - dueUs
      {
        CompleteDecreases(State());
        CompleteOne();
      }
    }
  }
}
