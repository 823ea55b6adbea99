/** The two checksums of the bench: CRC-8/ATM over recorded payloads and event
    texts, and the CRC-16 that closes every Modbus frame. */
module Checksum {

  function Xor8(a: bv8, b: bv8): bv8 {
    a ^ b
  }

  function Xor16(a: bv16, b: bv16): bv16 {
    a ^ b
  }

  // --- CRC-8 ---------------------------------------------------------------

  /** One shift of the CRC-8 register (polynomial 0x07). */
  function Shift8(crc: bv8): bv8 {
    if crc & 0x80 != 0 then (crc << 1) ^ 0x07 else crc << 1
  }

  function Byte8(crc: bv8): bv8 {
    Shift8(Shift8(Shift8(Shift8(Shift8(Shift8(Shift8(Shift8(crc))))))))
  }

  /** The checksum after one more byte. */
  function Crc8Step(crc: bv8, value: bv8): bv8 {
    Byte8(Xor8(crc, value))
  }

  function Crc8From(crc: bv8, data: seq<bv8>): bv8
    decreases |data|
  {
    if data == [] then crc else Crc8From(Crc8Step(crc, data[0]), data[1..])
  }

  function Shift8Times(crc: bv8, n: nat): bv8
    decreases n
  {
    if n == 0 then crc else Shift8(Shift8Times(crc, n - 1))
  }

  lemma EightShifts8(crc: bv8)
    ensures Shift8Times(crc, 8) == Byte8(crc)
  {
    hide Shift8;
    assert Shift8Times(crc, 1) == Shift8(Shift8Times(crc, 0));
    assert Shift8Times(crc, 2) == Shift8(Shift8Times(crc, 1));
    assert Shift8Times(crc, 3) == Shift8(Shift8Times(crc, 2));
    assert Shift8Times(crc, 4) == Shift8(Shift8Times(crc, 3));
    assert Shift8Times(crc, 5) == Shift8(Shift8Times(crc, 4));
    assert Shift8Times(crc, 6) == Shift8(Shift8Times(crc, 5));
    assert Shift8Times(crc, 7) == Shift8(Shift8Times(crc, 6));
  }

  /** The bit loop of both implementations. */
  method ByteLoop8(crc: bv8, value: bv8) returns (r: bv8)
    ensures r == Crc8Step(crc, value)
  {
    hide Shift8, Byte8;
    r := crc ^ value;
    var bit := 0;
    while bit < 8
      invariant 0 <= bit <= 8 && r == Shift8Times(Xor8(crc, value), bit)
    {
      r := Shift8(r);
      bit := bit + 1;
    }
    EightShifts8(Xor8(crc, value));
  }

  /** The whole-payload CRC is the running one, byte after byte. */
  method Crc8(data: seq<bv8>) returns (crc: bv8)
    ensures crc == Crc8From(0, data)
  {
    hide Byte8, Crc8Step;
    crc := 0;
    var i := 0;
    while i < |data|
      invariant 0 <= i <= |data| && Crc8From(0, data) == Crc8From(crc, data[i..])
    {
      assert data[i..][1..] == data[i + 1..];
      crc := ByteLoop8(crc, data[i]);
      i := i + 1;
    }
    assert data[i..] == [];
  }

  lemma Shift8Injective(x: bv8, y: bv8)
    ensures Shift8(x) == Shift8(y) <==> x == y
  {
  }

  lemma LinearNone(x: bv8, y: bv8)
    requires x & 0x80 == 0 && y & 0x80 == 0
    ensures Shift8(Xor8(x, y)) == Xor8(Shift8(x), Shift8(y))
  {
  }

  lemma LinearLeft(x: bv8, y: bv8)
    requires x & 0x80 != 0 && y & 0x80 == 0
    ensures Shift8(Xor8(x, y)) == Xor8(Shift8(x), Shift8(y))
    ensures Shift8(Xor8(y, x)) == Xor8(Shift8(y), Shift8(x))
  {
  }

  lemma LinearBoth(x: bv8, y: bv8)
    requires x & 0x80 != 0 && y & 0x80 != 0
    ensures Shift8(Xor8(x, y)) == Xor8(Shift8(x), Shift8(y))
  {
  }

  lemma Shift8Linear(x: bv8, y: bv8)
    ensures Shift8(Xor8(x, y)) == Xor8(Shift8(x), Shift8(y))
  {
    hide Shift8, Xor8;
    if x & 0x80 == 0 {
      if y & 0x80 == 0 {
        LinearNone(x, y);
      } else {
        LinearLeft(y, x);
      }
    } else if y & 0x80 == 0 {
      LinearLeft(x, y);
    } else {
      LinearBoth(x, y);
    }
  }

  lemma {:induction false} Shift8TimesInjective(x: bv8, y: bv8, n: nat)
    ensures Shift8Times(x, n) == Shift8Times(y, n) <==> x == y
    decreases n
  {
    hide Shift8;
    if n > 0 {
      Shift8TimesInjective(x, y, n - 1);
      Shift8Injective(Shift8Times(x, n - 1), Shift8Times(y, n - 1));
    }
  }

  lemma {:induction false} Shift8TimesLinear(x: bv8, y: bv8, n: nat)
    ensures Shift8Times(Xor8(x, y), n) == Xor8(Shift8Times(x, n), Shift8Times(y, n))
    decreases n
  {
    hide Shift8, Xor8;
    if n > 0 {
      Shift8TimesLinear(x, y, n - 1);
      Shift8Linear(Shift8Times(x, n - 1), Shift8Times(y, n - 1));
    }
  }

  lemma Byte8Injective(x: bv8, y: bv8)
    ensures Byte8(x) == Byte8(y) <==> x == y
  {
    hide Byte8;
    EightShifts8(x);
    EightShifts8(y);
    Shift8TimesInjective(x, y, 8);
  }

  lemma Byte8Linear(x: bv8, y: bv8)
    ensures Byte8(Xor8(x, y)) == Xor8(Byte8(x), Byte8(y))
  {
    hide Byte8, Xor8;
    EightShifts8(x);
    EightShifts8(y);
    EightShifts8(Xor8(x, y));
    Shift8TimesLinear(x, y, 8);
  }

  /** The only registers that a zero byte leaves as they are. */
  lemma Byte8FixedPoints(x: bv8)
    ensures Byte8(x) == x <==> x == 0 || x == 0xFD
  {
  }

  lemma {:induction false} Crc8Append(crc: bv8, a: seq<bv8>, b: seq<bv8>)
    ensures Crc8From(crc, a + b) == Crc8From(Crc8From(crc, a), b)
    decreases |a|
  {
    hide Crc8Step;
    if a == [] {
      assert a + b == b;
    } else {
      assert (a + b)[1..] == a[1..] + b;
      Crc8Append(Crc8Step(crc, a[0]), a[1..], b);
    }
  }

  lemma XorCancels8(x: bv8, y: bv8, v: bv8)
    ensures Xor8(x, v) == Xor8(y, v) <==> x == y
    ensures Xor8(v, x) == Xor8(v, y) <==> x == y
  {
  }

  lemma StepInjective8(x: bv8, y: bv8, v: bv8)
    ensures Crc8Step(x, v) == Crc8Step(y, v) <==> x == y
    ensures Crc8Step(v, x) == Crc8Step(v, y) <==> x == y
  {
    hide Byte8, Xor8;
    XorCancels8(x, y, v);
    Byte8Injective(Xor8(x, v), Xor8(y, v));
    Byte8Injective(Xor8(v, x), Xor8(v, y));
  }

  /** Different registers stay different over any common data. */
  lemma {:induction false} Crc8FromInjective(x: bv8, y: bv8, data: seq<bv8>)
    ensures Crc8From(x, data) == Crc8From(y, data) <==> x == y
    decreases |data|
  {
    hide Crc8Step;
    if data != [] {
      StepInjective8(x, y, data[0]);
      Crc8FromInjective(Crc8Step(x, data[0]), Crc8Step(y, data[0]), data[1..]);
    }
  }

  /** One wrong byte anywhere always changes the checksum. */
  lemma OneByteIsSeen8(crc: bv8, front: seq<bv8>, a: bv8, b: bv8, rest: seq<bv8>)
    ensures Crc8From(crc, front + [a] + rest) == Crc8From(crc, front + [b] + rest) <==> a == b
  {
    hide Crc8Step;
    var c := Crc8From(crc, front);
    SplitByte(crc, front, a, rest);
    SplitByte(crc, front, b, rest);
    StepInjective8(a, b, c);
    Crc8FromInjective(Crc8Step(c, a), Crc8Step(c, b), rest);
  }

  lemma SplitByte(crc: bv8, front: seq<bv8>, a: bv8, rest: seq<bv8>)
    ensures Crc8From(crc, front + [a] + rest) == Crc8From(Crc8Step(Crc8From(crc, front), a), rest)
  {
    hide Crc8Step;
    Crc8Append(crc, front + [a], rest);
    Crc8Append(crc, front, [a]);
    assert [a][1..] == [];
    assert Crc8From(Crc8From(crc, front), [a]) == Crc8From(Crc8Step(Crc8From(crc, front), a), []);
  }

  lemma XorShared(c: bv8, a: bv8, b: bv8)
    ensures Xor8(Xor8(c, a), Xor8(c, b)) == Xor8(a, b)
  {
  }

  lemma XorMoves(a: bv8, b: bv8, x: bv8, y: bv8)
    ensures Xor8(x, b) == Xor8(y, a) ==> Xor8(x, y) == Xor8(a, b)
  {
  }

  lemma XorMovesBack(a: bv8, b: bv8, x: bv8, y: bv8)
    ensures Xor8(x, y) == Xor8(a, b) ==> Xor8(x, b) == Xor8(y, a)
  {
  }

  /** Two registers that took a and b in the two orders. */
  lemma SwapStep8(c: bv8, a: bv8, b: bv8)
    ensures Crc8Step(Crc8Step(c, a), b) == Crc8Step(Crc8Step(c, b), a) <==> Xor8(a, b) == 0 || Xor8(a, b) == 0xFD
  {
    hide Byte8, Xor8;
    var x, y := Byte8(Xor8(c, a)), Byte8(Xor8(c, b));
    Byte8Injective(Xor8(x, b), Xor8(y, a));
    XorShared(c, a, b);
    XorMoves(a, b, x, y);
    XorMovesBack(a, b, x, y);
    Byte8Linear(Xor8(c, a), Xor8(c, b));
    Byte8FixedPoints(Xor8(a, b));
  }

  /** A transposition of neighbours is seen unless the two differ by 0 or 0xFD. */
  lemma SwapIsSeen8(crc: bv8, front: seq<bv8>, a: bv8, b: bv8, rest: seq<bv8>)
    ensures Crc8From(crc, front + [a, b] + rest) == Crc8From(crc, front + [b, a] + rest) <==>
            a ^ b == 0 || a ^ b == 0xFD
  {
    hide Crc8Step;
    var c := Crc8From(crc, front);
    SplitPair(crc, front, a, b, rest);
    SplitPair(crc, front, b, a, rest);
    SwapStep8(c, a, b);
    Crc8FromInjective(Crc8Step(Crc8Step(c, a), b), Crc8Step(Crc8Step(c, b), a), rest);
  }

  lemma SplitPair(crc: bv8, front: seq<bv8>, a: bv8, b: bv8, rest: seq<bv8>)
    ensures Crc8From(crc, front + [a, b] + rest) ==
            Crc8From(Crc8Step(Crc8Step(Crc8From(crc, front), a), b), rest)
  {
    hide Byte8, Crc8Step;
    assert front + [a, b] + rest == (front + [a]) + [b] + rest;
    assert front + [a] == front + [a] + [];
    SplitByte(crc, front + [a], b, rest);
    SplitByte(crc, front, a, []);
  }

  // --- CRC-16 --------------------------------------------------------------

  /** One shift of the reflected CRC-16 register (polynomial 0xA001). */
  function Shift16(crc: bv16): bv16 {
    if crc & 1 != 0 then (crc >> 1) ^ 0xA001 else crc >> 1
  }

  function Shift16Times(crc: bv16, n: nat): bv16
    decreases n
  {
    if n == 0 then crc else Shift16(Shift16Times(crc, n - 1))
  }

  function Crc16Step(crc: bv16, value: bv8): bv16 {
    Shift16Times(Xor16(crc, value as bv16), 8)
  }

  function Crc16From(crc: bv16, data: seq<bv8>): bv16
    decreases |data|
  {
    if data == [] then crc else Crc16From(Crc16Step(crc, data[0]), data[1..])
  }

  function Crc16(data: seq<bv8>): bv16 {
    Crc16From(0xFFFF, data)
  }

  method ComputeCrc16(data: seq<bv8>) returns (crc: bv16)
    ensures crc == Crc16(data)
  {
    hide Shift16;
    crc := 0xFFFF;
    var i := 0;
    while i < |data|
      invariant 0 <= i <= |data| && Crc16(data) == Crc16From(crc, data[i..])
    {
      assert data[i..][1..] == data[i + 1..];
      ghost var start := Xor16(crc, data[i] as bv16);
      crc := crc ^ (data[i] as bv16);
      var bit := 0;
      while bit < 8
        invariant 0 <= bit <= 8 && crc == Shift16Times(start, bit)
      {
        crc := Shift16(crc);
        bit := bit + 1;
      }
      i := i + 1;
    }
    assert data[i..] == [];
  }

  function LowByte(crc: bv16): bv8 {
    (crc & 0xFF) as bv8
  }

  function HighByte(crc: bv16): bv8 {
    (crc >> 8) as bv8
  }

  lemma Shift16Injective(x: bv16, y: bv16)
    ensures Shift16(x) == Shift16(y) <==> x == y
  {
  }

  lemma {:induction false} Shift16TimesInjective(x: bv16, y: bv16, n: nat)
    ensures Shift16Times(x, n) == Shift16Times(y, n) <==> x == y
    decreases n
  {
    hide Shift16;
    if n > 0 {
      Shift16TimesInjective(x, y, n - 1);
      Shift16Injective(Shift16Times(x, n - 1), Shift16Times(y, n - 1));
    }
  }

  lemma XorCancels16(x: bv16, y: bv16, v: bv16)
    ensures Xor16(x, v) == Xor16(y, v) <==> x == y
    ensures Xor16(v, x) == Xor16(v, y) <==> x == y
  {
  }

  lemma StepInjective16(x: bv16, y: bv16, a: bv8, b: bv8)
    ensures Crc16Step(x, a) == Crc16Step(y, a) <==> x == y
    ensures Crc16Step(x, a) == Crc16Step(x, b) <==> a == b
  {
    hide Shift16Times, Xor16;
    var v, w := a as bv16, b as bv16;
    WidenInjective(a, b);
    XorCancels16(x, y, v);
    XorCancels16(v, w, x);
    Shift16TimesInjective(Xor16(x, v), Xor16(y, v), 8);
    Shift16TimesInjective(Xor16(x, v), Xor16(x, w), 8);
  }

  lemma {:induction false} Crc16FromInjective(x: bv16, y: bv16, data: seq<bv8>)
    ensures Crc16From(x, data) == Crc16From(y, data) <==> x == y
    decreases |data|
  {
    hide Crc16Step;
    if data != [] {
      StepInjective16(x, y, data[0], data[0]);
      Crc16FromInjective(Crc16Step(x, data[0]), Crc16Step(y, data[0]), data[1..]);
    }
  }

  lemma {:induction false} Crc16Append(crc: bv16, a: seq<bv8>, b: seq<bv8>)
    ensures Crc16From(crc, a + b) == Crc16From(Crc16From(crc, a), b)
    decreases |a|
  {
    hide Crc16Step;
    if a == [] {
      assert a + b == b;
    } else {
      assert (a + b)[1..] == a[1..] + b;
      Crc16Append(Crc16Step(crc, a[0]), a[1..], b);
    }
  }

  lemma Split16(crc: bv16, front: seq<bv8>, a: bv8, rest: seq<bv8>)
    ensures Crc16From(crc, front + [a] + rest) == Crc16From(Crc16Step(Crc16From(crc, front), a), rest)
  {
    hide Crc16Step;
    Crc16Append(crc, front + [a], rest);
    Crc16Append(crc, front, [a]);
    assert [a][1..] == [];
    assert Crc16From(Crc16From(crc, front), [a]) == Crc16From(Crc16Step(Crc16From(crc, front), a), []);
  }

  lemma WidenInjective(a: bv8, b: bv8)
    ensures a as bv16 == b as bv16 <==> a == b
  {
  }

  /** One wrong byte anywhere always changes the CRC-16 too. */
  lemma OneByteIsSeen16(crc: bv16, front: seq<bv8>, a: bv8, b: bv8, rest: seq<bv8>)
    ensures Crc16From(crc, front + [a] + rest) == Crc16From(crc, front + [b] + rest) <==> a == b
  {
    hide Crc16Step;
    var c := Crc16From(crc, front);
    Split16(crc, front, a, rest);
    Split16(crc, front, b, rest);
    StepInjective16(c, c, a, b);
    Crc16FromInjective(Crc16Step(c, a), Crc16Step(c, b), rest);
  }

  lemma ClearOne(x: bv16)
    requires x & 1 == 0
    ensures Shift16(x) == x >> 1
  {
  }

  lemma LowBits(x: bv16)
    requires x & 0xFF == 0
    ensures x & 1 == 0 && (x >> 1) & 1 == 0 && (x >> 2) & 1 == 0 && (x >> 3) & 1 == 0
    ensures (x >> 4) & 1 == 0 && (x >> 5) & 1 == 0 && (x >> 6) & 1 == 0 && (x >> 7) & 1 == 0
    ensures (x >> 1) >> 1 == x >> 2 && (x >> 2) >> 1 == x >> 3 && (x >> 3) >> 1 == x >> 4
    ensures (x >> 4) >> 1 == x >> 5 && (x >> 5) >> 1 == x >> 6 && (x >> 6) >> 1 == x >> 7 && (x >> 7) >> 1 == x >> 8
  {
  }

  /** A register whose low eight bits are clear only shifts. */
  lemma ClearShift(x: bv16)
    requires x & 0xFF == 0
    ensures Shift16Times(x, 8) == x >> 8
  {
    hide Shift16;
    LowBits(x);
    ClearOne(x);
    ClearOne(x >> 1);
    ClearOne(x >> 2);
    ClearOne(x >> 3);
    ClearOne(x >> 4);
    ClearOne(x >> 5);
    ClearOne(x >> 6);
    ClearOne(x >> 7);
    assert Shift16Times(x, 2) == Shift16(Shift16Times(x, 1));
    assert Shift16Times(x, 4) == Shift16(Shift16Times(x, 3));
    assert Shift16Times(x, 6) == Shift16(Shift16Times(x, 5));
  }

  lemma OwnBytes(c: bv16)
    ensures Xor16(c, LowByte(c) as bv16) & 0xFF == 0
    ensures Xor16(c, LowByte(c) as bv16) >> 8 == c >> 8
    ensures Xor16(c >> 8, HighByte(c) as bv16) == 0
  {
  }

  lemma ZeroStays()
    ensures Shift16Times(0, 8) == 0
  {
    ClearShift(0);
  }

  /** A register that takes in its own two bytes, low byte first, ends at zero. */
  lemma OwnBytesClear(c: bv16)
    ensures Crc16Step(Crc16Step(c, LowByte(c)), HighByte(c)) == 0
  {
    hide Shift16Times, Xor16, LowByte, HighByte;
    OwnBytes(c);
    ClearShift(Xor16(c, LowByte(c) as bv16));
    ZeroStays();
  }

  /** Any data followed by its own CRC, low byte first, leaves the register at zero. */
  lemma OwnCrcGivesZero(data: seq<bv8>)
    ensures Crc16(data + [LowByte(Crc16(data)), HighByte(Crc16(data))]) == 0
  {
    hide Crc16Step, LowByte, HighByte;
    var c := Crc16(data);
    var lo, hi := LowByte(c), HighByte(c);
    assert data + [lo, hi] == (data + [lo]) + [hi] + [];
    Split16(0xFFFF, data + [lo], hi, []);
    assert data + [lo] == data + [lo] + [];
    Split16(0xFFFF, data, lo, []);
    OwnBytesClear(c);
  }

  // --- Check values --------------------------------------------------------

  /** The digits one to nine, on which checksums are told apart. */
  const DIGITS: seq<bv8> := [0x31, 0x32, 0x33, 0x34, 0x35, 0x36, 0x37, 0x38, 0x39]

  lemma OneStep8(crc: bv8, data: seq<bv8>)
    requires data != []
    ensures Crc8From(crc, data) == Crc8From(Crc8Step(crc, data[0]), data[1..])
  {
  }

  lemma Steps8()
    ensures Crc8Step(0x00, 0x31) == 0x97 && Crc8Step(0x97, 0x32) == 0x72 && Crc8Step(0x72, 0x33) == 0xC0
    ensures Crc8Step(0xC0, 0x34) == 0xC2 && Crc8Step(0xC2, 0x35) == 0xCB && Crc8Step(0xCB, 0x36) == 0xFD
    ensures Crc8Step(0xFD, 0x37) == 0x78 && Crc8Step(0x78, 0x38) == 0xC7 && Crc8Step(0xC7, 0x39) == 0xF4
  {
  }

  /** The 8-bit checksum is the one with check value F4: polynomial 07, no reflection, from 0. */
  lemma CheckValue8()
    ensures Crc8From(0, DIGITS) == 0xF4
  {
    hide Crc8Step, Crc8From;
    Steps8();
    OneStep8(0x00, DIGITS);
    assert DIGITS[1..][1..] == DIGITS[2..];
    OneStep8(0x97, DIGITS[1..]);
    assert DIGITS[2..][1..] == DIGITS[3..];
    OneStep8(0x72, DIGITS[2..]);
    assert DIGITS[3..][1..] == DIGITS[4..];
    OneStep8(0xC0, DIGITS[3..]);
    assert DIGITS[4..][1..] == DIGITS[5..];
    OneStep8(0xC2, DIGITS[4..]);
    assert DIGITS[5..][1..] == DIGITS[6..];
    OneStep8(0xCB, DIGITS[5..]);
    assert DIGITS[6..][1..] == DIGITS[7..];
    OneStep8(0xFD, DIGITS[6..]);
    assert DIGITS[7..][1..] == DIGITS[8..];
    OneStep8(0x78, DIGITS[7..]);
    OneStep8(0xC7, DIGITS[8..]);
    Crc8None(0xF4, DIGITS[8..][1..]);
  }

  lemma Crc8None(crc: bv8, data: seq<bv8>)
    requires |data| == 0
    ensures Crc8From(crc, data) == crc
  {
  }

  lemma OneStep16(crc: bv16, data: seq<bv8>)
    requires data != []
    ensures Crc16From(crc, data) == Crc16From(Crc16Step(crc, data[0]), data[1..])
  {
  }

  lemma ShiftsOf16(crc: bv16)
    ensures Shift16Times(crc, 8) ==
            Shift16(Shift16(Shift16(Shift16(Shift16(Shift16(Shift16(Shift16(crc))))))))
  {
    hide Shift16;
    assert Shift16Times(crc, 1) == Shift16(Shift16Times(crc, 0));
    assert Shift16Times(crc, 2) == Shift16(Shift16Times(crc, 1));
    assert Shift16Times(crc, 3) == Shift16(Shift16Times(crc, 2));
    assert Shift16Times(crc, 4) == Shift16(Shift16Times(crc, 3));
    assert Shift16Times(crc, 5) == Shift16(Shift16Times(crc, 4));
    assert Shift16Times(crc, 6) == Shift16(Shift16Times(crc, 5));
    assert Shift16Times(crc, 7) == Shift16(Shift16Times(crc, 6));
  }

  lemma Steps16()
    ensures Crc16Step(0xFFFF, 0x31) == 0x947E && Crc16Step(0x947E, 0x32) == 0xF595 && Crc16Step(0xF595, 0x33) == 0x7A75
    ensures Crc16Step(0x7A75, 0x34) == 0x30BA && Crc16Step(0x30BA, 0x35) == 0xA471 && Crc16Step(0xA471, 0x36) == 0x32E4
    ensures Crc16Step(0x32E4, 0x37) == 0x9D73 && Crc16Step(0x9D73, 0x38) == 0x37DD && Crc16Step(0x37DD, 0x39) == 0x4B37
  {
    ShiftsOf16(0xFFCE);
    ShiftsOf16(0x944C);
    ShiftsOf16(0xF5A6);
    ShiftsOf16(0x7A41);
    ShiftsOf16(0x308F);
    ShiftsOf16(0xA447);
    ShiftsOf16(0x32D3);
    ShiftsOf16(0x9D4B);
    ShiftsOf16(0x37E4);
  }

  /** The 16-bit checksum is the one with check value 4B37: polynomial 8005 reflected, from
      FFFF. */
  lemma CheckValue16()
    ensures Crc16(DIGITS) == 0x4B37
  {
    hide Crc16Step, Crc16From;
    Steps16();
    OneStep16(0xFFFF, DIGITS);
    assert DIGITS[1..][1..] == DIGITS[2..];
    OneStep16(0x947E, DIGITS[1..]);
    assert DIGITS[2..][1..] == DIGITS[3..];
    OneStep16(0xF595, DIGITS[2..]);
    assert DIGITS[3..][1..] == DIGITS[4..];
    OneStep16(0x7A75, DIGITS[3..]);
    assert DIGITS[4..][1..] == DIGITS[5..];
    OneStep16(0x30BA, DIGITS[4..]);
    assert DIGITS[5..][1..] == DIGITS[6..];
    OneStep16(0xA471, DIGITS[5..]);
    assert DIGITS[6..][1..] == DIGITS[7..];
    OneStep16(0x32E4, DIGITS[6..]);
    assert DIGITS[7..][1..] == DIGITS[8..];
    OneStep16(0x9D73, DIGITS[7..]);
    OneStep16(0x37DD, DIGITS[8..]);
    Crc16None(0x4B37, DIGITS[8..][1..]);
  }

  lemma Crc16None(crc: bv16, data: seq<bv8>)
    requires |data| == 0
    ensures Crc16From(crc, data) == crc
  {
  }
}
