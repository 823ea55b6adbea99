/** The shape of an event text, and the summary line that stands for a folded
    cycle of events with one shape. */
module Shapes {
  /** Characters an event's text field can hold: 56 bytes with the terminator. */
  const TEXT_MAX: nat := 55

  const CRC_TAIL := " crc=*"

  predicate HexDigit(c: char) {
    '0' <= c <= '9' || 'A' <= c <= 'F'
  }

  predicate NoHex(s: string) {
    forall i :: 0 <= i < |s| ==> !HexDigit(s[i])
  }

  function Clip(s: string): string {
    if |s| <= TEXT_MAX then s else s[..TEXT_MAX]
  }

  /** Every run of hex digits becomes one placeholder. */
  function Collapse(text: string, inDigits: bool): string {
    if text == [] then []
    else if HexDigit(text[0]) then (if inDigits then [] else "*") + Collapse(text[1..], true)
    else [text[0]] + Collapse(text[1..], false)
  }

  function ShapeOf(text: string): string {
    Clip(Collapse(text, false))
  }

  predicate EndsWithCrc(shape: string) {
    |shape| > |CRC_TAIL| && shape[|shape| - |CRC_TAIL|..] == CRC_TAIL
  }

  /** A shape without the checksum an earlier summary left at its end. */
  function Strip(shape: string): string {
    if EndsWithCrc(shape) then shape[..|shape| - |CRC_TAIL|] else shape
  }

  /** The shape under which an event is counted. */
  function Norm(text: string): string {
    Strip(ShapeOf(text))
  }

  function HexChar(n: nat): (c: char)
    requires n < 16
    ensures HexDigit(c)
  {
    "0123456789ABCDEF"[n]
  }

  function Hex2(b: bv8): (s: string)
    ensures |s| == 2 && HexDigit(s[0]) && HexDigit(s[1])
  {
    [HexChar((b as int) / 16), HexChar((b as int) % 16)]
  }

  function CharByte(c: char): bv8 {
    ((c as int) % 256) as bv8
  }

  function TextBytes(text: string): (bytes: seq<bv8>)
    ensures |bytes| == |text|
  {
    seq(|text|, i requires 0 <= i < |text| => CharByte(text[i]))
  }

  /** The text a shape fold leaves in the first copy. */
  function Summary(text: string, crc: bv8): string {
    Clip(Norm(text) + " crc=" + Hex2(crc))
  }

  // --- Collapsing ----------------------------------------------------------

  lemma {:induction false} CollapseIsShort(text: string, inDigits: bool)
    ensures |Collapse(text, inDigits)| <= |text|
    ensures NoHex(Collapse(text, inDigits))
  {
    if text != [] {
      CollapseIsShort(text[1..], HexDigit(text[0]));
    }
  }

  /** A shape in front of any text is kept as it stands. */
  lemma {:induction false} CollapsePrefix(s: string, u: string, inDigits: bool)
    requires NoHex(s)
    ensures Collapse(s + u, inDigits) == s + Collapse(u, if s == [] then inDigits else false)
  {
    if s == [] {
      assert s + u == u;
    } else {
      CollapsePrefix(s[1..], u, false);
      assert (s + u)[1..] == s[1..] + u;
      assert Collapse(s + u, inDigits) == [s[0]] + Collapse(s[1..] + u, false);
    }
  }

  lemma {:induction false} ShapeIsAShape(text: string)
    ensures NoHex(ShapeOf(text)) && |ShapeOf(text)| <= TEXT_MAX
    ensures |text| <= TEXT_MAX ==> ShapeOf(text) == Collapse(text, false)
  {
    CollapseIsShort(text, false);
  }

  lemma CollapseCrc(d: string)
    requires |d| <= 2 && forall i :: 0 <= i < |d| ==> HexDigit(d[i])
    ensures Collapse(" crc=" + d, false) == if d == [] then " crc=" else CRC_TAIL
  {
    CrcIsNoHex();
    CollapseDigits(d);
    hide Collapse, NoHex, HexDigit;
    CollapsePrefix(" crc=", d, false);
  }

  lemma CrcIsNoHex()
    ensures NoHex(" crc=")
  {
  }

  lemma CollapseDigits(d: string)
    requires |d| <= 2 && forall i :: 0 <= i < |d| ==> HexDigit(d[i])
    ensures Collapse(d, false) == if d == [] then [] else "*"
  {
    if d != [] {
      CollapseOne(d, false);
      if |d| == 2 {
        CollapseOne(d[1..], true);
        assert d[1..][1..] == [];
      }
    }
  }

  /** One digit in front. */
  lemma CollapseOne(text: string, inDigits: bool)
    requires text != [] && HexDigit(text[0])
    ensures Collapse(text, inDigits) == (if inDigits then [] else "*") + Collapse(text[1..], true)
  {
  }

  /** The lengths at which a summary line is counted under its own shape. */
  predicate Countable(shape: string) {
    1 <= |shape| <= 49 || |shape| == TEXT_MAX
  }

  lemma NormIsAShape(text: string)
    ensures NoHex(Norm(text)) && |Norm(text)| <= TEXT_MAX
    ensures |Norm(text)| == TEXT_MAX ==> !EndsWithCrc(Norm(text))
  {
    ShapeIsAShape(text);
  }

  /** The shape of a summary line whose checksum, or its first digit, fits. */
  lemma SummaryShape(text: string, crc: bv8)
    requires |Norm(text)| <= 49
    ensures ShapeOf(Summary(text, crc)) == Norm(text) + CRC_TAIL
  {
    var s := Norm(text);
    NormIsAShape(text);
    var d := if |s| <= 48 then Hex2(crc) else Hex2(crc)[..1];
    assert Summary(text, crc) == s + (" crc=" + d);
    ShapeIsAShape(Summary(text, crc));
    CollapsePrefix(s, " crc=" + d, false);
    CollapseCrc(d);
  }

  /** The shape of a summary line cut before its checksum. */
  lemma SummaryShapeCut(text: string, crc: bv8)
    requires |Norm(text)| >= 50
    ensures |Norm(text)| <= TEXT_MAX
    ensures ShapeOf(Summary(text, crc)) == Norm(text) + " crc="[..TEXT_MAX - |Norm(text)|]
  {
    var s := Norm(text);
    NormIsAShape(text);
    var part := " crc="[..TEXT_MAX - |s|];
    assert Summary(text, crc) == s + part;
    ShapeIsAShape(Summary(text, crc));
    CollapsePrefix(s + part, "", false);
    assert s + part + "" == s + part;
  }

  /** A summary is counted under the shape it stands for exactly when that shape
      leaves room for the checksum field to be recognised again. */
  lemma SummaryKeepsNorm(text: string, crc: bv8)
    ensures Norm(Summary(text, crc)) == Norm(text) <==> Countable(Norm(text))
  {
    var s := Norm(text);
    NormIsAShape(text);
    var shape := ShapeOf(Summary(text, crc));
    if |s| <= 49 {
      SummaryShape(text, crc);
      assert shape[|shape| - |CRC_TAIL|..] == CRC_TAIL;
      assert shape[..|shape| - |CRC_TAIL|] == s;
    } else if |s| < TEXT_MAX {
      SummaryShapeCut(text, crc);
      assert shape[|shape| - 1] != '*';
      assert CRC_TAIL[5] == '*';
      assert !EndsWithCrc(shape);
      assert |shape| == TEXT_MAX;
    } else {
      SummaryShapeCut(text, crc);
      assert shape == s;
    }
  }

  // --- The loop that computes a shape --------------------------------------

  /** One turn of the loop below. */
  lemma CollapseTurn(text: string, i: nat, inDigits: bool)
    requires i < |text|
    ensures Collapse(text[i..], inDigits) ==
            if HexDigit(text[i]) then (if inDigits then [] else "*") + Collapse(text[i + 1..], true)
            else [text[i]] + Collapse(text[i + 1..], false)
  {
    assert text[i..][1..] == text[i + 1..];
  }

  lemma CutHere(out: string, rest: string)
    ensures |out| == TEXT_MAX || (|out| <= TEXT_MAX && rest == []) ==> Clip(out + rest) == out
  {
  }

  method ShapeText(text: string, cap: nat) returns (out: string)
    requires cap == TEXT_MAX + 1
    ensures out == ShapeOf(text)
  {
    hide Collapse, HexDigit, Clip;
    out := [];
    var inDigits := false;
    var i := 0;
    assert text[0..] == text;
    while i < |text| && |out| + 1 < cap
      invariant 0 <= i <= |text| && |out| <= TEXT_MAX
      invariant Collapse(text, false) == out + Collapse(text[i..], inDigits)
    {
      var c := text[i];
      CollapseTurn(text, i, inDigits);
      if HexDigit(c) {
        if !inDigits {
          out := out + ['*'];
        }
        inDigits := true;
      } else {
        inDigits := false;
        out := out + [c];
      }
      i := i + 1;
    }
    CollapseNothing(inDigits);
    assert i == |text| ==> text[i..] == [];
    CutHere(out, Collapse(text[i..], inDigits));
  }

  lemma CollapseNothing(inDigits: bool)
    ensures Collapse([], inDigits) == []
  {
  }
}
