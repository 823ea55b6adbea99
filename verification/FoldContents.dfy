/** What a folded line says: the counts and times of its copies, and, where the copies
    only share a shape, a checksum over the texts of all of them. */
module FoldContents {
  import opened Checksum
  import opened Shapes
  import opened FoldSearch
  import opened Recorder

  /** A cycle of whole copies in a buffer of n lines. */
  predicate Whole(c: Cycle, n: nat) {
    Fits(c, n) && c.span == c.width * c.copies
  }

  /** These are the copies of line k of a cycle. */
  ghost predicate AreCopies(evs: seq<Event>, c: Cycle, k: nat, copies: seq<Event>) {
    && |copies| == c.copies
    && forall j :: 0 <= j < c.copies ==>
       c.start + k + c.width * j < |evs| && copies[j] == evs[c.start + k + c.width * j]
  }

  function Joined(copies: seq<Event>): string {
    if copies == [] then [] else copies[0].text + Joined(copies[1..])
  }

  function Sum(copies: seq<Event>): nat {
    if copies == [] then 0 else copies[0].repeats + Sum(copies[1..])
  }

  function Digit(c: char): (n: nat)
    requires HexDigit(c)
    ensures n < 16
  {
    if '0' <= c <= '9' then c as int - '0' as int else c as int - 'A' as int + 10
  }

  /** A shape and a checksum as a summary line writes them: both digits where they fit, the
      first where only one does. */
  predicate Summarises(t: string, shape: string, crc: bv8) {
    if |shape| <= 48 then
      && |t| == |shape| + 7 && t[..|shape| + 5] == shape + " crc="
      && HexDigit(t[|shape| + 5]) && HexDigit(t[|shape| + 6])
      && 16 * Digit(t[|shape| + 5]) + Digit(t[|shape| + 6]) == crc as int
    else if |shape| == 49 then
      |t| == TEXT_MAX && t[..54] == shape + " crc=" && HexDigit(t[54]) && Digit(t[54]) == crc as int / 16
    else
      t == Clip(shape + " crc=")
  }

  lemma HexCharDigit(n: nat)
    requires n < 16
    ensures HexDigit(HexChar(n)) && Digit(HexChar(n)) == n
  {
  }

  lemma SummaryIs(text: string, crc: bv8)
    ensures Summarises(Summary(text, crc), Norm(text), crc)
  {
    var s := Norm(text);
    HexCharDigit((crc as int) / 16);
    HexCharDigit((crc as int) % 16);
    hide Norm, Digit, HexChar, HexDigit;
    var all := s + " crc=" + Hex2(crc);
    assert all == (s + " crc=") + [HexChar((crc as int) / 16), HexChar((crc as int) % 16)];
    if |s| <= 48 {
      assert Summary(text, crc) == all && all[..|s| + 5] == s + " crc=";
    } else if |s| == 49 {
      assert Summary(text, crc) == all[..55] && all[..55][..54] == s + " crc=";
    } else {
      assert all[..55] == (s + " crc=")[..55];
    }
  }

  // --- The loops over the copies -------------------------------------------

  /** What the loops take, from a position on. */
  ghost predicate Strided(evs: seq<Event>, pos: nat, width: nat, end: nat, copies: seq<Event>)
    requires width > 0
    decreases |copies|
  {
    if copies == [] then pos >= end
    else pos < end <= |evs| && copies[0] == evs[pos] && Strided(evs, pos + width, width, end, copies[1..])
  }

  lemma {:induction false} CopiesStrided(evs: seq<Event>, pos: nat, width: nat, end: nat, copies: seq<Event>)
    requires width > 0 && end <= |evs|
    requires pos + width * |copies| >= end && (copies != [] ==> pos + width * (|copies| - 1) < end)
    requires forall j :: 0 <= j < |copies| ==> pos + width * j < |evs| && copies[j] == evs[pos + width * j]
    ensures Strided(evs, pos, width, end, copies)
    decreases |copies|
  {
    if copies != [] {
      var n := |copies|;
      assert pos + width * 0 == pos;
      Forward(width, n - 1);
      assert width * n == width * (n - 1) + width;
      forall j | 0 <= j < n - 1
        ensures pos + width + width * j < |evs| && copies[1..][j] == evs[pos + width + width * j]
      {
        assert width * (j + 1) == width * j + width;
        assert copies[1..][j] == copies[j + 1];
      }
      if n > 1 {
        assert width * (n - 1) == width * (n - 2) + width;
      }
      CopiesStrided(evs, pos + width, width, end, copies[1..]);
    }
  }

  lemma Forward(width: nat, n: nat)
    ensures width * n >= 0
  {
  }

  lemma SomeCopies(width: nat, n: nat)
    requires width * n > 0
    ensures n > 0
  {
  }

  lemma CycleStrided(evs: seq<Event>, c: Cycle, k: nat, copies: seq<Event>)
    requires Whole(c, |evs|) && k < c.width && AreCopies(evs, c, k, copies)
    ensures copies != [] && copies[0] == evs[c.start + k]
    ensures Strided(evs, c.start + k, c.width, c.start + c.span, copies)
  {
    var n := c.copies;
    SomeCopies(c.width, n);
    assert c.width * n == c.width * (n - 1) + c.width;
    assert c.width * 0 == 0;
    forall j | 0 <= j < n
      ensures c.start + k + c.width * j < |evs| && copies[j] == evs[c.start + k + c.width * j]
    {
    }
    CopiesStrided(evs, c.start + k, c.width, c.start + c.span, copies);
  }

  lemma {:induction false} TotalIsSum(evs: seq<Event>, pos: nat, width: nat, end: nat, copies: seq<Event>)
    requires width > 0 && end <= |evs| && Strided(evs, pos, width, end, copies)
    ensures Total(evs, pos, width, end) == Sum(copies)
    decreases |copies|
  {
    if copies != [] {
      TotalIsSum(evs, pos + width, width, end, copies[1..]);
    }
  }

  lemma TextBytesAppend(a: string, b: string)
    ensures TextBytes(a + b) == TextBytes(a) + TextBytes(b)
  {
  }

  lemma {:induction false} CrcIsOfJoined(evs: seq<Event>, pos: nat, width: nat, end: nat, copies: seq<Event>, crc: bv8)
    requires width > 0 && end <= |evs| && Strided(evs, pos, width, end, copies)
    ensures CopiesCrc(evs, pos, width, end, crc) == Crc8From(crc, TextBytes(Joined(copies)))
    decreases |copies|
  {
    hide Crc8Step;
    if copies != [] {
      var bytes := TextBytes(copies[0].text);
      hide Crc8From;
      CrcIsOfJoined(evs, pos + width, width, end, copies[1..], Crc8From(crc, bytes));
      TextBytesAppend(copies[0].text, Joined(copies[1..]));
      Crc8Append(crc, bytes, TextBytes(Joined(copies[1..])));
    } else {
      assert TextBytes(Joined(copies)) == [];
    }
  }

  // --- A folded line -------------------------------------------------------

  /** The line that stands for the copies of one line: the first copy's number, first time,
      context, origin and link, their repeats in all, and the first time of the last line
      folded. An exact fold keeps its text; a shape fold writes its shape and the checksum
      over the texts of all the copies, in order. */
  lemma FoldedLine(evs: seq<Event>, c: Cycle, shape: bool, k: nat, copies: seq<Event>)
    requires Whole(c, |evs|) && k < c.width && AreCopies(evs, c, k, copies)
    ensures |Folded(evs, c, shape)| == |evs| - c.span + c.width && copies != []
    ensures var line, first := Folded(evs, c, shape)[c.start + k], copies[0];
            && line.seqNo == first.seqNo && line.timeUs == first.timeUs && line.ctx == first.ctx
            && line.origin == first.origin && line.link == first.link
            && line.repeats == Sum(copies) && line.lastTimeUs == evs[c.start + c.span - 1].timeUs
            && (!shape ==> line.text == first.text)
            && (shape ==> Summarises(line.text, Norm(first.text), Crc8From(0, TextBytes(Joined(copies)))))
  {
    hide Summarises, Norm, Crc8From, Summary;
    CycleStrided(evs, c, k, copies);
    TotalIsSum(evs, c.start + k, c.width, c.start + c.span, copies);
    CrcIsOfJoined(evs, c.start + k, c.width, c.start + c.span, copies, 0);
    FoldedAt(evs, c, shape, c.start + k);
    SummaryIs(copies[0].text, Crc8From(0, TextBytes(Joined(copies))));
    hide Strided, Folded;
  }

  /** The lines before a fold and after it are as they were. */
  lemma UnfoldedLine(evs: seq<Event>, c: Cycle, shape: bool, i: nat)
    requires Whole(c, |evs|) && (i < c.start || c.start + c.span <= i < |evs|)
    ensures |Folded(evs, c, shape)| == |evs| - c.span + c.width
    ensures Folded(evs, c, shape)[if i < c.start then i else i - c.span + c.width] == evs[i]
  {
    FoldedAt(evs, c, shape, if i < c.start then i else i - c.span + c.width);
  }

  // --- A changed value is seen ---------------------------------------------

  lemma {:induction false} JoinedSplit(copies: seq<Event>, j: nat)
    requires j < |copies|
    ensures Joined(copies) == Joined(copies[..j]) + copies[j].text + Joined(copies[j + 1..])
  {
    if j > 0 {
      JoinedSplit(copies[1..], j - 1);
      assert copies[1..][..j - 1] == copies[..j][1..];
      assert copies[1..][j..] == copies[j + 1..];
    }
  }

  /** One character of one copy replaced. */
  ghost predicate OneCharacter(a: seq<Event>, b: seq<Event>, j: nat, m: nat) {
    && |a| == |b| && j < |a| && |a[j].text| == |b[j].text| && m < |a[j].text|
    && CharByte(a[j].text[m]) != CharByte(b[j].text[m])
    && (forall i :: 0 <= i < |a[j].text| && i != m ==> a[j].text[i] == b[j].text[i])
    && forall i :: 0 <= i < |a| && i != j ==> a[i] == b[i]
  }

  lemma AroundCharacter(copies: seq<Event>, j: nat, m: nat)
    requires j < |copies| && m < |copies[j].text|
    ensures var t := copies[j].text;
            TextBytes(Joined(copies)) ==
            TextBytes(Joined(copies[..j]) + t[..m]) + [CharByte(t[m])] + TextBytes(t[m + 1..] + Joined(copies[j + 1..]))
  {
    var t := copies[j].text;
    JoinedSplit(copies, j);
    var front, rest := Joined(copies[..j]) + t[..m], t[m + 1..] + Joined(copies[j + 1..]);
    hide Joined;
    assert t == t[..m] + [t[m]] + t[m + 1..];
    assert Joined(copies) == front + [t[m]] + rest;
    TextBytesAppend(front + [t[m]], rest);
    TextBytesAppend(front, [t[m]]);
    assert TextBytes([t[m]]) == [CharByte(t[m])];
  }

  lemma CharacterChangesCrc(a: seq<Event>, b: seq<Event>, j: nat, m: nat)
    requires OneCharacter(a, b, j, m)
    ensures Crc8From(0, TextBytes(Joined(a))) != Crc8From(0, TextBytes(Joined(b)))
  {
    assert a[..j] == b[..j] && a[j + 1..] == b[j + 1..];
    assert a[j].text[..m] == b[j].text[..m] && a[j].text[m + 1..] == b[j].text[m + 1..];
    AroundCharacter(a, j, m);
    AroundCharacter(b, j, m);
    hide Joined, Crc8From, TextBytes, CharByte;
    OneByteIsSeen8(0, TextBytes(Joined(a[..j]) + a[j].text[..m]), CharByte(a[j].text[m]), CharByte(b[j].text[m]),
                   TextBytes(a[j].text[m + 1..] + Joined(a[j + 1..])));
  }

  lemma SummariesDiffer(t: string, shape: string, crc: bv8, t2: string, shape2: string, crc2: bv8)
    requires Summarises(t, shape, crc) && Summarises(t2, shape2, crc2) && crc != crc2
    requires |shape| <= 48 && |shape2| <= 48
    ensures t != t2
  {
    hide HexDigit, Digit;
    assert crc as int != crc2 as int;
  }

  /** What is not written out is still covered: two buffers that differ in one character of
      one copy leave different summary lines, wherever both digits fit. */
  lemma ChangedCopyIsSeen(a: seq<Event>, b: seq<Event>, c: Cycle, k: nat, ca: seq<Event>, cb: seq<Event>, j: nat,
                          m: nat)
    requires Whole(c, |a|) && |a| == |b| && k < c.width && AreCopies(a, c, k, ca) && AreCopies(b, c, k, cb)
    requires OneCharacter(ca, cb, j, m) && ca != [] && cb != []
    requires |Norm(ca[0].text)| <= 48 && |Norm(cb[0].text)| <= 48
    ensures c.start + k < |Folded(a, c, true)| && c.start + k < |Folded(b, c, true)|
    ensures Folded(a, c, true)[c.start + k].text != Folded(b, c, true)[c.start + k].text
  {
    hide Head, Summarises, Norm, Joined, Crc8From, TextBytes, AreCopies, OneCharacter;
    FoldedLine(a, c, true, k, ca);
    FoldedLine(b, c, true, k, cb);
    CharacterChangesCrc(ca, cb, j, m);
    SummariesDiffer(Folded(a, c, true)[c.start + k].text, Norm(ca[0].text), Crc8From(0, TextBytes(Joined(ca))),
                    Folded(b, c, true)[c.start + k].text, Norm(cb[0].text), Crc8From(0, TextBytes(Joined(cb))));
  }

  /** The shape tier folds such cycles and no others. */
  lemma ShapeFoldsAreWhole(evs: seq<Event>)
    requires PlanOf(evs).Fold?
    ensures Whole(PlanOf(evs).cycle, |evs|) && PlanOf(evs).cycle.copies >= 2
  {
    PlanIsACycle(evs);
  }
}
