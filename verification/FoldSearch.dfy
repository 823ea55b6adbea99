/** The search both fold tiers run: find a block of lines that repeats at once,
    and see how many copies of it follow. `keys` is what is compared: the texts
    for the exact tier, their shapes for the other. */
module FoldSearch {

  const MAX_WIDTH: nat := 8

  /** `copies` copies of the `width` lines at `start`, `span` lines in all. */
  datatype Cycle = Cycle(start: nat, width: nat, copies: nat, span: nat) {
    function Removed(): int { span - width }
  }

  datatype Found = Nothing | Best(cycle: Cycle)

  predicate SameLines(keys: seq<string>, a: nat, b: nat, width: nat)
    requires a + width <= |keys| && b + width <= |keys|
  {
    forall k :: a <= k < a + width ==> keys[k] == keys[k + (b - a)]
  }

  /** Where the copies of the block at `start` end, given that they run to `end`. */
  function CopiesEnd(keys: seq<string>, start: nat, width: nat, end: nat): (e: nat)
    requires width > 0 && start + width <= |keys| && end <= |keys|
    ensures end <= e <= |keys|
    decreases |keys| - end
  {
    if end + width <= |keys| && SameLines(keys, start, end, width)
    then CopiesEnd(keys, start, width, end + width)
    else end
  }

  /** How many whole blocks lie in `span` lines. */
  function Blocks(span: nat, width: nat): nat
    requires width > 0
    decreases span
  {
    if span < width then 0 else 1 + Blocks(span - width, width)
  }

  predicate Repeats(keys: seq<string>, start: nat, width: nat) {
    && 1 <= width <= MAX_WIDTH
    && start + 2 * width <= |keys|
    && SameLines(keys, start, start + width, width)
  }

  /** The cycle at a place where a block repeats, with every copy that follows. */
  function CycleAt(keys: seq<string>, start: nat, width: nat): (c: Cycle)
    requires Repeats(keys, start, width)
  {
    var end := CopiesEnd(keys, start, width, start + 2 * width);
    Cycle(start, width, Blocks(end - start, width), end - start)
  }

  // --- The candidates, in the order both tiers meet them -------------------

  /** Every cycle from (width, start) on, narrow blocks before wide ones. */
  function ScanFrom(keys: seq<string>, width: nat, start: nat): seq<Cycle>
    requires width >= 1
    decreases MAX_WIDTH + 1 - width, |keys| + 1 - start
  {
    if width > MAX_WIDTH then []
    else if start + 2 * width > |keys| then ScanFrom(keys, width + 1, 0)
    else if Repeats(keys, start, width)
    then [CycleAt(keys, start, width)] + ScanFrom(keys, width, start + 1)
    else ScanFrom(keys, width, start + 1)
  }

  function Better(best: Found, c: Cycle): Found {
    if best.Nothing? || c.Removed() > best.cycle.Removed() then Best(c) else best
  }

  function Pick(cs: seq<Cycle>, best: Found): Found {
    if cs == [] then best else Pick(cs[1..], Better(best, cs[0]))
  }

  /** The exact tier takes the first candidate. */
  function First(keys: seq<string>): Found {
    var cs := ScanFrom(keys, 1, 0);
    if cs == [] then Nothing else Best(cs[0])
  }

  /** The shape tier takes the first of those that free the most slots. */
  function Largest(keys: seq<string>): Found {
    Pick(ScanFrom(keys, 1, 0), Nothing)
  }

  // --- What a cycle is -----------------------------------------------------

  /** Whole copies, each line equal to the line one copy earlier, and no further
      copy after the last one. */
  ghost predicate IsCycle(keys: seq<string>, c: Cycle) {
    && 1 <= c.width <= MAX_WIDTH && c.copies >= 2
    && c.span == c.width * c.copies && c.span >= 2 * c.width
    && c.start + c.span <= |keys|
    && Periodic(keys, c.start, c.width, c.start + c.span)
    && !(c.start + c.span + c.width <= |keys| && SameLines(keys, c.start, c.start + c.span, c.width))
  }

  predicate WholeBlocks(span: nat, width: nat)
    requires width > 0
    decreases span
  {
    span == 0 || (span >= width && WholeBlocks(span - width, width))
  }

  lemma {:induction false} BlocksCount(span: nat, width: nat)
    requires width > 0 && WholeBlocks(span, width)
    ensures span == width * Blocks(span, width)
    decreases span
  {
    if span > 0 {
      BlocksCount(span - width, width);
    }
  }

  /** Each line equal to the line one copy earlier. */
  ghost predicate Periodic(keys: seq<string>, start: nat, width: nat, end: nat)
    requires end <= |keys|
  {
    forall k :: start <= k < end - width ==> keys[k] == keys[k + width]
  }

  lemma {:induction false} LastBlockIsFirst(keys: seq<string>, start: nat, width: nat, end: nat)
    requires width > 0 && start + width <= end <= |keys|
    requires WholeBlocks(end - start, width) && Periodic(keys, start, width, end)
    ensures SameLines(keys, start, end - width, width)
    decreases end
  {
    if end - start > width {
      LastBlockIsFirst(keys, start, width, end - width);
      forall k | start <= k < start + width ensures keys[k] == keys[k + (end - width - start)] {
        var m := k + (end - 2 * width - start);
        assert keys[m] == keys[m + width];
      }
    }
  }

  lemma {:induction false} CopiesEndSpec(keys: seq<string>, start: nat, width: nat, end: nat)
    requires width > 0 && start + width <= end <= |keys|
    requires WholeBlocks(end - start, width) && Periodic(keys, start, width, end)
    ensures var e := CopiesEnd(keys, start, width, end);
            && WholeBlocks(e - start, width) && Periodic(keys, start, width, e)
            && !(e + width <= |keys| && SameLines(keys, start, e, width))
    decreases |keys| - end
  {
    if end + width <= |keys| && SameLines(keys, start, end, width) {
      LastBlockIsFirst(keys, start, width, end);
      forall k | start <= k < end ensures keys[k] == keys[k + width] {
        if k >= end - width {
          var m := k - (end - width) + start;
          assert keys[m] == keys[m + (end - width - start)];
          assert keys[m] == keys[m + (end - start)];
        }
      }
      CopiesEndSpec(keys, start, width, end + width);
    }
  }

  /** What `CycleAt` returns is a cycle, and it holds every copy there is. */
  lemma CycleAtIsCycle(keys: seq<string>, start: nat, width: nat)
    requires Repeats(keys, start, width)
    ensures IsCycle(keys, CycleAt(keys, start, width))
    ensures CycleAt(keys, start, width).Removed() >= width
  {
    assert WholeBlocks(width, width);
    CopiesEndSpec(keys, start, width, start + 2 * width);
    var c := CycleAt(keys, start, width);
    BlocksCount(c.span, width);
  }

  /** (w, s) is scanned before (w2, s2). */
  predicate Before(w: nat, s: nat, w2: nat, s2: nat) {
    w < w2 || (w == w2 && s < s2)
  }

  ghost predicate Candidate(keys: seq<string>, c: Cycle) {
    Repeats(keys, c.start, c.width) && c == CycleAt(keys, c.start, c.width)
  }

  lemma {:induction false} ScanHolds(keys: seq<string>, width: nat, start: nat, c: Cycle)
    requires width >= 1 && Candidate(keys, c) && !Before(c.width, c.start, width, start)
    ensures c in ScanFrom(keys, width, start)
    decreases MAX_WIDTH + 1 - width, |keys| + 1 - start
  {
    if start + 2 * width > |keys| {
      ScanHolds(keys, width + 1, 0, c);
    } else if c.width == width && c.start == start {
      assert ScanFrom(keys, width, start)[0] == c;
    } else {
      ScanHolds(keys, width, start + 1, c);
    }
  }

  lemma {:induction false} ScanOrder(keys: seq<string>, width: nat, start: nat)
    requires width >= 1
    ensures var cs := ScanFrom(keys, width, start);
            && (forall c :: c in cs ==> Candidate(keys, c) && !Before(c.width, c.start, width, start))
            && (cs != [] ==> forall c :: c in cs ==> !Before(c.width, c.start, cs[0].width, cs[0].start))
    decreases MAX_WIDTH + 1 - width, |keys| + 1 - start
  {
    if width > MAX_WIDTH {
    } else if start + 2 * width > |keys| {
      ScanOrder(keys, width + 1, 0);
    } else {
      ScanOrder(keys, width, start + 1);
    }
  }

  lemma {:induction false} PickIsLargest(cs: seq<Cycle>, best: Found)
    ensures var r := Pick(cs, best);
            && (r.Nothing? <==> best.Nothing? && cs == [])
            && (r.Best? ==> r == best || r.cycle in cs)
            && (best.Best? ==> r.cycle.Removed() >= best.cycle.Removed())
            && forall c :: c in cs ==> r.cycle.Removed() >= c.Removed()
    decreases |cs|
  {
    if cs != [] {
      PickIsLargest(cs[1..], Better(best, cs[0]));
    }
  }

  /** The exact tier fails exactly when no block of one to eight lines repeats at
      once; otherwise it takes the narrowest, then leftmost block, with all of its
      copies. */
  lemma FirstIsNarrowestLeftmost(keys: seq<string>)
    ensures First(keys).Nothing? <==> forall w, s :: !Repeats(keys, s, w)
    ensures First(keys).Best? ==>
              var c := First(keys).cycle;
              && IsCycle(keys, c)
              && Repeats(keys, c.start, c.width)
              && forall w, s :: Repeats(keys, s, w) ==> !Before(w, s, c.width, c.start)
  {
    ScanOrder(keys, 1, 0);
    forall w, s | Repeats(keys, s, w) ensures CycleAt(keys, s, w) in ScanFrom(keys, 1, 0) {
      ScanHolds(keys, 1, 0, CycleAt(keys, s, w));
    }
    if First(keys).Best? {
      CycleAtIsCycle(keys, First(keys).cycle.start, First(keys).cycle.width);
    }
  }

  /** The shape tier fails exactly when no block repeats at once; otherwise what it
      takes frees at least as many slots as any other candidate would. */
  lemma LargestFreesTheMost(keys: seq<string>)
    ensures Largest(keys).Nothing? <==> forall w, s :: !Repeats(keys, s, w)
    ensures Largest(keys).Best? ==>
              var c := Largest(keys).cycle;
              && IsCycle(keys, c)
              && forall w, s :: Repeats(keys, s, w) ==> CycleAt(keys, s, w).Removed() <= c.Removed()
  {
    var cs := ScanFrom(keys, 1, 0);
    ScanOrder(keys, 1, 0);
    PickIsLargest(cs, Nothing);
    forall w, s | Repeats(keys, s, w) ensures CycleAt(keys, s, w) in cs {
      ScanHolds(keys, 1, 0, CycleAt(keys, s, w));
    }
    if Largest(keys).Best? {
      CycleAtIsCycle(keys, Largest(keys).cycle.start, Largest(keys).cycle.width);
    }
  }

  // --- The loops -----------------------------------------------------------

  method LinesMatch(keys: seq<string>, a: nat, b: nat, width: nat) returns (same: bool)
    requires a <= b && b + width <= |keys|
    ensures same == SameLines(keys, a, b, width)
  {
    same := true;
    var k := 0;
    while k < width && same
      invariant 0 <= k <= width
      invariant same ==> forall i :: a <= i < a + k ==> keys[i] == keys[i + (b - a)]
      invariant !same ==> !SameLines(keys, a, b, width)
      decreases width - k, same
    {
      if keys[a + k] != keys[b + k] {
        assert keys[a + k] != keys[a + k + (b - a)];
        same := false;
      } else {
        k := k + 1;
      }
    }
  }

  lemma TwoBlocks(width: nat)
    requires width > 0
    ensures WholeBlocks(2 * width, width) && Blocks(2 * width, width) == 2
  {
    assert Blocks(0, width) == 0;
    assert Blocks(width, width) == 1 + Blocks(width - width, width);
    assert WholeBlocks(width, width);
  }

  method CountCopies(keys: seq<string>, start: nat, width: nat) returns (c: Cycle)
    requires Repeats(keys, start, width)
    ensures c == CycleAt(keys, start, width)
  {
    var copies := 2;
    var next := start + width * 2;
    TwoBlocks(width);
    while true
      invariant start + width <= next <= |keys|
      invariant WholeBlocks(next - start, width) && Blocks(next - start, width) == copies
      invariant CopiesEnd(keys, start, width, start + 2 * width) == CopiesEnd(keys, start, width, next)
      decreases |keys| - next
    {
      if next + width > |keys| {
        break;
      }
      var more := LinesMatch(keys, start, next, width);
      if !more {
        break;
      }
      copies := copies + 1;
      next := next + width;
    }
    c := Cycle(start, width, copies, next - start);
  }

  /** The search of the exact tier. */
  method FindFirst(keys: seq<string>) returns (r: Found)
    ensures r == First(keys)
  {
    var width := 1;
    while width <= MAX_WIDTH
      invariant 1 <= width <= MAX_WIDTH + 1
      invariant ScanFrom(keys, 1, 0) == ScanFrom(keys, width, 0)
    {
      var start := 0;
      while start + width * 2 <= |keys|
        invariant ScanFrom(keys, 1, 0) == ScanFrom(keys, width, start)
        decreases |keys| - start
      {
        var same := LinesMatch(keys, start, start + width, width);
        if same {
          var c := CountCopies(keys, start, width);
          return Best(c);
        }
        start := start + 1;
      }
      width := width + 1;
    }
    return Nothing;
  }

  /** The search of the shape tier. */
  method FindLargest(keys: seq<string>) returns (best: Found)
    ensures best == Largest(keys)
  {
    best := Nothing;
    var width := 1;
    while width <= MAX_WIDTH
      invariant 1 <= width <= MAX_WIDTH + 1
      invariant Largest(keys) == Pick(ScanFrom(keys, width, 0), best)
    {
      var start := 0;
      while start + width * 2 <= |keys|
        invariant Largest(keys) == Pick(ScanFrom(keys, width, start), best)
        decreases |keys| - start
      {
        var same := LinesMatch(keys, start, start + width, width);
        if same {
          var c := CountCopies(keys, start, width);
          assert ScanFrom(keys, width, start)[1..] == ScanFrom(keys, width, start + 1);
          if best.Nothing? || c.Removed() > best.cycle.Removed() {
            best := Best(c);
          }
        }
        start := start + 1;
      }
      width := width + 1;
    }
  }
}
