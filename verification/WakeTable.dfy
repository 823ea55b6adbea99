/** The table of wake requests both environments keep: one slot per moment, 0 in a
    free slot. */
module WakeTable {

  const WAKE_SLOTS: nat := 8

  type Table = seq<nat>

  predicate IsTable(wakes: Table) {
    |wakes| == WAKE_SLOTS
  }

  const NO_WAKES: Table := [0, 0, 0, 0, 0, 0, 0, 0]

  /** The first slot that holds x, or the number of slots. */
  function IndexOf(wakes: Table, x: nat): (i: nat)
    ensures i <= |wakes|
    ensures i < |wakes| ==> wakes[i] == x
    ensures forall j :: 0 <= j < i ==> wakes[j] != x
  {
    if wakes == [] then 0
    else if wakes[0] == x then 0
    else
      var rest := IndexOf(wakes[1..], x);
      assert forall j :: 1 <= j < rest + 1 ==> wakes[j] == wakes[1..][j - 1];
      1 + rest
  }

  datatype Asked = Asked(wakes: Table, taken: bool)

  /** A wake request made at `now`. */
  function Request(wakes: Table, now: nat, whenUs: nat): Asked {
    if whenUs <= now then Asked(wakes, true)
    else if IndexOf(wakes, whenUs) < |wakes| then Asked(wakes, true)
    else
      var free := IndexOf(wakes, 0);
      if free < |wakes| then Asked(wakes[free := whenUs], true) else Asked(wakes, false)
  }

  function Earlier(w: nat, after: nat, best: nat): nat {
    if w == 0 || w <= after then best
    else if best == 0 || w < best then w
    else best
  }

  function EarliestFrom(wakes: Table, i: nat, after: nat, best: nat): nat
    requires i <= |wakes|
    decreases |wakes| - i
  {
    if i == |wakes| then best else EarliestFrom(wakes, i + 1, after, Earlier(wakes[i], after, best))
  }

  /** The earliest request strictly after a moment, or 0. */
  function NextAfter(wakes: Table, after: nat): nat {
    EarliestFrom(wakes, 0, after, 0)
  }

  /** Requests due by a moment leave their slots. */
  function Retired(wakes: Table, whenUs: nat): (r: Table)
    ensures |r| == |wakes|
  {
    seq(|wakes|, i requires 0 <= i < |wakes| => if wakes[i] <= whenUs then 0 else wakes[i])
  }

  ghost predicate Holds(wakes: Table, w: nat) {
    w != 0 && w in wakes
  }

  ghost predicate DistinctWakes(wakes: Table) {
    forall i, j :: 0 <= i < j < |wakes| && wakes[i] != 0 ==> wakes[i] != wakes[j]
  }

  lemma {:induction false} EarliestSpec(wakes: Table, i: nat, after: nat, best: nat)
    requires i <= |wakes| && (best != 0 ==> best > after)
    ensures var r := EarliestFrom(wakes, i, after, best);
            && (r != 0 ==> r > after && (r == best || r in wakes[i..]))
            && (best != 0 ==> r != 0 && r <= best)
            && (forall j :: i <= j < |wakes| && wakes[j] > after ==> r != 0 && r <= wakes[j])
    decreases |wakes| - i
  {
    if i < |wakes| {
      EarliestSpec(wakes, i + 1, after, Earlier(wakes[i], after, best));
      assert wakes[i..] == [wakes[i]] + wakes[i + 1..];
    }
  }

  /** The next wake is the least request still ahead, and there is none exactly when
      nothing is ahead. */
  lemma NextAfterIsLeast(wakes: Table, after: nat)
    ensures var r := NextAfter(wakes, after);
            && (r != 0 ==> r > after && Holds(wakes, r))
            && (forall w: nat :: Holds(wakes, w) && w > after ==> r != 0 && r <= w)
  {
    EarliestSpec(wakes, 0, after, 0);
    assert wakes[0..] == wakes;
  }

  lemma RetiredHolds(wakes: Table, whenUs: nat, w: nat)
    ensures Holds(Retired(wakes, whenUs), w) <==> Holds(wakes, w) && w > whenUs
  {
    if Holds(wakes, w) && w > whenUs {
      var i :| 0 <= i < |wakes| && wakes[i] == w;
      assert Retired(wakes, whenUs)[i] == w;
    }
  }

  lemma RetiredDistinct(wakes: Table, whenUs: nat)
    requires DistinctWakes(wakes)
    ensures DistinctWakes(Retired(wakes, whenUs))
  {
  }

  /** What a request does to the table: it holds what it held, and the moment asked for
      when it was taken and lies ahead; a refusal means that no slot is free. */
  lemma RequestHolds(wakes: Table, now: nat, whenUs: nat, w: nat)
    ensures var a := Request(wakes, now, whenUs);
            && |a.wakes| == |wakes|
            && (Holds(a.wakes, w) <==> Holds(wakes, w) || (w == whenUs > now && a.taken))
            && (!a.taken ==> whenUs > now && 0 !in wakes)
            && (DistinctWakes(wakes) ==> DistinctWakes(a.wakes))
  {
    var a, free := Request(wakes, now, whenUs), IndexOf(wakes, 0);
    if Holds(wakes, w) {
      var i :| 0 <= i < |wakes| && wakes[i] == w;
      assert a.wakes[i] == w || i == free;
    }
    if whenUs > now && a.taken {
      var k := IndexOf(wakes, whenUs);
      if k == |wakes| {
        assert a.wakes[free] == whenUs;
      }
    }
  }
}
