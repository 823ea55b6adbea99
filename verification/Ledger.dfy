/** The ledger of a recording: for every sequence number handed out, the slot that
    stands for it, or the fact that it was lost or fell outside the window. The
    log never keeps it; it is what a log can be audited against. */
module Ledger {
  import opened Shapes
  import opened FoldSearch
  import opened Recorder

  datatype Fate = InSlot(i: nat) | Lost | Outside

  /** How many sequence numbers met a fate. Entry q is sequence number q + 1. */
  function Held(home: seq<Fate>, f: Fate): nat {
    if home == [] then 0
    else Held(home[..|home| - 1], f) + (if home[|home| - 1] == f then 1 else 0)
  }

  lemma HeldSnoc(home: seq<Fate>, x: Fate, f: Fate)
    ensures Held(home + [x], f) == Held(home, f) + (if x == f then 1 else 0)
  {
    assert (home + [x])[..|home|] == home;
  }

  lemma {:induction false} HeldNone(home: seq<Fate>, f: Fate)
    requires forall q :: 0 <= q < |home| ==> home[q] != f
    ensures Held(home, f) == 0
    decreases |home|
  {
    if home != [] {
      HeldNone(home[..|home| - 1], f);
    }
  }

  // --- Where a fold moves a slot -------------------------------------------

  function Rem(x: nat, width: nat): (r: nat)
    requires width > 0
    ensures r < width && r <= x
    decreases x
  {
    if x < width then x else Rem(x - width, width)
  }

  /** The slot that stands, after a fold, for what slot i stood for. */
  function Target(c: Cycle, i: nat): (t: nat)
    requires 0 < c.width < c.span
    ensures t <= i
  {
    if i < c.start then i
    else if i < c.start + c.span then c.start + Rem(i - c.start, c.width)
    else i - (c.span - c.width)
  }

  function MovedFate(c: Cycle, f: Fate): Fate
    requires 0 < c.width < c.span
  {
    if f.InSlot? then InSlot(Target(c, f.i)) else f
  }

  function Moved(home: seq<Fate>, c: Cycle): (r: seq<Fate>)
    requires 0 < c.width < c.span
    ensures |r| == |home|
  {
    seq(|home|, q requires 0 <= q < |home| => MovedFate(c, home[q]))
  }

  function Evicted(home: seq<Fate>, i: nat): (r: seq<Fate>)
    ensures |r| == |home|
  {
    seq(|home|, q requires 0 <= q < |home| => if home[q] == InSlot(i) then Lost else home[q])
  }

  /** The ledger after one more event, given what the search found. */
  function BookedWith(l: Log, cap: nat, home: seq<Fate>, plan: Plan): (r: seq<Fate>)
    requires cap > 0 && PlanFits(l, plan)
    ensures |r| == |home| + 1
  {
    if !l.running then home + [Outside]
    else if !Full(l, cap) then home + [InSlot(|l.buf|)]
    else match plan
      case Fold(c, _) => Moved(home, c) + [InSlot(|l.buf| - c.Removed())]
      case NoFold => (if l.foldExhausted then home else Evicted(home, |l.buf| - 1)) + [Lost]
  }

  function Booked(l: Log, cap: nat, home: seq<Fate>): (r: seq<Fate>)
    requires cap > 0
  {
    RoomFits(l, cap);
    BookedWith(l, cap, home, Room(l, cap))
  }

  // --- Counting across a fold ----------------------------------------------

  function Stride(home: seq<Fate>, pos: nat, width: nat, end: nat): nat
    requires width > 0
    decreases end - pos
  {
    if pos >= end then 0 else Held(home, InSlot(pos)) + Stride(home, pos + width, width, end)
  }

  predicate OnStride(j: nat, pos: nat, width: nat, end: nat)
    requires width > 0
  {
    pos <= j < end && Rem(j - pos, width) == 0
  }

  lemma {:induction false} StrideSnoc(home: seq<Fate>, x: Fate, pos: nat, width: nat, end: nat)
    requires width > 0
    ensures Stride(home + [x], pos, width, end) ==
            Stride(home, pos, width, end) + (if x.InSlot? && OnStride(x.i, pos, width, end) then 1 else 0)
    decreases end - pos
  {
    if pos < end {
      HeldSnoc(home, x, InSlot(pos));
      StrideSnoc(home, x, pos + width, width, end);
    }
  }

  lemma {:induction false} StrideEmpty(pos: nat, width: nat, end: nat)
    requires width > 0
    ensures Stride([], pos, width, end) == 0
    decreases end - pos
  {
    if pos < end {
      StrideEmpty(pos + width, width, end);
    }
  }

  lemma {:induction false} RemShift(x: nat, k: nat, width: nat)
    requires k < width
    ensures Rem(x, width) == k <==> x >= k && Rem(x - k, width) == 0
    decreases x
  {
    if x >= width {
      RemShift(x - width, k, width);
    }
  }

  /** Each slot of the folded buffer stands for what the slots it came from stood for. */
  lemma {:induction false} HeldMoved(home: seq<Fate>, c: Cycle, i: nat)
    requires 0 < c.width < c.span
    ensures Held(Moved(home, c), InSlot(i)) ==
            if i < c.start then Held(home, InSlot(i))
            else if i < c.start + c.width then Stride(home, i, c.width, c.start + c.span)
            else Held(home, InSlot(i + (c.span - c.width)))
    decreases |home|
  {
    if home == [] {
      StrideEmpty(i, c.width, c.start + c.span);
    } else {
      var front, x := home[..|home| - 1], home[|home| - 1];
      assert home == front + [x];
      assert Moved(home, c) == Moved(front, c) + [MovedFate(c, x)];
      HeldSnoc(Moved(front, c), MovedFate(c, x), InSlot(i));
      HeldSnoc(front, x, InSlot(i));
      HeldSnoc(front, x, InSlot(i + (c.span - c.width)));
      StrideSnoc(front, x, i, c.width, c.start + c.span);
      HeldMoved(front, c, i);
      if x.InSlot? && c.start <= i < c.start + c.width && c.start <= x.i < c.start + c.span {
        RemShift(x.i - c.start, i - c.start, c.width);
      }
    }
  }

  lemma {:induction false} FateMoved(home: seq<Fate>, c: Cycle, f: Fate)
    requires 0 < c.width < c.span && !f.InSlot?
    ensures Held(Moved(home, c), f) == Held(home, f)
    decreases |home|
  {
    if home != [] {
      var front := home[..|home| - 1];
      assert Moved(home, c)[..|home| - 1] == Moved(front, c);
      FateMoved(front, c, f);
    }
  }

  lemma {:induction false} HeldEvicted(home: seq<Fate>, i: nat, f: Fate)
    ensures Held(Evicted(home, i), f) ==
            if f == InSlot(i) then 0
            else if f == Lost then Held(home, Lost) + Held(home, InSlot(i))
            else Held(home, f)
    decreases |home|
  {
    if home != [] {
      var front := home[..|home| - 1];
      assert Evicted(home, i)[..|home| - 1] == Evicted(front, i);
      HeldEvicted(front, i, f);
    }
  }

  lemma {:induction false} TotalIsStride(evs: seq<Event>, home: seq<Fate>, pos: nat, width: nat, end: nat)
    requires width > 0 && end <= |evs|
    requires forall j :: 0 <= j < |evs| ==> evs[j].repeats == Held(home, InSlot(j))
    ensures Total(evs, pos, width, end) == Stride(home, pos, width, end)
    decreases end - pos
  {
    if pos < end {
      TotalIsStride(evs, home, pos + width, width, end);
    }
  }

  // --- The audit -----------------------------------------------------------

  /** Slots that stand for recorded events; the standing notice is not one of them. */
  function Real(l: Log): nat {
    if l.truncated && l.buf != [] then |l.buf| - 1 else |l.buf|
  }

  /** Slot i stands for exactly `repeats` sequence numbers, the least of them its own. */
  ghost predicate SlotAudited(e: Event, i: nat, home: seq<Fate>) {
    && e.repeats == Held(home, InSlot(i))
    && 1 <= e.seqNo <= |home| && home[e.seqNo - 1] == InSlot(i)
    && forall q :: 0 <= q < |home| && home[q] == InSlot(i) ==> e.seqNo - 1 <= q
  }

  ghost predicate SlotsAudited(evs: seq<Event>, home: seq<Fate>) {
    && (forall q :: 0 <= q < |home| && home[q].InSlot? ==> home[q].i < |evs|)
    && (forall i {:trigger SlotAudited(evs[i], i, home)} :: 0 <= i < |evs| ==> SlotAudited(evs[i], i, home))
  }

  ghost predicate Increasing(evs: seq<Event>) {
    forall i, j :: 0 <= i < j < |evs| ==> evs[i].seqNo < evs[j].seqNo
  }

  ghost predicate Audited(l: Log, cap: nat, home: seq<Fate>) {
    && l.nextSeq == |home| + 1
    && |l.buf| <= cap
    && (l.truncated <==> l.foldExhausted)
    && (l.truncated ==> |l.buf| == cap)
    && SlotsAudited(l.buf[..Real(l)], home)
    && Increasing(l.buf)
    && (l.buf != [] ==> l.buf[|l.buf| - 1].repeats == 1 && l.buf[|l.buf| - 1].seqNo <= |home|)
    && l.dropped == Held(home, Lost)
    && |home| + (if l.truncated then 1 else 0) == |l.buf| + l.folded + l.dropped + Held(home, Outside)
  }

  lemma HeadRepeats(evs: seq<Event>, home: seq<Fate>, c: Cycle, shape: bool, i: nat)
    requires Fits(c, |evs|)
    requires forall j :: 0 <= j < |evs| ==> evs[j].repeats == Held(home, InSlot(j))
    requires c.start <= i < c.start + c.width
    ensures Head(evs, c, shape, i - c.start).repeats == Held(Moved(home, c), InSlot(i))
  {
    HeldMoved(home, c, i);
    TotalIsStride(evs, home, i, c.width, c.start + c.span);
  }

  lemma HeadIsLeast(evs: seq<Event>, home: seq<Fate>, c: Cycle, i: nat, q: nat)
    requires Fits(c, |evs|)
    requires SlotsAudited(evs, home) && Increasing(evs)
    requires c.start <= i < c.start + c.width
    requires q < |home| && MovedFate(c, home[q]) == InSlot(i)
    ensures evs[i].seqNo - 1 <= q
  {
    var j := home[q].i;
    assert i <= j && SlotAudited(evs[j], j, home);
  }

  lemma HeadAudited(evs: seq<Event>, home: seq<Fate>, c: Cycle, shape: bool, i: nat)
    requires Fits(c, |evs|)
    requires SlotsAudited(evs, home) && Increasing(evs)
    requires c.start <= i < c.start + c.width
    ensures SlotAudited(Head(evs, c, shape, i - c.start), i, Moved(home, c))
  {
    var moved := Moved(home, c);
    forall j | 0 <= j < |evs| ensures evs[j].repeats == Held(home, InSlot(j)) {
      assert SlotAudited(evs[j], j, home);
    }
    HeadRepeats(evs, home, c, shape, i);
    assert SlotAudited(evs[i], i, home);
    forall q | 0 <= q < |moved| && moved[q] == InSlot(i) ensures evs[i].seqNo - 1 <= q {
      HeadIsLeast(evs, home, c, i, q);
    }
  }

  lemma KeptAudited(evs: seq<Event>, home: seq<Fate>, c: Cycle, from: nat)
    requires Fits(c, |evs|) && SlotsAudited(evs, home)
    requires from < c.start || c.start + c.span <= from < |evs|
    ensures SlotAudited(evs[from], Target(c, from), Moved(home, c))
  {
    HeldMoved(home, c, Target(c, from));
    assert SlotAudited(evs[from], from, home);
  }

  /** After a fold every slot still stands for what it says it does. */
  lemma FoldAudited(evs: seq<Event>, home: seq<Fate>, c: Cycle, shape: bool)
    requires Fits(c, |evs|)
    requires SlotsAudited(evs, home) && Increasing(evs)
    ensures SlotsAudited(Folded(evs, c, shape), Moved(home, c))
  {
    var r, moved := Folded(evs, c, shape), Moved(home, c);
    forall i | 0 <= i < |r| ensures SlotAudited(r[i], i, moved) {
      FoldedAt(evs, c, shape, i);
      if c.start <= i < c.start + c.width {
        HeadAudited(evs, home, c, shape, i);
      } else {
        KeptAudited(evs, home, c, if i < c.start then i else i + c.Removed());
      }
    }
    forall q | 0 <= q < |moved| && moved[q].InSlot? ensures moved[q].i < |r| {
      assert home[q].i < |evs|;
    }
  }

  /** Folded slots keep their own sequence numbers, so the buffer stays in order. */
  lemma FoldIncreasing(evs: seq<Event>, c: Cycle, shape: bool)
    requires Fits(c, |evs|) && Increasing(evs)
    ensures Increasing(Folded(evs, c, shape))
  {
    var r := Folded(evs, c, shape);
    forall i, j | 0 <= i < j < |r| ensures r[i].seqNo < r[j].seqNo {
      FoldedAt(evs, c, shape, i);
      FoldedAt(evs, c, shape, j);
    }
  }

  lemma StoreAudited(evs: seq<Event>, home: seq<Fate>, e: Event)
    requires SlotsAudited(evs, home) && Increasing(evs)
    requires e.repeats == 1 && e.seqNo == |home| + 1
    ensures SlotsAudited(evs + [e], home + [InSlot(|evs|)]) && Increasing(evs + [e])
  {
    var after, booked := evs + [e], home + [InSlot(|evs|)];
    forall i | 0 <= i < |after| ensures SlotAudited(after[i], i, booked) {
      HeldSnoc(home, InSlot(|evs|), InSlot(i));
      if i < |evs| {
        assert SlotAudited(evs[i], i, home);
      } else {
        HeldNone(home, InSlot(i));
      }
    }
    forall i, j | 0 <= i < j < |after| ensures after[i].seqNo < after[j].seqNo {
      if j == |evs| {
        assert SlotAudited(evs[i], i, home);
      }
    }
  }

  lemma OtherAudited(evs: seq<Event>, home: seq<Fate>, f: Fate)
    requires SlotsAudited(evs, home) && !f.InSlot?
    ensures SlotsAudited(evs, home + [f])
  {
    forall i | 0 <= i < |evs| ensures SlotAudited(evs[i], i, home + [f]) {
      HeldSnoc(home, f, InSlot(i));
      assert SlotAudited(evs[i], i, home);
    }
  }

  lemma EvictAudited(evs: seq<Event>, home: seq<Fate>)
    requires evs != [] && SlotsAudited(evs, home)
    ensures SlotsAudited(evs[..|evs| - 1], Evicted(home, |evs| - 1))
  {
    var last := |evs| - 1;
    forall i | 0 <= i < last ensures SlotAudited(evs[i], i, Evicted(home, last)) {
      HeldEvicted(home, last, InSlot(i));
      assert SlotAudited(evs[i], i, home);
    }
  }

  /** Recording one event keeps the audit, whichever way the event goes and whatever
      cycle is folded. */
  lemma RecordedAudited(l: Log, cap: nat, home: seq<Fate>, e: Entry, plan: Plan)
    requires cap > 0 && Audited(l, cap, home) && PlanFits(l, plan)
    ensures Audited(RecordedWith(l, cap, e, plan), cap, BookedWith(l, cap, home, plan))
  {
    hide Audited, Stored, Truncated, FoldedAndStored, Moved, Evicted;
    var after, booked := RecordedWith(l, cap, e, plan), BookedWith(l, cap, home, plan);
    if !l.running {
      assert after == l.(nextSeq := l.nextSeq + 1, outsideWindow := l.outsideWindow + 1) && booked == home + [Outside];
      OutsideCase(l, cap, home);
    } else if !Full(l, cap) {
      assert after == Stored(l.(nextSeq := l.nextSeq + 1), e, l.nextSeq) && booked == home + [InSlot(|l.buf|)];
      StoreCase(l, cap, home, e);
    } else if plan.Fold? {
      assert after == FoldedAndStored(l, e, plan.cycle, plan.shape);
      assert booked == Moved(home, plan.cycle) + [InSlot(|l.buf| - plan.cycle.Removed())];
      FoldCase(l, cap, home, e, plan.cycle, plan.shape);
    } else {
      assert after == Truncated(l.(nextSeq := l.nextSeq + 1), e, l.nextSeq);
      TruncateCase(l, cap, home, e);
    }
  }

  lemma OutsideCase(l: Log, cap: nat, home: seq<Fate>)
    requires Audited(l, cap, home)
    ensures Audited(l.(nextSeq := l.nextSeq + 1, outsideWindow := l.outsideWindow + 1), cap, home + [Outside])
  {
    HeldSnoc(home, Outside, Lost);
    HeldSnoc(home, Outside, Outside);
    OtherAudited(l.buf[..Real(l)], home, Outside);
  }

  lemma StoreCase(l: Log, cap: nat, home: seq<Fate>, e: Entry)
    requires Audited(l, cap, home) && !Full(l, cap)
    ensures Audited(Stored(l.(nextSeq := l.nextSeq + 1), e, l.nextSeq), cap, home + [InSlot(|l.buf|)])
  {
    var after := Stored(l.(nextSeq := l.nextSeq + 1), e, l.nextSeq);
    assert l.buf[..Real(l)] == l.buf && after.buf[..Real(after)] == after.buf;
    StoreAudited(l.buf, home, after.buf[|l.buf|]);
    HeldSnoc(home, InSlot(|l.buf|), Lost);
    HeldSnoc(home, InSlot(|l.buf|), Outside);
  }

  lemma FoldCase(l: Log, cap: nat, home: seq<Fate>, e: Entry, c: Cycle, shape: bool)
    requires Audited(l, cap, home) && !l.foldExhausted && Fits(c, |l.buf|)
    ensures Audited(FoldedAndStored(l, e, c, shape), cap, Moved(home, c) + [InSlot(|l.buf| - c.Removed())])
  {
    var folded, moved := Folded(l.buf, c, shape), Moved(home, c);
    var after := FoldedAndStored(l, e, c, shape);
    assert l.buf[..Real(l)] == l.buf && after.buf[..Real(after)] == after.buf;
    FoldAudited(l.buf, home, c, shape);
    FoldIncreasing(l.buf, c, shape);
    StoreAudited(folded, moved, after.buf[|folded|]);
    HeldSnoc(moved, InSlot(|folded|), Lost);
    HeldSnoc(moved, InSlot(|folded|), Outside);
    FateMoved(home, c, Lost);
    FateMoved(home, c, Outside);
  }

  /** The slot the first notice overwrites stands for one event, so exactly that one
      joins the lost. */
  lemma TruncateCase(l: Log, cap: nat, home: seq<Fate>, e: Entry)
    requires cap > 0 && Audited(l, cap, home) && Full(l, cap)
    ensures Audited(Truncated(l.(nextSeq := l.nextSeq + 1), e, l.nextSeq), cap,
                    (if l.foldExhausted then home else Evicted(home, |l.buf| - 1)) + [Lost])
  {
    hide Clip, Decimal, Held;
    var last := |l.buf| - 1;
    var after := Truncated(l.(nextSeq := l.nextSeq + 1), e, l.nextSeq);
    assert after.buf[..Real(after)] == l.buf[..last];
    var kept := if l.foldExhausted then home else Evicted(home, last);
    if !l.foldExhausted {
      assert l.buf[..Real(l)] == l.buf;
      assert SlotAudited(l.buf[last], last, home);
      EvictAudited(l.buf, home);
      HeldEvicted(home, last, Lost);
      HeldEvicted(home, last, Outside);
    }
    HeldSnoc(kept, Lost, Lost);
    HeldSnoc(kept, Lost, Outside);
    OtherAudited(l.buf[..last], kept, Lost);
    forall i | 0 <= i < last ensures after.buf[i].seqNo < after.buf[last].seqNo {
      assert SlotAudited(l.buf[..last][i], i, kept);
    }
  }
}
