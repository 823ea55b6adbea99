/** The standing notice of a full log, read back: it is the last line, and the number in its
    text is how many events are lost. */
module TruncationNotice {
  import opened Shapes
  import opened Recorder
  import opened RecorderRuns

  predicate AllDigits(s: string) {
    forall i :: 0 <= i < |s| ==> '0' <= s[i] <= '9'
  }

  /** The number a string of digits says. */
  function Value(s: string): int {
    if s == [] then 0 else 10 * Value(s[..|s| - 1]) + (s[|s| - 1] as int - '0' as int)
  }

  /** The least number of more than `digits` digits. */
  function Beyond(digits: nat): nat {
    if digits == 0 then 1 else 10 * Beyond(digits - 1)
  }

  lemma {:induction false} DecimalReads(n: nat, digits: nat)
    requires 0 < digits && n < Beyond(digits)
    ensures Value(Decimal(n)) == n && AllDigits(Decimal(n)) && 1 <= |Decimal(n)| <= digits
    decreases digits
  {
    var s := Decimal(n);
    var last := "0123456789"[n % 10];
    assert '0' <= last <= '9' && last as int - '0' as int == n % 10;
    if n < 10 {
      assert s == [last] && s[..0] == [] && Value([]) == 0;
    } else {
      assert digits > 1 by {
        assert Beyond(1) == 10 * Beyond(0) == 10;
      }
      DecimalReads(n / 10, digits - 1);
      assert s[..|s| - 1] == Decimal(n / 10);
    }
  }

  /** A notice of this many lost: by the core, about nothing in particular. */
  predicate Says(e: Event, lost: nat) {
    && e.origin == Diag && e.link == 0 && e.repeats == 1 && e.timeUs == e.lastTimeUs
    && e.text == Clip("trace.truncated lost=" + Decimal(lost))
  }

  predicate Stands(l: Log) {
    l.truncated ==> l.buf != [] && Says(l.buf[|l.buf| - 1], l.dropped)
  }

  lemma RecordedStands(l: Log, cap: nat, e: Entry, plan: Plan)
    requires cap > 0 && PlanFits(l, plan) && Stands(l) && (l.truncated <==> l.foldExhausted)
    requires l.truncated ==> |l.buf| == cap
    ensures Stands(RecordedWith(l, cap, e, plan))
  {
    hide Decimal, Clip, Folded;
  }

  lemma {:induction false} NoticeStands(cap: nat, ops: seq<Op>)
    requires cap > 0
    ensures Stands(Run(cap, ops).log)
    decreases |ops|
  {
    if ops != [] {
      var before := ops[..|ops| - 1];
      NoticeStands(cap, before);
      EveryEventIsAccountedFor(cap, before);
      var l := Run(cap, before).log;
      if ops[|ops| - 1].Record? {
        RoomFits(l, cap);
        RecordedStands(l, cap, ops[|ops| - 1].entry, Room(l, cap));
      }
      hide RecordedWith, PlanOf, Says;
    }
  }

  /** After any run, a log that could not keep everything ends in the notice, whose digits
      read as the number of events dropped. */
  lemma NoticeSaysWhatIsLost(cap: nat, ops: seq<Op>)
    requires cap > 0
    ensures var l := Run(cap, ops).log;
            l.truncated && l.dropped < 0x1_0000_0000 ==>
              && l.buf != [] && Says(l.buf[|l.buf| - 1], l.dropped)
              && var text := l.buf[|l.buf| - 1].text;
                 && |text| > 21 && text[..21] == "trace.truncated lost=" && AllDigits(text[21..])
                 && Value(text[21..]) == l.dropped
  {
    NoticeStands(cap, ops);
    hide Run, Decimal, Value;
    var l := Run(cap, ops).log;
    if l.truncated && l.dropped < 0x1_0000_0000 {
      assert Beyond(10) == 10 * Beyond(9) == 100 * Beyond(8) == 1000 * Beyond(7) == 10000 * Beyond(6);
      assert Beyond(6) == 10 * Beyond(5) == 100 * Beyond(4) == 1000 * Beyond(3) == 10000 * Beyond(2);
      assert Beyond(2) == 10 * Beyond(1) == 100 * Beyond(0) == 100;
      DecimalReads(l.dropped, 10);
      var head, digits := "trace.truncated lost=", Decimal(l.dropped);
      assert |head| == 21 && (head + digits)[..21] == head && (head + digits)[21..] == digits;
    }
  }
}
