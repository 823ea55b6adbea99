/** The player as the device model keeps it: one position, updated request by request. */
module TapeModel {
  import opened Tape

  /** A serial byte is dereferenced against the step's data, so a serial step has some. */
  predicate SerialOk(steps: seq<Step>) {
    WellFormed(steps) && forall i :: 0 <= i < |steps| && steps[i].kind == SerialIn ==> steps[i].length >= 1
  }

  predicate AtByte(steps: seq<Step>, p: Player) {
    InStep(steps, p)
    && (p.step < |steps| && steps[p.step].kind == SerialIn ==> p.progress < steps[p.step].length)
  }

  /** One byte from the application: past the end the rest of the call is dropped, at a
      step of another kind the byte is, and a wrong byte is said once for the step. */
  function SerialByte(steps: seq<Step>, p: Player, now: int, b: bv8): (r: Player)
    requires SerialOk(steps) && AtByte(steps, p)
    ensures AtByte(steps, r)
  {
    if p.step >= |steps| then PastEnd(p)
    else
      var s := steps[p.step];
      if s.kind != SerialIn then Mismatch(p, Differ(!p.stepBad)).(stepBad := true)
      else
        var bad := b != s.data[p.progress] && !p.stepBad;
        var q := Mismatch(p, Differ(bad)).(stepBad := p.stepBad || bad, progress := p.progress + 1);
        if q.progress >= s.length then Finished(steps, q, now) else q
  }

  function SerialBytes(steps: seq<Step>, p: Player, now: int, data: seq<bv8>): (r: Player)
    requires SerialOk(steps) && AtByte(steps, p)
    ensures AtByte(steps, r)
    decreases |data|
  {
    if data == [] then p
    else if p.step >= |steps| then PastEnd(p)
    else SerialBytes(steps, SerialByte(steps, p, now, data[0]), now, data[1..])
  }

  /** What the application still has to say on a tape of serial input. */
  function Unsaid(steps: seq<Step>, i: nat): seq<bv8>
    requires i <= |steps|
    decreases |steps| - i
  {
    if i == |steps| then [] else steps[i].data + Unsaid(steps, i + 1)
  }

  predicate Listening(steps: seq<Step>, p: Player) {
    && SerialOk(steps) && AtByte(steps, p) && p.step <= |steps|
    && forall i :: 0 <= i < |steps| ==> steps[i].kind == SerialIn
  }

  function Expected(steps: seq<Step>, p: Player): seq<bv8>
    requires Listening(steps, p)
  {
    if p.step == |steps| then [] else steps[p.step].data[p.progress..] + Unsaid(steps, p.step + 1)
  }

  lemma ListenOne(steps: seq<Step>, p: Player, now: int, b: bv8)
    requires Listening(steps, p) && Honest(p) && p.step < |steps|
    ensures var q := SerialByte(steps, p, now, b);
            && Listening(steps, q) && Honest(q) && q.mismatches >= p.mismatches && Expected(steps, p) != []
            && Expected(steps, q) == Expected(steps, p)[1..]
            && (p.mismatches == 0 ==> (q.mismatches == 0 <==> b == Expected(steps, p)[0]))
  {
    hide Unsaid;
    var s := steps[p.step];
    var q := SerialByte(steps, p, now, b);
    ExpectedHead(steps, p);
    OneByte(steps, p, now, b);
    hide SerialByte, Expected;
    if p.progress + 1 == s.length {
      StepSaid(steps, p, q);
    } else {
      MoreToSay(steps, p, q);
    }
  }

  lemma ExpectedHead(steps: seq<Step>, p: Player)
    requires Listening(steps, p) && p.step < |steps|
    ensures var s, e := steps[p.step], Expected(steps, p);
            && p.progress < |s.data| && e != [] && e[0] == s.data[p.progress]
            && e[1..] == s.data[p.progress + 1..] + Unsaid(steps, p.step + 1)
  {
    hide Unsaid;
    DropOne(steps[p.step].data, p.progress, Unsaid(steps, p.step + 1));
  }

  /** What one byte does to the player's place and counters. */
  lemma OneByte(steps: seq<Step>, p: Player, now: int, b: bv8)
    requires Listening(steps, p) && Honest(p) && p.step < |steps| && p.progress < |steps[p.step].data|
    ensures var q, s := SerialByte(steps, p, now, b), steps[p.step];
            && Honest(q) && q.mismatches >= p.mismatches
            && (p.mismatches == 0 ==> (q.mismatches == 0 <==> b == s.data[p.progress]))
            && (if p.progress + 1 == s.length then q.step == p.step + 1 && q.progress == 0
                else q.step == p.step && q.progress == p.progress + 1)
  {
  }

  lemma MoreToSay(steps: seq<Step>, p: Player, q: Player)
    requires Listening(steps, p) && p.step < |steps| && p.progress + 1 < steps[p.step].length
    requires AtByte(steps, q) && q.step == p.step && q.progress == p.progress + 1
    ensures Listening(steps, q)
            && Expected(steps, q) == steps[p.step].data[p.progress + 1..] + Unsaid(steps, p.step + 1)
  {
    hide Unsaid, SerialOk, AtByte;
  }

  lemma StepSaid(steps: seq<Step>, p: Player, q: Player)
    requires Listening(steps, p) && p.step < |steps| && p.progress + 1 == steps[p.step].length
    requires q.step == p.step + 1 && q.progress == 0
    ensures Listening(steps, q)
            && Expected(steps, q) == steps[p.step].data[p.progress + 1..] + Unsaid(steps, p.step + 1)
  {
    assert steps[p.step].data[p.progress + 1..] == [];
    if q.step < |steps| {
      assert steps[q.step].data[0..] == steps[q.step].data;
    }
  }

  /** Serial departures are detected exactly too: on a tape of what the application said,
      nothing is counted as long as it says the same bytes, and what it then still has to
      say is the rest. */
  lemma {:induction false} SerialDepartures(steps: seq<Step>, p: Player, now: int, data: seq<bv8>)
    requires Listening(steps, p) && Honest(p)
    ensures var r := SerialBytes(steps, p, now, data);
            && r.mismatches >= p.mismatches && Listening(steps, r) && Honest(r)
            && (p.mismatches == 0 ==> (r.mismatches == 0 <==> data <= Expected(steps, p)))
            && (p.mismatches == 0 && r.mismatches == 0 ==> Expected(steps, r) == Expected(steps, p)[|data|..])
    decreases |data|
  {
    if data != [] && p.step < |steps| {
      ListenOne(steps, p, now, data[0]);
      hide SerialByte, Expected, Unsaid, Listening;
      SerialDepartures(steps, SerialByte(steps, p, now, data[0]), now, data[1..]);
      var e := Expected(steps, p);
      assert data <= e <==> data[0] == e[0] && data[1..] <= e[1..] by {
        PrefixCons(data, e);
      }
      assert data <= e ==> e[1..][|data| - 1..] == e[|data|..];
    }
  }

  /** The bytes of several calls, each with its time. */
  datatype Said = Said(now: int, data: seq<bv8>)

  function SerialCalls(steps: seq<Step>, p: Player, calls: seq<Said>): (r: Player)
    requires SerialOk(steps) && AtByte(steps, p)
    ensures AtByte(steps, r)
    decreases |calls|
  {
    if calls == [] then p else SerialCalls(steps, SerialBytes(steps, p, calls[0].now, calls[0].data), calls[1..])
  }

  function AllSaid(calls: seq<Said>): seq<bv8> {
    if calls == [] then [] else calls[0].data + AllSaid(calls[1..])
  }

  /** However the application groups its bytes into calls. */
  lemma {:induction false} SerialGrouping(steps: seq<Step>, p: Player, calls: seq<Said>)
    requires Listening(steps, p) && Honest(p)
    ensures var r := SerialCalls(steps, p, calls);
            && r.mismatches >= p.mismatches
            && (p.mismatches == 0 ==> (r.mismatches == 0 <==> AllSaid(calls) <= Expected(steps, p)))
    decreases |calls|
  {
    assert SerialOk(steps) && AtByte(steps, p);
    hide Expected, Listening, SerialBytes;
    if calls != [] {
      var data, rest, e := calls[0].data, AllSaid(calls[1..]), Expected(steps, p);
      var q := SerialBytes(steps, p, calls[0].now, data);
      SerialDepartures(steps, p, calls[0].now, data);
      SerialGrouping(steps, q, calls[1..]);
      PrefixSplit(data, rest, e);
    }
  }

  lemma PrefixSplit<T>(a: seq<T>, b: seq<T>, e: seq<T>)
    ensures a + b <= e <==> a <= e && b <= e[|a|..]
  {
    if a + b <= e {
      assert e[..|a|] == (a + b)[..|a|] == a;
      assert e[|a|..][..|b|] == (a + b)[|a|..] == b;
    }
    if a <= e && b <= e[|a|..] {
      assert e == a + e[|a|..];
      assert e[..|a + b|] == a + b;
    }
  }

  lemma PrefixCons<T>(a: seq<T>, b: seq<T>)
    requires a != [] && b != []
    ensures a <= b <==> a[0] == b[0] && a[1..] <= b[1..]
  {
    assert a == [a[0]] + a[1..] && b == [b[0]] + b[1..];
    if a[0] == b[0] && a[1..] <= b[1..] {
      assert b[1..][..|a| - 1] == a[1..];
      assert b[..|a|] == [b[0]] + b[1..][..|a| - 1];
    }
  }

  /** The device's own steps that are due, each arming the next from the present. */
  function Advanced(steps: seq<Step>, p: Player, now: int): (r: (Player, seq<seq<bv8>>))
    requires SerialOk(steps) && AtByte(steps, p)
    ensures AtByte(steps, r.0)
    decreases |steps| - p.step
  {
    if p.step >= |steps| || steps[p.step].kind != SerialOut || !p.armed || now < p.dueAtUs then (p, [])
    else
      var (q, rest) := Advanced(steps, Finished(steps, p, now), now);
      (q, [steps[p.step].data] + rest)
  }

  /** One advance: a step that waits for its time starts its clock first. */
  function AdvanceOnce(steps: seq<Step>, p: Player, now: int): (r: (Player, seq<seq<bv8>>))
    requires SerialOk(steps) && AtByte(steps, p)
    ensures AtByte(steps, r.0)
  {
    Advanced(steps, Armed(steps, p, now), now)
  }

  function DataOf(steps: seq<Step>): (r: seq<seq<bv8>>)
    ensures |r| == |steps|
  {
    seq(|steps|, i requires 0 <= i < |steps| => steps[i].data)
  }

  /** An advance plays a stretch of the device's own steps, whole and in order, and stops
      at the first step that is not its own or not yet due; nothing is counted. */
  lemma {:induction false} AdvancePlaysTheDueSteps(steps: seq<Step>, p: Player, now: int)
    requires SerialOk(steps) && AtByte(steps, p) && p.step <= |steps|
    ensures var (q, sent) := Advanced(steps, p, now);
            && p.step <= q.step <= |steps| && sent == DataOf(steps[p.step..q.step])
            && (forall i :: p.step <= i < q.step ==> steps[i].kind == SerialOut)
            && (q.step < |steps| && steps[q.step].kind == SerialOut && q.armed ==> now < q.dueAtUs)
            && q.mismatches == p.mismatches
    decreases |steps| - p.step
  {
    if p.step < |steps| && steps[p.step].kind == SerialOut && p.armed && p.dueAtUs <= now {
      FinishedMoves(steps, p, now);
      hide Finished, AtByte;
      var f := Finished(steps, p, now);
      AdvancePlaysTheDueSteps(steps, f, now);
      DataCons(steps, p.step, Advanced(steps, f, now).0.step);
    } else {
      assert steps[p.step..p.step] == [];
    }
  }

  lemma DataCons(steps: seq<Step>, i: nat, j: nat)
    requires i < j <= |steps|
    ensures DataOf(steps[i..j]) == [steps[i].data] + DataOf(steps[i + 1..j])
  {
  }

  class TapeModel {
    const steps: seq<Step>
    var step: nat
    var armed: bool
    var dueAtUs: int
    var progress: nat
    var stepBad: bool
    var exhaustedSaid: bool
    var mismatches: nat
    var busyRefusals: nat

    ghost function State(): Player
      reads this
    {
      Player(step, armed, dueAtUs, progress, stepBad, exhaustedSaid, mismatches, busyRefusals)
    }

    ghost predicate Valid()
      reads this
    {
      SerialOk(steps) && AtByte(steps, State())
    }

    constructor (spec: seq<Step>)
      requires SerialOk(spec)
      ensures steps == spec && Valid() && State() == RESET
    {
      steps := spec;
      step, armed, dueAtUs, progress := 0, false, 0, 0;
      stepBad, exhaustedSaid, mismatches, busyRefusals := false, false, 0, 0;
    }

    method Reset()
      requires Valid()
      modifies this
      ensures Valid() && State() == RESET
    {
      step, armed, dueAtUs, progress := 0, false, 0, 0;
      stepBad, exhaustedSaid, mismatches, busyRefusals := false, false, 0, 0;
    }

    method CountMismatch()
      modifies this`mismatches
      ensures State() == Mismatch(old(State()), 1)
    {
      mismatches := mismatches + 1;
    }

    method SayExhausted()
      modifies this
      ensures State() == PastEnd(old(State()))
    {
      if !exhaustedSaid {
        CountMismatch();
      }
      exhaustedSaid := true;
    }

    method Arm(now: int)
      requires Valid()
      modifies this
      ensures Valid() && State() == Armed(steps, old(State()), now)
    {
      if step >= |steps| || armed {
        return;
      }
      if steps[step].kind != SerialOut && steps[step].kind != Busy {
        return;
      }
      armed := true;
      dueAtUs := now + steps[step].delayUs;
    }

    method FinishStep(now: int)
      requires SerialOk(steps)
      modifies this
      ensures Valid() && State() == Finished(steps, old(State()), now)
    {
      step := step + 1;
      progress := 0;
      stepBad := false;
      armed := false;
      Arm(now);
    }

    method BusyNow(now: int) returns (refused: bool)
      requires Valid()
      modifies this
      ensures Valid() && (State(), refused) == BusyRefuses(steps, old(State()), now)
    {
      if step >= |steps| || steps[step].kind != Busy {
        return false;
      }
      Arm(now);
      if now < dueAtUs {
        busyRefusals := busyRefusals + 1;
        return true;
      }
      FinishStep(now);
      return false;
    }

    static method SameBytes(a: seq<bv8>, b: seq<bv8>) returns (same: bool)
      ensures same <==> a == b
    {
      same := |a| == |b|;
      var i := 0;
      while same && i < |a|
        invariant 0 <= i <= |a|
        invariant same ==> |a| == |b| && forall k :: 0 <= k < i ==> a[k] == b[k]
        invariant !same ==> a != b
      {
        same := a[i] == b[i];
        i := i + 1;
      }
    }

    static method FirstBytes(data: seq<bv8>, count: nat) returns (out: seq<bv8>)
      requires count <= |data|
      ensures out == data[..count]
    {
      out := [];
      for i := 0 to count
        invariant out == data[..i]
      {
        out := out + [data[i]];
      }
    }

    method I2cWrite(data: seq<bv8>, stop: bool, now: int) returns (status: nat)
      requires Valid()
      modifies this
      ensures Valid() && (State(), Status(status)) == PlayWrite(steps, old(State()), now, data, stop)
    {
      hide Finished, Armed, BusyRefuses;
      var refused := BusyNow(now);
      if refused {
        return ADDRESS_NACK;
      }
      if step >= |steps| {
        SayExhausted();
        return ADDRESS_NACK;
      }
      var s := steps[step];
      if s.kind != Write {
        CountMismatch();
        return DATA_NACK;
      }
      var same := SameBytes(data, s.data);
      if !same {
        CountMismatch();
      }
      if stop != s.stop {
        CountMismatch();
      }
      FinishStep(now);
      return s.status;
    }

    method I2cRead(len: nat, stop: bool, now: int) returns (data: seq<bv8>)
      requires Valid()
      modifies this
      ensures Valid() && (State(), Data(data)) == PlayRead(steps, old(State()), now, len, stop)
    {
      hide Finished, Armed, BusyRefuses;
      var refused := BusyNow(now);
      if refused {
        return [];
      }
      if step >= |steps| {
        SayExhausted();
        return [];
      }
      var s := steps[step];
      if s.kind != Read {
        CountMismatch();
        return [];
      }
      if s.request != 0 && len != s.request {
        CountMismatch();
      }
      if stop != s.stop {
        CountMismatch();
      }
      var count := if len < s.length then len else s.length;
      data := FirstBytes(s.data, count);
      FinishStep(now);
    }

    method SpiTransfer(mosi: bv8, now: int) returns (miso: bv8)
      requires Valid()
      modifies this
      ensures Valid() && (State(), Miso(miso)) == PlaySpi(steps, old(State()), now, mosi)
    {
      if step >= |steps| {
        SayExhausted();
        return 0xFF;
      }
      var s := steps[step];
      if s.kind != Spi {
        if !stepBad {
          CountMismatch();
        }
        stepBad := true;
        return 0xFF;
      }
      if mosi != s.data[progress] && !stepBad {
        CountMismatch();
        stepBad := true;
      }
      miso := s.data[s.length + progress];
      progress := progress + 1;
      if progress >= s.length {
        FinishStep(now);
      }
    }

    method SerialOne(b: bv8, now: int)
      requires Valid() && step < |steps|
      modifies this
      ensures Valid() && State() == SerialByte(steps, old(State()), now, b)
    {
      hide Finished, Armed;
      var s := steps[step];
      if s.kind != SerialIn {
        if !stepBad {
          CountMismatch();
        }
        stepBad := true;
        return;
      }
      if b != s.data[progress] && !stepBad {
        CountMismatch();
        stepBad := true;
      }
      progress := progress + 1;
      if progress >= s.length {
        FinishStep(now);
      }
    }

    method SerialReceived(data: seq<bv8>, now: int)
      requires Valid()
      modifies this
      ensures Valid() && State() == SerialBytes(steps, old(State()), now, data)
    {
      hide SerialByte, Finished, Armed;
      assert data[0..] == data;
      var i := 0;
      while i < |data|
        invariant 0 <= i <= |data| && Valid()
        invariant SerialBytes(steps, State(), now, data[i..]) == SerialBytes(steps, old(State()), now, data)
      {
        assert data[i..][1..] == data[i + 1..];
        if step >= |steps| {
          SayExhausted();
          return;
        }
        SerialOne(data[i], now);
        i := i + 1;
      }
    }

    method AdvanceTo(now: int) returns (sent: seq<seq<bv8>>)
      requires Valid()
      modifies this
      ensures Valid() && (State(), sent) == AdvanceOnce(steps, old(State()), now)
    {
      hide Finished;
      Arm(now);
      hide Armed;
      sent := [];
      ghost var start := State();
      ghost var all := AdvanceOnce(steps, old(State()), now);
      assert all == Advanced(steps, start, now);
      while step < |steps| && steps[step].kind == SerialOut && armed && dueAtUs <= now
        invariant Valid()
        invariant all.0 == Advanced(steps, State(), now).0
        invariant all.1 == sent + Advanced(steps, State(), now).1
        decreases |steps| - step
      {
        ghost var p := State();
        ghost var was := sent;
        var s := steps[step];
        sent := sent + [s.data];
        FinishStep(now);
        assert State().step == p.step + 1 by {
          FinishedMoves(steps, p, now);
        }
        assert Advanced(steps, p, now).1 == [s.data] + Advanced(steps, State(), now).1;
        assert was + ([s.data] + Advanced(steps, State(), now).1) == sent + Advanced(steps, State(), now).1;
      }
      assert Advanced(steps, State(), now) == (State(), []) && sent + [] == sent;
      assert (State(), sent) == all;
    }
  }

  lemma FinishedMoves(steps: seq<Step>, p: Player, now: int)
    requires WellFormed(steps)
    ensures Finished(steps, p, now).step == p.step + 1 && Finished(steps, p, now).mismatches == p.mismatches
  {
  }
}
