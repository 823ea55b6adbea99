/** An SD card over SPI: six-byte commands, a reply, one block in or out, and a write
    that lands only when its time has passed. */
module SdCard {
  import opened Wrappers
  import opened FatReader
  import opened SdImages

  const GO_IDLE: Byte := 0x40
  const SEND_IF_COND: Byte := 0x48
  const READ_SINGLE: Byte := 0x51
  const WRITE_SINGLE: Byte := 0x58

  const R1_IDLE: Byte := 0x01
  const R1_OK: Byte := 0x00
  const R1_ILLEGAL: Byte := 0x04
  const TOKEN_START: Byte := 0xFE
  const DATA_ACCEPTED: Byte := 0x05
  const NOTHING: Byte := 0xFF

  const WRITE_US: nat := 4000

  datatype Phase = Idle | Command | Reply | Read | WriteWait | Write | Busy

  datatype Card = Card(phase: Phase, after: Phase, selected: bool, initialised: bool, command: seq<Byte>,
                       block: nat, offset: nat, pending: Byte, doneUs: int, store: seq<Byte>, staging: seq<Byte>,
                       blocksRead: nat, blocksWritten: nat, rejected: nat)

  /** A power cycle keeps the blocks. */
  function Reset(c: Card): Card {
    Card(Idle, Command, false, false, [], 0, 0, NOTHING, 0, c.store, Zeros(512), 0, 0, 0)
  }

  /** What holds of a card at all times. */
  predicate Sane(c: Card) {
    && |c.store| == SIZE && |c.staging| == 512 && |c.command| < 6
    && (c.phase in {Read, WriteWait, Write, Busy} ==> c.block < BLOCKS)
    && (c.phase == Reply ==> c.after in {Command, Read, WriteWait} && (c.after != Command ==> c.block < BLOCKS))
    && (c.phase == Read ==> c.offset < 515) && (c.phase == Write ==> c.offset <= 513)
    && (c.phase in {Reply, Read, WriteWait, Write, Busy} ==> c.command == [])
    && (c.phase != Busy ==> (c.phase == Idle <==> !c.selected))
  }

  /** Chip select, active low. Releasing it drops the command or transfer under way; a card
      that is busy writing goes on. */
  function LineIn(c: Card, line: nat, level: nat): Card {
    var now := level == 0;
    if line != 0 || now == c.selected then c
    else c.(selected := now, command := [],
            phase := if c.phase == Busy then Busy else if now then Command else Idle)
  }

  function Address(command: seq<Byte>): nat
    requires |command| == 6
  {
    (command[1] as int) * 0x1000000 + (command[2] as int) * 0x10000 + (command[3] as int) * 0x100 + command[4] as int
  }

  /** What a complete command earns. */
  function Begin(c: Card, command: seq<Byte>): Card
    requires |command| == 6
  {
    var d := c.(block := Address(command), command := [], phase := Reply);
    var op := command[0];
    if op == GO_IDLE then d.(initialised := true, pending := R1_IDLE, after := Command)
    else if op == SEND_IF_COND then d.(pending := if c.initialised then R1_OK else R1_ILLEGAL, after := Command)
    else if op == READ_SINGLE || op == WRITE_SINGLE then
      if !c.initialised || d.block >= BLOCKS
      then d.(rejected := c.rejected + 1, pending := R1_ILLEGAL, after := Command)
      else d.(pending := R1_OK, offset := 0, after := if op == READ_SINGLE then Read else WriteWait)
    else d.(rejected := c.rejected + 1, pending := R1_ILLEGAL, after := Command)
  }

  /** One byte each way. */
  function Transfer(c: Card, mosi: Byte, now: int): (Card, Byte)
    requires Sane(c)
  {
    if !c.selected then (c, NOTHING)
    else
      match c.phase
      case Command =>
        if mosi == NOTHING then (c, NOTHING)
        else
          var command := c.command + [mosi];
          (if |command| == 6 then Begin(c, command) else c.(command := command), NOTHING)
      case Reply => (c.(pending := NOTHING, offset := 0, phase := c.after), c.pending)
      case Read => ReadByte(c)
      case WriteWait => (if mosi == TOKEN_START then c.(phase := Write, offset := 0) else c, NOTHING)
      case Write =>
        if c.offset < BLOCK then (c.(staging := c.staging[c.offset := mosi], offset := c.offset + 1), NOTHING)
        else if c.offset + 1 < BLOCK + 2 then (c.(offset := c.offset + 1), NOTHING)
        else (c.(offset := c.offset + 1, phase := Busy, doneUs := now + WRITE_US), DATA_ACCEPTED)
      case Busy => (c, 0)
      case Idle => (c, NOTHING)
  }

  /** A token, the block, and two filler bytes in the place of its checksum. */
  function ReadByte(c: Card): (Card, Byte)
    requires Sane(c) && c.phase == Read
  {
    if c.offset == 0 then (c.(offset := 1), TOKEN_START)
    else if c.offset - 1 < BLOCK then (c.(offset := c.offset + 1), c.store[c.block * BLOCK + c.offset - 1])
    else
      var d := c.(offset := c.offset + 1);
      (if d.offset >= BLOCK + 3 then d.(blocksRead := c.blocksRead + 1, phase := Command, pending := NOTHING)
       else d, NOTHING)
  }

  /** A write whose time has passed lands. */
  function Advance(c: Card, now: int): Card
    requires Sane(c)
  {
    if c.phase != Busy || now < c.doneUs then c
    else c.(store := Put(c.store, c.block * BLOCK, c.staging), blocksWritten := c.blocksWritten + 1,
            phase := if c.selected then Command else Idle, pending := NOTHING)
  }

  lemma StaySane(c: Card, mosi: Byte, now: int, line: nat, level: nat)
    requires Sane(c)
    ensures Sane(Transfer(c, mosi, now).0) && Sane(Advance(c, now)) && Sane(LineIn(c, line, level)) && Sane(Reset(c))
  {
  }

  // --- Runs ----------------------------------------------------------------

  datatype Act = Line(line: nat, level: nat) | Clock(mosi: Byte, now: int) | Tick(now: int) | PowerCycle

  /** A write on its way: the bytes clocked in since the card was selected, and the last
      of them as a command and what followed it. */
  datatype Program = Program(clocked: seq<Byte>, command: seq<Byte>, body: seq<Byte>, token: nat, block: nat,
                             data: seq<Byte>, accepted: int)

  /** A program that landed, and when. */
  datatype Landing = Landing(program: Program, at: int)

  /** The card with its past: what has been clocked in under this selection, and the
      programs accepted. */
  datatype World = World(card: Card, clocked: seq<Byte>, command: seq<Byte>, body: seq<Byte>, token: nat,
                         busy: Option<Program>, landed: seq<Landing>)

  function NonIdle(bytes: seq<Byte>): seq<Byte> {
    if bytes == [] then []
    else NonIdle(bytes[..|bytes| - 1]) + (if bytes[|bytes| - 1] == NOTHING then [] else [bytes[|bytes| - 1]])
  }

  predicate EndsWith(a: seq<Byte>, b: seq<Byte>) {
    |b| <= |a| && a[|a| - |b|..] == b
  }

  /** The one sequence that writes a block: a write command for a block of the card, its
      reply, a start token at the first chance, 512 bytes and two more, all under one
      selection. */
  predicate Legal(p: Program) {
    && EndsWith(p.clocked, p.command + p.body)
    && |NonIdle(p.command)| == 6 && NonIdle(p.command)[0] == WRITE_SINGLE
    && p.block == Address(NonIdle(p.command)) < BLOCKS
    && 1 <= p.token && |p.body| == p.token + 515 && p.body[p.token] == TOKEN_START
    && (forall i :: 1 <= i < p.token ==> p.body[i] != TOKEN_START)
    && p.data == p.body[p.token + 1..p.token + 513]
  }

  function Step(w: World, a: Act): World
    requires Sane(w.card)
  {
    match a
    case Line(line, level) =>
      var c := LineIn(w.card, line, level);
      if c.selected == w.card.selected then w.(card := c)
      else w.(card := c, clocked := [], command := [], body := [], token := 0)
    case Tick(now) =>
      var c := Advance(w.card, now);
      if c.blocksWritten == w.card.blocksWritten then w
      else if w.busy.None? then w.(card := c)
      else w.(card := c, landed := w.landed + [Landing(w.busy.value, now)], busy := None, command := [], body := [],
                  token := 0)
    case Clock(mosi, now) => Clocked(w, mosi, Transfer(w.card, mosi, now).0, now)
    case PowerCycle => w.(card := Reset(w.card), clocked := [], command := [], body := [], token := 0, busy := None)
  }

  /** Bookkeeping of one byte clocked in. */
  function Clocked(w: World, mosi: Byte, c: Card, now: int): World {
    if !w.card.selected then w.(card := c)
    else
      var u := w.(card := c, clocked := w.clocked + [mosi]);
      if w.card.phase == Command then u.(command := w.command + [mosi])
      else
        var body := w.body + [mosi];
        var v := u.(body := body, token := if w.card.phase == WriteWait && c.phase == Write then |w.body| else w.token);
        if w.card.phase != Busy && c.phase == Busy then
          v.(busy := Some(Program(u.clocked, w.command, body, w.token, c.block, c.staging, now)))
        else if c.phase == Command then v.(command := [], body := [], token := 0)
        else v
  }

  lemma StepSane(w: World, a: Act)
    requires Sane(w.card)
    ensures Sane(Step(w, a).card)
  {
    match a
    case Line(line, level) => StaySane(w.card, 0, 0, line, level);
    case Clock(mosi, now) => StaySane(w.card, mosi, now, 0, 0);
    case Tick(now) => StaySane(w.card, 0, now, 0, 0);
    case PowerCycle =>
  }

  function Run(w: World, acts: seq<Act>): World
    requires Sane(w.card)
    decreases |acts|
  {
    if acts == [] then w
    else
      StepSane(w, acts[0]);
      Run(Step(w, acts[0]), acts[1..])
  }

  /** The blocks after a list of landings. */
  function Landed(store: seq<Byte>, landed: seq<Landing>): (r: seq<Byte>)
    requires |store| == SIZE && forall i :: 0 <= i < |landed| ==> Legal(landed[i].program)
    ensures |r| == SIZE
    decreases |landed|
  {
    if landed == [] then store
    else
      var p := landed[|landed| - 1].program;
      assert Legal(landed[|landed| - 1].program);
      Put(Landed(store, landed[..|landed| - 1]), p.block * BLOCK, p.data)
  }

  predicate CommandIs(command: seq<Byte>, op: Byte, block: nat) {
    |NonIdle(command)| == 6 && NonIdle(command)[0] == op && block == Address(NonIdle(command))
  }

  /** The card's phase says what has been clocked in. */
  predicate Tracks(w: World)
    requires Sane(w.card)
  {
    var c := w.card;
    && EndsWith(w.clocked, w.command + w.body)
    && (c.phase == Command ==> NonIdle(w.command) == c.command && w.body == [])
    && (c.phase == Idle ==> w.command == [] && w.body == [])
    && (c.phase == Reply ==> w.body == [] && (c.after == WriteWait ==> CommandIs(w.command, WRITE_SINGLE, c.block)))
    && (c.phase == WriteWait ==>
          CommandIs(w.command, WRITE_SINGLE, c.block) && |w.body| >= 1 && NoToken(w.body, |w.body|))
    && (c.phase == Write ==>
          && CommandIs(w.command, WRITE_SINGLE, c.block)
          && 1 <= w.token && |w.body| == w.token + 1 + c.offset && w.body[w.token] == TOKEN_START
          && NoToken(w.body, w.token)
          && forall i :: 0 <= i < 512 && i < c.offset ==> c.staging[i] == w.body[w.token + 1 + i])
    && (c.phase == Busy <==> w.busy.Some?)
    && (c.phase == Busy ==>
          Legal(w.busy.value) && w.busy.value.block == c.block && w.busy.value.data == c.staging
          && c.doneUs == w.busy.value.accepted + WRITE_US)
  }

  predicate NoToken(body: seq<Byte>, end: nat)
    requires end <= |body|
  {
    forall i :: 1 <= i < end ==> body[i] != TOKEN_START
  }

  /** The blocks are the first ones with the landed writes applied in order; every landed
      write was the legal sequence, and its time had passed. */
  ghost predicate Explained(w: World, initial: seq<Byte>) {
    && Sane(w.card) && |initial| == SIZE && Tracks(w)
    && (forall i :: 0 <= i < |w.landed| ==> Legal(w.landed[i].program))
    && (forall i :: 0 <= i < |w.landed| ==> w.landed[i].at >= w.landed[i].program.accepted + WRITE_US)
    && w.card.store == Landed(initial, w.landed)
  }

  lemma NonIdleSnoc(bytes: seq<Byte>, b: Byte)
    ensures NonIdle(bytes + [b]) == NonIdle(bytes) + (if b == NOTHING then [] else [b])
  {
    assert (bytes + [b])[..|bytes|] == bytes;
  }

  lemma ClockTracks(w: World, mosi: Byte, now: int)
    requires Sane(w.card) && Tracks(w)
    ensures Sane(Step(w, Clock(mosi, now)).card) && Tracks(Step(w, Clock(mosi, now)))
  {
    StepSane(w, Clock(mosi, now));
    hide Sane;
    if w.card.selected {
      match w.card.phase
      case Command => CommandTracks(w, mosi, now);
      case Write => WriteTracks(w, mosi, now);
      case _ => PlainTracks(w, mosi, now);
    }
  }

  lemma EndsSnoc(a: seq<Byte>, b: seq<Byte>, c: seq<Byte>, x: Byte)
    requires EndsWith(a, b + c)
    ensures EndsWith(a + [x], b + (c + [x])) && (c == [] ==> EndsWith(a + [x], (b + [x]) + c))
            && EndsWith(a + [x], [] + [])
  {
    assert b + (c + [x]) == (b + c) + [x];
    if c == [] {
      assert (b + [x]) + c == (b + c) + [x];
    }
  }

  lemma CommandTracks(w: World, mosi: Byte, now: int)
    requires Sane(w.card) && Tracks(w) && w.card.selected && w.card.phase == Command
    ensures Sane(Step(w, Clock(mosi, now)).card) && Tracks(Step(w, Clock(mosi, now)))
  {
    EndsSnoc(w.clocked, w.command, w.body, mosi);
    StepSane(w, Clock(mosi, now));
    NonIdleSnoc(w.command, mosi);
    hide NonIdle, Address, Legal, EndsWith;
  }

  lemma PlainTracks(w: World, mosi: Byte, now: int)
    requires Sane(w.card) && Tracks(w) && w.card.selected && w.card.phase !in {Command, Write}
    ensures Sane(Step(w, Clock(mosi, now)).card) && Tracks(Step(w, Clock(mosi, now)))
  {
    EndsSnoc(w.clocked, w.command, w.body, mosi);
    StepSane(w, Clock(mosi, now));
    assert NonIdle([]) == [];
    hide NonIdle, Address, Legal, EndsWith;
  }

  lemma WriteTracks(w: World, mosi: Byte, now: int)
    requires Sane(w.card) && Tracks(w) && w.card.selected && w.card.phase == Write
    ensures Sane(Step(w, Clock(mosi, now)).card) && Tracks(Step(w, Clock(mosi, now)))
  {
    EndsSnoc(w.clocked, w.command, w.body, mosi);
    StepSane(w, Clock(mosi, now));
    hide NonIdle, Address, EndsWith;
    var c := w.card;
    var body := w.body + [mosi];
    if c.offset == BLOCK + 1 {
      assert c.staging == body[w.token + 1..w.token + 513];
    }
  }

  lemma LineTracks(w: World, line: nat, level: nat)
    requires Sane(w.card) && Tracks(w)
    ensures Sane(Step(w, Line(line, level)).card) && Tracks(Step(w, Line(line, level)))
  {
    StepSane(w, Line(line, level));
    NoneIdle();
    hide Legal, Address, NonIdle;
  }

  lemma TickTracks(w: World, now: int)
    requires Sane(w.card) && Tracks(w)
    ensures Sane(Step(w, Tick(now)).card) && Tracks(Step(w, Tick(now)))
  {
    StepSane(w, Tick(now));
    NoneIdle();
    hide Legal, Address, NonIdle, Put;
  }

  lemma PowerTracks(w: World)
    requires Sane(w.card) && Tracks(w)
    ensures Sane(Step(w, PowerCycle).card) && Tracks(Step(w, PowerCycle))
  {
    NoneIdle();
    hide Legal, Address, NonIdle;
  }

  lemma NoneIdle()
    ensures NonIdle([]) == [] && forall a: seq<Byte> :: EndsWith(a, [] + [])
  {
  }

  lemma LandedSnoc(initial: seq<Byte>, landed: seq<Landing>, l: Landing)
    requires |initial| == SIZE && Legal(l.program) && forall i :: 0 <= i < |landed| ==> Legal(landed[i].program)
    ensures forall i :: 0 <= i < |landed + [l]| ==> Legal((landed + [l])[i].program)
    ensures Landed(initial, landed + [l]) == Put(Landed(initial, landed), l.program.block * BLOCK, l.program.data)
  {
    hide Legal, Put;
    assert (landed + [l])[..|landed|] == landed;
  }

  lemma StepExplained(w: World, a: Act, initial: seq<Byte>)
    requires Explained(w, initial)
    ensures Explained(Step(w, a), initial)
  {
    hide Tracks, Legal, Sane;
    if a.Clock? {
      ClockTracks(w, a.mosi, a.now);
      ClockKeepsStore(w.card, a.mosi, a.now);
      hide Transfer;
    } else {
      match a {
        case Line(line, level) => LineTracks(w, line, level);
        case Tick(now) => TickTracks(w, now);
        case PowerCycle => PowerTracks(w);
      }
      if a.Tick? && w.card.phase == Busy && a.now >= w.card.doneUs {
        BusyIsLegal(w);
        LandedSnoc(initial, w.landed, Landing(w.busy.value, a.now));
      }
    }
  }

  lemma BusyIsLegal(w: World)
    requires Sane(w.card) && Tracks(w) && w.card.phase == Busy
    ensures w.busy.Some? && Legal(w.busy.value) && w.busy.value.block == w.card.block
            && w.busy.value.data == w.card.staging
    ensures w.card.doneUs == w.busy.value.accepted + WRITE_US
  {
  }

  lemma ClockKeepsStore(c: Card, mosi: Byte, now: int)
    requires Sane(c)
    ensures Transfer(c, mosi, now).0.store == c.store
  {
  }

  /** Storage is atomic. Over any run of selects, bytes, time and power cycles, the blocks
      hold exactly the legally sequenced writes whose time passed, in order: anything
      abandoned, refused or interrupted has changed nothing. */
  lemma {:induction false} BlocksAreTheLandedWrites(w: World, acts: seq<Act>, initial: seq<Byte>)
    requires Explained(w, initial)
    ensures Explained(Run(w, acts), initial)
    decreases |acts|
  {
    hide Explained, Step;
    if acts != [] {
      assert Sane(w.card) by {
        ExplainedSane(w, initial);
      }
      StepSane(w, acts[0]);
      StepExplained(w, acts[0], initial);
      BlocksAreTheLandedWrites(Step(w, acts[0]), acts[1..], initial);
    }
  }

  lemma ExplainedSane(w: World, initial: seq<Byte>)
    requires Explained(w, initial)
    ensures Sane(w.card)
  {
  }

  /** A card just powered, whatever its blocks hold, starts explained. */
  lemma FreshIsExplained(c: Card)
    requires |c.store| == SIZE
    ensures Explained(World(Reset(c), [], [], [], 0, None, []), c.store)
  {
  }

  // --- A block written and read back ---------------------------------------

  /** Bytes clocked in, each at its own moment. */
  function SendAt(c: Card, bytes: seq<Byte>, times: seq<int>): (r: (Card, seq<Byte>))
    requires Sane(c) && |times| == |bytes|
    ensures Sane(r.0) && |r.1| == |bytes|
    decreases |bytes|
  {
    if bytes == [] then (c, [])
    else
      StaySane(c, bytes[0], times[0], 0, 0);
      var (d, reply) := Transfer(c, bytes[0], times[0]);
      var (end, replies) := SendAt(d, bytes[1..], times[1..]);
      (end, [reply] + replies)
  }

  /** Bytes clocked in at one moment. */
  function Send(c: Card, bytes: seq<Byte>, now: int): (r: (Card, seq<Byte>))
    requires Sane(c)
    ensures Sane(r.0) && |r.1| == |bytes|
    decreases |bytes|
  {
    if bytes == [] then (c, [])
    else
      StaySane(c, bytes[0], now, 0, 0);
      var (d, reply) := Transfer(c, bytes[0], now);
      var (end, replies) := Send(d, bytes[1..], now);
      (end, [reply] + replies)
  }

  lemma {:induction false} SendAppend(c: Card, a: seq<Byte>, b: seq<Byte>, now: int)
    requires Sane(c)
    ensures Send(c, a + b, now).0 == Send(Send(c, a, now).0, b, now).0
    ensures Send(c, a + b, now).1 == Send(c, a, now).1 + Send(Send(c, a, now).0, b, now).1
    decreases |a|
  {
    if a == [] {
      assert a + b == b;
    } else {
      assert (a + b)[1..] == a[1..] + b;
      StaySane(c, a[0], now, 0, 0);
      var d := Transfer(c, a[0], now).0;
      hide Transfer;
      SendAppend(d, a[1..], b, now);
    }
  }

  lemma SendCons(c: Card, b: Byte, rest: seq<Byte>, now: int)
    requires Sane(c)
    ensures var (d, reply) := Transfer(c, b, now);
            && Sane(d) && Send(c, [b] + rest, now) == (Send(d, rest, now).0, [reply] + Send(d, rest, now).1)
  {
    StaySane(c, b, now, 0, 0);
    assert ([b] + rest)[1..] == rest;
    hide Transfer;
  }

  lemma {:induction false} BusyStays(c: Card, bytes: seq<Byte>, now: int)
    requires Sane(c) && c.selected && c.phase == Busy
    ensures Send(c, bytes, now).0 == c
    decreases |bytes|
  {
    if bytes != [] {
      BusyStays(c, bytes[1..], now);
    }
  }

  /** A byte's moment matters only where it starts a write's time. */
  lemma OneMoment(c: Card, b: Byte, t: int, now: int)
    requires Sane(c)
    ensures var d := Transfer(c, b, now).0;
            && d.selected == c.selected
            && (d.phase != Busy || c.phase == Busy ==> Transfer(c, b, t) == Transfer(c, b, now))
  {
  }

  /** Nothing depends on when the bytes come unless they start a write's time. */
  lemma {:induction false} TimesDoNotMatter(c: Card, bytes: seq<Byte>, times: seq<int>, now: int)
    requires Sane(c) && c.selected && |times| == |bytes| && Send(c, bytes, now).0.phase != Busy
    ensures SendAt(c, bytes, times) == Send(c, bytes, now)
    decreases |bytes|
  {
    hide Transfer;
    if bytes != [] {
      StaySane(c, bytes[0], now, 0, 0);
      var d := Transfer(c, bytes[0], now).0;
      OneMoment(c, bytes[0], times[0], now);
      if d.phase == Busy {
        BusyStays(d, bytes[1..], now);
      }
      TimesDoNotMatter(d, bytes[1..], times[1..], now);
    }
  }

  lemma {:induction false} SendAtAppend(c: Card, a: seq<Byte>, b: Byte, times: seq<int>)
    requires Sane(c) && |times| == |a| + 1
    ensures var (d, replies) := SendAt(c, a, times[..|a|]);
            var (e, reply) := Transfer(d, b, times[|a|]);
            SendAt(c, a + [b], times) == (e, replies + [reply])
    decreases |a|
  {
    if a == [] {
      assert a + [b] == [b] && [b][1..] == [];
      StaySane(c, b, times[0], 0, 0);
      var (d, reply) := Transfer(c, b, times[0]);
      assert SendAt(d, [], times[1..]) == (d, []) && [reply] + [] == [reply] == [] + [reply];
    } else {
      assert (a + [b])[1..] == a[1..] + [b] && times[..|a|][1..] == times[1..][..|a| - 1];
      StaySane(c, a[0], times[0], 0, 0);
      var d := Transfer(c, a[0], times[0]).0;
      hide Transfer;
      SendAtAppend(d, a[1..], b, times[1..]);
      var replies := SendAt(d, a[1..], times[1..][..|a| - 1]).1;
      var first := Transfer(c, a[0], times[0]).1;
      var last := Transfer(SendAt(c, a, times[..|a|]).0, b, times[|a|]).1;
      assert [first] + (replies + [last]) == ([first] + replies) + [last];
    }
  }

  /** Ready for a command. */
  predicate Ready(c: Card) {
    Sane(c) && c.selected && c.initialised && c.phase == Command && c.command == []
  }

  /** Nothing but idle bytes. */
  predicate Quiet(replies: seq<Byte>) {
    forall i :: 0 <= i < |replies| ==> replies[i] == 0xFF
  }

  lemma {:induction false} SendCommand(c: Card, command: seq<Byte>, now: int, k: nat)
    requires Sane(c) && c.selected && c.phase == Command && k < 6 == |command| && c.command == command[..k]
    requires forall i :: 0 <= i < 6 ==> command[i] != NOTHING
    ensures Send(c, command[k..], now).0 == Begin(c, command) && Quiet(Send(c, command[k..], now).1)
    decreases 6 - k
  {
    var d := Transfer(c, command[k], now).0;
    assert command[k..][1..] == command[k + 1..];
    assert command[..k] + [command[k]] == command[..k + 1];
    StaySane(c, command[k], now, 0, 0);
    if k == 5 {
      assert command[..6] == command;
      assert |command[6..]| == 0;
    } else {
      hide Begin;
      SendCommand(d, command, now, k + 1);
      BeginIgnores(c, command, command[..k + 1]);
    }
  }

  /** What a command earns: the initialisation its idle answer, a command the card can
      serve once initialised its success, any other a refusal, which is counted except
      for the interface check; and only a block command so granted moves on to a
      transfer, a read or a write as asked. */
  predicate Answered(c: Card, command: seq<Byte>, d: Card, replies: seq<Byte>)
    requires |command| == 6 && |replies| == 7
  {
    var block := command[0] in {0x51, 0x58};
    var granted := c.initialised && (command[0] == 0x48 || (block && Address(command) < BLOCKS));
    && Quiet(replies[..6])
    && replies[6] == (if command[0] == 0x40 then 0x01 else if granted then 0x00 else 0x04)
    && (d.phase == Read <==> command[0] == 0x51 && granted)
    && (d.phase == WriteWait <==> command[0] == 0x58 && granted)
    && (d.phase in {Read, WriteWait} || d.phase == Command)
    && (d.initialised <==> c.initialised || command[0] == 0x40) && d.store == c.store
    && d.rejected == c.rejected + (if granted || command[0] in {0x40, 0x48} then 0 else 1)
    && d.selected == c.selected && d.command == []
  }

  /** A command is answered exactly so, whenever its bytes come. */
  lemma AnsweredExactly(c: Card, command: seq<Byte>, gap: Byte, times: seq<int>)
    requires Sane(c) && c.selected && c.phase == Command && c.command == [] && |command| == 6 && |times| == 7
    requires forall i :: 0 <= i < 6 ==> command[i] != NOTHING
    ensures var (d, replies) := SendAt(c, command + [gap], times);
            Answered(c, command, d, replies)
  {
    hide Send, SendAt, Address;
    AnsweredAtOnce(c, command, gap, 0);
    TimesDoNotMatter(c, command + [gap], times, 0);
  }

  lemma AnsweredAtOnce(c: Card, command: seq<Byte>, gap: Byte, now: int)
    requires Sane(c) && c.selected && c.phase == Command && c.command == [] && |command| == 6
    requires forall i :: 0 <= i < 6 ==> command[i] != NOTHING
    ensures var (d, replies) := Send(c, command + [gap], now);
            Answered(c, command, d, replies)
  {
    assert command[0..] == command;
    SendCommand(c, command, now, 0);
    SendAppend(c, command, [gap], now);
    var b := Begin(c, command);
    SendCons(b, gap, [], now);
    assert [gap] + [] == [gap];
    var replies := Send(c, command + [gap], now).1;
    assert replies[..6] == Send(c, command, now).1;
    assert replies[6] == Send(b, [gap], now).1[0];
  }

  /** A card just powered and selected refuses the block commands, says it is idle when
      initialised, and is then ready for commands; its interface check succeeds from then
      on. */
  lemma Initialises(c: Card, command: seq<Byte>, check: seq<Byte>, gap: Byte, times: seq<int>, checkTimes: seq<int>)
    requires |c.store| == SIZE && |command| == 6 && |check| == 6 && |times| == 7 && |checkTimes| == 7
    requires command[0] == 0x40 && check[0] == 0x48 && (forall i :: 0 <= i < 6 ==> command[i] != NOTHING)
             && (forall i :: 0 <= i < 6 ==> check[i] != NOTHING)
    ensures var powered := LineIn(Reset(c), 0, 0);
            && Sane(powered) && SendAt(powered, check + [gap], checkTimes).1[6] == 0x04
            && var (idle, replies) := SendAt(powered, command + [gap], times);
               && replies[6] == 0x01 && Ready(idle) && idle.store == c.store
               && SendAt(idle, check + [gap], checkTimes).1[6] == 0x00
  {
    hide Send, SendAt, Address;
    var powered := LineIn(Reset(c), 0, 0);
    AnsweredExactly(powered, check, gap, checkTimes);
    AnsweredExactly(powered, command, gap, times);
    AnsweredExactly(SendAt(powered, command + [gap], times).0, check, gap, checkTimes);
  }

  lemma BeginIgnores(c: Card, command: seq<Byte>, partial: seq<Byte>)
    requires |command| == 6
    ensures Begin(c.(command := partial), command) == Begin(c, command)
  {
  }

  lemma {:induction false} SendWaits(c: Card, waits: seq<Byte>, now: int)
    requires Sane(c) && c.selected && c.phase == WriteWait && TOKEN_START !in waits
    ensures Send(c, waits, now).0 == c && Quiet(Send(c, waits, now).1)
    decreases |waits|
  {
    if waits != [] {
      assert waits[0] in waits;
      SendWaits(c, waits[1..], now);
    }
  }

  lemma {:induction false} SendData(c: Card, data: seq<Byte>, now: int)
    requires Sane(c) && c.selected && c.phase == Write && c.offset <= 512 && |data| == 512 - c.offset
    ensures Send(c, data, now).0 == c.(staging := c.staging[..c.offset] + data, offset := 512)
            && Quiet(Send(c, data, now).1)
    decreases |data|
  {
    if data == [] {
      assert c.staging[..512] + data == c.staging;
    } else {
      var d := Transfer(c, data[0], now).0;
      StaySane(c, data[0], now, 0, 0);
      SendData(d, data[1..], now);
      assert d.staging[..d.offset] + data[1..] == c.staging[..c.offset] + data;
    }
  }

  /** The bytes that write a block. */
  function WriteBytes(command: seq<Byte>, gap: Byte, waits: seq<Byte>, data: seq<Byte>, crc: seq<Byte>): seq<Byte> {
    command + ([gap] + (waits + ([TOKEN_START] + (data + crc))))
  }

  /** A success in the place of a command's answer, and idle bytes around it. */
  predicate Accepting(replies: seq<Byte>) {
    |replies| > 6 && replies[6] == 0x00 && Quiet(replies[..6]) && Quiet(replies[7..])
  }

  lemma SendTail(c: Card, data: seq<Byte>, b: Byte, now: int)
    requires Sane(c) && c.selected && c.phase == WriteWait && |data| == 512
    ensures Send(c, [TOKEN_START] + (data + [b]), now).0 == c.(phase := Write, offset := 513, staging := data)
            && Quiet(Send(c, [TOKEN_START] + (data + [b]), now).1)
  {
    var d := c.(phase := Write, offset := 0);
    var e := d.(staging := data, offset := 512);
    var f := d.(staging := data, offset := 513);
    assert Transfer(c, TOKEN_START, now) == (d, NOTHING) && Transfer(e, b, now) == (f, NOTHING);
    assert Sane(d) && Sane(e) && Sane(f) && Send(f, [], now) == (f, []);
    hide Transfer, Send, Sane;
    SendCons(c, TOKEN_START, data + [b], now);
    SendAppend(d, data, [b], now);
    SendData(d, data, now);
    assert d.staging[..0] + data == data;
    SendCons(e, b, [], now);
    assert [b] + [] == [b];
  }

  /** Up to its last byte, a write stages its block and nothing more, and is answered with
      the success of its command among idle bytes. */
  lemma WriteStages(c: Card, command: seq<Byte>, gap: Byte, waits: seq<Byte>, data: seq<Byte>, b: Byte, now: int)
    requires Ready(c) && |command| == 6 && (forall i :: 0 <= i < 6 ==> command[i] != NOTHING)
    requires command[0] == WRITE_SINGLE && Address(command) < BLOCKS && TOKEN_START !in waits && |data| == 512
    ensures var w := Send(c, WriteBytes(command, gap, waits, data, [b]), now).0;
            && w == c.(phase := Write, after := WriteWait, offset := 513, staging := data, block := Address(command),
                       pending := NOTHING)
            && Accepting(Send(c, WriteBytes(command, gap, waits, data, [b]), now).1)
  {
    var body := [TOKEN_START] + (data + [b]);
    SendCommand(c, command, now, 0);
    assert command[0..] == command;
    SendAppend(c, command, [gap] + (waits + body), now);
    var start := Begin(c, command);
    var ok := Transfer(start, gap, now).1;
    var w := c.(phase := WriteWait, after := WriteWait, offset := 0, block := Address(command), pending := NOTHING);
    assert Transfer(start, gap, now).0 == w;
    SendCons(start, gap, waits + body, now);
    hide Transfer, Begin, Address;
    SendAppend(w, waits, body, now);
    SendWaits(w, waits, now);
    SendTail(w, data, b, now);
    var before, answers := Send(c, command, now).1, Send(w, waits, now).1 + Send(w, body, now).1;
    assert Send(c, WriteBytes(command, gap, waits, data, [b]), now).1 == before + ([ok] + answers);
    assert (before + ([ok] + answers))[..6] == before && (before + ([ok] + answers))[7..] == answers;
  }

  /** A write command, any bytes until the token, the block and its two check bytes, each
      at its own moment: the command is answered with success, the last byte with the
      acceptance and every other with an idle byte; the card goes busy with the block
      staged, and lands it once its time has passed since the last of them. */
  lemma WriteLands(c: Card, command: seq<Byte>, gap: Byte, waits: seq<Byte>, data: seq<Byte>, crc: seq<Byte>,
                   times: seq<int>, later: int)
    requires Ready(c) && |command| == 6 && (forall i :: 0 <= i < 6 ==> command[i] != NOTHING)
    requires command[0] == WRITE_SINGLE && Address(command) < BLOCKS && TOKEN_START !in waits && |data| == 512
             && |crc| == 2
    requires |times| == |WriteBytes(command, gap, waits, data, crc)| && later >= times[|times| - 1] + WRITE_US
    ensures var (busy, replies) := SendAt(c, WriteBytes(command, gap, waits, data, crc), times);
            var done := Advance(busy, later);
            && Accepting(replies[..|replies| - 1]) && replies[|replies| - 1] == 0x05
            && busy.selected && busy.store == c.store && busy.phase == Busy
            && busy.doneUs == times[|times| - 1] + WRITE_US
            && Ready(done) && done.store == Put(c.store, Address(command) * BLOCK, data)
  {
    hide Send, SendAt, Address, Put;
    var init := WriteBytes(command, gap, waits, data, crc[..1]);
    var n := |init|;
    assert crc == crc[..1] + [crc[1]] && crc[..1] == [crc[0]];
    LastApart(command, gap, waits, data, crc);
    WriteStages(c, command, gap, waits, data, crc[0], 0);
    TimesDoNotMatter(c, init, times[..n], 0);
    SendAtAppend(c, init, crc[1], times);
    var replies := SendAt(c, WriteBytes(command, gap, waits, data, crc), times).1;
    assert replies[..|replies| - 1] == SendAt(c, init, times[..n]).1;
  }

  /** Acts that leave a busy card to its write: no power cycle, and no time past its end. */
  predicate WhileBusy(acts: seq<Act>, doneUs: int) {
    forall i :: 0 <= i < |acts| ==> !acts[i].PowerCycle? && (acts[i].Tick? ==> acts[i].now < doneUs)
  }

  /** A card writing a block answers every byte with zero while it is selected, whatever is
      clocked in, however often it is released and selected again, and at whatever
      moments, until the write lands; the next byte is then answered with an idle one. */
  lemma {:induction false} PollsUntilItLands(w: World, acts: seq<Act>, poll: Byte, at: int, later: int)
    requires Sane(w.card) && w.card.phase == Busy && WhileBusy(acts, w.card.doneUs) && later >= w.card.doneUs
    ensures var c := Run(w, acts).card;
            && c == w.card.(selected := c.selected)
            && Transfer(c, poll, at) == (c, if c.selected then 0x00 else 0xFF)
            && var landed := Advance(c, later);
               Sane(landed) && Transfer(landed, poll, at).1 == 0xFF
               && landed.store == Put(w.card.store, w.card.block * BLOCK, w.card.staging)
    decreases |acts|
  {
    hide Put;
    if acts == [] {
      StaySane(w.card, poll, later, 0, 0);
    } else {
      StepSane(w, acts[0]);
      BusyStep(w, acts[0]);
      hide Step, Transfer, Advance;
      PollsUntilItLands(Step(w, acts[0]), acts[1..], poll, at, later);
    }
  }

  lemma BusyStep(w: World, a: Act)
    requires Sane(w.card) && w.card.phase == Busy && !a.PowerCycle? && (a.Tick? ==> a.now < w.card.doneUs)
    ensures Step(w, a).card == w.card.(selected := Step(w, a).card.selected)
  {
  }

  lemma LastApart(command: seq<Byte>, gap: Byte, waits: seq<Byte>, data: seq<Byte>, crc: seq<Byte>)
    requires |crc| == 2
    ensures WriteBytes(command, gap, waits, data, crc) == WriteBytes(command, gap, waits, data, crc[..1]) + [crc[1]]
  {
    assert crc == crc[..1] + [crc[1]];
  }

  lemma ReadTail(c: Card, a: Byte, b: Byte, now: int)
    requires Sane(c) && c.selected && c.phase == Read && c.offset == 513
    ensures Send(c, [a, b], now) ==
            (c.(offset := 515, blocksRead := c.blocksRead + 1, phase := Command, pending := NOTHING),
             [NOTHING, NOTHING])
  {
    var d := c.(offset := 514);
    var e := c.(offset := 515, blocksRead := c.blocksRead + 1, phase := Command, pending := NOTHING);
    assert Transfer(c, a, now) == (d, NOTHING) && Transfer(d, b, now) == (e, NOTHING);
    assert Sane(e) && Send(e, [], now) == (e, []);
    hide Transfer;
    SendCons(c, a, [b], now);
    SendCons(d, b, [], now);
    assert [a] + [b] == [a, b] && [b] + [] == [b];
    var one: seq<Byte> := [NOTHING];
    assert one + [] == one && one + one == [NOTHING, NOTHING];
    assert Send(d, [b], now) == (e, one);
  }

  lemma ReadMiddle(c: Card, b: Byte, now: int)
    requires Sane(c) && c.selected && c.phase == Read && 1 <= c.offset <= 512
    ensures c.block * BLOCK + c.offset - 1 < |c.store|
    ensures Transfer(c, b, now) == (c.(offset := c.offset + 1), c.store[c.block * BLOCK + c.offset - 1])
  {
  }

  /** The bytes of a block coming back. */
  lemma {:induction false} ReadOut(c: Card, clocks: seq<Byte>, now: int)
    requires Sane(c) && c.selected && c.phase == Read && 1 <= c.offset <= 513 && |clocks| == 515 - c.offset
    ensures Send(c, clocks, now) ==
            (c.(offset := 515, blocksRead := c.blocksRead + 1, phase := Command, pending := NOTHING),
             c.store[c.block * BLOCK + c.offset - 1..c.block * BLOCK + BLOCK] + [NOTHING, NOTHING])
    decreases |clocks|
  {
    hide Transfer, Send;
    var end := c.block * BLOCK + BLOCK;
    if c.offset == 513 {
      assert clocks == [clocks[0], clocks[1]];
      ReadTail(c, clocks[0], clocks[1], now);
      assert c.store[end..end] + [NOTHING, NOTHING] == [NOTHING, NOTHING];
    } else {
      ReadMiddle(c, clocks[0], now);
      SendCons(c, clocks[0], clocks[1..], now);
      assert clocks == [clocks[0]] + clocks[1..];
      ReadOut(c.(offset := c.offset + 1), clocks[1..], now);
      var at := c.block * BLOCK + c.offset - 1;
      assert [c.store[at]] + (c.store[at + 1..end] + [NOTHING, NOTHING]) == c.store[at..end] + [NOTHING, NOTHING];
    }
  }

  /** A read command answers with the block the card holds, between its token and two
      check bytes, whatever is clocked in meanwhile and whenever. */
  lemma ReadAnswers(c: Card, command: seq<Byte>, gap: Byte, clocks: seq<Byte>, times: seq<int>)
    requires Ready(c) && |command| == 6 && (forall i :: 0 <= i < 6 ==> command[i] != NOTHING)
    requires command[0] == READ_SINGLE && Address(command) < BLOCKS && |clocks| == 515 && |times| == 522
    ensures var block := Address(command);
            var r := SendAt(c, command + ([gap] + clocks), times);
            && Ready(r.0) && r.0.store == c.store
            && r.1[6..] == [R1_OK, TOKEN_START] + c.store[block * BLOCK..block * BLOCK + BLOCK] + [NOTHING, NOTHING]
  {
    hide Send, SendAt, Address;
    ReadAtOnce(c, command, gap, clocks, 0);
    TimesDoNotMatter(c, command + ([gap] + clocks), times, 0);
  }

  lemma ReadAtOnce(c: Card, command: seq<Byte>, gap: Byte, clocks: seq<Byte>, now: int)
    requires Ready(c) && |command| == 6 && (forall i :: 0 <= i < 6 ==> command[i] != NOTHING)
    requires command[0] == READ_SINGLE && Address(command) < BLOCKS && |clocks| == 515
    ensures var block := Address(command);
            var r := Send(c, command + ([gap] + clocks), now);
            && Ready(r.0) && r.0.store == c.store
            && r.1[6..] == [R1_OK, TOKEN_START] + c.store[block * BLOCK..block * BLOCK + BLOCK] + [NOTHING, NOTHING]
  {
    var b := Begin(c, command);
    SendCommand(c, command, now, 0);
    assert command[0..] == command;
    SendAppend(c, command, [gap] + clocks, now);
    SendCons(b, gap, clocks, now);
    var (t, ok) := Transfer(b, gap, now);
    assert clocks == [clocks[0]] + clocks[1..];
    SendCons(t, clocks[0], clocks[1..], now);
    var (u, token) := Transfer(t, clocks[0], now);
    ReadOut(u, clocks[1..], now);
    var block := Address(command);
    assert [R1_OK] + ([TOKEN_START] + (c.store[block * BLOCK..block * BLOCK + BLOCK] + [NOTHING, NOTHING]))
        == [R1_OK, TOKEN_START] + c.store[block * BLOCK..block * BLOCK + BLOCK] + [NOTHING, NOTHING];
  }

  /** What a write command wrote, a read command of the same block reads, however the
      bytes of both are spread in time. */
  lemma WrittenBlockReadsBack(c: Card, write: seq<Byte>, read: seq<Byte>, gap: Byte, waits: seq<Byte>, data: seq<Byte>,
                              crc: seq<Byte>, clocks: seq<Byte>, times: seq<int>, later: int, readTimes: seq<int>)
    requires Ready(c) && |write| == 6 && (forall i :: 0 <= i < 6 ==> write[i] != NOTHING)
    requires |read| == 6 && (forall i :: 0 <= i < 6 ==> read[i] != NOTHING)
    requires write[0] == WRITE_SINGLE && read[0] == READ_SINGLE && Address(write) == Address(read) < BLOCKS
    requires TOKEN_START !in waits && |data| == 512 && |crc| == 2 && |clocks| == 515 && |readTimes| == 522
    requires |times| == |WriteBytes(write, gap, waits, data, crc)| && later >= times[|times| - 1] + WRITE_US
    ensures var done := Advance(SendAt(c, WriteBytes(write, gap, waits, data, crc), times).0, later);
            Ready(done)
            && SendAt(done, read + ([gap] + clocks), readTimes).1[6..] ==
               [R1_OK, TOKEN_START] + data + [NOTHING, NOTHING]
  {
    hide SendAt, Advance, WriteBytes, Address;
    WriteLands(c, write, gap, waits, data, crc, times, later);
    var done := Advance(SendAt(c, WriteBytes(write, gap, waits, data, crc), times).0, later);
    ReadAnswers(done, read, gap, clocks, readTimes);
    var at := Address(read) * BLOCK;
    assert done.store[at..at + BLOCK] == data;
  }
}
