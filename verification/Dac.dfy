/** DAC backend (dac_sensor.c): up to eight channels share one chip on one SPI peripheral. The
    reference state is the map of running chips; claims, chip records, channel masks, pool cells
    and semaphores are determined by it at every step of the staged setup. */
module Dac {
  import opened Wrappers
  import opened Modulo
  import opened Sensors
  import opened Wire
  import opened Spi

  const CHANNELS: nat := 8
  const POOL: nat := 16
  const CFG_SIZE: nat := 20
  const REFERENCE_MAX: nat := 2
  const CMD_WRITE: nat := 3
  const CMD_REF: nat := 8

  /** Clock, mode and pins of a chip; an absent LDAC line is the null pin. */
  datatype ChipCfg = ChipCfg(clock: nat, mode: nat, mosi: Pin, sck: Pin, cs: Pin, ldac: Pin)

  datatype Chip = Chip(cfg: ChipCfg, channels: set<nat>)

  /** Running chips by SPI peripheral. */
  type Live = map<nat, Chip>

  datatype Request = Request(periph: nat, cfg: ChipCfg, mosiAf: nat, sckAf: nat, channel: nat, reference: nat, value: nat)

  /** What the environment answers: a semaphore can be created, the reference and the channel
      transfer complete. */
  datatype Env = Env(sem: bool, reference: bool, write: bool)

  function Wanted(c: seq<byte>): Request
    requires |c| >= CFG_SIZE
  {
    Request(Read8(c, 0),
            ChipCfg(Read32(c, 1), Read8(c, 17), PinAt(c, 5), PinAt(c, 8), PinAt(c, 11), PinAt(c, 13)),
            Read8(c, 7), Read8(c, 10), Read8(c, 15), Read8(c, 16), Read16(c, 18))
  }

  predicate GoodChip(c: ChipCfg) {
    && c.clock != 0 && c.mode <= MODE_MAX && GoodPin(c.mosi) && GoodPin(c.sck) && GoodPin(c.cs)
    && (c.ldac.port != NO_PORT ==> GoodPin(c.ldac))
  }

  function MaxClock(p: nat): nat { if p == 0 then 42_000_000 else 21_000_000 }

  predicate GoodRequest(r: Request) {
    && r.periph < PERIPHS && GoodChip(r.cfg) && GoodAf(r.mosiAf) && GoodAf(r.sckAf)
    && r.channel < CHANNELS && r.reference <= REFERENCE_MAX && r.cfg.clock <= MaxClock(r.periph)
  }

  /** The configuration as the chip record keeps it: a disabled LDAC pin number is dropped. */
  function Kept(c: ChipCfg): ChipCfg {
    if c.ldac.port == NO_PORT then c.(ldac := Pin(NO_PORT, 0)) else c
  }

  function SamePins(a: ChipCfg, b: ChipCfg): bool {
    a.mosi == b.mosi && a.sck == b.sck && a.cs == b.cs && a.ldac == b.ldac
  }

  function Index(p: nat, c: nat): nat { p * CHANNELS + c }

  function PeriphOf(i: nat): nat { if i < CHANNELS then 0 else 1 }

  function ChannelOf(i: nat): nat { if i < CHANNELS then i else i - CHANNELS }

  predicate Running(live: Live, p: nat, c: nat) { p in live && c in live[p].channels }

  /** Whether pool entry `i` carries a live sensor. */
  predicate Has(live: Live, i: nat) { i < POOL && Running(live, PeriphOf(i), ChannelOf(i)) }

  function WithChannel(live: Live, p: nat, cfg: ChipCfg, c: nat): Live {
    if p in live then live[p := live[p].(channels := live[p].channels + {c})] else live[p := Chip(cfg, {c})]
  }

  function WithoutChannel(live: Live, p: nat, c: nat): Live
    requires p in live
  {
    if live[p].channels == {c} then live - {p} else live[p := live[p].(channels := live[p].channels - {c})]
  }

  /** Why a request cannot join the chip already running on its peripheral. */
  function JoinErr(chip: Chip, r: Request): Err {
    if chip.cfg.clock != r.cfg.clock || chip.cfg.mode != r.cfg.mode then DacClockMismatch
    else if !SamePins(chip.cfg, r.cfg) then DacPinMismatch
    else if r.channel in chip.channels then DacChannelInUse
    else Success
  }

  /** Why a chip cannot be brought up on an unused peripheral. */
  function OpenErr(slaves: map<nat, Tx>, r: Request, env: Env): Err {
    if !env.sem then OutOfResources
    else if r.periph in slaves then InvalidParameter
    else if r.reference != 0 && !env.reference then Internal
    else Success
  }

  /** A request in good order that fits the chip on its peripheral, if there is one. */
  function Granted(live: Live, slaves: map<nat, Tx>, table: Table, r: Request, env: Env): SetupResult<Live>
    requires ValidTable(table)
  {
    if r.periph !in live && OpenErr(slaves, r, env) != Success then Refused(live, table, OpenErr(slaves, r, env))
    else if !env.write then Refused(live, table, Internal)
    else Admit(live, WithChannel(live, r.periph, Kept(r.cfg), r.channel), table, ID_DAC, Index(r.periph, r.channel))
  }

  /** Setup in one step: the first objection, or the channel added and registered. */
  function SetupSpec(live: Live, slaves: map<nat, Tx>, table: Table, cfg: seq<byte>, env: Env): SetupResult<Live>
    requires ValidTable(table)
  {
    if |cfg| < CFG_SIZE then Refused(live, table, MalformedPayload)
    else
      var r := Wanted(cfg);
      if !GoodRequest(r) then Refused(live, table, InvalidParameter)
      else if r.periph in live && JoinErr(live[r.periph], r) != Success
      then Refused(live, table, JoinErr(live[r.periph], r))
      else Granted(live, slaves, table, r, env)
  }

  /** The words that bringing up a chip sends: the reference setup, unless the reference is external
      or the chip could not be opened. */
  function ReferenceWords(slaves: map<nat, Tx>, r: Request, env: Env): seq<(nat, seq<byte>)>
    requires GoodRequest(r)
  {
    if env.sem && r.periph !in slaves && r.reference != 0 then [(r.periph, Word(CMD_REF, 0, if r.reference == 2 then 3 else 1))]
    else []
  }

  /** The words an accepted request sends. */
  function GrantedWords(live: Live, slaves: map<nat, Tx>, r: Request, env: Env): seq<(nat, seq<byte>)>
    requires GoodRequest(r) && r.value < 0x1_0000
  {
    if r.periph in live then [(r.periph, Word(CMD_WRITE, r.channel, r.value))]
    else ReferenceWords(slaves, r, env)
         + if OpenErr(slaves, r, env) == Success then [(r.periph, Word(CMD_WRITE, r.channel, r.value))] else []
  }

  /** The words a setup sends. */
  function SetupWords(live: Live, slaves: map<nat, Tx>, c: seq<byte>, env: Env): seq<(nat, seq<byte>)> {
    if |c| < CFG_SIZE || !GoodRequest(Wanted(c)) then []
    else if Wanted(c).periph in live && JoinErr(live[Wanted(c).periph], Wanted(c)) != Success then []
    else GrantedWords(live, slaves, Wanted(c), env)
  }

  /** The word a SET_OUTPUT sends. */
  function OutputWords(live: Live, i: nat, values: seq<byte>): seq<(nat, seq<byte>)> {
    if Has(live, i) && |values| >= 2 then [(PeriphOf(i), Word(CMD_WRITE, ChannelOf(i), Read16(values, 0)))] else []
  }

  function SetOutputErr(live: Live, i: nat, values: seq<byte>, write: bool): Err {
    if !Has(live, i) then InvalidSensorId
    else if |values| < 2 then MalformedPayload
    else if !write then Internal
    else Success
  }

  function StopSpec(live: Live, i: nat): (Live, Err) {
    if !Has(live, i) then (live, InvalidSensorId)
    else (WithoutChannel(live, PeriphOf(i), ChannelOf(i)), Success)
  }

  /** A chip runs on an existing peripheral and carries at least one channel; its record keeps no
      pin number for a disabled LDAC. */
  ghost predicate DacInv(live: Live) {
    forall p :: p in live ==>
      p < PERIPHS && live[p].channels != {} && (forall c :: c in live[p].channels ==> c < CHANNELS)
      && GoodChip(live[p].cfg) && Kept(live[p].cfg) == live[p].cfg
  }

  /** A request that repeats the running chip's configuration, up to the pin number given for a
      disabled LDAC, is refused with a pin mismatch if and only if that number is not 0. */
  lemma DisabledLdacMismatch(live: Live, slaves: map<nat, Tx>, table: Table, cfg: seq<byte>, env: Env, num: nat)
    requires DacInv(live) && ValidTable(table) && |cfg| >= CFG_SIZE && GoodRequest(Wanted(cfg)) && Wanted(cfg).periph in live
    requires live[Wanted(cfg).periph].cfg.ldac.port == NO_PORT
    requires Wanted(cfg).cfg == live[Wanted(cfg).periph].cfg.(ldac := Pin(NO_PORT, num))
    ensures SetupSpec(live, slaves, table, cfg, env).err == DacPinMismatch <==> num != 0
  {
    hide GoodChip, Wanted;
    RegisterSucceeds(table, Entry(ID_DAC, Index(Wanted(cfg).periph, Wanted(cfg).channel)));
  }

  /** The configuration block of channel `ch` with LDAC disabled and the pin number left at 5. */
  function Block(ch: byte): seq<byte> {
    [0, 64, 66, 15, 0, 0, 7, 5, 0, 5, 5, 0, 4, 0xFF, 5, ch, 0, 1, 0, 0]
  }

  const BLOCK_CHIP := ChipCfg(1_000_000, 1, Pin(0, 7), Pin(0, 5), Pin(0, 4), Pin(0xFF, 5))

  lemma BlockIs(ch: byte)
    requires ch as nat < CHANNELS
    ensures |Block(ch)| >= CFG_SIZE && Wanted(Block(ch)) == Request(0, BLOCK_CHIP, 5, 5, ch as nat, 0, 0)
    ensures GoodRequest(Wanted(Block(ch)))
  {}

  /** So the second channel of a chip cannot be set up with the block that set up the first. */
  lemma SameBlockRefused(env: Env)
    requires env.sem && env.write
    ensures var first := SetupSpec(map[], map[], Table(map[], 1), Block(0), env);
      first.err == Success && SetupSpec(first.live, map[], first.table, Block(1), env).err == DacPinMismatch
  {
    BlockIs(0);
    BlockIs(1);
    hide Block, Wanted, GoodRequest;
    RegisterSucceeds(Table(map[], 1), Entry(ID_DAC, 0));
    var first := SetupSpec(map[], map[], Table(map[], 1), Block(0), env);
    assert first.live == map[0 := Chip(Kept(BLOCK_CHIP), {0})];
  }

  lemma SetupKeepsInv(live: Live, slaves: map<nat, Tx>, table: Table, cfg: seq<byte>, env: Env)
    requires DacInv(live) && ValidTable(table)
    ensures DacInv(SetupSpec(live, slaves, table, cfg, env).live)
  {}

  lemma StopKeepsInv(live: Live, i: nat)
    requires DacInv(live)
    ensures DacInv(StopSpec(live, i).0)
  {
    if Has(live, i) {
      var p, c := PeriphOf(i), ChannelOf(i);
      if live[p].channels != {c} {
        assert exists d :: d in live[p].channels && d != c;
        var d :| d in live[p].channels && d != c;
        assert d in live[p].channels - {c};
      }
    }
  }

  // ---------------------------------------------------------------- the 32-bit command word

  /** The four bytes of a DAC8568 command word, most significant first. */
  function Word(cmd: nat, addr: nat, data: nat): (w: seq<byte>)
    requires cmd < 16 && addr < 16 && data < 0x1_0000
    ensures |w| == 4
  {
    var frame := cmd * 0x100_0000 + addr * 0x10_0000 + data * 0x10;
    [(frame / 0x100_0000) as byte, (frame / 0x1_0000 % 0x100) as byte, (frame / 0x100 % 0x100) as byte, (frame % 0x100) as byte]
  }

  /** What the chip decodes: command, address and data fields. */
  function Decoded(w: seq<byte>): (nat, nat, nat)
    requires |w| == 4
  {
    (w[0] as nat % 16, w[1] as nat / 16, (w[1] as nat % 16) * 0x1000 + w[2] as nat * 0x10 + w[3] as nat / 16)
  }

  lemma WordBytes(cmd: nat, addr: nat, hi: nat, mid: nat, lo: nat)
    requires cmd < 16 && addr < 16 && hi < 16 && mid < 256 && lo < 16
    ensures Word(cmd, addr, hi * 0x1000 + mid * 0x10 + lo) ==
            [cmd as byte, (addr * 16 + hi) as byte, mid as byte, (lo * 16) as byte]
  {
    var frame := cmd * 0x100_0000 + (addr * 16 + hi) * 0x1_0000 + mid * 0x100 + lo * 16;
    var top := cmd * 0x100 + (addr * 16 + hi);
    DivUnique(frame, 0x100_0000, cmd, (addr * 16 + hi) * 0x1_0000 + mid * 0x100 + lo * 16);
    DivUnique(frame, 0x1_0000, top, mid * 0x100 + lo * 16);
    DivUnique(top, 0x100, cmd, addr * 16 + hi);
    DivUnique(frame, 0x100, top * 0x100 + mid, lo * 16);
    DivUnique(top * 0x100 + mid, 0x100, top, mid);
  }

  lemma WordRoundTrip(cmd: nat, addr: nat, data: nat)
    requires cmd < 16 && addr < 16 && data < 0x1_0000
    ensures Decoded(Word(cmd, addr, data)) == (cmd, addr, data)
  {
    var rest := data % 0x1000;
    WordBytes(cmd, addr, data / 0x1000, rest / 0x10, rest % 0x10);
    hide Word;
    DivUnique(addr * 16 + data / 0x1000, 16, addr, data / 0x1000);
  }

  // ---------------------------------------------------------------- tables determined by the running chips

  datatype ChipState = ChipState(on: bool, periph: nat, cfg: ChipCfg, ldacOn: bool, mask: bv16, sem: nat, tx: seq<byte>)

  const DEAD := ChipState(false, 0, ChipCfg(0, 0, Pin(0, 0), Pin(0, 0), Pin(0, 0), Pin(0, 0)), false, 0, 0, [0, 0, 0, 0])

  datatype Cell = Cell(inUse: bool, periph: nat, channel: nat)

  datatype Tables = Tables(chips: seq<ChipState>, cells: seq<Cell>, ports: seq<Port>, sems: set<nat>)

  /** The mask has exactly the bits of the channels. */
  ghost predicate MaskOk(m: bv16, channels: set<nat>) {
    forall c :: 0 <= c < 16 ==> (HasBit(m, c) <==> c in channels)
  }

  ghost predicate ChipAgrees(p: nat, s: ChipState, live: Live) {
    && (s.on <==> p in live)
    && (!s.on ==> s.mask == 0)
    && (p in live ==> s.periph == p && s.cfg == live[p].cfg && (s.ldacOn <==> s.cfg.ldac.port != NO_PORT)
                      && MaskOk(s.mask, live[p].channels))
  }

  ghost predicate ChipsAgree(chips: seq<ChipState>, live: Live) {
    |chips| == PERIPHS && forall p :: 0 <= p < PERIPHS ==> ChipAgrees(p, chips[p], live)
  }

  ghost predicate CellsAgree(cells: seq<Cell>, live: Live) {
    && |cells| == POOL
    && forall i :: 0 <= i < POOL ==>
         (cells[i].inUse <==> Has(live, i)) && (Has(live, i) ==> cells[i] == Cell(true, PeriphOf(i), ChannelOf(i)))
  }

  /** A peripheral is claimed by the master driver exactly when its chip runs. */
  ghost predicate PortsAgree(ports: seq<Port>, live: Live) {
    PortsOk(ports) && MastersOf(ports) == live.Keys
  }

  ghost function SemOf(chips: seq<ChipState>, live: Live, p: nat): set<nat>
    requires p < |chips|
  {
    if p in live then {chips[p].sem} else {}
  }

  /** One semaphore per running chip and no other. */
  ghost predicate SemsAgree(sems: set<nat>, chips: seq<ChipState>, live: Live) {
    && |chips| == PERIPHS && sems == SemOf(chips, live, 0) + SemOf(chips, live, 1)
    && (0 in live && 1 in live ==> chips[0].sem != chips[1].sem)
  }

  ghost predicate LiveOk(live: Live) {
    forall p :: p in live ==> p < PERIPHS && (forall c :: c in live[p].channels ==> c < CHANNELS) && GoodChip(live[p].cfg)
  }

  /** Every table holds what the running chips determine; a chip may still be without channels
      in the middle of a command. */
  ghost predicate Agree(x: Tables, live: Live) {
    && LiveOk(live) && ChipsAgree(x.chips, live) && CellsAgree(x.cells, live) && PortsAgree(x.ports, live) && SemsAgree(x.sems, x.chips, live)
  }

  predicate Shape(x: Tables) {
    |x.chips| == PERIPHS && |x.cells| == POOL && |x.ports| == PERIPHS
  }

  function Opened(x: Tables, p: nat, cfg: ChipCfg, sem: nat): Tables
    requires Shape(x) && p < PERIPHS
  {
    x.(chips := x.chips[p := ChipState(true, p, cfg, cfg.ldac.port != NO_PORT, 0, sem, x.chips[p].tx)],
       ports := x.ports[p := x.ports[p].(owner := Some(Master), master := true)], sems := x.sems + {sem})
  }

  function TornDown(x: Tables, p: nat): Tables
    requires Shape(x) && p < PERIPHS
  {
    x.(chips := x.chips[p := x.chips[p].(on := false)],
       ports := x.ports[p := x.ports[p].(owner := None, master := false)], sems := x.sems - {x.chips[p].sem})
  }

  function Added(x: Tables, p: nat, c: nat): Tables
    requires Shape(x) && p < PERIPHS && c < CHANNELS
  {
    x.(chips := x.chips[p := x.chips[p].(mask := SetBit(x.chips[p].mask, c))],
       cells := x.cells[Index(p, c) := Cell(true, p, c)])
  }

  function Dropped(x: Tables, p: nat, c: nat): Tables
    requires Shape(x) && p < PERIPHS && c < CHANNELS
  {
    x.(chips := x.chips[p := x.chips[p].(mask := ClearBit(x.chips[p].mask, c))],
       cells := x.cells[Index(p, c) := x.cells[Index(p, c)].(inUse := false)])
  }

  /** A chip just brought up, with no channel yet. */
  function Bare(live: Live, p: nat, cfg: ChipCfg): Live { live[p := Chip(cfg, {})] }

  function Plus(live: Live, p: nat, c: nat): Live
    requires p in live
  {
    live[p := live[p].(channels := live[p].channels + {c})]
  }

  function Minus(live: Live, p: nat, c: nat): Live
    requires p in live
  {
    live[p := live[p].(channels := live[p].channels - {c})]
  }

  lemma EmptyMask(m: bv16, channels: set<nat>)
    requires MaskOk(m, channels) && forall c :: c in channels ==> c < CHANNELS
    ensures m == 0 <==> channels == {}
  {
    hide HasBit;
    NoBits(m);
    if channels != {} {
      var c :| c in channels;
      assert HasBit(m, c);
    }
  }

  lemma ZeroMask()
    ensures MaskOk(0, {})
  {
    hide HasBit;
    NoBits(0);
  }

  lemma OpenSems(x: Tables, live: Live, p: nat, cfg: ChipCfg, sem: nat)
    requires Shape(x) && SemsAgree(x.sems, x.chips, live) && p < PERIPHS && p !in live && sem !in x.sems
    ensures SemsAgree(Opened(x, p, cfg, sem).sems, Opened(x, p, cfg, sem).chips, Bare(live, p, cfg))
  {}

  lemma OpenPorts(x: Tables, live: Live, p: nat, cfg: ChipCfg, sem: nat)
    requires Shape(x) && PortsAgree(x.ports, live) && p < PERIPHS && p !in live && p !in SlavesOf(x.ports)
    ensures PortsAgree(Opened(x, p, cfg, sem).ports, Bare(live, p, cfg))
    ensures SlavesOf(Opened(x, p, cfg, sem).ports) == SlavesOf(x.ports)
  {
    assert p !in MastersOf(x.ports);
    assert x.ports[p] == IDLE;
    assert MastersOf(Opened(x, p, cfg, sem).ports) == live.Keys + {p};
  }

  lemma OpenChips(x: Tables, live: Live, p: nat, cfg: ChipCfg, sem: nat)
    requires Shape(x) && ChipsAgree(x.chips, live) && p < PERIPHS
    ensures ChipsAgree(Opened(x, p, cfg, sem).chips, Bare(live, p, cfg))
  {
    ZeroMask();
    hide MaskOk;
  }

  /** Nothing about the pool changes while a chip without channels comes or goes. */
  lemma SameCells(cells: seq<Cell>, live: Live, after: Live)
    requires CellsAgree(cells, live)
    requires forall p, c: nat :: Running(live, p, c) == Running(after, p, c)
    ensures CellsAgree(cells, after)
  {
    assert forall i :: 0 <= i < POOL ==> Has(after, i) == Has(live, i);
  }

  lemma OpenAgrees(x: Tables, live: Live, p: nat, cfg: ChipCfg, sem: nat)
    requires Agree(x, live) && p < PERIPHS && p !in live && p !in SlavesOf(x.ports) && sem !in x.sems && GoodChip(cfg)
    ensures Shape(x) && Agree(Opened(x, p, cfg, sem), Bare(live, p, cfg))
    ensures SlavesOf(Opened(x, p, cfg, sem).ports) == SlavesOf(x.ports)
  {
    hide GoodChip, SemsAgree, PortsAgree, ChipsAgree, CellsAgree, MaskOk, SetBit, ClearBit, HasBit;
    AgreeShape(x, live);
    OpenSems(x, live, p, cfg, sem);
    OpenPorts(x, live, p, cfg, sem);
    OpenChips(x, live, p, cfg, sem);
    SameCells(x.cells, live, Bare(live, p, cfg));
  }

  lemma AgreeShape(x: Tables, live: Live)
    requires Agree(x, live)
    ensures Shape(x)
  {}

  lemma TearPorts(x: Tables, live: Live, p: nat)
    requires Shape(x) && PortsAgree(x.ports, live) && p < PERIPHS && p in live
    ensures PortsAgree(TornDown(x, p).ports, live - {p})
    ensures SlavesOf(TornDown(x, p).ports) == SlavesOf(x.ports)
  {
    assert p in MastersOf(x.ports);
    assert x.ports[p] == MASTERED;
    assert MastersOf(TornDown(x, p).ports) == (live - {p}).Keys;
  }

  lemma TearSems(x: Tables, live: Live, p: nat)
    requires Shape(x) && SemsAgree(x.sems, x.chips, live) && p < PERIPHS && p in live
    ensures SemsAgree(TornDown(x, p).sems, TornDown(x, p).chips, live - {p})
  {}

  lemma TearChips(x: Tables, live: Live, p: nat)
    requires Shape(x) && ChipsAgree(x.chips, live) && p < PERIPHS && p in live && live[p].channels == {}
    ensures ChipsAgree(TornDown(x, p).chips, live - {p})
  {
    assert ChipAgrees(p, x.chips[p], live);
    EmptyMask(x.chips[p].mask, live[p].channels);
    hide MaskOk;
  }

  lemma TearAgrees(x: Tables, live: Live, p: nat)
    requires Agree(x, live) && p in live && live[p].channels == {}
    ensures Shape(x) && p < PERIPHS && Agree(TornDown(x, p), live - {p})
    ensures SlavesOf(TornDown(x, p).ports) == SlavesOf(x.ports)
  {
    hide GoodChip, SemsAgree, PortsAgree, ChipsAgree, CellsAgree, MaskOk, SetBit, ClearBit, HasBit;
    AgreeShape(x, live);
    TearSems(x, live, p);
    TearPorts(x, live, p);
    TearChips(x, live, p);
    SameCells(x.cells, live, live - {p});
  }

  lemma SetMask(m: bv16, channels: set<nat>, c: nat)
    requires MaskOk(m, channels) && c < 16
    ensures MaskOk(SetBit(m, c), channels + {c}) && MaskOk(ClearBit(m, c), channels - {c})
  {
    hide HasBit, SetBit, ClearBit;
    forall k: nat | k < 16
      ensures HasBit(SetBit(m, c), k) <==> k in channels + {c}
      ensures HasBit(ClearBit(m, c), k) <==> k in channels - {c}
    {
      SetBitIs(m, c, k);
      ClearBitIs(m, c, k);
    }
  }

  /** A mask and a set of channels change together; nothing else about the chips does. */
  lemma RemaskChips(chips: seq<ChipState>, live: Live, p: nat, m: bv16, channels: set<nat>)
    requires ChipsAgree(chips, live) && p < PERIPHS && p in live && MaskOk(m, channels)
    ensures ChipsAgree(chips[p := chips[p].(mask := m)], live[p := live[p].(channels := channels)])
  {
    hide MaskOk;
  }

  lemma RemaskSems(x: Tables, live: Live, p: nat, m: bv16, channels: set<nat>)
    requires SemsAgree(x.sems, x.chips, live) && p < PERIPHS && p in live
    ensures SemsAgree(x.sems, x.chips[p := x.chips[p].(mask := m)], live[p := live[p].(channels := channels)])
  {}

  lemma SamePorts(ports: seq<Port>, live: Live, after: Live)
    requires PortsAgree(ports, live) && live.Keys == after.Keys
    ensures PortsAgree(ports, after)
  {}

  lemma MaskOf(x: Tables, live: Live, p: nat)
    requires Agree(x, live) && p in live
    ensures p < PERIPHS == |x.chips| && MaskOk(x.chips[p].mask, live[p].channels)
  {
    hide MaskOk, GoodChip, CellsAgree, PortsAgree, SemsAgree;
    assert ChipAgrees(p, x.chips[p], live);
  }

  lemma AddAgrees(x: Tables, live: Live, p: nat, c: nat)
    requires Agree(x, live) && p in live && c < CHANNELS
    ensures Shape(x) && p < PERIPHS && Agree(Added(x, p, c), Plus(live, p, c))
  {
    hide GoodChip, SemsAgree, PortsAgree, ChipsAgree, CellsAgree, MaskOk, SetBit, ClearBit, HasBit;
    AgreeShape(x, live);
    MaskOf(x, live, p);
    SetMask(x.chips[p].mask, live[p].channels, c);
    RemaskChips(x.chips, live, p, SetBit(x.chips[p].mask, c), live[p].channels + {c});
    RemaskSems(x, live, p, SetBit(x.chips[p].mask, c), live[p].channels + {c});
    AddCells(x.cells, live, p, c);
    SamePorts(x.ports, live, Plus(live, p, c));
  }

  lemma AddCells(cells: seq<Cell>, live: Live, p: nat, c: nat)
    requires CellsAgree(cells, live) && p in live && p < PERIPHS && c < CHANNELS
    ensures CellsAgree(cells[Index(p, c) := Cell(true, p, c)], Plus(live, p, c))
  {
    assert forall i :: 0 <= i < POOL && i != Index(p, c) ==> Has(Plus(live, p, c), i) == Has(live, i);
  }

  lemma DropCells(cells: seq<Cell>, live: Live, p: nat, c: nat)
    requires CellsAgree(cells, live) && p in live && p < PERIPHS && c < CHANNELS
    ensures CellsAgree(cells[Index(p, c) := cells[Index(p, c)].(inUse := false)], Minus(live, p, c))
  {
    assert forall i :: 0 <= i < POOL && i != Index(p, c) ==> Has(Minus(live, p, c), i) == Has(live, i);
  }

  lemma DropAgrees(x: Tables, live: Live, p: nat, c: nat)
    requires Agree(x, live) && p in live && c < CHANNELS
    ensures Shape(x) && p < PERIPHS && Agree(Dropped(x, p, c), Minus(live, p, c))
  {
    hide GoodChip, SemsAgree, PortsAgree, ChipsAgree, CellsAgree, MaskOk, SetBit, ClearBit, HasBit;
    AgreeShape(x, live);
    MaskOf(x, live, p);
    SetMask(x.chips[p].mask, live[p].channels, c);
    RemaskChips(x.chips, live, p, ClearBit(x.chips[p].mask, c), live[p].channels - {c});
    RemaskSems(x, live, p, ClearBit(x.chips[p].mask, c), live[p].channels - {c});
    DropCells(x.cells, live, p, c);
    SamePorts(x.ports, live, Minus(live, p, c));
  }

  /** What the code reads from its tables. */
  lemma Lookups(x: Tables, live: Live, p: nat, c: nat)
    requires Agree(x, live) && p < PERIPHS && c < CHANNELS
    ensures Shape(x) && (x.chips[p].on <==> p in live)
    ensures x.cells[Index(p, c)].inUse <==> Running(live, p, c)
    ensures p in live ==>
      && x.chips[p].cfg == live[p].cfg && x.chips[p].periph == p
      && (HasBit(x.chips[p].mask, c) <==> c in live[p].channels)
      && (x.chips[p].mask == 0 <==> live[p].channels == {})
  {
    hide GoodChip, SemsAgree, PortsAgree, HasBit;
    AgreeShape(x, live);
    assert ChipAgrees(p, x.chips[p], live);
    assert Has(live, Index(p, c)) == Running(live, p, c);
    if p in live {
      EmptyMask(x.chips[p].mask, live[p].channels);
    }
  }

  function Wired(x: Tables, p: nat, w: seq<byte>): Tables
    requires p < |x.chips|
  {
    x.(chips := x.chips[p := x.chips[p].(tx := w)])
  }

  lemma WireAgrees(x: Tables, live: Live, p: nat, w: seq<byte>)
    requires Agree(x, live) && p in live
    ensures p < |x.chips| == PERIPHS && x.chips[p].periph == p && Agree(Wired(x, p, w), live)
  {
    hide MaskOk, GoodChip, CellsAgree, PortsAgree, SemsAgree;
    AgreeShape(x, live);
    assert ChipAgrees(p, x.chips[p], live);
    WireSems(x, live, p, w);
  }

  lemma WireSems(x: Tables, live: Live, p: nat, w: seq<byte>)
    requires SemsAgree(x.sems, x.chips, live) && p < |x.chips|
    ensures SemsAgree(x.sems, Wired(x, p, w).chips, live)
  {}

  lemma EmptyAgrees(x: Tables)
    requires Shape(x) && x.ports == [IDLE, IDLE] && x.sems == {}
    requires forall p :: 0 <= p < PERIPHS ==> x.chips[p] == DEAD
    requires forall i :: 0 <= i < POOL ==> x.cells[i] == Cell(false, 0, 0)
    ensures Agree(x, map[])
  {
    assert MastersOf(x.ports) == {};
  }

  lemma PortVerdict(x: Tables, live: Live, r: Request)
    requires Agree(x, live) && GoodRequest(r) && r.periph !in live
    ensures Shape(x) && GoodChip(Kept(r.cfg))
    ensures MasterInitErr(x.ports[r.periph], r.cfg.clock, r.cfg.mode) == if r.periph in SlavesOf(x.ports) then PeripheralBusy else Success
  {
    AgreeShape(x, live);
    assert r.periph !in MastersOf(x.ports);
  }

  lemma AgreeKeys(x: Tables, live: Live)
    requires Agree(x, live)
    ensures Shape(x) && forall p :: p in live ==> p < PERIPHS
  {}

  lemma CellIs(x: Tables, live: Live, i: nat)
    requires Agree(x, live) && Has(live, i)
    ensures Shape(x) && x.cells[i] == Cell(true, PeriphOf(i), ChannelOf(i))
  {}

  lemma PlusMinus(live: Live, p: nat, c: nat)
    requires p in live && c !in live[p].channels
    ensures p in Plus(live, p, c) && Minus(Plus(live, p, c), p, c) == live
  {
    assert live[p].channels + {c} - {c} == live[p].channels;
  }

  lemma PlusIsWith(live: Live, p: nat, cfg: ChipCfg, c: nat)
    ensures p in live ==> Plus(live, p, c) == WithChannel(live, p, cfg, c)
    ensures p !in live ==> p in Bare(live, p, cfg) && Bare(live, p, cfg)[p].channels == {}
    ensures p !in live ==> Plus(Bare(live, p, cfg), p, c) == WithChannel(live, p, cfg, c) && Bare(live, p, cfg) - {p} == live
  {
    assert {} + {c} == {c};
  }

  /** Only the claims of the master driver concern the chips. */
  lemma SlavesDoNotMatter(x: Tables, ports: seq<Port>, live: Live)
    requires Agree(x, live) && PortsOk(ports) && MastersOf(ports) == MastersOf(x.ports)
    ensures Agree(x.(ports := ports), live)
  {
    hide LiveOk, ChipsAgree, CellsAgree, SemsAgree;
  }

  lemma MastersRun(x: Tables, live: Live)
    requires Agree(x, live)
    ensures PortsOk(x.ports) && MastersOf(x.ports) == live.Keys
  {
    hide LiveOk, ChipsAgree, CellsAgree, SemsAgree;
  }

  lemma SameMask(a: bv16, b: bv16, channels: set<nat>)
    requires MaskOk(a, channels) && MaskOk(b, channels)
    ensures a == b
  {
    hide HasBit;
    SameBits(a, b);
  }

  /** Between commands a chip is initialised exactly if its channel mask is not zero, and bit c of
      its mask is set exactly if pool entry p*8+c is in use, for the chips that are off too. */
  lemma MasksAreExact(x: Tables, live: Live, p: nat, c: nat)
    requires Agree(x, live) && DacInv(live) && p < PERIPHS && c < 16
    ensures Shape(x) && (x.chips[p].on <==> x.chips[p].mask != 0)
    ensures HasBit(x.chips[p].mask, c) <==> c < CHANNELS && x.cells[Index(p, c)].inUse
  {
    hide GoodChip, SemsAgree, PortsAgree, HasBit;
    AgreeShape(x, live);
    assert ChipAgrees(p, x.chips[p], live);
    assert c < CHANNELS ==> Has(live, Index(p, c)) == Running(live, p, c);
    if p in live {
      EmptyMask(x.chips[p].mask, live[p].channels);
    } else {
      NoBits(0);
    }
  }

  /** The running chips and the slave buffers determine every claim, chip flag, channel mask and
      pool cell in use, and how many semaphores exist: a setup that fails, or a setup followed by
      stop, leaves all of them as they were. */
  lemma TablesAreDetermined(x: Tables, y: Tables, live: Live)
    requires Agree(x, live) && Agree(y, live) && SlavesOf(x.ports) == SlavesOf(y.ports)
    ensures Shape(x) && Shape(y) && x.ports == y.ports && |x.sems| == |live| == |y.sems|
    ensures forall p :: 0 <= p < PERIPHS ==> x.chips[p].on == y.chips[p].on && x.chips[p].mask == y.chips[p].mask
    ensures forall p :: 0 <= p < PERIPHS && x.chips[p].on ==>
              (x.chips[p].periph, x.chips[p].cfg) == (y.chips[p].periph, y.chips[p].cfg)
    ensures forall i :: 0 <= i < POOL ==>
              x.cells[i].inUse == y.cells[i].inUse && (x.cells[i].inUse ==> x.cells[i] == y.cells[i])
  {
    AgreeKeys(x, live);
    AgreeKeys(y, live);
    SamePort(x.ports, y.ports);
    SemCount(x, live);
    SemCount(y, live);
    hide MaskOk, PortsAgree, SemsAgree;
    forall p: nat | p < PERIPHS
      ensures x.chips[p].mask == y.chips[p].mask
    {
      if p in live {
        MaskOf(x, live, p);
        MaskOf(y, live, p);
        SameMask(x.chips[p].mask, y.chips[p].mask, live[p].channels);
      }
    }
  }

  /** What the DAC tables own: chips with their flag, mask and, when on, configuration; the pool
      entries in use; the claims; and the number of semaphores. */
  datatype Holding = Holding(chips: seq<(bool, bv16, Option<ChipCfg>)>, cells: seq<Option<(nat, nat)>>, ports: seq<Port>, sems: nat)

  function ChipHeld(s: ChipState): (bool, bv16, Option<ChipCfg>) {
    (s.on, s.mask, if s.on then Some(s.cfg) else None)
  }

  function CellHeld(x: Cell): Option<(nat, nat)> {
    if x.inUse then Some((x.periph, x.channel)) else None
  }

  ghost function Held(x: Tables): Holding {
    Holding(seq(|x.chips|, p requires 0 <= p < |x.chips| => ChipHeld(x.chips[p])),
            seq(|x.cells|, i requires 0 <= i < |x.cells| => CellHeld(x.cells[i])), x.ports, |x.sems|)
  }

  lemma HeldIsDetermined(x: Tables, y: Tables, live: Live)
    requires Agree(x, live) && Agree(y, live) && SlavesOf(x.ports) == SlavesOf(y.ports)
    ensures Held(x) == Held(y)
  {
    hide Agree;
    TablesAreDetermined(x, y, live);
  }

  lemma SemCount(x: Tables, live: Live)
    requires SemsAgree(x.sems, x.chips, live) && LiveOk(live)
    ensures |x.sems| == |live|
  {
    assert |live.Keys| == |live|;
    if 0 in live {
      if 1 in live {
        assert live.Keys == {0, 1};
      } else {
        assert live.Keys == {0};
      }
    } else if 1 in live {
      assert live.Keys == {1};
    } else {
      assert live.Keys == {};
    }
  }

  // ---------------------------------------------------------------- commands over payload bytes and tables

  function ClockAt(c: seq<byte>): nat
    requires |c| >= 20
  {
    c[1] as nat + 0x100 * c[2] as nat + 0x1_0000 * c[3] as nat + 0x100_0000 * c[4] as nat
  }

  /** Twenty bytes with every field in range: peripheral, clock up to 42 or 21 MHz, ports, pins and
      alternate functions, an LDAC pin or port 0xFF, channel, reference and SPI mode. */
  predicate FieldsOk(c: seq<byte>) {
    && |c| >= 20 && c[0] <= 1 && 1 <= ClockAt(c) <= (if c[0] == 0 then 42_000_000 else 21_000_000)
    && c[5] <= 5 && c[6] <= 15 && 1 <= c[7] <= 15
    && c[8] <= 5 && c[9] <= 15 && 1 <= c[10] <= 15
    && c[11] <= 5 && c[12] <= 15 && (c[13] == 0xFF || (c[13] <= 5 && c[14] <= 15))
    && c[15] <= 7 && c[16] <= 2 && c[17] <= 3
  }

  function PinOf(c: seq<byte>, i: nat): Pin
    requires i + 1 < |c|
  {
    Pin(c[i] as nat, c[i + 1] as nat)
  }

  predicate SameClock(s: ChipState, c: seq<byte>)
    requires FieldsOk(c)
  {
    s.cfg.clock == ClockAt(c) && s.cfg.mode == c[17] as nat
  }

  predicate SameLines(s: ChipState, c: seq<byte>)
    requires FieldsOk(c)
  {
    s.cfg.mosi == PinOf(c, 5) && s.cfg.sck == PinOf(c, 8) && s.cfg.cs == PinOf(c, 11) && s.cfg.ldac == PinOf(c, 13)
  }

  /** The word that turns the internal reference on: static, or flexible. */
  function RefWord(c: seq<byte>): (nat, seq<byte>)
    requires FieldsOk(c)
  {
    (c[0] as nat, [8, 0, 0, if c[16] == 2 then 0x30 else 0x10])
  }

  /** The word that writes the value with bytes `lo` and `hi` to a channel. */
  function ValueWord(p: nat, channel: byte, lo: byte, hi: byte): (nat, seq<byte>)
    requires channel <= 15
  {
    (p, [3, channel * 16 + hi / 16, hi % 16 * 16 + lo / 16, lo % 16 * 16])
  }

  /** What the tables own after a channel has been set up: its mask bit and pool entry; for a chip
      that was off also the configuration of the block, the claim and one semaphore. */
  ghost predicate Opens(x: Tables, y: Tables, c: seq<byte>)
    requires Shape(x) && Shape(y) && FieldsOk(c)
  {
    var p, ch := c[0] as nat, c[15] as nat;
    var s, s' := x.chips[p], y.chips[p];
    && s'.on && (forall k :: 0 <= k < 16 ==> (HasBit(s'.mask, k) <==> k == ch || HasBit(s.mask, k)))
    && s'.cfg == (if s.on then s.cfg else ChipCfg(ClockAt(c), c[17] as nat, PinOf(c, 5), PinOf(c, 8), PinOf(c, 11),
                                                if c[13] == 0xFF then Pin(0xFF, 0) else PinOf(c, 13)))
    && Held(y) == Holding(Held(x).chips[p := ChipHeld(s')], Held(x).cells[8 * p + ch := Some((p, ch))],
                          x.ports[p := Port(Some(Master), true, None)], |x.sems| + if s.on then 0 else 1)
  }

  /** The first objection to a block, or success. */
  function Verdict(x: Tables, room: bool, c: seq<byte>, env: Env): Err
    requires Shape(x)
  {
    if |c| < 20 then MalformedPayload
    else if !FieldsOk(c) then InvalidParameter
    else
      var s := x.chips[c[0]];
      if s.on && !SameClock(s, c) then DacClockMismatch
      else if s.on && !SameLines(s, c) then DacPinMismatch
      else if s.on && HasBit(s.mask, c[15] as nat) then DacChannelInUse
      else if !s.on && !env.sem then OutOfResources
      else if !s.on && x.ports[c[0]].owner.Some? then InvalidParameter
      else if !s.on && c[16] != 0 && !env.reference then Internal
      else if !env.write then Internal
      else if !room then OutOfResources
      else Success
  }

  /** The words sent on the way: none before the chip is open, then the reference unless external,
      then the initial value. */
  function WordsSent(x: Tables, c: seq<byte>, env: Env): seq<(nat, seq<byte>)>
    requires Shape(x)
  {
    if !FieldsOk(c) then []
    else
      var s := x.chips[c[0]];
      var value := ValueWord(c[0] as nat, c[15], c[18], c[19]);
      if s.on then
        if SameClock(s, c) && SameLines(s, c) && !HasBit(s.mask, c[15] as nat) then [value] else []
      else if !env.sem || x.ports[c[0]].owner.Some? then []
      else if c[16] == 0 then [value]
      else if env.reference then [RefWord(c), value]
      else [RefWord(c)]
  }

  /** A setup over payload bytes and tables: its answer, the words it sends, and what a success sets
      up; anything else leaves what the tables own as it was. */
  ghost predicate SetUp(x: Tables, y: Tables, room: bool, c: seq<byte>, env: Env, err: Err, sent: seq<(nat, seq<byte>)>)
    requires Shape(x) && Shape(y)
  {
    && err == Verdict(x, room, c, env) && sent == WordsSent(x, c, env)
    && if err == Success then FieldsOk(c) && Opens(x, y, c) else Held(y) == Held(x)
  }

  /** A new value over payload bytes: the word for the sensor's own chip and channel. */
  predicate Written(x: Tables, i: nat, v: seq<byte>, completes: bool, err: Err, sent: seq<(nat, seq<byte>)>)
    requires Shape(x) && i < POOL
  {
    if !x.cells[i].inUse then err == InvalidSensorId && sent == []
    else if |v| < 2 then err == MalformedPayload && sent == []
    else && err == (if completes then Success else Internal)
         && x.cells[i].channel <= 7
         && sent == [ValueWord(x.cells[i].periph, x.cells[i].channel as byte, v[0], v[1])]
  }

  /** A stop over the tables: mask bit and pool entry are given up, and with the last channel the
      chip, its claim and its semaphore. */
  ghost predicate Closes(x: Tables, y: Tables, i: nat, err: Err)
    requires Shape(x) && Shape(y) && i < POOL
  {
    if !x.cells[i].inUse then err == InvalidSensorId && Held(y) == Held(x)
    else
      var p, ch := i / 8, i % 8;
      var s, s' := x.chips[p], y.chips[p];
      && err == Success
      && (forall k :: 0 <= k < 16 ==> (HasBit(s'.mask, k) <==> k != ch && HasBit(s.mask, k)))
      && (s'.on <==> s'.mask != 0) && (s'.on ==> s'.cfg == s.cfg)
      && |x.sems| >= 1
      && Held(y) == Holding(Held(x).chips[p := ChipHeld(s')], Held(x).cells[i := None],
                            if s'.on then x.ports else x.ports[p := IDLE], |x.sems| - if s'.on then 0 else 1)
  }

  lemma FieldsAreWanted(c: seq<byte>)
    requires |c| >= CFG_SIZE
    ensures FieldsOk(c) <==> GoodRequest(Wanted(c))
    ensures var r := Wanted(c);
      && r.periph == c[0] as nat && r.channel == c[15] as nat && r.reference == c[16] as nat
      && r.value == c[18] as nat + 0x100 * c[19] as nat
      && r.cfg == ChipCfg(ClockAt(c), c[17] as nat, PinOf(c, 5), PinOf(c, 8), PinOf(c, 11), PinOf(c, 13))
  {}

  lemma RefWordIs(c: seq<byte>)
    requires FieldsOk(c) && c[16] != 0
    ensures RefWord(c) == (c[0] as nat, Word(CMD_REF, 0, if c[16] == 2 then 3 else 1))
    ensures Decoded(RefWord(c).1) == (8, 0, if c[16] == 2 then 3 else 1)
  {
    WordBytes(8, 0, 0, 0, if c[16] == 2 then 3 else 1);
  }

  lemma ValueWordIs(p: nat, channel: byte, lo: byte, hi: byte)
    requires channel <= 15
    ensures ValueWord(p, channel, lo, hi) == (p, Word(CMD_WRITE, channel as nat, lo as nat + 0x100 * hi as nat))
    ensures Decoded(ValueWord(p, channel, lo, hi).1) == (3, channel as nat, lo as nat + 0x100 * hi as nat)
  {
    var h, m, l := hi as nat / 16, hi as nat % 16 * 16 + lo as nat / 16, lo as nat % 16;
    assert h * 0x1000 + m * 0x10 + l == lo as nat + 0x100 * hi as nat;
    WordBytes(3, channel as nat, h, m, l);
    WordRoundTrip(3, channel as nat, lo as nat + 0x100 * hi as nat);
  }

  /** A peripheral without a running chip is claimed exactly by a slave. */
  lemma OwnerIs(x: Tables, live: Live, p: nat)
    requires Agree(x, live) && p < PERIPHS
    ensures Shape(x) && (p !in live ==> (x.ports[p].owner.Some? <==> p in SlavesOf(x.ports)))
    ensures p in live ==> x.ports[p] == MASTERED
    ensures p !in live && p !in SlavesOf(x.ports) ==> x.ports[p] == IDLE
  {
    hide LiveOk, ChipsAgree, CellsAgree, SemsAgree;
    AgreeShape(x, live);
    assert p in MastersOf(x.ports) <==> p in live;
  }

  lemma WordsAre(x: Tables, live: Live, c: seq<byte>, env: Env)
    requires Agree(x, live)
    ensures Shape(x) && SetupWords(live, SlavesOf(x.ports), c, env) == WordsSent(x, c, env)
  {
    hide Agree, SlavesOf, Word, HasBit, GoodRequest, Wanted;
    AgreeShape(x, live);
    if |c| >= CFG_SIZE {
      FieldsAreWanted(c);
      if FieldsOk(c) {
        Lookups(x, live, c[0] as nat, c[15] as nat);
        OwnerIs(x, live, c[0] as nat);
        if c[16] != 0 { RefWordIs(c); }
        ValueWordIs(c[0] as nat, c[15], c[18], c[19]);
        hide FieldsOk, RefWord, ValueWord;
      }
    }
  }

  lemma VerdictIs(x: Tables, live: Live, table: Table, c: seq<byte>, env: Env)
    requires Agree(x, live) && ValidTable(table)
    ensures Shape(x) && SetupSpec(live, SlavesOf(x.ports), table, c, env).err == Verdict(x, |table.live| < 8, c, env)
  {
    hide Agree, SlavesOf, HasBit, GoodRequest, Wanted;
    AgreeShape(x, live);
    if |c| >= CFG_SIZE {
      FieldsAreWanted(c);
      if FieldsOk(c) {
        Lookups(x, live, c[0] as nat, c[15] as nat);
        OwnerIs(x, live, c[0] as nat);
        GrantedErr(live, SlavesOf(x.ports), table, Wanted(c), env);
        hide FieldsOk, Granted, ValidTable, OpenErr;
      }
    }
  }

  lemma GrantedErr(live: Live, slaves: map<nat, Tx>, table: Table, r: Request, env: Env)
    requires ValidTable(table)
    ensures Granted(live, slaves, table, r, env).err ==
              if r.periph !in live && !env.sem then OutOfResources
              else if r.periph !in live && r.periph in slaves then InvalidParameter
              else if r.periph !in live && r.reference != 0 && !env.reference then Internal
              else if !env.write then Internal
              else if |table.live| >= 8 then OutOfResources
              else Success
  {
    RegisterSucceeds(table, Entry(ID_DAC, Index(r.periph, r.channel)));
    hide NextId;
  }

  /** A setup that succeeds adds the channel of the block; any other changes no chip. */
  lemma LiveAfter(live: Live, slaves: map<nat, Tx>, table: Table, c: seq<byte>, env: Env)
    requires ValidTable(table)
    ensures var r := SetupSpec(live, slaves, table, c, env);
      if r.err != Success then r.live == live
      else && |c| >= CFG_SIZE && GoodRequest(Wanted(c))
           && r.live == WithChannel(live, Wanted(c).periph, Kept(Wanted(c).cfg), Wanted(c).channel)
           && (Wanted(c).periph in live || Wanted(c).periph !in slaves)
  {
    hide GoodRequest, Wanted, WithChannel, Kept;
  }

  /** The reference setup, read as a contract over bytes and tables. */
  lemma SetUpIs(x: Tables, live: Live, table: Table, c: seq<byte>, env: Env, y: Tables, r: SetupResult<Live>)
    requires Agree(x, live) && ValidTable(table) && r == SetupSpec(live, SlavesOf(x.ports), table, c, env)
    requires Agree(y, r.live) && SlavesOf(y.ports) == SlavesOf(x.ports)
    ensures Shape(x) && Shape(y) && SetUp(x, y, |table.live| < 8, c, env, r.err, SetupWords(live, SlavesOf(x.ports), c, env))
  {
    hide Agree, SlavesOf, Held, Opens, GoodRequest, SetupWords, SetupSpec, Verdict, WordsSent, Wanted, FieldsOk, WithChannel, Kept;
    AgreeShape(x, live);
    AgreeShape(y, r.live);
    WordsAre(x, live, c, env);
    VerdictIs(x, live, table, c, env);
    LiveAfter(live, SlavesOf(x.ports), table, c, env);
    if r.err == Success {
      FieldsAreWanted(c);
      FieldsLength(c);
      OpensIs(x, live, c, y);
    } else {
      HeldIsDetermined(x, y, live);
    }
  }

  lemma FieldsLength(c: seq<byte>)
    requires FieldsOk(c)
    ensures |c| >= 20
  {}

  lemma FreshSem(s: set<nat>) returns (n: nat)
    ensures forall k :: k in s ==> k < n
    decreases s
  {
    n := 0;
    if s != {} {
      var k :| k in s;
      var m := FreshSem(s - {k});
      assert forall j :: j in s && j != k ==> j in s - {k};
      n := if m > k then m else k + 1;
    }
  }

  /** `z` is `x` with one more channel, on a chip opened with `cfg` if it was off. */
  predicate OneMore(x: Tables, z: Tables, p: nat, cfg: ChipCfg, ch: nat)
    requires Shape(x) && p < PERIPHS && ch < CHANNELS
  {
    && Shape(z) && z.cells == x.cells[Index(p, ch) := Cell(true, p, ch)]
    && z.chips == x.chips[p := z.chips[p]] && z.chips[p].on
    && z.chips[p].mask == SetBit(x.chips[p].mask, ch)
    && z.chips[p].cfg == (if x.chips[p].on then x.chips[p].cfg else cfg)
    && z.ports == x.ports[p := Port(Some(Master), true, None)]
    && |z.sems| == |x.sems| + if x.chips[p].on then 0 else 1
  }

  lemma JoinWitness(x: Tables, live: Live, p: nat, cfg: ChipCfg, ch: nat)
    requires Agree(x, live) && Shape(x) && p < PERIPHS && ch < CHANNELS && p in live
    ensures var z := Added(x, p, ch);
      && Agree(z, WithChannel(live, p, cfg, ch)) && SlavesOf(z.ports) == SlavesOf(x.ports) && OneMore(x, z, p, cfg, ch)
  {
    hide Agree, SlavesOf, SetBit, HasBit;
    PlusIsWith(live, p, cfg, ch);
    OwnerIs(x, live, p);
    Lookups(x, live, p, ch);
    AddAgrees(x, live, p, ch);
  }

  lemma OpenWitness(x: Tables, live: Live, p: nat, cfg: ChipCfg, ch: nat) returns (z: Tables)
    requires Agree(x, live) && Shape(x) && p < PERIPHS && ch < CHANNELS && p !in live && p !in SlavesOf(x.ports) && GoodChip(cfg)
    ensures Agree(z, WithChannel(live, p, cfg, ch)) && SlavesOf(z.ports) == SlavesOf(x.ports) && OneMore(x, z, p, cfg, ch)
  {
    hide Agree, SlavesOf, SetBit, HasBit, GoodChip;
    PlusIsWith(live, p, cfg, ch);
    OwnerIs(x, live, p);
    Lookups(x, live, p, ch);
    var sem := FreshSem(x.sems);
    OpenAgrees(x, live, p, cfg, sem);
    AddAgrees(Opened(x, p, cfg, sem), Bare(live, p, cfg), p, ch);
    BlankMask(x, live, p);
    z := Added(Opened(x, p, cfg, sem), p, ch);
  }

  /** What the tables own after one more channel. */
  lemma OneMoreHeld(x: Tables, live: Live, y: Tables, p: nat, cfg: ChipCfg, ch: nat)
    requires Agree(x, live) && Shape(x) && Shape(y) && p < PERIPHS && ch < CHANNELS && (p !in live ==> p !in SlavesOf(x.ports))
    requires GoodChip(cfg) && Agree(y, WithChannel(live, p, cfg, ch)) && SlavesOf(y.ports) == SlavesOf(x.ports)
    ensures var s, s' := x.chips[p], y.chips[p];
      && s'.on && s'.mask == SetBit(s.mask, ch) && s'.cfg == (if s.on then s.cfg else cfg)
      && Held(y) == Holding(Held(x).chips[p := ChipHeld(s')], Held(x).cells[Index(p, ch) := Some((p, ch))],
                            x.ports[p := Port(Some(Master), true, None)], |x.sems| + if s.on then 0 else 1)
  {
    hide Agree, SlavesOf, HasBit, SetBit, GoodChip, Held, WithChannel;
    var z := Added(x, p, ch);
    if p in live {
      JoinWitness(x, live, p, cfg, ch);
    } else {
      z := OpenWitness(x, live, p, cfg, ch);
    }
    HeldIsDetermined(z, y, WithChannel(live, p, cfg, ch));
    HeldChip(z, y, p);
    HeldAfter(x, z, p, Index(p, ch), Some((p, ch)));
  }

  lemma OpensIs(x: Tables, live: Live, c: seq<byte>, y: Tables)
    requires Agree(x, live) && FieldsOk(c) && Shape(x) && Shape(y) && |c| >= CFG_SIZE
    requires c[0] as nat in live || c[0] as nat !in SlavesOf(x.ports)
    requires Agree(y, WithChannel(live, c[0] as nat, Kept(Wanted(c).cfg), c[15] as nat)) && SlavesOf(y.ports) == SlavesOf(x.ports)
    ensures Opens(x, y, c)
  {
    FieldsAreWanted(c);
    var p, ch, cfg := c[0] as nat, c[15] as nat, Wanted(c).cfg;
    assert GoodChip(Kept(cfg)) && p < PERIPHS && ch < CHANNELS;
    assert Kept(cfg) == ChipCfg(ClockAt(c), c[17] as nat, PinOf(c, 5), PinOf(c, 8), PinOf(c, 11),
                                if c[13] == 0xFF then Pin(0xFF, 0) else PinOf(c, 13));
    hide *;
    OneMoreHeld(x, live, y, p, Kept(cfg), ch);
    MaskPlus(x.chips[p].mask, ch);
    OpensFrom(x, y, c);
  }

  lemma OpensFrom(x: Tables, y: Tables, c: seq<byte>)
    requires Shape(x) && Shape(y) && FieldsOk(c) && |c| >= CFG_SIZE && (c[0] as nat) < PERIPHS
    requires var p, ch := c[0] as nat, c[15] as nat;
      var s, s' := x.chips[p], y.chips[p];
      && s'.on && (forall k :: 0 <= k < 16 ==> (HasBit(s'.mask, k) <==> k == ch || HasBit(s.mask, k)))
      && s'.cfg == (if s.on then s.cfg else ChipCfg(ClockAt(c), c[17] as nat, PinOf(c, 5), PinOf(c, 8), PinOf(c, 11),
                                                  if c[13] == 0xFF then Pin(0xFF, 0) else PinOf(c, 13)))
      && ch < 8 && Index(p, ch) < |Held(x).cells| && p < |Held(x).chips|
      && Held(y) == Holding(Held(x).chips[p := ChipHeld(s')], Held(x).cells[Index(p, ch) := Some((p, ch))],
                            x.ports[p := Port(Some(Master), true, None)], |x.sems| + if s.on then 0 else 1)
    ensures Opens(x, y, c)
  {
    hide HasBit, Held, ChipHeld;
  }

  lemma MaskPlus(m: bv16, ch: nat)
    requires ch < 16
    ensures forall k :: 0 <= k < 16 ==> (HasBit(SetBit(m, ch), k) <==> k == ch || HasBit(m, k))
    ensures forall k :: 0 <= k < 16 ==> (HasBit(ClearBit(m, ch), k) <==> k != ch && HasBit(m, k))
  {
    hide HasBit, SetBit, ClearBit;
    forall k | 0 <= k < 16
      ensures HasBit(SetBit(m, ch), k) <==> k == ch || HasBit(m, k)
      ensures HasBit(ClearBit(m, ch), k) <==> k != ch && HasBit(m, k)
    {
      SetBitIs(m, ch, k);
      ClearBitIs(m, ch, k);
    }
  }

  /** `z` is `x` with one channel less, and without the chip if it was the last. */
  predicate OneLess(x: Tables, z: Tables, p: nat, ch: nat)
    requires Shape(x) && p < PERIPHS && ch < CHANNELS
  {
    var i := Index(p, ch);
    && Shape(z) && z.cells == x.cells[i := z.cells[i]] && !z.cells[i].inUse
    && z.chips == x.chips[p := z.chips[p]] && z.chips[p].mask == ClearBit(x.chips[p].mask, ch)
    && z.chips[p].cfg == x.chips[p].cfg && |x.sems| >= 1
    && z.ports == (if z.chips[p].on then x.ports else x.ports[p := Port(None, false, None)])
    && |z.sems| == |x.sems| - if z.chips[p].on then 0 else 1
  }

  lemma DropWitness(x: Tables, live: Live, p: nat, ch: nat) returns (z: Tables)
    requires Agree(x, live) && Shape(x) && p < PERIPHS && ch < CHANNELS && Running(live, p, ch)
    ensures Agree(z, WithoutChannel(live, p, ch)) && SlavesOf(z.ports) == SlavesOf(x.ports) && OneLess(x, z, p, ch)
  {
    hide Agree, SlavesOf, ClearBit, HasBit;
    OwnerIs(x, live, p);
    Lookups(x, live, p, ch);
    DropAgrees(x, live, p, ch);
    SemsOf(x, live, p);
    z := Dropped(x, p, ch);
    if live[p].channels == {ch} {
      assert Minus(live, p, ch)[p].channels == {};
      TearAgrees(z, Minus(live, p, ch), p);
      assert Minus(live, p, ch) - {p} == live - {p};
      z := TornDown(z, p);
    } else {
      assert Minus(live, p, ch) == WithoutChannel(live, p, ch);
    }
  }

  lemma SemsOf(x: Tables, live: Live, p: nat)
    requires Agree(x, live) && p in live
    ensures p < |x.chips| && x.chips[p].sem in x.sems && |x.sems| >= 1
  {
    hide LiveOk, ChipsAgree, CellsAgree, PortsAgree;
    AgreeKeys(x, live);
    assert x.chips[p].sem in x.sems;
  }

  lemma OneLessHeld(x: Tables, live: Live, y: Tables, p: nat, ch: nat)
    requires Agree(x, live) && Shape(x) && Shape(y) && p < PERIPHS && ch < CHANNELS && Running(live, p, ch)
    requires Agree(y, WithoutChannel(live, p, ch)) && SlavesOf(y.ports) == SlavesOf(x.ports)
    ensures var s, s' := x.chips[p], y.chips[p];
      && s'.mask == ClearBit(s.mask, ch) && (s'.on ==> s'.cfg == s.cfg) && |x.sems| >= 1
      && Held(y) == Holding(Held(x).chips[p := ChipHeld(s')], Held(x).cells[Index(p, ch) := None],
                            if s'.on then x.ports else x.ports[p := Port(None, false, None)], |x.sems| - if s'.on then 0 else 1)
  {
    hide Agree, SlavesOf, HasBit, ClearBit, Held;
    var z := DropWitness(x, live, p, ch);
    HeldIsDetermined(z, y, WithoutChannel(live, p, ch));
    HeldChip(z, y, p);
    HeldAfter(x, z, p, Index(p, ch), None);
  }

  /** The reference SET_OUTPUT, read as a contract over bytes and the pool. */
  lemma WrittenIs(x: Tables, live: Live, i: nat, v: seq<byte>, completes: bool)
    requires Agree(x, live) && i < POOL
    ensures Shape(x) && Written(x, i, v, completes, SetOutputErr(live, i, v, completes), OutputWords(live, i, v))
  {
    hide Agree, Word, ValueWord;
    AgreeShape(x, live);
    Lookups(x, live, PeriphOf(i), ChannelOf(i));
    if Has(live, i) && |v| >= 2 {
      CellIs(x, live, i);
      ValueWordIs(PeriphOf(i), ChannelOf(i) as byte, v[0], v[1]);
    }
  }

  /** The reference stop, read as a contract over the tables. */
  lemma ClosesIs(x: Tables, live: Live, y: Tables, i: nat)
    requires Agree(x, live) && DacInv(live) && i < POOL && Agree(y, StopSpec(live, i).0) && SlavesOf(y.ports) == SlavesOf(x.ports)
    ensures Shape(x) && Shape(y) && Closes(x, y, i, StopSpec(live, i).1)
  {
    hide Agree, SlavesOf, HasBit, ClearBit, Held, DacInv, Closes, WithoutChannel;
    AgreeShape(x, live);
    AgreeShape(y, StopSpec(live, i).0);
    Lookups(x, live, PeriphOf(i), ChannelOf(i));
    if Has(live, i) {
      StopKeepsInv(live, i);
      RunningCloses(x, live, y, PeriphOf(i), ChannelOf(i));
    } else {
      HeldIsDetermined(x, y, live);
      StaysClosed(x, y, i);
    }
  }

  lemma StaysClosed(x: Tables, y: Tables, i: nat)
    requires Shape(x) && Shape(y) && i < POOL && !x.cells[i].inUse && Held(x) == Held(y)
    ensures Closes(x, y, i, InvalidSensorId)
  {
    hide Held;
  }

  lemma RunningCloses(x: Tables, live: Live, y: Tables, p: nat, ch: nat)
    requires Agree(x, live) && Shape(x) && Shape(y) && p < PERIPHS && ch < CHANNELS && Running(live, p, ch)
    requires Agree(y, WithoutChannel(live, p, ch)) && DacInv(WithoutChannel(live, p, ch)) && SlavesOf(y.ports) == SlavesOf(x.ports)
    requires x.cells[Index(p, ch)].inUse
    ensures Closes(x, y, Index(p, ch), Success)
  {
    assert Index(p, ch) < POOL && Index(p, ch) / 8 == p && Index(p, ch) % 8 == ch;
    hide *;
    MasksAreExact(y, WithoutChannel(live, p, ch), p, ch);
    OneLessHeld(x, live, y, p, ch);
    MaskPlus(x.chips[p].mask, ch);
    ClosesFrom(x, y, p, ch, Index(p, ch));
  }

  lemma ClosesFrom(x: Tables, y: Tables, p: nat, ch: nat, i: nat)
    requires Shape(x) && Shape(y) && i < POOL && p < PERIPHS && i / 8 == p && i % 8 == ch && x.cells[i].inUse && |x.sems| >= 1
    requires var s, s' := x.chips[p], y.chips[p];
      && (forall k :: 0 <= k < 16 ==> (HasBit(s'.mask, k) <==> k != ch && HasBit(s.mask, k)))
      && (s'.on <==> s'.mask != 0) && (s'.on ==> s'.cfg == s.cfg)
      && i < |Held(x).cells| && p < |Held(x).chips|
      && Held(y) == Holding(Held(x).chips[p := ChipHeld(s')], Held(x).cells[i := None],
                            if s'.on then x.ports else x.ports[p := Port(None, false, None)], |x.sems| - if s'.on then 0 else 1)
    ensures Closes(x, y, i, Success)
  {
    hide HasBit, Held, ChipHeld;
  }

  /** What tables own that differ in one chip and one entry. */
  lemma HeldAfter(x: Tables, z: Tables, p: nat, i: nat, cell: Option<(nat, nat)>)
    requires p < |x.chips| && i < |x.cells| == |z.cells| && |z.chips| == |x.chips|
    requires z.chips == x.chips[p := z.chips[p]] && z.cells == x.cells[i := z.cells[i]] && CellHeld(z.cells[i]) == cell
    ensures Held(z) == Holding(Held(x).chips[p := ChipHeld(z.chips[p])], Held(x).cells[i := cell], z.ports, |z.sems|)
  {
    assert Held(z).chips == Held(x).chips[p := ChipHeld(z.chips[p])];
    assert Held(z).cells == Held(x).cells[i := cell];
  }

  lemma HeldChip(x: Tables, y: Tables, p: nat)
    requires Held(x) == Held(y) && p < |x.chips|
    ensures p < |y.chips| && ChipHeld(x.chips[p]) == ChipHeld(y.chips[p])
    ensures x.ports == y.ports && |x.sems| == |y.sems|
  {
    assert |Held(x).chips| == |Held(y).chips|;
    assert Held(x).chips[p] == Held(y).chips[p];
  }

  lemma BlankMask(x: Tables, live: Live, p: nat)
    requires Agree(x, live) && p < PERIPHS && p !in live
    ensures Shape(x) && x.chips[p].mask == 0
  {
    AgreeShape(x, live);
    hide LiveOk, CellsAgree, PortsAgree, SemsAgree;
    assert ChipAgrees(p, x.chips[p], live);
  }

  // ---------------------------------------------------------------- the backend object

  /** The RTOS semaphores in existence. */
  class Semaphores {
    ghost var live: set<nat>
    var next: nat

    ghost predicate Valid()
      reads this
    {
      forall h :: h in live ==> h < next
    }

    constructor ()
      ensures Valid() && live == {}
    {
      live, next := {}, 1;
    }

    method Create(available: bool) returns (h: Option<nat>)
      requires Valid()
      modifies this
      ensures Valid() && (h.Some? <==> available)
      ensures live == if available then old(live) + {h.value} else old(live)
      ensures available ==> h.value !in old(live)
    {
      if !available {
        return None;
      }
      h := Some(next);
      live, next := live + {next}, next + 1;
    }

    method Delete(h: nat)
      requires Valid()
      modifies this
      ensures Valid() && live == old(live) - {h}
    {
      live := live - {h};
    }
  }

  class DacBackend {
    const mgr: SensorManager
    const spi: SpiDriver
    const sems: Semaphores
    const chips: array<ChipState>
    const cells: array<Cell>

    /** The running chips by peripheral. */
    ghost var live: Live

    /** Every command word handed to the SPI driver so far, with its peripheral (history). */
    ghost var wire: seq<(nat, seq<byte>)>

    ghost function Snapshot(): Tables
      requires spi.Valid()
      reads spi, spi.claims, spi.masterOn, spi.slaves, sems, chips, cells
    {
      Tables(chips[..], cells[..], spi.View(), sems.live)
    }

    /** Tables and running chips agree; `Own` adds that every chip has a channel. */
    ghost predicate Tidy()
      reads this, spi, spi.claims, spi.masterOn, spi.slaves, sems, chips, cells
    {
      && chips.Length == PERIPHS && cells.Length == POOL
      && spi.Valid() && sems.Valid() && Agree(Snapshot(), live)
    }

    ghost predicate Consistent()
      reads this, mgr, mgr.slots, spi, spi.claims, spi.masterOn, spi.slaves, sems, chips, cells
    {
      mgr.Valid() && Tidy()
    }

    ghost predicate Own()
      reads this, spi, spi.claims, spi.masterOn, spi.slaves, sems, chips, cells
    {
      Tidy() && DacInv(live)
    }

    ghost predicate Valid()
      reads this, mgr, mgr.slots, spi, spi.claims, spi.masterOn, spi.slaves, sems, chips, cells
    {
      mgr.Valid() && Own()
    }

    constructor (mgr: SensorManager, spi: SpiDriver)
      requires mgr.Valid() && spi.Valid() && spi.View() == [IDLE, IDLE]
      ensures Valid() && this.mgr == mgr && this.spi == spi && live == map[]
      ensures fresh(cells) && fresh(chips) && fresh(sems)
    {
      hide Agree, Holds, ValidTable;
      this.mgr, this.spi := mgr, spi;
      sems := new Semaphores();
      chips := new ChipState[PERIPHS](_ => DEAD);
      cells := new Cell[POOL](_ => Cell(false, 0, 0));
      live, wire := map[], [];
      new;
      EmptyAgrees(Snapshot());
    }

    /** chip_write: one command word out; the environment says whether it completes. */
    method ChipWrite(p: nat, cmd: nat, addr: nat, data: nat, completes: bool) returns (err: Err)
      requires Consistent() && p in live && cmd < 16 && addr < 16 && data < 0x1_0000
      modifies this`wire, chips
      ensures Consistent() && p < PERIPHS && chips[p].tx == Word(cmd, addr, data)
      ensures wire == old(wire) + [(p, Word(cmd, addr, data))]
      ensures err == if completes then Success else Internal
    {
      hide Agree, Word;
      AgreeShape(Snapshot(), live);
      WireAgrees(Snapshot(), live, p, Word(cmd, addr, data));
      chips[p] := chips[p].(tx := Word(cmd, addr, data));
      wire := wire + [(p, Word(cmd, addr, data))];
      return if completes then Success else Internal;
    }

    // chip_teardown
    method Teardown(p: nat)
      requires Consistent() && p in live && live[p].channels == {}
      modifies this, chips, spi.claims, spi.masterOn, sems
      ensures Consistent() && live == old(live) - {p} && wire == old(wire)
      ensures SlavesOf(spi.View()) == old(SlavesOf(spi.View()))
    {
      hide Agree, SlavesOf, Holds, ValidTable;
      TearAgrees(Snapshot(), live, p);
      WireAgrees(Snapshot(), live, p, []);
      spi.MasterDeinit(chips[p].periph);
      sems.Delete(chips[p].sem);
      chips[p] := chips[p].(on := false);
      live := live - {p};
    }

    /** A semaphore and the peripheral, or neither. */
    method Reserve(p: nat, clock: nat, mode: nat, available: bool) returns (err: Err, sem: nat)
      requires spi.Valid() && sems.Valid() && p < PERIPHS
      modifies spi.claims, spi.masterOn, sems
      ensures spi.Valid() && sems.Valid()
      ensures err == if !available then OutOfResources
                     else if MasterInitErr(old(spi.View())[p], clock, mode) != Success then InvalidParameter else Success
      ensures err == Success ==>
                sem !in old(sems.live) && sems.live == old(sems.live) + {sem} &&
                spi.View() == old(spi.View())[p := old(spi.View())[p].(owner := Some(Master), master := true)]
      ensures err != Success ==> sems.live == old(sems.live) && spi.View() == old(spi.View())
    {
      sem := 0;
      var handle := sems.Create(available);
      if handle == None {
        return OutOfResources, sem;
      }
      sem := handle.value;
      err := spi.MasterInit(p, clock, mode);
      if err != Success {
        sems.Delete(sem);
        return InvalidParameter, sem;
      }
    }

    /** Reserves, then fills the chip record. */
    method Open(r: Request, available: bool) returns (err: Err)
      requires Consistent() && GoodRequest(r) && r.periph !in live
      modifies this, chips, spi.claims, spi.masterOn, sems
      ensures Consistent() && SlavesOf(spi.View()) == old(SlavesOf(spi.View()))
      ensures err == if !available then OutOfResources
                     else if r.periph in old(SlavesOf(spi.View())) then InvalidParameter else Success
      ensures live == if err == Success then Bare(old(live), r.periph, Kept(r.cfg)) else old(live)
      ensures wire == old(wire)
    {
      hide Agree, SlavesOf, Holds, ValidTable, MasterInitErr, GoodChip, SpiDriver.Valid, SpiDriver.View;
      var p := r.periph;
      ghost var x := Snapshot();
      PortVerdict(x, live, r);
      var sem;
      err, sem := Reserve(p, r.cfg.clock, r.cfg.mode, available);
      if err != Success {
        assert Snapshot() == x;
        return;
      }
      var on := r.cfg.ldac.port != NO_PORT;
      chips[p] := ChipState(true, p, Kept(r.cfg), on, 0, sem, chips[p].tx);
      OpenAgrees(x, live, p, Kept(r.cfg), sem);
      assert Snapshot() == Opened(x, p, Kept(r.cfg), sem);
      live := Bare(live, p, Kept(r.cfg));
    }

    /** Brings up a chip and, unless the reference is external, programs it. */
    method BringUp(r: Request, env: Env) returns (err: Err)
      requires Consistent() && GoodRequest(r) && r.periph !in live
      modifies this, chips, spi.claims, spi.masterOn, sems
      ensures Consistent() && SlavesOf(spi.View()) == old(SlavesOf(spi.View()))
      ensures err == OpenErr(old(SlavesOf(spi.View())), r, env)
      ensures live == if err == Success then Bare(old(live), r.periph, Kept(r.cfg)) else old(live)
      ensures wire == old(wire) + ReferenceWords(old(SlavesOf(spi.View())), r, env)
    {
      hide Agree, SlavesOf, GoodChip, Holds, ValidTable, Word, SpiDriver.Valid, SpiDriver.View, Kept;
      PlusIsWith(live, r.periph, Kept(r.cfg), 0);
      err := Open(r, env.sem);
      if err != Success {
        return;
      }
      if r.reference != 0 {
        err := ChipWrite(r.periph, CMD_REF, 0, if r.reference == 2 then 3 else 1, env.reference);
        if err != Success {
          Teardown(r.periph);
          return;
        }
      }
    }

    method AddChannel(p: nat, c: nat)
      requires Consistent() && p in live && c < CHANNELS
      modifies this, chips, cells
      ensures Consistent() && live == Plus(old(live), p, c)
      ensures p < PERIPHS && chips[p].tx == old(chips[p].tx) && wire == old(wire)
    {
      hide Agree, SetBit, Holds, ValidTable;
      AddAgrees(Snapshot(), live, p, c);
      chips[p] := chips[p].(mask := SetBit(chips[p].mask, c));
      cells[Index(p, c)] := Cell(true, p, c);
      live := Plus(live, p, c);
    }

    method DropChannel(p: nat, c: nat)
      requires Consistent() && p in live && c < CHANNELS
      modifies this, chips, cells
      ensures Consistent() && live == Minus(old(live), p, c) && wire == old(wire)
    {
      hide Agree, ClearBit, Holds, ValidTable;
      DropAgrees(Snapshot(), live, p, c);
      chips[p] := chips[p].(mask := ClearBit(chips[p].mask, c));
      cells[Index(p, c)] := cells[Index(p, c)].(inUse := false);
      live := Minus(live, p, c);
    }

    /** Undoes the last channel of a chip by tearing the chip down. */
    method CloseIfEmpty(p: nat)
      requires Consistent() && p in live
      modifies this, chips, spi.claims, spi.masterOn, sems
      ensures Consistent() && SlavesOf(spi.View()) == old(SlavesOf(spi.View()))
      ensures live == (if old(live)[p].channels == {} then old(live) - {p} else old(live)) && wire == old(wire)
    {
      hide Agree, SlavesOf, Holds, ValidTable, Index;
      AgreeKeys(Snapshot(), live);
      Lookups(Snapshot(), live, p, 0);
      if chips[p].mask == 0 {
        Teardown(p);
      }
    }

    /** The stages after the chip is up: first output, mask and pool cell, registration. */
    method Commit(p: nat, c: nat, value: nat, completes: bool) returns (err: Err, id: nat)
      requires Consistent() && p in live && c < CHANNELS && c !in live[p].channels && value < 0x1_0000
      modifies this, mgr, mgr.slots, chips, cells, spi.claims, spi.masterOn, sems
      ensures Consistent() && SlavesOf(spi.View()) == old(SlavesOf(spi.View()))
      ensures wire == old(wire) + [(p, Word(CMD_WRITE, c, value))]
      ensures err == if !completes then Internal else if |old(mgr.View()).live| >= SLOTS then OutOfResources else Success
      ensures err == Success ==>
                live == Plus(old(live), p, c) && p < PERIPHS && chips[p].tx == Word(CMD_WRITE, c, value)
                && (mgr.View(), id) == Registered(old(mgr.View()), Entry(ID_DAC, Index(p, c)))
      ensures err != Success ==>
                live == (if old(live)[p].channels == {} then old(live) - {p} else old(live))
                && id == 0 && mgr.View() == old(mgr.View())
      ensures SlotsMoved(old(mgr.slots[..]), mgr.slots[..], id)
    {
      hide Agree, SlavesOf, Holds, Word, Taken, Matches, NextId, SpiDriver.Valid, SpiDriver.View, Plus, Minus, LiveOk;
      PlusMinus(live, p, c);
      id := 0;
      err := ChipWrite(p, CMD_WRITE, c, value, completes);
      if err != Success {
        CloseIfEmpty(p);
        return;
      }
      AddChannel(p, c);
      RegisterSucceeds(mgr.View(), Entry(ID_DAC, Index(p, c)));
      id := mgr.Register(ID_DAC, Index(p, c));
      if id == 0 {
        DropChannel(p, c);
        assert live == old(live);
        CloseIfEmpty(p);
        err := OutOfResources;
      }
    }

    /** Joins or brings up the chip of an accepted request, then adds the channel. */
    method Proceed(r: Request, env: Env) returns (err: Err, id: nat)
      requires Valid() && GoodRequest(r) && r.value < 0x1_0000
      requires r.periph in live ==> JoinErr(live[r.periph], r) == Success
      modifies this, mgr, mgr.slots, chips, cells, spi.claims, spi.masterOn, sems
      ensures Consistent() && SlavesOf(spi.View()) == old(SlavesOf(spi.View()))
      ensures SetupResult(live, mgr.View(), err, id) == old(Granted(live, SlavesOf(spi.View()), mgr.View(), r, env))
      ensures SlotsMoved(old(mgr.slots[..]), mgr.slots[..], id)
      ensures err == Success ==> chips[r.periph].tx == Word(CMD_WRITE, r.channel, r.value)
      ensures wire == old(wire) + old(GrantedWords(live, SlavesOf(spi.View()), r, env))
    {
      hide Agree, SlavesOf, Holds, Word, HasBit, SpiDriver.Valid, SpiDriver.View, GoodChip, Plus, WithChannel,
           Bare, NextId, ReferenceWords, OpenErr, Kept, ValidTable, SensorManager.View;
      id := 0;
      Lookups(Snapshot(), live, r.periph, r.channel);
      PlusIsWith(live, r.periph, Kept(r.cfg), r.channel);
      if !chips[r.periph].on {
        err := BringUp(r, env);
        if err != Success {
          return;
        }
      }
      err, id := Commit(r.periph, r.channel, r.value, env.write);
    }

    // dac_sensor_setup
    method Setup(cfg: seq<byte>, env: Env) returns (err: Err, id: nat)
      requires Valid()
      modifies this, mgr, mgr.slots, chips, cells, spi.claims, spi.masterOn, sems
      ensures Valid()
      ensures SetupResult(live, mgr.View(), err, id) == old(SetupSpec(live, SlavesOf(spi.View()), mgr.View(), cfg, env))
      ensures SlotsMoved(old(mgr.slots[..]), mgr.slots[..], id)
      ensures SlavesOf(spi.View()) == old(SlavesOf(spi.View()))
      ensures wire == old(wire) + old(SetupWords(live, SlavesOf(spi.View()), cfg, env))
      ensures Shape(old(Snapshot())) && Shape(Snapshot()) && old(wire) <= wire
      ensures SetUp(old(Snapshot()), Snapshot(), |old(mgr.View()).live| < 8, cfg, env, err, wire[|old(wire)|..])
    {
      hide Agree, SetupSpec, SetUp, Valid, SensorManager.View, Wanted, SlavesOf, SetupWords, ValidTable, SpiDriver.Valid, SpiDriver.View;
      ValidParts();
      ghost var x, before, table := Snapshot(), live, mgr.View();
      err, id := Stages(cfg, env);
      ValidParts();
      SetUpIs(x, before, table, cfg, env, Snapshot(), SetupResult(live, mgr.View(), err, id));
    }

    lemma ValidParts()
      requires Valid()
      ensures spi.Valid() && Agree(Snapshot(), live) && ValidTable(mgr.View()) && DacInv(live)
    {
      hide Agree;
    }

    /** The stages of a setup, with their rollback. */
    method Stages(cfg: seq<byte>, env: Env) returns (err: Err, id: nat)
      requires Valid()
      modifies this, mgr, mgr.slots, chips, cells, spi.claims, spi.masterOn, sems
      ensures Valid()
      ensures SetupResult(live, mgr.View(), err, id) == old(SetupSpec(live, SlavesOf(spi.View()), mgr.View(), cfg, env))
      ensures SlotsMoved(old(mgr.slots[..]), mgr.slots[..], id)
      ensures SlavesOf(spi.View()) == old(SlavesOf(spi.View()))
      ensures wire == old(wire) + old(SetupWords(live, SlavesOf(spi.View()), cfg, env))
      ensures err == Success ==>
                |cfg| >= CFG_SIZE && GoodRequest(Wanted(cfg))
                && chips[Wanted(cfg).periph].tx == Word(CMD_WRITE, Wanted(cfg).channel, Wanted(cfg).value)
    {
      hide Agree, SlavesOf, Holds, Word, GoodChip, HasBit, DacInv;
      id := 0;
      SetupKeepsInv(live, SlavesOf(spi.View()), mgr.View(), cfg, env);
      if |cfg| < CFG_SIZE {
        return MalformedPayload, id;
      }
      var r := Wanted(cfg);
      if !GoodRequest(r) {
        return InvalidParameter, id;
      }
      var p := r.periph;
      Lookups(Snapshot(), live, p, r.channel);
      if chips[p].on {
        if chips[p].cfg.clock != r.cfg.clock || chips[p].cfg.mode != r.cfg.mode {
          return DacClockMismatch, id;
        }
        if !SamePins(chips[p].cfg, r.cfg) {
          return DacPinMismatch, id;
        }
        if HasBit(chips[p].mask, r.channel) {
          return DacChannelInUse, id;
        }
      }
      if cells[Index(p, r.channel)].inUse {
        return DacChannelInUse, id;
      }
      err, id := Proceed(r, env);
    }

    method SetOutput(i: nat, values: seq<byte>, completes: bool) returns (err: Err)
      requires Valid() && i < POOL
      modifies this`wire, chips
      ensures Valid()
      ensures err == SetOutputErr(live, i, values, completes)
      ensures Shape(Snapshot()) && Held(Snapshot()) == old(Held(Snapshot())) && old(wire) <= wire
      ensures Written(Snapshot(), i, values, completes, err, wire[|old(wire)|..])
      ensures wire == old(wire) + OutputWords(live, i, values)
      ensures err == Success ==>
                PeriphOf(i) < PERIPHS && chips[PeriphOf(i)].tx == Word(CMD_WRITE, ChannelOf(i), Read16(values, 0))
    {
      hide Agree, Holds, Word, HasBit, SpiDriver.Valid, SpiDriver.View, DacInv, ValidTable, Held, ValueWord;
      Lookups(Snapshot(), live, PeriphOf(i), ChannelOf(i));
      if !cells[i].inUse {
        return InvalidSensorId;
      }
      if |values| < 2 {
        return MalformedPayload;
      }
      CellIs(Snapshot(), live, i);
      var p := cells[i].periph;
      if !chips[p].on {
        return Internal;
      }
      ghost var x := Snapshot();
      ValueWordIs(p, cells[i].channel as byte, values[0], values[1]);
      err := ChipWrite(p, CMD_WRITE, cells[i].channel, Read16(values, 0), completes);
      HeldIsDetermined(x, Snapshot(), live);
    }

    method Stop(i: nat) returns (err: Err)
      requires Valid() && i < POOL
      modifies this, chips, cells, spi.claims, spi.masterOn, sems
      ensures Valid()
      ensures (live, err) == StopSpec(old(live), i) && wire == old(wire)
      ensures SlavesOf(spi.View()) == old(SlavesOf(spi.View()))
      ensures Shape(old(Snapshot())) && Shape(Snapshot()) && Closes(old(Snapshot()), Snapshot(), i, err)
    {
      hide Agree, SlavesOf, DacInv, Closes, Valid, StopSpec, SpiDriver.Valid, SpiDriver.View;
      ValidParts();
      ghost var x, before := Snapshot(), live;
      err := StopStages(i);
      ValidParts();
      ClosesIs(x, before, Snapshot(), i);
    }

    /** The stages of a stop: channel, then the chip if that was its last. */
    method StopStages(i: nat) returns (err: Err)
      requires Valid() && i < POOL
      modifies this, chips, cells, spi.claims, spi.masterOn, sems
      ensures Valid()
      ensures (live, err) == StopSpec(old(live), i) && wire == old(wire)
      ensures SlavesOf(spi.View()) == old(SlavesOf(spi.View()))
    {
      hide Agree, Holds, HasBit, SlavesOf, DacInv;
      StopKeepsInv(live, i);
      Lookups(Snapshot(), live, PeriphOf(i), ChannelOf(i));
      if !cells[i].inUse {
        return InvalidSensorId;
      }
      CellIs(Snapshot(), live, i);
      var p := cells[i].periph;
      DropChannel(p, cells[i].channel);
      CloseIfEmpty(p);
      assert live == WithoutChannel(old(live), PeriphOf(i), ChannelOf(i));
      err := Success;
    }
  }
}
