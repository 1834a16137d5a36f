/** I2C backend (i2c_sensor.c): up to three emulated register devices, each with a heap-allocated
    register map that the driver serves from interrupts and the host overwrites by command. */
module I2cSensor {
  import opened Wrappers
  import opened Sensors
  import opened Wire
  import opened I2cSlave

  const COUNT: nat := 3
  const CFG_SIZE: nat := 25
  const PRESET_HEADER: nat := 29
  const REGMAP_MAX: nat := 1024

  /** A live sensor: where the bus finds it, how it accesses it, and its register file. */
  datatype Sensor = Sensor(bus: BusCfg, cfg: Cfg, file: RegFile)

  type Live = map<nat, Sensor>

  datatype Request = Request(bus: BusCfg, flags: nat, scl: Pin, sclAf: nat, sda: Pin, sdaAf: nat, width: nat, inc: nat, count: nat)

  function Wanted(c: seq<byte>): Request
    requires |c| >= CFG_SIZE
  {
    Request(BusCfg(Read32(c, 0), Read8(c, 4), Read16(c, 5), Read16(c, 7)), Read8(c, 9),
            PinAt(c, 10), Read8(c, 12), PinAt(c, 13), Read8(c, 15), Read8(c, 16), Read8(c, 17), Read16(c, 18))
  }

  /** Whether the flag of the given weight is set. */
  predicate Flag(flags: nat, weight: nat)
    requires weight > 0
  {
    flags / weight % 2 == 1
  }

  predicate Reserved7(addr: nat) { addr <= 0x07 || addr >= 0x78 }

  // validate_cfg: the first objection
  function ValidateErr(r: Request): Err {
    if Flag(r.flags, 0x80) then InvalidParameter
    else if r.bus.mode > 1 then I2cBadAddrMode
    else if r.bus.mode == 1 && r.bus.secondary != 0 then I2cBadAddrMode
    else if r.bus.mode == 0 && (Reserved7(r.bus.primary) || (r.bus.secondary != 0 && Reserved7(r.bus.secondary))) then I2cAddrReserved
    else if r.bus.mode == 1 && (r.bus.primary == 0 || r.bus.primary > 0x3FF) then I2cAddrReserved
    else if r.bus.clock < 10_000 || r.bus.clock > 400_000 then I2cClockUnsupported
    else if r.count == 0 || r.count > REGMAP_MAX then I2cRegmapTooLarge
    else if !GoodPin(r.scl) || r.sclAf > AF_MAX || !GoodPin(r.sda) || r.sdaAf > AF_MAX then InvalidParameter
    else if r.inc > INC_BOTH || r.width > REG_16 then InvalidParameter
    else if Flag(r.flags, 4) && !Flag(r.flags, 2) then I2cSmbusRequired
    else Success
  }

  /** The driver configuration of an accepted request. */
  function DriverCfg(r: Request): Cfg {
    Cfg(r.width, r.inc, Flag(r.flags, 8), Flag(r.flags, 0x10))
  }

  /** Whatever the backend accepts, the driver accepts. */
  lemma ValidatedPassesDriver(r: Request)
    requires ValidateErr(r) == Success
    ensures CfgOk(r.bus, DriverCfg(r), r.count) && 1 <= r.count <= REGMAP_MAX
  {
    hide Flag;
  }

  /** The optional preset block: the first objection. */
  function PresetErr(c: seq<byte>, count: nat): Err
    requires |c| >= CFG_SIZE
  {
    if Read8(c, 24) == 1 then
      if |c| < PRESET_HEADER then MalformedPayload
      else if Read16(c, 27) == 0 then InvalidParameter
      else if |c| < Wrap16(PRESET_HEADER + Read16(c, 27)) then MalformedPayload
      else if Read16(c, 25) + Read16(c, 27) > count then I2cRegisterOob
      else Success
    else if Read8(c, 24) != 0 then InvalidParameter
    else Success
  }

  /** `regs` with `bytes` copied in from `start` on. */
  function Overlay(regs: seq<byte>, start: nat, bytes: seq<byte>): (r: seq<byte>)
    requires start + |bytes| <= |regs|
    ensures |r| == |regs|
  {
    regs[..start] + bytes + regs[start + |bytes|..]
  }

  function Zeros(n: nat): (z: seq<byte>)
    ensures |z| == n && forall i :: 0 <= i < n ==> z[i] == 0
  {
    seq(n, _ => 0)
  }

  /** Length sums wrap at 16 bits, but a length that fits the register map has not wrapped. */
  lemma LengthSumIsExact(have: nat, header: nat, len: nat)
    requires header <= 64 && have >= Wrap16(header + len) && len <= REGMAP_MAX
    ensures have >= header + len
  {}

  /** The register map an accepted setup starts with. */
  function InitialRegs(c: seq<byte>): (r: seq<byte>)
    requires |c| >= CFG_SIZE && ValidateErr(Wanted(c)) == Success && PresetErr(c, Wanted(c).count) == Success
    ensures |r| == Wanted(c).count
  {
    if Read8(c, 24) == 1 then
      LengthSumIsExact(|c|, PRESET_HEADER, Read16(c, 27));
      Overlay(Zeros(Wanted(c).count), Read16(c, 25), c[PRESET_HEADER..PRESET_HEADER + Read16(c, 27)])
    else Zeros(Wanted(c).count)
  }

  function FirstFree(live: Live): nat {
    if 0 !in live then 0 else if 1 !in live then 1 else if 2 !in live then 2 else COUNT
  }

  function CfgErr(c: seq<byte>): Err {
    if |c| < CFG_SIZE then MalformedPayload
    else if ValidateErr(Wanted(c)) != Success then ValidateErr(Wanted(c))
    else PresetErr(c, Wanted(c).count)
  }

  function NewSensor(c: seq<byte>): Sensor
    requires CfgErr(c) == Success
  {
    Sensor(Wanted(c).bus, DriverCfg(Wanted(c)), RegFile(InitialRegs(c), 0, 0, [], Idle))
  }

  /** Setup in one step; `memory` says whether the heap can hold the register map. */
  function SetupSpec(live: Live, table: Table, cfg: seq<byte>, memory: bool): SetupResult<Live>
    requires ValidTable(table)
  {
    var i := FirstFree(live);
    if i == COUNT then Refused(live, table, I2cNoFreePeripheral)
    else if CfgErr(cfg) != Success then Refused(live, table, CfgErr(cfg))
    else if !memory then Refused(live, table, OutOfResources)
    else Admit(live, live[i := NewSensor(cfg)], table, ID_I2C, i)
  }

  function PutErr(count: nat, values: seq<byte>): Err {
    if |values| < 4 then MalformedPayload
    else if Read16(values, 2) == 0 then InvalidParameter
    else if |values| < Wrap16(4 + Read16(values, 2)) then MalformedPayload
    else if Read16(values, 0) > count || Read16(values, 2) > count - Read16(values, 0) then I2cRegisterOob
    else Success
  }

  function Put(s: Sensor, start: nat, bytes: seq<byte>): Sensor
    requires start + |bytes| <= |s.file.regs|
  {
    s.(file := s.file.(regs := Overlay(s.file.regs, start, bytes)))
  }

  function SetOutputSpec(live: Live, i: nat, values: seq<byte>): (Live, Err)
    requires i in live ==> |live[i].file.regs| <= REGMAP_MAX
  {
    if i !in live then (live, InvalidSensorId)
    else
      var err := PutErr(|live[i].file.regs|, values);
      if err != Success then (live, err)
      else
        LengthSumIsExact(|values|, 4, Read16(values, 2));
        (live[i := Put(live[i], Read16(values, 0), values[4..4 + Read16(values, 2)])], Success)
  }

  function StopSpec(live: Live, i: nat): (Live, Err) {
    if i !in live then (live, InvalidSensorId) else (live - {i}, Success)
  }

  /** One interrupt of sensor `i`. */
  function Interrupted(live: Live, i: nat, e: Irq): Live
    requires i in live
  {
    live[i := live[i].(file := Step(live[i].cfg, live[i].file, e).0)]
  }

  predicate SensorOk(s: Sensor) {
    1 <= |s.file.regs| <= REGMAP_MAX
  }

  ghost predicate I2cInv(live: Live) {
    forall i :: i in live ==> i < COUNT && SensorOk(live[i])
  }

  lemma StepKeepsSize(c: Cfg, f: RegFile, e: Irq)
    ensures |Step(c, f, e).0.regs| == |f.regs|
  {
    hide Cursor, BigEndian;
  }

  lemma NewSensorOk(c: seq<byte>)
    requires CfgErr(c) == Success
    ensures |c| >= CFG_SIZE && SensorOk(NewSensor(c))
  {
    ValidatedPassesDriver(Wanted(c));
    hide ValidateErr, PresetErr, Wanted, Overlay;
  }

  lemma InvPlus(live: Live, i: nat, c: seq<byte>)
    requires I2cInv(live) && i < COUNT && CfgErr(c) == Success
    ensures I2cInv(live[i := NewSensor(c)]) && |c| >= CFG_SIZE
  {
    NewSensorOk(c);
    hide CfgErr, NewSensor;
  }

  lemma SetupKeepsInv(live: Live, table: Table, cfg: seq<byte>, memory: bool)
    requires I2cInv(live) && ValidTable(table)
    ensures I2cInv(SetupSpec(live, table, cfg, memory).live)
  {
    if CfgErr(cfg) == Success {
      NewSensorOk(cfg);
    }
    hide CfgErr, NewSensor;
  }

  lemma UpdateKeepsInv(live: Live, i: nat, values: seq<byte>)
    requires I2cInv(live)
    ensures I2cInv(SetOutputSpec(live, i, values).0) && I2cInv(StopSpec(live, i).0)
  {
    hide Overlay;
  }

  lemma InvSize(live: Live, i: nat)
    requires I2cInv(live)
    ensures i in live ==> i < COUNT && 1 <= |live[i].file.regs| <= REGMAP_MAX
  {}

  lemma InterruptKeepsInv(live: Live, i: nat, e: Irq)
    requires I2cInv(live) && i in live
    ensures I2cInv(Interrupted(live, i, e))
  {
    StepKeepsSize(live[i].cfg, live[i].file, e);
    hide Step;
  }

  // ---------------------------------------------------------------- the map is preset plus SET_OUTPUTs

  /** What happens to a sensor: bus interrupts and host writes, in any order. */
  datatype Happening = Bus(irq: Irq) | Host(start: nat, bytes: seq<byte>)

  predicate Fits(h: Happening, count: nat) {
    h.Host? ==> h.start + |h.bytes| <= count
  }

  function Happened(s: Sensor, h: Happening): (r: Sensor)
    requires Fits(h, |s.file.regs|)
    ensures |r.file.regs| == |s.file.regs| && r.cfg == s.cfg
  {
    match h
    case Bus(irq) =>
      StepKeepsSize(s.cfg, s.file, irq);
      s.(file := Step(s.cfg, s.file, irq).0)
    case Host(start, bytes) => Put(s, start, bytes)
  }

  ghost function History(s: Sensor, hs: seq<Happening>): (r: Sensor)
    requires forall h :: h in hs ==> Fits(h, |s.file.regs|)
    ensures |r.file.regs| == |s.file.regs| && r.cfg == s.cfg
    decreases |hs|
  {
    if hs == [] then s else History(Happened(s, hs[0]), hs[1..])
  }

  /** What the host last put at register `k`, if anything. */
  function LastPut(hs: seq<Happening>, k: nat): Option<byte>
    decreases |hs|
  {
    if hs == [] then None
    else
      var h := hs[|hs| - 1];
      if h.Host? && h.start <= k < h.start + |h.bytes| then Some(h.bytes[k - h.start])
      else LastPut(hs[..|hs| - 1], k)
  }

  lemma {:induction false} HistoryLast(s: Sensor, hs: seq<Happening>)
    requires hs != [] && forall h :: h in hs ==> Fits(h, |s.file.regs|)
    ensures History(s, hs) == Happened(History(s, hs[..|hs| - 1]), hs[|hs| - 1])
    decreases |hs|
  {
    var init := hs[..|hs| - 1];
    if |hs| == 1 {
    } else {
      HistoryLast(Happened(s, hs[0]), hs[1..]);
      assert init[1..] == hs[1..][..|hs| - 2];
      assert init[0] == hs[0];
    }
  }

  lemma OverlayAt(regs: seq<byte>, start: nat, bytes: seq<byte>, k: nat)
    requires start + |bytes| <= |regs| && k < |regs|
    ensures Overlay(regs, start, bytes)[k] == if start <= k < start + |bytes| then bytes[k - start] else regs[k]
  {}

  lemma StepKeepsRegs(c: Cfg, f: RegFile, e: Irq)
    requires !c.writable
    ensures Step(c, f, e).0.regs == f.regs
  {
    hide Cursor, BigEndian;
  }

  /** With DUT writes disabled, whatever happens on the bus in between, each register holds what
      the host last put there, and its initial value if the host never did. */
  lemma {:induction false} MapIsPresetPlusPuts(s: Sensor, hs: seq<Happening>, k: nat)
    requires !s.cfg.writable && k < |s.file.regs|
    requires forall h :: h in hs ==> Fits(h, |s.file.regs|)
    ensures History(s, hs).file.regs[k] == match LastPut(hs, k) case None => s.file.regs[k] case Some(b) => b
    decreases |hs|
  {
    if hs == [] {
    } else {
      hide Step;
      var init, h := hs[..|hs| - 1], hs[|hs| - 1];
      assert h in hs;
      HistoryLast(s, hs);
      MapIsPresetPlusPuts(s, init, k);
      if h.Bus? {
        StepKeepsRegs(s.cfg, History(s, init).file, h.irq);
        assert LastPut(hs, k) == LastPut(init, k);
      } else {
        OverlayAt(History(s, init).file.regs, h.start, h.bytes, k);
      }
    }
  }

  /** The preset byte for register `k`, if the block has one. */
  function PresetByte(c: seq<byte>, k: nat): Option<byte>
    requires |c| >= CFG_SIZE && PresetErr(c, REGMAP_MAX) == Success
  {
    if Read8(c, 24) == 1 && Read16(c, 25) <= k < Read16(c, 25) + Read16(c, 27) then
      LengthSumIsExact(|c|, PRESET_HEADER, Read16(c, 27));
      Some(c[PRESET_HEADER + k - Read16(c, 25)])
    else None
  }

  /** The initial value is the preset where there is one and zero elsewhere. */
  lemma InitialMap(c: seq<byte>, k: nat)
    requires CfgErr(c) == Success && k < Wanted(c).count
    ensures PresetErr(c, REGMAP_MAX) == Success
    ensures NewSensor(c).file.regs[k] == match PresetByte(c, k) case None => 0 case Some(b) => b
  {
    ValidatedPassesDriver(Wanted(c));
    hide ValidateErr;
    if Read8(c, 24) == 1 {
      LengthSumIsExact(|c|, PRESET_HEADER, Read16(c, 27));
    }
  }

  // ---------------------------------------------------------------- the backend object

  datatype State = State(inUse: bool, regmap: array?<byte>, count: nat)

  const UNUSED := State(false, null, 0)

  /** A pool entry and its driver stand for one live sensor, sharing its register map, or both
      are idle and hold no memory. */
  ghost predicate Serves(d: Device, x: State, s: Option<Sensor>)
    reads d, d.regmap
  {
    && d.Valid() && (x.inUse <==> s.Some?) && (d.initialized <==> s.Some?)
    && x.regmap == d.regmap
    && (s.Some? ==> x.count == d.regmapLen && s.value == Sensor(d.bus, d.cfg, d.View()))
  }

  /** The sensor a device stands for, if its driver is up. */
  ghost function Standing(d: Device): Option<Sensor>
    requires d.Valid()
    reads d, d.regmap
  {
    if d.initialized then Some(Sensor(d.bus, d.cfg, d.View())) else None
  }

  ghost function Block(x: State): set<array<byte>> {
    if x.regmap == null then {} else {x.regmap}
  }

  ghost function SensorAt(live: Live, i: nat): Option<Sensor> {
    if i in live then Some(live[i]) else None
  }

  /** The pool entries own the heap blocks, each its own. */
  ghost predicate BlocksOk(xs: seq<State>, blocks: set<array<byte>>) {
    && |xs| == COUNT && blocks == Block(xs[0]) + Block(xs[1]) + Block(xs[2])
    && Block(xs[0]) !! Block(xs[1]) && Block(xs[0]) !! Block(xs[2]) && Block(xs[1]) !! Block(xs[2])
  }

  lemma FillBlock(xs: seq<State>, blocks: set<array<byte>>, i: nat, map': array<byte>, count: nat)
    requires BlocksOk(xs, blocks) && i < COUNT && xs[i].regmap == null && map' !in blocks
    ensures var x := State(true, map', count);
      Block(x) == {map'} && BlocksOk(xs[i := x], blocks + {map'})
  {}

  lemma DropBlock(xs: seq<State>, blocks: set<array<byte>>, i: nat)
    requires BlocksOk(xs, blocks) && i < COUNT
    ensures BlocksOk(xs[i := UNUSED], blocks - Block(xs[i]))
  {}

  // ---------------------------------------------------------------- commands over payload bytes and devices

  /** What the three peripherals serve, if anything. */
  type Tables = seq<Option<Sensor>>

  function U16(c: seq<byte>, i: nat): nat
    requires i + 1 < |c|
  {
    c[i] as nat + 0x100 * c[i + 1] as nat
  }

  function ClockAt(c: seq<byte>): nat
    requires |c| >= 25
  {
    U16(c, 0) + 0x1_0000 * U16(c, 2)
  }

  predicate ReservedAddress(a: nat) { a <= 7 || a >= 0x78 }

  /** The first objection to the fixed part of a block: flag bit 7 is reserved, bit 2 (PEC) needs bit 1
      (SMBus). */
  function BlockVerdict(c: seq<byte>): Err {
    if |c| < 25 then MalformedPayload
    else if c[9] >= 0x80 then InvalidParameter
    else if c[4] > 1 then I2cBadAddrMode
    else if c[4] == 1 && U16(c, 7) != 0 then I2cBadAddrMode
    else if c[4] == 0 && (ReservedAddress(U16(c, 5)) || (U16(c, 7) != 0 && ReservedAddress(U16(c, 7)))) then I2cAddrReserved
    else if c[4] == 1 && (U16(c, 5) == 0 || U16(c, 5) > 0x3FF) then I2cAddrReserved
    else if ClockAt(c) < 10_000 || ClockAt(c) > 400_000 then I2cClockUnsupported
    else if U16(c, 18) == 0 || U16(c, 18) > 1024 then I2cRegmapTooLarge
    else if c[10] > 5 || c[11] > 15 || c[12] > 15 || c[13] > 5 || c[14] > 15 || c[15] > 15 then InvalidParameter
    else if c[17] > 3 || c[16] > 2 then InvalidParameter
    else if c[9] / 4 % 2 == 1 && c[9] / 2 % 2 == 0 then I2cSmbusRequired
    else Success
  }

  /** The first objection to the optional preset. */
  function PresetVerdict(c: seq<byte>): Err
    requires |c| >= 25
  {
    if c[24] == 0 then Success
    else if c[24] > 1 then InvalidParameter
    else if |c| < 29 then MalformedPayload
    else if U16(c, 27) == 0 then InvalidParameter
    else if |c| < (29 + U16(c, 27)) % 0x1_0000 then MalformedPayload
    else if U16(c, 25) + U16(c, 27) > U16(c, 18) then I2cRegisterOob
    else Success
  }

  function Verdict(x: Tables, room: bool, memory: bool, c: seq<byte>): Err
    requires |x| == 3
  {
    if x[0].Some? && x[1].Some? && x[2].Some? then I2cNoFreePeripheral
    else if BlockVerdict(c) != Success then BlockVerdict(c)
    else if PresetVerdict(c) != Success then PresetVerdict(c)
    else if !memory || !room then OutOfResources
    else Success
  }

  /** The lowest peripheral without a sensor, or 3. */
  function Idle3(x: Tables): nat
    requires |x| == 3
  {
    if x[0].None? then 0 else if x[1].None? then 1 else if x[2].None? then 2 else 3
  }

  /** Address, clock, register width and increment mode of the block; flag bit 3 wraps, flag bit 4 lets
      the DUT write; zeros with the preset bytes from offset 29 on put in; nothing selected. */
  predicate Built(s: Sensor, c: seq<byte>)
    requires |c| >= 25
  {
    && s.bus == BusCfg(ClockAt(c), c[4] as nat, U16(c, 5), U16(c, 7))
    && s.cfg == Cfg(c[16] as nat, c[17] as nat, c[9] / 8 % 2 == 1, c[9] / 16 % 2 == 1)
    && |s.file.regs| == U16(c, 18) && s.file == RegFile(s.file.regs, 0, 0, [], Idle)
    && forall k :: 0 <= k < |s.file.regs| ==>
         s.file.regs[k] == if c[24] == 1 && |c| >= 29 && U16(c, 25) <= k < U16(c, 25) + U16(c, 27) && 29 + k - U16(c, 25) < |c|
                           then c[29 + k - U16(c, 25)] else 0
  }

  /** A setup over payload bytes and devices: its answer, and on success the lowest idle peripheral
      serves what the block asks for; any other answer leaves all three as they were. */
  predicate SetUp(x: Tables, y: Tables, room: bool, memory: bool, c: seq<byte>, err: Err)
    requires |x| == 3
  {
    && err == Verdict(x, room, memory, c)
    && if err == Success
       then var i := Idle3(x);
         |y| == 3 && i < 3 && |c| >= 25 && y == x[i := y[i]] && y[i].Some? && Built(y[i].value, c)
       else y == x
  }

  /** A SET_OUTPUT over payload bytes: the bytes from offset 4 on land from the given register on; the
      cursor and everything else stay. */
  predicate Overwritten(x: Tables, y: Tables, i: nat, v: seq<byte>, err: Err)
    requires |x| == 3 && i < 3
  {
    if x[i].None? then err == InvalidSensorId && y == x
    else
      var f := x[i].value.file;
      if |v| < 4 then err == MalformedPayload && y == x
      else if U16(v, 2) == 0 then err == InvalidParameter && y == x
      else if |v| < (4 + U16(v, 2)) % 0x1_0000 then err == MalformedPayload && y == x
      else if U16(v, 0) + U16(v, 2) > |f.regs| then err == I2cRegisterOob && y == x
      else && err == Success && |y| == 3 && y[i].Some? && |v| >= 4 + U16(v, 2)
           && y == x[i := Some(x[i].value.(file := f.(regs := y[i].value.file.regs)))]
           && |y[i].value.file.regs| == |f.regs|
           && forall k :: 0 <= k < |f.regs| ==>
                y[i].value.file.regs[k] == if U16(v, 0) <= k < U16(v, 0) + U16(v, 2) then v[4 + k - U16(v, 0)] else f.regs[k]
  }

  /** A stop over the devices: that peripheral serves nothing any more. */
  predicate Silenced(x: Tables, y: Tables, i: nat, err: Err)
    requires |x| == 3 && i < 3
  {
    if x[i].None? then err == InvalidSensorId && y == x
    else err == Success && y == x[i := None]
  }

  /** The devices of a map of live sensors. */
  function TablesOf(live: Live): Tables {
    [if 0 in live then Some(live[0]) else None, if 1 in live then Some(live[1]) else None, if 2 in live then Some(live[2]) else None]
  }

  lemma FlagBits(flags: nat)
    requires flags < 0x100
    ensures Flag(flags, 0x80) <==> flags >= 0x80
  {}

  lemma FieldsAreWanted(c: seq<byte>)
    requires |c| >= CFG_SIZE
    ensures var r := Wanted(c);
      && r.bus == BusCfg(ClockAt(c), c[4] as nat, U16(c, 5), U16(c, 7)) && r.flags == c[9] as nat
      && r.scl == Pin(c[10] as nat, c[11] as nat) && r.sclAf == c[12] as nat
      && r.sda == Pin(c[13] as nat, c[14] as nat) && r.sdaAf == c[15] as nat
      && r.width == c[16] as nat && r.inc == c[17] as nat && r.count == U16(c, 18)
  {}

  lemma BlockIs(c: seq<byte>)
    requires |c| >= CFG_SIZE
    ensures ValidateErr(Wanted(c)) == BlockVerdict(c)
    ensures DriverCfg(Wanted(c)) == Cfg(c[16] as nat, c[17] as nat, c[9] / 8 % 2 == 1, c[9] / 16 % 2 == 1)
  {
    FieldsAreWanted(c);
    FlagBits(c[9] as nat);
    hide Wanted;
  }

  lemma PresetIs(c: seq<byte>)
    requires |c| >= CFG_SIZE
    ensures PresetErr(c, U16(c, 18)) == PresetVerdict(c)
  {}

  lemma CfgVerdict(c: seq<byte>)
    ensures CfgErr(c) == if BlockVerdict(c) != Success then BlockVerdict(c) else PresetVerdict(c)
  {
    if |c| >= CFG_SIZE {
      BlockIs(c);
      PresetIs(c);
      FieldsAreWanted(c);
      hide BlockVerdict, PresetVerdict, ValidateErr, PresetErr, Wanted;
    }
  }

  lemma BuiltIs(c: seq<byte>)
    requires CfgErr(c) == Success
    ensures |c| >= 25 && Built(NewSensor(c), c)
  {
    CfgVerdict(c);
    assert |c| >= CFG_SIZE;
    BlockIs(c);
    PresetIs(c);
    FieldsAreWanted(c);
    ValidatedPassesDriver(Wanted(c));
    var s := NewSensor(c);
    hide ValidateErr, BlockVerdict, Wanted, DriverCfg;
    forall k | 0 <= k < |s.file.regs|
      ensures s.file.regs[k] == if c[24] == 1 && |c| >= 29 && U16(c, 25) <= k < U16(c, 25) + U16(c, 27) && 29 + k - U16(c, 25) < |c|
                                then c[29 + k - U16(c, 25)] else 0
    {
      if c[24] == 1 {
        LengthSumIsExact(|c|, PRESET_HEADER, Read16(c, 27));
        OverlayAt(Zeros(U16(c, 18)), U16(c, 25), c[29..29 + U16(c, 27)], k);
      }
    }
  }

  /** The reference setup, read as a contract over bytes and devices. */
  lemma SetUpIs(live: Live, table: Table, c: seq<byte>, memory: bool)
    requires ValidTable(table) && I2cInv(live)
    ensures var r := SetupSpec(live, table, c, memory);
      SetUp(TablesOf(live), TablesOf(r.live), |table.live| < 8, memory, c, r.err)
  {
    CfgVerdict(c);
    RegisterSucceeds(table, Entry(ID_I2C, FirstFree(live)));
    if CfgErr(c) == Success { BuiltIs(c); }
    hide CfgErr, NewSensor, BlockVerdict, PresetVerdict, Built, NextId;
  }

  lemma OverwrittenIs(live: Live, i: nat, v: seq<byte>)
    requires I2cInv(live) && i < COUNT
    ensures i in live ==> |live[i].file.regs| <= REGMAP_MAX
    ensures Overwritten(TablesOf(live), TablesOf(SetOutputSpec(live, i, v).0), i, v, SetOutputSpec(live, i, v).1)
  {
    hide I2cInv, Overlay;
    InvSize(live, i);
    if i in live && PutErr(|live[i].file.regs|, v) == Success {
      LengthSumIsExact(|v|, 4, Read16(v, 2));
      var s := SetOutputSpec(live, i, v).0[i];
      OverlayBytes(live[i].file.regs, Read16(v, 0), v, Read16(v, 2), s.file.regs);
      TablesAt(live, i, s);
    }
    assert i in live ==> TablesOf(live)[i] == Some(live[i]);
  }

  lemma OverlayBytes(regs: seq<byte>, start: nat, v: seq<byte>, len: nat, after: seq<byte>)
    requires start + len <= |regs| && |v| >= 4 + len && after == Overlay(regs, start, v[4..4 + len])
    ensures |after| == |regs|
    ensures forall k :: 0 <= k < |after| ==> after[k] == if start <= k < start + len then v[4 + k - start] else regs[k]
  {
    hide Overlay;
    forall k | 0 <= k < |after|
      ensures after[k] == if start <= k < start + len then v[4 + k - start] else regs[k]
    {
      OverlayAt(regs, start, v[4..4 + len], k);
    }
  }

  lemma TablesAt(live: Live, i: nat, s: Sensor)
    requires i < COUNT
    ensures TablesOf(live[i := s]) == TablesOf(live)[i := Some(s)]
  {}

  class I2cBackend {
    const mgr: SensorManager
    const devices: seq<Device>
    const states: array<State>

    /** Heap blocks allocated for register maps and not freed. */
    ghost var blocks: set<array<byte>>
    ghost var live: Live

    ghost predicate Valid()
      reads this, mgr, mgr.slots, states, devices, blocks
    {
      mgr.Valid() && Own()
    }

    ghost predicate Own()
      reads this, states, devices, blocks
    {
      && |devices| == COUNT && states.Length == COUNT
      && devices[0] != devices[1] && devices[0] != devices[2] && devices[1] != devices[2]
      && I2cInv(live)
      && BlocksOk(states[..], blocks)
      && (forall i :: 0 <= i < COUNT ==>
            && (devices[i].regmap == null || devices[i].regmap in blocks)
            && Serves(devices[i], states[i], SensorAt(live, i)))
    }

    constructor (mgr: SensorManager)
      requires mgr.Valid()
      ensures Valid() && this.mgr == mgr && live == map[] && blocks == {}
      ensures fresh(states)
    {
      hide Holds, ValidTable, Device.Live;
      var d0 := new Device();
      var d1 := new Device();
      var d2 := new Device();
      this.mgr := mgr;
      devices := [d0, d1, d2];
      states := new State[COUNT](_ => UNUSED);
      live, blocks := map[], {};
    }

    // alloc_slot
    method AllocSlot() returns (i: nat)
      requires Valid()
      ensures i == FirstFree(live)
    {
      i := 0;
      while i < COUNT
        invariant i <= COUNT
        invariant forall k :: 0 <= k < i ==> k in live
      {
        if !states[i].inUse {
          return;
        }
        i := i + 1;
      }
    }

    /** What a slot's entry, device and sensor have in common, and that slots share nothing. */
    lemma SlotFacts(i: nat, j: nat)
      requires Valid() && i < COUNT && j < COUNT
      ensures states[i].regmap == devices[i].regmap && devices[i].Valid()
      ensures (states[i].inUse <==> i in live) && (devices[i].initialized <==> i in live)
      ensures i in live ==>
                && devices[i].Live() && live[i] == Sensor(devices[i].bus, devices[i].cfg, devices[i].View())
                && states[i].count == devices[i].regmapLen == |live[i].file.regs| && devices[i].regmap in blocks
      ensures i !in live ==> devices[i].regmap == null
      ensures i != j ==> devices[i] != devices[j] && (devices[i].regmap == null || devices[i].regmap != devices[j].regmap)
    {
      hide Device.Live, Holds, ValidTable, I2cInv;
      assert Serves(devices[i], states[i], SensorAt(live, i));
      assert Serves(devices[j], states[j], SensorAt(live, j));
      if i in live { LiveSize(devices[i]); }
      if i != j && devices[i].regmap != null {
        assert devices[i].regmap in Block(states[i]);
        assert devices[i].regmap !in Block(states[j]);
        assert devices[j].regmap != null ==> devices[j].regmap in Block(states[j]);
      }
    }

    /** One interrupt of one peripheral. */
    method Interrupt(i: nat, e: Irq) returns (out: Option<byte>)
      requires Valid() && i in live
      modifies this`live, devices, blocks
      ensures Valid() && live == Interrupted(old(live), i, e)
      ensures out == Step(old(live)[i].cfg, old(live)[i].file, e).1
    {
      hide Step, Holds, ValidTable, Device.Live, Serves, Block, BlocksOk;
      InterruptKeepsInv(live, i, e);
      SlotFacts(i, 0);
      SlotFacts(i, 1);
      SlotFacts(i, 2);
      out := devices[i].Interrupt(e);
      live := Interrupted(live, i, e);
      StillServes(devices[i], states[i], live[i]);
    }

    // free_slot
    method FreeSlot(i: nat)
      requires i < states.Length
      modifies this`blocks, states
      ensures states[..] == old(states[..])[i := UNUSED]
      ensures blocks == old(blocks) - old(Block(states[i]))
    {
      if states[i].regmap != null {
        blocks := blocks - {states[i].regmap};
      }
      states[i] := UNUSED;
    }

    /** Stops the driver before the memory it serves is freed. */
    method Deactivate(i: nat)
      requires Valid() && i in live
      modifies this`live, this`blocks, devices, states
      ensures Valid() && live == old(live) - {i}
      ensures blocks == old(blocks) - old(Block(states[i]))
    {
      hide Holds, ValidTable, Device.Live, Serves, SensorOk, BlocksOk;
      SlotFacts(i, 0);
      SlotFacts(i, 1);
      SlotFacts(i, 2);
      DropBlock(states[..], blocks, i);
      devices[i].Deinit();
      FreeSlot(i);
      live := live - {i};
      NowIdle(devices[i], states[i]);
    }

    method Stop(i: nat) returns (err: Err)
      requires Valid() && i < COUNT
      modifies this`live, this`blocks, devices, states
      ensures Valid() && states.Length == COUNT
      ensures blocks == old(blocks) - if err == Success then old(Block(states[i])) else {}
      ensures (live, err) == StopSpec(old(live), i)
      ensures Silenced(old(Snapshot()), Snapshot(), i, err)
    {
      hide Holds, ValidTable, Device.Live, I2cInv, Snapshot;
      SnapshotIs();
      if !states[i].inUse {
        assert SensorAt(live, i) == None;
        return InvalidSensorId;
      }
      assert SensorAt(live, i).Some?;
      Deactivate(i);
      SnapshotIs();
      err := Success;
    }

    method SetOutput(i: nat, values: seq<byte>) returns (err: Err)
      requires Valid() && i < COUNT
      modifies this`live, blocks
      ensures Valid() && blocks == old(blocks)
      ensures (i in old(live) ==> |old(live)[i].file.regs| <= REGMAP_MAX) && (live, err) == SetOutputSpec(old(live), i, values)
      ensures Overwritten(old(Snapshot()), Snapshot(), i, values, err)
    {
      hide Own, SetOutputSpec, Overwritten, SensorManager.View, Snapshot, I2cInv, Holds, TablesOf;
      SnapshotIs();
      OverwrittenIs(live, i, values);
      err := Write(i, values);
      SnapshotIs();
    }

    /** The checks of a SET_OUTPUT, then the copy into the map. */
    method Write(i: nat, values: seq<byte>) returns (err: Err)
      requires Valid() && i < COUNT
      modifies this`live, blocks
      ensures Valid() && blocks == old(blocks)
      ensures (i in old(live) ==> |old(live)[i].file.regs| <= REGMAP_MAX) && (live, err) == SetOutputSpec(old(live), i, values)
    {
      hide Holds, ValidTable, Device.Live, Serves, Block, BlocksOk, I2cInv, Overlay;
      InvSize(live, i);
      SlotFacts(i, 0);
      SlotFacts(i, 1);
      SlotFacts(i, 2);
      UpdateKeepsInv(live, i, values);
      if !states[i].inUse {
        return InvalidSensorId;
      }
      if |values| < 4 {
        return MalformedPayload;
      }
      var start, len := Read16(values, 0), Read16(values, 2);
      if len == 0 {
        return InvalidParameter;
      }
      if |values| < Wrap16(4 + len) {
        return MalformedPayload;
      }
      if start > states[i].count || len > states[i].count - start {
        return I2cRegisterOob;
      }
      LengthSumIsExact(|values|, 4, len);
      CopyInto(devices[i], states[i].regmap, start, values[4..4 + len]);
      live := live[i := Put(live[i], start, values[4..4 + len])];
      StillServes(devices[i], states[i], live[i]);
      err := Success;
    }

    /** Memory, driver and pool entry of an accepted request; the driver cannot refuse it. */
    method Activate(i: nat, c: seq<byte>)
      requires Valid() && i < COUNT && i !in live && CfgErr(c) == Success
      modifies this`live, this`blocks, devices, states
      ensures Valid() && live == old(live)[i := NewSensor(c)]
      ensures i < states.Length && fresh(Block(states[i])) && blocks == old(blocks) + Block(states[i])
    {
      hide Holds, ValidTable, Device.Live, Serves, CfgErr, NewSensor, BlocksOk, Block, I2cInv, Wanted;
      InvPlus(live, i, c);
      SlotFacts(i, 0);
      SlotFacts(i, 1);
      SlotFacts(i, 2);
      ghost var before, had := states[..], blocks;
      var map' := StartDriver(devices[i], c);
      FillBlock(before, had, i, map', Wanted(c).count);
      states[i] := State(true, map', Wanted(c).count);
      blocks := blocks + {map'};
      live := live[i := NewSensor(c)];
      assert states[..] == before[i := states[i]];
      StillServes(devices[i], states[i], live[i]);
    }

    /** What the peripherals serve. */
    ghost function Snapshot(): Tables
      requires Own()
      reads this, states, devices, blocks
    {
      [Standing(devices[0]), Standing(devices[1]), Standing(devices[2])]
    }

    lemma SnapshotIs()
      requires Own()
      ensures Snapshot() == TablesOf(live) && I2cInv(live)
    {
      assert Serves(devices[0], states[0], SensorAt(live, 0));
      assert Serves(devices[1], states[1], SensorAt(live, 1));
      assert Serves(devices[2], states[2], SensorAt(live, 2));
      hide Device.Live, Device.View, I2cInv, BlocksOk;
    }

    // i2c_sensor_setup
    method Setup(cfg: seq<byte>, memory: bool) returns (err: Err, id: nat)
      requires Valid()
      modifies this`live, this`blocks, mgr, mgr.slots, devices, states
      ensures Valid()
      ensures SetupResult(live, mgr.View(), err, id) == old(SetupSpec(live, mgr.View(), cfg, memory))
      ensures SlotsMoved(old(mgr.slots[..]), mgr.slots[..], id)
      ensures err != Success ==> blocks == old(blocks)
      ensures err == Success ==>
                var i := FirstFree(old(live));
                i < states.Length && fresh(Block(states[i])) && blocks == old(blocks) + Block(states[i])
      ensures fresh(blocks - old(blocks))
      ensures SetUp(old(Snapshot()), Snapshot(), |old(mgr.View()).live| < 8, memory, cfg, err)
    {
      hide Own, SetupSpec, SetUp, SensorManager.View, Snapshot, I2cInv, FirstFree, Block, Holds, TablesOf;
      SnapshotIs();
      SetUpIs(live, mgr.View(), cfg, memory);
      err, id := Stages(cfg, memory);
      SnapshotIs();
    }

    /** The stages of a setup, with their rollback. */
    method Stages(cfg: seq<byte>, memory: bool) returns (err: Err, id: nat)
      requires Valid()
      modifies this`live, this`blocks, mgr, mgr.slots, devices, states
      ensures Valid()
      ensures SetupResult(live, mgr.View(), err, id) == old(SetupSpec(live, mgr.View(), cfg, memory))
      ensures SlotsMoved(old(mgr.slots[..]), mgr.slots[..], id)
      ensures err != Success ==> blocks == old(blocks)
      ensures err == Success ==>
                var i := FirstFree(old(live));
                i < states.Length && fresh(Block(states[i])) && blocks == old(blocks) + Block(states[i])
      ensures fresh(blocks - old(blocks))
    {
      hide Holds, NextId, Matches, Taken, Device.Live, Serves, ValidateErr, PresetErr, Wanted, NewSensor,
           I2cInv, BlocksOk, SensorAt;
      id := 0;
      var i := AllocSlot();
      if i == COUNT {
        return I2cNoFreePeripheral, id;
      }
      if |cfg| < CFG_SIZE {
        return MalformedPayload, id;
      }
      err := ValidateErr(Wanted(cfg));
      if err != Success {
        return;
      }
      err := PresetErr(cfg, Wanted(cfg).count);
      if err != Success {
        return;
      }
      if !memory {
        return OutOfResources, id;
      }
      err, id := Commit(i, cfg);
    }

    /** Activation and registration of an accepted request. */
    method Commit(i: nat, cfg: seq<byte>) returns (err: Err, id: nat)
      requires Valid() && i < COUNT && i !in live && CfgErr(cfg) == Success
      modifies this`live, this`blocks, mgr, mgr.slots, devices, states
      ensures Valid()
      ensures SetupResult(live, mgr.View(), err, id) == old(Admit(live, live[i := NewSensor(cfg)], mgr.View(), ID_I2C, i))
      ensures SlotsMoved(old(mgr.slots[..]), mgr.slots[..], id)
      ensures err != Success ==> blocks == old(blocks)
      ensures err == Success ==> i < states.Length && fresh(Block(states[i])) && blocks == old(blocks) + Block(states[i])
      ensures fresh(blocks - old(blocks))
    {
      hide Holds, NextId, Matches, Taken, CfgErr, NewSensor, Own;
      err := Success;
      Activate(i, cfg);
      RegisterSucceeds(mgr.View(), Entry(ID_I2C, i));
      id := mgr.Register(ID_I2C, i);
      if id == 0 {
        Deactivate(i);
        assert live == old(live);
        err := OutOfResources;
      }
    }
  }

  lemma StillServes(d: Device, x: State, s: Sensor)
    requires d.Live() && d.initialized && x.inUse && x.regmap == d.regmap && x.count == d.regmapLen && s == Sensor(d.bus, d.cfg, d.View())
    ensures Serves(d, x, Some(s))
  {
    hide Device.Live;
  }

  lemma NowIdle(d: Device, x: State)
    requires d.Valid() && !d.initialized && x == UNUSED
    ensures Serves(d, x, None)
  {}

  /** memcpy into a register map. */
  method Copy(map': array<byte>, start: nat, bytes: seq<byte>)
    requires start + |bytes| <= map'.Length
    modifies map'
    ensures map'[..] == Overlay(old(map'[..]), start, bytes)
  {
    for k := 0 to |bytes|
      invariant map'[..start] == old(map'[..start])
      invariant forall j :: 0 <= j < k ==> map'[start + j] == bytes[j]
      invariant map'[start + k..] == old(map'[start + k..])
    {
      map'[start + k] := bytes[k];
    }
    assert map'[start..start + |bytes|] == bytes;
    assert map'[..] == map'[..start] + map'[start..start + |bytes|] + map'[start + |bytes|..];
  }

  /** A host write reaches the map the driver serves. */
  method CopyInto(d: Device, map': array<byte>, start: nat, bytes: seq<byte>)
    requires d.Live() && d.regmap == map' && start + |bytes| <= d.regmapLen
    modifies map'
    ensures d.Live() && unchanged(d) && d.View() == old(d.View()).(regs := Overlay(old(d.View()).regs, start, bytes))
  {
    hide Cursor, BigEndian, Overlay;
    Copy(map', start, bytes);
  }

  /** A zeroed register map with the preset copied in. */
  method NewMap(c: seq<byte>) returns (map': array<byte>)
    requires CfgErr(c) == Success
    ensures fresh(map') && map'[..] == InitialRegs(c)
  {
    hide ValidateErr;
    ValidatedPassesDriver(Wanted(c));
    map' := new byte[Wanted(c).count](_ => 0);
    assert map'[..] == Zeros(Wanted(c).count);
    if Read8(c, 24) == 1 {
      LengthSumIsExact(|c|, PRESET_HEADER, Read16(c, 27));
      Copy(map', Read16(c, 25), c[PRESET_HEADER..PRESET_HEADER + Read16(c, 27)]);
    }
  }

  /** The driver of an idle peripheral takes an accepted request: it never refuses. */
  method StartDriver(d: Device, c: seq<byte>) returns (map': array<byte>)
    requires d.Valid() && !d.initialized && CfgErr(c) == Success
    modifies d
    ensures d.Live() && d.initialized && d.regmap == map' && fresh(map')
    ensures d.regmapLen == Wanted(c).count && NewSensor(c) == Sensor(d.bus, d.cfg, d.View())
  {
    hide ValidateErr, PresetErr, InitialRegs, CfgOk, Cursor, BigEndian;
    ValidatedPassesDriver(Wanted(c));
    map' := NewMap(c);
    var err := d.Init(map', DriverCfg(Wanted(c)), Wanted(c).bus);
    if err != Success {
      // The source frees the slot here; an accepted request never gets there on a free slot.
      assert false;
    }
  }

  lemma LiveSize(d: Device)
    requires d.Live()
    ensures d.regmap != null && d.regmapLen == |d.View().regs|
  {}
}
