/** The commands of the engine as contracts over payload bytes and the tables of the backends
    (dispatcher.c): what each command does to what the tables own, and to nothing else. */
module Effects {
  import opened Wrappers
  import opened Sensors
  import opened Wire
  import opened HwTimer
  import Framing
  import Spi
  import Pwm
  import Dac
  import SpiSensor
  import I2cSensor
  import DigitalOut
  import B = Bench

  /** The tables of all backends at one moment. */
  datatype Raw = Raw(pwm: Pwm.Tables, dac: Dac.Tables, slaves: seq<SpiSensor.Cell>,
                     i2c: I2cSensor.Tables, outputs: seq<DigitalOut.Cell>, pins: seq<PortBits>)

  /** What those tables own: the whole PWM snapshot; DAC chips with flag, mask and configuration,
      pool entries, SPI claims and driver states, number of semaphores; slave entries; what the I2C
      peripherals serve; digital outputs with their pins. */
  datatype Holdings = Holdings(pwm: Pwm.Tables, dac: Dac.Holding, slaves: seq<bool>,
                               i2c: I2cSensor.Tables, outputs: seq<Option<DigitalOut.Cell>>, pins: seq<PortBits>)

  function InUse(cells: seq<SpiSensor.Cell>): seq<bool> {
    seq(|cells|, p requires 0 <= p < |cells| => cells[p].inUse)
  }

  ghost function HoldingsOf(x: Raw): Holdings {
    Holdings(x.pwm, Dac.Held(x.dac), InUse(x.slaves), x.i2c, DigitalOut.Held(x.outputs), x.pins)
  }

  /** The tables hold the abstract engine. */
  ghost predicate Stands(x: Raw, b: B.Bench) {
    && Pwm.Agree(x.pwm, b.pwm) && x.pwm.ts == b.ts
    && Dac.Agree(x.dac, b.dac) && Spi.SlavesOf(x.dac.ports) == b.spi
    && SpiSensor.CellsAgree(x.slaves, b.spi) && x.i2c == I2cSensor.TablesOf(b.i2c) && DigitalOut.Agree(x.outputs, x.pins, b.dig)
  }

  /** The backends of two engines are in the same state, whatever their sensor tables. */
  predicate SameBackends(b: B.Bench, b': B.Bench) {
    (b.pwm, b.ts, b.dac, b.spi, b.i2c, b.dig) == (b'.pwm, b'.ts, b'.dac, b'.spi, b'.i2c, b'.dig)
  }

  /** The abstract engine determines what the tables own. */
  lemma HoldingsAreDetermined(x: Raw, b: B.Bench, y: Raw, b': B.Bench)
    requires Stands(x, b) && Stands(y, b') && SameBackends(b, b')
    ensures HoldingsOf(x) == HoldingsOf(y)
  {
    hide Pwm.Agree, Dac.Agree, DigitalOut.Agree, Spi.SlavesOf, Dac.Held, DigitalOut.Held, I2cSensor.TablesOf;
    Pwm.TablesAreDetermined(x.pwm, y.pwm, b.pwm);
    Dac.HeldIsDetermined(x.dac, y.dac, b.dac);
    DigitalOut.HeldIsDetermined(x.outputs, x.pins, y.outputs, y.pins, b.dig);
  }

  /** What the tables own, at other timers. */
  ghost function AtTimers(h: Holdings, ts: seq<Timer>): Holdings {
    h.(pwm := h.pwm.(ts := ts))
  }

  /** A refused digital-out setup changes nothing the tables own but the timers. */
  lemma RefusalMovesPulses(x: Raw, b: B.Bench, y: Raw, cfg: seq<byte>, env: B.Env)
    requires B.Inv(b) && Stands(x, b) && B.Setup(b, ID_DIGITAL_OUT, cfg, env).1 != Success
    requires Stands(y, B.Setup(b, ID_DIGITAL_OUT, cfg, env).0)
    ensures HoldingsOf(y) == AtTimers(HoldingsOf(x), y.pwm.ts)
  {
    hide B.Inv, B.Setup, Pwm.Agree, Dac.Agree, DigitalOut.Agree, Spi.SlavesOf, Dac.Held, DigitalOut.Held;
    var b' := B.Setup(b, ID_DIGITAL_OUT, cfg, env).0;
    B.FailedSetupChangesNothing(b, ID_DIGITAL_OUT, cfg, env);
    B.DigitalSparesPwm(b, cfg);
    PulsesMoved(x.pwm, b'.ts, b.pwm);
    HoldingsAreDetermined(x.(pwm := x.pwm.(ts := b'.ts)), b', y, b');
  }

  /** STOP on the id a setup answered restores every backend and the live sensors. */
  lemma SetupIsUndone(b: B.Bench, proto: nat, cfg: seq<byte>, env: B.Env)
    requires B.Inv(b) && proto != ID_DIGITAL_OUT && B.Setup(b, proto, cfg, env).1 == Success
    ensures B.Setup(b, proto, cfg, env).2 !in b.table.live && B.Setup(b, proto, cfg, env).2 != 0
    ensures var (b2, err) := B.Stop(B.Setup(b, proto, cfg, env).0, B.Setup(b, proto, cfg, env).2);
      err == Success && SameBackends(b2, b) && b2.table.live == b.table.live
  {
    hide B.Inv, B.Setup, B.Stop;
    B.StopUndoesSetup(b, proto, cfg, env);
    B.AnswersLiveId(b, proto, cfg, env);
  }

  /** A refused setup leaves them alone. */
  lemma RefusalIsUndone(b: B.Bench, proto: nat, cfg: seq<byte>, env: B.Env)
    requires B.Inv(b) && proto != ID_DIGITAL_OUT && B.Setup(b, proto, cfg, env).1 != Success
    ensures B.Setup(b, proto, cfg, env).0 == b && SameBackends(b, b)
  {
    hide B.Inv, B.Setup;
    B.FailedSetupChangesNothing(b, proto, cfg, env);
  }

  lemma PulsesMoved(x: Pwm.Tables, ts: seq<Timer>, live: Pwm.Live)
    requires Pwm.Agree(x, live) && DigitalOut.SamePwm(x.ts, ts)
    ensures Pwm.Agree(x.(ts := ts), live)
  {
    hide Pwm.Agree;
    Pwm.PulsesDoNotMatter(x, ts, live);
  }

  // ---------------------------------------------------------------- commands over payload bytes and tables

  /** The tables the digital-out backend works on. */
  function Dig(x: Raw): DigitalOut.Tables {
    DigitalOut.Tables(x.outputs, x.pins, x.pwm.ts)
  }

  predicate Shaped(x: Raw) {
    Pwm.Shape(x.pwm) && Dac.Shape(x.dac) && |x.i2c| == 3 && DigitalOut.Shape(Dig(x))
  }

  lemma StandsShaped(x: Raw, b: B.Bench)
    requires Stands(x, b) && B.Inv(b)
    ensures Shaped(x) && PoolOk(x.pwm.ts) && Spi.PortsOk(x.dac.ports)
  {
    hide B.Inv, Dac.LiveOk, Dac.ChipsAgree, Dac.CellsAgree, Dac.SemsAgree, HasBit;
    Pwm.AgreeShape(x.pwm, b.pwm);
    Dac.AgreeShape(x.dac, b.dac);
    Dac.MastersRun(x.dac, b.dac);
    DigitalOut.AgreeShape(Dig(x), b.dig);
  }

  /** A slave entry is in use exactly while its peripheral is claimed by the slave driver. */
  predicate EntriesMatch(x: Raw)
    requires Shaped(x)
  {
    |x.slaves| == 2 && forall p :: 0 <= p < 2 ==> (x.slaves[p].inUse <==> x.dac.ports[p].owner == Some(Spi.Slave))
  }

  /** A setup of protocol `proto` over payload bytes and tables: the backend of that protocol does what
      its own contract says, and nothing any other backend owns changes. */
  ghost predicate SetUp(x: Raw, y: Raw, proto: nat, room: bool, c: seq<byte>, env: B.Env, err: Err, sent: seq<(nat, seq<byte>)>)
    requires Shaped(x) && Shaped(y)
  {
    var h := HoldingsOf(x);
    && (proto != 0x05 ==> sent == [])
    && if proto == 0x06 then Pwm.SetUp(x.pwm, y.pwm, room, c, err) && HoldingsOf(y) == h.(pwm := y.pwm)
       else if proto == 0x05 then Dac.SetUp(x.dac, y.dac, room, c, env.dac, err, sent) && HoldingsOf(y) == h.(dac := Dac.Held(y.dac))
       else if proto == 0x02 then
         && SpiSensor.SetUp(x.dac.ports, y.dac.ports, room, c, err) && EntriesMatch(y)
         && HoldingsOf(y) == h.(dac := h.dac.(ports := y.dac.ports), slaves := InUse(y.slaves))
       else if proto == 0x01 then I2cSensor.SetUp(x.i2c, y.i2c, room, env.memory, c, err) && HoldingsOf(y) == h.(i2c := y.i2c)
       else if proto == 0x03 then
         && DigitalOut.SetUp(Dig(x), Dig(y), room, c, err)
         && HoldingsOf(y) == h.(outputs := DigitalOut.Held(y.outputs), pins := y.pins, pwm := x.pwm.(ts := y.pwm.ts))
       else err == Unsupported && HoldingsOf(y) == h
  }

  /** A SET_OUTPUT for entry `i` of protocol `proto`, likewise. */
  ghost predicate Output(x: Raw, y: Raw, proto: nat, i: nat, v: seq<byte>, env: B.Env, err: Err, sent: seq<(nat, seq<byte>)>)
    requires Shaped(x) && Shaped(y)
  {
    var h := HoldingsOf(x);
    && (proto != 0x05 ==> sent == [])
    && if proto == 0x06 then i < 28 && Pwm.Retuned(x.pwm, y.pwm, i, v, err) && HoldingsOf(y) == h.(pwm := y.pwm)
       else if proto == 0x05 then i < 16 && Dac.Written(x.dac, i, v, env.dac.write, err, sent) && HoldingsOf(y) == h
       else if proto == 0x02 then
         && i < 2 && SpiSensor.Reloaded(x.dac.ports, y.dac.ports, i, v, err)
         && HoldingsOf(y) == h.(dac := h.dac.(ports := y.dac.ports))
       else if proto == 0x01 then i < 3 && I2cSensor.Overwritten(x.i2c, y.i2c, i, v, err) && HoldingsOf(y) == h.(i2c := y.i2c)
       else
         && proto == 0x03 && i < 8 && DigitalOut.Driven(Dig(x), y.outputs, i, v, env.timer, err)
         && HoldingsOf(y) == h.(outputs := DigitalOut.Held(y.outputs))
  }

  /** A STOP of entry `i` of protocol `proto`, likewise. */
  ghost predicate Stopped(x: Raw, y: Raw, proto: nat, i: nat, err: Err)
    requires Shaped(x) && Shaped(y)
  {
    var h := HoldingsOf(x);
    if proto == 0x06 then i < 28 && Pwm.Halted(x.pwm, y.pwm, i, err) && HoldingsOf(y) == h.(pwm := y.pwm)
    else if proto == 0x05 then i < 16 && Dac.Closes(x.dac, y.dac, i, err) && HoldingsOf(y) == h.(dac := Dac.Held(y.dac))
    else if proto == 0x02 then
      && i < 2 && SpiSensor.Freed(x.dac.ports, y.dac.ports, i, err) && EntriesMatch(y)
      && HoldingsOf(y) == h.(dac := h.dac.(ports := y.dac.ports), slaves := InUse(y.slaves))
    else if proto == 0x01 then i < 3 && I2cSensor.Silenced(x.i2c, y.i2c, i, err) && HoldingsOf(y) == h.(i2c := y.i2c)
    else
      && proto == 0x03 && i < 8 && DigitalOut.Halted(Dig(x), Dig(y), i, err)
      && HoldingsOf(y) == h.(outputs := DigitalOut.Held(y.outputs), pins := y.pins, pwm := x.pwm.(ts := y.pwm.ts))
  }

  /** A frame over payload bytes and tables, with its reply and the words sent to the DAC chips:
      type 5 is SYNC, 4 the scenario command, 1 SETUP, 2 SET_OUTPUT, 3 STOP. */
  ghost predicate Handled(x: Raw, y: Raw, live: map<nat, Entry>, f: Framing.Frame, env: B.Env, r: B.Reply, sent: seq<(nat, seq<byte>)>)
    requires Shaped(x) && Shaped(y)
  {
    && r.cmd == f.ftype && r.seqno == f.seqno
    && if f.ftype == 5 then (r.err, r.id, sent) == (Success, 0, []) && HoldingsOf(y) == HoldingsOf(x)
       else if f.ftype == 4 then (r.err, r.id, sent) == (NotImplemented, 0, []) && HoldingsOf(y) == HoldingsOf(x)
       else if f.ftype == 0 || f.ftype > 5 then (r.err, r.id, sent) == (UnknownCmd, 0, []) && HoldingsOf(y) == HoldingsOf(x)
       else if f.payload == [] then (r.err, r.id, sent) == (MalformedPayload, 0, []) && HoldingsOf(y) == HoldingsOf(x)
       else
         var head, rest := f.payload[0] as nat, f.payload[1..];
         if f.ftype == 1 then
           && SetUp(x, y, head, |live| < 8, rest, env, r.err, sent)
           && (r.err == Success <==> r.id != 0) && (r.err == Success ==> r.id !in live)
         else if head !in live then (r.err, r.id, sent) == (InvalidSensorId, head, []) && HoldingsOf(y) == HoldingsOf(x)
         else if f.ftype == 2 then r.id == head && Output(x, y, live[head].proto, live[head].internal, rest, env, r.err, sent)
         else r.id == head && sent == [] && r.err == Success && Stopped(x, y, live[head].proto, live[head].internal, Success)
  }

  // ---------------------------------------------------------------- what a backend leaves alone

  /** Everything but the PWM tables is determined by the other backends. */
  lemma OnlyPwm(x: Raw, b: B.Bench, y: Raw, b': B.Bench)
    requires Stands(x, b) && Stands(y, b') && (b.dac, b.spi, b.i2c, b.dig) == (b'.dac, b'.spi, b'.i2c, b'.dig)
    ensures HoldingsOf(y) == HoldingsOf(x).(pwm := y.pwm)
  {
    hide Pwm.Agree, Dac.Agree, DigitalOut.Agree, Spi.SlavesOf, Dac.Held, DigitalOut.Held, I2cSensor.TablesOf;
    Dac.HeldIsDetermined(x.dac, y.dac, b.dac);
    DigitalOut.HeldIsDetermined(x.outputs, x.pins, y.outputs, y.pins, b.dig);
  }

  lemma OnlyDac(x: Raw, b: B.Bench, y: Raw, b': B.Bench)
    requires Stands(x, b) && Stands(y, b') && (b.pwm, b.ts, b.spi, b.i2c, b.dig) == (b'.pwm, b'.ts, b'.spi, b'.i2c, b'.dig)
    ensures HoldingsOf(y) == HoldingsOf(x).(dac := Dac.Held(y.dac))
  {
    hide Pwm.Agree, Dac.Agree, DigitalOut.Agree, Spi.SlavesOf, Dac.Held, DigitalOut.Held, I2cSensor.TablesOf;
    Pwm.TablesAreDetermined(x.pwm, y.pwm, b.pwm);
    DigitalOut.HeldIsDetermined(x.outputs, x.pins, y.outputs, y.pins, b.dig);
  }

  /** Slaves change the shared ports, and nothing else the DAC tables own. */
  lemma OnlyPorts(x: Raw, b: B.Bench, y: Raw, b': B.Bench)
    requires Stands(x, b) && Stands(y, b') && b.dac == b'.dac
    ensures Dac.Held(y.dac) == Dac.Held(x.dac).(ports := y.dac.ports)
  {
    hide Pwm.Agree, Dac.Agree, DigitalOut.Agree, Spi.SlavesOf, Spi.MastersOf, DigitalOut.Held, I2cSensor.TablesOf;
    Dac.MastersRun(x.dac, b.dac);
    Dac.MastersRun(y.dac, b.dac);
    Dac.SlavesDoNotMatter(x.dac, y.dac.ports, b.dac);
    Dac.HeldIsDetermined(x.dac.(ports := y.dac.ports), y.dac, b.dac);
  }

  lemma OnlySpi(x: Raw, b: B.Bench, y: Raw, b': B.Bench)
    requires Stands(x, b) && Stands(y, b') && (b.pwm, b.ts, b.dac, b.i2c, b.dig) == (b'.pwm, b'.ts, b'.dac, b'.i2c, b'.dig)
    ensures HoldingsOf(y) == HoldingsOf(x).(dac := HoldingsOf(x).dac.(ports := y.dac.ports), slaves := InUse(y.slaves))
  {
    hide Pwm.Agree, Dac.Agree, DigitalOut.Agree, Spi.SlavesOf, Dac.Held, DigitalOut.Held, I2cSensor.TablesOf, SpiSensor.CellsAgree;
    Pwm.TablesAreDetermined(x.pwm, y.pwm, b.pwm);
    OnlyPorts(x, b, y, b');
    DigitalOut.HeldIsDetermined(x.outputs, x.pins, y.outputs, y.pins, b.dig);
  }

  lemma OnlyI2c(x: Raw, b: B.Bench, y: Raw, b': B.Bench)
    requires Stands(x, b) && Stands(y, b') && (b.pwm, b.ts, b.dac, b.spi, b.dig) == (b'.pwm, b'.ts, b'.dac, b'.spi, b'.dig)
    ensures HoldingsOf(y) == HoldingsOf(x).(i2c := y.i2c)
  {
    hide Pwm.Agree, Dac.Agree, DigitalOut.Agree, Spi.SlavesOf, Dac.Held, DigitalOut.Held, I2cSensor.TablesOf;
    Pwm.TablesAreDetermined(x.pwm, y.pwm, b.pwm);
    Dac.HeldIsDetermined(x.dac, y.dac, b.dac);
    DigitalOut.HeldIsDetermined(x.outputs, x.pins, y.outputs, y.pins, b.dig);
  }

  lemma OnlyDigital(x: Raw, b: B.Bench, y: Raw, b': B.Bench)
    requires Stands(x, b) && Stands(y, b') && (b.pwm, b.dac, b.spi, b.i2c) == (b'.pwm, b'.dac, b'.spi, b'.i2c)
    requires DigitalOut.SamePwm(b.ts, b'.ts)
    ensures HoldingsOf(y) == HoldingsOf(x).(outputs := DigitalOut.Held(y.outputs), pins := y.pins, pwm := x.pwm.(ts := y.pwm.ts))
  {
    hide Pwm.Agree, Dac.Agree, DigitalOut.Agree, Spi.SlavesOf, Dac.Held, DigitalOut.Held, I2cSensor.TablesOf;
    PulsesMoved(x.pwm, b'.ts, b.pwm);
    Pwm.TablesAreDetermined(x.pwm.(ts := b'.ts), y.pwm, b.pwm);
    Dac.HeldIsDetermined(x.dac, y.dac, b.dac);
  }

  lemma SlaveEntries(x: Raw, b: B.Bench)
    requires Stands(x, b) && Shaped(x) && Spi.PortsOk(x.dac.ports)
    ensures EntriesMatch(x)
  {
    hide Pwm.Agree, Dac.Agree, DigitalOut.Agree, Spi.SlavesOf, Spi.PortsOk;
    SpiSensor.PortIs(x.dac.ports, 0);
    SpiSensor.PortIs(x.dac.ports, 1);
  }

  // ---------------------------------------------------------------- the reference commands have these effects

  lemma PwmSetUp(x: Raw, b: B.Bench, y: Raw, c: seq<byte>, env: B.Env)
    requires B.Inv(b) && Stands(x, b) && Shaped(x) && Shaped(y) && Stands(y, B.SetupPwm(b, c).0)
    ensures SetUp(x, y, ID_PWM, |b.table.live| < 8, c, env, B.SetupPwm(b, c).1, [])
  {
    hide Pwm.Agree, Dac.Agree, DigitalOut.Agree, Spi.SlavesOf, HoldingsOf, Pwm.SetUp, Pwm.SetupSpec, Acquire, Pwm.Wanted,
         SpiSensor.CellsAgree, I2cSensor.TablesOf, B.BackendsOk, B.Used, B.Matched;
    var b' := B.SetupPwm(b, c).0;
    var r := Pwm.SetupSpec(b.pwm, Pulses(b.ts), b.table, c);
    OnlyPwm(x, b, y, b');
    PwmSetupTables(x, b, y, c);
    Pwm.SetUpIs(x.pwm, b.pwm, b.table, c, y.pwm, r);
  }

  lemma PwmSetupTables(x: Raw, b: B.Bench, y: Raw, c: seq<byte>)
    requires B.Inv(b) && Stands(x, b) && Stands(y, B.SetupPwm(b, c).0)
    ensures var r := Pwm.SetupSpec(b.pwm, Pulses(b.ts), b.table, c);
      && (r.err != Success ==> y.pwm == x.pwm)
      && (r.err == Success ==> |c| >= Pwm.PWM_CFG_SIZE && y.pwm.ts == Acquire(x.pwm.ts, Pwm.Wanted(c).timer, Pwm.Wanted(c).freq).0)
  {
    hide Pwm.Agree, Dac.Agree, DigitalOut.Agree, Spi.SlavesOf, Acquire, Pwm.Wanted, SpiSensor.CellsAgree, I2cSensor.TablesOf,
         B.BackendsOk, B.Used, B.Matched, Pwm.GoodParams, Pwm.PinTaken, Pwm.FreqClash, Registered;
    if Pwm.SetupSpec(b.pwm, Pulses(b.ts), b.table, c).err != Success {
      Pwm.TablesAreDetermined(x.pwm, y.pwm, b.pwm);
    }
  }

  lemma DacSetUp(x: Raw, b: B.Bench, y: Raw, c: seq<byte>, env: B.Env)
    requires B.Inv(b) && Stands(x, b) && Shaped(x) && Shaped(y) && Stands(y, B.SetupDac(b, c, env.dac).0)
    ensures SetUp(x, y, ID_DAC, |b.table.live| < 8, c, env, B.SetupDac(b, c, env.dac).1, Dac.SetupWords(b.dac, b.spi, c, env.dac))
  {
    hide Pwm.Agree, Dac.Agree, DigitalOut.Agree, Spi.SlavesOf, HoldingsOf, Dac.SetUp, Dac.SetupSpec, Dac.SetupWords, Dac.Held,
         SpiSensor.CellsAgree, I2cSensor.TablesOf, B.BackendsOk, B.Used, B.Matched;
    OnlyDac(x, b, y, B.SetupDac(b, c, env.dac).0);
    Dac.SetUpIs(x.dac, b.dac, b.table, c, env.dac, y.dac, Dac.SetupSpec(b.dac, b.spi, b.table, c, env.dac));
  }

  lemma SpiSetUp(x: Raw, b: B.Bench, y: Raw, c: seq<byte>, env: B.Env)
    requires B.Inv(b) && Stands(x, b) && Shaped(x) && Shaped(y) && Stands(y, B.SetupSpi(b, c).0)
    requires Spi.PortsOk(x.dac.ports) && Spi.PortsOk(y.dac.ports)
    ensures SetUp(x, y, ID_SPI, |b.table.live| < 8, c, env, B.SetupSpi(b, c).1, [])
  {
    hide Pwm.Agree, Dac.Agree, DigitalOut.Agree, Spi.SlavesOf, Spi.MastersOf, Spi.PortsOk, HoldingsOf, SpiSensor.SetUp, SpiSensor.SetupSpec,
         SpiSensor.CellsAgree, I2cSensor.TablesOf, B.BackendsOk, B.Used, B.Matched, EntriesMatch;
    OnlySpi(x, b, y, B.SetupSpi(b, c).0);
    SlaveEntries(y, B.SetupSpi(b, c).0);
    Dac.MastersRun(x.dac, b.dac);
    Dac.MastersRun(y.dac, b.dac);
    SpiSensor.SetUpIs(x.dac.ports, y.dac.ports, b.table, c, SpiSensor.SetupSpec(b.spi, b.dac.Keys, b.table, c));
  }

  lemma I2cSetUp(x: Raw, b: B.Bench, y: Raw, c: seq<byte>, env: B.Env)
    requires B.Inv(b) && Stands(x, b) && Shaped(x) && Shaped(y) && Stands(y, B.SetupI2c(b, c, env.memory).0)
    ensures SetUp(x, y, ID_I2C, |b.table.live| < 8, c, env, B.SetupI2c(b, c, env.memory).1, [])
  {
    B.I2cOk(b);
    hide Pwm.Agree, Dac.Agree, DigitalOut.Agree, Spi.SlavesOf, HoldingsOf, I2cSensor.SetUp, I2cSensor.SetupSpec, I2cSensor.I2cInv,
         SpiSensor.CellsAgree, I2cSensor.TablesOf, B.BackendsOk, B.Used, B.Matched;
    OnlyI2c(x, b, y, B.SetupI2c(b, c, env.memory).0);
    I2cSensor.SetUpIs(b.i2c, b.table, c, env.memory);
  }

  lemma DigitalSetUp(x: Raw, b: B.Bench, y: Raw, c: seq<byte>, env: B.Env)
    requires B.Inv(b) && Stands(x, b) && Shaped(x) && Shaped(y) && Stands(y, B.SetupDigital(b, c).0)
    requires PoolOk(x.pwm.ts) && PoolOk(y.pwm.ts)
    ensures SetUp(x, y, ID_DIGITAL_OUT, |b.table.live| < 8, c, env, B.SetupDigital(b, c).1, [])
  {
    B.DigitalSparesPwm(b, c);
    hide Pwm.Agree, Dac.Agree, DigitalOut.Agree, Spi.SlavesOf, HoldingsOf, DigitalOut.SetUp, DigitalOut.SetupSpec, DigitalOut.SamePwm,
         SpiSensor.CellsAgree, I2cSensor.TablesOf, B.BackendsOk, B.Used, B.Matched, PoolOk;
    OnlyDigital(x, b, y, B.SetupDigital(b, c).0);
    DigitalOut.SetUpIs(Dig(x), b.dig, b.table, c, Dig(y), DigitalOut.SetupSpec(b.dig, b.ts, b.table, c).0);
  }

  /** The reference setup of the engine has this effect on any tables that stand for it. */
  lemma SetUpIs(x: Raw, b: B.Bench, y: Raw, proto: nat, c: seq<byte>, env: B.Env)
    requires B.Inv(b) && Stands(x, b) && B.Inv(B.Setup(b, proto, c, env).0) && Stands(y, B.Setup(b, proto, c, env).0)
    ensures Shaped(x) && Shaped(y)
    ensures SetUp(x, y, proto, |b.table.live| < 8, c, env, B.Setup(b, proto, c, env).1,
                  if proto == ID_DAC then Dac.SetupWords(b.dac, b.spi, c, env.dac) else [])
  {
    hide B.Inv, Stands, SetUp, B.SetupPwm, B.SetupDac, B.SetupSpi, B.SetupI2c, B.SetupDigital, Shaped, Spi.PortsOk, PoolOk;
    StandsShaped(x, b);
    StandsShaped(y, B.Setup(b, proto, c, env).0);
    if proto == ID_PWM {
      PwmSetUp(x, b, y, c, env);
    } else if proto == ID_DAC {
      DacSetUp(x, b, y, c, env);
    } else if proto == ID_SPI {
      SpiSetUp(x, b, y, c, env);
    } else if proto == ID_I2C {
      I2cSetUp(x, b, y, c, env);
    } else if proto == ID_DIGITAL_OUT {
      DigitalSetUp(x, b, y, c, env);
    } else {
      UnsupportedSetUp(x, b, y, proto, c, env);
    }
  }

  lemma UnsupportedSetUp(x: Raw, b: B.Bench, y: Raw, proto: nat, c: seq<byte>, env: B.Env)
    requires Stands(x, b) && Stands(y, b) && Shaped(x) && Shaped(y)
    requires proto !in B.PROTOCOLS
    ensures SetUp(x, y, proto, |b.table.live| < 8, c, env, Unsupported, [])
  {
    hide Stands, HoldingsOf;
    HoldingsAreDetermined(x, b, y, b);
  }

  lemma PwmOutput(x: Raw, b: B.Bench, y: Raw, b': B.Bench, i: nat, v: seq<byte>, env: B.Env)
    requires Stands(x, b) && Shaped(x) && Shaped(y) && Stands(y, b') && i < Pwm.POOL
    requires b' == b.(pwm := Pwm.SetOutputSpec(b.pwm, i, v).0)
    ensures Output(x, y, ID_PWM, i, v, env, Pwm.SetOutputSpec(b.pwm, i, v).1, [])
  {
    hide Pwm.Agree, Dac.Agree, DigitalOut.Agree, Spi.SlavesOf, HoldingsOf, Pwm.Retuned, Pwm.SetOutputSpec, SpiSensor.CellsAgree, I2cSensor.TablesOf;
    OnlyPwm(x, b, y, b');
    Pwm.RetunedIs(x.pwm, b.pwm, i, v, y.pwm);
  }

  lemma DacOutput(x: Raw, b: B.Bench, y: Raw, i: nat, v: seq<byte>, env: B.Env)
    requires Stands(x, b) && Shaped(x) && Shaped(y) && Stands(y, b) && i < Dac.POOL
    ensures Output(x, y, ID_DAC, i, v, env, Dac.SetOutputErr(b.dac, i, v, env.dac.write), Dac.OutputWords(b.dac, i, v))
  {
    HoldingsAreDetermined(x, b, y, b);
    hide Pwm.Agree, Dac.Agree, DigitalOut.Agree, Spi.SlavesOf, HoldingsOf, Dac.Written, Dac.OutputWords, SpiSensor.CellsAgree, I2cSensor.TablesOf;
    Dac.WrittenIs(x.dac, b.dac, i, v, env.dac.write);
  }

  lemma SpiOutput(x: Raw, b: B.Bench, y: Raw, b': B.Bench, i: nat, v: seq<byte>, env: B.Env)
    requires Stands(x, b) && Shaped(x) && Shaped(y) && Stands(y, b') && i < Spi.PERIPHS
    requires Spi.PortsOk(x.dac.ports) && Spi.PortsOk(y.dac.ports)
    requires b' == b.(spi := SpiSensor.SetOutputSpec(b.spi, i, v).0)
    ensures Output(x, y, ID_SPI, i, v, env, SpiSensor.SetOutputSpec(b.spi, i, v).1, [])
  {
    hide Pwm.Agree, Dac.Agree, DigitalOut.Agree, Spi.SlavesOf, Spi.MastersOf, Spi.PortsOk, HoldingsOf, SpiSensor.Reloaded, I2cSensor.TablesOf,
         SpiSensor.CellsAgree;
    OnlySpi(x, b, y, b');
    SameEntries(x, b, y, b');
    Dac.MastersRun(x.dac, b.dac);
    Dac.MastersRun(y.dac, b.dac);
    hide SpiSensor.SetOutputSpec;
    SpiSensor.ReloadedIs(x.dac.ports, y.dac.ports, i, v);
  }

  lemma SameEntries(x: Raw, b: B.Bench, y: Raw, b': B.Bench)
    requires Stands(x, b) && Stands(y, b') && b.spi.Keys == b'.spi.Keys && b.dac == b'.dac
    ensures HoldingsOf(x).slaves == InUse(x.slaves) == InUse(y.slaves)
  {
    hide Pwm.Agree, Dac.Agree, DigitalOut.Agree, Spi.SlavesOf, I2cSensor.TablesOf;
    assert forall p :: p in b.spi <==> p in b.spi.Keys;
    assert forall p :: p in b'.spi <==> p in b'.spi.Keys;
  }

  lemma I2cOutput(x: Raw, b: B.Bench, y: Raw, b': B.Bench, i: nat, v: seq<byte>, env: B.Env)
    requires Stands(x, b) && Shaped(x) && Shaped(y) && Stands(y, b') && i < I2cSensor.COUNT && I2cSensor.I2cInv(b.i2c)
    requires i in b.i2c ==> |b.i2c[i].file.regs| <= I2cSensor.REGMAP_MAX
    requires b' == b.(i2c := I2cSensor.SetOutputSpec(b.i2c, i, v).0)
    ensures Output(x, y, ID_I2C, i, v, env, I2cSensor.SetOutputSpec(b.i2c, i, v).1, [])
  {
    hide Pwm.Agree, Dac.Agree, DigitalOut.Agree, Spi.SlavesOf, HoldingsOf, I2cSensor.Overwritten, I2cSensor.SetOutputSpec, I2cSensor.I2cInv,
         SpiSensor.CellsAgree, I2cSensor.TablesOf;
    OnlyI2c(x, b, y, b');
    I2cSensor.OverwrittenIs(b.i2c, i, v);
  }

  lemma DigitalOutput(x: Raw, b: B.Bench, y: Raw, b': B.Bench, i: nat, v: seq<byte>, env: B.Env)
    requires Stands(x, b) && Shaped(x) && Shaped(y) && Stands(y, b') && i < DigitalOut.POOL && PoolOk(x.pwm.ts)
    requires b' == b.(dig := DigitalOut.SetOutputSpec(b.dig, b.ts, i, v, env.timer).0)
    ensures Output(x, y, ID_DIGITAL_OUT, i, v, env, DigitalOut.SetOutputSpec(b.dig, b.ts, i, v, env.timer).1, [])
  {
    SamePins(b, i, v, env);
    hide Pwm.Agree, Dac.Agree, DigitalOut.Agree, Spi.SlavesOf, HoldingsOf, DigitalOut.Driven, DigitalOut.SetOutputSpec,
         SpiSensor.CellsAgree, I2cSensor.TablesOf, PoolOk, DigitalOut.PinsOf;
    OnlyOutputs(x, b, y, b');
    DigitalOut.DrivenIs(Dig(x), b.dig, i, v, env.timer, Dig(y));
  }

  lemma SamePins(b: B.Bench, i: nat, v: seq<byte>, env: B.Env)
    requires |b.ts| == COUNT
    ensures DigitalOut.PinsOf(DigitalOut.SetOutputSpec(b.dig, b.ts, i, v, env.timer).0) == DigitalOut.PinsOf(b.dig)
  {
    hide Read32, DigitalOut.MaxPulse;
    var after := DigitalOut.SetOutputSpec(b.dig, b.ts, i, v, env.timer).0;
    assert forall k :: k in b.dig <==> k in after;
    assert forall k :: k in b.dig ==> after[k].pin == b.dig[k].pin;
  }

  lemma OnlyOutputs(x: Raw, b: B.Bench, y: Raw, b': B.Bench)
    requires Stands(x, b) && Stands(y, b') && (b.pwm, b.ts, b.dac, b.spi, b.i2c) == (b'.pwm, b'.ts, b'.dac, b'.spi, b'.i2c)
    requires DigitalOut.PinsOf(b.dig) == DigitalOut.PinsOf(b'.dig)
    ensures HoldingsOf(y) == HoldingsOf(x).(outputs := DigitalOut.Held(y.outputs))
  {
    hide Pwm.Agree, Dac.Agree, Spi.SlavesOf, Dac.Held, DigitalOut.Held, I2cSensor.TablesOf, BitmapIs, DigitalOut.PinsOf;
    Pwm.TablesAreDetermined(x.pwm, y.pwm, b.pwm);
    Dac.HeldIsDetermined(x.dac, y.dac, b.dac);
    SameBitmap(x.pins, y.pins, DigitalOut.PinsOf(b.dig));
  }

  /** The words a SET_OUTPUT for a live id sends. */
  function WordsFor(b: B.Bench, id: nat, v: seq<byte>): seq<(nat, seq<byte>)> {
    if id in b.table.live && b.table.live[id].proto == ID_DAC then Dac.OutputWords(b.dac, b.table.live[id].internal, v) else []
  }

  /** The reference SET_OUTPUT of the engine has this effect on any tables that stand for it. */
  lemma OutputIs(x: Raw, b: B.Bench, y: Raw, id: nat, v: seq<byte>, env: B.Env)
    requires B.Inv(b) && Stands(x, b) && id in b.table.live
    requires B.Inv(B.SetOutput(b, id, v, env).0) && Stands(y, B.SetOutput(b, id, v, env).0)
    ensures Shaped(x) && Shaped(y)
    ensures Output(x, y, b.table.live[id].proto, b.table.live[id].internal, v, env, B.SetOutput(b, id, v, env).1, WordsFor(b, id, v))
  {
    hide B.Inv, Stands, Output, Shaped, Spi.PortsOk, PoolOk, I2cSensor.I2cInv, Dac.OutputWords,
         Pwm.SetOutputSpec, SpiSensor.SetOutputSpec, I2cSensor.SetOutputSpec, DigitalOut.SetOutputSpec, Dac.SetOutputErr;
    StandsShaped(x, b);
    StandsShaped(y, B.SetOutput(b, id, v, env).0);
    B.InPool(b, id);
    B.I2cOk(b);
    var Entry(proto, i) := b.table.live[id];
    var b' := B.SetOutput(b, id, v, env).0;
    if proto == ID_PWM {
      PwmOutput(x, b, y, b', i, v, env);
    } else if proto == ID_DAC {
      DacOutput(x, b, y, i, v, env);
    } else if proto == ID_SPI {
      SpiOutput(x, b, y, b', i, v, env);
    } else if proto == ID_I2C {
      I2cSensor.InvSize(b.i2c, i);
      I2cOutput(x, b, y, b', i, v, env);
    } else {
      DigitalOutput(x, b, y, b', i, v, env);
    }
  }

  lemma PwmStopped(x: Raw, b: B.Bench, y: Raw, b': B.Bench, i: nat)
    requires Stands(x, b) && Shaped(x) && Shaped(y) && Stands(y, b') && i < Pwm.POOL && i in b.pwm && |b.ts| == COUNT
    requires b' == b.(pwm := b.pwm - {i}, ts := Release(b.ts, b.pwm[i].timer), table := b'.table)
    ensures Stopped(x, y, ID_PWM, i, Success)
  {
    hide Pwm.Agree, Dac.Agree, DigitalOut.Agree, Spi.SlavesOf, HoldingsOf, Pwm.Halted, Release, SpiSensor.CellsAgree, I2cSensor.TablesOf;
    OnlyPwm(x, b, y, b');
    Pwm.VacateAgrees(x.pwm, b.pwm, i);
    Pwm.StopIs(x.pwm, b.pwm, i, y.pwm);
  }

  lemma DacStopped(x: Raw, b: B.Bench, y: Raw, b': B.Bench, i: nat)
    requires Stands(x, b) && Shaped(x) && Shaped(y) && Stands(y, b') && i < Dac.POOL && Dac.DacInv(b.dac) && Dac.Has(b.dac, i)
    requires b' == b.(dac := Dac.StopSpec(b.dac, i).0, table := b'.table)
    ensures Stopped(x, y, ID_DAC, i, Success)
  {
    hide Pwm.Agree, Dac.Agree, DigitalOut.Agree, Spi.SlavesOf, HoldingsOf, Dac.Closes, Dac.DacInv, SpiSensor.CellsAgree, I2cSensor.TablesOf,
         Dac.WithoutChannel, Dac.Held;
    OnlyDac(x, b, y, b');
    Dac.ClosesIs(x.dac, b.dac, y.dac, i);
  }

  lemma SpiStopped(x: Raw, b: B.Bench, y: Raw, b': B.Bench, i: nat)
    requires Stands(x, b) && Shaped(x) && Shaped(y) && Stands(y, b') && i < Spi.PERIPHS && i in b.spi
    requires Spi.PortsOk(x.dac.ports) && Spi.PortsOk(y.dac.ports)
    requires b' == b.(spi := b.spi - {i}, table := b'.table)
    ensures Stopped(x, y, ID_SPI, i, Success)
  {
    hide Pwm.Agree, Dac.Agree, DigitalOut.Agree, Spi.SlavesOf, Spi.MastersOf, Spi.PortsOk, HoldingsOf, SpiSensor.Freed, I2cSensor.TablesOf,
         SpiSensor.CellsAgree, EntriesMatch;
    OnlySpi(x, b, y, b');
    SlaveEntries(y, b');
    Dac.MastersRun(x.dac, b.dac);
    Dac.MastersRun(y.dac, b.dac);
    SpiSensor.FreedIs(x.dac.ports, y.dac.ports, i);
  }

  lemma I2cStopped(x: Raw, b: B.Bench, y: Raw, b': B.Bench, i: nat)
    requires Stands(x, b) && Shaped(x) && Shaped(y) && Stands(y, b') && i < I2cSensor.COUNT && i in b.i2c
    requires b' == b.(i2c := b.i2c - {i}, table := b'.table)
    ensures Stopped(x, y, ID_I2C, i, Success)
  {
    hide Pwm.Agree, Dac.Agree, DigitalOut.Agree, Spi.SlavesOf, HoldingsOf, SpiSensor.CellsAgree;
    OnlyI2c(x, b, y, b');
  }

  lemma DigitalStopped(x: Raw, b: B.Bench, y: Raw, b': B.Bench, i: nat)
    requires Stands(x, b) && Shaped(x) && Shaped(y) && Stands(y, b') && i < DigitalOut.POOL && i in b.dig
    requires PoolOk(x.pwm.ts) && PoolOk(y.pwm.ts)
    requires b' == b.(dig := DigitalOut.StopSpec(b.dig, b.ts, i).0, ts := DigitalOut.StopSpec(b.dig, b.ts, i).1, table := b'.table)
    ensures Stopped(x, y, ID_DIGITAL_OUT, i, Success)
  {
    DigitalOut.StopSparesPwm(b.dig, b.ts, i);
    hide Pwm.Agree, Dac.Agree, DigitalOut.Agree, Spi.SlavesOf, HoldingsOf, DigitalOut.Halted, DigitalOut.SamePwm,
         SpiSensor.CellsAgree, I2cSensor.TablesOf, PoolOk, PulseReleased;
    OnlyDigital(x, b, y, b');
    DigitalOut.StopIs(Dig(x), b.dig, i, Dig(y));
  }

  /** The reference STOP of the engine has this effect on any tables that stand for it. */
  lemma StoppedIs(x: Raw, b: B.Bench, y: Raw, id: nat)
    requires B.Inv(b) && Stands(x, b) && id in b.table.live
    requires B.Inv(B.Stop(b, id).0) && Stands(y, B.Stop(b, id).0)
    ensures Shaped(x) && Shaped(y) && B.Stop(b, id).1 == Success
    ensures Stopped(x, y, b.table.live[id].proto, b.table.live[id].internal, Success)
  {
    hide B.Inv, Stands, Stopped, Shaped, Spi.PortsOk, PoolOk, Dac.DacInv, Release, PulseReleased, Dac.WithoutChannel, Released,
         B.PROTOCOLS;
    StandsShaped(x, b);
    StandsShaped(y, B.Stop(b, id).0);
    B.StopKeeps(b, id);
    B.InPool(b, id);
    B.DacOk(b);
    var Entry(proto, i) := b.table.live[id];
    var b' := B.Stop(b, id).0;
    if proto == ID_PWM {
      PwmStopped(x, b, y, b', i);
    } else if proto == ID_DAC {
      DacStopped(x, b, y, b', i);
    } else if proto == ID_SPI {
      SpiStopped(x, b, y, b', i);
    } else if proto == ID_I2C {
      I2cStopped(x, b, y, b', i);
    } else {
      DigitalStopped(x, b, y, b', i);
    }
  }

  /** The words a frame sends to the DAC chips. */
  function FrameWords(b: B.Bench, f: Framing.Frame, env: B.Env): seq<(nat, seq<byte>)> {
    if f.payload == [] then []
    else if f.ftype == B.CMD_SETUP && f.payload[0] as nat == ID_DAC then Dac.SetupWords(b.dac, b.spi, f.payload[1..], env.dac)
    else if f.ftype == B.CMD_SET_OUTPUT then WordsFor(b, f.payload[0] as nat, f.payload[1..])
    else []
  }

  lemma SetUpHandled(x: Raw, b: B.Bench, y: Raw, f: Framing.Frame, env: B.Env)
    requires B.Inv(b) && Stands(x, b) && Shaped(x) && Shaped(y) && f.ftype == B.CMD_SETUP && f.payload != []
    requires B.Inv(B.Handle(b, f, env).0) && Stands(y, B.Handle(b, f, env).0)
    ensures Handled(x, y, b.table.live, f, env, B.Handle(b, f, env).1, FrameWords(b, f, env))
  {
    hide B.Inv, Stands, SetUp, B.Setup, Shaped, Dac.SetupWords, HoldingsOf, Output, Stopped;
    SetUpIs(x, b, y, f.payload[0] as nat, f.payload[1..], env);
    B.ReplyEchoes(b, f, env);
    if B.Handle(b, f, env).1.err == Success { B.AnswersLiveId(b, f.payload[0] as nat, f.payload[1..], env); }
  }

  lemma OutputHandled(x: Raw, b: B.Bench, y: Raw, f: Framing.Frame, env: B.Env)
    requires B.Inv(b) && Stands(x, b) && Shaped(x) && Shaped(y) && f.ftype == B.CMD_SET_OUTPUT && f.payload != []
    requires B.Inv(B.Handle(b, f, env).0) && Stands(y, B.Handle(b, f, env).0)
    ensures Handled(x, y, b.table.live, f, env, B.Handle(b, f, env).1, FrameWords(b, f, env))
  {
    hide B.Inv, Stands, SetUp, Shaped, Dac.SetupWords, HoldingsOf, Output, Stopped, Dac.OutputWords,
         Pwm.SetOutputSpec, SpiSensor.SetOutputSpec, I2cSensor.SetOutputSpec, DigitalOut.SetOutputSpec, Dac.SetOutputErr;
    var id := f.payload[0] as nat;
    if id in b.table.live {
      hide B.SetOutput;
      OutputIs(x, b, y, id, f.payload[1..], env);
    } else {
      HoldingsAreDetermined(x, b, y, b);
    }
  }

  lemma StopHandled(x: Raw, b: B.Bench, y: Raw, f: Framing.Frame, env: B.Env)
    requires B.Inv(b) && Stands(x, b) && Shaped(x) && Shaped(y) && f.ftype == B.CMD_STOP && f.payload != []
    requires B.Inv(B.Handle(b, f, env).0) && Stands(y, B.Handle(b, f, env).0)
    ensures Handled(x, y, b.table.live, f, env, B.Handle(b, f, env).1, FrameWords(b, f, env))
  {
    hide B.Inv, Stands, SetUp, Shaped, Dac.SetupWords, HoldingsOf, Output, Stopped, B.StopBackend;
    var id := f.payload[0] as nat;
    if id in b.table.live {
      hide B.Stop;
      StoppedIs(x, b, y, id);
    } else {
      HoldingsAreDetermined(x, b, y, b);
    }
  }

  /** Whatever the frame, the reference engine has this effect on any tables that stand for it. */
  lemma HandledIs(x: Raw, b: B.Bench, y: Raw, f: Framing.Frame, env: B.Env)
    requires B.Inv(b) && Stands(x, b) && Stands(y, B.Handle(b, f, env).0)
    ensures Shaped(x) && Shaped(y) && Handled(x, y, b.table.live, f, env, B.Handle(b, f, env).1, FrameWords(b, f, env))
  {
    hide B.Inv, Stands, SetUp, Shaped, Dac.SetupWords, HoldingsOf, Output, Stopped, B.Setup, B.Stop, B.SetOutput, WordsFor;
    B.HandleKeeps(b, f, env);
    StandsShaped(x, b);
    StandsShaped(y, B.Handle(b, f, env).0);
    if f.payload != [] && f.ftype == B.CMD_SETUP {
      SetUpHandled(x, b, y, f, env);
    } else if f.payload != [] && f.ftype == B.CMD_SET_OUTPUT {
      OutputHandled(x, b, y, f, env);
    } else if f.payload != [] && f.ftype == B.CMD_STOP {
      StopHandled(x, b, y, f, env);
    } else {
      HoldingsAreDetermined(x, b, y, b);
    }
  }
}
