/** The whole command engine as one state: sensor table, timer pool and the live sensors of the
    five backends, with every command a function of it (dispatcher.c). */
module Bench {
  import opened Wrappers
  import opened Sensors
  import opened Wire
  import opened HwTimer
  import Timers
  import Framing
  import I2cSlave
  import Spi
  import Pwm
  import Dac
  import SpiSensor
  import I2cSensor
  import DigitalOut

  const CMD_SETUP: byte := 0x01
  const CMD_SET_OUTPUT: byte := 0x02
  const CMD_STOP: byte := 0x03
  const CMD_SCENARIO: byte := 0x04
  const CMD_SYNC: byte := 0x05
  const RSP_ACK: byte := 0x10

  datatype Bench = Bench(table: Table, ts: seq<Timer>, pwm: Pwm.Live, dac: Dac.Live,
                         spi: SpiSensor.Live, i2c: I2cSensor.Live, dig: DigitalOut.Live)

  /** Everything the hardware and the RTOS decide during one command. */
  datatype Env = Env(dac: Dac.Env, memory: bool, timer: DigitalOut.Env)

  datatype Reply = Reply(cmd: byte, err: Err, id: nat, seqno: byte)

  // ---------------------------------------------------------------- entries in use

  ghost function Entries(proto: nat, keys: set<nat>): set<Entry> {
    set k | k in keys :: Entry(proto, k)
  }

  ghost function DacIndexes(live: Dac.Live): set<nat> {
    set i: nat | i < Dac.POOL && Dac.Has(live, i)
  }

  const PROTOCOLS: set<nat> := {ID_PWM, ID_DAC, ID_SPI, ID_I2C, ID_DIGITAL_OUT}

  /** The pool indices in use for a protocol. */
  ghost function Keys(b: Bench, proto: nat): set<nat> {
    if proto == ID_PWM then b.pwm.Keys else if proto == ID_DAC then DacIndexes(b.dac)
    else if proto == ID_SPI then b.spi.Keys else if proto == ID_I2C then b.i2c.Keys
    else if proto == ID_DIGITAL_OUT then b.dig.Keys else {}
  }

  /** The (protocol, pool index) pairs of all live sensors. */
  ghost function Used(b: Bench): set<Entry> {
    Entries(ID_PWM, Keys(b, ID_PWM)) + Entries(ID_DAC, Keys(b, ID_DAC)) + Entries(ID_SPI, Keys(b, ID_SPI))
    + Entries(ID_I2C, Keys(b, ID_I2C)) + Entries(ID_DIGITAL_OUT, Keys(b, ID_DIGITAL_OUT))
  }

  /** The table lists every entry in use under exactly one id. */
  ghost predicate Matched(table: Table, used: set<Entry>) {
    && (forall id :: id in table.live ==> table.live[id] in used)
    && (forall id, other :: id in table.live && other in table.live && id != other ==> table.live[id] != table.live[other])
    && (forall e :: e in used ==> e in table.live.Values)
  }

  lemma MatchAdd(table: Table, used: set<Entry>, e: Entry)
    requires ValidTable(table) && Matched(table, used) && e !in used && |table.live| < SLOTS
    ensures Matched(Registered(table, e).0, used + {e})
  {
    RegisterSucceeds(table, e);
    hide NextId;
    var (t, id) := Registered(table, e);
    forall x | x in used + {e}
      ensures x in t.live.Values
    {
      if x == e {
        assert t.live[id] == e;
      } else {
        var k :| k in table.live && table.live[k] == x;
        assert t.live[k] == x;
      }
    }
  }

  lemma MatchRemove(table: Table, used: set<Entry>, id: nat)
    requires Matched(table, used) && id in table.live
    ensures Matched(Released(table, id), used - {table.live[id]})
  {
    var t := Released(table, id);
    forall x | x in used - {table.live[id]}
      ensures x in t.live.Values
    {
      var k :| k in table.live && table.live[k] == x;
      assert t.live[k] == x;
    }
  }

  // ---------------------------------------------------------------- the invariant

  /** The backends and what they share. */
  ghost predicate BackendsOk(b: Bench) {
    && Pwm.PwmInv(b.pwm) && Pwm.TimersOk(b.ts, b.pwm)
    && Dac.DacInv(b.dac) && SpiSensor.SpiInv(b.spi) && b.dac.Keys !! b.spi.Keys
    && I2cSensor.I2cInv(b.i2c) && DigitalOut.DigInv(b.dig)
  }

  /** One invariant over the whole engine. */
  ghost predicate Inv(b: Bench) {
    ValidTable(b.table) && Matched(b.table, Used(b)) && BackendsOk(b)
  }

  const EMPTY := Bench(Table(map[], 1), seq(COUNT, _ => FREE_TIMER), map[], map[], map[], map[], map[])

  lemma EmptyTimers()
    ensures Pwm.TimersOk(EMPTY.ts, map[])
  {
    forall t | 0 <= t < COUNT
      ensures Pwm.TimerAgrees(t, FREE_TIMER, map[])
    {
      assert Pwm.OnTimer(map[], t) == {};
    }
  }

  /** The state after initialisation. */
  lemma EmptyInv()
    ensures Inv(EMPTY)
  {
    hide Pwm.TimersOk, Pwm.PwmInv, Dac.DacInv, SpiSensor.SpiInv, I2cSensor.I2cInv, DigitalOut.DigInv;
    EmptyTimers();
    EmptyBackends();
    assert DacIndexes(map[]) == {};
    assert Used(EMPTY) == {};
  }

  lemma EmptyBackends()
    ensures Pwm.PwmInv(map[]) && Dac.DacInv(map[]) && SpiSensor.SpiInv(map[]) && I2cSensor.I2cInv(map[]) && DigitalOut.DigInv(map[])
  {}

  // ---------------------------------------------------------------- commands

  ghost function SetupPwm(b: Bench, cfg: seq<byte>): (Bench, Err, nat)
    requires Inv(b)
  {
    var r := Pwm.SetupSpec(b.pwm, Pulses(b.ts), b.table, cfg);
    var ts := if r.err == Success then Acquire(b.ts, Pwm.Wanted(cfg).timer, Pwm.Wanted(cfg).freq).0 else b.ts;
    (b.(pwm := r.live, table := r.table, ts := ts), r.err, r.id)
  }

  ghost function SetupDac(b: Bench, cfg: seq<byte>, env: Dac.Env): (Bench, Err, nat)
    requires Inv(b)
  {
    var r := Dac.SetupSpec(b.dac, b.spi, b.table, cfg, env);
    (b.(dac := r.live, table := r.table), r.err, r.id)
  }

  ghost function SetupSpi(b: Bench, cfg: seq<byte>): (Bench, Err, nat)
    requires Inv(b)
  {
    var r := SpiSensor.SetupSpec(b.spi, b.dac.Keys, b.table, cfg);
    (b.(spi := r.live, table := r.table), r.err, r.id)
  }

  ghost function SetupI2c(b: Bench, cfg: seq<byte>, memory: bool): (Bench, Err, nat)
    requires Inv(b)
  {
    var r := I2cSensor.SetupSpec(b.i2c, b.table, cfg, memory);
    (b.(i2c := r.live, table := r.table), r.err, r.id)
  }

  ghost function SetupDigital(b: Bench, cfg: seq<byte>): (Bench, Err, nat)
    requires Inv(b)
  {
    var (r, ts) := DigitalOut.SetupSpec(b.dig, b.ts, b.table, cfg);
    (b.(dig := r.live, table := r.table, ts := ts), r.err, r.id)
  }

  /** CMD_SETUP_SENSOR after its protocol byte: new state, error code, id. */
  ghost function Setup(b: Bench, proto: nat, cfg: seq<byte>, env: Env): (Bench, Err, nat)
    requires Inv(b)
  {
    if proto == ID_I2C then SetupI2c(b, cfg, env.memory)
    else if proto == ID_DIGITAL_OUT then SetupDigital(b, cfg)
    else if proto == ID_PWM then SetupPwm(b, cfg)
    else if proto == ID_DAC then SetupDac(b, cfg, env.dac)
    else if proto == ID_SPI then SetupSpi(b, cfg)
    else (b, Unsupported, 0)
  }

  ghost function SetOutput(b: Bench, id: nat, values: seq<byte>, env: Env): (Bench, Err)
    requires Inv(b)
  {
    if id !in b.table.live then (b, InvalidSensorId)
    else
      var Entry(proto, i) := b.table.live[id];
      if proto == ID_I2C then
        var (live, err) := I2cSensor.SetOutputSpec(b.i2c, i, values);
        (b.(i2c := live), err)
      else if proto == ID_DIGITAL_OUT then
        var (live, err) := DigitalOut.SetOutputSpec(b.dig, b.ts, i, values, env.timer);
        (b.(dig := live), err)
      else if proto == ID_PWM then
        var (live, err) := Pwm.SetOutputSpec(b.pwm, i, values);
        (b.(pwm := live), err)
      else if proto == ID_DAC then (b, Dac.SetOutputErr(b.dac, i, values, env.dac.write))
      else if proto == ID_SPI then
        var (live, err) := SpiSensor.SetOutputSpec(b.spi, i, values);
        (b.(spi := live), err)
      else (b, InvalidParameter)
  }

  /** The backend part of a stop. */
  ghost function StopBackend(b: Bench, e: Entry): (Bench, Err) {
    var Entry(proto, i) := e;
    if proto == ID_I2C then
      var (live, err) := I2cSensor.StopSpec(b.i2c, i);
      (b.(i2c := live), err)
    else if proto == ID_DIGITAL_OUT then
      var (live, ts, err) := DigitalOut.StopSpec(b.dig, b.ts, i);
      (b.(dig := live, ts := ts), err)
    else if proto == ID_PWM then
      var (live, err) := Pwm.StopSpec(b.pwm, i);
      (b.(pwm := live, ts := if i in b.pwm && |b.ts| == COUNT then Release(b.ts, b.pwm[i].timer) else b.ts), err)
    else if proto == ID_DAC then
      var (live, err) := Dac.StopSpec(b.dac, i);
      (b.(dac := live), err)
    else if proto == ID_SPI then
      var (live, err) := SpiSensor.StopSpec(b.spi, i);
      (b.(spi := live), err)
    else (b, InvalidParameter)
  }

  ghost function Stop(b: Bench, id: nat): (Bench, Err) {
    if id !in b.table.live then (b, InvalidSensorId)
    else
      var (b', err) := StopBackend(b, b.table.live[id]);
      (if err == Success then b'.(table := Released(b'.table, id)) else b', err)
  }

  /** dispatcher_handle: the state after a frame, and the reply it sends. */
  ghost function Handle(b: Bench, f: Framing.Frame, env: Env): (Bench, Reply)
    requires Inv(b)
  {
    var t, n := f.ftype, f.seqno;
    if t == CMD_SYNC then (b, Reply(t, Success, 0, n))
    else if t == CMD_SCENARIO then (b, Reply(t, NotImplemented, 0, n))
    else if t != CMD_SETUP && t != CMD_SET_OUTPUT && t != CMD_STOP then (b, Reply(t, UnknownCmd, 0, n))
    else if f.payload == [] then (b, Reply(t, MalformedPayload, 0, n))
    else
      var head, rest := f.payload[0] as nat, f.payload[1..];
      if t == CMD_SETUP then
        var (b', err, id) := Setup(b, head, rest, env);
        (b', Reply(t, err, id, n))
      else if t == CMD_SET_OUTPUT then
        var (b', err) := SetOutput(b, head, rest, env);
        (b', Reply(t, err, head, n))
      else
        var (b', err) := Stop(b, head);
        (b', Reply(t, err, head, n))
  }

  // ---------------------------------------------------------------- how entries in use change

  lemma EntriesPlus(proto: nat, keys: set<nat>, k: nat)
    ensures Entries(proto, keys + {k}) == Entries(proto, keys) + {Entry(proto, k)}
    ensures Entries(proto, keys - {k}) == Entries(proto, keys) - {Entry(proto, k)}
  {}

  lemma DacPlus(live: Dac.Live, p: nat, cfg: Dac.ChipCfg, c: nat)
    requires p < Spi.PERIPHS && c < Dac.CHANNELS
    ensures DacIndexes(Dac.WithChannel(live, p, cfg, c)) == DacIndexes(live) + {Dac.Index(p, c)}
    ensures Dac.Index(p, c) in DacIndexes(live) <==> Dac.Running(live, p, c)
  {
    var after := Dac.WithChannel(live, p, cfg, c);
    forall i: nat | i < Dac.POOL
      ensures Dac.Has(after, i) <==> Dac.Has(live, i) || i == Dac.Index(p, c)
    {}
  }

  lemma DacMinus(live: Dac.Live, i: nat)
    requires Dac.Has(live, i)
    ensures DacIndexes(Dac.StopSpec(live, i).0) == DacIndexes(live) - {i}
  {
    var after := Dac.StopSpec(live, i).0;
    forall j: nat | j < Dac.POOL
      ensures Dac.Has(after, j) <==> Dac.Has(live, j) && j != i
    {}
  }

  // ---------------------------------------------------------------- every command keeps the invariant

  /** What a successful setup of protocol `proto` at pool index `i` does to the bookkeeping. */
  lemma Admitted(b: Bench, b': Bench, e: Entry)
    requires ValidTable(b.table) && Matched(b.table, Used(b)) && e !in Used(b)
    requires b'.table == Registered(b.table, e).0 && |b.table.live| < SLOTS && Used(b') == Used(b) + {e}
    ensures ValidTable(b'.table) && Matched(b'.table, Used(b'))
  {
    hide Matched, Used, NextId;
    RegisterSucceeds(b.table, e);
    MatchAdd(b.table, Used(b), e);
  }

  /** An accepted PWM request adds one sensor, joins one timer, and registers one id. */
  lemma PwmOutcome(b: Bench, cfg: seq<byte>)
    requires Inv(b)
    ensures var (b', err, id) := SetupPwm(b, cfg);
      if err != Success then b' == b && id == 0
      else
        && |cfg| >= Pwm.PWM_CFG_SIZE && Pwm.Wanted(cfg).channel >= 1
        && var p := Pwm.Wanted(cfg);
        var i := Pwm.SlotFor(p.timer, p.channel);
        && i !in b.pwm && |b.table.live| < SLOTS && p.timer < COUNT
        && Acquire(b.ts, p.timer, p.freq).1 == Success
        && (b'.table, id) == Registered(b.table, Entry(ID_PWM, i))
        && b' == b.(table := b'.table, pwm := b.pwm[i := p], ts := Acquire(b.ts, p.timer, p.freq).0)
        && Pwm.PwmInv(b'.pwm) && Pwm.TimersOk(b'.ts, b'.pwm)
  {
    hide Timers.Compute, Pwm.PwmInv, Pwm.TimersOk, Matched, Used, Pwm.FreqClash, Acquire, Pwm.PinTaken, NextId,
         Pwm.Wanted, MaxChannel, Pwm.DividerOf, Dac.DacInv, SpiSensor.SpiInv, I2cSensor.I2cInv, DigitalOut.DigInv, Pulses;
    Pwm.SetupKeepsInv(b.pwm, Pulses(b.ts), b.table, cfg);
    if SetupPwm(b, cfg).1 == Success {
      var p := Pwm.Wanted(cfg);
      var i := Pwm.SlotFor(p.timer, p.channel);
      RegisterSucceeds(b.table, Entry(ID_PWM, i));
      Pwm.AcquireAgrees(b.ts, b.pwm, p);
      Pwm.AddToTimer(b.ts, b.pwm, i, p);
    } else if |cfg| >= Pwm.PWM_CFG_SIZE && Pwm.Wanted(cfg).channel >= 1 {
      RegisterSucceeds(b.table, Entry(ID_PWM, Pwm.SlotFor(Pwm.Wanted(cfg).timer, Pwm.Wanted(cfg).channel)));
    }
  }

  /** Entries of different protocols never coincide, so adding or removing one pool index of one
      protocol adds or removes exactly one entry. */
  ghost predicate Plus(b: Bench, b': Bench, e: Entry) {
    e !in Used(b) && Used(b') == Used(b) + {e}
  }

  /** One protocol gains pool index `i` and nothing else changes. */
  lemma UsedPlus(b: Bench, b': Bench, proto: nat, i: nat)
    requires proto in PROTOCOLS && i !in Keys(b, proto) && Keys(b', proto) == Keys(b, proto) + {i}
    requires forall p :: p in PROTOCOLS && p != proto ==> Keys(b', p) == Keys(b, p)
    ensures Plus(b, b', Entry(proto, i))
  {
    hide Keys;
    EntriesPlus(proto, Keys(b, proto), i);
    SplitUsed(b, proto);
    SplitUsed(b', proto);
  }

  /** One protocol loses pool index `i` and nothing else changes. */
  lemma UsedMinus(b: Bench, b': Bench, proto: nat, i: nat)
    requires proto in PROTOCOLS && Keys(b', proto) == Keys(b, proto) - {i}
    requires forall p :: p in PROTOCOLS && p != proto ==> Keys(b', p) == Keys(b, p)
    ensures Minus(b, b', Entry(proto, i))
  {
    hide Keys;
    EntriesPlus(proto, Keys(b, proto), i);
    SplitUsed(b, proto);
    SplitUsed(b', proto);
  }

  ghost predicate Minus(b: Bench, b': Bench, e: Entry) {
    Used(b') == Used(b) - {e}
  }

  /** Membership in the entries in use, one protocol at a time. */
  lemma SplitUsed(b: Bench, proto: nat)
    requires proto in PROTOCOLS
    ensures forall e: Entry :: e in Used(b) <==> e.proto in PROTOCOLS && e.internal in Keys(b, e.proto)
    ensures forall k :: Entry(proto, k) in Entries(proto, Keys(b, proto)) <==> k in Keys(b, proto)
  {
    hide Keys;
    forall e: Entry
      ensures e in Used(b) <==> e.proto in PROTOCOLS && e.internal in Keys(b, e.proto)
    {
      assert e == Entry(e.proto, e.internal);
    }
  }

  lemma SetupPwmKeeps(b: Bench, cfg: seq<byte>)
    requires Inv(b)
    ensures Inv(SetupPwm(b, cfg).0)
  {
    hide SetupPwm, Used, Pwm.PwmInv, Pwm.TimersOk, Matched, Dac.DacInv, SpiSensor.SpiInv, I2cSensor.I2cInv,
         DigitalOut.DigInv, NextId;
    hide Acquire, Pwm.Wanted;
    PwmOutcome(b, cfg);
    var (b', err, id) := SetupPwm(b, cfg);
    if err == Success {
      var i := Pwm.SlotFor(Pwm.Wanted(cfg).timer, Pwm.Wanted(cfg).channel);
      assert b'.pwm.Keys == b.pwm.Keys + {i};
      UsedPlus(b, b', ID_PWM, i);
      Admitted(b, b', Entry(ID_PWM, i));
    }
  }





  /** An accepted DAC request adds one channel to a chip on a peripheral no SPI slave holds. */
  lemma DacOutcome(b: Bench, cfg: seq<byte>, env: Dac.Env)
    requires Inv(b)
    ensures var (b', err, id) := SetupDac(b, cfg, env);
      if err != Success then b' == b && id == 0
      else
        && |cfg| >= Dac.CFG_SIZE && |b.table.live| < SLOTS
        && var r := Dac.Wanted(cfg);
        var i := Dac.Index(r.periph, r.channel);
        && r.periph < Spi.PERIPHS && r.channel < Dac.CHANNELS && r.periph !in b.spi
        && !Dac.Running(b.dac, r.periph, r.channel)
        && (b'.table, id) == Registered(b.table, Entry(ID_DAC, i))
        && b' == b.(table := b'.table, dac := Dac.WithChannel(b.dac, r.periph, Dac.Kept(r.cfg), r.channel))
        && Dac.DacInv(b'.dac)
  {
    hide Pwm.PwmInv, Pwm.TimersOk, Matched, Used, Dac.GoodChip, Dac.SamePins, NextId, SpiSensor.SpiInv,
         I2cSensor.I2cInv, DigitalOut.DigInv;
    Dac.SetupKeepsInv(b.dac, b.spi, b.table, cfg, env);
    hide Dac.DacInv;
    if |cfg| >= Dac.CFG_SIZE {
      var r := Dac.Wanted(cfg);
      RegisterSucceeds(b.table, Entry(ID_DAC, Dac.Index(r.periph, r.channel)));
    }
  }

  lemma SetupDacKeeps(b: Bench, cfg: seq<byte>, env: Dac.Env)
    requires Inv(b)
    ensures Inv(SetupDac(b, cfg, env).0)
  {
    hide SetupDac, Used, Pwm.PwmInv, Pwm.TimersOk, Matched, Dac.DacInv, SpiSensor.SpiInv, I2cSensor.I2cInv,
         DigitalOut.DigInv, NextId;
    hide Dac.Wanted, DacIndexes;
    DacOutcome(b, cfg, env);
    var (b', err, id) := SetupDac(b, cfg, env);
    if err == Success {
      var r := Dac.Wanted(cfg);
      var i := Dac.Index(r.periph, r.channel);
      DacPlus(b.dac, r.periph, Dac.Kept(r.cfg), r.channel);
      UsedPlus(b, b', ID_DAC, i);
      Admitted(b, b', Entry(ID_DAC, i));
    }
  }

  /** An accepted SPI request adds one slave on a peripheral no DAC chip holds. */
  lemma SpiOutcome(b: Bench, cfg: seq<byte>)
    requires Inv(b)
    ensures var (b', err, id) := SetupSpi(b, cfg);
      if err != Success then b' == b && id == 0
      else
        && |cfg| >= SpiSensor.CFG_MIN && |b.table.live| < SLOTS
        && var p := Read8(cfg, 0);
        && p !in b.spi && p !in b.dac && p in b'.spi
        && (b'.table, id) == Registered(b.table, Entry(ID_SPI, p))
        && b' == b.(table := b'.table, spi := b.spi[p := b'.spi[p]])
        && SpiSensor.SpiInv(b'.spi)
  {
    hide Pwm.PwmInv, Pwm.TimersOk, Matched, Used, SpiSensor.GoodCfg, NextId, Dac.DacInv, I2cSensor.I2cInv,
         DigitalOut.DigInv;
    SpiSensor.SetupKeepsInv(b.spi, b.dac.Keys, b.table, cfg);
    hide SpiSensor.SpiInv;
    if |cfg| >= SpiSensor.CFG_MIN {
      RegisterSucceeds(b.table, Entry(ID_SPI, Read8(cfg, 0)));
    }
  }

  lemma SetupSpiKeeps(b: Bench, cfg: seq<byte>)
    requires Inv(b)
    ensures Inv(SetupSpi(b, cfg).0)
  {
    hide SetupSpi, Used, Pwm.PwmInv, Pwm.TimersOk, Matched, Dac.DacInv, SpiSensor.SpiInv, I2cSensor.I2cInv,
         DigitalOut.DigInv, NextId;
    SpiOutcome(b, cfg);
    var (b', err, id) := SetupSpi(b, cfg);
    if err == Success {
      var p := Read8(cfg, 0);
      assert b'.spi.Keys == b.spi.Keys + {p};
      UsedPlus(b, b', ID_SPI, p);
      Admitted(b, b', Entry(ID_SPI, p));
    }
  }

  /** An accepted I2C request fills the lowest free pool entry. */
  lemma I2cOutcome(b: Bench, cfg: seq<byte>, memory: bool)
    requires Inv(b)
    ensures var (b', err, id) := SetupI2c(b, cfg, memory);
      if err != Success then b' == b && id == 0
      else
        var i := I2cSensor.FirstFree(b.i2c);
        && i !in b.i2c && i in b'.i2c && |b.table.live| < SLOTS
        && (b'.table, id) == Registered(b.table, Entry(ID_I2C, i))
        && b' == b.(table := b'.table, i2c := b.i2c[i := b'.i2c[i]])
        && I2cSensor.I2cInv(b'.i2c)
  {
    hide Pwm.PwmInv, Pwm.TimersOk, Matched, Used, SpiSensor.SpiInv, NextId, Dac.DacInv, DigitalOut.DigInv;
    hide I2cSensor.CfgErr, I2cSensor.NewSensor;
    I2cSensor.SetupKeepsInv(b.i2c, b.table, cfg, memory);
    hide I2cSensor.I2cInv;
    RegisterSucceeds(b.table, Entry(ID_I2C, I2cSensor.FirstFree(b.i2c)));
  }

  lemma SetupI2cKeeps(b: Bench, cfg: seq<byte>, memory: bool)
    requires Inv(b)
    ensures Inv(SetupI2c(b, cfg, memory).0)
  {
    hide SetupI2c, Used, Pwm.PwmInv, Pwm.TimersOk, Matched, Dac.DacInv, SpiSensor.SpiInv, I2cSensor.I2cInv,
         DigitalOut.DigInv, NextId;
    I2cOutcome(b, cfg, memory);
    var (b', err, id) := SetupI2c(b, cfg, memory);
    if err == Success {
      var i := I2cSensor.FirstFree(b.i2c);
      assert b'.i2c.Keys == b.i2c.Keys + {i};
      UsedPlus(b, b', ID_I2C, i);
      Admitted(b, b', Entry(ID_I2C, i));
    }
  }

  /** Changes to pulse reservations leave the PWM part of the timer pool in order. */
  lemma SamePwmKeeps(ts: seq<Timer>, ts': seq<Timer>, live: Pwm.Live)
    requires Pwm.TimersOk(ts, live) && DigitalOut.SamePwm(ts, ts')
    ensures Pwm.TimersOk(ts', live)
  {
    hide Pwm.TimerAgrees, TimerOk;
    Pwm.PulseTimers(ts, ts', live);
  }

  /** A digital-out setup adds one sensor at the lowest free entry, or none; either way PWM
      timers are as they were. */
  lemma DigitalOutcome(b: Bench, cfg: seq<byte>)
    requires Inv(b)
    ensures var (b', err, id) := SetupDigital(b, cfg);
      && Pwm.TimersOk(b'.ts, b.pwm) && DigitalOut.DigInv(b'.dig)
      && if err != Success then b' == b.(ts := b'.ts) && id == 0
      else
        var i := DigitalOut.FirstFree(b.dig);
        && i !in b.dig && i in b'.dig && |b.table.live| < SLOTS
        && (b'.table, id) == Registered(b.table, Entry(ID_DIGITAL_OUT, i))
        && b' == b.(table := b'.table, dig := b.dig[i := b'.dig[i]])
  {
    hide Pwm.PwmInv, Matched, Used, SpiSensor.SpiInv, NextId, Dac.DacInv, I2cSensor.I2cInv, Pwm.TimerAgrees;
    hide PulseReleased, DigitalOut.FreeFrom, DigitalOut.GoodRequest, DigitalOut.SamePwm;
    DigitalOut.SetupKeepsInv(b.dig, b.ts, b.table, cfg);
    DigitalOut.SetupSparesPwm(b.dig, b.ts, b.table, cfg);
    SamePwmKeeps(b.ts, SetupDigital(b, cfg).0.ts, b.pwm);
    hide DigitalOut.DigInv, Pwm.TimersOk;
    RegisterSucceeds(b.table, Entry(ID_DIGITAL_OUT, DigitalOut.FirstFree(b.dig)));
  }

  lemma SetupDigitalKeeps(b: Bench, cfg: seq<byte>)
    requires Inv(b)
    ensures Inv(SetupDigital(b, cfg).0)
  {
    hide SetupDigital, Pwm.PwmInv, Pwm.TimersOk, Matched, Dac.DacInv, SpiSensor.SpiInv, I2cSensor.I2cInv,
         DigitalOut.DigInv, NextId;
    hide DacIndexes, Entries;
    DigitalOutcome(b, cfg);
    var (b', err, id) := SetupDigital(b, cfg);
    if err == Success {
      var i := DigitalOut.FirstFree(b.dig);
      assert b'.dig.Keys == b.dig.Keys + {i};
      UsedPlus(b, b', ID_DIGITAL_OUT, i);
      Admitted(b, b', Entry(ID_DIGITAL_OUT, i));
    }
  }

  lemma SameEntries(b: Bench, b': Bench)
    requires (b.pwm.Keys, b.spi.Keys, b.i2c.Keys, b.dig.Keys, b.dac) == (b'.pwm.Keys, b'.spi.Keys, b'.i2c.Keys, b'.dig.Keys, b'.dac)
    ensures Used(b) == Used(b')
  {}

  lemma SetOutputKeeps(b: Bench, id: nat, values: seq<byte>, env: Env)
    requires Inv(b)
    ensures Inv(SetOutput(b, id, values, env).0)
  {
    hide Pwm.PwmInv, Pwm.TimersOk, Matched, Used, Dac.DacInv, SpiSensor.SpiInv, I2cSensor.I2cInv, DigitalOut.DigInv;
    hide Pwm.SetOutputSpec, SpiSensor.SetOutputSpec, I2cSensor.SetOutputSpec, DigitalOut.SetOutputSpec,
         Dac.SetOutputErr;
    if id in b.table.live {
      var Entry(proto, i) := b.table.live[id];
      var b' := SetOutput(b, id, values, env).0;
      OutputKeys(b, i, values, env.timer);
      SameEntries(b, b');
      Pwm.UpdateKeepsInv(b.pwm, i, values);
      SpiSensor.UpdateKeepsInv(b.spi, i, values);
      I2cSensor.UpdateKeepsInv(b.i2c, i, values);
      DigitalOut.UpdateKeepsInv(b.dig, b.ts, i, values, env.timer);
      RetimePwm(b.ts, b.pwm, i, values);
    }
  }

  /** No SET_OUTPUT adds or removes a sensor. */
  lemma OutputKeys(b: Bench, i: nat, values: seq<byte>, env: DigitalOut.Env)
    requires I2cSensor.I2cInv(b.i2c)
    ensures Pwm.SetOutputSpec(b.pwm, i, values).0.Keys == b.pwm.Keys
    ensures SpiSensor.SetOutputSpec(b.spi, i, values).0.Keys == b.spi.Keys
    ensures I2cSensor.SetOutputSpec(b.i2c, i, values).0.Keys == b.i2c.Keys
    ensures DigitalOut.SetOutputSpec(b.dig, b.ts, i, values, env).0.Keys == b.dig.Keys
  {
    hide I2cSensor.Overlay, Read32, DigitalOut.MaxPulse;
  }

  lemma RetimePwm(ts: seq<Timer>, live: Pwm.Live, i: nat, values: seq<byte>)
    requires Pwm.TimersOk(ts, live)
    ensures Pwm.TimersOk(ts, Pwm.SetOutputSpec(live, i, values).0)
  {
    if i in live && |values| >= 2 && Read16(values, 0) <= Timers.DUTY_MAX {
      Pwm.RetuneTimers(ts, live, i, Read16(values, 0));
    }
    hide Pwm.TimersOk;
  }

  // ---------------------------------------------------------------- stop

  /** Stopping a live entry removes exactly that entry and never fails. */
  lemma StopOutcome(b: Bench, e: Entry)
    requires e in Used(b)
    ensures StopBackend(b, e).1 == Success && StopBackend(b, e).0.table == b.table
    ensures Minus(b, StopBackend(b, e).0, e)
  {
    hide Used, DacIndexes, Release, PulseReleased, Dac.Has, Dac.StopSpec, Minus;
    var i, b' := e.internal, StopBackend(b, e).0;
    ProtocolOf(b, e);
    if e.proto == ID_PWM {
      UsedMinus(b, b', ID_PWM, i);
    } else if e.proto == ID_DAC {
      DacStops(b.dac, i);
      UsedMinus(b, b', ID_DAC, i);
    } else if e.proto == ID_SPI {
      UsedMinus(b, b', ID_SPI, i);
    } else if e.proto == ID_I2C {
      UsedMinus(b, b', ID_I2C, i);
    } else {
      UsedMinus(b, b', ID_DIGITAL_OUT, i);
    }
  }

  lemma DacStops(live: Dac.Live, i: nat)
    ensures i < Dac.POOL && Dac.Has(live, i) ==>
              Dac.StopSpec(live, i).1 == Success && DacIndexes(Dac.StopSpec(live, i).0) == DacIndexes(live) - {i}
  {
    if i < Dac.POOL && Dac.Has(live, i) { DacMinus(live, i); }
  }

  lemma StopPwmTimers(b: Bench, i: nat)
    requires Inv(b) && i in b.pwm
    ensures |b.ts| == COUNT && Pwm.TimersOk(Release(b.ts, b.pwm[i].timer), b.pwm - {i})
  {
    hide Matched, Used, Dac.DacInv, SpiSensor.SpiInv, I2cSensor.I2cInv, DigitalOut.DigInv, Pwm.TimerAgrees,
         TimerOk, Timers.Compute;
    Pwm.RemoveFromTimer(b.ts, b.pwm, i);
  }

  lemma StopBackendKeeps(b: Bench, e: Entry)
    requires Inv(b) && e in Used(b)
    ensures BackendsOk(StopBackend(b, e).0)
  {
    ProtocolOf(b, e);
    var i, b' := e.internal, StopBackend(b, e).0;
    hide Pwm.PwmInv, Dac.DacInv, SpiSensor.SpiInv, I2cSensor.I2cInv, DigitalOut.DigInv, PulseReleased;
    hide Pwm.TimersOk, Dac.StopSpec, Used, Release, DigitalOut.StopSpec, Matched;
    if e.proto == ID_PWM {
      StopPwmTimers(b, i);
      Pwm.UpdateKeepsInv(b.pwm, i, []);
      assert b' == b.(pwm := b.pwm - {i}, ts := Release(b.ts, b.pwm[i].timer));
    } else if e.proto == ID_DAC {
      DacKeysShrink(b.dac, i);
      Dac.StopKeepsInv(b.dac, i);
      assert b' == b.(dac := Dac.StopSpec(b.dac, i).0);
    } else if e.proto == ID_SPI {
      SpiSensor.UpdateKeepsInv(b.spi, i, []);
      assert b' == b.(spi := b.spi - {i});
    } else if e.proto == ID_I2C {
      I2cSensor.UpdateKeepsInv(b.i2c, i, []);
      assert b' == b.(i2c := b.i2c - {i});
    } else {
      StopDigitalTimers(b, i);
      DigitalOut.UpdateKeepsInv(b.dig, b.ts, i, [], DigitalOut.Env(true, true));
      assert b' == b.(dig := DigitalOut.StopSpec(b.dig, b.ts, i).0, ts := DigitalOut.StopSpec(b.dig, b.ts, i).1);
    }
  }

  lemma StopKeeps(b: Bench, id: nat)
    requires Inv(b)
    ensures Inv(Stop(b, id).0)
    ensures Stop(b, id).1 == if id in b.table.live then Success else InvalidSensorId
  {
    hide BackendsOk, StopBackend, Matched, Used;
    if id in b.table.live {
      var e := b.table.live[id];
      InUse(b.table, Used(b), id);
      StopOutcome(b, e);
      StopBackendKeeps(b, e);
      MatchRemove(b.table, Used(b), id);
      RemoveSize(b.table.live, id);
      Retabled(StopBackend(b, e).0, Released(b.table, id));
    }
  }

  lemma Retabled(b: Bench, table: Table)
    ensures BackendsOk(b) ==> BackendsOk(b.(table := table))
    ensures Used(b.(table := table)) == Used(b)
  {
    hide Pwm.PwmInv, Dac.DacInv, SpiSensor.SpiInv, I2cSensor.I2cInv, DigitalOut.DigInv, Pwm.TimersOk;
  }

  lemma StopDigitalTimers(b: Bench, i: nat)
    requires Inv(b)
    ensures Pwm.TimersOk(DigitalOut.StopSpec(b.dig, b.ts, i).1, b.pwm)
  {
    hide Matched, Used, Dac.DacInv, SpiSensor.SpiInv, I2cSensor.I2cInv, DigitalOut.DigInv, Pwm.TimerAgrees,
         TimerOk, PulseReleased;
    DigitalOut.StopSparesPwm(b.dig, b.ts, i);
    hide DigitalOut.StopSpec;
    SamePwmKeeps(b.ts, DigitalOut.StopSpec(b.dig, b.ts, i).1, b.pwm);
  }

  lemma InUse(table: Table, used: set<Entry>, id: nat)
    requires Matched(table, used) && id in table.live
    ensures table.live[id] in used
  {}

  lemma ProtocolOf(b: Bench, e: Entry)
    requires e in Used(b)
    ensures e.proto == ID_PWM ==> e.internal in b.pwm
    ensures e.proto == ID_DAC ==> e.internal < Dac.POOL && Dac.Has(b.dac, e.internal)
    ensures e.proto == ID_SPI ==> e.internal in b.spi
    ensures e.proto == ID_I2C ==> e.internal in b.i2c
    ensures e.proto == ID_DIGITAL_OUT ==> e.internal in b.dig
    ensures e.proto in {ID_PWM, ID_DAC, ID_SPI, ID_I2C, ID_DIGITAL_OUT}
  {
    hide Dac.Has;
  }

  /** Entries in use lie inside their pools. */
  lemma InPool(b: Bench, id: nat)
    requires Inv(b) && id in b.table.live
    ensures var Entry(proto, i) := b.table.live[id];
      && (proto == ID_PWM ==> i in b.pwm && i < Pwm.POOL)
      && (proto == ID_DAC ==> Dac.Has(b.dac, i) && i < Dac.POOL)
      && (proto == ID_SPI ==> i in b.spi && i < Spi.PERIPHS)
      && (proto == ID_I2C ==> i in b.i2c && i < I2cSensor.COUNT)
      && (proto == ID_DIGITAL_OUT ==> i in b.dig && i < DigitalOut.POOL)
      && proto in {ID_PWM, ID_DAC, ID_SPI, ID_I2C, ID_DIGITAL_OUT}
  {
    hide Used, Pwm.TimersOk, Pwm.DividerOf;
    InUse(b.table, Used(b), id);
    ProtocolOf(b, b.table.live[id]);
  }

  lemma DacKeysShrink(live: Dac.Live, i: nat)
    ensures Dac.StopSpec(live, i).0.Keys <= live.Keys
  {}

  // ---------------------------------------------------------------- whole runs

  /** One thing that happens to the engine: a frame is handled, an I2C interrupt is served, the SPI
      slave loads its next byte, or a digital-out pulse is over. */
  datatype Happening =
    | Command(frame: Framing.Frame, env: Env)
    | I2cInterrupt(i: nat, irq: I2cSlave.Irq)
    | SpiTransmit(p: nat)
    | PulseExpires(i: nat)

  ghost function Step(b: Bench, h: Happening): Bench
    requires Inv(b)
  {
    match h
    case Command(f, env) => Handle(b, f, env).0
    case I2cInterrupt(i, irq) => if i in b.i2c then b.(i2c := I2cSensor.Interrupted(b.i2c, i, irq)) else b
    case SpiTransmit(p) => if p in b.spi then b.(spi := b.spi[p := Spi.NextByte(b.spi[p]).1]) else b
    case PulseExpires(i) => b.(dig := DigitalOut.Expired(b.dig, i))
  }

  lemma HandleKeeps(b: Bench, f: Framing.Frame, env: Env)
    requires Inv(b)
    ensures Inv(Handle(b, f, env).0)
  {
    hide Inv, SetupPwm, SetupDac, SetupSpi, SetupI2c, SetupDigital, SetOutput, Stop;
    if f.payload != [] {
      var head, rest := f.payload[0] as nat, f.payload[1..];
      SetupPwmKeeps(b, rest);
      SetupDacKeeps(b, rest, env.dac);
      SetupSpiKeeps(b, rest);
      SetupI2cKeeps(b, rest, env.memory);
      SetupDigitalKeeps(b, rest);
      SetOutputKeeps(b, head, rest, env);
      StopKeeps(b, head);
    }
  }

  lemma I2cInterruptKeeps(b: Bench, i: nat, irq: I2cSlave.Irq)
    requires Inv(b) && i in b.i2c
    ensures Inv(b.(i2c := I2cSensor.Interrupted(b.i2c, i, irq)))
  {
    I2cOk(b);
    I2cSensor.InterruptKeepsInv(b.i2c, i, irq);
    hide Pwm.PwmInv, Pwm.TimersOk, Matched, Used, Dac.DacInv, DigitalOut.DigInv, SpiSensor.SpiInv,
         I2cSensor.I2cInv, I2cSlave.Step;
    var after := I2cSensor.Interrupted(b.i2c, i, irq);
    assert after.Keys == b.i2c.Keys;
    SameEntries(b, b.(i2c := after));
  }

  lemma I2cOk(b: Bench)
    requires Inv(b)
    ensures I2cSensor.I2cInv(b.i2c)
  {
    hide Pwm.PwmInv, Pwm.TimersOk, Matched, Used, Dac.DacInv, DigitalOut.DigInv, SpiSensor.SpiInv;
  }

  lemma DacOk(b: Bench)
    requires Inv(b)
    ensures Dac.DacInv(b.dac) && |b.ts| == COUNT
  {
    hide Pwm.PwmInv, Matched, Used, SpiSensor.SpiInv, DigitalOut.DigInv, I2cSensor.I2cInv, Pwm.TimerAgrees, TimerOk;
  }

  lemma SpiTransmitKeeps(b: Bench, p: nat)
    requires Inv(b) && p in b.spi
    ensures Inv(b.(spi := b.spi[p := Spi.NextByte(b.spi[p]).1]))
  {
    hide Pwm.PwmInv, Pwm.TimersOk, Matched, Used, Dac.DacInv, DigitalOut.DigInv, I2cSensor.I2cInv;
    var after := b.spi[p := Spi.NextByte(b.spi[p]).1];
    assert after.Keys == b.spi.Keys;
    SameEntries(b, b.(spi := after));
  }

  lemma PulseExpiresKeeps(b: Bench, i: nat)
    requires Inv(b)
    ensures Inv(b.(dig := DigitalOut.Expired(b.dig, i)))
  {
    hide Pwm.PwmInv, Pwm.TimersOk, Matched, Used, Dac.DacInv, I2cSensor.I2cInv, SpiSensor.SpiInv;
    DigitalOut.UpdateKeepsInv(b.dig, b.ts, i, [], DigitalOut.Env(true, true));
    assert DigitalOut.Expired(b.dig, i).Keys == b.dig.Keys;
    SameEntries(b, b.(dig := DigitalOut.Expired(b.dig, i)));
  }

  /** The state after a run. */
  ghost function Run(b: Bench, hs: seq<Happening>): (r: Bench)
    requires Inv(b)
    ensures Inv(r)
    decreases |hs|
  {
    if hs == [] then b
    else
      StepKeeps(b, hs[0]);
      Run(Step(b, hs[0]), hs[1..])
  }

  /** The invariant holds after every command and every interrupt, whatever the environment
      decides. */
  lemma StepKeeps(b: Bench, h: Happening)
    requires Inv(b)
    ensures Inv(Step(b, h))
  {
    hide Inv, Handle;
    match h
    case Command(f, env) => HandleKeeps(b, f, env);
    case I2cInterrupt(i, irq) => if i in b.i2c { I2cInterruptKeeps(b, i, irq); }
    case SpiTransmit(p) => if p in b.spi { SpiTransmitKeeps(b, p); }
    case PulseExpires(i) => PulseExpiresKeeps(b, i);
  }

  // ---------------------------------------------------------------- what a host can rely on

  /** In every reachable state the sensor table and the pools are in one-to-one correspondence:
      each id names a live entry, each live entry has an id, no two ids name the same one. */
  lemma TableIsABijection(hs: seq<Happening>)
    ensures var b := (EmptyInv(); Run(EMPTY, hs));
      && (forall id :: id in b.table.live ==> 1 <= id <= ID_MAX && b.table.live[id] in Used(b))
      && (forall e :: e in Used(b) ==> exists id :: id in b.table.live && b.table.live[id] == e)
      && (forall id, other :: id in b.table.live && other in b.table.live && id != other ==> b.table.live[id] != b.table.live[other])
  {
    EmptyInv();
    var b := Run(EMPTY, hs);
    hide Pwm.PwmInv, Pwm.TimersOk, Used, Dac.DacInv, DigitalOut.DigInv, I2cSensor.I2cInv, SpiSensor.SpiInv, Run;
    forall e | e in Used(b)
      ensures exists id :: id in b.table.live && b.table.live[id] == e
    {
      assert e in b.table.live.Values;
    }
  }

  /** In every reachable state: a peripheral is never a DAC master and an SPI slave at once and
      every running chip has a channel; the reference count of every timer is the number of live
      PWM sensors on it, positive exactly when it runs PWM, and its divider is the one each of
      them asked for; no two of them share a pin or a channel. */
  lemma SharingIsSafe(hs: seq<Happening>)
    ensures var b := (EmptyInv(); Run(EMPTY, hs));
      && b.dac.Keys !! b.spi.Keys
      && (forall p :: p in b.dac ==> b.dac[p].channels != {})
      && (forall t :: 0 <= t < COUNT ==>
            && t < |b.ts| && (b.ts[t].state == HwTimer.Pwm <==> Pwm.OnTimer(b.pwm, t) != {})
            && (b.ts[t].state == HwTimer.Pwm ==> b.ts[t].refs == |Pwm.OnTimer(b.pwm, t)|)
            && (forall i :: i in b.pwm && b.pwm[i].timer == t ==>
                  Pwm.DividerOf(b.pwm[i]) == Some(Timers.Divider(b.ts[t].psc, b.ts[t].arr))))
      && (forall i, j :: i in b.pwm && j in b.pwm && i != j ==>
            b.pwm[i].pin != b.pwm[j].pin && (b.pwm[i].timer, b.pwm[i].channel) != (b.pwm[j].timer, b.pwm[j].channel))
  {
    EmptyInv();
    var b := Run(EMPTY, hs);
    hide Used, Matched, DigitalOut.DigInv, I2cSensor.I2cInv, SpiSensor.SpiInv, Run, Pwm.DividerOf,
         Timers.Compute, TimerOk;
    forall t | 0 <= t < COUNT
      ensures Pwm.TimerAgrees(t, b.ts[t], b.pwm)
    {}
  }

  /** All or nothing: a setup that answers an error changes nothing at all; only a digital-out
      setup may change pulse reservations (see DigitalOut.FailedSetupLeaks). */
  lemma FailedSetupChangesNothing(b: Bench, proto: nat, cfg: seq<byte>, env: Env)
    requires Inv(b)
    ensures var (b', err, id) := Setup(b, proto, cfg, env);
      err != Success ==>
        && id == 0
        && (proto != ID_DIGITAL_OUT ==> b' == b)
        && b' == b.(ts := b'.ts) && (proto == ID_DIGITAL_OUT ==> b'.ts == DigitalOut.SetupSpec(b.dig, b.ts, b.table, cfg).1)
  {
    DigitalTimers(b, cfg);
    hide Inv, SetupPwm, SetupDac, SetupSpi, SetupI2c, SetupDigital;
    if proto == ID_PWM {
      PwmOutcome(b, cfg);
    } else if proto == ID_DAC {
      DacOutcome(b, cfg, env.dac);
    } else if proto == ID_SPI {
      SpiOutcome(b, cfg);
    } else if proto == ID_I2C {
      I2cOutcome(b, cfg, env.memory);
    } else if proto == ID_DIGITAL_OUT {
      DigitalOutcome(b, cfg);
    }
  }

  lemma DigitalTimers(b: Bench, cfg: seq<byte>)
    requires Inv(b)
    ensures |b.ts| == COUNT && SetupDigital(b, cfg).0.ts == DigitalOut.SetupSpec(b.dig, b.ts, b.table, cfg).1
  {
    hide Used, Matched, Pwm.PwmInv, Dac.DacInv, Pwm.TimerAgrees, TimerOk;
  }

  lemma DigitalSparesPwm(b: Bench, cfg: seq<byte>)
    requires Inv(b)
    ensures DigitalOut.SamePwm(b.ts, DigitalOut.SetupSpec(b.dig, b.ts, b.table, cfg).1)
  {
    hide Used, Matched, Pwm.PwmInv, Dac.DacInv, Pwm.TimerAgrees, TimerOk;
    DigitalOut.SetupSparesPwm(b.dig, b.ts, b.table, cfg);
  }

  lemma ReleaseUndoesRegister(t: Table, e: Entry)
    requires ValidTable(t) && |t.live| < SLOTS
    ensures var (t', id) := Registered(t, e);
      id != 0 && id in t'.live && t'.live[id] == e && Released(t', id).live == t.live
  {
    hide NextId;
    RegisterSucceeds(t, e);
  }

  /** Stopping `id` in `b1` gives back `b`, but for the id hint. */
  ghost predicate Undone(b: Bench, b1: Bench, id: nat) {
    var (b2, err) := Stop(b1, id);
    err == Success && b2 == b.(table := b2.table) && b2.table.live == b.table.live
  }

  lemma UndoneBy(b: Bench, b1: Bench, e: Entry, id: nat)
    requires ValidTable(b.table) && |b.table.live| < SLOTS && (b1.table, id) == Registered(b.table, e)
    requires StopBackend(b1, e) == (b.(table := b1.table), Success)
    ensures Undone(b, b1, id)
  {
    hide StopBackend;
    ReleaseUndoesRegister(b.table, e);
  }

  lemma StopUndoesPwm(b: Bench, cfg: seq<byte>)
    requires Inv(b) && SetupPwm(b, cfg).1 == Success
    ensures Undone(b, SetupPwm(b, cfg).0, SetupPwm(b, cfg).2)
  {
    hide SetupPwm, Inv, Pwm.Wanted, Acquire, Release, Registered, Undone, Pwm.PwmInv, Pwm.TimersOk;
    PwmOutcome(b, cfg);
    PoolOf(b);
    TableOk(b);
    var p := Pwm.Wanted(cfg);
    var (b1, _, id) := SetupPwm(b, cfg);
    var i := Pwm.SlotFor(p.timer, p.channel);
    ReleaseUndoesAcquire(b.ts, p.timer, p.freq);
    assert b.pwm[i := p] - {i} == b.pwm;
    UndoneBy(b, b1, Entry(ID_PWM, i), id);
  }

  lemma PoolOf(b: Bench)
    requires Inv(b)
    ensures PoolOk(b.ts) && Dac.DacInv(b.dac)
  {
    hide Pwm.PwmInv, Matched, Used, Dac.DacInv, DigitalOut.DigInv, I2cSensor.I2cInv, SpiSensor.SpiInv,
         Pwm.TimerAgrees, TimerOk;
  }

  lemma StopUndoesDac(b: Bench, cfg: seq<byte>, env: Dac.Env)
    requires Inv(b) && SetupDac(b, cfg, env).1 == Success
    ensures Undone(b, SetupDac(b, cfg, env).0, SetupDac(b, cfg, env).2)
  {
    hide SetupDac, Inv, Dac.Wanted, Dac.StopSpec, Dac.DacInv, Registered, Undone, Dac.Index;
    DacOutcome(b, cfg, env);
    PoolOf(b);
    TableOk(b);
    var r := Dac.Wanted(cfg);
    var (b1, _, id) := SetupDac(b, cfg, env);
    DacUndone(b.dac, r.periph, Dac.Kept(r.cfg), r.channel);
    UndoneBy(b, b1, Entry(ID_DAC, Dac.Index(r.periph, r.channel)), id);
  }

  lemma DacUndone(live: Dac.Live, p: nat, cfg: Dac.ChipCfg, c: nat)
    requires Dac.DacInv(live) && p < Spi.PERIPHS && c < Dac.CHANNELS && !Dac.Running(live, p, c)
    ensures Dac.StopSpec(Dac.WithChannel(live, p, cfg, c), Dac.Index(p, c)) == (live, Success)
  {
    var after := Dac.WithChannel(live, p, cfg, c);
    if p in live {
      assert live[p].channels + {c} - {c} == live[p].channels;
      var d :| d in live[p].channels;
      assert d in after[p].channels && d != c;
      assert Dac.WithoutChannel(after, p, c) == live;
    } else {
      assert after - {p} == live;
    }
  }

  lemma StopUndoesSpi(b: Bench, cfg: seq<byte>)
    requires Inv(b) && SetupSpi(b, cfg).1 == Success
    ensures Undone(b, SetupSpi(b, cfg).0, SetupSpi(b, cfg).2)
  {
    hide SetupSpi, Inv, Registered, Undone, SpiSensor.SpiInv;
    SpiOutcome(b, cfg);
    TableOk(b);
    var i := Read8(cfg, 0);
    var (b1, _, id) := SetupSpi(b, cfg);
    assert b1.spi - {i} == b.spi;
    UndoneBy(b, b1, Entry(ID_SPI, i), id);
  }

  lemma StopUndoesI2c(b: Bench, cfg: seq<byte>, memory: bool)
    requires Inv(b) && SetupI2c(b, cfg, memory).1 == Success
    ensures Undone(b, SetupI2c(b, cfg, memory).0, SetupI2c(b, cfg, memory).2)
  {
    hide SetupI2c, Inv, Registered, Undone, I2cSensor.I2cInv;
    I2cOutcome(b, cfg, memory);
    TableOk(b);
    var i := I2cSensor.FirstFree(b.i2c);
    var (b1, _, id) := SetupI2c(b, cfg, memory);
    assert b1.i2c - {i} == b.i2c;
    UndoneBy(b, b1, Entry(ID_I2C, i), id);
  }

  lemma DigitalAdmits(b: Bench, cfg: seq<byte>)
    requires Inv(b) && SetupDigital(b, cfg).1 == Success
    ensures |cfg| >= DigitalOut.CFG_SIZE && |b.ts| == COUNT
    ensures SetupDigital(b, cfg).0.dig ==
            b.dig[DigitalOut.FirstFree(b.dig) := DigitalOut.NewSensor(DigitalOut.Wanted(cfg))]
  {
    DigitalTimers(b, cfg);
    hide Inv, DigitalOut.FreeFrom, NextId, DigitalOut.GoodRequest, DigitalOut.PinsOf;
  }

  /** STOP right after a successful digital-out setup restores everything but the id hint, and
      the timer pool exactly unless the sensor is of the hardware kind and some timer was left
      reserved under its pool index. */
  lemma StopUndoesDigital(b: Bench, cfg: seq<byte>)
    requires Inv(b) && SetupDigital(b, cfg).1 == Success
    ensures |cfg| >= DigitalOut.CFG_SIZE
    ensures var (b1, _, id) := SetupDigital(b, cfg);
      var (b2, err) := Stop(b1, id);
      && err == Success && b2 == b.(table := b2.table, ts := b2.ts) && b2.table.live == b.table.live
      && (b2.ts == b.ts <==>
            DigitalOut.Wanted(cfg).timerKind != 1 || !DigitalOut.HasPulse(b.ts, DigitalOut.FirstFree(b.dig)))
  {
    hide SetupDigital, Inv, Registered, Released, DigitalOut.Wanted, DigitalOut.FreeFrom, DigitalOut.DigInv, Pwm.TimersOk;
    DigitalOutcome(b, cfg);
    DigitalAdmits(b, cfg);
    TableOk(b);
    var i := DigitalOut.FirstFree(b.dig);
    var (b1, _, id) := SetupDigital(b, cfg);
    ReleaseUndoesRegister(b.table, Entry(ID_DIGITAL_OUT, i));
    assert b1.dig - {i} == b.dig;
    if DigitalOut.HasPulse(b.ts, i) {
      var t := FirstPulse(b.ts, i, 0);
      assert PulseReleased(b.ts, i)[t].state == Free;
    }
  }

  /** A successful setup followed by STOP on the id it answered restores everything but the id
      hint; StopUndoesDigital says it for digital-out, up to hardware timers. */
  lemma StopUndoesSetup(b: Bench, proto: nat, cfg: seq<byte>, env: Env)
    requires Inv(b) && proto != ID_DIGITAL_OUT && Setup(b, proto, cfg, env).1 == Success
    ensures var (b1, _, id) := Setup(b, proto, cfg, env);
      var (b2, err) := Stop(b1, id);
      err == Success && b2 == b.(table := b2.table) && b2.table.live == b.table.live
  {
    hide Inv, SetupPwm, SetupDac, SetupSpi, SetupI2c, SetupDigital, Stop;
    if proto == ID_PWM {
      StopUndoesPwm(b, cfg);
    } else if proto == ID_DAC {
      StopUndoesDac(b, cfg, env.dac);
    } else if proto == ID_SPI {
      StopUndoesSpi(b, cfg);
    } else {
      StopUndoesI2c(b, cfg, env.memory);
    }
  }

  /** An I2C setup answers the id of the pool entry that was the lowest free one. */
  lemma I2cAnswers(b: Bench, cfg: seq<byte>, memory: bool)
    requires Inv(b) && SetupI2c(b, cfg, memory).1 == Success
    ensures var (b1, _, id) := SetupI2c(b, cfg, memory);
      id in b1.table.live && b1.table.live[id] == Entry(ID_I2C, I2cSensor.FirstFree(b.i2c))
  {
    I2cOutcome(b, cfg, memory);
    TableOk(b);
    hide SetupI2c, Inv, NextId;
    RegisterSucceeds(b.table, Entry(ID_I2C, I2cSensor.FirstFree(b.i2c)));
  }

  /** A successful setup answers an id that is live afterwards and was not before. */
  lemma AnswersLiveId(b: Bench, proto: nat, cfg: seq<byte>, env: Env)
    requires Inv(b) && Setup(b, proto, cfg, env).1 == Success
    ensures var (b1, _, id) := Setup(b, proto, cfg, env);
      1 <= id <= ID_MAX && id !in b.table.live && id in b1.table.live && b1.table.live[id].proto == proto
  {
    TableOk(b);
    hide Inv, SetupPwm, SetupDac, SetupSpi, SetupI2c, SetupDigital, NextId;
    if proto == ID_PWM {
      PwmOutcome(b, cfg);
      RegisterSucceeds(b.table, Entry(proto, Pwm.SlotFor(Pwm.Wanted(cfg).timer, Pwm.Wanted(cfg).channel)));
    } else if proto == ID_DAC {
      DacOutcome(b, cfg, env.dac);
      RegisterSucceeds(b.table, Entry(proto, Dac.Index(Dac.Wanted(cfg).periph, Dac.Wanted(cfg).channel)));
    } else if proto == ID_SPI {
      SpiOutcome(b, cfg);
      RegisterSucceeds(b.table, Entry(proto, Read8(cfg, 0)));
    } else if proto == ID_I2C {
      I2cOutcome(b, cfg, env.memory);
      RegisterSucceeds(b.table, Entry(proto, I2cSensor.FirstFree(b.i2c)));
    } else {
      DigitalOutcome(b, cfg);
      RegisterSucceeds(b.table, Entry(proto, DigitalOut.FirstFree(b.dig)));
    }
  }

  lemma TableOk(b: Bench)
    requires Inv(b)
    ensures ValidTable(b.table)
  {}

  /** STOP on a live id always succeeds and removes exactly that id; on any other it changes
      nothing. */
  lemma StopAlwaysSucceeds(b: Bench, f: Framing.Frame, env: Env)
    requires Inv(b) && f.ftype == CMD_STOP && f.payload != []
    ensures var id := f.payload[0] as nat;
      var (b', r) := Handle(b, f, env);
      && r == Reply(CMD_STOP, if id in b.table.live then Success else InvalidSensorId, id, f.seqno)
      && (if id in b.table.live then b'.table == Released(b.table, id) else b' == b)
  {
    hide Inv, StopBackend;
    var id := f.payload[0] as nat;
    StopKeeps(b, id);
    if id in b.table.live {
      var e := b.table.live[id];
      assert e in Used(b) by { EntryOf(b, id); }
      StopOutcome(b, e);
    }
  }

  lemma EntryOf(b: Bench, id: nat)
    requires Inv(b) && id in b.table.live
    ensures b.table.live[id] in Used(b)
  {
    hide Used, Pwm.PwmInv, Pwm.TimersOk, Dac.DacInv, DigitalOut.DigInv, I2cSensor.I2cInv, SpiSensor.SpiInv;
  }

  /** SET_OUTPUT on a live id always reaches a live backend entry. */
  lemma SetOutputReaches(b: Bench, id: nat, values: seq<byte>, env: Env)
    requires Inv(b)
    ensures SetOutput(b, id, values, env).1 == InvalidSensorId <==> id !in b.table.live
    ensures SetOutput(b, id, values, env).0.table == b.table
  {
    if id in b.table.live {
      var e := b.table.live[id];
      EntryOf(b, id);
      ProtocolOf(b, e);
      OutputAnswers(b, e.internal, values, env);
      hide Used, Pwm.PwmInv, Pwm.TimersOk, Dac.DacInv, DigitalOut.DigInv, SpiSensor.SpiInv, Matched;
      hide Pwm.SetOutputSpec, SpiSensor.SetOutputSpec, I2cSensor.SetOutputSpec, DigitalOut.SetOutputSpec,
           Dac.SetOutputErr;
    }
  }

  lemma OutputAnswers(b: Bench, i: nat, values: seq<byte>, env: Env)
    requires Inv(b)
    ensures i in b.pwm ==> Pwm.SetOutputSpec(b.pwm, i, values).1 != InvalidSensorId
    ensures i in b.spi ==> SpiSensor.SetOutputSpec(b.spi, i, values).1 != InvalidSensorId
    ensures i in b.i2c ==> I2cSensor.SetOutputSpec(b.i2c, i, values).1 != InvalidSensorId
    ensures i in b.dig ==> DigitalOut.SetOutputSpec(b.dig, b.ts, i, values, env.timer).1 != InvalidSensorId
    ensures Dac.Has(b.dac, i) ==> Dac.SetOutputErr(b.dac, i, values, env.dac.write) != InvalidSensorId
  {
    hide Used, Pwm.PwmInv, Pwm.TimersOk, Dac.DacInv, DigitalOut.DigInv, SpiSensor.SpiInv, Matched,
         I2cSensor.Overlay, DigitalOut.MaxPulse;
  }

  // ---------------------------------------------------------------- a conversation with the host

  /** protocol_send_ack: type, error code and sensor id under the command's sequence number. */
  function AckFrame(r: Reply): Framing.Frame
    requires r.id <= 255
  {
    Framing.Frame(RSP_ACK, r.seqno, [r.cmd, Code(r.err), r.id as byte])
  }

  /** parse_ack on the host. */
  function ParseAck(f: Framing.Frame): Option<(byte, byte, byte)> {
    if f.ftype != RSP_ACK || |f.payload| != 3 then None else Some((f.payload[0], f.payload[1], f.payload[2]))
  }

  /** What the host reads from an ACK: the command's type, the code of the error and the sensor id. */
  lemma HostReads(r: Reply)
    requires r.id <= 255
    ensures ParseAck(AckFrame(r)) == Some((r.cmd, Code(r.err), r.id as byte))
    ensures AckFrame(r).ftype == 0x10 && AckFrame(r).seqno == r.seqno
    ensures var code := Code(r.err) as nat;
      && (r.err == Success <==> code == 0x00) && (r.err == UnknownCmd <==> code == 0x01)
      && (r.err == MalformedPayload <==> code == 0x02) && (r.err == Unsupported <==> code == 0x04)
      && (r.err == OutOfResources <==> code == 0x05) && (r.err == InvalidSensorId <==> code == 0x06)
      && (r.err == InvalidParameter <==> code == 0x07) && (r.err == PeripheralBusy <==> code == 0x08)
      && (r.err == PinConflict <==> code == 0x09) && (r.err == NotImplemented <==> code == 0x0A)
      && (r.err == Internal <==> code == 0x0B)
      && (r.err == I2cNoFreePeripheral <==> code == 0x40) && (r.err == I2cClockUnsupported <==> code == 0x41)
      && (r.err == I2cAddrReserved <==> code == 0x43) && (r.err == I2cRegmapTooLarge <==> code == 0x44)
      && (r.err == I2cBadAddrMode <==> code == 0x45) && (r.err == I2cRegisterOob <==> code == 0x46)
      && (r.err == I2cSmbusRequired <==> code == 0x48)
      && (r.err == PwmFreqConflict <==> code == 0x60) && (r.err == PwmChannelInUse <==> code == 0x61)
      && (r.err == DacPinMismatch <==> code == 0x80) && (r.err == DacClockMismatch <==> code == 0x81)
      && (r.err == DacChannelInUse <==> code == 0x82)
  {}

  /** Every frame is answered under its own type and sequence number. */
  lemma ReplyEchoes(b: Bench, f: Framing.Frame, env: Env)
    requires Inv(b)
    ensures var r := Handle(b, f, env).1;
      && r.cmd == f.ftype && r.seqno == f.seqno && r.id <= 255
      && (f.ftype == CMD_SETUP ==> (r.err == Success <==> r.id != 0))
  {
    hide Inv, SetupPwm, SetupDac, SetupSpi, SetupI2c, SetupDigital, SetOutput, Stop, Setup;
    if f.ftype == CMD_SETUP && f.payload != [] {
      var proto, cfg := f.payload[0] as nat, f.payload[1..];
      FailedSetupChangesNothing(b, proto, cfg, env);
      if Setup(b, proto, cfg, env).1 == Success {
        AnswersLiveId(b, proto, cfg, env);
      }
    }
  }

  /** The replies to a series of commands, as the firmware puts them on the line. */
  ghost function Serve(b: Bench, cmds: seq<Framing.Frame>, envs: seq<Env>): (r: seq<Framing.Sent>)
    requires Inv(b) && |cmds| == |envs|
    decreases |cmds|
  {
    if cmds == [] then []
    else
      ReplyEchoes(b, cmds[0], envs[0]);
      HandleKeeps(b, cmds[0], envs[0]);
      var (b', reply) := Handle(b, cmds[0], envs[0]);
      [Framing.Packet(AckFrame(reply))] + Serve(b', cmds[1..], envs[1..])
  }

  /** The state once they are all handled. */
  ghost function Served(b: Bench, cmds: seq<Framing.Frame>, envs: seq<Env>): (r: Bench)
    requires Inv(b) && |cmds| == |envs|
    ensures Inv(r)
    decreases |cmds|
  {
    if cmds == [] then b
    else
      HandleKeeps(b, cmds[0], envs[0]);
      Served(Handle(b, cmds[0], envs[0]).0, cmds[1..], envs[1..])
  }

  lemma {:induction false} ServeOneMore(b: Bench, cmds: seq<Framing.Frame>, envs: seq<Env>, f: Framing.Frame, env: Env)
    requires Inv(b) && |cmds| == |envs|
    ensures var b1 := Served(b, cmds, envs);
      && Handle(b1, f, env).1.id <= 255
      && Served(b, cmds + [f], envs + [env]) == Handle(b1, f, env).0
      && Serve(b, cmds + [f], envs + [env]) == Serve(b, cmds, envs) + [Framing.Packet(AckFrame(Handle(b1, f, env).1))]
    decreases |cmds|
  {
    hide Inv, Handle, AckFrame;
    if cmds == [] {
      assert (cmds + [f])[0] == f && (cmds + [f])[1..] == [] && (envs + [env])[0] == env && (envs + [env])[1..] == [];
      ReplyEchoes(b, f, env);
    } else {
      HandleKeeps(b, cmds[0], envs[0]);
      assert (cmds + [f])[0] == cmds[0] && (cmds + [f])[1..] == cmds[1..] + [f];
      assert (envs + [env])[0] == envs[0] && (envs + [env])[1..] == envs[1..] + [env];
      ServeOneMore(Handle(b, cmds[0], envs[0]).0, cmds[1..], envs[1..], f, env);
    }
  }

  /** Each reply is an ACK with its command's sequence number, in which the host reads the command's
      type and the error code and id of the answer. */
  ghost predicate Echoes(b: Bench, out: seq<Framing.Sent>, cmds: seq<Framing.Frame>, envs: seq<Env>)
    requires Inv(b) && |cmds| == |envs|
  {
    |out| == |cmds| && Framing.Clean(out) && forall k :: 0 <= k < |out| ==> Echo(b, out[k], cmds, envs, k)
  }

  ghost predicate Echo(b: Bench, s: Framing.Sent, cmds: seq<Framing.Frame>, envs: seq<Env>, k: nat)
    requires Inv(b) && k < |cmds| == |envs|
  {
    var r := Handle(Served(b, cmds[..k], envs[..k]), cmds[k], envs[k]).1;
    && s.Packet? && s.frame.seqno == cmds[k].seqno && r.id <= 255
    && ParseAck(s.frame) == Some((cmds[k].ftype, Code(r.err), r.id as byte))
  }

  function Delivered(cmds: seq<Framing.Frame>): seq<Framing.Event> {
    seq(|cmds|, i requires 0 <= i < |cmds| => Framing.Good(cmds[i]))
  }

  lemma {:induction false} OneReplyEach(b: Bench, cmds: seq<Framing.Frame>, envs: seq<Env>)
    requires Inv(b) && |cmds| == |envs|
    ensures Echoes(b, Serve(b, cmds, envs), cmds, envs)
    decreases |cmds|
  {
    hide Inv, Handle;
    if cmds == [] {
    } else {
      ReplyEchoes(b, cmds[0], envs[0]);
      HandleKeeps(b, cmds[0], envs[0]);
      var (b', reply) := Handle(b, cmds[0], envs[0]);
      OneReplyEach(b', cmds[1..], envs[1..]);
      HostReads(reply);
      var out := Serve(b, cmds, envs);
      hide AckFrame, ParseAck, Echo;
      forall k | 0 <= k < |out|
        ensures Echo(b, out[k], cmds, envs, k)
      {
        if k == 0 { FirstEcho(b, cmds, envs); } else { LaterEcho(b, out[k], cmds, envs, k); }
      }
    }
  }

  lemma FirstEcho(b: Bench, cmds: seq<Framing.Frame>, envs: seq<Env>)
    requires Inv(b) && |cmds| == |envs| > 0 && Handle(b, cmds[0], envs[0]).1.id <= 255
    ensures Echo(b, Framing.Packet(AckFrame(Handle(b, cmds[0], envs[0]).1)), cmds, envs, 0)
  {
    ReplyEchoes(b, cmds[0], envs[0]);
    HostReads(Handle(b, cmds[0], envs[0]).1);
    assert cmds[..0] == [] && envs[..0] == [];
    hide Inv, Handle, AckFrame, ParseAck;
  }

  lemma LaterEcho(b: Bench, s: Framing.Sent, cmds: seq<Framing.Frame>, envs: seq<Env>, k: nat)
    requires Inv(b) && 0 < k < |cmds| == |envs| && Inv(Handle(b, cmds[0], envs[0]).0)
    requires Echo(Handle(b, cmds[0], envs[0]).0, s, cmds[1..], envs[1..], k - 1)
    ensures Echo(b, s, cmds, envs, k)
  {
    hide Inv, Handle, ParseAck;
    assert cmds[..k][0] == cmds[0] && cmds[..k][1..] == cmds[1..][..k - 1];
    assert envs[..k][0] == envs[0] && envs[..k][1..] == envs[1..][..k - 1];
  }

  /** Commands sent as encoded frames, with any line noise that is not a start byte in between,
      are all delivered in order, and the host's parser reads back exactly one ACK per command,
      in order, carrying its type and sequence number, the error code and the sensor id. */
  lemma Conversation(b: Bench, sent: seq<Framing.Sent>, cmds: seq<Framing.Frame>, envs: seq<Env>)
    requires Inv(b) && Framing.Clean(sent) && |cmds| == |envs| && Framing.Packets(sent) == Delivered(cmds)
    ensures Framing.Events(Framing.Cuts([], Framing.Line(sent))) == Delivered(cmds)
    ensures var out := Serve(b, cmds, envs);
      Echoes(b, out, cmds, envs) && Framing.Events(Framing.Cuts([], Framing.Line(out))) == Framing.Packets(out)
  {
    hide Inv, Framing.Cuts, Framing.Line, Framing.Packets, Serve;
    Framing.CleanLineDelivered(sent);
    OneReplyEach(b, cmds, envs);
    Framing.CleanLineDelivered(Serve(b, cmds, envs));
  }
}
