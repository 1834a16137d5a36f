/** The dispatcher over the concrete tables (dispatcher.c): every handler is proved to do to the
    tables what the engine's reference function does to their abstract contents. */
module Dispatcher {
  import opened Wrappers
  import opened Sensors
  import opened Wire
  import opened HwTimer
  import Framing
  import I2cSlave
  import Spi
  import Pwm
  import Dac
  import SpiSensor
  import I2cSensor
  import DigitalOut
  import B = Bench
  import opened Effects

  class Firmware {
    const mgr: SensorManager
    const tim: TimerPool
    const spi: Spi.SpiDriver
    const pwm: Pwm.PwmBackend
    const dac: Dac.DacBackend
    const slave: SpiSensor.SpiBackend
    const i2c: I2cSensor.I2cBackend
    const dig: DigitalOut.DigitalBackend

    /** The backends share one sensor table, one timer pool and one SPI driver; the two pin
        bitmaps are arrays of their own. */
    ghost predicate Wired() {
      && pwm.mgr == dac.mgr == slave.mgr == i2c.mgr == dig.mgr == mgr
      && pwm.tim == dig.tim == tim && dac.spi == slave.spi == spi
      && pwm.pins != dig.pins
    }

    ghost predicate Valid()
      reads this, mgr, mgr.slots, tim, tim.timers, tim.ccr, spi, spi.claims, spi.masterOn, spi.slaves
      reads pwm, pwm.cells, pwm.pins, dac, dac.sems, dac.chips, dac.cells, slave, slave.cells
      reads i2c, i2c.states, i2c.devices, i2c.blocks, dig, dig.cells, dig.pins
    {
      Sound() && B.Inv(View())
    }

    /** Each component is in order; `Valid` adds that they fit together. */
    ghost predicate Sound()
      reads this, mgr, mgr.slots, tim, tim.timers, tim.ccr, spi, spi.claims, spi.masterOn, spi.slaves
      reads pwm, pwm.cells, pwm.pins, dac, dac.sems, dac.chips, dac.cells, slave, slave.cells
      reads i2c, i2c.states, i2c.devices, i2c.blocks, dig, dig.cells, dig.pins
    {
      && Wired() && mgr.Valid() && tim.Valid() && spi.Valid()
      && pwm.Own() && dac.Own() && slave.Own() && i2c.Own() && dig.Own()
    }

    /** The abstract engine these tables stand for. */
    ghost function View(): B.Bench
      requires slave.spi == spi && spi.Valid()
      reads mgr, tim.timers, pwm, dac, spi, spi.claims, spi.masterOn, spi.slaves, i2c, dig
    {
      B.Bench(mgr.View(), tim.timers[..], pwm.live, dac.live, slave.View(), i2c.live, dig.live)
    }

    /** The abstract engine of tables in order. */
    ghost function State(): B.Bench
      requires Valid()
      reads this, mgr, mgr.slots, tim, tim.timers, tim.ccr, spi, spi.claims, spi.masterOn, spi.slaves
      reads pwm, pwm.cells, pwm.pins, dac, dac.sems, dac.chips, dac.cells, slave, slave.cells
      reads i2c, i2c.states, i2c.devices, i2c.blocks, dig, dig.cells, dig.pins
    {
      View()
    }

    ghost function Tables(): Raw
      requires Valid()
      reads tim.timers, tim.ccr, spi, spi.claims, spi.masterOn, spi.slaves, pwm, pwm.cells, pwm.pins
      reads this, mgr, mgr.slots, tim, dac, dac.sems, dac.chips, dac.cells, slave, slave.cells
      reads i2c, i2c.states, i2c.devices, i2c.blocks, dig, dig.cells, dig.pins
    {
      Raw(pwm.Snapshot(), dac.Snapshot(), slave.cells[..], i2c.Snapshot(), dig.cells[..], dig.pins[..])
    }

    /** What the tables of the backends own, heap blocks and sensor slots apart. */
    ghost function Held(): Holdings
      requires Valid()
      reads tim.timers, tim.ccr, spi, spi.claims, spi.masterOn, spi.slaves, pwm, pwm.cells, pwm.pins
      reads this, mgr, mgr.slots, tim, dac, dac.sems, dac.chips, dac.cells, slave, slave.cells
      reads i2c, i2c.states, i2c.devices, i2c.blocks, dig, dig.cells, dig.pins
    {
      HoldingsOf(Tables())
    }

    lemma TablesStand()
      requires Valid()
      ensures Stands(Tables(), State()) && Tables().pwm.ts == tim.timers[..]
    {
      hide B.Inv, Pwm.Agree, Dac.Agree, DigitalOut.Agree, Holds, ValidTable, PoolOk, I2cSensor.I2cBackend.Own,
           Dac.DacInv, Spi.SlavesOf, SpiSensor.CellsAgree, SpiSensor.SpiInv, Spi.PortsOk, I2cSensor.TablesOf, I2cSensor.I2cBackend.Snapshot;
      i2c.SnapshotIs();
    }

    lemma StateInv()
      requires Valid()
      ensures B.Inv(State())
    {}

    /** The heap block of a pool entry: only I2C entries own one. */
    ghost function OwnedAt(proto: nat, i: nat): set<array<byte>>
      reads i2c, i2c.states
    {
      if proto == ID_I2C && i < i2c.states.Length then I2cSensor.Block(i2c.states[i]) else {}
    }

    /** The heap block of a live sensor. */
    ghost function OwnedBy(id: nat): set<array<byte>>
      reads mgr, i2c, i2c.states
    {
      if id in mgr.View().live then OwnedAt(mgr.View().live[id].proto, mgr.View().live[id].internal) else {}
    }

    /** Ties initialised backends together. */
    constructor (mgr: SensorManager, tim: TimerPool, spi: Spi.SpiDriver, i2c: I2cSensor.I2cBackend, dig: DigitalOut.DigitalBackend,
                 pwm: Pwm.PwmBackend, dac: Dac.DacBackend, slave: SpiSensor.SpiBackend)
      requires mgr.Valid() && tim.Valid() && spi.Valid() && i2c.Own() && dig.Own() && pwm.Own() && dac.Own() && slave.Own()
      requires pwm.mgr == dac.mgr == slave.mgr == i2c.mgr == dig.mgr == mgr
      requires pwm.tim == dig.tim == tim && dac.spi == slave.spi == spi && pwm.pins != dig.pins
      requires B.Bench(mgr.View(), tim.timers[..], pwm.live, dac.live, slave.View(), i2c.live, dig.live) == B.EMPTY
      ensures Valid() && View() == B.EMPTY
      ensures this.pwm == pwm && this.dac == dac && this.slave == slave && this.i2c == i2c && this.dig == dig
    {
      hide B.Inv, Holds, SlotsMoved, ValidTable, Pwm.PwmBackend.Own, Dac.DacBackend.Own, SpiSensor.SpiBackend.Own,
           I2cSensor.I2cBackend.Own, DigitalOut.DigitalBackend.Own;
      B.EmptyInv();
      this.mgr, this.tim, this.spi, this.i2c, this.dig, this.pwm, this.dac, this.slave := mgr, tim, spi, i2c, dig, pwm, dac, slave;
    }

    method SetupPwm(cfg: seq<byte>) returns (err: Err, id: nat)
      requires Valid()
      modifies pwm, mgr, mgr.slots, tim.timers, tim.ccr, pwm.cells, pwm.pins
      ensures Valid() && (State(), err, id) == B.SetupPwm(old(State()), cfg)
      ensures SlotsMoved(old(mgr.slots[..]), mgr.slots[..], id)
    {
      hide B.Inv, Holds, SlotsMoved, ValidTable, Pwm.Agree, Dac.DacBackend.Own, SpiSensor.SpiBackend.Own,
           I2cSensor.I2cBackend.Own, DigitalOut.DigitalBackend.Private;
      hide Pwm.SetupSpec, Pwm.SetUp, Pwm.Running, Acquire, TimerOk, Pwm.Wanted, Spi.SpiDriver.Valid, Spi.SpiDriver.View;
      B.SetupPwmKeeps(View(), cfg);
      err, id := pwm.Setup(cfg);
    }

    method SetupDac(cfg: seq<byte>, env: Dac.Env) returns (err: Err, id: nat)
      requires Valid()
      modifies dac, mgr, mgr.slots, dac.chips, dac.cells, spi.claims, spi.masterOn, dac.sems
      ensures Valid() && (State(), err, id) == B.SetupDac(old(State()), cfg, env)
      ensures dac.wire == old(dac.wire) + Dac.SetupWords(old(State()).dac, old(State()).spi, cfg, env)
      ensures SlotsMoved(old(mgr.slots[..]), mgr.slots[..], id)
    {
      hide B.Inv, Holds, SlotsMoved, ValidTable, Pwm.PwmBackend.Own, Dac.DacBackend.Tidy, Dac.DacInv,
           I2cSensor.I2cBackend.Own, DigitalOut.DigitalBackend.Own;
      hide Dac.SetupSpec, Dac.SetupWords, Dac.SetUp, Spi.SpiDriver.Valid, Spi.SpiDriver.View, Spi.SlavesOf, Spi.PortsOk,
           SpiSensor.CellsAgree, SpiSensor.SpiInv;
      B.SetupDacKeeps(View(), cfg, env);
      err, id := dac.Setup(cfg, env);
      MastersInOrder();
    }

    /** The claims agree with the running chips. */
    lemma MastersInOrder()
      requires dac.Own()
      ensures Spi.PortsOk(dac.spi.View()) && Spi.MastersOf(dac.spi.View()) == dac.live.Keys
    {
      hide Dac.Agree, Spi.PortsOk, Spi.MastersOf, Spi.SpiDriver.View;
      Dac.MastersRun(dac.Snapshot(), dac.live);
    }

    method SetupSpi(cfg: seq<byte>) returns (err: Err, id: nat)
      requires Valid()
      modifies mgr, mgr.slots, spi.claims, spi.slaves, slave.cells
      ensures Valid() && (State(), err, id) == B.SetupSpi(old(State()), cfg)
      ensures SlotsMoved(old(mgr.slots[..]), mgr.slots[..], id)
    {
      hide B.Inv, Holds, SlotsMoved, ValidTable, Pwm.PwmBackend.Own, Dac.Agree, Dac.DacInv, I2cSensor.I2cBackend.Own,
           DigitalOut.DigitalBackend.Own;
      hide SpiSensor.SetupSpec, SpiSensor.SetUp, Spi.SpiDriver.Valid, Spi.SpiDriver.View, Spi.SlavesOf, Spi.PortsOk,
           SpiSensor.CellsAgree, SpiSensor.SpiInv;
      B.SetupSpiKeeps(View(), cfg);
      MastersInOrder();
      ghost var x := dac.Snapshot();
      err, id := slave.Setup(cfg);
      Dac.SlavesDoNotMatter(x, spi.View(), dac.live);
      assert dac.Snapshot() == x.(ports := spi.View());
    }

    method SetupI2c(cfg: seq<byte>, memory: bool) returns (err: Err, id: nat)
      requires Valid()
      modifies i2c, mgr, mgr.slots, i2c.devices, i2c.states
      ensures Valid() && (State(), err, id) == B.SetupI2c(old(State()), cfg, memory)
      ensures SlotsMoved(old(mgr.slots[..]), mgr.slots[..], id)
      ensures err == Success ==>
                var i := I2cSensor.FirstFree(old(State()).i2c);
                fresh(OwnedAt(ID_I2C, i)) && i2c.blocks == old(i2c.blocks) + OwnedAt(ID_I2C, i)
                && i2c.blocks - OwnedAt(ID_I2C, i) == old(i2c.blocks)
      ensures err != Success ==> i2c.blocks == old(i2c.blocks)
      ensures fresh(i2c.blocks - old(i2c.blocks))
    {
      hide B.Inv, Holds, SlotsMoved, ValidTable, Pwm.PwmBackend.Own, Dac.DacBackend.Own, SpiSensor.SpiBackend.Own,
           I2cSensor.I2cBackend.Own, DigitalOut.DigitalBackend.Own;
      hide I2cSensor.SetupSpec, I2cSensor.SetUp, I2cSensor.I2cBackend.Snapshot, I2cSensor.Block, I2cSensor.FirstFree, Spi.SpiDriver.Valid, Spi.SpiDriver.View,
           PoolOk, SensorManager.Valid, SensorManager.View, SpiSensor.SpiBackend.View;
      B.SetupI2cKeeps(View(), cfg, memory);
      err, id := i2c.Setup(cfg, memory);
    }

    method SetupDigital(cfg: seq<byte>) returns (err: Err, id: nat)
      requires Valid()
      modifies dig, mgr, mgr.slots, tim.timers, dig.cells, dig.pins
      ensures Valid() && (State(), err, id) == B.SetupDigital(old(State()), cfg)
      ensures SlotsMoved(old(mgr.slots[..]), mgr.slots[..], id)
    {
      hide B.Inv, Holds, SlotsMoved, ValidTable, Pwm.Agree, Dac.DacBackend.Own, SpiSensor.SpiBackend.Own,
           I2cSensor.I2cBackend.Own, DigitalOut.DigitalBackend.Private;
      hide DigitalOut.SetupSpec, DigitalOut.SetUp, Spi.SpiDriver.Valid, Spi.SpiDriver.View, PoolOk;
      B.SetupDigitalKeeps(View(), cfg);
      DigitalOut.SetupSparesPwm(dig.live, tim.timers[..], mgr.View(), cfg);
      ghost var x := pwm.Snapshot();
      err, id := dig.Setup(cfg);
      PulsesMoved(x, tim.timers[..], pwm.live);
      assert pwm.Snapshot() == x.(ts := tim.timers[..]);
    }

    // ------------------------------------------------------------ SET_OUTPUT and STOP, by backend

    method OutputPwm(i: nat, values: seq<byte>) returns (err: Err)
      requires Valid() && i < Pwm.POOL
      modifies pwm, tim.ccr
      ensures Sound()
      ensures var (live, e) := Pwm.SetOutputSpec(old(pwm.live), i, values);
        View() == old(View()).(pwm := live) && err == e
    {
      hide B.Inv, Holds, SlotsMoved, ValidTable, Spi.SpiDriver.Valid, Spi.SpiDriver.View, PoolOk, Pwm.Agree,
           Dac.DacBackend.Own, SpiSensor.SpiBackend.Own, I2cSensor.I2cBackend.Own,
           DigitalOut.DigitalBackend.Own, Pwm.SetOutputSpec, Pwm.Retuned;
      err := pwm.SetOutput(i, values);
    }

    method OutputDac(i: nat, values: seq<byte>, completes: bool) returns (err: Err)
      requires Valid() && i < Dac.POOL
      modifies dac`wire, dac.chips
      ensures Sound() && View() == old(View()) && dac.wire == old(dac.wire) + Dac.OutputWords(old(dac.live), i, values)
      ensures err == Dac.SetOutputErr(old(dac.live), i, values, completes)
    {
      hide B.Inv, Holds, SlotsMoved, ValidTable, Spi.SpiDriver.Valid, Spi.SpiDriver.View, PoolOk, Pwm.PwmBackend.Own,
           Dac.DacBackend.Tidy, Dac.DacInv, SpiSensor.SpiBackend.Own, I2cSensor.I2cBackend.Own,
           DigitalOut.DigitalBackend.Own, Dac.SetOutputErr, Dac.OutputWords, Dac.Written, Dac.Held;
      err := dac.SetOutput(i, values, completes);
    }

    method OutputSpi(i: nat, values: seq<byte>) returns (err: Err)
      requires Valid() && i < Spi.PERIPHS
      modifies spi.slaves
      ensures Sound()
      ensures var (live, e) := SpiSensor.SetOutputSpec(old(slave.View()), i, values);
        View() == old(View()).(spi := live) && err == e
    {
      hide B.Inv, Holds, SlotsMoved, ValidTable, Spi.SpiDriver.Valid, Spi.SpiDriver.View, PoolOk, Pwm.PwmBackend.Own,
           Dac.Agree, Dac.DacInv, I2cSensor.I2cBackend.Own, DigitalOut.DigitalBackend.Own,
           SpiSensor.SetOutputSpec, SpiSensor.CellsAgree, Spi.PortsOk, Spi.SlavesOf;
      MastersInOrder();
      ghost var x := dac.Snapshot();
      err := slave.SetOutput(i, values);
      Dac.SlavesDoNotMatter(x, spi.View(), dac.live);
      assert dac.Snapshot() == x.(ports := spi.View());
    }

    method OutputI2c(i: nat, values: seq<byte>) returns (err: Err)
      requires Valid() && i < I2cSensor.COUNT
      modifies i2c, i2c.blocks
      ensures Sound()
      ensures i2c.blocks == old(i2c.blocks)
      ensures i in old(i2c.live) ==> |old(i2c.live)[i].file.regs| <= I2cSensor.REGMAP_MAX
      ensures var (live, e) := I2cSensor.SetOutputSpec(old(i2c.live), i, values);
        View() == old(View()).(i2c := live) && err == e
    {
      hide B.Inv, Holds, SlotsMoved, ValidTable, Spi.SpiDriver.Valid, Spi.SpiDriver.View, PoolOk, Pwm.PwmBackend.Own,
           Dac.DacBackend.Own, SpiSensor.SpiBackend.Own, I2cSensor.I2cBackend.Own,
           DigitalOut.DigitalBackend.Own, I2cSensor.SetOutputSpec, I2cSensor.Overwritten, I2cSensor.I2cBackend.Snapshot;
      err := i2c.SetOutput(i, values);
    }

    method OutputDigital(i: nat, values: seq<byte>, env: DigitalOut.Env) returns (err: Err)
      requires Valid() && i < DigitalOut.POOL
      modifies dig, dig.cells
      ensures Sound()
      ensures var (live, e) := DigitalOut.SetOutputSpec(old(dig.live), tim.timers[..], i, values, env);
        View() == old(View()).(dig := live) && err == e
    {
      hide B.Inv, Holds, SlotsMoved, ValidTable, Spi.SpiDriver.Valid, Spi.SpiDriver.View, PoolOk, Pwm.PwmBackend.Own,
           Dac.DacBackend.Own, SpiSensor.SpiBackend.Own, I2cSensor.I2cBackend.Own,
           DigitalOut.DigitalBackend.Private, DigitalOut.SetOutputSpec, DigitalOut.Driven;
      err := dig.SetOutput(i, values, env);
    }

    // handle_set_output, after the payload length check
    method SetOutput(id: nat, values: seq<byte>, env: B.Env) returns (err: Err)
      requires Valid()
      modifies pwm, tim.ccr, dac`wire, dac.chips, spi.slaves, i2c, i2c.blocks, dig, dig.cells
      ensures Valid() && (State(), err) == B.SetOutput(old(State()), id, values, env)
      ensures i2c.blocks == old(i2c.blocks) && dac.wire == old(dac.wire) + WordsFor(old(State()), id, values)
      ensures Shaped(old(Tables())) && Shaped(Tables())
      ensures if id in old(State()).table.live
              then var e := old(State()).table.live[id];
                Output(old(Tables()), Tables(), e.proto, e.internal, values, env, err, dac.wire[|old(dac.wire)|..])
              else err == InvalidSensorId && Held() == old(Held())
    {
      hide Valid, State, Tables, Stands, HoldingsOf, B.Inv, B.SetOutput, Output, Shaped, WordsFor;
      StateInv();
      TablesStand();
      ghost var x, b := Tables(), State();
      err := RouteOutput(id, values, env);
      StateInv();
      TablesStand();
      if id in b.table.live {
        OutputIs(x, b, Tables(), id, values, env);
      } else {
        NoOutput(b, id, values, env);
        SetUpShapes(x, b, Tables());
        HoldingsAreDetermined(x, b, Tables(), State());
      }
    }

    /** The switch over protocols of handle_set_output. */
    method RouteOutput(id: nat, values: seq<byte>, env: B.Env) returns (err: Err)
      requires Valid()
      modifies pwm, tim.ccr, dac`wire, dac.chips, spi.slaves, i2c, i2c.blocks, dig, dig.cells
      ensures Valid() && (State(), err) == B.SetOutput(old(State()), id, values, env)
      ensures i2c.blocks == old(i2c.blocks) && dac.wire == old(dac.wire) + WordsFor(old(State()), id, values)
    {
      hide B.Inv, Pwm.PwmBackend.Own, Dac.DacBackend.Own, SpiSensor.SpiBackend.Own, I2cSensor.I2cBackend.Own,
           DigitalOut.DigitalBackend.Own, Holds, SlotsMoved, ValidTable, PoolOk;
      hide Pwm.SetOutputSpec, Dac.SetOutputErr, Dac.OutputWords, SpiSensor.SetOutputSpec, I2cSensor.SetOutputSpec,
           DigitalOut.SetOutputSpec;
      B.SetOutputKeeps(View(), id, values, env);
      var slot := mgr.Lookup(id);
      if slot == SLOTS {
        return InvalidSensorId;
      }
      B.InPool(View(), id);
      var proto, i := mgr.slots[slot].proto, mgr.slots[slot].internal;
      if proto == ID_I2C {
        err := OutputI2c(i, values);
      } else if proto == ID_DIGITAL_OUT {
        err := OutputDigital(i, values, env.timer);
      } else if proto == ID_PWM {
        err := OutputPwm(i, values);
      } else if proto == ID_DAC {
        err := OutputDac(i, values, env.dac.write);
      } else if proto == ID_SPI {
        err := OutputSpi(i, values);
      } else {
        err := InvalidParameter;
      }
    }

    method StopPwm(i: nat) returns (err: Err)
      requires Valid() && i < Pwm.POOL
      modifies pwm, tim.timers, tim.ccr, pwm.cells, pwm.pins
      ensures Sound() && |old(tim.timers[..])| == COUNT
      ensures View() == old(View()).(pwm := Pwm.StopSpec(old(pwm.live), i).0,
                                     ts := if i in old(pwm.live) then Release(old(tim.timers[..]), old(pwm.live)[i].timer) else old(tim.timers[..]))
      ensures err == Pwm.StopSpec(old(pwm.live), i).1
    {
      hide B.Inv, Holds, SlotsMoved, ValidTable, Spi.SpiDriver.Valid, Spi.SpiDriver.View, TimerOk, Pwm.Agree,
           Dac.DacBackend.Own, SpiSensor.SpiBackend.Own, I2cSensor.I2cBackend.Own,
           DigitalOut.DigitalBackend.Private, Release, Pwm.Halted;
      err := pwm.Stop(i);
    }

    method StopDac(i: nat) returns (err: Err)
      requires Valid() && i < Dac.POOL
      modifies dac, dac.chips, dac.cells, spi.claims, spi.masterOn, dac.sems
      ensures Sound()
      ensures var (live, e) := Dac.StopSpec(old(dac.live), i);
        View() == old(View()).(dac := live) && err == e && dac.wire == old(dac.wire)
    {
      hide B.Inv, Holds, SlotsMoved, ValidTable, Spi.SpiDriver.Valid, Spi.SpiDriver.View, PoolOk, Pwm.PwmBackend.Own,
           Dac.DacBackend.Tidy, Dac.DacInv, I2cSensor.I2cBackend.Own, DigitalOut.DigitalBackend.Own,
           Dac.StopSpec, Dac.Closes;
      hide Spi.SlavesOf, Spi.PortsOk, SpiSensor.CellsAgree, SpiSensor.SpiInv;
      err := dac.Stop(i);
      MastersInOrder();
    }

    method StopSpi(i: nat) returns (err: Err)
      requires Valid() && i < Spi.PERIPHS
      modifies spi.claims, spi.slaves, slave.cells
      ensures Sound()
      ensures var (live, e) := SpiSensor.StopSpec(old(slave.View()), i);
        View() == old(View()).(spi := live) && err == e
    {
      hide B.Inv, Holds, SlotsMoved, ValidTable, Spi.SpiDriver.Valid, Spi.SpiDriver.View, PoolOk, Pwm.PwmBackend.Own,
           Dac.Agree, Dac.DacInv, I2cSensor.I2cBackend.Own, DigitalOut.DigitalBackend.Own, SpiSensor.StopSpec,
           SpiSensor.CellsAgree, Spi.PortsOk, Spi.SlavesOf;
      MastersInOrder();
      ghost var x := dac.Snapshot();
      err := slave.Stop(i);
      Dac.SlavesDoNotMatter(x, spi.View(), dac.live);
      assert dac.Snapshot() == x.(ports := spi.View());
    }

    method StopI2c(i: nat) returns (err: Err)
      requires Valid() && i < I2cSensor.COUNT
      modifies i2c, i2c.devices, i2c.states
      ensures Sound()
      ensures i2c.blocks == old(i2c.blocks) - if err == Success then old(OwnedAt(ID_I2C, i)) else {}
      ensures var (live, e) := I2cSensor.StopSpec(old(i2c.live), i);
        View() == old(View()).(i2c := live) && err == e
    {
      hide B.Inv, Holds, SlotsMoved, ValidTable, Spi.SpiDriver.Valid, Spi.SpiDriver.View, PoolOk, Pwm.PwmBackend.Own,
           Dac.DacBackend.Own, SpiSensor.SpiBackend.Own, I2cSensor.I2cBackend.Own,
           DigitalOut.DigitalBackend.Own, I2cSensor.StopSpec, I2cSensor.Silenced, I2cSensor.I2cBackend.Snapshot;
      err := i2c.Stop(i);
    }

    method StopDigital(i: nat) returns (err: Err)
      requires Valid() && i < DigitalOut.POOL
      modifies dig, tim.timers, dig.cells, dig.pins
      ensures Sound()
      ensures var (live, ts, e) := DigitalOut.StopSpec(old(dig.live), old(tim.timers[..]), i);
        View() == old(View()).(dig := live, ts := ts) && err == e
    {
      hide B.Inv, Holds, SlotsMoved, ValidTable, Spi.SpiDriver.Valid, Spi.SpiDriver.View, PoolOk, Pwm.Agree,
           Dac.DacBackend.Own, SpiSensor.SpiBackend.Own, I2cSensor.I2cBackend.Own,
           DigitalOut.DigitalBackend.Private, DigitalOut.StopSpec, DigitalOut.Halted;
      DigitalOut.StopSparesPwm(dig.live, tim.timers[..], i);
      ghost var x := pwm.Snapshot();
      err := dig.Stop(i);
      PulsesMoved(x, tim.timers[..], pwm.live);
      assert pwm.Snapshot() == x.(ts := tim.timers[..]);
    }

    /** The backend part of handle_stop. */
    method StopBackend(proto: nat, i: nat) returns (err: Err)
      requires Valid()
      requires proto == ID_PWM ==> i < Pwm.POOL
      requires proto == ID_DAC ==> i < Dac.POOL
      requires proto == ID_SPI ==> i < Spi.PERIPHS
      requires proto == ID_I2C ==> i < I2cSensor.COUNT
      requires proto == ID_DIGITAL_OUT ==> i < DigitalOut.POOL
      modifies pwm, tim.timers, tim.ccr, pwm.cells, pwm.pins, dac, dac.chips, dac.cells, dac.sems
      modifies spi.claims, spi.masterOn, spi.slaves, slave.cells, i2c, i2c.devices, i2c.states, dig, dig.cells, dig.pins
      ensures Sound() && (View(), err) == B.StopBackend(old(View()), Entry(proto, i)) && dac.wire == old(dac.wire)
      ensures i2c.blocks == old(i2c.blocks) - if err == Success then old(OwnedAt(proto, i)) else {}
    {
      hide B.Inv, Pwm.PwmBackend.Own, Dac.DacBackend.Own, SpiSensor.SpiBackend.Own, I2cSensor.I2cBackend.Own,
           DigitalOut.DigitalBackend.Own, Holds, SlotsMoved, ValidTable, PoolOk, Release;
      hide Dac.StopSpec, DigitalOut.StopSpec, I2cSensor.StopSpec, SpiSensor.StopSpec, Spi.SpiDriver.Valid, Spi.SpiDriver.View,
           SensorManager.Valid, SensorManager.View, SpiSensor.SpiBackend.View;
      if proto == ID_I2C {
        err := StopI2c(i);
      } else if proto == ID_DIGITAL_OUT {
        err := StopDigital(i);
      } else if proto == ID_PWM {
        err := StopPwm(i);
      } else if proto == ID_DAC {
        err := StopDac(i);
      } else if proto == ID_SPI {
        err := StopSpi(i);
      } else {
        err := InvalidParameter;
      }
    }

    method Forget(id: nat)
      requires Sound()
      modifies mgr, mgr.slots
      ensures Sound() && View() == old(View()).(table := Released(old(View()).table, id))
      ensures mgr.slots[..] == if id == 0 then old(mgr.slots[..]) else Without(old(mgr.slots[..]), id)
    {
      hide Pwm.PwmBackend.Own, Dac.DacBackend.Own, SpiSensor.SpiBackend.Own, I2cSensor.I2cBackend.Own,
           DigitalOut.DigitalBackend.Own, Holds, SlotsMoved, ValidTable, PoolOk, Spi.SpiDriver.Valid, Spi.SpiDriver.View,
           Released;
      mgr.Release(id);
    }

    /** The backend lets go of a live entry, then the table does. */
    method StopEntry(id: nat, proto: nat, i: nat) returns (err: Err)
      requires Valid() && id in State().table.live && State().table.live[id] == Entry(proto, i)
      modifies mgr, mgr.slots, pwm, tim.timers, tim.ccr, pwm.cells, pwm.pins, dac, dac.chips, dac.cells, dac.sems
      modifies spi.claims, spi.masterOn, spi.slaves, slave.cells, i2c, i2c.devices, i2c.states, dig, dig.cells, dig.pins
      ensures Sound() && View() == B.Stop(old(State()), id).0 && err == Success && dac.wire == old(dac.wire)
      ensures i2c.blocks == old(i2c.blocks) - old(OwnedAt(proto, i))
      ensures mgr.slots[..] == Without(old(mgr.slots[..]), id)
    {
      hide B.Inv, Pwm.PwmBackend.Own, Dac.DacBackend.Own, SpiSensor.SpiBackend.Own, I2cSensor.I2cBackend.Own,
           DigitalOut.DigitalBackend.Own, Holds, SlotsMoved, ValidTable, PoolOk, Released, Without, OwnedAt;
      B.InPool(View(), id);
      B.StopKeeps(View(), id);
      B.TableOk(View());
      err := StopBackend(proto, i);
      if err == Success {
        Forget(id);
      }
    }

    // handle_stop, after the payload length check
    method Stop(id: nat) returns (err: Err)
      requires Valid()
      modifies mgr, mgr.slots, pwm, tim.timers, tim.ccr, pwm.cells, pwm.pins, dac, dac.chips, dac.cells, dac.sems
      modifies spi.claims, spi.masterOn, spi.slaves, slave.cells, i2c, i2c.devices, i2c.states, dig, dig.cells, dig.pins
      ensures Valid() && (State(), err) == B.Stop(old(State()), id) && dac.wire == old(dac.wire)
      ensures i2c.blocks == old(i2c.blocks) - old(OwnedBy(id))
      ensures mgr.slots[..] == if err == Success then Without(old(mgr.slots[..]), id) else old(mgr.slots[..])
      ensures Shaped(old(Tables())) && Shaped(Tables())
      ensures if id in old(State()).table.live
              then var e := old(State()).table.live[id]; err == Success && Stopped(old(Tables()), Tables(), e.proto, e.internal, Success)
              else err == InvalidSensorId && Held() == old(Held())
    {
      hide Valid, State, Tables, Stands, HoldingsOf, B.Inv, B.Stop, Stopped, Shaped, OwnedBy, Without;
      StateInv();
      TablesStand();
      ghost var x, b := Tables(), State();
      NoEntry(id);
      err := RouteStop(id);
      StateInv();
      TablesStand();
      if id in b.table.live {
        StoppedIs(x, b, Tables(), id);
      } else {
        SetUpShapes(x, b, Tables());
        HoldingsAreDetermined(x, b, Tables(), State());
      }
    }

    /** The look-up of handle_stop, then the backend and the table. */
    method RouteStop(id: nat) returns (err: Err)
      requires Valid()
      modifies mgr, mgr.slots, pwm, tim.timers, tim.ccr, pwm.cells, pwm.pins, dac, dac.chips, dac.cells, dac.sems
      modifies spi.claims, spi.masterOn, spi.slaves, slave.cells, i2c, i2c.devices, i2c.states, dig, dig.cells, dig.pins
      ensures Valid() && (State(), err) == B.Stop(old(State()), id) && dac.wire == old(dac.wire)
      ensures i2c.blocks == old(i2c.blocks) - old(OwnedBy(id))
      ensures mgr.slots[..] == if err == Success then Without(old(mgr.slots[..]), id) else old(mgr.slots[..])
    {
      hide B.Inv, Pwm.PwmBackend.Own, Dac.DacBackend.Own, SpiSensor.SpiBackend.Own, I2cSensor.I2cBackend.Own,
           DigitalOut.DigitalBackend.Own, Holds, SlotsMoved, ValidTable, PoolOk, Released, Without, OwnedAt, B.Stop, Sound;
      StateInv();
      B.StopKeeps(State(), id);
      TableIs();
      var slot := mgr.Lookup(id);
      if slot == SLOTS {
        NoEntry(id);
        return InvalidSensorId;
      }
      err := StopEntry(id, mgr.slots[slot].proto, mgr.slots[slot].internal);
    }

    lemma TableIs()
      requires Valid()
      ensures mgr.Valid() && mgr.slots.Length == SLOTS && State().table == mgr.View()
    {}

    lemma NoEntry(id: nat)
      requires Valid()
      ensures id !in State().table.live ==> B.Stop(State(), id) == (State(), InvalidSensorId) && OwnedBy(id) == {}
    {}

    // dispatcher_handle
    /** A frame does to the tables exactly what its bytes ask for: `Handled` spells it out. */
    method Handle(f: Framing.Frame, env: B.Env) returns (r: B.Reply)
      requires Valid()
      modifies mgr, mgr.slots, pwm, tim.timers, tim.ccr, pwm.cells, pwm.pins, dac, dac.chips, dac.cells, dac.sems
      modifies spi.claims, spi.masterOn, spi.slaves, slave.cells, i2c, i2c.devices, i2c.states, i2c.blocks, dig, dig.cells, dig.pins
      ensures Valid() && (State(), r) == B.Handle(old(State()), f, env)
      ensures fresh(i2c.blocks - old(i2c.blocks)) && old(dac.wire) <= dac.wire
      ensures Shaped(old(Tables())) && Shaped(Tables())
      ensures Handled(old(Tables()), Tables(), old(State()).table.live, f, env, r, dac.wire[|old(dac.wire)|..])
    {
      hide Valid, State, Tables, Stands, B.Inv, B.Handle, Handled, Shaped, FrameWords;
      StateInv();
      TablesStand();
      ghost var x, b := Tables(), State();
      r := Dispatch(f, env);
      TablesStand();
      HandledIs(x, b, Tables(), f, env);
    }

    /** The switch over frame types. */
    method Dispatch(f: Framing.Frame, env: B.Env) returns (r: B.Reply)
      requires Valid()
      modifies mgr, mgr.slots, pwm, tim.timers, tim.ccr, pwm.cells, pwm.pins, dac, dac.chips, dac.cells, dac.sems
      modifies spi.claims, spi.masterOn, spi.slaves, slave.cells, i2c, i2c.devices, i2c.states, i2c.blocks, dig, dig.cells, dig.pins
      ensures Valid() && (State(), r) == B.Handle(old(State()), f, env)
      ensures fresh(i2c.blocks - old(i2c.blocks)) && dac.wire == old(dac.wire) + FrameWords(old(State()), f, env)
    {
      hide Valid, State, Tables, Held, OwnedBy, B.Inv, B.Setup, B.SetOutput, B.Stop, SetUp, Output, Stopped, Shaped, WordsFor,
           Dac.SetupWords, SlotsMoved, Without;
      StateInv();
      var err, id := Success, 0;
      if f.ftype == B.CMD_SYNC {
        return B.Reply(f.ftype, Success, 0, f.seqno);
      }
      if f.ftype == B.CMD_SCENARIO {
        return B.Reply(f.ftype, NotImplemented, 0, f.seqno);
      }
      if f.ftype != B.CMD_SETUP && f.ftype != B.CMD_SET_OUTPUT && f.ftype != B.CMD_STOP {
        return B.Reply(f.ftype, UnknownCmd, 0, f.seqno);
      }
      if |f.payload| < 1 {
        return B.Reply(f.ftype, MalformedPayload, 0, f.seqno);
      }
      var head, rest := f.payload[0] as nat, f.payload[1..];
      if f.ftype == B.CMD_SETUP {
        err, id := Setup(head, rest, env);
      } else if f.ftype == B.CMD_SET_OUTPUT {
        err := SetOutput(head, rest, env);
        id := head;
      } else {
        err := Stop(head);
        id := head;
      }
      return B.Reply(f.ftype, err, id, f.seqno);
    }

    lemma NoOutput(b: B.Bench, id: nat, values: seq<byte>, env: B.Env)
      requires B.Inv(b) && id !in b.table.live
      ensures B.SetOutput(b, id, values, env) == (b, InvalidSensorId)
    {}

    lemma SetUpShapes(x: Raw, b: B.Bench, y: Raw)
      requires B.Inv(b) && Stands(x, b) && Stands(y, b)
      ensures Shaped(x) && Shaped(y)
    {
      hide B.Inv, Stands, Shaped;
      StandsShaped(x, b);
      StandsShaped(y, b);
    }

    // sw_timer_callback and hw_timer_callback
    method PulseExpires(i: nat)
      requires Valid()
      modifies dig, dig.cells
      ensures Valid() && View() == B.Step(old(View()), B.PulseExpires(i))
    {
      hide B.Inv, Pwm.PwmBackend.Own, Dac.DacBackend.Own, SpiSensor.SpiBackend.Own, I2cSensor.I2cBackend.Own,
           DigitalOut.DigitalBackend.Private, Holds, SlotsMoved, ValidTable, PoolOk, DigitalOut.Expired, Spi.SpiDriver.Valid, Spi.SpiDriver.View;
      B.PulseExpiresKeeps(View(), i);
      dig.Expire(i);
    }

    // I2Cx_EV_IRQHandler and I2Cx_ER_IRQHandler of a live peripheral
    method I2cInterrupt(i: nat, e: I2cSlave.Irq) returns (out: Option<byte>)
      requires Valid() && i in i2c.live
      modifies i2c, i2c.devices, i2c.blocks
      ensures Valid() && View() == B.Step(old(View()), B.I2cInterrupt(i, e))
      ensures out == I2cSlave.Step(old(i2c.live)[i].cfg, old(i2c.live)[i].file, e).1
    {
      hide B.Inv, I2cSlave.Step, Pwm.PwmBackend.Own, Dac.DacBackend.Own, SpiSensor.SpiBackend.Own,
           I2cSensor.I2cBackend.Own, DigitalOut.DigitalBackend.Own, Holds, SlotsMoved, ValidTable, PoolOk,
           Spi.SpiDriver.Valid, Spi.SpiDriver.View;
      B.I2cInterruptKeeps(View(), i, e);
      out := i2c.Interrupt(i, e);
    }

    // SPIx_IRQHandler of a live slave, transmit side
    method SpiInterrupt(p: nat) returns (b: byte)
      requires Valid() && p in slave.View()
      modifies spi.slaves
      ensures Valid() && View() == B.Step(old(View()), B.SpiTransmit(p))
      ensures b == Spi.NextByte(old(slave.View())[p]).0
    {
      hide B.Inv, Spi.NextByte, Pwm.PwmBackend.Own, Dac.Agree, Dac.DacInv, SpiSensor.SpiBackend.Own,
           I2cSensor.I2cBackend.Own, DigitalOut.DigitalBackend.Own, Holds, SlotsMoved, ValidTable, PoolOk,
           Spi.SpiDriver.View;
      B.SpiTransmitKeeps(View(), p);
      MastersInOrder();
      ghost var x := dac.Snapshot();
      b := slave.Transmit(p);
      SlavesInOrder();
      Dac.SlavesDoNotMatter(x, spi.View(), dac.live);
      assert dac.Snapshot() == x.(ports := spi.View());
    }

    lemma SlavesInOrder()
      requires slave.Own()
      ensures slave.spi.Valid() && Spi.PortsOk(slave.spi.View())
    {}

    /** The switch over protocols of handle_setup. */
    method Route(proto: nat, cfg: seq<byte>, env: B.Env) returns (err: Err, id: nat)
      requires Valid()
      modifies mgr, mgr.slots, pwm, tim.timers, tim.ccr, pwm.cells, pwm.pins, dac, dac.chips, dac.cells, dac.sems
      modifies spi.claims, spi.masterOn, spi.slaves, slave.cells, i2c, i2c.devices, i2c.states, dig, dig.cells, dig.pins
      ensures Valid() && (State(), err, id) == B.Setup(old(State()), proto, cfg, env)
      ensures dac.wire == old(dac.wire) + if proto == ID_DAC then Dac.SetupWords(old(State()).dac, old(State()).spi, cfg, env.dac) else []
      ensures SlotsMoved(old(mgr.slots[..]), mgr.slots[..], id)
      ensures err == Success && proto == ID_I2C ==>
                var i := I2cSensor.FirstFree(old(State()).i2c);
                fresh(OwnedAt(ID_I2C, i)) && i2c.blocks == old(i2c.blocks) + OwnedAt(ID_I2C, i)
                && i2c.blocks - OwnedAt(ID_I2C, i) == old(i2c.blocks)
      ensures err != Success || proto != ID_I2C ==> i2c.blocks == old(i2c.blocks)
      ensures fresh(i2c.blocks - old(i2c.blocks))
    {
      hide Valid, State, B.Inv, FilledAt, OwnedAt, Dac.SetupWords, B.SetupPwm, B.SetupDac, B.SetupSpi, B.SetupI2c, B.SetupDigital;
      if proto == ID_I2C {
        err, id := SetupI2c(cfg, env.memory);
      } else if proto == ID_DIGITAL_OUT {
        err, id := SetupDigital(cfg);
      } else if proto == ID_PWM {
        err, id := SetupPwm(cfg);
      } else if proto == ID_DAC {
        err, id := SetupDac(cfg, env.dac);
      } else if proto == ID_SPI {
        err, id := SetupSpi(cfg);
      } else {
        err, id := Unsupported, 0;
      }
    }

    // handle_setup, after the payload length check
    /** All or nothing over the concrete tables: a setup answered with an error leaves everything
        the backends own, every sensor slot and every heap block as it was; only a digital-out
        setup may change pulse reservations. */
    method Setup(proto: nat, cfg: seq<byte>, env: B.Env) returns (err: Err, id: nat)
      requires Valid()
      modifies mgr, mgr.slots, pwm, tim.timers, tim.ccr, pwm.cells, pwm.pins, dac, dac.chips, dac.cells, dac.sems
      modifies spi.claims, spi.masterOn, spi.slaves, slave.cells, i2c, i2c.devices, i2c.states, dig, dig.cells, dig.pins
      ensures Valid() && (State(), err, id) == B.Setup(old(State()), proto, cfg, env)
      ensures err != Success ==> mgr.slots[..] == old(mgr.slots[..]) && i2c.blocks == old(i2c.blocks)
      ensures err != Success ==> Held() == if proto == ID_DIGITAL_OUT then AtTimers(old(Held()), tim.timers[..]) else old(Held())
      ensures dac.wire == old(dac.wire) + if proto == ID_DAC then Dac.SetupWords(old(State()).dac, old(State()).spi, cfg, env.dac) else []
      ensures Shaped(old(Tables())) && Shaped(Tables()) && old(dac.wire) <= dac.wire
      ensures SetUp(old(Tables()), Tables(), proto, |old(State()).table.live| < 8, cfg, env, err, dac.wire[|old(dac.wire)|..])
      ensures SlotsMoved(old(mgr.slots[..]), mgr.slots[..], id)
      ensures err == Success && proto == ID_I2C ==>
                var i := I2cSensor.FirstFree(old(State()).i2c);
                fresh(OwnedAt(ID_I2C, i)) && i2c.blocks == old(i2c.blocks) + OwnedAt(ID_I2C, i)
                && i2c.blocks - OwnedAt(ID_I2C, i) == old(i2c.blocks)
      ensures err != Success || proto != ID_I2C ==> i2c.blocks == old(i2c.blocks)
      ensures fresh(i2c.blocks - old(i2c.blocks))
    {
      hide Valid, State, Tables, Stands, HoldingsOf, B.Inv, FilledAt, OwnedAt, B.Setup, SetUp, Shaped, Dac.SetupWords;
      StateInv();
      TablesStand();
      ghost var x, b := Tables(), State();
      B.FailedSetupChangesNothing(b, proto, cfg, env);
      err, id := Route(proto, cfg, env);
      StateInv();
      TablesStand();
      SetUpIs(x, b, Tables(), proto, cfg, env);
      if err != Success {
        id := 0;
        if proto == ID_DIGITAL_OUT {
          RefusalMovesPulses(x, b, Tables(), cfg, env);
        } else {
          HoldingsAreDetermined(x, b, Tables(), State());
        }
      }
    }

    /** STOP on the id just answered by a setup that started from engine `b`, sensor slots `slots`
        and heap blocks `blocks`. */
    method StopAnswered(ghost b: B.Bench, ghost slots: seq<Slot>, ghost blocks: set<array<byte>>,
                        proto: nat, cfg: seq<byte>, env: B.Env, id: nat)
      requires Valid() && B.Inv(b) && proto != ID_DIGITAL_OUT && B.Setup(b, proto, cfg, env) == (State(), Success, id)
      requires SlotsMoved(slots, mgr.slots[..], id)
      requires blocks == i2c.blocks - if proto == ID_I2C then OwnedAt(ID_I2C, I2cSensor.FirstFree(b.i2c)) else {}
      modifies mgr, mgr.slots, pwm, tim.timers, tim.ccr, pwm.cells, pwm.pins, dac, dac.chips, dac.cells, dac.sems
      modifies spi.claims, spi.masterOn, spi.slaves, slave.cells, i2c, i2c.devices, i2c.states, dig, dig.cells, dig.pins
      ensures Valid() && SameBackends(State(), b) && State().table.live == b.table.live
      ensures mgr.slots[..] == slots && i2c.blocks == blocks
    {
      hide Valid, State, B.Inv, SameBackends, SlotsMoved, OwnedAt, OwnedBy, B.Setup, B.Stop, Without, I2cSensor.FirstFree;
      SetupIsUndone(b, proto, cfg, env);
      ReleaseClearsFill(slots, mgr.slots[..], id);
      OwnedByAnswer(b, proto, cfg, env, id);
      var _ := Stop(id);
    }

    /** A setup and, if it succeeds, STOP on the id it answered. */
    method Undone(proto: nat, cfg: seq<byte>, env: B.Env) returns (err: Err, id: nat)
      requires Valid() && proto != ID_DIGITAL_OUT
      modifies mgr, mgr.slots, pwm, tim.timers, tim.ccr, pwm.cells, pwm.pins, dac, dac.chips, dac.cells, dac.sems
      modifies spi.claims, spi.masterOn, spi.slaves, slave.cells, i2c, i2c.devices, i2c.states, dig, dig.cells, dig.pins
      ensures Valid() && SameBackends(State(), old(State())) && State().table.live == old(State()).table.live
      ensures mgr.slots[..] == old(mgr.slots[..]) && i2c.blocks == old(i2c.blocks)
      ensures B.Setup(old(State()), proto, cfg, env).1 == err && B.Setup(old(State()), proto, cfg, env).2 == id
    {
      hide Valid, State, Held, Tables, SetUp, Shaped, AtTimers, Dac.SetupWords, B.Inv, SlotsMoved, OwnedAt, B.Setup, I2cSensor.FirstFree,
           SameBackends;
      StateInv();
      ghost var b, slots, blocks := State(), mgr.slots[..], i2c.blocks;
      err, id := Setup(proto, cfg, env);
      if err == Success {
        StopAnswered(b, slots, blocks, proto, cfg, env, id);
      } else {
        RefusalIsUndone(b, proto, cfg, env);
      }
    }

    /** Afterwards everything the backends own, every sensor slot and every heap block is as it was. */
    method SetupAndStop(proto: nat, cfg: seq<byte>, env: B.Env) returns (err: Err, id: nat)
      requires Valid() && proto != ID_DIGITAL_OUT
      modifies mgr, mgr.slots, pwm, tim.timers, tim.ccr, pwm.cells, pwm.pins, dac, dac.chips, dac.cells, dac.sems
      modifies spi.claims, spi.masterOn, spi.slaves, slave.cells, i2c, i2c.devices, i2c.states, dig, dig.cells, dig.pins
      ensures Valid() && SameBackends(State(), old(State())) && State().table.live == old(State()).table.live
      ensures Held() == old(Held()) && mgr.slots[..] == old(mgr.slots[..]) && i2c.blocks == old(i2c.blocks)
      ensures B.Setup(old(State()), proto, cfg, env).1 == err && B.Setup(old(State()), proto, cfg, env).2 == id
    {
      hide Valid, State, Tables, Stands, HoldingsOf, B.Setup;
      TablesStand();
      ghost var x, b := Tables(), State();
      err, id := Undone(proto, cfg, env);
      TablesStand();
      HoldingsAreDetermined(x, b, Tables(), State());
    }

    /** The heap block of the sensor a setup just added. */
    lemma OwnedByAnswer(b: B.Bench, proto: nat, cfg: seq<byte>, env: B.Env, id: nat)
      requires Valid() && B.Inv(b) && (State(), Success, id) == B.Setup(b, proto, cfg, env)
      ensures OwnedBy(id) == if proto == ID_I2C then OwnedAt(ID_I2C, I2cSensor.FirstFree(b.i2c)) else {}
    {
      hide Valid, State, B.Inv, B.SetupPwm, B.SetupDac, B.SetupSpi, B.SetupI2c, B.SetupDigital;
      TableIs();
      B.AnswersLiveId(b, proto, cfg, env);
      if proto == ID_I2C { B.I2cAnswers(b, cfg, env.memory); }
    }
  }

  lemma AllTimersFree(ts: seq<Timer>)
    requires |ts| == COUNT && forall t :: 0 <= t < COUNT ==> ts[t] == FREE_TIMER
    ensures ts == B.EMPTY.ts
  {}

  /** The parts that share the timer pool. */
  method BootTimed() returns (mgr: SensorManager, tim: TimerPool, i2c: I2cSensor.I2cBackend,
                              dig: DigitalOut.DigitalBackend, pwm: Pwm.PwmBackend)
    ensures mgr.Valid() && tim.Valid() && i2c.Own() && dig.Own() && pwm.Own()
    ensures pwm.mgr == i2c.mgr == dig.mgr == mgr && pwm.tim == dig.tim == tim && pwm.pins != dig.pins
    ensures mgr.View() == Table(map[], 1) && i2c.live == map[] && dig.live == map[] && pwm.live == map[]
    ensures tim.timers[..] == B.EMPTY.ts
  {
    hide Holds, SlotsMoved, ValidTable, Pwm.PwmBackend.Own, I2cSensor.I2cBackend.Own, DigitalOut.DigitalBackend.Own;
    mgr := new SensorManager();
    tim := new TimerPool();
    AllTimersFree(tim.timers[..]);
    i2c := new I2cSensor.I2cBackend(mgr);
    dig := new DigitalOut.DigitalBackend(mgr, tim);
    pwm := new Pwm.PwmBackend(mgr, tim);
  }

  // dispatcher_init
  method Boot() returns (fw: Firmware)
    ensures fw.Valid() && fw.View() == B.EMPTY
  {
    hide B.Inv, Holds, SlotsMoved, ValidTable, Pwm.PwmBackend.Own, Dac.DacBackend.Own, SpiSensor.SpiBackend.Own,
         I2cSensor.I2cBackend.Own, DigitalOut.DigitalBackend.Own;
    hide PoolOk, Spi.SpiDriver.View;
    var mgr, tim, i2c, dig, pwm := BootTimed();
    var spi := new Spi.SpiDriver();
    var dac := new Dac.DacBackend(mgr, spi);
    var slave := new SpiSensor.SpiBackend(mgr, spi);
    fw := new Firmware(mgr, tim, spi, i2c, dig, pwm, dac, slave);
  }
}
