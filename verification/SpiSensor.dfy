/** SPI slave backend (spi_slave_sensor.c): one sensor per peripheral, serving a transmit buffer
    the host can replace. Its reference state is the map from peripheral to buffer. */
module SpiSensor {
  import opened Wrappers
  import opened Sensors
  import opened Wire
  import opened Spi

  const CFG_MIN: nat := 16
  const NO_MOSI: nat := 0xFF

  type Live = map<nat, Tx>

  predicate GoodLine(c: seq<byte>, at: nat)
    requires at + 2 < |c|
  {
    GoodPin(PinAt(c, at)) && GoodAf(Read8(c, at + 2))
  }

  function TxLen(c: seq<byte>): nat
    requires |c| >= CFG_MIN
  {
    Read16(c, 14)
  }

  predicate GoodCfg(c: seq<byte>)
    requires |c| >= CFG_MIN
  {
    && Read8(c, 0) < PERIPHS && Read8(c, 1) <= MODE_MAX
    && GoodLine(c, 2) && GoodLine(c, 5) && GoodLine(c, 8)
    && (Read8(c, 11) != NO_MOSI ==> GoodLine(c, 11))
    && 1 <= TxLen(c) <= TX_MAX
  }

  /** The length check is done on a 16-bit sum; once the length itself is accepted the sum
      has not wrapped, so the buffer lies inside the block. */
  lemma LengthSumIsExact(have: nat, header: nat, len: nat)
    requires header <= 64 && have >= Wrap16(header + len) && len <= 0x1000
    ensures have >= header + len
  {}

  /** Setup in one step. */
  function SetupSpec(live: Live, masters: set<nat>, table: Table, cfg: seq<byte>): SetupResult<Live>
    requires ValidTable(table)
  {
    if |cfg| < CFG_MIN || |cfg| < Wrap16(CFG_MIN + TxLen(cfg)) then Refused(live, table, MalformedPayload)
    else if !GoodCfg(cfg) then Refused(live, table, InvalidParameter)
    else
      var p := Read8(cfg, 0);
      if p in live || p in masters then Refused(live, table, PeripheralBusy)
      else
        LengthSumIsExact(|cfg|, CFG_MIN, TxLen(cfg));
        Admit(live, live[p := Loaded(cfg[CFG_MIN..CFG_MIN + TxLen(cfg)])], table, ID_SPI, p)
  }

  function SetOutputSpec(live: Live, i: nat, values: seq<byte>): (Live, Err) {
    if i !in live then (live, InvalidSensorId)
    else if |values| < 2 || |values| < Wrap16(2 + Read16(values, 0)) then (live, MalformedPayload)
    else if Read16(values, 0) == 0 || Read16(values, 0) > TX_MAX then (live, InvalidParameter)
    else
      LengthSumIsExact(|values|, 2, Read16(values, 0));
      (live[i := Loaded(values[2..2 + Read16(values, 0)])], Success)
  }

  function StopSpec(live: Live, i: nat): (Live, Err) {
    if i !in live then (live, InvalidSensorId) else (live - {i}, Success)
  }

  ghost predicate SpiInv(live: Live) {
    forall p :: p in live ==> p < PERIPHS && 1 <= |live[p].data| <= TX_MAX && live[p].idx < |live[p].data|
  }

  lemma SetupKeepsInv(live: Live, masters: set<nat>, table: Table, cfg: seq<byte>)
    requires SpiInv(live) && ValidTable(table)
    ensures SpiInv(SetupSpec(live, masters, table, cfg).live)
  {
    hide GoodLine;
  }

  lemma UpdateKeepsInv(live: Live, i: nat, values: seq<byte>)
    requires SpiInv(live)
    ensures SpiInv(SetOutputSpec(live, i, values).0) && SpiInv(StopSpec(live, i).0)
  {}

  // ---------------------------------------------------------------- the backend object

  datatype Cell = Cell(inUse: bool, periph: nat)

  ghost predicate CellsAgree(cells: seq<Cell>, live: Live) {
    && |cells| == PERIPHS
    && forall p :: 0 <= p < PERIPHS ==> (cells[p].inUse <==> p in live) && (p in live ==> cells[p].periph == p)
  }

  // ---------------------------------------------------------------- commands over payload bytes and tables

  function LengthAt(c: seq<byte>, i: nat): nat
    requires i + 1 < |c|
  {
    c[i] as nat + 0x100 * c[i + 1] as nat
  }

  /** Port, pin and alternate function of one line. */
  predicate LineOk(c: seq<byte>, i: nat)
    requires i + 2 < |c|
  {
    c[i] <= 5 && c[i + 1] <= 15 && 1 <= c[i + 2] <= 15
  }

  /** Peripheral, mode, the three lines, MOSI unless its port is 0xFF, 1 to 64 buffer bytes. */
  predicate FieldsOk(c: seq<byte>) {
    && |c| >= 16 && c[0] <= 1 && c[1] <= 3 && LineOk(c, 2) && LineOk(c, 5) && LineOk(c, 8)
    && (c[11] == 0xFF || LineOk(c, 11)) && 1 <= LengthAt(c, 14) <= 64
  }

  /** The first objection to a block, or success. */
  function Verdict(ports: seq<Port>, room: bool, c: seq<byte>): Err
    requires |ports| == 2
  {
    if |c| < 16 || |c| < (16 + LengthAt(c, 14)) % 0x1_0000 then MalformedPayload
    else if !FieldsOk(c) then InvalidParameter
    else if ports[c[0]].owner.Some? then PeripheralBusy
    else if !room then OutOfResources
    else Success
  }

  /** A slave loaded with some bytes: the first is out already, the second comes next. */
  function Serving(data: seq<byte>): Port {
    Port(Some(Slave), false, Some(Tx(data, if |data| == 1 then 0 else 1)))
  }

  /** A setup over payload bytes and the shared ports: its answer, and on success a slave serving
      the bytes from offset 16 on; any other answer leaves both ports as they were. */
  predicate SetUp(x: seq<Port>, y: seq<Port>, room: bool, c: seq<byte>, err: Err)
    requires |x| == 2
  {
    && err == Verdict(x, room, c)
    && if err == Success
       then FieldsOk(c) && |c| >= 16 + LengthAt(c, 14) && y == x[c[0] := Serving(c[16..16 + LengthAt(c, 14)])]
       else y == x
  }

  /** A new buffer over payload bytes: the sensor serves the bytes from offset 2 on. */
  predicate Reloaded(x: seq<Port>, y: seq<Port>, i: nat, v: seq<byte>, err: Err)
    requires |x| == 2 && i < 2
  {
    if x[i].owner != Some(Slave) then err == InvalidSensorId && y == x
    else if |v| < 2 || |v| < (2 + LengthAt(v, 0)) % 0x1_0000 then err == MalformedPayload && y == x
    else if LengthAt(v, 0) == 0 || LengthAt(v, 0) > 64 then err == InvalidParameter && y == x
    else && err == Success && |v| >= 2 + LengthAt(v, 0)
         && y == x[i := Serving(v[2..2 + LengthAt(v, 0)])]
  }

  /** A stop over the ports: the peripheral is given up. */
  predicate Freed(x: seq<Port>, y: seq<Port>, i: nat, err: Err)
    requires |x| == 2 && i < 2
  {
    if x[i].owner != Some(Slave) then err == InvalidSensorId && y == x
    else err == Success && y == x[i := Port(None, false, None)]
  }

  lemma FieldsAreGood(c: seq<byte>)
    requires |c| >= CFG_MIN
    ensures FieldsOk(c) <==> GoodCfg(c)
    ensures TxLen(c) == LengthAt(c, 14)
  {}

  /** A port of the slave driver, one without, and what loading makes of it. */
  lemma PortIs(x: seq<Port>, p: nat)
    requires PortsOk(x) && p < 2
    ensures x[p].owner.Some? <==> p in SlavesOf(x) || p in MastersOf(x)
    ensures x[p].owner == Some(Slave) <==> p in SlavesOf(x)
  {}

  lemma ServingPorts(x: seq<Port>, y: seq<Port>, p: nat, data: seq<byte>)
    requires PortsOk(x) && PortsOk(y) && p < 2 && p !in MastersOf(x) && data != []
    requires MastersOf(y) == MastersOf(x) && SlavesOf(y) == SlavesOf(x)[p := Loaded(data)]
    ensures y == x[p := Serving(data)]
  {
    var z := x[p := Serving(data)];
    LoadPort(x, p, data);
    SamePort(y, z);
  }

  lemma VerdictIs(x: seq<Port>, table: Table, c: seq<byte>)
    requires PortsOk(x) && ValidTable(table)
    ensures |x| == 2 && SetupSpec(SlavesOf(x), MastersOf(x), table, c).err == Verdict(x, |table.live| < 8, c)
  {
    hide SlavesOf, MastersOf, PortsOk, GoodCfg;
    PortCount(x);
    if |c| >= CFG_MIN {
      FieldsAreGood(c);
      if FieldsOk(c) {
        PortIs(x, c[0] as nat);
        RegisterSucceeds(table, Entry(ID_SPI, c[0] as nat));
        hide FieldsOk, Loaded;
      }
    }
  }

  lemma LiveAfter(live: Live, masters: set<nat>, table: Table, c: seq<byte>)
    requires ValidTable(table)
    ensures var r := SetupSpec(live, masters, table, c);
      if r.err != Success then r.live == live
      else && FieldsOk(c) && |c| >= 16 + LengthAt(c, 14) && c[0] as nat !in masters
           && r.live == live[c[0] as nat := Loaded(c[16..16 + LengthAt(c, 14)])]
  {
    hide GoodCfg, FieldsOk;
    if |c| >= CFG_MIN {
      FieldsAreGood(c);
      if |c| >= Wrap16(CFG_MIN + TxLen(c)) && GoodCfg(c) {
        GoodLength(c);
        LengthSumIsExact(|c|, CFG_MIN, TxLen(c));
      }
    }
  }

  lemma GoodLength(c: seq<byte>)
    requires |c| >= CFG_MIN && GoodCfg(c)
    ensures TxLen(c) <= TX_MAX
  {}

  /** The reference setup, read as a contract over bytes and ports. */
  lemma SetUpIs(x: seq<Port>, y: seq<Port>, table: Table, c: seq<byte>, r: SetupResult<Live>)
    requires PortsOk(x) && PortsOk(y) && ValidTable(table) && r == SetupSpec(SlavesOf(x), MastersOf(x), table, c)
    requires SlavesOf(y) == r.live && MastersOf(y) == MastersOf(x)
    ensures |x| == 2 && SetUp(x, y, |table.live| < 8, c, r.err)
  {
    VerdictIs(x, table, c);
    LiveAfter(SlavesOf(x), MastersOf(x), table, c);
    hide SlavesOf, MastersOf, PortsOk, Verdict, SetupSpec;
    if r.err == Success {
      ServingPorts(x, y, c[0] as nat, c[16..16 + LengthAt(c, 14)]);
    } else {
      SamePort(x, y);
    }
  }

  lemma PortCount(x: seq<Port>)
    requires PortsOk(x)
    ensures |x| == 2
  {}

  lemma ReloadedIs(x: seq<Port>, y: seq<Port>, i: nat, v: seq<byte>)
    requires PortsOk(x) && PortsOk(y) && i < 2 && SlavesOf(y) == SetOutputSpec(SlavesOf(x), i, v).0 && MastersOf(y) == MastersOf(x)
    ensures |x| == 2 && Reloaded(x, y, i, v, SetOutputSpec(SlavesOf(x), i, v).1)
  {
    hide SlavesOf, MastersOf, PortsOk;
    PortCount(x);
    PortIs(x, i);
    NotBoth(x, i);
    if SetOutputSpec(SlavesOf(x), i, v).1 == Success {
      LengthSumIsExact(|v|, 2, Read16(v, 0));
      ServingPorts(x, y, i, v[2..2 + Read16(v, 0)]);
    } else {
      SamePort(x, y);
    }
  }

  lemma NotBoth(x: seq<Port>, p: nat)
    requires PortsOk(x)
    ensures p in SlavesOf(x) ==> p !in MastersOf(x)
  {}

  lemma NotServing(x: seq<Port>, i: nat)
    requires PortsOk(x) && i < 2
    ensures |x| == 2 && (i !in SlavesOf(x) ==> Freed(x, x, i, InvalidSensorId))
  {}

  lemma FreedIs(x: seq<Port>, y: seq<Port>, i: nat)
    requires PortsOk(x) && PortsOk(y) && i < 2 && SlavesOf(y) == StopSpec(SlavesOf(x), i).0 && MastersOf(y) == MastersOf(x)
    ensures |x| == 2 && Freed(x, y, i, StopSpec(SlavesOf(x), i).1)
  {
    PortCount(x);
    PortIs(x, i);
    if i in SlavesOf(x) { FreeAgain(x, i); }
    hide SlavesOf, MastersOf, PortsOk;
    SamePort(y, if i in SlavesOf(x) then x[i := Port(None, false, None)] else x);
  }

  class SpiBackend {
    const mgr: SensorManager
    const spi: SpiDriver
    const cells: array<Cell>

    /** The live sensors are the peripherals the slave driver runs. */
    ghost function View(): Live
      requires spi.Valid()
      reads spi, spi.claims, spi.masterOn, spi.slaves
    {
      SlavesOf(spi.View())
    }

    ghost predicate Own()
      reads this, spi, spi.claims, spi.masterOn, spi.slaves, cells
    {
      && cells.Length == PERIPHS && spi.Valid()
      && PortsOk(spi.View()) && CellsAgree(cells[..], View()) && SpiInv(View())
    }

    ghost predicate Valid()
      reads this, mgr, mgr.slots, spi, spi.claims, spi.masterOn, spi.slaves, cells
    {
      mgr.Valid() && Own()
    }

    constructor (mgr: SensorManager, spi: SpiDriver)
      requires mgr.Valid() && spi.Valid() && spi.View() == [IDLE, IDLE]
      ensures Valid() && this.mgr == mgr && this.spi == spi && View() == map[] && fresh(cells)
    {
      hide Holds, ValidTable;
      this.mgr, this.spi := mgr, spi;
      cells := new Cell[PERIPHS](_ => Cell(false, 0));
      new;
      assert View() == map[];
    }

    /** Claims the peripheral and loads the buffer, or changes nothing. */
    method BringUp(p: nat, mode: nat, data: seq<byte>, len: nat) returns (err: Err)
      requires spi.Valid() && PortsOk(spi.View()) && p < PERIPHS && mode <= MODE_MAX && 1 <= len <= TX_MAX && len <= |data|
      requires p !in View()
      modifies spi.claims, spi.slaves
      ensures spi.Valid() && PortsOk(spi.View()) && MastersOf(spi.View()) == old(MastersOf(spi.View()))
      ensures err == if p in old(MastersOf(spi.View())) then PeripheralBusy else Success
      ensures View() == if err == Success then old(View())[p := Loaded(data[..len])] else old(View())
    {
      hide SpiDriver.Valid, SpiDriver.View;
      ghost var before := spi.View();
      FreePort(before, p);
      err := spi.SlaveInit(p, mode);
      if err != Success {
        return;
      }
      err := spi.SlaveSetTx(p, data, len);
      if err != Success {
        // The source releases the peripheral here; with a length in range this is never reached.
        assert false;
      }
      LoadPort(before, p, data[..len]);
      assert spi.View() == before[p := Port(Some(Slave), false, Some(Loaded(data[..len])))];
    }

    // sensor_teardown
    method Teardown(p: nat)
      requires spi.Valid() && PortsOk(spi.View()) && p in View() && CellsAgree(cells[..], View())
      modifies spi.claims, spi.slaves, cells
      ensures spi.Valid() && PortsOk(spi.View()) && MastersOf(spi.View()) == old(MastersOf(spi.View()))
      ensures View() == old(View()) - {p} && CellsAgree(cells[..], View())
    {
      hide SpiDriver.Valid, SpiDriver.View;
      ghost var before := spi.View();
      FreeAgain(before, p);
      spi.SlaveDeinit(cells[p].periph);
      cells[p] := cells[p].(inUse := false);
    }

    // spi_slave_sensor_setup
    method Setup(cfg: seq<byte>) returns (err: Err, id: nat)
      requires Valid()
      modifies mgr, mgr.slots, spi.claims, spi.slaves, cells
      ensures Valid()
      ensures SetupResult(View(), mgr.View(), err, id) == old(SetupSpec(View(), MastersOf(spi.View()), mgr.View(), cfg))
      ensures SlotsMoved(old(mgr.slots[..]), mgr.slots[..], id)
      ensures MastersOf(spi.View()) == old(MastersOf(spi.View()))
      ensures |old(spi.View())| == 2 && SetUp(old(spi.View()), spi.View(), |old(mgr.View()).live| < 8, cfg, err)
    {
      hide SlavesOf, MastersOf, PortsOk, SetupSpec, SetUp, Valid, SensorManager.View, ValidTable, SpiDriver.Valid, SpiDriver.View;
      ValidParts();
      ghost var x, table := spi.View(), mgr.View();
      PortCount(x);
      err, id := Stages(cfg);
      ValidParts();
      SetUpIs(x, spi.View(), table, cfg, SetupResult(View(), mgr.View(), err, id));
    }

    lemma ValidParts()
      requires Valid()
      ensures spi.Valid() && PortsOk(spi.View()) && ValidTable(mgr.View())
    {}

    /** The stages of a setup, with their rollback. */
    method Stages(cfg: seq<byte>) returns (err: Err, id: nat)
      requires Valid()
      modifies mgr, mgr.slots, spi.claims, spi.slaves, cells
      ensures Valid()
      ensures SetupResult(View(), mgr.View(), err, id) == old(SetupSpec(View(), MastersOf(spi.View()), mgr.View(), cfg))
      ensures SlotsMoved(old(mgr.slots[..]), mgr.slots[..], id)
      ensures MastersOf(spi.View()) == old(MastersOf(spi.View()))
    {
      hide SpiDriver.Valid, SpiDriver.View, SlavesOf, MastersOf, PortsOk, GoodLine, Holds, NextId, SpiInv;
      id := 0;
      SetupKeepsInv(View(), MastersOf(spi.View()), mgr.View(), cfg);
      if |cfg| < CFG_MIN {
        return MalformedPayload, id;
      }
      var len := TxLen(cfg);
      if |cfg| < Wrap16(CFG_MIN + len) {
        return MalformedPayload, id;
      }
      if !GoodCfg(cfg) {
        return InvalidParameter, id;
      }
      var p := Read8(cfg, 0);
      if cells[p].inUse {
        return PeripheralBusy, id;
      }
      LengthSumIsExact(|cfg|, CFG_MIN, len);
      err := BringUp(p, Read8(cfg, 1), cfg[CFG_MIN..], len);
      if err != Success {
        return;
      }
      assert cfg[CFG_MIN..][..len] == cfg[CFG_MIN..CFG_MIN + len];
      cells[p] := Cell(true, p);
      RegisterSucceeds(mgr.View(), Entry(ID_SPI, p));
      id := mgr.Register(ID_SPI, p);
      if id == 0 {
        Teardown(p);
        assert View() == old(View());
        err := OutOfResources;
      }
    }

    method SetOutput(i: nat, values: seq<byte>) returns (err: Err)
      requires Valid() && i < PERIPHS
      modifies spi.slaves
      ensures Valid()
      ensures (View(), err) == SetOutputSpec(old(View()), i, values)
      ensures MastersOf(spi.View()) == old(MastersOf(spi.View()))
      ensures |old(spi.View())| == 2 && Reloaded(old(spi.View()), spi.View(), i, values, err)
    {
      hide SlavesOf, MastersOf, PortsOk, SetOutputSpec, Reloaded, Valid, SpiDriver.Valid, SpiDriver.View;
      ValidParts();
      ghost var x := spi.View();
      err := Reload(i, values);
      ValidParts();
      ReloadedIs(x, spi.View(), i, values);
    }

    /** The checks of a SET_OUTPUT, then the driver's copy. */
    method Reload(i: nat, values: seq<byte>) returns (err: Err)
      requires Valid() && i < PERIPHS
      modifies spi.slaves
      ensures Valid()
      ensures (View(), err) == SetOutputSpec(old(View()), i, values)
      ensures MastersOf(spi.View()) == old(MastersOf(spi.View()))
    {
      hide SpiDriver.Valid, SpiDriver.View, Holds, SpiInv;
      UpdateKeepsInv(View(), i, values);
      if !cells[i].inUse {
        return InvalidSensorId;
      }
      if |values| < 2 {
        return MalformedPayload;
      }
      var len := Read16(values, 0);
      if |values| < Wrap16(2 + len) {
        return MalformedPayload;
      }
      if len == 0 || len > TX_MAX {
        return InvalidParameter;
      }
      LengthSumIsExact(|values|, 2, len);
      ghost var before := spi.View();
      LoadPort(before, i, values[2..2 + len]);
      err := spi.SlaveSetTx(cells[i].periph, values[2..], len);
      assert values[2..][..len] == values[2..2 + len];
      assert spi.View() == before[i := Port(Some(Slave), false, Some(Loaded(values[2..2 + len])))];
    }

    method Stop(i: nat) returns (err: Err)
      requires Valid() && i < PERIPHS
      modifies spi.claims, spi.slaves, cells
      ensures Valid()
      ensures (View(), err) == StopSpec(old(View()), i)
      ensures MastersOf(spi.View()) == old(MastersOf(spi.View()))
      ensures |old(spi.View())| == 2 && Freed(old(spi.View()), spi.View(), i, err)
    {
      hide SpiDriver.Valid, SpiDriver.View, Holds, SlavesOf, MastersOf, PortsOk, SpiInv, Freed;
      ghost var x := spi.View();
      PortCount(x);
      NotServing(x, i);
      UpdateKeepsInv(View(), i, []);
      if !cells[i].inUse {
        return InvalidSensorId;
      }
      Teardown(i);
      err := Success;
      FreedIs(x, spi.View(), i);
    }

    /** One transmit interrupt of a live slave. */
    method Transmit(p: nat) returns (b: byte)
      requires Own() && p in View()
      modifies spi.slaves
      ensures Own() && View() == old(View())[p := NextByte(old(View())[p]).1] && b == NextByte(old(View())[p]).0
      ensures MastersOf(spi.View()) == old(MastersOf(spi.View()))
    {
      hide SpiDriver.Valid, SpiDriver.View;
      ghost var before := spi.View();
      StepPort(before, p);
      b := spi.SlaveTransmit(p);
      assert spi.View() == before[p := before[p].(slave := Some(NextByte(before[p].slave.value).1))];
    }
  }

  lemma FreePort(v: seq<Port>, p: nat)
    requires PortsOk(v) && p < PERIPHS && p !in SlavesOf(v)
    ensures p in MastersOf(v) <==> v[p].owner.Some?
    ensures v[p].slave == None && (p !in MastersOf(v) ==> v[p] == IDLE)
  {}

  lemma LoadPort(v: seq<Port>, p: nat, data: seq<byte>)
    requires PortsOk(v) && p < PERIPHS && p !in MastersOf(v)
    ensures var w := v[p := Port(Some(Slave), false, Some(Loaded(data)))];
      PortsOk(w) && SlavesOf(w) == SlavesOf(v)[p := Loaded(data)] && MastersOf(w) == MastersOf(v)
    ensures p in SlavesOf(v) ==> v[p].slave.Some?
  {}

  lemma StepPort(v: seq<Port>, p: nat)
    requires PortsOk(v) && p in SlavesOf(v)
    ensures p < PERIPHS && v[p].slave.Some? && v[p].slave.value == SlavesOf(v)[p]
    ensures var t := NextByte(SlavesOf(v)[p]).1;
      var w := v[p := v[p].(slave := Some(t))];
      PortsOk(w) && SlavesOf(w) == SlavesOf(v)[p := t] && MastersOf(w) == MastersOf(v)
  {}

  lemma FreeAgain(v: seq<Port>, p: nat)
    requires PortsOk(v) && p in SlavesOf(v)
    ensures p < PERIPHS && !v[p].master
    ensures var w := v[p := v[p].(owner := None, slave := None)];
      PortsOk(w) && SlavesOf(w) == SlavesOf(v) - {p} && MastersOf(w) == MastersOf(v)
  {}
}
