/** PWM backend (pwm_sensor.c). The reference state is the map of live PWM sensors; reference
    counts, dividers, the pin bitmap, compare registers and pool cells are all determined by
    it, and the staged setup with its rollback is proved to be an all-or-nothing update of it. */
module Pwm {
  import opened Wrappers
  import opened Sensors
  import opened Wire
  import opened Timers
  import opened HwTimer

  const POOL: nat := 28
  const PWM_FREQ_MAX: nat := 1_000_000
  const PWM_CFG_SIZE: nat := 11

  datatype PwmLive = PwmLive(pin: Pin, timer: nat, channel: nat, freq: nat, duty: nat)

  type Live = map<nat, PwmLive>

  function SlotFor(timer: nat, channel: nat): nat
    requires channel >= 1
  {
    timer * MAX_CHANNELS + (channel - 1)
  }

  predicate GoodParams(p: PwmLive) {
    && GoodPin(p.pin) && p.timer < COUNT && 1 <= p.channel <= 4
    && p.duty <= DUTY_MAX && 1 <= p.freq <= PWM_FREQ_MAX
  }

  function DividerOf(p: PwmLive): Option<Divider> {
    Compute(p.freq, Wide(p.timer))
  }

  // ---------------------------------------------------------------- reference operations

  /** The sensor a configuration block asks for. */
  function Wanted(cfg: seq<byte>): PwmLive
    requires |cfg| >= PWM_CFG_SIZE
  {
    PwmLive(PinAt(cfg, 0), Read8(cfg, 3), Read8(cfg, 4), Read32(cfg, 5), Read16(cfg, 9))
  }

  ghost function PinsOf(live: Live): set<Pin> {
    set i | i in live :: live[i].pin
  }

  ghost predicate PinTaken(live: Live, pin: Pin) { pin in PinsOf(live) }

  /** Another live sensor runs the same timer at a divider other than the wanted one. */
  ghost predicate FreqClash(live: Live, p: PwmLive) {
    exists i :: i in live && live[i].timer == p.timer && DividerOf(live[i]) != DividerOf(p)
  }

  /** Setup in one step: the first objection, or the sensor added and registered. */
  ghost function SetupSpec(live: Live, pulses: map<nat, nat>, table: Table, cfg: seq<byte>): SetupResult<Live>
    requires ValidTable(table)
  {
    if |cfg| < PWM_CFG_SIZE then Refused(live, table, MalformedPayload)
    else
      var p := Wanted(cfg);
      if !GoodParams(p) || !GoodAf(Read8(cfg, 2)) || p.channel > MaxChannel(p.timer) then Refused(live, table, InvalidParameter)
      else if PinTaken(live, p.pin) then Refused(live, table, PinConflict)
      else
        var i := SlotFor(p.timer, p.channel);
        if i in live then Refused(live, table, PwmChannelInUse)
        else if p.timer in pulses then Refused(live, table, PeripheralBusy)
        else if FreqClash(live, p) then Refused(live, table, PwmFreqConflict)
        else Admit(live, live[i := p], table, ID_PWM, i)
  }

  function SetOutputSpec(live: Live, i: nat, values: seq<byte>): (Live, Err) {
    if i !in live then (live, InvalidSensorId)
    else if |values| < 2 then (live, MalformedPayload)
    else if Read16(values, 0) > DUTY_MAX then (live, InvalidParameter)
    else (live[i := live[i].(duty := Read16(values, 0))], Success)
  }

  function StopSpec(live: Live, i: nat): (Live, Err) {
    if i !in live then (live, InvalidSensorId) else (live - {i}, Success)
  }

  // ---------------------------------------------------------------- what live sensors share

  /** No two live PWM sensors share a channel or a pin, and all channels of a timer run at
      frequencies with one common divider. */
  ghost predicate PwmInv(live: Live) {
    && (forall i :: i in live ==> GoodParams(live[i]) && live[i].channel <= MaxChannel(live[i].timer)
                                  && i == SlotFor(live[i].timer, live[i].channel))
    && (forall i, j :: i in live && j in live && i != j ==> live[i].pin != live[j].pin)
    && (forall i, j :: i in live && j in live && live[i].timer == live[j].timer ==> DividerOf(live[i]) == DividerOf(live[j]))
  }

  lemma SetupKeepsInv(live: Live, pulses: map<nat, nat>, table: Table, cfg: seq<byte>)
    requires PwmInv(live) && ValidTable(table)
    ensures PwmInv(SetupSpec(live, pulses, table, cfg).live)
  {
    hide Compute, DividerOf;
  }

  lemma UpdateKeepsInv(live: Live, i: nat, values: seq<byte>)
    requires PwmInv(live)
    ensures PwmInv(SetOutputSpec(live, i, values).0) && PwmInv(StopSpec(live, i).0)
  {
    if i in live && |values| >= 2 && Read16(values, 0) <= DUTY_MAX {
      RetuneInv(live, i, Read16(values, 0));
    }
    FewerKeepsInv(live, i);
    hide PwmInv, Read16;
  }

  // ---------------------------------------------------------------- tables determined by the live sensors

  datatype Cell = Cell(inUse: bool, pin: Pin, timer: nat, channel: nat)

  const EMPTY := Cell(false, Pin(0, 0), 0, 0)

  ghost predicate CellsOk(cells: seq<Cell>, live: Live) {
    && |cells| == POOL && (forall i :: i in live ==> i < POOL)
    && (forall i :: 0 <= i < POOL ==>
          cells[i] == if i in live then Cell(true, live[i].pin, live[i].timer, live[i].channel) else EMPTY)
  }

  /** The pin bitmap is exactly the set of pins of the live sensors. */
  ghost predicate PinsOk(pins: seq<PortBits>, live: Live) { BitmapIs(pins, PinsOf(live)) }

  ghost function OnTimer(live: Live, t: nat): set<nat> {
    set i | i in live && live[i].timer == t
  }

  /** The reference count is the number of live sensors on the timer and is positive exactly
      when the timer runs PWM; its divider is the one they all ask for. */
  ghost predicate TimerAgrees(t: nat, x: Timer, live: Live) {
    && (x.state == Pwm <==> OnTimer(live, t) != {})
    && (x.state == Pwm ==> x.refs == |OnTimer(live, t)|)
    && (forall i :: i in live && live[i].timer == t ==> DividerOf(live[i]) == Some(Divider(x.psc, x.arr)))
  }

  ghost predicate TimersOk(ts: seq<Timer>, live: Live) {
    PoolOk(ts) && forall t :: 0 <= t < COUNT ==> TimerAgrees(t, ts[t], live)
  }

  ghost predicate CcrOk(ccr: seq<nat>, ts: seq<Timer>, live: Live) {
    && |ts| == COUNT && |ccr| == POOL && (forall i :: i in live ==> live[i].timer < COUNT)
    && (forall i :: 0 <= i < POOL ==>
          ccr[i] == if i in live then ComputeCcr(ts[live[i].timer].arr, live[i].duty) else 0)
  }

  lemma AddPin(pins: seq<PortBits>, live: Live, i: nat, p: PwmLive)
    requires PinsOk(pins, live) && i !in live && GoodPin(p.pin)
    ensures PinsOk(Marked(pins, p.pin), live[i := p])
  {
    hide BitmapIs, Marked;
    MarkPin(pins, PinsOf(live), p.pin);
    var after := live[i := p];
    assert forall j :: j in live ==> after[j] == live[j];
    assert after[i] == p;
    assert PinsOf(after) == PinsOf(live) + {p.pin};
  }

  lemma RemovePin(pins: seq<PortBits>, live: Live, i: nat)
    requires PinsOk(pins, live) && i in live && GoodPin(live[i].pin)
    requires forall j :: j in live && j != i ==> live[j].pin != live[i].pin
    ensures PinsOk(Unmarked(pins, live[i].pin), live - {i})
  {
    hide BitmapIs, Unmarked;
    MarkPin(pins, PinsOf(live), live[i].pin);
    var after := live - {i};
    assert forall j :: j in live && j != i ==> j in after && after[j] == live[j];
    assert PinsOf(after) == PinsOf(live) - {live[i].pin};
  }

  lemma OnTimerAdd(live: Live, i: nat, p: PwmLive, t: nat)
    requires i !in live
    ensures OnTimer(live[i := p], t) == if p.timer == t then OnTimer(live, t) + {i} else OnTimer(live, t)
    ensures i !in OnTimer(live, t)
  {}

  lemma OnTimerRemove(live: Live, i: nat, t: nat)
    requires i in live
    ensures OnTimer(live - {i}, t) == if live[i].timer == t then OnTimer(live, t) - {i} else OnTimer(live, t)
    ensures live[i].timer == t ==> i in OnTimer(live, t)
  {}

  /** Acquiring the timer succeeds exactly when no pulse and no other frequency is in the way. */
  lemma AcquireAgrees(ts: seq<Timer>, live: Live, p: PwmLive)
    requires TimersOk(ts, live) && GoodParams(p)
    ensures Acquire(ts, p.timer, p.freq).1 ==
              if p.timer in Pulses(ts) then PeripheralBusy
              else if FreqClash(live, p) then PwmFreqConflict else Success
  {
    ComputeIsOptimal(p.freq, Wide(p.timer));
    hide Compute;
    var t := ts[p.timer];
    assert TimerAgrees(p.timer, t, live);
    assert forall i :: i in live && live[i].timer == p.timer ==> i in OnTimer(live, p.timer);
    if t.state == Pwm {
      var i :| i in OnTimer(live, p.timer);
      assert DividerOf(live[i]) == Some(Divider(t.psc, t.arr));
    }
  }

  /** The timer entry after one more channel, or one channel less. */
  function Joined(x: Timer, d: Divider): Timer {
    if x.state == Pwm then x.(refs := x.refs + 1) else x.(state := Pwm, psc := d.psc, arr := d.arr, refs := 1)
  }

  function Left(x: Timer): Timer {
    if x.refs <= 1 then x.(state := Free, psc := 0, arr := 0, refs := 0) else x.(refs := x.refs - 1)
  }

  lemma JoinAgrees(t: nat, x: Timer, live: Live, i: nat, p: PwmLive, d: Divider)
    requires TimerAgrees(t, x, live) && i !in live && p.timer == t && DividerOf(p) == Some(d)
    requires x.state == Pwm ==> x.psc == d.psc && x.arr == d.arr
    ensures TimerAgrees(t, Joined(x, d), live[i := p])
  {
    hide Compute, DividerOf;
    OnTimerAdd(live, i, p, t);
    assert i in OnTimer(live[i := p], t);
    assert forall j :: j in live && live[j].timer == t ==> j in OnTimer(live, t);
  }

  lemma LeaveAgrees(t: nat, x: Timer, live: Live, i: nat)
    requires TimerAgrees(t, x, live) && i in live && live[i].timer == t
    ensures x.state == Pwm && TimerAgrees(t, Left(x), live - {i})
  {
    hide Compute, DividerOf;
    OnTimerRemove(live, i, t);
    assert |OnTimer(live - {i}, t)| == |OnTimer(live, t)| - 1;
    assert forall j :: j in live - {i} && live[j].timer == t ==> j in OnTimer(live - {i}, t);
  }

  lemma ElsewhereAgrees(t: nat, x: Timer, live: Live, i: nat, p: PwmLive)
    requires TimerAgrees(t, x, live)
    ensures i !in live && p.timer != t ==> TimerAgrees(t, x, live[i := p])
    ensures i in live && live[i].timer != t ==> TimerAgrees(t, x, live - {i})
  {
    hide Compute, DividerOf;
    if i !in live && p.timer != t { OnTimerAdd(live, i, p, t); }
    if i in live && live[i].timer != t { OnTimerRemove(live, i, t); }
  }

  lemma AddToTimer(ts: seq<Timer>, live: Live, i: nat, p: PwmLive)
    requires TimersOk(ts, live) && i !in live && p.timer < COUNT
    requires Acquire(ts, p.timer, p.freq).1 == Success
    ensures TimersOk(Acquire(ts, p.timer, p.freq).0, live[i := p])
  {
    var d := Compute(p.freq, Wide(p.timer)).value;
    var x := ts[p.timer];
    ReleaseUndoesAcquire(ts, p.timer, p.freq);
    assert Acquire(ts, p.timer, p.freq).0 == ts[p.timer := Joined(x, d)];
    JoinAgrees(p.timer, x, live, i, p, d);
    hide Compute, TimerAgrees, Acquire;
    forall t | 0 <= t < COUNT && t != p.timer
      ensures TimerAgrees(t, ts[t], live[i := p])
    {
      ElsewhereAgrees(t, ts[t], live, i, p);
    }
  }

  lemma RemoveFromTimer(ts: seq<Timer>, live: Live, i: nat)
    requires TimersOk(ts, live) && i in live && live[i].timer < COUNT
    ensures TimersOk(Release(ts, live[i].timer), live - {i})
    ensures Pulses(Release(ts, live[i].timer)) == Pulses(ts)
  {
    var k := live[i].timer;
    LeaveAgrees(k, ts[k], live, i);
    assert Release(ts, k) == ts[k := Left(ts[k])];
    hide TimerAgrees;
    forall t | 0 <= t < COUNT && t != k
      ensures TimerAgrees(t, ts[t], live - {i})
    {
      ElsewhereAgrees(t, ts[t], live, i, live[i]);
    }
  }

  lemma AddCell(cells: seq<Cell>, live: Live, i: nat, p: PwmLive)
    requires CellsOk(cells, live) && i < POOL && i !in live
    ensures CellsOk(cells[i := Cell(true, p.pin, p.timer, p.channel)], live[i := p])
    ensures cells[i] == EMPTY
  {}

  lemma RemoveCell(cells: seq<Cell>, live: Live, i: nat)
    requires CellsOk(cells, live) && i in live
    ensures CellsOk(cells[i := EMPTY], live - {i})
  {}

  /** Opening or joining a timer changes no reload value a live sensor depends on. */
  lemma AddCcr(ccr: seq<nat>, ts: seq<Timer>, live: Live, i: nat, p: PwmLive)
    requires CcrOk(ccr, ts, live) && TimersOk(ts, live) && i < POOL && i !in live && p.timer < COUNT
    requires Acquire(ts, p.timer, p.freq).1 == Success
    ensures var ts' := Acquire(ts, p.timer, p.freq).0;
      CcrOk(ccr[i := ComputeCcr(ts'[p.timer].arr, p.duty)], ts', live[i := p])
  {
    var ts' := Acquire(ts, p.timer, p.freq).0;
    forall j | j in live
      ensures ts'[live[j].timer].arr == ts[live[j].timer].arr
    {
      assert TimerAgrees(live[j].timer, ts[live[j].timer], live);
      assert j in OnTimer(live, live[j].timer);
    }
    hide Compute, ComputeCcr, TimersOk, Acquire;
  }

  lemma RemoveCcr(ccr: seq<nat>, ts: seq<Timer>, live: Live, i: nat)
    requires CcrOk(ccr, ts, live) && TimersOk(ts, live) && i in live && i < POOL
    ensures CcrOk(ccr[i := 0], Release(ts, live[i].timer), live - {i})
  {
    hide Compute, ComputeCcr;
    var k := live[i].timer;
    var ts' := Release(ts, k);
    forall j | j in live - {i}
      ensures ts'[live[j].timer].arr == ts[live[j].timer].arr
    {
      if live[j].timer == k {
        LeaveAgrees(k, ts[k], live, i);
        assert j in OnTimer(live - {i}, k);
      }
    }
  }

  // ---------------------------------------------------------------- snapshots of the tables

  datatype Tables = Tables(ts: seq<Timer>, ccr: seq<nat>, pins: seq<PortBits>, cells: seq<Cell>)

  predicate Shape(x: Tables) {
    |x.ts| == COUNT && |x.ccr| == POOL && |x.pins| == PORT_MAX + 1 && |x.cells| == POOL
  }

  /** Every table holds what the live sensors determine. */
  ghost predicate Agree(x: Tables, live: Live) {
    PwmInv(live) && CellsOk(x.cells, live) && PinsOk(x.pins, live) && TimersOk(x.ts, live) && CcrOk(x.ccr, x.ts, live)
  }

  predicate InRange(p: PwmLive, i: nat) {
    GoodPin(p.pin) && p.timer < COUNT && i < POOL
  }

  /** Pin, compare register and cell written for a sensor whose timer is already acquired. */
  function Occupied(x: Tables, i: nat, p: PwmLive): Tables
    requires Shape(x) && InRange(p, i)
  {
    x.(pins := Marked(x.pins, p.pin),
       ccr := x.ccr[i := ComputeCcr(x.ts[p.timer].arr, p.duty)],
       cells := x.cells[i := Cell(true, p.pin, p.timer, p.channel)])
  }

  /** The undo sequence shared by a failed setup and by stop. */
  function Vacated(x: Tables, i: nat, pin: Pin, timer: nat): Tables
    requires Shape(x) && GoodPin(pin) && i < POOL
  {
    Tables(Release(x.ts, timer), x.ccr[i := 0],
           Unmarked(x.pins, pin), x.cells[i := EMPTY])
  }

  lemma AgreeShape(x: Tables, live: Live)
    requires Agree(x, live)
    ensures Shape(x) && PoolOk(x.ts) && forall i :: i in live ==> InRange(live[i], i) && live[i].channel >= 1
  {
    hide Compute, DividerOf, HasBit, ComputeCcr;
  }

  /** What the code reads from its tables before it acquires the timer. */
  lemma Lookups(x: Tables, live: Live, p: PwmLive, i: nat)
    requires Agree(x, live) && GoodPin(p.pin) && i < POOL
    ensures Shape(x)
    ensures HasBit(x.pins[p.pin.port].bits, p.pin.num) <==> PinTaken(live, p.pin)
    ensures x.cells[i].inUse <==> i in live
    ensures i in live ==> x.cells[i] == Cell(true, live[i].pin, live[i].timer, live[i].channel)
    ensures i !in live ==> x.cells[i] == EMPTY && x.ccr[i] == 0
  {
    hide Compute, DividerOf, HasBit, ComputeCcr;
    assert p.pin == Pin(p.pin.port, p.pin.num);
  }

  lemma SlotInPool(p: PwmLive)
    requires GoodParams(p)
    ensures SlotFor(p.timer, p.channel) < POOL && InRange(p, SlotFor(p.timer, p.channel))
  {}

  /** A completed setup leaves tables that agree with one more live sensor. */
  lemma OccupyAgrees(x: Tables, live: Live, p: PwmLive)
    requires Agree(x, live) && GoodParams(p) && p.channel <= MaxChannel(p.timer)
    requires !PinTaken(live, p.pin) && SlotFor(p.timer, p.channel) !in live
    requires Acquire(x.ts, p.timer, p.freq).1 == Success
    ensures Shape(x) && InRange(p, SlotFor(p.timer, p.channel))
    ensures var i := SlotFor(p.timer, p.channel);
      Agree(Occupied(x.(ts := Acquire(x.ts, p.timer, p.freq).0), i, p), live[i := p])
  {
    var i := SlotFor(p.timer, p.channel);
    SlotInPool(p);
    AgreeShape(x, live);
    AcquireAgrees(x.ts, live, p);
    NewKeepsInv(live, p);
    AddPin(x.pins, live, i, p);
    AddToTimer(x.ts, live, i, p);
    AddCell(x.cells, live, i, p);
    AddCcr(x.ccr, x.ts, live, i, p);
    hide Compute, DividerOf, HasBit, SetBit, ComputeCcr, Acquire, PwmInv, CellsOk, PinsOk, TimersOk, CcrOk;
  }

  lemma NewKeepsInv(live: Live, p: PwmLive)
    requires PwmInv(live) && GoodParams(p) && p.channel <= MaxChannel(p.timer)
    requires !PinTaken(live, p.pin) && !FreqClash(live, p) && SlotFor(p.timer, p.channel) !in live
    ensures PwmInv(live[SlotFor(p.timer, p.channel) := p])
  {
    hide Compute, DividerOf;
  }

  lemma MarkUndone(x: Tables, live: Live, pin: Pin)
    requires Agree(x, live) && GoodPin(pin) && !PinTaken(live, pin)
    ensures Shape(x) && Unmarked(Marked(x.pins, pin), pin) == x.pins
  {
    hide BitmapIs, Marked, Unmarked, PwmInv, CellsOk, TimersOk, CcrOk, Compute;
    AgreeShape(x, live);
    var pins := x.pins;
    MarkPin(pins, PinsOf(live), pin);
    MarkPin(Marked(pins, pin), PinsOf(live) + {pin}, pin);
    assert PinsOf(live) + {pin} - {pin} == PinsOf(live);
    SameBitmap(pins, Unmarked(Marked(pins, pin), pin), PinsOf(live));
  }

  /** The rollback restores every table exactly. */
  lemma VacateUndoes(x: Tables, live: Live, i: nat, p: PwmLive)
    requires Agree(x, live) && InRange(p, i) && i !in live && !PinTaken(live, p.pin)
    requires Acquire(x.ts, p.timer, p.freq).1 == Success
    ensures Shape(x)
    ensures Vacated(Occupied(x.(ts := Acquire(x.ts, p.timer, p.freq).0), i, p), i, p.pin, p.timer) == x
  {
    hide Compute, DividerOf, HasBit, SetBit, ClearBit, ComputeCcr, Acquire, Release, Agree, PinTaken;
    AgreeShape(x, live);
    ReleaseUndoesAcquire(x.ts, p.timer, p.freq);
    Lookups(x, live, p, i);
    MarkUndone(x, live, p.pin);
    var y := Occupied(x.(ts := Acquire(x.ts, p.timer, p.freq).0), i, p);
    assert y.ccr[i := 0] == x.ccr;
    assert y.cells[i := EMPTY] == x.cells;
  }

  /** Stop leaves tables that agree with one live sensor less. */
  lemma VacateAgrees(x: Tables, live: Live, i: nat)
    requires Agree(x, live) && i in live
    ensures Shape(x) && InRange(live[i], i)
    ensures Agree(Vacated(x, i, live[i].pin, live[i].timer), live - {i})
    ensures Pulses(Release(x.ts, live[i].timer)) == Pulses(x.ts)
  {
    AgreeShape(x, live);
    FewerKeepsInv(live, i);
    RemovePin(x.pins, live, i);
    RemoveFromTimer(x.ts, live, i);
    RemoveCell(x.cells, live, i);
    RemoveCcr(x.ccr, x.ts, live, i);
    hide Compute, DividerOf, HasBit, ClearBit, ComputeCcr, Release, PwmInv, CellsOk, PinsOk, TimersOk, CcrOk;
  }

  lemma FewerKeepsInv(live: Live, i: nat)
    requires PwmInv(live)
    ensures PwmInv(live - {i})
  {
    hide Compute, DividerOf;
  }

  lemma RetuneInv(live: Live, i: nat, duty: nat)
    requires PwmInv(live) && i in live && duty <= DUTY_MAX
    ensures PwmInv(live[i := live[i].(duty := duty)])
  {
    assert DividerOf(live[i].(duty := duty)) == DividerOf(live[i]);
    hide Compute, DividerOf;
  }

  lemma RetunePins(pins: seq<PortBits>, live: Live, i: nat, duty: nat)
    requires PinsOk(pins, live) && i in live
    ensures PinsOk(pins, live[i := live[i].(duty := duty)])
  {
    hide BitmapIs;
    var after := live[i := live[i].(duty := duty)];
    assert forall j :: j in live ==> after[j].pin == live[j].pin;
    assert PinsOf(after) == PinsOf(live);
  }

  lemma RetuneTimers(ts: seq<Timer>, live: Live, i: nat, duty: nat)
    requires TimersOk(ts, live) && i in live
    ensures TimersOk(ts, live[i := live[i].(duty := duty)])
  {
    var after := live[i := live[i].(duty := duty)];
    assert DividerOf(after[i]) == DividerOf(live[i]);
    hide Compute, DividerOf;
    forall t | 0 <= t < COUNT
      ensures TimerAgrees(t, ts[t], after)
    {
      assert TimerAgrees(t, ts[t], live);
      assert OnTimer(after, t) == OnTimer(live, t);
    }
  }

  lemma RetuneCells(cells: seq<Cell>, live: Live, i: nat, duty: nat)
    requires CellsOk(cells, live) && i in live
    ensures CellsOk(cells, live[i := live[i].(duty := duty)])
  {}

  lemma RetuneCcr(ccr: seq<nat>, ts: seq<Timer>, live: Live, i: nat, duty: nat)
    requires CcrOk(ccr, ts, live) && i in live && i < POOL
    ensures CcrOk(ccr[i := ComputeCcr(ts[live[i].timer].arr, duty)], ts, live[i := live[i].(duty := duty)])
  {
    hide ComputeCcr;
  }

  /** A new duty changes one compare register and nothing else. */
  lemma RetuneAgrees(x: Tables, live: Live, i: nat, duty: nat)
    requires Agree(x, live) && i in live && duty <= DUTY_MAX
    ensures Shape(x) && InRange(live[i], i)
    ensures Agree(x.(ccr := x.ccr[i := ComputeCcr(x.ts[live[i].timer].arr, duty)]), live[i := live[i].(duty := duty)])
  {
    AgreeShape(x, live);
    RetuneInv(live, i, duty);
    RetunePins(x.pins, live, i, duty);
    RetuneTimers(x.ts, live, i, duty);
    RetuneCells(x.cells, live, i, duty);
    RetuneCcr(x.ccr, x.ts, live, i, duty);
    hide Compute, DividerOf, HasBit, ComputeCcr, PwmInv, PinsOk, TimersOk, CellsOk, CcrOk;
  }

  lemma PulseTimers(ts: seq<Timer>, ts': seq<Timer>, live: Live)
    requires TimersOk(ts, live) && PoolOk(ts')
    requires forall t :: 0 <= t < COUNT && (ts[t].state == Pwm || ts'[t].state == Pwm) ==> ts[t] == ts'[t]
    ensures TimersOk(ts', live)
  {
    hide Compute, DividerOf, TimerOk, OnTimer;
    forall t | 0 <= t < COUNT
      ensures TimerAgrees(t, ts'[t], live)
    {
      assert TimerAgrees(t, ts[t], live);
      InUseTimer(t, ts[t], live);
    }
  }

  lemma InUseTimer(t: nat, x: Timer, live: Live)
    requires TimerAgrees(t, x, live)
    ensures forall i :: i in live && live[i].timer == t ==> x.state == Pwm
  {
    assert forall i :: i in live && live[i].timer == t ==> i in OnTimer(live, t);
  }

  lemma PulseCcr(ccr: seq<nat>, ts: seq<Timer>, ts': seq<Timer>, live: Live)
    requires TimersOk(ts, live) && PoolOk(ts') && CcrOk(ccr, ts, live)
    requires forall t :: 0 <= t < COUNT && (ts[t].state == Pwm || ts'[t].state == Pwm) ==> ts[t] == ts'[t]
    ensures CcrOk(ccr, ts', live)
  {
    hide TimerAgrees, TimerOk, ComputeCcr;
    forall i | i in live
      ensures ts'[live[i].timer] == ts[live[i].timer]
    {
      InUseTimer(live[i].timer, ts[live[i].timer], live);
    }
  }

  /** Timers reserved for pulses do not concern the PWM tables. */
  lemma PulsesDoNotMatter(x: Tables, ts: seq<Timer>, live: Live)
    requires Agree(x, live) && PoolOk(ts) && |x.ts| == COUNT
    requires forall t :: 0 <= t < COUNT && (ts[t].state == Pwm || x.ts[t].state == Pwm) ==> ts[t] == x.ts[t]
    ensures Agree(x.(ts := ts), live)
  {
    PulseTimers(x.ts, ts, live);
    PulseCcr(x.ccr, x.ts, ts, live);
    hide PinsOk, CellsOk, PwmInv, TimersOk, CcrOk, PoolOk;
  }

  lemma SameTimer(t: nat, x: Timer, y: Timer, live: Live)
    requires TimerAgrees(t, x, live) && TimerAgrees(t, y, live) && TimerOk(x) && TimerOk(y)
    requires x.state == Pulse <==> y.state == Pulse
    requires x.state == Pulse ==> x.token == y.token
    ensures x == y
  {
    hide Compute, DividerOf;
    if x.state == Pwm {
      var i :| i in OnTimer(live, t);
      assert DividerOf(live[i]) == Some(Divider(x.psc, x.arr));
    }
  }

  /** The live sensors and the pulse reservations determine every table: a setup that fails, or
      a setup followed by stop, leaves all of them exactly as they were. */
  lemma TablesAreDetermined(x: Tables, y: Tables, live: Live)
    requires Agree(x, live) && Agree(y, live) && Pulses(x.ts) == Pulses(y.ts)
    ensures x == y
  {
    hide Compute, DividerOf, HasBit, ComputeCcr, TimerAgrees, TimerOk;
    AgreeShape(x, live);
    AgreeShape(y, live);
    SameBitmap(x.pins, y.pins, PinsOf(live));
    forall t: nat | t < COUNT
      ensures x.ts[t] == y.ts[t]
    {
      assert t in Pulses(x.ts) <==> t in Pulses(y.ts);
      assert t in Pulses(x.ts) ==> Pulses(x.ts)[t] == Pulses(y.ts)[t];
      SameTimer(t, x.ts[t], y.ts[t], live);
    }
  }

  // ---------------------------------------------------------------- commands over payload bytes and tables

  function FreqAt(c: seq<byte>): nat
    requires |c| >= 11
  {
    c[5] as nat + 0x100 * c[6] as nat + 0x1_0000 * c[7] as nat + 0x100_0000 * c[8] as nat
  }

  function DutyAt(c: seq<byte>, i: nat): nat
    requires i + 1 < |c|
  {
    c[i] as nat + 0x100 * c[i + 1] as nat
  }

  /** Eleven bytes with every field in range: port, pin, alternate function, timer, a channel that
      timer has, 1 Hz to 1 MHz, duty up to 100.00 %. */
  predicate FieldsOk(c: seq<byte>) {
    && |c| >= 11 && c[0] <= 5 && c[1] <= 15 && 1 <= c[2] <= 15 && c[3] <= 6 && 1 <= c[4]
    && c[4] <= (if c[3] <= 3 then 4 else if c[3] == 4 then 2 else 1)
    && 1 <= FreqAt(c) <= 1_000_000 && DutyAt(c, 9) <= 10_000
  }

  /** The pool entry of the timer and channel in bytes 3 and 4. */
  function EntryAt(c: seq<byte>): nat
    requires FieldsOk(c)
  {
    4 * c[3] as nat + c[4] as nat - 1
  }

  function DividerAt(c: seq<byte>): Option<Divider>
    requires FieldsOk(c)
  {
    Compute(FreqAt(c), c[3] == 0 || c[3] == 3)
  }

  predicate PinFree(x: Tables, c: seq<byte>)
    requires Shape(x) && FieldsOk(c)
  {
    !HasBit(x.pins[c[0]].bits, c[1] as nat)
  }

  predicate ChannelFree(x: Tables, c: seq<byte>)
    requires Shape(x) && FieldsOk(c)
  {
    EntryAt(c) < POOL && !x.cells[EntryAt(c)].inUse
  }

  /** The timer is free, or runs PWM at the divider asked for. */
  predicate TimerFits(x: Tables, c: seq<byte>)
    requires Shape(x) && FieldsOk(c)
  {
    var t := x.ts[c[3]];
    t.state == Free || (t.state == Pwm && DividerAt(c) == Some(Divider(t.psc, t.arr)))
  }

  /** Tables after a channel has been set up: pool entry, compare register, timer and pin of the
      block are as asked, everything else is as before. */
  ghost predicate Running(x: Tables, y: Tables, c: seq<byte>)
    requires Shape(x) && Shape(y) && FieldsOk(c) && EntryAt(c) < POOL
  {
    var i, t := EntryAt(c), c[3] as nat;
    && y.cells == x.cells[i := Cell(true, Pin(c[0] as nat, c[1] as nat), t, c[4] as nat)]
    && y.ccr == x.ccr[i := ComputeCcr(y.ts[t].arr, DutyAt(c, 9))]
    && DividerAt(c).Some?
    && y.ts == x.ts[t := Timer(Pwm, 0, DividerAt(c).value.psc, DividerAt(c).value.arr, x.ts[t].refs + 1)]
    && (forall port, num :: 0 <= port <= 5 && 0 <= num <= 15 ==>
          (HasBit(y.pins[port].bits, num) <==> (port == c[0] as nat && num == c[1] as nat) || HasBit(x.pins[port].bits, num)))
  }

  /** A setup over payload bytes and tables: which blocks succeed, what they set up, and the first
      objection to the others, which change nothing. */
  ghost predicate SetUp(x: Tables, y: Tables, room: bool, c: seq<byte>, err: Err)
    requires Shape(x) && Shape(y)
  {
    if |c| < 11 then err == MalformedPayload && y == x
    else if !FieldsOk(c) then err == InvalidParameter && y == x
    else if !PinFree(x, c) then err == PinConflict && y == x
    else if !ChannelFree(x, c) then err == PwmChannelInUse && y == x
    else if x.ts[c[3]].state == Pulse then err == PeripheralBusy && y == x
    else if !TimerFits(x, c) then err == PwmFreqConflict && y == x
    else if !room then err == OutOfResources && y == x
    else err == Success && Running(x, y, c)
  }

  /** A new duty over payload bytes and tables: it reaches the sensor's compare register and nothing else. */
  predicate Retuned(x: Tables, y: Tables, i: nat, v: seq<byte>, err: Err)
    requires Shape(x) && i < POOL
  {
    if !x.cells[i].inUse then err == InvalidSensorId && y == x
    else if |v| < 2 then err == MalformedPayload && y == x
    else if DutyAt(v, 0) > 10_000 then err == InvalidParameter && y == x
    else && err == Success && x.cells[i].timer < COUNT
         && y == x.(ccr := x.ccr[i := ComputeCcr(x.ts[x.cells[i].timer].arr, DutyAt(v, 0))])
  }

  /** A stop over the tables: entry, compare register and pin are given up, the timer loses one
      channel and is free without any. */
  ghost predicate Halted(x: Tables, y: Tables, i: nat, err: Err)
    requires Shape(x) && Shape(y) && i < POOL
  {
    if !x.cells[i].inUse then err == InvalidSensorId && y == x
    else
      var t := x.cells[i].timer;
      && err == Success && t < COUNT
      && y.cells == x.cells[i := EMPTY] && y.ccr == x.ccr[i := 0]
      && y.ts == x.ts[t := if x.ts[t].refs <= 1 then FREE_TIMER else x.ts[t].(refs := x.ts[t].refs - 1)]
      && (forall port, num :: 0 <= port <= 5 && 0 <= num <= 15 ==>
            (HasBit(y.pins[port].bits, num) <==> Pin(port, num) != x.cells[i].pin && HasBit(x.pins[port].bits, num)))
  }

  /** The reference SET_OUTPUT, read as a contract over bytes and tables. */
  lemma RetunedIs(x: Tables, live: Live, i: nat, v: seq<byte>, y: Tables)
    requires Agree(x, live) && i < POOL && Agree(y, SetOutputSpec(live, i, v).0) && Pulses(y.ts) == Pulses(x.ts)
    ensures Shape(x) && Retuned(x, y, i, v, SetOutputSpec(live, i, v).1)
  {
    hide Agree, ComputeCcr, HasBit;
    AgreeShape(x, live);
    Lookups(x, live, PwmLive(Pin(0, 0), 0, 1, 1, 0), i);
    if SetOutputSpec(live, i, v).1 == Success {
      var duty := Read16(v, 0);
      RetuneAgrees(x, live, i, duty);
      TablesAreDetermined(x.(ccr := x.ccr[i := ComputeCcr(x.ts[live[i].timer].arr, duty)]), y, SetOutputSpec(live, i, v).0);
    } else {
      TablesAreDetermined(x, y, live);
    }
  }

  /** The reference stop, read as a contract over the tables. */
  lemma StopIs(x: Tables, live: Live, i: nat, y: Tables)
    requires Agree(x, live) && i < POOL && Agree(y, StopSpec(live, i).0) && Pulses(y.ts) == Pulses(x.ts)
    ensures Shape(x) && Shape(y) && Halted(x, y, i, StopSpec(live, i).1)
  {
    hide Agree, ComputeCcr, HasBit, Halted, Vacated;
    AgreeShape(x, live);
    AgreeShape(y, StopSpec(live, i).0);
    HaltedIs(x, live, i);
    if i in live {
      VacateAgrees(x, live, i);
      VacatedTimers(x, i, live[i].pin, live[i].timer);
      TablesAreDetermined(Vacated(x, i, live[i].pin, live[i].timer), y, live - {i});
    } else {
      TablesAreDetermined(x, y, live);
    }
  }

  lemma VacatedTimers(x: Tables, i: nat, pin: Pin, timer: nat)
    requires Shape(x) && GoodPin(pin) && i < POOL
    ensures Vacated(x, i, pin, timer).ts == Release(x.ts, timer)
  {}

  lemma HaltedIs(x: Tables, live: Live, i: nat)
    requires Agree(x, live) && i < POOL
    ensures Shape(x)
    ensures i !in live ==> Halted(x, x, i, InvalidSensorId)
    ensures i in live ==> InRange(live[i], i) && Halted(x, Vacated(x, i, live[i].pin, live[i].timer), i, Success)
  {
    hide HasBit, Agree, Release, Unmarked, Marked, ComputeCcr;
    AgreeShape(x, live);
    Lookups(x, live, PwmLive(Pin(0, 0), 0, 1, 1, 0), i);
    if i in live {
      ReleasedIs(x, live, i);
      PinGivenUp(x.pins, live[i].pin);
    }
  }

  lemma ReleasedIs(x: Tables, live: Live, i: nat)
    requires Agree(x, live) && i in live && Shape(x) && live[i].timer < COUNT
    ensures var t := live[i].timer;
      Release(x.ts, t) == x.ts[t := if x.ts[t].refs <= 1 then FREE_TIMER else x.ts[t].(refs := x.ts[t].refs - 1)]
  {
    hide Compute, HasBit, DividerOf, PwmInv, CellsOk, PinsOk, CcrOk;
    LeaveAgrees(live[i].timer, x.ts[live[i].timer], live, i);
    assert TimerOk(x.ts[live[i].timer]);
  }

  lemma PinGivenUp(pins: seq<PortBits>, pin: Pin)
    requires |pins| == PORT_MAX + 1 && GoodPin(pin)
    ensures forall port, num :: 0 <= port <= 5 && 0 <= num <= 15 ==>
              (HasBit(Unmarked(pins, pin)[port].bits, num) <==> Pin(port, num) != pin && HasBit(pins[port].bits, num))
  {
    hide HasBit, ClearBit;
    forall port, num | 0 <= port <= 5 && 0 <= num <= 15
      ensures HasBit(Unmarked(pins, pin)[port].bits, num) <==> Pin(port, num) != pin && HasBit(pins[port].bits, num)
    {
      ClearBitIs(pins[port].bits, pin.num, num);
    }
  }

  lemma FieldsAreWanted(c: seq<byte>)
    requires |c| >= PWM_CFG_SIZE
    ensures var p := Wanted(c);
      && (FieldsOk(c) <==> GoodParams(p) && GoodAf(Read8(c, 2)) && p.channel <= MaxChannel(p.timer))
      && (FieldsOk(c) ==> EntryAt(c) == SlotFor(p.timer, p.channel) < POOL && DividerAt(c) == DividerOf(p))
      && p.pin == Pin(c[0] as nat, c[1] as nat) && p.timer == c[3] as nat && p.channel == c[4] as nat
      && p.freq == FreqAt(c) && p.duty == DutyAt(c, 9)
  {
    hide Compute;
  }

  /** The reference setup, read as a contract over bytes and tables. */
  lemma SetUpIs(x: Tables, live: Live, table: Table, c: seq<byte>, y: Tables, r: SetupResult<Live>)
    requires Agree(x, live) && ValidTable(table) && r == SetupSpec(live, Pulses(x.ts), table, c) && Agree(y, r.live)
    requires r.err != Success ==> y == x
    requires r.err == Success ==> |c| >= PWM_CFG_SIZE && y.ts == Acquire(x.ts, Wanted(c).timer, Wanted(c).freq).0
    ensures Shape(x) && Shape(y) && SetUp(x, y, |table.live| < 8, c, r.err)
  {
    hide Compute, ComputeCcr, HasBit, Agree, Acquire, FreqClash, PinTaken, DividerOf, Running;
    AgreeShape(x, live);
    AgreeShape(y, r.live);
    if |c| >= PWM_CFG_SIZE {
      FieldsAreWanted(c);
      if FieldsOk(c) {
        var p := Wanted(c);
        var i := SlotFor(p.timer, p.channel);
        Lookups(x, live, p, i);
        TimerVerdict(x, live, c);
        RegisterSucceeds(table, Entry(ID_PWM, i));
        if r.err == Success { RunningIs(x, live, c, y, r.live); }
      }
    }
  }

  lemma TimerVerdict(x: Tables, live: Live, c: seq<byte>)
    requires Agree(x, live) && FieldsOk(c)
    ensures Shape(x) && (x.ts[c[3]].state == Pulse <==> c[3] as nat in Pulses(x.ts))
    ensures c[3] as nat !in Pulses(x.ts) ==> (TimerFits(x, c) <==> !FreqClash(live, Wanted(c)))
    ensures c[3] as nat !in Pulses(x.ts) && !FreqClash(live, Wanted(c)) ==> Acquire(x.ts, Wanted(c).timer, Wanted(c).freq).1 == Success
  {
    hide Compute, ComputeCcr, HasBit, PinsOk, CellsOk, CcrOk, FreqClash;
    FieldsAreWanted(c);
    AgreeShape(x, live);
    AcquireAgrees(x.ts, live, Wanted(c));
    ComputeIsOptimal(FreqAt(c), c[3] == 0 || c[3] == 3);
  }

  lemma RunningIs(x: Tables, live: Live, c: seq<byte>, y: Tables, after: Live)
    requires Agree(x, live) && FieldsOk(c) && Shape(x) && Shape(y) && EntryAt(c) < POOL && EntryAt(c) !in live
    requires after == live[EntryAt(c) := Wanted(c)] && Agree(y, after)
    requires Acquire(x.ts, Wanted(c).timer, Wanted(c).freq) == (y.ts, Success)
    ensures Running(x, y, c)
  {
    hide Compute, ComputeCcr, HasBit, Acquire, PwmInv, TimersOk, CcrOk, CellsOk, PinsOk;
    FieldsAreWanted(c);
    var i, p := EntryAt(c), Wanted(c);
    hide Wanted;
    NewTimer(x, live, c);
    AddCcr(x.ccr, x.ts, live, i, p);
    SameCcr(x.ccr[i := ComputeCcr(y.ts[p.timer].arr, p.duty)], y.ccr, y.ts, after);
    AddCell(x.cells, live, i, p);
    SameCells(x.cells[i := Cell(true, p.pin, p.timer, p.channel)], y.cells, after);
    NewPins(x.pins, y.pins, live, i, p);
  }

  lemma SameCcr(a: seq<nat>, b: seq<nat>, ts: seq<Timer>, live: Live)
    requires CcrOk(a, ts, live) && CcrOk(b, ts, live)
    ensures a == b
  {
    hide ComputeCcr;
  }

  lemma SameCells(a: seq<Cell>, b: seq<Cell>, live: Live)
    requires CellsOk(a, live) && CellsOk(b, live)
    ensures a == b
  {}

  lemma NewPins(pins: seq<PortBits>, pins': seq<PortBits>, live: Live, i: nat, p: PwmLive)
    requires PinsOk(pins, live) && PinsOk(pins', live[i := p]) && i !in live
    ensures |pins| == |pins'| == 6
    ensures forall port, num :: 0 <= port <= 5 && 0 <= num <= 15 ==>
              (HasBit(pins'[port].bits, num) <==> (port == p.pin.port && num == p.pin.num) || HasBit(pins[port].bits, num))
  {
    hide HasBit;
    var after := live[i := p];
    assert after[i] == p && forall j :: j in live ==> after[j] == live[j];
    assert PinsOf(after) == PinsOf(live) + {p.pin};
  }

  lemma NewTimer(x: Tables, live: Live, c: seq<byte>)
    requires Agree(x, live) && FieldsOk(c) && Acquire(x.ts, Wanted(c).timer, Wanted(c).freq).1 == Success
    ensures Shape(x) && DividerAt(c).Some?
    ensures Acquire(x.ts, Wanted(c).timer, Wanted(c).freq).0 ==
              x.ts[c[3] := Timer(Pwm, 0, DividerAt(c).value.psc, DividerAt(c).value.arr, x.ts[c[3]].refs + 1)]
  {
    hide Compute, ComputeCcr, HasBit, PinsOk, CellsOk, CcrOk;
    FieldsAreWanted(c);
    AgreeShape(x, live);
    assert TimerOk(x.ts[c[3]]);
  }

  // ---------------------------------------------------------------- the backend object

  class PwmBackend {
    const mgr: SensorManager
    const tim: TimerPool
    const cells: array<Cell>
    const pins: array<PortBits>

    /** The live PWM sensors by pool index. */
    ghost var live: Live

    ghost function Snapshot(): Tables
      reads tim.timers, tim.ccr, pins, cells
    {
      Tables(tim.timers[..], tim.ccr[..], pins[..], cells[..])
    }

    ghost predicate Own()
      reads this, tim, tim.timers, tim.ccr, cells, pins
    {
      tim.Valid() && Agree(Snapshot(), live)
    }

    ghost predicate Valid()
      reads this, mgr, mgr.slots, tim, tim.timers, tim.ccr, cells, pins
    {
      mgr.Valid() && Own()
    }

    constructor (mgr: SensorManager, tim: TimerPool)
      requires mgr.Valid() && tim.Valid()
      requires forall t :: 0 <= t < COUNT ==> tim.timers[t] == FREE_TIMER
      requires forall i :: 0 <= i < tim.ccr.Length ==> tim.ccr[i] == 0
      ensures Valid() && this.mgr == mgr && this.tim == tim && live == map[]
      ensures fresh(cells) && fresh(pins)
    {
      this.mgr, this.tim := mgr, tim;
      cells := new Cell[POOL](_ => EMPTY);
      pins := new PortBits[PORT_MAX + 1](_ => PortBits(0));
      live := map[];
      new;
      EmptyAgrees(Snapshot());
    }

    // pwm_sensor_setup
    method Setup(cfg: seq<byte>) returns (err: Err, id: nat)
      requires Valid()
      modifies this, mgr, mgr.slots, tim.timers, tim.ccr, cells, pins
      ensures Valid()
      ensures SetupResult(live, mgr.View(), err, id) == old(SetupSpec(live, Pulses(tim.timers[..]), mgr.View(), cfg))
      ensures Pulses(tim.timers[..]) == old(Pulses(tim.timers[..]))
      ensures err == Success ==>
                && |cfg| >= PWM_CFG_SIZE
                && tim.timers[..] == Acquire(old(tim.timers[..]), Wanted(cfg).timer, Wanted(cfg).freq).0
      ensures err != Success ==> Snapshot() == old(Snapshot())
      ensures Shape(old(Snapshot())) && Shape(Snapshot())
      ensures SetUp(old(Snapshot()), Snapshot(), |old(mgr.View()).live| < 8, cfg, err)
      ensures SlotsMoved(old(mgr.slots[..]), mgr.slots[..], id)
    {
      hide Agree, SetupSpec, Acquire, SetUp, Valid, SensorManager.View, Wanted, Pulses, Running, ValidTable;
      ghost var x, before, table := Snapshot(), live, mgr.View();
      ValidParts();
      err, id := Stages(cfg);
      ValidParts();
      SetUpIs(x, before, table, cfg, Snapshot(), SetupResult(live, mgr.View(), err, id));
    }

    lemma ValidParts()
      requires Valid()
      ensures Agree(Snapshot(), live) && ValidTable(mgr.View())
    {
      hide Agree;
    }

    /** The stages of a setup, with their rollback. */
    method Stages(cfg: seq<byte>) returns (err: Err, id: nat)
      requires Valid()
      modifies this, mgr, mgr.slots, tim.timers, tim.ccr, cells, pins
      ensures Valid()
      ensures SetupResult(live, mgr.View(), err, id) == old(SetupSpec(live, Pulses(tim.timers[..]), mgr.View(), cfg))
      ensures Pulses(tim.timers[..]) == old(Pulses(tim.timers[..]))
      ensures err == Success ==>
                && |cfg| >= PWM_CFG_SIZE
                && tim.timers[..] == Acquire(old(tim.timers[..]), Wanted(cfg).timer, Wanted(cfg).freq).0
      ensures err != Success ==> Snapshot() == old(Snapshot())
      ensures SlotsMoved(old(mgr.slots[..]), mgr.slots[..], id)
    {
      hide Compute, ComputeCcr, HasBit, SetBit, ClearBit, FreqClash, PinTaken, Agree, Acquire, Release, DividerOf;
      if |cfg| < PWM_CFG_SIZE {
        return MalformedPayload, 0;
      }
      var p := Wanted(cfg);
      if !GoodParams(p) || !GoodAf(Read8(cfg, 2)) {
        return InvalidParameter, 0;
      }
      if p.channel > MaxChannel(p.timer) {
        return InvalidParameter, 0;
      }
      var idx := SlotFor(p.timer, p.channel);
      SlotInPool(p);
      Lookups(Snapshot(), live, p, idx);
      if HasBit(pins[p.pin.port].bits, p.pin.num) {
        return PinConflict, 0;
      }
      if cells[idx].inUse {
        return PwmChannelInUse, 0;
      }
      AcquireVerdict(Snapshot(), live, p);
      ghost var x := Snapshot();
      var arr;
      err, arr := tim.PwmAcquire(p.timer, p.freq);
      if err != Success {
        return err, 0;
      }
      AcquirePulses(x.ts, p.timer, p.freq);
      err, id := Commit(p, idx, arr, x);
    }

    /** The second half of a setup, once the timer is acquired: `x` is the state before. */
    method Commit(p: PwmLive, idx: nat, arr: nat, ghost x: Tables) returns (err: Err, id: nat)
      requires mgr.Valid() && tim.Valid() && Agree(x, live)
      requires GoodParams(p) && p.channel <= MaxChannel(p.timer) && idx == SlotFor(p.timer, p.channel)
      requires !PinTaken(live, p.pin) && idx !in live && Shape(x) && Acquire(x.ts, p.timer, p.freq).1 == Success
      requires Snapshot() == x.(ts := Acquire(x.ts, p.timer, p.freq).0) && arr == tim.timers[p.timer].arr
      modifies this, mgr, mgr.slots, tim.timers, tim.ccr, cells, pins
      ensures Valid()
      ensures SetupResult(live, mgr.View(), err, id) == old(Admit(live, live[idx := p], mgr.View(), ID_PWM, idx))
      ensures err != Success ==> Snapshot() == x
      ensures SlotsMoved(old(mgr.slots[..]), mgr.slots[..], id)
      ensures Pulses(tim.timers[..]) == Pulses(x.ts)
      ensures err == Success ==> tim.timers[..] == Acquire(x.ts, p.timer, p.freq).0
    {
      hide Compute, ComputeCcr, SetBit, ClearBit, PinTaken, Agree, Acquire, Release, Holds, Taken, FilledAt;
      SlotInPool(p);
      AgreeShape(x, live);
      AcquirePulses(x.ts, p.timer, p.freq);
      OccupyAgrees(x, live, p);
      VacateUndoes(x, live, idx, p);
      Occupy(idx, p, arr);
      RegisterSucceeds(mgr.View(), Entry(ID_PWM, idx));
      id := mgr.Register(ID_PWM, idx);
      if id == 0 {
        Vacate(idx, p.pin, p.timer);
        return OutOfResources, 0;
      }
      live := live[idx := p];
      err := Success;
    }

    /** Marks the pin, programs the compare register and fills the pool cell. */
    method Occupy(idx: nat, p: PwmLive, arr: nat)
      requires Shape(Snapshot()) && InRange(p, idx) && arr == tim.timers[p.timer].arr
      modifies tim.ccr, cells, pins
      ensures Snapshot() == Occupied(old(Snapshot()), idx, p)
    {
      hide ComputeCcr, SetBit;
      pins[p.pin.port] := PortBits(SetBit(pins[p.pin.port].bits, p.pin.num));
      var ccr := ComputeCcr(arr, p.duty);
      tim.ccr[idx] := ccr;
      cells[idx] := Cell(true, p.pin, p.timer, p.channel);
    }

    /** Disables the channel, releases the timer, frees the pin and clears the cell. */
    method Vacate(idx: nat, pin: Pin, timer: nat)
      requires tim.Valid() && Shape(Snapshot()) && GoodPin(pin) && idx < POOL
      modifies tim.timers, tim.ccr, cells, pins
      ensures tim.Valid()
      ensures Snapshot() == Vacated(old(Snapshot()), idx, pin, timer)
    {
      hide ClearBit, Release;
      tim.ccr[idx] := 0;
      tim.PwmRelease(timer);
      pins[pin.port] := PortBits(ClearBit(pins[pin.port].bits, pin.num));
      cells[idx] := EMPTY;
    }

    method SetOutput(i: nat, values: seq<byte>) returns (err: Err)
      requires Valid() && i < POOL
      modifies this, tim.ccr
      ensures Valid()
      ensures (live, err) == SetOutputSpec(old(live), i, values)
      ensures Shape(old(Snapshot())) && Retuned(old(Snapshot()), Snapshot(), i, values, err)
    {
      hide Compute, ComputeCcr, HasBit, Agree, DividerOf;
      Lookups(Snapshot(), live, PwmLive(Pin(0, 0), 0, 1, 1, 0), i);
      if !cells[i].inUse {
        return InvalidSensorId;
      }
      if |values| < 2 {
        return MalformedPayload;
      }
      var duty := Read16(values, 0);
      if duty > DUTY_MAX {
        return InvalidParameter;
      }
      RetuneAgrees(Snapshot(), live, i, duty);
      var arr := tim.timers[cells[i].timer].arr;
      var ccr := ComputeCcr(arr, duty);
      tim.ccr[i] := ccr;
      live := live[i := live[i].(duty := duty)];
      err := Success;
    }

    method Stop(i: nat) returns (err: Err)
      requires Valid() && i < POOL
      modifies this, tim.timers, tim.ccr, cells, pins
      ensures Valid()
      ensures (live, err) == StopSpec(old(live), i)
      ensures Pulses(tim.timers[..]) == old(Pulses(tim.timers[..]))
      ensures tim.timers[..] == if err == Success then Release(old(tim.timers[..]), old(live)[i].timer) else old(tim.timers[..])
      ensures Shape(old(Snapshot())) && Shape(Snapshot()) && Halted(old(Snapshot()), Snapshot(), i, err)
    {
      hide HasBit, Agree, Release, ClearBit, Halted;
      Lookups(Snapshot(), live, PwmLive(Pin(0, 0), 0, 1, 1, 0), i);
      HaltedIs(Snapshot(), live, i);
      if !cells[i].inUse {
        return InvalidSensorId;
      }
      VacateAgrees(Snapshot(), live, i);
      Vacate(i, cells[i].pin, cells[i].timer);
      live := live - {i};
      err := Success;
    }
  }

  lemma EmptyAgrees(x: Tables)
    requires PoolOk(x.ts) && Shape(x)
    requires forall t :: 0 <= t < COUNT ==> x.ts[t] == FREE_TIMER
    requires forall i :: 0 <= i < POOL ==> x.ccr[i] == 0 && x.cells[i] == EMPTY
    requires forall i :: 0 <= i < |x.pins| ==> x.pins[i] == PortBits(0)
    ensures Agree(x, map[])
  {
    BlankBitmap(x.pins);
    assert PinsOf(map[]) == {};
    assert forall t :: 0 <= t < COUNT ==> OnTimer(map[], t) == {};
    hide PinsOk, Compute, ComputeCcr;
  }

  lemma AcquirePulses(ts: seq<Timer>, t: nat, freq: nat)
    requires PoolOk(ts)
    ensures Pulses(Acquire(ts, t, freq).0) == Pulses(ts)
    ensures Acquire(ts, t, freq).1 != Success ==> Acquire(ts, t, freq).0 == ts
  {
    hide Compute;
    if Acquire(ts, t, freq).1 == Success { ReleaseUndoesAcquire(ts, t, freq); }
  }

  lemma AcquireVerdict(x: Tables, live: Live, p: PwmLive)
    requires Agree(x, live) && GoodParams(p)
    ensures Shape(x)
    ensures Acquire(x.ts, p.timer, p.freq).1 ==
              if p.timer in Pulses(x.ts) then PeripheralBusy
              else if FreqClash(live, p) then PwmFreqConflict else Success
    ensures Acquire(x.ts, p.timer, p.freq).1 != Success ==> Acquire(x.ts, p.timer, p.freq).0 == x.ts
  {
    AcquireAgrees(x.ts, live, p);
    AgreeShape(x, live);
    AcquirePulses(x.ts, p.timer, p.freq);
  }
}
