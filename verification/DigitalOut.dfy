/** Digital-out backend (digital_out_sensor.c): eight pins driven by command, with pulses timed by
    a software timer or by a reserved hardware timer. The source tests the hardware-timer calls
    for zero, which is their success code; the model does the same. */
module DigitalOut {
  import opened Wrappers
  import opened Sensors
  import opened Wire
  import opened HwTimer

  const POOL: nat := 8
  const CFG_SIZE: nat := 8

  /** `timerMade`: a software timer has been created for the sensor; `revert`: the level a pulse
      falls back to; `level`: the level driven on the pin now. */
  datatype DigLive = DigLive(pin: Pin, hardware: bool, timer: nat, timerMade: bool, revert: nat, level: nat)

  type Live = map<nat, DigLive>

  datatype Request = Request(pin: Pin, level: nat, kind: nat, speed: nat, pull: nat, timerKind: nat, timer: nat)

  function Wanted(c: seq<byte>): Request
    requires |c| >= CFG_SIZE
  {
    Request(PinAt(c, 0), Read8(c, 2), Read8(c, 3), Read8(c, 4), Read8(c, 5), Read8(c, 6), Read8(c, 7))
  }

  predicate GoodRequest(r: Request) {
    && GoodPin(r.pin) && r.level <= 1 && r.kind <= 1 && r.speed <= 3 && r.pull <= 2 && r.timerKind <= 1
    && (r.timerKind == 1 ==> r.timer < COUNT)
  }

  ghost function PinsOf(live: Live): set<Pin> {
    set i | i in live :: live[i].pin
  }

  function FreeFrom(live: Live, i: nat): (k: nat)
    requires i <= POOL
    ensures i <= k <= POOL && (k < POOL ==> k !in live)
    ensures forall j :: i <= j < k ==> j in live
    decreases POOL - i
  {
    if i == POOL || i !in live then i else FreeFrom(live, i + 1)
  }

  /** The lowest free pool entry. */
  function FirstFree(live: Live): nat { FreeFrom(live, 0) }

  /** Checks before any resource is touched. */
  ghost function CfgErr(live: Live, c: seq<byte>): Err {
    if FirstFree(live) == POOL then OutOfResources
    else if |c| < CFG_SIZE then MalformedPayload
    else if !GoodRequest(Wanted(c)) then InvalidParameter
    else if Wanted(c).pin in PinsOf(live) then PinConflict
    else Success
  }

  function NewSensor(r: Request): DigLive {
    DigLive(r.pin, r.timerKind == 1, r.timer, false, 0, r.level)
  }

  /** The inverted test: reserving a free timer succeeds, which setup takes for a failure. */
  predicate Misread(ts: seq<Timer>, r: Request)
    requires |ts| == COUNT
  {
    r.timerKind == 1 && r.timer < COUNT && ts[r.timer].state == Free
  }

  function Reserved(ts: seq<Timer>, t: nat, token: nat): seq<Timer>
    requires t < |ts|
  {
    ts[t := Timer(Pulse, token, 0, 0, 0)]
  }

  /** Setup in one step: result and timer pool. */
  ghost function SetupSpec(live: Live, ts: seq<Timer>, table: Table, c: seq<byte>): (SetupResult<Live>, seq<Timer>)
    requires ValidTable(table) && |ts| == COUNT
  {
    if CfgErr(live, c) != Success then (Refused(live, table, CfgErr(live, c)), ts)
    else
      var i, r := FirstFree(live), Wanted(c);
      if Misread(ts, r) then (Refused(live, table, OutOfResources), Reserved(ts, r.timer, i))
      else
        var s := Admit(live, live[i := NewSensor(r)], table, ID_DIGITAL_OUT, i);
        (s, if s.err != Success && r.timerKind == 1 then PulseReleased(ts, i) else ts)
  }

  predicate HasPulse(ts: seq<Timer>, token: nat) { FirstPulse(ts, token, 0) < |ts| }

  lemma SetupAnswer(live: Live, ts: seq<Timer>, table: Table, c: seq<byte>)
    requires ValidTable(table) && PoolOk(ts)
    ensures SetupSpec(live, ts, table, c).0.err == Success <==>
              CfgErr(live, c) == Success && !Misread(ts, Wanted(c)) && |table.live| < SLOTS
  {
    if CfgErr(live, c) == Success { RegisterSucceeds(table, Entry(ID_DIGITAL_OUT, FirstFree(live))); }
  }

  /** Exactly when a setup that fails still changes the timer pool: a valid request for a free
      hardware timer always fails and keeps the timer; a valid request for a busy one, refused
      because the sensor table is full, frees a timer left behind under the same pool index. */
  lemma FailedSetupLeaks(live: Live, ts: seq<Timer>, table: Table, c: seq<byte>)
    requires ValidTable(table) && PoolOk(ts) && SetupSpec(live, ts, table, c).0.err != Success
    ensures SetupSpec(live, ts, table, c).0.live == live && SetupSpec(live, ts, table, c).0.table == table
    ensures SetupSpec(live, ts, table, c).1 != ts <==>
              && CfgErr(live, c) == Success && Wanted(c).timerKind == 1
              && (ts[Wanted(c).timer].state == Free || HasPulse(ts, FirstFree(live)))
  {
    if CfgErr(live, c) == Success {
      var i, r := FirstFree(live), Wanted(c);
      RegisterSucceeds(table, Entry(ID_DIGITAL_OUT, i));
      if Misread(ts, r) {
        assert Reserved(ts, r.timer, i)[r.timer] != ts[r.timer];
      } else if r.timerKind == 1 && HasPulse(ts, i) {
        var t := FirstPulse(ts, i, 0);
        assert PulseReleased(ts, i)[t].state == Free;
      }
    }
  }

  /** The smallest case: the very first command, a valid request for TIM3 with every timer free,
      is answered with an error and TIM3 stays reserved. */
  lemma FirstHardwareSetupLeaks()
    ensures var ts := seq(COUNT, _ => FREE_TIMER);
      var (s, ts') := SetupSpec(map[], ts, Table(map[], 1), [0, 0, 0, 0, 0, 0, 1, 1]);
      s.err == OutOfResources && s.live == map[] && ts[1].state == Free && ts'[1] == Timer(Pulse, 0, 0, 0, 0)
  {
    var c: seq<byte> := [0, 0, 0, 0, 0, 0, 1, 1];
    assert Wanted(c) == Request(Pin(0, 0), 0, 0, 0, 0, 1, 1);
    assert PinsOf(map[]) == {};
    assert CfgErr(map[], c) == Success;
  }

  // ---------------------------------------------------------------- output and stop

  /** Whether the RTOS can create a timer and accepts its start command. */
  datatype Env = Env(made: bool, started: bool)

  function MaxPulse(ts: seq<Timer>, token: nat): nat {
    var t := FirstPulse(ts, token, 0);
    if t == |ts| then 0 else if Wide(t) then 0xFFFF_FFFF else 0xFFFF
  }

  function SetOutputSpec(live: Live, ts: seq<Timer>, i: nat, v: seq<byte>, env: Env): (Live, Err) {
    if i !in live then (live, InvalidSensorId)
    else if |v| < 5 then (live, MalformedPayload)
    else
      var s, level, pulse := live[i], Read8(v, 0), Read32(v, 1);
      if level > 1 || (s.hardware && pulse > MaxPulse(ts, i)) then (live, InvalidParameter)
      else if pulse == 0 then (live[i := s.(level := level)], Success)
      else
        var s' := s.(level := level, revert := 1 - level);
        if s.hardware then (live[i := s'], Internal)
        else if !s.timerMade && !env.made then (live[i := s'], OutOfResources)
        else (live[i := s'.(timerMade := true)], if env.started then Success else Internal)
  }

  // revert_to_idle_level: a pulse is over
  function Expired(live: Live, i: nat): Live {
    if i in live then live[i := live[i].(level := live[i].revert)] else live
  }

  function StopSpec(live: Live, ts: seq<Timer>, i: nat): (Live, seq<Timer>, Err) {
    if i !in live then (live, ts, InvalidSensorId)
    else (live - {i}, if live[i].hardware then PulseReleased(ts, i) else ts, Success)
  }

  /** Pool entries and pins of live sensors are distinct. */
  ghost predicate DigInv(live: Live) {
    && (forall i :: i in live ==> i < POOL && GoodPin(live[i].pin))
    && (forall i, j :: i in live && j in live && i != j ==> live[i].pin != live[j].pin)
  }

  lemma SetupKeepsInv(live: Live, ts: seq<Timer>, table: Table, c: seq<byte>)
    requires DigInv(live) && ValidTable(table) && PoolOk(ts)
    ensures DigInv(SetupSpec(live, ts, table, c).0.live)
  {}

  lemma UpdateKeepsInv(live: Live, ts: seq<Timer>, i: nat, v: seq<byte>, env: Env)
    requires DigInv(live)
    ensures DigInv(SetOutputSpec(live, ts, i, v, env).0) && DigInv(StopSpec(live, ts, i).0) && DigInv(Expired(live, i))
  {
    hide MaxPulse, Read32;
  }

  /** No digital-out command touches a timer that runs PWM, or makes one run PWM. */
  ghost predicate SamePwm(ts: seq<Timer>, ts': seq<Timer>) {
    PoolOk(ts) && PoolOk(ts') && forall t :: 0 <= t < COUNT && (ts[t].state == Pwm || ts'[t].state == Pwm) ==> ts[t] == ts'[t]
  }

  lemma SetupSparesPwm(live: Live, ts: seq<Timer>, table: Table, c: seq<byte>)
    requires ValidTable(table) && PoolOk(ts)
    ensures SamePwm(ts, SetupSpec(live, ts, table, c).1)
  {
    ReleaseSparesPwm(ts, FirstFree(live));
  }

  lemma ReleaseSparesPwm(ts: seq<Timer>, token: nat)
    requires PoolOk(ts)
    ensures SamePwm(ts, PulseReleased(ts, token))
  {}

  lemma StopSparesPwm(live: Live, ts: seq<Timer>, i: nat)
    requires PoolOk(ts)
    ensures SamePwm(ts, StopSpec(live, ts, i).1)
  {
    ReleaseSparesPwm(ts, i);
  }

  // ---------------------------------------------------------------- tables

  datatype Cell = Cell(inUse: bool, pin: Pin, hardware: bool, timer: nat, timerMade: bool, revert: nat, level: nat)

  const EMPTY := Cell(false, Pin(0, 0), false, 0, false, 0, 0)

  function CellOf(s: DigLive): Cell {
    Cell(true, s.pin, s.hardware, s.timer, s.timerMade, s.revert, s.level)
  }

  ghost predicate CellsAgree(cells: seq<Cell>, live: Live) {
    && |cells| == POOL
    && (forall i :: 0 <= i < POOL ==> (cells[i].inUse <==> i in live) && (i in live ==> cells[i] == CellOf(live[i])))
  }

  ghost predicate Agree(cells: seq<Cell>, pins: seq<PortBits>, live: Live) {
    DigInv(live) && CellsAgree(cells, live) && BitmapIs(pins, PinsOf(live))
  }

  lemma PinsPlus(live: Live, i: nat, s: DigLive)
    requires i !in live && s.pin !in PinsOf(live)
    ensures PinsOf(live[i := s]) == PinsOf(live) + {s.pin}
    ensures live[i := s] - {i} == live
  {
    var after := live[i := s];
    assert forall j :: j in live ==> after[j] == live[j];
    assert after[i] == s;
  }

  lemma PinsMinus(live: Live, i: nat)
    requires DigInv(live) && i in live
    ensures PinsOf(live - {i}) == PinsOf(live) - {live[i].pin}
  {
    var after := live - {i};
    assert forall j :: j in live && j != i ==> j in after && after[j] == live[j];
  }

  lemma InvPlus(live: Live, i: nat, s: DigLive)
    requires DigInv(live) && i < POOL && i !in live && GoodPin(s.pin) && s.pin !in PinsOf(live)
    ensures DigInv(live[i := s])
  {}

  lemma AddAgrees(cells: seq<Cell>, pins: seq<PortBits>, live: Live, i: nat, s: DigLive)
    requires Agree(cells, pins, live) && i < POOL && i !in live && GoodPin(s.pin) && s.pin !in PinsOf(live)
    ensures |pins| == PORT_MAX + 1 && |cells| == POOL && Agree(cells[i := CellOf(s)], Marked(pins, s.pin), live[i := s])
  {
    hide Marked, HasBit, BitmapIs, DigInv;
    MarkPin(pins, PinsOf(live), s.pin);
    PinsPlus(live, i, s);
    InvPlus(live, i, s);
  }

  lemma RemoveAgrees(cells: seq<Cell>, pins: seq<PortBits>, live: Live, i: nat)
    requires Agree(cells, pins, live) && i in live
    ensures i < POOL == |cells| && |pins| == PORT_MAX + 1 && GoodPin(live[i].pin) && cells[i] == CellOf(live[i])
    ensures Agree(cells[i := EMPTY], Unmarked(pins, live[i].pin), live - {i})
  {
    hide Unmarked, HasBit, BitmapIs;
    MarkPin(pins, PinsOf(live), live[i].pin);
    PinsMinus(live, i);
  }

  /** What the code reads from its tables. */
  lemma Lookups(cells: seq<Cell>, pins: seq<PortBits>, live: Live, pin: Pin)
    requires Agree(cells, pins, live) && GoodPin(pin)
    ensures |pins| == PORT_MAX + 1 && |cells| == POOL
    ensures HasBit(pins[pin.port].bits, pin.num) <==> pin in PinsOf(live)
    ensures forall i :: 0 <= i < POOL ==> (cells[i].inUse <==> i in live) && (i in live ==> cells[i] == CellOf(live[i]))
  {
    hide HasBit, BitmapIs;
    MarkPin(pins, PinsOf(live), pin);
  }

  lemma UpdateAgrees(cells: seq<Cell>, pins: seq<PortBits>, live: Live, i: nat, s: DigLive)
    requires Agree(cells, pins, live) && i in live && s.pin == live[i].pin
    ensures i < |cells| && Agree(cells[i := CellOf(s)], pins, live[i := s])
  {
    hide BitmapIs;
    var after := live[i := s];
    assert forall j :: j in live ==> after[j].pin == live[j].pin;
    assert PinsOf(after) == PinsOf(live);
  }

  /** The pool entries in use, with their contents. */
  ghost function Held(cells: seq<Cell>): seq<Option<Cell>> {
    seq(|cells|, i requires 0 <= i < |cells| => if cells[i].inUse then Some(cells[i]) else None)
  }

  /** The live sensors determine the entries in use and the pin bitmap. */
  lemma HeldIsDetermined(cells: seq<Cell>, pins: seq<PortBits>, cells': seq<Cell>, pins': seq<PortBits>, live: Live)
    requires Agree(cells, pins, live) && Agree(cells', pins', live)
    ensures Held(cells) == Held(cells') && pins == pins'
  {
    hide BitmapIs, DigInv;
    SameBitmap(pins, pins', PinsOf(live));
  }

  lemma EntryIs(cells: seq<Cell>, pins: seq<PortBits>, live: Live, i: nat)
    requires Agree(cells, pins, live) && i in live
    ensures i < |cells| && cells[i] == CellOf(live[i])
  {
    hide BitmapIs;
  }

  lemma LiveInPool(cells: seq<Cell>, pins: seq<PortBits>, live: Live)
    requires Agree(cells, pins, live)
    ensures forall i :: i in live ==> i < POOL
  {}

  // ---------------------------------------------------------------- commands over payload bytes and tables

  /** Pool, pin bitmap and timer pool at one moment. */
  datatype Tables = Tables(cells: seq<Cell>, pins: seq<PortBits>, ts: seq<Timer>)

  predicate Shape(x: Tables) {
    |x.cells| == 8 && |x.pins| == 6 && |x.ts| == 7
  }

  /** The lowest pool entry from `i` on that is not in use, or 8. */
  function IdleFrom(cells: seq<Cell>, i: nat): nat
    requires i <= |cells| == 8
    decreases 8 - i
  {
    if i == 8 || !cells[i].inUse then i else IdleFrom(cells, i + 1)
  }

  /** Eight bytes with every field in range: port, pin, level, output type, speed, pull, timer kind,
      and the timer if the kind is hardware. */
  predicate FieldsOk(c: seq<byte>) {
    && |c| >= 8 && c[0] <= 5 && c[1] <= 15 && c[2] <= 1 && c[3] <= 1 && c[4] <= 3 && c[5] <= 2 && c[6] <= 1
    && (c[6] == 1 ==> c[7] <= 6)
  }

  /** The hardware timer asked for is free, so that reserving it succeeds. */
  predicate AsksFreeTimer(x: Tables, c: seq<byte>)
    requires Shape(x) && FieldsOk(c)
  {
    c[6] == 1 && x.ts[c[7]].state == Free
  }

  function Verdict(x: Tables, room: bool, c: seq<byte>): Err
    requires Shape(x)
  {
    if IdleFrom(x.cells, 0) == 8 then OutOfResources
    else if |c| < 8 then MalformedPayload
    else if !FieldsOk(c) then InvalidParameter
    else if HasBit(x.pins[c[0]].bits, c[1] as nat) then PinConflict
    else if AsksFreeTimer(x, c) || !room then OutOfResources
    else Success
  }

  /** The timers after a setup: a free one asked for stays reserved; giving up for want of a sensor
      slot frees whatever pulses under the pool entry. */
  function TimersAfter(x: Tables, c: seq<byte>, err: Err): seq<Timer>
    requires Shape(x)
  {
    var i := IdleFrom(x.cells, 0);
    if i == 8 || !FieldsOk(c) || HasBit(x.pins[c[0]].bits, c[1] as nat) then x.ts
    else if AsksFreeTimer(x, c) then x.ts[c[7] := Timer(Pulse, i, 0, 0, 0)]
    else if err != Success && c[6] == 1 then PulseReleased(x.ts, i)
    else x.ts
  }

  /** A setup over payload bytes and tables: its answer, the timers, and on success the lowest free
      entry with pin, timer and level of the block; any other answer leaves entries and pins alone. */
  ghost predicate SetUp(x: Tables, y: Tables, room: bool, c: seq<byte>, err: Err)
    requires Shape(x) && Shape(y)
  {
    var i := IdleFrom(x.cells, 0);
    && err == Verdict(x, room, c) && y.ts == TimersAfter(x, c, err)
    && if err == Success
       then && FieldsOk(c) && i < 8
            && Held(y.cells) == Held(x.cells)[i := Some(Cell(true, Pin(c[0] as nat, c[1] as nat), c[6] == 1, c[7] as nat, false, 0, c[2] as nat))]
            && (forall port, num :: 0 <= port <= 5 && 0 <= num <= 15 ==>
                  (HasBit(y.pins[port].bits, num) <==> (port == c[0] as nat && num == c[1] as nat) || HasBit(x.pins[port].bits, num)))
       else Held(y.cells) == Held(x.cells) && y.pins == x.pins
  }

  function PulseAt(v: seq<byte>): nat
    requires |v| >= 5
  {
    v[1] as nat + 0x100 * v[2] as nat + 0x1_0000 * v[3] as nat + 0x100_0000 * v[4] as nat
  }

  /** The longest pulse of the timer reserved for an entry: 32 bits for TIM2 and TIM5, 16 for the
      others, none without a timer. */
  function LongestPulse(ts: seq<Timer>, i: nat): nat
    requires |ts| == 7
  {
    var t := FirstPulse(ts, i, 0);
    if t == 7 then 0 else if t == 0 || t == 3 then 0xFFFF_FFFF else 0xFFFF
  }

  /** A SET_OUTPUT over payload bytes and the pool: a valid one drives the level at once, and with a
      pulse notes the opposite level to fall back to; no other entry changes. */
  ghost predicate Driven(x: Tables, cells: seq<Cell>, i: nat, v: seq<byte>, env: Env, err: Err)
    requires Shape(x) && i < 8
  {
    var s := x.cells[i];
    if !s.inUse then err == InvalidSensorId && Held(cells) == Held(x.cells)
    else if |v| < 5 then err == MalformedPayload && Held(cells) == Held(x.cells)
    else if v[0] > 1 || (s.hardware && PulseAt(v) > LongestPulse(x.ts, i)) then err == InvalidParameter && Held(cells) == Held(x.cells)
    else if PulseAt(v) == 0 then err == Success && Held(cells) == Held(x.cells)[i := Some(s.(level := v[0] as nat))]
    else
      var s' := s.(level := v[0] as nat, revert := 1 - v[0] as nat);
      if s.hardware then err == Internal && Held(cells) == Held(x.cells)[i := Some(s')]
      else if !s.timerMade && !env.made then err == OutOfResources && Held(cells) == Held(x.cells)[i := Some(s')]
      else err == (if env.started then Success else Internal) && Held(cells) == Held(x.cells)[i := Some(s'.(timerMade := true))]
  }

  /** A stop over the tables: entry and pin are given up, and the timer of a hardware sensor. */
  ghost predicate Halted(x: Tables, y: Tables, i: nat, err: Err)
    requires Shape(x) && Shape(y) && i < 8
  {
    if !x.cells[i].inUse then err == InvalidSensorId && Held(y.cells) == Held(x.cells) && y.pins == x.pins && y.ts == x.ts
    else && err == Success && Held(y.cells) == Held(x.cells)[i := None]
         && y.ts == (if x.cells[i].hardware then PulseReleased(x.ts, i) else x.ts)
         && (forall port, num :: 0 <= port <= 5 && 0 <= num <= 15 ==>
               (HasBit(y.pins[port].bits, num) <==> Pin(port, num) != x.cells[i].pin && HasBit(x.pins[port].bits, num)))
  }

  lemma FieldsAreWanted(c: seq<byte>)
    requires |c| >= CFG_SIZE
    ensures var r := Wanted(c);
      && (FieldsOk(c) <==> GoodRequest(r)) && r.pin == Pin(c[0] as nat, c[1] as nat) && r.level == c[2] as nat
      && (r.timerKind == 1 <==> c[6] == 1) && r.timer == c[7] as nat
  {}

  lemma {:induction false} IdleIsFree(cells: seq<Cell>, live: Live, i: nat)
    requires |cells| == POOL && i <= POOL && forall k :: 0 <= k < POOL ==> (cells[k].inUse <==> k in live)
    ensures IdleFrom(cells, i) == FreeFrom(live, i)
    decreases POOL - i
  {
    if i < POOL { IdleIsFree(cells, live, i + 1); }
  }

  lemma AgreeShape(x: Tables, live: Live)
    requires Agree(x.cells, x.pins, live) && PoolOk(x.ts)
    ensures Shape(x) && IdleFrom(x.cells, 0) == FirstFree(live)
  {
    hide HasBit;
    IdleIsFree(x.cells, live, 0);
  }

  lemma VerdictIs(x: Tables, live: Live, table: Table, c: seq<byte>)
    requires Agree(x.cells, x.pins, live) && PoolOk(x.ts) && ValidTable(table)
    ensures Shape(x)
    ensures var (r, ts) := SetupSpec(live, x.ts, table, c);
      r.err == Verdict(x, |table.live| < 8, c) && ts == TimersAfter(x, c, r.err)
  {
    hide Agree, HasBit, PulseReleased, FreeFrom, PinsOf, IdleFrom, PoolOk, GoodRequest;
    AgreeShape(x, live);
    if |c| >= CFG_SIZE {
      FieldsAreWanted(c);
      if FieldsOk(c) {
        Lookups(x.cells, x.pins, live, Pin(c[0] as nat, c[1] as nat));
        RegisterSucceeds(table, Entry(ID_DIGITAL_OUT, FirstFree(live)));
        hide NextId, Wanted, FieldsOk;
      }
    } else {
      assert !FieldsOk(c);
    }
  }

  lemma LiveAfter(live: Live, ts: seq<Timer>, table: Table, c: seq<byte>)
    requires ValidTable(table) && |ts| == COUNT
    ensures var r := SetupSpec(live, ts, table, c).0;
      if r.err != Success then r.live == live
      else && |c| >= CFG_SIZE && GoodRequest(Wanted(c)) && FirstFree(live) < POOL && Wanted(c).pin !in PinsOf(live)
           && r.live == live[FirstFree(live) := NewSensor(Wanted(c))]
  {
    hide GoodRequest, Wanted, FreeFrom, PinsOf;
  }

  /** The reference setup, read as a contract over bytes and tables. */
  lemma SetUpIs(x: Tables, live: Live, table: Table, c: seq<byte>, y: Tables, r: SetupResult<Live>)
    requires Agree(x.cells, x.pins, live) && PoolOk(x.ts) && ValidTable(table)
    requires (r, y.ts) == SetupSpec(live, x.ts, table, c) && Agree(y.cells, y.pins, r.live) && PoolOk(y.ts)
    ensures Shape(x) && Shape(y) && SetUp(x, y, |table.live| < 8, c, r.err)
  {
    AgreeShape(x, live);
    AgreeShape(y, r.live);
    VerdictIs(x, live, table, c);
    LiveAfter(live, x.ts, table, c);
    hide Agree, HasBit, SetupSpec, Verdict, TimersAfter, PoolOk, Held, FreeFrom, IdleFrom, PinsOf;
    if r.err == Success {
      FieldsAreWanted(c);
      PlusOne(x, live, FirstFree(live), NewSensor(Wanted(c)), y);
    } else {
      HeldIsDetermined(x.cells, x.pins, y.cells, y.pins, live);
    }
  }

  /** The reference SET_OUTPUT, read as a contract over bytes and the pool. */
  lemma DrivenIs(x: Tables, live: Live, i: nat, v: seq<byte>, env: Env, y: Tables)
    requires Agree(x.cells, x.pins, live) && PoolOk(x.ts) && i < POOL
    requires Agree(y.cells, y.pins, SetOutputSpec(live, x.ts, i, v, env).0)
    ensures Shape(x) && Driven(x, y.cells, i, v, env, SetOutputSpec(live, x.ts, i, v, env).1)
  {
    hide Agree, PoolOk, HasBit, MaxPulse, LongestPulse, Read32, PulseAt, Held, Driven, SetOutputSpec;
    AgreeShape(x, live);
    Lookups(x.cells, x.pins, live, Pin(0, 0));
    if |v| >= 5 { PulseRead(x.ts, i, v); }
    if i !in live || |v| < 5 || v[0] > 1 || (live[i].hardware && PulseAt(v) > LongestPulse(x.ts, i)) {
      Objected(x, live, i, v, env, y);
    } else {
      var s := NextLive(live[i], v[0] as nat, PulseAt(v), env);
      Accepted(live, x.ts, i, v, env);
      Replaced(x.cells, x.pins, live, i, s, y.cells, y.pins);
      DrivenAs(x, live[i], i, v, env, y.cells);
    }
  }

  /** A sensor after an accepted level and pulse. */
  function NextLive(s: DigLive, level: nat, pulse: nat, env: Env): DigLive
    requires level <= 1
  {
    s.(level := level, revert := if pulse == 0 then s.revert else 1 - level,
       timerMade := s.timerMade || (pulse != 0 && !s.hardware && env.made))
  }

  function NextErr(s: DigLive, pulse: nat, env: Env): Err {
    if pulse == 0 then Success
    else if s.hardware then Internal
    else if !s.timerMade && !env.made then OutOfResources
    else if env.started then Success else Internal
  }

  lemma Objected(x: Tables, live: Live, i: nat, v: seq<byte>, env: Env, y: Tables)
    requires Agree(x.cells, x.pins, live) && PoolOk(x.ts) && Shape(x) && i < POOL
    requires Agree(y.cells, y.pins, SetOutputSpec(live, x.ts, i, v, env).0)
    requires i !in live || |v| < 5 || v[0] > 1 || (live[i].hardware && PulseAt(v) > LongestPulse(x.ts, i))
    ensures Driven(x, y.cells, i, v, env, SetOutputSpec(live, x.ts, i, v, env).1)
  {
    hide Agree, PoolOk, HasBit, MaxPulse, LongestPulse, Read32, PulseAt, Held;
    Lookups(x.cells, x.pins, live, Pin(0, 0));
    if |v| >= 5 { PulseRead(x.ts, i, v); }
    HeldIsDetermined(x.cells, x.pins, y.cells, y.pins, live);
  }

  lemma Accepted(live: Live, ts: seq<Timer>, i: nat, v: seq<byte>, env: Env)
    requires PoolOk(ts) && |ts| == 7 && i in live && |v| >= 5 && v[0] <= 1 && (live[i].hardware ==> PulseAt(v) <= LongestPulse(ts, i))
    ensures SetOutputSpec(live, ts, i, v, env) ==
              (live[i := NextLive(live[i], v[0] as nat, PulseAt(v), env)], NextErr(live[i], PulseAt(v), env))
  {
    hide PoolOk, MaxPulse, LongestPulse, Read32, PulseAt;
    PulseRead(ts, i, v);
  }

  lemma DrivenAs(x: Tables, s: DigLive, i: nat, v: seq<byte>, env: Env, cells: seq<Cell>)
    requires Shape(x) && i < 8 && x.cells[i] == CellOf(s) && |v| >= 5 && v[0] <= 1
    requires s.hardware ==> PulseAt(v) <= LongestPulse(x.ts, i)
    requires i < |Held(x.cells)| && Held(cells) == Held(x.cells)[i := Some(CellOf(NextLive(s, v[0] as nat, PulseAt(v), env)))]
    ensures Driven(x, cells, i, v, env, NextErr(s, PulseAt(v), env))
  {
    hide LongestPulse, PulseAt, Held;
  }

  lemma Replaced(cells: seq<Cell>, pins: seq<PortBits>, live: Live, i: nat, s: DigLive, cells': seq<Cell>, pins': seq<PortBits>)
    requires Agree(cells, pins, live) && i in live && i < POOL && Agree(cells', pins', live[i := s])
    ensures i < |Held(cells)| && Held(cells') == Held(cells)[i := Some(CellOf(s))]
  {
    hide BitmapIs, DigInv;
    assert forall k :: 0 <= k < POOL && k != i ==> (k in live[i := s] <==> k in live);
  }

  /** The reference stop, read as a contract over the tables. */
  lemma StopIs(x: Tables, live: Live, i: nat, y: Tables)
    requires Agree(x.cells, x.pins, live) && PoolOk(x.ts) && PoolOk(y.ts) && i < POOL
    requires Agree(y.cells, y.pins, StopSpec(live, x.ts, i).0) && y.ts == StopSpec(live, x.ts, i).1
    ensures Shape(x) && Shape(y)
    ensures Halted(x, y, i, StopSpec(live, x.ts, i).2)
  {
    AgreeShape(x, live);
    AgreeShape(y, StopSpec(live, x.ts, i).0);
    hide Agree, PoolOk, HasBit, PulseReleased, Held;
    Lookups(x.cells, x.pins, live, Pin(0, 0));
    if i in live {
      MinusOne(x, live, i, y);
    } else {
      HeldIsDetermined(x.cells, x.pins, y.cells, y.pins, live);
    }
  }

  lemma PulseRead(ts: seq<Timer>, i: nat, v: seq<byte>)
    requires PoolOk(ts) && |v| >= 5
    ensures Read32(v, 1) == PulseAt(v) && |ts| == 7 && MaxPulse(ts, i) == LongestPulse(ts, i)
  {}

  /** Entries and pins with one sensor more. */
  lemma PlusOne(x: Tables, live: Live, i: nat, s: DigLive, y: Tables)
    requires Agree(x.cells, x.pins, live) && i < POOL && i !in live && GoodPin(s.pin) && s.pin !in PinsOf(live)
    requires Agree(y.cells, y.pins, live[i := s])
    ensures |x.pins| == |y.pins| == 6 && |x.cells| == 8 && Held(y.cells) == Held(x.cells)[i := Some(CellOf(s))]
    ensures forall port, num :: 0 <= port <= 5 && 0 <= num <= 15 ==>
              (HasBit(y.pins[port].bits, num) <==> (port == s.pin.port && num == s.pin.num) || HasBit(x.pins[port].bits, num))
  {
    hide HasBit, DigInv;
    AddAgrees(x.cells, x.pins, live, i, s);
    PinsPlus(live, i, s);
    assert forall k :: 0 <= k < POOL && k != i ==> (k in live[i := s] <==> k in live);
    assert Held(y.cells) == Held(x.cells)[i := Some(CellOf(s))];
    assert s.pin == Pin(s.pin.port, s.pin.num);
  }

  /** Entries and pins with one sensor less. */
  lemma MinusOne(x: Tables, live: Live, i: nat, y: Tables)
    requires Agree(x.cells, x.pins, live) && i in live && i < POOL && Agree(y.cells, y.pins, live - {i})
    ensures |x.pins| == |y.pins| == 6 && |x.cells| == 8 && x.cells[i] == CellOf(live[i]) && Held(y.cells) == Held(x.cells)[i := None]
    ensures forall port, num :: 0 <= port <= 5 && 0 <= num <= 15 ==>
              (HasBit(y.pins[port].bits, num) <==> Pin(port, num) != live[i].pin && HasBit(x.pins[port].bits, num))
  {
    hide HasBit;
    PinsMinus(live, i);
    assert Held(y.cells) == Held(x.cells)[i := None];
  }

  class DigitalBackend {
    const mgr: SensorManager
    const tim: TimerPool
    const cells: array<Cell>
    const pins: array<PortBits>

    ghost var live: Live

    ghost predicate Private()
      reads this, cells, pins
    {
      Agree(cells[..], pins[..], live)
    }

    ghost predicate Own()
      reads this, tim, tim.timers, cells, pins
    {
      tim.Valid() && Private()
    }

    ghost predicate Valid()
      reads this, mgr, mgr.slots, tim, tim.timers, cells, pins
    {
      mgr.Valid() && Own()
    }

    constructor (mgr: SensorManager, tim: TimerPool)
      requires mgr.Valid() && tim.Valid()
      ensures Valid() && this.mgr == mgr && this.tim == tim && live == map[]
      ensures fresh(cells) && fresh(pins)
    {
      hide Holds, ValidTable;
      this.mgr, this.tim := mgr, tim;
      cells := new Cell[POOL](_ => EMPTY);
      pins := new PortBits[PORT_MAX + 1](_ => PortBits(0));
      live := map[];
      new;
      BlankBitmap(pins[..]);
      assert PinsOf(map[]) == {};
      hide HasBit;
    }

    method AllocSlot() returns (i: nat)
      requires Valid()
      ensures i == FirstFree(live)
    {
      hide BitmapIs;
      i := 0;
      while i < POOL
        invariant i <= POOL && FreeFrom(live, i) == FirstFree(live)
      {
        if !cells[i].inUse {
          return;
        }
        i := i + 1;
      }
    }

    ghost function Snapshot(): Tables
      reads tim.timers, cells, pins
    {
      Tables(cells[..], pins[..], tim.timers[..])
    }

    lemma ValidParts()
      requires Valid()
      ensures Agree(cells[..], pins[..], live) && PoolOk(tim.timers[..]) && ValidTable(mgr.View()) && Shape(Snapshot())
    {
      hide HasBit;
    }

    // digital_out_sensor_setup
    method Setup(cfg: seq<byte>) returns (err: Err, id: nat)
      requires Valid()
      modifies this, mgr, mgr.slots, tim.timers, cells, pins
      ensures Valid()
      ensures (SetupResult(live, mgr.View(), err, id), tim.timers[..]) == old(SetupSpec(live, tim.timers[..], mgr.View(), cfg))
      ensures SlotsMoved(old(mgr.slots[..]), mgr.slots[..], id)
      ensures Shape(old(Snapshot())) && Shape(Snapshot()) && SetUp(old(Snapshot()), Snapshot(), |old(mgr.View()).live| < 8, cfg, err)
    {
      hide Agree, PoolOk, SetupSpec, SetUp, Valid, SensorManager.View, ValidTable;
      ValidParts();
      ghost var x, before, table := Snapshot(), live, mgr.View();
      err, id := Stages(cfg);
      ValidParts();
      SetUpIs(x, before, table, cfg, Snapshot(), SetupResult(live, mgr.View(), err, id));
    }

    /** The stages of a setup, with their rollback. */
    method Stages(cfg: seq<byte>) returns (err: Err, id: nat)
      requires Valid()
      modifies this, mgr, mgr.slots, tim.timers, cells, pins
      ensures Valid()
      ensures (SetupResult(live, mgr.View(), err, id), tim.timers[..]) == old(SetupSpec(live, tim.timers[..], mgr.View(), cfg))
      ensures SlotsMoved(old(mgr.slots[..]), mgr.slots[..], id)
    {
      hide Holds, NextId, Matches, Taken, HasBit, FreeFrom, Agree, PulseReleased;
      id := 0;
      var i := AllocSlot();
      if i == POOL {
        return OutOfResources, id;
      }
      if |cfg| < CFG_SIZE {
        return MalformedPayload, id;
      }
      var r := Wanted(cfg);
      if !GoodRequest(r) {
        return InvalidParameter, id;
      }
      Lookups(cells[..], pins[..], live, r.pin);
      if HasBit(pins[r.pin.port].bits, r.pin.num) {
        return PinConflict, id;
      }
      if r.timerKind == 1 {
        var taken := tim.PulseAcquire(r.timer, i);
        if taken == Success {
          // A zero return is taken for a failure.
          assert Misread(old(tim.timers[..]), r);
          return OutOfResources, id;
        }
      }
      err, id := Commit(i, r);
    }

    /** Pin, pool entry and registration of an accepted request. */
    method Commit(i: nat, r: Request) returns (err: Err, id: nat)
      requires Valid() && i < POOL && i !in live && GoodPin(r.pin) && r.pin !in PinsOf(live)
      modifies this, mgr, mgr.slots, tim.timers, cells, pins
      ensures Valid()
      ensures SetupResult(live, mgr.View(), err, id) == old(Admit(live, live[i := NewSensor(r)], mgr.View(), ID_DIGITAL_OUT, i))
      ensures SlotsMoved(old(mgr.slots[..]), mgr.slots[..], id)
      ensures tim.timers[..] == if err != Success && r.timerKind == 1 then PulseReleased(old(tim.timers[..]), i) else old(tim.timers[..])
    {
      hide Holds, NextId, Matches, Taken, Agree, PoolOk, PulseReleased;
      PinsPlus(live, i, NewSensor(r));
      Take(i, NewSensor(r));
      RegisterSucceeds(mgr.View(), Entry(ID_DIGITAL_OUT, i));
      id := mgr.Register(ID_DIGITAL_OUT, i);
      if id != 0 {
        return Success, id;
      }
      if r.timerKind == 1 {
        tim.PulseRelease(i);
      }
      Drop(i);
      return OutOfResources, id;
    }

    /** Marks the pin and fills the pool entry. */
    method Take(i: nat, s: DigLive)
      requires Agree(cells[..], pins[..], live) && i < POOL && i !in live && GoodPin(s.pin) && s.pin !in PinsOf(live)
      modifies this`live, cells, pins
      ensures Agree(cells[..], pins[..], live) && live == old(live)[i := s]
    {
      hide Agree, SetBit;
      AddAgrees(cells[..], pins[..], live, i, s);
      pins[s.pin.port] := PortBits(SetBit(pins[s.pin.port].bits, s.pin.num));
      cells[i] := CellOf(s);
      live := live[i := s];
    }

    /** Frees the pin and clears the pool entry. */
    method Drop(i: nat)
      requires Agree(cells[..], pins[..], live) && i in live
      modifies this`live, cells, pins
      ensures Agree(cells[..], pins[..], live) && live == old(live) - {i}
    {
      hide Agree, ClearBit;
      RemoveAgrees(cells[..], pins[..], live, i);
      var pin := cells[i].pin;
      pins[pin.port] := PortBits(ClearBit(pins[pin.port].bits, pin.num));
      cells[i] := EMPTY;
      live := live - {i};
    }

    // hw_timer_pulse_max_us
    method PulseMax(i: nat) returns (max: nat)
      requires Valid()
      ensures max == MaxPulse(tim.timers[..], i)
    {
      hide Agree, Holds, PoolOk;
      var t := tim.FindPulse(i);
      max := if t == tim.timers.Length then 0 else if Wide(t) then 0xFFFF_FFFF else 0xFFFF;
    }

    // hw_timer_pulse_start, up to the registers it programs
    method PulseStart(i: nat, pulse: nat) returns (err: Err)
      requires Valid()
      ensures err == if 0 < pulse <= MaxPulse(tim.timers[..], i) then Success else InvalidParameter
    {
      hide Agree, Holds, PoolOk;
      var t := tim.FindPulse(i);
      if t == tim.timers.Length {
        return InvalidParameter;
      }
      var max := PulseMax(i);
      if pulse == 0 || pulse > max {
        return InvalidParameter;
      }
      return Success;
    }

    // digital_out_sensor_set_output
    method SetOutput(i: nat, values: seq<byte>, env: Env) returns (err: Err)
      requires Valid() && i < POOL
      modifies this`live, cells
      ensures Valid()
      ensures (live, err) == SetOutputSpec(old(live), tim.timers[..], i, values, env)
      ensures Shape(old(Snapshot())) && Driven(old(Snapshot()), cells[..], i, values, env, err)
    {
      hide Agree, PoolOk, HasBit, SetOutputSpec, Driven, Valid, Held;
      ValidParts();
      ghost var x, before := Snapshot(), live;
      err := Checks(i, values, env);
      ValidParts();
      DrivenIs(x, before, i, values, env, Snapshot());
    }

    /** The checks of a SET_OUTPUT, then the pin. */
    method Checks(i: nat, values: seq<byte>, env: Env) returns (err: Err)
      requires Valid() && i < POOL
      modifies this`live, cells
      ensures Valid()
      ensures (live, err) == SetOutputSpec(old(live), tim.timers[..], i, values, env)
    {
      hide Agree, Holds, PoolOk, HasBit, MaxPulse, BitmapIs, Read32, Held, ValidTable;
      Lookups(cells[..], pins[..], live, Pin(0, 0));
      if !cells[i].inUse {
        return InvalidSensorId;
      }
      if |values| < 5 {
        return MalformedPayload;
      }
      var level, pulse := Read8(values, 0), Read32(values, 1);
      if level > 1 {
        return InvalidParameter;
      }
      if cells[i].hardware {
        var max := PulseMax(i);
        if pulse > max {
          return InvalidParameter;
        }
      }
      err := Drive(i, level, pulse, env);
    }

    /** Drives an accepted level, and starts the pulse if one is asked for. */
    method Drive(i: nat, level: nat, pulse: nat, env: Env) returns (err: Err)
      requires Valid() && i in live && i < POOL && level <= 1
      requires live[i].hardware ==> pulse <= MaxPulse(tim.timers[..], i)
      modifies this`live, cells
      ensures Valid()
      ensures err == if pulse == 0 then Success else if old(live)[i].hardware then Internal
                     else if !old(live)[i].timerMade && !env.made then OutOfResources else if env.started then Success else Internal
      ensures var s, c := old(live)[i], old(cells[i]);
        var revert := if pulse == 0 then s.revert else 1 - level;
        var made := s.timerMade || (pulse != 0 && !s.hardware && env.made);
        && live == old(live)[i := s.(level := level, revert := revert, timerMade := made)]
        && c == CellOf(s) && cells[..] == old(cells[..])[i := c.(level := level, revert := revert, timerMade := made)]
    {
      hide Agree, Holds, PoolOk, HasBit, MaxPulse;
      Lookups(cells[..], pins[..], live, Pin(0, 0));
      if pulse == 0 {
        Keep(i, level, cells[i].revert, cells[i].timerMade);
        return Success;
      }
      if cells[i].hardware {
        Keep(i, level, 1 - level, cells[i].timerMade);
        var started := PulseStart(i, pulse);
        // A zero return is taken for a failure.
        return if started == Success then Internal else Success;
      }
      if !cells[i].timerMade && !env.made {
        Keep(i, level, 1 - level, cells[i].timerMade);
        return OutOfResources;
      }
      Keep(i, level, 1 - level, true);
      return if env.started then Success else Internal;
    }

    /** Drives the pin, and notes the level to fall back to and whether a software timer exists. */
    method Keep(i: nat, level: nat, revert: nat, made: bool)
      requires Agree(cells[..], pins[..], live) && i in live
      modifies this`live, cells
      ensures Agree(cells[..], pins[..], live)
      ensures live == old(live)[i := old(live)[i].(level := level, revert := revert, timerMade := made)]
      ensures i < cells.Length && cells[..] == old(cells[..])[i := old(cells[i]).(level := level, revert := revert, timerMade := made)]
    {
      hide Agree;
      ghost var s := live[i].(level := level, revert := revert, timerMade := made);
      EntryIs(cells[..], pins[..], live, i);
      UpdateAgrees(cells[..], pins[..], live, i, s);
      cells[i] := cells[i].(level := level, revert := revert, timerMade := made);
      live := live[i := s];
    }

    /** A pulse timer has run out: the pin falls back; a stale expiry does nothing. */
    method Expire(i: nat)
      requires Valid()
      modifies this`live, cells
      ensures Valid() && live == Expired(old(live), i)
      ensures cells[..] == if i < 8 && old(cells[..])[i].inUse then old(cells[..])[i := old(cells[i]).(level := old(cells[i]).revert)]
                           else old(cells[..])
    {
      hide Agree, Holds, PoolOk, HasBit;
      Lookups(cells[..], pins[..], live, Pin(0, 0));
      LiveInPool(cells[..], pins[..], live);
      if i >= POOL {
        return;
      }
      if !cells[i].inUse {
        return;
      }
      EntryIs(cells[..], pins[..], live, i);
      Keep(i, cells[i].revert, cells[i].revert, cells[i].timerMade);
    }

    method Stop(i: nat) returns (err: Err)
      requires Valid() && i < POOL
      modifies this`live, tim.timers, cells, pins
      ensures Valid()
      ensures (live, tim.timers[..], err) == StopSpec(old(live), old(tim.timers[..]), i)
      ensures Shape(old(Snapshot())) && Shape(Snapshot()) && Halted(old(Snapshot()), Snapshot(), i, err)
    {
      hide Agree, PoolOk, Valid, HasBit, PulseReleased, Held;
      ValidParts();
      ghost var x, before := Snapshot(), live;
      Lookups(cells[..], pins[..], live, Pin(0, 0));
      err := StopStages(i);
      ValidParts();
      if err == Success {
        MinusOne(x, before, i, Snapshot());
      }
    }

    method StopStages(i: nat) returns (err: Err)
      requires Valid() && i < POOL
      modifies this`live, tim.timers, cells, pins
      ensures Valid()
      ensures (live, tim.timers[..], err) == StopSpec(old(live), old(tim.timers[..]), i)
      ensures err != Success ==> Snapshot() == old(Snapshot())
    {
      hide Agree, Holds, PoolOk, HasBit, PulseReleased;
      Lookups(cells[..], pins[..], live, Pin(0, 0));
      if !cells[i].inUse {
        return InvalidSensorId;
      }
      if cells[i].hardware {
        tim.PulseRelease(i);
      }
      Drop(i);
      err := Success;
    }
  }
}
