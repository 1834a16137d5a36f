/** I2C slave driver (i2c_slave.c): the event and error interrupt handlers, proved to refine a
    plain register file with a cursor. */
module I2cSlave {
  import opened Wrappers
  import opened Modulo
  import opened Wire

  const REG_NONE: nat := 0
  const REG_16: nat := 2
  const INC_READ: nat := 1
  const INC_WRITE: nat := 2
  const INC_BOTH: nat := 3

  /** The part of the driver configuration the handlers look at. */
  datatype Cfg = Cfg(width: nat, inc: nat, wrap: bool, writable: bool)

  /** Clock, addressing mode (0: 7 bits, 1: 10 bits) and own addresses. */
  datatype BusCfg = BusCfg(clock: nat, mode: nat, primary: nat, secondary: nat)

  // cfg_valid
  predicate CfgOk(bus: BusCfg, c: Cfg, len: nat) {
    && len != 0 && bus.mode <= 1 && 0 < bus.clock <= 400_000
    && (if bus.mode == 0 then bus.primary <= 0x7F && bus.secondary <= 0x7F
        else 0 < bus.primary <= 0x3FF && bus.secondary == 0)
    && c.width <= REG_16 && c.inc <= INC_BOTH
  }

  datatype Phase = Idle | RxRegAddr | RxData | Tx

  /** One interrupt with the status flags it finds: address match (with direction), received
      byte, transmitter empty, stop; or any error interrupt. */
  datatype Irq =
    | Event(addr: Option<bool>, rxne: Option<byte>, txe: bool, stopf: bool)
    | Error

  function IncReads(c: Cfg): bool { c.inc == INC_READ || c.inc == INC_BOTH }

  function IncWrites(c: Cfg): bool { c.inc == INC_WRITE || c.inc == INC_BOTH }

  // ---------------------------------------------------------------- reference register file

  /** Registers, the register last selected, the accesses counted since, and the address
      bytes received so far in the current transaction. */
  datatype RegFile = RegFile(regs: seq<byte>, base: nat, steps: nat, addr: seq<byte>, phase: Phase)

  /** The register `k` counted accesses after `r` was selected. */
  function Cursor(r: nat, k: nat, len: nat, wrap: bool): nat {
    if r >= len then r
    else if wrap then (r + k) % len
    else if r + k < len then r + k else len - 1
  }

  function At(regs: seq<byte>, i: nat): byte {
    if i < |regs| then regs[i] else 0
  }

  function BigEndian(addr: seq<byte>): nat {
    if addr == [] then 0 else 256 * BigEndian(addr[..|addr| - 1]) + addr[|addr| - 1] as nat
  }

  function Here(c: Cfg, f: RegFile): nat {
    Cursor(f.base, f.steps, |f.regs|, c.wrap)
  }

  function OnAddr(c: Cfg, f: RegFile, addr: Option<bool>): RegFile {
    match addr
    case None => f
    case Some(true) => f.(phase := Tx)
    case Some(false) =>
      if c.width == REG_NONE then f.(base := 0, steps := 0, addr := [], phase := RxData)
      else f.(addr := [], phase := RxRegAddr)
  }

  function OnByte(c: Cfg, f: RegFile, b: byte): RegFile {
    match f.phase
    case RxRegAddr =>
      var a := f.addr + [b];
      if |a| >= (if c.width == REG_16 then 2 else 1)
      then f.(base := BigEndian(a), steps := 0, addr := a, phase := RxData)
      else f.(addr := a)
    case RxData =>
      if c.writable && Here(c, f) < |f.regs|
      then f.(regs := f.regs[Here(c, f) := b], steps := f.steps + if IncWrites(c) then 1 else 0)
      else f
    case _ => f
  }

  /** Loading the transmitter: the byte at the cursor, or 0 beyond the map. */
  function OnLoad(c: Cfg, f: RegFile): (RegFile, byte) {
    (f.(steps := f.steps + if IncReads(c) && Here(c, f) < |f.regs| then 1 else 0), At(f.regs, Here(c, f)))
  }

  /** One interrupt: the register file afterwards, and the byte loaded if any. */
  function Step(c: Cfg, f: RegFile, e: Irq): (RegFile, Option<byte>) {
    match e
    case Error => (f.(phase := Idle), None)
    case Event(addr, rxne, txe, stopf) =>
      var f1 := OnAddr(c, f, addr);
      var f2 := if rxne.Some? then OnByte(c, f1, rxne.value) else f1;
      var load := f2.phase == Tx && txe;
      var f3 := if load then OnLoad(c, f2).0 else f2;
      (if stopf then f3.(phase := Idle) else f3, if load then Some(OnLoad(c, f2).1) else None)
  }

  function Run(c: Cfg, f: RegFile, es: seq<Irq>): RegFile
    decreases |es|
  {
    if es == [] then f else Run(c, Step(c, f, es[0]).0, es[1..])
  }

  /** The bytes loaded during a run, in order. */
  function Loads(c: Cfg, f: RegFile, es: seq<Irq>): seq<byte>
    decreases |es|
  {
    if es == [] then []
    else
      var (g, out) := Step(c, f, es[0]);
      (if out.Some? then [out.value] else []) + Loads(c, g, es[1..])
  }

  // ---------------------------------------------------------------- reads

  /** No interrupt of the run starts a new register selection. */
  predicate NoSelection(es: seq<Irq>) {
    forall i :: 0 <= i < |es| && es[i].Event? ==> es[i].addr != Some(false)
  }

  /** The `i`-th byte served after register `r` was selected: increment modes 1 and 3 move on
      after each byte, the others do not. */
  function Served(c: Cfg, regs: seq<byte>, r: nat, i: nat): byte {
    if r >= |regs| then 0
    else if c.inc != 1 && c.inc != 3 then regs[r]
    else if c.wrap then regs[(r + i) % |regs|]
    else regs[if r + i < |regs| then r + i else |regs| - 1]
  }

  /** Number of loads so far, as the cursor counts them. */
  predicate Counted(c: Cfg, f: RegFile, r: nat, n: nat) {
    f.base == r && (r < |f.regs| ==> f.steps == if IncReads(c) then n else 0)
    && (r >= |f.regs| ==> f.steps == 0)
  }

  lemma CursorBounds(r: nat, k: nat, len: nat, wrap: bool)
    ensures r < len <==> Cursor(r, k, len, wrap) < len
    ensures r >= len ==> Cursor(r, k, len, wrap) == r
  {}

  lemma CursorStart(r: nat, len: nat, wrap: bool)
    ensures Cursor(r, 0, len, wrap) == r
  {
    if r < len && wrap {
      ModUnique(r, len, 0, r);
    }
  }

  lemma CursorServes(c: Cfg, f: RegFile, r: nat, n: nat)
    requires Counted(c, f, r, n)
    ensures At(f.regs, Here(c, f)) == Served(c, f.regs, r, n)
  {
    if !IncReads(c) {
      CursorStart(r, |f.regs|, c.wrap);
    }
  }

  /** The interrupt stores a received byte in the map. */
  predicate Stores(c: Cfg, f: RegFile, e: Irq) {
    e.Event? && e.rxne.Some? && OnAddr(c, f, e.addr).phase == RxData && c.writable && Here(c, f) < |f.regs|
  }

  /** No interrupt of the run stores a byte: writes are disabled, or miss the map, or none come. */
  predicate StoresNothing(c: Cfg, f: RegFile, es: seq<Irq>)
    decreases |es|
  {
    es == [] || (!Stores(c, f, es[0]) && StoresNothing(c, Step(c, f, es[0]).0, es[1..]))
  }

  /** One interrupt that selects and stores nothing keeps the registers, serves the next byte
      of the closed form, and counts it. */
  lemma OneInterrupt(c: Cfg, f: RegFile, r: nat, n: nat, e: Irq)
    requires f.phase != RxRegAddr && Counted(c, f, r, n) && !Stores(c, f, e)
    requires e.Event? ==> e.addr != Some(false)
    ensures var (g, out) := Step(c, f, e);
      && g.phase != RxRegAddr && g.regs == f.regs
      && Counted(c, g, r, if out.Some? then n + 1 else n)
      && (out.Some? ==> out.value == Served(c, f.regs, r, n))
  {
    hide Cursor, Served;
    CursorServes(c, f, r, n);
    CursorBounds(r, f.steps, |f.regs|, c.wrap);
  }

  /** The bytes loaded after a selection are the closed form of their position, on every device
      and for every sequence of interrupts that selects nothing new and stores nothing: reads may
      be split over transactions and mixed with stops, errors and ignored writes. */
  lemma {:induction false} ReadsFollowTheCursor(c: Cfg, f: RegFile, r: nat, n: nat, es: seq<Irq>)
    requires NoSelection(es) && StoresNothing(c, f, es) && f.phase != RxRegAddr && Counted(c, f, r, n)
    ensures Run(c, f, es).regs == f.regs
    ensures forall i :: 0 <= i < |Loads(c, f, es)| ==> Loads(c, f, es)[i] == Served(c, f.regs, r, n + i)
    decreases |es|
  {
    hide Cursor, Served, Step, Counted, Stores;
    if es == [] {
    } else {
      OneInterrupt(c, f, r, n, es[0]);
      var (g, out) := Step(c, f, es[0]);
      ReadsFollowTheCursor(c, g, r, if out.Some? then n + 1 else n, es[1..]);
    }
  }

  /** Writes that are disabled, or a bus that sends no byte, store nothing. */
  lemma {:induction false} NothingToStore(c: Cfg, f: RegFile, es: seq<Irq>)
    requires !c.writable || forall i :: 0 <= i < |es| && es[i].Event? ==> es[i].rxne == None
    ensures StoresNothing(c, f, es)
    decreases |es|
  {
    hide Step, Cursor;
    if es == [] {
    } else {
      NothingToStore(c, Step(c, f, es[0]).0, es[1..]);
    }
  }

  // ---------------------------------------------------------------- reads and writes mixed

  /** What the DUT does to the map: a byte loaded for it, or a byte stored by it. */
  datatype Access = Load(b: byte) | Store(b: byte)

  function AccessOf(c: Cfg, f: RegFile, e: Irq): Option<Access> {
    if Stores(c, f, e) then Some(Store(e.rxne.value))
    else
      var out := Step(c, f, e).1;
      if out.Some? then Some(Load(out.value)) else None
  }

  /** The accesses of a run, in order. */
  function Accesses(c: Cfg, f: RegFile, es: seq<Irq>): seq<Access>
    decreases |es|
  {
    if es == [] then []
    else
      var a := AccessOf(c, f, es[0]);
      (if a.Some? then [a.value] else []) + Accesses(c, Step(c, f, es[0]).0, es[1..])
  }

  /** By how far an access moves the cursor. */
  function Move(c: Cfg, a: Access): nat {
    if a.Load? then (if IncReads(c) then 1 else 0) else if IncWrites(c) then 1 else 0
  }

  function Moved(c: Cfg, acc: seq<Access>): nat
    decreases |acc|
  {
    if acc == [] then 0 else Move(c, acc[0]) + Moved(c, acc[1..])
  }

  /** The map after one access `k` counted accesses past register `r`: a store lands at the cursor. */
  function Effect(c: Cfg, regs: seq<byte>, r: nat, k: nat, a: Access): (m: seq<byte>)
    requires r < |regs|
    ensures |m| == |regs|
  {
    CursorBounds(r, k, |regs|, c.wrap);
    if a.Store? then regs[Cursor(r, k, |regs|, c.wrap) := a.b] else regs
  }

  /** The map after all of them. */
  function MapAfter(c: Cfg, regs: seq<byte>, r: nat, k: nat, acc: seq<Access>): (m: seq<byte>)
    requires r < |regs|
    ensures |m| == |regs|
    decreases |acc|
  {
    if acc == [] then regs
    else MapAfter(c, Effect(c, regs, r, k, acc[0]), r, k + Move(c, acc[0]), acc[1..])
  }

  /** A register file between selections: register `r` selected, `k` accesses counted. */
  predicate Selected(f: RegFile, r: nat, k: nat) {
    f.base == r && f.steps == k && f.phase != RxRegAddr && r < |f.regs|
  }

  lemma OneAccess(c: Cfg, f: RegFile, r: nat, k: nat, e: Irq)
    requires Selected(f, r, k) && (e.Event? ==> e.addr != Some(false))
    ensures var (g, out) := Step(c, f, e);
      var i := Cursor(r, k, |f.regs|, c.wrap);
      && i < |f.regs|
      && match AccessOf(c, f, e)
         case None => Selected(g, r, k) && g.regs == f.regs && out == None
         case Some(Load(b)) => Selected(g, r, k + Move(c, Load(b))) && g.regs == f.regs && out == Some(b) && b == f.regs[i]
         case Some(Store(b)) => Selected(g, r, k + Move(c, Store(b))) && g.regs == f.regs[i := b] && out == None
    ensures AccessOf(c, f, e).Some? ==> Step(c, f, e).0.regs == Effect(c, f.regs, r, k, AccessOf(c, f, e).value)
  {
    hide Cursor;
    CursorBounds(r, k, |f.regs|, c.wrap);
  }

  /** Every run without a new selection, reads and stores mixed at will: the cursor is as many
      counted loads and stores past the selected register, and the map is the stores applied at
      their cursors. */
  lemma {:induction false} AccessesMoveTheCursor(c: Cfg, f: RegFile, r: nat, k: nat, es: seq<Irq>)
    requires NoSelection(es) && Selected(f, r, k)
    ensures var acc, g := Accesses(c, f, es), Run(c, f, es);
      Selected(g, r, k + Moved(c, acc)) && g.regs == MapAfter(c, f.regs, r, k, acc)
    decreases |es|
  {
    hide Cursor, Step, AccessOf, Move, Effect;
    if es == [] {
    } else {
      OneAccess(c, f, r, k, es[0]);
      var a, g := AccessOf(c, f, es[0]), Step(c, f, es[0]).0;
      var rest := Accesses(c, g, es[1..]);
      if a.None? {
        assert Accesses(c, f, es) == rest;
        AccessesMoveTheCursor(c, g, r, k, es[1..]);
      } else {
        AccessesMoveTheCursor(c, g, r, k + Move(c, a.value), es[1..]);
        OneMoreAccess(c, f.regs, r, k, a.value, rest);
      }
    }
  }

  /** Access `i`, if it is a load, loads the map of that moment at the cursor of that moment. */
  predicate SeesMap(c: Cfg, regs: seq<byte>, r: nat, k: nat, acc: seq<Access>, i: nat)
    requires r < |regs| && i < |acc|
  {
    var at := Cursor(r, k + Moved(c, acc[..i]), |regs|, c.wrap);
    acc[i].Load? ==> at < |regs| && acc[i].b == MapAfter(c, regs, r, k, acc[..i])[at]
  }

  lemma SeesFirst(c: Cfg, regs: seq<byte>, r: nat, k: nat, acc: seq<Access>)
    requires r < |regs| && acc != []
    requires var at := Cursor(r, k, |regs|, c.wrap); acc[0].Load? ==> at < |regs| && acc[0].b == regs[at]
    ensures SeesMap(c, regs, r, k, acc, 0)
  {
    assert acc[..0] == [];
  }

  lemma SeesLater(c: Cfg, regs: seq<byte>, regs': seq<byte>, r: nat, k: nat, a: Access, rest: seq<Access>, i: nat)
    requires r < |regs| == |regs'| && i < |rest| && SeesMap(c, regs', r, k + Move(c, a), rest, i)
    requires regs' == Effect(c, regs, r, k, a)
    ensures SeesMap(c, regs, r, k, [a] + rest, i + 1)
  {
    hide Cursor, Move, Effect;
    assert ([a] + rest)[..i + 1] == [a] + rest[..i];
    OneMoreAccess(c, regs, r, k, a, rest[..i]);
  }

  /** Each byte loaded on the way is the map of that moment at the cursor, so reads see the
      writes before them. */
  lemma {:induction false} LoadsSeeTheMap(c: Cfg, f: RegFile, r: nat, k: nat, es: seq<Irq>, i: nat)
    requires NoSelection(es) && Selected(f, r, k) && i < |Accesses(c, f, es)|
    ensures SeesMap(c, f.regs, r, k, Accesses(c, f, es), i)
    decreases |es|
  {
    hide Cursor, Step, AccessOf, Move, SeesMap, Moved, MapAfter, Effect;
    OneAccess(c, f, r, k, es[0]);
    var a, g := AccessOf(c, f, es[0]), Step(c, f, es[0]).0;
    var rest := Accesses(c, g, es[1..]);
    if a.None? {
      assert Accesses(c, f, es) == rest;
      LoadsSeeTheMap(c, g, r, k, es[1..], i);
    } else if i == 0 {
      SeesFirst(c, f.regs, r, k, Accesses(c, f, es));
    } else {
      LoadsSeeTheMap(c, g, r, k + Move(c, a.value), es[1..], i - 1);
      SeesLater(c, f.regs, g.regs, r, k, a.value, rest, i - 1);
    }
  }

  /** The loads among the accesses are the bytes loaded. */
  function LoadedOf(acc: seq<Access>): seq<byte>
    decreases |acc|
  {
    if acc == [] then [] else (if acc[0].Load? then [acc[0].b] else []) + LoadedOf(acc[1..])
  }

  lemma {:induction false} LoadsAreAccesses(c: Cfg, f: RegFile, r: nat, k: nat, es: seq<Irq>)
    requires NoSelection(es) && Selected(f, r, k)
    ensures LoadedOf(Accesses(c, f, es)) == Loads(c, f, es)
    decreases |es|
  {
    hide Cursor, Step, AccessOf, Move;
    if es == [] {
    } else {
      OneAccess(c, f, r, k, es[0]);
      var a, g := AccessOf(c, f, es[0]), Step(c, f, es[0]).0;
      var rest := Accesses(c, g, es[1..]);
      LoadsAreAccesses(c, g, r, if a.Some? then k + Move(c, a.value) else k, es[1..]);
      if a.Some? {
        assert ([a.value] + rest)[0] == a.value && ([a.value] + rest)[1..] == rest;
      } else {
        assert Accesses(c, f, es) == rest;
      }
    }
  }

  /** Beyond the map every byte loaded is 0 and nothing is stored, in any run. */
  lemma {:induction false} BeyondTheMap(c: Cfg, f: RegFile, es: seq<Irq>)
    requires NoSelection(es) && f.phase != RxRegAddr && f.base >= |f.regs|
    ensures Run(c, f, es).regs == f.regs
    ensures forall b :: b in Loads(c, f, es) ==> b == 0
    decreases |es|
  {
    if es == [] {
    } else {
      BeyondTheMap(c, Step(c, f, es[0]).0, es[1..]);
    }
  }

  lemma OneMoreMove(c: Cfg, a: Access, rest: seq<Access>)
    ensures Moved(c, [a] + rest) == Move(c, a) + Moved(c, rest)
  {
    hide Move;
    assert ([a] + rest)[0] == a && ([a] + rest)[1..] == rest;
  }

  lemma OneMoreAccess(c: Cfg, regs: seq<byte>, r: nat, k: nat, a: Access, rest: seq<Access>)
    requires r < |regs|
    ensures Moved(c, [a] + rest) == Move(c, a) + Moved(c, rest)
    ensures MapAfter(c, regs, r, k, [a] + rest) == MapAfter(c, Effect(c, regs, r, k, a), r, k + Move(c, a), rest)
  {
    hide Cursor, Move, Moved, Effect;
    OneMoreMove(c, a, rest);
    var acc := [a] + rest;
    assert acc[0] == a && acc[1..] == rest;
  }

  // ---------------------------------------------------------------- selecting a register

  function Select(): Irq { Event(Some(false), None, false, false) }

  function Byte(b: byte): Irq { Event(None, Some(b), false, false) }

  function Received(bytes: seq<byte>): seq<Irq> {
    seq(|bytes|, i requires 0 <= i < |bytes| => Byte(bytes[i]))
  }

  lemma {:induction false} RunConcat(c: Cfg, f: RegFile, s: seq<Irq>, t: seq<Irq>)
    ensures Run(c, f, s + t) == Run(c, Run(c, f, s), t)
    ensures Loads(c, f, s + t) == Loads(c, f, s) + Loads(c, Run(c, f, s), t)
    decreases |s|
  {
    if s == [] {
      assert s + t == t;
    } else {
      assert (s + t)[0] == s[0] && (s + t)[1..] == s[1..] + t;
      RunConcat(c, Step(c, f, s[0]).0, s[1..], t);
    }
  }

  /** An address phase from any state selects the big-endian register number. */
  lemma SelectionWorks(c: Cfg, f: RegFile, bytes: seq<byte>)
    requires c.width <= REG_16 && |bytes| == c.width
    ensures var g := Run(c, f, [Select()] + Received(bytes));
      g.base == BigEndian(bytes) && g.steps == 0 && g.phase == RxData && g.regs == f.regs
    ensures Loads(c, f, [Select()] + Received(bytes)) == []
  {
    hide Cursor;
    var es := [Select()] + Received(bytes);
    var f1 := Step(c, f, es[0]).0;
    assert es[1..] == Received(bytes);
    if c.width == 0 {
      assert bytes == [];
    } else if c.width == 1 {
      assert bytes == [bytes[0]] && [] + [bytes[0]] == bytes;
      assert Received(bytes)[0] == Byte(bytes[0]) && Received(bytes)[1..] == [];
      var f2 := Step(c, f1, Byte(bytes[0])).0;
      assert f2 == f1.(base := BigEndian(bytes), steps := 0, addr := bytes, phase := RxData);
      assert Run(c, f1, Received(bytes)) == Run(c, f2, Received(bytes)[1..]);
      assert Loads(c, f1, Received(bytes)) == Loads(c, f2, Received(bytes)[1..]);
    } else {
      assert bytes == [bytes[0], bytes[1]] && [] + [bytes[0]] == [bytes[0]];
      assert [bytes[0]] + [bytes[1]] == bytes;
      var rest := Received(bytes)[1..];
      assert Received(bytes)[0] == Byte(bytes[0]) && rest[0] == Byte(bytes[1]) && rest[1..] == [];
      var f2 := Step(c, f1, Byte(bytes[0])).0;
      assert f2 == f1.(addr := [bytes[0]]);
      var f3 := Step(c, f2, Byte(bytes[1])).0;
      assert f3 == f2.(base := BigEndian(bytes), steps := 0, addr := bytes, phase := RxData);
      assert Run(c, f1, Received(bytes)) == Run(c, f2, rest) == Run(c, f3, rest[1..]);
      assert Loads(c, f1, Received(bytes)) == Loads(c, f2, rest) == Loads(c, f3, rest[1..]);
    }
  }

  /** The whole read path on any device: select register r, then load any number of bytes. */
  lemma SelectThenRead(c: Cfg, f: RegFile, bytes: seq<byte>, es: seq<Irq>)
    requires c.width <= REG_16 && |bytes| == c.width && NoSelection(es)
    requires StoresNothing(c, Run(c, f, [Select()] + Received(bytes)), es)
    ensures var out := Loads(c, f, [Select()] + Received(bytes) + es);
      forall i :: 0 <= i < |out| ==> out[i] == Served(c, f.regs, BigEndian(bytes), i)
  {
    var sel := [Select()] + Received(bytes);
    SelectionWorks(c, f, bytes);
    RunConcat(c, f, sel, es);
    var g := Run(c, f, sel);
    ReadsFollowTheCursor(c, g, BigEndian(bytes), 0, es);
    assert Loads(c, f, sel + es) == Loads(c, g, es);
  }

  // ---------------------------------------------------------------- reads are served

  /** What each interrupt of a run puts on the bus. */
  function Outs(c: Cfg, f: RegFile, es: seq<Irq>): (outs: seq<Option<byte>>)
    ensures |outs| == |es|
    decreases |es|
  {
    if es == [] then [] else [Step(c, f, es[0]).1] + Outs(c, Step(c, f, es[0]).0, es[1..])
  }

  /** An interrupt inside a read: no address match, no stop, no error. */
  predicate Transmits(e: Irq) {
    e.Event? && e.addr == None && !e.stopf
  }

  /** How many of the first `i` interrupts find the transmitter empty. */
  function Empties(es: seq<Irq>, i: nat): nat
    requires i <= |es|
    decreases i
  {
    if i == 0 then 0
    else Empties(es, i - 1) + if es[i - 1].Event? && es[i - 1].txe then 1 else 0
  }

  lemma {:induction false} EmptiesFromFirst(es: seq<Irq>, i: nat)
    requires 1 <= i <= |es|
    ensures Empties(es, i) == (if es[0].Event? && es[0].txe then 1 else 0) + Empties(es[1..], i - 1)
    decreases i
  {
    if i > 1 {
      EmptiesFromFirst(es, i - 1);
      assert es[i - 1] == es[1..][i - 2];
    }
  }

  /** A byte for every interrupt that finds the transmitter empty, for no other, each the next one. */
  ghost predicate ReadOut(c: Cfg, regs: seq<byte>, r: nat, n: nat, es: seq<Irq>, outs: seq<Option<byte>>) {
    |outs| == |es| && forall i :: 0 <= i < |es| ==> ReadAt(c, regs, r, n, es, outs, i)
  }

  predicate ReadAt(c: Cfg, regs: seq<byte>, r: nat, n: nat, es: seq<Irq>, outs: seq<Option<byte>>, i: nat)
    requires i < |es| == |outs|
  {
    outs[i] == if es[i].Event? && es[i].txe then Some(Served(c, regs, r, n + Empties(es, i))) else None
  }

  /** While transmitting, each empty transmitter gets the next byte. */
  lemma {:induction false} TransmitServes(c: Cfg, f: RegFile, r: nat, n: nat, es: seq<Irq>)
    requires f.phase == Tx && Counted(c, f, r, n) && forall i :: 0 <= i < |es| ==> Transmits(es[i])
    ensures ReadOut(c, f.regs, r, n, es, Outs(c, f, es))
    ensures Run(c, f, es).regs == f.regs
    decreases |es|
  {
    hide Served, Cursor, Counted, ReadOut;
    if es == [] {
      assert ReadOut(c, f.regs, r, n, es, []) by { NothingRead(c, f.regs, r, n); }
    } else {
      assert Transmits(es[0]);
      LoadServes(c, f, r, n, es[0]);
      hide Step;
      var (g, out) := Step(c, f, es[0]);
      TransmitServes(c, g, r, if es[0].txe then n + 1 else n, es[1..]);
      FirstReadOut(c, f.regs, r, n, es, out, Outs(c, g, es[1..]));
    }
  }

  lemma NothingRead(c: Cfg, regs: seq<byte>, r: nat, n: nat)
    ensures ReadOut(c, regs, r, n, [], [])
  {}

  lemma FirstReadOut(c: Cfg, regs: seq<byte>, r: nat, n: nat, es: seq<Irq>, out: Option<byte>, rest: seq<Option<byte>>)
    requires es != [] && es[0].Event? && out == if es[0].txe then Some(Served(c, regs, r, n)) else None
    requires ReadOut(c, regs, r, if es[0].txe then n + 1 else n, es[1..], rest)
    ensures ReadOut(c, regs, r, n, es, [out] + rest)
  {
    hide ReadAt;
    forall i | 0 <= i < |es|
      ensures ReadAt(c, regs, r, n, es, [out] + rest, i)
    {
      if i == 0 { ReadFirst(c, regs, r, n, es, out, rest); } else { ReadLater(c, regs, r, n, es, out, rest, i); }
    }
  }

  lemma ReadFirst(c: Cfg, regs: seq<byte>, r: nat, n: nat, es: seq<Irq>, out: Option<byte>, rest: seq<Option<byte>>)
    requires es != [] && es[0].Event? && |es| == 1 + |rest| && out == if es[0].txe then Some(Served(c, regs, r, n)) else None
    ensures ReadAt(c, regs, r, n, es, [out] + rest, 0)
  {
    hide Served;
    assert Empties(es, 0) == 0;
  }

  lemma ReadLater(c: Cfg, regs: seq<byte>, r: nat, n: nat, es: seq<Irq>, out: Option<byte>, rest: seq<Option<byte>>, i: nat)
    requires es != [] && es[0].Event? && |es| == 1 + |rest| && 0 < i < |es|
    requires ReadAt(c, regs, r, if es[0].txe then n + 1 else n, es[1..], rest, i - 1)
    ensures ReadAt(c, regs, r, n, es, [out] + rest, i)
  {
    EmptiesFromFirst(es, i);
    hide Served, Empties;
    assert ([out] + rest)[i] == rest[i - 1] && es[i] == es[1..][i - 1];
  }

  lemma LoadServes(c: Cfg, f: RegFile, r: nat, n: nat, e: Irq)
    requires f.phase == Tx && Counted(c, f, r, n) && Transmits(e)
    ensures var (g, out) := Step(c, f, e);
      && g.phase == Tx && g.regs == f.regs && Counted(c, g, r, if e.txe then n + 1 else n)
      && out == if e.txe then Some(Served(c, f.regs, r, n)) else None
  {
    hide Cursor, Served;
    CursorServes(c, f, r, n);
    CursorBounds(r, f.steps, |f.regs|, c.wrap);
  }

  /** A read address match starts transmitting, whatever the device was doing: from then on every
      empty transmitter gets the next byte, until the next stop, error or address match. */
  lemma ReadMatchServes(c: Cfg, f: RegFile, r: nat, n: nat, es: seq<Irq>)
    requires Counted(c, f, r, n) && es != []
    requires es[0].Event? && es[0].addr == Some(true) && !es[0].stopf
    requires forall i :: 1 <= i < |es| ==> Transmits(es[i])
    ensures ReadOut(c, f.regs, r, n, es, Outs(c, f, es))
    ensures Run(c, f, es).regs == f.regs
  {
    var e := es[0].(addr := None);
    var g := f.(phase := Tx);
    var es' := [e] + es[1..];
    SameStep(c, f, g, es[0], e);
    assert es'[1..] == es[1..];
    assert Outs(c, f, es) == Outs(c, g, es') && Run(c, f, es) == Run(c, g, es') by { hide Step; }
    assert Counted(c, g, r, n);
    hide Step, Served, Run, Outs, Cursor, Counted;
    assert forall i :: 0 <= i < |es| ==> Transmits(es'[i]) && es'[i].txe == es[i].txe && es[i].Event?;
    TransmitServes(c, g, r, n, es');
    SameReadOut(c, f.regs, r, n, es, es', Outs(c, f, es));
  }

  lemma SameReadOut(c: Cfg, regs: seq<byte>, r: nat, n: nat, es: seq<Irq>, es': seq<Irq>, outs: seq<Option<byte>>)
    requires |es| == |es'| && ReadOut(c, regs, r, n, es', outs)
    requires forall k :: 0 <= k < |es| ==> es[k].Event? && es'[k].Event? && es[k].txe == es'[k].txe
    ensures ReadOut(c, regs, r, n, es, outs)
  {
    hide Served, Empties;
    forall i | 0 <= i < |es|
      ensures ReadAt(c, regs, r, n, es, outs, i)
    {
      assert ReadAt(c, regs, r, n, es', outs, i);
      SameEmpties(es, es', i);
    }
  }

  /** Outside a read nothing is put on the bus: after a stop or an error, and while the bus writes,
      until the next read address match. */
  lemma {:induction false} SilentOutsideReads(c: Cfg, f: RegFile, es: seq<Irq>)
    requires f.phase != Tx && forall i :: 0 <= i < |es| && es[i].Event? ==> es[i].addr != Some(true)
    ensures forall i :: 0 <= i < |es| ==> Outs(c, f, es)[i] == None
    decreases |es|
  {
    hide Cursor, BigEndian;
    if es == [] {
    } else {
      SilentOutsideReads(c, Step(c, f, es[0]).0, es[1..]);
    }
  }

  lemma {:induction false} OutsConcat(c: Cfg, f: RegFile, s: seq<Irq>, t: seq<Irq>)
    ensures Outs(c, f, s + t) == Outs(c, f, s) + Outs(c, Run(c, f, s), t)
    decreases |s|
  {
    hide Step;
    if s == [] {
      assert s + t == t;
    } else {
      assert (s + t)[0] == s[0] && (s + t)[1..] == s[1..] + t;
      OutsConcat(c, Step(c, f, s[0]).0, s[1..], t);
    }
  }

  /** The bytes loaded in a run are what its interrupts put on the bus. */
  lemma {:induction false} LoadsAreOuts(c: Cfg, f: RegFile, es: seq<Irq>)
    ensures Loads(c, f, es) == Somes(Outs(c, f, es))
    decreases |es|
  {
    hide Step;
    if es == [] {
    } else {
      var (g, out) := Step(c, f, es[0]);
      LoadsAreOuts(c, g, es[1..]);
      assert Outs(c, f, es)[1..] == Outs(c, g, es[1..]);
    }
  }

  function Somes(outs: seq<Option<byte>>): seq<byte>
    decreases |outs|
  {
    if outs == [] then [] else (if outs[0].Some? then [outs[0].value] else []) + Somes(outs[1..])
  }

  lemma SameStep(c: Cfg, f: RegFile, g: RegFile, e: Irq, e': Irq)
    requires e.Event? && e.addr == Some(true) && e' == e.(addr := None) && g == f.(phase := Tx)
    ensures Step(c, f, e) == Step(c, g, e')
  {}

  lemma {:induction false} SameEmpties(es: seq<Irq>, es': seq<Irq>, i: nat)
    requires i <= |es| == |es'|
    requires forall k :: 0 <= k < |es| ==> es[k].Event? && es'[k].Event? && es[k].txe == es'[k].txe
    ensures Empties(es, i) == Empties(es', i)
    decreases i
  {
    if i > 0 { SameEmpties(es, es', i - 1); }
  }

  // ---------------------------------------------------------------- writes

  /** The registers after `bytes` are written one by one from access `k` after selecting `r`. */
  function Written(c: Cfg, regs: seq<byte>, r: nat, k: nat, bytes: seq<byte>): seq<byte>
    decreases |bytes|
  {
    if bytes == [] || r >= |regs| then regs
    else
      var i := Cursor(r, k, |regs|, c.wrap);
      CursorBounds(r, k, |regs|, c.wrap);
      Written(c, regs[i := bytes[0]], r, if IncWrites(c) then k + 1 else k, bytes[1..])
  }

  lemma {:induction false} WritesFollowTheCursor(c: Cfg, f: RegFile, bytes: seq<byte>)
    requires f.phase == RxData
    ensures var g := Run(c, f, Received(bytes));
      && g.regs == (if c.writable then Written(c, f.regs, f.base, f.steps, bytes) else f.regs)
      && g.phase == RxData
    decreases |bytes|
  {
    var es := Received(bytes);
    if bytes == [] {
    } else {
      CursorBounds(f.base, f.steps, |f.regs|, c.wrap);
      assert es[0] == Byte(bytes[0]) && es[1..] == Received(bytes[1..]);
      WritesFollowTheCursor(c, Step(c, f, es[0]).0, bytes[1..]);
    }
  }

  /** Without wrap-around, a write burst that fits lands in consecutive registers. */
  lemma {:induction false} BurstLandsInPlace(c: Cfg, regs: seq<byte>, r: nat, k: nat, bytes: seq<byte>)
    requires (c.inc == 2 || c.inc == 3) && r + k + |bytes| <= |regs| && r < |regs|
    ensures Written(c, regs, r, k, bytes) == regs[..r + k] + bytes + regs[r + k + |bytes|..]
    decreases |bytes|
  {
    if bytes == [] {
    } else {
      InsideMap(r, k, |regs|, c.wrap);
      hide Cursor;
      var next := regs[r + k := bytes[0]];
      BurstLandsInPlace(c, next, r, k + 1, bytes[1..]);
      assert next[..r + (k + 1)] == regs[..r + k] + [bytes[0]];
      assert next[r + k + |bytes|..] == regs[r + k + |bytes|..];
      assert [bytes[0]] + bytes[1..] == bytes;
    }
  }

  lemma InsideMap(r: nat, k: nat, len: nat, wrap: bool)
    requires r + k < len
    ensures Cursor(r, k, len, wrap) == r + k
  {
    if wrap {
      ModUnique(r + k, len, 0, r + k);
    }
  }

  // ---------------------------------------------------------------- the driver object

  class Device {
    var initialized: bool
    var regmap: array?<byte>
    var regmapLen: nat
    var cfg: Cfg
    /** Clock, addressing mode and own addresses, as programmed. */
    var bus: BusCfg
    var phase: Phase
    var regPtr: nat
    var acc: nat
    var cnt: nat

    /** Where the current register was selected and how many accesses were counted since. */
    ghost var base: nat
    ghost var steps: nat
    ghost var addr: seq<byte>

    ghost predicate Live()
      reads this, regmap
    {
      && initialized && regmap != null && regmapLen == regmap.Length && 0 < regmapLen <= 0xFFFF
      && cfg.width <= REG_16 && cfg.inc <= INC_BOTH
      && regPtr <= 0xFFFF && regPtr == Cursor(base, steps, regmapLen, cfg.wrap)
      && (phase == RxRegAddr ==> cnt == |addr| < cfg.width && acc == BigEndian(addr))
    }

    ghost predicate Valid()
      reads this, regmap
    {
      if initialized then Live() else regmap == null && regmapLen == 0 && phase == Idle
    }

    /** The register file this device stands for. */
    ghost function View(): RegFile
      requires Live()
      reads this, regmap
    {
      RegFile(regmap[..], base, steps, addr, phase)
    }

    constructor ()
      ensures Valid() && !initialized
    {
      initialized, regmap, regmapLen, phase := false, null, 0, Idle;
    }

    method RegmapRead() returns (b: byte)
      requires Live()
      modifies this`regPtr, this`steps
      ensures Live()
      ensures (View(), b) == OnLoad(cfg, old(View()))
    {
      hide Cursor;
      CursorBounds(base, steps, regmapLen, cfg.wrap);
      if regPtr >= regmapLen {
        return 0;
      }
      b := regmap[regPtr];
      if cfg.inc == INC_READ || cfg.inc == INC_BOTH {
        CursorStep(base, steps, regmapLen, cfg.wrap);
        if regPtr + 1 < regmapLen {
          regPtr := regPtr + 1;
        } else if cfg.wrap {
          regPtr := 0;
        }
        steps := steps + 1;
      }
    }

    method RegmapWrite(b: byte)
      requires Live() && phase == RxData
      modifies this`regPtr, this`steps, regmap
      ensures Live()
      ensures View() == OnByte(cfg, old(View()), b)
    {
      hide Cursor;
      CursorBounds(base, steps, regmapLen, cfg.wrap);
      if !cfg.writable || regPtr >= regmapLen {
        return;
      }
      regmap[regPtr] := b;
      if cfg.inc == INC_WRITE || cfg.inc == INC_BOTH {
        CursorStep(base, steps, regmapLen, cfg.wrap);
        if regPtr + 1 < regmapLen {
          regPtr := regPtr + 1;
        } else if cfg.wrap {
          regPtr := 0;
        }
        steps := steps + 1;
      }
    }

    method OnAddress(tra: bool)
      requires Live()
      modifies this
      ensures Live() && unchanged(`regmap, `cfg, `bus, `regmapLen)
      ensures View() == OnAddr(cfg, old(View()), Some(tra))
    {
      hide Cursor, BigEndian;
      if tra {
        phase := Tx;
      } else {
        acc, cnt := 0, 0;
        addr := [];
        assert BigEndian([]) == 0 by { NoAddress(); }
        if cfg.width == REG_NONE {
          CursorStart(0, regmapLen, cfg.wrap);
          regPtr := 0;
          base, steps := 0, 0;
          phase := RxData;
        } else {
          phase := RxRegAddr;
        }
      }
    }

    method OnReceive(b: byte)
      requires Live()
      modifies this, regmap
      ensures Live() && unchanged(`regmap, `cfg, `bus, `regmapLen)
      ensures View() == OnByte(cfg, old(View()), b)
    {
      hide Cursor, BigEndian;
      if phase == RxRegAddr {
        var expected := if cfg.width == REG_16 then 2 else 1;
        assert (addr + [b])[..|addr|] == addr;
        acc := (acc * 256 + b as nat) % 0x1_0000;
        cnt := cnt + 1;
        AddressFits(addr, b);
        addr := addr + [b];
        if cnt >= expected {
          CursorStart(acc, regmapLen, cfg.wrap);
          regPtr := acc;
          base, steps := acc, 0;
          phase := RxData;
        }
      } else if phase == RxData {
        RegmapWrite(b);
      }
    }

    // ev_isr and er_isr
    method Interrupt(e: Irq) returns (out: Option<byte>)
      requires Live()
      modifies this, regmap
      ensures Live() && initialized && unchanged(`regmap, `cfg, `bus, `regmapLen)
      ensures (View(), out) == Step(cfg, old(View()), e)
      ensures out.Some? <==> e.Event? && e.txe && (e.addr == Some(true) || (e.addr == None && old(phase) == Tx))
      ensures e.Error? || e.stopf ==> phase == Idle
      ensures e.Event? && e.addr == Some(true) && !e.stopf ==> phase == Tx
    {
      hide Cursor, BigEndian;
      out := None;
      match e
      case Error =>
        phase := Idle;
      case Event(addrFlag, rxne, txe, stopf) =>
        if addrFlag.Some? {
          OnAddress(addrFlag.value);
        }
        if rxne.Some? {
          OnReceive(rxne.value);
        }
        if phase == Tx {
          if txe {
            var b := RegmapRead();
            out := Some(b);
          }
        }
        if stopf {
          phase := Idle;
        }
    }

    /** The interrupts of a whole run, one after the other. */
    method Feed(es: seq<Irq>) returns (outs: seq<Option<byte>>)
      requires Live()
      modifies this, regmap
      ensures Live() && unchanged(`regmap, `cfg, `bus, `regmapLen)
      ensures View() == Run(cfg, old(View()), es) && outs == Outs(cfg, old(View()), es)
    {
      hide Step, Cursor, BigEndian;
      outs := [];
      ghost var f := View();
      for i := 0 to |es|
        invariant Live() && unchanged(`regmap, `cfg, `bus, `regmapLen)
        invariant View() == Run(cfg, f, es[..i]) && outs == Outs(cfg, f, es[..i])
      {
        assert es[..i + 1] == es[..i] + [es[i]];
        RunConcat(cfg, f, es[..i], [es[i]]);
        OutsConcat(cfg, f, es[..i], [es[i]]);
        OneOut(cfg, View(), es[i]);
        var out := Interrupt(es[i]);
        outs := outs + [out];
      }
      assert es[..|es|] == es;
    }

    /** The DUT writes a register number, high byte first, matches the address again to read and
        empties the transmitter any number of times: each time it gets the next byte. */
    method SelectAndRead(bytes: seq<byte>, es: seq<Irq>) returns (outs: seq<Option<byte>>)
      requires Live() && |bytes| == cfg.width && es != []
      requires es[0].Event? && es[0].addr == Some(true) && !es[0].stopf
      requires forall i :: 1 <= i < |es| ==> Transmits(es[i])
      modifies this, regmap
      ensures Live() && unchanged(`regmap, `cfg, `bus, `regmapLen) && regmap[..] == old(regmap[..])
      ensures ReadOut(cfg, regmap[..], Named(bytes), 0, es, outs)
    {
      hide Cursor, Step, Run, Outs, BigEndian, ReadOut, Served;
      SelectionWorks(cfg, View(), bytes);
      NamedIs(bytes);
      var _ := Feed([Select()] + Received(bytes));
      ReadMatchServes(cfg, View(), Named(bytes), 0, es);
      outs := Feed(es);
    }

    /** The DUT writes a register number and then data bytes: they land at the cursor if writes are
        allowed, in consecutive registers if the cursor moves and they fit, and nowhere otherwise. */
    method SelectAndWrite(bytes: seq<byte>, data: seq<byte>) returns (outs: seq<Option<byte>>)
      requires Live() && |bytes| == cfg.width
      modifies this, regmap
      ensures Live() && unchanged(`regmap, `cfg, `bus, `regmapLen) && forall o :: o in outs ==> o == None
      ensures regmap[..] == if cfg.writable then Written(cfg, old(regmap[..]), Named(bytes), 0, data) else old(regmap[..])
      ensures var r, n := Named(bytes), |data|;
        cfg.writable && r < regmap.Length && r + n <= regmap.Length && (cfg.inc == 2 || cfg.inc == 3) ==>
          regmap[..] == old(regmap[..r]) + data + old(regmap[r + n..])
    {
      hide Cursor, Step, Run, Outs, BigEndian, Written;
      SelectionWorks(cfg, View(), bytes);
      NamedIs(bytes);
      var _ := Feed([Select()] + Received(bytes));
      ghost var map' := regmap[..];
      WritesFollowTheCursor(cfg, View(), data);
      SilentOutsideReads(cfg, View(), Received(data));
      if cfg.writable && (cfg.inc == 2 || cfg.inc == 3) && Named(bytes) < regmap.Length && Named(bytes) + |data| <= regmap.Length {
        BurstLandsInPlace(cfg, regmap[..], Named(bytes), 0, data);
        assert map'[..Named(bytes)] == regmap[..Named(bytes)];
      }
      outs := Feed(Received(data));
    }

    // i2c_slave_init: claims the peripheral for a caller-owned register map
    method Init(map': array<byte>, cfg': Cfg, bus': BusCfg) returns (err: Err)
      requires Valid() && map'.Length <= 0xFFFF
      modifies this
      ensures Valid()
      ensures err == if !CfgOk(bus', cfg', map'.Length) then InvalidParameter
                     else if old(initialized) then PeripheralBusy else Success
      ensures err != Success ==> unchanged(this)
      ensures err == Success ==> initialized && regmap == map' && cfg == cfg' && bus == bus' && View() == RegFile(map'[..], 0, 0, [], Idle)
    {
      hide Cursor, BigEndian, CfgOk;
      CfgBounds(bus', cfg', map'.Length);
      if !CfgOk(bus', cfg', map'.Length) {
        return InvalidParameter;
      }
      if initialized {
        return PeripheralBusy;
      }
      regmap, regmapLen, cfg, bus := map', map'.Length, cfg', bus';
      phase, regPtr, acc, cnt := Idle, 0, 0, 0;
      base, steps, addr := 0, 0, [];
      initialized := true;
      CursorStart(0, regmapLen, cfg.wrap);
      err := Success;
    }

    method Deinit()
      modifies this
      ensures Valid() && !initialized
    {
      initialized, regmap, regmapLen, phase := false, null, 0, Idle;
    }
  }

  lemma OneOut(c: Cfg, f: RegFile, e: Irq)
    ensures Run(c, f, [e]) == Step(c, f, e).0 && Outs(c, f, [e]) == [Step(c, f, e).1]
  {
    hide Step;
    assert [e][1..] == [];
  }

  /** The register number that address bytes name. */
  function Named(bytes: seq<byte>): nat {
    if |bytes| == 2 then 256 * bytes[0] as nat + bytes[1] as nat
    else if |bytes| == 1 then bytes[0] as nat
    else 0
  }

  lemma NamedIs(bytes: seq<byte>)
    requires |bytes| <= 2
    ensures BigEndian(bytes) == Named(bytes)
  {
    if |bytes| == 2 {
      assert bytes[..1] == [bytes[0]] && [bytes[0]][..0] == [];
    } else if |bytes| == 1 {
      assert bytes[..0] == [];
    }
  }

  lemma CfgBounds(bus: BusCfg, c: Cfg, len: nat)
    ensures CfgOk(bus, c, len) ==> len != 0 && c.width <= REG_16 && c.inc <= INC_BOTH
  {}

  /** One increment with the wrap or saturate rule moves the cursor one access on. */
  lemma CursorStep(r: nat, k: nat, len: nat, wrap: bool)
    requires r < len
    ensures var i := Cursor(r, k, len, wrap);
      Cursor(r, k + 1, len, wrap) == if i + 1 < len then i + 1 else if wrap then 0 else i
  {
    if wrap {
      ModStep(r + k, len);
    }
  }

  lemma NoAddress()
    ensures BigEndian([]) == 0
  {}

  /** At most two address bytes fit the 16-bit accumulator. */
  lemma AddressFits(addr: seq<byte>, b: byte)
    requires |addr| <= 1
    ensures BigEndian(addr) <= 0xFF && BigEndian(addr + [b]) == 256 * BigEndian(addr) + b as nat <= 0xFFFF
  {
    assert (addr + [b])[..|addr|] == addr;
    if |addr| == 1 {
      assert addr[..0] == [];
    }
  }
}
