/** SPI peripherals: the claim table (spi.c), and what master init/deinit (spi_master.c) and the
    slave driver (spi_slave.c) do with it. */
module Spi {
  import opened Wrappers
  import opened Modulo
  import opened Wire

  const PERIPHS: nat := 2
  const MODE_MAX: nat := 3
  const TX_MAX: nat := 64

  datatype Role = Master | Slave

  /** The slave's circular transmit buffer and the next position to load. */
  datatype Tx = Tx(data: seq<byte>, idx: nat)

  /** One peripheral: who claimed it, whether the master driver is up, the slave driver's buffer
      if it is up. */
  datatype Port = Port(owner: Option<Role>, master: bool, slave: Option<Tx>)

  const IDLE := Port(None, false, None)
  const MASTERED := Port(Some(Master), true, None)

  /** Drivers and claims agree: a peripheral is idle, a master, or a slave. */
  predicate Consistent(x: Port) {
    x == IDLE || x == MASTERED || (x.owner == Some(Slave) && !x.master && x.slave.Some?)
  }

  predicate PortsOk(v: seq<Port>) {
    |v| == PERIPHS && forall p :: 0 <= p < PERIPHS ==> Consistent(v[p])
  }

  /** The peripherals run by the slave driver, with their buffers. */
  ghost function SlavesOf(v: seq<Port>): map<nat, Tx> {
    map p: nat | p < |v| && v[p].owner == Some(Slave) && v[p].slave.Some? :: v[p].slave.value
  }

  /** The peripherals claimed by the master driver. */
  ghost function MastersOf(v: seq<Port>): set<nat> {
    set p: nat | p < |v| && v[p].owner == Some(Master)
  }

  /** Claims and buffers determine the ports. */
  lemma SamePort(v: seq<Port>, w: seq<Port>)
    requires PortsOk(v) && PortsOk(w) && MastersOf(v) == MastersOf(w) && SlavesOf(v) == SlavesOf(w)
    ensures v == w
  {
    forall p | 0 <= p < PERIPHS
      ensures v[p] == w[p]
    {
      assert p in MastersOf(v) <==> p in MastersOf(w);
      assert p in SlavesOf(v) <==> p in SlavesOf(w);
      assert p in SlavesOf(v) ==> SlavesOf(v)[p] == SlavesOf(w)[p];
    }
  }

  function MasterInitErr(x: Port, clock: nat, mode: nat): Err {
    if clock == 0 || mode > MODE_MAX then InvalidParameter
    else if x.owner.Some? then PeripheralBusy
    else Success
  }

  function SlaveInitErr(x: Port, mode: nat): Err {
    if mode > MODE_MAX then InvalidParameter else if x.owner.Some? then PeripheralBusy else Success
  }

  /** Loading a buffer preloads its first byte, so the next one is loaded first. */
  function Loaded(data: seq<byte>): Tx {
    Tx(data, if |data| > 1 then 1 else 0)
  }

  /** What bringing the slave driver up leaves in its buffer: nothing, unless it was up already. */
  function Rewound(t: Option<Tx>): Tx {
    Tx(if t.Some? then t.value.data else [], 0)
  }

  /** The byte the transmit-empty interrupt loads, and the buffer afterwards. */
  function NextByte(t: Tx): (byte, Tx) {
    if t.idx < |t.data| then (t.data[t.idx], t.(idx := if t.idx + 1 >= |t.data| then 0 else t.idx + 1))
    else (0, t)
  }

  /** The bytes the next `n` interrupts load. */
  function Clocked(t: Tx, n: nat): (r: seq<byte>)
    ensures |r| == n
    decreases n
  {
    if n == 0 then [] else [NextByte(t).0] + Clocked(NextByte(t).1, n - 1)
  }

  /** `i` is position `c` of the buffer, counted round and round. */
  predicate AtTurn(i: nat, c: nat, n: nat)
    requires n > 0
  {
    i == c % n
  }

  lemma NextTurn(i: nat, c: nat, n: nat)
    requires n > 0 && AtTurn(i, c, n)
    ensures i < n && AtTurn(if i + 1 >= n then 0 else i + 1, c + 1, n)
  {
    ModStep(c, n);
  }

  lemma {:induction false} ClockedAt(t: Tx, c: nat, n: nat, k: nat)
    requires |t.data| > 0 && AtTurn(t.idx, c, |t.data|) && k < n
    ensures exists i :: 0 <= i < |t.data| && AtTurn(i, c + k, |t.data|) && Clocked(t, n)[k] == t.data[i]
    decreases n
  {
    hide AtTurn;
    NextTurn(t.idx, c, |t.data|);
    if k == 0 {
      assert Clocked(t, n)[0] == t.data[t.idx];
    } else {
      var u := NextByte(t).1;
      ClockedAt(u, c + 1, n - 1, k - 1);
      assert Clocked(t, n)[k] == Clocked(u, n - 1)[k - 1];
      assert (c + 1) + (k - 1) == c + k;
    }
  }

  /** After a buffer is loaded, the preloaded byte and the bytes loaded by interrupts run
      through the buffer in order, over and over. */
  lemma BufferRepeats(data: seq<byte>, n: nat)
    requires |data| > 0
    ensures var out := [data[0]] + Clocked(Loaded(data), n);
      forall k :: 0 <= k < |out| ==> out[k] == data[k % |data|]
  {
    NextTurn(0, 0, |data|);
    var out := [data[0]] + Clocked(Loaded(data), n);
    forall k | 0 < k < |out|
      ensures out[k] == data[k % |data|]
    {
      ClockedAt(Loaded(data), 1, n, k - 1);
      assert out[k] == Clocked(Loaded(data), n)[k - 1];
      assert 1 + (k - 1) == k;
    }
  }

  // ---------------------------------------------------------------- the drivers

  datatype Claim = Claim(inUse: bool, role: Role)

  /** The slave driver's state, with its fixed transmit buffer. */
  datatype SlaveState = SlaveState(on: bool, buf: seq<byte>, len: nat, idx: nat)

  class SpiDriver {
    const claims: array<Claim>
    const masterOn: array<bool>
    const slaves: array<SlaveState>

    ghost predicate Valid()
      reads this, slaves
    {
      && claims.Length == masterOn.Length == slaves.Length == PERIPHS
      && (forall p :: 0 <= p < PERIPHS ==>
            && slaves[p].len <= |slaves[p].buf| == TX_MAX
            && (if slaves[p].len == 0 then slaves[p].idx == 0 else slaves[p].idx < slaves[p].len)
            && (!slaves[p].on ==> slaves[p].len == 0))
    }

    ghost function PortOf(p: nat): Port
      requires Valid() && p < PERIPHS
      reads this, claims, masterOn, slaves
    {
      Port(if claims[p].inUse then Some(claims[p].role) else None,
           masterOn[p],
           if slaves[p].on then Some(Tx(slaves[p].buf[..slaves[p].len], slaves[p].idx)) else None)
    }

    ghost function View(): (v: seq<Port>)
      requires Valid()
      reads this, claims, masterOn, slaves
      ensures |v| == PERIPHS
    {
      [PortOf(0), PortOf(1)]
    }

    constructor ()
      ensures Valid() && View() == [IDLE, IDLE]
      ensures fresh(claims) && fresh(masterOn) && fresh(slaves)
    {
      claims := new Claim[PERIPHS](_ => Claim(false, Master));
      masterOn := new bool[PERIPHS](_ => false);
      slaves := new SlaveState[PERIPHS](_ => SlaveState(false, seq(TX_MAX, _ => 0), 0, 0));
    }

    // spi_claim
    method Acquire(p: nat, role: Role) returns (err: Err)
      requires Valid() && p < PERIPHS
      modifies claims
      ensures err == if old(View())[p].owner.Some? then PeripheralBusy else Success
      ensures View() == if err == Success then old(View())[p := old(View())[p].(owner := Some(role))] else old(View())
    {
      if claims[p].inUse {
        return PeripheralBusy;
      }
      claims[p] := Claim(true, role);
      return Success;
    }

    // spi_release: unconditional
    method Release(p: nat)
      requires Valid() && p < PERIPHS
      modifies claims
      ensures View() == old(View())[p := old(View())[p].(owner := None)]
    {
      claims[p] := claims[p].(inUse := false);
      assert View()[p] == old(View())[p].(owner := None);
    }

    // spi_master_init
    method MasterInit(p: nat, clock: nat, mode: nat) returns (err: Err)
      requires Valid() && p < PERIPHS
      modifies claims, masterOn
      ensures err == MasterInitErr(old(View())[p], clock, mode)
      ensures View() == if err == Success then old(View())[p := old(View())[p].(owner := Some(Master), master := true)] else old(View())
    {
      if clock == 0 || mode > MODE_MAX {
        return InvalidParameter;
      }
      err := Acquire(p, Master);
      if err != Success {
        return;
      }
      assert View()[1 - p] == old(View())[1 - p] && View()[p] == old(View())[p].(owner := Some(Master));
      masterOn[p] := true;
      assert View()[p] == old(View())[p].(owner := Some(Master), master := true);
    }

    // spi_master_deinit
    method MasterDeinit(p: nat)
      requires Valid() && p < PERIPHS
      modifies claims, masterOn
      ensures View() == old(View())[p := old(View())[p].(owner := None, master := false)]
    {
      masterOn[p] := false;
      Release(p);
    }

    // spi_slave_init: the buffer is whatever the driver still holds, from its start
    method SlaveInit(p: nat, mode: nat) returns (err: Err)
      requires Valid() && p < PERIPHS
      modifies claims, slaves
      ensures Valid()
      ensures err == SlaveInitErr(old(View())[p], mode)
      ensures View() == if err == Success
                        then old(View())[p := old(View())[p].(owner := Some(Slave), slave := Some(Rewound(old(View())[p].slave)))]
                        else old(View())
    {
      if mode > MODE_MAX {
        return InvalidParameter;
      }
      err := Acquire(p, Slave);
      if err != Success {
        return;
      }
      assert View()[1 - p] == old(View())[1 - p] && View()[p] == old(View())[p].(owner := Some(Slave));
      slaves[p] := slaves[p].(idx := 0, on := true);
      assert View()[p] == old(View())[p].(owner := Some(Slave), slave := Some(Rewound(old(View())[p].slave)));
    }

    // spi_slave_deinit
    method SlaveDeinit(p: nat)
      requires Valid() && p < PERIPHS
      modifies claims, slaves
      ensures Valid()
      ensures View() == old(View())[p := old(View())[p].(owner := None, slave := None)]
    {
      slaves[p] := slaves[p].(on := false, len := 0, idx := 0);
      Release(p);
      assert View()[p] == old(View())[p].(owner := None, slave := None);
    }

    // spi_slave_set_tx: copies the first `len` bytes into the driver's buffer
    method SlaveSetTx(p: nat, data: seq<byte>, len: nat) returns (err: Err)
      requires Valid() && p < PERIPHS && len <= |data|
      modifies slaves
      ensures Valid()
      ensures err == if len == 0 || len > TX_MAX || old(View())[p].slave == None then InvalidParameter else Success
      ensures View() == if err == Success then old(View())[p := old(View())[p].(slave := Some(Loaded(data[..len])))] else old(View())
    {
      if len == 0 || len > TX_MAX {
        return InvalidParameter;
      }
      if !slaves[p].on {
        return InvalidParameter;
      }
      slaves[p] := slaves[p].(buf := data[..len] + slaves[p].buf[len..], len := len, idx := 0);
      slaves[p] := slaves[p].(idx := if len > 1 then 1 else 0);
      return Success;
    }

    // spi_slave_isr, transmit-empty branch
    method SlaveTransmit(p: nat) returns (b: byte)
      requires Valid() && p < PERIPHS && View()[p].slave.Some?
      modifies slaves
      ensures Valid()
      ensures (b, View()[p].slave) == (NextByte(old(View())[p].slave.value).0, Some(NextByte(old(View())[p].slave.value).1))
      ensures View() == old(View())[p := View()[p]] && View()[p] == old(View())[p].(slave := View()[p].slave)
    {
      b := 0;
      if slaves[p].idx < slaves[p].len {
        b := slaves[p].buf[slaves[p].idx];
        slaves[p] := slaves[p].(idx := slaves[p].idx + 1);
        if slaves[p].idx >= slaves[p].len {
          slaves[p] := slaves[p].(idx := 0);
        }
      }
    }
  }
}
