/** USART1 driver (uart.c) and the protocol task's notify/drain loop (app_init.c).

    Task-level code runs with interrupts enabled: `Interrupts` stands for any number of atomic
    ISR runs and is called between every two loads or stores of the shared indices, buffers
    and control bits, so each contract below holds under every interleaving. */
module Uart {
  import opened Wrappers
  import opened Framing
  import opened Parsers
  import opened Wire

  const SIZE: nat := 512

  // ---------------------------------------------------------------- rings as sequences

  ghost predicate Ring(buf: seq<byte>, head: nat, tail: nat) {
    |buf| == SIZE && head < SIZE && tail < SIZE
  }

  /** The bytes between tail and head, oldest first. */
  ghost function Content(buf: seq<byte>, head: nat, tail: nat): seq<byte>
    requires Ring(buf, head, tail)
  {
    if tail <= head then buf[tail..head] else buf[tail..] + buf[..head]
  }

  function Inc(i: nat): nat { (i + 1) % SIZE }

  /** A ring of 512 bytes holds at most 511, and is full exactly when the head is one behind. */
  lemma Occupancy(buf: seq<byte>, head: nat, tail: nat)
    requires Ring(buf, head, tail)
    ensures |Content(buf, head, tail)| <= SIZE - 1
    ensures |Content(buf, head, tail)| == SIZE - 1 <==> Inc(head) == tail
    ensures Content(buf, head, tail) == [] <==> head == tail
  {}

  lemma StoreKeepsContent(buf: seq<byte>, head: nat, tail: nat, b: byte)
    requires Ring(buf, head, tail)
    ensures Content(buf[head := b], head, tail) == Content(buf, head, tail)
  {}

  lemma PublishAppends(buf: seq<byte>, head: nat, tail: nat)
    requires Ring(buf, head, tail) && Inc(head) != tail
    ensures Content(buf, Inc(head), tail) == Content(buf, head, tail) + [buf[head]]
  {
    if head == SIZE - 1 {
      assert buf[tail..] == buf[tail..head] + [buf[head]] && buf[..0] == [];
    } else if tail <= head {
      assert buf[tail..head + 1] == buf[tail..head] + [buf[head]];
    } else {
      assert buf[..head + 1] == buf[..head] + [buf[head]];
    }
  }

  lemma TakeRemoves(buf: seq<byte>, head: nat, tail: nat)
    requires Ring(buf, head, tail) && head != tail
    ensures Content(buf, head, tail) == [buf[tail]] + Content(buf, head, Inc(tail))
  {
    var older := if tail < head then buf[tail..head] else buf[tail..];
    var newer := if tail < head then [] else buf[..head];
    TakeFirst(older, newer);
    assert older[1..] == if tail < head then buf[tail + 1..head] else buf[tail + 1..];
  }

  lemma TakeFirst(s: seq<byte>, t: seq<byte>)
    requires s != []
    ensures s + t == [s[0]] + (s[1..] + t)
  {}

  datatype PopResult = Empty | Byte(b: byte)

  class Usart {
    const rxBuf: array<byte>
    const txBuf: array<byte>
    var rxHead: nat  // ISR writes
    var rxTail: nat  // task writes
    var txHead: nat  // task writes
    var txTail: nat  // ISR writes
    var txeie: bool  // CR1.TXEIE
    var notifyTask: bool  // rx_notify_task is set
    var notifications: nat
    /** How often the environment will still raise the interrupt: any number, unknown to the code. */
    var irqsLeft: nat

    // History: bytes put into and taken out of each ring, and whether the task is between
    // its first head store of a push and its CR1 store.
    ghost var rxIn: seq<byte>
    ghost var rxOut: seq<byte>
    ghost var txIn: seq<byte>
    ghost var txOut: seq<byte>
    ghost var kicking: bool

    ghost predicate Shape()
      reads this, rxBuf, txBuf
    {
      rxBuf != txBuf && Ring(rxBuf[..], rxHead, rxTail) && Ring(txBuf[..], txHead, txTail)
    }

    ghost function RxContent(): seq<byte>
      requires Shape()
      reads this, rxBuf, txBuf
    {
      Content(rxBuf[..], rxHead, rxTail)
    }

    ghost function TxContent(): seq<byte>
      requires Shape()
      reads this, rxBuf, txBuf
    {
      Content(txBuf[..], txHead, txTail)
    }

    /** Both rings are FIFO, and outside a push a non-empty TX ring is being drained. */
    ghost predicate Valid()
      reads this, rxBuf, txBuf
    {
      && Shape()
      && rxIn == rxOut + RxContent()
      && txIn == txOut + TxContent()
      && (TxContent() != [] && !kicking ==> txeie)
    }

    /** What ISR runs may do while the task is elsewhere: they only add received bytes (and
        then notify) and only remove bytes to send. */
    twostate predicate IsrRan()
      reads this, rxBuf, txBuf
    {
      && rxTail == old(rxTail) && rxOut == old(rxOut) && old(rxIn) <= rxIn
      && txHead == old(txHead) && txIn == old(txIn) && old(txOut) <= txOut
      && txBuf[..] == old(txBuf[..])
      && kicking == old(kicking) && notifyTask == old(notifyTask)
      && old(notifications) <= notifications
      && (notifyTask && rxIn != old(rxIn) ==> notifications > 0)
    }

    constructor (irqs: nat)
      ensures irqsLeft == irqs
      ensures Valid() && fresh(rxBuf) && fresh(txBuf)
      ensures rxIn == rxOut == txIn == txOut == [] && !kicking && !notifyTask && notifications == 0
    {
      rxBuf := new byte[SIZE](_ => 0);
      txBuf := new byte[SIZE](_ => 0);
      rxHead, rxTail, txHead, txTail, txeie := 0, 0, 0, 0, false;
      notifyTask, notifications, irqsLeft := false, 0, irqs;
      rxIn, rxOut, txIn, txOut, kicking := [], [], [], [], false;
    }

    /** Receive half of the handler: store the byte unless the ring is full, then notify. */
    method IrqReceive(b: byte)
      requires Valid()
      modifies this`rxHead, this`rxIn, this`notifications, rxBuf
      ensures Valid() && IsrRan()
      ensures rxIn == if old(|RxContent()|) < SIZE - 1 then old(rxIn) + [b] else old(rxIn)
    {
      hide Content, Inc;
      Occupancy(rxBuf[..], rxHead, rxTail);
      var head := rxHead;
      var next := Inc(head);
      if next != rxTail {
        ghost var before := rxBuf[..];
        rxBuf[head] := b;
        assert rxBuf[..] == before[head := b];
        StoreKeepsContent(before, head, rxTail, b);
        PublishAppends(rxBuf[..], head, rxTail);
        IncInRange(head);
        rxHead := next;
        rxIn := rxIn + [b];
      }
      if notifyTask {
        notifications := notifications + 1;
      }
    }

    /** Transmit half: send the oldest byte, or park the interrupt when nothing is left. */
    method IrqTransmit() returns (dr: Option<byte>)
      requires Valid() && txeie
      modifies this`txTail, this`txOut, this`txeie
      ensures Valid() && IsrRan()
      ensures dr.None? <==> old(TxContent()) == []
      ensures dr.None? ==> txOut == old(txOut) && !txeie
      ensures dr.Some? ==> txOut == old(txOut) + [dr.value] && txeie
    {
      hide Content, Inc;
      Occupancy(txBuf[..], txHead, txTail);
      var tail := txTail;
      if tail == txHead {
        txeie := false;
        dr := None;
      } else {
        dr := Some(txBuf[tail]);
        TakeRemoves(txBuf[..], txHead, tail);
        IncInRange(tail);
        txTail := Inc(tail);
        txOut := txOut + [dr.value];
      }
    }

    // USART1_IRQHandler: `rxne` carries the received byte; an overrun alone is only cleared
    method Irq(rxne: Option<byte>, txe: bool) returns (dr: Option<byte>)
      requires Valid()
      modifies this, rxBuf
      ensures Valid() && IsrRan()
      ensures rxIn == if rxne.Some? && old(|RxContent()|) < SIZE - 1 then old(rxIn) + [rxne.value] else old(rxIn)
      ensures dr.Some? <==> txe && old(txeie) && old(TxContent()) != []
      ensures txOut == old(txOut) + if dr.Some? then [dr.value] else []
      ensures irqsLeft == old(irqsLeft)
    {
      hide Content, Inc;
      dr := None;
      if rxne.Some? {
        IrqReceive(rxne.value);
      }
      if txe && txeie {
        dr := IrqTransmit();
      }
    }

    /** Any number of the interrupts still to come, with any status flags and data. */
    method Interrupts()
      requires Valid()
      modifies this, rxBuf
      ensures Valid() && IsrRan()
      ensures old(RxContent()) <= RxContent()
      ensures |TxContent()| <= |old(TxContent())|
      ensures irqsLeft <= old(irqsLeft) && (old(irqsLeft) == 0 ==> txOut == old(txOut))
    {
      var n: nat :| n <= irqsLeft;
      irqsLeft := irqsLeft - n;
      for i := 0 to n
        invariant Valid() && IsrRan() && irqsLeft == old(irqsLeft) - n
        invariant n == 0 ==> txOut == old(txOut)
      {
        var rxne: Option<byte> := *;
        var txe: bool := *;
        var _ := Irq(rxne, txe);
      }
      Grown(rxOut, old(RxContent()), RxContent());
    }

    /** `*out = rx_buf[tail]; rx_tail = next`, once the ring has been seen to hold a byte. */
    method PopOne(tail: nat) returns (b: byte)
      requires Valid() && tail == rxTail && RxContent() != []
      modifies this, rxBuf
      ensures Valid()
      ensures unchanged(`txHead, `txIn, `kicking, `notifyTask) && old(txOut) <= txOut
      ensures old(rxIn) <= rxIn && rxOut == old(rxOut) + [b] && b == old(RxContent()[0])
    {
      hide Content, Inc;
      Occupancy(rxBuf[..], rxHead, rxTail);
      TakeRemoves(rxBuf[..], rxHead, rxTail);
      b := rxBuf[tail];
      Interrupts();
      Occupancy(rxBuf[..], rxHead, rxTail);
      TakeRemoves(rxBuf[..], rxHead, rxTail);
      IncInRange(tail);
      rxTail := Inc(tail);
      rxOut := rxOut + [b];
    }

    /** Takes the oldest received byte; when it reports an empty ring, any byte that has
        arrived since has also left a notification. */
    method RxPop() returns (r: PopResult)
      requires Valid()
      modifies this, rxBuf
      ensures Valid()
      ensures unchanged(`txHead, `txIn, `kicking, `notifyTask) && old(txOut) <= txOut
      ensures old(rxIn) <= rxIn
      ensures rxOut == match r case Empty => old(rxOut) case Byte(b) => old(rxOut) + [b]
      ensures old(RxContent()) != [] ==> r.Byte? && r.b == old(RxContent()[0])
      ensures r.Empty? && notifyTask ==> RxContent() == [] || notifications > 0
    {
      hide Content, Inc;
      var tail := rxTail;
      Interrupts();
      var head := rxHead;
      Occupancy(rxBuf[..], rxHead, rxTail);
      if tail == head {
        Interrupts();
        return Empty;
      }
      Interrupts();
      var b := PopOne(tail);
      r := Byte(b);
    }

    /** What the receive side may see while the task is busy elsewhere. */
    twostate predicate OnlyReceived()
      reads this
    {
      && rxTail == old(rxTail) && rxOut == old(rxOut) && old(rxIn) <= rxIn && notifyTask == old(notifyTask)
      && old(txOut) <= txOut && old(notifications) <= notifications
      && (notifyTask && rxIn != old(rxIn) ==> notifications > 0)
      && irqsLeft <= old(irqsLeft) && (old(irqsLeft) == 0 ==> txOut == old(txOut))
    }

    /** The body of the push loop: one byte into the ring unless it is full. */
    method PushOne(b: byte) returns (full: bool)
      requires Valid()
      modifies this, rxBuf, txBuf
      ensures Valid() && OnlyReceived()
      ensures full ==> old(|TxContent()|) == SIZE - 1 && txIn == old(txIn) && kicking == old(kicking)
      ensures !full ==> kicking && txIn == old(txIn) + [b] && |TxContent()| <= old(|TxContent()|) + 1
    {
      hide Content, Inc;
      Occupancy(txBuf[..], txHead, txTail);
      var head := txHead;
      Interrupts();
      var next := Inc(head);
      Occupancy(txBuf[..], txHead, txTail);
      if next == txTail {
        return true;
      }
      Interrupts();
      Store(head, b);
      Interrupts();
      Publish(next, b);
      Interrupts();
      full := false;
    }

    /** `CR1 |= TXEIE`, a load and a store with interrupts in between. */
    method Kick()
      requires Valid()
      modifies this, rxBuf
      ensures Valid() && OnlyReceived() && !kicking && txIn == old(txIn)
    {
      var cr1 := txeie;
      Interrupts();
      txeie := true;
      kicking := false;
      Interrupts();
    }

    /** Enqueues a prefix of `data`: all of it, or at least as much as there was room for when
        the call started. Accepted bytes are never lost, and afterwards TXEIE drains them. */
    method TxPush(data: seq<byte>) returns (pushed: nat)
      requires Valid() && !kicking
      modifies this, rxBuf, txBuf
      ensures Valid() && !kicking && OnlyReceived()
      ensures pushed <= |data| && txIn == old(txIn) + data[..pushed]
      ensures pushed < |data| ==> pushed >= SIZE - 1 - old(|TxContent()|)
      ensures pushed <= SIZE - 1 - old(|TxContent()|) + (|txOut| - |old(txOut)|)
    {
      hide Content, Inc;
      pushed := 0;
      assert data[..0] == [];
      while pushed < |data|
        invariant Valid() && OnlyReceived() && pushed <= |data|
        invariant txIn == old(txIn) + data[..pushed]
        invariant |TxContent()| <= old(|TxContent()|) + pushed
        invariant kicking <==> pushed > 0
      {
        var full := PushOne(data[pushed]);
        if full {
          break;
        }
        assert data[..pushed + 1] == data[..pushed] + [data[pushed]];
        pushed := pushed + 1;
      }
      if pushed > 0 {
        Kick();
      }
      Occupancy(txBuf[..], txHead, txTail);
    }

    // push_frame
    /** Queues a frame. All of it is queued if there is room for it when the call starts, and,
        when nothing is sent meanwhile, only then; otherwise the error leaves a proper prefix of
        the frame in the ring. */
    method PushFrame(frame: seq<byte>) returns (err: Err)
      requires Valid() && !kicking
      modifies this, rxBuf, txBuf
      ensures Valid() && !kicking && OnlyReceived()
      ensures err == Success || err == OutOfResources
      ensures err == Success ==> txIn == old(txIn) + frame
      ensures err != Success ==> exists k: nat :: QueuedPrefix(old(txIn), frame, k, txIn) && k + old(|TxContent()|) >= SIZE - 1
      ensures |frame| <= SIZE - 1 - old(|TxContent()|) ==> err == Success
      ensures txOut == old(txOut) ==> (err == Success <==> |frame| <= SIZE - 1 - old(|TxContent()|))
    {
      var pushed := TxPush(frame);
      assert frame[..|frame|] == frame;
      if pushed != |frame| {
        assert QueuedPrefix(old(txIn), frame, pushed, txIn);
        return OutOfResources;
      }
      return Success;
    }

    /** `tx_buf[head] = b`: the slot at the head is not part of the content yet. */
    method Store(head: nat, b: byte)
      requires Valid() && head == txHead
      modifies txBuf
      ensures Valid() && txBuf[head] == b && TxContent() == old(TxContent())
    {
      hide Content, Inc;
      ghost var before := txBuf[..];
      StoreKeepsContent(before, txHead, txTail, b);
      txBuf[head] := b;
      assert txBuf[..] == before[head := b];
    }

    /** `tx_head = next` */
    method Publish(next: nat, ghost b: byte)
      requires Valid() && next == Inc(txHead) && txBuf[txHead] == b && |TxContent()| < SIZE - 1
      modifies this`txHead, this`txIn, this`kicking
      ensures Valid() && kicking && txIn == old(txIn) + [b] && TxContent() == old(TxContent()) + [b]
    {
      hide Content, Inc;
      Occupancy(txBuf[..], txHead, txTail);
      PublishAppends(txBuf[..], txHead, txTail);
      IncInRange(txHead);
      txHead := next;
      txIn := txIn + [b];
      kicking := true;
    }
  }

  /** `after` is `before` and the first `k` bytes, but not all, of the frame. */
  predicate QueuedPrefix(before: seq<byte>, frame: seq<byte>, k: nat, after: seq<byte>) {
    k < |frame| && after == before + frame[..k]
  }

  function Waiting(): (w: seq<byte>)
    ensures |w| == 508
  {
    seq(508, _ => 0)
  }

  /** A run in which a partial frame is queued: with 508 bytes waiting and nothing sent meanwhile,
      an ACK frame of ten bytes loses its last seven. */
  method PartialFrame(ack: seq<byte>) returns (uart: Usart, err: Err)
    requires |ack| == 10
    ensures fresh(uart) && uart.Valid()
    ensures err == OutOfResources && uart.txOut == [] && uart.TxContent() == Waiting() + ack[..3]
  {
    hide Content, Inc, Ring, Waiting;
    uart := new Usart(0);
    NothingSent(uart);
    var _ := uart.PushFrame(Waiting());
    NothingSent(uart);
    assert uart.txIn == Waiting();
    err := uart.PushFrame(ack);
    NothingSent(uart);
    ghost var k: nat :| QueuedPrefix(Waiting(), ack, k, uart.txIn) && k + 508 >= SIZE - 1;
    Occupancy(uart.txBuf[..], uart.txHead, uart.txTail);
  }

  lemma NothingSent(uart: Usart)
    requires uart.Valid() && uart.txOut == []
    ensures uart.TxContent() == uart.txIn
  {}

  /** The frames among the events of a cut input. */
  function Delivered(cuts: seq<Cut>): seq<Frame> {
    if cuts == [] then []
    else
      (if cuts[0].event.Some? && cuts[0].event.value.Good? then [cuts[0].event.value.frame] else []) + Delivered(cuts[1..])
  }

  lemma {:induction false} DeliveredConcat(a: seq<Cut>, b: seq<Cut>)
    ensures Delivered(a + b) == Delivered(a) + Delivered(b)
    decreases |a|
  {
    if a == [] {
      assert a + b == b;
    } else {
      assert (a + b)[0] == a[0] && (a + b)[1..] == a[1..] + b;
      DeliveredConcat(a[1..], b);
    }
  }

  lemma DeliverOne(p: seq<byte>, s: seq<byte>, b: byte)
    ensures Rest(p, s + [b]) == Next(Rest(p, s), b).0
    ensures Delivered(Cuts(p, s + [b])) == Delivered(Cuts(p, s)) +
              var e := Next(Rest(p, s), b).1; if e.Some? && e.value.Good? then [e.value.frame] else []
  {
    hide Next;
    CutsConcat(p, s, [b]);
    var q := Rest(p, s);
    assert [b][1..] == [];
    NextEvent(q, b);
    DeliveredConcat(Cuts(p, s), Cuts(q, [b]));
  }

  lemma NextEvent(p: seq<byte>, b: byte)
    ensures Next(p, b).1.Some? ==> Next(p, b).0 == []
  {}

  // ---------------------------------------------------------------- app_init.c: task_protocol

  /** The protocol task from its start, for any number of scheduler and drain steps. Every byte
      taken from the ring goes through the parser, and the frames handed to the dispatcher are
      exactly those contained in the bytes received; answering a frame pushes arbitrary bytes.
      If the task ends up blocked after it has woken once, no received byte is waiting. */
  method ProtocolTask(uart: Usart, parser: CParser, budget: nat) returns (handled: seq<Frame>, blocked: bool, woken: bool)
    requires uart.Valid() && uart.rxOut == [] && !uart.kicking && parser.Valid() && parser.partial == []
    requires {uart.rxBuf as object, uart.txBuf} !! {parser.payload as object}
    modifies uart, uart.rxBuf, uart.txBuf, parser, parser.payload
    ensures uart.Valid() && !uart.kicking && parser.Valid()
    ensures parser.partial == Rest([], uart.rxOut)
    ensures handled == Delivered(Cuts([], uart.rxOut))
    ensures uart.rxOut <= uart.rxIn
    ensures blocked ==> uart.notifications == 0
    ensures blocked && woken ==> uart.RxContent() == []
  {
    hide Content, Next;
    handled, blocked, woken := [], false, false;
    uart.notifyTask := true;
    var left := budget;
    while left > 0
      invariant uart.Valid() && !uart.kicking && uart.notifyTask && parser.Valid()
      invariant parser.partial == Rest([], uart.rxOut)
      invariant handled == Delivered(Cuts([], uart.rxOut))
      invariant woken ==> uart.RxContent() == [] || uart.notifications > 0
    {
      // ulTaskNotifyTake: blocks while the count is zero, then clears it
      uart.Interrupts();
      if uart.notifications == 0 {
        return handled, true, woken;
      }
      uart.notifications := 0;
      woken := true;
      var more := true;
      while more && left > 0
        invariant uart.Valid() && !uart.kicking && uart.notifyTask && parser.Valid()
        invariant parser.partial == Rest([], uart.rxOut)
        invariant handled == Delivered(Cuts([], uart.rxOut))
        invariant !more ==> uart.RxContent() == [] || uart.notifications > 0
        decreases left, more
      {
        var popped, frames := DrainOne(uart, parser);
        handled := handled + frames;
        more := popped;
        if popped {
          left := left - 1;
        }
      }
      if more {
        return handled, false, woken;
      }
      left := left - 1;
    }
  }

  /** One turn of the drain loop. */
  method DrainOne(uart: Usart, parser: CParser) returns (popped: bool, frames: seq<Frame>)
    requires uart.Valid() && !uart.kicking && uart.notifyTask && parser.Valid()
    requires parser.partial == Rest([], uart.rxOut)
    requires {uart.rxBuf as object, uart.txBuf} !! {parser.payload as object}
    modifies uart, uart.rxBuf, uart.txBuf, parser, parser.payload
    ensures uart.Valid() && !uart.kicking && uart.notifyTask && parser.Valid()
    ensures parser.partial == Rest([], uart.rxOut)
    ensures Delivered(Cuts([], uart.rxOut)) == old(Delivered(Cuts([], uart.rxOut))) + frames
    ensures !popped ==> uart.RxContent() == [] || uart.notifications > 0
    ensures popped ==> |uart.rxOut| == old(|uart.rxOut|) + 1
  {
    hide Content, Next;
    frames := [];
    var r := uart.RxPop();
    if r.Empty? {
      return false, [];
    }
    popped := true;
    DeliverOne([], old(uart.rxOut), r.b);
    var complete := parser.Feed(r.b);
    if complete {
      frames := [parser.CurrentFrame()];
      var answer: seq<byte> := *;
      var _ := uart.TxPush(answer);
    }
  }

  lemma IncInRange(i: nat)
    requires i < SIZE
    ensures Inc(i) < SIZE
  {}

  lemma Grown(out: seq<byte>, a: seq<byte>, b: seq<byte>)
    requires out + a <= out + b
    ensures a <= b
  {
    assert (out + a)[|out|..] == a && (out + b)[|out|..] == b;
  }
}
