/** Session event bus (bus.go) as a transition system over its goroutines: publishers,
    subscribers, closers and receivers, interleaved at every lock, channel and atomic
    operation. A send on a closed channel or a second close of a channel panics. */
module Bus {
  import opened Wrappers

  const BUFFER: nat := 64
  const DROP_THRESHOLD: nat := 256
  const U64: nat := 0x1_0000_0000_0000_0000

  datatype Ev = Ev(session: string, body: string)

  /** sync.Once: not run, being run by a goroutine, or finished. */
  datatype Once = NotRun | Running(owner: nat) | Finished

  /** A subscription object. `sent`, `got` and `drops` record every accepted event, every
      received event and the number of discarded ones; `full` holds the publishers that found
      the buffer full and have not counted the drop yet; `escalated` counts how often a
      publisher queued it for closing. */
  datatype Sub = Sub(session: string, buf: seq<Ev>, dropped: nat, once: Once,
                     doneClosed: bool, chClosed: bool, published: bool,
                     attempts: nat, sent: seq<Ev>, got: seq<Ev>, drops: nat, full: set<nat>, escalated: nat)

  datatype Stage = WantLock | Locked | Deleted | DoneClosed | ChClosed

  /** Program counters. `rest` and `esc` are the subscriptions a publisher still has to close. */
  datatype Thread =
    | Idle
    | WantRead(ev: Ev)
    | Scan(ev: Ev, todo: set<nat>, esc: seq<nat>)
    | Dropping(sub: nat, ev: Ev, todo: set<nat>, esc: seq<nat>)
    | Escalate(esc: seq<nat>)
    | AtOnce(sub: nat, rest: seq<nat>)
    | Closing(sub: nat, stage: Stage, rest: seq<nat>)
    | SubWant(sub: nat)
    | SubLocked(sub: nat)

  datatype State = State(subs: map<nat, Sub>, active: set<nat>, lastId: nat, threads: map<nat, Thread>,
                         readers: set<nat>, writer: Option<nat>, panicked: bool)

  function Init(): State {
    State(map[], {}, 0, map[], {}, None, false)
  }

  function T(s: State, t: nat): Thread {
    if t in s.threads then s.threads[t] else Idle
  }

  function Goto(s: State, t: nat, pc: Thread): State {
    s.(threads := s.threads[t := pc])
  }

  function NewSub(session: string): Sub {
    Sub(session, [], 0, NotRun, false, false, false, 0, [], [], 0, {}, 0)
  }

  datatype Step =
    | PublishCall(t: nat, ev: Ev)
    | RLock(t: nat)
    | ScanOne(t: nat, id: nat)
    | CountDrop(t: nat)
    | RUnlock(t: nat)
    | NextClose(t: nat)
    | SubscribeCall(t: nat, session: string)
    | CloseCall(t: nat, id: nat)
    | EnterOnce(t: nat)
    | Lock(t: nat)
    | UpdateAndUnlock(t: nat)
    | CloseDone(t: nat)
    | CloseCh(t: nat)
    | ExitOnce(t: nat)
    | Receive(id: nat)

  /** When a step can be taken. */
  predicate Enabled(s: State, e: Step) {
    match e
    case PublishCall(t, _) => T(s, t).Idle?
    case RLock(t) => T(s, t).WantRead? && s.writer.None?
    case ScanOne(t, id) => T(s, t).Scan? && id in T(s, t).todo && id in s.subs
    case CountDrop(t) => T(s, t).Dropping? && T(s, t).sub in s.subs
    case RUnlock(t) => T(s, t).Scan? && T(s, t).todo == {}
    case NextClose(t) => T(s, t).Escalate?
    case SubscribeCall(t, _) => T(s, t).Idle?
    case CloseCall(t, id) => T(s, t).Idle? && id in s.subs && s.subs[id].published
    case EnterOnce(t) => T(s, t).AtOnce? && T(s, t).sub in s.subs && !s.subs[T(s, t).sub].once.Running?
    case Lock(t) =>
      (T(s, t).SubWant? || (T(s, t).Closing? && T(s, t).stage.WantLock?)) && s.writer.None? && s.readers == {}
    case UpdateAndUnlock(t) =>
      (T(s, t).SubLocked? && T(s, t).sub in s.subs) || (T(s, t).Closing? && T(s, t).stage.Locked?)
    case CloseDone(t) => T(s, t).Closing? && T(s, t).stage.Deleted? && T(s, t).sub in s.subs
    case CloseCh(t) => T(s, t).Closing? && T(s, t).stage.DoneClosed? && T(s, t).sub in s.subs
    case ExitOnce(t) => T(s, t).Closing? && T(s, t).stage.ChClosed? && T(s, t).sub in s.subs
    case Receive(id) => id in s.subs && s.subs[id].buf != []
  }

  /** The non-blocking send of publisher `t` on one subscription: taken, or found full. */
  function Offer(b: Sub, ev: Ev, t: nat): Sub {
    if |b.buf| < BUFFER then
      b.(buf := b.buf + [ev], attempts := b.attempts + 1, sent := b.sent + [ev])
    else
      b.(attempts := b.attempts + 1, full := b.full + {t})
  }

  /** The atomic increment after a full buffer, and whether it hits the threshold. */
  function Count(b: Sub, t: nat): (Sub, bool) {
    var n := (b.dropped + 1) % U64;
    var hit := n == DROP_THRESHOLD;
    (b.(dropped := n, drops := b.drops + 1, full := b.full - {t},
        escalated := b.escalated + if hit then 1 else 0), hit)
  }

  function Do(s: State, e: Step): State
    requires Enabled(s, e)
  {
    match e
    case PublishCall(t, ev) => Goto(s, t, WantRead(ev))
    case RLock(t) => Goto(s, t, Scan(T(s, t).ev, s.active, [])).(readers := s.readers + {t})
    case ScanOne(t, id) =>
      var pc := T(s, t);
      var b := s.subs[id];
      var next := Scan(pc.ev, pc.todo - {id}, pc.esc);
      if b.session != "" && b.session != pc.ev.session then Goto(s, t, next)
      else if b.chClosed then Goto(s, t, next).(panicked := true)
      else
        Goto(s, t, if |b.buf| < BUFFER then next else Dropping(id, next.ev, next.todo, next.esc))
          .(subs := s.subs[id := Offer(b, next.ev, t)])
    case CountDrop(t) =>
      var pc := T(s, t);
      var (b', hit) := Count(s.subs[pc.sub], t);
      Goto(s, t, Scan(pc.ev, pc.todo, if hit then pc.esc + [pc.sub] else pc.esc)).(subs := s.subs[pc.sub := b'])
    case RUnlock(t) => Goto(s, t, Escalate(T(s, t).esc)).(readers := s.readers - {t})
    case NextClose(t) =>
      var esc := T(s, t).esc;
      if esc == [] then Goto(s, t, Idle) else Goto(s, t, AtOnce(esc[0], esc[1..]))
    case SubscribeCall(t, session) =>
      var id := s.lastId + 1;
      Goto(s, t, SubWant(id)).(lastId := id, subs := s.subs[id := NewSub(session)])
    case CloseCall(t, id) => Goto(s, t, AtOnce(id, []))
    case EnterOnce(t) =>
      var pc := T(s, t);
      if s.subs[pc.sub].once.Finished? then Goto(s, t, Escalate(pc.rest))
      else Goto(s, t, Closing(pc.sub, WantLock, pc.rest)).(subs := s.subs[pc.sub := s.subs[pc.sub].(once := Running(t))])
    case Lock(t) =>
      var pc := T(s, t);
      Goto(s, t, if pc.SubWant? then SubLocked(pc.sub) else pc.(stage := Locked)).(writer := Some(t))
    case UpdateAndUnlock(t) =>
      var pc := T(s, t);
      if pc.SubLocked? then
        Goto(s, t, Idle).(writer := None, active := s.active + {pc.sub},
                          subs := s.subs[pc.sub := s.subs[pc.sub].(published := true)])
      else Goto(s, t, pc.(stage := Deleted)).(writer := None, active := s.active - {pc.sub})
    case CloseDone(t) =>
      var pc := T(s, t);
      Goto(s, t, pc.(stage := DoneClosed)).(subs := s.subs[pc.sub := s.subs[pc.sub].(doneClosed := true)],
                                            panicked := s.panicked || s.subs[pc.sub].doneClosed)
    case CloseCh(t) =>
      var pc := T(s, t);
      Goto(s, t, pc.(stage := ChClosed)).(subs := s.subs[pc.sub := s.subs[pc.sub].(chClosed := true)],
                                          panicked := s.panicked || s.subs[pc.sub].chClosed)
    case ExitOnce(t) =>
      var pc := T(s, t);
      Goto(s, t, Escalate(pc.rest)).(subs := s.subs[pc.sub := s.subs[pc.sub].(once := Finished)])
    case Receive(id) =>
      var b := s.subs[id];
      s.(subs := s.subs[id := b.(buf := b.buf[1..], got := b.got + [b.buf[0]])])
  }

  // ---------------------------------------------------------------- invariant

  /** The lock is held exactly by the goroutines inside a critical section. */
  ghost predicate LockInv(s: State) {
    && (forall t :: t in s.readers <==> InScan(T(s, t)))
    && (forall t: nat :: s.writer == Some(t) <==> T(s, t).SubLocked? || (T(s, t).Closing? && T(s, t).stage.Locked?))
    && (s.writer.Some? ==> s.readers == {})
    && (forall t :: InScan(T(s, t)) ==> T(s, t).todo <= s.active)
  }

  /** A publisher between RLock and RUnlock. */
  predicate InScan(pc: Thread) {
    pc.Scan? || pc.Dropping?
  }

  ghost predicate Known(s: State, id: nat) {
    id in s.subs && s.subs[id].published
  }

  /** The subscriptions a goroutine still has to close or is at work on. */
  function Queue(pc: Thread): seq<nat> {
    match pc
    case Scan(_, _, esc) => esc
    case Dropping(sub, _, _, esc) => [sub] + esc
    case Escalate(esc) => esc
    case AtOnce(sub, rest) => [sub] + rest
    case Closing(sub, _, rest) => [sub] + rest
    case _ => []
  }

  /** Every id in the map or in the hands of a closing goroutine is a published one. */
  ghost predicate IdInv(s: State) {
    && (forall id :: id in s.subs ==> id <= s.lastId)
    && (forall id :: id in s.active ==> Known(s, id))
    && (forall t, id :: id in Queue(T(s, t)) ==> Known(s, id))
  }

  /** A goroutine inside Subscribe owns a subscription nobody else has seen. */
  ghost predicate FreshInv(s: State) {
    && (forall t :: T(s, t).SubWant? || T(s, t).SubLocked? ==>
          T(s, t).sub in s.subs && !s.subs[T(s, t).sub].published)
    && (forall t, u :: t != u && (T(s, t).SubWant? || T(s, t).SubLocked?) && (T(s, u).SubWant? || T(s, u).SubLocked?) ==>
          T(s, t).sub != T(s, u).sub)
  }

  /** Close runs once: its progress is the state of the two channels. */
  ghost predicate CloseInv(s: State) {
    && (forall t :: T(s, t).Closing? ==> T(s, t).sub in s.subs && s.subs[T(s, t).sub].once == Running(t))
    && (forall id :: id in s.subs ==> Progress(s, id))
  }

  ghost predicate Progress(s: State, id: nat)
    requires id in s.subs
  {
    var b := s.subs[id];
    match b.once
    case NotRun => !b.doneClosed && !b.chClosed
    case Running(t) =>
      var pc := T(s, t);
      && pc.Closing? && pc.sub == id
      && (b.doneClosed <==> pc.stage.DoneClosed? || pc.stage.ChClosed?)
      && (b.chClosed <==> pc.stage.ChClosed?)
      && (pc.stage.Deleted? || pc.stage.DoneClosed? || pc.stage.ChClosed? ==> id !in s.active)
    case Finished => b.doneClosed && b.chClosed && id !in s.active && b.published
  }

  /** The publishers recorded as about to count a drop are the ones at that point. */
  ghost predicate FullInv(s: State) {
    forall id :: id in s.subs ==> FullOk(s, id)
  }

  ghost predicate FullOk(s: State, id: nat)
    requires id in s.subs
  {
    forall t :: t in s.subs[id].full <==> T(s, t).Dropping? && T(s, t).sub == id
  }

  /** Conservation: what was accepted is what was received, then what is buffered; every
      other attempt was dropped or is about to be counted; the counter wraps at 2^64 and hits the threshold accordingly. */
  predicate Conserved(b: Sub) {
    && |b.buf| <= BUFFER
    && b.sent == b.got + b.buf
    && b.attempts == |b.sent| + b.drops + |b.full|
    && b.dropped == b.drops % U64
    && b.escalated == (b.drops + (U64 - DROP_THRESHOLD)) / U64
  }

  ghost predicate Inv(s: State) {
    && LockInv(s) && IdInv(s) && FreshInv(s) && CloseInv(s) && FullInv(s)
    && (forall id :: id in s.subs ==> Conserved(s.subs[id]))
    && !s.panicked
  }

  lemma InitInv()
    ensures Inv(Init())
  {}

  /** The goroutine a step belongs to; receiving moves none of the modelled ones. */
  function Actor(e: Step): Option<nat> {
    if e.Receive? then None else Some(e.t)
  }

  lemma OtherThreads(s: State, e: Step)
    requires Enabled(s, e)
    ensures forall u: nat {:trigger T(Do(s, e), u)} :: Actor(e) != Some(u) ==> T(Do(s, e), u) == T(s, u)
  {}

  lemma LockKept(s: State, e: Step)
    requires Inv(s) && Enabled(s, e)
    ensures LockInv(Do(s, e))
  {
    hide IdInv, FreshInv, CloseInv, Conserved, Offer, Count, FullInv;
    OtherThreads(s, e);
  }

  /** A step adds to a queue only ids that were already in it, in the map, or named by a caller. */
  lemma QueueStep(s: State, e: Step)
    requires Enabled(s, e) && Actor(e).Some?
    ensures var t := Actor(e).value;
      forall id :: id in Queue(T(Do(s, e), t)) ==>
        id in Queue(T(s, t)) || (e.ScanOne? && id == e.id) || (e.CloseCall? && id == e.id)
  {}

  lemma KnownStays(s: State, e: Step)
    requires Inv(s) && Enabled(s, e)
    ensures forall id :: Known(s, id) ==> Known(Do(s, e), id)
    ensures forall id :: id in Do(s, e).subs ==> id <= Do(s, e).lastId
  {
    hide LockInv, CloseInv, Conserved, Offer, Count, FreshInv, FullInv;
    if InPublish(e) { PublishKeepsFlags(s, e); }
  }

  lemma IdKept(s: State, e: Step)
    requires Inv(s) && Enabled(s, e)
    ensures IdInv(Do(s, e))
  {
    KnownStays(s, e);
    OtherThreads(s, e);
    if Actor(e).Some? { QueueStep(s, e); }
    ActiveKnown(s, e);
    hide Do, Queue, CloseInv, FreshInv, Conserved;
    assert e.ScanOne? ==> Known(s, e.id);
  }

  lemma ActiveKnown(s: State, e: Step)
    requires Inv(s) && Enabled(s, e)
    ensures forall id :: id in Do(s, e).active ==> Known(Do(s, e), id)
  {
    hide LockInv, CloseInv, Conserved, Offer, Count, FullInv;
    if InPublish(e) { PublishKeepsFlags(s, e); }
  }

  lemma FreshKeptByCall(s: State, e: Step)
    requires Inv(s) && Enabled(s, e) && e.SubscribeCall?
    ensures FreshInv(Do(s, e))
  {
    hide LockInv, CloseInv, Conserved, Offer, Count, Queue, FullInv;
    OtherThreads(s, e);
  }

  lemma FreshKeptByPublish(s: State, e: Step)
    requires Inv(s) && Enabled(s, e) && InPublish(e)
    ensures FreshInv(Do(s, e))
  {
    hide LockInv, CloseInv, Conserved, Offer, Count, Queue, IdInv, FullInv;
    OtherThreads(s, e);
    PublishKeepsFlags(s, e);
  }

  lemma FreshKeptByRest(s: State, e: Step)
    requires Inv(s) && Enabled(s, e) && !e.SubscribeCall? && !InPublish(e)
    ensures FreshInv(Do(s, e))
  {
    hide LockInv, CloseInv, Conserved, Offer, Count, Queue, IdInv, FullInv;
    OtherThreads(s, e);
  }

  lemma FreshKept(s: State, e: Step)
    requires Inv(s) && Enabled(s, e)
    ensures FreshInv(Do(s, e))
  {
    hide Inv, Do, FreshInv, Enabled;
    if e.SubscribeCall? { FreshKeptByCall(s, e); } else if InPublish(e) { FreshKeptByPublish(s, e); } else { FreshKeptByRest(s, e); }
  }

  predicate SameFlags(b: Sub, b': Sub) {
    b'.once == b.once && b'.doneClosed == b.doneClosed && b'.chClosed == b.chClosed && b'.published == b.published
  }

  predicate InPublish(e: Step) {
    e.ScanOne? || e.CountDrop?
  }

  /** A publisher changes only the traffic of a subscription. */
  lemma PublishKeepsFlags(s: State, e: Step)
    requires Enabled(s, e) && InPublish(e)
    ensures Do(s, e).subs.Keys == s.subs.Keys
    ensures forall id :: id in s.subs ==> SameFlags(s.subs[id], Do(s, e).subs[id])
  {}

  predicate TouchesClose(e: Step) {
    e.EnterOnce? || e.UpdateAndUnlock? || e.CloseDone? || e.CloseCh? || e.ExitOnce?
  }

  /** Steps outside Close that change a subscription object. */
  predicate TouchesData(e: Step) {
    InPublish(e) || e.Receive? || e.SubscribeCall?
  }

  lemma CloseKeptByData(s: State, e: Step)
    requires Inv(s) && Enabled(s, e) && TouchesData(e)
    ensures CloseInv(Do(s, e))
  {
    hide LockInv, FreshInv, Conserved, Offer, Count, Queue, FullInv;
    OtherThreads(s, e);
    if InPublish(e) {
      CloseKeptByPublish(s, e);
    }
  }

  lemma CloseKeptByPublish(s: State, e: Step)
    requires Inv(s) && Enabled(s, e) && InPublish(e)
    ensures CloseInv(Do(s, e))
  {
    hide LockInv, FreshInv, IdInv, Conserved, Offer, Count, Queue, FullInv;
    OtherThreads(s, e);
    PublishKeepsFlags(s, e);
    forall id | id in Do(s, e).subs
      ensures Progress(Do(s, e), id)
    {
      assert Progress(s, id) && SameFlags(s.subs[id], Do(s, e).subs[id]);
    }
  }

  lemma CloseKeptByControl(s: State, e: Step)
    requires Inv(s) && Enabled(s, e) && !TouchesClose(e) && !TouchesData(e)
    ensures CloseInv(Do(s, e))
  {
    hide LockInv, FreshInv, Conserved, Offer, Count, Queue, FullInv;
    OtherThreads(s, e);
  }

  lemma HeldIsKnown(s: State, t: nat, id: nat)
    requires IdInv(s) && id in Queue(T(s, t))
    ensures Known(s, id)
  {}

  /** A subscription not yet in the map has not been closed, nor has anyone begun to. */
  lemma FreshIsUntouched(s: State, t: nat)
    requires Inv(s) && T(s, t).SubLocked?
    ensures s.subs[T(s, t).sub].once.NotRun?
  {
    var id := T(s, t).sub;
    assert Progress(s, id);
    if s.subs[id].once.Running? {
      HeldIsKnown(s, s.subs[id].once.owner, id);
    }
  }

  lemma CloseKeptInside(s: State, e: Step)
    requires Inv(s) && Enabled(s, e) && TouchesClose(e)
    ensures CloseInv(Do(s, e))
  {
    hide LockInv, FreshInv, Conserved, Offer, Count, Queue, FullInv;
    OtherThreads(s, e);
    if T(s, e.t).SubLocked? {
      FreshIsUntouched(s, e.t);
    } else {
      ClosedIsKnown(s, e.t);
    }
  }

  lemma ClosedIsKnown(s: State, t: nat)
    requires IdInv(s) && (T(s, t).AtOnce? || T(s, t).Closing?)
    ensures Known(s, T(s, t).sub)
  {
    HeldIsKnown(s, t, T(s, t).sub);
  }

  lemma CounterStep(d: nat)
    ensures (d % U64 + 1) % U64 == (d + 1) % U64
    ensures (d + 1 + (U64 - DROP_THRESHOLD)) / U64
         == (d + (U64 - DROP_THRESHOLD)) / U64 + if (d + 1) % U64 == DROP_THRESHOLD then 1 else 0
  {}

  lemma OfferConserves(b: Sub, ev: Ev, t: nat)
    requires Conserved(b) && t !in b.full
    ensures Conserved(Offer(b, ev, t))
  {
    if |b.buf| < BUFFER {
      assert b.sent + [ev] == b.got + (b.buf + [ev]);
    }
  }

  lemma CountConserves(b: Sub, t: nat)
    requires Conserved(b) && t in b.full
    ensures Conserved(Count(b, t).0)
  {
    CounterStep(b.drops);
  }

  lemma ConservedKept(s: State, e: Step)
    requires Inv(s) && Enabled(s, e)
    ensures forall id :: id in Do(s, e).subs ==> Conserved(Do(s, e).subs[id])
  {
    hide LockInv, IdInv, FreshInv, CloseInv, Offer, Count;
    if e.ScanOne? {
      assert FullOk(s, e.id);
      OfferConserves(s.subs[e.id], T(s, e.t).ev, e.t);
    } else if e.CountDrop? {
      assert FullOk(s, T(s, e.t).sub);
      CountConserves(s.subs[T(s, e.t).sub], e.t);
    }
  }

  lemma FullKept(s: State, e: Step)
    requires Inv(s) && Enabled(s, e)
    ensures FullInv(Do(s, e))
  {
    hide LockInv, FreshInv, CloseInv, Conserved;
    OtherThreads(s, e);
    forall id | id in Do(s, e).subs
      ensures FullOk(Do(s, e), id)
    {
      if id in s.subs {
        assert FullOk(s, id);
      } else {
        DroppedIsKnown(s, id);
      }
    }
  }

  /** Nobody is dropping an event of a subscription that does not exist. */
  lemma DroppedIsKnown(s: State, id: nat)
    requires IdInv(s) && id !in s.subs
    ensures forall t :: T(s, t).Dropping? ==> T(s, t).sub != id
  {
    forall t | T(s, t).Dropping?
      ensures T(s, t).sub != id
    {
      HeldIsKnown(s, t, T(s, t).sub);
    }
  }

  /** No step panics: a send always finds the channel open, and neither channel is closed twice. */
  lemma NoPanic(s: State, e: Step)
    requires Inv(s) && Enabled(s, e)
    ensures !Do(s, e).panicked
  {
    hide FreshInv, Conserved, Offer, Count, Queue;
    if e.ScanOne? {
      assert Known(s, e.id) && Progress(s, e.id);
    }
  }

  lemma StepKeepsInv(s: State, e: Step)
    requires Inv(s) && Enabled(s, e)
    ensures Inv(Do(s, e))
  {
    LockKept(s, e);
    IdKept(s, e);
    FreshKept(s, e);
    if TouchesClose(e) { CloseKeptInside(s, e); }
    else if TouchesData(e) { CloseKeptByData(s, e); }
    else { CloseKeptByControl(s, e); }
    FullKept(s, e);
    ConservedKept(s, e);
    NoPanic(s, e);
  }

  /** A run: every step enabled where it is taken. */
  ghost predicate Runs(s: State, es: seq<Step>)
    decreases |es|
  {
    es == [] || (Enabled(s, es[0]) && Runs(Do(s, es[0]), es[1..]))
  }

  ghost function After(s: State, es: seq<Step>): State
    requires Runs(s, es)
    decreases |es|
  {
    if es == [] then s else After(Do(s, es[0]), es[1..])
  }

  lemma {:induction false} RunKeepsInv(s: State, es: seq<Step>)
    requires Inv(s) && Runs(s, es)
    ensures Inv(After(s, es))
    decreases |es|
  {
    hide Inv, Enabled, Do;
    if es == [] {
    } else {
      StepKeepsInv(s, es[0]);
      RunKeepsInv(Do(s, es[0]), es[1..]);
    }
  }

  // ---------------------------------------------------------------- what every run guarantees

  /** Over all interleavings: no send on a closed channel and no second close; each event a
      subscription was offered is received, buffered, dropped or in the hands of a publisher
      about to count the drop, in order; and at most one publisher ever queues it for closing while fewer than 2^64 + 256 events were dropped. */
  lemma BusIsSafe(es: seq<Step>, id: nat)
    requires Runs(Init(), es) && id in After(Init(), es).subs
    ensures !After(Init(), es).panicked
    ensures var b := After(Init(), es).subs[id];
      && b.sent == b.got + b.buf && |b.buf| <= BUFFER
      && b.attempts == |b.got| + |b.buf| + b.drops + |b.full|
      && (forall t :: t in b.full <==> T(After(Init(), es), t).Dropping? && T(After(Init(), es), t).sub == id)
      && (b.drops < U64 + DROP_THRESHOLD ==> b.escalated <= 1)
      && (b.drops < DROP_THRESHOLD ==> b.escalated == 0)
  {
    InitInv();
    RunKeepsInv(Init(), es);
    assert Conserved(After(Init(), es).subs[id]);
  }

  // ---------------------------------------------------------------- no deadlock

  /** Go's lock lets no new reader in while a writer waits. */
  ghost predicate WriterWaits(s: State) {
    exists t :: WantsWrite(T(s, t))
  }

  predicate WantsWrite(pc: Thread) {
    pc.SubWant? || (pc.Closing? && pc.stage.WantLock?)
  }

  ghost predicate CanGo(s: State, e: Step) {
    Enabled(s, e) && Actor(e).Some? && !T(s, Actor(e).value).Idle? && (e.RLock? ==> !WriterWaits(s))
  }

  /** The goroutine that can move when `t` cannot. */
  lemma SomeoneCanGo(s: State, t: nat) returns (e: Step)
    requires Inv(s) && !T(s, t).Idle?
    ensures CanGo(s, e)
  {
    if WriterWaits(s) || T(s, t).WantRead? {
      e := LockMoves(s, t);
    } else {
      e := NoWaitMoves(s, t);
    }
  }

  /** With someone at the lock, either its holder moves or the lock is granted. */
  lemma LockMoves(s: State, t: nat) returns (e: Step)
    requires Inv(s) && (WriterWaits(s) || T(s, t).WantRead?)
    ensures CanGo(s, e)
  {
    hide CloseInv, FreshInv, Conserved;
    if s.writer.Some? {
      var u := s.writer.value;
      HolderKnown(s, u);
      e := UpdateAndUnlock(u);
    } else if WriterWaits(s) {
      if s.readers == {} {
        var w :| WantsWrite(T(s, w));
        e := Lock(w);
      } else {
        var r :| r in s.readers;
        if T(s, r).Dropping? {
          HeldIsKnown(s, r, T(s, r).sub);
          e := CountDrop(r);
        } else if T(s, r).todo == {} {
          e := RUnlock(r);
        } else {
          var id :| id in T(s, r).todo;
          assert Known(s, id);
          e := ScanOne(r, id);
        }
      }
    } else {
      e := RLock(t);
    }
  }

  lemma HolderKnown(s: State, u: nat)
    requires Inv(s) && s.writer == Some(u)
    ensures Enabled(s, UpdateAndUnlock(u))
  {}

  /** Nobody waits for the lock: `t` moves, or the goroutine running the Close it waits for. */
  lemma NoWaitMoves(s: State, t: nat) returns (e: Step)
    requires Inv(s) && !T(s, t).Idle? && !WriterWaits(s) && !T(s, t).WantRead?
    ensures CanGo(s, e)
  {
    hide Conserved;
    var pc := T(s, t);
    assert WantsWrite(T(s, t)) ==> WriterWaits(s);
    match pc
    case Scan(_, todo, _) =>
      if todo == {} {
        e := RUnlock(t);
      } else {
        var id :| id in todo;
        assert Known(s, id);
        e := ScanOne(t, id);
      }
    case Dropping(sub, _, _, _) =>
      HeldIsKnown(s, t, sub);
      e := CountDrop(t);
    case Escalate(_) => e := NextClose(t);
    case AtOnce(sub, _) =>
      HeldIsKnown(s, t, sub);
      if s.subs[sub].once.Running? {
        assert Progress(s, sub);
        e := CloserMoves(s, s.subs[sub].once.owner);
      } else {
        e := EnterOnce(t);
      }
    case Closing(_, _, _) => e := CloserMoves(s, t);
    case SubLocked(_) => e := UpdateAndUnlock(t);
  }

  lemma CloserMoves(s: State, t: nat) returns (e: Step)
    requires Inv(s) && T(s, t).Closing? && !WriterWaits(s)
    ensures CanGo(s, e)
  {
    hide Conserved, FreshInv;
    var pc := T(s, t);
    HeldIsKnown(s, t, pc.sub);
    assert WantsWrite(T(s, t)) ==> WriterWaits(s);
    match pc.stage
    case Locked => e := UpdateAndUnlock(t);
    case Deleted => e := CloseDone(t);
    case DoneClosed => e := CloseCh(t);
    case ChClosed => e := ExitOnce(t);
  }

  /** In no reachable state are all busy goroutines stuck, and a goroutine that waits for the
      write lock never holds the read lock itself. */
  lemma NoDeadlock(es: seq<Step>, t: nat)
    requires Runs(Init(), es) && !T(After(Init(), es), t).Idle?
    ensures exists e :: CanGo(After(Init(), es), e)
    ensures WantsWrite(T(After(Init(), es), t)) ==> t !in After(Init(), es).readers
  {
    InitInv();
    RunKeepsInv(Init(), es);
    var e := SomeoneCanGo(After(Init(), es), t);
  }
}
