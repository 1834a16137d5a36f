/** What Publish, Subscribe and Close of the event bus achieve (bus.go), over every run of the
    goroutine model in `Bus`: who is offered an event, who is in the map, and that a subscription
    queued for closing is closed. */
module BusDelivery {
  import opened Wrappers
  import opened Bus

  // ---------------------------------------------------------------- the states of a run

  /** All states a run passes through. */
  ghost function States(s: State, es: seq<Step>): (ss: seq<State>)
    requires Runs(s, es)
    ensures |ss| == |es| + 1 && ss[0] == s
    decreases |es|
  {
    if es == [] then [s] else [s] + States(Do(s, es[0]), es[1..])
  }

  /** The states of a run are those of a legal run of the bus from its start. */
  ghost predicate Linked(ss: seq<State>, es: seq<Step>) {
    && |ss| == |es| + 1
    && (forall k :: 0 <= k <= |es| ==> Inv(ss[k]))
    && (forall k :: 0 <= k < |es| ==> Enabled(ss[k], es[k]) && ss[k + 1] == Do(ss[k], es[k]))
  }

  lemma {:induction false} StatesAreLinked(s: State, es: seq<Step>)
    requires Inv(s) && Runs(s, es)
    ensures Linked(States(s, es), es)
    ensures States(s, es)[|es|] == After(s, es)
    decreases |es|
  {
    hide Inv, Enabled, Do;
    if es == [] {
    } else {
      StepKeepsInv(s, es[0]);
      StatesAreLinked(Do(s, es[0]), es[1..]);
      var ss, rest := States(s, es), States(Do(s, es[0]), es[1..]);
      assert ss[1..] == rest;
      forall k | 0 <= k < |es|
        ensures Enabled(ss[k], es[k]) && ss[k + 1] == Do(ss[k], es[k])
      {
        if k > 0 {
          assert ss[k] == rest[k - 1] && es[k] == es[1..][k - 1];
        }
      }
      forall k | 0 <= k <= |es|
        ensures Inv(ss[k])
      {
        if k > 0 { assert ss[k] == rest[k - 1]; }
      }
    }
  }

  // ---------------------------------------------------------------- one step

  /** Nobody but a goroutine itself moves it. */
  lemma Elsewhere(s: State, e: Step, t: nat)
    requires Enabled(s, e) && Actor(e) != Some(t)
    ensures T(Do(s, e), t) == T(s, t)
  {
    OtherThreads(s, e);
  }

  /** Subscriptions stay, with their session filter. */
  lemma SubStays(s: State, e: Step, id: nat)
    requires Inv(s) && Enabled(s, e) && id in s.subs
    ensures id in Do(s, e).subs && Do(s, e).subs[id].session == s.subs[id].session
  {
    hide LockInv, FreshInv, CloseInv, Conserved, FullInv;
  }

  /** One step of a publisher inside its scan other than leaving it. */
  lemma ScanStep(s: State, e: Step, t: nat)
    requires Inv(s) && Enabled(s, e) && Actor(e) == Some(t) && InScan(T(s, t)) && e != RUnlock(t)
    ensures InScan(T(Do(s, e), t)) && T(Do(s, e), t).ev == T(s, t).ev
    ensures e == CountDrop(t) || exists id :: e == ScanOne(t, id)
    ensures e.ScanOne? ==> T(s, t).Scan? && e.id in T(s, t).todo && T(Do(s, e), t).todo == T(s, t).todo - {e.id}
    ensures e.CountDrop? ==> T(s, t).Dropping? && T(Do(s, e), t).Scan? && T(Do(s, e), t).todo == T(s, t).todo
  {
    hide LockInv, IdInv, FreshInv, CloseInv, Conserved, FullInv;
    if e.ScanOne? { assert e == ScanOne(t, e.id); }
  }

  /** What looking at one subscription does to it: nothing if the event is not for it, otherwise
      the event is appended, or 64 events are waiting and the publisher turns to count a drop. */
  lemma ScanEffect(s: State, t: nat, id: nat)
    requires Inv(s) && Enabled(s, ScanOne(t, id))
    ensures var s', ev := Do(s, ScanOne(t, id)), T(s, t).ev;
      && (forall x :: x in s.subs && x != id ==> x in s'.subs && s'.subs[x] == s.subs[x])
      && id in s'.subs
      && if s.subs[id].session != "" && s.subs[id].session != ev.session
         then s'.subs[id] == s.subs[id] && T(s', t).Scan?
         else if |s.subs[id].buf| < 64
         then s'.subs[id].buf == s.subs[id].buf + [ev] && T(s', t).Scan?
         else |s.subs[id].buf| == 64 && s'.subs[id].buf == s.subs[id].buf && T(s', t).Dropping? && T(s', t).sub == id
  {
    hide LockInv, IdInv, FreshInv, FullInv;
    assert id in T(s, t).todo && Conserved(s.subs[id]);
    NoPanic(s, ScanOne(t, id));
  }

  /** Counting a drop: the counter goes up by one, modulo 2^64, and the buffer stays. */
  lemma DropEffect(s: State, t: nat)
    requires Inv(s) && Enabled(s, CountDrop(t))
    ensures T(s, t).Dropping? && T(s, t).sub in s.subs
    ensures var s', id := Do(s, CountDrop(t)), T(s, t).sub;
      && (forall x :: x in s.subs && x != id ==> x in s'.subs && s'.subs[x] == s.subs[x])
      && id in s'.subs && s'.subs[id].buf == s.subs[id].buf
      && s'.subs[id].drops == s.subs[id].drops + 1
      && s'.subs[id].dropped == (s.subs[id].dropped + 1) % 0x1_0000_0000_0000_0000
  {
    hide LockInv, IdInv, FreshInv, CloseInv, Conserved, FullInv;
  }

  // ---------------------------------------------------------------- one Publish

  /** The goroutine has looked at the subscription in steps `a` to `k`. */
  ghost predicate Scanned(es: seq<Step>, a: nat, k: nat, t: nat, id: nat)
    requires k <= |es|
  {
    exists x :: a <= x < k && es[x] == ScanOne(t, id)
  }

  /** The goroutine does not leave its scan in steps `a` to `k`. */
  ghost predicate Inside(es: seq<Step>, a: nat, k: nat, t: nat)
    requires k <= |es|
  {
    forall x :: a <= x < k ==> es[x] != RUnlock(t)
  }

  /** What a publisher has still to look at is the map it found less what it has looked at. */
  lemma {:induction false} ScanProgress(ss: seq<State>, es: seq<Step>, a: nat, k: nat, t: nat)
    requires Linked(ss, es) && a <= k <= |es| && InScan(T(ss[a], t)) && Inside(es, a, k, t)
    ensures InScan(T(ss[k], t)) && T(ss[k], t).ev == T(ss[a], t).ev
    ensures forall id :: id in T(ss[k], t).todo <==> id in T(ss[a], t).todo && !Scanned(es, a, k, t, id)
    decreases k
  {
    hide Inv, Enabled, Do;
    if k == a {
    } else {
      var p := k - 1;
      ScanProgress(ss, es, a, p, t);
      if Actor(es[p]) == Some(t) {
        ScanStep(ss[p], es[p], t);
      } else {
        Elsewhere(ss[p], es[p], t);
      }
      forall id
        ensures Scanned(es, a, k, t, id) <==> Scanned(es, a, p, t, id) || es[p] == ScanOne(t, id)
      {
        if Scanned(es, a, k, t, id) && es[p] != ScanOne(t, id) {
          var x :| a <= x < k && es[x] == ScanOne(t, id);
          assert x < p;
        }
      }
    }
  }

  /** No subscription is looked at twice. */
  lemma LookedAtOnce(ss: seq<State>, es: seq<Step>, a: nat, x: nat, y: nat, t: nat, id: nat)
    requires Linked(ss, es) && a <= x < |es| && a <= y < |es| && InScan(T(ss[a], t))
    requires Inside(es, a, x, t) && Inside(es, a, y, t) && es[x] == ScanOne(t, id) && es[y] == ScanOne(t, id)
    ensures x == y
  {
    hide Linked;
    NotBefore(ss, es, a, x, t, id);
    NotBefore(ss, es, a, y, t, id);
  }

  lemma NotBefore(ss: seq<State>, es: seq<Step>, a: nat, x: nat, t: nat, id: nat)
    requires Linked(ss, es) && a <= x < |es| && InScan(T(ss[a], t)) && Inside(es, a, x, t) && es[x] == ScanOne(t, id)
    ensures !Scanned(es, a, x, t, id)
  {
    hide Inv, Do, Scanned;
    ScanProgress(ss, es, a, x, t);
  }

  /** A publisher that found a buffer full counts the drop with its next step. */
  lemma {:induction false} DropFollows(ss: seq<State>, es: seq<Step>, k: nat, j: nat, t: nat) returns (m: nat)
    requires Linked(ss, es) && k <= j <= |es| && T(ss[k], t).Dropping? && T(ss[j], t).Scan?
    requires Inside(es, k, j, t)
    ensures k <= m < j && es[m] == CountDrop(t) && T(ss[m], t) == T(ss[k], t)
    ensures forall x :: k <= x < m ==> Actor(es[x]) != Some(t)
    decreases j - k
  {
    hide Inv, Enabled, Do;
    if Actor(es[k]) == Some(t) {
      ScanStep(ss[k], es[k], t);
      m := k;
    } else {
      Elsewhere(ss[k], es[k], t);
      m := DropFollows(ss, es, k + 1, j, t);
    }
  }

  /** A publisher about to count a drop has just found that buffer full. */
  lemma {:induction false} DropFollowsScan(ss: seq<State>, es: seq<Step>, a: nat, y: nat, t: nat) returns (k: nat)
    requires Linked(ss, es) && a <= y <= |es| && T(ss[a], t).Scan? && T(ss[y], t).Dropping? && Inside(es, a, y, t)
    ensures a <= k < y && es[k] == ScanOne(t, T(ss[y], t).sub)
    ensures forall x :: k < x < y ==> Actor(es[x]) != Some(t)
    decreases y
  {
    hide Inv;
    var p := y - 1;
    ScanProgress(ss, es, a, p, t);
    if Actor(es[p]) == Some(t) {
      ScanStep(ss[p], es[p], t);
      k := p;
      ScanEffect(ss[p], t, es[p].id);
    } else {
      Elsewhere(ss[p], es[p], t);
      hide Enabled, Do;
      k := DropFollowsScan(ss, es, a, p, t);
    }
  }

  /** A subscription stays, with its session filter, to the end of the run. */
  lemma {:induction false} SubPersists(ss: seq<State>, es: seq<Step>, a: nat, k: nat, id: nat)
    requires Linked(ss, es) && a <= k <= |es| && id in ss[a].subs
    ensures id in ss[k].subs && ss[k].subs[id].session == ss[a].subs[id].session
    decreases k
  {
    hide Inv, Enabled, Do;
    if a < k {
      SubPersists(ss, es, a, k - 1, id);
      SubStays(ss[k - 1], es[k - 1], id);
    }
  }

  /** The session filter of a subscription lets an event pass. */
  predicate ForIt(b: Sub, ev: Ev) {
    b.session == "" || b.session == ev.session
  }

  /** Step `x` leaves the subscription as it is. */
  ghost predicate Untouched(ss: seq<State>, x: nat, id: nat)
    requires x + 1 < |ss|
  {
    id in ss[x].subs && id in ss[x + 1].subs && ss[x + 1].subs[id] == ss[x].subs[id]
  }

  /** Between steps `i` and `j` the goroutine offers the event to the subscription exactly once:
      it is appended in step `k` (then `m` is `k`), or 64 events are waiting in step `k` and the
      drop is counted in step `m`; none of its other steps touches the subscription. */
  ghost predicate Offered(ss: seq<State>, es: seq<Step>, i: nat, j: nat, t: nat, id: nat, ev: Ev, k: nat, m: nat)
    requires |ss| == |es| + 1 && i < j < |es|
  {
    && i < k <= m < j && Actor(es[k]) == Some(t) == Actor(es[m])
    && id in ss[k].subs && id in ss[k + 1].subs && id in ss[m].subs && id in ss[m + 1].subs
    && (if m == k then ss[k + 1].subs[id].buf == ss[k].subs[id].buf + [ev]
        else && |ss[k].subs[id].buf| == 64 && ss[k + 1].subs[id].buf == ss[k].subs[id].buf
             && ss[m + 1].subs[id].buf == ss[m].subs[id].buf
             && ss[m + 1].subs[id].drops == ss[m].subs[id].drops + 1
             && ss[m + 1].subs[id].dropped == (ss[m].subs[id].dropped + 1) % 0x1_0000_0000_0000_0000)
    && (forall x :: i < x < j && Actor(es[x]) == Some(t) && x != k && x != m ==> Untouched(ss, x, id))
  }

  /** What `t`'s scanning steps other than those on `id` do to it. */
  lemma OtherStepsSpare(ss: seq<State>, es: seq<Step>, x: nat, t: nat, id: nat)
    requires Linked(ss, es) && x < |es| && id in ss[x].subs && InScan(T(ss[x], t)) && Actor(es[x]) == Some(t)
    requires es[x] != RUnlock(t) && es[x] != ScanOne(t, id) && (T(ss[x], t).Dropping? ==> T(ss[x], t).sub != id)
    ensures Untouched(ss, x, id)
  {
    hide Inv, Do, Enabled;
    ScanStep(ss[x], es[x], t);
    if es[x].ScanOne? {
      ScanEffect(ss[x], t, es[x].id);
    } else {
      DropEffect(ss[x], t);
    }
  }

  lemma ScanStarts(ss: seq<State>, es: seq<Step>, i: nat, t: nat)
    requires Linked(ss, es) && i < |es| && es[i] == RLock(t) && T(ss[i], t).WantRead?
    ensures T(ss[i + 1], t) == Scan(T(ss[i], t).ev, ss[i].active, [])
  {
    hide Inv;
  }

  /** When the lock is given back everything has been looked at. */
  lemma ScanEnds(ss: seq<State>, es: seq<Step>, i: nat, j: nat, t: nat, id: nat) returns (k: nat)
    requires Linked(ss, es) && i < j < |es| && es[i] == RLock(t) && es[j] == RUnlock(t) && Inside(es, i + 1, j, t)
    requires id in ss[i].active && T(ss[i], t).WantRead?
    ensures i < k < j && es[k] == ScanOne(t, id) && T(ss[k], t).Scan? && T(ss[k], t).ev == T(ss[i], t).ev
    ensures T(ss[j], t).Scan? && Enabled(ss[k], es[k])
  {
    hide Inv, Do, Enabled, T;
    ScanStarts(ss, es, i, t);
    UnlockStep(ss[j], t);
    ScanProgress(ss, es, i + 1, j, t);
    assert Scanned(es, i + 1, j, t, id);
    k :| i + 1 <= k < j && es[k] == ScanOne(t, id);
    ScanProgress(ss, es, i + 1, k, t);
    LookStep(ss[k], t, id);
  }

  lemma UnlockStep(s: State, t: nat)
    requires Enabled(s, RUnlock(t))
    ensures T(s, t).Scan? && T(s, t).todo == {}
  {}

  lemma LookStep(s: State, t: nat, id: nat)
    requires Enabled(s, ScanOne(t, id))
    ensures T(s, t).Scan?
  {}

  /** A subscription in the map when the scan starts, and meant by the event, is offered it once. */
  lemma OfferedOnce(ss: seq<State>, es: seq<Step>, i: nat, j: nat, t: nat, id: nat) returns (k: nat, m: nat)
    requires Linked(ss, es) && i < j < |es| && es[i] == RLock(t) && es[j] == RUnlock(t) && Inside(es, i + 1, j, t)
    requires id in ss[i].active && id in ss[i].subs && T(ss[i], t).WantRead? && ForIt(ss[i].subs[id], T(ss[i], t).ev)
    ensures Offered(ss, es, i, j, t, id, T(ss[i], t).ev, k, m)
  {
    assert |ss| == |es| + 1;
    hide Linked, Scanned, Untouched, T;
    k := ScanEnds(ss, es, i, j, t, id);
    SubPersists(ss, es, i, k, id);
    m := ScanOutcome(ss, es, k, j, t, id);
    forall x | i < x < j && Actor(es[x]) == Some(t) && x != k && x != m
      ensures Untouched(ss, x, id)
    {
      NotAgain(ss, es, i, j, t, id, k, m, x);
    }
  }

  /** Step `k` looks at a subscription the event is meant for: appended, or counted as a drop in step `m`. */
  lemma ScanOutcome(ss: seq<State>, es: seq<Step>, k: nat, j: nat, t: nat, id: nat) returns (m: nat)
    requires Linked(ss, es) && k < j < |es| && es[k] == ScanOne(t, id) && Enabled(ss[k], es[k]) && Inside(es, k, j, t)
    requires T(ss[k], t).Scan? && T(ss[j], t).Scan? && id in ss[k].subs && ForIt(ss[k].subs[id], T(ss[k], t).ev)
    ensures k <= m < j && Actor(es[m]) == Some(t) && (m == k ==> T(ss[k + 1], t).Scan?)
    ensures forall y :: k < y < m ==> Actor(es[y]) != Some(t)
    ensures id in ss[k + 1].subs && id in ss[m].subs && id in ss[m + 1].subs
    ensures if m == k then ss[k + 1].subs[id].buf == ss[k].subs[id].buf + [T(ss[k], t).ev]
            else && |ss[k].subs[id].buf| == 64 && ss[k + 1].subs[id].buf == ss[k].subs[id].buf
                 && ss[m + 1].subs[id].buf == ss[m].subs[id].buf
                 && ss[m + 1].subs[id].drops == ss[m].subs[id].drops + 1
                 && ss[m + 1].subs[id].dropped == (ss[m].subs[id].dropped + 1) % 0x1_0000_0000_0000_0000
  {
    hide Inv, Do, Enabled;
    ScanEffect(ss[k], t, id);
    m := k;
    if |ss[k].subs[id].buf| == 64 {
      m := DropFollows(ss, es, k + 1, j, t);
      DropEffect(ss[m], t);
    }
  }

  /** After it has been offered the event the scan leaves a subscription alone. */
  lemma NotAgain(ss: seq<State>, es: seq<Step>, i: nat, j: nat, t: nat, id: nat, k: nat, m: nat, x: nat)
    requires Linked(ss, es) && i < k <= m < j < |es| && es[i] == RLock(t) && Inside(es, i + 1, j, t)
    requires T(ss[i], t).WantRead? && id in ss[i].subs
    requires es[k] == ScanOne(t, id) && Actor(es[m]) == Some(t) && (m == k ==> T(ss[k + 1], t).Scan?)
    requires forall y :: k < y < m ==> Actor(es[y]) != Some(t)
    requires i < x < j && Actor(es[x]) == Some(t) && x != k && x != m
    ensures Untouched(ss, x, id)
  {
    ScanStarts(ss, es, i, t);
    hide Inv, Do, Enabled, Scanned, Untouched;
    SubPersists(ss, es, i, x, id);
    ScanProgress(ss, es, i + 1, x, t);
    if es[x] == ScanOne(t, id) { LookedAtOnce(ss, es, i + 1, k, x, t, id); }
    if T(ss[x], t).Dropping? && T(ss[x], t).sub == id { DropIsThisOne(ss, es, i + 1, x, k, m, t, id); }
    OtherStepsSpare(ss, es, x, t, id);
  }

  /** The only drop `t` counts for `id` in its scan is the one after looking at it. */
  lemma DropIsThisOne(ss: seq<State>, es: seq<Step>, a: nat, x: nat, k: nat, m: nat, t: nat, id: nat)
    requires Linked(ss, es) && a <= k <= m < |es| && a <= x < |es| && T(ss[a], t).Scan?
    requires Inside(es, a, x, t) && Inside(es, a, k, t)
    requires es[k] == ScanOne(t, id) && T(ss[x], t).Dropping? && T(ss[x], t).sub == id
    requires Actor(es[x]) == Some(t) && Actor(es[m]) == Some(t)
    requires m == k ==> T(ss[k + 1], t).Scan?
    requires forall y :: k < y < m ==> Actor(es[y]) != Some(t)
    ensures x == m
  {
    var k' := DropFollowsScan(ss, es, a, x, t);
    hide Inv, Do, Enabled, Scanned;
    LookedAtOnce(ss, es, a, k, k', t, id);
    SameUntil(ss, es, k + 1, x, t);
  }

  lemma {:induction false} SameUntil(ss: seq<State>, es: seq<Step>, a: nat, x: nat, t: nat)
    requires Linked(ss, es) && a <= x <= |es| && forall y :: a <= y < x ==> Actor(es[y]) != Some(t)
    ensures T(ss[x], t) == T(ss[a], t)
    decreases x
  {
    hide Inv, Do, Enabled;
    if a < x {
      SameUntil(ss, es, a, x - 1, t);
      Elsewhere(ss[x - 1], es[x - 1], t);
    }
  }

  /** A subscription outside the map when the scan starts, or not meant by the event, is not touched. */
  lemma NotOffered(ss: seq<State>, es: seq<Step>, i: nat, j: nat, t: nat, id: nat, x: nat)
    requires Linked(ss, es) && i < x < j < |es| && es[i] == RLock(t) && Inside(es, i + 1, j, t)
    requires T(ss[i], t).WantRead? && Actor(es[x]) == Some(t) && id in ss[x].subs
    requires id !in ss[i].active || !ForIt(ss[x].subs[id], T(ss[i], t).ev)
    ensures Untouched(ss, x, id)
  {
    var a := i + 1;
    ScanStarts(ss, es, i, t);
    hide Inv, Do;
    ScanProgress(ss, es, a, x, t);
    if T(ss[x], t).Dropping? && T(ss[x], t).sub == id {
      var k := DropFollowsScan(ss, es, a, x, t);
      ScanProgress(ss, es, a, k, t);
      assert id in T(ss[k], t).todo;
      ScanEffect(ss[k], t, id);
      SubPersists(ss, es, k, x, id);
      SameUntil(ss, es, k + 1, x, t);
    }
    if es[x] == ScanOne(t, id) {
      assert id in T(ss[x], t).todo;
      ScanEffect(ss[x], t, id);
    } else {
      hide Enabled;
      OtherStepsSpare(ss, es, x, t, id);
    }
  }

  /** The subscription is offered the event exactly once, if its session is empty or the event's. */
  ghost predicate Reached(ss: seq<State>, es: seq<Step>, i: nat, j: nat, t: nat, id: nat, ev: Ev)
    requires |ss| == |es| + 1 && i < j < |es|
  {
    id in ss[i].subs &&
    (ss[i].subs[id].session == "" || ss[i].subs[id].session == ev.session ==> exists k, m :: Offered(ss, es, i, j, t, id, ev, k, m))
  }

  /** Step `x` touches no subscription that was not in the map at `i`, or is not meant by the event. */
  ghost predicate SparesOthers(ss: seq<State>, i: nat, x: nat, ev: Ev)
    requires i < |ss| && x + 1 < |ss|
  {
    forall id :: id in ss[x].subs
                 && (id !in ss[i].active || (ss[x].subs[id].session != "" && ss[x].subs[id].session != ev.session)) ==>
      Untouched(ss, x, id)
  }

  /** Publish(ev) by goroutine `t`, called in step `h`, taking the read lock in step `i` and giving
      it back in step `j`, in any run: every subscription that is in the map at `i` and whose
      session is empty or the event's is offered the event exactly once; `t` touches no other. */
  lemma PublishReachesSubscribers(es: seq<Step>, h: nat, i: nat, j: nat, t: nat, ev: Ev)
    requires Runs(Init(), es) && h < i < j < |es|
    requires es[h] == PublishCall(t, ev) && es[i] == RLock(t) && es[j] == RUnlock(t)
    requires forall x :: h < x < j && x != i ==> es[x] != RLock(t) && es[x] != RUnlock(t)
    ensures var ss := States(Init(), es);
      && (forall id :: id in ss[i].active ==> Reached(ss, es, i, j, t, id, ev))
      && (forall x :: i < x < j && Actor(es[x]) == Some(t) ==> SparesOthers(ss, i, x, ev))
  {
    InitInv();
    StatesAreLinked(Init(), es);
    var ss := States(Init(), es);
    PublishWaits(ss, es, h, i, t, ev);
    assert Inside(es, i + 1, j, t);
    hide Inv, Do, Enabled, States, Runs, Reached, SparesOthers, Inside, Linked;
    forall id | id in ss[i].active
      ensures Reached(ss, es, i, j, t, id, ev)
    {
      ReachedOnce(ss, es, i, j, t, id);
    }
    forall x | i < x < j && Actor(es[x]) == Some(t)
      ensures SparesOthers(ss, i, x, ev)
    {
      OthersSpared(ss, es, i, j, t, x);
    }
  }

  lemma ReachedOnce(ss: seq<State>, es: seq<Step>, i: nat, j: nat, t: nat, id: nat)
    requires Linked(ss, es) && i < j < |es| && es[i] == RLock(t) && es[j] == RUnlock(t) && Inside(es, i + 1, j, t)
    requires T(ss[i], t).WantRead? && id in ss[i].active
    ensures Reached(ss, es, i, j, t, id, T(ss[i], t).ev)
  {
    MapIsKnown(ss, es, i);
    assert |ss| == |es| + 1;
    hide Linked, Offered;
    if ForIt(ss[i].subs[id], T(ss[i], t).ev) {
      var k, m := OfferedOnce(ss, es, i, j, t, id);
    }
  }

  lemma OthersSpared(ss: seq<State>, es: seq<Step>, i: nat, j: nat, t: nat, x: nat)
    requires Linked(ss, es) && i < x < j < |es| && es[i] == RLock(t) && Inside(es, i + 1, j, t)
    requires T(ss[i], t).WantRead? && Actor(es[x]) == Some(t)
    ensures SparesOthers(ss, i, x, T(ss[i], t).ev)
  {
    assert |ss| == |es| + 1;
    hide Linked, Untouched;
    forall id | id in ss[x].subs && (id !in ss[i].active || !ForIt(ss[x].subs[id], T(ss[i], t).ev))
      ensures Untouched(ss, x, id)
    {
      NotOffered(ss, es, i, j, t, id, x);
    }
  }

  lemma MapIsKnown(ss: seq<State>, es: seq<Step>, i: nat)
    requires Linked(ss, es) && i <= |es|
    ensures forall id :: id in ss[i].active ==> id in ss[i].subs
  {
    assert Inv(ss[i]);
    assert forall id :: id in ss[i].active ==> Known(ss[i], id);
  }

  /** From the call to the read lock a publisher holds its event and does nothing else. */
  lemma {:induction false} PublishWaits(ss: seq<State>, es: seq<Step>, h: nat, i: nat, t: nat, ev: Ev)
    requires Linked(ss, es) && h < i <= |es| && es[h] == PublishCall(t, ev)
    requires forall x :: h < x < i ==> es[x] != RLock(t)
    ensures T(ss[i], t) == WantRead(ev)
    decreases i
  {
    hide Inv, Do, Enabled;
    CallStep(ss[h], t, ev);
    if i > h + 1 {
      PublishWaits(ss, es, h, i - 1, t, ev);
      WaitStep(ss[i - 1], es[i - 1], t);
    }
  }

  lemma CallStep(s: State, t: nat, ev: Ev)
    requires Enabled(s, PublishCall(t, ev))
    ensures T(Do(s, PublishCall(t, ev)), t) == WantRead(ev)
  {}

  lemma WaitStep(s: State, e: Step, t: nat)
    requires Enabled(s, e) && T(s, t).WantRead?
    ensures e == RLock(t) || T(Do(s, e), t) == T(s, t)
  {
    if Actor(e) != Some(t) { Elsewhere(s, e, t); }
  }

  // ---------------------------------------------------------------- closing

  /** The subscriptions a goroutine has still to close or is closing. */
  function ToClose(pc: Thread): seq<nat> {
    if pc.Dropping? then pc.esc else Queue(pc)
  }

  /** Close has run: both channels are closed and the map does not hold the subscription. */
  ghost predicate Closed(s: State, id: nat) {
    id in s.subs && s.subs[id].once.Finished? && s.subs[id].doneClosed && s.subs[id].chClosed && id !in s.active
  }

  ghost predicate Finishing(s: State, t: nat, id: nat) {
    id in ToClose(T(s, t)) || (id in s.subs && s.subs[id].once.Finished?)
  }

  lemma OnceStays(s: State, e: Step, id: nat)
    requires Inv(s) && Enabled(s, e) && id in s.subs && s.subs[id].once.Finished?
    ensures id in Do(s, e).subs && Do(s, e).subs[id].once.Finished?
  {
    hide LockInv, FreshInv, Conserved, FullInv, Offer, Count, Queue;
    if InPublish(e) { PublishKeepsFlags(s, e); }
    if e.ExitOnce? || e.CloseDone? || e.CloseCh? { assert Progress(s, id); }
  }

  lemma FinishingStep(s: State, e: Step, t: nat, id: nat)
    requires Inv(s) && Enabled(s, e) && Finishing(s, t, id)
    ensures Finishing(Do(s, e), t, id)
  {
    hide Do, Enabled, Inv, Queue;
    if id in s.subs && s.subs[id].once.Finished? {
      OnceStays(s, e, id);
    } else if Actor(e) != Some(t) {
      Elsewhere(s, e, t);
    } else {
      OwnStep(s, e, t, id);
    }
  }

  lemma OwnStep(s: State, e: Step, t: nat, id: nat)
    requires Enabled(s, e) && Actor(e) == Some(t) && id in ToClose(T(s, t))
    ensures Finishing(Do(s, e), t, id)
  {
    hide Offer, Count;
  }

  /** A goroutine that has a subscription to close keeps it until the subscription is closed. */
  lemma {:induction false} FinishingStays(ss: seq<State>, es: seq<Step>, a: nat, k: nat, t: nat, id: nat)
    requires Linked(ss, es) && a <= k <= |es| && Finishing(ss[a], t, id)
    ensures Finishing(ss[k], t, id)
    ensures T(ss[k], t).Idle? ==> Closed(ss[k], id)
    decreases k
  {
    hide Do, Enabled;
    if a < k {
      FinishingStays(ss, es, a, k - 1, t, id);
      FinishingStep(ss[k - 1], es[k - 1], t, id);
    }
    if T(ss[k], t).Idle? {
      assert Inv(ss[k]) && Progress(ss[k], id);
    }
  }

  /** A publisher whose count is the 256th drop keeps the subscription to close; once the publisher
      is idle again, the subscription is closed, whoever closed it. */
  lemma EscalationIsCarriedOut(es: seq<Step>, m: nat, k: nat, t: nat, id: nat)
    requires Runs(Init(), es) && m < k <= |es| && es[m] == CountDrop(t)
    requires T(States(Init(), es)[m], t).Dropping? && T(States(Init(), es)[m], t).sub == id
    requires id in States(Init(), es)[m + 1].subs && States(Init(), es)[m + 1].subs[id].dropped == 256
    ensures var s := States(Init(), es)[k];
      && (id in ToClose(T(s, t)) || (id in s.subs && s.subs[id].once.Finished?))
      && (T(s, t).Idle? ==> Closed(s, id))
  {
    InitInv();
    StatesAreLinked(Init(), es);
    CountQueues(States(Init(), es)[m], t);
    hide Inv, Do, Enabled, Runs, States;
    FinishingStays(States(Init(), es), es, m + 1, k, t, id);
  }

  lemma CountQueues(s: State, t: nat)
    requires Inv(s) && Enabled(s, CountDrop(t))
    requires T(s, t).sub in Do(s, CountDrop(t)).subs && Do(s, CountDrop(t)).subs[T(s, t).sub].dropped == 256
    ensures T(s, t).sub in ToClose(T(Do(s, CountDrop(t)), t))
  {
    hide Inv;
  }

  /** When a call of Close returns, the subscription is closed and out of the map. */
  lemma CloseCloses(es: seq<Step>, m: nat, k: nat, t: nat, id: nat)
    requires Runs(Init(), es) && m < k <= |es| && es[m] == CloseCall(t, id)
    requires T(States(Init(), es)[k], t).Idle?
    ensures Closed(States(Init(), es)[k], id)
  {
    InitInv();
    StatesAreLinked(Init(), es);
    CallQueues(States(Init(), es)[m], t, id);
    hide Inv, Do, Enabled, Runs, States;
    FinishingStays(States(Init(), es), es, m + 1, k, t, id);
  }

  lemma CallQueues(s: State, t: nat, id: nat)
    requires Enabled(s, CloseCall(t, id))
    ensures id in ToClose(T(Do(s, CloseCall(t, id)), t))
  {
    assert id in [id] + [];
  }

  // ---------------------------------------------------------------- the map

  /** A subscription leaves the map only when its Close deletes it. */
  lemma LeavesByClose(s: State, e: Step, id: nat)
    requires Enabled(s, e) && id in s.active && id !in Do(s, e).active
    ensures e.UpdateAndUnlock? && T(s, e.t).Closing? && T(s, e.t).sub == id
  {}

  /** The goroutine is back from Subscribe: a subscription with that filter is in the map. */
  ghost predicate Joined(s: State, t: nat, id: nat, session: string) {
    && T(s, t).Idle? && id in s.active && id in s.subs
    && s.subs[id].session == session && s.subs[id].once.NotRun?
  }

  /** Subscribe(session) by goroutine `t`, called in step `h` and releasing the write lock in step
      `j`, leaves a new subscription with that filter in the map. */
  lemma SubscribeJoins(es: seq<Step>, h: nat, j: nat, t: nat, session: string)
    requires Runs(Init(), es) && h < j < |es| && es[h] == SubscribeCall(t, session) && es[j] == UpdateAndUnlock(t)
    requires forall x :: h < x < j ==> es[x] != UpdateAndUnlock(t)
    ensures exists id :: id !in States(Init(), es)[h].subs && Joined(States(Init(), es)[j + 1], t, id, session)
  {
    InitInv();
    StatesAreLinked(Init(), es);
    hide *;
    JoinedAt(States(Init(), es), es, h, j, t, session);
  }

  lemma JoinedAt(ss: seq<State>, es: seq<Step>, h: nat, j: nat, t: nat, session: string)
    requires Linked(ss, es) && h < j < |es| && es[h] == SubscribeCall(t, session) && es[j] == UpdateAndUnlock(t)
    requires forall x :: h < x < j ==> es[x] != UpdateAndUnlock(t)
    requires |ss| == |es| + 1
    ensures exists id :: id !in ss[h].subs && Joined(ss[j + 1], t, id, session)
  {
    hide Inv, Do, Enabled, Queue;
    Subscribing(ss, es, h, j, t, session);
    IdIsNew(ss[h]);
    Joins(ss[j], t);
    assert Joined(ss[j + 1], t, ss[h].lastId + 1, session);
  }

  lemma IdIsNew(s: State)
    requires Inv(s)
    ensures s.lastId + 1 !in s.subs
  {}

  lemma Joins(s: State, t: nat)
    requires Inv(s) && Enabled(s, UpdateAndUnlock(t)) && (T(s, t).SubWant? || T(s, t).SubLocked?)
    ensures var id, s' := T(s, t).sub, Do(s, UpdateAndUnlock(t));
      && id in s.subs && id in s'.active && id in s'.subs && T(s', t).Idle?
      && s'.subs[id].session == s.subs[id].session && s'.subs[id].once.NotRun?
  {
    hide LockInv, Conserved, FullInv;
    FreshIsUntouched(s, t);
  }

  lemma {:induction false} Subscribing(ss: seq<State>, es: seq<Step>, h: nat, k: nat, t: nat, session: string)
    requires Linked(ss, es) && h < k <= |es| && es[h] == SubscribeCall(t, session)
    requires forall x :: h < x < k ==> es[x] != UpdateAndUnlock(t)
    ensures T(ss[k], t) == SubWant(ss[h].lastId + 1) || T(ss[k], t) == SubLocked(ss[h].lastId + 1)
    ensures ss[h].lastId + 1 in ss[k].subs && ss[k].subs[ss[h].lastId + 1].session == session
    decreases k
  {
    var id := ss[h].lastId + 1;
    hide Inv;
    if k == h + 1 {
    } else {
      Subscribing(ss, es, h, k - 1, t, session);
      hide Do, Enabled;
      SubStays(ss[k - 1], es[k - 1], id);
      SubscribeStep(ss[k - 1], es[k - 1], t);
    }
  }

  lemma SubscribeStep(s: State, e: Step, t: nat)
    requires Enabled(s, e) && (T(s, t).SubWant? || T(s, t).SubLocked?)
    ensures e == UpdateAndUnlock(t) || T(Do(s, e), t) == T(s, t) || T(Do(s, e), t) == SubLocked(T(s, t).sub)
  {
    if Actor(e) != Some(t) { Elsewhere(s, e, t); }
  }
}
