/** Sensor table and id allocation (sensor_manager.c).

    The reference table is a map from wire id to (protocol, backend index) plus the id hint;
    the class keeps the firmware's eight slots and is proved to maintain that map. */
module Sensors {

  const SLOTS: nat := 8
  const ID_MAX: nat := 255

  datatype Entry = Entry(proto: nat, internal: nat)

  /** Live sensors by wire id, and the id the next search starts from. */
  datatype Table = Table(live: map<nat, Entry>, hint: nat)

  ghost predicate ValidTable(t: Table) {
    && 1 <= t.hint <= ID_MAX
    && |t.live| <= SLOTS
    && forall id :: id in t.live ==> 1 <= id <= ID_MAX
  }

  // ---------------------------------------------------------------- ids around the ring 1..255

  function Succ(id: nat): nat {
    if id == ID_MAX then 1 else id + 1
  }

  /** The id `k` places after `c`. */
  function Along(c: nat, k: nat): nat
    requires 1 <= c <= ID_MAX && k < ID_MAX
  {
    if c + k <= ID_MAX then c + k else c + k - ID_MAX
  }

  /** The first `n` ids from `c` on. */
  ghost function Arc(c: nat, n: nat): set<nat>
    requires 1 <= c <= ID_MAX && n <= ID_MAX
  {
    set k {:trigger Along(c, k)} | 0 <= k < n :: Along(c, k)
  }

  lemma {:induction false} ArcSize(c: nat, n: nat)
    requires 1 <= c <= ID_MAX && n <= ID_MAX
    ensures |Arc(c, n)| == n
    decreases n
  {
    if n == 0 {
      assert Arc(c, 0) == {};
    } else {
      ArcSize(c, n - 1);
      assert Arc(c, n) == Arc(c, n - 1) + {Along(c, n - 1)};
      assert Along(c, n - 1) !in Arc(c, n - 1);
    }
  }

  lemma {:induction false} SubsetSize<T>(a: set<T>, b: set<T>)
    requires a <= b
    ensures |a| <= |b|
    decreases a
  {
    if a == {} {
    } else {
      var x :| x in a;
      SubsetSize(a - {x}, b - {x});
    }
  }

  /** How many ids from `c` on are taken before the first free one, looking at most `tries`. */
  function Taken(used: set<nat>, c: nat, tries: nat): (k: nat)
    requires 1 <= c <= ID_MAX && tries <= ID_MAX
    ensures k <= tries
    ensures forall j :: 0 <= j < k ==> Along(c, j) in used
    ensures k < tries ==> Along(c, k) !in used
  {
    TakenFrom(used, c, 0, tries)
  }

  function TakenFrom(used: set<nat>, c: nat, k: nat, tries: nat): (r: nat)
    requires 1 <= c <= ID_MAX && k <= tries <= ID_MAX
    ensures k <= r <= tries
    ensures forall j :: k <= j < r ==> Along(c, j) in used
    ensures r < tries ==> Along(c, r) !in used
    decreases tries - k
  {
    if k == tries || Along(c, k) !in used then k else TakenFrom(used, c, k + 1, tries)
  }

  /** With `n` ids taken a free one is met within `n + 1` probes. */
  lemma FreeWithinProbes(used: set<nat>, c: nat)
    requires 1 <= c <= ID_MAX && |used| < ID_MAX
    ensures Taken(used, c, ID_MAX) <= |used|
  {
    var k := Taken(used, c, ID_MAX);
    if k > |used| {
      var n := |used| + 1;
      ArcSize(c, n);
      SubsetSize(Arc(c, n), used);
    }
  }

  // ---------------------------------------------------------------- reference operations

  /** The id a registration would hand out. */
  function NextId(t: Table): nat
    requires 1 <= t.hint <= ID_MAX
  {
    var k := Taken(t.live.Keys, t.hint, ID_MAX);
    if k < ID_MAX then Along(t.hint, k) else 0
  }

  /** Registration: nothing happens when the table is full, otherwise a fresh id is bound. */
  function Registered(t: Table, e: Entry): (r: (Table, nat))
    requires 1 <= t.hint <= ID_MAX
  {
    if |t.live| >= SLOTS then (t, 0)
    else (Table(t.live[NextId(t) := e], Succ(NextId(t))), NextId(t))
  }

  function Released(t: Table, id: nat): Table {
    t.(live := t.live - {id})
  }

  lemma RemoveSize<K, V>(m: map<K, V>, k: K)
    ensures |m - {k}| <= |m|
    ensures k in m ==> |m - {k}| == |m| - 1
  {
    assert (m - {k}).Keys == m.Keys - {k};
  }

  /** A registration succeeds whenever a slot is free, within eight probes; its id is not
      zero and not in use. */
  lemma RegisterSucceeds(t: Table, e: Entry)
    requires ValidTable(t)
    ensures ValidTable(Registered(t, e).0)
    ensures |t.live| < SLOTS ==>
              && Taken(t.live.Keys, t.hint, ID_MAX) < 8
              && 1 <= Registered(t, e).1 <= ID_MAX && Registered(t, e).1 !in t.live
              && Registered(t, e).0.live == t.live[Registered(t, e).1 := e]
    ensures |t.live| >= SLOTS ==> Registered(t, e) == (t, 0)
  {
    if |t.live| < SLOTS {
      FreeWithinProbes(t.live.Keys, t.hint);
      assert |t.live.Keys| == |t.live|;
      assert t.live[NextId(t) := e].Keys == t.live.Keys + {NextId(t)};
    }
  }

  // ---------------------------------------------------------------- delayed reuse of ids

  datatype Op = DoRegister(e: Entry) | DoRelease(id: nat)

  function Apply(t: Table, op: Op): (Table, nat)
    requires 1 <= t.hint <= ID_MAX
  {
    match op
    case DoRegister(e) => Registered(t, e)
    case DoRelease(id) => (Released(t, id), 0)
  }

  lemma ApplyValid(t: Table, op: Op)
    requires ValidTable(t)
    ensures ValidTable(Apply(t, op).0)
  {
    match op
    case DoRegister(e) => RegisterSucceeds(t, e);
    case DoRelease(id) => RemoveSize(t.live, id);
  }

  /** The table after a history. */
  ghost function After(t: Table, ops: seq<Op>): (r: Table)
    requires ValidTable(t)
    ensures ValidTable(r)
    decreases |ops|
  {
    if ops == [] then t
    else
      ApplyValid(t, ops[0]);
      After(Apply(t, ops[0]).0, ops[1..])
  }

  /** How many ids a history hands out. */
  ghost function HandOuts(t: Table, ops: seq<Op>): nat
    requires ValidTable(t)
    decreases |ops|
  {
    if ops == [] then 0
    else
      ApplyValid(t, ops[0]);
      (if Apply(t, ops[0]).1 != 0 then 1 else 0) + HandOuts(Apply(t, ops[0]).0, ops[1..])
  }

  /** State of the count since `x` was handed out: `old` are the other ids live at that time,
      `n` the hand-outs since, and the hint has moved `d` places past `x`. Every other live
      id lies behind the hint, and each place passed was a hand-out or an old id. */
  ghost predicate Passed(t: Table, x: nat, older: set<nat>, n: nat, d: nat) {
    && ValidTable(t) && 1 <= x <= ID_MAX && d < ID_MAX && |older| < SLOTS
    && t.hint == Along(Succ(x), d)
    && (forall y :: y in t.live && y != x && y !in older ==> y in Arc(Succ(x), d))
    && n + |older * Arc(Succ(x), d)| >= d
  }

  lemma NotBehind(c: nat, d: nat, k: nat)
    requires 1 <= c <= ID_MAX && d <= k < ID_MAX
    ensures Along(c, k) !in Arc(c, d)
  {}

  lemma ArcGrows(c: nat, n: nat)
    requires 1 <= c <= ID_MAX && n < ID_MAX
    ensures Arc(c, n + 1) == Arc(c, n) + {Along(c, n)} && Along(c, n) !in Arc(c, n)
  {}

  lemma AlongAlong(c: nat, d: nat, j: nat)
    requires 1 <= c <= ID_MAX && d < ID_MAX && d + j < ID_MAX
    ensures Along(Along(c, d), j) == Along(c, d + j)
  {}

  /** Places passed that are all old ids add up to the old ids passed. */
  lemma {:induction false} PassedCount(base: nat, older: set<nat>, d: nat, m: nat)
    requires 1 <= base <= ID_MAX && d <= m < ID_MAX
    requires forall j :: d <= j < m ==> Along(base, j) in older
    ensures |older * Arc(base, m)| >= |older * Arc(base, d)| + (m - d)
    decreases m
  {
    hide Arc, Along;
    if m == d {
    } else {
      PassedCount(base, older, d, m - 1);
      ArcGrows(base, m - 1);
      assert older * Arc(base, m) == older * Arc(base, m - 1) + {Along(base, m - 1)};
    }
  }

  /** The ids a probe skips before `x` were already live when `x` was handed out. */
  lemma SkippedAreOld(t: Table, x: nat, older: set<nat>, n: nat, d: nat, m: nat)
    requires Passed(t, x, older, n, d) && d <= m < ID_MAX - 1
    requires Along(Succ(x), m) in t.live
    ensures Along(Succ(x), m) in older
  {
    NotBehind(Succ(x), d, m);
  }

  /** One registration keeps the count going, or hands out `x`, or comes round past `x`;
      by then at least 247 others have been handed out. */
  lemma PassedStep(t: Table, x: nat, older: set<nat>, n: nat, d: nat, e: Entry) returns (d': nat)
    requires Passed(t, x, older, n, d) && |t.live| < SLOTS
    ensures Registered(t, e).1 == x ==> n >= 247
    ensures n >= 247 || Passed(Registered(t, e).0, x, older, n + 1, d')
  {
    hide Passed, Arc;
    PassedFacts(t, x, older, n, d);
    RegisterSucceeds(t, e);
    var base := Succ(x);
    var k := Taken(t.live.Keys, t.hint, ID_MAX);
    var m := if d + k < ID_MAX - 1 then d + k else ID_MAX - 1;
    forall j | d <= j < m
      ensures Along(base, j) in older
    {
      AlongAlong(base, d, j - d);
      assert Along(t.hint, j - d) in t.live;
      SkippedAreOld(t, x, older, n, d, j);
    }
    PassedCount(base, older, d, m);
    SubsetSize(older * Arc(base, m), older);
    if m == ID_MAX - 1 {
      d' := 0;
    } else {
      AlongAlong(base, d, k);
      d' := m + 1;
      var z := Along(base, m);
      assert NextId(t) == z && z != x;
      StillPassed(t, x, older, n, d, m, e);
    }
  }

  lemma PassedFacts(t: Table, x: nat, older: set<nat>, n: nat, d: nat)
    requires Passed(t, x, older, n, d)
    ensures ValidTable(t) && 1 <= x <= ID_MAX && d < ID_MAX && |older| < SLOTS
    ensures t.hint == Along(Succ(x), d) && n + |older * Arc(Succ(x), d)| >= d
  {}

  lemma StillPassed(t: Table, x: nat, older: set<nat>, n: nat, d: nat, m: nat, e: Entry)
    requires Passed(t, x, older, n, d) && |t.live| < SLOTS && d <= m < ID_MAX - 1
    requires n + |older * Arc(Succ(x), m)| >= m && NextId(t) == Along(Succ(x), m)
    ensures Passed(Registered(t, e).0, x, older, n + 1, m + 1)
  {
    RegisterSucceeds(t, e);
    var base := Succ(x);
    ArcGrows(base, m);
    SubsetSize(older * Arc(base, m), older * Arc(base, m + 1));
    assert Arc(base, d) <= Arc(base, m);
    assert Succ(NextId(t)) == Along(base, m + 1);
  }

  lemma {:induction false} ReuseFrom(t: Table, x: nat, older: set<nat>, n: nat, d: nat, ops: seq<Op>, last: Entry)
    requires ValidTable(t) && (n >= 247 || Passed(t, x, older, n, d))
    requires x != 0 && Registered(After(t, ops), last).1 == x
    ensures n + HandOuts(t, ops) >= 247
    decreases |ops|
  {
    if n >= 247 {
    } else if ops == [] {
      RegisterSucceeds(t, last);
      var _ := PassedStep(t, x, older, n, d, last);
    } else {
      ApplyValid(t, ops[0]);
      var (t', out) := Apply(t, ops[0]);
      if ops[0].DoRegister? && |t.live| < SLOTS {
        RegisterSucceeds(t, ops[0].e);
        var d' := PassedStep(t, x, older, n, d, ops[0].e);
        ReuseFrom(t', x, older, n + 1, d', ops[1..], last);
      } else {
        ReuseFrom(t', x, older, n, d, ops[1..], last);
      }
    }
  }

  /** Between two hand-outs of the same id at least 247 other ids are handed out, whatever
      registrations and releases happen in between. */
  lemma DelayedReuse(t: Table, first: Entry, ops: seq<Op>, last: Entry)
    requires ValidTable(t) && |t.live| < SLOTS
    requires Registered(After(t, [DoRegister(first)] + ops), last).1 == Registered(t, first).1
    ensures HandOuts(t, [DoRegister(first)] + ops) - 1 >= 247
  {
    RegisterSucceeds(t, first);
    var (t', x) := Registered(t, first);
    var all := [DoRegister(first)] + ops;
    assert all[0] == DoRegister(first) && all[1..] == ops;
    var older := t.live.Keys;
    assert Arc(Succ(x), 0) == {};
    assert older * Arc(Succ(x), 0) == {};
    assert |older| == |t.live|;
    ReuseFrom(t', x, older, 0, 0, ops, last);
  }

  // ---------------------------------------------------------------- the firmware table

  datatype Slot = Slot(id: nat, proto: nat, internal: nat)

  const FREE := Slot(0, 0, 0)

  ghost function FreeSlots(s: seq<Slot>): set<nat> {
    set i | 0 <= i < |s| && s[i].id == 0
  }

  /** Ids are distinct and a free slot is all zeros. */
  ghost predicate Distinct(s: seq<Slot>) {
    && (forall i :: 0 <= i < |s| ==> s[i].id <= ID_MAX && (s[i].id == 0 ==> s[i] == FREE))
    && (forall i, j :: 0 <= i < j < |s| && s[i].id != 0 ==> s[i].id != s[j].id)
  }

  ghost predicate HasId(s: seq<Slot>, id: nat) {
    exists i :: 0 <= i < |s| && s[i].id == id
  }

  ghost predicate Matches(s: seq<Slot>, live: map<nat, Entry>) {
    && (forall i :: 0 <= i < |s| && s[i].id != 0 ==>
          s[i].id in live && live[s[i].id] == Entry(s[i].proto, s[i].internal))
    && (forall id :: id in live ==> id != 0 && HasId(s, id))
  }

  /** The slots hold exactly the live sensors, each once. */
  ghost predicate Holds(s: seq<Slot>, live: map<nat, Entry>) {
    Distinct(s) && Matches(s, live) && |live| + |FreeSlots(s)| == |s|
  }

  lemma FillMatches(s: seq<Slot>, live: map<nat, Entry>, i: nat, v: Slot)
    requires Matches(s, live) && i < |s| && s[i].id == 0 && v.id != 0 && v.id !in live
    ensures Matches(s[i := v], live[v.id := Entry(v.proto, v.internal)])
  {
    var u, after := s[i := v], live[v.id := Entry(v.proto, v.internal)];
    forall id | id in after
      ensures HasId(u, id)
    {
      if id == v.id {
        assert u[i].id == id;
      } else {
        assert HasId(s, id);
        var j :| 0 <= j < |s| && s[j].id == id;
        assert u[j].id == id;
      }
    }
  }

  lemma FillSlot(s: seq<Slot>, live: map<nat, Entry>, i: nat, v: Slot)
    requires Holds(s, live) && i < |s| && s[i].id == 0 && 1 <= v.id <= ID_MAX && v.id !in live
    ensures Holds(s[i := v], live[v.id := Entry(v.proto, v.internal)])
  {
    FillMatches(s, live, i, v);
    assert Distinct(s[i := v]) by {
      hide HasId;
    }
    FillSize(s, live, i, v);
  }

  lemma FillSize(s: seq<Slot>, live: map<nat, Entry>, i: nat, v: Slot)
    requires i < |s| && s[i].id == 0 && v.id != 0 && v.id !in live
    requires |live| + |FreeSlots(s)| == |s|
    ensures |live[v.id := Entry(v.proto, v.internal)]| + |FreeSlots(s[i := v])| == |s|
  {
    assert FreeSlots(s[i := v]) == FreeSlots(s) - {i};
    assert live[v.id := Entry(v.proto, v.internal)].Keys == live.Keys + {v.id};
  }

  lemma ClearMatches(s: seq<Slot>, live: map<nat, Entry>, i: nat)
    requires Distinct(s) && Matches(s, live) && i < |s| && s[i].id != 0
    ensures Matches(s[i := FREE], live - {s[i].id})
  {
    var u, after := s[i := FREE], live - {s[i].id};
    forall id | id in after
      ensures HasId(u, id)
    {
      assert HasId(s, id);
      var j :| 0 <= j < |s| && s[j].id == id;
      assert u[j].id == id;
    }
  }

  lemma ClearSlot(s: seq<Slot>, live: map<nat, Entry>, i: nat)
    requires Holds(s, live) && i < |s| && s[i].id != 0
    ensures Holds(s[i := FREE], live - {s[i].id})
  {
    ClearMatches(s, live, i);
    ClearDistinct(s, i);
    ClearSize(s, live, i);
  }

  lemma ClearDistinct(s: seq<Slot>, i: nat)
    requires Distinct(s) && i < |s|
    ensures Distinct(s[i := FREE])
  {}

  lemma ClearSize(s: seq<Slot>, live: map<nat, Entry>, i: nat)
    requires i < |s| && s[i].id in live && s[i].id != 0 && |live| + |FreeSlots(s)| == |s|
    ensures |live - {s[i].id}| + |FreeSlots(s[i := FREE])| == |s|
  {
    assert FreeSlots(s[i := FREE]) == FreeSlots(s) + {i};
    RemoveSize(live, s[i].id);
  }

  lemma {:induction false} AllFree(s: seq<Slot>)
    requires forall i :: 0 <= i < |s| ==> s[i].id == 0
    ensures |FreeSlots(s)| == |s|
    decreases |s|
  {
    if s == [] {
    } else {
      AllFree(s[..|s| - 1]);
      assert FreeSlots(s) == FreeSlots(s[..|s| - 1]) + {|s| - 1};
    }
  }

  /** One free slot was filled with a sensor under a new id, and no other slot changed. */
  ghost predicate FilledAt(before: seq<Slot>, after: seq<Slot>, id: nat, k: nat) {
    && k < |before| == |after| && before[k] == FREE && after == before[k := after[k]]
    && after[k].id == id && id != 0 && forall j :: 0 <= j < |before| ==> before[j].id != id
  }

  /** What a registration that answers `id` does to the slots. */
  ghost predicate SlotsMoved(before: seq<Slot>, after: seq<Slot>, id: nat) {
    if id == 0 then after == before else exists k: nat :: FilledAt(before, after, id, k)
  }

  function Without(s: seq<Slot>, id: nat): seq<Slot> {
    seq(|s|, k requires 0 <= k < |s| => if s[k].id == id then FREE else s[k])
  }

  /** Releasing the id a registration answered restores every slot. */
  lemma ReleaseClearsFill(before: seq<Slot>, after: seq<Slot>, id: nat)
    requires SlotsMoved(before, after, id) && id != 0
    ensures Without(after, id) == before
  {
    var k: nat :| FilledAt(before, after, id, k);
  }

  lemma FillIs(s: seq<Slot>, live: map<nat, Entry>, k: nat, v: Slot)
    requires Distinct(s) && Matches(s, live) && k < |s| && s[k].id == 0 && v.id != 0 && v.id !in live
    ensures SlotsMoved(s, s[k := v], v.id)
  {
    assert FilledAt(s, s[k := v], v.id, k);
  }

  lemma ClearIs(s: seq<Slot>, k: nat)
    requires Distinct(s) && k < |s| && s[k].id != 0
    ensures s[k := FREE] == Without(s, s[k].id)
  {}

  lemma NoSuchSlot(s: seq<Slot>, live: map<nat, Entry>, id: nat)
    requires Matches(s, live) && id !in live
    ensures id != 0 ==> s == Without(s, id)
  {}

  class SensorManager {
    const slots: array<Slot>
    var hint: nat

    /** The live sensors this table stands for. */
    ghost var live: map<nat, Entry>

    ghost predicate Valid()
      reads this, slots
    {
      slots.Length == SLOTS && Holds(slots[..], live) && ValidTable(View())
    }

    ghost function View(): Table
      reads this
    {
      Table(live, hint)
    }

    // sensor_manager_init
    constructor ()
      ensures Valid() && fresh(slots) && View() == Table(map[], 1)
    {
      slots := new Slot[SLOTS](_ => FREE);
      hint := 1;
      live := map[];
      new;
      assert forall i :: 0 <= i < SLOTS ==> slots[i] == FREE;
      AllFree(slots[..]);
    }

    method IdInUse(id: nat) returns (used: bool)
      requires Valid() && id != 0
      ensures used <==> id in View().live
    {
      used := false;
      for i := 0 to SLOTS
        invariant forall j :: 0 <= j < i ==> slots[j].id != id
      {
        if slots[i].id == id {
          return true;
        }
      }
    }

    method AllocateId() returns (id: nat)
      requires Valid()
      modifies this`hint
      ensures Valid()
      ensures id == old(NextId(View()))
      ensures id != 0 ==> hint == Succ(id)
    {
      hide Holds;
      ghost var start, used := hint, live.Keys;
      for tries := 0 to ID_MAX
        invariant Valid()
        invariant tries < ID_MAX ==> hint == Along(start, tries)
        invariant forall j :: 0 <= j < tries ==> Along(start, j) in used
      {
        var candidate := hint;
        hint := if candidate == ID_MAX then 1 else candidate + 1;
        var taken := IdInUse(candidate);
        if !taken {
          TakenIs(used, start, tries);
          return candidate;
        }
      }
      TakenIs(used, start, ID_MAX);
      return 0;
    }

    method Register(proto: nat, internal: nat) returns (id: nat)
      requires Valid() && proto != 0
      modifies this, slots
      ensures Valid()
      ensures (View(), id) == Registered(old(View()), Entry(proto, internal))
      ensures SlotsMoved(old(slots[..]), slots[..], id)
    {
      hide NextId, Taken, Succ, Matches, FilledAt;
      ghost var t, before := View(), slots[..];
      var slot := SLOTS;
      for i := 0 to SLOTS
        invariant slot == SLOTS
        invariant forall j :: 0 <= j < i ==> slots[j].id != 0
      {
        if slots[i].id == 0 {
          slot := i;
          break;
        }
      }
      if slot == SLOTS {
        assert FreeSlots(before) == {};
        return 0;
      }
      assert slot in FreeSlots(before);
      RegisterSucceeds(t, Entry(proto, internal));
      id := AllocateId();
      if id == 0 {
        assert false;
      }
      slots[slot] := Slot(id, proto, internal);
      live := live[id := Entry(proto, internal)];
      assert slots[..] == before[slot := Slot(id, proto, internal)];
      FillSlot(before, t.live, slot, Slot(id, proto, internal));
      FillIs(before, t.live, slot, Slot(id, proto, internal));
    }

    /** The slot of a live id, or none. */
    method Lookup(id: nat) returns (slot: nat)
      requires Valid()
      ensures slot <= SLOTS && (slot < SLOTS <==> id in View().live)
      ensures slot < SLOTS ==> slots[slot].id == id && View().live[id] == Entry(slots[slot].proto, slots[slot].internal)
    {
      if id == 0 {
        return SLOTS;
      }
      for i := 0 to SLOTS
        invariant forall j :: 0 <= j < i ==> slots[j].id != id
      {
        if slots[i].id == id {
          return i;
        }
      }
      return SLOTS;
    }

    method Release(id: nat)
      requires Valid()
      modifies this`live, slots
      ensures Valid()
      ensures View() == Released(old(View()), id)
      ensures slots[..] == if id == 0 then old(slots[..]) else Without(old(slots[..]), id)
    {
      ghost var before := slots[..];
      var slot := Lookup(id);
      if slot == SLOTS {
        assert live == live - {id};
        NoSuchSlot(before, live, id);
        return;
      }
      ClearIs(before, slot);
      ClearSlot(before, live, slot);
      RemoveSize(live, id);
      slots[slot] := Slot(0, 0, 0);
      live := live - {id};
      assert slots[..] == before[slot := FREE];
    }
  }

  lemma TakenIs(used: set<nat>, c: nat, k: nat)
    requires 1 <= c <= ID_MAX && k <= ID_MAX
    requires forall j :: 0 <= j < k ==> Along(c, j) in used
    requires k < ID_MAX ==> Along(c, k) !in used
    ensures Taken(used, c, ID_MAX) == k
  {}
}
