/** Serial link to the firmware (stm_link.py, SeqCounter of encoder.py) as a transition system.
    Coroutines run atomically between awaits; ACKs travel with any delay, in any order, and
    may be lost. Commands are numbered from 0 in the order they are issued; the number is
    history only, the wire carries it modulo 256. */
module StmLink {
  import opened Wrappers

  const WINDOW: nat := 256

  /** What an RSP_ACK frame carries; `about` is the command it answers (history). */
  datatype Ack = Ack(seqno: nat, cmdType: nat, code: nat, sensor: nat, about: nat)

  datatype Outcome = Returned(ack: Ack) | TimedOut | Mismatch | LinkClosed | WriteFailed

  /** A command's future and coroutine. All but `Waiting` count as done for the future. */
  datatype Phase = Waiting | Resolved(ack: Ack) | Cancelled | Failed | Done(outcome: Outcome)

  /** `answers`: the ACK the firmware sent for each command (history); `reading`: the reader task takes frames from the port; `open`: the port accepts writes.
      close() stops the first, waits, then ends the second. */
  datatype State = State(start: nat, types: seq<nat>, phases: seq<Phase>, pending: map<nat, nat>,
                         answers: map<nat, Ack>, onWire: map<nat, Ack>, reading: bool, open: bool,
                         wins: map<nat, nat>, arrivals: nat, toWaiter: nat, toHook: nat)

  function Init(start: nat): State {
    State(start, [], [], map[], map[], map[], true, true, map[], 0, 0, 0)
  }

  /** Sequence number on the wire of the `n`-th command. */
  function Seqno(s: State, n: nat): nat {
    (s.start + n) % 256
  }

  function Issued(s: State): nat { |s.types| }

  datatype Step =
    | Send(ftype: nat, written: bool)
    | Answer(n: nat, code: nat, sensor: nat)
    | Lose(n: nat)
    | Arrive(n: nat)
    | OtherFrame
    | Timeout(n: nat)
    | Resume(n: nat)
    | StopReader
    | FailPending
    | Reopen

  predicate Live(s: State, n: nat) {
    n < |s.phases| && !s.phases[n].Done?
  }

  predicate Enabled(s: State, e: Step) {
    |s.phases| == |s.types| &&
    match e
    case Send(_, written) => written ==> s.open
    case Answer(n, _, _) => n < Issued(s) && s.phases[n] != Done(WriteFailed) && n !in s.answers
    case Lose(n) => n in s.onWire
    case Arrive(n) => n in s.onWire && s.reading
    case OtherFrame => s.reading
    case Timeout(n) => n < Issued(s) && (s.phases[n].Waiting? || s.phases[n].Resolved?)
    case Resume(n) => Live(s, n) && !s.phases[n].Waiting?
    case StopReader => true
    case FailPending => !s.reading
    case Reopen => !s.open
  }

  function Finish(s: State, n: nat): Outcome
    requires n < |s.phases| && n < |s.types|
  {
    match s.phases[n]
    case Resolved(ack) => if ack.cmdType != s.types[n] then Mismatch else Returned(ack)
    case Cancelled => TimedOut
    case _ => LinkClosed
  }

  function Wins(s: State, n: nat): nat {
    if n in s.wins then s.wins[n] else 0
  }

  function Do(s: State, e: Step): State
    requires Enabled(s, e)
  {
    match e
    case Send(ftype, written) =>
      var n := Issued(s);
      var k := Seqno(s, n);
      var s' := s.(types := s.types + [ftype], pending := s.pending[k := n]);
      if written then s'.(phases := s.phases + [Waiting])
      else s'.(phases := s.phases + [Done(WriteFailed)], pending := s'.pending - {k})
    case Answer(n, code, sensor) =>
      var ack := Ack(Seqno(s, n), s.types[n], code, sensor, n);
      s.(answers := s.answers[n := ack], onWire := s.onWire[n := ack])
    case Lose(n) => s.(onWire := s.onWire - {n})
    case Arrive(n) =>
      var ack := s.onWire[n];
      var s' := s.(onWire := s.onWire - {n}, arrivals := s.arrivals + 1);
      var k := ack.seqno;
      if k in s.pending && s.pending[k] < |s.phases| && s.phases[s.pending[k]].Waiting? then
        var m := s.pending[k];
        s'.(phases := s.phases[m := Resolved(ack)], wins := s.wins[m := Wins(s, m) + 1], toWaiter := s.toWaiter + 1)
      else s'.(toHook := s.toHook + 1)
    case OtherFrame => s.(arrivals := s.arrivals + 1, toHook := s.toHook + 1)
    case Timeout(n) => s.(phases := s.phases[n := Cancelled])
    case Resume(n) =>
      s.(phases := s.phases[n := Done(Finish(s, n))], pending := s.pending - {Seqno(s, n)})
    case StopReader => s.(reading := false)
    case Reopen => s.(open := true)
    case FailPending =>
      s.(phases := seq(|s.phases|, i requires 0 <= i < |s.phases| =>
                     if s.phases[i].Waiting? && Seqno(s, i) in s.pending && s.pending[Seqno(s, i)] == i
                     then Failed else s.phases[i]),
         pending := map[], open := false)
  }

  // ---------------------------------------------------------------- the window

  /** Fewer than `w` newer commands have been issued than command `n`. */
  predicate Recent(s: State, n: nat, w: nat) {
    Issued(s) <= n + w
  }

  /** The step respects the window: an arriving ACK is recent, and so is every command still
      in progress afterwards. */
  ghost predicate InWindow(s: State, e: Step, w: nat)
    requires Enabled(s, e)
  {
    && (e.Arrive? ==> Recent(s, e.n, w))
    && (forall n :: Live(Do(s, e), n) ==> Recent(Do(s, e), n, w))
  }

  ghost predicate Runs(s: State, es: seq<Step>, w: nat)
    decreases |es|
  {
    es == [] || (Enabled(s, es[0]) && InWindow(s, es[0], w) && Runs(Do(s, es[0]), es[1..], w))
  }

  ghost function After(s: State, es: seq<Step>, w: nat): State
    requires Runs(s, es, w)
    decreases |es|
  {
    if es == [] then s else After(Do(s, es[0]), es[1..], w)
  }

  /** Two recent commands with the same wire number are the same command. */
  lemma SameSeqno(s: State, m: nat, n: nat)
    requires m < Issued(s) && n < Issued(s) && Recent(s, m, WINDOW) && Recent(s, n, WINDOW)
    requires Seqno(s, m) == Seqno(s, n)
    ensures m == n
  {}

  // ---------------------------------------------------------------- invariant

  /** The ACK the firmware sent for command `n`. */
  predicate AnswerFor(s: State, n: nat, a: Ack) {
    n in s.answers && a == s.answers[n]
  }

  predicate PhaseOk(s: State, n: nat)
    requires n < |s.phases|
  {
    match s.phases[n]
    case Waiting => Wins(s, n) == 0
    case Resolved(a) => AnswerFor(s, n, a) && Wins(s, n) == 1
    case Done(Returned(a)) => AnswerFor(s, n, a) && Wins(s, n) == 1
    case Done(Mismatch) => false
    case _ => Wins(s, n) <= 1
  }

  ghost predicate SizesOk(s: State) {
    && |s.phases| == |s.types|
    && (forall n :: n in s.wins ==> n < |s.phases|)
    && s.arrivals == s.toWaiter + s.toHook
  }

  /** The firmware answers a command with its type and sequence number. */
  ghost predicate AnswersOk(s: State) {
    forall n :: n in s.answers ==> AnswerOk(s, n, s.answers[n])
  }

  predicate AnswerOk(s: State, n: nat, a: Ack) {
    n < |s.types| && a.about == n && a.cmdType == s.types[n] && a.seqno == Seqno(s, n)
  }

  ghost predicate PhasesOk(s: State) {
    forall n :: 0 <= n < |s.phases| ==> PhaseOk(s, n)
  }

  ghost predicate WireOk(s: State) {
    forall n :: n in s.onWire ==> AnswerFor(s, n, s.onWire[n])
  }

  ghost predicate PendingOk(s: State) {
    forall k :: k in s.pending ==> EntryOk(s, k)
  }

  predicate EntryOk(s: State, k: nat)
    requires k in s.pending
  {
    Live(s, s.pending[k]) && k == Seqno(s, s.pending[k])
  }

  /** A command whose future is not done is found under its wire number. */
  ghost predicate WaitersFound(s: State) {
    forall n :: 0 <= n < |s.phases| && s.phases[n].Waiting? ==> Found(s, n)
  }

  predicate Found(s: State, n: nat) {
    Seqno(s, n) in s.pending && s.pending[Seqno(s, n)] == n
  }

  ghost predicate LiveRecent(s: State) {
    forall n :: Live(s, n) ==> Recent(s, n, WINDOW)
  }

  ghost predicate Inv(s: State) {
    SizesOk(s) && AnswersOk(s) && PhasesOk(s) && WireOk(s) && PendingOk(s) && WaitersFound(s) && LiveRecent(s)
  }

  lemma InitInv(start: nat)
    ensures Inv(Init(start))
  {}

  lemma SizesKept(s: State, e: Step)
    requires Inv(s) && Enabled(s, e)
    ensures SizesOk(Do(s, e))
  {
    hide AnswersOk, PhasesOk, WaitersFound, LiveRecent, PendingOk, WireOk, Seqno, Finish;
  }

  lemma AnswersKept(s: State, e: Step)
    requires Inv(s) && Enabled(s, e)
    ensures AnswersOk(Do(s, e))
  {
    hide PhasesOk, WaitersFound, LiveRecent, PendingOk, WireOk, Finish;
    forall n | n in Do(s, e).answers
      ensures AnswerOk(Do(s, e), n, Do(s, e).answers[n])
    {
      if n in s.answers { assert AnswerOk(s, n, s.answers[n]); }
    }
  }

  lemma WireKept(s: State, e: Step)
    requires Inv(s) && Enabled(s, e)
    ensures WireOk(Do(s, e))
  {
    hide AnswersOk, PhasesOk, WaitersFound, LiveRecent, PendingOk;
  }

  lemma EntryKept(s: State, e: Step, k: nat)
    requires Enabled(s, e) && !e.Send? && !e.Resume?
    requires k in s.pending && EntryOk(s, k) && k in Do(s, e).pending
    ensures EntryOk(Do(s, e), k)
  {
    hide Wins, Finish;
  }

  lemma EntryKeptByResume(s: State, e: Step, k: nat)
    requires Enabled(s, e) && e.Resume? && k in s.pending && EntryOk(s, k) && k in Do(s, e).pending
    ensures EntryOk(Do(s, e), k)
  {
    hide Finish;
  }

  lemma EntryKeptBySend(s: State, e: Step, k: nat)
    requires Enabled(s, e) && e.Send? && k in Do(s, e).pending && (k in s.pending ==> EntryOk(s, k))
    ensures EntryOk(Do(s, e), k)
  {}

  lemma PendingKept(s: State, e: Step)
    requires PendingOk(s) && Enabled(s, e)
    ensures PendingOk(Do(s, e))
  {
    forall k | k in Do(s, e).pending
      ensures EntryOk(Do(s, e), k)
    {
      EntriesStay(s, e, k);
      hide Do, Enabled, EntryOk;
      if e.Send? {
        EntryKeptBySend(s, e, k);
      } else if e.Resume? {
        EntryKeptByResume(s, e, k);
      } else {
        EntryKept(s, e, k);
      }
    }
  }

  lemma EntriesStay(s: State, e: Step, k: nat)
    requires Enabled(s, e) && k in Do(s, e).pending
    ensures e.Send? || k in s.pending
  {
    hide Seqno, Wins, Finish;
  }

  /** The command an arriving ACK would resolve is the one it answers. */
  lemma ArrivalIsForTheWaiter(s: State, e: Step)
    requires Inv(s) && e.Arrive? && Enabled(s, e) && Recent(s, e.n, WINDOW)
    ensures var k := s.onWire[e.n].seqno;
      k in s.pending && s.phases[s.pending[k]].Waiting? ==> s.pending[k] == e.n
  {
    hide PhasesOk, WaitersFound;
    var k := s.onWire[e.n].seqno;
    assert AnswerFor(s, e.n, s.onWire[e.n]) && AnswerOk(s, e.n, s.onWire[e.n]);
    if k in s.pending && s.phases[s.pending[k]].Waiting? {
      assert Live(s, s.pending[k]);
      SameSeqno(s, s.pending[k], e.n);
    }
  }

  lemma PhasesKeptByArrival(s: State, e: Step)
    requires Inv(s) && e.Arrive? && Enabled(s, e) && Recent(s, e.n, WINDOW)
    ensures PhasesOk(Do(s, e))
  {
    ArrivalIsForTheWaiter(s, e);
    assert AnswerFor(s, e.n, s.onWire[e.n]);
    hide WireOk, WaitersFound, LiveRecent, Seqno;
    forall m | 0 <= m < |Do(s, e).phases|
      ensures PhaseOk(Do(s, e), m)
    {
      assert PhaseOk(s, m);
    }
  }

  lemma PhasesKeptByResume(s: State, e: Step)
    requires Inv(s) && Enabled(s, e) && e.Resume?
    ensures PhasesOk(Do(s, e))
  {
    hide PendingOk, WireOk, WaitersFound, LiveRecent, Seqno;
    assert PhaseOk(s, e.n);
    if s.phases[e.n].Resolved? { assert AnswerOk(s, e.n, s.answers[e.n]); }
    hide AnswersOk;
    forall m | 0 <= m < |Do(s, e).phases|
      ensures PhaseOk(Do(s, e), m)
    {
      assert PhaseOk(s, m);
    }
  }

  lemma PhasesKept(s: State, e: Step)
    requires Inv(s) && Enabled(s, e) && !e.Arrive? && !e.Resume?
    ensures PhasesOk(Do(s, e))
  {
    hide AnswersOk, PendingOk, WireOk, WaitersFound, LiveRecent, Seqno, Finish;
    forall m | 0 <= m < |Do(s, e).phases|
      ensures PhaseOk(Do(s, e), m)
    {
      if m < |s.phases| { assert PhaseOk(s, m); }
    }
  }

  lemma WaitersKeptBySend(s: State, e: Step)
    requires Inv(s) && Enabled(s, e) && InWindow(s, e, WINDOW) && e.Send?
    ensures WaitersFound(Do(s, e))
  {
    hide AnswersOk, PhasesOk, WireOk, PendingOk;
    var s' := Do(s, e);
    forall m | 0 <= m < |s'.phases| && s'.phases[m].Waiting?
      ensures Found(s', m)
    {
      if m < Issued(s) {
        assert Found(s, m) && Live(s', m);
        if Seqno(s', m) == Seqno(s', Issued(s)) {
          SameSeqno(s', m, Issued(s));
        }
      }
    }
  }

  lemma WaitersKeptByResume(s: State, e: Step)
    requires Inv(s) && Enabled(s, e) && e.Resume?
    ensures WaitersFound(Do(s, e))
  {
    hide AnswersOk, PhasesOk, WireOk, PendingOk;
    var s' := Do(s, e);
    forall m | 0 <= m < |s'.phases| && s'.phases[m].Waiting?
      ensures Found(s', m)
    {
      assert Found(s, m) && Live(s, m) && Live(s, e.n);
      if Seqno(s, m) == Seqno(s, e.n) {
        SameSeqno(s, m, e.n);
      }
    }
  }

  lemma WaitersKept(s: State, e: Step)
    requires Inv(s) && Enabled(s, e) && !e.Send? && !e.Resume?
    ensures WaitersFound(Do(s, e))
  {
    hide AnswersOk, PhasesOk, WireOk, PendingOk;
    forall m | 0 <= m < |Do(s, e).phases| && Do(s, e).phases[m].Waiting?
      ensures Found(Do(s, e), m)
    {
      assert Found(s, m);
    }
  }

  lemma StepKeepsInv(s: State, e: Step)
    requires Inv(s) && Enabled(s, e) && InWindow(s, e, WINDOW)
    ensures Inv(Do(s, e))
  {
    hide Do, Enabled, SizesOk, AnswersOk, PhasesOk, WireOk, PendingOk, WaitersFound;
    SizesKept(s, e);
    AnswersKept(s, e);
    WireKept(s, e);
    PendingKept(s, e);
    if e.Arrive? { PhasesKeptByArrival(s, e); } else if e.Resume? { PhasesKeptByResume(s, e); } else { PhasesKept(s, e); }
    if e.Send? { WaitersKeptBySend(s, e); }
    else if e.Resume? { WaitersKeptByResume(s, e); }
    else { WaitersKept(s, e); }
  }

  lemma {:induction false} RunKeepsInv(s: State, es: seq<Step>)
    requires Inv(s) && Runs(s, es, WINDOW)
    ensures Inv(After(s, es, WINDOW))
    decreases |es|
  {
    hide Inv, Do, Enabled, InWindow;
    if es == [] {
    } else {
      StepKeepsInv(s, es[0]);
      RunKeepsInv(Do(s, es[0]), es[1..]);
    }
  }

  // ---------------------------------------------------------------- what every run guarantees

  /** The command types of the Send steps, in order. */
  function Sent(es: seq<Step>): seq<nat>
    decreases |es|
  {
    if es == [] then [] else (if es[0].Send? then [es[0].ftype] else []) + Sent(es[1..])
  }

  /** The types recorded are those of the Send steps. */
  lemma {:induction false} TypesAreSent(s: State, es: seq<Step>, w: nat)
    requires Runs(s, es, w)
    ensures After(s, es, w).types == s.types + Sent(es) && After(s, es, w).start == s.start
    decreases |es|
  {
    hide Enabled, InWindow, Do, Runs;
    if es == [] {
      assert s.types + [] == s.types;
    } else {
      Unroll(s, es, w);
      hide After;
      TypesStep(s, es[0]);
      TypesAreSent(Do(s, es[0]), es[1..], w);
      Reassociate(s.types, if es[0].Send? then [es[0].ftype] else [], Sent(es[1..]));
    }
  }

  /** The ACK recorded for a command has the code and sensor id of its Answer step. */
  lemma {:induction false} AnswersAreSteps(s: State, es: seq<Step>, w: nat, n: nat)
    requires Runs(s, es, w) && n in After(s, es, w).answers
    ensures var a := After(s, es, w).answers[n];
      (n in s.answers && a == s.answers[n]) || Answer(n, a.code, a.sensor) in es
    decreases |es|
  {
    hide Enabled, InWindow, Do;
    if es == [] {
    } else {
      HistoryStep(s, es[0]);
      AnswersAreSteps(Do(s, es[0]), es[1..], w, n);
    }
  }

  lemma Unroll(s: State, es: seq<Step>, w: nat)
    requires es != [] && Runs(s, es, w)
    ensures Enabled(s, es[0]) && Runs(Do(s, es[0]), es[1..], w) && After(s, es, w) == After(Do(s, es[0]), es[1..], w)
  {}

  lemma Reassociate(a: seq<nat>, b: seq<nat>, c: seq<nat>)
    ensures (a + b) + c == a + (b + c)
  {}

  lemma TypesStep(s: State, e: Step)
    requires Enabled(s, e)
    ensures Do(s, e).types == s.types + (if e.Send? then [e.ftype] else []) && Do(s, e).start == s.start
  {
    hide Finish, Seqno, Wins;
  }

  lemma HistoryStep(s: State, e: Step)
    requires Enabled(s, e)
    ensures forall n :: n in Do(s, e).answers ==>
              || (n in s.answers && Do(s, e).answers[n] == s.answers[n])
              || e == Answer(n, Do(s, e).answers[n].code, Do(s, e).answers[n].sensor)
  {
    hide Finish;
  }

  /** In every run within the window: a command that returns an ACK returns exactly the one the
      firmware sent for that very command, with its error code and sensor id; the cmd_type mismatch
      never fires, no waiter is resolved twice, and every frame went to exactly one of a waiter or
      the hook. */
  lemma AcksMatch(start: nat, es: seq<Step>, n: nat)
    requires Runs(Init(start), es, WINDOW)
    ensures var s := After(Init(start), es, WINDOW);
      && (n < |s.phases| && s.phases[n].Done? && s.phases[n].outcome.Returned? ==>
            var a := s.phases[n].outcome.ack;
            && Answer(n, a.code, a.sensor) in es
            && n < |Sent(es)| && a.cmdType == Sent(es)[n] && a.seqno == (start + n) % 256)
      && (n < |s.phases| ==> s.phases[n] != Done(Mismatch))
      && Wins(s, n) <= 1
      && s.arrivals == s.toWaiter + s.toHook
  {
    InitInv(start);
    RunKeepsInv(Init(start), es);
    TypesAreSent(Init(start), es, WINDOW);
    hide Runs, After;
    var s := After(Init(start), es, WINDOW);
    assert [] + Sent(es) == Sent(es);
    InvAt(s, n);
    hide Inv, Sent, Seqno, SizesOk, AnswersOk, PhasesOk, WireOk, PendingOk, WaitersFound, LiveRecent;
    assert Seqno(s, n) == (start + n) % 256 by { SeqnoIs(s, n); }
    if n in s.answers {
      AnswersAreSteps(Init(start), es, WINDOW, n);
    }
  }

  lemma SeqnoIs(s: State, n: nat)
    ensures Seqno(s, n) == (s.start + n) % 256
  {}

  /** What the invariant says of one command. */
  lemma InvAt(s: State, n: nat)
    requires Inv(s)
    ensures n < |s.phases| ==> PhaseOk(s, n)
    ensures n !in s.wins || n < |s.phases|
    ensures n in s.answers ==> AnswerOk(s, n, s.answers[n])
    ensures s.arrivals == s.toWaiter + s.toHook
  {
    hide WireOk, PendingOk, WaitersFound, LiveRecent, PhaseOk, AnswerOk;
  }

  /** Each command is answered at most once, so that ACK is the only one there is for it. */
  lemma {:induction false} AnsweredOnce(s: State, es: seq<Step>, w: nat, i: nat, j: nat)
    requires Runs(s, es, w) && i < j < |es| && es[i].Answer? && es[j].Answer?
    ensures es[i].n != es[j].n
    decreases |es|
  {
    hide InWindow;
    if i > 0 {
      hide Do;
      AnsweredOnce(Do(s, es[0]), es[1..], w, i - 1, j - 1);
    } else {
      NotAnsweredYet(Do(s, es[0]), es[1..], w, j - 1);
    }
  }

  lemma {:induction false} NotAnsweredYet(s: State, es: seq<Step>, w: nat, j: nat)
    requires Runs(s, es, w) && j < |es| && es[j].Answer?
    ensures es[j].n !in s.answers
    decreases |es|
  {
    hide InWindow, Do;
    if j > 0 {
      NotAnsweredYet(Do(s, es[0]), es[1..], w, j - 1);
      if es[j].n in s.answers { AnswersStay(s, es[0], es[j].n); }
    }
  }

  lemma AnswersStay(s: State, e: Step, n: nat)
    requires Enabled(s, e) && n in s.answers
    ensures n in Do(s, e).answers
  {
    hide Finish;
  }

  /** What a command's coroutine does when it resumes: a resolved one returns its own answer, a
      cancelled one times out, a failed one reports the closed link. */
  lemma ResumeOutcome(start: nat, es: seq<Step>, n: nat)
    requires Runs(Init(start), es, WINDOW) && Enabled(After(Init(start), es, WINDOW), Resume(n))
    ensures var s := After(Init(start), es, WINDOW);
      Do(s, Resume(n)).phases == s.phases[n := Done(
        match s.phases[n]
        case Resolved(_) => if n in s.answers then Returned(s.answers[n]) else Mismatch
        case Cancelled => TimedOut
        case _ => LinkClosed)]
    ensures After(Init(start), es, WINDOW).phases[n].Resolved? ==> n in After(Init(start), es, WINDOW).answers
  {
    InitInv(start);
    RunKeepsInv(Init(start), es);
    assert PhaseOk(After(Init(start), es, WINDOW), n);
  }

  /** close() leaves nobody waiting: every command still waiting is failed, the table is empty and
      the port takes no more writes. */
  lemma CloseReleasesAll(start: nat, es: seq<Step>)
    requires Runs(Init(start), es, WINDOW) && Enabled(After(Init(start), es, WINDOW), FailPending)
    ensures var s := After(Init(start), es, WINDOW);
      var s' := Do(s, FailPending);
      && |s'.phases| == |s.phases| && s'.pending == map[]
      && (forall n :: 0 <= n < |s.phases| ==> s'.phases[n] == if s.phases[n] == Waiting then Failed else s.phases[n])
      && forall ftype :: !Enabled(s', Send(ftype, true))
  {
    InitInv(start);
    RunKeepsInv(Init(start), es);
    var s := After(Init(start), es, WINDOW);
    hide Runs, After, SizesOk, AnswersOk, PhasesOk, WireOk, PendingOk, LiveRecent;
    forall n | 0 <= n < |s.phases| && s.phases[n] == Waiting
      ensures Found(s, n)
    {}
  }

  /** The table holds no finished command, whether it was answered, timed out, failed or could not
      be written: once every command is finished it is empty. */
  lemma TableHoldsUnfinished(start: nat, es: seq<Step>)
    requires Runs(Init(start), es, WINDOW)
    ensures var s := After(Init(start), es, WINDOW);
      && (forall k :: k in s.pending ==>
            s.pending[k] < |s.phases| && !s.phases[s.pending[k]].Done? && k == (start + s.pending[k]) % 256)
      && ((forall n :: 0 <= n < |s.phases| ==> s.phases[n].Done?) ==> s.pending == map[])
  {
    hide Runs, After, Enabled, Do, Inv, Seqno;
    AfterRun(start, es);
    var s := After(Init(start), es, WINDOW);
    assert PendingOk(s) by { PendingIn(s); }
    forall k | k in s.pending
      ensures s.pending[k] < |s.phases| && !s.phases[s.pending[k]].Done? && k == (start + s.pending[k]) % 256
    {
      assert EntryOk(s, k);
      SeqnoIs(s, s.pending[k]);
    }
  }

  lemma PendingIn(s: State)
    requires Inv(s)
    ensures PendingOk(s)
  {
    hide SizesOk, AnswersOk, PhasesOk, WireOk, PendingOk, WaitersFound, LiveRecent;
  }

  /** However late or lost its ACK, a waiting command ends at its deadline: it reports a timeout and
      its number is free again, whatever else happens to the table. */
  lemma DeadlineEndsIt(start: nat, es: seq<Step>, n: nat)
    requires Runs(Init(start), es, WINDOW)
    requires n < |After(Init(start), es, WINDOW).phases| && After(Init(start), es, WINDOW).phases[n] == Waiting
    ensures var s := After(Init(start), es, WINDOW);
      && Enabled(s, Timeout(n)) && Enabled(Do(s, Timeout(n)), Resume(n))
      && var s' := Do(Do(s, Timeout(n)), Resume(n));
         s'.phases == s.phases[n := Done(TimedOut)] && s'.pending == s.pending - {(start + n) % 256}
  {
    hide Runs, After, Enabled, Do, Inv, Seqno;
    AfterRun(start, es);
    SeqnoIs(After(Init(start), es, WINDOW), n);
    DeadlineSteps(After(Init(start), es, WINDOW), n);
  }

  lemma AfterRun(start: nat, es: seq<Step>)
    requires Runs(Init(start), es, WINDOW)
    ensures var s := After(Init(start), es, WINDOW); Inv(s) && |s.phases| == |s.types| && s.start == start
  {
    hide Enabled, Do, Sent;
    InitInv(start);
    RunKeepsInv(Init(start), es);
    TypesAreSent(Init(start), es, WINDOW);
    hide Runs, After, AnswersOk, PhasesOk, WireOk, PendingOk, LiveRecent, WaitersFound;
  }

  lemma DeadlineSteps(s: State, n: nat)
    requires |s.phases| == |s.types| && n < |s.phases| && s.phases[n] == Waiting
    ensures Enabled(s, Timeout(n)) && Enabled(Do(s, Timeout(n)), Resume(n))
    ensures var s' := Do(Do(s, Timeout(n)), Resume(n));
      s'.phases == s.phases[n := Done(TimedOut)] && s'.pending == s.pending - {Seqno(s, n)}
  {}

  /** A command times out only if its deadline passed, and reports a closed link only if the link
      was closed. */
  lemma {:induction false} OutcomesHaveCauses(s: State, es: seq<Step>, w: nat, n: nat)
    requires Runs(s, es, w) && n < |After(s, es, w).phases|
    ensures TimesOut(After(s, es, w).phases[n]) ==> Timeout(n) in es || (n < |s.phases| && TimesOut(s.phases[n]))
    ensures ClosesLink(After(s, es, w).phases[n]) ==> FailPending in es || (n < |s.phases| && ClosesLink(s.phases[n]))
    decreases |es|
  {
    hide Enabled, InWindow, Do, TimesOut, ClosesLink;
    if es == [] {
    } else {
      OutcomesHaveCauses(Do(s, es[0]), es[1..], w, n);
      if n < |Do(s, es[0]).phases| { CauseStep(s, es[0], n); }
    }
  }

  predicate TimesOut(ph: Phase) {
    ph == Cancelled || ph == Done(TimedOut)
  }

  predicate ClosesLink(ph: Phase) {
    ph == Failed || ph == Done(LinkClosed)
  }

  lemma CauseStep(s: State, e: Step, n: nat)
    requires Enabled(s, e) && n < |Do(s, e).phases|
    ensures TimesOut(Do(s, e).phases[n]) ==> e == Timeout(n) || (n < |s.phases| && TimesOut(s.phases[n]))
    ensures ClosesLink(Do(s, e).phases[n]) ==> e == FailPending || (n < |s.phases| && ClosesLink(s.phases[n]))
  {}

  /** An ACK that arrives while its command is waiting resolves that command; any other ACK
      goes to the hook and changes no command. */
  lemma ArrivalResolvesItsCommand(start: nat, es: seq<Step>, n: nat)
    requires Runs(Init(start), es, WINDOW)
    requires var s := After(Init(start), es, WINDOW); Enabled(s, Arrive(n)) && Recent(s, n, WINDOW)
    ensures var s := After(Init(start), es, WINDOW);
      var s' := Do(s, Arrive(n));
      if n < |s.phases| && s.phases[n].Waiting?
      then s'.phases == s.phases[n := Resolved(s.onWire[n])] && s'.toHook == s.toHook
      else s'.phases == s.phases && s'.toHook == s.toHook + 1
  {
    InitInv(start);
    RunKeepsInv(Init(start), es);
    var s := After(Init(start), es, WINDOW);
    ArrivalIsForTheWaiter(s, Arrive(n));
    assert AnswerFor(s, n, s.onWire[n]);
    assert Live(s, n) && s.phases[n].Waiting? ==> Found(s, n);
  }

  // ---------------------------------------------------------------- the bound is exact

  lemma {:induction false} RunConcat(s: State, a: seq<Step>, b: seq<Step>, w: nat)
    requires Runs(s, a, w) && Runs(After(s, a, w), b, w)
    ensures Runs(s, a + b, w) && After(s, a + b, w) == After(After(s, a, w), b, w)
    decreases |a|
  {
    hide Enabled, InWindow, Do;
    if a == [] {
      assert a + b == b;
    } else {
      assert (a + b)[0] == a[0] && (a + b)[1..] == a[1..] + b;
      RunConcat(Do(s, a[0]), a[1..], b, w);
    }
  }

  /** `k` commands have been issued and have timed out; the ACK of command 0 is still travelling. */
  function Stale(k: nat): State
    requires k >= 1
  {
    State(0, seq(k, _ => 1), seq(k, _ => Done(TimedOut)), map[], map[0 := Ack(0, 1, 0, 0, 0)], map[0 := Ack(0, 1, 0, 0, 0)],
          true, true, map[], 0, 0, 0)
  }

  lemma OneStep(s: State, e: Step, s': State, w: nat)
    requires Enabled(s, e) && Do(s, e) == s' && InWindow(s, e, w)
    ensures Runs(s, [e], w) && After(s, [e], w) == s'
  {
    assert [e][1..] == [];
    assert Runs(s', [], w) && After(s', [], w) == s';
  }

  lemma FirstStale() returns (es: seq<Step>)
    ensures Runs(Init(0), es, WINDOW + 1) && After(Init(0), es, WINDOW + 1) == Stale(1)
  {
    var s0 := Init(0);
    var s1 := Do(s0, Send(1, true));
    var s2 := Do(s1, Answer(0, 0, 0));
    var s3 := Do(s2, Timeout(0));
    OneStep(s0, Send(1, true), s1, WINDOW + 1);
    OneStep(s1, Answer(0, 0, 0), s2, WINDOW + 1);
    OneStep(s2, Timeout(0), s3, WINDOW + 1);
    assert Do(s3, Resume(0)) == Stale(1);
    OneStep(s3, Resume(0), Stale(1), WINDOW + 1);
    RunConcat(s0, [Send(1, true)], [Answer(0, 0, 0)], WINDOW + 1);
    RunConcat(s0, [Send(1, true)] + [Answer(0, 0, 0)], [Timeout(0)], WINDOW + 1);
    es := [Send(1, true)] + [Answer(0, 0, 0)] + [Timeout(0)];
    RunConcat(s0, es, [Resume(0)], WINDOW + 1);
    es := es + [Resume(0)];
  }

  lemma NextStale(k: nat) returns (es: seq<Step>)
    requires k >= 1
    ensures Runs(Stale(k), es, WINDOW + 1) && After(Stale(k), es, WINDOW + 1) == Stale(k + 1)
  {
    var s0 := Stale(k);
    var s1 := Do(s0, Send(1, true));
    var s2 := Do(s1, Timeout(k));
    OneStep(s0, Send(1, true), s1, WINDOW + 1);
    OneStep(s1, Timeout(k), s2, WINDOW + 1);
    assert Do(s2, Resume(k)) == Stale(k + 1);
    OneStep(s2, Resume(k), Stale(k + 1), WINDOW + 1);
    RunConcat(s0, [Send(1, true)], [Timeout(k)], WINDOW + 1);
    es := [Send(1, true)] + [Timeout(k)];
    RunConcat(s0, es, [Resume(k)], WINDOW + 1);
    es := es + [Resume(k)];
  }

  lemma {:induction false} StaleReachable(k: nat) returns (es: seq<Step>)
    requires k >= 1
    ensures Runs(Init(0), es, WINDOW + 1) && After(Init(0), es, WINDOW + 1) == Stale(k)
    decreases k
  {
    hide Enabled, InWindow, Do, Stale;
    if k == 1 {
      es := FirstStale();
    } else {
      var a := StaleReachable(k - 1);
      var b := NextStale(k - 1);
      RunConcat(Init(0), a, b, WINDOW + 1);
      es := a + b;
    }
  }

  /** A run with up to 256 newer commands at whose end command 256 has taken the ACK of command 0. */
  ghost predicate Misdelivers(es: seq<Step>, ftype: nat) {
    Runs(Init(0), es, WINDOW + 1) &&
    var s := After(Init(0), es, WINDOW + 1);
    (|s.phases| == 257 && s.phases[256] == Done(if ftype == 1 then Returned(Ack(0, 1, 0, 0, 0)) else Mismatch))
  }

  /** With 256 newer commands instead of 255 the guarantee fails: the late ACK of command 0
      resolves command 256, which returns it if the types agree and raises the mismatch error
      if they do not. */
  lemma WindowIsTight(ftype: nat)
    ensures exists es :: Misdelivers(es, ftype)
  {
    var a := StaleReachable(256);
    var s0 := Stale(256);
    var s1 := Do(s0, Send(ftype, true));
    var s2 := Do(s1, Arrive(0));
    var s3 := Do(s2, Resume(256));
    OneStep(s0, Send(ftype, true), s1, WINDOW + 1);
    OneStep(s1, Arrive(0), s2, WINDOW + 1);
    OneStep(s2, Resume(256), s3, WINDOW + 1);
    RunConcat(s0, [Send(ftype, true)], [Arrive(0)], WINDOW + 1);
    var b := [Send(ftype, true)] + [Arrive(0)];
    RunConcat(s0, b, [Resume(256)], WINDOW + 1);
    b := b + [Resume(256)];
    RunConcat(Init(0), a, b, WINDOW + 1);
    assert After(Init(0), a + b, WINDOW + 1) == s3;
    assert Misdelivers(a + b, ftype);
  }

  // ---------------------------------------------------------------- encoder.py: SeqCounter

  class SeqCounter {
    var value: nat

    ghost predicate Valid()
      reads this
    {
      value <= 0xFF
    }

    constructor (start: nat)
      requires start <= 0xFF
      ensures Valid() && value == start
    {
      value := start;
    }

    method Next() returns (r: nat)
      requires Valid()
      modifies this
      ensures Valid() && r == old(value) && value == (old(value) + 1) % 256
    {
      r := value;
      value := (value + 1) % 256;
    }

    /** The `i`-th number handed out is the wire number of the `i`-th command. */
    method Take(n: nat) returns (numbers: seq<nat>)
      requires Valid()
      modifies this
      ensures Valid() && |numbers| == n
      ensures forall i :: 0 <= i < n ==> numbers[i] == Seqno(Init(old(value)), i)
    {
      numbers := [];
      for i := 0 to n
        invariant Valid() && |numbers| == i && value == (old(value) + i) % 256
        invariant forall j :: 0 <= j < i ==> numbers[j] == Seqno(Init(old(value)), j)
      {
        var v := Next();
        numbers := numbers + [v];
      }
    }
  }
}
