/**
 * Group commit: threads prepare transactions under the engine mutex and make them durable off it,
 * one leader syncing the log for everyone. One action is one critical section or one log sync.
 */
module GroupCommit {
  import opened Common

  type Thread = nat

  datatype Phase =
    | Idle
    | Locked                                      // holds the engine mutex
    | Staged(ticket: nat)                         // log bytes written, not yet published
    | Ticketed(ticket: nat)                       // published, engine mutex still held
    | Checking(ticket: nat)                       // off the engine mutex, about to look at the watermarks
    | Waiting(ticket: nat)                        // a leader is syncing
    | Leading(ticket: nat, target: nat, began: nat) // syncing the log; `began` transactions had been written before
    | Returned(ticket: nat, ok: bool)             // outcome known, engine mutex to be taken again
    | Back(ticket: nat, ok: bool)                 // engine mutex taken again
    | DrainCheck                                  // holds the engine mutex, wants to empty the log
    | Draining                                    // holds the engine mutex, waits for the syncs to finish
    | Truncating                                  // empties the log
    | Exclusive                                   // close, backup or compact

  /** What the threads share. */
  datatype Shared = Shared(
    owner: Option<Thread>,      // of the engine mutex
    inFlight: nat,
    leaderActive: bool,
    written: nat,               // last published transaction
    durable: nat,               // last transaction reported durable
    failed: bool,
    txnActive: bool,
    needsRecovery: bool,
    appended: nat,              // last transaction whose bytes are in the log
    synced: nat,                // last transaction that was in the log when a completed sync began
    acked: set<nat>)            // transactions reported committed

  datatype State = State(phase: map<Thread, Phase>, m: Shared)

  datatype Action =
    | Lock | Refuse
    | WriteBytes | WriteFails | Publish | Release
    | Check | SyncDone(ok: bool) | Relock | Finish(due: bool)
    | CheckDrain | Truncate(done: bool)
    | EnterExclusive | LeaveExclusive
    | BeginTxn | CommitTxn(stored: bool) | AbortTxn

  // ---------------------------------------------------------------- steps

  predicate CanDo(p: Phase, m: Shared, a: Action) {
    match a
    case Lock => p.Idle? && m.owner.None?
    case Refuse => p.Locked?
    case WriteBytes => p.Locked? && !m.txnActive && !m.needsRecovery
    case WriteFails => p.Staged?
    case Publish => p.Staged?
    case Release => p.Ticketed?
    case Check => p.Checking?
    case SyncDone(_) => p.Leading?
    case Relock => p.Returned? && m.owner.None?
    case Finish(_) => p.Back?
    case CheckDrain => p.DrainCheck?
    case Truncate(_) => p.Truncating?
    case EnterExclusive => p.Locked? && m.inFlight == 0
    case LeaveExclusive => p.Exclusive?
    case BeginTxn => p.Locked? && !m.txnActive && m.inFlight == 0 && !m.needsRecovery
    case CommitTxn(_) => p.Locked? && m.txnActive
    case AbortTxn => p.Locked? && m.txnActive
  }

  /** Where the step takes the thread. */
  function PhaseAfter(p: Phase, m: Shared, a: Action): Phase
    requires CanDo(p, m, a)
  {
    match a
    case Lock => Locked
    case WriteBytes => Staged(m.appended + 1)
    case Publish => if m.failed then Idle else Ticketed(p.ticket)
    case Release => Checking(p.ticket)
    case Check =>
      if m.durable >= p.ticket then Returned(p.ticket, true)
      else if m.failed then Returned(p.ticket, false)
      else if !m.leaderActive then Leading(p.ticket, m.written, m.appended)
      else Waiting(p.ticket)
    case SyncDone(_) => Checking(p.ticket)
    case Relock => Back(p.ticket, p.ok)
    case Finish(due) => if p.ok && !m.txnActive && !m.needsRecovery && due && !m.failed then DrainCheck else Idle
    case CheckDrain => if m.failed then Idle else if m.leaderActive || m.durable != m.written then Draining
      else Truncating
    case EnterExclusive => Exclusive
    case Refuse => Idle
    case WriteFails => Idle
    case Truncate(_) => Idle
    case LeaveExclusive => Idle
    case BeginTxn => Idle
    case CommitTxn(_) => Idle
    case AbortTxn => Idle
  }

  function Max(a: nat, b: nat): nat { if a < b then b else a }

  /** What the step does to the shared state, the mutex apart. */
  function SharedAfter(p: Phase, m: Shared, a: Action): Shared
    requires CanDo(p, m, a)
  {
    match a
    case WriteBytes => m.(appended := m.appended + 1)
    case WriteFails => m.(needsRecovery := true)
    case Publish => if m.failed then m.(needsRecovery := true) else m.(written := p.ticket)
    case Release => m.(inFlight := m.inFlight + 1)
    case Check => m.(leaderActive := m.leaderActive || (m.durable < p.ticket && !m.failed))
    case SyncDone(ok) =>
      if ok then m.(leaderActive := false, durable := Max(m.durable, p.target), synced := Max(m.synced, p.began))
      else m.(leaderActive := false, failed := true)
    case Relock => m.(inFlight := if m.inFlight == 0 then 0 else m.inFlight - 1)
    case Finish(_) => if p.ok then m.(acked := m.acked + {p.ticket}) else m.(needsRecovery := true)
    case Truncate(done) => if done then m.(synced := m.appended) else m.(needsRecovery := true)
    case BeginTxn => m.(txnActive := true)
    case CommitTxn(stored) =>
      if stored
        then m.(txnActive := false, appended := m.appended + 1, synced := m.appended + 1,
          acked := m.acked + {m.appended + 1})
      else m.(txnActive := false, appended := m.appended + 1, needsRecovery := true)
    case AbortTxn => m.(txnActive := false)
    case Lock => m
    case Refuse => m
    case CheckDrain => m
    case EnterExclusive => m
    case LeaveExclusive => m
  }

  /** A thread holds the engine mutex in these phases. */
  predicate Holds(p: Phase) {
    p.Locked? || p.Staged? || p.Ticketed? || p.Back? || p.DrainCheck? || p.Draining? || p.Truncating? || p.Exclusive?
  }

  /** Everyone who waits looks again. */
  function Woken(p: Phase): Phase {
    if p.Waiting? then Checking(p.ticket) else if p.Draining? then DrainCheck else p
  }

  predicate Enabled(s: State, i: Thread, a: Action) { i in s.phase && CanDo(s.phase[i], s.m, a) }

  /** A step moves one thread; the mutex follows its phase; the end of a sync wakes the others. */
  function Apply(s: State, i: Thread, a: Action): State
    requires Enabled(s, i, a)
  {
    var p, p' := s.phase[i], PhaseAfter(s.phase[i], s.m, a);
    var m' := SharedAfter(p, s.m, a).(owner := if Holds(p') then Some(i) else if Holds(p) then None else s.m.owner);
    State(map j | j in s.phase :: if j == i then p' else if a.SyncDone? then Woken(s.phase[j]) else s.phase[j], m')
  }

  // ---------------------------------------------------------------- invariant

  /** Off the engine mutex with a transaction that is not yet answered for. */
  predicate InWindow(p: Phase) { p.Checking? || p.Waiting? || p.Leading? || p.Returned? }

  function Window(ph: map<Thread, Phase>): set<Thread> { set i | i in ph && InWindow(ph[i]) }

  ghost predicate PhaseOk(m: Shared, p: Phase) {
    match p
    case Idle => true
    case Locked => true
    case Staged(t) => t == m.appended && m.written < t && !m.txnActive
    case Ticketed(t) => 0 < t <= m.written && !m.txnActive
    case Checking(t) => 0 < t <= m.written
    case Waiting(t) => 0 < t <= m.written && m.leaderActive && m.durable < t
    case Leading(t, target, began) => 0 < t <= target <= m.written && target <= began <= m.appended && m.durable < t
      && m.leaderActive
    case Returned(t, ok) => if ok then 0 < t <= m.durable else m.failed
    case Back(t, ok) => if ok then 0 < t <= m.durable else m.failed
    case DrainCheck => !m.txnActive
    case Draining => !m.txnActive && !m.failed && (m.leaderActive || m.durable != m.written)
    case Truncating => !m.txnActive && !m.leaderActive && m.durable == m.written
    case Exclusive => m.inFlight == 0
  }

  /** The transaction published last has a thread that will see to it. */
  predicate Drives(m: Shared, p: Phase) {
    (p.Ticketed? || p.Checking? || p.Waiting? || p.Leading?) && p.ticket == m.written
  }

  ghost predicate OwnerOk(s: State) {
    && (forall i :: i in s.phase ==> (Holds(s.phase[i]) <==> s.m.owner == Some(i)))
    && (s.m.owner.Some? ==> s.m.owner.value in s.phase)
  }

  ghost predicate LeaderOk(s: State) {
    && (forall i, j :: i in s.phase && j in s.phase && s.phase[i].Leading? && s.phase[j].Leading? ==> i == j)
    && (s.m.leaderActive ==> exists i :: i in s.phase && s.phase[i].Leading?)
  }

  ghost predicate MarksOk(m: Shared) {
    && m.durable <= m.written <= m.appended && m.durable <= m.synced <= m.appended
    && (forall t :: t in m.acked ==> 0 < t <= m.synced)
    && !(m.failed && m.leaderActive) && (m.txnActive ==> m.inFlight == 0)
  }

  ghost predicate Driven(s: State) {
    s.m.durable < s.m.written && !s.m.failed ==> exists i :: i in s.phase && Drives(s.m, s.phase[i])
  }

  ghost predicate PhasesOk(s: State) { forall i :: i in s.phase ==> PhaseOk(s.m, s.phase[i]) }

  ghost predicate Inv(s: State) {
    && OwnerOk(s) && LeaderOk(s) && MarksOk(s.m) && Driven(s) && PhasesOk(s)
    && s.m.inFlight == |Window(s.phase)|
  }

  ghost predicate Init(s: State) {
    && (forall i :: i in s.phase ==> s.phase[i] == Idle)
    && exists n: nat :: s.m == Shared(None, 0, false, n, n, false, false, false, n, n, {})
  }

  // ---------------------------------------------------------------- one thread

  lemma SelfStep(p: Phase, m: Shared, a: Action, o: Option<Thread>)
    requires CanDo(p, m, a) && PhaseOk(m, p) && MarksOk(m) && (InWindow(p) ==> m.inFlight > 0)
    ensures PhaseOk(SharedAfter(p, m, a).(owner := o), PhaseAfter(p, m, a))
  {
  }

  lemma MarksStep(p: Phase, m: Shared, a: Action, o: Option<Thread>)
    requires CanDo(p, m, a) && PhaseOk(m, p) && MarksOk(m)
    ensures MarksOk(SharedAfter(p, m, a).(owner := o))
  {
  }

  /** A thread q with another phase keeps its place; only one thread holds the mutex, only one leads. */
  lemma OtherStep(p: Phase, m: Shared, a: Action, o: Option<Thread>, q: Phase)
    requires CanDo(p, m, a) && PhaseOk(m, p) && MarksOk(m) && PhaseOk(m, q)
    requires !(Holds(p) && Holds(q)) && (m.owner.None? ==> !Holds(q)) && !(p.Leading? && q.Leading?)
      && (InWindow(p) ==> m.inFlight > 0)
    ensures PhaseOk(SharedAfter(p, m, a).(owner := o), if a.SyncDone? then Woken(q) else q)
  {
  }

  lemma CountStep(p: Phase, m: Shared, a: Action)
    requires CanDo(p, m, a) && (InWindow(p) ==> m.inFlight > 0)
    ensures SharedAfter(p, m, a).inFlight ==
      m.inFlight - (if InWindow(p) then 1 else 0) + (if InWindow(PhaseAfter(p, m, a)) then 1 else 0)
  {
  }

  lemma HoldStep(p: Phase, m: Shared, a: Action)
    requires CanDo(p, m, a)
    ensures Holds(PhaseAfter(p, m, a)) ==> Holds(p) || m.owner.None?
  {
  }

  lemma LeadStep(p: Phase, m: Shared, a: Action)
    requires CanDo(p, m, a)
    ensures PhaseAfter(p, m, a).Leading? ==> !m.leaderActive
    ensures SharedAfter(p, m, a).leaderActive ==>
      PhaseAfter(p, m, a).Leading? || (m.leaderActive && !p.Leading? && !a.SyncDone?)
  {
  }

  lemma DriveStep(p: Phase, m: Shared, a: Action)
    requires CanDo(p, m, a) && PhaseOk(m, p) && MarksOk(m)
    ensures var p', m' := PhaseAfter(p, m, a), SharedAfter(p, m, a);
      && (m'.durable < m'.written && !m'.failed && Drives(m, p) ==> Drives(m', p'))
      && (m'.written != m.written ==> Drives(m', p'))
      && (m'.durable < m'.written && !m'.failed && m'.written == m.written ==> m.durable < m.written && !m.failed)
  {
  }

  // ---------------------------------------------------------------- all threads

  lemma OwnerKept(s: State, i: Thread, a: Action)
    requires OwnerOk(s) && Enabled(s, i, a)
    ensures OwnerOk(Apply(s, i, a))
  {
    HoldStep(s.phase[i], s.m, a);
  }

  lemma LeaderKept(s: State, i: Thread, a: Action)
    requires LeaderOk(s) && PhasesOk(s) && Enabled(s, i, a)
    ensures LeaderOk(Apply(s, i, a))
  {
    var s' := Apply(s, i, a);
    LeadStep(s.phase[i], s.m, a);
    if s'.m.leaderActive && !s'.phase[i].Leading? {
      var j :| j in s.phase && s.phase[j].Leading?;
      assert s'.phase[j].Leading?;
    }
  }

  lemma DrivenKept(s: State, i: Thread, a: Action)
    requires Driven(s) && MarksOk(s.m) && PhasesOk(s) && Enabled(s, i, a)
    ensures Driven(Apply(s, i, a))
  {
    var s' := Apply(s, i, a);
    DriveStep(s.phase[i], s.m, a);
    if s'.m.durable < s'.m.written && !s'.m.failed {
      if s'.m.written != s.m.written {
        assert Drives(s'.m, s'.phase[i]);
      } else {
        var j :| j in s.phase && Drives(s.m, s.phase[j]);
        assert Drives(s'.m, s'.phase[j]);
      }
    }
  }

  lemma PhasesKept(s: State, i: Thread, a: Action)
    requires OwnerOk(s) && LeaderOk(s) && MarksOk(s.m) && PhasesOk(s) && Enabled(s, i, a)
    requires InWindow(s.phase[i]) ==> s.m.inFlight > 0
    ensures PhasesOk(Apply(s, i, a))
  {
    var s' := Apply(s, i, a);
    SelfStep(s.phase[i], s.m, a, s'.m.owner);
    forall j | j in s.phase && j != i ensures PhaseOk(s'.m, s'.phase[j]) {
      OtherStep(s.phase[i], s.m, a, s'.m.owner, s.phase[j]);
    }
  }

  lemma CountKept(s: State, i: Thread, a: Action)
    requires s.m.inFlight == |Window(s.phase)| && Enabled(s, i, a)
    ensures Apply(s, i, a).m.inFlight == |Window(Apply(s, i, a).phase)|
  {
    var s' := Apply(s, i, a);
    if InWindow(s.phase[i]) { assert i in Window(s.phase); }
    CountStep(s.phase[i], s.m, a);
    var others := Window(s.phase) - {i};
    assert Window(s.phase) == if InWindow(s.phase[i]) then others + {i} else others;
    assert Window(s'.phase) == if InWindow(s'.phase[i]) then others + {i} else others;
  }

  /** Every step keeps the invariant. */
  lemma InvKept(s: State, i: Thread, a: Action)
    requires Inv(s) && Enabled(s, i, a)
    ensures Inv(Apply(s, i, a))
  {
    if InWindow(s.phase[i]) { assert i in Window(s.phase); }
    OwnerKept(s, i, a);
    LeaderKept(s, i, a);
    MarksStep(s.phase[i], s.m, a, Apply(s, i, a).m.owner);
    DrivenKept(s, i, a);
    PhasesKept(s, i, a);
    CountKept(s, i, a);
  }

  lemma InvInit(s: State)
    requires Init(s)
    ensures Inv(s)
  {
    assert Window(s.phase) == {};
  }

  // ---------------------------------------------------------------- runs

  ghost predicate Step(s: State, s': State) { exists i, a :: Enabled(s, i, a) && s' == Apply(s, i, a) }

  ghost predicate Run(r: seq<State>) {
    && r != [] && Init(r[0])
    && (forall k :: StepAt(r, k))
  }

  ghost predicate StepAt(r: seq<State>, k: int) { 0 < k < |r| ==> Step(r[k - 1], r[k]) }

  lemma TheStep(s: State, s': State) returns (i: Thread, a: Action)
    requires Step(s, s')
    ensures Enabled(s, i, a) && s' == Apply(s, i, a)
  {
    i, a :| Enabled(s, i, a) && s' == Apply(s, i, a);
  }

  lemma {:induction false} RunInv(r: seq<State>, k: nat)
    requires Run(r) && k < |r|
    ensures Inv(r[k])
  {
    if k == 0 { InvInit(r[0]); } else {
      RunInv(r, k - 1);
      assert StepAt(r, k);
      var i, a := TheStep(r[k - 1], r[k]);
      InvKept(r[k - 1], i, a);
    }
  }

  ghost predicate Grows(m: Shared, m': Shared) {
    && m.written <= m'.written && m.durable <= m'.durable && m.synced <= m'.synced
    && m.appended <= m'.appended && m.acked <= m'.acked
    && (m.failed ==> m'.failed && m'.durable == m.durable)
  }

  lemma StepGrows(p: Phase, m: Shared, a: Action, o: Option<Thread>)
    requires CanDo(p, m, a) && PhaseOk(m, p) && MarksOk(m)
    ensures Grows(m, SharedAfter(p, m, a).(owner := o))
  {
  }

  lemma StateGrows(s: State, s': State)
    requires Inv(s) && Step(s, s')
    ensures Grows(s.m, s'.m)
  {
    var i, a := TheStep(s, s');
    StepGrows(s.phase[i], s.m, a, s'.m.owner);
  }

  lemma GrowsMore(a: Shared, b: Shared, c: Shared)
    requires Grows(a, b) && Grows(b, c)
    ensures Grows(a, c)
  {
  }

  /** Watermarks never move back; after a failed sync the durable one never moves again. */
  lemma {:induction false} RunGrows(r: seq<State>, j: nat, k: nat)
    requires Run(r) && j <= k < |r|
    ensures Grows(r[j].m, r[k].m)
  {
    if j < k {
      RunGrows(r, j, k - 1);
      NextGrows(r, k - 1);
      GrowsMore(r[j].m, r[k - 1].m, r[k].m);
    }
  }

  lemma NextGrows(r: seq<State>, k: nat)
    requires Run(r) && k + 1 < |r|
    ensures Grows(r[k].m, r[k + 1].m)
  {
    RunInv(r, k);
    assert StepAt(r, k + 1);
    StateGrows(r[k], r[k + 1]);
  }

  /**
   * In every reachable state there is at most one leader, the durable watermark does not pass the
   * written one, and every acknowledged transaction was in the log before a completed sync began.
   */
  lemma Safety(r: seq<State>, k: nat)
    requires Run(r) && k < |r|
    ensures forall i, j :: i in r[k].phase && j in r[k].phase && r[k].phase[i].Leading? && r[k].phase[j].Leading? ==>
      i == j
    ensures r[k].m.durable <= r[k].m.written
    ensures forall t :: t in r[k].m.acked ==> 0 < t <= r[k].m.synced
    ensures forall i :: i in r[k].phase && r[k].phase[i].Returned? && r[k].phase[i].ok ==>
      0 < r[k].phase[i].ticket <= r[k].m.synced
  {
    RunInv(r, k);
  }

  /** A crash leaves some prefix of the log that holds at least what was synced: nothing acknowledged is lost. */
  lemma AckedSurvives(r: seq<State>, j: nat, k: nat, left: nat, t: nat)
    requires Run(r) && j <= k < |r| && r[k].m.synced <= left <= r[k].m.appended
    requires t in r[j].m.acked
    ensures 0 < t <= left
  {
    RunGrows(r, j, k);
    Safety(r, k);
  }

  // ---------------------------------------------------------------- answers

  /** Thread i took step k of the run. */
  ghost predicate Acted(r: seq<State>, k: int, i: Thread, a: Action) {
    0 <= k < |r| - 1 && Enabled(r[k], i, a) && r[k + 1] == Apply(r[k], i, a)
  }

  /** A write, a sync or a checkpoint that the disk did not carry out. */
  predicate DiskFails(a: Action) {
    a.WriteFails? || a == SyncDone(false) || a == Truncate(false) || a == CommitTxn(false)
  }

  ghost predicate SyncFailed(r: seq<State>, k: nat) {
    exists j, i {:trigger Acted(r, j, i, SyncDone(false))} :: j < k && Acted(r, j, i, SyncDone(false))
  }

  ghost predicate DiskFailed(r: seq<State>, k: nat) {
    exists j, i, a {:trigger Acted(r, j, i, a)} :: j < k && DiskFails(a) && Acted(r, j, i, a)
  }

  /** Commits are refused only after a sync has failed. */
  lemma {:induction false} FailedOnce(r: seq<State>, k: nat)
    requires Run(r) && k < |r| && r[k].m.failed
    ensures SyncFailed(r, k)
  {
    if k > 0 {
      if r[k - 1].m.failed {
        FailedOnce(r, k - 1);
      } else {
        assert StepAt(r, k);
        var i, a := TheStep(r[k - 1], r[k]);
        assert a == SyncDone(false);
        assert Acted(r, k - 1, i, SyncDone(false));
      }
    }
  }

  predicate Refused(p: Phase) { (p.Returned? || p.Back?) && !p.ok }

  /** So a committer is told of a failure only after a sync has failed. */
  lemma RefusedOnce(r: seq<State>, k: nat, i: Thread)
    requires Run(r) && k < |r| && i in r[k].phase && Refused(r[k].phase[i])
    ensures SyncFailed(r, k)
  {
    RunInv(r, k);
    FailedOnce(r, k);
  }

  lemma HarmStep(p: Phase, m: Shared, a: Action)
    requires CanDo(p, m, a) && PhaseOk(m, p) && SharedAfter(p, m, a).needsRecovery
    ensures m.needsRecovery || DiskFails(a) || m.failed
  {
  }

  /** And the pager asks for recovery only after the disk has failed. */
  lemma {:induction false} HarmedOnce(r: seq<State>, k: nat)
    requires Run(r) && k < |r| && r[k].m.needsRecovery
    ensures DiskFailed(r, k)
  {
    if k > 0 {
      RunInv(r, k - 1);
      assert StepAt(r, k);
      var i, a := TheStep(r[k - 1], r[k]);
      HarmStep(r[k - 1].phase[i], r[k - 1].m, a);
      if r[k - 1].m.needsRecovery {
        HarmedOnce(r, k - 1);
      } else if DiskFails(a) {
        assert Acted(r, k - 1, i, a);
      } else {
        FailedOnce(r, k - 1);
        var j, i' :| j < k - 1 && Acted(r, j, i', SyncDone(false));
        assert DiskFails(SyncDone(false)) && Acted(r, j, i', SyncDone(false));
      }
    }
  }

  /** Between taking a ticket, at most t, and its answer. */
  predicate Asks(p: Phase, t: nat) {
    (p.Checking? || p.Waiting? || p.Leading? || p.Returned? || p.Back?) && p.ticket <= t
  }

  /** The thread has been told that its transaction is durable, or is told so when it looks next. */
  predicate Told(m: Shared, p: Phase) {
    if p.Checking? then PhaseAfter(p, m, Check) == Returned(p.ticket, true) else (p.Returned? || p.Back?) && p.ok
  }

  /** Everything up to t is durable, and whoever has committed it is told. */
  ghost predicate Covered(s: State, t: nat) {
    s.m.durable >= t && forall q :: q in s.phase ==> ToldAt(s, q, t)
  }

  ghost predicate ToldAt(s: State, q: Thread, t: nat) { q in s.phase && Asks(s.phase[q], t) ==> Told(s.m, s.phase[q]) }

  lemma ToldNow(m: Shared, p: Phase, t: nat)
    requires PhaseOk(m, p) && m.durable >= t && !m.failed && Asks(p, t)
    ensures Told(m, p)
  {
  }

  /** A sync that succeeds covers everything that was published when it began. */
  lemma SyncCovers(s: State, i: Thread)
    requires Inv(s) && Enabled(s, i, SyncDone(true))
    ensures Covered(Apply(s, i, SyncDone(true)), s.phase[i].target)
  {
    var s', t := Apply(s, i, SyncDone(true)), s.phase[i].target;
    InvKept(s, i, SyncDone(true));
    forall q | q in s'.phase ensures ToldAt(s', q, t) {
      if Asks(s'.phase[q], t) { ToldNow(s'.m, s'.phase[q], t); }
    }
  }

  lemma ToldStep(p: Phase, m: Shared, a: Action, o: Option<Thread>, t: nat)
    requires CanDo(p, m, a) && m.durable >= t && (Asks(p, t) ==> Told(m, p))
    requires SharedAfter(p, m, a).durable >= t && (a.Release? ==> PhaseOk(m, p))
    ensures Asks(PhaseAfter(p, m, a), t) ==> Told(SharedAfter(p, m, a).(owner := o), PhaseAfter(p, m, a))
  {
  }

  lemma ToldOther(m: Shared, m': Shared, q: Phase, t: nat)
    requires m.durable >= t && m'.durable >= t && (Asks(q, t) ==> Told(m, q))
    ensures Asks(q, t) ==> Told(m', q)
    ensures Asks(Woken(q), t) ==> Told(m', Woken(q))
  {
  }

  lemma CoverKept(s: State, i: Thread, a: Action, t: nat)
    requires Inv(s) && Covered(s, t) && Enabled(s, i, a)
    ensures Covered(Apply(s, i, a), t)
  {
    var s' := Apply(s, i, a);
    StepGrows(s.phase[i], s.m, a, s'.m.owner);
    assert ToldAt(s, i, t);
    ToldStep(s.phase[i], s.m, a, s'.m.owner, t);
    forall q | q in s'.phase ensures ToldAt(s', q, t) {
      assert ToldAt(s, q, t);
      ToldOther(s.m, s'.m, s.phase[q], t);
    }
  }

  /**
   * After a sync that succeeds, in every later state, every transaction published before it began is durable, and
   * no committer of one waits, leads or is told of a failure: it has been told that it is durable, or its next look
   * at the watermarks tells it so.
   */
  lemma {:induction false} SyncServes(r: seq<State>, j: nat, i: Thread, k: nat)
    requires Run(r) && Acted(r, j, i, SyncDone(true)) && j < k < |r|
    ensures Covered(r[k], r[j].phase[i].target)
  {
    if k == j + 1 {
      RunInv(r, j);
      SyncCovers(r[j], i);
    } else {
      SyncServes(r, j, i, k - 1);
      CoverNext(r, k - 1, r[j].phase[i].target);
    }
  }

  lemma CoverNext(r: seq<State>, k: nat, t: nat)
    requires Run(r) && k + 1 < |r| && Covered(r[k], t)
    ensures Covered(r[k + 1], t)
  {
    RunInv(r, k);
    assert StepAt(r, k + 1);
    var q, a := TheStep(r[k], r[k + 1]);
    CoverKept(r[k], q, a, t);
  }

  /** A leader takes everything that is published when it begins, its own transaction included. */
  lemma LeaderTakes(s: State, i: Thread)
    requires Inv(s) && Enabled(s, i, Check) && Apply(s, i, Check).phase[i].Leading?
    ensures var p := Apply(s, i, Check).phase[i];
      p.ticket == s.phase[i].ticket && p.target == s.m.written && p.ticket <= p.target
  {
    assert PhaseOk(s.m, s.phase[i]);
  }

  // ---------------------------------------------------------------- exclusion

  /** Steps that empty, replace or close the log. */
  predicate TouchesLog(a: Action) { a.Truncate? || a.LeaveExclusive? || a.CommitTxn? }

  lemma NoSyncMeanwhile(s: State, i: Thread, a: Action, j: Thread)
    requires Inv(s) && Enabled(s, i, a) && TouchesLog(a) && j in s.phase
    ensures !s.phase[j].Leading?
    ensures !a.Truncate? ==> s.m.inFlight == 0 && !InWindow(s.phase[j])
  {
    if InWindow(s.phase[j]) { assert j in Window(s.phase); }
  }

  lemma CountIsWindow(r: seq<State>, k: nat)
    requires Run(r) && k < |r|
    ensures r[k].m.inFlight == |Window(r[k].phase)|
  {
    RunInv(r, k);
  }

  // ---------------------------------------------------------------- progress

  /** Whoever waits on the condition variable has a thread to wait for, which can move without the engine mutex. */
  lemma Helper(s: State, i: Thread) returns (j: Thread, a: Action)
    requires Inv(s) && i in s.phase && (s.phase[i].Waiting? || s.phase[i].Draining?)
    ensures j != i && Enabled(s, j, a) && (a.Check? || a.SyncDone?)
  {
    if s.m.leaderActive {
      j :| j in s.phase && s.phase[j].Leading?;
      a := SyncDone(true);
    } else {
      j :| j in s.phase && Drives(s.m, s.phase[j]);
      a := Check;
    }
  }

  lemma HolderMoves(s: State, i: Thread) returns (j: Thread, a: Action)
    requires Inv(s) && i in s.phase && Holds(s.phase[i])
    ensures Enabled(s, j, a) && !s.phase[j].Idle?
  {
    j := i;
    match s.phase[i]
    case Locked => a := Refuse;
    case Staged(_) => a := Publish;
    case Ticketed(_) => a := Release;
    case Back(_, _) => a := Finish(false);
    case DrainCheck => a := CheckDrain;
    case Draining => j, a := Helper(s, i);
    case Truncating => a := Truncate(true);
    case Exclusive => a := LeaveExclusive;
  }

  /** While any thread is busy, some busy thread can move. */
  lemma NoDeadlock(s: State, i: Thread) returns (j: Thread, a: Action)
    requires Inv(s) && i in s.phase && !s.phase[i].Idle?
    ensures Enabled(s, j, a) && !s.phase[j].Idle?
  {
    if Holds(s.phase[i]) {
      j, a := HolderMoves(s, i);
    } else if s.phase[i].Waiting? {
      j, a := Helper(s, i);
    } else if s.phase[i].Checking? {
      j, a := i, Check;
    } else if s.phase[i].Leading? {
      j, a := i, SyncDone(true);
    } else if s.m.owner.None? {
      j, a := i, Relock;
    } else {
      j, a := HolderMoves(s, s.m.owner.value);
    }
  }

  /** A thread writes a transaction to the log without waiting for anyone, whether or not another is syncing. */
  lemma WritesFreely(s: State, i: Thread)
    requires i in s.phase && s.phase[i].Idle? && s.m.owner.None? && !s.m.txnActive && !s.m.needsRecovery
    ensures Enabled(s, i, Lock) && Enabled(Apply(s, i, Lock), i, WriteBytes)
    ensures Apply(Apply(s, i, Lock), i, WriteBytes) ==
      State(s.phase[i := Staged(s.m.appended + 1)], s.m.(owner := Some(i), appended := s.m.appended + 1))
  {
  }

  /** And so it publishes it. */
  lemma PublishesFreely(s: State, i: Thread)
    requires i in s.phase && s.phase[i].Staged? && s.m.owner == Some(i) && !s.m.failed
    ensures Enabled(s, i, Publish) && Enabled(Apply(s, i, Publish), i, Release)
    ensures Apply(Apply(s, i, Publish), i, Release) ==
      State(s.phase[i := Checking(s.phase[i].ticket)],
        s.m.(owner := None, written := s.phase[i].ticket, inFlight := s.m.inFlight + 1))
  {
  }

  /** A commit that is answered well is acknowledged, and when the log is due its thread goes on to empty it. */
  lemma FinishAcks(s: State, i: Thread, due: bool)
    requires Inv(s) && Enabled(s, i, Finish(due)) && s.phase[i].ok
    ensures var s' := Apply(s, i, Finish(due));
      && s'.m.acked == s.m.acked + {s.phase[i].ticket} && s'.m.needsRecovery == s.m.needsRecovery
      && (due && !s.m.txnActive && !s.m.needsRecovery && !s.m.failed ==> s'.phase[i] == DrainCheck)
  {
  }

  /** Once nobody is left unanswered, a thread that drains goes on to empty the log. */
  lemma DrainDone(s: State, d: Thread)
    requires Inv(s) && d in s.phase && s.phase[d] == DrainCheck && !s.m.failed && UnansweredSet(s.phase) == {}
    ensures Apply(s, d, CheckDrain).phase[d] == Truncating
  {
    if s.m.leaderActive { LeaderThere(s); }
    if s.m.durable < s.m.written { DriverThere(s, d); }
  }

  lemma LeaderThere(s: State)
    requires LeaderOk(s) && s.m.leaderActive
    ensures UnansweredSet(s.phase) != {}
  {
    var j :| j in s.phase && s.phase[j].Leading?;
    assert j in UnansweredSet(s.phase);
  }

  lemma DriverThere(s: State, d: Thread)
    requires Inv(s) && d in s.phase && Holds(s.phase[d]) && !s.phase[d].Ticketed?
    requires s.m.durable < s.m.written && !s.m.failed
    ensures UnansweredSet(s.phase) != {}
  {
    var j :| j in s.phase && Drives(s.m, s.phase[j]);
    assert s.m.owner == Some(d);
    assert j in UnansweredSet(s.phase);
  }

  function CheckingSet(ph: map<Thread, Phase>): set<Thread> { set i | i in ph && ph[i].Checking? }
  function UnansweredSet(ph: map<Thread, Phase>): set<Thread> {
    set i | i in ph && (ph[i].Checking? || ph[i].Waiting? || ph[i].Leading?)
  }

  /** An upper bound on the steps that can be taken before a drain ends. */
  function DrainMeasure(s: State): int {
    Lag(s.m) * (2 * |s.phase| + 1)
    + |CheckingSet(s.phase)| + |UnansweredSet(s.phase)|
  }

  lemma SetBound(ph: map<Thread, Phase>, t: set<Thread>)
    requires t <= ph.Keys
    ensures |t| <= |ph|
  {
    assert ph.Keys == t + (ph.Keys - t);
    assert |ph.Keys| == |ph|;
  }

  lemma DrainHelpers(s: State, d: Thread, i: Thread, a: Action)
    requires OwnerOk(s) && d in s.phase && s.phase[d].Draining? && Enabled(s, i, a)
    ensures i != d && (a.Check? || a.SyncDone?)
  {
    assert s.m.owner == Some(d);
  }

  lemma CheckShrinks(s: State, i: Thread)
    requires Enabled(s, i, Check)
    ensures DrainMeasure(Apply(s, i, Check)) < DrainMeasure(s)
  {
    var s' := Apply(s, i, Check);
    assert s'.phase.Keys == s.phase.Keys && |s'.phase| == |s'.phase.Keys| && |s.phase| == |s.phase.Keys|;
    var c, u := CheckingSet(s.phase), UnansweredSet(s.phase);
    assert i in c && i in u;
    assert CheckingSet(s'.phase) == c - {i};
    assert UnansweredSet(s'.phase) == if s'.phase[i].Returned? then u - {i} else u;
  }

  function Lag(m: Shared): int { if m.failed then 0 else 1 + m.written - m.durable }

  lemma SyncShrinks(s: State, i: Thread, ok: bool)
    requires Inv(s) && Enabled(s, i, SyncDone(ok))
    ensures DrainMeasure(Apply(s, i, SyncDone(ok))) < DrainMeasure(s)
  {
    var s' := Apply(s, i, SyncDone(ok));
    MarksStep(s.phase[i], s.m, SyncDone(ok), s'.m.owner);
    assert s'.phase.Keys == s.phase.Keys && |s'.phase| == |s'.phase.Keys| && |s.phase| == |s.phase.Keys|;
    SetBound(s'.phase, CheckingSet(s'.phase));
    SetBound(s'.phase, UnansweredSet(s'.phase));
    Smaller(Lag(s.m), Lag(s'.m), 2 * |s.phase| + 1, |CheckingSet(s'.phase)| + |UnansweredSet(s'.phase)|,
            |CheckingSet(s.phase)| + |UnansweredSet(s.phase)|);
  }

  lemma DrainShrinks(s: State, d: Thread, i: Thread, a: Action)
    requires Inv(s) && d in s.phase && s.phase[d].Draining? && Enabled(s, i, a)
    ensures i != d && (a.Check? || a.SyncDone?)
    ensures DrainMeasure(Apply(s, i, a)) < DrainMeasure(s)
  {
    DrainHelpers(s, d, i, a);
    if a.Check? { CheckShrinks(s, i); } else { SyncShrinks(s, i, a.ok); }
  }

  lemma Smaller(x: int, x': int, k: int, y': int, y: int)
    requires 0 <= x' < x && 0 <= y' < k && 0 <= y
    ensures 0 <= x' * k + y' < x * k + y
  {
    assert x * k == (x - x' - 1) * k + x' * k + k;
    assert (x - x' - 1) * k >= 0;
  }

  /** A thread that drains with the engine mutex held goes on after a bounded number of steps. */
  lemma {:induction false} DrainEnds(r: seq<State>, j: nat, k: nat, d: Thread)
    requires Run(r) && j <= k < |r|
    requires forall l :: j <= l <= k ==> d in r[l].phase && r[l].phase[d].Draining?
    ensures k - j <= DrainMeasure(r[j])
    decreases k - j
  {
    RunInv(r, j);
    if j < k {
      assert StepAt(r, j + 1);
      var i, a := TheStep(r[j], r[j + 1]);
      DrainShrinks(r[j], d, i, a);
      DrainEnds(r, j + 1, k, d);
    } else {
      MeasureNat(r[j]);
    }
  }

  lemma MeasureNat(s: State)
    requires MarksOk(s.m)
    ensures DrainMeasure(s) >= 0
  {
    var x, k := Lag(s.m), 2 * |s.phase| + 1;
    assert x * k >= 0;
  }
}
