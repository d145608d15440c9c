/**
 * Replacing the data file: a marker file announces the new file, the rename puts it in place, and
 * the old log and the marker go. Directory changes are on disk only after a directory sync.
 */
module Replacing {
  /** Data files are told apart by the identity they carry. */
  type FileId = nat

  datatype Marker = Absent | Names(file: FileId) | Unreadable

  /** `log` says whether there is a log with its contents. */
  datatype Dir = Dir(data: FileId, log: bool, marker: Marker)

  datatype Change = Rename(to: FileId) | DropLog | SetMarker(marker: Marker)

  function Do(d: Dir, c: Change): Dir {
    match c
    case Rename(file) => d.(data := file)
    case DropLog => d.(log := false)
    case SetMarker(m) => d.(marker := m)
  }

  function DoAll(d: Dir, cs: seq<Change>): Dir {
    if cs == [] then d else Do(DoAll(d, cs[..|cs| - 1]), cs[|cs| - 1])
  }

  datatype Pc =
    | Ready                                // open for use
    | Announce | SyncAnnounced             // prepare
    | Swap | SyncSwapped                   // rename
    | DropOldLog | SyncDropped | DropMarker | SyncDone   // finish
    | Withdraw | SyncWithdrawn             // abort, or recovery that finds nothing to finish
    | Opening                              // recovery looks at the marker

  /** The file replaced last or being replaced, what replaces it, and whether the old one has a log to keep. */
  datatype Files = Files(source: FileId, target: FileId, owed: bool)

  /** The directory on disk, the changes made since it was last synced, and the place in the program. */
  datatype State = State(disk: Dir, pending: seq<Change>, pc: Pc, files: Files)

  function Now(s: State): Dir { DoAll(s.disk, s.pending) }

  datatype Event =
    | Step                        // the next step of the program
    | Write                       // a transaction: the log is made, and the directory synced, if there is none
    | Begin(target: FileId)       // a replacement is started
    | GiveUp                      // the marker or the rename fails
    | SyncFails                   // the directory sync after the rename fails, and the program goes on
    | Kill                        // the process ends; the system goes on
    | Crash(kept: seq<bool>)      // the system ends; of the pending changes those marked survive

  function Kept(cs: seq<Change>, kept: seq<bool>): seq<Change>
    requires |kept| == |cs|
  {
    if cs == [] then []
    else
      var n := |cs| - 1;
      Kept(cs[..n], kept[..n]) + (if kept[n] then [cs[n]] else [])
  }

  function Changed(s: State, c: Change, pc: Pc): State { s.(pending := s.pending + [c], pc := pc) }

  function Synced(s: State, pc: Pc): State { s.(disk := Now(s), pending := [], pc := pc) }

  /** The file in use takes the place of the old one; only the same file keeps what it is owed. */
  function Adopted(s: State, target: FileId): Files {
    Files(Now(s).data, target, s.files.owed && Now(s).data == s.files.source)
  }

  predicate Enabled(s: State, e: Event) {
    match e
    case Step => s.pc != Ready
    case Write => s.pc == Ready
    case Begin(target) => s.pc == Ready && target != Now(s).data
    case GiveUp => s.pc == Announce || s.pc == SyncAnnounced || s.pc == Swap
    case SyncFails => s.pc == SyncSwapped
    case Kill => true
    case Crash(kept) => |kept| == |s.pending|
  }

  function Apply(s: State, e: Event): State
    requires Enabled(s, e)
  {
    match e
    case Begin(target) => s.(pc := Announce, files := Adopted(s, target))
    case GiveUp => s.(pc := Withdraw)
    case SyncFails => s.(pc := DropOldLog)
    case Kill => s.(pc := Opening)
    case Crash(kept) => s.(disk := DoAll(s.disk, Kept(s.pending, kept)), pending := [], pc := Opening)
    case Write =>
      var d := Now(s);
      if d.log then s else State(d.(log := true), [], Ready, Files(d.data, d.data + 1, true))
    case Step =>
      match s.pc
      case Ready => s
      case Announce => Changed(s, SetMarker(Names(s.files.target)), SyncAnnounced)
      case SyncAnnounced => Synced(s, Swap)
      case Swap => Changed(s, Rename(s.files.target), SyncSwapped)
      case SyncSwapped => Synced(s, DropOldLog)
      case DropOldLog => Changed(s, DropLog, SyncDropped)
      case SyncDropped => Synced(s, DropMarker)
      case DropMarker => Changed(s, SetMarker(Absent), SyncDone)
      case SyncDone => Synced(s, Ready)
      case Withdraw => Changed(s, SetMarker(Absent), SyncWithdrawn)
      case SyncWithdrawn => Synced(s, Ready)
      case Opening =>
        var d := Now(s);
        if d.marker == Absent then s.(pc := Ready)
        else if d.marker == Names(d.data) then s.(pc := DropOldLog)
        else s.(pc := Withdraw)
  }

  // ---------------------------------------------------------------- what must not be lost

  /** The old file has its log, or the new file is announced until the old log is gone. */
  predicate Sound(d: Dir, f: Files) {
    if !f.owed then !d.log
    else if d.data == f.source then d.log && d.marker != Names(f.source)
    else d.data == f.target && (d.marker == Names(f.target) || (d.marker == Absent && !d.log))
  }

  /** Open for use: the old file with the log it is owed, or another file and no log; no marker. */
  predicate Settled(d: Dir, f: Files) { d.marker == Absent && (d.log <==> f.owed && d.data == f.source) }

  /** The crash forgets that the new file was put in place but not that the old log went. */
  predicate OutOfOrder(cs: seq<Change>, kept: seq<bool>)
    requires |kept| == |cs|
  {
    && (exists i :: 0 <= i < |cs| && cs[i].Rename? && !kept[i])
    && Survives(cs, kept, DropLog)
  }

  ghost predicate Only(cs: seq<Change>, from: nat, what: Change) { forall i :: from <= i < |cs| ==> cs[i] == what }

  ghost predicate OnlyMarkers(cs: seq<Change>, f: Files) {
    forall i :: 0 <= i < |cs| ==> cs[i].SetMarker? && cs[i].marker != Names(f.source)
  }

  /** The pending changes: the rename and then the log, only the log, or only markers. */
  ghost predicate PendingOk(d: Dir, cs: seq<Change>, f: Files) {
    || (d == Dir(f.source, true, Names(f.target)) && cs != [] && cs[0] == Rename(f.target) && Only(cs, 1, DropLog))
    || (d.data == f.target && d.marker == Names(f.target) && Only(cs, 0, DropLog))
    || (OnlyMarkers(cs, f) && (d.data == f.target ==> !d.log && Only(cs, 0, SetMarker(Absent))))
  }

  /** With a log to keep. */
  ghost predicate Keeping(s: State) {
    && s.files.source != s.files.target && Sound(s.disk, s.files) && PendingOk(s.disk, s.pending, s.files)
    && var d, f := Now(s), s.files;
    match s.pc
      case Ready => Settled(d, f)
      case Announce => d.data == f.source
      case SyncAnnounced => d.data == f.source && d.marker == Names(f.target)
      case Swap => d.data == f.source && d.marker == Names(f.target) && s.pending == []
      case SyncSwapped => d.data == f.target && d.marker == Names(f.target)
      case DropOldLog => d.data == f.target && d.marker == Names(f.target)
      case SyncDropped => d.data == f.target && d.marker == Names(f.target) && !d.log
      case DropMarker => d.data == f.target && !d.log && s.pending == []
      case SyncDone => Settled(d, f) && d.data == f.target && OnlyMarkers(s.pending, f)
      case Withdraw => d.data == f.source
      case SyncWithdrawn => d.data == f.source && d.marker == Absent
      case Opening => true
  }

  /** Without one, only the marker matters. */
  ghost predicate Free(s: State) {
    !s.disk.log && (s.pc == Ready || s.pc == SyncDone || s.pc == SyncWithdrawn ==> Now(s).marker == Absent)
  }

  ghost predicate Inv(s: State) { if s.files.owed then Keeping(s) else Free(s) }

  // ---------------------------------------------------------------- pending changes

  lemma DoMore(d: Dir, cs: seq<Change>, c: Change)
    ensures DoAll(d, cs + [c]) == Do(DoAll(d, cs), c)
  {
    assert (cs + [c])[..|cs|] == cs;
  }

  lemma {:induction false} NoLogStays(d: Dir, cs: seq<Change>)
    requires !d.log
    ensures !DoAll(d, cs).log
  {
    if cs != [] { NoLogStays(d, cs[..|cs| - 1]); }
  }

  lemma {:induction false} AfterMarkers(d: Dir, cs: seq<Change>, f: Files)
    requires OnlyMarkers(cs, f)
    ensures DoAll(d, cs).data == d.data && DoAll(d, cs).log == d.log
    ensures DoAll(d, cs).marker == if cs == [] then d.marker else cs[|cs| - 1].marker
  {
    if cs != [] { AfterMarkers(d, cs[..|cs| - 1], f); }
  }

  lemma {:induction false} AfterDrops(d: Dir, cs: seq<Change>, from: nat)
    requires from <= |cs| && Only(cs, from, DropLog) && DoAll(d, cs[..from]).marker == d.marker
    ensures DoAll(d, cs).data == DoAll(d, cs[..from]).data && DoAll(d, cs).marker == d.marker
    ensures DoAll(d, cs).log == if |cs| == from then DoAll(d, cs[..from]).log else false
    decreases |cs|
  {
    if |cs| == from {
      assert cs[..from] == cs;
    } else {
      assert cs[..|cs| - 1][..from] == cs[..from];
      AfterDrops(d, cs[..|cs| - 1], from);
    }
  }

  ghost predicate Orders(d: Dir, cs: seq<Change>, f: Files) {
    f.owed && f.source != f.target && PendingOk(d, cs, f) && Sound(d, f)
  }

  /** What the pending changes add up to. */
  lemma NowIs(d: Dir, cs: seq<Change>, f: Files)
    requires Orders(d, cs, f)
    ensures var now := DoAll(d, cs);
      && (now.data == f.source || now.data == f.target)
      && (now.data == f.source ==> OnlyMarkers(cs, f) && d.data == f.source && now.log && now.marker != Names(f.source))
      && (now.data == f.target && now.marker != Names(f.target) ==>
        now.marker == Absent && !now.log && OnlyMarkers(cs, f))
      && (now.data == f.target && now.marker == Names(f.target) ==> !OnlyMarkers(cs, f) || cs == [])
  {
    if cs != [] && cs[0].Rename? {
      assert cs[..1] == [cs[0]] && [cs[0]][..0] == [];
      AfterDrops(d, cs, 1);
    } else if d.data == f.target && d.marker == Names(f.target) && Only(cs, 0, DropLog) {
      assert cs[..0] == [];
      AfterDrops(d, cs, 0);
    } else {
      AfterMarkers(d, cs, f);
    }
  }

  /** A change that leaves the pending changes in order. */
  lemma ChangeKept(d: Dir, cs: seq<Change>, c: Change, f: Files)
    requires Orders(d, cs, f)
    requires match c
      case Rename(file) => file == f.target && d == Dir(f.source, true, Names(f.target)) && cs == []
      case DropLog => DoAll(d, cs).data == f.target && DoAll(d, cs).marker == Names(f.target)
      case SetMarker(m) =>
        || (m == Absent && cs == [] && d.data == f.target && !d.log)
        || (m != Names(f.source) && DoAll(d, cs).data == f.source)
    ensures PendingOk(d, cs + [c], f) && DoAll(d, cs + [c]) == Do(DoAll(d, cs), c)
  {
    NowIs(d, cs, f);
    DoMore(d, cs, c);
  }

  lemma SyncKept(d: Dir, cs: seq<Change>, f: Files)
    requires Orders(d, cs, f)
    ensures Orders(DoAll(d, cs), [], f)
  {
    NowIs(d, cs, f);
  }

  lemma KeepingStep(s: State)
    requires s.files.owed && Keeping(s) && s.pc != Ready
    ensures Keeping(Apply(s, Step))
  {
    if s.pc == Opening {
      NowIs(s.disk, s.pending, s.files);
    } else if Changes(s.pc) {
      KeepingChange(s);
    } else {
      SyncKept(s.disk, s.pending, s.files);
    }
  }

  predicate Changes(pc: Pc) {
    pc == Announce || pc == Swap || pc == DropOldLog || pc == DropMarker || pc == Withdraw
  }

  lemma KeepingChange(s: State)
    requires s.files.owed && Keeping(s) && Changes(s.pc)
    ensures Keeping(Apply(s, Step))
  {
    var f := s.files;
    var c := match s.pc
      case Announce => SetMarker(Names(f.target))
      case Swap => Rename(f.target)
      case DropOldLog => DropLog
      case _ => SetMarker(Absent);
    ChangeKept(s.disk, s.pending, c, f);
  }

  lemma FreeStep(s: State)
    requires Free(s) && s.pc != Ready
    ensures Free(Apply(s, Step))
  {
    if Changes(s.pc) {
      FreeChange(s);
    } else {
      NoLogStays(s.disk, s.pending);
      assert DoAll(Now(s), []) == Now(s);
    }
  }

  lemma FreeChange(s: State)
    requires Free(s) && Changes(s.pc)
    ensures Free(Apply(s, Step))
  {
    DoMore(s.disk, s.pending, SetMarker(Absent));
  }

  // ---------------------------------------------------------------- crashes

  lemma {:induction false} KeptMarkers(cs: seq<Change>, kept: seq<bool>, f: Files)
    requires |kept| == |cs| && OnlyMarkers(cs, f)
    ensures OnlyMarkers(Kept(cs, kept), f)
    ensures Only(cs, 0, SetMarker(Absent)) ==> Only(Kept(cs, kept), 0, SetMarker(Absent))
  {
    if cs != [] { KeptMarkers(cs[..|cs| - 1], kept[..|cs| - 1], f); }
  }

  predicate Survives(cs: seq<Change>, kept: seq<bool>, c: Change)
    requires |kept| == |cs|
  {
    exists i :: 0 <= i < |cs| && cs[i] == c && kept[i]
  }

  lemma SurvivesLast(cs: seq<Change>, kept: seq<bool>, c: Change)
    requires |kept| == |cs| && cs != []
    ensures var n := |cs| - 1; Survives(cs, kept, c) <==> Survives(cs[..n], kept[..n], c) || (cs[n] == c && kept[n])
  {
    var n := |cs| - 1;
    if Survives(cs[..n], kept[..n], c) {
      var i :| 0 <= i < n && cs[..n][i] == c && kept[..n][i];
      assert cs[i] == c && kept[i];
    }
    if Survives(cs, kept, c) {
      var i :| 0 <= i < |cs| && cs[i] == c && kept[i];
      assert i < n ==> cs[..n][i] == c && kept[..n][i];
    }
  }

  /** Of renames to one file and drops of the log. */
  lemma {:induction false} KeptDrops(d: Dir, cs: seq<Change>, kept: seq<bool>, file: FileId)
    requires |kept| == |cs| && forall i :: 0 <= i < |cs| ==> cs[i] == Rename(file) || cs[i] == DropLog
    ensures var x := DoAll(d, Kept(cs, kept));
      && x.marker == d.marker
      && x.data == (if Survives(cs, kept, Rename(file)) then file else d.data)
      && (x.log <==> d.log && !Survives(cs, kept, DropLog))
  {
    if cs != [] {
      var n := |cs| - 1;
      var rest := Kept(cs[..n], kept[..n]);
      KeptDrops(d, cs[..n], kept[..n], file);
      SurvivesLast(cs, kept, Rename(file));
      SurvivesLast(cs, kept, DropLog);
      if kept[n] { DoMore(d, rest, cs[n]); } else { assert rest + [] == rest; }
    }
  }

  /** What one crash leaves is sound unless it reorders the rename and the removal of the log. */
  lemma CrashKept(s: State, kept: seq<bool>)
    requires s.files.owed && Keeping(s) && |kept| == |s.pending|
    ensures Sound(Apply(s, Crash(kept)).disk, s.files) <==> !OutOfOrder(s.pending, kept)
    ensures Sound(Apply(s, Crash(kept)).disk, s.files) ==> Keeping(Apply(s, Crash(kept)))
  {
    var d, cs, f := s.disk, s.pending, s.files;
    if OnlyMarkers(cs, f) {
      KeptMarkers(cs, kept, f);
      AfterMarkers(d, Kept(cs, kept), f);
    } else {
      KeptDrops(d, cs, kept, f.target);
    }
  }

  /** Both the rename and the removal of the log still wait for a directory sync. */
  predicate Exposed(s: State) { s.files.owed && Rename(s.files.target) in s.pending && DropLog in s.pending }

  /** No crash can do harm now if and only if not both of them are pending. */
  lemma CrashSafe(s: State)
    requires Inv(s)
    ensures (forall kept :: |kept| == |s.pending| ==> Sound(Apply(s, Crash(kept)).disk, s.files)) <==> !Exposed(s)
  {
    if Exposed(s) {
      var kept := seq(|s.pending|, i requires 0 <= i < |s.pending| => s.pending[i] == DropLog);
      var i :| 0 <= i < |s.pending| && s.pending[i] == Rename(s.files.target);
      var j :| 0 <= j < |s.pending| && s.pending[j] == DropLog;
      assert !kept[i] && kept[j];
      CrashKept(s, kept);
    } else {
      forall kept | |kept| == |s.pending| ensures Sound(Apply(s, Crash(kept)).disk, s.files) {
        if s.files.owed { CrashKept(s, kept); } else { NoLogStays(s.disk, Kept(s.pending, kept)); }
      }
    }
  }

  lemma EventKept(s: State, e: Event)
    requires Inv(s) && Enabled(s, e) && (e.Crash? ==> !Exposed(s))
    ensures Inv(Apply(s, e))
  {
    if !s.files.owed { NoLogStays(s.disk, s.pending); } else { NowIs(s.disk, s.pending, s.files); }
    match e
    case Step => if s.files.owed { KeepingStep(s); } else { FreeStep(s); }
    case Crash(kept) =>
      CrashSafe(s);
      if s.files.owed { CrashKept(s, kept); } else { NoLogStays(s.disk, Kept(s.pending, kept)); }
    case Begin(_) => BeginKept(s, e);
    case Write =>
    case GiveUp =>
    case SyncFails =>
    case Kill =>
  }

  lemma BeginKept(s: State, e: Event)
    requires Inv(s) && Enabled(s, e) && e.Begin?
    ensures Inv(Apply(s, e))
  {
    if s.files.owed {
      NowIs(s.disk, s.pending, s.files);
      if Now(s).data == s.files.target { AfterMarkers(s.disk, s.pending, s.files); }
    }
  }

  // ---------------------------------------------------------------- runs

  /** A run of events, with the states before and after each. */
  ghost predicate Run(states: seq<State>, events: seq<Event>) {
    && |states| == |events| + 1
    && (forall i :: StepAt(states, events, i))
  }

  predicate StepAt(states: seq<State>, events: seq<Event>, i: int)
    requires |states| == |events| + 1
  {
    0 <= i < |events| ==> Enabled(states[i], events[i]) && states[i + 1] == Apply(states[i], events[i])
  }

  /** A database is opened; a marker from before may be there, readable or not, but does not name its file. */
  predicate Start(s: State) {
    && s.pc == Opening && s.pending == [] && s.disk.data == s.files.source != s.files.target
    && s.disk.log == s.files.owed && (s.files.owed ==> s.disk.marker != Names(s.files.source))
  }

  /** After a rename the process is killed before the directory sync, or the sync fails. */
  predicate Hazard(s: State, e: Event) {
    (e == Kill || e == SyncFails) && s.files.owed && Rename(s.files.target) in s.pending
  }

  /** A rename is pending only right after it was made. */
  predicate Fresh(s: State) {
    s.files.owed && Rename(s.files.target) in s.pending ==> s.pc == SyncSwapped && s.pending == [Rename(s.files.target)]
  }

  lemma FreshKept(s: State, e: Event)
    requires Inv(s) && Fresh(s) && Enabled(s, e) && !Hazard(s, e)
    ensures Fresh(Apply(s, e)) && !Exposed(s)
  {
    if s.files.owed && s.pending != [] {
      NowIs(s.disk, s.pending, s.files);
      assert s.pending[0] in s.pending;
    }
  }

  /**
   * However often the process or the system ends, and whatever each crash keeps: as long as every rename
   * is followed by its directory sync, unless the system ends first, the database that is open for use is
   * the old file with its log or the new file without it, and no marker is left.
   */
  lemma {:induction false} Replaced(states: seq<State>, events: seq<Event>)
    requires Run(states, events) && Start(states[0])
    requires forall i :: 0 <= i < |events| ==> !Hazard(states[i], events[i])
    ensures var s := states[|events|]; Inv(s) && Fresh(s) && (s.pc == Ready ==> Settled(Now(s), s.files))
    decreases |events|
  {
    if events != [] {
      var n := |events| - 1;
      RunBefore(states, events, n);
      Replaced(states[..n + 1], events[..n]);
      assert StepAt(states, events, n);
      FreshKept(states[n], events[n]);
      EventKept(states[n], events[n]);
    }
    if states[|events|].pc == Ready { ReadySettled(states[|events|]); }
  }

  lemma ReadySettled(s: State)
    requires Inv(s) && s.pc == Ready
    ensures Settled(Now(s), s.files)
  {
    if !s.files.owed { NoLogStays(s.disk, s.pending); }
  }

  lemma RunBefore(states: seq<State>, events: seq<Event>, n: nat)
    requires Run(states, events) && n <= |events|
    ensures Run(states[..n + 1], events[..n])
  {
    var first, done := states[..n + 1], events[..n];
    forall i ensures StepAt(first, done, i) { assert StepAt(states, events, i); }
  }

  /** A run from s to its last state, by way of the given events. */
  ghost predicate Leads(s: State, events: seq<Event>, states: seq<State>, last: State) {
    Run(states, events) && states[0] == s && states[|events|] == last
  }

  lemma LeadsFrom(s: State, e: Event, events: seq<Event>, states: seq<State>, last: State)
    requires Enabled(s, e) && Leads(Apply(s, e), events, states, last)
    ensures Leads(s, [e] + events, [s] + states, last)
  {
    var all, run := [s] + states, [e] + events;
    forall i ensures StepAt(all, run, i) { assert StepAt(states, events, i - 1); }
  }

  /** After every such event there is a way to lose the log: the process ends up open for use without it. */
  lemma HazardLoses(s: State, e: Event) returns (states: seq<State>, events: seq<Event>)
    requires Inv(s) && Enabled(s, e) && Hazard(s, e)
    ensures events != [] && events[0] == e
    ensures Leads(s, events, states, State(Dir(s.files.source, false, Absent), [], Ready, s.files))
    ensures !Settled(Dir(s.files.source, false, Absent), s.files)
  {
    var last := State(Dir(s.files.source, false, Absent), [], Ready, s.files);
    states, events := DropLoses(s);
    if e == Kill {
      LeadsFrom(s.(pc := Opening), Step, events, states, last);
      states, events := [s.(pc := Opening)] + states, [Step] + events;
    }
    LeadsFrom(s, e, events, states, last);
    states, events := [s] + states, [e] + events;
  }

  /** The log goes, and a crash keeps only that. */
  lemma DropLoses(s: State) returns (states: seq<State>, events: seq<Event>)
    requires Inv(s) && Hazard(s, Kill)
    ensures Apply(s.(pc := Opening), Step) == s.(pc := DropOldLog)
    ensures Leads(s.(pc := DropOldLog), events, states, State(Dir(s.files.source, false, Absent), [], Ready, s.files))
  {
    var f, cs := s.files, s.pending + [DropLog];
    var kept := seq(|cs|, i requires 0 <= i < |cs| => cs[i] == DropLog);
    var last := State(Dir(f.source, false, Absent), [], Ready, f);
    var a, b := s.(pc := DropOldLog), s.(pending := cs, pc := SyncDropped);
    Losing(s, kept);
    states, events := Withdrawing(Dir(f.source, false, Names(f.target)), f);
    LeadsFrom(b, Crash(kept), events, states, last);
    states, events := [b] + states, [Crash(kept)] + events;
    LeadsFrom(a, Step, events, states, last);
    states, events := [a] + states, [Step] + events;
  }

  lemma Losing(s: State, kept: seq<bool>)
    requires Inv(s) && Hazard(s, Kill) && |kept| == |s.pending| + 1
    requires forall i :: 0 <= i < |kept| ==> kept[i] == ((s.pending + [DropLog])[i] == DropLog)
    ensures Apply(s.(pc := Opening), Step) == s.(pc := DropOldLog)
    ensures var dropped := s.(pending := s.pending + [DropLog], pc := SyncDropped);
      Apply(dropped, Crash(kept)) == State(Dir(s.files.source, false, Names(s.files.target)), [], Opening, s.files)
  {
    PendingRename(s);
    LostBy(s.disk, s.pending + [DropLog], kept, s.files);
  }

  /** Recovery takes a marker back that does not name the data file. */
  lemma Withdrawing(d: Dir, f: Files) returns (states: seq<State>, events: seq<Event>)
    requires d.marker != Absent && d.marker != Names(d.data)
    ensures Leads(State(d, [], Opening, f), events, states, State(d.(marker := Absent), [], Ready, f))
  {
    var a, b, c := State(d, [], Opening, f), State(d, [], Withdraw, f), State(d, [SetMarker(Absent)], SyncWithdrawn, f);
    var last := State(d.(marker := Absent), [], Ready, f);
    DoMore(d, [], SetMarker(Absent));
    states, events := [last], [];
    LeadsFrom(c, Step, events, states, last);
    states, events := [c] + states, [Step] + events;
    LeadsFrom(b, Step, events, states, last);
    states, events := [b] + states, [Step] + events;
    LeadsFrom(a, Step, events, states, last);
    states, events := [a] + states, [Step] + events;
  }

  /** The crash keeps only that the log went. */
  lemma LostBy(d: Dir, cs: seq<Change>, kept: seq<bool>, f: Files)
    requires |kept| == |cs| > 0 && d == Dir(f.source, true, Names(f.target))
    requires forall i :: 0 <= i < |cs| ==>
      (cs[i] == Rename(f.target) || cs[i] == DropLog) && kept[i] == (cs[i] == DropLog)
    requires cs[|cs| - 1] == DropLog
    ensures DoAll(d, Kept(cs, kept)) == Dir(f.source, false, Names(f.target))
  {
    KeptDrops(d, cs, kept, f.target);
    assert kept[|cs| - 1];
  }

  lemma PendingRename(s: State)
    requires s.files.owed && Keeping(s) && Rename(s.files.target) in s.pending
    ensures s.disk == Dir(s.files.source, true, Names(s.files.target)) && s.pending[0] == Rename(s.files.target)
      && Only(s.pending, 1, DropLog)
    ensures Now(s).data == s.files.target && Now(s).marker == Names(s.files.target)
  {
    var i :| 0 <= i < |s.pending| && s.pending[i] == Rename(s.files.target);
    assert s.pending[..1] == [s.pending[0]] && [s.pending[0]][..0] == [];
    AfterDrops(s.disk, s.pending, 1);
  }

  /** Such events can happen in any replacement of a file with a log. */
  lemma HazardArises(source: FileId, target: FileId) returns (states: seq<State>, events: seq<Event>)
    requires source != target
    ensures Run(states, events) && Start(states[0])
    ensures var s := states[|events|]; Hazard(s, Kill) && Enabled(s, SyncFails) && Hazard(s, SyncFails)
    ensures forall i :: 0 <= i < |events| ==> !Hazard(states[i], events[i])
  {
    var f := Files(source, target, true);
    var free, announced := Dir(source, true, Absent), Dir(source, true, Names(target));
    DoMore(free, [], SetMarker(Names(target)));
    events := [Step, Begin(target), Step, Step, Step];
    states := [
      State(free, [], Opening, f), State(free, [], Ready, f), State(free, [], Announce, f),
      State(free, [SetMarker(Names(target))], SyncAnnounced, f), State(announced, [], Swap, f),
      State(announced, [Rename(target)], SyncSwapped, f)];
    forall i ensures StepAt(states, events, i) { }
  }

  /** Recovery ends: each step is one closer to being open for use. */
  function StepsLeft(pc: Pc): nat {
    match pc
    case Ready => 0
    case SyncWithdrawn => 1 case SyncDone => 1
    case Withdraw => 2 case DropMarker => 2
    case SyncDropped => 3 case DropOldLog => 4
    case Opening => 5 case SyncSwapped => 5
    case Swap => 6 case SyncAnnounced => 7 case Announce => 8
  }

  lemma RecoveryEnds(s: State)
    requires s.pc != Ready
    ensures StepsLeft(Apply(s, Step).pc) < StepsLeft(s.pc)
  {
  }
}
