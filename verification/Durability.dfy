/**
 * Committed pages across crashes: the log, the data file and the superblock, each as the system
 * sees it and as the disk keeps it.
 */
module Durability {
  import Common

  type PageId = int
  type Page = seq<int>

  datatype Super = Super(lsn: nat, next: nat, free: nat)

  /** One transaction in the log. */
  datatype Rec = Rec(lsn: nat, writes: map<PageId, Page>, next: nat, free: nat)

  /** A place in the log: a complete transaction, or bytes that do not check out. */
  datatype Cell = Whole(rec: Rec) | Torn

  type Pages = map<PageId, Page>

  // ---------------------------------------------------------------- history

  /** The transactions are numbered from one; the file never shrinks; the free chain starts inside it. */
  ghost predicate Lawful(start: Super, hist: seq<Rec>) {
    start.lsn == 0 && forall i {:trigger RecOk(start, hist, i)} :: 0 <= i < |hist| ==> RecOk(start, hist, i)
  }

  ghost predicate RecOk(start: Super, hist: seq<Rec>, i: nat) {
    i < |hist| && hist[i].lsn == i + 1 && NextOk(hist[i], MetaAt(start, hist, i).next)
  }

  /** The sanity check on what a transaction says about the file. */
  predicate NextOk(r: Rec, next: nat) { next <= r.next && (r.free == 0 || r.free < r.next) && Inside(r.writes, r.next) }

  /** Page zero is the superblock's; pages from `next` on do not exist yet. */
  predicate Inside(pages: Pages, next: nat) { forall p :: p in pages ==> 0 < p < next }

  /** The pages after the first n transactions. */
  ghost function Image(genesis: Pages, hist: seq<Rec>, n: nat): Pages
    requires n <= |hist|
  { if n == 0 then genesis else Image(genesis, hist, n - 1) + hist[n - 1].writes }

  ghost function MetaAt(start: Super, hist: seq<Rec>, n: nat): Super
    requires n <= |hist|
  { if n == 0 then start else Super(n, hist[n - 1].next, hist[n - 1].free) }

  lemma {:induction false} ImageInside(genesis: Pages, start: Super, hist: seq<Rec>, n: nat)
    requires Inside(genesis, start.next) && Lawful(start, hist) && n <= |hist|
    ensures Inside(Image(genesis, hist, n), MetaAt(start, hist, n).next)
  {
    if n > 0 {
      ImageInside(genesis, start, hist, n - 1);
      LawfulAt(start, hist, n - 1);
    }
  }

  /** The pages that transactions a + 1 to b write. */
  ghost function Touched(hist: seq<Rec>, a: nat, b: nat): set<PageId>
    requires a <= b <= |hist|
    decreases b
  { if a == b then {} else Touched(hist, a, b - 1) + hist[b - 1].writes.Keys }

  ghost predicate SameAt(m: Pages, n: Pages, p: PageId) { (p in m <==> p in n) && (p in m ==> m[p] == n[p]) }

  lemma {:induction false} Untouched(genesis: Pages, hist: seq<Rec>, a: nat, b: nat, p: PageId)
    requires a <= b <= |hist| && p !in Touched(hist, a, b)
    ensures SameAt(Image(genesis, hist, a), Image(genesis, hist, b), p)
    decreases b
  {
    if a < b { Untouched(genesis, hist, a, b - 1, p); }
  }

  lemma {:induction false} HistPrefix(genesis: Pages, hist: seq<Rec>, more: seq<Rec>, a: nat, n: nat)
    requires a <= n <= |hist| && |hist| <= |more| && more[..|hist|] == hist
    ensures Image(genesis, more, n) == Image(genesis, hist, n) && Touched(more, a, n) == Touched(hist, a, n)
    decreases n
  {
    if n > 0 {
      assert more[n - 1] == more[..|hist|][n - 1];
      HistPrefix(genesis, hist, more, if a < n then a else n - 1, n - 1);
    }
  }

  // ---------------------------------------------------------------- what is on disk

  /**
   * The first `synced` cells of the log are on disk. Pages in `loose` have been written to the data
   * file since it was last synced. Pages in `ahead` may be newer there than the superblock says.
   */
  datatype Disk = Disk(super: Super, log: seq<Cell>, synced: nat, solid: Pages, loose: set<PageId>, ahead: set<PageId>)

  /** A cell with which the transactions do not go on. */
  predicate Ends(c: Cell, lsn: nat, next: nat) { c.Torn? || c.rec.lsn != lsn || !NextOk(c.rec, next) }

  ghost predicate LogOk(d: Disk, start: Super, hist: seq<Rec>)
    requires d.super.lsn <= |hist|
  {
    var k := |hist| - d.super.lsn;
    && k <= |d.log| && d.synced <= |d.log|
    && (forall i :: 0 <= i < k ==> d.log[i] == Whole(hist[d.super.lsn + i]))
    && (k < |d.log| ==> Ends(d.log[k], |hist| + 1, MetaAt(start, hist, |hist|).next))
  }

  ghost predicate DiskOk(d: Disk, genesis: Pages, start: Super, hist: seq<Rec>) {
    && Inside(genesis, start.next) && Lawful(start, hist)
    && d.super.lsn <= |hist| && d.super == MetaAt(start, hist, d.super.lsn)
    && LogOk(d, start, hist)
    && d.loose <= d.ahead && d.ahead <= Touched(hist, d.super.lsn, |hist|)
    && (d.ahead != {} ==> d.synced >= |hist| - d.super.lsn)
    && (forall p {:trigger SameAt(d.solid, Image(genesis, hist, d.super.lsn), p)} ::
          p !in d.ahead ==> SameAt(d.solid, Image(genesis, hist, d.super.lsn), p))
  }

  /** What a crash can leave. */
  datatype Crash = Crash(super: Super, log: seq<Cell>, data: Pages)

  ghost predicate Leaves(d: Disk, x: Crash) {
    && x.super == d.super
    && (forall p {:trigger SameAt(x.data, d.solid, p)} :: p !in d.loose ==> SameAt(x.data, d.solid, p))
    && d.synced <= |x.log| && d.synced <= |d.log|
    && (forall i :: 0 <= i < d.synced ==> x.log[i] == d.log[i])
    && (forall i :: d.synced <= i < |x.log| ==>
          x.log[i].Torn? || x.log[i].rec.lsn <= d.super.lsn || (i < |d.log| && x.log[i] == d.log[i]))
  }

  // ---------------------------------------------------------------- recovery

  /** How many transactions, from number lsn on, follow each other at the head of the log. */
  ghost function Replayable(log: seq<Cell>, lsn: nat, next: nat): nat {
    if log == [] || Ends(log[0], lsn, next) then 0 else 1 + Replayable(log[1..], lsn + 1, log[0].rec.next)
  }

  ghost predicate AllWhole(log: seq<Cell>, n: nat) { n <= |log| && forall i :: 0 <= i < n ==> log[i].Whole? }

  ghost function Replayed(data: Pages, log: seq<Cell>, n: nat): Pages
    requires AllWhole(log, n)
  { if n == 0 then data else Replayed(data, log, n - 1) + log[n - 1].rec.writes }

  lemma LawfulAt(start: Super, hist: seq<Rec>, i: nat)
    requires Lawful(start, hist) && i < |hist|
    ensures hist[i].lsn == i + 1 && NextOk(hist[i], MetaAt(start, hist, i).next)
      && MetaAt(start, hist, i + 1).next == hist[i].next
  {
    assert RecOk(start, hist, i);
  }

  /** Cells i, i + 1, ... of the log carry on from transaction c + i. */
  lemma {:induction false} ReplayableIs(start: Super, hist: seq<Rec>, c: nat, log: seq<Cell>, i: nat, n: nat)
    requires Lawful(start, hist) && c + n <= |hist| && i <= n <= |log|
    requires forall j :: 0 <= j < n ==> log[j] == Whole(hist[c + j])
    requires n < |log| ==> Ends(log[n], c + n + 1, MetaAt(start, hist, c + n).next)
    ensures Replayable(log[i..], c + i + 1, MetaAt(start, hist, c + i).next) == n - i
    decreases n - i
  {
    if i < n {
      ReplayableIs(start, hist, c, log, i + 1, n);
      LawfulAt(start, hist, c + i);
      assert log[i..][1..] == log[i + 1..] && log[i..][0] == log[i];
    }
  }

  /** The first n cells of the log are the n transactions after the superblock; there they stop. */
  ghost predicate Follows(x: Crash, start: Super, hist: seq<Rec>, n: nat) {
    && x.super.lsn + n <= |hist| && n <= |x.log|
    && (forall i :: 0 <= i < n ==> x.log[i] == Whole(hist[x.super.lsn + i]))
    && (n < |x.log| ==> Ends(x.log[n], x.super.lsn + n + 1, MetaAt(start, hist, x.super.lsn + n).next))
  }

  /** The cells that still follow the superblock. */
  lemma {:induction false} Survivors(d: Disk, start: Super, hist: seq<Rec>, x: Crash, n: nat) returns (k: nat)
    requires d.super.lsn <= |hist| && Lawful(start, hist) && d.super == MetaAt(start, hist, d.super.lsn)
      && LogOk(d, start, hist) && Leaves(d, x)
    requires n <= |hist| - d.super.lsn && n <= |x.log| && (n >= d.synced || n == |hist| - d.super.lsn)
    requires forall i :: 0 <= i < n ==> x.log[i] == d.log[i]
    ensures n <= k && Follows(x, start, hist, k) && Replayable(x.log, x.super.lsn + 1, x.super.next) == k
    decreases |x.log| - n
  {
    if n < |hist| - d.super.lsn && n < |x.log| && x.log[n] == d.log[n] {
      k := Survivors(d, start, hist, x, n + 1);
    } else {
      k := n;
      ReplayableIs(start, hist, d.super.lsn, x.log, 0, n);
      assert x.log[0..] == x.log;
    }
  }

  lemma {:induction false} ReplayAt(genesis: Pages, hist: seq<Rec>, c: nat, data: Pages, log: seq<Cell>, n: nat,
                                    p: PageId)
    requires c + n <= |hist| && n <= |log| && forall i :: 0 <= i < n ==> log[i] == Whole(hist[c + i])
    requires p !in Touched(hist, c, c + n) ==> SameAt(data, Image(genesis, hist, c), p)
    ensures SameAt(Replayed(data, log, n), Image(genesis, hist, c + n), p)
    decreases n
  {
    if n > 0 {
      if p !in hist[c + n - 1].writes { ReplayAt(genesis, hist, c, data, log, n - 1, p); }
    }
  }

  /**
   * Whatever a crash leaves, recovery yields the pages after some transaction that is not older than
   * the last one known to be on disk, and stops there.
   */
  lemma CrashRecovers(d: Disk, genesis: Pages, start: Super, hist: seq<Rec>, x: Crash) returns (n: nat)
    requires DiskOk(d, genesis, start, hist) && Leaves(d, x)
    ensures n == Replayable(x.log, x.super.lsn + 1, x.super.next) && Follows(x, start, hist, n)
    ensures n >= d.synced || n == |hist| - x.super.lsn
    ensures Replayed(x.data, x.log, n) == Image(genesis, hist, x.super.lsn + n)
  {
    n := Recovered(d, genesis, start, hist, x);
    RecoveredImage(d, genesis, start, hist, x, n);
  }

  lemma Recovered(d: Disk, genesis: Pages, start: Super, hist: seq<Rec>, x: Crash) returns (n: nat)
    requires DiskOk(d, genesis, start, hist) && Leaves(d, x)
    ensures n == Replayable(x.log, x.super.lsn + 1, x.super.next) && Follows(x, start, hist, n)
    ensures n >= d.synced || n == |hist| - x.super.lsn
  {
    n := Survivors(d, start, hist, x, Least(d.synced, |hist| - d.super.lsn));
  }

  lemma RecoveredImage(d: Disk, genesis: Pages, start: Super, hist: seq<Rec>, x: Crash, n: nat)
    requires DiskOk(d, genesis, start, hist) && Leaves(d, x)
    requires Follows(x, start, hist, n) && (n >= d.synced || n == |hist| - x.super.lsn)
    ensures Replayed(x.data, x.log, n) == Image(genesis, hist, x.super.lsn + n)
  {
    var c := d.super.lsn;
    var got, want := Replayed(x.data, x.log, n), Image(genesis, hist, c + n);
    forall p ensures SameAt(got, want, p) {
      if p !in Touched(hist, c, c + n) { Unreplayed(d, genesis, start, hist, x, n, p); }
      ReplayAt(genesis, hist, c, x.data, x.log, n, p);
    }
    SameEverywhere(got, want);
  }

  lemma Unreplayed(d: Disk, genesis: Pages, start: Super, hist: seq<Rec>, x: Crash, n: nat, p: PageId)
    requires DiskOk(d, genesis, start, hist) && Leaves(d, x)
    requires n <= |hist| - d.super.lsn && (n >= d.synced || n == |hist| - d.super.lsn)
    requires p !in Touched(hist, d.super.lsn, d.super.lsn + n)
    ensures SameAt(x.data, Image(genesis, hist, d.super.lsn), p)
  {
    assert p !in d.ahead;
    assert SameAt(x.data, d.solid, p);
    assert SameAt(d.solid, Image(genesis, hist, d.super.lsn), p);
  }

  lemma SameEverywhere(m: Pages, n: Pages)
    requires forall p {:trigger SameAt(m, n, p)} :: SameAt(m, n, p)
    ensures m == n
  {
    forall p | p in m ensures p in n && n[p] == m[p] { assert SameAt(m, n, p); }
    forall p | p in n ensures p in m { assert SameAt(m, n, p); }
  }

  // ---------------------------------------------------------------- the pager

  datatype Outcome = Done | Failed | Refused

  /** The log index: for each page written since the superblock, the last cell that has it. */
  ghost predicate IndexOk(index: map<PageId, nat>, touched: set<PageId>, image: Pages, hist: seq<Rec>, c: nat) {
    index.Keys == touched && forall p :: p in index ==> IndexAt(p, c + index[p], image, hist)
  }

  ghost predicate IndexAt(p: PageId, i: nat, image: Pages, hist: seq<Rec>) {
    i < |hist| && p in hist[i].writes && p in image && image[p] == hist[i].writes[p]
  }

  ghost predicate CacheOk(cache: Pages, image: Pages) { forall p :: p in cache ==> p in image && cache[p] == image[p] }

  /** Cells from k on, if whole, are from before the superblock. */
  ghost predicate OldFrom(log: seq<Cell>, k: nat, lsn: nat) {
    forall i :: k <= i < |log| && log[i].Whole? ==> log[i].rec.lsn <= lsn
  }

  /** What the pager keeps in memory. */
  datatype Memory = Memory(tail: nat, index: map<PageId, nat>, cache: Pages, current: Super)

  ghost predicate MemoryOk(m: Memory, log: seq<Cell>, image: Pages, touched: set<PageId>, start: Super, hist: seq<Rec>,
                           c: nat) {
    && c <= |hist| && m.tail == |hist| - c && OldFrom(log, m.tail, c)
    && IndexOk(m.index, touched, image, hist, c) && CacheOk(m.cache, image)
    && m.current == MetaAt(start, hist, |hist|)
  }

  ghost predicate DataOk(data: Pages, d: Disk) {
    forall p {:trigger SameAt(data, d.solid, p)} :: p !in d.loose ==> SameAt(data, d.solid, p)
  }

  /** What the disk makes of the steps of a checkpoint; `written` is the number of page writes that go well. */
  datatype CheckpointIo = CheckpointIo(logSynced: bool, written: nat, dataSynced: bool, stored: bool, noticed: bool,
                                       emptied: bool, cleared: bool) {
    predicate Flushes(pages: nat) { logSynced && pages <= written && dataSynced }

    predicate Stores(pages: nat) { Flushes(pages) && stored }

    predicate Advances(pages: nat) { Stores(pages) && noticed }
  }

  /** And of recovery; `applied` is the number of transactions whose writes go well. */
  datatype RecoveryIo = RecoveryIo(applied: nat, dataSynced: bool, stored: bool, noticed: bool, emptied: bool,
                                   cleared: bool) {
    predicate Stores(found: nat) { found == 0 || (found <= applied && dataSynced && stored) }

    predicate Advances(found: nat) { Stores(found) && (found == 0 || noticed) }
  }

  class Pager {
    ghost const genesis: Pages
    ghost const start: Super
    ghost var disk: Disk
    ghost var hist: seq<Rec>
    var log: seq<Cell>          // the log file as the system sees it
    var data: Pages             // the data file as the system sees it
    var super: Super            // the superblock on disk
    var mem: Memory
    var needsRecovery: bool

    ghost function Committed(): Pages
      reads this
    { Image(genesis, hist, |hist|) }

    /** The last transaction that no crash can lose. */
    ghost function Safe(): nat
      reads this
    { SafeLsn(disk, hist) }

    ghost predicate FilesOk()
      reads this
    {
      DiskOk(disk, genesis, start, hist) && log == disk.log && super == disk.super && DataOk(data, disk)
    }

    ghost predicate Working()
      reads this
    {
      super.lsn <= |hist| && MemoryOk(mem, log, Committed(), Touched(hist, super.lsn, |hist|), start, hist, super.lsn)
    }

    ghost predicate Valid()
      reads this
    {
      && FilesOk()
      && (!needsRecovery ==> disk.ahead == {} && Working())
    }

    /** Reads a page: from the cache, else from the log, else from the data file. */
    method Read(p: PageId) returns (st: Outcome, page: Page)
      requires Valid()
      modifies this`mem
      ensures Valid()
      ensures st == Done <==> !needsRecovery && p in Committed()
      ensures st == Refused <==> needsRecovery || !(0 < p < mem.current.next)
      ensures st == Done ==> page == Committed()[p]
    {
      page := [];
      if needsRecovery || p <= 0 || p >= mem.current.next {
        if !needsRecovery { ImageInside(genesis, start, hist, |hist|); }
        return Refused, page;
      }
      Untouching(genesis, hist, disk.super.lsn, disk, data, p, mem.index);
      if p in mem.cache { return Done, mem.cache[p]; }
      if p in mem.index {
        assert IndexAt(p, super.lsn + mem.index[p], Committed(), hist);
        assert log[mem.index[p]] == Whole(hist[super.lsn + mem.index[p]]);
        page := log[mem.index[p]].rec.writes[p];
      } else if p in data {
        page := data[p];
      } else {
        return Failed, page;
      }
      mem := mem.(cache := mem.cache[p := page]);
      st := Done;
    }

    /** The cache may forget a page at any time. */
    method Evict(p: PageId)
      requires Valid()
      modifies this`mem
      ensures Valid() && mem == old(mem).(cache := old(mem).cache - {p})
    {
      mem := mem.(cache := mem.cache - {p});
    }

    /**
     * Appends a transaction at the tail of the log. `fate` is what becomes of the write, and `rest` what
     * the write leaves of the older bytes behind it.
     */
    method Commit(writes: Pages, next: nat, free: nat, sync: bool, fate: Fate, rest: seq<Cell>) returns (st: Outcome)
      requires Valid() && Remnant(rest, log, mem.tail)
      requires !needsRecovery ==> mem.current.next <= next && (free == 0 || free < next) && Inside(writes, next)
      modifies this
      ensures Valid() && Safe() >= old(Safe())
      ensures st == Refused <==> old(needsRecovery) || writes == map[]
      ensures st == Refused ==> unchanged(this)
      ensures st == Done <==> st != Refused && fate == Lands
      ensures st == Done ==> hist == old(hist) + [Rec(|old(hist)| + 1, writes, next, free)] && !needsRecovery
      ensures st == Done ==> Committed() == old(Committed()) + writes && (sync ==> Safe() == |hist|)
      ensures st == Failed ==>
        needsRecovery
        && hist == if fate == Tears then old(hist) else old(hist) + [Rec(|old(hist)| + 1, writes, next, free)]
    {
      if needsRecovery || writes == map[] { return Refused; }
      var lsn := NextLsn();
      st := Log(Rec(lsn, writes, next, free), sync, fate, rest);
    }

    method NextLsn() returns (lsn: nat)
      requires Valid() && !needsRecovery
      ensures lsn == |hist| + 1
    {
      lsn := mem.current.lsn + 1;
    }

    method Log(rec: Rec, sync: bool, fate: Fate, rest: seq<Cell>) returns (st: Outcome)
      requires Valid() && !needsRecovery && Remnant(rest, log, mem.tail)
      requires rec.lsn == |hist| + 1 && NextOk(rec, mem.current.next)
      modifies this
      ensures Valid() && Safe() >= old(Safe())
      ensures st == if fate == Lands then Done else Failed
      ensures st == Done ==> hist == old(hist) + [rec] && !needsRecovery
      ensures st == Done ==> Committed() == old(Committed()) + rec.writes && (sync ==> Safe() == |hist|)
      ensures st == Failed ==> needsRecovery && hist == if fate == Tears then old(hist) else old(hist) + [rec]
    {
      if fate == Tears {
        Tear(rest);
        return Failed;
      }
      Append(rec, if sync && fate == Lands then mem.tail + 1 else Least(disk.synced, mem.tail), rest);
      if fate == LandsUnnoticed {
        needsRecovery := true;
        return Failed;
      }
      st := Done;
    }

    method Tear(rest: seq<Cell>)
      requires Valid() && !needsRecovery
      modifies this
      ensures Valid() && needsRecovery && hist == old(hist) && Safe() >= old(Safe())
    {
      TornDisk(disk, genesis, start, hist, rest);
      log := log[..mem.tail] + [Torn] + rest;
      disk := disk.(log := log, synced := Least(disk.synced, mem.tail));
      needsRecovery := true;
    }

    method Append(rec: Rec, ghost synced: nat, rest: seq<Cell>)
      requires Valid() && !needsRecovery && Remnant(rest, log, mem.tail)
      requires rec.lsn == |hist| + 1 && NextOk(rec, mem.current.next)
        && Least(disk.synced, mem.tail) <= synced <= mem.tail + 1
      modifies this
      ensures Valid() && !needsRecovery && hist == old(hist) + [rec] && Committed() == old(Committed()) + rec.writes
      ensures Safe() >= old(Safe()) && (synced == old(mem).tail + 1 ==> Safe() == |hist|)
    {
      RemnantOld(rest, log, mem.tail, super.lsn, Whole(rec));
      CommitDisk(disk, genesis, start, hist, rec, rest, synced);
      CommitMemory(mem, log, Committed(), Touched(hist, super.lsn, |hist|), start, hist, super.lsn, rec, rest);
      log := log[..mem.tail] + [Whole(rec)] + rest;
      disk := disk.(log := log, synced := synced);
      hist := hist + [rec];
      mem := Grown(mem, rec);
    }

    // -------------------------------------------------------------- checkpoint, step by step

    /** Syncs the log: no crash loses what it holds. */
    method SyncLog()
      requires FilesOk() && Working()
      modifies this`disk
      ensures FilesOk() && Working() && Safe() == |hist| && disk == old(disk).(synced := disk.synced)
        && disk.synced >= mem.tail
    {
      disk := disk.(synced := if disk.synced < mem.tail then mem.tail else disk.synced);
    }

    /** Copies the newest version of a page from the log to the data file. The write may tear. */
    method WritePage(p: PageId, whole: bool, ghost rest: set<PageId>) returns (st: Outcome)
      requires FilesOk() && Working() && p in mem.index && disk.synced >= mem.tail
      requires p in rest && UpToDate(data, Committed(), mem.index.Keys - rest)
      modifies this`disk, this`data
      ensures FilesOk() && Working() && disk.synced == old(disk).synced && disk.super == old(disk).super
      ensures st == if whole then Done else Failed
      ensures st == Done ==> UpToDate(data, Committed(), mem.index.Keys - (rest - {p}))
    {
      assert IndexAt(p, super.lsn + mem.index[p], Committed(), hist);
      assert log[mem.index[p]] == Whole(hist[super.lsn + mem.index[p]]);
      WriteDisk(disk, genesis, start, hist, p);
      DataWritten(data, disk, p, Committed()[p]);
      UpdatedMore(data, Committed(), mem.index, rest, p, super.lsn, hist);
      disk := disk.(loose := disk.loose + {p}, ahead := disk.ahead + {p});
      st := Failed;
      if whole {
        data := data[p := log[mem.index[p]].rec.writes[p]];
        st := Done;
      }
    }

    method SyncData()
      requires FilesOk()
      modifies this`disk
      ensures FilesOk() && disk == old(disk).(solid := data, loose := {})
    {
      SolidDisk(disk, genesis, start, hist, data);
      disk := disk.(solid := data, loose := {});
    }

    /** Moves the superblock to the last transaction; the log starts over at its head. */
    method Advance()
      requires FilesOk() && Working() && disk.loose == {} && data == Committed()
      modifies this`disk, this`super, this`mem
      ensures FilesOk() && Working() && disk.ahead == {} && super.lsn == |hist| && Safe() == |hist|
      ensures super == old(mem).current && mem == Memory(0, map[], old(mem).cache, old(mem).current)
    {
      AdvanceDisk(disk, genesis, start, hist, data, mem.tail);
      super := mem.current;
      disk := Disk(super, log, 0, disk.solid, {}, {});
      mem := Memory(0, map[], mem.cache, mem.current);
    }

    /** Empties the log and syncs it. What is left when either fails is older than the superblock. */
    method ResetLog(emptied: bool, synced: bool) returns (st: Outcome)
      requires FilesOk() && Working() && disk.ahead == {} && super.lsn == |hist|
      modifies this`disk, this`log
      ensures FilesOk() && Working() && disk.ahead == {} && Safe() == |hist|
      ensures st == if emptied && synced then Done else Failed
      ensures log == if emptied then [] else old(log)
    {
      if !emptied { return Failed; }
      log := [];
      disk := disk.(log := [], synced := 0);
      st := if synced then Done else Failed;
    }

    /** The first `written` pages are written, and if there are more, the next one tears. */
    method WritePages(written: nat) returns (st: Outcome)
      requires FilesOk() && Working() && disk.synced >= mem.tail
      modifies this`disk, this`data
      ensures FilesOk() && Working() && disk.super == old(disk).super && Safe() == |hist|
      ensures st == if |mem.index| <= written then Done else Failed
      ensures st == Done ==> data == Committed()
    {
      var rest, done := mem.index.Keys, 0;
      while rest != {}
        invariant FilesOk() && Working() && disk.super == old(disk).super && disk.synced == old(disk).synced
          && rest <= mem.index.Keys
        invariant UpToDate(data, Committed(), mem.index.Keys - rest)
        invariant done + |rest| == |mem.index.Keys| && done <= written
        decreases |rest|
      {
        ghost var q := Common.Member(rest);
        var p :| p in rest;
        st := WritePage(p, done < written, rest);
        if st != Done { return; }
        rest, done := rest - {p}, done + 1;
      }
      assert mem.index.Keys - {} == mem.index.Keys;
      AllWritten(genesis, hist, super.lsn, disk, data, mem.index);
      st := Done;
    }

    /**
     * Brings the data file up to date and starts the log over. A superblock that is stored may still be
     * reported lost. The pager is blocked exactly when the superblock is not known to be stored; the log is emptied
     * only behind it.
     */
    method Checkpoint(io: CheckpointIo) returns (st: Outcome)
      requires Valid()
      modifies this
      ensures Valid() && hist == old(hist) && Safe() >= old(Safe())
      ensures st == Refused <==> old(needsRecovery)
      ensures old(needsRecovery) || old(mem).index == map[] ==> unchanged(this) && (st == Refused || st == Done)
      ensures !old(needsRecovery) && old(mem).index != map[] ==>
        var pages := |old(mem).index|;
        && (st == Done <==> io.Advances(pages) && io.emptied && io.cleared)
        && (needsRecovery <==> !io.Advances(pages))
        && super == (if io.Stores(pages) then old(mem).current else old(super))
        && log == (if io.Advances(pages) && io.emptied then [] else old(log))
        && (io.Flushes(pages) ==> data == Committed())
        && (io.Advances(pages) ==> mem == Memory(0, map[], old(mem).cache, old(mem).current))
    {
      if needsRecovery { return Refused; }
      if mem.index == map[] { return Done; }
      st := FlushAndStartOver(io);
    }

    method FlushAndStartOver(io: CheckpointIo) returns (st: Outcome)
      requires Valid() && !needsRecovery
      modifies this`disk, this`data, this`super, this`mem, this`log, this`needsRecovery
      ensures Valid() && Safe() >= old(Safe())
      ensures st == (if io.Advances(|old(mem).index|) && io.emptied && io.cleared then Done else Failed)
      ensures needsRecovery <==> !io.Advances(|old(mem).index|)
      ensures super == (if io.Stores(|old(mem).index|) then old(mem).current else old(super))
      ensures log == (if io.Advances(|old(mem).index|) && io.emptied then [] else old(log))
      ensures io.Flushes(|old(mem).index|) ==> data == Committed()
      ensures io.Advances(|old(mem).index|) ==> mem == Memory(0, map[], old(mem).cache, old(mem).current)
    {
      st := Flush(io);
      if st != Done { needsRecovery := true; return; }
      st := StartOver(io);
    }

    /** Moves the superblock and empties the log behind it. */
    method StartOver(io: CheckpointIo) returns (st: Outcome)
      requires FilesOk() && Working() && disk.loose == {} && data == Committed() && !needsRecovery
      modifies this`disk, this`super, this`mem, this`log, this`needsRecovery
      ensures Valid() && Safe() >= old(Safe())
      ensures st == (if io.stored && io.noticed && io.emptied && io.cleared then Done else Failed)
      ensures needsRecovery <==> !(io.stored && io.noticed)
      ensures super == (if io.stored then old(mem).current else old(super))
      ensures log == (if io.stored && io.noticed && io.emptied then [] else old(log))
      ensures io.stored && io.noticed ==> mem == Memory(0, map[], old(mem).cache, old(mem).current)
    {
      if io.stored { Advance(); }
      if !io.stored || !io.noticed { needsRecovery := true; return Failed; }
      st := ResetLog(io.emptied, io.cleared);
    }

    /** The log first, then the pages, then the data file. */
    method Flush(io: CheckpointIo) returns (st: Outcome)
      requires FilesOk() && Working()
      modifies this`disk, this`data
      ensures FilesOk() && Working() && Safe() >= old(Safe())
      ensures st == if io.Flushes(|mem.index|) then Done else Failed
      ensures st == Done ==> disk.loose == {} && data == Committed()
    {
      if !io.logSynced { return Failed; }
      SyncLog();
      st := WritePages(io.written);
      if st != Done || !io.dataSynced { return Failed; }
      SyncData();
    }

    // -------------------------------------------------------------- opening after a crash

    /** Finds the files as a crash left them. Recovery is still to come. */
    constructor (x: Crash, ghost genesis: Pages, ghost start: Super, ghost before: Disk, ghost hist0: seq<Rec>)
      requires DiskOk(before, genesis, start, hist0) && Leaves(before, x)
      ensures Valid() && needsRecovery && Found() && disk.loose == {}
      ensures this.genesis == genesis && this.start == start && log == x.log && super == x.super
      ensures SafeLsn(before, hist0) <= |hist| <= |hist0| && hist == hist0[..|hist|]
    {
      this.genesis, this.start := genesis, start;
      log, data, super, needsRecovery := x.log, x.data, x.super, true;
      mem := Memory(0, map[], map[], x.super);
      ghost var n := CrashRecovers(before, genesis, start, hist0, x);
      FoundDisk(before, genesis, start, hist0, x, n);
      hist := hist0[..x.super.lsn + n];
      disk := FoundAs(x, hist0[..x.super.lsn + n]);
    }

    /** All that is in the files is on disk; any page the log speaks of may be old, new or torn. */
    ghost predicate Found()
      reads this
    {
      super.lsn <= |hist| && disk.synced == |log| && disk.ahead == Touched(hist, super.lsn, |hist|)
    }

    /** Counts the transactions that follow the superblock in the log. */
    method CountTransactions() returns (n: nat)
      ensures n == Replayable(log, super.lsn + 1, super.next)
    {
      n := 0;
      var next := super.next;
      assert log[0..] == log;
      while n < |log| && !Ends(log[n], super.lsn + 1 + n, next)
        invariant n <= |log|
          && Replayable(log, super.lsn + 1, super.next) == n + Replayable(log[n..], super.lsn + 1 + n, next)
      {
        assert log[n..][1..] == log[n + 1..];
        next := log[n].rec.next;
        n := n + 1;
      }
    }

    /** Applies transaction i of the log to the data file. The writes may tear. */
    method ApplyTransaction(i: nat, whole: bool) returns (st: Outcome)
      requires FilesOk() && Found() && i < |hist| - super.lsn
      modifies this`disk, this`data
      ensures FilesOk() && Found()
      ensures st == if whole then Done else Failed
      ensures st == Done ==> data == old(data) + hist[super.lsn + i].writes
    {
      var writes := log[i].rec.writes;
      ApplyDisk(disk, genesis, start, hist, i, data);
      disk := disk.(loose := disk.loose + writes.Keys);
      st := Failed;
      if whole {
        data := data + writes;
        st := Done;
      }
    }

    method ApplyTransactions(n: nat, applied: nat) returns (st: Outcome)
      requires FilesOk() && Found() && disk.loose == {} && n == |hist| - super.lsn
      modifies this`disk, this`data
      ensures FilesOk() && Found()
      ensures st == if n <= applied then Done else Failed
      ensures st == Done ==> data == Committed()
    {
      FoundImage(disk, genesis, start, hist, data);
      st := ApplyEach(n, applied);
    }

    /** The transactions in turn, until one tears. */
    method ApplyEach(n: nat, applied: nat) returns (st: Outcome)
      requires FilesOk() && Found() && n == |hist| - super.lsn && AllWhole(log, n)
      modifies this`disk, this`data
      ensures FilesOk() && Found()
      ensures st == if n <= applied then Done else Failed
      ensures st == Done ==> data == Replayed(old(data), log, n)
    {
      st := Done;
      var i := 0;
      while i < n
        invariant 0 <= i <= n && i <= applied && FilesOk() && Found() && st == Done
        invariant data == Replayed(old(data), log, i)
      {
        st := ApplyTransaction(i, i < applied);
        if st != Done { return; }
        i := i + 1;
      }
    }

    /** Moves the superblock to the last of the n transactions found. */
    method AdvanceFound(n: nat)
      requires FilesOk() && Found() && disk.loose == {} && data == Committed() && n == |hist| - super.lsn
      modifies this`disk, this`super
      ensures FilesOk() && disk.ahead == {} && super == MetaAt(start, hist, |hist|)
    {
      AdvanceFoundDisk(disk, genesis, start, hist, data);
      if n > 0 {
        LawfulAt(start, hist, |hist| - 1);
        var last := log[n - 1].rec;
        super := Super(last.lsn, last.next, last.free);
      }
      disk := Disk(super, log, |log|, disk.solid, {}, {});
    }

    /** Replays the log into the data file. When a step fails the files can still be recovered later. */
    method Recover(io: RecoveryIo) returns (st: Outcome)
      requires Valid() && needsRecovery && Found() && disk.loose == {}
      modifies this
      ensures Valid() && hist == old(hist)
      ensures var found := |hist| - old(super).lsn;
        && st == (if io.Advances(found) && io.emptied && io.cleared then Done else Failed)
        && (needsRecovery <==> st == Failed)
        && super == (if io.Stores(found) then MetaAt(start, hist, |hist|) else old(super))
        && log == (if io.Advances(found) && io.emptied then [] else old(log))
      ensures st == Done ==> super.lsn == |hist| && data == Committed() && log == []
    {
      var n := Pending();
      st := ApplyTransactions(n, io.applied);
      if st != Done { return; }
      st := Settle(n, io);
      if st != Done { return; }
      st := Start(io.emptied, io.cleared);
    }

    method Pending() returns (n: nat)
      requires FilesOk()
      ensures n == |hist| - super.lsn
    {
      n := CountTransactions();
      ReplayableIs(start, hist, super.lsn, log, 0, |hist| - super.lsn);
      assert log[0..] == log;
    }

    /**
     * Syncs the data file and moves the superblock, which may be stored and still be reported lost. There is nothing
     * to do when the log held nothing new.
     */
    method Settle(n: nat, io: RecoveryIo) returns (st: Outcome)
      requires FilesOk() && Found() && data == Committed() && n == |hist| - super.lsn && n <= io.applied
      modifies this`disk, this`super
      ensures FilesOk()
      ensures st == if io.Advances(n) then Done else Failed
      ensures super == if io.Stores(n) then MetaAt(start, hist, |hist|) else old(super)
      ensures st == Done ==> disk.ahead == {} && super.lsn == |hist|
    {
      if n == 0 {
        NothingFound(disk, genesis, start, hist);
        return Done;
      }
      if !io.dataSynced { return Failed; }
      SyncData();
      if !io.stored { return Failed; }
      AdvanceFound(n);
      st := if io.noticed then Done else Failed;
    }

    /** Clears the log and begins to work. The log may be kept, or emptied and the clearing still be reported lost. */
    method Start(emptied: bool, cleared: bool) returns (st: Outcome)
      requires FilesOk() && super.lsn == |hist| && disk.ahead == {} && data == Committed() && needsRecovery
      modifies this`log, this`disk, this`mem, this`needsRecovery
      ensures Valid() && (needsRecovery <==> st == Failed)
      ensures st == (if emptied && cleared then Done else Failed) && log == (if emptied then [] else old(log))
    {
      if !emptied { return Failed; }
      log := [];
      disk := disk.(log := [], synced := 0);
      if !cleared { return Failed; }
      mem := Memory(0, map[], map[], super);
      needsRecovery := false;
      st := Done;
    }
  }

  lemma NothingFound(d: Disk, genesis: Pages, start: Super, hist: seq<Rec>)
    requires DiskOk(d, genesis, start, hist) && d.super.lsn == |hist|
    ensures d.super == MetaAt(start, hist, |hist|) && Touched(hist, |hist|, |hist|) == {}
  {
  }

  function Grown(m: Memory, rec: Rec): Memory {
    Memory(m.tail + 1, m.index + Indexed(rec.writes, m.tail), m.cache + rec.writes, Super(rec.lsn, rec.next, rec.free))
  }

  function Indexed(writes: Pages, i: nat): map<PageId, nat> { map p | p in writes :: i }

  ghost function SafeLsn(d: Disk, hist: seq<Rec>): nat {
    if d.super.lsn + d.synced < |hist| then d.super.lsn + d.synced else |hist|
  }

  datatype Fate = Lands | LandsUnnoticed | Tears

  function Least(a: nat, b: nat): nat { if a < b then a else b }

  /** Every cell of `rest` is torn or one of the old cells from the tail on. */
  ghost predicate Remnant(rest: seq<Cell>, log: seq<Cell>, tail: nat) {
    forall i :: 0 <= i < |rest| ==> rest[i].Torn? || exists j :: tail <= j < |log| && rest[i] == log[j]
  }

  ghost predicate AllOld(rest: seq<Cell>, lsn: nat) {
    forall i :: 0 <= i < |rest| ==> rest[i].Torn? || rest[i].rec.lsn <= lsn
  }

  lemma RemnantOld(rest: seq<Cell>, log: seq<Cell>, tail: nat, lsn: nat, c: Cell)
    requires Remnant(rest, log, tail) && OldFrom(log, tail, lsn) && tail <= |log|
    ensures AllOld(rest, lsn) && OldFrom(log[..tail] + [c] + rest, tail + 1, lsn)
  {
  }

  lemma Untouching(genesis: Pages, hist: seq<Rec>, c: nat, d: Disk, data: Pages, p: PageId, index: map<PageId, nat>)
    requires c <= |hist| && d.super.lsn == c && index.Keys == Touched(hist, c, |hist|) && d.loose <= d.ahead
      && d.ahead <= index.Keys
    requires forall p {:trigger SameAt(d.solid, Image(genesis, hist, c), p)} :: p !in d.ahead ==>
      SameAt(d.solid, Image(genesis, hist, c), p)
    requires forall p {:trigger SameAt(data, d.solid, p)} :: p !in d.loose ==> SameAt(data, d.solid, p)
    ensures p !in index ==> SameAt(data, Image(genesis, hist, |hist|), p)
  {
    if p !in index {
      assert SameAt(data, d.solid, p) && SameAt(d.solid, Image(genesis, hist, c), p);
      Untouched(genesis, hist, c, |hist|, p);
    }
  }

  lemma MetaGrows(start: Super, hist: seq<Rec>, rec: Rec, n: nat)
    requires n <= |hist|
    ensures MetaAt(start, hist + [rec], n) == MetaAt(start, hist, n)
  {
  }

  lemma LawfulGrows(start: Super, hist: seq<Rec>, rec: Rec)
    requires Lawful(start, hist) && rec.lsn == |hist| + 1 && NextOk(rec, MetaAt(start, hist, |hist|).next)
    ensures Lawful(start, hist + [rec])
  {
    var more := hist + [rec];
    forall i | 0 <= i < |more| ensures RecOk(start, more, i) {
      MetaGrows(start, hist, rec, i);
      if i < |hist| { LawfulAt(start, hist, i); }
    }
  }

  lemma LogGrows(d: Disk, start: Super, hist: seq<Rec>, rec: Rec, rest: seq<Cell>, synced: nat)
    requires d.super.lsn <= |hist| && LogOk(d, start, hist) && synced <= |hist| - d.super.lsn + 1
      && AllOld(rest, d.super.lsn)
    ensures LogOk(d.(log := d.log[..|hist| - d.super.lsn] + [Whole(rec)] + rest, synced := synced), start, hist + [rec])
  {
  }

  lemma CommitDisk(d: Disk, genesis: Pages, start: Super, hist: seq<Rec>, rec: Rec, rest: seq<Cell>, synced: nat)
    requires DiskOk(d, genesis, start, hist) && d.ahead == {} && AllOld(rest, d.super.lsn)
    requires rec.lsn == |hist| + 1 && NextOk(rec, MetaAt(start, hist, |hist|).next)
      && synced <= |hist| - d.super.lsn + 1
    ensures DiskOk(d.(log := d.log[..|hist| - d.super.lsn] + [Whole(rec)] + rest, synced := synced), genesis, start,
      hist + [rec])
    ensures Image(genesis, hist + [rec], |hist| + 1) == Image(genesis, hist, |hist|) + rec.writes
    ensures Touched(hist + [rec], d.super.lsn, |hist| + 1) == Touched(hist, d.super.lsn, |hist|) + rec.writes.Keys
  {
    var c, more := d.super.lsn, hist + [rec];
    assert more[..|hist|] == hist;
    LawfulGrows(start, hist, rec);
    LogGrows(d, start, hist, rec, rest, synced);
    HistPrefix(genesis, hist, more, c, c);
    HistPrefix(genesis, hist, more, c, |hist|);
    MetaGrows(start, hist, rec, c);
  }

  lemma TornDisk(d: Disk, genesis: Pages, start: Super, hist: seq<Rec>, rest: seq<Cell>)
    requires DiskOk(d, genesis, start, hist) && d.ahead == {}
    ensures var k := |hist| - d.super.lsn;
      DiskOk(d.(log := d.log[..k] + [Torn] + rest, synced := Least(d.synced, k)), genesis, start, hist)
  {
  }

  lemma IndexPut(index: map<PageId, nat>, image: Pages, hist: seq<Rec>, c: nat, rec: Rec)
    requires c <= |hist| && forall p :: p in index ==> IndexAt(p, c + index[p], image, hist)
    ensures var index' := index + Indexed(rec.writes, |hist| - c);
      && index'.Keys == index.Keys + rec.writes.Keys
      && forall p :: p in index' ==> IndexAt(p, c + index'[p], image + rec.writes, hist + [rec])
  {
    var index' := index + Indexed(rec.writes, |hist| - c);
    forall p | p in index' ensures IndexAt(p, c + index'[p], image + rec.writes, hist + [rec]) {
      if p !in rec.writes { assert IndexAt(p, c + index[p], image, hist); }
    }
  }

  lemma CachePut(cache: Pages, image: Pages, writes: Pages)
    requires CacheOk(cache, image)
    ensures CacheOk(cache + writes, image + writes)
  {
  }

  lemma CommitMemory(m: Memory, log: seq<Cell>, image: Pages, touched: set<PageId>, start: Super, hist: seq<Rec>,
                     c: nat,
                     rec: Rec, rest: seq<Cell>)
    requires MemoryOk(m, log, image, touched, start, hist, c) && Remnant(rest, log, m.tail) && m.tail <= |log|
      && rec.lsn == |hist| + 1
    ensures MemoryOk(Grown(m, rec), log[..m.tail] + [Whole(rec)] + rest, image + rec.writes, touched + rec.writes.Keys,
                     start, hist + [rec], c)
  {
    var m', more, image' := Grown(m, rec), hist + [rec], image + rec.writes;
    assert IndexOk(m'.index, touched + rec.writes.Keys, image', more, c) by { IndexPut(m.index, image, hist, c, rec); }
    assert CacheOk(m'.cache, image') by { CachePut(m.cache, image, rec.writes); }
    RemnantOld(rest, log, m.tail, c, Whole(rec));
  }

  lemma WriteDisk(d: Disk, genesis: Pages, start: Super, hist: seq<Rec>, p: PageId)
    requires DiskOk(d, genesis, start, hist) && d.synced >= |hist| - d.super.lsn
      && p in Touched(hist, d.super.lsn, |hist|)
    ensures DiskOk(d.(loose := d.loose + {p}, ahead := d.ahead + {p}), genesis, start, hist)
  {
  }

  lemma DataWritten(data: Pages, d: Disk, p: PageId, page: Page)
    requires DataOk(data, d)
    ensures DataOk(data, d.(loose := d.loose + {p}, ahead := d.ahead + {p}))
    ensures DataOk(data[p := page], d.(loose := d.loose + {p}, ahead := d.ahead + {p}))
  {
    var d' := d.(loose := d.loose + {p}, ahead := d.ahead + {p});
    forall q | q !in d'.loose ensures SameAt(data, d'.solid, q) && SameAt(data[p := page], d'.solid, q) {
      assert SameAt(data, d.solid, q);
    }
  }

  /** The given pages of the data file are the newest. */
  ghost predicate UpToDate(data: Pages, image: Pages, ps: set<PageId>) {
    forall p :: p in ps ==> p in data && p in image && data[p] == image[p]
  }

  lemma UpdatedMore(data: Pages, image: Pages, index: map<PageId, nat>, rest: set<PageId>, p: PageId, c: nat,
                    hist: seq<Rec>)
    requires UpToDate(data, image, index.Keys - rest) && p in rest && p in index
      && IndexAt(p, c + index[p], image, hist)
    ensures UpToDate(data[p := image[p]], image, index.Keys - (rest - {p}))
  {
  }

  lemma SolidDisk(d: Disk, genesis: Pages, start: Super, hist: seq<Rec>, data: Pages)
    requires DiskOk(d, genesis, start, hist) && DataOk(data, d)
    ensures DiskOk(d.(solid := data, loose := {}), genesis, start, hist)
  {
    var image := Image(genesis, hist, d.super.lsn);
    forall p | p !in d.ahead ensures SameAt(data, image, p) {
      assert SameAt(data, d.solid, p) && SameAt(d.solid, image, p);
    }
  }

  lemma AdvanceDisk(d: Disk, genesis: Pages, start: Super, hist: seq<Rec>, data: Pages, tail: nat)
    requires DiskOk(d, genesis, start, hist) && DataOk(data, d) && d.loose == {} && data == Image(genesis, hist, |hist|)
    requires tail == |hist| - d.super.lsn && OldFrom(d.log, tail, d.super.lsn)
    ensures DiskOk(Disk(MetaAt(start, hist, |hist|), d.log, 0, d.solid, {}, {}), genesis, start, hist)
    ensures OldFrom(d.log, 0, |hist|) && Touched(hist, |hist|, |hist|) == {}
      && MetaAt(start, hist, |hist|).lsn == |hist|
  {
    forall i | 0 <= i < tail ensures d.log[i].rec.lsn <= |hist| { LawfulAt(start, hist, d.super.lsn + i); }
    forall p ensures SameAt(d.solid, data, p) { assert SameAt(data, d.solid, p); }
  }

  lemma AllWritten(genesis: Pages, hist: seq<Rec>, c: nat, d: Disk, data: Pages, index: map<PageId, nat>)
    requires c <= |hist| && d.super.lsn == c && index.Keys == Touched(hist, c, |hist|) && d.loose <= d.ahead
      && d.ahead <= index.Keys
    requires forall p {:trigger SameAt(d.solid, Image(genesis, hist, c), p)} :: p !in d.ahead ==>
      SameAt(d.solid, Image(genesis, hist, c), p)
    requires DataOk(data, d)
    requires UpToDate(data, Image(genesis, hist, |hist|), index.Keys)
    ensures data == Image(genesis, hist, |hist|)
  {
    var image := Image(genesis, hist, |hist|);
    forall p ensures SameAt(data, image, p) {
      if p !in index { Untouching(genesis, hist, c, d, data, p, index); }
    }
    SameEverywhere(data, image);
  }

  /** The files as a crash left them, seen as disk state. */
  ghost function FoundAs(x: Crash, hist: seq<Rec>): Disk
    requires x.super.lsn <= |hist|
  { Disk(x.super, x.log, |x.log|, x.data, {}, Touched(hist, x.super.lsn, |hist|)) }

  lemma LawfulPrefix(start: Super, hist: seq<Rec>, n: nat)
    requires Lawful(start, hist) && n <= |hist|
    ensures Lawful(start, hist[..n])
  {
    var some := hist[..n];
    forall i | 0 <= i < |some| ensures RecOk(start, some, i) { LawfulAt(start, hist, i); }
  }

  lemma FoundDisk(d: Disk, genesis: Pages, start: Super, hist: seq<Rec>, x: Crash, n: nat)
    requires DiskOk(d, genesis, start, hist) && Leaves(d, x) && Follows(x, start, hist, n)
    requires n >= d.synced || n == |hist| - x.super.lsn
    ensures DiskOk(FoundAs(x, hist[..x.super.lsn + n]), genesis, start, hist[..x.super.lsn + n])
    ensures SafeLsn(d, hist) <= x.super.lsn + n
  {
    LawfulPrefix(start, hist, x.super.lsn + n);
    FoundPages(d, genesis, start, hist, x, n);
  }

  lemma FoundPages(d: Disk, genesis: Pages, start: Super, hist: seq<Rec>, x: Crash, n: nat)
    requires DiskOk(d, genesis, start, hist) && Leaves(d, x) && Follows(x, start, hist, n)
    requires n >= d.synced || n == |hist| - x.super.lsn
    ensures var c, some := x.super.lsn, hist[..x.super.lsn + n];
      forall p {:trigger SameAt(x.data, Image(genesis, some, c), p)} ::
        p !in Touched(some, c, c + n) ==> SameAt(x.data, Image(genesis, some, c), p)
  {
    var c, some := x.super.lsn, hist[..x.super.lsn + n];
    assert hist[..|some|] == some;
    HistPrefix(genesis, some, hist, c, c);
    HistPrefix(genesis, some, hist, c, c + n);
    var image := Image(genesis, some, c);
    forall p | p !in Touched(some, c, c + n) ensures SameAt(x.data, image, p) {
      Unreplayed(d, genesis, start, hist, x, n, p);
    }
  }

  lemma {:induction false} TouchedAt(hist: seq<Rec>, a: nat, b: nat, i: nat)
    requires a <= i < b <= |hist|
    ensures hist[i].writes.Keys <= Touched(hist, a, b)
    decreases b
  {
    if i < b - 1 { TouchedAt(hist, a, b - 1, i); }
  }

  lemma ApplyDisk(d: Disk, genesis: Pages, start: Super, hist: seq<Rec>, i: nat, data: Pages)
    requires DiskOk(d, genesis, start, hist) && DataOk(data, d) && i < |hist| - d.super.lsn
    requires d.ahead == Touched(hist, d.super.lsn, |hist|)
    ensures d.log[i] == Whole(hist[d.super.lsn + i])
    ensures var writes := hist[d.super.lsn + i].writes; var d' := d.(loose := d.loose + writes.Keys);
      DiskOk(d', genesis, start, hist) && DataOk(data, d') && DataOk(data + writes, d')
  {
    var writes := hist[d.super.lsn + i].writes;
    TouchedAt(hist, d.super.lsn, |hist|, d.super.lsn + i);
    forall q | q !in d.loose + writes.Keys ensures SameAt(data, d.solid, q) && SameAt(data + writes, d.solid, q) {
      assert SameAt(data, d.solid, q);
    }
  }

  lemma FoundImage(d: Disk, genesis: Pages, start: Super, hist: seq<Rec>, data: Pages)
    requires DiskOk(d, genesis, start, hist) && d.loose == {} && DataOk(data, d)
      && d.ahead == Touched(hist, d.super.lsn, |hist|)
    ensures Replayed(data, d.log, |hist| - d.super.lsn) == Image(genesis, hist, |hist|)
  {
    var c := d.super.lsn;
    var got, want := Replayed(data, d.log, |hist| - c), Image(genesis, hist, |hist|);
    forall p ensures SameAt(got, want, p) {
      if p !in d.ahead { assert SameAt(data, d.solid, p) && SameAt(d.solid, Image(genesis, hist, c), p); }
      ReplayAt(genesis, hist, c, data, d.log, |hist| - c, p);
    }
    SameEverywhere(got, want);
  }

  lemma AdvanceFoundDisk(d: Disk, genesis: Pages, start: Super, hist: seq<Rec>, data: Pages)
    requires DiskOk(d, genesis, start, hist) && d.loose == {} && DataOk(data, d) && data == Image(genesis, hist, |hist|)
    ensures DiskOk(Disk(MetaAt(start, hist, |hist|), d.log, |d.log|, d.solid, {}, {}), genesis, start, hist)
  {
    if |d.log| > 0 && d.super.lsn < |hist| { LawfulAt(start, hist, d.super.lsn); }
    forall p ensures SameAt(d.solid, data, p) { assert SameAt(data, d.solid, p); }
  }
}
