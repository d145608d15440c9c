/** The rows a compaction copies, and what that changes: no answer. */
module Compaction {
  import opened Common
  import opened Keys
  import opened CompositeKeys
  import opened Rows
  import opened Reads
  import opened Scans

  function IsCurrent(rows: Rows, id: ObjectId, g: nat): Result<bool> {
    match ReadMeta(rows, id)
    case Error(st) => if st == NotFound then Value(false) else Error(st)
    case Value(meta) => Value(meta.generation == g)
  }

  /** Whether a row is copied; an error when it cannot be read. */
  function Liveness(rows: Rows, k: RowKey, row: Row): Result<bool> {
    match k
    case Counter => Value(true)
    case Object(id) => if row.MetaRow? && MetaOk(row.meta, id.kind) then Value(true) else Error(Corrupt)
    case Definition(_, _) => if row.Defined? then Value(true) else Error(Corrupt)
    case Chunk(id, g, i) =>
      if !row.Piece? || row.bytes == [] || g == 0 then Error(Corrupt)
      else (
        match ReadMeta(rows, id)
        case Error(st) => if st == NotFound then Value(false) else Error(st)
        case Value(meta) => Value(g == meta.generation && i < meta.chunks))
    case Reverse(c, d, _) =>
      if !row.Termed? || !ValidTerm(row.term) || row.generation == 0 then Error(Corrupt)
        else IsCurrent(rows, Doc(c, d), row.generation)
    case Entry(c, _, d, g) =>
      if !row.Empty? || g == 0 then Error(Corrupt) else IsCurrent(rows, Doc(c, d), g)
    case Guard(c, _) =>
      if !row.Owner? || row.generation == 0 || !ValidName(row.document) then Error(Corrupt)
      else IsCurrent(rows, Doc(c, row.document), row.generation)
  }

  predicate Live(rows: Rows, k: RowKey) { k in rows && Liveness(rows, k, rows[k]) == Value(true) }

  predicate Unreadable(rows: Rows, k: RowKey) { k in rows && Liveness(rows, k, rows[k]).Error? }

  /** Every row can be read, and the live ones are kept. */
  ghost predicate Compacted(rows: Rows, target: Rows) {
    && (forall k :: !Unreadable(rows, k))
    && forall k :: Lookup(target, k) == if Live(rows, k) then Lookup(rows, k) else None
  }

  /** The listing is in order and comes before the rows from i on. */
  ghost predicate InFront(order: seq<RowKey>, i: nat, listing: seq<RowKey>) {
    && (forall a, b :: InOrder(listing, a, b))
    && (forall a, j :: BeforeAt(listing, order, i, a, j))
  }

  predicate BeforeAt(listing: seq<RowKey>, order: seq<RowKey>, i: nat, a: int, j: int) {
    0 <= a < |listing| && i <= j < |order| ==> Before(KeyBytes(listing[a]), KeyBytes(order[j]))
  }

  lemma InFrontMore(rows: Rows, order: seq<RowKey>, i: nat, listing: seq<RowKey>)
    requires Listed(order, rows) && i < |order| && InFront(order, i, listing)
    ensures InFront(order, i + 1, listing) && InFront(order, i + 1, listing + [order[i]])
  {
    var more, n := listing + [order[i]], i + 1;
    forall a, b ensures InOrder(more, a, b) {
      assert InOrder(listing, a, b) && BeforeAt(listing, order, i, a, i);
    }
    forall a, j ensures BeforeAt(listing, order, n, a, j) && BeforeAt(more, order, n, a, j) {
      assert BeforeAt(listing, order, i, a, j) && InOrder(order, i, j);
    }
  }

  /** The rows copied so far, in the order of their keys. */
  ghost predicate Copied(rows: Rows, order: seq<RowKey>, i: nat, target: Rows, listing: seq<RowKey>) {
    && i <= |order|
    && (forall j :: 0 <= j < i ==> !Unreadable(rows, order[j]))
    && (forall k :: Lookup(target, k) == if Live(rows, k) && k in order[..i] then Lookup(rows, k) else None)
    && (forall k :: k in target <==> k in listing)
    && InFront(order, i, listing)
  }

  lemma CopiedOne(rows: Rows, order: seq<RowKey>, i: nat, target: Rows, listing: seq<RowKey>)
    requires Listed(order, rows) && i < |order| && Copied(rows, order, i, target, listing)
      && !Unreadable(rows, order[i])
    ensures if Live(rows, order[i])
      then Copied(rows, order, i + 1, target[order[i] := rows[order[i]]], listing + [order[i]])
      else Copied(rows, order, i + 1, target, listing)
  {
    OneMore(order, i);
    InFrontMore(rows, order, i, listing);
    var done := order[..i + 1];
    var target' := if Live(rows, order[i]) then target[order[i] := rows[order[i]]] else target;
    forall k ensures Lookup(target', k) == if Live(rows, k) && k in done then Lookup(rows, k) else None {
      assert Lookup(target, k) == if Live(rows, k) && k in order[..i] then Lookup(rows, k) else None;
    }
  }

  lemma OneMore<T>(s: seq<T>, i: nat)
    requires i < |s|
    ensures forall x :: x in s[..i + 1] <==> x in s[..i] || x == s[i]
  {
    assert s[..i + 1] == s[..i] + [s[i]];
  }

  method Compact(rows: Rows, order: seq<RowKey>) returns (st: Status, target: Rows, listing: seq<RowKey>)
    requires Listed(order, rows)
    ensures st == Ok ==> Compacted(rows, target) && Listed(listing, target)
    ensures st != Ok ==> exists k :: Unreadable(rows, k)
  {
    target, listing := map[], [];
    var i := 0;
    while i < |order|
      invariant 0 <= i <= |order| && Copied(rows, order, i, target, listing)
    {
      assert HasRow(order, rows, i);
      var live := Liveness(rows, order[i], rows[order[i]]);
      if live.Error? {
        assert Unreadable(rows, order[i]);
        return live.status, target, listing;
      }
      CopiedOne(rows, order, i, target, listing);
      if live.value { target, listing := target[order[i] := rows[order[i]]], listing + [order[i]]; }
      i := i + 1;
    }
    CopiedAll(rows, order, target, listing);
    st := Ok;
  }

  lemma CopiedAll(rows: Rows, order: seq<RowKey>, target: Rows, listing: seq<RowKey>)
    requires Listed(order, rows) && Copied(rows, order, |order|, target, listing)
    ensures Compacted(rows, target) && Listed(listing, target)
  {
    assert order[..|order|] == order;
    forall k ensures !Unreadable(rows, k) && Lookup(target, k) == if Live(rows, k) then Lookup(rows, k) else None {
      assert HasPlace(order, rows, k);
      if k in order {
        var j :| 0 <= j < |order| && order[j] == k;
      }
    }
    forall k ensures HasPlace(listing, target, k) { }
    forall i ensures HasRow(listing, target, i) {
      if 0 <= i < |listing| {
        assert listing[i] in target && Lookup(target, listing[i]) != None;
        var j :| 0 <= j < |order| && order[j] == listing[i];
        assert HasRow(order, rows, j);
      }
    }
  }

  // ---------------------------------------------------------------- no answer changes

  lemma SameMeta(rows: Rows, target: Rows, id: ObjectId)
    requires Compacted(rows, target)
    ensures ReadMeta(target, id) == ReadMeta(rows, id) && ReadMeta(rows, id) != Error(Corrupt)
  {
    assert !Unreadable(rows, Object(id));
    assert Lookup(target, Object(id)) == if Live(rows, Object(id)) then Lookup(rows, Object(id)) else None;
  }

  lemma {:induction false} SameGather(rows: Rows, target: Rows, id: ObjectId, meta: Meta, i: nat, produced: Bytes,
                                      capacity: nat)
    requires Compacted(rows, target) && ReadMeta(rows, id) == Value(meta) && i <= meta.chunks
    ensures Gather(target, id, meta, i, produced, capacity) == Gather(rows, id, meta, i, produced, capacity)
    decreases meta.chunks - i
  {
    if i < meta.chunks {
      var k := Chunk(id, meta.generation, i);
      assert !Unreadable(rows, k);
      assert Lookup(target, k) == if Live(rows, k) then Lookup(rows, k) else None;
      if k in rows { SameGather(rows, target, id, meta, i + 1, produced + rows[k].bytes, capacity); }
    }
  }

  /** Every get answers as before, for any rows that can be read, stale ones included. */
  lemma SameGet(rows: Rows, target: Rows, id: ObjectId, capacity: nat, digest: Bytes -> Bytes)
    requires Compacted(rows, target)
    ensures GetResult(target, id, capacity, digest) == GetResult(rows, id, capacity, digest)
  {
    SameMeta(rows, target, id);
    if ReadMeta(rows, id).Value? { SameGather(rows, target, id, ReadMeta(rows, id).value, 0, [], capacity); }
  }

  /** Whether a unique term is free for a document. */
  lemma SameGuard(rows: Rows, target: Rows, c: Bytes, t: Term, d: Bytes)
    requires Compacted(rows, target)
    ensures GuardOutcome(target, c, t, d) == GuardOutcome(rows, c, t, d)
  {
    var k := Guard(c, t);
    assert !Unreadable(rows, k);
    assert Lookup(target, k) == if Live(rows, k) then Lookup(rows, k) else None;
    if k in rows { SameMeta(rows, target, Doc(c, rows[k].document)); }
  }

  lemma SameMatch(rows: Rows, target: Rows, c: Bytes, t: Term, k: RowKey)
    requires Compacted(rows, target)
    ensures (k in target && Matches(target, k, c, t)) == (k in rows && Matches(rows, k, c, t))
  {
    assert !Unreadable(rows, k);
    assert Lookup(target, k) == if Live(rows, k) then Lookup(rows, k) else None;
    if k.Entry? { SameMeta(rows, target, Doc(c, k.document)); }
  }

  lemma VisitedIsMatch(rows: Rows, order: seq<RowKey>, c: Bytes, t: Term, d: Bytes)
    requires Listed(order, rows)
    ensures d in Visited(rows, order, c, t, |order|) <==>
      exists g :: Entry(c, t, d, g) in rows && Matches(rows, Entry(c, t, d, g), c, t)
  {
    VisitedMember(rows, order, c, t, |order|, d);
    if d in Visited(rows, order, c, t, |order|) {
      var i :| 0 <= i < |order| && Matches(rows, order[i], c, t) && order[i].document == d;
      assert HasRow(order, rows, i) && order[i] == Entry(c, t, d, order[i].generation);
    }
    forall g | Entry(c, t, d, g) in rows && Matches(rows, Entry(c, t, d, g), c, t)
      ensures d in Visited(rows, order, c, t, |order|)
    {
      assert HasPlace(order, rows, Entry(c, t, d, g));
    }
  }

  /** Every visit gives the same documents. */
  lemma SameVisit(rows: Rows, order: seq<RowKey>, target: Rows, order': seq<RowKey>, c: Bytes, t: Term, d: Bytes)
    requires Compacted(rows, target) && Listed(order, rows) && Listed(order', target)
    ensures d in Visited(target, order', c, t, |order'|) <==> d in Visited(rows, order, c, t, |order|)
  {
    VisitedIsMatch(rows, order, c, t, d);
    VisitedIsMatch(target, order', c, t, d);
    forall g ensures (Entry(c, t, d, g) in target && Matches(target, Entry(c, t, d, g), c, t)) ==
      (Entry(c, t, d, g) in rows && Matches(rows, Entry(c, t, d, g), c, t)) {
      SameMatch(rows, target, c, t, Entry(c, t, d, g));
    }
  }

  // ---------------------------------------------------------------- nothing stale is left

  lemma CompactedRow(rows: Rows, target: Rows, m: Model, digest: Bytes -> Bytes, bound: nat, k: RowKey)
    requires RowsOk(rows, m) && ModelOk(m, digest, bound) && Compacted(rows, target)
    ensures RowOk(target, m.(clean := true), k)
  {
    assert RowOk(rows, m, k) && !Unreadable(rows, k);
    assert Lookup(target, k) == if Live(rows, k) then Lookup(rows, k) else None;
    match k
    case Chunk(id, g, i) => MetaIs(rows, m, digest, bound, id);
    case Entry(c, t, d, g) => MetaIs(rows, m, digest, bound, Doc(c, d));
    case Reverse(c, d, i) => MetaIs(rows, m, digest, bound, Doc(c, d));
    case Guard(c, t) => CompactedGuard(rows, target, m, digest, bound, c, t);
    case _ =>
  }

  lemma CompactedGuard(rows: Rows, target: Rows, m: Model, digest: Bytes -> Bytes, bound: nat, c: Bytes, t: Term)
    requires RowsOk(rows, m) && ModelOk(m, digest, bound) && Compacted(rows, target)
    ensures RowOk(target, m.(clean := true), Guard(c, t))
  {
    var k := Guard(c, t);
    assert RowOk(rows, m, k) && !Unreadable(rows, k);
    assert Lookup(target, k) == if Live(rows, k) then Lookup(rows, k) else None;
    if k in rows { MetaIs(rows, m, digest, bound, Doc(c, rows[k].document)); }
    forall d ensures HasTerm(m.(clean := true), c, d, t) == HasTerm(m, c, d, t) { }
  }

  lemma MetaIs(rows: Rows, m: Model, digest: Bytes -> Bytes, bound: nat, id: ObjectId)
    requires RowsOk(rows, m) && ModelOk(m, digest, bound)
    ensures id in m.objects ==>
      ReadMeta(rows, id) == Value(m.objects[id].meta) && m.objects[id].meta.chunks == |PiecesOf(m.objects[id])|
    ensures id !in m.objects ==> !ReadMeta(rows, id).Value?
  {
    assert RowOk(rows, m, Object(id));
    if id in m.objects { assert VersionOk(id, m.objects[id], m, digest, bound); }
  }

  /** The compacted rows stand for the same objects and indexes, with no stale row. */
  lemma CompactedKept(rows: Rows, target: Rows, m: Model, digest: Bytes -> Bytes, bound: nat)
    requires RowsOk(rows, m) && ModelOk(m, digest, bound) && Compacted(rows, target)
    ensures RowsOk(target, m.(clean := true)) && ModelOk(m.(clean := true), digest, bound)
  {
    forall k ensures RowOk(target, m.(clean := true), k) { CompactedRow(rows, target, m, digest, bound, k); }
    forall id | id in m.objects ensures VersionOk(id, m.objects[id], m.(clean := true), digest, bound) {
      assert VersionOk(id, m.objects[id], m, digest, bound);
    }
  }
}
