/** Cursors over the rows in the order of their keys: ranges, prefixes, namespaces and index terms. */
module Scans {
  import opened Common
  import opened Keys
  import opened Rows
  import opened CompositeKeys
  import opened Reads

  /** The rows in the order of their keys, as the tree cursor gives them. */
  ghost predicate Listed(order: seq<RowKey>, rows: Rows) {
    && (forall i :: HasRow(order, rows, i))
    && (forall k :: HasPlace(order, rows, k))
    && (forall i, j :: InOrder(order, i, j))
  }

  predicate HasRow(order: seq<RowKey>, rows: Rows, i: int) { 0 <= i < |order| ==> order[i] in rows && KeyOk(order[i]) }

  predicate HasPlace(order: seq<RowKey>, rows: Rows, k: RowKey) { k in rows ==> k in order }

  predicate InOrder(order: seq<RowKey>, i: int, j: int) {
    0 <= i < j < |order| ==> Before(KeyBytes(order[i]), KeyBytes(order[j]))
  }

  ghost predicate SoughtTo(order: seq<RowKey>, target: Bytes, i: nat) {
    && i <= |order|
    && (forall j {:trigger Before(KeyBytes(order[j]), target)} :: 0 <= j < i ==> Before(KeyBytes(order[j]), target))
    && (forall j {:trigger Before(KeyBytes(order[j]), target)} :: i <= j < |order| ==>
      !Before(KeyBytes(order[j]), target))
  }

  /** The first row that is not before the target. */
  method Seek(order: seq<RowKey>, target: Bytes, ghost rows: Rows) returns (i: nat)
    requires Listed(order, rows)
    ensures SoughtTo(order, target, i)
  {
    i := 0;
    while i < |order| && Before(KeyBytes(order[i]), target)
      invariant 0 <= i <= |order| && forall j :: 0 <= j < i ==> Before(KeyBytes(order[j]), target)
    {
      i := i + 1;
    }
    forall j | i <= j < |order| ensures !Before(KeyBytes(order[j]), target) {
      assert InOrder(order, i, j);
      if i < j && Before(KeyBytes(order[j]), target) { NotAfter(KeyBytes(order[i]), KeyBytes(order[j]), target); }
    }
  }

  lemma NotAfter(a: Bytes, b: Bytes, target: Bytes)
    requires Before(a, b) && Before(b, target)
    ensures Before(a, target)
  {
    RankIsOrder(a, b);
    RankIsOrder(b, target);
    RankIsOrder(a, target);
  }

  // ---------------------------------------------------------------- ranges

  /** From the lower bound on and below the upper one, if there is one. */
  predicate Within(key: Bytes, lower: Bytes, upper: Bytes) {
    !Before(key, lower) && (upper == [] || Before(key, upper))
  }

  predicate InRange(k: RowKey, kind: Kind, space: Bytes, lower: Bytes, upper: Bytes) {
    InSpace(k, kind, space) && Within(k.id.key, lower, upper)
  }

  /** The rows of a range lie together, from the first that is not before the lower bound. */
  lemma RangeTogether(order: seq<RowKey>, rows: Rows, kind: Kind, space: Bytes, lower: Bytes, upper: Bytes, first: nat,
                      i: nat)
    requires Listed(order, rows) && ValidName(space) && i < |order|
    requires SoughtTo(order, SpaceKey(kind, space) + lower, first)
    ensures i < first ==> !InRange(order[i], kind, space, lower, upper)
    ensures first <= i && !InRange(order[i], kind, space, lower, upper) ==>
      forall j :: i < j < |order| ==> !InRange(order[j], kind, space, lower, upper)
  {
    if InSpace(order[i], kind, space) { AboveLower(order[i], kind, space, lower); }
    if first <= i && !InRange(order[i], kind, space, lower, upper) {
      forall j | i < j < |order| ensures !InRange(order[j], kind, space, lower, upper) {
        assert InOrder(order, i, j) && HasRow(order, rows, i) && HasRow(order, rows, j);
        if InRange(order[j], kind, space, lower, upper) {
          RangeClosed(order[i], order[j], kind, space, lower, upper);
        }
      }
    }
  }

  lemma AboveLower(k: RowKey, kind: Kind, space: Bytes, lower: Bytes)
    requires InSpace(k, kind, space)
    ensures Before(KeyBytes(k), SpaceKey(kind, space) + lower) == Before(k.id.key, lower)
  {
    ObjectKeySplit(kind, space, k.id.key);
    BehindPrefix(SpaceKey(kind, space), k.id.key, lower);
  }

  lemma RangeClosed(a: RowKey, b: RowKey, kind: Kind, space: Bytes, lower: Bytes, upper: Bytes)
    requires KeyOk(a) && KeyOk(b) && ValidName(space) && Before(KeyBytes(a), KeyBytes(b))
    requires !Before(KeyBytes(a), SpaceKey(kind, space) + lower) && InRange(b, kind, space, lower, upper)
    ensures InRange(a, kind, space, lower, upper)
  {
    var p := SpaceKey(kind, space);
    SpacePrefix(b, kind, space);
    RankIsOrder(KeyBytes(a), KeyBytes(b));
    RankIsOrder(KeyBytes(b), KeyBytes(a));
    PrefixInterval(p, p + lower, KeyBytes(a), KeyBytes(b));
    SpacePrefix(a, kind, space);
    AboveLower(a, kind, space, lower);
    UserOrder(kind, space, a.id.key, b.id.key);
    if upper != [] { NotAfter(a.id.key, b.id.key, upper); }
  }

  /** The entries found are the rows of the order from first on. */
  ghost predicate Run(order: seq<RowKey>, m: Model, kind: Kind, space: Bytes, first: nat, found: seq<(Bytes, Bytes)>) {
    && first + |found| <= |order|
    && forall i :: 0 <= i < |found| ==> RunAt(order[first + i], m, kind, space, found[i])
  }

  predicate RunAt(k: RowKey, m: Model, kind: Kind, space: Bytes, entry: (Bytes, Bytes)) {
    k == Object(ObjectId(kind, space, entry.0)) && k.id in m.objects && entry.1 == m.objects[k.id].bytes
  }

  lemma RunMore(order: seq<RowKey>, m: Model, kind: Kind, space: Bytes, first: nat, found: seq<(Bytes, Bytes)>,
                entry: (Bytes, Bytes))
    requires Run(order, m, kind, space, first, found)
    requires first + |found| < |order| && RunAt(order[first + |found|], m, kind, space, entry)
    ensures Run(order, m, kind, space, first, found + [entry])
  {
  }

  lemma RunAscends(order: seq<RowKey>, rows: Rows, m: Model, kind: Kind, space: Bytes, first: nat,
                   found: seq<(Bytes, Bytes)>,
                   i: nat, key: Bytes, at: nat)
    requires Listed(order, rows) && Run(order, m, kind, space, first, found) && i < |found|
    requires first + i < at < |order| && order[at] == Object(ObjectId(kind, space, key))
    ensures Before(found[i].0, key)
  {
    assert RunAt(order[first + i], m, kind, space, found[i]);
    assert InOrder(order, first + i, at);
    UserOrder(kind, space, found[i].0, key);
  }

  ghost predicate FoundOrLater(limit: nat, found: seq<(Bytes, Bytes)>, key: Bytes) {
    || (exists i :: 0 <= i < |found| && found[i].0 == key)
    || (limit != 0 && |found| == limit && forall i :: 0 <= i < |found| ==> Before(found[i].0, key))
  }

  ghost predicate Ascending(found: seq<(Bytes, Bytes)>) {
    forall i, j :: 0 <= i < j < |found| ==> Before(found[i].0, found[j].0)
  }

  lemma RunInOrder(order: seq<RowKey>, rows: Rows, m: Model, kind: Kind, space: Bytes, first: nat,
                   found: seq<(Bytes, Bytes)>)
    requires Listed(order, rows) && Run(order, m, kind, space, first, found)
    ensures Ascending(found)
  {
    forall i, j | 0 <= i < j < |found| ensures Before(found[i].0, found[j].0) {
      assert RunAt(order[first + j], m, kind, space, found[j]);
      RunAscends(order, rows, m, kind, space, first, found, i, found[j].0, first + j);
    }
  }

  /** Where an object's row is: among those found, or behind them. */
  lemma RunReaches(order: seq<RowKey>, rows: Rows, m: Model, kind: Kind, space: Bytes, limit: nat, first: nat,
                   found: seq<(Bytes, Bytes)>, key: Bytes, at: nat)
    requires Listed(order, rows) && Run(order, m, kind, space, first, found)
    requires first <= at < |order| && order[at] == Object(ObjectId(kind, space, key))
    requires at < first + |found| || (limit != 0 && |found| == limit)
    ensures FoundOrLater(limit, found, key)
  {
    if at < first + |found| {
      assert RunAt(order[first + (at - first)], m, kind, space, found[at - first]);
    } else {
      forall i | 0 <= i < |found| ensures Before(found[i].0, key) {
        RunAscends(order, rows, m, kind, space, first, found, i, key, at);
      }
    }
  }

  lemma RowPlace(order: seq<RowKey>, rows: Rows, m: Model, id: ObjectId) returns (at: nat)
    requires RowsOk(rows, m) && Listed(order, rows) && id in m.objects
    ensures at < |order| && order[at] == Object(id)
  {
    var k := Object(id);
    assert RowOk(rows, m, k);
    assert HasPlace(order, rows, k);
    at :| 0 <= at < |order| && order[at] == k;
  }

  /** The objects of a range in order, up to the limit. */
  ghost predicate Ranged(m: Model, kind: Kind, space: Bytes, lower: Bytes, upper: Bytes, limit: nat,
                         found: seq<(Bytes, Bytes)>) {
    && (limit != 0 ==> |found| <= limit)
    && (forall i :: 0 <= i < |found| ==> RangedAt(m, kind, space, lower, upper, found[i]))
    && Ascending(found)
    && (forall key :: ObjectId(kind, space, key) in m.objects && Within(key, lower, upper) ==>
      FoundOrLater(limit, found, key))
  }

  predicate RangedAt(m: Model, kind: Kind, space: Bytes, lower: Bytes, upper: Bytes, entry: (Bytes, Bytes)) {
    var id := ObjectId(kind, space, entry.0);
    id in m.objects && Within(id.key, lower, upper) && entry.1 == m.objects[id].bytes
  }

  class RangeCursor {
    const rows: Rows
    const order: seq<RowKey>
    const digest: Bytes -> Bytes
    const kind: Kind
    const space: Bytes
    const lower: Bytes
    const upper: Bytes
    const limit: nat
    ghost const m: Model
    ghost const bound: nat
    var pos: nat
    var produced: nat
    var started: bool
    var valid: bool
    var key: Bytes
    var value: Bytes
    /** Where the walk started: the bound it was sought to, and the row found there. */
    ghost var from: Bytes
    ghost var first: nat
    ghost var wants: seq<bool>

    ghost predicate Fixed() {
      && RowsOk(rows, m) && ModelOk(m, digest, bound) && Listed(order, rows) && ValidName(space) && kind != Document
    }

    /** Which rows are in the range. */
    ghost predicate MarkedAt(i: int)
      reads this`from, this`wants
    { 0 <= i < |order| && i < |wants| ==> wants[i] == InRange(order[i], kind, space, from, upper) }

    /** The walk starts at the first row of the range, and the range has no gap. */
    ghost predicate Anchored()
      reads this`from, this`first, this`wants
    {
      && |wants| == |order| && (forall i :: MarkedAt(i))
      && SoughtTo(order, SpaceKey(kind, space) + from, first)
      && forall i, j :: first <= i < j < |wants| && wants[j] ==> wants[i]
    }

    /** The n rows from first on are in the range. */
    ghost predicate Handed(n: nat)
      reads this`first, this`wants
    { first + n <= |wants| && (limit != 0 ==> n <= limit) && forall j :: first <= j < first + n ==> wants[j] }

    /** No row is to come after n. */
    ghost predicate Ended(n: nat)
      reads this`first, this`wants
    { (limit != 0 && n == limit) || forall j :: first + n <= j < |wants| ==> !wants[j] }

    ghost predicate Shows(k: RowKey)
      reads this`key, this`value
    { k == Object(ObjectId(kind, space, key)) && k.id in m.objects && value == m.objects[k.id].bytes }

    /** The rows from first on that were handed out, and that no other is to come once the walk has ended. */
    ghost predicate Walking()
      reads this
    {
      && Fixed() && !Before(from, lower)
      && (started ==> Anchored() && Placed())
    }

    ghost predicate Placed()
      reads this
    {
      && |wants| == |order| && Handed(produced)
      && if valid then produced >= 1 && pos == first + produced - 1 && Shows(order[pos])
        else pos >= first + produced && Ended(produced)
    }

    constructor (rows: Rows, order: seq<RowKey>, digest: Bytes -> Bytes, kind: Kind, space: Bytes, lower: Bytes,
                 upper: Bytes, limit: nat,
                 ghost m: Model, ghost bound: nat)
      requires RowsOk(rows, m) && ModelOk(m, digest, bound) && Listed(order, rows) && ValidName(space)
        && kind != Document
      ensures Walking() && !started
      ensures this.rows == rows && this.order == order && this.kind == kind && this.space == space
        && this.lower == lower
      ensures this.upper == upper && this.limit == limit && this.m == m
    {
      this.rows, this.order, this.digest, this.kind, this.space := rows, order, digest, kind, space;
      this.lower, this.upper, this.limit, this.m, this.bound := lower, upper, limit, m, bound;
      pos, produced, started, valid, key, value := 0, 0, false, false, [], [];
      from, first, wants := lower, 0, [];
      new;
      RankIsOrder(lower, lower);
    }

    /** The user key of a row in the namespace and below the upper bound. */
    method KeyAt(p: nat) returns (found: Option<Bytes>)
      requires Fixed() && Anchored() && first <= p < |order|
      ensures found.Some? <==> wants[p]
      ensures found.Some? ==> order[p] == Object(ObjectId(kind, space, found.value)) && order[p] in rows
    {
      var k := order[p];
      assert MarkedAt(p) && HasRow(order, rows, p);
      SpacePrefix(k, kind, space);
      if !(SpaceKey(kind, space) <= KeyBytes(k)) { return None; }
      ParseOfPair(0x40, kind, space, k.id.key, []);
      AboveLower(k, kind, space, from);
      var parsed := ParsePair(KeyBytes(k), 0);
      return if upper != [] && !Before(parsed.value.key, upper) then None else Some(parsed.value.key);
    }

    /** The buffer starts small and grows to what the object needs. */
    method Fetch(id: ObjectId) returns (bytes: Bytes)
      requires Fixed() && Object(id) in rows
      ensures id in m.objects && bytes == m.objects[id].bytes
    {
      assert RowOk(rows, m, Object(id));
      assert VersionOk(id, m.objects[id], m, digest, bound);
      GetReturns(rows, m, digest, bound, id, 256);
      var r := ObjectGet(rows, id, 256, digest);
      if r.Error? {
        var size := ReadMeta(rows, id).value.total;
        GetReturns(rows, m, digest, bound, id, size);
        r := ObjectGet(rows, id, size, digest);
      }
      return r.value;
    }

    lemma NoGap(i: nat, j: nat)
      requires Fixed() && SoughtTo(order, SpaceKey(kind, space) + from, first) && first <= i < j < |order|
      ensures InRange(order[j], kind, space, from, upper) ==> InRange(order[i], kind, space, from, upper)
    {
      RangeTogether(order, rows, kind, space, from, upper, first, i);
    }

    /** The row at p is the next one of the range, or none is left. */
    lemma NextWanted(n: nat, p: nat)
      requires Anchored() && Handed(n) && p < |order| && (limit != 0 ==> n < limit)
      requires p == first + n || (p >= first + n && Ended(n))
      ensures if wants[p] then p == first + n && Handed(n + 1) else Ended(n)
    {
    }

    /** Why a scan ends here. */
    lemma Stop(prefix: Bytes)
      requires Walking() && started && from == prefix && kind == Kv && upper == [] && (valid ==> !(prefix <= key))
      ensures var n := if valid then produced - 1 else produced;
        Stopped(order, space, prefix, limit, first + n, n) && SoughtTo(order, SpaceKey(Kv, space) + prefix, first)
    {
      if valid {
        assert MarkedAt(pos);
      } else if limit == 0 || produced != limit {
        forall j | first + produced <= j < |order| ensures !InRange(order[j], Kv, space, prefix, []) {
          assert MarkedAt(j);
        }
      }
    }

    /** Reads the row at pos, which follows the ones already handed out. */
    method Load() returns (st: Status)
      requires Fixed() && Anchored() && Handed(produced)
      requires pos == first + produced || (pos >= first + produced && Ended(produced))
      modifies this`valid, this`key, this`value, this`produced
      ensures st == Ok && Placed()
      ensures produced == if valid then old(produced) + 1 else old(produced)
    {
      st, valid := Ok, false;
      if pos < |order| && (limit == 0 || produced < limit) {
        NextWanted(produced, pos);
        var found := KeyAt(pos);
        if found.Some? {
          value := Fetch(ObjectId(kind, space, found.value));
          key, valid, produced := found.value, true, produced + 1;
        }
      }
    }

    method Start(target: Bytes) returns (st: Status)
      requires Fixed() && !Before(target, lower)
      modifies this
      ensures st == Ok && Walking() && started && from == target && produced == if valid then 1 else 0
    {
      produced, started, from := 0, true, target;
      pos := Seek(order, SpaceKey(kind, space) + target, rows);
      first := pos;
      wants := seq(|order|, i requires 0 <= i < |order| => InRange(order[i], kind, space, target, upper));
      forall i, j | first <= i < j < |wants| && wants[j] ensures wants[i] { NoGap(i, j); }
      st := Load();
    }

    method First() returns (st: Status)
      requires Walking()
      modifies this
      ensures st == Ok && Walking() && started && from == lower && produced == if valid then 1 else 0
    {
      RankIsOrder(lower, lower);
      st := Start(lower);
    }

    /** A seek below the lower bound starts at the lower bound. */
    method SeekTo(target: Bytes) returns (st: Status)
      requires Walking()
      modifies this
      ensures Walking() && st == if |target| <= MAX_NAME then Ok else InvalidArgument
      ensures st == Ok ==> started && produced == if valid then 1 else 0
      ensures st == Ok ==> from == if Before(target, lower) then lower else target
      ensures st != Ok ==> unchanged(this)
    {
      if |target| > MAX_NAME { return InvalidArgument; }
      RankIsOrder(lower, lower);
      st := Start(if Before(target, lower) then lower else target);
    }

    method Next() returns (st: Status)
      requires Walking()
      modifies this
      ensures Walking() && st == if old(started) then Ok else InvalidArgument
      ensures st == Ok ==> started && from == old(from) && first == old(first)
      ensures st == Ok ==> produced == if valid then old(produced) + 1 else old(produced)
      ensures st != Ok ==> unchanged(this)
    {
      if !started { return InvalidArgument; }
      if pos >= |order| {
        valid := false;
        return Ok;
      }
      pos := pos + 1;
      st := Load();
    }

    /** Walks on to the end from a place where the walk has just started. */
    method Walk() returns (found: seq<(Bytes, Bytes)>)
      requires Walking() && started && produced == if valid then 1 else 0
      modifies this
      ensures Walking() && started && !valid && from == old(from)
      ensures Ranged(m, kind, space, from, upper, limit, found)
    {
      found := [];
      while valid
        invariant Walking() && started && from == old(from)
        invariant |found| == if valid then produced - 1 else produced
        invariant Run(order, m, kind, space, first, found)
        decreases |order| - produced, valid
      {
        RunMore(order, m, kind, space, first, found, (key, value));
        found := found + [(key, value)];
        var st := Next();
      }
      RangeDone(found);
    }

    /** Walks on as long as the keys have the prefix. */
    method WalkPrefix(prefix: Bytes) returns (found: seq<(Bytes, Bytes)>)
      requires Walking() && started && produced == (if valid then 1 else 0) && from == prefix && kind == Kv
        && upper == []
      modifies this
      ensures Scanned(m, space, prefix, limit, found)
    {
      found := [];
      while valid
        invariant Walking() && started && from == prefix
        invariant |found| == if valid then produced - 1 else produced
        invariant Run(order, m, kind, space, first, found) && forall i :: 0 <= i < |found| ==> prefix <= found[i].0
        decreases |order| - produced, valid
      {
        if !(prefix <= key) { break; }
        RunMore(order, m, kind, space, first, found, (key, value));
        found := found + [(key, value)];
        var st := Next();
      }
      Stop(prefix);
      ScanDone(order, rows, m, space, prefix, limit, first, found);
    }

    lemma RangeDone(found: seq<(Bytes, Bytes)>)
      requires Walking() && started && !valid && |found| == produced && Run(order, m, kind, space, first, found)
      ensures Ranged(m, kind, space, from, upper, limit, found)
    {
      forall i | 0 <= i < |found| ensures RangedAt(m, kind, space, from, upper, found[i]) {
        assert RunAt(order[first + i], m, kind, space, found[i]) && MarkedAt(first + i);
      }
      RunInOrder(order, rows, m, kind, space, first, found);
      forall key | ObjectId(kind, space, key) in m.objects && Within(key, from, upper)
        ensures FoundOrLater(limit, found, key)
      {
        RangeComplete(found, key);
      }
    }

    lemma RangeComplete(found: seq<(Bytes, Bytes)>, key: Bytes)
      requires Walking() && started && !valid && |found| == produced && Run(order, m, kind, space, first, found)
      requires ObjectId(kind, space, key) in m.objects && Within(key, from, upper)
      ensures FoundOrLater(limit, found, key)
    {
      var at := RowPlace(order, rows, m, ObjectId(kind, space, key));
      assert InRange(order[at], kind, space, from, upper) && MarkedAt(at);
      RangeTogether(order, rows, kind, space, from, upper, first, at);
      RunReaches(order, rows, m, kind, space, limit, first, found, key, at);
    }
  }

  /** A cursor over a whole range: opened, sought to a key if there is one, and walked to its end. */
  method ReadRange(rows: Rows, order: seq<RowKey>, digest: Bytes -> Bytes, kind: Kind, space: Bytes, lower: Bytes,
                   upper: Bytes,
                   limit: nat, start: Option<Bytes>, ghost m: Model, ghost bound: nat)
      returns (st: Status, found: seq<(Bytes, Bytes)>)
    requires RowsOk(rows, m) && ModelOk(m, digest, bound) && Listed(order, rows)
    ensures st == Ok <==>
      && ValidName(space) && kind != Document && |lower| <= MAX_NAME && |upper| <= MAX_NAME
      && (start.Some? ==> |start.value| <= MAX_NAME)
    ensures st == Ok || st == InvalidArgument
    ensures st == Ok ==>
      Ranged(m, kind, space, if start.Some? && !Before(start.value, lower) then start.value
        else lower, upper, limit, found)
  {
    found := [];
    if !ValidName(space) || kind == Document || |lower| > MAX_NAME || |upper| > MAX_NAME {
      return InvalidArgument, found;
    }
    var cursor := new RangeCursor(rows, order, digest, kind, space, lower, upper, limit, m, bound);
    if start.Some? { st := cursor.SeekTo(start.value); } else { st := cursor.First(); }
    if st != Ok { return; }
    found := cursor.Walk();
  }

  // ---------------------------------------------------------------- prefixes

  /** The first entries with the prefix, in order, up to the limit. */
  ghost predicate Scanned(m: Model, space: Bytes, prefix: Bytes, limit: nat, found: seq<(Bytes, Bytes)>) {
    && (limit != 0 ==> |found| <= limit)
    && (forall i :: 0 <= i < |found| ==>
          var id := ObjectId(Kv, space, found[i].0);
          id in m.objects && prefix <= id.key && found[i].1 == m.objects[id].bytes)
    && Ascending(found)
    && (forall key :: ObjectId(Kv, space, key) in m.objects && prefix <= key ==> FoundOrLater(limit, found, key))
  }

  /** What stops the scan: the end of the range, the limit, or a key without the prefix. */
  ghost predicate Stopped(order: seq<RowKey>, space: Bytes, prefix: Bytes, limit: nat, next: nat, count: nat) {
    || (limit != 0 && count == limit)
    || (forall j :: next <= j < |order| ==> !InRange(order[j], Kv, space, prefix, []))
    || (next < |order| && InRange(order[next], Kv, space, prefix, []) && !(prefix <= order[next].id.key))
  }

  lemma ScanComplete(order: seq<RowKey>, rows: Rows, m: Model, space: Bytes, prefix: Bytes, limit: nat, first: nat,
                     found: seq<(Bytes, Bytes)>, key: Bytes)
    requires RowsOk(rows, m) && Listed(order, rows) && ValidName(space)
      && SoughtTo(order, SpaceKey(Kv, space) + prefix, first)
    requires Run(order, m, Kv, space, first, found) && Stopped(order, space, prefix, limit, first + |found|, |found|)
    requires ObjectId(Kv, space, key) in m.objects && prefix <= key
    ensures FoundOrLater(limit, found, key)
  {
    var at := RowPlace(order, rows, m, ObjectId(Kv, space, key));
    PrefixFirst(prefix, key);
    assert InRange(order[at], Kv, space, prefix, []);
    RangeTogether(order, rows, Kv, space, prefix, [], first, at);
    if first + |found| < at { SamePrefix(order, rows, space, prefix, first + |found|, at, key); }
    RunReaches(order, rows, m, Kv, space, limit, first, found, key, at);
  }

  /** A key between the prefix and a key with the prefix has it too. */
  lemma SamePrefix(order: seq<RowKey>, rows: Rows, space: Bytes, prefix: Bytes, i: nat, at: nat, key: Bytes)
    requires Listed(order, rows) && i < at < |order| && order[at] == Object(ObjectId(Kv, space, key)) && prefix <= key
    ensures InRange(order[i], Kv, space, prefix, []) ==> prefix <= order[i].id.key
  {
    if InRange(order[i], Kv, space, prefix, []) {
      assert InOrder(order, i, at);
      UserOrder(Kv, space, order[i].id.key, key);
      RankIsOrder(order[i].id.key, key);
      RankIsOrder(key, order[i].id.key);
      PrefixInterval(prefix, prefix, order[i].id.key, key);
    }
  }

  method ScanPrefix(rows: Rows, order: seq<RowKey>, digest: Bytes -> Bytes, space: Bytes, prefix: Bytes, limit: nat,
                    ghost m: Model, ghost bound: nat)
      returns (st: Status, found: seq<(Bytes, Bytes)>)
    requires RowsOk(rows, m) && ModelOk(m, digest, bound) && Listed(order, rows)
    ensures st == if ValidName(space) && |prefix| <= MAX_NAME then Ok else InvalidArgument
    ensures st == Ok ==> Scanned(m, space, prefix, limit, found)
  {
    found := [];
    if !ValidName(space) || |prefix| > MAX_NAME { return InvalidArgument, found; }
    var cursor := new RangeCursor(rows, order, digest, Kv, space, prefix, [], limit, m, bound);
    st := cursor.First();
    found := cursor.WalkPrefix(prefix);
  }

  lemma ScanDone(order: seq<RowKey>, rows: Rows, m: Model, space: Bytes, prefix: Bytes, limit: nat, first: nat,
                 found: seq<(Bytes, Bytes)>)
    requires RowsOk(rows, m) && Listed(order, rows) && ValidName(space)
      && SoughtTo(order, SpaceKey(Kv, space) + prefix, first)
    requires Run(order, m, Kv, space, first, found) && Stopped(order, space, prefix, limit, first + |found|, |found|)
    requires (limit != 0 ==> |found| <= limit) && forall i :: 0 <= i < |found| ==> prefix <= found[i].0
    ensures Scanned(m, space, prefix, limit, found)
  {
    forall i | 0 <= i < |found|
      ensures ObjectId(Kv, space, found[i].0) in m.objects && prefix <= found[i].0
        && found[i].1 == m.objects[ObjectId(Kv, space, found[i].0)].bytes
    {
      assert RunAt(order[first + i], m, Kv, space, found[i]);
    }
    RunInOrder(order, rows, m, Kv, space, first, found);
    forall key | ObjectId(Kv, space, key) in m.objects && prefix <= key ensures FoundOrLater(limit, found, key) {
      ScanComplete(order, rows, m, space, prefix, limit, first, found, key);
    }
  }

  // ---------------------------------------------------------------- namespaces

  /** The rows of one kind and namespace lie together. */
  lemma SpaceTogether(order: seq<RowKey>, rows: Rows, kind: Kind, space: Bytes, i: nat, j: nat, n: nat)
    requires Listed(order, rows) && ValidName(space) && i <= j <= n < |order|
    requires InSpace(order[i], kind, space) && InSpace(order[n], kind, space)
    ensures InSpace(order[j], kind, space)
  {
    assert InOrder(order, i, j) && InOrder(order, j, n) && HasRow(order, rows, i) && HasRow(order, rows, j)
      && HasRow(order, rows, n);
    SpacePrefix(order[i], kind, space);
    SpacePrefix(order[j], kind, space);
    SpacePrefix(order[n], kind, space);
    RankIsOrder(KeyBytes(order[i]), KeyBytes(order[j]));
    RankIsOrder(KeyBytes(order[j]), KeyBytes(order[i]));
    RankIsOrder(KeyBytes(order[j]), KeyBytes(order[n]));
    RankIsOrder(KeyBytes(order[n]), KeyBytes(order[j]));
    PrefixInterval(SpaceKey(kind, space), KeyBytes(order[i]), KeyBytes(order[j]), KeyBytes(order[n]));
  }

  /** All object rows lie together. */
  lemma ObjectsTogether(order: seq<RowKey>, rows: Rows, first: nat, i: nat)
    requires Listed(order, rows) && SoughtTo(order, [0x40], first) && i < |order|
    ensures order[i].Object? ==> first <= i
    ensures first <= i && !order[i].Object? ==> forall j :: i <= j < |order| ==> !order[j].Object?
  {
    Lead(order[i]);
    if order[i].Object? { PrefixFirst([0x40], KeyBytes(order[i])); }
    if first <= i && !order[i].Object? {
      forall j | i <= j < |order| ensures !order[j].Object? {
        Lead(order[j]);
        assert InOrder(order, i, j);
        if order[j].Object? {
          RankIsOrder(KeyBytes(order[i]), KeyBytes(order[j]));
          RankIsOrder(KeyBytes(order[j]), KeyBytes(order[i]));
          PrefixInterval([0x40], [0x40], KeyBytes(order[i]), KeyBytes(order[j]));
        }
      }
    }
  }

  datatype Space = Space(kind: Kind, name: Bytes)

  /** One element for each stretch of equal elements. */
  function Runs<T(==)>(ls: seq<T>): seq<T> {
    if ls == [] then []
    else
      var n := |ls| - 1;
      if n > 0 && ls[n - 1] == ls[n] then Runs(ls[..n]) else Runs(ls[..n]) + [ls[n]]
  }

  lemma {:induction false} RunsMembers<T>(ls: seq<T>)
    ensures forall x :: x in Runs(ls) <==> x in ls
    ensures ls != [] ==> Runs(ls) != [] && Runs(ls)[|Runs(ls)| - 1] == ls[|ls| - 1]
  {
    if ls != [] {
      var n := |ls| - 1;
      RunsMembers(ls[..n]);
      assert ls == ls[..n] + [ls[n]];
    }
  }

  /** Equal elements lie together. */
  ghost predicate Grouped<T(!new)>(ls: seq<T>) {
    forall i, j, n :: 0 <= i <= j <= n < |ls| && ls[i] == ls[n] ==> ls[j] == ls[i]
  }

  lemma {:induction false} RunsDistinct<T(!new)>(ls: seq<T>)
    requires Grouped(ls)
    ensures Distinct(Runs(ls))
  {
    if ls != [] {
      var n := |ls| - 1;
      RunsDistinct(ls[..n]);
      RunsMembers(ls[..n]);
      if ls[n] in ls[..n] {
        var i :| 0 <= i < n && ls[..n][i] == ls[n];
        assert ls[n - 1] == ls[n];
      }
    }
  }

  /** The namespaces of the object rows from first on. */
  ghost predicate Labelled(order: seq<RowKey>, first: nat, ls: seq<Space>) {
    && first + |ls| <= |order|
    && forall j :: 0 <= j < |ls| ==> InSpace(order[first + j], ls[j].kind, ls[j].name)
  }

  lemma LabelsGrouped(order: seq<RowKey>, rows: Rows, first: nat, ls: seq<Space>)
    requires Listed(order, rows) && Labelled(order, first, ls)
    ensures Grouped(ls)
  {
    forall i, j, n | 0 <= i <= j <= n < |ls| && ls[i] == ls[n] ensures ls[j] == ls[i] {
      assert HasRow(order, rows, first + i);
      SpaceTogether(order, rows, ls[i].kind, ls[i].name, first + i, first + j, first + n);
    }
  }

  lemma LabelsExact(order: seq<RowKey>, rows: Rows, first: nat, ls: seq<Space>, x: Space)
    requires Listed(order, rows) && SoughtTo(order, [0x40], first) && Labelled(order, first, ls)
    requires first + |ls| < |order| ==> !order[first + |ls|].Object?
    ensures x in ls <==> exists key :: Object(ObjectId(x.kind, x.name, key)) in rows
  {
    if x in ls {
      var j :| 0 <= j < |ls| && ls[j] == x;
      assert HasRow(order, rows, first + j)
        && order[first + j] == Object(ObjectId(x.kind, x.name, order[first + j].id.key));
    }
    forall key | Object(ObjectId(x.kind, x.name, key)) in rows ensures x in ls {
      assert HasPlace(order, rows, Object(ObjectId(x.kind, x.name, key)));
      var j :| 0 <= j < |order| && order[j] == Object(ObjectId(x.kind, x.name, key));
      ObjectsTogether(order, rows, first, j);
      if first + |ls| < |order| {
        ObjectsTogether(order, rows, first, first + |ls|);
      }
      assert ls[j - first] == x;
    }
  }

  /** Each kind and namespace that has an object, once. */
  method ListNamespaces(rows: Rows, order: seq<RowKey>) returns (spaces: seq<Space>)
    requires Listed(order, rows)
    ensures forall x: Space :: x in spaces <==> exists key :: Object(ObjectId(x.kind, x.name, key)) in rows
    ensures Distinct(spaces)
  {
    spaces := [];
    var i := Seek(order, [0x40], rows);
    ghost var first := i;
    ghost var ls: seq<Space> := [];
    while i < |order|
      invariant first <= i <= |order| && |ls| == i - first && Labelled(order, first, ls) && spaces == Runs(ls)
    {
      var x := SpaceAt(rows, order, i);
      if x == None { break; }
      RunsMembers(ls);
      ghost var more := ls + [x.value];
      assert more[..|ls|] == ls;
      if spaces == [] || spaces[|spaces| - 1] != x.value { spaces := spaces + [x.value]; }
      ls := more;
      i := i + 1;
    }
    SpacesDone(order, rows, first, ls);
  }

  lemma SpacesDone(order: seq<RowKey>, rows: Rows, first: nat, ls: seq<Space>)
    requires Listed(order, rows) && SoughtTo(order, [0x40], first) && Labelled(order, first, ls)
    requires first + |ls| < |order| ==> !order[first + |ls|].Object?
    ensures Distinct(Runs(ls))
    ensures forall x: Space :: x in Runs(ls) <==> exists key :: Object(ObjectId(x.kind, x.name, key)) in rows
  {
    RunsMembers(ls);
    LabelsGrouped(order, rows, first, ls);
    RunsDistinct(ls);
    forall x: Space ensures x in Runs(ls) <==> exists key :: Object(ObjectId(x.kind, x.name, key)) in rows {
      LabelsExact(order, rows, first, ls, x);
    }
  }

  method SpaceAt(rows: Rows, order: seq<RowKey>, i: nat) returns (x: Option<Space>)
    requires Listed(order, rows) && i < |order|
    ensures x.Some? <==> order[i].Object?
    ensures x.Some? ==> InSpace(order[i], x.value.kind, x.value.name)
  {
    Lead(order[i]);
    if KeyBytes(order[i])[0] != 0x40 { return None; }
    assert HasRow(order, rows, i);
    ParseOfPair(0x40, order[i].id.kind, order[i].id.space, order[i].id.key, []);
    var parsed := ParsePair(KeyBytes(order[i]), 0);
    return Some(Space(parsed.value.kind, parsed.value.space));
  }

  // ---------------------------------------------------------------- index terms

  predicate IsEntry(k: RowKey, c: Bytes, t: Term) { k.Entry? && k.collection == c && k.term == t }

  /** The entry of a document whose current version has its generation. */
  predicate Matches(rows: Rows, k: RowKey, c: Bytes, t: Term) {
    IsEntry(k, c, t)
      && match ReadMeta(rows, Doc(c, k.document)) case Value(meta) => meta.generation ==
      k.generation case Error(_) => false
  }

  /** The documents of the matching entries among the first n rows. */
  function Visited(rows: Rows, order: seq<RowKey>, c: Bytes, t: Term, n: nat): seq<Bytes>
    requires n <= |order|
  {
    if n == 0 then []
    else if Matches(rows, order[n - 1], c, t) then Visited(rows, order, c, t, n - 1) + [order[n - 1].document]
    else Visited(rows, order, c, t, n - 1)
  }

  lemma {:induction false} VisitedSkip(rows: Rows, order: seq<RowKey>, c: Bytes, t: Term, a: nat, b: nat)
    requires a <= b <= |order| && forall i :: a <= i < b ==> !IsEntry(order[i], c, t)
    ensures Visited(rows, order, c, t, b) == Visited(rows, order, c, t, a)
    decreases b
  {
    if a < b { VisitedSkip(rows, order, c, t, a, b - 1); }
  }

  lemma {:induction false} VisitedGrows(rows: Rows, order: seq<RowKey>, c: Bytes, t: Term, a: nat, b: nat)
    requires a <= b <= |order|
    ensures Visited(rows, order, c, t, a) <= Visited(rows, order, c, t, b)
    decreases b
  {
    if a < b { VisitedGrows(rows, order, c, t, a, b - 1); }
  }

  lemma EntriesTogether(order: seq<RowKey>, rows: Rows, c: Bytes, t: Term, first: nat, i: nat)
    requires Listed(order, rows) && ValidName(c) && ValidName(t.index) && |t.value| <= MAX_NAME && i < |order|
    requires SoughtTo(order, EntryKey(c, t), first)
    ensures i < first ==> !IsEntry(order[i], c, t)
    ensures first <= i && !IsEntry(order[i], c, t) ==> forall j :: i <= j < |order| ==> !IsEntry(order[j], c, t)
  {
    assert HasRow(order, rows, i);
    EntryPrefix(order[i], c, t);
    if IsEntry(order[i], c, t) { PrefixFirst(EntryKey(c, t), KeyBytes(order[i])); }
    if first <= i && !IsEntry(order[i], c, t) {
      forall j | i <= j < |order| ensures !IsEntry(order[j], c, t) {
        assert InOrder(order, i, j) && HasRow(order, rows, j);
        EntryPrefix(order[j], c, t);
        if IsEntry(order[j], c, t) {
          RankIsOrder(KeyBytes(order[i]), KeyBytes(order[j]));
          RankIsOrder(KeyBytes(order[j]), KeyBytes(order[i]));
          PrefixInterval(EntryKey(c, t), EntryKey(c, t), KeyBytes(order[i]), KeyBytes(order[j]));
        }
      }
    }
  }

  lemma SeekSelf(order: seq<RowKey>, rows: Rows, p: nat, i: nat)
    requires Listed(order, rows) && p < |order| && SoughtTo(order, KeyBytes(order[p]), i)
    ensures i == p
  {
    RankIsOrder(KeyBytes(order[p]), KeyBytes(order[p]));
    assert InOrder(order, i, p);
  }

  /** Metadata that cannot be decoded. */
  predicate BadMeta(rows: Rows, id: ObjectId) { ReadMeta(rows, id) == Error(Corrupt) }

  lemma VisitedStep(rows: Rows, order: seq<RowKey>, c: Bytes, t: Term, n: nat)
    requires n < |order| && IsEntry(order[n], c, t)
    ensures var read := ReadMeta(rows, Doc(c, order[n].document));
      Visited(rows, order, c, t, n + 1) ==
        if read.Value? && read.value.generation == order[n].generation
        then Visited(rows, order, c, t, n) + [order[n].document] else Visited(rows, order, c, t, n)
  {
  }

  /**
   * Every row of the term from the first on; after each visit the cursor is sought to the visited key again.
   */
  method IndexVisit(rows: Rows, order: seq<RowKey>, c: Bytes, t: Term, keep: Bytes -> bool)
      returns (st: Status, docs: seq<Bytes>)
    requires Listed(order, rows)
    ensures st == InvalidArgument <==> !(ValidName(c) && ValidName(t.index) && |t.value| <= MAX_NAME)
    ensures st == Ok || st == InvalidArgument || (st == Corrupt && exists id :: BadMeta(rows, id))
    ensures st == Ok ==> docs <= Visited(rows, order, c, t, |order|)
    ensures st == Ok ==> forall i :: 0 <= i < |docs| - 1 ==> keep(docs[i])
    ensures st == Ok ==> docs == Visited(rows, order, c, t, |order|) || (docs != [] && !keep(docs[|docs| - 1]))
  {
    docs := [];
    if !ValidName(c) || !ValidName(t.index) || |t.value| > MAX_NAME { return InvalidArgument, docs; }
    var pos := FirstEntry(rows, order, c, t);
    ghost var first := pos;
    while pos < |order|
      invariant first <= pos <= |order| && docs == Visited(rows, order, c, t, pos)
      invariant forall i :: 0 <= i < |docs| ==> keep(docs[i])
    {
      var entry := EntryAt(rows, order, c, t, first, pos);
      if !entry {
        VisitedSkip(rows, order, c, t, pos, |order|);
        return Ok, docs;
      }
      VisitedStep(rows, order, c, t, pos);
      var d := order[pos].document;
      var read := ReadMeta(rows, Doc(c, d));
      if read.Error? && read.status != NotFound {
        assert BadMeta(rows, Doc(c, d));
        return read.status, docs;
      }
      if read.Value? && read.value.generation == order[pos].generation {
        docs := docs + [d];
        if !keep(d) {
          VisitedGrows(rows, order, c, t, pos + 1, |order|);
          return Ok, docs;
        }
        pos := Resume(rows, order, pos);
      } else {
        pos := pos + 1;
      }
    }
    st := Ok;
  }

  method FirstEntry(rows: Rows, order: seq<RowKey>, c: Bytes, t: Term) returns (first: nat)
    requires Listed(order, rows) && ValidName(c) && ValidName(t.index) && |t.value| <= MAX_NAME
    ensures SoughtTo(order, EntryKey(c, t), first) && Visited(rows, order, c, t, first) == []
  {
    first := Seek(order, EntryKey(c, t), rows);
    forall i | 0 <= i < first ensures !IsEntry(order[i], c, t) { EntriesTogether(order, rows, c, t, first, i); }
    VisitedSkip(rows, order, c, t, 0, first);
  }

  method EntryAt(rows: Rows, order: seq<RowKey>, c: Bytes, t: Term, ghost first: nat, pos: nat) returns (entry: bool)
    requires Listed(order, rows) && ValidName(c) && ValidName(t.index) && |t.value| <= MAX_NAME
    requires SoughtTo(order, EntryKey(c, t), first) && first <= pos < |order|
    ensures entry == IsEntry(order[pos], c, t)
    ensures entry ==> ValidId(Doc(c, order[pos].document))
    ensures !entry ==> forall j :: pos <= j < |order| ==> !IsEntry(order[j], c, t)
  {
    assert HasRow(order, rows, pos);
    EntryPrefix(order[pos], c, t);
    EntriesTogether(order, rows, c, t, first, pos);
    entry := EntryKey(c, t) <= KeyBytes(order[pos]);
  }

  /** Seeks the visited key and steps over it. */
  method Resume(rows: Rows, order: seq<RowKey>, pos: nat) returns (next: nat)
    requires Listed(order, rows) && pos < |order|
    ensures next == pos + 1
  {
    next := Seek(order, KeyBytes(order[pos]), rows);
    SeekSelf(order, rows, pos, next);
    if next < |order| && KeyBytes(order[next]) == KeyBytes(order[pos]) { next := next + 1; }
  }

  lemma {:induction false} VisitedMember(rows: Rows, order: seq<RowKey>, c: Bytes, t: Term, n: nat, d: Bytes)
    requires n <= |order|
    ensures d in Visited(rows, order, c, t, n) <==>
      exists i :: 0 <= i < n && Matches(rows, order[i], c, t) && order[i].document == d
  {
    if n > 0 { VisitedMember(rows, order, c, t, n - 1, d); }
  }

  lemma MatchIsTerm(rows: Rows, m: Model, digest: Bytes -> Bytes, bound: nat, k: RowKey, c: Bytes, t: Term)
    requires RowsOk(rows, m) && ModelOk(m, digest, bound) && k in rows && Matches(rows, k, c, t)
    ensures HasTerm(m, c, k.document, t) && k.generation == m.objects[Doc(c, k.document)].meta.generation
  {
    assert RowOk(rows, m, k) && RowOk(rows, m, Object(Doc(c, k.document)));
  }

  lemma TermIsMatch(rows: Rows, m: Model, digest: Bytes -> Bytes, bound: nat, c: Bytes, t: Term, d: Bytes)
    requires RowsOk(rows, m) && ModelOk(m, digest, bound) && HasTerm(m, c, d, t)
    ensures var k := Entry(c, t, d, m.objects[Doc(c, d)].meta.generation); k in rows && Matches(rows, k, c, t)
  {
    var k := Entry(c, t, d, m.objects[Doc(c, d)].meta.generation);
    assert RowOk(rows, m, k) && RowOk(rows, m, Object(Doc(c, d)));
    assert VersionOk(Doc(c, d), m.objects[Doc(c, d)], m, digest, bound);
  }

  /** No document twice, whatever stale entries there are. */
  lemma {:induction false} VisitedOnce(rows: Rows, order: seq<RowKey>, c: Bytes, t: Term, n: nat)
    requires Listed(order, rows) && n <= |order|
    ensures Distinct(Visited(rows, order, c, t, n))
  {
    if n > 0 {
      VisitedOnce(rows, order, c, t, n - 1);
      var k := order[n - 1];
      if Matches(rows, k, c, t) && k.document in Visited(rows, order, c, t, n - 1) {
        VisitedMember(rows, order, c, t, n - 1, k.document);
        var i :| 0 <= i < n - 1 && Matches(rows, order[i], c, t) && order[i].document == k.document;
        assert InOrder(order, i, n - 1) && order[i] == k;
        RankIsOrder(KeyBytes(k), KeyBytes(k));
      }
    }
  }

  /** A visit that is not stopped gives each document that has the term now, once. */
  lemma VisitExact(rows: Rows, order: seq<RowKey>, m: Model, digest: Bytes -> Bytes, bound: nat, c: Bytes, t: Term)
    requires RowsOk(rows, m) && ModelOk(m, digest, bound) && Listed(order, rows)
    ensures Distinct(Visited(rows, order, c, t, |order|))
    ensures forall d :: d in Visited(rows, order, c, t, |order|) <==> HasTerm(m, c, d, t)
    ensures forall id :: !BadMeta(rows, id)
  {
    VisitedOnce(rows, order, c, t, |order|);
    forall d ensures d in Visited(rows, order, c, t, |order|) <==> HasTerm(m, c, d, t) {
      VisitedMember(rows, order, c, t, |order|, d);
      forall i | 0 <= i < |order| && Matches(rows, order[i], c, t) && order[i].document == d
        ensures HasTerm(m, c, d, t)
      {
        assert HasRow(order, rows, i);
        MatchIsTerm(rows, m, digest, bound, order[i], c, t);
      }
      if HasTerm(m, c, d, t) {
        TermIsMatch(rows, m, digest, bound, c, t, d);
        assert HasPlace(order, rows, Entry(c, t, d, m.objects[Doc(c, d)].meta.generation));
      }
    }
    forall id ensures !BadMeta(rows, id) {
      assert RowOk(rows, m, Object(id));
      if id in m.objects { assert VersionOk(id, m.objects[id], m, digest, bound); }
    }
  }
}
