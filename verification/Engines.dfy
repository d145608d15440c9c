/** Objects, documents and indexes over the rows. */
module Engines {
  import opened Common
  import opened Keys
  import Nodes
  import opened Rows
  import opened RowSteps
  import Compaction
  import CompositeKeys
  import Reads
  import Scans

  function ChunkKeySize(id: ObjectId): nat { 4 + |id.space| + |id.key| + 12 }

  /** The bytes of a term can be a name, and its index is defined. */
  predicate TermKnown(m: Model, c: Bytes, t: Term) { ValidTerm(t) && (c, t.index) in m.indexes }

  ghost predicate Holds(rows: Rows, m: Model, digest: Bytes -> Bytes, next: nat) {
    RowsOk(rows, m) && ModelOk(m, digest, next) && CounterOk(rows, next)
  }

  // ---------------------------------------------------------------- bounds

  lemma BoundedChunks(r: Rows, r': Rows, id: ObjectId, g: nat, ps: seq<Bytes>, b: nat)
    requires ChunksPut(r, r', id, g, ps) && Bounded(r, b) && g <= b
    requires ValidId(id) && g <= MAX_GENERATION && |ps| <= MAX_CHUNKS
    ensures Bounded(r', b)
  {
    forall k | k in r' ensures KeyOk(k) && RowGeneration(k, r'[k]) <= b {
      assert Lookup(r', k) == AfterChunks(r, id, g, ps, k);
    }
  }

  lemma BoundedTerms(r: Rows, r': Rows, c: Bytes, d: Bytes, g: nat, ts: seq<Term>, b: nat)
    requires TermsPut(r, r', c, d, g, ts) && Bounded(r, b) && g <= b
    requires ValidName(c) && ValidName(d) && g <= MAX_GENERATION && forall i :: 0 <= i < |ts| ==> ValidTerm(ts[i])
    ensures Bounded(r', b)
  {
    forall k | k in r' ensures KeyOk(k) && RowGeneration(k, r'[k]) <= b {
      assert Lookup(r', k) == AfterTerms(r, c, d, g, ts, k);
    }
  }

  lemma BoundedReverse(r: Rows, r': Rows, c: Bytes, d: Bytes, g: nat, ts: seq<Term>, b: nat)
    requires ReversePut(r, r', c, d, g, ts) && Bounded(r, b) && g <= b
    requires ValidName(c) && ValidName(d) && |ts| <= MAX_TERMS
    ensures Bounded(r', b)
  {
    forall k | k in r' ensures KeyOk(k) && RowGeneration(k, r'[k]) <= b {
      assert Lookup(r', k) == AfterReverse(r, c, d, g, ts, k);
    }
  }

  lemma BoundedTrimmed(r: Rows, r': Rows, c: Bytes, d: Bytes, b: nat)
    requires Trimmed(r, r', c, d) && Bounded(r, b)
    ensures Bounded(r', b)
  {
    forall k | k in r' ensures KeyOk(k) && RowGeneration(k, r'[k]) <= b { assert TrimmedAt(r, r', c, d, k); }
  }

  lemma BoundedCut(r: Rows, r': Rows, id: ObjectId, g: nat, n: nat, b: nat)
    requires ChunksCut(r, r', id, g, n) && Bounded(r, b)
    ensures Bounded(r', b)
  {
    forall k | k in r' ensures KeyOk(k) && RowGeneration(k, r'[k]) <= b {
      assert Lookup(r', k) == AfterCut(r, id, g, n, k);
    }
  }

  // ---------------------------------------------------------------- what the rows say

  lemma MetaAt(rows: Rows, m: Model, digest: Bytes -> Bytes, next: nat, id: ObjectId)
    requires RowsOk(rows, m) && ModelOk(m, digest, next)
    ensures ReadMeta(rows, id) ==
      if !ValidId(id) then Error(InvalidArgument) else if id in m.objects then Value(m.objects[id].meta)
        else Error(NotFound)
    ensures id in m.objects ==>
      forall i :: 0 <= i < m.objects[id].meta.chunks ==> Chunk(id, m.objects[id].meta.generation, i) in rows
  {
    assert RowOk(rows, m, Object(id));
    if id in m.objects {
      var v := m.objects[id];
      assert VersionOk(id, v, m, digest, next);
      forall i | 0 <= i < v.meta.chunks ensures Chunk(id, v.meta.generation, i) in rows {
        assert RowOk(rows, m, Chunk(id, v.meta.generation, i));
      }
    }
  }

  /** The model with one object at a new value. */
  predicate StoredAs(m: Model, m': Model, id: ObjectId, value: Bytes, terms: seq<Term>) {
    && id in m'.objects && m'.objects[id].bytes == value && m'.objects[id].terms == terms
    && m' == m.(objects := m.objects[id := m'.objects[id]])
  }

  /** Everything an operation that stores a version relies on and makes. */
  ghost predicate PutPlanned(p: Put, r: Rows, digest: Bytes -> Bytes, next: nat) {
    Holds(r, p.m, digest, next) && p.g == next + 1 <= MAX_GENERATION && VersionOk(p.id, p.v, p.m, digest, p.g)
      && p.v.meta.generation == p.g
  }

  /** b: the new chunks are written; c: still the same chunks; d: those of the version before are cut. */
  lemma ChunkRowsMoved(p: Put, r: Rows, b: Rows, c: Rows, d: Rows, digest: Bytes -> Bytes, next: nat)
    requires PutPlanned(p, r, digest, next)
    requires ChunksPut(r[Counter := Count(p.g)], b, p.id, p.g, PiecesOf(p.v))
    requires forall k: RowKey :: k.Chunk? ==> Same(b, c, k)
    requires if p.id in p.m.objects
      then ChunksCut(c, d, p.id, p.m.objects[p.id].meta.generation, p.m.objects[p.id].meta.chunks) else d == c
    ensures forall k: RowKey :: k.Chunk? ==> ChunksMoved(p, r, d, k)
  {
    var r1 := r[Counter := Count(p.g)];
    if p.id in p.m.objects { assert VersionOk(p.id, p.m.objects[p.id], p.m, digest, next); }
    forall k: RowKey | k.Chunk? ensures ChunksMoved(p, r, d, k) {
      assert Lookup(b, k) == AfterChunks(r1, p.id, p.g, PiecesOf(p.v), k) && Same(b, c, k);
      if p.id in p.m.objects {
        assert Lookup(d, k) == AfterCut(c, p.id, p.m.objects[p.id].meta.generation, p.m.objects[p.id].meta.chunks, k);
      }
    }
  }

  lemma ModelGrown(p: Put, r: Rows, digest: Bytes -> Bytes, next: nat)
    requires PutPlanned(p, r, digest, next)
    ensures ModelOk(PutModel(p), digest, p.g)
  {
    forall id | id in PutModel(p).objects ensures VersionOk(id, PutModel(p).objects[id], PutModel(p), digest, p.g) {
      if id != p.id { assert VersionOk(id, p.m.objects[id], p.m, digest, next); }
    }
  }

  /** The object and its chunks: r with the counter, b, then the metadata, then d. */
  lemma ObjectStored(p: Put, r: Rows, b: Rows, d: Rows, digest: Bytes -> Bytes, next: nat)
    requires PutPlanned(p, r, digest, next) && p.id.kind != Document
    requires ChunksPut(r[Counter := Count(p.g)], b, p.id, p.g, PiecesOf(p.v))
    requires
      var c := b[Object(p.id) := MetaRow(p.v.meta)];
      if p.id in p.m.objects
        then ChunksCut(c, d, p.id, p.m.objects[p.id].meta.generation, p.m.objects[p.id].meta.chunks) else d == c
    ensures Holds(d, PutModel(p), digest, p.g) && Lookup(d, Counter) == Some(Count(p.g))
  {
    var r1 := r[Counter := Count(p.g)];
    var c := b[Object(p.id) := MetaRow(p.v.meta)];
    ChunkRowsMoved(p, r, b, c, d, digest, next);
    forall k: RowKey | !k.Chunk?
      ensures Lookup(d, k) == if k == Object(p.id) then Some(MetaRow(p.v.meta)) else Lookup(r1, k)
    {
      assert Lookup(b, k) == AfterChunks(r1, p.id, p.g, PiecesOf(p.v), k);
      if p.id in p.m.objects {
        assert Lookup(d, k) == AfterCut(c, p.id, p.m.objects[p.id].meta.generation, p.m.objects[p.id].meta.chunks, k);
      }
    }
    assert PutEnds(p, r, r, d) by {
      forall k | IsIndexRow(k) ensures Same(r, d, k) { assert Lookup(d, k) == Lookup(r1, k); }
    }
    PutKept(p, r, r, d, next);
    ModelGrown(p, r, digest, next);
    assert CounterOk(d, p.g) by {
      BoundedStart(r, p.g, next);
      BoundedChunks(r1, b, p.id, p.g, PiecesOf(p.v), p.g);
      BoundedEnd(p, c, d);
      assert Lookup(d, Counter) == Lookup(r1, Counter);
    }
  }

  lemma BoundedEnd(p: Put, c: Rows, d: Rows)
    requires Bounded(c, p.g)
    requires if p.id in p.m.objects
      then ChunksCut(c, d, p.id, p.m.objects[p.id].meta.generation, p.m.objects[p.id].meta.chunks) else d == c
    ensures Bounded(d, p.g)
  {
    if p.id in p.m.objects {
      BoundedCut(c, d, p.id, p.m.objects[p.id].meta.generation, p.m.objects[p.id].meta.chunks, p.g);
    }
  }

  /**
   * The rows of a document put: with new chunks, without the old index rows, with new terms, reverse rows,
   * and at the end.
   */
  datatype Stages = Stages(chunked: Rows, trimmed: Rows, termed: Rows, reversed: Rows, last: Rows)

  ghost predicate DocumentSteps(p: Put, r: Rows, s: Stages) {
    var c, d := p.id.space, p.id.key;
    && p.id.kind == Document
    && ChunksPut(r[Counter := Count(p.g)], s.chunked, p.id, p.g, PiecesOf(p.v))
    && (if p.id in p.m.objects then
          Trimmed(s.chunked, s.trimmed, c, d) && IndexGone(s.trimmed, c, d, p.m.objects[p.id])
        else s.trimmed == s.chunked)
    && TermsPut(s.trimmed, s.termed, c, d, p.g, p.v.terms)
    && ReversePut(s.termed, s.reversed, c, d, p.g, ReverseTerms(p.v))
    && var named := s.reversed[Object(p.id) := MetaRow(p.v.meta)];
       if p.id in p.m.objects
         then ChunksCut(named, s.last, p.id, p.m.objects[p.id].meta.generation, p.m.objects[p.id].meta.chunks)
       else s.last == named
  }

  /** Where a row of each kind comes from. */
  lemma DocumentRow(p: Put, r: Rows, s: Stages, k: RowKey)
    requires DocumentSteps(p, r, s)
    ensures TrimmedAt(r[Counter := Count(p.g)], s.trimmed, p.id.space, p.id.key, k) || k.Chunk?
    ensures k.Chunk? ==> Same(s.chunked, s.reversed[Object(p.id) := MetaRow(p.v.meta)], k)
    ensures !k.Chunk? ==> Lookup(s.last, k) == Lookup(s.reversed[Object(p.id) := MetaRow(p.v.meta)], k)
    ensures Lookup(s.reversed, k) == AfterReverse(s.termed, p.id.space, p.id.key, p.g, ReverseTerms(p.v), k)
    ensures Lookup(s.termed, k) == AfterTerms(s.trimmed, p.id.space, p.id.key, p.g, p.v.terms, k)
  {
    var r1 := r[Counter := Count(p.g)];
    var named := s.reversed[Object(p.id) := MetaRow(p.v.meta)];
    assert Lookup(s.chunked, k) == AfterChunks(r1, p.id, p.g, PiecesOf(p.v), k);
    if p.id in p.m.objects {
      assert TrimmedAt(s.chunked, s.trimmed, p.id.space, p.id.key, k);
      if k.Guard? { assert Lookup(s.chunked, k) == Lookup(r1, k); }
      assert Lookup(s.last, k) ==
        AfterCut(named, p.id, p.m.objects[p.id].meta.generation, p.m.objects[p.id].meta.chunks, k);
    }
    assert Lookup(s.reversed, k) == AfterReverse(s.termed, p.id.space, p.id.key, p.g, ReverseTerms(p.v), k);
    assert Lookup(s.termed, k) == AfterTerms(s.trimmed, p.id.space, p.id.key, p.g, p.v.terms, k);
  }

  lemma DocumentIndexed(p: Put, r: Rows, s: Stages)
    requires DocumentSteps(p, r, s)
    ensures IndexMoved(p, r, s.trimmed, s.last)
  {
    var c, d := p.id.space, p.id.key;
    forall k | IsIndexRow(k) ensures TrimmedAt(r, s.trimmed, c, d, k) { DocumentRow(p, r, s, k); }
    forall k: RowKey | k.Reverse? ensures Lookup(s.last, k) == AfterReverse(s.trimmed, c, d, p.g, ReverseTerms(p.v), k)
    {
      DocumentRow(p, r, s, k);
    }
    forall k: RowKey | k.Entry? || k.Guard? ensures Lookup(s.last, k) == AfterTerms(s.trimmed, c, d, p.g, p.v.terms, k)
    {
      DocumentRow(p, r, s, k);
    }
  }

  lemma DocumentChunked(p: Put, r: Rows, s: Stages, digest: Bytes -> Bytes, next: nat)
    requires PutPlanned(p, r, digest, next) && DocumentSteps(p, r, s)
    ensures forall k: RowKey :: k.Chunk? ==> ChunksMoved(p, r, s.last, k)
  {
    var named := s.reversed[Object(p.id) := MetaRow(p.v.meta)];
    forall k: RowKey | k.Chunk? ensures Same(s.chunked, named, k) { DocumentRow(p, r, s, k); }
    ChunkRowsMoved(p, r, s.chunked, named, s.last, digest, next);
  }

  lemma DocumentNamed(p: Put, r: Rows, s: Stages)
    requires DocumentSteps(p, r, s)
    ensures forall k: RowKey :: k.Object? ==> Lookup(s.last, k) == if k.id == p.id then Some(MetaRow(p.v.meta))
      else Lookup(r, k)
    ensures forall k: RowKey :: k.Definition? ==> Same(r, s.last, k)
    ensures Lookup(s.last, Counter) == Some(Count(p.g))
  {
    forall k: RowKey | k.Object?
      ensures Lookup(s.last, k) == if k.id == p.id then Some(MetaRow(p.v.meta)) else Lookup(r, k)
    {
      DocumentRow(p, r, s, k);
    }
    forall k: RowKey | k.Definition? ensures Same(r, s.last, k) { DocumentRow(p, r, s, k); }
    DocumentRow(p, r, s, Counter);
  }

  lemma DocumentStored(p: Put, r: Rows, s: Stages, digest: Bytes -> Bytes, next: nat)
    requires PutPlanned(p, r, digest, next) && DocumentSteps(p, r, s)
    requires NoConflict(p.m, p.id.space, p.id.key, p.v.terms)
    ensures Holds(s.last, PutModel(p), digest, p.g) && Lookup(s.last, Counter) == Some(Count(p.g))
  {
    assert PutEnds(p, r, s.trimmed, s.last) by {
      DocumentChunked(p, r, s, digest, next);
      DocumentIndexed(p, r, s);
      DocumentNamed(p, r, s);
    }
    PutKept(p, r, s.trimmed, s.last, next);
    ModelGrown(p, r, digest, next);
    assert CounterOk(s.last, p.g) by {
      DocumentBounded(p, r, s, digest, next);
      DocumentNamed(p, r, s);
    }
    DocumentRow(p, r, s, Counter);
  }

  lemma DocumentBounded(p: Put, r: Rows, s: Stages, digest: Bytes -> Bytes, next: nat)
    requires PutPlanned(p, r, digest, next) && DocumentSteps(p, r, s)
    ensures Bounded(s.last, p.g)
  {
    BoundedStart(r, p.g, next);
    BoundedChunks(r[Counter := Count(p.g)], s.chunked, p.id, p.g, PiecesOf(p.v), p.g);
    if p.id in p.m.objects { BoundedTrimmed(s.chunked, s.trimmed, p.id.space, p.id.key, p.g); }
    BoundedTerms(s.trimmed, s.termed, p.id.space, p.id.key, p.g, p.v.terms, p.g);
    BoundedReverse(s.termed, s.reversed, p.id.space, p.id.key, p.g, ReverseTerms(p.v), p.g);
    BoundedEnd(p, s.reversed[Object(p.id) := MetaRow(p.v.meta)], s.last);
  }

  lemma BoundedStart(r: Rows, g: nat, next: nat)
    requires Bounded(r, next) && next <= g
    ensures Bounded(r[Counter := Count(g)], g)
  {
  }

  class Engine {
    const capacity: nat
    const digest: Bytes -> Bytes
    /** Whether every call of the tree goes well; if not, any of them may fail. */
    const works: bool
    /** What is committed, what the open batch sees, and the last generation handed out. */
    var rows: Rows
    var staged: Rows
    var next: nat
    ghost var stored: Model
    ghost var view: Model

    // -------------------------------------------------------------- the tree

    method TreeGet(k: RowKey) returns (st: Status, row: Row)
      ensures works ==> st != Failed
      ensures st == Ok || st == NotFound || st == Failed
      ensures st == Ok ==> Lookup(staged, k) == Some(row)
      ensures st == NotFound ==> k !in staged
    {
      if !works {
        if * { return Failed, Empty; }
      }
      if k in staged { return Ok, staged[k]; }
      return NotFound, Empty;
    }

    method TreePut(k: RowKey, row: Row) returns (st: Status)
      modifies this`staged
      ensures works ==> st != Failed
      ensures st == Ok || st == Failed
      ensures st == Ok ==> staged == old(staged)[k := row]
    {
      if !works {
        if * { return Failed; }
      }
      staged := staged[k := row];
      return Ok;
    }

    method TreeDelete(k: RowKey) returns (st: Status)
      modifies this`staged
      ensures works ==> st != Failed
      ensures st == Ok || st == NotFound || st == Failed
      ensures st == Ok ==> k in old(staged) && staged == old(staged) - {k}
      ensures st == NotFound ==> k !in old(staged) && staged == old(staged)
    {
      if !works {
        if * { return Failed; }
      }
      if k !in staged { return NotFound; }
      staged := staged - {k};
      return Ok;
    }

    // -------------------------------------------------------------- objects

    method Metadata(id: ObjectId) returns (st: Status, meta: Meta)
      ensures works ==> st != Failed
      ensures st == InvalidArgument <==> !ValidId(id)
      ensures st != Failed ==> ReadMeta(staged, id) == if st == Ok then Value(meta) else Error(st)
    {
      meta := Meta(Kv, 0, 0, 0, 0, []);
      if !ValidId(id) { return InvalidArgument, meta; }
      var row;
      st, row := TreeGet(Object(id));
      if st != Ok { return; }
      match row
      case MetaRow(found) =>
        if MetaOk(found, id.kind) { return Ok, found; }
        return Corrupt, meta;
      case _ => return Corrupt, meta;
    }

    /** The next generation, with the counter row in the same batch. */
    method AllocGeneration() returns (st: Status, generation: nat)
      modifies this`staged, this`next
      ensures works ==> st != Failed
      ensures st == Ok || st == Overflow || st == Failed
      ensures st == Overflow <==> old(next) == MAX_GENERATION
      ensures st != Ok ==> next == old(next)
      ensures st == Ok ==> next == generation == old(next) + 1 && staged == old(staged)[Counter := Count(next)]
    {
      generation := 0;
      if next == MAX_GENERATION { return Overflow, 0; }
      st := TreePut(Counter, Count(next + 1));
      if st != Ok { return; }
      next := next + 1;
      generation := next;
    }

    /** Chunks as large as a leaf takes with two entries per leaf. */
    method Plan(id: ObjectId, value: Bytes) returns (st: Status, meta: Meta)
      requires |value| <= MAX_SIZE && ReadMeta(staged, id) != Error(Corrupt)
      modifies this`staged, this`next
      ensures works ==> st != Failed
      ensures old(next) <= next <= old(next) + 1 && (old(next) <= MAX_GENERATION ==> next <= MAX_GENERATION)
      ensures st == Overflow ==> old(next) == MAX_GENERATION || |value| > MAX_CHUNKS
      ensures st == InvalidArgument <==> !ValidId(id)
      ensures st == BufferTooSmall ==> capacity < Nodes.HEADER_SIZE + 2 * (ChunkKeySize(id) + 7)
      ensures st == Ok || st == InvalidArgument || st == Overflow || st == BufferTooSmall || st == Failed
      ensures st == Ok ==> old(next) != MAX_GENERATION
      ensures st == Ok ==> next == old(next) + 1 && staged == old(staged)[Counter := Count(next)]
      ensures st == Ok ==>
        MetaOk(meta, id.kind) && meta.generation == next && meta.total == |value| && meta.digest == digest(value)
      ensures st == Ok ==> meta.chunks <= MAX_CHUNKS && meta.chunks == |PiecesOf(Version(meta, value, []))|
      ensures st == Ok ==> Nodes.HEADER_SIZE + 2 * (6 + ChunkKeySize(id) + meta.chunkSize) <= capacity
      ensures st == Ok && value != [] ==> Widest(meta.chunkSize, id, capacity)
    {
      var current;
      st, current := Metadata(id);
      meta := Meta(id.kind, 0, 0, 0, 0, []);
      if st != Ok && st != NotFound { return; }
      var generation;
      st, generation := AllocGeneration();
      if st != Ok { return; }
      if capacity <= Nodes.HEADER_SIZE { return BufferTooSmall, meta; }
      var balanced := (capacity - Nodes.HEADER_SIZE) / 2;
      if ChunkKeySize(id) > balanced || balanced - ChunkKeySize(id) <= 6 { return BufferTooSmall, meta; }
      var size := balanced - ChunkKeySize(id) - 6;
      if size > CHUNK_TARGET { size := CHUNK_TARGET; }
      if value == [] { return Ok, Meta(id.kind, generation, 0, 0, 0, digest(value)); }
      var count := |value| / size + if |value| % size != 0 then 1 else 0;
      CeilWithin(|value|, size);
      if count > MAX_CHUNKS { return Overflow, meta; }
      PieceCount(value, size);
      return Ok, Meta(id.kind, generation, |value|, count, size, digest(value));
    }

    method WriteChunks(id: ObjectId, meta: Meta, value: Bytes) returns (st: Status)
      requires meta.total == |value| && meta.chunks == |PiecesOf(Version(meta, value, []))|
      requires value != [] ==> meta.chunkSize > 0
      modifies this`staged
      ensures works ==> st != Failed
      ensures st == Ok || st == Failed
      ensures st == Ok ==> ChunksPut(old(staged), staged, id, meta.generation, Pieces(value, meta.chunkSize))
    {
      ghost var pieces := Pieces(value, meta.chunkSize);
      var consumed := 0;
      var index := 0;
      while index < meta.chunks
        invariant 0 <= index <= meta.chunks && 0 <= consumed <= |value|
        invariant Pieces(value[consumed..], meta.chunkSize) == pieces[index..]
        invariant ChunksPut(old(staged), staged, id, meta.generation, pieces[..index])
      {
        var remaining := meta.total - consumed;
        var take := if remaining < meta.chunkSize then remaining else meta.chunkSize;
        NextPiece(value, meta.chunkSize, pieces, consumed, index, take);
        OneChunkMore(old(staged), staged, id, meta.generation, pieces, index);
        st := TreePut(Chunk(id, meta.generation, index), Piece(value[consumed..consumed + take]));
        if st != Ok { return; }
        consumed := consumed + take;
        index := index + 1;
      }
      assert pieces[..index] == pieces;
      st := Ok;
    }

    method DeleteChunks(id: ObjectId, generation: nat, count: nat) returns (st: Status)
      requires forall i :: 0 <= i < count ==> Chunk(id, generation, i) in staged
      modifies this`staged
      ensures works ==> st != Failed
      ensures st == Ok || st == Failed
      ensures st == Ok ==> ChunksCut(old(staged), staged, id, generation, count)
    {
      var index := 0;
      while index < count
        invariant 0 <= index <= count
        invariant ChunksCut(old(staged), staged, id, generation, index)
      {
        assert Lookup(staged, Chunk(id, generation, index)) ==
          AfterCut(old(staged), id, generation, index, Chunk(id, generation, index));
        OneChunkLess(old(staged), staged, id, generation, index);
        st := TreeDelete(Chunk(id, generation, index));
        if st != Ok { return; }
        index := index + 1;
      }
      st := Ok;
    }

    method ObjectPut(id: ObjectId, value: Bytes) returns (st: Status)
      requires id.kind != Document && |value| <= MAX_SIZE && Holds(staged, view, digest, next)
      modifies this`staged, this`next, this`view
      ensures works ==> st != Failed
      ensures old(next) <= next <= old(next) + 1 && next <= MAX_GENERATION
      ensures st == Ok ==> Holds(staged, view, digest, next) && StoredAs(old(view), view, id, value, [])
      ensures st == Ok ==> view.objects[id].meta.generation == next == old(next) + 1
      ensures st == Ok && value != [] ==> Widest(view.objects[id].meta.chunkSize, id, capacity)
      ensures works && old(next) < MAX_GENERATION && Plannable(id, value, capacity) ==> st == Ok
      ensures st == Ok ==> CounterMoved(old(staged), staged, true, next)
      ensures st == InvalidArgument <==> !ValidId(id)
      ensures st != NotFound && st != Conflict && st != Corrupt
    {
      ghost var r := staged;
      ghost var before := next;
      MetaAt(staged, view, digest, next, id);
      var previous, meta;
      st, previous := Metadata(id);
      var hasPrevious := st == Ok;
      if st != Ok && st != NotFound { return; }
      st, meta := Plan(id, value);
      if st != Ok { return; }
      ghost var p := RowSteps.Put(id, Version(meta, value, []), meta.generation, view);
      assert PutPlanned(p, r, digest, before);
      st := WriteChunks(id, meta, value);
      if st != Ok { return; }
      ghost var b := staged;
      st := TreePut(Object(id), MetaRow(meta));
      if st != Ok { return; }
      if hasPrevious {
        PreviousChunks(p, r, b, digest, before);
        st := DeleteChunks(id, previous.generation, previous.chunks);
        if st != Ok { return; }
      }
      ObjectStored(p, r, b, staged, digest, before);
      view := PutModel(p);
    }

    // -------------------------------------------------------------- indexes

    method IndexDefinition(c: Bytes, name: Bytes) returns (st: Status, unique: bool)
      requires Typed(staged)
      ensures works ==> st != Failed
      ensures st == InvalidArgument <==> !ValidName(c) || !ValidName(name)
      ensures st == Ok || st == NotFound || st == InvalidArgument || st == Failed
      ensures st == Ok ==> Lookup(staged, Definition(c, name)) == Some(Defined(unique))
      ensures st == NotFound ==> Definition(c, name) !in staged
    {
      if !ValidName(c) || !ValidName(name) { return InvalidArgument, false; }
      var row;
      st, row := TreeGet(Definition(c, name));
      unique := st == Ok && row.unique;
    }

    /** No other document holds the term. */
    method GuardCheck(c: Bytes, t: Term, d: Bytes) returns (st: Status)
      requires RowsOk(staged, view) && ModelOk(view, digest, next) && ValidName(c) && Unique(view, c, t.index)
      ensures works ==> st != Failed
      ensures st == Ok || st == Conflict || st == Failed
      ensures st == Failed || st == Reads.GuardOutcome(staged, c, t, d)
      ensures st == Ok ==> forall other :: other != d ==> !HasTerm(view, c, other, t)
      ensures st == Conflict ==> exists other :: other != d && HasTerm(view, c, other, t)
    {
      assert RowOk(staged, view, Guard(c, t));
      var row;
      st, row := TreeGet(Guard(c, t));
      if st == NotFound { return Ok; }
      if st != Ok { return; }
      var owner := row.document;
      if owner == d { return Ok; }
      OwnerNamed(staged, view, digest, next, c, t);
      MetaAt(staged, view, digest, next, Doc(c, owner));
      var meta;
      st, meta := Metadata(Doc(c, owner));
      if st == NotFound { return Ok; }
      if st != Ok { return; }
      return if meta.generation == row.generation then Conflict else Ok;
    }

    /** Every term is known and free, or the put fails. */
    method CheckTerms(c: Bytes, d: Bytes, terms: seq<Term>) returns (st: Status, unique: seq<bool>)
      requires RowsOk(staged, view) && ModelOk(view, digest, next) && ValidName(c)
      ensures works ==> st != Failed
      ensures st == InvalidArgument ==> exists i :: 0 <= i < |terms| && !ValidTerm(terms[i])
      ensures st == NotFound ==> exists i :: 0 <= i < |terms| && (c, terms[i].index) !in view.indexes
      ensures st == Conflict ==> !NoConflict(view, c, d, terms)
      ensures st == Ok || st == InvalidArgument || st == NotFound || st == Conflict || st == Failed
      ensures st == Ok ==> NoConflict(view, c, d, terms) && |unique| == |terms|
      ensures st == Ok ==>
        forall i :: 0 <= i < |terms| ==> TermKnown(view, c, terms[i]) && unique[i] == Unique(view, c, terms[i].index)
    {
      IndexTyped(staged, view);
      unique := [];
      var i := 0;
      while i < |terms|
        invariant 0 <= i <= |terms| && |unique| == i
        invariant NoConflict(view, c, d, terms[..i])
        invariant forall j :: 0 <= j < i ==>
          TermKnown(view, c, terms[j]) && unique[j] == Unique(view, c, terms[j].index)
      {
        if !ValidTerm(terms[i]) { return InvalidArgument, unique; }
        assert RowOk(staged, view, Definition(c, terms[i].index));
        var isUnique;
        st, isUnique := IndexDefinition(c, terms[i].index);
        if st != Ok { return; }
        if isUnique {
          st := GuardCheck(c, terms[i], d);
          if st != Ok { return; }
        }
        assert terms[..i + 1] == terms[..i] + [terms[i]];
        unique := unique + [isUnique];
        i := i + 1;
      }
      assert terms[..i] == terms;
      st := Ok;
    }

    method WriteTerm(c: Bytes, t: Term, d: Bytes, generation: nat, unique: bool) returns (st: Status)
      modifies this`staged
      ensures works ==> st != Failed
      ensures st == Ok || st == Failed
      ensures st == Ok ==>
        var entered := old(staged)[Entry(c, t, d, generation) := Empty];
        staged == if unique then entered[Guard(c, t) := Owner(generation, d)] else entered
    {
      st := TreePut(Entry(c, t, d, generation), Empty);
      if st != Ok || !unique { return; }
      st := TreePut(Guard(c, t), Owner(generation, d));
    }

    method WriteTerms(c: Bytes, d: Bytes, generation: nat, terms: seq<Term>, unique: seq<bool>) returns (st: Status)
      requires |unique| == |terms| && forall i :: 0 <= i < |terms| ==> unique[i] == IsUnique(staged, c, terms[i].index)
      modifies this`staged
      ensures works ==> st != Failed
      ensures st == Ok || st == Failed
      ensures st == Ok ==> TermsPut(old(staged), staged, c, d, generation, terms)
    {
      var i := 0;
      while i < |terms|
        invariant 0 <= i <= |terms| && TermsPut(old(staged), staged, c, d, generation, terms[..i])
      {
        ghost var mid := staged;
        ghost var definition := Definition(c, terms[i].index);
        assert Lookup(mid, definition) == AfterTerms(old(staged), c, d, generation, terms[..i], definition);
        st := WriteTerm(c, terms[i], d, generation, unique[i]);
        if st != Ok { return; }
        OneTermMore(old(staged), mid, staged, c, d, generation, terms, i);
        i := i + 1;
      }
      assert terms[..i] == terms;
      st := Ok;
    }

    method WriteReverse(c: Bytes, d: Bytes, generation: nat, terms: seq<Term>) returns (st: Status)
      modifies this`staged
      ensures works ==> st != Failed
      ensures st == Ok || st == Failed
      ensures st == Ok ==> ReversePut(old(staged), staged, c, d, generation, if terms == [] then [MARKER()] else terms)
    {
      if terms == [] {
        OneReverseMore(old(staged), staged, c, d, generation, [MARKER()], 0);
        st := TreePut(Reverse(c, d, 0), Termed(generation, MARKER()));
        assert [MARKER()][..1] == [MARKER()];
        return;
      }
      var i := 0;
      while i < |terms|
        invariant 0 <= i <= |terms| && ReversePut(old(staged), staged, c, d, generation, terms[..i])
      {
        OneReverseMore(old(staged), staged, c, d, generation, terms, i);
        st := TreePut(Reverse(c, d, i), Termed(generation, terms[i]));
        if st != Ok { return; }
        i := i + 1;
      }
      assert terms[..i] == terms;
      st := Ok;
    }

    // -------------------------------------------------------------- reclaiming

    /** The guard goes only if this document owns it. */
    method ReclaimGuard(c: Bytes, t: Term, d: Bytes) returns (st: Status)
      requires Typed(staged)
      modifies this`staged
      ensures works ==> st != Failed
      ensures st == Ok || st == Failed
      ensures st == Ok ==> staged == if Owned(old(staged), c, t, d) then old(staged) - {Guard(c, t)} else old(staged)
    {
      var row;
      st, row := TreeGet(Guard(c, t));
      if st == NotFound { return Ok; }
      if st != Ok { return; }
      if row.document == d { st := TreeDelete(Guard(c, t)); }
    }

    method ReclaimTerm(c: Bytes, t: Term, d: Bytes, generation: nat) returns (st: Status)
      requires Typed(staged) && ValidName(c) && ValidTerm(t)
      modifies this`staged
      ensures works ==> st != Failed
      ensures st == Ok || st == Failed
      ensures st == Ok ==> Trimmed(old(staged), staged, c, d) && Gone(staged, c, d, generation, t)
      ensures st == Ok ==> forall k: RowKey :: k.Reverse? ==> Same(old(staged), staged, k)
    {
      st := TreeDelete(Entry(c, t, d, generation));
      if st == NotFound { st := Ok; }
      if st != Ok { return; }
      ghost var mid := staged;
      if Entry(c, t, d, generation) in old(staged) { OneRowLess(old(staged), c, d, Entry(c, t, d, generation)); }
      assert Trimmed(old(staged), mid, c, d);
      TrimmedTyped(old(staged), mid, c, d);
      var unique;
      st, unique := IndexDefinition(c, t.index);
      if st == NotFound { return Ok; }
      if st != Ok { return; }
      if unique {
        st := ReclaimGuard(c, t, d);
        if st == Ok && Owned(mid, c, t, d) {
          OneRowLess(mid, c, d, Guard(c, t));
          TrimmedTwice(old(staged), mid, staged, c, d);
        }
      }
    }

    /** Walks the ordinals from 0 to the first that is absent. */
    method ReclaimReverse(c: Bytes, d: Bytes) returns (st: Status, found: bool)
      requires IndexOk(staged, view) && Doc(c, d) in view.objects
        && VersionOk(Doc(c, d), view.objects[Doc(c, d)], view, digest, next)
      modifies this`staged
      ensures works ==> st != Failed
      ensures st == Ok || st == Failed
      ensures st == Ok ==>
        found && Trimmed(old(staged), staged, c, d) && IndexGone(staged, c, d, view.objects[Doc(c, d)])
    {
      ghost var r := staged;
      ghost var v := view.objects[Doc(c, d)];
      found := false;
      IndexTyped(r, view);
      var ordinal := 0;
      while ordinal <= MAX_TERMS
        invariant 0 <= ordinal <= MAX_TERMS + 1 && (ordinal > 0 ==> found)
        invariant Typed(staged) && Reclaiming(r, staged, c, d, v, ordinal)
      {
        ghost var mid := staged;
        assert RowOk(r, view, Reverse(c, d, ordinal)) && Same(r, mid, Reverse(c, d, ordinal));
        var row;
        st, row := TreeGet(Reverse(c, d, ordinal));
        if st == NotFound { break; }
        found := true;
        if st != Ok { return; }
        st := ReclaimTerm(c, row.term, d, row.generation);
        if st != Ok { return; }
        ghost var last := staged;
        st := TreeDelete(Reverse(c, d, ordinal));
        if st != Ok { return; }
        ReclaimedOne(r, mid, last, staged, c, d, v, ordinal, row);
        TrimmedTyped(mid, staged, c, d);
        ordinal := ordinal + 1;
      }
      st := Ok;
      assert RowOk(r, view, Reverse(c, d, 0));
      ReclaimedAll(r, staged, c, d, v, ordinal);
    }

    // -------------------------------------------------------------- documents

    /** The index rows of the new version, and its metadata. */
    method WriteIndex(id: ObjectId, v: Version, unique: seq<bool>)
        returns (st: Status, ghost termed: Rows, ghost reversed: Rows)
      requires |unique| == |v.terms|
        && forall i :: 0 <= i < |unique| ==> unique[i] == IsUnique(staged, id.space, v.terms[i].index)
      modifies this`staged
      ensures works ==> st != Failed
      ensures st == Ok || st == Failed
      ensures st == Ok ==> TermsPut(old(staged), termed, id.space, id.key, v.meta.generation, v.terms)
      ensures st == Ok ==> ReversePut(termed, reversed, id.space, id.key, v.meta.generation, ReverseTerms(v))
      ensures st == Ok ==> staged == reversed[Object(id) := MetaRow(v.meta)]
    {
      termed, reversed := staged, staged;
      st := WriteTerms(id.space, id.key, v.meta.generation, v.terms, unique);
      if st != Ok { return; }
      termed := staged;
      st := WriteReverse(id.space, id.key, v.meta.generation, v.terms);
      if st != Ok { return; }
      reversed := staged;
      st := TreePut(Object(id), MetaRow(v.meta));
    }

    /** What is left of a put once the terms are checked. */
    method StoreDocument(id: ObjectId, v: Version, unique: seq<bool>, hasPrevious: bool, previous: Meta, ghost r: Rows)
        returns (st: Status)
      requires id.kind == Document && next > 0 && staged == r[Counter := Count(next)]
      requires PutPlanned(RowSteps.Put(id, v, next, view), r, digest, next - 1)
      requires hasPrevious <==> id in view.objects
      requires hasPrevious ==> previous == view.objects[id].meta
      requires |unique| == |v.terms|
        && forall i :: 0 <= i < |unique| ==> unique[i] == Unique(view, id.space, v.terms[i].index)
      requires NoConflict(view, id.space, id.key, v.terms)
      modifies this`staged
      ensures works ==> st != Failed
      ensures st == Ok || st == Failed
      ensures st == Ok ==>
        Holds(staged, PutModel(RowSteps.Put(id, v, next, view)), digest, next) && CounterMoved(r, staged, true, next)
    {
      var c, d := id.space, id.key;
      ghost var p := RowSteps.Put(id, v, next, view);
      st := WriteChunks(id, v.meta, v.bytes);
      if st != Ok { return; }
      ghost var chunked := staged;
      IndexAfterChunks(p, r, chunked);
      if hasPrevious {
        assert VersionOk(p.id, view.objects[p.id], view, digest, next - 1);
        assert VersionOk(p.id, view.objects[p.id], view, digest, next);
        var found;
        st, found := ReclaimReverse(c, d);
        if st != Ok { return; }
      }
      ghost var trimmed := staged;
      UniqueAfterTrim(p, chunked, trimmed);
      ghost var termed, reversed;
      st, termed, reversed := WriteIndex(id, v, unique);
      if st != Ok { return; }
      if hasPrevious {
        ChunksThere(p, r, Stages(chunked, trimmed, termed, reversed, staged), digest, next - 1);
        st := DeleteChunks(id, previous.generation, previous.chunks);
        if st != Ok { return; }
      }
      DocumentStored(p, r, Stages(chunked, trimmed, termed, reversed, staged), digest, next - 1);
    }

    method DocumentPut(c: Bytes, d: Bytes, value: Bytes, terms: seq<Term>) returns (st: Status)
      requires |value| <= MAX_SIZE && Holds(staged, view, digest, next)
      modifies this`staged, this`next, this`view
      ensures works ==> st != Failed
      ensures old(next) <= next <= old(next) + 1 && next <= MAX_GENERATION
      ensures st == Ok ==> Holds(staged, view, digest, next) && StoredAs(old(view), view, Doc(c, d), value, terms)
      ensures st == Ok ==> view.objects[Doc(c, d)].meta.generation == next == old(next) + 1
      ensures st == Ok && value != [] ==> Widest(view.objects[Doc(c, d)].meta.chunkSize, Doc(c, d), capacity)
      ensures works && old(next) < MAX_GENERATION && Plannable(Doc(c, d), value, capacity) ==>
        (Indexable(old(view), c, d, terms) ==> st == Ok)
      ensures st == Ok ==> CounterMoved(old(staged), staged, true, next)
      ensures st == Ok ==>
        NoConflict(old(view), c, d, terms) && forall i :: 0 <= i < |terms| ==> TermKnown(old(view), c, terms[i])
      ensures st == Conflict ==> !NoConflict(old(view), c, d, terms)
      ensures st == NotFound ==> exists i :: 0 <= i < |terms| && (c, terms[i].index) !in old(view).indexes
      ensures st == InvalidArgument ==>
        !ValidId(Doc(c, d)) || |terms| > MAX_TERMS || exists i :: 0 <= i < |terms| && !ValidTerm(terms[i])
      ensures st != Corrupt
    {
      if !ValidName(d) || |terms| > MAX_TERMS { return InvalidArgument; }
      var id := Doc(c, d);
      ghost var r := staged;
      ghost var before := next;
      MetaAt(staged, view, digest, next, id);
      var previous, meta, unique;
      st, previous := Metadata(id);
      var hasPrevious := st == Ok;
      if st != Ok && st != NotFound { return; }
      st, meta := Plan(id, value);
      if st != Ok { return; }
      AfterCounter(r, view, digest, before);
      st, unique := CheckTerms(c, d, terms);
      if st != Ok { return; }
      var v := Version(meta, value, terms);
      assert PutPlanned(RowSteps.Put(id, v, next, view), r, digest, before);
      st := StoreDocument(id, v, unique, hasPrevious, previous, r);
      if st != Ok { return; }
      view := PutModel(RowSteps.Put(id, v, next, view));
    }

    // -------------------------------------------------------------- deleting

    /** The metadata row goes last. */
    method EraseObject(id: ObjectId) returns (st: Status)
      requires ReadMeta(staged, id) ==
        if !ValidId(id) then Error(InvalidArgument) else if id in view.objects then Value(view.objects[id].meta)
          else Error(NotFound)
      requires id in view.objects ==> ValidId(id) && ChunksIn(staged, id, view.objects[id].meta)
      modifies this`staged
      ensures works ==> st != Failed
      ensures st == Ok || st == NotFound || st == InvalidArgument || st == Failed
      ensures st == Ok ==> id in view.objects && Erased(old(staged), staged, id, view.objects[id].meta)
      ensures st == NotFound ==> id !in view.objects && staged == old(staged)
      ensures st == InvalidArgument <==> !ValidId(id)
    {
      var meta;
      st, meta := Metadata(id);
      if st == Ok {
        st := DeleteChunks(id, meta.generation, meta.chunks);
        if st != Ok { return; }
        assert Lookup(staged, Object(id)) == AfterCut(old(staged), id, meta.generation, meta.chunks, Object(id));
      } else if st != NotFound {
        return;
      }
      ghost var cut := staged;
      st := TreeDelete(Object(id));
      if st == Ok { ErasedLast(old(staged), cut, staged, id, meta); }
    }

    method ObjectDelete(id: ObjectId) returns (st: Status)
      requires id.kind != Document && Holds(staged, view, digest, next)
      modifies this`staged, this`view
      ensures works ==> st != Failed
      ensures st == Ok || st == NotFound || st == InvalidArgument || st == Failed
      ensures st == Ok ==>
        Holds(staged, view, digest, next) && id in old(view).objects && view == DropModel(old(view), id)
      ensures st == Ok ==> CounterMoved(old(staged), staged, false, next)
      ensures st == NotFound ==> id !in view.objects && staged == old(staged) && view == old(view)
      ensures st == InvalidArgument <==> !ValidId(id)
    {
      MetaAt(staged, view, digest, next, id);
      if id in view.objects { assert VersionOk(id, view.objects[id], view, digest, next); }
      st := EraseObject(id);
      if st == Ok {
        ObjectDropped(old(staged), old(staged), staged, view, digest, next, id);
        view := DropModel(view, id);
      }
    }

    method DocumentDelete(c: Bytes, d: Bytes) returns (st: Status)
      requires Holds(staged, view, digest, next)
      modifies this`staged, this`view
      ensures works ==> st != Failed
      ensures st == Ok || st == NotFound || st == InvalidArgument || st == Failed
      ensures st == Ok ==>
        Holds(staged, view, digest, next) && Doc(c, d) in old(view).objects && view == DropModel(old(view), Doc(c, d))
      ensures st == Ok ==> CounterMoved(old(staged), staged, false, next)
      ensures st == NotFound ==> Doc(c, d) !in view.objects && staged == old(staged) && view == old(view)
      ensures st == InvalidArgument <==> !ValidId(Doc(c, d))
    {
      if !ValidName(d) { return InvalidArgument; }
      var id := Doc(c, d);
      MetaAt(staged, view, digest, next, id);
      var meta;
      st, meta := Metadata(id);
      if st == Ok {
        assert VersionOk(id, view.objects[id], view, digest, next);
        var found;
        st, found := ReclaimReverse(c, d);
        if st != Ok { return; }
        MetaAfterTrim(old(staged), staged, id, view.objects[id].meta);
      } else if st != NotFound {
        return;
      }
      ghost var trimmed := staged;
      st := EraseObject(id);
      if st == Ok {
        ObjectDropped(old(staged), trimmed, staged, view, digest, next, id);
        view := DropModel(view, id);
      }
    }

    // -------------------------------------------------------------- defining

    /** An index keeps the kind it was created with. */
    method IndexCreate(c: Bytes, name: Bytes, unique: bool) returns (st: Status)
      requires Holds(staged, view, digest, next)
      modifies this`staged, this`view
      ensures works ==> st != Failed
      ensures st == Ok || st == Conflict || st == InvalidArgument || st == Failed
      ensures st == InvalidArgument <==> !ValidName(c) || !ValidName(name)
      ensures st == Conflict ==>
        (c, name) in view.indexes && view.indexes[(c, name)] != unique && staged == old(staged) && view == old(view)
      ensures st == Ok ==>
        Holds(staged, view, digest, next) && view == old(view).(indexes := old(view).indexes[(c, name) := unique])
      ensures st == Ok ==> CounterMoved(old(staged), staged, false, next)
      ensures st == Ok ==> (c, name) in old(view).indexes ==> old(view).indexes[(c, name)] == unique
    {
      IndexTyped(staged, view);
      assert RowOk(staged, view, Definition(c, name));
      var existing;
      st, existing := IndexDefinition(c, name);
      if st == Ok {
        assert view.indexes == view.indexes[(c, name) := existing];
        return if existing == unique then Ok else Conflict;
      }
      if st != NotFound { return; }
      st := TreePut(Definition(c, name), Defined(unique));
      if st == Ok {
        IndexDefined(old(staged), view, digest, next, c, name, unique);
        view := view.(indexes := view.indexes[(c, name) := unique]);
      }
    }

    // -------------------------------------------------------------- the store

    /** What is committed stands for the stored model. */
    ghost predicate Valid()
      reads this
    { Holds(rows, stored, digest, next) }

    constructor (capacity: nat, digest: Bytes -> Bytes, works: bool)
      ensures Valid() && stored == Model(map[], map[], true) && rows == map[] && this.capacity == capacity
        && this.digest == digest && this.works == works
    {
      this.capacity, this.digest, this.works := capacity, digest, works;
      rows, staged, next := map[], map[], 0;
      stored, view := Model(map[], map[], true), Model(map[], map[], true);
      new;
      forall k ensures RowOk(rows, stored, k) { }
    }

    /** One operation on what the open batch sees. */
    method Apply(op: Op) returns (st: Status)
      requires Holds(staged, view, digest, next) && OpOk(op)
      modifies this`staged, this`next, this`view
      ensures works ==> st != Failed
      ensures old(next) <= next <= old(next) + 1 && next <= MAX_GENERATION
      ensures st == Ok ==>
        Holds(staged, view, digest, next) && Applied(old(view), view, op) && Newer(view, op, old(next), next)
      ensures st == Ok ==> CounterMoved(old(staged), staged, Stores(op), next) && (Stores(op) || next == old(next))
      ensures works && Acceptable(old(view), op, old(next), capacity) ==> st == Ok
    {
      DroppableValid(view, op, digest, next);
      match op
      case PutObject(id, value) => st := ObjectPut(id, value);
      case DeleteObject(id) => st := ObjectDelete(id);
      case PutDocument(c, d, value, terms) => st := DocumentPut(c, d, value, terms);
      case DeleteDocument(c, d) => st := DocumentDelete(c, d);
      case CreateIndex(c, name, unique) => st := IndexCreate(c, name, unique);
    }

    ghost function Now(): Snapshot
      reads this
    { Snapshot(rows, stored, next) }

    /** All the operations, or none of them. */
    method Transact(ops: seq<Op>) returns (st: Status, ghost models: seq<Model>, ghost counts: seq<nat>)
      requires Valid() && forall i :: 0 <= i < |ops| ==> OpOk(ops[i])
      modifies this
      ensures works ==> st != Failed
      ensures Valid() && next >= old(next)
      ensures Happens(old(Now()), if st == Ok then Committed(ops, models, counts) else Aborted, Now())
      ensures works && st != Ok ==> StoppedAt(old(stored), ops, models, counts, capacity)
    {
      staged, view := rows, stored;
      models, counts := [view], [next];
      st := Ok;
      var i := 0;
      while i < |ops|
        invariant 0 <= i <= |ops| && rows == old(rows) && stored == old(stored) && old(next) <= next && st == Ok
        invariant Holds(staged, view, digest, next) && History(stored, view, ops[..i], models, counts)
        invariant counts[0] == old(next) && counts[i] == next
        invariant Holds(rows, stored, digest, next) && CounterMoved(rows, staged, AnyStores(ops[..i]), next)
      {
        ghost var before := next;
        st := Apply(ops[i]);
        StillHolds(rows, stored, digest, before, next);
        if st != Ok { return; }
        HistoryMore(stored, models[i], view, ops[..i], models, counts, ops[i], next);
        AnyStoresMore(ops[..i], ops[i]);
        models, counts := models + [view], counts + [next];
        assert ops[..i + 1] == ops[..i] + [ops[i]];
        i := i + 1;
      }
      assert ops[..i] == ops;
      if !works {
        if * { return Failed, models, counts; }
      }
      rows, stored := staged, view;
    }

    /** The counter row, or else the highest generation on any row. */
    method Seed(order: seq<RowKey>)
      requires Valid() && Scans.Listed(order, rows)
      modifies this`next
      ensures Valid() && Happens(old(Now()), Reopened, Now())
    {
      ghost var before := next;
      if Counter in rows {
        next := rows[Counter].count;
      } else {
        next := SeedByScan(rows, order);
        assert next <= before;
      }
      Reseeded(rows, stored, digest, before, next);
    }

    /** Only live rows are copied, and the counter starts from what was copied. */
    method Compact(order: seq<RowKey>) returns (st: Status)
      requires Valid() && Scans.Listed(order, rows)
      modifies this
      ensures Valid() && st == Ok && Happens(old(Now()), Rewritten, Now())
    {
      var target, listing;
      st, target, listing := Compaction.Compact(rows, order);
      AllReadable(rows, stored, digest, next);
      Compaction.CompactedKept(rows, target, stored, digest, next);
      CompactedCounter(rows, target, next);
      rows, stored := target, stored.(clean := true);
      Seed(listing);
    }
  }

  // ---------------------------------------------------------------- what happens to a store

  /** The committed rows, what they stand for, and the last generation handed out. */
  datatype Snapshot = Snapshot(rows: Rows, model: Model, next: nat)

  /** A transaction, one that came to nothing, opening the store again, and compaction. */
  datatype Event =
    | Committed(ops: seq<Op>, models: seq<Model>, counts: seq<nat>)
    | Aborted
    | Reopened
    | Rewritten

  ghost predicate Happens(s: Snapshot, e: Event, s': Snapshot) {
    match e
    case Committed(ops, models, counts) =>
      && History(s.model, s'.model, ops, models, counts) && counts[0] == s.next && counts[|ops|] == s'.next
      && CounterMoved(s.rows, s'.rows, AnyStores(ops), s'.next)
    case Aborted => s'.rows == s.rows && s'.model == s.model && s.next <= s'.next
    case Reopened => s'.rows == s.rows && s'.model == s.model && Seeded(s.rows, s'.next)
    case Rewritten =>
      Compaction.Compacted(s.rows, s'.rows) && s'.model == s.model.(clean := true) && Seeded(s'.rows, s'.next)
  }

  /** Storing a version writes the counter row; nothing else touches it. */
  ghost predicate CounterMoved(r: Rows, r': Rows, stores: bool, next: nat) {
    Lookup(r', Counter) == if stores then Some(Count(next)) else Lookup(r, Counter)
  }

  ghost predicate Seeded(rows: Rows, next: nat) {
    if Counter in rows then rows[Counter] == Count(next)
    else Bounded(rows, next) && (next == 0 || exists k :: k in rows && RowGeneration(k, rows[k]) == next)
  }

  ghost predicate AnyStores(ops: seq<Op>) { exists i :: 0 <= i < |ops| && Stores(ops[i]) }

  lemma AnyStoresMore(ops: seq<Op>, op: Op)
    ensures AnyStores(ops + [op]) <==> AnyStores(ops) || Stores(op)
  {
    assert (ops + [op])[|ops|] == op;
    assert forall i :: 0 <= i < |ops| ==> (ops + [op])[i] == ops[i];
  }

  datatype Op =
    | PutObject(id: ObjectId, value: Bytes)
    | DeleteObject(id: ObjectId)
    | PutDocument(collection: Bytes, document: Bytes, value: Bytes, terms: seq<Term>)
    | DeleteDocument(collection: Bytes, document: Bytes)
    | CreateIndex(collection: Bytes, name: Bytes, unique: bool)

  /** Sizes fit a size_t; documents have operations of their own. */
  predicate OpOk(op: Op) {
    match op
    case PutObject(id, value) => id.kind != Document && |value| <= MAX_SIZE
    case DeleteObject(id) => id.kind != Document
    case PutDocument(_, _, value, _) => |value| <= MAX_SIZE
    case _ => true
  }

  ghost predicate Applied(m: Model, m': Model, op: Op) {
    match op
    case PutObject(id, value) => StoredAs(m, m', id, value, [])
    case DeleteObject(id) => id in m.objects && m' == DropModel(m, id)
    case PutDocument(c, d, value, terms) =>
      StoredAs(m, m', Doc(c, d), value, terms) && NoConflict(m, c, d, terms)
        && forall i :: 0 <= i < |terms| ==> TermKnown(m, c, terms[i])
    case DeleteDocument(c, d) => Doc(c, d) in m.objects && m' == DropModel(m, Doc(c, d))
    case CreateIndex(c, name, unique) =>
      && m' == m.(indexes := m.indexes[(c, name) := unique])
      && ((c, name) in m.indexes ==> m.indexes[(c, name)] == unique)
  }

  /** Nothing stands in the way of the operation. */
  ghost predicate Acceptable(m: Model, op: Op, next: nat, capacity: nat) {
    match op
    case PutObject(id, value) => next < MAX_GENERATION && Plannable(id, value, capacity)
    case DeleteObject(id) => id in m.objects
    case PutDocument(c, d, value, terms) =>
      next < MAX_GENERATION && Plannable(Doc(c, d), value, capacity) && Indexable(m, c, d, terms)
    case DeleteDocument(c, d) => Doc(c, d) in m.objects
    case CreateIndex(c, name, unique) =>
      ValidName(c) && ValidName(name) && ((c, name) in m.indexes ==> m.indexes[(c, name)] == unique)
  }

  lemma DroppableValid(m: Model, op: Op, digest: Bytes -> Bytes, next: nat)
    requires ModelOk(m, digest, next)
    ensures op.DeleteObject? && op.id in m.objects ==> ValidId(op.id)
    ensures op.DeleteDocument? && Doc(op.collection, op.document) in m.objects ==>
      ValidId(Doc(op.collection, op.document))
  {
    if op.DeleteObject? && op.id in m.objects { assert VersionOk(op.id, m.objects[op.id], m, digest, next); }
    if op.DeleteDocument? && Doc(op.collection, op.document) in m.objects {
      var id := Doc(op.collection, op.document);
      assert VersionOk(id, m.objects[id], m, digest, next);
    }
  }

  /** Some first operations went well, and the next one was not acceptable after them. */
  ghost predicate StoppedAt(first: Model, ops: seq<Op>, models: seq<Model>, counts: seq<nat>, capacity: nat) {
    && 0 < |models| == |counts| <= |ops|
    && var k := |models| - 1;
    && History(first, models[k], ops[..k], models, counts) && !Acceptable(models[k], ops[k], counts[k], capacity)
  }

  /** A version that is stored has a generation above every count before and not above the count after. */
  ghost predicate Newer(m': Model, op: Op, before: nat, after: nat) {
    Stores(op) ==> StoredId(op) in m'.objects && before < m'.objects[StoredId(op)].meta.generation <= after
  }

  predicate Stores(op: Op) { op.PutObject? || op.PutDocument? }

  function StoredId(op: Op): ObjectId
    requires Stores(op)
  { if op.PutObject? then op.id else Doc(op.collection, op.document) }

  /** The models and the generation counts before, between and after the operations. */
  ghost predicate History(first: Model, last: Model, ops: seq<Op>, models: seq<Model>, counts: seq<nat>) {
    && |models| == |counts| == |ops| + 1 && models[0] == first && models[|ops|] == last
    && forall i :: AppliedAt(models, counts, ops, i)
  }

  ghost predicate AppliedAt(models: seq<Model>, counts: seq<nat>, ops: seq<Op>, i: int)
    requires |models| == |counts| == |ops| + 1
  {
    0 <= i < |ops| ==>
      && Applied(models[i], models[i + 1], ops[i])
      && counts[i] <= counts[i + 1] && Newer(models[i + 1], ops[i], counts[i], counts[i + 1])
  }

  lemma HistoryMore(first: Model, m: Model, m': Model, ops: seq<Op>, models: seq<Model>, counts: seq<nat>, op: Op,
                    count: nat)
    requires History(first, m, ops, models, counts) && Applied(m, m', op)
    requires counts[|ops|] <= count && Newer(m', op, counts[|ops|], count)
    ensures History(first, m', ops + [op], models + [m'], counts + [count])
  {
    var all, bounds, done := models + [m'], counts + [count], ops + [op];
    forall i ensures AppliedAt(all, bounds, done, i) { assert AppliedAt(models, counts, ops, i); }
  }

  lemma {:induction false} CountsRise(first: Model, last: Model, ops: seq<Op>, models: seq<Model>, counts: seq<nat>,
                                      i: nat, j: nat)
    requires History(first, last, ops, models, counts) && i <= j <= |ops|
    ensures counts[i] <= counts[j]
    decreases j
  {
    if i < j {
      CountsRise(first, last, ops, models, counts, i, j - 1);
      assert AppliedAt(models, counts, ops, j - 1);
    }
  }

  /** A version that is stored is newer than every version there was before the transaction. */
  lemma AboveAll(r: Rows, digest: Bytes -> Bytes, first: Model, last: Model, ops: seq<Op>, models: seq<Model>,
                 counts: seq<nat>,
                 i: nat, id: ObjectId)
    requires History(first, last, ops, models, counts) && i < |ops| && Stores(ops[i])
    requires Holds(r, first, digest, counts[0]) && id in first.objects
    ensures StoredId(ops[i]) in models[i + 1].objects
    ensures first.objects[id].meta.generation < models[i + 1].objects[StoredId(ops[i])].meta.generation
  {
    assert AppliedAt(models, counts, ops, i);
    CountsRise(first, last, ops, models, counts, 0, i);
    assert VersionOk(id, first.objects[id], first, digest, counts[0]);
  }

  /** The versions stored by one transaction have ever higher generations. */
  lemma GenerationsRise(first: Model, last: Model, ops: seq<Op>, models: seq<Model>, counts: seq<nat>, i: nat, j: nat)
    requires History(first, last, ops, models, counts) && i < j < |ops| && Stores(ops[i]) && Stores(ops[j])
    ensures StoredId(ops[i]) in models[i + 1].objects && StoredId(ops[j]) in models[j + 1].objects
    ensures counts[0] < models[i + 1].objects[StoredId(ops[i])].meta.generation
      < models[j + 1].objects[StoredId(ops[j])].meta.generation <= counts[|ops|]
  {
    assert AppliedAt(models, counts, ops, i) && AppliedAt(models, counts, ops, j);
    CountsRise(first, last, ops, models, counts, 0, i);
    CountsRise(first, last, ops, models, counts, i + 1, j);
    CountsRise(first, last, ops, models, counts, j + 1, |ops|);
  }

  lemma StillHolds(r: Rows, m: Model, digest: Bytes -> Bytes, next: nat, next': nat)
    requires Holds(r, m, digest, next) && next <= next' <= MAX_GENERATION
    ensures Holds(r, m, digest, next')
  {
    forall id | id in m.objects ensures VersionOk(id, m.objects[id], m, digest, next') {
      assert VersionOk(id, m.objects[id], m, digest, next);
    }
  }

  method SeedByScan(rows: Rows, order: seq<RowKey>) returns (highest: nat)
    requires Scans.Listed(order, rows)
    ensures forall k :: k in rows ==> RowGeneration(k, rows[k]) <= highest
    ensures highest == 0 || exists k :: k in rows && RowGeneration(k, rows[k]) == highest
  {
    highest := 0;
    var i := 0;
    while i < |order|
      invariant 0 <= i <= |order|
      invariant forall j :: 0 <= j < i ==> order[j] in rows && RowGeneration(order[j], rows[order[j]]) <= highest
      invariant highest == 0 || exists k :: k in rows && RowGeneration(k, rows[k]) == highest
    {
      assert Scans.HasRow(order, rows, i);
      var g := RowGeneration(order[i], rows[order[i]]);
      if g > highest { highest := g; }
      i := i + 1;
    }
    forall k | k in rows ensures RowGeneration(k, rows[k]) <= highest { assert Scans.HasPlace(order, rows, k); }
  }

  /** A lower counter is enough as long as no row is above it. */
  lemma Reseeded(r: Rows, m: Model, digest: Bytes -> Bytes, next: nat, next': nat)
    requires Holds(r, m, digest, next) && next' <= next && Bounded(r, next')
    requires Counter in r ==> r[Counter] == Count(next')
    ensures Holds(r, m, digest, next')
  {
    forall id | id in m.objects ensures VersionOk(id, m.objects[id], m, digest, next') {
      assert VersionOk(id, m.objects[id], m, digest, next) && RowOk(r, m, Object(id));
      assert Object(id) in r;
    }
  }

  lemma AllReadable(r: Rows, m: Model, digest: Bytes -> Bytes, next: nat)
    requires Holds(r, m, digest, next)
    ensures forall k :: !Compaction.Unreadable(r, k)
  {
    forall k ensures !Compaction.Unreadable(r, k) { Readable(r, m, digest, next, k); }
  }

  lemma Readable(r: Rows, m: Model, digest: Bytes -> Bytes, next: nat, k: RowKey)
    requires Holds(r, m, digest, next)
    ensures !Compaction.Unreadable(r, k)
  {
    if k in r {
      assert RowOk(r, m, k) && KeyOk(k);
      match k
      case Object(id) => assert VersionOk(id, m.objects[id], m, digest, next);
      case Chunk(id, g, i) =>
        MetaAt(r, m, digest, next, id);
        if Current(m, id, g) {
          assert VersionOk(id, m.objects[id], m, digest, next);
          PiecesJoin(m.objects[id].bytes, m.objects[id].meta.chunkSize);
        }
      case Entry(c, t, d, g) =>
        MetaAt(r, m, digest, next, Doc(c, d));
        if Current(m, Doc(c, d), g) { assert VersionOk(Doc(c, d), m.objects[Doc(c, d)], m, digest, next); }
      case Reverse(c, d, i) =>
        MetaAt(r, m, digest, next, Doc(c, d));
        if Doc(c, d) in m.objects { assert VersionOk(Doc(c, d), m.objects[Doc(c, d)], m, digest, next); }
      case Guard(c, t) =>
        OwnerNamed(r, m, digest, next, c, t);
        MetaAt(r, m, digest, next, Doc(c, r[k].document));
        if Doc(c, r[k].document) in m.objects {
          assert VersionOk(Doc(c, r[k].document), m.objects[Doc(c, r[k].document)], m, digest, next);
        }
      case _ =>
    }
  }

  lemma CompactedCounter(r: Rows, target: Rows, next: nat)
    requires CounterOk(r, next) && Compaction.Compacted(r, target)
    ensures CounterOk(target, next)
  {
    forall k | k in target ensures k in r && target[k] == r[k] {
      assert Lookup(target, k) == if Compaction.Live(r, k) then Lookup(r, k) else None;
    }
  }

  // ---------------------------------------------------------------- what it comes to

  /** Operations leave nothing stale behind that was not there before. */
  lemma {:induction false} HistoryClean(first: Model, last: Model, ops: seq<Op>, models: seq<Model>, counts: seq<nat>)
    requires History(first, last, ops, models, counts)
    ensures last.clean == first.clean
    decreases |ops|
  {
    if ops != [] {
      var n := |ops| - 1;
      assert AppliedAt(models, counts, ops, n);
      var before, bounds, done := models[..n + 1], counts[..n + 1], ops[..n];
      forall i ensures AppliedAt(before, bounds, done, i) { assert AppliedAt(models, counts, ops, i); }
      HistoryClean(first, models[n], done, before, bounds);
    }
  }

  /** The next piece is cut off the rest of the value. */
  lemma NextPiece(value: Bytes, size: nat, pieces: seq<Bytes>, consumed: nat, index: nat, take: nat)
    requires size > 0 && consumed <= |value| && index < |pieces| && Pieces(value[consumed..], size) == pieces[index..]
    requires take == if |value| - consumed < size then |value| - consumed else size
    ensures consumed + take <= |value| && pieces[index] == value[consumed..consumed + take]
    ensures Pieces(value[consumed + take..], size) == pieces[index + 1..]
  {
    Rest(value, consumed, take);
    Rest(pieces, index, 1);
    assert pieces[index..][0] == pieces[index];
  }

  lemma Rest<T>(s: seq<T>, i: nat, n: nat)
    requires i + n <= |s|
    ensures s[i..][n..] == s[i + n..] && s[i..][..n] == s[i..i + n]
  {
  }

  /** The name is valid, a leaf takes two rows with a byte each, and the chunks can be counted. */
  predicate Plannable(id: ObjectId, value: Bytes, capacity: nat) {
    ValidId(id) && Nodes.HEADER_SIZE + 2 * (ChunkKeySize(id) + 7) <= capacity && |value| <= MAX_CHUNKS
  }

  /** The terms are few and valid, their indexes are defined, and no unique value is taken. */
  ghost predicate Indexable(m: Model, c: Bytes, d: Bytes, terms: seq<Term>) {
    && |terms| <= MAX_TERMS && NoConflict(m, c, d, terms)
    && forall i :: 0 <= i < |terms| ==> TermKnown(m, c, terms[i])
  }

  /** Chunks are as long as they may be: of the target size, or two rows with one byte more would not fit a leaf. */
  predicate Widest(size: nat, id: ObjectId, capacity: nat) {
    && size <= CHUNK_TARGET
    && (size == CHUNK_TARGET || capacity < Nodes.HEADER_SIZE + 2 * (6 + ChunkKeySize(id) + size + 1))
  }

  /** Two chunk rows of a planned object always fit a leaf. */
  lemma ChunkRowHalf(id: ObjectId, value: Bytes, meta: Meta, i: nat, capacity: nat)
    requires MetaOk(meta, id.kind) && meta.total == |value| && i < |PiecesOf(Version(meta, value, []))|
    requires Nodes.HEADER_SIZE + 2 * (6 + ChunkKeySize(id) + meta.chunkSize) <= capacity
    ensures var key := CompositeKeys.KeyBytes(Chunk(id, meta.generation, i));
      2 * Nodes.EntrySize(Nodes.Leaf, Nodes.Entry(key, PiecesOf(Version(meta, value, []))[i], 0))
        + Nodes.HEADER_SIZE <= capacity
  {
    PiecesJoin(value, meta.chunkSize);
    var key := CompositeKeys.KeyBytes(Chunk(id, meta.generation, i));
    assert |key| == ChunkKeySize(id);
  }

  /** A unique value has at most one document. */
  lemma OneHolder(r: Rows, m: Model, digest: Bytes -> Bytes, next: nat, c: Bytes, t: Term, d: Bytes, d': Bytes)
    requires Holds(r, m, digest, next) && Unique(m, c, t.index) && HasTerm(m, c, d, t) && HasTerm(m, c, d', t)
    ensures d == d'
  {
    assert RowOk(r, m, Guard(c, t));
  }

  /** In a clean store every row belongs to a current version. */
  lemma NothingStale(r: Rows, m: Model, digest: Bytes -> Bytes, next: nat, k: RowKey)
    requires Holds(r, m, digest, next) && m.clean && k in r
    ensures Compaction.Live(r, k)
  {
    assert RowOk(r, m, k);
    Readable(r, m, digest, next, k);
    match k
    case Chunk(id, g, i) =>
      MetaAt(r, m, digest, next, id);
      assert VersionOk(id, m.objects[id], m, digest, next);
    case Entry(c, t, d, g) => MetaAt(r, m, digest, next, Doc(c, d));
    case Reverse(c, d, i) => MetaAt(r, m, digest, next, Doc(c, d));
    case Guard(c, t) => MetaAt(r, m, digest, next, Doc(c, r[k].document));
    case _ =>
  }

  ghost predicate ChunksIn(rows: Rows, id: ObjectId, meta: Meta) {
    forall i :: 0 <= i < meta.chunks ==> Chunk(id, meta.generation, i) in rows
  }

  /** The object's rows are gone, and nothing else. */
  ghost predicate Erased(r: Rows, r': Rows, id: ObjectId, meta: Meta) {
    forall k :: Lookup(r', k) == if k == Object(id) then None else AfterCut(r, id, meta.generation, meta.chunks, k)
  }

  lemma ErasedLast(r: Rows, cut: Rows, r': Rows, id: ObjectId, meta: Meta)
    requires ChunksCut(r, cut, id, meta.generation, meta.chunks) && r' == cut - {Object(id)}
    ensures Erased(r, r', id, meta)
  {
    forall k ensures Lookup(r', k) == if k == Object(id) then None
      else AfterCut(r, id, meta.generation, meta.chunks, k) {
      assert Lookup(cut, k) == AfterCut(r, id, meta.generation, meta.chunks, k);
    }
  }

  lemma MetaAfterTrim(r: Rows, trimmed: Rows, id: ObjectId, meta: Meta)
    requires Trimmed(r, trimmed, id.space, id.key) && ChunksIn(r, id, meta)
    ensures ReadMeta(trimmed, id) == ReadMeta(r, id) && ChunksIn(trimmed, id, meta)
  {
    assert TrimmedAt(r, trimmed, id.space, id.key, Object(id));
    forall i | 0 <= i < meta.chunks ensures Chunk(id, meta.generation, i) in trimmed {
      assert TrimmedAt(r, trimmed, id.space, id.key, Chunk(id, meta.generation, i));
    }
  }

  lemma ObjectDropped(r: Rows, trimmed: Rows, r': Rows, m: Model, digest: Bytes -> Bytes, next: nat, id: ObjectId)
    requires Holds(r, m, digest, next) && id in m.objects && Erased(trimmed, r', id, m.objects[id].meta)
    requires if id.kind == Document then Trimmed(r, trimmed, id.space, id.key)
      && IndexGone(trimmed, id.space, id.key, m.objects[id]) else trimmed == r
    ensures Holds(r', DropModel(m, id), digest, next) && CounterMoved(r, r', false, next)
  {
    var v := m.objects[id];
    assert VersionOk(id, v, m, digest, next);
    assert DropEnds(m, id, r, r') by {
      forall k: RowKey ensures k.Chunk? ==> Lookup(r', k) == AfterCut(r, id, v.meta.generation, |PiecesOf(v)|, k)
        ensures k.Object? ==> Lookup(r', k) == if k.id == id then None else Lookup(r, k)
        ensures IsIndexRow(k) ==>
          Lookup(r', k) == Lookup(trimmed, k) && (id.kind == Document ==> TrimmedAt(r, r', id.space, id.key, k))
      {
        DroppedRow(r, trimmed, r', id, v.meta, k);
      }
      if id.kind == Document { IndexStillGone(trimmed, r', id.space, id.key, v); }
    }
    DropKept(m, id, r, r');
    forall other | other in DropModel(m, id).objects
      ensures VersionOk(other, m.objects[other], DropModel(m, id), digest, next)
    {
      assert VersionOk(other, m.objects[other], m, digest, next);
    }
    DroppedCounter(r, trimmed, r', id, v.meta, next);
  }

  lemma DroppedRow(r: Rows, trimmed: Rows, r': Rows, id: ObjectId, meta: Meta, k: RowKey)
    requires Erased(trimmed, r', id, meta) && (trimmed == r || Trimmed(r, trimmed, id.space, id.key))
    ensures k.Chunk? ==> Lookup(r', k) == AfterCut(r, id, meta.generation, meta.chunks, k)
    ensures k.Object? ==> Lookup(r', k) == if k.id == id then None else Lookup(r, k)
    ensures IsIndexRow(k) ==> Lookup(r', k) == Lookup(trimmed, k) && TrimmedAt(r, r', id.space, id.key, k)
    ensures k == Counter ==> Lookup(r', k) == Lookup(r, k)
    ensures k in r' ==> Lookup(r, k) == Lookup(r', k)
  {
    assert Lookup(r', k) == if k == Object(id) then None else AfterCut(trimmed, id, meta.generation, meta.chunks, k);
    assert trimmed == r || TrimmedAt(r, trimmed, id.space, id.key, k);
  }

  lemma IndexStillGone(r: Rows, r': Rows, c: Bytes, d: Bytes, v: Version)
    requires IndexGone(r, c, d, v) && forall k :: IsIndexRow(k) ==> Lookup(r', k) == Lookup(r, k)
    ensures IndexGone(r', c, d, v)
  {
    forall i | 0 <= i < |ReverseTerms(v)| ensures Reverse(c, d, i) !in r' {
      assert Lookup(r', Reverse(c, d, i)) == Lookup(r, Reverse(c, d, i));
    }
    forall t | t in v.terms ensures Gone(r', c, d, v.meta.generation, t) {
      assert Gone(r, c, d, v.meta.generation, t);
      assert Lookup(r', Entry(c, t, d, v.meta.generation)) == Lookup(r, Entry(c, t, d, v.meta.generation));
      assert Lookup(r', Guard(c, t)) == Lookup(r, Guard(c, t));
      assert Lookup(r', Definition(c, t.index)) == Lookup(r, Definition(c, t.index));
    }
  }

  lemma DroppedCounter(r: Rows, trimmed: Rows, r': Rows, id: ObjectId, meta: Meta, next: nat)
    requires CounterOk(r, next) && Erased(trimmed, r', id, meta)
      && (trimmed == r || Trimmed(r, trimmed, id.space, id.key))
    ensures CounterOk(r', next) && Lookup(r', Counter) == Lookup(r, Counter)
  {
    DroppedRow(r, trimmed, r', id, meta, Counter);
    forall k | k in r' ensures k in r && r'[k] == r[k] { DroppedRow(r, trimmed, r', id, meta, k); }
  }

  /** No document has a term of an index that was not defined. */
  lemma NoTermYet(m: Model, digest: Bytes -> Bytes, next: nat, c: Bytes, d: Bytes, t: Term)
    requires ModelOk(m, digest, next) && (c, t.index) !in m.indexes
    ensures !HasTerm(m, c, d, t)
  {
    if Doc(c, d) in m.objects { assert VersionOk(Doc(c, d), m.objects[Doc(c, d)], m, digest, next); }
  }

  lemma DefinedRow(r: Rows, m: Model, m': Model, digest: Bytes -> Bytes, next: nat, c: Bytes, name: Bytes,
                   unique: bool, k: RowKey)
    requires RowsOk(r, m) && ModelOk(m, digest, next) && (c, name) !in m.indexes
    requires m' == m.(indexes := m.indexes[(c, name) := unique])
    ensures RowOk(r[Definition(c, name) := Defined(unique)], m', k)
  {
    var r' := r[Definition(c, name) := Defined(unique)];
    assert RowOk(r, m, k);
    if k != Definition(c, name) { assert Lookup(r', k) == Lookup(r, k); }
    if k.Guard? {
      assert k in r && Stale(m, k, r[k]) ==> Stale(m', k, r[k]);
      forall d ensures HasTerm(m', k.collection, d, k.term) == HasTerm(m, k.collection, d, k.term)
        ensures HasTerm(m, k.collection, d, k.term) ==>
          Unique(m', k.collection, k.term.index) == Unique(m, k.collection, k.term.index)
      {
        if k.collection == c && k.term.index == name { NoTermYet(m, digest, next, c, d, k.term); }
      }
    }
  }

  lemma IndexDefined(r: Rows, m: Model, digest: Bytes -> Bytes, next: nat, c: Bytes, name: Bytes, unique: bool)
    requires Holds(r, m, digest, next) && (c, name) !in m.indexes && ValidName(c) && ValidName(name)
    ensures Holds(r[Definition(c, name) := Defined(unique)], m.(indexes := m.indexes[(c, name) := unique]), digest,
      next)
  {
    var r' := r[Definition(c, name) := Defined(unique)];
    var m' := m.(indexes := m.indexes[(c, name) := unique]);
    forall id | id in m.objects ensures VersionOk(id, m.objects[id], m', digest, next) {
      assert VersionOk(id, m.objects[id], m, digest, next);
    }
    forall k ensures RowOk(r', m', k) { DefinedRow(r, m, m', digest, next, c, name, unique, k); }
    assert CounterOk(r', next);
  }

  lemma IndexAfterChunks(p: Put, r: Rows, chunked: Rows)
    requires RowsOk(r, p.m) && ChunksPut(r[Counter := Count(p.g)], chunked, p.id, p.g, PiecesOf(p.v))
    ensures IndexOk(chunked, p.m)
  {
    forall k | IsIndexRow(k) ensures RowOk(chunked, p.m, k) {
      assert RowOk(r, p.m, k);
      assert Lookup(chunked, k) == AfterChunks(r[Counter := Count(p.g)], p.id, p.g, PiecesOf(p.v), k);
    }
  }

  lemma UniqueAfterTrim(p: Put, chunked: Rows, trimmed: Rows)
    requires IndexOk(chunked, p.m) && (trimmed == chunked || Trimmed(chunked, trimmed, p.id.space, p.id.key))
    ensures forall name :: IsUnique(trimmed, p.id.space, name) == Unique(p.m, p.id.space, name)
  {
    forall name ensures IsUnique(trimmed, p.id.space, name) == Unique(p.m, p.id.space, name) {
      var k := Definition(p.id.space, name);
      assert RowOk(chunked, p.m, k);
      assert trimmed == chunked || TrimmedAt(chunked, trimmed, p.id.space, p.id.key, k);
    }
  }

  /** The counter row says nothing about objects. */
  lemma AfterCounter(r: Rows, m: Model, digest: Bytes -> Bytes, next: nat)
    requires Holds(r, m, digest, next)
    ensures RowsOk(r[Counter := Count(next + 1)], m) && ModelOk(m, digest, next + 1)
  {
    var r1 := r[Counter := Count(next + 1)];
    forall k ensures RowOk(r1, m, k) {
      assert RowOk(r, m, k);
      assert k != Counter ==> Lookup(r1, k) == Lookup(r, k);
    }
    forall id | id in m.objects ensures VersionOk(id, m.objects[id], m, digest, next + 1) {
      assert VersionOk(id, m.objects[id], m, digest, next);
    }
  }

  /** Before the chunks of the version before are cut, they are there. */
  lemma ChunksThere(p: Put, r: Rows, s: Stages, digest: Bytes -> Bytes, next: nat)
    requires PutPlanned(p, r, digest, next) && p.id.kind == Document && p.id in p.m.objects
    requires ChunksPut(r[Counter := Count(p.g)], s.chunked, p.id, p.g, PiecesOf(p.v))
    requires Trimmed(s.chunked, s.trimmed, p.id.space, p.id.key)
    requires TermsPut(s.trimmed, s.termed, p.id.space, p.id.key, p.g, p.v.terms)
    requires ReversePut(s.termed, s.reversed, p.id.space, p.id.key, p.g, ReverseTerms(p.v))
    requires s.last == s.reversed[Object(p.id) := MetaRow(p.v.meta)]
    ensures forall i :: 0 <= i < p.m.objects[p.id].meta.chunks ==>
      Chunk(p.id, p.m.objects[p.id].meta.generation, i) in s.last
  {
    PreviousChunks(p, r, s.chunked, digest, next);
    forall i | 0 <= i < p.m.objects[p.id].meta.chunks
      ensures Chunk(p.id, p.m.objects[p.id].meta.generation, i) in s.last
    {
      var k := Chunk(p.id, p.m.objects[p.id].meta.generation, i);
      assert k in s.chunked && TrimmedAt(s.chunked, s.trimmed, p.id.space, p.id.key, k);
      assert Lookup(s.termed, k) == AfterTerms(s.trimmed, p.id.space, p.id.key, p.g, p.v.terms, k);
      assert Lookup(s.reversed, k) == AfterReverse(s.termed, p.id.space, p.id.key, p.g, ReverseTerms(p.v), k);
    }
  }

  /** Guards name documents that can be looked up. */
  lemma OwnerNamed(rows: Rows, m: Model, digest: Bytes -> Bytes, next: nat, c: Bytes, t: Term)
    requires RowsOk(rows, m) && ModelOk(m, digest, next) && Guard(c, t) in rows && ValidName(c)
    ensures rows[Guard(c, t)].Owner? && ValidId(Doc(c, rows[Guard(c, t)].document))
  {
    assert RowOk(rows, m, Guard(c, t));
    if !Stale(m, Guard(c, t), rows[Guard(c, t)]) {
      assert VersionOk(Doc(c, rows[Guard(c, t)].document), m.objects[Doc(c, rows[Guard(c, t)].document)], m, digest,
        next);
    }
  }

  /** The rows of the first n ordinals are reclaimed. */
  ghost predicate Reclaiming(r: Rows, r': Rows, c: Bytes, d: Bytes, v: Version, n: nat) {
    && Trimmed(r, r', c, d)
    && (forall i :: 0 <= i < n ==> Reverse(c, d, i) !in r')
    && (forall i :: n <= i ==> Same(r, r', Reverse(c, d, i)))
    && (forall i :: 0 <= i < n && i < |ReverseTerms(v)| ==> Gone(r', c, d, v.meta.generation, ReverseTerms(v)[i]))
  }

  lemma ReclaimedOne(r: Rows, mid: Rows, last: Rows, r': Rows, c: Bytes, d: Bytes, v: Version, n: nat, row: Row)
    requires Reclaiming(r, mid, c, d, v, n) && Lookup(mid, Reverse(c, d, n)) == Some(row) && row.Termed?
    requires n < |ReverseTerms(v)| ==> row == Termed(v.meta.generation, ReverseTerms(v)[n])
    requires Trimmed(mid, last, c, d) && Gone(last, c, d, row.generation, row.term)
    requires forall k: RowKey :: k.Reverse? ==> Same(mid, last, k)
    requires r' == last - {Reverse(c, d, n)}
    ensures Trimmed(mid, r', c, d) && Reclaiming(r, r', c, d, v, n + 1)
  {
    OneRowLess(last, c, d, Reverse(c, d, n));
    TrimmedTwice(mid, last, r', c, d);
    TrimmedTwice(r, mid, r', c, d);
    GoneStays(last, r', c, d, row.generation, row.term);
    forall i | 0 <= i < n + 1 && i < |ReverseTerms(v)| ensures Gone(r', c, d, v.meta.generation, ReverseTerms(v)[i]) {
      if i < n { GoneStays(mid, r', c, d, v.meta.generation, ReverseTerms(v)[i]); }
    }
    forall i | n + 1 <= i ensures Same(r, r', Reverse(c, d, i)) {
      assert Same(r, mid, Reverse(c, d, i)) && Same(mid, last, Reverse(c, d, i));
    }
    forall i | 0 <= i < n + 1 ensures Reverse(c, d, i) !in r' {
      assert Same(mid, last, Reverse(c, d, i));
    }
  }

  lemma ReclaimedAll(r: Rows, r': Rows, c: Bytes, d: Bytes, v: Version, n: nat)
    requires Reclaiming(r, r', c, d, v, n) && |ReverseTerms(v)| <= n
    ensures forall t :: t in v.terms ==> Gone(r', c, d, v.meta.generation, t)
  {
    forall t | t in v.terms ensures Gone(r', c, d, v.meta.generation, t) {
      var i :| 0 <= i < |v.terms| && v.terms[i] == t;
      assert ReverseTerms(v)[i] == t;
    }
  }

  /** The chunks of the version before are still there. */
  lemma PreviousChunks(p: Put, r: Rows, b: Rows, digest: Bytes -> Bytes, next: nat)
    requires PutPlanned(p, r, digest, next) && p.id in p.m.objects
    requires ChunksPut(r[Counter := Count(p.g)], b, p.id, p.g, PiecesOf(p.v))
    ensures forall i :: 0 <= i < p.m.objects[p.id].meta.chunks ==>
      Chunk(p.id, p.m.objects[p.id].meta.generation, i) in b
  {
    MetaAt(r, p.m, digest, next, p.id);
    var g := p.m.objects[p.id].meta.generation;
    forall i | 0 <= i < p.m.objects[p.id].meta.chunks ensures Chunk(p.id, g, i) in b {
      assert VersionOk(p.id, p.m.objects[p.id], p.m, digest, next);
      assert Chunk(p.id, g, i) in r;
      assert Lookup(b, Chunk(p.id, g, i)) ==
        AfterChunks(r[Counter := Count(p.g)], p.id, p.g, PiecesOf(p.v), Chunk(p.id, g, i));
    }
  }

  lemma {:induction false} CeilWithin(n: nat, d: nat)
    requires d > 0
    ensures Ceil(n, d) <= n && (n > 0 ==> Ceil(n, d) > 0)
    decreases n
  {
    if n > d {
      CeilLess(n, d);
      CeilWithin(n - d, d);
    } else if n < d {
      Quotient(n, d, 0, n);
    } else {
      Quotient(n, d, 1, 0);
    }
  }
}
