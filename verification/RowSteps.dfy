/** What each step of an operation does to the rows, and that together they keep the rows in order. */
module RowSteps {
  import opened Common
  import opened Keys
  import opened Rows

  predicate Same(r: Rows, r': Rows, k: RowKey) { Lookup(r, k) == Lookup(r', k) }

  predicate IsChunk(k: RowKey, id: ObjectId, g: nat) { k.Chunk? && k.id == id && k.generation == g }

  function AfterChunks(r: Rows, id: ObjectId, g: nat, ps: seq<Bytes>, k: RowKey): Option<Row> {
    if IsChunk(k, id, g) && k.index < |ps| then Some(Piece(ps[k.index])) else Lookup(r, k)
  }

  ghost predicate ChunksPut(r: Rows, r': Rows, id: ObjectId, g: nat, ps: seq<Bytes>) {
    forall k :: Lookup(r', k) == AfterChunks(r, id, g, ps, k)
  }

  function AfterCut(r: Rows, id: ObjectId, g: nat, n: nat, k: RowKey): Option<Row> {
    if IsChunk(k, id, g) && k.index < n then None else Lookup(r, k)
  }

  ghost predicate ChunksCut(r: Rows, r': Rows, id: ObjectId, g: nat, n: nat) {
    forall k :: Lookup(r', k) == AfterCut(r, id, g, n, k)
  }

  lemma OneChunkMore(r: Rows, mid: Rows, id: ObjectId, g: nat, ps: seq<Bytes>, n: nat)
    requires n < |ps| && ChunksPut(r, mid, id, g, ps[..n])
    ensures ChunksPut(r, mid[Chunk(id, g, n) := Piece(ps[n])], id, g, ps[..n + 1])
  {
    var r' := mid[Chunk(id, g, n) := Piece(ps[n])];
    forall k ensures Lookup(r', k) == AfterChunks(r, id, g, ps[..n + 1], k) {
      assert Lookup(mid, k) == AfterChunks(r, id, g, ps[..n], k);
    }
  }

  lemma OneChunkLess(r: Rows, mid: Rows, id: ObjectId, g: nat, n: nat)
    requires ChunksCut(r, mid, id, g, n)
    ensures ChunksCut(r, mid - {Chunk(id, g, n)}, id, g, n + 1)
  {
    var r' := mid - {Chunk(id, g, n)};
    forall k ensures Lookup(r', k) == AfterCut(r, id, g, n + 1, k) {
      assert Lookup(mid, k) == AfterCut(r, id, g, n, k);
    }
  }

  predicate IsUnique(r: Rows, c: Bytes, name: Bytes) { Lookup(r, Definition(c, name)) == Some(Defined(true)) }

  function AfterTerms(r: Rows, c: Bytes, d: Bytes, g: nat, ts: seq<Term>, k: RowKey): Option<Row> {
    match k
    case Entry(c', t, d', g') => if c' == c && d' == d && g' == g && t in ts then Some(Empty) else Lookup(r, k)
    case Guard(c', t) => if c' == c && t in ts && IsUnique(r, c, t.index) then Some(Owner(g, d)) else Lookup(r, k)
    case _ => Lookup(r, k)
  }

  ghost predicate TermsPut(r: Rows, r': Rows, c: Bytes, d: Bytes, g: nat, ts: seq<Term>) {
    forall k :: Lookup(r', k) == AfterTerms(r, c, d, g, ts, k)
  }

  predicate IsReverse(k: RowKey, c: Bytes, d: Bytes) { k.Reverse? && k.collection == c && k.document == d }

  function AfterReverse(r: Rows, c: Bytes, d: Bytes, g: nat, ts: seq<Term>, k: RowKey): Option<Row> {
    if IsReverse(k, c, d) && k.ordinal < |ts| then Some(Termed(g, ts[k.ordinal])) else Lookup(r, k)
  }

  ghost predicate ReversePut(r: Rows, r': Rows, c: Bytes, d: Bytes, g: nat, ts: seq<Term>) {
    forall k :: Lookup(r', k) == AfterReverse(r, c, d, g, ts, k)
  }

  // ---------------------------------------------------------------- reclaiming

  predicate Owned(r: Rows, c: Bytes, t: Term, d: Bytes) {
    Guard(c, t) in r && r[Guard(c, t)].Owner? && r[Guard(c, t)].document == d
  }

  /** Index rows of the document d. */
  predicate Mine(r: Rows, k: RowKey, c: Bytes, d: Bytes) {
    match k
    case Reverse(c', d', _) => c' == c && d' == d
    case Entry(c', _, d', _) => c' == c && d' == d
    case Guard(c', t) => c' == c && Owned(r, c, t, d)
    case _ => false
  }

  predicate TrimmedAt(r: Rows, r': Rows, c: Bytes, d: Bytes, k: RowKey) {
    Same(r, r', k) || (k !in r' && Mine(r, k, c, d))
  }

  /** Only index rows of d are gone. */
  ghost predicate Trimmed(r: Rows, r': Rows, c: Bytes, d: Bytes) { forall k :: TrimmedAt(r, r', c, d, k) }

  /** Neither the entry nor, for a unique index, a guard of d for this term. */
  predicate Gone(r: Rows, c: Bytes, d: Bytes, g: nat, t: Term) {
    Entry(c, t, d, g) !in r && (IsUnique(r, c, t.index) ==> !Owned(r, c, t, d))
  }

  /** No reverse row, entry or guard of the version v is left. */
  ghost predicate IndexGone(r: Rows, c: Bytes, d: Bytes, v: Version) {
    && (forall i :: 0 <= i < |ReverseTerms(v)| ==> Reverse(c, d, i) !in r)
    && (forall t :: t in v.terms ==> Gone(r, c, d, v.meta.generation, t))
  }

  lemma TrimmedTwice(r: Rows, r': Rows, r'': Rows, c: Bytes, d: Bytes)
    requires Trimmed(r, r', c, d) && Trimmed(r', r'', c, d)
    ensures Trimmed(r, r'', c, d)
  {
    forall k ensures TrimmedAt(r, r'', c, d, k) {
      assert TrimmedAt(r, r', c, d, k) && TrimmedAt(r', r'', c, d, k);
    }
  }

  lemma GoneStays(r: Rows, r': Rows, c: Bytes, d: Bytes, g: nat, t: Term)
    requires Trimmed(r, r', c, d) && Gone(r, c, d, g, t)
    ensures Gone(r', c, d, g, t)
  {
    assert TrimmedAt(r, r', c, d, Entry(c, t, d, g));
    assert TrimmedAt(r, r', c, d, Guard(c, t));
    assert TrimmedAt(r, r', c, d, Definition(c, t.index));
  }

  ghost predicate IndexOk(r: Rows, m: Model) { forall k :: IsIndexRow(k) ==> RowOk(r, m, k) }

  /** Definitions and guards are what they are read as. */
  ghost predicate Typed(r: Rows) {
    forall k :: k in r ==> (k.Definition? ==> r[k].Defined?) && (k.Guard? ==> r[k].Owner?)
  }

  lemma IndexTyped(r: Rows, m: Model)
    requires IndexOk(r, m)
    ensures Typed(r)
  {
    forall k | k in r && (k.Definition? || k.Guard?)
      ensures (k.Definition? ==> r[k].Defined?) && (k.Guard? ==> r[k].Owner?)
    {
      assert RowOk(r, m, k);
    }
  }

  lemma TrimmedTyped(r: Rows, r': Rows, c: Bytes, d: Bytes)
    requires Trimmed(r, r', c, d) && Typed(r)
    ensures Typed(r')
  {
    forall k | k in r' ensures (k.Definition? ==> r'[k].Defined?) && (k.Guard? ==> r'[k].Owner?) {
      assert TrimmedAt(r, r', c, d, k);
    }
  }

  /** One row of the document's index rows less. */
  lemma OneRowLess(r: Rows, c: Bytes, d: Bytes, k: RowKey)
    requires Mine(r, k, c, d)
    ensures Trimmed(r, r - {k}, c, d)
  {
    forall k' ensures TrimmedAt(r, r - {k}, c, d, k') { }
  }

  lemma OneTermMore(r: Rows, mid: Rows, r': Rows, c: Bytes, d: Bytes, g: nat, ts: seq<Term>, n: nat)
    requires n < |ts| && TermsPut(r, mid, c, d, g, ts[..n])
    requires
      var entered := mid[Entry(c, ts[n], d, g) := Empty];
      r' == if IsUnique(mid, c, ts[n].index) then entered[Guard(c, ts[n]) := Owner(g, d)] else entered
    ensures TermsPut(r, r', c, d, g, ts[..n + 1])
  {
    assert Lookup(mid, Definition(c, ts[n].index)) == AfterTerms(r, c, d, g, ts[..n], Definition(c, ts[n].index));
    assert ts[..n + 1] == ts[..n] + [ts[n]];
    forall k ensures Lookup(r', k) == AfterTerms(r, c, d, g, ts[..n + 1], k) {
      assert Lookup(mid, k) == AfterTerms(r, c, d, g, ts[..n], k);
    }
  }

  lemma OneReverseMore(r: Rows, mid: Rows, c: Bytes, d: Bytes, g: nat, ts: seq<Term>, n: nat)
    requires n < |ts| && ReversePut(r, mid, c, d, g, ts[..n])
    ensures ReversePut(r, mid[Reverse(c, d, n) := Termed(g, ts[n])], c, d, g, ts[..n + 1])
  {
    var r' := mid[Reverse(c, d, n) := Termed(g, ts[n])];
    forall k ensures Lookup(r', k) == AfterReverse(r, c, d, g, ts[..n + 1], k) {
      assert Lookup(mid, k) == AfterReverse(r, c, d, g, ts[..n], k);
    }
  }

  predicate IsIndexRow(k: RowKey) { k.Definition? || k.Entry? || k.Guard? || k.Reverse? }

  // ---------------------------------------------------------------- a new version

  /** The rows before and after an object gets the version v. */
  datatype Put = Put(id: ObjectId, v: Version, g: nat, m: Model)

  function PutModel(p: Put): Model { p.m.(objects := p.m.objects[p.id := p.v]) }

  ghost predicate PutBegins(p: Put, r: Rows, next: nat) {
    && RowsOk(r, p.m) && Bounded(r, next) && next < p.g && p.v.meta.generation == p.g
  }

  /** Chunks: the new ones are written and the old ones are cut. */
  ghost predicate ChunksMoved(p: Put, r: Rows, r': Rows, k: RowKey) {
    Lookup(r', k) ==
      if IsChunk(k, p.id, p.g) && k.index < |PiecesOf(p.v)| then Some(Piece(PiecesOf(p.v)[k.index]))
      else if p.id in p.m.objects && IsChunk(k, p.id, p.m.objects[p.id].meta.generation)
        && k.index < |PiecesOf(p.m.objects[p.id])| then None
      else Lookup(r, k)
  }

  lemma ChunkKept(p: Put, r: Rows, r': Rows, next: nat, id: ObjectId, g: nat, i: nat)
    requires PutBegins(p, r, next) && ChunksMoved(p, r, r', Chunk(id, g, i))
    ensures RowOk(r', PutModel(p), Chunk(id, g, i))
  {
    assert RowOk(r, p.m, Chunk(id, g, i));
  }

  /** Entries: those of the old version are gone, those of the new one are written. */
  ghost predicate IndexMoved(p: Put, r: Rows, trimmed: Rows, r': Rows) {
    && p.id.kind == Document
    && (forall k :: IsIndexRow(k) ==> TrimmedAt(r, trimmed, p.id.space, p.id.key, k))
    && (p.id in p.m.objects ==> IndexGone(trimmed, p.id.space, p.id.key, p.m.objects[p.id]))
    && (forall k ::
          Lookup(r', k) == AfterReverse(trimmed, p.id.space, p.id.key, p.g, ReverseTerms(p.v), k) || !k.Reverse?)
    && (forall k ::
          || Lookup(r', k) == AfterTerms(trimmed, p.id.space, p.id.key, p.g, p.v.terms, k)
          || !(k.Entry? || k.Guard?))
  }

  lemma EntryKept(p: Put, r: Rows, trimmed: Rows, r': Rows, next: nat, c: Bytes, t: Term, d: Bytes, g: nat)
    requires PutBegins(p, r, next) && IndexMoved(p, r, trimmed, r')
    ensures RowOk(r', PutModel(p), Entry(c, t, d, g))
  {
    var k := Entry(c, t, d, g);
    assert RowOk(r, p.m, k);
    assert TrimmedAt(r, trimmed, p.id.space, p.id.key, k);
    assert Lookup(r', k) == AfterTerms(trimmed, p.id.space, p.id.key, p.g, p.v.terms, k);
    if Doc(c, d) == p.id && p.id in p.m.objects && g == p.m.objects[p.id].meta.generation
      && t in p.m.objects[p.id].terms {
      assert Gone(trimmed, c, d, g, t);
    }
  }

  lemma ReverseKept(p: Put, r: Rows, trimmed: Rows, r': Rows, next: nat, c: Bytes, d: Bytes, i: nat)
    requires PutBegins(p, r, next) && IndexMoved(p, r, trimmed, r')
    ensures RowOk(r', PutModel(p), Reverse(c, d, i))
  {
    var k := Reverse(c, d, i);
    assert RowOk(r, p.m, k);
    assert TrimmedAt(r, trimmed, p.id.space, p.id.key, k);
    assert Lookup(r', k) == AfterReverse(trimmed, p.id.space, p.id.key, p.g, ReverseTerms(p.v), k);
  }

  /** No other document holds a unique term of the new version. */
  ghost predicate NoConflict(m: Model, c: Bytes, d: Bytes, ts: seq<Term>) {
    forall t, d' :: t in ts && d' != d && HasTerm(m, c, d', t) ==> !Unique(m, c, t.index)
  }

  lemma GuardKept(p: Put, r: Rows, trimmed: Rows, r': Rows, next: nat, c: Bytes, t: Term)
    requires PutBegins(p, r, next) && IndexMoved(p, r, trimmed, r')
    requires NoConflict(p.m, p.id.space, p.id.key, p.v.terms)
    ensures RowOk(r', PutModel(p), Guard(c, t))
  {
    var k := Guard(c, t);
    assert RowOk(r, p.m, k) && RowOk(r, p.m, Definition(c, t.index));
    assert TrimmedAt(r, trimmed, p.id.space, p.id.key, k);
    assert TrimmedAt(r, trimmed, p.id.space, p.id.key, Definition(c, t.index));
    assert Lookup(r', k) == AfterTerms(trimmed, p.id.space, p.id.key, p.g, p.v.terms, k);
    if c == p.id.space && p.id in p.m.objects && t in p.m.objects[p.id].terms {
      assert Gone(trimmed, c, p.id.key, p.m.objects[p.id].meta.generation, t);
    }
  }

  /** The rows an object that is not a document does not touch. */
  lemma OthersKept(p: Put, r: Rows, r': Rows, next: nat, k: RowKey)
    requires PutBegins(p, r, next) && p.id.kind != Document
    requires IsIndexRow(k) && Same(r, r', k)
    ensures RowOk(r', PutModel(p), k)
  {
    assert RowOk(r, p.m, k);
    if k.Guard? {
      forall d ensures HasTerm(PutModel(p), k.collection, d, k.term) == HasTerm(p.m, k.collection, d, k.term) { }
    }
  }

  ghost predicate PutEnds(p: Put, r: Rows, trimmed: Rows, r': Rows) {
    && (forall k: RowKey :: k.Chunk? ==> ChunksMoved(p, r, r', k))
    && (forall k: RowKey :: k.Object? ==> Lookup(r', k) == if k.id == p.id then Some(MetaRow(p.v.meta))
      else Lookup(r, k))
    && (forall k: RowKey :: k.Definition? ==> Same(r, r', k))
    && if p.id.kind == Document
       then IndexMoved(p, r, trimmed, r') && NoConflict(p.m, p.id.space, p.id.key, p.v.terms)
       else forall k :: IsIndexRow(k) ==> Same(r, r', k)
  }

  lemma PutKept(p: Put, r: Rows, trimmed: Rows, r': Rows, next: nat)
    requires PutBegins(p, r, next) && PutEnds(p, r, trimmed, r')
    ensures RowsOk(r', PutModel(p))
  {
    forall k ensures RowOk(r', PutModel(p), k) {
      match k
      case Counter =>
      case Object(id) => assert RowOk(r, p.m, k);
      case Definition(c, n) => assert RowOk(r, p.m, k) && Same(r, r', k);
      case Chunk(id, g, i) => ChunkKept(p, r, r', next, id, g, i);
      case Entry(c, t, d, g) =>
        if p.id.kind == Document {
          EntryKept(p, r, trimmed, r', next, c, t, d, g);
        } else {
          OthersKept(p, r, r', next, k);
        }
      case Guard(c, t) =>
        if p.id.kind == Document { GuardKept(p, r, trimmed, r', next, c, t); } else { OthersKept(p, r, r', next, k); }
      case Reverse(c, d, i) =>
        if p.id.kind == Document {
          ReverseKept(p, r, trimmed, r', next, c, d, i);
        } else {
          OthersKept(p, r, r', next, k);
        }
    }
  }

  // ---------------------------------------------------------------- an object less

  function DropModel(m: Model, id: ObjectId): Model { m.(objects := m.objects - {id}) }

  ghost predicate DropEnds(m: Model, id: ObjectId, r: Rows, r': Rows)
    requires id in m.objects
  {
    var v := m.objects[id];
    && (forall k: RowKey :: k.Chunk? ==> Lookup(r', k) == AfterCut(r, id, v.meta.generation, |PiecesOf(v)|, k))
    && (forall k: RowKey :: k.Object? ==> Lookup(r', k) == if k.id == id then None else Lookup(r, k))
    && if id.kind == Document then
         (forall k :: IsIndexRow(k) ==> TrimmedAt(r, r', id.space, id.key, k)) && IndexGone(r', id.space, id.key, v)
       else forall k :: IsIndexRow(k) ==> Same(r, r', k)
  }

  lemma DropKeptAt(m: Model, id: ObjectId, r: Rows, r': Rows, k: RowKey)
    requires id in m.objects && RowsOk(r, m) && DropEnds(m, id, r, r')
    ensures RowOk(r', DropModel(m, id), k)
  {
    assert RowOk(r, m, k);
    if IsIndexRow(k) {
      assert id.kind == Document ==> TrimmedAt(r, r', id.space, id.key, k);
      if k.Entry? && Doc(k.collection, k.document) == id && k.generation == m.objects[id].meta.generation
        && k.term in m.objects[id].terms {
        assert Gone(r', id.space, id.key, k.generation, k.term);
      }
      if k.Guard? { DropGuard(m, id, r, r', k); }
    }
  }

  lemma DropGuard(m: Model, id: ObjectId, r: Rows, r': Rows, k: RowKey)
    requires id in m.objects && RowsOk(r, m) && DropEnds(m, id, r, r') && k.Guard?
    ensures RowOk(r', DropModel(m, id), k)
  {
    var definition := Definition(k.collection, k.term.index);
    assert RowOk(r, m, k) && RowOk(r, m, definition);
    if id.kind == Document {
      assert TrimmedAt(r, r', id.space, id.key, k) && TrimmedAt(r, r', id.space, id.key, definition);
      if k.collection == id.space && k.term in m.objects[id].terms {
        assert Gone(r', id.space, id.key, m.objects[id].meta.generation, k.term);
      }
    } else {
      assert Same(r, r', k);
    }
  }

  lemma DropKept(m: Model, id: ObjectId, r: Rows, r': Rows)
    requires id in m.objects && RowsOk(r, m) && DropEnds(m, id, r, r')
    ensures RowsOk(r', DropModel(m, id))
  {
    forall k ensures RowOk(r', DropModel(m, id), k) { DropKeptAt(m, id, r, r', k); }
  }
}
