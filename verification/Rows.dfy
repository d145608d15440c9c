/** The rows of the engine: what it keeps in one ordered map, and what they stand for. */
module Rows {
  import opened Common
  import opened Keys

  const MAX_NAME := 1024
  const MAX_GENERATION := 0xFFFF_FFFF_FFFF_FFFF
  const MAX_SIZE := 0xFFFF_FFFF_FFFF_FFFF
  const MAX_CHUNKS := 0xFFFF_FFFF
  const MAX_TERMS := 0xFFFF
  const CHUNK_TARGET := 2048

  datatype Result<T> = Value(value: T) | Error(status: Status)

  datatype Kind = Kv | Blob | Document

  datatype ObjectId = ObjectId(kind: Kind, space: Bytes, key: Bytes)

  datatype Term = Term(index: Bytes, value: Bytes)

  datatype Meta = Meta(kind: Kind, generation: nat, total: nat, chunks: nat, chunkSize: nat, digest: Bytes)

  datatype RowKey =
    | Counter
    | Object(id: ObjectId)
    | Chunk(id: ObjectId, generation: nat, index: nat)
    | Definition(collection: Bytes, name: Bytes)
    | Entry(collection: Bytes, term: Term, document: Bytes, generation: nat)
    | Guard(collection: Bytes, term: Term)
    | Reverse(collection: Bytes, document: Bytes, ordinal: nat)

  datatype Row =
    | Count(count: nat)
    | MetaRow(meta: Meta)
    | Piece(bytes: Bytes)
    | Defined(unique: bool)
    | Empty
    | Owner(generation: nat, document: Bytes)
    | Termed(generation: nat, term: Term)

  type Rows = map<RowKey, Row>

  predicate ValidName(b: Bytes) { 1 <= |b| <= MAX_NAME }

  predicate ValidId(id: ObjectId) { ValidName(id.space) && ValidName(id.key) }

  predicate ValidTerm(t: Term) { ValidName(t.index) && ValidName(t.value) }

  function Doc(collection: Bytes, document: Bytes): ObjectId { ObjectId(Document, collection, document) }

  function Lookup(rows: Rows, k: RowKey): Option<Row> { if k in rows then Some(rows[k]) else None }

  function Ceil(n: nat, d: nat): nat
    requires d > 0
  { n / d + if n % d != 0 then 1 else 0 }

  /** What decoding metadata accepts. */
  predicate MetaOk(meta: Meta, kind: Kind) {
    && meta.kind == kind
    && meta.generation != 0
    && meta.chunkSize <= CHUNK_TARGET
    && (meta.total == 0 ==> meta.chunks == 0 && meta.chunkSize == 0)
    && (meta.total != 0 ==> meta.chunks != 0 && meta.chunkSize != 0)
    && (meta.chunks != 0 ==> meta.chunkSize != 0 && Ceil(meta.total, meta.chunkSize) == meta.chunks)
  }

  function ReadMeta(rows: Rows, id: ObjectId): Result<Meta> {
    if !ValidId(id) then Error(InvalidArgument)
    else if Object(id) !in rows then Error(NotFound)
    else
      match rows[Object(id)]
      case MetaRow(meta) => if MetaOk(meta, id.kind) then Value(meta) else Error(Corrupt)
      case _ => Error(Corrupt)
  }

  // ---------------------------------------------------------------- chunks

  /** The bytes of an object in chunks of the given size. */
  function Pieces(b: Bytes, size: nat): seq<Bytes>
    requires b != [] ==> size > 0
  {
    if b == [] then []
    else if |b| <= size then [b]
    else [b[..size]] + Pieces(b[size..], size)
  }

  function Joined(ps: seq<Bytes>): Bytes { if ps == [] then [] else ps[0] + Joined(ps[1..]) }

  lemma {:induction false} PiecesJoin(b: Bytes, size: nat)
    requires b != [] ==> size > 0
    ensures Joined(Pieces(b, size)) == b
    ensures forall i :: 0 <= i < |Pieces(b, size)| ==> 1 <= |Pieces(b, size)[i]| <= size
  {
    if b == [] {
    } else if |b| <= size {
      assert [b][1..] == [];
    } else {
      PiecesJoin(b[size..], size);
      assert Pieces(b, size)[1..] == Pieces(b[size..], size);
    }
  }

  lemma {:induction false} Gap(a: nat, b: nat, d: nat)
    requires a < b
    ensures a * d + d <= b * d
  {
    assert b * d == (b - 1) * d + d;
    if a + 1 < b { Gap(a, b - 1, d); }
  }

  lemma Quotient(n: nat, d: nat, q: nat, r: nat)
    requires n == q * d + r && r < d
    ensures n / d == q && n % d == r
  {
    var p := n / d;
    assert n == p * d + n % d;
    if p < q { Gap(p, q, d); }
    if q < p { Gap(q, p, d); }
  }

  lemma CeilLess(n: nat, d: nat)
    requires d > 0 && n > d
    ensures Ceil(n, d) == 1 + Ceil(n - d, d)
  {
    var q, r := (n - d) / d, (n - d) % d;
    assert n == (q + 1) * d + r;
    Quotient(n, d, q + 1, r);
  }

  lemma {:induction false} PieceCount(b: Bytes, size: nat)
    requires size > 0
    ensures |Pieces(b, size)| == Ceil(|b|, size)
  {
    if b == [] {
    } else if |b| <= size {
      assert |b| < size ==> |b| / size == 0 && |b| % size == |b|;
      assert |b| == size ==> |b| / size == 1 && |b| % size == 0;
    } else {
      PieceCount(b[size..], size);
      CeilLess(|b|, size);
    }
  }

  // ---------------------------------------------------------------- what the rows stand for

  /** The current version of an object. */
  datatype Version = Version(meta: Meta, bytes: Bytes, terms: seq<Term>)

  /**
   * The objects and the indexes. A clean store holds no row of a version that is not the current one.
   */
  datatype Model = Model(objects: map<ObjectId, Version>, indexes: map<(Bytes, Bytes), bool>, clean: bool)

  function MARKER(): Term { Term([255], [255]) }

  /** One reverse row per term; a document without terms has a marker. */
  function ReverseTerms(v: Version): seq<Term> { if v.terms == [] then [MARKER()] else v.terms }

  predicate Current(m: Model, id: ObjectId, g: nat) { id in m.objects && m.objects[id].meta.generation == g }

  predicate Unique(m: Model, collection: Bytes, name: Bytes) {
    (collection, name) in m.indexes && m.indexes[(collection, name)]
  }

  predicate HasTerm(m: Model, collection: Bytes, document: Bytes, t: Term) {
    Doc(collection, document) in m.objects && t in m.objects[Doc(collection, document)].terms
  }

  ghost predicate VersionOk(id: ObjectId, v: Version, m: Model, digest: Bytes -> Bytes, bound: nat) {
    && ValidId(id) && MetaOk(v.meta, id.kind) && v.meta.generation <= bound
    && v.meta.total == |v.bytes| && v.meta.digest == digest(v.bytes)
    && v.meta.chunks == |PiecesOf(v)| <= MAX_CHUNKS
    && |v.terms| <= MAX_TERMS
    && (id.kind != Document ==> v.terms == [])
    && forall i :: 0 <= i < |v.terms| ==> ValidTerm(v.terms[i]) && (id.space, v.terms[i].index) in m.indexes
  }

  ghost predicate ModelOk(m: Model, digest: Bytes -> Bytes, bound: nat) {
    forall id {:trigger VersionOk(id, m.objects[id], m, digest, bound)} :: id in m.objects ==>
      VersionOk(id, m.objects[id], m, digest, bound)
  }

  /** A row that no current version accounts for. */
  ghost predicate Stale(m: Model, k: RowKey, row: Row) {
    && !m.clean
    && match k
       case Chunk(id, g, _) => row.Piece? && row.bytes != [] && g > 0 && !Current(m, id, g)
       case Entry(c, t, d, g) => row.Empty? && g > 0 && ValidName(d) && !Current(m, Doc(c, d), g)
       case Guard(c, t) => row.Owner? && row.generation > 0 && ValidName(row.document)
         && !Current(m, Doc(c, row.document), row.generation)
       case Reverse(c, d, _) => row.Termed? && row.generation > 0 && ValidTerm(row.term)
         && !Current(m, Doc(c, d), row.generation)
       case _ => false
  }

  /** What the row of k must be, if there is to be one. */
  ghost predicate RowOk(rows: Rows, m: Model, k: RowKey) {
    match k
    case Counter => true
    case Object(id) => Lookup(rows, k) == if id in m.objects then Some(MetaRow(m.objects[id].meta)) else None
    case Definition(c, n) => Lookup(rows, k) == if (c, n) in m.indexes then Some(Defined(m.indexes[(c, n)])) else None
    case Chunk(id, g, i) =>
      if Current(m, id, g)
        && i < |PiecesOf(m.objects[id])| then Lookup(rows, k) == Some(Piece(PiecesOf(m.objects[id])[i]))
      else k in rows ==> Stale(m, k, rows[k])
    case Entry(c, t, d, g) =>
      if Current(m, Doc(c, d), g) && HasTerm(m, c, d, t) then Lookup(rows, k) == Some(Empty)
      else k in rows ==> Stale(m, k, rows[k])
    case Reverse(c, d, i) =>
      if Doc(c, d) in m.objects && i < |ReverseTerms(m.objects[Doc(c, d)])|
      then Lookup(rows, k) == Some(Termed(m.objects[Doc(c, d)].meta.generation, ReverseTerms(m.objects[Doc(c, d)])[i]))
      else k in rows ==> Stale(m, k, rows[k])
    case Guard(c, t) =>
      && (forall d :: HasTerm(m, c, d, t) && Unique(m, c, t.index) ==>
        Lookup(rows, k) == Some(Owner(m.objects[Doc(c, d)].meta.generation, d)))
      && (k in rows ==> Stale(m, k, rows[k]) || LiveGuard(m, c, t, rows[k]))
  }

  ghost predicate LiveGuard(m: Model, c: Bytes, t: Term, row: Row) {
    row.Owner? && Unique(m, c, t.index) && HasTerm(m, c, row.document, t)
      && Current(m, Doc(c, row.document), row.generation)
  }

  function PiecesOf(v: Version): seq<Bytes> {
    if v.bytes != [] && v.meta.chunkSize == 0 then [] else Pieces(v.bytes, v.meta.chunkSize)
  }

  ghost predicate RowsOk(rows: Rows, m: Model) { forall k :: RowOk(rows, m, k) }

  // ---------------------------------------------------------------- generations

  /** The generation stamped on a row; 0 for rows that carry none. */
  function RowGeneration(k: RowKey, row: Row): nat {
    match k
    case Object(_) => if row.MetaRow? then row.meta.generation else 0
    case Chunk(_, g, _) => g
    case Entry(_, _, _, g) => g
    case Guard(_, _) => if row.Owner? then row.generation else 0
    case Reverse(_, _, _) => if row.Termed? then row.generation else 0
    case _ => 0
  }

  /** What the encoding of a key has room for. */
  predicate KeyOk(k: RowKey) {
    match k
    case Counter => true
    case Object(id) => ValidId(id)
    case Chunk(id, g, i) => ValidId(id) && g <= MAX_GENERATION && i <= MAX_CHUNKS
    case Definition(c, n) => ValidName(c) && ValidName(n)
    case Entry(c, t, d, g) => ValidName(c) && ValidTerm(t) && ValidName(d) && g <= MAX_GENERATION
    case Guard(c, t) => ValidName(c) && ValidTerm(t)
    case Reverse(c, d, o) => ValidName(c) && ValidName(d) && o <= MAX_TERMS
  }

  ghost predicate Bounded(rows: Rows, bound: nat) {
    forall k :: k in rows ==> KeyOk(k) && RowGeneration(k, rows[k]) <= bound
  }

  /** No row has a generation above the counter, in the store or in memory. */
  ghost predicate CounterOk(rows: Rows, next: nat) {
    && Bounded(rows, next) && next <= MAX_GENERATION
    && (Counter in rows ==> rows[Counter].Count? && rows[Counter].count <= next && Bounded(rows, rows[Counter].count))
  }
}
