/** Reading an object back from its rows. */
module Reads {
  import opened Common
  import opened Keys
  import opened Rows

  function Gather(rows: Rows, id: ObjectId, meta: Meta, i: nat, produced: Bytes, capacity: nat): Result<Bytes>
    requires i <= meta.chunks
    decreases meta.chunks - i
  {
    if i == meta.chunks then (if |produced| != meta.total then Error(Corrupt) else Value(produced))
    else
      match Lookup(rows, Chunk(id, meta.generation, i))
      case None => Error(NotFound)
      case Some(Piece(b)) =>
        if |produced| + |b| > capacity then Error(BufferTooSmall)
        else if b == [] || |b| > meta.chunkSize || |produced| + |b| > meta.total then Error(Corrupt)
        else Gather(rows, id, meta, i + 1, produced + b, capacity)
      case Some(_) => Error(Corrupt)
  }

  /** What a get answers, for any rows. */
  function GetResult(rows: Rows, id: ObjectId, capacity: nat, digest: Bytes -> Bytes): Result<Bytes> {
    match ReadMeta(rows, id)
    case Error(st) => Error(st)
    case Value(meta) =>
      if capacity < meta.total then Error(BufferTooSmall)
      else
        match Gather(rows, id, meta, 0, [], capacity)
        case Error(st) => Error(st)
        case Value(b) => if digest(b) == meta.digest then Value(b) else Error(Corrupt)
  }

  method ObjectGet(rows: Rows, id: ObjectId, capacity: nat, digest: Bytes -> Bytes) returns (r: Result<Bytes>)
    ensures r == GetResult(rows, id, capacity, digest)
  {
    var read := ReadMeta(rows, id);
    if read.Error? { return Error(read.status); }
    var meta := read.value;
    if capacity < meta.total { return Error(BufferTooSmall); }
    var output: Bytes := [];
    var index := 0;
    while index < meta.chunks
      invariant 0 <= index <= meta.chunks && |output| <= meta.total
      invariant Gather(rows, id, meta, 0, [], capacity) == Gather(rows, id, meta, index, output, capacity)
    {
      var k := Chunk(id, meta.generation, index);
      if k !in rows { return Error(NotFound); }
      if !rows[k].Piece? { return Error(Corrupt); }
      var chunk := rows[k].bytes;
      if |chunk| > capacity - |output| { return Error(BufferTooSmall); }
      if |chunk| == 0 || |chunk| > meta.chunkSize || |output| > meta.total - |chunk| { return Error(Corrupt); }
      output := output + chunk;
      index := index + 1;
    }
    if |output| != meta.total || digest(output) != meta.digest { return Error(Corrupt); }
    return Value(output);
  }

  /** The chunks that are still to come complete the bytes. */
  lemma {:induction false} GatherRest(rows: Rows, m: Model, id: ObjectId, i: nat, produced: Bytes, capacity: nat)
    requires RowsOk(rows, m) && id in m.objects
    requires var v := m.objects[id];
      && MetaOk(v.meta, id.kind) && v.meta.total == |v.bytes| <= capacity && v.meta.chunks == |PiecesOf(v)|
      && i <= v.meta.chunks && produced + Joined(PiecesOf(v)[i..]) == v.bytes
      && forall j :: 0 <= j < |PiecesOf(v)| ==> 1 <= |PiecesOf(v)[j]| <= v.meta.chunkSize
    ensures Gather(rows, id, m.objects[id].meta, i, produced, capacity) == Value(m.objects[id].bytes)
    decreases m.objects[id].meta.chunks - i
  {
    var v := m.objects[id];
    var ps := PiecesOf(v);
    if i < v.meta.chunks {
      assert RowOk(rows, m, Chunk(id, v.meta.generation, i));
      assert Joined(ps[i..]) == ps[i] + Joined(ps[i + 1..]) by { assert ps[i..][1..] == ps[i + 1..]; }
      assert produced + ps[i] + Joined(ps[i + 1..]) == v.bytes;
      GatherRest(rows, m, id, i + 1, produced + ps[i], capacity);
    } else {
      assert ps[i..] == [] && produced + [] == produced;
    }
  }

  /** A get returns the bytes of the current version. */
  lemma GetReturns(rows: Rows, m: Model, digest: Bytes -> Bytes, next: nat, id: ObjectId, capacity: nat)
    requires RowsOk(rows, m) && ModelOk(m, digest, next)
    ensures GetResult(rows, id, capacity, digest) ==
      if !ValidId(id) then Error(InvalidArgument)
      else if id !in m.objects then Error(NotFound)
      else if capacity < |m.objects[id].bytes| then Error(BufferTooSmall)
      else Value(m.objects[id].bytes)
  {
    assert RowOk(rows, m, Object(id));
    if id in m.objects {
      var v := m.objects[id];
      assert VersionOk(id, v, m, digest, next);
      PiecesJoin(v.bytes, v.meta.chunkSize);
      assert PiecesOf(v)[0..] == PiecesOf(v) && [] + v.bytes == v.bytes;
      if |v.bytes| <= capacity { GatherRest(rows, m, id, 0, [], capacity); }
    }
  }

  /** Whether a document may take a unique term, for any rows. */
  function GuardOutcome(rows: Rows, c: Bytes, t: Term, d: Bytes): Status {
    if Guard(c, t) !in rows then Ok
    else
      match rows[Guard(c, t)]
      case Owner(g, owner) =>
        if owner == d then Ok
        else (
          match ReadMeta(rows, Doc(c, owner))
          case Error(st) => if st == NotFound then Ok else st
          case Value(meta) => if meta.generation == g then Conflict else Ok)
      case _ => Corrupt
  }
}
