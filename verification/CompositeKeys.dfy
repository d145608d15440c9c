/** How the rows' keys are laid out in bytes, and what that layout does to their order. */
module CompositeKeys {
  import opened Common
  import opened Keys
  import opened LittleEndian
  import opened Rows

  // ---------------------------------------------------------------- layouts

  function KindByte(kind: Kind): byte {
    match kind case Kv => 1 case Blob => 2 case Document => 3
  }

  /** Prefix, kind, length of the namespace, namespace, user key, suffix. */
  function PairKey(prefix: byte, kind: byte, space: Bytes, key: Bytes, suffix: Bytes): Bytes {
    [prefix, kind] + Le(|space|, 2) + space + key + suffix
  }

  /** Prefix, the three lengths, collection, index name, value, suffix. */
  function IndexKey(prefix: byte, c: Bytes, name: Bytes, value: Bytes, suffix: Bytes): Bytes {
    [prefix] + Le(|c|, 2) + Le(|name|, 2) + Le(|value|, 2) + c + name + value + suffix
  }

  function EntrySuffix(d: Bytes, g: nat): Bytes { Le(|d|, 2) + d + Le(g, 8) }

  function KeyBytes(k: RowKey): Bytes {
    match k
    case Counter => [0x10]
    case Object(id) => PairKey(0x40, KindByte(id.kind), id.space, id.key, [])
    case Chunk(id, g, i) => PairKey(0x41, KindByte(id.kind), id.space, id.key, Le(g, 8) + Le(i, 4))
    case Definition(c, n) => IndexKey(0x50, c, n, [], [])
    case Entry(c, t, d, g) => IndexKey(0x51, c, t.index, t.value, EntrySuffix(d, g))
    case Guard(c, t) => IndexKey(0x52, c, t.index, t.value, [])
    case Reverse(c, d, o) => PairKey(0x53, KindByte(Document), c, d, Le(o, 2))
  }

  lemma PairFields(prefix: byte, kind: byte, space: Bytes, key: Bytes, suffix: Bytes)
    requires |space| <= 0xFFFF
    ensures var b := PairKey(prefix, kind, space, key, suffix);
      && |b| == 4 + |space| + |key| + |suffix|
      && b[0] == prefix && b[1] == kind && FromLe(b[2..4]) == |space| && b[4..4 + |space|] == space
      && b[4 + |space|..|b| - |suffix|] == key && b[|b| - |suffix|..] == suffix
  {
    Widths();
    LeRoundTrip(|space|, 2);
    var b := PairKey(prefix, kind, space, key, suffix);
    assert b[2..4] == Le(|space|, 2);
  }

  lemma IndexFields(prefix: byte, c: Bytes, name: Bytes, value: Bytes, suffix: Bytes)
    requires |c| <= 0xFFFF && |name| <= 0xFFFF && |value| <= 0xFFFF
    ensures var b := IndexKey(prefix, c, name, value, suffix);
      var n := 7 + |c| + |name|;
      && |b| == n + |value| + |suffix|
      && b[0] == prefix && FromLe(b[1..3]) == |c| && FromLe(b[3..5]) == |name| && FromLe(b[5..7]) == |value|
      && b[7..7 + |c|] == c && b[7 + |c|..n] == name && b[n..n + |value|] == value && b[n + |value|..] == suffix
  {
    Widths();
    LeRoundTrip(|c|, 2);
    LeRoundTrip(|name|, 2);
    LeRoundTrip(|value|, 2);
    var b := IndexKey(prefix, c, name, value, suffix);
    assert b[1..3] == Le(|c|, 2) && b[3..5] == Le(|name|, 2) && b[5..7] == Le(|value|, 2);
  }

  lemma SuffixFields(d: Bytes, g: nat)
    requires |d| <= 0xFFFF && g <= MAX_GENERATION
    ensures var b := EntrySuffix(d, g);
      |b| == 10 + |d| && FromLe(b[..2]) == |d| && b[2..2 + |d|] == d && FromLe(b[2 + |d|..]) == g
  {
    Widths();
    LeRoundTrip(|d|, 2);
    LeRoundTrip(g, 8);
    var b := EntrySuffix(d, g);
    assert b[..2] == Le(|d|, 2) && b[2 + |d|..] == Le(g, 8);
  }

  // ---------------------------------------------------------------- one key, one row

  lemma PairInjective(prefix: byte, kind: byte, kind': byte, space: Bytes, space': Bytes, key: Bytes, key': Bytes,
                      suffix: Bytes, suffix': Bytes)
    requires |space| <= 0xFFFF && |space'| <= 0xFFFF && |suffix| == |suffix'|
    requires PairKey(prefix, kind, space, key, suffix) == PairKey(prefix, kind', space', key', suffix')
    ensures kind == kind' && space == space' && key == key' && suffix == suffix'
  {
    PairFields(prefix, kind, space, key, suffix);
    PairFields(prefix, kind', space', key', suffix');
  }

  lemma IndexInjective(prefix: byte, c: Bytes, c': Bytes, name: Bytes, name': Bytes, value: Bytes, value': Bytes,
                       suffix: Bytes, suffix': Bytes)
    requires |c| <= 0xFFFF && |name| <= 0xFFFF && |value| <= 0xFFFF && |c'| <= 0xFFFF && |name'| <= 0xFFFF
      && |value'| <= 0xFFFF
    requires IndexKey(prefix, c, name, value, suffix) == IndexKey(prefix, c', name', value', suffix')
    ensures c == c' && name == name' && value == value' && suffix == suffix'
  {
    IndexFields(prefix, c, name, value, suffix);
    IndexFields(prefix, c', name', value', suffix');
  }

  lemma KindInjective(a: Kind, b: Kind)
    requires KindByte(a) == KindByte(b)
    ensures a == b
  {
  }

  /** Different rows have different keys. */
  lemma KeysInjective(a: RowKey, b: RowKey)
    requires KeyOk(a) && KeyOk(b) && KeyBytes(a) == KeyBytes(b)
    ensures a == b
  {
    Lead(a);
    Lead(b);
    match (a, b)
    case (Counter, Counter) =>
    case (Object(x), Object(y)) =>
      PairInjective(0x40, KindByte(x.kind), KindByte(y.kind), x.space, y.space, x.key, y.key, [], []);
      KindInjective(x.kind, y.kind);
    case (Chunk(x, g, i), Chunk(y, h, j)) => ChunkInjective(x, g, i, y, h, j);
    case (Definition(c, n), Definition(c', n')) => IndexInjective(0x50, c, c', n, n', [], [], [], []);
    case (Entry(c, t, d, g), Entry(c', t', d', g')) =>
      IndexInjective(0x51, c, c', t.index, t'.index, t.value, t'.value, EntrySuffix(d, g), EntrySuffix(d', g'));
      SuffixFields(d, g);
      SuffixFields(d', g');
    case (Guard(c, t), Guard(c', t')) => IndexInjective(0x52, c, c', t.index, t'.index, t.value, t'.value, [], []);
    case (Reverse(c, d, o), Reverse(c', d', o')) =>
      PairInjective(0x53, KindByte(Document), KindByte(Document), c, c', d, d', Le(o, 2), Le(o', 2));
      Widths();
      NumberInjective(o, o', 2);
    case _ => assert false;
  }

  lemma ChunkInjective(x: ObjectId, g: nat, i: nat, y: ObjectId, h: nat, j: nat)
    requires KeyOk(Chunk(x, g, i)) && KeyOk(Chunk(y, h, j)) && KeyBytes(Chunk(x, g, i)) == KeyBytes(Chunk(y, h, j))
    ensures x == y && g == h && i == j
  {
    PairInjective(0x41, KindByte(x.kind), KindByte(y.kind), x.space, y.space, x.key, y.key, Le(g, 8) + Le(i, 4),
      Le(h, 8) + Le(j, 4));
    KindInjective(x.kind, y.kind);
    assert Le(g, 8) == (Le(g, 8) + Le(i, 4))[..8] && Le(h, 8) == (Le(h, 8) + Le(j, 4))[..8];
    assert Le(i, 4) == (Le(g, 8) + Le(i, 4))[8..] && Le(j, 4) == (Le(h, 8) + Le(j, 4))[8..];
    Widths();
    NumberInjective(g, h, 8);
    NumberInjective(i, j, 4);
  }

  /** The first byte tells the kind of row. */
  lemma Lead(k: RowKey)
    ensures |KeyBytes(k)| > 0
    ensures KeyBytes(k)[0] == match k
      case Counter => 0x10 case Object(_) => 0x40 case Chunk(_, _, _) => 0x41 case Definition(_, _) => 0x50
      case Entry(_, _, _, _) => 0x51 case Guard(_, _) => 0x52 case Reverse(_, _, _) => 0x53
  {
  }

  // ---------------------------------------------------------------- reading a key back

  datatype Pair = Pair(kind: Kind, space: Bytes, key: Bytes)

  function ParsePair(b: Bytes, suffixSize: nat): Result<Pair> {
    if |b| < 4 + suffixSize then Error(Corrupt)
    else
      var spaceSize := FromLe(b[2..4]);
      if spaceSize == 0 || spaceSize > MAX_NAME || spaceSize > |b| - 4 - suffixSize
        || !(1 <= b[1] <= 3) then Error(Corrupt)
      else
        var keySize := |b| - 4 - suffixSize - spaceSize;
        if keySize == 0 || keySize > MAX_NAME then Error(Corrupt)
        else
          var kind := if b[1] == 1 then Kv else if b[1] == 2 then Blob else Document;
          Value(Pair(kind, b[4..4 + spaceSize], b[4 + spaceSize..4 + spaceSize + keySize]))
  }

  lemma ParseOfPair(prefix: byte, kind: Kind, space: Bytes, key: Bytes, suffix: Bytes)
    requires ValidName(space) && ValidName(key)
    ensures ParsePair(PairKey(prefix, KindByte(kind), space, key, suffix), |suffix|) == Value(Pair(kind, space, key))
  {
    PairFields(prefix, KindByte(kind), space, key, suffix);
  }

  /** Only keys of the layout are read. */
  lemma PairOfParse(b: Bytes, suffixSize: nat)
    requires ParsePair(b, suffixSize).Value?
    ensures var p := ParsePair(b, suffixSize).value;
      ValidName(p.space) && ValidName(p.key)
        && b == PairKey(b[0], KindByte(p.kind), p.space, p.key, b[|b| - suffixSize..])
  {
    var p := ParsePair(b, suffixSize).value;
    FromLeRoundTrip(b[2..4]);
    assert b[2..4] == Le(|p.space|, 2);
    assert b ==
      [b[0], b[1]] + b[2..4] + b[4..4 + |p.space|] + b[4 + |p.space|..|b| - suffixSize] + b[|b| - suffixSize..];
  }

  // ---------------------------------------------------------------- the older layout

  /** The older layout has the length of the user key before the namespace. */
  function OldPairKey(prefix: byte, kind: byte, space: Bytes, key: Bytes, suffix: Bytes): Bytes {
    [prefix, kind] + Le(|space|, 2) + Le(|key|, 2) + space + key + suffix
  }

  function OldKeyBytes(k: RowKey): Bytes {
    match k
    case Object(id) => OldPairKey(0x40, KindByte(id.kind), id.space, id.key, [])
    case Chunk(id, g, i) => OldPairKey(0x41, KindByte(id.kind), id.space, id.key, Le(g, 8) + Le(i, 4))
    case _ => KeyBytes(k)
  }

  function RewritePair(b: Bytes, capacity: nat): Result<Bytes> {
    if |b| < 6 then Error(Corrupt)
    else
      var spaceSize, keySize := FromLe(b[2..4]), FromLe(b[4..6]);
      if spaceSize > |b| - 6 || keySize > |b| - 6 - spaceSize then Error(Corrupt)
      else if |b| - 2 > capacity then Error(BufferTooSmall)
      else
        var key, suffix := 6 + spaceSize, 6 + spaceSize + keySize;
        Value([b[0], b[1]] + Le(spaceSize, 2) + b[6..key] + b[key..suffix] + b[suffix..])
  }

  /** Object and chunk keys are rewritten, all others are copied. */
  function Rewrite(b: Bytes, capacity: nat): Result<Bytes> {
    if |b| != 0 && (b[0] == 0x40 || b[0] == 0x41) then RewritePair(b, capacity) else Value(b)
  }

  lemma RewriteOfOld(prefix: byte, kind: byte, space: Bytes, key: Bytes, suffix: Bytes, capacity: nat)
    requires |space| <= 0xFFFF && |key| <= 0xFFFF && 4 + |space| + |key| + |suffix| <= capacity
    ensures RewritePair(OldPairKey(prefix, kind, space, key, suffix), capacity) ==
      Value(PairKey(prefix, kind, space, key, suffix))
  {
    var b := OldPairKey(prefix, kind, space, key, suffix);
    Widths();
    LeRoundTrip(|space|, 2);
    LeRoundTrip(|key|, 2);
    assert b[2..4] == Le(|space|, 2) && b[4..6] == Le(|key|, 2);
    assert b[6..6 + |space|] == space && b[6 + |space|..6 + |space| + |key|] == key
      && b[6 + |space| + |key|..] == suffix;
  }

  /** The rewrite reads the same fields from the key that it writes. */
  lemma OldOfRewrite(b: Bytes, capacity: nat)
    requires RewritePair(b, capacity).Value?
    ensures exists space, key, suffix ::
      && b == OldPairKey(b[0], b[1], space, key, suffix)
      && RewritePair(b, capacity).value == PairKey(b[0], b[1], space, key, suffix)
  {
    var spaceSize, keySize := FromLe(b[2..4]), FromLe(b[4..6]);
    var space, key, suffix := b[6..6 + spaceSize], b[6 + spaceSize..6 + spaceSize + keySize],
      b[6 + spaceSize + keySize..];
    FromLeRoundTrip(b[2..4]);
    FromLeRoundTrip(b[4..6]);
    assert b == [b[0], b[1]] + b[2..4] + b[4..6] + space + key + suffix;
    assert b == OldPairKey(b[0], b[1], space, key, suffix);
    assert RewritePair(b, capacity).value == PairKey(b[0], b[1], space, key, suffix);
  }

  /** Every row of the older layout ends up under its key in the new one. */
  lemma RowsRewritten(k: RowKey, capacity: nat)
    requires KeyOk(k) && |KeyBytes(k)| <= capacity
    ensures Rewrite(OldKeyBytes(k), capacity) == Value(KeyBytes(k))
  {
    match k
    case Object(id) => RewriteOfOld(0x40, KindByte(id.kind), id.space, id.key, [], capacity);
    case Chunk(id, g, i) => RewriteOfOld(0x41, KindByte(id.kind), id.space, id.key, Le(g, 8) + Le(i, 4), capacity);
    case _ => Lead(k);
  }

  // ---------------------------------------------------------------- order

  /** The keys that start with p lie together. */
  lemma {:induction false} PrefixInterval(p: Bytes, a: Bytes, b: Bytes, c: Bytes)
    requires p <= a && p <= c && !Before(b, a) && !Before(c, b)
    ensures p <= b
  {
    if p != [] {
      assert a[0] == p[0] == c[0];
      RankIsOrder(a, b);
      RankIsOrder(b, c);
      assert p[1..] <= a[1..] && p[1..] <= c[1..];
      PrefixInterval(p[1..], a[1..], b[1..], c[1..]);
      assert p == [p[0]] + p[1..] && b == [b[0]] + b[1..];
    }
  }

  /** A string that starts with p is not before p. */
  lemma {:induction false} PrefixFirst(p: Bytes, a: Bytes)
    requires p <= a
    ensures !Before(a, p)
  {
    if p != [] {
      assert p[1..] <= a[1..];
      PrefixFirst(p[1..], a[1..]);
    }
  }

  lemma BehindPrefix(p: Bytes, a: Bytes, b: Bytes)
    ensures Before(p + a, p + b) == Before(a, b)
  {
    assert (p + a)[..|p|] == p == (p + b)[..|p|] && (p + a)[|p|..] == a && (p + b)[|p|..] == b;
    BeforeAfterPrefix(p + a, p + b, |p|);
  }

  /** The start of all object keys of one kind and namespace. */
  function SpaceKey(kind: Kind, space: Bytes): Bytes { [0x40, KindByte(kind)] + Le(|space|, 2) + space }

  predicate InSpace(k: RowKey, kind: Kind, space: Bytes) { k.Object? && k.id.kind == kind && k.id.space == space }

  lemma ObjectKeySplit(kind: Kind, space: Bytes, key: Bytes)
    ensures KeyBytes(Object(ObjectId(kind, space, key))) == SpaceKey(kind, space) + key
  {
    assert SpaceKey(kind, space) + key + [] == SpaceKey(kind, space) + key;
  }

  /** Within a kind and namespace, keys are in the order of the user keys. */
  lemma UserOrder(kind: Kind, space: Bytes, a: Bytes, b: Bytes)
    ensures Before(KeyBytes(Object(ObjectId(kind, space, a))), KeyBytes(Object(ObjectId(kind, space, b)))) ==
      Before(a, b)
  {
    ObjectKeySplit(kind, space, a);
    ObjectKeySplit(kind, space, b);
    BehindPrefix(SpaceKey(kind, space), a, b);
  }

  /** The keys with the start of a namespace are exactly the objects of that namespace. */
  lemma SpacePrefix(k: RowKey, kind: Kind, space: Bytes)
    requires KeyOk(k) && ValidName(space)
    ensures SpaceKey(kind, space) <= KeyBytes(k) <==> InSpace(k, kind, space)
  {
    Lead(k);
    var p, b := SpaceKey(kind, space), KeyBytes(k);
    if InSpace(k, kind, space) { ObjectKeySplit(kind, space, k.id.key); }
    if p <= b {
      assert b[0] == p[0] && b[1] == p[1];
      PairFields(0x40, KindByte(k.id.kind), k.id.space, k.id.key, []);
      assert b[2..4] == p[2..4] == Le(|space|, 2);
      Widths();
      LeRoundTrip(|space|, 2);
      assert b[4..4 + |space|] == p[4..] == space;
      KindInjective(kind, k.id.kind);
    }
  }

  function EntryKey(c: Bytes, t: Term): Bytes { IndexKey(0x51, c, t.index, t.value, []) }

  /** The keys with the start of a term are exactly the entries of that term. */
  lemma EntryPrefix(k: RowKey, c: Bytes, t: Term)
    requires KeyOk(k) && ValidName(c) && ValidName(t.index) && |t.value| <= MAX_NAME
    ensures EntryKey(c, t) <= KeyBytes(k) <==> k.Entry? && k.collection == c && k.term == t
  {
    Lead(k);
    var p, b := EntryKey(c, t), KeyBytes(k);
    if k.Entry? && k.collection == c && k.term == t { assert b == p + EntrySuffix(k.document, k.generation); }
    if p <= b {
      assert b[0] == p[0];
      IndexPrefix(0x51, c, k.collection, t.index, k.term.index, t.value, k.term.value,
        EntrySuffix(k.document, k.generation));
    }
  }

  lemma IndexPrefix(prefix: byte, c: Bytes, c': Bytes, name: Bytes, name': Bytes, value: Bytes, value': Bytes,
                    suffix: Bytes)
    requires |c| <= 0xFFFF && |name| <= 0xFFFF && |value| <= 0xFFFF && |c'| <= 0xFFFF && |name'| <= 0xFFFF
      && |value'| <= 0xFFFF
    requires IndexKey(prefix, c, name, value, []) <= IndexKey(prefix, c', name', value', suffix)
    ensures c == c' && name == name' && value == value'
  {
    var p, b := IndexKey(prefix, c, name, value, []), IndexKey(prefix, c', name', value', suffix);
    IndexFields(prefix, c, name, value, []);
    IndexFields(prefix, c', name', value', suffix);
    SameHeader(p, b);
    var n := 7 + |c| + |name|;
    assert b[..|p|] == p && p[7..7 + |c|] == b[7..7 + |c|] && p[7 + |c|..n] == b[7 + |c|..n] && p[n..] == b[n..|p|];
  }

  lemma SameHeader(p: Bytes, b: Bytes)
    requires p <= b && |p| >= 7
    ensures p[1..3] == b[1..3] && p[3..5] == b[3..5] && p[5..7] == b[5..7]
  {
  }
}
