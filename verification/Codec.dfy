/** Nodes as page payloads. */
module Codec {
  import opened Common
  import opened Keys
  import opened LittleEndian
  import opened Nodes

  const PAGES := 0x1_0000_0000_0000_0000

  function MAGIC(): Bytes { [0x53, 0x42, 0x54, 0x31] }

  function KindNumber(kind: Kind): nat { if kind == Leaf then 1 else 2 }

  function Link(n: Node): int { if n.kind == Leaf then n.next else n.first }

  predicate EntryFits(kind: Kind, e: Entry) { EntryValid(kind, e) && 0 <= e.right < PAGES }

  /** A node whose fields have the widths of the format. */
  predicate Encodable(n: Node) {
    NodeValid(n) && 0 <= Link(n) < PAGES && forall i :: 0 <= i < |n.entries| ==> EntryFits(n.kind, n.entries[i])
  }

  // ---------------------------------------------------------------- the format

  function EntryBytes(kind: Kind, e: Entry): Bytes
    requires e.right >= 0
  {
    if kind == Leaf then Le(|e.key|, W16) + Le(|e.value|, W32) + e.key + e.value
    else Le(|e.key|, W16) + Le(0, W16) + Le(e.right, W64) + e.key
  }

  function EntriesBytes(kind: Kind, es: seq<Entry>): Bytes
    requires forall i :: 0 <= i < |es| ==> es[i].right >= 0
  {
    if es == [] then [] else EntriesBytes(kind, es[..|es| - 1]) + EntryBytes(kind, es[|es| - 1])
  }

  function HeaderBytes(kind: Kind, count: nat, link: nat): Bytes {
    MAGIC() + Le(KindNumber(kind), W16) + Le(count, W16) + Le(0, W32) + Le(link, W64)
  }

  function Encoded(n: Node): Bytes
    requires Encodable(n)
  { HeaderBytes(n.kind, |n.entries|, Link(n)) + EntriesBytes(n.kind, n.entries) }

  /** The first entry of b and how long it is. */
  function ParseEntry(kind: Kind, b: Bytes): Option<(Entry, nat)> {
    var fixed := if kind == Leaf then 6 else 12;
    if |b| < fixed then None
    else
      var keySize := FromLe(b[..2]);
      var valueSize := if kind == Leaf then FromLe(b[2..6]) else 0;
      if keySize == 0 || (kind == Internal && FromLe(b[2..4]) != 0) || keySize + valueSize > |b| - fixed then None
      else
        var right := if kind == Leaf then 0 else FromLe(b[4..12]);
        if kind == Internal && right == 0 then None
        else
          var key := b[fixed..fixed + keySize];
          var end := fixed + keySize + valueSize;
          Some((Entry(key, b[fixed + keySize..end], right), end))
  }

  lemma ParsedWithin(kind: Kind, b: Bytes)
    requires ParseEntry(kind, b).Some?
    ensures 0 < ParseEntry(kind, b).value.1 <= |b|
  {
  }

  function ParseEntries(kind: Kind, count: nat, b: Bytes): Option<seq<Entry>> {
    if count == 0 then (if b == [] then Some([]) else None)
    else
      match ParseEntry(kind, b)
      case None => None
      case Some((e, size)) =>
        if size > |b| then None
        else
          match ParseEntries(kind, count - 1, b[size..])
          case None => None
          case Some(es) => Some([e] + es)
  }

  function MinimumSize(kind: Kind): nat { if kind == Leaf then 7 else 13 }

  /** What decoding a payload answers. */
  function Decoded(b: Bytes): (Status, Option<Node>) {
    if |b| < HEADER_SIZE then (InvalidArgument, None)
    else if b[..4] != MAGIC() then (BadMagic, None)
    else
      var number, count, link := FromLe(b[4..6]), FromLe(b[6..8]), FromLe(b[12..20]);
      if !(1 <= number <= 2) || FromLe(b[8..12]) != 0 then (Corrupt, None)
      else
        var kind := if number == 1 then Leaf else Internal;
        if kind == Internal && link == 0 then (Corrupt, None)
        else if count > (|b| - HEADER_SIZE) / MinimumSize(kind) then (Corrupt, None)
        else
          match ParseEntries(kind, count, b[HEADER_SIZE..])
          case None => (Corrupt, None)
          case Some(es) =>
            if !Ascending(es) then (Corrupt, None)
            else (Ok, Some(if kind == Leaf then Node(Leaf, link, 0, es) else Node(Internal, 0, link, es)))
  }

  // ---------------------------------------------------------------- entries

  lemma ParseOfEntry(kind: Kind, e: Entry, rest: Bytes)
    requires EntryFits(kind, e)
    ensures ParseEntry(kind, EntryBytes(kind, e) + rest) == Some((e, |EntryBytes(kind, e)|))
  {
    var b := EntryBytes(kind, e) + rest;
    Widths();
    LeRoundTrip(|e.key|, W16);
    assert b[..2] == Le(|e.key|, W16);
    if kind == Leaf {
      LeRoundTrip(|e.value|, W32);
      assert b[2..6] == Le(|e.value|, W32);
      assert b[6..6 + |e.key|] == e.key && b[6 + |e.key|..6 + |e.key| + |e.value|] == e.value;
    } else {
      LeRoundTrip(0, W16);
      LeRoundTrip(e.right, W64);
      assert b[2..4] == Le(0, W16) && b[4..12] == Le(e.right, W64) && b[12..12 + |e.key|] == e.key;
      assert b[12 + |e.key|..12 + |e.key|] == [];
    }
  }

  lemma LeafOfParse(b: Bytes)
    requires ParseEntry(Leaf, b).Some?
    ensures var (e, size) := ParseEntry(Leaf, b).value;
      EntryFits(Leaf, e) && 0 < size <= |b| && b[..size] == EntryBytes(Leaf, e)
  {
    var (e, size) := ParseEntry(Leaf, b).value;
    Widths();
    FromLeRoundTrip(b[..2]);
    FromLeRoundTrip(b[2..6]);
    assert b[..size] == b[..2] + b[2..6] + b[6..6 + |e.key|] + b[6 + |e.key|..size];
  }

  lemma InnerOfParse(b: Bytes)
    requires ParseEntry(Internal, b).Some?
    ensures var (e, size) := ParseEntry(Internal, b).value;
      EntryFits(Internal, e) && 0 < size <= |b| && b[..size] == EntryBytes(Internal, e)
  {
    var (e, size) := ParseEntry(Internal, b).value;
    Widths();
    FromLeRoundTrip(b[..2]);
    FromLeRoundTrip(b[2..4]);
    FromLeRoundTrip(b[4..12]);
    assert b[..size] == b[..2] + b[2..4] + b[4..12] + b[12..12 + |e.key|];
  }

  lemma EntryOfParse(kind: Kind, b: Bytes)
    requires ParseEntry(kind, b).Some?
    ensures var (e, size) := ParseEntry(kind, b).value;
      EntryFits(kind, e) && 0 < size <= |b| && b[..size] == EntryBytes(kind, e)
  {
    if kind == Leaf { LeafOfParse(b); } else { InnerOfParse(b); }
  }

  ghost predicate AllFit(kind: Kind, es: seq<Entry>) { forall i :: 0 <= i < |es| ==> EntryFits(kind, es[i]) }

  lemma EntriesAppend(kind: Kind, es: seq<Entry>, e: Entry)
    requires AllFit(kind, es) && EntryFits(kind, e)
    ensures AllFit(kind, es + [e]) && EntriesBytes(kind, es + [e]) == EntriesBytes(kind, es) + EntryBytes(kind, e)
  {
    assert (es + [e])[..|es|] == es;
  }

  lemma Regroup(a: Bytes, b: Bytes, c: Bytes)
    ensures a + b + c == a + (b + c)
  {
  }

  lemma {:induction false} EntriesCat(kind: Kind, a: seq<Entry>, b: seq<Entry>)
    requires AllFit(kind, a) && AllFit(kind, b)
    ensures AllFit(kind, a + b) && EntriesBytes(kind, a + b) == EntriesBytes(kind, a) + EntriesBytes(kind, b)
  {
    if b == [] {
      assert a + b == a && EntriesBytes(kind, a) + [] == EntriesBytes(kind, a);
    } else {
      var n := |b| - 1;
      EntriesCat(kind, a, b[..n]);
      FrontOf(a, b);
      Regroup(EntriesBytes(kind, a), EntriesBytes(kind, b[..n]), EntryBytes(kind, b[n]));
    }
  }

  lemma FrontOf<T>(a: seq<T>, b: seq<T>)
    requires b != []
    ensures (a + b)[..|a + b| - 1] == a + b[..|b| - 1] && (a + b)[|a + b| - 1] == b[|b| - 1]
  {
  }

  lemma EntriesFirst(kind: Kind, e: Entry, es: seq<Entry>)
    requires EntryFits(kind, e) && AllFit(kind, es)
    ensures AllFit(kind, [e] + es) && EntriesBytes(kind, [e] + es) == EntryBytes(kind, e) + EntriesBytes(kind, es)
  {
    EntriesOne(kind, e);
    EntriesCat(kind, [e], es);
  }

  lemma EntriesOne(kind: Kind, e: Entry)
    requires EntryFits(kind, e)
    ensures AllFit(kind, [e]) && EntriesBytes(kind, [e]) == EntryBytes(kind, e)
  {
    assert [e][..0] == [];
    assert EntriesBytes(kind, [e]) == [] + EntryBytes(kind, e);
  }

  lemma ParsedMore(kind: Kind, count: nat, b: Bytes, e: Entry, size: nat, es: seq<Entry>)
    requires count > 0 && ParseEntry(kind, b) == Some((e, size)) && size <= |b|
      && ParseEntries(kind, count - 1, b[size..]) == Some(es)
    ensures ParseEntries(kind, count, b) == Some([e] + es)
  {
  }

  lemma {:induction false} ParseOfEntries(kind: Kind, es: seq<Entry>)
    requires AllFit(kind, es)
    ensures ParseEntries(kind, |es|, EntriesBytes(kind, es)) == Some(es)
  {
    if es != [] {
      var first, rest := EntryBytes(kind, es[0]), EntriesBytes(kind, es[1..]);
      ParseOfEntries(kind, es[1..]);
      EntriesFirst(kind, es[0], es[1..]);
      ParseOfEntry(kind, es[0], rest);
      Apart(first, rest);
      ParsedMore(kind, |es|, first + rest, es[0], |first|, es[1..]);
      FirstApart(es);
    }
  }

  lemma FirstApart<T>(es: seq<T>)
    requires es != []
    ensures es == [es[0]] + es[1..]
  {
  }

  lemma Apart(a: Bytes, b: Bytes)
    ensures (a + b)[..|a|] == a && (a + b)[|a|..] == b
  {
  }

  lemma Whole(b: Bytes, n: nat)
    requires n <= |b|
    ensures b[..n] + b[n..] == b
  {
  }

  lemma {:induction false} EntriesOfParse(kind: Kind, count: nat, b: Bytes)
    requires ParseEntries(kind, count, b).Some?
    ensures var es := ParseEntries(kind, count, b).value;
      |es| == count && AllFit(kind, es) && EntriesBytes(kind, es) == b
    decreases count
  {
    if count > 0 {
      var (e, size) := ParseEntry(kind, b).value;
      EntryOfParse(kind, b);
      EntriesOfParse(kind, count - 1, b[size..]);
      var rest := ParseEntries(kind, count - 1, b[size..]).value;
      var es := [e] + rest;
      assert ParseEntries(kind, count, b) == Some(es) && |es| == count;
      EntriesFirst(kind, e, rest);
      Whole(b, size);
    }
  }

  lemma {:induction false} EntriesLength(kind: Kind, es: seq<Entry>)
    requires AllFit(kind, es)
    ensures |EntriesBytes(kind, es)| / MinimumSize(kind) >= |es|
  {
    if es != [] {
      var n := |es| - 1;
      EntriesLength(kind, es[..n]);
      Longer(kind, |EntriesBytes(kind, es[..n])|, |EntryBytes(kind, es[n])|);
    }
  }

  lemma Longer(kind: Kind, n: nat, more: nat)
    requires more >= MinimumSize(kind)
    ensures (n + more) / MinimumSize(kind) >= n / MinimumSize(kind) + 1
  {
    if kind == Leaf { assert (n + more) / 7 >= n / 7 + 1; } else { assert (n + more) / 13 >= n / 13 + 1; }
  }

  // ---------------------------------------------------------------- nodes

  lemma HeaderFields(kind: Kind, count: nat, link: nat, rest: Bytes)
    requires count <= MAX_COUNT && link < PAGES
    ensures var b := HeaderBytes(kind, count, link) + rest;
      && |b| == HEADER_SIZE + |rest| && b[..4] == MAGIC() && FromLe(b[4..6]) == KindNumber(kind)
      && FromLe(b[6..8]) == count
      && FromLe(b[8..12]) == 0 && FromLe(b[12..20]) == link && b[HEADER_SIZE..] == rest
  {
    var b := HeaderBytes(kind, count, link) + rest;
    Widths();
    LeRoundTrip(KindNumber(kind), W16);
    LeRoundTrip(count, W16);
    LeRoundTrip(0, W32);
    LeRoundTrip(link, W64);
    assert b[4..6] == Le(KindNumber(kind), W16) && b[6..8] == Le(count, W16) && b[8..12] == Le(0, W32)
      && b[12..20] == Le(link, W64);
  }

  lemma DecodedFrom(b: Bytes, n: Node)
    requires Encodable(n) && |b| >= HEADER_SIZE && b[..4] == MAGIC() && FromLe(b[4..6]) == KindNumber(n.kind)
    requires FromLe(b[6..8]) == |n.entries| && FromLe(b[8..12]) == 0 && FromLe(b[12..20]) == Link(n)
    requires |n.entries| <= (|b| - HEADER_SIZE) / MinimumSize(n.kind)
    requires ParseEntries(n.kind, |n.entries|, b[HEADER_SIZE..]) == Some(n.entries)
    ensures Decoded(b) == (Ok, Some(n))
  {
    assert Ascending(n.entries);
  }

  /** Decoding undoes encoding. */
  lemma DecodeEncoded(n: Node)
    requires Encodable(n)
    ensures Decoded(Encoded(n)) == (Ok, Some(n))
  {
    HeaderFields(n.kind, |n.entries|, Link(n), EntriesBytes(n.kind, n.entries));
    ParseOfEntries(n.kind, n.entries);
    EntriesLength(n.kind, n.entries);
    DecodedFrom(Encoded(n), n);
  }

  lemma HeaderOf(b: Bytes)
    requires |b| >= HEADER_SIZE && b[..4] == MAGIC() && FromLe(b[8..12]) == 0
    requires FromLe(b[4..6]) == KindNumber(Leaf) || FromLe(b[4..6]) == KindNumber(Internal)
    ensures var kind := if FromLe(b[4..6]) == 1 then Leaf else Internal;
      b[..HEADER_SIZE] == HeaderBytes(kind, FromLe(b[6..8]), FromLe(b[12..20]))
    ensures FromLe(b[6..8]) <= MAX_COUNT && FromLe(b[12..20]) < PAGES
  {
    Widths();
    FromLeRoundTrip(b[4..6]);
    FromLeRoundTrip(b[6..8]);
    FromLeRoundTrip(b[8..12]);
    FromLeRoundTrip(b[12..20]);
    assert b[..20] == b[..4] + b[4..6] + b[6..8] + b[8..12] + b[12..20];
  }

  lemma DecodedInto(b: Bytes)
    requires Decoded(b).0 == Ok
    ensures |b| >= HEADER_SIZE && b[..4] == MAGIC() && FromLe(b[8..12]) == 0 && Decoded(b).1.Some?
    ensures var n := Decoded(b).1.value;
      && FromLe(b[4..6]) == KindNumber(n.kind) && FromLe(b[12..20]) == Link(n) && Ascending(n.entries)
      && ParseEntries(n.kind, FromLe(b[6..8]), b[HEADER_SIZE..]) == Some(n.entries)
      && if n.kind == Leaf then n.first == 0 else n.first != 0 && n.next == 0
  {
  }

  /** Encoding undoes decoding: a payload that is accepted is the encoding of its node. */
  lemma EncodeDecoded(b: Bytes)
    requires Decoded(b).0 == Ok
    ensures Decoded(b).1.Some? && Encodable(Decoded(b).1.value) && Encoded(Decoded(b).1.value) == b
  {
    DecodedInto(b);
    EncodedBack(b, Decoded(b).1.value);
  }

  lemma EncodedBack(b: Bytes, n: Node)
    requires |b| >= HEADER_SIZE && b[..4] == MAGIC() && FromLe(b[8..12]) == 0 && FromLe(b[4..6]) == KindNumber(n.kind)
    requires FromLe(b[12..20]) == Link(n) && Ascending(n.entries)
    requires ParseEntries(n.kind, FromLe(b[6..8]), b[HEADER_SIZE..]) == Some(n.entries)
    requires if n.kind == Leaf then n.first == 0 else n.first != 0 && n.next == 0
    ensures Encodable(n) && Encoded(n) == b
  {
    HeaderOf(b);
    EntriesOfParse(n.kind, FromLe(b[6..8]), b[HEADER_SIZE..]);
    EncodedOf(n, b[..HEADER_SIZE], b[HEADER_SIZE..]);
    Whole(b, HEADER_SIZE);
  }

  lemma EncodedOf(n: Node, header: Bytes, entries: Bytes)
    requires AllFit(n.kind, n.entries) && Ascending(n.entries) && |n.entries| <= MAX_COUNT && 0 <= Link(n) < PAGES
    requires if n.kind == Leaf then n.first == 0 else n.first != 0 && n.next == 0
    requires header == HeaderBytes(n.kind, |n.entries|, Link(n)) && entries == EntriesBytes(n.kind, n.entries)
    ensures Encodable(n) && Encoded(n) == header + entries
  {
  }

  // ---------------------------------------------------------------- reading a payload

  function Prepend(es: seq<Entry>, rest: Option<seq<Entry>>): Option<seq<Entry>> {
    if rest.Some? then Some(es + rest.value) else None
  }

  lemma OneParsed(kind: Kind, left: nat, b: Bytes, es: seq<Entry>)
    requires left > 0
    ensures match ParseEntry(kind, b)
      case None => Prepend(es, ParseEntries(kind, left, b)) == None
      case Some((e, size)) =>
        && size <= |b|
        && Prepend(es, ParseEntries(kind, left, b)) == Prepend(es + [e], ParseEntries(kind, left - 1, b[size..]))
  {
    if ParseEntry(kind, b).Some? {
      ParsedWithin(kind, b);
      var (e, size) := ParseEntry(kind, b).value;
      var rest := ParseEntries(kind, left - 1, b[size..]);
      if rest.Some? { assert es + ([e] + rest.value) == es + [e] + rest.value; }
    }
  }

  /** One entry read from the cursor on. */
  method ReadEntry(payload: Bytes, kind: Kind, cursor: nat, ghost left: nat, ghost es: seq<Entry>)
      returns (entry: Option<Entry>, next: nat)
    requires cursor <= |payload| && left > 0
    ensures cursor <= next <= |payload|
    ensures Prepend(es, ParseEntries(kind, left, payload[cursor..])) ==
      if entry.None? then None else Prepend(es + [entry.value], ParseEntries(kind, left - 1, payload[next..]))
  {
    var rest := payload[cursor..];
    OneParsed(kind, left, rest, es);
    var parsed := ParseEntry(kind, rest);
    if parsed.None? { return None, cursor; }
    next := cursor + parsed.value.1;
    assert rest[parsed.value.1..] == payload[next..];
    return Some(parsed.value.0), next;
  }

  method ReadEntries(payload: Bytes, kind: Kind, count: nat) returns (entries: Option<seq<Entry>>)
    requires |payload| >= HEADER_SIZE
    ensures entries == ParseEntries(kind, count, payload[HEADER_SIZE..])
  {
    var es: seq<Entry> := [];
    var cursor := HEADER_SIZE;
    var index := 0;
    ghost var all := ParseEntries(kind, count, payload[HEADER_SIZE..]);
    assert Prepend([], all) == all by { if all.Some? { assert [] + all.value == all.value; } }
    while index < count
      invariant 0 <= index <= count && 0 <= cursor <= |payload|
      invariant all == Prepend(es, ParseEntries(kind, count - index, payload[cursor..]))
    {
      var entry, next := ReadEntry(payload, kind, cursor, count - index, es);
      if entry.None? { return None; }
      es, cursor, index := es + [entry.value], next, index + 1;
    }
    if cursor != |payload| { return None; }
    assert es + [] == es;
    return Some(es);
  }

  method IsAscending(es: seq<Entry>) returns (yes: bool)
    ensures yes == Ascending(es)
  {
    var i := 1;
    while i < |es|
      invariant 1 <= i && (i <= |es| || |es| == 0)
        && forall j {:trigger AscendsAt(es, j)} :: 0 < j < i && j < |es| ==> AscendsAt(es, j)
    {
      var c := Compare(es[i - 1].key, es[i].key);
      assert AscendsAt(es, i) <==> c < 0;
      if c >= 0 { return false; }
      i := i + 1;
    }
    return true;
  }

  method Decode(payload: Bytes) returns (st: Status, node: Option<Node>)
    ensures (st, node) == Decoded(payload)
  {
    if |payload| < HEADER_SIZE { return InvalidArgument, None; }
    if payload[..4] != MAGIC() { return BadMagic, None; }
    var number, count, link := FromLe(payload[4..6]), FromLe(payload[6..8]), FromLe(payload[12..20]);
    if (number != 1 && number != 2) || FromLe(payload[8..12]) != 0 { return Corrupt, None; }
    var kind := if number == 1 then Leaf else Internal;
    if kind == Internal && link == 0 { return Corrupt, None; }
    if count > (|payload| - HEADER_SIZE) / MinimumSize(kind) { return Corrupt, None; }
    var entries := ReadEntries(payload, kind, count);
    if entries.None? { return Corrupt, None; }
    var ascending := IsAscending(entries.value);
    if !ascending { return Corrupt, None; }
    return Ok, Some(if kind == Leaf then Node(Leaf, link, 0, entries.value)
      else Node(Internal, 0, link, entries.value));
  }

  // ---------------------------------------------------------------- writing a payload

  /** The size, when the node is one that can be encoded. */
  method SizeOf(n: Node) returns (st: Status, size: nat)
    ensures st == if NodeValid(n) then Ok else InvalidArgument
    ensures st == Ok ==> size == EncodedSize(n)
  {
    size := HEADER_SIZE;
    if |n.entries| > MAX_COUNT || (n.kind == Leaf && n.first != 0)
      || (n.kind == Internal && (n.first == 0 || n.next != 0)) {
      return InvalidArgument, size;
    }
    var i := 0;
    while i < |n.entries|
      invariant 0 <= i <= |n.entries| && size == HEADER_SIZE + EntriesSize(n.kind, n.entries[..i])
      invariant forall j :: 0 <= j < i ==> EntryValid(n.kind, n.entries[j])
      invariant forall j {:trigger AscendsAt(n.entries, j)} :: 0 < j < i ==> AscendsAt(n.entries, j)
    {
      if !EntryValid(n.kind, n.entries[i]) { return InvalidArgument, size; }
      if i != 0 {
        var c := Compare(n.entries[i - 1].key, n.entries[i].key);
        assert AscendsAt(n.entries, i) <==> c < 0;
        if c >= 0 { return InvalidArgument, size; }
      }
      assert n.entries[..i + 1][..i] == n.entries[..i];
      size := size + EntrySize(n.kind, n.entries[i]);
      i := i + 1;
    }
    assert n.entries[..i] == n.entries;
    st := Ok;
  }

  lemma {:induction false} EntriesBytesSize(kind: Kind, es: seq<Entry>)
    requires AllFit(kind, es)
    ensures |EntriesBytes(kind, es)| == EntriesSize(kind, es)
  {
    if es != [] {
      EntriesBytesSize(kind, es[..|es| - 1]);
    }
  }

  /** The encoded size is the number of bytes of the encoding. */
  lemma EncodedLength(n: Node)
    requires Encodable(n)
    ensures |Encoded(n)| == EncodedSize(n)
  {
    EntriesBytesSize(n.kind, n.entries);
  }

  // ---------------------------------------------------------------- where the fields lie

  /** The numbers of the header, by their places in the payload. */
  lemma HeaderLies(n: Node)
    requires Encodable(n)
    ensures var b := Encoded(n);
      && |b| >= 20 && b[..4] == [0x53, 0x42, 0x54, 0x31]
      && FromLe(b[4..6]) == (if n.kind == Leaf then 1 else 2) && FromLe(b[6..8]) == |n.entries|
      && FromLe(b[8..12]) == 0 && FromLe(b[12..20]) == (if n.kind == Leaf then n.next else n.first)
  {
    HeaderFields(n.kind, |n.entries|, Link(n), EntriesBytes(n.kind, n.entries));
  }

  /** Entry i and those after it. */
  lemma EntryLies(n: Node, i: nat)
    requires Encodable(n) && i < |n.entries|
    ensures var o := HEADER_SIZE + EntriesSize(n.kind, n.entries[..i]);
      && AllFit(n.kind, n.entries[i + 1..]) && o <= |Encoded(n)|
      && Encoded(n)[o..] == EntryBytes(n.kind, n.entries[i]) + EntriesBytes(n.kind, n.entries[i + 1..])
  {
    var es := n.entries;
    Around(es, i);
    EntryApart(n.kind, es, es[..i], es[i], es[i + 1..]);
    EntriesBytesSize(n.kind, es[..i]);
    DropTwice(HeaderBytes(n.kind, |es|, Link(n)), EntriesBytes(n.kind, es[..i]),
      EntryBytes(n.kind, es[i]) + EntriesBytes(n.kind, es[i + 1..]));
  }

  lemma Around<T>(s: seq<T>, i: nat)
    requires i < |s|
    ensures s == s[..i] + ([s[i]] + s[i + 1..])
  {
  }

  lemma EntryApart(kind: Kind, es: seq<Entry>, front: seq<Entry>, e: Entry, back: seq<Entry>)
    requires es == front + ([e] + back) && AllFit(kind, es)
    ensures AllFit(kind, front) && EntryFits(kind, e) && AllFit(kind, back)
    ensures EntriesBytes(kind, es) == EntriesBytes(kind, front) + (EntryBytes(kind, e) + EntriesBytes(kind, back))
  {
    assert es[|front|] == e;
    forall i | 0 <= i < |front| ensures EntryFits(kind, front[i]) { assert es[i] == front[i]; }
    forall i | 0 <= i < |back| ensures EntryFits(kind, back[i]) { assert es[|front| + 1 + i] == back[i]; }
    EntriesFirst(kind, e, back);
    EntriesCat(kind, front, [e] + back);
  }

  lemma DropTwice(a: Bytes, b: Bytes, c: Bytes)
    ensures (a + (b + c))[|a| + |b|..] == c
  {
  }

  /** Sizes come first, then the key, then the value; in an internal node the child comes before the key. */
  lemma EntryFields(n: Node, i: nat)
    requires Encodable(n) && i < |n.entries|
    ensures var o, e := HEADER_SIZE + EntriesSize(n.kind, n.entries[..i]), n.entries[i];
      && o + EntrySize(n.kind, e) <= |Encoded(n)|
      && var b := Encoded(n)[o..];
      && FromLe(b[..2]) == |e.key|
      && if n.kind == Leaf then
           && FromLe(b[2..6]) == |e.value| && b[6..6 + |e.key|] == e.key
           && b[6 + |e.key|..6 + |e.key| + |e.value|] == e.value
         else FromLe(b[2..4]) == 0 && FromLe(b[4..12]) == e.right && b[12..12 + |e.key|] == e.key
  {
    EntryLies(n, i);
    var e := n.entries[i];
    if n.kind == Leaf {
      LeafEntryFields(e, EntriesBytes(n.kind, n.entries[i + 1..]));
    } else {
      InnerEntryFields(e, EntriesBytes(n.kind, n.entries[i + 1..]));
    }
  }

  lemma LeafEntryFields(e: Entry, rest: Bytes)
    requires EntryFits(Leaf, e)
    ensures var b := EntryBytes(Leaf, e) + rest;
      && |b| >= EntrySize(Leaf, e) && FromLe(b[..2]) == |e.key| && FromLe(b[2..6]) == |e.value|
      && b[6..6 + |e.key|] == e.key && b[6 + |e.key|..6 + |e.key| + |e.value|] == e.value
  {
    var b := EntryBytes(Leaf, e) + rest;
    Widths();
    LeRoundTrip(|e.key|, W16);
    LeRoundTrip(|e.value|, W32);
    assert b[..2] == Le(|e.key|, W16) && b[2..6] == Le(|e.value|, W32);
  }

  lemma InnerEntryFields(e: Entry, rest: Bytes)
    requires EntryFits(Internal, e)
    ensures var b := EntryBytes(Internal, e) + rest;
      && |b| >= EntrySize(Internal, e) && FromLe(b[..2]) == |e.key| && FromLe(b[2..4]) == 0
      && FromLe(b[4..12]) == e.right && b[12..12 + |e.key|] == e.key
  {
    var b := EntryBytes(Internal, e) + rest;
    Widths();
    LeRoundTrip(|e.key|, W16);
    LeRoundTrip(0, W16);
    LeRoundTrip(e.right, W64);
    assert b[..2] == Le(|e.key|, W16) && b[2..4] == Le(0, W16) && b[4..12] == Le(e.right, W64);
  }

  // ---------------------------------------------------------------- writing

  /** b with the bytes v written at a position. */
  function Written(b: Bytes, at: nat, v: Bytes): (r: Bytes)
    requires at + |v| <= |b|
    ensures |r| == |b|
  { b[..at] + v + b[at + |v|..] }

  lemma WrittenNext(b: Bytes, at: nat, v: Bytes, w: Bytes)
    requires at + |v| + |w| <= |b|
    ensures Written(Written(b, at, v), at + |v|, w) == Written(b, at, v + w)
  {
  }

  method WriteBytes(output: array<byte>, at: nat, v: Bytes)
    requires at + |v| <= output.Length
    modifies output
    ensures output[..] == Written(old(output[..]), at, v)
  {
    var i := 0;
    while i < |v|
      invariant 0 <= i <= |v|
      invariant forall j :: 0 <= j < output.Length ==> output[j] == if at <= j < at + i then v[j - at]
        else old(output[j])
    {
      output[at + i] := v[i];
      i := i + 1;
    }
  }

  function Zeros(n: nat): (b: Bytes)
    ensures |b| == n && forall i :: 0 <= i < n ==> b[i] == 0
  { seq(n, _ => 0 as byte) }

  lemma {:induction false} ZeroNumber(w: nat)
    ensures Le(0, w) == Zeros(w)
  {
    if w > 0 {
      ZeroNumber(w - 1);
      assert Zeros(w) == [0] + Zeros(w - 1);
    }
  }

  /** Zeroed bytes that are skipped are a number 0. */
  lemma WrittenSkip(b: Bytes, at: nat, v: Bytes, w: nat)
    requires at + |v| + w <= |b| && b[at + |v|..at + |v| + w] == Zeros(w)
    ensures Written(b, at, v) == Written(b, at, v + Le(0, w))
  {
    ZeroNumber(w);
    assert b[at + |v|..] == Zeros(w) + b[at + |v| + w..];
  }

  /** The fields are written over zeroed bytes, so the reserved ones stay zero. */
  method WriteEntry(output: array<byte>, at: nat, kind: Kind, e: Entry)
    requires EntryFits(kind, e) && at + |EntryBytes(kind, e)| <= output.Length
    requires kind == Internal ==> output[at + 2..at + 4] == Zeros(2)
    modifies output
    ensures output[..] == Written(old(output[..]), at, EntryBytes(kind, e))
  {
    ghost var before := output[..];
    WriteBytes(output, at, Le(|e.key|, W16));
    if kind == Leaf {
      WriteBytes(output, at + 2, Le(|e.value|, W32));
      WrittenNext(before, at, Le(|e.key|, W16), Le(|e.value|, W32));
      WriteBytes(output, at + 6, e.key);
      WrittenNext(before, at, Le(|e.key|, W16) + Le(|e.value|, W32), e.key);
      WriteBytes(output, at + 6 + |e.key|, e.value);
      WrittenNext(before, at, Le(|e.key|, W16) + Le(|e.value|, W32) + e.key, e.value);
    } else {
      WrittenSkip(before, at, Le(|e.key|, W16), W16);
      WriteBytes(output, at + 4, Le(e.right, W64));
      WrittenNext(before, at, Le(|e.key|, W16) + Le(0, W16), Le(e.right, W64));
      WriteBytes(output, at + 12, e.key);
      WrittenNext(before, at, Le(|e.key|, W16) + Le(0, W16) + Le(e.right, W64), e.key);
    }
  }

  method WriteHeader(output: array<byte>, kind: Kind, count: nat, link: nat)
    requires output.Length >= HEADER_SIZE && output[8..12] == Zeros(4)
    modifies output
    ensures output[..] == Written(old(output[..]), 0, HeaderBytes(kind, count, link))
  {
    ghost var before := output[..];
    WriteBytes(output, 0, MAGIC());
    WriteBytes(output, 4, Le(KindNumber(kind), W16));
    WrittenNext(before, 0, MAGIC(), Le(KindNumber(kind), W16));
    WriteBytes(output, 6, Le(count, W16));
    WrittenNext(before, 0, MAGIC() + Le(KindNumber(kind), W16), Le(count, W16));
    WrittenSkip(before, 0, MAGIC() + Le(KindNumber(kind), W16) + Le(count, W16), W32);
    WriteBytes(output, 12, Le(link, W64));
    WrittenNext(before, 0, MAGIC() + Le(KindNumber(kind), W16) + Le(count, W16) + Le(0, W32), Le(link, W64));
  }

  method Encode(n: Node, output: array<byte>) returns (st: Status, written: nat)
    requires NodeValid(n) ==> Encodable(n)
    modifies output
    ensures st == if !NodeValid(n) then InvalidArgument else if output.Length < EncodedSize(n) then BufferTooSmall
      else Ok
    ensures st != Ok ==> output[..] == old(output[..])
    ensures st == Ok ==> written == EncodedSize(n) && output[..] == Encoded(n) + old(output[written..])
  {
    st, written := SizeOf(n);
    if st != Ok { return; }
    if output.Length < written { return BufferTooSmall, written; }
    WriteNode(n, output, written);
  }

  method WriteNode(n: Node, output: array<byte>, size: nat)
    requires Encodable(n) && size == EncodedSize(n) <= output.Length
    modifies output
    ensures output[..] == Encoded(n) + old(output[size..])
  {
    ghost var before := output[..];
    WriteBytes(output, 0, Zeros(size));
    ghost var zeroed := output[..];
    ZeroedFirst(before, size);
    WriteHeader(output, n.kind, |n.entries|, Link(n));
    WriteEntries(n, output, zeroed);
    EncodedLength(n);
    WrittenAll(before, zeroed, Encoded(n), size);
  }

  lemma WrittenAll(before: Bytes, zeroed: Bytes, v: Bytes, n: nat)
    requires |v| == n <= |before| && |zeroed| == |before| && zeroed[n..] == before[n..]
    ensures Written(zeroed, 0, v) == v + before[n..]
  {
  }

  lemma ZeroedFirst(b: Bytes, n: nat)
    requires HEADER_SIZE <= n <= |b|
    ensures var zeroed := Written(b, 0, Zeros(n));
      && zeroed[..n] == Zeros(n) && zeroed[8..12] == Zeros(4)
      && zeroed[n..] == b[n..]
  {
  }

  /** The bytes of the node up to entry i. */
  function Part(n: Node, i: nat): Bytes
    requires Encodable(n) && i <= |n.entries|
  { HeaderBytes(n.kind, |n.entries|, Link(n)) + EntriesBytes(n.kind, n.entries[..i]) }

  method WriteEntries(n: Node, output: array<byte>, ghost zeroed: Bytes)
    requires Encodable(n) && EncodedSize(n) <= |zeroed| && zeroed[..EncodedSize(n)] == Zeros(EncodedSize(n))
    requires output[..] == Written(zeroed, 0, HeaderBytes(n.kind, |n.entries|, Link(n)))
    modifies output
    ensures |Encoded(n)| <= |zeroed| && output[..] == Written(zeroed, 0, Encoded(n))
  {
    PartEnds(n);
    var cursor := HEADER_SIZE;
    var i := 0;
    while i < |n.entries|
      invariant 0 <= i <= |n.entries| && cursor == |Part(n, i)| <= EncodedSize(n)
      invariant output[..] == Painted(n, zeroed, i)
    {
      PaintedNext(n, zeroed, i);
      WriteEntry(output, cursor, n.kind, n.entries[i]);
      cursor := cursor + EntrySize(n.kind, n.entries[i]);
      i := i + 1;
    }
  }

  function Painted(n: Node, zeroed: Bytes, i: nat): Bytes
    requires Encodable(n) && i <= |n.entries| && |Part(n, i)| <= |zeroed|
  { Written(zeroed, 0, Part(n, i)) }

  lemma PaintedNext(n: Node, zeroed: Bytes, i: nat)
    requires Encodable(n) && i < |n.entries| && EncodedSize(n) <= |zeroed|
      && zeroed[..EncodedSize(n)] == Zeros(EncodedSize(n))
    ensures var entry := EntryBytes(n.kind, n.entries[i]);
      && |entry| == EntrySize(n.kind, n.entries[i]) && |Part(n, i)| + |entry| == |Part(n, i + 1)| <= EncodedSize(n)
      && Written(Painted(n, zeroed, i), |Part(n, i)|, entry) == Painted(n, zeroed, i + 1)
      && (n.kind == Internal ==> Painted(n, zeroed, i)[|Part(n, i)| + 2..|Part(n, i)| + 4] == Zeros(2))
  {
    EntryNext(n, i);
    WrittenNext(zeroed, 0, Part(n, i), EntryBytes(n.kind, n.entries[i]));
    ZerosAhead(zeroed, Part(n, i), EntrySize(n.kind, n.entries[i]), EncodedSize(n));
  }

  lemma PartEnds(n: Node)
    requires Encodable(n)
    ensures Part(n, 0) == HeaderBytes(n.kind, |n.entries|, Link(n)) && |Part(n, 0)| == HEADER_SIZE <= EncodedSize(n)
    ensures Part(n, |n.entries|) == Encoded(n) && |Encoded(n)| == EncodedSize(n)
  {
    EncodedLength(n);
    assert n.entries[..0] == [] && n.entries[..|n.entries|] == n.entries;
    assert HeaderBytes(n.kind, |n.entries|, Link(n)) + [] == HeaderBytes(n.kind, |n.entries|, Link(n));
  }

  lemma EntryNext(n: Node, i: nat)
    requires Encodable(n) && i < |n.entries|
    ensures var entry := EntryBytes(n.kind, n.entries[i]);
      && |entry| == EntrySize(n.kind, n.entries[i])
      && Part(n, i) + entry == Part(n, i + 1)
      && |Part(n, i)| + |entry| <= EncodedSize(n)
  {
    assert n.entries[..i + 1][..i] == n.entries[..i];
    PartFits(n.kind, n.entries, i + 1);
    EncodedLength(n);
    Regroup(HeaderBytes(n.kind, |n.entries|, Link(n)), EntriesBytes(n.kind, n.entries[..i]),
      EntryBytes(n.kind, n.entries[i]));
  }

  lemma ZerosAhead(b: Bytes, done: Bytes, n: nat, end: nat)
    requires |done| + n <= end <= |b| && b[..end] == Zeros(end)
    ensures n >= 4 ==> Written(b, 0, done)[|done| + 2..|done| + 4] == Zeros(2)
  {
    if n >= 4 {
      assert Written(b, 0, done)[|done| + 2..|done| + 4] ==
        b[|done| + 2..|done| + 4] == b[..end][|done| + 2..|done| + 4];
    }
  }

  lemma {:induction false} PartFits(kind: Kind, es: seq<Entry>, i: nat)
    requires AllFit(kind, es) && i <= |es|
    ensures |EntriesBytes(kind, es[..i])| <= |EntriesBytes(kind, es)|
    decreases |es| - i
  {
    if i < |es| {
      assert es[..i + 1][..i] == es[..i];
      PartFits(kind, es, i + 1);
    } else {
      assert es[..i] == es;
    }
  }
}
