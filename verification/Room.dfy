/** Small entries always find room: with none above half a page, a grown node can be stored in one page or two. */
module Room {
  import opened Keys
  import opened Shape
  import opened Nodes
  import opened Splits
  import opened Reclaim

  const MAX_CAPACITY: nat := 65536

  /** The entry, and its key as a separator, take at most half of the room. */
  predicate Small(kind: Kind, e: Entry, capacity: nat) {
    2 * EntrySize(kind, e) + HEADER_SIZE <= capacity && 2 * EntrySize(Internal, e) + HEADER_SIZE <= capacity
  }

  ghost predicate Roomy(n: Node, capacity: nat) {
    forall i {:trigger Small(n.kind, n.entries[i], capacity)} :: 0 <= i < |n.entries| ==>
      Small(n.kind, n.entries[i], capacity)
  }

  ghost predicate AllRoomy(nodes: map<PageId, Node>, capacity: nat) {
    capacity <= MAX_CAPACITY && forall p {:trigger RoomyAt(nodes, p, capacity)} :: RoomyAt(nodes, p, capacity)
  }

  ghost predicate RoomyAt(nodes: map<PageId, Node>, p: PageId, capacity: nat) {
    p in nodes ==> Roomy(nodes[p], capacity)
  }

  lemma RoomyPut(nodes: map<PageId, Node>, p: PageId, n: Node, capacity: nat)
    requires AllRoomy(nodes, capacity) && Roomy(n, capacity)
    ensures AllRoomy(nodes[p := n], capacity)
  {
    var nodes' := nodes[p := n];
    forall q ensures RoomyAt(nodes', q, capacity) { assert RoomyAt(nodes, q, capacity); }
  }

  lemma RoomyDrop(nodes: map<PageId, Node>, p: PageId, capacity: nat)
    requires AllRoomy(nodes, capacity)
    ensures AllRoomy(nodes - {p}, capacity)
  {
    forall q ensures RoomyAt(nodes - {p}, q, capacity) { assert RoomyAt(nodes, q, capacity); }
  }

  lemma RoomyNode(nodes: map<PageId, Node>, p: PageId, capacity: nat)
    requires AllRoomy(nodes, capacity) && p in nodes
    ensures Roomy(nodes[p], capacity)
  {
    assert RoomyAt(nodes, p, capacity);
  }

  /** A separator that any internal node can take in. */
  predicate SepFine(sep: Bytes, right: PageId, capacity: nat) {
    EntryValid(Internal, Entry(sep, [], right)) && Small(Internal, Entry(sep, [], right), capacity)
  }

  /** An entry that any leaf can take in. */
  predicate EntryFine(key: Bytes, value: Bytes, capacity: nat) {
    EntryValid(Leaf, Entry(key, value, 0)) && Small(Leaf, Entry(key, value, 0), capacity)
  }

  ghost predicate Fits(n: Node, capacity: nat) { NodeValid(n) && Roomy(n, capacity) && EncodedSize(n) <= capacity }

  /** The node fits in one page, or can be cut in two. */
  ghost predicate Storable(n: Node, capacity: nat) {
    && NodeValid(n) && Roomy(n, capacity)
    && (EncodedSize(n) <= capacity || exists c :: Admissible(n, capacity, c))
  }

  lemma {:induction false} EntriesLong(kind: Kind, es: seq<Entry>)
    requires forall i :: 0 <= i < |es| ==> EntryValid(kind, es[i])
    ensures EntriesSize(kind, es) >= 7 * |es|
  {
    if es != [] { EntriesLong(kind, es[..|es| - 1]); }
  }

  lemma StepsFromSorted(es: seq<Entry>, i: nat)
    requires Sorted(es) && 0 < i < |es|
    ensures AscendsAt(es, i)
  {
    RankIsOrder(es[i - 1].key, es[i].key);
  }

  lemma ValidFromSorted(n: Node)
    requires Sorted(n.entries) && |n.entries| <= MAX_COUNT
    requires if n.kind == Leaf then n.first == 0 else n.first != 0 && n.next == 0
    requires forall i :: 0 <= i < |n.entries| ==> EntryValid(n.kind, n.entries[i])
    ensures NodeValid(n)
  {
    forall i | 0 < i < |n.entries| ensures AscendsAt(n.entries, i) {
      StepsFromSorted(n.entries, i);
    }
  }

  /** One entry is new at place i, or has replaced another. */
  ghost predicate Gained(es: seq<Entry>, fs: seq<Entry>, i: nat, e: Entry) {
    (i <= |es| && fs == Inserted(es, i, e)) || (i < |es| && fs == es[i := e])
  }

  lemma GainedFrom(es: seq<Entry>, fs: seq<Entry>, i: nat, e: Entry, j: nat)
    requires Gained(es, fs, i, e) && j < |fs|
    ensures fs[j] == e || exists k :: 0 <= k < |es| && fs[j] == es[k]
  {
    if fs == Inserted(es, i, e) {
      if j < i { assert fs[j] == es[j]; } else if j > i { assert fs[j] == es[j - 1]; }
    } else {
      if j != i { assert fs[j] == es[j]; }
    }
  }

  lemma GrownValid(n: Node, n': Node, i: nat, e: Entry, capacity: nat)
    requires NodeValid(n) && EncodedSize(n) <= capacity <= MAX_CAPACITY && EntryValid(n.kind, e)
    requires n' == n.(entries := n'.entries) && Gained(n.entries, n'.entries, i, e) && Sorted(n'.entries)
    ensures NodeValid(n')
  {
    EntriesLong(n.kind, n.entries);
    forall j | 0 <= j < |n'.entries| ensures EntryValid(n'.kind, n'.entries[j]) {
      GainedFrom(n.entries, n'.entries, i, e, j);
    }
    ValidFromSorted(n');
  }

  /** A stored node that gains or changes a small entry can be stored again. */
  lemma GrownStorable(n: Node, n': Node, i: nat, e: Entry, capacity: nat)
    requires NodeValid(n) && EncodedSize(n) <= capacity <= MAX_CAPACITY && Roomy(n, capacity)
    requires EntryValid(n.kind, e) && Small(n.kind, e, capacity)
    requires n' == n.(entries := n'.entries) && Gained(n.entries, n'.entries, i, e) && Sorted(n'.entries)
    ensures Storable(n', capacity)
  {
    GrownValid(n, n', i, e, capacity);
    forall j | 0 <= j < |n'.entries| ensures Small(n'.kind, n'.entries[j], capacity) {
      GainedFrom(n.entries, n'.entries, i, e, j);
    }
    GrownSplits(n, n', i, e, capacity);
  }

  lemma LeafStorable(n: Node, n': Node, i: nat, key: Bytes, value: Bytes, capacity: nat)
    requires n.kind == Leaf && NodeValid(n) && EncodedSize(n) <= capacity <= MAX_CAPACITY && Roomy(n, capacity)
    requires EntryFine(key, value, capacity)
    requires n' == n.(entries := n'.entries) && Sorted(n'.entries) && i <= |n.entries|
    requires
      || n'.entries == Inserted(n.entries, i, Entry(key, value, 0))
      || (i < |n.entries| && n.entries[i].key == key && n'.entries == n.entries[i := n.entries[i].(value := value)])
    ensures Storable(n', capacity)
  {
    GrownStorable(n, n', i, Entry(key, value, 0), capacity);
  }

  lemma InnerStorable(n: Node, i: nat, split: bool, sep: Bytes, right: PageId, capacity: nat)
    requires n.kind == Internal && NodeValid(n) && EncodedSize(n) <= capacity <= MAX_CAPACITY && Roomy(n, capacity)
    requires i <= |n.entries|
      && (split ==> SepFine(sep, right, capacity) && Sorted(Inserted(n.entries, i, Entry(sep, [], right))))
    ensures Storable(if split then n.(entries := Inserted(n.entries, i, Entry(sep, [], right))) else n, capacity)
  {
    if split {
      var e := Entry(sep, [], right);
      GrownStorable(n, n.(entries := Inserted(n.entries, i, e)), i, e, capacity);
    }
  }

  lemma PartRoomy(n: Node, part: Node, a: nat, b: nat, capacity: nat)
    requires a <= b <= |n.entries| && part.entries == n.entries[a..b] && part.kind == n.kind
    requires if n.kind == Leaf then part.first == 0 else part.first != 0 && part.next == 0
    requires NodeValid(n) && Roomy(n, capacity)
    ensures NodeValid(part) && Roomy(part, capacity)
  {
    ValidIsSorted(n);
    ValidFromSorted(part);
  }

  lemma LeafParts(n: Node, m: nat, right: PageId, capacity: nat)
    requires n.kind == Leaf && NodeValid(n) && Roomy(n, capacity) && Admissible(n, capacity, m) && right != 0
    ensures var lower, upper := n.(entries := n.entries[..m], next := right), n.(entries := n.entries[m..]);
      Fits(lower, capacity) && Fits(upper, capacity)
    ensures SepFine(n.entries[m].key, right, capacity)
  {
    PartRoomy(n, n.(entries := n.entries[..m], next := right), 0, m, capacity);
    PartRoomy(n, n.(entries := n.entries[m..]), m, |n.entries|, capacity);
    assert EntryValid(n.kind, n.entries[m]) && Small(n.kind, n.entries[m], capacity);
  }

  lemma InnerParts(n: Node, m: nat, right: PageId, capacity: nat)
    requires n.kind == Internal && NodeValid(n) && Roomy(n, capacity) && Admissible(n, capacity, m) && right != 0
    ensures
      var lower, upper := n.(entries := n.entries[..m]), n.(first := n.entries[m].right, entries := n.entries[m + 1..]);
      Fits(lower, capacity) && Fits(upper, capacity)
    ensures SepFine(n.entries[m].key, right, capacity)
  {
    assert EntryValid(n.kind, n.entries[m]) && Small(n.kind, n.entries[m], capacity);
    PartRoomy(n, n.(entries := n.entries[..m]), 0, m, capacity);
    PartRoomy(n, n.(first := n.entries[m].right, entries := n.entries[m + 1..]), m + 1, |n.entries|, capacity);
  }

  /** The root of a tree that has just grown. */
  lemma RootFine(left: PageId, sep: Bytes, right: PageId, capacity: nat)
    requires left != 0 && SepFine(sep, right, capacity)
    ensures Fits(Node(Internal, 0, left, [Entry(sep, [], right)]), capacity)
  {
    var e := Entry(sep, [], right);
    assert [e][..0] == [];
    assert EntriesSize(Internal, [e]) == EntrySize(Internal, e);
  }

  // ---------------------------------------------------------------- what deleting stores

  lemma RoomyLinked(n: Node, next: PageId, capacity: nat)
    requires Roomy(n, capacity)
    ensures Roomy(n.(next := next), capacity)
  {
    var n' := n.(next := next);
    forall i | 0 <= i < |n'.entries| ensures Small(n'.kind, n'.entries[i], capacity) {
      assert Small(n.kind, n.entries[i], capacity);
    }
  }

  lemma RemovedRoomy(n: Node, i: nat, capacity: nat)
    requires Roomy(n, capacity) && i < |n.entries|
    ensures Roomy(n.(entries := Removed(n.entries, i)), capacity)
  {
    var n' := n.(entries := Removed(n.entries, i));
    forall j | 0 <= j < |n'.entries| ensures Small(n'.kind, n'.entries[j], capacity) {
      assert Small(n.kind, n.entries[if j < i then j else j + 1], capacity);
    }
  }

  lemma RestRoomy(parent: Node, slot: nat, capacity: nat)
    requires Roomy(parent, capacity) && parent.entries != [] && slot <= |parent.entries|
    ensures Roomy(WithoutChild(parent, slot), capacity)
  {
    RemovedRoomy(parent, if slot == 0 then 0 else slot - 1, capacity);
    forall i | 0 <= i < |WithoutChild(parent, slot).entries|
      ensures Small(parent.kind, WithoutChild(parent, slot).entries[i], capacity)
    {
      assert Small(parent.kind, Removed(parent.entries, if slot == 0 then 0 else slot - 1)[i], capacity);
    }
  }

  lemma RestAll(nodes: map<PageId, Node>, p: PageId, slot: nat, capacity: nat)
    requires AllRoomy(nodes, capacity) && p in nodes && nodes[p].entries != [] && slot <= |nodes[p].entries|
    ensures Roomy(WithoutChild(nodes[p], slot), capacity)
  {
    RoomyNode(nodes, p, capacity);
    RestRoomy(nodes[p], slot, capacity);
  }

  lemma FusedAll(nodes: map<PageId, Node>, p: PageId, slot: nat, child: PageId, sibling: PageId, capacity: nat)
    requires AllRoomy(nodes, capacity) && p in nodes && nodes[p].entries != [] && slot <= |nodes[p].entries|
    requires sibling in nodes && nodes[p].kind == Internal && nodes[sibling].kind == Internal
    ensures Roomy(Fused(nodes[p], slot, child, nodes[sibling]), capacity)
      && Roomy(WithoutChild(nodes[p], slot), capacity)
  {
    RoomyNode(nodes, p, capacity);
    RoomyNode(nodes, sibling, capacity);
    FusedRoomy(nodes[p], slot, child, nodes[sibling], capacity);
  }

  lemma SharedAll(nodes: map<PageId, Node>, p: PageId, slot: nat, child: PageId, sibling: PageId, m: nat, j: nat,
                  capacity: nat)
    requires AllRoomy(nodes, capacity) && p in nodes && nodes[p].entries != [] && slot <= |nodes[p].entries|
    requires sibling in nodes && nodes[p].kind == Internal && nodes[sibling].kind == Internal
    requires m < |Fused(nodes[p], slot, child, nodes[sibling]).entries| && j < |nodes[p].entries|
    ensures var n := Fused(nodes[p], slot, child, nodes[sibling]);
      && Roomy(n.(entries := n.entries[..m]), capacity)
      && Roomy(n.(first := n.entries[m].right, entries := n.entries[m + 1..]), capacity)
      && Roomy(WithKey(nodes[p], j, n.entries[m].key), capacity)
  {
    RoomyNode(nodes, p, capacity);
    RoomyNode(nodes, sibling, capacity);
    SharedRoomy(nodes[p], slot, child, nodes[sibling], m, j, capacity);
  }

  lemma FusedRoomy(parent: Node, slot: nat, child: PageId, sibling: Node, capacity: nat)
    requires parent.kind == Internal && sibling.kind == Internal && parent.entries != [] && slot <= |parent.entries|
    requires Roomy(parent, capacity) && Roomy(sibling, capacity)
    ensures Roomy(Fused(parent, slot, child, sibling), capacity) && Roomy(WithoutChild(parent, slot), capacity)
  {
    RestRoomy(parent, slot, capacity);
    var n := Fused(parent, slot, child, sibling);
    var j := if slot >= 1 then slot - 1 else 0;
    assert Small(Internal, parent.entries[j], capacity);
    forall i | 0 <= i < |n.entries| ensures Small(n.kind, n.entries[i], capacity) {
      if slot >= 1 && i < |sibling.entries| { assert n.entries[i] == sibling.entries[i]; }
      if slot == 0 && i > 0 { assert n.entries[i] == sibling.entries[i - 1]; }
    }
  }

  lemma SharedRoomy(parent: Node, slot: nat, child: PageId, sibling: Node, m: nat, j: nat, capacity: nat)
    requires parent.kind == Internal && sibling.kind == Internal && parent.entries != [] && slot <= |parent.entries|
    requires Roomy(parent, capacity) && Roomy(sibling, capacity) && j < |parent.entries|
    requires m < |Fused(parent, slot, child, sibling).entries|
    ensures var n := Fused(parent, slot, child, sibling);
      && Roomy(n.(entries := n.entries[..m]), capacity)
      && Roomy(n.(first := n.entries[m].right, entries := n.entries[m + 1..]), capacity)
      && Roomy(WithKey(parent, j, n.entries[m].key), capacity)
  {
    FusedRoomy(parent, slot, child, sibling, capacity);
    var n := Fused(parent, slot, child, sibling);
    assert Small(n.kind, n.entries[m], capacity);
  }
}
