/** A tree in which a delete is refused, for any size of page. */
module CrowdedTree {
  import opened Common
  import opened Keys
  import opened Shape
  import opened Nodes
  import opened Splits
  import opened PageTxn
  import opened Trees
  import opened Reclaim
  import opened Room
  import opened Refusals
  import opened Commits

  // ---------------------------------------------------------------- eight keys

  /** A key of the given length that starts with the given byte. */
  function Padded(b: byte, length: nat): Bytes
    requires length > 0
  { [b] + seq(length - 1, i => 0) }

  /** The sizes, as separators, of the keys that matter: two of half a page, and two that fill the root. */
  function HalfPage(capacity: nat): nat
    requires 60 <= capacity
  { (capacity - HEADER_SIZE) / 2 }

  function Filler(capacity: nat): nat
    requires 60 <= capacity
  { (capacity - HEADER_SIZE - 13) / 2 }

  function KeyAt(capacity: nat, i: nat): Bytes
    requires 60 <= capacity && 1 <= i <= 8
  {
    Padded(i as byte,
      if i <= 2 then HalfPage(capacity) - 12 else if i == 5 || i == 7 then Filler(capacity) - 12 else 1)
  }

  lemma KeysAscend(capacity: nat, i: nat, j: nat)
    requires 60 <= capacity && 1 <= i < j <= 8
    ensures Rank(KeyAt(capacity, i)) < Rank(KeyAt(capacity, j))
  {
    RankIsOrder(KeyAt(capacity, i), KeyAt(capacity, j));
  }

  /** The borders of the nine leaves. */
  ghost function Border(capacity: nat, i: nat): real
    requires 60 <= capacity && i <= 9
  { if i == 0 then 0.0 else if i == 9 then 1.0 else Rank(KeyAt(capacity, i)) }

  lemma BordersAscend(capacity: nat, i: nat, j: nat)
    requires 60 <= capacity && i < j <= 9
    ensures 0.0 <= Border(capacity, i) < Border(capacity, j) <= 1.0
  {
    if 0 < i && j < 9 { KeysAscend(capacity, i, j); }
  }

  ghost predicate Rising(b: seq<real>) {
    && |b| == 10 && b[0] == 0.0 && b[9] == 1.0
    && b[0] < b[1] < b[2] < b[3] < b[4] < b[5] < b[6] < b[7] < b[8] < b[9]
  }

  ghost function Borders(capacity: nat): seq<real>
    requires 60 <= capacity
  { seq(10, i requires 0 <= i < 10 => Border(capacity, i)) }

  lemma BordersOk(capacity: nat)
    requires 60 <= capacity
    ensures Rising(Borders(capacity))
  {
    forall i | 0 <= i < 9 ensures Border(capacity, i) < Border(capacity, i + 1) { BordersAscend(capacity, i, i + 1); }
  }

  // ---------------------------------------------------------------- where the pages lie

  ghost function SpanAt(b: seq<real>, p: PageId): Span
    requires |b| == 10 && 0 <= p < 15
  {
    if p == 0 then Span(0.0, 1.0, 3, 0)
    else if p == 1 then Span(b[0], b[9], 2, 0)
    else if p == 2 then Span(b[0], b[3], 1, 1)
    else if p == 3 then Span(b[3], b[5], 1, 1)
    else if p == 4 then Span(b[5], b[7], 1, 1)
    else if p == 5 then Span(b[7], b[9], 1, 1)
    else Span(b[p - 6], b[p - 5], 0, if p < 9 then 2 else if p < 11 then 3 else if p < 13 then 4 else 5)
  }

  ghost function SpansOf(b: seq<real>): Spans
    requires |b| == 10
  { map p | 0 <= p < 15 :: SpanAt(b, p) }

  ghost function ViewAt(b: seq<real>, p: PageId): View
    requires |b| == 10 && 0 <= p < 15
  {
    if p == 0 then InnerView(1, map[])
    else if p == 1 then InnerView(2, map[b[3] := 3, b[5] := 4, b[7] := 5])
    else if p == 2 then InnerView(6, map[b[1] := 7, b[2] := 8])
    else if p == 3 then InnerView(9, map[b[4] := 10])
    else if p == 4 then InnerView(11, map[b[6] := 12])
    else if p == 5 then InnerView(13, map[b[8] := 14])
    else LeafView(if p == 10 then map[b[4] := []] else map[], if p == 14 then 0 else p + 1)
  }

  ghost function AllViews(b: seq<real>): Views
    requires |b| == 10
  { map p | 0 <= p < 15 :: ViewAt(b, p) }

  lemma InnerPages(b: seq<real>, p: PageId)
    requires Rising(b) && 0 <= p <= 5
    ensures InnerOk(p, ViewAt(b, p), SpanAt(b, p), SpansOf(b))
  {
    if p <= 1 { TopPages(b, p); } else { LowPages(b, p); }
  }

  lemma TopPages(b: seq<real>, p: PageId)
    requires Rising(b) && 0 <= p <= 1
    ensures InnerOk(p, ViewAt(b, p), SpanAt(b, p), SpansOf(b))
  {
    var spans := SpansOf(b);
    assert forall q :: 0 <= q <= 5 ==> q in spans && spans[q] == SpanAt(b, q);
  }

  lemma LowPages(b: seq<real>, p: PageId)
    requires Rising(b) && 2 <= p <= 5
    ensures InnerOk(p, ViewAt(b, p), SpanAt(b, p), SpansOf(b))
  {
    var spans := SpansOf(b);
    assert forall q :: 6 <= q < 15 ==> q in spans && spans[q] == SpanAt(b, q);
  }

  lemma LeafPages(b: seq<real>, p: PageId)
    requires Rising(b) && 6 <= p < 15
    ensures LeafOk(ViewAt(b, p), SpanAt(b, p), SpansOf(b), map[b[4] := []])
  {
    var spans := SpansOf(b);
    assert p < 14 ==> p + 1 in spans && spans[p + 1] == SpanAt(b, p + 1);
  }

  lemma PagesOk(b: seq<real>, p: PageId)
    requires Rising(b) && 0 <= p < 15
    ensures PageOk(AllViews(b), SpansOf(b), map[b[4] := []], p)
  {
    if p <= 5 { InnerPages(b, p); } else { LeafPages(b, p); }
  }

  lemma ShapeOk(b: seq<real>)
    requires Rising(b)
    ensures Shaped(AllViews(b), SpansOf(b), map[b[4] := []])
  {
    var views, spans, held: Contents := AllViews(b), SpansOf(b), map[b[4] := []];
    forall p | p in views ensures PageOk(views, spans, held, p) { PagesOk(b, p); }
  }

  // ---------------------------------------------------------------- what is on the pages

  function Sep(capacity: nat, i: nat, right: PageId): Entry
    requires 60 <= capacity && 1 <= i <= 8
  { Entry(KeyAt(capacity, i), [], right) }

  function NodeAt(capacity: nat, p: PageId): Node
    requires 60 <= capacity && 0 < p < 15
  {
    if p == 1 then Node(Internal, 0, 2, [Sep(capacity, 3, 3), Sep(capacity, 5, 4), Sep(capacity, 7, 5)])
    else if p == 2 then Node(Internal, 0, 6, [Sep(capacity, 1, 7), Sep(capacity, 2, 8)])
    else if p == 3 then Node(Internal, 0, 9, [Sep(capacity, 4, 10)])
    else if p == 4 then Node(Internal, 0, 11, [Sep(capacity, 6, 12)])
    else if p == 5 then Node(Internal, 0, 13, [Sep(capacity, 8, 14)])
    else Node(Leaf, if p == 14 then 0 else p + 1, 0, if p == 10 then [Sep(capacity, 4, 0)] else [])
  }

  function AllNodes(capacity: nat): NodeMap
    requires 60 <= capacity
  { map p | 0 < p < 15 :: NodeAt(capacity, p) }

  lemma FewViews(first: PageId, a: Entry, b: Entry, c: Entry)
    ensures ViewOf(Node(Internal, 0, first, [a])) == InnerView(first, map[Rank(a.key) := a.right])
    ensures ViewOf(Node(Internal, 0, first, [a, b])) ==
      InnerView(first, map[Rank(a.key) := a.right, Rank(b.key) := b.right])
    ensures ViewOf(Node(Internal, 0, first, [a, b, c])) ==
      InnerView(first, map[Rank(a.key) := a.right, Rank(b.key) := b.right, Rank(c.key) := c.right])
  {
    assert [a][..0] == [] && [a, b][..1] == [a] && [a, b, c][..2] == [a, b];
    assert ByRank([a]) == map[Rank(a.key) := a];
    assert ByRank([a, b]) == map[Rank(a.key) := a, Rank(b.key) := b];
    assert ByRank([a, b, c]) == map[Rank(a.key) := a, Rank(b.key) := b, Rank(c.key) := c];
  }

  lemma FewSizes(kind: Kind, a: Entry, b: Entry, c: Entry)
    ensures EntriesSize(kind, [a]) == EntrySize(kind, a)
    ensures EntriesSize(kind, [a, b]) == EntrySize(kind, a) + EntrySize(kind, b)
    ensures EntriesSize(kind, [a, b, c]) == EntrySize(kind, a) + EntrySize(kind, b) + EntrySize(kind, c)
  {
    assert [a][..0] == [] && [a, b][..1] == [a] && [a, b, c][..2] == [a, b];
  }

  lemma InnerViewIs(capacity: nat, p: PageId)
    requires 60 <= capacity && 0 < p <= 5
    ensures ViewOf(NodeAt(capacity, p)) == ViewAt(Borders(capacity), p)
  {
    var n := NodeAt(capacity, p);
    var es := n.entries;
    FewViews(n.first, es[0], if |es| > 1 then es[1] else es[0], if |es| > 2 then es[2] else es[0]);
  }

  lemma LeafViewIs(capacity: nat, p: PageId)
    requires 60 <= capacity && 6 <= p < 15
    ensures ViewOf(NodeAt(capacity, p)) == ViewAt(Borders(capacity), p)
  {
    var e := Sep(capacity, 4, 0);
    assert [e][..0] == [];
    assert ByRank([e]) == map[Rank(e.key) := e];
  }

  lemma EntryOk(capacity: nat, i: nat, right: PageId)
    requires 60 <= capacity <= MAX_CAPACITY && 1 <= i <= 8
    ensures EntryValid(if right == 0 then Leaf else Internal, Sep(capacity, i, right))
    ensures Small(if right == 0 then Leaf else Internal, Sep(capacity, i, right), capacity)
    ensures EntrySize(Internal, Sep(capacity, i, right)) ==
      if i <= 2 then HalfPage(capacity) else if i == 5 || i == 7 then Filler(capacity) else 13
  {
  }

  lemma NodeFits(capacity: nat, p: PageId)
    requires 60 <= capacity <= MAX_CAPACITY && 0 < p < 15
    ensures Fits(NodeAt(capacity, p), capacity)
  {
    var n := NodeAt(capacity, p);
    var es := n.entries;
    forall i | 1 <= i <= 8 ensures EntrySize(Internal, Sep(capacity, i, 1)) <= HalfPage(capacity) {
      EntryOk(capacity, i, 1);
    }
    forall i | 0 <= i < |es| ensures EntryValid(n.kind, es[i]) && Small(n.kind, es[i], capacity) {
      EntryOk(capacity, es[i].key[0] as nat, es[i].right);
    }
    forall i | 0 < i < |es| ensures AscendsAt(es, i) {
      KeysAscend(capacity, es[i - 1].key[0] as nat, es[i].key[0] as nat);
      RankIsOrder(es[i - 1].key, es[i].key);
    }
    if |es| > 0 {
      FewSizes(n.kind, es[0], if |es| > 1 then es[1] else es[0], if |es| > 2 then es[2] else es[0]);
      assert es == if |es| == 1 then [es[0]] else if |es| == 2 then [es[0], es[1]] else [es[0], es[1], es[2]];
    }
  }

  // ---------------------------------------------------------------- the delete

  /** The only cut moves the second long key up, and the root has no room for it. */
  lemma NoRoom(capacity: nat)
    requires 60 <= capacity <= MAX_CAPACITY
    ensures var parent, combined := NodeAt(capacity, 1), Fused(NodeAt(capacity, 1), 1, 9, NodeAt(capacity, 2));
      && EncodedSize(combined) > capacity && Best(combined, capacity, 1)
      && EncodedSize(WithKey(parent, 0, combined.entries[1].key)) > capacity
      && !Shareable(parent, 1, combined, capacity)
  {
    var parent, combined := NodeAt(capacity, 1), Fused(NodeAt(capacity, 1), 1, 9, NodeAt(capacity, 2));
    var a, b, c := Sep(capacity, 1, 7), Sep(capacity, 2, 8), Sep(capacity, 3, 9);
    assert combined.entries == [a, b, c];
    assert [a, b, c][..1] == [a] && [a, b, c][2..] == [c];
    FewSizes(Internal, a, b, c);
    FewSizes(Internal, c, c, c);
    var raised := WithKey(parent, 0, b.key);
    assert raised.entries == [Sep(capacity, 2, 3), Sep(capacity, 5, 4), Sep(capacity, 7, 5)];
    FewSizes(Internal, raised.entries[0], raised.entries[1], raised.entries[2]);
    assert Admissible(combined, capacity, 1);
    ShareDecided(parent, 1, combined, 1, capacity);
  }

  lemma WayDown(capacity: nat)
    requires 60 <= capacity <= MAX_CAPACITY
    ensures Routed(AllNodes(capacity), 1, KeyAt(capacity, 4), [1, 3], [1, 1], 10)
  {
    KeysAscend(capacity, 3, 4);
    KeysAscend(capacity, 4, 5);
    KeysAscend(capacity, 4, 7);
    var nodes, key, pages: seq<PageId>, slots: seq<nat> := AllNodes(capacity), KeyAt(capacity, 4), [1, 3], [1, 1];
    forall l | 0 <= l < 2 ensures RoutedAt(nodes, key, pages, slots, 10, l) { }
  }

  /** The delete of the one entry of this tree is refused. */
  lemma DeleteIsRefused(capacity: nat)
    requires 60 <= capacity <= MAX_CAPACITY
    ensures DeleteRefused(AllNodes(capacity), 1, [], KeyAt(capacity, 4), capacity)
  {
    var nodes, pages: seq<PageId>, slots: seq<nat> := AllNodes(capacity), [1, 3], [1, 1];
    NoRoom(capacity);
    WayDown(capacity);
    assert Level(nodes, pages, slots, 0) && SiblingAt(nodes, pages, slots, 0) == 2;
    assert Refused(nodes, 1, 9, pages, slots, 1, capacity);
    assert Level(nodes, pages, slots, 1) && SiblingAt(nodes, pages, slots, 1) == 9;
    assert DropRefused(nodes, 1, pages, slots, 2, capacity);
    DeleteDecided(nodes, 1, [], KeyAt(capacity, 4), pages, slots, 10, capacity);
  }

  ghost function WholeTree(capacity: nat): Tree
    requires 60 <= capacity
  {
    var b := Borders(capacity);
    Tree(AllNodes(capacity), AllViews(b), SpansOf(b), map[b[4] := []])
  }

  lemma WholeTreeRooted(capacity: nat)
    requires 60 <= capacity
    ensures Rooted(WholeTree(capacity), 1)
  {
    var t := WholeTree(capacity);
    BordersOk(capacity);
    ShapeOk(Borders(capacity));
    forall p | p in t.nodes ensures t.views[p] == ViewOf(t.nodes[p]) {
      if p <= 5 { InnerViewIs(capacity, p); } else { LeafViewIs(capacity, p); }
    }
  }

  lemma AllNodesFit(capacity: nat)
    requires 60 <= capacity <= MAX_CAPACITY
    ensures NodesOk(AllNodes(capacity), capacity) && AllRoomy(AllNodes(capacity), capacity)
  {
    var nodes := AllNodes(capacity);
    forall p | p in nodes
      ensures NodeValid(nodes[p]) && EncodedSize(nodes[p]) <= capacity && Roomy(nodes[p], capacity) {
      NodeFits(capacity, p);
    }
    forall p ensures RoomyAt(nodes, p, capacity) { }
  }

  ghost function Stamped(nodes: NodeMap): map<PageId, Page> { map p | p in nodes :: Data(nodes[p]) }

  lemma AllStored(nodes: NodeMap, next: PageId)
    requires next > 0 && forall p :: p in nodes <==> 0 < p < next
    ensures TxnOk(Stamped(nodes), [], [], next, []) && Stored(nodes, map[], Stamped(nodes))
    ensures Accounted(nodes, [], next, 0)
  {
  }

  lemma OneRanked(key: Bytes, value: Bytes)
    ensures RanksOf(map[key := value], map[Rank(key) := value])
  {
    var none: map<Bytes, Bytes>, held: map<real, Bytes> := map[], map[];
    assert RanksOf(none, held);
    RanksPut(none, held, key, value);
    assert none[key := value] == map[key := value] && held[Rank(key) := value] == map[Rank(key) := value];
  }

  /** For every size of page there is a committed tree, with no entry above half a page, and a key in it like that. */
  lemma RefusalArises(capacity: nat)
      returns (disk: map<PageId, Page>, t: Tree, contents: map<Bytes, Bytes>, key: Bytes)
    requires 60 <= capacity <= MAX_CAPACITY
    ensures CommittedTree(disk, 15, [], capacity, 1, t, contents) && AllRoomy(t.nodes, capacity)
    ensures 0 < |key| <= MAX_KEY && key in contents && DeleteRefused(t.nodes, 1, [], key, capacity)
  {
    key, t := KeyAt(capacity, 4), WholeTree(capacity);
    disk, contents := Stamped(AllNodes(capacity)), map[key := []];
    CrowdedCommitted(capacity, key);
    AllNodesFit(capacity);
    DeleteIsRefused(capacity);
  }

  lemma CrowdedCommitted(capacity: nat, key: Bytes)
    requires 60 <= capacity <= MAX_CAPACITY && key == KeyAt(capacity, 4)
    ensures CommittedTree(Stamped(AllNodes(capacity)), 15, [], capacity, 1, WholeTree(capacity), map[key := []])
  {
    WholeTreeRooted(capacity);
    AllNodesFit(capacity);
    AllStored(AllNodes(capacity), 15);
    OneRanked(key, []);
  }
}
