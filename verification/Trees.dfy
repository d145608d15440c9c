/** The tree that a batch keeps in its books: nodes by page, their views and their places. */
module Trees {
  import opened Common
  import opened Keys
  import opened Shape
  import opened Nodes
  import opened PageTxn

  type NodeMap = map<PageId, Node>

  /** r is m with every key replaced by its rank. */
  ghost predicate RanksOf(m: map<Bytes, Bytes>, r: map<real, Bytes>) {
    && (forall k {:trigger RankedAt(m, r, k)} :: RankedAt(m, r, k))
    && (forall x {:trigger KeyedAt(m, r, x)} :: KeyedAt(m, r, x))
  }

  ghost predicate RankedAt(m: map<Bytes, Bytes>, r: map<real, Bytes>, k: Bytes) {
    k in m ==> Rank(k) in r && r[Rank(k)] == m[k]
  }

  ghost predicate KeyedAt(m: map<Bytes, Bytes>, r: map<real, Bytes>, x: real) {
    x in r ==> exists k :: k in m && Rank(k) == x
  }

  lemma RanksHas(m: map<Bytes, Bytes>, r: map<real, Bytes>, k: Bytes)
    requires RanksOf(m, r)
    ensures k in m <==> Rank(k) in r
    ensures k in m ==> r[Rank(k)] == m[k]
  {
    assert RankedAt(m, r, k) && KeyedAt(m, r, Rank(k));
    if Rank(k) in r {
      var j :| j in m && Rank(j) == Rank(k);
      RankIsOrder(j, k);
    }
  }

  lemma RanksPut(m: map<Bytes, Bytes>, r: map<real, Bytes>, k: Bytes, v: Bytes)
    requires RanksOf(m, r)
    ensures RanksOf(m[k := v], r[Rank(k) := v])
  {
    var m', r' := m[k := v], r[Rank(k) := v];
    forall j ensures RankedAt(m', r', j) {
      assert RankedAt(m, r, j);
      RankIsOrder(j, k);
    }
    forall x ensures KeyedAt(m', r', x) {
      assert KeyedAt(m, r, x);
      if x == Rank(k) { assert k in m'; } else if x in r { var j :| j in m && Rank(j) == x; assert j in m'; }
    }
  }

  lemma RanksDrop(m: map<Bytes, Bytes>, r: map<real, Bytes>, k: Bytes)
    requires RanksOf(m, r)
    ensures RanksOf(m - {k}, r - {Rank(k)})
  {
    var m', r' := m - {k}, r - {Rank(k)};
    forall j ensures RankedAt(m', r', j) {
      assert RankedAt(m, r, j);
      RankIsOrder(j, k);
    }
    forall x ensures KeyedAt(m', r', x) {
      assert KeyedAt(m, r, x);
      if x in r' { var j :| j in m && Rank(j) == x; assert j in m'; }
    }
  }

  /** The views are those of the nodes; only the view of page x may be ahead of its node. */
  ghost predicate Mirrors(nodes: NodeMap, views: Views, x: PageId) {
    && 0 !in nodes && views.Keys == nodes.Keys + {0}
    && (forall p :: p in nodes && p != x ==> views[p] == ViewOf(nodes[p]))
  }

  ghost function ViewsOf(nodes: NodeMap, root: PageId): Views {
    map p | p in nodes.Keys + {0} :: if p == 0 then InnerView(root, map[]) else ViewOf(nodes[p])
  }

  /** Reading a tree page through the batch gives its node. */
  ghost predicate Stored(nodes: NodeMap, items: NodeMap, disk: map<PageId, Page>) {
    forall p :: p in nodes ==>
      if p in items then items[p] == nodes[p] else p in disk && disk[p] == Data(nodes[p])
  }

  ghost predicate NodesOk(nodes: NodeMap, capacity: nat) {
    forall p :: p in nodes ==>
      && NodeValid(nodes[p]) && EncodedSize(nodes[p]) <= capacity
      && (nodes[p].kind == Internal ==> nodes[p].entries != [])
  }

  /** Tree pages, free pages and the page x on its way into the tree partition the file. */
  ghost predicate Accounted(nodes: NodeMap, chain: seq<PageId>, next: PageId, x: PageId) {
    && (forall p :: p in nodes || p in chain || (p == x && p != 0) <==> 0 < p < next)
    && (forall p :: p in nodes ==> p !in chain && p != x)
    && x !in chain
  }

  ghost predicate Owned(nodes: NodeMap, items: NodeMap, taken: seq<PageId>, disk: map<PageId, Page>, x: PageId) {
    && items.Keys <= nodes.Keys
    && (forall p :: p in taken ==> p in items || p == x)
    && (forall p :: p in nodes || (p == x && p != 0) ==> p in taken || (p in disk && disk[p].Data?))
  }

  lemma TakenAccounted(nodes: NodeMap, chain: seq<PageId>, next: PageId, chain': seq<PageId>, next': PageId, r: PageId)
    requires Accounted(nodes, chain, next, 0) && Distinct(chain) && 0 < next
    requires if chain == [] then r == next && chain' == [] && next' == next + 1
             else r == chain[0] && chain' == chain[1..] && next' == next
    ensures Accounted(nodes, chain', next', r) && r !in nodes && r != 0
  {
    if chain != [] {
      assert chain == [chain[0]] + chain[1..];
      assert r in chain && r !in chain';
      assert forall p :: p in chain <==> p == r || p in chain';
    }
  }

  lemma TakenOwned(nodes: NodeMap, items: NodeMap, taken: seq<PageId>, disk: map<PageId, Page>, r: PageId)
    requires Owned(nodes, items, taken, disk, 0) && 0 !in taken
    ensures Owned(nodes, items, taken + [r], disk, r)
  {
    assert r in taken + [r];
  }

  /** Page p, of the tree or on its way into it, is stored anew. */
  lemma StagedBooks(nodes: NodeMap, items: NodeMap, chain: seq<PageId>, next: PageId, taken: seq<PageId>,
                    disk: map<PageId, Page>, p: PageId, n: Node, x: PageId, capacity: nat)
    requires Stored(nodes, items, disk) && NodesOk(nodes, capacity)
    requires Accounted(nodes, chain, next, x) && Owned(nodes, items, taken, disk, x)
    requires p in nodes || (p == x && p != 0)
    requires NodeValid(n) && EncodedSize(n) <= capacity && (n.kind == Internal ==> n.entries != [])
    ensures var nodes', items', x' := nodes[p := n], items[p := n], if p == x then 0 else x;
      && Stored(nodes', items', disk) && NodesOk(nodes', capacity)
      && Accounted(nodes', chain, next, x') && Owned(nodes', items', taken, disk, x')
  {
  }

  /** The tree of a batch: the node of every tree page, its view and its place, and what it holds. */
  datatype Tree = Tree(nodes: NodeMap, views: Views, spans: Spans, held: Contents)

  ghost predicate Held(t: Tree, x: PageId) {
    Mirrors(t.nodes, t.views, x) && Shaped(t.views, t.spans, t.held)
  }

  ghost predicate Rooted(t: Tree, root: PageId) {
    Held(t, 0) && root in t.nodes && t.views[0] == InnerView(root, map[])
  }

  /** A refusal that blames the request or the room left, not the tree. */
  predicate Benign(st: Status) { st == Ok || st == Overflow || st == InvalidArgument || st == BufferTooSmall }

  lemma InnerBranches(n: Node)
    requires n.kind == Internal && NodeValid(n) && n.entries != []
    ensures HasSep(ViewOf(n))
  {
    ValidIsSorted(n);
    SepAt(n, 0);
  }

  lemma PowersOfTwo()
    ensures Pow2(64) == 0x1_0000_0000_0000_0000
  {
    assert Pow2(8) == 0x100;
    assert Pow2(16) == 0x1_0000;
    assert Pow2(24) == 0x100_0000;
    assert Pow2(32) == 0x1_0000_0000;
    assert Pow2(40) == 0x100_0000_0000;
    assert Pow2(48) == 0x1_0000_0000_0000;
    assert Pow2(56) == 0x100_0000_0000_0000;
  }

  /** With 64-bit page ids a tree never reaches the depth at which a walk gives up. */
  lemma HeightBound(t: Tree, root: PageId, capacity: nat, chain: seq<PageId>, next: PageId)
    requires Rooted(t, root) && NodesOk(t.nodes, capacity) && Accounted(t.nodes, chain, next, 0)
    requires next <= MAX_PAGES
    ensures t.spans[root].height < MAX_DEPTH
  {
    PowersOfTwo();
    forall p | p in t.views && p != 0 && t.views[p].InnerView? ensures HasSep(t.views[p]) {
      InnerBranches(t.nodes[p]);
    }
    Shallow(t.views, t.spans, t.held, root, MAX_DEPTH);
  }

  /** A leaf that covers x answers for it. */
  lemma LeafAnswers(t: Tree, p: PageId, x: real)
    requires Held(t, 0) && p in t.nodes && t.nodes[p].kind == Leaf
    requires t.spans[p].lo <= x < t.spans[p].hi
    ensures var m := ViewOf(t.nodes[p]).entries;
      (x in m <==> x in t.held) && (x in m ==> m[x] == t.held[x])
  {
    PageAt(t.views, t.spans, t.held, p);
  }

  lemma BeginOk(nodes: NodeMap, root: PageId, disk: map<PageId, Page>, chain: seq<PageId>, next: PageId, spans: Spans,
                held: Contents)
    requires Stored(nodes, map[], disk) && Accounted(nodes, chain, next, 0)
    requires root in nodes && Shaped(ViewsOf(nodes, root), spans, held)
    ensures Owned(nodes, map[], [], disk, 0) && Rooted(Tree(nodes, ViewsOf(nodes, root), spans, held), root)
  {
  }

  ghost function WithSep(v: View, sep: Bytes, right: PageId): View
    requires v.InnerView?
  { v.(seps := v.seps[Rank(sep) := right]) }

  /** Pages higher than h are as before; the view of page x may differ. */
  ghost predicate KeptAbove(t: Tree, t': Tree, h: nat, x: PageId) {
    forall q :: q in t.spans && t.spans[q].height > h ==>
      && q in t'.spans && t'.spans[q] == t.spans[q]
      && (q in t.nodes ==> q in t'.nodes && t'.nodes[q] == t.nodes[q])
      && (q in t.views && q != x ==> q in t'.views && t'.views[q] == t.views[q])
  }

  /**
   * A grown node has been stored at p. If it was cut at sep, the view of the parent of p, not yet
   * its node, knows the right part.
   */
  ghost predicate Grown(t: Tree, t': Tree, p: PageId, split: bool, sep: Bytes, right: PageId) {
    && p in t.spans
    && var above := t.spans[p].parent;
    && KeptAbove(t, t', t.spans[p].height, above)
    && if split then
         && Held(t', above)
         && above in t.views && t.views[above].InnerView? && above in t'.views
         && t'.views[above] == WithSep(t.views[above], sep, right)
         && t.spans[p].lo < Rank(sep) < t.spans[p].hi
       else
         && Held(t', 0)
         && above in t.views && above in t'.views && t'.views[above] == t.views[above]
  }

  lemma SplitLeafStep(t: Tree, p: PageId, n: Node, m: nat, r: PageId) returns (t': Tree)
    requires Held(t, p) && p in t.nodes
    requires n.kind == Leaf && Sorted(n.entries) && t.views[p] == ViewOf(n) && 1 <= m < |n.entries|
    requires r !in t.nodes && r != 0
    ensures t'.nodes == t.nodes[p := n.(entries := n.entries[..m], next := r)][r := n.(entries := n.entries[m..])]
    ensures Grown(t, t', p, true, n.entries[m].key, r) && t'.held == t.held
  {
    var lower, upper := n.(entries := n.entries[..m], next := r), n.(entries := n.entries[m..]);
    var k, above := n.entries[m].key, t.spans[p].parent;
    SplitLeafSep(t, p, n, m);
    LeafCut(n, m, r, n.next);
    t' := Tree(
      t.nodes[p := lower][r := upper],
      t.views[p := ViewOf(lower)][r := ViewOf(upper)][above := WithSep(t.views[above], k, r)],
      t.spans[p := t.spans[p].(hi := Rank(k))][r := t.spans[p].(lo := Rank(k))],
      t.held);
    SplitLeaf(t.views, t.spans, t.held, t'.views, t'.spans, p, Rank(k), r);
    SplitMirrors(t, t', p, lower, upper, WithSep(t.views[above], k, r), r);
    SplitLeafKept(t, t', p, lower, upper, WithSep(t.views[above], k, r), Rank(k), r);
  }

  lemma SplitMirrors(t: Tree, t': Tree, p: PageId, a: Node, b: Node, v: View, r: PageId)
    requires Held(t, p) && p in t.nodes && r !in t.nodes && r != 0 && t.spans[p].parent in t.views
    requires t'.nodes == t.nodes[p := a][r := b]
    requires t'.views == t.views[p := ViewOf(a)][r := ViewOf(b)][t.spans[p].parent := v]
    ensures Mirrors(t'.nodes, t'.views, t.spans[p].parent)
  {
  }

  lemma SplitLeafKept(t: Tree, t': Tree, p: PageId, a: Node, b: Node, v: View, x: real, r: PageId)
    requires p in t.spans && r !in t.spans && t.nodes.Keys <= t.spans.Keys && t.views.Keys <= t.spans.Keys
    requires t'.nodes == t.nodes[p := a][r := b]
    requires t'.views == t.views[p := ViewOf(a)][r := ViewOf(b)][t.spans[p].parent := v]
    requires t'.spans == t.spans[p := t.spans[p].(hi := x)][r := t.spans[p].(lo := x)]
    ensures KeptAbove(t, t', t.spans[p].height, t.spans[p].parent)
  {
  }

  lemma SplitLeafSep(t: Tree, p: PageId, n: Node, m: nat)
    requires Held(t, p) && p in t.nodes
    requires n.kind == Leaf && Sorted(n.entries) && t.views[p] == ViewOf(n) && 1 <= m < |n.entries|
    ensures t.spans[p].lo < Rank(n.entries[m].key) < t.spans[p].hi && t.spans[p].height == 0
    ensures var above := t.spans[p].parent;
      && above in t.views && t.views[above].InnerView? && above != p
      && t.spans[above].height > 0
  {
    var above := Parent(t.views, t.spans, t.held, p);
    LeafKeyIn(n, 0);
    LeafKeyIn(n, m);
  }

  lemma SettledStep(t: Tree, p: PageId, n: Node)
    requires Held(t, p) && p in t.nodes && t.views[p] == ViewOf(n)
    ensures Grown(t, t.(nodes := t.nodes[p := n]), p, false, [], 0)
  {
    var above := Parent(t.views, t.spans, t.held, p);
    SettledKept(t, p, n);
    SettledHeld(t, p, n);
  }

  lemma SettledKept(t: Tree, p: PageId, n: Node)
    requires p in t.spans
    ensures KeptAbove(t, t.(nodes := t.nodes[p := n]), t.spans[p].height, t.spans[p].parent)
  {
  }

  lemma SettledHeld(t: Tree, p: PageId, n: Node)
    requires Held(t, p) && p in t.nodes && t.views[p] == ViewOf(n)
    ensures Held(t.(nodes := t.nodes[p := n]), 0)
  {
  }

  lemma SplitInnerStep(t: Tree, p: PageId, n: Node, m: nat, r: PageId) returns (t': Tree)
    requires Held(t, p) && p in t.nodes
    requires n.kind == Internal && Sorted(n.entries) && t.views[p] == ViewOf(n) && m < |n.entries|
    requires r !in t.nodes && r != 0
    ensures t'.nodes == t.nodes[p := n.(entries := n.entries[..m])]
                               [r := n.(first := n.entries[m].right, entries := n.entries[m + 1..])]
    ensures Grown(t, t', p, true, n.entries[m].key, r) && t'.held == t.held
  {
    var lower, upper := n.(entries := n.entries[..m]), n.(first := n.entries[m].right, entries := n.entries[m + 1..]);
    var k, above := n.entries[m].key, t.spans[p].parent;
    InnerCut(n, m);
    SplitInnerSep(t, p, Rank(k));
    t' := Tree(
      t.nodes[p := lower][r := upper],
      t.views[p := ViewOf(lower)][r := ViewOf(upper)][above := WithSep(t.views[above], k, r)],
      SplitSpans(t.spans, p, Rank(k), r),
      t.held);
    SplitInner(t.views, t.spans, t.held, t'.views, t'.spans, p, Rank(k), r);
    SplitMirrors(t, t', p, lower, upper, WithSep(t.views[above], k, r), r);
    SplitInnerKept(t, t', p, lower, upper, ViewOf(lower), ViewOf(upper), WithSep(t.views[above], k, r), Rank(k), r);
  }

  lemma SplitInnerKept(t: Tree, t': Tree, p: PageId, a: Node, b: Node, va: View, vb: View, v: View, x: real, r: PageId)
    requires p in t.spans && r !in t.spans && t.nodes.Keys <= t.spans.Keys && t.views.Keys <= t.spans.Keys
    requires t'.nodes == t.nodes[p := a][r := b]
    requires t'.views == t.views[p := va][r := vb][t.spans[p].parent := v]
    requires t'.spans == SplitSpans(t.spans, p, x, r)
    requires forall c :: c in t.spans && t.spans[c].parent == p ==> t.spans[c].height < t.spans[p].height
    ensures KeptAbove(t, t', t.spans[p].height, t.spans[p].parent)
  {
    SplitSpansKept(t.spans, p, x, r, t.spans[p].height);
  }

  lemma SplitInnerSep(t: Tree, p: PageId, x: real)
    requires Held(t, p) && p in t.nodes && t.views[p].InnerView? && x in t.views[p].seps
    ensures t.spans[p].lo < x < t.spans[p].hi
    ensures var above := t.spans[p].parent;
      && above in t.views && t.views[above].InnerView? && above != p
      && t.spans[above].height > t.spans[p].height
    ensures forall c :: c in t.spans && t.spans[c].parent == p ==> t.spans[c].height < t.spans[p].height
  {
    var above := Parent(t.views, t.spans, t.held, p);
    forall c | c in t.spans && t.spans[c].parent == p ensures t.spans[c].height < t.spans[p].height {
      if c != 0 { var other := Parent(t.views, t.spans, t.held, c); }
    }
  }

  lemma SplitSpansKept(spans: Spans, p: PageId, x: real, r: PageId, h: nat)
    requires p in spans && r !in spans && h == spans[p].height
    requires forall c :: c in spans && spans[c].parent == p ==> spans[c].height < h
    ensures forall q :: q in spans && spans[q].height > h ==>
      q in SplitSpans(spans, p, x, r) && SplitSpans(spans, p, x, r)[q] == spans[q]
  {
  }

  lemma LeafPutStep(t: Tree, p: PageId, n: Node, x: real, v: Bytes) returns (t': Tree)
    requires Held(t, 0) && p in t.nodes && t.nodes[p].kind == Leaf && n.kind == Leaf
    requires t.spans[p].lo <= x < t.spans[p].hi
    requires ViewOf(n) == LeafView(ViewOf(t.nodes[p]).entries[x := v], t.nodes[p].next)
    ensures t' == t.(views := t.views[p := ViewOf(n)], held := t.held[x := v])
    ensures Held(t', p) && KeptFrom(t, t', p)
  {
    var above := Parent(t.views, t.spans, t.held, p);
    t' := t.(views := t.views[p := ViewOf(n)], held := t.held[x := v]);
    PageAt(t.views, t.spans, t.held, p);
    SetLeaf(t.views, t.spans, t.held, t'.views, t'.held, p);
  }

  /** The child that a search enters is a tree page one level down that covers the key. */
  lemma RouteStep(t: Tree, p: PageId, n: Node, i: nat, x: real)
    requires Held(t, 0) && p in t.nodes && n == t.nodes[p] && n.kind == Internal && Sorted(n.entries)
    requires t.spans[p].lo <= x < t.spans[p].hi && Routes(n.entries, i, x)
    ensures KidOf(t, p, n, i) && ChildAt(n, i) in t.nodes
    ensures t.spans[ChildAt(n, i)].lo <= x < t.spans[ChildAt(n, i)].hi
  {
    PageAt(t.views, t.spans, t.held, p);
    KidIndex(p, n, t.spans[p], t.spans, i);
    PageAt(t.views, t.spans, t.held, 0);
  }

  /** After the child has been dealt with, the node with the new separator is what p should hold. */
  ghost predicate KidOf(t: Tree, p: PageId, n: Node, i: nat) {
    && p in t.spans && i <= |n.entries|
    && var c := ChildAt(n, i);
    && c in t.spans && t.spans[c].parent == p && t.spans[c].height + 1 == t.spans[p].height
    && t.spans[c].lo == LowEnd(n, t.spans[p].lo, i) && t.spans[c].hi == HighEnd(n, t.spans[p].hi, i)
  }

  lemma ChildStored(t: Tree, t1: Tree, p: PageId, n: Node, i: nat, split: bool, sep: Bytes, right: PageId)
    requires Held(t, 0) && p in t.nodes && n == t.nodes[p] && n.kind == Internal && Sorted(n.entries)
      && i <= |n.entries|
    requires KidOf(t, p, n, i) && Grown(t, t1, ChildAt(n, i), split, sep, right)
    ensures p in t1.nodes && t1.nodes[p] == n && Held(t1, p) && KeptFrom(t, t1, p)
    ensures !split ==> t1.views[p] == ViewOf(n)
    ensures split ==> var n' := n.(entries := Inserted(n.entries, i, Entry(sep, [], right)));
      Sorted(n'.entries) && t1.views[p] == ViewOf(n')
  {
    var above := Parent(t.views, t.spans, t.held, p);
    if split {
      BetweenChildren(n, t.spans[p], i, Rank(sep));
      SepInserted(n, i, sep, right);
    }
  }

  lemma BetweenChildren(n: Node, s: Span, i: nat, x: real)
    requires Sorted(n.entries) && i <= |n.entries| && LowEnd(n, s.lo, i) < x < HighEnd(n, s.hi, i)
    ensures Between(n.entries, i, x)
  {
  }

  lemma GrownAfter(t: Tree, t1: Tree, t2: Tree, p: PageId, split: bool, sep: Bytes, right: PageId)
    requires p in t.spans && Grown(t1, t2, p, split, sep, right)
    requires t.views.Keys <= t.spans.Keys
    requires KeptFrom(t, t1, p)
    ensures Grown(t, t2, p, split, sep, right)
  {
  }

  ghost predicate KeptFrom(t: Tree, t1: Tree, p: PageId) {
    && p in t.spans && p in t1.spans && t1.spans[p] == t.spans[p]
    && t.spans[p].parent in t.views && t.spans[p].parent in t.spans && t.spans[p].parent != p
    && t.spans[t.spans[p].parent].height > t.spans[p].height
    && KeptAbove(t, t1, t.spans[p].height, p)
  }

  lemma RootSpan(t: Tree, root: PageId)
    requires Rooted(t, root)
    ensures t.spans[root].lo == 0.0 && t.spans[root].hi == 1.0 && t.spans[root].parent == 0
  {
    PageAt(t.views, t.spans, t.held, 0);
  }

  lemma RootKept(t: Tree, t': Tree, root: PageId, split: bool, sep: Bytes, right: PageId)
    requires Rooted(t, root)
    requires Grown(t, t', root, split, sep, right)
    ensures Held(t', 0) && 0 in t'.views
    ensures t'.views[0] == InnerView(root, if split then map[Rank(sep) := right] else map[])
    ensures root in t'.nodes
  {
    RootSpan(t, root);
    PageAt(t'.views, t'.spans, t'.held, 0);
  }

  lemma GrowRootStep(t: Tree, root: PageId, n: Node, sep: Bytes, r: PageId, l: PageId) returns (t': Tree)
    requires Held(t, 0) && root in t.nodes && l !in t.nodes && l != 0
    requires 0 in t.views && t.views[0] == InnerView(root, map[Rank(sep) := r])
    requires n == Node(Internal, 0, l, [Entry(sep, [], r)])
    ensures t'.nodes == t.nodes[l := t.nodes[root]][root := n]
    ensures Rooted(t', root) && t'.held == t.held
  {
    OneEntryView(n);
    PageAt(t.views, t.spans, t.held, 0);
    assert Rank(sep) in t.views[0].seps;
    t' := Tree(
      t.nodes[l := t.nodes[root]][root := n],
      t.views[l := t.views[root]][root := InnerView(l, map[Rank(sep) := r])][0 := InnerView(root, map[])],
      GrownSpans(t.spans, root, r, l),
      t.held);
    GrowRoot(t.views, t.spans, t.held, t'.views, t'.spans, root, Rank(sep), r, l);
  }

  lemma OneEntryView(n: Node)
    requires n.kind == Internal && |n.entries| == 1
    ensures ViewOf(n) == InnerView(n.first, map[Rank(n.entries[0].key) := n.entries[0].right])
  {
    var e := n.entries[0];
    assert n.entries[..0] == [] && ByRank(n.entries) == map[Rank(e.key) := e];
    assert Rights(ByRank(n.entries)) == map[Rank(e.key) := e.right];
  }
}
