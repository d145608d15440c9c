/** A committed tree passes the structural check, and a scan lists its contents. */
module Listing {
  import opened Common
  import opened Keys
  import opened Shape
  import opened Nodes
  import opened PageTxn
  import opened Trees
  import opened Reclaim
  import opened Graphs
  import opened Verifiers
  import opened Cursors
  import opened Commits

  /** The pages ps lie in [lo, hi), at most h levels above the leaves. */
  ghost predicate PagesIn(t: Tree, ps: seq<PageId>, lo: real, hi: real, h: int) {
    forall i :: 0 <= i < |ps| ==>
      && ps[i] in t.nodes && ps[i] in t.spans
      && lo <= t.spans[ps[i]].lo < t.spans[ps[i]].hi <= hi && t.spans[ps[i]].height <= h
  }

  /** The leaves ls tile [lo, hi) from left to right. */
  ghost predicate Tiles(t: Tree, ls: seq<PageId>, lo: real, hi: real) {
    && (forall i :: 0 <= i < |ls| ==> ls[i] in t.nodes && ls[i] in t.spans && t.nodes[ls[i]].kind == Leaf)
    && (if ls == [] then lo == hi else t.spans[ls[0]].lo == lo && t.spans[ls[|ls| - 1]].hi == hi)
    && (forall i :: 0 < i < |ls| ==> t.spans[ls[i - 1]].hi == t.spans[ls[i]].lo)
  }

  lemma TilesMore(t: Tree, a: seq<PageId>, b: seq<PageId>, lo: real, mid: real, hi: real)
    requires Tiles(t, a, lo, mid) && Tiles(t, b, mid, hi) && b != []
    ensures Tiles(t, a + b, lo, hi)
  {
    var c := a + b;
    forall i | 0 < i < |c| ensures t.spans[c[i - 1]].hi == t.spans[c[i]].lo {
      if i > |a| { assert c[i] == b[i - |a|] && c[i - 1] == b[i - |a| - 1]; }
    }
  }

  lemma ApartMore(t: Tree, a: seq<PageId>, b: seq<PageId>, lo: real, mid: real, hi: real, h: nat)
    requires PagesIn(t, a, lo, mid, h) && PagesIn(t, b, mid, hi, h) && Distinct(a) && Distinct(b) && lo <= mid <= hi
    ensures Distinct(a + b) && PagesIn(t, a + b, lo, hi, h)
  {
  }

  ghost predicate LaidOut(t: Tree, u: Layout, lo: real, hi: real, h: nat) {
    && Fits(t.nodes, u, lo, hi, h)
    && Distinct(PagesOf(u)) && PagesIn(t, PagesOf(u), lo, hi, h)
    && LeavesOf(u) != [] && Tiles(t, LeavesOf(u), lo, hi)
  }

  /** The tree below a page as the structural check sees it. */
  lemma {:induction false} LayPage(t: Tree, p: PageId, capacity: nat) returns (u: Layout)
    requires Held(t, 0) && NodesOk(t.nodes, capacity) && p in t.nodes
    ensures u.page == p && LaidOut(t, u, t.spans[p].lo, t.spans[p].hi, t.spans[p].height)
    decreases t.spans[p].height, 1, 0
  {
    PageAt(t.views, t.spans, t.held, p);
    var n, s := t.nodes[p], t.spans[p];
    ValidIsSorted(n);
    if n.kind == Leaf {
      u := LeafAt(p);
      LeafWithin(t, p, n);
    } else {
      SepsInside(p, n, s, t.spans);
      var kids := LayKids(t, p, |n.entries| + 1, capacity);
      u := InnerAt(p, kids);
      PageAbove(t, p, PagesOfAll(kids), s.lo, s.hi, s.height);
    }
  }

  lemma LeafWithin(t: Tree, p: PageId, n: Node)
    requires Held(t, 0) && p in t.nodes && n == t.nodes[p] && n.kind == Leaf && Sorted(n.entries)
    ensures KeysWithin(n, t.spans[p].lo, t.spans[p].hi)
  {
    PageAt(t.views, t.spans, t.held, p);
    forall i | 0 <= i < |n.entries| ensures t.spans[p].lo <= Rank(n.entries[i].key) < t.spans[p].hi { LeafKeyIn(n, i); }
  }

  lemma PageAbove(t: Tree, p: PageId, ps: seq<PageId>, lo: real, hi: real, h: nat)
    requires p in t.nodes && p in t.spans && t.spans[p] == Span(lo, hi, h, t.spans[p].parent) && lo < hi
    requires Distinct(ps) && PagesIn(t, ps, lo, hi, h - 1)
    ensures Distinct([p] + ps) && PagesIn(t, [p] + ps, lo, hi, h)
  {
    var qs := [p] + ps;
    forall i | 0 < i < |qs| ensures qs[i] == ps[i - 1] {}
  }

  /** The first k children of p. */
  ghost predicate LaidKids(t: Tree, n: Node, ts: seq<Layout>, lo: real, hi: real, h: nat) {
    && |ts| <= |n.entries| + 1 && FitsAll(t.nodes, n, ts, lo, hi, h)
    && var end := if ts == [] then lo else HighEnd(n, hi, |ts| - 1);
    && Distinct(PagesOfAll(ts)) && PagesIn(t, PagesOfAll(ts), lo, end, h)
    && Tiles(t, LeavesOfAll(ts), lo, end) && (ts != [] ==> LeavesOfAll(ts) != [])
  }

  lemma {:induction false} LayKids(t: Tree, p: PageId, k: nat, capacity: nat) returns (ts: seq<Layout>)
    requires Held(t, 0) && NodesOk(t.nodes, capacity) && p in t.nodes && t.nodes[p].kind == Internal
      && t.spans[p].height > 0
    requires Sorted(t.nodes[p].entries) && k <= |t.nodes[p].entries| + 1
    ensures |ts| == k && LaidKids(t, t.nodes[p], ts, t.spans[p].lo, t.spans[p].hi, t.spans[p].height - 1)
    decreases t.spans[p].height, 0, k
  {
    var n, s := t.nodes[p], t.spans[p];
    ts := [];
    if k > 0 {
      ts := LayKids(t, p, k - 1, capacity);
      var c := ChildAt(n, k - 1);
      KidPlace(t, p, k - 1, c);
      var u := LayPage(t, c, capacity);
      MoreLaid(t, n, ts, u, s.lo, s.hi, s.height - 1);
      ts := ts + [u];
    }
  }

  lemma KidPlace(t: Tree, p: PageId, i: nat, c: PageId)
    requires Held(t, 0) && p in t.nodes && t.nodes[p].kind == Internal && Sorted(t.nodes[p].entries)
    requires i <= |t.nodes[p].entries| && c == ChildAt(t.nodes[p], i)
    ensures var n, s := t.nodes[p], t.spans[p];
      && c in t.nodes && t.spans[c].height + 1 == s.height
      && t.spans[c].lo == LowEnd(n, s.lo, i) && t.spans[c].hi == HighEnd(n, s.hi, i)
      && s.lo <= LowEnd(n, s.lo, i) <= HighEnd(n, s.hi, i)
  {
    PathKid(t, 0, p, i, c);
  }

  lemma MoreLaid(t: Tree, n: Node, ts: seq<Layout>, u: Layout, lo: real, hi: real, h: nat)
    requires LaidKids(t, n, ts, lo, hi, h) && |ts| <= |n.entries| && u.page == ChildAt(n, |ts|)
    requires LaidOut(t, u, LowEnd(n, lo, |ts|), HighEnd(n, hi, |ts|), h)
    requires lo <= LowEnd(n, lo, |ts|) <= HighEnd(n, hi, |ts|)
    ensures LaidKids(t, n, ts + [u], lo, hi, h)
  {
    var k := |ts|;
    assert (ts + [u])[..k] == ts;
    assert PagesOfAll(ts + [u]) == PagesOfAll(ts) + PagesOf(u)
      && LeavesOfAll(ts + [u]) == LeavesOfAll(ts) + LeavesOf(u);
    ApartMore(t, PagesOfAll(ts), PagesOf(u), lo, LowEnd(n, lo, k), HighEnd(n, hi, k), h);
    TilesMore(t, LeavesOfAll(ts), LeavesOf(u), lo, LowEnd(n, lo, k), HighEnd(n, hi, k));
  }

  // ---------------------------------------------------------------- the chain of leaves

  lemma LinkedTo(t: Tree, p: PageId, q: PageId)
    requires Held(t, 0) && p in t.nodes && t.nodes[p].kind == Leaf && q in t.nodes && t.nodes[q].kind == Leaf
    requires t.spans[p].hi == t.spans[q].lo
    ensures t.nodes[p].next == q
  {
    PageAt(t.views, t.spans, t.held, p);
    PageAt(t.views, t.spans, t.held, q);
    Within(t.views, t.spans, t.held, q);
    var r := t.nodes[p].next;
    PageAt(t.views, t.spans, t.held, r);
    if r != q { Disjoint(t.views, t.spans, t.held, r, q); }
  }

  lemma LinkedLast(t: Tree, p: PageId)
    requires Held(t, 0) && p in t.nodes && t.nodes[p].kind == Leaf && t.spans[p].hi == 1.0
    ensures t.nodes[p].next == 0
  {
    PageAt(t.views, t.spans, t.held, p);
    if t.nodes[p].next != 0 { Within(t.views, t.spans, t.held, t.nodes[p].next); }
  }

  lemma TilesLinear(t: Tree, ls: seq<PageId>)
    requires Held(t, 0) && Tiles(t, ls, 0.0, 1.0)
    ensures Linear(t.nodes, ls)
  {
    forall i | 0 < i < |ls| ensures t.nodes[ls[i - 1]].next == ls[i] { LinkedTo(t, ls[i - 1], ls[i]); }
    LinkedLast(t, ls[|ls| - 1]);
  }

  // ---------------------------------------------------------------- what the leaves hold

  ghost function Part(m: Contents, lo: real, hi: real): Contents { map x | x in m && lo <= x < hi :: m[x] }

  lemma {:induction false} CatByRank(es: seq<Entry>, fs: seq<Entry>)
    ensures ByRank(es + fs) == ByRank(es) + ByRank(fs)
  {
    if fs == [] {
      assert es + fs == es;
    } else {
      var n := |fs| - 1;
      CatByRank(es, fs[..n]);
      assert (es + fs)[..|es + fs| - 1] == es + fs[..n];
    }
  }

  lemma LeafHolds(t: Tree, p: PageId)
    requires Held(t, 0) && p in t.nodes && t.nodes[p].kind == Leaf
    ensures Values(ByRank(t.nodes[p].entries)) == Part(t.held, t.spans[p].lo, t.spans[p].hi)
    ensures t.spans[p].lo < t.spans[p].hi
  {
    PageAt(t.views, t.spans, t.held, p);
    PartIs(t.views[p].entries, t.held, t.spans[p].lo, t.spans[p].hi);
  }

  lemma PartIs(m: Contents, held: Contents, lo: real, hi: real)
    requires forall x :: x in m ==> lo <= x < hi && x in held && held[x] == m[x]
    requires forall x :: x in held && lo <= x < hi ==> x in m
    ensures m == Part(held, lo, hi)
  {
    var part := Part(held, lo, hi);
    assert forall x :: x in m ==> x in part;
    assert forall x :: x in part ==> x in m;
  }

  lemma {:induction false} TilesHold(t: Tree, ls: seq<PageId>, lo: real, hi: real)
    requires Held(t, 0) && Tiles(t, ls, lo, hi)
    ensures Values(ByRank(Flat(t.nodes, ls))) == Part(t.held, lo, hi) && lo <= hi
  {
    if ls == [] {
      assert Part(t.held, lo, hi) == map[];
    } else {
      var n := |ls| - 1;
      var p := ls[n];
      TilesHold(t, ls[..n], lo, t.spans[p].lo);
      LeafHolds(t, p);
      CatByRank(Flat(t.nodes, ls[..n]), t.nodes[p].entries);
      PartsJoin(t.held, lo, t.spans[p].lo, hi, ByRank(Flat(t.nodes, ls[..n])), ByRank(t.nodes[p].entries));
    }
  }

  lemma PartsJoin(m: Contents, lo: real, mid: real, hi: real, a: map<real, Entry>, b: map<real, Entry>)
    requires lo <= mid <= hi && Values(a) == Part(m, lo, mid) && Values(b) == Part(m, mid, hi)
    ensures Values(a + b) == Part(m, lo, hi)
  {
    assert a.Keys == Values(a).Keys && b.Keys == Values(b).Keys;
    assert (a + b).Keys == a.Keys + b.Keys;
    forall x | x in a + b ensures Values(a + b)[x] == m[x] {
      if x in b { assert Values(b)[x] == m[x]; } else { assert Values(a)[x] == m[x]; }
    }
  }

  /** es lists exactly the map, in key order. */
  ghost predicate Lists(es: seq<Entry>, m: map<Bytes, Bytes>) {
    && Sorted(es)
    && (forall i :: 0 <= i < |es| ==> es[i].key in m && m[es[i].key] == es[i].value)
    && (forall k :: k in m ==> exists i :: 0 <= i < |es| && es[i].key == k)
  }

  lemma ListsHeld(es: seq<Entry>, m: map<Bytes, Bytes>, r: Contents)
    requires Sorted(es) && Values(ByRank(es)) == r && RanksOf(m, r)
    ensures Lists(es, m)
  {
    forall i | 0 <= i < |es| ensures es[i].key in m && m[es[i].key] == es[i].value {
      IndexRank(es, i);
      assert Values(ByRank(es))[Rank(es[i].key)] == es[i].value;
      RanksHas(m, r, es[i].key);
    }
    forall k | k in m ensures exists i :: 0 <= i < |es| && es[i].key == k {
      RanksHas(m, r, k);
      var i := RankIndex(es, Rank(k));
      RankIsOrder(es[i].key, k);
    }
  }

  /** Every committed tree passes the structural check, and its leaves list its contents. */
  lemma CommittedListing(disk: map<PageId, Page>, next: PageId, chain: seq<PageId>, capacity: nat,
                         root: PageId, t: Tree, contents: map<Bytes, Bytes>) returns (u: Layout, h: nat)
    requires CommittedTree(disk, next, chain, capacity, root, t, contents) && next <= MAX_PAGES
    ensures Accepted(t.nodes, next, root, u, h) && Lists(Flat(t.nodes, LeavesOf(u)), contents)
  {
    RootSpan(t, root);
    HeightBound(t, root, capacity, chain, next);
    u := LayPage(t, root, capacity);
    h := t.spans[root].height;
    TilesLinear(t, LeavesOf(u));
    TilesHold(t, LeavesOf(u), 0.0, 1.0);
    LayoutSorted(t.nodes, u, 0.0, 1.0, h);
    HeldWithin(t);
    ListsHeld(Flat(t.nodes, LeavesOf(u)), contents, t.held);
    PagesBelow(t, PagesOf(u), chain, next, h);
  }

  lemma PagesBelow(t: Tree, ps: seq<PageId>, chain: seq<PageId>, next: PageId, h: nat)
    requires PagesIn(t, ps, 0.0, 1.0, h) && Accounted(t.nodes, chain, next, 0)
    ensures PageTxn.AllBelow(ps, next)
  {
  }

  /** Held ranks are ranks of keys, so they lie in [0, 1). */
  lemma HeldWithin(t: Tree)
    requires exists m :: RanksOf(m, t.held)
    ensures Part(t.held, 0.0, 1.0) == t.held
  {
    var m :| RanksOf(m, t.held);
    forall x | x in t.held ensures 0.0 <= x < 1.0 {
      assert KeyedAt(m, t.held, x);
      var k :| k in m && Rank(k) == x;
    }
  }

  /** The pages that decode to a node. */
  function Readable(disk: map<PageId, Page>, next: PageId): Graph {
    map p | p in disk && 0 < p < next && disk[p].Data? :: disk[p].node
  }

  lemma ReadableIsTree(disk: map<PageId, Page>, next: PageId, chain: seq<PageId>, capacity: nat,
                       root: PageId, t: Tree, contents: map<Bytes, Bytes>)
    requires CommittedTree(disk, next, chain, capacity, root, t, contents)
    ensures Readable(disk, next) == t.nodes
  {
    ReadableNodes(disk, next, chain, t.nodes);
  }

  lemma ReadableNodes(disk: map<PageId, Page>, next: PageId, chain: seq<PageId>, nodes: NodeMap)
    requires ChainOk(chain, [], disk) && Stored(nodes, map[], disk) && Accounted(nodes, chain, next, 0)
    ensures Readable(disk, next) == nodes
  {
    var g := Readable(disk, next);
    StagedInChain(chain, [], disk);
    assert forall p :: p in chain ==> p !in g;
    assert forall p :: p in nodes ==> p in g && g[p] == nodes[p];
    assert forall p :: p in g ==> p in nodes;
  }

  /** The part of a map at or above a bound. */
  ghost function AtOrAbove(m: map<Bytes, Bytes>, x: real): map<Bytes, Bytes> { map k | k in m && x <= Rank(k) :: m[k] }

  lemma SuffixLists(es: seq<Entry>, m: map<Bytes, Bytes>, k: nat, x: real)
    requires Lists(es, m) && Divides(es, k, x)
    ensures Lists(es[k..], AtOrAbove(m, x))
  {
    var fs := es[k..];
    forall key | key in AtOrAbove(m, x) ensures exists i :: 0 <= i < |fs| && fs[i].key == key {
      var i :| 0 <= i < |es| && es[i].key == key;
      assert fs[i - k] == es[i];
    }
  }

  // ---------------------------------------------------------------- every page is reached or free

  lemma {:induction false} InSome(ts: seq<Layout>, q: PageId) returns (k: nat)
    requires q in PagesOfAll(ts)
    ensures k < |ts| && q in PagesOf(ts[k])
  {
    k := |ts| - 1;
    if q !in PagesOf(ts[k]) { k := InSome(ts[..k], q); }
  }

  lemma {:induction false} InAll(ts: seq<Layout>, k: nat, q: PageId)
    requires k < |ts| && q in PagesOf(ts[k])
    ensures q in PagesOfAll(ts)
  {
    if k < |ts| - 1 { InAll(ts[..|ts| - 1], k, q); }
  }

  /** With a page, the layout has its children. */
  lemma {:induction false} ClosedUnder(g: Graph, u: Layout, lo: real, hi: real, h: nat, q: PageId, i: nat)
    requires Fits(g, u, lo, hi, h) && q in PagesOf(u) && q in g && g[q].kind == Internal && i <= |g[q].entries|
    ensures ChildAt(g[q], i) in PagesOf(u)
    decreases h
  {
    var n := g[u.page];
    if u.InnerAt? {
      if q == u.page {
        FitsAt(g, n, u.kids, i, lo, hi, h - 1);
        InAll(u.kids, i, u.kids[i].page);
      } else {
        var k := InSome(u.kids, q);
        FitsAt(g, n, u.kids, k, lo, hi, h - 1);
        ClosedUnder(g, u.kids[k], LowEnd(n, lo, k), HighEnd(n, hi, k), h - 1, q, i);
        InAll(u.kids, k, ChildAt(g[q], i));
      }
    }
  }

  /** A page is one of the children of its parent's node. */
  lemma ChildSlot(t: Tree, p: PageId, capacity: nat) returns (i: nat)
    requires Held(t, 0) && NodesOk(t.nodes, capacity) && p in t.nodes && t.spans[p].parent in t.nodes
    ensures var above := t.spans[p].parent;
      && t.nodes[above].kind == Internal && i <= |t.nodes[above].entries|
      && ChildAt(t.nodes[above], i) == p
  {
    var above := Parent(t.views, t.spans, t.held, p);
    ValidIsSorted(t.nodes[above]);
    i := SlotOf(t.nodes[above], t.spans[p].lo, p);
  }

  lemma SlotOf(n: Node, lo: real, p: PageId) returns (i: nat)
    requires n.kind == Internal && Sorted(n.entries) && IsKid(ViewOf(n), lo, p)
    ensures i <= |n.entries| && ChildAt(n, i) == p
  {
    i := 0;
    if p != n.first {
      var j := SepIndex(n, lo);
      SepAt(n, j);
      i := j + 1;
    }
  }

  lemma {:induction false} Reached(t: Tree, root: PageId, u: Layout, h: nat, p: PageId, capacity: nat)
    requires Rooted(t, root) && NodesOk(t.nodes, capacity) && u.page == root && Fits(t.nodes, u, 0.0, 1.0, h)
      && p in t.nodes
    ensures p in PagesOf(u)
    decreases t.spans[0].height - t.spans[p].height
  {
    var above := Parent(t.views, t.spans, t.held, p);
    if above == 0 {
      assert p == root;
    } else {
      Reached(t, root, u, h, above, capacity);
      var i := ChildSlot(t, p, capacity);
      ClosedUnder(t.nodes, u, 0.0, 1.0, h, above, i);
    }
  }

  /** The pages reached from the root and the pages of the free chain are all pages, and no page is both. */
  lemma PagesPartition(disk: map<PageId, Page>, next: PageId, chain: seq<PageId>, capacity: nat,
                       root: PageId, t: Tree, contents: map<Bytes, Bytes>, u: Layout, h: nat)
    requires CommittedTree(disk, next, chain, capacity, root, t, contents) && Accepted(t.nodes, next, root, u, h)
    ensures forall p :: 0 < p < next ==> (p in PagesOf(u) <==> p !in chain)
    ensures Distinct(PagesOf(u)) && Distinct(chain) && PageTxn.AllBelow(PagesOf(u), next)
      && PageTxn.AllBelow(chain, next)
    ensures forall i :: 0 <= i < |chain| ==> chain[i] in disk && disk[chain[i]] == Free(LinkAfter(chain, i))
  {
    forall p | p in t.nodes ensures p in PagesOf(u) { Reached(t, root, u, h, p, capacity); }
    forall p | p in PagesOf(u) ensures p in t.nodes { FitsPages(t.nodes, u, 0.0, 1.0, h, p); }
    forall i | 0 <= i < |chain| ensures chain[i] in disk && disk[chain[i]] == Free(LinkAfter(chain, i)) {
      assert FreeAt(chain, disk, i);
    }
  }

  lemma {:induction false} FitsPages(g: Graph, u: Layout, lo: real, hi: real, h: nat, p: PageId)
    requires Fits(g, u, lo, hi, h) && p in PagesOf(u)
    ensures p in g
    decreases h
  {
    if u.InnerAt? && p != u.page {
      var k := InSome(u.kids, p);
      FitsAt(g, g[u.page], u.kids, k, lo, hi, h - 1);
      FitsPages(g, u.kids[k], LowEnd(g[u.page], lo, k), HighEnd(g[u.page], hi, k), h - 1, p);
    }
  }
}
