/** Page graphs as they are read from a file: any node may point anywhere. */
module Graphs {
  import opened Keys
  import opened Shape
  import opened Nodes

  /** Pages that decode to a node; reading any other page fails. */
  type Graph = map<PageId, Node>

  ghost predicate Decoded(g: Graph) { forall p :: p in g ==> NodeValid(g[p]) }

  /** A finite tree of pages. */
  datatype Layout = LeafAt(page: PageId) | InnerAt(page: PageId, kids: seq<Layout>)

  ghost function PagesOf(t: Layout): seq<PageId> {
    match t
    case LeafAt(p) => [p]
    case InnerAt(p, kids) => [p] + PagesOfAll(kids)
  }

  ghost function PagesOfAll(ts: seq<Layout>): seq<PageId> {
    if ts == [] then [] else PagesOfAll(ts[..|ts| - 1]) + PagesOf(ts[|ts| - 1])
  }

  ghost function LeavesOf(t: Layout): seq<PageId> {
    match t
    case LeafAt(p) => [p]
    case InnerAt(p, kids) => LeavesOfAll(kids)
  }

  ghost function LeavesOfAll(ts: seq<Layout>): seq<PageId> {
    if ts == [] then [] else LeavesOfAll(ts[..|ts| - 1]) + LeavesOf(ts[|ts| - 1])
  }

  ghost predicate KeysWithin(n: Node, lo: real, hi: real) {
    forall i :: 0 <= i < |n.entries| ==> lo <= Rank(n.entries[i].key) < hi
  }

  /** t is how page t.page reads: keys lie in [lo, hi), separators cut that interval, leaves are h levels down. */
  ghost predicate Fits(g: Graph, t: Layout, lo: real, hi: real, h: nat)
    decreases h, 0
  {
    && t.page in g && KeysWithin(g[t.page], lo, hi)
    && if t.LeafAt? then h == 0 && g[t.page].kind == Leaf
       else
         && h > 0 && g[t.page].kind == Internal && g[t.page].entries != []
         && |t.kids| == |g[t.page].entries| + 1
         && FitsAll(g, g[t.page], t.kids, lo, hi, h - 1)
  }

  /** The first |ts| children of node n. */
  ghost predicate FitsAll(g: Graph, n: Node, ts: seq<Layout>, lo: real, hi: real, h: nat)
    decreases h, 1, |ts|
  {
    && |ts| <= |n.entries| + 1
    && (ts != [] ==>
          var i := |ts| - 1;
          && FitsAll(g, n, ts[..i], lo, hi, h)
          && ts[i].page == ChildAt(n, i)
          && Fits(g, ts[i], LowEnd(n, lo, i), HighEnd(n, hi, i), h))
  }

  /** Each leaf links to the next one. */
  ghost predicate Chained(g: Graph, leaves: seq<PageId>) {
    && (forall i :: 0 <= i < |leaves| ==> leaves[i] in g && g[leaves[i]].kind == Leaf)
    && (forall i :: 0 < i < |leaves| ==> g[leaves[i - 1]].next == leaves[i])
  }

  ghost function Flat(g: Graph, leaves: seq<PageId>): seq<Entry> {
    if leaves == [] then []
    else
      var p := leaves[|leaves| - 1];
      Flat(g, leaves[..|leaves| - 1]) + (if p in g then g[p].entries else [])
  }

  // ---------------------------------------------------------------- the entries below a page

  ghost predicate Inside(es: seq<Entry>, lo: real, hi: real) {
    forall i :: 0 <= i < |es| ==> lo <= Rank(es[i].key) < hi
  }

  lemma {:induction false} FlatCat(g: Graph, a: seq<PageId>, b: seq<PageId>)
    ensures Flat(g, a + b) == Flat(g, a) + Flat(g, b)
  {
    if b == [] {
      assert a + b == a;
    } else {
      var n := |b| - 1;
      FlatCat(g, a, b[..n]);
      assert (a + b)[..|a + b| - 1] == a + b[..n];
    }
  }

  lemma FlatOne(g: Graph, p: PageId)
    requires p in g
    ensures Flat(g, [p]) == g[p].entries
  {
    assert [p][..0] == [];
    assert Flat(g, []) + g[p].entries == g[p].entries;
  }

  lemma {:induction false} LayoutSorted(g: Graph, t: Layout, lo: real, hi: real, h: nat)
    requires Decoded(g) && Fits(g, t, lo, hi, h) && lo <= hi
    ensures Sorted(Flat(g, LeavesOf(t))) && Inside(Flat(g, LeavesOf(t)), lo, hi)
    decreases h, 0
  {
    var n := g[t.page];
    ValidIsSorted(n);
    if t.LeafAt? {
      FlatOne(g, t.page);
    } else {
      KidsSorted(g, n, t.kids, lo, hi, h - 1);
    }
  }

  lemma {:induction false} KidsSorted(g: Graph, n: Node, ts: seq<Layout>, lo: real, hi: real, h: nat)
    requires Decoded(g) && Sorted(n.entries) && KeysWithin(n, lo, hi) && lo <= hi && FitsAll(g, n, ts, lo, hi, h)
    ensures Sorted(Flat(g, LeavesOfAll(ts)))
    ensures Inside(Flat(g, LeavesOfAll(ts)), lo, if ts == [] then lo else HighEnd(n, hi, |ts| - 1))
    decreases h, 1, |ts|
  {
    if ts != [] {
      var i := |ts| - 1;
      KidsSorted(g, n, ts[..i], lo, hi, h);
      LayoutSorted(g, ts[i], LowEnd(n, lo, i), HighEnd(n, hi, i), h);
      FlatCat(g, LeavesOfAll(ts[..i]), LeavesOf(ts[i]));
      SortedCat(Flat(g, LeavesOfAll(ts[..i])), Flat(g, LeavesOf(ts[i])), lo, LowEnd(n, lo, i), HighEnd(n, hi, i));
    }
  }

  lemma SortedCat(es: seq<Entry>, fs: seq<Entry>, lo: real, mid: real, hi: real)
    requires Sorted(es) && Sorted(fs) && Inside(es, lo, mid) && Inside(fs, mid, hi) && lo <= mid <= hi
    ensures Sorted(es + fs) && Inside(es + fs, lo, hi)
  {
  }

  lemma LeavesOfOne(t: Layout)
    ensures LeavesOfAll([t]) == LeavesOf(t)
  {
    assert [t][..0] == [];
    assert LeavesOfAll([]) + LeavesOf(t) == LeavesOf(t);
  }

  /** Children i and after lie at or above separator i - 1. */
  lemma {:induction false} KidsRange(g: Graph, n: Node, ts: seq<Layout>, i: nat, lo: real, hi: real, h: nat)
    requires Decoded(g) && Sorted(n.entries) && KeysWithin(n, lo, hi) && lo <= hi && FitsAll(g, n, ts, lo, hi, h)
    requires 0 < i < |ts|
    ensures Inside(Flat(g, LeavesOfAll(ts[i..])), Rank(n.entries[i - 1].key), HighEnd(n, hi, |ts| - 1))
    decreases |ts|
  {
    var m := |ts| - 1;
    LayoutSorted(g, ts[m], LowEnd(n, lo, m), HighEnd(n, hi, m), h);
    if i == m {
      assert ts[i..] == [ts[m]];
      LeavesOfOne(ts[m]);
    } else {
      KidsRange(g, n, ts[..m], i, lo, hi, h);
      TailLast(ts, i);
      FlatCat(g, LeavesOfAll(ts[..m][i..]), LeavesOf(ts[m]));
      InsideCat(Flat(g, LeavesOfAll(ts[..m][i..])), Flat(g, LeavesOf(ts[m])),
                Rank(n.entries[i - 1].key), LowEnd(n, lo, m), HighEnd(n, hi, m));
    }
  }

  lemma TailLast<T>(ts: seq<T>, i: nat)
    requires i < |ts|
    ensures var m := |ts| - 1; |ts[i..]| == m - i + 1 && ts[i..][..m - i] == ts[..m][i..] && ts[i..][m - i] == ts[m]
  {
  }

  lemma InsideCat(es: seq<Entry>, fs: seq<Entry>, lo: real, mid: real, hi: real)
    requires Inside(es, lo, mid) && Inside(fs, mid, hi) && lo <= mid <= hi
    ensures Inside(es + fs, lo, hi)
  {
  }

  lemma {:induction false} LeavesSplit(ts: seq<Layout>, i: nat)
    requires i < |ts|
    ensures LeavesOfAll(ts) == LeavesOfAll(ts[..i]) + LeavesOf(ts[i]) + LeavesOfAll(ts[i + 1..])
    decreases |ts|
  {
    var m := |ts| - 1;
    if i == m {
      assert ts[i + 1..] == [];
    } else {
      LeavesSplit(ts[..m], i);
      FrontAndRest(ts, i);
    }
  }

  lemma FrontAndRest<T>(ts: seq<T>, i: nat)
    requires i < |ts| - 1
    ensures var m := |ts| - 1;
      ts[..m][..i] == ts[..i] && ts[..m][i] == ts[i] && ts[..m][i + 1..] == ts[i + 1..][..m - i - 1]
  {
  }

  lemma {:induction false} FitsAt(g: Graph, n: Node, ts: seq<Layout>, i: nat, lo: real, hi: real, h: nat)
    requires FitsAll(g, n, ts, lo, hi, h) && i < |ts|
    ensures Fits(g, ts[i], LowEnd(n, lo, i), HighEnd(n, hi, i), h) && ts[i].page == ChildAt(n, i)
    ensures FitsAll(g, n, ts[..i], lo, hi, h)
    decreases |ts|
  {
    if i < |ts| - 1 {
      FitsAt(g, n, ts[..|ts| - 1], i, lo, hi, h);
      assert ts[..|ts| - 1][..i] == ts[..i];
    }
  }

  ghost predicate AllUnder(es: seq<Entry>, x: real) { forall i :: 0 <= i < |es| ==> Rank(es[i].key) < x }
  ghost predicate AllOver(es: seq<Entry>, x: real) { forall i :: 0 <= i < |es| ==> x < Rank(es[i].key) }

  /** The leaves of a whole tree, split around those below page t, which covers x: the rest is below or above x. */
  ghost predicate Around(g: Graph, leaves: seq<PageId>, before: seq<PageId>, t: Layout, after: seq<PageId>, x: real) {
    && leaves == before + LeavesOf(t) + after
    && AllUnder(Flat(g, before), x) && AllOver(Flat(g, after), x)
  }

  /** One step of a search. */
  lemma Narrow(g: Graph, leaves: seq<PageId>, before: seq<PageId>, t: Layout, after: seq<PageId>, x: real,
               lo: real, hi: real, h: nat, i: nat)
    requires Decoded(g) && Fits(g, t, lo, hi, h) && lo <= x < hi && t.InnerAt? && Routes(g[t.page].entries, i, x)
    requires Around(g, leaves, before, t, after, x)
    ensures h > 0 && Fits(g, t.kids[i], LowEnd(g[t.page], lo, i), HighEnd(g[t.page], hi, i), h - 1)
    ensures LowEnd(g[t.page], lo, i) <= x < HighEnd(g[t.page], hi, i) && t.kids[i].page == ChildAt(g[t.page], i)
    ensures Around(g, leaves, before + LeavesOfAll(t.kids[..i]), t.kids[i], LeavesOfAll(t.kids[i + 1..]) + after, x)
  {
    var n := g[t.page];
    ValidIsSorted(n);
    FitsAt(g, n, t.kids, i, lo, hi, h - 1);
    LeavesSplit(t.kids, i);
    NarrowUnder(g, before, n, t.kids, x, lo, hi, h - 1, i);
    NarrowOver(g, after, n, t.kids, x, lo, hi, h - 1, i);
    Regroup(before, LeavesOfAll(t.kids[..i]), LeavesOf(t.kids[i]), LeavesOfAll(t.kids[i + 1..]), after);
  }

  lemma Regroup(a: seq<PageId>, b: seq<PageId>, c: seq<PageId>, d: seq<PageId>, e: seq<PageId>)
    ensures a + (b + c + d) + e == (a + b) + c + (d + e)
  {
  }

  lemma NarrowUnder(g: Graph, before: seq<PageId>, n: Node, ts: seq<Layout>, x: real, lo: real, hi: real, h: nat,
                    i: nat)
    requires Decoded(g) && Sorted(n.entries) && KeysWithin(n, lo, hi) && lo <= hi && lo <= x && Routes(n.entries, i, x)
    requires i < |ts| && FitsAll(g, n, ts[..i], lo, hi, h)
    requires AllUnder(Flat(g, before), x)
    ensures AllUnder(Flat(g, before + LeavesOfAll(ts[..i])), x)
  {
    KidsSorted(g, n, ts[..i], lo, hi, h);
    FlatCat(g, before, LeavesOfAll(ts[..i]));
  }

  lemma NarrowOver(g: Graph, after: seq<PageId>, n: Node, ts: seq<Layout>, x: real, lo: real, hi: real, h: nat, i: nat)
    requires Decoded(g) && Sorted(n.entries) && KeysWithin(n, lo, hi) && lo <= hi && Routes(n.entries, i, x)
    requires |ts| == |n.entries| + 1 && FitsAll(g, n, ts, lo, hi, h)
    requires AllOver(Flat(g, after), x)
    ensures AllOver(Flat(g, LeavesOfAll(ts[i + 1..]) + after), x)
  {
    if i == |n.entries| {
      assert ts[i + 1..] == [];
    } else {
      KidsRange(g, n, ts, i + 1, lo, hi, h);
    }
    FlatCat(g, LeavesOfAll(ts[i + 1..]), after);
  }
}
