/** The structural check of a whole tree. */
module Verifiers {
  import opened Common
  import opened Keys
  import opened Shape
  import opened Nodes
  import opened PageTxn
  import opened Graphs

  datatype Bound = Unbounded | Key(key: Bytes)

  ghost function LowRank(b: Bound): real { if b.Unbounded? then 0.0 else Rank(b.key) }
  ghost function HighRank(b: Bound): real { if b.Unbounded? then 1.0 else Rank(b.key) }

  /** The pages ps, all different and none marked before, have been marked. */
  ghost predicate Marked(v: seq<bool>, v': seq<bool>, ps: seq<PageId>) {
    && |v'| == |v| && Distinct(ps)
    && (forall i :: 0 <= i < |ps| ==> 0 < ps[i] < |v| && !v[ps[i]] && v'[ps[i]])
    && (forall q :: 0 <= q < |v| && v'[q] ==> v[q] || q in ps)
    && (forall q :: 0 <= q < |v| && v[q] ==> v'[q])
  }

  lemma MarkedMore(v: seq<bool>, v1: seq<bool>, v2: seq<bool>, ps: seq<PageId>, qs: seq<PageId>)
    requires Marked(v, v1, ps) && Marked(v1, v2, qs)
    ensures Marked(v, v2, ps + qs)
  {
    var rs := ps + qs;
    forall i, j | 0 <= i < j < |rs| ensures rs[i] != rs[j] {
      if i < |ps| <= j { assert v1[ps[i]] && !v1[qs[j - |ps|]]; }
    }
  }

  lemma ChainedMore(g: Graph, a: seq<PageId>, b: seq<PageId>)
    requires Chained(g, a) && Chained(g, b) && a != [] && b != [] && g[a[|a| - 1]].next == b[0]
    ensures Chained(g, a + b)
  {
  }

  /** What has been seen so far: the link of the last leaf, the depth of the leaves, and three counts. */
  datatype Seen = Seen(last: Option<PageId>, leafDepth: Option<nat>, nodes: nat, leaves: nat, entries: nat)

  /** From marks v and notes c, a walk has marked the pages ps and passed the leaves ls at the given depth. */
  ghost predicate Walked(g: Graph, v: seq<bool>, c: Seen, v': seq<bool>, c': Seen, ps: seq<PageId>, ls: seq<PageId>,
                         depth: nat) {
    && Marked(v, v', ps)
    && ls != [] && Chained(g, ls)
    && (c.last.Some? ==> c.last.value == ls[0])
    && c'.last == Some(g[ls[|ls| - 1]].next)
    && (c.leafDepth.Some? ==> c.leafDepth.value == depth) && c'.leafDepth == Some(depth)
    && c'.nodes == c.nodes + |ps| && c'.leaves == c.leaves + |ls| && c'.entries == c.entries + |Flat(g, ls)|
  }

  lemma WalkedMore(g: Graph, v: seq<bool>, c: Seen, v1: seq<bool>, c1: Seen, v2: seq<bool>, c2: Seen,
                   ps: seq<PageId>, ls: seq<PageId>, ps1: seq<PageId>, ls1: seq<PageId>, depth: nat, depth1: nat)
    requires Walked(g, v, c, v1, c1, ps, ls, depth) && Walked(g, v1, c1, v2, c2, ps1, ls1, depth1)
    ensures Walked(g, v, c, v2, c2, ps + ps1, ls + ls1, depth) && depth1 == depth
  {
    MarkedMore(v, v1, v2, ps, ps1);
    ChainedMore(g, ls, ls1);
    FlatCat(g, ls, ls1);
  }

  lemma WalkedLeaf(g: Graph, v: seq<bool>, c: Seen, page: PageId, depth: nat)
    requires 0 < page < |v| && !v[page] && page in g && g[page].kind == Leaf
    requires c.last.Some? ==> c.last.value == page
    requires c.leafDepth.Some? ==> c.leafDepth.value == depth
    ensures Walked(g, v, c, v[page := true],
      Seen(Some(g[page].next), Some(depth), c.nodes + 1, c.leaves + 1, c.entries + |g[page].entries|),
                   [page], [page], depth)
  {
    FlatOne(g, page);
  }

  lemma WalkedInner(g: Graph, v: seq<bool>, c: Seen, page: PageId, v': seq<bool>, c': Seen, ps: seq<PageId>,
                    ls: seq<PageId>, depth: nat)
    requires 0 < page < |v| && !v[page] && Walked(g, v[page := true], c.(nodes := c.nodes + 1), v', c', ps, ls, depth)
    ensures Walked(g, v, c, v', c', [page] + ps, ls, depth)
  {
    assert page in [page];
    MarkedMore(v, v[page := true], v', [page], ps);
  }

  // ---------------------------------------------------------------- what will be accepted

  ghost predicate Unmarked(v: seq<bool>, ps: seq<PageId>) {
    Distinct(ps) && forall i :: 0 <= i < |ps| ==> 0 < ps[i] < |v| && !v[ps[i]]
  }

  /** These leaves can come next. */
  ghost predicate Ready(g: Graph, c: Seen, ls: seq<PageId>, depth: nat) {
    && ls != [] && Chained(g, ls)
    && (c.last.Some? ==> c.last.value == ls[0]) && (c.leafDepth.Some? ==> c.leafDepth.value == depth)
  }

  /** The page reads as the tree u, whose pages are not marked and whose leaves come next. */
  ghost predicate Expected(g: Graph, v: seq<bool>, c: Seen, u: Layout, h: nat, lo: real, hi: real, depth: nat) {
    Fits(g, u, lo, hi, h) && depth + h <= MAX_DEPTH && Unmarked(v, PagesOf(u)) && Ready(g, c, LeavesOf(u), depth + h)
  }

  ghost predicate ExpectedAll(g: Graph, v: seq<bool>, c: Seen, n: Node, us: seq<Layout>, h: nat, lo: real, hi: real,
                              depth: nat) {
    && |us| == |n.entries| + 1 && FitsAll(g, n, us, lo, hi, h) && depth + h <= MAX_DEPTH
    && Unmarked(v, PagesOfAll(us)) && Ready(g, c, LeavesOfAll(us), depth + h)
  }

  lemma ExpectedPage(g: Graph, v: seq<bool>, c: Seen, u: Layout, h: nat, lo: real, hi: real, depth: nat)
    requires Expected(g, v, c, u, h, lo, hi, depth)
    ensures 0 < u.page < |v| && !v[u.page] && u.page in g && KeysWithin(g[u.page], lo, hi)
    ensures if g[u.page].kind == Leaf then u == LeafAt(u.page) && h == 0 && Ready(g, c, [u.page], depth)
      else
        && u.InnerAt? && h > 0
        && ExpectedAll(g, v[u.page := true], c.(nodes := c.nodes + 1), g[u.page], u.kids, h - 1, lo, hi, depth + 1)
  {
    assert PagesOf(u)[0] == u.page;
    if u.InnerAt? { UnmarkedRest(v, u.page, PagesOfAll(u.kids)); }
  }

  lemma UnmarkedRest(v: seq<bool>, p: PageId, ps: seq<PageId>)
    requires 0 < p < |v| && Unmarked(v, [p] + ps)
    ensures Unmarked(v[p := true], ps)
  {
    var qs := [p] + ps;
    forall i | 0 <= i < |ps| ensures 0 < ps[i] < |v| && !v[ps[i]] && ps[i] != p {
      assert qs[0] == p && qs[i + 1] == ps[i];
    }
    forall i, j | 0 <= i < j < |ps| ensures ps[i] != ps[j] { assert qs[i + 1] == ps[i] && qs[j + 1] == ps[j]; }
  }

  lemma {:induction false} PagesSplit(ts: seq<Layout>, i: nat)
    requires i < |ts|
    ensures PagesOfAll(ts) == PagesOfAll(ts[..i]) + PagesOf(ts[i]) + PagesOfAll(ts[i + 1..])
    decreases |ts|
  {
    var m := |ts| - 1;
    if i == m {
      assert ts[i + 1..] == [];
    } else {
      PagesSplit(ts[..m], i);
      FrontAndRest(ts, i);
    }
  }

  lemma UnmarkedPart(v: seq<bool>, v': seq<bool>, a: seq<PageId>, b: seq<PageId>, c: seq<PageId>)
    requires Unmarked(v, a + b + c) && Marked(v, v', a)
    ensures Unmarked(v', b)
  {
    var all := a + b + c;
    forall i | 0 <= i < |b| ensures 0 < b[i] < |v| && !v[b[i]] && b[i] !in a {
      assert all[|a| + i] == b[i];
      forall j | 0 <= j < |a| ensures a[j] != b[i] { assert all[j] == a[j]; }
    }
    forall i, j | 0 <= i < j < |b| ensures b[i] != b[j] { assert all[|a| + i] == b[i] && all[|a| + j] == b[j]; }
  }

  lemma UnmarkedFirst(v: seq<bool>, b: seq<PageId>, c: seq<PageId>)
    requires Unmarked(v, [] + b + c)
    ensures Unmarked(v, b)
  {
    var all := [] + b + c;
    forall i | 0 <= i < |b| ensures all[i] == b[i] { }
  }

  lemma ChainedPart(g: Graph, a: seq<PageId>, b: seq<PageId>, c: seq<PageId>)
    requires Chained(g, a + b + c)
    ensures Chained(g, b) && (a != [] && b != [] ==> a[|a| - 1] in g && g[a[|a| - 1]].next == b[0])
  {
    var all := a + b + c;
    forall i | 0 <= i < |b| ensures all[|a| + i] == b[i] { }
    if a != [] && b != [] { assert all[|a| - 1] == a[|a| - 1] && all[|a|] == b[0]; }
  }

  lemma {:induction false} LeavesSome(g: Graph, u: Layout, lo: real, hi: real, h: nat)
    requires Fits(g, u, lo, hi, h)
    ensures LeavesOf(u) != []
    decreases h
  {
    if u.InnerAt? {
      var m := |u.kids| - 1;
      LeavesSome(g, u.kids[m], LowEnd(g[u.page], lo, m), HighEnd(g[u.page], hi, m), h - 1);
    }
  }

  /** After the first i children, the next one is as expected. */
  lemma KidExpected(g: Graph, v: seq<bool>, c: Seen, n: Node, us: seq<Layout>, h: nat, lo: real, hi: real, depth: nat,
                    i: nat, v': seq<bool>, c': Seen)
    requires ExpectedAll(g, v, c, n, us, h, lo, hi, depth) && i < |us|
    requires if i == 0 then v' == v && c' == c
      else Walked(g, v, c, v', c', PagesOfAll(us[..i]), LeavesOfAll(us[..i]), depth + h)
    ensures us[i].page == ChildAt(n, i) && Expected(g, v', c', us[i], h, LowEnd(n, lo, i), HighEnd(n, hi, i), depth)
  {
    FitsAt(g, n, us, i, lo, hi, h);
    LeavesSome(g, us[i], LowEnd(n, lo, i), HighEnd(n, hi, i), h);
    PagesSplit(us, i);
    LeavesSplit(us, i);
    ChainedPart(g, LeavesOfAll(us[..i]), LeavesOf(us[i]), LeavesOfAll(us[i + 1..]));
    if i == 0 {
      assert us[..0] == [];
      UnmarkedFirst(v, PagesOf(us[i]), PagesOfAll(us[i + 1..]));
    } else {
      UnmarkedPart(v, v', PagesOfAll(us[..i]), PagesOf(us[i]), PagesOfAll(us[i + 1..]));
    }
  }

  class Verifier {
    const pages: Graph
    const visited: array<bool>
    var seen: Seen

    constructor (pages: Graph, next: nat)
      ensures this.pages == pages && fresh(visited) && visited.Length == next
        && forall p :: 0 <= p < next ==> !visited[p]
      ensures seen == Seen(None, None, 0, 0, 0)
    {
      this.pages := pages;
      visited := new bool[next](_ => false);
      seen := Seen(None, None, 0, 0, 0);
    }

    method InBounds(n: Node, lower: Bound, upper: Bound) returns (ok: bool)
      ensures ok <==> KeysWithin(n, LowRank(lower), HighRank(upper))
    {
      var i := 0;
      while i < |n.entries|
        invariant 0 <= i <= |n.entries|
        invariant forall j :: 0 <= j < i ==> LowRank(lower) <= Rank(n.entries[j].key) < HighRank(upper)
      {
        var k := n.entries[i].key;
        var low, high := 1, -1;
        if lower.Key? { low := Compare(k, lower.key); RankIsOrder(k, lower.key); }
        if upper.Key? { high := Compare(k, upper.key); RankIsOrder(k, upper.key); }
        if low < 0 || high >= 0 { return false; }
        i := i + 1;
      }
      ok := true;
    }

    /** Accepts the page if and only if there is a tree it can be read as; `want` is that tree, if there is one. */
    method VerifyNode(page: PageId, depth: nat, lower: Bound, upper: Bound, ghost want: Option<Layout>,
                      ghost wanted: nat)
      returns (st: Status, ghost t: Layout, ghost h: nat)
      requires Decoded(pages) && depth >= 1
      requires want.Some? ==> want.value.page == page
      requires want.Some? ==>
        Expected(pages, visited[..], seen, want.value, wanted, LowRank(lower), HighRank(upper), depth)
      modifies this, visited
      ensures want.Some? ==> st == Ok && t == want.value && h == wanted
      ensures st == Ok ==>
        t.page == page && Fits(pages, t, LowRank(lower), HighRank(upper), h) && depth + h <= MAX_DEPTH
      ensures st == Ok ==>
        Walked(pages, old(visited[..]), old(seen), visited[..], seen, PagesOf(t), LeavesOf(t), depth + h)
      decreases MAX_DEPTH + 1 - depth, 2
    {
      t, h := LeafAt(page), 0;
      if want.Some? {
        ExpectedPage(pages, visited[..], seen, want.value, wanted, LowRank(lower), HighRank(upper), depth);
      }
      if page <= 0 || page >= visited.Length || depth > MAX_DEPTH || visited[page] { st := Corrupt; return; }
      ghost var v, c := visited[..], seen;
      visited[page] := true;
      assert visited[..] == v[page := true];
      if page !in pages { st := Corrupt; return; }
      var n := pages[page];
      seen := seen.(nodes := seen.nodes + 1);
      var ok := InBounds(n, lower, upper);
      if !ok { st := Corrupt; return; }
      if n.kind == Leaf {
        st := VerifyLeaf(page, n, depth, v, c);
        return;
      }
      if n.entries == [] { st := Corrupt; return; }
      ghost var wants := if want.Some? then Some(want.value.kids) else None;
      st, t, h := VerifyInner(page, n, depth, lower, upper, wants, if want.Some? then wanted - 1 else 0, v, c);
    }

    /** The children of an internal node, all of them. */
    method VerifyInner(page: PageId, n: Node, depth: nat, lower: Bound, upper: Bound, ghost wants: Option<seq<Layout>>,
                       ghost wanted: nat, ghost v: seq<bool>, ghost c: Seen)
      returns (st: Status, ghost t: Layout, ghost h: nat)
      requires Decoded(pages) && 1 <= depth <= MAX_DEPTH && page in pages && n == pages[page]
      requires n.kind == Internal && n.entries != [] && KeysWithin(n, LowRank(lower), HighRank(upper))
      requires 0 < page < |v| && !v[page] && visited[..] == v[page := true] && seen == c.(nodes := c.nodes + 1)
      requires wants.Some? ==>
        ExpectedAll(pages, visited[..], seen, n, wants.value, wanted, LowRank(lower), HighRank(upper), depth + 1)
      modifies this, visited
      ensures wants.Some? ==> st == Ok && t == InnerAt(page, wants.value) && h == wanted + 1
      ensures st == Ok ==>
        t.page == page && Fits(pages, t, LowRank(lower), HighRank(upper), h) && depth + h <= MAX_DEPTH
      ensures st == Ok ==> Walked(pages, v, c, visited[..], seen, PagesOf(t), LeavesOf(t), depth + h)
      decreases MAX_DEPTH + 1 - depth, 1
    {
      t, h := LeafAt(page), 0;
      ghost var kids, h';
      st, kids, h' := VerifyKids(n, depth, lower, upper, wants, wanted);
      if st == Ok {
        t, h := InnerAt(page, kids), h' + 1;
        WalkedInner(pages, v, c, page, visited[..], seen, PagesOfAll(kids), LeavesOfAll(kids), depth + h);
      }
    }

    /** A leaf is where the one before it links to, and as deep. */
    method VerifyLeaf(page: PageId, n: Node, depth: nat, ghost v: seq<bool>, ghost c: Seen) returns (st: Status)
      requires page in pages && n == pages[page] && n.kind == Leaf && 0 < page < |v| && !v[page]
      requires visited[..] == v[page := true] && seen == c.(nodes := c.nodes + 1)
      modifies this`seen
      ensures Ready(pages, c, [page], depth) ==> st == Ok
      ensures st == Ok ==> Walked(pages, v, c, visited[..], seen, [page], [page], depth)
    {
      if seen.last.Some? && seen.last.value != page { return Corrupt; }
      if seen.leafDepth.Some? && seen.leafDepth.value != depth { return Corrupt; }
      seen := Seen(Some(n.next), Some(depth), seen.nodes, seen.leaves + 1, seen.entries + |n.entries|);
      WalkedLeaf(pages, v, c, page, depth);
      st := Ok;
    }

    method VerifyKids(n: Node, depth: nat, lower: Bound, upper: Bound, ghost wants: Option<seq<Layout>>,
                      ghost wanted: nat)
      returns (st: Status, ghost kids: seq<Layout>, ghost h: nat)
      requires Decoded(pages) && 1 <= depth <= MAX_DEPTH && n.kind == Internal && n.entries != []
      requires wants.Some? ==>
        ExpectedAll(pages, visited[..], seen, n, wants.value, wanted, LowRank(lower), HighRank(upper), depth + 1)
      modifies this, visited
      ensures wants.Some? ==> st == Ok && kids == wants.value && h == wanted
      ensures st == Ok ==> |kids| == |n.entries| + 1
      ensures st == Ok ==> FitsAll(pages, n, kids, LowRank(lower), HighRank(upper), h) && depth + h + 1 <= MAX_DEPTH
      ensures st == Ok ==>
        Walked(pages, old(visited[..]), old(seen), visited[..], seen, PagesOfAll(kids), LeavesOfAll(kids),
          depth + 1 + h)
      decreases MAX_DEPTH + 1 - depth, 0
    {
      ghost var v, c := visited[..], seen;
      st, kids, h := VerifyFirst(n, depth, lower, upper, wants, wanted);
      var i := 0;
      while st == Ok && i < |n.entries|
        invariant 0 <= i <= |n.entries|
        invariant wants.Some? ==> st == Ok && kids == wants.value[..i + 1] && h == wanted
        invariant st == Ok ==> |kids| == i + 1 && depth + 1 + h <= MAX_DEPTH
        invariant st == Ok ==>
          Passed(pages, n, kids, LowRank(lower), HighRank(upper), h, depth + 1, v, c, visited[..], seen)
      {
        st, kids := VerifyAfter(n, i, depth, lower, upper, kids, h, v, c, wants);
        i := i + 1;
      }
    }

    method VerifyFirst(n: Node, depth: nat, lower: Bound, upper: Bound, ghost wants: Option<seq<Layout>>,
                       ghost wanted: nat)
      returns (st: Status, ghost kids: seq<Layout>, ghost h: nat)
      requires Decoded(pages) && 1 <= depth <= MAX_DEPTH && n.kind == Internal && n.entries != []
      requires wants.Some? ==>
        ExpectedAll(pages, visited[..], seen, n, wants.value, wanted, LowRank(lower), HighRank(upper), depth + 1)
      modifies this, visited
      ensures wants.Some? ==> st == Ok && kids == wants.value[..1] && h == wanted
      ensures st == Ok ==> |kids| == 1 && depth + 1 + h <= MAX_DEPTH
      ensures st == Ok ==>
        Passed(pages, n, kids, LowRank(lower), HighRank(upper), h, depth + 1, old(visited[..]), old(seen), visited[..],
          seen)
      decreases MAX_DEPTH - depth, 3
    {
      ghost var t;
      if wants.Some? {
        KidExpected(pages, visited[..], seen, n, wants.value, wanted, LowRank(lower), HighRank(upper), depth + 1, 0,
          visited[..], seen);
      }
      st, t, h := VerifyNode(n.first, depth + 1, lower, Key(n.entries[0].key), KidOf(wants, 0), wanted);
      kids := [t];
      if st == Ok {
        PassedOne(pages, n, t, LowRank(lower), HighRank(upper), h, depth + 1, old(visited[..]), old(seen), visited[..],
          seen);
      }
    }

    /** The child to the right of separator i. */
    method VerifyAfter(n: Node, i: nat, depth: nat, lower: Bound, upper: Bound, ghost kids: seq<Layout>, ghost h: nat,
                       ghost v: seq<bool>, ghost c: Seen,
                       ghost wants: Option<seq<Layout>>)
      returns (st: Status, ghost kids': seq<Layout>)
      requires Decoded(pages) && 1 <= depth <= MAX_DEPTH && i < |n.entries| && |kids| == i + 1
      requires Passed(pages, n, kids, LowRank(lower), HighRank(upper), h, depth + 1, v, c, visited[..], seen)
      requires wants.Some? ==>
        ExpectedAll(pages, v, c, n, wants.value, h, LowRank(lower), HighRank(upper), depth + 1)
        && kids == wants.value[..i + 1]
      modifies this, visited
      ensures wants.Some? ==> st == Ok && kids' == wants.value[..i + 2]
      ensures st == Ok ==> |kids'| == i + 2
      ensures st == Ok ==>
        Passed(pages, n, kids', LowRank(lower), HighRank(upper), h, depth + 1, v, c, visited[..], seen)
      decreases MAX_DEPTH - depth, 3
    {
      ghost var v1, c1 := visited[..], seen;
      ghost var t, h';
      if wants.Some? {
        KidExpected(pages, v, c, n, wants.value, h, LowRank(lower), HighRank(upper), depth + 1, i + 1, v1, c1);
      }
      st, t, h' := VerifyNode(n.entries[i].right, depth + 1, Key(n.entries[i].key), BoundAfter(n, i, upper),
                              KidOf(wants, i + 1), h);
      kids' := kids + [t];
      if wants.Some? { FirstMore(wants.value, i + 1); }
      if st == Ok {
        PassedMore(pages, n, kids, t, LowRank(lower), upper, h, h', depth + 1, v, c, v1, c1, visited[..], seen);
      }
    }
  }

  lemma FirstMore<T>(us: seq<T>, i: nat)
    requires i < |us|
    ensures us[..i] + [us[i]] == us[..i + 1]
  {
  }

  ghost function KidOf(us: Option<seq<Layout>>, i: nat): Option<Layout> {
    if us.Some? && i < |us.value| then Some(us.value[i]) else None
  }

  /** The upper bound of the child to the right of separator i. */
  function BoundAfter(n: Node, i: nat, upper: Bound): Bound
    requires i < |n.entries|
  { if i + 1 < |n.entries| then Key(n.entries[i + 1].key) else upper }

  /** The first children of n have been passed, their leaves h levels below depth. */
  ghost predicate Passed(g: Graph, n: Node, ts: seq<Layout>, lo: real, hi: real, h: nat, depth: nat,
                         v: seq<bool>, c: Seen, v': seq<bool>, c': Seen) {
    && FitsAll(g, n, ts, lo, hi, h)
    && Walked(g, v, c, v', c', PagesOfAll(ts), LeavesOfAll(ts), depth + h)
  }

  lemma PassedOne(g: Graph, n: Node, t: Layout, lo: real, hi: real, h: nat, depth: nat, v: seq<bool>, c: Seen,
                  v': seq<bool>, c': Seen)
    requires n.entries != [] && t.page == n.first && Fits(g, t, lo, Rank(n.entries[0].key), h)
    requires Walked(g, v, c, v', c', PagesOf(t), LeavesOf(t), depth + h)
    ensures Passed(g, n, [t], lo, hi, h, depth, v, c, v', c')
  {
    OneKid(g, n, t, lo, hi, h);
  }

  lemma PassedMore(g: Graph, n: Node, ts: seq<Layout>, t: Layout, lo: real, upper: Bound, h: nat, h': nat, depth: nat,
                   v: seq<bool>, c: Seen, v1: seq<bool>, c1: Seen, v': seq<bool>, c': Seen)
    requires 0 < |ts| <= |n.entries| && Passed(g, n, ts, lo, HighRank(upper), h, depth, v, c, v1, c1)
    requires t.page == n.entries[|ts| - 1].right
    requires Fits(g, t, LowRank(Key(n.entries[|ts| - 1].key)), HighRank(BoundAfter(n, |ts| - 1, upper)), h')
    requires Walked(g, v1, c1, v', c', PagesOf(t), LeavesOf(t), depth + h')
    ensures h' == h && Passed(g, n, ts + [t], lo, HighRank(upper), h, depth, v, c, v', c')
  {
    var hi := HighRank(upper);
    WalkedMore(g, v, c, v1, c1, v', c', PagesOfAll(ts), LeavesOfAll(ts), PagesOf(t), LeavesOf(t), depth + h,
      depth + h');
    MoreKids(g, n, ts, t, lo, hi, h);
  }

  lemma OneKid(g: Graph, n: Node, t: Layout, lo: real, hi: real, h: nat)
    requires n.entries != [] && t.page == n.first && Fits(g, t, lo, Rank(n.entries[0].key), h)
    ensures PagesOfAll([t]) == PagesOf(t) && LeavesOfAll([t]) == LeavesOf(t)
    ensures FitsAll(g, n, [t], lo, hi, h)
  {
    assert [t][..0] == [];
    assert PagesOfAll([]) + PagesOf(t) == PagesOf(t);
    assert LeavesOfAll([]) + LeavesOf(t) == LeavesOf(t);
  }

  lemma MoreKids(g: Graph, n: Node, ts: seq<Layout>, t: Layout, lo: real, hi: real, h: nat)
    requires 0 < |ts| <= |n.entries| && FitsAll(g, n, ts, lo, hi, h)
    requires t.page == ChildAt(n, |ts|) && Fits(g, t, Rank(n.entries[|ts| - 1].key), HighEnd(n, hi, |ts|), h)
    ensures PagesOfAll(ts + [t]) == PagesOfAll(ts) + PagesOf(t)
      && LeavesOfAll(ts + [t]) == LeavesOfAll(ts) + LeavesOf(t)
    ensures FitsAll(g, n, ts + [t], lo, hi, h)
  {
    assert (ts + [t])[..|ts|] == ts;
  }
}
