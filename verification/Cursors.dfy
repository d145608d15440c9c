/** Point lookups and forward cursors over a tree that the structural check accepts. */
module Cursors {
  import opened Common
  import opened Keys
  import opened Shape
  import opened Nodes
  import opened PageTxn
  import opened Graphs
  import opened Verifiers

  /** What the structural check establishes: t is the tree of pages below the root. */
  ghost predicate Accepted(g: Graph, next: nat, root: PageId, t: Layout, h: nat) {
    && Decoded(g) && t.page == root && Fits(g, t, 0.0, 1.0, h) && h < MAX_DEPTH
    && Distinct(PagesOf(t)) && PageTxn.AllBelow(PagesOf(t), next)
    && Linear(g, LeavesOf(t))
  }

  /** The leaves form one chain that ends. */
  ghost predicate Linear(g: Graph, leaves: seq<PageId>) {
    leaves != [] && Chained(g, leaves) && g[leaves[|leaves| - 1]].next == 0
  }

  /** Checks the tree; the marks tell which pages it reaches. */
  method Verify(pages: Graph, next: nat, root: PageId)
      returns (st: Status, visited: array<bool>, seen: Seen, ghost t: Layout, ghost h: nat)
    requires Decoded(pages)
    ensures st == Ok ==> Accepted(pages, next, root, t, h)
    ensures st != Ok ==> forall u, k :: !Accepted(pages, next, root, u, k)
    ensures st == Ok ==> visited.Length == next && forall p :: 0 <= p < next ==> (visited[p] <==> p in PagesOf(t))
    ensures st == Ok ==> seen == Seen(Some(0), Some(h + 1), |PagesOf(t)|, |LeavesOf(t)|, |Flat(pages, LeavesOf(t))|)
  {
    var v := new Verifier(pages, next);
    ghost var before := v.visited[..];
    ghost var want, wanted := None, 0;
    if u: Layout, k: nat :| Accepted(pages, next, root, u, k) {
      AcceptedExpected(pages, next, root, u, k, before);
      want, wanted := Some(u), k;
    }
    st, t, h := v.VerifyNode(root, 1, Unbounded, Unbounded, want, wanted);
    visited, seen := v.visited, v.seen;
    if st == Ok && seen.last != Some(0) { st := Corrupt; }
    if st == Ok { MarkedExactly(before, visited[..], PagesOf(t)); }
  }

  lemma AcceptedExpected(g: Graph, next: nat, root: PageId, u: Layout, k: nat, v: seq<bool>)
    requires Accepted(g, next, root, u, k) && |v| == next && forall p :: 0 <= p < next ==> !v[p]
    ensures Expected(g, v, Seen(None, None, 0, 0, 0), u, k, 0.0, 1.0, 1)
  {
  }

  lemma MarkedExactly(v: seq<bool>, v': seq<bool>, ps: seq<PageId>)
    requires Marked(v, v', ps) && forall p :: 0 <= p < |v| ==> !v[p]
    ensures forall p :: 0 <= p < |v| ==> (v'[p] <==> p in ps)
    ensures Distinct(ps) && PageTxn.AllBelow(ps, |v|)
  {
  }

  // ---------------------------------------------------------------- leaves are pages

  lemma {:induction false} LeavesDistinct(t: Layout)
    requires Distinct(PagesOf(t))
    ensures Distinct(LeavesOf(t)) && forall p :: p in LeavesOf(t) ==> p in PagesOf(t)
    decreases t, 1
  {
    if t.InnerAt? {
      DistinctTail(t.page, PagesOfAll(t.kids));
      LeavesDistinctAll(t.kids);
    }
  }

  lemma {:induction false} LeavesDistinctAll(ts: seq<Layout>)
    requires Distinct(PagesOfAll(ts))
    ensures Distinct(LeavesOfAll(ts)) && forall p :: p in LeavesOfAll(ts) ==> p in PagesOfAll(ts)
    decreases ts, 0
  {
    if ts != [] {
      var m := |ts| - 1;
      DistinctParts(PagesOfAll(ts[..m]), PagesOf(ts[m]));
      LeavesDistinctAll(ts[..m]);
      LeavesDistinct(ts[m]);
      DistinctJoin(LeavesOfAll(ts[..m]), LeavesOf(ts[m]));
    }
  }

  lemma DistinctTail(p: PageId, ps: seq<PageId>)
    requires Distinct([p] + ps)
    ensures Distinct(ps)
  {
    var qs := [p] + ps;
    forall i | 0 <= i < |ps| ensures ps[i] == qs[i + 1] {}
  }

  lemma DistinctParts(ps: seq<PageId>, qs: seq<PageId>)
    requires Distinct(ps + qs)
    ensures Distinct(ps) && Distinct(qs) && forall p :: p in ps ==> p !in qs
  {
    var rs := ps + qs;
    forall i | 0 <= i < |ps| ensures ps[i] == rs[i] {}
    forall i | 0 <= i < |qs| ensures qs[i] == rs[i + |ps|] {}
  }

  lemma DistinctJoin(ps: seq<PageId>, qs: seq<PageId>)
    requires Distinct(ps) && Distinct(qs) && forall p :: p in ps ==> p !in qs
    ensures Distinct(ps + qs)
  {
    var rs := ps + qs;
    forall i, j | 0 <= i < j < |rs| ensures rs[i] != rs[j] {
      if i < |ps| <= j { assert rs[i] in ps && rs[j] in qs; }
    }
  }

  lemma {:induction false} DistinctSize(ps: seq<PageId>, n: nat)
    requires Distinct(ps) && PageTxn.AllBelow(ps, n + 1)
    ensures |ps| <= n
  {
    var s := set p | p in ps;
    DistinctSet(ps);
    IntervalSize(s, n);
  }

  lemma {:induction false} DistinctSet(ps: seq<PageId>)
    requires Distinct(ps)
    ensures |set p | p in ps| == |ps|
  {
    if ps != [] {
      var m := |ps| - 1;
      DistinctSet(ps[..m]);
      assert (set p | p in ps) == (set p | p in ps[..m]) + {ps[m]};
    }
  }

  // ---------------------------------------------------------------- positions among all entries

  /** How many entries lie in the leaves before the given one. */
  ghost function Offset(g: Graph, leaves: seq<PageId>, at: nat): nat
    requires at <= |leaves|
  { |Flat(g, leaves[..at])| }

  lemma OffsetStep(g: Graph, leaves: seq<PageId>, at: nat)
    requires at < |leaves| && leaves[at] in g
    ensures Offset(g, leaves, at + 1) == Offset(g, leaves, at) + |g[leaves[at]].entries|
    ensures Offset(g, leaves, at + 1) <= |Flat(g, leaves)|
    ensures forall i :: 0 <= i < |g[leaves[at]].entries| ==>
      Flat(g, leaves)[Offset(g, leaves, at) + i] == g[leaves[at]].entries[i]
  {
    var a, b, c := Flat(g, leaves[..at]), g[leaves[at]].entries, Flat(g, leaves[at + 1..]);
    FlatThrough(g, leaves, at);
    FlatRest(g, leaves, at + 1);
    MiddleAt(Flat(g, leaves), a, b, c);
  }

  lemma FlatThrough(g: Graph, leaves: seq<PageId>, at: nat)
    requires at < |leaves| && leaves[at] in g
    ensures Flat(g, leaves[..at + 1]) == Flat(g, leaves[..at]) + g[leaves[at]].entries
  {
    assert leaves[..at + 1][..at] == leaves[..at];
  }

  lemma FlatRest(g: Graph, leaves: seq<PageId>, at: nat)
    requires at <= |leaves|
    ensures Flat(g, leaves) == Flat(g, leaves[..at]) + Flat(g, leaves[at..])
  {
    FlatCat(g, leaves[..at], leaves[at..]);
    assert leaves[..at] + leaves[at..] == leaves;
  }

  lemma MiddleAt<T>(s: seq<T>, a: seq<T>, b: seq<T>, c: seq<T>)
    requires s == a + b + c
    ensures |a| + |b| <= |s| && forall i :: 0 <= i < |b| ==> s[|a| + i] == b[i]
  {
  }

  lemma OffsetEnd(g: Graph, leaves: seq<PageId>)
    ensures Offset(g, leaves, |leaves|) == |Flat(g, leaves)|
  {
    assert leaves[..|leaves|] == leaves;
  }

  /** The first k entries are those below x. */
  ghost predicate Divides(es: seq<Entry>, k: nat, x: real) {
    && k <= |es|
    && (forall i :: 0 <= i < k ==> Rank(es[i].key) < x)
    && (forall i :: k <= i < |es| ==> x <= Rank(es[i].key))
  }

  /** A leaf that covers x, cut at j, cuts all entries. */
  lemma DividesAll(g: Graph, leaves: seq<PageId>, before: seq<PageId>, p: PageId, after: seq<PageId>, x: real, j: nat)
    requires p in g && Around(g, leaves, before, LeafAt(p), after, x) && Divides(g[p].entries, j, x)
    ensures |before| < |leaves| && leaves[|before|] == p && leaves[..|before|] == before
    ensures Divides(Flat(g, leaves), Offset(g, leaves, |before|) + j, x)
  {
    FlatOne(g, p);
    FlatCat(g, before, [p]);
    FlatCat(g, before + [p], after);
    assert leaves[..|before|] == before;
  }

  /** Walks down to the leaf that covers the key; without a key, to the first leaf. */
  method Descend(pages: Graph, root: PageId, key: Bound, ghost next: nat, ghost t: Layout, ghost h: nat)
    returns (st: Status, page: PageId, ghost before: seq<PageId>, ghost after: seq<PageId>)
    requires Accepted(pages, next, root, t, h)
    ensures st == Ok && page in pages && pages[page].kind == Leaf
    ensures Around(pages, LeavesOf(t), before, LeafAt(page), after, LowRank(key))
  {
    page, before, after := root, [], [];
    ghost var u, lo, hi := t, 0.0, 1.0;
    ghost var d: nat := h;
    ghost var x := LowRank(key);
    var depth := 0;
    AroundAll(pages, t, x);
    while true
      invariant u.page == page && Fits(pages, u, lo, hi, d) && lo <= x < hi && depth + d < MAX_DEPTH
      invariant Around(pages, LeavesOf(t), before, u, after, x)
      decreases d
    {
      st := Ok;
      if depth >= MAX_DEPTH { st := Corrupt; return; }
      depth := depth + 1;
      if page !in pages { st := Corrupt; return; }
      var n := pages[page];
      if n.kind == Leaf { return; }
      var i := Enter(n, key);
      Narrow(pages, LeavesOf(t), before, u, after, x, lo, hi, d, i);
      before, after := before + LeavesOfAll(u.kids[..i]), LeavesOfAll(u.kids[i + 1..]) + after;
      u, lo, hi, d := u.kids[i], LowEnd(n, lo, i), HighEnd(n, hi, i), d - 1;
      page := ChildAt(n, i);
    }
  }

  lemma AroundAll(g: Graph, t: Layout, x: real)
    ensures Around(g, LeavesOf(t), [], t, [], x)
  {
    assert [] + LeavesOf(t) + [] == LeavesOf(t);
  }

  /** Which child a search enters; without a key the first. */
  method Enter(n: Node, key: Bound) returns (i: nat)
    requires NodeValid(n) && n.kind == Internal
    ensures Routes(n.entries, i, LowRank(key))
  {
    ValidIsSorted(n);
    i := 0;
    if key.Key? { i := Route(n.entries, key.key); }
  }

  /** Looks up one key. */
  method Lookup(pages: Graph, root: PageId, key: Bytes, ghost next: nat, ghost t: Layout, ghost h: nat)
    returns (st: Status, value: Bytes)
    requires Accepted(pages, next, root, t, h)
    ensures st == Ok || st == NotFound
    ensures st == Ok ==>
      exists i ::
        && 0 <= i < |Flat(pages, LeavesOf(t))| && Flat(pages, LeavesOf(t))[i].key == key
        && Flat(pages, LeavesOf(t))[i].value == value
    ensures st == NotFound ==>
      forall i :: 0 <= i < |Flat(pages, LeavesOf(t))| ==> Flat(pages, LeavesOf(t))[i].key != key
  {
    value := [];
    var page;
    ghost var before, after;
    st, page, before, after := Descend(pages, root, Key(key), next, t, h);
    if st != Ok { return; }
    var n := pages[page];
    ValidIsSorted(n);
    var j := LowerBound(n.entries, key);
    var found := false;
    if j < |n.entries| {
      var c := Compare(n.entries[j].key, key);
      found := c == 0;
    }
    if found {
      FoundKey(pages, LeavesOf(t), before, page, after, Rank(key), j);
      return Ok, n.entries[j].value;
    }
    st := NotFound;
    AbsentKey(pages, LeavesOf(t), before, page, after, key, j);
  }

  lemma FoundKey(g: Graph, leaves: seq<PageId>, before: seq<PageId>, p: PageId, after: seq<PageId>, x: real, j: nat)
    requires p in g && Around(g, leaves, before, LeafAt(p), after, x) && j < |g[p].entries|
    ensures exists i :: 0 <= i < |Flat(g, leaves)| && Flat(g, leaves)[i] == g[p].entries[j]
  {
    assert leaves[|before|] == p;
    OffsetStep(g, leaves, |before|);
    var i := Offset(g, leaves, |before|) + j;
    assert Flat(g, leaves)[i] == g[p].entries[j];
  }

  ghost predicate Without(es: seq<Entry>, key: Bytes) { forall i :: 0 <= i < |es| ==> es[i].key != key }

  lemma WithoutBoth(es: seq<Entry>, fs: seq<Entry>, key: Bytes)
    requires Without(es, key) && Without(fs, key)
    ensures Without(es + fs, key)
  {
  }

  lemma AbsentHere(es: seq<Entry>, key: Bytes, j: nat)
    requires Divides(es, j, Rank(key)) && Sorted(es) && (j < |es| ==> key != es[j].key)
    ensures Without(es, key)
  {
    if j < |es| { RankIsOrder(key, es[j].key); }
  }

  lemma AbsentKey(g: Graph, leaves: seq<PageId>, before: seq<PageId>, p: PageId, after: seq<PageId>, key: Bytes, j: nat)
    requires p in g && Around(g, leaves, before, LeafAt(p), after, Rank(key))
    requires Divides(g[p].entries, j, Rank(key)) && Sorted(g[p].entries)
    requires j < |g[p].entries| ==> key != g[p].entries[j].key
    ensures forall i :: 0 <= i < |Flat(g, leaves)| ==> Flat(g, leaves)[i].key != key
  {
    AbsentHere(g[p].entries, key, j);
    FlatOne(g, p);
    FlatCat(g, before, [p]);
    FlatCat(g, before + [p], after);
    assert Without(Flat(g, before), key) && Without(Flat(g, after), key);
    WithoutBoth(Flat(g, before), g[p].entries, key);
    WithoutBoth(Flat(g, before + [p]), Flat(g, after), key);
  }

  // ---------------------------------------------------------------- forward cursors

  class Cursor {
    const pages: Graph
    const next: nat
    ghost const leaves: seq<PageId>
    var page: PageId
    var leaf: Node
    var index: nat
    var valid: bool
    var visited: seq<PageId>
    ghost var at: nat
    ghost var position: nat

    /** All entries of the tree in leaf order. */
    ghost function Entries(): seq<Entry> { Flat(pages, leaves) }

    ghost predicate OnLeaf()
      reads this
    {
      Threaded(pages, leaves, next) && Sited(pages, leaves, at, page, leaf, index, visited, position)
    }

    ghost predicate Placed()
      reads this
    {
      && OnLeaf()
      && if valid then index < |leaf.entries| else at == |leaves| - 1 && index == |leaf.entries|
    }

    /** A valid cursor is on an entry; an invalid one is past the last. */
    lemma Where()
      requires Placed()
      ensures valid <==> position < |Entries()|
      ensures valid ==> Entries()[position] == leaf.entries[index]
      ensures !valid ==> position == |Entries()|
    {
      OffsetStep(pages, leaves, at);
      if !valid { OffsetEnd(pages, leaves); }
    }

    /** Moves to the next leaf. */
    method Hop() returns (st: Status)
      requires OnLeaf() && index == |leaf.entries| && leaf.next != 0
      modifies this
      ensures st == Ok && OnLeaf() && index == 0 && at == old(at) + 1 && position == old(position)
        && valid == old(valid)
    {
      var sibling := leaf.next;
      HopStep(pages, leaves, next, at, page, leaf, visited, position);
      if sibling in visited || sibling !in pages || pages[sibling].kind != Leaf { st := Corrupt; return; }
      leaf, page, index, visited := pages[sibling], sibling, 0, visited + [sibling];
      at := at + 1;
      st := Ok;
    }

    /** Moves to the next leaf that has an entry. */
    method NextLeaf() returns (st: Status)
      requires OnLeaf() && index == |leaf.entries|
      modifies this
      ensures st == Ok && Placed() && position == old(position)
    {
      if visited == [] { visited := [page]; }
      valid := false;
      var hops := 0;
      ghost var start := at;
      DistinctSize(leaves, next - 1);
      while leaf.next != 0
        invariant OnLeaf() && index == |leaf.entries| && position == old(position) && !valid && hops == at - start
        decreases |leaves| - at
      {
        hops := hops + 1;
        if hops >= next { st := Corrupt; return; }
        st := Hop();
        if st != Ok { return; }
        if |leaf.entries| != 0 { valid := true; return; }
      }
      AtEnd(pages, leaves, at, next);
      st := Ok;
    }

    method Next() returns (st: Status)
      requires Placed()
      modifies this
      ensures st == Ok && Placed()
      ensures position == if old(valid) then old(position) + 1 else old(position)
    {
      if valid {
        index, position := index + 1, position + 1;
        if index < |leaf.entries| { return Ok; }
      }
      st := NextLeaf();
    }

    method Read() returns (st: Status, e: Entry)
      requires Placed()
      ensures st == Ok <==> valid
      ensures st == Ok ==> position < |Entries()| && e == Entries()[position]
    {
      e := Entry([], [], 0);
      if !valid || index >= |leaf.entries| { return InvalidArgument, e; }
      Where();
      return Ok, leaf.entries[index];
    }

    /** Reads the entry and moves on. */
    method Take() returns (e: Entry)
      requires Placed() && valid
      modifies this
      ensures Placed() && old(position) < |Entries()| && e == Entries()[old(position)] && position == old(position) + 1
      ensures valid <==> position < |Entries()|
    {
      var st;
      st, e := Read();
      st := Next();
      Where();
    }

    /** Positions a new cursor on the first entry not below the key; without a key, on the first entry. */
    constructor (pages: Graph, next: nat, root: PageId, key: Bound, ghost t: Layout, ghost h: nat)
      requires Accepted(pages, next, root, t, h)
      ensures Placed() && Entries() == Flat(pages, LeavesOf(t))
      ensures Divides(Entries(), position, LowRank(key))
    {
      this.pages, this.next, leaves := pages, next, LeavesOf(t);
      var p, j;
      ghost var a, k;
      p, j, a, k := Land(pages, next, root, key, t, h);
      page, leaf, index, visited, at, position := p, pages[p], j, [], a, k;
      valid := j < |pages[p].entries|;
      new;
      if !valid {
        if leaf.next != 0 { var st := NextLeaf(); } else { AtEnd(pages, leaves, at, next); }
      }
    }
  }

  /** The leaf and index where a search for the key ends. */
  method Land(pages: Graph, next: nat, root: PageId, key: Bound, ghost t: Layout, ghost h: nat)
    returns (p: PageId, j: nat, ghost at: nat, ghost position: nat)
    requires Accepted(pages, next, root, t, h)
    ensures Threaded(pages, LeavesOf(t), next) && p in pages
      && Sited(pages, LeavesOf(t), at, p, pages[p], j, [], position)
    ensures Divides(Flat(pages, LeavesOf(t)), position, LowRank(key))
  {
    var st;
    ghost var before, after;
    st, p, before, after := Descend(pages, root, key, next, t, h);
    var n := pages[p];
    ValidIsSorted(n);
    j := 0;
    if key.Key? { j := LowerBound(n.entries, key.key); }
    DividesAll(pages, LeavesOf(t), before, p, after, LowRank(key), j);
    LeavesBelow(t, next);
    at, position := |before|, Offset(pages, LeavesOf(t), |before|) + j;
  }

  /** The leaves are one chain of different pages. */
  ghost predicate Threaded(g: Graph, leaves: seq<PageId>, next: nat) {
    Decoded(g) && Linear(g, leaves) && Distinct(leaves) && PageTxn.AllBelow(leaves, next)
  }

  /** On leaf number `at`, no later leaf visited. */
  ghost predicate Sited(g: Graph, leaves: seq<PageId>, at: nat, page: PageId, leaf: Node, index: nat,
                        visited: seq<PageId>, position: nat) {
    && at < |leaves| && page == leaves[at] && page in g && leaf == g[page] && index <= |leaf.entries|
    && (forall j :: at < j < |leaves| ==> leaves[j] !in visited)
    && position == Offset(g, leaves, at) + index
  }

  lemma AtEnd(g: Graph, leaves: seq<PageId>, at: nat, next: nat)
    requires Linear(g, leaves) && PageTxn.AllBelow(leaves, next) && at < |leaves| && g[leaves[at]].next == 0
    ensures at == |leaves| - 1
  {
    if at + 1 < |leaves| { NextIs(g, leaves, at + 1, next); }
  }

  lemma NextIs(g: Graph, leaves: seq<PageId>, i: nat, next: nat)
    requires Chained(g, leaves) && PageTxn.AllBelow(leaves, next) && 0 < i < |leaves|
    ensures g[leaves[i - 1]].next == leaves[i] > 0
  {
  }

  lemma HopStep(g: Graph, leaves: seq<PageId>, next: nat, at: nat, page: PageId, leaf: Node, visited: seq<PageId>,
                position: nat)
    requires Threaded(g, leaves, next) && Sited(g, leaves, at, page, leaf, |leaf.entries|, visited, position)
      && leaf.next != 0
    ensures at + 1 < |leaves| && leaf.next == leaves[at + 1] && leaf.next !in visited
    ensures leaf.next in g && g[leaf.next].kind == Leaf
    ensures Sited(g, leaves, at + 1, leaf.next, g[leaf.next], 0, visited + [leaf.next], position)
  {
    OffsetStep(g, leaves, at);
  }

  lemma LeavesBelow(t: Layout, next: nat)
    requires Distinct(PagesOf(t)) && PageTxn.AllBelow(PagesOf(t), next)
    ensures Distinct(LeavesOf(t)) && PageTxn.AllBelow(LeavesOf(t), next)
  {
    LeavesDistinct(t);
    forall i | 0 <= i < |LeavesOf(t)| ensures 0 < LeavesOf(t)[i] < next {
      assert LeavesOf(t)[i] in PagesOf(t);
    }
  }

  /** Reads everything from where the cursor stands. */
  method ReadAll(c: Cursor) returns (es: seq<Entry>)
    requires c.Placed()
    modifies c
    ensures old(c.position) <= |c.Entries()| && es == c.Entries()[old(c.position)..]
  {
    ghost var all, k := c.Entries(), c.position;
    es := [];
    c.Where();
    while c.valid
      invariant c.Placed() && c.Entries() == all && (c.valid <==> c.position < |all|)
      invariant k <= c.position <= |all| && |es| == c.position - k
      invariant forall i :: 0 <= i < |es| ==> es[i] == all[k + i]
      decreases |all| - c.position
    {
      var e := c.Take();
      es := es + [e];
    }
  }

  /** Reads everything from the key on. */
  method Scan(pages: Graph, next: nat, root: PageId, key: Bound, ghost t: Layout, ghost h: nat)
    returns (es: seq<Entry>, ghost k: nat)
    requires Accepted(pages, next, root, t, h)
    ensures Divides(Flat(pages, LeavesOf(t)), k, LowRank(key)) && es == Flat(pages, LeavesOf(t))[k..]
  {
    var c := new Cursor(pages, next, root, key, t, h);
    k := c.position;
    es := ReadAll(c);
  }
}
