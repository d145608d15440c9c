/** When a delete is refused: the pages below the root decide it before anything is changed. */
module Refusals {
  import opened Keys
  import opened Shape
  import opened Nodes
  import opened Splits
  import opened Trees
  import opened Reclaim
  import opened Room

  // ---------------------------------------------------------------- what the pages say

  /** The separator between a page at the given slot and its sibling. */
  function SepSlot(slot: nat): nat { if slot >= 1 then slot - 1 else 0 }

  /** The joint node can be cut so that the parent still fits with the key that moves up. */
  ghost predicate Shareable(parent: Node, slot: nat, combined: Node, capacity: nat)
    requires SepSlot(slot) < |parent.entries|
  {
    exists m :: 0 < m < |combined.entries| && Best(combined, capacity, m)
      && EncodedSize(WithKey(parent, SepSlot(slot), combined.entries[m].key)) <= capacity
  }

  /** A page of the path and the sibling of the page below it are internal nodes. */
  ghost predicate Level(nodes: NodeMap, pages: seq<PageId>, slots: seq<nat>, l: nat) {
    && l < |pages| && l < |slots| && pages[l] in nodes && nodes[pages[l]].kind == Internal
    && nodes[pages[l]].entries != [] && slots[l] <= |nodes[pages[l]].entries|
    && SiblingAt(nodes, pages, slots, l) in nodes
  }

  ghost function SiblingAt(nodes: NodeMap, pages: seq<PageId>, slots: seq<nat>, l: nat): PageId
    requires l < |pages| && l < |slots| && pages[l] in nodes
    requires nodes[pages[l]].entries != [] && slots[l] <= |nodes[pages[l]].entries|
  { ChildAt(nodes[pages[l]], SiblingSlot(slots[l])) }

  /**
   * The page below the first `depth` pages of the path is left with one child. It joins its sibling if both fit one
   * page, and so may its parent, if that is left with one child too; else the two share, and the parent must take in
   * the new separator.
   */
  ghost predicate Refused(nodes: NodeMap, root: PageId, child: PageId, pages: seq<PageId>, slots: seq<nat>,
                          depth: nat, capacity: nat)
    decreases depth
  {
    && depth > 0 && Level(nodes, pages, slots, depth - 1)
    && var above, slot := pages[depth - 1], slots[depth - 1];
    && var sibling := SiblingAt(nodes, pages, slots, depth - 1);
    && var combined := Fused(nodes[above], slot, child, nodes[sibling]);
    if EncodedSize(combined) <= capacity then
      |nodes[above].entries| == 1 && above != root && Refused(nodes, root, sibling, pages, slots, depth - 1, capacity)
    else
      !Shareable(nodes[above], slot, combined, capacity)
  }

  /** The page below the first `depth` pages of the path goes. */
  ghost predicate DropRefused(nodes: NodeMap, root: PageId, pages: seq<PageId>, slots: seq<nat>, depth: nat,
                              capacity: nat) {
    && depth > 0 && Level(nodes, pages, slots, depth - 1)
    && |nodes[pages[depth - 1]].entries| == 1 && pages[depth - 1] != root
    && Refused(nodes, root, SiblingAt(nodes, pages, slots, depth - 1), pages, slots, depth - 1, capacity)
  }

  /** The way a search for the key takes from the root to a page. */
  ghost predicate RoutedTo(nodes: NodeMap, root: PageId, key: Bytes, pages: seq<PageId>, slots: seq<nat>,
                           page: PageId) {
    && |slots| == |pages| && page in nodes && At(pages, |pages|, 0, page) == root
    && forall l {:trigger RoutedAt(nodes, key, pages, slots, page, l)} :: 0 <= l < |pages| ==>
         RoutedAt(nodes, key, pages, slots, page, l)
  }

  ghost predicate Routed(nodes: NodeMap, root: PageId, key: Bytes, pages: seq<PageId>, slots: seq<nat>, leaf: PageId) {
    RoutedTo(nodes, root, key, pages, slots, leaf) && nodes[leaf].kind == Leaf
  }

  ghost predicate RoutedAt(nodes: NodeMap, key: Bytes, pages: seq<PageId>, slots: seq<nat>, leaf: PageId, l: nat) {
    && l < |pages| == |slots| && pages[l] in nodes && nodes[pages[l]].kind == Internal
    && Routes(nodes[pages[l]].entries, slots[l], Rank(key))
    && ChildAt(nodes[pages[l]], slots[l]) == At(pages, |pages|, l + 1, leaf)
  }

  /** The leaf of the key has no other entry and no parent could do without it. */
  ghost predicate DeleteRefused(nodes: NodeMap, root: PageId, taken: seq<PageId>, key: Bytes, capacity: nat) {
    exists pages, slots, leaf ::
      && Routed(nodes, root, key, pages, slots, leaf)
      && |nodes[leaf].entries| == 1 && nodes[leaf].entries[0].key == key && leaf !in taken
      && DropRefused(nodes, root, pages, slots, |pages|, capacity)
  }

  // ---------------------------------------------------------------- there is one way

  lemma RoutedOn(nodes: NodeMap, root: PageId, key: Bytes, pages: seq<PageId>, slots: seq<nat>, page: PageId, i: nat,
                 c: PageId)
    requires RoutedTo(nodes, root, key, pages, slots, page) && nodes[page].kind == Internal && c in nodes
    requires Routes(nodes[page].entries, i, Rank(key)) && ChildAt(nodes[page], i) == c
    ensures RoutedTo(nodes, root, key, pages + [page], slots + [i], c)
  {
    var pages', slots' := pages + [page], slots + [i];
    forall l | 0 <= l < |pages'| ensures RoutedAt(nodes, key, pages', slots', c, l) {
      if l < |pages| { assert RoutedAt(nodes, key, pages, slots, page, l); }
    }
  }

  /** So the pages on the way decide. */
  lemma DeleteDecided(nodes: NodeMap, root: PageId, taken: seq<PageId>, key: Bytes, pages: seq<PageId>,
                      slots: seq<nat>, leaf: PageId, capacity: nat)
    requires Routed(nodes, root, key, pages, slots, leaf)
    ensures DeleteRefused(nodes, root, taken, key, capacity) <==>
      && |nodes[leaf].entries| == 1 && nodes[leaf].entries[0].key == key && leaf !in taken
      && DropRefused(nodes, root, pages, slots, |pages|, capacity)
  {
    if DeleteRefused(nodes, root, taken, key, capacity) {
      var pages', slots', leaf' :|
        && Routed(nodes, root, key, pages', slots', leaf')
        && |nodes[leaf'].entries| == 1 && nodes[leaf'].entries[0].key == key && leaf' !in taken
        && DropRefused(nodes, root, pages', slots', |pages'|, capacity);
      OneWay(nodes, root, key, pages, slots, leaf, pages', slots', leaf');
    }
  }

  lemma {:induction false} SameWay(nodes: NodeMap, root: PageId, key: Bytes, pages: seq<PageId>, slots: seq<nat>,
                                   leaf: PageId, pages': seq<PageId>, slots': seq<nat>, leaf': PageId, l: nat)
    requires Routed(nodes, root, key, pages, slots, leaf) && Routed(nodes, root, key, pages', slots', leaf')
    requires l <= |pages| && l <= |pages'|
    ensures pages[..l] == pages'[..l] && slots[..l] == slots'[..l]
    ensures At(pages, |pages|, l, leaf) == At(pages', |pages'|, l, leaf')
  {
    if l > 0 {
      SameWay(nodes, root, key, pages, slots, leaf, pages', slots', leaf', l - 1);
      assert RoutedAt(nodes, key, pages, slots, leaf, l - 1) && RoutedAt(nodes, key, pages', slots', leaf', l - 1);
      SameSlot(nodes[pages[l - 1]].entries, slots[l - 1], slots'[l - 1], Rank(key));
      OneMore(pages, pages', l);
      OneMore(slots, slots', l);
    }
  }

  lemma SameSlot(es: seq<Entry>, i: nat, j: nat, x: real)
    requires Routes(es, i, x) && Routes(es, j, x)
    ensures i == j
  {
    assert i < |es| ==> (j <= i <==> x < Rank(es[i].key));
    assert j < |es| ==> (i <= j <==> x < Rank(es[j].key));
  }

  lemma OneMore<T>(a: seq<T>, b: seq<T>, l: nat)
    requires 0 < l <= |a| && l <= |b| && a[..l - 1] == b[..l - 1] && a[l - 1] == b[l - 1]
    ensures a[..l] == b[..l]
  {
    assert a[..l] == a[..l - 1] + [a[l - 1]] && b[..l] == b[..l - 1] + [b[l - 1]];
  }

  lemma TurnAt(nodes: NodeMap, root: PageId, key: Bytes, pages: seq<PageId>, slots: seq<nat>, leaf: PageId, l: nat)
    requires Routed(nodes, root, key, pages, slots, leaf) && l < |pages|
    ensures RoutedAt(nodes, key, pages, slots, leaf, l)
  {
  }

  lemma OneWay(nodes: NodeMap, root: PageId, key: Bytes, pages: seq<PageId>, slots: seq<nat>, leaf: PageId,
               pages': seq<PageId>, slots': seq<nat>, leaf': PageId)
    requires Routed(nodes, root, key, pages, slots, leaf) && Routed(nodes, root, key, pages', slots', leaf')
    ensures pages == pages' && slots == slots' && leaf == leaf'
  {
    var l := if |pages| < |pages'| then |pages| else |pages'|;
    SameWay(nodes, root, key, pages, slots, leaf, pages', slots', leaf', l);
    if |pages| < |pages'| { TurnAt(nodes, root, key, pages', slots', leaf', l); }
    if |pages'| < |pages| { TurnAt(nodes, root, key, pages, slots, leaf, l); }
    assert pages[..l] == pages && pages'[..l] == pages' && slots[..l] == slots && slots'[..l] == slots';
  }

  // ---------------------------------------------------------------- what lies above is as before

  ghost predicate SameLevel(nodes: NodeMap, nodes': NodeMap, pages: seq<PageId>, slots: seq<nat>, l: nat) {
    && Level(nodes, pages, slots, l) && Level(nodes', pages, slots, l)
    && nodes'[pages[l]] == nodes[pages[l]]
    && nodes'[SiblingAt(nodes, pages, slots, l)] == nodes[SiblingAt(nodes, pages, slots, l)]
  }

  lemma {:induction false} RefusedSame(nodes: NodeMap, nodes': NodeMap, root: PageId, child: PageId,
                                       pages: seq<PageId>, slots: seq<nat>, depth: nat, capacity: nat)
    requires forall l {:trigger SameLevel(nodes, nodes', pages, slots, l)} :: 0 <= l < depth ==>
      SameLevel(nodes, nodes', pages, slots, l)
    ensures Refused(nodes, root, child, pages, slots, depth, capacity)
      <==> Refused(nodes', root, child, pages, slots, depth, capacity)
    decreases depth
  {
    if depth > 0 {
      assert SameLevel(nodes, nodes', pages, slots, depth - 1);
      var sibling := SiblingAt(nodes, pages, slots, depth - 1);
      RefusedSame(nodes, nodes', root, sibling, pages, slots, depth - 1, capacity);
    }
  }

  lemma LevelHolds(t: Tree, x: PageId, root: PageId, pages: seq<PageId>, slots: seq<nat>, depth: nat, page: PageId,
                   l: nat, capacity: nat)
    requires Held(t, x) && NodesOk(t.nodes, capacity) && PathOk(t, root, pages, slots, depth, page) && l < depth
    requires x == 0 || x == page
    ensures Level(t.nodes, pages, slots, l)
    ensures var s := SiblingAt(t.nodes, pages, slots, l);
      s in t.spans && t.spans[s].height + 1 == t.spans[pages[l]].height
    ensures t.spans[pages[l]].height > t.spans[page].height
  {
    LevelAt(t, root, pages, slots, depth, page, l);
    ValidIsSorted(t.nodes[pages[l]]);
    PathKid(t, x, pages[l], SiblingSlot(slots[l]), SiblingAtSlot(t.nodes[pages[l]], slots[l]));
  }

  ghost function SiblingAtSlot(n: Node, slot: nat): PageId
    requires n.entries != [] && slot <= |n.entries|
  { ChildAt(n, SiblingSlot(slot)) }

  /** Changes below a page of the path do not change what is said of the pages above it. */
  lemma RefusedKept(t: Tree, t': Tree, x: PageId, y: PageId, root: PageId, child: PageId, pages: seq<PageId>,
                    slots: seq<nat>, depth: nat, page: PageId, h: nat, capacity: nat)
    requires Held(t, x) && NodesOk(t.nodes, capacity) && PathOk(t, root, pages, slots, depth, page)
    requires x == 0 || x == page || (x in t.spans && t.spans[x].height < t.spans[page].height)
    requires KeptAbove(t, t', h, y) && h < t.spans[page].height
    ensures Refused(t.nodes, root, child, pages, slots, depth, capacity)
      <==> Refused(t'.nodes, root, child, pages, slots, depth, capacity)
  {
    forall l | 0 <= l < depth ensures SameLevel(t.nodes, t'.nodes, pages, slots, l) {
      LevelKept(t, t', x, y, root, pages, slots, depth, page, l, h, capacity);
    }
    RefusedSame(t.nodes, t'.nodes, root, child, pages, slots, depth, capacity);
  }

  /** Once the page below has gone into its sibling. */
  lemma RefusedAbove(t: Tree, t': Tree, root: PageId, lone: PageId, child: PageId, pages: seq<PageId>,
                     slots: seq<nat>, depth: nat, capacity: nat)
    requires Held(t, lone) && NodesOk(t.nodes, capacity) && depth > 0 && PathOk(t, root, pages, slots, depth, lone)
    requires lone in t.spans && pages[depth - 1] in t.spans && t.spans[pages[depth - 1]].height > 0
    requires KeptAbove(t, t', t.spans[pages[depth - 1]].height - 1, pages[depth - 1])
    ensures Refused(t.nodes, root, child, pages, slots, depth - 1, capacity)
      <==> Refused(t'.nodes, root, child, pages, slots, depth - 1, capacity)
  {
    var above := pages[depth - 1];
    LevelAt(t, root, pages, slots, depth, lone, depth - 1);
    PathAbove(t, root, pages, slots, depth, lone);
    RefusedKept(t, t', lone, above, root, child, pages, slots, depth - 1, above, t.spans[above].height - 1, capacity);
  }

  lemma PathAbove(t: Tree, root: PageId, pages: seq<PageId>, slots: seq<nat>, depth: nat, page: PageId)
    requires PathOk(t, root, pages, slots, depth, page) && depth > 0
    ensures PathOk(t, root, pages, slots, depth - 1, pages[depth - 1])
  {
    LevelAt(t, root, pages, slots, depth, page, depth - 1);
    var d := depth - 1;
    forall l | 0 <= l < d ensures LevelOk(t, pages, slots, d, pages[d], l) {
      LevelAt(t, root, pages, slots, depth, page, l);
    }
  }

  /** An empty leaf goes. */
  lemma DropDecided(t: Tree, t': Tree, root: PageId, leaf: PageId, pages: seq<PageId>, slots: seq<nat>, depth: nat,
                    capacity: nat)
    requires Held(t, 0) && NodesOk(t.nodes, capacity) && depth > 0 && PathOk(t, root, pages, slots, depth, leaf)
    requires leaf in t.spans && pages[depth - 1] in t.spans && t.spans[pages[depth - 1]].height > 0
    requires KeptAbove(t, t', t.spans[pages[depth - 1]].height - 1, pages[depth - 1])
    ensures Level(t.nodes, pages, slots, depth - 1)
    ensures var n, slot := t.nodes[pages[depth - 1]], slots[depth - 1];
      DropRefused(t.nodes, root, pages, slots, depth, capacity) <==>
        && WithoutChild(n, slot).entries == [] && pages[depth - 1] != root
        && Refused(t'.nodes, root, WithoutChild(n, slot).first, pages, slots, depth - 1, capacity)
  {
    var above := pages[depth - 1];
    LevelHolds(t, 0, root, pages, slots, depth, leaf, depth - 1, capacity);
    RestFits(t.nodes[above], slots[depth - 1]);
    PathAbove(t, root, pages, slots, depth, leaf);
    RefusedKept(t, t', 0, above, root, SiblingAt(t.nodes, pages, slots, depth - 1), pages, slots, depth - 1, above,
      t.spans[above].height - 1, capacity);
  }

  /** A leaf has lost an entry. */
  lemma LeafChanged(t: Tree, t': Tree, root: PageId, leaf: PageId, n: Node, pages: seq<PageId>, slots: seq<nat>,
                    depth: nat, capacity: nat)
    requires Held(t, 0) && NodesOk(t.nodes, capacity) && depth > 0 && PathOk(t, root, pages, slots, depth, leaf)
    requires leaf in t.nodes && t.nodes[leaf].kind == Leaf && LeafStored(t, t', leaf, n)
    ensures DropRefused(t.nodes, root, pages, slots, depth, capacity)
      <==> DropRefused(t'.nodes, root, pages, slots, depth, capacity)
    ensures leaf != root
  {
    LeafKept(t, t', leaf, n);
    RootAbove(t, root, pages, slots, depth, leaf);
    LevelHolds(t, 0, root, pages, slots, depth, leaf, depth - 1, capacity);
    AboveLeafKept(t, t', root, leaf, n, pages, slots, depth, capacity);
  }

  lemma AboveLeafKept(t: Tree, t': Tree, root: PageId, leaf: PageId, n: Node, pages: seq<PageId>, slots: seq<nat>,
                      depth: nat, capacity: nat)
    requires Held(t, 0) && NodesOk(t.nodes, capacity) && depth > 0 && PathOk(t, root, pages, slots, depth, leaf)
    requires leaf in t.nodes && t.nodes[leaf].kind == Leaf && LeafStored(t, t', leaf, n)
    requires Level(t.nodes, pages, slots, depth - 1) && t.spans[pages[depth - 1]].height > 0
    ensures DropRefused(t.nodes, root, pages, slots, depth, capacity)
      <==> DropRefused(t'.nodes, root, pages, slots, depth, capacity)
  {
    LeafKept(t, t', leaf, n);
    PathAbove(t, root, pages, slots, depth, leaf);
    var child := SiblingAt(t.nodes, pages, slots, depth - 1);
    RefusedKept(t, t', 0, leaf, root, child, pages, slots, depth - 1, pages[depth - 1], 0, capacity);
    DropSame(t.nodes, t'.nodes, root, pages, slots, depth, capacity);
  }

  ghost predicate LeafStored(t: Tree, t': Tree, leaf: PageId, n: Node) {
    t'.nodes == t.nodes[leaf := n] && t'.spans == t.spans && t'.views == t.views[leaf := ViewOf(n)]
  }

  lemma LeafKept(t: Tree, t': Tree, leaf: PageId, n: Node)
    requires Held(t, 0) && leaf in t.nodes && t.nodes[leaf].kind == Leaf && LeafStored(t, t', leaf, n)
    ensures t.spans[leaf].height == 0 && KeptAbove(t, t', 0, leaf)
  {
    PageAt(t.views, t.spans, t.held, leaf);
  }

  lemma DropSame(nodes: NodeMap, nodes': NodeMap, root: PageId, pages: seq<PageId>, slots: seq<nat>, depth: nat,
                 capacity: nat)
    requires depth > 0 && Level(nodes, pages, slots, depth - 1) && nodes.Keys <= nodes'.Keys
    requires nodes'[pages[depth - 1]] == nodes[pages[depth - 1]]
    requires var sibling := SiblingAt(nodes, pages, slots, depth - 1);
      Refused(nodes, root, sibling, pages, slots, depth - 1, capacity) <==>
      Refused(nodes', root, sibling, pages, slots, depth - 1, capacity)
    ensures DropRefused(nodes, root, pages, slots, depth, capacity)
      <==> DropRefused(nodes', root, pages, slots, depth, capacity)
  {
  }

  /** No leaf points to the empty leaf any more. */
  ghost predicate Bypassed(t: Tree, t': Tree, leaf: PageId, before: PageId) {
    && leaf in t.nodes && leaf in t.spans && before != leaf
    && if before == 0 then t' == t && t.spans[leaf].lo == 0.0
       else
         && before in t.nodes && before in t.spans && t.nodes[before].kind == Leaf
         && t.spans[before].hi == t.spans[leaf].lo
         && t' == t.(nodes := t.nodes[before := t.nodes[before].(next := t.nodes[leaf].next)])
  }

  /** What the tree is once the leaf is gone and its parent has lost it. */
  ghost predicate Detached(t: Tree, t1: Tree, root: PageId, leaf: PageId, pages: seq<PageId>, slots: seq<nat>,
                           depth: nat) {
    && 0 < depth <= |pages| && depth <= |slots| && leaf in t.nodes && t1.nodes == t.nodes - {leaf}
    && var above, slot := pages[depth - 1], slots[depth - 1];
    && above in t1.nodes && t.nodes[above].kind == Internal && t.nodes[above].entries != []
    && slot <= |t.nodes[above].entries|
    && var rest := WithoutChild(t.nodes[above], slot);
    && Held(t1, above) && t1.views[above] == ViewOf(rest) && t1.held == t.held
    && root in t1.nodes && t1.views[0] == InnerView(root, map[])
    && (rest.entries == [] && above != root ==> Climbing(t1, root, above, rest.first, pages, slots, depth - 1))
  }

  lemma Detach(t: Tree, t': Tree, root: PageId, leaf: PageId, before: PageId, pages: seq<PageId>, slots: seq<nat>,
               depth: nat, capacity: nat) returns (t1: Tree)
    requires Rooted(t, root) && NodesOk(t.nodes, capacity) && depth > 0 && PathOk(t, root, pages, slots, depth, leaf)
    requires Bypassed(t, t', leaf, before) && t.nodes[leaf].kind == Leaf && t.nodes[leaf].entries == []
    ensures Detached(t', t1, root, leaf, pages, slots, depth)
    ensures var rest := WithoutChild(t'.nodes[pages[depth - 1]], slots[depth - 1]);
      DropRefused(t.nodes, root, pages, slots, depth, capacity) <==>
        && rest.entries == [] && pages[depth - 1] != root
        && Refused(t1.nodes, root, rest.first, pages, slots, depth - 1, capacity)
  {
    var above, slot := pages[depth - 1], slots[depth - 1];
    PathKidAt(t, root, pages, slots, depth, leaf, depth - 1, capacity);
    t1 := DropStep(t, above, slot, leaf, before);
    NotBefore(t, above, leaf, before);
    ClimbOn(t, t1, root, leaf, WithoutChild(t.nodes[above], slot), pages, slots, depth);
    DropDecided(t, t1, root, leaf, pages, slots, depth, capacity);
  }

  lemma LevelKept(t: Tree, t': Tree, x: PageId, y: PageId, root: PageId, pages: seq<PageId>, slots: seq<nat>,
                  depth: nat, page: PageId, l: nat, h: nat, capacity: nat)
    requires Held(t, x) && NodesOk(t.nodes, capacity) && PathOk(t, root, pages, slots, depth, page) && l < depth
    requires x == 0 || x == page || (x in t.spans && t.spans[x].height < t.spans[page].height)
    requires KeptAbove(t, t', h, y) && h < t.spans[page].height
    ensures SameLevel(t.nodes, t'.nodes, pages, slots, l)
  {
    LevelAt(t, root, pages, slots, depth, page, l);
    ValidIsSorted(t.nodes[pages[l]]);
    PathKid(t, x, pages[l], SiblingSlot(slots[l]), SiblingAtSlot(t.nodes[pages[l]], slots[l]));
  }

  // ---------------------------------------------------------------- what fits

  lemma PartValid(n: Node, part: Node, a: nat, b: nat)
    requires a <= b <= |n.entries| && part.entries == n.entries[a..b] && part.kind == n.kind
    requires if n.kind == Leaf then part.first == 0 else part.first != 0 && part.next == 0
    requires NodeValid(n)
    ensures NodeValid(part)
  {
    ValidIsSorted(n);
    ValidFromSorted(part);
  }

  /** An admissible cut gives two nodes that can be stored. */
  lemma HalvesFit(n: Node, m: nat, capacity: nat)
    requires n.kind == Internal && NodeValid(n) && Admissible(n, capacity, m)
    ensures
      var lower, upper := n.(entries := n.entries[..m]), n.(first := n.entries[m].right, entries := n.entries[m + 1..]);
      && NodeValid(lower) && EncodedSize(lower) <= capacity
      && NodeValid(upper) && EncodedSize(upper) <= capacity
  {
    assert EntryValid(n.kind, n.entries[m]);
    PartValid(n, n.(entries := n.entries[..m]), 0, m);
    PartValid(n, n.(first := n.entries[m].right, entries := n.entries[m + 1..]), m + 1, |n.entries|);
  }

  lemma RemovedFits(n: Node, i: nat)
    requires NodeValid(n) && i < |n.entries|
    ensures var n' := n.(entries := Removed(n.entries, i)); NodeValid(n') && EncodedSize(n') <= EncodedSize(n)
  {
    ValidIsSorted(n);
    RemovedSorted(n.entries, i);
    ValidFromSorted(n.(entries := Removed(n.entries, i)));
    PutBack(n.entries, i);
    SizeInserted(n.kind, Removed(n.entries, i), i, n.entries[i]);
  }

  lemma RestFits(n: Node, slot: nat)
    requires n.kind == Internal && NodeValid(n) && n.entries != [] && slot <= |n.entries|
    ensures NodeValid(WithoutChild(n, slot)) && EncodedSize(WithoutChild(n, slot)) <= EncodedSize(n)
    ensures WithoutChild(n, slot).entries == [] <==> |n.entries| == 1
    ensures |n.entries| == 1 ==> WithoutChild(n, slot).first == ChildAt(n, SiblingSlot(slot))
  {
    RemovedFits(n, SepSlot(slot));
    assert EntryValid(n.kind, n.entries[0]);
    var rest := n.(entries := Removed(n.entries, SepSlot(slot)));
    ValidIsSorted(rest);
    ValidFromSorted(WithoutChild(n, slot));
  }

  lemma NewKeyValid(n: Node, j: nat, k: Bytes)
    requires n.kind == Internal && NodeValid(n) && j < |n.entries| && 0 < |k| <= MAX_KEY
    requires Sorted(WithKey(n, j, k).entries)
    ensures NodeValid(WithKey(n, j, k))
  {
    var n' := WithKey(n, j, k);
    forall i | 0 <= i < |n'.entries| ensures EntryValid(n'.kind, n'.entries[i]) {
      assert EntryValid(n.kind, n.entries[i]);
    }
    ValidFromSorted(n');
  }

  /** The joint node is one that the encoder takes, whatever its size. */
  lemma FusedValid(parent: Node, slot: nat, child: PageId, sibling: Node, capacity: nat)
    requires parent.kind == Internal && NodeValid(parent) && parent.entries != [] && slot <= |parent.entries|
    requires sibling.kind == Internal && NodeValid(sibling) && EncodedSize(sibling) <= capacity <= MAX_CAPACITY
    requires child != 0 && Sorted(Fused(parent, slot, child, sibling).entries)
    ensures NodeValid(Fused(parent, slot, child, sibling))
  {
    var n := Fused(parent, slot, child, sibling);
    EntriesLong(sibling.kind, sibling.entries);
    assert EntryValid(parent.kind, parent.entries[SepSlot(slot)]);
    forall i | 0 <= i < |n.entries| ensures EntryValid(n.kind, n.entries[i]) {
      if slot >= 1 && i < |sibling.entries| { assert n.entries[i] == sibling.entries[i]; }
      if slot == 0 && i > 0 { assert n.entries[i] == sibling.entries[i - 1]; }
    }
    ValidFromSorted(n);
  }

  /** The best cut decides. */
  lemma ShareDecided(parent: Node, slot: nat, combined: Node, middle: nat, capacity: nat)
    requires SepSlot(slot) < |parent.entries| && Best(combined, capacity, middle)
    ensures Shareable(parent, slot, combined, capacity) <==>
      && 0 < middle < |combined.entries|
      && EncodedSize(WithKey(parent, SepSlot(slot), combined.entries[middle].key)) <= capacity
  {
    if Shareable(parent, slot, combined, capacity) {
      var m :| 0 < m < |combined.entries| && Best(combined, capacity, m)
        && EncodedSize(WithKey(parent, SepSlot(slot), combined.entries[m].key)) <= capacity;
      BestUnique(combined, capacity, m, middle);
    }
  }

  /** With small entries there is always a cut. */
  lemma CutThere(parent: Node, slot: nat, child: PageId, sibling: Node, capacity: nat)
    requires parent.kind == Internal && parent.entries != [] && slot <= |parent.entries| && Roomy(parent, capacity)
    requires sibling.kind == Internal && sibling.next == 0 && EncodedSize(sibling) <= capacity
      && Roomy(sibling, capacity)
    ensures var n := Fused(parent, slot, child, sibling);
      EncodedSize(n) <= capacity || exists c :: Admissible(n, capacity, c)
  {
    var n := Fused(parent, slot, child, sibling);
    FusedRoomy(parent, slot, child, sibling, capacity);
    forall i | 0 <= i < |n.entries| ensures 2 * EntrySize(n.kind, n.entries[i]) + HEADER_SIZE <= capacity {
      assert Small(n.kind, n.entries[i], capacity);
    }
    if slot >= 1 {
      var e := Entry(parent.entries[slot - 1].key, [], child);
      assert n.entries == Inserted(sibling.entries, |sibling.entries|, e);
      GrownSplits(sibling, n, |sibling.entries|, e, capacity);
    } else {
      var e := Entry(parent.entries[0].key, [], sibling.first);
      assert n.entries == Inserted(sibling.entries, 0, e);
      GrownSplits(sibling.(first := child), n, 0, e, capacity);
    }
  }

  /** So with small entries the new separator alone decides. */
  lemma SeparatorDecides(nodes: NodeMap, above: PageId, slot: nat, child: PageId, sibling: PageId, capacity: nat)
      returns (m: nat)
    requires AllRoomy(nodes, capacity) && NodesOk(nodes, capacity) && above in nodes && sibling in nodes
    requires nodes[above].kind == Internal && nodes[sibling].kind == Internal && slot <= |nodes[above].entries|
    requires EncodedSize(Fused(nodes[above], slot, child, nodes[sibling])) > capacity
    ensures var parent, combined := nodes[above], Fused(nodes[above], slot, child, nodes[sibling]);
      && 0 < m < |combined.entries| && Best(combined, capacity, m)
      && (Shareable(parent, slot, combined, capacity) <==>
           EncodedSize(WithKey(parent, SepSlot(slot), combined.entries[m].key)) <= capacity)
  {
    var combined := Fused(nodes[above], slot, child, nodes[sibling]);
    RoomyNode(nodes, above, capacity);
    RoomyNode(nodes, sibling, capacity);
    CutThere(nodes[above], slot, child, nodes[sibling], capacity);
    m := BestThere(combined, capacity);
    ShareDecided(nodes[above], slot, combined, m, capacity);
  }
}
