/** What a delete does to the tree once a leaf has run empty. */
module Reclaim {
  import opened Keys
  import opened Shape
  import opened Nodes
  import opened PageTxn
  import opened Trees

  // ---------------------------------------------------------------- the way down

  function At(pages: seq<PageId>, depth: nat, l: nat, page: PageId): PageId
    requires depth <= |pages|
  { if l < depth then pages[l] else page }

  ghost predicate PathStep(t: Tree, p: PageId, i: nat, c: PageId) {
    && p in t.nodes && p in t.spans && t.nodes[p].kind == Internal
    && i <= |t.nodes[p].entries| && ChildAt(t.nodes[p], i) == c
  }

  ghost predicate LevelOk(t: Tree, pages: seq<PageId>, slots: seq<nat>, depth: nat, page: PageId, l: nat) {
    && l < depth <= |pages| && depth <= |slots| && page in t.spans
    && PathStep(t, pages[l], slots[l], At(pages, depth, l + 1, page))
    && t.spans[pages[l]].height == t.spans[page].height + depth - l
  }

  /** The first `depth` pages lead from the root to `page`, one level each, through the given child slots. */
  ghost predicate PathOk(t: Tree, root: PageId, pages: seq<PageId>, slots: seq<nat>, depth: nat, page: PageId) {
    && depth <= |pages| && depth <= |slots|
    && page in t.spans && At(pages, depth, 0, page) == root
    && (forall l {:trigger LevelOk(t, pages, slots, depth, page, l)} :: 0 <= l < depth ==>
          LevelOk(t, pages, slots, depth, page, l))
  }

  lemma LevelAt(t: Tree, root: PageId, pages: seq<PageId>, slots: seq<nat>, depth: nat, page: PageId, l: nat)
    requires PathOk(t, root, pages, slots, depth, page) && l < depth
    ensures LevelOk(t, pages, slots, depth, page, l)
    ensures root in t.spans && t.spans[root].height == t.spans[page].height + depth
  {
    assert LevelOk(t, pages, slots, depth, page, l);
    assert LevelOk(t, pages, slots, depth, page, 0);
  }

  lemma PathDown(t: Tree, root: PageId, pages: seq<PageId>, slots: seq<nat>, page: PageId, i: nat, c: PageId)
    requires |pages| == |slots| && PathOk(t, root, pages, slots, |pages|, page)
    requires PathStep(t, page, i, c) && c in t.spans && t.spans[c].height + 1 == t.spans[page].height
    ensures PathOk(t, root, pages + [page], slots + [i], |pages| + 1, c)
  {
    var pages', slots', d := pages + [page], slots + [i], |pages| + 1;
    forall l | 0 <= l < d ensures LevelOk(t, pages', slots', d, c, l) {
      if l < |pages| { LevelAt(t, root, pages, slots, |pages|, page, l); }
    }
  }

  lemma PathUp(t: Tree, t': Tree, root: PageId, pages: seq<PageId>, slots: seq<nat>, depth: nat, page: PageId,
               x: PageId)
    requires PathOk(t, root, pages, slots, depth, page) && depth > 0
    requires KeptAbove(t, t', t.spans[page].height, x)
    ensures PathOk(t', root, pages, slots, depth - 1, pages[depth - 1])
  {
    LevelAt(t, root, pages, slots, depth, page, depth - 1);
    var d := depth - 1;
    forall l | 0 <= l < d ensures LevelOk(t', pages, slots, d, pages[d], l) {
      LevelAt(t, root, pages, slots, depth, page, l);
    }
  }

  /** What the shape says of the children along the path. */
  lemma PathKid(t: Tree, x: PageId, p: PageId, i: nat, c: PageId)
    requires Held(t, x) && p != x && PathStep(t, p, i, c) && Sorted(t.nodes[p].entries)
    ensures c in t.nodes && t.spans[c].parent == p && t.spans[c].height + 1 == t.spans[p].height && c != p
    ensures t.spans[c].lo == LowEnd(t.nodes[p], t.spans[p].lo, i)
      && t.spans[c].hi == HighEnd(t.nodes[p], t.spans[p].hi, i)
    ensures t.spans[p].lo <= t.spans[c].lo < t.spans[c].hi <= t.spans[p].hi
  {
    PageAt(t.views, t.spans, t.held, p);
    KidIndex(p, t.nodes[p], t.spans[p], t.spans, i);
    PageAt(t.views, t.spans, t.held, 0);
    KidAt(p, t.views[p], t.spans[p], t.spans, t.spans[c].lo, c);
  }

  // ---------------------------------------------------------------- one entry goes

  lemma LeafRemoveStep(t: Tree, p: PageId, n: Node, x: real) returns (t': Tree)
    requires Held(t, 0) && p in t.nodes && t.nodes[p].kind == Leaf && n.kind == Leaf
    requires t.spans[p].lo <= x < t.spans[p].hi
    requires ViewOf(n) == LeafView(ViewOf(t.nodes[p]).entries - {x}, t.nodes[p].next)
    ensures t' == Tree(t.nodes[p := n], t.views[p := ViewOf(n)], t.spans, t.held - {x})
    ensures Held(t', 0)
  {
    var above := Parent(t.views, t.spans, t.held, p);
    t' := Tree(t.nodes[p := n], t.views[p := ViewOf(n)], t.spans, t.held - {x});
    PageAt(t.views, t.spans, t.held, p);
    SetLeaf(t.views, t.spans, t.held, t'.views, t'.held, p);
  }

  // ---------------------------------------------------------------- a page leaves its parent

  /** The view of page `above` is that of n, still to be stored; everything higher is as it was. */
  ghost predicate Lifted(t: Tree, t': Tree, above: PageId, n: Node) {
    && Held(t', above) && above in t.spans && above in t.nodes && above in t'.nodes && t.spans[above].height > 0
    && Sorted(n.entries) && t'.views[above] == ViewOf(n)
    && KeptAbove(t, t', t.spans[above].height - 1, above) && t'.held == t.held
  }

  /** Leaf q has run empty; d is the leaf before it, or 0. */
  ghost predicate Droppable(t: Tree, above: PageId, i: nat, q: PageId, d: PageId) {
    && PathStep(t, above, i, q) && t.nodes[above].entries != [] && Sorted(t.nodes[above].entries)
    && q in t.nodes && q in t.spans && t.nodes[q].kind == Leaf && t.nodes[q].entries == []
    && if d == 0 then t.spans[q].lo == 0.0
       else d in t.nodes && d in t.spans && t.nodes[d].kind == Leaf && t.spans[d].hi == t.spans[q].lo
  }

  ghost function DroppedNodes(nodes: NodeMap, q: PageId, d: PageId): NodeMap
    requires q in nodes && (d == 0 || d in nodes)
  { (if d == 0 then nodes else nodes[d := nodes[d].(next := nodes[q].next)]) - {q} }

  lemma DropStep(t: Tree, above: PageId, i: nat, q: PageId, d: PageId) returns (t': Tree)
    requires Held(t, 0) && Droppable(t, above, i, q, d)
    ensures t'.nodes == DroppedNodes(t.nodes, q, d)
    ensures Lifted(t, t', above, WithoutChild(t.nodes[above], i))
  {
    PathKid(t, 0, above, i, q);
    if i == 0 { t' := DropFirstStep(t, above, q, d); } else { t' := DropAfterStep(t, above, i, q, d); }
  }

  lemma DropAfterStep(t: Tree, above: PageId, i: nat, q: PageId, d: PageId) returns (t': Tree)
    requires Held(t, 0) && Droppable(t, above, i, q, d) && i > 0
    requires t.spans[q].parent == above && t.spans[q].height + 1 == t.spans[above].height && q != above
    requires t.spans[q].lo == LowEnd(t.nodes[above], t.spans[above].lo, i)
    ensures t'.nodes == DroppedNodes(t.nodes, q, d)
    ensures Lifted(t, t', above, WithoutChild(t.nodes[above], i))
  {
    var views', spans' := DropAfterViews(t, above, i, q, d);
    t' := Tree(DroppedNodes(t.nodes, q, d), views', spans', t.held);
    DropMirrors(t, t', above, q, d, WithoutChild(t.nodes[above], i));
    DropKept(t, t', above, q, d, d);
    ChildRemoved(t.nodes[above], i);
  }

  lemma DropAfterViews(t: Tree, above: PageId, i: nat, q: PageId, d: PageId) returns (views': Views, spans': Spans)
    requires Held(t, 0) && Droppable(t, above, i, q, d) && i > 0
    requires t.spans[q].parent == above && t.spans[q].height + 1 == t.spans[above].height && q != above
    requires t.spans[q].lo == LowEnd(t.nodes[above], t.spans[above].lo, i)
    ensures Shaped(views', spans', t.held) && d != 0 && t.spans[q].height == 0 && t.spans[d].height == 0
      && t.spans[d].lo < t.spans[d].hi
    ensures views' ==
      (t.views - {q})[above := ViewOf(WithoutChild(t.nodes[above], i))][d := t.views[d].(next := t.nodes[q].next)]
    ensures spans' == (t.spans - {q})[d := t.spans[d].(hi := t.spans[q].hi)]
  {
    var views, spans := t.views, t.spans;
    ChildRemoved(t.nodes[above], i);
    EmptyLeafView(t.nodes[q]);
    var owner := Parent(views, spans, t.held, q);
    Within(views, spans, t.held, above);
    PageAt(views, spans, t.held, d);
    var fewer := views[above].(seps := views[above].seps - {spans[q].lo});
    views' := (views - {q})[above := fewer][d := views[d].(next := views[q].next)];
    spans' := (spans - {q})[d := spans[d].(hi := spans[q].hi)];
    DropAfter(views, spans, t.held, views', spans', q, d);
  }

  lemma DropMirrors(t: Tree, t': Tree, above: PageId, q: PageId, d: PageId, n: Node)
    requires Mirrors(t.nodes, t.views, 0) && above in t.nodes && q in t.nodes && above != q
    requires d != 0 ==> d in t.nodes && d != q && d != above && t.nodes[d].kind == Leaf
    requires t'.nodes == DroppedNodes(t.nodes, q, d)
    requires t'.views == (var base := (t.views - {q})[above := ViewOf(n)];
                          if d == 0 then base else base[d := t.views[d].(next := t.nodes[q].next)])
    ensures Mirrors(t'.nodes, t'.views, above) && above in t'.nodes && t'.views[above] == ViewOf(n)
  {
  }

  /** Only leaves change: q goes, c is placed anew. */
  lemma DropKept(t: Tree, t': Tree, above: PageId, q: PageId, d: PageId, c: PageId)
    requires Mirrors(t.nodes, t.views, 0) && t.nodes.Keys <= t.spans.Keys && above in t.nodes && q in t.nodes
      && above != q && t.spans[q].height == 0
    requires d != 0 ==> d in t.nodes && t.nodes[d].kind == Leaf && t.spans[d].height == 0
    requires c in t.spans && t.spans[c].height == 0
    requires t'.nodes == DroppedNodes(t.nodes, q, d)
    requires above in t'.views && t'.views == (var base := (t.views - {q})[above := t'.views[above]];
                                           if d == 0 then base else base[d := t.views[d].(next := t.nodes[q].next)])
    requires c in t'.spans && t'.spans == (t.spans - {q})[c := t'.spans[c]]
    ensures KeptAbove(t, t', 0, above)
  {
  }

  lemma DropFirstStep(t: Tree, above: PageId, q: PageId, d: PageId) returns (t': Tree)
    requires Held(t, 0) && Droppable(t, above, 0, q, d)
    requires t.spans[q].parent == above && t.spans[q].height + 1 == t.spans[above].height && q != above
    requires t.spans[q].hi == HighEnd(t.nodes[above], t.spans[above].hi, 0)
    ensures t'.nodes == DroppedNodes(t.nodes, q, d)
    ensures Lifted(t, t', above, WithoutChild(t.nodes[above], 0))
  {
    var views', spans', e := DropFirstViews(t, above, q, d);
    t' := Tree(DroppedNodes(t.nodes, q, d), views', spans', t.held);
    DropMirrors(t, t', above, q, d, WithoutChild(t.nodes[above], 0));
    DropKept(t, t', above, q, d, e);
    ChildRemoved(t.nodes[above], 0);
  }

  lemma DropFirstViews(t: Tree, above: PageId, q: PageId, d: PageId) returns (views': Views, spans': Spans, e: PageId)
    requires Held(t, 0) && Droppable(t, above, 0, q, d)
    requires t.spans[q].parent == above && t.spans[q].height + 1 == t.spans[above].height && q != above
    requires t.spans[q].hi == HighEnd(t.nodes[above], t.spans[above].hi, 0)
    ensures Shaped(views', spans', t.held) && t.spans[q].height == 0 && e in t.spans && t.spans[e].height == 0 && e != q
    ensures d != 0 ==> t.spans[d].height == 0 && t.spans[d].lo < t.spans[d].hi
    ensures views' == (var base := (t.views - {q})[above := ViewOf(WithoutChild(t.nodes[above], 0))];
                   if d == 0 then base else base[d := t.views[d].(next := t.nodes[q].next)])
    ensures spans' == (t.spans - {q})[e := t.spans[e].(lo := t.spans[q].lo)]
  {
    var views, spans := t.views, t.spans;
    ChildRemoved(t.nodes[above], 0);
    EmptyLeafView(t.nodes[q]);
    var owner := Parent(views, spans, t.held, q);
    if d != 0 { PageAt(views, spans, t.held, d); }
    e := views[above].seps[spans[q].hi];
    var base := (views - {q})[above := InnerView(e, views[above].seps - {spans[q].hi})];
    views' := if d == 0 then base else base[d := views[d].(next := views[q].next)];
    spans' := (spans - {q})[e := spans[e].(lo := spans[q].lo)];
    DropFirst(views, spans, t.held, views', spans', q, d);
  }

  lemma EmptyLeafView(n: Node)
    requires n.kind == Leaf && n.entries == []
    ensures ViewOf(n) == LeafView(map[], n.next)
  {
  }

  // ---------------------------------------------------------------- internal neighbours meet

  /** Two children of one page, around separator j; l and r are their nodes, stored or not. */
  ghost predicate Neighbours(t: Tree, above: PageId, j: nat, left: PageId, right: PageId, l: Node, r: Node) {
    && above in t.nodes && above in t.spans && t.nodes[above].kind == Internal && Sorted(t.nodes[above].entries)
    && j < |t.nodes[above].entries|
    && PathStep(t, above, j, left) && PathStep(t, above, j + 1, right)
    && left in t.views && right in t.views && t.views[left] == ViewOf(l) && t.views[right] == ViewOf(r)
    && l.kind == Internal && r.kind == Internal && Sorted(l.entries) && Sorted(r.entries)
  }

  ghost predicate Beside(t: Tree, above: PageId, left: PageId, right: PageId, x: real) {
    && left in t.nodes && right in t.nodes && left != right && left != above && right != above && left in t.spans
    && right in t.spans && above in t.spans
    && t.spans[left].parent == above && t.spans[right].parent == above && t.spans[left].hi == t.spans[right].lo == x
    && t.spans[left].height == t.spans[right].height && t.spans[left].height + 1 == t.spans[above].height
  }

  lemma NeighboursBeside(t: Tree, lone: PageId, above: PageId, j: nat, left: PageId, right: PageId, l: Node, r: Node)
    requires Held(t, lone) && above != lone && Neighbours(t, above, j, left, right, l, r)
    ensures Beside(t, above, left, right, Rank(t.nodes[above].entries[j].key))
  {
    PathKid(t, lone, above, j, left);
    PathKid(t, lone, above, j + 1, right);
  }

  lemma NeighboursJoin(t: Tree, above: PageId, j: nat, left: PageId, right: PageId, l: Node, r: Node)
    requires 0 !in t.nodes && t.views.Keys == t.nodes.Keys + {0} && Shaped(t.views, t.spans, t.held)
      && Neighbours(t, above, j, left, right, l, r)
    requires Beside(t, above, left, right, Rank(t.nodes[above].entries[j].key))
    ensures var k := t.nodes[above].entries[j].key;
      && Sorted(Combined(l, k, r).entries)
      && ViewOf(Combined(l, k, r)) == Joined(t.views[left], Rank(k), t.views[right])
  {
    PageAt(t.views, t.spans, t.held, left);
    PageAt(t.views, t.spans, t.held, right);
    SepsInside(left, l, t.spans[left], t.spans);
    SepsInside(right, r, t.spans[right], t.spans);
    CombinedView(l, t.nodes[above].entries[j].key, r);
  }

  /** The right one joins the left one. */
  lemma MergeStep(t: Tree, lone: PageId, above: PageId, j: nat, left: PageId, right: PageId, l: Node, r: Node)
      returns (t': Tree)
    requires Held(t, lone) && above != lone && Neighbours(t, above, j, left, right, l, r)
      && (lone == left || lone == right)
    ensures t'.nodes == (t.nodes - {right})[left := Combined(l, t.nodes[above].entries[j].key, r)] && left != right
      && left != above && right != above
    ensures Lifted(t, t', above, WithoutChild(t.nodes[above], j + 1))
    ensures left in t'.views && t'.views[left] == ViewOf(t'.nodes[left]) && Sorted(t'.nodes[left].entries)
    ensures t'.spans == MergedSpans(t.spans, left, right)
      && Beside(t, above, left, right, Rank(t.nodes[above].entries[j].key))
  {
    var n, k := t.nodes[above], t.nodes[above].entries[j].key;
    NeighboursBeside(t, lone, above, j, left, right, l, r);
    NeighboursJoin(t, above, j, left, right, l, r);
    ChildRemoved(n, j + 1);
    t' := Tree((t.nodes - {right})[left := Combined(l, k, r)],
               (t.views - {right})[left := ViewOf(Combined(l, k, r))][above := ViewOf(WithoutChild(n, j + 1))],
               MergedSpans(t.spans, left, right), t.held);
    Merge(t.views, t.spans, t.held, t'.views, t'.spans, left, right);
    MergeKept(t, t', above, left, right);
  }

  lemma KidsLower(t: Tree, p: PageId)
    requires Shaped(t.views, t.spans, t.held) && p in t.spans && p != 0
    ensures forall c :: c in t.spans && t.spans[c].parent == p ==> t.spans[c].height < t.spans[p].height
  {
    forall c | c in t.spans && t.spans[c].parent == p ensures t.spans[c].height < t.spans[p].height {
      if c != 0 { var other := Parent(t.views, t.spans, t.held, c); }
    }
  }

  lemma MergeKept(t: Tree, t': Tree, above: PageId, left: PageId, right: PageId)
    requires Shaped(t.views, t.spans, t.held) && t.nodes.Keys <= t.spans.Keys && t.views.Keys <= t.spans.Keys
    requires left in t.nodes && right in t.nodes && above in t.nodes && left != right && right != 0
      && t.spans[left].height == t.spans[right].height
    requires left in t'.nodes && t'.nodes == (t.nodes - {right})[left := t'.nodes[left]]
    requires left in t'.views && above in t'.views
      && t'.views == (t.views - {right})[left := t'.views[left]][above := t'.views[above]]
    requires t'.spans == MergedSpans(t.spans, left, right)
    ensures KeptAbove(t, t', t.spans[left].height, above)
  {
    KidsLower(t, right);
  }

  lemma RenameStep(t: Tree, above: PageId, l: PageId, target: PageId) returns (t': Tree)
    requires Held(t, above) && above in t.nodes && l in t.nodes && l != above && t.spans[l].parent == above
    requires t.views[l].InnerView? && t.views[above].InnerView? && t.views[above].first == l
    requires target !in t.nodes && target != 0
    ensures t'.nodes == (t.nodes - {l})[target := t.nodes[l]]
    ensures Held(t', above) && t'.views[above] == t.views[above].(first := target) && t'.held == t.held
    ensures KeptAbove(t, t', t.spans[l].height, above)
  {
    t' := Tree((t.nodes - {l})[target := t.nodes[l]],
               (t.views - {l})[target := t.views[l]][above := t.views[above].(first := target)],
               RenamedSpans(t.spans, l, target), t.held);
    Rename(t.views, t.spans, t.held, t'.views, t'.spans, l, target);
    RenameKept(t, t', above, l, target);
  }

  lemma RenameKept(t: Tree, t': Tree, above: PageId, l: PageId, target: PageId)
    requires Shaped(t.views, t.spans, t.held) && t.nodes.Keys <= t.spans.Keys && t.views.Keys <= t.spans.Keys
    requires l in t.nodes && above in t.nodes && l != 0 && target !in t.spans
    requires target in t'.nodes && t'.nodes == (t.nodes - {l})[target := t'.nodes[target]]
    requires target in t'.views && above in t'.views
      && t'.views == (t.views - {l})[target := t'.views[target]][above := t'.views[above]]
    requires t'.spans == RenamedSpans(t.spans, l, target)
    ensures KeptAbove(t, t', t.spans[l].height, above)
  {
    KidsLower(t, l);
  }

  /** The node of a page left with one child and no separator. */
  function Lone(child: PageId): Node { Node(Internal, 0, child, []) }

  lemma LoneView(child: PageId)
    ensures ViewOf(Lone(child)) == InnerView(child, map[])
  {
  }

  /** The page with one child, at the given slot of its parent, and its sibling as one node. */
  function Fused(parent: Node, slot: nat, child: PageId, sibling: Node): Node
    requires slot <= |parent.entries| && parent.entries != []
  {
    if slot >= 1 then Combined(sibling, parent.entries[slot - 1].key, Lone(child))
    else Combined(Lone(child), parent.entries[0].key, sibling)
  }

  function SiblingSlot(slot: nat): nat { if slot >= 1 then slot - 1 else 1 }

  /** A page with one child left, in a slot of the page above, beside its sibling. */
  ghost predicate Fusable(t: Tree, lone: PageId, child: PageId, above: PageId, slot: nat, sibling: PageId) {
    && lone in t.views && t.views[lone] == InnerView(child, map[])
    && PathStep(t, above, slot, lone) && t.nodes[above].entries != [] && Sorted(t.nodes[above].entries)
    && PathStep(t, above, SiblingSlot(slot), sibling) && sibling in t.nodes && Sorted(t.nodes[sibling].entries)
    && sibling in t.views && t.views[sibling] == ViewOf(t.nodes[sibling]) && t.nodes[sibling].kind == Internal
  }

  lemma FusedSorted(t: Tree, lone: PageId, child: PageId, above: PageId, slot: nat, sibling: PageId)
    requires Held(t, lone) && above != lone && Fusable(t, lone, child, above, slot, sibling) && lone in t.spans
    ensures Sorted(Fused(t.nodes[above], slot, child, t.nodes[sibling]).entries)
  {
    FusedNeighbours(t, lone, child, above, slot, sibling);
    if slot >= 1 {
      NeighboursBeside(t, lone, above, slot - 1, sibling, lone, t.nodes[sibling], Lone(child));
      NeighboursJoin(t, above, slot - 1, sibling, lone, t.nodes[sibling], Lone(child));
    } else {
      NeighboursBeside(t, lone, above, 0, lone, sibling, Lone(child), t.nodes[sibling]);
      NeighboursJoin(t, above, 0, lone, sibling, Lone(child), t.nodes[sibling]);
    }
  }

  /** The lone page goes; its sibling takes its child. */
  lemma FuseStep(t: Tree, lone: PageId, child: PageId, above: PageId, slot: nat, sibling: PageId) returns (t': Tree)
    requires Held(t, lone) && above != lone && Fusable(t, lone, child, above, slot, sibling)
    ensures sibling != lone && sibling != above && t.spans[lone].height + 1 == t.spans[above].height
    ensures t'.nodes == t.nodes[sibling := Fused(t.nodes[above], slot, child, t.nodes[sibling])] - {lone}
    ensures Lifted(t, t', above, WithoutChild(t.nodes[above], slot))
  {
    LoneView(child);
    if slot >= 1 {
      t' := MergeStep(t, lone, above, slot - 1, sibling, lone, t.nodes[sibling], Lone(child));
    } else {
      var t1 := MergeStep(t, lone, above, 0, lone, sibling, Lone(child), t.nodes[sibling]);
      t' := FuseLeft(t, t1, lone, child, above, sibling);
    }
    SwapUpdate(t.nodes, lone, sibling, Fused(t.nodes[above], slot, child, t.nodes[sibling]));
  }

  lemma SwapUpdate(nodes: NodeMap, a: PageId, b: PageId, n: Node)
    requires a != b
    ensures (nodes - {a})[b := n] == nodes[b := n] - {a}
  {
  }

  lemma FuseLeft(t: Tree, t1: Tree, lone: PageId, child: PageId, above: PageId, sibling: PageId) returns (t': Tree)
    requires Fusable(t, lone, child, above, 0, sibling) && lone in t.nodes && lone in t.spans
      && t.nodes.Keys <= t.spans.Keys && t.views.Keys <= t.spans.Keys
    requires lone != sibling && above != lone && above != sibling && t.spans[lone].height + 1 == t.spans[above].height
      && lone != 0 && sibling != 0
    requires t.spans[lone].parent == above && sibling in t.spans
    requires t1.nodes == (t.nodes - {sibling})[lone := Fused(t.nodes[above], 0, child, t.nodes[sibling])]
    requires Lifted(t, t1, above, WithoutChild(t.nodes[above], 1))
    requires t1.views[lone] == ViewOf(t1.nodes[lone]) && t1.spans == MergedSpans(t.spans, lone, sibling)
    ensures t'.nodes == (t.nodes - {lone})[sibling := Fused(t.nodes[above], 0, child, t.nodes[sibling])]
    ensures Lifted(t, t', above, WithoutChild(t.nodes[above], 0))
  {
    t' := RenameStep(t1, above, lone, sibling);
    MovedKey(t.nodes, sibling, lone, Fused(t.nodes[above], 0, child, t.nodes[sibling]));
    assert t1.spans[lone].height == t.spans[lone].height;
    KeptTwice(t, t1, t', t.spans[lone].height, above);
  }

  lemma MovedKey<V>(m: map<PageId, V>, a: PageId, b: PageId, v: V)
    requires a != b
    ensures ((m - {a})[b := v] - {b})[a := v] == (m - {b})[a := v]
  {
  }

  lemma KeptTwice(t: Tree, t1: Tree, t2: Tree, h: nat, x: PageId)
    requires KeptAbove(t, t1, h, x) && KeptAbove(t1, t2, h, x)
    ensures KeptAbove(t, t2, h, x)
  {
  }

  // ---------------------------------------------------------------- internal neighbours share

  /** Separator j of the parent is replaced. */
  function WithKey(n: Node, j: nat, k: Bytes): Node
    requires j < |n.entries|
  { n.(entries := n.entries[j := n.entries[j].(key := k)]) }

  lemma KeyReplaced(n: Node, j: nat, k: Bytes, s: Span)
    requires n.kind == Internal && Sorted(n.entries) && j < |n.entries| && n.entries[j].value == []
    requires LowEnd(n, s.lo, j) < Rank(k) < HighEnd(n, s.hi, j + 1)
    ensures ViewOf(WithKey(n, j, k)) == WithSep(ViewOf(WithoutChild(n, j + 1)), k, n.entries[j].right)
    ensures Sorted(WithKey(n, j, k).entries)
  {
    var n1 := WithoutChild(n, j + 1);
    ChildRemoved(n, j + 1);
    assert HighEnd(n1, s.hi, j) == HighEnd(n, s.hi, j + 1) && LowEnd(n1, s.lo, j) == LowEnd(n, s.lo, j);
    BetweenChildren(n1, s, j, Rank(k));
    SepInserted(n1, j, k, n.entries[j].right);
    KeySwapped(n.entries, j, Entry(k, [], n.entries[j].right));
  }

  lemma KeySwapped(es: seq<Entry>, j: nat, e: Entry)
    requires j < |es|
    ensures Inserted(Removed(es, j), j, e) == es[j := e]
  {
  }

  ghost predicate Spread(nodes: NodeMap, nodes': NodeMap, above: PageId, j: nat, left: PageId, right: PageId, c: Node,
                         m: nat) {
    && above in nodes && j < |nodes[above].entries| && m < |c.entries|
    && Sorted(WithKey(nodes[above], j, c.entries[m].key).entries)
    && nodes' == nodes[left := c.(entries := c.entries[..m])]
                      [right := c.(first := c.entries[m].right, entries := c.entries[m + 1..])]
                      [above := WithKey(nodes[above], j, c.entries[m].key)]
  }

  /** The two are joined and cut again at entry m of the joint node. */
  lemma SpreadStep(t: Tree, lone: PageId, above: PageId, j: nat, left: PageId, right: PageId, l: Node, r: Node, m: nat)
      returns (t': Tree)
    requires Held(t, lone) && above != lone && Neighbours(t, above, j, left, right, l, r)
      && (lone == left || lone == right)
    requires t.nodes[above].entries[j].value == []
    requires m < |Combined(l, t.nodes[above].entries[j].key, r).entries|
    ensures Spread(t.nodes, t'.nodes, above, j, left, right, Combined(l, t.nodes[above].entries[j].key, r), m)
    ensures Held(t', 0) && t'.held == t.held && 0 in t.views && t'.views[0] == t.views[0]
  {
    var n := t.nodes[above];
    var c := Combined(l, n.entries[j].key, r);
    var t3 := JoinAndCut(t, lone, above, j, left, right, l, r, m);
    t' := t3.(nodes := t3.nodes[above := WithKey(n, j, c.entries[m].key)]);
    SpreadNodes(t.nodes, t'.nodes, above, j, left, right, c, m);
  }

  lemma JoinAndCut(t: Tree, lone: PageId, above: PageId, j: nat, left: PageId, right: PageId, l: Node, r: Node, m: nat)
      returns (t3: Tree)
    requires Held(t, lone) && above != lone && Neighbours(t, above, j, left, right, l, r)
      && (lone == left || lone == right)
    requires t.nodes[above].entries[j].value == []
    requires m < |Combined(l, t.nodes[above].entries[j].key, r).entries|
    ensures left in t.nodes && right in t.nodes && left != right && left != above && right != above
    ensures var c := Combined(l, t.nodes[above].entries[j].key, r);
      && t3.nodes == (t.nodes - {right})[left := c][above := WithoutChild(t.nodes[above], j + 1)]
                       [left := c.(entries := c.entries[..m])]
                       [right := c.(first := c.entries[m].right, entries := c.entries[m + 1..])]
      && Held(t3, above) && t3.views[above] == ViewOf(WithKey(t.nodes[above], j, c.entries[m].key))
      && Sorted(WithKey(t.nodes[above], j, c.entries[m].key).entries)
    ensures t3.held == t.held && 0 in t.views && t3.views[0] == t.views[0]
  {
    var n := t.nodes[above];
    var c := Combined(l, n.entries[j].key, r);
    var t1 := MergeStep(t, lone, above, j, left, right, l, r);
    var t2 := t1.(nodes := t1.nodes[above := WithoutChild(n, j + 1)]);
    var t3' := CutAgain(t2, above, left, right, c, m);
    SpreadSep(t, lone, above, j, left, right, l, r, t2, t3', c.entries[m].key);
    TopKept(t, t1, t2, t3', above, t.spans[left].height);
    t3 := t3';
  }

  lemma CutAgain(t2: Tree, above: PageId, left: PageId, right: PageId, c: Node, m: nat) returns (t3: Tree)
    requires Held(t2, above) && above in t2.nodes && t2.views[above] == ViewOf(t2.nodes[above])
    requires left in t2.nodes && t2.nodes[left] == c && left != above && right !in t2.nodes && right != 0
    requires c.kind == Internal && Sorted(c.entries) && m < |c.entries|
    ensures t3.nodes == t2.nodes[left := c.(entries := c.entries[..m])]
                                [right := c.(first := c.entries[m].right, entries := c.entries[m + 1..])]
    ensures Grown(t2, t3, left, true, c.entries[m].key, right) && t3.held == t2.held
  {
    t3 := SplitInnerStep(t2, left, c, m, right);
  }

  lemma SpreadNodes(nodes: NodeMap, nodes': NodeMap, above: PageId, j: nat, left: PageId, right: PageId, c: Node,
                    m: nat)
    requires above in nodes && left in nodes && right in nodes && left != right && left != above && right != above
      && j < |nodes[above].entries| && m < |c.entries|
    requires Sorted(WithKey(nodes[above], j, c.entries[m].key).entries)
    requires nodes' == (nodes - {right})[left := c][above := WithoutChild(nodes[above], j + 1)]
                         [left := c.(entries := c.entries[..m])]
                         [right := c.(first := c.entries[m].right, entries := c.entries[m + 1..])]
                         [above := WithKey(nodes[above], j, c.entries[m].key)]
    ensures Spread(nodes, nodes', above, j, left, right, c, m)
  {
  }

  lemma SpreadSep(t: Tree, lone: PageId, above: PageId, j: nat, left: PageId, right: PageId, l: Node, r: Node,
                  t2: Tree, t3: Tree, k: Bytes)
    requires Held(t, lone) && above != lone && Neighbours(t, above, j, left, right, l, r)
      && Beside(t, above, left, right, Rank(t.nodes[above].entries[j].key))
    requires t.nodes[above].entries[j].value == []
    requires t2.spans == MergedSpans(t.spans, left, right) && above in t2.views
      && t2.views[above] == ViewOf(WithoutChild(t.nodes[above], j + 1))
    requires Grown(t2, t3, left, true, k, right)
    ensures Held(t3, above) && t3.views[above] == ViewOf(WithKey(t.nodes[above], j, k))
    ensures Sorted(WithKey(t.nodes[above], j, k).entries)
  {
    PathKid(t, lone, above, j, left);
    PathKid(t, lone, above, j + 1, right);
    KeyReplaced(t.nodes[above], j, k, t.spans[above]);
  }

  lemma TopKept(t: Tree, t1: Tree, t2: Tree, t3: Tree, above: PageId, h: nat)
    requires Shaped(t.views, t.spans, t.held) && above in t.spans && above != 0 && t.spans[above].height > h
    requires KeptAbove(t, t1, h, above) && t2.views == t1.views && t2.spans == t1.spans && KeptAbove(t2, t3, h, above)
    ensures 0 in t.views && 0 in t3.views && t3.views[0] == t.views[0]
  {
    UpAt(t.views, t.spans, t.held, above);
  }

  // ---------------------------------------------------------------- the root comes down

  lemma CollapseStep(t: Tree, root: PageId, c: PageId) returns (t': Tree)
    requires Held(t, root) && root in t.nodes && t.views[0] == InnerView(root, map[])
      && t.views[root] == InnerView(c, map[])
    ensures c in t.nodes && c != root
    ensures t.nodes[c].kind == Leaf ==> t.nodes[c].next == 0
    ensures t'.nodes == (t.nodes - {c})[root := t.nodes[c]]
    ensures Rooted(t', root) && t'.held == t.held
  {
    PageAt(t.views, t.spans, t.held, 0);
    PageAt(t.views, t.spans, t.held, root);
    PageAt(t.views, t.spans, t.held, c);
    t' := Tree((t.nodes - {c})[root := t.nodes[c]], (t.views - {c})[root := t.views[c]],
               CollapsedSpans(t.spans, root, c), t.held);
    Collapse(t.views, t.spans, t.held, t'.views, t'.spans, root, c);
    if t.nodes[c].kind == Leaf && t.nodes[c].next != 0 { Within(t.views, t.spans, t.held, t.nodes[c].next); }
  }

  // ---------------------------------------------------------------- one level up

  /** The page at the end of the path has one child left and no separator; its node is still to be dealt with. */
  ghost predicate Climbing(t: Tree, root: PageId, lone: PageId, child: PageId, pages: seq<PageId>, slots: seq<nat>,
                           depth: nat) {
    && Held(t, lone) && lone in t.nodes && t.views[lone] == InnerView(child, map[])
    && root in t.nodes && t.views[0] == InnerView(root, map[])
    && depth > 0 && PathOk(t, root, pages, slots, depth, lone)
  }

  lemma ClimbStep(t: Tree, root: PageId, lone: PageId, child: PageId, pages: seq<PageId>, slots: seq<nat>, depth: nat,
                  capacity: nat)
    requires Climbing(t, root, lone, child, pages, slots, depth) && NodesOk(t.nodes, capacity)
    ensures var above, slot := pages[depth - 1], slots[depth - 1];
      && above in t.nodes && above != lone && t.nodes[above].entries != []
      && SiblingSlot(slot) <= |t.nodes[above].entries|
      && var sibling := ChildAt(t.nodes[above], SiblingSlot(slot));
      && Fusable(t, lone, child, above, slot, sibling) && sibling != lone && sibling != above
      && child in t.nodes && child != above && child != sibling
  {
    var above, slot := pages[depth - 1], slots[depth - 1];
    LevelAt(t, root, pages, slots, depth, lone, depth - 1);
    var sibling := ChildAt(t.nodes[above], SiblingSlot(slot));
    ValidIsSorted(t.nodes[above]);
    PathKid(t, lone, above, SiblingSlot(slot), sibling);
    ValidIsSorted(t.nodes[sibling]);
    SiblingFusable(t, lone, child, above, slot, sibling);
  }

  lemma SiblingFusable(t: Tree, lone: PageId, child: PageId, above: PageId, slot: nat, sibling: PageId)
    requires Held(t, lone) && lone in t.nodes && t.views[lone] == InnerView(child, map[]) && above != lone
    requires PathStep(t, above, slot, lone) && t.nodes[above].entries != [] && Sorted(t.nodes[above].entries)
    requires PathStep(t, above, SiblingSlot(slot), sibling) && sibling in t.nodes && Sorted(t.nodes[sibling].entries)
    ensures Fusable(t, lone, child, above, slot, sibling) && sibling != lone && sibling != above
    ensures child in t.nodes && child != above && child != sibling
  {
    PathKid(t, lone, above, slot, lone);
    PathKid(t, lone, above, SiblingSlot(slot), sibling);
    assert sibling != lone by { assert t.spans[sibling].lo != t.spans[lone].lo; }
    PageAt(t.views, t.spans, t.held, lone);
    PageAt(t.views, t.spans, t.held, sibling);
    KidAt(lone, t.views[lone], t.spans[lone], t.spans, t.spans[child].lo, child);
  }

  /** After a page has lost a child: either it keeps a separator, or it is the next page to deal with. */
  lemma ClimbOn(t: Tree, t': Tree, root: PageId, lone: PageId, n: Node, pages: seq<PageId>, slots: seq<nat>, depth: nat)
    requires PathOk(t, root, pages, slots, depth, lone) && depth > 0 && Shaped(t.views, t.spans, t.held)
    requires 0 !in t.nodes && root in t.nodes && 0 in t.views && t.views[0] == InnerView(root, map[])
    requires Lifted(t, t', pages[depth - 1], n) && n.kind == Internal
    requires t.spans[lone].height + 1 == t.spans[pages[depth - 1]].height
    ensures 0 in t'.views && t'.views[0] == InnerView(root, map[]) && root in t'.nodes
    ensures n.entries == [] && pages[depth - 1] != root ==>
      Climbing(t', root, pages[depth - 1], n.first, pages, slots, depth - 1)
  {
    var above := pages[depth - 1];
    PathUp(t, t', root, pages, slots, depth, lone, above);
    UpAt(t.views, t.spans, t.held, above);
    LevelAt(t, root, pages, slots, depth, lone, depth - 1);
    RootAbove(t, root, pages, slots, depth, lone);
    if n.entries == [] { LoneView(n.first); }
  }

  lemma RootAbove(t: Tree, root: PageId, pages: seq<PageId>, slots: seq<nat>, depth: nat, page: PageId)
    requires PathOk(t, root, pages, slots, depth, page) && depth > 0
    ensures root in t.nodes && root in t.spans && t.spans[root].height > t.spans[page].height
  {
    LevelAt(t, root, pages, slots, depth, page, 0);
  }

  lemma StoredNow(t: Tree, above: PageId, n: Node)
    requires Held(t, above) && above in t.nodes && t.views[above] == ViewOf(n)
    ensures Held(t.(nodes := t.nodes[above := n]), 0)
  {
  }

  lemma FusedNeighbours(t: Tree, lone: PageId, child: PageId, above: PageId, slot: nat, sibling: PageId)
    requires Fusable(t, lone, child, above, slot, sibling) && lone in t.spans && lone in t.views
    ensures var s := Lone(child);
      if slot >= 1 then Neighbours(t, above, slot - 1, sibling, lone, t.nodes[sibling], s)
      else Neighbours(t, above, 0, lone, sibling, s, t.nodes[sibling])
  {
    LoneView(child);
  }

  lemma SharedTree(t: Tree, lone: PageId, child: PageId, above: PageId, slot: nat, sibling: PageId, m: nat)
      returns (t': Tree)
    requires Held(t, lone) && lone in t.nodes && above != lone && Fusable(t, lone, child, above, slot, sibling)
    requires m < |Fused(t.nodes[above], slot, child, t.nodes[sibling]).entries|
    requires EntryValid(Internal, t.nodes[above].entries[if slot >= 1 then slot - 1 else 0])
    ensures Spread(t.nodes, t'.nodes, above, if slot >= 1 then slot - 1 else 0,
      if slot >= 1 then sibling else lone, if slot >= 1 then lone else sibling,
      Fused(t.nodes[above], slot, child, t.nodes[sibling]), m)
    ensures Held(t', 0) && t'.held == t.held && 0 in t.views && t'.views[0] == t.views[0]
  {
    FusedNeighbours(t, lone, child, above, slot, sibling);
    if slot >= 1 {
      t' := SpreadStep(t, lone, above, slot - 1, sibling, lone, t.nodes[sibling], Lone(child), m);
    } else {
      t' := SpreadStep(t, lone, above, 0, lone, sibling, Lone(child), t.nodes[sibling], m);
    }
  }

  /** The last two children of the root have become one, which moves to the root page. */
  lemma FusedRoot(t: Tree, t1: Tree, root: PageId, lone: PageId, sibling: PageId, combined: Node, rest: Node)
      returns (t': Tree)
    requires Lifted(t, t1, root, rest) && t1.nodes == t.nodes[sibling := combined] - {lone} && root != lone
      && root != sibling
    requires rest.kind == Internal && rest.entries == [] && rest.first == sibling
    requires 0 in t1.views && t1.views[0] == InnerView(root, map[])
    ensures t'.nodes == t.nodes[root := combined] - {lone} - {sibling}
    ensures Rooted(t', root) && t'.held == t.held
  {
    LoneView(rest.first);
    t' := CollapseStep(t1, root, sibling);
  }

  lemma PathKidAt(t: Tree, root: PageId, pages: seq<PageId>, slots: seq<nat>, depth: nat, page: PageId, l: nat,
                  capacity: nat)
    requires Held(t, 0) && NodesOk(t.nodes, capacity) && PathOk(t, root, pages, slots, depth, page) && l < depth
    ensures var p, c := pages[l], At(pages, depth, l + 1, page);
      && PathStep(t, p, slots[l], c) && t.nodes[p].entries != [] && Sorted(t.nodes[p].entries)
      && c in t.nodes && t.spans[c].parent == p && t.spans[c].height + 1 == t.spans[p].height
      && t.spans[c].lo == LowEnd(t.nodes[p], t.spans[p].lo, slots[l])
      && root in t.spans && t.spans[p].height <= t.spans[root].height
  {
    LevelAt(t, root, pages, slots, depth, page, l);
    var p, c := pages[l], At(pages, depth, l + 1, page);
    ValidIsSorted(t.nodes[p]);
    PathKid(t, 0, p, slots[l], c);
  }

  lemma NotBefore(t: Tree, above: PageId, leaf: PageId, d: PageId)
    requires above in t.nodes && t.nodes[above].kind == Internal
      && (d == 0 || (d in t.nodes && t.nodes[d].kind == Leaf)) && 0 !in t.nodes
    ensures above != d
  {
  }

  /**
   * At level l the path either turns away from a child to its left, which ends where the path page begins, or
   * begins with it.
   */
  lemma StepLeft(t: Tree, root: PageId, pages: seq<PageId>, slots: seq<nat>, depth: nat, page: PageId, l: nat,
                 capacity: nat)
    returns (before: PageId)
    requires Held(t, 0) && NodesOk(t.nodes, capacity) && PathOk(t, root, pages, slots, depth, page) && l < depth
    ensures var p, c := pages[l], At(pages, depth, l + 1, page);
      && root in t.spans && p in t.nodes && p in t.spans && c in t.spans && slots[l] <= |t.nodes[p].entries|
      && if slots[l] == 0 then t.spans[p].lo == t.spans[c].lo
         else
           && before == ChildAt(t.nodes[p], slots[l] - 1) && before in t.nodes && before in t.spans && before != 0
           && t.spans[before].hi == t.spans[c].lo && t.spans[before].height <= t.spans[root].height
  {
    before := 0;
    var p, c := pages[l], At(pages, depth, l + 1, page);
    PathKidAt(t, root, pages, slots, depth, page, l, capacity);
    if slots[l] > 0 { before := KidBefore(t, p, slots[l], c); }
  }

  lemma KidBefore(t: Tree, p: PageId, i: nat, c: PageId) returns (before: PageId)
    requires Held(t, 0) && p in t.nodes && t.nodes[p].kind == Internal && Sorted(t.nodes[p].entries)
    requires 0 < i <= |t.nodes[p].entries| && c == ChildAt(t.nodes[p], i) && c in t.spans
    ensures before == ChildAt(t.nodes[p], i - 1) && before in t.nodes && before in t.spans && before != 0
      && t.spans[before].hi == t.spans[c].lo && t.spans[before].height < t.spans[p].height
  {
    before := ChildAt(t.nodes[p], i - 1);
    PathKid(t, 0, p, i - 1, before);
    PathKid(t, 0, p, i, c);
  }

  lemma PathAfterRemove(t: Tree, t1: Tree, root: PageId, pages: seq<PageId>, slots: seq<nat>, page: PageId, n: Node)
    requires PathOk(t, root, pages, slots, |pages|, page) && page in t.nodes && t.nodes[page].kind == Leaf
    requires t1.nodes == t.nodes[page := n] && t1.spans == t.spans
    ensures PathOk(t1, root, pages, slots, |pages|, page)
  {
    var d := |pages|;
    forall l | 0 <= l < d ensures LevelOk(t1, pages, slots, d, page, l) {
      LevelAt(t, root, pages, slots, d, page, l);
    }
  }
}
