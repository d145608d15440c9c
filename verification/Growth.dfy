/** What a put makes of the pages of a tree, and when it is refused: the pages and the free pages decide it. */
module Growth {
  import opened Common
  import opened Keys
  import opened Shape
  import opened Nodes
  import opened Splits
  import opened Trees
  import opened Reclaim
  import opened Room
  import opened Refusals

  // ---------------------------------------------------------------- what the pages say

  /** The pages that can be had, in the order in which they are handed out. */
  ghost function SupplyOf(chain: seq<PageId>, next: PageId, limit: PageId): seq<PageId>
    requires next <= limit
  { chain + seq(limit - next, i => next + i) }

  /** The number of entries before a key. */
  ghost function PlaceOf(es: seq<Entry>, x: real): (i: nat)
    ensures i <= |es|
  { if es == [] || Rank(es[|es| - 1].key) < x then |es| else PlaceOf(es[..|es| - 1], x) }

  /** The number of entries that are not after a key. */
  ghost function SlotOf(es: seq<Entry>, x: real): (i: nat)
    ensures i <= |es|
  { if es == [] || Rank(es[|es| - 1].key) <= x then |es| else SlotOf(es[..|es| - 1], x) }

  ghost function LeafWith(n: Node, key: Bytes, value: Bytes): Node {
    var i := PlaceOf(n.entries, Rank(key));
    if i < |n.entries| && n.entries[i].key == key
      then n.(entries := n.entries[i := n.entries[i].(value := value)])
    else n.(entries := Inserted(n.entries, i, Entry(key, value, 0)))
  }

  function WithChild(n: Node, i: nat, sep: Bytes, right: PageId): Node
    requires i <= |n.entries|
  { n.(entries := Inserted(n.entries, i, Entry(sep, [], right))) }

  function Lower(n: Node, m: nat, right: PageId): Node
    requires m < |n.entries|
  { if n.kind == Leaf then n.(entries := n.entries[..m], next := right) else n.(entries := n.entries[..m]) }

  function Upper(n: Node, m: nat): Node
    requires m < |n.entries|
  {
    if n.kind == Leaf then n.(entries := n.entries[m..])
    else n.(first := n.entries[m].right, entries := n.entries[m + 1..])
  }

  datatype Fate = Rests | Halves(sep: Bytes, right: PageId) | Stops(status: Status)

  /** The nodes, what becomes of the page, and the free pages that are left. */
  datatype Outcome = Outcome(nodes: NodeMap, fate: Fate, left: seq<PageId>)

  /** A grown node is stored in its page, or cut in two if it is too large and there is a page for the second half. */
  ghost function StoreGrown(nodes: NodeMap, p: PageId, n: Node, capacity: nat, supply: seq<PageId>): Outcome {
    var m := Cut(n, capacity);
    if !NodeValid(n) then Outcome(nodes, Stops(InvalidArgument), supply)
    else if EncodedSize(n) <= capacity then Outcome(nodes[p := n], Rests, supply)
    else if m == 0 then Outcome(nodes, Stops(BufferTooSmall), supply)
    else if supply == [] then Outcome(nodes, Stops(Overflow), supply)
    else Outcome(nodes[p := Lower(n, m, supply[0])][supply[0] := Upper(n, m)], Halves(n.entries[m].key, supply[0]),
      supply[1..])
  }

  /** What the page above makes of what has come of the child. */
  ghost function Above(nodes: NodeMap, p: PageId, i: nat, capacity: nat, below: Outcome): Outcome
    requires p in nodes && i <= |nodes[p].entries|
  {
    match below.fate
    case Stops(_) => below
    case Rests => StoreGrown(below.nodes, p, nodes[p], capacity, below.left)
    case Halves(sep, right) => StoreGrown(below.nodes, p, WithChild(nodes[p], i, sep, right), capacity, below.left)
  }

  /** The entry goes to the leaf of its key; the pages above are stored again, with a separator if one comes up. */
  ghost function Insertion(nodes: NodeMap, p: PageId, key: Bytes, value: Bytes, depth: nat, capacity: nat,
                           supply: seq<PageId>): Outcome
    decreases MAX_DEPTH - depth
  {
    if depth >= MAX_DEPTH || p !in nodes then Outcome(nodes, Stops(Corrupt), supply)
    else if nodes[p].kind == Leaf then StoreGrown(nodes, p, LeafWith(nodes[p], key, value), capacity, supply)
    else
      var i := SlotOf(nodes[p].entries, Rank(key));
      Above(nodes, p, i, capacity,
        Insertion(nodes, ChildAt(nodes[p], i), key, value, depth + 1, capacity, supply))
  }

  /** A root that was cut moves to a new page, and the root page joins its halves. */
  ghost function RootHalved(o: Outcome, root: PageId, capacity: nat): Outcome
    requires o.fate.Halves? && root in o.nodes
  {
    if o.left == [] then Outcome(o.nodes, Stops(Overflow), [])
    else
      var n := Node(Internal, 0, o.left[0], [Entry(o.fate.sep, [], o.fate.right)]);
      if !NodeValid(n) then Outcome(o.nodes, Stops(InvalidArgument), o.left[1..])
      else if EncodedSize(n) > capacity then Outcome(o.nodes, Stops(BufferTooSmall), o.left[1..])
      else Outcome(o.nodes[o.left[0] := o.nodes[root]][root := n], Rests, o.left[1..])
  }

  ghost function PutOutcome(nodes: NodeMap, root: PageId, key: Bytes, value: Bytes, capacity: nat,
                            supply: seq<PageId>): Outcome {
    var o := Insertion(nodes, root, key, value, 0, capacity, supply);
    if o.fate.Halves? && root in o.nodes then RootHalved(o, root, capacity) else o
  }

  /** The answer to a put. */
  ghost function PutStatus(nodes: NodeMap, root: PageId, key: Bytes, value: Bytes, capacity: nat,
                           supply: seq<PageId>): Status {
    var o := PutOutcome(nodes, root, key, value, capacity, supply);
    if o.fate.Stops? then o.fate.status else Ok
  }

  /** A step has this outcome. */
  ghost predicate Follows(o: Outcome, st: Status, split: bool, sep: Bytes, right: PageId, nodes: NodeMap,
                          left: seq<PageId>) {
    && left == o.left
    && match o.fate
       case Rests => st == Ok && !split && nodes == o.nodes
       case Halves(s, r) => st == Ok && split && sep == s && right == r && nodes == o.nodes
       case Stops(x) => st == x
  }

  lemma StoredCut(nodes: NodeMap, p: PageId, n: Node, m: nat, capacity: nat, supply: seq<PageId>)
    requires NodeValid(n) && EncodedSize(n) > capacity && Best(n, capacity, m)
    ensures StoreGrown(nodes, p, n, capacity, supply) ==
      if m == 0 then Outcome(nodes, Stops(BufferTooSmall), supply)
      else if supply == [] then Outcome(nodes, Stops(Overflow), supply)
      else Outcome(nodes[p := Lower(n, m, supply[0])][supply[0] := Upper(n, m)], Halves(n.entries[m].key, supply[0]),
        supply[1..])
  {
    CutIs(n, capacity, m);
  }

  lemma InsertionAtLeaf(nodes: NodeMap, p: PageId, key: Bytes, value: Bytes, depth: nat, capacity: nat,
                        supply: seq<PageId>)
    requires depth < MAX_DEPTH && p in nodes && nodes[p].kind == Leaf
    ensures Insertion(nodes, p, key, value, depth, capacity, supply) ==
      StoreGrown(nodes, p, LeafWith(nodes[p], key, value), capacity, supply)
  {
  }

  lemma InsertionOver(nodes: NodeMap, p: PageId, key: Bytes, value: Bytes, depth: nat, capacity: nat,
                      supply: seq<PageId>)
    requires depth < MAX_DEPTH && p in nodes && nodes[p].kind == Internal
    ensures var i := SlotOf(nodes[p].entries, Rank(key));
      Insertion(nodes, p, key, value, depth, capacity, supply) ==
        Above(nodes, p, i, capacity, Insertion(nodes, ChildAt(nodes[p], i), key, value, depth + 1, capacity, supply))
  {
  }

  lemma InsertionAbove(nodes: NodeMap, p: PageId, i: nat, key: Bytes, value: Bytes, depth: nat, capacity: nat,
                       supply: seq<PageId>)
    requires depth < MAX_DEPTH && p in nodes && nodes[p].kind == Internal && Routes(nodes[p].entries, i, Rank(key))
    ensures Insertion(nodes, p, key, value, depth, capacity, supply) ==
      Above(nodes, p, i, capacity, Insertion(nodes, ChildAt(nodes[p], i), key, value, depth + 1, capacity, supply))
  {
    SlotIs(nodes[p].entries, i, Rank(key));
  }

  /** The page above goes on from what the child has come to. */
  lemma FollowsUp(nodes: NodeMap, p: PageId, i: nat, capacity: nat, below: Outcome, st: Status, split: bool, sep: Bytes,
                  right: PageId, nodes1: NodeMap, left: seq<PageId>)
    requires p in nodes && i <= |nodes[p].entries| && Follows(below, st, split, sep, right, nodes1, left)
    requires below.fate.Stops? ==> below.fate.status != Ok
    ensures st != Ok ==> Follows(Above(nodes, p, i, capacity, below), st, false, [], 0, nodes1, left)
    ensures st == Ok ==>
      var n := if split then WithChild(nodes[p], i, sep, right) else nodes[p];
      Above(nodes, p, i, capacity, below) == StoreGrown(nodes1, p, n, capacity, left)
  {
  }

  lemma FollowsRoot(o: Outcome, root: PageId, capacity: nat, st: Status, split: bool, sep: Bytes, right: PageId,
                    nodes1: NodeMap, left: seq<PageId>)
    requires Follows(o, st, split, sep, right, nodes1, left) && (st == Ok ==> root in nodes1)
    requires o.fate.Stops? ==> o.fate.status != Ok
    ensures var o' := if o.fate.Halves? && root in o.nodes then RootHalved(o, root, capacity) else o;
      if st == Ok && split then o' == RootHalved(Outcome(nodes1, Halves(sep, right), left), root, capacity)
      else Follows(o', st, false, [], 0, nodes1, left)
  {
  }

  /** The walk does not stop with Ok. */
  lemma {:induction false} StopsBad(nodes: NodeMap, p: PageId, key: Bytes, value: Bytes, depth: nat, capacity: nat,
                                    supply: seq<PageId>)
    ensures Insertion(nodes, p, key, value, depth, capacity, supply).fate != Stops(Ok)
    decreases MAX_DEPTH - depth
  {
    if depth < MAX_DEPTH && p in nodes {
      if nodes[p].kind == Leaf {
        InsertionAtLeaf(nodes, p, key, value, depth, capacity, supply);
      } else {
        var i := SlotOf(nodes[p].entries, Rank(key));
        StopsBad(nodes, ChildAt(nodes[p], i), key, value, depth + 1, capacity, supply);
        InsertionOver(nodes, p, key, value, depth, capacity, supply);
      }
    }
  }

  lemma PutStops(nodes: NodeMap, root: PageId, key: Bytes, value: Bytes, capacity: nat, supply: seq<PageId>)
    ensures PutOutcome(nodes, root, key, value, capacity, supply).fate != Stops(Ok)
  {
    StopsBad(nodes, root, key, value, 0, capacity, supply);
  }

  // ---------------------------------------------------------------- places

  lemma {:induction false} PlaceIs(es: seq<Entry>, i: nat, x: real)
    requires i <= |es| && (forall j :: 0 <= j < i ==> Rank(es[j].key) < x)
    requires forall j :: i <= j < |es| ==> x <= Rank(es[j].key)
    ensures PlaceOf(es, x) == i
  {
    if i < |es| { PlaceIs(es[..|es| - 1], i, x); }
  }

  lemma {:induction false} SlotIs(es: seq<Entry>, i: nat, x: real)
    requires Routes(es, i, x)
    ensures SlotOf(es, x) == i
  {
    if i < |es| { SlotIs(es[..|es| - 1], i, x); }
  }

  lemma LeafWithIs(n: Node, n': Node, i: nat, key: Bytes, value: Bytes)
    requires n' == n.(entries := n'.entries) && Sorted(n.entries) && Sorted(n'.entries) && i <= |n.entries|
    requires
      || n'.entries == Inserted(n.entries, i, Entry(key, value, 0))
      || (i < |n.entries| && n.entries[i].key == key && n'.entries == n.entries[i := n.entries[i].(value := value)])
    ensures n' == LeafWith(n, key, value)
  {
    var es, fs := n.entries, n'.entries;
    if fs == Inserted(es, i, Entry(key, value, 0)) {
      forall j | 0 <= j < i ensures Rank(es[j].key) < Rank(key) { assert fs[j] == es[j] && fs[i].key == key; }
      forall j | i <= j < |es| ensures Rank(key) < Rank(es[j].key) { assert fs[j + 1] == es[j] && fs[i].key == key; }
    }
    PlaceIs(es, i, Rank(key));
  }

  /** Handing out a page. */
  lemma SupplyStep(chain: seq<PageId>, next: PageId, limit: PageId)
    requires next <= limit
    ensures SupplyOf(chain, next, limit) == [] <==> chain == [] && next == limit
    ensures chain != [] ==>
      SupplyOf(chain, next, limit)[0] == chain[0]
      && SupplyOf(chain[1..], next, limit) == SupplyOf(chain, next, limit)[1..]
    ensures chain == [] && next < limit ==>
      SupplyOf(chain, next, limit)[0] == next && SupplyOf([], next + 1, limit) == SupplyOf(chain, next, limit)[1..]
  {
  }

  // ---------------------------------------------------------------- halves

  /** Both halves of an admissible cut can be stored. */
  lemma HalvesStorable(n: Node, m: nat, right: PageId, capacity: nat)
    requires NodeValid(n) && Admissible(n, capacity, m)
    ensures NodeValid(Lower(n, m, right)) && EncodedSize(Lower(n, m, right)) <= capacity
    ensures NodeValid(Upper(n, m)) && EncodedSize(Upper(n, m)) <= capacity
    ensures Lower(n, m, right).entries != [] && Upper(n, m).entries != []
  {
    Slices(n.entries, m);
    PartValid(n, Lower(n, m, right), 0, m);
    if n.kind == Leaf {
      PartValid(n, Upper(n, m), m, |n.entries|);
    } else {
      Slices(n.entries, m + 1);
      PartValid(n, Upper(n, m), m + 1, |n.entries|);
    }
  }

  lemma Slices<T>(s: seq<T>, m: nat)
    requires m <= |s|
    ensures s[..m] == s[0..m] && s[m..] == s[m..|s|]
  {
  }

  lemma HalvesRoomy(n: Node, m: nat, right: PageId, capacity: nat)
    requires Storable(n, capacity) && Admissible(n, capacity, m) && right != 0
    ensures Fits(Lower(n, m, right), capacity) && Fits(Upper(n, m), capacity)
    ensures SepFine(n.entries[m].key, right, capacity)
  {
    if n.kind == Leaf { LeafParts(n, m, right, capacity); } else { InnerParts(n, m, right, capacity); }
  }

  lemma CutIs(n: Node, capacity: nat, middle: nat)
    requires Best(n, capacity, middle)
    ensures middle == Cut(n, capacity)
  {
    BestUnique(n, capacity, middle, Cut(n, capacity));
  }

  // ---------------------------------------------------------------- when a put is refused

  /** What is handed out comes from the front. */
  predicate TakenFrom(supply: seq<PageId>, left: seq<PageId>) {
    |left| <= |supply| && left == supply[|supply| - |left|..]
  }

  /** Each of h + 1 levels takes one page at most, and none is left when there are too few. */
  ghost predicate Frugal(supply: seq<PageId>, o: Outcome, h: nat) {
    && TakenFrom(supply, o.left) && |supply| - |o.left| <= h + 1
    && (o.fate == Stops(Overflow) ==> o.left == [] && |supply| <= h)
  }

  lemma StoreFrugal(supply: seq<PageId>, below: Outcome, h: nat, p: PageId, n: Node, capacity: nat)
    requires h > 0 && Frugal(supply, below, h - 1)
    ensures Frugal(supply, StoreGrown(below.nodes, p, n, capacity, below.left), h)
  {
  }

  /** A leaf, or a page where the walk gives up. */
  lemma EndFrugal(nodes: NodeMap, p: PageId, key: Bytes, value: Bytes, depth: nat, capacity: nat,
                  supply: seq<PageId>, h: nat)
    requires depth >= MAX_DEPTH || p !in nodes || nodes[p].kind == Leaf
    ensures Frugal(supply, Insertion(nodes, p, key, value, depth, capacity, supply), h)
  {
  }

  lemma {:induction false} InsertionFrugal(t: Tree, p: PageId, key: Bytes, value: Bytes, depth: nat, capacity: nat,
                                           supply: seq<PageId>)
    requires Held(t, 0) && NodesOk(t.nodes, capacity) && p in t.nodes
    requires t.spans[p].lo <= Rank(key) < t.spans[p].hi
    ensures Frugal(supply, Insertion(t.nodes, p, key, value, depth, capacity, supply), t.spans[p].height)
    decreases MAX_DEPTH - depth
  {
    var n, h := t.nodes[p], t.spans[p].height;
    if depth >= MAX_DEPTH || n.kind == Leaf {
      EndFrugal(t.nodes, p, key, value, depth, capacity, supply, h);
    } else {
      var i := KidBelow(t, p, key, capacity);
      InsertionFrugal(t, ChildAt(n, i), key, value, depth + 1, capacity, supply);
      InnerFrugal(t.nodes, p, key, value, depth, capacity, supply, h);
    }
  }

  lemma InnerFrugal(nodes: NodeMap, p: PageId, key: Bytes, value: Bytes, depth: nat, capacity: nat,
                    supply: seq<PageId>, h: nat)
    requires depth < MAX_DEPTH && p in nodes && nodes[p].kind == Internal && h > 0
    requires
      var c := ChildAt(nodes[p], SlotOf(nodes[p].entries, Rank(key)));
      Frugal(supply, Insertion(nodes, c, key, value, depth + 1, capacity, supply), h - 1)
    ensures Frugal(supply, Insertion(nodes, p, key, value, depth, capacity, supply), h)
  {
    var i := SlotOf(nodes[p].entries, Rank(key));
    var below := Insertion(nodes, ChildAt(nodes[p], i), key, value, depth + 1, capacity, supply);
    match below.fate
    case Stops(_) =>
    case Rests => StoreFrugal(supply, below, h, p, nodes[p], capacity);
    case Halves(sep, right) => StoreFrugal(supply, below, h, p, WithChild(nodes[p], i, sep, right), capacity);
  }

  /** The child that the key leads to. */
  lemma KidBelow(t: Tree, p: PageId, key: Bytes, capacity: nat) returns (i: nat)
    requires Held(t, 0) && NodesOk(t.nodes, capacity) && p in t.nodes && t.nodes[p].kind == Internal
    requires t.spans[p].lo <= Rank(key) < t.spans[p].hi
    ensures i == SlotOf(t.nodes[p].entries, Rank(key))
    ensures var c := ChildAt(t.nodes[p], i);
      c in t.nodes && t.spans[c].lo <= Rank(key) < t.spans[c].hi && t.spans[c].height + 1 == t.spans[p].height
  {
    var n := t.nodes[p];
    ValidIsSorted(n);
    i := SlotOf(n.entries, Rank(key));
    SlotRoutes(n.entries, Rank(key));
    RouteStep(t, p, n, i, Rank(key));
  }

  lemma {:induction false} SlotRoutes(es: seq<Entry>, x: real)
    requires Sorted(es)
    ensures Routes(es, SlotOf(es, x), x)
  {
    if es != [] { SlotRoutes(es[..|es| - 1], x); }
  }

  /** A put is refused for want of pages only if fewer are left than the tree has levels, and one. */
  lemma OverflowMeans(t: Tree, root: PageId, key: Bytes, value: Bytes, capacity: nat, supply: seq<PageId>)
    requires Rooted(t, root) && NodesOk(t.nodes, capacity)
    requires PutStatus(t.nodes, root, key, value, capacity, supply) == Overflow
    ensures |supply| < t.spans[root].height + 2
    ensures PutOutcome(t.nodes, root, key, value, capacity, supply).left == []
  {
    RootSpan(t, root);
    InsertionFrugal(t, root, key, value, 0, capacity, supply);
  }

  /** Only the leaf changes, and no page is taken. */
  ghost predicate OnlyLeaf(nodes: NodeMap, p: PageId, leaf: PageId, key: Bytes, value: Bytes, depth: nat,
                           capacity: nat, supply: seq<PageId>) {
    && leaf in nodes
    && Insertion(nodes, p, key, value, depth, capacity, supply) ==
         Outcome(nodes[leaf := LeafWith(nodes[leaf], key, value)], Rests, supply)
  }

  /** A put whose grown leaf fits its page succeeds, changes nothing else and takes no page. */
  lemma {:induction false} FitsBelow(nodes: NodeMap, root: PageId, key: Bytes, value: Bytes, pages: seq<PageId>,
                                     slots: seq<nat>, leaf: PageId, l: nat, capacity: nat, supply: seq<PageId>)
    requires Routed(nodes, root, key, pages, slots, leaf) && l <= |pages| < MAX_DEPTH && NodesOk(nodes, capacity)
    requires
      var n := LeafWith(nodes[leaf], key, value);
      NodeValid(n) && EncodedSize(n) <= capacity
    ensures OnlyLeaf(nodes, At(pages, |pages|, l, leaf), leaf, key, value, l, capacity, supply)
    decreases |pages| - l
  {
    if l < |pages| {
      RoutedSlot(nodes, root, key, pages, slots, leaf, l);
      FitsBelow(nodes, root, key, value, pages, slots, leaf, l + 1, capacity, supply);
      FitsAbove(nodes, pages[l], leaf, key, value, l, capacity, supply);
    } else {
      FitsLeaf(nodes, leaf, key, value, l, capacity, supply);
    }
  }

  lemma RoutedSlot(nodes: NodeMap, root: PageId, key: Bytes, pages: seq<PageId>, slots: seq<nat>, leaf: PageId, l: nat)
    requires Routed(nodes, root, key, pages, slots, leaf) && l < |pages|
    ensures At(pages, |pages|, l, leaf) == pages[l] && pages[l] in nodes && nodes[pages[l]].kind == Internal
    ensures ChildAt(nodes[pages[l]], SlotOf(nodes[pages[l]].entries, Rank(key))) == At(pages, |pages|, l + 1, leaf)
  {
    assert RoutedAt(nodes, key, pages, slots, leaf, l);
    SlotIs(nodes[pages[l]].entries, slots[l], Rank(key));
  }

  lemma FitsLeaf(nodes: NodeMap, leaf: PageId, key: Bytes, value: Bytes, depth: nat, capacity: nat,
                 supply: seq<PageId>)
    requires leaf in nodes && nodes[leaf].kind == Leaf && depth < MAX_DEPTH
    requires
      var n := LeafWith(nodes[leaf], key, value);
      NodeValid(n) && EncodedSize(n) <= capacity
    ensures OnlyLeaf(nodes, leaf, leaf, key, value, depth, capacity, supply)
  {
  }

  lemma FitsAbove(nodes: NodeMap, p: PageId, leaf: PageId, key: Bytes, value: Bytes, depth: nat, capacity: nat,
                  supply: seq<PageId>)
    requires p in nodes && nodes[p].kind == Internal && leaf in nodes && nodes[leaf].kind == Leaf && depth < MAX_DEPTH
    requires NodeValid(nodes[p]) && EncodedSize(nodes[p]) <= capacity
    requires OnlyLeaf(nodes, ChildAt(nodes[p], SlotOf(nodes[p].entries, Rank(key))), leaf, key, value, depth + 1,
      capacity, supply)
    ensures OnlyLeaf(nodes, p, leaf, key, value, depth, capacity, supply)
  {
    var nodes' := nodes[leaf := LeafWith(nodes[leaf], key, value)];
    assert nodes'[p := nodes[p]] == nodes';
  }

  lemma PutFits(nodes: NodeMap, root: PageId, key: Bytes, value: Bytes, pages: seq<PageId>, slots: seq<nat>,
                leaf: PageId, capacity: nat, supply: seq<PageId>)
    requires Routed(nodes, root, key, pages, slots, leaf) && |pages| < MAX_DEPTH && NodesOk(nodes, capacity)
    requires
      var n := LeafWith(nodes[leaf], key, value);
      NodeValid(n) && EncodedSize(n) <= capacity
    ensures PutStatus(nodes, root, key, value, capacity, supply) == Ok
    ensures PutOutcome(nodes, root, key, value, capacity, supply) ==
      Outcome(nodes[leaf := LeafWith(nodes[leaf], key, value)], Rests, supply)
  {
    FitsBelow(nodes, root, key, value, pages, slots, leaf, 0, capacity, supply);
  }

  // ---------------------------------------------------------------- no empty leaf

  predicate EmptyLeaf(n: Node) { n.kind == Leaf && n.entries == [] }

  ghost predicate NoNewEmpty(nodes: NodeMap, nodes': NodeMap) {
    forall q :: q in nodes' && EmptyLeaf(nodes'[q]) ==> q in nodes && EmptyLeaf(nodes[q])
  }

  /** An empty leaf that is not the root. */
  predicate Bare(nodes: NodeMap, root: PageId, p: PageId) { p in nodes && p != root && EmptyLeaf(nodes[p]) }

  /** Every such leaf was one before, unless its page was allocated by the transaction. */
  ghost predicate Tidier(nodes: NodeMap, taken: seq<PageId>, nodes': NodeMap, taken': seq<PageId>, root: PageId) {
    forall p :: Bare(nodes', root, p) ==> p in taken' || (Bare(nodes, root, p) && p !in taken)
  }

  /** No leaf is empty but the root. */
  ghost predicate NoneBare(nodes: NodeMap, root: PageId) { forall p :: !Bare(nodes, root, p) }

  lemma StillTidy(nodes: NodeMap, nodes': NodeMap, root: PageId)
    requires NoneBare(nodes, root) && (NoNewEmpty(nodes, nodes') || Tidier(nodes, [], nodes', [], root))
    ensures NoneBare(nodes', root)
  {
    forall p | Bare(nodes', root, p) ensures Bare(nodes, root, p) {}
  }

  lemma TidierStill(nodes: NodeMap, taken: seq<PageId>, nodes1: NodeMap, taken1: seq<PageId>, nodes2: NodeMap,
                    taken2: seq<PageId>, root: PageId)
    requires Tidier(nodes, taken, nodes1, taken1, root) && Tidier(nodes1, taken1, nodes2, taken2, root)
    ensures Tidier(nodes, taken, nodes2, taken2, root)
  {
  }

  lemma FilledTidier(nodes: NodeMap, taken: seq<PageId>, nodes': NodeMap, taken': seq<PageId>, root: PageId)
    requires NoNewEmpty(nodes, nodes') && taken <= taken'
    ensures Tidier(nodes, taken, nodes', taken', root)
  {
  }

  /** Pages only go, and those that stay as leaves keep their entries; only the root may become one. */
  ghost predicate Shrunk(nodes: NodeMap, taken: seq<PageId>, nodes': NodeMap, taken': seq<PageId>, root: PageId) {
    && (forall p {:trigger ShrunkAt(nodes, taken, nodes', taken', root, p)} :: p in nodes' ==>
          ShrunkAt(nodes, taken, nodes', taken', root, p))
    && (forall p :: p in taken' ==> p in taken)
  }

  ghost predicate ShrunkAt(nodes: NodeMap, taken: seq<PageId>, nodes': NodeMap, taken': seq<PageId>, root: PageId,
                           p: PageId) {
    && p in nodes' && p in nodes && (p in taken ==> p in taken')
    && (p != root && nodes'[p].kind == Leaf ==> nodes[p].kind == Leaf && nodes[p].entries == nodes'[p].entries)
  }

  lemma ShrunkStill(nodes: NodeMap, taken: seq<PageId>, nodes1: NodeMap, taken1: seq<PageId>, nodes2: NodeMap,
                    taken2: seq<PageId>, root: PageId)
    requires Shrunk(nodes, taken, nodes1, taken1, root) && Shrunk(nodes1, taken1, nodes2, taken2, root)
    ensures Shrunk(nodes, taken, nodes2, taken2, root)
  {
    forall p | p in nodes2 ensures ShrunkAt(nodes, taken, nodes2, taken2, root, p) {
      assert ShrunkAt(nodes1, taken1, nodes2, taken2, root, p) && ShrunkAt(nodes, taken, nodes1, taken1, root, p);
    }
  }

  /** A page is stored again. */
  lemma ShrunkPut(nodes: NodeMap, taken: seq<PageId>, p: PageId, n: Node, root: PageId)
    requires p in nodes
    requires p == root || n.kind == Internal || (nodes[p].kind == Leaf && nodes[p].entries == n.entries)
    ensures Shrunk(nodes, taken, nodes[p := n], taken, root)
  {
    forall q | q in nodes ensures ShrunkAt(nodes, taken, nodes[p := n], taken, root, q) {}
  }

  ghost predicate TakenBut(taken: seq<PageId>, taken': seq<PageId>, p: PageId) {
    forall q :: q in taken' <==> q in taken && q != p
  }

  /** A page goes. */
  lemma ShrunkDrop(nodes: NodeMap, taken: seq<PageId>, p: PageId, taken': seq<PageId>, root: PageId)
    requires TakenBut(taken, taken', p)
    ensures Shrunk(nodes, taken, nodes - {p}, taken', root)
  {
    forall q | q in nodes - {p} ensures ShrunkAt(nodes, taken, nodes - {p}, taken', root, q) {}
  }

  lemma ShrunkSame(nodes: NodeMap, taken: seq<PageId>, root: PageId)
    ensures Shrunk(nodes, taken, nodes, taken, root)
  {
    forall q | q in nodes ensures ShrunkAt(nodes, taken, nodes, taken, root, q) {}
  }

  /** A page that has gone does not come back. */
  lemma ShrunkGone(nodes: NodeMap, taken: seq<PageId>, p: PageId, taken1: seq<PageId>, nodes2: NodeMap,
                   taken2: seq<PageId>, root: PageId)
    requires TakenBut(taken, taken1, p) && Shrunk(nodes - {p}, taken1, nodes2, taken2, root)
    ensures p !in nodes2 && Shrunk(nodes, taken, nodes2, taken2, root)
  {
    ShrunkDrop(nodes, taken, p, taken1, root);
    ShrunkStill(nodes, taken, nodes - {p}, taken1, nodes2, taken2, root);
    ShrunkKeys(nodes - {p}, taken1, nodes2, taken2, root);
  }

  lemma ShrunkKeys(nodes: NodeMap, taken: seq<PageId>, nodes': NodeMap, taken': seq<PageId>, root: PageId)
    requires Shrunk(nodes, taken, nodes', taken', root)
    ensures nodes'.Keys <= nodes.Keys
  {
    forall p | p in nodes' ensures p in nodes { assert ShrunkAt(nodes, taken, nodes', taken', root, p); }
  }

  /** Two internal pages and their parent are stored again. */
  lemma SharedShrunk(nodes: NodeMap, taken: seq<PageId>, left: PageId, lower: Node, right: PageId, upper: Node,
                     above: PageId, parent: Node, root: PageId)
    requires left in nodes && right in nodes && above in nodes
    requires lower.kind == Internal && upper.kind == Internal && parent.kind == Internal
    ensures Shrunk(nodes, taken, nodes[left := lower][right := upper][above := parent], taken, root)
  {
    var nodes' := nodes[left := lower][right := upper][above := parent];
    forall q | q in nodes' ensures ShrunkAt(nodes, taken, nodes', taken, root, q) {}
  }

  lemma ShrunkTidier(nodes: NodeMap, taken: seq<PageId>, nodes': NodeMap, taken': seq<PageId>, root: PageId)
    requires Shrunk(nodes, taken, nodes', taken', root)
    ensures Tidier(nodes, taken, nodes', taken', root)
  {
    forall p | Bare(nodes', root, p) ensures p in taken' || (Bare(nodes, root, p) && p !in taken) {
      assert ShrunkAt(nodes, taken, nodes', taken', root, p);
    }
  }

  ghost function LeafWithout(n: Node, key: Bytes): Node {
    var i := PlaceOf(n.entries, Rank(key));
    if i < |n.entries| then n.(entries := Nodes.Removed(n.entries, i)) else n
  }

  /** The key is the only one of a leaf that can go: not the root, and not allocated by the transaction. */
  predicate LeafGoes(nodes: NodeMap, taken: seq<PageId>, root: PageId, leaf: PageId) {
    leaf in nodes && |nodes[leaf].entries| == 1 && leaf != root && leaf !in taken
  }

  /** The leaf goes, and no other leaf changes its entries; or only this leaf changes. */
  ghost predicate DeletedFrom(nodes: NodeMap, taken: seq<PageId>, nodes': NodeMap, taken': seq<PageId>, root: PageId,
                              leaf: PageId, key: Bytes) {
    && leaf in nodes
    && var nodes1 := nodes[leaf := LeafWithout(nodes[leaf], key)];
    if LeafGoes(nodes, taken, root, leaf) then leaf !in nodes' && Shrunk(nodes1, taken, nodes', taken', root)
    else nodes' == nodes1 && taken' == taken
  }

  /** So it is for the leaf that the key leads to, and a leaf that goes is free afterwards. */
  ghost predicate Cleared(nodes: NodeMap, taken: seq<PageId>, nodes': NodeMap, taken': seq<PageId>, chain: seq<PageId>,
                          root: PageId, key: Bytes) {
    forall pages, slots, leaf :: Routed(nodes, root, key, pages, slots, leaf) ==>
      && DeletedFrom(nodes, taken, nodes', taken', root, leaf, key)
      && (LeafGoes(nodes, taken, root, leaf) ==> leaf in chain)
  }

  lemma DeletedCleared(nodes: NodeMap, taken: seq<PageId>, nodes': NodeMap, taken': seq<PageId>, chain: seq<PageId>,
                       chain': seq<PageId>, next: PageId, root: PageId, key: Bytes, pages: seq<PageId>,
                       slots: seq<nat>, leaf: PageId)
    requires Routed(nodes, root, key, pages, slots, leaf)
    requires DeletedFrom(nodes, taken, nodes', taken', root, leaf, key)
    requires Accounted(nodes, chain, next, 0) && Accounted(nodes', chain', next, 0)
    ensures Cleared(nodes, taken, nodes', taken', chain', root, key)
  {
    forall pages2, slots2, leaf2 | Routed(nodes, root, key, pages2, slots2, leaf2)
      ensures DeletedFrom(nodes, taken, nodes', taken', root, leaf2, key)
      ensures LeafGoes(nodes, taken, root, leaf2) ==> leaf2 in chain'
    {
      OneWay(nodes, root, key, pages, slots, leaf, pages2, slots2, leaf2);
    }
  }

  lemma GoesIs(nodes: NodeMap, taken: seq<PageId>, root: PageId, pages: seq<PageId>, slots: seq<nat>, leaf: PageId,
               n: Node, i: nat, rest: Node, goes: bool)
    requires leaf in nodes && n == nodes[leaf] && Sorted(n.entries) && i < |n.entries|
      && rest == n.(entries := Nodes.Removed(n.entries, i))
    requires At(pages, |pages|, 0, leaf) == root
    requires goes <==> |pages| > 0 && leaf != root && leaf !in taken && rest.entries == []
    ensures goes <==> LeafGoes(nodes, taken, root, leaf)
    ensures rest == LeafWithout(n, n.entries[i].key)
  {
    PlaceIs(n.entries, i, Rank(n.entries[i].key));
  }

  lemma DeletedIs(nodes: NodeMap, taken: seq<PageId>, nodes1: NodeMap, nodes': NodeMap, taken': seq<PageId>,
                  root: PageId, leaf: PageId, key: Bytes, goes: bool)
    requires leaf in nodes && nodes1 == nodes[leaf := LeafWithout(nodes[leaf], key)]
    requires goes <==> LeafGoes(nodes, taken, root, leaf)
    requires if goes then leaf !in nodes' && Shrunk(nodes1, taken, nodes', taken', root)
      else nodes' == nodes1 && taken' == taken
    ensures DeletedFrom(nodes, taken, nodes', taken', root, leaf, key)
  {
  }

  lemma DeletedTidier(nodes: NodeMap, taken: seq<PageId>, nodes': NodeMap, taken': seq<PageId>, root: PageId,
                      leaf: PageId, key: Bytes)
    requires DeletedFrom(nodes, taken, nodes', taken', root, leaf, key)
    requires PlaceOf(nodes[leaf].entries, Rank(key)) < |nodes[leaf].entries|
    ensures Tidier(nodes, taken, nodes', taken', root) && forall p :: p in taken' ==> p in taken
  {
    var nodes1 := nodes[leaf := LeafWithout(nodes[leaf], key)];
    if LeafGoes(nodes, taken, root, leaf) {
      ShrunkTidier(nodes1, taken, nodes', taken', root);
    }
  }

  /** Nor is the page itself left empty. */
  ghost predicate Filled(nodes: NodeMap, p: PageId, o: Outcome) {
    NoNewEmpty(nodes, o.nodes) && (!o.fate.Stops? ==> p in o.nodes && !EmptyLeaf(o.nodes[p]))
  }

  lemma StoreFills(nodes: NodeMap, p: PageId, n: Node, capacity: nat, supply: seq<PageId>, nodes0: NodeMap)
    requires NoNewEmpty(nodes0, nodes) && !EmptyLeaf(n)
    ensures Filled(nodes0, p, StoreGrown(nodes, p, n, capacity, supply))
  {
  }

  lemma {:induction false} InsertionFills(nodes: NodeMap, p: PageId, key: Bytes, value: Bytes, depth: nat,
                                          capacity: nat, supply: seq<PageId>)
    ensures Filled(nodes, p, Insertion(nodes, p, key, value, depth, capacity, supply))
    decreases MAX_DEPTH - depth
  {
    if depth < MAX_DEPTH && p in nodes {
      var n := nodes[p];
      if n.kind == Leaf {
        StoreFills(nodes, p, LeafWith(n, key, value), capacity, supply, nodes);
      } else {
        var i := SlotOf(n.entries, Rank(key));
        InsertionFills(nodes, ChildAt(n, i), key, value, depth + 1, capacity, supply);
        InnerFills(nodes, p, key, value, depth, capacity, supply);
      }
    }
  }

  lemma InnerFills(nodes: NodeMap, p: PageId, key: Bytes, value: Bytes, depth: nat, capacity: nat,
                   supply: seq<PageId>)
    requires depth < MAX_DEPTH && p in nodes && nodes[p].kind == Internal
    requires
      var c := ChildAt(nodes[p], SlotOf(nodes[p].entries, Rank(key)));
      Filled(nodes, c, Insertion(nodes, c, key, value, depth + 1, capacity, supply))
    ensures Filled(nodes, p, Insertion(nodes, p, key, value, depth, capacity, supply))
  {
    var i := SlotOf(nodes[p].entries, Rank(key));
    var below := Insertion(nodes, ChildAt(nodes[p], i), key, value, depth + 1, capacity, supply);
    match below.fate
    case Stops(_) =>
    case Rests => StoreFills(below.nodes, p, nodes[p], capacity, below.left, nodes);
    case Halves(sep, right) => StoreFills(below.nodes, p, WithChild(nodes[p], i, sep, right), capacity, below.left,
      nodes);
  }

  /** A put leaves no leaf empty that was not empty before. */
  lemma PutFills(nodes: NodeMap, root: PageId, key: Bytes, value: Bytes, capacity: nat, supply: seq<PageId>)
    ensures NoNewEmpty(nodes, PutOutcome(nodes, root, key, value, capacity, supply).nodes)
  {
    InsertionFills(nodes, root, key, value, 0, capacity, supply);
  }

  /** What the outcome says of the free pages and of empty leaves. */
  lemma PutMeans(t: Tree, root: PageId, key: Bytes, value: Bytes, capacity: nat, supply: seq<PageId>, st: Status,
                 nodes: NodeMap, chain: seq<PageId>, next: PageId, limit: PageId, taken: seq<PageId>,
                 taken': seq<PageId>)
    requires Rooted(t, root) && NodesOk(t.nodes, capacity) && next <= limit && taken <= taken'
    requires Follows(PutOutcome(t.nodes, root, key, value, capacity, supply), st, false, [], 0, nodes,
      SupplyOf(chain, next, limit))
    ensures st == Overflow ==> chain == [] && next == limit
    ensures st == Ok ==> NoNewEmpty(t.nodes, nodes) && Tidier(t.nodes, taken, nodes, taken', root)
  {
    SupplyStep(chain, next, limit);
    PutStops(t.nodes, root, key, value, capacity, supply);
    if st == Overflow { OverflowMeans(t, root, key, value, capacity, supply); }
    if st == Ok {
      PutFills(t.nodes, root, key, value, capacity, supply);
      FilledTidier(t.nodes, taken, nodes, taken', root);
    }
  }
}
