/** Batched changes to the tree over the committed pages. */
module Batches {
  import opened Common
  import opened Keys
  import opened Shape
  import opened Nodes
  import opened Splits
  import opened Room
  import opened PageTxn
  import opened Trees
  import opened Reclaim
  import opened Refusals
  import opened Growth
  import opened Commits

  class Batch {
    const txn: Txn
    const root: PageId
    var items: NodeMap
    var failure: Status
    ghost var tree: Tree
    ghost var contents: map<Bytes, Bytes>

    /** Begins a batch over a committed tree. */
    constructor (txn: Txn, root: PageId, ghost nodes: NodeMap, ghost spans: Spans,
                 ghost contents: map<Bytes, Bytes>, ghost held: Contents)
      requires txn.Valid() && txn.Untouched()
      requires Stored(nodes, map[], txn.disk) && NodesOk(nodes, txn.capacity)
      requires Accounted(nodes, txn.chain, txn.next, 0)
      requires root in nodes && RanksOf(contents, held) && Shaped(ViewsOf(nodes, root), spans, held)
      ensures Valid() && failure == Ok
      ensures this.txn == txn && this.root == root && this.tree.nodes == nodes && this.contents == contents
    {
      this.txn, this.root, items, failure := txn, root, map[], Ok;
      this.contents, tree := contents, Tree(nodes, ViewsOf(nodes, root), spans, held);
      new;
      BeginOk(nodes, root, txn.disk, txn.chain, txn.next, spans, held);
    }

    /** Pages and nodes are in order; x is a page on its way into the tree, or 0. */
    ghost predicate Books(x: PageId)
      reads this`items, this`tree, txn
    {
      && txn.Valid()
      && Stored(tree.nodes, items, txn.disk)
      && NodesOk(tree.nodes, txn.capacity)
      && Accounted(tree.nodes, txn.chain, txn.next, x)
      && Owned(tree.nodes, items, txn.taken, txn.disk, x)
    }

    /** Some page of the tree has been stored anew. */
    ghost predicate Dirty()
      reads this`items
    {
      exists p :: p in items
    }

    /** No entry of the tree takes more than half of the room. */
    ghost predicate Ample()
      reads this`tree
    {
      AllRoomy(tree.nodes, txn.capacity)
    }

    /** The pages that can still be had. */
    ghost function Supply(): seq<PageId>
      requires txn.next <= txn.limit
      reads txn
    { SupplyOf(txn.chain, txn.next, txn.limit) }

    ghost predicate Valid()
      reads this, txn
    {
      && Books(0)
      && Rooted(tree, root) && RanksOf(contents, tree.held)
      && (!Dirty() ==> txn.Untouched())
    }

    method ReadNode(p: PageId) returns (st: Status, n: Node)
      requires Stored(tree.nodes, items, txn.disk)
      ensures p in tree.nodes ==> st == Ok && n == tree.nodes[p]
    {
      if p in items { return Ok, items[p]; }
      if p in txn.disk && txn.disk[p].Data? { return Ok, txn.disk[p].node; }
      return Corrupt, Node(Leaf, 0, 0, []);
    }

    method Stage(p: PageId, n: Node, ghost x: PageId) returns (st: Status)
      requires Books(x) && (p in tree.nodes || (p == x && p != 0))
      requires n.kind == Internal ==> n.entries != []
      modifies this`items, this`tree
      ensures st == if !NodeValid(n) then InvalidArgument else if EncodedSize(n) > txn.capacity then BufferTooSmall
        else Ok
      ensures st == Ok ==> tree == old(tree).(nodes := old(tree).nodes[p := n])
      ensures st == Ok ==> Books(if p == x then 0 else x)
      ensures st == Ok ==> items == old(items)[p := n]
      ensures st != Ok ==> tree == old(tree) && items == old(items)
      ensures st == Ok && old(Ample()) && Roomy(n, txn.capacity) ==> Ample()
    {
      if !NodeValid(n) { return InvalidArgument; }
      if EncodedSize(n) > txn.capacity { return BufferTooSmall; }
      StagedBooks(tree.nodes, items, txn.chain, txn.next, txn.taken, txn.disk, p, n, x, txn.capacity);
      if Ample() && Roomy(n, txn.capacity) { RoomyPut(tree.nodes, p, n, txn.capacity); }
      items := items[p := n];
      tree := tree.(nodes := tree.nodes[p := n]);
      st := Ok;
    }

    method Grab() returns (st: Status, r: PageId)
      requires Books(0)
      modifies txn
      ensures txn.next <= txn.limit
        && st == (if old(txn.chain) == [] && old(txn.next) == txn.limit then Overflow else Ok)
      ensures st == Ok ==> Books(r) && r !in tree.nodes && r != 0
      ensures st == Ok ==> old(Supply()) != [] && r == old(Supply())[0] && Supply() == old(Supply())[1..]
      ensures st == Ok ==> txn.taken == old(txn.taken) + [r]
      ensures st != Ok ==> old(Supply()) == [] && unchanged(txn)
      ensures tree == old(tree)
    {
      SupplyStep(txn.chain, txn.next, txn.limit);
      assert 0 !in txn.taken;
      ghost var chain, next, taken := txn.chain, txn.next, txn.taken;
      st, r := txn.Allocate();
      if st == Ok {
        TakenAccounted(tree.nodes, chain, next, txn.chain, txn.next, r);
        TakenOwned(tree.nodes, items, taken, txn.disk, r);
      }
    }

    method Release(p: PageId) returns (st: Status)
      requires Books(0) && p in tree.nodes
      modifies this`items, this`tree, txn
      ensures st == Ok && Books(0) && tree == old(tree).(nodes := old(tree).nodes - {p})
      ensures items == old(items) - {p} && TakenBut(old(txn.taken), txn.taken, p) && txn.next == old(txn.next)
      ensures old(Ample()) ==> Ample()
    {
      if Ample() { RoomyDrop(tree.nodes, p, txn.capacity); }
      items := items - {p};
      tree := tree.(nodes := tree.nodes - {p});
      st := txn.FreePage(p);
    }

    /** The books only speak of nodes. */
    ghost method Adopt(t: Tree)
      requires Books(0) && t.nodes == tree.nodes
      modifies this`tree
      ensures Books(0) && tree == t && Ample() == old(Ample())
    {
      tree := t;
    }

    // -------------------------------------------------------------- getting

    method FindInLeaf(p: PageId, n: Node, key: Bytes) returns (found: bool, i: nat)
      requires Held(tree, 0) && p in tree.nodes && n == tree.nodes[p] && n.kind == Leaf && Sorted(n.entries)
      requires tree.spans[p].lo <= Rank(key) < tree.spans[p].hi
      ensures found <==> Rank(key) in tree.held
      ensures found ==> i < |n.entries| && n.entries[i].key == key && n.entries[i].value == tree.held[Rank(key)]
    {
      i := LowerBound(n.entries, key);
      found := false;
      LeafAnswers(tree, p, Rank(key));
      if i < |n.entries| {
        var c := Compare(n.entries[i].key, key);
        RankIsOrder(n.entries[i].key, key);
        found := c == 0;
        LeafKeyIn(n, i);
      }
      if !found && Rank(key) in tree.held { ghost var j := LeafKeyIndex(n, Rank(key)); }
    }

    /** Looks up one key in the tree as changed so far. */
    method Get(key: Bytes, capacity: nat) returns (st: Status, value: Bytes, size: nat)
      requires failure == Ok ==> Valid()
      ensures failure != Ok || !(0 < |key| <= MAX_KEY) ==> st == InvalidArgument
      ensures failure == Ok && 0 < |key| <= MAX_KEY ==>
        st == if key !in contents then NotFound else if capacity < |contents[key]| then BufferTooSmall else Ok
      ensures st == Ok ==> value == contents[key]
      ensures st == Ok || st == BufferTooSmall ==> size == |contents[key]|
    {
      value, size := [], 0;
      if failure != Ok || key == [] || |key| > MAX_KEY { return InvalidArgument, value, size; }
      RootSpan(tree, root);
      HeightBound(tree, root, txn.capacity, txn.chain, txn.next);
      RanksHas(contents, tree.held, key);
      var p, depth := root, 0;
      while true
        invariant p in tree.nodes && tree.spans[p].lo <= Rank(key) < tree.spans[p].hi
        invariant depth + tree.spans[p].height < MAX_DEPTH
        decreases tree.spans[p].height
      {
        if depth >= MAX_DEPTH { st := Corrupt; return; }
        depth := depth + 1;
        var n;
        st, n := ReadNode(p);
        if st != Ok { return; }
        ValidIsSorted(n);
        if n.kind == Leaf {
          var found, i := FindInLeaf(p, n, key);
          if !found { return NotFound, value, size; }
          size := |n.entries[i].value|;
          if capacity < size { return BufferTooSmall, value, size; }
          return Ok, n.entries[i].value, size;
        }
        var i := Route(n.entries, key);
        RouteStep(tree, p, n, i, Rank(key));
        p := ChildAt(n, i);
      }
    }

    // -------------------------------------------------------------- putting

    /** Everything agrees except that the view of page p is already that of n, not yet stored. */
    ghost predicate Ahead(p: PageId, n: Node)
      reads this`items, this`tree, txn
    {
      && Books(0) && Held(tree, p)
      && p in tree.nodes && Sorted(n.entries) && tree.views[p] == ViewOf(n)
    }

    /** With room for all, only the page limit stands in the way; what is stored leaves room again. */
    ghost predicate Placed(st: Status, split: bool, sep: Bytes, right: PageId)
      reads this`tree
    {
      || st == Overflow
      || (st == Ok && Ample() && (split ==> SepFine(sep, right, txn.capacity)))
    }

    method StoreHalves(p: PageId, lower: Node, right: PageId, upper: Node) returns (st: Status)
      requires Books(right) && p in tree.nodes && right !in tree.nodes && right != 0
      requires lower.kind == Internal ==> lower.entries != []
      requires upper.kind == Internal ==> upper.entries != []
      modifies this`items, this`tree
      ensures Benign(st)
      ensures st == Ok ==> Books(0) && p in items
      ensures st == Ok ==> tree == old(tree).(nodes := old(tree).nodes[p := lower][right := upper])
      ensures old(Ample()) && Fits(lower, txn.capacity) && Fits(upper, txn.capacity) ==>
        st == Ok && Ample()
      ensures (NodeValid(lower) && EncodedSize(lower) <= txn.capacity) && NodeValid(upper) ==>
        (EncodedSize(upper) <= txn.capacity ==> st == Ok)
    {
      st := Stage(p, lower, right);
      if st != Ok { return; }
      st := Stage(right, upper, right);
    }

    /** Stores both halves, the second one in a new page. */
    method StoreCut(p: PageId, n: Node, middle: nat) returns (st: Status, sep: Bytes, right: PageId)
      requires Books(0) && p in tree.nodes && NodeValid(n) && EncodedSize(n) > txn.capacity
      requires Best(n, txn.capacity, middle)
      modifies this`items, this`tree, txn
      ensures Benign(st) && txn.next <= txn.limit && old(txn.taken) <= txn.taken
      ensures Follows(StoreGrown(old(tree).nodes, p, n, txn.capacity, old(Supply())), st, true, sep, right, tree.nodes,
        Supply())
      ensures st == Ok ==> Books(0) && p in items && right !in old(tree).nodes && right != 0
      ensures st == Ok ==>
        && Admissible(n, txn.capacity, middle) && sep == n.entries[middle].key
        && tree == old(tree).(nodes := old(tree).nodes[p := Lower(n, middle, right)][right := Upper(n, middle)])
      ensures old(Ample()) && Storable(n, txn.capacity) ==> Placed(st, true, sep, right)
    {
      sep, right := [], 0;
      StoredCut(tree.nodes, p, n, middle, txn.capacity, Supply());
      if middle == 0 { st := BufferTooSmall; return; }
      st, right := Grab();
      if st != Ok { return; }
      HalvesStorable(n, middle, right, txn.capacity);
      if Storable(n, txn.capacity) { HalvesRoomy(n, middle, right, txn.capacity); }
      sep := n.entries[middle].key;
      st := StoreHalves(p, Lower(n, middle, right), right, Upper(n, middle));
    }

    method SplitLeafPage(p: PageId, n: Node) returns (st: Status, sep: Bytes, right: PageId)
      requires Ahead(p, n) && n.kind == Leaf && EncodedSize(n) > txn.capacity && NodeValid(n)
      modifies this`items, this`tree, txn
      ensures Benign(st) && txn.next <= txn.limit && old(txn.taken) <= txn.taken
      ensures Follows(StoreGrown(old(tree).nodes, p, n, txn.capacity, old(Supply())), st, true, sep, right, tree.nodes,
        Supply())
      ensures st == Ok ==> p in items
      ensures st == Ok ==> Books(0) && Grown(old(tree), tree, p, true, sep, right) && tree.held == old(tree).held
      ensures old(Ample()) && Storable(n, txn.capacity) ==> Placed(st, true, sep, right)
    {
      ghost var t := tree;
      var middle := LeafSplitPoint(n, txn.capacity);
      st, sep, right := StoreCut(p, n, middle);
      if st != Ok { return; }
      ghost var t1 := SplitLeafStep(t, p, n, middle, right);
      Adopt(t1);
    }

    method SplitInnerPage(p: PageId, n: Node) returns (st: Status, sep: Bytes, right: PageId)
      requires Ahead(p, n) && n.kind == Internal && EncodedSize(n) > txn.capacity && NodeValid(n)
      modifies this`items, this`tree, txn
      ensures Benign(st) && txn.next <= txn.limit && old(txn.taken) <= txn.taken
      ensures Follows(StoreGrown(old(tree).nodes, p, n, txn.capacity, old(Supply())), st, true, sep, right, tree.nodes,
        Supply())
      ensures st == Ok ==> p in items
      ensures st == Ok ==> Books(0) && Grown(old(tree), tree, p, true, sep, right) && tree.held == old(tree).held
      ensures old(Ample()) && Storable(n, txn.capacity) ==> Placed(st, true, sep, right)
    {
      ghost var t := tree;
      var middle := InnerSplitPoint(n, txn.capacity);
      st, sep, right := StoreCut(p, n, middle);
      if st != Ok { return; }
      ghost var t1 := SplitInnerStep(t, p, n, middle, right);
      Adopt(t1);
    }

    /** Stores a grown node, in two pages if one is not enough. */
    method Settle(p: PageId, n: Node) returns (st: Status, split: bool, sep: Bytes, right: PageId)
      requires Ahead(p, n) && (n.kind == Internal ==> n.entries != [])
      modifies this`items, this`tree, txn
      ensures Benign(st) && txn.next <= txn.limit && old(txn.taken) <= txn.taken
      ensures Follows(StoreGrown(old(tree).nodes, p, n, txn.capacity, old(Supply())), st, split, sep, right, tree.nodes,
        Supply())
      ensures st == Ok ==> p in items
      ensures st == Ok ==> Books(0) && Grown(old(tree), tree, p, split, sep, right) && tree.held == old(tree).held
      ensures old(Ample()) && Storable(n, txn.capacity) ==> Placed(st, split, sep, right)
    {
      split, sep, right := false, [], 0;
      if !NodeValid(n) { st := InvalidArgument; return; }
      if EncodedSize(n) <= txn.capacity {
        ghost var t := tree;
        st := Stage(p, n, 0);
        SettledStep(t, p, n);
      } else if |n.entries| < 2 {
        st := BufferTooSmall;
        NoCut(n, txn.capacity);
        CutIs(n, txn.capacity, 0);
      } else if n.kind == Leaf {
        st, sep, right := SplitLeafPage(p, n);
        split := true;
      } else {
        st, sep, right := SplitInnerPage(p, n);
        split := true;
      }
    }

    method InsertLeaf(p: PageId, n: Node, key: Bytes, value: Bytes)
      returns (st: Status, split: bool, sep: Bytes, right: PageId)
      requires Books(0) && Held(tree, 0) && p in tree.nodes && n == tree.nodes[p] && n.kind == Leaf
      requires tree.spans[p].lo <= Rank(key) < tree.spans[p].hi
      modifies this`items, this`tree, txn
      ensures Benign(st) && txn.next <= txn.limit && old(txn.taken) <= txn.taken
      ensures Follows(StoreGrown(old(tree).nodes, p, LeafWith(n, key, value), txn.capacity, old(Supply())), st, split,
        sep, right, tree.nodes, Supply())
      ensures st == Ok ==> p in items
      ensures st == Ok ==> Books(0) && Grown(old(tree), tree, p, split, sep, right)
      ensures st == Ok ==> tree.held == old(tree).held[Rank(key) := value]
      ensures old(Ample()) && EntryFine(key, value, txn.capacity) ==> Placed(st, split, sep, right)
    {
      ghost var t := tree;
      ValidIsSorted(n);
      var n', i := LeafPut(n, key, value);
      LeafWithIs(n, n', i, key, value);
      ghost var t1 := LeafPutStep(t, p, n', Rank(key), value);
      tree := t1;
      if Ample() && EntryFine(key, value, txn.capacity) {
        RoomyNode(t.nodes, p, txn.capacity);
        LeafStorable(n, n', i, key, value, txn.capacity);
      }
      st, split, sep, right := Settle(p, n');
      if st == Ok { GrownAfter(t, t1, tree, p, split, sep, right); }
    }

    /** Puts one entry below page p, which is where the key belongs. */
    method InsertRecursive(p: PageId, key: Bytes, value: Bytes, depth: nat)
      returns (st: Status, split: bool, sep: Bytes, right: PageId)
      requires Books(0) && Held(tree, 0) && p in tree.nodes
      requires tree.spans[p].lo <= Rank(key) < tree.spans[p].hi
      requires depth + tree.spans[p].height < MAX_DEPTH
      modifies this`items, this`tree, txn
      ensures Benign(st) && txn.next <= txn.limit && old(txn.taken) <= txn.taken
      ensures Follows(Insertion(old(tree).nodes, p, key, value, depth, txn.capacity, old(Supply())), st, split, sep,
        right, tree.nodes, Supply())
      ensures st == Ok ==> p in items
      ensures st == Ok ==> Books(0) && Grown(old(tree), tree, p, split, sep, right)
      ensures st == Ok ==> tree.held == old(tree).held[Rank(key) := value]
      ensures old(Ample()) && EntryFine(key, value, txn.capacity) ==> Placed(st, split, sep, right)
      decreases MAX_DEPTH - depth
    {
      split, sep, right := false, [], 0;
      if depth >= MAX_DEPTH { st := Corrupt; return; }
      var n;
      st, n := ReadNode(p);
      if st != Ok { return; }
      if n.kind == Leaf {
        InsertionAtLeaf(tree.nodes, p, key, value, depth, txn.capacity, Supply());
        st, split, sep, right := InsertLeaf(p, n, key, value);
      } else {
        ghost var t := tree;
        ValidIsSorted(n);
        var i := Route(n.entries, key);
        InsertionAbove(tree.nodes, p, i, key, value, depth, txn.capacity, Supply());
        var child := ChildAt(n, i);
        RouteStep(t, p, n, i, Rank(key));
        var childSplit, childSep, childRight;
        ghost var below := Insertion(tree.nodes, child, key, value, depth + 1, txn.capacity, Supply());
        StopsBad(tree.nodes, child, key, value, depth + 1, txn.capacity, Supply());
        st, childSplit, childSep, childRight := InsertRecursive(child, key, value, depth + 1);
        FollowsUp(t.nodes, p, i, txn.capacity, below, st, childSplit, childSep, childRight, tree.nodes, Supply());
        if st != Ok { return; }
        st, split, sep, right := SettleAbove(t, p, n, i, childSplit, childSep, childRight);
      }
    }

    /** Stores the parent of child i, which has just grown. */
    method SettleAbove(ghost t: Tree, p: PageId, n: Node, i: nat, childSplit: bool, childSep: Bytes, childRight: PageId)
      returns (st: Status, split: bool, sep: Bytes, right: PageId)
      requires Books(0) && Held(t, 0) && p in t.nodes && n == t.nodes[p] && n.kind == Internal && n.entries != []
      requires NodeValid(n) && EncodedSize(n) <= txn.capacity && Sorted(n.entries) && i <= |n.entries|
      requires KidOf(t, p, n, i) && Grown(t, tree, ChildAt(n, i), childSplit, childSep, childRight)
      modifies this`items, this`tree, txn
      ensures Benign(st) && txn.next <= txn.limit && old(txn.taken) <= txn.taken
      ensures var n' := if childSplit then WithChild(n, i, childSep, childRight) else n;
        Follows(StoreGrown(old(tree).nodes, p, n', txn.capacity, old(Supply())), st, split, sep, right, tree.nodes,
          Supply())
      ensures st == Ok ==> p in items
      ensures st == Ok ==> Books(0) && Grown(t, tree, p, split, sep, right) && tree.held == old(tree).held
      ensures old(Placed(Ok, childSplit, childSep, childRight)) ==> Placed(st, split, sep, right)
    {
      ghost var t1 := tree;
      ChildStored(t, t1, p, n, i, childSplit, childSep, childRight);
      var n' := if childSplit then n.(entries := Inserted(n.entries, i, Entry(childSep, [], childRight))) else n;
      if Placed(Ok, childSplit, childSep, childRight) {
        RoomyNode(t1.nodes, p, txn.capacity);
        InnerStorable(n, i, childSplit, childSep, childRight, txn.capacity);
      }
      st, split, sep, right := Settle(p, n');
      if st == Ok { GrownAfter(t, t1, tree, p, split, sep, right); }
    }

    /** Splitting the root: its left part moves to a new page, the root page joins both parts. */
    method GrowTree(sep: Bytes, right: PageId) returns (st: Status)
      requires Books(0) && Held(tree, 0) && root in items && root in tree.nodes
      requires tree.views[0] == InnerView(root, map[Rank(sep) := right])
      modifies this`items, this`tree, txn
      ensures Benign(st) && txn.next <= txn.limit && old(txn.taken) <= txn.taken
      ensures Follows(RootHalved(Outcome(old(tree).nodes, Halves(sep, right), old(Supply())), root, txn.capacity), st,
        false, [], 0, tree.nodes, Supply())
      ensures st == Ok ==> Books(0) && Rooted(tree, root) && Dirty() && tree.held == old(tree).held
      ensures old(Ample()) && SepFine(sep, right, txn.capacity) ==> Placed(st, false, [], 0)
    {
      ghost var t := tree;
      if Ample() { RoomyNode(t.nodes, root, txn.capacity); }
      var leftPage, newRoot;
      st, leftPage, newRoot := StoreRoot(sep, right);
      if st != Ok { return; }
      ghost var t1 := GrowRootStep(t, root, newRoot, sep, right, leftPage);
      Adopt(t1);
    }

    /** Stores the left part of the root in a new page, and the root over both parts. */
    method StoreRoot(sep: Bytes, right: PageId) returns (st: Status, leftPage: PageId, newRoot: Node)
      requires Books(0) && root in items && root in tree.nodes && root != 0
      modifies this`items, this`tree, txn
      ensures Benign(st) && txn.next <= txn.limit && old(txn.taken) <= txn.taken
      ensures Follows(RootHalved(Outcome(old(tree).nodes, Halves(sep, right), old(Supply())), root, txn.capacity), st,
        false, [], 0, tree.nodes, Supply())
      ensures st == Ok ==> Books(0) && root in items && leftPage !in old(tree).nodes && leftPage != 0
      ensures st == Ok ==> newRoot == Node(Internal, 0, leftPage, [Entry(sep, [], right)])
      ensures st == Ok ==>
        tree == old(tree).(nodes := old(tree).nodes[leftPage := old(tree).nodes[root]][root := newRoot])
      ensures old(Ample()) && Roomy(old(tree).nodes[root], txn.capacity) && SepFine(sep, right, txn.capacity) ==>
        Placed(st, false, [], 0)
    {
      leftPage, newRoot := 0, Node(Internal, 0, 0, []);
      if root !in items { st := InternalError; return; }
      var left := items[root];
      st, leftPage := Grab();
      if st != Ok { return; }
      st := Stage(leftPage, left, leftPage);
      if st != Ok { return; }
      newRoot := Node(Internal, 0, leftPage, [Entry(sep, [], right)]);
      if SepFine(sep, right, txn.capacity) { RootFine(leftPage, sep, right, txn.capacity); }
      st := Stage(root, newRoot, 0);
    }

    method PutTree(key: Bytes, value: Bytes) returns (st: Status)
      requires Valid()
      modifies this`items, this`tree, txn
      ensures Benign(st) && txn.next <= txn.limit && old(txn.taken) <= txn.taken
      ensures Follows(PutOutcome(old(tree).nodes, root, key, value, txn.capacity, old(Supply())), st, false, [], 0,
        tree.nodes, Supply())
      ensures st == Ok ==> Books(0) && Rooted(tree, root) && Dirty() && tree.held == old(tree).held[Rank(key) := value]
      ensures old(Ample()) && EntryFine(key, value, txn.capacity) ==> Placed(st, false, [], 0)
    {
      RootSpan(tree, root);
      HeightBound(tree, root, txn.capacity, txn.chain, txn.next);
      ghost var t := tree;
      ghost var o := Insertion(tree.nodes, root, key, value, 0, txn.capacity, Supply());
      StopsBad(tree.nodes, root, key, value, 0, txn.capacity, Supply());
      var split, sep, right;
      st, split, sep, right := InsertRecursive(root, key, value, 0);
      if st == Ok { RootKept(t, tree, root, split, sep, right); }
      FollowsRoot(o, root, txn.capacity, st, split, sep, right, tree.nodes, Supply());
      if st == Ok {
        if split {
          st := GrowTree(sep, right);
        }
      }
    }

    /** Puts one entry. */
    method Put(key: Bytes, value: Bytes) returns (st: Status)
      requires failure == Ok ==> Valid()
      modifies this`items, this`tree, this`contents, this`failure, txn
      ensures failure == Ok ==> Valid()
      ensures Benign(st)
      ensures st == Ok ==> contents == old(contents)[key := value] && failure == Ok
      ensures st != Ok ==> contents == old(contents)
      ensures old(failure) != Ok || !(0 < |key| <= MAX_KEY) || |value| > MAX_VALUE ==>
        st == InvalidArgument && unchanged(this)
      ensures old(failure) == Ok && 0 < |key| <= MAX_KEY && |value| <= MAX_VALUE ==> failure == st
      ensures old(failure) == Ok && 0 < |key| <= MAX_KEY && |value| <= MAX_VALUE ==>
        txn.next <= txn.limit && Follows(PutOutcome(old(tree).nodes, root, key, value, txn.capacity, old(Supply())), st,
          false, [], 0, tree.nodes, Supply())
      ensures st == Overflow ==> txn.chain == [] && txn.next == txn.limit
      ensures st == Ok ==> NoNewEmpty(old(tree).nodes, tree.nodes)
      ensures st == Ok ==> Tidier(old(tree).nodes, old(txn.taken), tree.nodes, txn.taken, root)
      ensures old(failure == Ok && Ample()) && EntryFine(key, value, txn.capacity) ==> Placed(st, false, [], 0)
    {
      if failure != Ok || key == [] || |key| > MAX_KEY || |value| > MAX_VALUE { return InvalidArgument; }
      st := PutEntry(key, value);
    }

    method PutEntry(key: Bytes, value: Bytes) returns (st: Status)
      requires failure == Ok && Valid()
      modifies this`items, this`tree, this`contents, this`failure, txn
      ensures failure == Ok ==> Valid()
      ensures Benign(st) && failure == st && txn.next <= txn.limit
      ensures contents == if st == Ok then old(contents)[key := value] else old(contents)
      ensures Follows(PutOutcome(old(tree).nodes, root, key, value, txn.capacity, old(Supply())), st, false, [], 0,
        tree.nodes, Supply())
      ensures st == Overflow ==> txn.chain == [] && txn.next == txn.limit
      ensures st == Ok ==> NoNewEmpty(old(tree).nodes, tree.nodes)
      ensures st == Ok ==> Tidier(old(tree).nodes, old(txn.taken), tree.nodes, txn.taken, root)
      ensures old(Ample()) && EntryFine(key, value, txn.capacity) ==> Placed(st, false, [], 0)
    {
      RanksPut(contents, tree.held, key, value);
      ghost var t, supply, taken := tree, Supply(), txn.taken;
      st := PutTree(key, value);
      PutMeans(t, root, key, value, txn.capacity, supply, st, tree.nodes, txn.chain, txn.next, txn.limit, taken,
        txn.taken);
      Conclude(st, contents[key := value]);
    }

    /** Remembers how an operation ended and what the tree stands for. */
    method Conclude(st: Status, ghost changed: map<Bytes, Bytes>)
      requires st == Ok ==> Books(0) && Rooted(tree, root) && Dirty() && RanksOf(changed, tree.held)
      modifies this`contents, this`failure
      ensures failure == st && contents == (if st == Ok then changed else old(contents))
      ensures st == Ok ==> Valid()
    {
      failure := st;
      if st == Ok { contents := changed; }
    }

    // -------------------------------------------------------------- deleting

    /** A page has one child left: it is joined with a sibling, or takes some of its children. */
    method ReclaimInternal(lone: PageId, child: PageId, pages: seq<PageId>, slots: seq<nat>, depth: nat)
        returns (st: Status)
      requires Books(0) && Climbing(tree, root, lone, child, pages, slots, depth)
      modifies this`items, this`tree, txn
      ensures Benign(st)
      ensures st == Ok ==> Books(0) && Rooted(tree, root) && Dirty() && tree.held == old(tree).held
      ensures st == Ok ==> Shrunk(old(tree).nodes, old(txn.taken), tree.nodes, txn.taken, root)
      ensures st == Ok ==> txn.next == old(txn.next)
      ensures st == Ok && old(Ample()) ==> Ample()
      ensures txn.capacity <= MAX_CAPACITY ==>
        st == if old(Refused(tree.nodes, root, child, pages, slots, depth, txn.capacity)) then BufferTooSmall else Ok
      decreases depth, 1
    {
      ClimbStep(tree, root, lone, child, pages, slots, depth, txn.capacity);
      if lone == 0 || child == 0 { st := Corrupt; return; }
      var parentPage, slot := pages[depth - 1], slots[depth - 1];
      if parentPage == 0 || parentPage == lone { st := Corrupt; return; }
      var parent, sibling;
      st, parent := ReadNode(parentPage);
      if st != Ok { return; }
      if parent.kind != Internal || slot > |parent.entries| || parent.entries == [] { st := Corrupt; return; }
      var siblingPage := ChildAt(parent, SiblingSlot(slot));
      if siblingPage == lone || siblingPage == 0 || siblingPage == parentPage || child == parentPage
        || child == siblingPage {
        st := Corrupt; return;
      }
      st, sibling := ReadNode(siblingPage);
      if st != Ok { return; }
      if sibling.kind != Internal { st := Corrupt; return; }
      var combined := Fused(parent, slot, child, sibling);
      FusedSorted(tree, lone, child, parentPage, slot, siblingPage);
      if txn.capacity <= MAX_CAPACITY { FusedValid(parent, slot, child, sibling, txn.capacity); }
      LevelHolds(tree, lone, root, pages, slots, depth, lone, depth - 1, txn.capacity);
      if !NodeValid(combined) { st := InvalidArgument; return; }
      if EncodedSize(combined) <= txn.capacity {
        st := MergeInternal(lone, child, pages, slots, depth, parent, siblingPage, combined);
      } else {
        st := ShareInternal(lone, child, parentPage, slot, parent, siblingPage, combined);
      }
    }

    method MergeInternal(lone: PageId, child: PageId, pages: seq<PageId>, slots: seq<nat>, depth: nat,
                         parent: Node, siblingPage: PageId, combined: Node) returns (st: Status)
      requires Books(0) && Climbing(tree, root, lone, child, pages, slots, depth)
      requires pages[depth - 1] in tree.nodes && parent == tree.nodes[pages[depth - 1]] && pages[depth - 1] != lone
      requires Fusable(tree, lone, child, pages[depth - 1], slots[depth - 1], siblingPage)
      requires combined == Fused(parent, slots[depth - 1], child, tree.nodes[siblingPage])
      requires NodeValid(combined) && EncodedSize(combined) <= txn.capacity
      modifies this`items, this`tree, txn
      ensures Benign(st)
      ensures st == Ok ==> Books(0) && Rooted(tree, root) && Dirty() && tree.held == old(tree).held
      ensures st == Ok ==> Shrunk(old(tree).nodes, old(txn.taken), tree.nodes, txn.taken, root)
      ensures st == Ok ==> txn.next == old(txn.next)
      ensures st == Ok && old(Ample()) ==> Ample()
      ensures txn.capacity <= MAX_CAPACITY ==>
        st == if |parent.entries| == 1 && pages[depth - 1] != root
          && Refused(old(tree).nodes, root, siblingPage, pages, slots, depth - 1, txn.capacity)
        then BufferTooSmall else Ok
      decreases depth, 0
    {
      ghost var t := tree;
      var above, slot := pages[depth - 1], slots[depth - 1];
      ghost var t1 := FuseStep(t, lone, child, above, slot, siblingPage);
      var rest := WithoutChild(parent, slot);
      ClimbOn(t, t1, root, lone, rest, pages, slots, depth);
      if Ample() { FusedAll(t.nodes, above, slot, child, siblingPage, txn.capacity); }
      RestFits(parent, slot);
      RefusedAbove(t, t1, root, lone, siblingPage, pages, slots, depth, txn.capacity);
      if above == root && |parent.entries| == 1 {
        st := MergeRoot(lone, siblingPage, combined, rest, t1);
        return;
      }
      ghost var taken := txn.taken;
      st := StoreMerged(siblingPage, combined, lone);
      if st != Ok { return; }
      ghost var taken1 := txn.taken;
      Adopt(t1);
      if |rest.entries| > 0 {
        st := StoreRest(above, rest);
      } else {
        st := ReclaimInternal(above, rest.first, pages, slots, depth - 1);
      }
      if st == Ok { ShrunkStill(t.nodes, taken, t1.nodes, taken1, tree.nodes, txn.taken, root); }
    }

    /** The last two children of the root become the root. */
    method MergeRoot(lone: PageId, siblingPage: PageId, combined: Node, ghost rest: Node, ghost t1: Tree)
        returns (st: Status)
      requires Books(0) && lone in tree.nodes && siblingPage in tree.nodes && root in tree.nodes
        && combined.entries != [] && combined.kind == Internal
      requires Lifted(tree, t1, root, rest) && t1.nodes == tree.nodes[siblingPage := combined] - {lone}
      requires root != lone && root != siblingPage && siblingPage != lone
      requires rest.kind == Internal && rest.entries == [] && rest.first == siblingPage
      requires 0 in t1.views && t1.views[0] == InnerView(root, map[])
      modifies this`items, this`tree, txn
      ensures Benign(st)
      ensures st == Ok ==> Books(0) && Rooted(tree, root) && Dirty() && tree.held == old(tree).held
      ensures st == Ok ==> Shrunk(old(tree).nodes, old(txn.taken), tree.nodes, txn.taken, root)
      ensures st == Ok ==> txn.next == old(txn.next)
      ensures st == Ok && old(Ample()) && Roomy(combined, txn.capacity) ==> Ample()
      ensures NodeValid(combined) && EncodedSize(combined) <= txn.capacity ==> st == Ok
    {
      ghost var t2 := FusedRoot(tree, t1, root, lone, siblingPage, combined, rest);
      ghost var nodes, taken := tree.nodes, txn.taken;
      st := StoreMerged(root, combined, lone);
      if st != Ok { return; }
      ghost var nodes1, taken1 := tree.nodes, txn.taken;
      st := Release(siblingPage);
      ShrunkDrop(nodes1, taken1, siblingPage, txn.taken, root);
      ShrunkStill(nodes, taken, nodes1, taken1, tree.nodes, txn.taken, root);
      if st == Ok { Adopt(t2); }
    }

    method StoreMerged(target: PageId, combined: Node, lone: PageId) returns (st: Status)
      requires Books(0) && target in tree.nodes && lone in tree.nodes && combined.entries != []
        && combined.kind == Internal
      modifies this`items, this`tree, txn
      ensures Benign(st)
      ensures st == Ok ==> Books(0) && tree == old(tree).(nodes := old(tree).nodes[target := combined] - {lone})
      ensures st == Ok ==> items == old(items)[target := combined] - {lone}
      ensures st == Ok ==> Shrunk(old(tree).nodes, old(txn.taken), tree.nodes, txn.taken, root)
      ensures st == Ok ==> txn.next == old(txn.next)
      ensures st == Ok && old(Ample()) && Roomy(combined, txn.capacity) ==> Ample()
      ensures NodeValid(combined) && EncodedSize(combined) <= txn.capacity ==> st == Ok
    {
      ghost var nodes, taken := tree.nodes, txn.taken;
      ShrunkPut(nodes, taken, target, combined, root);
      st := Stage(target, combined, 0);
      if st != Ok { return; }
      st := Release(lone);
      ShrunkDrop(nodes[target := combined], taken, lone, txn.taken, root);
      ShrunkStill(nodes, taken, nodes[target := combined], taken, tree.nodes, txn.taken, root);
    }

    /** Stores the node of a parent that has lost a child. */
    method StoreRest(above: PageId, rest: Node) returns (st: Status)
      requires Books(0) && Held(tree, above) && above in tree.nodes && tree.views[above] == ViewOf(rest)
        && rest.entries != [] && rest.kind == Internal
      requires root in tree.nodes && tree.views[0] == InnerView(root, map[])
      modifies this`items, this`tree
      ensures Benign(st)
      ensures st == Ok ==> Books(0) && Rooted(tree, root) && Dirty() && tree.held == old(tree).held
      ensures st == Ok ==> Shrunk(old(tree).nodes, old(txn.taken), tree.nodes, txn.taken, root)
      ensures st == Ok ==> txn.next == old(txn.next)
      ensures st == Ok && old(Ample()) && Roomy(rest, txn.capacity) ==> Ample()
      ensures NodeValid(rest) && EncodedSize(rest) <= txn.capacity ==> st == Ok
    {
      StoredNow(tree, above, rest);
      ShrunkPut(tree.nodes, txn.taken, above, rest, root);
      st := Stage(above, rest, 0);
    }

    method ShareInternal(lone: PageId, child: PageId, above: PageId, slot: nat,
                         parent: Node, siblingPage: PageId, combined: Node) returns (st: Status)
      requires Books(0) && Held(tree, lone) && lone in tree.nodes && root in tree.nodes
        && tree.views[0] == InnerView(root, map[])
      requires above in tree.nodes && parent == tree.nodes[above] && above != lone
      requires Fusable(tree, lone, child, above, slot, siblingPage)
      requires combined == Fused(parent, slot, child, tree.nodes[siblingPage])
      requires NodeValid(combined) && EncodedSize(combined) > txn.capacity
      modifies this`items, this`tree, txn
      ensures Benign(st)
      ensures st == Ok ==> Books(0) && Rooted(tree, root) && Dirty() && tree.held == old(tree).held
      ensures st == Ok ==> Shrunk(old(tree).nodes, old(txn.taken), tree.nodes, txn.taken, root)
      ensures st == Ok ==> txn.next == old(txn.next)
      ensures st == Ok && old(Ample()) ==> Ample()
      ensures st == if Shareable(parent, slot, combined, txn.capacity) then Ok else BufferTooSmall
    {
      ghost var t := tree;
      FusedNeighbours(t, lone, child, above, slot, siblingPage);
      var middle := InnerSplitPoint(combined, txn.capacity);
      ShareDecided(parent, slot, combined, middle, txn.capacity);
      if middle == 0 { st := BufferTooSmall; return; }
      var j := SepSlot(slot);
      var left, right := if slot >= 1 then siblingPage else lone, if slot >= 1 then lone else siblingPage;
      var lower := combined.(entries := combined.entries[..middle]);
      var upper := combined.(first := combined.entries[middle].right, entries := combined.entries[middle + 1..]);
      if Ample() { SharedAll(t.nodes, above, slot, child, siblingPage, middle, j, txn.capacity); }
      ghost var t1 := SharedTree(t, lone, child, above, slot, siblingPage, middle);
      HalvesFit(combined, middle, txn.capacity);
      NewKeyValid(parent, j, combined.entries[middle].key);
      st := StoreShared(left, lower, right, upper, above, WithKey(parent, j, combined.entries[middle].key));
      if st == Ok { Adopt(t1); }
    }

    method StoreShared(left: PageId, lower: Node, right: PageId, upper: Node, above: PageId, parent: Node)
        returns (st: Status)
      requires Books(0) && left in tree.nodes && right in tree.nodes && above in tree.nodes
      requires lower.entries != [] && upper.entries != [] && parent.entries != []
      requires lower.kind == Internal && upper.kind == Internal && parent.kind == Internal
      modifies this`items, this`tree
      ensures Benign(st)
      ensures st == Ok ==> Shrunk(old(tree).nodes, old(txn.taken), tree.nodes, txn.taken, root)
      ensures st == Ok ==> txn.next == old(txn.next)
      ensures st == Ok ==>
        Books(0) && tree == old(tree).(nodes := old(tree).nodes[left := lower][right := upper][above := parent])
        && above in items
      ensures st == Ok && old(Ample()) && Roomy(lower, txn.capacity) && Roomy(upper, txn.capacity) ==>
        (Roomy(parent, txn.capacity) ==> Ample())
      ensures
        && NodeValid(lower) && EncodedSize(lower) <= txn.capacity
        && NodeValid(upper) && EncodedSize(upper) <= txn.capacity && NodeValid(parent) ==>
        st == if EncodedSize(parent) <= txn.capacity then Ok else BufferTooSmall
    {
      SharedShrunk(tree.nodes, txn.taken, left, lower, right, upper, above, parent, root);
      st := Stage(left, lower, 0);
      if st != Ok { return; }
      st := Stage(right, upper, 0);
      if st != Ok { return; }
      st := Stage(above, parent, 0);
    }

    /** The child to the left of the path, on the lowest level that has one; 0 if the leaf is the first. */
    method PageBefore(pages: seq<PageId>, slots: seq<nat>, depth: nat, ghost leaf: PageId)
        returns (st: Status, page: PageId)
      requires Books(0) && Rooted(tree, root) && PathOk(tree, root, pages, slots, depth, leaf)
      ensures st == Ok
      ensures if page == 0 then tree.spans[leaf].lo == 0.0
              else
                && page in tree.nodes && tree.spans[page].hi == tree.spans[leaf].lo
                && tree.spans[page].height <= tree.spans[root].height
    {
      RootSpan(tree, root);
      st, page := Ok, 0;
      var level := depth;
      while level > 0
        invariant 0 <= level <= depth && st == Ok && page == 0
        invariant At(pages, depth, level, leaf) in tree.spans
        invariant tree.spans[At(pages, depth, level, leaf)].lo == tree.spans[leaf].lo
      {
        ghost var before := StepLeft(tree, root, pages, slots, depth, leaf, level - 1, txn.capacity);
        if slots[level - 1] > 0 {
          var n;
          st, n := ReadNode(pages[level - 1]);
          if st != Ok { return; }
          page := ChildAt(n, slots[level - 1] - 1);
          return;
        }
        level := level - 1;
      }
    }

    /** The last leaf below a page. */
    method LastLeaf(start: PageId) returns (st: Status, page: PageId, n: Node)
      requires Books(0) && Rooted(tree, root) && start in tree.nodes && tree.spans[start].height < MAX_DEPTH
      ensures st == Ok && page in tree.nodes && n == tree.nodes[page] && n.kind == Leaf
      ensures tree.spans[page].hi == tree.spans[start].hi
    {
      page := start;
      var hops := 0;
      while true
        invariant page in tree.nodes && tree.spans[page].hi == tree.spans[start].hi
        invariant hops + tree.spans[page].height < MAX_DEPTH
        decreases tree.spans[page].height
      {
        st, n := ReadNode(page);
        if st != Ok { return; }
        if n.kind == Leaf { return; }
        if hops >= MAX_DEPTH { st := Corrupt; return; }
        hops := hops + 1;
        var next := ChildAt(n, |n.entries|);
        ValidIsSorted(n);
        PathKid(tree, 0, page, |n.entries|, next);
        page := next;
      }
    }

    /** Points the leaf before an empty leaf past it. */
    method Relink(next: PageId, pages: seq<PageId>, slots: seq<nat>, depth: nat, ghost leaf: PageId)
        returns (st: Status, ghost before: PageId)
      requires Books(0) && Rooted(tree, root) && PathOk(tree, root, pages, slots, depth, leaf) && leaf in tree.nodes
      requires next == tree.nodes[leaf].next
      modifies this`items, this`tree
      ensures st == Ok && Books(0) && Bypassed(old(tree), tree, leaf, before)
      ensures Shrunk(old(tree).nodes, txn.taken, tree.nodes, txn.taken, root)
      ensures old(Ample()) ==> Ample()
    {
      before := 0;
      ShrunkSame(tree.nodes, txn.taken, root);
      HeightBound(tree, root, txn.capacity, txn.chain, txn.next);
      PageAt(tree.views, tree.spans, tree.held, leaf);
      var page, n;
      st, page := PageBefore(pages, slots, depth, leaf);
      if st != Ok || page == 0 { return; }
      st, page, n := LastLeaf(page);
      if st != Ok { return; }
      before := page;
      PageAt(tree.views, tree.spans, tree.held, page);
      if Ample() { RoomyNode(tree.nodes, page, txn.capacity); RoomyLinked(n, next, txn.capacity); }
      ShrunkPut(tree.nodes, txn.taken, page, n.(next := next), root);
      st := Stage(page, n.(next := next), 0);
    }

    /** Takes an empty leaf out of the tree. */
    method ReclaimLeaf(leaf: PageId, next: PageId, pages: seq<PageId>, slots: seq<nat>, depth: nat) returns (st: Status)
      requires Books(0) && Rooted(tree, root) && PathOk(tree, root, pages, slots, depth, leaf) && depth > 0
      requires leaf in tree.nodes && tree.nodes[leaf].kind == Leaf && tree.nodes[leaf].entries == []
        && next == tree.nodes[leaf].next
      modifies this`items, this`tree, txn
      ensures Benign(st)
      ensures st == Ok ==> Books(0) && Rooted(tree, root) && Dirty() && tree.held == old(tree).held
      ensures st == Ok ==> leaf !in tree.nodes
      ensures st == Ok ==> Shrunk(old(tree).nodes, old(txn.taken), tree.nodes, txn.taken, root)
      ensures st == Ok ==> txn.next == old(txn.next)
      ensures st == Ok && old(Ample()) ==> Ample()
      ensures txn.capacity <= MAX_CAPACITY ==>
        st == if old(DropRefused(tree.nodes, root, pages, slots, depth, txn.capacity)) then BufferTooSmall else Ok
    {
      ghost var t, d := tree, 0;
      st, d := Relink(next, pages, slots, depth, leaf);
      if st != Ok { return; }
      ghost var nodes1, taken := tree.nodes, txn.taken;
      ghost var t1 := Detach(t, tree, root, leaf, d, pages, slots, depth, txn.capacity);
      st := DropLeaf(leaf, pages, slots, depth, t1);
      if st == Ok { ShrunkStill(t.nodes, taken, nodes1, taken, tree.nodes, txn.taken, root); }
    }

    /** Frees the leaf, which no leaf points to any more, and takes it out of its parent. */
    method DropLeaf(leaf: PageId, pages: seq<PageId>, slots: seq<nat>, depth: nat, ghost t1: Tree) returns (st: Status)
      requires Books(0) && Detached(tree, t1, root, leaf, pages, slots, depth)
      modifies this`items, this`tree, txn
      ensures Benign(st)
      ensures st == Ok ==> Books(0) && Rooted(tree, root) && Dirty() && tree.held == old(tree).held
      ensures st == Ok ==> leaf !in tree.nodes
      ensures st == Ok ==> Shrunk(old(tree).nodes, old(txn.taken), tree.nodes, txn.taken, root)
      ensures st == Ok ==> txn.next == old(txn.next)
      ensures st == Ok && old(Ample()) ==> Ample()
      ensures txn.capacity <= MAX_CAPACITY ==>
        var rest := WithoutChild(old(tree).nodes[pages[depth - 1]], slots[depth - 1]);
        st == if rest.entries == [] && pages[depth - 1] != root
          && Refused(t1.nodes, root, rest.first, pages, slots, depth - 1, txn.capacity)
        then BufferTooSmall else Ok
    {
      var above, slot := pages[depth - 1], slots[depth - 1];
      var parent;
      st, parent := ReadNode(above);
      if st != Ok { return; }
      if parent.kind != Internal || parent.entries == [] || slot > |parent.entries| { st := Corrupt; return; }
      var rest := WithoutChild(parent, slot);
      if Ample() { RestAll(tree.nodes, above, slot, txn.capacity); }
      RestFits(parent, slot);
      ghost var nodes, taken := tree.nodes, txn.taken;
      st := Release(leaf);
      if st != Ok { return; }
      ghost var taken1 := txn.taken;
      ShrunkDrop(nodes, taken, leaf, taken1, root);
      Adopt(t1);
      st := AfterDrop(above, rest, pages, slots, depth);
      if st == Ok { ShrunkGone(nodes, taken, leaf, taken1, tree.nodes, txn.taken, root); }
    }

    /** Settles the parent of a leaf that has gone. */
    method AfterDrop(above: PageId, rest: Node, pages: seq<PageId>, slots: seq<nat>, depth: nat) returns (st: Status)
      requires Books(0) && Held(tree, above) && above in tree.nodes && tree.views[above] == ViewOf(rest)
        && rest.kind == Internal
      requires root in tree.nodes && tree.views[0] == InnerView(root, map[]) && depth > 0
      requires rest.entries == [] && above != root ==> Climbing(tree, root, above, rest.first, pages, slots, depth - 1)
      modifies this`items, this`tree, txn
      ensures Benign(st)
      ensures st == Ok ==> Books(0) && Rooted(tree, root) && Dirty() && tree.held == old(tree).held
      ensures st == Ok ==> Shrunk(old(tree).nodes, old(txn.taken), tree.nodes, txn.taken, root)
      ensures st == Ok ==> txn.next == old(txn.next)
      ensures st == Ok && old(Ample()) && Roomy(rest, txn.capacity) ==> Ample()
      ensures txn.capacity <= MAX_CAPACITY && NodeValid(rest) && EncodedSize(rest) <= txn.capacity ==>
        st == if rest.entries == [] && above != root
          && old(Refused(tree.nodes, root, rest.first, pages, slots, depth - 1, txn.capacity))
        then BufferTooSmall else Ok
    {
      LoneView(rest.first);
      if rest.entries != [] {
        st := StoreRest(above, rest);
      } else if above == root {
        st := CollapseRoot(rest.first);
      } else if depth >= 2 {
        st := ReclaimInternal(above, rest.first, pages, slots, depth - 1);
      } else {
        st := Corrupt;
      }
    }

    /** The only child of the root becomes the root. */
    method CollapseRoot(childPage: PageId) returns (st: Status)
      requires Books(0) && Held(tree, root) && root in tree.nodes && tree.views[0] == InnerView(root, map[])
      requires tree.views[root] == InnerView(childPage, map[])
      modifies this`items, this`tree, txn
      ensures Benign(st)
      ensures st == Ok ==> Books(0) && Rooted(tree, root) && Dirty() && tree.held == old(tree).held
      ensures st == Ok ==> Shrunk(old(tree).nodes, old(txn.taken), tree.nodes, txn.taken, root)
      ensures st == Ok ==> txn.next == old(txn.next)
      ensures st == Ok && old(Ample()) ==> Ample()
      ensures st == Ok
    {
      ghost var t1 := CollapseStep(tree, root, childPage);
      var child;
      st, child := ReadNode(childPage);
      if st != Ok { return; }
      if Ample() { RoomyNode(tree.nodes, childPage, txn.capacity); RoomyLinked(child, 0, txn.capacity); }
      if child.kind == Leaf { child := child.(next := 0); }
      ghost var nodes, taken := tree.nodes, txn.taken;
      st := Release(childPage);
      if st != Ok { return; }
      ghost var taken1 := txn.taken;
      ShrunkDrop(nodes, taken, childPage, taken1, root);
      ShrunkPut(nodes - {childPage}, taken1, root, child, root);
      st := Stage(root, child, 0);
      ShrunkStill(nodes, taken, nodes - {childPage}, taken1, tree.nodes, taken1, root);
      if st == Ok { Adopt(t1); }
    }

    /** Walks down to the leaf where the key belongs and remembers the way. */
    method Descend(key: Bytes) returns (st: Status, page: PageId, n: Node, pages: seq<PageId>, slots: seq<nat>)
      requires Books(0) && Rooted(tree, root)
      ensures st == Ok && page in tree.nodes && n == tree.nodes[page] && n.kind == Leaf && |slots| == |pages|
      ensures tree.spans[page].lo <= Rank(key) < tree.spans[page].hi
      ensures PathOk(tree, root, pages, slots, |pages|, page)
      ensures Routed(tree.nodes, root, key, pages, slots, page)
    {
      RootSpan(tree, root);
      HeightBound(tree, root, txn.capacity, txn.chain, txn.next);
      page, pages, slots := root, [], [];
      while true
        invariant page in tree.nodes && tree.spans[page].lo <= Rank(key) < tree.spans[page].hi
        invariant |slots| == |pages| && PathOk(tree, root, pages, slots, |pages|, page)
        invariant |pages| + tree.spans[page].height < MAX_DEPTH && RoutedTo(tree.nodes, root, key, pages, slots, page)
        decreases tree.spans[page].height
      {
        st, n := ReadNode(page);
        if st != Ok { return; }
        if n.kind == Leaf { return; }
        ValidIsSorted(n);
        var i := Route(n.entries, key);
        if |pages| >= MAX_DEPTH { st := Corrupt; return; }
        var c := ChildAt(n, i);
        RouteStep(tree, page, n, i, Rank(key));
        PathDown(tree, root, pages, slots, page, i, c);
        RoutedOn(tree.nodes, root, key, pages, slots, page, i, c);
        page, pages, slots := c, pages + [page], slots + [i];
      }
    }

    /** Removes one entry from a leaf, and the leaf with it when it runs empty. */
    method RemoveFromLeaf(page: PageId, n: Node, i: nat, pages: seq<PageId>, slots: seq<nat>) returns (st: Status)
      requires Books(0) && Rooted(tree, root) && page in tree.nodes && n == tree.nodes[page] && n.kind == Leaf
        && i < |n.entries|
      requires tree.spans[page].lo <= Rank(n.entries[i].key) < tree.spans[page].hi
      requires |slots| == |pages| && PathOk(tree, root, pages, slots, |pages|, page)
      modifies this`items, this`tree, txn
      ensures Benign(st)
      ensures st == Ok ==>
        Books(0) && Rooted(tree, root) && Dirty() && tree.held == old(tree).held - {Rank(n.entries[i].key)}
      ensures st == Ok ==> txn.next == old(txn.next)
      ensures st == Ok ==> DeletedFrom(old(tree).nodes, old(txn.taken), tree.nodes, txn.taken, root, page,
        n.entries[i].key)
      ensures st == Ok && old(Ample()) ==> Ample()
      ensures txn.capacity <= MAX_CAPACITY ==>
        st == if |n.entries| == 1 && page !in old(txn.taken)
          && DropRefused(old(tree).nodes, root, pages, slots, |pages|, txn.capacity)
        then BufferTooSmall else Ok
    {
      ghost var t := tree;
      ValidIsSorted(n);
      var rest;
      st, rest := RemoveEntry(page, n, i);
      if st != Ok { return; }
      if |pages| > 0 { LeafChanged(t, tree, root, page, rest, pages, slots, |pages|, txn.capacity); }
      var a := txn.FindTaken(page);
      var goes := |pages| > 0 && page != root && a == |txn.taken| && rest.entries == [];
      ghost var nodes1, taken := tree.nodes, txn.taken;
      GoesIs(t.nodes, taken, root, pages, slots, page, n, i, rest, goes);
      if goes {
        PathAfterRemove(t, tree, root, pages, slots, page, rest);
        st := ReclaimLeaf(page, rest.next, pages, slots, |pages|);
      }
      if st == Ok { DeletedIs(t.nodes, taken, nodes1, tree.nodes, txn.taken, root, page, n.entries[i].key, goes); }
    }

    method RemoveEntry(page: PageId, n: Node, i: nat) returns (st: Status, rest: Node)
      requires Books(0) && Rooted(tree, root) && page in tree.nodes && n == tree.nodes[page] && n.kind == Leaf
        && i < |n.entries|
      requires tree.spans[page].lo <= Rank(n.entries[i].key) < tree.spans[page].hi
      modifies this`items, this`tree
      ensures st == Ok && Books(0) && Rooted(tree, root) && Dirty()
      ensures rest == n.(entries := Removed(n.entries, i)) && LeafStored(old(tree), tree, page, rest)
      ensures tree.held == old(tree).held - {Rank(n.entries[i].key)}
      ensures old(Ample()) ==> Ample()
    {
      ValidIsSorted(n);
      LeafRemoved(n, i);
      rest := n.(entries := Removed(n.entries, i));
      ghost var t1 := LeafRemoveStep(tree, page, rest, Rank(n.entries[i].key));
      if Ample() { RoomyNode(tree.nodes, page, txn.capacity); RemovedRoomy(n, i, txn.capacity); }
      RemovedFits(n, i);
      st := Stage(page, rest, 0);
      if st != Ok { return; }
      Adopt(t1);
    }

    method DeleteTree(key: Bytes) returns (st: Status)
      requires Valid()
      modifies this`items, this`tree, txn
      ensures Benign(st) || st == NotFound
      ensures st == NotFound <==> Rank(key) !in old(tree).held
      ensures st == NotFound ==> unchanged(this) && unchanged(txn)
      ensures st == Ok ==> Books(0) && Rooted(tree, root) && Dirty() && tree.held == old(tree).held - {Rank(key)}
      ensures st == Ok ==> Cleared(old(tree).nodes, old(txn.taken), tree.nodes, txn.taken, txn.chain, root, key)
      ensures st == Ok ==> Tidier(old(tree).nodes, old(txn.taken), tree.nodes, txn.taken, root)
      ensures st == Ok ==> forall p :: p in txn.taken ==> p in old(txn.taken)
      ensures st == Ok && old(Ample()) ==> Ample()
      ensures txn.capacity <= MAX_CAPACITY && Rank(key) in old(tree).held ==>
        st == if old(DeleteRefused(tree.nodes, root, txn.taken, key, txn.capacity)) then BufferTooSmall else Ok
    {
      var page, n, pages, slots;
      st, page, n, pages, slots := Descend(key);
      if st != Ok { return; }
      ValidIsSorted(n);
      var found, i := FindInLeaf(page, n, key);
      if !found { st := NotFound; return; }
      DeleteDecided(tree.nodes, root, txn.taken, key, pages, slots, page, txn.capacity);
      ghost var nodes, taken, chain := tree.nodes, txn.taken, txn.chain;
      PlaceIs(n.entries, i, Rank(key));
      st := RemoveFromLeaf(page, n, i, pages, slots);
      if st == Ok {
        DeletedCleared(nodes, taken, tree.nodes, txn.taken, chain, txn.chain, txn.next, root, key, pages, slots, page);
        DeletedTidier(nodes, taken, tree.nodes, txn.taken, root, page, key);
      }
    }

    method DeleteEntry(key: Bytes) returns (st: Status)
      requires failure == Ok && Valid()
      modifies this`items, this`tree, this`contents, this`failure, txn
      ensures failure == Ok ==> Valid()
      ensures Benign(st) || st == NotFound
      ensures st == NotFound <==> key !in old(contents)
      ensures st == NotFound ==> unchanged(this) && unchanged(txn)
      ensures contents == if st == Ok then old(contents) - {key} else old(contents)
      ensures st != NotFound ==> failure == st
      ensures st == Ok ==> Cleared(old(tree).nodes, old(txn.taken), tree.nodes, txn.taken, txn.chain, root, key)
      ensures st == Ok ==> Tidier(old(tree).nodes, old(txn.taken), tree.nodes, txn.taken, root)
      ensures st == Ok ==> forall p :: p in txn.taken ==> p in old(txn.taken)
      ensures st == Ok && old(Ample()) ==> Ample()
      ensures txn.capacity <= MAX_CAPACITY && key in old(contents) ==>
        st == if old(DeleteRefused(tree.nodes, root, txn.taken, key, txn.capacity)) then BufferTooSmall else Ok
    {
      RanksHas(contents, tree.held, key);
      RanksDrop(contents, tree.held, key);
      st := DeleteTree(key);
      if st == NotFound { return; }
      Conclude(st, contents - {key});
    }

    /** Deletes one entry. */
    method Delete(key: Bytes) returns (st: Status)
      requires failure == Ok ==> Valid()
      modifies this`items, this`tree, this`contents, this`failure, txn
      ensures failure == Ok ==> Valid()
      ensures Benign(st) || st == NotFound
      ensures old(failure) != Ok || !(0 < |key| <= MAX_KEY) ==>
        st == InvalidArgument && unchanged(this) && unchanged(txn)
      ensures old(failure) == Ok && 0 < |key| <= MAX_KEY ==> (st == NotFound <==> key !in old(contents))
      ensures st == NotFound ==> unchanged(this) && unchanged(txn)
      ensures st == Ok ==> contents == old(contents) - {key} && failure == Ok
      ensures st != Ok ==> contents == old(contents)
      ensures old(failure) == Ok && 0 < |key| <= MAX_KEY && st != NotFound ==> failure == st
      ensures st == Ok ==> Cleared(old(tree).nodes, old(txn.taken), tree.nodes, txn.taken, txn.chain, root, key)
      ensures st == Ok ==> Tidier(old(tree).nodes, old(txn.taken), tree.nodes, txn.taken, root)
      ensures st == Ok ==> forall p :: p in txn.taken ==> p in old(txn.taken)
      ensures st == Ok && old(Ample()) ==> Ample()
      ensures old(failure) == Ok && 0 < |key| <= MAX_KEY && txn.capacity <= MAX_CAPACITY && key in old(contents) ==>
        st == if old(DeleteRefused(tree.nodes, root, txn.taken, key, txn.capacity)) then BufferTooSmall else Ok
    {
      if failure != Ok || key == [] || |key| > MAX_KEY { return InvalidArgument; }
      st := DeleteEntry(key);
    }

    // -------------------------------------------------------------- committing

    /** Commits the batch: the pages as they read afterwards, the end of the file and the head of the free chain. */
    method Commit() returns (st: Status, disk: map<PageId, Page>, next: PageId, freelist: PageId)
      requires failure == Ok ==> Valid()
      modifies txn`pages
      ensures st == failure
      ensures st == Ok ==> freelist == Head(txn.chain) && next <= txn.limit
      ensures st == Ok ==> CommittedTree(disk, next, txn.chain, txn.capacity, root, tree, contents)
      ensures st != Ok ==> disk == txn.disk && next == txn.startNext && freelist == txn.startFree
    {
      disk, next, freelist := txn.disk, txn.startNext, txn.startFree;
      if failure != Ok { return failure, disk, next, freelist; }
      if items == map[] {
        st := Ok;
        assert !Dirty();
        CommittedAsIs(txn.disk, txn.taken, txn.next, txn.chain, txn.capacity, root, tree, contents);
        return;
      }
      st, disk := CommitItems();
      next, freelist := txn.next, txn.freelist;
    }

    method CommitItems() returns (st: Status, disk: map<PageId, Page>)
      requires Valid() && items != map[]
      modifies txn`pages
      ensures st == Ok && CommittedTree(disk, txn.next, txn.chain, txn.capacity, root, tree, contents)
    {
      ghost var frees := txn.pages;
      ItemsRecordable(tree.nodes, items, txn.disk, txn.capacity, txn.chain, txn.next, frees);
      disk := txn.disk;
      st := RecordAll(txn, items);
      if st != Ok { return; }
      TakenRecorded(tree.nodes, items, txn.taken, txn.disk, txn.next, frees, txn.pages);
      st, disk := txn.Commit();
      CommittedNow(txn.disk, frees, items, txn.taken, txn.next, txn.chain, txn.capacity, root, tree, contents);
    }
  }
}
