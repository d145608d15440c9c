/** The tree between batches: committed pages, and whole batches applied to them. */
module Stores {
  import opened Common
  import opened Keys
  import opened Shape
  import opened Nodes
  import opened PageTxn
  import opened Trees
  import opened Commits
  import opened Room
  import opened Refusals
  import opened Growth
  import opened Batches
  import opened Graphs
  import opened Verifiers
  import opened Cursors
  import opened Listing

  datatype Change = Store(key: Bytes, value: Bytes) | Remove(key: Bytes)

  ghost function Changed(m: map<Bytes, Bytes>, c: Change): map<Bytes, Bytes> {
    if c.Store? then m[c.key := c.value] else m - {c.key}
  }

  /** What a run of changes makes of a map. */
  ghost function Replay(m: map<Bytes, Bytes>, changes: seq<Change>): map<Bytes, Bytes> {
    if changes == [] then m else Changed(Replay(m, changes[..|changes| - 1]), changes[|changes| - 1])
  }

  lemma ReplayStep(m: map<Bytes, Bytes>, changes: seq<Change>, i: nat)
    requires i < |changes|
    ensures Replay(m, changes[..i + 1]) == Changed(Replay(m, changes[..i]), changes[i])
  {
    assert changes[..i + 1][..i] == changes[..i];
  }

  predicate Fine(c: Change, capacity: nat) { c.Store? ==> EntryFine(c.key, c.value, capacity) }

  predicate AllFine(changes: seq<Change>, capacity: nat) {
    forall i :: 0 <= i < |changes| ==> Fine(changes[i], capacity)
  }

  predicate AllStores(changes: seq<Change>) { forall i :: 0 <= i < |changes| ==> changes[i].Store? }

  predicate AllRemoves(changes: seq<Change>) { forall i :: 0 <= i < |changes| ==> changes[i].Remove? }

  class BTree {
    const limit: PageId
    const capacity: nat
    const root: PageId
    var disk: map<PageId, Page>
    var next: PageId
    var freelist: PageId
    ghost var chain: seq<PageId>
    ghost var tree: Tree
    ghost var contents: map<Bytes, Bytes>

    ghost predicate Valid()
      reads this
    {
      && next <= limit <= MAX_PAGES && freelist == Head(chain)
      && CommittedTree(disk, next, chain, capacity, root, tree, contents)
    }

    /** No entry of the tree takes more than half of the room. */
    ghost predicate Ample()
      reads this`tree
    {
      AllRoomy(tree.nodes, capacity)
    }

    /** The pages that can still be had. */
    ghost function Supply(): seq<PageId>
      requires next <= limit
      reads this`chain, this`next
    { SupplyOf(chain, next, limit) }

    /** No leaf is empty but the root. */
    ghost predicate Tidy()
      reads this`tree
    {
      NoneBare(tree.nodes, root)
    }

    /** A new tree is one empty leaf. */
    constructor (limit: PageId, capacity: nat)
      requires 2 <= limit <= MAX_PAGES && HEADER_SIZE <= capacity
      ensures Valid() && contents == map[] && this.limit == limit && this.capacity == capacity
      ensures Tidy() && (capacity <= MAX_CAPACITY ==> Ample())
    {
      this.limit, this.capacity, root := limit, capacity, 1;
      disk, next, freelist, chain := map[1 := Data(Node(Leaf, 0, 0, []))], 2, 0, [];
      contents, tree := map[], EmptyTree(1);
      EmptyCommitted(1, capacity);
    }

    /** Looks up one committed key. */
    method Get(key: Bytes) returns (st: Status, value: Bytes)
      requires Valid()
      ensures st == if !(0 < |key| <= MAX_KEY) then InvalidArgument else if key in contents then Ok else NotFound
      ensures st == Ok ==> value == contents[key]
    {
      value := [];
      if key == [] || |key| > MAX_KEY { return InvalidArgument, value; }
      ghost var u, h := CommittedListing(disk, next, chain, capacity, root, tree, contents);
      ReadableIsTree(disk, next, chain, capacity, root, tree, contents);
      st, value := Lookup(Readable(disk, next), root, key, next, u, h);
    }

    /** Lists the committed entries from a key on. */
    method List(from: Bound) returns (es: seq<Entry>)
      requires Valid()
      ensures Lists(es, AtOrAbove(contents, LowRank(from)))
    {
      ghost var u, h := CommittedListing(disk, next, chain, capacity, root, tree, contents);
      ReadableIsTree(disk, next, chain, capacity, root, tree, contents);
      ghost var k;
      es, k := Scan(Readable(disk, next), next, root, from, u, h);
      SuffixLists(Flat(tree.nodes, LeavesOf(u)), contents, k, LowRank(from));
    }

    method Begin() returns (b: Batch)
      requires Valid()
      ensures fresh(b) && fresh(b.txn) && b.Valid() && b.failure == Ok && b.contents == contents
      ensures b.root == root && b.txn.limit == limit && b.txn.capacity == capacity && b.Ample() == Ample()
      ensures b.tree.nodes == tree.nodes && b.txn.taken == [] && b.txn.chain == chain && b.txn.next == next
    {
      var txn := new Txn(disk, limit, capacity, next, freelist, chain);
      RootedViews(tree, root);
      b := new Batch(txn, root, tree.nodes, tree.spans, contents, tree.held);
    }

    /** Commits a batch. A batch that has failed changes nothing. */
    method Finish(b: Batch) returns (st: Status)
      requires Valid() && (b.failure == Ok ==> b.Valid())
      requires b.root == root && b.txn.limit == limit && b.txn.capacity == capacity
      modifies this, b.txn`pages
      ensures Valid() && st == b.failure
      ensures st == Ok ==> contents == b.contents && Ample() == b.Ample()
      ensures st == Ok ==> tree.nodes == b.tree.nodes && chain == b.txn.chain
      ensures st != Ok ==> unchanged(this)
    {
      var disk', next', freelist';
      st, disk', next', freelist' := b.Commit();
      if st == Ok { Install(disk', next', freelist', b.txn.chain, b.tree, b.contents); }
    }

    method Install(disk': map<PageId, Page>, next': PageId, freelist': PageId,
                   ghost chain': seq<PageId>, ghost tree': Tree, ghost contents': map<Bytes, Bytes>)
      requires next' <= limit <= MAX_PAGES && freelist' == Head(chain')
      requires CommittedTree(disk', next', chain', capacity, root, tree', contents')
      modifies this
      ensures Valid() && contents == contents' && tree == tree' && chain == chain'
    {
      disk, next, freelist := disk', next', freelist';
      chain, tree, contents := chain', tree', contents';
    }

    method Put(key: Bytes, value: Bytes) returns (st: Status)
      requires Valid()
      modifies this
      ensures Valid() && Benign(st)
      ensures st == Ok ==> contents == old(contents)[key := value]
      ensures st != Ok ==> unchanged(this)
      ensures old(Ample()) && EntryFine(key, value, capacity) ==> (st == Ok || st == Overflow) && Ample()
      ensures 0 < |key| <= MAX_KEY && |value| <= MAX_VALUE ==>
        st == old(PutStatus(tree.nodes, root, key, value, capacity, Supply()))
      ensures st == Overflow ==> |old(chain)| + limit - old(next) < old(tree).spans[root].height + 2
      ensures st == Ok ==> tree.nodes == old(PutOutcome(tree.nodes, root, key, value, capacity, Supply())).nodes
      ensures old(Tidy()) ==> Tidy()
    {
      var b;
      ghost var nodes, tidy := tree.nodes, Tidy();
      st, b := With(key, value);
      if st == Ok {
        if tidy { StillTidy(nodes, b.tree.nodes, root); }
        st := Finish(b);
      }
    }

    /** A batch that has put the entry. */
    method With(key: Bytes, value: Bytes) returns (st: Status, b: Batch)
      requires Valid()
      ensures fresh(b) && fresh(b.txn) && Benign(st)
      ensures b.root == root && b.txn.limit == limit && b.txn.capacity == capacity
      ensures st == Ok ==> b.Valid() && b.failure == Ok && b.contents == contents[key := value]
      ensures Ample() && EntryFine(key, value, capacity) ==> (st == Ok && b.Ample()) || st == Overflow
      ensures 0 < |key| <= MAX_KEY && |value| <= MAX_VALUE ==>
        st == PutStatus(tree.nodes, root, key, value, capacity, Supply())
      ensures st == Overflow ==> |chain| + limit - next < tree.spans[root].height + 2
      ensures st == Ok ==> b.tree.nodes == PutOutcome(tree.nodes, root, key, value, capacity, Supply()).nodes
      ensures st == Ok ==> NoNewEmpty(tree.nodes, b.tree.nodes)
    {
      b := Begin();
      PutStops(tree.nodes, root, key, value, capacity, Supply());
      st := b.Put(key, value);
      if st == Overflow { OverflowMeans(tree, root, key, value, capacity, Supply()); }
    }

    method Delete(key: Bytes) returns (st: Status)
      requires Valid()
      modifies this
      ensures Valid() && (Benign(st) || st == NotFound)
      ensures 0 < |key| <= MAX_KEY ==> (st == NotFound <==> key !in old(contents))
      ensures st == Ok ==> contents == old(contents) - {key}
      ensures st != Ok ==> unchanged(this)
      ensures old(Ample()) ==> Ample()
      ensures 0 < |key| <= MAX_KEY && key in old(contents) && capacity <= MAX_CAPACITY ==>
        st == if old(DeleteRefused(tree.nodes, root, [], key, capacity)) then BufferTooSmall else Ok
      ensures st == Ok ==> Cleared(old(tree).nodes, [], tree.nodes, [], chain, root, key)
      ensures old(Tidy()) ==> Tidy()
    {
      var b;
      ghost var nodes, tidy := tree.nodes, Tidy();
      st, b := Without(key);
      if st == Ok {
        if tidy { StillTidy(nodes, b.tree.nodes, root); }
        st := Finish(b);
      }
    }

    /** A batch that has deleted the key. */
    method Without(key: Bytes) returns (st: Status, b: Batch)
      requires Valid()
      ensures fresh(b) && fresh(b.txn) && (Benign(st) || st == NotFound)
      ensures b.root == root && b.txn.limit == limit && b.txn.capacity == capacity
      ensures 0 < |key| <= MAX_KEY ==> (st == NotFound <==> key !in contents)
      ensures st == Ok ==> b.Valid() && b.failure == Ok && b.contents == contents - {key}
      ensures st == Ok && Ample() ==> b.Ample()
      ensures 0 < |key| <= MAX_KEY && key in contents && capacity <= MAX_CAPACITY ==>
        st == if DeleteRefused(tree.nodes, root, [], key, capacity) then BufferTooSmall else Ok
      ensures st == Ok ==> b.txn.taken == []
      ensures st == Ok ==> Cleared(tree.nodes, [], b.tree.nodes, b.txn.taken, b.txn.chain, root, key)
      ensures st == Ok ==> Tidier(tree.nodes, [], b.tree.nodes, b.txn.taken, root)
    {
      b := Begin();
      st := b.Delete(key);
      if st == Ok { NoneTaken(b.txn.taken); }
    }

    /** Applies many changes in one batch: all of them, or none. Removing a missing key is not a failure. */
    method Apply(changes: seq<Change>) returns (st: Status)
      requires Valid()
      modifies this
      ensures Valid() && Benign(st)
      ensures st == Ok ==> contents == Replay(old(contents), changes)
      ensures st != Ok ==> unchanged(this)
      ensures old(Ample()) && AllFine(changes, capacity) ==> Ample()
      ensures old(Ample()) && AllFine(changes, capacity) && AllStores(changes) ==> st == Ok || st == Overflow
      ensures old(Tidy()) && (AllStores(changes) || AllRemoves(changes)) ==> Tidy()
    {
      var b;
      ghost var nodes, tidy := tree.nodes, Tidy() && (AllStores(changes) || AllRemoves(changes));
      st, b := WithAll(changes);
      if st == Ok {
        if tidy { StillTidy(nodes, b.tree.nodes, root); }
        st := Finish(b);
      }
    }

    /** A batch that has made the changes. */
    method WithAll(changes: seq<Change>) returns (st: Status, b: Batch)
      requires Valid()
      ensures fresh(b) && fresh(b.txn) && Benign(st)
      ensures b.root == root && b.txn.limit == limit && b.txn.capacity == capacity
      ensures st == Ok ==> b.Valid() && b.failure == Ok && b.contents == Replay(contents, changes)
      ensures st == Ok && Ample() && AllFine(changes, capacity) ==> b.Ample()
      ensures Ample() && AllFine(changes, capacity) && AllStores(changes) ==> st == Ok || st == Overflow
      ensures st == Ok ==> Tidier(tree.nodes, [], b.tree.nodes, b.txn.taken, root)
      ensures st == Ok && AllStores(changes) ==> NoNewEmpty(tree.nodes, b.tree.nodes)
      ensures st == Ok && AllRemoves(changes) ==> b.txn.taken == []
    {
      b := Begin();
      st := Perform(b, changes);
      if st == Ok && AllRemoves(changes) { NoneTaken(b.txn.taken); }
    }
  }

  lemma NoneTaken(taken: seq<PageId>)
    requires forall p :: p !in taken
    ensures taken == []
  {
    if taken != [] { var p := First(taken); }
  }

  lemma First(s: seq<PageId>) returns (p: PageId)
    requires s != []
    ensures p in s
  {
    p := s[0];
  }

  /** One change within a batch. */
  method PerformOne(b: Batch, c: Change) returns (st: Status)
    requires b.Valid() && b.failure == Ok
    modifies b, b.txn
    ensures Benign(st)
    ensures st == Ok ==> b.Valid() && b.failure == Ok
    ensures st == Ok ==> b.contents == Changed(old(b.contents), c)
    ensures st == Ok && old(b.Ample()) && Fine(c, b.txn.capacity) ==> b.Ample()
    ensures old(b.Ample()) && Fine(c, b.txn.capacity) && c.Store? ==> st == Ok || st == Overflow
    ensures st == Ok ==> Tidier(old(b.tree).nodes, old(b.txn.taken), b.tree.nodes, b.txn.taken, b.root)
    ensures st == Ok && c.Store? ==> NoNewEmpty(old(b.tree).nodes, b.tree.nodes)
    ensures st == Ok && c.Remove? ==> forall p :: p in b.txn.taken ==> p in old(b.txn.taken)
  {
    if c.Store? {
      st := b.Put(c.key, c.value);
    } else {
      st := b.Delete(c.key);
      if st == NotFound {
        assert b.contents - {c.key} == b.contents;
        st := Ok;
      }
    }
  }

  method Perform(b: Batch, changes: seq<Change>) returns (st: Status)
    requires b.Valid() && b.failure == Ok
    modifies b, b.txn
    ensures Benign(st)
    ensures st == Ok ==> b.Valid() && b.failure == Ok && b.contents == Replay(old(b.contents), changes)
    ensures st == Ok && old(b.Ample()) && AllFine(changes, b.txn.capacity) ==> b.Ample()
    ensures old(b.Ample()) && AllFine(changes, b.txn.capacity) && AllStores(changes) ==> st == Ok || st == Overflow
    ensures st == Ok ==> Tidier(old(b.tree).nodes, old(b.txn.taken), b.tree.nodes, b.txn.taken, b.root)
    ensures st == Ok && AllStores(changes) ==> NoNewEmpty(old(b.tree).nodes, b.tree.nodes)
    ensures st == Ok && AllRemoves(changes) ==> forall p :: p in b.txn.taken ==> p in old(b.txn.taken)
  {
    ghost var was, roomy := b.contents, b.Ample() && AllFine(changes, b.txn.capacity);
    ghost var nodes, taken := b.tree.nodes, b.txn.taken;
    var i := 0;
    st := Ok;
    while i < |changes|
      invariant 0 <= i <= |changes| && st == Ok && (roomy ==> b.Ample())
      invariant b.Valid() && b.failure == Ok && b.contents == Replay(was, changes[..i])
      invariant Tidier(nodes, taken, b.tree.nodes, b.txn.taken, b.root)
      invariant AllStores(changes) ==> NoNewEmpty(nodes, b.tree.nodes)
      invariant AllRemoves(changes) ==> forall p :: p in b.txn.taken ==> p in taken
    {
      var c := changes[i];
      ghost var nodes1, taken1 := b.tree.nodes, b.txn.taken;
      ReplayStep(was, changes, i);
      assert roomy ==> Fine(c, b.txn.capacity);
      st := PerformOne(b, c);
      if st != Ok { return; }
      TidierStill(nodes, taken, nodes1, taken1, b.tree.nodes, b.txn.taken, b.root);
      assert b.contents == Replay(was, changes[..i + 1]);
      i := i + 1;
    }
    assert changes[..|changes|] == changes;
  }

  ghost function EmptyTree(root: PageId): Tree {
    var n := Node(Leaf, 0, 0, []);
    Tree(map[root := n], map[0 := InnerView(root, map[]), root := LeafView(map[], 0)],
         map[0 := Span(0.0, 1.0, 1, 0), root := Span(0.0, 1.0, 0, 0)], map[])
  }

  lemma EmptyCommitted(root: PageId, capacity: nat)
    requires root == 1 && HEADER_SIZE <= capacity
    ensures CommittedTree(map[root := Data(Node(Leaf, 0, 0, []))], 2, [], capacity, root, EmptyTree(root), map[])
  {
    var t := EmptyTree(root);
    assert PageOk(t.views, t.spans, t.held, 0);
    assert PageOk(t.views, t.spans, t.held, root);
  }
}
