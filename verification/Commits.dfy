/** What a commit leaves behind for the next batch to begin from. */
module Commits {
  import opened Common
  import opened Keys
  import opened Shape
  import opened Nodes
  import opened PageTxn
  import opened Trees

  ghost function DataOf(items: NodeMap): map<PageId, Page> { map p | p in items :: Data(items[p]) }

  /** A committed tree: what a new transaction and a new batch require. */
  ghost predicate CommittedTree(disk: map<PageId, Page>, next: PageId, chain: seq<PageId>, capacity: nat,
                                root: PageId, t: Tree, contents: map<Bytes, Bytes>) {
    && TxnOk(disk, [], [], next, chain)
    && Stored(t.nodes, map[], disk) && NodesOk(t.nodes, capacity)
    && Accounted(t.nodes, chain, next, 0)
    && Rooted(t, root) && RanksOf(contents, t.held)
  }

  lemma RootedViews(t: Tree, root: PageId)
    requires Rooted(t, root)
    ensures t.views == ViewsOf(t.nodes, root)
  {
  }

  ghost predicate AllRecordable(items: NodeMap, pages: seq<TxnPage>, next: PageId, capacity: nat) {
    forall p :: p in items ==> Recordable(p, Data(items[p]), next, capacity) && p !in Ids(pages)
  }

  lemma ItemsRecordable(nodes: NodeMap, items: NodeMap, disk: map<PageId, Page>, capacity: nat,
                        chain: seq<PageId>, next: PageId, frees: seq<TxnPage>)
    requires Stored(nodes, items, disk) && NodesOk(nodes, capacity) && Accounted(nodes, chain, next, 0)
    requires items.Keys <= nodes.Keys && ChainOk(chain, frees, disk)
    ensures AllRecordable(items, frees, next, capacity)
  {
    StagedInChain(chain, frees, disk);
  }

  /** The items outside `rest` have been recorded after `frees`. */
  ghost predicate Recorded(disk: map<PageId, Page>, frees: seq<TxnPage>, pages: seq<TxnPage>, items: NodeMap,
                           rest: set<PageId>) {
    && Ids(pages) == Ids(frees) + (items.Keys - rest)
    && Overlay(disk, pages) == Overlay(disk, frees) + DataOf(items - rest)
  }

  lemma RecordedNone(disk: map<PageId, Page>, frees: seq<TxnPage>, items: NodeMap)
    ensures Recorded(disk, frees, frees, items, items.Keys)
  {
    assert items - items.Keys == map[];
  }

  lemma RecordedAll(disk: map<PageId, Page>, frees: seq<TxnPage>, pages: seq<TxnPage>, items: NodeMap)
    requires Recorded(disk, frees, pages, items, {})
    ensures Ids(pages) == Ids(frees) + items.Keys && Overlay(disk, pages) == Overlay(disk, frees) + DataOf(items)
  {
    assert items - {} == items;
  }

  /** Records every stored node with the transaction. */
  method RecordAll(txn: Txn, items: NodeMap) returns (st: Status)
    requires AllRecordable(items, txn.pages, txn.next, txn.capacity)
    modifies txn`pages
    ensures st == Ok && Ids(txn.pages) == Ids(old(txn.pages)) + items.Keys
    ensures Overlay(txn.disk, txn.pages) == Overlay(txn.disk, old(txn.pages)) + DataOf(items)
  {
    ghost var frees := txn.pages;
    var rest := items.Keys;
    st := Ok;
    RecordedNone(txn.disk, frees, items);
    while rest != {}
      invariant st == Ok && rest <= items.Keys
      invariant Recorded(txn.disk, frees, txn.pages, items, rest)
      decreases |rest|
    {
      ghost var q := Member(rest);
      var p :| p in rest;
      ghost var pages := txn.pages;
      st := txn.Put(p, Data(items[p]));
      if st != Ok { return; }
      RecordStep(txn.disk, frees, pages, items, rest, p);
      rest := rest - {p};
    }
    RecordedAll(txn.disk, frees, txn.pages, items);
  }

  lemma RecordStep(disk: map<PageId, Page>, frees: seq<TxnPage>, pages: seq<TxnPage>, items: NodeMap,
                   rest: set<PageId>, p: PageId)
    requires p in rest && p in items
    requires Recorded(disk, frees, pages, items, rest)
    ensures Recorded(disk, frees, pages + [TxnPage(p, Data(items[p]))], items, rest - {p})
  {
    var r := TxnPage(p, Data(items[p]));
    IdsPut(pages, r);
    assert (pages + [r])[..|pages|] == pages;
    assert DataOf(items - (rest - {p})) == DataOf(items - rest)[p := Data(items[p])];
    assert items.Keys - (rest - {p}) == items.Keys - rest + {p};
  }

  lemma CommittedAsIs(disk: map<PageId, Page>, taken: seq<PageId>, next: PageId, chain: seq<PageId>, capacity: nat,
                      root: PageId, t: Tree, contents: map<Bytes, Bytes>)
    requires TxnOk(disk, [], taken, next, chain) && Stored(t.nodes, map[], disk) && NodesOk(t.nodes, capacity)
    requires Accounted(t.nodes, chain, next, 0) && Rooted(t, root) && RanksOf(contents, t.held)
    ensures CommittedTree(disk, next, chain, capacity, root, t, contents)
  {
  }

  lemma CommittedNow(disk: map<PageId, Page>, frees: seq<TxnPage>, items: NodeMap, taken: seq<PageId>,
                     next: PageId, chain: seq<PageId>, capacity: nat, root: PageId, t: Tree,
                     contents: map<Bytes, Bytes>)
    requires TxnOk(disk, frees, taken, next, chain) && Stored(t.nodes, items, disk) && NodesOk(t.nodes, capacity)
    requires Accounted(t.nodes, chain, next, 0) && items.Keys <= t.nodes.Keys
    requires Rooted(t, root) && RanksOf(contents, t.held)
    ensures CommittedTree(Overlay(disk, frees) + DataOf(items), next, chain, capacity, root, t, contents)
  {
    OverlayChain(chain, frees, disk);
    ChainUnder(chain, Overlay(disk, frees), DataOf(items));
  }

  /** Records outside the chain leave it alone. */
  lemma ChainUnder(chain: seq<PageId>, disk: map<PageId, Page>, data: map<PageId, Page>)
    requires ChainOk(chain, [], disk) && forall i :: 0 <= i < |chain| ==> chain[i] !in data
    ensures ChainOk(chain, [], disk + data)
  {
    var after := disk + data;
    forall i | 0 <= i < |chain| ensures FreeAt(chain, after, i) { assert FreeAt(chain, disk, i); }
  }

  lemma TakenRecorded(nodes: NodeMap, items: NodeMap, taken: seq<PageId>, disk: map<PageId, Page>, next: PageId,
                      frees: seq<TxnPage>, pages: seq<TxnPage>)
    requires Owned(nodes, items, taken, disk, 0) && PageTxn.AllBelow(taken, next) && items != map[]
    requires Ids(pages) == Ids(frees) + items.Keys
    ensures pages != [] && forall i :: 0 <= i < |taken| ==> taken[i] in Ids(pages)
  {
    var p := Member(items.Keys);
    assert p in Ids(pages);
    forall i | 0 <= i < |taken| ensures taken[i] in Ids(pages) {
      assert taken[i] in taken;
    }
  }
}
