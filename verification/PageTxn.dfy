/** The page allocator of one transaction: pages come from the free chain or extend the file. */
module PageTxn {
  import opened Common
  import opened Keys
  import opened Shape
  import opened Nodes

  datatype Page = Data(node: Node) | Free(next: PageId)

  datatype TxnPage = TxnPage(id: PageId, page: Page)

  /** The page a free page links to. */
  ghost function LinkAfter(chain: seq<PageId>, i: nat): PageId {
    if i + 1 < |chain| then chain[i + 1] else 0
  }

  /** The free chain: FREE records of this transaction first, then committed free pages. */
  ghost predicate ChainOk(chain: seq<PageId>, staged: seq<TxnPage>, disk: map<PageId, Page>) {
    && |staged| <= |chain|
    && (forall i {:trigger StagedAt(chain, staged, i)} :: 0 <= i < |staged| ==> StagedAt(chain, staged, i))
    && (forall i {:trigger FreeAt(chain, disk, i)} :: |staged| <= i < |chain| ==> FreeAt(chain, disk, i))
  }

  ghost predicate StagedAt(chain: seq<PageId>, staged: seq<TxnPage>, i: nat) {
    && i < |staged| <= |chain|
    && var at := |staged| - 1 - i; staged[i] == TxnPage(chain[at], Free(LinkAfter(chain, at)))
  }

  ghost predicate FreeAt(chain: seq<PageId>, disk: map<PageId, Page>, i: nat) {
    i < |chain| && chain[i] in disk && disk[chain[i]] == Free(LinkAfter(chain, i))
  }

  ghost function Head(chain: seq<PageId>): PageId { if chain == [] then 0 else chain[0] }

  ghost predicate AllBelow(s: seq<PageId>, next: PageId) { forall i :: 0 <= i < |s| ==> 0 < s[i] < next }

  ghost predicate Apart(s: seq<PageId>, t: seq<PageId>) {
    forall i, j :: 0 <= i < |s| && 0 <= j < |t| ==> s[i] != t[j]
  }

  ghost predicate TxnOk(disk: map<PageId, Page>, pages: seq<TxnPage>, taken: seq<PageId>, next: PageId,
                        chain: seq<PageId>) {
    && 0 < next
    && ChainOk(chain, pages, disk)
    && Distinct(chain) && AllBelow(chain, next)
    && Distinct(taken) && AllBelow(taken, next)
    && Apart(taken, chain)
  }

  /** What the page store accepts as a record of this transaction. */
  predicate Recordable(id: PageId, page: Page, next: PageId, capacity: nat) {
    0 < id < next && if page.Data? then EncodedSize(page.node) <= capacity else page.next < next && page.next != id
  }

  function Ids(pages: seq<TxnPage>): set<PageId> { set i | 0 <= i < |pages| :: pages[i].id }

  lemma IdsAt(pages: seq<TxnPage>)
    ensures forall i :: 0 <= i < |pages| ==> pages[i].id in Ids(pages)
  {
  }

  lemma IdsPut(pages: seq<TxnPage>, r: TxnPage)
    ensures Ids(pages + [r]) == Ids(pages) + {r.id}
  {
    var more := pages + [r];
    forall p | p in Ids(pages) ensures p in Ids(more) {
      var i :| 0 <= i < |pages| && pages[i].id == p;
      assert more[i].id == p;
    }
    assert more[|pages|].id == r.id;
  }

  /** The pages as they read once the records have been written over them. */
  function Overlay(disk: map<PageId, Page>, pages: seq<TxnPage>): map<PageId, Page> {
    if pages == [] then disk
    else Overlay(disk, pages[..|pages| - 1])[pages[|pages| - 1].id := pages[|pages| - 1].page]
  }

  /** Page ids are 64-bit. */
  const MAX_PAGES: int := 0x1_0000_0000_0000_0000

  class Txn {
    const disk: map<PageId, Page>
    const limit: PageId
    const capacity: nat
    const startNext: PageId
    const startFree: PageId
    var pages: seq<TxnPage>
    var taken: seq<PageId>
    var freelist: PageId
    var next: PageId
    ghost var chain: seq<PageId>

    ghost predicate Valid()
      reads this
    {
      && freelist == Head(chain)
      && next <= limit <= MAX_PAGES
      && TxnOk(disk, pages, taken, next, chain)
    }

    /** Nothing has been allocated, freed or recorded yet. */
    ghost predicate Untouched()
      reads this
    {
      pages == [] && taken == [] && next == startNext && freelist == startFree
    }

    /** Opens a transaction over committed pages whose free chain is given. */
    constructor (disk: map<PageId, Page>, limit: PageId, capacity: nat,
                 next: PageId, freelist: PageId, ghost chain: seq<PageId>)
      requires next <= limit <= MAX_PAGES && freelist == Head(chain) && TxnOk(disk, [], [], next, chain)
      ensures Valid()
      ensures this.disk == disk && this.limit == limit && this.capacity == capacity
      ensures this.next == next && this.chain == chain && Untouched()
    {
      this.disk, this.limit, this.capacity, startNext, startFree := disk, limit, capacity, next, freelist;
      this.next, this.freelist, this.chain := next, freelist, chain;
      this.pages, this.taken := [], [];
    }

    method FindPage(id: PageId) returns (i: nat)
      ensures i <= |pages|
      ensures i < |pages| ==> pages[i].id == id
      ensures forall j :: 0 <= j < i ==> pages[j].id != id
      ensures i < |pages| <==> id in Ids(pages)
    {
      i := 0;
      IdsAt(pages);
      while i < |pages| && pages[i].id != id
        invariant 0 <= i <= |pages|
        invariant forall j :: 0 <= j < i ==> pages[j].id != id
      {
        i := i + 1;
      }
    }

    method FindTaken(id: PageId) returns (i: nat)
      ensures i <= |taken|
      ensures if i < |taken| then taken[i] == id else id !in taken
    {
      i := 0;
      while i < |taken| && taken[i] != id
        invariant 0 <= i <= |taken|
        invariant forall j :: 0 <= j < i ==> taken[j] != id
      {
        i := i + 1;
      }
    }

    /** The link of the first free page: from its FREE record of this transaction, else from disk. */
    method ReadLink() returns (st: Status, at: nat, link: PageId)
      requires Valid() && freelist != 0
      ensures st == Ok && link == LinkAfter(chain, 0)
      ensures at == if pages == [] then 0 else |pages| - 1
    {
      HeadIsPage(chain, next);
      Popped(disk, pages, taken, next, chain);
      st, link := Ok, 0;
      at := FindPage(freelist);
      if at < |pages| {
        StagedHead(chain, pages, disk, at);
        if !pages[at].page.Free? { st := InternalError; return; }
        link := pages[at].page.next;
      } else {
        HeadNotStaged(chain, pages, disk);
        HeadOnDisk(chain, pages, disk);
        if freelist !in disk || !disk[freelist].Free? { st := Corrupt; return; }
        link := disk[freelist].next;
        if link >= next || link == freelist { st := Corrupt; return; }
      }
    }

    /** Takes the head of the free chain, or a page past the end of the file. */
    method Allocate() returns (st: Status, id: PageId)
      requires Valid()
      modifies this
      ensures Valid()
      ensures st == Ok <==> old(chain) != [] || old(next) < limit
      ensures st == Ok ==> id == (if old(chain) == [] then old(next) else old(chain)[0])
      ensures st == Ok ==> chain == (if old(chain) == [] then [] else old(chain)[1..])
      ensures st == Ok ==> next == (if old(chain) == [] then old(next) + 1 else old(next))
      ensures st == Ok ==> taken == old(taken) + [id] && id !in old(taken) && id != 0
      ensures st != Ok ==> st == Overflow && unchanged(this)
    {
      HeadIsPage(chain, next);
      if freelist != 0 {
        st, id := TakeFree();
      } else {
        id := 0;
        if next + 1 > limit { st := Overflow; return; }
        Extended(disk, pages, taken, next, chain);
        id := next;
        next := next + 1;
        taken := taken + [id];
        st := Ok;
      }
    }

    method TakeFree() returns (st: Status, id: PageId)
      requires Valid() && freelist != 0 && chain != []
      modifies this
      ensures Valid() && st == Ok && id == old(chain)[0]
      ensures chain == old(chain)[1..] && next == old(next)
      ensures taken == old(taken) + [id] && id !in old(taken) && id != 0
    {
      id := 0;
      var at, link;
      st, at, link := ReadLink();
      if st != Ok { return; }
      Popped(disk, pages, taken, next, chain);
      id := freelist;
      pages := if pages == [] then [] else pages[..at];
      freelist := link;
      chain := chain[1..];
      taken := taken + [id];
    }

    /** Records one page; a page is recorded once. */
    method Put(id: PageId, page: Page) returns (st: Status)
      modifies this`pages
      ensures st == Ok <==> Recordable(id, page, next, capacity) && id !in Ids(old(pages))
      ensures st == Ok ==> pages == old(pages) + [TxnPage(id, page)]
      ensures st != Ok ==> st == InvalidArgument && unchanged(this)
    {
      if id <= 0 || id >= next || (page.Data? && EncodedSize(page.node) > capacity) { return InvalidArgument; }
      if page.Free? && (page.next >= next || page.next == id) { return InvalidArgument; }
      var i := FindPage(id);
      if i < |pages| { return InvalidArgument; }
      pages := pages + [TxnPage(id, page)];
      st := Ok;
    }

    /** Gives a page back. A page that is already free is refused. */
    method FreePage(id: PageId) returns (st: Status)
      requires Valid()
      modifies this
      ensures Valid()
      ensures st == Ok <==> 0 < id < next && id !in old(chain) && (id in old(taken) || (id in disk && disk[id].Data?))
      ensures st == Ok ==> chain == [id] + old(chain) && next == old(next)
      ensures st == Ok ==> forall p :: p in taken <==> p in old(taken) && p != id
      ensures st != Ok ==> chain == old(chain) && next == old(next)
    {
      if id <= 0 || id >= next { return InvalidArgument; }
      var a := FindTaken(id);
      StagedInChain(chain, pages, disk);
      HeadIsPage(chain, next);
      if a < |taken| {
        Untaken(disk, pages, taken, next, chain, a);
        taken := taken[..a] + taken[a + 1..];
      } else {
        if id !in disk { return Corrupt; }
        if disk[id].Free? { return InvalidArgument; }
      }
      st := Put(id, Free(freelist));
      if st == Ok {
        Pushed(disk, old(pages), taken, next, chain, id);
        freelist := id;
        chain := [id] + chain;
      }
    }

    /** Makes the records durable, if there are any and every page taken has one. */
    method Commit() returns (st: Status, disk': map<PageId, Page>)
      ensures st == Ok <==> pages != [] && (forall i :: 0 <= i < |taken| ==> taken[i] in Ids(pages))
      ensures st == Ok ==> disk' == Overlay(disk, pages)
      ensures st != Ok ==> st == InvalidArgument && disk' == disk
    {
      disk' := disk;
      if pages == [] { return InvalidArgument, disk; }
      var i := 0;
      while i < |taken|
        invariant 0 <= i <= |taken| && forall j :: 0 <= j < i ==> taken[j] in Ids(pages)
      {
        var at := FindPage(taken[i]);
        if at == |pages| { return InvalidArgument, disk; }
        i := i + 1;
      }
      i := 0;
      while i < |pages|
        invariant 0 <= i <= |pages| && disk' == Overlay(disk, pages[..i])
      {
        assert pages[..i + 1][..i] == pages[..i];
        disk' := disk'[pages[i].id := pages[i].page];
        i := i + 1;
      }
      assert pages[..|pages|] == pages;
      st := Ok;
    }
  }

  lemma {:induction false} OverlayChain(chain: seq<PageId>, staged: seq<TxnPage>, disk: map<PageId, Page>)
    requires ChainOk(chain, staged, disk) && Distinct(chain)
    ensures ChainOk(chain, [], Overlay(disk, staged))
    ensures forall p :: p !in chain ==>
      (p in Overlay(disk, staged) <==> p in disk) && (p in disk ==> Overlay(disk, staged)[p] == disk[p])
  {
    if staged != [] {
      var n := |staged| - 1;
      PopOk(chain, staged, disk);
      OverlayChain(chain[1..], staged[..n], disk);
      assert StagedAt(chain, staged, n);
      OverlayPut(chain, staged[..n], staged[n], disk);
      forall p | p !in chain ensures p !in chain[1..] {}
    }
  }

  lemma OverlayPut(chain: seq<PageId>, staged: seq<TxnPage>, r: TxnPage, disk: map<PageId, Page>)
    requires chain != [] && Distinct(chain) && r == TxnPage(chain[0], Free(LinkAfter(chain, 0)))
    requires ChainOk(chain[1..], [], Overlay(disk, staged))
    ensures ChainOk(chain, [], Overlay(disk, staged)[r.id := r.page])
  {
    var d := Overlay(disk, staged)[r.id := r.page];
    forall i | 0 <= i < |chain| ensures FreeAt(chain, d, i) {
      if i > 0 { assert FreeAt(chain[1..], Overlay(disk, staged), i - 1); }
    }
  }

  lemma HeadIsPage(chain: seq<PageId>, next: PageId)
    requires AllBelow(chain, next) && 0 < next
    ensures Head(chain) == 0 <==> chain == []
    ensures Head(chain) < next
    ensures chain != [] ==> Head(chain) in chain
  {
    assert chain != [] ==> chain[0] in chain;
  }

  lemma Popped(disk: map<PageId, Page>, pages: seq<TxnPage>, taken: seq<PageId>, next: PageId, chain: seq<PageId>)
    requires TxnOk(disk, pages, taken, next, chain) && chain != []
    ensures TxnOk(disk, if pages == [] then [] else pages[..|pages| - 1], taken + [chain[0]], next, chain[1..])
    ensures chain[0] !in taken && Head(chain) == chain[0] && LinkAfter(chain, 0) == Head(chain[1..]) < next
      && LinkAfter(chain, 0) != chain[0]
  {
    PopOk(chain, pages, disk);
    HeadMoved(taken, chain, next);
    HeadIsPage(chain[1..], next);
  }

  /** The first page of the chain is taken. */
  lemma HeadMoved(taken: seq<PageId>, chain: seq<PageId>, next: PageId)
    requires Distinct(taken) && Distinct(chain) && Apart(taken, chain) && AllBelow(taken, next)
      && AllBelow(chain, next) && chain != []
    ensures Distinct(taken + [chain[0]]) && AllBelow(taken + [chain[0]], next) && AllBelow(chain[1..], next)
    ensures Apart(taken + [chain[0]], chain[1..]) && chain[0] !in taken
  {
    AppendDistinct(taken, chain[0]);
  }

  lemma Extended(disk: map<PageId, Page>, pages: seq<TxnPage>, taken: seq<PageId>, next: PageId, chain: seq<PageId>)
    requires TxnOk(disk, pages, taken, next, chain)
    ensures TxnOk(disk, pages, taken + [next], next + 1, chain)
    ensures next !in taken
  {
    AppendDistinct(taken, next);
  }

  lemma Untaken(disk: map<PageId, Page>, pages: seq<TxnPage>, taken: seq<PageId>, next: PageId, chain: seq<PageId>,
                a: nat)
    requires TxnOk(disk, pages, taken, next, chain) && a < |taken|
    ensures var rest := taken[..a] + taken[a + 1..];
      && TxnOk(disk, pages, rest, next, chain)
      && (forall p :: p in rest <==> p in taken && p != taken[a])
    ensures taken[a] !in chain
  {
    RemoveDistinct(taken, a);
  }

  lemma Pushed(disk: map<PageId, Page>, pages: seq<TxnPage>, taken: seq<PageId>, next: PageId, chain: seq<PageId>,
               id: PageId)
    requires TxnOk(disk, pages, taken, next, chain) && 0 < id < next && id !in chain && id !in taken
    ensures TxnOk(disk, pages + [TxnPage(id, Free(Head(chain)))], taken, next, [id] + chain)
  {
    PushOk(chain, pages, disk, id);
  }

  lemma AppendDistinct(s: seq<PageId>, x: PageId)
    requires Distinct(s) && x !in s
    ensures Distinct(s + [x])
  {
  }

  lemma RemoveDistinct(s: seq<PageId>, i: nat)
    requires Distinct(s) && i < |s|
    ensures Distinct(s[..i] + s[i + 1..])
    ensures forall p :: p in s[..i] + s[i + 1..] <==> p in s && p != s[i]
  {
    var t := s[..i] + s[i + 1..];
    forall j | 0 <= j < |t| ensures t[j] == s[if j < i then j else j + 1] {}
    forall p | p in s && p != s[i] ensures p in t {
      var j :| 0 <= j < |s| && s[j] == p;
      assert t[if j < i then j else j - 1] == p;
    }
  }

  lemma StagedHead(chain: seq<PageId>, staged: seq<TxnPage>, disk: map<PageId, Page>, i: nat)
    requires ChainOk(chain, staged, disk) && Distinct(chain) && chain != []
    requires i < |staged| && staged[i].id == chain[0]
    ensures i == |staged| - 1 && staged[i].page == Free(LinkAfter(chain, 0))
  {
    assert StagedAt(chain, staged, i);
  }

  lemma PopOk(chain: seq<PageId>, staged: seq<TxnPage>, disk: map<PageId, Page>)
    requires ChainOk(chain, staged, disk) && Distinct(chain) && chain != []
    ensures ChainOk(chain[1..], if staged == [] then [] else staged[..|staged| - 1], disk)
    ensures Distinct(chain[1..]) && chain[0] !in chain[1..]
  {
    var rest, kept := chain[1..], if staged == [] then [] else staged[..|staged| - 1];
    forall i | 0 <= i < |kept| ensures StagedAt(rest, kept, i) { assert StagedAt(chain, staged, i); }
    forall i | |kept| <= i < |rest| ensures FreeAt(rest, disk, i) { assert FreeAt(chain, disk, i + 1); }
  }

  lemma StagedHeadAt(chain: seq<PageId>, staged: seq<TxnPage>, disk: map<PageId, Page>)
    requires ChainOk(chain, staged, disk) && |staged| > 0
    ensures staged[|staged| - 1].id == chain[0]
  {
    assert StagedAt(chain, staged, |staged| - 1);
  }

  lemma HeadOnDisk(chain: seq<PageId>, staged: seq<TxnPage>, disk: map<PageId, Page>)
    requires ChainOk(chain, staged, disk) && chain != [] && staged == []
    ensures chain[0] in disk && disk[chain[0]] == Free(LinkAfter(chain, 0))
  {
    assert FreeAt(chain, disk, 0);
  }

  lemma HeadNotStaged(chain: seq<PageId>, staged: seq<TxnPage>, disk: map<PageId, Page>)
    requires ChainOk(chain, staged, disk) && chain != []
    requires forall j :: 0 <= j < |staged| ==> staged[j].id != chain[0]
    ensures staged == []
  {
    if |staged| > 0 { StagedHeadAt(chain, staged, disk); }
  }

  lemma StagedInChain(chain: seq<PageId>, staged: seq<TxnPage>, disk: map<PageId, Page>)
    requires ChainOk(chain, staged, disk)
    ensures forall i :: 0 <= i < |staged| ==> staged[i].id in chain
    ensures forall p :: p in chain && (forall i :: 0 <= i < |staged| ==> staged[i].id != p) ==>
      p in disk && disk[p].Free?
  {
    forall i | 0 <= i < |staged| ensures staged[i].id in chain { assert StagedAt(chain, staged, i); }
    forall p | p in chain && (forall i :: 0 <= i < |staged| ==> staged[i].id != p) ensures p in disk && disk[p].Free? {
      var j :| 0 <= j < |chain| && chain[j] == p;
      assert j < |staged| ==> StagedAt(chain, staged, |staged| - 1 - j);
      assert j >= |staged| ==> FreeAt(chain, disk, j);
    }
  }

  lemma PushOk(chain: seq<PageId>, staged: seq<TxnPage>, disk: map<PageId, Page>, id: PageId)
    requires ChainOk(chain, staged, disk) && Distinct(chain) && id !in chain
    ensures ChainOk([id] + chain, staged + [TxnPage(id, Free(Head(chain)))], disk)
    ensures Distinct([id] + chain)
  {
    var more, staged' := [id] + chain, staged + [TxnPage(id, Free(Head(chain)))];
    forall i | 0 <= i < |staged'| ensures StagedAt(more, staged', i) {
      if i < |staged| { assert StagedAt(chain, staged, i); }
    }
    forall i | |staged'| <= i < |more| ensures FreeAt(more, disk, i) { assert FreeAt(chain, disk, i - 1); }
  }
}
