/** Tree nodes as the entry arrays the program keeps, and the shape-level view of each. */
module Nodes {
  import opened Keys
  import opened Shape

  const HEADER_SIZE: nat := 20
  const MAX_KEY: nat := 65535
  const MAX_COUNT: nat := 65535
  const MAX_DEPTH: nat := 64
  const MAX_VALUE: nat := 0xffff_ffff

  datatype Kind = Leaf | Internal

  datatype Entry = Entry(key: Bytes, value: Bytes, right: PageId)

  datatype Node = Node(kind: Kind, next: PageId, first: PageId, entries: seq<Entry>)

  /** The page of child i: the first child, or the one to the right of separator i - 1. */
  function ChildAt(n: Node, i: nat): PageId
    requires i <= |n.entries|
  { if i == 0 then n.first else n.entries[i - 1].right }

  function EntrySize(kind: Kind, e: Entry): nat {
    if kind == Leaf then 6 + |e.key| + |e.value| else 12 + |e.key|
  }

  function EntriesSize(kind: Kind, es: seq<Entry>): nat {
    if es == [] then 0 else EntriesSize(kind, es[..|es| - 1]) + EntrySize(kind, es[|es| - 1])
  }

  function EncodedSize(n: Node): nat { HEADER_SIZE + EntriesSize(n.kind, n.entries) }

  predicate EntryValid(kind: Kind, e: Entry) {
    && 0 < |e.key| <= MAX_KEY
    && if kind == Leaf then e.right == 0 && |e.value| <= MAX_VALUE else e.right != 0 && e.value == []
  }

  /** What the encoder accepts. */
  predicate NodeValid(n: Node) {
    && |n.entries| <= MAX_COUNT
    && (if n.kind == Leaf then n.first == 0 else n.first != 0 && n.next == 0)
    && (forall i :: 0 <= i < |n.entries| ==> EntryValid(n.kind, n.entries[i]))
    && Ascending(n.entries)
  }

  /** Each key is before the next. */
  predicate Ascending(es: seq<Entry>) {
    forall i {:trigger AscendsAt(es, i)} :: 0 < i < |es| ==> AscendsAt(es, i)
  }

  predicate AscendsAt(es: seq<Entry>, i: nat) { 0 < i < |es| && Before(es[i - 1].key, es[i].key) }

  ghost predicate Sorted(es: seq<Entry>) {
    forall i, j :: 0 <= i < j < |es| ==> Rank(es[i].key) < Rank(es[j].key)
  }

  lemma {:induction false} ValidIsSorted(n: Node)
    requires NodeValid(n)
    ensures Sorted(n.entries)
  {
    SortedFromSteps(n.entries);
  }

  lemma {:induction false} SortedFromSteps(es: seq<Entry>)
    requires Ascending(es)
    ensures Sorted(es)
  {
    if |es| > 1 {
      var n := |es| - 1;
      var front := es[..n];
      forall i | 0 < i < n ensures AscendsAt(front, i) { assert AscendsAt(es, i); }
      SortedFromSteps(front);
      assert AscendsAt(es, n);
      RankIsOrder(es[n - 1].key, es[n].key);
      forall i, j | 0 <= i < j < |es| ensures Rank(es[i].key) < Rank(es[j].key) {
        assert es[i] == es[..n][i];
        if j < n {
          assert es[j] == es[..n][j];
        } else {
          assert i < n - 1 ==> Rank(es[..n][i].key) < Rank(es[..n][n - 1].key);
        }
      }
    }
  }

  // ---------------------------------------------------------------- entries by rank

  ghost function ByRank(es: seq<Entry>): map<real, Entry> {
    if es == [] then map[]
    else ByRank(es[..|es| - 1])[Rank(es[|es| - 1].key) := es[|es| - 1]]
  }

  ghost function Values(m: map<real, Entry>): map<real, Bytes> { map x | x in m :: m[x].value }
  ghost function Rights(m: map<real, Entry>): map<real, PageId> { map x | x in m :: m[x].right }

  ghost function ViewOf(n: Node): View {
    if n.kind == Leaf then LeafView(Values(ByRank(n.entries)), n.next)
    else InnerView(n.first, Rights(ByRank(n.entries)))
  }

  lemma {:induction false} RankIndex(es: seq<Entry>, x: real) returns (i: nat)
    requires x in ByRank(es)
    ensures i < |es| && Rank(es[i].key) == x && ByRank(es)[x] == es[i]
  {
    i := |es| - 1;
    if x != Rank(es[i].key) { i := RankIndex(es[..i], x); }
  }

  lemma {:induction false} IndexRank(es: seq<Entry>, i: nat)
    requires Sorted(es) && i < |es|
    ensures Rank(es[i].key) in ByRank(es) && ByRank(es)[Rank(es[i].key)] == es[i]
  {
    if i < |es| - 1 { IndexRank(es[..|es| - 1], i); }
  }

  ghost predicate Between(es: seq<Entry>, i: nat, x: real) {
    && i <= |es|
    && (forall j :: 0 <= j < i ==> Rank(es[j].key) < x)
    && (forall j :: i <= j < |es| ==> x < Rank(es[j].key))
  }

  function Inserted(es: seq<Entry>, i: nat, e: Entry): seq<Entry>
    requires i <= |es|
  { es[..i] + [e] + es[i..] }

  function Removed(es: seq<Entry>, i: nat): seq<Entry>
    requires i < |es|
  { es[..i] + es[i + 1..] }

  lemma {:induction false} InsertedByRank(es: seq<Entry>, i: nat, e: Entry)
    requires Between(es, i, Rank(e.key))
    ensures ByRank(Inserted(es, i, e)) == ByRank(es)[Rank(e.key) := e]
  {
    var n := |es|;
    InsertedLast(es, i, e);
    if i < n {
      InsertedByRank(es[..n - 1], i, e);
      SwapUpdates(ByRank(es[..n - 1]), Rank(e.key), e, Rank(es[n - 1].key), es[n - 1]);
    }
  }

  lemma InsertedLast(es: seq<Entry>, i: nat, e: Entry)
    requires i <= |es|
    ensures var fs, n := Inserted(es, i, e), |es|;
      |fs| == n + 1 && if i == n then fs[..n] == es && fs[n] == e
        else fs[..n] == Inserted(es[..n - 1], i, e) && fs[n] == es[n - 1]
  {
  }

  lemma SwapUpdates(m: map<real, Entry>, x: real, e: Entry, y: real, f: Entry)
    requires x != y
    ensures m[x := e][y := f] == m[y := f][x := e]
  {
  }

  lemma {:induction false} ReplacedByRank(es: seq<Entry>, i: nat, e: Entry)
    requires Sorted(es) && i < |es| && es[i].key == e.key
    ensures ByRank(es[i := e]) == ByRank(es)[Rank(e.key) := e]
  {
    var n := |es| - 1;
    if i == n {
      assert es[i := e][..n] == es[..n];
    } else {
      ReplacedByRank(es[..n], i, e);
      assert es[i := e][..n] == es[..n][i := e];
    }
  }

  lemma RemovedBetween(es: seq<Entry>, i: nat)
    requires Sorted(es) && i < |es|
    ensures Between(Removed(es, i), i, Rank(es[i].key))
    ensures Rank(es[i].key) !in ByRank(Removed(es, i))
  {
    var x, fs := Rank(es[i].key), Removed(es, i);
    assert forall j :: 0 <= j < |fs| ==> fs[j] == es[if j < i then j else j + 1];
    if x in ByRank(fs) { var j := RankIndex(fs, x); }
  }

  lemma RemovedByRank(es: seq<Entry>, i: nat)
    requires Sorted(es) && i < |es|
    ensures ByRank(Removed(es, i)) == ByRank(es) - {Rank(es[i].key)}
  {
    RemovedBetween(es, i);
    var fs := Removed(es, i);
    InsertedByRank(fs, i, es[i]);
    PutBack(es, i);
    DropLast(ByRank(fs), Rank(es[i].key), es[i]);
  }

  lemma PutBack(es: seq<Entry>, i: nat)
    requires i < |es|
    ensures Inserted(Removed(es, i), i, es[i]) == es
  {
  }

  lemma DropLast(m: map<real, Entry>, x: real, e: Entry)
    requires x !in m
    ensures m[x := e] - {x} == m
  {
  }

  lemma {:induction false} JoinedByRank(es: seq<Entry>, e: Entry, fs: seq<Entry>)
    ensures ByRank(es + [e] + fs) == ByRank(es)[Rank(e.key) := e] + ByRank(fs)
  {
    var gs, n := es + [e] + fs, |fs|;
    if n == 0 {
      assert gs[..|es|] == es && ByRank(es)[Rank(e.key) := e] + map[] == ByRank(es)[Rank(e.key) := e];
    } else {
      JoinedByRank(es, e, fs[..n - 1]);
      AllButLast(es + [e], fs);
      UpdateRight(ByRank(es)[Rank(e.key) := e], ByRank(fs[..n - 1]), Rank(fs[n - 1].key), fs[n - 1]);
    }
  }

  lemma AllButLast<T>(es: seq<T>, fs: seq<T>)
    requires fs != []
    ensures (es + fs)[..|es + fs| - 1] == es + fs[..|fs| - 1] && (es + fs)[|es + fs| - 1] == fs[|fs| - 1]
  {
  }

  lemma UpdateRight(a: map<real, Entry>, b: map<real, Entry>, x: real, e: Entry)
    ensures (a + b)[x := e] == a + b[x := e]
  {
  }

  ghost predicate AllBelow(m: map<real, Entry>, x: real) { forall y :: y in m ==> y < x }
  ghost predicate AllAbove(m: map<real, Entry>, x: real) { forall y :: y in m ==> y > x }

  lemma SidesByRank(es: seq<Entry>, m: nat)
    requires Sorted(es) && m < |es|
    ensures AllBelow(ByRank(es[..m]), Rank(es[m].key))
    ensures AllAbove(ByRank(es[m + 1..]), Rank(es[m].key))
  {
    var lower, upper := es[..m], es[m + 1..];
    forall x | x in ByRank(lower) ensures x < Rank(es[m].key) { var j := RankIndex(lower, x); }
    forall x | x in ByRank(upper) ensures x > Rank(es[m].key) { var j := RankIndex(upper, x); }
  }

  lemma CutMap(lower: map<real, Entry>, x: real, e: Entry, upper: map<real, Entry>)
    requires AllBelow(lower, x) && AllAbove(upper, x)
    ensures var all := lower[x := e] + upper;
      Below(all, x) == lower && From(all, x) == map[x := e] + upper && Above(all, x) == upper
  {
  }

  lemma CutByRank(es: seq<Entry>, m: nat)
    requires Sorted(es) && m < |es|
    ensures ByRank(es[..m]) == Below(ByRank(es), Rank(es[m].key))
    ensures ByRank(es[m..]) == From(ByRank(es), Rank(es[m].key))
    ensures ByRank(es[m + 1..]) == Above(ByRank(es), Rank(es[m].key))
  {
    SidesByRank(es, m);
    CutMap(ByRank(es[..m]), Rank(es[m].key), es[m], ByRank(es[m + 1..]));
    ThreeParts(es, m);
    JoinedByRank(es[..m], es[m], es[m + 1..]);
    JoinedByRank([], es[m], es[m + 1..]);
  }

  lemma ThreeParts<T>(es: seq<T>, m: nat)
    requires m < |es|
    ensures es[..m] + [es[m]] + es[m + 1..] == es && [] + [es[m]] + es[m + 1..] == es[m..]
  {
  }

  // ---------------------------------------------------------------- searching a node

  method LowerBound(es: seq<Entry>, k: Bytes) returns (low: nat)
    requires Sorted(es)
    ensures low <= |es|
    ensures forall j :: 0 <= j < low ==> Rank(es[j].key) < Rank(k)
    ensures forall j :: low <= j < |es| ==> Rank(k) <= Rank(es[j].key)
  {
    low := 0;
    var high := |es|;
    while low < high
      invariant 0 <= low <= high <= |es|
      invariant forall j :: 0 <= j < low ==> Rank(es[j].key) < Rank(k)
      invariant forall j :: high <= j < |es| ==> Rank(k) <= Rank(es[j].key)
    {
      var middle := low + (high - low) / 2;
      var c := Compare(es[middle].key, k);
      RankIsOrder(es[middle].key, k);
      if c < 0 {
        low := middle + 1;
      } else {
        high := middle;
      }
    }
  }

  /** Child i is where a key of rank x belongs: at or after separator i - 1, before separator i. */
  ghost predicate Routes(es: seq<Entry>, i: nat, x: real) {
    && i <= |es|
    && (forall j :: 0 <= j < i ==> Rank(es[j].key) <= x)
    && (forall j :: i <= j < |es| ==> x < Rank(es[j].key))
  }

  method Route(es: seq<Entry>, k: Bytes) returns (i: nat)
    requires Sorted(es)
    ensures Routes(es, i, Rank(k))
  {
    i := LowerBound(es, k);
    if i < |es| {
      var c := Compare(es[i].key, k);
      RankIsOrder(es[i].key, k);
      if c == 0 {
        i := i + 1;
      }
    }
  }

  /** The ends of the interval of child i, for a node whose own interval goes from lo to hi. */
  ghost function LowEnd(n: Node, lo: real, i: nat): real
    requires i <= |n.entries|
  { if i == 0 then lo else Rank(n.entries[i - 1].key) }

  ghost function HighEnd(n: Node, hi: real, i: nat): real
    requires i <= |n.entries|
  { if i == |n.entries| then hi else Rank(n.entries[i].key) }

  lemma SepAt(n: Node, i: nat)
    requires n.kind == Internal && Sorted(n.entries) && i < |n.entries|
    ensures var x := Rank(n.entries[i].key); x in ViewOf(n).seps && ViewOf(n).seps[x] == n.entries[i].right
  {
    IndexRank(n.entries, i);
  }

  lemma SepIndex(n: Node, x: real) returns (i: nat)
    requires n.kind == Internal && x in ViewOf(n).seps
    ensures i < |n.entries| && Rank(n.entries[i].key) == x
  {
    i := RankIndex(n.entries, x);
  }

  lemma SepsInside(p: PageId, n: Node, s: Span, spans: Spans)
    requires n.kind == Internal && Sorted(n.entries) && InnerOk(p, ViewOf(n), s, spans)
    ensures forall j :: 0 <= j < |n.entries| ==> s.lo < Rank(n.entries[j].key) < s.hi
  {
    forall j | 0 <= j < |n.entries| ensures s.lo < Rank(n.entries[j].key) < s.hi { SepAt(n, j); }
  }

  /** Child i of a node lies between the separators around it. */
  lemma KidIndex(p: PageId, n: Node, s: Span, spans: Spans, i: nat)
    requires n.kind == Internal && Sorted(n.entries) && InnerOk(p, ViewOf(n), s, spans) && i <= |n.entries|
    ensures var c := ChildAt(n, i);
      && KidOk(c, p, ViewOf(n), s, spans) && IsKid(ViewOf(n), spans[c].lo, c)
      && spans[c].lo == LowEnd(n, s.lo, i) && spans[c].hi == HighEnd(n, s.hi, i)
  {
    var c := ChildAt(n, i);
    if i > 0 { SepAt(n, i - 1); }
    SepsInside(p, n, s, spans);
    KidEnds(p, n, s, spans, c, i);
  }

  lemma KidEnds(p: PageId, n: Node, s: Span, spans: Spans, c: PageId, i: nat)
    requires n.kind == Internal && Sorted(n.entries) && i <= |n.entries|
    requires KidOk(c, p, ViewOf(n), s, spans) && spans[c].lo == LowEnd(n, s.lo, i)
    requires forall j :: 0 <= j < |n.entries| ==> s.lo < Rank(n.entries[j].key) < s.hi
    ensures spans[c].hi == HighEnd(n, s.hi, i)
  {
    if i < |n.entries| { SepAt(n, i); }
    if spans[c].hi in ViewOf(n).seps { var j := SepIndex(n, spans[c].hi); }
  }

  // ---------------------------------------------------------------- changing a node

  lemma InsertedSorted(es: seq<Entry>, i: nat, e: Entry)
    requires Sorted(es) && Between(es, i, Rank(e.key))
    ensures Sorted(Inserted(es, i, e))
  {
    var fs := Inserted(es, i, e);
    forall a | 0 <= a < |fs| ensures fs[a] == if a < i then es[a] else if a == i then e else es[a - 1] {}
  }

  lemma RemovedSorted(es: seq<Entry>, i: nat)
    requires Sorted(es) && i < |es|
    ensures Sorted(Removed(es, i))
  {
    var fs := Removed(es, i);
    forall a | 0 <= a < |fs| ensures fs[a] == es[if a < i then a else a + 1] {}
  }

  lemma ProjectPut(m: map<real, Entry>, x: real, e: Entry)
    ensures Values(m[x := e]) == Values(m)[x := e.value] && Rights(m[x := e]) == Rights(m)[x := e.right]
  {
  }

  lemma ProjectDrop(m: map<real, Entry>, x: real)
    ensures Values(m - {x}) == Values(m) - {x} && Rights(m - {x}) == Rights(m) - {x}
  {
  }

  lemma ProjectCut(m: map<real, Entry>, x: real)
    ensures Values(Below(m, x)) == Below(Values(m), x) && Values(From(m, x)) == From(Values(m), x)
    ensures Rights(Below(m, x)) == Below(Rights(m), x) && Rights(Above(m, x)) == Above(Rights(m), x)
  {
  }

  lemma ProjectJoin(l: map<real, Entry>, x: real, e: Entry, r: map<real, Entry>)
    ensures Rights(l[x := e] + r) == Rights(l)[x := e.right] + Rights(r)
  {
  }

  method LeafPut(n: Node, k: Bytes, v: Bytes) returns (n': Node, position: nat)
    requires n.kind == Leaf && Sorted(n.entries)
    ensures n' == n.(entries := n'.entries) && Sorted(n'.entries) && position <= |n.entries|
    ensures ViewOf(n') == LeafView(ViewOf(n).entries[Rank(k) := v], n.next)
    ensures
      || n'.entries == Inserted(n.entries, position, Entry(k, v, 0))
      || (position < |n.entries| && n.entries[position].key == k
          && n'.entries == n.entries[position := n.entries[position].(value := v)])
  {
    var es := n.entries;
    position := LowerBound(es, k);
    var same := false;
    if position < |es| {
      var c := Compare(es[position].key, k);
      same := c == 0;
      RankIsOrder(es[position].key, k);
    }
    if same {
      var e := es[position].(value := v);
      n' := n.(entries := es[position := e]);
      ReplacedByRank(es, position, e);
      ProjectPut(ByRank(es), Rank(k), e);
    } else {
      var e := Entry(k, v, 0);
      n' := n.(entries := Inserted(es, position, e));
      InsertedSorted(es, position, e);
      InsertedByRank(es, position, e);
      ProjectPut(ByRank(es), Rank(k), e);
    }
  }

  lemma LeafRemoved(n: Node, i: nat)
    requires n.kind == Leaf && Sorted(n.entries) && i < |n.entries|
    ensures var n' := n.(entries := Removed(n.entries, i));
      && Sorted(n'.entries)
      && ViewOf(n') == LeafView(ViewOf(n).entries - {Rank(n.entries[i].key)}, n.next)
  {
    RemovedSorted(n.entries, i);
    RemovedByRank(n.entries, i);
    ProjectDrop(ByRank(n.entries), Rank(n.entries[i].key));
  }

  lemma SepInserted(n: Node, i: nat, k: Bytes, r: PageId)
    requires n.kind == Internal && Sorted(n.entries) && Between(n.entries, i, Rank(k))
    ensures var n' := n.(entries := Inserted(n.entries, i, Entry(k, [], r)));
      && Sorted(n'.entries)
      && ViewOf(n') == ViewOf(n).(seps := ViewOf(n).seps[Rank(k) := r])
  {
    var e := Entry(k, [], r);
    InsertedSorted(n.entries, i, e);
    InsertedByRank(n.entries, i, e);
    ProjectPut(ByRank(n.entries), Rank(k), e);
  }

  /** Child i and the separator next to it leave the node. */
  function WithoutChild(n: Node, i: nat): Node
    requires 0 < |n.entries| && i <= |n.entries|
  {
    if i == 0 then n.(first := n.entries[0].right, entries := Removed(n.entries, 0))
    else n.(entries := Removed(n.entries, i - 1))
  }

  lemma ChildRemoved(n: Node, i: nat)
    requires n.kind == Internal && Sorted(n.entries) && 0 < |n.entries| && i <= |n.entries|
    ensures var n', v := WithoutChild(n, i), ViewOf(n);
      var x := Rank(n.entries[if i == 0 then 0 else i - 1].key);
      && Sorted(n'.entries) && x in v.seps
      && ViewOf(n') == (if i == 0 then InnerView(v.seps[x], v.seps - {x}) else v.(seps := v.seps - {x}))
  {
    var j := if i == 0 then 0 else i - 1;
    SepAt(n, j);
    RemovedSorted(n.entries, j);
    RemovedByRank(n.entries, j);
    ProjectDrop(ByRank(n.entries), Rank(n.entries[j].key));
  }

  lemma LeafCut(n: Node, m: nat, l: PageId, r: PageId)
    requires n.kind == Leaf && Sorted(n.entries) && m < |n.entries|
    ensures var x, v := Rank(n.entries[m].key), ViewOf(n);
      && Sorted(n.entries[..m]) && Sorted(n.entries[m..])
      && ViewOf(n.(entries := n.entries[..m], next := l)) == LeafView(Below(v.entries, x), l)
      && ViewOf(n.(entries := n.entries[m..], next := r)) == LeafView(From(v.entries, x), r)
  {
    CutByRank(n.entries, m);
    ProjectCut(ByRank(n.entries), Rank(n.entries[m].key));
  }

  lemma InnerCut(n: Node, m: nat)
    requires n.kind == Internal && Sorted(n.entries) && m < |n.entries|
    ensures var x, v := Rank(n.entries[m].key), ViewOf(n);
      && Sorted(n.entries[..m]) && Sorted(n.entries[m + 1..])
      && ViewOf(n.(entries := n.entries[..m])) == InnerView(v.first, Below(v.seps, x))
      && ViewOf(n.(first := n.entries[m].right, entries := n.entries[m + 1..]))
           == InnerView(n.entries[m].right, Above(v.seps, x))
      && x in v.seps && v.seps[x] == n.entries[m].right
  {
    SepAt(n, m);
    CutByRank(n.entries, m);
    ProjectCut(ByRank(n.entries), Rank(n.entries[m].key));
  }

  /** Two neighbours and the separator between them as one node. */
  function Combined(l: Node, k: Bytes, r: Node): Node {
    Node(Internal, 0, l.first, l.entries + [Entry(k, [], r.first)] + r.entries)
  }

  lemma CombinedView(l: Node, k: Bytes, r: Node)
    requires l.kind == Internal && r.kind == Internal && Sorted(l.entries) && Sorted(r.entries)
    requires forall i :: 0 <= i < |l.entries| ==> Rank(l.entries[i].key) < Rank(k)
    requires forall i :: 0 <= i < |r.entries| ==> Rank(k) < Rank(r.entries[i].key)
    ensures Sorted(Combined(l, k, r).entries)
    ensures ViewOf(Combined(l, k, r)) == Joined(ViewOf(l), Rank(k), ViewOf(r))
  {
    var e := Entry(k, [], r.first);
    JoinedByRank(l.entries, e, r.entries);
    ProjectJoin(ByRank(l.entries), Rank(k), e, ByRank(r.entries));
    CombinedSorted(l.entries, e, r.entries);
  }

  lemma CombinedSorted(es: seq<Entry>, e: Entry, fs: seq<Entry>)
    requires Sorted(es) && Sorted(fs)
    requires forall i :: 0 <= i < |es| ==> Rank(es[i].key) < Rank(e.key)
    requires forall i :: 0 <= i < |fs| ==> Rank(e.key) < Rank(fs[i].key)
    ensures Sorted(es + [e] + fs)
  {
    var gs, k := es + [e] + fs, |es|;
    forall a | 0 <= a < |gs| ensures gs[a] == if a < k then es[a] else if a == k then e else fs[a - k - 1] {}
  }

  lemma LeafKeyIn(n: Node, i: nat)
    requires n.kind == Leaf && Sorted(n.entries) && i < |n.entries|
    ensures var x := Rank(n.entries[i].key); x in ViewOf(n).entries && ViewOf(n).entries[x] == n.entries[i].value
  {
    IndexRank(n.entries, i);
  }

  lemma LeafKeyIndex(n: Node, x: real) returns (i: nat)
    requires n.kind == Leaf && x in ViewOf(n).entries
    ensures i < |n.entries| && Rank(n.entries[i].key) == x
  {
    i := RankIndex(n.entries, x);
  }
}
