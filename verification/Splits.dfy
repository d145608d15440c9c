/** Where an overflowing node is cut. */
module Splits {
  import opened Keys
  import opened Nodes

  /** Cutting a leaf before entry c, and an internal node at entry c, which moves up. */
  function LeftSize(n: Node, c: nat): nat
    requires c <= |n.entries|
  { HEADER_SIZE + EntriesSize(n.kind, n.entries[..c]) }

  function RightSize(n: Node, c: nat): nat
    requires c < |n.entries|
  { HEADER_SIZE + EntriesSize(n.kind, if n.kind == Leaf then n.entries[c..] else n.entries[c + 1..]) }

  function Larger(n: Node, c: nat): nat
    requires c < |n.entries|
  { if LeftSize(n, c) > RightSize(n, c) then LeftSize(n, c) else RightSize(n, c) }

  /** Both sides keep an entry; both fit. */
  predicate Admissible(n: Node, capacity: nat, c: nat) {
    && 1 <= c
    && (if n.kind == Leaf then c < |n.entries| else c + 1 < |n.entries|)
    && LeftSize(n, c) <= capacity && RightSize(n, c) <= capacity
  }

  /** Cut c is better than any cut d after it with the same larger side. */
  predicate Beats(n: Node, c: nat, d: nat)
    requires c < |n.entries| && d < |n.entries|
  { Larger(n, c) < Larger(n, d) || (Larger(n, c) == Larger(n, d) && c <= d) }

  /** Of the cuts below c, middle is the best; 0 stands for none. */
  ghost predicate BestBelow(n: Node, capacity: nat, c: nat, middle: nat) {
    if middle == 0 then forall d: nat :: d < c ==> !Admissible(n, capacity, d)
    else
      && middle < c && Admissible(n, capacity, middle)
      && forall d: nat :: d < c && Admissible(n, capacity, d) ==> Beats(n, middle, d)
  }

  lemma BestStep(n: Node, capacity: nat, c: nat, middle: nat)
    requires BestBelow(n, capacity, c, middle)
    requires 1 <= c && (if n.kind == Leaf then c < |n.entries| else c + 1 < |n.entries|)
    ensures BestBelow(n, capacity, c + 1,
      if LeftSize(n, c) <= capacity && RightSize(n, c) <= capacity && (middle == 0 || Larger(n, c) < Larger(n, middle))
      then c else middle)
  {
  }

  lemma BestOfAll(n: Node, capacity: nat, c: nat, middle: nat)
    requires BestBelow(n, capacity, c, middle)
    requires forall d: nat :: Admissible(n, capacity, d) ==> d < c
    ensures middle == 0 ==> forall d: nat :: !Admissible(n, capacity, d)
    ensures middle != 0 ==> Admissible(n, capacity, middle)
    ensures middle != 0 ==> forall d: nat :: Admissible(n, capacity, d) ==> Beats(n, middle, d)
  {
  }

  lemma {:induction false} SizeCut(kind: Kind, es: seq<Entry>, c: nat)
    requires c <= |es|
    ensures EntriesSize(kind, es) == EntriesSize(kind, es[..c]) + EntriesSize(kind, es[c..])
  {
    if c < |es| {
      SizeCut(kind, es[..|es| - 1], c);
      assert es[..|es| - 1][..c] == es[..c] && es[..|es| - 1][c..] == es[c..][..|es| - c - 1];
    } else {
      assert es[..c] == es && es[c..] == [];
    }
  }

  lemma SizeStep(kind: Kind, es: seq<Entry>, c: nat)
    requires c < |es|
    ensures EntriesSize(kind, es[..c + 1]) == EntriesSize(kind, es[..c]) + EntrySize(kind, es[c])
    ensures EntriesSize(kind, es) == EntriesSize(kind, es[..c + 1]) + EntriesSize(kind, es[c + 1..])
  {
    assert es[..c + 1][..c] == es[..c];
    SizeCut(kind, es, c + 1);
  }

  method TotalSize(kind: Kind, es: seq<Entry>) returns (total: nat)
    ensures total == EntriesSize(kind, es)
  {
    total := 0;
    var i := 0;
    while i < |es|
      invariant 0 <= i <= |es| && total == EntriesSize(kind, es[..i])
    {
      SizeStep(kind, es, i);
      total := total + EntrySize(kind, es[i]);
      i := i + 1;
    }
    assert es[..|es|] == es;
  }

  /** The cuts below c are looked at; left is the size of what lies before cut c. */
  ghost predicate Scanning(n: Node, capacity: nat, c: nat, left: nat, middle: nat, best: int) {
    && 1 <= c <= |n.entries| && left == EntriesSize(n.kind, n.entries[..c])
    && BestBelow(n, capacity, c, middle) && (middle != 0 ==> best == Larger(n, middle))
  }

  lemma SidesAt(n: Node, c: nat)
    requires c < |n.entries|
    ensures LeftSize(n, c) == HEADER_SIZE + EntriesSize(n.kind, n.entries[..c])
    ensures RightSize(n, c) == HEADER_SIZE + EntriesSize(n.kind, n.entries) - EntriesSize(n.kind, n.entries[..c])
      - if n.kind == Leaf then 0 else EntrySize(n.kind, n.entries[c])
    ensures EntriesSize(n.kind, n.entries[..c + 1]) ==
      EntriesSize(n.kind, n.entries[..c]) + EntrySize(n.kind, n.entries[c])
  {
    SizeStep(n.kind, n.entries, c);
    SizeCut(n.kind, n.entries, c);
  }

  function Max(a: int, b: int): int { if a > b then a else b }

  /** What the scan keeps of a cut with these sides: the cut and its larger side, or what it had. */
  function Kept(leftSize: int, rightSize: int, capacity: nat, c: nat, middle: nat, best: int): (nat, int) {
    if leftSize <= capacity && rightSize <= capacity && (middle == 0 || Max(leftSize, rightSize) < best)
    then (c, Max(leftSize, rightSize)) else (middle, best)
  }

  lemma ScanStep(n: Node, capacity: nat, c: nat, left: nat, total: nat, middle: nat, best: int, kept: (nat, int))
    requires Scanning(n, capacity, c, left, middle, best) && total == EntriesSize(n.kind, n.entries)
    requires if n.kind == Leaf then c < |n.entries| else c + 1 < |n.entries|
    requires
      var promoted := if n.kind == Leaf then 0 else EntrySize(n.kind, n.entries[c]);
      kept == Kept(HEADER_SIZE + left, HEADER_SIZE + total - left - promoted, capacity, c, middle, best)
    ensures Scanning(n, capacity, c + 1, left + EntrySize(n.kind, n.entries[c]), kept.0, kept.1)
  {
    SidesAt(n, c);
    BestStep(n, capacity, c, middle);
  }

  lemma ScanStart(n: Node, capacity: nat)
    requires n.entries != []
    ensures Scanning(n, capacity, 1, EntrySize(n.kind, n.entries[0]), 0, 0)
  {
    SizeStep(n.kind, n.entries, 0);
    assert n.entries[..0] == [];
  }

  /** No cut is left to look at. */
  lemma ScanEnd(n: Node, capacity: nat, c: nat, left: nat, middle: nat, best: int)
    requires Scanning(n, capacity, c, left, middle, best)
      && (if n.kind == Leaf then c >= |n.entries| else c + 1 >= |n.entries|)
    ensures Best(n, capacity, middle)
  {
    BestOfAll(n, capacity, c, middle);
  }

  lemma NoCut(n: Node, capacity: nat)
    requires |n.entries| < if n.kind == Leaf then 2 else 3
    ensures Best(n, capacity, 0)
  {
  }

  /** The admissible cut whose larger side is smallest, the first of them; 0 if there is none. */
  ghost predicate Best(n: Node, capacity: nat, middle: nat) {
    && (middle == 0 ==> forall c: nat :: !Admissible(n, capacity, c))
    && (middle != 0 ==>
      Admissible(n, capacity, middle)
      && forall c: nat :: Admissible(n, capacity, c) ==> Beats(n, middle, c))
  }

  lemma BestThere(n: Node, capacity: nat) returns (middle: nat)
    ensures Best(n, capacity, middle)
  {
    middle := BestUpTo(n, capacity, |n.entries|);
    BestOfAll(n, capacity, |n.entries|, middle);
  }

  lemma {:induction false} BestUpTo(n: Node, capacity: nat, c: nat) returns (middle: nat)
    requires c <= |n.entries|
    ensures BestBelow(n, capacity, c, middle)
  {
    middle := 0;
    if c > 0 {
      middle := BestUpTo(n, capacity, c - 1);
      middle := BestNext(n, capacity, c - 1, middle);
    }
  }

  lemma BestNext(n: Node, capacity: nat, c: nat, middle: nat) returns (middle': nat)
    requires BestBelow(n, capacity, c, middle)
    ensures BestBelow(n, capacity, c + 1, middle')
  {
    middle' := if Admissible(n, capacity, c) && (middle == 0 || Larger(n, c) < Larger(n, middle)) then c else middle;
  }

  lemma BestUnique(n: Node, capacity: nat, a: nat, b: nat)
    requires Best(n, capacity, a) && Best(n, capacity, b)
    ensures a == b
  {
  }

  /** The best cut; 0 if there is none. */
  ghost function Cut(n: Node, capacity: nat): (middle: nat)
    ensures Best(n, capacity, middle) && (middle != 0 ==> middle < |n.entries|)
  {
    BestSome(n, capacity);
    var m: nat :| Best(n, capacity, m);
    m
  }

  lemma BestSome(n: Node, capacity: nat)
    ensures exists m: nat :: Best(n, capacity, m)
  {
    var m := BestThere(n, capacity);
  }

  /** Keeps cut c, whose sides have these sizes, if it is admissible and better than the best one so far. */
  method Weigh(n: Node, capacity: nat, c: nat, left: nat, total: nat, middle: nat, best: int)
      returns (middle': nat, best': int)
    requires Scanning(n, capacity, c, left, middle, best) && total == EntriesSize(n.kind, n.entries)
    requires if n.kind == Leaf then c < |n.entries| else c + 1 < |n.entries|
    ensures Scanning(n, capacity, c + 1, left + EntrySize(n.kind, n.entries[c]), middle', best')
  {
    var promoted := if n.kind == Leaf then 0 else EntrySize(n.kind, n.entries[c]);
    var leftSize := HEADER_SIZE + left;
    var rightSize := HEADER_SIZE + total - left - promoted;
    var largest := Max(leftSize, rightSize);
    middle', best' := middle, best;
    if leftSize <= capacity && rightSize <= capacity && (middle == 0 || largest < best) {
      middle', best' := c, largest;
    }
    ScanStep(n, capacity, c, left, total, middle, best, (middle', best'));
  }

  method LeafSplitPoint(n: Node, capacity: nat) returns (middle: nat)
    requires n.kind == Leaf
    ensures Best(n, capacity, middle)
  {
    middle := 0;
    var total := TotalSize(n.kind, n.entries);
    if |n.entries| < 2 {
      NoCut(n, capacity);
      return;
    }
    var left: nat := EntrySize(n.kind, n.entries[0]);
    var best := 0;
    var c: nat := 1;
    ScanStart(n, capacity);
    while c < |n.entries|
      invariant Scanning(n, capacity, c, left, middle, best)
    {
      middle, best := Weigh(n, capacity, c, left, total, middle, best);
      left := left + EntrySize(n.kind, n.entries[c]);
      c := c + 1;
    }
    ScanEnd(n, capacity, c, left, middle, best);
  }

  method InnerSplitPoint(n: Node, capacity: nat) returns (middle: nat)
    requires n.kind == Internal
    ensures Best(n, capacity, middle)
  {
    middle := 0;
    var total := TotalSize(n.kind, n.entries);
    if |n.entries| < 3 {
      NoCut(n, capacity);
      return;
    }
    var left: nat := EntrySize(n.kind, n.entries[0]);
    var best := 0;
    var c: nat := 1;
    ScanStart(n, capacity);
    while c + 1 < |n.entries|
      invariant Scanning(n, capacity, c, left, middle, best) && c < |n.entries|
    {
      middle, best := Weigh(n, capacity, c, left, total, middle, best);
      left := left + EntrySize(n.kind, n.entries[c]);
      c := c + 1;
    }
    ScanEnd(n, capacity, c, left, middle, best);
  }

  ghost predicate HalfSized(n: Node, capacity: nat) {
    forall i :: 0 <= i < |n.entries| ==> 2 * EntrySize(n.kind, n.entries[i]) + HEADER_SIZE <= capacity
  }

  /** The longest run of entries from the front that still fits. */
  lemma {:induction false} LongestFit(n: Node, capacity: nat, c: nat) returns (d: nat)
    requires c <= |n.entries| && LeftSize(n, c) <= capacity < EncodedSize(n)
    ensures c <= d < |n.entries| && LeftSize(n, d) <= capacity < LeftSize(n, d + 1)
    decreases |n.entries| - c
  {
    assert n.entries[..|n.entries|] == n.entries;
    if LeftSize(n, c + 1) > capacity { d := c; } else { d := LongestFit(n, capacity, c + 1); }
  }

  /**
   * A node that fitted, grown by one entry, with no entry above half of the room: a cut exists.
   */
  lemma SplitExists(n: Node, capacity: nat)
    requires HalfSized(n, capacity) && HEADER_SIZE <= capacity < EncodedSize(n)
    requires 2 * EncodedSize(n) + HEADER_SIZE <= 3 * capacity
    ensures exists c :: Admissible(n, capacity, c)
  {
    assert n.entries[..0] == [];
    var d := LongestFit(n, capacity, 0);
    SizeStep(n.kind, n.entries, d);
    SizeCut(n.kind, n.entries, d);
    if n.kind == Leaf || d + 1 < |n.entries| {
      assert Admissible(n, capacity, d);
    } else {
      LastButOne(n, capacity, d);
    }
  }

  /** When only the last entry does not fit, the entry before it can move up. */
  lemma LastButOne(n: Node, capacity: nat, d: nat)
    requires n.kind == Internal && HalfSized(n, capacity) && d + 1 == |n.entries|
    requires LeftSize(n, d) <= capacity < EncodedSize(n)
    ensures d >= 2 && Admissible(n, capacity, d - 1)
  {
    var es := n.entries;
    WholeSize(n.kind, es, d);
    NoneSize(n.kind, es);
    if d > 0 {
      SizeStep(n.kind, es, d - 1);
      LastSize(n.kind, es, d);
    }
  }

  lemma NoneSize(kind: Kind, es: seq<Entry>)
    ensures EntriesSize(kind, es[..0]) == 0
  {
  }

  lemma WholeSize(kind: Kind, es: seq<Entry>, d: nat)
    requires d + 1 == |es|
    ensures EntriesSize(kind, es) == EntriesSize(kind, es[..d]) + EntrySize(kind, es[d])
  {
  }

  lemma LastSize(kind: Kind, es: seq<Entry>, d: nat)
    requires d + 1 == |es|
    ensures EntriesSize(kind, es[d..]) == EntrySize(kind, es[d])
  {
    assert es[d..] == [es[d]] && [es[d]][..0] == [];
  }

  lemma SizeInserted(kind: Kind, es: seq<Entry>, i: nat, e: Entry)
    requires i <= |es|
    ensures EntriesSize(kind, Inserted(es, i, e)) == EntriesSize(kind, es) + EntrySize(kind, e)
  {
    var fs := Inserted(es, i, e);
    SizeStep(kind, fs, i);
    SizeCut(kind, es, i);
    assert fs[..i] == es[..i] && fs[i + 1..] == es[i..];
  }

  lemma SizeReplaced(kind: Kind, es: seq<Entry>, i: nat, e: Entry)
    requires i < |es|
    ensures EntriesSize(kind, es[i := e]) == EntriesSize(kind, es) - EntrySize(kind, es[i]) + EntrySize(kind, e)
  {
    SizeStep(kind, es, i);
    SizeStep(kind, es[i := e], i);
    assert es[i := e][..i] == es[..i] && es[i := e][i + 1..] == es[i + 1..];
  }

  /** A node that fits and gains or changes one entry can be cut, if no entry takes more than half of the room. */
  lemma GrownSplits(n: Node, n': Node, i: nat, e: Entry, capacity: nat)
    requires EncodedSize(n) <= capacity && HalfSized(n', capacity) && i <= |n.entries|
    requires n' == n.(entries := Inserted(n.entries, i, e))
      || (i < |n.entries| && n' == n.(entries := n.entries[i := e]))
    ensures EncodedSize(n') <= capacity || exists c :: Admissible(n', capacity, c)
  {
    assert n'.entries[i] == e;
    if n'.entries == Inserted(n.entries, i, e) {
      SizeInserted(n.kind, n.entries, i, e);
    } else {
      SizeReplaced(n.kind, n.entries, i, e);
    }
    if EncodedSize(n') > capacity { SplitExists(n', capacity); }
  }
}
