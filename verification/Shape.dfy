/**
 * The shape of the tree, seen without entry arrays: a leaf is a finite map from ranks to
 * values, an internal node is a first child and a finite map from separator to right child.
 * Page 0 is never a real page; here it stands above the root, so that the root has a parent too.
 */
module Shape {
  import opened Common
  import opened Keys

  type PageId = int

  datatype View =
    | LeafView(entries: map<real, Bytes>, next: PageId)
    | InnerView(first: PageId, seps: map<real, PageId>)

  /** What a page covers: the half-open key interval, the distance to the leaves, the parent. */
  datatype Span = Span(lo: real, hi: real, height: nat, parent: PageId)

  type Views = map<PageId, View>
  type Spans = map<PageId, Span>
  type Contents = map<real, Bytes>

  /** The right sibling of a leaf is the leaf that starts where this one ends. */
  ghost predicate Linked(next: PageId, hi: real, spans: Spans) {
    if next == 0 then hi == 1.0
    else next in spans && spans[next].height == 0 && spans[next].lo == hi
  }

  /** A leaf holds exactly the part of the contents that falls in its interval. */
  ghost predicate LeafOk(n: View, s: Span, spans: Spans, held: Contents)
    requires n.LeafView?
  {
    && s.height == 0
    && Linked(n.next, s.hi, spans)
    && (forall x :: x in n.entries ==> s.lo <= x < s.hi && x in held && held[x] == n.entries[x])
    && (forall x :: x in held && s.lo <= x < s.hi ==> x in n.entries)
  }

  ghost predicate KidOk(c: PageId, p: PageId, n: View, s: Span, spans: Spans)
    requires n.InnerView?
  {
    && c in spans
    && spans[c].parent == p
    && spans[c].height + 1 == s.height
    && spans[c].lo < spans[c].hi
    && (spans[c].hi == s.hi || spans[c].hi in n.seps)
    && (forall y :: y in n.seps ==> !(spans[c].lo < y < spans[c].hi))
  }

  /** The children of an internal node cut its interval at the separators, one level down. */
  ghost predicate InnerOk(p: PageId, n: View, s: Span, spans: Spans)
    requires n.InnerView?
  {
    && KidOk(n.first, p, n, s, spans) && spans[n.first].lo == s.lo
    && (forall x {:trigger n.seps[x]} :: x in n.seps ==>
          s.lo < x < s.hi && KidOk(n.seps[x], p, n, s, spans) && spans[n.seps[x]].lo == x)
  }

  ghost predicate NodeOk(p: PageId, n: View, s: Span, spans: Spans, held: Contents) {
    && s.lo < s.hi
    && if n.LeafView? then LeafOk(n, s, spans, held) else InnerOk(p, n, s, spans)
  }

  ghost predicate IsKid(n: View, lo: real, c: PageId) {
    n.InnerView? && (c == n.first || (lo in n.seps && n.seps[lo] == c))
  }

  ghost predicate HasParent(views: Views, spans: Spans, p: PageId) {
    && p in spans && 0 in spans
    && spans[p].height < spans[0].height
    && spans[p].parent in views
    && IsKid(views[spans[p].parent], spans[p].lo, p)
  }

  ghost predicate PageOk(views: Views, spans: Spans, held: Contents, p: PageId) {
    && p in views && p in spans
    && NodeOk(p, views[p], spans[p], spans, held)
    && (p != 0 ==> HasParent(views, spans, p))
  }

  ghost predicate Shaped(views: Views, spans: Spans, held: Contents) {
    && views.Keys == spans.Keys
    && 0 in views && views[0].InnerView?
    && spans[0].lo == 0.0 && spans[0].hi == 1.0 && spans[0].parent == 0
    && (forall p {:trigger PageOk(views, spans, held, p)} :: p in views ==> PageOk(views, spans, held, p))
  }

  // ---------------------------------------------------------------- where pages lie

  lemma PageAt(views: Views, spans: Spans, held: Contents, p: PageId)
    requires Shaped(views, spans, held) && p in views
    ensures PageOk(views, spans, held, p)
  {
    assert PageOk(views, spans, held, p);
  }

  lemma KidAt(p: PageId, n: View, s: Span, spans: Spans, lo: real, c: PageId)
    requires n.InnerView? && InnerOk(p, n, s, spans) && IsKid(n, lo, c)
    requires c in spans && spans[c].lo == lo < spans[c].hi
    ensures KidOk(c, p, n, s, spans) && s.lo <= lo < spans[c].hi <= s.hi
    ensures lo == s.lo <==> c == n.first
    ensures lo != s.lo ==> lo in n.seps && n.seps[lo] == c
  {
  }

  lemma UpAt(views: Views, spans: Spans, held: Contents, p: PageId)
    requires Shaped(views, spans, held) && p in views && p != 0
    ensures HasParent(views, spans, p)
  {
    PageAt(views, spans, held, p);
  }

  lemma Parent(views: Views, spans: Spans, held: Contents, p: PageId) returns (above: PageId)
    requires Shaped(views, spans, held) && p in views && p != 0
    ensures above == spans[p].parent && above in views && views[above].InnerView? && above != p
    ensures NodeOk(p, views[p], spans[p], spans, held) && InnerOk(above, views[above], spans[above], spans)
    ensures IsKid(views[above], spans[p].lo, p) && KidOk(p, above, views[above], spans[above], spans)
    ensures spans[p].lo == spans[above].lo <==> p == views[above].first
    ensures spans[above].lo <= spans[p].lo < spans[p].hi <= spans[above].hi
    ensures spans[p].height < spans[above].height <= spans[0].height
  {
    above := spans[p].parent;
    PageAt(views, spans, held, p);
    PageAt(views, spans, held, above);
    KidAt(above, views[above], spans[above], spans, spans[p].lo, p);
  }

  /** Pages at one height cover disjoint intervals. */
  lemma {:induction false} Disjoint(views: Views, spans: Spans, held: Contents, p: PageId, q: PageId)
    requires Shaped(views, spans, held) && p in spans && q in spans && p != q
    requires spans[p].height == spans[q].height
    ensures spans[p].hi <= spans[q].lo || spans[q].hi <= spans[p].lo
    decreases spans[0].height - spans[p].height
  {
    PageAt(views, spans, held, p);
    PageAt(views, spans, held, q);
    var above := Parent(views, spans, held, p);
    var other := Parent(views, spans, held, q);
    if above != other {
      Disjoint(views, spans, held, above, other);
    } else {
      KidAt(above, views[above], spans[above], spans, spans[p].lo, p);
      KidAt(above, views[above], spans[above], spans, spans[q].lo, q);
    }
  }

  lemma {:induction false} Within(views: Views, spans: Spans, held: Contents, p: PageId)
    requires Shaped(views, spans, held) && p in spans
    ensures 0.0 <= spans[p].lo < spans[p].hi <= 1.0
    decreases spans[0].height - spans[p].height
  {
    if p != 0 {
      PageAt(views, spans, held, p);
      var above := Parent(views, spans, held, p);
      Within(views, spans, held, above);
    }
  }

  /** A page that nothing below or beside it has changed is still well placed. */
  lemma Frame(views: Views, spans: Spans, held: Contents, spans': Spans, held': Contents, q: PageId, s': Span)
    requires q in views && q in spans && NodeOk(q, views[q], spans[q], spans, held)
    requires s' == spans[q].(parent := s'.parent)
    requires views[q].InnerView? ==>
      forall d :: d in spans && spans[d].parent == q ==> d in spans' && spans'[d] == spans[d]
    requires views[q].LeafView? ==> Linked(views[q].next, spans[q].hi, spans')
    requires views[q].LeafView? ==>
      forall x :: spans[q].lo <= x < spans[q].hi ==> (x in held <==> x in held') && (x in held ==> held[x] == held'[x])
    ensures NodeOk(q, views[q], s', spans', held')
  {
  }

  // ---------------------------------------------------------------- entries of one leaf

  ghost predicate LeafSet(views: Views, spans: Spans, held: Contents, views': Views, held': Contents, p: PageId)
  {
    && p in views && p in spans && views[p].LeafView?
    && views'.Keys == views.Keys && views' == views[p := views'[p]]
    && views'[p].LeafView? && views'[p].next == views[p].next
    && (forall x :: x in views'[p].entries ==>
      spans[p].lo <= x < spans[p].hi && x in held' && held'[x] == views'[p].entries[x])
    && (forall x :: x in held' && spans[p].lo <= x < spans[p].hi ==> x in views'[p].entries)
    && (forall x :: !(spans[p].lo <= x < spans[p].hi) ==>
      (x in held <==> x in held') && (x in held ==> held[x] == held'[x]))
  }

  lemma SetLeafPage(views: Views, spans: Spans, held: Contents, views': Views, held': Contents, p: PageId, q: PageId)
    requires Shaped(views, spans, held) && LeafSet(views, spans, held, views', held', p) && q in views
    ensures PageOk(views', spans, held', q)
  {
    PageAt(views, spans, held, q);
    PageAt(views, spans, held, p);
    if q != p {
      if views[q].LeafView? { Disjoint(views, spans, held, p, q); }
      Frame(views, spans, held, spans, held', q, spans[q]);
    }
  }

  lemma SetLeaf(views: Views, spans: Spans, held: Contents, views': Views, held': Contents, p: PageId)
    requires Shaped(views, spans, held) && LeafSet(views, spans, held, views', held', p)
    ensures Shaped(views', spans, held')
  {
    forall q | q in views' ensures PageOk(views', spans, held', q) {
      SetLeafPage(views, spans, held, views', held', p, q);
    }
    PageAt(views, spans, held, 0);
  }

  // ---------------------------------------------------------------- splits

  ghost function Below<T>(m: map<real, T>, x: real): map<real, T> { map y | y in m && y < x :: m[y] }
  ghost function From<T>(m: map<real, T>, x: real): map<real, T> { map y | y in m && y >= x :: m[y] }
  ghost function Above<T>(m: map<real, T>, x: real): map<real, T> { map y | y in m && y > x :: m[y] }

  /** Two children of one node cover disjoint intervals. */
  lemma KidsApart(p: PageId, n: View, s: Span, spans: Spans, c: PageId, d: PageId)
    requires n.InnerView? && InnerOk(p, n, s, spans) && c != d
    requires c in spans && IsKid(n, spans[c].lo, c) && d in spans && IsKid(n, spans[d].lo, d)
    ensures spans[c].hi <= spans[d].lo || spans[d].hi <= spans[c].lo
  {
    KidFacts(p, n, s, spans, c);
    KidFacts(p, n, s, spans, d);
    if spans[c].lo < spans[d].lo {
      assert spans[d].lo in n.seps;
    } else if spans[d].lo < spans[c].lo {
      assert spans[c].lo in n.seps;
    }
  }

  lemma KidFacts(p: PageId, n: View, s: Span, spans: Spans, c: PageId)
    requires n.InnerView? && InnerOk(p, n, s, spans) && c in spans && IsKid(n, spans[c].lo, c)
    ensures KidOk(c, p, n, s, spans)
    ensures if c == n.first then spans[c].lo == s.lo
      else spans[c].lo in n.seps && n.seps[spans[c].lo] == c && s.lo < spans[c].lo
  {
    if c != n.first { assert n.seps[spans[c].lo] == c; }
  }

  /** Separator x inside kid c of p: c keeps the part below x, r takes the rest, the other kids stay. */
  ghost predicate SepAdded(p: PageId, n: View, s: Span, spans: Spans, spans': Spans, c: PageId, x: real, r: PageId) {
    && n.InnerView? && InnerOk(p, n, s, spans)
    && c in spans && IsKid(n, spans[c].lo, c) && spans[c].lo < x < spans[c].hi
    && (forall d :: d in spans && d != c && spans[d].parent == p ==> d in spans' && spans'[d] == spans[d])
    && c in spans' && spans'[c] == spans[c].(hi := x)
    && r in spans' && spans'[r] == spans[c].(lo := x)
  }

  lemma OtherKid(p: PageId, n: View, s: Span, spans: Spans, spans': Spans, c: PageId, x: real, r: PageId, d: PageId)
    requires SepAdded(p, n, s, spans, spans', c, x, r) && d in spans && d != c && IsKid(n, spans[d].lo, d)
    ensures KidOk(d, p, n.(seps := n.seps[x := r]), s, spans') && spans'[d].lo == spans[d].lo
  {
    KidFacts(p, n, s, spans, d);
    KidsApart(p, n, s, spans, c, d);
  }

  lemma CutKid(p: PageId, n: View, s: Span, spans: Spans, spans': Spans, c: PageId, x: real, r: PageId)
    requires SepAdded(p, n, s, spans, spans', c, x, r)
    ensures KidOk(c, p, n.(seps := n.seps[x := r]), s, spans') && KidOk(r, p, n.(seps := n.seps[x := r]), s, spans')
    ensures s.lo < x < s.hi
  {
    KidFacts(p, n, s, spans, c);
    KidAt(p, n, s, spans, spans[c].lo, c);
  }

  lemma AddSepOk(p: PageId, n: View, s: Span, spans: Spans, spans': Spans, c: PageId, x: real, r: PageId)
    requires SepAdded(p, n, s, spans, spans', c, x, r)
    ensures InnerOk(p, n.(seps := n.seps[x := r]), s, spans')
  {
    var n' := n.(seps := n.seps[x := r]);
    CutKid(p, n, s, spans, spans', c, x, r);
    if c != n.first { OtherKid(p, n, s, spans, spans', c, x, r, n.first); }
    forall y | y in n'.seps
      ensures s.lo < y < s.hi && KidOk(n'.seps[y], p, n', s, spans') && spans'[n'.seps[y]].lo == y
    {
      if y != x && n.seps[y] != c { OtherKid(p, n, s, spans, spans', c, x, r, n.seps[y]); }
    }
  }

  ghost predicate LeafSplit(views: Views, spans: Spans, views': Views, spans': Spans, p: PageId, x: real, r: PageId)
  {
    && p in views && p in spans && views[p].LeafView? && r !in views && spans[p].lo < x < spans[p].hi
    && spans[p].parent in views && views[spans[p].parent].InnerView?
    && views' == views[p := LeafView(Below(views[p].entries, x), r)]
              [r := LeafView(From(views[p].entries, x), views[p].next)]
              [spans[p].parent := views[spans[p].parent].(seps := views[spans[p].parent].seps[x := r])]
    && spans' == spans[p := spans[p].(hi := x)][r := spans[p].(lo := x)]
  }

  lemma SplitLeafHalves(views: Views, spans: Spans, held: Contents, views': Views, spans': Spans, p: PageId, x: real,
                        r: PageId)
    requires LeafSplit(views, spans, views', spans', p, x, r) && NodeOk(p, views[p], spans[p], spans, held)
      && p != spans[p].parent && r != spans[p].parent && r !in spans && r != 0
    ensures NodeOk(p, views'[p], spans'[p], spans', held) && NodeOk(r, views'[r], spans'[r], spans', held)
  {
  }

  lemma SplitLeafOther(views: Views, spans: Spans, held: Contents, views': Views, spans': Spans, p: PageId, x: real,
                       r: PageId, q: PageId)
    requires LeafSplit(views, spans, views', spans', p, x, r) && q in views && q in spans && q != p && r !in spans
      && NodeOk(q, views[q], spans[q], spans, held)
    requires IsKid(views[spans[p].parent], spans[p].lo, p)
    ensures NodeOk(q, views'[q], spans'[q], spans', held)
  {
    if q == spans[p].parent {
      AddSepOk(q, views[q], spans[q], spans, spans', p, x, r);
    } else {
      Frame(views, spans, held, spans', held, q, spans'[q]);
    }
  }

  lemma SplitLeafNode(views: Views, spans: Spans, held: Contents, views': Views, spans': Spans, p: PageId, x: real,
                      r: PageId, q: PageId)
    requires Shaped(views, spans, held) && LeafSplit(views, spans, views', spans', p, x, r) && q in views'
    ensures NodeOk(q, views'[q], spans'[q], spans', held)
  {
    PageAt(views, spans, held, p);
    if q in views && q != p {
      PageAt(views, spans, held, q);
      SplitLeafOther(views, spans, held, views', spans', p, x, r, q);
    } else {
      SplitLeafHalves(views, spans, held, views', spans', p, x, r);
    }
  }

  lemma SplitLeafUp(views: Views, spans: Spans, held: Contents, views': Views, spans': Spans, p: PageId, x: real,
                    r: PageId, q: PageId)
    requires Shaped(views, spans, held) && LeafSplit(views, spans, views', spans', p, x, r) && q in views' && q != 0
    ensures HasParent(views', spans', q)
  {
    var above := Parent(views, spans, held, p);
    PageAt(views, spans, held, if q == r then p else q);
  }

  lemma SplitLeaf(views: Views, spans: Spans, held: Contents, views': Views, spans': Spans, p: PageId, x: real,
                  r: PageId)
    requires Shaped(views, spans, held) && LeafSplit(views, spans, views', spans', p, x, r)
    ensures Shaped(views', spans', held)
  {
    forall q | q in views' ensures PageOk(views', spans', held, q) {
      SplitLeafNode(views, spans, held, views', spans', p, x, r, q);
      if q != 0 { SplitLeafUp(views, spans, held, views', spans', p, x, r, q); }
    }
  }

  /** The spans after the children of p from x on have moved to a new right neighbour r. */
  ghost function SplitSpans(spans: Spans, p: PageId, x: real, r: PageId): Spans
    requires p in spans
  {
    map c | c in spans.Keys + {r} ::
      if c == r then spans[p].(lo := x)
      else if c == p then spans[p].(hi := x)
      else if spans[c].parent == p && spans[c].lo >= x then spans[c].(parent := r)
      else spans[c]
  }

  ghost predicate InnerSplit(views: Views, spans: Spans, views': Views, spans': Spans, p: PageId, x: real, r: PageId)
  {
    && p in views && p in spans && views[p].InnerView? && r !in views && x in views[p].seps && p != 0
    && spans[p].parent in views && views[spans[p].parent].InnerView?
    && views' == views[p := InnerView(views[p].first, Below(views[p].seps, x))]
              [r := InnerView(views[p].seps[x], Above(views[p].seps, x))]
              [spans[p].parent := views[spans[p].parent].(seps := views[spans[p].parent].seps[x := r])]
    && r !in spans && spans' == SplitSpans(spans, p, x, r)
  }

  lemma LowerHalf(p: PageId, n: View, s: Span, spans: Spans, spans': Spans, x: real)
    requires n.InnerView? && InnerOk(p, n, s, spans) && x in n.seps
    requires forall d :: d in spans && spans[d].parent == p && spans[d].lo < x ==> d in spans' && spans'[d] == spans[d]
    ensures InnerOk(p, InnerView(n.first, Below(n.seps, x)), s.(hi := x), spans')
  {
    var n' := n.(seps := Below(n.seps, x));
    forall y | y in n'.seps ensures KidOk(n'.seps[y], p, n', s.(hi := x), spans') && spans'[n'.seps[y]].lo == y {
      assert KidOk(n.seps[y], p, n, s, spans);
    }
  }

  lemma UpperHalf(p: PageId, n: View, s: Span, spans: Spans, spans': Spans, x: real, r: PageId)
    requires n.InnerView? && InnerOk(p, n, s, spans) && x in n.seps
    requires forall d :: d in spans && spans[d].parent == p && spans[d].lo >= x ==>
      d in spans' && spans'[d] == spans[d].(parent := r)
    ensures InnerOk(r, InnerView(n.seps[x], Above(n.seps, x)), s.(lo := x), spans')
  {
    var n' := InnerView(n.seps[x], Above(n.seps, x));
    assert KidOk(n.seps[x], p, n, s, spans);
    assert KidOk(n'.first, r, n', s.(lo := x), spans');
    forall y | y in n'.seps ensures KidOk(n'.seps[y], r, n', s.(lo := x), spans') && spans'[n'.seps[y]].lo == y {
      assert KidOk(n.seps[y], p, n, s, spans);
    }
  }

  lemma SplitInnerNode(views: Views, spans: Spans, held: Contents, views': Views, spans': Spans, p: PageId, x: real,
                       r: PageId, q: PageId)
    requires Shaped(views, spans, held) && InnerSplit(views, spans, views', spans', p, x, r) && q in views'
    ensures NodeOk(q, views'[q], spans'[q], spans', held)
  {
    var above := Parent(views, spans, held, p);
    if q == above {
      AddSepOk(above, views[above], spans[above], spans, spans', p, x, r);
    } else if q != p && q != r {
      PageAt(views, spans, held, q);
      SplitInnerOther(views, spans, held, views', spans', p, x, r, q);
    } else {
      SplitInnerHalves(views, spans, views', spans', p, x, r);
    }
  }

  lemma SplitInnerOther(views: Views, spans: Spans, held: Contents, views': Views, spans': Spans, p: PageId, x: real,
                        r: PageId, q: PageId)
    requires InnerSplit(views, spans, views', spans', p, x, r) && spans[p].height > 0
    requires q in views && q in spans && q != p && q != spans[p].parent && NodeOk(q, views[q], spans[q], spans, held)
    ensures NodeOk(q, views'[q], spans'[q], spans', held)
  {
    Frame(views, spans, held, spans', held, q, spans'[q]);
  }

  lemma SplitInnerHalves(views: Views, spans: Spans, views': Views, spans': Spans, p: PageId, x: real, r: PageId)
    requires InnerSplit(views, spans, views', spans', p, x, r) && InnerOk(p, views[p], spans[p], spans)
      && spans[p].parent != p
    ensures InnerOk(p, views'[p], spans'[p], spans') && InnerOk(r, views'[r], spans'[r], spans')
    ensures spans[p].lo < x < spans[p].hi
  {
    LowerHalf(p, views[p], spans[p], spans, spans', x);
    UpperHalf(p, views[p], spans[p], spans, spans', x, r);
  }

  lemma SplitInnerUp(views: Views, spans: Spans, views': Views, spans': Spans, p: PageId, x: real, r: PageId, q: PageId)
    requires InnerSplit(views, spans, views', spans', p, x, r) && q in views' && q != 0 && p != spans[p].parent
    requires HasParent(views, spans, p) && (q != r ==> HasParent(views, spans, q))
    requires x !in views[spans[p].parent].seps && views[p].first in spans && spans[views[p].first].lo < x
    ensures HasParent(views', spans', q)
  {
  }

  lemma SplitInner(views: Views, spans: Spans, held: Contents, views': Views, spans': Spans, p: PageId, x: real,
                   r: PageId)
    requires Shaped(views, spans, held) && InnerSplit(views, spans, views', spans', p, x, r)
    ensures Shaped(views', spans', held)
  {
    var above := Parent(views, spans, held, p);
    UpAt(views, spans, held, p);
    forall q | q in views' ensures PageOk(views', spans', held, q) {
      SplitInnerNode(views, spans, held, views', spans', p, x, r, q);
      if q != 0 {
        if q != r { UpAt(views, spans, held, q); }
        SplitInnerUp(views, spans, views', spans', p, x, r, q);
      }
    }
  }

  // ---------------------------------------------------------------- the root moves

  /** The old root has moved to page l and the root page now joins it with r. */
  ghost predicate RootGrown(views: Views, spans: Spans, views': Views, spans': Spans, root: PageId, x: real, r: PageId,
                            l: PageId)
  {
    && root in views && root in spans && 0 in spans && r in spans && l !in views && l !in spans && root != 0
    && 0 in views && views[0] == InnerView(root, map[x := r])
    && views' == views[l := views[root]][root := InnerView(l, map[x := r])][0 := InnerView(root, map[])]
    && spans' == GrownSpans(spans, root, r, l)
  }

  ghost function GrownSpans(spans: Spans, root: PageId, r: PageId, l: PageId): Spans
    requires root in spans && 0 in spans
  {
    map c | c in spans.Keys + {l} ::
      if c == l then spans[root].(parent := root)
      else if c == root then Span(0.0, 1.0, spans[0].height, 0)
      else if c == 0 then spans[0].(height := spans[0].height + 1)
      else if c == r then spans[r].(parent := root)
      else if spans[c].parent == root then spans[c].(parent := l)
      else spans[c]
  }

  lemma GrowRootNode(views: Views, spans: Spans, held: Contents, views': Views, spans': Spans, root: PageId, x: real,
                     r: PageId, l: PageId, q: PageId)
    requires Shaped(views, spans, held) && RootGrown(views, spans, views', spans', root, x, r, l) && q in views'
    ensures NodeOk(q, views'[q], spans'[q], spans', held)
  {
    PageAt(views, spans, held, 0);
    PageAt(views, spans, held, root);
    assert x in views[0].seps;
    if q == l {
      GrowRootOld(views, spans, held, views', spans', root, x, r, l);
    } else if q != root && q != 0 {
      PageAt(views, spans, held, q);
      Within(views, spans, held, q);
      GrowRootOther(views, spans, held, views', spans', root, x, r, l, q);
    } else {
      GrowRootTop(views, spans, views', spans', root, x, r, l);
    }
  }

  lemma GrowRootOther(views: Views, spans: Spans, held: Contents, views': Views, spans': Spans, root: PageId, x: real,
                      r: PageId, l: PageId, q: PageId)
    requires RootGrown(views, spans, views', spans', root, x, r, l)
    requires q in views && q in spans && q != root && q != 0 && NodeOk(q, views[q], spans[q], spans, held)
      && spans[q].hi > 0.0
    requires spans[r].parent == spans[root].parent == spans[0].parent == 0 && spans[root].lo == 0.0
    ensures NodeOk(q, views'[q], spans'[q], spans', held)
  {
    Frame(views, spans, held, spans', held, q, spans'[q]);
  }

  lemma GrowRootOld(views: Views, spans: Spans, held: Contents, views': Views, spans': Spans, root: PageId, x: real,
                    r: PageId, l: PageId)
    requires RootGrown(views, spans, views', spans', root, x, r, l)
      && NodeOk(root, views[root], spans[root], spans, held)
    requires spans[r].parent == spans[root].parent == spans[0].parent == 0 && spans[root].lo == 0.0
    requires spans[0].height > 0
    ensures NodeOk(l, views'[l], spans'[l], spans', held)
  {
    RootKids(views, spans, views', spans', root, x, r, l);
    if views[root].LeafView? { RootLink(views, spans, views', spans', root, x, r, l); }
    Rehome(root, views[root], spans[root], spans'[l], spans, spans', held, l);
  }

  /** The children of the root follow its node to the new page. */
  lemma RootKids(views: Views, spans: Spans, views': Views, spans': Spans, root: PageId, x: real, r: PageId, l: PageId)
    requires RootGrown(views, spans, views', spans', root, x, r, l)
    requires spans[r].parent == spans[root].parent == spans[0].parent == 0
    ensures l in views' && views'[l] == views[root] && l in spans' && spans'[l] == spans[root].(parent := root)
    ensures forall d :: d in spans && spans[d].parent == root ==> d in spans' && spans'[d] == spans[d].(parent := l)
  {
  }

  lemma RootLink(views: Views, spans: Spans, views': Views, spans': Spans, root: PageId, x: real, r: PageId, l: PageId)
    requires RootGrown(views, spans, views', spans', root, x, r, l) && views[root].LeafView?
    requires spans[root].lo == 0.0 < spans[root].hi && Linked(views[root].next, spans[root].hi, spans)
    requires spans[0].height > 0
    ensures Linked(views[root].next, spans[root].hi, spans')
  {
  }

  lemma GrowRootTop(views: Views, spans: Spans, views': Views, spans': Spans, root: PageId, x: real, r: PageId,
                    l: PageId)
    requires RootGrown(views, spans, views', spans', root, x, r, l) && InnerOk(0, views[0], spans[0], spans)
      && r != root && r != 0
    requires spans[0].lo == 0.0 && spans[0].hi == 1.0
    ensures InnerOk(0, views'[0], spans'[0], spans') && InnerOk(root, views'[root], spans'[root], spans')
  {
    assert x in views[0].seps;
  }

  /** A node copied to another page keeps its place when its children follow. */
  lemma Rehome(p: PageId, n: View, s: Span, s': Span, spans: Spans, spans': Spans, held: Contents, t: PageId)
    requires NodeOk(p, n, s, spans, held) && s' == s.(parent := s'.parent)
    requires n.InnerView? ==>
      forall d :: d in spans && spans[d].parent == p ==> d in spans' && spans'[d] == spans[d].(parent := t)
    requires n.LeafView? ==> Linked(n.next, s.hi, spans')
    ensures NodeOk(t, n, s', spans', held)
  {
    if n.InnerView? { RehomeInner(p, n, s, s', spans, spans', t); }
  }

  lemma RehomeInner(p: PageId, n: View, s: Span, s': Span, spans: Spans, spans': Spans, t: PageId)
    requires n.InnerView? && InnerOk(p, n, s, spans) && s' == s.(parent := s'.parent)
    requires forall d :: d in spans && spans[d].parent == p ==> d in spans' && spans'[d] == spans[d].(parent := t)
    ensures InnerOk(t, n, s', spans')
  {
  }

  lemma GrowRootUp(views: Views, spans: Spans, held: Contents, views': Views, spans': Spans, root: PageId, x: real,
                   r: PageId, l: PageId, q: PageId)
    requires Shaped(views, spans, held) && RootGrown(views, spans, views', spans', root, x, r, l) && q in views'
      && q != 0
    ensures HasParent(views', spans', q)
  {
    PageAt(views, spans, held, 0);
    PageAt(views, spans, held, root);
    assert x in views[0].seps;
    if q != l {
      var other := Parent(views, spans, held, q);
    }
  }

  lemma GrowRoot(views: Views, spans: Spans, held: Contents, views': Views, spans': Spans, root: PageId, x: real,
                 r: PageId, l: PageId)
    requires Shaped(views, spans, held) && RootGrown(views, spans, views', spans', root, x, r, l)
    ensures Shaped(views', spans', held)
  {
    forall q | q in views' ensures PageOk(views', spans', held, q) {
      GrowRootNode(views, spans, held, views', spans', root, x, r, l, q);
      if q != 0 { GrowRootUp(views, spans, held, views', spans', root, x, r, l, q); }
    }
  }

  // ---------------------------------------------------------------- an empty leaf is dropped

  /**
   * Leaf q is gone and is not the first child of its parent; leaf d, which ended where q began,
   * now ends where q ended and takes over its link.
   */
  ghost predicate LeafDroppedAfter(views: Views, spans: Spans, views': Views, spans': Spans, q: PageId, d: PageId)
  {
    && q in views && q in spans && views[q].LeafView? && views[q].entries == map[] && q != 0
    && spans[q].parent in views && spans[q].parent in spans && views[spans[q].parent].InnerView?
    && q != views[spans[q].parent].first
    && d in views && d in spans && views[d].LeafView? && spans[d].hi == spans[q].lo && d != q
    && views' ==
      (views - {q})[spans[q].parent := views[spans[q].parent].(seps := views[spans[q].parent].seps - {spans[q].lo})]
                      [d := views[d].(next := views[q].next)]
    && spans' == (spans - {q})[d := spans[d].(hi := spans[q].hi)]
  }

  lemma RemoveSepKid(p: PageId, n: View, s: Span, spans: Spans, spans': Spans, q: PageId, c: PageId)
    requires n.InnerView? && KidOk(q, p, n, s, spans) && KidOk(c, p, n, s, spans) && c != q
    requires spans[q].lo in n.seps
    requires c in spans' && spans'[c] == if spans[c].hi == spans[q].lo then spans[c].(hi := spans[q].hi) else spans[c]
    ensures KidOk(c, p, n.(seps := n.seps - {spans[q].lo}), s, spans')
  {
  }

  lemma RemoveSepOk(p: PageId, n: View, s: Span, spans: Spans, spans': Spans, q: PageId)
    requires n.InnerView? && InnerOk(p, n, s, spans)
    requires q in spans && q != n.first && spans[q].lo in n.seps && n.seps[spans[q].lo] == q
    requires forall c :: c in spans && c != q && IsKid(n, spans[c].lo, c) ==>
      c in spans' && spans'[c] == if spans[c].hi == spans[q].lo then spans[c].(hi := spans[q].hi) else spans[c]
    ensures InnerOk(p, n.(seps := n.seps - {spans[q].lo}), s, spans')
  {
    var n' := n.(seps := n.seps - {spans[q].lo});
    RemoveSepKid(p, n, s, spans, spans', q, n.first);
    forall y | y in n'.seps
      ensures s.lo < y < s.hi && KidOk(n'.seps[y], p, n', s, spans') && spans'[n'.seps[y]].lo == y
    {
      RemoveSepKid(p, n, s, spans, spans', q, n.seps[y]);
    }
  }

  /** Where one leaf ends at a separator of the parent of another, that parent is its parent too. */
  lemma LeafBeside(views: Views, spans: Spans, held: Contents, q: PageId, d: PageId)
    requires Shaped(views, spans, held) && q in views && views[q].LeafView? && d in views && views[d].LeafView?
      && q != d
    requires spans[q].parent in views && views[spans[q].parent].InnerView? && q != views[spans[q].parent].first
      && spans[d].hi == spans[q].lo
    ensures spans[d].parent == spans[q].parent
    ensures forall c :: c in spans && spans[c].height == 0 && spans[c].hi == spans[q].lo ==> c == d
  {
    PageAt(views, spans, held, q);
    PageAt(views, spans, held, d);
    var above := Parent(views, spans, held, q);
    var owner := Parent(views, spans, held, d);
    if owner != above { Disjoint(views, spans, held, owner, above); }
    forall c | c in spans && spans[c].height == 0 && spans[c].hi == spans[q].lo ensures c == d {
      PageAt(views, spans, held, c);
      if c != d { Disjoint(views, spans, held, c, d); }
    }
  }

  /** The leaf before takes over the interval, with nothing new in it. */
  lemma DropAfterLeaf(views: Views, spans: Spans, held: Contents, views': Views, spans': Spans, q: PageId, d: PageId)
    requires LeafDroppedAfter(views, spans, views', spans', q, d) && q in spans && d in spans && d != q
      && d != spans[q].parent
    requires NodeOk(q, views[q], spans[q], spans, held) && NodeOk(d, views[d], spans[d], spans, held)
    requires views[q].LeafView? && views[d].LeafView? && spans[d].hi == spans[q].lo
    ensures NodeOk(d, views'[d], spans'[d], spans', held)
  {
  }

  lemma DropAfterKid(views: Views, spans: Spans, views': Views, spans': Spans, q: PageId, d: PageId, w: PageId,
                     c: PageId)
    requires LeafDroppedAfter(views, spans, views', spans', q, d) && q in spans && w in views && w in spans
    requires views[w].InnerView? && InnerOk(w, views[w], spans[w], spans) && spans[q].height == 0
    requires spans[q].lo in views[w].seps && views[w].seps[spans[q].lo] == q
    requires forall c :: c in spans && spans[c].height == 0 && spans[c].hi == spans[q].lo ==> c == d
    requires c in spans && c != q && IsKid(views[w], spans[c].lo, c)
    ensures c in spans' && spans'[c] == if spans[c].hi == spans[q].lo then spans[c].(hi := spans[q].hi) else spans[c]
  {
    KidFacts(w, views[w], spans[w], spans, c);
    KidFacts(w, views[w], spans[w], spans, q);
  }

  lemma DropAfterParent(views: Views, spans: Spans, held: Contents, views': Views, spans': Spans, q: PageId, d: PageId,
                        w: PageId)
    requires LeafDroppedAfter(views, spans, views', spans', q, d) && q in spans && w in views && w in spans
      && w == spans[q].parent && w != q && w != d
    requires NodeOk(w, views[w], spans[w], spans, held) && views[w].InnerView? && spans[q].height == 0
    requires q != views[w].first && spans[q].lo in views[w].seps && views[w].seps[spans[q].lo] == q
    requires forall c :: c in spans && spans[c].height == 0 && spans[c].hi == spans[q].lo ==> c == d
    ensures NodeOk(w, views'[w], spans'[w], spans', held)
  {
    forall c | c in spans && c != q && IsKid(views[w], spans[c].lo, c)
      ensures c in spans' && spans'[c] == if spans[c].hi == spans[q].lo then spans[c].(hi := spans[q].hi) else spans[c]
    {
      DropAfterKid(views, spans, views', spans', q, d, w, c);
    }
    RemoveSepOk(w, views[w], spans[w], spans, spans', q);
    assert views'[w] == views[w].(seps := views[w].seps - {spans[q].lo}) && spans'[w] == spans[w];
  }

  lemma DropAfterNode(views: Views, spans: Spans, held: Contents, views': Views, spans': Spans, q: PageId, d: PageId,
                      w: PageId)
    requires Shaped(views, spans, held) && LeafDroppedAfter(views, spans, views', spans', q, d) && w in views'
    ensures NodeOk(w, views'[w], spans'[w], spans', held)
  {
    PageAt(views, spans, held, q);
    PageAt(views, spans, held, w);
    LeafBeside(views, spans, held, q, d);
    if w == spans[q].parent {
      KidAt(w, views[w], spans[w], spans, spans[q].lo, q);
      DropAfterParent(views, spans, held, views', spans', q, d, w);
    } else if w == d {
      DropAfterLeaf(views, spans, held, views', spans', q, d);
    } else {
      DropAfterOther(views, spans, held, views', spans', q, d, w);
    }
  }

  lemma DropAfterOther(views: Views, spans: Spans, held: Contents, views': Views, spans': Spans, q: PageId, d: PageId,
                       w: PageId)
    requires LeafDroppedAfter(views, spans, views', spans', q, d) && w in views && w in spans && w != q && w != d
      && w != spans[q].parent
    requires NodeOk(w, views[w], spans[w], spans, held) && spans[d].parent == spans[q].parent
    requires spans[w].height == 0 && spans[w].hi == spans[q].lo ==> w == d
    ensures NodeOk(w, views'[w], spans'[w], spans', held)
  {
    assert views'[w] == views[w] && spans'[w] == spans[w];
    Frame(views, spans, held, spans', held, w, spans[w]);
  }

  lemma DropAfterUp(views: Views, spans: Spans, views': Views, spans': Spans, q: PageId, d: PageId, w: PageId)
    requires LeafDroppedAfter(views, spans, views', spans', q, d)
    requires w in views && w != 0 && w != q && HasParent(views, spans, w) && spans[w].parent != q && d != 0
    requires spans[q].lo in views[spans[q].parent].seps && views[spans[q].parent].seps[spans[q].lo] == q
    ensures HasParent(views', spans', w)
  {
  }

  lemma DropAfter(views: Views, spans: Spans, held: Contents, views': Views, spans': Spans, q: PageId, d: PageId)
    requires Shaped(views, spans, held) && LeafDroppedAfter(views, spans, views', spans', q, d)
    ensures Shaped(views', spans', held)
  {
    var above := Parent(views, spans, held, q);
    forall w | w in views' ensures PageOk(views', spans', held, w) {
      DropAfterNode(views, spans, held, views', spans', q, d, w);
      if w != 0 {
        var owner := Parent(views, spans, held, w);
        UpAt(views, spans, held, w);
        DropAfterUp(views, spans, views', spans', q, d, w);
      }
    }
  }

  /**
   * Leaf q is gone and was the first child of its parent; the next child now starts where q
   * started. Leaf d, if any, ended where q began and takes over the link of q.
   */
  ghost predicate LeafDroppedFirst(views: Views, spans: Spans, views': Views, spans': Spans, q: PageId, d: PageId)
  {
    && q in views && q in spans && views[q].LeafView? && views[q].entries == map[] && q != 0
    && spans[q].parent in views && spans[q].parent in spans && views[spans[q].parent].InnerView?
    && q == views[spans[q].parent].first
    && spans[q].hi in views[spans[q].parent].seps && views[spans[q].parent].seps[spans[q].hi] in spans
    && (if d == 0 then spans[q].lo == 0.0
      else d in views && d in spans && views[d].LeafView? && spans[d].hi == spans[q].lo && d != q)
    && (var above, e := spans[q].parent, views[spans[q].parent].seps[spans[q].hi];
        var base := (views - {q})[above := InnerView(e, views[above].seps - {spans[q].hi})];
        && views' == (if d == 0 then base else base[d := views[d].(next := views[q].next)])
        && spans' == (spans - {q})[e := spans[e].(lo := spans[q].lo)])
  }

  lemma RemoveFirstKid(p: PageId, n: View, s: Span, spans: Spans, spans': Spans, q: PageId, c: PageId)
    requires n.InnerView? && KidOk(q, p, n, s, spans) && KidOk(c, p, n, s, spans) && c != q
    requires spans[q].hi in n.seps && spans[q].lo == s.lo
    requires forall y :: y in n.seps ==> y > s.lo
    requires spans[c].lo >= spans[q].hi
    requires c in spans' && spans'[c] == if spans[c].lo == spans[q].hi then spans[c].(lo := spans[q].lo) else spans[c]
    ensures KidOk(c, p, InnerView(n.seps[spans[q].hi], n.seps - {spans[q].hi}), s, spans')
  {
  }

  lemma RemoveFirstOk(p: PageId, n: View, s: Span, spans: Spans, spans': Spans, q: PageId)
    requires n.InnerView? && InnerOk(p, n, s, spans)
    requires q in spans && q == n.first && spans[q].hi in n.seps
    requires forall c :: c in spans && c != q && IsKid(n, spans[c].lo, c) ==>
      c in spans' && spans'[c] == if spans[c].lo == spans[q].hi then spans[c].(lo := spans[q].lo) else spans[c]
    ensures InnerOk(p, InnerView(n.seps[spans[q].hi], n.seps - {spans[q].hi}), s, spans')
  {
    var n' := n.(first := n.seps[spans[q].hi], seps := n.seps - {spans[q].hi});
    RemoveFirstKid(p, n, s, spans, spans', q, n'.first);
    forall y | y in n'.seps
      ensures s.lo < y < s.hi && KidOk(n'.seps[y], p, n', s, spans') && spans'[n'.seps[y]].lo == y
    {
      KidsApart(p, n, s, spans, q, n.seps[y]);
      RemoveFirstKid(p, n, s, spans, spans', q, n.seps[y]);
    }
  }

  lemma DropFirstNode(views: Views, spans: Spans, held: Contents, views': Views, spans': Spans, q: PageId, d: PageId,
                      w: PageId)
    requires Shaped(views, spans, held) && LeafDroppedFirst(views, spans, views', spans', q, d) && w in views'
    ensures NodeOk(w, views'[w], spans'[w], spans', held)
  {
    var above := Parent(views, spans, held, q);
    if w != 0 { UpAt(views, spans, held, w); }
    if w == above {
      DropFirstParent(views, spans, held, views', spans', q, d);
    } else {
      PageAt(views, spans, held, w);
      if views[w].LeafView? { EndsApart(views, spans, held, q, d, w); }
      LeafAfter(views, spans, held, q);
      DropFirstOther(views, spans, held, views', spans', q, d, w);
    }
  }

  lemma DropFirstParent(views: Views, spans: Spans, held: Contents, views': Views, spans': Spans, q: PageId, d: PageId)
    requires LeafDroppedFirst(views, spans, views', spans', q, d)
    requires NodeOk(spans[q].parent, views[spans[q].parent], spans[spans[q].parent], spans, held)
    ensures spans[q].parent in views' && spans[q].parent in spans'
    ensures NodeOk(spans[q].parent, views'[spans[q].parent], spans'[spans[q].parent], spans', held)
  {
    var above := spans[q].parent;
    RemoveFirstOk(above, views[above], spans[above], spans, spans', q);
  }

  /** No other leaf ends where this one does, and only the one before it where it begins. */
  lemma EndsApart(views: Views, spans: Spans, held: Contents, q: PageId, d: PageId, w: PageId)
    requires Shaped(views, spans, held) && q in views && w in views && w != q && views[q].LeafView?
      && views[w].LeafView?
    requires if d == 0 then spans[q].lo == 0.0
      else d in views && views[d].LeafView? && spans[d].hi == spans[q].lo
    ensures spans[w].hi != spans[q].hi && (w != d ==> spans[w].hi != spans[q].lo)
  {
    PageAt(views, spans, held, w);
    PageAt(views, spans, held, q);
    Disjoint(views, spans, held, w, q);
    Within(views, spans, held, w);
    if d != 0 && w != d {
      PageAt(views, spans, held, d);
      Disjoint(views, spans, held, w, d);
    }
  }

  /** A first child that is a leaf is linked to the second child. */
  lemma LeafAfter(views: Views, spans: Spans, held: Contents, q: PageId)
    requires Shaped(views, spans, held) && q in views && views[q].LeafView? && spans[q].parent in views
      && views[spans[q].parent].InnerView?
    requires spans[q].hi in views[spans[q].parent].seps
    ensures views[q].next == views[spans[q].parent].seps[spans[q].hi]
    ensures views[q].next != 0 && views[q].next in views && views[views[q].next].LeafView?
  {
    PageAt(views, spans, held, q);
    var above := Parent(views, spans, held, q);
    Within(views, spans, held, above);
    var e := views[above].seps[spans[q].hi];
    PageAt(views, spans, held, views[q].next);
    if e != views[q].next { Disjoint(views, spans, held, e, views[q].next); }
  }

  lemma DropFirstOther(views: Views, spans: Spans, held: Contents, views': Views, spans': Spans, q: PageId, d: PageId,
                       w: PageId)
    requires LeafDroppedFirst(views, spans, views', spans', q, d) && w in views && w in spans && w != q
      && w != spans[q].parent
    requires NodeOk(q, views[q], spans[q], spans, held) && NodeOk(w, views[w], spans[w], spans, held)
    requires KidOk(views[spans[q].parent].seps[spans[q].hi], spans[q].parent, views[spans[q].parent],
      spans[spans[q].parent], spans)
    requires views[q].next == views[spans[q].parent].seps[spans[q].hi] 
    requires views[q].next != 0 && views[q].next in views && views[views[q].next].LeafView?
      && (w == 0 ==> views[w].InnerView?)
    requires views[w].LeafView? ==> spans[w].hi != spans[q].hi
    requires views[w].LeafView? && w != d ==> spans[w].hi != spans[q].lo
    ensures NodeOk(w, views'[w], spans'[w], spans', held)
  {
    if (w != d || d == 0) && w != views[q].next { Frame(views, spans, held, spans', held, w, spans'[w]); }
  }

  lemma DropFirstUp(views: Views, spans: Spans, views': Views, spans': Spans, q: PageId, d: PageId, w: PageId)
    requires LeafDroppedFirst(views, spans, views', spans', q, d)
    requires w in views && w != 0 && w != q && HasParent(views, spans, w) && spans[w].parent != q
    requires spans[views[spans[q].parent].seps[spans[q].hi]].parent == spans[q].parent
    ensures HasParent(views', spans', w)
  {
  }

  lemma DropFirst(views: Views, spans: Spans, held: Contents, views': Views, spans': Spans, q: PageId, d: PageId)
    requires Shaped(views, spans, held) && LeafDroppedFirst(views, spans, views', spans', q, d)
    ensures Shaped(views', spans', held)
  {
    var above := Parent(views, spans, held, q);
    forall w | w in views' ensures PageOk(views', spans', held, w) {
      DropFirstNode(views, spans, held, views', spans', q, d, w);
      if w != 0 {
        var owner := Parent(views, spans, held, w);
        UpAt(views, spans, held, w);
        DropFirstUp(views, spans, views', spans', q, d, w);
      }
    }
  }

  // ---------------------------------------------------------------- internal nodes meet again

  /** Neighbours l and r under one parent become the one node l. */
  ghost predicate Merged(views: Views, spans: Spans, views': Views, spans': Spans, l: PageId, r: PageId)
  {
    && l in views && l in spans && r in views && r in spans && l != r && l != 0 && r != 0
    && views[l].InnerView? && views[r].InnerView?
    && spans[l].parent == spans[r].parent && spans[l].hi == spans[r].lo
    && spans[l].parent in views && views[spans[l].parent].InnerView?
    && views' == (views - {r})[l := Joined(views[l], spans[r].lo, views[r])]
                      [spans[l].parent := views[spans[l].parent].(seps := views[spans[l].parent].seps - {spans[r].lo})]
    && spans' == MergedSpans(spans, l, r)
  }

  ghost function Joined(n: View, x: real, m: View): View
    requires n.InnerView? && m.InnerView?
  {
    InnerView(n.first, n.seps[x := m.first] + m.seps)
  }

  ghost function MergedSpans(spans: Spans, l: PageId, r: PageId): Spans
    requires l in spans && r in spans
  {
    map c | c in spans.Keys - {r} ::
      if c == l then spans[l].(hi := spans[r].hi)
      else if spans[c].parent == r then spans[c].(parent := l)
      else spans[c]
  }

  lemma JoinOk(l: PageId, n: View, s: Span, r: PageId, m: View, t: Span, spans: Spans, spans': Spans)
    requires n.InnerView? && InnerOk(l, n, s, spans) && m.InnerView? && InnerOk(r, m, t, spans)
    requires s.hi == t.lo && s.lo < s.hi && t.lo < t.hi && s.height == t.height && l != r
    requires forall d :: d in spans && spans[d].parent == l ==> d in spans' && spans'[d] == spans[d]
    requires forall d :: d in spans && spans[d].parent == r ==> d in spans' && spans'[d] == spans[d].(parent := l)
    ensures InnerOk(l, Joined(n, t.lo, m), s.(hi := t.hi), spans')
  {
    var j := Joined(n, t.lo, m);
    JoinLeft(l, n, s, r, m, t, spans, spans', n.first);
    forall y | y in j.seps
      ensures s.lo < y < t.hi && KidOk(j.seps[y], l, j, s.(hi := t.hi), spans') && spans'[j.seps[y]].lo == y
    {
      JoinSep(l, n, s, r, m, t, spans, spans', y);
    }
  }

  lemma JoinSep(l: PageId, n: View, s: Span, r: PageId, m: View, t: Span, spans: Spans, spans': Spans, y: real)
    requires n.InnerView? && InnerOk(l, n, s, spans) && m.InnerView? && InnerOk(r, m, t, spans)
    requires s.hi == t.lo && s.lo < s.hi && t.lo < t.hi && s.height == t.height && l != r
    requires forall d :: d in spans && spans[d].parent == l ==> d in spans' && spans'[d] == spans[d]
    requires forall d :: d in spans && spans[d].parent == r ==> d in spans' && spans'[d] == spans[d].(parent := l)
    requires y in Joined(n, t.lo, m).seps
    ensures var j := Joined(n, t.lo, m);
      s.lo < y < t.hi && KidOk(j.seps[y], l, j, s.(hi := t.hi), spans') && spans'[j.seps[y]].lo == y
  {
    if y in m.seps {
      JoinRight(l, n, s, r, m, t, spans, spans', m.seps[y]);
    } else if y == t.lo {
      JoinRight(l, n, s, r, m, t, spans, spans', m.first);
    } else {
      JoinLeft(l, n, s, r, m, t, spans, spans', n.seps[y]);
    }
  }

  lemma JoinLeft(l: PageId, n: View, s: Span, r: PageId, m: View, t: Span, spans: Spans, spans': Spans, c: PageId)
    requires n.InnerView? && InnerOk(l, n, s, spans) && m.InnerView? && InnerOk(r, m, t, spans)
    requires s.hi == t.lo && s.lo < s.hi && t.lo < t.hi && s.height == t.height
    requires c in spans && IsKid(n, spans[c].lo, c)
    requires c in spans' && spans'[c] == spans[c]
    ensures KidOk(c, l, Joined(n, t.lo, m), s.(hi := t.hi), spans')
  {
    assert KidOk(c, l, n, s, spans);
  }

  lemma JoinRight(l: PageId, n: View, s: Span, r: PageId, m: View, t: Span, spans: Spans, spans': Spans, c: PageId)
    requires n.InnerView? && InnerOk(l, n, s, spans) && m.InnerView? && InnerOk(r, m, t, spans)
    requires s.hi == t.lo && s.lo < s.hi && t.lo < t.hi && s.height == t.height
    requires c in spans && IsKid(m, spans[c].lo, c)
    requires c in spans' && spans'[c] == spans[c].(parent := l)
    ensures KidOk(c, l, Joined(n, t.lo, m), s.(hi := t.hi), spans')
  {
  }

  lemma MergeNode(views: Views, spans: Spans, held: Contents, views': Views, spans': Spans, l: PageId, r: PageId,
                  w: PageId)
    requires Shaped(views, spans, held) && Merged(views, spans, views', spans', l, r) && w in views' && w in spans'
    ensures NodeOk(w, views'[w], spans'[w], spans', held)
  {
    var above := Parent(views, spans, held, l);
    var over := Parent(views, spans, held, r);
    if w == l {
      JoinOk(l, views[l], spans[l], r, views[r], spans[r], spans, spans');
    } else if w == above {
      KidAt(above, views[above], spans[above], spans, spans[r].lo, r);
      if above != 0 { var other := Parent(views, spans, held, above); }
      MergeParent(views, spans, views', spans', above, l, r);
    } else {
      PageAt(views, spans, held, w);
      MergeOther(views, spans, held, views', spans', l, r, w);
    }
  }

  lemma MergeParent(views: Views, spans: Spans, views': Views, spans': Spans, above: PageId, l: PageId, r: PageId)
    requires Merged(views, spans, views', spans', l, r) && above == spans[l].parent && above in spans
      && above in spans' && above != l && above != r
    requires spans[above].parent != r
    requires InnerOk(above, views[above], spans[above], spans) && IsKid(views[above], spans[l].lo, l)
      && spans[r].lo in views[above].seps && views[above].seps[spans[r].lo] == r
    ensures InnerOk(above, views'[above], spans'[above], spans')
  {
    forall c | c in spans && c != r && IsKid(views[above], spans[c].lo, c)
      ensures c in spans' && spans'[c] == if spans[c].hi == spans[r].lo then spans[c].(hi := spans[r].hi) else spans[c]
    {
      if c != l { KidsApart(above, views[above], spans[above], spans, c, l); }
    }
    RemoveSepOk(above, views[above], spans[above], spans, spans', r);
    assert views'[above] == views[above].(seps := views[above].seps - {spans[r].lo}) && spans'[above] == spans[above];
  }

  lemma MergeOther(views: Views, spans: Spans, held: Contents, views': Views, spans': Spans, l: PageId, r: PageId,
                   w: PageId)
    requires Merged(views, spans, views', spans', l, r) && spans[l].height > 0 && spans[r].height > 0
    requires w in views && w in spans && w != l && w != r && w != spans[l].parent
      && NodeOk(w, views[w], spans[w], spans, held)
    ensures NodeOk(w, views'[w], spans'[w], spans', held)
  {
    Frame(views, spans, held, spans', held, w, spans'[w]);
  }

  lemma MergeUp(views: Views, spans: Spans, views': Views, spans': Spans, l: PageId, r: PageId, w: PageId)
    requires Merged(views, spans, views', spans', l, r) && w in views' && w != 0 && HasParent(views, spans, w)
      && spans[l].parent != l
    requires spans[r].lo in views[spans[l].parent].seps && views[spans[l].parent].seps[spans[r].lo] == r
    requires spans[w].parent == r && w == views[r].first ==> spans[w].lo == spans[r].lo
    requires spans[w].parent == l && w != views[l].first ==> spans[w].lo < spans[r].lo
    requires forall x :: x in views[r].seps ==> x > spans[r].lo
    ensures HasParent(views', spans', w)
  {
  }

  lemma Merge(views: Views, spans: Spans, held: Contents, views': Views, spans': Spans, l: PageId, r: PageId)
    requires Shaped(views, spans, held) && Merged(views, spans, views', spans', l, r)
    ensures Shaped(views', spans', held)
  {
    var above := Parent(views, spans, held, l);
    var over := Parent(views, spans, held, r);
    KidAt(above, views[above], spans[above], spans, spans[r].lo, r);
    forall w | w in views' ensures PageOk(views', spans', held, w) {
      MergeNode(views, spans, held, views', spans', l, r, w);
      if w != 0 {
        var owner := Parent(views, spans, held, w);
        UpAt(views, spans, held, w);
        MergeUp(views, spans, views', spans', l, r, w);
      }
    }
  }

  /** The first child l of its parent has moved to the unused page t. */
  ghost predicate Renamed(views: Views, spans: Spans, views': Views, spans': Spans, l: PageId, t: PageId)
  {
    && l in views && l in spans && l != 0 && t !in views && t !in spans && views[l].InnerView?
    && spans[l].parent in views && views[spans[l].parent].InnerView? && views[spans[l].parent].first == l
    && views' == (views - {l})[t := views[l]][spans[l].parent := views[spans[l].parent].(first := t)]
    && spans' == RenamedSpans(spans, l, t)
  }

  ghost function RenamedSpans(spans: Spans, l: PageId, t: PageId): Spans
    requires l in spans
  {
    map c | c in spans.Keys - {l} + {t} ::
      if c == t then spans[l]
      else if c in spans && spans[c].parent == l then spans[c].(parent := t)
      else if c in spans then spans[c] else spans[l]
  }

  lemma RenameNode(views: Views, spans: Spans, held: Contents, views': Views, spans': Spans, l: PageId, t: PageId,
                   w: PageId)
    requires Shaped(views, spans, held) && Renamed(views, spans, views', spans', l, t) && w in views' && w in spans'
    ensures NodeOk(w, views'[w], spans'[w], spans', held)
  {
    var above := Parent(views, spans, held, l);
    if w == t {
      Rehome(l, views[l], spans[l], spans'[t], spans, spans', held, t);
    } else if w == above {
      RenameParent(above, views[above], spans[above], spans, spans', l, t);
    } else {
      PageAt(views, spans, held, w);
      Frame(views, spans, held, spans', held, w, spans'[w]);
    }
  }

  lemma RenameParent(p: PageId, n: View, s: Span, spans: Spans, spans': Spans, l: PageId, t: PageId)
    requires n.InnerView? && InnerOk(p, n, s, spans) && n.first == l
    requires forall d :: d in spans && spans[d].parent == p && d != l ==> d in spans' && spans'[d] == spans[d]
    requires t in spans' && spans'[t] == spans[l]
    ensures InnerOk(p, n.(first := t), s, spans')
  {
  }

  lemma RenameUp(views: Views, spans: Spans, views': Views, spans': Spans, l: PageId, t: PageId, w: PageId)
    requires Renamed(views, spans, views', spans', l, t) && w in views' && w != 0 && spans[l].parent != l
    requires HasParent(views, spans, if w == t then l else w)
    ensures HasParent(views', spans', w)
  {
  }

  lemma Rename(views: Views, spans: Spans, held: Contents, views': Views, spans': Spans, l: PageId, t: PageId)
    requires Shaped(views, spans, held) && Renamed(views, spans, views', spans', l, t)
    ensures Shaped(views', spans', held)
  {
    var above := Parent(views, spans, held, l);
    forall w | w in views' ensures PageOk(views', spans', held, w) {
      RenameNode(views, spans, held, views', spans', l, t, w);
      if w != 0 {
        UpAt(views, spans, held, if w == t then l else w);
        RenameUp(views, spans, views', spans', l, t, w);
      }
    }
  }

  /** The root had one child c; the node of c now lives on the root page. */
  ghost predicate Collapsed(views: Views, spans: Spans, views': Views, spans': Spans, root: PageId, c: PageId)
  {
    && 0 in views && 0 in spans && root in views && root in spans && c in views && c in spans && root != 0 && c != 0
    && c != root
    && views[0] == InnerView(root, map[]) && views[root] == InnerView(c, map[])
    && views' == (views - {c})[root := views[c]]
    && spans[0].height > 0
    && spans' == CollapsedSpans(spans, root, c)
  }

  ghost function CollapsedSpans(spans: Spans, root: PageId, c: PageId): Spans
    requires c in spans && 0 in spans && spans[0].height > 0
  {
    map z | z in spans.Keys - {c} ::
      if z == 0 then spans[0].(height := spans[0].height - 1)
      else if z == root then spans[c].(parent := 0)
      else if spans[z].parent == c then spans[z].(parent := root)
      else spans[z]
  }

  lemma CollapseNode(views: Views, spans: Spans, held: Contents, views': Views, spans': Spans, root: PageId, c: PageId,
                     w: PageId)
    requires Shaped(views, spans, held) && Collapsed(views, spans, views', spans', root, c) && w in views'
      && w in spans'
    ensures NodeOk(w, views'[w], spans'[w], spans', held)
  {
    PageAt(views, spans, held, 0);
    PageAt(views, spans, held, root);
    PageAt(views, spans, held, c);
    if w == root {
      Rehome(c, views[c], spans[c], spans'[root], spans, spans', held, root);
    } else if w != 0 {
      PageAt(views, spans, held, w);
      Within(views, spans, held, w);
      CollapseOther(views, spans, held, views', spans', root, c, w);
    }
  }

  lemma CollapseOther(views: Views, spans: Spans, held: Contents, views': Views, spans': Spans, root: PageId,
                      c: PageId, w: PageId)
    requires Collapsed(views, spans, views', spans', root, c) && spans[c].lo == 0.0 && spans[c].parent == root
      && spans[root].parent == 0
    requires spans[0].parent == 0 && spans[root].height > 0
    requires w in views && w in spans && w != 0 && w != root && w != c && NodeOk(w, views[w], spans[w], spans, held)
      && spans[w].hi > 0.0
    ensures NodeOk(w, views'[w], spans'[w], spans', held)
  {
    Frame(views, spans, held, spans', held, w, spans'[w]);
  }

  lemma CollapseUp(views: Views, spans: Spans, views': Views, spans': Spans, root: PageId, c: PageId, w: PageId)
    requires Collapsed(views, spans, views', spans', root, c) && w in views' && w != 0 && HasParent(views, spans, w)
    requires spans[root].parent == 0 && spans[c].parent == root
      && spans[c].height < spans[root].height < spans[0].height
    requires w != root ==> spans[w].height + 1 < spans[0].height
    ensures HasParent(views', spans', w)
  {
  }

  lemma Collapse(views: Views, spans: Spans, held: Contents, views': Views, spans': Spans, root: PageId, c: PageId)
    requires Shaped(views, spans, held) && Collapsed(views, spans, views', spans', root, c)
    ensures Shaped(views', spans', held)
  {
    PageAt(views, spans, held, 0);
    PageAt(views, spans, held, root);
    forall w | w in views' ensures PageOk(views', spans', held, w) {
      CollapseNode(views, spans, held, views', spans', root, c, w);
      if w != 0 {
        var owner := Parent(views, spans, held, w);
        if owner != 0 { UpAt(views, spans, held, owner); }
        UpAt(views, spans, held, w);
        CollapseUp(views, spans, views', spans', root, c, w);
      }
    }
  }

  // ---------------------------------------------------------------- how tall a tree can be

  function Pow2(n: nat): nat { if n == 0 then 1 else 2 * Pow2(n - 1) }

  /** The leaves that lie inside page p. */
  ghost function LeavesIn(spans: Spans, p: PageId): set<PageId>
    requires p in spans
  {
    set q | q in spans && spans[q].height == 0 && spans[p].lo <= spans[q].lo && spans[q].hi <= spans[p].hi
  }

  ghost predicate HasSep(n: View)
    requires n.InnerView?
  { exists x :: x in n.seps }

  ghost predicate Branching(views: Views) {
    forall p :: p in views && p != 0 && views[p].InnerView? ==> HasSep(views[p])
  }

  /** A page of height h has at least 2^h leaves below it. */
  lemma {:induction false} ManyLeaves(views: Views, spans: Spans, held: Contents, p: PageId)
    requires Shaped(views, spans, held) && Branching(views) && p in views && p != 0
    ensures |LeavesIn(spans, p)| >= Pow2(spans[p].height)
    decreases spans[p].height
  {
    if views[p].LeafView? {
      OneLeaf(views, spans, held, p);
    } else {
      var a, b := TwoKids(views, spans, held, p);
      ManyLeaves(views, spans, held, a);
      ManyLeaves(views, spans, held, b);
      TwoBranches(views, spans, held, p, a, b);
    }
  }

  lemma OneLeaf(views: Views, spans: Spans, held: Contents, p: PageId)
    requires Shaped(views, spans, held) && p in views && views[p].LeafView?
    ensures spans[p].height == 0 && |LeavesIn(spans, p)| >= 1
  {
    PageAt(views, spans, held, p);
    assert {p} <= LeavesIn(spans, p);
    SubsetSize({p}, LeavesIn(spans, p));
  }

  lemma TwoKids(views: Views, spans: Spans, held: Contents, p: PageId) returns (a: PageId, b: PageId)
    requires Shaped(views, spans, held) && p in views && p != 0 && views[p].InnerView? && HasSep(views[p])
    ensures a in views && b in views && a != 0 && b != 0
    ensures spans[a].height + 1 == spans[p].height && spans[b].height + 1 == spans[p].height
    ensures spans[p].lo <= spans[a].lo < spans[a].hi <= spans[b].lo < spans[b].hi <= spans[p].hi
  {
    PageAt(views, spans, held, p);
    PageAt(views, spans, held, 0);
    var x :| x in views[p].seps;
    a, b := views[p].first, views[p].seps[x];
    KidsApart(p, views[p], spans[p], spans, a, b);
    KidAt(p, views[p], spans[p], spans, spans[a].lo, a);
    KidAt(p, views[p], spans[p], spans, x, b);
  }

  lemma TwoBranches(views: Views, spans: Spans, held: Contents, p: PageId, a: PageId, b: PageId)
    requires Shaped(views, spans, held) && p in spans && a in spans && b in spans
    requires spans[p].lo <= spans[a].lo < spans[a].hi <= spans[b].lo < spans[b].hi <= spans[p].hi
    ensures |LeavesIn(spans, p)| >= |LeavesIn(spans, a)| + |LeavesIn(spans, b)|
  {
    var l, r := LeavesIn(spans, a), LeavesIn(spans, b);
    forall q | q in l ensures q !in r { PageAt(views, spans, held, q); }
    TwoSizes(l, r, LeavesIn(spans, p));
  }

  lemma TwoSizes(l: set<PageId>, r: set<PageId>, s: set<PageId>)
    requires l !! r && l <= s && r <= s
    ensures |s| >= |l| + |r|
  {
    SubsetSize(l + r, s);
  }

  lemma {:induction false} SubsetSize(s: set<PageId>, t: set<PageId>)
    requires s <= t
    ensures |s| <= |t|
  {
    assert t == s + (t - s);
  }

  lemma {:induction false} IntervalSize(s: set<PageId>, n: nat)
    requires forall p :: p in s ==> 0 < p <= n
    ensures |s| <= n
  {
    if s != {} {
      var p := Member(s);
      assert 0 < p <= n;
      IntervalSize(s - {n}, n - 1);
      if n in s { assert s == (s - {n}) + {n}; } else { assert s == s - {n}; }
    }
  }

  lemma {:induction false} Pow2Grows(a: nat, b: nat)
    requires a <= b
    ensures Pow2(a) <= Pow2(b)
  {
    if a < b { Pow2Grows(a, b - 1); }
  }

  /** A tree whose internal nodes all have a separator and whose pages are below 2^n is at most n - 1 levels high. */
  lemma Shallow(views: Views, spans: Spans, held: Contents, p: PageId, n: nat)
    requires Shaped(views, spans, held) && Branching(views) && p in views && p != 0
    requires forall q :: q in views && q != 0 ==> 0 < q < Pow2(n)
    ensures spans[p].height < n
  {
    ManyLeaves(views, spans, held, p);
    forall q | q in LeavesIn(spans, p) ensures 0 < q <= Pow2(n) - 1 {
      PageAt(views, spans, held, q);
      PageAt(views, spans, held, p);
      if q == 0 { PageAt(views, spans, held, 0); }
    }
    IntervalSize(LeavesIn(spans, p), Pow2(n) - 1);
    if n <= spans[p].height { Pow2Grows(n, spans[p].height); }
  }
}
