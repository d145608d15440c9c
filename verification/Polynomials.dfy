/** Polynomials over the field of two elements, as the set of the exponents they have. */
module Polynomials {
  type Poly = set<nat>

  function Add(a: Poly, b: Poly): Poly { (a - b) + (b - a) }

  /** a times the k-th power of x. */
  function Up(a: Poly, k: nat): Poly { set e | e in a :: e + k }

  /** The generator of CRC-32, as in section 8.1.1.6.2 of ITU-T V.42. */
  const GENERATOR: Poly := {32, 26, 23, 22, 16, 12, 11, 10, 8, 7, 5, 4, 2, 1, 0}

  /** The generator times the polynomial with the given coefficients, lowest first. */
  function Multiple(q: seq<bool>): Poly {
    if q == [] then {} else Add(Up(Multiple(q[1..]), 1), Term(q[0]))
  }

  function Term(b: bool): Poly { if b then GENERATOR else {} }

  /** The difference of a and b is a multiple of the generator. */
  ghost predicate Congruent(a: Poly, b: Poly) { exists q :: Add(a, b) == Multiple(q) }

  predicate Small(a: Poly) { forall e :: e in a ==> e < 32 }

  // ---------------------------------------------------------------- sums and shifts

  lemma AddHas(a: Poly, b: Poly, e: nat)
    ensures e in Add(a, b) <==> (e in a) != (e in b)
  {
  }

  lemma UpHas(a: Poly, k: nat, e: nat)
    ensures e in Up(a, k) <==> e >= k && e - k in a
  {
    if e >= k && e - k in a { assert e == (e - k) + k; }
  }

  lemma Same(a: Poly, b: Poly)
    requires forall e: nat :: e in a <==> e in b
    ensures a == b
  {
  }

  lemma AddCancels(a: Poly, b: Poly, c: Poly)
    ensures Add(Add(a, b), Add(b, c)) == Add(a, c)
  {
  }

  lemma AddPairs(a: Poly, b: Poly, c: Poly, d: Poly)
    ensures Add(Add(a, b), Add(c, d)) == Add(Add(a, c), Add(b, d))
  {
  }

  lemma AddAssoc(a: Poly, b: Poly, c: Poly)
    ensures Add(Add(a, b), c) == Add(a, Add(b, c))
  {
  }

  lemma AddBoth(a: Poly, b: Poly, c: Poly)
    requires Add(a, c) == Add(b, c)
    ensures a == b
  {
    forall e: nat ensures e in a <==> e in b {
      AddHas(a, c, e);
      AddHas(b, c, e);
    }
  }

  lemma UpAdds(a: Poly, b: Poly, k: nat)
    ensures Up(Add(a, b), k) == Add(Up(a, k), Up(b, k))
  {
    forall e: nat ensures e in Up(Add(a, b), k) <==> e in Add(Up(a, k), Up(b, k)) {
      UpHas(Add(a, b), k, e);
      UpHas(a, k, e);
      UpHas(b, k, e);
    }
  }

  lemma UpTwice(a: Poly, j: nat, k: nat)
    ensures Up(Up(a, j), k) == Up(a, j + k)
  {
    forall e: nat ensures e in Up(Up(a, j), k) <==> e in Up(a, j + k) {
      UpHas(Up(a, j), k, e);
      if e >= k { UpHas(a, j, e - k); }
      UpHas(a, j + k, e);
    }
  }

  lemma UpNone(a: Poly)
    ensures Up(a, 0) == a
  {
    forall e: nat ensures e in Up(a, 0) <==> e in a { UpHas(a, 0, e); }
  }

  // ---------------------------------------------------------------- multiples

  /** The sum of two coefficient lists. */
  function Sum(p: seq<bool>, q: seq<bool>): seq<bool> {
    if p == [] then q else if q == [] then p else [p[0] != q[0]] + Sum(p[1..], q[1..])
  }

  lemma {:induction false} MultipleAdds(p: seq<bool>, q: seq<bool>)
    ensures Multiple(Sum(p, q)) == Add(Multiple(p), Multiple(q))
  {
    if p != [] && q != [] {
      MultipleAdds(p[1..], q[1..]);
      assert Sum(p, q)[1..] == Sum(p[1..], q[1..]);
      OneMore(Multiple(p[1..]), Multiple(q[1..]), Term(p[0]), Term(q[0]));
      TermAdds(p[0], q[0]);
    }
  }

  lemma TermAdds(a: bool, b: bool)
    ensures Add(Term(a), Term(b)) == Term(a != b)
  {
  }

  lemma OneMore(a: Poly, b: Poly, c: Poly, d: Poly)
    ensures Add(Up(Add(a, b), 1), Add(c, d)) == Add(Add(Up(a, 1), c), Add(Up(b, 1), d))
  {
    UpAdds(a, b, 1);
    AddPairs(Up(a, 1), c, Up(b, 1), d);
  }

  lemma MultipleUp(q: seq<bool>)
    ensures Up(Multiple(q), 1) == Multiple([false] + q)
  {
    assert ([false] + q)[1..] == q;
  }

  lemma CongruentSame(a: Poly)
    ensures Congruent(a, a)
  {
    assert Add(a, a) == Multiple([]);
  }

  lemma CongruentBack(a: Poly, b: Poly)
    requires Congruent(a, b)
    ensures Congruent(b, a)
  {
    assert Add(b, a) == Add(a, b);
  }

  lemma CongruentThrough(a: Poly, b: Poly, c: Poly)
    requires Congruent(a, b) && Congruent(b, c)
    ensures Congruent(a, c)
  {
    var p :| Add(a, b) == Multiple(p);
    var q :| Add(b, c) == Multiple(q);
    MultipleAdds(p, q);
    AddCancels(a, b, c);
  }

  lemma CongruentAdds(a: Poly, b: Poly, c: Poly, d: Poly)
    requires Congruent(a, b) && Congruent(c, d)
    ensures Congruent(Add(a, c), Add(b, d))
  {
    var p :| Add(a, b) == Multiple(p);
    var q :| Add(c, d) == Multiple(q);
    MultipleAdds(p, q);
    AddPairs(a, b, c, d);
  }

  lemma CongruentOnce(a: Poly, b: Poly)
    requires Congruent(a, b)
    ensures Congruent(Up(a, 1), Up(b, 1))
  {
    var q :| Add(a, b) == Multiple(q);
    UpAdds(a, b, 1);
    MultipleUp(q);
  }

  lemma {:induction false} CongruentUp(a: Poly, b: Poly, k: nat)
    requires Congruent(a, b)
    ensures Congruent(Up(a, k), Up(b, k))
  {
    if k == 0 {
      UpNone(a);
      UpNone(b);
    } else {
      CongruentUp(a, b, k - 1);
      UpTwice(a, k - 1, 1);
      UpTwice(b, k - 1, 1);
      CongruentOnce(Up(a, k - 1), Up(b, k - 1));
    }
  }

  predicate Top(a: Poly, d: nat) { d in a && forall e :: e in a ==> e <= d }

  lemma TopUp(a: Poly, g: Poly, d: nat)
    requires Top(a, d) && forall e :: e in g ==> e <= d
    ensures Top(Add(Up(a, 1), g), d + 1)
  {
    UpHas(a, 1, d + 1);
    forall e | e in Add(Up(a, 1), g) ensures e <= d + 1 { UpHas(a, 1, e); }
  }

  lemma TopGenerator()
    ensures Top(GENERATOR, 32) && Add(Up({}, 1), GENERATOR) == GENERATOR
  {
    assert Up({}, 1) == {};
  }

  /** A multiple with a highest coefficient has a highest exponent. */
  lemma {:induction false} MultipleTop(q: seq<bool>)
    requires q != [] && q[|q| - 1]
    ensures Top(Multiple(q), |q| + 31)
  {
    TopGenerator();
    if |q| == 1 {
      assert q[1..] == [];
    } else {
      MultipleTop(q[1..]);
      TopUp(Multiple(q[1..]), Term(q[0]), |q| + 30);
    }
  }

  lemma {:induction false} MultipleSmall(q: seq<bool>)
    requires Small(Multiple(q))
    ensures Multiple(q) == {}
  {
    if q != [] {
      if q[|q| - 1] {
        MultipleTop(q);
      } else {
        DropZero(q);
        MultipleSmall(q[..|q| - 1]);
      }
    }
  }

  lemma {:induction false} DropZero(q: seq<bool>)
    requires q != [] && !q[|q| - 1]
    ensures Multiple(q) == Multiple(q[..|q| - 1])
  {
    var p := q[..|q| - 1];
    if p == [] {
      assert q[1..] == [];
      assert Up({}, 1) == {};
    } else {
      DropZero(q[1..]);
      assert q[1..][..|q| - 2] == p[1..];
    }
  }

  /** There is at most one remainder. */
  lemma OneRemainder(a: Poly, b: Poly)
    requires Small(a) && Small(b) && Congruent(a, b)
    ensures a == b
  {
    var q :| Add(a, b) == Multiple(q);
    MultipleSmall(q);
    forall e: nat ensures e in a <==> e in b { AddHas(a, b, e); }
  }
}
