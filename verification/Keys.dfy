/** Byte strings and the order in which the tree keeps them. */
module Keys {

  newtype byte = x: int | 0 <= x < 256

  type Bytes = seq<byte>

  /** memcmp over the common prefix, then the shorter string first. */
  predicate Before(a: Bytes, b: Bytes) {
    if b == [] then false
    else if a == [] then true
    else a[0] < b[0] || (a[0] == b[0] && Before(a[1..], b[1..]))
  }

  /** A base-257 fraction in [0, 1): the order of byte strings as an order of reals. */
  ghost function Rank(k: Bytes): (r: real)
    ensures 0.0 <= r < 1.0
    ensures r == 0.0 <==> k == []
  {
    if k == [] then 0.0 else (k[0] as real + 1.0 + Rank(k[1..])) / 257.0
  }

  lemma {:induction false} RankIsOrder(a: Bytes, b: Bytes)
    ensures Rank(a) < Rank(b) <==> Before(a, b)
    ensures Rank(a) == Rank(b) <==> a == b
  {
    if a != [] && b != [] {
      RankIsOrder(a[1..], b[1..]);
      if a[0] == b[0] && a[1..] == b[1..] {
        assert a == [a[0]] + a[1..] == b;
      }
      if a[0] < b[0] { assert a[0] as real + 1.0 <= b[0] as real; }
      if b[0] < a[0] { assert b[0] as real + 1.0 <= a[0] as real; }
    }
  }

  /** Only what follows an equal prefix decides. */
  lemma {:induction false} BeforeAfterPrefix(a: Bytes, b: Bytes, i: nat)
    requires i <= |a| && i <= |b| && a[..i] == b[..i]
    ensures Before(a, b) == Before(a[i..], b[i..])
  {
    if i > 0 {
      assert a[0] == a[..i][0] == b[..i][0] == b[0];
      assert a[1..][..i - 1] == a[..i][1..] && b[1..][..i - 1] == b[..i][1..];
      BeforeAfterPrefix(a[1..], b[1..], i - 1);
      assert a[1..][i - 1..] == a[i..] && b[1..][i - 1..] == b[i..];
    }
  }

  /** memcmp on the shorter length, then the lengths. */
  method Compare(a: Bytes, b: Bytes) returns (c: int)
    ensures c < 0 <==> Before(a, b)
    ensures c == 0 <==> a == b
    ensures c > 0 <==> Before(b, a)
  {
    var common := if |a| < |b| then |a| else |b|;
    var i := 0;
    while i < common && a[i] == b[i]
      invariant 0 <= i <= common
      invariant a[..i] == b[..i]
    {
      i := i + 1;
    }
    BeforeAfterPrefix(a, b, i);
    BeforeAfterPrefix(b, a, i);
    RankIsOrder(a, b);
    if i < common {
      c := a[i] as int - b[i] as int;
    } else {
      assert a == a[..i] + a[i..] && b == b[..i] + b[i..];
      c := if |a| < |b| then -1 else if |a| > |b| then 1 else 0;
    }
  }
}
