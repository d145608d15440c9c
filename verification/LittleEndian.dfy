/** Numbers as bytes, the lowest first. */
module LittleEndian {
  import opened Keys

  const W16: nat := 2
  const W32: nat := 4
  const W64: nat := 8

  function Pow256(w: nat): nat { if w == 0 then 1 else 256 * Pow256(w - 1) }

  function Le(n: nat, w: nat): (b: Bytes)
    ensures |b| == w
  { if w == 0 then [] else [(n % 256) as byte] + Le(n / 256, w - 1) }

  function FromLe(b: Bytes): nat { if b == [] then 0 else b[0] as nat + 256 * FromLe(b[1..]) }

  lemma {:induction false} LeRoundTrip(n: nat, w: nat)
    requires n < Pow256(w)
    ensures FromLe(Le(n, w)) == n
  {
    if w > 0 {
      LeRoundTrip(n / 256, w - 1);
      assert Le(n, w)[1..] == Le(n / 256, w - 1);
    }
  }

  lemma {:induction false} FromLeRoundTrip(b: Bytes)
    ensures FromLe(b) < Pow256(|b|) && Le(FromLe(b), |b|) == b
  {
    if b != [] {
      FromLeRoundTrip(b[1..]);
      assert b == [b[0]] + b[1..];
    }
  }

  lemma Widths()
    ensures Pow256(2) == 0x1_0000 && Pow256(4) == 0x1_0000_0000 && Pow256(8) == 0x1_0000_0000_0000_0000
  {
    assert Pow256(1) == 256 * Pow256(0) && Pow256(3) == 256 * Pow256(2) && Pow256(5) == 256 * Pow256(4);
    assert Pow256(6) == 256 * Pow256(5) && Pow256(7) == 256 * Pow256(6);
  }

  lemma NumberInjective(a: nat, b: nat, w: nat)
    requires a < Pow256(w) && b < Pow256(w) && Le(a, w) == Le(b, w)
    ensures a == b
  {
    LeRoundTrip(a, w);
    LeRoundTrip(b, w);
  }
}
