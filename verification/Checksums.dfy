/**
 * The reflected CRC-32 of section 8 of RFC 1952, bit by bit and eight bytes at a time.
 * Words and bytes are their bits, lowest first; bits past the end are zero.
 */
module Checksums {
  import opened Polynomials

  type Word = seq<bool>

  function At(w: Word, i: int): bool { 0 <= i < |w| && w[i] }

  function Xor(a: Word, b: Word): Word { seq(32, i => At(a, i) != At(b, i)) }

  function Or(a: Word, b: Word): Word { seq(32, i => At(a, i) || At(b, i)) }

  function Shr(w: Word, k: nat): Word { seq(32, i => At(w, i + k)) }

  function Shl(w: Word, k: nat): Word { seq(32, i => At(w, i - k)) }

  function Not(w: Word): Word { seq(32, i => !At(w, i)) }

  /** The n bits of w from bit k on. */
  function Part(w: Word, k: nat, n: nat): Word { seq(n, i => At(w, i + k)) }

  function Zero(): Word { seq(32, i => false) }

  function Ones(): Word { seq(32, i => true) }

  /** The generator without its highest exponent, the next highest first. */
  function Divisor(): Word { seq(32, i => 31 - i in GENERATOR) }

  ghost predicate Equal(a: Word, b: Word) { forall i :: 0 <= i < 32 ==> At(a, i) == At(b, i) }

  lemma SameIs(a: Word, b: Word)
    requires |a| == 32 && |b| == 32 && Equal(a, b)
    ensures a == b
  {
    forall i | 0 <= i < 32 ensures a[i] == b[i] { assert At(a, i) == At(b, i); }
  }

  // ---------------------------------------------------------------- exclusive or

  lemma XorAssoc(a: Word, b: Word, c: Word)
    ensures Xor(Xor(a, b), c) == Xor(a, Xor(b, c))
  {
    SameIs(Xor(Xor(a, b), c), Xor(a, Xor(b, c)));
  }

  lemma XorComm(a: Word, b: Word)
    ensures Xor(a, b) == Xor(b, a)
  {
    SameIs(Xor(a, b), Xor(b, a));
  }

  lemma XorZero(a: Word)
    requires |a| == 32
    ensures Xor(a, Zero()) == a
  {
    SameIs(Xor(a, Zero()), a);
  }

  // ---------------------------------------------------------------- bit at a time

  function Bit(c: Word): Word { if At(c, 0) then Xor(Shr(c, 1), Divisor()) else Shr(c, 1) }

  function Bits(n: nat, c: Word): Word { if n == 0 then c else Bit(Bits(n - 1, c)) }

  /** Takes in bytes, of n bits each, one bit after the other. */
  function Bitwise(n: nat, c: Word, data: seq<Word>): Word {
    if data == [] then c else Bits(n, Xor(Bitwise(n, c, data[..|data| - 1]), data[|data| - 1]))
  }

  ghost predicate Bytes(n: nat, data: seq<Word>) { forall i :: 0 <= i < |data| ==> |data[i]| == n }

  lemma BitAt(c: Word, i: int)
    requires 0 <= i < 32
    ensures At(Bit(c), i) == (At(c, i + 1) != (At(c, 0) && At(Divisor(), i)))
  {
  }

  lemma XorAt(a: Word, b: Word, i: int)
    ensures At(Xor(a, b), i) == (0 <= i < 32 && At(a, i) != At(b, i))
  {
  }

  /** A bit step distributes over exclusive or. */
  lemma BitLinear(a: Word, b: Word)
    requires |a| <= 32 && |b| <= 32
    ensures Bit(Xor(a, b)) == Xor(Bit(a), Bit(b))
  {
    forall i | 0 <= i < 32 ensures At(Bit(Xor(a, b)), i) == At(Xor(Bit(a), Bit(b)), i) {
      BitAt(a, i);
      BitAt(b, i);
      BitAt(Xor(a, b), i);
      XorAt(a, b, i + 1);
      XorAt(a, b, 0);
      XorAt(Bit(a), Bit(b), i);
    }
    SameIs(Bit(Xor(a, b)), Xor(Bit(a), Bit(b)));
  }

  lemma {:induction false} BitsLinear(n: nat, a: Word, b: Word)
    requires |a| <= 32 && |b| <= 32
    ensures Bits(n, Xor(a, b)) == Xor(Bits(n, a), Bits(n, b))
    ensures |Bits(n, a)| <= 32 && |Bits(n, b)| <= 32
  {
    if n > 0 {
      BitsLinear(n - 1, a, b);
      BitLinear(Bits(n - 1, a), Bits(n - 1, b));
    }
  }

  /** Steps over a word whose low n bits are zero only shift. */
  lemma {:induction false} EvenBits(n: nat, c: Word)
    requires |c| == 32 && forall i :: 0 <= i < n ==> !At(c, i)
    ensures Bits(n, c) == Shr(c, n)
  {
    if n > 0 {
      EvenBits(n - 1, c);
      ShiftOne(c, n - 1);
    } else {
      SameIs(c, Shr(c, 0));
    }
  }

  lemma ShrAt(c: Word, k: nat, i: int)
    ensures At(Shr(c, k), i) == (0 <= i < 32 && At(c, i + k))
  {
  }

  lemma ShiftOne(c: Word, k: nat)
    requires |c| == 32 && !At(c, k)
    ensures Bit(Shr(c, k)) == Shr(c, k + 1)
  {
    assert !At(Shr(c, k), 0);
    forall i | 0 <= i < 32 ensures At(Shr(Shr(c, k), 1), i) == At(Shr(c, k + 1), i) {
      ShrAt(Shr(c, k), 1, i);
      ShrAt(c, k, i + 1);
      ShrAt(c, k + 1, i);
    }
    SameIs(Shr(Shr(c, k), 1), Shr(c, k + 1));
  }

  // ---------------------------------------------------------------- tables

  /** The tables by their recurrence: the first by bit steps, each next from the one before. */
  function Table(n: nat, k: nat, b: Word): Word {
    if k == 0 then Bits(n, b)
    else Xor(Shr(Table(n, k - 1, b), n), Table(n, 0, Part(Table(n, k - 1, b), 0, n)))
  }

  /** One byte step: shift, and look the low byte up. */
  lemma ByteStep(n: nat, c: Word)
    requires |c| == 32 && n <= 32
    ensures Bits(n, c) == Xor(Shr(c, n), Table(n, 0, Part(c, 0, n)))
  {
    var high, low := seq(32, i => i >= n && At(c, i)), Part(c, 0, n);
    forall i | 0 <= i < 32 ensures At(Xor(high, low), i) == At(c, i) && At(Shr(high, n), i) == At(Shr(c, n), i) {
      XorAt(high, low, i);
      ShrAt(high, n, i);
      ShrAt(c, n, i);
    }
    SameIs(Xor(high, low), c);
    SameIs(Shr(high, n), Shr(c, n));
    BitsLinear(n, high, low);
    EvenBits(n, high);
  }

  /** k bytes of n zero bits. */
  function Rounds(n: nat, k: nat, c: Word): Word { if k == 0 then c else Bits(n, Rounds(n, k - 1, c)) }

  lemma {:induction false} RoundsLinear(n: nat, k: nat, a: Word, b: Word)
    requires |a| <= 32 && |b| <= 32
    ensures Rounds(n, k, Xor(a, b)) == Xor(Rounds(n, k, a), Rounds(n, k, b))
    ensures |Rounds(n, k, a)| <= 32 && |Rounds(n, k, b)| <= 32
  {
    if k > 0 {
      RoundsLinear(n, k - 1, a, b);
      BitsLinear(n, Rounds(n, k - 1, a), Rounds(n, k - 1, b));
    }
  }

  lemma {:induction false} RoundsInner(n: nat, k: nat, c: Word)
    ensures Rounds(n, k + 1, c) == Rounds(n, k, Bits(n, c))
  {
    if k > 0 { RoundsInner(n, k - 1, c); }
  }

  lemma {:induction false} TableIs(n: nat, k: nat, b: Word)
    requires |b| <= 32 && 0 < n <= 32
    ensures Table(n, k, b) == Rounds(n, k + 1, b) && |Table(n, k, b)| == 32
  {
    if k > 0 {
      TableIs(n, k - 1, b);
      ByteStep(n, Table(n, k - 1, b));
      assert Rounds(n, k + 1, b) == Bits(n, Rounds(n, k, b));
    } else {
      OneRound(n, b);
    }
  }

  lemma OneRound(n: nat, b: Word)
    requires n > 0
    ensures Rounds(n, 1, b) == Bits(n, b) && |Bits(n, b)| == 32
  {
    assert Rounds(n, 0, b) == b;
  }

  lemma ShlAt(d: Word, k: nat, i: int)
    ensures At(Shl(d, k), i) == (0 <= i < 32 && At(d, i - k))
  {
  }

  /** Bit steps see a byte the same when it is padded to a word. */
  lemma {:induction false} BitsPadded(n: nat, d: Word)
    requires |d| <= 32 && n > 0
    ensures Bits(n, Shl(d, 0)) == Bits(n, d)
  {
    if n == 1 {
      forall i | 0 <= i < 32 ensures At(Bit(Shl(d, 0)), i) == At(Bit(d), i) {
        BitAt(Shl(d, 0), i);
        BitAt(d, i);
        ShlAt(d, 0, i + 1);
        ShlAt(d, 0, 0);
      }
      SameIs(Bit(Shl(d, 0)), Bit(d));
      assert Bits(0, d) == d && Bits(0, Shl(d, 0)) == Shl(d, 0);
    } else {
      BitsPadded(n - 1, d);
    }
  }

  /** Steps take a byte that is m bits up down by n. */
  lemma ShiftDown(n: nat, m: nat, d: Word)
    requires n <= m && m + |d| <= 32
    ensures Bits(n, Shl(d, m)) == Shl(d, m - n)
  {
    var up := Shl(d, m);
    forall i | 0 <= i < n ensures !At(up, i) { ShlAt(d, m, i); }
    EvenBits(n, up);
    forall i | 0 <= i < 32 ensures At(Shr(up, n), i) == At(Shl(d, m - n), i) {
      ShrAt(up, n, i);
      ShlAt(d, m, i + n);
      ShlAt(d, m - n, i);
    }
    SameIs(Shr(up, n), Shl(d, m - n));
  }

  lemma OneLess(n: nat, j: nat)
    requires j > 0
    ensures n * (j - 1) == n * j - n && n * j >= n
  {
  }

  /** A byte that is m bits up takes m / n rounds more. */
  lemma {:induction false} RoundsUp(n: nat, k: nat, all: nat, d: Word, m: nat)
    requires 0 < n && 0 < k <= all && m == n * (all - k) && m + |d| <= 32
    ensures Rounds(n, all, Shl(d, m)) == Rounds(n, k, d)
    decreases all
  {
    if k == all {
      PaddedRounds(n, k, d);
    } else {
      OneLess(n, all - k);
      ShiftDown(n, m, d);
      RoundsInner(n, all - 1, Shl(d, m));
      RoundsUp(n, k, all - 1, d, m - n);
    }
  }

  lemma {:induction false} PaddedRounds(n: nat, k: nat, d: Word)
    requires 0 < n && 0 < k && |d| <= 32
    ensures Rounds(n, k, Shl(d, 0)) == Rounds(n, k, d)
  {
    if k == 1 {
      BitsPadded(n, d);
      assert Rounds(n, 0, d) == d && Rounds(n, 0, Shl(d, 0)) == Shl(d, 0);
    } else {
      PaddedRounds(n, k - 1, d);
    }
  }

  // ---------------------------------------------------------------- eight bytes at once

  /** What the bytes contribute, whatever the start. */
  function Tail(n: nat, data: seq<Word>): Word {
    if data == [] then Zero() else Xor(Bits(n, Tail(n, data[..|data| - 1])), Bits(n, data[|data| - 1]))
  }

  lemma {:induction false} TailLen(n: nat, data: seq<Word>)
    ensures |Tail(n, data)| == 32
  {
  }

  lemma {:induction false} StartAndTail(n: nat, c: Word, data: seq<Word>)
    requires |c| == 32 && 0 < n <= 32 && Bytes(n, data)
    ensures Bitwise(n, c, data) == Xor(Rounds(n, |data|, c), Tail(n, data)) && |Bitwise(n, c, data)| == 32
  {
    if data == [] {
      XorZero(c);
    } else {
      var m := |data| - 1;
      var rest, d := data[..m], data[m];
      StartAndTail(n, c, rest);
      var r, t := Rounds(n, m, c), Tail(n, rest);
      TailLen(n, rest);
      RoundsLinear(n, m, c, c);
      BitsLinear(n, Bitwise(n, c, rest), d);
      BitsLinear(n, r, t);
      XorAssoc(Bits(n, r), Bits(n, t), Bits(n, d));
      OneRound(n, Xor(Bitwise(n, c, rest), d));
    }
  }

  /** The first byte goes through all rounds. */
  lemma {:induction false} TailFirst(n: nat, data: seq<Word>)
    requires 0 < n <= 32 && Bytes(n, data) && data != []
    ensures Tail(n, data) == Xor(Rounds(n, |data|, data[0]), Tail(n, data[1..]))
    decreases |data|
  {
    var m := |data| - 1;
    if m == 0 {
      assert data[..0] == [] && data[1..] == [];
      ZeroStays(n);
      OneRound(n, data[0]);
      XorComm(Zero(), Bits(n, data[0]));
    } else {
      var rest, d := data[..m], data[m];
      TailFirst(n, rest);
      assert rest[0] == data[0] && rest[1..] == data[1..][..m - 1];
      var r, t := Rounds(n, m, data[0]), Tail(n, rest[1..]);
      TailLen(n, rest[1..]);
      RoundsLinear(n, m, data[0], data[0]);
      BitsLinear(n, r, t);
      XorAssoc(Bits(n, r), Bits(n, t), Bits(n, d));
    }
  }

  lemma ZeroBit()
    ensures Bit(Zero()) == Zero()
  {
    var z, w := Zero(), Bit(Zero());
    assert !At(z, 0);
    assert w == Shr(z, 1);
    forall i | 0 <= i < 32 ensures w[i] == z[i] { assert w[i] == At(z, i + 1); }
  }

  lemma {:induction false} ZeroStays(n: nat)
    ensures Bits(n, Zero()) == Zero()
  {
    if n > 0 {
      ZeroStays(n - 1);
      ZeroBit();
    }
  }

  function Xor4(a: Word, b: Word, c: Word, d: Word): Word { Xor(Xor(Xor(a, b), c), d) }

  lemma RoundsOfFour(n: nat, k: nat, a: Word, b: Word, c: Word, d: Word)
    requires |a| <= 32 && |b| <= 32 && |c| <= 32 && |d| <= 32
    ensures Rounds(n, k, Xor4(a, b, c, d)) == Xor4(Rounds(n, k, a), Rounds(n, k, b), Rounds(n, k, c), Rounds(n, k, d))
  {
    RoundsLinear(n, k, a, b);
    RoundsLinear(n, k, Xor(a, b), c);
    RoundsLinear(n, k, Xor(Xor(a, b), c), d);
  }

  /** Four bytes side by side in a word. */
  function Load(n: nat, d0: Word, d1: Word, d2: Word, d3: Word): Word {
    Xor4(d0, Shl(d1, n), Shl(d2, 2 * n), Shl(d3, 3 * n))
  }

  lemma RoundsOfLoad(n: nat, k: nat, d0: Word, d1: Word, d2: Word, d3: Word)
    requires 0 < n && 4 * n == 32 && 3 < k && |d0| == n && |d1| == n && |d2| == n && |d3| == n
    ensures Rounds(n, k, Load(n, d0, d1, d2, d3)) ==
      Xor4(Rounds(n, k, d0), Rounds(n, k - 1, d1), Rounds(n, k - 2, d2), Rounds(n, k - 3, d3))
  {
    RoundsOfFour(n, k, d0, Shl(d1, n), Shl(d2, 2 * n), Shl(d3, 3 * n));
    RoundsUp(n, k - 1, k, d1, n);
    RoundsUp(n, k - 2, k, d2, 2 * n);
    RoundsUp(n, k - 3, k, d3, 3 * n);
  }

  lemma RoundsOfWord(n: nat, k: nat, w: Word)
    requires 0 < n && 4 * n == 32 && 3 < k && |w| == 32
    ensures Rounds(n, k, w) ==
      Xor4(Rounds(n, k, Part(w, 0, n)), Rounds(n, k - 1, Part(w, n, n)), Rounds(n, k - 2, Part(w, 2 * n, n)),
        Rounds(n, k - 3, Part(w, 3 * n, n)))
  {
    Reload(n, w);
    RoundsOfLoad(n, k, Part(w, 0, n), Part(w, n, n), Part(w, 2 * n, n), Part(w, 3 * n, n));
  }

  lemma PartAt(w: Word, k: nat, n: nat, i: int)
    ensures At(Part(w, k, n), i) == (0 <= i < n && At(w, i + k))
  {
  }

  lemma Reload(n: nat, w: Word)
    requires 4 * n == 32 && |w| == 32
    ensures Load(n, Part(w, 0, n), Part(w, n, n), Part(w, 2 * n, n), Part(w, 3 * n, n)) == w
  {
    var b0, b1, b2, b3 := Part(w, 0, n), Part(w, n, n), Part(w, 2 * n, n), Part(w, 3 * n, n);
    forall i | 0 <= i < 32 ensures At(Load(n, b0, b1, b2, b3), i) == At(w, i) {
      XorAt(Xor(Xor(b0, Shl(b1, n)), Shl(b2, 2 * n)), Shl(b3, 3 * n), i);
      XorAt(Xor(b0, Shl(b1, n)), Shl(b2, 2 * n), i);
      XorAt(b0, Shl(b1, n), i);
      ShlAt(b1, n, i);
      ShlAt(b2, 2 * n, i);
      ShlAt(b3, 3 * n, i);
      PartAt(w, 0, n, i);
      PartAt(w, n, n, i - n);
      PartAt(w, 2 * n, n, i - 2 * n);
      PartAt(w, 3 * n, n, i - 3 * n);
    }
    SameIs(Load(n, b0, b1, b2, b3), w);
  }

  /** Four bytes or more: the first four go into the word, the others are looked up as they are. */
  lemma EightBytes(n: nat, k: nat, c: Word, d: seq<Word>)
    requires 0 < n && 4 * n == 32 && |c| == 32 && Bytes(n, d) && |d| == k && k >= 4
    ensures var w := Xor(c, Load(n, d[0], d[1], d[2], d[3]));
      Bitwise(n, c, d) == Xor(Rounds(n, k, w), Tail(n, d[4..]))
  {
    StartAndTail(n, c, d);
    FourOff(n, k, d);
    RoundsOfLoad(n, k, d[0], d[1], d[2], d[3]);
    RoundsLinear(n, k, c, Load(n, d[0], d[1], d[2], d[3]));
    XorAssoc(Rounds(n, k, c), Rounds(n, k, Load(n, d[0], d[1], d[2], d[3])), Tail(n, d[4..]));
  }

  lemma FourOff(n: nat, k: nat, d: seq<Word>)
    requires 0 < n <= 32 && Bytes(n, d) && |d| == k && k >= 4
    ensures Tail(n, d) ==
      Xor(Xor4(Rounds(n, k, d[0]), Rounds(n, k - 1, d[1]), Rounds(n, k - 2, d[2]), Rounds(n, k - 3, d[3])),
        Tail(n, d[4..]))
  {
    var r0, r1, r2, r3 := Rounds(n, k, d[0]), Rounds(n, k - 1, d[1]), Rounds(n, k - 2, d[2]), Rounds(n, k - 3, d[3]);
    TwoOff(n, k, d);
    TwoOff(n, k - 2, d[2..]);
    assert d[2..][2..] == d[4..];
    FiveXors(r0, r1, r2, r3, Tail(n, d[4..]));
  }

  lemma TwoOff(n: nat, k: nat, d: seq<Word>)
    requires 0 < n <= 32 && Bytes(n, d) && |d| == k && k >= 2
    ensures Tail(n, d) == Xor(Rounds(n, k, d[0]), Xor(Rounds(n, k - 1, d[1]), Tail(n, d[2..])))
  {
    TailFirst(n, d);
    TailFirst(n, d[1..]);
    assert d[1..][1..] == d[2..];
  }

  lemma TailOff(n: nat, d: seq<Word>, i: nat)
    requires 0 < n <= 32 && Bytes(n, d) && i < |d|
    ensures Tail(n, d[i..]) == Xor(Rounds(n, |d| - i, d[i]), Tail(n, d[i + 1..]))
  {
    TailFirst(n, d[i..]);
    assert d[i..][1..] == d[i + 1..];
  }

  lemma FiveXors(a: Word, b: Word, c: Word, d: Word, e: Word)
    ensures Xor(a, Xor(b, Xor(c, Xor(d, e)))) == Xor(Xor4(a, b, c, d), e)
  {
    XorAssoc(Xor4(a, b, c, d), e, e);
    XorAssoc(Xor(Xor(a, b), c), d, e);
    XorAssoc(Xor(a, b), c, Xor(d, e));
    XorAssoc(a, b, Xor(c, Xor(d, e)));
  }

  // ---------------------------------------------------------------- the loops

  lemma {:induction false} BitwiseCat(n: nat, c: Word, a: seq<Word>, b: seq<Word>)
    ensures Bitwise(n, c, a + b) == Bitwise(n, Bitwise(n, c, a), b)
  {
    if b == [] {
      assert a + b == a;
    } else {
      var m := |b| - 1;
      BitwiseCat(n, c, a, b[..m]);
      assert (a + b)[..|a + b| - 1] == a + b[..m];
    }
  }

  lemma {:induction false} BitwiseLen(n: nat, c: Word, data: seq<Word>)
    requires |c| == 32 && 0 < n <= 32 && Bytes(n, data)
    ensures |Bitwise(n, c, data)| == 32
  {
    StartAndTail(n, c, data);
  }

  /** A table entry. */
  method Look(n: nat, k: nat, b: Word) returns (r: Word)
    requires 0 < n <= 32 && |b| == n
    ensures r == Rounds(n, k + 1, b) && |r| == 32
  {
    TableIs(n, k, b);
    r := Table(n, k, b);
  }

  /** One round of the fast loop. */
  method Slice(n: nat, c: Word, d: seq<Word>) returns (r: Word)
    requires 0 < n && 4 * n == 32 && |c| == 32 && Bytes(n, d) && |d| == 8
    ensures r == Bitwise(n, c, d)
  {
    var w := Xor(c, Or(Or(Or(d[0], Shl(d[1], n)), Shl(d[2], 2 * n)), Shl(d[3], 3 * n)));
    LoadIsOr(n, d[0], d[1], d[2], d[3]);
    var t7 := Look(n, 7, Part(w, 0, n));
    var t6 := Look(n, 6, Part(w, n, n));
    var t5 := Look(n, 5, Part(w, 2 * n, n));
    var t4 := Look(n, 4, Part(w, 3 * n, n));
    var t3 := Look(n, 3, d[4]);
    var t2 := Look(n, 2, d[5]);
    var t1 := Look(n, 1, d[6]);
    var t0 := Look(n, 0, d[7]);
    SliceIs(n, c, d, w, Xor4(t7, t6, t5, t4), t3, t2, t1, t0);
    r := Xor(Xor(Xor(Xor(Xor4(t7, t6, t5, t4), t3), t2), t1), t0);
  }

  lemma OrAt(a: Word, b: Word, i: int)
    ensures At(Or(a, b), i) == (0 <= i < 32 && (At(a, i) || At(b, i)))
  {
  }

  /** Bytes in different places do not overlap. */
  lemma LoadIsOr(n: nat, d0: Word, d1: Word, d2: Word, d3: Word)
    requires 4 * n == 32 && |d0| == n && |d1| == n && |d2| == n && |d3| == n
    ensures Or(Or(Or(d0, Shl(d1, n)), Shl(d2, 2 * n)), Shl(d3, 3 * n)) == Load(n, d0, d1, d2, d3)
  {
    var u1, u2, u3 := Shl(d1, n), Shl(d2, 2 * n), Shl(d3, 3 * n);
    forall i | 0 <= i < 32 ensures At(Or(Or(Or(d0, u1), u2), u3), i) == At(Load(n, d0, d1, d2, d3), i) {
      OrAt(Or(Or(d0, u1), u2), u3, i);
      OrAt(Or(d0, u1), u2, i);
      OrAt(d0, u1, i);
      XorAt(Xor(Xor(d0, u1), u2), u3, i);
      XorAt(Xor(d0, u1), u2, i);
      XorAt(d0, u1, i);
      ShlAt(d1, n, i);
      ShlAt(d2, 2 * n, i);
      ShlAt(d3, 3 * n, i);
    }
    SameIs(Or(Or(Or(d0, u1), u2), u3), Load(n, d0, d1, d2, d3));
  }

  lemma SliceIs(n: nat, c: Word, d: seq<Word>, w: Word, high: Word, t3: Word, t2: Word, t1: Word, t0: Word)
    requires 0 < n && 4 * n == 32 && |c| == 32 && Bytes(n, d) && |d| == 8
      && w == Xor(c, Load(n, d[0], d[1], d[2], d[3]))
    requires high ==
      Xor4(Rounds(n, 8, Part(w, 0, n)), Rounds(n, 7, Part(w, n, n)), Rounds(n, 6, Part(w, 2 * n, n)),
        Rounds(n, 5, Part(w, 3 * n, n)))
    requires t3 == Rounds(n, 4, d[4]) && t2 == Rounds(n, 3, d[5]) && t1 == Rounds(n, 2, d[6])
      && t0 == Rounds(n, 1, d[7])
    ensures Xor(Xor(Xor(Xor(high, t3), t2), t1), t0) == Bitwise(n, c, d)
  {
    EightBytes(n, |d|, c, d);
    FourMore(n, d);
    RoundsOfWord(n, 8, w);
    FiveXors(high, t3, t2, t1, t0);
  }

  lemma FourMore(n: nat, d: seq<Word>)
    requires 0 < n <= 32 && Bytes(n, d) && |d| == 8
    ensures Tail(n, d[4..]) ==
      Xor(Rounds(n, 4, d[4]), Xor(Rounds(n, 3, d[5]), Xor(Rounds(n, 2, d[6]), Rounds(n, 1, d[7]))))
  {
    TailOff(n, d, 4);
    TailOff(n, d, 5);
    TailOff(n, d, 6);
    TailOff(n, d, 7);
    assert d[8..] == [];
    OneRound(n, d[7]);
    XorZero(Rounds(n, 1, d[7]));
  }

  /** One round of the byte loop. */
  method ByteIn(n: nat, c: Word, d: Word) returns (r: Word)
    requires 0 < n <= 32 && |c| == 32 && |d| == n
    ensures r == Bits(n, Xor(c, d)) && |r| == 32
  {
    ByteStep(n, Xor(c, d));
    ShiftOff(n, c, d);
    var t := Look(n, 0, Part(Xor(c, d), 0, n));
    OneRound(n, Part(Xor(c, d), 0, n));
    r := Xor(Shr(c, n), t);
  }

  lemma ShiftOff(n: nat, c: Word, d: Word)
    requires |c| == 32 && |d| == n
    ensures Shr(Xor(c, d), n) == Shr(c, n)
  {
    forall i | 0 <= i < 32 ensures At(Shr(Xor(c, d), n), i) == At(Shr(c, n), i) {
      ShrAt(Xor(c, d), n, i);
      ShrAt(c, n, i);
      XorAt(c, d, i + n);
    }
    SameIs(Shr(Xor(c, d), n), Shr(c, n));
  }

  /** Takes in bytes eight at a time while it can. */
  method Continue(n: nat, c: Word, data: seq<Word>) returns (r: Word)
    requires 0 < n && 4 * n == 32 && |c| == 32 && Bytes(n, data)
    ensures r == Bitwise(n, c, data) && |r| == 32
  {
    r := c;
    var i := 0;
    while |data| - i >= 8
      invariant 0 <= i <= |data| && r == Bitwise(n, c, data[..i]) && |r| == 32
    {
      BitwiseCat(n, c, data[..i], data[i..i + 8]);
      assert data[..i] + data[i..i + 8] == data[..i + 8];
      r := Slice(n, r, data[i..i + 8]);
      BitwiseLen(n, c, data[..i + 8]);
      i := i + 8;
    }
    while i < |data|
      invariant 0 <= i <= |data| && r == Bitwise(n, c, data[..i]) && |r| == 32
    {
      assert data[..i + 1][..i] == data[..i];
      r := ByteIn(n, r, data[i]);
      i := i + 1;
    }
    assert data[..|data|] == data;
  }

  // ---------------------------------------------------------------- what the checksum is

  /** Bit i of a word is the coefficient of exponent 31 - i. */
  ghost function PolyOf(c: Word): Poly { set e: nat | e < 32 && Coefficient(c, e) }

  predicate Coefficient(c: Word, e: nat) { e < 32 && At(c, 31 - e) }

  /** The bits of the bytes, the first one with the highest exponent. */
  ghost function Message(data: seq<Word>): Poly { set e: nat | e < 8 * |data| && MessageBit(data, e) }

  predicate MessageBit(data: seq<Word>, e: nat) { e < 8 * |data| && At(data[|data| - 1 - e / 8], 7 - e % 8) }

  ghost function AllOnes(): Poly { PolyOf(Ones()) }

  /**
   * r, inverted, is the remainder that the message, followed by 32 zeros and with its first 32 bits inverted, leaves
   * when divided by the generator.
   */
  ghost predicate IsRemainder(data: seq<Word>, r: Word) {
    && |r| == 32
    && Congruent(Add(PolyOf(r), AllOnes()), Add(Up(AllOnes(), 8 * |data|), Up(Message(data), 32)))
  }

  /** A bit step multiplies by x. */
  lemma BitPoly(c: Word)
    requires |c| <= 32
    ensures PolyOf(Bit(c)) == Add(Up(PolyOf(c), 1), Term(At(c, 0)))
  {
    forall e: nat ensures e in PolyOf(Bit(c)) <==> e in Add(Up(PolyOf(c), 1), Term(At(c, 0))) {
      UpHas(PolyOf(c), 1, e);
      AddHas(Up(PolyOf(c), 1), Term(At(c, 0)), e);
      BitCoefficient(c, e);
    }
  }

  lemma BitCoefficient(c: Word, e: nat)
    requires |c| <= 32
    ensures Coefficient(Bit(c), e) <==> (e >= 1 && Coefficient(c, e - 1)) != (e in Term(At(c, 0)))
  {
    if e < 32 {
      BitAt(c, 31 - e);
      DivisorAt(e);
    } else {
      TopGenerator();
    }
  }

  lemma DivisorAt(e: nat)
    requires e < 32
    ensures At(Divisor(), 31 - e) <==> e in GENERATOR
  {
    assert 31 - (31 - e) == e;
  }

  lemma {:induction false} BitsPoly(n: nat, c: Word)
    requires |c| <= 32
    ensures |Bits(n, c)| <= 32 && Congruent(PolyOf(Bits(n, c)), Up(PolyOf(c), n))
  {
    if n == 0 {
      UpNone(PolyOf(c));
      CongruentSame(PolyOf(c));
    } else {
      BitsPoly(n - 1, c);
      var w := Bits(n - 1, c);
      BitPoly(w);
      OneTerm(Up(PolyOf(w), 1), At(w, 0));
      CongruentOnce(PolyOf(w), Up(PolyOf(c), n - 1));
      UpTwice(PolyOf(c), n - 1, 1);
      CongruentThrough(PolyOf(Bits(n, c)), Up(PolyOf(w), 1), Up(PolyOf(c), n));
    }
  }

  lemma OneTerm(a: Poly, b: bool)
    ensures Congruent(Add(a, Term(b)), a)
  {
    assert [b][1..] == [] && Up({}, 1) == {};
    assert Add(Add(a, Term(b)), a) == Multiple([b]);
  }

  lemma XorPoly(a: Word, b: Word)
    ensures PolyOf(Xor(a, b)) == Add(PolyOf(a), PolyOf(b))
  {
    forall e: nat ensures e in PolyOf(Xor(a, b)) <==> e in Add(PolyOf(a), PolyOf(b)) { XorAt(a, b, 31 - e); }
  }

  lemma BytePoly(b: Word)
    requires |b| == 8
    ensures PolyOf(b) == Up(Message([b]), 24)
  {
    forall e: nat ensures e in PolyOf(b) <==> e in Up(Message([b]), 24) { UpHas(Message([b]), 24, e); }
  }

  lemma MessageMore(data: seq<Word>, b: Word)
    requires |b| == 8
    ensures Message(data + [b]) == Add(Up(Message(data), 8), Message([b]))
  {
    var all := data + [b];
    forall e: nat ensures e in Message(all) <==> e in Add(Up(Message(data), 8), Message([b])) {
      UpHas(Message(data), 8, e);
      if e >= 8 {
        Shifted(e);
        if e < 8 * |all| { assert all[|all| - 1 - e / 8] == data[|data| - 1 - (e - 8) / 8]; }
      }
    }
  }

  lemma Shifted(e: nat)
    requires e >= 8
    ensures (e - 8) / 8 == e / 8 - 1 && (e - 8) % 8 == e % 8
  {
  }

  /** The start, moved up by the length of the message, and the message, moved up by the length of a word. */
  ghost function Taken(c: Word, data: seq<Word>): Poly {
    Add(Up(PolyOf(c), 8 * |data|), Up(Message(data), 32))
  }

  lemma {:induction false} BitwisePoly(c: Word, data: seq<Word>)
    requires |c| == 32 && Bytes(8, data)
    ensures Congruent(PolyOf(Bitwise(8, c, data)), Taken(c, data))
  {
    if data == [] {
      TakenNone(c);
      CongruentSame(PolyOf(c));
    } else {
      var rest, b := data[..|data| - 1], data[|data| - 1];
      BitwisePoly(c, rest);
      BitwiseLen(8, c, rest);
      ByteTaken(Bitwise(8, c, rest), b);
      assert data == rest + [b];
      TakenMore(c, rest, b);
      OneByteMore(PolyOf(Bitwise(8, c, rest)), Taken(c, rest), PolyOf(Bitwise(8, c, data)), Up(Message([b]), 32));
    }
  }

  lemma TakenNone(c: Word)
    ensures Taken(c, []) == PolyOf(c)
  {
    UpNone(PolyOf(c));
    assert Up(Message([]), 32) == {};
  }

  lemma TakenMore(c: Word, data: seq<Word>, b: Word)
    requires |b| == 8
    ensures Taken(c, data + [b]) == Add(Up(Taken(c, data), 8), Up(Message([b]), 32))
  {
    Gather(PolyOf(c), 8 * |data|, Message(data), Message([b]));
    MessageMore(data, b);
  }

  lemma OneByteMore(w: Poly, m: Poly, v: Poly, b: Poly)
    requires Congruent(w, m) && Congruent(v, Add(Up(w, 8), b))
    ensures Congruent(v, Add(Up(m, 8), b))
  {
    CongruentUp(w, m, 8);
    CongruentSame(b);
    CongruentAdds(Up(w, 8), Up(m, 8), b, b);
    CongruentThrough(v, Add(Up(w, 8), b), Add(Up(m, 8), b));
  }

  lemma ByteTaken(w: Word, b: Word)
    requires |w| == 32 && |b| == 8
    ensures Congruent(PolyOf(Bits(8, Xor(w, b))), Add(Up(PolyOf(w), 8), Up(Message([b]), 32)))
  {
    BitsPoly(8, Xor(w, b));
    XorPoly(w, b);
    UpAdds(PolyOf(w), PolyOf(b), 8);
    BytePoly(b);
    UpTwice(Message([b]), 24, 8);
  }

  lemma Gather(c: Poly, k: nat, m: Poly, b: Poly)
    ensures Add(Up(Add(Up(c, k), Up(m, 32)), 8), Up(b, 32)) == Add(Up(c, k + 8), Up(Add(Up(m, 8), b), 32))
  {
    UpAdds(Up(c, k), Up(m, 32), 8);
    UpTwice(c, k, 8);
    UpTwice(m, 32, 8);
    UpAdds(Up(m, 8), b, 32);
    UpTwice(m, 8, 32);
    AddAssoc(Up(c, k + 8), Up(m, 40), Up(b, 32));
  }

  lemma OnesPoly(w: Word)
    requires |w| == 32
    ensures Add(PolyOf(Not(w)), AllOnes()) == PolyOf(w)
  {
    forall e: nat ensures e in Add(PolyOf(Not(w)), AllOnes()) <==> e in PolyOf(w) {
      if e < 32 { assert At(Not(w), 31 - e) == !At(w, 31 - e) && At(Ones(), 31 - e); }
    }
  }

  lemma CrcIs(data: seq<Word>)
    requires Bytes(8, data)
    ensures IsRemainder(data, Crc(data))
  {
    var w := Bitwise(8, Ones(), data);
    BitwisePoly(Ones(), data);
    BitwiseLen(8, Ones(), data);
    OnesPoly(w);
  }

  lemma PolyOfIs(a: Word, b: Word)
    requires |a| == 32 && |b| == 32 && PolyOf(a) == PolyOf(b)
    ensures a == b
  {
    forall i | 0 <= i < 32 ensures At(a, i) == At(b, i) {
      assert 31 - i in PolyOf(a) <==> 31 - i in PolyOf(b);
    }
    SameIs(a, b);
  }

  /** The checksum is the only word with that property. */
  lemma CrcUnique(data: seq<Word>, r: Word)
    requires Bytes(8, data)
    ensures IsRemainder(data, r) <==> r == Crc(data)
  {
    CrcIs(data);
    if IsRemainder(data, r) {
      var c := Crc(data);
      var m := Taken(Ones(), data);
      CongruentBack(Add(PolyOf(c), AllOnes()), m);
      CongruentThrough(Add(PolyOf(r), AllOnes()), m, Add(PolyOf(c), AllOnes()));
      OneRemainder(Add(PolyOf(r), AllOnes()), Add(PolyOf(c), AllOnes()));
      AddBoth(PolyOf(r), PolyOf(c), AllOnes());
      PolyOfIs(r, c);
    }
  }

  /** The checksum: eight bits a byte, started from and finished with all ones. */
  function Crc(data: seq<Word>): Word { Not(Bitwise(8, Ones(), data)) }

  method Crc32(data: seq<Word>) returns (r: Word)
    requires Bytes(8, data)
    ensures r == Crc(data) && IsRemainder(data, r)
  {
    var c := Continue(8, Ones(), data);
    r := Not(c);
    CrcIs(data);
  }

  function Zeros(n: nat, k: nat): seq<Word> { seq(k, _ => seq(n, _ => false)) }

  /** The checksum of the data with a range taken as zero; zero when the range does not lie inside. */
  method Crc32ZeroedRange(data: seq<Word>, offset: nat, size: nat) returns (r: Word)
    requires Bytes(8, data)
    ensures r == if offset + size > |data| then Zero() else Crc(data[..offset] + Zeros(8, size) + data[offset + size..])
  {
    if offset > |data| || size > |data| - offset { return Zero(); }
    var c := Continue(8, Ones(), data[..offset]);
    c := SkipZeros(8, c, size);
    BitwiseCat(8, Ones(), data[..offset], Zeros(8, size));
    BitwiseCat(8, Ones(), data[..offset] + Zeros(8, size), data[offset + size..]);
    c := Continue(8, c, data[offset + size..]);
    r := Not(c);
  }

  method SkipZeros(n: nat, c: Word, size: nat) returns (r: Word)
    requires 0 < n <= 32 && |c| == 32
    ensures r == Bitwise(n, c, Zeros(n, size)) && |r| == 32
  {
    r := c;
    var i := 0;
    while i < size
      invariant 0 <= i <= size && r == Bitwise(n, c, Zeros(n, i)) && |r| == 32
    {
      ByteStep(n, r);
      assert Zeros(n, i + 1)[..i] == Zeros(n, i);
      XorZeros(n, r);
      var t := Look(n, 0, Part(r, 0, n));
      OneRound(n, Part(r, 0, n));
      r := Xor(Shr(r, n), t);
      i := i + 1;
    }
  }

  lemma XorZeros(n: nat, r: Word)
    requires |r| == 32
    ensures Xor(r, seq(n, _ => false)) == r
  {
    var z := seq(n, _ => false);
    forall i | 0 <= i < 32 ensures At(Xor(r, z), i) == At(r, i) { XorAt(r, z, i); }
    SameIs(Xor(r, z), r);
  }
}
