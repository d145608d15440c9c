/** The page cache's hash table: open addressing with linear probing and backward-shift deletion. */
module ProbeTable {
  const HASH_MUL: nat := 11400714819323198485

  /** A slot is empty when its id is 0. */
  datatype Slot = Slot(id: int, frame: nat)

  type Table = seq<Slot>

  function Home(id: int, n: nat): nat
    requires n > 0
    ensures Home(id, n) < n
  { (id * HASH_MUL) % n }

  function After(i: nat, n: nat): nat
    requires i < n
    ensures After(i, n) < n
  { if i + 1 == n then 0 else i + 1 }

  /** How many steps lead from slot a to slot b. */
  function Dist(a: nat, b: nat, n: nat): (d: nat)
    requires a < n && b < n
    ensures d < n
  { if a <= b then b - a else b + n - a }

  /** No slot on the way from an entry's home to the entry is empty; the slot `hole` may be. */
  ghost predicate ReachedAt(t: Table, y: nat, hole: int)
    requires y < |t|
  {
    forall x :: 0 <= x < |t| && Dist(Home(t[y].id, |t|), x, |t|) <= Dist(Home(t[y].id, |t|), y, |t|) && x != hole ==>
      t[x].id != 0
  }

  ghost predicate Reached(t: Table, hole: int) {
    forall y {:trigger ReachedAt(t, y, hole)} :: 0 <= y < |t| && y != hole && t[y].id != 0 ==> ReachedAt(t, y, hole)
  }

  ghost predicate NoTwins(t: Table, hole: int) {
    forall x, y :: 0 <= x < y < |t| && x != hole && y != hole && t[x].id != 0 ==> t[x].id != t[y].id
  }

  /** The entries are m; the slot `hole` is left out of account. */
  ghost predicate Maps(t: Table, hole: int, m: map<int, nat>) {
    && (forall y :: 0 <= y < |t| && y != hole && t[y].id != 0 ==> t[y].id in m && m[t[y].id] == t[y].frame)
    && (forall id :: id in m ==> id != 0 && exists y :: 0 <= y < |t| && y != hole && t[y].id == id)
  }

  ghost predicate TableOk(t: Table, hole: int, m: map<int, nat>) {
    |t| > 0 && Reached(t, hole) && NoTwins(t, hole) && Maps(t, hole, m)
  }

  // ---------------------------------------------------------------- distances

  lemma DistAfter(a: nat, b: nat, n: nat)
    requires a < n && b < n
    ensures After(b, n) != a ==> Dist(a, After(b, n), n) == Dist(a, b, n) + 1
    ensures After(b, n) == a ==> Dist(a, b, n) == n - 1
  {
  }

  // ---------------------------------------------------------------- searching

  method Find(slots: array<Slot>, id: int, ghost m: map<int, nat>) returns (found: bool, i: nat)
    requires TableOk(slots[..], -1, m) && id != 0
    ensures found <==> id in m
    ensures found ==> i < slots.Length && slots[i].id == id && slots[i].frame == m[id]
  {
    var n := slots.Length;
    var home := Home(id, n);
    i := home;
    var probes := 0;
    while probes < n
      invariant 0 <= probes <= n && i < n
      invariant probes < n ==> Dist(home, i, n) == probes
      invariant forall x: nat :: x < n && Dist(home, x, n) < probes ==> slots[x].id != id
    {
      if slots[i].id == 0 {
        Absent(slots[..], id, i, m);
        return false, i;
      }
      if slots[i].id == id { return true, i; }
      DistAfter(home, i, n);
      i := After(i, n);
      probes := probes + 1;
    }
    Nowhere(slots[..], id, m);
    found := false;
  }

  lemma Nowhere(t: Table, id: int, m: map<int, nat>)
    requires Maps(t, -1, m) && forall x :: 0 <= x < |t| ==> t[x].id != id
    ensures id !in m
  {
  }

  lemma Located(t: Table, hole: int, m: map<int, nat>, id: int) returns (y: nat)
    requires Maps(t, hole, m) && id in m
    ensures y < |t| && y != hole && t[y].id == id && t[y].frame == m[id]
  {
    y :| y < |t| && y != hole && t[y].id == id;
  }

  lemma ReachedFrom(t: Table, y: nat, hole: int)
    requires Reached(t, hole) && y < |t| && y != hole && t[y].id != 0
    ensures ReachedAt(t, y, hole)
  {
    assert ReachedAt(t, y, hole);
  }

  /** A search that meets an empty slot has met the entry, if there is one. */
  lemma Absent(t: Table, id: int, i: nat, m: map<int, nat>)
    requires TableOk(t, -1, m) && id != 0 && i < |t| && t[i].id == 0
    requires forall x: nat :: x < |t| && Dist(Home(id, |t|), x, |t|) < Dist(Home(id, |t|), i, |t|) ==> t[x].id != id
    ensures id !in m
  {
    if id in m {
      var y := Located(t, -1, m, id);
      ReachedFrom(t, y, -1);
    }
  }

  // ---------------------------------------------------------------- inserting

  /** Every slot from home up to, not including, i is full. */
  ghost predicate FullUntil(t: Table, home: nat, i: nat)
    requires home < |t| && i < |t|
  {
    forall x {:trigger t[x]} :: 0 <= x < |t| && Dist(home, x, |t|) < Dist(home, i, |t|) ==> t[x].id != 0
  }

  lemma FullMore(t: Table, home: nat, i: nat, e: nat)
    requires home < |t| && i < |t| && e < |t| && FullUntil(t, home, i) && t[i].id != 0 && t[e].id == 0
    requires Dist(home, i, |t|) <= Dist(home, e, |t|)
    ensures FullUntil(t, home, After(i, |t|))
      && Dist(home, After(i, |t|), |t|) == Dist(home, i, |t|) + 1 <= Dist(home, e, |t|)
  {
    DistAfter(home, i, |t|);
  }

  /** The first empty slot from home on. */
  method FirstEmpty(slots: array<Slot>, home: nat, ghost e: nat) returns (i: nat)
    requires home < slots.Length && e < slots.Length && slots[e].id == 0
    ensures i < slots.Length && slots[i].id == 0 && FullUntil(slots[..], home, i)
  {
    var n := slots.Length;
    i := home;
    while slots[i].id != 0
      invariant i < n && FullUntil(slots[..], home, i) && Dist(home, i, n) <= Dist(home, e, n)
      decreases Dist(home, e, n) - Dist(home, i, n)
    {
      FullMore(slots[..], home, i, e);
      i := After(i, n);
    }
  }

  method Insert(slots: array<Slot>, id: int, frame: nat, ghost m: map<int, nat>, ghost e: nat)
    requires TableOk(slots[..], -1, m) && id != 0 && id !in m && e < slots.Length && slots[e].id == 0
    modifies slots
    ensures TableOk(slots[..], -1, m[id := frame])
  {
    ghost var t := slots[..];
    var i := FirstEmpty(slots, Home(id, slots.Length), e);
    Inserted(t, id, frame, i, m);
    slots[i] := Slot(id, frame);
    assert slots[..] == t[i := Slot(id, frame)];
  }

  lemma Inserted(t: Table, id: int, frame: nat, i: nat, m: map<int, nat>)
    requires TableOk(t, -1, m) && id != 0 && id !in m && i < |t| && t[i].id == 0 && FullUntil(t, Home(id, |t|), i)
    ensures TableOk(t[i := Slot(id, frame)], -1, m[id := frame])
  {
    var t' := t[i := Slot(id, frame)];
    forall y | 0 <= y < |t'| && t'[y].id != 0 ensures ReachedAt(t', y, -1) {
      if y != i { ReachedFrom(t, y, -1); }
    }
    var m' := m[id := frame];
    forall k | k in m' ensures exists y :: 0 <= y < |t'| && t'[y].id == k {
      if k == id { assert t'[i].id == k; } else { var y := Located(t, -1, m, k); assert t'[y].id == k; }
    }
  }

  // ---------------------------------------------------------------- deleting

  /** The entry in slot k is full and belongs after slot i. */
  ghost predicate Stays(t: Table, i: nat, k: nat)
    requires i < |t| && k < |t|
  {
    t[k].id != 0 && 0 < Dist(i, Home(t[k].id, |t|), |t|) <= Dist(i, k, |t|)
  }

  /** So do all entries after i and before j. */
  ghost predicate Settled(t: Table, i: nat, j: nat)
    requires i < |t| && j < |t|
  {
    forall k {:trigger Stays(t, i, k)} :: 0 <= k < |t| && 0 < Dist(i, k, |t|) < Dist(i, j, |t|) ==> Stays(t, i, k)
  }

  /** Empties slot i; entries that were probed for across it move back. */
  method DeleteAt(slots: array<Slot>, at: nat, ghost m: map<int, nat>, ghost e: nat)
    requires TableOk(slots[..], -1, m) && at < slots.Length && slots[at].id != 0
    requires e < slots.Length && slots[e].id == 0
    modifies slots
    ensures TableOk(slots[..], -1, m - {old(slots[at].id)})
  {
    var n := slots.Length;
    var i: nat := at;
    ghost var m' := m - {slots[at].id};
    HoleMade(slots[..], at, m);
    while true
      invariant i < n && i != e && slots[e].id == 0 && TableOk(slots[..], i, m')
      decreases Dist(i, e, n)
    {
      ghost var t := slots[..];
      HoleAny(t, i, t[i].(id := 0), m');
      slots[i] := slots[i].(id := 0);
      assert slots[..] == t[i := t[i].(id := 0)];
      var j := Next(slots, i, e);
      t := slots[..];
      if slots[j].id == 0 {
        HoleClosed(t, i, j, m');
        return;
      }
      HoleMoved(t, i, j, m', e);
      slots[i] := slots[j];
      assert slots[..] == t[i := t[j]];
      i := j;
    }
  }

  /** The first slot after i that is empty or whose entry may move to i. */
  method Next(slots: array<Slot>, i: nat, ghost e: nat) returns (j: nat)
    requires i < slots.Length && e < slots.Length && e != i && slots[e].id == 0
    ensures j < slots.Length && 0 < Dist(i, j, slots.Length) <= Dist(i, e, slots.Length)
    ensures Settled(slots[..], i, j) && !Stays(slots[..], i, j)
  {
    var n := slots.Length;
    ghost var t := slots[..];
    j := i;
    while true
      invariant j < n && Dist(i, j, n) < Dist(i, e, n)
      invariant Settled(t, i, j) && (j == i || Stays(t, i, j))
      decreases Dist(i, e, n) - Dist(i, j, n)
    {
      SettledMore(t, i, j, e);
      j := After(j, n);
      if slots[j].id == 0 { return; }
      var home := Home(slots[j].id, n);
      var stays := if i <= j then home > i && home <= j else home > i || home <= j;
      if !stays { return; }
    }
  }

  lemma SettledMore(t: Table, i: nat, j: nat, e: nat)
    requires i < |t| && j < |t| && e < |t| && Settled(t, i, j) && (j == i || Stays(t, i, j))
      && Dist(i, j, |t|) < Dist(i, e, |t|)
    ensures Settled(t, i, After(j, |t|)) && Dist(i, After(j, |t|), |t|) == Dist(i, j, |t|) + 1
  {
    DistAfter(i, j, |t|);
    forall k | 0 <= k < |t| && 0 < Dist(i, k, |t|) < Dist(i, After(j, |t|), |t|) ensures Stays(t, i, k) {
      if Dist(i, k, |t|) == Dist(i, j, |t|) { assert k == j; }
    }
  }

  lemma HoleMade(t: Table, i: nat, m: map<int, nat>)
    requires TableOk(t, -1, m) && i < |t| && t[i].id != 0
    ensures TableOk(t, i, m - {t[i].id})
  {
    forall y | 0 <= y < |t| && y != i && t[y].id != 0 ensures ReachedAt(t, y, i) { ReachedFrom(t, y, -1); }
    forall k | k in m - {t[i].id} ensures exists y :: 0 <= y < |t| && y != i && t[y].id == k {
      var y := Located(t, -1, m, k);
    }
  }

  lemma HoleAny(t: Table, i: nat, s: Slot, m: map<int, nat>)
    requires TableOk(t, i, m) && i < |t|
    ensures TableOk(t[i := s], i, m)
  {
    var t' := t[i := s];
    forall y | 0 <= y < |t| && y != i && t'[y].id != 0 ensures ReachedAt(t', y, i) { ReachedFrom(t, y, i); }
    forall k | k in m ensures exists y :: 0 <= y < |t'| && y != i && t'[y].id == k {
      var y := Located(t, i, m, k);
      assert t'[y].id == k;
    }
  }

  /** Nothing is probed for across an empty slot that no entry needs. */
  lemma HoleClosed(t: Table, i: nat, j: nat, m: map<int, nat>)
    requires TableOk(t, i, m) && i < |t| && t[i].id == 0 && j < |t| && t[j].id == 0 && j != i && Settled(t, i, j)
    ensures TableOk(t, -1, m)
  {
    forall y | 0 <= y < |t| && t[y].id != 0 ensures ReachedAt(t, y, -1) {
      ReachedFrom(t, y, i);
      NotAcross(t, i, j, y);
    }
    forall k | k in m ensures exists y :: 0 <= y < |t| && y != -1 && t[y].id == k {
      var y := Located(t, i, m, k);
    }
  }

  lemma NotAcross(t: Table, i: nat, j: nat, y: nat)
    requires i < |t| && j < |t| && y < |t| && t[j].id == 0 && j != i && y != i && t[y].id != 0 && Settled(t, i, j)
      && ReachedAt(t, y, i)
    ensures Dist(Home(t[y].id, |t|), i, |t|) > Dist(Home(t[y].id, |t|), y, |t|)
  {
    assert Dist(i, y, |t|) >= Dist(i, j, |t|) || Stays(t, i, y);
    Across(Home(t[y].id, |t|), i, j, y, |t|);
  }

  lemma Across(h: nat, i: nat, j: nat, y: nat, n: nat)
    requires h < n && i < n && j < n && y < n && i != j && i != y
    ensures Dist(h, i, n) <= Dist(h, y, n) && Dist(i, j, n) <= Dist(i, y, n) ==> Dist(h, j, n) <= Dist(h, y, n)
    ensures 0 < Dist(i, h, n) <= Dist(i, y, n) ==> Dist(h, i, n) > Dist(h, y, n)
  {
  }

  lemma HoleMoved(t: Table, i: nat, j: nat, m: map<int, nat>, e: nat)
    requires TableOk(t, i, m) && i < |t| && t[i].id == 0 && j < |t| && t[j].id != 0 && j != i && !Stays(t, i, j)
    requires e < |t| && t[e].id == 0 && e != i && Dist(i, j, |t|) <= Dist(i, e, |t|)
    ensures TableOk(t[i := t[j]], j, m) && Dist(j, e, |t|) < Dist(i, e, |t|) && j != e
  {
    var t', n := t[i := t[j]], |t|;
    ReachedFrom(t, j, i);
    forall y | 0 <= y < n && y != j && t'[y].id != 0 ensures ReachedAt(t', y, j) {
      if y == i { MovedReached(t, i, j); } else { ReachedFrom(t, y, i); }
    }
    forall k | k in m ensures exists y :: 0 <= y < n && y != j && t'[y].id == k {
      var y := Located(t, i, m, k);
      assert t'[if y == j then i else y].id == k;
    }
  }

  lemma MovedReached(t: Table, i: nat, j: nat)
    requires i < |t| && j < |t| && j != i && t[j].id != 0 && ReachedAt(t, j, i) && !Stays(t, i, j)
    ensures ReachedAt(t[i := t[j]], i, j)
  {
    var n, h := |t|, Home(t[j].id, |t|);
    assert Dist(h, i, n) < Dist(h, j, n);
  }
}
