/** The page cache: frames found through a hash table, a stack of free frames, and a clock hand. */
module PageCaches {
  import opened Common
  import opened ProbeTable

  type Page = seq<int>

  datatype Frame = Frame(page: int, valid: bool, ref: bool, bytes: Page)

  /** Pages and valid frames correspond. */
  ghost predicate FramesOk(es: seq<Frame>, index: map<int, nat>) {
    && (forall p :: p in index ==> index[p] < |es| && es[index[p]].valid && es[index[p]].page == p)
    && (forall f :: 0 <= f < |es| && es[f].valid ==> es[f].page in index && index[es[f].page] == f)
  }

  /** The free frames, `but` apart, are exactly those on the stack. */
  ghost predicate FreeOk(es: seq<Frame>, free: seq<nat>, but: int) {
    && Distinct(free) && (forall i :: 0 <= i < |free| ==> free[i] < |es| && free[i] != but && !es[free[i]].valid)
    && (forall f :: 0 <= f < |es| && f != but && !es[f].valid ==> f in free)
  }

  ghost function Contents(es: seq<Frame>, index: map<int, nat>): map<int, Page>
    requires FramesOk(es, index)
  { map p | p in index :: es[index[p]].bytes }

  // ---------------------------------------------------------------- room in the table

  lemma {:induction false} DistinctBound(s: seq<nat>, n: nat)
    requires Distinct(s) && forall i :: 0 <= i < |s| ==> s[i] < n
    ensures |s| <= n
    decreases n
  {
    if |s| > 0 {
      var last := |s| - 1;
      var rest := s[..last];
      if k :| 0 <= k < last && s[k] == n - 1 {
        DistinctBound(rest[k := s[last]], n - 1);
      } else if s[last] == n - 1 {
        DistinctBound(rest, n - 1);
      } else {
        DistinctBound(s, n - 1);
      }
    }
  }

  lemma HasEmpty(t: Table, es: seq<Frame>, index: map<int, nat>) returns (e: nat)
    requires TableOk(t, -1, index) && FramesOk(es, index) && |es| < |t|
    ensures e < |t| && t[e].id == 0
  {
    var frames := seq(|t|, y requires 0 <= y < |t| => t[y].frame);
    if forall y :: 0 <= y < |t| ==> t[y].id != 0 {
      forall x, y | 0 <= x < y < |t| ensures frames[x] != frames[y] {
        assert es[frames[x]].page == t[x].id && es[frames[y]].page == t[y].id;
      }
      DistinctBound(frames, |es|);
    }
    e :| 0 <= e < |t| && t[e].id == 0;
  }

  // ---------------------------------------------------------------- frames

  lemma Filled(es: seq<Frame>, index: map<int, nat>, free: seq<nat>, f: nat, page: int, bytes: Page)
    requires FramesOk(es, index) && FreeOk(es, free, f) && f < |es| && !es[f].valid && page !in index
    ensures var es', index' := es[f := Frame(page, true, false, bytes)], index[page := f];
      FramesOk(es', index') && FreeOk(es', free, -1) && Contents(es', index') == Contents(es, index)[page := bytes]
  {
    var es', index' := es[f := Frame(page, true, false, bytes)], index[page := f];
    SameContents(es', index', Contents(es, index)[page := bytes]);
  }

  lemma SameContents(es: seq<Frame>, index: map<int, nat>, m: map<int, Page>)
    requires FramesOk(es, index) && index.Keys == m.Keys && forall p :: p in index ==> m[p] == es[index[p]].bytes
    ensures Contents(es, index) == m
  {
    var c := Contents(es, index);
    assert forall p :: p in c <==> p in index.Keys;
    assert forall p :: p in c ==> p in m && c[p] == m[p];
    assert forall p :: p in m ==> p in m.Keys;
  }

  lemma Emptied(es: seq<Frame>, index: map<int, nat>, free: seq<nat>, page: int, f: nat, ref: bool)
    requires FramesOk(es, index) && FreeOk(es, free, -1) && page in index && index[page] == f
    ensures var es', index' := es[f := Frame(0, false, ref, es[f].bytes)], index - {page};
      FramesOk(es', index') && FreeOk(es', free, f) && Contents(es', index') == Contents(es, index) - {page}
  {
    var es', index' := es[f := Frame(0, false, ref, es[f].bytes)], index - {page};
    SameContents(es', index', Contents(es, index) - {page});
  }

  lemma Refreshed(es: seq<Frame>, index: map<int, nat>, free: seq<nat>, f: nat, ref: bool, bytes: Page)
    requires FramesOk(es, index) && FreeOk(es, free, -1) && f < |es| && es[f].valid
    ensures var es' := es[f := es[f].(ref := ref, bytes := bytes)];
      FramesOk(es', index) && FreeOk(es', free, -1) && Contents(es', index) == Contents(es, index)[es[f].page := bytes]
  {
    var es' := es[f := es[f].(ref := ref, bytes := bytes)];
    SameContents(es', index, Contents(es, index)[es[f].page := bytes]);
  }

  lemma Marked(es: seq<Frame>, index: map<int, nat>, free: seq<nat>, f: nat, ref: bool)
    requires FramesOk(es, index) && FreeOk(es, free, -1) && f < |es|
    ensures var es' := es[f := es[f].(ref := ref)];
      FramesOk(es', index) && FreeOk(es', free, -1) && Contents(es', index) == Contents(es, index)
  {
    var es' := es[f := es[f].(ref := ref)];
    SameContents(es', index, Contents(es, index));
  }

  lemma Pushed(es: seq<Frame>, free: seq<nat>, f: nat)
    requires FreeOk(es, free, f) && f < |es| && !es[f].valid
    ensures FreeOk(es, free + [f], -1)
  {
  }

  lemma Popped(es: seq<Frame>, free: seq<nat>)
    requires FreeOk(es, free, -1) && |free| > 0
    ensures var f := free[|free| - 1]; f < |es| && !es[f].valid && FreeOk(es, free[..|free| - 1], f)
  {
    var rest := free[..|free| - 1];
    forall g | 0 <= g < |es| && g != free[|free| - 1] && !es[g].valid ensures g in rest {
      var i :| 0 <= i < |free| && free[i] == g;
      assert rest[i] == g;
    }
  }

  // ---------------------------------------------------------------- the cache

  class PageCache {
    const capacity: nat
    const slots: array<Slot>
    const entries: array<Frame>
    const freeList: array<nat>
    var freeCount: nat
    var hand: nat
    ghost var index: map<int, nat>

    ghost predicate Sized()
      reads this
    {
      && 0 < capacity == entries.Length && freeList.Length == capacity && 2 * capacity <= slots.Length
      && hand < capacity && freeCount <= capacity
    }

    /** All is in order; frame `but`, if any, is free and not on the stack. */
    ghost predicate ValidBut(but: int)
      reads this, slots, entries, freeList
    {
      && Sized() && TableOk(slots[..], -1, index)
      && FramesOk(entries[..], index) && FreeOk(entries[..], freeList[..freeCount], but)
    }

    ghost predicate Valid()
      reads this, slots, entries, freeList
    { ValidBut(-1) }

    ghost function Model(): map<int, Page>
      requires FramesOk(entries[..], index)
      reads this, entries
    { Contents(entries[..], index) }

    constructor (capacity: nat)
      requires capacity > 0
      ensures Valid() && Model() == map[] && this.capacity == capacity
      ensures fresh(slots) && fresh(entries) && fresh(freeList)
    {
      var n := 1;
      while n < 2 * capacity { n := 2 * n; }
      this.capacity := capacity;
      slots := new Slot[n](_ => Slot(0, 0));
      entries := new Frame[capacity](_ => Frame(0, false, false, []));
      freeList := new nat[capacity](i requires 0 <= i < capacity => capacity - 1 - i);
      freeCount, hand, index := capacity, 0, map[];
      new;
      forall f | 0 <= f < capacity ensures f in freeList[..freeCount] {
        assert freeList[..freeCount][capacity - 1 - f] == f;
      }
    }

    method Get(page: int) returns (found: bool, bytes: Page)
      requires Valid()
      modifies entries
      ensures Valid() && Model() == old(Model())
      ensures found <==> page in Model()
      ensures found ==> bytes == Model()[page]
      ensures entries[..] == if found then Referenced(old(entries[..]), index[page], true) else old(entries[..])
    {
      bytes := [];
      if page == 0 { found := false; return; }
      var slot;
      found, slot := Find(slots, page, index);
      if !found { return; }
      var frame := slots[slot].frame;
      Marked(entries[..], index, freeList[..freeCount], frame, true);
      ghost var es := entries[..];
      entries[frame] := entries[frame].(ref := true);
      assert entries[..] == es[frame := es[frame].(ref := true)];
      bytes := entries[frame].bytes;
    }

    /** Takes a page out of the table and empties its frame, which goes nowhere yet. */
    method Drop(page: int, frame: nat, slot: nat, ref: bool)
      requires Valid() && page in index && index[page] == frame && slot < slots.Length && slots[slot].id == page
      modifies this`index, slots, entries
      ensures ValidBut(frame) && index == old(index) - {page} && !entries[frame].valid
        && Model() == old(Model()) - {page}
      ensures forall f :: 0 <= f < capacity && f != frame ==> entries[f] == old(entries[f])
    {
      ghost var e := HasEmpty(slots[..], entries[..], index);
      DeleteAt(slots, slot, index, e);
      Emptied(entries[..], index, freeList[..freeCount], page, frame, ref);
      ghost var es := entries[..];
      entries[frame] := Frame(0, false, ref, entries[frame].bytes);
      assert entries[..] == es[frame := Frame(0, false, ref, es[frame].bytes)];
      index := index - {page};
    }

    method Remove(page: int)
      requires Valid()
      modifies this, slots, entries, freeList
      ensures Valid() && Model() == old(Model()) - {page}
    {
      if page == 0 { assert Model() - {page} == Model(); return; }
      var found, slot := Find(slots, page, index);
      if !found { assert Model() - {page} == Model(); return; }
      var frame := slots[slot].frame;
      Drop(page, frame, slot, false);
      Pushed(entries[..], freeList[..freeCount], frame);
      RoomOnStack(entries[..], freeList[..freeCount], frame);
      ghost var free := freeList[..freeCount];
      freeList[freeCount] := frame;
      freeCount := freeCount + 1;
      assert freeList[..freeCount] == free + [frame];
    }

    /** Gives each frame in turn a second chance, and empties the first that has had it. */
    method ClockEvict() returns (frame: nat, ghost victim: int, ghost steps: nat)
      requires Valid() && freeCount == 0
      modifies this`hand, this`index, slots, entries
      ensures frame < capacity && ValidBut(frame) && !entries[frame].valid
      ensures victim in old(Model()) && victim in old(index) && index == old(index) - {victim}
        && Model() == old(Model()) - {victim}
      ensures steps <= capacity + 1
      ensures frame == old(index)[victim] && Chosen(old(entries[..]), old(hand), frame)
      ensures hand == After(frame, capacity)
      ensures forall f :: 0 <= f < capacity && f != frame ==>
        entries[f] == AfterSweep(old(entries[..]), old(hand), frame, f)
    {
      frame, steps := Sweep();
      victim := Evict(frame);
    }

    /** Moves the hand past the first frame that has no chance left. */
    method Sweep() returns (frame: nat, ghost steps: nat)
      requires Valid() && freeCount == 0
      modifies this`hand, entries
      ensures Valid() && Model() == old(Model()) && frame < capacity && entries[frame].valid
      ensures steps <= capacity + 1
      ensures hand == After(frame, capacity) && SweptTo(old(entries[..]), entries[..], old(hand), frame)
    {
      ghost var first, before := hand, entries[..];
      steps := 0;
      while true
        invariant Valid() && freeCount == 0 && Model() == old(Model()) && steps <= capacity
        invariant Passed(before, entries[..], first, steps)
        invariant Gone(first, hand, capacity, steps)
        decreases capacity - steps
      {
        frame := Turn();
        ghost var es := entries[..];
        if !entries[frame].ref {
          PassedAll(before, es, first, steps, frame);
          steps := steps + 1;
          return;
        }
        NotTwice(before, es, first, steps, frame);
        Onward(first, frame, capacity, steps);
        steps := steps + 1;
        Reprieve(frame);
        PassedMore(before, es, entries[..], first, steps, frame);
      }
    }

    /** The frame at the hand, which moves on. */
    method Turn() returns (frame: nat)
      requires Valid() && freeCount == 0
      modifies this`hand
      ensures Valid() && frame == old(hand) < capacity && hand == After(frame, capacity) && entries[frame].valid
    {
      frame := hand;
      hand := After(hand, capacity);
      AllInUse(entries[..], freeList[..freeCount], frame);
    }

    /** The frame loses its chance and stays. */
    method Reprieve(frame: nat)
      requires Valid() && frame < capacity
      modifies entries
      ensures Valid() && Model() == old(Model()) && entries[..] == Referenced(old(entries[..]), frame, false)
    {
      Marked(entries[..], index, freeList[..freeCount], frame, false);
      ghost var es := entries[..];
      entries[frame] := entries[frame].(ref := false);
      assert entries[..] == es[frame := es[frame].(ref := false)];
    }

    /** The page of the frame goes. */
    method Evict(frame: nat) returns (ghost victim: int)
      requires Valid() && frame < capacity && entries[frame].valid
      modifies this`index, slots, entries
      ensures ValidBut(frame) && !entries[frame].valid
      ensures victim == old(entries[frame]).page && victim in old(Model()) && victim in old(index)
      ensures old(index)[victim] == frame && index == old(index) - {victim} && Model() == old(Model()) - {victim}
      ensures forall f :: 0 <= f < capacity && f != frame ==> entries[f] == old(entries[f])
    {
      victim := entries[frame].page;
      var found, slot := Find(slots, entries[frame].page, index);
      Drop(entries[frame].page, frame, slot, entries[frame].ref);
    }

    /** Stores a page. Only when every frame is in use does another page go, and only one. */
    method Put(page: int, bytes: Page) returns (ghost victim: int)
      requires Valid()
      modifies this, slots, entries, freeList
      ensures Valid()
      ensures page == 0 ==> Model() == old(Model())
      ensures page != 0 && (page in old(Model()) || old(freeCount) > 0) ==> Model() == old(Model())[page := bytes]
      ensures page != 0 && page !in old(Model()) && old(freeCount) == 0 ==>
        victim in old(Model()) && Model() == (old(Model()) - {victim})[page := bytes]
        && Chosen(old(entries[..]), old(hand), old(index)[victim])
      ensures page != 0 ==> page in index && entries[index[page]].ref == (page in old(Model()))
    {
      victim := 0;
      if page == 0 { return; }
      var found, slot := Find(slots, page, index);
      if found {
        Refresh(page, slots[slot].frame, bytes);
        return;
      }
      var frame;
      if freeCount > 0 {
        Popped(entries[..], freeList[..freeCount]);
        assert freeList[..freeCount][..freeCount - 1] == freeList[..freeCount - 1];
        freeCount := freeCount - 1;
        frame := freeList[freeCount];
      } else {
        ghost var steps;
        frame, victim, steps := ClockEvict();
      }
      Fill(page, frame, bytes);
    }

    method Refresh(page: int, frame: nat, bytes: Page)
      requires Valid() && page in index && index[page] == frame
      modifies entries
      ensures Valid() && Model() == old(Model())[page := bytes] && entries[frame].ref
    {
      Refreshed(entries[..], index, freeList[..freeCount], frame, true, bytes);
      ghost var es := entries[..];
      entries[frame] := entries[frame].(ref := true, bytes := bytes);
      assert entries[..] == es[frame := es[frame].(ref := true, bytes := bytes)];
    }

    method Fill(page: int, frame: nat, bytes: Page)
      requires frame < capacity && ValidBut(frame) && !entries[frame].valid && page != 0 && page !in index
      modifies this`index, slots, entries
      ensures Valid() && Model() == old(Model())[page := bytes] && index == old(index)[page := frame]
      ensures !entries[frame].ref
    {
      ghost var e := HasEmpty(slots[..], entries[..], index);
      Filled(entries[..], index, freeList[..freeCount], frame, page, bytes);
      ghost var es := entries[..];
      entries[frame] := Frame(page, true, false, bytes);
      assert entries[..] == es[frame := Frame(page, true, false, bytes)];
      Insert(slots, page, frame, index, e);
      index := index[page := frame];
    }
  }

  function Referenced(es: seq<Frame>, f: nat, ref: bool): seq<Frame>
    requires f < |es|
  { es[f := es[f].(ref := ref)] }

  /** The first frame from the hand on without a chance; the one at the hand if all have one. */
  ghost predicate Chosen(es: seq<Frame>, hand: nat, frame: nat) {
    && hand < |es| && frame < |es|
    && if es[frame].ref then frame == hand && forall f :: 0 <= f < |es| ==> es[f].ref
       else forall f :: 0 <= f < |es| && Dist(hand, f, |es|) < Dist(hand, frame, |es|) ==> es[f].ref
  }

  /** The frames before it have lost their chance. */
  function AfterSweep(es: seq<Frame>, hand: nat, frame: nat, f: nat): Frame
    requires hand < |es| && frame < |es| && f < |es|
  {
    if es[frame].ref || Dist(hand, f, |es|) < Dist(hand, frame, |es|) then es[f].(ref := false) else es[f]
  }

  /** The frames passed since `first` had a chance and have lost it; the others are as they were. */
  ghost predicate Passed(before: seq<Frame>, es: seq<Frame>, first: nat, steps: nat)
    requires first < |es|
  {
    |before| == |es| && forall f :: 0 <= f < |es| ==> PassedAt(before, es, first, steps, f)
  }

  ghost predicate PassedAt(before: seq<Frame>, es: seq<Frame>, first: nat, steps: nat, f: nat)
    requires first < |es| && |before| == |es| && f < |es|
  {
    if Dist(first, f, |es|) < steps then before[f].ref && es[f] == before[f].(ref := false) else es[f] == before[f]
  }

  /** The hand has chosen a frame and taken the chances of those before it. */
  ghost predicate SweptTo(before: seq<Frame>, es: seq<Frame>, hand: nat, frame: nat) {
    && |before| == |es| && Chosen(before, hand, frame)
    && (forall f :: 0 <= f < |es| ==> es[f].page == before[f].page)
    && (forall f :: 0 <= f < |es| && f != frame ==> es[f] == AfterSweep(before, hand, frame, f))
  }

  /** The hand is so many steps from where it began; it comes round once. */
  predicate Gone(first: nat, hand: nat, n: nat, steps: nat) {
    first < n && hand < n && if steps < n then Dist(first, hand, n) == steps else hand == first
  }

  lemma Onward(first: nat, hand: nat, n: nat, steps: nat)
    requires Gone(first, hand, n, steps) && Dist(first, hand, n) >= steps
    ensures steps < n && Gone(first, After(hand, n), n, steps + 1)
  {
    DistAfter(first, hand, n);
  }

  lemma PassedMore(before: seq<Frame>, es: seq<Frame>, es': seq<Frame>, first: nat, steps: nat, f: nat)
    requires 0 < steps && first < |es| && f < |es| && Passed(before, es, first, steps - 1)
      && Dist(first, f, |es|) == steps - 1 && es[f].ref
    requires es' == Referenced(es, f, false)
    ensures Passed(before, es', first, steps)
  {
    forall g | 0 <= g < |es| ensures PassedAt(before, es', first, steps, g) {
      assert PassedAt(before, es, first, steps - 1, g);
    }
  }

  /** A frame is not found with a chance a second time. */
  lemma NotTwice(before: seq<Frame>, es: seq<Frame>, first: nat, steps: nat, frame: nat)
    requires first < |es| && frame < |es| && Passed(before, es, first, steps) && es[frame].ref
    ensures Dist(first, frame, |es|) >= steps
  {
    assert PassedAt(before, es, first, steps, frame);
  }

  lemma PassedAll(before: seq<Frame>, es: seq<Frame>, first: nat, steps: nat, frame: nat)
    requires first < |es| && frame < |es| && Passed(before, es, first, steps) && !es[frame].ref
    requires Gone(first, frame, |es|, steps)
    ensures SweptTo(before, es, first, frame)
  {
    assert PassedAt(before, es, first, steps, frame);
    forall f | 0 <= f < |es|
      ensures Dist(first, f, |es|) < steps ==> before[f].ref
      ensures es[f].page == before[f].page
      ensures f != frame ==> es[f] == AfterSweep(before, first, frame, f)
    {
      assert PassedAt(before, es, first, steps, f);
    }
  }

  lemma AllInUse(es: seq<Frame>, free: seq<nat>, f: nat)
    requires FreeOk(es, free, -1) && free == [] && f < |es|
    ensures es[f].valid
  {
  }

  lemma RoomOnStack(es: seq<Frame>, free: seq<nat>, f: nat)
    requires FreeOk(es, free, f) && f < |es|
    ensures |free| < |es|
  {
    var all := free + [f];
    DistinctBound(all, |es|);
  }
}
