/** Generations over the whole life of a store. */
module Generations {
  import opened Common
  import opened Rows
  import opened Engines
  import Compaction

  /** Any mix of transactions, failures, reopenings and compactions, from any store whose counter is right. */
  ghost predicate Run(states: seq<Snapshot>, events: seq<Event>) {
    && |states| == |events| + 1
    && (forall i :: 0 <= i < |states| ==> CounterOk(states[i].rows, states[i].next))
    && (forall i :: HappensAt(states, events, i))
  }

  ghost predicate HappensAt(states: seq<Snapshot>, events: seq<Event>, i: int)
    requires |states| == |events| + 1
  {
    0 <= i < |events| ==> Happens(states[i], events[i], states[i + 1])
  }

  /** Operation a of the event stored a version. */
  ghost predicate StoredBy(e: Event, a: nat) {
    && e.Committed? && a < |e.ops| && Stores(e.ops[a])
    && |e.models| == |e.ops| + 1 && StoredId(e.ops[a]) in e.models[a + 1].objects
  }

  ghost function Generation(e: Event, a: nat): nat
    requires StoredBy(e, a)
  { e.models[a + 1].objects[StoredId(e.ops[a])].meta.generation }

  lemma GenerationWithin(s: Snapshot, e: Event, s': Snapshot, a: nat)
    requires Happens(s, e, s') && StoredBy(e, a)
    ensures s.next < Generation(e, a) <= s'.next && Lookup(s'.rows, Counter) == Some(Count(s'.next))
  {
    assert AppliedAt(e.models, e.counts, e.ops, a);
    CountsRise(s.model, s'.model, e.ops, e.models, e.counts, 0, a);
    CountsRise(s.model, s'.model, e.ops, e.models, e.counts, a + 1, |e.ops|);
  }

  lemma CounterStays(s: Snapshot, e: Event, s': Snapshot)
    requires Happens(s, e, s') && CounterOk(s.rows, s.next) && Counter in s.rows
    ensures Counter in s'.rows && s'.rows[Counter].Count? && s.rows[Counter].count <= s'.rows[Counter].count
  {
    match e
    case Committed(ops, models, counts) => CountsRise(s.model, s'.model, ops, models, counts, 0, |ops|);
    case Rewritten => assert Compaction.Live(s.rows, Counter) && Lookup(s'.rows, Counter) == Lookup(s.rows, Counter);
    case _ =>
  }

  /** Once there is a counter row it stays, and never moves back. */
  lemma {:induction false} CounterKept(states: seq<Snapshot>, events: seq<Event>, i: nat, j: nat)
    requires Run(states, events) && i <= j < |states| && Counter in states[i].rows
    ensures Counter in states[j].rows && states[i].rows[Counter].count <= states[j].rows[Counter].count
    decreases j
  {
    if i < j {
      CounterKept(states, events, i, j - 1);
      assert HappensAt(states, events, j - 1);
      CounterStays(states[j - 1], events[j - 1], states[j]);
    }
  }

  /** A generation that was committed is below every later one, even after its rows are gone. */
  lemma NeverAgain(states: seq<Snapshot>, events: seq<Event>, i: nat, a: nat, j: nat, b: nat)
    requires Run(states, events) && i < j < |events| && StoredBy(events[i], a) && StoredBy(events[j], b)
    ensures Generation(events[i], a) < Generation(events[j], b)
  {
    assert HappensAt(states, events, i) && HappensAt(states, events, j);
    GenerationWithin(states[i], events[i], states[i + 1], a);
    GenerationWithin(states[j], events[j], states[j + 1], b);
    CounterKept(states, events, i + 1, j);
  }

  /**
   * A version stored later does not bring to life any row left by an earlier one: a row of a store with a
   * counter row, or any row that is still there.
   */
  lemma NeverRevived(states: seq<Snapshot>, events: seq<Event>, i: nat, k: RowKey, j: nat, b: nat)
    requires Run(states, events) && i <= j < |events| && StoredBy(events[j], b) && k in states[i].rows
    requires Counter in states[i].rows || (k in states[j].rows && states[j].rows[k] == states[i].rows[k])
    ensures RowGeneration(k, states[i].rows[k]) < Generation(events[j], b)
  {
    assert HappensAt(states, events, j);
    GenerationWithin(states[j], events[j], states[j + 1], b);
    if Counter in states[i].rows { CounterKept(states, events, i, j); }
  }
}
