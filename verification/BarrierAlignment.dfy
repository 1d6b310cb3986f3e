/** Barrier alignment of a task with several parents: `AlignManager` of `source_runnable.rs`. */
module BarrierAlignment {
  import opened Prelude

  datatype Align = Align(batchId: nat, reached: nat)

  const NEW_ALIGN := Align(0, 0)

  /** `apply`: the new state and whether all parents have now sent this id. */
  function Apply(parents: nat, a: Align, id: nat): Outcome<(Align, bool)> {
    if parents == 0 then Done((a, true))
    else if a.batchId == id then
      if a.reached + 1 > parents then Panic
      else Done((a.(reached := a.reached + 1), a.reached + 1 == parents))
    else if a.batchId < id then Done((Align(id, 1), 1 == parents))
    else Done((a, false))
  }

  class AlignManager {
    const parents: nat
    var batchId: nat
    var reached: nat

    ghost function State(): Align
      reads this
    {
      Align(batchId, reached)
    }

    constructor (parents: nat)
      ensures this.parents == parents && State() == NEW_ALIGN
    {
      this.parents, batchId, reached := parents, 0, 0;
    }

    method ApplyBarrier(id: nat) returns (r: Outcome<bool>)
      modifies this
      ensures match Apply(parents, old(State()), id)
        case Panic => r == Panic
        case Done(next) => r == Done(next.1) && State() == next.0
    {
      if parents == 0 {
        return Done(true);
      }
      if batchId == id {
        reached := reached + 1;
        if reached > parents {
          return Panic;
        }
        return Done(reached == parents);
      } else if batchId < id {
        batchId, reached := id, 1;
        return Done(reached == parents);
      } else {
        return Done(false);
      }
    }
  }

  // ----- runs

  /** A barrier read from the channel of a parent. */
  datatype Arrival = Arrival(parent: nat, id: nat)

  /** The barriers of each parent come with strictly increasing ids. */
  ghost predicate IncreasingPerParent(seen: seq<Arrival>) {
    forall i, j | 0 <= i < j < |seen| && seen[i].parent == seen[j].parent :: seen[i].id < seen[j].id
  }

  ghost predicate FromParents(seen: seq<Arrival>, parents: set<nat>) {
    forall a | a in seen :: a.parent in parents
  }

  function After(parents: nat, seen: seq<Arrival>): Outcome<Align> {
    if seen == [] then Done(NEW_ALIGN)
    else
      match After(parents, seen[..|seen| - 1])
      case Panic => Panic
      case Done(a) =>
        match Apply(parents, a, seen[|seen| - 1].id)
        case Panic => Panic
        case Done(next) => Done(next.0)
  }

  /** Whether the last arrival aligns its id. */
  predicate Fires(parents: nat, seen: seq<Arrival>)
    requires seen != []
  {
    match After(parents, seen[..|seen| - 1])
    case Panic => false
    case Done(a) =>
      var r := Apply(parents, a, seen[|seen| - 1].id);
      r.Done? && r.value.1
  }

  ghost function Senders(seen: seq<Arrival>, id: nat): set<nat> {
    set a | a in seen && a.id == id :: a.parent
  }

  ghost predicate UpTo(seen: seq<Arrival>, id: nat) {
    forall a | a in seen :: a.id <= id
  }

  /** The state is the greatest id seen and how many parents have sent it. */
  ghost predicate Counts(seen: seq<Arrival>, a: Align) {
    && UpTo(seen, a.batchId)
    && a.reached == |Senders(seen, a.batchId)|
    && (a.batchId > 0 ==> a.reached > 0)
  }

  lemma SendersSnoc(seen: seq<Arrival>, a: Arrival, id: nat)
    ensures Senders(seen + [a], id) == if a.id == id then Senders(seen, id) + {a.parent} else Senders(seen, id)
  {
    var seen' := seen + [a];
    forall p ensures p in Senders(seen', id) <==> p in Senders(seen, id) || (a.id == id && p == a.parent) {
      if p in Senders(seen', id) {
        var b :| b in seen' && b.id == id && b.parent == p;
      }
      if p in Senders(seen, id) {
        var b :| b in seen && b.id == id && b.parent == p;
        assert b in seen';
      }
      assert a in seen';
    }
  }

  /** A parent sends an id once. */
  lemma NotSentBefore(seen: seq<Arrival>, e: Arrival)
    requires IncreasingPerParent(seen + [e])
    ensures e.parent !in Senders(seen, e.id)
  {
    var seen' := seen + [e];
    forall k | 0 <= k < |seen| && seen[k].parent == e.parent ensures seen[k].id < e.id {
      assert seen'[k].parent == seen'[|seen|].parent;
    }
  }

  lemma GreatestIsThere(seen: seq<Arrival>, a: Align) returns (b: Arrival)
    requires Counts(seen, a) && a.batchId > 0
    ensures b in seen && b.id == a.batchId
  {
    assert Senders(seen, a.batchId) != {};
    var p :| p in Senders(seen, a.batchId);
    b :| b in seen && b.id == a.batchId && b.parent == p;
  }

  /** `apply` never reaches `unreachable!`, keeps the count, and answers whether every parent has
      sent the id and none a greater one. */
  lemma StepCounts(parents: set<nat>, seen: seq<Arrival>, a: Align, e: Arrival)
    requires parents != {} && Counts(seen, a)
    requires IncreasingPerParent(seen + [e]) && FromParents(seen + [e], parents)
    ensures var r := Apply(|parents|, a, e.id);
      && r.Done?
      && Counts(seen + [e], r.value.0)
      && (r.value.1 <==> Senders(seen + [e], e.id) == parents && UpTo(seen + [e], e.id))
  {
    var seen' := seen + [e];
    SendersSnoc(seen, e, e.id);
    assert Senders(seen', e.id) <= parents;
    SubsetOfSameSize(Senders(seen', e.id), parents);
    if e.id > a.batchId {
      assert Senders(seen, e.id) == {};
      assert Senders(seen', e.id) == {e.parent};
      assert UpTo(seen', e.id);
    } else if e.id == a.batchId {
      NotSentBefore(seen, e);
      assert |Senders(seen', e.id)| == a.reached + 1;
      assert UpTo(seen', e.id);
    } else {
      SendersSnoc(seen, e, a.batchId);
      var b := GreatestIsThere(seen, a);
      assert b in seen' && !UpTo(seen', e.id);
      assert UpTo(seen', a.batchId);
    }
  }

  lemma FrontOfSeen(seen: seq<Arrival>, n: nat)
    requires n <= |seen|
    ensures IncreasingPerParent(seen) ==> IncreasingPerParent(seen[..n])
    ensures forall parents :: FromParents(seen, parents) ==> FromParents(seen[..n], parents)
  {
  }

  lemma {:induction false} AlwaysCounts(parents: set<nat>, seen: seq<Arrival>)
    requires parents != {} && IncreasingPerParent(seen) && FromParents(seen, parents)
    ensures After(|parents|, seen).Done? && Counts(seen, After(|parents|, seen).value)
  {
    if seen == [] {
      assert Senders(seen, 0) == {};
    } else {
      var front, e := seen[..|seen| - 1], seen[|seen| - 1];
      assert seen == front + [e];
      FrontOfSeen(seen, |front|);
      AlwaysCounts(parents, front);
      StepCounts(parents, front, After(|parents|, front).value, e);
    }
  }

  /**
   * Alignment is exact. If each parent sends strictly increasing ids, then in every
   * interleaving `unreachable!` is not reached, and an arrival aligns its id exactly when every
   * parent has by then sent that id and no parent has sent a greater one.
   */
  lemma AlignmentIsExact(parents: set<nat>, seen: seq<Arrival>)
    requires parents != {} && IncreasingPerParent(seen) && FromParents(seen, parents)
    ensures After(|parents|, seen).Done?
    ensures seen != [] ==>
      var id := seen[|seen| - 1].id;
      Fires(|parents|, seen) <==> Senders(seen, id) == parents && UpTo(seen, id)
  {
    AlwaysCounts(parents, seen);
    if seen != [] {
      var front, e := seen[..|seen| - 1], seen[|seen| - 1];
      assert seen == front + [e];
      FrontOfSeen(seen, |front|);
      AlwaysCounts(parents, front);
      StepCounts(parents, front, After(|parents|, front).value, e);
    }
  }

  /** Alignment fires in strictly increasing order, hence at most once for an id. */
  lemma FiresInOrder(parents: set<nat>, seen: seq<Arrival>, p: nat, q: nat)
    requires parents != {} && IncreasingPerParent(seen) && FromParents(seen, parents)
    requires 0 < p < q <= |seen| && Fires(|parents|, seen[..p]) && Fires(|parents|, seen[..q])
    ensures seen[p - 1].id < seen[q - 1].id
  {
    var first, second := seen[..p], seen[..q];
    FrontOfSeen(seen, p);
    FrontOfSeen(seen, q);
    AlignmentIsExact(parents, first);
    var e, e' := seen[p - 1], seen[q - 1];
    assert first[p - 1] == e && e' in seen;
    // when the first one fired, the parent of the second had already sent that id
    assert e'.parent in Senders(first, e.id);
    var b :| b in first && b.id == e.id && b.parent == e'.parent;
    var k :| 0 <= k < p && first[k] == b;
    assert seen[k] == b && seen[k].parent == seen[q - 1].parent;
  }
}
