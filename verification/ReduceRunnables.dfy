/**
 * The reduce operator and its flat-map child as objects: `WindowBaseReduceFunction`,
 * `ReduceRunnable` and `KeyedStateFlatMapFunction`, proved against the state machine of
 * `WindowReduce`.
 */
module ReduceRunnables {
  import opened Prelude
  import opened Elements
  import opened Windows
  import opened KeyedState
  import opened WindowReduce
  import opened Codec

  function EndOf(x: Window): int { x.end }

  class WindowBaseReduceFunction {
    const cfg: Config
    const state: MemoryWindowState
    const storage: DropWindowStorage
    const owner: StorageKey
    var checkpoints: Tracked

    ghost predicate Valid()
      reads this, state
    {
      cfg.Valid() && forall x | x in state.windows :: x.end == x.start + cfg.windows.size
    }

    constructor (cfg: Config, storage: DropWindowStorage, owner: StorageKey)
      requires cfg.Valid()
      ensures Valid() && fresh(state)
      ensures this.cfg == cfg && this.storage == storage && this.owner == owner
      ensures state.windows == map[] && checkpoints == map[]
    {
      this.cfg, this.storage, this.owner := cfg, storage, owner;
      state := new MemoryWindowState();
      checkpoints := map[];
    }

    method Reduce(key: Bytes, r: Record)
      requires Valid()
      modifies state
      ensures Valid()
      ensures state.windows == MergeAll(old(state.windows), MergedWindows(cfg, r), key, r, cfg.reduce)
    {
      var xs := AssignWindows(cfg.windows, r.timestamp);
      ghost var all := xs;
      if |cfg.skip| > 0 {
        xs := FilterSkip(xs, cfg.skip);
      }
      AssignedExact(cfg.windows, r.timestamp);
      AssignedHasNoDuplicates(cfg.windows, r.timestamp);
      MergeAllPointwise(state.windows, xs, key, r, cfg.reduce);
      if |cfg.skip| > 0 && |xs| == 0 {
        return;
      }
      var _ := state.Merge(xs, key, r, cfg.reduce);
    }

    /** Drops every window that has ended; the live windows are visited in whatever order the map yields. */
    method DropStateTo(watermark: nat) returns (drops: seq<Window>)
      requires Valid()
      modifies this`checkpoints, state, storage
      ensures Valid()
      ensures var dropped := Droppable(old(state.windows), watermark);
        && state.windows == old(state.windows) - dropped
        && ParkedBy(storage.parked, owner) == ParkedBy(old(storage.parked), owner) + Sub(old(state.windows), dropped)
        && (forall other | other != owner :: ParkedBy(storage.parked, other) == ParkedBy(old(storage.parked), other))
        && checkpoints == MarkDropped(old(checkpoints), dropped)
        && drops == InEndOrder(dropped)
    {
      drops := DropEnded(watermark);
      ghost var dropped := Droppable(old(state.windows), watermark);
      assert dropped == set x | x in drops;
      if |drops| > 0 {
        var marked := set x | x in drops;
        checkpoints := MarkDropped(checkpoints, marked);
        drops := SortBy(drops, EndOf);
      } else {
        MarkNothing(checkpoints);
      }
      EndOrderIsStrict(dropped, cfg.windows.size);
      StrictlySortedUnique(drops, InEndOrder(dropped), EndOf);
    }

    /** The loop over the live windows. */
    method DropEnded(watermark: nat) returns (drops: seq<Window>)
      requires Valid()
      modifies state, storage
      ensures Valid()
      ensures DistinctKeys(drops, EndOf)
      ensures forall x :: x in drops <==> x in Droppable(old(state.windows), watermark)
      ensures state.windows == old(state.windows) - Droppable(old(state.windows), watermark)
      ensures ParkedBy(storage.parked, owner) ==
        ParkedBy(old(storage.parked), owner) + Sub(old(state.windows), Droppable(old(state.windows), watermark))
      ensures forall other | other != owner :: ParkedBy(storage.parked, other) == ParkedBy(old(storage.parked), other)
    {
      drops := [];
      ghost var live, parked, done := state.windows, ParkedBy(storage.parked, owner), {};
      var todo := state.windows.Keys;
      SubOfNothing(live, parked);
      while todo != {}
        invariant todo <= live.Keys && done <= live.Keys
        invariant forall x :: x in done <==> x in live && x !in todo && x.end <= watermark
        invariant DistinctKeys(drops, EndOf) && forall x :: x in drops <==> x in done
        invariant state.windows == live - done
        invariant ParkedBy(storage.parked, owner) == parked + Sub(live, done)
        invariant forall other | other != owner :: ParkedBy(storage.parked, other) == ParkedBy(old(storage.parked), other)
        decreases todo
      {
        var x :| x in todo;
        if x.end <= watermark {
          assert forall y | y in drops :: y in live && y != x && y.end != x.end;
          drops := drops + [x];
          DropOne(x);
          SubOfOneMore(live, parked, done, x);
          done := done + {x};
        }
        todo := todo - {x};
      }
      assert done == Droppable(live, watermark);
    }

    method DropOne(x: Window)
      requires x in state.windows
      modifies state, storage
      ensures state.windows == old(state.windows) - {x}
      ensures ParkedBy(storage.parked, owner) == ParkedBy(old(storage.parked), owner)[x := old(state.windows)[x]]
      ensures forall other | other != owner :: ParkedBy(storage.parked, other) == ParkedBy(old(storage.parked), other)
    {
      var _ := state.DropWindow(x, storage, owner);
    }

    method Snapshot(id: nat) returns (completed: Option<nat>, windows: set<Window>)
      requires Valid()
      modifies this`checkpoints
      ensures windows == state.windows.Keys
      ensures checkpoints == Prune(RecordLive(old(checkpoints), windows, id))
      ensures completed == ReportOf(RecordLive(old(checkpoints), windows, id))
    {
      windows := state.windows.Keys;
      checkpoints := checkpoints[id := map x | x in windows :: false];
      assert checkpoints == RecordLive(old(checkpoints), windows, id);
      completed := RemoveCompleted();
    }

    /** Removes the completed checkpoints, then the oldest one if there are too many. */
    method RemoveCompleted() returns (completed: Option<nat>)
      modifies this`checkpoints
      ensures checkpoints == Prune(old(checkpoints)) && completed == ReportOf(old(checkpoints))
    {
      var done := set c | c in checkpoints && Complete(checkpoints[c]);
      assert done == CompletedIn(checkpoints);
      checkpoints := checkpoints - done;
      if |checkpoints| > MAX_TRACKED {
        checkpoints := checkpoints - {MinOf(checkpoints.Keys)};
      }
      completed := if done == {} then None else Some(MaxOf(done));
    }
  }

  lemma SubOfNothing(live: map<Window, Kv>, parked: map<Window, Kv>)
    ensures live - {} == live && parked + Sub(live, {}) == parked
  {
  }

  lemma SubOfOneMore(live: map<Window, Kv>, parked: map<Window, Kv>, s: set<Window>, x: Window)
    requires s <= live.Keys && x in live
    ensures live - s - {x} == live - (s + {x})
    ensures (parked + Sub(live, s))[x := live[x]] == parked + Sub(live, s + {x})
  {
  }

  lemma MarkNothing(checkpoints: Tracked)
    ensures MarkDropped(checkpoints, {}) == checkpoints
  {
    assert forall id | id in checkpoints :: MarkDropped(checkpoints, {})[id] == checkpoints[id];
  }

  lemma EndOrderIsStrict(s: set<Window>, size: nat)
    requires forall x | x in s :: x.end == x.start + size
    ensures StrictlySortedBy(InEndOrder(s), EndOf)
  {
    var r := InEndOrder(s);
    forall i, j | 0 <= i < j < |r| ensures EndOf(r[i]) < EndOf(r[j]) {
      assert r[i] in r && r[j] in r && r[i] != r[j];
    }
  }

  /** What the reduce operator hands to its sink. */
  datatype Output = Trigger(window: Window) | PassedOn(barrier: nat, completed: nat)

  function AsTriggers(drops: seq<Window>): seq<Output> {
    seq(|drops|, i requires 0 <= i < |drops| => Trigger(drops[i]))
  }

  class ReduceRunnable {
    const function_: WindowBaseReduceFunction
    var limit: Window
    var completedCheckpointId: Option<nat>
    var expired: nat
    var sent: seq<Output>
    ghost var triggers: seq<Window>

    ghost predicate Valid()
      reads this, function_, function_.state
    {
      function_.Valid()
    }

    /** The reduce operator's part of the task's state. */
    ghost function State(): Task
      reads this, function_, function_.state, function_.storage
    {
      Task(limit, function_.state.windows, ParkedBy(function_.storage.parked, function_.owner),
           triggers, 0, [], function_.checkpoints)
    }

    constructor (function_: WindowBaseReduceFunction)
      requires function_.Valid()
      ensures Valid() && this.function_ == function_
      ensures limit == TimeWindow(0, 0) && completedCheckpointId == None && expired == 0 && sent == [] && triggers == []
    {
      this.function_ := function_;
      limit := TimeWindow(0, 0);
      completedCheckpointId, expired, sent, triggers := None, 0, [], [];
    }

    /** An expired record is counted and changes nothing else. */
    method OnRecord(r: Record)
      requires Valid()
      modifies this`expired, function_.state
      ensures Valid()
      ensures State() == Arrive(function_.cfg, old(State()), r)
      ensures expired == old(expired) + (if Acceptable(function_.cfg, limit, r) then 0 else 1)
    {
      var cfg := function_.cfg;
      var xs := AssignWindows(cfg.windows, r.timestamp);
      var acceptable := |xs| == 0 || xs[|xs| - 1].start >= limit.start;
      if !acceptable {
        expired := expired + 1;
        return;
      }
      function_.Reduce(cfg.keyOf(r.values), r);
    }

    /** The window assigner gives every watermark a window, so the `unreachable!` is not reached. */
    method OnWatermark(watermark: nat)
      requires Valid()
      modifies this, function_`checkpoints, function_.state, function_.storage
      ensures Valid()
      ensures State() == Advance(function_.cfg, old(State()), watermark)
      ensures |triggers| >= |old(triggers)|
      ensures sent == old(sent) + AsTriggers(triggers[|old(triggers)|..])
    {
      var xs := AssignWindows(function_.cfg.windows, watermark);
      EveryTimestampHasAWindow(function_.cfg.windows, watermark);
      limit := xs[0];
      var drops := function_.DropStateTo(limit.start);
      triggers := triggers + drops;
      assert triggers[|old(triggers)|..] == drops;
      SendTriggers(drops);
    }

    method SendTriggers(drops: seq<Window>)
      modifies this`sent
      ensures sent == old(sent) + AsTriggers(drops)
    {
      var i := 0;
      while i < |drops|
        invariant 0 <= i <= |drops|
        invariant sent == old(sent) + AsTriggers(drops[..i])
      {
        sent := sent + [Trigger(drops[i])];
        i := i + 1;
        assert AsTriggers(drops[..i]) == AsTriggers(drops[..i - 1]) + [Trigger(drops[i - 1])];
      }
      assert drops[..i] == drops;
    }

    /** The barrier goes on with the greater of the completed id it carries and the one just found. */
    method OnBarrier(id: nat, carried: nat)
      requires Valid()
      modifies this`completedCheckpointId, this`sent, function_`checkpoints
      ensures Valid()
      ensures State() == SnapshotState(old(State()), id).0
      ensures completedCheckpointId == SnapshotState(old(State()), id).1
      ensures |sent| == |old(sent)| + 1 && sent[..|old(sent)|] == old(sent)
      ensures var last := sent[|old(sent)|];
        && last.PassedOn? && last.barrier == id && last.completed >= carried
        && (completedCheckpointId.Some? ==> last.completed >= completedCheckpointId.value)
        && (last.completed == carried || completedCheckpointId == Some(last.completed))
    {
      var completed, _ := function_.Snapshot(id);
      completedCheckpointId := completed;
      var completedId := carried;
      if completedCheckpointId.Some? && completedCheckpointId.value > completedId {
        completedId := completedCheckpointId.value;
      }
      sent := sent + [PassedOn(id, completedId)];
    }
  }

  predicate IsTrigger(e: Routed) {
    e.RoutedRecord? && e.values == [] && e.trigger.Some?
  }

  /** Exactly the parked pairs of the window, each once, by key. */
  ghost predicate EmitsParked(parked: map<Window, Kv>, x: Window, out: seq<Result>) {
    && (forall r :: r in out <==> r.window == x && x in parked && r.key in parked[x] && r.value == parked[x][r.key])
    && InKeyOrder(seq(|out|, i requires 0 <= i < |out| => out[i].key))
  }

  /** The flat-map child takes a dropped window's state out of the storage and emits it. */
  class KeyedStateFlatMap {
    const storage: DropWindowStorage
    const owner: StorageKey
    var emitted: seq<Result>

    constructor (storage: DropWindowStorage, owner: StorageKey)
      ensures this.storage == storage && this.owner == owner && emitted == []
    {
      this.storage, this.owner, emitted := storage, owner, [];
    }

    /** A trigger is a record without values that names its window; anything else is a panic. */
    method FlatMapElement(e: Routed) returns (r: Outcome<seq<Result>>)
      modifies this, storage
      ensures r.Panic? <==> !IsTrigger(e)
      ensures r.Panic? ==> storage.parked == old(storage.parked) && emitted == old(emitted)
      ensures r.Done? ==>
        && EmitsParked(ParkedBy(old(storage.parked), owner), e.trigger.value, r.value)
        && ParkedBy(storage.parked, owner) == ParkedBy(old(storage.parked), owner) - {e.trigger.value}
        && emitted == old(emitted) + r.value
      ensures forall other | other != owner :: ParkedBy(storage.parked, other) == ParkedBy(old(storage.parked), other)
    {
      if !e.RoutedRecord? {
        return Panic;
      }
      if |e.values| > 0 {
        return Panic;
      }
      if e.trigger.None? {
        return Panic;
      }
      var out := EmitWindow(e.trigger.value);
      r := Done(out);
    }

    /** Emits exactly the parked pairs of the window, in key order, and leaves nothing behind. */
    method EmitWindow(x: Window) returns (out: seq<Result>)
      modifies this, storage
      ensures EmitsParked(ParkedBy(old(storage.parked), owner), x, out)
      ensures ParkedBy(storage.parked, owner) == ParkedBy(old(storage.parked), owner) - {x}
      ensures forall other | other != owner :: ParkedBy(storage.parked, other) == ParkedBy(old(storage.parked), other)
      ensures emitted == old(emitted) + out
    {
      var state := storage.RemoveDropWindow(owner, x);
      match state
      case None => out := [];
      case Some(kv) => out := Iterate(x, kv);
      emitted := emitted + out;
    }
  }
}
