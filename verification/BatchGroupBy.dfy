/**
 * The end of the stream: once every source has ended and every queue is empty, the output of the
 * distributed aggregation is complete, and for a reduce function that does not depend on the
 * order of its input it equals a batch group-by over the concatenated input.
 */
module BatchGroupBy {
  import opened Prelude
  import opened Elements
  import opened Windows
  import opened KeyedState
  import A = WatermarkAssigner
  import M = WatermarkManager
  import T = WindowReduce
  import opened Aggregation
  import opened AggregationResults

  /** Every source has ended and every channel and trigger queue has been read to its end. */
  ghost predicate Drained(job: Job, s: System)
    requires job.Valid() && Shaped(job, s)
  {
    && (forall i | 0 <= i < job.Sources() :: A.Ended(s.inputs[i]))
    && (forall i, j | 0 <= i < job.Sources() && 0 <= j < job.reducers :: s.read[i][j] == |Log(job, s, i, j)|)
    && (forall j | 0 <= j < job.reducers :: s.reducers[j].task.delivered == |s.reducers[j].task.triggers|)
  }

  // ----- the last watermark is the greatest

  lemma {:induction false} LastIsGreatest(log: seq<Element>, w: nat)
    requires A.Ordered(log) && Watermark(w) in log
    ensures LastWatermark(log).Some? && w <= LastWatermark(log).value
  {
    var k :| 0 <= k < |log| && log[k] == Watermark(w);
    var front, e := log[..|log| - 1], log[|log| - 1];
    if e.Watermark? {
      assert k == |log| - 1 || log[k].timestamp <= e.timestamp;
    } else {
      assert front[k] == Watermark(w);
      OrderedFront(log);
      LastIsGreatest(front, w);
    }
  }

  /** The channel of an ended source ends at the greatest watermark. */
  lemma ChannelEndsAtMax(job: Job, inputs: seq<A.Input>, i: nat, j: nat)
    requires job.Valid() && i < job.Sources() && A.Ended(inputs)
    requires var log := Routed(job, A.Run(job.generators[i], inputs).1, j);
      A.Ordered(log) && A.WatermarksUpTo(log, MAX_WATERMARK)
    ensures LastWatermark(Routed(job, A.Run(job.generators[i], inputs).1, j)) == Some(MAX_WATERMARK)
  {
    var sent := A.Run(job.generators[i], inputs).1;
    A.EndedSendsMax(job.generators[i], inputs);
    RoutedMembers(job, sent, j);
    LastIsGreatest(Routed(job, sent, j), MAX_WATERMARK);
    LastWatermarkIsLast(Routed(job, sent, j));
  }

  lemma DrainedReachesMax(job: Job, s: System, j: nat)
    requires job.Valid() && SystemInv(job, s) && Drained(job, s) && j < job.reducers && job.Sources() > 0
    ensures s.reducers[j].task.limit.start == FirstStart(job.windows, MAX_WATERMARK)
  {
    var logs, read, r := Logs(job, s, j), Reads(s, j), s.reducers[j];
    assert ReducerInv(job, s, j) && Inv(job, logs, read, r);
    forall i | 0 <= i < job.Sources() ensures r.manager[PARENT][i].latest == Some(MAX_WATERMARK) {
      assert logs[i][..read[i]] == logs[i];
      ChannelEndsAtMax(job, s.inputs[i], i, j);
    }
    AllAtMax(r.manager, job.Sources());
  }

  lemma AllAtMax(m: M.Reached, n: nat)
    requires m.Keys == {PARENT} && |m[PARENT]| == n > 0
    requires forall i | 0 <= i < n :: m[PARENT][i].isDependency && m[PARENT][i].latest == Some(MAX_WATERMARK)
    ensures Low(m) == MAX_WATERMARK
  {
    assert M.DependsOn(m, PARENT, 0);
    assert M.IsMinWatermark(m, Some(MAX_WATERMARK));
    M.MinWatermarkUnique(m, Some(MAX_WATERMARK), M.MinWatermarkOf(m));
  }

  // ----- completeness

  /**
   * After the end of the stream every window that ended before the last watermark's first
   * window, and which holds a record, has been emitted by the owner of the record's key.
   */
  lemma EverythingIsEmitted(job: Job, actions: seq<Action>, i: nat, r: Record, x: Window) returns (b: nat)
    requires job.Valid() && Drained(job, Exec(job, actions))
    requires i < job.Sources() && r in Forwarded(job, Exec(job, actions), i)
    requires x in Assigned(job.windows, r.timestamp) && x.end <= FirstStart(job.windows, MAX_WATERMARK)
    ensures var task := Exec(job, actions).reducers[Owner(job, job.keyOf(r.values))].task;
      b < |task.emitted| && task.emitted[b].window == x && job.keyOf(r.values) in task.emitted[b].kv
  {
    var s, key := Exec(job, actions), job.keyOf(r.values);
    var j := Owner(job, key);
    Reachable(job, actions);
    GroupHolds(job.Config(), Forwarded(job, s, i), x, key, r);
    b := HeldIsEmitted(job, s, j, i, x, key);
  }

  lemma {:induction false} GroupHolds(cfg: T.Config, rs: seq<Record>, x: Window, key: Bytes, r: Record)
    requires cfg.windows.Valid() && r in rs && T.Belongs(cfg, x, key, r)
    ensures r in T.Group(cfg, x, key, rs)
  {
    var front, last := rs[..|rs| - 1], rs[|rs| - 1];
    if r != last {
      assert r in front;
      GroupHolds(cfg, front, x, key, r);
    }
  }

  lemma HeldIsEmitted(job: Job, s: System, j: nat, i: nat, x: Window, key: Bytes) returns (b: nat)
    requires job.Valid() && SystemInv(job, s) && Drained(job, s)
    requires i < job.Sources() && j == Owner(job, key)
    requires T.Group(job.Config(), x, key, Forwarded(job, s, i)) != []
    requires x.end <= FirstStart(job.windows, MAX_WATERMARK)
    ensures var task := s.reducers[j].task; b < |task.emitted| && task.emitted[b].window == x && key in task.emitted[b].kv
  {
    var r := s.reducers[j];
    assert ReducerInv(job, s, j);
    DrainedReachesMax(job, s, j);
    assert T.Value(r.task, x, key).Some? by {
      assert HoldsFold(job, r.task, r.arrived, x, key);
      ArrivedIsAll(job, s, j, x, key, i);
      SomeArrived(job.Config(), r.arrived, x, key, i);
    }
    assert r.task.triggers[r.task.delivered..] == [];
    assert x !in r.task.parked && x !in r.task.live;
    b :| 0 <= b < |r.task.emitted| && r.task.emitted[b].window == x;
    T.EmittedValue(job.Config(), r.task, b, key);
  }

  lemma SomeArrived(cfg: T.Config, arrived: seq<(nat, Record)>, x: Window, key: Bytes, i: nat)
    requires cfg.windows.Valid() && T.Group(cfg, x, key, FromSource(arrived, i)) != []
    ensures T.Group(cfg, x, key, Untagged(arrived)) != []
  {
    TaggedGroupIsGroup(cfg, x, key, arrived);
    TaggedGroupFromSource(cfg, x, key, arrived, i);
    assert TaggedGroup(cfg, x, key, arrived) != [];
  }

  // ----- the order of the input

  /** The reduce function gives the same result whichever of two records comes first. */
  ghost predicate OrderInsensitive(reduce: ReduceFunction) {
    forall acc, a, b :: reduce(Some(reduce(acc, a)), b) == reduce(Some(reduce(acc, b)), a)
  }

  /** A record can be folded last. */
  lemma {:induction false} FoldLast(reduce: ReduceFunction, before: seq<Record>, r: Record, after: seq<Record>)
    requires OrderInsensitive(reduce)
    ensures T.Fold(reduce, before + [r] + after) == Some(reduce(T.Fold(reduce, before + after), r))
  {
    if after == [] {
      assert before + [r] + after == before + [r] && before + after == before;
      T.FoldExtends(reduce, before, r);
    } else {
      var front, last := after[..|after| - 1], after[|after| - 1];
      FoldLast(reduce, before, r, front);
      assert before + [r] + after == (before + [r] + front) + [last];
      assert before + after == (before + front) + [last];
      T.FoldExtends(reduce, before + [r] + front, last);
      T.FoldExtends(reduce, before + front, last);
    }
  }

  /** The records of an interleaving, source by source. */
  function BySource(order: seq<(nat, Record)>, n: nat): seq<Record> {
    if n == 0 then [] else BySource(order, n - 1) + FromSource(order, n - 1)
  }

  /** The second list is the first with the record at position `k`. */
  ghost predicate Inserted(xs: seq<Record>, ys: seq<Record>, r: Record, k: nat) {
    k <= |xs| && ys == xs[..k] + [r] + xs[k..]
  }

  lemma InsertedThenAppended(xs: seq<Record>, ys: seq<Record>, r: Record, k: nat, part: seq<Record>)
    requires Inserted(xs, ys, r, k)
    ensures Inserted(xs + part, ys + part, r, k)
  {
    var zs := xs + part;
    assert zs[..k] == xs[..k] && zs[k..] == xs[k..] + part;
    Regrouped(xs[..k] + [r], xs[k..], part);
  }

  lemma AppendedIsInserted(xs: seq<Record>, part: seq<Record>, r: Record)
    ensures Inserted(xs + part, xs + (part + [r]), r, |xs| + |part|)
  {
    var zs := xs + part;
    assert zs[..|zs|] == zs && zs[|zs|..] == [];
    assert zs + [r] + [] == zs + [r];
    Regrouped(xs, part, [r]);
  }

  lemma {:induction false} BySourceOfOthers(order: seq<(nat, Record)>, i: nat, r: Record, n: nat)
    requires n <= i
    ensures BySource(order + [(i, r)], n) == BySource(order, n)
  {
    if n > 0 {
      BySourceOfOthers(order, i, r, n - 1);
      FromSourceSnoc(order, i, r, n - 1);
    }
  }

  /** Appending an arrival inserts its record at the end of its source's part. */
  lemma {:induction false} BySourceSnoc(order: seq<(nat, Record)>, i: nat, r: Record, n: nat) returns (k: nat)
    requires i < n
    ensures Inserted(BySource(order, n), BySource(order + [(i, r)], n), r, k)
  {
    var xs, part := BySource(order, n - 1), FromSource(order, n - 1);
    FromSourceSnoc(order, i, r, n - 1);
    if i == n - 1 {
      BySourceOfOthers(order, i, r, n - 1);
      k := |xs| + |part|;
      AppendedIsInserted(xs, part, r);
    } else {
      k := BySourceSnoc(order, i, r, n - 1);
      InsertedThenAppended(xs, BySource(order + [(i, r)], n - 1), r, k, part);
    }
  }

  lemma {:induction false} FoldBySource(reduce: ReduceFunction, order: seq<(nat, Record)>, n: nat)
    requires OrderInsensitive(reduce) && forall a | a in order :: a.0 < n
    ensures T.Fold(reduce, Untagged(order)) == T.Fold(reduce, BySource(order, n))
  {
    if order == [] {
      BySourceOfNothing(n);
    } else {
      var front := order[..|order| - 1];
      var (i, r) := order[|order| - 1];
      assert order == front + [(i, r)];
      assert forall a | a in front :: a in order;
      FoldBySource(reduce, front, n);
      assert Untagged(order) == Untagged(front) + [r];
      T.FoldExtends(reduce, Untagged(front), r);
      var k := BySourceSnoc(front, i, r, n);
      FoldInserted(reduce, BySource(front, n), BySource(order, n), r, k);
    }
  }

  lemma FoldInserted(reduce: ReduceFunction, xs: seq<Record>, ys: seq<Record>, r: Record, k: nat)
    requires OrderInsensitive(reduce) && Inserted(xs, ys, r, k)
    ensures T.Fold(reduce, ys) == Some(reduce(T.Fold(reduce, xs), r))
  {
    assert xs == xs[..k] + xs[k..];
    FoldLast(reduce, xs[..k], r, xs[k..]);
  }

  lemma {:induction false} BySourceOfNothing(n: nat)
    ensures BySource([], n) == []
  {
    if n > 0 {
      BySourceOfNothing(n - 1);
    }
  }

  // ----- the batch group-by

  /** All forwarded records, one source after another: the input of the batch. */
  function BatchInput(job: Job, s: System, n: nat): seq<Record>
    requires n <= job.Sources() && |s.inputs| == job.Sources()
  {
    if n == 0 then [] else BatchInput(job, s, n - 1) + Forwarded(job, s, n - 1)
  }

  lemma {:induction false} GroupConcat(cfg: T.Config, x: Window, key: Bytes, a: seq<Record>, b: seq<Record>)
    requires cfg.windows.Valid()
    ensures T.Group(cfg, x, key, a + b) == T.Group(cfg, x, key, a) + T.Group(cfg, x, key, b)
  {
    if b == [] {
      GroupConcatNothing(cfg, x, key, a);
    } else {
      var front, r := b[..|b| - 1], b[|b| - 1];
      assert b == front + [r];
      GroupConcat(cfg, x, key, a, front);
      GroupConcatSnoc(cfg, x, key, a, front, r);
    }
  }

  lemma GroupConcatNothing(cfg: T.Config, x: Window, key: Bytes, a: seq<Record>)
    requires cfg.windows.Valid()
    ensures T.Group(cfg, x, key, a + []) == T.Group(cfg, x, key, a) + T.Group(cfg, x, key, [])
  {
    assert a + [] == a;
  }

  lemma GroupConcatSnoc(cfg: T.Config, x: Window, key: Bytes, a: seq<Record>, front: seq<Record>, r: Record)
    requires cfg.windows.Valid() && T.Group(cfg, x, key, a + front) == T.Group(cfg, x, key, a) + T.Group(cfg, x, key, front)
    ensures T.Group(cfg, x, key, a + (front + [r])) == T.Group(cfg, x, key, a) + T.Group(cfg, x, key, front + [r])
  {
    assert a + (front + [r]) == (a + front) + [r];
    T.GroupExtends(cfg, x, key, a + front, r);
    T.GroupExtends(cfg, x, key, front, r);
    Regrouped(T.Group(cfg, x, key, a), T.Group(cfg, x, key, front), [r]);
  }

  lemma {:induction false} InterleavingIsBatch(job: Job, s: System, x: Window, key: Bytes, order: seq<(nat, Record)>, n: nat)
    requires job.Valid() && Shaped(job, s) && Interleaves(job, s, x, key, order) && n <= job.Sources()
    ensures BySource(order, n) == T.Group(job.Config(), x, key, BatchInput(job, s, n))
  {
    if n > 0 {
      var m: nat := n - 1;
      InterleavingIsBatch(job, s, x, key, order, m);
      assert FromSource(order, m) == T.Group(job.Config(), x, key, Forwarded(job, s, m));
      GroupConcat(job.Config(), x, key, BatchInput(job, s, m), Forwarded(job, s, m));
    }
  }

  /** The result of the batch group-by for one window and key. */
  function BatchResult(job: Job, s: System, x: Window, key: Bytes): Option<Bytes>
    requires job.windows.Valid() && |s.inputs| == job.Sources()
  {
    T.Fold(job.reduce, T.Group(job.Config(), x, key, BatchInput(job, s, job.Sources())))
  }

  /** The batches that a reduce task's child has emitted hold the value for the key. */
  ghost predicate Emits(task: T.Task, x: Window, key: Bytes, value: Bytes) {
    exists b :: 0 <= b < |task.emitted| && task.emitted[b].window == x && key in task.emitted[b].kv && task.emitted[b].kv[key] == value
  }

  /**
   * Distributed aggregation equals batch group-by. With an order-insensitive reduce function,
   * at the end of any run, for every window that ended by the last watermark's first window
   * and for every key: the owner of the key has emitted exactly the batch result, if there is one,
   * and no reduce task has emitted anything else for them.
   */
  lemma EqualsBatchGroupBy(job: Job, actions: seq<Action>, x: Window, key: Bytes, j: nat, value: Bytes)
    requires job.Valid() && OrderInsensitive(job.reduce) && Drained(job, Exec(job, actions))
    requires x.end <= FirstStart(job.windows, MAX_WATERMARK) && j < job.reducers
    ensures Emits(Exec(job, actions).reducers[j].task, x, key, value) <==>
      j == Owner(job, key) && BatchResult(job, Exec(job, actions), x, key) == Some(value)
  {
    var s := Exec(job, actions);
    var task := s.reducers[j].task;
    Reachable(job, actions);
    if Emits(task, x, key, value) {
      var b :| 0 <= b < |task.emitted| && task.emitted[b].window == x && key in task.emitted[b].kv && task.emitted[b].kv[key] == value;
      var order := EmittedIsFoldOfForwarded(job, actions, j, b, key);
      FoldBySource(job.reduce, order, job.Sources());
      InterleavingIsBatch(job, s, x, key, order, job.Sources());
    }
    if j == Owner(job, key) && BatchResult(job, s, x, key) == Some(value) {
      var b := BatchIsEmitted(job, s, x, key, job.Sources());
      var order := EmittedIsFoldOfForwarded(job, actions, j, b, key);
      FoldBySource(job.reduce, order, job.Sources());
      InterleavingIsBatch(job, s, x, key, order, job.Sources());
      assert task.emitted[b].kv[key] == value;
    }
  }

  /** A record of the batch was forwarded by some source. */
  lemma {:induction false} SomeSourceHolds(job: Job, s: System, x: Window, key: Bytes, n: nat) returns (i: nat)
    requires job.Valid() && |s.inputs| == job.Sources() && n <= job.Sources()
    requires T.Group(job.Config(), x, key, BatchInput(job, s, n)) != []
    ensures i < n && T.Group(job.Config(), x, key, Forwarded(job, s, i)) != []
  {
    GroupConcat(job.Config(), x, key, BatchInput(job, s, n - 1), Forwarded(job, s, n - 1));
    if T.Group(job.Config(), x, key, Forwarded(job, s, n - 1)) != [] {
      i := n - 1;
    } else {
      i := SomeSourceHolds(job, s, x, key, n - 1);
    }
  }

  lemma BatchIsEmitted(job: Job, s: System, x: Window, key: Bytes, n: nat) returns (b: nat)
    requires job.Valid() && SystemInv(job, s) && Drained(job, s) && n <= job.Sources()
    requires x.end <= FirstStart(job.windows, MAX_WATERMARK)
    requires T.Group(job.Config(), x, key, BatchInput(job, s, n)) != []
    ensures var task := s.reducers[Owner(job, key)].task;
      b < |task.emitted| && task.emitted[b].window == x && key in task.emitted[b].kv
  {
    var i := SomeSourceHolds(job, s, x, key, n);
    b := HeldIsEmitted(job, s, Owner(job, key), i, x, key);
  }

  /** In particular every window that ends a full window size before the last watermark is covered. */
  lemma CoversAllButTheLastSize(job: Job, x: Window)
    requires job.Valid() && x.end <= MAX_WATERMARK - job.windows.size
    ensures x.end <= FirstStart(job.windows, MAX_WATERMARK)
  {
    FirstStartIsWithinOneSize(job.windows, MAX_WATERMARK);
  }
}
