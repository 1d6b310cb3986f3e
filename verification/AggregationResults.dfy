/**
 * What holds in every reachable state of the distributed aggregation: no record that passed an
 * assigner expires at a reduce task, and the output is the batch group-by of the records.
 */
module AggregationResults {
  import opened Prelude
  import opened Elements
  import opened Windows
  import A = WatermarkAssigner
  import M = WatermarkManager
  import T = WindowReduce
  import opened Aggregation

  // ----- the invariant is inductive

  lemma InitHolds(job: Job)
    requires job.Valid()
    ensures SystemInv(job, Init(job))
  {
    var s := Init(job);
    forall j | 0 <= j < job.reducers ensures ReducerInv(job, s, j) {
      NewReducerHolds(job, Logs(job, s, j), Reads(s, j));
    }
  }

  lemma NewReducerHolds(job: Job, logs: seq<seq<Element>>, read: seq<nat>)
    requires job.Valid() && |logs| == |read| == job.Sources()
    requires forall i | 0 <= i < |logs| :: logs[i] == [] && read[i] == 0
    ensures Inv(job, logs, read, NewReducer(job))
  {
    assert forall i | 0 <= i < |logs| :: logs[i][..read[i]] == [];
    NewTaskHolds(job);
  }

  lemma NewTaskHolds(job: Job)
    requires job.Valid()
    ensures TaskInv(job, NewReducer(job))
  {
    var r := NewReducer(job);
    assert M.IsMinWatermark(r.manager, M.MinWatermarkOf(r.manager));
    assert Low(r.manager) == 0;
    FirstStartOfZero(job.windows);
    assert Untagged(r.arrived) == [];
    assert T.Placed(job.Config(), T.NEW_TASK);
  }

  /** A longer log does not disturb a reduce task, which has only read the old part. */
  lemma LongerLogsKeepInv(job: Job, logs: seq<seq<Element>>, logs': seq<seq<Element>>, read: seq<nat>, r: Reducer)
    requires job.windows.Gapless() && Inv(job, logs, read, r)
    requires |logs'| == |logs| && forall i | 0 <= i < |logs| :: logs[i] <= logs'[i]
    requires forall i | 0 <= i < |logs'| :: A.Ordered(logs'[i]) && A.WatermarksUpTo(logs'[i], MAX_WATERMARK)
    ensures Inv(job, logs', read, r)
  {
    assert forall i | 0 <= i < |logs| :: logs[i][..read[i]] == logs'[i][..read[i]];
  }

  lemma LogIsOrdered(job: Job, s: System, i: nat, j: nat)
    requires job.Valid() && Shaped(job, s) && i < job.Sources() && A.FromUserSource(s.inputs[i])
    ensures A.Ordered(Log(job, s, i, j)) && A.WatermarksUpTo(Log(job, s, i, j), MAX_WATERMARK)
  {
    A.OutputIsOrdered(job.generators[i], s.inputs[i]);
    RoutedOrdered(job, Sent(job, s, i), j);
    RoutedMembers(job, Sent(job, s, i), j);
    var log := Log(job, s, i, j);
    assert forall p | 0 <= p < |log| :: log[p] in log;
  }

  lemma FeedExtends(job: Job, s: System, i: nat, input: A.Input, j: nat)
    requires job.Valid() && Shaped(job, s) && i < job.Sources()
    ensures var s' := s.(inputs := s.inputs[i := s.inputs[i] + [input]]);
      forall k | 0 <= k < job.Sources() :: Log(job, s, k, j) <= Log(job, s', k, j)
  {
    var s' := s.(inputs := s.inputs[i := s.inputs[i] + [input]]);
    var before := s.inputs[i];
    assert (before + [input])[..|before|] == before;
    var out := A.Process(A.Run(job.generators[i], before).0, input).1;
    assert Sent(job, s', i) == Sent(job, s, i) + out;
    RoutedConcat(job, Sent(job, s, i), out, j);
  }

  lemma FeedKeepsInv(job: Job, s: System, i: nat, input: A.Input)
    requires job.Valid() && SystemInv(job, s) && Enabled(job, s, Feed(i, input))
    ensures SystemInv(job, Step(job, s, Feed(i, input)))
  {
    var s' := Step(job, s, Feed(i, input));
    forall j | 0 <= j < job.reducers ensures ReducerInv(job, s', j) {
      assert ReducerInv(job, s, j);
      FeedExtends(job, s, i, input, j);
      forall k | 0 <= k < job.Sources()
        ensures A.Ordered(Log(job, s', k, j)) && A.WatermarksUpTo(Log(job, s', k, j), MAX_WATERMARK)
      {
        LogIsOrdered(job, s', k, j);
      }
      LongerLogsKeepInv(job, Logs(job, s, j), Logs(job, s', j), Reads(s, j), s.reducers[j]);
    }
  }

  lemma ReceiverKeepsInv(job: Job, logs: seq<seq<Element>>, read: seq<nat>, r: Reducer, i: nat, aligned: bool)
    requires job.Valid() && Inv(job, logs, read, r)
    requires i < |logs| && read[i] < |logs[i]|
    ensures Inv(job, logs, read[i := read[i] + 1], Handle(job, r, i, logs[i][read[i]], aligned))
  {
    HandleKeepsManager(job, logs, read, r, i, aligned);
    HandleKeepsTask(job, logs, read, r, i, aligned);
    HandleKeepsArrivals(job, logs, read, r, i, aligned);
  }

  /** Receiving changes the channels and the task of one reduce task only. */
  lemma ReceiveChanges(job: Job, s: System, i: nat, j: nat, aligned: bool, k: nat)
    requires job.Valid() && Shaped(job, s) && Enabled(job, s, Receive(i, j, aligned)) && k < job.reducers
    ensures var s' := Step(job, s, Receive(i, j, aligned));
      && Logs(job, s', k) == Logs(job, s, k)
      && Reads(s', k) == (if k == j then Reads(s, k)[i := s.read[i][j] + 1] else Reads(s, k))
      && s'.reducers[k] == (if k == j then Handle(job, s.reducers[j], i, Log(job, s, i, j)[s.read[i][j]], aligned) else s.reducers[k])
  {
  }

  lemma SameViewKeepsInv(job: Job, s: System, s': System, k: nat)
    requires job.Valid() && Shaped(job, s) && Shaped(job, s') && k < job.reducers && ReducerInv(job, s, k)
    requires Logs(job, s', k) == Logs(job, s, k) && Reads(s', k) == Reads(s, k) && s'.reducers[k] == s.reducers[k]
    ensures ReducerInv(job, s', k)
  {
  }

  lemma NextOfView(job: Job, s: System, i: nat, j: nat, aligned: bool)
    requires job.Valid() && Shaped(job, s) && Enabled(job, s, Receive(i, j, aligned))
    ensures var logs, read := Logs(job, s, j), Reads(s, j);
      && i < |logs| == |read| && read[i] == s.read[i][j] < |logs[i]|
      && logs[i][read[i]] == Log(job, s, i, j)[s.read[i][j]]
  {
  }

  lemma ReceiverViewKeepsInv(job: Job, s: System, s': System, i: nat, j: nat, aligned: bool)
    requires job.Valid() && Shaped(job, s) && Shaped(job, s') && Enabled(job, s, Receive(i, j, aligned)) && ReducerInv(job, s, j)
    requires Logs(job, s', j) == Logs(job, s, j) && Reads(s', j) == Reads(s, j)[i := s.read[i][j] + 1]
    requires s'.reducers[j] == Handle(job, s.reducers[j], i, Log(job, s, i, j)[s.read[i][j]], aligned)
    ensures ReducerInv(job, s', j)
  {
    NextOfView(job, s, i, j, aligned);
    var logs, read, r := Logs(job, s, j), Reads(s, j), s.reducers[j];
    ReceiverKeepsInv(job, logs, read, r, i, aligned);
    InvOfView(job, s', j, logs, read[i := read[i] + 1], Handle(job, r, i, logs[i][read[i]], aligned));
  }

  lemma InvOfView(job: Job, s: System, j: nat, logs: seq<seq<Element>>, read: seq<nat>, r: Reducer)
    requires job.Valid() && Shaped(job, s) && j < job.reducers
    requires Logs(job, s, j) == logs && Reads(s, j) == read && s.reducers[j] == r && Inv(job, logs, read, r)
    ensures ReducerInv(job, s, j)
  {
  }

  lemma ReceiveKeepsReducer(job: Job, s: System, i: nat, j: nat, aligned: bool, k: nat)
    requires job.Valid() && Shaped(job, s) && Enabled(job, s, Receive(i, j, aligned)) && k < job.reducers && ReducerInv(job, s, k)
    ensures ReducerInv(job, Step(job, s, Receive(i, j, aligned)), k)
  {
    ReceiveChanges(job, s, i, j, aligned, k);
    if k == j {
      ReceiverViewKeepsInv(job, s, Step(job, s, Receive(i, j, aligned)), i, j, aligned);
    } else {
      SameViewKeepsInv(job, s, Step(job, s, Receive(i, j, aligned)), k);
    }
  }

  lemma ReceiveKeepsInv(job: Job, s: System, i: nat, j: nat, aligned: bool)
    requires job.Valid() && SystemInv(job, s) && Enabled(job, s, Receive(i, j, aligned))
    ensures SystemInv(job, Step(job, s, Receive(i, j, aligned)))
  {
    forall k | 0 <= k < job.reducers ensures ReducerInv(job, Step(job, s, Receive(i, j, aligned)), k) {
      ReceiveKeepsReducer(job, s, i, j, aligned, k);
    }
  }

  lemma FlatMapViewKeepsInv(job: Job, s: System, s': System, j: nat)
    requires job.Valid() && Shaped(job, s) && Shaped(job, s') && j < job.reducers && ReducerInv(job, s, j)
    requires Logs(job, s', j) == Logs(job, s, j) && Reads(s', j) == Reads(s, j)
    requires s'.reducers[j] == s.reducers[j].(task := T.Deliver(s.reducers[j].task))
    ensures ReducerInv(job, s', j)
  {
    FlatMapKeepsTask(job, s.reducers[j]);
  }

  lemma FlatMapKeepsInv(job: Job, s: System, j: nat)
    requires job.Valid() && SystemInv(job, s) && j < job.reducers
    ensures SystemInv(job, Step(job, s, FlatMap(j)))
  {
    var s' := Step(job, s, FlatMap(j));
    forall k | 0 <= k < job.reducers ensures ReducerInv(job, s', k) {
      assert Logs(job, s', k) == Logs(job, s, k) && Reads(s', k) == Reads(s, k);
      if k == j {
        FlatMapViewKeepsInv(job, s, s', j);
      } else {
        SameViewKeepsInv(job, s, s', k);
      }
    }
  }

  lemma {:induction false} Reachable(job: Job, actions: seq<Action>)
    requires job.Valid()
    ensures SystemInv(job, Exec(job, actions))
  {
    if actions == [] {
      InitHolds(job);
    } else {
      var front, a := actions[..|actions| - 1], actions[|actions| - 1];
      Reachable(job, front);
      var s := Exec(job, front);
      if Enabled(job, s, a) {
        match a
        case Feed(i, input) => FeedKeepsInv(job, s, i, input);
        case Receive(i, j, aligned) => ReceiveKeepsInv(job, s, i, j, aligned);
        case FlatMap(j) => FlatMapKeepsInv(job, s, j);
      }
    }
  }

  // ----- no record expires

  /**
   * Every record that a watermark assigner has forwarded and that is still in flight passes
   * the expiry check of its reduce task, in every reachable state, so none is ever counted as
   * expired when it is received.
   */
  lemma NoForwardedRecordExpires(job: Job, actions: seq<Action>, i: nat, j: nat, q: nat)
    requires job.Valid() && i < job.Sources() && j < job.reducers
    requires var s := Exec(job, actions);
      s.read[i][j] <= q < |Log(job, s, i, j)| && Log(job, s, i, j)[q].Data?
    ensures var s := Exec(job, actions);
      T.Acceptable(job.Config(), s.reducers[j].task.limit, Log(job, s, i, j)[q].record)
  {
    var s := Exec(job, actions);
    Reachable(job, actions);
    assert ReducerInv(job, s, j);
    UnreadIsOnTime(job, Logs(job, s, j), Reads(s, j), s.reducers[j], i, q);
  }

  /** All records that the assigner of a source has forwarded. */
  function Forwarded(job: Job, s: System, i: nat): seq<Record>
    requires i < job.Sources() && |s.inputs| == job.Sources()
  {
    Records(Sent(job, s, i))
  }

  // ----- groups and interleavings

  /** The arrivals of one key in one window, with the source each came from. */
  function TaggedGroup(cfg: T.Config, x: Window, key: Bytes, arrived: seq<(nat, Record)>): seq<(nat, Record)>
    requires cfg.windows.Valid()
  {
    if arrived == [] then []
    else
      TaggedGroup(cfg, x, key, arrived[..|arrived| - 1]) +
      (if T.Belongs(cfg, x, key, arrived[|arrived| - 1].1) then [arrived[|arrived| - 1]] else [])
  }

  lemma {:induction false} TaggedGroupIsGroup(cfg: T.Config, x: Window, key: Bytes, arrived: seq<(nat, Record)>)
    requires cfg.windows.Valid()
    ensures Untagged(TaggedGroup(cfg, x, key, arrived)) == T.Group(cfg, x, key, Untagged(arrived))
    ensures forall a | a in TaggedGroup(cfg, x, key, arrived) :: a in arrived
  {
    if arrived != [] {
      var front, a := arrived[..|arrived| - 1], arrived[|arrived| - 1];
      TaggedGroupIsGroup(cfg, x, key, front);
      assert Untagged(arrived) == Untagged(front) + [a.1];
      T.GroupExtends(cfg, x, key, Untagged(front), a.1);
      var g := TaggedGroup(cfg, x, key, front);
      assert Untagged(g + [a]) == Untagged(g) + [a.1];
    }
  }

  lemma {:induction false} TaggedGroupFromSource(cfg: T.Config, x: Window, key: Bytes, arrived: seq<(nat, Record)>, i: nat)
    requires cfg.windows.Valid()
    ensures FromSource(TaggedGroup(cfg, x, key, arrived), i) == T.Group(cfg, x, key, FromSource(arrived, i))
  {
    if arrived != [] {
      var front, a := arrived[..|arrived| - 1], arrived[|arrived| - 1];
      TaggedGroupFromSource(cfg, x, key, front, i);
      assert arrived == front + [a];
      FromSourceSnoc(front, a.0, a.1, i);
      FromSourceSnoc(TaggedGroup(cfg, x, key, front), a.0, a.1, i);
      T.GroupExtends(cfg, x, key, FromSource(front, i), a.1);
      assert TaggedGroup(cfg, x, key, arrived) ==
        if T.Belongs(cfg, x, key, a.1) then TaggedGroup(cfg, x, key, front) + [(a.0, a.1)] else TaggedGroup(cfg, x, key, front);
    }
  }

  function GroupOf(cfg: T.Config, x: Window, key: Bytes, log: seq<Element>): seq<Record>
    requires cfg.windows.Valid()
  {
    T.Group(cfg, x, key, Records(log))
  }

  lemma GroupOfSnoc(cfg: T.Config, x: Window, key: Bytes, log: seq<Element>, e: Element)
    requires cfg.windows.Valid()
    ensures GroupOf(cfg, x, key, log + [e]) ==
      if e.Data? && T.Belongs(cfg, x, key, e.record) then GroupOf(cfg, x, key, log) + [e.record] else GroupOf(cfg, x, key, log)
  {
    assert (log + [e])[..|log|] == log;
    if e.Data? {
      T.GroupExtends(cfg, x, key, Records(log), e.record);
    } else {
      assert Records(log + [e]) == Records(log);
    }
  }

  lemma RoutedSnoc(job: Job, sent: seq<Element>, e: Element, j: nat)
    requires job.reducers > 0
    ensures Routed(job, sent + [e], j) == if GoesTo(job, e, j) then Routed(job, sent, j) + [e] else Routed(job, sent, j)
  {
    assert (sent + [e])[..|sent|] == sent;
  }

  /** Routing loses nothing of a key on the way to its owner and sends nothing of it elsewhere. */
  lemma {:induction false} GroupOfRouted(job: Job, sent: seq<Element>, j: nat, x: Window, key: Bytes)
    requires job.Valid()
    ensures GroupOf(job.Config(), x, key, Routed(job, sent, j)) ==
      if Owner(job, key) == j then GroupOf(job.Config(), x, key, sent) else []
  {
    if sent != [] {
      var front, e := sent[..|sent| - 1], sent[|sent| - 1];
      assert sent == front + [e];
      GroupOfRouted(job, front, j, x, key);
      GroupOfSnoc(job.Config(), x, key, front, e);
      GroupOfSnoc(job.Config(), x, key, Routed(job, front, j), e);
      RoutedSnoc(job, front, e, j);
    }
  }

  /** The unread part of a log adds nothing to a group none of whose records it holds. */
  lemma {:induction false} GroupOfRead(cfg: T.Config, x: Window, key: Bytes, log: seq<Element>, read: nat)
    requires cfg.windows.Valid() && read <= |log|
    requires forall q | read <= q < |log| && log[q].Data? :: !T.Belongs(cfg, x, key, log[q].record)
    ensures GroupOf(cfg, x, key, log) == GroupOf(cfg, x, key, log[..read])
  {
    if read == |log| {
      assert log[..read] == log;
    } else {
      var front, e := log[..|log| - 1], log[|log| - 1];
      assert log == front + [e] && front[..read] == log[..read];
      GroupOfRead(cfg, x, key, front, read);
      GroupOfSnoc(cfg, x, key, front, e);
    }
  }

  /** No record that is still to be read belongs to a window that has been dropped. */
  lemma DroppedIsComplete(job: Job, logs: seq<seq<Element>>, read: seq<nat>, r: Reducer, i: nat, q: nat, x: Window)
    requires job.Valid() && Inv(job, logs, read, r)
    requires i < |logs| && read[i] <= q < |logs[i]| && logs[i][q].Data?
    requires x in r.task.triggers
    ensures x !in Assigned(job.windows, logs[i][q].record.timestamp)
  {
    UnreadIsOnTime(job, logs, read, r, i, q);
    T.ArriveKeepsPlaced(job.Config(), r.task, logs[i][q].record);
  }

  /** For a dropped window, what has arrived from a source is all that the source forwarded. */
  lemma ArrivedIsAll(job: Job, s: System, j: nat, x: Window, key: Bytes, i: nat)
    requires job.Valid() && SystemInv(job, s) && j < job.reducers && i < job.Sources()
    requires Owner(job, key) == j
    requires x in s.reducers[j].task.triggers || s.read[i][j] == |Log(job, s, i, j)|
    ensures T.Group(job.Config(), x, key, FromSource(s.reducers[j].arrived, i)) ==
            T.Group(job.Config(), x, key, Forwarded(job, s, i))
  {
    var logs, read, r := Logs(job, s, j), Reads(s, j), s.reducers[j];
    assert ReducerInv(job, s, j) && Inv(job, logs, read, r);
    forall q | read[i] <= q < |logs[i]| && logs[i][q].Data?
      ensures !T.Belongs(job.Config(), x, key, logs[i][q].record)
    {
      DroppedIsComplete(job, logs, read, r, i, q, x);
    }
    GroupOfRead(job.Config(), x, key, logs[i], read[i]);
    GroupOfRouted(job, Sent(job, s, i), j, x, key);
  }

  // ----- the output

  /** `order` merges the forwarded records of a key in a window, keeping each source's order. */
  ghost predicate Interleaves(job: Job, s: System, x: Window, key: Bytes, order: seq<(nat, Record)>)
    requires job.Valid() && Shaped(job, s)
  {
    && (forall a | a in order :: a.0 < job.Sources())
    && forall i | 0 <= i < job.Sources() :: FromSource(order, i) == T.Group(job.Config(), x, key, Forwarded(job, s, i))
  }

  lemma GroupInterleaves(job: Job, s: System, j: nat, x: Window, key: Bytes)
    requires job.Valid() && SystemInv(job, s) && j < job.reducers && Owner(job, key) == j
    requires x in s.reducers[j].task.triggers || forall i | 0 <= i < job.Sources() :: s.read[i][j] == |Log(job, s, i, j)|
    ensures Interleaves(job, s, x, key, TaggedGroup(job.Config(), x, key, s.reducers[j].arrived))
  {
    var arrived := s.reducers[j].arrived;
    assert ReducerInv(job, s, j);
    TaggedGroupIsGroup(job.Config(), x, key, arrived);
    forall i | 0 <= i < job.Sources()
      ensures FromSource(TaggedGroup(job.Config(), x, key, arrived), i) == T.Group(job.Config(), x, key, Forwarded(job, s, i))
    {
      TaggedGroupFromSource(job.Config(), x, key, arrived, i);
      ArrivedIsAll(job, s, j, x, key, i);
    }
  }

  /** A reduce task that does not own the key holds nothing for it. */
  lemma OthersHoldNothing(job: Job, s: System, j: nat, x: Window, key: Bytes)
    requires job.Valid() && SystemInv(job, s) && j < job.reducers && Owner(job, key) != j
    ensures T.Value(s.reducers[j].task, x, key) == None
  {
    var logs, read, r := Logs(job, s, j), Reads(s, j), s.reducers[j];
    assert ReducerInv(job, s, j) && Inv(job, logs, read, r);
    forall i | 0 <= i < job.Sources() ensures T.Group(job.Config(), x, key, FromSource(r.arrived, i)) == [] {
      RoutedMembers(job, Sent(job, s, i), j);
      NoneBelong(job, logs[i][..read[i]], j, x, key);
    }
    NothingFromAnySource(job, r.arrived, x, key);
    assert HoldsFold(job, r.task, r.arrived, x, key);
  }

  lemma NothingFromAnySource(job: Job, arrived: seq<(nat, Record)>, x: Window, key: Bytes)
    requires job.Valid() && forall a | a in arrived :: a.0 < job.Sources()
    requires forall i | 0 <= i < job.Sources() :: T.Group(job.Config(), x, key, FromSource(arrived, i)) == []
    ensures T.Group(job.Config(), x, key, Untagged(arrived)) == []
  {
    var g := TaggedGroup(job.Config(), x, key, arrived);
    TaggedGroupIsGroup(job.Config(), x, key, arrived);
    if g != [] {
      var a := g[|g| - 1];
      assert a in arrived;
      FromSourceOfMember(g, |g| - 1);
      TaggedGroupFromSource(job.Config(), x, key, arrived, a.0);
    }
  }

  lemma {:induction false} NoneBelong(job: Job, log: seq<Element>, j: nat, x: Window, key: Bytes)
    requires job.Valid() && Owner(job, key) != j && forall e | e in log :: GoesTo(job, e, j)
    ensures GroupOf(job.Config(), x, key, log) == []
  {
    if log != [] {
      var front, e := log[..|log| - 1], log[|log| - 1];
      assert log == front + [e];
      NoneBelong(job, front, j, x, key);
      assert e in log;
      GroupOfSnoc(job.Config(), x, key, front, e);
    }
  }

  lemma {:induction false} FromSourceOfMember(arrived: seq<(nat, Record)>, k: nat)
    requires k < |arrived|
    ensures arrived[k].1 in FromSource(arrived, arrived[k].0)
  {
    if k < |arrived| - 1 {
      FromSourceOfMember(arrived[..|arrived| - 1], k);
    }
  }

  /**
   * Every result is the fold, over some interleaving of the sources, of all the records of
   * its key and window that the assigners have forwarded, up to now and ever after in the
   * run; and it is emitted by the owner of the key.
   */
  lemma EmittedIsFoldOfForwarded(job: Job, actions: seq<Action>, j: nat, b: nat, key: Bytes) returns (order: seq<(nat, Record)>)
    requires job.Valid() && j < job.reducers
    requires var s := Exec(job, actions); b < |s.reducers[j].task.emitted| && key in s.reducers[j].task.emitted[b].kv
    ensures Owner(job, key) == j
    ensures var s := Exec(job, actions);
      var batch := s.reducers[j].task.emitted[b];
      Interleaves(job, s, batch.window, key, order) && T.Fold(job.reduce, Untagged(order)) == Some(batch.kv[key])
  {
    var s := Exec(job, actions);
    Reachable(job, actions);
    var r := s.reducers[j];
    assert ReducerInv(job, s, j);
    var x := r.task.emitted[b].window;
    T.EmittedValue(job.Config(), r.task, b, key);
    if Owner(job, key) != j {
      OthersHoldNothing(job, s, j, x, key);
    }
    assert HoldsFold(job, r.task, r.arrived, x, key);
    order := TaggedGroup(job.Config(), x, key, r.arrived);
    TaggedGroupIsGroup(job.Config(), x, key, r.arrived);
    assert x == r.task.triggers[b];
    GroupInterleaves(job, s, j, x, key);
  }

  /** A window and key are emitted at most once in the whole system. */
  lemma EmittedAtMostOnce(job: Job, actions: seq<Action>, j: nat, b: nat, j': nat, b': nat, key: Bytes)
    requires job.Valid() && j < job.reducers && j' < job.reducers
    requires var s := Exec(job, actions);
      && b < |s.reducers[j].task.emitted| && b' < |s.reducers[j'].task.emitted|
      && key in s.reducers[j].task.emitted[b].kv && key in s.reducers[j'].task.emitted[b'].kv
      && s.reducers[j].task.emitted[b].window == s.reducers[j'].task.emitted[b'].window
    ensures j == j' && b == b'
  {
    var s := Exec(job, actions);
    var _ := EmittedIsFoldOfForwarded(job, actions, j, b, key);
    var _ := EmittedIsFoldOfForwarded(job, actions, j', b', key);
    Reachable(job, actions);
    var t := s.reducers[j].task;
    assert ReducerInv(job, s, j);
    assert t.triggers[b] == t.triggers[b'];
  }
}
