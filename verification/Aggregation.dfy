/**
 * The distributed aggregation: N source tasks, each with a watermark assigner and a key-by,
 * connected by FIFO channels to M reduce tasks, each with its flat-map child.
 *
 * A channel is the routed part of what its source has sent so far, with a read position; the
 * elements past that position are in flight. A run is any sequence of actions.
 */
module Aggregation {
  import opened Prelude
  import opened Elements
  import opened Windows
  import opened KeyedState
  import opened WatermarkGenerators
  import A = WatermarkAssigner
  import M = WatermarkManager
  import T = WindowReduce

  datatype Job = Job(
    windows: SlidingWindows,
    keyOf: Bytes -> Bytes,
    reduce: ReduceFunction,
    hash: Bytes -> nat,
    generators: seq<Generator>,
    reducers: nat)
  {
    ghost predicate Valid() {
      windows.Gapless() && reducers > 0 && forall i | 0 <= i < |generators| :: A.Fresh(generators[i])
    }

    function Sources(): nat { |generators| }

    function Config(): T.Config { T.Config(windows, keyOf, reduce, []) }
  }

  /** Key-by: the reduce task that owns a key. */
  function Owner(job: Job, key: Bytes): (j: nat)
    requires job.reducers > 0
    ensures j < job.reducers
  {
    job.hash(key) % job.reducers
  }

  /** The id of the source job, as the reduce tasks know it. */
  const PARENT: M.JobId := 0

  // ----- channels

  /** A record goes to the owner of its key, every control element to all reduce tasks. */
  predicate GoesTo(job: Job, e: Element, j: nat)
    requires job.reducers > 0
  {
    e.Data? ==> Owner(job, job.keyOf(e.record.values)) == j
  }

  function Routed(job: Job, sent: seq<Element>, j: nat): seq<Element>
    requires job.reducers > 0
  {
    if sent == [] then []
    else
      Routed(job, sent[..|sent| - 1], j) +
      (if GoesTo(job, sent[|sent| - 1], j) then [sent[|sent| - 1]] else [])
  }

  function Records(log: seq<Element>): seq<Record> {
    if log == [] then []
    else Records(log[..|log| - 1]) + (if log[|log| - 1].Data? then [log[|log| - 1].record] else [])
  }

  lemma {:induction false} RoutedConcat(job: Job, a: seq<Element>, b: seq<Element>, j: nat)
    requires job.reducers > 0
    ensures Routed(job, a + b, j) == Routed(job, a, j) + Routed(job, b, j)
  {
    if b == [] {
      assert a + b == a;
    } else {
      RoutedConcat(job, a, b[..|b| - 1], j);
      assert (a + b)[..|a + b| - 1] == a + b[..|b| - 1];
    }
  }

  lemma {:induction false} RoutedMembers(job: Job, sent: seq<Element>, j: nat)
    requires job.reducers > 0
    ensures forall e :: e in Routed(job, sent, j) <==> e in sent && GoesTo(job, e, j)
  {
    if sent != [] {
      RoutedMembers(job, sent[..|sent| - 1], j);
      assert sent == sent[..|sent| - 1] + [sent[|sent| - 1]];
    }
  }

  lemma OrderedFront(sent: seq<Element>)
    requires A.Ordered(sent) && sent != []
    ensures A.Ordered(sent[..|sent| - 1])
  {
    var front := sent[..|sent| - 1];
    forall q | 0 <= q < |front| && front[q].StreamStatus?
      ensures A.WatermarkBefore(front, q)
    {
      var p :| 0 <= p < q && sent[p].Watermark?;
      assert front[p].Watermark?;
    }
  }

  lemma OrderedSubset(sent: seq<Element>, e: Element, log: seq<Element>)
    requires A.Ordered(sent + [e]) && A.Ordered(log)
    requires forall x | x in log :: x in sent
    requires forall x | x in sent && x.Watermark? :: x in log
    ensures A.Ordered(log + [e])
  {
    var all := sent + [e];
    assert all[|sent|] == e;
    forall p | 0 <= p < |log| && log[p].Watermark?
      ensures e.Watermark? ==> log[p].timestamp <= e.timestamp
      ensures e.Data? ==> log[p].timestamp <= e.record.timestamp
    {
      assert log[p] in sent;
      var k :| 0 <= k < |sent| && sent[k] == log[p];
      assert all[k] == log[p];
    }
    if e.StreamStatus? {
      var p :| 0 <= p < |sent| && all[p].Watermark?;
      assert all[p] == sent[p] && sent[p] in sent && sent[p] in log;
      var k :| 0 <= k < |log| && log[k] == sent[p];
      assert log[k].Watermark?;
    }
    OrderedSnoc(log, e);
  }

  /** Routing keeps the order that the assigner guarantees. */
  lemma {:induction false} RoutedOrdered(job: Job, sent: seq<Element>, j: nat)
    requires job.reducers > 0 && A.Ordered(sent)
    ensures A.Ordered(Routed(job, sent, j))
  {
    if sent != [] {
      var front, e := sent[..|sent| - 1], sent[|sent| - 1];
      OrderedFront(sent);
      RoutedOrdered(job, front, j);
      RoutedMembers(job, front, j);
      assert sent == front + [e];
      var log := Routed(job, front, j);
      OrderedSubset(front, e, log);
      assert Routed(job, sent, j) == if GoesTo(job, e, j) then log + [e] else log;
    }
  }

  lemma OrderedSnoc(log: seq<Element>, e: Element)
    requires A.Ordered(log)
    requires forall p | 0 <= p < |log| && log[p].Watermark? ::
      (e.Watermark? ==> log[p].timestamp <= e.timestamp) && (e.Data? ==> log[p].timestamp <= e.record.timestamp)
    requires e.StreamStatus? ==> A.WatermarkBefore(log, |log|)
    ensures A.Ordered(log + [e])
  {
    var log' := log + [e];
    forall q | 0 <= q < |log'| && log'[q].StreamStatus?
      ensures A.WatermarkBefore(log', q)
    {
      var p :| 0 <= p < (if q < |log| then q else |log|) && log[p].Watermark?;
      assert log'[p].Watermark?;
    }
  }

  lemma {:induction false} LastWatermarkIsLast(log: seq<Element>)
    ensures LastWatermark(log).None? <==> forall p | 0 <= p < |log| :: !log[p].Watermark?
    ensures LastWatermark(log).Some? ==> Watermark(LastWatermark(log).value) in log
  {
    if log != [] {
      var front := log[..|log| - 1];
      LastWatermarkIsLast(front);
      assert log == front + [log[|log| - 1]];
    }
  }

  /** Everything at or after a read position is no older than the last watermark read. */
  lemma UnreadIsLater(log: seq<Element>, read: nat, q: nat)
    requires A.Ordered(log) && read <= q < |log|
    ensures log[q].StreamStatus? && q == read ==> LastWatermark(log[..read]).Some?
    ensures LastWatermark(log[..read]).Some? ==>
      && (log[q].Data? ==> LastWatermark(log[..read]).value <= log[q].record.timestamp)
      && (log[q].Watermark? ==> LastWatermark(log[..read]).value <= log[q].timestamp)
  {
    var before := log[..read];
    LastWatermarkIsLast(before);
    if log[q].StreamStatus? && q == read {
      var p :| 0 <= p < q && log[p].Watermark?;
      assert before[p].Watermark?;
    }
    if LastWatermark(before).Some? {
      var k :| 0 <= k < |before| && before[k] == Watermark(LastWatermark(before).value);
      assert log[k] == before[k];
    }
  }

  // ----- the system

  datatype Reducer = Reducer(manager: M.Reached, task: T.Task, arrived: seq<(nat, Record)>)

  /** What each source has been given, how far each channel has been read (`read[i][j]` from
      source i to reduce task j), and the reduce tasks. */
  datatype System = System(inputs: seq<seq<A.Input>>, read: seq<seq<nat>>, reducers: seq<Reducer>)

  datatype Action =
    | Feed(source: nat, input: A.Input)
    /** Takes the next element of a channel; whether a barrier is aligned is left open. */
    | Receive(source: nat, reducer: nat, aligned: bool)
    | FlatMap(reducer: nat)

  function NewReducer(job: Job): Reducer {
    Reducer(M.NewManager(map[PARENT := seq(job.Sources(), _ => true)]), T.NEW_TASK, [])
  }

  function Init(job: Job): System {
    System(
      seq(job.Sources(), _ => []),
      seq(job.Sources(), _ => seq(job.reducers, _ => 0)),
      seq(job.reducers, _ => NewReducer(job)))
  }

  /** All that a source's assigner has sent. */
  function Sent(job: Job, s: System, i: nat): seq<Element>
    requires i < job.Sources() && |s.inputs| == job.Sources()
  {
    A.Run(job.generators[i], s.inputs[i]).1
  }

  function Log(job: Job, s: System, i: nat, j: nat): seq<Element>
    requires job.reducers > 0 && i < job.Sources() && |s.inputs| == job.Sources()
  {
    Routed(job, Sent(job, s, i), j)
  }

  /** One element at a reduce task: the source operator, the window assigner and the reduce operator. */
  ghost function Handle(job: Job, r: Reducer, i: nat, e: Element, aligned: bool): Reducer
    requires job.windows.Gapless()
  {
    var cfg := job.Config();
    match e
    case Data(record) =>
      r.(task := T.Arrive(cfg, r.task, record),
         arrived := if T.Acceptable(cfg, r.task.limit, record) then r.arrived + [(i, record)] else r.arrived)
    case Watermark(w) =>
      var manager := M.Next(r.manager, M.Arrived(PARENT, i, w));
      var low := M.MinWatermarkOf(manager);
      r.(manager := manager, task := if low.Some? then T.Advance(cfg, r.task, low.value) else r.task)
    case StreamStatus(_, _) =>
      r.(manager := M.Next(r.manager, M.Status(PARENT, i)))
    case Barrier(id) =>
      if aligned then r.(task := T.SnapshotState(r.task, id).0) else r
  }

  ghost predicate Shaped(job: Job, s: System) {
    && |s.inputs| == |s.read| == job.Sources()
    && |s.reducers| == job.reducers
    && forall i | 0 <= i < |s.read| :: |s.read[i]| == job.reducers
  }

  ghost predicate Enabled(job: Job, s: System, a: Action)
    requires job.Valid() && Shaped(job, s)
  {
    match a
    case Feed(i, input) => i < job.Sources() && A.FromUserSource(s.inputs[i] + [input])
    case Receive(i, j, _) => i < job.Sources() && j < job.reducers && s.read[i][j] < |Log(job, s, i, j)|
    case FlatMap(j) => j < job.reducers
  }

  ghost function Step(job: Job, s: System, a: Action): (s': System)
    requires job.Valid() && Shaped(job, s)
    ensures Shaped(job, s')
  {
    if !Enabled(job, s, a) then s
    else
      match a
      case Feed(i, input) => s.(inputs := s.inputs[i := s.inputs[i] + [input]])
      case Receive(i, j, aligned) =>
        s.(read := s.read[i := s.read[i][j := s.read[i][j] + 1]],
           reducers := s.reducers[j := Handle(job, s.reducers[j], i, Log(job, s, i, j)[s.read[i][j]], aligned)])
      case FlatMap(j) =>
        s.(reducers := s.reducers[j := s.reducers[j].(task := T.Deliver(s.reducers[j].task))])
  }

  ghost function Exec(job: Job, actions: seq<Action>): (s: System)
    requires job.Valid()
    ensures Shaped(job, s)
  {
    if actions == [] then Init(job)
    else Step(job, Exec(job, actions[..|actions| - 1]), actions[|actions| - 1])
  }

  // ----- the invariant of one reduce task

  function FromSource(arrived: seq<(nat, Record)>, i: nat): seq<Record> {
    if arrived == [] then []
    else
      var (source, r) := arrived[|arrived| - 1];
      FromSource(arrived[..|arrived| - 1], i) + (if source == i then [r] else [])
  }

  function Untagged(arrived: seq<(nat, Record)>): seq<Record> {
    seq(|arrived|, k requires 0 <= k < |arrived| => arrived[k].1)
  }

  ghost function Low(manager: M.Reached): nat {
    match M.MinWatermarkOf(manager) case None => 0 case Some(x) => x
  }

  /** The table holds the last watermark read from each channel. */
  ghost predicate ManagerInv(logs: seq<seq<Element>>, read: seq<nat>, m: M.Reached)
    requires |logs| == |read| && forall i | 0 <= i < |logs| :: read[i] <= |logs[i]|
  {
    && m.Keys == {PARENT} && |m[PARENT]| == |logs|
    && forall i | 0 <= i < |logs| ::
         m[PARENT][i].isDependency && m[PARENT][i].latest == LastWatermark(logs[i][..read[i]])
  }

  ghost predicate TaskInv(job: Job, r: Reducer)
    requires job.windows.Gapless()
  {
    && r.task.limit.start == FirstStart(job.windows, Low(r.manager))
    && T.Placed(job.Config(), r.task)
    && forall x, key :: HoldsFold(job, r.task, r.arrived, x, key)
  }

  /** What the task holds for a window and key is the fold of the records that have arrived for them. */
  ghost predicate HoldsFold(job: Job, t: T.Task, arrived: seq<(nat, Record)>, x: Window, key: Bytes)
    requires job.windows.Gapless()
  {
    T.Value(t, x, key) == T.Fold(job.reduce, T.Group(job.Config(), x, key, Untagged(arrived)))
  }

  ghost predicate ArrivalInv(logs: seq<seq<Element>>, read: seq<nat>, arrived: seq<(nat, Record)>)
    requires |logs| == |read| && forall i | 0 <= i < |logs| :: read[i] <= |logs[i]|
  {
    && (forall k | 0 <= k < |arrived| :: arrived[k].0 < |logs|)
    && forall i | 0 <= i < |logs| :: FromSource(arrived, i) == Records(logs[i][..read[i]])
  }

  ghost predicate Inv(job: Job, logs: seq<seq<Element>>, read: seq<nat>, r: Reducer)
    requires job.windows.Gapless()
  {
    && |logs| == |read| == job.Sources()
    && (forall i | 0 <= i < |logs| ::
          read[i] <= |logs[i]| && A.Ordered(logs[i]) && A.WatermarksUpTo(logs[i], MAX_WATERMARK))
    && ManagerInv(logs, read, r.manager)
    && TaskInv(job, r)
    && ArrivalInv(logs, read, r.arrived)
  }

  /** The task's watermark is at most the last one read from any channel. */
  lemma LowIsBelow(logs: seq<seq<Element>>, read: seq<nat>, m: M.Reached, i: nat)
    requires |logs| == |read| && forall k | 0 <= k < |logs| :: read[k] <= |logs[k]|
    requires ManagerInv(logs, read, m) && i < |logs|
    ensures Low(m) > 0 ==> LastWatermark(logs[i][..read[i]]).Some? && Low(m) <= LastWatermark(logs[i][..read[i]]).value
  {
    assert M.DependsOn(m, PARENT, i);
  }

  /** Whatever is in flight towards a reduce task is at or after its watermark. */
  lemma UnreadIsOnTime(job: Job, logs: seq<seq<Element>>, read: seq<nat>, r: Reducer, i: nat, q: nat)
    requires job.windows.Gapless() && Inv(job, logs, read, r)
    requires i < |logs| && read[i] <= q < |logs[i]| && logs[i][q].Data?
    ensures Low(r.manager) <= logs[i][q].record.timestamp
    ensures T.Acceptable(job.Config(), r.task.limit, logs[i][q].record)
  {
    LowIsBelow(logs, read, r.manager, i);
    UnreadIsLater(logs[i], read[i], q);
    var ts := logs[i][q].record.timestamp;
    OnTimeIsAccepted(job.windows, ts, Low(r.manager));
    EveryTimestampHasAWindow(job.windows, ts);
  }

  // ----- every action keeps it

  lemma LastWatermarkSnoc(log: seq<Element>, read: nat)
    requires read < |log|
    ensures LastWatermark(log[..read + 1]) ==
      if log[read].Watermark? then Some(log[read].timestamp) else LastWatermark(log[..read])
    ensures Records(log[..read + 1]) ==
      Records(log[..read]) + (if log[read].Data? then [log[read].record] else [])
  {
    assert log[..read + 1][..read] == log[..read];
  }

  /** Reading an element of a channel moves the table as the channel's last watermark. */
  lemma HandleKeepsManager(job: Job, logs: seq<seq<Element>>, read: seq<nat>, r: Reducer, i: nat, aligned: bool)
    requires job.windows.Gapless() && Inv(job, logs, read, r)
    requires i < |logs| && read[i] < |logs[i]|
    ensures ManagerInv(logs, read[i := read[i] + 1], Handle(job, r, i, logs[i][read[i]], aligned).manager)
  {
    var e := logs[i][read[i]];
    UnreadIsLater(logs[i], read[i], read[i]);
    if e.Watermark? {
      WatermarkKeepsManager(logs, read, r.manager, i);
    } else {
      assert M.DependsOn(r.manager, PARENT, i);
      OthersKeepManager(logs, read, r.manager, i);
    }
  }

  lemma WatermarkKeepsManager(logs: seq<seq<Element>>, read: seq<nat>, m: M.Reached, i: nat)
    requires |logs| == |read| && (forall k | 0 <= k < |logs| :: read[k] <= |logs[k]|) && ManagerInv(logs, read, m)
    requires i < |logs| && read[i] < |logs[i]| && A.Ordered(logs[i]) && logs[i][read[i]].Watermark?
    ensures ManagerInv(logs, read[i := read[i] + 1], M.Next(m, M.Arrived(PARENT, i, logs[i][read[i]].timestamp)))
  {
    LastWatermarkSnoc(logs[i], read[i]);
    UnreadIsLater(logs[i], read[i], read[i]);
    assert M.DependsOn(m, PARENT, i);
    var m' := M.Next(m, M.Arrived(PARENT, i, logs[i][read[i]].timestamp));
    assert m'.Keys == {PARENT} && |m'[PARENT]| == |logs|;
    forall k | 0 <= k < |logs|
      ensures m'[PARENT][k].isDependency && m'[PARENT][k].latest == LastWatermark(logs[k][..read[i := read[i] + 1][k]])
    {
    }
  }

  lemma OthersKeepManager(logs: seq<seq<Element>>, read: seq<nat>, m: M.Reached, i: nat)
    requires |logs| == |read| && (forall k | 0 <= k < |logs| :: read[k] <= |logs[k]|) && ManagerInv(logs, read, m)
    requires i < |logs| && read[i] < |logs[i]| && !logs[i][read[i]].Watermark?
    ensures ManagerInv(logs, read[i := read[i] + 1], m)
  {
    LastWatermarkSnoc(logs[i], read[i]);
  }

  /** A watermark never takes the task's own watermark back. */
  lemma LowRises(logs: seq<seq<Element>>, read: seq<nat>, m: M.Reached, i: nat, w: nat)
    requires |logs| == |read| && forall k | 0 <= k < |logs| :: read[k] <= |logs[k]|
    requires ManagerInv(logs, read, m) && i < |logs|
    requires LastWatermark(logs[i][..read[i]]).Some? ==> LastWatermark(logs[i][..read[i]]).value <= w
    ensures var m' := M.Next(m, M.Arrived(PARENT, i, w));
      Low(m) <= Low(m') && (M.MinWatermarkOf(m').None? ==> Low(m') == Low(m))
  {
    var m' := M.Next(m, M.Arrived(PARENT, i, w));
    assert M.DependsOn(m, PARENT, i);
    assert forall job, t: nat :: M.DependsOn(m', job, t) <==> M.DependsOn(m, job, t);
    var low, low' := M.MinWatermarkOf(m), M.MinWatermarkOf(m');
    if low'.None? {
      if job, t: nat :| M.DependsOn(m', job, t) && m'[job][t].latest.None? {
        assert M.DependsOn(m, job, t) && m[job][t].latest.None?;
      }
      assert low.None?;
    } else if low.Some? {
      var job, t: nat :| M.DependsOn(m', job, t) && m'[job][t].latest == low';
      assert M.DependsOn(m, job, t) && m[job][t].latest.Some? && low.value <= m[job][t].latest.value;
    }
  }

  lemma HandleKeepsTask(job: Job, logs: seq<seq<Element>>, read: seq<nat>, r: Reducer, i: nat, aligned: bool)
    requires job.Valid() && Inv(job, logs, read, r)
    requires i < |logs| && read[i] < |logs[i]|
    ensures TaskInv(job, Handle(job, r, i, logs[i][read[i]], aligned))
  {
    var e := logs[i][read[i]];
    match e
    case Data(record) =>
      UnreadIsOnTime(job, logs, read, r, i, read[i]);
      RecordKeepsTask(job, r, i, record);
    case Watermark(w) =>
      UnreadIsLater(logs[i], read[i], read[i]);
      LowRises(logs, read, r.manager, i, w);
      WatermarkKeepsTask(job, r, M.Next(r.manager, M.Arrived(PARENT, i, w)));
    case StreamStatus(_, _) =>
      UnreadIsLater(logs[i], read[i], read[i]);
      assert M.Next(r.manager, M.Status(PARENT, i)) == r.manager;
    case Barrier(id) =>
      if aligned {
        BarrierKeepsTask(job, r, id);
      }
  }

  lemma RecordKeepsTask(job: Job, r: Reducer, i: nat, record: Record)
    requires job.windows.Gapless() && TaskInv(job, r)
    requires T.Acceptable(job.Config(), r.task.limit, record)
    ensures TaskInv(job, r.(task := T.Arrive(job.Config(), r.task, record), arrived := r.arrived + [(i, record)]))
  {
    T.ArriveKeepsPlaced(job.Config(), r.task, record);
    forall x, key ensures HoldsFold(job, T.Arrive(job.Config(), r.task, record), r.arrived + [(i, record)], x, key) {
      RecordKeepsFold(job, r.task, r.arrived, i, record, x, key);
    }
  }

  lemma RecordKeepsFold(job: Job, t: T.Task, arrived: seq<(nat, Record)>, i: nat, record: Record, x: Window, key: Bytes)
    requires job.windows.Gapless() && T.Placed(job.Config(), t) && T.Acceptable(job.Config(), t.limit, record)
    requires HoldsFold(job, t, arrived, x, key)
    ensures HoldsFold(job, T.Arrive(job.Config(), t, record), arrived + [(i, record)], x, key)
  {
    assert Untagged(arrived + [(i, record)]) == Untagged(arrived) + [record];
    T.ArrivalExtendsFold(job.Config(), t, Untagged(arrived), record, x, key);
  }

  lemma WatermarkKeepsTask(job: Job, r: Reducer, manager: M.Reached)
    requires job.windows.Gapless() && TaskInv(job, r)
    requires Low(r.manager) <= Low(manager)
    requires M.MinWatermarkOf(manager).None? ==> Low(manager) == Low(r.manager)
    ensures var low := M.MinWatermarkOf(manager);
      TaskInv(job, r.(manager := manager, task := if low.Some? then T.Advance(job.Config(), r.task, low.value) else r.task))
  {
    var cfg := job.Config();
    if M.MinWatermarkOf(manager).Some? {
      var w := M.MinWatermarkOf(manager).value;
      FirstStartMonotone(job.windows, Low(r.manager), w);
      T.AdvanceKeepsPlaced(cfg, r.task, w);
      forall x, key ensures HoldsFold(job, T.Advance(cfg, r.task, w), r.arrived, x, key) {
        assert HoldsFold(job, r.task, r.arrived, x, key);
        T.AdvanceKeepsValue(cfg, r.task, w, x, key);
      }
    }
  }

  lemma BarrierKeepsTask(job: Job, r: Reducer, id: nat)
    requires job.windows.Gapless() && TaskInv(job, r)
    ensures TaskInv(job, r.(task := T.SnapshotState(r.task, id).0))
  {
    CheckpointsKeepTask(job, r, T.SnapshotState(r.task, id).0.checkpoints);
  }

  lemma CheckpointsKeepTask(job: Job, r: Reducer, checkpoints: T.Tracked)
    requires job.windows.Gapless() && TaskInv(job, r)
    ensures TaskInv(job, r.(task := r.task.(checkpoints := checkpoints)))
  {
    forall x, key ensures HoldsFold(job, r.task.(checkpoints := checkpoints), r.arrived, x, key) {
      assert HoldsFold(job, r.task, r.arrived, x, key);
      T.CheckpointsHoldNoValue(job.Config(), r.task, checkpoints, x, key);
    }
  }

  lemma FlatMapKeepsTask(job: Job, r: Reducer)
    requires job.windows.Gapless() && TaskInv(job, r)
    ensures TaskInv(job, r.(task := T.Deliver(r.task)))
  {
    T.DeliverKeepsPlaced(job.Config(), r.task);
    forall x, key ensures HoldsFold(job, T.Deliver(r.task), r.arrived, x, key) {
      assert HoldsFold(job, r.task, r.arrived, x, key);
      T.DeliverKeepsValue(job.Config(), r.task, x, key);
    }
  }

  lemma FromSourceSnoc(arrived: seq<(nat, Record)>, i: nat, r: Record, k: nat)
    ensures FromSource(arrived + [(i, r)], k) == if k == i then FromSource(arrived, k) + [r] else FromSource(arrived, k)
  {
    assert (arrived + [(i, r)])[..|arrived|] == arrived;
  }

  lemma HandleKeepsArrivals(job: Job, logs: seq<seq<Element>>, read: seq<nat>, r: Reducer, i: nat, aligned: bool)
    requires job.windows.Gapless() && Inv(job, logs, read, r)
    requires i < |logs| && read[i] < |logs[i]|
    ensures ArrivalInv(logs, read[i := read[i] + 1], Handle(job, r, i, logs[i][read[i]], aligned).arrived)
  {
    var e := logs[i][read[i]];
    assert Handle(job, r, i, e, aligned).arrived == Extended(r.arrived, i, e) by {
      if e.Data? {
        UnreadIsOnTime(job, logs, read, r, i, read[i]);
      }
    }
    ReadKeepsArrivals(logs, read, r.arrived, i);
  }

  /** An arrival extended by a record of source `i`, or by nothing. */
  function Extended(arrived: seq<(nat, Record)>, i: nat, e: Element): seq<(nat, Record)> {
    if e.Data? then arrived + [(i, e.record)] else arrived
  }

  lemma ReadExtendsOwnSource(log: seq<Element>, n: nat, arrived: seq<(nat, Record)>, i: nat)
    requires n < |log| && FromSource(arrived, i) == Records(log[..n])
    ensures FromSource(Extended(arrived, i, log[n]), i) == Records(log[..n + 1])
  {
    LastWatermarkSnoc(log, n);
    if log[n].Data? {
      FromSourceSnoc(arrived, i, log[n].record, i);
    }
  }

  lemma ReadKeepsOtherSource(arrived: seq<(nat, Record)>, i: nat, e: Element, k: nat)
    requires k != i
    ensures FromSource(Extended(arrived, i, e), k) == FromSource(arrived, k)
  {
    if e.Data? {
      FromSourceSnoc(arrived, i, e.record, k);
    }
  }

  lemma ReadKeepsArrivals(logs: seq<seq<Element>>, read: seq<nat>, arrived: seq<(nat, Record)>, i: nat)
    requires |logs| == |read| && forall k | 0 <= k < |logs| :: read[k] <= |logs[k]|
    requires ArrivalInv(logs, read, arrived) && i < |logs| && read[i] < |logs[i]|
    ensures ArrivalInv(logs, read[i := read[i] + 1], Extended(arrived, i, logs[i][read[i]]))
  {
    var e, read' := logs[i][read[i]], read[i := read[i] + 1];
    forall k | 0 <= k < |logs| ensures FromSource(Extended(arrived, i, e), k) == Records(logs[k][..read'[k]]) {
      if k == i {
        ReadExtendsOwnSource(logs[i], read[i], arrived, i);
      } else {
        ReadKeepsOtherSource(arrived, i, e, k);
      }
    }
  }

  /** The logs towards one reduce task. */
  function Logs(job: Job, s: System, j: nat): seq<seq<Element>>
    requires job.reducers > 0 && |s.inputs| == job.Sources()
  {
    seq(job.Sources(), i requires 0 <= i < job.Sources() => Log(job, s, i, j))
  }

  function Reads(s: System, j: nat): seq<nat>
    requires forall i | 0 <= i < |s.read| :: j < |s.read[i]|
  {
    seq(|s.read|, i requires 0 <= i < |s.read| => s.read[i][j])
  }

  ghost predicate ReducerInv(job: Job, s: System, j: nat)
    requires job.Valid() && Shaped(job, s) && j < job.reducers
  {
    Inv(job, Logs(job, s, j), Reads(s, j), s.reducers[j])
  }

  ghost predicate SystemInv(job: Job, s: System)
    requires job.Valid()
  {
    && Shaped(job, s)
    && (forall i | 0 <= i < job.Sources() :: A.FromUserSource(s.inputs[i]))
    && forall j | 0 <= j < job.reducers :: ReducerInv(job, s, j)
  }
}
