/**
 * One reduce task and its flat-map child as a state machine: `window_base_reduce.rs`,
 * `reduce_runnable.rs` and `keyed_state_flat_map.rs`, over the keyed state in memory.
 *
 * The queue between the two tasks is a log with a read position, so what has been
 * sent and what has been received are both parts of the state.
 */
module WindowReduce {
  import opened Prelude
  import opened Elements
  import opened Windows
  import opened KeyedState

  datatype Config = Config(windows: SlidingWindows, keyOf: Bytes -> Bytes, reduce: ReduceFunction, skip: seq<Window>) {
    ghost predicate Valid() {
      windows.Gapless()
    }
  }

  /** What one call of `flat_map_element` emits. */
  datatype Batch = Batch(window: Window, kv: Kv)

  datatype Task = Task(
    limit: Window,
    live: map<Window, Kv>,
    parked: map<Window, Kv>,
    triggers: seq<Window>,
    delivered: nat,
    emitted: seq<Batch>,
    checkpoints: Tracked)

  const NEW_TASK := Task(TimeWindow(0, 0), map[], map[], [], 0, [], map[])

  // ----- records

  /** The expiry check: the record's last window against the watermark's first. */
  predicate Acceptable(cfg: Config, limit: Window, r: Record)
    requires cfg.windows.Valid()
  {
    var xs := Assigned(cfg.windows, r.timestamp);
    xs == [] || xs[|xs| - 1].start >= limit.start
  }

  function FilterSkip(xs: seq<Window>, skip: seq<Window>): (r: seq<Window>)
    ensures forall x :: x in r <==> x in xs && x !in skip
    ensures NoDuplicates(xs) ==> NoDuplicates(r)
  {
    if xs == [] || skip == [] then xs
    else
      var front, last := xs[..|xs| - 1], xs[|xs| - 1];
      assert xs == front + [last];
      FilterSkip(front, skip) + (if last in skip then [] else [last])
  }

  /** The windows a record is merged into, after those of a recovered checkpoint are left out. */
  function MergedWindows(cfg: Config, r: Record): seq<Window>
    requires cfg.windows.Valid()
  {
    FilterSkip(Assigned(cfg.windows, r.timestamp), cfg.skip)
  }

  function Arrive(cfg: Config, t: Task, r: Record): Task
    requires cfg.windows.Valid()
  {
    if Acceptable(cfg, t.limit, r)
    then t.(live := MergeAll(t.live, MergedWindows(cfg, r), cfg.keyOf(r.values), r, cfg.reduce))
    else t
  }

  // ----- watermarks

  function Droppable(live: map<Window, Kv>, watermark: nat): set<Window> {
    set x | x in live && x.end <= watermark
  }

  predicate EndsFirst(x: Window, s: set<Window>) {
    forall y | y in s :: x.end <= y.end
  }

  lemma {:induction false} EarliestEndExists(s: set<Window>)
    requires s != {}
    ensures exists x :: x in s && EndsFirst(x, s)
  {
    var x :| x in s;
    if s == {x} {
      assert EndsFirst(x, s);
    } else {
      EarliestEndExists(s - {x});
      var y :| y in s - {x} && EndsFirst(y, s - {x});
      var least := if x.end < y.end then x else y;
      assert forall z | z in s :: z == x || z in s - {x};
      assert least in s && EndsFirst(least, s);
    }
  }

  /** The dropped windows sorted by their end. */
  ghost function InEndOrder(s: set<Window>): (r: seq<Window>)
    ensures forall x :: x in r <==> x in s
    ensures NoDuplicates(r)
    ensures forall i, j | 0 <= i < j < |r| :: r[i].end <= r[j].end
  {
    if s == {} then []
    else
      EarliestEndExists(s);
      var x :| x in s && EndsFirst(x, s);
      var tail := InEndOrder(s - {x});
      assert forall i | 0 <= i < |tail| :: tail[i] in tail;
      [x] + tail
  }

  function MarkDropped(checkpoints: Tracked, dropped: set<Window>): Tracked {
    map id | id in checkpoints ::
      map x | x in checkpoints[id] :: checkpoints[id][x] || x in dropped
  }

  /** The entries of the given windows. */
  ghost function Sub(live: map<Window, Kv>, s: set<Window>): map<Window, Kv>
    requires s <= live.Keys
  {
    map x | x in s :: live[x]
  }

  /** `drop_state`: every window that has ended moves from the live state to the parked state. */
  ghost function DropState(t: Task, watermark: nat): Task {
    var dropped := Droppable(t.live, watermark);
    t.(live := t.live - dropped,
       parked := t.parked + Sub(t.live, dropped),
       triggers := t.triggers + InEndOrder(dropped),
       checkpoints := MarkDropped(t.checkpoints, dropped))
  }

  ghost function Advance(cfg: Config, t: Task, watermark: nat): Task
    requires cfg.Valid()
  {
    EveryTimestampHasAWindow(cfg.windows, watermark);
    var first := Assigned(cfg.windows, watermark)[0];
    DropState(t.(limit := first), first.start)
  }

  // ----- the flat-map child

  function Deliver(t: Task): Task {
    if t.delivered >= |t.triggers| then t
    else
      var x := t.triggers[t.delivered];
      var t' := t.(delivered := t.delivered + 1);
      if x in t.parked
      then t'.(parked := t.parked - {x}, emitted := t.emitted + [Batch(x, t.parked[x])])
      else t'
  }

  // ----- checkpoints

  const MAX_TRACKED: nat := 100

  type Tracked = map<nat, map<Window, bool>>

  /** The checkpoints tracked once the live windows of a new one are recorded. */
  function RecordLive(checkpoints: Tracked, live: set<Window>, id: nat): Tracked {
    checkpoints[id := map x | x in live :: false]
  }

  predicate Complete(windows: map<Window, bool>) {
    forall x | x in windows :: windows[x]
  }

  function CompletedIn(recorded: Tracked): set<nat> {
    set c | c in recorded && Complete(recorded[c])
  }

  /** Completed checkpoints are forgotten, and the oldest of the others if there are too many. */
  function Prune(recorded: Tracked): Tracked {
    var rest := recorded - CompletedIn(recorded);
    if |rest| > MAX_TRACKED then rest - {MinOf(rest.Keys)} else rest
  }

  function ReportOf(recorded: Tracked): Option<nat> {
    if CompletedIn(recorded) == {} then None else Some(MaxOf(CompletedIn(recorded)))
  }

  function SnapshotState(t: Task, id: nat): (Task, Option<nat>) {
    var recorded := RecordLive(t.checkpoints, t.live.Keys, id);
    (t.(checkpoints := Prune(recorded)), ReportOf(recorded))
  }

  // ----- runs

  datatype Event =
    | Arrived(record: Record)
    | Advanced(watermark: nat)
    | BarrierPassed(checkpointId: nat)
    | Delivered

  ghost function Step(cfg: Config, t: Task, e: Event): Task
    requires cfg.Valid()
  {
    match e
    case Arrived(r) => Arrive(cfg, t, r)
    case Advanced(w) => Advance(cfg, t, w)
    case BarrierPassed(id) => SnapshotState(t, id).0
    case Delivered => Deliver(t)
  }

  ghost function Run(cfg: Config, events: seq<Event>): Task
    requires cfg.Valid()
  {
    if events == [] then NEW_TASK
    else Step(cfg, Run(cfg, events[..|events| - 1]), events[|events| - 1])
  }

  /** The records that pass the expiry check, in arrival order. */
  ghost function Accepted(cfg: Config, events: seq<Event>): seq<Record>
    requires cfg.Valid()
  {
    if events == [] then []
    else
      var front, e := events[..|events| - 1], events[|events| - 1];
      Accepted(cfg, front) +
      (if e.Arrived? && Acceptable(cfg, Run(cfg, front).limit, e.record) then [e.record] else [])
  }

  function LastWatermark(events: seq<Event>): nat {
    if events == [] then 0
    else if events[|events| - 1].Advanced? then events[|events| - 1].watermark
    else LastWatermark(events[..|events| - 1])
  }

  ghost predicate WatermarksInOrder(events: seq<Event>) {
    forall p, q | 0 <= p < q < |events| ::
      events[p].Advanced? && events[q].Advanced? ==> events[p].watermark <= events[q].watermark
  }

  lemma OrderOfFront(events: seq<Event>)
    requires WatermarksInOrder(events) && events != []
    ensures WatermarksInOrder(events[..|events| - 1])
    ensures events[|events| - 1].Advanced? ==> LastWatermark(events[..|events| - 1]) <= events[|events| - 1].watermark
  {
    var front, e := events[..|events| - 1], events[|events| - 1];
    LastWatermarkIsThere(front);
  }

  lemma {:induction false} LastWatermarkIsThere(events: seq<Event>)
    ensures LastWatermark(events) == 0 || Advanced(LastWatermark(events)) in events
  {
    if events != [] {
      LastWatermarkIsThere(events[..|events| - 1]);
    }
  }

  lemma StepMovesLimit(cfg: Config, t: Task, e: Event)
    requires cfg.Valid()
    ensures Step(cfg, t, e).limit.start == if e.Advanced? then FirstStart(cfg.windows, e.watermark) else t.limit.start
  {
    if e.Advanced? {
      EveryTimestampHasAWindow(cfg.windows, e.watermark);
    }
  }

  lemma {:induction false} LimitFollowsWatermark(cfg: Config, events: seq<Event>)
    requires cfg.Valid()
    ensures Run(cfg, events).limit.start == FirstStart(cfg.windows, LastWatermark(events))
  {
    if events == [] {
      FirstStartOfZero(cfg.windows);
    } else {
      var front, e := events[..|events| - 1], events[|events| - 1];
      LimitFollowsWatermark(cfg, front);
      StepMovesLimit(cfg, Run(cfg, front), e);
    }
  }

  // ----- where the windows are

  /** Live windows end after the limit; dropped ones ended by it, once each; the parked ones are
      exactly the dropped ones whose trigger the child has not yet received. */
  ghost predicate Placed(cfg: Config, t: Task) {
    && (forall x | x in t.live :: x.end == x.start + cfg.windows.size && x.end > t.limit.start)
    && (forall x | x in t.triggers :: x.end == x.start + cfg.windows.size && x.end <= t.limit.start)
    && NoDuplicates(t.triggers)
    && t.delivered == |t.emitted| <= |t.triggers|
    && (forall i | 0 <= i < |t.emitted| :: t.emitted[i].window == t.triggers[i])
    && (forall x :: x in t.parked <==> x in t.triggers[t.delivered..])
  }

  lemma ArriveKeepsPlaced(cfg: Config, t: Task, r: Record)
    requires cfg.Valid() && Placed(cfg, t)
    ensures Placed(cfg, Arrive(cfg, t, r))
    ensures Acceptable(cfg, t.limit, r) ==> forall x | x in Assigned(cfg.windows, r.timestamp) :: x.end > t.limit.start
  {
    if Acceptable(cfg, t.limit, r) {
      AssignedExact(cfg.windows, r.timestamp);
      AssignedHasNoDuplicates(cfg.windows, r.timestamp);
      EveryTimestampHasAWindow(cfg.windows, r.timestamp);
      MergeAllPointwise(t.live, MergedWindows(cfg, r), cfg.keyOf(r.values), r, cfg.reduce);
      forall x | x in Assigned(cfg.windows, r.timestamp) ensures x.end > t.limit.start {
        AcceptedWindowOutlivesLimit(cfg.windows, r.timestamp, t.limit.start, x);
      }
    }
  }

  lemma AssignedHasNoDuplicates(w: SlidingWindows, timestamp: nat)
    requires w.Valid()
    ensures NoDuplicates(Assigned(w, timestamp))
  {
    AssignedExact(w, timestamp);
    var xs := Assigned(w, timestamp);
    forall i, j | 0 <= i < j < |xs| ensures xs[i] != xs[j] {
      assert StartOf(xs[i]) < StartOf(xs[j]);
    }
  }

  lemma AdvanceKeepsPlaced(cfg: Config, t: Task, w: nat)
    requires cfg.Valid() && Placed(cfg, t)
    requires t.limit.start <= FirstStart(cfg.windows, w)
    ensures Placed(cfg, Advance(cfg, t, w))
    ensures Droppable(t.live, FirstStart(cfg.windows, w)) !! t.parked.Keys
    ensures forall x | x in Droppable(t.live, FirstStart(cfg.windows, w)) :: x !in t.triggers
  {
    var limit := FirstStart(cfg.windows, w);
    var dropped := Droppable(t.live, limit);
    assert forall x | x in dropped :: x !in t.triggers && x.end == x.start + cfg.windows.size;
    DropKeepsQueue(t, limit);
  }

  /** The queue after a drop of windows that were not in it before. */
  lemma DropKeepsQueue(t: Task, limit: nat)
    requires NoDuplicates(t.triggers) && t.delivered <= |t.triggers|
    requires forall x :: x in t.parked <==> x in t.triggers[t.delivered..]
    requires forall x | x in Droppable(t.live, limit) :: x !in t.triggers
    ensures var t' := DropState(t, limit);
      && NoDuplicates(t'.triggers)
      && (forall x :: x in t'.triggers <==> x in t.triggers || x in Droppable(t.live, limit))
      && (forall x :: x in t'.parked <==> x in t'.triggers[t.delivered..])
      && (forall x | x in t.parked :: x !in Droppable(t.live, limit))
  {
    var order := InEndOrder(Droppable(t.live, limit));
    var t' := DropState(t, limit);
    assert t'.triggers == t.triggers + order;
    assert t'.triggers[t.delivered..] == t.triggers[t.delivered..] + order;
    forall i, j | 0 <= i < j < |t'.triggers| ensures t'.triggers[i] != t'.triggers[j] {
      if i < |t.triggers| <= j {
        assert t'.triggers[j] in order;
      }
    }
  }

  lemma DeliverKeepsPlaced(cfg: Config, t: Task)
    requires Placed(cfg, t)
    ensures Placed(cfg, Deliver(t))
    ensures t.delivered < |t.triggers| ==> t.triggers[t.delivered] in t.parked
  {
    if t.delivered < |t.triggers| {
      var x := t.triggers[t.delivered];
      assert t.triggers[t.delivered..] == [x] + t.triggers[t.delivered + 1..];
      assert x in t.parked;
      var t' := Deliver(t);
      forall y ensures y in t'.parked <==> y in t'.triggers[t'.delivered..] {
        assert y in t'.triggers[t'.delivered..] ==> y != x;
      }
    }
  }

  lemma {:induction false} AlwaysPlaced(cfg: Config, events: seq<Event>)
    requires cfg.Valid() && WatermarksInOrder(events)
    ensures Placed(cfg, Run(cfg, events))
  {
    if events != [] {
      var front, e := events[..|events| - 1], events[|events| - 1];
      OrderOfFront(events);
      AlwaysPlaced(cfg, front);
      var t := Run(cfg, front);
      match e
      case Arrived(r) => ArriveKeepsPlaced(cfg, t, r);
      case Advanced(w) =>
        LimitFollowsWatermark(cfg, front);
        FirstStartMonotone(cfg.windows, LastWatermark(front), w);
        AdvanceKeepsPlaced(cfg, t, w);
      case BarrierPassed(_) =>
      case Delivered => DeliverKeepsPlaced(cfg, t);
    }
  }

  /**
   * A dropped window is never reopened. In every run with non-decreasing watermarks a record
   * that passes the expiry check is in no window dropped so far; a window is dropped at most
   * once; a drop never overwrites a parked state; and every trigger finds its state.
   */
  lemma NeverReopened(cfg: Config, events: seq<Event>)
    requires cfg.Valid() && WatermarksInOrder(events)
    ensures var t := Run(cfg, events);
      && NoDuplicates(t.triggers)
      && (forall r: Record, x | Acceptable(cfg, t.limit, r) && x in Assigned(cfg.windows, r.timestamp) :: x !in t.triggers)
      && (forall w: nat | LastWatermark(events) <= w ::
            Droppable(t.live, FirstStart(cfg.windows, w)) !! (t.parked.Keys + set x | x in t.triggers))
      && (t.delivered < |t.triggers| ==> t.triggers[t.delivered] in t.parked)
  {
    var t := Run(cfg, events);
    AlwaysPlaced(cfg, events);
    forall r: Record, x | Acceptable(cfg, t.limit, r) && x in Assigned(cfg.windows, r.timestamp)
      ensures x !in t.triggers
    {
      ArriveKeepsPlaced(cfg, t, r);
    }
    forall w: nat | LastWatermark(events) <= w
      ensures Droppable(t.live, FirstStart(cfg.windows, w)) !! (t.parked.Keys + set x | x in t.triggers)
    {
      LimitFollowsWatermark(cfg, events);
      FirstStartMonotone(cfg.windows, LastWatermark(events), w);
      AdvanceKeepsPlaced(cfg, t, w);
    }
    DeliverKeepsPlaced(cfg, t);
  }

  // ----- what the windows hold

  /** The reduce function folded over records, oldest first. */
  function Fold(reduce: ReduceFunction, rs: seq<Record>): Option<Bytes> {
    if rs == [] then None
    else Some(reduce(Fold(reduce, rs[..|rs| - 1]), rs[|rs| - 1]))
  }

  predicate Belongs(cfg: Config, x: Window, key: Bytes, r: Record)
    requires cfg.windows.Valid()
  {
    cfg.keyOf(r.values) == key && x in Assigned(cfg.windows, r.timestamp) && x !in cfg.skip
  }

  /** The records of one key in one window, in order. */
  function Group(cfg: Config, x: Window, key: Bytes, rs: seq<Record>): seq<Record>
    requires cfg.windows.Valid()
  {
    if rs == [] then []
    else
      Group(cfg, x, key, rs[..|rs| - 1]) +
      (if Belongs(cfg, x, key, rs[|rs| - 1]) then [rs[|rs| - 1]] else [])
  }

  /** The value that live state, parked state or output holds for a window and key. */
  ghost function Value(t: Task, x: Window, key: Bytes): Option<Bytes> {
    if x in t.live then Lookup(t.live[x], key)
    else if x in t.parked then Lookup(t.parked[x], key)
    else if i :| 0 <= i < |t.emitted| && t.emitted[i].window == x then Lookup(t.emitted[i].kv, key)
    else None
  }

  lemma EmittedValue(cfg: Config, t: Task, i: nat, key: Bytes)
    requires Placed(cfg, t) && i < |t.emitted|
    ensures t.emitted[i].window !in t.live && t.emitted[i].window !in t.parked
    ensures Value(t, t.emitted[i].window, key) == Lookup(t.emitted[i].kv, key)
  {
    var x := t.emitted[i].window;
    assert x == t.triggers[i];
    forall j | 0 <= j < |t.emitted| && t.emitted[j].window == x ensures j == i {
      assert t.triggers[j] == x;
    }
  }

  lemma ArriveMerges(cfg: Config, t: Task, r: Record, x: Window, key: Bytes)
    requires cfg.Valid() && Acceptable(cfg, t.limit, r)
    ensures LookupIn(Arrive(cfg, t, r).live, x, key) ==
      if Belongs(cfg, x, key, r) then Some(cfg.reduce(LookupIn(t.live, x, key), r)) else LookupIn(t.live, x, key)
    ensures x in Arrive(cfg, t, r).live <==> x in t.live || x in MergedWindows(cfg, r)
  {
    AssignedHasNoDuplicates(cfg.windows, r.timestamp);
    MergeAllPointwise(t.live, MergedWindows(cfg, r), cfg.keyOf(r.values), r, cfg.reduce);
  }

  lemma LiveValue(cfg: Config, t: Task, x: Window, key: Bytes)
    requires Placed(cfg, t) && x !in t.triggers
    ensures Value(t, x, key) == LookupIn(t.live, x, key)
  {
    assert forall i | 0 <= i < |t.emitted| :: t.emitted[i].window in t.triggers;
  }

  lemma ArriveFolds(cfg: Config, t: Task, r: Record, x: Window, key: Bytes)
    requires cfg.Valid() && Placed(cfg, t) && Acceptable(cfg, t.limit, r)
    ensures Value(Arrive(cfg, t, r), x, key) ==
      if Belongs(cfg, x, key, r) then Some(cfg.reduce(Value(t, x, key), r)) else Value(t, x, key)
  {
    ArriveKeepsPlaced(cfg, t, r);
    ArriveMerges(cfg, t, r, x, key);
    if x in MergedWindows(cfg, r) {
      assert x !in t.triggers;
      LiveValue(cfg, t, x, key);
      LiveValue(cfg, Arrive(cfg, t, r), x, key);
    } else if i :| 0 <= i < |t.emitted| && t.emitted[i].window == x {
      EmittedValue(cfg, t, i, key);
      EmittedValue(cfg, Arrive(cfg, t, r), i, key);
    }
  }

  /** The value in the live or parked state. */
  function Stored(live: map<Window, Kv>, parked: map<Window, Kv>, x: Window, key: Bytes): Option<Bytes> {
    if x in live then Lookup(live[x], key) else LookupIn(parked, x, key)
  }

  lemma UnemittedValue(t: Task, x: Window, key: Bytes)
    requires forall i | 0 <= i < |t.emitted| :: t.emitted[i].window != x
    ensures Value(t, x, key) == Stored(t.live, t.parked, x, key)
  {
  }

  lemma DropKeepsStored(t: Task, limit: nat, x: Window, key: Bytes)
    requires Droppable(t.live, limit) !! t.parked.Keys
    ensures var t' := DropState(t, limit); Stored(t'.live, t'.parked, x, key) == Stored(t.live, t.parked, x, key)
  {
  }

  lemma AdvanceKeepsValue(cfg: Config, t: Task, w: nat, x: Window, key: Bytes)
    requires cfg.Valid() && Placed(cfg, t)
    requires t.limit.start <= FirstStart(cfg.windows, w)
    ensures Value(Advance(cfg, t, w), x, key) == Value(t, x, key)
  {
    AdvanceKeepsPlaced(cfg, t, w);
    if i :| 0 <= i < |t.emitted| && t.emitted[i].window == x {
      EmittedValue(cfg, t, i, key);
      EmittedValue(cfg, Advance(cfg, t, w), i, key);
    } else {
      UnemittedValue(t, x, key);
      UnemittedValue(Advance(cfg, t, w), x, key);
      DropKeepsStored(t.(limit := Advance(cfg, t, w).limit), FirstStart(cfg.windows, w), x, key);
    }
  }

  lemma DeliverKeepsValue(cfg: Config, t: Task, x: Window, key: Bytes)
    requires Placed(cfg, t)
    ensures Value(Deliver(t), x, key) == Value(t, x, key)
  {
    DeliverKeepsPlaced(cfg, t);
    var t' := Deliver(t);
    if t.delivered < |t.triggers| {
      if x == t.triggers[t.delivered] {
        assert x in t.triggers;
        EmittedValue(cfg, t', t.delivered, key);
      } else if i :| 0 <= i < |t.emitted| && t.emitted[i].window == x {
        EmittedValue(cfg, t, i, key);
        EmittedValue(cfg, t', i, key);
      } else {
        assert forall i | 0 <= i < |t'.emitted| :: t'.emitted[i].window != x;
      }
    }
  }

  lemma CheckpointsHoldNoValue(cfg: Config, t: Task, checkpoints: Tracked, x: Window, key: Bytes)
    requires Placed(cfg, t)
    ensures Value(t.(checkpoints := checkpoints), x, key) == Value(t, x, key)
  {
    var t' := t.(checkpoints := checkpoints);
    assert Placed(cfg, t');
    if i :| 0 <= i < |t.emitted| && t.emitted[i].window == x {
      EmittedValue(cfg, t, i, key);
      EmittedValue(cfg, t', i, key);
    }
  }

  lemma SnapshotKeepsValue(cfg: Config, t: Task, id: nat, x: Window, key: Bytes)
    requires Placed(cfg, t)
    ensures Value(SnapshotState(t, id).0, x, key) == Value(t, x, key)
  {
    CheckpointsHoldNoValue(cfg, t, SnapshotState(t, id).0.checkpoints, x, key);
  }

  /** An accepted record is folded into its group and into no other. */
  lemma ArrivalExtendsFold(cfg: Config, t: Task, rs: seq<Record>, r: Record, x: Window, key: Bytes)
    requires cfg.Valid() && Placed(cfg, t) && Acceptable(cfg, t.limit, r)
    requires Value(t, x, key) == Fold(cfg.reduce, Group(cfg, x, key, rs))
    ensures Value(Arrive(cfg, t, r), x, key) == Fold(cfg.reduce, Group(cfg, x, key, rs + [r]))
  {
    ArriveFolds(cfg, t, r, x, key);
    GroupExtends(cfg, x, key, rs, r);
    FoldExtends(cfg.reduce, Group(cfg, x, key, rs), r);
  }

  lemma StepFolds(cfg: Config, t: Task, rs: seq<Record>, e: Event, x: Window, key: Bytes)
    requires cfg.Valid() && Placed(cfg, t)
    requires e.Advanced? ==> t.limit.start <= FirstStart(cfg.windows, e.watermark)
    requires Value(t, x, key) == Fold(cfg.reduce, Group(cfg, x, key, rs))
    ensures var rs' := if e.Arrived? && Acceptable(cfg, t.limit, e.record) then rs + [e.record] else rs;
      Value(Step(cfg, t, e), x, key) == Fold(cfg.reduce, Group(cfg, x, key, rs'))
  {
    match e
    case Arrived(r) =>
      if Acceptable(cfg, t.limit, r) {
        ArrivalExtendsFold(cfg, t, rs, r, x, key);
      }
    case Advanced(w) => AdvanceKeepsValue(cfg, t, w, x, key);
    case BarrierPassed(id) => SnapshotKeepsValue(cfg, t, id, x, key);
    case Delivered => DeliverKeepsValue(cfg, t, x, key);
  }

  lemma {:induction false} HoldsFold(cfg: Config, events: seq<Event>, x: Window, key: Bytes)
    requires cfg.Valid() && WatermarksInOrder(events)
    ensures Value(Run(cfg, events), x, key) == Fold(cfg.reduce, Group(cfg, x, key, Accepted(cfg, events)))
  {
    if events != [] {
      var front, e := events[..|events| - 1], events[|events| - 1];
      OrderOfFront(events);
      AlwaysPlaced(cfg, front);
      HoldsFold(cfg, front, x, key);
      LimitFollowsWatermark(cfg, front);
      if e.Advanced? {
        FirstStartMonotone(cfg.windows, LastWatermark(front), e.watermark);
      }
      StepFolds(cfg, Run(cfg, front), Accepted(cfg, front), e, x, key);
      assert Accepted(cfg, front) + [] == Accepted(cfg, front);
    }
  }

  lemma GroupExtends(cfg: Config, x: Window, key: Bytes, rs: seq<Record>, r: Record)
    requires cfg.windows.Valid()
    ensures Group(cfg, x, key, rs + [r]) ==
      if Belongs(cfg, x, key, r) then Group(cfg, x, key, rs) + [r] else Group(cfg, x, key, rs)
  {
    assert (rs + [r])[..|rs|] == rs;
    assert Group(cfg, x, key, rs) + [] == Group(cfg, x, key, rs);
  }

  lemma FoldExtends(reduce: ReduceFunction, rs: seq<Record>, r: Record)
    ensures Fold(reduce, rs + [r]) == Some(reduce(Fold(reduce, rs), r))
  {
    assert (rs + [r])[..|rs|] == rs;
  }

  /**
   * Keyed window state refines its specification. In every run of a reduce task and its
   * flat-map child, live state, parked state and output are disjoint by window, no window is
   * output twice, and together they hold, for every window and key, exactly the fold of the
   * accepted records that are not skipped, in arrival order, and nothing else.
   */
  lemma StateRefinesFold(cfg: Config, events: seq<Event>)
    requires cfg.Valid() && WatermarksInOrder(events)
    ensures var t := Run(cfg, events);
      && t.live.Keys !! t.parked.Keys
      && (forall i | 0 <= i < |t.emitted| :: t.emitted[i].window !in t.live && t.emitted[i].window !in t.parked)
      && (forall i, j | 0 <= i < j < |t.emitted| :: t.emitted[i].window != t.emitted[j].window)
    ensures forall x, key :: var t, g := Run(cfg, events), Group(cfg, x, key, Accepted(cfg, events));
      && (x in t.live ==> Lookup(t.live[x], key) == Fold(cfg.reduce, g))
      && (x in t.parked ==> Lookup(t.parked[x], key) == Fold(cfg.reduce, g))
      && (forall i | 0 <= i < |t.emitted| && t.emitted[i].window == x :: Lookup(t.emitted[i].kv, key) == Fold(cfg.reduce, g))
      && (g != [] ==> x in t.live || x in t.parked || exists i :: 0 <= i < |t.emitted| && t.emitted[i].window == x)
  {
    var t := Run(cfg, events);
    AlwaysPlaced(cfg, events);
    forall i | 0 <= i < |t.emitted| ensures t.emitted[i].window !in t.live && t.emitted[i].window !in t.parked {
      EmittedValue(cfg, t, i, []);
    }
    forall x | x in t.parked ensures x !in t.live {
      assert x in t.triggers;
    }
    forall x, key
      ensures var g := Group(cfg, x, key, Accepted(cfg, events));
        && (x in t.live ==> Lookup(t.live[x], key) == Fold(cfg.reduce, g))
        && (x in t.parked ==> Lookup(t.parked[x], key) == Fold(cfg.reduce, g))
        && (forall i | 0 <= i < |t.emitted| && t.emitted[i].window == x :: Lookup(t.emitted[i].kv, key) == Fold(cfg.reduce, g))
        && (g != [] ==> x in t.live || x in t.parked || exists i :: 0 <= i < |t.emitted| && t.emitted[i].window == x)
    {
      HoldsFold(cfg, events, x, key);
      forall i | 0 <= i < |t.emitted| && t.emitted[i].window == x
        ensures Lookup(t.emitted[i].kv, key) == Fold(cfg.reduce, Group(cfg, x, key, Accepted(cfg, events)))
      {
        EmittedValue(cfg, t, i, key);
      }
    }
  }
}
