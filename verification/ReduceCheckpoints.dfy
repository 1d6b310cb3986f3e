/**
 * Which checkpoints a reduce task reports as completed: the `window_checkpoints` of
 * `window_base_reduce.rs` over whole runs of the task.
 */
module ReduceCheckpoints {
  import opened Prelude
  import opened Elements
  import opened Windows
  import opened KeyedState
  import opened WindowReduce

  /** A tracked checkpoint still waits for the window to be dropped. */
  predicate Waits(tracked: Tracked, c: nat, x: Window) {
    c in tracked && x in tracked[c] && !tracked[c][x]
  }

  /** What a tracked checkpoint waits for is live, and a later one waits for at least as much. */
  ghost predicate Nested(tracked: Tracked, live: set<Window>) {
    && (forall c, x | Waits(tracked, c, x) :: x in live)
    && (forall c, c', x | Waits(tracked, c, x) && c' in tracked && c < c' :: Waits(tracked, c', x))
  }

  ghost predicate BarriersInOrder(events: seq<Event>) {
    forall p, q | 0 <= p < q < |events| ::
      events[p].BarrierPassed? && events[q].BarrierPassed? ==> events[p].checkpointId < events[q].checkpointId
  }

  /** What the barrier at position `q` reports as completed. */
  ghost function Reported(cfg: Config, events: seq<Event>, q: nat): Option<nat>
    requires cfg.Valid() && q < |events| && events[q].BarrierPassed?
  {
    SnapshotState(Run(cfg, events[..q]), events[q].checkpointId).1
  }

  // ----- one step

  lemma RecordKeepsNested(tracked: Tracked, live: set<Window>, id: nat)
    requires Nested(tracked, live) && forall c | c in tracked :: c < id
    ensures Nested(RecordLive(tracked, live, id), live)
  {
    var r := RecordLive(tracked, live, id);
    assert forall c, x | Waits(r, c, x) && c != id :: Waits(tracked, c, x);
  }

  /** Completion is downward closed among the tracked checkpoints. */
  lemma CompletionIsDownwardClosed(tracked: Tracked, live: set<Window>, id: nat, c: nat, c': nat)
    requires Nested(tracked, live) && forall k | k in tracked :: k < id
    requires c in CompletedIn(RecordLive(tracked, live, id)) && c' in RecordLive(tracked, live, id) && c' <= c
    ensures c' in CompletedIn(RecordLive(tracked, live, id))
  {
    RecordKeepsNested(tracked, live, id);
    var r := RecordLive(tracked, live, id);
    forall x | x in r[c'] ensures r[c'][x] {
      if !r[c'][x] && c' < c {
        assert Waits(r, c', x);
      }
    }
  }

  lemma PruneKeepsEntries(r: Tracked)
    ensures forall c | c in Prune(r) :: c in r && Prune(r)[c] == r[c] && c !in CompletedIn(r)
    ensures |r| <= MAX_TRACKED + 1 ==> |Prune(r)| <= MAX_TRACKED
  {
    var rest := r - CompletedIn(r);
    SubsetOfSameSize(rest.Keys, r.Keys);
    if |rest| > MAX_TRACKED {
      assert Prune(r).Keys == rest.Keys - {MinOf(rest.Keys)};
    }
  }

  lemma SnapshotKeepsNested(tracked: Tracked, live: set<Window>, id: nat)
    requires Nested(tracked, live) && forall c | c in tracked :: c < id
    ensures Nested(Prune(RecordLive(tracked, live, id)), live)
    ensures var r := RecordLive(tracked, live, id);
      ReportOf(r).Some? ==> ReportOf(r).value <= id && forall c | c in Prune(r) :: ReportOf(r).value < c
  {
    var r := RecordLive(tracked, live, id);
    PruneKeepsEntries(r);
    assert Nested(Prune(r), live) by {
      RecordKeepsNested(tracked, live, id);
      assert forall c, x | Waits(Prune(r), c, x) :: Waits(r, c, x);
    }
    if ReportOf(r).Some? {
      var m := ReportOf(r).value;
      assert m in r;
      forall c | c in Prune(r) ensures m < c {
        if c <= m {
          CompletionIsDownwardClosed(tracked, live, id, m, c);
        }
      }
    }
  }

  lemma DropKeepsNested(tracked: Tracked, live: set<Window>, dropped: set<Window>)
    requires Nested(tracked, live)
    ensures Nested(MarkDropped(tracked, dropped), live - dropped)
  {
    var m := MarkDropped(tracked, dropped);
    assert forall c, x :: Waits(m, c, x) <==> Waits(tracked, c, x) && x !in dropped;
  }

  lemma MergeOnlyAddsWindows(cfg: Config, t: Task, r: Record)
    requires cfg.Valid()
    ensures t.live.Keys <= Arrive(cfg, t, r).live.Keys
    ensures Arrive(cfg, t, r).checkpoints == t.checkpoints
  {
    AssignedHasNoDuplicates(cfg.windows, r.timestamp);
    if Acceptable(cfg, t.limit, r) {
      MergeAllPointwise(t.live, MergedWindows(cfg, r), cfg.keyOf(r.values), r, cfg.reduce);
    }
  }

  /** The part of a step that the tracked checkpoints see. */
  lemma StepOnCheckpoints(cfg: Config, t: Task, e: Event)
    requires cfg.Valid()
    ensures var t' := Step(cfg, t, e);
      match e
      case Arrived(_) => t'.checkpoints == t.checkpoints && t.live.Keys <= t'.live.Keys
      case Advanced(w) =>
        var dropped := Droppable(t.live, FirstStart(cfg.windows, w));
        t'.checkpoints == MarkDropped(t.checkpoints, dropped) && t'.live.Keys == t.live.Keys - dropped
      case BarrierPassed(id) =>
        t'.checkpoints == Prune(RecordLive(t.checkpoints, t.live.Keys, id)) && t'.live == t.live
      case Delivered => t'.checkpoints == t.checkpoints && t'.live == t.live
  {
    if e.Arrived? {
      MergeOnlyAddsWindows(cfg, t, e.record);
    }
  }

  // ----- whole runs

  ghost predicate TrackedSeen(tracked: Tracked, events: seq<Event>) {
    forall c | c in tracked :: BarrierPassed(c) in events
  }

  lemma StepKeepsNested(cfg: Config, t: Task, e: Event)
    requires cfg.Valid() && Nested(t.checkpoints, t.live.Keys)
    requires e.BarrierPassed? ==> forall c | c in t.checkpoints :: c < e.checkpointId
    ensures Nested(Step(cfg, t, e).checkpoints, Step(cfg, t, e).live.Keys)
  {
    StepOnCheckpoints(cfg, t, e);
    if e.Advanced? {
      DropKeepsNested(t.checkpoints, t.live.Keys, Droppable(t.live, FirstStart(cfg.windows, e.watermark)));
    } else if e.BarrierPassed? {
      SnapshotKeepsNested(t.checkpoints, t.live.Keys, e.checkpointId);
    }
  }

  lemma MarkKeepsSize(tracked: Tracked, dropped: set<Window>)
    ensures MarkDropped(tracked, dropped).Keys == tracked.Keys
    ensures |MarkDropped(tracked, dropped)| == |tracked|
  {
    var marked := MarkDropped(tracked, dropped);
    assert forall id :: id in marked <==> id in tracked;
    assert marked.Keys == tracked.Keys;
    assert |marked| == |marked.Keys| && |tracked| == |tracked.Keys|;
  }

  lemma SnapshotKeepsSize(tracked: Tracked, live: set<Window>, id: nat)
    requires |tracked| <= MAX_TRACKED
    ensures |Prune(RecordLive(tracked, live, id))| <= MAX_TRACKED
    ensures forall c | c in Prune(RecordLive(tracked, live, id)) :: c in tracked || c == id
    ensures id in Prune(RecordLive(tracked, live, id)) ==> Prune(RecordLive(tracked, live, id))[id] == map x | x in live :: false
  {
    var r := RecordLive(tracked, live, id);
    assert r.Keys == tracked.Keys + {id};
    assert |r.Keys| <= |tracked.Keys| + 1;
    PruneKeepsEntries(r);
  }

  /** A step adds at most the id of its barrier, and never makes the table exceed its bound. */
  lemma StepKeepsBound(cfg: Config, t: Task, e: Event)
    requires cfg.Valid() && |t.checkpoints| <= MAX_TRACKED
    ensures |Step(cfg, t, e).checkpoints| <= MAX_TRACKED
    ensures forall c | c in Step(cfg, t, e).checkpoints :: c in t.checkpoints || e == BarrierPassed(c)
  {
    StepOnCheckpoints(cfg, t, e);
    match e
    case Arrived(_) =>
    case Advanced(w) => MarkKeepsSize(t.checkpoints, Droppable(t.live, FirstStart(cfg.windows, w)));
    case BarrierPassed(id) => SnapshotKeepsSize(t.checkpoints, t.live.Keys, id);
    case Delivered =>
  }

  lemma {:induction false} AlwaysNested(cfg: Config, events: seq<Event>)
    requires cfg.Valid() && BarriersInOrder(events)
    ensures Nested(Run(cfg, events).checkpoints, Run(cfg, events).live.Keys)
    ensures TrackedSeen(Run(cfg, events).checkpoints, events)
    ensures |Run(cfg, events).checkpoints| <= MAX_TRACKED
  {
    if events != [] {
      var front, e := events[..|events| - 1], events[|events| - 1];
      AlwaysNested(cfg, front);
      var t := Run(cfg, front);
      if e.BarrierPassed? {
        SeenAreEarlier(t.checkpoints, events);
      }
      StepKeepsNested(cfg, t, e);
      StepKeepsBound(cfg, t, e);
    }
  }

  lemma SeenAreEarlier(tracked: Tracked, events: seq<Event>)
    requires BarriersInOrder(events) && events != [] && events[|events| - 1].BarrierPassed?
    requires TrackedSeen(tracked, events[..|events| - 1])
    ensures forall c | c in tracked :: c < events[|events| - 1].checkpointId
  {
    var front := events[..|events| - 1];
    forall c | c in tracked ensures c < events[|events| - 1].checkpointId {
      assert BarrierPassed(c) in front;
      var k :| 0 <= k < |front| && front[k] == BarrierPassed(c);
      assert events[k] == BarrierPassed(c);
    }
  }

  /** At most a hundred uncompleted checkpoints are kept, at every point of every run. */
  lemma TrackedAreBounded(cfg: Config, events: seq<Event>)
    requires cfg.Valid() && BarriersInOrder(events)
    ensures |Run(cfg, events).checkpoints| <= 100
  {
    AlwaysNested(cfg, events);
  }

  lemma BarriersOfFront(events: seq<Event>, n: nat)
    requires BarriersInOrder(events) && n <= |events|
    ensures BarriersInOrder(events[..n])
  {
  }

  ghost predicate AllAbove(tracked: Tracked, bound: nat) {
    forall c | c in tracked :: bound < c
  }

  lemma SnapshotKeepsLater(t: Task, id: nat)
    requires Nested(t.checkpoints, t.live.Keys) && forall c | c in t.checkpoints :: c < id
    ensures var (t', report) := SnapshotState(t, id);
      report.Some? ==> report.value <= id && AllAbove(t'.checkpoints, report.value)
  {
    SnapshotKeepsNested(t.checkpoints, t.live.Keys, id);
  }

  lemma RunOneMore(cfg: Config, events: seq<Event>, p: nat)
    requires cfg.Valid() && p < |events|
    ensures Run(cfg, events[..p + 1]) == Step(cfg, Run(cfg, events[..p]), events[p])
  {
    assert events[..p + 1][..p] == events[..p];
  }

  /** What is tracked after the barrier at `p` is later than what it reports. */
  lemma KeptAreAfterReport(cfg: Config, events: seq<Event>, p: nat)
    requires cfg.Valid() && BarriersInOrder(events)
    requires p < |events| && events[p].BarrierPassed? && Reported(cfg, events, p).Some?
    ensures Reported(cfg, events, p).value <= events[p].checkpointId
    ensures AllAbove(Run(cfg, events[..p + 1]).checkpoints, Reported(cfg, events, p).value)
  {
    var t := Run(cfg, events[..p]);
    TrackedAreEarlier(cfg, events, p);
    SnapshotKeepsLater(t, events[p].checkpointId);
    RunOneMore(cfg, events, p);
  }

  lemma TrackedAreEarlier(cfg: Config, events: seq<Event>, p: nat)
    requires cfg.Valid() && BarriersInOrder(events) && p < |events| && events[p].BarrierPassed?
    ensures var t := Run(cfg, events[..p]);
      Nested(t.checkpoints, t.live.Keys) && forall c | c in t.checkpoints :: c < events[p].checkpointId
  {
    BarriersOfFront(events, p);
    BarriersOfFront(events, p + 1);
    AlwaysNested(cfg, events[..p]);
    assert events[..p + 1][..p] == events[..p];
    SeenAreEarlier(Run(cfg, events[..p]).checkpoints, events[..p + 1]);
  }

  lemma ReportedInFront(cfg: Config, events: seq<Event>, n: nat, p: nat)
    requires cfg.Valid() && p < n <= |events| && events[p].BarrierPassed?
    ensures events[..n][p] == events[p] && Reported(cfg, events[..n], p) == Reported(cfg, events, p)
  {
    assert events[..n][..p] == events[..p];
  }

  lemma {:induction false} TrackedStayAbove(cfg: Config, events: seq<Event>, n: nat, bound: nat)
    requires cfg.Valid() && BarriersInOrder(events) && n <= |events|
    requires AllAbove(Run(cfg, events[..n]).checkpoints, bound)
    requires forall q | n <= q < |events| && events[q].BarrierPassed? :: bound < events[q].checkpointId
    ensures AllAbove(Run(cfg, events).checkpoints, bound)
  {
    if n == |events| {
      assert events[..n] == events;
    } else {
      var front := events[..|events| - 1];
      BarriersOfFront(events, |front|);
      assert front[..n] == events[..n];
      TrackedStayAbove(cfg, front, n, bound);
      TrackedAreBounded(cfg, front);
      StepStaysAbove(cfg, Run(cfg, front), events[|front|], bound);
    }
  }

  lemma TrackedAreAfterReported(cfg: Config, events: seq<Event>, p: nat)
    requires cfg.Valid() && BarriersInOrder(events)
    requires p < |events| && events[p].BarrierPassed? && Reported(cfg, events, p).Some?
    ensures AllAbove(Run(cfg, events).checkpoints, Reported(cfg, events, p).value)
    ensures Reported(cfg, events, p).value <= events[p].checkpointId
  {
    KeptAreAfterReport(cfg, events, p);
    TrackedStayAbove(cfg, events, p + 1, Reported(cfg, events, p).value);
  }

  lemma StepStaysAbove(cfg: Config, t: Task, e: Event, bound: nat)
    requires cfg.Valid() && |t.checkpoints| <= MAX_TRACKED && AllAbove(t.checkpoints, bound)
    requires e.BarrierPassed? ==> bound < e.checkpointId
    ensures AllAbove(Step(cfg, t, e).checkpoints, bound)
  {
    StepKeepsBound(cfg, t, e);
  }

  /** The reported ids strictly increase over the run. */
  lemma ReportedStrictlyIncrease(cfg: Config, events: seq<Event>, p: nat, q: nat)
    requires cfg.Valid() && BarriersInOrder(events) && p < q < |events|
    requires events[p].BarrierPassed? && events[q].BarrierPassed?
    requires Reported(cfg, events, p).Some? && Reported(cfg, events, q).Some?
    ensures Reported(cfg, events, p).value < Reported(cfg, events, q).value
  {
    TrackedAreAfterEarlier(cfg, events, p, q);
    ReportWasTracked(Run(cfg, events[..q]), events[q].checkpointId);
  }

  /** Before a barrier, the tracked checkpoints are later than anything reported. */
  lemma TrackedAreAfterEarlier(cfg: Config, events: seq<Event>, p: nat, q: nat)
    requires cfg.Valid() && BarriersInOrder(events) && p < q < |events|
    requires events[p].BarrierPassed? && Reported(cfg, events, p).Some?
    ensures AllAbove(Run(cfg, events[..q]).checkpoints, Reported(cfg, events, p).value)
    ensures Reported(cfg, events, p).value <= events[p].checkpointId
  {
    BarriersOfFront(events, q);
    ReportedInFront(cfg, events, q, p);
    TrackedAreAfterReported(cfg, events[..q], p);
  }

  /** Only a tracked checkpoint or the new one is reported. */
  lemma ReportWasTracked(t: Task, id: nat)
    ensures var report := SnapshotState(t, id).1; report.Some? ==> report.value in t.checkpoints || report.value == id
  {
    var recorded := RecordLive(t.checkpoints, t.live.Keys, id);
    if ReportOf(recorded).Some? {
      assert ReportOf(recorded).value in CompletedIn(recorded);
    }
  }

  ghost predicate DroppedBetween(cfg: Config, events: seq<Event>, x: Window, p: nat, q: nat)
    requires cfg.Valid() && q <= |events|
  {
    exists r: nat :: DroppedAt(cfg, events, x, r) && p < r < q
  }

  ghost predicate DroppedAt(cfg: Config, events: seq<Event>, x: Window, r: nat)
    requires cfg.Valid()
  {
    r < |events| && events[r].Advanced? &&
    x in Droppable(Run(cfg, events[..r]).live, FirstStart(cfg.windows, events[r].watermark))
  }

  /** A tracked checkpoint was taken by some barrier, records the windows live then, and marks
      exactly those dropped since. */
  ghost predicate Truthful(cfg: Config, events: seq<Event>, c: nat, p: nat)
    requires cfg.Valid()
  {
    var t := Run(cfg, events);
    && c in t.checkpoints
    && p < |events| && events[p] == BarrierPassed(c)
    && t.checkpoints[c].Keys == Run(cfg, events[..p]).live.Keys
    && forall x | x in t.checkpoints[c] :: t.checkpoints[c][x] <==> DroppedBetween(cfg, events, x, p, |events|)
  }

  lemma DroppedAtInFront(cfg: Config, events: seq<Event>, e: Event, x: Window, r: nat)
    requires cfg.Valid() && r < |events|
    ensures DroppedAt(cfg, events + [e], x, r) <==> DroppedAt(cfg, events, x, r)
  {
    assert (events + [e])[..r] == events[..r];
  }

  lemma DroppedBetweenSnoc(cfg: Config, events: seq<Event>, e: Event, x: Window, p: nat)
    requires cfg.Valid() && p < |events|
    ensures DroppedBetween(cfg, events + [e], x, p, |events| + 1) <==>
      || DroppedBetween(cfg, events, x, p, |events|)
      || (e.Advanced? && x in Droppable(Run(cfg, events).live, FirstStart(cfg.windows, e.watermark)))
  {
    var all, n := events + [e], |events|;
    assert all[..n] == events;
    if r: nat :| DroppedAt(cfg, events, x, r) && p < r < n {
      DroppedAtInFront(cfg, events, e, x, r);
      assert DroppedAt(cfg, all, x, r);
    }
    if r: nat :| DroppedAt(cfg, all, x, r) && p < r < n + 1 {
      if r < n {
        DroppedAtInFront(cfg, events, e, x, r);
      }
    }
    if e.Advanced? && x in Droppable(Run(cfg, events).live, FirstStart(cfg.windows, e.watermark)) {
      assert DroppedAt(cfg, all, x, n);
    }
  }

  /** A checkpoint taken before the step and still tracked after it stays truthful. */
  lemma TruthfulExtends(cfg: Config, front: seq<Event>, e: Event, c: nat, p: nat)
    requires cfg.Valid() && Truthful(cfg, front, c, p)
    requires e != BarrierPassed(c) && c in Run(cfg, front + [e]).checkpoints
    ensures Truthful(cfg, front + [e], c, p)
  {
    var events := front + [e];
    assert events[..|events| - 1] == front && events[..p] == front[..p];
    var t, t' := Run(cfg, front), Run(cfg, events);
    StepOnCheckpoints(cfg, t, e);
    if e.BarrierPassed? {
      PruneKeepsEntries(RecordLive(t.checkpoints, t.live.Keys, e.checkpointId));
    }
    assert t'.checkpoints[c].Keys == t.checkpoints[c].Keys;
    forall x | x in t'.checkpoints[c]
      ensures t'.checkpoints[c][x] <==> DroppedBetween(cfg, events, x, p, |events|)
    {
      DroppedBetweenSnoc(cfg, front, e, x, p);
    }
  }

  lemma NewlyTrackedIsTruthful(cfg: Config, front: seq<Event>, c: nat)
    requires cfg.Valid() && BarriersInOrder(front) && c in Run(cfg, front + [BarrierPassed(c)]).checkpoints
    ensures Truthful(cfg, front + [BarrierPassed(c)], c, |front|)
  {
    var events := front + [BarrierPassed(c)];
    assert events[..|front|] == front;
    AlwaysNested(cfg, front);
    NewEntryIsUnmarked(cfg, Run(cfg, front), c);
  }

  /** The entry a barrier adds holds the live windows, none of them marked. */
  lemma NewEntryIsUnmarked(cfg: Config, t: Task, c: nat)
    requires cfg.Valid() && |t.checkpoints| <= MAX_TRACKED && c in Step(cfg, t, BarrierPassed(c)).checkpoints
    ensures var entry := Step(cfg, t, BarrierPassed(c)).checkpoints[c];
      entry.Keys == t.live.Keys && forall x | x in entry :: !entry[x]
  {
    StepOnCheckpoints(cfg, t, BarrierPassed(c));
    SnapshotKeepsSize(t.checkpoints, t.live.Keys, c);
    var entry := Step(cfg, t, BarrierPassed(c)).checkpoints[c];
    assert entry == map x | x in t.live.Keys :: false;
  }

  lemma {:induction false} TrackedAreTruthful(cfg: Config, events: seq<Event>, c: nat) returns (p: nat)
    requires cfg.Valid() && BarriersInOrder(events)
    requires c in Run(cfg, events).checkpoints
    ensures Truthful(cfg, events, c, p)
  {
    var front, e := events[..|events| - 1], events[|events| - 1];
    assert front + [e] == events;
    if e == BarrierPassed(c) {
      p := |front|;
      BarriersOfFront(events, |front|);
      NewlyTrackedIsTruthful(cfg, front, c);
    } else {
      BarriersOfFront(events, |front|);
      var t := Run(cfg, front);
      StepOnCheckpoints(cfg, t, e);
      if e.BarrierPassed? {
        PruneKeepsEntries(RecordLive(t.checkpoints, t.live.Keys, e.checkpointId));
      }
      p := TrackedAreTruthful(cfg, front, c);
      TruthfulExtends(cfg, front, e, c, p);
    }
  }

  /**
   * A checkpoint is reported only when it is over: it was taken by an earlier barrier (or is
   * this one, with nothing live), and every window live at that barrier has been dropped since.
   */
  lemma ReportedIsTruthful(cfg: Config, events: seq<Event>, q: nat) returns (p: nat)
    requires cfg.Valid() && BarriersInOrder(events)
    requires q < |events| && events[q].BarrierPassed? && Reported(cfg, events, q).Some?
    ensures p <= q && events[p] == BarrierPassed(Reported(cfg, events, q).value)
    ensures forall x | x in Run(cfg, events[..p]).live :: DroppedBetween(cfg, events, x, p, q)
  {
    var front, id := events[..q], events[q].checkpointId;
    BarriersOfFront(events, q);
    var t := Run(cfg, front);
    var c := Reported(cfg, events, q).value;
    var r := RecordLive(t.checkpoints, t.live.Keys, id);
    assert c in CompletedIn(r);
    if c == id {
      p := q;
      CompleteMeansNoneLive(t.live.Keys);
    } else {
      assert r[c] == t.checkpoints[c];
      p := CompletedIsTruthful(cfg, events, q, c);
    }
  }

  /** A checkpoint is complete at its own barrier only if nothing is live. */
  lemma CompleteMeansNoneLive(live: set<Window>)
    ensures Complete(map x | x in live :: false) ==> live == {}
  {
    var entry := map x | x in live :: false;
    if x :| x in live {
      assert x in entry && !entry[x];
    }
  }

  /** A checkpoint tracked before the barrier, with all its windows marked. */
  lemma CompletedIsTruthful(cfg: Config, events: seq<Event>, q: nat, c: nat) returns (p: nat)
    requires cfg.Valid() && q < |events| && BarriersInOrder(events[..q])
    requires var t := Run(cfg, events[..q]); c in t.checkpoints && Complete(t.checkpoints[c])
    ensures p <= q && events[p] == BarrierPassed(c)
    ensures forall x | x in Run(cfg, events[..p]).live :: DroppedBetween(cfg, events, x, p, q)
  {
    var front := events[..q];
    p := TrackedAreTruthful(cfg, front, c);
    assert front[..p] == events[..p];
    forall x | x in Run(cfg, events[..p]).live ensures DroppedBetween(cfg, events, x, p, q) {
      assert Run(cfg, front).checkpoints[c][x];
      DroppedBetweenInPrefix(cfg, events, x, p, q);
    }
  }

  lemma DroppedBetweenInPrefix(cfg: Config, events: seq<Event>, x: Window, p: nat, q: nat)
    requires cfg.Valid() && q <= |events| && DroppedBetween(cfg, events[..q], x, p, q)
    ensures DroppedBetween(cfg, events, x, p, q)
  {
    var r: nat :| DroppedAt(cfg, events[..q], x, r) && p < r < q;
    assert events[..q][..r] == events[..r];
    assert DroppedAt(cfg, events, x, r);
  }

  // ----- every completed checkpoint is reported

  /** Some window that was live at the barrier of the checkpoint has not been dropped since. */
  ghost predicate Open(cfg: Config, events: seq<Event>, c: nat)
    requires cfg.Valid()
  {
    exists p: nat :: p < |events| && events[p] == BarrierPassed(c) && !Over(cfg, events, p, |events|)
  }

  /** Every window live at the barrier at `p` has been dropped before `q`. */
  ghost predicate Over(cfg: Config, events: seq<Event>, p: nat, q: nat)
    requires cfg.Valid() && p < |events| && q <= |events|
  {
    forall x | x in Run(cfg, events[..p]).live :: DroppedBetween(cfg, events, x, p, q)
  }

  /**
   * The checkpoints waited for, from the run alone: at each barrier those that are not yet over,
   * its own included, less the oldest if there are more than a hundred.
   */
  ghost function Waiting(cfg: Config, events: seq<Event>): set<nat>
    requires cfg.Valid()
    decreases |events|, 0
  {
    if events == [] then {}
    else if !events[|events| - 1].BarrierPassed? then Waiting(cfg, events[..|events| - 1])
    else
      var open := Uncompleted(cfg, events);
      if |open| > 100 then open - {MinOf(open)} else open
  }

  ghost function Candidates(cfg: Config, events: seq<Event>): set<nat>
    requires cfg.Valid() && events != [] && events[|events| - 1].BarrierPassed?
    decreases |events| - 1, 1
  {
    Waiting(cfg, events[..|events| - 1]) + {events[|events| - 1].checkpointId}
  }

  /** What the last barrier finds not yet over. */
  ghost function Uncompleted(cfg: Config, events: seq<Event>): set<nat>
    requires cfg.Valid() && events != [] && events[|events| - 1].BarrierPassed?
    decreases |events| - 1, 2
  {
    set c | c in Candidates(cfg, events) && Open(cfg, events, c)
  }

  lemma BarrierIsUnique(events: seq<Event>, p: nat, q: nat, c: nat)
    requires BarriersInOrder(events) && p < |events| && q < |events|
    requires events[p] == BarrierPassed(c) && events[q] == BarrierPassed(c)
    ensures p == q
  {
  }

  lemma OpenIffNotOver(cfg: Config, events: seq<Event>, c: nat, p: nat)
    requires cfg.Valid() && BarriersInOrder(events) && p < |events| && events[p] == BarrierPassed(c)
    ensures Open(cfg, events, c) <==> !Over(cfg, events, p, |events|)
  {
    if q: nat :| q < |events| && events[q] == BarrierPassed(c) && !Over(cfg, events, q, |events|) {
      BarrierIsUnique(events, p, q, c);
    }
  }

  /** A tracked checkpoint is complete after a barrier's snapshot exactly if it is over. */
  lemma CompleteIffOver(cfg: Config, front: seq<Event>, id: nat, c: nat)
    requires cfg.Valid() && BarriersInOrder(front + [BarrierPassed(id)])
    requires var t := Run(cfg, front); c in RecordLive(t.checkpoints, t.live.Keys, id)
    ensures var t := Run(cfg, front);
      Complete(RecordLive(t.checkpoints, t.live.Keys, id)[c]) <==> !Open(cfg, front + [BarrierPassed(id)], c)
  {
    var events, t := front + [BarrierPassed(id)], Run(cfg, front);
    assert events[..|front|] == front;
    if c == id {
      NewIsOverIffNoneLive(cfg, front, id);
    } else {
      BarriersOfFront(events, |front|);
      var p := TrackedAreTruthful(cfg, front, c);
      OldIsOverIffMarked(cfg, front, id, c, p);
    }
  }

  lemma NewIsOverIffNoneLive(cfg: Config, front: seq<Event>, id: nat)
    requires cfg.Valid() && BarriersInOrder(front + [BarrierPassed(id)])
    ensures var live := Run(cfg, front).live.Keys;
      Complete(map x | x in live :: false) <==> !Open(cfg, front + [BarrierPassed(id)], id)
  {
    var events, live := front + [BarrierPassed(id)], Run(cfg, front).live.Keys;
    assert events[..|front|] == front;
    OpenIffNotOver(cfg, events, id, |front|);
    CompleteMeansNoneLive(live);
    if x :| x in live {
      assert x in Run(cfg, events[..|front|]).live && !DroppedBetween(cfg, events, x, |front|, |events|);
    }
  }

  lemma OldIsOverIffMarked(cfg: Config, front: seq<Event>, id: nat, c: nat, p: nat)
    requires cfg.Valid() && BarriersInOrder(front + [BarrierPassed(id)]) && Truthful(cfg, front, c, p)
    ensures Complete(Run(cfg, front).checkpoints[c]) <==> !Open(cfg, front + [BarrierPassed(id)], c)
  {
    var events := front + [BarrierPassed(id)];
    var entry := Run(cfg, front).checkpoints[c];
    assert events[..p] == front[..p];
    OpenIffNotOver(cfg, events, c, p);
    forall x | x in entry ensures entry[x] <==> DroppedBetween(cfg, events, x, p, |events|) {
      DroppedBetweenSnoc(cfg, front, BarrierPassed(id), x, p);
    }
  }

  ghost predicate TracksWaiting(cfg: Config, events: seq<Event>)
    requires cfg.Valid()
  {
    Run(cfg, events).checkpoints.Keys == Waiting(cfg, events)
  }

  lemma CompletedAreOver(cfg: Config, front: seq<Event>, id: nat)
    requires cfg.Valid() && BarriersInOrder(front + [BarrierPassed(id)]) && TracksWaiting(cfg, front)
    ensures var events, t := front + [BarrierPassed(id)], Run(cfg, front);
      var r := RecordLive(t.checkpoints, t.live.Keys, id);
      && r.Keys == Candidates(cfg, events)
      && (forall c | c in r :: c in CompletedIn(r) <==> !Open(cfg, events, c))
  {
    var events, t := front + [BarrierPassed(id)], Run(cfg, front);
    assert events[..|front|] == front;
    var r := RecordLive(t.checkpoints, t.live.Keys, id);
    forall c | c in r ensures c in CompletedIn(r) <==> !Open(cfg, events, c) {
      CompleteIffOver(cfg, front, id, c);
    }
  }

  lemma SnapshotTracksWaiting(cfg: Config, front: seq<Event>, id: nat)
    requires cfg.Valid() && BarriersInOrder(front + [BarrierPassed(id)]) && TracksWaiting(cfg, front)
    ensures TracksWaiting(cfg, front + [BarrierPassed(id)])
  {
    var events, t := front + [BarrierPassed(id)], Run(cfg, front);
    assert events[..|front|] == front;
    var r := RecordLive(t.checkpoints, t.live.Keys, id);
    CompletedAreOver(cfg, front, id);
    var rest := r - CompletedIn(r);
    assert rest.Keys == Uncompleted(cfg, events);
    assert |rest| == |rest.Keys|;
  }

  /** The tracked checkpoints are exactly those waited for, in every run. */
  lemma {:induction false} TrackedAreWaiting(cfg: Config, events: seq<Event>)
    requires cfg.Valid() && BarriersInOrder(events)
    ensures TracksWaiting(cfg, events)
  {
    if events != [] {
      var front, e := events[..|events| - 1], events[|events| - 1];
      assert events == front + [e];
      BarriersOfFront(events, |front|);
      TrackedAreWaiting(cfg, front);
      if e.BarrierPassed? {
        SnapshotTracksWaiting(cfg, front, e.checkpointId);
      } else {
        StepOnCheckpoints(cfg, Run(cfg, front), e);
        if e.Advanced? {
          MarkKeepsSize(Run(cfg, front).checkpoints, Droppable(Run(cfg, front).live, FirstStart(cfg.windows, e.watermark)));
        }
      }
    }
  }

  /**
   * What a barrier reports, from the run alone: the greatest of the checkpoints waited for, its own
   * included, that are over; nothing if none is.
   */
  lemma ReportIsGreatest(cfg: Config, events: seq<Event>, q: nat)
    requires cfg.Valid() && BarriersInOrder(events) && q < |events| && events[q].BarrierPassed?
    ensures var upTo, report := events[..q + 1], Reported(cfg, events, q);
      && (forall c | c in Candidates(cfg, upTo) && !Open(cfg, upTo, c) :: report.Some? && c <= report.value)
      && (report.Some? ==> report.value in Candidates(cfg, upTo) && !Open(cfg, upTo, report.value))
  {
    assert events[..q + 1] == events[..q] + [BarrierPassed(events[q].checkpointId)];
    BarriersOfFront(events, q + 1);
    ReportOfBarrier(cfg, events[..q], events[q].checkpointId);
  }

  lemma ReportOfBarrier(cfg: Config, front: seq<Event>, id: nat)
    requires cfg.Valid() && BarriersInOrder(front + [BarrierPassed(id)])
    ensures var events, report := front + [BarrierPassed(id)], SnapshotState(Run(cfg, front), id).1;
      && (forall c | c in Candidates(cfg, events) && !Open(cfg, events, c) :: report.Some? && c <= report.value)
      && (report.Some? ==> report.value in Candidates(cfg, events) && !Open(cfg, events, report.value))
  {
    var events := front + [BarrierPassed(id)];
    BarriersOfFront(events, |front|);
    assert events[..|front|] == front;
    TrackedAreWaiting(cfg, front);
    CompletedAreOver(cfg, front, id);
    ReportIsMax(Run(cfg, front), id);
  }

  lemma ReportIsMax(t: Task, id: nat)
    ensures var done, report := CompletedIn(RecordLive(t.checkpoints, t.live.Keys, id)), SnapshotState(t, id).1;
      && (forall c | c in done :: report.Some? && c <= report.value)
      && (report.Some? ==> report.value in done)
  {
  }

  /** The bound of a hundred made the barrier at `r` give up the checkpoint: the oldest of those not over. */
  ghost predicate EvictedAt(cfg: Config, events: seq<Event>, c: nat, r: nat)
    requires cfg.Valid()
  {
    && r < |events| && events[r].BarrierPassed?
    && var open := Uncompleted(cfg, events[..r + 1]);
       |open| > 100 && c in open && forall d | d in open :: c <= d
  }

  ghost predicate ReportedAt(cfg: Config, events: seq<Event>, c: nat, r: nat)
    requires cfg.Valid()
  {
    r < |events| && events[r].BarrierPassed? && Reported(cfg, events, r).Some? && c <= Reported(cfg, events, r).value
  }

  lemma StaysOrIsReported(cfg: Config, events: seq<Event>, c: nat, r: nat)
    requires cfg.Valid() && BarriersInOrder(events) && r < |events| && events[r].BarrierPassed?
    requires c in Candidates(cfg, events[..r + 1]) && !EvictedAt(cfg, events, c, r)
    ensures c in Waiting(cfg, events[..r + 1]) || ReportedAt(cfg, events, c, r)
  {
    if Open(cfg, events[..r + 1], c) {
      OpenStays(cfg, events[..r + 1], c);
    } else {
      ClosedIsReported(cfg, events, c, r);
    }
  }

  lemma OpenStays(cfg: Config, events: seq<Event>, c: nat)
    requires cfg.Valid() && events != [] && events[|events| - 1].BarrierPassed?
    requires c in Candidates(cfg, events) && Open(cfg, events, c)
    requires var open := Uncompleted(cfg, events); |open| > 100 ==> exists d :: d in open && d < c
    ensures c in Waiting(cfg, events)
  {
  }

  lemma ClosedIsReported(cfg: Config, events: seq<Event>, c: nat, r: nat)
    requires cfg.Valid() && BarriersInOrder(events) && r < |events| && events[r].BarrierPassed?
    requires c in Candidates(cfg, events[..r + 1]) && !Open(cfg, events[..r + 1], c)
    ensures ReportedAt(cfg, events, c, r)
  {
    ReportIsGreatest(cfg, events, r);
  }

  lemma {:induction false} WaitingOrReported(cfg: Config, events: seq<Event>, c: nat, p: nat, n: nat)
    requires cfg.Valid() && BarriersInOrder(events) && p < n <= |events| && events[p] == BarrierPassed(c)
    requires forall r | p <= r < n :: !EvictedAt(cfg, events, c, r)
    ensures c in Waiting(cfg, events[..n]) || exists r :: p <= r < n && ReportedAt(cfg, events, c, r)
  {
    var m: nat := n - 1;
    assert events[..n][..m] == events[..m];
    if m > p {
      WaitingOrReported(cfg, events, c, p, m);
    }
    if m == p || (c in Waiting(cfg, events[..m]) && events[m].BarrierPassed?) {
      IsCandidate(cfg, events, c, m);
      StaysOrIsReported(cfg, events, c, m);
    }
  }

  /**
   * Every completed checkpoint is reported. Once all windows live at its barrier have been dropped,
   * the next barrier reports it or a later one, unless one before has, or the bound gave it up.
   */
  lemma CompletedIsReported(cfg: Config, events: seq<Event>, c: nat, p: nat, q: nat)
    requires cfg.Valid() && BarriersInOrder(events) && p <= q < |events|
    requires events[p] == BarrierPassed(c) && events[q].BarrierPassed? && Over(cfg, events, p, q)
    requires forall r | p <= r < q :: !EvictedAt(cfg, events, c, r)
    ensures exists r :: p <= r <= q && ReportedAt(cfg, events, c, r)
  {
    if p < q {
      WaitingOrReported(cfg, events, c, p, q);
    }
    if p == q || c in Waiting(cfg, events[..q]) {
      OverIsReported(cfg, events, c, p, q);
    }
  }

  lemma OverIsReported(cfg: Config, events: seq<Event>, c: nat, p: nat, q: nat)
    requires cfg.Valid() && BarriersInOrder(events) && p <= q < |events|
    requires events[p] == BarrierPassed(c) && events[q].BarrierPassed? && Over(cfg, events, p, q)
    requires p == q || c in Waiting(cfg, events[..q])
    ensures ReportedAt(cfg, events, c, q)
  {
    OverIsNotOpen(cfg, events, c, p, q);
    IsCandidate(cfg, events, c, q);
    ClosedIsReported(cfg, events, c, q);
  }

  lemma IsCandidate(cfg: Config, events: seq<Event>, c: nat, q: nat)
    requires cfg.Valid() && q < |events| && events[q].BarrierPassed?
    requires events[q] == BarrierPassed(c) || c in Waiting(cfg, events[..q])
    ensures c in Candidates(cfg, events[..q + 1])
  {
    assert events[..q + 1][..q] == events[..q];
  }

  lemma DroppedInPrefix(cfg: Config, events: seq<Event>, x: Window, p: nat, q: nat)
    requires cfg.Valid() && q < |events| && DroppedBetween(cfg, events, x, p, q)
    ensures DroppedBetween(cfg, events[..q + 1], x, p, q + 1)
  {
    var r: nat :| DroppedAt(cfg, events, x, r) && p < r < q;
    assert events[..q + 1][..r] == events[..r];
    assert DroppedAt(cfg, events[..q + 1], x, r);
  }

  lemma OverInPrefix(cfg: Config, events: seq<Event>, p: nat, q: nat)
    requires cfg.Valid() && p <= q < |events| && Over(cfg, events, p, q)
    ensures Over(cfg, events[..q + 1], p, q + 1)
  {
    assert events[..q + 1][..p] == events[..p];
    forall x | x in Run(cfg, events[..p]).live ensures DroppedBetween(cfg, events[..q + 1], x, p, q + 1) {
      DroppedInPrefix(cfg, events, x, p, q);
    }
  }

  lemma OverIsNotOpen(cfg: Config, events: seq<Event>, c: nat, p: nat, q: nat)
    requires cfg.Valid() && BarriersInOrder(events) && p <= q < |events|
    requires events[p] == BarrierPassed(c) && Over(cfg, events, p, q)
    ensures !Open(cfg, events[..q + 1], c)
  {
    BarriersOfFront(events, q + 1);
    OverInPrefix(cfg, events, p, q);
    OpenIffNotOver(cfg, events[..q + 1], c, p);
  }
}
