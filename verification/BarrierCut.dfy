/**
 * Barriers through a whole graph of tasks: alignment in `source_runnable.rs`, the broadcast of
 * an aligned barrier to every child partition in `sink_runnable.rs`.
 *
 * Channels are logs with read positions. Records carry no meaning here: a task may produce one
 * for any child at any time. A snapshot is what a task has read from each parent and sent to each
 * child at the moment its barrier is aligned.
 */
module BarrierCut {
  import opened Prelude
  import opened BarrierAlignment

  datatype Message = Record(payload: nat) | Barrier(id: nat)

  /** From a parent task to a child task. */
  type Edge = (nat, nat)

  datatype Graph = Graph(tasks: set<nat>, edges: set<Edge>) {
    ghost predicate Valid() {
      forall e | e in edges :: e.0 in tasks && e.1 in tasks && e.0 != e.1
    }

    function Parents(t: nat): set<nat> { set e | e in edges && e.1 == t :: e.0 }

    function Children(t: nat): set<nat> { set e | e in edges && e.0 == t :: e.1 }
  }

  datatype Snapshot = Snapshot(read: map<nat, nat>, sent: map<nat, nat>)

  datatype Task = Task(seen: seq<Arrival>, align: Align, snapshots: map<nat, Snapshot>)

  datatype State = State(logs: map<Edge, seq<Message>>, read: map<Edge, nat>, tasks: map<nat, Task>)

  datatype Action =
    /** The checkpoint timer of a source task. */
    | Tick(task: nat, id: nat)
    | Produce(from: nat, to: nat, payload: nat)
    | Consume(parent: nat, child: nat)

  function Init(g: Graph): State {
    State(map e | e in g.edges :: [], map e | e in g.edges :: 0, map t | t in g.tasks :: Task([], NEW_ALIGN, map[]))
  }

  ghost predicate Shaped(g: Graph, s: State) {
    s.logs.Keys == s.read.Keys == g.edges && s.tasks.Keys == g.tasks
  }

  /** The aligned barrier: take the snapshot, then send the barrier to every child. */
  function Fire(g: Graph, s: State, t: nat, id: nat): State
    requires g.Valid() && s.logs.Keys == s.read.Keys == g.edges && t in s.tasks
  {
    var snapshot := Snapshot(
      map p | p in g.Parents(t) && (p, t) in g.edges :: s.read[(p, t)],
      map c | c in g.Children(t) && (t, c) in g.edges :: |s.logs[(t, c)]|);
    s.(logs := map e | e in g.edges :: if e.0 == t then s.logs[e] + [Barrier(id)] else s.logs[e],
       tasks := s.tasks[t := s.tasks[t].(snapshots := s.tasks[t].snapshots[id := snapshot])])
  }

  predicate Enabled(g: Graph, s: State, a: Action)
    requires s.logs.Keys == s.read.Keys == g.edges && s.tasks.Keys == g.tasks
  {
    match a
    case Tick(t, id) => t in g.tasks && g.Parents(t) == {} && forall b | b in s.tasks[t].snapshots :: b < id
    case Produce(t, c, _) => (t, c) in g.edges
    case Consume(p, t) => (p, t) in g.edges && s.read[(p, t)] < |s.logs[(p, t)]|
  }

  /** What a task knows after reading a message of a parent. */
  function Told(task: Task, p: nat, m: Message, align: Align): Task {
    if m.Barrier? then task.(seen := task.seen + [Arrival(p, m.id)], align := align) else task
  }

  /** The state after a message is read, before an aligned barrier is passed on. */
  function Moved(s: State, p: nat, t: nat, align: Align): State
    requires (p, t) in s.read && (p, t) in s.logs && t in s.tasks && s.read[(p, t)] < |s.logs[(p, t)]|
  {
    s.(read := s.read[(p, t) := s.read[(p, t)] + 1],
       tasks := s.tasks[t := Told(s.tasks[t], p, s.logs[(p, t)][s.read[(p, t)]], align)])
  }

  function ConsumeNext(g: Graph, s: State, p: nat, t: nat): Outcome<State>
    requires g.Valid() && s.logs.Keys == s.read.Keys == g.edges && s.tasks.Keys == g.tasks
    requires Enabled(g, s, Consume(p, t))
  {
    match s.logs[(p, t)][s.read[(p, t)]]
    case Record(_) => Done(s.(read := s.read[(p, t) := s.read[(p, t)] + 1]))
    case Barrier(id) =>
      match Apply(|g.Parents(t)|, s.tasks[t].align, id)
      case Panic => Panic
      case Done((align, aligned)) =>
        var heard := Moved(s, p, t, align);
        Done(if aligned then Fire(g, heard, t, id) else heard)
  }

  function Step(g: Graph, s: State, a: Action): (r: Outcome<State>)
    requires g.Valid() && s.logs.Keys == s.read.Keys == g.edges && s.tasks.Keys == g.tasks
    ensures r.Done? ==> r.value.logs.Keys == r.value.read.Keys == g.edges && r.value.tasks.Keys == g.tasks
  {
    if !Enabled(g, s, a) then Done(s)
    else
      match a
      case Tick(t, id) => Done(Fire(g, s, t, id))
      case Produce(t, c, x) => Done(s.(logs := s.logs[(t, c) := s.logs[(t, c)] + [Record(x)]]))
      case Consume(p, t) => ConsumeNext(g, s, p, t)
  }

  function Exec(g: Graph, actions: seq<Action>): (r: Outcome<State>)
    requires g.Valid()
    ensures r.Done? ==> r.value.logs.Keys == r.value.read.Keys == g.edges && r.value.tasks.Keys == g.tasks
  {
    if actions == [] then Done(Init(g))
    else
      match Exec(g, actions[..|actions| - 1])
      case Panic => Panic
      case Done(s) => Step(g, s, actions[|actions| - 1])
  }

  // ----- the invariant

  function BarrierIds(log: seq<Message>): seq<nat> {
    if log == [] then []
    else BarrierIds(log[..|log| - 1]) + (if log[|log| - 1].Barrier? then [log[|log| - 1].id] else [])
  }

  function OfParent(seen: seq<Arrival>, p: nat): seq<nat> {
    if seen == [] then []
    else OfParent(seen[..|seen| - 1], p) + (if seen[|seen| - 1].parent == p then [seen[|seen| - 1].id] else [])
  }

  ghost predicate Increasing(ids: seq<nat>) {
    forall i, j | 0 <= i < j < |ids| :: ids[i] < ids[j]
  }

  ghost predicate BarriersIncrease(log: seq<Message>) {
    forall i, j | 0 <= i < j < |log| && log[i].Barrier? && log[j].Barrier? :: log[i].id < log[j].id
  }

  /** A channel holds exactly the barriers its parent has fired, each where the snapshot says. */
  ghost predicate LogInv(log: seq<Message>, snapshots: map<nat, Snapshot>, child: nat) {
    && BarriersIncrease(log)
    && (forall k | 0 <= k < |log| && log[k].Barrier? ::
          log[k].id in snapshots && child in snapshots[log[k].id].sent && snapshots[log[k].id].sent[child] == k)
    && (forall b | b in snapshots ::
          child in snapshots[b].sent && snapshots[b].sent[child] < |log| && log[snapshots[b].sent[child]] == Barrier(b))
  }

  /** Every snapshot of a task covers the barrier on the channel of this parent. */
  ghost predicate CoveredBy(log: seq<Message>, read: nat, snapshots: map<nat, Snapshot>, parent: nat)
    requires read <= |log|
  {
    forall b | b in snapshots ::
      parent in snapshots[b].read && snapshots[b].read[parent] <= read && Barrier(b) in log[..snapshots[b].read[parent]]
  }

  /** What relates a channel to the tasks at its ends. */
  ghost predicate EdgeOk(log: seq<Message>, read: nat, from: Task, to: Task, p: nat, t: nat) {
    && read <= |log|
    && LogInv(log, from.snapshots, t)
    && CoveredBy(log, read, to.snapshots, p)
    && OfParent(to.seen, p) == BarrierIds(log[..read])
  }

  ghost predicate TaskOk(parents: set<nat>, task: Task) {
    FromParents(task.seen, parents) && IncreasingPerParent(task.seen) && After(|parents|, task.seen) == Done(task.align)
  }

  ghost predicate HasRead(s: State, e: Edge, id: nat)
    requires e in s.logs && e in s.read
  {
    s.read[e] <= |s.logs[e]| && Barrier(id) in s.logs[e][..s.read[e]]
  }

  ghost predicate EdgeInv(g: Graph, s: State, e: Edge)
    requires Shaped(g, s) && g.Valid() && e in g.edges
  {
    EdgeOk(s.logs[e], s.read[e], s.tasks[e.0], s.tasks[e.1], e.0, e.1)
  }

  ghost predicate Inv(g: Graph, s: State) {
    && g.Valid() && Shaped(g, s)
    && (forall e {:trigger EdgeInv(g, s, e)} | e in g.edges :: EdgeInv(g, s, e))
    && (forall t {:trigger TaskOk(g.Parents(t), s.tasks[t])} | t in g.tasks :: TaskOk(g.Parents(t), s.tasks[t]))
  }

  // ----- sequences of barriers

  lemma {:induction false} BarrierIdsIncrease(log: seq<Message>)
    requires BarriersIncrease(log)
    ensures Increasing(BarrierIds(log))
    ensures forall b :: b in BarrierIds(log) <==> Barrier(b) in log
  {
    if log != [] {
      var front, m := log[..|log| - 1], log[|log| - 1];
      assert log == front + [m];
      BarrierIdsIncrease(front);
      var ids := BarrierIds(front);
      if m.Barrier? {
        forall k | 0 <= k < |ids| ensures ids[k] < m.id {
          assert ids[k] in ids && Barrier(ids[k]) in front;
          var n :| 0 <= n < |front| && front[n] == Barrier(ids[k]);
          assert log[n] == front[n];
        }
      }
    }
  }

  lemma {:induction false} OfParentMembers(seen: seq<Arrival>, p: nat)
    ensures forall b :: b in OfParent(seen, p) <==> Arrival(p, b) in seen
  {
    if seen != [] {
      OfParentMembers(seen[..|seen| - 1], p);
      assert seen == seen[..|seen| - 1] + [seen[|seen| - 1]];
    }
  }

  lemma BarriersIncreaseOfPrefix(log: seq<Message>, n: nat)
    requires BarriersIncrease(log) && n <= |log|
    ensures BarriersIncrease(log[..n])
  {
  }

  // ----- every action keeps it

  lemma AppendBarrier(log: seq<Message>, snapshots: map<nat, Snapshot>, child: nat, id: nat, snapshot: Snapshot)
    requires LogInv(log, snapshots, child) && forall b | b in snapshots :: b < id
    requires child in snapshot.sent && snapshot.sent[child] == |log|
    ensures LogInv(log + [Barrier(id)], snapshots[id := snapshot], child)
  {
    var log', snapshots' := log + [Barrier(id)], snapshots[id := snapshot];
    forall i, j | 0 <= i < j < |log'| && log'[i].Barrier? && log'[j].Barrier? ensures log'[i].id < log'[j].id {
      if j == |log| {
        assert log[i].id in snapshots;
      }
    }
  }

  lemma AppendRecord(log: seq<Message>, snapshots: map<nat, Snapshot>, child: nat, x: nat)
    requires LogInv(log, snapshots, child)
    ensures LogInv(log + [Record(x)], snapshots, child)
  {
  }

  lemma CoveredExtends(log: seq<Message>, log': seq<Message>, read: nat, read': nat, snapshots: map<nat, Snapshot>, parent: nat)
    requires log <= log' && read <= |log| && read <= read' <= |log'|
    requires CoveredBy(log, read, snapshots, parent)
    ensures CoveredBy(log', read', snapshots, parent)
    ensures log[..read] == log'[..read]
  {
    forall b | b in snapshots ensures Barrier(b) in log'[..snapshots[b].read[parent]] {
      var n := snapshots[b].read[parent];
      assert log[..n] == log'[..n];
    }
  }

  /** An earlier snapshot's barrier precedes the one being read. */
  lemma SnapshotsAreEarlier(log: seq<Message>, read: nat, snapshots: map<nat, Snapshot>, parent: nat)
    requires BarriersIncrease(log) && read < |log| && log[read].Barrier?
    requires CoveredBy(log, read, snapshots, parent)
    ensures forall b | b in snapshots :: b < log[read].id
  {
    forall b | b in snapshots ensures b < log[read].id {
      var n := snapshots[b].read[parent];
      var k :| 0 <= k < |log[..n]| && log[..n][k] == Barrier(b);
      assert log[k] == Barrier(b) && k < read;
    }
  }

  /** The parent fires: the barrier goes to the end of the channel. */
  lemma ParentFires(log: seq<Message>, read: nat, from: Task, to: Task, p: nat, t: nat, id: nat, snapshot: Snapshot)
    requires EdgeOk(log, read, from, to, p, t)
    requires forall b | b in from.snapshots :: b < id
    requires t in snapshot.sent && snapshot.sent[t] == |log|
    ensures EdgeOk(log + [Barrier(id)], read, from.(snapshots := from.snapshots[id := snapshot]), to, p, t)
  {
    AppendBarrier(log, from.snapshots, t, id, snapshot);
    CoveredExtends(log, log + [Barrier(id)], read, read, to.snapshots, p);
  }

  /** The child fires: the barrier is in the part of the channel it has read. */
  lemma ChildFires(log: seq<Message>, read: nat, from: Task, to: Task, p: nat, t: nat, id: nat, snapshot: Snapshot)
    requires EdgeOk(log, read, from, to, p, t)
    requires Barrier(id) in log[..read]
    requires p in snapshot.read && snapshot.read[p] == read
    ensures EdgeOk(log, read, from, to.(snapshots := to.snapshots[id := snapshot]), p, t)
  {
  }

  lemma FireKeepsEdge(g: Graph, s: State, t: nat, id: nat, e: Edge)
    requires g.Valid() && Shaped(g, s) && t in g.tasks && e in g.edges && EdgeInv(g, s, e)
    requires forall b | b in s.tasks[t].snapshots :: b < id
    requires e.1 == t ==> HasRead(s, e, id)
    ensures EdgeInv(g, Fire(g, s, t, id), e)
  {
    var s' := Fire(g, s, t, id);
    var snapshot := s'.tasks[t].snapshots[id];
    if e.0 == t {
      assert (t, e.1) == e && e.1 in g.Children(t);
      ParentFires(s.logs[e], s.read[e], s.tasks[t], s.tasks[e.1], t, e.1, id, snapshot);
    } else if e.1 == t {
      assert (e.0, t) == e && e.0 in g.Parents(t);
      ChildFires(s.logs[e], s.read[e], s.tasks[e.0], s.tasks[t], e.0, t, id, snapshot);
    }
  }

  lemma FireKeepsInv(g: Graph, s: State, t: nat, id: nat)
    requires Inv(g, s) && t in g.tasks
    requires forall b | b in s.tasks[t].snapshots :: b < id
    requires forall p | (p, t) in g.edges :: HasRead(s, (p, t), id)
    ensures Inv(g, Fire(g, s, t, id))
  {
    var s' := Fire(g, s, t, id);
    forall e | e in g.edges ensures EdgeInv(g, s', e) {
      assert EdgeInv(g, s, e) && e == (e.0, e.1);
      FireKeepsEdge(g, s, t, id, e);
    }
    FireKeepsTasks(g, s, t, id);
  }

  lemma FireKeepsTasks(g: Graph, s: State, t: nat, id: nat)
    requires g.Valid() && Shaped(g, s) && t in g.tasks && forall u | u in g.tasks :: TaskOk(g.Parents(u), s.tasks[u])
    ensures forall u | u in g.tasks :: TaskOk(g.Parents(u), Fire(g, s, t, id).tasks[u])
  {
    var s' := Fire(g, s, t, id);
    forall u | u in g.tasks ensures TaskOk(g.Parents(u), s'.tasks[u]) {
      assert TaskOk(g.Parents(u), s.tasks[u]);
      assert s'.tasks[u].seen == s.tasks[u].seen && s'.tasks[u].align == s.tasks[u].align;
    }
  }

  lemma ProduceKeepsInv(g: Graph, s: State, t: nat, c: nat, x: nat)
    requires Inv(g, s) && (t, c) in g.edges
    ensures Inv(g, s.(logs := s.logs[(t, c) := s.logs[(t, c)] + [Record(x)]]))
  {
    var s' := s.(logs := s.logs[(t, c) := s.logs[(t, c)] + [Record(x)]]);
    forall e | e in g.edges ensures EdgeInv(g, s', e) {
      assert EdgeInv(g, s, e);
      if e == (t, c) {
        AppendRecord(s.logs[e], s.tasks[t].snapshots, c, x);
        CoveredExtends(s.logs[e], s'.logs[e], s.read[e], s.read[e], s.tasks[c].snapshots, t);
      }
    }
    forall u | u in g.tasks ensures TaskOk(g.Parents(u), s'.tasks[u]) {
      assert TaskOk(g.Parents(u), s.tasks[u]);
    }
  }

  lemma BarrierIdsSnoc(log: seq<Message>, read: nat)
    requires read < |log|
    ensures BarrierIds(log[..read + 1]) ==
      if log[read].Barrier? then BarrierIds(log[..read]) + [log[read].id] else BarrierIds(log[..read])
  {
    assert log[..read + 1][..read] == log[..read];
  }

  lemma OfParentSnoc(seen: seq<Arrival>, a: Arrival, p: nat)
    ensures OfParent(seen + [a], p) == if a.parent == p then OfParent(seen, p) + [a.id] else OfParent(seen, p)
  {
    assert (seen + [a])[..|seen|] == seen;
  }

  lemma ReadKeepsEdge(log: seq<Message>, read: nat, from: Task, to: Task, p: nat, t: nat, align: Align)
    requires EdgeOk(log, read, from, to, p, t) && read < |log|
    ensures EdgeOk(log, read + 1, from, Told(to, p, log[read], align), p, t)
  {
    BarrierIdsSnoc(log, read);
    CoveredExtends(log, log, read, read + 1, to.snapshots, p);
    if log[read].Barrier? {
      OfParentSnoc(to.seen, Arrival(p, log[read].id), p);
    }
  }

  lemma ReadKeepsOtherEdge(log: seq<Message>, read: nat, from: Task, to: Task, p: nat, t: nat, q: nat, m: Message, align: Align)
    requires EdgeOk(log, read, from, to, p, t) && p != q
    ensures EdgeOk(log, read, from, Told(to, q, m, align), p, t)
  {
    if m.Barrier? {
      OfParentSnoc(to.seen, Arrival(q, m.id), p);
    }
  }

  lemma NextSeenIncreases(log: seq<Message>, read: nat, from: Task, to: Task, p: nat, t: nat)
    requires EdgeOk(log, read, from, to, p, t) && read < |log| && log[read].Barrier?
    requires IncreasingPerParent(to.seen)
    ensures IncreasingPerParent(to.seen + [Arrival(p, log[read].id)])
  {
    var a, seen := Arrival(p, log[read].id), to.seen;
    OfParentMembers(seen, p);
    BarriersIncreaseOfPrefix(log, read);
    BarrierIdsIncrease(log[..read]);
    forall i | 0 <= i < |seen| && seen[i].parent == p ensures seen[i].id < a.id {
      assert seen[i] == Arrival(p, seen[i].id) && seen[i] in seen;
      assert Barrier(seen[i].id) in log[..read];
      var k :| 0 <= k < read && log[..read][k] == Barrier(seen[i].id);
      assert log[k] == Barrier(seen[i].id);
    }
  }

  /** Reading a barrier never makes alignment panic, and it aligns only what every parent has sent. */
  lemma AlignmentStep(parents: set<nat>, log: seq<Message>, read: nat, from: Task, to: Task, p: nat, t: nat)
    requires EdgeOk(log, read, from, to, p, t) && read < |log| && log[read].Barrier?
    requires TaskOk(parents, to) && p in parents
    ensures var r := Apply(|parents|, to.align, log[read].id);
      && r.Done?
      && TaskOk(parents, Told(to, p, log[read], r.value.0))
      && (r.value.1 ==> Senders(to.seen + [Arrival(p, log[read].id)], log[read].id) == parents)
  {
    var a := Arrival(p, log[read].id);
    NextSeenIncreases(log, read, from, to, p, t);
    AlwaysCounts(parents, to.seen);
    StepCounts(parents, to.seen, to.align, a);
    assert (to.seen + [a])[..|to.seen|] == to.seen;
  }

  lemma MoveKeepsEdge(g: Graph, s: State, p: nat, t: nat, align: Align, e: Edge)
    requires g.Valid() && Shaped(g, s) && Enabled(g, s, Consume(p, t)) && e in g.edges && EdgeInv(g, s, e)
    ensures EdgeInv(g, Moved(s, p, t, align), e)
  {
    if e == (p, t) {
      ReadKeepsEdge(s.logs[e], s.read[e], s.tasks[p], s.tasks[t], p, t, align);
    } else if e.1 == t {
      ReadKeepsOtherEdge(s.logs[e], s.read[e], s.tasks[e.0], s.tasks[t], e.0, t, p, s.logs[(p, t)][s.read[(p, t)]], align);
    }
  }

  lemma MoveKeepsInv(g: Graph, s: State, p: nat, t: nat, align: Align)
    requires Inv(g, s) && Enabled(g, s, Consume(p, t))
    requires TaskOk(g.Parents(t), Told(s.tasks[t], p, s.logs[(p, t)][s.read[(p, t)]], align))
    ensures Inv(g, Moved(s, p, t, align))
  {
    var s' := Moved(s, p, t, align);
    forall e | e in g.edges ensures EdgeInv(g, s', e) {
      assert EdgeInv(g, s, e);
      MoveKeepsEdge(g, s, p, t, align, e);
    }
    forall u | u in g.tasks ensures TaskOk(g.Parents(u), s'.tasks[u]) {
      assert TaskOk(g.Parents(u), s.tasks[u]);
    }
  }

  /** An aligned barrier is in the read part of every incoming channel. */
  lemma AlignedIsComplete(log: seq<Message>, read: nat, from: Task, to: Task, q: nat, t: nat, id: nat)
    requires EdgeOk(log, read, from, to, q, t) && q in Senders(to.seen, id)
    ensures Barrier(id) in log[..read]
  {
    var a :| a in to.seen && a.id == id && a.parent == q;
    assert a == Arrival(q, id);
    OfParentMembers(to.seen, q);
    BarriersIncreaseOfPrefix(log, read);
    BarrierIdsIncrease(log[..read]);
  }

  lemma ConsumeKeepsInv(g: Graph, s: State, p: nat, t: nat)
    requires Inv(g, s) && Enabled(g, s, Consume(p, t))
    ensures ConsumeNext(g, s, p, t).Done? && Inv(g, ConsumeNext(g, s, p, t).value)
  {
    if s.logs[(p, t)][s.read[(p, t)]].Record? {
      assert TaskOk(g.Parents(t), s.tasks[t]);
      MoveKeepsInv(g, s, p, t, s.tasks[t].align);
      assert s.tasks[t := s.tasks[t]] == s.tasks;
    } else {
      BarrierKeepsInv(g, s, p, t);
    }
  }

  /** The alignment step of a task that reads a barrier. */
  lemma ReadsBarrier(g: Graph, s: State, p: nat, t: nat)
    requires Inv(g, s) && Enabled(g, s, Consume(p, t)) && s.logs[(p, t)][s.read[(p, t)]].Barrier?
    ensures var e := s.logs[(p, t)][s.read[(p, t)]];
      var r := Apply(|g.Parents(t)|, s.tasks[t].align, e.id);
      && r.Done?
      && TaskOk(g.Parents(t), Told(s.tasks[t], p, e, r.value.0))
      && (r.value.1 ==> Senders(s.tasks[t].seen + [Arrival(p, e.id)], e.id) == g.Parents(t))
  {
    assert EdgeInv(g, s, (p, t)) && TaskOk(g.Parents(t), s.tasks[t]);
    assert p in g.Parents(t) by { assert (p, t) in g.edges; }
    AlignmentStep(g.Parents(t), s.logs[(p, t)], s.read[(p, t)], s.tasks[p], s.tasks[t], p, t);
  }

  lemma BarrierKeepsInv(g: Graph, s: State, p: nat, t: nat)
    requires Inv(g, s) && Enabled(g, s, Consume(p, t)) && s.logs[(p, t)][s.read[(p, t)]].Barrier?
    ensures ConsumeNext(g, s, p, t).Done? && Inv(g, ConsumeNext(g, s, p, t).value)
  {
    ReadsBarrier(g, s, p, t);
    var id := s.logs[(p, t)][s.read[(p, t)]].id;
    var (align, aligned) := Apply(|g.Parents(t)|, s.tasks[t].align, id).value;
    MoveKeepsInv(g, s, p, t, align);
    if aligned {
      AlignedKeepsInv(g, s, p, t, align);
    }
  }

  lemma AlignedKeepsInv(g: Graph, s: State, p: nat, t: nat, align: Align)
    requires Inv(g, s) && Enabled(g, s, Consume(p, t)) && s.logs[(p, t)][s.read[(p, t)]].Barrier?
    requires Inv(g, Moved(s, p, t, align))
    requires var id := s.logs[(p, t)][s.read[(p, t)]].id;
      Senders(s.tasks[t].seen + [Arrival(p, id)], id) == g.Parents(t)
    ensures Inv(g, Fire(g, Moved(s, p, t, align), t, s.logs[(p, t)][s.read[(p, t)]].id))
  {
    var id := s.logs[(p, t)][s.read[(p, t)]].id;
    var s2 := Moved(s, p, t, align);
    assert EdgeInv(g, s, (p, t));
    SnapshotsAreEarlier(s.logs[(p, t)], s.read[(p, t)], s.tasks[t].snapshots, p);
    forall q | (q, t) in g.edges ensures HasRead(s2, (q, t), id) {
      assert q in g.Parents(t);
      assert EdgeInv(g, s2, (q, t));
      AlignedIsComplete(s2.logs[(q, t)], s2.read[(q, t)], s2.tasks[q], s2.tasks[t], q, t, id);
    }
    FireKeepsInv(g, s2, t, id);
  }

  /** In every run, whatever the interleaving of the channels, the source's `unreachable!` is not
      reached anywhere in the graph. */
  lemma {:induction false} Reachable(g: Graph, actions: seq<Action>)
    requires g.Valid()
    ensures Exec(g, actions).Done? && Inv(g, Exec(g, actions).value)
  {
    if actions == [] {
      InitHolds(g);
    } else {
      var front, a := actions[..|actions| - 1], actions[|actions| - 1];
      Reachable(g, front);
      var s := Exec(g, front).value;
      if Enabled(g, s, a) {
        match a
        case Tick(t, id) =>
          assert forall p | (p, t) in g.edges :: p in g.Parents(t);
          FireKeepsInv(g, s, t, id);
        case Produce(t, c, x) => ProduceKeepsInv(g, s, t, c, x);
        case Consume(p, t) => ConsumeKeepsInv(g, s, p, t);
      }
    }
  }

  lemma InitHolds(g: Graph)
    requires g.Valid()
    ensures Inv(g, Init(g))
  {
    var s := Init(g);
    forall e | e in g.edges ensures EdgeInv(g, s, e) {
      assert s.logs[e][..s.read[e]] == [];
    }
  }

  // ----- the cut

  /** On one channel: what the parent sent before its snapshot of `b`, and the barrier itself, has been
      read by the child before its own snapshot of `b`. */
  ghost predicate NothingMissed(s: State, p: nat, t: nat, b: nat)
    requires p in s.tasks && t in s.tasks && (p, t) in s.logs
  {
    var ps, ts := s.tasks[p].snapshots, s.tasks[t].snapshots;
    && b in ps && b in ts
    && t in ps[b].sent && p in ts[b].read
    && ps[b].sent[t] < |s.logs[(p, t)]| && s.logs[(p, t)][ps[b].sent[t]] == Barrier(b)
    && ps[b].sent[t] < ts[b].read[p]
  }

  lemma ParentFiredFirst(g: Graph, s: State, p: nat, t: nat, b: nat)
    requires Inv(g, s) && (p, t) in g.edges && b in s.tasks[t].snapshots
    ensures NothingMissed(s, p, t, b)
  {
    assert EdgeInv(g, s, (p, t));
    var log, n := s.logs[(p, t)], s.tasks[t].snapshots[b].read[p];
    var k :| 0 <= k < |log[..n]| && log[..n][k] == Barrier(b);
    assert log[k] == Barrier(b);
  }

  ghost predicate IsPath(g: Graph, path: seq<nat>) {
    path != [] && forall i | 0 <= i < |path| - 1 :: (path[i], path[i + 1]) in g.edges
  }

  /**
   * The at-least-once cut. In every reachable state of every task graph, if a task has taken its
   * snapshot for a checkpoint, then along every path that leads to it every task has taken
   * its snapshot for the same checkpoint, and on every channel of the path all that was sent
   * before the sender's snapshot was read before the receiver's.
   */
  lemma AtLeastOnceCut(g: Graph, actions: seq<Action>, path: seq<nat>, b: nat)
    requires g.Valid() && Exec(g, actions).Done? && IsPath(g, path)
    requires path[|path| - 1] in g.tasks && b in Exec(g, actions).value.tasks[path[|path| - 1]].snapshots
    ensures forall i | 0 <= i < |path| :: path[i] in g.tasks && b in Exec(g, actions).value.tasks[path[i]].snapshots
    ensures forall i | 0 <= i < |path| - 1 :: NothingMissed(Exec(g, actions).value, path[i], path[i + 1], b)
  {
    Reachable(g, actions);
    var s := Exec(g, actions).value;
    forall p, t, c | (p, t) in g.edges && c in s.tasks[t].snapshots ensures NothingMissed(s, p, t, c) {
      ParentFiredFirst(g, s, p, t, c);
    }
    CutAlongPath(g, s, path, b);
  }

  lemma {:induction false} CutAlongPath(g: Graph, s: State, path: seq<nat>, b: nat)
    requires g.Valid() && Shaped(g, s) && IsPath(g, path)
    requires forall p, t, c | (p, t) in g.edges && c in s.tasks[t].snapshots :: NothingMissed(s, p, t, c)
    requires path[|path| - 1] in g.tasks && b in s.tasks[path[|path| - 1]].snapshots
    ensures forall i | 0 <= i < |path| :: path[i] in g.tasks && b in s.tasks[path[i]].snapshots
    ensures forall i | 0 <= i < |path| - 1 :: NothingMissed(s, path[i], path[i + 1], b)
  {
    if |path| > 1 {
      var front, n := path[..|path| - 1], |path| - 2;
      assert (path[n], path[n + 1]) in g.edges;
      assert NothingMissed(s, path[n], path[n + 1], b);
      FrontIsPath(g, path);
      CutAlongPath(g, s, front, b);
      forall i | 0 <= i < |path| - 1 ensures NothingMissed(s, path[i], path[i + 1], b) {
        if i < |front| - 1 {
          assert NothingMissed(s, front[i], front[i + 1], b);
        }
      }
    }
  }

  lemma FrontIsPath(g: Graph, path: seq<nat>)
    requires IsPath(g, path) && |path| > 1
    ensures IsPath(g, path[..|path| - 1])
  {
    var front := path[..|path| - 1];
    forall i | 0 <= i < |front| - 1 ensures (front[i], front[i + 1]) in g.edges {
      assert (path[i], path[i + 1]) in g.edges;
    }
  }

  /** Snapshots are kept as they were, and a new one has a greater id than all of them. */
  ghost predicate OnlyNewer(before: map<nat, Snapshot>, after: map<nat, Snapshot>) {
    && (forall b | b in before :: b in after && after[b] == before[b])
    && (forall id, b | id in after && id !in before && b in before :: b < id)
  }

  lemma NewestIsNewer(before: map<nat, Snapshot>, id: nat, snapshot: Snapshot)
    requires forall b | b in before :: b < id
    ensures OnlyNewer(before, before[id := snapshot])
  {
  }

  /** Firing adds one snapshot to one task. */
  lemma FireAddsSnapshot(g: Graph, s: State, t: nat, id: nat)
    requires g.Valid() && Shaped(g, s) && t in g.tasks
    ensures var s' := Fire(g, s, t, id);
      && id in s'.tasks[t].snapshots && s'.tasks[t].snapshots == s.tasks[t].snapshots[id := s'.tasks[t].snapshots[id]]
      && forall u | u in g.tasks && u != t :: s'.tasks[u] == s.tasks[u]
  {
  }

  lemma FireOnlyAddsNewer(g: Graph, s: State, t: nat, id: nat)
    requires g.Valid() && Shaped(g, s) && t in g.tasks && forall b | b in s.tasks[t].snapshots :: b < id
    ensures OnlyNewer(s.tasks[t].snapshots, Fire(g, s, t, id).tasks[t].snapshots)
    ensures forall u | u in g.tasks && u != t :: Fire(g, s, t, id).tasks[u] == s.tasks[u]
  {
    FireAddsSnapshot(g, s, t, id);
    NewestIsNewer(s.tasks[t].snapshots, id, Fire(g, s, t, id).tasks[t].snapshots[id]);
  }

  lemma ConsumeOnlyAddsNewer(g: Graph, s: State, p: nat, t: nat)
    requires g.Valid() && Shaped(g, s) && Enabled(g, s, Consume(p, t)) && EdgeInv(g, s, (p, t))
    requires ConsumeNext(g, s, p, t).Done?
    ensures OnlyNewer(s.tasks[t].snapshots, ConsumeNext(g, s, p, t).value.tasks[t].snapshots)
    ensures forall u | u in g.tasks && u != t :: ConsumeNext(g, s, p, t).value.tasks[u] == s.tasks[u]
  {
    var log, n, task := s.logs[(p, t)], s.read[(p, t)], s.tasks[t];
    if log[n].Barrier? {
      SnapshotsAreEarlier(log, n, task.snapshots, p);
      var id := log[n].id;
      var (align, aligned) := Apply(|g.Parents(t)|, task.align, id).value;
      if aligned {
        FireOnlyAddsNewer(g, Moved(s, p, t, align), t, id);
      }
    }
  }

  lemma StepOnlyAddsNewer(g: Graph, s: State, a: Action, t: nat)
    requires g.Valid() && Shaped(g, s) && t in g.tasks && Step(g, s, a).Done?
    requires a.Consume? && Enabled(g, s, a) ==> EdgeInv(g, s, (a.parent, a.child))
    ensures OnlyNewer(s.tasks[t].snapshots, Step(g, s, a).value.tasks[t].snapshots)
  {
    if Enabled(g, s, a) && a.Consume? {
      ConsumeOnlyAddsNewer(g, s, a.parent, a.child);
    }
  }

  /** In every run each task takes a snapshot once for an id, in strictly increasing order. */
  lemma SnapshotsInOrder(g: Graph, actions: seq<Action>, a: Action, t: nat)
    requires g.Valid() && t in g.tasks && Exec(g, actions).Done? && Step(g, Exec(g, actions).value, a).Done?
    ensures OnlyNewer(Exec(g, actions).value.tasks[t].snapshots, Step(g, Exec(g, actions).value, a).value.tasks[t].snapshots)
  {
    var s := Exec(g, actions).value;
    if Enabled(g, s, a) && a.Consume? {
      Reachable(g, actions);
      assert EdgeInv(g, s, (a.parent, a.child));
    }
    StepOnlyAddsNewer(g, s, a, t);
  }
}
