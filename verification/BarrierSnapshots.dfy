/**
 * Which snapshots the tasks of a graph take: exactly those of their timer and of aligned barriers,
 * so that a checkpoint whose barriers have all been read is taken everywhere.
 */
module BarrierSnapshots {
  import opened Prelude
  import opened BarrierAlignment
  import opened BarrierCut

  // ----- a task with parents

  /** At some arrival every parent had sent the id and none a greater one. */
  ghost predicate AlignedIn(parents: set<nat>, seen: seq<Arrival>, b: nat) {
    exists n :: 0 < n <= |seen| && AlignedAt(parents, seen[..n], b)
  }

  ghost predicate AlignedAt(parents: set<nat>, seen: seq<Arrival>, b: nat) {
    seen != [] && seen[|seen| - 1].id == b && Senders(seen, b) == parents && UpTo(seen, b)
  }

  lemma AlignedSnoc(parents: set<nat>, seen: seq<Arrival>, a: Arrival, b: nat)
    ensures AlignedIn(parents, seen + [a], b) <==> AlignedIn(parents, seen, b) || AlignedAt(parents, seen + [a], b)
  {
    var all := seen + [a];
    assert all[..|all|] == all;
    assert forall n | 0 < n <= |seen| :: all[..n] == seen[..n];
    if AlignedIn(parents, seen, b) {
      var n :| 0 < n <= |seen| && AlignedAt(parents, seen[..n], b);
      assert AlignedAt(parents, all[..n], b);
    }
    if AlignedAt(parents, all, b) {
      assert AlignedAt(parents, all[..|all|], b);
    }
  }

  ghost predicate TakesAligned(parents: set<nat>, task: Task) {
    forall b :: b in task.snapshots <==> AlignedIn(parents, task.seen, b)
  }

  /** The alignment manager's answer to a barrier is whether it is now aligned. */
  lemma AnswerIsExact(parents: set<nat>, task: Task, a: Arrival)
    requires parents != {} && TaskOk(parents, task) && Apply(|parents|, task.align, a.id).Done?
    requires IncreasingPerParent(task.seen + [a]) && FromParents(task.seen + [a], parents)
    ensures Apply(|parents|, task.align, a.id).value.1 <==> AlignedAt(parents, task.seen + [a], a.id)
  {
    var seen := task.seen + [a];
    assert seen[..|seen| - 1] == task.seen;
    AlignmentIsExact(parents, seen);
  }

  lemma BarrierTakesAligned(parents: set<nat>, task: Task, task': Task, a: Arrival, aligned: bool)
    requires parents != {} && TakesAligned(parents, task)
    requires task'.seen == task.seen + [a] && (aligned <==> AlignedAt(parents, task.seen + [a], a.id))
    requires task'.snapshots.Keys == task.snapshots.Keys + (if aligned then {a.id} else {})
    ensures TakesAligned(parents, task')
  {
    forall b ensures b in task'.snapshots <==> AlignedIn(parents, task'.seen, b) {
      AlignedSnoc(parents, task.seen, a, b);
    }
  }

  /** What reading a barrier does to the task that reads it. */
  lemma ConsumeBarrier(g: Graph, s: State, p: nat, t: nat)
    requires Inv(g, s) && Enabled(g, s, Consume(p, t)) && s.logs[(p, t)][s.read[(p, t)]].Barrier?
    ensures var a := Arrival(p, s.logs[(p, t)][s.read[(p, t)]].id);
      var r, task := ConsumeNext(g, s, p, t), s.tasks[t];
      var answer := Apply(|g.Parents(t)|, task.align, a.id);
      && r.Done? && answer.Done? && t in r.value.tasks
      && IncreasingPerParent(task.seen + [a]) && FromParents(task.seen + [a], g.Parents(t))
      && r.value.tasks[t].seen == task.seen + [a]
      && r.value.tasks[t].snapshots.Keys == task.snapshots.Keys + (if answer.value.1 then {a.id} else {})
  {
    ReadsBarrier(g, s, p, t);
    var id := s.logs[(p, t)][s.read[(p, t)]].id;
    var (align, aligned) := Apply(|g.Parents(t)|, s.tasks[t].align, id).value;
    if aligned {
      FireAddsSnapshot(g, Moved(s, p, t, align), t, id);
    }
  }

  lemma ConsumeTakesAligned(g: Graph, s: State, p: nat, t: nat)
    requires Inv(g, s) && Enabled(g, s, Consume(p, t)) && TakesAligned(g.Parents(t), s.tasks[t])
    ensures var r := ConsumeNext(g, s, p, t); r.Done? && t in r.value.tasks && TakesAligned(g.Parents(t), r.value.tasks[t])
  {
    var m, parents := s.logs[(p, t)][s.read[(p, t)]], g.Parents(t);
    if m.Barrier? {
      var a := Arrival(p, m.id);
      assert p in parents by { assert (p, t) in g.edges; }
      assert TaskOk(parents, s.tasks[t]);
      ConsumeBarrier(g, s, p, t);
      AnswerIsExact(parents, s.tasks[t], a);
      var s' := ConsumeNext(g, s, p, t).value;
      BarrierTakesAligned(parents, s.tasks[t], s'.tasks[t], a, Apply(|parents|, s.tasks[t].align, a.id).value.1);
    }
  }

  /** A step of another task, or one that is no barrier, leaves a task with parents as it was. */
  lemma OthersKeepTask(g: Graph, s: State, a: Action, t: nat)
    requires Inv(g, s) && t in g.tasks && g.Parents(t) != {} && Step(g, s, a).Done?
    requires !(a.Consume? && a.child == t)
    ensures Step(g, s, a).value.tasks[t] == s.tasks[t]
  {
    if Enabled(g, s, a) && a.Consume? {
      assert EdgeInv(g, s, (a.parent, a.child));
      ConsumeOnlyAddsNewer(g, s, a.parent, a.child);
    }
  }

  /**
   * In every run, a task with parents takes a snapshot exactly for the ids that were aligned: at the
   * arrival of one of its barriers every parent had sent the id and none a greater one.
   */
  lemma {:induction false} SnapshotIffAligned(g: Graph, actions: seq<Action>, t: nat)
    requires g.Valid() && t in g.tasks && g.Parents(t) != {}
    ensures Exec(g, actions).Done? && TakesAligned(g.Parents(t), Exec(g, actions).value.tasks[t])
  {
    Reachable(g, actions);
    if actions != [] {
      var front, a := actions[..|actions| - 1], actions[|actions| - 1];
      SnapshotIffAligned(g, front, t);
      Reachable(g, front);
      var s := Exec(g, front).value;
      if Enabled(g, s, a) && a.Consume? && a.child == t {
        ConsumeTakesAligned(g, s, a.parent, t);
      } else if Enabled(g, s, a) {
        OthersKeepTask(g, s, a, t);
      }
    }
  }

  // ----- a task without parents

  /** Its timer fired with the id, and no greater one had been taken. */
  ghost predicate Ticked(g: Graph, actions: seq<Action>, t: nat, b: nat, n: nat)
    requires g.Valid()
  {
    && n < |actions| && actions[n] == Tick(t, b)
    && Exec(g, actions[..n]).Done? && Enabled(g, Exec(g, actions[..n]).value, actions[n])
  }

  lemma StepOfSource(g: Graph, s: State, a: Action, t: nat)
    requires Inv(g, s) && t in g.tasks && g.Parents(t) == {} && Step(g, s, a).Done?
    ensures Step(g, s, a).value.tasks[t].snapshots.Keys ==
      s.tasks[t].snapshots.Keys + (if a.Tick? && a.task == t && Enabled(g, s, a) then {a.id} else {})
  {
    if Enabled(g, s, a) {
      match a
      case Tick(u, id) => FireAddsSnapshot(g, s, u, id);
      case Produce(_, _, _) =>
      case Consume(p, c) =>
        assert EdgeInv(g, s, (p, c));
        assert c == t ==> p in g.Parents(t);
        ConsumeOnlyAddsNewer(g, s, p, c);
    }
  }

  lemma TickedSnoc(g: Graph, front: seq<Action>, a: Action, t: nat, b: nat)
    requires g.Valid() && Exec(g, front).Done?
    ensures (exists n: nat :: Ticked(g, front + [a], t, b, n)) <==>
      (exists n: nat :: Ticked(g, front, t, b, n)) || (a == Tick(t, b) && Enabled(g, Exec(g, front).value, a))
  {
    var all := front + [a];
    assert all[..|front|] == front;
    assert forall n | 0 <= n < |front| :: all[..n] == front[..n] && all[n] == front[n];
    if n: nat :| Ticked(g, front, t, b, n) {
      assert Ticked(g, all, t, b, n);
    }
    if n: nat :| Ticked(g, all, t, b, n) {
      assert n < |front| ==> Ticked(g, front, t, b, n);
    }
    if a == Tick(t, b) && Enabled(g, Exec(g, front).value, a) {
      assert Ticked(g, all, t, b, |front|);
    }
  }

  /** In every run, a task without parents takes a snapshot exactly for the ids of its timer. */
  lemma {:induction false} SnapshotIffTicked(g: Graph, actions: seq<Action>, t: nat, b: nat)
    requires g.Valid() && t in g.tasks && g.Parents(t) == {}
    ensures Exec(g, actions).Done?
    ensures b in Exec(g, actions).value.tasks[t].snapshots <==> exists n: nat :: Ticked(g, actions, t, b, n)
  {
    Reachable(g, actions);
    if actions != [] {
      var front, a := actions[..|actions| - 1], actions[|actions| - 1];
      assert actions == front + [a];
      SnapshotIffTicked(g, front, t, b);
      Reachable(g, front);
      StepOfSource(g, Exec(g, front).value, a, t);
      TickedSnoc(g, front, a, t, b);
    }
  }

  // ----- a checkpoint is taken everywhere

  /** The barrier is the last one on every channel into the task, and has been read. */
  ghost predicate ArrivedEverywhere(g: Graph, s: State, t: nat, b: nat)
    requires g.Valid() && Shaped(g, s)
  {
    forall p | (p, t) in g.edges :: HasRead(s, (p, t), b) && NoneAfter(s.logs[(p, t)], b)
  }

  ghost predicate NoneAfter(log: seq<Message>, b: nat) {
    forall m | m in log && m.Barrier? :: m.id <= b
  }

  /** What has been read from a parent is what it is known to have sent. */
  lemma ReadIsSent(log: seq<Message>, read: nat, from: Task, to: Task, p: nat, t: nat, id: nat)
    requires EdgeOk(log, read, from, to, p, t)
    ensures Barrier(id) in log[..read] <==> p in Senders(to.seen, id)
  {
    BarriersIncreaseOfPrefix(log, read);
    BarrierIdsIncrease(log[..read]);
    OfParentMembers(to.seen, p);
    if p in Senders(to.seen, id) {
      var a :| a in to.seen && a.id == id && a.parent == p;
      assert a == Arrival(p, id);
    }
    if Arrival(p, id) in to.seen {
      assert p in Senders(to.seen, id);
    }
  }

  /** If all parents have sent an id and none a greater one, it has been aligned. */
  lemma {:induction false} GreatestIsAligned(parents: set<nat>, seen: seq<Arrival>, b: nat)
    requires parents != {} && Senders(seen, b) == parents && UpTo(seen, b)
    ensures AlignedIn(parents, seen, b)
  {
    SomeoneSent(seen, b);
    var front, a := seen[..|seen| - 1], seen[|seen| - 1];
    assert seen == front + [a];
    SendersSnoc(front, a, b);
    AlignedSnoc(parents, front, a, b);
    if a.id != b {
      assert UpTo(front, b);
      GreatestIsAligned(parents, front, b);
    }
  }

  lemma SomeoneSent(seen: seq<Arrival>, b: nat)
    requires Senders(seen, b) != {}
    ensures seen != []
  {
    var p :| p in Senders(seen, b);
    var a :| a in seen && a.id == b && a.parent == p;
  }

  /** A task takes the snapshot of a checkpoint whose barrier has come from every parent, with none greater. */
  lemma TakenWhenArrived(g: Graph, actions: seq<Action>, t: nat, b: nat)
    requires g.Valid() && t in g.tasks && g.Parents(t) != {} && Exec(g, actions).Done?
    requires ArrivedEverywhere(g, Exec(g, actions).value, t, b)
    ensures b in Exec(g, actions).value.tasks[t].snapshots
  {
    var s, parents := Exec(g, actions).value, g.Parents(t);
    Reachable(g, actions);
    SnapshotIffAligned(g, actions, t);
    var seen := s.tasks[t].seen;
    assert TaskOk(parents, s.tasks[t]);
    forall p | p in parents ensures p in Senders(seen, b) {
      assert (p, t) in g.edges && EdgeInv(g, s, (p, t));
      ReadIsSent(s.logs[(p, t)], s.read[(p, t)], s.tasks[p], s.tasks[t], p, t, b);
    }
    assert Senders(seen, b) == parents;
    forall a | a in seen ensures a.id <= b {
      assert a.parent in Senders(seen, a.id);
      assert (a.parent, t) in g.edges && EdgeInv(g, s, (a.parent, t));
      ReadIsSent(s.logs[(a.parent, t)], s.read[(a.parent, t)], s.tasks[a.parent], s.tasks[t], a.parent, t, a.id);
      assert Barrier(a.id) in s.logs[(a.parent, t)];
    }
    GreatestIsAligned(parents, seen, b);
  }

  /** Edges lead to tasks of greater rank. */
  ghost predicate Acyclic(g: Graph, rank: nat -> nat) {
    forall e | e in g.edges :: rank(e.0) < rank(e.1)
  }

  /** Every channel has been read to its end. */
  ghost predicate Drained(g: Graph, s: State)
    requires Shaped(g, s)
  {
    forall e | e in g.edges :: s.read[e] == |s.logs[e]|
  }

  /**
   * If the tasks without parents have taken the snapshot of a checkpoint, no task a later one, and
   * every channel has been read, then every task of the graph has taken it.
   */
  lemma {:induction false} TakenEverywhere(g: Graph, rank: nat -> nat, actions: seq<Action>, t: nat, b: nat)
    requires g.Valid() && Acyclic(g, rank) && t in g.tasks && Exec(g, actions).Done? && Drained(g, Exec(g, actions).value)
    requires var s := Exec(g, actions).value;
      && (forall u | u in g.tasks && g.Parents(u) == {} :: b in s.tasks[u].snapshots)
      && (forall u, c | u in g.tasks && c in s.tasks[u].snapshots :: c <= b)
    ensures b in Exec(g, actions).value.tasks[t].snapshots
    decreases rank(t)
  {
    if g.Parents(t) != {} {
      var s := Exec(g, actions).value;
      Reachable(g, actions);
      forall p | (p, t) in g.edges ensures HasRead(s, (p, t), b) && NoneAfter(s.logs[(p, t)], b) {
        TakenEverywhere(g, rank, actions, p, b);
        assert EdgeInv(g, s, (p, t));
        SentIsRead(s.logs[(p, t)], s.read[(p, t)], s.tasks[p], t, b);
      }
      TakenWhenArrived(g, actions, t, b);
    }
  }

  lemma SentIsRead(log: seq<Message>, read: nat, from: Task, t: nat, b: nat)
    requires LogInv(log, from.snapshots, t) && read == |log| && b in from.snapshots && forall c | c in from.snapshots :: c <= b
    ensures Barrier(b) in log[..read] && NoneAfter(log, b)
  {
    assert log[..read] == log;
    forall m | m in log && m.Barrier? ensures m.id <= b {
      var k :| 0 <= k < |log| && log[k] == m;
      assert log[k].id in from.snapshots;
    }
  }
}
