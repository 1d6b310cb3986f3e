/** The coordinator's collection of checkpoints: `checkpoint_manager.rs`. */
module CheckpointCoordinator {

  /** One task's report for one operator; the handle is opaque. */
  datatype Report = Report(checkpointId: nat, operatorId: nat, taskNumber: nat, handle: string)

  datatype OperatorCheckpoint = OperatorCheckpoint(parallelism: nat, current: map<nat, Report>) {
    predicate IsAlign() { |current| == parallelism }

    /** `OperatorCheckpoint::apply` */
    function Apply(ck: Report): OperatorCheckpoint {
      if IsAlign() then this
      else if ck.taskNumber in current then this
      else this.(current := current[ck.taskNumber := ck])
    }
  }

  type Operators = map<nat, OperatorCheckpoint>

  /** What `storage.save` was given. */
  datatype Saved = Saved(checkpointId: nat, operators: Operators)

  datatype Manager = Manager(currentId: nat, operators: Operators, saved: seq<Saved>)

  predicate AllAlign(operators: Operators) {
    forall op | op in operators :: operators[op].IsAlign()
  }

  function Cleared(operators: Operators): Operators {
    map op | op in operators :: OperatorCheckpoint(operators[op].parallelism, map[])
  }

  /** `apply`; an unknown operator is an error, reported after the checkpoint id has moved on. */
  function Apply(m: Manager, ck: Report): (Manager, bool) {
    if m.currentId > ck.checkpointId then (m, true)
    else
      var m1 := if m.currentId < ck.checkpointId then m.(currentId := ck.checkpointId, operators := Cleared(m.operators)) else m;
      if ck.operatorId !in m1.operators then (m1, false)
      else
        var operators := m1.operators[ck.operatorId := m1.operators[ck.operatorId].Apply(ck)];
        var saved := if AllAlign(operators) then m1.saved + [Saved(m1.currentId, operators)] else m1.saved;
        (Manager(m1.currentId, operators, saved), true)
  }

  class CheckpointAlignManager {
    var currentId: nat
    var operators: Operators
    var finished: Operators
    var saved: seq<Saved>

    ghost function State(): Manager
      reads this
    {
      Manager(currentId, operators, saved)
    }

    constructor (parallelism: map<nat, nat>)
      ensures State() == NewManager(parallelism)
    {
      currentId := 0;
      operators := map op | op in parallelism :: OperatorCheckpoint(parallelism[op], map[]);
      finished, saved := map[], [];
    }

    method NextCheckpoint(id: nat)
      modifies this
      ensures State() == old(State()).(currentId := id, operators := Cleared(old(operators)))
      ensures finished == old(finished)
    {
      currentId := id;
      var fresh_: Operators := map[];
      var todo := operators.Keys;
      while todo != {}
        invariant todo <= operators.Keys && operators == old(operators)
        invariant fresh_.Keys == operators.Keys - todo
        invariant forall op | op in fresh_ :: fresh_[op] == OperatorCheckpoint(operators[op].parallelism, map[])
        invariant currentId == id && saved == old(saved) && finished == old(finished)
        decreases todo
      {
        var op :| op in todo;
        fresh_ := fresh_[op := OperatorCheckpoint(operators[op].parallelism, map[])];
        todo := todo - {op};
      }
      operators := fresh_;
    }

    method ApplyReport(ck: Report) returns (ok: bool)
      modifies this
      ensures (State(), ok) == Apply(old(State()), ck)
      ensures finished == if |saved| > |old(saved)| then operators else old(finished)
    {
      if currentId > ck.checkpointId {
        return true;
      } else if currentId < ck.checkpointId {
        NextCheckpoint(ck.checkpointId);
      }
      if ck.operatorId !in operators {
        return false;
      }
      operators := operators[ck.operatorId := operators[ck.operatorId].Apply(ck)];
      if AllAlign(operators) {
        finished := operators;
        saved := saved + [Saved(currentId, operators)];
      }
      return true;
    }
  }

  // ----- runs

  function NewManager(parallelism: map<nat, nat>): Manager {
    Manager(0, map op | op in parallelism :: OperatorCheckpoint(parallelism[op], map[]), [])
  }

  function After(parallelism: map<nat, nat>, reports: seq<Report>): Manager {
    if reports == [] then NewManager(parallelism)
    else Apply(After(parallelism, reports[..|reports| - 1]), reports[|reports| - 1]).0
  }

  /** Reports come from known tasks of known operators, once each for a checkpoint. */
  ghost predicate Proper(parallelism: map<nat, nat>, reports: seq<Report>) {
    && (forall r | r in reports :: r.operatorId in parallelism && r.taskNumber < parallelism[r.operatorId])
    && (forall i, j | 0 <= i < j < |reports| ::
          !(reports[i].checkpointId == reports[j].checkpointId && reports[i].operatorId == reports[j].operatorId
            && reports[i].taskNumber == reports[j].taskNumber))
  }

  function MaxId(reports: seq<Report>): nat {
    if reports == [] then 0
    else
      var m, r := MaxId(reports[..|reports| - 1]), reports[|reports| - 1];
      if r.checkpointId > m then r.checkpointId else m
  }

  ghost predicate Reported(reports: seq<Report>, id: nat, op: nat, task: nat) {
    exists r :: r in reports && r.checkpointId == id && r.operatorId == op && r.taskNumber == task
  }

  lemma {:induction false} MaxIdIsMax(reports: seq<Report>)
    ensures forall r | r in reports :: r.checkpointId <= MaxId(reports)
    ensures MaxId(reports) == 0 || exists r :: r in reports && r.checkpointId == MaxId(reports)
  {
    if reports != [] {
      var front, last := reports[..|reports| - 1], reports[|reports| - 1];
      assert reports == front + [last];
      MaxIdIsMax(front);
      assert last in reports;
    }
  }

  /** The simple state: the stored reports are exactly those of the greatest id seen. */
  ghost predicate Refines(parallelism: map<nat, nat>, reports: seq<Report>, m: Manager) {
    && m.currentId == MaxId(reports)
    && m.operators.Keys == parallelism.Keys
    && (forall op | op in m.operators :: Stores(m.operators[op], parallelism[op], reports, m.currentId, op))
  }

  ghost predicate Stores(o: OperatorCheckpoint, parallelism: nat, reports: seq<Report>, id: nat, op: nat) {
    && o.parallelism == parallelism
    && (forall task | task in o.current :: o.current[task] in reports && IsFor(o.current[task], id, op, task))
    && (forall r | r in reports && r.checkpointId == id && r.operatorId == op :: r.taskNumber in o.current)
    && (forall task | task in o.current :: task < parallelism)
  }

  predicate IsFor(r: Report, id: nat, op: nat, task: nat) {
    r.checkpointId == id && r.operatorId == op && r.taskNumber == task
  }

  // ----- counting

  ghost function Tasks(n: nat): (s: set<nat>)
    ensures forall i: nat :: i in s <==> i < n
    ensures |s| == n
  {
    if n == 0 then {} else Tasks(n - 1) + {n - 1}
  }

  /** Pigeonhole: as many reports as tasks, from distinct tasks, are one from each. */
  lemma AlignedHasEveryTask(o: OperatorCheckpoint)
    requires forall task | task in o.current :: task < o.parallelism
    ensures o.IsAlign() <==> forall task: nat | task < o.parallelism :: task in o.current
  {
    var all := Tasks(o.parallelism);
    assert o.current.Keys <= all;
    assert all == o.current.Keys + (all - o.current.Keys);
    assert |all| == |o.current.Keys| + |all - o.current.Keys|;
    if o.IsAlign() {
      assert all - o.current.Keys == {};
      assert forall task: nat | task < o.parallelism :: task in all;
    }
    if forall task: nat | task < o.parallelism :: task in o.current {
      assert all == o.current.Keys;
    }
  }

  // ----- one report

  /** A new report of the current checkpoint is stored and disturbs nothing. */
  lemma ApplyStores(o: OperatorCheckpoint, parallelism: nat, reports: seq<Report>, ck: Report)
    requires Stores(o, parallelism, reports, ck.checkpointId, ck.operatorId)
    requires ck.taskNumber < parallelism
    requires forall r | r in reports :: !IsFor(r, ck.checkpointId, ck.operatorId, ck.taskNumber)
    ensures Stores(o.Apply(ck), parallelism, reports + [ck], ck.checkpointId, ck.operatorId)
    ensures o.Apply(ck).current == o.current[ck.taskNumber := ck]
  {
    assert ck.taskNumber !in o.current;
    AlignedHasEveryTask(o);
    assert !o.IsAlign();
    var all := reports + [ck];
    assert forall r | r in reports :: r in all;
    assert ck in all;
  }

  lemma OthersStore(o: OperatorCheckpoint, parallelism: nat, reports: seq<Report>, ck: Report, id: nat, op: nat)
    requires Stores(o, parallelism, reports, id, op)
    requires ck.checkpointId != id || ck.operatorId != op
    ensures Stores(o, parallelism, reports + [ck], id, op)
  {
    assert forall r | r in reports :: r in reports + [ck];
  }

  lemma ClearedStores(parallelism: nat, reports: seq<Report>, id: nat, op: nat)
    requires forall r | r in reports :: r.checkpointId < id
    ensures Stores(OperatorCheckpoint(parallelism, map[]), parallelism, reports, id, op)
  {
  }

  lemma NotReportedBefore(parallelism: map<nat, nat>, reports: seq<Report>, ck: Report)
    requires Proper(parallelism, reports + [ck])
    ensures forall r | r in reports :: !IsFor(r, ck.checkpointId, ck.operatorId, ck.taskNumber)
    ensures ck.operatorId in parallelism && ck.taskNumber < parallelism[ck.operatorId]
  {
    var all := reports + [ck];
    assert ck in all;
    forall r | r in reports ensures !IsFor(r, ck.checkpointId, ck.operatorId, ck.taskNumber) {
      var k :| 0 <= k < |reports| && reports[k] == r;
      assert all[k] == r && all[|reports|] == ck;
    }
  }

  /** One operator's entry through a step. */
  lemma StepStores(n: nat, reports: seq<Report>, ck: Report, o: OperatorCheckpoint, current: nat, op: nat)
    requires Stores(o, n, reports, current, op)
    requires forall r | r in reports :: r.checkpointId <= current && !IsFor(r, ck.checkpointId, ck.operatorId, ck.taskNumber)
    requires ck.operatorId == op ==> ck.taskNumber < n
    ensures var current' := if current < ck.checkpointId then ck.checkpointId else current;
      var o1 := if current < ck.checkpointId then OperatorCheckpoint(o.parallelism, map[]) else o;
      Stores(if op == ck.operatorId && current <= ck.checkpointId then o1.Apply(ck) else o1, n, reports + [ck], current', op)
  {
    var o1 := if current < ck.checkpointId then OperatorCheckpoint(o.parallelism, map[]) else o;
    if current < ck.checkpointId {
      ClearedStores(n, reports, ck.checkpointId, op);
    }
    if current > ck.checkpointId || op != ck.operatorId {
      OthersStore(o1, n, reports, ck, if current < ck.checkpointId then ck.checkpointId else current, op);
    } else {
      ApplyStores(o1, n, reports, ck);
    }
  }

  /** What `apply` does to the entry of one operator. */
  lemma ApplyToOperator(m: Manager, ck: Report, op: nat)
    requires ck.operatorId in m.operators && op in m.operators
    ensures var m' := Apply(m, ck).0;
      && m'.currentId == (if m.currentId < ck.checkpointId then ck.checkpointId else m.currentId)
      && m'.operators.Keys == m.operators.Keys
      && m'.operators[op] ==
         var o1 := if m.currentId < ck.checkpointId then OperatorCheckpoint(m.operators[op].parallelism, map[]) else m.operators[op];
         if op == ck.operatorId && m.currentId <= ck.checkpointId then o1.Apply(ck) else o1
  {
  }

  lemma StepRefines(parallelism: map<nat, nat>, reports: seq<Report>, ck: Report, m: Manager)
    requires Proper(parallelism, reports + [ck]) && Refines(parallelism, reports, m)
    ensures Refines(parallelism, reports + [ck], Apply(m, ck).0)
  {
    NotReportedBefore(parallelism, reports, ck);
    ApplyToOperator(m, ck, ck.operatorId);
    var m' := Apply(m, ck).0;
    assert m'.currentId == MaxId(reports + [ck]) by {
      assert (reports + [ck])[..|reports|] == reports;
    }
    forall op | op in m'.operators
      ensures Stores(m'.operators[op], parallelism[op], reports + [ck], m'.currentId, op)
    {
      MaxIdIsMax(reports);
      assert Stores(m.operators[op], parallelism[op], reports, m.currentId, op);
      ApplyToOperator(m, ck, op);
      StepStores(parallelism[op], reports, ck, m.operators[op], m.currentId, op);
    }
  }

  /**
   * The coordinator refines a simple state: after any sequence of distinct reports the current
   * id is the greatest seen, and the stored reports are exactly the reports with that id.
   */
  lemma {:induction false} AlwaysRefines(parallelism: map<nat, nat>, reports: seq<Report>)
    requires Proper(parallelism, reports)
    ensures Refines(parallelism, reports, After(parallelism, reports))
  {
    if reports != [] {
      var front, ck := reports[..|reports| - 1], reports[|reports| - 1];
      assert reports == front + [ck];
      ProperFront(parallelism, reports, |front|);
      AlwaysRefines(parallelism, front);
      StepRefines(parallelism, front, ck, After(parallelism, front));
    }
  }

  lemma ProperFront(parallelism: map<nat, nat>, reports: seq<Report>, n: nat)
    requires Proper(parallelism, reports) && n <= |reports|
    ensures Proper(parallelism, reports[..n])
  {
  }

  lemma StoresUnique(o: OperatorCheckpoint, o': OperatorCheckpoint, parallelism: nat, reports: seq<Report>, id: nat, op: nat)
    requires Stores(o, parallelism, reports, id, op) && Stores(o', parallelism, reports, id, op)
    requires forall r, r' | r in reports && r' in reports && IsFor(r, id, op, r.taskNumber) && IsFor(r', id, op, r.taskNumber) :: r == r'
    ensures o == o'
  {
    assert forall task | task in o.current :: task in o'.current && o.current[task] == o'.current[task];
    assert o.current.Keys == o'.current.Keys;
  }

  lemma OneReportPerTask(parallelism: map<nat, nat>, reports: seq<Report>, r: Report, r': Report)
    requires Proper(parallelism, reports) && r in reports && r' in reports
    requires IsFor(r', r.checkpointId, r.operatorId, r.taskNumber)
    ensures r == r'
  {
    var i :| 0 <= i < |reports| && reports[i] == r;
    var j :| 0 <= j < |reports| && reports[j] == r';
  }

  lemma MaxIdOfMembers(reports: seq<Report>, other: seq<Report>)
    requires forall r :: r in reports <==> r in other
    ensures MaxId(reports) == MaxId(other)
  {
    MaxIdIsMax(reports);
    MaxIdIsMax(other);
  }

  /** The order in which the reports arrive does not matter. */
  lemma OrderIndependent(parallelism: map<nat, nat>, reports: seq<Report>, other: seq<Report>)
    requires Proper(parallelism, reports) && Proper(parallelism, other)
    requires forall r :: r in reports <==> r in other
    ensures After(parallelism, reports).currentId == After(parallelism, other).currentId
    ensures After(parallelism, reports).operators == After(parallelism, other).operators
  {
    AlwaysRefines(parallelism, reports);
    AlwaysRefines(parallelism, other);
    MaxIdOfMembers(reports, other);
    var m, m' := After(parallelism, reports), After(parallelism, other);
    forall op | op in m.operators ensures m.operators[op] == m'.operators[op] {
      assert Stores(m.operators[op], parallelism[op], reports, m.currentId, op);
      assert Stores(m'.operators[op], parallelism[op], other, m.currentId, op);
      forall r, r' | r in reports && r' in reports && IsFor(r, m.currentId, op, r.taskNumber) && IsFor(r', m.currentId, op, r.taskNumber)
        ensures r == r'
      {
        OneReportPerTask(parallelism, reports, r, r');
      }
      StoresUnique(m.operators[op], m'.operators[op], parallelism[op], reports, m.currentId, op);
    }
  }

  // ----- saves

  /** Every task of every operator has reported the checkpoint. */
  ghost predicate Complete(parallelism: map<nat, nat>, reports: seq<Report>, id: nat) {
    forall op, task: nat | op in parallelism && task < parallelism[op] :: Reported(reports, id, op, task)
  }

  lemma AlignedIffComplete(parallelism: map<nat, nat>, reports: seq<Report>, m: Manager)
    requires Refines(parallelism, reports, m)
    ensures AllAlign(m.operators) <==> Complete(parallelism, reports, m.currentId)
  {
    forall op | op in parallelism
      ensures m.operators[op].IsAlign() <==> forall task: nat | task < parallelism[op] :: Reported(reports, m.currentId, op, task)
    {
      var o := m.operators[op];
      assert Stores(o, parallelism[op], reports, m.currentId, op);
      AlignedHasEveryTask(o);
      forall task: nat | task < parallelism[op]
        ensures task in o.current <==> Reported(reports, m.currentId, op, task)
      {
      }
    }
  }

  /**
   * A save happens exactly when a report completes the greatest checkpoint seen, and it
   * saves one report, with that id, for each task of each operator.
   */
  lemma SavedExactlyWhenComplete(parallelism: map<nat, nat>, reports: seq<Report>)
    requires Proper(parallelism, reports) && reports != []
    ensures var front, ck := reports[..|reports| - 1], reports[|reports| - 1];
      var was, now := After(parallelism, front).saved, After(parallelism, reports).saved;
      if ck.checkpointId == MaxId(reports) && Complete(parallelism, reports, ck.checkpointId)
      then |now| == |was| + 1 && now[..|was|] == was && IsFullCheckpoint(parallelism, reports, now[|was|], ck.checkpointId)
      else now == was
  {
    var front, ck := reports[..|reports| - 1], reports[|reports| - 1];
    ProperFront(parallelism, reports, |front|);
    AlwaysRefines(parallelism, front);
    AlwaysRefines(parallelism, reports);
    var m := After(parallelism, reports);
    AlignedIffComplete(parallelism, reports, m);
    assert ck in reports;
    if ck.checkpointId == MaxId(reports) && Complete(parallelism, reports, ck.checkpointId) {
      forall op | op in parallelism
        ensures HasOneReportPerTask(m.operators[op], parallelism[op], reports, m.currentId, op)
      {
        assert Stores(m.operators[op], parallelism[op], reports, m.currentId, op);
        AlignedHasEveryTask(m.operators[op]);
      }
    }
  }

  ghost predicate HasOneReportPerTask(o: OperatorCheckpoint, parallelism: nat, reports: seq<Report>, id: nat, op: nat) {
    && (forall task: nat :: task in o.current <==> task < parallelism)
    && (forall task | task in o.current :: o.current[task] in reports && IsFor(o.current[task], id, op, task))
  }

  ghost predicate IsFullCheckpoint(parallelism: map<nat, nat>, reports: seq<Report>, s: Saved, id: nat) {
    && s.checkpointId == id && s.operators.Keys == parallelism.Keys
    && forall op | op in s.operators :: HasOneReportPerTask(s.operators[op], parallelism[op], reports, id, op)
  }

  ghost predicate SavedInOrder(saved: seq<Saved>, max: nat) {
    && (forall i, j | 0 <= i < j < |saved| :: saved[i].checkpointId < saved[j].checkpointId)
    && (forall i | 0 <= i < |saved| :: saved[i].checkpointId <= max)
  }

  ghost predicate AllComplete(parallelism: map<nat, nat>, reports: seq<Report>, saved: seq<Saved>) {
    forall i | 0 <= i < |saved| :: Complete(parallelism, reports, saved[i].checkpointId)
  }

  /** A save adds a greater id at the end. */
  lemma SaveKeepsOrder(was: seq<Saved>, now: seq<Saved>, max: nat, id: nat)
    requires SavedInOrder(was, max) && max <= id && |now| == |was| + 1 && now[..|was|] == was
    requires now[|was|].checkpointId == id && forall i | 0 <= i < |was| :: was[i].checkpointId != id
    ensures SavedInOrder(now, id)
  {
    assert forall i | 0 <= i < |was| :: now[i] == was[i];
  }

  /** Saved ids strictly increase, so a checkpoint is saved at most once. */
  lemma {:induction false} SavedIdsIncrease(parallelism: map<nat, nat>, reports: seq<Report>)
    requires Proper(parallelism, reports)
    ensures var saved := After(parallelism, reports).saved;
      SavedInOrder(saved, MaxId(reports)) && AllComplete(parallelism, reports, saved)
  {
    if reports != [] {
      var front, ck := reports[..|reports| - 1], reports[|reports| - 1];
      assert reports == front + [ck];
      ProperFront(parallelism, reports, |front|);
      SavedIdsIncrease(parallelism, front);
      SavedExactlyWhenComplete(parallelism, reports);
      var was, now := After(parallelism, front).saved, After(parallelism, reports).saved;
      OldSavesStay(parallelism, front, ck, was);
      if now != was {
        SaveKeepsOrder(was, now, MaxId(front), ck.checkpointId);
        CompleteSnoc(parallelism, reports, was, now);
      }
    }
  }

  lemma CompleteSnoc(parallelism: map<nat, nat>, reports: seq<Report>, was: seq<Saved>, now: seq<Saved>)
    requires AllComplete(parallelism, reports, was) && |now| == |was| + 1 && now[..|was|] == was
    requires Complete(parallelism, reports, now[|was|].checkpointId)
    ensures AllComplete(parallelism, reports, now)
  {
    forall i | 0 <= i < |now| ensures Complete(parallelism, reports, now[i].checkpointId) {
      assert i < |was| ==> now[i] == was[i];
    }
  }

  lemma OldSavesStay(parallelism: map<nat, nat>, front: seq<Report>, ck: Report, was: seq<Saved>)
    requires Proper(parallelism, front + [ck]) && AllComplete(parallelism, front, was)
    ensures AllComplete(parallelism, front + [ck], was) && forall i | 0 <= i < |was| :: was[i].checkpointId != ck.checkpointId
  {
    forall i | 0 <= i < |was|
      ensures Complete(parallelism, front + [ck], was[i].checkpointId) && was[i].checkpointId != ck.checkpointId
    {
      CompleteStays(parallelism, front, ck, was[i].checkpointId);
    }
  }

  /** No task reports a complete checkpoint again. */
  lemma CompleteStays(parallelism: map<nat, nat>, reports: seq<Report>, ck: Report, id: nat)
    requires Proper(parallelism, reports + [ck]) && Complete(parallelism, reports, id)
    ensures Complete(parallelism, reports + [ck], id)
    ensures ck.checkpointId != id
  {
    var all := reports + [ck];
    assert ck in all;
    forall op, task: nat | op in parallelism && task < parallelism[op] ensures Reported(all, id, op, task) {
      assert Reported(reports, id, op, task);
      var r :| r in reports && r.checkpointId == id && r.operatorId == op && r.taskNumber == task;
      assert r in all;
    }
    assert Reported(reports, id, ck.operatorId, ck.taskNumber);
    var r :| r in reports && r.checkpointId == id && r.operatorId == ck.operatorId && r.taskNumber == ck.taskNumber;
    var k :| 0 <= k < |reports| && reports[k] == r;
    assert all[k] == r && all[|reports|] == ck;
  }
}
