/**
 * Tasks and the channels between them: `rlink/src/dag/execution_graph.rs`.
 */
module ExecutionGraph {
  import opened Prelude
  import opened Tasks
  import opened Dags
  import opened StreamGraph
  import opened JobEdges

  datatype ExecutionEdge = Memory | Network

  type Jobs = map<nat, nat>

  /** The parallelism of each job, and the job edges: `Forward` joins jobs of equal parallelism. */
  ghost predicate WellJoined(par: Jobs, edges: map<Edge, JobEdge>) {
    forall e | e in edges :: e.0 in par && e.1 in par && e.0 < e.1 && (edges[e] == Forward ==> par[e.0] == par[e.1])
  }

  predicate IsTask(par: Jobs, t: TaskId) {
    t.jobId in par && t.numTasks == par[t.jobId] && t.taskNumber < t.numTasks
  }

  function Numbered(j: nat, n: nat): (ts: seq<TaskId>)
    ensures |ts| == n && forall i | 0 <= i < n :: ts[i] == TaskId(j, i, n)
  {
    seq(n, i requires 0 <= i < n => TaskId(j, i, n))
  }

  function TasksOf(par: Jobs, j: nat): (ts: seq<TaskId>)
    requires j in par
    ensures |ts| == par[j]
    ensures forall i | 0 <= i < |ts| :: ts[i] == TaskId(j, i, par[j])
    ensures forall t :: t in ts <==> IsTask(par, t) && t.jobId == j
  {
    var ts := Numbered(j, par[j]);
    assert forall t | IsTask(par, t) && t.jobId == j :: t == ts[t.taskNumber];
    ts
  }

  function KindOf(e: JobEdge): ExecutionEdge {
    if e == Forward then Memory else Network
  }

  /** Which tasks are joined: all pairs, or equal numbers across a `Forward` edge. */
  predicate Joined(par: Jobs, jobEdges: map<Edge, JobEdge>, t: TaskId, u: TaskId) {
    && IsTask(par, t) && IsTask(par, u) && (t.jobId, u.jobId) in jobEdges
    && (jobEdges[(t.jobId, u.jobId)] == Forward ==> t.taskNumber == u.taskNumber)
  }

  type TaskEdges = map<(TaskId, TaskId), ExecutionEdge>

  ghost predicate EdgeSound(par: Jobs, jobEdges: map<Edge, JobEdge>, edges: TaskEdges, e: (TaskId, TaskId)) {
    e in edges ==> Joined(par, jobEdges, e.0, e.1) && edges[e] == KindOf(jobEdges[(e.0.jobId, e.1.jobId)])
  }

  class ExecutionDag {
    const par: Jobs
    const jobEdges: map<Edge, JobEdge>
    var tasks: seq<TaskId>
    var edges: TaskEdges

    constructor (par: Jobs, jobEdges: map<Edge, JobEdge>)
      ensures this.par == par && this.jobEdges == jobEdges && tasks == [] && edges == map[]
    {
      this.par, this.jobEdges, tasks, edges := par, jobEdges, [], map[];
    }

    /** The tasks of one job, numbered from 0. */
    method AddTasks(j: nat) returns (list: seq<TaskId>)
      requires j in par
      modifies this`tasks
      ensures list == TasksOf(par, j) && tasks == old(tasks) + list
    {
      list := [];
      for number := 0 to par[j]
        invariant list == TasksOf(par, j)[..number] && tasks == old(tasks) + list
      {
        var task := TaskId(j, number, par[j]);
        tasks := tasks + [task];
        list := list + [task];
      }
    }

    /** One task per job and number. It fails exactly when a job has no parallelism or the wrong number of splits. */
    method BuildNodes(splits: Jobs) returns (r: Result<map<nat, seq<TaskId>>>)
      requires tasks == [] && par.Keys <= splits.Keys
      modifies this`tasks
      ensures r.Ok? <==> forall j | j in par :: splits[j] == par[j] > 0
      ensures r.Ok? ==> r.value.Keys == par.Keys && forall j | j in par :: r.value[j] == TasksOf(par, j)
      ensures r.Ok? ==> NoDuplicates(tasks) && forall t :: t in tasks <==> IsTask(par, t)
    {
      var lists: map<nat, seq<TaskId>>, todo := map[], par.Keys;
      while todo != {}
        invariant todo <= par.Keys && lists.Keys == par.Keys - todo
        invariant forall j | j in lists :: lists[j] == TasksOf(par, j) && splits[j] == par[j] > 0
        invariant NoDuplicates(tasks) && forall t :: t in tasks <==> IsTask(par, t) && t.jobId !in todo
      {
        var j :| j in todo;
        if splits[j] != par[j] {
          return Err(IllegalInputSplitSize);
        }
        if par[j] == 0 {
          return Err(JobParallelismNotFound);
        }
        ghost var before := tasks;
        var list := AddTasks(j);
        AppendTasks(par, before, todo, j);
        lists, todo := lists[j := list], todo - {j};
      }
      return Ok(lists);
    }

    ghost predicate Sound()
      reads this
    {
      WellJoined(par, jobEdges) && forall e {:trigger EdgeSound(par, jobEdges, edges, e)} :: EdgeSound(par, jobEdges, edges, e)
    }

    ghost predicate Extends(before: TaskEdges)
      reads this
    {
      forall e | e in before :: e in edges && edges[e] == before[e]
    }

    /** The library call; its error is excluded by the precondition, which callers establish. */
    method AddEdge(e: (TaskId, TaskId), kind: ExecutionEdge)
      requires !WouldCycle(edges.Keys, e)
      modifies this`edges
      ensures edges == old(edges)[e := kind]
    {
      edges := edges[e := kind];
    }

    /** No edge between tasks closes a cycle. */
    method Join(t: TaskId, u: TaskId, kind: ExecutionEdge)
      requires Sound() && Joined(par, jobEdges, t, u) && kind == KindOf(jobEdges[(t.jobId, u.jobId)])
      modifies this`edges
      ensures Sound() && Extends(old(edges)) && (t, u) in edges
    {
      ghost var before := edges;
      assert EdgeSound(par, jobEdges, edges, (t, u));
      forall e | e in edges ensures e.0.jobId < e.1.jobId {
        assert EdgeSound(par, jobEdges, edges, e);
      }
      ClimbingNeverCycles(edges.Keys, (x: TaskId) => x.jobId, (t, u));
      AddEdge((t, u), kind);
      forall e ensures EdgeSound(par, jobEdges, edges, e) {
        assert EdgeSound(par, jobEdges, before, e);
      }
    }

    /** Pairs by number; equal parallelism keeps the index in bounds. */
    method JoinForward(p: nat, c: nat, from: seq<TaskId>, to: seq<TaskId>)
      requires Sound() && (p, c) in jobEdges && jobEdges[(p, c)] == Forward
      requires p in par && c in par && from == TasksOf(par, p) && to == TasksOf(par, c)
      modifies this`edges
      ensures Sound() && Extends(old(edges)) && forall i | 0 <= i < |from| :: (from[i], to[i]) in edges
    {
      for i := 0 to |from|
        invariant Sound() && Extends(old(edges)) && forall k | 0 <= k < i :: (from[k], to[k]) in edges
      {
        Join(from[i], to[i], Memory);
      }
    }

    method JoinAll(p: nat, c: nat, from: seq<TaskId>, to: seq<TaskId>)
      requires Sound() && (p, c) in jobEdges && jobEdges[(p, c)] == ReBalance
      requires p in par && c in par && from == TasksOf(par, p) && to == TasksOf(par, c)
      modifies this`edges
      ensures Sound() && Extends(old(edges))
      ensures forall i, k | 0 <= i < |from| && 0 <= k < |to| :: (from[i], to[k]) in edges
    {
      for i := 0 to |from|
        invariant Sound() && Extends(old(edges))
        invariant forall h, k | 0 <= h < i && 0 <= k < |to| :: (from[h], to[k]) in edges
      {
        for k := 0 to |to|
          invariant Sound() && Extends(old(edges))
          invariant forall h, k | 0 <= h < i && 0 <= k < |to| :: (from[h], to[k]) in edges
          invariant forall h | 0 <= h < k :: (from[i], to[h]) in edges
        {
          Join(from[i], to[k], Network);
        }
      }
    }

    ghost predicate JobsJoined(p: nat, c: nat)
      reads this
    {
      forall t, u | Joined(par, jobEdges, t, u) && t.jobId == p && u.jobId == c :: (t, u) in edges
    }

    method JoinJobs(p: nat, c: nat, lists: map<nat, seq<TaskId>>)
      requires Sound() && (p, c) in jobEdges
      requires lists.Keys == par.Keys && forall j | j in par :: lists[j] == TasksOf(par, j)
      modifies this`edges
      ensures Sound() && Extends(old(edges)) && JobsJoined(p, c)
    {
      var from, to := lists[p], lists[c];
      match jobEdges[(p, c)]
      case Forward => JoinForward(p, c, from, to);
      case ReBalance => JoinAll(p, c, from, to);
      forall t, u | Joined(par, jobEdges, t, u) && t.jobId == p && u.jobId == c ensures (t, u) in edges {
        assert t == from[t.taskNumber] && u == to[u.taskNumber];
      }
    }

    method JoinChildren(p: nat, lists: map<nat, seq<TaskId>>)
      requires Sound() && p in par
      requires lists.Keys == par.Keys && forall j | j in par :: lists[j] == TasksOf(par, j)
      modifies this`edges
      ensures Sound() && Extends(old(edges)) && forall c | (p, c) in jobEdges :: JobsJoined(p, c)
    {
      var todo := set e | e in jobEdges && e.0 == p :: e.1;
      while todo != {}
        invariant Sound() && Extends(old(edges)) && forall c | c in todo :: (p, c) in jobEdges
        invariant forall c | (p, c) in jobEdges && c !in todo :: JobsJoined(p, c)
      {
        var c :| c in todo;
        JoinJobs(p, c, lists);
        todo := todo - {c};
      }
    }

    /** The tasks are joined as `Joined` says, each with the kind of its job edge, and by nothing else. */
    method BuildEdges(lists: map<nat, seq<TaskId>>)
      requires WellJoined(par, jobEdges) && edges == map[]
      requires lists.Keys == par.Keys && forall j | j in par :: lists[j] == TasksOf(par, j)
      modifies this`edges
      ensures Wired(par, jobEdges, edges)
    {
      var todo := lists.Keys;
      while todo != {}
        invariant Sound() && todo <= par.Keys
        invariant forall p, c | (p, c) in jobEdges && p !in todo :: JobsJoined(p, c)
      {
        var p :| p in todo;
        JoinChildren(p, lists);
        todo := todo - {p};
      }
      forall t, u ensures (t, u) in edges <==> Joined(par, jobEdges, t, u) {
        assert EdgeSound(par, jobEdges, edges, (t, u));
        if Joined(par, jobEdges, t, u) {
          assert JobsJoined(t.jobId, u.jobId);
        }
      }
      forall e | e in edges ensures edges[e] == KindOf(jobEdges[(e.0.jobId, e.1.jobId)]) {
        assert EdgeSound(par, jobEdges, edges, e);
      }
    }
  }

  /** A finished execution graph. */
  ghost predicate Wired(par: Jobs, jobEdges: map<Edge, JobEdge>, edges: TaskEdges) {
    && (forall t, u :: (t, u) in edges <==> Joined(par, jobEdges, t, u))
    && (forall e | e in edges :: edges[e] == KindOf(jobEdges[(e.0.jobId, e.1.jobId)]))
  }

  // ----- how many channels a task has

  ghost function FirstTasks(j: nat, total: nat, n: nat): set<TaskId> {
    set i | 0 <= i < n :: TaskId(j, i, total)
  }

  lemma {:induction false} TaskCount(j: nat, total: nat, n: nat)
    ensures |FirstTasks(j, total, n)| == n
  {
    if n == 0 {
      assert FirstTasks(j, total, n) == {};
    } else {
      TaskCount(j, total, n - 1);
      assert FirstTasks(j, total, n) == FirstTasks(j, total, n - 1) + {TaskId(j, n - 1, total)};
    }
  }

  lemma TaskSetCount(par: Jobs, j: nat)
    requires j in par
    ensures |set t | t in TasksOf(par, j)| == par[j]
  {
    TaskCount(j, par[j], par[j]);
    assert (set t | t in TasksOf(par, j)) == FirstTasks(j, par[j], par[j]);
  }

  /** A task has one parent in a job that forwards to its own, and every task of one that rebalances. */
  lemma ParentCount(par: Jobs, jobEdges: map<Edge, JobEdge>, p: nat, u: TaskId)
    requires WellJoined(par, jobEdges) && IsTask(par, u) && (p, u.jobId) in jobEdges
    ensures var parents := set t | t in TasksOf(par, p) && Joined(par, jobEdges, t, u);
      |parents| == if jobEdges[(p, u.jobId)] == Forward then 1 else par[p]
  {
    var parents := set t | t in TasksOf(par, p) && Joined(par, jobEdges, t, u);
    if jobEdges[(p, u.jobId)] == Forward {
      assert parents == {TasksOf(par, p)[u.taskNumber]};
    } else {
      TaskSetCount(par, p);
      assert parents == set t | t in TasksOf(par, p);
    }
  }

  /** A task has one child, of its own number, across a `Forward` edge, and every task of the child job otherwise. */
  lemma ChildrenOfTask(par: Jobs, jobEdges: map<Edge, JobEdge>, t: TaskId, c: nat, u: TaskId)
    requires WellJoined(par, jobEdges) && IsTask(par, t) && (t.jobId, c) in jobEdges && u.jobId == c
    ensures Joined(par, jobEdges, t, u) <==>
      if jobEdges[(t.jobId, c)] == Forward then u == TaskId(c, t.taskNumber, t.numTasks) else u in TasksOf(par, c)
  {
  }

  lemma AppendTasks(par: Jobs, before: seq<TaskId>, todo: set<nat>, j: nat)
    requires j in todo && todo <= par.Keys
    requires NoDuplicates(before) && forall t :: t in before <==> IsTask(par, t) && t.jobId !in todo
    ensures var after := before + TasksOf(par, j);
      NoDuplicates(after) && forall t :: t in after <==> IsTask(par, t) && t.jobId !in todo - {j}
  {
    assert forall k | 0 <= k < |before| :: before[k] in before;
  }
}
