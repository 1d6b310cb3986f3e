/**
 * The whole way from a program to its workers: stream graph, jobs, job edges, tasks, channels,
 * chains, workers (`rlink/src/dag/stream_graph.rs`, `job_graph.rs`, `execution_graph.rs`,
 * `physic_graph.rs`).
 */
module DagCompiler {
  import opened Prelude
  import opened Tasks
  import opened StreamGraph
  import opened JobGraph
  import opened JobNodeBuilders
  import opened JobEdges
  import opened ExecutionGraph
  import opened PhysicGraph
  import opened TaskAllocation

  type JobLinks = map<JobEdges.Edge, JobEdge>

  /** A job feeds at most one job. */
  ghost predicate OneChildJob(jobEdges: JobLinks) {
    forall e, f | e in jobEdges && f in jobEdges && e.0 == f.0 :: e == f
  }

  /** Then a task has at most one memory child, so the memory edges form a forest. */
  lemma MemoryEdgesAreForest(par: Jobs, jobEdges: JobLinks, edges: TaskEdges)
    requires WellJoined(par, jobEdges) && OneChildJob(jobEdges) && ExecutionGraph.Wired(par, jobEdges, edges)
    ensures Forest(Links(edges))
  {
    forall e | e in Links(edges)
      ensures Joined(par, jobEdges, e.0, e.1) && jobEdges[(e.0.jobId, e.1.jobId)] == Forward && e.0.jobId < e.1.jobId
    {
      assert e == (e.0, e.1);
    }
    forall e, f | e in Links(edges) && f in Links(edges) && e.0 == f.0 ensures e == f {
      assert (e.0.jobId, e.1.jobId) == (f.0.jobId, f.1.jobId);
    }
  }

  /** Jobs built from a program: their children are jobs, later ones, and at most one each. */
  lemma BuiltJobsFeedOne(g: Graph, jobs: map<nat, JobNode>)
    requires Good(g) && Builds(g)
    requires forall s: nat :: s in jobs <==> s < |g| && g[s].kind == Source
    requires forall s | s in jobs :: jobs[s].childJobs == ChildJobs(g, s)
    ensures ChildrenAreJobs(jobs) && forall s | s in jobs :: |jobs[s].childJobs| <= 1
  {
    forall s | s in jobs ensures |jobs[s].childJobs| <= 1 && forall c | c in jobs[s].childJobs :: c in jobs && s < c {
      JobEdgesGoUp(g, s);
    }
  }

  /** The edges of the job graph meet what the execution graph assumes. */
  lemma EdgesAreWellJoined(g: Graph, jobs: map<nat, JobNode>, edges: JobLinks, par: Jobs)
    requires ChildrenAreJobs(jobs) && forall s | s in jobs :: |jobs[s].childJobs| <= 1
    requires forall e | e in edges :: EdgeFits(g, jobs, e, edges[e])
    requires par.Keys == jobs.Keys && forall s | s in jobs :: par[s] == jobs[s].parallelism
    ensures WellJoined(par, edges) && OneChildJob(edges)
  {
    forall e | e in edges
      ensures e.0 in par && e.1 in par && e.0 < e.1 && (edges[e] == Forward ==> par[e.0] == par[e.1])
    {
      assert EdgeFits(g, jobs, e, edges[e]);
    }
    forall e, f | e in edges && f in edges && e.0 == f.0 ensures e == f {
      assert EdgeFits(g, jobs, e, edges[e]) && EdgeFits(g, jobs, f, edges[f]);
      assert e == (e.0, e.1) && f == (f.0, f.1);
    }
  }

  /** Every job has an edge, or there is none. */
  ghost predicate NoLoneJob(par: Jobs, jobEdges: JobLinks) {
    jobEdges == map[] || forall j | j in par :: exists e :: e in jobEdges && (e.0 == j || e.1 == j)
  }

  /** Then every task has a channel, or there is none, and so every task gets a chain. */
  lemma EveryTaskIsChained(par: Jobs, jobEdges: JobLinks, tasks: seq<TaskId>, edges: TaskEdges)
    requires WellJoined(par, jobEdges) && ExecutionGraph.Wired(par, jobEdges, edges) && NoLoneJob(par, jobEdges)
    requires (forall j | j in par :: par[j] > 0) && forall t :: t in tasks <==> IsTask(par, t)
    ensures forall t :: t in ChainedTasks(tasks, edges) <==> IsTask(par, t)
  {
    forall t ensures t in Ends(edges.Keys) ==> IsTask(par, t) {
      if t in Ends(edges.Keys) {
        var e :| e in edges.Keys && (e.0 == t || e.1 == t);
        assert e == (e.0, e.1);
      }
    }
    if edges != map[] {
      var e0 :| e0 in edges.Keys;
      assert e0 == (e0.0, e0.1) && (e0.0.jobId, e0.1.jobId) in jobEdges;
      forall t | IsTask(par, t) ensures t in Ends(edges.Keys) {
        TaskHasAnEdge(par, jobEdges, edges, t);
      }
    }
  }

  lemma TaskHasAnEdge(par: Jobs, jobEdges: JobLinks, edges: TaskEdges, t: TaskId)
    requires WellJoined(par, jobEdges) && ExecutionGraph.Wired(par, jobEdges, edges) && NoLoneJob(par, jobEdges)
    requires (forall j | j in par :: par[j] > 0) && IsTask(par, t) && jobEdges != map[]
    ensures t in Ends(edges.Keys)
  {
    var e :| e in jobEdges && (e.0 == t.jobId || e.1 == t.jobId);
    var forward := jobEdges[e] == Forward;
    EndsExact(edges.Keys);
    if e.0 == t.jobId {
      var u := TaskId(e.1, if forward then t.taskNumber else 0, par[e.1]);
      assert e == (t.jobId, u.jobId) && Joined(par, jobEdges, t, u);
      assert (t, u) in edges.Keys;
    } else {
      var u := TaskId(e.0, if forward then t.taskNumber else 0, par[e.0]);
      assert e == (u.jobId, t.jobId) && Joined(par, jobEdges, u, t);
      assert (u, t) in edges.Keys;
    }
  }

  lemma JobEdgesMeanEdges(par: Jobs, jobEdges: JobLinks, edges: TaskEdges, e: JobEdges.Edge)
    requires WellJoined(par, jobEdges) && ExecutionGraph.Wired(par, jobEdges, edges) && e in jobEdges
    requires forall j | j in par :: par[j] > 0
    ensures edges != map[]
  {
    var t, u := TaskId(e.0, 0, par[e.0]), TaskId(e.1, 0, par[e.1]);
    assert e == (t.jobId, u.jobId) && Joined(par, jobEdges, t, u);
    assert (t, u) in edges;
  }

  /** A job that stands alone beside joined ones is lost: its tasks get no chain. */
  lemma LoneJobIsLost(par: Jobs, jobEdges: JobLinks, tasks: seq<TaskId>, edges: TaskEdges, t: TaskId)
    requires WellJoined(par, jobEdges) && ExecutionGraph.Wired(par, jobEdges, edges) && jobEdges != map[]
    requires forall j | j in par :: par[j] > 0
    requires forall e | e in jobEdges :: e.0 != t.jobId && e.1 != t.jobId
    ensures t !in ChainedTasks(tasks, edges)
  {
    var some :| some in jobEdges;
    JobEdgesMeanEdges(par, jobEdges, edges, some);
    forall e | e in edges.Keys ensures e.0 != t && e.1 != t {
      assert e == (e.0, e.1) && Joined(par, jobEdges, e.0, e.1);
    }
  }

  function Parallelism(jobs: map<nat, JobNode>): Jobs {
    map s | s in jobs :: jobs[s].parallelism
  }

  // ----- the job edges, read off the stream graph

  ghost predicate IsSource(g: Graph, s: nat) {
    s < |g| && g[s].kind == Source
  }

  /** The sink of the first job feeds the source of the second. */
  ghost predicate Feeds(g: Graph, e: JobEdges.Edge)
    requires Good(g) && Builds(g)
  {
    IsSource(g, e.0) && e.1 in ChildJobs(g, e.0)
  }

  ghost predicate Reduces(g: Graph, s: nat)
    requires Good(g) && Builds(g) && IsSource(g, s)
  {
    exists n :: n in JobOf(g, s) && n < |g| && g[n].kind == Reduce
  }

  /** Records are dealt anew to a reduce job and between jobs of different parallelism, which a reduce job must not feed. */
  ghost function Link(g: Graph, e: JobEdges.Edge): Result<JobEdge>
    requires Good(g) && Builds(g) && Feeds(g, e)
  {
    JobEdgesGoUp(g, e.0);
    if Reduces(g, e.1) then Ok(ReBalance)
    else if JobParallelism(g, e.0) == JobParallelism(g, e.1) then Ok(Forward)
    else if Reduces(g, e.0) then Err(ReduceOutputParallelismConflict)
    else Ok(ReBalance)
  }

  ghost predicate Joins(g: Graph)
    requires Good(g) && Builds(g)
  {
    forall e | Feeds(g, e) :: Link(g, e).Ok?
  }

  /** The job edges are those of the program, each of its kind. */
  ghost predicate Joining(g: Graph, jobEdges: JobLinks)
    requires Good(g) && Builds(g)
  {
    && (forall e: JobEdges.Edge :: e in jobEdges <==> Feeds(g, e))
    && (forall e | e in jobEdges :: Link(g, e) == Ok(jobEdges[e]))
  }

  /** There is a job for each source, with the source's parallelism, which is positive. */
  ghost predicate Sized(g: Graph, par: Jobs)
    requires Good(g) && Builds(g)
  {
    forall s: nat :: (s in par <==> IsSource(g, s)) && (IsSource(g, s) && s in par ==> par[s] == JobParallelism(g, s) > 0)
  }

  /** The jobs as `JobNodeBuilders.Build` returns them. */
  ghost predicate AreJobsOf(g: Graph, jobs: map<nat, JobNode>)
    requires Good(g) && Builds(g)
  {
    && (forall s: nat :: s in jobs <==> IsSource(g, s))
    && (forall s | s in jobs ::
          jobs[s].streamNodes == JobOf(g, s) && jobs[s].childJobs == ChildJobs(g, s) && jobs[s].parallelism == JobParallelism(g, s))
  }

  lemma EdgesOfBuilt(g: Graph, jobs: map<nat, JobNode>, e: JobEdges.Edge)
    requires Good(g) && Builds(g) && AreJobsOf(g, jobs)
    ensures IsEdge(jobs, e) <==> Feeds(g, e)
    ensures Feeds(g, e) ==> e.1 in jobs && EdgeKind(g, jobs[e.0], jobs[e.1]) == Link(g, e)
  {
    if Feeds(g, e) {
      JobEdgesGoUp(g, e.0);
      assert IsReduceJob(g, jobs[e.0]) <==> Reduces(g, e.0);
      assert IsReduceJob(g, jobs[e.1]) <==> Reduces(g, e.1);
    }
  }

  /** From the stream graph to the joined jobs: fails exactly when a source reaches no sink or a reduce job feeds a job of another parallelism. */
  method CompileJobs(g: Graph) returns (r: Result<JobLinks>, par: Jobs)
    requires Good(g) && (Builds(g) ==> SourcesAreParallel(g))
    ensures r.Ok? <==> Builds(g) && Joins(g)
    ensures r.Ok? ==> Sized(g, par)
    ensures r.Ok? ==> Joining(g, r.value) && WellJoined(par, r.value) && OneChildJob(r.value)
  {
    par := map[];
    var built := Build(g);
    if built.Err? {
      r := Err(built.error);
      return;
    }
    var jobs := built.value;
    BuiltJobsFeedOne(g, jobs);
    forall e: JobEdges.Edge
      ensures IsEdge(jobs, e) <==> Feeds(g, e)
      ensures Feeds(g, e) ==> e.1 in jobs && EdgeKind(g, jobs[e.0], jobs[e.1]) == Link(g, e)
    {
      EdgesOfBuilt(g, jobs, e);
    }
    var dag := new JobDag(g, jobs);
    var joined := dag.BuildJobEdges();
    if joined.Err? {
      r := Err(joined.error);
      return;
    }
    par, r := Parallelism(jobs), Ok(dag.edges);
    forall e | e in dag.edges ensures Link(g, e) == Ok(dag.edges[e]) {
      assert EdgeFits(g, jobs, e, dag.edges[e]);
    }
    EdgesAreWellJoined(g, jobs, dag.edges, par);
  }

  /** Every task is on exactly one worker, exactly once, beside its memory neighbours. */
  ghost predicate WellPlaced(par: Jobs, edges: TaskEdges, workers: seq<seq<TaskId>>) {
    && (forall w | 0 <= w < |workers| :: NoDuplicates(workers[w]))
    && (forall e, w | e in Links(edges) && 0 <= w < |workers| :: e.0 in workers[w] <==> e.1 in workers[w])
    && (forall t :: IsTask(par, t) <==> exists w :: 0 <= w < |workers| && OnlyOn(workers, t, w))
  }

  /**
   * From the joined jobs to the workers. `splits` is how many input splits the source of a job
   * makes for a parallelism.
   */
  method CompileTasks(par: Jobs, jobEdges: JobLinks, splits: (nat, nat) -> nat, n: nat)
    returns (r: Result<seq<seq<TaskId>>>, edges: TaskEdges)
    requires WellJoined(par, jobEdges) && OneChildJob(jobEdges) && n > 0
    ensures r.Ok? <==> forall j | j in par :: splits(j, par[j]) == par[j] > 0
    ensures r.Ok? ==> |r.value| == n && ExecutionGraph.Wired(par, jobEdges, edges)
    ensures r.Ok? && NoLoneJob(par, jobEdges) ==> WellPlaced(par, edges, r.value)
  {
    edges := map[];
    var dag := new ExecutionDag(par, jobEdges);
    var lists := dag.BuildNodes(map j | j in par :: splits(j, par[j]));
    if lists.Err? {
      r := Err(lists.error);
      return;
    }
    dag.BuildEdges(lists.value);
    edges := dag.edges;
    MemoryEdgesAreForest(par, jobEdges, edges);
    var workers, order := Allocate(dag.tasks, edges, n);
    r := Ok(workers);
    if NoLoneJob(par, jobEdges) {
      EveryTaskIsChained(par, jobEdges, dag.tasks, edges);
      PlacedAreTasks(par, ChainedTasks(dag.tasks, edges), workers);
    }
  }

  lemma PlacedAreTasks(par: Jobs, all: set<TaskId>, workers: seq<seq<TaskId>>)
    requires forall t :: t in all <==> IsTask(par, t)
    requires forall w, t | 0 <= w < |workers| && t in workers[w] :: t in all
    requires forall t | t in all :: exists w :: 0 <= w < |workers| && OnlyOn(workers, t, w)
    ensures forall t :: IsTask(par, t) <==> exists w :: 0 <= w < |workers| && OnlyOn(workers, t, w)
  {
    forall t ensures IsTask(par, t) <==> exists w :: 0 <= w < |workers| && OnlyOn(workers, t, w) {
      if w :| 0 <= w < |workers| && OnlyOn(workers, t, w) {
        assert t in workers[w];
      }
    }
  }

  ghost predicate SplitsFit(g: Graph, splits: (nat, nat) -> nat)
    requires Good(g) && Builds(g)
  {
    forall s: nat | IsSource(g, s) :: splits(s, JobParallelism(g, s)) == JobParallelism(g, s)
  }

  /**
   * Compiling a program. It succeeds exactly when every source reaches a sink, no reduce job
   * feeds a job of another parallelism and every source makes as many splits as its job has
   * tasks. Then every job has its parallelism, the job edges are those of the program, its tasks
   * are joined as they say, and unless some job stands alone beside others, every task is placed
   * once.
   */
  method Compile(g: Graph, splits: (nat, nat) -> nat, n: nat)
    returns (r: Result<seq<seq<TaskId>>>, par: Jobs, jobEdges: JobLinks, edges: TaskEdges)
    requires Good(g) && (Builds(g) ==> SourcesAreParallel(g)) && n > 0
    ensures r.Ok? <==> Builds(g) && Joins(g) && SplitsFit(g, splits)
    ensures r.Ok? ==> Sized(g, par)
    ensures r.Ok? ==> Joining(g, jobEdges) && OneChildJob(jobEdges)
    ensures r.Ok? ==> WellJoined(par, jobEdges) && ExecutionGraph.Wired(par, jobEdges, edges)
    ensures r.Ok? ==> |r.value| == n && (NoLoneJob(par, jobEdges) ==> WellPlaced(par, edges, r.value))
  {
    jobEdges, edges := map[], map[];
    var joined;
    joined, par := CompileJobs(g);
    if joined.Err? {
      r := Err(joined.error);
      return;
    }
    jobEdges := joined.value;
    r, edges := CompileTasks(par, jobEdges, splits, n);
  }
}
