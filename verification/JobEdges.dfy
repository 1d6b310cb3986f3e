/**
 * Joining the jobs: `JobGraph::build_job_edges` of `rlink/src/dag/job_graph.rs`.
 */
module JobEdges {
  import opened StreamGraph
  import opened JobNodeBuilders
  import opened Dags

  datatype JobEdge = Forward | ReBalance

  type Edge = (nat, nat)

  predicate IsReduceJob(g: Graph, job: JobNode) {
    exists n | n in job.streamNodes :: n < |g| && g[n].kind == Reduce
  }

  function EdgeKind(g: Graph, parent: JobNode, child: JobNode): Result<JobEdge> {
    if IsReduceJob(g, child) then Ok(ReBalance)
    else if IsReduceJob(g, parent) then
      if parent.parallelism != child.parallelism then Err(ReduceOutputParallelismConflict) else Ok(Forward)
    else if parent.parallelism == child.parallelism then Ok(Forward)
    else Ok(ReBalance)
  }

  // ----- the edges of the job graph

  /** The jobs' children exist and come later. */
  ghost predicate ChildrenAreJobs(jobs: map<nat, JobNode>) {
    forall j, c | j in jobs && c in jobs[j].childJobs :: c in jobs && j < c
  }

  ghost predicate IsEdge(jobs: map<nat, JobNode>, e: Edge) {
    e.0 in jobs && e.1 in jobs[e.0].childJobs
  }

  ghost predicate EdgeFits(g: Graph, jobs: map<nat, JobNode>, e: Edge, kind: JobEdge) {
    IsEdge(jobs, e) && e.1 in jobs && e.0 < e.1 && EdgeKind(g, jobs[e.0], jobs[e.1]) == Ok(kind)
  }

  class JobDag {
    const g: Graph
    const jobs: map<nat, JobNode>
    var edges: map<Edge, JobEdge>

    constructor (g: Graph, jobs: map<nat, JobNode>)
      ensures this.g == g && this.jobs == jobs && edges == map[]
    {
      this.g, this.jobs, edges := g, jobs, map[];
    }

    ghost predicate Valid()
      reads this
    {
      && ChildrenAreJobs(jobs)
      && forall e {:trigger EdgeFits(g, jobs, e, edges[e])} | e in edges :: EdgeFits(g, jobs, e, edges[e])
    }

    /** The library call; its error is excluded by the precondition, which callers establish. */
    method AddEdge(e: Edge, kind: JobEdge)
      requires !WouldCycle(edges.Keys, e)
      modifies this
      ensures edges == old(edges)[e := kind]
    {
      edges := edges[e := kind];
    }

    /** No edge of the job graph closes a cycle. */
    method AddFitting(e: Edge, kind: JobEdge)
      requires Valid() && EdgeFits(g, jobs, e, kind)
      modifies this
      ensures Valid() && edges == old(edges)[e := kind] && (e in old(edges) ==> old(edges)[e] == kind)
    {
      ghost var before := edges;
      assert e in edges ==> EdgeFits(g, jobs, e, edges[e]);
      forall f | f in edges ensures f.0 < f.1 {
        assert EdgeFits(g, jobs, f, edges[f]);
      }
      ClimbingNeverCycles(edges.Keys, (j: nat) => j, e);
      AddEdge(e, kind);
      forall f | f in edges ensures EdgeFits(g, jobs, f, edges[f]) {
        assert f != e ==> EdgeFits(g, jobs, f, before[f]);
      }
    }

    method BuildJobEdge(j: nat) returns (r: Result<bool>)
      requires Valid() && j in jobs
      modifies this
      ensures Valid() && forall e | e in old(edges) :: e in edges && edges[e] == old(edges)[e]
      ensures r.Ok? ==> forall c | c in jobs[j].childJobs :: (j, c) in edges
      ensures r.Err? ==> r.error == ReduceOutputParallelismConflict
      ensures r.Err? ==> exists c :: IsEdge(jobs, (j, c)) && c in jobs && EdgeKind(g, jobs[j], jobs[c]) == Err(r.error)
    {
      var children := jobs[j].childJobs;
      for i := 0 to |children|
        invariant Valid() && forall e | e in old(edges) :: e in edges && edges[e] == old(edges)[e]
        invariant forall k | 0 <= k < i :: (j, children[k]) in edges
      {
        var c := children[i];
        assert c in jobs[j].childJobs && IsEdge(jobs, (j, c));
        var kind := EdgeKind(g, jobs[j], jobs[c]);
        if kind.Err? {
          return Err(kind.error);
        }
        AddFitting((j, c), kind.value);
      }
      return Ok(true);
    }

    /**
     * The jobs are joined in any order. Building fails exactly when a reduce job feeds a job
     * of another parallelism; otherwise every job edge is there, with its kind.
     */
    method BuildJobEdges() returns (r: Result<bool>)
      requires ChildrenAreJobs(jobs) && edges == map[]
      modifies this
      ensures r.Err? ==> r.error == ReduceOutputParallelismConflict
      ensures r.Ok? <==> forall e | IsEdge(jobs, e) :: e.1 in jobs && EdgeKind(g, jobs[e.0], jobs[e.1]).Ok?
      ensures r.Ok? ==> Valid() && forall e: Edge :: e in edges <==> IsEdge(jobs, e)
    {
      var todo := jobs.Keys;
      while todo != {}
        invariant Valid() && todo <= jobs.Keys
        invariant forall e | IsEdge(jobs, e) && e.0 !in todo :: e in edges
      {
        var j :| j in todo;
        ghost var before := edges;
        r := BuildJobEdge(j);
        if r.Err? {
          return;
        }
        todo := todo - {j};
        forall e | IsEdge(jobs, e) && e.0 !in todo ensures e in edges {
          assert e == (e.0, e.1);
          assert e.0 != j ==> e in before;
        }
      }
      forall e | e in edges ensures EdgeFits(g, jobs, e, edges[e]) {}
      assert forall e | IsEdge(jobs, e) :: e in edges && EdgeFits(g, jobs, e, edges[e]);
      return Ok(true);
    }
  }

  /** `Forward` joins jobs of equal parallelism only, and never leads to a reduce job. */
  lemma ForwardMeansEqual(g: Graph, parent: JobNode, child: JobNode)
    requires EdgeKind(g, parent, child) == Ok(Forward)
    ensures parent.parallelism == child.parallelism && !IsReduceJob(g, child)
  {
  }
}
