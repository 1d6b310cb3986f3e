/**
 * Building the jobs and giving each its parallelism: `JobNodeBuilder` of
 * `rlink/src/dag/job_graph.rs`.
 */
module JobNodeBuilders {
  import opened Prelude
  import opened StreamGraph
  import opened JobGraph

  datatype JobNode = JobNode(jobId: nat, parallelism: nat, streamNodes: seq<nat>, childJobs: seq<nat>, parentJobs: seq<nat>)

  function MaxParallelism(g: Graph, ids: seq<nat>): nat
    requires Known(g, ids)
  {
    if ids == [] then DEFAULT_PARALLELISM
    else Max(MaxParallelism(g, ids[..|ids| - 1]), g[ids[|ids| - 1]].parallelism)
  }

  /** The job of source `s`, but for its parents. */
  ghost predicate IsJobOf(g: Graph, s: nat, job: JobNode)
    requires Good(g)
  {
    && s < |g| && g[s].kind == Source && Chain(g, s) == Ok(job.streamNodes)
    && job.streamNodes != [] && Known(g, job.streamNodes)
    && job.jobId == s && job.parallelism == MaxParallelism(g, job.streamNodes)
    && job.childJobs == Children(g, Last(job.streamNodes))
  }

  /** The walk from a source down to its sink. */
  method BuildJobNode(g: Graph, source: nat) returns (r: Result<JobNode>)
    requires Good(g) && source < |g| && g[source].kind == Source
    ensures r.Err? ==> Chain(g, source) == Err(r.error)
    ensures r.Ok? ==> IsJobOf(g, source, r.value)
  {
    var ids: seq<nat>, parallelism, jobId, node := [], DEFAULT_PARALLELISM, 0, source;
    PrependNothing(Chain(g, source));
    while true
      invariant node < |g| && Known(g, ids)
      invariant Chain(g, source) == Prepend(ids, Chain(g, node))
      invariant parallelism == MaxParallelism(g, ids)
      invariant if ids == [] then node == source else jobId == source && g[node].kind != Source
      decreases |g| - node
    {
      var children := Children(g, node);
      PrependAssoc(ids, [node], if |children| == 1 && node < children[0] < |g| then Chain(g, children[0]) else Ok([]));
      assert (ids + [node])[..|ids|] == ids;
      ids := ids + [node];
      parallelism := Max(parallelism, g[node].parallelism);
      if g[node].kind == Source {
        jobId := node;
      }
      if g[node].kind == Sink {
        return Ok(JobNode(jobId, parallelism, ids, children, []));
      }
      if |children| == 0 {
        return Err(ChildNotFoundInPipeline);
      }
      if |children| > 1 {
        return Err(MultiChildrenInPipeline);
      }
      ChildIsAbove(g, node, children[0]);
      assert NodeShaped(g, children[0]);
      node := children[0];
    }
  }

  // ----- the parents of each job

  type Lists = map<nat, seq<nat>>

  function ListOf(c2p: Lists, d: nat): seq<nat> {
    if d in c2p then c2p[d] else []
  }

  /** Those among the first `n` of `order` that feed `d`. */
  function ParentsIn(jobs: map<nat, JobNode>, order: seq<nat>, n: nat, d: nat): seq<nat>
    requires n <= |order| && forall k | 0 <= k < n :: order[k] in jobs
  {
    if n == 0 then [] else
      ParentsIn(jobs, order, n - 1, d) + (if d in jobs[order[n - 1]].childJobs then [order[n - 1]] else [])
  }

  lemma {:induction false} ParentsExact(jobs: map<nat, JobNode>, order: seq<nat>, n: nat, d: nat, s: nat)
    requires n <= |order| && forall k | 0 <= k < n :: order[k] in jobs
    ensures s in ParentsIn(jobs, order, n, d) <==> s in order[..n] && d in jobs[s].childJobs
  {
    if n > 0 {
      ParentsExact(jobs, order, n - 1, d, s);
      assert order[..n] == order[..n - 1] + [order[n - 1]];
    }
  }

  lemma {:induction false} ParentsDistinct(jobs: map<nat, JobNode>, order: seq<nat>, n: nat, d: nat)
    requires n <= |order| && forall k | 0 <= k < n :: order[k] in jobs
    requires forall a, b | 0 <= a < b < |order| :: order[a] < order[b]
    ensures NoDuplicates(ParentsIn(jobs, order, n, d))
  {
    if n > 0 {
      var front := ParentsIn(jobs, order, n - 1, d);
      ParentsDistinct(jobs, order, n - 1, d);
      ParentsExact(jobs, order, n - 1, d, order[n - 1]);
      assert forall k | 0 <= k < |front| :: front[k] in front;
    }
  }

  lemma {:induction false} ParentsFrame(jobs: map<nat, JobNode>, jobs': map<nat, JobNode>, order: seq<nat>, n: nat, d: nat)
    requires n <= |order| && forall k | 0 <= k < n :: order[k] in jobs
    requires forall s | s in jobs :: s in jobs' && jobs'[s].childJobs == jobs[s].childJobs
    ensures ParentsIn(jobs', order, n, d) == ParentsIn(jobs, order, n, d)
  {
    if n > 0 {
      ParentsFrame(jobs, jobs', order, n - 1, d);
    }
  }

  ghost predicate AddedAt(c2p: Lists, c2p': Lists, children: seq<nat>, parent: nat, d: nat) {
    && (d in c2p' ==> c2p'[d] != [])
    && ListOf(c2p', d) == ListOf(c2p, d) + (if d in children then [parent] else [])
  }

  method AddParent(c2p: Lists, children: seq<nat>, parent: nat) returns (r: Lists)
    requires NoDuplicates(children) && forall d | d in c2p :: c2p[d] != []
    ensures forall d: nat :: AddedAt(c2p, r, children, parent, d)
  {
    r := c2p;
    for k := 0 to |children|
      invariant forall d: nat :: AddedAt(c2p, r, children[..k], parent, d)
    {
      ghost var before, c, done := r, children[k], children[..k + 1];
      assert AddedAt(c2p, before, children[..k], parent, c) && c !in children[..k];
      r := r[children[k] := ListOf(r, children[k]) + [parent]];
      forall d: nat ensures AddedAt(c2p, r, done, parent, d) {
        assert AddedAt(c2p, before, children[..k], parent, d);
        assert done == children[..k] + [c];
      }
    }
    assert children[..|children|] == children;
  }

  /** The jobs of the first `n` sources. */
  ghost predicate Collected(g: Graph, order: seq<nat>, n: nat, jobs: map<nat, JobNode>)
    requires Good(g) && n <= |order|
  {
    && (forall s: nat :: s in jobs <==> s in order[..n])
    && (forall s {:trigger IsJobOf(g, s, jobs[s])} | s in jobs :: IsJobOf(g, s, jobs[s]))
  }

  ghost predicate ListedAt(c2p: Lists, jobs: map<nat, JobNode>, order: seq<nat>, n: nat, d: nat)
    requires n <= |order| && forall k | 0 <= k < n :: order[k] in jobs
  {
    (d in c2p ==> c2p[d] != []) && ListOf(c2p, d) == ParentsIn(jobs, order, n, d)
  }

  ghost predicate ParentsListed(c2p: Lists, jobs: map<nat, JobNode>, order: seq<nat>, n: nat)
    requires n <= |order| && forall k | 0 <= k < n :: order[k] in jobs
  {
    forall d: nat :: ListedAt(c2p, jobs, order, n, d)
  }

  /** The jobs of a graph that builds, each with its parents in the order of the sources. */
  ghost predicate JobTable(g: Graph, jobs: map<nat, JobNode>, c2p: Lists)
    requires Good(g)
  {
    var order := SourceIds(g);
    && Collected(g, order, |order|, jobs)
    && ParentsListed(c2p, jobs, order, |order|)
    && forall s | s in jobs :: jobs[s].parentJobs == ListOf(c2p, s)
  }

  function WithParents(jobs: map<nat, JobNode>, c2p: Lists): map<nat, JobNode> {
    map s | s in jobs :: jobs[s].(parentJobs := ListOf(c2p, s))
  }

  // ----- parallelism

  predicate IsCoProcessJob(g: Graph, job: JobNode) {
    exists n | n in job.streamNodes :: n < |g| && g[n].kind == CoProcess
  }

  /** A job and the jobs that feed it; its left parent is the one whose sink its source lists last. */
  ghost predicate WiredAt(g: Graph, c2p: Lists, jobs: map<nat, JobNode>, d: nat) {
    && d in c2p && d in jobs
    && c2p[d] != [] && (forall p | p in c2p[d] :: p in jobs && p < d)
    && (|c2p[d]| >= 2 ==> IsCoProcessJob(g, jobs[d]))
    && exists p :: IsLeft(g, c2p, jobs, d, p)
  }

  ghost predicate IsLeft(g: Graph, c2p: Lists, jobs: map<nat, JobNode>, d: nat, p: nat) {
    && d in c2p && p in c2p[d] && d in jobs && p in jobs
    && jobs[d].streamNodes != [] && jobs[d].streamNodes[0] < |g| && g[jobs[d].streamNodes[0]].parents != []
    && jobs[p].streamNodes != [] && Last(jobs[p].streamNodes) == Last(g[jobs[d].streamNodes[0]].parents)
  }

  ghost predicate Named(jobs: map<nat, JobNode>) {
    forall j {:trigger jobs[j].jobId} {:trigger jobs[j].streamNodes} | j in jobs :: jobs[j].jobId == j && jobs[j].streamNodes != []
  }

  ghost predicate DistinctSinks(jobs: map<nat, JobNode>)
    requires Named(jobs)
  {
    forall i, j | i in jobs && j in jobs && Last(jobs[i].streamNodes) == Last(jobs[j].streamNodes) :: i == j
  }

  ghost predicate Wired(g: Graph, c2p: Lists, jobs: map<nat, JobNode>) {
    && Named(jobs) && DistinctSinks(jobs)
    && forall d {:trigger WiredAt(g, c2p, jobs, d)} | d in c2p :: WiredAt(g, c2p, jobs, d)
  }

  ghost function Left(g: Graph, c2p: Lists, jobs: map<nat, JobNode>, d: nat): (p: nat)
    requires Wired(g, c2p, jobs) && d in c2p
    ensures IsLeft(g, c2p, jobs, d, p) && p in jobs && p < d
  {
    assert WiredAt(g, c2p, jobs, d);
    var p :| IsLeft(g, c2p, jobs, d, p);
    p
  }

  /** A job's own parallelism, or else that of its left parent. */
  ghost function Resolved(g: Graph, c2p: Lists, jobs: map<nat, JobNode>, j: nat): nat
    requires Wired(g, c2p, jobs) && j in jobs
  {
    if jobs[j].parallelism > 0 then jobs[j].parallelism
    else if j !in c2p then 0
    else Resolved(g, c2p, jobs, Left(g, c2p, jobs, j))
  }

  ghost predicate RootsArePositive(c2p: Lists, jobs: map<nat, JobNode>) {
    forall j | j in jobs && j !in c2p :: jobs[j].parallelism > 0
  }

  /** On the way: every job has its parallelism, or still none; nothing else about it has changed. */
  ghost predicate OnTheWayAt(g: Graph, c2p: Lists, first: map<nat, JobNode>, jobs: map<nat, JobNode>, j: nat)
    requires Wired(g, c2p, first)
  {
    && j in first && j in jobs
    && jobs[j] == first[j].(parallelism := jobs[j].parallelism)
    && (jobs[j].parallelism == 0 || jobs[j].parallelism == Resolved(g, c2p, first, j))
    && (first[j].parallelism > 0 ==> jobs[j].parallelism == first[j].parallelism)
  }

  ghost predicate OnTheWay(g: Graph, c2p: Lists, first: map<nat, JobNode>, jobs: map<nat, JobNode>) {
    && Wired(g, c2p, first) && jobs.Keys == first.Keys
    && forall j {:trigger OnTheWayAt(g, c2p, first, jobs, j)} | j in jobs :: OnTheWayAt(g, c2p, first, jobs, j)
  }

  function Descending(j: nat): int { (0 as int) - j }

  ghost function Zeros(jobs: map<nat, JobNode>): set<nat> {
    set j | j in jobs && jobs[j].parallelism == 0
  }

  lemma FillOne(g: Graph, c2p: Lists, first: map<nat, JobNode>, jobs: map<nat, JobNode>, d: nat, parallelism: nat)
    requires OnTheWay(g, c2p, first, jobs) && d in c2p && d in jobs && jobs[d].parallelism == 0
    requires parallelism == 0 || parallelism == Resolved(g, c2p, first, Left(g, c2p, first, d))
    ensures OnTheWay(g, c2p, first, jobs[d := jobs[d].(parallelism := parallelism)])
  {
    var jobs' := jobs[d := jobs[d].(parallelism := parallelism)];
    assert OnTheWayAt(g, c2p, first, jobs, d);
    forall j | j in jobs' ensures OnTheWayAt(g, c2p, first, jobs', j) {
      assert OnTheWayAt(g, c2p, first, jobs, j);
    }
  }

  /** The smallest unset job has a left parent, and that one is set. */
  lemma LeastIsReady(g: Graph, c2p: Lists, first: map<nat, JobNode>, jobs: map<nat, JobNode>, j: nat)
    requires OnTheWay(g, c2p, first, jobs) && RootsArePositive(c2p, first)
    requires j in Zeros(jobs) && forall i | i in Zeros(jobs) :: j <= i
    ensures j in c2p && jobs[Left(g, c2p, first, j)].parallelism > 0
  {
    assert OnTheWayAt(g, c2p, first, jobs, j);
    var left := Left(g, c2p, first, j);
    assert left !in Zeros(jobs);
  }

  lemma LeftIsUnique(g: Graph, c2p: Lists, jobs: map<nat, JobNode>, d: nat, p: nat)
    requires Wired(g, c2p, jobs) && d in c2p && p in jobs && d in jobs
    requires jobs[d].streamNodes[0] < |g| && g[jobs[d].streamNodes[0]].parents != []
    requires Last(jobs[p].streamNodes) == Last(g[jobs[d].streamNodes[0]].parents)
    ensures p == Left(g, c2p, jobs, d)
  {
    var q := Left(g, c2p, jobs, d);
    assert IsLeft(g, c2p, jobs, d, q);
  }

  lemma IsLeftIsUnique(g: Graph, c2p: Lists, jobs: map<nat, JobNode>, d: nat, p: nat)
    requires Wired(g, c2p, jobs) && IsLeft(g, c2p, jobs, d, p)
    ensures p == Left(g, c2p, jobs, d)
  {
    LeftIsUnique(g, c2p, jobs, d, p);
  }

  /** Jobs on the way are still wired as before. */
  lemma OnTheWayIsNamed(g: Graph, c2p: Lists, first: map<nat, JobNode>, jobs: map<nat, JobNode>)
    requires OnTheWay(g, c2p, first, jobs)
    ensures Named(jobs) && forall j | j in jobs :: j in first && jobs[j].streamNodes == first[j].streamNodes
  {
    forall j | j in jobs ensures j in first && jobs[j].jobId == j && jobs[j].streamNodes == first[j].streamNodes != [] {
      assert OnTheWayAt(g, c2p, first, jobs, j);
    }
  }

  /** A job without parents and without parallelism stays without. */
  lemma UnsetRootStaysUnset(g: Graph, c2p: Lists, first: map<nat, JobNode>, jobs: map<nat, JobNode>, j: nat)
    requires OnTheWay(g, c2p, first, jobs) && j in jobs && j !in c2p && first[j].parallelism == 0
    ensures j in Zeros(jobs)
  {
    assert OnTheWayAt(g, c2p, first, jobs, j);
  }

  class JobNodeBuilder {
    const g: Graph
    var c2p: Lists
    var jobs: map<nat, JobNode>

    constructor (g: Graph)
      ensures this.g == g && c2p == map[] && jobs == map[]
    {
      this.g, c2p, jobs := g, map[], map[];
    }

    // The jobs as they were before the first pass.
    ghost var first: map<nat, JobNode>

    ghost predicate Filling()
      reads this
    {
      OnTheWay(g, c2p, first, jobs)
    }

    ghost predicate Keeps(before: map<nat, JobNode>)
      reads this
    {
      && jobs.Keys == before.Keys
      && forall j | j in before && before[j].parallelism > 0 :: jobs[j] == before[j]
    }

    method GetJobIdBySink(sink: nat) returns (r: Option<nat>)
      requires Named(jobs)
      ensures r.Some? ==> r.value in jobs && Last(jobs[r.value].streamNodes) == sink
      ensures r.None? ==> forall j | j in jobs :: Last(jobs[j].streamNodes) != sink
    {
      var todo := jobs.Keys;
      while todo != {}
        invariant todo <= jobs.Keys
        invariant forall j | j in jobs && j !in todo :: Last(jobs[j].streamNodes) != sink
      {
        var j :| j in todo;
        if Last(jobs[j].streamNodes) == sink {
          return Some(j);
        }
        todo := todo - {j};
      }
      return None;
    }

    /** The job of the sink that the source of `job` lists last. */
    method GetParentJobId(job: JobNode) returns (r: nat)
      requires Filling() && job.jobId in jobs && jobs[job.jobId] == job && job.jobId in c2p
      ensures r == Left(g, c2p, first, job.jobId)
    {
      ghost var left := Left(g, c2p, first, job.jobId);
      assert IsLeft(g, c2p, first, job.jobId, left);
      OnTheWayIsNamed(g, c2p, first, jobs);
      var parents := g[job.streamNodes[0]].parents;
      assert left in jobs && Last(jobs[left].streamNodes) == Last(parents);
      var found := GetJobIdBySink(Last(parents));
      r := found.value;
      LeftIsUnique(g, c2p, first, job.jobId, r);
    }

    /** What a parent has now, after trying to give it something; a fresh value is not seen at once. */
    method ParentParallelism(p: nat) returns (r: nat)
      requires Filling() && p in jobs
      modifies this`jobs
      ensures Filling() && Keeps(old(jobs)) && forall j | j in jobs && j > p :: jobs[j] == old(jobs)[j]
      ensures r == 0 || r == Resolved(g, c2p, first, p)
      ensures old(jobs)[p].parallelism > 0 ==> r > 0
      decreases p, 3
    {
      assert OnTheWayAt(g, c2p, first, jobs, p);
      if jobs[p].parallelism > 0 {
        return jobs[p].parallelism;
      }
      OnTheWayIsNamed(g, c2p, first, jobs);
      r := GetParentParallelism0(jobs[p]);
    }

    /** Always returns 0, but gives the job the parallelism of a left parent that had one. */
    method GetParentParallelism0(job: JobNode) returns (r: nat)
      requires Filling() && job.jobId in jobs && jobs[job.jobId] == job && job.parallelism == 0
      modifies this`jobs
      ensures Filling() && Keeps(old(jobs)) && forall j | j in jobs && j > job.jobId :: jobs[j] == old(jobs)[j]
      ensures r == 0
      ensures job.jobId in c2p && old(jobs)[Left(g, c2p, first, job.jobId)].parallelism > 0 ==>
        jobs[job.jobId].parallelism > 0
      decreases job.jobId, 2
    {
      var d := job.jobId;
      if d in c2p {
        var parallelism := LeftParallelism(job);
        FillOne(g, c2p, first, jobs, d, parallelism);
        jobs := jobs[d := jobs[d].(parallelism := parallelism)];
      }
      r := 0;
    }

    method LeftParallelism(job: JobNode) returns (parallelism: nat)
      requires Filling() && job.jobId in jobs && jobs[job.jobId] == job && job.jobId in c2p
      modifies this`jobs
      ensures Filling() && Keeps(old(jobs)) && forall j | j in jobs && j >= job.jobId :: jobs[j] == old(jobs)[j]
      ensures parallelism == 0 || parallelism == Resolved(g, c2p, first, Left(g, c2p, first, job.jobId))
      ensures old(jobs)[Left(g, c2p, first, job.jobId)].parallelism > 0 ==> parallelism > 0
      decreases job.jobId, 1
    {
      var parents := c2p[job.jobId];
      assert WiredAt(g, c2p, first, job.jobId);
      if |parents| == 1 {
        assert parents[0] in parents && Left(g, c2p, first, job.jobId) == parents[0];
        parallelism := ParentParallelism(parents[0]);
      } else if IsCoProcessJob(g, job) {
        var left := GetParentJobId(job);
        parallelism := VisitParents(parents, left, job.jobId);
      } else {
        OnTheWayIsNamed(g, c2p, first, jobs);
        assert false;
      }
    }

    /** All parents are visited, the left one counts. */
    method VisitParents(parents: seq<nat>, left: nat, ghost d: nat) returns (parallelism: nat)
      requires Filling() && left in parents && forall k | 0 <= k < |parents| :: parents[k] in jobs && parents[k] < d
      modifies this`jobs
      ensures Filling() && Keeps(old(jobs)) && forall j | j in jobs && j >= d :: jobs[j] == old(jobs)[j]
      ensures parallelism == 0 || parallelism == Resolved(g, c2p, first, left)
      ensures old(jobs)[left].parallelism > 0 ==> parallelism > 0
      decreases d, 0
    {
      ghost var at :| 0 <= at < |parents| && parents[at] == left;
      parallelism := 0;
      for i := 0 to |parents|
        invariant Filling() && Keeps(old(jobs)) && forall j | j in jobs && j >= d :: jobs[j] == old(jobs)[j]
        invariant parallelism == 0 || parallelism == Resolved(g, c2p, first, left)
        invariant at < i && old(jobs)[left].parallelism > 0 ==> parallelism > 0
      {
        var p := ParentParallelism(parents[i]);
        if parents[i] == left {
          parallelism := p;
        }
      }
    }

    /** The jobs without parallelism, the largest id first. */
    method UnsetJobs() returns (unset: seq<nat>)
      ensures forall j: nat :: j in unset <==> j in Zeros(jobs)
      ensures StrictlySortedBy(unset, Descending)
    {
      var todo, list: seq<nat> := jobs.Keys, [];
      while todo != {}
        invariant todo <= jobs.Keys && DistinctKeys(list, Descending)
        invariant forall j: nat :: j in list <==> j in Zeros(jobs) && j !in todo
      {
        var j :| j in todo;
        if jobs[j].parallelism == 0 {
          assert forall k | 0 <= k < |list| :: list[k] in list;
          list := list + [j];
        }
        todo := todo - {j};
      }
      unset := SortBy(list, Descending);
    }

    /** One job of a pass; an earlier one of the pass may have set it. */
    method VisitUnset(j: nat)
      requires Filling() && j in jobs
      modifies this`jobs
      ensures Filling() && Keeps(old(jobs))
      ensures j in c2p && old(jobs)[Left(g, c2p, first, j)].parallelism > 0 ==> jobs[j].parallelism > 0
    {
      if jobs[j].parallelism == 0 {
        OnTheWayIsNamed(g, c2p, first, jobs);
        var _ := GetParentParallelism0(jobs[j]);
      }
    }

    /**
     * One pass over the unset jobs. Set jobs keep their value. If every job without parents
     * has a parallelism, at least the first unset job is set.
     */
    method GetParentParallelism() returns (n: nat)
      requires Filling()
      modifies this`jobs
      ensures Filling() && Keeps(old(jobs))
      ensures n > 0 <==> old(Zeros(jobs)) != {}
      ensures Zeros(jobs) <= old(Zeros(jobs))
      ensures RootsArePositive(c2p, first) && n > 0 ==> Zeros(jobs) < old(Zeros(jobs))
    {
      var unset := UnsetJobs();
      assert unset != [] ==> unset[0] in unset;
      ghost var least := if unset == [] then 0 else MinOf(Zeros(jobs));
      ghost var roots := RootsArePositive(c2p, first);
      for i := 0 to |unset|
        invariant Filling() && Keeps(old(jobs))
        invariant roots && least in unset[..i] ==> jobs[least].parallelism > 0
      {
        assert unset[i] in unset && unset[..i + 1] == unset[..i] + [unset[i]];
        if roots && unset[i] == least {
          LeastIsReady(g, c2p, first, old(jobs), least);
        }
        VisitUnset(unset[i]);
      }
      assert unset[..|unset|] == unset;
      n := |unset|;
    }

    /** The loop ends, and every job has its own parallelism or that of its left parent. */
    method BuildParallelism()
      requires Wired(g, c2p, jobs) && RootsArePositive(c2p, jobs)
      modifies this
      ensures c2p == old(c2p) && jobs.Keys == old(jobs.Keys)
      ensures forall j | j in jobs :: jobs[j] == old(jobs)[j].(parallelism := Resolved(g, c2p, old(jobs), j))
      ensures forall j | j in jobs :: jobs[j].parallelism > 0
    {
      first := jobs;
      forall j | j in jobs ensures OnTheWayAt(g, c2p, first, jobs, j) {}
      var n := GetParentParallelism();
      while n > 0
        invariant Filling() && c2p == old(c2p) && first == old(jobs)
        invariant n == 0 ==> Zeros(jobs) == {}
        decreases Zeros(jobs), n
      {
        n := GetParentParallelism();
      }
      forall j | j in jobs
        ensures jobs[j] == first[j].(parallelism := Resolved(g, c2p, first, j)) && jobs[j].parallelism > 0
      {
        assert OnTheWayAt(g, c2p, first, jobs, j) && j !in Zeros(jobs);
      }
    }

    /** With a job that has neither parents nor parallelism no pass is the last: each of any number of passes finds unset jobs. */
    method RunPasses(k: nat, ghost root: nat) returns (found: seq<nat>)
      requires Wired(g, c2p, jobs) && root in jobs && root !in c2p && jobs[root].parallelism == 0
      modifies this
      ensures |found| == k && forall i | 0 <= i < k :: found[i] > 0
      ensures c2p == old(c2p) && root in Zeros(jobs)
    {
      first := jobs;
      forall j | j in jobs ensures OnTheWayAt(g, c2p, first, jobs, j) {}
      found := [];
      for i := 0 to k
        invariant Filling() && c2p == old(c2p) && first == old(jobs) && root in jobs
        invariant |found| == i && forall h | 0 <= h < i :: found[h] > 0
      {
        UnsetRootStaysUnset(g, c2p, first, jobs, root);
        var n := GetParentParallelism();
        found := found + [n];
      }
      UnsetRootStaysUnset(g, c2p, first, jobs, root);
    }

    method CollectJobs(order: seq<nat>) returns (r: Result<bool>)
      requires Good(g) && c2p == map[] && jobs == map[]
      requires forall k | 0 <= k < |order| :: order[k] < |g| && g[order[k]].kind == Source
      requires forall a, b | 0 <= a < b < |order| :: order[a] < order[b]
      modifies this
      ensures r.Err? ==> exists k :: 0 <= k < |order| && Chain(g, order[k]) == Err(r.error)
      ensures r.Ok? ==> Collected(g, order, |order|, jobs) && ParentsListed(c2p, jobs, order, |order|)
    {
      for i := 0 to |order|
        invariant Collected(g, order, i, jobs) && ParentsListed(c2p, jobs, order, i)
      {
        var built := BuildJobNode(g, order[i]);
        if built.Err? {
          return Err(built.error);
        }
        AddJob(order, i, built.value);
      }
      return Ok(true);
    }

    method AddJob(order: seq<nat>, i: nat, job: JobNode)
      requires Good(g) && i < |order| && Collected(g, order, i, jobs) && ParentsListed(c2p, jobs, order, i)
      requires IsJobOf(g, order[i], job) && forall a, b | 0 <= a < b < |order| :: order[a] < order[b]
      modifies this
      ensures Collected(g, order, i + 1, jobs) && ParentsListed(c2p, jobs, order, i + 1)
    {
      ChildrenExact(g, Last(job.streamNodes), |g|);
      ListsAreFull(c2p, jobs, order, i);
      var lists := AddParent(c2p, job.childJobs, order[i]);
      CollectedSnoc(g, order, i, jobs, job);
      ListedSnoc(c2p, lists, jobs, order, i, job);
      c2p, jobs := lists, jobs[order[i] := job];
    }

    /** Fails exactly when some source does not reach a sink. */
    method BuildJobNodes() returns (r: Result<bool>)
      requires Good(g) && c2p == map[] && jobs == map[]
      modifies this
      ensures r.Ok? <==> Builds(g)
      ensures r.Err? ==> exists s: nat :: s < |g| && g[s].kind == Source && Chain(g, s) == Err(r.error)
      ensures r.Ok? ==> JobTable(g, jobs, c2p)
    {
      SourceIdsExact(g);
      var order := SourceIds(g);
      assert forall k | 0 <= k < |order| :: order[k] in order;
      r := CollectJobs(order);
      if r.Ok? {
        CollectedAll(g, jobs);
        WithParentsIsTable(g, jobs, c2p);
        jobs := WithParents(jobs, c2p);
      }
    }
  }

  lemma CollectedSnoc(g: Graph, order: seq<nat>, i: nat, jobs: map<nat, JobNode>, job: JobNode)
    requires Good(g) && i < |order| && Collected(g, order, i, jobs) && IsJobOf(g, order[i], job)
    requires forall a, b | 0 <= a < b < |order| :: order[a] < order[b]
    ensures order[i] !in jobs && Collected(g, order, i + 1, jobs[order[i] := job])
  {
    var jobs' := jobs[order[i] := job];
    assert order[..i + 1] == order[..i] + [order[i]];
    forall s | s in jobs' ensures IsJobOf(g, s, jobs'[s]) {
      assert s in jobs ==> IsJobOf(g, s, jobs[s]);
    }
  }

  lemma ListsAreFull(c2p: Lists, jobs: map<nat, JobNode>, order: seq<nat>, n: nat)
    requires n <= |order| && (forall k | 0 <= k < n :: order[k] in jobs) && ParentsListed(c2p, jobs, order, n)
    ensures forall d | d in c2p :: c2p[d] != []
  {
    forall d | d in c2p ensures c2p[d] != [] {
      assert ListedAt(c2p, jobs, order, n, d);
    }
  }

  lemma ListedSnocAt(c2p: Lists, c2p': Lists, jobs: map<nat, JobNode>, order: seq<nat>, i: nat, job: JobNode, d: nat)
    requires i < |order| && (forall k | 0 <= k < i :: order[k] in jobs) && order[i] !in jobs
    requires ListedAt(c2p, jobs, order, i, d) && AddedAt(c2p, c2p', job.childJobs, order[i], d)
    ensures ListedAt(c2p', jobs[order[i] := job], order, i + 1, d)
  {
    ParentsFrame(jobs, jobs[order[i] := job], order, i, d);
  }

  lemma ListedSnoc(c2p: Lists, c2p': Lists, jobs: map<nat, JobNode>, order: seq<nat>, i: nat, job: JobNode)
    requires i < |order| && (forall k | 0 <= k < i :: order[k] in jobs) && ParentsListed(c2p, jobs, order, i)
    requires order[i] !in jobs && forall d: nat :: AddedAt(c2p, c2p', job.childJobs, order[i], d)
    ensures ParentsListed(c2p', jobs[order[i] := job], order, i + 1)
  {
    var jobs', n := jobs[order[i] := job], i + 1;
    forall d: nat ensures ListedAt(c2p', jobs', order, n, d) {
      assert ListedAt(c2p, jobs, order, i, d) && AddedAt(c2p, c2p', job.childJobs, order[i], d);
      ListedSnocAt(c2p, c2p', jobs, order, i, job, d);
    }
  }

  lemma WithParentsIsTable(g: Graph, jobs: map<nat, JobNode>, c2p: Lists)
    requires Good(g)
    requires Collected(g, SourceIds(g), |SourceIds(g)|, jobs) && ParentsListed(c2p, jobs, SourceIds(g), |SourceIds(g)|)
    ensures JobTable(g, WithParents(jobs, c2p), c2p)
  {
    var order, jobs' := SourceIds(g), WithParents(jobs, c2p);
    forall s | s in jobs' ensures IsJobOf(g, s, jobs'[s]) {
      assert IsJobOf(g, s, jobs[s]);
    }
    forall d: nat ensures ListedAt(c2p, jobs', order, |order|, d) {
      assert ListedAt(c2p, jobs, order, |order|, d);
      ParentsFrame(jobs, jobs', order, |order|, d);
    }
  }

  lemma CollectedAll(g: Graph, jobs: map<nat, JobNode>)
    requires Good(g) && Collected(g, SourceIds(g), |SourceIds(g)|, jobs)
    ensures Builds(g)
    ensures forall s: nat :: s in jobs <==> s < |g| && g[s].kind == Source
  {
    var order := SourceIds(g);
    SourceIdsExact(g);
    assert order[..|order|] == order;
    forall s: nat | s < |g| && g[s].kind == Source ensures Chain(g, s).Ok? {
      assert s in jobs && IsJobOf(g, s, jobs[s]);
    }
  }

  // ----- the built jobs are wired

  lemma BuiltIsNamed(g: Graph, jobs: map<nat, JobNode>, c2p: Lists)
    requires Good(g) && JobTable(g, jobs, c2p)
    ensures Named(jobs) && DistinctSinks(jobs)
  {
    forall j | j in jobs ensures jobs[j].jobId == j && jobs[j].streamNodes != [] {
      assert IsJobOf(g, j, jobs[j]);
    }
    CollectedAll(g, jobs);
    forall i, j | i in jobs && j in jobs && Last(jobs[i].streamNodes) == Last(jobs[j].streamNodes) ensures i == j {
      assert IsJobOf(g, i, jobs[i]) && IsJobOf(g, j, jobs[j]);
      var n := SinkOf(g, i);
      JobsPartition(g, n, i);
      JobsPartition(g, n, j);
    }
  }

  /** A job is listed as a parent exactly of the job its sink feeds. */
  lemma ParentOfBuilt(g: Graph, jobs: map<nat, JobNode>, c2p: Lists, d: nat, p: nat)
    requires Good(g) && Builds(g) && JobTable(g, jobs, c2p)
    ensures p in ListOf(c2p, d) <==> p < |g| && g[p].kind == Source && d in ChildJobs(g, p)
  {
    var order := SourceIds(g);
    assert ListedAt(c2p, jobs, order, |order|, d);
    ParentsExact(jobs, order, |order|, d, p);
    assert order[..|order|] == order;
    CollectedAll(g, jobs);
    if p in jobs {
      assert IsJobOf(g, p, jobs[p]);
    }
  }

  /** The left parent of a built job is the job of the sink that its source lists last. */
  lemma LeftOfBuilt(g: Graph, jobs: map<nat, JobNode>, c2p: Lists, d: nat)
    requires Good(g) && Builds(g) && JobTable(g, jobs, c2p) && d < |g| && g[d].kind == Source && g[d].parents != []
    ensures var sink := Last(g[d].parents); sink < |g| && IsLeft(g, c2p, jobs, d, Root(g, sink))
  {
    var sink := Last(g[d].parents);
    JobEdgeOfSink(g, d, sink);
    var p := Root(g, sink);
    ParentOfBuilt(g, jobs, c2p, d, p);
    CollectedAll(g, jobs);
    assert IsJobOf(g, p, jobs[p]) && IsJobOf(g, d, jobs[d]);
    ChainIsChain(g, d);
  }

  lemma ListIsDistinct(g: Graph, jobs: map<nat, JobNode>, c2p: Lists, d: nat)
    requires Good(g) && JobTable(g, jobs, c2p)
    ensures NoDuplicates(ListOf(c2p, d))
  {
    assert ListedAt(c2p, jobs, SourceIds(g), |SourceIds(g)|, d);
    SourceIdsExact(g);
    ParentsDistinct(jobs, SourceIds(g), |SourceIds(g)|, d);
  }

  lemma TwoParentsMeanConnect(g: Graph, jobs: map<nat, JobNode>, c2p: Lists, d: nat)
    requires Good(g) && Builds(g) && JobTable(g, jobs, c2p) && d < |g| && g[d].kind == Source && d in jobs
    requires |ListOf(c2p, d)| >= 2
    ensures IsCoProcessJob(g, jobs[d])
  {
    var p, q := ListOf(c2p, d)[0], ListOf(c2p, d)[1];
    ListIsDistinct(g, jobs, c2p, d);
    ParentOfBuilt(g, jobs, c2p, d, p);
    ParentOfBuilt(g, jobs, c2p, d, q);
    TwoFeedersMeanConnect(g, d, p, q);
    assert IsJobOf(g, d, jobs[d]);
  }

  lemma BuiltIsWiredAt(g: Graph, jobs: map<nat, JobNode>, c2p: Lists, d: nat)
    requires Good(g) && Builds(g) && JobTable(g, jobs, c2p) && d in c2p
    ensures WiredAt(g, c2p, jobs, d)
  {
    CollectedAll(g, jobs);
    assert ListedAt(c2p, jobs, SourceIds(g), |SourceIds(g)|, d);
    forall p | p in c2p[d]
      ensures p in jobs && p < d && d < |g| && g[d].kind == Source && g[d].parents != []
    {
      ParentOfBuilt(g, jobs, c2p, d, p);
      JobEdgesGoUp(g, p);
    }
    assert c2p[d][0] in c2p[d];
    if |c2p[d]| >= 2 {
      TwoParentsMeanConnect(g, jobs, c2p, d);
    }
    LeftOfBuilt(g, jobs, c2p, d);
  }

  /**
   * What the walk builds is what the fixpoint needs: parents come before their jobs, a job
   * with several parents holds the connect, so `unimplemented!` is never reached, and a job's
   * left parent is the job of the sink that its source lists last.
   */
  lemma BuiltIsWired(g: Graph, jobs: map<nat, JobNode>, c2p: Lists)
    requires Good(g) && Builds(g) && JobTable(g, jobs, c2p)
    ensures Wired(g, c2p, jobs)
    ensures forall d | d in c2p ::
      && d < |g| && g[d].parents != [] && Last(g[d].parents) < |g|
      && Left(g, c2p, jobs, d) == Root(g, Last(g[d].parents))
  {
    BuiltIsNamed(g, jobs, c2p);
    forall d | d in c2p ensures WiredAt(g, c2p, jobs, d) {
      BuiltIsWiredAt(g, jobs, c2p, d);
    }
    assert Wired(g, c2p, jobs);
    forall d | d in c2p
      ensures d < |g| && g[d].parents != [] && Last(g[d].parents) < |g|
      ensures Left(g, c2p, jobs, d) == Root(g, Last(g[d].parents))
    {
      LeftIsRoot(g, jobs, c2p, d);
    }
  }

  lemma LeftIsRoot(g: Graph, jobs: map<nat, JobNode>, c2p: Lists, d: nat)
    requires Good(g) && Builds(g) && JobTable(g, jobs, c2p) && Wired(g, c2p, jobs) && d in c2p
    ensures d < |g| && g[d].parents != [] && Last(g[d].parents) < |g|
    ensures Left(g, c2p, jobs, d) == Root(g, Last(g[d].parents))
  {
    assert WiredAt(g, c2p, jobs, d);
    var p := c2p[d][0];
    ParentOfBuilt(g, jobs, c2p, d, p);
    JobEdgesGoUp(g, p);
    LeftOfBuilt(g, jobs, c2p, d);
    IsLeftIsUnique(g, c2p, jobs, d, Root(g, Last(g[d].parents)));
  }

  // ----- the parallelism of a job, read off the stream graph

  ghost function OwnParallelism(g: Graph, s: nat): nat
    requires Good(g) && Builds(g) && s < |g| && g[s].kind == Source
  {
    ChainIsChain(g, s);
    MaxParallelism(g, JobOf(g, s))
  }

  lemma {:induction false} MaxIsGreatest(g: Graph, ids: seq<nat>)
    requires Known(g, ids)
    ensures forall k | 0 <= k < |ids| :: g[ids[k]].parallelism <= MaxParallelism(g, ids)
    ensures MaxParallelism(g, ids) == 0 || exists k :: 0 <= k < |ids| && g[ids[k]].parallelism == MaxParallelism(g, ids)
  {
    if ids != [] {
      var front := ids[..|ids| - 1];
      MaxIsGreatest(g, front);
      assert forall k | 0 <= k < |front| :: front[k] == ids[k];
      if MaxParallelism(g, ids) == g[ids[|ids| - 1]].parallelism {
        assert g[ids[|ids| - 1]].parallelism == MaxParallelism(g, ids);
      } else if MaxParallelism(g, front) != 0 {
        var k :| 0 <= k < |front| && g[front[k]].parallelism == MaxParallelism(g, front);
        assert g[ids[k]].parallelism == MaxParallelism(g, ids);
      }
    }
  }

  /** A job's own parallelism is the greatest among its operators, 0 if all leave it open. */
  lemma OwnParallelismIsGreatest(g: Graph, s: nat)
    requires Good(g) && Builds(g) && s < |g| && g[s].kind == Source
    ensures Known(g, JobOf(g, s))
    ensures forall k | 0 <= k < |JobOf(g, s)| :: g[JobOf(g, s)[k]].parallelism <= OwnParallelism(g, s)
    ensures OwnParallelism(g, s) > 0 ==> exists k :: 0 <= k < |JobOf(g, s)| && g[JobOf(g, s)[k]].parallelism == OwnParallelism(g, s)
  {
    ChainIsChain(g, s);
    MaxIsGreatest(g, JobOf(g, s));
  }

  ghost function JobParallelism(g: Graph, s: nat): nat
    requires Good(g) && Builds(g) && s < |g| && g[s].kind == Source
  {
    if OwnParallelism(g, s) > 0 then OwnParallelism(g, s)
    else if g[s].parents == [] then 0
    else
      JobEdgeOfSink(g, s, Last(g[s].parents));
      JobParallelism(g, Root(g, Last(g[s].parents)))
  }

  ghost predicate SourcesAreParallel(g: Graph)
    requires Good(g) && Builds(g)
  {
    forall s: nat | s < |g| && g[s].kind == Source && g[s].parents == [] :: OwnParallelism(g, s) > 0
  }

  /** A job has parents in the table exactly when its source has parents in the graph. */
  lemma ListedIffFed(g: Graph, jobs: map<nat, JobNode>, c2p: Lists, d: nat)
    requires Good(g) && Builds(g) && JobTable(g, jobs, c2p) && d < |g| && g[d].kind == Source
    ensures d in c2p <==> g[d].parents != []
  {
    assert ListedAt(c2p, jobs, SourceIds(g), |SourceIds(g)|, d);
    if d in c2p {
      var p := c2p[d][0];
      ParentOfBuilt(g, jobs, c2p, d, p);
      JobEdgesGoUp(g, p);
    }
    if g[d].parents != [] {
      LeftOfBuilt(g, jobs, c2p, d);
    }
  }

  lemma {:induction false} ResolvedOfBuilt(g: Graph, jobs: map<nat, JobNode>, c2p: Lists, s: nat)
    requires Good(g) && Builds(g) && JobTable(g, jobs, c2p) && Wired(g, c2p, jobs)
    requires s < |g| && g[s].kind == Source && s in jobs
    ensures Resolved(g, c2p, jobs, s) == JobParallelism(g, s)
  {
    assert IsJobOf(g, s, jobs[s]);
    ListedIffFed(g, jobs, c2p, s);
    if jobs[s].parallelism == 0 && s in c2p {
      LeftIsRoot(g, jobs, c2p, s);
      var left := Left(g, c2p, jobs, s);
      ResolvedOfBuilt(g, jobs, c2p, left);
    }
  }

  /** Positive sources in the graph are positive roots in the table. */
  lemma BuiltRootsArePositive(g: Graph, jobs: map<nat, JobNode>, c2p: Lists)
    requires Good(g) && Builds(g) && JobTable(g, jobs, c2p) && SourcesAreParallel(g)
    ensures RootsArePositive(c2p, jobs)
  {
    CollectedAll(g, jobs);
    forall j | j in jobs && j !in c2p ensures jobs[j].parallelism > 0 {
      assert IsJobOf(g, j, jobs[j]);
      ListedIffFed(g, jobs, c2p, j);
    }
  }

  /** `JobNodeBuilder::build`: the jobs of the graph, each with its parallelism. */
  method Build(g: Graph) returns (r: Result<map<nat, JobNode>>)
    requires Good(g) && (Builds(g) ==> SourcesAreParallel(g))
    ensures r.Ok? <==> Builds(g)
    ensures r.Ok? ==> (forall s: nat :: s in r.value <==> s < |g| && g[s].kind == Source)
    ensures r.Ok? ==> forall s | s in r.value ::
      && r.value[s].jobId == s && r.value[s].streamNodes == JobOf(g, s) && r.value[s].childJobs == ChildJobs(g, s)
      && r.value[s].parallelism == JobParallelism(g, s) > 0
  {
    var builder := new JobNodeBuilder(g);
    var built := builder.BuildJobNodes();
    if built.Err? {
      return Err(built.error);
    }
    ghost var jobs, c2p := builder.jobs, builder.c2p;
    BuiltIsWired(g, jobs, c2p);
    BuiltRootsArePositive(g, jobs, c2p);
    CollectedAll(g, jobs);
    builder.BuildParallelism();
    forall s | s in jobs
      ensures jobs[s].jobId == s && jobs[s].streamNodes == JobOf(g, s) && jobs[s].childJobs == ChildJobs(g, s)
      ensures Resolved(g, c2p, jobs, s) == JobParallelism(g, s)
    {
      assert IsJobOf(g, s, jobs[s]);
      ResolvedOfBuilt(g, jobs, c2p, s);
    }
    return Ok(builder.jobs);
  }

  /** The condition of `Build` is needed: if a source without parents has no parallelism, no number of passes ends the loop. */
  method PassesNeverEnd(g: Graph, s: nat, k: nat) returns (found: seq<nat>)
    requires Good(g) && Builds(g) && s < |g| && g[s].kind == Source && g[s].parents == [] && OwnParallelism(g, s) == 0
    ensures |found| == k && forall i | 0 <= i < k :: found[i] > 0
  {
    var builder := new JobNodeBuilder(g);
    var _ := builder.BuildJobNodes();
    BuiltIsWired(g, builder.jobs, builder.c2p);
    CollectedAll(g, builder.jobs);
    ListedIffFed(g, builder.jobs, builder.c2p, s);
    assert IsJobOf(g, s, builder.jobs[s]);
    found := builder.RunPasses(k, s);
  }

  /** Such a job is a program away: a source and a sink that both leave their parallelism open. */
  lemma OpenProgramHasUnsetRoot()
    ensures var calls := [Call(Source, 0, []), Call(Sink, 0, [0])];
      var g := Built(calls);
      && LegalProgram(calls) && Good(g) && Builds(g)
      && |g| == 2 && g[0].kind == Source && g[0].parents == [] && OwnParallelism(g, 0) == 0
  {
    var calls := [Call(Source, 0, []), Call(Sink, 0, [0])];
    var first := calls[..1];
    assert first == [calls[0]] && first[..0] == [];
    assert Built(first[..0]) == [];
    assert Built(first) == [StreamNode(Source, 0, [])];
    var g := Built(calls);
    assert g == [StreamNode(Source, 0, []), StreamNode(Sink, 0, [0])];
    assert LegalProgram(first[..0]) && LegalProgram(first);
    EveryProgramIsGood(calls);
    OpenChain(g);
  }

  lemma OpenChain(g: Graph)
    requires g == [StreamNode(Source, 0, []), StreamNode(Sink, 0, [0])] && Good(g)
    ensures Builds(g) && JobOf(g, 0) == [0, 1] && OwnParallelism(g, 0) == 0
  {
    assert ChildrenBelow(g, 0, 0) == [];
    assert ChildrenBelow(g, 0, 1) == [];
    assert Children(g, 0) == [1];
    assert Chain(g, 1) == Ok([1]);
    assert Chain(g, 0) == Ok([0] + [1]);
    assert [0, 1][..1] == [0] && [0][..0] == [];
    assert MaxParallelism(g, []) == 0;
    assert MaxParallelism(g, [0]) == 0;
  }
}
