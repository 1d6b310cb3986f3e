/**
 * Jobs: the stretches of the stream graph from one source to one sink, as
 * `rlink/src/dag/job_graph.rs` cuts them out.
 */
module JobGraph {
  import opened Prelude
  import opened StreamGraph

  // ----- one job

  function ChildrenBelow(g: Graph, n: nat, k: nat): seq<nat>
    requires k <= |g|
  {
    if k == 0 then [] else ChildrenBelow(g, n, k - 1) + (if n in g[k - 1].parents then [k - 1] else [])
  }

  function Children(g: Graph, n: nat): seq<nat> {
    ChildrenBelow(g, n, |g|)
  }

  lemma {:induction false} ChildrenExact(g: Graph, n: nat, k: nat)
    requires k <= |g|
    ensures forall j: nat :: j in ChildrenBelow(g, n, k) <==> j < k && n in g[j].parents
    ensures NoDuplicates(ChildrenBelow(g, n, k))
  {
    if k > 0 {
      ChildrenExact(g, n, k - 1);
      var front := ChildrenBelow(g, n, k - 1);
      forall a | 0 <= a < |front| ensures front[a] < k - 1 {
        assert front[a] in front;
      }
    }
  }

  lemma ChildIsAbove(g: Graph, n: nat, c: nat)
    requires Good(g) && c in Children(g, n)
    ensures n < c < |g| && n in g[c].parents
  {
    ChildrenExact(g, n, |g|);
    assert NodeShaped(g, c);
  }

  /** The operators from `n` down to the sink of its job. */
  ghost function Chain(g: Graph, n: nat): Result<seq<nat>>
    requires Good(g) && n < |g|
    decreases |g| - n
  {
    if g[n].kind == Sink then Ok([n])
    else
      var children := Children(g, n);
      if children == [] then Err(ChildNotFoundInPipeline)
      else if |children| > 1 then Err(MultiChildrenInPipeline)
      else
        ChildIsAbove(g, n, children[0]);
        Prepend([n], Chain(g, children[0]))
  }

  function Prepend(front: seq<nat>, r: Result<seq<nat>>): Result<seq<nat>> {
    match r
    case Err(e) => Err(e)
    case Ok(tail) => Ok(front + tail)
  }

  lemma PrependNothing(r: Result<seq<nat>>)
    ensures Prepend([], r) == r
  {
    if r.Ok? {
      assert [] + r.value == r.value;
    }
  }

  lemma PrependAssoc(a: seq<nat>, b: seq<nat>, r: Result<seq<nat>>)
    ensures Prepend(a, Prepend(b, r)) == Prepend(a + b, r)
  {
    if r.Ok? {
      assert a + (b + r.value) == a + b + r.value;
    }
  }

  /** A chain from its first operator to its sink: each operator is the only child of the one before. */
  ghost predicate IsChain(g: Graph, chain: seq<nat>) {
    && chain != []
    && (forall k | 0 <= k < |chain| :: chain[k] < |g|)
    && g[chain[|chain| - 1]].kind == Sink
    && forall k | 0 <= k < |chain| - 1 :: Linked(g, chain[k], chain[k + 1])
  }

  ghost predicate Linked(g: Graph, n: nat, c: nat)
    requires n < |g| && c < |g|
  {
    n < c && g[n].kind != Sink && g[c].kind != Source && g[c].parents == [n] && Children(g, n) == [c]
  }

  lemma {:induction false} ChainIsChain(g: Graph, n: nat)
    requires Good(g) && n < |g| && Chain(g, n).Ok?
    ensures IsChain(g, Chain(g, n).value) && Chain(g, n).value[0] == n
    decreases |g| - n
  {
    if g[n].kind != Sink {
      var c := Children(g, n)[0];
      ChildIsAbove(g, n, c);
      ChainIsChain(g, c);
      assert NodeShaped(g, c);
      assert Linked(g, n, c);
    }
  }

  /** The source an operator's job starts with. */
  function Root(g: Graph, n: nat): (r: nat)
    requires n < |g| && forall i | 0 <= i < |g| :: NodeShaped(g, i)
    ensures r <= n && g[r].kind == Source
  {
    assert NodeShaped(g, n);
    if g[n].kind == Source then n else Root(g, g[n].parents[0])
  }

  /** Everything on a chain belongs to the root of its first operator. */
  lemma {:induction false} ChainSharesRoot(g: Graph, chain: seq<nat>, k: nat)
    requires Good(g) && IsChain(g, chain) && k < |chain|
    ensures Root(g, chain[k]) == Root(g, chain[0])
    ensures k > 0 ==> chain[0] < chain[k] && g[chain[k]].kind != Source
  {
    if k > 0 {
      assert Linked(g, chain[k - 1], chain[k]);
      ChainSharesRoot(g, chain, k - 1);
    }
  }

  /** Every operator lies on the chain of its root. */
  lemma {:induction false} ChainHoldsAll(g: Graph, n: nat)
    requires Good(g) && n < |g| && Chain(g, Root(g, n)).Ok?
    ensures n in Chain(g, Root(g, n)).value
  {
    var chain := Chain(g, Root(g, n)).value;
    ChainIsChain(g, Root(g, n));
    assert NodeShaped(g, n);
    if g[n].kind != Source {
      var p := g[n].parents[0];
      ChainHoldsAll(g, p);
      var k :| 0 <= k < |chain| && chain[k] == p;
      assert g[p].kind != Sink;
      assert Linked(g, chain[k], chain[k + 1]);
      ChildrenExact(g, p, |g|);
      assert n in Children(g, p);
    }
  }

  /** Building succeeds: every source reaches a sink. */
  ghost predicate Builds(g: Graph)
    requires Good(g)
  {
    forall s: nat | s < |g| && g[s].kind == Source :: Chain(g, s).Ok?
  }

  ghost function JobOf(g: Graph, s: nat): seq<nat>
    requires Good(g) && Builds(g) && s < |g| && g[s].kind == Source
  {
    Chain(g, s).value
  }

  /**
   * Jobs partition the stream graph: every operator is in the job of its root and in no
   * other, and occurs there once.
   */
  lemma JobsPartition(g: Graph, n: nat, s: nat)
    requires Good(g) && Builds(g) && n < |g| && s < |g| && g[s].kind == Source
    ensures n in JobOf(g, s) <==> s == Root(g, n)
    ensures NoDuplicates(JobOf(g, s))
  {
    var chain := JobOf(g, s);
    ChainIsChain(g, s);
    if n in chain {
      var k :| 0 <= k < |chain| && chain[k] == n;
      ChainSharesRoot(g, chain, k);
    }
    if s == Root(g, n) {
      ChainHoldsAll(g, n);
    }
    ChainIncreases(g, chain);
  }

  lemma {:induction false} ChainIncreases(g: Graph, chain: seq<nat>)
    requires IsChain(g, chain)
    ensures forall i, j | 0 <= i < j < |chain| :: chain[i] < chain[j]
  {
    forall i, j | 0 <= i < j < |chain| ensures chain[i] < chain[j] {
      ChainIncreasesAt(g, chain, i, j);
    }
  }

  lemma {:induction false} ChainIncreasesAt(g: Graph, chain: seq<nat>, i: nat, j: nat)
    requires IsChain(g, chain) && i < j < |chain|
    ensures chain[i] < chain[j]
    decreases j
  {
    assert Linked(g, chain[j - 1], chain[j]);
    if i < j - 1 {
      ChainIncreasesAt(g, chain, i, j - 1);
    }
  }

  /** A job runs from one source, its first operator, to one sink, its last. */
  lemma JobRunsFromSourceToSink(g: Graph, s: nat, k: nat)
    requires Good(g) && Builds(g) && s < |g| && g[s].kind == Source && k < |JobOf(g, s)|
    ensures JobOf(g, s)[k] < |g|
    ensures g[JobOf(g, s)[k]].kind == Source <==> k == 0
    ensures g[JobOf(g, s)[k]].kind == Sink <==> k == |JobOf(g, s)| - 1
  {
    var chain := JobOf(g, s);
    ChainIsChain(g, s);
    ChainSharesRoot(g, chain, k);
    if k < |chain| - 1 {
      assert Linked(g, chain[k], chain[k + 1]);
    }
  }

  // ----- edges between jobs

  function Last(s: seq<nat>): nat
    requires s != []
  {
    s[|s| - 1]
  }

  ghost function SinkOf(g: Graph, s: nat): (n: nat)
    requires Good(g) && Builds(g) && s < |g| && g[s].kind == Source
    ensures s <= n < |g| && g[n].kind == Sink && n in JobOf(g, s)
  {
    ChainIsChain(g, s);
    ChainIncreases(g, JobOf(g, s));
    assert JobOf(g, s)[0] == s;
    Last(JobOf(g, s))
  }

  ghost function ChildJobs(g: Graph, s: nat): seq<nat>
    requires Good(g) && Builds(g) && s < |g| && g[s].kind == Source
  {
    Children(g, SinkOf(g, s))
  }

  /** A job feeds at most one job, which is a job with a larger id. */
  lemma JobEdgesGoUp(g: Graph, s: nat)
    requires Good(g) && Builds(g) && s < |g| && g[s].kind == Source
    ensures |ChildJobs(g, s)| <= 1
    ensures forall d | d in ChildJobs(g, s) :: s < d < |g| && g[d].kind == Source && SinkOf(g, s) in g[d].parents
  {
    var n, children := SinkOf(g, s), ChildJobs(g, s);
    forall d | d in children ensures s < d < |g| && g[d].kind == Source && n in g[d].parents {
      ChildIsAbove(g, n, d);
      assert NodeShaped(g, d);
    }
    ChildrenExact(g, n, |g|);
    if |children| >= 2 {
      SinkFeedsOne(g, n, children[0], children[1]);
    }
  }

  lemma SinkFeedsOne(g: Graph, n: nat, a: nat, b: nat)
    requires Good(g) && n < |g| && g[n].kind == Sink && a in Children(g, n) && b in Children(g, n)
    ensures a == b
  {
    ChildIsAbove(g, n, a);
    ChildIsAbove(g, n, b);
    assert a < b ==> NoSharedSink(g, a, b);
    assert b < a ==> NoSharedSink(g, b, a);
  }

  /** The job edges are the stream edges out of sinks. */
  lemma JobEdgeOfSink(g: Graph, d: nat, p: nat)
    requires Good(g) && Builds(g) && d < |g| && g[d].kind == Source && p in g[d].parents
    ensures p < |g| && d in ChildJobs(g, Root(g, p)) && SinkOf(g, Root(g, p)) == p && Root(g, p) < d
  {
    assert NodeShaped(g, d);
    assert exists k | 0 <= k < |g[d].parents| :: g[d].parents[k] == p;
    var s := Root(g, p);
    JobsPartition(g, p, s);
    var k :| 0 <= k < |JobOf(g, s)| && JobOf(g, s)[k] == p;
    JobRunsFromSourceToSink(g, s, k);
    ChildrenExact(g, p, |g|);
  }

  /** A job with several parent jobs holds the connect operator. */
  lemma SeveralParentsMeanConnect(g: Graph, d: nat)
    requires Good(g) && Builds(g) && d < |g| && |g[d].parents| >= 2
    ensures g[d].kind == Source && exists n :: n in JobOf(g, d) && n < |g| && g[n].kind == CoProcess
  {
    assert JoinShaped(g, d) && NodeShaped(g, d + 1);
    JobsPartition(g, d + 1, d);
  }

  lemma TwoFeedersMeanConnect(g: Graph, d: nat, p: nat, q: nat)
    requires Good(g) && Builds(g) && p != q && p < |g| && q < |g| && g[p].kind == Source && g[q].kind == Source
    requires d in ChildJobs(g, p) && d in ChildJobs(g, q)
    ensures d < |g| && g[d].kind == Source && exists n :: n in JobOf(g, d) && n < |g| && g[n].kind == CoProcess
  {
    JobEdgesGoUp(g, p);
    JobEdgesGoUp(g, q);
    JobsPartition(g, SinkOf(g, p), p);
    JobsPartition(g, SinkOf(g, p), q);
    assert SinkOf(g, p) in g[d].parents && SinkOf(g, q) in g[d].parents && SinkOf(g, p) != SinkOf(g, q);
    SeveralParentsMeanConnect(g, d);
  }
}
