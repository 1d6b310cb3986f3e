/**
 * The stream graph a program builds operator by operator: `rlink/src/dag/stream_graph.rs`.
 * The graph is the list of its nodes; a node's id is its position, and it names its parents.
 */
module StreamGraph {
  import opened Prelude
  import Dags

  datatype Kind = Source | FlatMap | Filter | CoProcess | KeyBy | WatermarkAssigner | WindowAssigner | Reduce | Sink

  datatype DagError =
    | SourceNotFound | NotCombineOperator | SourceNotAtStarting | SinkNotAtEnding
    | ChildNotFoundInPipeline | MultiChildrenInPipeline | ReduceOutputParallelismConflict
    | IllegalInputSplitSize | JobParallelismNotFound

  datatype Result<+T> = Ok(value: T) | Err(error: DagError)

  datatype StreamNode = StreamNode(kind: Kind, parallelism: nat, parents: seq<nat>)

  type Graph = seq<StreamNode>

  const DEFAULT_PARALLELISM: nat := 0

  function Max(a: nat, b: nat): nat { if a < b then b else a }

  /** Whether an operator may join its parent's pipeline, by kind alone. */
  function CheckOperator(kind: Kind, parent: Kind): Result<bool> {
    match parent
    case Sink => Err(SinkNotAtEnding)
    case _ =>
      if kind == Source then Err(SourceNotAtStarting)
      else
        match parent
        case Source => Ok(kind in {FlatMap, Filter, WatermarkAssigner, KeyBy, Sink})
        case FlatMap => Ok(kind in {FlatMap, Filter, WatermarkAssigner, KeyBy, Sink})
        case Filter => Ok(kind in {FlatMap, Filter, WatermarkAssigner, KeyBy, Sink})
        case WatermarkAssigner => Ok(kind in {FlatMap, Filter, WatermarkAssigner, KeyBy, Sink})
        case CoProcess => Ok(kind == KeyBy)
        case WindowAssigner => Ok(kind == Reduce)
        case _ => Ok(false)
  }

  function IsPipeline(kind: Kind, parallelism: nat, parent: Kind, parentParallelism: nat): Result<bool> {
    if parent == WindowAssigner && kind == Reduce then Ok(true)
    else
      match CheckOperator(kind, parent)
      case Err(e) => Err(e)
      case Ok(joins) => Ok(joins && (parallelism == parentParallelism || parallelism == DEFAULT_PARALLELISM))
  }

  // ----- what a call of `add_operator` makes of the graph

  predicate Known(g: Graph, parents: seq<nat>) {
    forall i | 0 <= i < |parents| :: parents[i] < |g|
  }

  /** The operator behind a split: a sink, a source, and below a reduce a flat map. */
  function Split(g: Graph, kind: Kind, parallelism: nat, parent: nat): Graph
    requires parent < |g|
  {
    var n := |g|;
    var cut := g + [StreamNode(Sink, g[parent].parallelism, [parent])] + [StreamNode(Source, parallelism, [n])];
    if g[parent].kind == Reduce then
      cut + [StreamNode(FlatMap, parallelism, [n + 1])] + [StreamNode(kind, parallelism, [n + 2])]
    else
      cut + [StreamNode(kind, parallelism, [n + 1])]
  }

  /**
   * The `i`-th parent of a connect is looked up when `i` sinks have been added for the parents before it:
   * an id that is not handed out yet may be the id of such a sink.
   */
  predicate Found(g: Graph, parents: seq<nat>) {
    forall i | 0 <= i < |parents| :: parents[i] < |g| + i
  }

  /** The lookup of a parent's id is an `unwrap`; a list of parents for anything but a connect is refused before it. */
  predicate Panics(g: Graph, kind: Kind, parents: seq<nat>) {
    (|parents| == 1 || (|parents| >= 2 && kind == CoProcess)) && !Found(g, parents)
  }

  /** One sink below each parent of a connect. */
  function Sinks(g: Graph, parents: seq<nat>): (sinks: Graph)
    requires Found(g, parents)
    ensures |sinks| == |parents|
  {
    if parents == [] then [] else
      var above, p := Sinks(g, parents[..|parents| - 1]), parents[|parents| - 1];
      above + [StreamNode(Sink, (g + above)[p].parallelism, [p])]
  }

  /** The last parent of a connect, the left one. */
  function LastParent(g: Graph, parents: seq<nat>): StreamNode
    requires Found(g, parents) && parents != []
  {
    (g + Sinks(g, parents[..|parents| - 1]))[parents[|parents| - 1]]
  }

  /** The ids of the new sinks whose parent is no reduce, and of the last one whose parent is. */
  function PlainSinks(g: Graph, parents: seq<nat>): seq<nat>
    requires Found(g, parents)
  {
    if parents == [] then [] else
      PlainSinks(g, parents[..|parents| - 1]) + (if LastParent(g, parents).kind == Reduce then [] else [|g| + |parents| - 1])
  }

  function ReduceSink(g: Graph, parents: seq<nat>): Option<nat>
    requires Found(g, parents)
  {
    if parents == [] then None
    else if LastParent(g, parents).kind == Reduce then Some(|g| + |parents| - 1)
    else ReduceSink(g, parents[..|parents| - 1])
  }

  function Connect(g: Graph, kind: Kind, parallelism: nat, parents: seq<nat>): Graph
    requires Found(g, parents) && parents != []
  {
    var h := g + Sinks(g, parents);
    match ReduceSink(g, parents)
    case None =>
      h + [StreamNode(Source, parallelism, PlainSinks(g, parents))] + [StreamNode(kind, parallelism, [|h|])]
    case Some(sink) => Relay(h, kind, LastParent(g, parents).parallelism, PlainSinks(g, parents), sink)
  }

  /** The job between a reduce and a connect. */
  function RelayJob(h: Graph, left: nat, sink: nat): Graph {
    var n := |h|;
    h + [StreamNode(Source, left, [sink])] + [StreamNode(FlatMap, left, [n])] + [StreamNode(Sink, left, [n + 1])]
  }

  /** Below a reduce, a job of its own drops the parked state before the connect. */
  function Relay(h: Graph, kind: Kind, left: nat, plain: seq<nat>, sink: nat): Graph {
    RelayJob(h, left, sink) + [StreamNode(Source, left, plain + [|h| + 2])] + [StreamNode(kind, left, [|h| + 3])]
  }

  function Added(g: Graph, kind: Kind, parallelism: nat, parents: seq<nat>): Result<Graph>
    requires !Panics(g, kind, parents)
  {
    if parents == [] then
      if kind != Source then Err(SourceNotFound) else Ok(g + [StreamNode(kind, parallelism, [])])
    else if |parents| == 1 then
      var parent := g[parents[0]];
      match IsPipeline(kind, parallelism, parent.kind, parent.parallelism)
      case Err(e) => Err(e)
      case Ok(true) => Ok(g + [StreamNode(kind, Max(parallelism, parent.parallelism), parents)])
      case Ok(false) => Ok(Split(g, kind, parallelism, parents[0]))
    else if kind != CoProcess then Err(NotCombineOperator)
    else Ok(Connect(g, kind, parallelism, parents))
  }

  function SourcesBelow(g: Graph, n: nat): seq<nat>
    requires n <= |g|
  {
    if n == 0 then [] else SourcesBelow(g, n - 1) + (if g[n - 1].kind == Source then [n - 1] else [])
  }

  function SourceIds(g: Graph): seq<nat> {
    SourcesBelow(g, |g|)
  }

  lemma {:induction false} SourcesBelowExact(g: Graph, n: nat)
    requires n <= |g|
    ensures forall i: nat :: i in SourcesBelow(g, n) <==> i < n && g[i].kind == Source
    ensures forall a, b | 0 <= a < b < |SourcesBelow(g, n)| :: SourcesBelow(g, n)[a] < SourcesBelow(g, n)[b]
  {
    if n > 0 {
      var front := SourcesBelow(g, n - 1);
      SourcesBelowExact(g, n - 1);
      forall a | 0 <= a < |front| ensures front[a] < n - 1 {
        assert front[a] in front;
      }
    }
  }

  /** The list of sources holds exactly the sources, in increasing order. */
  lemma SourceIdsExact(g: Graph)
    ensures forall i: nat :: i in SourceIds(g) <==> i < |g| && g[i].kind == Source
    ensures forall a, b | 0 <= a < b < |SourceIds(g)| :: SourceIds(g)[a] < SourceIds(g)[b]
  {
    SourcesBelowExact(g, |g|);
  }

  lemma {:induction false} SourcesOfPrefix(g: Graph, node: StreamNode, n: nat)
    requires n <= |g|
    ensures SourcesBelow(g + [node], n) == SourcesBelow(g, n)
  {
    if n > 0 {
      SourcesOfPrefix(g, node, n - 1);
    }
  }

  /** What the loop over the parents of a connect has made, after some of them. */
  ghost predicate SinksAdded(g: Graph, parents: seq<nat>, nodes: Graph, plain: seq<nat>, reduce: Option<nat>, left: nat) {
    && Found(g, parents) && nodes == g + Sinks(g, parents)
    && plain == PlainSinks(g, parents) && reduce == ReduceSink(g, parents)
    && (parents != [] ==> left == LastParent(g, parents).parallelism)
    && Known(nodes, plain) && (reduce.Some? ==> reduce.value < |nodes|)
  }

  lemma SinksAddedSnoc(g: Graph, parents: seq<nat>, p: nat, nodes: Graph, plain: seq<nat>, reduce: Option<nat>, left: nat)
    requires SinksAdded(g, parents, nodes, plain, reduce, left) && p < |nodes|
    ensures var node := nodes[p];
      SinksAdded(g, parents + [p], nodes + [StreamNode(Sink, node.parallelism, [p])],
                 plain + (if node.kind == Reduce then [] else [|nodes|]),
                 if node.kind == Reduce then Some(|nodes|) else reduce,
                 node.parallelism)
  {
    var all := parents + [p];
    assert all[..|all| - 1] == parents;
    assert LastParent(g, all) == nodes[p];
    Regrouped(g, Sinks(g, parents), [StreamNode(Sink, nodes[p].parallelism, [p])]);
  }

  // ----- the edges of the library's graph

  /** One edge from each of the first `k` parents to the operator. */
  function Into(parents: seq<nat>, id: nat, k: nat): (edges: seq<(nat, nat)>)
    requires k <= |parents|
  {
    if k == 0 then [] else Into(parents, id, k - 1) + [(parents[k - 1], id)]
  }

  function EdgesBelow(g: Graph, n: nat): seq<(nat, nat)>
    requires n <= |g|
  {
    if n == 0 then [] else EdgesBelow(g, n - 1) + Into(g[n - 1].parents, n - 1, |g[n - 1].parents|)
  }

  function Edges(g: Graph): seq<(nat, nat)> {
    EdgesBelow(g, |g|)
  }

  ghost function SetOf(edges: seq<(nat, nat)>): set<(nat, nat)> {
    set e | e in edges
  }

  lemma {:induction false} IntoExact(parents: seq<nat>, id: nat, k: nat)
    requires k <= |parents|
    ensures forall e :: e in Into(parents, id, k) <==> e.1 == id && e.0 in parents[..k]
  {
    if k > 0 {
      IntoExact(parents, id, k - 1);
      assert parents[..k] == parents[..k - 1] + [parents[k - 1]];
    }
  }

  lemma {:induction false} EdgesBelowExact(g: Graph, n: nat)
    requires n <= |g|
    ensures forall e :: e in EdgesBelow(g, n) <==> e.1 < n && e.0 in g[e.1].parents
  {
    if n > 0 {
      EdgesBelowExact(g, n - 1);
      IntoExact(g[n - 1].parents, n - 1, |g[n - 1].parents|);
      assert g[n - 1].parents[..|g[n - 1].parents|] == g[n - 1].parents;
    }
  }

  lemma {:induction false} EdgesOfPrefix(g: Graph, node: StreamNode, n: nat)
    requires n <= |g|
    ensures EdgesBelow(g + [node], n) == EdgesBelow(g, n)
  {
    if n > 0 {
      EdgesOfPrefix(g, node, n - 1);
    }
  }

  ghost predicate Rising(edges: seq<(nat, nat)>) {
    forall e | e in edges :: e.0 < e.1
  }

  /** The edge would close a cycle, so the library's `add_edge` refuses it. */
  ghost predicate Refused(edges: seq<(nat, nat)>, from: nat, to: nat) {
    Dags.WouldCycle(SetOf(edges), (from, to))
  }

  lemma RisingIsNotRefused(edges: seq<(nat, nat)>, from: nat, to: nat)
    requires Rising(edges) && from < to
    ensures !Refused(edges, from, to)
  {
    Dags.ClimbingNeverCycles(SetOf(edges), n => n, (from, to));
  }

  class RawStreamGraph {
    var nodes: Graph
    var edges: seq<(nat, nat)>
    var sources: seq<nat>

    ghost predicate Valid()
      reads this
    {
      sources == SourceIds(nodes) && edges == Edges(nodes) && Rising(edges)
    }

    constructor ()
      ensures Valid() && nodes == []
    {
      nodes, edges, sources := [], [], [];
    }

    /** The caller unwraps the library's answer, so the edge must not be refused. */
    method AddEdge(from: nat, to: nat)
      requires !Refused(edges, from, to)
      modifies this`edges
      ensures edges == old(edges) + [(from, to)]
    {
      edges := edges + [(from, to)];
    }

    method AddEdges(parents: seq<nat>, id: nat)
      requires Rising(edges) && forall i | 0 <= i < |parents| :: parents[i] < id
      modifies this`edges
      ensures Rising(edges) && edges == old(edges) + Into(parents, id, |parents|)
    {
      for i := 0 to |parents|
        invariant edges == old(edges) + Into(parents, id, i) && Rising(edges)
      {
        RisingIsNotRefused(edges, parents[i], id);
        AddEdge(parents[i], id);
      }
    }

    method AddOperator0(kind: Kind, parallelism: nat, parents: seq<nat>) returns (id: nat)
      requires Valid() && Known(nodes, parents)
      modifies this
      ensures Valid() && nodes == old(nodes) + [StreamNode(kind, parallelism, parents)] && id == |old(nodes)|
      ensures edges == old(edges) + Into(parents, id, |parents|)
    {
      id := |nodes|;
      var node := StreamNode(kind, parallelism, parents);
      SourcesOfPrefix(nodes, node, id);
      EdgesOfPrefix(nodes, node, id);
      nodes := nodes + [node];
      AddEdges(parents, id);
      if kind == Source {
        sources := sources + [id];
      }
    }

    /** A refused operator leaves the graph alone; an added one has the last id. */
    method AddOperator(kind: Kind, parallelism: nat, parents: seq<nat>) returns (r: Outcome<Result<nat>>)
      requires Valid()
      modifies this
      ensures Valid()
      ensures r.Panic? <==> Panics(old(nodes), kind, parents)
      ensures r.Done? ==> match Added(old(nodes), kind, parallelism, parents)
              case Err(e) => r.value == Err(e) && nodes == old(nodes)
              case Ok(g) => nodes == g && r.value == Ok(|g| - 1)
    {
      if |parents| == 0 {
        if kind != Source {
          return Done(Err(SourceNotFound));
        }
        var id := AddOperator0(kind, parallelism, parents);
        return Done(Ok(id));
      }
      if |parents| == 1 {
        assert parents == [parents[0]];
        r := AddBelow(kind, parallelism, parents[0]);
        return;
      }
      if kind != CoProcess {
        return Done(Err(NotCombineOperator));
      }
      r := AddConnect(kind, parallelism, parents);
    }

    /** One parent: its pipeline is continued, or the operator is split off behind it. */
    method AddBelow(kind: Kind, parallelism: nat, p: nat) returns (r: Outcome<Result<nat>>)
      requires Valid()
      modifies this
      ensures Valid()
      ensures r.Panic? <==> p >= |old(nodes)|
      ensures r.Done? ==> match Added(old(nodes), kind, parallelism, [p])
              case Err(e) => r.value == Err(e) && nodes == old(nodes)
              case Ok(g) => nodes == g && r.value == Ok(|g| - 1)
    {
      if p >= |nodes| {
        return Panic;
      }
      var parent := nodes[p];
      var pipeline := IsPipeline(kind, parallelism, parent.kind, parent.parallelism);
      match pipeline
      case Err(e) => return Done(Err(e));
      case Ok(true) =>
        var id := AddOperator0(kind, Max(parallelism, parent.parallelism), [p]);
        return Done(Ok(id));
      case Ok(false) =>
        var id := AddSplit(kind, parallelism, p);
        return Done(Ok(id));
    }

    method AddSplit(kind: Kind, parallelism: nat, parent: nat) returns (id: nat)
      requires Valid() && parent < |nodes|
      modifies this
      ensures Valid() && nodes == Split(old(nodes), kind, parallelism, parent) && id == |nodes| - 1
    {
      var isReduce := nodes[parent].kind == Reduce;
      var sink := AddOperator0(Sink, nodes[parent].parallelism, [parent]);
      var source := AddOperator0(Source, parallelism, [sink]);
      if isReduce {
        source := AddOperator0(FlatMap, parallelism, [source]);
      }
      id := AddOperator0(kind, parallelism, [source]);
    }

    /** One sink below each parent; the last parent is the left one. */
    method AddSinks(parents: seq<nat>) returns (found: bool, plain: seq<nat>, reduce: Option<nat>, left: nat)
      requires Valid() && parents != []
      modifies this
      ensures Valid() && found == Found(old(nodes), parents)
      ensures found ==> SinksAdded(old(nodes), parents, nodes, plain, reduce, left)
    {
      plain, reduce, left := [], None, 0;
      ghost var g := nodes;
      for i := 0 to |parents|
        invariant Valid() && SinksAdded(g, parents[..i], nodes, plain, reduce, left)
      {
        if parents[i] >= |nodes| {
          return false, plain, reduce, left;
        }
        assert parents[..i + 1] == parents[..i] + [parents[i]];
        plain, reduce, left := AddSink(parents[i], plain, reduce, left, g, parents[..i]);
      }
      assert parents[..|parents|] == parents;
      found := true;
    }

    method AddSink(p: nat, plain: seq<nat>, reduce: Option<nat>, ghost left: nat, ghost g: Graph, ghost parents: seq<nat>)
      returns (plain': seq<nat>, reduce': Option<nat>, left': nat)
      requires Valid() && SinksAdded(g, parents, nodes, plain, reduce, left) && p < |nodes|
      modifies this
      ensures Valid() && SinksAdded(g, parents + [p], nodes, plain', reduce', left')
    {
      SinksAddedSnoc(g, parents, p, nodes, plain, reduce, left);
      var node := nodes[p];
      var sink := AddOperator0(Sink, node.parallelism, [p]);
      if node.kind == Reduce {
        assert plain + [] == plain;
        plain', reduce', left' := plain, Some(sink), node.parallelism;
      } else {
        plain', reduce', left' := plain + [sink], reduce, node.parallelism;
      }
    }

    /** A parent that is not found is the panic; the sinks of the parents before it are already there. */
    method AddConnect(kind: Kind, parallelism: nat, parents: seq<nat>) returns (r: Outcome<Result<nat>>)
      requires Valid() && parents != []
      modifies this
      ensures Valid() && (r.Panic? <==> !Found(old(nodes), parents))
      ensures r.Done? ==> nodes == Connect(old(nodes), kind, parallelism, parents) && r.value == Ok(|nodes| - 1)
    {
      var found, plain, reduce, left := AddSinks(parents);
      if !found {
        return Panic;
      }
      var id: nat;
      match reduce {
        case Some(sink) =>
          id := AddRelay(kind, left, plain, sink);
        case None =>
          var source := AddOperator0(Source, parallelism, plain);
          id := AddOperator0(kind, parallelism, [source]);
      }
      r := Done(Ok(id));
    }

    method AddRelay(kind: Kind, left: nat, plain: seq<nat>, sink: nat) returns (id: nat)
      requires Valid() && Known(nodes, plain) && sink < |nodes|
      modifies this
      ensures Valid() && nodes == Relay(old(nodes), kind, left, plain, sink) && id == |nodes| - 1
    {
      var source := AddOperator0(Source, left, [sink]);
      var flatMap := AddOperator0(FlatMap, left, [source]);
      var relay := AddOperator0(Sink, left, [flatMap]);
      source := AddOperator0(Source, left, plain + [relay]);
      id := AddOperator0(kind, left, [source]);
    }
  }

  // ----- the shape every built graph has

  /** Edges go up, a source hangs below sinks only, every other operator below one operator that is no sink. */
  predicate NodeShaped(g: Graph, i: nat)
    requires i < |g|
  {
    && (forall k | 0 <= k < |g[i].parents| :: g[i].parents[k] < i)
    && (g[i].kind == Source ==> forall k | 0 <= k < |g[i].parents| :: g[g[i].parents[k]].kind == Sink)
    && (g[i].kind != Source ==> |g[i].parents| == 1 && g[g[i].parents[0]].kind != Sink)
  }

  ghost predicate NoSharedSink(g: Graph, i: nat, j: nat)
    requires i < |g| && j < |g|
  {
    forall s: nat | s in g[i].parents && s in g[j].parents :: s < |g| && g[s].kind != Sink
  }

  /** A sink feeds at most one operator, and feeds it once. */
  ghost predicate SinksFeedOne(g: Graph) {
    && (forall i {:trigger NoDuplicates(g[i].parents)} | 0 <= i < |g| :: NoDuplicates(g[i].parents))
    && (forall i, j | 0 <= i < j < |g| :: NoSharedSink(g, i, j))
  }

  /** A source below several sinks is the source of a connect. */
  predicate JoinShaped(g: Graph, i: nat)
    requires i < |g|
  {
    |g[i].parents| >= 2 ==> g[i].kind == Source && i + 1 < |g| && g[i + 1].kind == CoProcess && g[i + 1].parents == [i]
  }

  ghost predicate Connected(g: Graph) {
    forall i | 0 <= i < |g| :: JoinShaped(g, i)
  }

  ghost predicate Shaped(g: Graph) {
    (forall i | 0 <= i < |g| :: NodeShaped(g, i)) && SinksFeedOne(g)
  }

  /** A sink that feeds nothing yet. */
  ghost predicate FreeSink(g: Graph, s: nat) {
    s < |g| && g[s].kind == Sink && forall i | 0 <= i < |g| :: s !in g[i].parents
  }

  ghost predicate Fits(g: Graph, node: StreamNode) {
    && (node.kind == Source ==> NoDuplicates(node.parents) && forall k | 0 <= k < |node.parents| :: FreeSink(g, node.parents[k]))
    && (node.kind != Source ==> |node.parents| == 1 && node.parents[0] < |g| && g[node.parents[0]].kind != Sink)
  }

  lemma AppendKeepsNodes(g: Graph, node: StreamNode)
    requires forall i | 0 <= i < |g| :: NodeShaped(g, i)
    requires Fits(g, node)
    ensures forall i | 0 <= i < |g + [node]| :: NodeShaped(g + [node], i)
  {
    var h := g + [node];
    forall i | 0 <= i < |h| ensures NodeShaped(h, i) {
      if i < |g| {
        assert NodeShaped(g, i);
      }
    }
  }

  lemma SharedIsNoSink(g: Graph, node: StreamNode, i: nat, s: nat)
    requires Fits(g, node) && i < |g| && NodeShaped(g, i) && s in g[i].parents && s in node.parents
    ensures s < |g| && g[s].kind != Sink
  {
    assert !FreeSink(g, s);
  }

  lemma AppendKeepsSinks(g: Graph, node: StreamNode)
    requires Shaped(g) && Fits(g, node)
    ensures SinksFeedOne(g + [node])
  {
    var h := g + [node];
    forall i | 0 <= i < |h| ensures NoDuplicates(h[i].parents) {
      assert i < |g| ==> NoDuplicates(g[i].parents);
    }
    forall i, j | 0 <= i < j < |h| ensures NoSharedSink(h, i, j) {
      assert NodeShaped(g, i);
      if j == |g| {
        forall s: nat | s in g[i].parents && s in node.parents ensures s < |g| && g[s].kind != Sink {
          SharedIsNoSink(g, node, i, s);
        }
      } else {
        assert NoSharedSink(g, i, j);
      }
    }
  }

  lemma AppendKeepsShape(g: Graph, node: StreamNode)
    requires Shaped(g) && Fits(g, node)
    ensures Shaped(g + [node])
  {
    AppendKeepsNodes(g, node);
    AppendKeepsSinks(g, node);
  }

  lemma NewSinkIsFree(g: Graph, node: StreamNode)
    requires Shaped(g) && Fits(g, node) && node.kind == Sink
    ensures FreeSink(g + [node], |g|)
  {
    forall i | 0 <= i < |g| ensures |g| !in g[i].parents {
      assert NodeShaped(g, i);
    }
  }

  lemma AppendKeepsFree(g: Graph, node: StreamNode, s: nat)
    requires FreeSink(g, s) && s !in node.parents
    ensures FreeSink(g + [node], s)
  {
  }

  lemma AppendKeepsConnected(g: Graph, node: StreamNode)
    requires Connected(g) && |node.parents| <= 1
    ensures Connected(g + [node])
  {
    forall i | 0 <= i < |g + [node]| ensures JoinShaped(g + [node], i) {
      assert i < |g| ==> JoinShaped(g, i);
    }
  }

  lemma ConnectKeepsConnected(g: Graph, source: StreamNode, co: StreamNode)
    requires Connected(g) && source.kind == Source && co.kind == CoProcess && co.parents == [|g|]
    ensures Connected(g + [source] + [co])
  {
    forall i | 0 <= i < |g| + 2 ensures JoinShaped(g + [source] + [co], i) {
      assert i < |g| ==> JoinShaped(g, i);
    }
  }

  ghost predicate Good(g: Graph) {
    Shaped(g) && Connected(g)
  }

  lemma AppendKeepsGood(g: Graph, node: StreamNode)
    requires Good(g) && Fits(g, node) && |node.parents| <= 1
    ensures Good(g + [node]) && (node.kind == Sink ==> FreeSink(g + [node], |g|))
  {
    AppendKeepsShape(g, node);
    AppendKeepsConnected(g, node);
    if node.kind == Sink {
      NewSinkIsFree(g, node);
    }
  }

  lemma OperatorKeepsGood(g: Graph, kind: Kind, parallelism: nat, parent: nat)
    requires Good(g) && parent < |g| && g[parent].kind != Sink && kind != Source
    ensures var h := g + [StreamNode(kind, parallelism, [parent])]; Good(h) && (kind == Sink ==> FreeSink(h, |g|))
  {
    AppendKeepsGood(g, StreamNode(kind, parallelism, [parent]));
  }

  lemma SourceKeepsGood(g: Graph, parallelism: nat, sink: nat)
    requires Good(g) && FreeSink(g, sink)
    ensures Good(g + [StreamNode(Source, parallelism, [sink])])
  {
    AppendKeepsGood(g, StreamNode(Source, parallelism, [sink]));
  }

  lemma SplitKeepsGood(g: Graph, kind: Kind, parallelism: nat, parent: nat)
    requires Good(g) && parent < |g| && g[parent].kind != Sink && kind != Source
    ensures Good(Split(g, kind, parallelism, parent))
  {
    var sink, source := StreamNode(Sink, g[parent].parallelism, [parent]), StreamNode(Source, parallelism, [|g|]);
    CutKeepsGood(g, g[parent].parallelism, parallelism, parent);
    BehindSplit(g + [sink] + [source], kind, parallelism);
  }

  lemma CutKeepsGood(g: Graph, above: nat, below: nat, parent: nat)
    requires Good(g) && parent < |g| && g[parent].kind != Sink
    ensures Good(g + [StreamNode(Sink, above, [parent])] + [StreamNode(Source, below, [|g|])])
  {
    OperatorKeepsGood(g, Sink, above, parent);
    SourceKeepsGood(g + [StreamNode(Sink, above, [parent])], below, |g|);
  }

  lemma BehindSplit(cut: Graph, kind: Kind, parallelism: nat)
    requires Good(cut) && kind != Source && cut != [] && cut[|cut| - 1].kind == Source
    ensures Good(cut + [StreamNode(kind, parallelism, [|cut| - 1])])
    ensures Good(cut + [StreamNode(FlatMap, parallelism, [|cut| - 1])] + [StreamNode(kind, parallelism, [|cut|])])
  {
    OperatorKeepsGood(cut, kind, parallelism, |cut| - 1);
    OperatorKeepsGood(cut, FlatMap, parallelism, |cut| - 1);
    OperatorKeepsGood(cut + [StreamNode(FlatMap, parallelism, [|cut| - 1])], kind, parallelism, |cut|);
  }

  /** Parents that were there before the call, none of them a sink. */
  predicate NoSinks(g: Graph, parents: seq<nat>) {
    forall i | 0 <= i < |parents| :: parents[i] < |g| && g[parents[i]].kind != Sink
  }

  lemma {:induction false} SinksKeepGood(g: Graph, parents: seq<nat>)
    requires Good(g) && NoSinks(g, parents)
    ensures Good(g + Sinks(g, parents))
    ensures forall s | |g| <= s < |g| + |parents| :: FreeSink(g + Sinks(g, parents), s)
  {
    if parents == [] {
      assert g + Sinks(g, parents) == g;
    } else {
      var front, p := parents[..|parents| - 1], parents[|parents| - 1];
      SinksKeepGood(g, front);
      var h := g + Sinks(g, front);
      var sink := StreamNode(Sink, h[p].parallelism, [p]);
      Regrouped(g, Sinks(g, front), [sink]);
      AppendKeepsGood(h, sink);
      forall s | |g| <= s < |h| ensures FreeSink(h + [sink], s) {
        AppendKeepsFree(h, sink, s);
      }
    }
  }

  lemma {:induction false} SinkIds(g: Graph, parents: seq<nat>)
    requires Found(g, parents)
    ensures var plain := PlainSinks(g, parents); NoDuplicates(plain) && forall s | s in plain :: |g| <= s < |g| + |parents|
    ensures var reduce := ReduceSink(g, parents);
      reduce.Some? ==> |g| <= reduce.value < |g| + |parents| && reduce.value !in PlainSinks(g, parents)
  {
    if parents != [] {
      SinkIds(g, parents[..|parents| - 1]);
      var plain := PlainSinks(g, parents[..|parents| - 1]);
      assert forall k | 0 <= k < |plain| :: plain[k] in plain;
    }
  }

  /** The two last operators of a connect. */
  lemma JoinKeepsGood(g: Graph, parallelism: nat, sinks: seq<nat>)
    requires Good(g) && NoDuplicates(sinks) && forall s | s in sinks :: FreeSink(g, s)
    ensures Good(g + [StreamNode(Source, parallelism, sinks)] + [StreamNode(CoProcess, parallelism, [|g|])])
  {
    var source, co := StreamNode(Source, parallelism, sinks), StreamNode(CoProcess, parallelism, [|g|]);
    assert forall k | 0 <= k < |sinks| :: sinks[k] in sinks;
    AppendKeepsShape(g, source);
    AppendKeepsShape(g + [source], co);
    ConnectKeepsConnected(g, source, co);
  }

  lemma RelayJobKeepsGood(h: Graph, left: nat, sink: nat)
    requires Good(h) && FreeSink(h, sink)
    ensures Good(RelayJob(h, left, sink)) && FreeSink(RelayJob(h, left, sink), |h| + 2)
  {
    var n := |h|;
    SourceKeepsGood(h, left, sink);
    OperatorKeepsGood(h + [StreamNode(Source, left, [sink])], FlatMap, left, n);
    OperatorKeepsGood(h + [StreamNode(Source, left, [sink])] + [StreamNode(FlatMap, left, [n])], Sink, left, n + 1);
  }

  lemma RelayJobKeepsFree(h: Graph, left: nat, sink: nat, s: nat)
    requires FreeSink(h, s) && s != sink
    ensures FreeSink(RelayJob(h, left, sink), s)
  {
  }

  lemma RelayKeepsGood(h: Graph, left: nat, plain: seq<nat>, sink: nat)
    requires Good(h) && NoDuplicates(plain) && FreeSink(h, sink) && sink !in plain
    requires forall s | s in plain :: FreeSink(h, s)
    ensures Good(Relay(h, CoProcess, left, plain, sink))
  {
    var g := RelayJob(h, left, sink);
    RelayJobKeepsGood(h, left, sink);
    forall s | s in plain ensures FreeSink(g, s) && s != |h| + 2 {
      RelayJobKeepsFree(h, left, sink, s);
    }
    JoinKeepsGood(g, left, plain + [|h| + 2]);
  }

  lemma ConnectKeepsGood(g: Graph, parallelism: nat, parents: seq<nat>)
    requires Good(g) && NoSinks(g, parents) && parents != []
    ensures Good(Connect(g, CoProcess, parallelism, parents))
  {
    var h := g + Sinks(g, parents);
    SinksKeepGood(g, parents);
    SinkIds(g, parents);
    match ReduceSink(g, parents)
    case None => JoinKeepsGood(h, parallelism, PlainSinks(g, parents));
    case Some(sink) => RelayKeepsGood(h, LastParent(g, parents).parallelism, PlainSinks(g, parents), sink);
  }

  // ----- every program

  datatype Call = Call(kind: Kind, parallelism: nat, parents: seq<nat>)

  /** The call does not panic, and a connect is not asked to read from sinks. */
  predicate Legal(g: Graph, call: Call) {
    && !Panics(g, call.kind, call.parents)
    && (|call.parents| >= 2 && call.kind == CoProcess ==> NoSinks(g, call.parents))
  }

  lemma AddedKeepsGood(g: Graph, call: Call)
    requires Good(g) && Legal(g, call) && Added(g, call.kind, call.parallelism, call.parents).Ok?
    ensures Good(Added(g, call.kind, call.parallelism, call.parents).value)
  {
    if |call.parents| == 0 {
      AppendKeepsGood(g, StreamNode(call.kind, call.parallelism, []));
    } else if |call.parents| == 1 {
      var p := call.parents[0];
      match IsPipeline(call.kind, call.parallelism, g[p].kind, g[p].parallelism)
      case Ok(true) => AppendKeepsGood(g, StreamNode(call.kind, Max(call.parallelism, g[p].parallelism), call.parents));
      case Ok(false) => SplitKeepsGood(g, call.kind, call.parallelism, p);
    } else {
      ConnectKeepsGood(g, call.parallelism, call.parents);
    }
  }

  /** The graph after a program's calls; refused ones change nothing, and none of a legal program's panics. */
  function Built(calls: seq<Call>): Graph {
    if calls == [] then [] else
      var g, call := Built(calls[..|calls| - 1]), calls[|calls| - 1];
      if Panics(g, call.kind, call.parents) then g else
        match Added(g, call.kind, call.parallelism, call.parents)
        case Err(_) => g
        case Ok(h) => h
  }

  predicate LegalProgram(calls: seq<Call>) {
    calls != [] ==> LegalProgram(calls[..|calls| - 1]) && Legal(Built(calls[..|calls| - 1]), calls[|calls| - 1])
  }

  /** Whatever calls a program makes, its graph has the shape above. */
  lemma {:induction false} EveryProgramIsGood(calls: seq<Call>)
    requires LegalProgram(calls)
    ensures Good(Built(calls))
  {
    if calls != [] {
      var g, call := Built(calls[..|calls| - 1]), calls[|calls| - 1];
      EveryProgramIsGood(calls[..|calls| - 1]);
      if Added(g, call.kind, call.parallelism, call.parents).Ok? {
        AddedKeepsGood(g, call);
      }
    }
  }

  // ----- paths

  /** Every path of a built graph goes up, so the library takes any edge from it to a new operator. */
  lemma PathsGoUp(g: Graph)
    requires Good(g)
    ensures forall path | Dags.IsPath(SetOf(Edges(g)), path) && |path| > 1 :: path[0] < path[|path| - 1]
    ensures forall p: nat | p < |g| :: !Refused(Edges(g), p, |g|)
  {
    GoodRises(g);
    forall path | Dags.IsPath(SetOf(Edges(g)), path) && |path| > 1 ensures path[0] < path[|path| - 1] {
      PathGoesUp(Edges(g), path);
    }
    forall p: nat | p < |g| ensures !Refused(Edges(g), p, |g|) {
      RisingIsNotRefused(Edges(g), p, |g|);
    }
  }

  lemma GoodRises(g: Graph)
    requires Good(g)
    ensures Rising(Edges(g))
  {
    EdgesBelowExact(g, |g|);
    forall e | e in Edges(g) ensures e.0 < e.1 {
      assert NodeShaped(g, e.1);
    }
  }

  lemma PathGoesUp(edges: seq<(nat, nat)>, path: seq<nat>)
    requires Rising(edges) && Dags.IsPath(SetOf(edges), path) && |path| > 1
    ensures path[0] < path[|path| - 1]
  {
    var n := |path| - 1;
    assert (path[n - 1], path[n]) in edges;
    Dags.PathClimbs(SetOf(edges), i => i, path[..n]);
  }
}
