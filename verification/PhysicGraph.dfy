/**
 * Chaining the tasks joined by memory edges: `rlink/src/dag/physic_graph.rs`.
 */
module PhysicGraph {
  import opened Prelude
  import opened Tasks
  import opened ExecutionGraph

  type Edge = (TaskId, TaskId)

  /** The memory edges. */
  function Links(edges: TaskEdges): set<Edge> {
    set e | e in edges && edges[e] == Memory
  }

  /** No link leaves the set or enters it. */
  ghost predicate Closed(nodes: set<TaskId>, links: set<Edge>) {
    forall e | e in links :: e.0 in nodes <==> e.1 in nodes
  }

  /** A connected component: the smallest closed set around `node`. */
  ghost predicate IsComponent(nodes: set<TaskId>, node: TaskId, links: set<Edge>) {
    node in nodes && Closed(nodes, links) && forall s | Closed(s, links) && node in s :: nodes <= s
  }

  /** All of `nodes` is connected to `node`: it is in every closed set around it. */
  ghost predicate Within(nodes: seq<TaskId>, node: TaskId, links: set<Edge>) {
    forall s, x | Closed(s, links) && node in s && x in nodes :: x in s
  }

  /**
   * What a search from `node` leaves: it removed links among the visited nodes only, no link
   * left touches them, it visited one node more than it removed links, and visited nothing
   * that is not connected to `node`.
   */
  ghost predicate Found(start: set<Edge>, now: set<Edge>, node: TaskId, nodes: seq<TaskId>) {
    && now <= start && nodes != [] && nodes[0] == node
    && (forall e | e in start - now :: e.0 in nodes && e.1 in nodes)
    && (forall e | e in now :: e.0 !in nodes && e.1 !in nodes)
    && |nodes| == 1 + |start| - |now|
    && Within(nodes, node, start)
  }

  /** A search on its way, with the nodes it still has to visit. */
  ghost predicate Searching(start: set<Edge>, now: set<Edge>, node: TaskId, nodes: seq<TaskId>, pending: seq<TaskId>) {
    && now <= start && nodes != [] && nodes[0] == node
    && (forall e | e in start - now :: e.0 in nodes + pending && e.1 in nodes + pending)
    && |nodes| + |pending| == 1 + |start| - |now|
    && Within(nodes + pending, node, start)
  }

  /** The visited nodes have no links left, but `node` may still have links to children. */
  ghost predicate Cleared(now: set<Edge>, node: TaskId, nodes: seq<TaskId>, withChildren: bool) {
    forall e | e in now :: e.1 !in nodes && (e.0 in nodes ==> withChildren && e.0 == node)
  }

  /** Visiting the first pending node. */
  lemma VisitNext(start: set<Edge>, now: set<Edge>, now': set<Edge>, node: TaskId, nodes: seq<TaskId>,
                  pending: seq<TaskId>, sub: seq<TaskId>, withChildren: bool)
    requires pending != [] && Searching(start, now, node, nodes, pending) && Found(now, now', pending[0], sub)
    requires Cleared(now, node, nodes, withChildren)
    ensures Searching(start, now', node, nodes + sub, pending[1..])
    ensures Cleared(now', node, nodes + sub, withChildren)
  {
    var all := nodes + sub + pending[1..];
    forall e | e in start - now' ensures e.0 in all && e.1 in all {
      if e in now {
        assert e in now - now';
      } else {
        assert e in start - now;
      }
    }
    forall s, x | Closed(s, start) && node in s && x in all ensures x in s {
      assert Closed(s, now);
      assert pending[0] in nodes + pending;
    }
  }

  lemma NothingPending(start: set<Edge>, now: set<Edge>, node: TaskId, nodes: seq<TaskId>)
    requires Searching(start, now, node, nodes, []) && Cleared(now, node, nodes, false)
    ensures Found(start, now, node, nodes)
  {
    assert nodes + [] == nodes;
  }

  /** The first ends of the edges, in any order. */
  method FirstEnds(found: set<Edge>) returns (ends: seq<TaskId>)
    ensures |ends| == |found| && forall t :: t in ends <==> exists e :: e in found && e.0 == t
  {
    ends := [];
    var todo := found;
    while todo != {}
      invariant todo <= found && |ends| + |todo| == |found|
      invariant forall t :: t in ends <==> exists e :: e in found && e !in todo && e.0 == t
    {
      var e :| e in todo;
      ends := ends + [e.0];
      todo := todo - {e};
    }
  }

  method SecondEnds(found: set<Edge>) returns (ends: seq<TaskId>)
    ensures |ends| == |found| && forall t :: t in ends <==> exists e :: e in found && e.1 == t
  {
    ends := [];
    var todo := found;
    while todo != {}
      invariant todo <= found && |ends| + |todo| == |found|
      invariant forall t :: t in ends <==> exists e :: e in found && e !in todo && e.1 == t
    {
      var e :| e in todo;
      ends := ends + [e.1];
      todo := todo - {e};
    }
  }

  class Dag {
    var edges: TaskEdges

    constructor (edges: TaskEdges)
      ensures this.edges == edges
    {
      this.edges := edges;
    }

    /** Takes out the memory edges into `node`; one parent for each. */
    method GetParents(node: TaskId) returns (parents: seq<TaskId>)
      modifies this
      ensures forall p :: p in parents <==> (p, node) in Links(old(edges))
      ensures Links(edges) == Links(old(edges)) - In(node, Links(old(edges)))
      ensures |parents| == |Links(old(edges))| - |Links(edges)|
    {
      var found := In(node, Links(edges));
      parents := FirstEnds(found);
      RemoveLinks(found);
      forall p ensures p in parents <==> (p, node) in Links(old(edges)) {
        assert (p, node) in found <==> exists e :: e in found && e.0 == p;
      }
    }

    method GetChildren(node: TaskId) returns (children: seq<TaskId>)
      modifies this
      ensures forall c :: c in children <==> (node, c) in Links(old(edges))
      ensures Links(edges) == Links(old(edges)) - Out(node, Links(old(edges)))
      ensures |children| == |Links(old(edges))| - |Links(edges)|
    {
      var found := Out(node, Links(edges));
      children := SecondEnds(found);
      RemoveLinks(found);
      forall c ensures c in children <==> (node, c) in Links(old(edges)) {
        assert (node, c) in found <==> exists e :: e in found && e.1 == c;
      }
    }

    method RemoveLinks(found: set<Edge>)
      requires found <= Links(edges)
      modifies this
      ensures Links(edges) == Links(old(edges)) - found && |Links(edges)| == |Links(old(edges))| - |found|
    {
      edges := edges - found;
      assert Links(edges) == Links(old(edges)) - found;
      assert Links(old(edges)) == Links(edges) + found;
    }

    /** The search ends because every link is followed once and removed first. */
    method Search(node: TaskId) returns (nodes: seq<TaskId>)
      modifies this
      ensures Found(Links(old(edges)), Links(edges), node, nodes)
      decreases |Links(edges)|, 1
    {
      ghost var start := Links(edges);
      nodes := [node];
      var parents := GetParents(node);
      SearchStarts(start, Links(edges), node, parents);
      nodes := SearchAll(parents, nodes, start, node, true);
      ghost var now := Links(edges);
      var children := GetChildren(node);
      SearchTurns(start, now, Links(edges), node, nodes, children);
      nodes := SearchAll(children, nodes, start, node, false);
      NothingPending(start, Links(edges), node, nodes);
    }

    /** The loop over the parents, and that over the children. */
    method SearchAll(pending: seq<TaskId>, visited: seq<TaskId>, ghost start: set<Edge>, ghost node: TaskId, ghost withChildren: bool)
      returns (nodes: seq<TaskId>)
      requires Searching(start, Links(edges), node, visited, pending) && Cleared(Links(edges), node, visited, withChildren)
      requires pending != [] ==> |Links(edges)| < |start|
      modifies this
      ensures Searching(start, Links(edges), node, nodes, []) && Cleared(Links(edges), node, nodes, withChildren)
      ensures Links(edges) <= Links(old(edges))
      decreases |start|, 0
    {
      nodes := visited;
      ghost var limit := |Links(edges)|;
      for i := 0 to |pending|
        invariant Links(edges) <= Links(old(edges)) && |Links(edges)| <= limit
        invariant Searching(start, Links(edges), node, nodes, pending[i..]) && Cleared(Links(edges), node, nodes, withChildren)
      {
        ghost var now := Links(edges);
        var sub := Search(pending[i]);
        VisitNext(start, now, Links(edges), node, nodes, pending[i..], sub, withChildren);
        assert pending[i..][1..] == pending[i + 1..];
        nodes := nodes + sub;
      }
    }
  }

  lemma SearchStarts(start: set<Edge>, now: set<Edge>, node: TaskId, parents: seq<TaskId>)
    requires now == start - In(node, start) && |parents| == |start| - |now|
    requires forall p :: p in parents <==> (p, node) in start
    ensures Searching(start, now, node, [node], parents) && Cleared(now, node, [node], true)
  {
    forall e | e in start - now ensures e.0 in parents && e.1 == node {
      assert e == (e.0, node);
    }
    forall s, x | Closed(s, start) && node in s && x in [node] + parents ensures x in s {
      assert x != node ==> (x, node) in start;
    }
  }

  /** From the parents to the children. */
  lemma SearchTurns(start: set<Edge>, now: set<Edge>, now': set<Edge>, node: TaskId, nodes: seq<TaskId>, children: seq<TaskId>)
    requires Searching(start, now, node, nodes, []) && Cleared(now, node, nodes, true)
    requires now' == now - Out(node, now) && |children| == |now| - |now'|
    requires forall c :: c in children <==> (node, c) in now
    ensures Searching(start, now', node, nodes, children) && Cleared(now', node, nodes, false)
  {
    assert nodes + [] == nodes;
    forall e | e in start - now' ensures e.0 in nodes + children && e.1 in nodes + children {
      if e in now {
        assert e == (node, e.1);
      } else {
        assert e in start - now;
      }
    }
    forall s, x | Closed(s, start) && node in s && x in nodes + children ensures x in s {
      assert x !in nodes ==> (node, x) in start;
    }
  }

  function In(node: TaskId, links: set<Edge>): set<Edge> {
    set e | e in links && e.1 == node
  }

  function Out(node: TaskId, links: set<Edge>): set<Edge> {
    set e | e in links && e.0 == node
  }

  // ----- components

  ghost function Set(nodes: seq<TaskId>): set<TaskId> {
    set x | x in nodes
  }

  lemma FoundIsComponent(start: set<Edge>, now: set<Edge>, node: TaskId, nodes: seq<TaskId>)
    requires Found(start, now, node, nodes)
    ensures IsComponent(Set(nodes), node, start)
  {
    forall e | e in start ensures e.0 in Set(nodes) <==> e.1 in Set(nodes) {
      assert e in now || e in start - now;
    }
  }

  /** Each task has at most one memory child, in a later job. */
  ghost predicate Forest(links: set<Edge>) {
    && (forall e, f | e in links && f in links && e.0 == f.0 :: e == f)
    && (forall e | e in links :: e.0.jobId < e.1.jobId)
  }

  ghost function Starts(links: set<Edge>): set<TaskId> {
    set e | e in links :: e.0
  }

  lemma {:induction false} StartCount(links: set<Edge>)
    requires forall e, f | e in links && f in links && e.0 == f.0 :: e == f
    ensures |Starts(links)| == |links|
    decreases |links|
  {
    if links != {} {
      var e :| e in links;
      var rest := links - {e};
      StartCount(rest);
      assert Starts(links) == Starts(rest) + {e.0};
      assert e.0 !in Starts(rest);
    }
  }

  predicate IsTop(top: TaskId, nodes: set<TaskId>) {
    forall x | x in nodes :: x.jobId <= top.jobId
  }

  lemma {:induction false} TopExists(nodes: set<TaskId>)
    requires nodes != {}
    ensures exists top :: top in nodes && IsTop(top, nodes)
    decreases |nodes|
  {
    var x :| x in nodes;
    if nodes == {x} {
      assert IsTop(x, nodes);
    } else {
      TopExists(nodes - {x});
      var y :| y in nodes - {x} && IsTop(y, nodes - {x});
      var top := if x.jobId > y.jobId then x else y;
      assert forall z | z in nodes :: z == x || z in nodes - {x};
      assert top in nodes && IsTop(top, nodes);
    }
  }

  /** In a forest, a set closed over its links has more nodes than links. */
  lemma ForestHasFewLinks(links: set<Edge>, nodes: set<TaskId>)
    requires Forest(links) && nodes != {} && forall e | e in links :: e.0 in nodes && e.1 in nodes
    ensures |nodes| >= 1 + |links|
  {
    TopExists(nodes);
    var top :| top in nodes && IsTop(top, nodes);
    StartCount(links);
    assert Starts(links) <= nodes - {top};
    SubsetOfSameSize(Starts(links), nodes - {top});
  }

  /** Two smallest closed sets around a node are equal. */
  lemma ComponentIsUnique(a: set<TaskId>, b: set<TaskId>, node: TaskId, links: set<Edge>)
    requires IsComponent(a, node, links) && IsComponent(b, node, links)
    ensures a == b
  {
    assert a <= b && b <= a;
  }

  /** The links among the nodes of a component. */
  ghost function LinksIn(component: set<TaskId>, links: set<Edge>): set<Edge> {
    set e | e in links && e.0 in component
  }

  /**
   * A search visits nothing twice if and only if the component of its start is a tree: it has one
   * node more than links. In a forest every component is one.
   */
  lemma VisitedOnceIffTree(start: set<Edge>, now: set<Edge>, node: TaskId, nodes: seq<TaskId>, component: set<TaskId>)
    requires Found(start, now, node, nodes) && IsComponent(component, node, start)
    ensures Set(nodes) == component
    ensures NoDuplicates(nodes) <==> |component| == 1 + |LinksIn(component, start)|
    ensures Forest(start) ==> NoDuplicates(nodes)
  {
    FoundIsComponent(start, now, node, nodes);
    ComponentIsUnique(Set(nodes), component, node, start);
    DistinctIffCount(nodes);
    assert LinksIn(component, start) == start - now;
    assert |start| == |now| + |start - now| by {
      assert start == now + (start - now);
    }
    if Forest(start) {
      assert nodes[0] in Set(nodes);
      ForestHasFewLinks(start - now, Set(nodes));
    }
  }

  /** Four tasks in a diamond: the first forwards to two that forward to the last. */
  ghost function Diamond(a: TaskId, b: TaskId, c: TaskId, d: TaskId): set<Edge> {
    {(a, b), (a, c), (b, d), (c, d)}
  }

  ghost predicate AllDifferent(a: TaskId, b: TaskId, c: TaskId, d: TaskId) {
    a != b && a != c && a != d && b != c && b != d && c != d
  }

  lemma DiamondIsComponent(a: TaskId, b: TaskId, c: TaskId, d: TaskId)
    ensures IsComponent({a, b, c, d}, a, Diamond(a, b, c, d))
  {
    var links := Diamond(a, b, c, d);
    forall s | Closed(s, links) && a in s ensures {a, b, c, d} <= s {
      assert (a, b) in links && (a, c) in links && (b, d) in links;
    }
  }

  lemma DiamondSize(a: TaskId, b: TaskId, c: TaskId, d: TaskId)
    requires AllDifferent(a, b, c, d)
    ensures |{a, b, c, d}| == 4 && |Diamond(a, b, c, d)| == 4
  {
    assert |{a, b}| == 2 && {a, b, c} == {a, b} + {c} && {a, b, c, d} == {a, b, c} + {d};
    var three := {(a, b), (a, c), (b, d)};
    assert |{(a, b), (a, c)}| == 2 && three == {(a, b), (a, c)} + {(b, d)};
    assert Diamond(a, b, c, d) == three + {(c, d)};
  }

  /** Where a task has two memory children a search can visit a task twice: in a diamond it does. */
  lemma DiamondIsVisitedTwice(a: TaskId, b: TaskId, c: TaskId, d: TaskId, now: set<Edge>, nodes: seq<TaskId>)
    requires AllDifferent(a, b, c, d) && Found(Diamond(a, b, c, d), now, a, nodes)
    ensures !NoDuplicates(nodes)
  {
    DiamondIsComponent(a, b, c, d);
    DiamondSize(a, b, c, d);
    VisitedOnceIffTree(Diamond(a, b, c, d), now, a, nodes, {a, b, c, d});
    assert LinksIn({a, b, c, d}, Diamond(a, b, c, d)) == Diamond(a, b, c, d);
  }

  // ----- chains

  type Chain = seq<TaskId>

  /** A chain is a component of the memory edges, with every task once when they form a forest. */
  ghost predicate IsChain(chain: Chain, links: set<Edge>) {
    && chain != [] && IsComponent(Set(chain), chain[0], links)
    && (Forest(links) ==> NoDuplicates(chain))
  }

  ghost predicate Disjoint(chains: seq<Chain>) {
    forall a, b | 0 <= a < b < |chains| :: Set(chains[a]) !! Set(chains[b])
  }

  /** The chains hold exactly the given tasks. */
  ghost predicate Hold(chains: seq<Chain>, tasks: set<TaskId>) {
    && (forall a | 0 <= a < |chains| :: Set(chains[a]) <= tasks)
    && (forall t | t in tasks :: exists a :: 0 <= a < |chains| && t in chains[a])
  }

  ghost predicate AreChains(chains: seq<Chain>, links: set<Edge>) {
    forall a {:trigger IsChain(chains[a], links)} | 0 <= a < |chains| :: IsChain(chains[a], links)
  }

  /** Disjoint chains that hold exactly the given tasks. */
  ghost predicate Parts(chains: seq<Chain>, links: set<Edge>, tasks: set<TaskId>) {
    AreChains(chains, links) && Disjoint(chains) && Hold(chains, tasks)
  }

  lemma HoldSnoc(chains: seq<Chain>, tasks: set<TaskId>, chain: Chain)
    requires Hold(chains, tasks)
    ensures Hold(chains + [chain], tasks + Set(chain))
  {
    var longer := chains + [chain];
    forall t | t in tasks + Set(chain) ensures exists a :: 0 <= a < |longer| && t in longer[a] {
      if t in tasks {
        var a :| 0 <= a < |chains| && t in chains[a];
        assert t in longer[a];
      } else {
        assert t in longer[|chains|];
      }
    }
  }

  lemma DisjointSnoc(chains: seq<Chain>, tasks: set<TaskId>, chain: Chain)
    requires Disjoint(chains) && Set(chain) !! tasks && forall a | 0 <= a < |chains| :: Set(chains[a]) <= tasks
    ensures Disjoint(chains + [chain])
  {
  }

  lemma PartsSnoc(chains: seq<Chain>, links: set<Edge>, tasks: set<TaskId>, chain: Chain)
    requires Parts(chains, links, tasks) && IsChain(chain, links) && Set(chain) !! tasks
    ensures Parts(chains + [chain], links, tasks + Set(chain))
  {
    var longer := chains + [chain];
    forall a | 0 <= a < |longer| ensures IsChain(longer[a], links) {
      assert a < |chains| ==> IsChain(chains[a], links);
    }
    HoldSnoc(chains, tasks, chain);
    DisjointSnoc(chains, tasks, chain);
  }

  function Ends(edges: set<Edge>): set<TaskId> {
    (set e | e in edges :: e.0) + (set e | e in edges :: e.1)
  }

  lemma EndsExact(edges: set<Edge>)
    ensures forall e | e in edges :: e.0 in Ends(edges) && e.1 in Ends(edges)
    ensures Closed(Ends(edges), edges)
  {
  }

  lemma LoneTaskIsChain(t: TaskId, links: set<Edge>)
    requires t !in Ends(links)
    ensures IsChain([t], links) && Set([t]) == {t}
  {
    EndsExact(links);
    assert Set([t]) == {t};
  }

  /** A chain of its own for each of the tasks. */
  method LoneChains(chains: seq<Chain>, ghost links: set<Edge>, ghost done: set<TaskId>, lone: set<TaskId>) returns (r: seq<Chain>)
    requires Parts(chains, links, done) && lone !! done && lone !! Ends(links)
    ensures Parts(r, links, done + lone)
  {
    r := chains;
    var todo := lone;
    while todo != {}
      invariant todo <= lone && Parts(r, links, done + (lone - todo))
    {
      var t :| t in todo;
      LoneTaskIsChain(t, links);
      PartsSnoc(r, links, done + (lone - todo), [t]);
      assert done + (lone - todo) + Set([t]) == done + (lone - (todo - {t}));
      r := r + [[t]];
      todo := todo - {t};
    }
    assert lone - todo == lone;
  }

  /** A search among the tasks not chained yet stays among them. */
  lemma NextChain(links: set<Edge>, now: set<Edge>, node: TaskId, nodes: seq<TaskId>, done: set<TaskId>, forward: set<TaskId>)
    requires Found(links, now, node, nodes) && node in forward
    requires done + forward == Ends(links) && done !! forward && Closed(done, links)
    ensures IsChain(nodes, links) && node in Set(nodes) && Set(nodes) <= forward && Closed(done + Set(nodes), links)
  {
    FoundIsComponent(links, now, node, nodes);
    VisitedOnceIffTree(links, now, node, nodes, Set(nodes));
    EndsExact(links);
    assert Closed(forward, links);
  }

  /** One search, on a copy of the graph, for each component. */
  method ForwardChains(edges: TaskEdges) returns (chains: seq<Chain>)
    ensures Parts(chains, Links(edges), Ends(Links(edges)))
  {
    ghost var links := Links(edges);
    var forward := Ends(Links(edges));
    ghost var done: set<TaskId> := {};
    chains := [];
    EndsExact(links);
    while forward != {}
      invariant done + forward == Ends(links) && done !! forward && Closed(done, links)
      invariant Parts(chains, links, done)
      decreases forward
    {
      var node :| node in forward;
      var dag := new Dag(edges);
      var nodes := dag.Search(node);
      NextChain(links, Links(dag.edges), node, nodes, done, forward);
      PartsSnoc(chains, links, done, nodes);
      chains := chains + [nodes];
      done := done + Set(nodes);
      forward := set x | x in forward && x !in nodes;
    }
    assert done == Ends(links);
  }

  /** The tasks that get a chain: all if there are no edges, else those with an edge. */
  function ChainedTasks(tasks: seq<TaskId>, edges: TaskEdges): set<TaskId> {
    if edges == map[] then set t | t in tasks else Ends(edges.Keys)
  }

  /** Chains are the components of the memory edges, and hold every task that gets one. */
  method MergeForwardTask(tasks: seq<TaskId>, edges: TaskEdges) returns (chains: seq<Chain>)
    ensures Parts(chains, Links(edges), ChainedTasks(tasks, edges))
  {
    if edges == map[] {
      assert Ends(Links(edges)) == {};
      chains := LoneChains([], Links(edges), {}, set t | t in tasks);
      assert {} + (set t | t in tasks) == ChainedTasks(tasks, edges);
    } else {
      chains := ForwardChains(edges);
      var lone := set t | t in Ends(edges.Keys) && t !in Ends(Links(edges));
      chains := LoneChains(chains, Links(edges), Ends(Links(edges)), lone);
      assert Ends(Links(edges)) + lone == Ends(edges.Keys);
    }
  }
}
