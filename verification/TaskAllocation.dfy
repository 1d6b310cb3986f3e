/**
 * Spreading the chains over the workers: `build` and `alloc_by_instance` of
 * `rlink/src/dag/physic_graph.rs`.
 */
module TaskAllocation {
  import opened Prelude
  import opened Tasks
  import opened ExecutionGraph
  import opened PhysicGraph

  /** The smallest job id among the tasks of a chain. */
  function FirstJob(chain: Chain): nat
    requires chain != []
  {
    var rest := chain[1..];
    if rest == [] || chain[0].jobId <= FirstJob(rest) then chain[0].jobId else FirstJob(rest)
  }

  lemma {:induction false} FirstJobIsLeast(chain: Chain)
    requires chain != []
    ensures (exists t :: t in chain && t.jobId == FirstJob(chain)) && forall t | t in chain :: FirstJob(chain) <= t.jobId
  {
    assert chain == [chain[0]] + chain[1..] && chain[0] in chain;
    if |chain| > 1 {
      FirstJobIsLeast(chain[1..]);
    }
  }

  predicate NonEmpty(chains: seq<Chain>) {
    forall a | 0 <= a < |chains| :: chains[a] != []
  }

  /** The chains of group `j` among the first `n`. */
  function OfGroup(chains: seq<Chain>, n: nat, j: nat): seq<Chain>
    requires n <= |chains| && NonEmpty(chains)
  {
    if n == 0 then [] else OfGroup(chains, n - 1, j) + (if FirstJob(chains[n - 1]) == j then [chains[n - 1]] else [])
  }

  type Groups = map<nat, seq<Chain>>

  function GroupOf(groups: Groups, j: nat): seq<Chain> {
    if j in groups then groups[j] else []
  }

  ghost predicate GroupedAt(groups: Groups, chains: seq<Chain>, n: nat, j: nat)
    requires n <= |chains| && NonEmpty(chains)
  {
    GroupOf(groups, j) == OfGroup(chains, n, j)
  }

  ghost predicate Grouped(groups: Groups, chains: seq<Chain>)
    requires NonEmpty(chains)
  {
    forall j: nat :: GroupedAt(groups, chains, |chains|, j)
  }

  /** The chains of one worker among the first `k`, run together: every `n`th chain. */
  function Placed(order: seq<Chain>, k: nat, n: nat, w: nat): seq<TaskId>
    requires k <= |order| && n > 0
  {
    if k == 0 then [] else Placed(order, k - 1, n, w) + (if (k - 1) % n == w then order[k - 1] else [])
  }

  ghost predicate PlacedOn(workers: seq<seq<TaskId>>, order: seq<Chain>)
    requires workers != []
  {
    forall w | 0 <= w < |workers| :: workers[w] == Placed(order, |order|, |workers|, w)
  }

  /** How many chains that is. */
  function ChainCount(k: nat, n: nat, w: nat): nat
    requires n > 0
  {
    if k == 0 then 0 else ChainCount(k - 1, n, w) + (if (k - 1) % n == w then 1 else 0)
  }

  predicate ProperGroup(list: seq<Chain>, j: nat) {
    forall a | 0 <= a < |list| :: list[a] != [] && FirstJob(list[a]) == j
  }

  lemma {:induction false} OfGroupExact(chains: seq<Chain>, n: nat, j: nat)
    requires n <= |chains| && NonEmpty(chains)
    ensures forall c :: c in OfGroup(chains, n, j) <==> c in chains[..n] && c != [] && FirstJob(c) == j
    ensures NonEmpty(OfGroup(chains, n, j))
  {
    if n > 0 {
      OfGroupExact(chains, n - 1, j);
      assert chains[..n] == chains[..n - 1] + [chains[n - 1]];
    }
  }

  lemma {:induction false} OfGroupConcat(order: seq<Chain>, list: seq<Chain>, n: nat, i: nat, j: nat)
    requires NonEmpty(order) && ProperGroup(list, i) && n <= |list|
    ensures OfGroup(order + list, |order| + n, j) == OfGroup(order, |order|, j) + (if i == j then list[..n] else [])
  {
    var all := order + list;
    if n == 0 {
      OfGroupPrefix(order, all, |order|, j);
    } else {
      OfGroupConcat(order, list, n - 1, i, j);
      assert all[|order| + n - 1] == list[n - 1];
      assert list[..n] == list[..n - 1] + [list[n - 1]];
    }
  }

  lemma {:induction false} OfGroupPrefix(order: seq<Chain>, all: seq<Chain>, n: nat, j: nat)
    requires NonEmpty(all) && n <= |order| && order <= all
    ensures OfGroup(order, n, j) == OfGroup(all, n, j)
  {
    if n > 0 {
      OfGroupPrefix(order, all, n - 1, j);
    }
  }

  lemma {:induction false} PlacedPrefix(order: seq<Chain>, all: seq<Chain>, k: nat, n: nat, w: nat)
    requires k <= |order| && order <= all && n > 0
    ensures Placed(order, k, n, w) == Placed(all, k, n, w)
  {
    if k > 0 {
      PlacedPrefix(order, all, k - 1, n, w);
    }
  }

  class PhysicalGraph {
    var groups: Groups

    constructor ()
      ensures groups == map[]
    {
      groups := map[];
    }

    method Build(chains: seq<Chain>)
      requires groups == map[] && NonEmpty(chains)
      modifies this
      ensures Grouped(groups, chains)
    {
      for i := 0 to |chains|
        invariant forall j: nat :: GroupedAt(groups, chains, i, j)
      {
        var first, n := FirstJob(chains[i]), i + 1;
        ghost var before := groups;
        assert GroupedAt(groups, chains, i, first);
        groups := groups[first := GroupOf(groups, first) + [chains[i]]];
        forall j: nat ensures GroupedAt(groups, chains, n, j) {
          assert GroupedAt(before, chains, i, j);
        }
      }
    }

    /** One chain after the other goes to the next worker. */
    method AddGroup(list: seq<Chain>, before: seq<seq<TaskId>>, ghost order: seq<Chain>, count: nat)
      returns (workers: seq<seq<TaskId>>)
      requires before != [] && count == |order| && PlacedOn(before, order)
      ensures |workers| == |before| && PlacedOn(workers, order + list)
    {
      workers := before;
      ghost var all := order + list;
      forall w | 0 <= w < |before| ensures Placed(order, |order|, |before|, w) == Placed(all, |order|, |before|, w) {
        PlacedPrefix(order, all, |order|, |before|, w);
      }
      for k := 0 to |list|
        invariant |workers| == |before|
        invariant forall w | 0 <= w < |before| :: workers[w] == Placed(all, count + k, |before|, w)
      {
        var index := (count + k) % |workers|;
        assert all[count + k] == list[k];
        workers := workers[index := workers[index] + list[k]];
      }
    }

    /** Groups in any order; `order` is the order the chains were dealt in. */
    method AllocByInstance(n: nat) returns (workers: seq<seq<TaskId>>, ghost order: seq<Chain>)
      requires n > 0
      requires ProperGroups(groups)
      ensures |workers| == n && PlacedOn(workers, order)
      ensures NonEmpty(order) && Grouped(groups, order)
    {
      workers := seq(n, _ => []);
      order := [];
      var i, todo := 0, groups.Keys;
      while todo != {}
        invariant todo <= groups.Keys && |workers| == n && i == |order| && NonEmpty(order)
        invariant PlacedOn(workers, order)
        invariant Dealt(groups, todo, order)
      {
        var j :| j in todo;
        var list := groups[j];
        workers := AddGroup(list, workers, order, i);
        DealGroup(groups, todo, order, j);
        order := order + list;
        i := i + |list|;
        todo := todo - {j};
      }
      forall j: nat ensures GroupedAt(groups, order, |order|, j) {
        assert DealtAt(groups, todo, order, j);
      }
    }
  }

  /** Every chain is in the group of its first job. */
  ghost predicate ProperGroups(groups: Groups) {
    forall j | j in groups :: ProperGroup(groups[j], j)
  }

  ghost predicate DealtAt(groups: Groups, todo: set<nat>, order: seq<Chain>, j: nat)
    requires NonEmpty(order)
  {
    OfGroup(order, |order|, j) == if j in todo then [] else GroupOf(groups, j)
  }

  /** The groups that are not left to do have been dealt. */
  ghost predicate Dealt(groups: Groups, todo: set<nat>, order: seq<Chain>)
    requires NonEmpty(order)
  {
    forall j: nat :: DealtAt(groups, todo, order, j)
  }

  lemma DealGroupAt(groups: Groups, todo: set<nat>, order: seq<Chain>, j: nat, h: nat)
    requires j in todo && j in groups && ProperGroup(groups[j], j) && NonEmpty(order) && DealtAt(groups, todo, order, h)
    ensures NonEmpty(order + groups[j]) && DealtAt(groups, todo - {j}, order + groups[j], h)
  {
    var list := groups[j];
    OfGroupConcat(order, list, |list|, j, h);
    assert list[..|list|] == list;
  }

  lemma DealGroup(groups: Groups, todo: set<nat>, order: seq<Chain>, j: nat)
    requires ProperGroups(groups) && j in todo && j in groups && NonEmpty(order) && Dealt(groups, todo, order)
    ensures NonEmpty(order + groups[j]) && Dealt(groups, todo - {j}, order + groups[j])
  {
    var list, left := groups[j], todo - {j};
    assert ProperGroup(list, j);
    forall h: nat ensures DealtAt(groups, left, order + list, h) {
      assert DealtAt(groups, todo, order, h);
      DealGroupAt(groups, todo, order, j, h);
    }
  }

  // ----- the dealt chains are the built ones

  lemma BuiltGroupsAreProper(groups: Groups, chains: seq<Chain>)
    requires NonEmpty(chains) && Grouped(groups, chains)
    ensures ProperGroups(groups)
  {
    forall j | j in groups ensures ProperGroup(groups[j], j) {
      assert GroupedAt(groups, chains, |chains|, j);
      OfGroupExact(chains, |chains|, j);
      assert forall a | 0 <= a < |groups[j]| :: groups[j][a] in groups[j];
    }
  }

  lemma GroupedChains(groups: Groups, chains: seq<Chain>, c: Chain)
    requires NonEmpty(chains) && Grouped(groups, chains)
    ensures c in chains <==> c != [] && c in GroupOf(groups, FirstJob(c))
  {
    assert chains[..|chains|] == chains;
    assert forall a | 0 <= a < |chains| :: chains[a] in chains;
    if c != [] {
      assert GroupedAt(groups, chains, |chains|, FirstJob(c));
      OfGroupExact(chains, |chains|, FirstJob(c));
    }
  }

  /** A chain that occurs twice occurs twice in its group. */
  lemma {:induction false} GroupKeepsDistinct(chains: seq<Chain>, n: nat, j: nat)
    requires n <= |chains| && NonEmpty(chains)
    ensures NoDuplicates(chains) ==> NoDuplicates(OfGroup(chains, n, j))
  {
    if n > 0 {
      GroupKeepsDistinct(chains, n - 1, j);
      OfGroupExact(chains, n - 1, j);
      var front := OfGroup(chains, n - 1, j);
      assert forall k | 0 <= k < |front| :: front[k] in front;
    }
  }

  lemma {:induction false} GroupShowsTwice(chains: seq<Chain>, n: nat, a: nat, b: nat)
    requires a < b < n <= |chains| && NonEmpty(chains) && chains[a] == chains[b]
    ensures !NoDuplicates(OfGroup(chains, n, FirstJob(chains[b])))
  {
    var c, j := chains[b], FirstJob(chains[b]);
    if b < n - 1 {
      GroupShowsTwice(chains, n - 1, a, b);
      var front, group := OfGroup(chains, n - 1, j), OfGroup(chains, n, j);
      var x, y :| 0 <= x < y < |front| && front[x] == front[y];
      assert group[x] == group[y];
    } else {
      var front, group := OfGroup(chains, b, j), OfGroup(chains, n, j);
      OfGroupExact(chains, b, j);
      assert c == chains[..b][a] && c in front;
      var x :| 0 <= x < |front| && front[x] == c;
      assert group[x] == group[|front|];
    }
  }

  lemma DealtIsRearranged(groups: Groups, chains: seq<Chain>, order: seq<Chain>)
    requires NonEmpty(chains) && NonEmpty(order) && Grouped(groups, chains) && Grouped(groups, order) && NoDuplicates(chains)
    ensures NoDuplicates(order) && forall c :: c in order <==> c in chains
  {
    forall c ensures c in order <==> c in chains {
      GroupedChains(groups, chains, c);
      GroupedChains(groups, order, c);
    }
    forall a, b | 0 <= a < b < |order| ensures order[a] != order[b] {
      var j := FirstJob(order[b]);
      assert GroupedAt(groups, chains, |chains|, j) && GroupedAt(groups, order, |order|, j);
      GroupKeepsDistinct(chains, |chains|, j);
      if order[a] == order[b] {
        GroupShowsTwice(order, |order|, a, b);
        assert false;
      }
    }
  }

  lemma PartsAreDistinct(chains: seq<Chain>, links: set<PhysicGraph.Edge>, tasks: set<TaskId>)
    requires Parts(chains, links, tasks)
    ensures NonEmpty(chains) && NoDuplicates(chains)
  {
    forall a | 0 <= a < |chains| ensures chains[a] != [] && chains[a][0] in Set(chains[a]) {
      assert IsChain(chains[a], links);
    }
  }

  lemma PartsRearranged(chains: seq<Chain>, order: seq<Chain>, links: set<PhysicGraph.Edge>, tasks: set<TaskId>)
    requires Parts(chains, links, tasks) && NoDuplicates(order) && forall c :: c in order <==> c in chains
    ensures Parts(order, links, tasks)
  {
    forall a | 0 <= a < |order| ensures IsChain(order[a], links) && Set(order[a]) <= tasks {
      assert order[a] in order;
      var k :| 0 <= k < |chains| && chains[k] == order[a];
      assert IsChain(chains[k], links);
    }
    forall a, b | 0 <= a < b < |order| ensures Set(order[a]) !! Set(order[b]) {
      assert order[a] in order && order[b] in order;
      var k :| 0 <= k < |chains| && chains[k] == order[a];
      var l :| 0 <= l < |chains| && chains[l] == order[b];
      assert k < l || l < k;
    }
    forall t | t in tasks ensures exists a :: 0 <= a < |order| && t in order[a] {
      var k :| 0 <= k < |chains| && t in chains[k];
      assert chains[k] in order;
    }
  }

  // ----- where a task ends up

  lemma {:induction false} PlacedExact(order: seq<Chain>, k: nat, n: nat, w: nat, t: TaskId)
    requires k <= |order| && n > 0
    ensures t in Placed(order, k, n, w) <==> exists i :: 0 <= i < k && i % n == w && t in order[i]
  {
    if k > 0 {
      PlacedExact(order, k - 1, n, w, t);
      if (k - 1) % n == w && t in order[k - 1] {
        assert exists i :: 0 <= i < k && i % n == w && t in order[i];
      }
    }
  }

  lemma PlacedApart(order: seq<Chain>, k: nat, n: nat, w: nat, t: TaskId)
    requires 0 < k <= |order| && n > 0 && t in order[k - 1]
    requires forall a, b | 0 <= a < b < |order| :: Set(order[a]) !! Set(order[b])
    ensures t !in Placed(order, k - 1, n, w)
  {
    PlacedExact(order, k - 1, n, w, t);
    forall i | 0 <= i < k - 1 ensures t !in order[i] {
      assert t in Set(order[k - 1]);
      assert t !in Set(order[i]);
    }
  }

  lemma DistinctConcat<T>(a: seq<T>, b: seq<T>)
    requires NoDuplicates(a) && NoDuplicates(b) && forall x | x in b :: x !in a
    ensures NoDuplicates(a + b)
  {
    assert forall k | 0 <= k < |b| :: b[k] in b;
  }

  lemma {:induction false} PlacedDistinct(order: seq<Chain>, k: nat, n: nat, w: nat)
    requires forall a, b | 0 <= a < b < |order| :: Set(order[a]) !! Set(order[b])
    requires forall a | 0 <= a < |order| :: NoDuplicates(order[a])
    requires k <= |order| && n > 0
    ensures NoDuplicates(Placed(order, k, n, w))
  {
    if k > 0 {
      var front, chain := Placed(order, k - 1, n, w), order[k - 1];
      PlacedDistinct(order, k - 1, n, w);
      forall t | t in chain ensures t !in front {
        PlacedApart(order, k, n, w, t);
      }
      DistinctConcat(front, chain);
    }
  }

  /** A task is on one worker only, the one its chain was dealt to. */
  lemma PlacedOnce(workers: seq<seq<TaskId>>, order: seq<Chain>, links: set<PhysicGraph.Edge>, tasks: set<TaskId>, i: nat, t: TaskId, w: nat)
    requires workers != [] && PlacedOn(workers, order) && Parts(order, links, tasks)
    requires i < |order| && t in order[i] && w < |workers|
    ensures t in workers[w] <==> w == i % |workers|
  {
    PlacedExact(order, |order|, |workers|, w, t);
    forall h | 0 <= h < |order| && t in order[h] ensures h == i {
      assert t in Set(order[h]) && t in Set(order[i]);
    }
  }

  /** Both ends of a memory edge are on the same worker. */
  lemma LinkedOnSameWorker(workers: seq<seq<TaskId>>, order: seq<Chain>, links: set<PhysicGraph.Edge>, tasks: set<TaskId>, e: PhysicGraph.Edge, w: nat)
    requires workers != [] && PlacedOn(workers, order) && Parts(order, links, tasks) && e in links && w < |workers|
    ensures e.0 in workers[w] <==> e.1 in workers[w]
  {
    PlacedExact(order, |order|, |workers|, w, e.0);
    PlacedExact(order, |order|, |workers|, w, e.1);
    forall i | 0 <= i < |order| ensures e.0 in order[i] <==> e.1 in order[i] {
      assert IsChain(order[i], links);
      assert e.0 in Set(order[i]) <==> e.1 in Set(order[i]);
    }
  }

  // ----- balance

  lemma DivStep(k: nat, n: nat)
    requires n > 0
    ensures if k % n == n - 1 then (k + 1) % n == 0 && (k + 1) / n == k / n + 1
            else (k + 1) % n == k % n + 1 && (k + 1) / n == k / n
  {
    var q, r := k / n, k % n;
    assert k == q * n + r;
    if r == n - 1 {
      DivUnique(k + 1, n, q + 1, 0);
    } else {
      DivUnique(k + 1, n, q, r + 1);
    }
  }

  lemma {:induction false} MulGrows(p: nat, q: nat, n: nat)
    requires p < q
    ensures p * n + n <= q * n
  {
    if p + 1 < q {
      MulGrows(p, q - 1, n);
    }
    assert (q - 1) * n + n == q * n;
  }

  lemma DivUnique(k: nat, n: nat, q: nat, r: nat)
    requires n > 0 && r < n && k == q * n + r
    ensures k / n == q && k % n == r
  {
    var p := k / n;
    assert k == p * n + k % n;
    if p < q {
      MulGrows(p, q, n);
    } else if q < p {
      MulGrows(q, p, n);
    }
  }

  lemma {:induction false} ChainCountIs(k: nat, n: nat, w: nat)
    requires n > 0 && w < n
    ensures ChainCount(k, n, w) == k / n + (if w < k % n then 1 else 0)
  {
    if k > 0 {
      ChainCountIs(k - 1, n, w);
      DivStep(k - 1, n);
    } else {
      DivUnique(0, n, 0, 0);
    }
  }

  /** The numbers of chains of two workers differ by at most one. */
  lemma Balanced(k: nat, n: nat, w: nat, v: nat)
    requires n > 0 && w < n && v < n
    ensures ChainCount(k, n, w) <= ChainCount(k, n, v) + 1
  {
    ChainCountIs(k, n, w);
    ChainCountIs(k, n, v);
  }

  /**
   * From the execution graph to the workers. Exactly the chained tasks are placed, each on one
   * worker and, when every task has at most one memory child, once; both ends of a memory edge
   * are on the same worker; and the chains are dealt evenly.
   */
  method Allocate(tasks: seq<TaskId>, edges: TaskEdges, n: nat) returns (workers: seq<seq<TaskId>>, ghost order: seq<Chain>)
    requires n > 0
    ensures |workers| == n && PlacedOn(workers, order) && Parts(order, Links(edges), ChainedTasks(tasks, edges))
    ensures forall w, t | 0 <= w < n && t in workers[w] :: t in ChainedTasks(tasks, edges)
    ensures forall t | t in ChainedTasks(tasks, edges) :: exists w :: 0 <= w < n && OnlyOn(workers, t, w)
    ensures Forest(Links(edges)) ==> forall w | 0 <= w < n :: NoDuplicates(workers[w])
    ensures forall e, w | e in Links(edges) && 0 <= w < n :: e.0 in workers[w] <==> e.1 in workers[w]
    ensures forall w, v | 0 <= w < n && 0 <= v < n :: ChainCount(|order|, n, w) <= ChainCount(|order|, n, v) + 1
  {
    ghost var links, all := Links(edges), ChainedTasks(tasks, edges);
    var chains := MergeForwardTask(tasks, edges);
    PartsAreDistinct(chains, links, all);
    var graph := new PhysicalGraph();
    graph.Build(chains);
    BuiltGroupsAreProper(graph.groups, chains);
    workers, order := graph.AllocByInstance(n);
    DealtIsRearranged(graph.groups, chains, order);
    PartsRearranged(chains, order, links, all);
    PlacementIsSound(workers, order, links, all);
  }

  ghost predicate OnlyOn(workers: seq<seq<TaskId>>, t: TaskId, w: nat) {
    forall v | 0 <= v < |workers| :: t in workers[v] <==> v == w
  }

  lemma PlacementIsSound(workers: seq<seq<TaskId>>, order: seq<Chain>, links: set<PhysicGraph.Edge>, all: set<TaskId>)
    requires workers != [] && PlacedOn(workers, order) && Parts(order, links, all)
    ensures forall w, t | 0 <= w < |workers| && t in workers[w] :: t in all
    ensures forall t | t in all :: exists w :: 0 <= w < |workers| && OnlyOn(workers, t, w)
    ensures Forest(links) ==> forall w | 0 <= w < |workers| :: NoDuplicates(workers[w])
    ensures forall e, w | e in links && 0 <= w < |workers| :: e.0 in workers[w] <==> e.1 in workers[w]
    ensures forall w, v | 0 <= w < |workers| && 0 <= v < |workers| ::
      ChainCount(|order|, |workers|, w) <= ChainCount(|order|, |workers|, v) + 1
  {
    var n := |workers|;
    forall w, t | 0 <= w < n && t in workers[w] ensures t in all {
      PlacedExact(order, |order|, n, w, t);
      var i :| 0 <= i < |order| && i % n == w && t in order[i];
      assert t in Set(order[i]);
    }
    forall t | t in all ensures exists w :: 0 <= w < n && OnlyOn(workers, t, w) {
      var i :| 0 <= i < |order| && t in order[i];
      forall v | 0 <= v < n ensures t in workers[v] <==> v == i % n {
        PlacedOnce(workers, order, links, all, i, t, v);
      }
      assert OnlyOn(workers, t, i % n);
    }
    if Forest(links) {
      forall a | 0 <= a < |order| ensures NoDuplicates(order[a]) {
        assert IsChain(order[a], links);
      }
      forall w | 0 <= w < n ensures NoDuplicates(workers[w]) {
        PlacedDistinct(order, |order|, n, w);
      }
    }
    forall e, w | e in links && 0 <= w < n ensures e.0 in workers[w] <==> e.1 in workers[w] {
      LinkedOnSameWorker(workers, order, links, all, e, w);
    }
    forall w, v | 0 <= w < n && 0 <= v < n ensures ChainCount(|order|, n, w) <= ChainCount(|order|, n, v) + 1 {
      Balanced(|order|, n, w, v);
    }
  }
}
