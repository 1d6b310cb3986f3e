/**
 * The graph library's cycle check, and why graphs whose edges all climb never fail it.
 */
module Dags {
  ghost predicate IsPath<T>(edges: set<(T, T)>, path: seq<T>) {
    path != [] && forall k | 0 < k < |path| :: (path[k - 1], path[k]) in edges
  }

  /** What the library's `add_edge` refuses: an edge whose end already leads to its start. */
  ghost predicate WouldCycle<T(!new)>(edges: set<(T, T)>, e: (T, T)) {
    exists path :: IsPath(edges, path) && path[0] == e.1 && path[|path| - 1] == e.0
  }

  ghost predicate Climbs<T>(edges: set<(T, T)>, rank: T -> nat) {
    forall e | e in edges :: rank(e.0) < rank(e.1)
  }

  lemma {:induction false} PathClimbs<T>(edges: set<(T, T)>, rank: T -> nat, path: seq<T>)
    requires Climbs(edges, rank) && IsPath(edges, path)
    ensures rank(path[0]) <= rank(path[|path| - 1])
  {
    var n := |path| - 1;
    if n > 0 {
      PathClimbs(edges, rank, path[..n]);
      assert (path[n - 1], path[n]) in edges;
    }
  }

  lemma ClimbingNeverCycles<T(!new)>(edges: set<(T, T)>, rank: T -> nat, e: (T, T))
    requires Climbs(edges, rank) && rank(e.0) < rank(e.1)
    ensures !WouldCycle(edges, e)
  {
    forall path | IsPath(edges, path) && path[0] == e.1 ensures path[|path| - 1] != e.0 {
      PathClimbs(edges, rank, path);
    }
  }
}
