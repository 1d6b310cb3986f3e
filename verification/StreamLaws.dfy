/**
 * What a program's calls put where in the stream graph, stated on the graph before and after a call:
 * `add_operator` of `rlink/src/dag/stream_graph.rs`.
 */
module StreamLaws {
  import opened Prelude
  import opened StreamGraph
  import opened JobGraph

  /** Parent and operator that may share a pipeline. */
  const PIPELINE: set<(Kind, Kind)> :=
    {(Source, FlatMap), (Source, Filter), (Source, WatermarkAssigner), (Source, KeyBy), (Source, Sink),
     (FlatMap, FlatMap), (FlatMap, Filter), (FlatMap, WatermarkAssigner), (FlatMap, KeyBy), (FlatMap, Sink),
     (Filter, FlatMap), (Filter, Filter), (Filter, WatermarkAssigner), (Filter, KeyBy), (Filter, Sink),
     (WatermarkAssigner, FlatMap), (WatermarkAssigner, Filter), (WatermarkAssigner, WatermarkAssigner),
     (WatermarkAssigner, KeyBy), (WatermarkAssigner, Sink),
     (CoProcess, KeyBy), (WindowAssigner, Reduce)}

  /** A reduce always joins its window assigner, anything else only at the same or an open parallelism. */
  predicate SharesPipeline(parent: StreamNode, call: Call) {
    && (parent.kind, call.kind) in PIPELINE
    && (call.kind == Reduce || call.parallelism == parent.parallelism || call.parallelism == DEFAULT_PARALLELISM)
  }

  /** A call is accepted for a first source, below one operator that is no sink, and for a connect. */
  predicate Accepts(g: Graph, call: Call)
    requires Legal(g, call)
  {
    if call.parents == [] then call.kind == Source
    else if |call.parents| == 1 then g[call.parents[0]].kind != Sink && call.kind != Source
    else call.kind == CoProcess
  }

  lemma PipelineIsTable(parent: StreamNode, call: Call)
    requires parent.kind != Sink && call.kind != Source
    ensures IsPipeline(call.kind, call.parallelism, parent.kind, parent.parallelism) == Ok(SharesPipeline(parent, call))
  {
  }

  lemma BuiltSnoc(calls: seq<Call>, call: Call)
    requires LegalProgram(calls + [call])
    ensures var g, h := Built(calls), Built(calls + [call]);
      var added := Added(g, call.kind, call.parallelism, call.parents);
      && LegalProgram(calls) && Legal(g, call) && Good(g) && Good(h)
      && h == (if added.Ok? then added.value else g)
  {
    assert (calls + [call])[..|calls|] == calls;
    EveryProgramIsGood(calls);
    EveryProgramIsGood(calls + [call]);
  }

  // ----- every call

  /** The new graph keeps the old one and ends with the operator asked for. */
  ghost predicate Extends(g: Graph, h: Graph, kind: Kind) {
    |h| > |g| && h[..|g|] == g && h[|h| - 1].kind == kind
  }

  lemma AddedExtends(g: Graph, call: Call)
    requires Legal(g, call)
    ensures var added := Added(g, call.kind, call.parallelism, call.parents);
      (added.Ok? <==> Accepts(g, call)) && (added.Ok? ==> Extends(g, added.value, call.kind))
  {
    if |call.parents| == 1 {
      var p := call.parents[0];
      if g[p].kind != Sink && call.kind != Source {
        PipelineIsTable(g[p], call);
      }
    }
  }

  /** A refused call changes nothing; an accepted one keeps what is there and adds the operator last. */
  lemma CallAddsItsOperator(calls: seq<Call>, call: Call)
    requires LegalProgram(calls + [call])
    ensures var g, h := Built(calls), Built(calls + [call]);
      && Legal(g, call)
      && (Accepts(g, call) ==> Extends(g, h, call.kind))
      && (!Accepts(g, call) ==> h == g)
  {
    BuiltSnoc(calls, call);
    AddedExtends(Built(calls), call);
  }

  // ----- one parent

  /** The operator is in its parent's job, with the greater of the two parallelisms, and nothing else is new. */
  ghost predicate Continues(g: Graph, h: Graph, p: nat, call: Call)
    requires Good(h) && p < |g| < |h|
  {
    var last := h[|h| - 1];
    && |h| == |g| + 1 && last.parents == [p] && Root(h, |h| - 1) == Root(h, p)
    && last.parallelism >= call.parallelism && last.parallelism >= g[p].parallelism
    && (last.parallelism == call.parallelism || last.parallelism == g[p].parallelism)
  }

  /**
   * The operator is in a job of its own parallelism, whose source reads from a sink below the
   * parent, of the parent's parallelism; below a reduce a flat map comes first.
   */
  ghost predicate SplitsOff(g: Graph, h: Graph, p: nat, call: Call)
    requires Good(h) && p < |g| < |h|
  {
    var n, last := |g|, |h| - 1;
    && |h| == n + (if g[p].kind == Reduce then 4 else 3)
    && Root(h, last) == n + 1 != Root(h, p)
    && h[n] == StreamNode(Sink, g[p].parallelism, [p])
    && h[n + 1].parents == [n] && h[n + 1].parallelism == call.parallelism == h[last].parallelism
    && (g[p].kind == Reduce ==> h[n + 2] == StreamNode(FlatMap, call.parallelism, [n + 1]))
    && h[last].parents == [last - 1]
  }

  lemma RootOfNew(h: Graph, i: nat, p: nat)
    requires Good(h) && i < |h| && h[i].kind != Source && h[i].parents == [p]
    ensures p < |h| && Root(h, i) == Root(h, p)
  {
    assert NodeShaped(h, i);
  }

  lemma SplitIsSplitsOff(g: Graph, p: nat, call: Call)
    requires Good(g) && p < |g| && call.kind != Source
    requires Good(Split(g, call.kind, call.parallelism, p))
    ensures SplitsOff(g, Split(g, call.kind, call.parallelism, p), p, call)
  {
    var h := Split(g, call.kind, call.parallelism, p);
    var n, last: nat := |g|, |h| - 1;
    assert h[..n] == g;
    RootOfNew(h, last, last - 1);
    if g[p].kind == Reduce {
      RootOfNew(h, n + 2, n + 1);
    }
  }

  lemma AddedJoinsIff(g: Graph, call: Call)
    requires Good(g) && Legal(g, call) && |call.parents| == 1 && Accepts(g, call)
    ensures var added, p := Added(g, call.kind, call.parallelism, call.parents), call.parents[0];
      && added.Ok? && Good(added.value) && |g| < |added.value|
      && (if SharesPipeline(g[p], call) then Continues(g, added.value, p, call) else SplitsOff(g, added.value, p, call))
  {
    var p := call.parents[0];
    PipelineIsTable(g[p], call);
    AddedKeepsGood(g, call);
    if SharesPipeline(g[p], call) {
      RootOfNew(Added(g, call.kind, call.parallelism, call.parents).value, |g|, p);
    } else {
      SplitIsSplitsOff(g, p, call);
    }
  }

  /** Below one parent: the operator shares its job exactly when the table allows it, and is split off otherwise. */
  lemma JoinsParentIff(calls: seq<Call>, call: Call)
    requires LegalProgram(calls + [call]) && |call.parents| == 1
    requires var g := Built(calls); Legal(g, call) && Accepts(g, call)
    ensures var g, h, p := Built(calls), Built(calls + [call]), call.parents[0];
      && Good(h) && p < |g| < |h|
      && (Root(h, |h| - 1) == Root(h, p) <==> SharesPipeline(g[p], call))
      && (if SharesPipeline(g[p], call) then Continues(g, h, p, call) else SplitsOff(g, h, p, call))
  {
    BuiltSnoc(calls, call);
    AddedJoinsIff(Built(calls), call);
  }

  // ----- a connect

  /** The sink below a parent of a connect. */
  predicate HasSink(g: Graph, h: Graph, p: nat, s: nat)
    requires p < |g|
  {
    s < |h| && h[s] == StreamNode(Sink, g[p].parallelism, [p])
  }

  /** Between a reduce and a connect: a job of its own, of the given parallelism, that takes the parked state out. */
  predicate HasRelay(h: Graph, sink: nat, relay: nat, left: nat) {
    && 2 <= relay < |h| && h[relay] == StreamNode(Sink, left, [relay - 1])
    && h[relay - 1] == StreamNode(FlatMap, left, [relay - 2])
    && h[relay - 2] == StreamNode(Source, left, [sink])
  }

  predicate LastReduce(g: Graph, parents: seq<nat>, k: nat)
    requires NoSinks(g, parents) && k < |parents|
  {
    g[parents[k]].kind == Reduce && forall j | k < j < |parents| :: g[parents[j]].kind != Reduce
  }

  predicate HasReduce(g: Graph, parents: seq<nat>)
    requires NoSinks(g, parents)
  {
    exists k | 0 <= k < |parents| :: g[parents[k]].kind == Reduce
  }

  /** The source of a connect reads from a sink below every parent that is no reduce. */
  ghost predicate ReadsPlain(g: Graph, h: Graph, parents: seq<nat>, inputs: seq<nat>)
    requires NoSinks(g, parents)
  {
    forall k | 0 <= k < |parents| && g[parents[k]].kind != Reduce :: HasSink(g, h, parents[k], |g| + k) && |g| + k in inputs
  }

  /** It reads last, if there is a reduce, from the relay of the last one. */
  ghost predicate ReadsRelay(g: Graph, h: Graph, parents: seq<nat>, inputs: seq<nat>)
    requires NoSinks(g, parents)
  {
    forall k | 0 <= k < |parents| && LastReduce(g, parents, k) ::
      && HasSink(g, h, parents[k], |g| + k) && inputs != []
      && HasRelay(h, |g| + k, inputs[|inputs| - 1], g[parents[|parents| - 1]].parallelism)
  }

  /** It reads from nothing else. */
  ghost predicate ReadsOnly(g: Graph, parents: seq<nat>, inputs: seq<nat>)
    requires NoSinks(g, parents)
  {
    forall i | 0 <= i < |inputs| && (i < |inputs| - 1 || !HasReduce(g, parents)) ::
      |g| <= inputs[i] < |g| + |parents| && g[parents[inputs[i] - |g|]].kind != Reduce
  }

  /** The sinks of the parents come first, in the order of the parents. */
  lemma {:induction false} SinkAt(g: Graph, parents: seq<nat>, k: nat)
    requires NoSinks(g, parents) && k < |parents|
    ensures Sinks(g, parents)[k] == StreamNode(Sink, g[parents[k]].parallelism, [parents[k]])
  {
    var front := parents[..|parents| - 1];
    if k < |front| {
      SinkAt(g, front, k);
    }
  }

  lemma LastParentIs(g: Graph, parents: seq<nat>)
    requires NoSinks(g, parents) && parents != []
    ensures LastParent(g, parents) == g[parents[|parents| - 1]]
  {
  }

  lemma {:induction false} PlainSinksExact(g: Graph, parents: seq<nat>)
    requires NoSinks(g, parents)
    ensures forall s: nat :: s in PlainSinks(g, parents) <==>
      |g| <= s < |g| + |parents| && g[parents[s - |g|]].kind != Reduce
  {
    if parents != [] {
      var front := parents[..|parents| - 1];
      PlainSinksExact(g, front);
      LastParentIs(g, parents);
    }
  }

  lemma {:induction false} ReduceSinkExact(g: Graph, parents: seq<nat>)
    requires NoSinks(g, parents)
    ensures match ReduceSink(g, parents)
      case None => forall k | 0 <= k < |parents| :: g[parents[k]].kind != Reduce
      case Some(s) => |g| <= s < |g| + |parents| && LastReduce(g, parents, s - |g|)
  {
    if parents != [] {
      ReduceSinkExact(g, parents[..|parents| - 1]);
      LastParentIs(g, parents);
    }
  }

  lemma LastReduceIsUnique(g: Graph, parents: seq<nat>, j: nat, k: nat)
    requires NoSinks(g, parents) && j < |parents| && k < |parents|
    requires LastReduce(g, parents, j) && LastReduce(g, parents, k)
    ensures j == k
  {
  }

  /** What a connect adds: the operator last, below a source that reads from all its parents. */
  ghost predicate Connects(g: Graph, h: Graph, call: Call)
    requires NoSinks(g, call.parents) && call.parents != []
  {
    var last := |h| - 1;
    && |h| >= |g| + 2 && h[last].parents == [last - 1] && h[last - 1].kind == Source
    && ReadsPlain(g, h, call.parents, h[last - 1].parents)
    && ReadsRelay(g, h, call.parents, h[last - 1].parents)
    && ReadsOnly(g, call.parents, h[last - 1].parents)
    && h[last].parallelism == h[last - 1].parallelism ==
       (if HasReduce(g, call.parents) then g[call.parents[|call.parents| - 1]].parallelism else call.parallelism)
  }

  /** The new operators one by one. */
  ghost predicate ConnectNodes(g: Graph, call: Call, h: Graph)
    requires NoSinks(g, call.parents) && call.parents != []
  {
    var m, plain, left := |g| + |call.parents|, PlainSinks(g, call.parents), LastParent(g, call.parents).parallelism;
    && |h| >= m && h[..m] == g + Sinks(g, call.parents)
    && match ReduceSink(g, call.parents)
       case None =>
         && |h| == m + 2 && h[m] == StreamNode(Source, call.parallelism, plain)
         && h[m + 1] == StreamNode(call.kind, call.parallelism, [m])
       case Some(sink) =>
         && |h| == m + 5 && h[m] == StreamNode(Source, left, [sink]) && h[m + 1] == StreamNode(FlatMap, left, [m])
         && h[m + 2] == StreamNode(Sink, left, [m + 1]) && h[m + 3] == StreamNode(Source, left, plain + [m + 2])
         && h[m + 4] == StreamNode(call.kind, left, [m + 3])
  }

  lemma ConnectIsItsNodes(g: Graph, call: Call)
    requires NoSinks(g, call.parents) && call.parents != []
    ensures ConnectNodes(g, call, Connect(g, call.kind, call.parallelism, call.parents))
  {
    var sinks := Sinks(g, call.parents);
    var plain, left := PlainSinks(g, call.parents), LastParent(g, call.parents).parallelism;
    match ReduceSink(g, call.parents) {
      case None =>
        TwoMore(g + sinks, StreamNode(Source, call.parallelism, plain), StreamNode(call.kind, call.parallelism, [|g + sinks|]));
      case Some(sink) => RelayNodes(g + sinks, call.kind, left, plain, sink);
    }
  }

  lemma TwoMore(h: Graph, a: StreamNode, b: StreamNode)
    ensures var r := h + [a] + [b]; |r| == |h| + 2 && r[..|h|] == h && r[|h|] == a && r[|h| + 1] == b
  {
  }

  lemma RelayNodes(h: Graph, kind: Kind, left: nat, plain: seq<nat>, sink: nat)
    ensures var r, m := Relay(h, kind, left, plain, sink), |h|;
      && |r| == m + 5 && r[..m] == h
      && r[m] == StreamNode(Source, left, [sink]) && r[m + 1] == StreamNode(FlatMap, left, [m])
      && r[m + 2] == StreamNode(Sink, left, [m + 1]) && r[m + 3] == StreamNode(Source, left, plain + [m + 2])
      && r[m + 4] == StreamNode(kind, left, [m + 3])
  {
    var job, m := RelayJob(h, left, sink), |h|;
    TwoMore(h, StreamNode(Source, left, [sink]), StreamNode(FlatMap, left, [m]));
    assert |job| == m + 3 && job[..m] == h;
    TwoMore(job, StreamNode(Source, left, plain + [m + 2]), StreamNode(kind, left, [m + 3]));
    var r := Relay(h, kind, left, plain, sink);
    assert r[..m] == r[..m + 3][..m];
  }

  lemma PartsOf(g: Graph, sinks: Graph, h: Graph)
    requires |h| >= |g| + |sinks| && h[..|g| + |sinks|] == g + sinks
    ensures h[..|g|] == g && h[|g|..|g| + |sinks|] == sinks
  {
    var front := h[..|g| + |sinks|];
    assert h[..|g|] == front[..|g|] && h[|g|..|g| + |sinks|] == front[|g|..];
  }

  lemma NewSinkAt(g: Graph, call: Call, h: Graph, k: nat)
    requires NoSinks(g, call.parents) && call.parents != [] && ConnectNodes(g, call, h) && k < |call.parents|
    ensures HasSink(g, h, call.parents[k], |g| + k)
  {
    SinkAt(g, call.parents, k);
    PartsOf(g, Sinks(g, call.parents), h);
    assert h[|g| + k] == h[|g|..|g| + |call.parents|][k];
  }

  ghost predicate HasSinks(g: Graph, h: Graph, parents: seq<nat>)
    requires NoSinks(g, parents)
  {
    forall k | 0 <= k < |parents| :: HasSink(g, h, parents[k], |g| + k)
  }

  lemma PlainAreRead(g: Graph, parents: seq<nat>, h: Graph, inputs: seq<nat>)
    requires NoSinks(g, parents) && HasSinks(g, h, parents) && forall s | s in PlainSinks(g, parents) :: s in inputs
    ensures ReadsPlain(g, h, parents, inputs)
  {
    PlainSinksExact(g, parents);
  }

  lemma RelayIsRead(g: Graph, parents: seq<nat>, h: Graph, inputs: seq<nat>)
    requires NoSinks(g, parents) && HasSinks(g, h, parents)
    requires ReduceSink(g, parents).Some? ==>
      && inputs != [] && parents != []
      && HasRelay(h, ReduceSink(g, parents).value, inputs[|inputs| - 1], g[parents[|parents| - 1]].parallelism)
    ensures ReadsRelay(g, h, parents, inputs)
  {
    ReduceSinkExact(g, parents);
    forall k: nat | k < |parents| && LastReduce(g, parents, k)
      ensures ReduceSink(g, parents) == Some(|g| + k)
    {
      LastReduceIsUnique(g, parents, k, ReduceSink(g, parents).value - |g|);
    }
  }

  lemma OnlyPlainAreRead(g: Graph, parents: seq<nat>, inputs: seq<nat>)
    requires NoSinks(g, parents)
    requires forall i | 0 <= i < |inputs| && (i < |inputs| - 1 || !HasReduce(g, parents)) :: inputs[i] in PlainSinks(g, parents)
    ensures ReadsOnly(g, parents, inputs)
  {
    PlainSinksExact(g, parents);
  }

  lemma ReduceSinkIff(g: Graph, parents: seq<nat>)
    requires NoSinks(g, parents)
    ensures HasReduce(g, parents) <==> ReduceSink(g, parents).Some?
  {
    ReduceSinkExact(g, parents);
  }

  /** The last two operators, and what the first of them reads. */
  lemma ConnectEnds(g: Graph, call: Call, h: Graph)
    requires NoSinks(g, call.parents) && call.parents != [] && ConnectNodes(g, call, h)
    ensures var last, inputs, sink := |h| - 1, h[|h| - 2].parents, ReduceSink(g, call.parents);
      var plain, left := PlainSinks(g, call.parents), LastParent(g, call.parents).parallelism;
      && h[last].parents == [last - 1] && h[last - 1].kind == Source
      && h[last].parallelism == h[last - 1].parallelism == (if sink.Some? then left else call.parallelism)
      && inputs == plain + (if sink.Some? then [last - 2] else [])
      && (sink.Some? ==> HasRelay(h, sink.value, last - 2, left))
  {
    assert PlainSinks(g, call.parents) + [] == PlainSinks(g, call.parents);
  }

  lemma InputsAreRead(g: Graph, parents: seq<nat>, h: Graph, inputs: seq<nat>, relay: nat)
    requires NoSinks(g, parents) && parents != [] && HasSinks(g, h, parents)
    requires inputs == PlainSinks(g, parents) + (if ReduceSink(g, parents).Some? then [relay] else [])
    requires ReduceSink(g, parents).Some? ==> HasRelay(h, ReduceSink(g, parents).value, relay, g[parents[|parents| - 1]].parallelism)
    ensures ReadsPlain(g, h, parents, inputs) && ReadsRelay(g, h, parents, inputs) && ReadsOnly(g, parents, inputs)
  {
    var plain := PlainSinks(g, parents);
    ReduceSinkIff(g, parents);
    assert forall i | 0 <= i < |plain| :: plain[i] in plain;
    PlainAreRead(g, parents, h, inputs);
    RelayIsRead(g, parents, h, inputs);
    OnlyPlainAreRead(g, parents, inputs);
  }

  lemma ConnectReads(g: Graph, call: Call, h: Graph)
    requires NoSinks(g, call.parents) && call.parents != [] && ConnectNodes(g, call, h)
    ensures Connects(g, h, call)
  {
    ConnectEnds(g, call, h);
    ReduceSinkIff(g, call.parents);
    LastParentIs(g, call.parents);
    forall k | 0 <= k < |call.parents| ensures HasSink(g, h, call.parents[k], |g| + k) {
      NewSinkAt(g, call, h, k);
    }
    InputsAreRead(g, call.parents, h, h[|h| - 2].parents, |h| - 3);
  }

  lemma ConnectReadsParents(calls: seq<Call>, call: Call)
    requires LegalProgram(calls + [call]) && |call.parents| >= 2 && call.kind == CoProcess
    ensures var g, h := Built(calls), Built(calls + [call]);
      NoSinks(g, call.parents) && Connects(g, h, call)
  {
    BuiltSnoc(calls, call);
    var g, h := Built(calls), Built(calls + [call]);
    ConnectIsItsNodes(g, call);
    ConnectReads(g, call, h);
  }

  // ----- parked state is always taken out

  /** A source that reads from a sink below a reduce. */
  ghost predicate BelowReduce(g: Graph, i: nat)
    requires i < |g|
  {
    g[i].kind == Source && exists s: nat, r: nat :: Through(g, i, s, r)
  }

  predicate Through(g: Graph, i: nat, s: nat, r: nat)
    requires i < |g|
  {
    s in g[i].parents && s < |g| && g[s].kind == Sink && r in g[s].parents && r < |g| && g[r].kind == Reduce
  }

  predicate TakesParked(g: Graph, i: nat)
    requires i < |g|
  {
    i + 1 < |g| && g[i + 1].kind == FlatMap && g[i + 1].parents == [i]
  }

  ghost predicate Drains(g: Graph) {
    forall i | 0 <= i < |g| && BelowReduce(g, i) :: TakesParked(g, i)
  }

  lemma OldStaysDrained(g: Graph, h: Graph, i: nat)
    requires Good(g) && Drains(g) && |g| <= |h| && h[..|g|] == g && i < |g|
    ensures BelowReduce(h, i) ==> TakesParked(h, i)
  {
    assert forall k | 0 <= k < |g| :: h[k] == g[k];
    if BelowReduce(h, i) {
      var s: nat, r: nat :| Through(h, i, s, r);
      assert NodeShaped(g, i) && s < i;
      assert NodeShaped(g, s);
      assert Through(g, i, s, r);
      assert BelowReduce(g, i) && TakesParked(g, i);
    }
  }

  lemma NotBelowReduce(h: Graph, i: nat)
    requires i < |h|
    requires h[i].kind == Source ==> forall s: nat | s in h[i].parents && s < |h| && h[s].kind == Sink ::
      forall r: nat | r in h[s].parents && r < |h| :: h[r].kind != Reduce
    ensures !BelowReduce(h, i)
  {
  }

  lemma SplitDrains(g: Graph, p: nat, call: Call)
    requires Good(g) && Drains(g) && p < |g| && call.kind != Source
    ensures Drains(Split(g, call.kind, call.parallelism, p))
  {
    var h := Split(g, call.kind, call.parallelism, p);
    assert h[..|g|] == g;
    forall i | 0 <= i < |h| ensures BelowReduce(h, i) ==> TakesParked(h, i) {
      if i < |g| {
        OldStaysDrained(g, h, i);
      } else if g[p].kind != Reduce {
        NotBelowReduce(h, i);
      }
    }
  }

  /** What the sources of a connect read from is no reduce, but for the relay's. */
  lemma PlainIsNotBelowReduce(g: Graph, h: Graph, parents: seq<nat>, s: nat, r: nat)
    requires NoSinks(g, parents) && |g| + |parents| <= |h| && h[..|g|] == g
    requires h[|g|..|g| + |parents|] == Sinks(g, parents)
    requires s in PlainSinks(g, parents) && s < |h| && r in h[s].parents && r < |h|
    ensures h[r].kind != Reduce
  {
    PlainSinksExact(g, parents);
    SinkAt(g, parents, s - |g|);
    assert h[s] == h[|g|..|g| + |parents|][s - |g|];
    assert h[r] == g[r];
  }

  lemma ConnectDrains(g: Graph, call: Call, h: Graph)
    requires Good(g) && Drains(g) && NoSinks(g, call.parents) && call.parents != [] && call.kind == CoProcess
    requires ConnectNodes(g, call, h)
    ensures Drains(h)
  {
    PartsOf(g, Sinks(g, call.parents), h);
    forall i | 0 <= i < |h| ensures BelowReduce(h, i) ==> TakesParked(h, i) {
      if i < |g| {
        OldStaysDrained(g, h, i);
      } else {
        NewIsDrained(g, call, h, i);
      }
    }
  }

  lemma NewIsDrained(g: Graph, call: Call, h: Graph, i: nat)
    requires NoSinks(g, call.parents) && call.parents != [] && call.kind == CoProcess
    requires ConnectNodes(g, call, h) && |g| <= i < |h|
    ensures BelowReduce(h, i) ==> TakesParked(h, i)
  {
    var m := |g| + |call.parents|;
    PlainSinksExact(g, call.parents);
    PartsOf(g, Sinks(g, call.parents), h);
    if i < m {
      NewSinkAt(g, call, h, i - |g|);
    } else if ReduceSink(g, call.parents).None? {
      if i == m {
        JoinIsNotBelowReduce(g, h, call.parents, m, m);
      }
    } else if i == m + 3 {
      JoinIsNotBelowReduce(g, h, call.parents, m + 3, m + 2);
    }
  }

  /** The source `i` of a connect reads from plain sinks, and perhaps from a relay that is not below a reduce either. */
  lemma JoinIsNotBelowReduce(g: Graph, h: Graph, parents: seq<nat>, i: nat, relay: nat)
    requires NoSinks(g, parents) && |g| + |parents| <= i < |h| && h[..|g|] == g
    requires h[|g|..|g| + |parents|] == Sinks(g, parents)
    requires forall s | s in h[i].parents :: s in PlainSinks(g, parents) || s == relay
    requires relay in h[i].parents ==> 1 <= relay < |h| && h[relay].parents == [relay - 1] && h[relay - 1].kind == FlatMap
    ensures !BelowReduce(h, i)
  {
    forall s: nat, r: nat | s in h[i].parents && s < |h| && r in h[s].parents && r < |h| ensures h[r].kind != Reduce {
      if s in PlainSinks(g, parents) {
        PlainIsNotBelowReduce(g, h, parents, s, r);
      }
    }
  }

  /**
   * In the graph of every program, each source that reads from a sink below a reduce is followed by
   * a flat map of its own, which takes the parked state out.
   */
  lemma {:induction false} ReducesAreDrained(calls: seq<Call>)
    requires LegalProgram(calls)
    ensures Drains(Built(calls))
  {
    if calls != [] {
      var front, call := calls[..|calls| - 1], calls[|calls| - 1];
      assert calls == front + [call];
      BuiltSnoc(front, call);
      ReducesAreDrained(front);
      AddedDrains(Built(front), call);
    }
  }

  lemma AddedDrains(g: Graph, call: Call)
    requires Good(g) && Drains(g) && Legal(g, call)
    ensures var added := Added(g, call.kind, call.parallelism, call.parents); added.Ok? ==> Drains(added.value)
  {
    var added := Added(g, call.kind, call.parallelism, call.parents);
    if added.Ok? {
      if |call.parents| >= 2 {
        ConnectIsItsNodes(g, call);
        ConnectDrains(g, call, added.value);
      } else if |call.parents| == 1 && |added.value| > |g| + 1 {
        SplitDrains(g, call.parents[0], call);
      } else {
        OneMoreDrains(g, added.value);
      }
    }
  }

  lemma OneMoreDrains(g: Graph, h: Graph)
    requires Good(g) && Drains(g) && |h| == |g| + 1 && h[..|g|] == g
    requires h[|g|].kind == Source ==> h[|g|].parents == []
    ensures Drains(h)
  {
    forall i | 0 <= i < |h| ensures BelowReduce(h, i) ==> TakesParked(h, i) {
      if i < |g| {
        OldStaysDrained(g, h, i);
      }
    }
  }
}
