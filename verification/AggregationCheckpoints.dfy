/**
 * Checkpoints in the distributed aggregation: with an alignment manager in front of every reduce
 * task, the checkpoint ids a task reports are over and strictly increase, in every run.
 */
module AggregationCheckpoints {
  import opened Prelude
  import opened Elements
  import opened BarrierAlignment
  import opened WatermarkGenerators
  import opened ReduceCheckpoints
  import A = WatermarkAssigner
  import M = WatermarkManager
  import T = WindowReduce
  import opened Aggregation
  import AggregationResults

  // ----- what a reduce task sees of a run

  /** The element that an action hands to a reduce task. */
  ghost function Taken(job: Job, s: System, a: Action, j: nat): Option<Element>
    requires job.Valid() && Shaped(job, s) && j < job.reducers
  {
    if Enabled(job, s, a) && a.Receive? && a.reducer == j
    then Some(Log(job, s, a.source, j)[s.read[a.source][j]])
    else None
  }

  /** What an action means to the reduce operator. */
  ghost function Happens(job: Job, s: System, a: Action, j: nat): Option<T.Event>
    requires job.Valid() && Shaped(job, s) && j < job.reducers
  {
    if a == FlatMap(j) then Some(T.Delivered)
    else
      match Taken(job, s, a, j)
      case Some(Data(record)) => Some(T.Arrived(record))
      case Some(Watermark(w)) =>
        var low := M.MinWatermarkOf(M.Next(s.reducers[j].manager, M.Arrived(PARENT, a.source, w)));
        if low.Some? then Some(T.Advanced(low.value)) else None
      case Some(Barrier(id)) => if a.aligned then Some(T.BarrierPassed(id)) else None
      case _ => None
  }

  /** The barrier that an action brings to the task's alignment manager. */
  ghost function Arrives(job: Job, s: System, a: Action, j: nat): Option<Arrival>
    requires job.Valid() && Shaped(job, s) && j < job.reducers
  {
    match Taken(job, s, a, j)
    case Some(Barrier(id)) => Some(Arrival(a.source, id))
    case _ => None
  }

  ghost function Events(job: Job, actions: seq<Action>, j: nat): seq<T.Event>
    requires job.Valid() && j < job.reducers
  {
    if actions == [] then []
    else
      var front, a := actions[..|actions| - 1], actions[|actions| - 1];
      Events(job, front, j) + List(Happens(job, Exec(job, front), a, j))
  }

  /** The barriers that have reached the task's alignment manager. */
  ghost function Seen(job: Job, actions: seq<Action>, j: nat): seq<Arrival>
    requires job.Valid() && j < job.reducers
  {
    if actions == [] then []
    else
      var front, a := actions[..|actions| - 1], actions[|actions| - 1];
      Seen(job, front, j) + List(Arrives(job, Exec(job, front), a, j))
  }

  function List<X>(x: Option<X>): seq<X> {
    match x case None => [] case Some(v) => [v]
  }

  /** The last action's barrier, if any, is let through or held back as the task's alignment manager answers. */
  ghost predicate Answered(job: Job, front: seq<Action>, a: Action, j: nat)
    requires job.Valid() && j < job.reducers
  {
    var arrival := Arrives(job, Exec(job, front), a, j);
    arrival.Some? ==> a.aligned == Fires(job.Sources(), Seen(job, front, j) + [arrival.value])
  }

  /** Every barrier of the run is. */
  ghost predicate Aligned(job: Job, actions: seq<Action>)
    requires job.Valid()
  {
    actions != [] ==>
      var front, a := actions[..|actions| - 1], actions[|actions| - 1];
      Aligned(job, front) && forall j | 0 <= j < job.reducers :: Answered(job, front, a, j)
  }

  /** The reduce task of the system is the task of `WindowReduce` run on these events. */
  lemma {:induction false} TaskIsRun(job: Job, actions: seq<Action>, j: nat)
    requires job.Valid() && j < job.reducers
    ensures Exec(job, actions).reducers[j].task == T.Run(job.Config(), Events(job, actions, j))
  {
    if actions != [] {
      var front, a := actions[..|actions| - 1], actions[|actions| - 1];
      TaskIsRun(job, front, j);
      StepOfTask(job, Exec(job, front), a, j);
      RunSnoc(job.Config(), Events(job, front, j), Happens(job, Exec(job, front), a, j));
    }
  }

  lemma RunSnoc(cfg: T.Config, events: seq<T.Event>, e: Option<T.Event>)
    requires cfg.Valid()
    ensures T.Run(cfg, events + List(e)) == (if e.Some? then T.Step(cfg, T.Run(cfg, events), e.value) else T.Run(cfg, events))
  {
    assert e.None? ==> events + List(e) == events;
    assert e.Some? ==> (events + [e.value])[..|events|] == events;
  }

  lemma StepOfTask(job: Job, s: System, a: Action, j: nat)
    requires job.Valid() && Shaped(job, s) && j < job.reducers
    ensures var task, e := s.reducers[j].task, Happens(job, s, a, j);
      Step(job, s, a).reducers[j].task == (if e.Some? then T.Step(job.Config(), task, e.value) else task)
  {
  }

  // ----- barriers keep their order on the way

  ghost predicate BarriersRise(log: seq<Element>) {
    forall p, q | 0 <= p < q < |log| :: log[p].Barrier? && log[q].Barrier? ==> log[p].checkpointId < log[q].checkpointId
  }

  /** The barriers that a source injects have strictly increasing ids. */
  ghost predicate InputsRise(inputs: seq<A.Input>) {
    forall p, q | 0 <= p < q < |inputs| ::
      inputs[p].element.Barrier? && inputs[q].element.Barrier? ==>
        inputs[p].element.checkpointId < inputs[q].element.checkpointId
  }

  ghost predicate SourcesRise(s: System) {
    forall i | 0 <= i < |s.inputs| :: InputsRise(s.inputs[i])
  }

  ghost predicate Below(log: seq<Element>, id: nat) {
    forall e | e in log && e.Barrier? :: e.checkpointId < id
  }

  lemma RiseSnoc(log: seq<Element>, e: Element)
    requires BarriersRise(log) && (e.Barrier? ==> Below(log, e.checkpointId))
    ensures BarriersRise(log + [e])
  {
    assert forall p | 0 <= p < |log| :: log[p] in log;
  }

  ghost predicate Injected(inputs: seq<A.Input>, e: Element) {
    exists k :: 0 <= k < |inputs| && inputs[k].element == e
  }

  /** A step of an assigner sends a barrier only when it is given one, and then nothing else. */
  lemma ProcessOnBarriers(a: A.Assigner, i: A.Input)
    ensures var out := A.Process(a, i).1;
      if i.element.Barrier? then out == [i.element] else forall e | e in out :: !e.Barrier?
  {
  }

  lemma {:induction false} SentAreInjected(g: Generator, inputs: seq<A.Input>, e: Element)
    requires e.Barrier? && e in A.Run(g, inputs).1
    ensures Injected(inputs, e)
  {
    var front, i := inputs[..|inputs| - 1], inputs[|inputs| - 1];
    ProcessOnBarriers(A.Run(g, front).0, i);
    if e in A.Run(g, front).1 {
      SentAreInjected(g, front, e);
      var k :| 0 <= k < |front| && front[k].element == e;
      assert inputs[k].element == e;
    }
  }

  lemma {:induction false} SentRise(g: Generator, inputs: seq<A.Input>)
    requires InputsRise(inputs)
    ensures BarriersRise(A.Run(g, inputs).1)
  {
    if inputs != [] {
      var front, i := inputs[..|inputs| - 1], inputs[|inputs| - 1];
      var (a, sent) := A.Run(g, front);
      SentRise(g, front);
      ProcessOnBarriers(a, i);
      if i.element.Barrier? {
        forall e | e in sent && e.Barrier? ensures e.checkpointId < i.element.checkpointId {
          SentAreInjected(g, front, e);
          var k :| 0 <= k < |front| && front[k].element == e;
          assert inputs[k].element == e;
        }
        RiseSnoc(sent, i.element);
      } else {
        PlainKeepsRise(sent, A.Process(a, i).1);
      }
    }
  }

  lemma PlainKeepsRise(log: seq<Element>, out: seq<Element>)
    requires BarriersRise(log) && forall e | e in out :: !e.Barrier?
    ensures BarriersRise(log + out)
  {
    assert forall k | 0 <= k < |out| :: out[k] in out;
  }

  lemma {:induction false} RoutedRise(job: Job, sent: seq<Element>, j: nat)
    requires job.reducers > 0 && BarriersRise(sent)
    ensures BarriersRise(Routed(job, sent, j))
  {
    if sent != [] {
      var front, e := sent[..|sent| - 1], sent[|sent| - 1];
      RoutedRise(job, front, j);
      RoutedMembers(job, front, j);
      if e.Barrier? {
        forall x | x in Routed(job, front, j) && x.Barrier? ensures x.checkpointId < e.checkpointId {
          var k :| 0 <= k < |front| && front[k] == x;
          assert sent[k] == x;
        }
      }
      RiseSnoc(Routed(job, front, j), e);
    }
  }

  lemma LogRises(job: Job, s: System, i: nat, j: nat)
    requires job.Valid() && Shaped(job, s) && i < job.Sources() && InputsRise(s.inputs[i])
    ensures BarriersRise(Log(job, s, i, j))
  {
    SentRise(job.generators[i], s.inputs[i]);
    RoutedRise(job, Sent(job, s, i), j);
  }

  // ----- the invariant of one alignment manager

  ghost function Parents(n: nat): (s: set<nat>)
    ensures |s| == n && forall i: nat :: i in s <==> i < n
  {
    if n == 0 then {} else Parents(n - 1) + {n - 1}
  }

  /** What has been read of each channel. */
  ghost function Prefixes(job: Job, s: System, j: nat): seq<seq<Element>>
    requires job.Valid() && Shaped(job, s) && j < job.reducers
  {
    seq(job.Sources(), i requires 0 <= i < job.Sources() => ReadOf(Log(job, s, i, j), s.read[i][j]))
  }

  function ReadOf(log: seq<Element>, n: nat): seq<Element> {
    if n <= |log| then log[..n] else log
  }

  ghost predicate Came(past: seq<seq<Element>>, a: Arrival) {
    a.parent < |past| && Barrier(a.id) in past[a.parent]
  }

  ghost predicate AllCame(past: seq<seq<Element>>, seen: seq<Arrival>) {
    forall a | a in seen :: Came(past, a)
  }

  /** Every parent has sent each id that was let through. */
  ghost predicate AllPassedBySenders(n: nat, seen: seq<Arrival>, events: seq<T.Event>) {
    forall c | T.BarrierPassed(c) in events :: Senders(seen, c) == Parents(n)
  }

  ghost predicate AlignInv(past: seq<seq<Element>>, seen: seq<Arrival>, events: seq<T.Event>) {
    && AllCame(past, seen)
    && IncreasingPerParent(seen)
    && AllPassedBySenders(|past|, seen, events)
    && BarriersInOrder(events)
  }

  lemma CameFromParents(past: seq<seq<Element>>, seen: seq<Arrival>)
    requires AllCame(past, seen)
    ensures FromParents(seen, Parents(|past|))
  {
    assert forall a | a in seen :: Came(past, a);
  }

  /** Reading on, and events other than barriers, disturb nothing. */
  lemma LongerPastKeepsInv(past: seq<seq<Element>>, past': seq<seq<Element>>, seen: seq<Arrival>, events: seq<T.Event>, e: Option<T.Event>)
    requires AlignInv(past, seen, events)
    requires |past'| == |past| && forall i | 0 <= i < |past| :: past[i] <= past'[i]
    requires e.Some? ==> !e.value.BarrierPassed?
    ensures AlignInv(past', seen, events + List(e))
  {
    forall a | a in seen ensures Came(past', a) {
      assert Came(past, a);
    }
  }

  /** A barrier that comes after all the barriers read of its channel. */
  lemma NextIsGreater(past: seq<seq<Element>>, seen: seq<Arrival>, a: Arrival)
    requires AllCame(past, seen) && IncreasingPerParent(seen)
    requires a.parent < |past| && Below(past[a.parent], a.id)
    ensures IncreasingPerParent(seen + [a])
  {
    forall k | 0 <= k < |seen| && seen[k].parent == a.parent ensures seen[k].id < a.id {
      assert Came(past, seen[k]);
      assert Barrier(seen[k].id) in past[a.parent];
    }
  }

  /** An id that all parents have sent is smaller than anything that comes later. */
  lemma PassedAreSmaller(n: nat, seen: seq<Arrival>, a: Arrival, c: nat)
    requires Senders(seen, c) == Parents(n) && a.parent < n && IncreasingPerParent(seen + [a])
    ensures c < a.id
  {
    assert a.parent in Senders(seen, c);
    var b :| b in seen && b.id == c && b.parent == a.parent;
    var k :| 0 <= k < |seen| && seen[k] == b;
    assert (seen + [a])[k].parent == (seen + [a])[|seen|].parent;
  }

  lemma SendersStay(n: nat, seen: seq<Arrival>, a: Arrival, c: nat)
    requires Senders(seen, c) == Parents(n) && a.parent < n
    ensures Senders(seen + [a], c) == Parents(n)
  {
    SendersSnoc(seen, a, c);
  }

  lemma PassedInOrder(n: nat, seen: seq<Arrival>, events: seq<T.Event>, a: Arrival)
    requires AllPassedBySenders(n, seen, events) && BarriersInOrder(events)
    requires a.parent < n && IncreasingPerParent(seen + [a])
    ensures BarriersInOrder(events + [T.BarrierPassed(a.id)])
  {
    forall p | 0 <= p < |events| && events[p].BarrierPassed? ensures events[p].checkpointId < a.id {
      var c := events[p].checkpointId;
      assert T.BarrierPassed(c) in events;
      PassedAreSmaller(n, seen, a, c);
    }
  }

  /** A barrier keeps the invariant, whether the manager lets it through or holds it back. */
  lemma BarrierKeepsInv(past: seq<seq<Element>>, seen: seq<Arrival>, events: seq<T.Event>, a: Arrival)
    requires AlignInv(past, seen, events) && a.parent < |past| && Below(past[a.parent], a.id)
    ensures var past' := past[a.parent := past[a.parent] + [Barrier(a.id)]];
      var passed := if Fires(|past|, seen + [a]) then [T.BarrierPassed(a.id)] else [];
      AlignInv(past', seen + [a], events + passed)
  {
    var n := |past|;
    NextIsGreater(past, seen, a);
    var past' := past[a.parent := past[a.parent] + [Barrier(a.id)]];
    forall b | b in seen + [a] ensures Came(past', b) {
      assert b in seen ==> Came(past, b);
    }
    forall c | T.BarrierPassed(c) in events ensures Senders(seen + [a], c) == Parents(n) {
      SendersStay(n, seen, a, c);
    }
    if Fires(n, seen + [a]) {
      PassedInOrder(n, seen, events, a);
      CameFromParents(past', seen + [a]);
      AlignmentIsExact(Parents(n), seen + [a]);
    }
  }

  /** What was let through has been read from every channel. */
  lemma PassedWasRead(past: seq<seq<Element>>, seen: seq<Arrival>, events: seq<T.Event>, c: nat, i: nat)
    requires AlignInv(past, seen, events) && T.BarrierPassed(c) in events && i < |past|
    ensures Barrier(c) in past[i]
  {
    assert i in Senders(seen, c);
    var b :| b in seen && b.id == c && b.parent == i;
    assert Came(past, b);
  }

  // ----- every run keeps it

  lemma LogGrows(job: Job, s: System, a: Action, i: nat, j: nat)
    requires job.Valid() && Shaped(job, s) && i < job.Sources() && j < job.reducers
    ensures Log(job, s, i, j) <= Log(job, Step(job, s, a), i, j)
  {
    if Enabled(job, s, a) && a.Feed? {
      AggregationResults.FeedExtends(job, s, a.source, a.input, j);
    } else {
      assert Step(job, s, a).inputs == s.inputs;
    }
  }

  lemma ReadAfter(job: Job, s: System, a: Action, i: nat, j: nat)
    requires job.Valid() && Shaped(job, s) && i < job.Sources() && j < job.reducers
    ensures Step(job, s, a).read[i][j] == s.read[i][j] + (if Taken(job, s, a, j).Some? && a.source == i then 1 else 0)
  {
  }

  /** What an action does to the part read of one channel. */
  lemma PrefixAfter(job: Job, s: System, a: Action, i: nat, j: nat)
    requires job.Valid() && Shaped(job, s) && i < job.Sources() && j < job.reducers && s.read[i][j] <= |Log(job, s, i, j)|
    ensures var before, s', taken := Log(job, s, i, j)[..s.read[i][j]], Step(job, s, a), Taken(job, s, a, j);
      ReadOf(Log(job, s', i, j), s'.read[i][j]) == (if taken.Some? && a.source == i then before + [taken.value] else before)
  {
    LogGrows(job, s, a, i, j);
    ReadAfter(job, s, a, i, j);
  }

  lemma ReadsAreInLogs(job: Job, s: System, i: nat, j: nat)
    requires job.Valid() && SystemInv(job, s) && i < job.Sources() && j < job.reducers
    ensures s.read[i][j] <= |Log(job, s, i, j)|
  {
    assert ReducerInv(job, s, j);
    assert Logs(job, s, j)[i] == Log(job, s, i, j) && Reads(s, j)[i] == s.read[i][j];
  }

  /** What an action does to the channels towards one reduce task. */
  lemma PrefixesAfter(job: Job, s: System, a: Action, j: nat)
    requires job.Valid() && SystemInv(job, s) && j < job.reducers
    ensures var past, past', taken := Prefixes(job, s, j), Prefixes(job, Step(job, s, a), j), Taken(job, s, a, j);
      past' == (if taken.Some? then past[a.source := past[a.source] + [taken.value]] else past)
  {
    forall i | 0 <= i < job.Sources()
      ensures var s', taken := Step(job, s, a), Taken(job, s, a, j);
        var before := ReadOf(Log(job, s, i, j), s.read[i][j]);
        ReadOf(Log(job, s', i, j), s'.read[i][j]) == (if taken.Some? && a.source == i then before + [taken.value] else before)
    {
      ReadsAreInLogs(job, s, i, j);
      PrefixAfter(job, s, a, i, j);
    }
  }

  /** The next element of a channel, if a barrier, has a greater id than those read. */
  lemma NextBarrier(job: Job, s: System, a: Action, j: nat)
    requires job.Valid() && SystemInv(job, s) && j < job.reducers && SourcesRise(s)
    requires Taken(job, s, a, j).Some? && Taken(job, s, a, j).value.Barrier?
    ensures Below(Prefixes(job, s, j)[a.source], Taken(job, s, a, j).value.checkpointId)
  {
    var log, n := Log(job, s, a.source, j), s.read[a.source][j];
    LogRises(job, s, a.source, j);
    assert Prefixes(job, s, j)[a.source] == log[..n];
  }

  lemma SourcesRoseBefore(job: Job, s: System, a: Action)
    requires job.Valid() && Shaped(job, s) && SourcesRise(Step(job, s, a))
    ensures SourcesRise(s)
  {
    if Enabled(job, s, a) && a.Feed? {
      var s' := Step(job, s, a);
      forall i | 0 <= i < |s.inputs| ensures InputsRise(s.inputs[i]) {
        assert InputsRise(s'.inputs[i]);
        FrontRises(s.inputs[i], a.input);
      }
    }
  }

  lemma FrontRises(inputs: seq<A.Input>, i: A.Input)
    ensures InputsRise(inputs + [i]) ==> InputsRise(inputs)
  {
    if InputsRise(inputs + [i]) {
      forall p, q | 0 <= p < q < |inputs| && inputs[p].element.Barrier? && inputs[q].element.Barrier?
        ensures inputs[p].element.checkpointId < inputs[q].element.checkpointId
      {
        assert (inputs + [i])[p] == inputs[p] && (inputs + [i])[q] == inputs[q];
      }
    }
  }

  ghost predicate AlignedSoFar(job: Job, actions: seq<Action>, j: nat)
    requires job.Valid() && j < job.reducers
  {
    AlignInv(Prefixes(job, Exec(job, actions), j), Seen(job, actions, j), Events(job, actions, j))
  }

  lemma StepKeepsAligned(job: Job, s: System, a: Action, j: nat, seen: seq<Arrival>, events: seq<T.Event>)
    requires job.Valid() && j < job.reducers && SystemInv(job, s) && SourcesRise(s)
    requires AlignInv(Prefixes(job, s, j), seen, events)
    requires var arrival := Arrives(job, s, a, j);
      arrival.Some? ==> a.aligned == Fires(job.Sources(), seen + [arrival.value])
    ensures AlignInv(Prefixes(job, Step(job, s, a), j), seen + List(Arrives(job, s, a, j)), events + List(Happens(job, s, a, j)))
  {
    var past, arrival := Prefixes(job, s, j), Arrives(job, s, a, j);
    PrefixesAfter(job, s, a, j);
    if arrival.Some? {
      NextBarrier(job, s, a, j);
      BarrierKeepsInv(past, seen, events, arrival.value);
    } else {
      assert seen + List(arrival) == seen;
      LongerPastKeepsInv(past, Prefixes(job, Step(job, s, a), j), seen, events, Happens(job, s, a, j));
    }
  }

  lemma {:induction false} AlwaysAligned(job: Job, actions: seq<Action>, j: nat)
    requires job.Valid() && j < job.reducers && Aligned(job, actions) && SourcesRise(Exec(job, actions))
    ensures AlignedSoFar(job, actions, j)
  {
    if actions != [] {
      var front, a := actions[..|actions| - 1], actions[|actions| - 1];
      SourcesRoseBefore(job, Exec(job, front), a);
      AlwaysAligned(job, front, j);
      AggregationResults.Reachable(job, front);
      assert Answered(job, front, a, j);
      StepKeepsAligned(job, Exec(job, front), a, j, Seen(job, front, j), Events(job, front, j));
    }
  }

  // ----- statements

  /**
   * If every source injects barriers with increasing ids, then in every run of the system the
   * alignment managers never reach `unreachable!`, and a barrier is let through to a reduce task
   * only after it has been read from every source and after all smaller ones.
   */
  lemma PassedBarriersAreAligned(job: Job, actions: seq<Action>, j: nat)
    requires job.Valid() && j < job.reducers && Aligned(job, actions) && SourcesRise(Exec(job, actions))
    ensures BarriersInOrder(Events(job, actions, j))
    ensures job.Sources() > 0 ==> After(job.Sources(), Seen(job, actions, j)).Done?
    ensures forall c, i: nat | T.BarrierPassed(c) in Events(job, actions, j) && i < job.Sources() ::
      Barrier(c) in Prefixes(job, Exec(job, actions), j)[i]
  {
    AlwaysAligned(job, actions, j);
    var past, seen, events := Prefixes(job, Exec(job, actions), j), Seen(job, actions, j), Events(job, actions, j);
    if job.Sources() > 0 {
      CameFromParents(past, seen);
      AlignmentIsExact(Parents(|past|), seen);
    }
    forall c, i: nat | T.BarrierPassed(c) in events && i < job.Sources() ensures Barrier(c) in past[i] {
      PassedWasRead(past, seen, events, c, i);
    }
  }

  /** The checkpoints that a reduce task of the system reports strictly increase. */
  lemma SystemReportsIncrease(job: Job, actions: seq<Action>, j: nat, p: nat, q: nat)
    requires job.Valid() && j < job.reducers && Aligned(job, actions) && SourcesRise(Exec(job, actions))
    requires var events := Events(job, actions, j);
      && p < q < |events| && events[p].BarrierPassed? && events[q].BarrierPassed?
      && Reported(job.Config(), events, p).Some? && Reported(job.Config(), events, q).Some?
    ensures var events := Events(job, actions, j);
      Reported(job.Config(), events, p).value < Reported(job.Config(), events, q).value
  {
    PassedBarriersAreAligned(job, actions, j);
    ReportedStrictlyIncrease(job.Config(), Events(job, actions, j), p, q);
  }

  /**
   * A checkpoint that a reduce task of the system reports is over: its barrier has been read from
   * every source, and every window that was live in the task at that barrier has been dropped since.
   */
  lemma SystemReportsAreTruthful(job: Job, actions: seq<Action>, j: nat, q: nat) returns (p: nat)
    requires job.Valid() && j < job.reducers && Aligned(job, actions) && SourcesRise(Exec(job, actions))
    requires var events := Events(job, actions, j);
      q < |events| && events[q].BarrierPassed? && Reported(job.Config(), events, q).Some?
    ensures var events := Events(job, actions, j);
      var c := Reported(job.Config(), events, q).value;
      && p <= q && events[p] == T.BarrierPassed(c)
      && (forall x | x in T.Run(job.Config(), events[..p]).live :: DroppedBetween(job.Config(), events, x, p, q))
      && forall i | 0 <= i < job.Sources() :: Barrier(c) in Prefixes(job, Exec(job, actions), j)[i]
  {
    PassedBarriersAreAligned(job, actions, j);
    p := ReportedIsTruthful(job.Config(), Events(job, actions, j), q);
  }

  /** And every checkpoint that is over is reported, unless the bound of the task's table gave it up. */
  lemma SystemReportsAreComplete(job: Job, actions: seq<Action>, j: nat, c: nat, p: nat, q: nat)
    requires job.Valid() && j < job.reducers && Aligned(job, actions) && SourcesRise(Exec(job, actions))
    requires var events := Events(job, actions, j);
      && p <= q < |events| && events[p] == T.BarrierPassed(c) && events[q].BarrierPassed?
      && Over(job.Config(), events, p, q)
      && forall r | p <= r < q :: !EvictedAt(job.Config(), events, c, r)
    ensures exists r :: p <= r <= q && ReportedAt(job.Config(), Events(job, actions, j), c, r)
  {
    PassedBarriersAreAligned(job, actions, j);
    CompletedIsReported(job.Config(), Events(job, actions, j), c, p, q);
  }
}
