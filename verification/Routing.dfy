/**
 * The senders of a task and the way an element finds its sender:
 * `rlink/src/functions/system/system_output_format.rs`, with the partition set by
 * `rlink/src/runtime/worker/runnable/key_by_runnable.rs` and `sink_runnable.rs`.
 */
module Routing {
  import opened Prelude
  import opened Elements
  import opened Tasks
  import opened Codec
  import opened JobEdges
  import opened ExecutionGraph
  import Aggregation

  function TaskNumber(t: TaskId): int { t.taskNumber }

  /** The tasks of job `j` among the first `n`, in order. */
  function OfJob(list: seq<TaskId>, n: nat, j: nat): seq<TaskId>
    requires n <= |list|
  {
    if n == 0 then [] else OfJob(list, n - 1, j) + (if list[n - 1].jobId == j then [list[n - 1]] else [])
  }

  lemma {:induction false} OfJobExact(list: seq<TaskId>, n: nat, j: nat)
    requires n <= |list|
    ensures forall t :: t in OfJob(list, n, j) <==> t in list[..n] && t.jobId == j
    ensures NoDuplicates(list) ==> NoDuplicates(OfJob(list, n, j))
  {
    if n > 0 {
      OfJobExact(list, n - 1, j);
      var front, last := OfJob(list, n - 1, j), list[n - 1];
      assert list[..n] == list[..n - 1] + [last];
      assert forall k | 0 <= k < |front| :: front[k] in front;
    }
  }

  ghost predicate GroupedAt(groups: map<nat, seq<TaskId>>, list: seq<TaskId>, n: nat, j: nat)
    requires n <= |list|
  {
    && (j in groups <==> OfJob(list, n, j) != [])
    && (j in groups ==> groups[j] == OfJob(list, n, j))
  }

  /** `entry(job_id).or_insert(vec![]).push(..)` for every target. */
  method GroupByJob(list: seq<TaskId>) returns (groups: map<nat, seq<TaskId>>)
    ensures forall j: nat :: GroupedAt(groups, list, |list|, j)
  {
    groups := map[];
    for i := 0 to |list|
      invariant forall j: nat :: GroupedAt(groups, list, i, j)
    {
      var t, n := list[i], i + 1;
      ghost var before := groups;
      assert GroupedAt(groups, list, i, t.jobId);
      groups := groups[t.jobId := (if t.jobId in groups then groups[t.jobId] else []) + [t]];
      forall j: nat ensures GroupedAt(groups, list, n, j) {
        assert GroupedAt(before, list, i, j);
      }
    }
  }

  // ----- network channels

  /** Numbers in strictly increasing order are at least their positions. */
  lemma {:induction false} NumberAtLeast(ts: seq<TaskId>, i: nat)
    requires StrictlySortedBy(ts, TaskNumber) && i < |ts|
    ensures ts[i].taskNumber >= i
  {
    if i > 0 {
      NumberAtLeast(ts, i - 1);
      assert TaskNumber(ts[i - 1]) < TaskNumber(ts[i]);
    }
  }

  lemma {:induction false} NumberAtMost(ts: seq<TaskId>, i: nat, n: nat)
    requires StrictlySortedBy(ts, TaskNumber) && i < |ts| && ts[|ts| - 1].taskNumber < n
    ensures ts[i].taskNumber <= n - (|ts| - i)
    decreases |ts| - i
  {
    if i < |ts| - 1 {
      NumberAtMost(ts, i + 1, n);
      assert TaskNumber(ts[i]) < TaskNumber(ts[i + 1]);
    }
  }

  /** As many numbers below `n` as `n`, sorted: no task is lost. */
  lemma NoTaskIsLost(ts: seq<TaskId>, n: nat)
    requires StrictlySortedBy(ts, TaskNumber) && |ts| == n
    requires forall t | t in ts :: t.taskNumber < n
    ensures forall i | 0 <= i < n :: ts[i].taskNumber == i
  {
    forall i | 0 <= i < n ensures ts[i].taskNumber == i {
      NumberAtLeast(ts, i);
      assert ts[|ts| - 1] in ts;
      NumberAtMost(ts, i, n);
    }
  }

  /** A job's targets, each once and all of one total, are all there: as many as the total, numbered below it. */
  predicate Complete(group: seq<TaskId>, total: nat) {
    |group| == total && forall t | t in group :: t.taskNumber < total
  }

  lemma DistinctNumbers(group: seq<TaskId>, j: nat, total: nat)
    requires NoDuplicates(group) && forall t | t in group :: t.jobId == j && t.numTasks == total
    ensures DistinctKeys(group, TaskNumber)
  {
    forall a, b | 0 <= a < b < |group| ensures TaskNumber(group[a]) != TaskNumber(group[b]) {
      assert group[a] in group && group[b] in group;
    }
  }

  /** Sorted by number, the targets of a job are its tasks in order exactly when they are complete. */
  lemma SortedSenders(group: seq<TaskId>, senders: seq<TaskId>, j: nat, total: nat)
    requires forall t | t in group :: t.jobId == j && t.numTasks == total
    requires StrictlySortedBy(senders, TaskNumber) && |senders| == |group| == total && forall t :: t in senders <==> t in group
    ensures Complete(group, total) <==> forall k | 0 <= k < total :: senders[k].taskNumber == k
    ensures Complete(group, total) ==> senders == Numbered(j, total)
  {
    if Complete(group, total) {
      NoTaskIsLost(senders, total);
    }
    forall k | 0 <= k < total ensures senders[k].jobId == j && senders[k].numTasks == total {
      assert senders[k] in senders;
    }
    if forall k | 0 <= k < total :: senders[k].taskNumber == k {
      forall t | t in group ensures t.taskNumber < total {
        assert t in senders;
      }
    }
  }

  /** The check for lost tasks. */
  method InOrder(senders: seq<TaskId>) returns (ok: bool)
    ensures ok <==> forall k | 0 <= k < |senders| :: senders[k].taskNumber == k
  {
    for i := 0 to |senders|
      invariant forall k | 0 <= k < i :: senders[k].taskNumber == k
    {
      if senders[i].taskNumber != i {
        return false;
      }
    }
    return true;
  }

  /** The senders of one job in the order of their numbers; a missing number is a panic. */
  method SortSenders(group: seq<TaskId>, ghost j: nat, total: nat) returns (r: Outcome<seq<TaskId>>)
    requires NoDuplicates(group) && forall t | t in group :: t.jobId == j && t.numTasks == total
    ensures r.Done? <==> Complete(group, total)
    ensures r.Done? ==> r.value == Numbered(j, total)
  {
    if |group| != total {
      return Panic;
    }
    DistinctNumbers(group, j, total);
    var senders := SortBy(group, TaskNumber);
    SortedSenders(group, senders, j, total);
    var ok := InOrder(senders);
    r := if ok then Done(senders) else Panic;
  }

  type Senders = seq<(nat, seq<TaskId>)>

  function Targets(list: seq<TaskId>, j: nat): seq<TaskId> {
    OfJob(list, |list|, j)
  }

  /** Each of the jobs has one entry, and no other job has any. */
  ghost predicate Entries(senders: Senders, jobs: set<nat>) {
    && (forall a, b | 0 <= a < b < |senders| :: senders[a].0 != senders[b].0)
    && (forall i | 0 <= i < |senders| :: senders[i].0 in jobs)
    && (forall j | j in jobs :: exists i :: 0 <= i < |senders| && senders[i].0 == j)
  }

  lemma EntriesSnoc(senders: Senders, jobs: set<nat>, entry: (nat, seq<TaskId>))
    requires Entries(senders, jobs) && entry.0 !in jobs
    ensures Entries(senders + [entry], jobs + {entry.0})
  {
    var longer := senders + [entry];
    forall j | j in jobs + {entry.0} ensures exists i :: 0 <= i < |longer| && longer[i].0 == j {
      if j in jobs {
        var i :| 0 <= i < |senders| && senders[i].0 == j;
        assert longer[i].0 == j;
      } else {
        assert longer[|senders|].0 == j;
      }
    }
  }

  ghost predicate AreJobsOf(jobs: set<nat>, list: seq<TaskId>) {
    forall j: nat :: j in jobs <==> Targets(list, j) != []
  }

  lemma GroupsAreJobs(groups: map<nat, seq<TaskId>>, list: seq<TaskId>)
    requires forall j: nat :: GroupedAt(groups, list, |list|, j)
    ensures AreJobsOf(groups.Keys, list) && forall j | j in groups :: groups[j] == Targets(list, j)
  {
    forall j: nat ensures (j in groups <==> Targets(list, j) != []) && (j in groups ==> groups[j] == Targets(list, j)) {
      assert GroupedAt(groups, list, |list|, j);
    }
  }

  lemma TargetsExact(list: seq<TaskId>, j: nat)
    ensures forall t :: t in Targets(list, j) <==> t in list && t.jobId == j
    ensures NoDuplicates(list) ==> NoDuplicates(Targets(list, j))
  {
    OfJobExact(list, |list|, j);
    assert list[..|list|] == list;
  }

  predicate SameTotal(list: seq<TaskId>, total: nat) {
    forall t | t in list :: t.numTasks == total
  }

  ghost predicate AllComplete(list: seq<TaskId>, total: nat) {
    SameTotal(list, total) && forall j: nat | Targets(list, j) != [] :: Complete(Targets(list, j), total)
  }

  method CheckTotals(list: seq<TaskId>, total: nat) returns (same: bool)
    ensures same <==> SameTotal(list, total)
  {
    for i := 0 to |list|
      invariant forall k | 0 <= k < i :: list[k].numTasks == total
    {
      if list[i].numTasks != total {
        assert list[i] in list;
        return false;
      }
    }
    return true;
  }

  /** The senders of a network channel: every job's tasks by number, or a panic if one is missing. */
  method OpenNetwork(list: seq<TaskId>) returns (r: Outcome<Senders>)
    requires list != [] && NoDuplicates(list)
    ensures r.Done? <==> AllComplete(list, list[0].numTasks)
    ensures r.Done? ==> exists jobs :: AreJobsOf(jobs, list) && Entries(r.value, jobs)
    ensures r.Done? ==> forall i | 0 <= i < |r.value| :: r.value[i].1 == Numbered(r.value[i].0, list[0].numTasks)
  {
    var total := list[0].numTasks;
    var same := CheckTotals(list, total);
    if !same {
      return Panic;
    }
    var groups := GroupByJob(list);
    GroupsAreJobs(groups, list);
    var senders: Senders, todo := [], groups.Keys;
    while todo != {}
      invariant todo <= groups.Keys && Entries(senders, groups.Keys - todo)
      invariant forall j | j in groups && j !in todo :: Complete(Targets(list, j), total)
      invariant forall i | 0 <= i < |senders| :: senders[i].1 == Numbered(senders[i].0, total)
    {
      var j :| j in todo;
      TargetsExact(list, j);
      var sorted := SortSenders(groups[j], j, total);
      if sorted.Panic? {
        return Panic;
      }
      EntriesSnoc(senders, groups.Keys - todo, (j, sorted.value));
      assert groups.Keys - todo + {j} == groups.Keys - (todo - {j});
      senders, todo := senders + [(j, sorted.value)], todo - {j};
    }
    assert groups.Keys - todo == groups.Keys;
    return Done(senders);
  }

  // ----- memory channels

  predicate SameNumber(list: seq<TaskId>, number: nat) {
    forall t | t in list :: t.taskNumber == number
  }

  /** A memory target has the sender's number, and is alone in its job. */
  ghost predicate AllPaired(list: seq<TaskId>, number: nat) {
    SameNumber(list, number) && forall j: nat | Targets(list, j) != [] :: |Targets(list, j)| == 1
  }

  method CheckNumbers(list: seq<TaskId>, number: nat) returns (same: bool)
    ensures same <==> SameNumber(list, number)
  {
    for i := 0 to |list|
      invariant forall k | 0 <= k < i :: list[k].taskNumber == number
    {
      if list[i].taskNumber != number {
        assert list[i] in list;
        return false;
      }
    }
    return true;
  }

  method OpenMemory(task: TaskId, list: seq<TaskId>) returns (r: Outcome<Senders>)
    ensures r.Done? <==> AllPaired(list, task.taskNumber)
    ensures r.Done? ==> exists jobs :: AreJobsOf(jobs, list) && Entries(r.value, jobs)
    ensures r.Done? ==> forall i | 0 <= i < |r.value| :: r.value[i].1 == Targets(list, r.value[i].0)
  {
    var same := CheckNumbers(list, task.taskNumber);
    if !same {
      return Panic;
    }
    var groups := GroupByJob(list);
    GroupsAreJobs(groups, list);
    r := PairGroups(groups);
  }

  /** One sender for each job; a job with several is the panic. */
  method PairGroups(groups: map<nat, seq<TaskId>>) returns (r: Outcome<Senders>)
    ensures r.Done? <==> forall j | j in groups :: |groups[j]| == 1
    ensures r.Done? ==> Entries(r.value, groups.Keys)
    ensures r.Done? ==> forall i | 0 <= i < |r.value| :: r.value[i].0 in groups && r.value[i].1 == groups[r.value[i].0]
  {
    var senders: Senders, todo := [], groups.Keys;
    while todo != {}
      invariant todo <= groups.Keys && Entries(senders, groups.Keys - todo)
      invariant forall j | j in groups && j !in todo :: |groups[j]| == 1
      invariant forall i | 0 <= i < |senders| :: senders[i].0 in groups && senders[i].1 == groups[senders[i].0]
    {
      var j :| j in todo;
      if |groups[j]| != 1 {
        return Panic;
      }
      EntriesSnoc(senders, groups.Keys - todo, (j, groups[j]));
      assert groups.Keys - todo + {j} == groups.Keys - (todo - {j});
      senders, todo := senders + [(j, groups[j])], todo - {j};
    }
    assert groups.Keys - todo == groups.Keys;
    return Done(senders);
  }

  // ----- opening and writing

  type Child = (TaskId, ExecutionEdge)

  function OfKind(children: seq<Child>, kind: ExecutionEdge, n: nat): seq<TaskId>
    requires n <= |children|
  {
    if n == 0 then [] else
      OfKind(children, kind, n - 1) + (if children[n - 1].1 == kind then [children[n - 1].0] else [])
  }

  function Through(children: seq<Child>, kind: ExecutionEdge): seq<TaskId> {
    OfKind(children, kind, |children|)
  }

  ghost predicate DistinctTasks(children: seq<Child>) {
    forall a, b | 0 <= a < b < |children| :: children[a].0 != children[b].0
  }

  lemma {:induction false} OfKindExact(children: seq<Child>, kind: ExecutionEdge, n: nat)
    requires n <= |children| && DistinctTasks(children)
    ensures forall t :: t in OfKind(children, kind, n) <==> exists i :: 0 <= i < n && children[i] == (t, kind)
    ensures NoDuplicates(OfKind(children, kind, n))
  {
    if n > 0 {
      var front := OfKind(children, kind, n - 1);
      OfKindExact(children, kind, n - 1);
      forall k | 0 <= k < |front| ensures front[k] != children[n - 1].0 {
        assert front[k] in front;
      }
    }
  }

  /** When opening does not panic. */
  ghost predicate CanOpen(task: TaskId, children: seq<Child>) {
    var memory, network := Through(children, Memory), Through(children, Network);
    if memory == [] then network != [] && AllComplete(network, network[0].numTasks)
    else network == [] && AllPaired(memory, task.taskNumber)
  }

  /** The sender a partition selects in each entry: through memory there is one. */
  function Index(channel: ExecutionEdge, partition: nat): nat {
    if channel == Memory then 0 else partition
  }

  /** An element as it is handed to a sender: through memory it names its channel. */
  function Addressed(channel: ExecutionEdge, from: TaskId, to: TaskId, e: Routed): Routed {
    if channel == Memory then SetKey(e, ChannelKey(from, to)) else e
  }

  /** The copy `x` of `e` that goes from one task to another: only the partition, as given, and through memory the key may differ. */
  predicate IsCopy(channel: ExecutionEdge, from: TaskId, to: TaskId, e: Routed, partition: nat, x: Routed) {
    && SameContent(e, x) && x.partition == partition
    && KeyOf(x) == (if channel == Memory && KeyOf(e).Some? then Some(ChannelKey(from, to)) else KeyOf(e))
  }

  class SystemOutputFormat {
    var task: TaskId
    var channel: ExecutionEdge
    var senders: Senders

    constructor ()
      ensures senders == []
    {
      task, channel, senders := TaskId(0, 0, 0), Memory, [];
    }

    method SplitByKind(children: seq<Child>) returns (memory: seq<TaskId>, network: seq<TaskId>)
      ensures memory == Through(children, Memory) && network == Through(children, Network)
    {
      memory, network := [], [];
      for i := 0 to |children|
        invariant memory == OfKind(children, Memory, i) && network == OfKind(children, Network, i)
      {
        match children[i].1
        case Memory => memory := memory + [children[i].0];
        case Network => network := network + [children[i].0];
      }
    }

    /** `ok` is false for a panic. */
    method Open(task: TaskId, children: seq<Child>) returns (ok: bool)
      requires DistinctTasks(children)
      modifies this
      ensures ok <==> CanOpen(task, children)
      ensures ok ==> this.task == task && channel == if Through(children, Memory) != [] then Memory else Network
      ensures ok ==> exists jobs :: AreJobsOf(jobs, Through(children, channel)) && Entries(senders, jobs)
      ensures ok && channel == Memory ==>
        forall i | 0 <= i < |senders| :: senders[i].1 == Targets(Through(children, Memory), senders[i].0)
      ensures ok && channel == Network ==> Through(children, Network) != []
      ensures ok && channel == Network ==>
        forall i | 0 <= i < |senders| :: senders[i].1 == Numbered(senders[i].0, Through(children, Network)[0].numTasks)
    {
      this.task := task;
      var memory, network := SplitByKind(children);
      if memory == [] && network == [] {
        return false;
      }
      if memory != [] && network != [] {
        return false;
      }
      var r;
      if memory != [] {
        channel := Memory;
        r := OpenMemory(task, memory);
      } else {
        OfKindExact(children, Network, |children|);
        channel := Network;
        r := OpenNetwork(network);
      }
      if r.Panic? {
        return false;
      }
      senders := r.value;
      return true;
    }

    /** Sends to one task of each child job, in the order of the jobs; a partition without a sender is a panic. */
    method WriteElement(e: Routed) returns (r: Outcome<seq<(TaskId, Routed)>>)
      ensures r.Done? <==> forall i | 0 <= i < |senders| :: Index(channel, e.partition) < |senders[i].1|
      ensures r.Done? ==> |r.value| == |senders|
      ensures r.Done? ==> forall i | 0 <= i < |senders| ::
        r.value[i].0 == senders[i].1[Index(channel, e.partition)] && IsCopy(channel, task, r.value[i].0, e, e.partition, r.value[i].1)
    {
      var index := Index(channel, e.partition);
      var sent: seq<(TaskId, Routed)> := [];
      for i := 0 to |senders|
        invariant |sent| == i && forall k | 0 <= k < i :: index < |senders[k].1|
        invariant forall k | 0 <= k < i ::
          sent[k].0 == senders[k].1[index] && IsCopy(channel, task, sent[k].0, e, e.partition, sent[k].1)
      {
        if index >= |senders[i].1| {
          return Panic;
        }
        var to := senders[i].1[index];
        sent := sent + [(to, Addressed(channel, task, to, e))];
      }
      return Done(sent);
    }
  }

  // ----- the senders of a task of the execution graph

  /** The children of `t` in the execution graph, in any order. */
  ghost predicate AreChildren(par: Jobs, jobEdges: map<Edge, JobEdge>, t: TaskId, children: seq<Child>) {
    && DistinctTasks(children)
    && forall u, kind :: (exists i :: 0 <= i < |children| && children[i] == (u, kind)) <==>
         Joined(par, jobEdges, t, u) && kind == KindOf(jobEdges[(t.jobId, u.jobId)])
  }

  ghost predicate OnlyChildJob(jobEdges: map<Edge, JobEdge>, j: nat, c: nat) {
    (j, c) in jobEdges && forall d | (j, d) in jobEdges :: d == c
  }

  lemma {:induction false} TargetsOfOneJob(list: seq<TaskId>, n: nat, c: nat)
    requires n <= |list| && forall t | t in list :: t.jobId == c
    ensures OfJob(list, n, c) == list[..n]
  {
    if n > 0 {
      TargetsOfOneJob(list, n - 1, c);
      assert list[n - 1] in list && list[..n] == list[..n - 1] + [list[n - 1]];
    }
  }

  /** The targets through one kind of channel: those of the child job if its edge is of that kind, else none. */
  lemma TargetsThrough(par: Jobs, jobEdges: map<Edge, JobEdge>, t: TaskId, children: seq<Child>, c: nat, kind: ExecutionEdge)
    requires AreChildren(par, jobEdges, t, children) && OnlyChildJob(jobEdges, t.jobId, c)
    ensures NoDuplicates(Through(children, kind))
    ensures forall u :: u in Through(children, kind) <==>
      Joined(par, jobEdges, t, u) && u.jobId == c && kind == KindOf(jobEdges[(t.jobId, c)])
  {
    OfKindExact(children, kind, |children|);
  }

  /** Across a `Forward` edge there is one target, of the task's own number. */
  lemma ForwardTargets(par: Jobs, jobEdges: map<Edge, JobEdge>, t: TaskId, children: seq<Child>, c: nat)
    requires WellJoined(par, jobEdges) && IsTask(par, t)
    requires AreChildren(par, jobEdges, t, children) && OnlyChildJob(jobEdges, t.jobId, c)
    requires jobEdges[(t.jobId, c)] == Forward
    ensures Through(children, Memory) == [TaskId(c, t.taskNumber, t.numTasks)] && Through(children, Network) == []
  {
    TargetsThrough(par, jobEdges, t, children, c, Memory);
    TargetsThrough(par, jobEdges, t, children, c, Network);
    var u, memory, network := TaskId(c, t.taskNumber, t.numTasks), Through(children, Memory), Through(children, Network);
    assert u in memory && forall x | x in memory :: x == u;
    assert (set x | x in memory) == {u};
    DistinctIffCount(memory);
    assert (set x | x in network) == {};
    DistinctIffCount(network);
  }

  /** Across a `ReBalance` edge the targets are all tasks of the child job. */
  lemma ReBalanceTargets(par: Jobs, jobEdges: map<Edge, JobEdge>, t: TaskId, children: seq<Child>, c: nat)
    requires WellJoined(par, jobEdges) && IsTask(par, t) && c in par && par[c] > 0
    requires AreChildren(par, jobEdges, t, children) && OnlyChildJob(jobEdges, t.jobId, c)
    requires jobEdges[(t.jobId, c)] == ReBalance
    ensures Through(children, Memory) == []
    ensures var network := Through(children, Network);
      network != [] && Targets(network, c) == network && |network| == par[c] && SameTotal(network, par[c])
      && Complete(network, par[c]) && forall u | u in network :: u.jobId == c
  {
    TargetsThrough(par, jobEdges, t, children, c, Memory);
    TargetsThrough(par, jobEdges, t, children, c, Network);
    var memory, network := Through(children, Memory), Through(children, Network);
    assert (set x | x in memory) == {};
    DistinctIffCount(memory);
    AllTasksOfJob(par, network, c);
  }

  lemma AllTasksOfJob(par: Jobs, list: seq<TaskId>, c: nat)
    requires c in par && par[c] > 0 && NoDuplicates(list) && forall u :: u in list <==> IsTask(par, u) && u.jobId == c
    ensures list != [] && Targets(list, c) == list && |list| == par[c]
    ensures SameTotal(list, par[c]) && Complete(list, par[c])
  {
    DistinctIffCount(list);
    TaskSetCount(par, c);
    assert (set u | u in list) == (set u | u in TasksOf(par, c));
    TargetsOfOneJob(list, |list|, c);
    assert list[..|list|] == list;
  }

  lemma OneEntry(senders: Senders, list: seq<TaskId>, jobs: set<nat>, c: nat)
    requires list != [] && (forall u | u in list :: u.jobId == c) && AreJobsOf(jobs, list) && Entries(senders, jobs)
    ensures |senders| == 1 && senders[0].0 == c
  {
    assert |senders| >= 2 ==> senders[0].0 != senders[1].0;
    assert forall i | 0 <= i < |senders| :: senders[i].0 in jobs;
    forall j | j in jobs ensures j == c {
      TargetsExact(list, j);
      assert Targets(list, j)[0] in Targets(list, j);
    }
    TargetsExact(list, c);
    assert list[0] in list && list[0] in Targets(list, c);
    assert c in jobs;
  }

  /** What the sender table of a task is: its own counterpart, or all tasks of the child job in order. */
  function Table(par: Jobs, jobEdges: map<Edge, JobEdge>, t: TaskId, c: nat): Senders
    requires (t.jobId, c) in jobEdges && c in par
  {
    [(c, if jobEdges[(t.jobId, c)] == Forward then [TaskId(c, t.taskNumber, t.numTasks)] else TasksOf(par, c))]
  }

  /** The output of a task towards its child job, as it is after opening. */
  ghost predicate Opened(output: SystemOutputFormat, par: Jobs, jobEdges: map<Edge, JobEdge>, t: TaskId, c: nat)
    requires (t.jobId, c) in jobEdges && c in par
    reads output
  {
    output.task == t && output.channel == KindOf(jobEdges[(t.jobId, c)]) && output.senders == Table(par, jobEdges, t, c)
  }

  /**
   * Opening the output of a task that has a child job never panics: no task is lost, no number
   * or total conflicts, and both kinds of channel are not mixed. The table is complete and ordered.
   */
  method OpenTask(par: Jobs, jobEdges: map<Edge, JobEdge>, t: TaskId, children: seq<Child>, c: nat, output: SystemOutputFormat)
    requires WellJoined(par, jobEdges) && IsTask(par, t) && OnlyChildJob(jobEdges, t.jobId, c)
    requires forall j | j in par :: par[j] > 0
    requires AreChildren(par, jobEdges, t, children)
    modifies output
    ensures Opened(output, par, jobEdges, t, c)
  {
    ghost var list := Through(children, KindOf(jobEdges[(t.jobId, c)]));
    if jobEdges[(t.jobId, c)] == Forward {
      ForwardTargets(par, jobEdges, t, children, c);
      PairedAlone(list[0]);
    } else {
      ReBalanceTargets(par, jobEdges, t, children, c);
      CompleteForOneJob(list, c, par[c]);
    }
    var ok := output.Open(t, children);
    ghost var jobs :| AreJobsOf(jobs, list) && Entries(output.senders, jobs);
    OneEntry(output.senders, list, jobs, c);
    assert output.senders == [output.senders[0]];
  }

  lemma PairedAlone(u: TaskId)
    ensures AllPaired([u], u.taskNumber) && Targets([u], u.jobId) == [u]
  {
    forall j: nat ensures Targets([u], j) == if u.jobId == j then [u] else [] {
      assert OfJob([u], 0, j) == [];
    }
  }

  lemma CompleteForOneJob(list: seq<TaskId>, c: nat, total: nat)
    requires list != [] && (forall u | u in list :: u.jobId == c) && SameTotal(list, total)
    requires Targets(list, c) == list && Complete(list, total)
    ensures AllComplete(list, list[0].numTasks) && list[0].numTasks == total
  {
    assert list[0] in list;
    forall j: nat | Targets(list, j) != [] ensures Complete(Targets(list, j), total) {
      TargetsExact(list, j);
      assert Targets(list, j)[0] in Targets(list, j);
    }
  }

  // ----- partitions

  /** `hash % partition_size`, the size being the parallelism of the child job. */
  function Partition(hash: nat, size: nat): nat
    requires size > 0
  {
    hash % size
  }

  class KeyByRunnable {
    var partitionSize: nat

    constructor ()
      ensures partitionSize == 0
    {
      partitionSize := 0;
    }

    method Open(childParallelism: nat)
      modifies this
      ensures partitionSize == childParallelism
    {
      partitionSize := childParallelism;
    }

    /** Sets the partition of a record, whose key may have no hash; a size of 0 is a panic. Other elements pass. */
    method Run(e: Routed, hash: Option<nat>) returns (r: Outcome<Routed>)
      requires partitionSize < 0x1_0000
      ensures r.Panic? <==> e.RoutedRecord? && partitionSize == 0
      ensures r.Done? && e.RoutedRecord? ==> SameContent(e, r.value) && KeyOf(r.value) == KeyOf(e)
      ensures r.Done? && e.RoutedRecord? && hash.None? ==> r.value.partition == 0
      ensures r.Done? && e.RoutedRecord? && hash.Some? ==> r.value.partition == hash.value % partitionSize
      ensures !e.RoutedRecord? ==> r == Done(e)
    {
      if !e.RoutedRecord? {
        return Done(e);
      }
      if partitionSize == 0 {
        return Panic;
      }
      var partition := HashOf(hash) % partitionSize;
      return Done(SetPartition(e, partition % 0x1_0000));
    }
  }

  /** `hash_code(..).unwrap_or(0)`. */
  function HashOf(hash: Option<nat>): nat {
    if hash.Some? then hash.value else 0
  }

  /** The child task for a key: across `Forward` the task's own counterpart, whatever the hash. */
  function TaskFor(par: Jobs, jobEdges: map<Edge, JobEdge>, t: TaskId, c: nat, hash: nat): TaskId
    requires (t.jobId, c) in jobEdges && c in par && par[c] > 0
  {
    if jobEdges[(t.jobId, c)] == Forward then TaskId(c, t.taskNumber, t.numTasks) else TaskId(c, hash % par[c], par[c])
  }

  /** After key-by a record always has a sender. */
  lemma KeyedRecordHasASender(par: Jobs, jobEdges: map<Edge, JobEdge>, t: TaskId, c: nat, hash: nat)
    requires WellJoined(par, jobEdges) && IsTask(par, t) && (t.jobId, c) in jobEdges && c in par && par[c] > 0
    ensures var senders, index := Table(par, jobEdges, t, c)[0].1, Index(KindOf(jobEdges[(t.jobId, c)]), Partition(hash, par[c]));
      index < |senders| && senders[index] == TaskFor(par, jobEdges, t, c, hash) && IsTask(par, senders[index])
  {
    if jobEdges[(t.jobId, c)] == ReBalance {
      assert TasksOf(par, c)[hash % par[c]] == TaskId(c, hash % par[c], par[c]);
    }
  }

  /** Key-by and sink together: a record reaches exactly one task of the child job, and its partition is set. */
  method SendKeyed(keyBy: KeyByRunnable, output: SystemOutputFormat, e: Routed, hash: Option<nat>,
                   par: Jobs, jobEdges: map<Edge, JobEdge>, t: TaskId, c: nat)
    returns (r: Outcome<seq<(TaskId, Routed)>>)
    requires WellJoined(par, jobEdges) && IsTask(par, t) && (t.jobId, c) in jobEdges && c in par
    requires Opened(output, par, jobEdges, t, c) && keyBy.partitionSize == par[c] && 0 < par[c] < 0x1_0000 && e.RoutedRecord?
    ensures r.Done? && |r.value| == 1
    ensures var partition := match hash case None => 0 case Some(h) => h % par[c];
      && IsCopy(output.channel, t, r.value[0].0, e, partition, r.value[0].1)
      && (jobEdges[(t.jobId, c)] == Forward ==> r.value[0].0 == TaskId(c, t.taskNumber, t.numTasks))
      && (jobEdges[(t.jobId, c)] == ReBalance ==> r.value[0].0 == TaskId(c, partition, par[c]))
  {
    KeyedRecordHasASender(par, jobEdges, t, c, HashOf(hash));
    var keyed := keyBy.Run(e, hash);
    assert keyed.value.partition == Partition(HashOf(hash), par[c]);
    r := output.WriteElement(keyed.value);
  }

  /** The aggregation's owner of a key is the task that key-by and sink select for it. */
  lemma OwnerIsSelected(job: Aggregation.Job, key: Bytes, par: Jobs, jobEdges: map<Edge, JobEdge>, t: TaskId, c: nat)
    requires WellJoined(par, jobEdges) && IsTask(par, t) && (t.jobId, c) in jobEdges && jobEdges[(t.jobId, c)] == ReBalance
    requires c in par && par[c] == job.reducers > 0
    ensures var senders, index := Table(par, jobEdges, t, c)[0].1, Partition(job.hash(key), par[c]);
      index < |senders| && senders[index] == TaskId(c, Aggregation.Owner(job, key), par[c])
  {
    KeyedRecordHasASender(par, jobEdges, t, c, job.hash(key));
  }

  /** A partition selects a sender exactly when it is below the child's parallelism. */
  lemma SenderExistsIff(par: Jobs, jobEdges: map<Edge, JobEdge>, t: TaskId, c: nat, partition: nat)
    requires (t.jobId, c) in jobEdges && jobEdges[(t.jobId, c)] == ReBalance && c in par
    ensures Index(Network, partition) < |Table(par, jobEdges, t, c)[0].1| <==> partition < par[c]
  {
  }

  /** The sink's loop over the partitions for an element that is no record: every child task gets it once. */
  method Broadcast(output: SystemOutputFormat, childParallelism: nat, e: Routed, par: Jobs, jobEdges: map<Edge, JobEdge>, t: TaskId, c: nat)
    returns (sent: Outcome<seq<(TaskId, Routed)>>)
    requires (t.jobId, c) in jobEdges && c in par && par[c] > 0 && Opened(output, par, jobEdges, t, c)
    requires childParallelism == if jobEdges[(t.jobId, c)] == Forward then 0 else par[c]
    ensures sent.Done? && |sent.value| == if childParallelism > 0 then par[c] else 1
    ensures jobEdges[(t.jobId, c)] == Forward ==>
      sent.value[0].0 == TaskId(c, t.taskNumber, t.numTasks) && IsCopy(Memory, t, sent.value[0].0, e, e.partition, sent.value[0].1)
    ensures jobEdges[(t.jobId, c)] == ReBalance ==> forall i | 0 <= i < par[c] ::
      sent.value[i].0 == TaskId(c, i, par[c]) && IsCopy(Network, t, sent.value[i].0, e, i, sent.value[i].1)
  {
    if childParallelism > 0 {
      var all: seq<(TaskId, Routed)> := [];
      for index := 0 to childParallelism
        invariant |all| == index
        invariant forall i | 0 <= i < index ::
          all[i].0 == TaskId(c, i, par[c]) && IsCopy(Network, t, all[i].0, e, i, all[i].1)
      {
        var one := output.WriteElement(SetPartition(e, index));
        assert |one.value| == 1;
        all := all + one.value;
      }
      return Done(all);
    } else {
      sent := output.WriteElement(e);
    }
  }
}
