/** The watermark of a task with several parents: `ParentWatermark` and `WatermarkManager` of `source_runnable.rs`. */
module WatermarkManager {
  import opened Prelude
  import opened Elements

  type JobId = nat

  datatype ParentWatermark = ParentWatermark(latest: Option<nat>, isDependency: bool)

  type Reached = map<JobId, seq<ParentWatermark>>

  /** `update_watermark`: a marker above MAX_WATERMARK is assigned without comparing. */
  function Update(latest: Option<nat>, w: nat): Option<nat> {
    match latest
    case None => Some(w)
    case Some(x) => if w > MAX_WATERMARK || w >= x then Some(w) else latest
  }

  function NewManager(parentJobs: map<JobId, seq<bool>>): Reached {
    map job | job in parentJobs ::
      seq(|parentJobs[job]|, (t: nat) requires t < |parentJobs[job]| => ParentWatermark(None, parentJobs[job][t]))
  }

  ghost predicate Silent(m: Reached) {
    forall job, task | job in m && 0 <= task < |m[job]| :: m[job][task].latest.None?
  }

  predicate DependsOn(m: Reached, job: JobId, task: nat) {
    job in m && task < |m[job]| && m[job][task].isDependency
  }

  /** Nothing while a parent task it depends on is silent, else the least of their latest watermarks. */
  ghost predicate IsMinWatermark(m: Reached, r: Option<nat>) {
    match r
    case None =>
      || (exists job, task: nat :: DependsOn(m, job, task) && m[job][task].latest.None?)
      || (forall job, task: nat :: !DependsOn(m, job, task))
    case Some(x) =>
      && (forall job, task: nat | DependsOn(m, job, task) :: m[job][task].latest.Some? && x <= m[job][task].latest.value)
      && (exists job, task: nat :: DependsOn(m, job, task) && m[job][task].latest == Some(x))
  }

  lemma MinWatermarkUnique(m: Reached, r: Option<nat>, r': Option<nat>)
    requires IsMinWatermark(m, r) && IsMinWatermark(m, r')
    ensures r == r'
  {
  }

  /** The output of `min_watermark`, whatever the order of the scan. */
  ghost function MinWatermarkOf(m: Reached): (r: Option<nat>)
    ensures IsMinWatermark(m, r)
  {
    MinWatermarkExists(m);
    var r :| IsMinWatermark(m, r);
    r
  }

  lemma MinWatermarkExists(m: Reached)
    ensures exists r :: IsMinWatermark(m, r)
  {
    if (exists job, task: nat :: DependsOn(m, job, task) && m[job][task].latest.None?)
       || (forall job, task: nat :: !DependsOn(m, job, task)) {
      assert IsMinWatermark(m, None);
    } else {
      var values := set job, task | job in m && 0 <= task < |m[job]| && DependsOn(m, job, task) :: m[job][task].latest.value;
      var job, task: nat :| DependsOn(m, job, task);
      assert m[job][task].latest.value in values;
      var x := MinOf(values);
      var job', task' :| job' in m && 0 <= task' < |m[job']| && DependsOn(m, job', task') && m[job'][task'].latest.value == x;
      forall j, t: nat | DependsOn(m, j, t) ensures m[j][t].latest.Some? && x <= m[j][t].latest.value {
        assert m[j][t].latest.value in values;
      }
      assert DependsOn(m, job', task') && m[job'][task'].latest == Some(x);
      assert IsMinWatermark(m, Some(x));
    }
  }

  class Manager {
    var reached: Reached

    /** All tasks of all parent jobs, none of which has sent anything. */
    constructor (parentJobs: map<JobId, seq<bool>>)
      ensures reached.Keys == parentJobs.Keys && Silent(reached)
      ensures forall job | job in parentJobs :: |reached[job]| == |parentJobs[job]|
      ensures forall job, task: nat | job in parentJobs && task < |parentJobs[job]| ::
        DependsOn(reached, job, task) <==> parentJobs[job][task]
    {
      reached := NewManager(parentJobs);
    }

    /** The scan of `min_watermark`, over the jobs in whatever order the map yields them. */
    method MinWatermark() returns (r: Option<nat>)
      ensures IsMinWatermark(reached, r)
    {
      r := None;
      var jobs := reached.Keys;
      while jobs != {}
        invariant jobs <= reached.Keys
        invariant MinOver(reached, reached.Keys - jobs, r)
        decreases jobs
      {
        var job :| job in jobs;
        var i := 0;
        while i < |reached[job]|
          invariant 0 <= i <= |reached[job]|
          invariant MinOverPrefix(reached, reached.Keys - jobs, job, i, r)
        {
          var p := reached[job][i];
          if p.isDependency {
            match p.latest
            case None =>
              assert DependsOn(reached, job, i);
              r := None;
              return;
            case Some(w) =>
              if r.None? || w < r.value {
                r := Some(w);
              }
          }
          i := i + 1;
        }
        jobs := jobs - {job};
      }
    }

    /** `apply` for a watermark that comes from the given parent task. */
    method Apply(job: JobId, task: nat, timestamp: nat) returns (r: Outcome<Option<nat>>)
      modifies this
      ensures r.Panic? <==> old(reached) != map[] && !DependsOn(old(reached), job, task)
      ensures r.Panic? ==> reached == old(reached)
      ensures old(reached) == map[] ==> r == Done(Some(timestamp)) && reached == old(reached)
      ensures DependsOn(old(reached), job, task) ==>
        && reached == Set(old(reached), job, task, timestamp)
        && r.Done? && IsMinWatermark(reached, r.value)
    {
      if reached == map[] {
        return Done(Some(timestamp));
      }
      if job !in reached {
        return Panic;
      }
      if task >= |reached[job]| {
        return Panic;
      }
      if !reached[job][task].isDependency {
        return Panic;
      }
      reached := Set(reached, job, task, timestamp);
      var w := MinWatermark();
      r := Done(w);
    }

    /** `watermark_job_check`: the first status of a task that has sent no watermark removes its whole job. */
    method JobCheck(job: JobId, task: nat) returns (r: Outcome<()>)
      modifies this
      ensures r.Panic? <==> job in old(reached) && task >= |old(reached)[job]|
      ensures reached == if r.Panic? then old(reached) else Check(old(reached), job, task)
    {
      if job in reached {
        if task >= |reached[job]| {
          return Panic;
        }
        if reached[job][task].latest.None? {
          reached := reached - {job};
        }
      }
      r := Done(());
    }
  }

  /** `r` is the least latest watermark of the dependencies seen so far, all of which have one. */
  ghost predicate MinOver(m: Reached, jobs: set<JobId>, r: Option<nat>) {
    && (forall job, task: nat | job in jobs && DependsOn(m, job, task) ::
          m[job][task].latest.Some? && r.Some? && r.value <= m[job][task].latest.value)
    && (r.Some? ==> exists job, task: nat :: job in jobs && DependsOn(m, job, task) && m[job][task].latest == r)
  }

  ghost predicate MinOverPrefix(m: Reached, jobs: set<JobId>, next: JobId, n: nat, r: Option<nat>) {
    && (forall job, task: nat | (job in jobs || (job == next && task < n)) && DependsOn(m, job, task) ::
          m[job][task].latest.Some? && r.Some? && r.value <= m[job][task].latest.value)
    && (r.Some? ==> exists job, task: nat ::
          (job in jobs || (job == next && task < n)) && DependsOn(m, job, task) && m[job][task].latest == r)
  }

  // ----- runs

  datatype Event = Arrived(job: JobId, task: nat, timestamp: nat) | Status(job: JobId, task: nat)

  function Set(m: Reached, job: JobId, task: nat, timestamp: nat): Reached
    requires DependsOn(m, job, task)
  {
    m[job := m[job][task := m[job][task].(latest := Update(m[job][task].latest, timestamp))]]
  }

  function Check(m: Reached, job: JobId, task: nat): Reached {
    if job in m && task < |m[job]| && m[job][task].latest.None? then m - {job} else m
  }

  function Next(m: Reached, e: Event): Reached {
    match e
    case Arrived(job, task, timestamp) =>
      if DependsOn(m, job, task) then Set(m, job, task, timestamp) else m
    case Status(job, task) => Check(m, job, task)
  }

  function After(m: Reached, events: seq<Event>): Reached {
    if events == [] then m else Next(After(m, events[..|events| - 1]), events[|events| - 1])
  }

  /** Watermarks come only from parents that are depended on and whose job has not been removed. */
  ghost predicate Proper(m: Reached, events: seq<Event>) {
    forall n | 0 <= n < |events| ::
      events[n].Arrived? ==> DependsOn(After(m, events[..n]), events[n].job, events[n].task)
  }

  /** The watermarks one parent task has sent. */
  function Sent(events: seq<Event>, job: JobId, task: nat): seq<nat> {
    if events == [] then []
    else
      var e := events[|events| - 1];
      Sent(events[..|events| - 1], job, task) +
      (if e.Arrived? && e.job == job && e.task == task then [e.timestamp] else [])
  }

  function LatestOf(s: seq<nat>): Option<nat> {
    if s == [] then None else Update(LatestOf(s[..|s| - 1]), s[|s| - 1])
  }

  function RunningMax(s: seq<nat>): Option<nat> {
    if s == [] then None
    else
      var m, x := RunningMax(s[..|s| - 1]), s[|s| - 1];
      if m.None? || x >= m.value then Some(x) else m
  }

  /** Markers above MAX_WATERMARK, which are not compared, come in non-decreasing order. */
  ghost predicate MarkersInOrder(s: seq<nat>) {
    forall i, j | 0 <= i < j < |s| :: s[i] > MAX_WATERMARK && s[j] > MAX_WATERMARK ==> s[i] <= s[j]
  }

  lemma {:induction false} RunningMaxIsMax(s: seq<nat>)
    ensures RunningMax(s).None? <==> s == []
    ensures s != [] ==> RunningMax(s).value in s && forall x | x in s :: x <= RunningMax(s).value
  {
    if s != [] {
      RunningMaxIsMax(s[..|s| - 1]);
      assert s == s[..|s| - 1] + [s[|s| - 1]];
    }
  }

  ghost predicate AlwaysRunningMax(s: seq<nat>) {
    forall n | 0 <= n <= |s| :: LatestOf(s[..n]) == RunningMax(s[..n])
  }

  lemma AlwaysRunningMaxOfFront(s: seq<nat>, x: nat)
    ensures AlwaysRunningMax(s + [x]) <==> AlwaysRunningMax(s) && LatestOf(s + [x]) == RunningMax(s + [x])
  {
    var s' := s + [x];
    assert s'[..|s'|] == s';
    assert forall n | 0 <= n <= |s| :: s'[..n] == s[..n];
  }

  lemma MarkersInOrderOfFront(s: seq<nat>, x: nat)
    ensures MarkersInOrder(s + [x]) <==>
      MarkersInOrder(s) && (x > MAX_WATERMARK ==> forall y | y in s && y > MAX_WATERMARK :: y <= x)
  {
    var s' := s + [x];
    assert forall i | 0 <= i < |s| :: s'[i] == s[i] && s[i] in s;
    if MarkersInOrder(s') {
      forall y | y in s && y > MAX_WATERMARK && x > MAX_WATERMARK ensures y <= x {
        var k :| 0 <= k < |s| && s[k] == y;
        assert s'[k] > MAX_WATERMARK && s'[|s|] > MAX_WATERMARK;
      }
    }
  }

  /**
   * A parent's entry is the running maximum of what it has sent, at every point of the run,
   * exactly when its markers above MAX_WATERMARK come in order.
   */
  lemma {:induction false} LatestIsRunningMax(s: seq<nat>)
    ensures AlwaysRunningMax(s) <==> MarkersInOrder(s)
  {
    if s == [] {
      assert s[..0] == [];
    } else {
      var front, x := s[..|s| - 1], s[|s| - 1];
      assert s == front + [x];
      LatestIsRunningMax(front);
      AlwaysRunningMaxOfFront(front, x);
      MarkersInOrderOfFront(front, x);
      if AlwaysRunningMax(front) {
        assert front[..|front|] == front;
        assert LatestOf(front) == RunningMax(front);
        RunningMaxIsMax(front);
      }
    }
  }

  /** The table after a run: a job that remains holds what each of its tasks has sent. */
  lemma {:induction false} TableFollowsHistory(m: Reached, events: seq<Event>, job: JobId, task: nat)
    requires Silent(m)
    requires Proper(m, events)
    ensures job in After(m, events) ==> job in m && |After(m, events)[job]| == |m[job]|
    ensures job in After(m, events) && task < |m[job]| ==>
      && After(m, events)[job][task].isDependency == m[job][task].isDependency
      && After(m, events)[job][task].latest == LatestOf(Sent(events, job, task))
  {
    if events != [] {
      var front, e := events[..|events| - 1], events[|events| - 1];
      assert Proper(m, front) by {
        forall n | 0 <= n < |front| && front[n].Arrived?
          ensures DependsOn(After(m, front[..n]), front[n].job, front[n].task)
        {
          assert front[..n] == events[..n] && front[n] == events[n];
        }
      }
      TableFollowsHistory(m, front, job, task);
      var was := Sent(front, job, task);
      assert e.Arrived? ==> (was + [e.timestamp])[..|was|] == was;
      assert was + [] == was;
    }
  }

  /** No task of the job has sent a status before its first watermark. */
  ghost predicate Remains(m: Reached, events: seq<Event>, job: JobId) {
    && job in m
    && forall n, task: nat | 0 <= n < |events| && task < |m[job]| && events[n] == Status(job, task) ::
         Sent(events[..n], job, task) != []
  }

  lemma RemainsSnoc(m: Reached, events: seq<Event>, e: Event, job: JobId)
    ensures Remains(m, events + [e], job) <==>
      && Remains(m, events, job)
      && (e.Status? && e.job == job && e.task < |m[job]| ==> Sent(events, job, e.task) != [])
  {
    var all := events + [e];
    assert all[..|events|] == events && all[|events|] == e;
    assert forall n | 0 <= n < |events| :: all[n] == events[n] && all[..n] == events[..n];
    if Remains(m, all, job) {
      forall n, task: nat | 0 <= n < |events| && task < |m[job]| && events[n] == Status(job, task)
        ensures Sent(events[..n], job, task) != []
      {
        assert all[n] == Status(job, task);
      }
    }
  }

  lemma LatestOfNothing(s: seq<nat>)
    ensures LatestOf(s).None? <==> s == []
  {
  }

  /**
   * A job is in the table, after any run, exactly if it was there and none of its tasks has sent a
   * status before its first watermark.
   */
  lemma {:induction false} JobRemainsIff(m: Reached, events: seq<Event>, job: JobId)
    requires Silent(m) && Proper(m, events)
    ensures job in After(m, events) <==> Remains(m, events, job)
  {
    if events != [] {
      var front, e := events[..|events| - 1], events[|events| - 1];
      assert events == front + [e];
      ProperFront(m, front, e);
      JobRemainsIff(m, front, job);
      RemainsSnoc(m, front, e, job);
      if e.Status? && e.job == job {
        TableFollowsHistory(m, front, job, e.task);
        LatestOfNothing(Sent(front, job, e.task));
      }
    }
  }

  /**
   * What the manager emits, in terms of the run alone: nothing while a parent task of a
   * remaining job is silent, otherwise the least, over those tasks, of the greatest
   * watermark each has sent.
   */
  lemma OutputIsLeastRunningMax(m: Reached, events: seq<Event>, r: Option<nat>)
    requires Silent(m)
    requires Proper(m, events)
    requires forall j, t :: MarkersInOrder(Sent(events, j, t))
    requires IsMinWatermark(After(m, events), r)
    ensures r.Some? ==>
      && (forall j, t: nat | DependsOn(m, j, t) && Remains(m, events, j) ::
            RunningMax(Sent(events, j, t)).Some? && r.value <= RunningMax(Sent(events, j, t)).value)
      && (exists j, t: nat :: DependsOn(m, j, t) && Remains(m, events, j) && RunningMax(Sent(events, j, t)) == r)
    ensures r.None? ==>
      || (exists j, t: nat :: DependsOn(m, j, t) && Remains(m, events, j) && Sent(events, j, t) == [])
      || (forall j, t: nat | DependsOn(m, j, t) :: !Remains(m, events, j))
  {
    var m' := After(m, events);
    forall j, t: nat
      ensures DependsOn(m', j, t) <==> DependsOn(m, j, t) && Remains(m, events, j)
      ensures DependsOn(m', j, t) ==> m'[j][t].latest == RunningMax(Sent(events, j, t))
    {
      TableFollowsHistory(m, events, j, t);
      JobRemainsIff(m, events, j);
      var s := Sent(events, j, t);
      LatestIsRunningMax(s);
      assert s[..|s|] == s;
    }
    if r.Some? {
      var j, t: nat :| DependsOn(m', j, t) && m'[j][t].latest == r;
      assert DependsOn(m, j, t) && RunningMax(Sent(events, j, t)) == r;
    } else if j, t: nat :| DependsOn(m', j, t) && m'[j][t].latest.None? {
      RunningMaxIsMax(Sent(events, j, t));
      assert DependsOn(m, j, t) && Sent(events, j, t) == [];
    }
  }

  /** One step keeps every output so far below the table, given that markers come in order. */
  lemma ProperFront(m: Reached, events: seq<Event>, e: Event)
    requires Proper(m, events + [e])
    ensures Proper(m, events)
  {
    var all := events + [e];
    forall n | 0 <= n < |events| && events[n].Arrived?
      ensures DependsOn(After(m, events[..n]), events[n].job, events[n].task)
    {
      assert all[..n] == events[..n] && all[n] == events[n];
    }
  }

  lemma LatestGrows(s: seq<nat>, x: nat)
    requires MarkersInOrder(s + [x]) && s != []
    ensures LatestOf(s).Some? && LatestOf(s + [x]).Some? && LatestOf(s).value <= LatestOf(s + [x]).value
  {
    var s' := s + [x];
    LatestIsRunningMax(s');
    assert s'[..|s|] == s && s'[..|s'|] == s';
    RunningMaxIsMax(s');
    RunningMaxIsMax(s);
  }

  lemma StepKeepsBound(m: Reached, events: seq<Event>, e: Event, bound: nat, job: JobId, task: nat)
    requires Silent(m)
    requires Proper(m, events + [e])
    requires forall j, t :: MarkersInOrder(Sent(events + [e], j, t))
    requires forall j, t: nat | DependsOn(After(m, events), j, t) ::
      After(m, events)[j][t].latest.Some? && bound <= After(m, events)[j][t].latest.value
    requires DependsOn(After(m, events + [e]), job, task)
    ensures After(m, events + [e])[job][task].latest.Some? && bound <= After(m, events + [e])[job][task].latest.value
  {
    var all := events + [e];
    assert all[..|all| - 1] == events;
    assert DependsOn(After(m, events), job, task);
    if e.Arrived? && e.job == job && e.task == task {
      TableFollowsHistory(m, all, job, task);
      ProperFront(m, events, e);
      TableFollowsHistory(m, events, job, task);
      assert Sent(all, job, task) == Sent(events, job, task) + [e.timestamp];
      LatestGrows(Sent(events, job, task), e.timestamp);
    }
  }

  /**
   * The output of the manager never decreases, whatever the interleaving of the parents and
   * whichever jobs are removed on the way: what is emitted later is at least what was emitted before.
   */
  lemma {:induction false} OutputNeverDecreases(m: Reached, events: seq<Event>, p: nat, q: nat, x: nat, y: nat)
    requires Silent(m)
    requires Proper(m, events)
    requires forall j, t :: MarkersInOrder(Sent(events, j, t))
    requires p <= q <= |events|
    requires IsMinWatermark(After(m, events[..p]), Some(x)) && IsMinWatermark(After(m, events[..q]), Some(y))
    ensures x <= y
  {
    BoundPersists(m, events, p, q, x);
  }

  lemma {:induction false} BoundPersists(m: Reached, events: seq<Event>, p: nat, q: nat, x: nat)
    requires Silent(m)
    requires Proper(m, events)
    requires forall j, t :: MarkersInOrder(Sent(events, j, t))
    requires p <= q <= |events|
    requires IsMinWatermark(After(m, events[..p]), Some(x))
    ensures forall j, t: nat | DependsOn(After(m, events[..q]), j, t) ::
      After(m, events[..q])[j][t].latest.Some? && x <= After(m, events[..q])[j][t].latest.value
    decreases q
  {
    if p < q {
      BoundPersists(m, events, p, q - 1, x);
      var front, e := events[..q - 1], events[q - 1];
      assert front + [e] == events[..q];
      assert Proper(m, front + [e]) by {
        forall n | 0 <= n < q && events[n].Arrived?
          ensures DependsOn(After(m, events[..q][..n]), events[..q][n].job, events[..q][n].task)
        {
          assert events[..q][..n] == events[..n];
        }
      }
      forall j, t ensures MarkersInOrder(Sent(front + [e], j, t)) {
        SentIsPrefix(events, q, j, t);
      }
      forall j, t: nat | DependsOn(After(m, events[..q]), j, t)
        ensures After(m, events[..q])[j][t].latest.Some? && x <= After(m, events[..q])[j][t].latest.value
      {
        StepKeepsBound(m, front, e, x, j, t);
      }
    }
  }

  lemma {:induction false} SentIsPrefix(events: seq<Event>, n: nat, job: JobId, task: nat)
    requires n <= |events|
    ensures Sent(events[..n], job, task) <= Sent(events, job, task)
  {
    if n == |events| {
      assert events[..n] == events;
    } else {
      var front := events[..|events| - 1];
      SentIsPrefix(front, n, job, task);
      assert front[..n] == events[..n];
    }
  }

  /** Without order among the markers the output can go back. */
  lemma UncomparedMarkersGoBack()
    ensures var m := NewManager(map[1 := [true]]);
            var events := [Arrived(1, 0, MAX_WATERMARK + 5), Arrived(1, 0, MAX_WATERMARK + 1)];
            Proper(m, events) &&
            IsMinWatermark(After(m, events[..1]), Some(MAX_WATERMARK + 5)) &&
            IsMinWatermark(After(m, events), Some(MAX_WATERMARK + 1))
  {
    var m := NewManager(map[1 := [true]]);
    var events := [Arrived(1, 0, MAX_WATERMARK + 5), Arrived(1, 0, MAX_WATERMARK + 1)];
    assert events[..0] == [] && events[..1][..0] == [];
    assert DependsOn(m, 1, 0);
    var m1 := After(m, events[..1]);
    assert After(m, events[..1][..0]) == m && events[..1][0] == events[0];
    assert m1 == Set(m, 1, 0, MAX_WATERMARK + 5);
    assert DependsOn(m1, 1, 0);
    assert DependsOn(After(m, events), 1, 0);
  }
}
