/**
 * The built-in watermark generators and every nesting of them:
 * the files of `rlink/src/functions/watermark`.
 *
 * A generator owns the generator it wraps, so a nest is a value. `Generator` is that value with
 * the behaviour of the trait's two methods; `WatermarkGenerator` is the object that updates
 * itself and its inner generator in place, and is proved against it.
 */
module WatermarkGenerators {
  import opened Prelude
  import opened Elements

  /** The readings of the wall clock during one call, by nesting depth: those taken by
      `on_event` and those taken by `on_periodic_emit`. */
  datatype Clock = Clock(onEvent: nat -> nat, onEmit: nat -> nat)

  datatype IdlenessTimer = IdlenessTimer(counter: nat, lastCounter: nat, startOfInactivity: nat, maxIdle: nat)

  function Activity(t: IdlenessTimer): IdlenessTimer {
    t.(counter := t.counter + 1)
  }

  /** `check_if_idle`; the subtraction is on unsigned 64-bit integers and wraps if the clock goes back. */
  function CheckIfIdle(t: IdlenessTimer, now: nat): (IdlenessTimer, bool) {
    if t.counter != t.lastCounter then
      (t.(lastCounter := t.counter, startOfInactivity := 0), false)
    else if t.startOfInactivity == 0 then
      (t.(startOfInactivity := now), false)
    else
      (t, (now - t.startOfInactivity) % U64 > t.maxIdle)
  }

  datatype Generator =
    | BoundedOutOfOrderness(maxTimestamp: nat, outOfOrderness: nat)
    | TimePeriodic(inner: Generator, processTimestamp: int, eventTimestamp: int,
                   processPeriod: int, eventPeriod: int)
    | WithIdleness(inner: Generator, timer: IdlenessTimer)

  function OnPeriodicEmit(g: Generator, clock: Clock, depth: nat): (Generator, Option<nat>) {
    match g
    case BoundedOutOfOrderness(m, bound) =>
      (g, Some(if m > bound then m - bound - 1 else MIN_WATERMARK))
    case TimePeriodic(inner, process, event, pp, ep) =>
      var (inner', w) := OnPeriodicEmit(inner, clock, depth + 1);
      (TimePeriodic(inner', process, event, pp, ep), w)
    case WithIdleness(inner, timer) =>
      var (timer', idle) := CheckIfIdle(timer, clock.onEmit(depth));
      if idle then (g.(timer := timer'), Some(IDLE_WATERMARK))
      else
        var (inner', w) := OnPeriodicEmit(inner, clock, depth + 1);
        (WithIdleness(inner', timer'), w)
  }

  function OnEvent(g: Generator, timestamp: nat, clock: Clock, depth: nat): (Generator, Option<nat>) {
    match g
    case BoundedOutOfOrderness(m, bound) =>
      (if timestamp > m then g.(maxTimestamp := timestamp) else g, None)
    case TimePeriodic(inner, process, event, pp, ep) =>
      var (inner', w) := OnEvent(inner, timestamp, clock, depth + 1);
      var now := clock.onEvent(depth);
      if w.Some? then
        (TimePeriodic(inner', process, event, pp, ep), w)
      else if process == 0 then
        (TimePeriodic(inner', now, timestamp, pp, ep), None)
      else if timestamp - event > ep then
        if now - process < pp then
          var (inner'', w') := OnPeriodicEmit(inner', clock, depth + 1);
          (TimePeriodic(inner'', now, timestamp, pp, ep), w')
        else (TimePeriodic(inner', now, timestamp, pp, ep), None)
      else (TimePeriodic(inner', process, event, pp, ep), None)
    case WithIdleness(inner, timer) =>
      var (inner', w) := OnEvent(inner, timestamp, clock, depth + 1);
      (WithIdleness(inner', Activity(timer)), w)
  }

  // ----- what every nesting has in common

  /** The bounded-out-of-orderness generator at the centre of a nest. */
  function Core(g: Generator): (c: Generator)
    ensures c.BoundedOutOfOrderness?
  {
    match g
    case BoundedOutOfOrderness(_, _) => g
    case TimePeriodic(inner, _, _, _, _) => Core(inner)
    case WithIdleness(inner, _) => Core(inner)
  }

  /** The watermark that the largest timestamp seen so far allows. */
  function Lag(maxTimestamp: nat, bound: nat): nat {
    if maxTimestamp > bound then maxTimestamp - bound - 1 else MIN_WATERMARK
  }

  lemma {:induction false} EmitKeepsCore(g: Generator, clock: Clock, depth: nat)
    ensures var (g', w) := OnPeriodicEmit(g, clock, depth);
            Core(g') == Core(g) &&
            (w == Some(IDLE_WATERMARK) || w == Some(Lag(Core(g).maxTimestamp, Core(g).outOfOrderness)))
    decreases g
  {
    if !g.BoundedOutOfOrderness? {
      EmitKeepsCore(g.inner, clock, depth + 1);
    }
  }

  lemma {:induction false} EventMovesCore(g: Generator, timestamp: nat, clock: Clock, depth: nat)
    ensures var (g', w) := OnEvent(g, timestamp, clock, depth);
            Core(g') == Core(g).(maxTimestamp := if timestamp > Core(g).maxTimestamp then timestamp else Core(g).maxTimestamp) &&
            (w == None || w == Some(IDLE_WATERMARK) ||
             w == Some(Lag(Core(g').maxTimestamp, Core(g').outOfOrderness)))
    decreases g
  {
    match g
    case BoundedOutOfOrderness(_, _) =>
    case TimePeriodic(inner, _, _, _, _) =>
      EventMovesCore(inner, timestamp, clock, depth + 1);
      EmitKeepsCore(OnEvent(inner, timestamp, clock, depth + 1).0, clock, depth + 1);
    case WithIdleness(inner, _) =>
      EventMovesCore(inner, timestamp, clock, depth + 1);
  }

  // ----- when a generator speaks, over a run of calls

  datatype Call = Event(timestamp: nat, clock: Clock) | Emit(clock: Clock)

  function OnCall(g: Generator, c: Call, depth: nat): Generator {
    match c
    case Event(timestamp, clock) => OnEvent(g, timestamp, clock, depth).0
    case Emit(clock) => OnPeriodicEmit(g, clock, depth).0
  }

  function AfterCalls(g: Generator, calls: seq<Call>, depth: nat): Generator {
    if calls == [] then g else OnCall(AfterCalls(g, calls[..|calls| - 1], depth), calls[|calls| - 1], depth)
  }

  lemma AfterSnoc(g: Generator, calls: seq<Call>, c: Call, depth: nat)
    ensures AfterCalls(g, calls + [c], depth) == OnCall(AfterCalls(g, calls, depth), c, depth)
  {
    assert (calls + [c])[..|calls|] == calls;
  }

  predicate Active(calls: seq<Call>) {
    exists k :: 0 <= k < |calls| && calls[k].Event?
  }

  /** The clock at the emissions since the last event. */
  function Quiet(calls: seq<Call>, depth: nat): seq<nat> {
    if calls == [] || calls[|calls| - 1].Event? then []
    else Quiet(calls[..|calls| - 1], depth) + [calls[|calls| - 1].clock.onEmit(depth)]
  }

  /** Some emission has come since the last event, if there was one. */
  predicate Noticed(calls: seq<Call>, depth: nat) {
    Active(calls) ==> Quiet(calls, depth) != []
  }

  /** The emissions that time the inactivity: not the one that notices the last event. */
  function Timed(calls: seq<Call>, depth: nat): seq<nat> {
    var quiet := Quiet(calls, depth);
    if Active(calls) && quiet != [] then quiet[1..] else quiet
  }

  /** The first reading that is not 0. */
  function FirstReading(readings: seq<nat>): nat {
    if readings == [] then 0
    else
      var first := FirstReading(readings[..|readings| - 1]);
      if first != 0 then first else readings[|readings| - 1]
  }

  /** More than the timeout has passed, in 64 bits, since the inactivity began. */
  predicate HasIdled(calls: seq<Call>, depth: nat, now: nat, maxIdle: nat) {
    var start := FirstReading(Timed(calls, depth));
    Noticed(calls, depth) && start != 0 && (now - start) % U64 > maxIdle
  }

  lemma QuietSnoc(calls: seq<Call>, c: Call, depth: nat)
    ensures Active(calls + [c]) <==> Active(calls) || c.Event?
    ensures Quiet(calls + [c], depth) == if c.Event? then [] else Quiet(calls, depth) + [c.clock.onEmit(depth)]
  {
    var all := calls + [c];
    assert all[..|calls|] == calls && all[|calls|] == c;
    if Active(calls) {
      var k :| 0 <= k < |calls| && calls[k].Event?;
      assert all[k].Event?;
    }
  }

  lemma TimedSnoc(calls: seq<Call>, clock: Clock, depth: nat)
    ensures var all, r := calls + [Emit(clock)], clock.onEmit(depth);
      && Noticed(all, depth)
      && FirstReading(Timed(all, depth)) ==
         (if !Noticed(calls, depth) then 0
          else if FirstReading(Timed(calls, depth)) != 0 then FirstReading(Timed(calls, depth)) else r)
  {
    var r := clock.onEmit(depth);
    QuietSnoc(calls, Emit(clock), depth);
    var timed, timed' := Timed(calls, depth), Timed(calls + [Emit(clock)], depth);
    if Noticed(calls, depth) {
      assert timed' == timed + [r];
      assert timed'[..|timed|] == timed;
    } else {
      assert timed' == [];
    }
  }

  /** The timer counts the events and remembers when the inactivity began. */
  ghost predicate TimerFollows(t: IdlenessTimer, maxIdle: nat, calls: seq<Call>, depth: nat) {
    && t.maxIdle == maxIdle && t.lastCounter <= t.counter
    && (t.lastCounter == t.counter <==> Noticed(calls, depth))
    && (Noticed(calls, depth) ==> t.startOfInactivity == FirstReading(Timed(calls, depth)))
  }

  lemma {:induction false} TimerFollowsCalls(inner: Generator, maxIdle: nat, calls: seq<Call>, depth: nat)
    ensures var g := AfterCalls(WithIdleness(inner, IdlenessTimer(0, 0, 0, maxIdle)), calls, depth);
      g.WithIdleness? && TimerFollows(g.timer, maxIdle, calls, depth)
  {
    if calls != [] {
      var front, c := calls[..|calls| - 1], calls[|calls| - 1];
      assert calls == front + [c];
      TimerFollowsCalls(inner, maxIdle, front, depth);
      QuietSnoc(front, c, depth);
      if c.Emit? {
        TimedSnoc(front, c.clock, depth);
      }
    }
  }

  /**
   * The idle marker is emitted exactly when, since the last event was noticed, more than the timeout
   * has passed; otherwise the answer is that of the generator inside. At any depth of any nest.
   */
  lemma IdleMarkerIff(inner: Generator, maxIdle: nat, calls: seq<Call>, clock: Clock, depth: nat)
    ensures var g := AfterCalls(WithIdleness(inner, IdlenessTimer(0, 0, 0, maxIdle)), calls, depth);
      && g.WithIdleness?
      && OnPeriodicEmit(g, clock, depth).1 ==
         (if HasIdled(calls, depth, clock.onEmit(depth), maxIdle) then Some(IDLE_WATERMARK)
          else OnPeriodicEmit(g.inner, clock, depth + 1).1)
  {
    TimerFollowsCalls(inner, maxIdle, calls, depth);
    var g := AfterCalls(WithIdleness(inner, IdlenessTimer(0, 0, 0, maxIdle)), calls, depth);
    CheckIsHasIdled(g.timer, maxIdle, calls, depth, clock.onEmit(depth));
  }

  lemma CheckIsHasIdled(t: IdlenessTimer, maxIdle: nat, calls: seq<Call>, depth: nat, now: nat)
    requires TimerFollows(t, maxIdle, calls, depth)
    ensures CheckIfIdle(t, now).1 <==> HasIdled(calls, depth, now, maxIdle)
  {
  }

  /** What the inner generator answers to the next event. */
  function InnerAnswer(g: Generator, calls: seq<Call>, e: Call, depth: nat): Option<nat>
    requires e.Event?
  {
    var now := AfterCalls(g, calls, depth);
    if now.BoundedOutOfOrderness? then None else OnEvent(now.inner, e.timestamp, e.clock, depth + 1).1
  }

  /** An event later than the period after the last mark, or the first one, marks the clock and its own timestamp. */
  predicate Marks(last: Option<(nat, nat)>, timestamp: nat, eventPeriod: int) {
    last.None? || last.value.0 == 0 || timestamp - last.value.1 > eventPeriod
  }

  function LastMark(g: Generator, calls: seq<Call>, depth: nat, eventPeriod: int): Option<(nat, nat)> {
    if calls == [] then None
    else
      var front, c := calls[..|calls| - 1], calls[|calls| - 1];
      var last := LastMark(g, front, depth, eventPeriod);
      if c.Event? && InnerAnswer(g, front, c, depth).None? && Marks(last, c.timestamp, eventPeriod)
      then Some((c.clock.onEvent(depth), c.timestamp)) else last
  }

  /** The periods have passed in event time and not in processing time. */
  predicate IsEarly(last: Option<(nat, nat)>, timestamp: nat, now: nat, processPeriod: int, eventPeriod: int) {
    && last.Some? && last.value.0 != 0
    && timestamp - last.value.1 > eventPeriod && now - last.value.0 < processPeriod
  }

  lemma {:induction false} MarkFollowsCalls(inner: Generator, pp: int, ep: int, calls: seq<Call>, depth: nat)
    ensures var g := TimePeriodic(inner, 0, 0, pp, ep);
      var now, last := AfterCalls(g, calls, depth), LastMark(g, calls, depth, ep);
      && now.TimePeriodic? && now.processPeriod == pp && now.eventPeriod == ep
      && (last.None? ==> now.processTimestamp == 0)
      && (last.Some? ==> now.processTimestamp == last.value.0 && now.eventTimestamp == last.value.1)
  {
    if calls != [] {
      MarkFollowsCalls(inner, pp, ep, calls[..|calls| - 1], depth);
    }
  }

  /**
   * An event makes the periodic generator emit exactly when the one inside did not answer, the event
   * period has passed since the last mark and the processing period has not. At any depth of any nest.
   */
  lemma EarlyWatermarkIff(inner: Generator, pp: int, ep: int, calls: seq<Call>, e: Call, depth: nat)
    requires e.Event?
    ensures var g := TimePeriodic(inner, 0, 0, pp, ep);
      var answer, now := InnerAnswer(g, calls, e, depth), AfterCalls(g, calls, depth);
      && now.TimePeriodic?
      && OnEvent(now, e.timestamp, e.clock, depth).1 ==
         (if answer.Some? then answer
          else if IsEarly(LastMark(g, calls, depth, ep), e.timestamp, e.clock.onEvent(depth), pp, ep)
          then OnPeriodicEmit(OnEvent(now.inner, e.timestamp, e.clock, depth + 1).0, e.clock, depth + 1).1
          else None)
  {
    MarkFollowsCalls(inner, pp, ep, calls, depth);
  }

  // ----- the generators as objects that update themselves

  datatype Kind = Bounded | Periodic | Idle

  class WatermarkGenerator {
    const kind: Kind
    var maxTimestamp: nat
    const outOfOrderness: nat
    var processTimestamp: int
    var eventTimestamp: int
    const processPeriod: int
    const eventPeriod: int
    var timer: IdlenessTimer
    const inner: WatermarkGenerator?
    ghost const Repr: set<object>

    ghost predicate Valid()
      reads this, Repr
      decreases Repr
    {
      && this in Repr
      && (kind.Bounded? <==> inner == null)
      && (inner != null ==> inner in Repr && inner.Repr < Repr && this !in inner.Repr && inner.Valid())
    }

    ghost function Value(): Generator
      requires Valid()
      reads this, Repr
      decreases Repr
    {
      if inner == null then Generator.BoundedOutOfOrderness(maxTimestamp, outOfOrderness)
      else if kind.Periodic? then
        Generator.TimePeriodic(inner.Value(), processTimestamp, eventTimestamp, processPeriod, eventPeriod)
      else Generator.WithIdleness(inner.Value(), timer)
    }

    constructor BoundedOutOfOrderness(outOfOrderness: nat)
      ensures Valid() && fresh(Repr)
      ensures Value() == Generator.BoundedOutOfOrderness(0, outOfOrderness)
    {
      kind, inner := Bounded, null;
      maxTimestamp, this.outOfOrderness := 0, outOfOrderness;
      processTimestamp, eventTimestamp, processPeriod, eventPeriod := 0, 0, 0, 0;
      timer := IdlenessTimer(0, 0, 0, 0);
      Repr := {this};
    }

    constructor TimePeriodic(inner: WatermarkGenerator, processPeriod: int, eventPeriod: int)
      requires inner.Valid()
      ensures Valid() && Repr == {this} + inner.Repr
      ensures Value() == Generator.TimePeriodic(inner.Value(), 0, 0, processPeriod, eventPeriod)
    {
      kind, this.inner := Periodic, inner;
      maxTimestamp, outOfOrderness := 0, 0;
      processTimestamp, eventTimestamp := 0, 0;
      this.processPeriod, this.eventPeriod := processPeriod, eventPeriod;
      timer := IdlenessTimer(0, 0, 0, 0);
      Repr := {this} + inner.Repr;
    }

    constructor WithIdleness(inner: WatermarkGenerator, idleTimeout: nat)
      requires inner.Valid()
      ensures Valid() && Repr == {this} + inner.Repr
      ensures Value() == Generator.WithIdleness(inner.Value(), IdlenessTimer(0, 0, 0, idleTimeout))
    {
      kind, this.inner := Idle, inner;
      maxTimestamp, outOfOrderness := 0, 0;
      processTimestamp, eventTimestamp, processPeriod, eventPeriod := 0, 0, 0, 0;
      timer := IdlenessTimer(0, 0, 0, idleTimeout);
      Repr := {this} + inner.Repr;
    }

    method PeriodicEmit(clock: Clock, depth: nat) returns (w: Option<nat>)
      requires Valid()
      modifies Repr
      decreases Repr
      ensures Valid()
      ensures Value() == OnPeriodicEmit(old(Value()), clock, depth).0
      ensures w == OnPeriodicEmit(old(Value()), clock, depth).1
    {
      if inner == null {
        w := Some(if maxTimestamp > outOfOrderness then maxTimestamp - outOfOrderness - 1 else MIN_WATERMARK);
      } else if kind.Periodic? {
        w := inner.PeriodicEmit(clock, depth + 1);
      } else {
        var (timer', idle) := CheckIfIdle(timer, clock.onEmit(depth));
        timer := timer';
        if idle {
          w := Some(IDLE_WATERMARK);
        } else {
          w := inner.PeriodicEmit(clock, depth + 1);
        }
      }
    }

    method Event(timestamp: nat, clock: Clock, depth: nat) returns (w: Option<nat>)
      requires Valid()
      modifies Repr
      decreases Repr
      ensures Valid()
      ensures Value() == OnEvent(old(Value()), timestamp, clock, depth).0
      ensures w == OnEvent(old(Value()), timestamp, clock, depth).1
    {
      if inner == null {
        if timestamp > maxTimestamp {
          maxTimestamp := timestamp;
        }
        w := None;
      } else if kind.Periodic? {
        w := inner.Event(timestamp, clock, depth + 1);
        if w.Some? {
          return;
        }
        if processTimestamp == 0 {
          processTimestamp, eventTimestamp := clock.onEvent(depth), timestamp;
        } else if timestamp - eventTimestamp > eventPeriod {
          var oldProcess, now := processTimestamp, clock.onEvent(depth);
          processTimestamp, eventTimestamp := now, timestamp;
          if now - oldProcess < processPeriod {
            w := inner.PeriodicEmit(clock, depth + 1);
          }
        }
      } else {
        timer := Activity(timer);
        w := inner.Event(timestamp, clock, depth + 1);
      }
    }
  }
}
