/** The operator that stamps records and emits watermarks: `watermark_assigner_runnable.rs`. */
module WatermarkAssigner {
  import opened Prelude
  import opened Elements
  import opened WatermarkGenerators

  datatype Assigner = Assigner(generator: Generator, watermark: nat)

  /** A record arrives with the timestamp that the timestamp assigner extracts from it. */
  datatype Input = Input(element: Element, clock: Clock)

  /** `update_watermark_progress`: an idle marker does not move the watermark. */
  function Progress(current: nat, watermark: nat): nat {
    if watermark > MAX_WATERMARK then current else watermark
  }

  /** One call of `run`: the next state and the elements handed to the next operator. */
  function Process(a: Assigner, i: Input): (Assigner, seq<Element>) {
    match i.element
    case Data(r) =>
      var (g, w) := OnEvent(a.generator, r.timestamp, i.clock, 0);
      if r.timestamp < a.watermark then (Assigner(g, a.watermark), [])
      else if w.None? then (Assigner(g, a.watermark), [i.element])
      else
        var now := Progress(a.watermark, w.value);
        (Assigner(g, now), [i.element, Watermark(now)])
    case StreamStatus(_, true) => (a, [Watermark(MAX_WATERMARK), i.element])
    case StreamStatus(_, false) =>
      var (g, w) := OnPeriodicEmit(a.generator, i.clock, 0);
      var now := Progress(a.watermark, if w.Some? then w.value else MIN_WATERMARK);
      (Assigner(g, now), [Watermark(now), i.element])
    case Barrier(_) => (a, [i.element])
    case Watermark(_) => (a, [i.element])
  }

  function Run(g: Generator, inputs: seq<Input>): (Assigner, seq<Element>) {
    if inputs == [] then (Assigner(g, MIN_WATERMARK), [])
    else
      var (a, sent) := Run(g, inputs[..|inputs| - 1]);
      var (a', out) := Process(a, inputs[|inputs| - 1]);
      (a', sent + out)
  }

  // ----- statements

  /** A generator that has seen nothing. */
  ghost predicate Fresh(g: Generator) {
    Core(g).maxTimestamp == 0
  }

  predicate IsEnd(e: Element) {
    e.StreamStatus? && e.end
  }

  /** What a user source sends: no watermark, and after the end flag only barriers and end flags. */
  ghost predicate FromUserSource(inputs: seq<Input>) {
    && (forall i | 0 <= i < |inputs| :: !inputs[i].element.Watermark?)
    && (forall i, j | 0 <= i < j < |inputs| ::
          IsEnd(inputs[i].element) ==> inputs[j].element.Barrier? || IsEnd(inputs[j].element))
  }

  ghost predicate Ended(inputs: seq<Input>) {
    exists i :: 0 <= i < |inputs| && IsEnd(inputs[i].element)
  }

  ghost predicate WatermarksUpTo(log: seq<Element>, bound: nat) {
    forall p | 0 <= p < |log| :: log[p].Watermark? ==> log[p].timestamp <= bound
  }

  /** Watermarks do not decrease, no record is older than an earlier watermark, and a stream
      status never comes before the first watermark. */
  ghost predicate Ordered(log: seq<Element>) {
    && (forall p, q | 0 <= p < q < |log| :: log[p].Watermark? && log[q].Watermark? ==> log[p].timestamp <= log[q].timestamp)
    && (forall p, q | 0 <= p < q < |log| :: log[p].Watermark? && log[q].Data? ==> log[p].timestamp <= log[q].record.timestamp)
    && (forall q | 0 <= q < |log| :: log[q].StreamStatus? ==> WatermarkBefore(log, q))
  }

  ghost predicate WatermarkBefore(log: seq<Element>, q: nat)
    requires q <= |log|
  {
    exists p :: 0 <= p < q && log[p].Watermark?
  }

  function MaxTimestamp(inputs: seq<Input>): nat {
    if inputs == [] then 0
    else
      var m := MaxTimestamp(inputs[..|inputs| - 1]);
      var e := inputs[|inputs| - 1].element;
      if e.Data? && e.record.timestamp > m then e.record.timestamp else m
  }

  /** The state after any run: the watermark never passes what the largest timestamp allows. */
  lemma {:induction false} RunKeepsLag(g: Generator, inputs: seq<Input>)
    requires Fresh(g)
    ensures var a := Run(g, inputs).0;
            && Core(a.generator) == Core(g).(maxTimestamp := MaxTimestamp(inputs))
            && a.watermark <= Lag(MaxTimestamp(inputs), Core(g).outOfOrderness)
            && a.watermark <= MAX_WATERMARK
  {
    if inputs != [] {
      var before, i := inputs[..|inputs| - 1], inputs[|inputs| - 1];
      RunKeepsLag(g, before);
      ProcessKeepsLag(Run(g, before).0, i);
    }
  }

  /** One step: the largest timestamp is tracked, and the watermark moves only up, to the lag at most. */
  lemma ProcessKeepsLag(a: Assigner, i: Input)
    requires a.watermark <= Lag(Core(a.generator).maxTimestamp, Core(a.generator).outOfOrderness)
    requires a.watermark <= MAX_WATERMARK
    ensures var a' := Process(a, i).0;
            var c, c' := Core(a.generator), Core(a'.generator);
            var e := i.element;
            && c' == (if e.Data? && e.record.timestamp > c.maxTimestamp then c.(maxTimestamp := e.record.timestamp) else c)
            && a.watermark <= a'.watermark <= Lag(c'.maxTimestamp, c'.outOfOrderness)
            && a'.watermark <= MAX_WATERMARK
  {
    match i.element
    case Data(r) => EventMovesCore(a.generator, r.timestamp, i.clock, 0);
    case StreamStatus(_, _) => EmitKeepsCore(a.generator, i.clock, 0);
    case Barrier(_) =>
    case Watermark(_) =>
  }

  lemma OrderedAppend(log: seq<Element>, e: Element, bound: nat)
    requires Ordered(log) && WatermarksUpTo(log, bound)
    requires e.Watermark? ==> bound <= e.timestamp
    requires e.Data? ==> bound <= e.record.timestamp
    requires e.StreamStatus? ==> WatermarkBefore(log, |log|)
    ensures Ordered(log + [e])
    ensures WatermarksUpTo(log + [e], if e.Watermark? then e.timestamp else bound)
  {
    var log' := log + [e];
    forall q | 0 <= q < |log'| && log'[q].StreamStatus?
      ensures WatermarkBefore(log', q)
    {
      if q < |log| {
        var p :| 0 <= p < q && log[p].Watermark?;
        assert log'[p].Watermark?;
      } else {
        var p :| 0 <= p < |log| && log[p].Watermark?;
        assert log'[p].Watermark?;
      }
    }
  }

  lemma OrderedAppendStatus(log: seq<Element>, w: nat, e: Element, bound: nat)
    requires Ordered(log) && WatermarksUpTo(log, bound) && bound <= w && e.StreamStatus?
    ensures Ordered(log + [Watermark(w), e]) && WatermarksUpTo(log + [Watermark(w), e], w)
  {
    OrderedAppend(log, Watermark(w), bound);
    var log' := log + [Watermark(w)];
    assert log'[|log|].Watermark?;
    OrderedAppend(log', e, w);
    assert log' + [e] == log + [Watermark(w), e];
  }

  /**
   * For every nesting of the built-in generators and every stream of a user source, the
   * assigner's output is ordered, up to and after the end of the stream.
   */
  lemma {:induction false} OutputIsOrdered(g: Generator, inputs: seq<Input>)
    requires Fresh(g) && FromUserSource(inputs)
    ensures Ordered(Run(g, inputs).1)
    ensures WatermarksUpTo(Run(g, inputs).1, MAX_WATERMARK)
    ensures !Ended(inputs) ==> WatermarksUpTo(Run(g, inputs).1, Run(g, inputs).0.watermark)
  {
    if inputs != [] {
      var before, i := inputs[..|inputs| - 1], inputs[|inputs| - 1];
      OutputIsOrdered(g, before);
      RunKeepsLag(g, before);
      assert Ended(before) ==> i.element.Barrier? || IsEnd(i.element) by {
        if Ended(before) {
          var k :| 0 <= k < |before| && IsEnd(before[k].element);
          assert IsEnd(inputs[k].element);
        }
      }
      assert !Ended(inputs) ==> !Ended(before) && !IsEnd(i.element) by {
        if Ended(before) {
          var k :| 0 <= k < |before| && IsEnd(before[k].element);
          assert IsEnd(inputs[k].element);
        }
      }
      var (a, sent) := Run(g, before);
      var bound := if Ended(before) then MAX_WATERMARK else a.watermark;
      StepIsOrdered(a, sent, i, bound);
    }
  }

  lemma StepIsOrdered(a: Assigner, sent: seq<Element>, i: Input, bound: nat)
    requires Ordered(sent) && WatermarksUpTo(sent, bound)
    requires bound == a.watermark || (bound == MAX_WATERMARK && (i.element.Barrier? || IsEnd(i.element)))
    requires a.watermark <= Lag(Core(a.generator).maxTimestamp, Core(a.generator).outOfOrderness)
    requires a.watermark <= MAX_WATERMARK
    requires !i.element.Watermark?
    ensures var (a', out) := Process(a, i);
            && Ordered(sent + out)
            && WatermarksUpTo(sent + out, MAX_WATERMARK)
            && (bound == a.watermark && !IsEnd(i.element) ==> WatermarksUpTo(sent + out, a'.watermark))
  {
    ProcessKeepsLag(a, i);
    var (a', out) := Process(a, i);
    match i.element
    case Data(r) =>
      if r.timestamp < a.watermark {
        assert sent + out == sent;
      } else {
        OrderedAppend(sent, i.element, bound);
        if |out| == 2 {
          OrderedAppend(sent + [i.element], out[1], bound);
          assert sent + [i.element] + [out[1]] == sent + out;
        }
      }
    case StreamStatus(_, end) =>
      OrderedAppendStatus(sent, if end then MAX_WATERMARK else a'.watermark, i.element, bound);
    case Barrier(_) =>
      OrderedAppend(sent, i.element, bound);
  }

  /** A record at most the configured bound behind the largest earlier timestamp is forwarded. */
  lemma TimelyRecordIsForwarded(g: Generator, inputs: seq<Input>, i: Input)
    requires Fresh(g) && i.element.Data?
    requires i.element.record.timestamp + Core(g).outOfOrderness >= MaxTimestamp(inputs)
    ensures Process(Run(g, inputs).0, i).1 != [] && Process(Run(g, inputs).0, i).1[0] == i.element
  {
    RunKeepsLag(g, inputs);
  }

  // ----- exactly what is sent

  ghost predicate NoWatermarks(inputs: seq<Input>) {
    forall i | 0 <= i < |inputs| :: !inputs[i].element.Watermark?
  }

  /** The last watermark sent, or the one that the assigner starts with. */
  function LastSent(sent: seq<Element>): nat {
    match LastWatermark(sent) case None => MIN_WATERMARK case Some(w) => w
  }

  lemma LastSentOfOne(sent: seq<Element>, e: Element)
    ensures LastSent(sent + [e]) == if e.Watermark? then e.timestamp else LastSent(sent)
  {
    assert (sent + [e])[..|sent|] == sent;
  }

  lemma LastSentOfTwo(sent: seq<Element>, a: Element, b: Element)
    ensures LastSent(sent + [a, b]) == if b.Watermark? then b.timestamp else LastSent(sent + [a])
  {
    assert sent + [a, b] == sent + [a] + [b];
    LastSentOfOne(sent + [a], b);
  }

  lemma StepKeepsLastSent(a: Assigner, sent: seq<Element>, i: Input)
    requires a.watermark == LastSent(sent) && !i.element.Watermark? && !IsEnd(i.element)
    ensures Process(a, i).0.watermark == LastSent(sent + Process(a, i).1)
  {
    var out := Process(a, i).1;
    if out == [] {
      assert sent + out == sent;
    } else {
      LastSentOfOne(sent, out[0]);
      if |out| == 2 {
        LastSentOfTwo(sent, out[0], out[1]);
        assert out == [out[0], out[1]];
      } else {
        assert out == [out[0]];
      }
    }
  }

  /** Until the end of the stream, the assigner's watermark is the last one it has sent. */
  lemma {:induction false} WatermarkIsLastSent(g: Generator, inputs: seq<Input>)
    requires NoWatermarks(inputs) && !Ended(inputs)
    ensures Run(g, inputs).0.watermark == LastSent(Run(g, inputs).1)
  {
    if inputs != [] {
      var front := inputs[..|inputs| - 1];
      EndedSnoc(inputs);
      WatermarkIsLastSent(g, front);
      StepKeepsLastSent(Run(g, front).0, Run(g, front).1, inputs[|front|]);
    }
  }

  /** The watermark after an answer of the generator: the lag, unless the marker or a watermark past all times keeps the last one. */
  function NextSent(answer: Option<nat>, lag: nat, last: nat): nat {
    if answer == Some(IDLE_WATERMARK) || lag > MAX_WATERMARK then last else lag
  }

  /**
   * What the next input of a user source makes the assigner send, before the end of the stream. An
   * open status is preceded by the lag of the largest timestamp so far, and a record that the
   * generator answers is followed by it; with the idle marker it is the last watermark again. A
   * record behind the last watermark is dropped.
   */
  lemma SendsExactly(g: Generator, inputs: seq<Input>, i: Input)
    requires Fresh(g) && NoWatermarks(inputs) && !Ended(inputs)
    ensures var (a, sent) := Run(g, inputs);
      var lag, last := Lag(MaxTimestamp(inputs + [i]), Core(g).outOfOrderness), LastSent(sent);
      var all := Run(g, inputs + [i]).1;
      match i.element
      case Data(r) =>
        var answer := OnEvent(a.generator, r.timestamp, i.clock, 0).1;
        all == if r.timestamp < last then sent
          else if answer.None? then sent + [i.element]
          else sent + [i.element, Watermark(NextSent(answer, lag, last))]
      case StreamStatus(_, false) =>
        all == sent + [Watermark(NextSent(OnPeriodicEmit(a.generator, i.clock, 0).1, lag, last)), i.element]
      case StreamStatus(_, true) => all == sent + [Watermark(MAX_WATERMARK), i.element]
      case Barrier(_) => all == sent + [i.element]
      case Watermark(_) => true
  {
    var all := inputs + [i];
    assert all[..|inputs|] == inputs && all[|inputs|] == i;
    RunKeepsLag(g, inputs);
    WatermarkIsLastSent(g, inputs);
    var a := Run(g, inputs).0;
    match i.element
    case Data(r) => EventMovesCore(a.generator, r.timestamp, i.clock, 0);
    case StreamStatus(_, _) => EmitKeepsCore(a.generator, i.clock, 0);
    case Barrier(_) =>
    case Watermark(_) =>
  }

  /** The call that an input makes to the generator. */
  function CallOf(i: Input): Option<Call> {
    match i.element
    case Data(r) => Some(Event(r.timestamp, i.clock))
    case StreamStatus(_, false) => Some(Emit(i.clock))
    case _ => None
  }

  function CallsOf(inputs: seq<Input>): seq<Call> {
    if inputs == [] then []
    else
      var front, c := CallsOf(inputs[..|inputs| - 1]), CallOf(inputs[|inputs| - 1]);
      if c.Some? then front + [c.value] else front
  }

  lemma ProcessCalls(a: Assigner, i: Input)
    ensures Process(a, i).0.generator == if CallOf(i).Some? then OnCall(a.generator, CallOf(i).value, 0) else a.generator
  {
  }

  /** So the laws about a generator's calls are laws about the assigner's run. */
  lemma {:induction false} GeneratorFollowsRun(g: Generator, inputs: seq<Input>)
    ensures Run(g, inputs).0.generator == AfterCalls(g, CallsOf(inputs), 0)
  {
    if inputs != [] {
      var front, i := inputs[..|inputs| - 1], inputs[|inputs| - 1];
      GeneratorFollowsRun(g, front);
      ProcessCalls(Run(g, front).0, i);
      if CallOf(i).Some? {
        AfterSnoc(g, CallsOf(front), CallOf(i).value, 0);
      }
    }
  }

  /** With an idleness timer outside, an open status sends the last watermark again exactly when the source has idled, by the clock of the run. */
  lemma IdleSourceRepeats(inner: Generator, maxIdle: nat, inputs: seq<Input>, i: Input)
    requires Core(inner).maxTimestamp == 0 && NoWatermarks(inputs) && !Ended(inputs)
    requires i.element.StreamStatus? && !i.element.end
    requires HasIdled(CallsOf(inputs), 0, i.clock.onEmit(0), maxIdle)
    ensures var g := WithIdleness(inner, IdlenessTimer(0, 0, 0, maxIdle));
      var sent := Run(g, inputs).1;
      Run(g, inputs + [i]).1 == sent + [Watermark(LastSent(sent)), i.element]
  {
    var g := WithIdleness(inner, IdlenessTimer(0, 0, 0, maxIdle));
    GeneratorFollowsRun(g, inputs);
    IdleMarkerIff(inner, maxIdle, CallsOf(inputs), i.clock, 0);
    SendsExactly(g, inputs, i);
  }

  // ----- exactly when the output is ordered

  /** After an end flag: what falls behind the watermark that the flag has sent. A record that is
      not dropped and is older than it, or a watermark of the assigner's own that is below it. */
  predicate FallsBehind(a: Assigner, i: Input) {
    match i.element
    case Data(r) =>
      && a.watermark <= r.timestamp
      && (r.timestamp < MAX_WATERMARK
          || (OnEvent(a.generator, r.timestamp, i.clock, 0).1.Some? && Process(a, i).0.watermark < MAX_WATERMARK))
    case StreamStatus(_, end) => !end && Process(a, i).0.watermark < MAX_WATERMARK
    case _ => false
  }

  /** An input after an end flag that falls behind it. */
  ghost predicate LateAt(g: Generator, inputs: seq<Input>, k: nat)
    requires k < |inputs|
  {
    Ended(inputs[..k]) && FallsBehind(Run(g, inputs[..k]).0, inputs[k])
  }

  lemma OrderedPrefix(a: seq<Element>, b: seq<Element>)
    requires Ordered(a + b)
    ensures Ordered(a)
  {
    var log := a + b;
    assert forall p | 0 <= p < |a| :: log[p] == a[p];
    forall q | 0 <= q < |a| && a[q].StreamStatus? ensures WatermarkBefore(a, q) {
      assert log[q].StreamStatus?;
      var p :| 0 <= p < q && log[p].Watermark?;
      assert a[p].Watermark?;
    }
  }

  /** One input after an end flag: the output stays ordered exactly when nothing falls behind. */
  lemma StepAfterEnd(a: Assigner, sent: seq<Element>, i: Input)
    requires Ordered(sent) && WatermarksUpTo(sent, MAX_WATERMARK) && Watermark(MAX_WATERMARK) in sent
    requires a.watermark <= Lag(Core(a.generator).maxTimestamp, Core(a.generator).outOfOrderness)
    requires a.watermark <= MAX_WATERMARK && !i.element.Watermark?
    ensures Ordered(sent + Process(a, i).1) <==> !FallsBehind(a, i)
    ensures WatermarksUpTo(sent + Process(a, i).1, MAX_WATERMARK)
  {
    ProcessKeepsLag(a, i);
    assert WatermarksUpTo(Process(a, i).1, MAX_WATERMARK);
    if FallsBehind(a, i) {
      BehindIsUnordered(a, sent, i);
    } else {
      NotBehindIsOrdered(a, sent, i);
    }
  }

  lemma BehindIsUnordered(a: Assigner, sent: seq<Element>, i: Input)
    requires Watermark(MAX_WATERMARK) in sent && FallsBehind(a, i)
    ensures !Ordered(sent + Process(a, i).1)
  {
    var out := Process(a, i).1;
    var k :| 0 <= k < |sent| && sent[k] == Watermark(MAX_WATERMARK);
    var n := if i.element.Data? && i.element.record.timestamp >= MAX_WATERMARK then 1 else 0;
    assert (sent + out)[k].Watermark? && (sent + out)[|sent| + n] == out[n];
  }

  lemma NotBehindIsOrdered(a: Assigner, sent: seq<Element>, i: Input)
    requires Ordered(sent) && WatermarksUpTo(sent, MAX_WATERMARK)
    requires Process(a, i).0.watermark <= MAX_WATERMARK && !i.element.Watermark? && !FallsBehind(a, i)
    ensures Ordered(sent + Process(a, i).1)
  {
    var out := Process(a, i).1;
    match i.element
    case Data(r) =>
      if r.timestamp < a.watermark {
        assert sent + out == sent;
      } else {
        OrderedAppend(sent, i.element, MAX_WATERMARK);
        if |out| == 2 {
          OrderedAppend(sent + [i.element], out[1], MAX_WATERMARK);
          assert sent + [i.element] + [out[1]] == sent + out;
        }
      }
    case StreamStatus(_, _) => OrderedAppendStatus(sent, MAX_WATERMARK, i.element, MAX_WATERMARK);
    case Barrier(_) => OrderedAppend(sent, i.element, MAX_WATERMARK);
  }

  /** An end flag has sent the largest watermark. */
  lemma {:induction false} EndedSendsMax(g: Generator, inputs: seq<Input>)
    requires Ended(inputs)
    ensures Watermark(MAX_WATERMARK) in Run(g, inputs).1
  {
    var k :| 0 <= k < |inputs| && IsEnd(inputs[k].element);
    var front := inputs[..|inputs| - 1];
    var (a, sent) := Run(g, front);
    var out := Process(a, inputs[|inputs| - 1]).1;
    assert Run(g, inputs).1 == sent + out;
    if k == |inputs| - 1 {
      assert out[0] == Watermark(MAX_WATERMARK);
      assert out[0] in out;
    } else {
      assert IsEnd(front[k].element);
      EndedSendsMax(g, front);
    }
  }

  lemma EndedSnoc(inputs: seq<Input>)
    requires inputs != []
    ensures Ended(inputs) <==> Ended(inputs[..|inputs| - 1]) || IsEnd(inputs[|inputs| - 1].element)
  {
    var front := inputs[..|inputs| - 1];
    if Ended(front) {
      var k :| 0 <= k < |front| && IsEnd(front[k].element);
      assert IsEnd(inputs[k].element);
    }
    if Ended(inputs) {
      var k :| 0 <= k < |inputs| && IsEnd(inputs[k].element);
      assert k < |front| ==> IsEnd(front[k].element);
    }
  }

  lemma LateSnoc(g: Generator, inputs: seq<Input>)
    requires inputs != []
    ensures var n := |inputs| - 1;
      (exists k :: 0 <= k < |inputs| && LateAt(g, inputs, k)) <==>
      (exists k :: 0 <= k < n && LateAt(g, inputs[..n], k)) || LateAt(g, inputs, n)
  {
    var front := inputs[..|inputs| - 1];
    forall k | 0 <= k < |front| ensures LateAt(g, front, k) <==> LateAt(g, inputs, k) {
      assert front[..k] == inputs[..k];
    }
  }

  /**
   * Exactly when the output is ordered. For every nesting of the built-in generators and every
   * stream without watermarks of its own, the output is ordered if and only if no input after
   * an end flag falls behind the watermark that the flag sent.
   */
  lemma {:induction false} OrderedIffNothingFallsBehind(g: Generator, inputs: seq<Input>)
    requires Fresh(g) && NoWatermarks(inputs)
    ensures Ordered(Run(g, inputs).1) <==> !exists k :: 0 <= k < |inputs| && LateAt(g, inputs, k)
    ensures Ordered(Run(g, inputs).1) ==>
      WatermarksUpTo(Run(g, inputs).1, if Ended(inputs) then MAX_WATERMARK else Run(g, inputs).0.watermark)
  {
    if inputs != [] {
      var n := |inputs| - 1;
      var before, i := inputs[..n], inputs[n];
      OrderedIffNothingFallsBehind(g, before);
      RunKeepsLag(g, before);
      EndedSnoc(inputs);
      LateSnoc(g, inputs);
      var (a, sent) := Run(g, before);
      var out := Process(a, i).1;
      assert Run(g, inputs).1 == sent + out;
      if !Ordered(sent) {
        if Ordered(sent + out) {
          OrderedPrefix(sent, out);
        }
      } else if Ended(before) {
        EndedSendsMax(g, before);
        StepAfterEnd(a, sent, i);
      } else {
        StepIsOrdered(a, sent, i, a.watermark);
      }
    }
  }

  /** A run in which a record after the end flag does fall behind. */
  lemma EndFlagDoesNotMoveTheWatermark()
    ensures var c := Clock(_ => 0, _ => 0);
            var inputs := [Input(StreamStatus(1, true), c), Input(Data(Record(5, [])), c)];
            !Ordered(Run(BoundedOutOfOrderness(0, 0), inputs).1)
  {
    var c := Clock(_ => 0, _ => 0);
    var g := BoundedOutOfOrderness(0, 0);
    var inputs := [Input(StreamStatus(1, true), c), Input(Data(Record(5, [])), c)];
    var first := inputs[..1];
    assert first == [inputs[0]] && first[..0] == [];
    assert Run(g, first[..0]) == (Assigner(g, 0), []);
    assert IsEnd(first[0].element);
    assert LateAt(g, inputs, 1);
    OrderedIffNothingFallsBehind(g, inputs);
  }

  // ----- the operator as an object

  class WatermarkAssignerRunnable {
    const generator: WatermarkGenerator
    var watermark: nat
    /** What the next operator has been given so far. */
    var sent: seq<Element>

    ghost predicate Valid()
      reads this, generator, generator.Repr
    {
      generator.Valid() && this !in generator.Repr
    }

    ghost function State(): Assigner
      requires Valid()
      reads this, generator, generator.Repr
    {
      Assigner(generator.Value(), watermark)
    }

    constructor (generator: WatermarkGenerator)
      requires generator.Valid()
      ensures Valid() && this.generator == generator && sent == []
      ensures State() == Assigner(generator.Value(), MIN_WATERMARK)
    {
      this.generator := generator;
      watermark := MIN_WATERMARK;
      sent := [];
    }

    method UpdateProgress(w: nat)
      modifies this
      ensures sent == old(sent) && watermark == Progress(old(watermark), w)
    {
      if w > MAX_WATERMARK {
        return;
      }
      watermark := w;
    }

    method RunElement(element: Element, clock: Clock)
      requires Valid()
      modifies this, generator.Repr
      ensures Valid()
      ensures State() == Process(old(State()), Input(element, clock)).0
      ensures sent == old(sent) + Process(old(State()), Input(element, clock)).1
    {
      match element
      case Data(r) =>
        var w := generator.Event(r.timestamp, clock, 0);
        if r.timestamp < watermark {
          return;
        }
        sent := sent + [element];
        if w.Some? {
          UpdateProgress(w.value);
          sent := sent + [Watermark(watermark)];
        }
      case StreamStatus(_, end) =>
        if end {
          sent := sent + [Watermark(MAX_WATERMARK)];
        } else {
          var w := generator.PeriodicEmit(clock, 0);
          UpdateProgress(if w.Some? then w.value else MIN_WATERMARK);
          sent := sent + [Watermark(watermark)];
        }
        sent := sent + [element];
      case Barrier(_) =>
        sent := sent + [element];
      case Watermark(_) =>
        sent := sent + [element];
    }
  }
}
