/**
 * The wire format: `Serde` of `rlink/src/core/element.rs` and `rlink/src/core/runtime.rs`, the
 * request and response frames of `rlink/src/pub_sub/network/mod.rs`.
 *
 * Decoders take what is left of a buffer; reading past its end panics, as in the source.
 */
module Codec {
  import opened Prelude
  import opened Elements
  import opened Tasks
  import opened Windows
  import BigEndian

  const NO_KEY := ChannelKey(TaskId(0, 0, 0), TaskId(0, 0, 0))

  /** An element with its routing fields and the fields that are not sent. */
  datatype Routed =
    | RoutedRecord(partition: nat, timestamp: nat, key: ChannelKey, windows: Option<seq<Window>>, trigger: Option<Window>, values: Bytes)
    | RoutedWatermark(partition: nat, timestamp: nat, key: ChannelKey, windows: Option<seq<Window>>)
    | RoutedStatus(partition: nat, timestamp: nat, key: ChannelKey, end: bool)
    | RoutedBarrier(partition: nat, checkpointId: nat, completedId: nat)
  {
    /** The fields fit their unsigned integer types. */
    ghost predicate Valid() {
      && partition < 0x1_0000
      && match this
         case RoutedRecord(_, ts, _, _, _, values) => ts < U64 && |values| < 0x1_0000_0000
         case RoutedWatermark(_, ts, _, _) => ts < U64
         case RoutedStatus(_, ts, _, _) => ts < U64
         case RoutedBarrier(_, id, completed) => id < U64 && completed < U64
    }
  }

  /** `set_channel_key`; a barrier carries none. */
  function SetKey(e: Routed, key: ChannelKey): Routed {
    match e
    case RoutedRecord(p, ts, _, windows, trigger, values) => RoutedRecord(p, ts, key, windows, trigger, values)
    case RoutedWatermark(p, ts, _, windows) => RoutedWatermark(p, ts, key, windows)
    case RoutedStatus(p, ts, _, end) => RoutedStatus(p, ts, key, end)
    case RoutedBarrier(_, _, _) => e
  }

  /** `set_partition`. */
  function SetPartition(e: Routed, partition: nat): Routed {
    match e
    case RoutedRecord(_, ts, key, windows, trigger, values) => RoutedRecord(partition, ts, key, windows, trigger, values)
    case RoutedWatermark(_, ts, key, windows) => RoutedWatermark(partition, ts, key, windows)
    case RoutedStatus(_, ts, key, end) => RoutedStatus(partition, ts, key, end)
    case RoutedBarrier(_, id, completed) => RoutedBarrier(partition, id, completed)
  }

  /** The channel key of an element; a barrier carries none. */
  function KeyOf(e: Routed): Option<ChannelKey> {
    match e
    case RoutedRecord(_, _, key, _, _, _) => Some(key)
    case RoutedWatermark(_, _, key, _) => Some(key)
    case RoutedStatus(_, _, key, _) => Some(key)
    case RoutedBarrier(_, _, _) => None
  }

  /** The same element but for its partition and its channel key. */
  predicate SameContent(e: Routed, x: Routed) {
    if e.RoutedRecord? then
      x.RoutedRecord? && x.timestamp == e.timestamp && x.windows == e.windows && x.trigger == e.trigger && x.values == e.values
    else if e.RoutedWatermark? then x.RoutedWatermark? && x.timestamp == e.timestamp && x.windows == e.windows
    else if e.RoutedStatus? then x.RoutedStatus? && x.timestamp == e.timestamp && x.end == e.end
    else x.RoutedBarrier? && x.checkpointId == e.checkpointId && x.completedId == e.completedId
  }

  // ----- elements

  function Capacity(e: Routed): nat {
    match e
    case RoutedRecord(_, _, _, _, _, values) => 15 + |values|
    case RoutedWatermark(_, _, _, _) => 11
    case RoutedStatus(_, _, _, _) => 10
    case RoutedBarrier(_, _, _) => 19
  }

  function Serialize(e: Routed): Bytes {
    match e
    case RoutedRecord(p, ts, _, _, _, values) =>
      [1] + BigEndian.Encode(p, 2) + BigEndian.Encode(ts, 8) + BigEndian.Encode(|values|, 4) + values
    case RoutedWatermark(p, ts, _, _) => [2] + BigEndian.Encode(p, 2) + BigEndian.Encode(ts, 8)
    case RoutedStatus(_, ts, _, end) => [3] + [if end then 1 else 0] + BigEndian.Encode(ts, 8)
    case RoutedBarrier(p, id, completed) => [4] + BigEndian.Encode(p, 2) + BigEndian.Encode(id, 8) + BigEndian.Encode(completed, 8)
  }

  /** What arrives: channel key and windows are not sent, and neither is the partition of a status. */
  function Received(e: Routed): Routed {
    match e
    case RoutedRecord(p, ts, _, _, _, values) => RoutedRecord(p, ts, NO_KEY, None, None, values)
    case RoutedWatermark(p, ts, _, _) => RoutedWatermark(p, ts, NO_KEY, None)
    case RoutedStatus(_, ts, _, end) => RoutedStatus(0, ts, NO_KEY, end)
    case RoutedBarrier(_, _, _) => e
  }

  function U(bs: Bytes, from: nat, n: nat): nat
    requires from + n <= |bs|
  {
    BigEndian.Decode(bs[from..from + n])
  }

  function Deserialize(bs: Bytes): Outcome<Routed> {
    if |bs| == 0 then Panic
    else if bs[0] == 1 then
      if |bs| < 15 || |bs| - 15 != U(bs, 11, 4) then Panic
      else Done(RoutedRecord(U(bs, 1, 2), U(bs, 3, 8), NO_KEY, None, None, bs[15..]))
    else if bs[0] == 2 then
      if |bs| < 11 then Panic else Done(RoutedWatermark(U(bs, 1, 2), U(bs, 3, 8), NO_KEY, None))
    else if bs[0] == 3 then
      if |bs| < 10 then Panic else Done(RoutedStatus(0, U(bs, 2, 8), NO_KEY, bs[1] == 1))
    else if bs[0] == 4 then
      if |bs| < 19 then Panic else Done(RoutedBarrier(U(bs, 1, 2), U(bs, 3, 8), U(bs, 11, 8)))
    else Panic
  }

  lemma UOfEncode(before: Bytes, v: nat, n: nat, after: Bytes)
    requires v < BigEndian.Pow256(n)
    ensures U(before + BigEndian.Encode(v, n) + after, |before|, n) == v
  {
    var bs := before + BigEndian.Encode(v, n) + after;
    assert bs[|before|..|before| + n] == BigEndian.Encode(v, n);
    BigEndian.DecodeEncode(v, n);
  }

  lemma RecordRoundTrip(p: nat, ts: nat, values: Bytes)
    requires p < 0x1_0000 && ts < U64 && |values| < 0x1_0000_0000
    ensures var bs := [1] + BigEndian.Encode(p, 2) + BigEndian.Encode(ts, 8) + BigEndian.Encode(|values|, 4) + values;
      |bs| == 15 + |values| && bs[0] == 1 && U(bs, 1, 2) == p && U(bs, 3, 8) == ts && U(bs, 11, 4) == |values| && bs[15..] == values
  {
    BigEndian.Widths();
    var a, b, c := BigEndian.Encode(p, 2), BigEndian.Encode(ts, 8), BigEndian.Encode(|values|, 4);
    var bs := [1] + a + b + c + values;
    UOfEncode([1], p, 2, b + c + values);
    assert bs == [1] + a + (b + c + values);
    UOfEncode([1] + a, ts, 8, c + values);
    assert bs == [1] + a + b + (c + values);
    UOfEncode([1] + a + b, |values|, 4, values);
  }

  lemma TwoFieldsRoundTrip(tag: byte, p: nat, ts: nat, rest: Bytes)
    requires p < 0x1_0000 && ts < U64
    ensures var bs := [tag] + BigEndian.Encode(p, 2) + BigEndian.Encode(ts, 8) + rest;
      |bs| == 11 + |rest| && bs[0] == tag && U(bs, 1, 2) == p && U(bs, 3, 8) == ts
  {
    BigEndian.Widths();
    var a, b := BigEndian.Encode(p, 2), BigEndian.Encode(ts, 8);
    var bs := [tag] + a + b + rest;
    UOfEncode([tag], p, 2, b + rest);
    assert bs == [tag] + a + (b + rest);
    UOfEncode([tag] + a, ts, 8, rest);
  }

  /** Elements survive the wire, but for the fields that are not sent, and `capacity` is exact. */
  lemma ElementRoundTrip(e: Routed)
    requires e.Valid()
    ensures Deserialize(Serialize(e)) == Done(Received(e))
    ensures |Serialize(e)| == Capacity(e)
  {
    BigEndian.Widths();
    match e
    case RoutedRecord(p, ts, _, _, _, values) => RecordRoundTrip(p, ts, values);
    case RoutedWatermark(p, ts, _, _) =>
      TwoFieldsRoundTrip(2, p, ts, []);
      assert Serialize(e) + [] == Serialize(e);
    case RoutedStatus(_, ts, _, end) =>
      UOfEncode([3] + [if end then 1 else 0], ts, 8, []);
      assert Serialize(e) + [] == Serialize(e);
    case RoutedBarrier(p, id, completed) =>
      TwoFieldsRoundTrip(4, p, id, BigEndian.Encode(completed, 8));
      UOfEncode([4] + BigEndian.Encode(p, 2) + BigEndian.Encode(id, 8), completed, 8, []);
      assert Serialize(e) + [] == Serialize(e);
  }

  /** The header of a frame tells its length. */
  lemma HeaderOfFrame(body: Bytes)
    requires |body| < 0x1_0000_0000
    ensures var frame := BigEndian.Encode(|body|, 4) + body;
      |frame| == 4 + |body| && U(frame, 0, 4) == |body| && frame[4..] == body
  {
    BigEndian.Widths();
    UOfEncode([], |body|, 4, body);
    assert [] + BigEndian.Encode(|body|, 4) + body == BigEndian.Encode(|body|, 4) + body;
  }

  // ----- requests

  datatype Request = Request(key: ChannelKey, batchPullSize: nat, batchId: nat) {
    ghost predicate Valid() {
      key.Valid() && batchPullSize < 0x1_0000 && batchId < 0x1_0000
    }
  }

  const REQUEST_BODY_LEN: nat := 20

  function SerializeTask(t: TaskId): Bytes {
    BigEndian.Encode(t.jobId, 4) + BigEndian.Encode(t.taskNumber, 2) + BigEndian.Encode(t.numTasks, 2)
  }

  function DeserializeTask(bs: Bytes, from: nat): TaskId
    requires from + 8 <= |bs|
  {
    TaskId(U(bs, from, 4), U(bs, from + 4, 2), U(bs, from + 6, 2))
  }

  function RequestBody(r: Request): Bytes {
    SerializeTask(r.key.source) + SerializeTask(r.key.target) + BigEndian.Encode(r.batchPullSize, 2) + BigEndian.Encode(r.batchId, 2)
  }

  function EncodeRequest(r: Request): Bytes {
    BigEndian.Encode(REQUEST_BODY_LEN, 4) + RequestBody(r)
  }

  function DecodeRequestBody(body: Bytes): Request
    requires |body| == REQUEST_BODY_LEN
  {
    Request(ChannelKey(DeserializeTask(body, 0), DeserializeTask(body, 8)), U(body, 16, 2), U(body, 18, 2))
  }

  /** None stands for the error about an illegal body length. */
  function DecodeRequest(frame: Bytes): Outcome<Option<Request>> {
    if |frame| < 4 || |frame| - 4 != U(frame, 0, 4) then Panic
    else if U(frame, 0, 4) != REQUEST_BODY_LEN then Done(None)
    else Done(Some(DecodeRequestBody(frame[4..])))
  }

  lemma TaskRoundTrip(before: Bytes, t: TaskId, after: Bytes)
    requires t.Valid()
    ensures |SerializeTask(t)| == 8 && DeserializeTask(before + SerializeTask(t) + after, |before|) == t
  {
    BigEndian.Widths();
    var a, b, c := BigEndian.Encode(t.jobId, 4), BigEndian.Encode(t.taskNumber, 2), BigEndian.Encode(t.numTasks, 2);
    var bs := before + SerializeTask(t) + after;
    UOfEncode(before, t.jobId, 4, b + c + after);
    assert bs == before + a + (b + c + after);
    UOfEncode(before + a, t.taskNumber, 2, c + after);
    assert bs == before + a + b + (c + after);
    UOfEncode(before + a + b, t.numTasks, 2, after);
    assert bs == before + a + b + c + after;
  }

  lemma BodySource(r: Request)
    requires r.Valid()
    ensures DeserializeTask(RequestBody(r), 0) == r.key.source
  {
    var s, t := SerializeTask(r.key.source), SerializeTask(r.key.target);
    var p, b := BigEndian.Encode(r.batchPullSize, 2), BigEndian.Encode(r.batchId, 2);
    TaskRoundTrip([], r.key.source, t + p + b);
    assert RequestBody(r) == [] + s + (t + p + b);
  }

  lemma BodyTarget(r: Request)
    requires r.Valid()
    ensures DeserializeTask(RequestBody(r), 8) == r.key.target
  {
    var s, t := SerializeTask(r.key.source), SerializeTask(r.key.target);
    var p, b := BigEndian.Encode(r.batchPullSize, 2), BigEndian.Encode(r.batchId, 2);
    TaskRoundTrip([], r.key.source, []);
    TaskRoundTrip(s, r.key.target, p + b);
    Regrouped(s + t, p, b);
  }

  lemma BodyNumbers(r: Request)
    requires r.Valid()
    ensures |RequestBody(r)| == REQUEST_BODY_LEN
    ensures U(RequestBody(r), 16, 2) == r.batchPullSize && U(RequestBody(r), 18, 2) == r.batchId
  {
    BigEndian.Widths();
    TaskRoundTrip([], r.key.source, []);
    TaskRoundTrip([], r.key.target, []);
    var tasks := SerializeTask(r.key.source) + SerializeTask(r.key.target);
    var p, b := BigEndian.Encode(r.batchPullSize, 2), BigEndian.Encode(r.batchId, 2);
    UOfEncode(tasks, r.batchPullSize, 2, b);
    assert tasks + p + b + [] == RequestBody(r);
    UOfEncode(tasks + p, r.batchId, 2, []);
  }

  lemma BodyRoundTrip(r: Request)
    requires r.Valid()
    ensures |RequestBody(r)| == REQUEST_BODY_LEN && DecodeRequestBody(RequestBody(r)) == r
  {
    BodySource(r);
    BodyTarget(r);
    BodyNumbers(r);
  }

  /** A request is 24 bytes and decodes to itself. */
  lemma RequestRoundTrip(r: Request)
    requires r.Valid()
    ensures |EncodeRequest(r)| == 24 && DecodeRequest(EncodeRequest(r)) == Done(Some(r))
    ensures U(EncodeRequest(r), 0, 4) == REQUEST_BODY_LEN
  {
    BodyRoundTrip(r);
    HeaderOfFrame(RequestBody(r));
  }

  // ----- responses

  datatype Code = Unknown | Ok | BatchFinish | Empty | NoService

  function CodeByte(c: Code): byte {
    match c case Unknown => 0 case Ok => 1 case BatchFinish => 2 case Empty => 3 case NoService => 4
  }

  function CodeOf(b: byte): Code {
    if b == 1 then Ok else if b == 2 then BatchFinish else if b == 3 then Empty else if b == 4 then NoService else Unknown
  }

  datatype Response = Response(code: Code, element: Option<Routed>)

  /** The `unwrap` and the final length assertion of the encoder are the panics. */
  function EncodeResponse(r: Response): Outcome<Bytes> {
    if r.code.Ok? then
      if r.element.None? then Panic
      else
        var body := [CodeByte(Ok)] + Serialize(r.element.value);
        var frame := BigEndian.Encode(1 + Capacity(r.element.value), 4) + body;
        if |frame| != 4 + 1 + Capacity(r.element.value) then Panic else Done(frame)
    else Done(BigEndian.Encode(1, 4) + [CodeByte(r.code)])
  }

  /** None stands for the error about an unknown code. */
  function DecodeResponse(frame: Bytes): Outcome<Option<Response>> {
    if |frame| < 5 || |frame| - 4 != U(frame, 0, 4) then Panic
    else
      var code := CodeOf(frame[4]);
      if code.Unknown? then Done(None)
      else if code.Ok? then
        match Deserialize(frame[5..])
        case Panic => Panic
        case Done(e) => Done(Some(Response(Ok, Some(e))))
      else Done(Some(Response(code, None)))
  }

  /** An element fits a frame of the reader. */
  predicate Fits(e: Routed) {
    1 + Capacity(e) <= MAX_FRAME_LENGTH
  }

  const MAX_FRAME_LENGTH: nat := 3 * 1024 * 1024

  lemma DecodeOk(bs: Bytes, e: Routed)
    requires Deserialize(bs) == Done(e) && 1 + |bs| < 0x1_0000_0000
    ensures DecodeResponse(BigEndian.Encode(1 + |bs|, 4) + ([1] + bs)) == Done(Some(Response(Ok, Some(e))))
  {
    var body: Bytes := [1] + bs;
    var frame := BigEndian.Encode(|body|, 4) + body;
    HeaderOfFrame(body);
    assert frame[4] == frame[4..][0] == 1;
    assert frame[5..] == frame[4..][1..] == bs;
  }

  /** A response frame decodes to the response, as it arrives. */
  lemma OkRoundTrip(e: Routed)
    requires e.Valid() && 1 + Capacity(e) < 0x1_0000_0000
    ensures var frame := EncodeResponse(Response(Ok, Some(e)));
      && frame.Done? && |frame.value| == 5 + Capacity(e) && U(frame.value, 0, 4) == 1 + Capacity(e)
      && DecodeResponse(frame.value) == Done(Some(Response(Ok, Some(Received(e)))))
  {
    ElementRoundTrip(e);
    var bs := Serialize(e);
    HeaderOfFrame([1] + bs);
    DecodeOk(bs, Received(e));
    assert EncodeResponse(Response(Ok, Some(e))) == Done(BigEndian.Encode(1 + |bs|, 4) + ([1] + bs));
  }

  lemma EndRoundTrip(code: Code)
    requires code == BatchFinish || code == Empty || code == NoService
    ensures var frame := EncodeResponse(Response(code, None));
      && frame.Done? && |frame.value| == 5 && U(frame.value, 0, 4) == 1
      && DecodeResponse(frame.value) == Done(Some(Response(code, None)))
  {
    HeaderOfFrame([CodeByte(code)]);
    var frame := BigEndian.Encode(1, 4) + [CodeByte(code)];
    assert frame[4] == frame[4..][0];
  }

  // ----- frames of a byte stream

  datatype NextFrame = Frame(frame: Bytes, rest: Bytes) | Incomplete | TooLong

  /** The length-delimited reader: a frame is its four-byte length and that many bytes. */
  function ReadFrame(stream: Bytes): NextFrame {
    if |stream| < 4 then Incomplete
    else
      var n := U(stream, 0, 4);
      if n > MAX_FRAME_LENGTH then TooLong
      else if |stream| < n + 4 then Incomplete
      else Frame(stream[..n + 4], stream[n + 4..])
  }

  lemma ReadFrameOfFrame(frame: Bytes, rest: Bytes)
    requires |frame| >= 4 && U(frame, 0, 4) == |frame| - 4
    ensures ReadFrame(frame + rest) == if |frame| - 4 <= 3145728 then Frame(frame, rest) else TooLong
  {
    assert (frame + rest)[0..4] == frame[0..4];
    assert (frame + rest)[..|frame|] == frame && (frame + rest)[|frame|..] == rest;
  }
}
