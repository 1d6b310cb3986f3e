/**
 * The pull protocol between a client task and the server that holds its channel:
 * `rlink/src/pub_sub/network/client.rs` and `server.rs`, over the bytes of `Codec`.
 */
module NetworkPull {
  import opened Prelude
  import opened Elements
  import opened Tasks
  import opened Codec

  // ----- the server

  /** The bytes of a batch: one frame for each element, then one that ends the batch. */
  function OkFrame(e: Routed): (frame: Bytes)
    ensures EncodeResponse(Response(Ok, Some(e))) == Done(frame)
  {
    CapacityIsExact(e);
    EncodeResponse(Response(Ok, Some(e))).value
  }

  function EndFrame(code: Code): (frame: Bytes)
    requires !code.Ok?
    ensures EncodeResponse(Response(code, None)) == Done(frame)
  {
    EncodeResponse(Response(code, None)).value
  }

  lemma CapacityIsExact(e: Routed)
    ensures |Serialize(e)| == Capacity(e)
  {
  }

  function ElementFrames(list: seq<Routed>): Bytes {
    if list == [] then [] else OkFrame(list[0]) + ElementFrames(list[1..])
  }

  function BatchBytes(list: seq<Routed>, batch: nat): Bytes {
    ElementFrames(list) + EndFrame(if |list| == batch then BatchFinish else Empty)
  }

  class Channel {
    var queue: seq<Routed>

    method TryRecv() returns (r: Option<Routed>)
      modifies this
      ensures old(queue) == [] ==> r == None && queue == []
      ensures old(queue) != [] ==> r == Some(old(queue)[0]) && queue == old(queue)[1..]
    {
      if queue == [] {
        return None;
      }
      r := Some(queue[0]);
      queue := queue[1..];
    }
  }

  /** Takes up to a batch of elements from the front of the queue. */
  method BatchReceive(channel: Channel, batch: nat) returns (list: seq<Routed>)
    modifies channel
    ensures list + channel.queue == old(channel.queue)
    ensures |list| == if |old(channel.queue)| < batch then |old(channel.queue)| else batch
  {
    list := [];
    for n := 0 to batch
      invariant list + channel.queue == old(channel.queue) && |list| == n
    {
      var r := channel.TryRecv();
      match r
      case None => break;
      case Some(e) => list := list + [e];
    }
  }

  /** A channel that is not there yet yields an empty batch. */
  method BatchGet(channels: map<ChannelKey, Channel>, key: ChannelKey, batch: nat) returns (list: seq<Routed>)
    modifies if key in channels then {channels[key]} else {}
    ensures key !in channels ==> list == []
    ensures key in channels ==>
      && list + channels[key].queue == old(channels[key].queue)
      && |list| == if |old(channels[key].queue)| < batch then |old(channels[key].queue)| else batch
  {
    if key in channels {
      list := BatchReceive(channels[key], batch);
    } else {
      list := [];
    }
  }

  /** Writes the batch to the connection. */
  method BatchSend(list: seq<Routed>, batch: nat) returns (bytes: Bytes)
    ensures bytes == BatchBytes(list, batch)
    ensures var code := if |list| == batch then BatchFinish else Empty;
      |bytes| >= 5 && DecodeResponse(bytes[|bytes| - 5..]) == Done(Some(Response(code, None)))
  {
    bytes := [];
    for i := 0 to |list|
      invariant bytes + ElementFrames(list[i..]) == ElementFrames(list)
    {
      assert list[i..][1..] == list[i + 1..];
      bytes := bytes + OkFrame(list[i]);
    }
    assert bytes + [] == bytes;
    var end := EndFrame(if |list| == batch then BatchFinish else Empty);
    EndRoundTrip(if |list| == batch then BatchFinish else Empty);
    bytes := bytes + end;
    assert bytes[|bytes| - 5..] == end;
  }

  // ----- the client

  /** `Failed` stands for the errors that end the connection, `Unreachable` for a panic. */
  datatype Pulled = Batch(elements: seq<Routed>, rest: Bytes) | Failed | Unreachable

  /** The loop of `recv_element` from turn `n` on. */
  function Recv(stream: Bytes, n: nat, turns: nat, key: ChannelKey, got: seq<Routed>): Pulled
    decreases turns - n
  {
    if n >= turns then Unreachable
    else
      match ReadFrame(stream)
      case Incomplete => Failed
      case TooLong => Failed
      case Frame(frame, rest) =>
        match DecodeResponse(frame)
        case Panic => Unreachable
        case Done(None) => Failed
        case Done(Some(response)) =>
          match response.code
          case Ok =>
            if response.element.None? then Unreachable
            else Recv(rest, n + 1, turns, key, got + [SetKey(response.element.value, key)])
          case BatchFinish => Batch(got, rest)
          case Empty => Batch(got, rest)
          case NoService => Failed
          case Unknown => Failed
  }

  /** `batch_size + 1` turns, in 16 bits. */
  function Turns(batch: nat): nat {
    (batch + 1) % 0x1_0000
  }

  method RecvElement(stream: Bytes, key: ChannelKey, batch: nat) returns (r: Pulled)
    ensures r == Recv(stream, 0, Turns(batch), key, [])
  {
    var rest, got := stream, [];
    for n := 0 to Turns(batch)
      invariant Recv(rest, n, Turns(batch), key, got) == Recv(stream, 0, Turns(batch), key, [])
    {
      var next := ReadFrame(rest);
      if !next.Frame? {
        return Failed;
      }
      var decoded := DecodeResponse(next.frame);
      if decoded.Panic? {
        return Unreachable;
      }
      if decoded.value.None? {
        return Failed;
      }
      var response := decoded.value.value;
      match response.code
      case Ok =>
        if response.element.None? {
          return Unreachable;
        }
        got := got + [SetKey(response.element.value, key)];
        rest := next.rest;
      case BatchFinish => return Batch(got, next.rest);
      case Empty => return Batch(got, next.rest);
      case NoService => return Failed;
      case Unknown => return Failed;
    }
    r := Unreachable;
  }

  /** The client's copy of an element, field by field: what is sent survives, and the channel's key is set. */
  predicate Copied(e: Routed, x: Routed, key: ChannelKey) {
    match e
    case RoutedRecord(p, ts, _, _, _, values) =>
      x.RoutedRecord? && x.partition == p && x.timestamp == ts && x.values == values && x.key == key
    case RoutedWatermark(p, ts, _, _) => x.RoutedWatermark? && x.partition == p && x.timestamp == ts && x.key == key
    case RoutedStatus(_, ts, _, end) => x.RoutedStatus? && x.timestamp == ts && x.end == end && x.key == key
    case RoutedBarrier(p, id, completed) =>
      x.RoutedBarrier? && x.partition == p && x.checkpointId == id && x.completedId == completed
  }

  ghost predicate AllCopied(list: seq<Routed>, got: seq<Routed>, key: ChannelKey) {
    |got| == |list| && forall i | 0 <= i < |list| :: Copied(list[i], got[i], key)
  }

  lemma SeenIsCopied(list: seq<Routed>, key: ChannelKey)
    ensures AllCopied(list, SeenAll(list, key), key)
  {
  }

  /** An element as the client hands it on. */
  function Seen(e: Routed, key: ChannelKey): Routed {
    SetKey(Codec.Received(e), key)
  }

  function SeenAll(list: seq<Routed>, key: ChannelKey): seq<Routed> {
    seq(|list|, i requires 0 <= i < |list| => Seen(list[i], key))
  }

  lemma FrameOfElement(e: Routed, rest: Bytes)
    requires e.Valid() && 1 + Capacity(e) < 0x1_0000_0000
    ensures ReadFrame(OkFrame(e) + rest) == if Fits(e) then Frame(OkFrame(e), rest) else TooLong
    ensures DecodeResponse(OkFrame(e)) == Done(Some(Response(Ok, Some(Codec.Received(e)))))
  {
    OkRoundTrip(e);
    ReadFrameOfFrame(OkFrame(e), rest);
  }

  lemma FrameOfEnd(code: Code, rest: Bytes)
    requires code == BatchFinish || code == Empty
    ensures ReadFrame(EndFrame(code) + rest) == Frame(EndFrame(code), rest)
    ensures DecodeResponse(EndFrame(code)) == Done(Some(Response(code, None)))
  {
    EndRoundTrip(code);
    ReadFrameOfFrame(EndFrame(code), rest);
  }

  /** Elements that a 32-bit length can describe. */
  ghost predicate Encodable(list: seq<Routed>) {
    forall e | e in list :: e.Valid() && 1 + Capacity(e) < 0x1_0000_0000
  }

  predicate AllFit(list: seq<Routed>) {
    forall e | e in list :: Fits(e)
  }

  /** One turn of the loop that reads an element. */
  lemma RecvTurn(stream: Bytes, frame: Bytes, rest: Bytes, e: Routed, n: nat, turns: nat, key: ChannelKey, got: seq<Routed>)
    requires ReadFrame(stream) == Frame(frame, rest) && n < turns
    requires DecodeResponse(frame) == Done(Some(Response(Ok, Some(e))))
    ensures Recv(stream, n, turns, key, got) == Recv(rest, n + 1, turns, key, got + [SetKey(e, key)])
  {
  }

  lemma RecvEnd(stream: Bytes, frame: Bytes, rest: Bytes, code: Code, n: nat, turns: nat, key: ChannelKey, got: seq<Routed>)
    requires ReadFrame(stream) == Frame(frame, rest) && n < turns && (code == BatchFinish || code == Empty)
    requires DecodeResponse(frame) == Done(Some(Response(code, None)))
    ensures Recv(stream, n, turns, key, got) == Batch(got, rest)
  {
  }

  /** The bytes from an element on to the end of its batch and beyond. */
  function Tail(list: seq<Routed>, code: Code, rest: Bytes): Bytes
    requires !code.Ok?
  {
    ElementFrames(list) + EndFrame(code) + rest
  }

  lemma TailUnfolds(list: seq<Routed>, code: Code, rest: Bytes)
    requires !code.Ok?
    ensures list == [] ==> Tail(list, code, rest) == EndFrame(code) + rest
    ensures list != [] ==> Tail(list, code, rest) == OkFrame(list[0]) + Tail(list[1..], code, rest)
  {
  }

  /** The turn that reads an element's frame. */
  lemma RecvElementFrame(e: Routed, after: Bytes, n: nat, turns: nat, key: ChannelKey, got: seq<Routed>)
    requires e.Valid() && 1 + Capacity(e) < 0x1_0000_0000 && n < turns
    ensures Recv(OkFrame(e) + after, n, turns, key, got) ==
      if Fits(e) then Recv(after, n + 1, turns, key, got + [Seen(e, key)]) else Failed
  {
    FrameOfElement(e, after);
    if Fits(e) {
      RecvTurn(OkFrame(e) + after, OkFrame(e), after, Codec.Received(e), n, turns, key, got);
    } else {
      RecvTooLong(OkFrame(e) + after, n, turns, key, got);
    }
  }

  lemma RecvEndFrame(code: Code, rest: Bytes, n: nat, turns: nat, key: ChannelKey, got: seq<Routed>)
    requires (code == BatchFinish || code == Empty) && n < turns
    ensures Recv(EndFrame(code) + rest, n, turns, key, got) == Batch(got, rest)
  {
    FrameOfEnd(code, rest);
    RecvEnd(EndFrame(code) + rest, EndFrame(code), rest, code, n, turns, key, got);
  }

  lemma BatchUncons(list: seq<Routed>, key: ChannelKey, got: seq<Routed>)
    requires list != []
    ensures AllFit(list) <==> Fits(list[0]) && AllFit(list[1..])
    ensures Encodable(list) ==> Encodable(list[1..])
    ensures got + [Seen(list[0], key)] + SeenAll(list[1..], key) == got + SeenAll(list, key)
  {
    assert list == [list[0]] + list[1..];
  }

  lemma {:induction false} RecvSeen(list: seq<Routed>, code: Code, rest: Bytes, n: nat, turns: nat, key: ChannelKey, got: seq<Routed>)
    requires Encodable(list) && (code == BatchFinish || code == Empty) && n + |list| < turns
    ensures Recv(Tail(list, code, rest), n, turns, key, got) ==
      if AllFit(list) then Batch(got + SeenAll(list, key), rest) else Failed
  {
    TailUnfolds(list, code, rest);
    if list == [] {
      RecvEndFrame(code, rest, n, turns, key, got);
      assert got + SeenAll(list, key) == got;
    } else {
      var e, tail := list[0], list[1..];
      BatchUncons(list, key, got);
      RecvElementFrame(e, Tail(tail, code, rest), n, turns, key, got);
      RecvSeen(tail, code, rest, n + 1, turns, key, got + [Seen(e, key)]);
    }
  }

  /** The client's loop on a batch: a copy of every element, in order, if all of them fit a frame, else a failure. */
  lemma RecvBatch(list: seq<Routed>, code: Code, rest: Bytes, n: nat, turns: nat, key: ChannelKey, got: seq<Routed>)
    requires Encodable(list) && (code == BatchFinish || code == Empty) && n + |list| < turns
    ensures var r := Recv(Tail(list, code, rest), n, turns, key, got);
      if AllFit(list)
      then r.Batch? && r.rest == rest && got <= r.elements && AllCopied(list, r.elements[|got|..], key)
      else r == Failed
  {
    RecvSeen(list, code, rest, n, turns, key, got);
    SeenIsCopied(list, key);
    assert (got + SeenAll(list, key))[|got|..] == SeenAll(list, key);
  }

  lemma RecvTooLong(stream: Bytes, n: nat, turns: nat, key: ChannelKey, got: seq<Routed>)
    requires ReadFrame(stream) == TooLong && n < turns
    ensures Recv(stream, n, turns, key, got) == Failed
  {
  }

  // ----- whole runs

  /** All that was put into the channel, how much the server has taken, what the client has received. */
  datatype State = State(put: seq<Routed>, taken: nat, got: seq<Routed>, requests: nat)

  datatype Event = Put(element: Routed) | Pull

  function Min(a: nat, b: nat): nat { if a < b then a else b }

  /** One request over the wire and its answer; anything but a full batch is a failure of the run. */
  function PullOnce(s: State, key: ChannelKey, batch: nat): Outcome<State>
    requires s.taken <= |s.put|
  {
    match ReadFrame(EncodeRequest(Request(key, batch, s.requests % 0x1_0000)))
    case Incomplete => Panic
    case TooLong => Panic
    case Frame(frame, _) =>
      match DecodeRequest(frame)
      case Panic => Panic
      case Done(None) => Panic
      case Done(Some(request)) => Answer(s, key, request.batchPullSize, batch)
  }

  /** The server answers a request for `asked` elements, and the client reads the answer. */
  function Answer(s: State, key: ChannelKey, asked: nat, batch: nat): Outcome<State>
    requires s.taken <= |s.put|
  {
    Settle(s, |NextBatch(s, asked)|, Recv(BatchBytes(NextBatch(s, asked), asked), 0, Turns(batch), key, []))
  }

  /** What the next request takes. */
  function NextBatch(s: State, batch: nat): seq<Routed>
    requires s.taken <= |s.put|
  {
    s.put[s.taken..s.taken + Min(batch, |s.put| - s.taken)]
  }

  function Settle(s: State, n: nat, pulled: Pulled): Outcome<State> {
    match pulled
    case Failed => Panic
    case Unreachable => Panic
    case Batch(elements, rest) =>
      if rest != [] then Panic
      else Done(State(s.put, s.taken + n, s.got + elements, s.requests + 1))
  }

  function Exec(events: seq<Event>, key: ChannelKey, batch: nat): (r: Outcome<State>)
    ensures r.Done? ==> r.value.taken <= |r.value.put|
  {
    if events == [] then Done(State([], 0, [], 0))
    else
      match Exec(events[..|events| - 1], key, batch)
      case Panic => Panic
      case Done(s) =>
        match events[|events| - 1]
        case Put(e) => Done(s.(put := s.put + [e]))
        case Pull => PullOnce(s, key, batch)
  }

  lemma BatchIsDelivered(list: seq<Routed>, batch: nat, key: ChannelKey)
    requires Encodable(list) && |list| <= batch < 0xFFFF
    ensures Recv(BatchBytes(list, batch), 0, Turns(batch), key, []) ==
      if AllFit(list) then Batch(SeenAll(list, key), []) else Failed
  {
    var code := if |list| == batch then BatchFinish else Empty;
    RecvSeen(list, code, [], 0, Turns(batch), key, []);
    assert Tail(list, code, []) == BatchBytes(list, batch);
    assert [] + SeenAll(list, key) == SeenAll(list, key);
  }

  lemma RequestArrives(request: Request)
    requires request.Valid()
    ensures ReadFrame(EncodeRequest(request)) == Frame(EncodeRequest(request), [])
    ensures DecodeRequest(EncodeRequest(request)) == Done(Some(request))
  {
    RequestRoundTrip(request);
    ReadFrameOfFrame(EncodeRequest(request), []);
    assert EncodeRequest(request) + [] == EncodeRequest(request);
  }

  /** The state after a batch of `list` has been taken and received. */
  function Delivered(s: State, list: seq<Routed>, key: ChannelKey): State {
    State(s.put, s.taken + |list|, s.got + SeenAll(list, key), s.requests + 1)
  }

  lemma SettleDelivers(s: State, list: seq<Routed>, key: ChannelKey, fit: bool)
    ensures Settle(s, |list|, if fit then Batch(SeenAll(list, key), []) else Failed) ==
      if fit then Done(Delivered(s, list, key)) else Panic
  {
  }

  lemma NextBatchIsEncodable(s: State, batch: nat)
    requires s.taken <= |s.put| && Encodable(s.put)
    ensures Encodable(NextBatch(s, batch)) && |NextBatch(s, batch)| <= batch
  {
    assert forall e | e in NextBatch(s, batch) :: e in s.put;
  }

  lemma AnswerDelivers(s: State, key: ChannelKey, batch: nat)
    requires s.taken <= |s.put| && Encodable(s.put) && batch < 0xFFFF
    ensures var list := NextBatch(s, batch);
      Answer(s, key, batch, batch) == if AllFit(list) then Done(Delivered(s, list, key)) else Panic
  {
    var list := NextBatch(s, batch);
    NextBatchIsEncodable(s, batch);
    BatchIsDelivered(list, batch, key);
    SettleDelivers(s, list, key, AllFit(list));
  }

  lemma RequestIsAnswered(s: State, key: ChannelKey, batch: nat)
    requires s.taken <= |s.put| && key.Valid() && batch < 0xFFFF
    ensures PullOnce(s, key, batch) == Answer(s, key, batch, batch)
  {
    RequestArrives(Request(key, batch, s.requests % 0x1_0000));
  }

  lemma PullTakesBatch(s: State, key: ChannelKey, batch: nat)
    requires s.taken <= |s.put| && Encodable(s.put) && key.Valid() && batch < 0xFFFF
    ensures var list := NextBatch(s, batch);
      PullOnce(s, key, batch) == if AllFit(list) then Done(Delivered(s, list, key)) else Panic
  {
    RequestIsAnswered(s, key, batch);
    AnswerDelivers(s, key, batch);
  }

  /** A request takes the next `batch` elements, or all that are left. */
  ghost predicate Took(s: State, s': State, batch: nat, key: ChannelKey) {
    && s'.put == s.put && s'.requests == s.requests + 1
    && s.taken <= s'.taken <= |s.put| && (s'.taken == s.taken + batch || (s'.taken == |s.put| && s'.taken < s.taken + batch))
    && s.got <= s'.got && AllCopied(s.put[s.taken..s'.taken], s'.got[|s.got|..], key)
  }

  /** A request delivers a copy of its batch if every element of it fits a frame, and fails otherwise. */
  lemma PullDelivers(s: State, key: ChannelKey, batch: nat)
    requires s.taken <= |s.put| && Encodable(s.put) && key.Valid() && batch < 0xFFFF
    ensures var r := PullOnce(s, key, batch);
      && (r.Done? <==> forall i | s.taken <= i < |s.put| && i < s.taken + batch :: Fits(s.put[i]))
      && (r.Done? ==> Took(s, r.value, batch, key))
  {
    var list := NextBatch(s, batch);
    PullTakesBatch(s, key, batch);
    assert AllFit(list) <==> forall i | s.taken <= i < |s.put| && i < s.taken + batch :: Fits(s.put[i]) by {
      FitsInBatch(s, batch);
    }
    SeenIsCopied(list, key);
    assert (s.got + SeenAll(list, key))[|s.got|..] == SeenAll(list, key);
  }

  lemma FitsInBatch(s: State, batch: nat)
    requires s.taken <= |s.put|
    ensures AllFit(NextBatch(s, batch)) <==> forall i | s.taken <= i < |s.put| && i < s.taken + batch :: Fits(s.put[i])
  {
    var list := NextBatch(s, batch);
    if AllFit(list) {
      forall i | s.taken <= i < |s.put| && i < s.taken + batch ensures Fits(s.put[i]) {
        assert list[i - s.taken] == s.put[i] && list[i - s.taken] in list;
      }
    }
  }

  /** Everything put fits a frame, and the client holds exactly what was taken. */
  ghost predicate Lossless(s: State, key: ChannelKey) {
    s.taken <= |s.put| && Encodable(s.put) && AllFit(s.put) && s.got == SeenAll(s.put[..s.taken], key)
  }

  lemma PullKeepsLossless(s: State, key: ChannelKey, batch: nat)
    requires Lossless(s, key)
    ensures AllFit(NextBatch(s, batch)) && Lossless(Delivered(s, NextBatch(s, batch), key), key)
  {
    var list := NextBatch(s, batch);
    assert forall x | x in list :: x in s.put;
    SeenAllConcat(s.put[..s.taken], list, key);
    assert s.put[..s.taken] + list == s.put[..s.taken + |list|];
  }

  lemma PutKeepsLossless(s: State, key: ChannelKey, e: Routed)
    requires Lossless(s, key) && e.Valid() && Fits(e)
    ensures Lossless(s.(put := s.put + [e]), key)
  {
    assert (s.put + [e])[..s.taken] == s.put[..s.taken];
  }

  lemma PullStep(s: State, key: ChannelKey, batch: nat)
    requires Lossless(s, key) && key.Valid() && batch < 0xFFFF
    ensures var r := PullOnce(s, key, batch); r.Done? && Lossless(r.value, key) && Took(s, r.value, batch, key)
  {
    PullKeepsLossless(s, key, batch);
    PullTakesBatch(s, key, batch);
    PullDelivers(s, key, batch);
  }

  lemma {:induction false} AlwaysLossless(events: seq<Event>, key: ChannelKey, batch: nat)
    requires key.Valid() && batch < 0xFFFF && AllPutsFit(events)
    ensures Exec(events, key, batch).Done? && Lossless(Exec(events, key, batch).value, key)
    ensures var s := Exec(events, key, batch).value; s.put == Puts(events) && s.requests == Pulls(events)
  {
    if events != [] {
      var front, e := events[..|events| - 1], events[|events| - 1];
      assert events == front + [e] && e in events;
      AlwaysLossless(front, key, batch);
      var s := Exec(front, key, batch).value;
      match e
      case Put(x) => PutKeepsLossless(s, key, x);
      case Pull =>
        PullStep(s, key, batch);
        assert s.put + [] == s.put;
    }
  }

  ghost predicate AllPutsFit(events: seq<Event>) {
    forall e | e in events && e.Put? :: e.element.Valid() && Fits(e.element)
  }

  /** The elements that the run puts into the channel, in order, and the requests it makes. */
  function Puts(events: seq<Event>): seq<Routed> {
    if events == [] then []
    else Puts(events[..|events| - 1]) + (if events[|events| - 1].Put? then [events[|events| - 1].element] else [])
  }

  function Pulls(events: seq<Event>): nat {
    if events == [] then 0 else Pulls(events[..|events| - 1]) + (if events[|events| - 1].Pull? then 1 else 0)
  }

  /**
   * The network pull is a lossless FIFO. In every run of puts and requests whose elements
   * fit a frame, no request fails and `unreachable!` is not reached, every request is answered
   * by exactly one batch with nothing left over, and the client holds a copy, field by field, of
   * each element taken from the channel, in the order in which they were put.
   */
  lemma PullIsLossless(events: seq<Event>, key: ChannelKey, batch: nat)
    requires key.Valid() && batch < 0xFFFF && AllPutsFit(events)
    ensures Exec(events, key, batch).Done?
    ensures var s := Exec(events, key, batch).value;
      && s.put == Puts(events) && s.requests == Pulls(events) && s.taken <= |s.put|
      && AllCopied(Puts(events)[..s.taken], s.got, key)
  {
    AlwaysLossless(events, key, batch);
    SeenIsCopied(Puts(events)[..Exec(events, key, batch).value.taken], key);
  }

  ghost predicate TookAtLeast(s: State, n: int) {
    n <= s.taken || s.taken == |s.put|
  }

  lemma RequestsSnoc(events: seq<Event>, k: nat)
    requires k > 0
    ensures events + Requests(k) == events + Requests(k - 1) + [Pull]
  {
  }

  lemma PullSnoc(events: seq<Event>, key: ChannelKey, batch: nat)
    requires key.Valid() && batch < 0xFFFF && AllPutsFit(events)
    ensures AllPutsFit(events + [Pull]) && Puts(events + [Pull]) == Puts(events)
    ensures Exec(events, key, batch).Done? && Lossless(Exec(events, key, batch).value, key)
    ensures Exec(events + [Pull], key, batch) == PullOnce(Exec(events, key, batch).value, key, batch)
  {
    var all := events + [Pull];
    assert all[..|all| - 1] == events;
    assert Puts(events) + [] == Puts(events);
    AlwaysLossless(events, key, batch);
  }

  /** Each request after a run takes a batch, as long as there is one. */
  lemma {:induction false} RequestsDrain(events: seq<Event>, k: nat, key: ChannelKey, batch: nat)
    requires key.Valid() && batch < 0xFFFF && AllPutsFit(events)
    ensures var all := events + Requests(k);
      && AllPutsFit(all) && Puts(all) == Puts(events)
      && Exec(all, key, batch).Done? && TookAtLeast(Exec(all, key, batch).value, k * batch)
  {
    if k == 0 {
      assert events + Requests(0) == events;
      AlwaysLossless(events, key, batch);
    } else {
      var front := events + Requests(k - 1);
      RequestsSnoc(events, k);
      RequestsDrain(events, k - 1, key, batch);
      PullSnoc(front, key, batch);
      PullStep(Exec(front, key, batch).value, key, batch);
      assert k * batch == (k - 1) * batch + batch;
    }
  }

  function Requests(k: nat): seq<Event> {
    seq(k, _ => Pull)
  }

  /** So the client ends with a copy of everything that was put. */
  lemma EverythingArrives(events: seq<Event>, k: nat, key: ChannelKey, batch: nat)
    requires key.Valid() && batch < 0xFFFF && AllPutsFit(events) && k * batch >= |Puts(events)|
    ensures Exec(events + Requests(k), key, batch).Done?
    ensures AllCopied(Puts(events), Exec(events + Requests(k), key, batch).value.got, key)
  {
    RequestsDrain(events, k, key, batch);
    PullIsLossless(events + Requests(k), key, batch);
    assert Puts(events)[..|Puts(events)|] == Puts(events);
  }

  lemma SeenAllConcat(a: seq<Routed>, b: seq<Routed>, key: ChannelKey)
    ensures SeenAll(a + b, key) == SeenAll(a, key) + SeenAll(b, key)
  {
  }

  /** A batch of 65535 gives the client no turn at all. */
  lemma LargestBatchIsUnreachable(stream: Bytes, key: ChannelKey)
    ensures Recv(stream, 0, Turns(0xFFFF), key, []) == Unreachable
  {
  }
}
