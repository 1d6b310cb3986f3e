/**
 * The encoders and decoders as they work, on a byte buffer: they append fields at its end
 * and consume fields from its front (`rlink/src/core/element.rs`, `rlink/src/core/runtime.rs`,
 * `rlink/src/pub_sub/network/mod.rs`). Each is proved to compute what `Codec` says.
 */
module WireBuffers {
  import opened Prelude
  import opened Elements
  import opened Tasks
  import BigEndian
  import opened Codec

  class BytesMut {
    var data: Bytes

    constructor (data: Bytes)
      ensures this.data == data
    {
      this.data := data;
    }

    method PutU8(b: byte)
      modifies this
      ensures data == old(data) + [b]
    {
      data := data + [b];
    }

    /** `put_u16`, `put_u32` and `put_u64`. */
    method Put(v: nat, width: nat)
      modifies this
      ensures data == old(data) + BigEndian.Encode(v, width)
    {
      data := data + BigEndian.Encode(v, width);
    }

    method PutSlice(bytes: Bytes)
      modifies this
      ensures data == old(data) + bytes
    {
      data := data + bytes;
    }

    /** `get_u8` and its like; too few bytes are a panic. */
    method Get(width: nat) returns (r: Outcome<nat>)
      modifies this
      ensures |old(data)| < width ==> r == Panic
      ensures |old(data)| >= width ==> r == Done(U(old(data), 0, width)) && data == old(data)[width..]
    {
      if |data| < width {
        return Panic;
      }
      assert data[..width] == data[0..width];
      r := Done(BigEndian.Decode(data[..width]));
      data := data[width..];
    }
  }

  lemma FieldBehind(bs: Bytes, from: nat, n: nat)
    requires from + n <= |bs|
    ensures U(bs[from..], 0, n) == U(bs, from, n) && bs[from..][n..] == bs[from + n..]
  {
    assert bs[from..][0..n] == bs[from..from + n];
  }

  lemma FirstByte(bs: Bytes)
    requires |bs| >= 1
    ensures U(bs, 0, 1) == bs[0]
  {
    assert bs[0..1] == [bs[0]];
    assert BigEndian.Decode([]) == 0;
    assert [bs[0]][..0] == [];
  }

  // ----- elements

  lemma Regroup(a: Bytes, b: Bytes, c: Bytes, d: Bytes, e: Bytes, f: Bytes)
    ensures a + b + c + d + e + f == a + (b + c + d + e + f)
  {
  }

  method PutRecord(p: nat, ts: nat, values: Bytes, buffer: BytesMut)
    modifies buffer
    ensures buffer.data == old(buffer.data) +
      ([1] + BigEndian.Encode(p, 2) + BigEndian.Encode(ts, 8) + BigEndian.Encode(|values|, 4) + values)
  {
    ghost var before := buffer.data;
    buffer.PutU8(1);
    buffer.Put(p, 2);
    buffer.Put(ts, 8);
    buffer.Put(|values|, 4);
    buffer.PutSlice(values);
    Regroup(before, [1], BigEndian.Encode(p, 2), BigEndian.Encode(ts, 8), BigEndian.Encode(|values|, 4), values);
  }

  method PutStatus(ts: nat, end: bool, buffer: BytesMut)
    modifies buffer
    ensures buffer.data == old(buffer.data) + ([3] + [if end then 1 else 0] + BigEndian.Encode(ts, 8))
  {
    buffer.PutU8(3);
    buffer.PutU8(if end then 1 else 0);
    buffer.Put(ts, 8);
  }

  method PutBarrier(p: nat, id: nat, completed: nat, buffer: BytesMut)
    modifies buffer
    ensures buffer.data == old(buffer.data) +
      ([4] + BigEndian.Encode(p, 2) + BigEndian.Encode(id, 8) + BigEndian.Encode(completed, 8))
  {
    ghost var before := buffer.data;
    buffer.PutU8(4);
    buffer.Put(p, 2);
    buffer.Put(id, 8);
    buffer.Put(completed, 8);
    Regroup(before, [4], BigEndian.Encode(p, 2), BigEndian.Encode(id, 8), BigEndian.Encode(completed, 8), []);
  }

  method PutWatermark(p: nat, ts: nat, buffer: BytesMut)
    modifies buffer
    ensures buffer.data == old(buffer.data) + ([2] + BigEndian.Encode(p, 2) + BigEndian.Encode(ts, 8))
  {
    buffer.PutU8(2);
    buffer.Put(p, 2);
    buffer.Put(ts, 8);
  }

  method SerializeElement(e: Routed, buffer: BytesMut)
    modifies buffer
    ensures buffer.data == old(buffer.data) + Serialize(e)
  {
    match e
    case RoutedRecord(p, ts, _, _, _, values) => PutRecord(p, ts, values, buffer);
    case RoutedWatermark(p, ts, _, _) => PutWatermark(p, ts, buffer);
    case RoutedStatus(_, ts, _, end) => PutStatus(ts, end, buffer);
    case RoutedBarrier(p, id, completed) => PutBarrier(p, id, completed, buffer);
  }

  /** Two fields after the tag, of which the first has the given width. */
  method GetTwo(buffer: BytesMut, width: nat) returns (r: Outcome<(nat, nat)>)
    modifies buffer
    ensures var bs := old(buffer.data);
      if |bs| < 9 + width then r == Panic
      else r == Done((U(bs, 1, width), U(bs, 1 + width, 8))) && buffer.data == bs[9 + width..]
  {
    ghost var bs := buffer.data;
    var tag := buffer.Get(1);
    if tag.Panic? {
      return Panic;
    }
    var a := buffer.Get(width);
    if a.Panic? {
      return Panic;
    }
    FieldBehind(bs, 1, width);
    var b := buffer.Get(8);
    if b.Panic? {
      return Panic;
    }
    FieldBehind(bs, 1 + width, 8);
    return Done((a.value, b.value));
  }

  method DeserializeRecord(buffer: BytesMut) returns (r: Outcome<Routed>)
    requires |buffer.data| > 0 && buffer.data[0] == 1
    modifies buffer
    ensures r == Deserialize(old(buffer.data))
  {
    ghost var bs := buffer.data;
    var head := GetTwo(buffer, 2);
    if head.Panic? {
      return Panic;
    }
    var n := buffer.Get(4);
    if n.Panic? {
      return Panic;
    }
    FieldBehind(bs, 11, 4);
    if |buffer.data| != n.value {
      return Panic;
    }
    return Done(RoutedRecord(head.value.0, head.value.1, NO_KEY, None, None, buffer.data));
  }

  method DeserializeElement(buffer: BytesMut) returns (r: Outcome<Routed>)
    modifies buffer
    ensures r == Deserialize(old(buffer.data))
  {
    ghost var bs := buffer.data;
    if |buffer.data| == 0 {
      return Panic;
    }
    var tag := buffer.data[0];
    if tag == 1 {
      r := DeserializeRecord(buffer);
    } else if tag == 2 {
      var two := GetTwo(buffer, 2);
      r := if two.Panic? then Panic else Done(RoutedWatermark(two.value.0, two.value.1, NO_KEY, None));
    } else if tag == 3 {
      var two := GetTwo(buffer, 1);
      if two.Done? {
        FieldBehind(bs, 1, 1);
        FirstByte(bs[1..]);
      }
      r := if two.Panic? then Panic else Done(RoutedStatus(0, two.value.1, NO_KEY, two.value.0 == 1));
    } else if tag == 4 {
      var two := GetTwo(buffer, 2);
      if two.Panic? {
        return Panic;
      }
      var completed := buffer.Get(8);
      if completed.Panic? {
        return Panic;
      }
      FieldBehind(bs, 11, 8);
      r := Done(RoutedBarrier(two.value.0, two.value.1, completed.value));
    } else {
      r := Panic;
    }
  }

  // ----- requests

  method PutTask(t: TaskId, buffer: BytesMut)
    modifies buffer
    ensures buffer.data == old(buffer.data) + SerializeTask(t)
  {
    buffer.Put(t.jobId, 4);
    buffer.Put(t.taskNumber, 2);
    buffer.Put(t.numTasks, 2);
  }

  method GetTask(buffer: BytesMut) returns (t: TaskId)
    requires |buffer.data| >= 8
    modifies buffer
    ensures t == DeserializeTask(old(buffer.data), 0) && buffer.data == old(buffer.data)[8..]
  {
    ghost var bs := buffer.data;
    var job := buffer.Get(4);
    var number := buffer.Get(2);
    FieldBehind(bs, 4, 2);
    var total := buffer.Get(2);
    FieldBehind(bs, 6, 2);
    t := TaskId(job.value, number.value, total.value);
  }

  method PutBody(r: Request, buffer: BytesMut)
    modifies buffer
    ensures buffer.data == old(buffer.data) + RequestBody(r)
  {
    ghost var before := buffer.data;
    PutTask(r.key.source, buffer);
    PutTask(r.key.target, buffer);
    buffer.Put(r.batchPullSize, 2);
    buffer.Put(r.batchId, 2);
    Regroup(before, SerializeTask(r.key.source), SerializeTask(r.key.target),
            BigEndian.Encode(r.batchPullSize, 2), BigEndian.Encode(r.batchId, 2), []);
  }

  lemma BodyLength(r: Request)
    ensures |RequestBody(r)| == REQUEST_BODY_LEN
  {
    BigEndian.Widths();
  }

  /** The length assertion at its end always holds. */
  method WriteRequest(r: Request) returns (buffer: BytesMut)
    ensures fresh(buffer) && buffer.data == EncodeRequest(r) && |buffer.data| == 4 + REQUEST_BODY_LEN
  {
    buffer := new BytesMut([]);
    buffer.Put(REQUEST_BODY_LEN, 4);
    PutBody(r, buffer);
    BigEndian.Widths();
    BodyLength(r);
  }

  method ReadRequest(buffer: BytesMut) returns (r: Outcome<Option<Request>>)
    modifies buffer
    ensures r == DecodeRequest(old(buffer.data))
  {
    ghost var frame := buffer.data;
    var n := buffer.Get(4);
    if n.Panic? {
      return Panic;
    }
    if |buffer.data| != n.value {
      return Panic;
    }
    if n.value != REQUEST_BODY_LEN {
      return Done(None);
    }
    var body := ReadBody(buffer);
    return Done(Some(body));
  }

  method ReadBody(buffer: BytesMut) returns (r: Request)
    requires |buffer.data| == REQUEST_BODY_LEN
    modifies buffer
    ensures r == DecodeRequestBody(old(buffer.data))
  {
    ghost var bs := buffer.data;
    var source := GetTask(buffer);
    var target := GetTask(buffer);
    TaskBehind(bs);
    assert bs[8..][8..] == bs[16..];
    var size := buffer.Get(2);
    FieldBehind(bs, 16, 2);
    var id := buffer.Get(2);
    FieldBehind(bs, 18, 2);
    r := Request(ChannelKey(source, target), size.value, id.value);
  }

  lemma TaskBehind(bs: Bytes)
    requires |bs| >= 16
    ensures DeserializeTask(bs[8..], 0) == DeserializeTask(bs, 8)
  {
    assert bs[8..][0..4] == bs[8..12] && bs[8..][4..6] == bs[12..14] && bs[8..][6..8] == bs[14..16];
  }

  // ----- responses

  method WriteHead(length: nat, code: byte) returns (bytes: BytesMut)
    ensures fresh(bytes) && bytes.data == BigEndian.Encode(length, 4) + [code]
  {
    bytes := new BytesMut([]);
    bytes.Put(length, 4);
    bytes.PutU8(code);
  }

  method WriteOk(e: Routed) returns (buffer: Outcome<BytesMut>)
    ensures buffer.Done? <==> EncodeResponse(Response(Ok, Some(e))).Done?
    ensures buffer.Done? ==> fresh(buffer.value) && EncodeResponse(Response(Ok, Some(e))) == Done(buffer.value.data)
  {
    var bytes := WriteHead(1 + Capacity(e), CodeByte(Ok));
    SerializeElement(e, bytes);
    Regrouped(BigEndian.Encode(1 + Capacity(e), 4), [CodeByte(Ok)], Serialize(e));
    if |bytes.data| != 4 + 1 + Capacity(e) {
      return Panic;
    }
    return Done(bytes);
  }

  method WriteResponse(r: Response) returns (buffer: Outcome<BytesMut>)
    ensures buffer.Done? <==> EncodeResponse(r).Done?
    ensures buffer.Done? ==> fresh(buffer.value) && EncodeResponse(r) == Done(buffer.value.data)
  {
    if r.code.Ok? {
      if r.element.None? {
        return Panic;
      }
      buffer := WriteOk(r.element.value);
    } else {
      var bytes := WriteHead(1, CodeByte(r.code));
      buffer := Done(bytes);
    }
  }

  method ReadResponse(buffer: BytesMut) returns (r: Outcome<Option<Response>>)
    modifies buffer
    ensures r == DecodeResponse(old(buffer.data))
  {
    ghost var frame := buffer.data;
    var n := buffer.Get(4);
    if n.Panic? {
      return Panic;
    }
    if |buffer.data| != n.value {
      return Panic;
    }
    var c := buffer.Get(1);
    if c.Panic? {
      return Panic;
    }
    FieldBehind(frame, 4, 1);
    FirstByte(frame[4..]);
    var code := CodeOf(c.value as byte);
    if code.Unknown? {
      return Done(None);
    }
    if code.Ok? {
      var e := DeserializeElement(buffer);
      if e.Panic? {
        return Panic;
      }
      return Done(Some(Response(Ok, Some(e.value))));
    }
    return Done(Some(Response(code, None)));
  }
}
