/** The elements that flow between operators: `rlink/src/core/element.rs`, without routing fields. */
module Elements {
  import opened Prelude

  type byte = x: int | 0 <= x < 256
  type Bytes = seq<byte>

  /** The number of values of an unsigned 64-bit integer. */
  const U64: nat := 0x1_0000_0000_0000_0000

  const MIN_WATERMARK: nat := 0
  const MAX_WATERMARK: nat := 253402185600000
  /** Sent by an idle generator; greater than every watermark that stands for a time. */
  const IDLE_WATERMARK: nat := MAX_WATERMARK + 1

  /** A record is equal to another exactly when their value bytes are. */
  datatype Record = Record(timestamp: nat, values: Bytes)

  datatype Element =
    | Data(record: Record)
    | Watermark(timestamp: nat)
    | StreamStatus(time: nat, end: bool)
    | Barrier(checkpointId: nat)

  function LastWatermark(log: seq<Element>): Option<nat> {
    if log == [] then None
    else if log[|log| - 1].Watermark? then Some(log[|log| - 1].timestamp)
    else LastWatermark(log[..|log| - 1])
  }
}
