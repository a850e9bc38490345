/** Events as values and as views into byte storage. */
module Events {
  import opened Bits

  datatype Option<+T> = None | Some(value: T)

  datatype Result<+T, +E> = Ok(value: T) | Err(error: E)

  /** An event with its payload bytes, as a value. */
  datatype Event = Event(streamId: u32, sequence: u64, timestamp: u64, payload: seq<u8>)

  /** A range of bytes inside somebody else's storage: reading it sees the storage as it is now. */
  datatype Span = Span(data: array<u8>, offset: nat, size: nat) {
    predicate InBounds() {
      offset + size <= data.Length
    }

    /** No byte of the span lies in `dst[at..at + count]`. */
    predicate ClearOf(dst: array<u8>, at: nat, count: nat) {
      data != dst || size == 0 || offset + size <= at || at + count <= offset
    }

    /** A forward copy to `dst[at..]` is defined: its target does not start inside the span. */
    predicate CopiesTo(dst: array<u8>, at: nat) {
      data != dst || at < offset || offset + size <= at
    }

    function Bytes(): (bytes: seq<u8>)
      requires InBounds()
      reads data
      ensures |bytes| == size
    {
      data[offset..offset + size]
    }
  }

  /** Event metadata together with a payload that still lives in the viewed storage. */
  datatype EventView = EventView(streamId: u32, sequence: u64, timestamp: u64, payload: Span) {
    function Value(): Event
      requires payload.InBounds()
      reads payload.data
    {
      Event(streamId, sequence, timestamp, payload.Bytes())
    }
  }

  datatype PublishResult = Published | Full | PayloadTooLarge | PublicationClosed

  datatype AcquireError = Empty | Drained | AlreadyAcquired | InvalidSlot
}
