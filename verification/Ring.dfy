/** The ring over mapped memory: the shared segment, the handles on it, and the proof that each
    call does to the shared memory what the atomic queue does. Calls are atomic here. */
module Ring {
  import opened Bits
  import opened Events
  import opened ByteIO
  import opened Geometry
  import opened Queues

  const RING_MAGIC: string := "LLE1"
  const LAYOUT_VERSION: u16 := 1

  predicate AllZero(bytes: seq<u8>) {
    forall i :: 0 <= i < |bytes| ==> bytes[i] == 0
  }

  /** The first 24 bytes of a slot that holds the event. */
  function SlotMeta(event: Event): (bytes: seq<u8>)
    requires |event.payload| <= U32_MAX
    ensures |bytes| == 24
  {
    Le64(event.sequence) + Le64(event.timestamp) + Le32(event.streamId) + Le32(|event.payload|)
  }

  /** The bytes of one slot hold the event, with both reserved words zero. */
  predicate SlotHolds(slot: seq<u8>, event: Event) {
    && |event.payload| <= U32_MAX
    && SLOT_HEADER_BYTES + |event.payload| <= |slot|
    && slot[0..24] == SlotMeta(event)
    && slot[24..32] == Zeros(8)
    && slot[32..32 + |event.payload|] == event.payload
  }

  function SlotAt(slots: seq<u8>, index: nat, stride: nat): (slot: seq<u8>)
    requires SlotBase(index, stride) + stride <= |slots|
    ensures |slot| == stride
  {
    slots[SlotBase(index, stride)..SlotBase(index, stride) + stride]
  }

  /** The header of a slot as the fields it is read through. */
  datatype SlotHeader = SlotHeader(
    sequence: u64, timestamp: u64, streamId: u32, length: u32, reserved0: u32, reserved1: u32)

  function ReadHeader(slot: seq<u8>): SlotHeader
    requires |slot| >= SLOT_HEADER_BYTES
  {
    SlotHeader(ReadU64(slot, 0), ReadU64(slot, 8), ReadU32(slot, 16), ReadU32(slot, 20),
               ReadU32(slot, 24), ReadU32(slot, 28))
  }

  /** The test the consumer makes on a slot header before it trusts the slot. */
  predicate InvalidHeader(header: SlotHeader, capacity: u32) {
    header.length > capacity || header.reserved0 != 0 || header.reserved1 != 0
  }

  /** A slot that holds an event reads as that event and passes the test. */
  lemma HeldHeader(slot: seq<u8>, event: Event, capacity: u32)
    requires SlotHolds(slot, event)
    ensures ReadHeader(slot) ==
      SlotHeader(event.sequence, event.timestamp, event.streamId, |event.payload|, 0, 0)
    ensures InvalidHeader(ReadHeader(slot), capacity) <==> |event.payload| > capacity
  {
    var meta := SlotMeta(event);
    assert slot[0..8] == meta[0..8] == Le64(event.sequence);
    assert slot[8..16] == meta[8..16] == Le64(event.timestamp);
    assert slot[16..20] == meta[16..20] == Le32(event.streamId);
    assert slot[20..24] == meta[20..24] == Le32(|event.payload|);
    Field64(slot, 0, event.sequence);
    Field64(slot, 8, event.timestamp);
    Field32(slot, 16, event.streamId);
    Field32(slot, 20, |event.payload|);
    ReservedFields(slot);
  }

  lemma ReservedFields(slot: seq<u8>)
    requires |slot| >= 32 && slot[24..32] == Zeros(8)
    ensures ReadU32(slot, 24) == 0 && ReadU32(slot, 28) == 0
  {
    assert forall i :: 24 <= i < 32 ==> slot[i] == slot[24..32][i - 24];
  }

  /** Where the payload of the event in a slot lies. */
  lemma SlotPayload(slots: seq<u8>, index: nat, stride: nat, event: Event)
    requires SlotHoldsAt(slots, index, stride, event)
    ensures var at := SlotBase(index, stride) + SLOT_HEADER_BYTES;
      at + |event.payload| <= |slots| && slots[at..at + |event.payload|] == event.payload
  {
    SubSlice(slots, SlotBase(index, stride), stride, SLOT_HEADER_BYTES, |event.payload|);
  }

  /** What the consumer makes of a slot header whose payload starts at `at`. */
  function ViewOf(header: SlotHeader, capacity: u32, slots: array<u8>, at: nat): Result<EventView, AcquireError> {
    if InvalidHeader(header, capacity) then Err(InvalidSlot)
    else Ok(EventView(header.streamId, header.sequence, header.timestamp, Span(slots, at, header.length)))
  }

  /** Check one slot; metadata is read out of it, the payload is left where it is. */
  method ParseSlot(slots: array<u8>, index: nat, stride: nat, capacity: u32, ghost expected: Option<Event>)
    returns (r: Result<EventView, AcquireError>)
    requires SlotBase(index, stride) + stride <= slots.Length && SLOT_HEADER_BYTES + capacity <= stride
    requires expected.Some? ==>
      SlotHoldsAt(slots[..], index, stride, expected.value) && |expected.value.payload| <= capacity
    ensures r == ViewOf(ReadHeader(SlotAt(slots[..], index, stride)), capacity,
                        slots, SlotBase(index, stride) + SLOT_HEADER_BYTES)
    ensures r.Ok? ==> r.value.payload.size <= capacity && r.value.payload.InBounds()
    ensures expected.Some? ==> r.Ok? && r.value.Value() == expected.value
  {
    var header := ReadHeader(SlotAt(slots[..], index, stride));
    r := ViewOf(header, capacity, slots, SlotBase(index, stride) + SLOT_HEADER_BYTES);
    if expected.Some? {
      HeldHeader(SlotAt(slots[..], index, stride), expected.value, capacity);
      SlotPayload(slots[..], index, stride, expected.value);
    }
  }

  /** A write that stays inside one slot leaves every other slot as it was. */
  lemma SpliceOutside(s: seq<u8>, at: nat, bytes: seq<u8>, from: nat, to: nat)
    requires at + |bytes| <= |s| && from <= to <= |s|
    requires to <= at || at + |bytes| <= from
    ensures Splice(s, at, bytes)[from..to] == s[from..to]
  {
  }

  /** Writing metadata and payload into a slot with zero reserved words makes it hold the event. */
  lemma FilledSlot(before: seq<u8>, base: nat, stride: nat, event: Event)
    requires |event.payload| <= U32_MAX && SLOT_HEADER_BYTES + |event.payload| <= stride && base + stride <= |before|
    requires before[base..base + stride][24..32] == Zeros(8)
    ensures var after := Splice(Splice(before, base, SlotMeta(event)), base + 32, event.payload);
      SlotHolds(after[base..base + stride], event)
  {
    var middle := Splice(before, base, SlotMeta(event));
    var after := Splice(middle, base + 32, event.payload);
    SubSlice(after, base, stride, 0, 24);
    SpliceOutside(middle, base + 32, event.payload, base, base + 24);
    SubSlice(after, base, stride, 24, 8);
    SubSlice(before, base, stride, 24, 8);
    SpliceOutside(middle, base + 32, event.payload, base + 24, base + 32);
    SpliceOutside(before, base, SlotMeta(event), base + 24, base + 32);
    SubSlice(after, base, stride, 32, |event.payload|);
  }

  /** Slot bytes that hold the queued events, oldest at position `released`. */
  ghost predicate Holds(bytes: seq<u8>, slotCount: nat, stride: nat, published: seq<Event>, released: nat) {
    && slotCount > 0 && stride >= SLOT_HEADER_BYTES
    && |bytes| == slotCount * stride
    && (forall j :: 0 <= j < slotCount ==> ReservedZero(bytes, j, stride))
    && (forall p {:trigger published[p]} :: released <= p < |published| ==>
          SlotHoldsAt(bytes, p % slotCount, stride, published[p]))
  }

  predicate ReservedZero(bytes: seq<u8>, index: nat, stride: nat) {
    && stride >= SLOT_HEADER_BYTES && SlotBase(index, stride) + stride <= |bytes|
    && SlotAt(bytes, index, stride)[24..32] == Zeros(8)
  }

  predicate SlotHoldsAt(bytes: seq<u8>, index: nat, stride: nat, event: Event) {
    && SlotBase(index, stride) + stride <= |bytes|
    && SlotHolds(SlotAt(bytes, index, stride), event)
  }

  /** The bytes after one event has been written into a slot. */
  function Written(before: seq<u8>, base: nat, event: Event): (after: seq<u8>)
    requires |event.payload| <= U32_MAX && base + SLOT_HEADER_BYTES + |event.payload| <= |before|
    ensures |after| == |before|
  {
    Splice(Splice(before, base, SlotMeta(event)), base + SLOT_HEADER_BYTES, event.payload)
  }

  lemma WrittenElsewhere(before: seq<u8>, index: nat, other: nat, stride: nat, event: Event)
    requires |event.payload| <= U32_MAX && SLOT_HEADER_BYTES + |event.payload| <= stride
    requires index != other
    requires SlotBase(index, stride) + stride <= |before| && SlotBase(other, stride) + stride <= |before|
    ensures SlotAt(Written(before, SlotBase(index, stride), event), other, stride) == SlotAt(before, other, stride)
  {
    var base, from := SlotBase(index, stride), SlotBase(other, stride);
    SlotsApart(index, other, stride);
    SpliceOutside(before, base, SlotMeta(event), from, from + stride);
    SpliceOutside(Splice(before, base, SlotMeta(event)), base + SLOT_HEADER_BYTES, event.payload, from, from + stride);
  }

  lemma PublishKeepsReserved(before: seq<u8>, slotCount: nat, stride: nat, index: nat, event: Event)
    requires index < slotCount && |before| == slotCount * stride
    requires |event.payload| <= U32_MAX && SLOT_HEADER_BYTES + |event.payload| <= stride
    requires forall j :: 0 <= j < slotCount ==> ReservedZero(before, j, stride)
    ensures SlotBase(index, stride) + stride <= |before|
    ensures SlotHoldsAt(Written(before, SlotBase(index, stride), event), index, stride, event)
    ensures forall j :: 0 <= j < slotCount ==> ReservedZero(Written(before, SlotBase(index, stride), event), j, stride)
  {
    SlotInside(index, slotCount, stride);
    var base := SlotBase(index, stride);
    var after := Written(before, base, event);
    assert ReservedZero(before, index, stride);
    FilledSlot(before, base, stride, event);
    forall j | 0 <= j < slotCount ensures ReservedZero(after, j, stride) {
      assert ReservedZero(before, j, stride);
      if j != index { WrittenElsewhere(before, index, j, stride, event); }
    }
  }

  /** Publishing into the slot of the next position keeps every queued event and adds the new one. */
  lemma PublishHolds(before: seq<u8>, slotCount: nat, stride: nat, published: seq<Event>, released: nat, event: Event)
    requires Holds(before, slotCount, stride, published, released)
    requires released <= |published| < released + slotCount
    requires |event.payload| <= U32_MAX && SLOT_HEADER_BYTES + |event.payload| <= stride
    ensures var index := |published| % slotCount;
      && SlotBase(index, stride) + stride <= |before|
      && Holds(Written(before, SlotBase(index, stride), event), slotCount, stride, published + [event], released)
  {
    var index, longer := |published| % slotCount, published + [event];
    PublishKeepsReserved(before, slotCount, stride, index, event);
    var after := Written(before, SlotBase(index, stride), event);
    forall p {:trigger longer[p]} | released <= p < |longer|
      ensures SlotHoldsAt(after, p % slotCount, stride, longer[p])
    {
      if p < |published| {
        assert SlotHoldsAt(before, p % slotCount, stride, published[p]);
        if p % slotCount == index { OneLap(p, |published|, slotCount); }
        WrittenElsewhere(before, index, p % slotCount, stride, event);
      }
    }
  }

  lemma ReleaseHolds(bytes: seq<u8>, slotCount: nat, stride: nat, published: seq<Event>, released: nat)
    requires Holds(bytes, slotCount, stride, published, released)
    ensures Holds(bytes, slotCount, stride, published, released + 1)
  {
  }

  /** Writing the slot's header leaves the payload alone, and the payload can be copied behind it. */
  predicate SlotFree(slots: array<u8>, base: nat, payload: Span) {
    payload.ClearOf(slots, base, SLOT_HEADER_BYTES) && payload.CopiesTo(slots, base + SLOT_HEADER_BYTES)
  }

  /** Fill in the header fields, then copy the payload. */
  method FillSlot(slots: array<u8>, base: nat, event: EventView)
    requires event.payload.InBounds() && SlotFree(slots, base, event.payload)
    requires event.payload.size <= U32_MAX && base + SLOT_HEADER_BYTES + event.payload.size <= slots.Length
    modifies slots
    ensures slots[..] == Written(old(slots[..]), base, old(event.Value()))
  {
    ghost var value, before := event.Value(), slots[..];
    ghost var done := Le64(event.sequence);
    WriteU64(slots, base, event.sequence);
    WriteU64(slots, base + 8, event.timestamp);
    SpliceAdjacent(before, base, done, Le64(event.timestamp));
    done := done + Le64(event.timestamp);
    WriteU32(slots, base + 16, event.streamId);
    SpliceAdjacent(before, base, done, Le32(event.streamId));
    done := done + Le32(event.streamId);
    WriteU32(slots, base + 20, event.payload.size);
    SpliceAdjacent(before, base, done, Le32(event.payload.size));
    assert event.payload.Bytes() == value.payload;
    CopyBytes(event.payload, slots, base + SLOT_HEADER_BYTES);
  }

  /** The mapped memory: header fields, slot bytes, and the history of what was published. */
  class Segment {
    const size: nat
    const mapped: bool
    const aligned: bool
    const slots: array<u8>

    var magic: string
    var layoutVersion: u16
    var headerBytes: u16
    var segmentBytes: u64
    var slotCount: u32
    var slotStride: u32
    var capacity: u32
    var reserved: u32
    var instanceId: u64
    var state: u32
    var reservedBytes: seq<u8>
    var writePosition: u64
    var writeReserved: seq<u8>
    var readPosition: u64
    var readReserved: seq<u8>

    ghost var published: seq<Event>

    /** A mapping of `size` bytes with unspecified contents. */
    constructor (size: nat, mapped: bool, aligned: bool)
      ensures this.size == size && this.mapped == mapped && this.aligned == aligned
      ensures fresh(slots) && Backed()
    {
      this.size := size;
      this.mapped := mapped;
      this.aligned := aligned;
      this.slots := new u8[if size >= HEADER_BYTES then size - HEADER_BYTES else 0];
    }

    /** The slot bytes are the mapping without its header. */
    predicate Backed() {
      slots.Length == if size >= HEADER_BYTES then size - HEADER_BYTES else 0
    }

    predicate UsableMemory() {
      mapped && aligned && size >= HEADER_BYTES
    }

    /** The geometry fields describe exactly this mapping. */
    predicate GeometryOk()
      reads this
    {
      && UsableMemory() && Backed()
      && RequiredBytes(RingConfig(slotCount, capacity)) == Ok(size)
      && slotStride == Stride(capacity)
    }

    /** What an attaching process finds in the header before it looks at the size of the mapping. */
    predicate PreambleOk()
      reads this
    {
      && magic == RING_MAGIC && layoutVersion == LAYOUT_VERSION && headerBytes == HEADER_BYTES
      && reserved == 0 && instanceId != 0
      && AllZero(reservedBytes) && AllZero(writeReserved) && AllZero(readReserved)
      && RequiredBytes(RingConfig(slotCount, capacity)).Ok?
      && slotStride == Stride(capacity) && segmentBytes == RequiredBytes(RingConfig(slotCount, capacity)).value
    }

    /** Everything an attaching process checks. */
    predicate LayoutOk()
      reads this
    {
      && GeometryOk()
      && magic == RING_MAGIC && layoutVersion == LAYOUT_VERSION && headerBytes == HEADER_BYTES
      && segmentBytes == size && reserved == 0 && instanceId != 0
      && (state == READY || state == CLOSED)
      && AllZero(reservedBytes) && AllZero(writeReserved) && AllZero(readReserved)
    }

    lemma AreaSize()
      requires GeometryOk()
      ensures slots.Length == slotCount * slotStride && slotCount >= 2
      ensures IsPowerOfTwo(slotCount) && capacity <= MAX_CAPACITY
    {
      AcceptedConfigs(RingConfig(slotCount, capacity));
    }

    /** The ring invariant: cursors within one lap, slots of queued positions hold their events. */
    ghost predicate Valid()
      reads this, slots
    {
      && LayoutOk()
      && readPosition <= writePosition <= readPosition + slotCount
      && |published| == writePosition
      && (forall p :: 0 <= p < |published| ==> |published[p].payload| <= capacity)
      && Holds(slots[..], slotCount, slotStride, published, readPosition)
    }

    /** Releasing the oldest queued event keeps the invariant. */
    method StoreRead(pos: u64)
      modifies `readPosition
      ensures readPosition == pos
      ensures old(Valid()) && pos == old(readPosition) + 1 <= writePosition ==> Valid()
    {
      if Valid() { ReleaseHolds(slots[..], slotCount, slotStride, published, readPosition); }
      readPosition := pos;
    }

    /** The event queued at a position of a sound ring. */
    ghost function Expected(pos: nat): (r: Option<Event>)
      reads this, slots
      ensures Valid() && readPosition <= pos < writePosition ==> r == Some(published[pos])
      ensures r.Some? ==>
        && readPosition <= pos < writePosition <= readPosition + slotCount
        && slotCount > 0 && SlotHoldsAt(slots[..], pos % slotCount, slotStride, r.value)
        && |r.value.payload| <= capacity
    {
      if Valid() && readPosition <= pos < writePosition then Some(published[pos]) else None
    }

    /** The segment as an atomic queue; whether a slot is held is the consumer handle's business. */
    ghost function Shared(held: bool): Queue
      reads this
    {
      Queue(slotCount, capacity, published, readPosition, held, state == CLOSED)
    }
  }

  /** One process's handle on a segment, with stale copies of the peer's cursor. */
  class SpscRing {
    var header: Segment?
    var slotCount: u32
    var slotStride: u32
    var capacity: u32
    var cachedReadPosition: u64
    var cachedWritePosition: u64
    var acquiredPosition: u64
    var acquired: bool
    var initializer: bool

    /** The geometry copied into the handle matches the mapping. */
    ghost predicate Attached()
      reads this, header
    {
      && header != null && header.GeometryOk()
      && slotCount == header.slotCount && slotStride == header.slotStride && capacity == header.capacity
    }

    /** The parts of shared memory that calls through this handle can reach. */
    ghost function Memory(): set<Segment>
      reads this
    {
      if header == null then {} else {header}
    }

    ghost function SlotMemory(): set<array<u8>>
      reads this
    {
      if header == null then {} else {header.slots}
    }

    ghost predicate ProducerOk()
      reads this, header, SlotMemory()
    {
      Attached() && header.Valid() && cachedReadPosition <= header.readPosition
    }

    ghost predicate ConsumerOk()
      reads this, header, SlotMemory()
    {
      && Attached() && header.Valid() && cachedWritePosition <= header.writePosition
      && (acquired ==> acquiredPosition == header.readPosition < header.writePosition)
    }

    ghost function Queue(): Queue
      requires header != null
      reads this, header
    {
      header.Shared(acquired)
    }

    constructor Over(segment: Segment, initializer: bool)
      ensures header == segment && this.initializer == initializer && !acquired
      ensures slotCount == segment.slotCount && slotStride == segment.slotStride && capacity == segment.capacity
      ensures cachedReadPosition == cachedWritePosition == acquiredPosition == 0
    {
      header := segment;
      slotCount := segment.slotCount;
      slotStride := segment.slotStride;
      capacity := segment.capacity;
      cachedReadPosition, cachedWritePosition, acquiredPosition := 0, 0, 0;
      acquired := false;
      this.initializer := initializer;
    }

    /** Take over another handle; the source handle is left closed. */
    constructor Moved(other: SpscRing)
      modifies other
      ensures header == old(other.header) && slotCount == old(other.slotCount) && slotStride == old(other.slotStride)
      ensures capacity == old(other.capacity) && cachedReadPosition == old(other.cachedReadPosition)
      ensures cachedWritePosition == old(other.cachedWritePosition) && acquiredPosition == old(other.acquiredPosition)
      ensures acquired == old(other.acquired) && initializer == old(other.initializer)
      ensures other.header == null && !other.acquired && !other.initializer
      ensures other.slotCount == other.slotStride == other.capacity == 0
      ensures other.cachedReadPosition == other.cachedWritePosition == other.acquiredPosition == 0
    {
      header, slotCount, slotStride, capacity := other.header, other.slotCount, other.slotStride, other.capacity;
      cachedReadPosition, cachedWritePosition := other.cachedReadPosition, other.cachedWritePosition;
      acquiredPosition, acquired, initializer := other.acquiredPosition, other.acquired, other.initializer;
      new;
      other.header, other.slotCount, other.slotStride, other.capacity := null, 0, 0, 0;
      other.cachedReadPosition, other.cachedWritePosition, other.acquiredPosition := 0, 0, 0;
      other.acquired, other.initializer := false, false;
    }

    /** Fill the slot at the write cursor and advance the cursor. */
    method WriteNext(event: EventView)
      requires Attached() && header.writePosition < U64_MAX
      requires event.payload.InBounds() && event.payload.size <= capacity
      requires slotCount > 0
        && SlotFree(header.slots, SlotBase(header.writePosition % slotCount, slotStride), event.payload)
      modifies Memory()`writePosition, Memory()`published, SlotMemory()
      ensures header.writePosition == old(header.writePosition) + 1
      ensures header.published == old(header.published) + [old(event.Value())]
      ensures WroteSlot(old(header.slots[..]), header.slots[..], old(header.writePosition), old(event.Value()))
      ensures old(header.Valid() && header.writePosition < header.readPosition + slotCount) ==> header.Valid()
    {
      var pos := header.writePosition;
      var index := Locate(pos);
      var base := SlotBase(index, slotStride);
      ghost var value, before := event.Value(), header.slots[..];
      FillSlot(header.slots, base, event);
      if old(header.Valid() && header.writePosition < header.readPosition + slotCount) {
        PublishHolds(before, slotCount, slotStride, header.published, header.readPosition, value);
      }
      header.writePosition := pos + 1;
      header.published := header.published + [value];
    }

    /** The next publish would get as far as writing a slot. */
    ghost predicate WouldWrite()
      requires header != null
      reads this, header
    {
      && header.state == READY && header.writePosition < U64_MAX && slotCount > 0
      && (Sub64(header.writePosition, cachedReadPosition) < slotCount
          || header.readPosition <= header.writePosition < header.readPosition + slotCount)
    }

    /** A payload in the ring's own memory must not lie where the next publish would write. */
    ghost predicate MayPublish(payload: Span)
      reads this, header
    {
      header != null && WouldWrite() && payload.size <= capacity ==>
        SlotFree(header.slots, SlotBase(header.writePosition % slotCount, slotStride), payload)
    }

    /** The slot of the position was filled with the event and no other byte changed. */
    ghost predicate WroteSlot(before: seq<u8>, after: seq<u8>, pos: u64, event: Event)
      reads this
    {
      && slotCount > 0 && |event.payload| <= U32_MAX
      && SlotBase(pos % slotCount, slotStride) + SLOT_HEADER_BYTES + |event.payload| <= |before|
      && after == Written(before, SlotBase(pos % slotCount, slotStride), event)
    }

    /** Write one event into the next slot, or say why not without touching the segment. */
    method TryPublish(event: EventView) returns (r: PublishResult)
      requires header != null ==> Attached()
      requires event.payload.InBounds() && MayPublish(event.payload)
      modifies `cachedReadPosition, Memory()`writePosition, Memory()`published, SlotMemory()
      ensures header == null || header.state != READY ==> r == PublicationClosed
      ensures r == PayloadTooLarge <==> header != null && header.state == READY && event.payload.size > capacity
      ensures header != null && header.state == READY && event.payload.size <= capacity ==>
        && (old(header.writePosition) == U64_MAX ==> r == PublicationClosed)
        && (old(ProducerOk()) && old(header.writePosition) < U64_MAX ==>
              r == if old(header.writePosition) == header.readPosition + slotCount then Full else Published)
      ensures header != null && !r.Published? ==>
        header.writePosition == old(header.writePosition) && header.slots[..] == old(header.slots[..])
        && header.published == old(header.published)
      ensures r.Published? ==>
        && header != null && header.state == READY && event.payload.size <= capacity
        && old(header.writePosition) < U64_MAX && header.writePosition == old(header.writePosition) + 1
        && header.published == old(header.published) + [old(event.Value())]
        && WroteSlot(old(header.slots[..]), header.slots[..], old(header.writePosition), old(event.Value()))
      ensures header != null && old(ProducerOk()) ==>
        && ProducerOk()
        && r == old(header.Shared(false).PublishCode(event.Value()))
        && header.Shared(false) == old(header.Shared(false).Publish(event.Value()))
    {
      if header == null { return PublicationClosed; }
      if header.state != READY { return PublicationClosed; }
      if event.payload.size > capacity { return PayloadTooLarge; }
      if header.writePosition == U64_MAX { return PublicationClosed; }
      r := Put(event);
    }

    /** Settle the cursors and, if there is room, fill the next slot. */
    method Put(event: EventView) returns (r: PublishResult)
      requires Attached() && header.state == READY && header.writePosition < U64_MAX
      requires event.payload.InBounds() && event.payload.size <= capacity && MayPublish(event.payload)
      modifies `cachedReadPosition, Memory()`writePosition, Memory()`published, SlotMemory()
      ensures !r.Published? ==>
        && (r.Full? || r.PublicationClosed?) && header.writePosition == old(header.writePosition)
        && header.slots[..] == old(header.slots[..]) && header.published == old(header.published)
      ensures r.Published? ==>
        && header.writePosition == old(header.writePosition) + 1
        && header.published == old(header.published) + [old(event.Value())]
        && WroteSlot(old(header.slots[..]), header.slots[..], old(header.writePosition), old(event.Value()))
      ensures old(ProducerOk()) ==>
        && ProducerOk()
        && r == if old(header.writePosition) == header.readPosition + slotCount then Full else Published
    {
      var pos := header.writePosition;
      var refused := Reserve(pos);
      if refused.Some? { return refused.value; }
      header.AreaSize();
      WriteNext(event);
      return Published;
    }

    /** Reload the read cursor only if the stale copy says full, and judge the distance. */
    method Reserve(pos: u64) returns (refused: Option<PublishResult>)
      requires Attached()
      modifies `cachedReadPosition
      ensures refused ==
        if Sub64(pos, old(cachedReadPosition)) < slotCount then None
        else if pos < header.readPosition || header.readPosition + slotCount < pos then Some(PublicationClosed)
        else if pos == header.readPosition + slotCount then Some(Full) else None
      ensures old(cachedReadPosition) <= header.readPosition <= pos <= header.readPosition + slotCount ==>
        && cachedReadPosition <= header.readPosition
        && refused == if pos == header.readPosition + slotCount then Some(Full) else None
    {
      if Sub64(pos, cachedReadPosition) >= slotCount {
        cachedReadPosition := header.readPosition;
        if cachedReadPosition > pos || Sub64(pos, cachedReadPosition) > slotCount { return Some(PublicationClosed); }
        if Sub64(pos, cachedReadPosition) == slotCount { return Some(Full); }
      }
      return None;
    }
  
    /** What the answer says about the cursors of any segment, sound or not. */
    ghost predicate AnswerFits(r: Result<EventView, AcquireError>)
      requires header != null
      reads this, header
    {
      var pos := header.readPosition;
      && (r.Ok? ==> acquired && acquiredPosition == pos < cachedWritePosition <= pos + slotCount && slotCount > 0
                    && r.value.payload.offset == PayloadBase(pos))
      && (r == Err(Drained) <==> pos == cachedWritePosition && header.state == CLOSED)
      && (r == Err(Empty) <==> pos == cachedWritePosition && header.state != CLOSED)
      && (pos > cachedWritePosition || cachedWritePosition > pos + slotCount ==> r == Err(InvalidSlot))
    }

    /** View the oldest queued event in place, or say why there is none. */
    method TryAcquire() returns (r: Result<EventView, AcquireError>)
      requires header != null ==> Attached()
      modifies `cachedWritePosition, `acquiredPosition, `acquired
      ensures header == null ==> r == Err(Drained)
      ensures r.Ok? ==>
        && header != null && acquired && r.value.payload.InBounds()
        && r.value.payload.data == header.slots && r.value.payload.size <= capacity
      ensures r.Err? ==> acquired == old(acquired) && acquiredPosition == old(acquiredPosition)
      ensures header != null ==> if old(acquired) then r == Err(AlreadyAcquired) else AnswerFits(r)
      ensures header != null && old(ConsumerOk()) ==>
        && ConsumerOk()
        && r.Ok? == old(Queue()).AcquireCode().Ok?
        && (r.Ok? ==>
              && Ok(r.value.Value()) == old(Queue()).AcquireCode()
              && r.value.payload.offset == PayloadBase(acquiredPosition))
        && (r.Err? ==> Err(r.error) == old(Queue()).AcquireCode())
        && Queue() == old(Queue()).Acquire()
    {
      if header == null { return Err(Drained); }
      if acquired { return Err(AlreadyAcquired); }
      r := Take(header.Expected(header.readPosition));
    }

    /** Settle the cursors, look at the slot, and remember holding it. */
    method Take(ghost expected: Option<Event>) returns (r: Result<EventView, AcquireError>)
      requires Attached() && !acquired && expected == header.Expected(header.readPosition)
      modifies `cachedWritePosition, `acquiredPosition, `acquired
      ensures old(cachedWritePosition) <= header.writePosition ==> cachedWritePosition <= header.writePosition
      ensures r.Ok? ==>
        && acquired && r.value.payload.InBounds() && r.value.payload.data == header.slots
        && r.value.payload.size <= capacity
      ensures r.Err? ==> !acquired && acquiredPosition == old(acquiredPosition)
      ensures AnswerFits(r)
      ensures expected.Some? && old(cachedWritePosition) <= header.writePosition ==>
        r.Ok? && r.value.Value() == expected.value
      ensures header.writePosition == header.readPosition && old(cachedWritePosition) <= header.writePosition ==>
        r == Err(if header.state == CLOSED then Drained else Empty)
    {
      var pos := header.readPosition;
      var refused := Settle(pos);
      if refused.Some? { return Err(refused.value); }
      r := Hold(pos, expected);
    }

    /** Look at the slot and, if it is sound, remember holding it. */
    method Hold(pos: u64, ghost expected: Option<Event>) returns (r: Result<EventView, AcquireError>)
      requires Attached() && !acquired && expected == header.Expected(pos)
      modifies `acquiredPosition, `acquired
      ensures r.Err? ==> r.error == InvalidSlot && !acquired && acquiredPosition == old(acquiredPosition)
      ensures r.Ok? ==>
        && acquired && acquiredPosition == pos && slotCount > 0 && r.value.payload.offset == PayloadBase(pos)
        && r.value.payload.InBounds() && r.value.payload.data == header.slots && r.value.payload.size <= capacity
      ensures expected.Some? ==> r.Ok? && r.value.Value() == expected.value
    {
      r := ViewSlot(pos, expected);
      if r.Ok? {
        acquiredPosition := pos;
        acquired := true;
      }
    }

    /** Reload the write cursor if the stale copy says empty, state first, and judge the distance. */
    method Settle(pos: u64) returns (refused: Option<AcquireError>)
      requires Attached()
      modifies `cachedWritePosition
      ensures old(cachedWritePosition) <= pos ==> cachedWritePosition == header.writePosition
      ensures pos < old(cachedWritePosition) ==> cachedWritePosition == old(cachedWritePosition)
      ensures refused ==
        if pos == cachedWritePosition then Some(if header.state == CLOSED then Drained else Empty)
        else if pos < cachedWritePosition <= pos + slotCount then None else Some(InvalidSlot)
      ensures old(cachedWritePosition) <= header.writePosition && pos <= header.writePosition <= pos + slotCount ==>
        refused == if pos < header.writePosition then None else Some(if header.state == CLOSED then Drained else Empty)
    {
      if pos >= cachedWritePosition {
        var state := header.state;
        cachedWritePosition := header.writePosition;
        if pos == cachedWritePosition {
          return Some(if state == CLOSED then Drained else Empty);
        }
      }
      if pos > cachedWritePosition || Sub64(cachedWritePosition, pos) > slotCount { return Some(InvalidSlot); }
      return None;
    }

    ghost function PayloadBase(pos: u64): nat
      requires slotCount > 0
      reads this
    {
      SlotBase(pos % slotCount, slotStride) + SLOT_HEADER_BYTES
    }

    /** Index of the slot that a position falls into. */
    method Locate(pos: u64) returns (index: nat)
      requires Attached()
      ensures slotCount > 0 && index == pos % slotCount
      ensures SlotBase(index, slotStride) + slotStride <= header.slots.Length
      ensures SLOT_HEADER_BYTES + capacity <= slotStride
    {
      header.AreaSize();
      AlignUpRemainder(pos, slotCount);
      index := And(pos, slotCount - 1);
      SlotInside(index, slotCount, slotStride);
    }

    /** Check the header of the slot at a position and view its payload. */
    method ViewSlot(pos: u64, ghost expected: Option<Event>) returns (r: Result<EventView, AcquireError>)
      requires Attached()
      requires expected.Some? ==>
        && slotCount > 0 && SlotHoldsAt(header.slots[..], pos % slotCount, slotStride, expected.value)
        && |expected.value.payload| <= capacity
      ensures slotCount > 0 && SlotBase(pos % slotCount, slotStride) + slotStride <= header.slots.Length
      ensures slotStride >= SLOT_HEADER_BYTES
      ensures r == ViewOf(ReadHeader(SlotAt(header.slots[..], pos % slotCount, slotStride)), capacity,
                          header.slots, PayloadBase(pos))
      ensures r.Ok? ==> r.value.payload.InBounds() && r.value.payload.size <= capacity
      ensures expected.Some? ==> r.Ok? && r.value.Value() == expected.value
    {
      var index := Locate(pos);
      r := ParseSlot(header.slots, index, slotStride, capacity, expected);
    }

    /** Give the held slot back to the producer. */
    method Release() returns (ok: bool)
      requires acquired ==> Attached()
      modifies `acquired, `acquiredPosition, Memory()`readPosition
      ensures ok == old(acquired) && !acquired
      ensures ok ==> header.readPosition == Add64(old(acquiredPosition), 1) && acquiredPosition == 0
      ensures !ok && header != null ==> header.readPosition == old(header.readPosition)
      ensures header != null && old(ConsumerOk()) ==> ConsumerOk() && Queue() == old(Queue()).Release()
    {
      if !acquired { return false; }
      header.StoreRead(Add64(acquiredPosition, 1));
      acquired := false;
      acquiredPosition := 0;
      return true;
    }

    /** Only the handle that initialized the segment may close it. */
    method ClosePublication() returns (ok: bool)
      requires initializer ==> header != null
      modifies Memory()`state
      ensures ok == initializer
      ensures ok ==> header.state == CLOSED
      ensures !ok && header != null ==> header.state == old(header.state)
      ensures ok && old(header.Valid()) ==>
        header.Valid() && header.Shared(acquired) == old(header.Shared(acquired)).Close()
    {
      if !initializer { return false; }
      header.state := CLOSED;
      return true;
    }
  }

  /** Two handles on one segment: one publishes, the other consumes. */
  ghost predicate Paired(producer: SpscRing, consumer: SpscRing)
    reads producer, consumer, consumer.header, consumer.SlotMemory(), producer.SlotMemory()
  {
    && producer != consumer && consumer.ConsumerOk()
    && producer.header == consumer.header && producer.Attached()
    && producer.cachedReadPosition <= producer.header.readPosition
  }

  /** The publishing handle may also close. */
  ghost predicate Linked(producer: SpscRing, consumer: SpscRing)
    reads producer, consumer, consumer.header, consumer.SlotMemory(), producer.SlotMemory()
  {
    Paired(producer, consumer) && producer.initializer
  }

  /** What one publish does to a queue does not depend on whether a slot is held. */
  lemma PublishWhileHeld(q: Queue, event: Event, held: bool)
    ensures q.(held := held).Publish(event) == q.Publish(event).(held := held)
  {
  }

  /** A freshly constructed header names this geometry and this identity. */
  method FillPreamble(segment: Segment, config: RingConfig, instanceId: u64)
    requires segment.Backed() && segment.UsableMemory() && instanceId != 0
    requires RequiredBytes(config) == Ok(segment.size)
    modifies segment
    ensures segment.GeometryOk() && segment.slotCount == config.slotCount && segment.capacity == config.capacity
    ensures segment.magic == RING_MAGIC && segment.layoutVersion == LAYOUT_VERSION
      && segment.headerBytes == HEADER_BYTES
    ensures segment.segmentBytes == segment.size && segment.reserved == 0 && segment.instanceId == instanceId
    ensures AllZero(segment.reservedBytes) && segment.state == INITIALIZING
  {
    AcceptedConfigs(config);
    segment.magic := RING_MAGIC;
    segment.layoutVersion := LAYOUT_VERSION;
    segment.headerBytes := HEADER_BYTES;
    segment.segmentBytes := segment.size;
    segment.slotCount := config.slotCount;
    segment.slotStride := (segment.size - HEADER_BYTES) / config.slotCount;
    segment.capacity := config.capacity;
    segment.reserved := 0;
    segment.instanceId := instanceId;
    segment.reservedBytes := Zeros(20);
    segment.state := INITIALIZING;
  }

  method ResetCursors(segment: Segment)
    modifies segment`writePosition, segment`writeReserved, segment`readPosition, segment`readReserved, segment`published
    ensures segment.writePosition == segment.readPosition == 0 && segment.published == []
    ensures AllZero(segment.writeReserved) && AllZero(segment.readReserved)
  {
    segment.writePosition, segment.writeReserved := 0, Zeros(56);
    segment.readPosition, segment.readReserved := 0, Zeros(56);
    segment.published := [];
  }

  /** Construct a zero header in every slot; the payload areas keep whatever they held. */
  method ClearSlotHeaders(slots: array<u8>, count: nat, stride: nat)
    requires slots.Length == count * stride && stride >= SLOT_HEADER_BYTES
    modifies slots
    ensures forall j :: 0 <= j < count ==> Cleared(old(slots[..]), slots[..], j, stride)
  {
    ghost var start := slots[..];
    NothingCleared(start, count, stride);
    for index := 0 to count
      invariant ClearedBelow(start, slots[..], index, count, stride)
    {
      ClearSlotHeader(slots, index, count, stride, start);
    }
  }

  method ClearSlotHeader(slots: array<u8>, index: nat, count: nat, stride: nat, ghost start: seq<u8>)
    requires ClearedBelow(start, slots[..], index, count, stride) && index < count
    modifies slots
    ensures ClearedBelow(start, slots[..], index + 1, count, stride)
  {
    ClearNext(start, slots[..], index, count, stride);
    FillZero(slots, SlotBase(index, stride), SlotBase(index, stride) + SLOT_HEADER_BYTES);
  }

  /** The first `index` of the slots have been cleared. */
  ghost predicate ClearedBelow(start: seq<u8>, now: seq<u8>, index: nat, count: nat, stride: nat) {
    && stride >= SLOT_HEADER_BYTES && |start| == |now| == count * stride
    && forall j :: 0 <= j < count ==>
      if j < index then Cleared(start, now, j, stride) else Untouched(start, now, j, stride)
  }

  lemma NothingCleared(start: seq<u8>, count: nat, stride: nat)
    requires |start| == count * stride && stride >= SLOT_HEADER_BYTES
    ensures ClearedBelow(start, start, 0, count, stride)
  {
    forall j | 0 <= j < count ensures Untouched(start, start, j, stride) { SlotInside(j, count, stride); }
  }

  lemma ClearNext(start: seq<u8>, now: seq<u8>, index: nat, count: nat, stride: nat)
    requires ClearedBelow(start, now, index, count, stride) && index < count
    ensures SlotBase(index, stride) + stride <= |now|
    ensures ClearedBelow(start, Splice(now, SlotBase(index, stride), Zeros(SLOT_HEADER_BYTES)), index + 1, count,
                         stride)
  {
    SlotInside(index, count, stride);
    var after := Splice(now, SlotBase(index, stride), Zeros(SLOT_HEADER_BYTES));
    forall j | 0 <= j < count
      ensures if j <= index then Cleared(start, after, j, stride) else Untouched(start, after, j, stride)
    {
      assert if j < index then Cleared(start, now, j, stride) else Untouched(start, now, j, stride);
      if j == index { ClearedSlot(now, index, stride); } else { ClearedElsewhere(now, index, j, count, stride); }
    }
  }

  /** The slot's header became zero and its payload area stayed as it was. */
  predicate Cleared(before: seq<u8>, after: seq<u8>, index: nat, stride: nat) {
    && stride >= SLOT_HEADER_BYTES && SlotBase(index, stride) + stride <= |before| == |after|
    && SlotAt(after, index, stride)[..SLOT_HEADER_BYTES] == Zeros(SLOT_HEADER_BYTES)
    && SlotAt(after, index, stride)[SLOT_HEADER_BYTES..] == SlotAt(before, index, stride)[SLOT_HEADER_BYTES..]
  }

  predicate Untouched(before: seq<u8>, after: seq<u8>, index: nat, stride: nat) {
    && SlotBase(index, stride) + stride <= |before| == |after|
    && SlotAt(after, index, stride) == SlotAt(before, index, stride)
  }

  lemma ClearedSlot(before: seq<u8>, index: nat, stride: nat)
    requires SlotBase(index, stride) + stride <= |before| && stride >= SLOT_HEADER_BYTES
    ensures Cleared(before, Splice(before, SlotBase(index, stride), Zeros(SLOT_HEADER_BYTES)), index, stride)
  {
    var base := SlotBase(index, stride);
    var after := Splice(before, base, Zeros(SLOT_HEADER_BYTES));
    assert after[base..base + stride][..SLOT_HEADER_BYTES] == after[base..base + SLOT_HEADER_BYTES];
    assert after[base..base + stride][SLOT_HEADER_BYTES..] == before[base..base + stride][SLOT_HEADER_BYTES..];
  }

  lemma ClearedElsewhere(before: seq<u8>, index: nat, other: nat, count: nat, stride: nat)
    requires index < count && other < count && index != other && |before| == count * stride
      && stride >= SLOT_HEADER_BYTES
    ensures SlotBase(index, stride) + stride <= |before|
    ensures Untouched(before, Splice(before, SlotBase(index, stride), Zeros(SLOT_HEADER_BYTES)), other, stride)
  {
    SlotInside(index, count, stride);
    SlotInside(other, count, stride);
    SlotsApart(other, index, stride);
    var from := SlotBase(other, stride);
    SpliceOutside(before, SlotBase(index, stride), Zeros(SLOT_HEADER_BYTES), from, from + stride);
  }

  /** A cleared header has zero reserved words. */
  lemma ClearedIsReservedZero(before: seq<u8>, after: seq<u8>, index: nat, stride: nat)
    requires Cleared(before, after, index, stride)
    ensures ReservedZero(after, index, stride)
  {
    assert SlotAt(after, index, stride)[24..32] == SlotAt(after, index, stride)[..SLOT_HEADER_BYTES][24..32];
  }

  /** Lay a ring out over fresh memory, once; a refusal writes nothing. */
  method Initialize(segment: Segment, config: RingConfig, instanceId: u64) returns (r: Result<SpscRing, RingError>)
    requires segment.Backed()
    modifies segment, segment.slots
    ensures r.Ok? <==> instanceId != 0 && segment.UsableMemory() && RequiredBytes(config) == Ok(segment.size)
    ensures instanceId == 0 ==> r == Err(InvalidConfig)
    ensures instanceId != 0 && RequiredBytes(config).Err? ==> r == Err(RequiredBytes(config).error)
    ensures instanceId != 0 && RequiredBytes(config).Ok? && r.Err? ==> r.error == InvalidMemory
    ensures r.Err? ==> unchanged(segment) && unchanged(segment.slots)
    ensures r.Ok? ==>
      && fresh(r.value) && r.value.header == segment && r.value.initializer
      && r.value.ProducerOk() && r.value.ConsumerOk()
      && r.value.Queue() == Queue(config.slotCount, config.capacity, [], 0, false, false)
  {
    if instanceId == 0 { return Err(InvalidConfig); }
    var maybeSize := RequiredBytes(config);
    if maybeSize.Err? { return Err(maybeSize.error); }
    if !segment.UsableMemory() || segment.size != maybeSize.value { return Err(InvalidMemory); }
    FillPreamble(segment, config, instanceId);
    ResetCursors(segment);
    segment.AreaSize();
    ghost var before := segment.slots[..];
    ClearSlotHeaders(segment.slots, segment.slotCount, segment.slotStride);
    forall j | 0 <= j < segment.slotCount ensures ReservedZero(segment.slots[..], j, segment.slotStride) {
      ClearedIsReservedZero(before, segment.slots[..], j, segment.slotStride);
    }
    segment.state := READY;
    assert segment.Valid();
    var ring := new SpscRing.Over(segment, true);
    return Ok(ring);
  }

  /** Open an initialized segment, running or closed; exactly the sound layouts are accepted. */
  method Attach(segment: Segment) returns (r: Result<SpscRing, RingError>)
    requires segment.Backed()
    ensures r.Ok? <==> segment.LayoutOk()
    ensures !segment.UsableMemory() ==> r == Err(InvalidMemory)
    ensures segment.UsableMemory() && segment.state in {UNINITIALIZED, INITIALIZING} ==> r == Err(NotReady)
    ensures segment.UsableMemory() && segment.state > CLOSED ==> r == Err(InvalidLayout)
    ensures segment.UsableMemory() && segment.state in {READY, CLOSED} && r.Err? ==>
      r.error == if segment.PreambleOk() then InvalidMemory else InvalidLayout
    ensures r.Ok? ==>
      && fresh(r.value) && r.value.header == segment && r.value.Attached()
      && !r.value.initializer && !r.value.acquired
    ensures segment.Valid() ==>
      r.Ok? && r.value.ProducerOk() && r.value.ConsumerOk() && r.value.Queue() == segment.Shared(true).Reattach()
  {
    if !segment.UsableMemory() { return Err(InvalidMemory); }
    if segment.state == UNINITIALIZED || segment.state == INITIALIZING { return Err(NotReady); }
    if segment.state != READY && segment.state != CLOSED { return Err(InvalidLayout); }
    if segment.magic != RING_MAGIC || segment.layoutVersion != LAYOUT_VERSION || segment.headerBytes != HEADER_BYTES
       || segment.instanceId == 0 || segment.reserved != 0
    {
      return Err(InvalidLayout);
    }
    if !AllZero(segment.reservedBytes) || !AllZero(segment.writeReserved) || !AllZero(segment.readReserved) {
      return Err(InvalidLayout);
    }
    var config := RingConfig(segment.slotCount, segment.capacity);
    var size := RequiredBytes(config);
    if size.Err? { return Err(InvalidLayout); }
    AcceptedConfigs(config);
    var stride := (size.value - HEADER_BYTES) / config.slotCount;
    if segment.slotStride != stride || segment.segmentBytes != size.value { return Err(InvalidLayout); }
    if segment.size != size.value { return Err(InvalidMemory); }
    var ring := new SpscRing.Over(segment, false);
    return Ok(ring);
  }
}
