/** The size and slot arithmetic of a ring segment, and the values of its state word. */
module Geometry {
  import opened Bits
  import opened Events

  const HEADER_BYTES: nat := 192
  const CACHE_LINE: nat := 64
  const SLOT_HEADER_BYTES: nat := 32

  // The values of the state word.
  const UNINITIALIZED: u32 := 0
  const INITIALIZING: u32 := 1
  const READY: u32 := 2
  const CLOSED: u32 := 3

  datatype RingConfig = RingConfig(slotCount: u32, capacity: u32)

  datatype RingError = InvalidConfig | SizeOverflow | InvalidMemory | InvalidLayout | NotReady

  function Stride(capacity: u32): (r: nat)
    ensures r % CACHE_LINE == 0
    ensures SLOT_HEADER_BYTES + capacity <= r < SLOT_HEADER_BYTES + capacity + CACHE_LINE
  {
    KnownPowers();
    AlignUpIsLeast(SLOT_HEADER_BYTES + capacity, CACHE_LINE);
    AlignUp(SLOT_HEADER_BYTES + capacity, CACHE_LINE)
  }

  function RequiredBytes(config: RingConfig): (r: Result<u64, RingError>)
    ensures r.Ok? ==> config.slotCount >= 2 && Stride(config.capacity) <= U32_MAX
    ensures r.Ok? ==> r.value == HEADER_BYTES + Stride(config.capacity) * config.slotCount
  {
    if config.slotCount < 2 || And(config.slotCount, config.slotCount - 1) != 0 then Err(InvalidConfig)
    else
      var stride := Stride(config.capacity);
      if stride > U32_MAX then Err(SizeOverflow)
      else if config.slotCount > (U64_MAX - HEADER_BYTES) / stride then Err(SizeOverflow)
      else
        FitsByDivision(config.slotCount, stride, U64_MAX - HEADER_BYTES);
        Ok(HEADER_BYTES + stride * config.slotCount)
  }

  lemma FitsByDivision(count: nat, stride: nat, limit: nat)
    requires stride > 0
    ensures count <= limit / stride <==> stride * count <= limit
  {
    var q := limit / stride;
    assert limit == q * stride + limit % stride;
    if count < q { MulStep(count, q, stride); }
    if q < count { MulStep(q, count, stride); }
  }

  /** The largest capacity whose stride still fits 32 bits. */
  const MAX_CAPACITY: nat := 0xFFFF_FFA0

  /** Which error a configuration gets: a slot count that is no power of two from 2 on, and otherwise
      a capacity whose stride does not fit 32 bits. */
  lemma AcceptedIff(config: RingConfig)
    ensures RequiredBytes(config).Ok? <==>
      config.slotCount >= 2 && IsPowerOfTwo(config.slotCount) && config.capacity <= MAX_CAPACITY
    ensures RequiredBytes(config) == Err(InvalidConfig) <==> config.slotCount < 2 || !IsPowerOfTwo(config.slotCount)
    ensures RequiredBytes(config) == Err(SizeOverflow) <==>
      config.slotCount >= 2 && IsPowerOfTwo(config.slotCount) && config.capacity > MAX_CAPACITY
  {
    if config.slotCount >= 2 { PowerOfTwoTest(config.slotCount); }
    StrideFits(config.capacity);
    var stride := Stride(config.capacity);
    if stride <= U32_MAX {
      ProductBound(config.slotCount, stride);
      FitsByDivision(config.slotCount, stride, U64_MAX - HEADER_BYTES);
    }
  }

  /** Exactly which configurations have a segment, in closed form; the second overflow test never
      fires with a 64-bit size. The size is header plus slots without overflow, the stride comes
      back exactly when the slot area is divided by the slot count, and it is as small as possible. */
  lemma AcceptedConfigs(config: RingConfig)
    ensures RequiredBytes(config).Ok? <==>
      config.slotCount >= 2 && IsPowerOfTwo(config.slotCount) && config.capacity <= MAX_CAPACITY
    ensures RequiredBytes(config).Ok? ==>
      && RequiredBytes(config).value == HEADER_BYTES + config.slotCount * Stride(config.capacity) <= U64_MAX
      && (RequiredBytes(config).value - HEADER_BYTES) / config.slotCount == Stride(config.capacity)
      && forall other: nat :: other % CACHE_LINE == 0 && SLOT_HEADER_BYTES + config.capacity <= other ==>
           Stride(config.capacity) <= other
  {
    AcceptedIff(config);
    KnownPowers();
    AlignUpIsLeast(SLOT_HEADER_BYTES + config.capacity, CACHE_LINE);
    if RequiredBytes(config).Ok? {
      var stride := Stride(config.capacity);
      assert config.slotCount * stride == stride * config.slotCount;
      ModUnique(stride * config.slotCount, config.slotCount, stride, 0);
    }
  }

  lemma StrideFits(capacity: u32)
    ensures Stride(capacity) <= U32_MAX <==> capacity <= MAX_CAPACITY
  {
    var top := 0xFFFF_FFC0;
    assert top % CACHE_LINE == 0;
    KnownPowers();
    AlignUpIsLeast(SLOT_HEADER_BYTES + capacity, CACHE_LINE);
  }

  lemma ProductBound(count: u32, stride: nat)
    requires stride <= U32_MAX
    ensures stride * count <= U64_MAX - HEADER_BYTES
  {
    if count < U32_MAX { MulStep(count, U32_MAX, stride); }
    assert stride * U32_MAX <= U32_MAX * U32_MAX;
    assert U32_MAX * U32_MAX <= U64_MAX - HEADER_BYTES;
  }

  /** Byte offset of a slot inside the slot area. */
  function SlotBase(index: nat, stride: nat): nat {
    index * stride
  }

  lemma SlotInside(index: nat, count: nat, stride: nat)
    requires index < count
    ensures SlotBase(index, stride) + stride <= count * stride
  {
    MulStep(index, count, stride);
  }

  lemma SlotsApart(a: nat, b: nat, stride: nat)
    requires a != b
    ensures SlotBase(a, stride) + stride <= SlotBase(b, stride) || SlotBase(b, stride) + stride <= SlotBase(a, stride)
  {
    if a < b { MulStep(a, b, stride); } else { MulStep(b, a, stride); }
  }

  /** The masked position is the remainder, and within one lap every position has its own bytes. */
  lemma PositionsApart(config: RingConfig, p: u64, q: u64)
    requires RequiredBytes(config).Ok? && p < q < p + config.slotCount
    ensures var n, stride := config.slotCount, Stride(config.capacity);
      var a, b := And(p, n - 1), And(q, n - 1);
      && a == p % n && b == q % n
      && SlotBase(a, stride) + stride <= n * stride && SlotBase(b, stride) + stride <= n * stride
      && (SlotBase(a, stride) + stride <= SlotBase(b, stride) || SlotBase(b, stride) + stride <= SlotBase(a, stride))
  {
    var n, stride := config.slotCount, Stride(config.capacity);
    AcceptedConfigs(config);
    AlignUpRemainder(p, n);
    AlignUpRemainder(q, n);
    var a, b := p % n, q % n;
    SlotInside(a, n, stride);
    SlotInside(b, n, stride);
    if a == b { OneLap(p, q, n); }
    SlotsApart(a, b, stride);
  }
}
