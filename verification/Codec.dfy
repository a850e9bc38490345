/** The LLEP v1 DATA packet holding one event: encoder, decoder, and the proof that the two are
    inverse bijections between encodable events and accepted packets. */
module Codec {
  import opened Bits
  import opened Events
  import opened ByteIO

  const MAGIC: u8 := 0x4c
  const VERSION: u8 := 1
  const DATA_TYPE: u8 := 1
  const COMMON_HEADER_BYTES: nat := 8
  const DATA_FIXED_BYTES: nat := 36
  const FRAME_HEADER_BYTES: nat := 6
  const FRAME_ALIGNMENT: nat := 4
  const MAX_PACKET_BYTES: nat := 1416
  const MIN_PACKET_BYTES: nat := 44
  const MAX_PAYLOAD_BYTES: nat := 1374
  const PAYLOAD_OFFSET: nat := 42

  datatype EncodeError =
    InvalidSessionId | InvalidPacketSequence | InvalidEventSequence | PayloadTooLong | OutputTooSmall

  datatype DecodeError =
    | Truncated | BadMagic | UnsupportedVersion | UnsupportedType | PacketLengthMismatch | PacketTooLarge
    | ZeroSessionId | ZeroPacketSequence | ZeroEventSequence | MalformedFrame | NonZeroPadding | UnsupportedBatch

  datatype Decoded = Decoded(sessionId: u32, packetSequence: u64, event: Event)

  datatype DecodedView = DecodedView(sessionId: u32, packetSequence: u64, event: EventView)

  function FrameSize(payloadSize: nat): (r: nat)
    ensures r % FRAME_ALIGNMENT == 0
    ensures FRAME_HEADER_BYTES + payloadSize <= r < FRAME_HEADER_BYTES + payloadSize + FRAME_ALIGNMENT
  {
    KnownPowers();
    AlignUpIsLeast(FRAME_HEADER_BYTES + payloadSize, FRAME_ALIGNMENT);
    AlignUp(FRAME_HEADER_BYTES + payloadSize, FRAME_ALIGNMENT)
  }

  function PacketSize(payloadSize: nat): (r: nat)
    ensures payloadSize <= MAX_PAYLOAD_BYTES <==> r <= MAX_PACKET_BYTES
    ensures MIN_PACKET_BYTES <= r
  {
    DATA_FIXED_BYTES + FrameSize(payloadSize)
  }

  /** Which events the wire format carries under an output limit, as one condition. */
  predicate Encodable(event: Event, limit: nat) {
    event.sequence != 0 && |event.payload| <= MAX_PAYLOAD_BYTES && PacketSize(|event.payload|) <= limit
  }

  /** The first reason to refuse, in the encoder's order. */
  function EncodeCheck(event: Event, sessionId: u32, packetSequence: u64, limit: nat): (r: Option<EncodeError>)
    ensures r.None? <==> sessionId != 0 && packetSequence != 0 && Encodable(event, limit)
  {
    if sessionId == 0 then Some(InvalidSessionId)
    else if packetSequence == 0 then Some(InvalidPacketSequence)
    else if event.sequence == 0 then Some(InvalidEventSequence)
    else if |event.payload| > MAX_PAYLOAD_BYTES then Some(PayloadTooLong)
    else if PacketSize(|event.payload|) > limit then Some(OutputTooSmall)
    else None
  }

  function VersionAndType(): (r: u8)
    ensures r / 0x10 == VERSION && And(r, 0x0f) == DATA_TYPE
  {
    KnownPowers();
    OrDisjoint(DATA_TYPE, VERSION, 4);
    AndMask(17, 4);
    Or(DATA_TYPE, ShiftLeft(VERSION, 4))
  }

  function Identity(packetSize: u16, sessionId: u32, packetSequence: u64): (bytes: seq<u8>)
    ensures |bytes| == 16
  {
    [MAGIC, VersionAndType()] + Le16(packetSize) + Le32(sessionId) + Le64(packetSequence)
  }

  function Metadata(sequence: u64, timestamp: u64, streamId: u32, payloadSize: u16): (bytes: seq<u8>)
    ensures |bytes| == 26
  {
    Le64(sequence) + Le64(timestamp) + Le32(streamId) + Le32(0) + Le16(payloadSize)
  }

  function Header(event: Event, sessionId: u32, packetSequence: u64): (bytes: seq<u8>)
    requires |event.payload| <= MAX_PAYLOAD_BYTES
    ensures |bytes| == PAYLOAD_OFFSET
  {
    Identity(PacketSize(|event.payload|), sessionId, packetSequence)
    + Metadata(event.sequence, event.timestamp, event.streamId, |event.payload|)
  }

  function Packet(event: Event, sessionId: u32, packetSequence: u64): (bytes: seq<u8>)
    requires |event.payload| <= MAX_PAYLOAD_BYTES
    ensures |bytes| == PacketSize(|event.payload|)
  {
    Header(event, sessionId, packetSequence) + event.payload
    + Zeros(PacketSize(|event.payload|) - PAYLOAD_OFFSET - |event.payload|)
  }

  method WriteIdentity(output: array<u8>, packetSize: u16, sessionId: u32, packetSequence: u64)
    requires 16 <= output.Length
    modifies output
    ensures output[..] == Splice(old(output[..]), 0, Identity(packetSize, sessionId, packetSequence))
  {
    ghost var start := output[..];
    output[0] := MAGIC;
    output[1] := VersionAndType();
    ghost var done := [MAGIC, VersionAndType()];
    assert output[..] == Splice(start, 0, done);
    WriteU16(output, 2, packetSize);
    SpliceAdjacent(start, 0, done, Le16(packetSize));
    done := done + Le16(packetSize);
    WriteU32(output, 4, sessionId);
    SpliceAdjacent(start, 0, done, Le32(sessionId));
    done := done + Le32(sessionId);
    WriteU64(output, 8, packetSequence);
    SpliceAdjacent(start, 0, done, Le64(packetSequence));
  }

  method WriteMetadata(output: array<u8>, sequence: u64, timestamp: u64, streamId: u32, payloadSize: u16)
    requires PAYLOAD_OFFSET <= output.Length
    modifies output
    ensures output[..] == Splice(old(output[..]), 16, Metadata(sequence, timestamp, streamId, payloadSize))
  {
    ghost var start := output[..];
    ghost var done := Le64(sequence);
    WriteU64(output, 16, sequence);
    WriteU64(output, 24, timestamp);
    SpliceAdjacent(start, 16, done, Le64(timestamp));
    done := done + Le64(timestamp);
    WriteU32(output, 32, streamId);
    SpliceAdjacent(start, 16, done, Le32(streamId));
    done := done + Le32(streamId);
    WriteU32(output, 36, 0);
    SpliceAdjacent(start, 16, done, Le32(0));
    done := done + Le32(0);
    WriteU16(output, 40, payloadSize);
    SpliceAdjacent(start, 16, done, Le16(payloadSize));
  }

  /** The encoder's four adjacent writes make one packet. */
  lemma Assemble(start: seq<u8>, event: Event, sessionId: u32, packetSequence: u64)
    requires |event.payload| <= MAX_PAYLOAD_BYTES && PacketSize(|event.payload|) <= |start|
    ensures
      var size := PacketSize(|event.payload|);
      var s1 := Splice(start, 0, Identity(size, sessionId, packetSequence));
      var s2 := Splice(s1, 16, Metadata(event.sequence, event.timestamp, event.streamId, |event.payload|));
      var s3 := Splice(s2, PAYLOAD_OFFSET, event.payload);
      var s4 := Splice(s3, PAYLOAD_OFFSET + |event.payload|, Zeros(size - PAYLOAD_OFFSET - |event.payload|));
      s4 == Splice(start, 0, Packet(event, sessionId, packetSequence))
  {
    var size := PacketSize(|event.payload|);
    var identity := Identity(size, sessionId, packetSequence);
    var header := Header(event, sessionId, packetSequence);
    SpliceAdjacent(start, 0, identity, Metadata(event.sequence, event.timestamp, event.streamId, |event.payload|));
    SpliceAdjacent(start, 0, header, event.payload);
    SpliceAdjacent(start, 0, header + event.payload, Zeros(size - PAYLOAD_OFFSET - |event.payload|));
  }

  /** Writing the header leaves the payload alone, and the payload can be copied behind it. */
  predicate PayloadStays(payload: Span, output: array<u8>) {
    payload.ClearOf(output, 0, PAYLOAD_OFFSET) && payload.CopiesTo(output, PAYLOAD_OFFSET)
  }

  /** Write a packet that is known to fit. */
  method WritePacket(event: EventView, sessionId: u32, packetSequence: u64, output: array<u8>)
    requires event.payload.InBounds() && PayloadStays(event.payload, output)
    requires event.payload.size <= MAX_PAYLOAD_BYTES && PacketSize(event.payload.size) <= output.Length
    modifies output
    ensures output[..] == Splice(old(output[..]), 0, Packet(old(event.Value()), sessionId, packetSequence))
  {
    ghost var value, start := event.Value(), output[..];
    var payloadSize, packetSize := event.payload.size, PacketSize(event.payload.size);
    WriteIdentity(output, packetSize, sessionId, packetSequence);
    WriteMetadata(output, event.sequence, event.timestamp, event.streamId, payloadSize);
    assert event.payload.Bytes() == value.payload;
    CopyBytes(event.payload, output, PAYLOAD_OFFSET);
    FillZero(output, PAYLOAD_OFFSET + payloadSize, packetSize);
    Assemble(start, value, sessionId, packetSequence);
  }

  /** Write one packet into the front of the caller's buffer, or refuse and leave it untouched. */
  method EncodeData(event: EventView, sessionId: u32, packetSequence: u64, output: array<u8>, limit: nat)
    returns (r: Result<nat, EncodeError>)
    requires event.payload.InBounds() && PayloadStays(event.payload, output)
    requires limit <= output.Length
    modifies output
    ensures r.Ok? <==> EncodeCheck(old(event.Value()), sessionId, packetSequence, limit).None?
    ensures r.Err? ==> EncodeCheck(old(event.Value()), sessionId, packetSequence, limit) == Some(r.error)
    ensures r == Err(InvalidSessionId) <==> sessionId == 0
    ensures r == Err(InvalidPacketSequence) <==> sessionId != 0 && packetSequence == 0
    ensures r == Err(InvalidEventSequence) <==> sessionId != 0 && packetSequence != 0 && event.sequence == 0
    ensures r == Err(PayloadTooLong) <==>
      sessionId != 0 && packetSequence != 0 && event.sequence != 0 && event.payload.size > MAX_PAYLOAD_BYTES
    ensures r == Err(OutputTooSmall) <==>
      && sessionId != 0 && packetSequence != 0 && event.sequence != 0 && event.payload.size <= MAX_PAYLOAD_BYTES
      && PacketSize(event.payload.size) > limit
    ensures r.Err? ==> output[..] == old(output[..])
    ensures r.Ok? ==> r.value == |Packet(old(event.Value()), sessionId, packetSequence)| <= limit
    ensures r.Ok? ==>
      output[..] == Splice(old(output[..]), 0, Packet(old(event.Value()), sessionId, packetSequence))
  {
    if sessionId == 0 { return Err(InvalidSessionId); }
    if packetSequence == 0 { return Err(InvalidPacketSequence); }
    if event.sequence == 0 { return Err(InvalidEventSequence); }
    if event.payload.size > MAX_PAYLOAD_BYTES { return Err(PayloadTooLong); }
    var packetSize := FrameSize(event.payload.size) + DATA_FIXED_BYTES;
    if packetSize > limit { return Err(OutputTooSmall); }
    WritePacket(event, sessionId, packetSequence, output);
    return Ok(packetSize);
  }

  /** The checks up to the packet sequence, in order. */
  function CheckHeader(packet: seq<u8>): (r: Option<DecodeError>)
    ensures r.None? ==> MIN_PACKET_BYTES <= |packet| <= MAX_PACKET_BYTES
  {
    if |packet| < COMMON_HEADER_BYTES then Some(Truncated)
    else if |packet| > MAX_PACKET_BYTES then Some(PacketTooLarge)
    else if packet[0] != MAGIC then Some(BadMagic)
    else if packet[1] / 0x10 != VERSION then Some(UnsupportedVersion)
    else if And(packet[1], 0x0f) != DATA_TYPE then Some(UnsupportedType)
    else if ReadU16(packet, 2) != |packet| then Some(PacketLengthMismatch)
    else if ReadU32(packet, 4) == 0 then Some(ZeroSessionId)
    else if |packet| < MIN_PACKET_BYTES then Some(Truncated)
    else if ReadU64(packet, 8) == 0 then Some(ZeroPacketSequence)
    else None
  }

  predicate ZeroBetween(bytes: seq<u8>, from: nat, to: nat)
    requires from <= to <= |bytes|
    ensures ZeroBetween(bytes, from, to) <==> bytes[from..to] == Zeros(to - from)
  {
    var zero := forall i :: from <= i < to ==> bytes[i] == 0;
    assert forall i :: from <= i < to ==> bytes[i] == bytes[from..to][i - from];
    zero
  }

  /** The checks on the event frame, in order. */
  function CheckFrame(packet: seq<u8>): (r: Option<DecodeError>)
    requires MIN_PACKET_BYTES <= |packet|
    ensures r.None? ==> |packet| == PacketSize(ReadU16(packet, 40))
  {
    var payloadSize := ReadU16(packet, 40);
    var frameSize := FrameSize(payloadSize);
    if ReadU64(packet, 16) == 0 then Some(ZeroEventSequence)
    else if ReadU32(packet, 36) != 0 then Some(MalformedFrame)
    else if payloadSize > MAX_PAYLOAD_BYTES then Some(MalformedFrame)
    else if !HasBytes(|packet|, DATA_FIXED_BYTES, frameSize) then Some(MalformedFrame)
    else if !ZeroBetween(packet, PAYLOAD_OFFSET + payloadSize, DATA_FIXED_BYTES + frameSize) then Some(NonZeroPadding)
    else if |packet| != DATA_FIXED_BYTES + frameSize then Some(UnsupportedBatch)
    else None
  }

  /** All-or-nothing validation of one datagram. */
  function Decode(packet: seq<u8>): (r: Result<Decoded, DecodeError>)
    ensures r.Ok? ==>
      && PAYLOAD_OFFSET + |r.value.event.payload| <= |packet|
      && r.value.event.payload == packet[PAYLOAD_OFFSET..PAYLOAD_OFFSET + |r.value.event.payload|]
  {
    if CheckHeader(packet).Some? then Err(CheckHeader(packet).value)
    else if CheckFrame(packet).Some? then Err(CheckFrame(packet).value)
    else
      var event := Event(ReadU32(packet, 32), ReadU64(packet, 16), ReadU64(packet, 24),
                         packet[PAYLOAD_OFFSET..PAYLOAD_OFFSET + ReadU16(packet, 40)]);
      Ok(Decoded(ReadU32(packet, 4), ReadU64(packet, 8), event))
  }

  /** The same metadata over a payload that stays in the datagram. */
  function ViewInto(d: Decoded, packet: Span): (r: DecodedView)
    requires packet.InBounds() && PAYLOAD_OFFSET + |d.event.payload| <= packet.size
    requires d.event.payload == packet.Bytes()[PAYLOAD_OFFSET..PAYLOAD_OFFSET + |d.event.payload|]
    reads packet.data
    ensures r.event.payload.data == packet.data && r.event.payload.InBounds()
    ensures Decoded(r.sessionId, r.packetSequence, r.event.Value()) == d
  {
    var payload := Span(packet.data, packet.offset + PAYLOAD_OFFSET, |d.event.payload|);
    SubSlice(packet.data[..], packet.offset, packet.size, PAYLOAD_OFFSET, |d.event.payload|);
    assert payload.Bytes() == d.event.payload;
    DecodedView(d.sessionId, d.packetSequence,
                EventView(d.event.streamId, d.event.sequence, d.event.timestamp, payload))
  }

  /** The decoder's result as a view into the datagram it was given. */
  function DecodeData(packet: Span): (r: Result<DecodedView, DecodeError>)
    requires packet.InBounds()
    reads packet.data
    ensures r.Ok? ==>
      && r.value.event.payload.data == packet.data && r.value.event.payload.InBounds()
      && Decode(packet.Bytes()) == Ok(Decoded(r.value.sessionId, r.value.packetSequence, r.value.event.Value()))
    ensures r.Err? ==> Decode(packet.Bytes()) == Err(r.error)
  {
    var decoded := Decode(packet.Bytes());
    if decoded.Err? then Err(decoded.error) else Ok(ViewInto(decoded.value, packet))
  }

  /** The bytes of every header field stand where the decoder looks for them. */
  lemma HeaderFields(event: Event, sessionId: u32, packetSequence: u64, packet: seq<u8>)
    requires |event.payload| <= MAX_PAYLOAD_BYTES && |packet| >= PAYLOAD_OFFSET
    ensures packet[..PAYLOAD_OFFSET] == Header(event, sessionId, packetSequence) <==>
      && packet[0] == MAGIC && packet[1] == VersionAndType()
      && ReadU16(packet, 2) == PacketSize(|event.payload|)
      && ReadU32(packet, 4) == sessionId
      && ReadU64(packet, 8) == packetSequence
      && ReadU64(packet, 16) == event.sequence
      && ReadU64(packet, 24) == event.timestamp
      && ReadU32(packet, 32) == event.streamId
      && ReadU32(packet, 36) == 0
      && ReadU16(packet, 40) == |event.payload|
  {
    var h := Header(event, sessionId, packetSequence);
    var identity := Identity(PacketSize(|event.payload|), sessionId, packetSequence);
    var metadata := Metadata(event.sequence, event.timestamp, event.streamId, |event.payload|);
    assert h[..16] == identity && h[16..] == metadata;
    assert h[0..2] == [MAGIC, VersionAndType()];
    assert h[2..4] == Le16(PacketSize(|event.payload|));
    assert h[4..8] == Le32(sessionId);
    assert h[8..16] == Le64(packetSequence);
    assert h[16..24] == Le64(event.sequence);
    assert h[24..32] == Le64(event.timestamp);
    assert h[32..36] == Le32(event.streamId);
    assert h[36..40] == Le32(0);
    assert h[40..42] == Le16(|event.payload|);
    Pieces(packet[..PAYLOAD_OFFSET], h);
    assert packet[0..2] == [packet[0], packet[1]];
    Field16(packet, 2, PacketSize(|event.payload|));
    Field32(packet, 4, sessionId);
    Field64(packet, 8, packetSequence);
    Field64(packet, 16, event.sequence);
    Field64(packet, 24, event.timestamp);
    Field32(packet, 32, event.streamId);
    Field32(packet, 36, 0);
    Field16(packet, 40, |event.payload|);
    PrefixPieces(packet);
  }

  lemma PrefixPieces(packet: seq<u8>)
    requires |packet| >= PAYLOAD_OFFSET
    ensures var p := packet[..PAYLOAD_OFFSET];
      && p[0..2] == packet[0..2] && p[2..4] == packet[2..4] && p[4..8] == packet[4..8] && p[8..16] == packet[8..16]
      && p[16..24] == packet[16..24] && p[24..32] == packet[24..32] && p[32..36] == packet[32..36]
      && p[36..40] == packet[36..40] && p[40..42] == packet[40..42]
  {
  }

  lemma Pieces(p: seq<u8>, q: seq<u8>)
    requires |p| == |q| == PAYLOAD_OFFSET
    ensures p == q <==>
      && p[0..2] == q[0..2] && p[2..4] == q[2..4] && p[4..8] == q[4..8] && p[8..16] == q[8..16]
      && p[16..24] == q[16..24] && p[24..32] == q[24..32] && p[32..36] == q[32..36] && p[36..40] == q[36..40]
      && p[40..42] == q[40..42]
  {
    assert p == p[0..2] + p[2..4] + p[4..8] + p[8..16] + p[16..24] + p[24..32] + p[32..36] + p[36..40] + p[40..42];
    assert q == q[0..2] + q[2..4] + q[4..8] + q[8..16] + q[16..24] + q[24..32] + q[32..36] + q[36..40] + q[40..42];
  }

  /** Decoding an encoded event gives back its identity, its metadata and its payload. */
  lemma RoundTrip(event: Event, sessionId: u32, packetSequence: u64)
    requires sessionId != 0 && packetSequence != 0 && Encodable(event, MAX_PACKET_BYTES)
    ensures Decode(Packet(event, sessionId, packetSequence)) == Ok(Decoded(sessionId, packetSequence, event))
  {
    var p := Packet(event, sessionId, packetSequence);
    assert p[..PAYLOAD_OFFSET] == Header(event, sessionId, packetSequence);
    HeaderFields(event, sessionId, packetSequence, p);
    assert p[PAYLOAD_OFFSET..PAYLOAD_OFFSET + |event.payload|] == event.payload;
  }

  lemma VersionByte(b: u8)
    ensures b / 0x10 == VERSION && And(b, 0x0f) == DATA_TYPE <==> b == VersionAndType()
  {
    KnownPowers();
    AndMask(b, 4);
    OrDisjoint(DATA_TYPE, VERSION, 4);
  }

  /** Whatever the decoder accepts is the encoding of what it returned, byte for byte. */
  lemma Canonical(packet: seq<u8>)
    requires Decode(packet).Ok?
    ensures var d := Decode(packet).value;
      && d.sessionId != 0 && d.packetSequence != 0 && Encodable(d.event, MAX_PACKET_BYTES)
      && Packet(d.event, d.sessionId, d.packetSequence) == packet
  {
    var d := Decode(packet).value;
    VersionByte(packet[1]);
    HeaderFields(d.event, d.sessionId, d.packetSequence, packet);
    var end := PAYLOAD_OFFSET + |d.event.payload|;
    ThreePieces(packet, PAYLOAD_OFFSET, end);
    assert ZeroBetween(packet, end, |packet|);
  }

  lemma ThreePieces(packet: seq<u8>, i: nat, j: nat)
    requires i <= j <= |packet|
    ensures packet == packet[..i] + packet[i..j] + packet[j..|packet|]
  {
  }

  /** The accepted packets are exactly the encodings of encodable events. */
  lemma AcceptedIffEncoded(packet: seq<u8>)
    ensures Decode(packet).Ok? <==>
      exists d: Decoded ::
        && d.sessionId != 0 && d.packetSequence != 0 && Encodable(d.event, MAX_PACKET_BYTES)
        && packet == Packet(d.event, d.sessionId, d.packetSequence)
  {
    if Decode(packet).Ok? { Canonical(packet); }
    forall d: Decoded |
      && d.sessionId != 0 && d.packetSequence != 0 && Encodable(d.event, MAX_PACKET_BYTES)
      && packet == Packet(d.event, d.sessionId, d.packetSequence)
      ensures Decode(packet).Ok?
    {
      RoundTrip(d.event, d.sessionId, d.packetSequence);
    }
  }

  /** Different identities or different events never share an encoding. */
  lemma PacketInjective(a: Decoded, b: Decoded)
    requires a.sessionId != 0 && a.packetSequence != 0 && Encodable(a.event, MAX_PACKET_BYTES)
    requires b.sessionId != 0 && b.packetSequence != 0 && Encodable(b.event, MAX_PACKET_BYTES)
    requires Packet(a.event, a.sessionId, a.packetSequence) == Packet(b.event, b.sessionId, b.packetSequence)
    ensures a == b
  {
    RoundTrip(a.event, a.sessionId, a.packetSequence);
    RoundTrip(b.event, b.sessionId, b.packetSequence);
  }

  /** Cutting bytes off an accepted packet, or appending some, always makes it unacceptable. */
  lemma LengthIsChecked(packet: seq<u8>, other: seq<u8>)
    requires Decode(packet).Ok? && packet < other
    ensures Decode(other).Err?
  {
    assert packet[2] == other[2] && packet[3] == other[3];
  }

  /** More frames behind a well-formed first one, under a consistent length, are refused as a batch. */
  lemma BatchIsRefused(event: Event, sessionId: u32, packetSequence: u64, more: seq<u8>)
    requires sessionId != 0 && packetSequence != 0 && Encodable(event, MAX_PACKET_BYTES)
    requires more != [] && PacketSize(|event.payload|) + |more| <= MAX_PACKET_BYTES
    ensures var whole := Packet(event, sessionId, packetSequence) + more;
      Decode(Splice(whole, 2, Le16(|whole|))) == Err(UnsupportedBatch)
  {
    var p := Packet(event, sessionId, packetSequence);
    var whole := p + more;
    var batch := Splice(whole, 2, Le16(|whole|));
    Field16(batch, 2, |whole|);
    assert forall i :: 0 <= i < |p| && i != 2 && i != 3 ==> batch[i] == whole[i] == p[i];
    assert p[..PAYLOAD_OFFSET] == Header(event, sessionId, packetSequence);
    HeaderFields(event, sessionId, packetSequence, p);
    RoundTrip(event, sessionId, packetSequence);
    LongerIsBatch(p, batch);
  }

  /** An accepted packet under a larger, consistent length is a batch. */
  lemma LongerIsBatch(p: seq<u8>, batch: seq<u8>)
    requires Decode(p).Ok? && |p| < |batch| <= MAX_PACKET_BYTES && ReadU16(batch, 2) == |batch|
    requires forall i :: 0 <= i < |p| && i != 2 && i != 3 ==> batch[i] == p[i]
    ensures Decode(batch) == Err(UnsupportedBatch)
  {
    SameFields(p, batch);
    var from, to := PAYLOAD_OFFSET + ReadU16(p, 40), |p|;
    assert forall i :: from <= i < to ==> batch[i] == p[i];
    assert ZeroBetween(batch, from, to);
  }

  lemma SameFields(p: seq<u8>, q: seq<u8>)
    requires |p| >= PAYLOAD_OFFSET && |q| >= PAYLOAD_OFFSET
    requires forall i :: 0 <= i < PAYLOAD_OFFSET && i != 2 && i != 3 ==> p[i] == q[i]
    ensures q[0] == p[0] && q[1] == p[1] && ReadU32(q, 4) == ReadU32(p, 4) && ReadU64(q, 8) == ReadU64(p, 8)
    ensures ReadU64(q, 16) == ReadU64(p, 16) && ReadU32(q, 36) == ReadU32(p, 36) && ReadU16(q, 40) == ReadU16(p, 40)
  {
  }

  // ---- which defect of a datagram gives which error -----------------------------------------

  /** Of a size that can be looked at, and not too long. */
  predicate Sized(packet: seq<u8>) {
    8 <= |packet| <= 1416
  }

  /** A version 1 DATA packet by its first two bytes. */
  predicate IsData(packet: seq<u8>) {
    Sized(packet) && packet[0] == 0x4c && packet[1] == 0x11
  }

  /** The length field agrees with the datagram. */
  predicate LengthAgrees(packet: seq<u8>) {
    IsData(packet) && packet[2..4] == Le16(|packet|)
  }

  /** Long enough for every fixed field, with nonzero session and packet numbers. */
  predicate Identified(packet: seq<u8>) {
    LengthAgrees(packet) && packet[4..8] != Zeros(4) && |packet| >= 44 && packet[8..16] != Zeros(8)
  }

  /** Two little-endian bytes at offset 40. */
  function PayloadField(packet: seq<u8>): nat
    requires |packet| >= 42
  {
    packet[40] as int + 0x100 * packet[41] as int
  }

  /** The frame has an event number, no reserved bits and a payload that the datagram holds. */
  predicate Framed(packet: seq<u8>) {
    && Identified(packet) && packet[16..24] != Zeros(8) && packet[36..40] == Zeros(4)
    && PayloadField(packet) <= 1374 && PacketSize(PayloadField(packet)) <= |packet|
  }

  /** Every byte between the payload and the end of the frame is zero. */
  predicate Padded(packet: seq<u8>) {
    && Framed(packet)
    && forall i :: 42 + PayloadField(packet) <= i < PacketSize(PayloadField(packet)) ==> packet[i] == 0
  }

  lemma ZeroFields(packet: seq<u8>)
    ensures |packet| >= 8 ==> (packet[4..8] == Zeros(4) <==> ReadU32(packet, 4) == 0)
    ensures |packet| >= 16 ==> (packet[8..16] == Zeros(8) <==> ReadU64(packet, 8) == 0)
    ensures |packet| >= 24 ==> (packet[16..24] == Zeros(8) <==> ReadU64(packet, 16) == 0)
    ensures |packet| >= 40 ==> (packet[36..40] == Zeros(4) <==> ReadU32(packet, 36) == 0)
  {
    assert Le32(0) == Zeros(4) && Le64(0) == Zeros(8);
    if |packet| >= 8 { Field32(packet, 4, 0); }
    if |packet| >= 16 { Field64(packet, 8, 0); }
    if |packet| >= 24 { Field64(packet, 16, 0); }
    if |packet| >= 40 { Field32(packet, 36, 0); }
  }

  lemma LowNibble(b: u8)
    ensures And(b, 0x0f) == b % 0x10
  {
    KnownPowers();
    AndMask(b, 4);
  }

  /** What the header checks answer, for every datagram. */
  lemma HeaderErrors(packet: seq<u8>)
    ensures |packet| < 8 ==> CheckHeader(packet) == Some(Truncated)
    ensures |packet| > 1416 ==> CheckHeader(packet) == Some(PacketTooLarge)
    ensures Sized(packet) && packet[0] != 0x4c ==> CheckHeader(packet) == Some(BadMagic)
    ensures Sized(packet) && packet[0] == 0x4c && packet[1] / 0x10 != 1 ==>
      CheckHeader(packet) == Some(UnsupportedVersion)
    ensures Sized(packet) && packet[0] == 0x4c && packet[1] / 0x10 == 1 && packet[1] % 0x10 != 1 ==>
      CheckHeader(packet) == Some(UnsupportedType)
    ensures IsData(packet) && !LengthAgrees(packet) ==> CheckHeader(packet) == Some(PacketLengthMismatch)
    ensures LengthAgrees(packet) && packet[4..8] == Zeros(4) ==> CheckHeader(packet) == Some(ZeroSessionId)
    ensures LengthAgrees(packet) && packet[4..8] != Zeros(4) && |packet| < 44 ==> CheckHeader(packet) == Some(Truncated)
    ensures LengthAgrees(packet) && packet[4..8] != Zeros(4) && |packet| >= 44 && packet[8..16] == Zeros(8) ==>
      CheckHeader(packet) == Some(ZeroPacketSequence)
    ensures Identified(packet) ==> CheckHeader(packet) == None
  {
    ZeroFields(packet);
    if Sized(packet) {
      LowNibble(packet[1]);
      Field16(packet, 2, |packet|);
    }
  }

  /** What the frame checks answer, for every datagram with a good header. */
  lemma FrameErrors(packet: seq<u8>)
    requires Identified(packet)
    ensures packet[16..24] == Zeros(8) ==> CheckFrame(packet) == Some(ZeroEventSequence)
    ensures packet[16..24] != Zeros(8) && !Framed(packet) ==> CheckFrame(packet) == Some(MalformedFrame)
    ensures Framed(packet) && !Padded(packet) ==> CheckFrame(packet) == Some(NonZeroPadding)
    ensures Padded(packet) && |packet| != PacketSize(PayloadField(packet)) ==>
      CheckFrame(packet) == Some(UnsupportedBatch)
    ensures Padded(packet) && |packet| == PacketSize(PayloadField(packet)) ==> CheckFrame(packet) == None
  {
    ZeroFields(packet);
  }

  /** Which datagrams get which error, on the bytes themselves; the cases leave nothing out. */
  lemma DecodeErrors(packet: seq<u8>)
    ensures Decode(packet) == Err(Truncated) <==>
      |packet| < 8 || (LengthAgrees(packet) && packet[4..8] != Zeros(4) && |packet| < 44)
    ensures Decode(packet) == Err(PacketTooLarge) <==> |packet| > 1416
    ensures Decode(packet) == Err(BadMagic) <==> Sized(packet) && packet[0] != 0x4c
    ensures Decode(packet) == Err(UnsupportedVersion) <==> Sized(packet) && packet[0] == 0x4c && packet[1] / 0x10 != 1
    ensures Decode(packet) == Err(UnsupportedType) <==>
      Sized(packet) && packet[0] == 0x4c && packet[1] / 0x10 == 1 && packet[1] % 0x10 != 1
    ensures Decode(packet) == Err(PacketLengthMismatch) <==> IsData(packet) && !LengthAgrees(packet)
    ensures Decode(packet) == Err(ZeroSessionId) <==> LengthAgrees(packet) && packet[4..8] == Zeros(4)
    ensures Decode(packet) == Err(ZeroPacketSequence) <==>
      LengthAgrees(packet) && packet[4..8] != Zeros(4) && |packet| >= 44 && packet[8..16] == Zeros(8)
    ensures Decode(packet) == Err(ZeroEventSequence) <==> Identified(packet) && packet[16..24] == Zeros(8)
    ensures Decode(packet) == Err(MalformedFrame) <==>
      Identified(packet) && packet[16..24] != Zeros(8) && !Framed(packet)
    ensures Decode(packet) == Err(NonZeroPadding) <==> Framed(packet) && !Padded(packet)
    ensures Decode(packet) == Err(UnsupportedBatch) <==>
      Padded(packet) && |packet| != PacketSize(PayloadField(packet))
    ensures Decode(packet).Ok? <==> Padded(packet) && |packet| == PacketSize(PayloadField(packet))
  {
    HeaderErrors(packet);
    if Identified(packet) { FrameErrors(packet); }
  }
}
