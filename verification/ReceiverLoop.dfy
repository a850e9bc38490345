/** The receiver as an object over a mapped ring, with the consumer of its egress acting between its
    steps, proved to compute what the functions of Receiving say. */
module ReceiverLoop {
  import opened Bits
  import opened Events
  import opened Codec
  import opened Ring
  import opened RingRuns
  import opened Statistics
  import opened GapDetection
  import opened Receiving

  /** One action of the process on the consuming side. */
  method DrainRingOnce(producer: SpscRing, consumer: SpscRing, drain: Drain)
    requires Linked(producer, consumer)
    modifies consumer`cachedWritePosition, consumer`acquiredPosition, consumer`acquired, producer.Memory()`readPosition
    ensures Linked(producer, consumer) && consumer.Queue() == DrainOne(old(consumer.Queue()), drain)
  {
    match drain
    case TakeView => var view := consumer.TryAcquire();
    case GiveBack => var released := ReleaseHeld(producer, consumer);
  }

  /** Everything the consuming side does before the producer's next step. */
  method DrainRing(producer: SpscRing, consumer: SpscRing, drains: seq<Drain>)
    requires Linked(producer, consumer)
    modifies consumer`cachedWritePosition, consumer`acquiredPosition, consumer`acquired, producer.Memory()`readPosition
    ensures Linked(producer, consumer) && consumer.Queue() == DrainAll(old(consumer.Queue()), drains)
  {
    ghost var start := consumer.Queue();
    for i := 0 to |drains|
      invariant Linked(producer, consumer)
      invariant DrainAll(start, drains) == DrainAll(consumer.Queue(), drains[i..])
    {
      assert drains[i..][0] == drains[i] && drains[i..][1..] == drains[i + 1..];
      DrainRingOnce(producer, consumer, drains[i]);
    }
    assert drains[|drains|..] == [];
  }

  /** What the socket layer reports. */
  datatype Received = Filled(size: nat) | Timeout | Retry | TooLarge | Failed

  /** Copy what arrived into the caller's buffer, as much of it as fits. */
  method Receive(packet: array<u8>, arrival: Arrival) returns (r: Received)
    modifies packet
    ensures Delivers(packet, arrival, r)
  {
    match arrival
    case Quiet => return Timeout;
    case Interrupted => return Retry;
    case SocketError => return Failed;
    case Datagram(bytes) =>
      var size := if |bytes| > packet.Length then packet.Length else |bytes|;
      for i := 0 to size
        invariant packet[..i] == bytes[..i]
      {
        packet[i] := bytes[i];
      }
      return if |bytes| > packet.Length then TooLarge else Filled(|bytes|);
  }

  class Receiver {
    const egress: SpscRing
    const detector: GapDetector
    var stopRequested: bool
    var stats: Stats

    ghost var exact: Stats
    ghost var carried: seq<u64>
    ghost var heard: seq<seq<u8>>
    ghost var checked: seq<PacketId>

    /** The 64-bit counters agree with the exact counts. */
    ghost predicate CountersOk()
      reads this
    {
      stats == Wrap(exact)
    }

    /** The receiver publishes; `consumer` is the handle on the other side of its egress. */
    ghost function State(consumer: SpscRing): ReceiverState
      requires consumer.header != null
      reads this, detector, consumer, consumer.header
    {
      ReceiverState(consumer.Queue(), detector.State(), stopRequested, exact, carried, heard, checked)
    }

    constructor (egress: SpscRing)
      ensures CountersOk() && this.egress == egress && fresh(detector) && detector.State() == Detector(0, 0)
      ensures !stopRequested && exact == NO_STATS && carried == [] && heard == [] && checked == []
    {
      this.egress := egress;
      detector := new GapDetector();
      stopRequested, stats, exact, carried, heard, checked := false, NO_STATS, NO_STATS, [], [], [];
      new;
      WrapNothing();
    }

    /** Take over another receiver with its detector's memory; the source is told to stop. */
    constructor Moved(other: Receiver)
      requires other.CountersOk()
      modifies other, other.egress
      ensures CountersOk() && fresh(detector) && fresh(egress) && detector.State() == old(other.detector.State())
      ensures egress.header == old(other.egress.header) && egress.initializer == old(other.egress.initializer)
      ensures stopRequested == old(other.stopRequested) && exact == old(other.exact)
      ensures carried == old(other.carried) && heard == old(other.heard) && checked == old(other.checked)
      ensures old(other.egress.header != null && other.egress.ProducerOk()) ==> egress.ProducerOk()
      ensures other.stopRequested && other.egress.header == null && !other.egress.initializer
    {
      stopRequested, stats, exact := other.stopRequested, other.stats, other.exact;
      carried, heard, checked := other.carried, other.heard, other.checked;
      egress := new SpscRing.Moved(other.egress);
      detector := new GapDetector();
      new;
      detector.activeSession, detector.lastSequence := other.detector.activeSession, other.detector.lastSequence;
      other.RequestStop();
    }

    method RequestStop()
      modifies `stopRequested
      ensures stopRequested
    {
      stopRequested := true;
    }

    /** One more datagram was read, whatever it is. */
    method NoteReceived(ghost bytes: seq<u8>)
      requires CountersOk()
      modifies `stats, `exact, `heard
      ensures CountersOk() && heard == old(heard) + [bytes]
      ensures exact == CountReceived(old(exact))
    {
      stats := stats.(packetsReceived := Bump(stats.packetsReceived, 1));
      exact := CountReceived(exact);
      heard := heard + [bytes];
    }

    method NoteMalformed()
      requires CountersOk()
      modifies `stats, `exact
      ensures CountersOk() && exact == CountMalformed(old(exact))
    {
      stats := stats.(malformedPackets := Bump(stats.malformedPackets, 1));
      exact := CountMalformed(exact);
    }

    /** Count the detector's verdict. */
    method NoteVerdict(report: CheckResult)
      requires CountersOk()
      modifies `stats, `exact
      ensures CountersOk() && exact == AdmittedStats(old(exact), report)
    {
      exact := AdmittedStats(exact, report);
      if report.status.Accepted? {
        if report.gap > 0 {
          stats := stats.(gapsDetected := Bump(stats.gapsDetected, 1),
                          packetsMissed := Bump(stats.packetsMissed, report.gap));
        }
        return;
      }
      if report.status.DuplicateOrOld? {
        stats := stats.(duplicateOrOld := Bump(stats.duplicateOrOld, 1));
      } else {
        stats := stats.(wrongSession := Bump(stats.wrongSession, 1));
      }
      stats := stats.(eventsDropped := Bump(stats.eventsDropped, 1));
    }

    /** Count what egress answered. */
    method NoteAnswer(result: PublishResult)
      requires CountersOk()
      modifies `stats, `exact
      ensures CountersOk() && exact == AnsweredStats(old(exact), result)
    {
      exact := AnsweredStats(exact, result);
      if result.Published? {
        stats := stats.(eventsOut := Bump(stats.eventsOut, 1));
      } else if result.Full? {
        stats := stats.(eventsDropped := Bump(stats.eventsDropped, 1), egressFull := Bump(stats.egressFull, 1));
      } else {
        stats := stats.(eventsDropped := Bump(stats.eventsDropped, 1), egressErrors := Bump(stats.egressErrors, 1));
      }
    }

    /** Count an accepted event and what egress made of it. */
    method NotePublished(result: PublishResult, ghost sequence: u64)
      requires CountersOk()
      modifies `stats, `exact, `carried
      ensures CountersOk() && exact == PublishedStats(old(exact), result)
      ensures carried == if result.Published? then old(carried) + [sequence] else old(carried)
    {
      stats := stats.(eventsIn := Bump(stats.eventsIn, 1));
      exact := exact.(eventsIn := exact.eventsIn + 1);
      NoteAnswer(result);
      if result.Published? { carried := carried + [sequence]; }
    }

    /** The consumer acts, then the event goes from the packet buffer into its egress slot. */
    method PublishEvent(consumer: SpscRing, event: EventView, late: seq<Drain>) returns (result: PublishResult)
      requires Linked(egress, consumer) && event.payload.InBounds() && event.payload.data != egress.header.slots
      modifies egress`cachedReadPosition, egress.Memory()`writePosition, egress.Memory()`published, egress.SlotMemory()
      modifies consumer`cachedWritePosition, consumer`acquiredPosition, consumer`acquired, egress.Memory()`readPosition
      ensures Linked(egress, consumer)
      ensures var q := DrainAll(old(consumer.Queue()), late);
        result == q.PublishCode(old(event.Value())) && consumer.Queue() == q.Publish(old(event.Value()))
    {
      DrainRing(egress, consumer, late);
      result := PublishView(egress, consumer, event);
    }

    method DeliverEvent(consumer: SpscRing, view: DecodedView, late: seq<Drain>) returns (again: bool)
      requires CountersOk() && Linked(egress, consumer)
      requires view.event.payload.InBounds() && view.event.payload.data != egress.header.slots
      modifies `stats, `exact, `carried
      modifies egress`cachedReadPosition, egress.Memory()`writePosition, egress.Memory()`published, egress.SlotMemory()
      modifies consumer`cachedWritePosition, consumer`acquiredPosition, consumer`acquired, egress.Memory()`readPosition
      ensures CountersOk() && Linked(egress, consumer)
      ensures var d := Decoded(view.sessionId, view.packetSequence, old(view.event.Value()));
        Receiving.Iteration(State(consumer), again) == Deliver(old(State(consumer)), d, late)
    {
      var result := PublishEvent(consumer, view.event, late);
      NotePublished(result, view.packetSequence);
      again := !result.PublicationClosed?;
    }

    /** Show a decoded packet's identity to the detector and count the verdict. */
    method Admit(sessionId: u32, sequence: u64) returns (accepted: bool)
      requires CountersOk()
      modifies detector, `stats, `exact, `checked
      ensures CountersOk() && accepted == old(detector.State()).Status(sessionId, sequence).Accepted?
      ensures detector.State() == old(detector.State()).After(sessionId, sequence)
      ensures checked == old(checked) + [PacketId(sessionId, sequence)]
      ensures exact == AdmittedStats(old(exact), old(detector.State()).Report(sessionId, sequence))
    {
      var report := detector.Check(sessionId, sequence);
      checked := checked + [PacketId(sessionId, sequence)];
      accepted := report.status.Accepted?;
      NoteVerdict(report);
    }

    /** Deliver a decoded packet's event if the detector lets it through. */
    method HandlePacket(consumer: SpscRing, view: DecodedView, late: seq<Drain>) returns (again: bool)
      requires CountersOk() && Linked(egress, consumer)
      requires view.event.payload.InBounds() && view.event.payload.data != egress.header.slots
      modifies detector, `stats, `exact, `carried, `checked
      modifies egress`cachedReadPosition, egress.Memory()`writePosition, egress.Memory()`published, egress.SlotMemory()
      modifies consumer`cachedWritePosition, consumer`acquiredPosition, consumer`acquired, egress.Memory()`readPosition
      ensures CountersOk() && Linked(egress, consumer)
      ensures var d := Decoded(view.sessionId, view.packetSequence, old(view.event.Value()));
        Receiving.Iteration(State(consumer), again) == CheckAndDeliver(old(State(consumer)), d, late)
    {
      var accepted := Admit(view.sessionId, view.packetSequence);
      if !accepted { return true; }
      again := DeliverEvent(consumer, view, late);
    }

    /** Read the buffer as a packet; the payload stays where it is. */
    method DecodeBuffer(packet: array<u8>, size: nat)
      returns (view: Option<DecodedView>, ghost reading: Option<Decoded>)
      requires size <= packet.Length == MAX_PACKET_BYTES
      ensures reading == Reading(packet[..size]) && ViewsReading(packet, view, reading)
    {
      var datagram := Span(packet, 0, size);
      assert datagram.Bytes() == packet[..size];
      var decoded := DecodeData(datagram);
      reading := Reading(packet[..size]);
      view := if decoded.Err? then None else Some(decoded.value);
    }

    /** A datagram that is no packet is counted and forgotten. */
    method RejectDatagram(ghost bytes: seq<u8>)
      requires CountersOk()
      modifies `stats, `exact, `heard
      ensures CountersOk() && heard == old(heard) + [bytes] && exact == CountMalformed(CountReceived(old(exact)))
    {
      NoteReceived(bytes);
      NoteMalformed();
    }

    /** Count a datagram that decoded and handle its packet. */
    method AcceptDatagram(consumer: SpscRing, view: DecodedView, late: seq<Drain>, ghost bytes: seq<u8>)
      returns (again: bool)
      requires CountersOk() && Linked(egress, consumer)
      requires view.event.payload.InBounds() && view.event.payload.data != egress.header.slots
      modifies detector, `stats, `exact, `carried, `checked, `heard
      modifies egress`cachedReadPosition, egress.Memory()`writePosition, egress.Memory()`published, egress.SlotMemory()
      modifies consumer`cachedWritePosition, consumer`acquiredPosition, consumer`acquired, egress.Memory()`readPosition
      ensures CountersOk() && Linked(egress, consumer)
      ensures var d := Decoded(view.sessionId, view.packetSequence, old(view.event.Value()));
        Receiving.Iteration(State(consumer), again) == OnDatagram(old(State(consumer)), bytes, Some(d), late)
    {
      ghost var d := Decoded(view.sessionId, view.packetSequence, view.event.Value());
      NoteReceived(bytes);
      assert State(consumer) == Noted(old(State(consumer)), bytes);
      again := HandlePacket(consumer, view, late);
    }

    /** Decode what the buffer holds and act on it. */
    method HandleDatagram(consumer: SpscRing, packet: array<u8>, size: nat, late: seq<Drain>)
      returns (again: bool, ghost reading: Option<Decoded>)
      requires CountersOk() && Linked(egress, consumer)
      requires size <= packet.Length == MAX_PACKET_BYTES && packet != egress.header.slots
      modifies detector, `stats, `exact, `carried, `checked, `heard
      modifies egress`cachedReadPosition, egress.Memory()`writePosition, egress.Memory()`published, egress.SlotMemory()
      modifies consumer`cachedWritePosition, consumer`acquiredPosition, consumer`acquired, egress.Memory()`readPosition
      ensures CountersOk() && Linked(egress, consumer) && reading == Reading(old(packet[..size]))
      ensures Receiving.Iteration(State(consumer), again) ==
        OnDatagram(old(State(consumer)), old(packet[..size]), reading, late)
    {
      ghost var bytes := packet[..size];
      var view;
      view, reading := DecodeBuffer(packet, size);
      if view.None? {
        RejectDatagram(bytes);
        return true, reading;
      }
      again := AcceptDatagram(consumer, view.value, late, bytes);
    }

    /** Nothing to decode: keep waiting, count an oversized datagram, or give up on a broken socket. */
    method HandleNothing(consumer: SpscRing, received: Received, ghost late: seq<Drain>, ghost arrival: Arrival)
      returns (again: bool)
      requires CountersOk() && consumer.header != null && consumer.Queue().Valid() && !received.Filled?
      requires match received
        case Timeout => arrival == Quiet
        case Retry => arrival == Interrupted
        case TooLarge => arrival.Datagram? && |arrival.bytes| > MAX_PACKET_BYTES
        case Failed => arrival == SocketError
      modifies `stats, `exact, `heard
      ensures CountersOk()
      ensures Receiving.Iteration(State(consumer), again) == OnArrival(old(State(consumer)), arrival, None, late)
    {
      match received
      case Timeout => return true;
      case Retry => return true;
      case TooLarge =>
        RejectDatagram(arrival.bytes);
        return true;
      case Failed =>
        stats := stats.(receiveErrors := Bump(stats.receiveErrors, 1));
        exact := exact.(receiveErrors := exact.receiveErrors + 1);
        return false;
    }

    /** Act on what the socket layer reported. */
    method HandleArrival(consumer: SpscRing, packet: array<u8>, received: Received, late: seq<Drain>,
                         ghost arrival: Arrival)
      returns (again: bool, ghost reading: Option<Decoded>)
      requires CountersOk() && Linked(egress, consumer)
      requires packet.Length == MAX_PACKET_BYTES && packet != egress.header.slots && Delivers(packet, arrival, received)
      modifies detector, `stats, `exact, `carried, `checked, `heard
      modifies egress`cachedReadPosition, egress.Memory()`writePosition, egress.Memory()`published, egress.SlotMemory()
      modifies consumer`cachedWritePosition, consumer`acquiredPosition, consumer`acquired, egress.Memory()`readPosition
      ensures CountersOk() && Linked(egress, consumer)
      ensures reading == if arrival.Datagram? then Reading(arrival.bytes) else None
      ensures Receiving.Iteration(State(consumer), again) == OnArrival(old(State(consumer)), arrival, reading, late)
    {
      if received.Filled? {
        again, reading := HandleDatagram(consumer, packet, received.size, late);
      } else {
        again := HandleNothing(consumer, received, late, arrival);
        reading := None;
      }
    }

    /** One iteration of the loop. */
    method Step(consumer: SpscRing, packet: array<u8>, turn: Turn) returns (again: bool)
      requires CountersOk() && Linked(egress, consumer)
      requires packet.Length == MAX_PACKET_BYTES && packet != egress.header.slots
      modifies packet, detector, `stats, `exact, `carried, `checked, `heard
      modifies egress`cachedReadPosition, egress.Memory()`writePosition, egress.Memory()`published, egress.SlotMemory()
      modifies consumer`cachedWritePosition, consumer`acquiredPosition, consumer`acquired, egress.Memory()`readPosition
      ensures CountersOk() && Linked(egress, consumer)
      ensures Receiving.Iteration(State(consumer), again) == Iterate(old(State(consumer)), turn)
    {
      DrainRing(egress, consumer, turn.before);
      var received := Receive(packet, turn.arrival);
      ghost var reading;
      again, reading := HandleArrival(consumer, packet, received, turn.late, turn.arrival);
    }

    /** The next turn of the script; after the last one somebody else sets the stop flag. */
    method NextTurn(consumer: SpscRing, packet: array<u8>, script: seq<Turn>, i: nat) returns (again: bool)
      requires CountersOk() && Linked(egress, consumer) && !stopRequested && i <= |script|
      requires packet.Length == MAX_PACKET_BYTES && packet != egress.header.slots
      modifies packet, detector, `stopRequested, `stats, `exact, `carried, `checked, `heard
      modifies egress`cachedReadPosition, egress.Memory()`writePosition, egress.Memory()`published, egress.SlotMemory()
      modifies consumer`cachedWritePosition, consumer`acquiredPosition, consumer`acquired, egress.Memory()`readPosition
      ensures CountersOk() && Linked(egress, consumer)
      ensures i == |script| ==> stopRequested
      ensures RunAll(old(State(consumer)), script[i..]) ==
        if again then RunAll(State(consumer), script[if i < |script| then i + 1 else i..])
        else Closing(State(consumer))
    {
      if i == |script| {
        RequestStop();
        again := true;
      } else {
        RunFrom(State(consumer), script, i);
        again := Step(consumer, packet, script[i]);
      }
    }

    /** Take turns until told to stop or until something is broken. */
    method Loop(consumer: SpscRing, packet: array<u8>, script: seq<Turn>)
      requires CountersOk() && Linked(egress, consumer)
      requires packet.Length == MAX_PACKET_BYTES && packet != egress.header.slots
      modifies packet, detector, `stopRequested, `stats, `exact, `carried, `checked, `heard
      modifies egress`cachedReadPosition, egress.Memory()`writePosition, egress.Memory()`published, egress.SlotMemory()
      modifies consumer`cachedWritePosition, consumer`acquiredPosition, consumer`acquired, egress.Memory()`readPosition
      ensures CountersOk() && Linked(egress, consumer)
      ensures Closing(State(consumer)) == RunAll(old(State(consumer)), script)
    {
      var again, i := true, 0;
      ghost var start := State(consumer);
      while again && !stopRequested
        invariant i <= |script| && CountersOk() && Linked(egress, consumer)
        invariant RunAll(start, script) ==
          if again then RunAll(State(consumer), script[i..]) else Closing(State(consumer))
        decreases |script| - i, !stopRequested
      {
        again := NextTurn(consumer, packet, script, i);
        i := if i < |script| then i + 1 else i;
      }
    }

    /** Run, and close publication on every way out. */
    method Run(consumer: SpscRing, script: seq<Turn>)
      requires CountersOk() && Linked(egress, consumer)
      modifies detector, `stopRequested, `stats, `exact, `carried, `checked, `heard
      modifies egress`cachedReadPosition, egress.Memory()`writePosition, egress.Memory()`published, egress.SlotMemory()
      modifies consumer`cachedWritePosition, consumer`acquiredPosition, consumer`acquired, egress.Memory()`readPosition
      modifies egress.Memory()`state
      ensures CountersOk() && Linked(egress, consumer)
      ensures State(consumer) == RunAll(old(State(consumer)), script)
    {
      var packet := new u8[MAX_PACKET_BYTES];
      Loop(consumer, packet, script);
      CloseJoined(egress, egress, consumer);
    }
  }

  function Closing(s: ReceiverState): ReceiverState {
    s.(queue := s.queue.Close())
  }

  /** The view names the packet that the bytes read as, if any, inside the buffer. */
  ghost predicate ViewsReading(packet: array<u8>, view: Option<DecodedView>, reading: Option<Decoded>)
    reads packet
  {
    if view.None? then reading.None?
    else
      && view.value.event.payload.InBounds() && view.value.event.payload.data == packet
      && reading == Some(Decoded(view.value.sessionId, view.value.packetSequence, view.value.event.Value()))
  }

  /** The socket layer's report on what arrived; a datagram that fits is in the buffer. */
  predicate Delivers(packet: array<u8>, arrival: Arrival, received: Received)
    reads packet
  {
    match arrival
    case Quiet => received == Timeout
    case Interrupted => received == Retry
    case SocketError => received == Failed
    case Datagram(bytes) =>
      if |bytes| > packet.Length then received == TooLarge
      else received == Filled(|bytes|) && packet[..|bytes|] == bytes
  }

  lemma RunFrom(s: ReceiverState, script: seq<Turn>, i: nat)
    requires s.queue.Valid() && !s.stopRequested && i < |script|
    ensures var it := Iterate(s, script[i]);
      && it.state.queue.Valid()
      && RunAll(s, script[i..]) ==
           if it.again then RunAll(it.state, script[i + 1..]) else it.state.(queue := it.state.queue.Close())
  {
    IterateKeepsQueue(s, script[i]);
    assert script[i..][0] == script[i] && script[i..][1..] == script[i + 1..];
  }
}
