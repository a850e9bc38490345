/** The receiver loop: take a datagram, decode it, check its sequence, publish its event to egress.

    A run is driven by a script, one turn per loop iteration that finds the stop flag clear: what
    the egress consumer does at each point, and what the socket delivers. */
module Receiving {
  import opened Bits
  import opened Events
  import opened Codec
  import opened Queues
  import opened Statistics
  import opened GapDetection

  /** What the process on the other side of the egress ring may do. */
  datatype Drain = TakeView | GiveBack

  datatype Arrival = Quiet | Interrupted | SocketError | Datagram(bytes: seq<u8>)

  /** `late` happens between decoding the datagram and publishing its event. */
  datatype Turn = Turn(before: seq<Drain>, arrival: Arrival, late: seq<Drain>)

  /** `carried[i]` is the sequence number of the packet that brought egress event i; `heard` and
      `checked` record the datagrams received and the identities shown to the gap detector. */
  datatype ReceiverState = ReceiverState(
    queue: Queue, detector: Detector, stopRequested: bool, stats: Stats,
    carried: seq<u64>, heard: seq<seq<u8>>, checked: seq<PacketId>)

  function DrainOne(q: Queue, drain: Drain): Queue
    requires q.Valid()
  {
    if drain.TakeView? then q.Acquire() else q.Release()
  }

  function DrainAll(q: Queue, drains: seq<Drain>): (r: Queue)
    requires q.Valid()
    ensures r.Valid() && r.published == q.published && r.closed == q.closed
    ensures r.slotCount == q.slotCount && r.capacity == q.capacity
    decreases |drains|
  {
    if drains == [] then q else DrainAll(DrainOne(q, drains[0]), drains[1..])
  }

  /** The datagrams a script delivers, in order. */
  function Datagrams(script: seq<Turn>): seq<seq<u8>> {
    if script == [] then []
    else (if script[0].arrival.Datagram? then [script[0].arrival.bytes] else []) + Datagrams(script[1..])
  }

  datatype Iteration = Iteration(state: ReceiverState, again: bool)

  /** What egress answered, counted. */
  function AnsweredStats(s: Stats, result: PublishResult): Stats {
    if result.Published? then s.(eventsOut := s.eventsOut + 1)
    else if result.Full? then s.(eventsDropped := s.eventsDropped + 1, egressFull := s.egressFull + 1)
    else s.(eventsDropped := s.eventsDropped + 1, egressErrors := s.egressErrors + 1)
  }

  /** The counters after an accepted event met this answer from egress. */
  function PublishedStats(stats: Stats, result: PublishResult): Stats {
    AnsweredStats(stats.(eventsIn := stats.eventsIn + 1), result)
  }

  /** The counters after the detector's verdict. */
  function AdmittedStats(stats: Stats, report: CheckResult): Stats {
    match report.status
    case DuplicateOrOld => stats.(duplicateOrOld := stats.duplicateOrOld + 1, eventsDropped := stats.eventsDropped + 1)
    case WrongSession => stats.(wrongSession := stats.wrongSession + 1, eventsDropped := stats.eventsDropped + 1)
    case Accepted =>
      if report.gap == 0 then stats
      else stats.(gapsDetected := stats.gapsDetected + 1, packetsMissed := stats.packetsMissed + report.gap)
  }

  /** The rest of an iteration whose packet was accepted. */
  function Deliver(s: ReceiverState, d: Decoded, late: seq<Drain>): Iteration
    requires s.queue.Valid()
  {
    var q := DrainAll(s.queue, late);
    var result := q.PublishCode(d.event);
    Iteration(s.(queue := q.Publish(d.event), stats := PublishedStats(s.stats, result),
                 carried := if result.Published? then s.carried + [d.packetSequence] else s.carried),
              !result.PublicationClosed?)
  }

  /** The state once a packet's identity has been shown to the detector. */
  function Checked(s: ReceiverState, d: Decoded): ReceiverState {
    s.(detector := s.detector.After(d.sessionId, d.packetSequence),
       stats := AdmittedStats(s.stats, s.detector.Report(d.sessionId, d.packetSequence)),
       checked := s.checked + [PacketId(d.sessionId, d.packetSequence)])
  }

  /** The rest of an iteration whose datagram decoded. */
  function CheckAndDeliver(s: ReceiverState, d: Decoded, late: seq<Drain>): Iteration
    requires s.queue.Valid()
  {
    if s.detector.Status(d.sessionId, d.packetSequence).Accepted? then Deliver(Checked(s, d), d, late)
    else Iteration(Checked(s, d), true)
  }

  /** What the receiver makes of a datagram; one that does not fit the buffer is malformed. */
  function Reading(bytes: seq<u8>): Option<Decoded> {
    if |bytes| > MAX_PACKET_BYTES || Decode(bytes).Err? then None else Some(Decode(bytes).value)
  }

  /** The state once a datagram has been counted. */
  function Noted(s: ReceiverState, bytes: seq<u8>): ReceiverState {
    s.(stats := CountReceived(s.stats), heard := s.heard + [bytes])
  }

  function CountReceived(stats: Stats): Stats {
    stats.(packetsReceived := stats.packetsReceived + 1)
  }

  function CountMalformed(stats: Stats): Stats {
    stats.(malformedPackets := stats.malformedPackets + 1)
  }

  /** The rest of an iteration that received a datagram, which reads as `reading`. */
  function OnDatagram(s: ReceiverState, bytes: seq<u8>, reading: Option<Decoded>, late: seq<Drain>): Iteration
    requires s.queue.Valid()
  {
    var t := Noted(s, bytes);
    if reading.None? then Iteration(t.(stats := CountMalformed(t.stats)), true)
    else CheckAndDeliver(t, reading.value, late)
  }

  /** The rest of an iteration, by what the socket delivered. */
  function OnArrival(s: ReceiverState, arrival: Arrival, reading: Option<Decoded>, late: seq<Drain>): Iteration
    requires s.queue.Valid()
  {
    match arrival
    case Quiet => Iteration(s, true)
    case Interrupted => Iteration(s, true)
    case SocketError => Iteration(s.(stats := s.stats.(receiveErrors := s.stats.receiveErrors + 1)), false)
    case Datagram(bytes) => OnDatagram(s, bytes, reading, late)
  }

  /** One iteration whose datagram, if any, reads as `reading`. */
  function IterateReading(s: ReceiverState, turn: Turn, reading: Option<Decoded>): Iteration
    requires s.queue.Valid()
  {
    OnArrival(s.(queue := DrainAll(s.queue, turn.before)), turn.arrival, reading, turn.late)
  }

  /** One iteration that found the stop flag clear. */
  function Iterate(s: ReceiverState, turn: Turn): Iteration
    requires s.queue.Valid()
  {
    IterateReading(s, turn, if turn.arrival.Datagram? then Reading(turn.arrival.bytes) else None)
  }

  lemma DeliverKeepsQueue(s: ReceiverState, d: Decoded, late: seq<Drain>)
    requires s.queue.Valid()
    ensures Deliver(s, d, late).state.queue.Valid()
  {
  }

  lemma CheckKeepsQueue(s: ReceiverState, d: Decoded, late: seq<Drain>)
    requires s.queue.Valid()
    ensures CheckAndDeliver(s, d, late).state.queue.Valid()
  {
    DeliverKeepsQueue(Checked(s, d), d, late);
  }

  lemma ReadingKeepsQueue(s: ReceiverState, turn: Turn, reading: Option<Decoded>)
    requires s.queue.Valid()
    ensures IterateReading(s, turn, reading).state.queue.Valid()
  {
    if turn.arrival.Datagram? && reading.Some? {
      CheckKeepsQueue(Noted(s.(queue := DrainAll(s.queue, turn.before)), turn.arrival.bytes), reading.value, turn.late);
    }
  }

  lemma IterateKeepsQueue(s: ReceiverState, turn: Turn)
    requires s.queue.Valid()
    ensures Iterate(s, turn).state.queue.Valid()
  {
    ReadingKeepsQueue(s, turn, if turn.arrival.Datagram? then Reading(turn.arrival.bytes) else None);
  }

  /** A whole call to run; publication is closed on every way out. */
  function RunAll(s: ReceiverState, script: seq<Turn>): ReceiverState
    requires s.queue.Valid()
    decreases |script|
  {
    if s.stopRequested then s.(queue := s.queue.Close())
    else if script == [] then s.(stopRequested := true, queue := s.queue.Close())
    else
      IterateKeepsQueue(s, script[0]);
      var it := Iterate(s, script[0]);
      if it.again then RunAll(it.state, script[1..]) else it.state.(queue := it.state.queue.Close())
  }
}
