/** The sender loop: acquire from ingress, encode, release, offer the packet to every destination.

    A run is driven by a script, one turn per loop iteration that finds the stop flag clear: what
    the producer does at each point of the iteration, and whether each send succeeds. The end of
    the script is the iteration that finds the stop flag set. */
module Sending {
  import opened Bits
  import opened Events
  import opened Codec
  import opened Queues
  import opened Statistics

  /** What the process on the other side of the ingress ring may do. */
  datatype Feed = FeedEvent(event: Event) | FeedClose

  datatype SendTurn = SendTurn(feeds: seq<Feed>, ok: bool)

  /** `sends[d].feeds` happens after the slot has been released and before send d. */
  datatype Turn = Turn(before: seq<Feed>, held: seq<Feed>, sends: seq<SendTurn>)

  /** One call to send_to. */
  datatype Offer = Offer(destination: nat, bytes: seq<u8>, ok: bool)

  datatype SenderConfig = SenderConfig(limit: nat, destinations: nat) {
    predicate Valid() {
      MIN_PACKET_BYTES <= limit <= MAX_PACKET_BYTES
    }
  }

  /** `wire[k]` is the fan-out of packet k + 1; `numbered[k]` is the ingress position of its event. */
  datatype SenderState = SenderState(
    queue: Queue, sessionId: u32, packetSequence: u64, stopRequested: bool, stats: Stats,
    wire: seq<seq<Offer>>, numbered: seq<nat>)

  function FeedOne(q: Queue, feed: Feed): Queue {
    match feed
    case FeedEvent(event) => q.Publish(event)
    case FeedClose => q.Close()
  }

  function FeedAll(q: Queue, feeds: seq<Feed>): (r: Queue)
    ensures q.Valid() ==> r.Valid()
    ensures q.published <= r.published && r.released == q.released && r.held == q.held
    ensures r.slotCount == q.slotCount && r.capacity == q.capacity
    ensures q.closed ==> r == q
    decreases |feeds|
  {
    if feeds == [] then q else FeedAll(FeedOne(q, feeds[0]), feeds[1..])
  }

  function SendAt(turn: Turn, d: nat): SendTurn {
    if d < |turn.sends| then turn.sends[d] else SendTurn([], false)
  }

  /** The queue after the producer's actions during sends d, d + 1, ... */
  function QueueAfterSends(q: Queue, turn: Turn, d: nat, destinations: nat): (r: Queue)
    ensures q.Valid() ==> r.Valid()
    ensures q.published <= r.published && r.released == q.released && r.held == q.held
    ensures r.slotCount == q.slotCount && r.capacity == q.capacity
    ensures q.closed ==> r == q
    decreases destinations - d
  {
    if d >= destinations then q else QueueAfterSends(FeedAll(q, SendAt(turn, d).feeds), turn, d + 1, destinations)
  }

  /** The offers made by sends d, d + 1, ... */
  function Offers(bytes: seq<u8>, turn: Turn, d: nat, destinations: nat): (r: seq<Offer>)
    ensures d <= destinations ==> |r| == destinations - d
    ensures forall i :: 0 <= i < |r| ==>
      r[i].bytes == bytes && r[i].destination == d + i && r[i].ok == SendAt(turn, d + i).ok
    decreases destinations - d
  {
    if d >= destinations then []
    else [Offer(d, bytes, SendAt(turn, d).ok)] + Offers(bytes, turn, d + 1, destinations)
  }

  function Successes(offers: seq<Offer>): (n: nat)
    ensures n <= |offers|
  {
    if offers == [] then 0 else (if offers[0].ok then 1 else 0) + Successes(offers[1..])
  }

  /** The counters after one fan-out. */
  function CountFanOut(stats: Stats, offers: seq<Offer>): Stats {
    var n := Successes(offers);
    stats.(packetsSent := stats.packetsSent + n, sendErrors := stats.sendErrors + |offers| - n,
           eventsOut := stats.eventsOut + (if n > 0 then 1 else 0),
           eventsDropped := stats.eventsDropped + (if n > 0 then 0 else 1))
  }

  /** The state once the event has been counted and its slot released. */
  function Consumed(s: SenderState, turn: Turn): SenderState {
    s.(queue := FeedAll(s.queue, turn.held).Release(), stats := s.stats.(eventsIn := s.stats.eventsIn + 1))
  }

  /** The state once one packet has gone to every destination. */
  function Transmitted(cfg: SenderConfig, s: SenderState, bytes: seq<u8>, turn: Turn, position: nat): SenderState {
    var offers := Offers(bytes, turn, 0, cfg.destinations);
    var last := s.packetSequence == U64_MAX;
    s.(queue := QueueAfterSends(s.queue, turn, 0, cfg.destinations), stats := CountFanOut(s.stats, offers),
       wire := s.wire + [offers], numbered := s.numbered + [position],
       packetSequence := if last then U64_MAX else s.packetSequence + 1, stopRequested := s.stopRequested || last)
  }

  /** The counters once an event has been given up. */
  function CountDropped(stats: Stats): Stats {
    stats.(encodeErrors := stats.encodeErrors + 1, eventsDropped := stats.eventsDropped + 1)
  }

  /** The rest of an iteration that acquired an event. */
  function Handle(cfg: SenderConfig, s: SenderState, event: Event, turn: Turn): SenderState {
    var t := Consumed(s, turn);
    if EncodeCheck(event, s.sessionId, s.packetSequence, cfg.limit).Some? then t.(stats := CountDropped(t.stats))
    else Transmitted(cfg, t, Packet(event, s.sessionId, s.packetSequence), turn, s.queue.released)
  }

  datatype Iteration = Iteration(state: SenderState, again: bool)

  /** The end of an iteration that got no event. */
  function Refused(s: SenderState, error: AcquireError): Iteration {
    match error
    case Empty => Iteration(s, true)
    case Drained => Iteration(s, false)
    case _ => Iteration(s.(stats := s.stats.(ingressErrors := s.stats.ingressErrors + 1)), false)
  }

  /** One iteration that found the stop flag clear. */
  function Iterate(cfg: SenderConfig, s: SenderState, turn: Turn): Iteration
    requires s.queue.Valid()
  {
    var q := FeedAll(s.queue, turn.before);
    match q.AcquireCode()
    case Err(error) => Refused(s.(queue := q), error)
    case Ok(event) =>
      var t := Handle(cfg, s.(queue := q.Acquire()), event, turn);
      Iteration(t, !t.stopRequested)
  }

  lemma HandleKeepsQueue(cfg: SenderConfig, s: SenderState, event: Event, turn: Turn)
    requires s.queue.Valid() && s.queue.held
    ensures Handle(cfg, s, event, turn).queue.Valid()
  {
  }

  lemma IterateKeepsQueue(cfg: SenderConfig, s: SenderState, turn: Turn)
    requires s.queue.Valid()
    ensures Iterate(cfg, s, turn).state.queue.Valid()
  {
    var q := FeedAll(s.queue, turn.before);
    if q.AcquireCode().Ok? { HandleKeepsQueue(cfg, s.(queue := q.Acquire()), q.AcquireCode().value, turn); }
  }

  /** A whole call to run. */
  function RunAll(cfg: SenderConfig, s: SenderState, script: seq<Turn>): SenderState
    requires s.queue.Valid()
    decreases |script|
  {
    if s.stopRequested then s
    else if script == [] then s.(stopRequested := true)
    else
      IterateKeepsQueue(cfg, s, script[0]);
      var it := Iterate(cfg, s, script[0]);
      if it.again then RunAll(cfg, it.state, script[1..]) else it.state
  }
}
