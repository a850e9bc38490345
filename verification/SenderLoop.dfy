/** The sender as an object over a mapped ring, with the producer of its ingress acting between its
    steps, proved to compute what the functions of Sending say. */
module SenderLoop {
  import opened Bits
  import opened Events
  import opened Codec
  import opened Ring
  import opened RingRuns
  import opened Statistics
  import opened Sending

  /** One action of the process on the producing side. */
  method FeedRingOnce(producer: SpscRing, consumer: SpscRing, feed: Feed)
    requires Linked(producer, consumer)
    modifies producer`cachedReadPosition, consumer.Memory()`writePosition, consumer.Memory()`published
    modifies consumer.Memory()`state, consumer.SlotMemory()
    ensures Linked(producer, consumer) && consumer.Queue() == FeedOne(old(consumer.Queue()), feed)
  {
    match feed
    case FeedClose =>
      CloseJoined(producer, producer, consumer);
    case FeedEvent(event) =>
      var result := PublishValue(producer, consumer, event);
  }

  /** Everything the producing side does before the consumer's next step. */
  method FeedRing(producer: SpscRing, consumer: SpscRing, feeds: seq<Feed>)
    requires Linked(producer, consumer)
    modifies producer`cachedReadPosition, consumer.Memory()`writePosition, consumer.Memory()`published
    modifies consumer.Memory()`state, consumer.SlotMemory()
    ensures Linked(producer, consumer) && consumer.Queue() == FeedAll(old(consumer.Queue()), feeds)
  {
    ghost var start := consumer.Queue();
    for i := 0 to |feeds|
      invariant Linked(producer, consumer)
      invariant FeedAll(start, feeds) == FeedAll(consumer.Queue(), feeds[i..])
    {
      assert feeds[i..][0] == feeds[i] && feeds[i..][1..] == feeds[i + 1..];
      FeedRingOnce(producer, consumer, feeds[i]);
    }
    assert feeds[|feeds|..] == [];
  }

  predicate StartsWith(packet: array<u8>, size: nat, bytes: seq<u8>)
    reads packet
  {
    size <= packet.Length && packet[..size] == bytes
  }

  class Sender {
    const config: SenderConfig
    const ingress: SpscRing
    const sessionId: u32
    var packetSequence: u64
    var stopRequested: bool
    var stats: Stats

    ghost var exact: Stats
    ghost var wire: seq<seq<Offer>>
    ghost var numbered: seq<nat>

    ghost predicate Valid()
      reads this, ingress, ingress.header, ingress.SlotMemory()
    {
      CountersOk() && ingress.ConsumerOk()
    }

    /** The 64-bit counters agree with the exact counts. */
    ghost predicate CountersOk()
      reads this
    {
      config.Valid() && stats == Wrap(exact)
    }

    ghost function State(): SenderState
      requires ingress.header != null
      reads this, ingress, ingress.header
    {
      SenderState(ingress.Queue(), sessionId, packetSequence, stopRequested, exact, wire, numbered)
    }

    constructor (config: SenderConfig, ingress: SpscRing, sessionId: u32)
      requires config.Valid() && ingress.ConsumerOk()
      ensures Valid() && this.config == config && this.ingress == ingress && this.sessionId == sessionId
      ensures State() == SenderState(ingress.Queue(), sessionId, 1, false, NO_STATS, [], [])
    {
      this.config, this.ingress, this.sessionId := config, ingress, sessionId;
      packetSequence, stopRequested, stats := 1, false, NO_STATS;
      exact, wire, numbered := NO_STATS, [], [];
      new;
      WrapNothing();
      assert ingress.ConsumerOk();
    }

    /** Take over another sender's session; the source is told to stop for good. */
    constructor Moved(other: Sender)
      requires other.Valid()
      modifies other, other.ingress
      ensures Valid() && fresh(ingress) && ingress.header == old(other.ingress.header)
      ensures config == other.config && State() == old(other.State())
      ensures other.stopRequested && other.ingress.header == null
    {
      config, sessionId := other.config, other.sessionId;
      packetSequence, stopRequested, stats := other.packetSequence, other.stopRequested, other.stats;
      exact, wire, numbered := other.exact, other.wire, other.numbered;
      ingress := new SpscRing.Moved(other.ingress);
      new;
      other.RequestStop();
    }

    method RequestStop()
      modifies `stopRequested
      ensures stopRequested
    {
      stopRequested := true;
    }

    /** One call to send_to and its counter. */
    method SendTo(destination: nat, bytes: seq<u8>, ok: bool) returns (offer: Offer)
      requires stats == Wrap(exact)
      modifies `stats, `exact
      ensures offer == Offer(destination, bytes, ok)
      ensures stats == Wrap(exact) && exact == CountSend(old(exact), offer)
    {
      offer := Offer(destination, bytes, ok);
      if ok {
        stats := stats.(packetsSent := Bump(stats.packetsSent, 1));
        exact := exact.(packetsSent := exact.packetsSent + 1);
      } else {
        // An error for one destination does not skip the others.
        stats := stats.(sendErrors := Bump(stats.sendErrors, 1));
        exact := exact.(sendErrors := exact.sendErrors + 1);
      }
    }

    /** The producer acts, then the next destination gets what the buffer holds. */
    method SendNext(producer: SpscRing, packet: array<u8>, size: nat, turn: Turn, d: nat) returns (offer: Offer)
      requires Linked(producer, ingress) && stats == Wrap(exact)
      requires size <= packet.Length && packet != ingress.header.slots
      modifies `stats, `exact
      modifies producer`cachedReadPosition, ingress.Memory()`writePosition, ingress.Memory()`published
      modifies ingress.Memory()`state, ingress.SlotMemory()
      ensures Linked(producer, ingress) && stats == Wrap(exact) && exact == CountSend(old(exact), offer)
      ensures offer == Offer(d, packet[..size], SendAt(turn, d).ok)
      ensures ingress.Queue() == FeedAll(old(ingress.Queue()), SendAt(turn, d).feeds)
      ensures packet[..size] == old(packet[..size])
    {
      FeedRing(producer, ingress, SendAt(turn, d).feeds);
      offer := SendTo(d, packet[..size], SendAt(turn, d).ok);
    }

    /** Offer the datagram to every destination; the producer is free to act before each send. */
    method SendToAll(producer: SpscRing, packet: array<u8>, size: nat, turn: Turn)
      returns (sentToAny: bool, ghost offers: seq<Offer>)
      requires CountersOk() && Linked(producer, ingress) && size <= packet.Length && packet != ingress.header.slots
      modifies `stats, `exact
      modifies producer`cachedReadPosition, ingress.Memory()`writePosition, ingress.Memory()`published
      modifies ingress.Memory()`state, ingress.SlotMemory()
      ensures Linked(producer, ingress) && stats == Wrap(exact)
      ensures offers == Offers(packet[..size], turn, 0, config.destinations)
      ensures ingress.Queue() == QueueAfterSends(old(ingress.Queue()), turn, 0, config.destinations)
      ensures exact == CountSends(old(exact), offers) && (sentToAny <==> Successes(offers) > 0)
    {
      sentToAny := false;
      ghost var bytes, n := packet[..size], config.destinations;
      ghost var all, q0 := Offers(bytes, turn, 0, n), ingress.Queue();
      offers := [];
      for d := 0 to config.destinations
        invariant Linked(producer, ingress) && packet[..size] == bytes && stats == Wrap(exact)
        invariant QueueAfterSends(q0, turn, 0, n) == QueueAfterSends(ingress.Queue(), turn, d, n)
        invariant offers + Offers(bytes, turn, d, n) == all
        invariant CountSends(old(exact), all) == CountSends(exact, Offers(bytes, turn, d, n))
        invariant sentToAny || Successes(Offers(bytes, turn, d, n)) > 0 <==> Successes(all) > 0
      {
        OffersStep(exact, offers, bytes, turn, d, n);
        var offer := SendNext(producer, packet, size, turn, d);
        sentToAny := sentToAny || offer.ok;
        offers := offers + [offer];
      }
    }

    /** Event counters count input events, not destinations. */
    method CountEvent(sent: bool)
      requires stats == Wrap(exact)
      modifies `stats, `exact
      ensures stats == Wrap(exact)
      ensures exact == if sent then old(exact).(eventsOut := old(exact.eventsOut) + 1)
                       else old(exact).(eventsDropped := old(exact.eventsDropped) + 1)
    {
      if sent {
        stats := stats.(eventsOut := Bump(stats.eventsOut, 1));
        exact := exact.(eventsOut := exact.eventsOut + 1);
      } else {
        stats := stats.(eventsDropped := Bump(stats.eventsDropped, 1));
        exact := exact.(eventsDropped := exact.eventsDropped + 1);
      }
    }

    /** Fan one datagram out and count its event once, however many destinations it reached. */
    method FanOut(producer: SpscRing, packet: array<u8>, size: nat, turn: Turn)
      requires CountersOk() && Linked(producer, ingress) && size <= packet.Length && packet != ingress.header.slots
      modifies `stats, `exact, `wire
      modifies producer`cachedReadPosition, ingress.Memory()`writePosition, ingress.Memory()`published
      modifies ingress.Memory()`state, ingress.SlotMemory()
      ensures CountersOk() && Linked(producer, ingress)
      ensures var offers := Offers(packet[..size], turn, 0, config.destinations);
        && ingress.Queue() == QueueAfterSends(old(ingress.Queue()), turn, 0, config.destinations)
        && exact == CountFanOut(old(exact), offers) && wire == old(wire) + [offers]
    {
      var sentToAny;
      ghost var offers;
      sentToAny, offers := SendToAll(producer, packet, size, turn);
      FanOutCounted(old(exact), offers);
      wire := wire + [offers];
      CountEvent(sentToAny);
    }

    /** The event under the view, whatever the producer does while it is held, becomes one packet. */
    method EncodeHeld(producer: SpscRing, packet: array<u8>, view: EventView, turn: Turn)
      returns (encoded: Result<nat, EncodeError>)
      requires config.Valid() && Linked(producer, ingress) && ViewsHeldSlot(ingress, view)
      requires packet.Length == MAX_PACKET_BYTES && packet != ingress.header.slots
      modifies packet
      modifies producer`cachedReadPosition, ingress.Memory()`writePosition, ingress.Memory()`published
      modifies ingress.Memory()`state, ingress.SlotMemory()
      ensures Linked(producer, ingress) && ingress.Queue() == FeedAll(old(ingress.Queue()), turn.held)
      ensures var event := old(ingress.header.published[ingress.acquiredPosition]);
        && encoded.Ok? == EncodeCheck(event, sessionId, packetSequence, config.limit).None?
        && (encoded.Ok? ==> StartsWith(packet, encoded.value, Packet(event, sessionId, packetSequence)))
    {
      FeedRing(producer, ingress, turn.held);
      HeldViewReads(ingress, view);
      encoded := EncodeData(view, sessionId, packetSequence, packet, config.limit);
      assert encoded.Ok? ==> packet[..encoded.value] == packet[..][0..encoded.value];
    }

    /** Events the wire format cannot carry are consumed and dropped. */
    method DropEvent()
      requires stats == Wrap(exact)
      modifies `stats, `exact
      ensures stats == Wrap(exact)
      ensures exact == CountDropped(old(exact))
    {
      stats := stats.(encodeErrors := Bump(stats.encodeErrors, 1), eventsDropped := Bump(stats.eventsDropped, 1));
      exact := exact.(encodeErrors := exact.encodeErrors + 1, eventsDropped := exact.eventsDropped + 1);
    }

    /** Use up the sequence number; the last one ends the session instead of wrapping. */
    method AdvanceSequence(ghost position: nat)
      modifies `packetSequence, `stopRequested, `numbered
      ensures numbered == old(numbered) + [position]
      ensures packetSequence == if old(packetSequence) == U64_MAX then U64_MAX else old(packetSequence) + 1
      ensures stopRequested == (old(stopRequested) || old(packetSequence) == U64_MAX)
    {
      numbered := numbered + [position];
      if packetSequence == U64_MAX {
        RequestStop();
      } else {
        packetSequence := packetSequence + 1;
      }
    }

    method CountInput()
      requires stats == Wrap(exact)
      modifies `stats, `exact
      ensures stats == Wrap(exact) && exact == old(exact).(eventsIn := old(exact.eventsIn) + 1)
    {
      stats := stats.(eventsIn := Bump(stats.eventsIn, 1));
      exact := exact.(eventsIn := exact.eventsIn + 1);
    }

    /** Encode, then release the slot at once; the packet is already safe in the buffer. */
    method EncodeAndRelease(producer: SpscRing, packet: array<u8>, view: EventView, turn: Turn)
      returns (encoded: Result<nat, EncodeError>)
      requires config.Valid() && Linked(producer, ingress) && ViewsHeldSlot(ingress, view)
      requires packet.Length == MAX_PACKET_BYTES && packet != ingress.header.slots
      modifies packet, ingress`acquired, ingress`acquiredPosition, ingress.Memory()`readPosition
      modifies producer`cachedReadPosition, ingress.Memory()`writePosition, ingress.Memory()`published
      modifies ingress.Memory()`state, ingress.SlotMemory()
      ensures Linked(producer, ingress) && ingress.Queue() == FeedAll(old(ingress.Queue()), turn.held).Release()
      ensures var event := old(ingress.header.published[ingress.acquiredPosition]);
        && encoded.Ok? == EncodeCheck(event, sessionId, packetSequence, config.limit).None?
        && (encoded.Ok? ==> StartsWith(packet, encoded.value, Packet(event, sessionId, packetSequence)))
    {
      encoded := EncodeHeld(producer, packet, view, turn);
      var released := ReleaseHeld(producer, ingress);
    }

    /** Encode and count the event, releasing its slot before anything is sent. */
    method Consume(producer: SpscRing, packet: array<u8>, view: EventView, turn: Turn)
      returns (encoded: Result<nat, EncodeError>)
      requires CountersOk() && Linked(producer, ingress) && ViewsHeldSlot(ingress, view)
      requires packet.Length == MAX_PACKET_BYTES && packet != ingress.header.slots
      modifies `stats, `exact, packet, ingress`acquired, ingress`acquiredPosition, ingress.Memory()`readPosition
      modifies producer`cachedReadPosition, ingress.Memory()`writePosition, ingress.Memory()`published
      modifies ingress.Memory()`state, ingress.SlotMemory()
      ensures CountersOk() && Linked(producer, ingress) && State() == Consumed(old(State()), turn)
      ensures var event := old(ingress.header.published[ingress.acquiredPosition]);
        && encoded.Ok? == EncodeCheck(event, sessionId, packetSequence, config.limit).None?
        && (encoded.Ok? ==> StartsWith(packet, encoded.value, Packet(event, sessionId, packetSequence)))
    {
      CountInput();
      encoded := EncodeAndRelease(producer, packet, view, turn);
    }

    /** Send the packet everywhere and move on to the next number. */
    method Transmit(producer: SpscRing, packet: array<u8>, size: nat, turn: Turn, ghost position: nat,
                    ghost bytes: seq<u8>)
      requires CountersOk() && Linked(producer, ingress) && packet != ingress.header.slots
        && StartsWith(packet, size, bytes)
      modifies `packetSequence, `stopRequested, `stats, `exact, `wire, `numbered
      modifies producer`cachedReadPosition, ingress.Memory()`writePosition, ingress.Memory()`published
      modifies ingress.Memory()`state, ingress.SlotMemory()
      ensures CountersOk() && Linked(producer, ingress)
      ensures State() == Transmitted(config, old(State()), bytes, turn, position)
    {
      FanOut(producer, packet, size, turn);
      AdvanceSequence(position);
    }

    method HandleEvent(producer: SpscRing, packet: array<u8>, view: EventView, turn: Turn)
      requires CountersOk() && Linked(producer, ingress) && ViewsHeldSlot(ingress, view)
      requires packet.Length == MAX_PACKET_BYTES && packet != ingress.header.slots
      modifies packet, `packetSequence, `stopRequested, `stats, `exact, `wire, `numbered
      modifies ingress`acquired, ingress`acquiredPosition, ingress.Memory()`readPosition
      modifies producer`cachedReadPosition, ingress.Memory()`writePosition, ingress.Memory()`published
      modifies ingress.Memory()`state, ingress.SlotMemory()
      ensures CountersOk() && Linked(producer, ingress)
      ensures var event := old(ingress.header.published[ingress.acquiredPosition]);
        State() == Handle(config, old(State()), event, turn)
    {
      ghost var position, event := ingress.acquiredPosition, ingress.header.published[ingress.acquiredPosition];
      var encoded := Consume(producer, packet, view, turn);
      if encoded.Err? {
        DropEvent();
      } else {
        Transmit(producer, packet, encoded.value, turn, position, Packet(event, sessionId, packetSequence));
      }
    }

    /** Let the producer act, then try to take the oldest event. */
    method TakeNext(producer: SpscRing, before: seq<Feed>) returns (event: Result<EventView, AcquireError>)
      requires Linked(producer, ingress)
      modifies ingress`acquired, ingress`acquiredPosition, ingress`cachedWritePosition
      modifies producer`cachedReadPosition, ingress.Memory()`writePosition, ingress.Memory()`published
      modifies ingress.Memory()`state, ingress.SlotMemory()
      ensures Linked(producer, ingress)
      ensures var q := FeedAll(old(ingress.Queue()), before);
        if event.Err? then State() == old(State()).(queue := q) && q.AcquireCode() == Err(event.error)
        else ViewsHeldSlot(ingress, event.value) && State() == old(State()).(queue := q.Acquire())
             && q.AcquireCode() == Ok(ingress.header.published[ingress.acquiredPosition])
    {
      FeedRing(producer, ingress, before);
      event := ingress.TryAcquire();
    }

    /** Nothing to take: wait for more, finish, or count a broken ring. */
    method Refuse(error: AcquireError) returns (again: bool)
      requires CountersOk() && ingress.header != null
      modifies `stats, `exact
      ensures CountersOk() && Iteration(State(), again) == Refused(old(State()), error)
    {
      if error == Empty { return true; }
      if error != Drained {
        stats := stats.(ingressErrors := Bump(stats.ingressErrors, 1));
        exact := exact.(ingressErrors := exact.ingressErrors + 1);
      }
      return false;
    }

    /** Handle what try_acquire answered. */
    method Dispatch(producer: SpscRing, packet: array<u8>, event: Result<EventView, AcquireError>, turn: Turn)
      returns (again: bool)
      requires CountersOk() && Linked(producer, ingress) && (event.Ok? ==> ViewsHeldSlot(ingress, event.value))
      requires packet.Length == MAX_PACKET_BYTES && packet != ingress.header.slots
      modifies packet, `packetSequence, `stopRequested, `stats, `exact, `wire, `numbered
      modifies ingress`acquired, ingress`acquiredPosition, ingress.Memory()`readPosition
      modifies producer`cachedReadPosition, ingress.Memory()`writePosition, ingress.Memory()`published
      modifies ingress.Memory()`state, ingress.SlotMemory()
      ensures CountersOk() && Linked(producer, ingress)
      ensures event.Err? ==> Iteration(State(), again) == Refused(old(State()), event.error)
      ensures event.Ok? ==>
        && State() == Handle(config, old(State()), old(ingress.header.published[ingress.acquiredPosition]), turn)
        && again == !stopRequested
    {
      if event.Err? {
        again := Refuse(event.error);
        return;
      }
      HandleEvent(producer, packet, event.value, turn);
      return !stopRequested;
    }

    /** One iteration of the loop. */
    method Step(producer: SpscRing, packet: array<u8>, turn: Turn) returns (again: bool)
      requires CountersOk() && Linked(producer, ingress)
      requires packet.Length == MAX_PACKET_BYTES && packet != ingress.header.slots
      modifies packet, `packetSequence, `stopRequested, `stats, `exact, `wire, `numbered
      modifies ingress`acquired, ingress`acquiredPosition, ingress`cachedWritePosition, ingress.Memory()`readPosition
      modifies producer`cachedReadPosition, ingress.Memory()`writePosition, ingress.Memory()`published
      modifies ingress.Memory()`state, ingress.SlotMemory()
      ensures CountersOk() && Linked(producer, ingress)
      ensures Iteration(State(), again) == Iterate(config, old(State()), turn)
    {
      var event := TakeNext(producer, turn.before);
      again := Dispatch(producer, packet, event, turn);
    }

    /** The next turn of the script; after the last one somebody else sets the stop flag. */
    method NextTurn(producer: SpscRing, packet: array<u8>, script: seq<Turn>, i: nat) returns (again: bool)
      requires CountersOk() && Linked(producer, ingress) && !stopRequested && i <= |script|
      requires packet.Length == MAX_PACKET_BYTES && packet != ingress.header.slots
      modifies packet, `packetSequence, `stopRequested, `stats, `exact, `wire, `numbered
      modifies ingress`acquired, ingress`acquiredPosition, ingress`cachedWritePosition, ingress.Memory()`readPosition
      modifies producer`cachedReadPosition, ingress.Memory()`writePosition, ingress.Memory()`published
      modifies ingress.Memory()`state, ingress.SlotMemory()
      ensures CountersOk() && Linked(producer, ingress)
      ensures i == |script| ==> stopRequested
      ensures RunAll(config, old(State()), script[i..]) ==
        if again then RunAll(config, State(), script[if i < |script| then i + 1 else i..]) else State()
    {
      if i == |script| {
        RequestStop();
        again := true;
      } else {
        RunFrom(config, State(), script, i);
        again := Step(producer, packet, script[i]);
      }
    }

    /** Take turns until told to stop, until ingress is closed and drained, or until the numbers run out. */
    method Loop(producer: SpscRing, packet: array<u8>, script: seq<Turn>)
      requires CountersOk() && Linked(producer, ingress)
      requires packet.Length == MAX_PACKET_BYTES && packet != ingress.header.slots
      modifies packet, `packetSequence, `stopRequested, `stats, `exact, `wire, `numbered
      modifies ingress`acquired, ingress`acquiredPosition, ingress`cachedWritePosition, ingress.Memory()`readPosition
      modifies producer`cachedReadPosition, ingress.Memory()`writePosition, ingress.Memory()`published
      modifies ingress.Memory()`state, ingress.SlotMemory()
      ensures CountersOk() && Linked(producer, ingress)
      ensures State() == RunAll(config, old(State()), script)
    {
      var again, i := true, 0;
      ghost var start := State();
      while again && !stopRequested
        invariant i <= |script| && CountersOk() && Linked(producer, ingress)
        invariant RunAll(config, start, script) == if again then RunAll(config, State(), script[i..]) else State()
        decreases |script| - i, !stopRequested
      {
        again := NextTurn(producer, packet, script, i);
        i := if i < |script| then i + 1 else i;
      }
    }

    method Run(producer: SpscRing, script: seq<Turn>)
      requires Valid() && Linked(producer, ingress)
      modifies `packetSequence, `stopRequested, `stats, `exact, `wire, `numbered
      modifies ingress`acquired, ingress`acquiredPosition, ingress`cachedWritePosition, ingress.Memory()`readPosition
      modifies producer`cachedReadPosition, ingress.Memory()`writePosition, ingress.Memory()`published
      modifies ingress.Memory()`state, ingress.SlotMemory()
      ensures Valid() && Linked(producer, ingress)
      ensures State() == RunAll(config, old(State()), script)
    {
      var packet := new u8[MAX_PACKET_BYTES];
      Loop(producer, packet, script);
    }
  }

  lemma RunFrom(cfg: SenderConfig, s: SenderState, script: seq<Turn>, i: nat)
    requires s.queue.Valid() && !s.stopRequested && i < |script|
    ensures var it := Iterate(cfg, s, script[i]);
      && it.state.queue.Valid()
      && RunAll(cfg, s, script[i..]) == if it.again then RunAll(cfg, it.state, script[i + 1..]) else it.state
  {
    IterateKeepsQueue(cfg, s, script[i]);
    assert script[i..][0] == script[i] && script[i..][1..] == script[i + 1..];
  }

  /** Counting the sends one at a time and then the event is counting the fan-out. */
  lemma FanOutCounted(stats: Stats, offers: seq<Offer>)
    ensures var c := CountSends(stats, offers);
      CountFanOut(stats, offers) ==
        if Successes(offers) > 0 then c.(eventsOut := c.eventsOut + 1) else c.(eventsDropped := c.eventsDropped + 1)
  {
    SendsCounted(stats, offers);
  }

  function CountSend(stats: Stats, offer: Offer): Stats {
    if offer.ok then stats.(packetsSent := stats.packetsSent + 1) else stats.(sendErrors := stats.sendErrors + 1)
  }

  /** The first of the remaining sends. */
  lemma OffersStep(stats: Stats, made: seq<Offer>, bytes: seq<u8>, turn: Turn, d: nat, destinations: nat)
    requires d < destinations
    ensures var rest, later := Offers(bytes, turn, d, destinations), Offers(bytes, turn, d + 1, destinations);
      var offer := Offer(d, bytes, SendAt(turn, d).ok);
      && made + rest == made + [offer] + later
      && CountSends(stats, rest) == CountSends(CountSend(stats, offer), later)
      && Successes(rest) == (if offer.ok then 1 else 0) + Successes(later)
  {
    var rest := Offers(bytes, turn, d, destinations);
    assert made + rest == made + [rest[0]] + rest[1..];
    assert rest[1..] == Offers(bytes, turn, d + 1, destinations);
  }

  /** The counters after these sends, one at a time. */
  function CountSends(stats: Stats, offers: seq<Offer>): Stats
    decreases |offers|
  {
    if offers == [] then stats else CountSends(CountSend(stats, offers[0]), offers[1..])
  }

  lemma {:induction false} SendsCounted(stats: Stats, offers: seq<Offer>)
    ensures CountSends(stats, offers) ==
      stats.(packetsSent := stats.packetsSent + Successes(offers),
             sendErrors := stats.sendErrors + |offers| - Successes(offers))
    decreases |offers|
  {
    if offers != [] { SendsCounted(CountSend(stats, offers[0]), offers[1..]); }
  }
}
