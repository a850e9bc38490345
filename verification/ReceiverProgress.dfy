/** What the receiver is bound to do: which turns end a run, that every other turn is followed by the
    next, and that egress gets exactly the events of the new packets that meet room there. */
module ReceiverProgress {
  import opened Bits
  import opened Events
  import opened Codec
  import opened Queues
  import opened Statistics
  import opened GapDetection
  import opened Receiving
  import opened ReceiverTheorems

  // ---- the operations on egress, said without the receiver ------------------------------------

  function DrainOps(drains: seq<Drain>): seq<Op> {
    if drains == [] then []
    else [if drains[0].TakeView? then AcquireOp else ReleaseOp] + DrainOps(drains[1..])
  }

  function Identity(d: Decoded): PacketId {
    PacketId(d.sessionId, d.packetSequence)
  }

  /** What one datagram adds to the identities seen; one that is no packet adds nothing. */
  function SeenIn(reading: Option<Decoded>): seq<PacketId> {
    if reading.None? then [] else [Identity(reading.value)]
  }

  /** A new packet's event is published, after whatever the consumer does in between. */
  ghost function DeliveryOps(earlier: seq<PacketId>, reading: Option<Decoded>, late: seq<Drain>): seq<Op> {
    if reading.Some? && IsNew(earlier, Identity(reading.value))
    then DrainOps(late) + [PublishOp(reading.value.event)]
    else []
  }

  ghost function TurnOps(earlier: seq<PacketId>, turn: Turn, reading: Option<Decoded>): seq<Op> {
    DrainOps(turn.before) + (if turn.arrival.Datagram? then DeliveryOps(earlier, reading, turn.late) else [])
  }

  function ReadingOf(turn: Turn): Option<Decoded> {
    if turn.arrival.Datagram? then Reading(turn.arrival.bytes) else None
  }

  /** Everything that happens to egress over a script, given the identities seen before it. */
  ghost function EgressOps(earlier: seq<PacketId>, script: seq<Turn>): seq<Op>
    decreases |script|
  {
    if script == [] then []
    else TurnOps(earlier, script[0], ReadingOf(script[0]))
         + EgressOps(earlier + SeenIn(ReadingOf(script[0])), script[1..])
  }

  /** The identities of the packets among the datagrams of a script, in order. */
  function Identities(script: seq<Turn>): seq<PacketId> {
    if script == [] then [] else SeenIn(ReadingOf(script[0])) + Identities(script[1..])
  }

  lemma {:induction false} DrainIsRun(q: Queue, drains: seq<Drain>)
    requires q.Valid()
    ensures Run(q, DrainOps(drains)) == DrainAll(q, drains)
    decreases |drains|
  {
    if drains != [] {
      assert DrainOps(drains)[1..] == DrainOps(drains[1..]);
      DrainIsRun(DrainOne(q, drains[0]), drains[1..]);
    }
  }

  lemma {:induction false} DrainAnswersNoPublish(q: Queue, drains: seq<Drain>, result: PublishResult)
    requires q.Valid()
    ensures CountAnswers(Answers(q, DrainOps(drains)), PublishAnswer(result)) == 0
    decreases |drains|
  {
    if drains != [] {
      var ops := DrainOps(drains);
      assert ops[1..] == DrainOps(drains[1..]);
      assert Answers(q, ops)[1..] == Answers(Apply(q, ops[0]), ops[1..]);
      DrainAnswersNoPublish(Apply(q, ops[0]), drains[1..], result);
    }
  }

  // ---- egress never runs out of cursor values -------------------------------------------------

  lemma {:induction false} RisingFromOne(carried: seq<u64>, i: nat)
    requires Increasing(carried) && i < |carried| && forall j :: 0 <= j < |carried| ==> carried[j] >= 1
    ensures carried[i] >= i + 1
    decreases i
  {
    if i > 0 { RisingFromOne(carried, i - 1); }
  }

  /** There are no more events in egress than sequence numbers passed. */
  lemma FewerThanNumbers(s: ReceiverState)
    requires CarriedOk(s)
    ensures |s.queue.published| <= s.detector.lastSequence
  {
    forall j | 0 <= j < |s.carried| ensures 1 <= s.carried[j] <= s.detector.lastSequence {
      assert Brought(s.heard, s.detector, s.carried[j], s.queue.published[j]);
    }
    if s.carried != [] { RisingFromOne(s.carried, |s.carried| - 1); }
  }

  // ---- which turns end a run ------------------------------------------------------------------

  /** Draining leaves the answer to a publish at Closed exactly if it was. */
  lemma ClosedAfterDrain(s: ReceiverState, d: Decoded, before: seq<Drain>, late: seq<Drain>)
    requires Kept(s) && s.detector.lastSequence < d.packetSequence
    ensures var q := DrainAll(DrainAll(s.queue, before), late);
      q.PublishCode(d.event).PublicationClosed? <==> s.queue.closed
  {
    FewerThanNumbers(s);
  }

  lemma TurnEndsReading(s: ReceiverState, turn: Turn, reading: Option<Decoded>)
    requires Kept(s)
    requires turn.arrival.Datagram? && reading.Some? ==>
      reading.value.sessionId != 0 && reading.value.packetSequence != 0
    ensures !IterateReading(s, turn, reading).again <==>
      || turn.arrival.SocketError?
      || (turn.arrival.Datagram? && reading.Some? && IsNew(s.checked, Identity(reading.value)) && s.queue.closed)
  {
    if turn.arrival.Datagram? && reading.Some? {
      var d := reading.value;
      Verdict(s.checked, Identity(d));
      if IsNew(s.checked, Identity(d)) {
        CheckCovers(s.detector, d.sessionId, d.packetSequence);
        ClosedAfterDrain(s, d, turn.before, turn.late);
      }
    }
  }

  /** A turn ends a run exactly if the socket breaks, or if a new packet meets a closed egress.
      Silence, malformed and oversized datagrams, repeats, foreign sessions, a full ring and an event
      too large for it never do. */
  lemma TurnEnds(s: ReceiverState, turn: Turn)
    requires Kept(s)
    ensures !Iterate(s, turn).again <==>
      || turn.arrival.SocketError?
      || (ReadingOf(turn).Some? && IsNew(s.checked, Identity(ReadingOf(turn).value)) && s.queue.closed)
  {
    ReadingIsNonzero(turn);
    TurnEndsReading(s, turn, ReadingOf(turn));
  }

  lemma ReadingIsNonzero(turn: Turn)
    ensures ReadingOf(turn).Some? ==>
      && turn.arrival.Datagram? && Decode(turn.arrival.bytes) == Ok(ReadingOf(turn).value)
      && ReadingOf(turn).value.sessionId != 0 && ReadingOf(turn).value.packetSequence != 0
  {
    if ReadingOf(turn).Some? { Canonical(turn.arrival.bytes); }
  }

  // ---- every other turn is followed by the next -----------------------------------------------

  /** Nothing has stopped the receiver, and egress is open. */
  ghost predicate Going(s: ReceiverState) {
    Kept(s) && !s.stopRequested && !s.queue.closed
  }

  /** The counters of egress's answers moved as the answers say. */
  predicate AnswersCounted(before: Stats, after: Stats, answers: seq<Answer>) {
    && after.eventsOut == before.eventsOut + CountAnswers(answers, PublishAnswer(Published))
    && after.egressFull == before.egressFull + CountAnswers(answers, PublishAnswer(Full))
    && after.egressErrors == before.egressErrors + CountAnswers(answers, PublishAnswer(PayloadTooLarge))
         + CountAnswers(answers, PublishAnswer(PublicationClosed))
    && after.receiveErrors == before.receiveErrors
  }

  /** What a script does to a receiver: datagrams read, identities seen, egress run, answers counted. */
  ghost predicate Went(s: ReceiverState, t: ReceiverState, datagrams: seq<seq<u8>>, ids: seq<PacketId>, ops: seq<Op>) {
    && s.queue.Valid()
    && t.heard == s.heard + datagrams && t.checked == s.checked + ids
    && t.stats.packetsReceived == s.stats.packetsReceived + |datagrams|
    && t.queue == Run(s.queue, ops) && AnswersCounted(s.stats, t.stats, Answers(s.queue, ops))
    && t.stopRequested == s.stopRequested
  }

  lemma NoneCounted(s: Stats, answers: seq<Answer>)
    requires forall result :: CountAnswers(answers, PublishAnswer(result)) == 0
    ensures AnswersCounted(s, s, answers)
  {
  }

  /** Only draining. */
  lemma DrainedOnly(s: ReceiverState, drains: seq<Drain>)
    requires s.queue.Valid()
    ensures Went(s, s.(queue := DrainAll(s.queue, drains)), [], [], DrainOps(drains))
  {
    DrainIsRun(s.queue, drains);
    forall result ensures CountAnswers(Answers(s.queue, DrainOps(drains)), PublishAnswer(result)) == 0 {
      DrainAnswersNoPublish(s.queue, drains, result);
    }
    NoneCounted(s.stats, Answers(s.queue, DrainOps(drains)));
  }

  lemma WentThen(s: ReceiverState, t: ReceiverState, u: ReceiverState,
                 d1: seq<seq<u8>>, i1: seq<PacketId>, o1: seq<Op>, d2: seq<seq<u8>>, i2: seq<PacketId>, o2: seq<Op>)
    requires Went(s, t, d1, i1, o1) && Went(t, u, d2, i2, o2)
    ensures Went(s, u, d1 + d2, i1 + i2, o1 + o2)
  {
    RunAppend(s.queue, o1, o2);
    AnswersAppend(s.queue, o1, o2);
    var a, b := Answers(s.queue, o1), Answers(t.queue, o2);
    CountAnswersAppend(a, b, PublishAnswer(Published));
    CountAnswersAppend(a, b, PublishAnswer(Full));
    CountAnswersAppend(a, b, PublishAnswer(PayloadTooLarge));
    CountAnswersAppend(a, b, PublishAnswer(PublicationClosed));
  }

  lemma NothingAdded<T>(s: seq<T>)
    ensures [] + s == s && s + [] == s
  {
  }

  lemma OnePublishCounted(q: Queue, stats: Stats, event: Event)
    requires q.Valid()
    ensures Run(q, [PublishOp(event)]) == q.Publish(event)
    ensures AnswersCounted(stats, PublishedStats(stats, q.PublishCode(event)), Answers(q, [PublishOp(event)]))
  {
    var ops := [PublishOp(event)];
    assert ops[1..] == [] && Answers(q, ops) == [PublishAnswer(q.PublishCode(event))];
    assert Answers(q, ops)[1..] == [];
  }

  /** A new packet: the consumer's late actions, then the publish. */
  lemma DeliverWent(s: ReceiverState, d: Decoded, late: seq<Drain>)
    requires s.queue.Valid()
    ensures Went(s, Deliver(s, d, late).state, [], [], DrainOps(late) + [PublishOp(d.event)])
  {
    var u, t := s.(queue := DrainAll(s.queue, late)), Deliver(s, d, late).state;
    DrainedOnly(s, late);
    OnePublishCounted(u.queue, u.stats, d.event);
    assert Went(u, t, [], [], [PublishOp(d.event)]);
    WentThen(s, u, t, [], [], DrainOps(late), [], [], [PublishOp(d.event)]);
    NothingAdded<seq<u8>>([]);
    NothingAdded<PacketId>([]);
  }

  /** Noting a datagram and showing its identity to the detector touches neither egress nor its counters. */
  lemma NotedWent(s: ReceiverState, t: ReceiverState, datagrams: seq<seq<u8>>, ids: seq<PacketId>)
    requires s.queue.Valid() && t.queue == s.queue && t.stopRequested == s.stopRequested
    requires t.heard == s.heard + datagrams && t.checked == s.checked + ids
    requires t.stats.eventsOut == s.stats.eventsOut && t.stats.egressFull == s.stats.egressFull
    requires t.stats.egressErrors == s.stats.egressErrors && t.stats.receiveErrors == s.stats.receiveErrors
    requires t.stats.packetsReceived == s.stats.packetsReceived + |datagrams|
    ensures Went(s, t, datagrams, ids, [])
  {
  }

  lemma DatagramWent(s: ReceiverState, checked: seq<PacketId>, bytes: seq<u8>, reading: Option<Decoded>,
                     late: seq<Drain>)
    requires s.queue.Valid() && Nonzero(checked) && s.detector == Final(FRESH_DETECTOR, checked)
    requires reading.Some? ==> reading.value.sessionId != 0 && reading.value.packetSequence != 0
    ensures Went(s, OnDatagram(s, bytes, reading, late).state, [bytes], SeenIn(reading),
                 DeliveryOps(checked, reading, late))
  {
    if reading.None? {
      NotedWent(s, OnDatagram(s, bytes, reading, late).state, [bytes], []);
    } else {
      var d := reading.value;
      Verdict(checked, Identity(d));
      var u := Checked(Noted(s, bytes), d);
      NotedWent(s, u, [bytes], [Identity(d)]);
      if IsNew(checked, Identity(d)) {
        DeliverWent(u, d, late);
        WentThen(s, u, Deliver(u, d, late).state, [bytes], [Identity(d)], [], [], [],
                 DeliveryOps(checked, reading, late));
        NothingAdded([bytes]);
        NothingAdded([Identity(d)]);
        NothingAdded(DeliveryOps(checked, reading, late));
      }
    }
  }

  function DatagramsOf(turn: Turn): seq<seq<u8>> {
    if turn.arrival.Datagram? then [turn.arrival.bytes] else []
  }

  lemma TurnWentReading(s: ReceiverState, turn: Turn, reading: Option<Decoded>)
    requires Kept(s) && !turn.arrival.SocketError? && (!turn.arrival.Datagram? ==> reading.None?)
    requires reading.Some? ==> reading.value.sessionId != 0 && reading.value.packetSequence != 0
    ensures Went(s, IterateReading(s, turn, reading).state, DatagramsOf(turn), SeenIn(reading),
                 TurnOps(s.checked, turn, reading))
  {
    var u := s.(queue := DrainAll(s.queue, turn.before));
    DrainedOnly(s, turn.before);
    if turn.arrival.Datagram? {
      var bytes, ops := turn.arrival.bytes, DeliveryOps(s.checked, reading, turn.late);
      DatagramWent(u, s.checked, bytes, reading, turn.late);
      WentThen(s, u, OnDatagram(u, bytes, reading, turn.late).state, [], [], DrainOps(turn.before), [bytes],
               SeenIn(reading), ops);
      NothingAdded([bytes]);
      NothingAdded(SeenIn(reading));
    } else {
      NothingAdded(DrainOps(turn.before));
    }
  }

  lemma TurnWent(s: ReceiverState, turn: Turn)
    requires Going(s) && !turn.arrival.SocketError?
    ensures var it := Iterate(s, turn);
      && it.again && Going(it.state)
      && Went(s, it.state, DatagramsOf(turn), SeenIn(ReadingOf(turn)), TurnOps(s.checked, turn, ReadingOf(turn)))
  {
    TurnEnds(s, turn);
    ReadingIsNonzero(turn);
    IterateKeeps(s, turn);
    TurnWentReading(s, turn, ReadingOf(turn));
    StillOpen(s, Iterate(s, turn).state, TurnOps(s.checked, turn, ReadingOf(turn)));
  }

  /** Draining and publishing never close. */
  ghost predicate NoClosure(ops: seq<Op>) {
    forall i :: 0 <= i < |ops| ==> ops[i] != CloseOp
  }

  lemma {:induction false} OpenStaysOpen(q: Queue, ops: seq<Op>)
    requires q.Valid() && !q.closed && NoClosure(ops)
    ensures !Run(q, ops).closed
    decreases |ops|
  {
    if ops != [] {
      assert ops[0] != CloseOp;
      OpenStaysOpen(Apply(q, ops[0]), ops[1..]);
    }
  }

  lemma {:induction false} DrainsNeverClose(drains: seq<Drain>)
    ensures NoClosure(DrainOps(drains))
    decreases |drains|
  {
    if drains != [] { DrainsNeverClose(drains[1..]); }
  }

  lemma StillOpen(s: ReceiverState, t: ReceiverState, ops: seq<Op>)
    requires s.queue.Valid() && !s.queue.closed && t.queue == Run(s.queue, ops)
    requires exists turn: Turn, reading: Option<Decoded> :: ops == TurnOps(s.checked, turn, reading)
    ensures !t.queue.closed
  {
    var turn, reading :| ops == TurnOps(s.checked, turn, reading);
    DrainsNeverClose(turn.before);
    DrainsNeverClose(turn.late);
    OpenStaysOpen(s.queue, ops);
  }

  /** The state after the turns of a script, none of which ends the run. */
  function Turns(s: ReceiverState, script: seq<Turn>): ReceiverState
    requires s.queue.Valid()
    decreases |script|
  {
    if script == [] then s
    else
      IterateKeepsQueue(s, script[0]);
      Turns(Iterate(s, script[0]).state, script[1..])
  }

  predicate NoSocketError(script: seq<Turn>) {
    forall j :: 0 <= j < |script| ==> !script[j].arrival.SocketError?
  }

  /** An open receiver takes every turn until the socket breaks: it hears every datagram, shows every
      packet to the detector, and does to egress exactly what the new packets call for. */
  lemma {:induction false} TurnsWent(s: ReceiverState, script: seq<Turn>)
    requires Going(s) && NoSocketError(script)
    ensures Going(Turns(s, script))
    ensures Went(s, Turns(s, script), Datagrams(script), Identities(script), EgressOps(s.checked, script))
    decreases |script|
  {
    if script == [] {
      NotedWent(s, s, [], []);
    } else {
      TurnWent(s, script[0]);
      var u := Iterate(s, script[0]).state;
      TurnsWent(u, script[1..]);
      WentThen(s, u, Turns(u, script[1..]),
               DatagramsOf(script[0]), SeenIn(ReadingOf(script[0])),
               TurnOps(s.checked, script[0], ReadingOf(script[0])),
               Datagrams(script[1..]), Identities(script[1..]), EgressOps(u.checked, script[1..]));
    }
  }

  lemma {:induction false} RunThrough(s: ReceiverState, script: seq<Turn>, more: seq<Turn>)
    requires Going(s) && NoSocketError(script)
    ensures Turns(s, script).queue.Valid()
    ensures RunAll(s, script + more) == RunAll(Turns(s, script), more)
    decreases |script|
  {
    if script == [] {
      assert script + more == more;
    } else {
      TurnWent(s, script[0]);
      assert (script + more)[0] == script[0] && (script + more)[1..] == script[1..] + more;
      RunThrough(Iterate(s, script[0]).state, script[1..], more);
    }
  }

  /** A receiver that nothing has stopped, on an open egress, for every script without a socket error:
      it ends only when told to; it has read exactly the datagrams delivered, shown exactly the packets
      among them to the detector, and put into egress, in order, exactly the events of the packets that
      were new by what came before and met room; and its counters tell the answers apart. */
  lemma ReceiverIsFilter(s: ReceiverState, script: seq<Turn>)
    requires Going(s) && NoSocketError(script)
    ensures var t, ops := RunAll(s, script), EgressOps(s.checked, script);
      && t.stopRequested && t.queue == Run(s.queue, ops).Close()
      && t.heard == s.heard + Datagrams(script) && t.checked == s.checked + Identities(script)
      && t.queue.published == s.queue.published + PublishedEvents(ops, Answers(s.queue, ops))
      && AnswersCounted(s.stats, t.stats, Answers(s.queue, ops))
      && t.stats.packetsReceived == s.stats.packetsReceived + |Datagrams(script)|
  {
    RunThrough(s, script, []);
    assert script + [] == script;
    TurnsWent(s, script);
    AnswersTellAll(s.queue, EgressOps(s.checked, script));
  }

  /** The first socket error ends the run there and then: everything before it was handled, nothing
      after it is, the error is counted, and the stop flag is left alone. */
  lemma SocketErrorEnds(s: ReceiverState, script: seq<Turn>, bad: Turn, rest: seq<Turn>)
    requires Going(s) && NoSocketError(script) && bad.arrival.SocketError?
    ensures var u, t := Turns(s, script), RunAll(s, script + ([bad] + rest));
      && Going(u) && Went(s, u, Datagrams(script), Identities(script), EgressOps(s.checked, script))
      && t.heard == u.heard && t.checked == u.checked && !t.stopRequested && t.queue.closed
      && t.queue.published == u.queue.published
      && t.stats == u.stats.(receiveErrors := u.stats.receiveErrors + 1)
  {
    RunThrough(s, script, [bad] + rest);
    TurnsWent(s, script);
    EndsAtOnce(Turns(s, script), [bad] + rest);
  }

  lemma EndsAtOnce(u: ReceiverState, script: seq<Turn>)
    requires u.queue.Valid() && !u.stopRequested && script != [] && script[0].arrival.SocketError?
    ensures RunAll(u, script) == u.(queue := DrainAll(u.queue, script[0].before).Close(),
                                   stats := u.stats.(receiveErrors := u.stats.receiveErrors + 1))
  {
    IterateKeepsQueue(u, script[0]);
  }
}
