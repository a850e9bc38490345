/** Delivery and accounting of the receiver over any number of runs. */
module ReceiverTheorems {
  import opened Bits
  import opened Events
  import opened Codec
  import opened Statistics
  import opened GapDetection
  import opened Receiving

  const FRESH_DETECTOR := Detector(0, 0)

  /** Counters against the packets checked and the events published. */
  ghost predicate Counted(s: Stats, checked: seq<PacketId>, published: nat) {
    var reports := Reports(FRESH_DETECTOR, checked);
    && s.packetsReceived == s.malformedPackets + |checked|
    && s.eventsIn == StatusCount(reports, Accepted)
    && s.duplicateOrOld == StatusCount(reports, DuplicateOrOld)
    && s.wrongSession == StatusCount(reports, WrongSession)
    && s.gapsDetected == GapCount(reports) && s.packetsMissed == TotalGap(reports)
    && s.eventsOut == published
    && s.eventsIn == s.eventsOut + s.egressFull + s.egressErrors
    && s.eventsDropped == s.duplicateOrOld + s.wrongSession + s.egressFull + s.egressErrors
  }

  /** A datagram that was received brought this event under this sequence of the pinned session. */
  ghost predicate Brought(heard: seq<seq<u8>>, detector: Detector, sequence: u64, event: Event) {
    && 1 <= sequence <= detector.lastSequence
    && exists bytes :: bytes in heard && Decode(bytes) == Ok(Decoded(detector.activeSession, sequence, event))
  }

  /** Egress events came, with rising sequence numbers, from datagrams that were received. */
  ghost predicate CarriedOk(s: ReceiverState) {
    && |s.carried| == |s.queue.published|
    && Increasing(s.carried)
    && (forall i :: 0 <= i < |s.carried| ==> Brought(s.heard, s.detector, s.carried[i], s.queue.published[i]))
  }

  ghost predicate Kept(s: ReceiverState) {
    && s.queue.Valid()
    && Nonzero(s.checked) && s.detector == Final(FRESH_DETECTOR, s.checked) && s.detector.Sound()
    && CarriedOk(s)
    && Counted(s.stats, s.checked, |s.queue.published|)
  }

  predicate FreshReceiver(s: ReceiverState) {
    && s.queue.Valid() && s.queue.published == [] && s.detector == FRESH_DETECTOR && !s.stopRequested
    && s.stats == NO_STATS && s.carried == [] && s.heard == [] && s.checked == []
  }

  lemma FreshKept(s: ReceiverState)
    requires FreshReceiver(s)
    ensures Kept(s)
  {
  }

  /** A checked packet moves the detector along its recorded run. */
  lemma CheckedOneMore(checked: seq<PacketId>, detector: Detector, id: PacketId)
    requires Nonzero(checked) && detector == Final(FRESH_DETECTOR, checked) && detector.Sound()
    requires id.sessionId != 0 && id.sequence != 0
    ensures Nonzero(checked + [id])
    ensures detector.After(id.sessionId, id.sequence) == Final(FRESH_DETECTOR, checked + [id])
    ensures detector.After(id.sessionId, id.sequence).Sound()
    ensures Reports(FRESH_DETECTOR, checked + [id]) ==
      Reports(FRESH_DETECTOR, checked) + [detector.Report(id.sessionId, id.sequence)]
  {
    RunSnoc(FRESH_DETECTOR, checked, id);
    CheckCovers(detector, id.sessionId, id.sequence);
  }

  /** The counters that one more check moves. */
  lemma CountsOneMore(reports: seq<CheckResult>, r: CheckResult)
    ensures forall status: PacketStatus {:trigger StatusCount(reports + [r], status)} ::
      StatusCount(reports + [r], status) == StatusCount(reports, status) + (if r.status == status then 1 else 0)
    ensures GapCount(reports + [r]) == GapCount(reports) + (if r.gap > 0 then 1 else 0)
    ensures TotalGap(reports + [r]) == TotalGap(reports) + r.gap
  {
    forall status: PacketStatus
      ensures StatusCount(reports + [r], status) == StatusCount(reports, status) + (if r.status == status then 1 else 0)
    {
      CountsSnoc(reports, r, status);
    }
    CountsSnoc(reports, r, Accepted);
  }

  /** A packet turned away by the detector. */
  lemma RejectKeepsCounted(before: Stats, checked: seq<PacketId>, published: nat, detector: Detector, id: PacketId)
    requires Counted(before, checked, published)
    requires Nonzero(checked) && detector == Final(FRESH_DETECTOR, checked) && detector.Sound()
    requires id.sessionId != 0 && id.sequence != 0
    requires !detector.Status(id.sessionId, id.sequence).Accepted?
    ensures Counted(AdmittedStats(CountReceived(before), detector.Report(id.sessionId, id.sequence)), checked + [id],
                    published)
  {
    CheckedOneMore(checked, detector, id);
    CountsOneMore(Reports(FRESH_DETECTOR, checked), detector.Report(id.sessionId, id.sequence));
    CheckCovers(detector, id.sessionId, id.sequence);
  }

  /** The counters after an accepted packet whose event met this answer from egress. */
  function DeliveredStats(before: Stats, report: CheckResult, result: PublishResult): Stats {
    PublishedStats(AdmittedStats(CountReceived(before), report), result)
  }

  lemma AcceptKeepsCounted(before: Stats, checked: seq<PacketId>, published: nat, detector: Detector, id: PacketId,
                           result: PublishResult)
    requires Counted(before, checked, published)
    requires Nonzero(checked) && detector == Final(FRESH_DETECTOR, checked) && detector.Sound()
    requires id.sessionId != 0 && id.sequence != 0
    requires detector.Status(id.sessionId, id.sequence).Accepted?
    ensures Counted(DeliveredStats(before, detector.Report(id.sessionId, id.sequence), result), checked + [id],
                    if result.Published? then published + 1 else published)
  {
    CheckedOneMore(checked, detector, id);
    CountsOneMore(Reports(FRESH_DETECTOR, checked), detector.Report(id.sessionId, id.sequence));
  }

  /** What was brought stays brought while the detector moves on within its session. */
  lemma BroughtStays(heard: seq<seq<u8>>, more: seq<seq<u8>>, before: Detector, after: Detector, sequence: u64,
                     event: Event)
    requires Brought(heard, before, sequence, event) && heard <= more
    requires after.activeSession == before.activeSession && before.lastSequence <= after.lastSequence
    ensures Brought(more, after, sequence, event)
  {
    var b :| b in heard && Decode(b) == Ok(Decoded(before.activeSession, sequence, event));
    assert b in more;
  }

  /** Nothing went to egress, but more was heard and the detector may have moved. */
  lemma CarryNoMore(s: ReceiverState, t: ReceiverState)
    requires CarriedOk(s) && s.heard <= t.heard
    requires s.detector.Sound() && s.detector.lastSequence <= t.detector.lastSequence
    requires s.detector.activeSession != 0 ==> t.detector.activeSession == s.detector.activeSession
    requires t.carried == s.carried && t.queue.published == s.queue.published
    ensures CarriedOk(t)
  {
    forall i | 0 <= i < |t.carried| ensures Brought(t.heard, t.detector, t.carried[i], t.queue.published[i]) {
      assert Brought(s.heard, s.detector, s.carried[i], s.queue.published[i]);
      BroughtStays(s.heard, t.heard, s.detector, t.detector, s.carried[i], s.queue.published[i]);
    }
  }

  /** The next accepted packet's event goes to the end of egress. */
  lemma CarryOneMore(s: ReceiverState, t: ReceiverState, sequence: u64, event: Event)
    requires CarriedOk(s) && s.heard <= t.heard
    requires s.detector.Sound() && s.detector.lastSequence < sequence == t.detector.lastSequence
    requires s.detector.activeSession != 0 ==> t.detector.activeSession == s.detector.activeSession
    requires Brought(t.heard, t.detector, sequence, event)
    requires t.carried == s.carried + [sequence] && t.queue.published == s.queue.published + [event]
    ensures CarriedOk(t)
  {
    forall i | 0 <= i < |t.carried| ensures Brought(t.heard, t.detector, t.carried[i], t.queue.published[i]) {
      if i < |s.carried| {
        assert Brought(s.heard, s.detector, s.carried[i], s.queue.published[i]);
        BroughtStays(s.heard, t.heard, s.detector, t.detector, s.carried[i], s.queue.published[i]);
      }
    }
    forall i, j | 0 <= i < j < |t.carried| ensures t.carried[i] < t.carried[j] {
      assert Brought(s.heard, s.detector, s.carried[i], s.queue.published[i]);
    }
  }

  /** How the state looks after a datagram that decoded to `d` was handled, and its event, if it got
      that far, met this answer from egress. */
  ghost predicate Handled(s: ReceiverState, t: ReceiverState, d: Decoded, bytes: seq<u8>, result: PublishResult) {
    var id := PacketId(d.sessionId, d.packetSequence);
    var report := s.detector.Report(id.sessionId, id.sequence);
    && t.queue.Valid() && t.detector == s.detector.After(id.sessionId, id.sequence)
    && t.checked == s.checked + [id] && t.heard == s.heard + [bytes]
    && (if report.status.Accepted? && result.Published?
        then t.carried == s.carried + [d.packetSequence] && t.queue.published == s.queue.published + [d.event]
        else t.carried == s.carried && t.queue.published == s.queue.published)
    && t.stats == if report.status.Accepted? then DeliveredStats(s.stats, report, result)
                  else AdmittedStats(CountReceived(s.stats), report)
  }

  lemma HandledKeepsCarried(s: ReceiverState, t: ReceiverState, d: Decoded, bytes: seq<u8>, result: PublishResult)
    requires CarriedOk(s) && s.detector.Sound() && Decode(bytes) == Ok(d) && Handled(s, t, d, bytes, result)
    requires d.sessionId != 0 && d.packetSequence != 0
    ensures CarriedOk(t)
  {
    CheckCovers(s.detector, d.sessionId, d.packetSequence);
    if t.carried == s.carried {
      CarryNoMore(s, t);
    } else {
      assert bytes == t.heard[|s.heard|];
      CarryOneMore(s, t, d.packetSequence, d.event);
    }
  }

  lemma HandledKeepsCounted(s: ReceiverState, t: ReceiverState, d: Decoded, bytes: seq<u8>, result: PublishResult)
    requires Counted(s.stats, s.checked, |s.queue.published|) && Handled(s, t, d, bytes, result)
    requires Nonzero(s.checked) && s.detector == Final(FRESH_DETECTOR, s.checked) && s.detector.Sound()
    requires d.sessionId != 0 && d.packetSequence != 0
    ensures Counted(t.stats, t.checked, |t.queue.published|)
  {
    var id := PacketId(d.sessionId, d.packetSequence);
    var published := |s.queue.published|;
    if s.detector.Status(id.sessionId, id.sequence).Accepted? {
      AcceptKeepsCounted(s.stats, s.checked, published, s.detector, id, result);
    } else {
      RejectKeepsCounted(s.stats, s.checked, published, s.detector, id);
    }
  }

  lemma HandledKeeps(s: ReceiverState, t: ReceiverState, d: Decoded, bytes: seq<u8>, result: PublishResult)
    requires Kept(s) && Decode(bytes) == Ok(d) && Handled(s, t, d, bytes, result)
    ensures Kept(t)
  {
    Canonical(bytes);
    CheckedOneMore(s.checked, s.detector, PacketId(d.sessionId, d.packetSequence));
    HandledKeepsCarried(s, t, d, bytes, result);
    HandledKeepsCounted(s, t, d, bytes, result);
  }

  lemma CheckIsHandled(s: ReceiverState, u: ReceiverState, d: Decoded, bytes: seq<u8>, late: seq<Drain>)
    returns (result: PublishResult)
    requires s.queue.Valid() && u.queue.Valid() && u.queue.published == s.queue.published
    requires u == s.(queue := u.queue, heard := s.heard + [bytes], stats := CountReceived(s.stats))
    ensures Handled(s, CheckAndDeliver(u, d, late).state, d, bytes, result)
  {
    CheckKeepsQueue(u, d, late);
    result := DrainAll(u.queue, late).PublishCode(d.event);
  }

  /** An iteration that shows the detector nothing. */
  lemma UncheckedKeeps(s: ReceiverState, t: ReceiverState)
    requires Kept(s) && t.queue.Valid() && t.queue.published == s.queue.published
    requires t.detector == s.detector && t.checked == s.checked && t.carried == s.carried && s.heard <= t.heard
    requires
      || t.stats == s.stats
      || t.stats == s.stats.(receiveErrors := s.stats.receiveErrors + 1)
      || t.stats == CountMalformed(CountReceived(s.stats))
    ensures Kept(t)
  {
    CarryNoMore(s, t);
  }

  /** The state in which a decoded datagram is looked at. */
  function Heard(s: ReceiverState, turn: Turn): ReceiverState
    requires s.queue.Valid() && turn.arrival.Datagram?
  {
    Noted(s.(queue := DrainAll(s.queue, turn.before)), turn.arrival.bytes)
  }

  lemma DatagramKeeps(s: ReceiverState, turn: Turn, d: Decoded)
    requires Kept(s) && turn.arrival.Datagram? && Decode(turn.arrival.bytes) == Ok(d)
    ensures Kept(CheckAndDeliver(Heard(s, turn), d, turn.late).state)
  {
    var bytes, u := turn.arrival.bytes, Heard(s, turn);
    var result := CheckIsHandled(s, u, d, bytes, turn.late);
    HandledKeeps(s, CheckAndDeliver(u, d, turn.late).state, d, bytes, result);
  }

  lemma UnreadKeeps(s: ReceiverState, turn: Turn)
    requires Kept(s)
    ensures Kept(IterateReading(s, turn, None).state)
  {
    UncheckedKeeps(s, IterateReading(s, turn, None).state);
  }

  lemma ReadingKeeps(s: ReceiverState, turn: Turn, reading: Option<Decoded>)
    requires Kept(s)
    requires turn.arrival.Datagram? && reading.Some? ==> Decode(turn.arrival.bytes) == Ok(reading.value)
    ensures Kept(IterateReading(s, turn, reading).state)
  {
    if turn.arrival.Datagram? && reading.Some? {
      DatagramKeeps(s, turn, reading.value);
    } else {
      UnreadKeeps(s, turn);
    }
  }

  lemma IterateKeeps(s: ReceiverState, turn: Turn)
    requires Kept(s)
    ensures Kept(Iterate(s, turn).state)
  {
    ReadingKeeps(s, turn, if turn.arrival.Datagram? then Reading(turn.arrival.bytes) else None);
  }

  lemma {:induction false} RunKeeps(s: ReceiverState, script: seq<Turn>)
    requires Kept(s)
    ensures Kept(RunAll(s, script)) && RunAll(s, script).queue.closed
    decreases |script|
  {
    if !s.stopRequested && script != [] {
      IterateKeepsQueue(s, script[0]);
      IterateKeeps(s, script[0]);
      var it := Iterate(s, script[0]);
      if it.again { RunKeeps(it.state, script[1..]); }
    }
  }

  /** Several calls to run, one after the other. */
  function RunMany(s: ReceiverState, scripts: seq<seq<Turn>>): ReceiverState
    requires s.queue.Valid()
    decreases |scripts|
  {
    if scripts == [] then s
    else
      RunKeepsQueue(s, scripts[0]);
      RunMany(RunAll(s, scripts[0]), scripts[1..])
  }

  lemma {:induction false} RunKeepsQueue(s: ReceiverState, script: seq<Turn>)
    requires s.queue.Valid()
    ensures RunAll(s, script).queue.Valid()
    decreases |script|
  {
    if !s.stopRequested && script != [] {
      IterateKeepsQueue(s, script[0]);
      var it := Iterate(s, script[0]);
      if it.again { RunKeepsQueue(it.state, script[1..]); }
    }
  }

  lemma {:induction false} RunManyKeeps(s: ReceiverState, scripts: seq<seq<Turn>>)
    requires Kept(s)
    ensures Kept(RunMany(s, scripts))
    decreases |scripts|
  {
    if scripts != [] {
      RunKeeps(s, scripts[0]);
      RunManyKeeps(RunAll(s, scripts[0]), scripts[1..]);
    }
  }

  /** Over any number of runs, whatever arrives and however egress is drained: the counters add up,
      missed plus accepted packets are exactly the sequences passed (so neither of those two counters
      ever wraps), and egress holds one event for each packet counted as delivered. */
  lemma ReceiverRecord(s: ReceiverState, scripts: seq<seq<Turn>>)
    requires FreshReceiver(s)
    ensures var t := RunMany(s, scripts);
      && t.stats.packetsReceived ==
           t.stats.malformedPackets + t.stats.duplicateOrOld + t.stats.wrongSession + t.stats.eventsIn
      && t.stats.eventsIn == t.stats.eventsOut + t.stats.egressFull + t.stats.egressErrors
      && t.stats.eventsDropped ==
           t.stats.duplicateOrOld + t.stats.wrongSession + t.stats.egressFull + t.stats.egressErrors
      && t.stats.packetsMissed + t.stats.eventsIn == t.detector.lastSequence
      && t.stats.eventsOut == |t.queue.published| == |t.carried|
      && Increasing(t.carried)
  {
    FreshKept(s);
    RunManyKeeps(s, scripts);
    var t := RunMany(s, scripts);
    AcceptedRise(FRESH_DETECTOR, t.checked);
    StatusesCover(FRESH_DETECTOR, t.checked);
  }

  /** Every report carries one of the three statuses, and acceptances are the accepted sequences. */
  lemma {:induction false} StatusesCover(d: Detector, packets: seq<PacketId>)
    ensures var reports := Reports(d, packets);
      && StatusCount(reports, Accepted) + StatusCount(reports, DuplicateOrOld) + StatusCount(reports, WrongSession) ==
        |packets|
      && StatusCount(reports, Accepted) == |AcceptedSequences(d, packets)|
    decreases |packets|
  {
    if packets != [] {
      var e := d.After(packets[0].sessionId, packets[0].sequence);
      StatusesCover(e, packets[1..]);
      assert Reports(d, packets)[1..] == Reports(e, packets[1..]);
    }
  }
}
