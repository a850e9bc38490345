/** Sequencing and accounting of the sender over any number of runs. */
module SenderTheorems {
  import opened Bits
  import opened Events
  import opened Codec
  import opened Queues
  import opened Statistics
  import opened Sending

  /** The positions in [lo, hi) whose events the wire format can carry. */
  function EncodablePositions(published: seq<Event>, lo: nat, hi: nat, limit: nat): (r: seq<nat>)
    requires lo <= hi <= |published|
    ensures forall p :: p in r <==> lo <= p < hi && Encodable(published[p], limit)
    ensures forall i, j :: 0 <= i < j < |r| ==> r[i] < r[j]
    ensures |r| <= hi - lo
    decreases hi - lo
  {
    if lo == hi then []
    else
      var shorter := EncodablePositions(published, lo, hi - 1, limit);
      assert forall i :: 0 <= i < |shorter| ==> shorter[i] in shorter;
      shorter + (if Encodable(published[hi - 1], limit) then [hi - 1] else [])
  }

  lemma PositionsSnoc(published: seq<Event>, lo: nat, hi: nat, limit: nat)
    requires lo < hi <= |published|
    ensures EncodablePositions(published, lo, hi, limit) ==
      EncodablePositions(published, lo, hi - 1, limit) + (if Encodable(published[hi - 1], limit) then [hi - 1] else [])
  {
  }

  lemma {:induction false} PositionsStable(a: seq<Event>, b: seq<Event>, lo: nat, hi: nat, limit: nat)
    requires lo <= hi <= |a| && a <= b
    ensures EncodablePositions(a, lo, hi, limit) == EncodablePositions(b, lo, hi, limit)
    decreases hi - lo
  {
    if lo < hi {
      PositionsStable(a, b, lo, hi - 1, limit);
      PositionsSnoc(a, lo, hi, limit);
      PositionsSnoc(b, lo, hi, limit);
      assert a[hi - 1] == b[hi - 1];
    }
  }

  function TotalSuccesses(wire: seq<seq<Offer>>): nat {
    if wire == [] then 0 else TotalSuccesses(wire[..|wire| - 1]) + Successes(wire[|wire| - 1])
  }

  function FanOutsSent(wire: seq<seq<Offer>>): nat {
    if wire == [] then 0
    else FanOutsSent(wire[..|wire| - 1]) + (if Successes(wire[|wire| - 1]) > 0 then 1 else 0)
  }

  /** Packet k + 1 was offered to every destination, in order, with identical bytes: the encoding of
      the event at position numbered[k] under sequence number k + 1. */
  ghost predicate WireOk(cfg: SenderConfig, published: seq<Event>, sessionId: u32, wire: seq<seq<Offer>>,
                         numbered: seq<nat>) {
    && |wire| == |numbered| <= U64_MAX
    && forall k :: 0 <= k < |wire| ==> FanOutOk(cfg, published, sessionId, wire[k], numbered[k], k + 1)
  }

  ghost predicate FanOutOk(cfg: SenderConfig, published: seq<Event>, sessionId: u32, offers: seq<Offer>,
                           position: nat, sequence: u64) {
    && position < |published| && Encodable(published[position], cfg.limit)
    && |offers| == cfg.destinations
    && forall d :: 0 <= d < |offers| ==>
         offers[d].destination == d && offers[d].bytes == Packet(published[position], sessionId, sequence)
  }

  /** Counters against what happened: events handled, fan-outs made, sends that succeeded. */
  predicate Counted(destinations: nat, stats: Stats, handled: nat, wire: seq<seq<Offer>>) {
    && stats.eventsIn == handled
    && stats.encodeErrors == handled - |wire|
    && stats.eventsOut == FanOutsSent(wire)
    && stats.eventsIn == stats.eventsOut + stats.eventsDropped
    && stats.packetsSent == TotalSuccesses(wire)
    && stats.packetsSent + stats.sendErrors == destinations * |wire|
    && stats.ingressErrors == 0
  }

  /** The next sequence number is one more than the numbers used; the last number ends the session. */
  predicate NumberingOk(s: SenderState) {
    if |s.numbered| < U64_MAX then s.packetSequence == |s.numbered| + 1
    else s.packetSequence == U64_MAX && s.stopRequested
  }

  /** What is true of a sender that started at ingress position `first`, between any two iterations. */
  ghost predicate Accounted(cfg: SenderConfig, first: nat, s: SenderState) {
    RecordOk(cfg, first, s) && Counted(cfg.destinations, s.stats, s.queue.released - first, s.wire)
  }

  ghost predicate RecordOk(cfg: SenderConfig, first: nat, s: SenderState) {
    && s.queue.Valid() && !s.queue.held && first <= s.queue.released && s.sessionId != 0
    && s.numbered == EncodablePositions(s.queue.published, first, s.queue.released, cfg.limit)
    && WireOk(cfg, s.queue.published, s.sessionId, s.wire, s.numbered)
    && NumberingOk(s)
  }

  /** A sender as initialize leaves it, attached at the current read position. */
  predicate FreshSender(s: SenderState) {
    && s.queue.Valid() && !s.queue.held && s.sessionId != 0 && s.packetSequence == 1 && !s.stopRequested
    && s.stats == NO_STATS && s.wire == [] && s.numbered == []
  }

  lemma FreshAccounted(cfg: SenderConfig, s: SenderState)
    requires FreshSender(s)
    ensures Accounted(cfg, s.queue.released, s)
  {
  }

  lemma WireStable(cfg: SenderConfig, a: seq<Event>, b: seq<Event>, sessionId: u32, wire: seq<seq<Offer>>,
                   numbered: seq<nat>)
    requires WireOk(cfg, a, sessionId, wire, numbered) && a <= b
    ensures WireOk(cfg, b, sessionId, wire, numbered)
  {
    forall k | 0 <= k < |wire| ensures FanOutOk(cfg, b, sessionId, wire[k], numbered[k], k + 1) {
      assert FanOutOk(cfg, a, sessionId, wire[k], numbered[k], k + 1);
    }
  }

  lemma WireExtends(cfg: SenderConfig, published: seq<Event>, sessionId: u32, wire: seq<seq<Offer>>, numbered: seq<nat>,
                    offers: seq<Offer>, position: nat)
    requires WireOk(cfg, published, sessionId, wire, numbered) && |wire| < U64_MAX
    requires FanOutOk(cfg, published, sessionId, offers, position, |wire| + 1)
    ensures WireOk(cfg, published, sessionId, wire + [offers], numbered + [position])
  {
    var longer, positions := wire + [offers], numbered + [position];
    forall k | 0 <= k < |longer| ensures FanOutOk(cfg, published, sessionId, longer[k], positions[k], k + 1) {
      if k < |wire| {
        assert FanOutOk(cfg, published, sessionId, wire[k], numbered[k], k + 1);
        assert longer[k] == wire[k] && positions[k] == numbered[k];
      } else {
        assert longer[k] == offers && positions[k] == position;
      }
    }
  }

  lemma TotalsExtend(wire: seq<seq<Offer>>, offers: seq<Offer>)
    ensures TotalSuccesses(wire + [offers]) == TotalSuccesses(wire) + Successes(offers)
    ensures FanOutsSent(wire + [offers]) == FanOutsSent(wire) + (if Successes(offers) > 0 then 1 else 0)
  {
    assert (wire + [offers])[..|wire|] == wire;
  }

  /** Whatever the producer adds, the sender's own record stays right. */
  lemma FeedKeepsAccounted(cfg: SenderConfig, first: nat, s: SenderState, q: Queue)
    requires Accounted(cfg, first, s) && q.Valid() && !q.held
    requires s.queue.published <= q.published && q.released == s.queue.released
    ensures Accounted(cfg, first, s.(queue := q))
  {
    PositionsStable(s.queue.published, q.published, first, q.released, cfg.limit);
    WireStable(cfg, s.queue.published, q.published, s.sessionId, s.wire, s.numbered);
  }

  lemma HandleQueue(cfg: SenderConfig, s: SenderState, turn: Turn)
    requires s.queue.Valid() && !s.queue.held && s.queue.released < |s.queue.published|
    ensures var event := s.queue.published[s.queue.released];
      var t := Handle(cfg, s.(queue := s.queue.Acquire()), event, turn);
      && t.queue.Valid() && !t.queue.held && t.queue.released == s.queue.released + 1
      && s.queue.published <= t.queue.published && t.sessionId == s.sessionId
      && FeedAll(s.queue.Acquire(), turn.held).released == s.queue.released
  {
  }

  lemma SkipKeepsRecord(cfg: SenderConfig, first: nat, s: SenderState, t: SenderState)
    requires RecordOk(cfg, first, s) && t.queue.Valid() && !t.queue.held
    requires s.queue.published <= t.queue.published && t.queue.released == s.queue.released + 1
    requires s.queue.released < |t.queue.published| && !Encodable(t.queue.published[s.queue.released], cfg.limit)
    requires t.wire == s.wire && t.numbered == s.numbered && t.sessionId == s.sessionId
    requires t.packetSequence == s.packetSequence && t.stopRequested == s.stopRequested
    ensures RecordOk(cfg, first, t)
  {
    SkipKeepsPositions(s.queue.published, t.queue.published, first, s.queue.released, cfg.limit);
    WireStable(cfg, s.queue.published, t.queue.published, s.sessionId, s.wire, s.numbered);
  }

  lemma SkipKeepsPositions(a: seq<Event>, b: seq<Event>, first: nat, p: nat, limit: nat)
    requires first <= p <= |a| && a <= b && p < |b| && !Encodable(b[p], limit)
    ensures EncodablePositions(b, first, p + 1, limit) == EncodablePositions(a, first, p, limit)
  {
    PositionsStable(a, b, first, p, limit);
    PositionsSnoc(b, first, p + 1, limit);
  }

  /** An event that does not fit the wire format is counted and skipped; no number is used. */
  lemma SkipKeepsAccounted(cfg: SenderConfig, first: nat, s: SenderState, turn: Turn)
    requires cfg.Valid() && Accounted(cfg, first, s) && !s.stopRequested && s.queue.released < |s.queue.published|
    requires !Encodable(s.queue.published[s.queue.released], cfg.limit)
    ensures var event := s.queue.published[s.queue.released];
      Accounted(cfg, first, Handle(cfg, s.(queue := s.queue.Acquire()), event, turn))
  {
    var event := s.queue.published[s.queue.released];
    HandleQueue(cfg, s, turn);
    SkipKeepsRecord(cfg, first, s, Handle(cfg, s.(queue := s.queue.Acquire()), event, turn));
  }

  lemma OffersAreFanOut(cfg: SenderConfig, published: seq<Event>, position: nat, sessionId: u32, sequence: u64,
                        turn: Turn)
    requires position < |published| && Encodable(published[position], cfg.limit)
    ensures FanOutOk(cfg, published, sessionId,
                     Offers(Packet(published[position], sessionId, sequence), turn, 0, cfg.destinations),
                     position, sequence)
  {
  }

  /** What one more fan-out does to the counters. */
  predicate SentStats(before: Stats, after: Stats, offers: seq<Offer>) {
    var n := Successes(offers);
    && after.eventsIn == before.eventsIn + 1
    && after.packetsSent == before.packetsSent + n
    && after.sendErrors == before.sendErrors + |offers| - n
    && after.eventsOut == before.eventsOut + (if n > 0 then 1 else 0)
    && after.eventsDropped == before.eventsDropped + (if n > 0 then 0 else 1)
    && after.encodeErrors == before.encodeErrors && after.ingressErrors == before.ingressErrors
  }

  /** What one more fan-out does to every part of the state. */
  ghost predicate Sent(cfg: SenderConfig, s: SenderState, t: SenderState, offers: seq<Offer>) {
    var p := s.queue.released;
    && t.queue.Valid() && !t.queue.held && t.queue.released == p + 1 && s.queue.published <= t.queue.published
    && p < |t.queue.published| && Encodable(t.queue.published[p], cfg.limit)
    && t.sessionId == s.sessionId && s.packetSequence != 0
    && t.wire == s.wire + [offers] && t.numbered == s.numbered + [p]
    && FanOutOk(cfg, t.queue.published, s.sessionId, offers, p, s.packetSequence)
    && SentStats(s.stats, t.stats, offers)
    && (if s.packetSequence == U64_MAX then t.packetSequence == U64_MAX && t.stopRequested
        else t.packetSequence == s.packetSequence + 1 && t.stopRequested == s.stopRequested)
  }

  lemma HandleSends(cfg: SenderConfig, s: SenderState, turn: Turn)
    requires cfg.Valid() && s.queue.Valid() && !s.queue.held && s.queue.released < |s.queue.published|
    requires s.sessionId != 0 && s.packetSequence != 0
    requires Encodable(s.queue.published[s.queue.released], cfg.limit)
    ensures var event := s.queue.published[s.queue.released];
      Sent(cfg, s, Handle(cfg, s.(queue := s.queue.Acquire()), event, turn),
           Offers(Packet(event, s.sessionId, s.packetSequence), turn, 0, cfg.destinations))
  {
    var p, event := s.queue.released, s.queue.published[s.queue.released];
    HandleQueue(cfg, s, turn);
    var t := Handle(cfg, s.(queue := s.queue.Acquire()), event, turn);
    assert t.queue.published[p] == event;
    OffersAreFanOut(cfg, t.queue.published, p, s.sessionId, s.packetSequence, turn);
  }

  lemma SentKeepsCounted(destinations: nat, before: Stats, after: Stats, handled: nat, wire: seq<seq<Offer>>,
                         offers: seq<Offer>)
    requires Counted(destinations, before, handled, wire) && |offers| == destinations
    requires SentStats(before, after, offers)
    ensures Counted(destinations, after, handled + 1, wire + [offers])
  {
    TotalsExtend(wire, offers);
    assert destinations * (|wire| + 1) == destinations * |wire| + destinations;
  }

  lemma NumberedExtends(a: seq<Event>, b: seq<Event>, first: nat, p: nat, limit: nat)
    requires first <= p <= |a| && a <= b && p < |b| && Encodable(b[p], limit)
    ensures EncodablePositions(b, first, p + 1, limit) == EncodablePositions(a, first, p, limit) + [p]
  {
    PositionsStable(a, b, first, p, limit);
    PositionsSnoc(b, first, p + 1, limit);
  }

  lemma SentKeepsWire(cfg: SenderConfig, s: SenderState, t: SenderState, offers: seq<Offer>)
    requires WireOk(cfg, s.queue.published, s.sessionId, s.wire, s.numbered) && |s.wire| < U64_MAX
    requires NumberingOk(s) && Sent(cfg, s, t, offers)
    ensures WireOk(cfg, t.queue.published, t.sessionId, t.wire, t.numbered)
  {
    WireStable(cfg, s.queue.published, t.queue.published, s.sessionId, s.wire, s.numbered);
    WireExtends(cfg, t.queue.published, s.sessionId, s.wire, s.numbered, offers, s.queue.released);
  }

  lemma SentKeepsPositions(cfg: SenderConfig, first: nat, s: SenderState, t: SenderState, offers: seq<Offer>)
    requires s.queue.Valid() && first <= s.queue.released && Sent(cfg, s, t, offers)
    requires s.numbered == EncodablePositions(s.queue.published, first, s.queue.released, cfg.limit)
    ensures t.numbered == EncodablePositions(t.queue.published, first, t.queue.released, cfg.limit)
  {
    NumberedExtends(s.queue.published, t.queue.published, first, s.queue.released, cfg.limit);
  }

  lemma SentKeepsRecord(cfg: SenderConfig, first: nat, s: SenderState, t: SenderState, offers: seq<Offer>)
    requires RecordOk(cfg, first, s) && !s.stopRequested && Sent(cfg, s, t, offers)
    ensures RecordOk(cfg, first, t)
  {
    SentKeepsNumbering(cfg, s, t, offers);
    SentKeepsPositions(cfg, first, s, t, offers);
    SentKeepsWire(cfg, s, t, offers);
  }

  lemma SentKeepsAccounted(cfg: SenderConfig, first: nat, s: SenderState, t: SenderState, offers: seq<Offer>)
    requires Accounted(cfg, first, s) && !s.stopRequested && Sent(cfg, s, t, offers)
    ensures Accounted(cfg, first, t)
  {
    SentKeepsRecord(cfg, first, s, t, offers);
    SentKeepsCounted(cfg.destinations, s.stats, t.stats, s.queue.released - first, s.wire, offers);
  }

  lemma SentKeepsNumbering(cfg: SenderConfig, s: SenderState, t: SenderState, offers: seq<Offer>)
    requires NumberingOk(s) && !s.stopRequested && Sent(cfg, s, t, offers)
    ensures NumberingOk(t)
  {
  }

  /** An event that fits goes out under the next number. */
  lemma SendKeepsAccounted(cfg: SenderConfig, first: nat, s: SenderState, turn: Turn)
    requires cfg.Valid() && Accounted(cfg, first, s) && !s.stopRequested && s.queue.released < |s.queue.published|
    requires Encodable(s.queue.published[s.queue.released], cfg.limit)
    ensures var event := s.queue.published[s.queue.released];
      Accounted(cfg, first, Handle(cfg, s.(queue := s.queue.Acquire()), event, turn))
  {
    var event := s.queue.published[s.queue.released];
    HandleSends(cfg, s, turn);
    SentKeepsAccounted(cfg, first, s, Handle(cfg, s.(queue := s.queue.Acquire()), event, turn),
                       Offers(Packet(event, s.sessionId, s.packetSequence), turn, 0, cfg.destinations));
  }

  lemma IterateKeepsAccounted(cfg: SenderConfig, first: nat, s: SenderState, turn: Turn)
    requires cfg.Valid() && Accounted(cfg, first, s) && !s.stopRequested
    ensures Accounted(cfg, first, Iterate(cfg, s, turn).state)
  {
    var q := FeedAll(s.queue, turn.before);
    FeedKeepsAccounted(cfg, first, s, q);
    var t := s.(queue := q);
    if q.released < |q.published| {
      if Encodable(q.published[q.released], cfg.limit) {
        SendKeepsAccounted(cfg, first, t, turn);
      } else {
        SkipKeepsAccounted(cfg, first, t, turn);
      }
    }
  }

  /** Any number of runs, under any producer, any send results and any stop time, keeps the record. */
  lemma {:induction false} RunKeepsAccounted(cfg: SenderConfig, first: nat, s: SenderState, script: seq<Turn>)
    requires cfg.Valid() && Accounted(cfg, first, s)
    ensures Accounted(cfg, first, RunAll(cfg, s, script))
    decreases |script|
  {
    if !s.stopRequested && script != [] {
      IterateKeepsQueue(cfg, s, script[0]);
      IterateKeepsAccounted(cfg, first, s, script[0]);
      var it := Iterate(cfg, s, script[0]);
      if it.again { RunKeepsAccounted(cfg, first, it.state, script[1..]); }
    }
  }

  /** Several calls to run, one after the other. */
  function RunMany(cfg: SenderConfig, s: SenderState, scripts: seq<seq<Turn>>): SenderState
    requires s.queue.Valid()
    decreases |scripts|
  {
    if scripts == [] then s
    else
      RunKeepsQueue(cfg, s, scripts[0]);
      RunMany(cfg, RunAll(cfg, s, scripts[0]), scripts[1..])
  }

  lemma {:induction false} RunKeepsQueue(cfg: SenderConfig, s: SenderState, script: seq<Turn>)
    requires s.queue.Valid()
    ensures RunAll(cfg, s, script).queue.Valid()
    decreases |script|
  {
    if !s.stopRequested && script != [] {
      IterateKeepsQueue(cfg, s, script[0]);
      var it := Iterate(cfg, s, script[0]);
      if it.again { RunKeepsQueue(cfg, it.state, script[1..]); }
    }
  }

  lemma {:induction false} RunManyKeepsAccounted(cfg: SenderConfig, first: nat, s: SenderState, scripts: seq<seq<Turn>>)
    requires cfg.Valid() && Accounted(cfg, first, s)
    ensures Accounted(cfg, first, RunMany(cfg, s, scripts))
    decreases |scripts|
  {
    if scripts != [] {
      RunKeepsAccounted(cfg, first, s, scripts[0]);
      RunKeepsQueue(cfg, s, scripts[0]);
      RunManyKeepsAccounted(cfg, first, RunAll(cfg, s, scripts[0]), scripts[1..]);
    }
  }

  /** Over any number of runs: the events that fit are numbered 1, 2, 3, ... without gap or reuse,
      every destination is offered the same bytes, those bytes decode to the event and its number,
      and the counters agree with what happened. */
  lemma SenderRecord(cfg: SenderConfig, s: SenderState, scripts: seq<seq<Turn>>)
    requires cfg.Valid() && FreshSender(s)
    ensures var t := RunMany(cfg, s, scripts);
      && t.queue.Valid() && s.queue.released <= t.queue.released && t.sessionId == s.sessionId
      && t.numbered == EncodablePositions(t.queue.published, s.queue.released, t.queue.released, cfg.limit)
      && |t.wire| == |t.numbered|
      && (forall k, d :: 0 <= k < |t.wire| && 0 <= d < cfg.destinations ==>
            && |t.wire[k]| == cfg.destinations && t.wire[k][d].destination == d
            && t.numbered[k] < |t.queue.published|
            && Decode(t.wire[k][d].bytes) == Ok(Decoded(s.sessionId, k + 1, t.queue.published[t.numbered[k]])))
      && t.stats.eventsIn == t.stats.eventsOut + t.stats.eventsDropped == t.queue.released - s.queue.released
      && t.stats.packetsSent + t.stats.sendErrors == cfg.destinations * (t.stats.eventsIn - t.stats.encodeErrors)
      && t.stats.packetsSent == TotalSuccesses(t.wire) && t.stats.eventsOut == FanOutsSent(t.wire)
      && t.stats.ingressErrors == 0
  {
    var first := s.queue.released;
    FreshAccounted(cfg, s);
    RunManyKeepsAccounted(cfg, first, s, scripts);
    RunManyKeepsSession(cfg, s, scripts);
    var t := RunMany(cfg, s, scripts);
    assert cfg.destinations * |t.wire| == cfg.destinations * (t.stats.eventsIn - t.stats.encodeErrors);
    forall k, d | 0 <= k < |t.wire| && 0 <= d < cfg.destinations
      ensures && |t.wire[k]| == cfg.destinations && t.wire[k][d].destination == d && t.numbered[k] < |t.queue.published|
              && Decode(t.wire[k][d].bytes) == Ok(Decoded(s.sessionId, k + 1, t.queue.published[t.numbered[k]]))
    {
      OfferDecodes(cfg, first, t, k, d);
    }
  }

  lemma FanOutDecodes(cfg: SenderConfig, published: seq<Event>, sessionId: u32, offers: seq<Offer>, position: nat,
                      sequence: u64, d: nat)
    requires cfg.Valid() && sessionId != 0 && sequence != 0 && d < cfg.destinations
    requires FanOutOk(cfg, published, sessionId, offers, position, sequence)
    ensures |offers| == cfg.destinations && offers[d].destination == d && position < |published|
    ensures Decode(offers[d].bytes) == Ok(Decoded(sessionId, sequence, published[position]))
  {
    RoundTrip(published[position], sessionId, sequence);
  }

  lemma OfferDecodes(cfg: SenderConfig, first: nat, t: SenderState, k: nat, d: nat)
    requires cfg.Valid() && RecordOk(cfg, first, t) && k < |t.wire| && d < cfg.destinations
    ensures |t.wire[k]| == cfg.destinations && t.wire[k][d].destination == d
    ensures |t.numbered| == |t.wire| <= U64_MAX && t.numbered[k] < |t.queue.published|
    ensures Decode(t.wire[k][d].bytes) == Ok(Decoded(t.sessionId, k + 1, t.queue.published[t.numbered[k]]))
  {
    FanOutDecodes(cfg, t.queue.published, t.sessionId, t.wire[k], t.numbered[k], k + 1, d);
  }

  lemma {:induction false} RunKeepsSession(cfg: SenderConfig, s: SenderState, script: seq<Turn>)
    requires s.queue.Valid()
    ensures RunAll(cfg, s, script).sessionId == s.sessionId
    ensures s.queue.released <= RunAll(cfg, s, script).queue.released
    ensures s.queue.published <= RunAll(cfg, s, script).queue.published
    decreases |script|
  {
    if !s.stopRequested && script != [] {
      IterateKeepsQueue(cfg, s, script[0]);
      var it := Iterate(cfg, s, script[0]);
      if it.again { RunKeepsSession(cfg, it.state, script[1..]); }
    }
  }

  lemma {:induction false} RunManyKeepsSession(cfg: SenderConfig, s: SenderState, scripts: seq<seq<Turn>>)
    requires s.queue.Valid()
    ensures RunMany(cfg, s, scripts).sessionId == s.sessionId
    ensures s.queue.released <= RunMany(cfg, s, scripts).queue.released
    decreases |scripts|
  {
    if scripts != [] {
      RunKeepsQueue(cfg, s, scripts[0]);
      RunKeepsSession(cfg, s, scripts[0]);
      RunManyKeepsSession(cfg, RunAll(cfg, s, scripts[0]), scripts[1..]);
    }
  }

  /** After the last sequence number the sender offers nothing any more, in this or any later run. */
  lemma ExhaustedStaysSilent(cfg: SenderConfig, first: nat, s: SenderState, script: seq<Turn>)
    requires cfg.Valid() && Accounted(cfg, first, s) && s.packetSequence == U64_MAX && |s.numbered| == U64_MAX
    ensures RunAll(cfg, s, script) == s
  {
  }

  lemma HandleOnClosed(cfg: SenderConfig, s: SenderState, turn: Turn)
    requires cfg.Valid() && s.queue.Valid() && s.queue.closed && !s.queue.held && !s.stopRequested
    requires s.queue.released < |s.queue.published| && s.packetSequence < U64_MAX
    ensures var it := Iterate(cfg, s, turn);
      && it.again && it.state.queue == s.queue.(released := s.queue.released + 1)
      && !it.state.stopRequested && it.state.packetSequence <= s.packetSequence + 1
      && it.state.stats.eventsIn == s.stats.eventsIn + 1 && it.state.stats.ingressErrors == s.stats.ingressErrors
  {
  }

  /** A closed ingress with numbers to spare for everything queued. */
  predicate ReadyToDrain(cfg: SenderConfig, s: SenderState) {
    && cfg.Valid() && s.queue.Valid() && s.queue.closed && !s.queue.held && !s.stopRequested
    && s.packetSequence + (|s.queue.published| - s.queue.released) <= U64_MAX
  }

  /** One turn of a drain: one event handled, and the rest still ready to drain. */
  lemma DrainStep(cfg: SenderConfig, s: SenderState, script: seq<Turn>) returns (u: SenderState)
    requires ReadyToDrain(cfg, s) && s.queue.released < |s.queue.published| && script != []
    ensures ReadyToDrain(cfg, u) && RunAll(cfg, s, script) == RunAll(cfg, u, script[1..])
    ensures u.queue == s.queue.(released := s.queue.released + 1)
    ensures u.stats.eventsIn == s.stats.eventsIn + 1 && u.stats.ingressErrors == s.stats.ingressErrors
    ensures u == Iterate(cfg, s, script[0]).state
  {
    IterateKeepsQueue(cfg, s, script[0]);
    HandleOnClosed(cfg, s, script[0]);
    u := Iterate(cfg, s, script[0]).state;
  }

  /** However early the run is cut off, every turn has handled exactly the next event, in order, and
      the ring is never found merely empty. */
  lemma {:induction false} DrainsOnePerTurn(cfg: SenderConfig, s: SenderState, script: seq<Turn>, i: nat)
    requires ReadyToDrain(cfg, s) && i <= |script| && s.queue.released + i <= |s.queue.published|
    ensures var t := RunAll(cfg, s, script[..i]);
      && t.queue == s.queue.(released := s.queue.released + i) && t.queue.AcquireCode() != Err(Empty)
      && t.stats.eventsIn == s.stats.eventsIn + i && t.stats.ingressErrors == s.stats.ingressErrors
    decreases i
  {
    if i > 0 {
      var u := DrainStep(cfg, s, script[..i]);
      assert script[..i][1..] == script[1..][..i - 1];
      DrainsOnePerTurn(cfg, u, script[1..], i - 1);
    }
  }

  /** A script longer than what is queued: the run ends by itself with the ring empty. */
  lemma {:induction false} DrainsToTheEnd(cfg: SenderConfig, s: SenderState, script: seq<Turn>)
    requires ReadyToDrain(cfg, s) && |s.queue.published| - s.queue.released < |script|
    ensures var pending := |s.queue.published| - s.queue.released;
      var t := RunAll(cfg, s, script);
      && t.queue == s.queue.(released := |s.queue.published|) && !t.stopRequested
      && t.stats.eventsIn == s.stats.eventsIn + pending && t.stats.ingressErrors == s.stats.ingressErrors
    decreases |script|
  {
    if s.queue.released < |s.queue.published| {
      var u := DrainStep(cfg, s, script);
      DrainsToTheEnd(cfg, u, script[1..]);
    }
  }

  /** Turns beyond the one that sees the end are never taken. */
  lemma {:induction false} DrainIgnoresTheRest(cfg: SenderConfig, s: SenderState, script: seq<Turn>)
    requires ReadyToDrain(cfg, s) && |s.queue.published| - s.queue.released < |script|
    ensures RunAll(cfg, s, script[..|s.queue.published| - s.queue.released + 1]) == RunAll(cfg, s, script)
    decreases |script|
  {
    var pending := |s.queue.published| - s.queue.released;
    var cut := script[..pending + 1];
    assert cut[0] == script[0];
    if pending > 0 {
      var u := DrainStep(cfg, s, script);
      var v := DrainStep(cfg, s, cut);
      assert cut[1..] == script[1..][..pending];
      DrainIgnoresTheRest(cfg, u, script[1..]);
    } else {
      IterateKeepsQueue(cfg, s, script[0]);
    }
  }

  /** On a closed ingress with numbers to spare, run drains every queued event exactly once, one per
      turn, leaves the ring empty and returns by itself: it looks at one turn per event and one more
      to see the end, however long the script, and at no point finds the ring merely empty. */
  lemma DrainsClosedIngress(cfg: SenderConfig, s: SenderState, script: seq<Turn>)
    requires ReadyToDrain(cfg, s) && |s.queue.published| - s.queue.released < |script|
    ensures var pending := |s.queue.published| - s.queue.released;
      var t := RunAll(cfg, s, script);
      && t.queue == s.queue.(released := |s.queue.published|) && !t.stopRequested
      && t.stats.eventsIn == s.stats.eventsIn + pending && t.stats.ingressErrors == s.stats.ingressErrors
      && RunAll(cfg, s, script[..pending + 1]) == t
      && forall i {:trigger script[..i]} :: 0 <= i <= pending ==>
           var cut := RunAll(cfg, s, script[..i]);
           && cut.queue == s.queue.(released := s.queue.released + i) && cut.queue.AcquireCode() != Err(Empty)
  {
    DrainsToTheEnd(cfg, s, script);
    DrainIgnoresTheRest(cfg, s, script);
    forall i {:trigger script[..i]} | 0 <= i <= |s.queue.published| - s.queue.released
      ensures RunAll(cfg, s, script[..i]).queue == s.queue.(released := s.queue.released + i)
      ensures RunAll(cfg, s, script[..i]).queue.AcquireCode() != Err(Empty)
    {
      DrainsOnePerTurn(cfg, s, script, i);
    }
  }
}
