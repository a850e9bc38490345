/** The whole event path: ingress ring, sender, an arbitrary network, receiver, egress ring. */
module EndToEnd {
  import opened Bits
  import opened Events
  import opened Codec
  import opened GapDetection
  import S = Sending
  import ST = SenderTheorems
  import R = Receiving
  import RT = ReceiverTheorems

  /** `small` is `big` read at the strictly rising positions `at`. */
  ghost predicate SubsequenceAt(small: seq<Event>, big: seq<Event>, at: seq<nat>) {
    && |at| == |small|
    && (forall i, j :: 0 <= i < j < |at| ==> at[i] < at[j])
    && (forall i :: 0 <= i < |at| ==> at[i] < |big| && small[i] == big[at[i]])
  }

  /** The socket delivers these bytes somewhere in the scripts. */
  ghost predicate Arrives(scripts: seq<seq<R.Turn>>, bytes: seq<u8>) {
    exists i, j :: 0 <= i < |scripts| && 0 <= j < |scripts[i]| && scripts[i][j].arrival == R.Datagram(bytes)
  }

  /** The sender offered these bytes to some destination. */
  ghost predicate Offered(s: S.SenderState, bytes: seq<u8>) {
    exists k, d :: 0 <= k < |s.wire| && 0 <= d < |s.wire[k]| && s.wire[k][d].bytes == bytes
  }

  ghost predicate ArrivesIn(script: seq<R.Turn>, bytes: seq<u8>) {
    exists j :: 0 <= j < |script| && script[j].arrival == R.Datagram(bytes)
  }

  lemma HeardReading(s: R.ReceiverState, turn: R.Turn, reading: Option<Decoded>)
    requires s.queue.Valid()
    ensures R.IterateReading(s, turn, reading).state.heard
         == s.heard + (if turn.arrival.Datagram? then [turn.arrival.bytes] else [])
  {
  }

  lemma HeardOne(s: R.ReceiverState, turn: R.Turn, bytes: seq<u8>)
    requires s.queue.Valid() && bytes in R.Iterate(s, turn).state.heard
    ensures bytes in s.heard || turn.arrival == R.Datagram(bytes)
  {
    HeardReading(s, turn, if turn.arrival.Datagram? then R.Reading(turn.arrival.bytes) else None);
  }

  lemma {:induction false} HeardInRun(s: R.ReceiverState, script: seq<R.Turn>, bytes: seq<u8>)
    requires s.queue.Valid() && bytes in R.RunAll(s, script).heard
    ensures bytes in s.heard || ArrivesIn(script, bytes)
    decreases |script|
  {
    if !s.stopRequested && script != [] {
      R.IterateKeepsQueue(s, script[0]);
      var it := R.Iterate(s, script[0]);
      if it.again {
        HeardInRun(it.state, script[1..], bytes);
        if ArrivesIn(script[1..], bytes) {
          var j :| 0 <= j < |script[1..]| && script[1..][j].arrival == R.Datagram(bytes);
          assert script[j + 1].arrival == R.Datagram(bytes);
        }
      }
      if bytes in it.state.heard {
        HeardOne(s, script[0], bytes);
        assert script[0].arrival == R.Datagram(bytes) ==> ArrivesIn(script, bytes);
      }
    }
  }

  lemma {:induction false} HeardArrived(s: R.ReceiverState, scripts: seq<seq<R.Turn>>, bytes: seq<u8>)
    requires s.queue.Valid() && bytes in RT.RunMany(s, scripts).heard
    ensures bytes in s.heard || Arrives(scripts, bytes)
    decreases |scripts|
  {
    if scripts != [] {
      RT.RunKeepsQueue(s, scripts[0]);
      var t := R.RunAll(s, scripts[0]);
      HeardArrived(t, scripts[1..], bytes);
      if bytes in t.heard {
        HeardInRun(s, scripts[0], bytes);
        if ArrivesIn(scripts[0], bytes) {
          var j :| 0 <= j < |scripts[0]| && scripts[0][j].arrival == R.Datagram(bytes);
          assert Arrives(scripts, bytes);
        }
      } else {
        var i, j :| 0 <= i < |scripts[1..]| && 0 <= j < |scripts[1..][i]|
          && scripts[1..][i][j].arrival == R.Datagram(bytes);
        assert scripts[i + 1][j].arrival == R.Datagram(bytes);
      }
    }
  }

  /** Every well-formed datagram of this sender's session that arrives was offered by the sender.
      Nothing is said about how often, when, in which order or whether at all. */
  ghost predicate NoForgery(receives: seq<seq<R.Turn>>, s: S.SenderState) {
    forall bytes :: Arrives(receives, bytes) && Decode(bytes).Ok? && Decode(bytes).value.sessionId == s.sessionId ==>
      Offered(s, bytes)
  }

  /** A network that only ever delivers what it was given forges nothing, however often it delivers it,
      when, and in which order. */
  lemma RelayingIsNoForgery(receives: seq<seq<R.Turn>>, s: S.SenderState)
    requires forall i, j :: 0 <= i < |receives| && 0 <= j < |receives[i]| && receives[i][j].arrival.Datagram? ==>
      Offered(s, receives[i][j].arrival.bytes)
    ensures NoForgery(receives, s)
  {
  }

  /** Following rising packet numbers into rising ingress positions selects a subsequence. */
  lemma FollowNumbers(small: seq<Event>, big: seq<Event>, carried: seq<u64>, numbered: seq<nat>) returns (at: seq<nat>)
    requires |small| == |carried| && Increasing(carried)
    requires forall i, j :: 0 <= i < j < |numbered| ==> numbered[i] < numbered[j]
    requires forall i :: 0 <= i < |carried| ==> IsNumbered(small[i], big, carried[i], numbered)
    ensures SubsequenceAt(small, big, at) && forall p :: p in at ==> p in numbered
  {
    forall i | 0 <= i < |carried| ensures 1 <= carried[i] <= |numbered| {
      assert IsNumbered(small[i], big, carried[i], numbered);
    }
    at := seq(|carried|, i requires 0 <= i < |carried| => numbered[carried[i] - 1]);
    forall i | 0 <= i < |at| ensures at[i] < |big| && small[i] == big[at[i]] {
      assert IsNumbered(small[i], big, carried[i], numbered);
    }
  }

  /** The event is the one that went out under this packet number. */
  predicate IsNumbered(event: Event, published: seq<Event>, number: u64, numbered: seq<nat>) {
    && 1 <= number <= |numbered| && numbered[number - 1] < |published|
    && event == published[numbered[number - 1]]
  }

  lemma SubsequencePrefix(small: seq<Event>, big: seq<Event>, at: seq<nat>, n: nat)
    requires SubsequenceAt(small, big, at) && n <= |small|
    ensures SubsequenceAt(small[..n], big, at[..n])
  {
  }

  /** Whatever the network does to the sender's datagrams (lose, repeat, delay, reorder), and
      whatever else arrives under other sessions or malformed: the events on a receiver that pinned
      this sender's session are a subsequence of the events published to ingress, in order, never
      repeated, never invented, byte for byte; those consumed from egress are its beginning. */
  lemma DeliveryIsSubsequence(
      cfg: S.SenderConfig, sender: S.SenderState, sends: seq<seq<S.Turn>>,
      receiver: R.ReceiverState, receives: seq<seq<R.Turn>>) returns (at: seq<nat>)
    requires cfg.Valid() && ST.FreshSender(sender) && RT.FreshReceiver(receiver)
    requires RT.RunMany(receiver, receives).detector.activeSession == sender.sessionId
    requires NoForgery(receives, ST.RunMany(cfg, sender, sends))
    ensures var ingress := ST.RunMany(cfg, sender, sends).queue;
      var egress := RT.RunMany(receiver, receives).queue;
      && SubsequenceAt(egress.published, ingress.published, at)
      && (forall p :: p in at ==> sender.queue.released <= p < ingress.released)
      && egress.released <= |egress.published|
      && SubsequenceAt(egress.published[..egress.released], ingress.published, at[..egress.released])
  {
    var s := ST.RunMany(cfg, sender, sends);
    var t := RT.RunMany(receiver, receives);
    ST.FreshAccounted(cfg, sender);
    ST.RunManyKeepsAccounted(cfg, sender.queue.released, sender, sends);
    ST.RunManyKeepsSession(cfg, sender, sends);
    RT.FreshKept(receiver);
    RT.RunManyKeeps(receiver, receives);
    at := DeliveredAt(cfg, sender.queue.released, s, receiver, receives, t);
    SubsequencePrefix(t.queue.published, s.queue.published, at, t.queue.released);
  }

  lemma DeliveredAt(cfg: S.SenderConfig, first: nat, s: S.SenderState, receiver: R.ReceiverState,
                    receives: seq<seq<R.Turn>>, t: R.ReceiverState) returns (at: seq<nat>)
    requires cfg.Valid() && ST.RecordOk(cfg, first, s) && RT.FreshReceiver(receiver)
    requires t == RT.RunMany(receiver, receives) && RT.Kept(t) && t.detector.activeSession == s.sessionId
    requires NoForgery(receives, s)
    ensures SubsequenceAt(t.queue.published, s.queue.published, at)
    ensures forall p :: p in at ==> first <= p < s.queue.released
  {
    forall i | 0 <= i < |t.carried|
      ensures IsNumbered(t.queue.published[i], s.queue.published, t.carried[i], s.numbered)
    {
      CarriedWasSent(cfg, first, s, receiver, receives, t, i);
    }
    at := FollowNumbers(t.queue.published, s.queue.published, t.carried, s.numbered);
  }

  lemma BroughtBy(t: R.ReceiverState, i: nat) returns (bytes: seq<u8>)
    requires RT.CarriedOk(t) && i < |t.carried|
    ensures bytes in t.heard
    ensures Decode(bytes) == Ok(Decoded(t.detector.activeSession, t.carried[i], t.queue.published[i]))
  {
    assert RT.Brought(t.heard, t.detector, t.carried[i], t.queue.published[i]);
    bytes :| bytes in t.heard
      && Decode(bytes) == Ok(Decoded(t.detector.activeSession, t.carried[i], t.queue.published[i]));
  }

  /** The i-th egress event is the ingress event whose number the packet carried. */
  lemma CarriedWasSent(cfg: S.SenderConfig, first: nat, s: S.SenderState, receiver: R.ReceiverState,
                       receives: seq<seq<R.Turn>>, t: R.ReceiverState, i: nat)
    requires cfg.Valid() && ST.RecordOk(cfg, first, s) && RT.FreshReceiver(receiver)
    requires t == RT.RunMany(receiver, receives) && RT.CarriedOk(t)
    requires t.detector.activeSession == s.sessionId && i < |t.carried|
    requires NoForgery(receives, s)
    ensures IsNumbered(t.queue.published[i], s.queue.published, t.carried[i], s.numbered)
  {
    var bytes := BroughtBy(t, i);
    HeardArrived(receiver, receives, bytes);
    OfferedIsNumbered(cfg, first, s, bytes, Decoded(s.sessionId, t.carried[i], t.queue.published[i]));
  }

  /** What an offered datagram decodes to: some packet number and the ingress event it was given to. */
  lemma OfferedReads(cfg: S.SenderConfig, first: nat, s: S.SenderState, bytes: seq<u8>) returns (d: Decoded)
    requires cfg.Valid() && ST.RecordOk(cfg, first, s) && Offered(s, bytes)
    ensures Decode(bytes) == Ok(d) && IsNumbered(d.event, s.queue.published, d.packetSequence, s.numbered)
  {
    var k, at := FindOffer(s, bytes);
    FanOutSize(cfg, s, k);
    d := OfferReads(cfg, first, s, k, at);
  }

  lemma OfferReads(cfg: S.SenderConfig, first: nat, s: S.SenderState, k: nat, at: nat) returns (d: Decoded)
    requires cfg.Valid() && ST.RecordOk(cfg, first, s)
    requires k < |s.wire| && at < |s.wire[k]| == cfg.destinations
    ensures Decode(s.wire[k][at].bytes) == Ok(d) && IsNumbered(d.event, s.queue.published, d.packetSequence, s.numbered)
  {
    ST.OfferDecodes(cfg, first, s, k, at);
    NumberIsNumbered(s.queue.published, s.numbered, k);
    d := Decoded(s.sessionId, k + 1, s.queue.published[s.numbered[k]]);
  }

  lemma SameReading(bytes: seq<u8>, d: Decoded, e: Decoded)
    requires Decode(bytes) == Ok(d) && Decode(bytes) == Ok(e)
    ensures d == e
  {
  }

  /** An offered datagram carries the ingress event that its number was given to. */
  lemma OfferedIsNumbered(cfg: S.SenderConfig, first: nat, s: S.SenderState, bytes: seq<u8>, d: Decoded)
    requires cfg.Valid() && ST.RecordOk(cfg, first, s) && Offered(s, bytes) && Decode(bytes) == Ok(d)
    ensures IsNumbered(d.event, s.queue.published, d.packetSequence, s.numbered)
  {
    var e := OfferedReads(cfg, first, s, bytes);
    SameReading(bytes, d, e);
  }

  lemma NumberIsNumbered(published: seq<Event>, numbered: seq<nat>, k: nat)
    requires k < |numbered| <= U64_MAX && numbered[k] < |published|
    ensures IsNumbered(published[numbered[k]], published, k + 1, numbered)
  {
  }

  lemma FindOffer(s: S.SenderState, bytes: seq<u8>) returns (k: nat, at: nat)
    requires Offered(s, bytes)
    ensures k < |s.wire| && at < |s.wire[k]| && s.wire[k][at].bytes == bytes
  {
    k, at :| 0 <= k < |s.wire| && 0 <= at < |s.wire[k]| && s.wire[k][at].bytes == bytes;
  }

  lemma FanOutSize(cfg: S.SenderConfig, s: S.SenderState, k: nat)
    requires ST.WireOk(cfg, s.queue.published, s.sessionId, s.wire, s.numbered) && k < |s.wire|
    ensures |s.wire[k]| == cfg.destinations
  {
    assert ST.FanOutOk(cfg, s.queue.published, s.sessionId, s.wire[k], s.numbered[k], k + 1);
  }

  // ---- a perfect network ------------------------------------------------------------------

  /** `packets` are well-formed datagrams of one session, numbered from `next` without a gap. */
  ghost predicate Consecutive(packets: seq<seq<u8>>, events: seq<Event>, sessionId: u32, next: nat)
    decreases |packets|
  {
    if packets == [] then events == []
    else
      && events != [] && 1 <= next <= U64_MAX
      && R.Reading(packets[0]) == Some(Decoded(sessionId, next, events[0]))
      && Consecutive(packets[1..], events[1..], sessionId, next + 1)
  }

  lemma {:induction false} ConsecutiveFrom(packets: seq<seq<u8>>, events: seq<Event>, sessionId: u32, i: nat)
    requires i <= |packets| == |events| <= U64_MAX
    requires forall k :: 0 <= k < |packets| ==> R.Reading(packets[k]) == Some(Decoded(sessionId, k + 1, events[k]))
    ensures Consecutive(packets[i..], events[i..], sessionId, i + 1)
    decreases |packets| - i
  {
    if i < |packets| {
      ConsecutiveFrom(packets, events, sessionId, i + 1);
      assert packets[i..][1..] == packets[i + 1..] && events[i..][1..] == events[i + 1..];
    }
  }

  predicate Refusals(t: R.ReceiverState, n: nat, m: nat) {
    t.stats.egressFull == n && t.stats.egressErrors == m
  }

  lemma RefusalsGrowReading(s: R.ReceiverState, turn: R.Turn, reading: Option<Decoded>)
    requires s.queue.Valid()
    ensures s.stats.egressFull <= R.IterateReading(s, turn, reading).state.stats.egressFull
    ensures s.stats.egressErrors <= R.IterateReading(s, turn, reading).state.stats.egressErrors
  {
  }

  lemma RefusalsGrowStep(s: R.ReceiverState, turn: R.Turn)
    requires s.queue.Valid()
    ensures s.stats.egressFull <= R.Iterate(s, turn).state.stats.egressFull
    ensures s.stats.egressErrors <= R.Iterate(s, turn).state.stats.egressErrors
  {
    RefusalsGrowReading(s, turn, if turn.arrival.Datagram? then R.Reading(turn.arrival.bytes) else None);
  }

  lemma {:induction false} RefusalsGrow(s: R.ReceiverState, script: seq<R.Turn>)
    requires s.queue.Valid()
    ensures s.stats.egressFull <= R.RunAll(s, script).stats.egressFull
    ensures s.stats.egressErrors <= R.RunAll(s, script).stats.egressErrors
    decreases |script|
  {
    if !s.stopRequested && script != [] {
      R.IterateKeepsQueue(s, script[0]);
      RefusalsGrowStep(s, script[0]);
      var it := R.Iterate(s, script[0]);
      if it.again { RefusalsGrow(it.state, script[1..]); }
    }
  }

  /** The detector expects this session and this sequence next. */
  predicate Expects(d: Detector, sessionId: u32, next: nat) {
    sessionId != 0 && next == d.lastSequence + 1 && (d == Detector(0, 0) || d.activeSession == sessionId)
  }

  /** What one in-order packet does when egress accepts its event. */
  lemma InOrderStep(s: R.ReceiverState, turn: R.Turn, d: Decoded)
    requires s.queue.Valid() && turn.arrival.Datagram? && Expects(s.detector, d.sessionId, d.packetSequence)
    ensures var it := R.IterateReading(s, turn, Some(d));
      && it.state.detector == Detector(d.sessionId, d.packetSequence) && it.state.stopRequested == s.stopRequested
      && it.state.stats.gapsDetected == s.stats.gapsDetected && it.state.stats.packetsMissed == s.stats.packetsMissed
      && s.stats.egressFull <= it.state.stats.egressFull && s.stats.egressErrors <= it.state.stats.egressErrors
      && (Refusals(it.state, s.stats.egressFull, s.stats.egressErrors) ==>
            it.again && it.state.queue.published == s.queue.published + [d.event])
  {
  }

  lemma QuietReading(s: R.ReceiverState, turn: R.Turn, reading: Option<Decoded>)
    requires s.queue.Valid() && !turn.arrival.Datagram? && !turn.arrival.SocketError?
    ensures var it := R.IterateReading(s, turn, reading);
      && it.again && it.state == s.(queue := it.state.queue) && it.state.queue.published == s.queue.published
  {
  }

  /** A turn that brings nothing changes nothing but what egress still holds. */
  lemma QuietStep(s: R.ReceiverState, script: seq<R.Turn>) returns (u: R.ReceiverState)
    requires s.queue.Valid() && !s.stopRequested && script != []
    requires !script[0].arrival.Datagram? && !script[0].arrival.SocketError?
    ensures u.queue.Valid() && u == s.(queue := u.queue) && u.queue.published == s.queue.published
    ensures R.RunAll(s, script) == R.RunAll(u, script[1..]) && R.Datagrams(script) == R.Datagrams(script[1..])
  {
    R.IterateKeepsQueue(s, script[0]);
    QuietReading(s, script[0], None);
    u := R.Iterate(s, script[0]).state;
  }

  /** If the whole run refuses nothing, neither does its first step, so the run goes on. */
  lemma AcceptedStep(s: R.ReceiverState, script: seq<R.Turn>, d: Decoded, it: R.Iteration)
    requires s.queue.Valid() && !s.stopRequested && script != []
    requires script[0].arrival.Datagram? && Expects(s.detector, d.sessionId, d.packetSequence)
    requires it == R.Iterate(s, script[0]) == R.IterateReading(s, script[0], Some(d))
    requires Refusals(R.RunAll(s, script), s.stats.egressFull, s.stats.egressErrors)
    ensures var u := it.state;
      && u.queue.Valid() && R.RunAll(s, script) == R.RunAll(u, script[1..])
      && u.detector == Detector(d.sessionId, d.packetSequence) && !u.stopRequested
      && Refusals(u, s.stats.egressFull, s.stats.egressErrors)
      && u.stats.gapsDetected == s.stats.gapsDetected && u.stats.packetsMissed == s.stats.packetsMissed
      && u.queue.published == s.queue.published + [d.event]
  {
    R.IterateKeepsQueue(s, script[0]);
    InOrderStep(s, script[0], d);
    if it.again { RefusalsGrow(it.state, script[1..]); }
  }

  /** Every event of the rest of the run has reached egress, and no gap has been reported. */
  predicate Carried(s: R.ReceiverState, t: R.ReceiverState, events: seq<Event>) {
    && t.queue.published == s.queue.published + events
    && t.stats.gapsDetected == s.stats.gapsDetected && t.stats.packetsMissed == s.stats.packetsMissed
  }

  lemma HeadThenTail(published: seq<Event>, events: seq<Event>)
    requires events != []
    ensures published + [events[0]] + events[1..] == published + events
  {
  }

  /** The first datagram of a gapless run. */
  lemma FirstDatagram(s: R.ReceiverState, script: seq<R.Turn>, sessionId: u32, next: nat, events: seq<Event>)
    returns (u: R.ReceiverState)
    requires s.queue.Valid() && !s.stopRequested && script != [] && script[0].arrival.Datagram?
    requires Expects(s.detector, sessionId, next) && Consecutive(R.Datagrams(script), events, sessionId, next)
    requires Refusals(R.RunAll(s, script), s.stats.egressFull, s.stats.egressErrors)
    ensures u.queue.Valid() && R.RunAll(s, script) == R.RunAll(u, script[1..]) && !u.stopRequested
    ensures events != [] && Carried(s, u, [events[0]]) && Refusals(u, s.stats.egressFull, s.stats.egressErrors)
    ensures Expects(u.detector, sessionId, next + 1)
    ensures Consecutive(R.Datagrams(script[1..]), events[1..], sessionId, next + 1)
  {
    var packets := R.Datagrams(script);
    assert packets[0] == script[0].arrival.bytes && packets[1..] == R.Datagrams(script[1..]);
    var it := R.Iterate(s, script[0]);
    AcceptedStep(s, script, Decoded(sessionId, next, events[0]), it);
    u := it.state;
  }

  lemma CarriedThen(s: R.ReceiverState, u: R.ReceiverState, t: R.ReceiverState, events: seq<Event>)
    requires events != [] && Carried(s, u, [events[0]]) && Carried(u, t, events[1..])
    ensures Carried(s, t, events)
  {
    HeadThenTail(s.queue.published, events);
  }

  lemma {:induction false} InOrderRun(s: R.ReceiverState, script: seq<R.Turn>, sessionId: u32, next: nat,
                                      events: seq<Event>)
    requires s.queue.Valid() && !s.stopRequested
    requires forall j :: 0 <= j < |script| ==> !script[j].arrival.SocketError?
    requires Expects(s.detector, sessionId, next)
    requires Consecutive(R.Datagrams(script), events, sessionId, next)
    requires Refusals(R.RunAll(s, script), s.stats.egressFull, s.stats.egressErrors)
    ensures Carried(s, R.RunAll(s, script), events)
    decreases |script|
  {
    if script == [] {
      assert events == [];
    } else if script[0].arrival.Datagram? {
      var u := FirstDatagram(s, script, sessionId, next, events);
      InOrderRun(u, script[1..], sessionId, next + 1, events[1..]);
      CarriedThen(s, u, R.RunAll(u, script[1..]), events);
    } else {
      var u := QuietStep(s, script);
      InOrderRun(u, script[1..], sessionId, next, events);
    }
  }

  /** The events of `events` that fit the wire format, in order. */
  function Carriable(events: seq<Event>, limit: nat): seq<Event> {
    if events == [] then []
    else Carriable(events[..|events| - 1], limit)
         + (if Encodable(events[|events| - 1], limit) then [events[|events| - 1]] else [])
  }

  function Select(published: seq<Event>, positions: seq<nat>): (r: seq<Event>)
    requires forall i :: 0 <= i < |positions| ==> positions[i] < |published|
    ensures |r| == |positions|
  {
    seq(|positions|, i requires 0 <= i < |positions| => published[positions[i]])
  }

  lemma SelectSnoc(published: seq<Event>, positions: seq<nat>, p: nat)
    requires p < |published| && forall i :: 0 <= i < |positions| ==> positions[i] < |published|
    ensures Select(published, positions + [p]) == Select(published, positions) + [published[p]]
  {
  }

  lemma PositionsInside(published: seq<Event>, first: nat, released: nat, limit: nat)
    requires first <= released <= |published|
    ensures var positions := ST.EncodablePositions(published, first, released, limit);
      forall i :: 0 <= i < |positions| ==> positions[i] < |published|
  {
    var positions := ST.EncodablePositions(published, first, released, limit);
    forall i | 0 <= i < |positions| ensures positions[i] < |published| { assert positions[i] in positions; }
  }

  lemma CarriableSnoc(events: seq<Event>, event: Event, limit: nat)
    ensures Carriable(events + [event], limit) ==
      Carriable(events, limit) + (if Encodable(event, limit) then [event] else [])
  {
    var longer := events + [event];
    assert longer[..|longer| - 1] == events;
  }

  /** Reading the encodable positions is filtering the events. */
  lemma {:induction false} SelectIsFilter(published: seq<Event>, first: nat, released: nat, limit: nat,
                                          positions: seq<nat>)
    requires first <= released <= |published|
    requires positions == ST.EncodablePositions(published, first, released, limit)
    ensures forall i :: 0 <= i < |positions| ==> positions[i] < |published|
    ensures Select(published, positions) == Carriable(published[first..released], limit)
    decreases released - first
  {
    PositionsInside(published, first, released, limit);
    if first < released {
      var shorter := ST.EncodablePositions(published, first, released - 1, limit);
      SelectIsFilter(published, first, released - 1, limit, shorter);
      ST.PositionsSnoc(published, first, released, limit);
      FilterStep(published, first, released, limit, shorter, positions);
    }
  }

  lemma FilterStep(published: seq<Event>, first: nat, released: nat, limit: nat, shorter: seq<nat>, positions: seq<nat>)
    requires first < released <= |published|
    requires positions == shorter + (if Encodable(published[released - 1], limit) then [released - 1] else [])
    requires forall i :: 0 <= i < |shorter| ==> shorter[i] < |published|
    requires forall i :: 0 <= i < |positions| ==> positions[i] < |published|
    requires Select(published, shorter) == Carriable(published[first..released - 1], limit)
    ensures Select(published, positions) == Carriable(published[first..released], limit)
  {
    var event := published[released - 1];
    CarriableSnoc(published[first..released - 1], event, limit);
    LastOfSlice(published, first, released);
    if Encodable(event, limit) { SelectSnoc(published, shorter, released - 1); } else { assert positions == shorter; }
  }

  lemma LastOfSlice(published: seq<Event>, first: nat, released: nat)
    requires first < released <= |published|
    ensures published[first..released] == published[first..released - 1] + [published[released - 1]]
  {
  }

  /** If the datagrams of one destination arrive exactly once and in order and egress accepts each
      event, then egress holds exactly the ingress events that fit the wire format (nonzero sequence,
      payload and padded packet within their limits), in order, and no gap is reported. */
  lemma LosslessDeliveryIsComplete(
      cfg: S.SenderConfig, sender: S.SenderState, sends: seq<seq<S.Turn>>, d: nat,
      receiver: R.ReceiverState, script: seq<R.Turn>)
    requires cfg.Valid() && ST.FreshSender(sender) && RT.FreshReceiver(receiver) && d < cfg.destinations
    requires forall j :: 0 <= j < |script| ==> !script[j].arrival.SocketError?
    requires var s := ST.RunMany(cfg, sender, sends);
      && |R.Datagrams(script)| == |s.wire|
      && forall k :: 0 <= k < |s.wire| ==> d < |s.wire[k]| && R.Datagrams(script)[k] == s.wire[k][d].bytes
    requires Refusals(R.RunAll(receiver, script), 0, 0)
    ensures var s := ST.RunMany(cfg, sender, sends);
      var t := R.RunAll(receiver, script);
      && sender.queue.released <= s.queue.released <= |s.queue.published|
      && t.queue.published == Carriable(s.queue.published[sender.queue.released..s.queue.released], cfg.limit)
      && t.stats.gapsDetected == 0 && t.stats.packetsMissed == 0
  {
    var first := sender.queue.released;
    var s := ST.RunMany(cfg, sender, sends);
    ST.FreshAccounted(cfg, sender);
    ST.RunManyKeepsAccounted(cfg, first, sender, sends);
    SelectIsFilter(s.queue.published, first, s.queue.released, cfg.limit, s.numbered);
    var events := Select(s.queue.published, s.numbered);
    WireIsConsecutive(cfg, first, s, d, R.Datagrams(script), events);
    InOrderRun(receiver, script, s.sessionId, 1, events);
  }

  lemma ConsecutiveFromOne(packets: seq<seq<u8>>, events: seq<Event>, sessionId: u32)
    requires |packets| == |events| <= U64_MAX
    requires forall k :: 0 <= k < |packets| ==> R.Reading(packets[k]) == Some(Decoded(sessionId, k + 1, events[k]))
    ensures Consecutive(packets, events, sessionId, 1)
  {
    ConsecutiveFrom(packets, events, sessionId, 0);
    assert packets[0..] == packets && events[0..] == events;
  }

  /** What one destination was offered is a gapless run of packets from number 1. */
  lemma WireIsConsecutive(cfg: S.SenderConfig, first: nat, s: S.SenderState, d: nat, packets: seq<seq<u8>>,
                          events: seq<Event>)
    requires cfg.Valid() && ST.RecordOk(cfg, first, s) && d < cfg.destinations
    requires |packets| == |s.wire| && forall k :: 0 <= k < |s.wire| ==>
      d < |s.wire[k]| && packets[k] == s.wire[k][d].bytes
    requires forall k :: 0 <= k < |s.numbered| ==> s.numbered[k] < |s.queue.published|
    requires events == Select(s.queue.published, s.numbered)
    ensures Consecutive(packets, events, s.sessionId, 1)
  {
    forall k | 0 <= k < |packets| ensures R.Reading(packets[k]) == Some(Decoded(s.sessionId, k + 1, events[k])) {
      ST.OfferDecodes(cfg, first, s, k, d);
    }
    ConsecutiveFromOne(packets, events, s.sessionId);
  }
}
