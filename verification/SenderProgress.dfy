/** What the sender is bound to do: which turns end a run, that an open ingress keeps it going, and
    that everything published is consumed once there have been enough turns. */
module SenderProgress {
  import opened Bits
  import opened Events
  import opened Codec
  import opened Queues
  import opened Statistics
  import opened Sending
  import opened SenderTheorems

  // ---- which turns end a run ------------------------------------------------------------------

  /** A turn ends a run exactly if the ring is closed and drained, if the handle already held a slot,
      or if the event taken uses up the last sequence number. An open ring without events never does. */
  lemma TurnEnds(cfg: SenderConfig, s: SenderState, turn: Turn)
    requires cfg.Valid() && s.queue.Valid() && !s.stopRequested && s.sessionId != 0 && s.packetSequence != 0
    ensures var q := FeedAll(s.queue, turn.before);
      !Iterate(cfg, s, turn).again <==>
        || s.queue.held
        || (q.released == |q.published| && q.closed)
        || (q.released < |q.published| && Encodable(q.published[q.released], cfg.limit) && s.packetSequence == U64_MAX)
    ensures Iterate(cfg, s, turn).state.stats.ingressErrors == s.stats.ingressErrors + (if s.queue.held then 1 else 0)
  {
  }

  // ---- an open ingress keeps the sender going -------------------------------------------------

  predicate NoClosure(feeds: seq<Feed>) {
    forall i :: 0 <= i < |feeds| ==> !feeds[i].FeedClose?
  }

  /** The producer does not close during this turn. */
  predicate LeavesOpen(turn: Turn) {
    && NoClosure(turn.before) && NoClosure(turn.held)
    && forall d :: 0 <= d < |turn.sends| ==> NoClosure(turn.sends[d].feeds)
  }

  lemma {:induction false} FeedsLeaveOpen(q: Queue, feeds: seq<Feed>)
    requires !q.closed && NoClosure(feeds)
    ensures !FeedAll(q, feeds).closed
    decreases |feeds|
  {
    if feeds != [] {
      assert !feeds[0].FeedClose?;
      FeedsLeaveOpen(FeedOne(q, feeds[0]), feeds[1..]);
    }
  }

  lemma {:induction false} SendsLeaveOpen(q: Queue, turn: Turn, d: nat, destinations: nat)
    requires !q.closed && LeavesOpen(turn)
    ensures !QueueAfterSends(q, turn, d, destinations).closed
    decreases destinations - d
  {
    if d < destinations {
      FeedsLeaveOpen(q, SendAt(turn, d).feeds);
      SendsLeaveOpen(FeedAll(q, SendAt(turn, d).feeds), turn, d + 1, destinations);
    }
  }

  /** Nothing has stopped the sender, ingress is open, and `spare` more turns cannot use up the numbers. */
  predicate Going(cfg: SenderConfig, s: SenderState, spare: nat) {
    && cfg.Valid() && s.queue.Valid() && !s.queue.held && !s.queue.closed && !s.stopRequested
    && s.sessionId != 0 && s.packetSequence != 0 && s.packetSequence + spare <= U64_MAX
  }

  /** A turn that finds nothing queued changes only the queue, and that only by what the producer did. */
  predicate Waited(s: SenderState, t: SenderState, turn: Turn) {
    t == s.(queue := FeedAll(s.queue, turn.before))
  }

  /** A turn that finds an event queued consumes the oldest one: it goes to every destination under the
      next number if the wire format can carry it, and is counted as given up otherwise. */
  ghost predicate Took(cfg: SenderConfig, s: SenderState, t: SenderState, turn: Turn) {
    var q := FeedAll(s.queue, turn.before);
    && q.released < |q.published| && t.queue.released == q.released + 1 && q.published <= t.queue.published
    && t.stats.eventsIn == s.stats.eventsIn + 1
    && if Encodable(q.published[q.released], cfg.limit)
       then && |t.wire| == |s.wire| + 1 && t.wire[..|s.wire|] == s.wire && t.numbered == s.numbered + [q.released]
            && FanOutOk(cfg, q.published, s.sessionId, t.wire[|s.wire|], q.released, s.packetSequence)
            && t.packetSequence == s.packetSequence + 1 && t.stats.encodeErrors == s.stats.encodeErrors
       else t.wire == s.wire && t.numbered == s.numbered && t.packetSequence == s.packetSequence
            && t.stats.encodeErrors == s.stats.encodeErrors + 1
  }

  /** What the producer does between the acquisition and the end of the turn leaves ingress open. */
  lemma HandleLeavesOpen(cfg: SenderConfig, s: SenderState, event: Event, turn: Turn)
    requires !s.queue.closed && LeavesOpen(turn)
    ensures !Handle(cfg, s, event, turn).queue.closed
  {
    FeedsLeaveOpen(s.queue, turn.held);
    SendsLeaveOpen(FeedAll(s.queue, turn.held).Release(), turn, 0, cfg.destinations);
  }

  lemma TakesOldest(cfg: SenderConfig, s: SenderState, q: Queue, turn: Turn, spare: nat)
    requires Going(cfg, s.(queue := q), spare) && spare > 0 && LeavesOpen(turn) && q.released < |q.published|
    ensures var t := Handle(cfg, s.(queue := q.Acquire()), q.published[q.released], turn);
      && Going(cfg, t, spare - 1) && t.queue.released == q.released + 1 && q.published <= t.queue.published
      && t.stats.eventsIn == s.stats.eventsIn + 1
  {
    var event, u := q.published[q.released], s.(queue := q.Acquire());
    HandleKeepsQueue(cfg, u, event, turn);
    HandleLeavesOpen(cfg, u, event, turn);
    HandleQueue(cfg, s.(queue := q), turn);
  }

  lemma SendsOldest(cfg: SenderConfig, s: SenderState, q: Queue, turn: Turn)
    requires Going(cfg, s.(queue := q), 1) && q.released < |q.published|
    ensures var event := q.published[q.released];
      var t := Handle(cfg, s.(queue := q.Acquire()), event, turn);
      if Encodable(event, cfg.limit)
      then && |t.wire| == |s.wire| + 1 && t.wire[..|s.wire|] == s.wire && t.numbered == s.numbered + [q.released]
           && FanOutOk(cfg, q.published, s.sessionId, t.wire[|s.wire|], q.released, s.packetSequence)
           && t.packetSequence == s.packetSequence + 1 && t.stats.encodeErrors == s.stats.encodeErrors
      else t.wire == s.wire && t.numbered == s.numbered && t.packetSequence == s.packetSequence
           && t.stats.encodeErrors == s.stats.encodeErrors + 1
  {
    if Encodable(q.published[q.released], cfg.limit) {
      OffersAreFanOut(cfg, q.published, q.released, s.sessionId, s.packetSequence, turn);
    }
  }

  /** A turn on an open ingress with numbers to spare is followed by the next one. */
  lemma OpenTurn(cfg: SenderConfig, s: SenderState, turn: Turn, spare: nat)
    requires Going(cfg, s, spare) && spare > 0 && LeavesOpen(turn)
    ensures var it := Iterate(cfg, s, turn);
      && it.again && Going(cfg, it.state, spare - 1)
      && (if FeedAll(s.queue, turn.before).released < |FeedAll(s.queue, turn.before).published|
          then Took(cfg, s, it.state, turn) else Waited(s, it.state, turn))
  {
    var q := FeedAll(s.queue, turn.before);
    FeedsLeaveOpen(s.queue, turn.before);
    if q.released < |q.published| {
      TakesOldest(cfg, s, q, turn, spare);
      SendsOldest(cfg, s, q, turn);
    }
  }

  /** The state after the turns of a script, none of which ends the run. */
  function Turns(cfg: SenderConfig, s: SenderState, script: seq<Turn>): SenderState
    requires s.queue.Valid()
    decreases |script|
  {
    if script == [] then s
    else
      IterateKeepsQueue(cfg, s, script[0]);
      Turns(cfg, Iterate(cfg, s, script[0]).state, script[1..])
  }

  predicate LeaveOpen(script: seq<Turn>) {
    forall i :: 0 <= i < |script| ==> LeavesOpen(script[i])
  }

  /** As long as ingress stays open and numbers are left, a run goes on with the rest of its script. */
  lemma {:induction false} RunThrough(cfg: SenderConfig, s: SenderState, script: seq<Turn>, more: seq<Turn>, spare: nat)
    requires Going(cfg, s, |script| + spare) && LeaveOpen(script)
    ensures Going(cfg, Turns(cfg, s, script), spare)
    ensures RunAll(cfg, s, script + more) == RunAll(cfg, Turns(cfg, s, script), more)
    decreases |script|
  {
    if script == [] {
      assert script + more == more;
    } else {
      OpenTurn(cfg, s, script[0], |script| + spare);
      assert (script + more)[0] == script[0] && (script + more)[1..] == script[1..] + more;
      RunThrough(cfg, Iterate(cfg, s, script[0]).state, script[1..], more, spare);
    }
  }

  /** On an open ingress with numbers to spare a run ends only when it is told to. */
  lemma EndsOnlyWhenTold(cfg: SenderConfig, s: SenderState, script: seq<Turn>)
    requires Going(cfg, s, |script|) && LeaveOpen(script)
    ensures Going(cfg, Turns(cfg, s, script), 0)
    ensures RunAll(cfg, s, script) == Turns(cfg, s, script).(stopRequested := true)
  {
    RunThrough(cfg, s, script, [], 0);
    assert script + [] == script;
  }

  lemma {:induction false} TurnsAppend(cfg: SenderConfig, s: SenderState, a: seq<Turn>, b: seq<Turn>)
    requires s.queue.Valid()
    ensures Turns(cfg, s, a).queue.Valid() && Turns(cfg, s, a + b) == Turns(cfg, Turns(cfg, s, a), b)
    decreases |a|
  {
    if a == [] {
      assert a + b == b;
    } else {
      IterateKeepsQueue(cfg, s, a[0]);
      assert (a + b)[0] == a[0] && (a + b)[1..] == a[1..] + b;
      TurnsAppend(cfg, Iterate(cfg, s, a[0]).state, a[1..], b);
    }
  }

  /** Every turn takes one event of those that were queued at the start, until none is left. */
  lemma {:induction false} EveryTurnTakesOne(cfg: SenderConfig, s: SenderState, script: seq<Turn>, goal: nat)
    requires Going(cfg, s, |script|) && LeaveOpen(script)
    requires goal <= |s.queue.published| && goal <= s.queue.released + |script|
    ensures Turns(cfg, s, script).queue.Valid() && goal <= Turns(cfg, s, script).queue.released
    decreases |script|
  {
    if script != [] {
      OpenTurn(cfg, s, script[0], |script|);
      var u := Iterate(cfg, s, script[0]).state;
      if goal <= u.queue.released + |script[1..]| && goal <= |u.queue.published| {
        EveryTurnTakesOne(cfg, u, script[1..], goal);
      }
    }
  }

  /** Everything published by some point of an open run is consumed one lap of turns later: as many
      turns as the ring has slots always suffice. */
  lemma KeepsUp(cfg: SenderConfig, s: SenderState, early: seq<Turn>, late: seq<Turn>)
    requires Going(cfg, s, |early| + |late|) && LeaveOpen(early) && LeaveOpen(late)
    requires s.queue.slotCount <= |late|
    ensures Turns(cfg, s, early).queue.Valid()
    ensures var u, t := Turns(cfg, s, early), RunAll(cfg, s, early + late);
      && t.stopRequested && |u.queue.published| <= t.queue.released
  {
    RunThrough(cfg, s, early, late, |late|);
    SlotsStay(cfg, s, early);
    var u := Turns(cfg, s, early);
    EveryTurnTakesOne(cfg, u, late, |u.queue.published|);
    EndsOnlyWhenTold(cfg, u, late);
  }

  lemma {:induction false} SlotsStay(cfg: SenderConfig, s: SenderState, script: seq<Turn>)
    requires s.queue.Valid()
    ensures Turns(cfg, s, script).queue.slotCount == s.queue.slotCount
    decreases |script|
  {
    if script != [] {
      IterateKeepsQueue(cfg, s, script[0]);
      SlotsStay(cfg, Iterate(cfg, s, script[0]).state, script[1..]);
    }
  }

  /** A closure at the start of a turn is a closure before it. */
  lemma ClosureFirst(cfg: SenderConfig, s: SenderState, closing: Turn)
    requires s.queue.Valid() && closing.before == [FeedClose]
    ensures s.queue.Close().Valid()
    ensures Iterate(cfg, s, closing) == Iterate(cfg, s.(queue := s.queue.Close()), closing)
  {
    assert closing.before[1..] == [];
    assert FeedAll(s.queue, closing.before) == FeedAll(s.queue.Close(), closing.before) == s.queue.Close();
  }

  lemma SameFirstTurn(cfg: SenderConfig, s: SenderState, t: SenderState, turn: Turn, rest: seq<Turn>)
    requires s.queue.Valid() && t.queue.Valid() && !s.stopRequested && !t.stopRequested
    requires Iterate(cfg, s, turn) == Iterate(cfg, t, turn)
    ensures RunAll(cfg, s, [turn] + rest) == RunAll(cfg, t, [turn] + rest)
  {
    IterateKeepsQueue(cfg, s, turn);
    assert ([turn] + rest)[0] == turn && ([turn] + rest)[1..] == rest;
  }

  /** An open run, then the producer closes: the sender consumes everything ever published, leaves the
      ring empty and returns by itself, within one lap of turns. */
  lemma ClosureEndsOpenRun(cfg: SenderConfig, s: SenderState, script: seq<Turn>, closing: Turn, rest: seq<Turn>)
    requires Going(cfg, s, |script| + s.queue.slotCount) && LeaveOpen(script)
    requires closing.before == [FeedClose] && s.queue.slotCount <= |rest|
    ensures Turns(cfg, s, script).queue.Valid()
    ensures var u, t := Turns(cfg, s, script), RunAll(cfg, s, script + ([closing] + rest));
      t.queue == u.queue.(closed := true, released := |u.queue.published|) && !t.stopRequested
  {
    RunThrough(cfg, s, script, [closing] + rest, s.queue.slotCount);
    SlotsStay(cfg, s, script);
    var u := Turns(cfg, s, script);
    ClosureFirst(cfg, u, closing);
    SameFirstTurn(cfg, u, u.(queue := u.queue.Close()), closing, rest);
    DrainsClosedIngress(cfg, u.(queue := u.queue.Close()), [closing] + rest);
  }

  // ---- the operations on ingress, said without the sender -------------------------------------

  function FeedOps(feeds: seq<Feed>): seq<Op> {
    if feeds == [] then []
    else [match feeds[0] case FeedEvent(event) => PublishOp(event) case FeedClose => CloseOp] + FeedOps(feeds[1..])
  }

  /** What the producer does before each of the sends from d on. */
  function SendOps(turn: Turn, d: nat, destinations: nat): seq<Op>
    decreases destinations - d
  {
    if d >= destinations then [] else FeedOps(SendAt(turn, d).feeds) + SendOps(turn, d + 1, destinations)
  }

  /** Everything that happens to ingress in a turn that takes an event, sent or given up. */
  function TakingOps(turn: Turn, sent: bool, destinations: nat): seq<Op> {
    FeedOps(turn.before) + ([AcquireOp] + (FeedOps(turn.held) + ([ReleaseOp]
      + (if sent then SendOps(turn, 0, destinations) else []))))
  }

  lemma {:induction false} FeedIsRun(q: Queue, feeds: seq<Feed>)
    requires q.Valid()
    ensures Run(q, FeedOps(feeds)) == FeedAll(q, feeds)
    decreases |feeds|
  {
    if feeds != [] {
      assert FeedOps(feeds)[1..] == FeedOps(feeds[1..]);
      FeedIsRun(FeedOne(q, feeds[0]), feeds[1..]);
    }
  }

  lemma {:induction false} SendsAreRun(q: Queue, turn: Turn, d: nat, destinations: nat)
    requires q.Valid()
    ensures Run(q, SendOps(turn, d, destinations)) == QueueAfterSends(q, turn, d, destinations)
    decreases destinations - d
  {
    if d < destinations {
      FeedIsRun(q, SendAt(turn, d).feeds);
      RunAppend(q, FeedOps(SendAt(turn, d).feeds), SendOps(turn, d + 1, destinations));
      SendsAreRun(FeedAll(q, SendAt(turn, d).feeds), turn, d + 1, destinations);
    }
  }

  lemma RunOne(q: Queue, op: Op)
    requires q.Valid()
    ensures Run(q, [op]) == Apply(q, op)
  {
    assert [op][1..] == [];
  }

  /** What happens to ingress from the release on. */
  lemma ReleaseIsRun(cfg: SenderConfig, q: Queue, turn: Turn, sent: bool)
    requires q.Valid()
    ensures Run(q, [ReleaseOp] + (if sent then SendOps(turn, 0, cfg.destinations) else [])) ==
      if sent then QueueAfterSends(q.Release(), turn, 0, cfg.destinations) else q.Release()
  {
    RunOne(q, ReleaseOp);
    RunAppend(q, [ReleaseOp], if sent then SendOps(turn, 0, cfg.destinations) else []);
    SendsAreRun(q.Release(), turn, 0, cfg.destinations);
  }

  lemma RunThen(q: Queue, a: seq<Op>, r: Queue, b: seq<Op>, u: Queue)
    requires q.Valid() && Run(q, a) == r && Run(r, b) == u
    ensures Run(q, a + b) == u
  {
    RunAppend(q, a, b);
  }

  /** From the release on. */
  function AfterRelease(cfg: SenderConfig, q: Queue, turn: Turn, sent: bool): Queue {
    if sent then QueueAfterSends(q.Release(), turn, 0, cfg.destinations) else q.Release()
  }

  lemma TakingIsRun(cfg: SenderConfig, start: Queue, turn: Turn, sent: bool)
    requires start.Valid()
    ensures FeedAll(start, turn.before).Valid()
    ensures Run(start, TakingOps(turn, sent, cfg.destinations)) ==
      AfterRelease(cfg, FeedAll(FeedAll(start, turn.before).Acquire(), turn.held), turn, sent)
  {
    var q := FeedAll(start, turn.before);
    var taken := q.Acquire();
    var held := FeedAll(taken, turn.held);
    var last := AfterRelease(cfg, held, turn, sent);
    var tail := [ReleaseOp] + (if sent then SendOps(turn, 0, cfg.destinations) else []);
    ReleaseIsRun(cfg, held, turn, sent);
    FeedIsRun(taken, turn.held);
    RunThen(taken, FeedOps(turn.held), held, tail, last);
    RunOne(q, AcquireOp);
    RunThen(q, [AcquireOp], taken, FeedOps(turn.held) + tail, last);
    FeedIsRun(start, turn.before);
    RunThen(start, FeedOps(turn.before), q, [AcquireOp] + (FeedOps(turn.held) + tail), last);
  }

  /** A turn does to ingress exactly this: the producer's actions before, an acquisition, those while the
      slot is held, the release, and those before each send; with nothing queued, only the first. */
  lemma TurnIsRun(cfg: SenderConfig, s: SenderState, turn: Turn)
    requires s.queue.Valid() && !s.queue.held && s.sessionId != 0 && s.packetSequence != 0
    ensures var q := FeedAll(s.queue, turn.before);
      Iterate(cfg, s, turn).state.queue ==
        if q.released < |q.published|
        then Run(s.queue, TakingOps(turn, Encodable(q.published[q.released], cfg.limit), cfg.destinations))
        else Run(s.queue, FeedOps(turn.before))
  {
    var q := FeedAll(s.queue, turn.before);
    if q.released < |q.published| {
      TakingIsRun(cfg, s.queue, turn, Encodable(q.published[q.released], cfg.limit));
    } else {
      FeedIsRun(s.queue, turn.before);
    }
  }
}
