/** What the release/acquire ring guarantees over every run. */
module RingTheorems {
  import opened Bits
  import opened Events
  import opened Queues
  import opened RingSteps
  import opened RingInvariant

  /** No interleaving and no choice of stale loads produces a data race, and what the consumer has
      released is the beginning of what was published, metadata and payload bytes alike. */
  lemma DeliveredIsPrefixWithoutRace(cfg: Config, s0: State, actions: seq<Action>)
    requires cfg.Valid() && Initial(cfg, s0)
    ensures var s := Execute(cfg, s0, actions);
      && !s.race
      && |s.delivered| <= |s.published| <= |s.delivered| + cfg.slotCount
      && forall i :: 0 <= i < |s.delivered| ==>
           var d, e := s.delivered[i], s.published[i];
           && d.streamId == e.streamId && d.sequence == e.sequence && d.timestamp == e.timestamp
           && d.length == |e.payload|
           && forall k | k in d.seen :: k < |e.payload| && d.seen[k] == e.payload[k]
  {
    InitialInv(cfg, s0);
    KeepExecute(cfg, s0, actions);
    var s := Execute(cfg, s0, actions);
    forall i | 0 <= i < |s.delivered| ensures Matches(s.delivered[i], s.published[i]) {}
  }

  /** A slot under construction is never the slot the consumer is looking at, and the consumer
      never looks at a slot whose event is not published. */
  lemma SlotsAreExclusive(cfg: Config, s0: State, actions: seq<Action>)
    requires cfg.Valid() && Initial(cfg, s0)
    ensures var s := Execute(cfg, s0, actions);
      && (s.consumer.pc.Scanning? ==> s.consumer.pc.pos < |s.published|)
      && (s.consumer.acquired.Some? ==> s.consumer.acquired.value == |s.delivered| < |s.published|)
      && (s.producer.pc.Filling? && s.consumer.pc.Scanning? ==>
            SlotOf(cfg, s.producer.pc.pos) != SlotOf(cfg, s.consumer.pc.pos))
      && (s.producer.pc.Filling? && s.consumer.acquired.Some? ==>
            SlotOf(cfg, s.producer.pc.pos) != SlotOf(cfg, s.consumer.acquired.value))
  {
    InitialInv(cfg, s0);
    KeepExecute(cfg, s0, actions);
    var s := Execute(cfg, s0, actions);
    if s.producer.pc.Filling? {
      SlotIndex(cfg, W(s));
      SlotIndex(cfg, R(s));
      if R(s) < W(s) { FillAvoidsQueued(cfg, W(s), R(s), s.producer.view.r, R(s)); }
    }
  }

  predicate Letting(a: Action) {
    !a.CallRelease? && !a.ReplaceConsumer?
  }

  lemma HeldStep(cfg: Config, s: State, a: Action)
    requires cfg.Valid() && Inv(cfg, s) && s.consumer.acquired.Some? && Letting(a) && Next(cfg, s, a).Some?
    ensures var t := Next(cfg, s, a).value;
      t.consumer.acquired == s.consumer.acquired && R(t) == R(s) && s.published <= t.published
  {
  }

  lemma {:induction false} HeldRun(cfg: Config, s: State, more: seq<Action>)
    requires cfg.Valid() && Inv(cfg, s) && s.consumer.acquired.Some?
    requires forall i :: 0 <= i < |more| ==> Letting(more[i])
    ensures var t := Execute(cfg, s, more);
      Inv(cfg, t) && t.consumer.acquired == s.consumer.acquired && R(t) == R(s) && s.published <= t.published
    decreases |more|
  {
    if more != [] {
      var shorter := more[..|more| - 1];
      HeldRun(cfg, s, shorter);
      var t := Execute(cfg, s, shorter);
      if Next(cfg, t, more[|more| - 1]).Some? {
        HeldStep(cfg, t, more[|more| - 1]);
        KeepNext(cfg, t, more[|more| - 1]);
      }
    }
  }

  /** While a view is held nothing it covers changes, whatever the producer does in the meantime,
      and the producer completes at most one publish less than there are slots. */
  lemma HeldViewIsStable(cfg: Config, s0: State, actions: seq<Action>, more: seq<Action>)
    requires cfg.Valid() && Initial(cfg, s0)
    requires Execute(cfg, s0, actions).consumer.acquired.Some?
    requires forall i :: 0 <= i < |more| ==> Letting(more[i])
    ensures var s := Execute(cfg, s0, actions);
      var t := Execute(cfg, s, more);
      var slot := SlotOf(cfg, s.consumer.acquired.value);
      && slot < |s.slots| && slot < |t.slots| && |s.slots[slot]| == |t.slots[slot]|
      && HEADER_CELLS + s.consumer.holding.length <= |s.slots[slot]|
      && (forall c :: 0 <= c < HEADER_CELLS + s.consumer.holding.length ==>
            t.slots[slot][c].value == s.slots[slot][c].value)
      && |t.published| - |s.published| <= cfg.slotCount - 1
  {
    InitialInv(cfg, s0);
    KeepExecute(cfg, s0, actions);
    var s := Execute(cfg, s0, actions);
    HeldRun(cfg, s, more);
    var t := Execute(cfg, s, more);
    SlotIndex(cfg, R(s));
    var slot, event := R(s) % cfg.slotCount, s.published[R(s)];
    assert SlotHolds(s.slots[slot], event) && SlotHolds(t.slots[slot], t.published[R(s)]);
    forall c | 0 <= c < HEADER_CELLS + s.consumer.holding.length
      ensures t.slots[slot][c].value == s.slots[slot][c].value
    {
      HoldsCell(s.slots[slot], event, c);
      HoldsCell(t.slots[slot], event, c);
    }
  }

  /** Closed and read out: nothing can be published or delivered any more. */
  predicate Finished(s: State) {
    && s.stopped && s.consumer.view.s >= 1 && s.consumer.acquired.None?
    && |s.delivered| == |s.published|
    && s.consumer.last in {None, Some(Refused(Drained))}
    && !s.consumer.pc.Scanning?
  }

  lemma FinishedStays(cfg: Config, s: State, a: Action)
    requires cfg.Valid() && Inv(cfg, s) && Next(cfg, s, a).Some? && Finished(s)
    ensures var t := Next(cfg, s, a).value;
      Finished(t) && t.published == s.published && t.delivered == s.delivered
  {
  }

  /** The reload that sees nothing queued and has seen the closure. */
  lemma FinishedByReload(cfg: Config, s: State, pick: nat)
    requires cfg.Valid() && Inv(cfg, s) && StepConsumerLoadWrite(cfg, s, pick).Some?
    requires StepConsumerLoadWrite(cfg, s, pick).value.consumer.last == Some(Refused(Drained))
    requires s.consumer.last != Some(Refused(Drained))
    ensures Finished(StepConsumerLoadWrite(cfg, s, pick).value)
  {
  }

  /** No other step answers Closed. */
  lemma ElsewhereNotDrained(cfg: Config, s: State, a: Action)
    requires cfg.slotCount >= 1 && Next(cfg, s, a).Some? && !a.ConsumerLoadWrite?
    requires s.consumer.last != Some(Refused(Drained))
    ensures Next(cfg, s, a).value.consumer.last != Some(Refused(Drained))
  {
  }

  lemma DrainedStep(cfg: Config, s: State, a: Action)
    requires cfg.Valid() && Inv(cfg, s) && Next(cfg, s, a).Some?
    requires s.consumer.last == Some(Refused(Drained)) ==> Finished(s)
    ensures var t := Next(cfg, s, a).value;
      && (t.consumer.last == Some(Refused(Drained)) ==> Finished(t))
      && (Finished(s) ==> Finished(t) && t.published == s.published && t.delivered == s.delivered)
  {
    var t := Next(cfg, s, a).value;
    if Finished(s) {
      FinishedStays(cfg, s, a);
    } else if a.ConsumerLoadWrite? {
      if t.consumer.last == Some(Refused(Drained)) { FinishedByReload(cfg, s, a.pick); }
    } else {
      ElsewhereNotDrained(cfg, s, a);
    }
  }

  lemma {:induction false} DrainedRun(cfg: Config, s: State, more: seq<Action>)
    requires cfg.Valid() && Inv(cfg, s)
    requires s.consumer.last == Some(Refused(Drained)) ==> Finished(s)
    ensures var t := Execute(cfg, s, more);
      && Inv(cfg, t)
      && (t.consumer.last == Some(Refused(Drained)) ==> Finished(t))
      && (Finished(s) ==> Finished(t) && t.published == s.published && t.delivered == s.delivered)
    decreases |more|
  {
    if more != [] {
      var shorter := more[..|more| - 1];
      DrainedRun(cfg, s, shorter);
      var t := Execute(cfg, s, shorter);
      if Next(cfg, t, more[|more| - 1]).Some? {
        DrainedStep(cfg, t, more[|more| - 1]);
        KeepNext(cfg, t, more[|more| - 1]);
      }
    }
  }

  /** When try_acquire answers Closed, every event ever published has been delivered and released,
      and no later call gets any other answer, under every interleaving and every stale load. */
  lemma ClosedIsFinal(cfg: Config, s0: State, actions: seq<Action>, more: seq<Action>)
    requires cfg.Valid() && Initial(cfg, s0)
    requires Execute(cfg, s0, actions).consumer.last == Some(Refused(Drained))
    ensures var s := Execute(cfg, s0, actions);
      var t := Execute(cfg, s, more);
      && s.stopped && |s.delivered| == |s.published| && s.consumer.acquired.None?
      && t.published == s.published && t.delivered == s.delivered
      && t.consumer.last in {None, Some(Refused(Drained))}
  {
    InitialInv(cfg, s0);
    DrainedRun(cfg, s0, actions);
    DrainedRun(cfg, Execute(cfg, s0, actions), more);
  }

  lemma ReloadNeverInvalid(cfg: Config, s: State, pick: nat)
    requires cfg.Valid() && Inv(cfg, s) && StepConsumerLoadWrite(cfg, s, pick).Some?
    requires s.consumer.last != Some(Refused(InvalidSlot))
    ensures StepConsumerLoadWrite(cfg, s, pick).value.consumer.last != Some(Refused(InvalidSlot))
  {
    var pos, seen := s.consumer.pc.pos, s.writeLog[pick].value;
    assert Sub64(seen, pos) == seen - pos <= cfg.slotCount;
  }

  lemma FastPathNeverInvalid(cfg: Config, s: State, pick: nat)
    requires cfg.Valid() && Inv(cfg, s) && StepConsumerLoadRead(cfg, s, pick).Some?
    requires s.consumer.last != Some(Refused(InvalidSlot))
    ensures StepConsumerLoadRead(cfg, s, pick).value.consumer.last != Some(Refused(InvalidSlot))
  {
  }

  lemma ScanNeverInvalid(cfg: Config, s: State, garbage: nat)
    requires cfg.Valid() && Inv(cfg, s) && StepConsumerLoadHeader(cfg, s, garbage).Some?
    requires s.consumer.last != Some(Refused(InvalidSlot))
    ensures StepConsumerLoadHeader(cfg, s, garbage).value.consumer.last != Some(Refused(InvalidSlot))
  {
    KeepConsumerLoadHeader(cfg, s, garbage);
  }

  /** No other step can answer that a slot is invalid. */
  lemma ElsewhereNeverInvalid(cfg: Config, s: State, a: Action)
    requires cfg.slotCount >= 1 && Next(cfg, s, a).Some?
    requires !a.ConsumerLoadRead? && !a.ConsumerLoadWrite? && !a.ConsumerLoadHeader?
    requires s.consumer.last != Some(Refused(InvalidSlot))
    ensures Next(cfg, s, a).value.consumer.last != Some(Refused(InvalidSlot))
  {
  }

  lemma SaneStep(cfg: Config, s: State, a: Action)
    requires cfg.Valid() && Inv(cfg, s) && Next(cfg, s, a).Some?
    requires s.consumer.last != Some(Refused(InvalidSlot))
    ensures Next(cfg, s, a).value.consumer.last != Some(Refused(InvalidSlot))
  {
    match a
    case ConsumerLoadRead(pick) => FastPathNeverInvalid(cfg, s, pick);
    case ConsumerLoadWrite(pick) => ReloadNeverInvalid(cfg, s, pick);
    case ConsumerLoadHeader(garbage) => ScanNeverInvalid(cfg, s, garbage);
    case _ => ElsewhereNeverInvalid(cfg, s, a);
  }

  /** A publish that is refused as closed although nobody has closed has run out of cursor values. */
  predicate ClosedMeansExhausted(s: State) {
    s.producer.last == Some(PublicationClosed) ==> |s.published| == U64_MAX
  }

  lemma ClosedByStateLoad(cfg: Config, s: State, pick: nat)
    requires cfg.Valid() && Inv(cfg, s) && StepProducerLoadState(cfg, s, pick).Some?
    ensures ClosedMeansExhausted(StepProducerLoadState(cfg, s, pick).value)
  {
    assert !s.stopped && |s.stateLog| == 1;
  }

  lemma ClosedByWriteLoad(cfg: Config, s: State, pick: nat)
    requires cfg.Valid() && Inv(cfg, s) && StepProducerLoadWrite(cfg, s, pick).Some?
    ensures ClosedMeansExhausted(StepProducerLoadWrite(cfg, s, pick).value)
  {
  }

  lemma ClosedByReadLoad(cfg: Config, s: State, pick: nat)
    requires cfg.Valid() && Inv(cfg, s) && StepProducerLoadRead(cfg, s, pick).Some?
    ensures ClosedMeansExhausted(StepProducerLoadRead(cfg, s, pick).value)
  {
    assert Sub64(s.producer.pc.pos, pick) == W(s) - pick;
  }

  /** No other step answers that publication is closed. */
  lemma ElsewhereNotClosed(cfg: Config, s: State, a: Action)
    requires cfg.slotCount >= 1 && Next(cfg, s, a).Some?
    requires !a.ProducerLoadState? && !a.ProducerLoadWrite? && !a.ProducerLoadRead?
    ensures var t := Next(cfg, s, a).value;
      t.producer.last == Some(PublicationClosed) ==> t.producer.last == s.producer.last && t.published == s.published
  {
  }

  lemma ClosedStep(cfg: Config, s: State, a: Action)
    requires cfg.Valid() && Inv(cfg, s) && Next(cfg, s, a).Some? && ClosedMeansExhausted(s)
    ensures ClosedMeansExhausted(Next(cfg, s, a).value)
  {
    match a
    case ProducerLoadState(pick) => ClosedByStateLoad(cfg, s, pick);
    case ProducerLoadWrite(pick) => ClosedByWriteLoad(cfg, s, pick);
    case ProducerLoadRead(pick) => ClosedByReadLoad(cfg, s, pick);
    case _ => ElsewhereNotClosed(cfg, s, a);
  }

  /** Ring operations alone never make a slot invalid, and a publish that is refused as closed has
      run out of cursor values: the last event of a full history stays consumable. */
  lemma {:induction false} NeverInvalid(cfg: Config, s0: State, actions: seq<Action>)
    requires cfg.Valid() && Initial(cfg, s0)
    ensures var s := Execute(cfg, s0, actions);
      && s.consumer.last != Some(Refused(InvalidSlot))
      && (s.producer.last == Some(PublicationClosed) ==> |s.published| == U64_MAX)
  {
    if actions != [] {
      var shorter := actions[..|actions| - 1];
      NeverInvalid(cfg, s0, shorter);
      InitialInv(cfg, s0);
      KeepExecute(cfg, s0, shorter);
      var t := Execute(cfg, s0, shorter);
      if Next(cfg, t, actions[|actions| - 1]).Some? {
        SaneStep(cfg, t, actions[|actions| - 1]);
        ClosedStep(cfg, t, actions[|actions| - 1]);
      }
    }
  }

  /** Steps the producer still has to take, however the other thread moves. */
  function PublishWork(cfg: Config, pc: ProducerPc): nat {
    match pc
    case ProducerIdle => 0
    case LoadingState(_) => cfg.capacity + 8
    case LoadingWrite(_) => cfg.capacity + 7
    case LoadingRead(_, _) => cfg.capacity + 6
    case Filling(event, _, done) => if done <= 4 + |event.payload| then 5 + |event.payload| - done else 0
  }

  function AcquireWork(pc: ConsumerPc): nat {
    match pc
    case ConsumerIdle => 0
    case FetchingRead => |SCAN| + 3
    case FetchingState(_) => |SCAN| + 2
    case FetchingWrite(_, _) => |SCAN| + 1
    case Scanning(_, got) => if |got| <= |SCAN| then |SCAN| - |got| else 0
  }

  predicate ProducerAction(a: Action) {
    a.ProducerLoadState? || a.ProducerLoadWrite? || a.ProducerLoadRead? || a.ProducerStoreCell? || a.ProducerStoreWrite?
  }

  predicate ConsumerAction(a: Action) {
    a.ConsumerLoadRead? || a.ConsumerLoadState? || a.ConsumerLoadWrite? || a.ConsumerLoadHeader?
  }

  lemma PublishCanStep(cfg: Config, s: State)
    requires cfg.Valid() && Inv(cfg, s) && !s.producer.pc.ProducerIdle?
    ensures exists own: Action :: ProducerAction(own) && Next(cfg, s, own).Some?
  {
    SlotIndex(cfg, W(s));
    match s.producer.pc
    case LoadingState(_) => assert Next(cfg, s, ProducerLoadState(|s.stateLog| - 1)).Some?;
    case LoadingWrite(_) => assert Next(cfg, s, ProducerLoadWrite(|s.writeLog| - 1)).Some?;
    case LoadingRead(_, _) => assert Next(cfg, s, ProducerLoadRead(|s.readLog| - 1)).Some?;
    case Filling(event, _, done) =>
      if done < 4 + |event.payload| {
        assert Next(cfg, s, ProducerStoreCell).Some?;
      } else {
        assert Next(cfg, s, ProducerStoreWrite).Some?;
      }
  }

  /** try_publish never waits: in the middle of a call a step of its own is always possible, each
      such step brings the return closer, and no step of anybody else moves it. */
  lemma PublishNeverWaits(cfg: Config, s: State, a: Action)
    requires cfg.Valid() && Inv(cfg, s)
    ensures !s.producer.pc.ProducerIdle? ==> exists own: Action :: ProducerAction(own) && Next(cfg, s, own).Some?
    ensures ProducerAction(a) && Next(cfg, s, a).Some? ==>
      PublishWork(cfg, Next(cfg, s, a).value.producer.pc) < PublishWork(cfg, s.producer.pc)
    ensures !ProducerAction(a) && Next(cfg, s, a).Some? && !s.producer.pc.ProducerIdle? ==>
      Next(cfg, s, a).value.producer.pc == s.producer.pc
  {
    if !s.producer.pc.ProducerIdle? { PublishCanStep(cfg, s); }
    if Next(cfg, s, a).Some? && ProducerAction(a) { PublishProgress(cfg, s, a); }
    if Next(cfg, s, a).Some? && !ProducerAction(a) { PublishUndisturbed(cfg, s, a); }
  }

  lemma PublishProgress(cfg: Config, s: State, a: Action)
    requires cfg.Valid() && Inv(cfg, s) && ProducerAction(a) && Next(cfg, s, a).Some?
    ensures PublishWork(cfg, Next(cfg, s, a).value.producer.pc) < PublishWork(cfg, s.producer.pc)
  {
  }

  lemma PublishUndisturbed(cfg: Config, s: State, a: Action)
    requires cfg.slotCount >= 1 && !ProducerAction(a) && Next(cfg, s, a).Some?
    ensures !s.producer.pc.ProducerIdle? ==> Next(cfg, s, a).value.producer.pc == s.producer.pc
  {
  }

  lemma AcquireCanStep(cfg: Config, s: State)
    requires cfg.Valid() && Inv(cfg, s) && !s.consumer.pc.ConsumerIdle?
    ensures exists own: Action :: ConsumerAction(own) && Next(cfg, s, own).Some?
  {
    SlotIndex(cfg, R(s));
    match s.consumer.pc
    case FetchingRead => assert Next(cfg, s, ConsumerLoadRead(|s.readLog| - 1)).Some?;
    case FetchingState(_) => assert Next(cfg, s, ConsumerLoadState(|s.stateLog| - 1)).Some?;
    case FetchingWrite(_, _) => assert Next(cfg, s, ConsumerLoadWrite(|s.writeLog| - 1)).Some?;
    case Scanning(_, _) => assert Next(cfg, s, ConsumerLoadHeader(0)).Some?;
  }

  /** try_acquire never waits either. */
  lemma AcquireNeverWaits(cfg: Config, s: State, a: Action)
    requires cfg.Valid() && Inv(cfg, s)
    ensures !s.consumer.pc.ConsumerIdle? ==> exists own: Action :: ConsumerAction(own) && Next(cfg, s, own).Some?
    ensures ConsumerAction(a) && Next(cfg, s, a).Some? ==>
      AcquireWork(Next(cfg, s, a).value.consumer.pc) < AcquireWork(s.consumer.pc)
    ensures !ConsumerAction(a) && Next(cfg, s, a).Some? && !s.consumer.pc.ConsumerIdle? ==>
      Next(cfg, s, a).value.consumer.pc == s.consumer.pc
  {
    if !s.consumer.pc.ConsumerIdle? { AcquireCanStep(cfg, s); }
    if Next(cfg, s, a).Some? && ConsumerAction(a) { AcquireProgress(cfg, s, a); }
    if Next(cfg, s, a).Some? && !ConsumerAction(a) { AcquireUndisturbed(cfg, s, a); }
  }

  lemma AcquireProgress(cfg: Config, s: State, a: Action)
    requires cfg.Valid() && Inv(cfg, s) && ConsumerAction(a) && Next(cfg, s, a).Some?
    ensures AcquireWork(Next(cfg, s, a).value.consumer.pc) < AcquireWork(s.consumer.pc)
  {
  }

  lemma AcquireUndisturbed(cfg: Config, s: State, a: Action)
    requires cfg.slotCount >= 1 && !ConsumerAction(a) && Next(cfg, s, a).Some?
    ensures !s.consumer.pc.ConsumerIdle? ==> Next(cfg, s, a).value.consumer.pc == s.consumer.pc
  {
  }

  // ---- refinement of the atomic queue ------------------------------------------------------

  /** The ring as the consumer knows it: what has reached it of the producer's history. */
  function ConsumerQueue(cfg: Config, s: State): Queue
    requires s.consumer.view.w <= |s.published|
  {
    Queue(cfg.slotCount, cfg.capacity, s.published[..s.consumer.view.w], |s.delivered|,
          s.consumer.acquired.Some?, s.consumer.view.s >= 1)
  }

  /** The ring as the producer knows it: what has reached it of the consumer's releases. */
  function ProducerQueue(cfg: Config, s: State): Queue
    requires s.producer.view.r <= |s.published|
  {
    Queue(cfg.slotCount, cfg.capacity, s.published, s.producer.view.r, false, false)
  }

  function CodeOf(q: Queue): AcquireResult
    requires q.released <= |q.published|
  {
    match q.AcquireCode()
    case Ok(_) => Acquired
    case Err(error) => Refused(error)
  }

  predicate AnswersAs(cfg: Config, t: State, held: bool) {
    && |t.delivered| <= t.consumer.view.w <= |t.published|
    && t.consumer.last == Some(CodeOf(ConsumerQueue(cfg, t).(held := held)))
  }

  lemma AnswerWithoutReload(cfg: Config, s: State, a: Action)
    requires cfg.Valid() && Inv(cfg, s) && (a.CallAcquire? || a.ConsumerLoadRead? || a.ConsumerLoadState?)
    requires Next(cfg, s, a).Some? && Next(cfg, s, a).value.consumer.last.Some?
    ensures AnswersAs(cfg, Next(cfg, s, a).value, s.consumer.acquired.Some?)
  {
  }

  lemma AnswerAfterReload(cfg: Config, s: State, pick: nat)
    requires cfg.Valid() && Inv(cfg, s)
    requires StepConsumerLoadWrite(cfg, s, pick).Some?
    requires StepConsumerLoadWrite(cfg, s, pick).value.consumer.last.Some?
    ensures AnswersAs(cfg, StepConsumerLoadWrite(cfg, s, pick).value, s.consumer.acquired.Some?)
  {
    ReloadNeverInvalid(cfg, s, pick);
    var t := StepConsumerLoadWrite(cfg, s, pick).value;
    assert t.consumer.view.w == pick && t.consumer.view.s == s.consumer.view.s;
  }

  lemma AnswerAfterScan(cfg: Config, s: State, garbage: nat)
    requires cfg.Valid() && Inv(cfg, s)
    requires StepConsumerLoadHeader(cfg, s, garbage).Some?
    requires StepConsumerLoadHeader(cfg, s, garbage).value.consumer.last.Some?
    ensures AnswersAs(cfg, StepConsumerLoadHeader(cfg, s, garbage).value, s.consumer.acquired.Some?)
  {
    KeepConsumerLoadHeader(cfg, s, garbage);
    var t := StepConsumerLoadHeader(cfg, s, garbage).value;
    assert t.published == s.published && t.consumer.view == s.consumer.view;
  }

  lemma AcquireAnswersStep(cfg: Config, s: State, a: Action)
    requires cfg.Valid() && Inv(cfg, s) && Next(cfg, s, a).Some?
    requires a.CallAcquire? || ConsumerAction(a)
    requires Next(cfg, s, a).value.consumer.last.Some?
    ensures AnswersAs(cfg, Next(cfg, s, a).value, s.consumer.acquired.Some?)
  {
    match a
    case ConsumerLoadWrite(pick) => AnswerAfterReload(cfg, s, pick);
    case ConsumerLoadHeader(garbage) => AnswerAfterScan(cfg, s, garbage);
    case _ => AnswerWithoutReload(cfg, s, a);
  }

  /** On every run, every answer of try_acquire is the answer of the atomic queue the consumer knows
      at that moment. */
  lemma AcquireAnswers(cfg: Config, s0: State, actions: seq<Action>, a: Action)
    requires cfg.Valid() && Initial(cfg, s0) && (a.CallAcquire? || ConsumerAction(a))
    requires Next(cfg, Execute(cfg, s0, actions), a).Some?
    requires Next(cfg, Execute(cfg, s0, actions), a).value.consumer.last.Some?
    ensures var s := Execute(cfg, s0, actions);
      AnswersAs(cfg, Next(cfg, s, a).value, s.consumer.acquired.Some?)
  {
    InitialInv(cfg, s0);
    KeepExecute(cfg, s0, actions);
    AcquireAnswersStep(cfg, Execute(cfg, s0, actions), a);
  }

  predicate PublishAnswersAs(cfg: Config, s: State, t: State)
    requires !s.producer.pc.ProducerIdle?
  {
    && t.producer.view.r <= |s.published|
    && t.producer.last == Some(ProducerQueue(cfg, s.(producer := t.producer)).PublishCode(s.producer.pc.event))
  }

  lemma PublishAnswersEarly(cfg: Config, s: State, a: Action)
    requires cfg.Valid() && Inv(cfg, s) && (a.ProducerLoadState? || a.ProducerLoadWrite?)
    requires Next(cfg, s, a).Some? && Next(cfg, s, a).value.producer.last.Some?
    ensures PublishAnswersAs(cfg, s, Next(cfg, s, a).value)
  {
    assert !s.stopped && |s.stateLog| == 1;
    if a.ProducerLoadState? {
      assert a.pick == 0;
    } else {
      assert a.pick == W(s) == |s.published|;
    }
  }

  lemma PublishAnswersFull(cfg: Config, s: State, pick: nat)
    requires cfg.Valid() && Inv(cfg, s)
    requires StepProducerLoadRead(cfg, s, pick).Some?
    requires StepProducerLoadRead(cfg, s, pick).value.producer.last.Some?
    ensures PublishAnswersAs(cfg, s, StepProducerLoadRead(cfg, s, pick).value)
  {
    ReloadedRead(cfg, s, pick);
    assert Sub64(s.producer.pc.pos, pick) == W(s) - pick;
  }

  lemma ReloadedRead(cfg: Config, s: State, pick: nat)
    requires cfg.Valid() && Inv(cfg, s) && StepProducerLoadRead(cfg, s, pick).Some?
    ensures StepProducerLoadRead(cfg, s, pick).value.producer.view.r == pick == s.readLog[pick].value
    ensures pick <= s.producer.pc.pos == W(s) == |s.published| <= pick + cfg.slotCount
  {
  }

  lemma PublishAnswersStep(cfg: Config, s: State, a: Action)
    requires cfg.Valid() && Inv(cfg, s) && ProducerAction(a)
    requires Next(cfg, s, a).Some? && Next(cfg, s, a).value.producer.last.Some?
    ensures PublishAnswersAs(cfg, s, Next(cfg, s, a).value)
  {
    match a
    case ProducerLoadRead(pick) => PublishAnswersFull(cfg, s, pick);
    case ProducerStoreWrite =>
    case ProducerStoreCell =>
    case _ => PublishAnswersEarly(cfg, s, a);
  }

  /** On every run, every answer of try_publish is the answer of the atomic queue the producer knows
      at that moment. */
  lemma PublishAnswers(cfg: Config, s0: State, actions: seq<Action>, a: Action)
    requires cfg.Valid() && Initial(cfg, s0) && ProducerAction(a)
    requires Next(cfg, Execute(cfg, s0, actions), a).Some?
    requires Next(cfg, Execute(cfg, s0, actions), a).value.producer.last.Some?
    ensures var s := Execute(cfg, s0, actions);
      !s.producer.pc.ProducerIdle? && PublishAnswersAs(cfg, s, Next(cfg, s, a).value)
  {
    InitialInv(cfg, s0);
    KeepExecute(cfg, s0, actions);
    PublishAnswersStep(cfg, Execute(cfg, s0, actions), a);
  }
}
