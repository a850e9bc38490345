/** What the release/acquire ring can do: on every reachable state each step is possible exactly when
    its thread has got there, whatever the other thread does, and each plain access touches the word
    it should, ordered after every conflicting one. */
module RingProgress {
  import opened Bits
  import opened Events
  import opened Geometry
  import opened RingSteps
  import opened RingInvariant
  import opened RingTheorems

  /** A store that a load may return: not older than what the thread knows, and already made. */
  predicate MayReturn(known: nat, pick: nat, stores: nat) {
    known <= pick < stores
  }

  /** When each step is possible, by where its own thread stands. */
  predicate Ready(s: State, a: Action) {
    match a
    case CallPublish(_) => s.producer.pc.ProducerIdle? && !s.stopped
    case ProducerLoadState(pick) => s.producer.pc.LoadingState? && MayReturn(s.producer.view.s, pick, |s.stateLog|)
    case ProducerLoadWrite(pick) => s.producer.pc.LoadingWrite? && MayReturn(s.producer.view.w, pick, |s.writeLog|)
    case ProducerLoadRead(pick) => s.producer.pc.LoadingRead? && MayReturn(s.producer.view.r, pick, |s.readLog|)
    case ProducerStoreCell => s.producer.pc.Filling? && s.producer.pc.done < 4 + |s.producer.pc.event.payload|
    case ProducerStoreWrite => s.producer.pc.Filling? && s.producer.pc.done == 4 + |s.producer.pc.event.payload|
    case CallAcquire => s.consumer.pc.ConsumerIdle?
    case ConsumerLoadRead(pick) => s.consumer.pc.FetchingRead? && MayReturn(s.consumer.view.r, pick, |s.readLog|)
    case ConsumerLoadState(pick) => s.consumer.pc.FetchingState? && MayReturn(s.consumer.view.s, pick, |s.stateLog|)
    case ConsumerLoadWrite(pick) => s.consumer.pc.FetchingWrite? && MayReturn(s.consumer.view.w, pick, |s.writeLog|)
    case ConsumerLoadHeader(_) => s.consumer.pc.Scanning?
    case ConsumerLoadPayload(index, _) =>
      && s.consumer.pc.ConsumerIdle? && s.consumer.acquired.Some?
      && |s.delivered| < |s.published| && index < |s.published[|s.delivered|].payload|
    case CallRelease => s.consumer.pc.ConsumerIdle? && s.consumer.acquired.Some?
    case StopProducer => s.producer.pc.ProducerIdle?
    case ClosePublication => s.stopped
    case ReplaceProducer => s.producer.pc.ProducerIdle? && !s.stopped
    case ReplaceConsumer => s.consumer.pc.ConsumerIdle?
  }

  lemma ProducerEnabled(cfg: Config, s: State, a: Action)
    requires cfg.Valid() && Inv(cfg, s)
    requires a.CallPublish? || ProducerAction(a) || a.StopProducer? || a.ClosePublication? || a.ReplaceProducer?
    ensures Next(cfg, s, a).Some? <==> Ready(s, a)
  {
    SlotIndex(cfg, W(s));
  }

  lemma ConsumerEnabled(cfg: Config, s: State, a: Action)
    requires cfg.Valid() && Inv(cfg, s)
    requires a.CallAcquire? || ConsumerAction(a) || a.CallRelease? || a.ReplaceConsumer?
    ensures Next(cfg, s, a).Some? <==> Ready(s, a)
  {
    SlotIndex(cfg, R(s));
  }

  lemma PayloadEnabled(cfg: Config, s: State, index: nat, garbage: nat)
    requires cfg.Valid() && Inv(cfg, s)
    ensures Next(cfg, s, ConsumerLoadPayload(index, garbage)).Some? <==> Ready(s, ConsumerLoadPayload(index, garbage))
  {
    SlotIndex(cfg, R(s));
  }

  lemma EnabledStep(cfg: Config, s: State, a: Action)
    requires cfg.Valid() && Inv(cfg, s)
    ensures Next(cfg, s, a).Some? <==> Ready(s, a)
  {
    if a.CallPublish? || ProducerAction(a) || a.StopProducer? || a.ClosePublication? || a.ReplaceProducer? {
      ProducerEnabled(cfg, s, a);
    } else if a.ConsumerLoadPayload? {
      PayloadEnabled(cfg, s, a.index, a.garbage);
    } else {
      ConsumerEnabled(cfg, s, a);
    }
  }

  /** On every reachable state a step is possible if and only if its own thread is ready for it: calls
      can always be made, every admissible stale store can be loaded, and nothing else blocks. */
  lemma Enabled(cfg: Config, s0: State, actions: seq<Action>, a: Action)
    requires cfg.Valid() && Initial(cfg, s0)
    ensures var s := Execute(cfg, s0, actions);
      Next(cfg, s, a).Some? <==> Ready(s, a)
  {
    InitialInv(cfg, s0);
    KeepExecute(cfg, s0, actions);
    EnabledStep(cfg, Execute(cfg, s0, actions), a);
  }

  /** Every release delivers one more event and stores the number of events delivered. */
  lemma ReleaseDelivers(cfg: Config, s0: State, actions: seq<Action>)
    requires cfg.Valid() && Initial(cfg, s0)
    requires Next(cfg, Execute(cfg, s0, actions), CallRelease).Some?
    ensures var s := Execute(cfg, s0, actions);
      var t := Next(cfg, s, CallRelease).value;
      && |t.delivered| == |s.delivered| + 1 && t.delivered[..|s.delivered|] == s.delivered
      && t.consumer.acquired.None? && t.published == s.published
      && |t.readLog| == |s.readLog| + 1 && t.readLog[|s.readLog|].value == |t.delivered|
  {
    InitialInv(cfg, s0);
    KeepExecute(cfg, s0, actions);
    ReleaseDeliversStep(cfg, Execute(cfg, s0, actions));
  }

  lemma ReleaseDeliversStep(cfg: Config, s: State)
    requires cfg.Valid() && Inv(cfg, s) && StepCallRelease(s).Some?
    ensures var t := StepCallRelease(s).value;
      && t.delivered == s.delivered + [s.consumer.holding] && t.consumer.acquired.None? && t.published == s.published
      && |t.readLog| == |s.readLog| + 1 && t.readLog[|s.readLog|].value == |t.delivered|
  {
    KeepCallRelease(cfg, s);
  }

  /** Every publishing store publishes one more event and stores the number of events published. */
  lemma StorePublishes(cfg: Config, s0: State, actions: seq<Action>)
    requires cfg.Valid() && Initial(cfg, s0)
    requires Next(cfg, Execute(cfg, s0, actions), ProducerStoreWrite).Some?
    ensures var s := Execute(cfg, s0, actions);
      var t := Next(cfg, s, ProducerStoreWrite).value;
      && t.published == s.published + [s.producer.pc.event]
      && |t.writeLog| == |s.writeLog| + 1 && t.writeLog[|s.writeLog|].value == |t.published|
  {
    InitialInv(cfg, s0);
    KeepExecute(cfg, s0, actions);
  }

  /** A payload read through a held view returns the published byte, whatever the garbage. */
  lemma PayloadReads(cfg: Config, s0: State, actions: seq<Action>, index: nat, garbage: nat)
    requires cfg.Valid() && Initial(cfg, s0)
    requires Next(cfg, Execute(cfg, s0, actions), ConsumerLoadPayload(index, garbage)).Some?
    ensures var s := Execute(cfg, s0, actions);
      var t := Next(cfg, s, ConsumerLoadPayload(index, garbage)).value;
      && |s.delivered| < |s.published| && index < |s.published[|s.delivered|].payload|
      && t.consumer.holding.seen == s.consumer.holding.seen[index := s.published[|s.delivered|].payload[index] as nat]
      && t.published == s.published && t.delivered == s.delivered && t.consumer.acquired == s.consumer.acquired
  {
    InitialInv(cfg, s0);
    KeepExecute(cfg, s0, actions);
    PayloadReadsStep(cfg, Execute(cfg, s0, actions), index, garbage);
  }

  lemma PayloadReadsStep(cfg: Config, s: State, index: nat, garbage: nat)
    requires cfg.Valid() && Inv(cfg, s) && StepConsumerLoadPayload(cfg, s, index, garbage).Some?
    ensures |s.delivered| < |s.published| && index < |s.published[|s.delivered|].payload|
    ensures var t := StepConsumerLoadPayload(cfg, s, index, garbage).value;
      && t.consumer.holding.seen == s.consumer.holding.seen[index := s.published[|s.delivered|].payload[index] as nat]
      && t == s.(slots := t.slots, race := t.race, consumer := s.consumer.(holding := t.consumer.holding))
  {
    PayloadLoad(cfg, s, index, garbage);
  }

  /** The same memory but for one word. */
  predicate OnlyChanges(a: seq<seq<Cell>>, b: seq<seq<Cell>>, slot: nat, cell: nat) {
    && |a| == |b| && (forall j :: 0 <= j < |a| ==> |a[j]| == |b[j]|)
    && forall j, c :: 0 <= j < |a| && 0 <= c < |a[j]| && (j != slot || c != cell) ==> a[j][c] == b[j][c]
  }

  /** A plain store goes into the slot of the next position, puts the event's word there, leaves every
      other word alone, is stamped with that position, and comes after every read of the word that was
      ever made: the release that followed that read is known to the producer. */
  lemma StoreIsOrdered(cfg: Config, s0: State, actions: seq<Action>)
    requires cfg.Valid() && Initial(cfg, s0)
    requires Next(cfg, Execute(cfg, s0, actions), ProducerStoreCell).Some?
    ensures var s := Execute(cfg, s0, actions);
      var t := Next(cfg, s, ProducerStoreCell).value;
      var slot, cell := |s.published| % cfg.slotCount, FillCell(s.producer.pc.done);
      && slot < |s.slots| && cell < |s.slots[slot]| && OnlyChanges(s.slots, t.slots, slot, cell)
      && t.slots[slot][cell].value == EventCell(s.producer.pc.event, cell)
      && t.slots[slot][cell].writtenAt == |s.published| + 1
      && t.slots[slot][cell].readAt == s.slots[slot][cell].readAt <= s.producer.view.r
  {
    InitialInv(cfg, s0);
    KeepExecute(cfg, s0, actions);
    StoreIsOrderedStep(cfg, Execute(cfg, s0, actions));
  }

  lemma StoreIsOrderedStep(cfg: Config, s: State)
    requires cfg.Valid() && Inv(cfg, s) && StepProducerStoreCell(cfg, s).Some?
    ensures var t := StepProducerStoreCell(cfg, s).value;
      var slot, cell := |s.published| % cfg.slotCount, FillCell(s.producer.pc.done);
      && slot < |s.slots| && cell < |s.slots[slot]| && OnlyChanges(s.slots, t.slots, slot, cell)
      && t.slots[slot][cell].value == EventCell(s.producer.pc.event, cell)
      && t.slots[slot][cell].writtenAt == |s.published| + 1
      && t.slots[slot][cell].readAt == s.slots[slot][cell].readAt <= s.producer.view.r
  {
    SlotIndex(cfg, W(s));
    var slot, cell := W(s) % cfg.slotCount, FillCell(s.producer.pc.done);
    FillAfterRelease(cfg, slot, s.slots[slot][cell].readAt, W(s), R(s), s.producer.view.r);
  }

  /** The words that a load step of the consumer looks at. */
  function LoadedCell(s: State, a: Action): nat {
    if a.ConsumerLoadPayload? then HEADER_CELLS + a.index
    else if s.consumer.pc.Scanning? && |s.consumer.pc.got| < |SCAN| then SCAN[|s.consumer.pc.got|] else 0
  }

  /** A plain load looks at the slot of the oldest position not yet released, is stamped with that
      position, disturbs nothing, and comes after the write it sees: that write was published by a store
      which the consumer knows. */
  lemma LoadIsOrdered(cfg: Config, s0: State, actions: seq<Action>, a: Action)
    requires cfg.Valid() && Initial(cfg, s0) && (a.ConsumerLoadHeader? || a.ConsumerLoadPayload?)
    requires Next(cfg, Execute(cfg, s0, actions), a).Some?
    ensures var s := Execute(cfg, s0, actions);
      var t := Next(cfg, s, a).value;
      var slot, cell := |s.delivered| % cfg.slotCount, LoadedCell(s, a);
      && slot < |s.slots| && cell < |s.slots[slot]| && OnlyChanges(s.slots, t.slots, slot, cell)
      && t.slots[slot][cell] == s.slots[slot][cell].(readAt := |s.delivered| + 1)
      && s.slots[slot][cell].writtenAt <= s.consumer.view.w
  {
    InitialInv(cfg, s0);
    KeepExecute(cfg, s0, actions);
    LoadIsOrderedStep(cfg, Execute(cfg, s0, actions), a);
  }

  lemma LoadIsOrderedStep(cfg: Config, s: State, a: Action)
    requires cfg.Valid() && Inv(cfg, s) && (a.ConsumerLoadHeader? || a.ConsumerLoadPayload?) && Next(cfg, s, a).Some?
    ensures var t := Next(cfg, s, a).value;
      var slot, cell := |s.delivered| % cfg.slotCount, LoadedCell(s, a);
      && slot < |s.slots| && cell < |s.slots[slot]| && OnlyChanges(s.slots, t.slots, slot, cell)
      && t.slots[slot][cell] == s.slots[slot][cell].(readAt := |s.delivered| + 1)
      && s.slots[slot][cell].writtenAt <= s.consumer.view.w
  {
    match a
    case ConsumerLoadHeader(garbage) => HeaderIsOrdered(cfg, s, garbage);
    case ConsumerLoadPayload(index, garbage) => PayloadIsOrdered(cfg, s, index, garbage);
  }

  lemma HeaderIsOrdered(cfg: Config, s: State, garbage: nat)
    requires cfg.Valid() && Inv(cfg, s) && StepConsumerLoadHeader(cfg, s, garbage).Some?
    ensures var t := StepConsumerLoadHeader(cfg, s, garbage).value;
      var slot, cell := |s.delivered| % cfg.slotCount, SCAN[|s.consumer.pc.got|];
      && slot < |s.slots| && cell < |s.slots[slot]| && OnlyChanges(s.slots, t.slots, slot, cell)
      && t.slots[slot][cell] == s.slots[slot][cell].(readAt := |s.delivered| + 1)
      && s.slots[slot][cell].writtenAt <= s.consumer.view.w
  {
    HeaderLoad(cfg, s, garbage);
    SeenWriteIsKnown(cfg, s, SCAN[|s.consumer.pc.got|]);
  }

  lemma PayloadIsOrdered(cfg: Config, s: State, index: nat, garbage: nat)
    requires cfg.Valid() && Inv(cfg, s) && StepConsumerLoadPayload(cfg, s, index, garbage).Some?
    ensures var t := StepConsumerLoadPayload(cfg, s, index, garbage).value;
      var slot, cell := |s.delivered| % cfg.slotCount, HEADER_CELLS + index;
      && slot < |s.slots| && cell < |s.slots[slot]| && OnlyChanges(s.slots, t.slots, slot, cell)
      && t.slots[slot][cell] == s.slots[slot][cell].(readAt := |s.delivered| + 1)
      && s.slots[slot][cell].writtenAt <= s.consumer.view.w
  {
    PayloadLoad(cfg, s, index, garbage);
    SeenWriteIsKnown(cfg, s, HEADER_CELLS + index);
  }

  lemma SeenWriteIsKnown(cfg: Config, s: State, cell: nat)
    requires cfg.Valid() && Inv(cfg, s) && R(s) < s.consumer.cachedWrite
    requires R(s) % cfg.slotCount < |s.slots| && cell < |s.slots[R(s) % cfg.slotCount]|
    ensures s.slots[R(s) % cfg.slotCount][cell].writtenAt <= s.consumer.view.w
  {
    assert StampedBy(s.slots[R(s) % cfg.slotCount], R(s) + 1);
  }

  /** The view in which each component is the greater one. */
  predicate IsJoin(v: View, a: View, b: View) {
    && v.w == (if a.w < b.w then b.w else a.w) && v.r == (if a.r < b.r then b.r else a.r)
    && v.s == (if a.s < b.s then b.s else a.s)
  }

  /** A relaxed load learns only which store it returned; an acquire load learns what the storing thread
      knew when it released that store, and no more. */
  lemma ProducerLoadsTeach(cfg: Config, s: State, pick: nat)
    requires cfg.slotCount >= 1
    ensures var n := StepProducerLoadState(cfg, s, pick);
      n.Some? ==> IsJoin(n.value.producer.view, s.producer.view, s.stateLog[pick].view)
    ensures var n := StepProducerLoadWrite(cfg, s, pick);
      n.Some? ==> n.value.producer.view == View(pick, s.producer.view.r, s.producer.view.s)
    ensures var n := StepProducerLoadRead(cfg, s, pick);
      n.Some? ==> IsJoin(n.value.producer.view, s.producer.view, s.readLog[pick].view)
  {
  }

  /** Likewise for the consumer. */
  lemma ConsumerLoadsTeach(cfg: Config, s: State, pick: nat)
    requires cfg.slotCount >= 1
    ensures var n := StepConsumerLoadRead(cfg, s, pick);
      n.Some? ==> n.value.consumer.view == View(s.consumer.view.w, pick, s.consumer.view.s)
    ensures var n := StepConsumerLoadState(s, pick);
      n.Some? ==> IsJoin(n.value.consumer.view, s.consumer.view, s.stateLog[pick].view)
    ensures var n := StepConsumerLoadWrite(cfg, s, pick);
      n.Some? ==> IsJoin(n.value.consumer.view, s.consumer.view, s.writeLog[pick].view)
  {
  }

  /** A release store carries exactly what its thread knows, its own store included. */
  lemma StoresTell(cfg: Config, s: State)
    requires cfg.slotCount >= 1 && |s.writeLog| > 0 && |s.readLog| > 0 && |s.stateLog| > 0
    ensures var n := Next(cfg, s, ProducerStoreWrite);
      var told := View(|s.writeLog|, s.producer.view.r, s.producer.view.s);
      n.Some? ==> n.value.writeLog[|s.writeLog|..] == [Store(s.producer.pc.pos + 1, told)]
    ensures var n := Next(cfg, s, ClosePublication);
      n.Some? ==> n.value.stateLog[|s.stateLog|..] == [Store(CLOSED, View(s.closer.w, s.closer.r, |s.stateLog|))]
    ensures var n := Next(cfg, s, StopProducer);
      n.Some? ==> IsJoin(n.value.closer, s.closer, s.producer.view)
  {
  }
}
