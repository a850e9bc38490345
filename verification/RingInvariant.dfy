/** What every step of the release/acquire ring keeps. The invariant is a conjunction of facts
    about separate parts of the state, so that a step only has to re-establish what it touches. */
module RingInvariant {
  import opened Bits
  import opened Events
  import opened Geometry
  import opened RingSteps

  /** The two cursors: the number of release stores made to each. */
  function W(s: State): int { |s.writeLog| - 1 }
  function R(s: State): int { |s.readLog| - 1 }

  predicate Within(view: View, w: int, r: int, states: int) {
    view.w <= w && view.r <= r && view.s < states
  }

  /** Write cursor stores count upwards by one, and none of them knows of a closure. */
  ghost predicate WriteLogOk(log: seq<Store>, r: int) {
    && |log| >= 1
    && (forall i :: 0 <= i < |log| ==>
          log[i].value == i && log[i].view.w == i && log[i].view.r <= r && log[i].view.s == 0)
  }

  ghost predicate ReadLogOk(log: seq<Store>, w: int, states: int) {
    && |log| >= 1
    && (forall i :: 0 <= i < |log| ==>
          log[i].value == i && log[i].view.r == i && log[i].view.w <= w && log[i].view.s < states)
  }

  /** Every store of CLOSED carries the final write cursor. */
  ghost predicate StateLogOk(log: seq<Store>, w: int, r: int) {
    && |log| >= 1
    && (forall i :: 0 <= i < |log| ==>
          && log[i].value == (if i == 0 then READY else CLOSED)
          && Within(log[i].view, w, r, |log|)
          && (log[i].view.s >= 1 <==> i >= 1)
          && (i >= 1 ==> log[i].view.w == w))
  }

  predicate CountsOk(cfg: Config, w: int, r: int, published: seq<Event>, delivered: nat) {
    && r <= w <= r + cfg.slotCount
    && w <= U64_MAX
    && |published| == w
    && delivered == r
    && (forall p :: 0 <= p < |published| ==> |published[p].payload| <= cfg.capacity)
  }

  /** The producer knows its own stores; its cache never runs ahead of what it knows. */
  predicate ProducerOk(cfg: Config, p: Producer, w: int, r: int, states: int) {
    && Within(p.view, w, r, states) && p.view.w == w <= p.view.r + cfg.slotCount && p.cachedRead <= p.view.r
    && (!p.pc.ProducerIdle? ==> p.last.None?)
    && (match p.pc
        case ProducerIdle => true
        case LoadingState(event) => true
        case LoadingWrite(event) => |event.payload| <= cfg.capacity
        case LoadingRead(event, pos) => |event.payload| <= cfg.capacity && pos == w < U64_MAX
        case Filling(event, pos, done) =>
          && |event.payload| <= cfg.capacity && pos == w < U64_MAX
          && done <= 4 + |event.payload|
          && w < p.cachedRead + cfg.slotCount)
  }

  predicate LifeCycleOk(p: Producer, closer: View, stopped: bool, w: int, r: int, states: int) {
    && Within(closer, w, r, states)
    && (states > 1 ==> stopped)
    && (stopped ==> closer.w == w && p.pc.ProducerIdle?)
  }

  predicate SlotHolds(slot: seq<Cell>, event: Event) {
    && HEADER_CELLS + |event.payload| <= |slot|
    && slot[0].value == event.sequence && slot[1].value == event.timestamp && slot[2].value == event.streamId
    && slot[3].value == |event.payload|
    && (forall i :: 0 <= i < |event.payload| ==> slot[HEADER_CELLS + i].value == event.payload[i])
  }

  ghost predicate ShapeOk(cfg: Config, slots: seq<seq<Cell>>) {
    && |slots| == cfg.slotCount
    && (forall j :: 0 <= j < |slots| ==>
          |slots[j]| == HEADER_CELLS + cfg.capacity && slots[j][4].value == 0 && slots[j][5].value == 0)
  }

  /** The slots of queued positions hold the events published there. */
  ghost predicate QueuedOk(cfg: Config, slots: seq<seq<Cell>>, published: seq<Event>, r: int)
    requires cfg.slotCount == |slots| > 0
  {
    forall p {:trigger published[p]} :: 0 <= r <= p < |published| ==> SlotHolds(slots[p % cfg.slotCount], published[p])
  }

  /** The words already stored by the publish in progress. */
  ghost predicate FillOk(cfg: Config, slots: seq<seq<Cell>>, pc: ProducerPc, w: int)
    requires cfg.slotCount == |slots| > 0
  {
    pc.Filling? && w >= 0 ==>
      forall i :: 0 <= i < pc.done && FillCell(i) < |slots[w % cfg.slotCount]| ==>
        slots[w % cfg.slotCount][FillCell(i)].value == EventCell(pc.event, FillCell(i))
  }

  /** A word of a queued slot was last written for that position at the latest. */
  ghost predicate WriteStampsOk(cfg: Config, slots: seq<seq<Cell>>, w: int, r: int)
    requires cfg.slotCount == |slots| > 0
  {
    && (forall j, c :: 0 <= j < |slots| && 0 <= c < |slots[j]| ==> slots[j][c].writtenAt <= w + 1)
    && (forall p :: 0 <= r <= p < w ==> StampedBy(slots[p % cfg.slotCount], p + 1))
  }

  predicate StampedBy(slot: seq<Cell>, stamp: nat) {
    forall c :: 0 <= c < |slot| ==> slot[c].writtenAt <= stamp
  }

  /** A word was last read for a published position of its own slot, not beyond the read cursor. */
  predicate ReadStampOk(cfg: Config, j: nat, at: nat, w: int, r: int)
    requires cfg.slotCount > 0
  {
    at == 0 || ((at - 1) % cfg.slotCount == j && at - 1 <= r && at - 1 < w)
  }

  ghost predicate ReadStampsOk(cfg: Config, slots: seq<seq<Cell>>, w: int, r: int)
    requires cfg.slotCount > 0
  {
    forall j, c :: 0 <= j < |slots| && 0 <= c < |slots[j]| ==> ReadStampOk(cfg, j, slots[j][c].readAt, w, r)
  }

  predicate Matches(d: Delivery, event: Event) {
    && d.streamId == event.streamId && d.sequence == event.sequence && d.timestamp == event.timestamp
    && d.length == |event.payload|
    && (forall i | i in d.seen :: i < |event.payload| && d.seen[i] == event.payload[i])
  }

  ghost predicate ConsumerOk(c: Consumer, published: seq<Event>, r: int, states: int)
  {
    var w := |published|;
    && Within(c.view, w, r, states) && c.view.r == r <= c.view.w && c.cachedWrite <= c.view.w
    && (c.view.s >= 1 ==> c.view.w == w)
    && (!c.pc.ConsumerIdle? ==> c.last.None?)
    && (c.acquired.Some? ==>
          && c.pc.ConsumerIdle? && r < c.cachedWrite && c.acquired.value == r
          && Matches(c.holding, published[r]))
    && (match c.pc
        case ConsumerIdle => true
        case FetchingRead => true
        case FetchingState(pos) => pos == r && c.cachedWrite <= pos
        case FetchingWrite(pos, closed) => pos == r && c.cachedWrite <= pos && (closed <==> c.view.s >= 1)
        case Scanning(pos, got) =>
          && pos == r < c.cachedWrite && |got| < |SCAN|
          && (forall i :: 0 <= i < |got| ==> got[i] == EventCell(published[pos], SCAN[i])))
  }

  ghost predicate DeliveredOk(delivered: seq<Delivery>, published: seq<Event>) {
    && |delivered| <= |published|
    && (forall i :: 0 <= i < |delivered| ==> Matches(delivered[i], published[i]))
  }

  ghost predicate Inv(cfg: Config, s: State)
  {
    && cfg.slotCount > 0
    && WriteLogOk(s.writeLog, R(s)) && ReadLogOk(s.readLog, W(s), |s.stateLog|) && StateLogOk(s.stateLog, W(s), R(s))
    && CountsOk(cfg, W(s), R(s), s.published, |s.delivered|)
    && ProducerOk(cfg, s.producer, W(s), R(s), |s.stateLog|)
    && LifeCycleOk(s.producer, s.closer, s.stopped, W(s), R(s), |s.stateLog|)
    && ShapeOk(cfg, s.slots)
    && QueuedOk(cfg, s.slots, s.published, R(s))
    && FillOk(cfg, s.slots, s.producer.pc, W(s))
    && WriteStampsOk(cfg, s.slots, W(s), R(s))
    && ReadStampsOk(cfg, s.slots, W(s), R(s))
    && ConsumerOk(s.consumer, s.published, R(s), |s.stateLog|)
    && DeliveredOk(s.delivered, s.published)
    && !s.race
  }

  lemma SlotIndex(cfg: Config, pos: nat)
    requires cfg.Valid()
    ensures SlotOf(cfg, pos) == pos % cfg.slotCount < cfg.slotCount
  {
    AlignUpRemainder(pos, cfg.slotCount);
  }

  lemma InitialInv(cfg: Config, s: State)
    requires cfg.Valid() && Initial(cfg, s)
    ensures Inv(cfg, s)
  {
  }

  lemma KeepCallPublish(cfg: Config, s: State, event: Event)
    requires cfg.Valid() && Inv(cfg, s) && StepCallPublish(s, event).Some?
    ensures Inv(cfg, StepCallPublish(s, event).value)
  {
  }

  /** A step that only moves the producer has only the producer's facts to establish. */
  lemma KeepProducerChange(cfg: Config, s: State, p: Producer)
    requires Inv(cfg, s) && ProducerOk(cfg, p, W(s), R(s), |s.stateLog|)
    requires s.stopped ==> p.pc.ProducerIdle?
    requires p.pc.Filling? ==> p.pc.done == 0
    ensures Inv(cfg, s.(producer := p))
  {
  }

  lemma KeepProducerLoadState(cfg: Config, s: State, pick: nat)
    requires cfg.Valid() && Inv(cfg, s) && StepProducerLoadState(cfg, s, pick).Some?
    ensures Inv(cfg, StepProducerLoadState(cfg, s, pick).value)
  {
    var t := StepProducerLoadState(cfg, s, pick).value;
    KeepProducerChange(cfg, s, t.producer);
    assert t == s.(producer := t.producer);
  }

  lemma KeepProducerLoadWrite(cfg: Config, s: State, pick: nat)
    requires cfg.Valid() && Inv(cfg, s) && StepProducerLoadWrite(cfg, s, pick).Some?
    ensures Inv(cfg, StepProducerLoadWrite(cfg, s, pick).value)
  {
    var t := StepProducerLoadWrite(cfg, s, pick).value;
    assert Sub64(W(s), s.producer.cachedRead) == W(s) - s.producer.cachedRead;
    KeepProducerChange(cfg, s, t.producer);
    assert t == s.(producer := t.producer);
  }

  lemma KeepProducerLoadRead(cfg: Config, s: State, pick: nat)
    requires cfg.Valid() && Inv(cfg, s) && StepProducerLoadRead(cfg, s, pick).Some?
    ensures Inv(cfg, StepProducerLoadRead(cfg, s, pick).value)
  {
    var t := StepProducerLoadRead(cfg, s, pick).value;
    assert Sub64(W(s), pick) == W(s) - pick;
    KeepProducerChange(cfg, s, t.producer);
    assert t == s.(producer := t.producer);
  }

  /** The slot being filled belongs to no queued position, so filling it disturbs none of them. */
  lemma FillAvoidsQueued(cfg: Config, w: nat, r: nat, known: nat, p: nat)
    requires cfg.slotCount > 0 && known <= r && w < known + cfg.slotCount && r <= p < w
    ensures p % cfg.slotCount != w % cfg.slotCount
  {
    if p % cfg.slotCount == w % cfg.slotCount { OneLap(p, w, cfg.slotCount); }
  }

  /** Whoever last read a word of the slot being filled had released it, and the producer knows. */
  lemma FillAfterRelease(cfg: Config, j: nat, at: nat, w: nat, r: nat, known: nat)
    requires cfg.slotCount > 0 && ReadStampOk(cfg, j, at, w, r)
    requires j == w % cfg.slotCount && w < known + cfg.slotCount
    ensures at <= known
  {
    if at > known && at > 0 { OneLap(at - 1, w, cfg.slotCount); }
  }

  /** Storing into the slot of the write cursor leaves the queued slots as they are. */
  lemma QueuedElsewhere(cfg: Config, a: seq<seq<Cell>>, b: seq<seq<Cell>>, published: seq<Event>, w: int, r: int)
    requires cfg.slotCount == |a| == |b| > 0 && 0 <= r <= w == |published|
    requires QueuedOk(cfg, a, published, r) && WriteStampsOk(cfg, a, w, r)
    requires forall j :: 0 <= j < |a| && j != w % cfg.slotCount ==> b[j] == a[j]
    requires forall p :: r <= p < w ==> p % cfg.slotCount != w % cfg.slotCount
    requires forall c :: 0 <= c < |b[w % cfg.slotCount]| ==> b[w % cfg.slotCount][c].writtenAt <= w + 1
    ensures QueuedOk(cfg, b, published, r) && WriteStampsOk(cfg, b, w, r)
  {
    var n := cfg.slotCount;
    forall p {:trigger published[p]} | r <= p < |published| ensures SlotHolds(b[p % n], published[p]) {
      assert b[p % n] == a[p % n];
    }
    forall p | r <= p < w ensures StampedBy(b[p % n], p + 1) {
      assert b[p % n] == a[p % n];
    }
  }

  lemma KeepProducerStoreCell(cfg: Config, s: State)
    requires cfg.Valid() && Inv(cfg, s) && StepProducerStoreCell(cfg, s).Some?
    ensures Inv(cfg, StepProducerStoreCell(cfg, s).value)
  {
    var t := StepProducerStoreCell(cfg, s).value;
    var w, r, n := W(s), R(s), cfg.slotCount;
    SlotIndex(cfg, w);
    var slot, cell := w % n, FillCell(s.producer.pc.done);
    FillAfterRelease(cfg, slot, s.slots[slot][cell].readAt, w, r, s.producer.view.r);
    forall p | r <= p < w ensures p % n != slot {
      FillAvoidsQueued(cfg, w, r, s.producer.view.r, p);
    }
    QueuedElsewhere(cfg, s.slots, t.slots, s.published, w, r);
    assert FillOk(cfg, t.slots, t.producer.pc, w) by {
      forall i | 0 <= i < t.producer.pc.done && FillCell(i) < |t.slots[slot]|
        ensures t.slots[slot][FillCell(i)].value == EventCell(t.producer.pc.event, FillCell(i))
      {
        if i < s.producer.pc.done { assert FillCell(i) != cell; }
      }
    }
  }

  /** A completely filled slot holds its event. */
  lemma FilledHolds(cfg: Config, slots: seq<seq<Cell>>, pc: ProducerPc, w: nat)
    requires cfg.Valid() && ShapeOk(cfg, slots) && FillOk(cfg, slots, pc, w)
    requires pc.Filling? && pc.done == 4 + |pc.event.payload| && |pc.event.payload| <= cfg.capacity
    ensures SlotHolds(slots[w % cfg.slotCount], pc.event)
  {
    var slot := slots[w % cfg.slotCount];
    assert FillCell(0) == 0 && FillCell(1) == 1 && FillCell(2) == 2 && FillCell(3) == 3;
    forall i | 0 <= i < |pc.event.payload| ensures slot[HEADER_CELLS + i].value == pc.event.payload[i] {
      assert FillCell(4 + i) == HEADER_CELLS + i;
    }
  }

  lemma OneMoreQueued(cfg: Config, slots: seq<seq<Cell>>, published: seq<Event>, event: Event, w: int, r: int)
    requires cfg.slotCount == |slots| > 0 && 0 <= r <= w == |published|
    requires QueuedOk(cfg, slots, published, r) && WriteStampsOk(cfg, slots, w, r)
    requires SlotHolds(slots[w % cfg.slotCount], event)
    ensures QueuedOk(cfg, slots, published + [event], r) && WriteStampsOk(cfg, slots, w + 1, r)
  {
    var longer := published + [event];
    forall p {:trigger longer[p]} | r <= p < |longer| ensures SlotHolds(slots[p % cfg.slotCount], longer[p]) {
      if p < w { assert longer[p] == published[p]; }
    }
    assert StampedBy(slots[w % cfg.slotCount], w + 1);
  }

  lemma KeepProducerStoreWrite(cfg: Config, s: State)
    requires cfg.Valid() && Inv(cfg, s) && StepProducerStoreWrite(s).Some?
    ensures Inv(cfg, StepProducerStoreWrite(s).value)
  {
    var t := StepProducerStoreWrite(s).value;
    var w, r := W(s), R(s);
    assert W(t) == w + 1;
    FilledHolds(cfg, s.slots, s.producer.pc, w);
    OneMoreQueued(cfg, s.slots, s.published, s.producer.pc.event, w, r);
    assert DeliveredOk(t.delivered, t.published);
  }

  /** Likewise for the consumer. */
  lemma KeepConsumerChange(cfg: Config, s: State, c: Consumer)
    requires Inv(cfg, s) && ConsumerOk(c, s.published, R(s), |s.stateLog|)
    ensures Inv(cfg, s.(consumer := c))
  {
  }

  lemma KeepCallAcquire(cfg: Config, s: State)
    requires cfg.Valid() && Inv(cfg, s) && StepCallAcquire(s).Some?
    ensures Inv(cfg, StepCallAcquire(s).value)
  {
  }

  lemma KeepConsumerLoadRead(cfg: Config, s: State, pick: nat)
    requires cfg.Valid() && Inv(cfg, s) && StepConsumerLoadRead(cfg, s, pick).Some?
    ensures Inv(cfg, StepConsumerLoadRead(cfg, s, pick).value)
  {
    var t := StepConsumerLoadRead(cfg, s, pick).value;
    KeepConsumerChange(cfg, s, t.consumer);
    assert t == s.(consumer := t.consumer);
  }

  lemma KeepConsumerLoadState(cfg: Config, s: State, pick: nat)
    requires cfg.Valid() && Inv(cfg, s) && StepConsumerLoadState(s, pick).Some?
    ensures Inv(cfg, StepConsumerLoadState(s, pick).value)
  {
    var t := StepConsumerLoadState(s, pick).value;
    KeepConsumerChange(cfg, s, t.consumer);
    assert t == s.(consumer := t.consumer);
  }

  lemma KeepConsumerLoadWrite(cfg: Config, s: State, pick: nat)
    requires cfg.Valid() && Inv(cfg, s) && StepConsumerLoadWrite(cfg, s, pick).Some?
    ensures Inv(cfg, StepConsumerLoadWrite(cfg, s, pick).value)
  {
    var t := StepConsumerLoadWrite(cfg, s, pick).value;
    assert t.consumer.cachedWrite == pick == t.consumer.view.w;
    KeepConsumerChange(cfg, s, t.consumer);
    assert t == s.(consumer := t.consumer);
  }

  /** A load from the slot at the read cursor sees the published event and races with nothing. */
  lemma LoadIsClean(cfg: Config, s: State, cell: nat, garbage: nat)
    requires cfg.Valid() && Inv(cfg, s)
    requires R(s) < s.consumer.cachedWrite && cell < HEADER_CELLS + cfg.capacity
    ensures var slot := R(s) % cfg.slotCount;
      && SlotOf(cfg, R(s)) == slot < |s.slots| && cell < |s.slots[slot]|
      && !ConsumerLoad(s, slot, cell).race
      && LoadedValue(s, slot, cell, garbage) == s.slots[slot][cell].value
  {
    var r := R(s);
    SlotIndex(cfg, r);
    assert StampedBy(s.slots[r % cfg.slotCount], r + 1);
  }

  /** Stamping a word that the consumer reads keeps everything said about memory. */
  lemma LoadKeepsMemory(cfg: Config, s: State, cell: nat)
    requires cfg.Valid() && Inv(cfg, s)
    requires R(s) < s.consumer.cachedWrite && cell < HEADER_CELLS + cfg.capacity
    requires R(s) % cfg.slotCount < |s.slots| && cell < |s.slots[R(s) % cfg.slotCount]|
    ensures var t := ConsumerLoad(s, R(s) % cfg.slotCount, cell);
      && ShapeOk(cfg, t.slots)
      && QueuedOk(cfg, t.slots, t.published, R(s))
      && FillOk(cfg, t.slots, t.producer.pc, W(s))
      && WriteStampsOk(cfg, t.slots, W(s), R(s))
      && ReadStampsOk(cfg, t.slots, W(s), R(s))
  {
    var r, w, n := R(s), W(s), cfg.slotCount;
    var t := ConsumerLoad(s, r % n, cell);
    assert SameValues(s.slots, t.slots);
    forall p {:trigger t.published[p]} | r <= p < |t.published| ensures SlotHolds(t.slots[p % n], t.published[p]) {
      assert SlotHolds(s.slots[p % n], s.published[p]);
    }
    forall p | r <= p < w ensures StampedBy(t.slots[p % n], p + 1) {
      assert StampedBy(s.slots[p % n], p + 1);
    }
  }

  lemma KeepConsumerLoad(cfg: Config, s: State, cell: nat)
    requires cfg.Valid() && Inv(cfg, s)
    requires R(s) < s.consumer.cachedWrite && cell < HEADER_CELLS + cfg.capacity
    requires R(s) % cfg.slotCount < |s.slots| && cell < |s.slots[R(s) % cfg.slotCount]|
    requires !ConsumerLoad(s, R(s) % cfg.slotCount, cell).race
    ensures Inv(cfg, ConsumerLoad(s, R(s) % cfg.slotCount, cell))
  {
    LoadKeepsMemory(cfg, s, cell);
  }

  ghost predicate SameValues(a: seq<seq<Cell>>, b: seq<seq<Cell>>) {
    && |a| == |b|
    && (forall j :: 0 <= j < |a| ==> |a[j]| == |b[j]|)
    && (forall j, c :: 0 <= j < |a| && 0 <= c < |a[j]| ==>
          a[j][c].value == b[j][c].value && a[j][c].writtenAt == b[j][c].writtenAt)
  }

  /** Header values that match a published event are never rejected. */
  lemma ScanAccepts(cfg: Config, event: Event, step: nat)
    requires cfg.Valid() && |event.payload| <= cfg.capacity && step < |SCAN|
    ensures !ScanRejects(cfg, step, EventCell(event, SCAN[step]))
  {
  }

  lemma HoldsCell(slot: seq<Cell>, event: Event, c: nat)
    requires SlotHolds(slot, event) && |event.payload| <= U32_MAX && c < HEADER_CELLS + |event.payload|
    requires slot[4].value == 0 && slot[5].value == 0
    ensures slot[c].value == EventCell(event, c)
  {
    if c >= HEADER_CELLS { assert slot[HEADER_CELLS + (c - HEADER_CELLS)].value == event.payload[c - HEADER_CELLS]; }
  }

  lemma OldestCell(cfg: Config, s: State, cell: nat)
    requires cfg.Valid() && Inv(cfg, s) && R(s) < |s.published|
    requires cell < HEADER_CELLS + |s.published[R(s)].payload|
    ensures R(s) % cfg.slotCount < |s.slots| && cell < |s.slots[R(s) % cfg.slotCount]|
    ensures s.slots[R(s) % cfg.slotCount][cell].value == EventCell(s.published[R(s)], cell)
  {
    HoldsCell(s.slots[R(s) % cfg.slotCount], s.published[R(s)], cell);
  }

  /** The header word that the scan reads next is the event's, and reading it disturbs nothing. */
  lemma HeaderLoad(cfg: Config, s: State, garbage: nat)
    requires cfg.Valid() && Inv(cfg, s) && s.consumer.pc.Scanning?
    ensures var slot, cell := R(s) % cfg.slotCount, SCAN[|s.consumer.pc.got|];
      && s.consumer.pc.pos == R(s) && SlotOf(cfg, R(s)) == slot < |s.slots| && cell < |s.slots[slot]|
      && R(s) < |s.published|
      && LoadedValue(s, slot, cell, garbage) == EventCell(s.published[R(s)], cell)
      && Inv(cfg, ConsumerLoad(s, slot, cell))
  {
    var r := R(s);
    var cell := SCAN[|s.consumer.pc.got|];
    OldestCell(cfg, s, cell);
    LoadIsClean(cfg, s, cell, garbage);
    KeepConsumerLoad(cfg, s, cell);
  }

  lemma KeepConsumerLoadHeader(cfg: Config, s: State, garbage: nat)
    requires cfg.Valid() && Inv(cfg, s) && StepConsumerLoadHeader(cfg, s, garbage).Some?
    ensures Inv(cfg, StepConsumerLoadHeader(cfg, s, garbage).value)
    ensures StepConsumerLoadHeader(cfg, s, garbage).value.consumer.last in {s.consumer.last, Some(Acquired)}
  {
    HeaderLoad(cfg, s, garbage);
    var r, got := R(s), s.consumer.pc.got;
    var cell, event := SCAN[|got|], s.published[r];
    var t := ConsumerLoad(s, r % cfg.slotCount, cell);
    ScanAccepts(cfg, event, |got|);
    ScanKeepsConsumer(cfg, s.consumer, got, EventCell(event, cell), s.published, r, |s.stateLog|);
    var u := StepConsumerLoadHeader(cfg, s, garbage).value;
    KeepConsumerChange(cfg, t, u.consumer);
    assert u == t.(consumer := u.consumer);
  }

  lemma ScanKeepsConsumer(cfg: Config, c: Consumer, got: seq<nat>, value: nat, published: seq<Event>, r: int,
                          states: int)
    requires ConsumerOk(c, published, r, states) && c.pc == Scanning(r, got)
    requires |published[r].payload| <= cfg.capacity <= U32_MAX
    requires value == EventCell(published[r], SCAN[|got|])
    ensures |got| + 1 < |SCAN| ==> ConsumerOk(c.(pc := Scanning(r, got + [value])), published, r, states)
    ensures |got| + 1 == |SCAN| ==>
      ConsumerOk(c.(pc := ConsumerIdle, acquired := Some(r), last := Some(Acquired),
                    holding := Delivery(got[3], got[4], got[5], value, map[])), published, r, states)
  {
  }

  lemma PeekKeepsConsumer(c: Consumer, index: nat, value: nat, published: seq<Event>, r: int, states: int)
    requires ConsumerOk(c, published, r, states) && c.acquired.Some?
    requires index < |published[r].payload| && value == published[r].payload[index]
    ensures ConsumerOk(c.(holding := c.holding.(seen := c.holding.seen[index := value])), published, r, states)
  {
  }

  lemma PayloadLoad(cfg: Config, s: State, index: nat, garbage: nat)
    requires cfg.Valid() && Inv(cfg, s) && s.consumer.acquired.Some? && index < s.consumer.holding.length
    ensures var slot, cell := R(s) % cfg.slotCount, HEADER_CELLS + index;
      && s.consumer.acquired.value == R(s) && SlotOf(cfg, R(s)) == slot < |s.slots| && cell < |s.slots[slot]|
      && R(s) < |s.published| && index < |s.published[R(s)].payload|
      && LoadedValue(s, slot, cell, garbage) == s.published[R(s)].payload[index]
      && Inv(cfg, ConsumerLoad(s, slot, cell))
  {
    var r := R(s);
    OldestCell(cfg, s, HEADER_CELLS + index);
    LoadIsClean(cfg, s, HEADER_CELLS + index, garbage);
    KeepConsumerLoad(cfg, s, HEADER_CELLS + index);
  }

  lemma KeepConsumerLoadPayload(cfg: Config, s: State, index: nat, garbage: nat)
    requires cfg.Valid() && Inv(cfg, s) && StepConsumerLoadPayload(cfg, s, index, garbage).Some?
    ensures Inv(cfg, StepConsumerLoadPayload(cfg, s, index, garbage).value)
  {
    PayloadLoad(cfg, s, index, garbage);
    var r := R(s);
    var t := ConsumerLoad(s, r % cfg.slotCount, HEADER_CELLS + index);
    PeekKeepsConsumer(s.consumer, index, s.published[r].payload[index], s.published, r, |s.stateLog|);
    var u := StepConsumerLoadPayload(cfg, s, index, garbage).value;
    KeepConsumerChange(cfg, t, u.consumer);
    assert u == t.(consumer := u.consumer);
  }

  lemma KeepCallRelease(cfg: Config, s: State)
    requires cfg.Valid() && Inv(cfg, s) && StepCallRelease(s).Some?
    ensures Inv(cfg, StepCallRelease(s).value)
  {
    var t := StepCallRelease(s).value;
    assert R(t) == R(s) + 1;
    ReleaseKeepsMemory(cfg, s.slots, s.published, W(s), R(s));
    ReleaseKeepsLogs(cfg, s.writeLog, s.stateLog, s.readLog, t.readLog, W(s), R(s), |s.stateLog|);
    ReleaseDelivers(s.delivered, s.consumer.holding, s.published);
    ReleaseKeepsThreads(cfg, s, t);
  }

  lemma ReleaseKeepsThreads(cfg: Config, s: State, t: State)
    requires cfg.slotCount > 0 && StepCallRelease(s) == Some(t) && R(s) >= 0 && |s.stateLog| >= 1
    requires CountsOk(cfg, W(s), R(s), s.published, |s.delivered|)
    requires ProducerOk(cfg, s.producer, W(s), R(s), |s.stateLog|)
    requires LifeCycleOk(s.producer, s.closer, s.stopped, W(s), R(s), |s.stateLog|)
    requires ConsumerOk(s.consumer, s.published, R(s), |s.stateLog|)
    ensures CountsOk(cfg, W(t), R(t), t.published, |t.delivered|)
    ensures ProducerOk(cfg, t.producer, W(t), R(t), |t.stateLog|)
    ensures LifeCycleOk(t.producer, t.closer, t.stopped, W(t), R(t), |t.stateLog|)
    ensures ConsumerOk(t.consumer, t.published, R(t), |t.stateLog|)
  {
  }

  /** What holds of the slots of queued positions holds of fewer of them. */
  lemma ReleaseKeepsMemory(cfg: Config, slots: seq<seq<Cell>>, published: seq<Event>, w: int, r: int)
    requires cfg.slotCount == |slots| > 0 && 0 <= r < w
    requires QueuedOk(cfg, slots, published, r) && WriteStampsOk(cfg, slots, w, r) && ReadStampsOk(cfg, slots, w, r)
    ensures QueuedOk(cfg, slots, published, r + 1) && WriteStampsOk(cfg, slots, w, r + 1)
      && ReadStampsOk(cfg, slots, w, r + 1)
  {
  }

  lemma ReleaseKeepsLogs(cfg: Config, writeLog: seq<Store>, stateLog: seq<Store>, readLog: seq<Store>,
                         longer: seq<Store>,
                         w: int, r: int, states: int)
    requires WriteLogOk(writeLog, r) && StateLogOk(stateLog, w, r) && ReadLogOk(readLog, w, states)
    requires |readLog| == r + 1 && |longer| == r + 2 && longer[..r + 1] == readLog
    requires longer[r + 1].value == r + 1 && longer[r + 1].view.r == r + 1
    requires longer[r + 1].view.w <= w && longer[r + 1].view.s < states
    ensures WriteLogOk(writeLog, r + 1) && StateLogOk(stateLog, w, r + 1) && ReadLogOk(longer, w, states)
  {
    assert forall i :: 0 <= i < |readLog| ==> longer[i] == longer[..r + 1][i];
  }

  lemma ReleaseDelivers(delivered: seq<Delivery>, holding: Delivery, published: seq<Event>)
    requires DeliveredOk(delivered, published) && |delivered| < |published| && Matches(holding, published[|delivered|])
    ensures DeliveredOk(delivered + [holding], published)
  {
  }

  lemma KeepLifeCycle(cfg: Config, s: State, a: Action)
    requires cfg.Valid() && Inv(cfg, s) && Next(cfg, s, a).Some?
    requires a.StopProducer? || a.ClosePublication? || a.ReplaceProducer? || a.ReplaceConsumer?
    ensures Inv(cfg, Next(cfg, s, a).value)
  {
  }

  lemma KeepProducerStep(cfg: Config, s: State, a: Action)
    requires cfg.Valid() && Inv(cfg, s) && Next(cfg, s, a).Some?
    requires a.CallPublish? || a.ProducerLoadState? || a.ProducerLoadWrite? || a.ProducerLoadRead?
      || a.ProducerStoreCell? || a.ProducerStoreWrite?
    ensures Inv(cfg, Next(cfg, s, a).value)
  {
    match a
    case CallPublish(event) => KeepCallPublish(cfg, s, event);
    case ProducerLoadState(pick) => KeepProducerLoadState(cfg, s, pick);
    case ProducerLoadWrite(pick) => KeepProducerLoadWrite(cfg, s, pick);
    case ProducerLoadRead(pick) => KeepProducerLoadRead(cfg, s, pick);
    case ProducerStoreCell => KeepProducerStoreCell(cfg, s);
    case ProducerStoreWrite => KeepProducerStoreWrite(cfg, s);
  }

  lemma KeepConsumerStep(cfg: Config, s: State, a: Action)
    requires cfg.Valid() && Inv(cfg, s) && Next(cfg, s, a).Some?
    requires a.CallAcquire? || a.ConsumerLoadRead? || a.ConsumerLoadState? || a.ConsumerLoadWrite?
      || a.ConsumerLoadHeader? || a.ConsumerLoadPayload? || a.CallRelease?
    ensures Inv(cfg, Next(cfg, s, a).value)
  {
    match a
    case CallAcquire => KeepCallAcquire(cfg, s);
    case ConsumerLoadRead(pick) => KeepConsumerLoadRead(cfg, s, pick);
    case ConsumerLoadState(pick) => KeepConsumerLoadState(cfg, s, pick);
    case ConsumerLoadWrite(pick) => KeepConsumerLoadWrite(cfg, s, pick);
    case ConsumerLoadHeader(garbage) => KeepConsumerLoadHeader(cfg, s, garbage);
    case ConsumerLoadPayload(index, garbage) => KeepConsumerLoadPayload(cfg, s, index, garbage);
    case CallRelease => KeepCallRelease(cfg, s);
  }

  /** Every step of either thread, of the closing thread and of a replacement keeps the invariant. */
  lemma KeepNext(cfg: Config, s: State, a: Action)
    requires cfg.Valid() && Inv(cfg, s) && Next(cfg, s, a).Some?
    ensures Inv(cfg, Next(cfg, s, a).value)
  {
    if a.StopProducer? || a.ClosePublication? || a.ReplaceProducer? || a.ReplaceConsumer? {
      KeepLifeCycle(cfg, s, a);
    } else if a.CallPublish? || a.ProducerLoadState? || a.ProducerLoadWrite? || a.ProducerLoadRead?
              || a.ProducerStoreCell? || a.ProducerStoreWrite? {
      KeepProducerStep(cfg, s, a);
    } else {
      KeepConsumerStep(cfg, s, a);
    }
  }

  /** Every run keeps the invariant: induction over the actions. */
  lemma {:induction false} KeepExecute(cfg: Config, s: State, actions: seq<Action>)
    requires cfg.Valid() && Inv(cfg, s)
    ensures Inv(cfg, Execute(cfg, s, actions))
  {
    if actions != [] {
      var shorter := actions[..|actions| - 1];
      KeepExecute(cfg, s, shorter);
      var t := Execute(cfg, s, shorter);
      if Next(cfg, t, actions[|actions| - 1]).Some? { KeepNext(cfg, t, actions[|actions| - 1]); }
    }
  }
}
