/** Any sequence of calls through the handles on one segment, with the consumer's and the producer's
    handle replaced by fresh attachments at will, is the same run of the uncached queue, answer by
    answer. */
module RingRuns {
  import opened Bits
  import opened Events
  import opened Geometry
  import opened Queues
  import opened Ring

  /** Publish a view while the consumer may be holding a slot. */
  method PublishView(producer: SpscRing, consumer: SpscRing, view: EventView) returns (result: PublishResult)
    requires Paired(producer, consumer) && view.payload.InBounds() && producer.MayPublish(view.payload)
    modifies producer`cachedReadPosition
    modifies consumer.Memory()`writePosition, consumer.Memory()`published, consumer.SlotMemory()
    ensures Paired(producer, consumer)
    ensures consumer.Queue() == old(consumer.Queue().Publish(view.Value()))
    ensures result == old(consumer.Queue().PublishCode(view.Value()))
  {
    PublishWhileHeld(consumer.header.Shared(false), view.Value(), consumer.acquired);
    result := producer.TryPublish(view);
  }

  /** Publish an event given as a value. */
  method PublishValue(producer: SpscRing, consumer: SpscRing, event: Event) returns (result: PublishResult)
    requires Paired(producer, consumer)
    modifies producer`cachedReadPosition
    modifies consumer.Memory()`writePosition, consumer.Memory()`published, consumer.SlotMemory()
    ensures Paired(producer, consumer) && consumer.Queue() == old(consumer.Queue()).Publish(event)
    ensures result == old(consumer.Queue()).PublishCode(event)
  {
    var data := new u8[|event.payload|](i requires 0 <= i < |event.payload| => event.payload[i]);
    var view := EventView(event.streamId, event.sequence, event.timestamp, Span(data, 0, data.Length));
    assert view.Value() == event by { assert data[0..data.Length] == event.payload; }
    result := PublishView(producer, consumer, view);
  }

  /** Take a view and read it at once. */
  method AcquireValue(producer: SpscRing, consumer: SpscRing) returns (result: Result<Event, AcquireError>)
    requires Paired(producer, consumer)
    modifies consumer`cachedWritePosition, consumer`acquiredPosition, consumer`acquired
    ensures Paired(producer, consumer) && consumer.Queue() == old(consumer.Queue()).Acquire()
    ensures result == old(consumer.Queue()).AcquireCode()
  {
    var view := consumer.TryAcquire();
    return if view.Err? then Err(view.error) else Ok(view.value.Value());
  }

  /** Give the held slot back under the producer's eyes. */
  method ReleaseHeld(producer: SpscRing, consumer: SpscRing) returns (ok: bool)
    requires Paired(producer, consumer)
    modifies consumer`acquiredPosition, consumer`acquired, consumer.Memory()`readPosition
    ensures Paired(producer, consumer) && consumer.Queue() == old(consumer.Queue()).Release()
    ensures ok == old(consumer.acquired)
  {
    ok := consumer.Release();
  }

  /** The view names the slot this consumer holds and carries the metadata of the event there. */
  ghost predicate ViewsHeldSlot(ring: SpscRing, view: EventView)
    reads ring, ring.header
  {
    && ring.header != null && ring.acquired && ring.slotCount > 0
    && ring.acquiredPosition < |ring.header.published|
    && var event := ring.header.published[ring.acquiredPosition];
       view == EventView(event.streamId, event.sequence, event.timestamp,
                         Span(ring.header.slots, ring.PayloadBase(ring.acquiredPosition), |event.payload|))
  }

  /** Whatever the producer has done meanwhile, such a view still reads as the event acquired. */
  lemma HeldViewReads(ring: SpscRing, view: EventView)
    requires ring.ConsumerOk() && ViewsHeldSlot(ring, view)
    ensures view.payload.InBounds() && view.Value() == ring.header.published[ring.acquiredPosition]
  {
    ring.header.AreaSize();
    var event := ring.header.published[ring.acquiredPosition];
    var index, stride := ring.acquiredPosition % ring.slotCount, ring.slotStride;
    assert SlotHoldsAt(ring.header.slots[..], index, stride, event);
    SlotPayload(ring.header.slots[..], index, stride, event);
  }

  /** A held view may be published into its own ring: the next publish never writes the held slot. */
  lemma HeldViewMayPublish(producer: SpscRing, consumer: SpscRing, view: EventView)
    requires Paired(producer, consumer) && ViewsHeldSlot(consumer, view)
    ensures producer.MayPublish(view.payload)
  {
    if producer.WouldWrite() {
      producer.header.AreaSize();
      var n, stride := producer.slotCount, producer.slotStride;
      var held, next := consumer.acquiredPosition, producer.header.writePosition;
      if held % n == next % n { OneLap(held, next, n); }
      SlotsApart(held % n, next % n, stride);
    }
  }

  /** An owner that may close, a producer and a consumer on one segment; owner and producer may be
      the same handle. */
  ghost predicate Joined(owner: SpscRing, producer: SpscRing, consumer: SpscRing)
    reads owner, producer, consumer, consumer.header, consumer.SlotMemory(), producer.SlotMemory()
  {
    && Paired(producer, consumer)
    && owner != consumer && owner.header == consumer.header && owner.initializer
  }

  /** Close through the owner. */
  method CloseJoined(owner: SpscRing, producer: SpscRing, consumer: SpscRing)
    requires Joined(owner, producer, consumer)
    modifies consumer.Memory()`state
    ensures Joined(owner, producer, consumer) && consumer.Queue() == old(consumer.Queue()).Close()
  {
    var closed := owner.ClosePublication();
  }

  /** Replace a handle by a fresh attachment; it fits either role. */
  method Reattach(owner: SpscRing, producer: SpscRing, consumer: SpscRing) returns (handle: SpscRing)
    requires Joined(owner, producer, consumer)
    ensures fresh(handle) && Joined(owner, handle, consumer) && Joined(owner, producer, handle)
    ensures handle.Queue() == consumer.Queue().Reattach()
  {
    var attached := Attach(consumer.header);
    handle := attached.value;
  }

  /** One call, answered as the queue answers it, and the handles to go on with. */
  method Call(owner: SpscRing, producer: SpscRing, consumer: SpscRing, op: Op)
    returns (producing: SpscRing, consuming: SpscRing, answer: Answer)
    requires Joined(owner, producer, consumer)
    modifies producer`cachedReadPosition, consumer`cachedWritePosition, consumer`acquiredPosition, consumer`acquired
    modifies consumer.Memory()`writePosition, consumer.Memory()`readPosition, consumer.Memory()`published
    modifies consumer.Memory()`state, consumer.SlotMemory()
    ensures producing == producer || (op.ReattachProducerOp? && fresh(producing))
    ensures consuming == consumer || (op.ReattachOp? && fresh(consuming))
    ensures Joined(owner, producing, consuming) && consuming.header == old(consumer.header)
    ensures answer == AnswerTo(old(consumer.Queue()), op)
    ensures consuming.Queue() == Apply(old(consumer.Queue()), op)
  {
    producing, consuming, answer := producer, consumer, NoAnswer;
    match op
    case PublishOp(event) =>
      var result := PublishValue(producer, consumer, event);
      answer := PublishAnswer(result);
    case AcquireOp =>
      var result := AcquireValue(producer, consumer);
      answer := AcquireAnswer(result);
    case ReleaseOp =>
      var ok := ReleaseHeld(producer, consumer);
      answer := ReleaseAnswer(ok);
    case CloseOp => CloseJoined(owner, producer, consumer);
    case ReattachOp => consuming := Reattach(owner, producer, consumer);
    case ReattachProducerOp => producing := Reattach(owner, producer, consumer);
  }

  /** Any sequence of calls answers as the run of the uncached queue does, and leaves what it leaves. */
  method Replay(owner: SpscRing, producer: SpscRing, consumer: SpscRing, ops: seq<Op>)
    returns (producing: SpscRing, consuming: SpscRing, answers: seq<Answer>)
    requires Joined(owner, producer, consumer)
    modifies producer`cachedReadPosition, consumer`cachedWritePosition, consumer`acquiredPosition, consumer`acquired
    modifies consumer.Memory()`writePosition, consumer.Memory()`readPosition, consumer.Memory()`published
    modifies consumer.Memory()`state, consumer.SlotMemory()
    ensures Joined(owner, producing, consuming) && consuming.header == old(consumer.header)
    ensures consuming.Queue() == Run(old(consumer.Queue()), ops)
    ensures answers == Answers(old(consumer.Queue()), ops)
  {
    producing, consuming, answers := producer, consumer, [];
    ghost var start := consumer.Queue();
    for i := 0 to |ops|
      invariant (producing == producer || fresh(producing)) && (consuming == consumer || fresh(consuming))
      invariant Joined(owner, producing, consuming) && consuming.header == old(consumer.header)
      invariant Run(start, ops) == Run(consuming.Queue(), ops[i..])
      invariant Answers(start, ops) == answers + Answers(consuming.Queue(), ops[i..])
    {
      ReplayStep(consuming.Queue(), ops, i, answers);
      var answer;
      producing, consuming, answer := Call(owner, producing, consuming, ops[i]);
      answers := answers + [answer];
    }
    assert ops[|ops|..] == [];
  }

  lemma ReplayStep(q: Queue, ops: seq<Op>, i: nat, answers: seq<Answer>)
    requires q.Valid() && i < |ops|
    ensures Run(q, ops[i..]) == Run(Apply(q, ops[i]), ops[i + 1..])
    ensures answers + Answers(q, ops[i..]) == answers + [AnswerTo(q, ops[i])] + Answers(Apply(q, ops[i]), ops[i + 1..])
  {
    assert ops[i..][0] == ops[i] && ops[i..][1..] == ops[i + 1..];
  }

  /** Lay out a segment and attach the other side to it. */
  method Open(segment: Segment, config: RingConfig, instanceId: u64)
    returns (r: Result<(SpscRing, SpscRing), RingError>)
    requires segment.Backed()
    modifies segment, segment.slots
    ensures r.Ok? <==> instanceId != 0 && segment.UsableMemory() && RequiredBytes(config) == Ok(segment.size)
    ensures r.Err? ==> unchanged(segment) && unchanged(segment.slots)
    ensures r.Ok? ==>
      && fresh(r.value.0) && fresh(r.value.1) && Linked(r.value.0, r.value.1) && r.value.1.header == segment
      && r.value.1.Queue() == Queue(config.slotCount, config.capacity, [], 0, false, false)
  {
    var created := Initialize(segment, config, instanceId);
    if created.Err? { return Err(created.error); }
    var attached := Attach(segment);
    return Ok((created.value, attached.value));
  }

  /** On every run from initialization each call answers as the uncached queue does from empty. */
  method RunFromInitialize(segment: Segment, config: RingConfig, instanceId: u64, ops: seq<Op>)
    returns (answers: seq<Answer>)
    requires segment.Backed() && segment.UsableMemory() && instanceId != 0 && RequiredBytes(config) == Ok(segment.size)
    modifies segment, segment.slots
    ensures segment.Valid()
    ensures var empty := Queue(config.slotCount, config.capacity, [], 0, false, false);
      && empty.Valid() && answers == Answers(empty, ops)
      && var last := Run(empty, ops);
         && segment.published == last.published && segment.writePosition == |last.published|
         && segment.readPosition == last.released && (segment.state == CLOSED <==> last.closed)
  {
    var pair := Open(segment, config, instanceId);
    var producer, consumer := pair.value.0, pair.value.1;
    AcceptedConfigs(config);
    var producing, consuming;
    producing, consuming, answers := Replay(producer, producer, consumer, ops);
  }
}
