/** Each side of the release/acquire ring sees a run of the atomic queue in which its own calls get
    the answers they got. What the other side does takes effect in that run when word of it arrives,
    so stale loads only delay, never distort. */
module RingRefinement {
  import opened Events
  import opened Queues
  import opened RingSteps
  import opened RingInvariant
  import opened RingTheorems

  function EmptyQueue(cfg: Config): Queue {
    Queue(cfg.slotCount, cfg.capacity, [], 0, false, false)
  }

  lemma SingleOp(q: Queue, op: Op)
    requires q.Valid()
    ensures Run(q, [op]) == Apply(q, op)
  {
    assert Run(Apply(q, op), [op][1..]) == Apply(q, op);
  }

  // ---- the consumer's side ------------------------------------------------------------------

  /** One completed call by the consumer, with its answer. */
  datatype ConsumerCall = TriedAcquire(answer: AcquireResult) | GaveBack | Reattached

  function ConsumerCallOf(q: Queue, op: Op): seq<ConsumerCall>
    requires q.Valid()
  {
    match op
    case PublishOp(_) => []
    case CloseOp => []
    case AcquireOp => [TriedAcquire(CodeOf(q))]
    case ReleaseOp => [GaveBack]
    case ReattachOp => [Reattached]
    case ReattachProducerOp => []
  }

  /** The consumer's calls in a run of the atomic queue, with the answers the queue gives. */
  function ConsumerCallsOf(q: Queue, ops: seq<Op>): seq<ConsumerCall>
    requires q.Valid()
    decreases |ops|
  {
    if ops == [] then [] else ConsumerCallOf(q, ops[0]) + ConsumerCallsOf(Apply(q, ops[0]), ops[1..])
  }

  /** The call that a step of the ring completes, with the answer it returns. */
  function CallCompleted(t: State, a: Action): seq<ConsumerCall> {
    if a.CallRelease? then [GaveBack]
    else if a.ReplaceConsumer? then [Reattached]
    else if (a.CallAcquire? || ConsumerAction(a)) && t.consumer.last.Some? then [TriedAcquire(t.consumer.last.value)]
    else []
  }

  /** The consumer's calls on a run of the ring, with the answers they got. */
  function ConsumerTrace(cfg: Config, s0: State, actions: seq<Action>): seq<ConsumerCall>
    requires cfg.slotCount >= 1
  {
    if actions == [] then []
    else
      var shorter, a := actions[..|actions| - 1], actions[|actions| - 1];
      var n := Next(cfg, Execute(cfg, s0, shorter), a);
      ConsumerTrace(cfg, s0, shorter) + (if n.Some? then CallCompleted(n.value, a) else [])
  }

  lemma {:induction false} ConsumerCallsAppend(q: Queue, a: seq<Op>, b: seq<Op>)
    requires q.Valid()
    ensures ConsumerCallsOf(q, a + b) == ConsumerCallsOf(q, a) + ConsumerCallsOf(Run(q, a), b)
    decreases |a|
  {
    if a == [] {
      assert a + b == b;
    } else {
      assert (a + b)[1..] == a[1..] + b;
      ConsumerCallsAppend(Apply(q, a[0]), a[1..], b);
    }
  }

  lemma {:induction false} PublishingIsNoCall(q: Queue, events: seq<Event>)
    requires q.Valid()
    ensures ConsumerCallsOf(q, PublishAll(events)) == []
    decreases |events|
  {
    if events != [] {
      assert PublishAll(events)[1..] == PublishAll(events[1..]);
      PublishingIsNoCall(Apply(q, PublishOp(events[0])), events[1..]);
    }
  }

  /** These operations lead from one queue to the other, with these calls by the consumer. */
  ghost predicate ConsumerRun(q: Queue, ops: seq<Op>, u: Queue, calls: seq<ConsumerCall>) {
    q.Valid() && Run(q, ops) == u && ConsumerCallsOf(q, ops) == calls
  }

  lemma NoOp(q: Queue)
    requires q.Valid()
    ensures ConsumerRun(q, [], q, [])
  {
  }

  lemma OneOp(q: Queue, op: Op)
    requires q.Valid()
    ensures ConsumerRun(q, [op], Apply(q, op), ConsumerCallOf(q, op))
  {
    SingleOp(q, op);
    assert ConsumerCallsOf(Apply(q, op), [op][1..]) == [];
  }

  lemma ThenRun(q: Queue, a: seq<Op>, r: Queue, b: seq<Op>, u: Queue, first: seq<ConsumerCall>,
                second: seq<ConsumerCall>)
    requires ConsumerRun(q, a, r, first) && ConsumerRun(r, b, u, second)
    ensures ConsumerRun(q, a + b, u, first + second)
  {
    RunAppend(q, a, b);
    ConsumerCallsAppend(q, a, b);
  }

  lemma ConsumerQueueValid(cfg: Config, s: State)
    requires cfg.Valid() && Inv(cfg, s)
    ensures ConsumerQueue(cfg, s).Valid()
  {
  }

  /** Publishes, then perhaps the closure, lead from a queue to a later one. */
  lemma PublishesThenClosure(q: Queue, u: Queue) returns (ops: seq<Op>)
    requires q.Valid() && u.Valid() && q.published <= u.published && (q.closed ==> u == q)
    requires u == q.(published := u.published, closed := u.closed)
    ensures ConsumerRun(q, ops, u, [])
  {
    if q.closed {
      NoOp(q);
      return [];
    }
    var delta := u.published[|q.published|..];
    assert q.published + delta == u.published;
    RunPublishAll(q, delta);
    PublishingIsNoCall(q, delta);
    ops := PublishAll(delta);
    var r := u.(closed := false);
    if u.closed {
      OneOp(r, CloseOp);
      ThenRun(q, ops, r, [CloseOp], u, [], []);
      ops := ops + [CloseOp];
    }
  }

  /** Word of further publishes, possibly with the closure, reaches the consumer. */
  lemma News(cfg: Config, s: State, t: State) returns (ops: seq<Op>)
    requires cfg.Valid() && Inv(cfg, s) && Inv(cfg, t)
    requires t.published == s.published && |t.delivered| == |s.delivered|
    requires t.consumer.acquired == s.consumer.acquired
    requires s.consumer.view.w <= t.consumer.view.w && s.consumer.view.s <= t.consumer.view.s
    ensures ConsumerQueue(cfg, s).Valid() && ConsumerRun(ConsumerQueue(cfg, s), ops, ConsumerQueue(cfg, t), [])
  {
    ConsumerQueueValid(cfg, s);
    ConsumerQueueValid(cfg, t);
    ops := PublishesThenClosure(ConsumerQueue(cfg, s), ConsumerQueue(cfg, t));
  }

  /** What the producer and the closing thread do changes nothing the consumer knows. */
  lemma OthersAreInvisible(cfg: Config, s: State, a: Action)
    requires cfg.Valid() && Inv(cfg, s) && Next(cfg, s, a).Some?
    requires ProducerAction(a) || a.CallPublish? || a.StopProducer? || a.ClosePublication? || a.ReplaceProducer?
    ensures var t := Next(cfg, s, a).value;
      t.consumer == s.consumer && t.delivered == s.delivered && s.published <= t.published
  {
  }

  predicate Learning(a: Action) {
    a.CallAcquire? || a.ConsumerLoadRead? || a.ConsumerLoadState? || a.ConsumerLoadWrite? || a.ConsumerLoadPayload?
  }

  lemma LoadsOnlyLearn(cfg: Config, s: State, a: Action)
    requires cfg.slotCount >= 1 && Next(cfg, s, a).Some? && Learning(a)
    ensures var t := Next(cfg, s, a).value;
      && t.published == s.published && t.delivered == s.delivered && t.consumer.acquired == s.consumer.acquired
      && s.consumer.view.w <= t.consumer.view.w && s.consumer.view.s <= t.consumer.view.s
  {
    match a
    case CallAcquire => assert Next(cfg, s, a) == StepCallAcquire(s);
    case ConsumerLoadRead(pick) => assert Next(cfg, s, a) == StepConsumerLoadRead(cfg, s, pick);
    case ConsumerLoadState(pick) => assert Next(cfg, s, a) == StepConsumerLoadState(s, pick);
    case ConsumerLoadWrite(pick) => assert Next(cfg, s, a) == StepConsumerLoadWrite(cfg, s, pick);
    case ConsumerLoadPayload(index, garbage) =>
      assert Next(cfg, s, a) == StepConsumerLoadPayload(cfg, s, index, garbage);
  }

  /** A refused try_acquire leaves the atomic queue as it is. */
  lemma RefusedAcquire(q: Queue, answer: AcquireResult)
    requires q.Valid() && CodeOf(q) == answer && !answer.Acquired?
    ensures ConsumerRun(q, [AcquireOp], q, [TriedAcquire(answer)])
  {
    OneOp(q, AcquireOp);
  }

  /** A load that ends the call without a slot: the news, then a refused try_acquire. */
  lemma LearningStep(cfg: Config, s: State, a: Action, t: State) returns (ops: seq<Op>)
    requires cfg.Valid() && Inv(cfg, s) && Inv(cfg, t) && Next(cfg, s, a) == Some(t) && Learning(a)
    ensures ConsumerQueue(cfg, s).Valid()
    ensures ConsumerRun(ConsumerQueue(cfg, s), ops, ConsumerQueue(cfg, t), CallCompleted(t, a))
  {
    LoadsOnlyLearn(cfg, s, a);
    ops := News(cfg, s, t);
    if CallCompleted(t, a) != [] {
      AcquireAnswersStep(cfg, s, a);
      LoadsAcquireNothing(cfg, s, a);
      var q, u := ConsumerQueue(cfg, s), ConsumerQueue(cfg, t);
      assert u.(held := t.consumer.acquired.Some?) == u;
      ConsumerQueueValid(cfg, t);
      RefusedAcquire(u, t.consumer.last.value);
      ThenRun(q, ops, u, [AcquireOp], u, [], CallCompleted(t, a));
      ops := ops + [AcquireOp];
    }
  }

  lemma LoadsAcquireNothing(cfg: Config, s: State, a: Action)
    requires cfg.Valid() && Inv(cfg, s) && Next(cfg, s, a).Some? && Learning(a) && !a.ConsumerLoadPayload?
    ensures Next(cfg, s, a).value.consumer.last != Some(Acquired)
  {
  }

  /** The last header load takes the oldest event; the others only read. */
  lemma ScanStep(cfg: Config, s: State, garbage: nat, t: State) returns (ops: seq<Op>)
    requires cfg.Valid() && Inv(cfg, s) && Inv(cfg, t) && StepConsumerLoadHeader(cfg, s, garbage) == Some(t)
    ensures ConsumerQueue(cfg, s).Valid()
    ensures ConsumerRun(ConsumerQueue(cfg, s), ops, ConsumerQueue(cfg, t),
                        CallCompleted(t, ConsumerLoadHeader(garbage)))
  {
    ConsumerQueueValid(cfg, s);
    ScanOutcome(cfg, s, garbage);
    if t.consumer.last.None? {
      NoOp(ConsumerQueue(cfg, s));
      return [];
    }
    OneOp(ConsumerQueue(cfg, s), AcquireOp);
    return [AcquireOp];
  }

  lemma ScanOutcome(cfg: Config, s: State, garbage: nat)
    requires cfg.Valid() && Inv(cfg, s) && StepConsumerLoadHeader(cfg, s, garbage).Some?
    ensures s.consumer.acquired.None? && |s.delivered| < s.consumer.view.w <= |s.published|
    ensures var t := StepConsumerLoadHeader(cfg, s, garbage).value;
      && t.published == s.published && t.delivered == s.delivered && t.consumer.view == s.consumer.view
      && t.consumer.last in {None, Some(Acquired)} && (t.consumer.last.Some? <==> t.consumer.acquired.Some?)
  {
    KeepConsumerLoadHeader(cfg, s, garbage);
  }

  lemma ReleaseStep(cfg: Config, s: State, t: State) returns (ops: seq<Op>)
    requires cfg.Valid() && Inv(cfg, s) && StepCallRelease(s) == Some(t)
    ensures ConsumerQueue(cfg, s).Valid() && |t.delivered| <= t.consumer.view.w <= |t.published|
    ensures ConsumerRun(ConsumerQueue(cfg, s), ops, ConsumerQueue(cfg, t), [GaveBack])
  {
    ConsumerQueueValid(cfg, s);
    OneOp(ConsumerQueue(cfg, s), ReleaseOp);
    return [ReleaseOp];
  }

  lemma ReattachStep(cfg: Config, s: State, t: State) returns (ops: seq<Op>)
    requires cfg.Valid() && Inv(cfg, s) && StepReplaceConsumer(s) == Some(t)
    ensures ConsumerQueue(cfg, s).Valid() && t.consumer.view.w <= |t.published|
    ensures ConsumerRun(ConsumerQueue(cfg, s), ops, ConsumerQueue(cfg, t), [Reattached])
  {
    ConsumerQueueValid(cfg, s);
    OneOp(ConsumerQueue(cfg, s), ReattachOp);
    return [ReattachOp];
  }

  lemma SameQueue(cfg: Config, s: State, t: State) returns (ops: seq<Op>)
    requires cfg.Valid() && Inv(cfg, s) && Inv(cfg, t)
    requires t.consumer == s.consumer && t.delivered == s.delivered && s.published <= t.published
    ensures ConsumerQueue(cfg, s).Valid() && ConsumerRun(ConsumerQueue(cfg, s), ops, ConsumerQueue(cfg, t), [])
  {
    ConsumerQueueValid(cfg, s);
    assert t.published[..s.consumer.view.w] == s.published[..s.consumer.view.w];
    NoOp(ConsumerQueue(cfg, s));
    return [];
  }

  predicate OwnOperation(a: Action) {
    a.CallRelease? || a.ReplaceConsumer? || a.ConsumerLoadHeader?
  }

  lemma OwnStep(cfg: Config, s: State, a: Action, t: State) returns (ops: seq<Op>)
    requires cfg.Valid() && Inv(cfg, s) && Inv(cfg, t) && Next(cfg, s, a) == Some(t) && OwnOperation(a)
    ensures ConsumerQueue(cfg, s).Valid()
    ensures ConsumerRun(ConsumerQueue(cfg, s), ops, ConsumerQueue(cfg, t), CallCompleted(t, a))
  {
    if a.CallRelease? {
      ops := ReleaseStep(cfg, s, t);
    } else if a.ReplaceConsumer? {
      ops := ReattachStep(cfg, s, t);
    } else {
      ops := ScanStep(cfg, s, a.garbage, t);
    }
  }

  lemma InvisibleStep(cfg: Config, s: State, a: Action, t: State) returns (ops: seq<Op>)
    requires cfg.Valid() && Inv(cfg, s) && Inv(cfg, t) && Next(cfg, s, a) == Some(t)
    requires !OwnOperation(a) && !Learning(a)
    ensures ConsumerQueue(cfg, s).Valid()
    ensures ConsumerRun(ConsumerQueue(cfg, s), ops, ConsumerQueue(cfg, t), CallCompleted(t, a))
  {
    OthersAreInvisible(cfg, s, a);
    ops := SameQueue(cfg, s, t);
  }

  lemma ConsumerStep(cfg: Config, s: State, a: Action, t: State) returns (ops: seq<Op>)
    requires cfg.Valid() && Inv(cfg, s) && Inv(cfg, t) && Next(cfg, s, a) == Some(t)
    ensures ConsumerQueue(cfg, s).Valid()
    ensures ConsumerRun(ConsumerQueue(cfg, s), ops, ConsumerQueue(cfg, t), CallCompleted(t, a))
  {
    if OwnOperation(a) {
      ops := OwnStep(cfg, s, a, t);
    } else if Learning(a) {
      ops := LearningStep(cfg, s, a, t);
    } else {
      ops := InvisibleStep(cfg, s, a, t);
    }
  }

  /** Over every run of the ring there is a run of the atomic queue, from empty, that ends in the
      queue the consumer knows and in which the consumer's calls, in order, get the answers they got. */
  lemma {:induction false} ConsumerRefinesQueue(cfg: Config, s0: State, actions: seq<Action>) returns (ops: seq<Op>)
    requires cfg.Valid() && Initial(cfg, s0)
    ensures Inv(cfg, Execute(cfg, s0, actions)) && EmptyQueue(cfg).Valid()
    ensures ConsumerRun(EmptyQueue(cfg), ops, ConsumerQueue(cfg, Execute(cfg, s0, actions)),
                        ConsumerTrace(cfg, s0, actions))
    decreases |actions|
  {
    InitialInv(cfg, s0);
    ops := [];
    if actions != [] {
      var shorter, a := actions[..|actions| - 1], actions[|actions| - 1];
      ops := ConsumerRefinesQueue(cfg, s0, shorter);
      var t := Execute(cfg, s0, shorter);
      if Next(cfg, t, a).Some? {
        var u := Next(cfg, t, a).value;
        KeepNext(cfg, t, a);
        var more := ConsumerStep(cfg, t, a, u);
        ThenRun(EmptyQueue(cfg), ops, ConsumerQueue(cfg, t), more, ConsumerQueue(cfg, u),
                ConsumerTrace(cfg, s0, shorter), CallCompleted(u, a));
        ops := ops + more;
      }
    }
  }

  // ---- the producer's side ------------------------------------------------------------------

  /** One completed try_publish, with its answer. */
  datatype ProducerCall = TriedPublish(event: Event, answer: PublishResult)

  function ProducerCallOf(q: Queue, op: Op): seq<ProducerCall> {
    if op.PublishOp? then [TriedPublish(op.event, q.PublishCode(op.event))] else []
  }

  /** The producer's calls in a run of the atomic queue, with the answers the queue gives. */
  function ProducerCallsOf(q: Queue, ops: seq<Op>): seq<ProducerCall>
    requires q.Valid()
    decreases |ops|
  {
    if ops == [] then [] else ProducerCallOf(q, ops[0]) + ProducerCallsOf(Apply(q, ops[0]), ops[1..])
  }

  /** The try_publish that a step of the ring completes, with the answer it returns. */
  function PublishCompleted(s: State, t: State, a: Action): seq<ProducerCall> {
    if ProducerAction(a) && !s.producer.pc.ProducerIdle? && t.producer.last.Some?
    then [TriedPublish(s.producer.pc.event, t.producer.last.value)]
    else []
  }

  /** The producer's calls on a run of the ring, with the answers they got. */
  function ProducerTrace(cfg: Config, s0: State, actions: seq<Action>): seq<ProducerCall>
    requires cfg.slotCount >= 1
  {
    if actions == [] then []
    else
      var shorter, a := actions[..|actions| - 1], actions[|actions| - 1];
      var s := Execute(cfg, s0, shorter);
      var n := Next(cfg, s, a);
      ProducerTrace(cfg, s0, shorter) + (if n.Some? then PublishCompleted(s, n.value, a) else [])
  }

  lemma {:induction false} ProducerCallsAppend(q: Queue, a: seq<Op>, b: seq<Op>)
    requires q.Valid()
    ensures ProducerCallsOf(q, a + b) == ProducerCallsOf(q, a) + ProducerCallsOf(Run(q, a), b)
    decreases |a|
  {
    if a == [] {
      assert a + b == b;
    } else {
      assert (a + b)[1..] == a[1..] + b;
      ProducerCallsAppend(Apply(q, a[0]), a[1..], b);
    }
  }

  lemma {:induction false} TakingIsNoCall(q: Queue, count: nat)
    requires q.Valid()
    ensures ProducerCallsOf(q, TakeAll(count)) == []
    decreases count
  {
    if count > 0 {
      var ops := TakeAll(count);
      assert ops[0] == AcquireOp && ops[1..][0] == ReleaseOp && ops[1..][1..] == TakeAll(count - 1);
      TakingIsNoCall(Apply(Apply(q, AcquireOp), ReleaseOp), count - 1);
    }
  }

  ghost predicate ProducerRun(q: Queue, ops: seq<Op>, u: Queue, calls: seq<ProducerCall>) {
    q.Valid() && Run(q, ops) == u && ProducerCallsOf(q, ops) == calls
  }

  lemma OnePublish(q: Queue, event: Event)
    requires q.Valid()
    ensures ProducerRun(q, [PublishOp(event)], q.Publish(event), [TriedPublish(event, q.PublishCode(event))])
  {
    SingleOp(q, PublishOp(event));
    assert ProducerCallsOf(Apply(q, PublishOp(event)), [PublishOp(event)][1..]) == [];
  }

  lemma ThenProducerRun(q: Queue, a: seq<Op>, r: Queue, b: seq<Op>, u: Queue, first: seq<ProducerCall>,
                        second: seq<ProducerCall>)
    requires ProducerRun(q, a, r, first) && ProducerRun(r, b, u, second)
    ensures ProducerRun(q, a + b, u, first + second)
  {
    RunAppend(q, a, b);
    ProducerCallsAppend(q, a, b);
  }

  lemma ProducerQueueValid(cfg: Config, s: State)
    requires cfg.Valid() && Inv(cfg, s)
    ensures s.producer.view.r <= |s.published| && ProducerQueue(cfg, s).Valid()
  {
  }

  predicate LearningOfReleases(a: Action) {
    a.ProducerLoadState? || a.ProducerLoadWrite? || a.ProducerLoadRead? || a.ProducerStoreCell?
  }

  lemma OthersTeachNothing(cfg: Config, s: State, a: Action)
    requires cfg.slotCount >= 1 && Next(cfg, s, a).Some? && !ProducerAction(a)
    ensures var t := Next(cfg, s, a).value;
      t.published == s.published && s.producer.view == t.producer.view
  {
  }

  lemma LoadsTeachReleases(cfg: Config, s: State, a: Action)
    requires cfg.slotCount >= 1 && Next(cfg, s, a).Some? && LearningOfReleases(a)
    ensures var t := Next(cfg, s, a).value;
      t.published == s.published && s.producer.view.r <= t.producer.view.r
  {
    match a
    case ProducerLoadState(pick) => assert Next(cfg, s, a) == StepProducerLoadState(cfg, s, pick);
    case ProducerLoadWrite(pick) => assert Next(cfg, s, a) == StepProducerLoadWrite(cfg, s, pick);
    case ProducerLoadRead(pick) => assert Next(cfg, s, a) == StepProducerLoadRead(cfg, s, pick);
    case ProducerStoreCell => assert Next(cfg, s, a) == StepProducerStoreCell(cfg, s);
  }

  /** Word of further releases reaches the producer. */
  lemma ReleaseNews(cfg: Config, s: State, t: State) returns (ops: seq<Op>)
    requires cfg.Valid() && Inv(cfg, s) && Inv(cfg, t)
    requires t.published == s.published && s.producer.view.r <= t.producer.view.r
    ensures t.producer.view.r <= |t.published| && s.producer.view.r <= |s.published|
    ensures ProducerRun(ProducerQueue(cfg, s), ops, ProducerQueue(cfg, t), [])
  {
    ProducerQueueValid(cfg, s);
    ProducerQueueValid(cfg, t);
    var q, count := ProducerQueue(cfg, s), t.producer.view.r - s.producer.view.r;
    RunTakeAll(q, count);
    TakingIsNoCall(q, count);
    return TakeAll(count);
  }

  /** A load that ends the call without a slot: the news, then a refused try_publish. */
  lemma RefusingStep(cfg: Config, s: State, a: Action, t: State) returns (ops: seq<Op>)
    requires cfg.Valid() && Inv(cfg, s) && Inv(cfg, t) && Next(cfg, s, a) == Some(t) && LearningOfReleases(a)
    ensures t.producer.view.r <= |t.published| && s.producer.view.r <= |s.published|
    ensures ProducerRun(ProducerQueue(cfg, s), ops, ProducerQueue(cfg, t), PublishCompleted(s, t, a))
  {
    LoadsTeachReleases(cfg, s, a);
    ops := ReleaseNews(cfg, s, t);
    if PublishCompleted(s, t, a) != [] {
      PublishAnswersStep(cfg, s, a);
      LoadsPublishNothing(cfg, s, a);
      ProducerQueueValid(cfg, t);
      var q, u, event := ProducerQueue(cfg, s), ProducerQueue(cfg, t), s.producer.pc.event;
      assert u == ProducerQueue(cfg, s.(producer := t.producer));
      OnePublish(u, event);
      ThenProducerRun(q, ops, u, [PublishOp(event)], u, [], PublishCompleted(s, t, a));
      ops := ops + [PublishOp(event)];
    }
  }

  lemma LoadsPublishNothing(cfg: Config, s: State, a: Action)
    requires cfg.Valid() && Inv(cfg, s) && Next(cfg, s, a).Some? && LearningOfReleases(a)
    ensures Next(cfg, s, a).value.producer.last != Some(Published)
  {
  }

  lemma PublishingStep(cfg: Config, s: State, t: State) returns (ops: seq<Op>)
    requires cfg.Valid() && Inv(cfg, s) && StepProducerStoreWrite(s) == Some(t)
    ensures t.producer.view.r <= |t.published| && s.producer.view.r <= |s.published|
    ensures ProducerRun(ProducerQueue(cfg, s), ops, ProducerQueue(cfg, t), PublishCompleted(s, t, ProducerStoreWrite))
  {
    ProducerQueueValid(cfg, s);
    OnePublish(ProducerQueue(cfg, s), s.producer.pc.event);
    return [PublishOp(s.producer.pc.event)];
  }

  lemma ProducerStep(cfg: Config, s: State, a: Action, t: State) returns (ops: seq<Op>)
    requires cfg.Valid() && Inv(cfg, s) && Inv(cfg, t) && Next(cfg, s, a) == Some(t)
    ensures t.producer.view.r <= |t.published| && ProducerQueue(cfg, s).Valid()
    ensures ProducerRun(ProducerQueue(cfg, s), ops, ProducerQueue(cfg, t), PublishCompleted(s, t, a))
  {
    if a.ProducerStoreWrite? {
      ops := PublishingStep(cfg, s, t);
    } else if LearningOfReleases(a) {
      ops := RefusingStep(cfg, s, a, t);
    } else {
      OthersTeachNothing(cfg, s, a);
      ops := ReleaseNews(cfg, s, t);
    }
  }

  /** Over every run of the ring there is a run of the atomic queue, from empty, that ends in the
      queue the producer knows and in which the producer's calls, in order, get the answers they got. */
  lemma {:induction false} ProducerRefinesQueue(cfg: Config, s0: State, actions: seq<Action>) returns (ops: seq<Op>)
    requires cfg.Valid() && Initial(cfg, s0)
    ensures Inv(cfg, Execute(cfg, s0, actions)) && EmptyQueue(cfg).Valid()
    ensures ProducerRun(EmptyQueue(cfg), ops, ProducerQueue(cfg, Execute(cfg, s0, actions)),
                        ProducerTrace(cfg, s0, actions))
    decreases |actions|
  {
    InitialInv(cfg, s0);
    ops := [];
    if actions != [] {
      var shorter, a := actions[..|actions| - 1], actions[|actions| - 1];
      ops := ProducerRefinesQueue(cfg, s0, shorter);
      var t := Execute(cfg, s0, shorter);
      if Next(cfg, t, a).Some? {
        var u := Next(cfg, t, a).value;
        KeepNext(cfg, t, a);
        var more := ProducerStep(cfg, t, a, u);
        ThenProducerRun(EmptyQueue(cfg), ops, ProducerQueue(cfg, t), more, ProducerQueue(cfg, u),
                        ProducerTrace(cfg, s0, shorter), PublishCompleted(t, u, a));
        ops := ops + more;
      }
    }
  }
}
