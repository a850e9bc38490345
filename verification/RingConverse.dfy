/** Every run of the atomic queue that keeps to the ring's stated contract happens on the
    release/acquire ring: the refinement is not vacuous on either side. */
module RingConverse {
  import opened Bits
  import opened Events
  import opened Queues
  import opened RingSteps
  import opened RingInvariant
  import opened RingTheorems
  import opened RingRefinement
  import opened RingProgress

  // ---- paths ----------------------------------------------------------------------------------

  /** Every action of the sequence is possible when its turn comes. */
  predicate Fires(cfg: Config, s: State, actions: seq<Action>)
    requires cfg.slotCount >= 1
  {
    actions == []
    || (Fires(cfg, s, actions[..|actions| - 1])
        && Next(cfg, Execute(cfg, s, actions[..|actions| - 1]), actions[|actions| - 1]).Some?)
  }

  /** These actions lead from one state to the other and complete these calls. */
  ghost predicate Path(cfg: Config, s: State, actions: seq<Action>, t: State,
                       taken: seq<ConsumerCall>, published: seq<ProducerCall>) {
    && cfg.slotCount >= 1 && Fires(cfg, s, actions) && Execute(cfg, s, actions) == t
    && ConsumerTrace(cfg, s, actions) == taken && ProducerTrace(cfg, s, actions) == published
  }

  lemma EmptyPath(cfg: Config, s: State)
    requires cfg.slotCount >= 1
    ensures Path(cfg, s, [], s, [], [])
  {
  }

  /** A path with one more step. */
  lemma PathSnoc(cfg: Config, s: State, actions: seq<Action>, t: State, last: Action, u: State,
                 c: seq<ConsumerCall>, p: seq<ProducerCall>)
    requires Path(cfg, s, actions, t, c, p) && Next(cfg, t, last) == Some(u)
    ensures Path(cfg, s, actions + [last], u, c + CallCompleted(u, last), p + PublishCompleted(t, u, last))
  {
    var longer := actions + [last];
    assert longer[..|longer| - 1] == actions && longer[|longer| - 1] == last;
  }

  /** A path without its last step. */
  lemma PathInit(cfg: Config, s: State, actions: seq<Action>, u: State, c: seq<ConsumerCall>, p: seq<ProducerCall>)
    requires Path(cfg, s, actions, u, c, p) && actions != []
    ensures var shorter, last := actions[..|actions| - 1], actions[|actions| - 1];
      var t := Execute(cfg, s, shorter);
      && Path(cfg, s, shorter, t, ConsumerTrace(cfg, s, shorter), ProducerTrace(cfg, s, shorter))
      && Next(cfg, t, last) == Some(u)
      && c == ConsumerTrace(cfg, s, shorter) + CallCompleted(u, last)
      && p == ProducerTrace(cfg, s, shorter) + PublishCompleted(t, u, last)
  {
  }

  lemma Regroup<T>(a: seq<T>, b: seq<T>, c: seq<T>)
    ensures a + b + c == a + (b + c)
  {
  }

  lemma NothingMore<T>(a: seq<T>)
    ensures a + [] == a && [] + a == a
  {
  }

  lemma {:induction false} PathThen(cfg: Config, s: State, a: seq<Action>, t: State, b: seq<Action>, u: State,
                                    c1: seq<ConsumerCall>, p1: seq<ProducerCall>,
                                    c2: seq<ConsumerCall>, p2: seq<ProducerCall>)
    requires Path(cfg, s, a, t, c1, p1) && Path(cfg, t, b, u, c2, p2)
    ensures Path(cfg, s, a + b, u, c1 + c2, p1 + p2)
    decreases |b|
  {
    if b == [] {
      NothingMore(a);
      NothingMore(c1);
      NothingMore(p1);
    } else {
      PathInit(cfg, t, b, u, c2, p2);
      var shorter, last := b[..|b| - 1], b[|b| - 1];
      var v, c, p := Execute(cfg, t, shorter), ConsumerTrace(cfg, t, shorter), ProducerTrace(cfg, t, shorter);
      PathThen(cfg, s, a, t, shorter, v, c1, p1, c, p);
      PathSnoc(cfg, s, a + shorter, v, last, u, c1 + c, p1 + p);
      Regroup(a, shorter, [last]);
      LastBack(b);
      Regroup(c1, c, CallCompleted(u, last));
      Regroup(p1, p, PublishCompleted(v, u, last));
    }
  }

  lemma LastBack(b: seq<Action>)
    requires b != []
    ensures b[..|b| - 1] + [b[|b| - 1]] == b
  {
  }

  lemma OneStep(cfg: Config, s: State, a: Action, t: State)
    requires cfg.slotCount >= 1 && Next(cfg, s, a) == Some(t)
    ensures Path(cfg, s, [a], t, CallCompleted(t, a), PublishCompleted(s, t, a))
  {
    EmptyPath(cfg, s);
    PathSnoc(cfg, s, [], s, a, t, [], []);
    NothingMore([a]);
    NothingMore(CallCompleted(t, a));
    NothingMore(PublishCompleted(s, t, a));
  }

  // ---- the ring at rest -----------------------------------------------------------------------

  /** The ring as both threads together see it when no call is under way. */
  function WholeQueue(cfg: Config, s: State): Queue {
    Queue(cfg.slotCount, cfg.capacity, s.published, |s.delivered|, s.consumer.acquired.Some?, |s.stateLog| > 1)
  }

  /** Every byte of every event delivered has been looked at. */
  ghost predicate AllRead(delivered: seq<Delivery>, published: seq<Event>) {
    && |delivered| <= |published|
    && forall i, k :: 0 <= i < |delivered| && 0 <= k < |published[i].payload| ==> k in delivered[i].seen
  }

  /** At rest, and showing this queue. */
  ghost predicate Shows(cfg: Config, s: State, q: Queue) {
    && Inv(cfg, s) && s.producer.pc.ProducerIdle? && s.consumer.pc.ConsumerIdle?
    && (s.stopped ==> |s.stateLog| > 1) && WholeQueue(cfg, s) == q && AllRead(s.delivered, s.published)
  }

  lemma ShownIsValid(cfg: Config, s: State, q: Queue)
    requires cfg.Valid() && Shows(cfg, s, q)
    ensures q.Valid() && (s.stopped <==> q.closed)
  {
  }

  // ---- a publish runs to its end --------------------------------------------------------------

  /** The producer's next step, loading the latest store of whatever it loads. */
  function FreshPublishStep(s: State): Action
    requires s.writeLog != [] && s.readLog != [] && s.stateLog != []
  {
    match s.producer.pc
    case ProducerIdle => ProducerStoreWrite
    case LoadingState(_) => ProducerLoadState(|s.stateLog| - 1)
    case LoadingWrite(_) => ProducerLoadWrite(|s.writeLog| - 1)
    case LoadingRead(_, _) => ProducerLoadRead(|s.readLog| - 1)
    case Filling(event, _, done) => if done < 4 + |event.payload| then ProducerStoreCell else ProducerStoreWrite
  }

  /** Steps of the producer leave the other parts of the ring alone. */
  predicate ProducerAlone(s: State, t: State) {
    && t.consumer == s.consumer && t.delivered == s.delivered && t.readLog == s.readLog
    && t.stateLog == s.stateLog && t.stopped == s.stopped
  }

  lemma PublishStepIsAlone(cfg: Config, s: State, a: Action)
    requires cfg.slotCount >= 1 && ProducerAction(a) && Next(cfg, s, a).Some?
    ensures var t := Next(cfg, s, a).value;
      && ProducerAlone(s, t)
      && (!t.producer.pc.ProducerIdle? ==>
            !s.producer.pc.ProducerIdle? && t.published == s.published && t.producer.pc.event == s.producer.pc.event)
  {
    match a
    case ProducerLoadState(pick) => assert Next(cfg, s, a) == StepProducerLoadState(cfg, s, pick);
    case ProducerLoadWrite(pick) => assert Next(cfg, s, a) == StepProducerLoadWrite(cfg, s, pick);
    case ProducerLoadRead(pick) => assert Next(cfg, s, a) == StepProducerLoadRead(cfg, s, pick);
    case ProducerStoreCell => assert Next(cfg, s, a) == StepProducerStoreCell(cfg, s);
    case ProducerStoreWrite => assert Next(cfg, s, a) == StepProducerStoreWrite(s);
  }

  /** With fresh loads the answer is that of the whole queue. */
  lemma FreshPublishAnswer(cfg: Config, s: State, t: State)
    requires cfg.Valid() && Inv(cfg, s) && !s.producer.pc.ProducerIdle?
    requires Next(cfg, s, FreshPublishStep(s)) == Some(t) && t.producer.pc.ProducerIdle?
    ensures var event := s.producer.pc.event;
      var code := WholeQueue(cfg, s).PublishCode(event);
      && t.producer.last == Some(code)
      && t.published == if code.Published? then s.published + [event] else s.published
  {
    match s.producer.pc
    case LoadingState(_) => assert !s.stopped && |s.stateLog| == 1;
    case LoadingWrite(_) =>
    case LoadingRead(_, _) => ReloadedRead(cfg, s, R(s));
    case Filling(_, _, _) =>
  }

  lemma FreshPublishStepFires(cfg: Config, s: State)
    requires cfg.Valid() && Inv(cfg, s) && !s.producer.pc.ProducerIdle?
    ensures ProducerAction(FreshPublishStep(s)) && Next(cfg, s, FreshPublishStep(s)).Some?
  {
    EnabledStep(cfg, s, FreshPublishStep(s));
  }

  /** A publish under way has run to its end, with the answer of the whole queue. */
  ghost predicate PublishDone(cfg: Config, s: State, actions: seq<Action>, t: State)
    requires !s.producer.pc.ProducerIdle?
  {
    var event := s.producer.pc.event;
    var code := WholeQueue(cfg, s).PublishCode(event);
    && Path(cfg, s, actions, t, [], [TriedPublish(event, code)])
    && t.producer.pc.ProducerIdle? && ProducerAlone(s, t)
    && t.published == if code.Published? then s.published + [event] else s.published
  }

  lemma PublishDoneNow(cfg: Config, s: State, a: Action, u: State)
    requires cfg.Valid() && Inv(cfg, s) && !s.producer.pc.ProducerIdle? && a == FreshPublishStep(s)
    requires ProducerAction(a) && Next(cfg, s, a) == Some(u) && u.producer.pc.ProducerIdle?
    ensures PublishDone(cfg, s, [a], u)
  {
    OneStep(cfg, s, a, u);
    PublishStepIsAlone(cfg, s, a);
    FreshPublishAnswer(cfg, s, u);
    PublishAnswered(s, u, a, WholeQueue(cfg, s).PublishCode(s.producer.pc.event));
  }

  lemma PublishAnswered(s: State, u: State, a: Action, code: PublishResult)
    requires ProducerAction(a) && !s.producer.pc.ProducerIdle? && u.producer.last == Some(code)
    ensures CallCompleted(u, a) == [] && PublishCompleted(s, u, a) == [TriedPublish(s.producer.pc.event, code)]
  {
  }

  lemma PublishUnanswered(s: State, u: State, a: Action)
    requires ProducerAction(a) && u.producer.last.None?
    ensures CallCompleted(u, a) == [] && PublishCompleted(s, u, a) == []
  {
  }

  lemma PublishDoneLater(cfg: Config, s: State, a: Action, u: State, rest: seq<Action>, t: State)
    requires !s.producer.pc.ProducerIdle? && !u.producer.pc.ProducerIdle?
    requires Path(cfg, s, [a], u, [], []) && ProducerAlone(s, u)
    requires u.published == s.published && u.producer.pc.event == s.producer.pc.event
    requires PublishDone(cfg, u, rest, t)
    ensures PublishDone(cfg, s, [a] + rest, t)
  {
    var call := [TriedPublish(s.producer.pc.event, WholeQueue(cfg, s).PublishCode(s.producer.pc.event))];
    assert WholeQueue(cfg, u) == WholeQueue(cfg, s);
    PathThen(cfg, s, [a], u, rest, t, [], [], [], call);
    NothingMore(call);
  }

  lemma {:induction false} FinishPublish(cfg: Config, s: State) returns (actions: seq<Action>, t: State)
    requires cfg.Valid() && Inv(cfg, s) && !s.producer.pc.ProducerIdle?
    ensures Inv(cfg, t) && PublishDone(cfg, s, actions, t)
    decreases PublishWork(cfg, s.producer.pc)
  {
    var a := FreshPublishStep(s);
    FreshPublishStepFires(cfg, s);
    var u := Next(cfg, s, a).value;
    KeepNext(cfg, s, a);
    if u.producer.pc.ProducerIdle? {
      PublishDoneNow(cfg, s, a, u);
      actions, t := [a], u;
    } else {
      PublishGoesOn(cfg, s, a, u);
      var rest;
      rest, t := FinishPublish(cfg, u);
      PublishDoneLater(cfg, s, a, u, rest, t);
      actions := [a] + rest;
    }
  }

  /** A step that does not end the call answers nothing. */
  lemma PublishGoesOn(cfg: Config, s: State, a: Action, u: State)
    requires cfg.Valid() && Inv(cfg, s) && Inv(cfg, u) && ProducerAction(a) && Next(cfg, s, a) == Some(u)
    requires !u.producer.pc.ProducerIdle?
    ensures Path(cfg, s, [a], u, [], []) && ProducerAlone(s, u)
    ensures !s.producer.pc.ProducerIdle? && u.published == s.published && u.producer.pc.event == s.producer.pc.event
    ensures PublishWork(cfg, u.producer.pc) < PublishWork(cfg, s.producer.pc)
  {
    PublishStepIsAlone(cfg, s, a);
    PublishProgress(cfg, s, a);
    OneStep(cfg, s, a, u);
    PublishUnanswered(s, u, a);
  }

  // ---- an acquisition runs to its end ---------------------------------------------------------

  function FreshAcquireStep(s: State): Action
    requires s.writeLog != [] && s.readLog != [] && s.stateLog != []
  {
    match s.consumer.pc
    case ConsumerIdle => ConsumerLoadHeader(0)
    case FetchingRead => ConsumerLoadRead(|s.readLog| - 1)
    case FetchingState(_) => ConsumerLoadState(|s.stateLog| - 1)
    case FetchingWrite(_, _) => ConsumerLoadWrite(|s.writeLog| - 1)
    case Scanning(_, _) => ConsumerLoadHeader(0)
  }

  predicate ConsumerAlone(s: State, t: State) {
    && t.producer == s.producer && t.published == s.published && t.delivered == s.delivered
    && t.writeLog == s.writeLog && t.readLog == s.readLog && t.stateLog == s.stateLog && t.stopped == s.stopped
  }

  /** Past the load of the state word, a closure that has been made is known. */
  predicate KnowsState(s: State) {
    s.consumer.pc.FetchingWrite? ==> (s.consumer.view.s >= 1 <==> |s.stateLog| > 1)
  }

  lemma AcquireStepIsAlone(cfg: Config, s: State)
    requires cfg.slotCount >= 1 && s.writeLog != [] && s.readLog != [] && s.stateLog != []
    requires !s.consumer.pc.ConsumerIdle? && Next(cfg, s, FreshAcquireStep(s)).Some?
    ensures ConsumerAlone(s, Next(cfg, s, FreshAcquireStep(s)).value)
  {
    match s.consumer.pc
    case FetchingRead => assert Next(cfg, s, FreshAcquireStep(s)) == StepConsumerLoadRead(cfg, s, |s.readLog| - 1);
    case FetchingState(_) => assert Next(cfg, s, FreshAcquireStep(s)) == StepConsumerLoadState(s, |s.stateLog| - 1);
    case FetchingWrite(_, _) =>
      assert Next(cfg, s, FreshAcquireStep(s)) == StepConsumerLoadWrite(cfg, s, |s.writeLog| - 1);
    case Scanning(_, _) => assert Next(cfg, s, FreshAcquireStep(s)) == StepConsumerLoadHeader(cfg, s, 0);
  }

  lemma StateIsKnown(cfg: Config, s: State, u: State)
    requires cfg.Valid() && Inv(cfg, s) && !s.consumer.pc.ConsumerIdle? && Next(cfg, s, FreshAcquireStep(s)) == Some(u)
    ensures KnowsState(u)
  {
  }

  lemma FreshAcquireStepFires(cfg: Config, s: State)
    requires cfg.Valid() && Inv(cfg, s) && !s.consumer.pc.ConsumerIdle?
    ensures ConsumerAction(FreshAcquireStep(s)) && Next(cfg, s, FreshAcquireStep(s)).Some?
  {
    EnabledStep(cfg, s, FreshAcquireStep(s));
  }

  /** The reload with fresh loads refuses exactly when nothing is queued, as the whole queue does. */
  lemma FreshReloadAnswer(cfg: Config, s: State, t: State)
    requires cfg.Valid() && Inv(cfg, s) && s.consumer.pc.FetchingWrite? && KnowsState(s)
    requires StepConsumerLoadWrite(cfg, s, |s.writeLog| - 1) == Some(t) && t.consumer.pc.ConsumerIdle?
    ensures t.consumer.last == Some(CodeOf(WholeQueue(cfg, s))) && t.consumer.acquired.None?
    ensures !CodeOf(WholeQueue(cfg, s)).Acquired?
  {
    ReloadNeverInvalid(cfg, s, |s.writeLog| - 1);
  }

  lemma FreshAcquireAnswer(cfg: Config, s: State, t: State)
    requires cfg.Valid() && Inv(cfg, s) && !s.consumer.pc.ConsumerIdle? && KnowsState(s)
    requires Next(cfg, s, FreshAcquireStep(s)) == Some(t) && t.consumer.pc.ConsumerIdle?
    ensures t.consumer.last == Some(CodeOf(WholeQueue(cfg, s)))
    ensures t.consumer.acquired.Some? <==> CodeOf(WholeQueue(cfg, s)).Acquired?
  {
    match s.consumer.pc
    case FetchingRead => ReadLoadGoesOn(cfg, s, t);
    case FetchingState(_) => StateLoadGoesOn(s, t);
    case FetchingWrite(_, _) => FreshReloadAnswer(cfg, s, t);
    case Scanning(_, _) => FreshScanAnswer(cfg, s, t);
  }

  /** The load of the read cursor never ends a call. */
  lemma ReadLoadGoesOn(cfg: Config, s: State, t: State)
    requires cfg.Valid() && Inv(cfg, s) && StepConsumerLoadRead(cfg, s, |s.readLog| - 1) == Some(t)
    ensures !t.consumer.pc.ConsumerIdle?
  {
    FastPathNeverInvalid(cfg, s, |s.readLog| - 1);
  }

  lemma StateLoadGoesOn(s: State, t: State)
    requires s.stateLog != [] && StepConsumerLoadState(s, |s.stateLog| - 1) == Some(t)
    ensures !t.consumer.pc.ConsumerIdle?
  {
  }

  lemma FreshScanAnswer(cfg: Config, s: State, t: State)
    requires cfg.Valid() && Inv(cfg, s) && s.consumer.pc.Scanning?
    requires StepConsumerLoadHeader(cfg, s, 0) == Some(t) && t.consumer.pc.ConsumerIdle?
    ensures t.consumer.last == Some(CodeOf(WholeQueue(cfg, s))) && t.consumer.acquired.Some?
    ensures CodeOf(WholeQueue(cfg, s)).Acquired?
  {
    ScanOutcome(cfg, s, 0);
    ScanThatEnds(cfg, s, t);
  }

  lemma ScanThatEnds(cfg: Config, s: State, t: State)
    requires cfg.slotCount >= 1 && StepConsumerLoadHeader(cfg, s, 0) == Some(t) && t.consumer.pc.ConsumerIdle?
    ensures t.consumer.last.Some?
  {
  }

  /** An acquisition under way has run to its end, with the answer of the whole queue. */
  ghost predicate AcquireDone(cfg: Config, s: State, actions: seq<Action>, t: State)
    requires |s.delivered| <= |s.published|
  {
    var answer := CodeOf(WholeQueue(cfg, s));
    && Path(cfg, s, actions, t, [TriedAcquire(answer)], [])
    && t.consumer.pc.ConsumerIdle? && ConsumerAlone(s, t) && (t.consumer.acquired.Some? <==> answer.Acquired?)
  }

  lemma AcquireDoneNow(cfg: Config, s: State, a: Action, u: State)
    requires cfg.Valid() && Inv(cfg, s) && !s.consumer.pc.ConsumerIdle? && KnowsState(s) && a == FreshAcquireStep(s)
    requires ConsumerAction(a) && Next(cfg, s, a) == Some(u) && u.consumer.pc.ConsumerIdle?
    ensures |s.delivered| <= |s.published| && AcquireDone(cfg, s, [a], u)
  {
    OneStep(cfg, s, a, u);
    AcquireStepIsAlone(cfg, s);
    FreshAcquireAnswer(cfg, s, u);
  }

  lemma AcquireDoneLater(cfg: Config, s: State, a: Action, u: State, rest: seq<Action>, t: State)
    requires |s.delivered| <= |s.published| && |u.delivered| <= |u.published|
    requires Path(cfg, s, [a], u, [], []) && ConsumerAlone(s, u) && WholeQueue(cfg, u) == WholeQueue(cfg, s)
    requires AcquireDone(cfg, u, rest, t)
    ensures AcquireDone(cfg, s, [a] + rest, t)
  {
    var call := [TriedAcquire(CodeOf(WholeQueue(cfg, s)))];
    PathThen(cfg, s, [a], u, rest, t, [], [], call, []);
    NothingMore(call);
  }

  lemma {:induction false} FinishAcquire(cfg: Config, s: State) returns (actions: seq<Action>, t: State)
    requires cfg.Valid() && Inv(cfg, s) && !s.consumer.pc.ConsumerIdle? && KnowsState(s)
    ensures |s.delivered| <= |s.published| && Inv(cfg, t) && AcquireDone(cfg, s, actions, t)
    decreases AcquireWork(s.consumer.pc)
  {
    var a := FreshAcquireStep(s);
    FreshAcquireStepFires(cfg, s);
    var u := Next(cfg, s, a).value;
    KeepNext(cfg, s, a);
    StateIsKnown(cfg, s, u);
    if u.consumer.pc.ConsumerIdle? {
      AcquireDoneNow(cfg, s, a, u);
      actions, t := [a], u;
    } else {
      AcquireGoesOn(cfg, s, a, u);
      var rest;
      rest, t := FinishAcquire(cfg, u);
      AcquireDoneLater(cfg, s, a, u, rest, t);
      actions := [a] + rest;
    }
  }

  lemma AcquireGoesOn(cfg: Config, s: State, a: Action, u: State)
    requires cfg.Valid() && Inv(cfg, s) && Inv(cfg, u) && !s.consumer.pc.ConsumerIdle? && a == FreshAcquireStep(s)
    requires ConsumerAction(a) && Next(cfg, s, a) == Some(u) && !u.consumer.pc.ConsumerIdle?
    ensures Path(cfg, s, [a], u, [], []) && ConsumerAlone(s, u) && WholeQueue(cfg, u) == WholeQueue(cfg, s)
    ensures |s.delivered| <= |s.published| && AcquireWork(u.consumer.pc) < AcquireWork(s.consumer.pc)
  {
    AcquireStepIsAlone(cfg, s);
    AcquireProgress(cfg, s, a);
    OneStep(cfg, s, a, u);
  }

  // ---- reading a held event to its end --------------------------------------------------------

  /** The first `k` bytes of the held event have been looked at. */
  predicate ReadUpTo(seen: map<nat, nat>, k: nat) {
    forall i :: 0 <= i < k ==> i in seen
  }

  /** One more byte of the held event. */
  lemma ReadOne(cfg: Config, s: State, k: nat) returns (u: State)
    requires cfg.Valid() && Inv(cfg, s) && s.consumer.acquired.Some? && |s.delivered| < |s.published|
    requires k < |s.published[|s.delivered|].payload| && ReadUpTo(s.consumer.holding.seen, k)
    ensures Path(cfg, s, [ConsumerLoadPayload(k, 0)], u, [], []) && Inv(cfg, u) && ConsumerAlone(s, u)
    ensures u.consumer.acquired.Some? && ReadUpTo(u.consumer.holding.seen, k + 1)
  {
    var a := ConsumerLoadPayload(k, 0);
    PayloadEnabled(cfg, s, k, 0);
    u := Next(cfg, s, a).value;
    KeepConsumerLoadPayload(cfg, s, k, 0);
    PayloadReadsStep(cfg, s, k, 0);
    OneStep(cfg, s, a, u);
  }

  lemma {:induction false} ReadAll(cfg: Config, s: State, k: nat) returns (actions: seq<Action>, t: State)
    requires cfg.Valid() && Inv(cfg, s) && s.consumer.acquired.Some? && |s.delivered| < |s.published|
    requires k <= |s.published[|s.delivered|].payload| && ReadUpTo(s.consumer.holding.seen, k)
    ensures Path(cfg, s, actions, t, [], []) && Inv(cfg, t) && ConsumerAlone(s, t)
    ensures t.consumer.acquired.Some? && ReadUpTo(t.consumer.holding.seen, |s.published[|s.delivered|].payload|)
    decreases |s.published[|s.delivered|].payload| - k
  {
    if k == |s.published[|s.delivered|].payload| {
      EmptyPath(cfg, s);
      actions, t := [], s;
    } else {
      var u := ReadOne(cfg, s, k);
      var rest;
      rest, t := ReadAll(cfg, u, k + 1);
      PathThen(cfg, s, [ConsumerLoadPayload(k, 0)], u, rest, t, [], [], [], []);
      actions := [ConsumerLoadPayload(k, 0)] + rest;
    }
  }

  // ---- one operation after the other ----------------------------------------------------------

  /** What the ring's contract lets its users do: no publish and no new producer after the closure, and
      a release only of a slot that is held. */
  predicate Allowed(q: Queue, op: Op) {
    match op
    case PublishOp(_) => !q.closed
    case ReattachProducerOp => !q.closed
    case ReleaseOp => q.held
    case _ => true
  }

  predicate AllowedAll(q: Queue, ops: seq<Op>)
    requires q.Valid()
    decreases |ops|
  {
    ops == [] || (Allowed(q, ops[0]) && AllowedAll(Apply(q, ops[0]), ops[1..]))
  }

  /** One step from rest. */
  lemma PlaySingle(cfg: Config, s: State, a: Action) returns (t: State)
    requires cfg.Valid() && Inv(cfg, s) && Ready(s, a)
    ensures Next(cfg, s, a) == Some(t) && Inv(cfg, t)
    ensures Path(cfg, s, [a], t, CallCompleted(t, a), PublishCompleted(s, t, a))
  {
    EnabledStep(cfg, s, a);
    t := Next(cfg, s, a).value;
    KeepNext(cfg, s, a);
    OneStep(cfg, s, a, t);
  }

  lemma PlayPublish(cfg: Config, s: State, q: Queue, event: Event) returns (actions: seq<Action>, t: State)
    requires cfg.Valid() && Shows(cfg, s, q) && !q.closed
    ensures Shows(cfg, t, q.Publish(event))
    ensures Path(cfg, s, actions, t, [], [TriedPublish(event, q.PublishCode(event))])
  {
    var u := BeginPublish(cfg, s, q, event);
    var rest;
    rest, t := FinishPublish(cfg, u);
    PathThen(cfg, s, [CallPublish(event)], u, rest, t, [], [], [], [TriedPublish(event, q.PublishCode(event))]);
    NothingMore([TriedPublish(event, q.PublishCode(event))]);
    actions := [CallPublish(event)] + rest;
    MoreToRead(s.delivered, s.published, t.published);
  }

  lemma BeginPublish(cfg: Config, s: State, q: Queue, event: Event) returns (u: State)
    requires cfg.Valid() && Shows(cfg, s, q) && !q.closed
    ensures Inv(cfg, u) && Path(cfg, s, [CallPublish(event)], u, [], [])
    ensures u.producer.pc == LoadingState(event) && WholeQueue(cfg, u) == q
    ensures ProducerAlone(s, u) && u.published == s.published
  {
    u := PlaySingle(cfg, s, CallPublish(event));
  }

  lemma MoreToRead(delivered: seq<Delivery>, a: seq<Event>, b: seq<Event>)
    requires AllRead(delivered, a) && a <= b
    ensures AllRead(delivered, b)
  {
  }

  lemma PlayAcquire(cfg: Config, s: State, q: Queue) returns (actions: seq<Action>, t: State)
    requires cfg.Valid() && Shows(cfg, s, q) && q.Valid()
    ensures Shows(cfg, t, q.Acquire())
    ensures Path(cfg, s, actions, t, [TriedAcquire(CodeOf(q))], [])
  {
    if q.held {
      t := PlayHeldAcquire(cfg, s, q);
      actions := [CallAcquire];
    } else {
      var u := BeginAcquire(cfg, s, q);
      var rest;
      rest, t := FinishAcquire(cfg, u);
      PathThen(cfg, s, [CallAcquire], u, rest, t, [], [], [TriedAcquire(CodeOf(q))], []);
      NothingMore([TriedAcquire(CodeOf(q))]);
      actions := [CallAcquire] + rest;
    }
  }

  lemma PlayHeldAcquire(cfg: Config, s: State, q: Queue) returns (t: State)
    requires cfg.Valid() && Shows(cfg, s, q) && q.Valid() && q.held
    ensures Shows(cfg, t, q.Acquire())
    ensures Path(cfg, s, [CallAcquire], t, [TriedAcquire(CodeOf(q))], [])
  {
    t := PlaySingle(cfg, s, CallAcquire);
  }

  lemma BeginAcquire(cfg: Config, s: State, q: Queue) returns (u: State)
    requires cfg.Valid() && Shows(cfg, s, q) && q.Valid() && !q.held
    ensures Inv(cfg, u) && Path(cfg, s, [CallAcquire], u, [], [])
    ensures !u.consumer.pc.ConsumerIdle? && KnowsState(u) && WholeQueue(cfg, u) == q && ConsumerAlone(s, u)
  {
    u := PlaySingle(cfg, s, CallAcquire);
  }

  lemma PlayRelease(cfg: Config, s: State, q: Queue) returns (actions: seq<Action>, t: State)
    requires cfg.Valid() && Shows(cfg, s, q) && q.Valid() && q.held
    ensures Shows(cfg, t, q.Release())
    ensures Path(cfg, s, actions, t, [GaveBack], [])
  {
    var looks, u := ReadAll(cfg, s, 0);
    t := ReleaseRead(cfg, u);
    PathThen(cfg, s, looks, u, [CallRelease], t, [], [], [GaveBack], []);
    NothingMore([GaveBack]);
    actions := looks + [CallRelease];
  }

  /** Give back a slot that has been read to its end. */
  lemma ReleaseRead(cfg: Config, u: State) returns (t: State)
    requires cfg.Valid() && Inv(cfg, u) && u.consumer.acquired.Some? && AllRead(u.delivered, u.published)
    requires |u.delivered| < |u.published| && ReadUpTo(u.consumer.holding.seen, |u.published[|u.delivered|].payload|)
    ensures Path(cfg, u, [CallRelease], t, [GaveBack], []) && Inv(cfg, t)
    ensures t.consumer.pc.ConsumerIdle? && t.consumer.acquired.None? && |t.delivered| == |u.delivered| + 1
    ensures t.producer == u.producer && t.published == u.published && t.stateLog == u.stateLog && t.stopped == u.stopped
    ensures AllRead(t.delivered, t.published)
  {
    t := PlaySingle(cfg, u, CallRelease);
    ReleaseDeliversStep(cfg, u);
    OneMoreRead(u.delivered, u.consumer.holding, u.published);
  }

  lemma OneMoreRead(delivered: seq<Delivery>, holding: Delivery, published: seq<Event>)
    requires AllRead(delivered, published) && |delivered| < |published|
    requires ReadUpTo(holding.seen, |published[|delivered|].payload|)
    ensures AllRead(delivered + [holding], published)
  {
  }

  /** The steps of closing leave everything but the state word alone. */
  lemma CloseEffects(cfg: Config, s: State, u: State, t: State)
    requires cfg.slotCount >= 1 && Next(cfg, s, StopProducer) == Some(u) && Next(cfg, u, ClosePublication) == Some(t)
    ensures t.producer == s.producer && t.consumer == s.consumer && t.published == s.published
      && t.delivered == s.delivered
    ensures t.stopped && |t.stateLog| == |s.stateLog| + 1
  {
  }

  /** A step of the closing thread is nobody's call. */
  lemma PlayLifeCycle(cfg: Config, s: State, a: Action) returns (t: State)
    requires cfg.Valid() && Inv(cfg, s) && Ready(s, a) && (a.StopProducer? || a.ClosePublication?)
    ensures Next(cfg, s, a) == Some(t) && Inv(cfg, t) && Path(cfg, s, [a], t, [], [])
  {
    t := PlaySingle(cfg, s, a);
  }

  lemma PlayClose(cfg: Config, s: State, q: Queue) returns (actions: seq<Action>, t: State)
    requires cfg.Valid() && Shows(cfg, s, q) && s.stateLog != []
    ensures Shows(cfg, t, q.Close())
    ensures Path(cfg, s, actions, t, [], [])
  {
    var u := PlayLifeCycle(cfg, s, StopProducer);
    StoppedIsReady(cfg, s, u);
    t := PlayLifeCycle(cfg, u, ClosePublication);
    CloseEffects(cfg, s, u, t);
    ClosedShows(cfg, s, t, q);
    ClosePath(cfg, s, u, t);
    actions := [StopProducer] + [ClosePublication];
  }

  lemma ClosePath(cfg: Config, s: State, u: State, t: State)
    requires Path(cfg, s, [StopProducer], u, [], []) && Path(cfg, u, [ClosePublication], t, [], [])
    ensures Path(cfg, s, [StopProducer] + [ClosePublication], t, [], [])
  {
    PathThen(cfg, s, [StopProducer], u, [ClosePublication], t, [], [], [], []);
  }

  lemma ClosedShows(cfg: Config, s: State, t: State, q: Queue)
    requires Shows(cfg, s, q) && s.stateLog != [] && Inv(cfg, t)
    requires t.producer == s.producer && t.consumer == s.consumer && t.published == s.published
      && t.delivered == s.delivered
    requires t.stopped && |t.stateLog| == |s.stateLog| + 1
    ensures Shows(cfg, t, q.Close())
  {
  }

  lemma StoppedIsReady(cfg: Config, s: State, u: State)
    requires cfg.slotCount >= 1 && Next(cfg, s, StopProducer) == Some(u)
    ensures Ready(u, ClosePublication)
  {
  }

  lemma PlayReattach(cfg: Config, s: State, q: Queue) returns (actions: seq<Action>, t: State)
    requires cfg.Valid() && Shows(cfg, s, q)
    ensures Shows(cfg, t, q.Reattach())
    ensures Path(cfg, s, actions, t, [Reattached], [])
  {
    t := PlaySingle(cfg, s, ReplaceConsumer);
    actions := [ReplaceConsumer];
  }

  lemma PlayReattachProducer(cfg: Config, s: State, q: Queue) returns (actions: seq<Action>, t: State)
    requires cfg.Valid() && Shows(cfg, s, q) && !q.closed
    ensures Shows(cfg, t, q)
    ensures Path(cfg, s, actions, t, [], [])
  {
    t := PlaySingle(cfg, s, ReplaceProducer);
    actions := [ReplaceProducer];
  }

  /** The ring at rest can do what the queue does next, with the queue's answer. */
  lemma Play(cfg: Config, s: State, q: Queue, op: Op) returns (actions: seq<Action>, t: State)
    requires cfg.Valid() && Shows(cfg, s, q) && q.Valid() && Allowed(q, op)
    ensures Shows(cfg, t, Apply(q, op))
    ensures Path(cfg, s, actions, t, ConsumerCallOf(q, op), ProducerCallOf(q, op))
  {
    match op
    case PublishOp(event) => actions, t := PlayPublish(cfg, s, q, event);
    case AcquireOp => actions, t := PlayAcquire(cfg, s, q);
    case ReleaseOp => actions, t := PlayRelease(cfg, s, q);
    case CloseOp => actions, t := PlayClose(cfg, s, q);
    case ReattachOp => actions, t := PlayReattach(cfg, s, q);
    case ReattachProducerOp => actions, t := PlayReattachProducer(cfg, s, q);
  }

  lemma {:induction false} PlayAll(cfg: Config, s: State, q: Queue, ops: seq<Op>)
    returns (actions: seq<Action>, t: State)
    requires cfg.Valid() && Shows(cfg, s, q) && q.Valid() && AllowedAll(q, ops)
    ensures Shows(cfg, t, Run(q, ops))
    ensures Path(cfg, s, actions, t, ConsumerCallsOf(q, ops), ProducerCallsOf(q, ops))
    decreases |ops|
  {
    if ops == [] {
      EmptyPath(cfg, s);
      actions, t := [], s;
    } else {
      var first, u := Play(cfg, s, q, ops[0]);
      var rest;
      rest, t := PlayAll(cfg, u, Apply(q, ops[0]), ops[1..]);
      PathThen(cfg, s, first, u, rest, t, ConsumerCallOf(q, ops[0]), ProducerCallOf(q, ops[0]),
               ConsumerCallsOf(Apply(q, ops[0]), ops[1..]), ProducerCallsOf(Apply(q, ops[0]), ops[1..]));
      actions := first + rest;
    }
  }

  /** Every run of the atomic queue from empty that keeps to the contract happens on the ring: there are
      steps, each possible in its turn, after which both sides have made the run's calls, in order, with
      the run's answers, the ring shows the run's final queue, and every byte of every event delivered
      has been read and is the published one. */
  lemma QueueRunsHappen(cfg: Config, s0: State, ops: seq<Op>) returns (actions: seq<Action>)
    requires cfg.Valid() && Initial(cfg, s0)
    ensures EmptyQueue(cfg).Valid()
    ensures AllowedAll(EmptyQueue(cfg), ops) ==>
      var t := Execute(cfg, s0, actions);
      && Fires(cfg, s0, actions) && WholeQueue(cfg, t) == Run(EmptyQueue(cfg), ops)
      && ConsumerTrace(cfg, s0, actions) == ConsumerCallsOf(EmptyQueue(cfg), ops)
      && ProducerTrace(cfg, s0, actions) == ProducerCallsOf(EmptyQueue(cfg), ops)
      && |t.delivered| <= |t.published|
      && forall i, k :: 0 <= i < |t.delivered| && 0 <= k < |t.published[i].payload| ==>
           k in t.delivered[i].seen && t.delivered[i].seen[k] == t.published[i].payload[k]
  {
    InitialInv(cfg, s0);
    actions := [];
    if AllowedAll(EmptyQueue(cfg), ops) {
      var t;
      actions, t := PlayAll(cfg, s0, EmptyQueue(cfg), ops);
      forall i, k | 0 <= i < |t.delivered| && 0 <= k < |t.published[i].payload|
        ensures k in t.delivered[i].seen && t.delivered[i].seen[k] == t.published[i].payload[k]
      {
        assert Matches(t.delivered[i], t.published[i]);
      }
    }
  }
}
