/** The bounded single-producer single-consumer queue that the ring implements, with no caches:
    every operation compares the two positions themselves. `published` and `released` keep the
    whole history, so first-in first-out delivery is part of the state. */
module Queues {
  import opened Bits
  import opened Events

  datatype Queue = Queue(
    slotCount: nat, capacity: nat, published: seq<Event>, released: nat, held: bool, closed: bool)
  {
    predicate Valid() {
      && slotCount >= 2
      && released <= |published| <= released + slotCount
      && |published| <= U64_MAX
      && (held ==> released < |published|)
      && (forall i :: 0 <= i < |published| ==> |published[i].payload| <= capacity)
    }

    function PublishCode(event: Event): PublishResult {
      if closed then PublicationClosed
      else if |event.payload| > capacity then PayloadTooLarge
      else if |published| == U64_MAX then PublicationClosed
      else if |published| - released == slotCount then Full
      else Published
    }

    function Publish(event: Event): Queue {
      if PublishCode(event).Published? then this.(published := published + [event]) else this
    }

    function AcquireCode(): Result<Event, AcquireError>
      requires released <= |published|
    {
      if held then Err(AlreadyAcquired)
      else if released < |published| then Ok(published[released])
      else if closed then Err(Drained)
      else Err(Empty)
    }

    function Acquire(): Queue
      requires released <= |published|
    {
      this.(held := held || released < |published|)
    }

    function Release(): Queue {
      if held then this.(released := released + 1, held := false) else this
    }

    function Close(): Queue {
      this.(closed := true)
    }

    /** A consumer handle replaced by a fresh attachment forgets a slot it was holding. */
    function Reattach(): Queue {
      this.(held := false)
    }
  }

  /** One call, or the replacement of the consumer's or the producer's handle by a fresh one. */
  datatype Op = PublishOp(event: Event) | AcquireOp | ReleaseOp | CloseOp | ReattachOp | ReattachProducerOp

  datatype Answer =
    | PublishAnswer(published: PublishResult)
    | AcquireAnswer(acquired: Result<Event, AcquireError>)
    | ReleaseAnswer(released: bool)
    | NoAnswer

  function Apply(q: Queue, op: Op): (r: Queue)
    requires q.Valid()
    ensures r.Valid()
    ensures r.slotCount == q.slotCount && r.capacity == q.capacity
    ensures q.published <= r.published && q.released <= r.released
    ensures q.closed ==> r.closed && r.published == q.published
  {
    match op
    case PublishOp(event) => q.Publish(event)
    case AcquireOp => q.Acquire()
    case ReleaseOp => q.Release()
    case CloseOp => q.Close()
    case ReattachOp => q.Reattach()
    case ReattachProducerOp => q
  }

  function AnswerTo(q: Queue, op: Op): Answer
    requires q.Valid()
  {
    match op
    case PublishOp(event) => PublishAnswer(q.PublishCode(event))
    case AcquireOp => AcquireAnswer(q.AcquireCode())
    case ReleaseOp => ReleaseAnswer(q.held)
    case _ => NoAnswer
  }

  /** What the calls of a run answer, in order. */
  function Answers(q: Queue, ops: seq<Op>): (r: seq<Answer>)
    requires q.Valid()
    ensures |r| == |ops|
    decreases |ops|
  {
    if ops == [] then [] else [AnswerTo(q, ops[0])] + Answers(Apply(q, ops[0]), ops[1..])
  }

  function Run(q: Queue, ops: seq<Op>): (r: Queue)
    requires q.Valid()
    ensures r.Valid()
    ensures r.slotCount == q.slotCount && r.capacity == q.capacity
    ensures q.published <= r.published && q.released <= r.released
    ensures q.closed ==> r.closed && r.published == q.published
    decreases |ops|
  {
    if ops == [] then q else Run(Apply(q, ops[0]), ops[1..])
  }

  lemma {:induction false} RunAppend(q: Queue, a: seq<Op>, b: seq<Op>)
    requires q.Valid()
    ensures Run(q, a + b) == Run(Run(q, a), b)
    decreases |a|
  {
    if a == [] {
      assert a + b == b;
    } else {
      assert (a + b)[1..] == a[1..] + b;
      RunAppend(Apply(q, a[0]), a[1..], b);
    }
  }

  function PublishAll(events: seq<Event>): seq<Op> {
    seq(|events|, i requires 0 <= i < |events| => PublishOp(events[i]))
  }

  /** Publishing into an open queue with room appends exactly those events. */
  lemma {:induction false} RunPublishAll(q: Queue, events: seq<Event>)
    requires q.Valid() && !q.closed
    requires |q.published| + |events| <= q.released + q.slotCount && |q.published| + |events| <= U64_MAX
    requires forall i :: 0 <= i < |events| ==> |events[i].payload| <= q.capacity
    ensures Run(q, PublishAll(events)) == q.(published := q.published + events)
    decreases |events|
  {
    if events == [] {
      assert q.published + events == q.published;
    } else {
      assert PublishAll(events)[1..] == PublishAll(events[1..]);
      RunPublishAll(q.Publish(events[0]), events[1..]);
      assert q.published + [events[0]] + events[1..] == q.published + events;
    }
  }

  function TakeAll(count: nat): seq<Op> {
    if count == 0 then [] else [AcquireOp, ReleaseOp] + TakeAll(count - 1)
  }

  /** Acquiring and releasing `count` times takes the `count` oldest events. */
  lemma {:induction false} RunTakeAll(q: Queue, count: nat)
    requires q.Valid() && !q.held && q.released + count <= |q.published|
    ensures Run(q, TakeAll(count)) == q.(released := q.released + count)
    decreases count
  {
    if count > 0 {
      var ops := TakeAll(count);
      assert ops[1..][1..] == TakeAll(count - 1);
      var taken := Apply(Apply(q, AcquireOp), ReleaseOp);
      assert taken == q.(released := q.released + 1);
      RunTakeAll(taken, count - 1);
      assert ops[0] == AcquireOp && ops[1..][0] == ReleaseOp;
    }
  }

  lemma {:induction false} AnswersAppend(q: Queue, a: seq<Op>, b: seq<Op>)
    requires q.Valid()
    ensures Answers(q, a + b) == Answers(q, a) + Answers(Run(q, a), b)
    decreases |a|
  {
    if a == [] {
      assert a + b == b;
    } else {
      assert (a + b)[1..] == a[1..] + b;
      AnswersAppend(Apply(q, a[0]), a[1..], b);
    }
  }

  /** A closed queue refuses every publish, and stays closed whatever happens. */
  lemma {:induction false} ClosedRefuses(q: Queue, ops: seq<Op>, i: nat)
    requires q.Valid() && q.closed && i < |ops| && ops[i].PublishOp?
    ensures Answers(q, ops)[i] == PublishAnswer(PublicationClosed)
    decreases i
  {
    if i > 0 { ClosedRefuses(Apply(q, ops[0]), ops[1..], i - 1); }
  }

  /** After a closure every publish answers that publication is closed, whatever comes between. */
  lemma {:induction false} ClosureIsFinal(q: Queue, ops: seq<Op>, closure: nat, i: nat)
    requires q.Valid() && closure < i < |ops| && ops[closure] == CloseOp && ops[i].PublishOp?
    ensures Answers(q, ops)[i] == PublishAnswer(PublicationClosed)
    decreases closure
  {
    if closure == 0 {
      ClosedRefuses(Apply(q, ops[0]), ops[1..], i - 1);
    } else {
      ClosureIsFinal(Apply(q, ops[0]), ops[1..], closure - 1, i - 1);
    }
  }

  function EventPublished(op: Op, answer: Answer): seq<Event> {
    if op.PublishOp? && answer == PublishAnswer(Published) then [op.event] else []
  }

  /** The events of the publishes that were answered with success, in order. */
  function PublishedEvents(ops: seq<Op>, answers: seq<Answer>): seq<Event>
    requires |ops| == |answers|
  {
    if ops == [] then []
    else EventPublished(ops[0], answers[0]) + PublishedEvents(ops[1..], answers[1..])
  }

  /** How many answers are this one. */
  function CountAnswers(answers: seq<Answer>, answer: Answer): nat {
    if answers == [] then 0 else (if answers[0] == answer then 1 else 0) + CountAnswers(answers[1..], answer)
  }

  lemma {:induction false} CountAnswersAppend(a: seq<Answer>, b: seq<Answer>, answer: Answer)
    ensures CountAnswers(a + b, answer) == CountAnswers(a, answer) + CountAnswers(b, answer)
    decreases |a|
  {
    if a == [] {
      assert a + b == b;
    } else {
      assert (a + b)[1..] == a[1..] + b;
      CountAnswersAppend(a[1..], b, answer);
    }
  }

  /** The history is what was published with success, and the read position counts the releases. */
  lemma {:induction false} AnswersTellAll(q: Queue, ops: seq<Op>)
    requires q.Valid()
    ensures var answers := Answers(q, ops);
      && Run(q, ops).published == q.published + PublishedEvents(ops, answers)
      && Run(q, ops).released == q.released + CountAnswers(answers, ReleaseAnswer(true))
    decreases |ops|
  {
    if ops != [] {
      var u, rest := Apply(q, ops[0]), ops[1..];
      OneAnswerTells(q, ops[0]);
      AnswersTellAll(u, rest);
      assert Answers(q, ops)[1..] == Answers(u, rest);
      Regroup(q.published, EventPublished(ops[0], AnswerTo(q, ops[0])), PublishedEvents(rest, Answers(u, rest)));
    }
  }

  lemma OneAnswerTells(q: Queue, op: Op)
    requires q.Valid()
    ensures Apply(q, op).published == q.published + EventPublished(op, AnswerTo(q, op))
    ensures Apply(q, op).released == q.released + (if AnswerTo(q, op) == ReleaseAnswer(true) then 1 else 0)
  {
  }

  lemma Regroup(a: seq<Event>, b: seq<Event>, c: seq<Event>)
    ensures a + b + c == a + (b + c)
  {
  }

  lemma {:induction false} AnswersAt(q: Queue, ops: seq<Op>, i: nat)
    requires q.Valid() && i < |ops|
    ensures Answers(q, ops)[i] == AnswerTo(Run(q, ops[..i]), ops[i])
    decreases i
  {
    if i > 0 {
      assert ops[..i][1..] == ops[1..][..i - 1];
      AnswersAt(Apply(q, ops[0]), ops[1..], i - 1);
    }
  }

  /** What try_acquire hands out is the event after those released, in the order of publishing. */
  lemma FirstInFirstOut(q: Queue, ops: seq<Op>, i: nat, event: Event)
    requires q.Valid() && i < |ops| && ops[i] == AcquireOp && Answers(q, ops)[i] == AcquireAnswer(Ok(event))
    ensures var history := q.published + PublishedEvents(ops[..i], Answers(q, ops[..i]));
      var taken := q.released + CountAnswers(Answers(q, ops[..i]), ReleaseAnswer(true));
      taken < |history| && event == history[taken]
  {
    AnswersAt(q, ops, i);
    AnswersTellAll(q, ops[..i]);
  }
}
