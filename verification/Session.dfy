/** The sender object and the receiver object over their rings, joined by an arbitrary network. */
module Session {
  import opened Bits
  import opened Queues
  import opened Ring
  import opened EndToEnd
  import S = Sending
  import R = Receiving
  import ST = SenderTheorems
  import RT = ReceiverTheorems
  import SL = SenderLoop
  import RL = ReceiverLoop

  /** Run a new sender to its end against its ingress ring. */
  method RunSender(cfg: S.SenderConfig, sessionId: u32, producer: SpscRing, ingress: SpscRing, sends: seq<S.Turn>)
    returns (ghost first: S.SenderState, ghost last: S.SenderState)
    requires cfg.Valid() && sessionId != 0 && Linked(producer, ingress) && !ingress.acquired
    modifies producer, ingress, ingress.Memory(), ingress.SlotMemory()
    ensures Linked(producer, ingress) && ingress.header == old(ingress.header)
    ensures ST.FreshSender(first) && first.queue == old(ingress.Queue()) && first.sessionId == sessionId
    ensures last == ST.RunMany(cfg, first, [sends]) && last.queue == ingress.Queue()
  {
    var sender := new SL.Sender(cfg, ingress, sessionId);
    first := sender.State();
    sender.Run(producer, sends);
    last := sender.State();
    OneSenderRun(cfg, first, sends);
  }

  lemma OneSenderRun(cfg: S.SenderConfig, s: S.SenderState, script: seq<S.Turn>)
    requires s.queue.Valid()
    ensures ST.RunMany(cfg, s, [script]) == S.RunAll(cfg, s, script)
  {
    ST.RunKeepsQueue(cfg, s, script);
  }

  /** Run a new receiver to its end against its empty egress ring. */
  method RunReceiver(egress: SpscRing, consumer: SpscRing, receives: seq<R.Turn>)
    returns (ghost first: R.ReceiverState, ghost last: R.ReceiverState)
    requires Linked(egress, consumer) && consumer.Queue().published == []
    modifies egress, consumer, egress.Memory(), egress.SlotMemory()
    ensures Linked(egress, consumer) && egress.header == old(egress.header)
    ensures RT.FreshReceiver(first) && first.queue == old(consumer.Queue())
    ensures last == RT.RunMany(first, [receives]) && last.queue == consumer.Queue()
  {
    var receiver := new RL.Receiver(egress);
    first := receiver.State(consumer);
    receiver.Run(consumer, receives);
    last := receiver.State(consumer);
    OneReceiverRun(first, receives);
  }

  lemma OneReceiverRun(s: R.ReceiverState, script: seq<R.Turn>)
    requires s.queue.Valid()
    ensures RT.RunMany(s, [script]) == R.RunAll(s, script)
  {
    RT.RunKeepsQueue(s, script);
  }

  /** From two rings in shared memory: if the receiver pins this sender's session and nobody forges
      that session's datagrams, what the receiver has put into egress is a subsequence of what the
      producer put into ingress, and what the egress consumer has released is its beginning. */
  method Relay(cfg: S.SenderConfig, sessionId: u32, producer: SpscRing, ingress: SpscRing, sends: seq<S.Turn>,
               egress: SpscRing, consumer: SpscRing, receives: seq<R.Turn>)
    returns (ghost sender: S.SenderState, ghost sent: S.SenderState,
             ghost receiver: R.ReceiverState, ghost received: R.ReceiverState, ghost at: seq<nat>)
    requires cfg.Valid() && sessionId != 0 && Linked(producer, ingress) && !ingress.acquired
    requires Linked(egress, consumer) && consumer.Queue().published == []
    requires {producer, ingress} !! {egress, consumer} && ingress.header != egress.header
    requires ingress.header.slots != egress.header.slots
    modifies producer, ingress, ingress.Memory(), ingress.SlotMemory()
    modifies egress, consumer, egress.Memory(), egress.SlotMemory()
    ensures Linked(egress, consumer) && ingress.header == old(ingress.header)
    ensures ST.FreshSender(sender) && sender.sessionId == sessionId && sender.queue == old(ingress.Queue())
    ensures sent == ST.RunMany(cfg, sender, [sends]) && sent.queue == ingress.Queue()
    ensures RT.FreshReceiver(receiver) && receiver.queue == old(consumer.Queue())
    ensures received == RT.RunMany(receiver, [receives]) && received.queue == consumer.Queue()
    ensures NoForgery([receives], sent) && received.detector.activeSession == sessionId ==>
      InOrderPart(consumer.Queue(), ingress.Queue(), at)
  {
    sender, sent := RunSender(cfg, sessionId, producer, ingress, sends);
    receiver, received := RunReceiver(egress, consumer, receives);
    at := Conclude(cfg, sender, sends, receiver, receives);
  }

  /** The events in `egress`, and those already taken from it, come from `ingress` in order. */
  ghost predicate InOrderPart(egress: Queue, ingress: Queue, at: seq<nat>) {
    && SubsequenceAt(egress.published, ingress.published, at)
    && egress.released <= |egress.published|
    && SubsequenceAt(egress.published[..egress.released], ingress.published, at[..egress.released])
  }

  lemma Conclude(cfg: S.SenderConfig, sender: S.SenderState, sends: seq<S.Turn>, receiver: R.ReceiverState,
                 receives: seq<R.Turn>)
    returns (at: seq<nat>)
    requires cfg.Valid() && ST.FreshSender(sender) && RT.FreshReceiver(receiver)
    ensures var sent, received := ST.RunMany(cfg, sender, [sends]), RT.RunMany(receiver, [receives]);
      NoForgery([receives], sent) && received.detector.activeSession == sender.sessionId ==>
        InOrderPart(received.queue, sent.queue, at)
  {
    at := [];
    if NoForgery([receives], ST.RunMany(cfg, sender, [sends]))
       && RT.RunMany(receiver, [receives]).detector.activeSession == sender.sessionId
    {
      at := DeliveryIsSubsequence(cfg, sender, [sends], receiver, [receives]);
    }
  }
}
