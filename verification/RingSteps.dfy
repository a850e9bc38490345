/** The ring as two threads running on release/acquire memory, one step per atomic access, per
    slot-header field and per payload byte.

    Memory follows sections 6.9.2.2 [intro.races] and 33.5.4 [atomics.order] of ISO/IEC
    14882:2024. Each atomic word is the list of all stores ever made to it. A thread's view says,
    for each word, how many of those stores happen before its next step; a load may return any
    store from that point on, and an acquire load adds the view that the store was released with.
    Every plain access is stamped with the accessing thread's own position; an access whose
    conflicting predecessors are not all in the accessing thread's view is a data race. A racy
    load returns an arbitrary value. */
module RingSteps {
  import opened Bits
  import opened Events
  import opened Geometry

  datatype Config = Config(slotCount: nat, capacity: nat) {
    ghost predicate Valid() {
      && IsPowerOfTwo(slotCount)
      && 2 <= slotCount <= U32_MAX
      && capacity <= U32_MAX
    }
  }

  /** How many stores to the write cursor, the read cursor and the state word are known. */
  datatype View = View(w: nat, r: nat, s: nat) {
    function Join(other: View): View {
      View(Max(w, other.w), Max(r, other.r), Max(s, other.s))
    }
  }

  function Max(a: nat, b: nat): nat {
    if a < b then b else a
  }

  /** One store to an atomic word, with the storing thread's view at that moment. */
  datatype Store = Store(value: nat, view: View)

  /** One plain memory word: latest value, stamps of the latest write and of the latest read. */
  datatype Cell = Cell(value: nat, writtenAt: nat, readAt: nat)

  /** Slot words: 0 sequence, 1 timestamp, 2 stream, 3 length, 4 and 5 reserved, 6.. payload. */
  const HEADER_CELLS: nat := 6
  /** The order in which the consumer reads the header. */
  const SCAN: seq<nat> := [3, 4, 5, 2, 0, 1, 3]

  datatype ProducerPc =
    | ProducerIdle
    | LoadingState(event: Event)
    | LoadingWrite(event: Event)
    | LoadingRead(event: Event, pos: nat)
    | Filling(event: Event, pos: nat, done: nat)

  datatype Producer = Producer(pc: ProducerPc, cachedRead: nat, view: View, last: Option<PublishResult>)

  datatype ConsumerPc =
    | ConsumerIdle
    | FetchingRead
    | FetchingState(pos: nat)
    | FetchingWrite(pos: nat, closed: bool)
    | Scanning(pos: nat, got: seq<nat>)

  /** What a consumer took out of a slot: the header it read and the payload bytes it looked at. */
  datatype Delivery = Delivery(streamId: nat, sequence: nat, timestamp: nat, length: nat, seen: map<nat, nat>)

  datatype AcquireResult = Acquired | Refused(error: AcquireError)

  datatype Consumer = Consumer(
    pc: ConsumerPc, cachedWrite: nat, acquired: Option<nat>, holding: Delivery, view: View,
    last: Option<AcquireResult>)

  /** `stopped` is the end of the producer's last publish; the closing thread is told of it. */
  datatype State = State(
    producer: Producer, consumer: Consumer, closer: View, stopped: bool,
    writeLog: seq<Store>, readLog: seq<Store>, stateLog: seq<Store>, slots: seq<seq<Cell>>,
    published: seq<Event>, delivered: seq<Delivery>, race: bool)

  datatype Action =
    | CallPublish(event: Event)
    | ProducerLoadState(pick: nat) | ProducerLoadWrite(pick: nat) | ProducerLoadRead(pick: nat)
    | ProducerStoreCell | ProducerStoreWrite
    | CallAcquire
    | ConsumerLoadRead(pick: nat) | ConsumerLoadState(pick: nat) | ConsumerLoadWrite(pick: nat)
    | ConsumerLoadHeader(garbage: nat)
    | ConsumerLoadPayload(index: nat, garbage: nat)
    | CallRelease
    | StopProducer | ClosePublication
    | ReplaceProducer | ReplaceConsumer

  function SlotOf(cfg: Config, pos: nat): nat
    requires cfg.slotCount >= 1
  {
    And(pos, cfg.slotCount - 1)
  }

  /** The value an event puts into a slot word. */
  function EventCell(event: Event, cell: nat): nat {
    if cell == 0 then event.sequence
    else if cell == 1 then event.timestamp
    else if cell == 2 then event.streamId
    else if cell == 3 then |event.payload| % (U32_MAX + 1)
    else if HEADER_CELLS <= cell < HEADER_CELLS + |event.payload| then event.payload[cell - HEADER_CELLS]
    else 0
  }

  /** The producer's i-th plain store: four header fields, then the payload bytes. */
  function FillCell(i: nat): nat {
    if i < 4 then i else HEADER_CELLS + (i - 4)
  }

  predicate Knows(view: nat, pick: nat, stores: seq<Store>) {
    view <= pick < |stores|
  }

  // ---- producer -------------------------------------------------------------------------

  function PublishReturns(s: State, result: PublishResult): State {
    s.(producer := s.producer.(pc := ProducerIdle, last := Some(result)))
  }

  function StepCallPublish(s: State, event: Event): Option<State> {
    if s.producer.pc.ProducerIdle? && !s.stopped
    then Some(s.(producer := s.producer.(pc := LoadingState(event), last := None)))
    else None
  }

  function StepProducerLoadState(cfg: Config, s: State, pick: nat): Option<State> {
    if s.producer.pc.LoadingState? && Knows(s.producer.view.s, pick, s.stateLog) then
      var t := s.(producer := s.producer.(view := s.producer.view.Join(s.stateLog[pick].view)));
      var event := s.producer.pc.event;
      if s.stateLog[pick].value != READY then Some(PublishReturns(t, PublicationClosed))
      else if |event.payload| > cfg.capacity then Some(PublishReturns(t, PayloadTooLarge))
      else Some(t.(producer := t.producer.(pc := LoadingWrite(event))))
    else None
  }

  /** A relaxed load: it moves the view of this word only. */
  function StepProducerLoadWrite(cfg: Config, s: State, pick: nat): Option<State> {
    if s.producer.pc.LoadingWrite? && Knows(s.producer.view.w, pick, s.writeLog) then
      var t := s.(producer := s.producer.(view := s.producer.view.(w := pick)));
      var event, pos := s.producer.pc.event, s.writeLog[pick].value;
      if pos == U64_MAX then Some(PublishReturns(t, PublicationClosed))
      else if Sub64(pos, s.producer.cachedRead) >= cfg.slotCount
      then Some(t.(producer := t.producer.(pc := LoadingRead(event, pos))))
      else Some(t.(producer := t.producer.(pc := Filling(event, pos, 0))))
    else None
  }

  function StepProducerLoadRead(cfg: Config, s: State, pick: nat): Option<State> {
    if s.producer.pc.LoadingRead? && Knows(s.producer.view.r, pick, s.readLog) then
      var event, pos, seen := s.producer.pc.event, s.producer.pc.pos, s.readLog[pick].value;
      var t := s.(producer := s.producer.(view := s.producer.view.Join(s.readLog[pick].view), cachedRead := seen));
      if seen > pos || Sub64(pos, seen) > cfg.slotCount then Some(PublishReturns(t, PublicationClosed))
      else if Sub64(pos, seen) == cfg.slotCount then Some(PublishReturns(t, Full))
      else Some(t.(producer := t.producer.(pc := Filling(event, pos, 0))))
    else None
  }

  function StepProducerStoreCell(cfg: Config, s: State): Option<State>
    requires cfg.slotCount >= 1
  {
    if s.producer.pc.Filling? && s.producer.pc.done < 4 + |s.producer.pc.event.payload| then
      var event, done := s.producer.pc.event, s.producer.pc.done;
      var slot, cell := SlotOf(cfg, s.producer.pc.pos), FillCell(done);
      if slot < |s.slots| && cell < |s.slots[slot]| then
        var was := s.slots[slot][cell];
        Some(s.(producer := s.producer.(pc := s.producer.pc.(done := done + 1)),
                race := s.race || was.readAt > s.producer.view.r,
                slots := s.slots[slot := s.slots[slot][cell :=
                  Cell(EventCell(event, cell), s.producer.view.w + 1, was.readAt)]]))
      else None
    else None
  }

  function StepProducerStoreWrite(s: State): Option<State> {
    if s.producer.pc.Filling? && s.producer.pc.done == 4 + |s.producer.pc.event.payload| then
      var view := s.producer.view.(w := |s.writeLog|);
      var t := s.(producer := s.producer.(view := view),
                  writeLog := s.writeLog + [Store(s.producer.pc.pos + 1, view)],
                  published := s.published + [s.producer.pc.event]);
      Some(PublishReturns(t, Published))
    else None
  }

  // ---- consumer -------------------------------------------------------------------------

  function AcquireReturns(s: State, result: AcquireResult): State {
    s.(consumer := s.consumer.(pc := ConsumerIdle, last := Some(result)))
  }

  function StepCallAcquire(s: State): Option<State> {
    if !s.consumer.pc.ConsumerIdle? then None
    else if s.consumer.acquired.Some? then Some(AcquireReturns(s, Refused(AlreadyAcquired)))
    else Some(s.(consumer := s.consumer.(pc := FetchingRead, last := None)))
  }

  /** Go on once the cached write cursor is settled. */
  function Inspect(cfg: Config, s: State, pos: nat): State {
    if pos > s.consumer.cachedWrite || Sub64(s.consumer.cachedWrite, pos) > cfg.slotCount
    then AcquireReturns(s, Refused(InvalidSlot))
    else s.(consumer := s.consumer.(pc := Scanning(pos, [])))
  }

  function StepConsumerLoadRead(cfg: Config, s: State, pick: nat): Option<State> {
    if s.consumer.pc.FetchingRead? && Knows(s.consumer.view.r, pick, s.readLog) then
      var t := s.(consumer := s.consumer.(view := s.consumer.view.(r := pick)));
      var pos := s.readLog[pick].value;
      if pos >= s.consumer.cachedWrite
      then Some(t.(consumer := t.consumer.(pc := FetchingState(pos))))
      else Some(Inspect(cfg, t, pos))
    else None
  }

  function StepConsumerLoadState(s: State, pick: nat): Option<State> {
    if s.consumer.pc.FetchingState? && Knows(s.consumer.view.s, pick, s.stateLog) then
      Some(s.(consumer := s.consumer.(
        view := s.consumer.view.Join(s.stateLog[pick].view),
        pc := FetchingWrite(s.consumer.pc.pos, s.stateLog[pick].value == CLOSED))))
    else None
  }

  function StepConsumerLoadWrite(cfg: Config, s: State, pick: nat): Option<State> {
    if s.consumer.pc.FetchingWrite? && Knows(s.consumer.view.w, pick, s.writeLog) then
      var pos, closed := s.consumer.pc.pos, s.consumer.pc.closed;
      var t := s.(consumer := s.consumer.(
        view := s.consumer.view.Join(s.writeLog[pick].view), cachedWrite := s.writeLog[pick].value));
      if pos == t.consumer.cachedWrite
      then Some(AcquireReturns(t, Refused(if closed then Drained else Empty)))
      else Some(Inspect(cfg, t, pos))
    else None
  }

  /** A plain load by the consumer: stamp the word, and flag a race with an unknown write. */
  function ConsumerLoad(s: State, slot: nat, cell: nat): State
    requires slot < |s.slots| && cell < |s.slots[slot]|
  {
    var was := s.slots[slot][cell];
    s.(race := s.race || was.writtenAt > s.consumer.view.w,
       slots := s.slots[slot := s.slots[slot][cell := was.(readAt := s.consumer.view.r + 1)]])
  }

  function LoadedValue(s: State, slot: nat, cell: nat, garbage: nat): nat
    requires slot < |s.slots| && cell < |s.slots[slot]|
  {
    if s.slots[slot][cell].writtenAt > s.consumer.view.w then garbage else s.slots[slot][cell].value
  }

  /** The scan stops early on a length above the capacity or a reserved word that is not zero. */
  function ScanRejects(cfg: Config, step: nat, value: nat): bool {
    if step == 0 then value > cfg.capacity else step < 3 && value != 0
  }

  function StepConsumerLoadHeader(cfg: Config, s: State, garbage: nat): Option<State>
    requires cfg.slotCount >= 1
  {
    if s.consumer.pc.Scanning? && |s.consumer.pc.got| < |SCAN| then
      var pos, got := s.consumer.pc.pos, s.consumer.pc.got;
      var slot, cell := SlotOf(cfg, pos), SCAN[|got|];
      if slot < |s.slots| && cell < |s.slots[slot]| then
        var value := LoadedValue(s, slot, cell, garbage);
        var t := ConsumerLoad(s, slot, cell);
        if ScanRejects(cfg, |got|, value) then Some(AcquireReturns(t, Refused(InvalidSlot)))
        else if |got| + 1 < |SCAN| then Some(t.(consumer := t.consumer.(pc := Scanning(pos, got + [value]))))
        else
          var holding := Delivery(got[3], got[4], got[5], value, map[]);
          var u := t.(consumer := t.consumer.(acquired := Some(pos), holding := holding));
          Some(AcquireReturns(u, Acquired))
      else None
    else None
  }

  /** The caller reads one payload byte of the view it holds; any order, any number of times. */
  function StepConsumerLoadPayload(cfg: Config, s: State, index: nat, garbage: nat): Option<State>
    requires cfg.slotCount >= 1
  {
    if s.consumer.pc.ConsumerIdle? && s.consumer.acquired.Some? && index < s.consumer.holding.length then
      var slot, cell := SlotOf(cfg, s.consumer.acquired.value), HEADER_CELLS + index;
      if slot < |s.slots| && cell < |s.slots[slot]| then
        var value := LoadedValue(s, slot, cell, garbage);
        var t := ConsumerLoad(s, slot, cell);
        Some(t.(consumer := t.consumer.(
          holding := t.consumer.holding.(seen := t.consumer.holding.seen[index := value]))))
      else None
    else None
  }

  function StepCallRelease(s: State): Option<State> {
    if s.consumer.pc.ConsumerIdle? && s.consumer.acquired.Some? then
      var view := s.consumer.view.(r := |s.readLog|);
      Some(s.(consumer := s.consumer.(view := view, acquired := None),
              readLog := s.readLog + [Store((s.consumer.acquired.value + 1) % TWO_TO_64, view)],
              delivered := s.delivered + [s.consumer.holding]))
    else None
  }

  // ---- life cycle -----------------------------------------------------------------------

  /** The producer has made its last publish, and the closing thread has been told so. */
  function StepStopProducer(s: State): Option<State> {
    if s.producer.pc.ProducerIdle? then
      Some(s.(stopped := true, closer := s.closer.Join(s.producer.view)))
    else None
  }

  function StepClosePublication(s: State): Option<State> {
    if s.stopped then
      var view := s.closer.(s := |s.stateLog|);
      Some(s.(closer := view, stateLog := s.stateLog + [Store(CLOSED, view)]))
    else None
  }

  /** A fresh attachment that starts after the old handle's last call: zeroed caches, same history. */
  function StepReplaceProducer(s: State): Option<State> {
    if s.producer.pc.ProducerIdle? && !s.stopped
    then Some(s.(producer := s.producer.(cachedRead := 0, last := None)))
    else None
  }

  function StepReplaceConsumer(s: State): Option<State> {
    if s.consumer.pc.ConsumerIdle?
    then Some(s.(consumer := s.consumer.(cachedWrite := 0, acquired := None, last := None)))
    else None
  }

  function Next(cfg: Config, s: State, a: Action): Option<State>
    requires cfg.slotCount >= 1
  {
    match a
    case CallPublish(event) => StepCallPublish(s, event)
    case ProducerLoadState(pick) => StepProducerLoadState(cfg, s, pick)
    case ProducerLoadWrite(pick) => StepProducerLoadWrite(cfg, s, pick)
    case ProducerLoadRead(pick) => StepProducerLoadRead(cfg, s, pick)
    case ProducerStoreCell => StepProducerStoreCell(cfg, s)
    case ProducerStoreWrite => StepProducerStoreWrite(s)
    case CallAcquire => StepCallAcquire(s)
    case ConsumerLoadRead(pick) => StepConsumerLoadRead(cfg, s, pick)
    case ConsumerLoadState(pick) => StepConsumerLoadState(s, pick)
    case ConsumerLoadWrite(pick) => StepConsumerLoadWrite(cfg, s, pick)
    case ConsumerLoadHeader(garbage) => StepConsumerLoadHeader(cfg, s, garbage)
    case ConsumerLoadPayload(index, garbage) => StepConsumerLoadPayload(cfg, s, index, garbage)
    case CallRelease => StepCallRelease(s)
    case StopProducer => StepStopProducer(s)
    case ClosePublication => StepClosePublication(s)
    case ReplaceProducer => StepReplaceProducer(s)
    case ReplaceConsumer => StepReplaceConsumer(s)
  }

  /** A freshly initialized ring: zero cursors and slot headers, unspecified payload bytes. */
  predicate Initial(cfg: Config, s: State) {
    var start := View(0, 0, 0);
    && s.producer == Producer(ProducerIdle, 0, start, None)
    && s.consumer == Consumer(ConsumerIdle, 0, None, Delivery(0, 0, 0, 0, map[]), start, None)
    && s.closer == start && !s.stopped && !s.race
    && s.writeLog == [Store(0, start)] && s.readLog == [Store(0, start)] && s.stateLog == [Store(READY, start)]
    && s.published == [] && s.delivered == []
    && |s.slots| == cfg.slotCount
    && (forall j :: 0 <= j < cfg.slotCount ==> |s.slots[j]| == HEADER_CELLS + cfg.capacity)
    && (forall j, c :: 0 <= j < cfg.slotCount && 0 <= c < HEADER_CELLS + cfg.capacity ==>
          s.slots[j][c].writtenAt == 0 && s.slots[j][c].readAt == 0 && (c < HEADER_CELLS ==> s.slots[j][c].value == 0))
  }

  /** `s` is the outcome of the actions from some initial state; actions that cannot fire are ignored. */
  function Execute(cfg: Config, s: State, actions: seq<Action>): State
    requires cfg.slotCount >= 1
  {
    if actions == [] then s
    else
      var t := Execute(cfg, s, actions[..|actions| - 1]);
      var n := Next(cfg, t, actions[|actions| - 1]);
      if n.Some? then n.value else t
  }
}
