/**
 * The lock-free single-producer single-consumer ring as a system of micro-steps: one step per load
 * of an index, slot access or store of an index.  The load of the other side's index may be stale:
 * it returns any value between the last one that side saw and the current one.
 *
 * `pushed` and `removed` record the whole history; their lengths are the unbounded counters of which
 * the stored 64-bit indices are the wrapped images.
 */
module RingSteps {
  import opened Word64

  datatype ProducerOp<T> = DoPush(item: T) | AskFull | AskSize

  datatype ProducerPc<T> =
    | PIdle
    | PLoaded(op: ProducerOp<T>, w: u64)  // own index loaded
    | PSlot(item: T, w: u64)              // not full: about to construct the element
    | PPublish(item: T, w: u64)           // constructed: about to store the write index

  datatype ConsumerOp = DoPeek | DoPop | AskEmpty

  datatype ConsumerPc<T> =
    | CIdle
    | CLoaded(op: ConsumerOp, r: u64)     // own index loaded
    | CSlot(op: ConsumerOp, r: u64)       // not empty: about to read (Peek) or destroy (Pop)
    | CAdvance(value: T, r: u64)          // destroyed: about to store the read index

  datatype Ring<T> = Ring(
    capacity: nat,
    slots: seq<T>,
    writeIdx: u64,
    readIdx: u64,
    producer: ProducerPc<T>,
    consumer: ConsumerPc<T>,
    // history
    pushed: seq<T>,
    removed: seq<T>,
    seenRead: nat,     // the latest read count the producer has loaded
    seenWrite: nat,    // the latest write count the consumer has loaded
    roomKnown: bool,   // the producer was told "not full" since its last push
    itemKnown: bool)   // the consumer was told "not empty" since its last pop

  datatype Action<T> =
    | PStart(pop: ProducerOp<T>)
    | PLoadRead(seen: nat)
    | PWriteSlot
    | PStoreWrite
    | CStart(cop: ConsumerOp)
    | CLoadWrite(seen: nat)
    | CTouch
    | CStoreRead

  /** What a step lets its caller observe. */
  datatype Event<T> =
    | Silent
    | Enqueued(x: T)
    | Refused
    | SawRoom
    | SawFull
    | SawSize(n: u64)
    | Dequeued(x: T)
    | ReadHead(x: T)
    | FoundEmpty
    | FoundItem

  datatype Outcome<T> = Outcome(ring: Ring<T>, event: Event<T>)

  predicate Shaped<T>(s: Ring<T>) {
    PassesCapacityAssert(s.capacity) && s.capacity < TWO64 && |s.slots| == s.capacity
  }

  function SlotOf<T>(s: Ring<T>, index: u64): (i: nat)
    requires Shaped(s)
    ensures i < |s.slots|
  {
    BitAnd(index, s.capacity - 1)
  }

  /** Which micro-steps the two sides may take; a load returns a value not older than the last one. */
  predicate Enabled<T>(s: Ring<T>, a: Action<T>) {
    match a
    case PStart(_) => s.producer.PIdle?
    case PLoadRead(seen) => s.producer.PLoaded? && s.seenRead <= seen <= |s.removed|
    case PWriteSlot => s.producer.PSlot?
    case PStoreWrite => s.producer.PPublish?
    case CStart(_) => s.consumer.CIdle?
    case CLoadWrite(seen) => s.consumer.CLoaded? && s.seenWrite <= seen <= |s.pushed|
    case CTouch => s.consumer.CSlot?
    case CStoreRead => s.consumer.CAdvance?
  }

  function Step<T>(s: Ring<T>, a: Action<T>): (o: Outcome<T>)
    requires Shaped(s) && Enabled(s, a)
    ensures Shaped(o.ring)
  {
    match a
    case PStart(op) => Outcome(s.(producer := PLoaded(op, s.writeIdx)), Silent)
    case PLoadRead(seen) => LoadRead(s, seen)
    case PWriteSlot =>
      var PSlot(item, w) := s.producer;
      Outcome(s.(slots := s.slots[SlotOf(s, w) := item], producer := PPublish(item, w)), Silent)
    case PStoreWrite =>
      var PPublish(item, w) := s.producer;
      Outcome(s.(writeIdx := Add(w, 1), producer := PIdle, pushed := s.pushed + [item], roomKnown := false),
              Enqueued(item))
    case CStart(op) => Outcome(s.(consumer := CLoaded(op, s.readIdx)), Silent)
    case CLoadWrite(seen) => LoadWrite(s, seen)
    case CTouch =>
      var CSlot(op, r) := s.consumer;
      var value := s.slots[SlotOf(s, r)];
      if op.DoPop? then Outcome(s.(consumer := CAdvance(value, r)), Silent)
      else Outcome(s.(consumer := CIdle), ReadHead(value))
    case CStoreRead =>
      var CAdvance(value, r) := s.consumer;
      Outcome(s.(readIdx := Add(r, 1), consumer := CIdle, removed := s.removed + [value], itemKnown := false),
              Dequeued(value))
  }

  /** The producer's acquire load of the read index and the test that follows it. */
  function LoadRead<T>(s: Ring<T>, seen: nat): (o: Outcome<T>)
    requires s.producer.PLoaded?
  {
    var PLoaded(op, w) := s.producer;
    var used := Sub(w, Wrap(seen));
    var full := used >= s.capacity;
    var s' := s.(producer := PIdle, seenRead := seen);
    match op
    case DoPush(item) =>
      if full then Outcome(s', Refused)
      else Outcome(s'.(producer := PSlot(item, w), roomKnown := true), Silent)
    case AskFull => if full then Outcome(s', SawFull) else Outcome(s'.(roomKnown := true), SawRoom)
    case AskSize => Outcome(s', SawSize(used))
  }

  /** The consumer's acquire load of the write index and the test that follows it. */
  function LoadWrite<T>(s: Ring<T>, seen: nat): (o: Outcome<T>)
    requires s.consumer.CLoaded?
  {
    var CLoaded(op, r) := s.consumer;
    var s' := s.(consumer := CIdle, seenWrite := seen);
    if Wrap(seen) == r then Outcome(s', FoundEmpty)
    else Outcome(s'.(itemKnown := true, consumer := if op.AskEmpty? then CIdle else CSlot(op, r)), FoundItem)
  }

  /** A freshly initialised ring over arbitrary slot contents. */
  function Start<T>(capacity: nat, slots: seq<T>): Ring<T> {
    Ring(capacity, slots, 0, 0, PIdle, CIdle, [], [], 0, 0, false, false)
  }

  // ---- The queue a ring holds, and the invariant of every run ----

  function Queue<T>(s: Ring<T>): (q: seq<T>) {
    if |s.removed| <= |s.pushed| then s.pushed[|s.removed|..] else []
  }

  ghost predicate Stored<T>(s: Ring<T>, i: nat)
    requires Shaped(s) && i < |s.pushed|
  {
    s.slots[i % s.capacity] == s.pushed[i]
  }

  ghost predicate Counters<T>(s: Ring<T>) {
    && s.writeIdx == Wrap(|s.pushed|)
    && s.readIdx == Wrap(|s.removed|)
    && s.seenRead <= |s.removed| <= s.seenWrite <= |s.pushed| <= s.seenRead + s.capacity
  }

  ghost predicate ProducerOk<T>(s: Ring<T>)
    requires Shaped(s)
  {
    var W := |s.pushed|;
    && (s.roomKnown ==> W < s.seenRead + s.capacity)
    && match s.producer
       case PIdle => true
       case PLoaded(_, w) => w == Wrap(W)
       case PSlot(_, w) => w == Wrap(W) && s.roomKnown
       case PPublish(item, w) => w == Wrap(W) && s.roomKnown && s.slots[W % s.capacity] == item
  }

  ghost predicate ConsumerOk<T>(s: Ring<T>) {
    var R := |s.removed|;
    && (s.itemKnown ==> R < s.seenWrite <= |s.pushed|)
    && match s.consumer
       case CIdle => true
       case CLoaded(_, r) => r == Wrap(R)
       case CSlot(_, r) => r == Wrap(R) && s.itemKnown
       case CAdvance(value, r) => r == Wrap(R) && s.itemKnown && value == s.pushed[R]
  }

  ghost predicate Inv<T>(s: Ring<T>) {
    && Shaped(s)
    && Counters(s)
    && s.removed <= s.pushed
    && (forall i: nat :: |s.removed| <= i < |s.pushed| ==> Stored(s, i))
    && ProducerOk(s)
    && ConsumerOk(s)
  }

  lemma StartInv<T>(capacity: nat, slots: seq<T>)
    requires PassesCapacityAssert(capacity) && capacity < TWO64 && |slots| == capacity
    ensures Inv(Start(capacity, slots)) && Queue(Start(capacity, slots)) == []
  {
  }

  /** The bounded FIFO queue every step is compared with; `exact` says the loads were up to date. */
  ghost predicate FifoStep<T>(capacity: nat, q: seq<T>, e: Event<T>, q': seq<T>, exact: bool) {
    match e
    case Enqueued(x) => |q| < capacity && q' == q + [x]
    case Dequeued(x) => q == [x] + q'
    case ReadHead(x) => q' == q && q != [] && q[0] == x
    case Refused => q' == q && (exact ==> |q| == capacity)
    case SawFull => q' == q && (exact ==> |q| == capacity)
    case SawRoom => q' == q && |q| < capacity
    case SawSize(n) => q' == q && |q| <= n <= capacity && (exact ==> n == |q|)
    case FoundEmpty => q' == q && (exact ==> q == [])
    case FoundItem => q' == q && q != []
    case Silent => q' == q
  }

  predicate UpToDate<T>(s: Ring<T>, a: Action<T>) {
    match a
    case PLoadRead(seen) => seen == |s.removed|
    case CLoadWrite(seen) => seen == |s.pushed|
    case _ => true
  }

  /** The step keeps the invariant and is a step of the bounded FIFO queue. */
  ghost predicate Sound<T>(s: Ring<T>, a: Action<T>)
    requires Shaped(s) && Enabled(s, a)
  {
    var o := Step(s, a);
    Inv(o.ring) && FifoStep(s.capacity, Queue(s), o.event, Queue(o.ring), UpToDate(s, a))
  }

  /** A step that changes neither slots nor history keeps every stored element. */
  lemma StoredFrame<T>(s: Ring<T>, s': Ring<T>)
    requires Inv(s) && Shaped(s')
    requires s'.capacity == s.capacity && s'.slots == s.slots && s'.pushed == s.pushed && s'.removed == s.removed
    ensures forall i: nat :: |s'.removed| <= i < |s'.pushed| ==> Stored(s', i)
  {
    forall i: nat | |s'.removed| <= i < |s'.pushed| ensures Stored(s', i) { assert Stored(s, i); }
  }

  lemma StartSound<T>(s: Ring<T>, a: Action<T>)
    requires Inv(s) && Enabled(s, a) && (a.PStart? || a.CStart?)
    ensures Sound(s, a)
  {
    StoredFrame(s, Step(s, a).ring);
  }

  lemma LoadReadSound<T>(s: Ring<T>, seen: nat)
    requires Inv(s) && Enabled(s, PLoadRead(seen))
    ensures Sound(s, PLoadRead(seen))
  {
    hide Sub, Wrap, PassesCapacityAssert;
    SubOfWrapped(|s.pushed|, seen);
    StoredFrame(s, Step(s, PLoadRead(seen)).ring);
    hide Stored;
  }

  lemma WriteSlotSound<T>(s: Ring<T>)
    requires Inv(s) && s.producer.PSlot?
    ensures Sound(s, PWriteSlot)
  {
    var W := |s.pushed|;
    var s' := Step(s, PWriteSlot).ring;
    MaskOfWrapped(W, s.capacity);
    forall i: nat | |s.removed| <= i < W ensures Stored(s', i) {
      assert Stored(s, i);
      SlotsDistinct(i, W, s.capacity);
    }
  }

  lemma StoreWriteSound<T>(s: Ring<T>)
    requires Inv(s) && s.producer.PPublish?
    ensures Sound(s, PStoreWrite)
  {
    var W := |s.pushed|;
    var s' := Step(s, PStoreWrite).ring;
    AddOfWrapped(W, 1);
    forall i: nat | |s.removed| <= i < W + 1 ensures Stored(s', i) { if i < W { assert Stored(s, i); } }
  }

  lemma LoadWriteSound<T>(s: Ring<T>, seen: nat)
    requires Inv(s) && Enabled(s, CLoadWrite(seen))
    ensures Sound(s, CLoadWrite(seen))
  {
    WrappedEqual(seen, |s.removed|);
    StoredFrame(s, Step(s, CLoadWrite(seen)).ring);
  }

  lemma TouchSound<T>(s: Ring<T>)
    requires Inv(s) && s.consumer.CSlot?
    ensures Sound(s, CTouch)
  {
    MaskOfWrapped(|s.removed|, s.capacity);
    assert Stored(s, |s.removed|);
    StoredFrame(s, Step(s, CTouch).ring);
  }

  lemma StoreReadSound<T>(s: Ring<T>)
    requires Inv(s) && s.consumer.CAdvance?
    ensures Sound(s, CStoreRead)
  {
    var R := |s.removed|;
    var s' := Step(s, CStoreRead).ring;
    AddOfWrapped(R, 1);
    forall i: nat | R < i < |s.pushed| ensures Stored(s', i) { assert Stored(s, i); }
  }

  lemma StepRefinesFifo<T>(s: Ring<T>, a: Action<T>)
    requires Inv(s) && Enabled(s, a)
    ensures Sound(s, a)
  {
    match a
    case PStart(_) => StartSound(s, a);
    case CStart(_) => StartSound(s, a);
    case PLoadRead(seen) => LoadReadSound(s, seen);
    case PWriteSlot => WriteSlotSound(s);
    case PStoreWrite => StoreWriteSound(s);
    case CLoadWrite(seen) => LoadWriteSound(s, seen);
    case CTouch => TouchSound(s);
    case CStoreRead => StoreReadSound(s);
  }

  // ---- The consumer process dies; recovery skips the head ----

  /** The consumer loses its program counter and registers; the shared memory stays. */
  function ConsumerDies<T>(s: Ring<T>): Ring<T> {
    s.(consumer := CIdle, itemKnown := false)
  }

  /** `ForceAdvanceReadIndex(1)` with the loaded read index `r`: there is no test for an empty queue. */
  function SkipHead<T>(s: Ring<T>, r: u64): (s': Ring<T>)
    requires Shaped(s)
    ensures Shaped(s')
  {
    s.(readIdx := Add(r, 1), removed := s.removed + [s.slots[SlotOf(s, r)]])
  }

  lemma ConsumerDiesInv<T>(s: Ring<T>)
    requires Inv(s)
    ensures Inv(ConsumerDies(s)) && Queue(ConsumerDies(s)) == Queue(s)
  {
    StoredFrame(s, ConsumerDies(s));
  }

  /** Skipping keeps the ring sound when, and only when, the consumer side had seen an element. */
  lemma SkipHeadExact<T>(s: Ring<T>)
    requires Inv(s) && s.consumer == CIdle && !s.itemKnown
    ensures Inv(SkipHead(s, s.readIdx)) <==> |s.removed| < s.seenWrite
    ensures Inv(SkipHead(s, s.readIdx)) ==> Queue(s) == [s.pushed[|s.removed|]] + Queue(SkipHead(s, s.readIdx))
  {
    var R := |s.removed|;
    var s' := SkipHead(s, s.readIdx);
    MaskOfWrapped(R, s.capacity);
    AddOfWrapped(R, 1);
    if R < s.seenWrite {
      assert Stored(s, R);
      forall i: nat | R < i < |s.pushed| ensures Stored(s', i) { assert Stored(s, i); }
    }
  }
}
