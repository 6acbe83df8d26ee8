/** Whole runs of the ring's micro-steps, in any interleaving of the two sides. */
module RingRuns {
  import opened Word64
  import opened Messages
  import opened RingSteps

  ghost predicate Legal<T>(s: Ring<T>, acts: seq<Action<T>>)
    decreases |acts|
  {
    acts == [] || (Shaped(s) && Enabled(s, acts[0]) && Legal(Step(s, acts[0]).ring, acts[1..]))
  }

  ghost function Final<T>(s: Ring<T>, acts: seq<Action<T>>): Ring<T>
    requires Legal(s, acts)
    decreases |acts|
  {
    if acts == [] then s else Final(Step(s, acts[0]).ring, acts[1..])
  }

  ghost function Events<T>(s: Ring<T>, acts: seq<Action<T>>): (es: seq<Event<T>>)
    requires Legal(s, acts)
    ensures |es| == |acts|
    decreases |acts|
  {
    if acts == [] then [] else [Step(s, acts[0]).event] + Events(Step(s, acts[0]).ring, acts[1..])
  }

  /** What the producer published, in order. */
  function Ins<T>(es: seq<Event<T>>): seq<T> {
    if es == [] then [] else (match es[0] case Enqueued(x) => [x] case _ => []) + Ins(es[1..])
  }

  /** What the consumer removed, in order. */
  function Outs<T>(es: seq<Event<T>>): seq<T> {
    if es == [] then [] else (match es[0] case Dequeued(x) => [x] case _ => []) + Outs(es[1..])
  }

  lemma {:induction false} RunKeepsInv<T>(s: Ring<T>, acts: seq<Action<T>>)
    requires Inv(s) && Legal(s, acts)
    ensures Inv(Final(s, acts)) && Final(s, acts).capacity == s.capacity
    decreases |acts|
  {
    hide Step, Inv;
    if acts != [] {
      StepRefinesFifo(s, acts[0]);
      HistoryOfStep(s, acts[0]);
      RunKeepsInv(Step(s, acts[0]).ring, acts[1..]);
    }
  }

  /** The history a run leaves is exactly what its events say. */
  lemma {:induction false} RunHistory<T>(s: Ring<T>, acts: seq<Action<T>>)
    requires Legal(s, acts)
    ensures Final(s, acts).pushed == s.pushed + Ins(Events(s, acts))
    ensures Final(s, acts).removed == s.removed + Outs(Events(s, acts))
    decreases |acts|
  {
    hide Step, Inv, Ins, Outs, Enabled;
    if acts != [] {
      HistoryOfStep(s, acts[0]);
      RunHistory(Step(s, acts[0]).ring, acts[1..]);
      ConsEvents(Step(s, acts[0]).event, Events(Step(s, acts[0]).ring, acts[1..]));
    } else {
      NoEvents<T>();
    }
  }

  lemma NoEvents<T>()
    ensures Ins<T>([]) == [] && Outs<T>([]) == []
  {
  }

  lemma ConsEvents<T>(e: Event<T>, es: seq<Event<T>>)
    ensures Ins([e] + es) == Ins([e]) + Ins(es)
    ensures Outs([e] + es) == Outs([e]) + Outs(es)
  {
    assert ([e] + es)[1..] == es;
    assert Ins<T>([]) == [] && Outs<T>([]) == [];
  }

  lemma HistoryOfStep<T>(s: Ring<T>, a: Action<T>)
    requires Shaped(s) && Enabled(s, a)
    ensures var o := Step(s, a); o.ring.pushed == s.pushed + Ins([o.event])
    ensures var o := Step(s, a); o.ring.removed == s.removed + Outs([o.event])
    ensures Step(s, a).ring.capacity == s.capacity
  {
    assert Ins<T>([]) == [] && Outs<T>([]) == [];
  }

  /**
   * Bounded FIFO over every run from a fresh ring, for any number of operations: what was removed is a
   * prefix of what was published, and the two never differ by more than the capacity.
   */
  lemma RunIsFifo<T>(capacity: nat, slots: seq<T>, acts: seq<Action<T>>)
    requires PassesCapacityAssert(capacity) && capacity < TWO64 && |slots| == capacity
    requires Legal(Start(capacity, slots), acts)
    ensures var es := Events(Start(capacity, slots), acts);
            Outs(es) <= Ins(es) && |Ins(es)| <= |Outs(es)| + capacity
  {
    var s := Start(capacity, slots);
    StartInv(capacity, slots);
    RunKeepsInv(s, acts);
    RunHistory(s, acts);
    assert Final(s, acts).pushed == Ins(Events(s, acts));
    assert Final(s, acts).removed == Outs(Events(s, acts));
  }

  /** A run of the bounded FIFO queue with the given observations; `exact` excludes spurious answers. */
  ghost predicate FifoRun<T(!new)>(capacity: nat, q: seq<T>, es: seq<Event<T>>, q': seq<T>, exact: bool)
    decreases |es|
  {
    if es == [] then q == q'
    else exists q1 :: FifoStep(capacity, q, es[0], q1, exact) && FifoRun(capacity, q1, es[1..], q', exact)
  }

  ghost predicate AllUpToDate<T>(s: Ring<T>, acts: seq<Action<T>>)
    requires Legal(s, acts)
    decreases |acts|
  {
    acts == [] || (UpToDate(s, acts[0]) && AllUpToDate(Step(s, acts[0]).ring, acts[1..]))
  }

  /**
   * What the callers observe in any interleaving is a run of the bounded FIFO queue; when every load
   * was up to date, every "full" and "empty" answer is exact at the step of that load.
   */
  lemma {:induction false} RunRefinesFifo<T(!new)>(s: Ring<T>, acts: seq<Action<T>>, exact: bool)
    requires Inv(s) && Legal(s, acts)
    requires exact ==> AllUpToDate(s, acts)
    ensures FifoRun(s.capacity, Queue(s), Events(s, acts), Queue(Final(s, acts)), exact)
    decreases |acts|
  {
    hide Step, Inv;
    if acts != [] {
      var o := Step(s, acts[0]);
      StepRefinesFifo(s, acts[0]);
      HistoryOfStep(s, acts[0]);
      RunRefinesFifo(o.ring, acts[1..], exact);
      assert Events(s, acts)[1..] == Events(o.ring, acts[1..]);
      assert FifoStep(s.capacity, Queue(s), o.event, Queue(o.ring), exact);
    }
  }

  lemma ReadIsHead<T>(s: Ring<T>, a: Action<T>)
    requires Inv(s) && Enabled(s, a) && (Step(s, a).event.ReadHead? || Step(s, a).event.Dequeued?)
    ensures |s.removed| < |s.pushed| && s.pushed[|s.removed|] == Step(s, a).event.x
  {
    StepRefinesFifo(s, a);
    assert Queue(s)[0] == s.pushed[|s.removed|];
  }

  /** After `removed` elements and the events before the k-th, the k-th event read the next of `pushed`. */
  ghost predicate ReadsNext<T>(pushed: seq<T>, removed: nat, es: seq<Event<T>>, k: nat)
    requires k < |es| && (es[k].ReadHead? || es[k].Dequeued?)
  {
    var n := removed + |Outs(es[..k])|;
    n < |pushed + Ins(es)| && (pushed + Ins(es))[n] == es[k].x
  }

  lemma ReadsShift<T>(pushed: seq<T>, removed: nat, e: Event<T>, es: seq<Event<T>>, k: nat)
    requires k < |es| && (es[k].ReadHead? || es[k].Dequeued?)
    requires ReadsNext(pushed + Ins([e]), removed + |Outs([e])|, es, k)
    ensures ReadsNext(pushed, removed, [e] + es, k + 1)
  {
    ConsEvents(e, es);
    ConsEvents(e, es[..k]);
    assert ([e] + es)[..k + 1] == [e] + es[..k];
    assert pushed + Ins([e] + es) == pushed + Ins([e]) + Ins(es);
  }

  lemma FirstReadIsNext<T>(pushed: seq<T>, removed: nat, es: seq<Event<T>>)
    requires es != [] && (es[0].ReadHead? || es[0].Dequeued?)
    requires removed < |pushed| && pushed[removed] == es[0].x
    ensures ReadsNext(pushed, removed, es, 0)
  {
    assert es[..0] == [];
  }

  /** Every value the consumer reads, by Peek or Pop, is the next one of the published sequence. */
  lemma {:induction false} ReadsAreNext<T>(s: Ring<T>, acts: seq<Action<T>>, k: nat)
    requires Inv(s) && Legal(s, acts) && k < |acts|
    requires Events(s, acts)[k].ReadHead? || Events(s, acts)[k].Dequeued?
    ensures ReadsNext(s.pushed, |s.removed|, Events(s, acts), k)
    decreases |acts|
  {
    hide Step, Inv, Enabled, Ins, Outs;
    var e, s1 := Step(s, acts[0]).event, Step(s, acts[0]).ring;
    var es := Events(s, acts);
    assert es == [e] + Events(s1, acts[1..]);
    HistoryOfStep(s, acts[0]);
    if k == 0 {
      ReadIsHead(s, acts[0]);
      FirstReadIsNext(s.pushed, |s.removed|, es);
    } else {
      hide ReadsNext, FifoStep;
      StepRefinesFifo(s, acts[0]);
      ReadsAreNext(s1, acts[1..], k - 1);
      ReadsShift(s.pushed, |s.removed|, e, Events(s1, acts[1..]), k - 1);
    }
  }

  // ---- Slot ownership ----

  ghost function ProducerSlot<T>(s: Ring<T>): Option<nat>
    requires Shaped(s)
  {
    match s.producer
    case PSlot(_, w) => Some(SlotOf(s, w))
    case PPublish(_, w) => Some(SlotOf(s, w))
    case _ => None
  }

  ghost function ConsumerSlot<T>(s: Ring<T>): Option<nat>
    requires Shaped(s)
  {
    match s.consumer
    case CSlot(_, r) => Some(SlotOf(s, r))
    case CAdvance(_, r) => Some(SlotOf(s, r))
    case _ => None
  }

  /** The slot being constructed is not the one being read or destroyed, nor any unread slot. */
  lemma SlotOwnership<T>(s: Ring<T>)
    requires Inv(s)
    ensures ProducerSlot(s).Some? ==> ProducerSlot(s) != ConsumerSlot(s)
    ensures ProducerSlot(s).Some? ==>
              forall i: nat :: |s.removed| <= i < |s.pushed| ==> i % s.capacity != ProducerSlot(s).value
  {
    var W, R := |s.pushed|, |s.removed|;
    if ProducerSlot(s).Some? {
      MaskOfWrapped(W, s.capacity);
      MaskOfWrapped(R, s.capacity);
      forall i: nat | R <= i < W ensures i % s.capacity != W % s.capacity {
        SlotsDistinct(i, W, s.capacity);
      }
      if R < W {
        SlotsDistinct(R, W, s.capacity);
      }
    }
  }

  lemma RunSlotOwnership<T>(capacity: nat, slots: seq<T>, acts: seq<Action<T>>)
    requires PassesCapacityAssert(capacity) && capacity < TWO64 && |slots| == capacity
    requires Legal(Start(capacity, slots), acts)
    ensures var s := Final(Start(capacity, slots), acts);
            Inv(s) && (ProducerSlot(s).Some? ==>
              && ProducerSlot(s) != ConsumerSlot(s)
              && forall i: nat :: |s.removed| <= i < |s.pushed| ==> i % capacity != ProducerSlot(s).value)
  {
    StartInv(capacity, slots);
    RunKeepsInv(Start(capacity, slots), acts);
    SlotOwnership(Final(Start(capacity, slots), acts));
  }

  // ---- Check, then act ----

  // ---- What the loads may return, and what the answers then are ----

  /**
   * The load of the read index may return any count between the last one seen and the current one; a
   * push is refused, and "full" answered, exactly when that count leaves no room.
   */
  lemma LoadReadExactly<T>(s: Ring<T>, seen: nat)
    requires Inv(s) && s.producer.PLoaded?
    ensures Enabled(s, PLoadRead(seen)) <==> s.seenRead <= seen <= |s.removed|
    ensures Enabled(s, PLoadRead(seen)) ==>
              var e := Step(s, PLoadRead(seen)).event;
              match s.producer.op
              case DoPush(_) => e == if |s.pushed| - seen == s.capacity then Refused else Silent
              case AskFull => e == if |s.pushed| - seen == s.capacity then SawFull else SawRoom
              case AskSize => 0 <= |s.pushed| - seen <= s.capacity && e == SawSize(|s.pushed| - seen)
  {
    hide PassesCapacityAssert, Stored;
    if s.seenRead <= seen <= |s.removed| {
      SubOfWrapped(|s.pushed|, seen);
    }
  }

  /** Likewise for the consumer's load of the write index: "empty" exactly when it shows nothing unread. */
  lemma LoadWriteExactly<T>(s: Ring<T>, seen: nat)
    requires Inv(s) && s.consumer.CLoaded?
    ensures Enabled(s, CLoadWrite(seen)) <==> s.seenWrite <= seen <= |s.pushed|
    ensures Enabled(s, CLoadWrite(seen)) ==>
              Step(s, CLoadWrite(seen)).event == if seen == |s.removed| then FoundEmpty else FoundItem
  {
    hide PassesCapacityAssert, Stored;
    if s.seenWrite <= seen <= |s.pushed| {
      WrappedEqual(seen, |s.removed|);
    }
  }

  /** Neither side ever waits for the other: each has a step of its own in every state. */
  lemma NeitherSideWaits<T>(s: Ring<T>, pop: ProducerOp<T>, cop: ConsumerOp)
    requires Inv(s)
    ensures Enabled(s, PStart(pop)) || Enabled(s, PLoadRead(|s.removed|)) || Enabled(s, PWriteSlot) || Enabled(s, PStoreWrite)
    ensures Enabled(s, CStart(cop)) || Enabled(s, CLoadWrite(|s.pushed|)) || Enabled(s, CTouch) || Enabled(s, CStoreRead)
  {
    hide PassesCapacityAssert, Stored;
  }

  lemma {:induction false} RoomLasts<T>(s: Ring<T>, acts: seq<Action<T>>)
    requires Inv(s) && s.roomKnown && Legal(s, acts)
    requires PStoreWrite !in acts
    ensures Refused !in Events(s, acts) && SawFull !in Events(s, acts)
    decreases |acts|
  {
    if acts != [] {
      StepRefinesFifo(s, acts[0]);
      if acts[0].PLoadRead? {
        SubOfWrapped(|s.pushed|, acts[0].seen);
      }
      RoomLasts(Step(s, acts[0]).ring, acts[1..]);
    }
  }

  /**
   * Once the producer has been told "not full", no load it makes before its next published push says
   * "full", whatever the consumer does meanwhile: the Push that follows the test succeeds.
   */
  lemma NotFullThenPushSucceeds<T>(s: Ring<T>, a: Action<T>, acts: seq<Action<T>>)
    requires Inv(s) && Enabled(s, a) && Step(s, a).event.SawRoom?
    requires Legal(Step(s, a).ring, acts) && PStoreWrite !in acts
    ensures Refused !in Events(Step(s, a).ring, acts)
  {
    StepRefinesFifo(s, a);
    RoomLasts(Step(s, a).ring, acts);
  }

  lemma {:induction false} ItemLasts<T>(s: Ring<T>, acts: seq<Action<T>>)
    requires Inv(s) && s.itemKnown && Legal(s, acts)
    requires CStoreRead !in acts
    ensures FoundEmpty !in Events(s, acts)
    decreases |acts|
  {
    if acts != [] {
      StepRefinesFifo(s, acts[0]);
      if acts[0].CLoadWrite? {
        WrappedEqual(acts[0].seen, |s.removed|);
      }
      ItemLasts(Step(s, acts[0]).ring, acts[1..]);
    }
  }

  /** Once the consumer has been told "not empty", its Peek and Pop find the element. */
  lemma NotEmptyThenPopSucceeds<T>(s: Ring<T>, a: Action<T>, acts: seq<Action<T>>)
    requires Inv(s) && Enabled(s, a) && Step(s, a).event.FoundItem?
    requires Legal(Step(s, a).ring, acts) && CStoreRead !in acts
    ensures FoundEmpty !in Events(Step(s, a).ring, acts)
  {
    StepRefinesFifo(s, a);
    ItemLasts(Step(s, a).ring, acts);
  }
}
