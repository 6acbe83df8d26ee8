/**
 * The worker/supervisor protocol: any number of workers, each with its own request ring and monitor,
 * one child process that holds all of them, and the supervisor that recovers after the child died.
 * Every load, store and slot access is one step; the child may die between any two of them, and the
 * producer of each request ring goes on meanwhile.
 *
 * The worker loop is Peek, test the monitor, BeginTransaction, work, EndTransaction, Pop.
 */
module CrashRecovery {
  import opened Word64
  import opened Messages
  import opened RingSteps
  import opened CrashLedger

  datatype WorkerPc =
    | Top
    | Peeking                  // inside Peek, or holding the pointer it returned
    | Checked                  // the monitor was idle
    | Beginning(seqId: u64)    // about to store status
    | Numbering(seqId: u64)    // about to store processing_seq
    | Timing                   // about to store the timestamp and the ids
    | Working
    | Ended                    // status is idle again
    | Popping                  // inside Pop
    | Dead

  datatype Lane = Lane(
    ring: Ring<MsgHeader>,
    pc: WorkerPc,
    processing: bool,          // the monitor's status
    processingSeq: u64,
    startTimestamp: u64,
    // history
    numbered: bool,            // processing_seq was stored in this transaction
    how: seq<Removal>,
    tally: seq<Tally>)

  datatype LaneAction =
    | Produce(action: Action<MsgHeader>)
    | StartPeek
    | LoadPeek(seen: nat)
    | CheckIdle
    | ReadSeq
    | StoreStatus
    | StoreSeq
    | StoreTime(now: u64)
    | EndWork
    | StartPop
    | LoadPop(seen: nat)
    | TouchPop
    | StorePop

  predicate ByProducer(a: Action<MsgHeader>) {
    a.PStart? || a.PLoadRead? || a.PWriteSlot? || a.PStoreWrite?
  }

  predicate LaneEnabled(l: Lane, a: LaneAction) {
    Shaped(l.ring) &&
    match a
    case Produce(action) => ByProducer(action) && Enabled(l.ring, action)
    case StartPeek => l.pc.Top? && l.ring.consumer.CIdle?
    case LoadPeek(seen) => l.pc.Peeking? && Enabled(l.ring, CLoadWrite(seen))
    case CheckIdle => l.pc.Peeking? && l.ring.consumer.CSlot?
    case ReadSeq => l.pc.Checked? && l.ring.consumer.CSlot? && l.ring.consumer.op.DoPeek?
    case StoreStatus => l.pc.Beginning?
    case StoreSeq => l.pc.Numbering?
    case StoreTime(_) => l.pc.Timing?
    case EndWork => l.pc.Working?
    case StartPop => l.pc.Ended? && l.ring.consumer.CIdle?
    case LoadPop(seen) => l.pc.Popping? && Enabled(l.ring, CLoadWrite(seen))
    case TouchPop => l.pc.Popping? && l.ring.consumer.CSlot?
    case StorePop => l.pc.Popping? && l.ring.consumer.CAdvance?
  }

  function LaneStep(l: Lane, a: LaneAction): Lane
    requires LaneEnabled(l, a)
  {
    var head := |l.ring.removed|;
    match a
    case Produce(action) =>
      var ring := Step(l.ring, action).ring;
      l.(ring := ring, tally := if action.PStoreWrite? then Arrive(l.tally) else l.tally)
    case StartPeek => l.(ring := Step(l.ring, CStart(DoPeek)).ring, pc := Peeking)
    case LoadPeek(seen) =>
      var o := Step(l.ring, CLoadWrite(seen));
      l.(ring := o.ring, pc := if o.event.FoundEmpty? then Top else Peeking)
    case CheckIdle =>
      if l.processing then l.(ring := l.ring.(consumer := CIdle), pc := Top) else l.(pc := Checked)
    case ReadSeq =>
      var o := Step(l.ring, CTouch);
      l.(ring := o.ring, pc := Beginning(o.event.x.seqId))
    case StoreStatus =>
      l.(processing := true, numbered := false, tally := Begin(l.tally, head), pc := Numbering(l.pc.seqId))
    case StoreSeq => l.(processingSeq := l.pc.seqId, numbered := true, pc := Timing)
    case StoreTime(now) => l.(startTimestamp := now, pc := Working)
    case EndWork => l.(processing := false, tally := End(l.tally, head), pc := Ended)
    case StartPop => l.(ring := Step(l.ring, CStart(DoPop)).ring, pc := Popping)
    case LoadPop(seen) =>
      var o := Step(l.ring, CLoadWrite(seen));
      l.(ring := o.ring, pc := if o.event.FoundEmpty? then Top else Popping)
    case TouchPop => l.(ring := Step(l.ring, CTouch).ring)
    case StorePop => l.(ring := Step(l.ring, CStoreRead).ring, how := l.how + [Popped], pc := Top)
  }

  predicate BetweenEndAndPop(l: Lane) {
    l.pc.Ended? || l.pc.Popping?
  }

  /** The child process dies under this worker. */
  function Die(l: Lane): Lane {
    l.(ring := ConsumerDies(l.ring), pc := Dead,
       tally := if BetweenEndAndPop(l) then LosePop(l.tally, |l.ring.removed|) else l.tally)
  }

  /** The supervisor stores the advanced read index. */
  function Skip(l: Lane, r: u64): Lane
    requires Shaped(l.ring)
  {
    l.(ring := SkipHead(l.ring, r), how := l.how + [Skipped])
  }

  function MarkIdle(l: Lane): Lane {
    l.(processing := false)
  }

  function Revive(l: Lane): Lane {
    l.(pc := Top)
  }

  // ---- The invariant of one worker ----

  /** `advanced`: the supervisor has skipped the head but not yet cleared the status. */
  function PhaseOf(l: Lane, advanced: bool): Phase {
    if l.processing && !advanced then Open else if BetweenEndAndPop(l) then Closed else Untouched
  }

  ghost predicate ControlOk(l: Lane) {
    var c := l.ring.consumer;
    match l.pc
    case Top => c.CIdle? && !l.processing
    case Peeking => (c.CLoaded? || c.CSlot?) && c.op.DoPeek? && !l.processing
    case Checked => c.CSlot? && c.op.DoPeek? && !l.processing
    case Beginning(seqId) => c.CIdle? && !l.processing && AtHead(l, seqId)
    case Numbering(seqId) => c.CIdle? && l.processing && AtHead(l, seqId)
    case Timing => c.CIdle? && l.processing && l.numbered && l.ring.itemKnown
    case Working => c.CIdle? && l.processing && l.numbered && l.ring.itemKnown
    case Ended => c.CIdle? && !l.processing && l.ring.itemKnown
    case Popping => (c.CAdvance? || ((c.CLoaded? || c.CSlot?) && c.op.DoPop?)) && !l.processing && l.ring.itemKnown
    case Dead => c.CIdle? && !l.ring.itemKnown
  }

  /** The queue has a head, the worker has seen it, and this is its sequence number. */
  ghost predicate AtHead(l: Lane, seqId: u64) {
    && l.ring.itemKnown
    && |l.ring.removed| < |l.ring.pushed|
    && l.ring.pushed[|l.ring.removed|].seqId == seqId
  }

  ghost predicate MonitorOk(l: Lane, advanced: bool) {
    l.processing && !advanced ==>
      && |l.ring.removed| < l.ring.seenWrite <= |l.ring.pushed|
      && (l.numbered ==> l.processingSeq == l.ring.pushed[|l.ring.removed|].seqId)
  }

  ghost predicate LaneInv(l: Lane, advanced: bool) {
    && Inv(l.ring)
    && |l.how| == |l.ring.removed| && |l.tally| == |l.ring.pushed|
    && ControlOk(l)
    && MonitorOk(l, advanced)
    && LedgerOk(l.tally, l.how, PhaseOf(l, advanced))
    && (advanced ==> l.pc.Dead?)
  }

  /** What the producer's steps leave alone. */
  lemma ProducerFrame(s: Ring<MsgHeader>, a: Action<MsgHeader>)
    requires Shaped(s) && Enabled(s, a) && ByProducer(a)
    ensures var s' := Step(s, a).ring;
            && s'.removed == s.removed && s'.consumer == s.consumer
            && s'.seenWrite == s.seenWrite && s'.itemKnown == s.itemKnown
            && s.pushed <= s'.pushed && |s'.pushed| == |s.pushed| + if a.PStoreWrite? then 1 else 0
  {
  }

  /** What the consumer's steps leave alone. */
  lemma ConsumerFrame(s: Ring<MsgHeader>, a: Action<MsgHeader>)
    requires Shaped(s) && Enabled(s, a) && !ByProducer(a)
    ensures Step(s, a).ring.pushed == s.pushed
    ensures !a.CStoreRead? ==> Step(s, a).ring.removed == s.removed
    ensures a.CStoreRead? ==> |Step(s, a).ring.removed| == |s.removed| + 1
  {
  }

  lemma StepInv(s: Ring<MsgHeader>, a: Action<MsgHeader>)
    requires Inv(s) && Enabled(s, a)
    ensures Inv(Step(s, a).ring)
  {
    StepRefinesFifo(s, a);
  }

  /** The timestamp is the clock reading of the last store, and nothing else touches it. */
  lemma TimestampIsLastStored(l: Lane, a: LaneAction)
    requires LaneEnabled(l, a)
    ensures LaneStep(l, a).startTimestamp == if a.StoreTime? then a.now else l.startTimestamp
    ensures Die(l).startTimestamp == MarkIdle(l).startTimestamp == Revive(l).startTimestamp == l.startTimestamp
  {
    hide Step, Arrive, Begin, End, LosePop, ConsumerDies;
  }

  lemma ProduceKeepsLane(l: Lane, a: Action<MsgHeader>, advanced: bool)
    requires LaneInv(l, advanced) && LaneEnabled(l, Produce(a))
    ensures LaneInv(LaneStep(l, Produce(a)), advanced)
  {
    hide Step, Inv, LedgerOk, Arrive, Enabled;
    StepInv(l.ring, a);
    ProducerFrame(l.ring, a);
    LedgerSteps(l.tally, l.how, PhaseOf(l, advanced));
    ArriveLength(l.tally);
  }

  lemma ArriveLength(tally: seq<Tally>)
    ensures |Arrive(tally)| == |tally| + 1
  {
  }

  lemma PeekKeepsLane(l: Lane, a: LaneAction)
    requires LaneInv(l, false) && LaneEnabled(l, a)
    requires a.StartPeek? || a.LoadPeek? || a.CheckIdle? || a.ReadSeq?
    ensures LaneInv(LaneStep(l, a), false)
  {
    hide LaneInv, LaneStep, LaneEnabled;
    match a
    case StartPeek => StartPeekKeeps(l);
    case LoadPeek(seen) => LoadPeekKeeps(l, seen);
    case CheckIdle => CheckIdleKeeps(l);
    case ReadSeq => ReadSeqKeeps(l);
  }

  lemma StartPeekKeeps(l: Lane)
    requires LaneInv(l, false) && LaneEnabled(l, StartPeek)
    ensures LaneInv(LaneStep(l, StartPeek), false)
  {
    hide Inv, LedgerOk;
    StepInv(l.ring, CStart(DoPeek));
  }

  lemma LoadPeekKeeps(l: Lane, seen: nat)
    requires LaneInv(l, false) && LaneEnabled(l, LoadPeek(seen))
    ensures LaneInv(LaneStep(l, LoadPeek(seen)), false)
  {
    hide Inv, LedgerOk;
    StepInv(l.ring, CLoadWrite(seen));
  }

  lemma CheckIdleKeeps(l: Lane)
    requires LaneInv(l, false) && LaneEnabled(l, CheckIdle)
    ensures LaneInv(LaneStep(l, CheckIdle), false)
  {
    hide LedgerOk;
  }

  lemma ReadSeqKeeps(l: Lane)
    requires LaneInv(l, false) && LaneEnabled(l, ReadSeq)
    ensures LaneInv(LaneStep(l, ReadSeq), false)
  {
    StepRefinesFifo(l.ring, CTouch);
    assert Queue(l.ring)[0] == l.ring.pushed[|l.ring.removed|];
    hide LedgerOk, Stored, ProducerOk;
  }

  lemma MonitorKeepsLane(l: Lane, a: LaneAction)
    requires LaneInv(l, false) && LaneEnabled(l, a)
    requires a.StoreStatus? || a.StoreSeq? || a.StoreTime? || a.EndWork?
    ensures LaneInv(LaneStep(l, a), false)
  {
    LedgerSteps(l.tally, l.how, PhaseOf(l, false));
  }

  lemma PopKeepsLane(l: Lane, a: LaneAction)
    requires LaneInv(l, false) && LaneEnabled(l, a)
    requires a.StartPop? || a.LoadPop? || a.TouchPop? || a.StorePop?
    ensures LaneInv(LaneStep(l, a), false)
  {
    hide LaneInv, LaneStep, LaneEnabled;
    match a
    case StartPop => StartPopKeeps(l);
    case LoadPop(seen) => LoadPopKeeps(l, seen);
    case TouchPop => TouchPopKeeps(l);
    case StorePop => StorePopKeeps(l);
  }

  lemma StartPopKeeps(l: Lane)
    requires LaneInv(l, false) && LaneEnabled(l, StartPop)
    ensures LaneInv(LaneStep(l, StartPop), false)
  {
    hide Inv, LedgerOk;
    StepInv(l.ring, CStart(DoPop));
  }

  /** The head seen before cannot have gone: the load finds the queue non-empty. */
  lemma LoadPopKeeps(l: Lane, seen: nat)
    requires LaneInv(l, false) && LaneEnabled(l, LoadPop(seen))
    ensures LaneInv(LaneStep(l, LoadPop(seen)), false)
  {
    WrappedEqual(seen, |l.ring.removed|);
    StepInv(l.ring, CLoadWrite(seen));
    hide LedgerOk, Stored, ProducerOk;
  }

  lemma TouchPopKeeps(l: Lane)
    requires LaneInv(l, false) && LaneEnabled(l, TouchPop)
    ensures LaneInv(LaneStep(l, TouchPop), false)
  {
    hide Inv, LedgerOk;
    StepInv(l.ring, CTouch);
  }

  lemma StorePopKeeps(l: Lane)
    requires LaneInv(l, false) && LaneEnabled(l, StorePop)
    ensures LaneInv(LaneStep(l, StorePop), false)
  {
    hide Inv, LedgerOk;
    StepInv(l.ring, CStoreRead);
    LedgerSteps(l.tally, l.how, PhaseOf(l, false));
  }

  lemma DieKeepsLane(l: Lane)
    requires LaneInv(l, false)
    ensures LaneInv(Die(l), false)
  {
    ConsumerDiesInv(l.ring);
    LedgerSteps(l.tally, l.how, PhaseOf(l, false));
  }

  /** Recovery's unchecked advance: a dead worker left in PROCESSING has a head to skip. */
  lemma SkipKeepsLane(l: Lane)
    requires LaneInv(l, false) && l.pc.Dead? && l.processing
    ensures LaneInv(Skip(l, l.ring.readIdx), true)
    ensures Queue(l.ring) == [l.ring.pushed[|l.ring.removed|]] + Queue(Skip(l, l.ring.readIdx).ring)
  {
    SkipHeadExact(l.ring);
    LedgerSteps(l.tally, l.how, PhaseOf(l, false));
  }

  lemma MarkIdleKeepsLane(l: Lane)
    requires LaneInv(l, true)
    ensures LaneInv(MarkIdle(l), false)
  {
  }

  lemma ReviveKeepsLane(l: Lane)
    requires LaneInv(l, false) && l.pc.Dead? && !l.processing
    ensures LaneInv(Revive(l), false)
  {
  }
}
