/** What a monitor's processing_seq says, over whole runs with crashes. */
module CrashSequence {
  import opened Messages
  import opened RingSteps
  import opened CrashLedger
  import opened CrashRecovery
  import opened CrashSystem
  import opened CrashTheorems

  /**
   * The number was stored for the request now at the head: in the transaction that is open, or in an
   * earlier one that ended.
   */
  predicate Current(l: Lane, advanced: bool) {
    var head := |l.ring.removed|;
    head < |l.tally| && (l.tally[head].ended > 0 || (l.processing && !advanced && l.numbered))
  }

  /** The number is that of a request sent before the one with this count. */
  ghost predicate OfEarlier(l: Lane, head: nat) {
    exists j: nat :: j < head && j < |l.ring.pushed| && l.processingSeq == l.ring.pushed[j].seqId
  }

  ghost predicate SeqOk(l: Lane, advanced: bool) {
    var head := |l.ring.removed|;
    if Current(l, advanced) then head < |l.ring.pushed| && l.processingSeq == l.ring.pushed[head].seqId
    else l.processingSeq == 0 || OfEarlier(l, head)
  }

  lemma ProduceKeepsSeq(l: Lane, a: Action<MsgHeader>, advanced: bool)
    requires LaneInv(l, advanced) && LaneEnabled(l, Produce(a)) && SeqOk(l, advanced)
    ensures SeqOk(LaneStep(l, Produce(a)), advanced)
  {
    ProducerFrame(l.ring, a);
    hide Step, Inv, LedgerOk, ControlOk, MonitorOk, Enabled;
    var l', head := LaneStep(l, Produce(a)), |l.ring.removed|;
    if OfEarlier(l, head) {
      var j: nat :| j < head && j < |l.ring.pushed| && l.processingSeq == l.ring.pushed[j].seqId;
      assert l'.ring.pushed[j] == l.ring.pushed[j];
    }
  }

  /** Once the head leaves the queue its number is an earlier one. */
  lemma HeadLeaves(l: Lane, advanced: bool, l': Lane, advanced': bool)
    requires LaneInv(l, advanced) && SeqOk(l, advanced)
    requires |l.ring.removed| < |l.ring.pushed| && l'.ring.pushed == l.ring.pushed
    requires |l'.ring.removed| == |l.ring.removed| + 1 && l'.tally == l.tally && l'.processingSeq == l.processingSeq
    requires !l'.processing || advanced'
    ensures SeqOk(l', advanced')
  {
    hide Inv, ControlOk, MonitorOk;
    var head := |l.ring.removed|;
    assert head + 1 < |l.tally| ==> l.tally[head + 1] == NEVER;
    assert !Current(l', advanced');
    if OfEarlier(l, head) {
      var j: nat :| j < head && j < |l.ring.pushed| && l.processingSeq == l.ring.pushed[j].seqId;
      assert l'.ring.pushed[j].seqId == l'.processingSeq;
    } else if Current(l, advanced) {
      assert l'.ring.pushed[head].seqId == l'.processingSeq;
    }
  }

  /** Steps that change neither the head nor what is recorded of it. */
  lemma SameHead(l: Lane, advanced: bool, l': Lane, advanced': bool)
    requires SeqOk(l, advanced) && l'.ring.pushed == l.ring.pushed && |l'.ring.removed| == |l.ring.removed|
    requires l'.processingSeq == l.processingSeq && Current(l', advanced') == Current(l, advanced)
    ensures SeqOk(l', advanced')
  {
  }

  /** The steps inside Peek and Pop, but for the last store, touch neither the head nor the monitor. */
  lemma AccessKeepsSeq(l: Lane, a: LaneAction)
    requires LaneInv(l, false) && LaneEnabled(l, a) && SeqOk(l, false)
    requires a.StartPeek? || a.LoadPeek? || a.CheckIdle? || a.ReadSeq? || a.StartPop? || a.LoadPop? || a.TouchPop?
    ensures SeqOk(LaneStep(l, a), false)
  {
    match a
    case StartPeek => ConsumerFrame(l.ring, CStart(DoPeek));
    case LoadPeek(seen) => ConsumerFrame(l.ring, CLoadWrite(seen));
    case CheckIdle =>
    case ReadSeq => ConsumerFrame(l.ring, CTouch);
    case StartPop => ConsumerFrame(l.ring, CStart(DoPop));
    case LoadPop(seen) => ConsumerFrame(l.ring, CLoadWrite(seen));
    case TouchPop => ConsumerFrame(l.ring, CTouch);
    hide Step, Inv, LedgerOk, MonitorOk, ControlOk, Enabled, SeqOk;
    SameHead(l, false, LaneStep(l, a), false);
  }

  lemma MonitorKeepsSeq(l: Lane, a: LaneAction)
    requires LaneInv(l, false) && LaneEnabled(l, a) && SeqOk(l, false)
    requires a.StoreStatus? || a.StoreSeq? || a.StoreTime? || a.EndWork?
    ensures SeqOk(LaneStep(l, a), false)
  {
    hide Inv;
  }

  lemma ConsumeKeepsSeq(l: Lane, a: LaneAction)
    requires LaneInv(l, false) && LaneEnabled(l, a) && !a.Produce? && SeqOk(l, false)
    ensures SeqOk(LaneStep(l, a), false)
  {
    if a.StorePop? {
      ConsumerFrame(l.ring, CStoreRead);
      hide Inv, LedgerOk, SeqOk;
      HeadLeaves(l, false, LaneStep(l, a), false);
    } else if a.StoreStatus? || a.StoreSeq? || a.StoreTime? || a.EndWork? {
      hide LaneInv, LaneEnabled, LaneStep, SeqOk;
      MonitorKeepsSeq(l, a);
    } else {
      hide LaneInv, LaneEnabled, LaneStep, SeqOk;
      AccessKeepsSeq(l, a);
    }
  }

  lemma DieKeepsSeq(l: Lane)
    requires LaneInv(l, false) && SeqOk(l, false)
    ensures SeqOk(Die(l), false)
  {
    SameHead(l, false, Die(l), false);
  }

  lemma SkipKeepsSeq(l: Lane)
    requires LaneInv(l, false) && l.pc.Dead? && l.processing && SeqOk(l, false)
    ensures SeqOk(Skip(l, l.ring.readIdx), true)
  {
    HeadLeaves(l, false, Skip(l, l.ring.readIdx), true);
  }

  lemma MarkIdleKeepsSeq(l: Lane)
    requires SeqOk(l, true)
    ensures SeqOk(MarkIdle(l), false)
  {
    SameHead(l, true, MarkIdle(l), false);
  }

  // ---- The whole system ----

  ghost predicate AllSeqOk(s: System) {
    forall i: nat :: i < |s.lanes| ==> SeqOk(s.lanes[i], Advanced(s, i))
  }

  lemma SysStepKeepsSeq(s: System, a: SysAction)
    requires SysInv(s) && SysEnabled(s, a) && AllSeqOk(s)
    ensures AllSeqOk(SysStep(s, a))
  {
    var s' := SysStep(s, a);
    hide LaneInv, LaneStep, Skip, SeqOk, LaneEnabled, Sum, SkipsPerLane;
    forall i: nat | i < |s'.lanes| ensures SeqOk(s'.lanes[i], Advanced(s', i)) {
      assert LaneOk(s, i);
      OneLaneKeepsSeq(s, a, i);
    }
  }

  lemma OneLaneKeepsSeq(s: System, a: SysAction, i: nat)
    requires SysInv(s) && SysEnabled(s, a) && i < |s.lanes| && LaneOk(s, i) && SeqOk(s.lanes[i], Advanced(s, i))
    ensures i < |SysStep(s, a).lanes| && SeqOk(SysStep(s, a).lanes[i], Advanced(SysStep(s, a), i))
  {
    hide LaneInv, LaneStep, Skip, SeqOk, Current, LaneEnabled, Sum, SkipsPerLane, LostCount;
    var l := s.lanes[i];
    match a
    case OfLane(j, action) =>
      if j == i {
        LaneKeepsSeq(s, i, action);
      }
    case ChildDies => DieKeepsSeq(l);
    case StoreIndex =>
      if i == s.supervisor.next { SkipKeepsSeq(l); }
    case ClearStatus =>
      if i == s.supervisor.next { MarkIdleKeepsSeq(l); }
    case Restart => ReviveKeepsSeq(l);
    case _ =>
  }

  lemma LaneKeepsSeq(s: System, i: nat, action: LaneAction)
    requires i < |s.lanes| && LaneInv(s.lanes[i], Advanced(s, i)) && LaneEnabled(s.lanes[i], action)
    requires SeqOk(s.lanes[i], Advanced(s, i))
    ensures SeqOk(LaneStep(s.lanes[i], action), Advanced(s, i))
  {
    var l := s.lanes[i];
    hide LaneStep, SeqOk, LedgerOk, MonitorOk, Inv, RingSteps.Enabled;
    if action.Produce? {
      ProduceKeepsSeq(l, action.action, Advanced(s, i));
    } else {
      ConsumeKeepsSeq(l, action);
    }
  }

  lemma ReviveKeepsSeq(l: Lane)
    requires SeqOk(l, false)
    ensures SeqOk(Revive(l), false)
  {
    SameHead(l, false, Revive(l), false);
  }

  lemma FreshSeq(s: System)
    requires Fresh(s)
    ensures AllSeqOk(s)
  {
    forall i: nat | i < |s.lanes| ensures SeqOk(s.lanes[i], Advanced(s, i)) {
      assert FreshLane(s.lanes[i]);
    }
  }

  lemma {:induction false} RunKeepsSeq(s: System, acts: seq<SysAction>)
    requires SysInv(s) && AllSeqOk(s) && SysLegal(s, acts)
    ensures AllSeqOk(SysFinal(s, acts))
    decreases |acts|
  {
    hide SysInv, SysStep, SysEnabled, AllSeqOk;
    if acts != [] {
      SysStepKeepsInv(s, acts[0]);
      SysStepKeepsSeq(s, acts[0]);
      RunKeepsSeq(SysStep(s, acts[0]), acts[1..]);
    }
  }

  /** A number was stored for the head: in this transaction, or in one whose pop a crash lost. */
  predicate NumberStored(l: Lane) {
    l.numbered || (|l.ring.removed| < |l.tally| && l.tally[|l.ring.removed|].lostPops > 0)
  }

  /**
   * What a PROCESSING monitor shows: the head's number if one was stored for the head, and otherwise
   * the initial zero or the number of a request that has left the queue.
   */
  lemma ProcessingSeqOrigin(s0: System, acts: seq<SysAction>, s: System, i: nat)
    requires Reaches(s0, acts, s) && i < |s.lanes|
    requires s.lanes[i].processing && !Advanced(s, i)
    ensures var l := s.lanes[i];
            && |l.ring.removed| < |l.ring.pushed|
            && if NumberStored(l) then l.processingSeq == l.ring.pushed[|l.ring.removed|].seqId
               else l.processingSeq == 0 || OfEarlier(l, |l.ring.removed|)
  {
    ReachedInv(s0, acts, s);
    FreshInv(s0);
    FreshSeq(s0);
    RunKeepsSeq(s0, acts);
    hide SysFinal, SysLegal, Fresh;
    assert LaneOk(s, i);
  }

  /** The ids a client sends: none is zero and none is used twice. */
  ghost predicate DistinctIds(pushed: seq<MsgHeader>) {
    && (forall i :: 0 <= i < |pushed| ==> pushed[i].seqId != 0)
    && (forall i, j :: 0 <= i < j < |pushed| ==> pushed[i].seqId != pushed[j].seqId)
  }

  /**
   * With distinct nonzero ids a PROCESSING monitor shows the number of the request being processed
   * exactly when one was stored for it: after the second store of BeginTransaction, or already before
   * it when an earlier transaction of the same request ended and a crash lost its pop.
   */
  lemma ProcessingSeqExactly(s0: System, acts: seq<SysAction>, s: System, i: nat)
    requires Reaches(s0, acts, s) && i < |s.lanes|
    requires s.lanes[i].processing && !Advanced(s, i) && DistinctIds(s.lanes[i].ring.pushed)
    ensures var l := s.lanes[i];
            && Queue(l.ring) != []
            && (l.processingSeq == Queue(l.ring)[0].seqId <==> NumberStored(l))
  {
    ProcessingSeqOrigin(s0, acts, s, i);
  }
}
