/**
 * Two runs on which the protocol does less than its documentation says: a PROCESSING monitor whose
 * processing_seq is not that of the request being processed, and a request that is ended twice.
 */
module CrashWitnesses {
  import opened Word64
  import opened Messages
  import opened RingSteps
  import opened CrashLedger
  import opened CrashRecovery
  import opened CrashSystem
  import opened CrashTheorems

  ghost predicate LaneRuns(l: Lane, acts: seq<LaneAction>, l': Lane)
    decreases |acts|
  {
    if acts == [] then l == l' else LaneEnabled(l, acts[0]) && LaneRuns(LaneStep(l, acts[0]), acts[1..], l')
  }

  lemma LaneRunStep(l: Lane, a: LaneAction, acts: seq<LaneAction>, l': Lane)
    requires LaneEnabled(l, a) && LaneRuns(LaneStep(l, a), acts, l')
    ensures LaneRuns(l, [a] + acts, l')
  {
    assert ([a] + acts)[1..] == acts;
  }

  ghost predicate Runs(s: System, acts: seq<SysAction>, s': System) {
    SysLegal(s, acts) && SysFinal(s, acts) == s'
  }

  ghost predicate CanReach(s: System, s': System) {
    exists acts :: Runs(s, acts, s')
  }

  lemma RunStep(s: System, a: SysAction, acts: seq<SysAction>, s': System)
    requires SysEnabled(s, a) && Runs(SysStep(s, a), acts, s')
    ensures Runs(s, [a] + acts, s')
  {
    assert ([a] + acts)[1..] == acts;
  }

  lemma {:induction false} RunConcat(s: System, a: seq<SysAction>, s1: System, b: seq<SysAction>, s2: System)
    requires Runs(s, a, s1) && Runs(s1, b, s2)
    ensures Runs(s, a + b, s2)
    decreases |a|
  {
    hide SysStep, SysEnabled;
    if a == [] {
      assert a + b == b;
    } else {
      RunConcat(SysStep(s, a[0]), a[1..], s1, b, s2);
      assert (a + b)[1..] == a[1..] + b;
    }
  }

  /** A run of the only worker is a run of the system. */
  lemma {:induction false} LiftLane(s: System, acts: seq<LaneAction>, l': Lane)
    requires |s.lanes| == 1 && LaneRuns(s.lanes[0], acts, l')
    ensures CanReach(s, s.(lanes := [l']))
    decreases |acts|
  {
    hide LaneStep, LaneEnabled;
    if acts == [] {
      assert s.(lanes := [l']) == s;
      assert Runs(s, [], s);
    } else {
      var s1 := SysStep(s, OfLane(0, acts[0]));
      assert s1.lanes == [LaneStep(s.lanes[0], acts[0])];
      LiftLane(s1, acts[1..], l');
      var rest :| Runs(s1, rest, s1.(lanes := [l']));
      RunStep(s, OfLane(0, acts[0]), rest, s.(lanes := [l']));
    }
  }

  // ---- The states of one worker over a one-element ring whose slot holds `h` ----

  function HeldRing(h: MsgHeader, seen: nat, known: bool): Ring<MsgHeader> {
    Ring(1, [h], 1, 0, PIdle, CIdle, [h], [], 0, seen, false, known)
  }

  function Waiting(h: MsgHeader, seen: nat, seqId: u64, numbered: bool, t: Tally): Lane {
    Lane(HeldRing(h, seen, false), Top, false, seqId, 0, numbered, [], [t])
  }

  function Peeked(h: MsgHeader, seqId: u64, numbered: bool, t: Tally): Lane {
    Lane(HeldRing(h, 1, true).(consumer := CSlot(DoPeek, 0)), Checked, false, seqId, 0, numbered, [], [t])
  }

  function Begun(h: MsgHeader, seqId: u64, t: Tally): Lane {
    Lane(HeldRing(h, 1, true), Numbering(h.seqId), true, seqId, 0, false, [], [t])
  }

  function Finished(h: MsgHeader, t: Tally): Lane {
    Lane(HeldRing(h, 1, true), Ended, false, h.seqId, 0, true, [], [t])
  }

  function Gone(h: MsgHeader, t: Tally): Lane {
    Lane(Ring(1, [h], 1, 1, PIdle, CIdle, [h], [h], 0, 1, false, false), Top, false, h.seqId, 0, true, [Popped], [t])
  }

  function Send(h: MsgHeader): seq<LaneAction> {
    [Produce(PStart(DoPush(h))), Produce(PLoadRead(0)), Produce(PWriteSlot), Produce(PStoreWrite)]
  }

  const PEEK: seq<LaneAction> := [StartPeek, LoadPeek(1), CheckIdle]
  const BEGIN: seq<LaneAction> := [ReadSeq, StoreStatus]
  const FINISH: seq<LaneAction> := [StoreSeq, StoreTime(0), EndWork]
  const POP: seq<LaneAction> := [StartPop, LoadPop(1), TouchPop, StorePop]
  const CRASH_AND_RECOVER: seq<SysAction> := [ChildDies, Detect, TestMonitor, Report, Restart]

  lemma SendRuns(h: MsgHeader)
    ensures LaneRuns(NewLane(1, [h]),
                     Send(h),
                     Waiting(h, 0, 0, false, NEVER))
  {
    var l0 := NewLane(1, [h]);
    var l1 := LaneStep(l0, Produce(PStart(DoPush(h))));
    var l2 := LaneStep(l1, Produce(PLoadRead(0)));
    var l3 := LaneStep(l2, Produce(PWriteSlot));
    var l4 := LaneStep(l3, Produce(PStoreWrite));
    assert l4 == Waiting(h, 0, 0, false, NEVER);
    hide LaneStep, LaneEnabled;
    LaneRunStep(l3, Produce(PStoreWrite), [], l4);
    LaneRunStep(l2, Produce(PWriteSlot), [Produce(PStoreWrite)], l4);
    LaneRunStep(l1, Produce(PLoadRead(0)), [Produce(PWriteSlot), Produce(PStoreWrite)], l4);
    LaneRunStep(l0, Produce(PStart(DoPush(h))), [Produce(PLoadRead(0)), Produce(PWriteSlot), Produce(PStoreWrite)], l4);
  }

  lemma PeekRuns(h: MsgHeader, seen: nat, seqId: u64, numbered: bool, t: Tally)
    requires seen <= 1
    ensures LaneRuns(Waiting(h, seen, seqId, numbered, t), PEEK, Peeked(h, seqId, numbered, t))
  {
    var l0 := Waiting(h, seen, seqId, numbered, t);
    var l1 := LaneStep(l0, StartPeek);
    var l2 := LaneStep(l1, LoadPeek(1));
    var l3 := LaneStep(l2, CheckIdle);
    LaneRunStep(l2, CheckIdle, [], l3);
    LaneRunStep(l1, LoadPeek(1), [CheckIdle], l3);
    LaneRunStep(l0, StartPeek, [LoadPeek(1), CheckIdle], l3);
  }

  lemma BeginRuns(h: MsgHeader, seqId: u64, numbered: bool, t: Tally)
    ensures LaneRuns(Peeked(h, seqId, numbered, t), BEGIN, Begun(h, seqId, t.(begun := t.begun + 1)))
  {
    var l0 := Peeked(h, seqId, numbered, t);
    var l1 := LaneStep(l0, ReadSeq);
    var l2 := LaneStep(l1, StoreStatus);
    LaneRunStep(l1, StoreStatus, [], l2);
    LaneRunStep(l0, ReadSeq, [StoreStatus], l2);
  }

  lemma FinishRuns(h: MsgHeader, seqId: u64, t: Tally)
    ensures LaneRuns(Begun(h, seqId, t), FINISH, Finished(h, t.(ended := t.ended + 1)))
  {
    var l0 := Begun(h, seqId, t);
    var l1 := LaneStep(l0, StoreSeq);
    var l2 := LaneStep(l1, StoreTime(0));
    var l3 := LaneStep(l2, EndWork);
    LaneRunStep(l2, EndWork, [], l3);
    LaneRunStep(l1, StoreTime(0), [EndWork], l3);
    LaneRunStep(l0, StoreSeq, [StoreTime(0), EndWork], l3);
  }

  lemma PopRuns(h: MsgHeader, t: Tally)
    ensures LaneRuns(Finished(h, t), POP, Gone(h, t))
  {
    var l0 := Finished(h, t);
    var l1 := LaneStep(l0, StartPop);
    var l2 := LaneStep(l1, LoadPop(1));
    var l3 := LaneStep(l2, TouchPop);
    var l4 := LaneStep(l3, StorePop);
    LaneRunStep(l3, StorePop, [], l4);
    LaneRunStep(l2, TouchPop, [StorePop], l4);
    LaneRunStep(l1, LoadPop(1), [TouchPop, StorePop], l4);
    LaneRunStep(l0, StartPop, [LoadPop(1), TouchPop, StorePop], l4);
  }

  function One(l: Lane, deaths: nat): System {
    System([l], Watching, true, deaths, 0, deaths)
  }

  /** A crash after the end of the transaction: recovery finds an idle monitor and skips nothing. */
  lemma CrashAfterEndSteps(h: MsgHeader, t: Tally, deaths: nat)
    ensures var s0 := One(Finished(h, t), deaths);
            SysEnabled(s0, ChildDies) && var s1 := SysStep(s0, ChildDies);
            SysEnabled(s1, Detect) && var s2 := SysStep(s1, Detect);
            SysEnabled(s2, TestMonitor) && var s3 := SysStep(s2, TestMonitor);
            SysEnabled(s3, Report) && var s4 := SysStep(s3, Report);
            SysEnabled(s4, Restart)
            && SysStep(s4, Restart) == One(Waiting(h, 1, h.seqId, true, t.(lostPops := t.lostPops + 1)), deaths + 1)
  {
    var l := Finished(h, t);
    var s4 := SysStep(SysStep(SysStep(SysStep(One(l, deaths), ChildDies), Detect), TestMonitor), Report);
    assert s4.lanes == [Die(l)];
    assert LosePop([t], 0) == [t.(lostPops := t.lostPops + 1)];
    assert SysStep(s4, Restart).lanes == [Revive(Die(l))];
  }

  lemma CrashAfterEndRuns(h: MsgHeader, t: Tally, deaths: nat)
    ensures Runs(One(Finished(h, t), deaths), CRASH_AND_RECOVER,
                 One(Waiting(h, 1, h.seqId, true, t.(lostPops := t.lostPops + 1)), deaths + 1))
  {
    hide SysStep, SysEnabled, Finished, Waiting, One;
    CrashAfterEndSteps(h, t, deaths);
    var s0 := One(Finished(h, t), deaths);
    var s1 := SysStep(s0, ChildDies);
    var s2 := SysStep(s1, Detect);
    var s3 := SysStep(s2, TestMonitor);
    var s4 := SysStep(s3, Report);
    var s5 := SysStep(s4, Restart);
    assert Runs(s5, [], s5);
    hide Runs;
    RunStep(s4, Restart, [], s5);
    RunStep(s3, Report, [Restart], s5);
    RunStep(s2, TestMonitor, [Report, Restart], s5);
    RunStep(s1, Detect, [TestMonitor, Report, Restart], s5);
    RunStep(s0, ChildDies, [Detect, TestMonitor, Report, Restart], s5);
  }

  lemma FreshOne(h: MsgHeader)
    ensures Fresh(One(NewLane(1, [h]), 0))
  {
    assert BitAnd(1, 0) == 0;
    assert FreshLane(NewLane(1, [h]));
  }

  lemma Chain(s: System, l1: Lane, acts: seq<LaneAction>, l2: Lane, deaths: nat)
    requires LaneRuns(l1, acts, l2) && CanReach(s, One(l1, deaths))
    ensures CanReach(s, One(l2, deaths))
  {
    var before :| Runs(s, before, One(l1, deaths));
    LiftLane(One(l1, deaths), acts, l2);
    var more :| Runs(One(l1, deaths), more, One(l1, deaths).(lanes := [l2]));
    RunConcat(s, before, One(l1, deaths), more, One(l2, deaths));
  }

  /** From a waiting request the worker gets to the store of the status. */
  lemma ChainBegin(s: System, h: MsgHeader, seen: nat, seqId: u64, numbered: bool, t: Tally, deaths: nat)
    requires seen <= 1 && CanReach(s, One(Waiting(h, seen, seqId, numbered, t), deaths))
    ensures CanReach(s, One(Begun(h, seqId, t.(begun := t.begun + 1)), deaths))
  {
    hide LaneRuns, Runs;
    PeekRuns(h, seen, seqId, numbered, t);
    Chain(s, Waiting(h, seen, seqId, numbered, t), PEEK, Peeked(h, seqId, numbered, t), deaths);
    BeginRuns(h, seqId, numbered, t);
    Chain(s, Peeked(h, seqId, numbered, t), BEGIN, Begun(h, seqId, t.(begun := t.begun + 1)), deaths);
  }

  lemma ReachesBegun(h: MsgHeader)
    ensures CanReach(One(NewLane(1, [h]), 0), One(Begun(h, 0, Tally(1, 0, 0)), 0))
  {
    var s := One(NewLane(1, [h]), 0);
    assert Runs(s, [], s);
    SendRuns(h);
    hide LaneRuns, Runs;
    Chain(s, NewLane(1, [h]), Send(h), Waiting(h, 0, 0, false, NEVER), 0);
    ChainBegin(s, h, 0, 0, false, NEVER, 0);
  }

  /**
   * PROCESSING alone does not make processing_seq the number of the request being processed: the
   * child may die between the two stores.
   */
  lemma ProcessingSeqMayBeStale(h: MsgHeader)
    requires h.seqId != 0
    ensures exists s0, acts, s :: Reaches(s0, acts, s) && |s.lanes| == 1
              && s.lanes[0].processing && !Advanced(s, 0)
              && Queue(s.lanes[0].ring) == [h] && s.lanes[0].processingSeq != h.seqId
  {
    FreshOne(h);
    ReachesBegun(h);
    var s0, s1 := One(NewLane(1, [h]), 0), One(Begun(h, 0, Tally(1, 0, 0)), 0);
    var acts :| Runs(s0, acts, s1);
    var s := SysStep(s1, ChildDies);
    RunStep(s1, ChildDies, [], s);
    RunConcat(s0, acts, s1, [ChildDies], s);
    assert Reaches(s0, acts + [ChildDies], s);
    assert s.lanes[0] == Die(Begun(h, 0, Tally(1, 0, 0)));
  }

  /** A request whose worker dies between EndTransaction and Pop is processed again to its end. */
  lemma RequestMayEndTwice(h: MsgHeader)
    ensures exists s0, acts, s :: Reaches(s0, acts, s) && |s.lanes| == 1
              && s.lanes[0].ring.removed == [h] && s.lanes[0].how == [Popped]
              && s.lanes[0].tally == [Tally(2, 2, 1)] && s.poisonPillsSkipped == 0
  {
    FreshOne(h);
    ReachesBegun(h);
    hide LaneStep, SysStep, LaneEnabled, SysEnabled, LaneRuns, SysLegal, SysFinal, Fresh;
    var s0 := One(NewLane(1, [h]), 0);
    FinishRuns(h, 0, Tally(1, 0, 0));
    Chain(s0, Begun(h, 0, Tally(1, 0, 0)), FINISH, Finished(h, Tally(1, 1, 0)), 0);
    var acts :| Runs(s0, acts, One(Finished(h, Tally(1, 1, 0)), 0));
    CrashAfterEndRuns(h, Tally(1, 1, 0), 0);
    RunConcat(s0, acts, One(Finished(h, Tally(1, 1, 0)), 0), CRASH_AND_RECOVER,
              One(Waiting(h, 1, h.seqId, true, Tally(1, 1, 1)), 1));
    ChainBegin(s0, h, 1, h.seqId, true, Tally(1, 1, 1), 1);
    FinishRuns(h, h.seqId, Tally(2, 1, 1));
    Chain(s0, Begun(h, h.seqId, Tally(2, 1, 1)), FINISH, Finished(h, Tally(2, 2, 1)), 1);
    PopRuns(h, Tally(2, 2, 1));
    Chain(s0, Finished(h, Tally(2, 2, 1)), POP, Gone(h, Tally(2, 2, 1)), 1);
    var all :| Runs(s0, all, One(Gone(h, Tally(2, 2, 1)), 1));
    assert Reaches(s0, all, One(Gone(h, Tally(2, 2, 1)), 1));
  }
}
