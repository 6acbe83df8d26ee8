/** Nothing in the protocol waits for ever, and a recovery that nothing disturbs runs to its end. */
module CrashProgress {
  import opened RingSteps
  import opened CrashRecovery
  import opened CrashSystem
  import opened CrashTheorems
  import opened CrashWitnesses

  /** A live worker has a step of its own in every reachable state, and the child may die in each of them. */
  lemma WorkerNeverStuck(s0: System, acts: seq<SysAction>, s: System, i: nat)
    requires Reaches(s0, acts, s) && i < |s.lanes| && s.alive
    ensures exists a: LaneAction :: !a.Produce? && SysEnabled(s, OfLane(i, a))
    ensures SysEnabled(s, ChildDies)
  {
    ReachedInv(s0, acts, s);
    assert LaneOk(s, i);
    hide SysFinal, SysLegal, Fresh;
    var a := WorkersStep(s.lanes[i]);
  }

  lemma WorkersStep(l: Lane) returns (a: LaneAction)
    requires LaneInv(l, false) && !l.pc.Dead?
    ensures !a.Produce? && LaneEnabled(l, a)
  {
    var c := l.ring.consumer;
    a := match l.pc
      case Top => StartPeek
      case Peeking => if c.CLoaded? then LoadPeek(|l.ring.pushed|) else CheckIdle
      case Checked => ReadSeq
      case Beginning(_) => StoreStatus
      case Numbering(_) => StoreSeq
      case Timing => StoreTime(0)
      case Working => EndWork
      case Ended => StartPop
      case Popping => if c.CLoaded? then LoadPop(|l.ring.pushed|) else if c.CSlot? then TouchPop else StorePop
      case Dead => StartPeek;
  }

  /** A worker's loads may be as stale as the ring allows. */
  lemma WorkerLoads(l: Lane, seen: nat)
    requires LaneInv(l, false) && l.ring.consumer.CLoaded? && (l.pc.Peeking? || l.pc.Popping?)
    ensures LaneEnabled(l, if l.pc.Peeking? then LoadPeek(seen) else LoadPop(seen))
       <==> l.ring.seenWrite <= seen <= |l.ring.pushed|
  {
  }

  predicate BySupervisor(a: SysAction) {
    !a.OfLane? && !a.ChildDies?
  }

  /** While the child is dead the supervisor has a step, unless its fork has failed. */
  lemma SupervisorNeverStuck(s0: System, acts: seq<SysAction>, s: System)
    requires Reaches(s0, acts, s) && !s.alive && !s.supervisor.Stopped?
    ensures exists a: SysAction :: BySupervisor(a) && SysEnabled(s, a)
  {
    ReachedInv(s0, acts, s);
    hide SysFinal, SysLegal, Fresh;
    if s.supervisor.Advancing? {
      assert LaneOk(s, s.supervisor.next);
    }
    var a := match s.supervisor
      case Watching => Detect
      case Scanning(next, _) => if next < |s.lanes| then TestMonitor else Report
      case Loading(_, _) => LoadIndex
      case Advancing(_, _, _) => StoreIndex
      case Ending(_, _) => ClearStatus
      case Restarting => Restart
      case Stopped => Restart;
    assert BySupervisor(a) && SysEnabled(s, a);
  }

  // ---- A whole recovery ----

  /** Lanes from `next` on lose the head if they were processing; afterwards every monitor is idle. */
  ghost predicate RecoveredFrom(s: System, next: nat, s': System) {
    && |s'.lanes| == |s.lanes|
    && forall i: nat :: i < |s.lanes| ==>
         && !s'.lanes[i].processing
         && Queue(s'.lanes[i].ring) == LeftOf(s.lanes[i], i >= next)
  }

  function LeftOf(l: Lane, scanned: bool): seq<Messages.MsgHeader> {
    if scanned && l.processing && Queue(l.ring) != [] then Queue(l.ring)[1..] else Queue(l.ring)
  }

  /** The processing monitors from `next` on. */
  function ToSkip(lanes: seq<Lane>, next: nat): nat
    decreases |lanes| - next
  {
    if next >= |lanes| then 0 else (if lanes[next].processing then 1 else 0) + ToSkip(lanes, next + 1)
  }

  ghost predicate AllBySupervisor(acts: seq<SysAction>) {
    forall a :: a in acts ==> BySupervisor(a)
  }

  /** The monitor and queue of lane `next` have been dealt with, the others are as they were. */
  ghost predicate LaneDone(s: System, next: nat, s': System)
    requires next < |s.lanes|
  {
    && |s'.lanes| == |s.lanes| && !s'.lanes[next].processing
    && Queue(s'.lanes[next].ring) == LeftOf(s.lanes[next], true)
    && (forall i: nat :: i < |s.lanes| && i != next ==> s'.lanes[i] == s.lanes[i])
    && s'.alive == s.alive && s'.poisonPillsSkipped == s.poisonPillsSkipped && s'.crashesDetected == s.crashesDetected
  }

  /** The supervisor's turn for one lane. */
  lemma OneLane(s: System) returns (acts: seq<SysAction>, s': System)
    requires SysInv(s) && s.supervisor.Scanning? && s.supervisor.next < |s.lanes|
    ensures Runs(s, acts, s') && AllBySupervisor(acts) && SysInv(s') && LaneDone(s, s.supervisor.next, s')
    ensures s'.supervisor == Scanning(s.supervisor.next + 1,
                                      s.supervisor.skipped + if s.lanes[s.supervisor.next].processing then 1 else 0)
  {
    hide *;
    if s.lanes[s.supervisor.next].processing {
      acts, s' := SkipTurn(s);
    } else {
      acts, s' := IdleTurn(s);
    }
  }

  lemma IdleTurn(s: System) returns (acts: seq<SysAction>, s': System)
    requires SysInv(s) && s.supervisor.Scanning? && s.supervisor.next < |s.lanes| && !s.lanes[s.supervisor.next].processing
    ensures Runs(s, acts, s') && AllBySupervisor(acts) && SysInv(s') && LaneDone(s, s.supervisor.next, s')
    ensures s'.supervisor == Scanning(s.supervisor.next + 1, s.supervisor.skipped)
  {
    hide SysInv, LaneInv, LeftOf;
    acts, s' := [TestMonitor], SysStep(s, TestMonitor);
    SysStepKeepsInv(s, TestMonitor);
    IdleLeavesAll(s.lanes[s.supervisor.next]);
    assert Runs(s', [], s');
    RunStep(s, TestMonitor, [], s');
  }

  lemma SkipTurn(s: System) returns (acts: seq<SysAction>, s': System)
    requires SysInv(s) && s.supervisor.Scanning? && s.supervisor.next < |s.lanes| && s.lanes[s.supervisor.next].processing
    ensures Runs(s, acts, s') && AllBySupervisor(acts) && SysInv(s') && LaneDone(s, s.supervisor.next, s')
    ensures s'.supervisor == Scanning(s.supervisor.next + 1, s.supervisor.skipped + 1)
  {
    hide SysInv, LaneInv, Skip, MarkIdle, LeftOf, SysStep, SysEnabled, Runs;
    ScannedLane(s);
    ProcessingLosesHead(s.lanes[s.supervisor.next]);
    FourEffects(s);
    var s1 := SysStep(s, TestMonitor);
    var s2 := SysStep(s1, LoadIndex);
    var s3 := SysStep(s2, StoreIndex);
    acts, s' := [TestMonitor, LoadIndex, StoreIndex, ClearStatus], SysStep(s3, ClearStatus);
    SysStepKeepsInv(s, TestMonitor);
    SysStepKeepsInv(s1, LoadIndex);
    SysStepKeepsInv(s2, StoreIndex);
    SysStepKeepsInv(s3, ClearStatus);
    FourSteps(s, s1, s2, s3, s');
  }

  lemma ScannedLane(s: System)
    requires SysInv(s) && s.supervisor.Scanning? && s.supervisor.next < |s.lanes| && s.lanes[s.supervisor.next].processing
    ensures var l := s.lanes[s.supervisor.next]; LaneInv(l, false) && l.pc.Dead?
  {
    assert LaneOk(s, s.supervisor.next);
    hide LaneInv;
  }

  lemma IdleLeavesAll(l: Lane)
    requires !l.processing
    ensures LeftOf(l, true) == Queue(l.ring)
  {
  }

  lemma ProcessingLosesHead(l: Lane)
    requires LaneInv(l, false) && l.pc.Dead? && l.processing
    ensures Shaped(l.ring)
    ensures var l' := MarkIdle(Skip(l, l.ring.readIdx)); !l'.processing && Queue(l'.ring) == LeftOf(l, true)
  {
    SkipKeepsLane(l);
  }

  /** Testing, loading, storing and clearing for a processing lane. */
  lemma FourEffects(s: System)
    requires s.supervisor.Scanning? && s.supervisor.next < |s.lanes|
    requires s.lanes[s.supervisor.next].processing && Shaped(s.lanes[s.supervisor.next].ring)
    ensures SysEnabled(s, TestMonitor) && var s1 := SysStep(s, TestMonitor);
            SysEnabled(s1, LoadIndex) && var s2 := SysStep(s1, LoadIndex);
            SysEnabled(s2, StoreIndex) && var s3 := SysStep(s2, StoreIndex);
            var l := s.lanes[s.supervisor.next];
            SysEnabled(s3, ClearStatus)
            && SysStep(s3, ClearStatus) ==
                 s.(lanes := s.lanes[s.supervisor.next := MarkIdle(Skip(l, l.ring.readIdx))],
                    supervisor := Scanning(s.supervisor.next + 1, s.supervisor.skipped + 1))
  {
    hide Skip;
  }

  lemma FourSteps(s: System, s1: System, s2: System, s3: System, s4: System)
    requires SysEnabled(s, TestMonitor) && s1 == SysStep(s, TestMonitor)
    requires SysEnabled(s1, LoadIndex) && s2 == SysStep(s1, LoadIndex)
    requires SysEnabled(s2, StoreIndex) && s3 == SysStep(s2, StoreIndex)
    requires SysEnabled(s3, ClearStatus) && s4 == SysStep(s3, ClearStatus)
    ensures Runs(s, [TestMonitor, LoadIndex, StoreIndex, ClearStatus], s4)
  {
    assert Runs(s4, [], s4);
    hide SysStep, SysEnabled, Runs;
    RunStep(s3, ClearStatus, [], s4);
    RunStep(s2, StoreIndex, [ClearStatus], s4);
    RunStep(s1, LoadIndex, [StoreIndex, ClearStatus], s4);
    RunStep(s, TestMonitor, [LoadIndex, StoreIndex, ClearStatus], s4);
  }

  lemma {:induction false} RecoverFrom(s: System) returns (acts: seq<SysAction>, s': System)
    requires SysInv(s) && s.supervisor.Scanning?
    ensures Runs(s, acts, s') && AllBySupervisor(acts) && RecoveredFrom(s, s.supervisor.next, s')
    ensures s'.alive && s'.supervisor == Watching && s'.crashesDetected == s.crashesDetected
    ensures s'.poisonPillsSkipped == s.poisonPillsSkipped + s.supervisor.skipped + ToSkip(s.lanes, s.supervisor.next)
    decreases |s.lanes| - s.supervisor.next
  {
    var next := s.supervisor.next;
    if next < |s.lanes| {
      var first, s1 := OneLane(s);
      SameToSkip(s.lanes, s1.lanes, next + 1);
      hide SysInv, LaneInv, Runs;
      var rest, s2 := RecoverFrom(s1);
      RunConcat(s, first, s1, rest, s2);
      acts, s' := first + rest, s2;
    } else {
      acts, s' := [Report, Restart], SysStep(SysStep(s, Report), Restart);
      forall i: nat | i < |s.lanes| ensures !s.lanes[i].processing { assert LaneOk(s, i); }
      assert Runs(s', [], s');
      RunStep(SysStep(s, Report), Restart, [], s');
      RunStep(s, Report, [Restart], s');
    }
  }

  lemma {:induction false} SameToSkip(a: seq<Lane>, b: seq<Lane>, next: nat)
    requires |a| == |b| && forall i: nat :: next <= i < |a| ==> a[i] == b[i]
    ensures ToSkip(a, next) == ToSkip(b, next)
    decreases |a| - next
  {
    if next < |a| {
      SameToSkip(a, b, next + 1);
    }
  }

  /**
   * From every reachable state with a dead child and a watching supervisor its own steps lead to a
   * restarted child: exactly the heads of the processing workers are gone, all monitors are idle, one
   * crash more is counted and as many skipped messages as monitors were processing.
   */
  lemma RecoveryCompletes(s0: System, acts0: seq<SysAction>, s: System) returns (acts: seq<SysAction>, s': System)
    requires Reaches(s0, acts0, s) && !s.alive && s.supervisor == Watching
    ensures Runs(s, acts, s') && AllBySupervisor(acts) && RecoveredFrom(s, 0, s')
    ensures s'.alive && s'.supervisor == Watching
    ensures s'.crashesDetected == s.crashesDetected + 1
    ensures s'.poisonPillsSkipped == s.poisonPillsSkipped + ToSkip(s.lanes, 0)
  {
    ReachedInv(s0, acts0, s);
    var s1 := SysStep(s, Detect);
    SysStepKeepsInv(s, Detect);
    hide SysInv, Reaches;
    var rest;
    rest, s' := RecoverFrom(s1);
    acts := [Detect] + rest;
    RunStep(s, Detect, rest, s');
  }
}
