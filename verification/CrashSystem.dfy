/** All workers of the child process together with the supervisor, over whole runs with crashes. */
module CrashSystem {
  import opened Word64
  import opened Messages
  import opened RingSteps
  import opened CrashLedger
  import opened CrashRecovery

  datatype Supervisor =
    | Watching
    | Scanning(next: nat, skipped: nat)            // about to test monitor `next`
    | Loading(next: nat, skipped: nat)             // it was processing: about to load its read index
    | Advancing(next: nat, skipped: nat, r: u64)   // about to store the advanced read index
    | Ending(next: nat, skipped: nat)              // about to clear the status
    | Restarting
    | Stopped                                      // fork failed

  datatype System = System(
    lanes: seq<Lane>,
    supervisor: Supervisor,
    alive: bool,               // the child process
    crashesDetected: nat,
    poisonPillsSkipped: nat,
    deaths: nat)               // history: how often the child died

  datatype SysAction =
    | OfLane(lane: nat, action: LaneAction)
    | ChildDies
    | Detect
    | TestMonitor
    | LoadIndex
    | StoreIndex
    | ClearStatus
    | Report
    | Restart
    | ForkFails

  predicate SysEnabled(s: System, a: SysAction) {
    match a
    case OfLane(i, action) => i < |s.lanes| && LaneEnabled(s.lanes[i], action)
    case ChildDies => s.alive
    case Detect => s.supervisor.Watching? && !s.alive
    case TestMonitor => s.supervisor.Scanning? && s.supervisor.next < |s.lanes|
    case LoadIndex => s.supervisor.Loading? && s.supervisor.next < |s.lanes|
    case StoreIndex =>
      s.supervisor.Advancing? && s.supervisor.next < |s.lanes| && Shaped(s.lanes[s.supervisor.next].ring)
    case ClearStatus => s.supervisor.Ending? && s.supervisor.next < |s.lanes|
    case Report => s.supervisor.Scanning? && s.supervisor.next >= |s.lanes|
    case Restart => s.supervisor.Restarting?
    case ForkFails => s.supervisor.Restarting?
  }

  function SysStep(s: System, a: SysAction): System
    requires SysEnabled(s, a)
  {
    var sup := s.supervisor;
    match a
    case OfLane(i, action) => s.(lanes := s.lanes[i := LaneStep(s.lanes[i], action)])
    case ChildDies =>
      s.(lanes := seq(|s.lanes|, i requires 0 <= i < |s.lanes| => Die(s.lanes[i])), alive := false, deaths := s.deaths + 1)
    case Detect => s.(crashesDetected := s.crashesDetected + 1, supervisor := Scanning(0, 0))
    case TestMonitor =>
      s.(supervisor := if s.lanes[sup.next].processing then Loading(sup.next, sup.skipped)
                       else Scanning(sup.next + 1, sup.skipped))
    case LoadIndex => s.(supervisor := Advancing(sup.next, sup.skipped, s.lanes[sup.next].ring.readIdx))
    case StoreIndex =>
      s.(lanes := s.lanes[sup.next := Skip(s.lanes[sup.next], sup.r)], supervisor := Ending(sup.next, sup.skipped))
    case ClearStatus =>
      s.(lanes := s.lanes[sup.next := MarkIdle(s.lanes[sup.next])], supervisor := Scanning(sup.next + 1, sup.skipped + 1))
    case Report => s.(poisonPillsSkipped := s.poisonPillsSkipped + sup.skipped, supervisor := Restarting)
    case Restart =>
      s.(lanes := seq(|s.lanes|, i requires 0 <= i < |s.lanes| => Revive(s.lanes[i])), alive := true, supervisor := Watching)
    case ForkFails => s.(supervisor := Stopped)
  }

  /** A fresh worker over a ring of the given capacity and arbitrary memory contents. */
  function NewLane(capacity: nat, slots: seq<MsgHeader>): Lane {
    Lane(Start(capacity, slots), Top, false, 0, 0, false, [], [])
  }

  ghost predicate Fresh(s: System) {
    && s.supervisor == Watching && s.alive
    && s.crashesDetected == s.poisonPillsSkipped == s.deaths == 0
    && forall i :: 0 <= i < |s.lanes| ==> FreshLane(s.lanes[i])
  }

  ghost predicate FreshLane(l: Lane) {
    && Shaped(l.ring)
    && l == NewLane(l.ring.capacity, l.ring.slots)
  }

  // ---- The invariant ----

  /** The supervisor has skipped this worker's head and not yet cleared its status. */
  predicate Advanced(s: System, i: nat) {
    s.supervisor.Ending? && s.supervisor.next == i
  }

  /** How many monitors the running recovery has dealt with. */
  function Cleared(s: System): nat {
    match s.supervisor
    case Watching => 0
    case Scanning(next, _) => next
    case Loading(next, _) => next
    case Advancing(next, _, _) => next
    case Ending(next, _) => next
    case Restarting => |s.lanes|
    case Stopped => |s.lanes|
  }

  /** Skips already stored but not yet added to the counter. */
  function Unreported(s: System): nat {
    match s.supervisor
    case Scanning(_, skipped) => skipped
    case Loading(_, skipped) => skipped
    case Advancing(_, skipped, _) => skipped
    case Ending(_, skipped) => skipped + 1
    case _ => 0
  }

  function SkipsPerLane(s: System): (ns: seq<nat>)
    ensures |ns| == |s.lanes|
  {
    seq(|s.lanes|, i requires 0 <= i < |s.lanes| => SkippedCount(s.lanes[i].how))
  }

  ghost predicate SupervisorOk(s: System) {
    && (!s.supervisor.Watching? ==> !s.alive)
    && (s.supervisor.Loading? || s.supervisor.Advancing? || s.supervisor.Ending? ==> s.supervisor.next < |s.lanes|)
    && (s.supervisor.Loading? || s.supervisor.Advancing? ==> s.lanes[s.supervisor.next].processing)
    && (s.supervisor.Advancing? ==> s.supervisor.r == s.lanes[s.supervisor.next].ring.readIdx)
    && (s.supervisor.Scanning? ==> s.supervisor.next <= |s.lanes|)
    && s.deaths == s.crashesDetected + if s.supervisor.Watching? && !s.alive then 1 else 0
  }

  ghost predicate LaneOk(s: System, i: nat)
    requires i < |s.lanes|
  {
    && LaneInv(s.lanes[i], Advanced(s, i))
    && (s.lanes[i].pc.Dead? <==> !s.alive)
    && (i < Cleared(s) ==> !s.lanes[i].processing)
    && LostCount(s.lanes[i].tally) <= s.deaths
  }

  ghost predicate SysInv(s: System) {
    && SupervisorOk(s)
    && (forall i: nat :: i < |s.lanes| ==> LaneOk(s, i))
    && s.poisonPillsSkipped + Unreported(s) == Sum(SkipsPerLane(s))
  }

  lemma {:induction false} SumZero(ns: seq<nat>)
    requires forall i :: 0 <= i < |ns| ==> ns[i] == 0
    ensures Sum(ns) == 0
    decreases |ns|
  {
    if ns != [] {
      SumZero(ns[..|ns| - 1]);
    }
  }

  lemma FreshInv(s: System)
    requires Fresh(s)
    ensures SysInv(s)
  {
    forall i: nat | i < |s.lanes| ensures LaneOk(s, i) && SkippedCount(s.lanes[i].how) == 0 {
      var l := s.lanes[i];
      assert FreshLane(l);
      StartInv(l.ring.capacity, l.ring.slots);
    }
    SumZero(SkipsPerLane(s));
  }

  /** Changing one worker without removing anything by skipping keeps the skip total. */
  lemma SkipsFrame(s: System, s': System)
    requires |s'.lanes| == |s.lanes|
    requires forall i: nat :: i < |s.lanes| ==> SkippedCount(s'.lanes[i].how) == SkippedCount(s.lanes[i].how)
    ensures SkipsPerLane(s') == SkipsPerLane(s)
  {
  }

  lemma PoppedCount(how: seq<Removal>, r: Removal)
    ensures SkippedCount(how + [r]) == SkippedCount(how) + if r.Skipped? then 1 else 0
  {
    assert (how + [r])[..|how|] == how;
  }

  lemma LaneStepKeepsInv(l: Lane, a: LaneAction, advanced: bool)
    requires LaneInv(l, advanced) && LaneEnabled(l, a)
    ensures LaneInv(LaneStep(l, a), advanced)
  {
    hide LaneStep;
    match a
    case Produce(action) => ProduceKeepsLane(l, action, advanced);
    case StartPeek => PeekKeepsLane(l, a);
    case LoadPeek(_) => PeekKeepsLane(l, a);
    case CheckIdle => PeekKeepsLane(l, a);
    case ReadSeq => PeekKeepsLane(l, a);
    case StoreStatus => MonitorKeepsLane(l, a);
    case StoreSeq => MonitorKeepsLane(l, a);
    case StoreTime(_) => MonitorKeepsLane(l, a);
    case EndWork => MonitorKeepsLane(l, a);
    case StartPop => PopKeepsLane(l, a);
    case LoadPop(_) => PopKeepsLane(l, a);
    case TouchPop => PopKeepsLane(l, a);
    case StorePop => PopKeepsLane(l, a);
  }

  /** What a step of one worker cannot change. */
  lemma LaneStepFrame(l: Lane, a: LaneAction)
    requires LaneEnabled(l, a)
    ensures LaneStep(l, a).pc.Dead? <==> l.pc.Dead?
    ensures l.pc.Dead? ==> a.Produce? && LaneStep(l, a).processing == l.processing
    ensures SkippedCount(LaneStep(l, a).how) == SkippedCount(l.how)
    ensures LostCount(LaneStep(l, a).tally) == LostCount(l.tally)
  {
    hide Step, SkippedCount, LostCount;
    LostSteps(l.tally, |l.ring.removed|);
    PoppedCount(l.how, Popped);
  }

  lemma ProducerKeepsReadIndex(s: Ring<MsgHeader>, a: Action<MsgHeader>)
    requires Shaped(s) && Enabled(s, a) && ByProducer(a)
    ensures Step(s, a).ring.readIdx == s.readIdx
  {
  }

  lemma OfLaneKeepsInv(s: System, i: nat, a: LaneAction)
    requires SysInv(s) && SysEnabled(s, OfLane(i, a))
    ensures SysInv(SysStep(s, OfLane(i, a)))
  {
    hide LaneInv, Step;
    var s' := SysStep(s, OfLane(i, a));
    assert LaneOk(s, i);
    LaneStepKeepsInv(s.lanes[i], a, Advanced(s, i));
    LaneStepFrame(s.lanes[i], a);
    if a.Produce? {
      ProducerKeepsReadIndex(s.lanes[i].ring, a.action);
    }
    forall j: nat | j < |s'.lanes| ensures LaneOk(s', j) { assert LaneOk(s, j); }
    SkipsFrame(s, s');
  }

  lemma ChildDiesKeepsInv(s: System)
    requires SysInv(s) && s.alive
    ensures SysInv(SysStep(s, ChildDies))
  {
    hide LaneInv;
    var s' := SysStep(s, ChildDies);
    forall j: nat | j < |s'.lanes| ensures LaneOk(s', j) {
      assert LaneOk(s, j);
      DieKeepsLane(s.lanes[j]);
      LostSteps(s.lanes[j].tally, |s.lanes[j].ring.removed|);
    }
    SkipsFrame(s, s');
  }

  lemma {:induction false} StoreIndexKeepsInv(s: System)
    requires SysInv(s) && SysEnabled(s, StoreIndex)
    ensures SysInv(SysStep(s, StoreIndex))
  {
    hide LaneInv;
    var s' := SysStep(s, StoreIndex);
    var i := s.supervisor.next;
    assert LaneOk(s, i);
    hide Sum, SkipsPerLane, LostCount;
    SkipKeepsLane(s.lanes[i]);
    forall j: nat | j < |s'.lanes| ensures LaneOk(s', j) { assert LaneOk(s, j); }
    OneMoreSkip(s, s', i, s'.lanes[i]);
  }

  lemma {:induction false} OneMoreSkip(s: System, s': System, i: nat, l: Lane)
    requires i < |s.lanes| && s'.lanes == s.lanes[i := l] && l.how == s.lanes[i].how + [Skipped]
    ensures Sum(SkipsPerLane(s')) == Sum(SkipsPerLane(s)) + 1
  {
    hide SkippedCount, Sum, SkipsPerLane;
    PoppedCount(s.lanes[i].how, Skipped);
    SumUpdate(SkipsPerLane(s), i, SkippedCount(l.how));
    UpdatedSkips(s, s', i, l);
  }

  lemma {:induction false} UpdatedSkips(s: System, s': System, i: nat, l: Lane)
    requires i < |s.lanes| && s'.lanes == s.lanes[i := l]
    ensures SkipsPerLane(s)[i] == SkippedCount(s.lanes[i].how)
    ensures SkipsPerLane(s') == SkipsPerLane(s)[i := SkippedCount(l.how)]
  {
    hide SkippedCount;
  }

  lemma SupervisorKeepsInv(s: System, a: SysAction)
    requires SysInv(s) && SysEnabled(s, a)
    requires a.Detect? || a.TestMonitor? || a.LoadIndex? || a.ClearStatus? || a.Report? || a.Restart? || a.ForkFails?
    ensures SysInv(SysStep(s, a))
  {
    hide LaneInv, Sum, SkipsPerLane, LostCount, SkippedCount;
    var s' := SysStep(s, a);
    forall j: nat | j < |s'.lanes| ensures LaneOk(s', j) {
      assert LaneOk(s, j);
      if a.ClearStatus? && j == s.supervisor.next {
        MarkIdleKeepsLane(s.lanes[j]);
      }
      if a.Restart? {
        ReviveKeepsLane(s.lanes[j]);
      }
    }
    SkipsFrame(s, s');
  }

  lemma SysStepKeepsInv(s: System, a: SysAction)
    requires SysInv(s) && SysEnabled(s, a)
    ensures SysInv(SysStep(s, a))
  {
    hide SysInv, SysStep;
    match a
    case OfLane(i, action) => OfLaneKeepsInv(s, i, action);
    case ChildDies => ChildDiesKeepsInv(s);
    case StoreIndex => StoreIndexKeepsInv(s);
    case _ => SupervisorKeepsInv(s, a);
  }

  // ---- Whole runs ----

  ghost predicate SysLegal(s: System, acts: seq<SysAction>)
    decreases |acts|
  {
    acts == [] || (SysEnabled(s, acts[0]) && SysLegal(SysStep(s, acts[0]), acts[1..]))
  }

  ghost function SysFinal(s: System, acts: seq<SysAction>): System
    requires SysLegal(s, acts)
    decreases |acts|
  {
    if acts == [] then s else SysFinal(SysStep(s, acts[0]), acts[1..])
  }

  lemma {:induction false} RunKeepsSysInv(s: System, acts: seq<SysAction>)
    requires SysInv(s) && SysLegal(s, acts)
    ensures SysInv(SysFinal(s, acts))
    decreases |acts|
  {
    hide SysInv, SysStep, SysEnabled;
    if acts != [] {
      SysStepKeepsInv(s, acts[0]);
      RunKeepsSysInv(SysStep(s, acts[0]), acts[1..]);
    }
  }
}
