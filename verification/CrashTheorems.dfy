/** What the crash-recovery protocol promises in every state some run reaches. */
module CrashTheorems {
  import opened Word64
  import opened RingSteps
  import opened CrashLedger
  import opened CrashRecovery
  import opened CrashSystem
  import Layout = PhoenixShmLayout

  ghost predicate Reaches(s0: System, acts: seq<SysAction>, s: System) {
    Fresh(s0) && SysLegal(s0, acts) && s == SysFinal(s0, acts)
  }

  lemma ReachedInv(s0: System, acts: seq<SysAction>, s: System)
    requires Reaches(s0, acts, s)
    ensures SysInv(s)
  {
    FreshInv(s0);
    RunKeepsSysInv(s0, acts);
  }

  /**
   * No request queue ever underflows or overflows, although recovery advances the read index without
   * a test: the stored indices always describe between 0 and capacity messages.
   */
  lemma IndicesNeverCross(s0: System, acts: seq<SysAction>, s: System, i: nat)
    requires Reaches(s0, acts, s) && i < |s.lanes|
    ensures var ring := s.lanes[i].ring;
            && |Queue(ring)| <= ring.capacity
            && Sub(ring.writeIdx, ring.readIdx) == |Queue(ring)|
            && ring.pushed == ring.removed + Queue(ring)
  {
    ReachedInv(s0, acts, s);
    assert LaneOk(s, i);
    SubOfWrapped(|s.lanes[i].ring.pushed|, |s.lanes[i].ring.removed|);
  }

  /** The request at the head of the queue was begun once more often than it was ended. */
  predicate HeadUnfinished(l: Lane) {
    var head := |l.ring.removed|;
    head < |l.tally| && l.tally[head].begun == l.tally[head].ended + 1
  }

  /** A PROCESSING monitor means the queue's head was begun and not ended, until recovery skips it. */
  lemma ProcessingMeansHeadBegun(s0: System, acts: seq<SysAction>, s: System, i: nat)
    requires Reaches(s0, acts, s) && i < |s.lanes|
    requires s.lanes[i].processing && !Advanced(s, i)
    ensures var l := s.lanes[i];
            && Queue(l.ring) != []
            && HeadUnfinished(l)
            && (l.numbered ==> l.processingSeq == Queue(l.ring)[0].seqId)
  {
    ReachedInv(s0, acts, s);
    assert LaneOk(s, i);
  }

  /**
   * The supervisor's unchecked advance drops exactly the head, and that head is the request whose
   * transaction the crash cut off.
   */
  lemma SkipDropsUnfinishedHead(s0: System, acts: seq<SysAction>, s: System)
    requires Reaches(s0, acts, s) && SysEnabled(s, StoreIndex)
    ensures var i := s.supervisor.next;
            var l, l' := s.lanes[i], SysStep(s, StoreIndex).lanes[i];
            && Queue(l.ring) != [] && Queue(l'.ring) == Queue(l.ring)[1..]
            && HeadUnfinished(l)
  {
    ReachedInv(s0, acts, s);
    assert LaneOk(s, s.supervisor.next);
    SkipKeepsLane(s.lanes[s.supervisor.next]);
  }

  /**
   * Conservation: what was sent to a worker is what left its queue, in order, followed by what is
   * still queued; every removal is recorded once, and outside a recovery the counter of skipped
   * messages is the number of removals by skipping.
   */
  lemma Conservation(s0: System, acts: seq<SysAction>, s: System)
    requires Reaches(s0, acts, s)
    ensures forall i: nat :: i < |s.lanes| ==>
              && s.lanes[i].ring.pushed == s.lanes[i].ring.removed + Queue(s.lanes[i].ring)
              && |s.lanes[i].how| == |s.lanes[i].ring.removed|
    ensures s.poisonPillsSkipped + Unreported(s) == Sum(SkipsPerLane(s))
    ensures s.supervisor.Watching? ==> s.poisonPillsSkipped == Sum(SkipsPerLane(s))
    ensures s.crashesDetected <= s.deaths <= s.crashesDetected + 1
  {
    ReachedInv(s0, acts, s);
    forall i: nat | i < |s.lanes|
      ensures s.lanes[i].ring.pushed == s.lanes[i].ring.removed + Queue(s.lanes[i].ring)
      ensures |s.lanes[i].how| == |s.lanes[i].ring.removed|
    {
      assert LaneOk(s, i);
    }
  }

  /**
   * Exactly how often a request that left the queue was begun and ended: once, and once more for
   * each crash that fell between its end and its pop; a skipped one has its last transaction open.
   */
  lemma RemovedExactly(s0: System, acts: seq<SysAction>, s: System, i: nat, k: nat)
    requires Reaches(s0, acts, s) && i < |s.lanes| && k < |s.lanes[i].how|
    ensures var l := s.lanes[i];
            && k < |l.tally|
            && l.tally[k].begun == 1 + l.tally[k].lostPops
            && l.tally[k].ended == (if l.how[k].Skipped? then 0 else 1) + l.tally[k].lostPops
            && l.tally[k].lostPops <= s.deaths
  {
    ReachedInv(s0, acts, s);
    assert LaneOk(s, i);
    assert Settled(s.lanes[i].tally[k], s.lanes[i].how[k]);
    LostAtMost(s.lanes[i].tally, k);
  }

  /**
   * A request still queued is ended at most once more than crashes hit it between end and pop; all
   * but the head are untouched.  Over the whole queue of one worker those crashes number at most the
   * deaths of the child, so completions beyond the first do too.
   */
  lemma QueuedExactly(s0: System, acts: seq<SysAction>, s: System, i: nat, k: nat)
    requires Reaches(s0, acts, s) && i < |s.lanes| && |s.lanes[i].how| <= k < |s.lanes[i].tally|
    ensures var l := s.lanes[i];
            && (k > |l.how| ==> l.tally[k].begun == l.tally[k].ended == l.tally[k].lostPops == 0)
            && (k == |l.how| ==>
                  if l.processing && !Advanced(s, i) then l.tally[k].begun == l.tally[k].ended + 1 && l.tally[k].ended == l.tally[k].lostPops
                  else if l.pc.Ended? || l.pc.Popping? then l.tally[k].begun == l.tally[k].ended == l.tally[k].lostPops + 1
                  else l.tally[k].begun == l.tally[k].ended == l.tally[k].lostPops)
            && l.tally[k].ended <= 1 + l.tally[k].lostPops
            && LostCount(l.tally) <= s.deaths
  {
    ReachedInv(s0, acts, s);
    assert LaneOk(s, i);
  }

  /** When the child is dead and recovery has not begun, the layout's recovery meets its condition. */
  lemma HeadsPresentAtRecovery(s0: System, acts: seq<SysAction>, s: System, qs: Layout.Queues)
    requires Reaches(s0, acts, s) && s.supervisor.Watching? && |s.lanes| == Layout.WORKERS
    requires forall w :: 0 <= w < Layout.WORKERS ==> qs[2 * w] == Queue(s.lanes[w].ring)
    ensures Layout.HeadsPresent(qs, seq(Layout.WORKERS, w requires 0 <= w < Layout.WORKERS => s.lanes[w].processing))
  {
    ReachedInv(s0, acts, s);
    forall w: nat | w < Layout.WORKERS && s.lanes[w].processing ensures Queue(s.lanes[w].ring) != [] {
      assert LaneOk(s, w);
    }
  }
}
