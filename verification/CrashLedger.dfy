/**
 * What is recorded about every request of one worker: how often it was begun and ended, how often a
 * crash fell between its end and its pop, and how it left the queue.
 */
module CrashLedger {

  datatype Removal = Popped | Skipped

  datatype Tally = Tally(begun: nat, ended: nat, lostPops: nat)

  /** Where the worker stands with the request at the head of its queue. */
  datatype Phase = Untouched | Open | Closed

  const NEVER: Tally := Tally(0, 0, 0)

  /**
   * A request that has left the queue was begun once, and once more for every crash between its end
   * and its pop; each of those transactions ended, except the last one of a skipped request.
   */
  predicate Settled(t: Tally, how: Removal) {
    && t.begun == 1 + t.lostPops
    && t.begun == t.ended + if how.Skipped? then 1 else 0
  }

  predicate HeadTally(t: Tally, phase: Phase) {
    match phase
    case Untouched => t.begun == t.ended == t.lostPops
    case Open => t.begun == t.ended + 1 && t.ended == t.lostPops
    case Closed => t.begun == t.ended == t.lostPops + 1
  }

  /** The first |how| requests have left the queue; the next one is the head. */
  ghost predicate LedgerOk(tally: seq<Tally>, how: seq<Removal>, phase: Phase) {
    var R := |how|;
    && R <= |tally|
    && (forall i: nat :: i < R ==> Settled(tally[i], how[i]))
    && (R < |tally| ==> HeadTally(tally[R], phase))
    && (forall i: nat :: R < i < |tally| ==> tally[i] == NEVER)
    && (phase != Untouched ==> R < |tally|)
  }

  function Arrive(tally: seq<Tally>): seq<Tally> {
    tally + [NEVER]
  }

  function Begin(tally: seq<Tally>, head: nat): seq<Tally> {
    if head < |tally| then tally[head := tally[head].(begun := tally[head].begun + 1)] else tally
  }

  function End(tally: seq<Tally>, head: nat): seq<Tally> {
    if head < |tally| then tally[head := tally[head].(ended := tally[head].ended + 1)] else tally
  }

  function LosePop(tally: seq<Tally>, head: nat): seq<Tally> {
    if head < |tally| then tally[head := tally[head].(lostPops := tally[head].lostPops + 1)] else tally
  }

  lemma LedgerSteps(tally: seq<Tally>, how: seq<Removal>, phase: Phase)
    requires LedgerOk(tally, how, phase)
    ensures LedgerOk(Arrive(tally), how, phase)
    ensures phase.Untouched? && |how| < |tally| ==> LedgerOk(Begin(tally, |how|), how, Open)
    ensures phase.Open? ==> LedgerOk(End(tally, |how|), how, Closed)
    ensures phase.Open? ==> LedgerOk(tally, how + [Skipped], Untouched)
    ensures phase.Closed? ==> LedgerOk(tally, how + [Popped], Untouched)
    ensures phase.Closed? ==> LedgerOk(LosePop(tally, |how|), how, Untouched)
  {
  }

  // ---- Totals ----

  function Sum(ns: seq<nat>): nat {
    if ns == [] then 0 else Sum(ns[..|ns| - 1]) + ns[|ns| - 1]
  }

  lemma {:induction false} SumUpdate(ns: seq<nat>, i: nat, n: nat)
    requires i < |ns|
    ensures Sum(ns[i := n]) + ns[i] == Sum(ns) + n
    decreases |ns|
  {
    var last := |ns| - 1;
    if i < last {
      SumUpdate(ns[..last], i, n);
      assert ns[i := n][..last] == ns[..last][i := n];
    } else {
      assert ns[i := n][..last] == ns[..last];
    }
  }

  function SkippedCount(how: seq<Removal>): (n: nat)
    ensures n <= |how|
  {
    if how == [] then 0
    else SkippedCount(how[..|how| - 1]) + if how[|how| - 1].Skipped? then 1 else 0
  }

  function LostCount(tally: seq<Tally>): nat {
    if tally == [] then 0 else LostCount(tally[..|tally| - 1]) + tally[|tally| - 1].lostPops
  }

  lemma {:induction false} LostUpdate(tally: seq<Tally>, i: nat, t: Tally)
    requires i < |tally|
    ensures LostCount(tally[i := t]) + tally[i].lostPops == LostCount(tally) + t.lostPops
    decreases |tally|
  {
    var last := |tally| - 1;
    if i < last {
      LostUpdate(tally[..last], i, t);
      assert tally[i := t][..last] == tally[..last][i := t];
    } else {
      assert tally[i := t][..last] == tally[..last];
    }
  }

  lemma {:induction false} LostAtMost(tally: seq<Tally>, i: nat)
    requires i < |tally|
    ensures tally[i].lostPops <= LostCount(tally)
    decreases |tally|
  {
    if i < |tally| - 1 {
      LostAtMost(tally[..|tally| - 1], i);
    }
  }

  lemma LostSteps(tally: seq<Tally>, head: nat)
    ensures LostCount(Arrive(tally)) == LostCount(tally)
    ensures LostCount(Begin(tally, head)) == LostCount(tally)
    ensures LostCount(End(tally, head)) == LostCount(tally)
    ensures LostCount(LosePop(tally, head)) <= LostCount(tally) + 1
  {
    assert Arrive(tally)[..|tally|] == tally;
    if head < |tally| {
      LostUpdate(tally, head, Begin(tally, head)[head]);
      LostUpdate(tally, head, End(tally, head)[head]);
      LostUpdate(tally, head, LosePop(tally, head)[head]);
    }
  }
}
