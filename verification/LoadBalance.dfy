/** Choosing the least-loaded worker of a group, and what repeated dispatching does to the loads. */
module LoadBalance {
  import opened Word64

  /** The choice the selection loop makes among the given queue sizes. */
  function Best(sizes: seq<nat>): (b: nat)
    requires sizes != []
    ensures b < |sizes|
  {
    var n := |sizes| - 1;
    if n == 0 then 0
    else
      var b := Best(sizes[..n]);
      if sizes[n] < sizes[b] then n else b
  }

  ghost predicate LowestLeast(sizes: seq<nat>, b: nat) {
    && b < |sizes|
    && (forall j :: 0 <= j < |sizes| ==> sizes[b] <= sizes[j])
    && (forall j :: 0 <= j < b ==> sizes[b] < sizes[j])
  }

  /** The loop's choice is the lowest index of a smallest queue, and nothing else is. */
  lemma {:induction false} BestExact(sizes: seq<nat>, b: nat)
    requires sizes != []
    ensures b == Best(sizes) <==> LowestLeast(sizes, b)
    decreases |sizes|
  {
    var n := |sizes| - 1;
    if n > 0 {
      BestExact(sizes[..n], Best(sizes[..n]));
    }
    assert LowestLeast(sizes, Best(sizes));
  }

  /** The sizes after one dispatch to a group whose queues hold at most `capacity` messages. */
  function Accept(sizes: seq<nat>, capacity: nat): (sizes': seq<nat>)
    requires sizes != []
    ensures |sizes'| == |sizes|
  {
    var b := Best(sizes);
    if sizes[b] < capacity then sizes[b := sizes[b] + 1] else sizes
  }

  function AcceptMany(sizes: seq<nat>, capacity: nat, n: nat): (sizes': seq<nat>)
    requires sizes != []
    ensures |sizes'| == |sizes|
  {
    if n == 0 then sizes else Accept(AcceptMany(sizes, capacity, n - 1), capacity)
  }

  /** No two queues of the group differ by more than `d` messages. */
  ghost predicate SpreadAtMost(sizes: seq<nat>, d: nat) {
    forall i, j :: 0 <= i < |sizes| && 0 <= j < |sizes| ==> sizes[i] <= sizes[j] + d
  }

  function AtLeastOne(d: nat): nat {
    if d == 0 then 1 else d
  }

  /** Over any number of dispatches with no removals, the spread stays within max(1, initial spread). */
  lemma {:induction false} SpreadBound(sizes: seq<nat>, capacity: nat, n: nat, d: nat)
    requires sizes != [] && SpreadAtMost(sizes, d)
    ensures SpreadAtMost(AcceptMany(sizes, capacity, n), AtLeastOne(d))
    decreases n
  {
    if n > 0 {
      SpreadBound(sizes, capacity, n - 1, d);
      var before := AcceptMany(sizes, capacity, n - 1);
      BestExact(before, Best(before));
    }
  }

  /** `q` messages in every queue, one more in the first `m`. */
  function Level(workers: nat, q: nat, m: nat): (sizes: seq<nat>)
    ensures |sizes| == workers
  {
    seq(workers, i => if i < m then q + 1 else q)
  }

  lemma LevelStep(workers: nat, capacity: nat, q: nat, m: nat)
    requires m < workers && q < capacity
    ensures Accept(Level(workers, q, m), capacity)
         == if m + 1 < workers then Level(workers, q, m + 1) else Level(workers, q + 1, 0)
  {
    BestExact(Level(workers, q, m), m);
  }

  /** The number of messages in `q` full levels. */
  function Levels(workers: nat, q: nat): nat {
    if q == 0 then 0 else Levels(workers, q - 1) + workers
  }

  lemma {:induction false} LevelsIsProduct(workers: nat, q: nat)
    ensures Levels(workers, q) == workers * q
    decreases q
  {
    if q > 0 {
      LevelsIsProduct(workers, q - 1);
      assert workers * q == workers * (q - 1) + workers;
    }
  }

  /** From empty queues, dispatches fill the group level by level, lowest index first. */
  lemma {:induction false} LevelFilling(workers: nat, capacity: nat, q: nat, m: nat)
    requires m < workers && (q < capacity || (q == capacity && m == 0))
    ensures AcceptMany(Level(workers, 0, 0), capacity, Levels(workers, q) + m) == Level(workers, q, m)
    decreases q, m
  {
    hide Level, Accept, Best;
    if m > 0 {
      LevelFilling(workers, capacity, q, m - 1);
      LevelStep(workers, capacity, q, m - 1);
    } else if q > 0 {
      LevelFilling(workers, capacity, q - 1, workers - 1);
      LevelStep(workers, capacity, q - 1, workers - 1);
    }
  }

  lemma ShareOf(n: nat, workers: nat, q: nat, m: nat, i: nat)
    requires i < workers && m < workers && n == workers * q + m
    ensures (n + workers - 1 - i) / workers == if i < m then q + 1 else q
  {
    if i < m {
      assert workers * (q + 1) == workers * q + workers;
      DivModUnique(n + workers - 1 - i, workers, q + 1, m - 1 - i);
    } else {
      DivModUnique(n + workers - 1 - i, workers, q, m + workers - 1 - i);
    }
  }

  /** `n` messages are `q` full levels and `m` more, and the levels fit in the queues. */
  lemma Split(workers: nat, capacity: nat, n: nat) returns (q: nat, m: nat)
    requires workers > 0 && n <= workers * capacity
    ensures m < workers && n == workers * q + m && n == Levels(workers, q) + m
    ensures q < capacity || (q == capacity && m == 0)
    ensures q < capacity <==> n < workers * capacity
  {
    q, m := n / workers, n % workers;
    LevelsIsProduct(workers, q);
    if q > capacity {
      MulGap(workers, capacity, q);
    } else if q < capacity {
      MulGap(workers, q, capacity);
    }
  }

  /** After n accepted dispatches worker i holds (n + N - 1 - i) / N messages. */
  lemma ClosedForm(workers: nat, capacity: nat, n: nat, i: nat)
    requires i < workers && n <= workers * capacity
    ensures AcceptMany(Level(workers, 0, 0), capacity, n)[i] == (n + workers - 1 - i) / workers
  {
    var q, m := Split(workers, capacity, n);
    LevelFilling(workers, capacity, q, m);
    ShareOf(n, workers, q, m, i);
  }

  /** After n dispatches, accepted or not, the next one is accepted exactly when n < workers * capacity. */
  lemma {:induction false} ExactlyCapacityManySucceed(workers: nat, capacity: nat, n: nat)
    requires workers > 0
    ensures var sizes := AcceptMany(Level(workers, 0, 0), capacity, n);
            sizes[Best(sizes)] < capacity <==> n < workers * capacity
    decreases n
  {
    if n <= workers * capacity {
      var q, m := Split(workers, capacity, n);
      LevelFilling(workers, capacity, q, m);
      BestExact(Level(workers, q, m), m);
    } else {
      ExactlyCapacityManySucceed(workers, capacity, n - 1);
    }
  }
}
