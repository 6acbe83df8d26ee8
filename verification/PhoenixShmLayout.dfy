/** The shared layout: twelve queues on one flat memory, six monitors, dispatch and crash recovery. */
module PhoenixShmLayout {
  import opened Word64
  import opened Messages
  import opened LoadBalance
  import Ring = SpscRingBuffer
  import Monitor = ThreadMonitor

  const NORMAL_WORKERS: nat := 4
  const NORMAL_CAPACITY: nat := 1024
  const VIP_WORKERS: nat := 2
  const VIP_CAPACITY: nat := 256
  const WORKERS: nat := NORMAL_WORKERS + VIP_WORKERS
  const QUEUES: nat := 2 * WORKERS
  const HEADER_SIZE: nat := 16

  // ---- Geometry: queue 2w is the request queue of worker w, queue 2w + 1 its response queue ----

  /** The first cell of queue `q`; the VIP queues keep the normal stride. */
  function QueueStart(q: nat): nat {
    var pair := q / 2;
    var pairStart :=
      if pair < NORMAL_WORKERS then pair * 2 * NORMAL_CAPACITY
      else NORMAL_WORKERS * 2 * NORMAL_CAPACITY + (pair - NORMAL_WORKERS) * 2 * NORMAL_CAPACITY;
    pairStart + q % 2 * NORMAL_CAPACITY
  }

  function QueueCapacity(q: nat): nat {
    if q / 2 < NORMAL_WORKERS then NORMAL_CAPACITY else VIP_CAPACITY
  }

  /** The size the layout asks for after its header, in bytes. */
  function CalculateBufferSize(): nat {
    NORMAL_WORKERS * 2 * NORMAL_CAPACITY * HEADER_SIZE + VIP_WORKERS * 2 * VIP_CAPACITY * HEADER_SIZE
  }

  /** Every queue lies inside a segment with this many cells after the header. */
  ghost predicate QueuesFit(cells: nat) {
    forall q: nat :: q < QUEUES ==> QueueStart(q) + QueueCapacity(q) <= cells
  }

  const CELLS_NEEDED: nat := 8 * 1024 + 3 * 1024 + 256

  /** Where each queue starts and how much it holds, in cells. */
  lemma PlacementIs(q: nat)
    requires q < QUEUES
    ensures QueueStart(q) == 1024 * q && QueueCapacity(q) == if q < 8 then 1024 else 256
  {
  }

  lemma RegionsDisjoint(q1: nat, q2: nat)
    requires q1 < q2 < QUEUES
    ensures QueueStart(q1) + QueueCapacity(q1) <= QueueStart(q2)
  {
    assert QueueStart(q1) == q1 * NORMAL_CAPACITY && QueueStart(q2) == q2 * NORMAL_CAPACITY;
  }

  lemma QueuesFitExactly(cells: nat)
    ensures QueuesFit(cells) <==> cells >= CELLS_NEEDED
  {
    forall q: nat | q < QUEUES ensures QueueStart(q) + QueueCapacity(q) <= CELLS_NEEDED {
      assert QueueStart(q) == q * NORMAL_CAPACITY;
    }
    assert QueueStart(11) + QueueCapacity(11) == CELLS_NEEDED;
  }

  /** The size check is weaker than what the placement needs, by 2304 cells. */
  lemma SizeCheckExact(bufferBytes: nat)
    ensures bufferBytes >= CalculateBufferSize() && !QueuesFit(bufferBytes / HEADER_SIZE)
       <==> 147456 <= bufferBytes < 184320
  {
    QueuesFitExactly(bufferBytes / HEADER_SIZE);
  }

  /**
   * In a segment of exactly the size asked for, which is what the server creates, the last three
   * queues lie partly or wholly outside: VIP worker 0's response queue and both of VIP worker 1.
   */
  lemma OwnSizeTooSmall(q: nat)
    requires q < QUEUES
    ensures QueueStart(q) + QueueCapacity(q) > CalculateBufferSize() / HEADER_SIZE <==> q >= 9
  {
    assert QueueStart(q) == q * NORMAL_CAPACITY;
  }

  lemma CapacitiesPass()
    ensures PassesCapacityAssert(NORMAL_CAPACITY) && PassesCapacityAssert(VIP_CAPACITY)
  {
    assert Pow2(8) == VIP_CAPACITY;
    assert Pow2(10) == NORMAL_CAPACITY by { Pow2Sum(8, 2); }
    CapacityAssertExact(VIP_CAPACITY);
    CapacityAssertExact(NORMAL_CAPACITY);
  }

  // ---- The queues' contents as a value, and what the operations do to it ----

  type Queues = qs: seq<seq<MsgHeader>> | |qs| == QUEUES witness seq(QUEUES, _ => [])

  /** The request-queue sizes of the workers [first, first + count). */
  function Loads(qs: Queues, first: nat, count: nat): (sizes: seq<nat>)
    requires first + count <= WORKERS
    ensures |sizes| == count
  {
    seq(count, i requires 0 <= i < count => |qs[2 * (first + i)]|)
  }

  function FirstOf(priority: Priority): nat {
    if priority.High? then NORMAL_WORKERS else 0
  }

  function CountOf(priority: Priority): nat {
    if priority.High? then VIP_WORKERS else NORMAL_WORKERS
  }

  function CapacityOf(priority: Priority): nat {
    if priority.High? then VIP_CAPACITY else NORMAL_CAPACITY
  }

  /** The worker a message of this priority goes to. */
  function Chosen(qs: Queues, priority: Priority): (w: nat)
    ensures FirstOf(priority) <= w < FirstOf(priority) + CountOf(priority)
  {
    FirstOf(priority) + Best(Loads(qs, FirstOf(priority), CountOf(priority)))
  }

  /** Dispatch as a function of the queues: accepted or not, and the queues after it. */
  function Dispatch(qs: Queues, header: MsgHeader, priority: Priority): (r: (bool, Queues))
  {
    var q := 2 * Chosen(qs, priority);
    if |qs[q]| < CapacityOf(priority) then (true, qs[q := qs[q] + [header]]) else (false, qs)
  }

  /** Where and when a message is appended, in terms of the queue's own capacity. */
  lemma DispatchedWhere(qs: Queues, header: MsgHeader, priority: Priority)
    ensures var q := 2 * Chosen(qs, priority);
            && q < QUEUES && QueueCapacity(q) == CapacityOf(priority)
            && Dispatch(qs, header, priority)
               == if |qs[q]| < QueueCapacity(q) then (true, qs[q := qs[q] + [header]]) else (false, qs)
  {
  }

  /**
   * A message is rejected exactly when every queue of its group is full: the two VIP request queues, 8
   * and 10, for a high one, the four normal ones, 0, 2, 4 and 6, for a low one.
   */
  lemma RejectedIffGroupFull(qs: Queues, header: MsgHeader, priority: Priority)
    ensures priority.High? ==> (!Dispatch(qs, header, priority).0 <==> |qs[8]| >= 256 && |qs[10]| >= 256)
    ensures priority.Low? ==>
              (!Dispatch(qs, header, priority).0 <==>
                 |qs[0]| >= 1024 && |qs[2]| >= 1024 && |qs[4]| >= 1024 && |qs[6]| >= 1024)
    ensures !Dispatch(qs, header, priority).0 <==>
            forall w: nat :: FirstOf(priority) <= w < FirstOf(priority) + CountOf(priority)
                             ==> |qs[2 * w]| >= CapacityOf(priority)
    ensures !Dispatch(qs, header, priority).0 ==> Dispatch(qs, header, priority).1 == qs
  {
    ChosenIsLeastLoaded(qs, priority);
    var w := Chosen(qs, priority);
    assert priority.High? ==> |qs[2 * w]| <= |qs[2 * 4]| && |qs[2 * w]| <= |qs[2 * 5]|;
    assert priority.Low? ==>
      |qs[2 * w]| <= |qs[2 * 0]| && |qs[2 * w]| <= |qs[2 * 1]| && |qs[2 * w]| <= |qs[2 * 2]| && |qs[2 * w]| <= |qs[2 * 3]|;
  }

  /** Worker `w` has a shortest request queue of its group, and every lower-indexed one is longer. */
  ghost predicate LeastLoaded(qs: Queues, priority: Priority, w: nat) {
    var first, end := FirstOf(priority), FirstOf(priority) + CountOf(priority);
    && first <= w < end
    && (forall v: nat :: first <= v < end ==> |qs[2 * w]| <= |qs[2 * v]|)
    && (forall v: nat :: first <= v < w ==> |qs[2 * w]| < |qs[2 * v]|)
  }

  lemma ChosenIsLeastLoaded(qs: Queues, priority: Priority)
    ensures LeastLoaded(qs, priority, Chosen(qs, priority))
  {
    var first, count := FirstOf(priority), CountOf(priority);
    var sizes := Loads(qs, first, count);
    BestExact(sizes, Best(sizes));
    forall v: nat | first <= v < first + count ensures |qs[2 * v]| == sizes[v - first] {}
  }

  /** An accepted message goes to the end of the lowest-index shortest queue; nothing else changes. */
  lemma AcceptedByLeastLoaded(qs: Queues, header: MsgHeader, priority: Priority)
    requires Dispatch(qs, header, priority).0
    ensures exists w: nat :: LeastLoaded(qs, priority, w)
              && Dispatch(qs, header, priority).1 == qs[2 * w := qs[2 * w] + [header]]
  {
    ChosenIsLeastLoaded(qs, priority);
  }

  /** An accepted high message goes to queue 10 when that is shorter than queue 8, and otherwise to 8. */
  lemma HighGoesWhere(qs: Queues, header: MsgHeader)
    requires Dispatch(qs, header, High).0
    ensures var q := if |qs[10]| < |qs[8]| then 10 else 8;
            Dispatch(qs, header, High).1 == qs[q := qs[q] + [header]]
  {
    ChosenIsLeastLoaded(qs, High);
    var w := Chosen(qs, High);
    assert |qs[2 * w]| <= |qs[2 * 4]| && |qs[2 * w]| <= |qs[2 * 5]|;
    assert w == 5 ==> |qs[2 * 5]| < |qs[2 * 4]|;
  }

  /** An accepted low message goes to the first of the queues 0, 2, 4 and 6 that no other one is shorter than. */
  lemma LowGoesWhere(qs: Queues, header: MsgHeader)
    requires Dispatch(qs, header, Low).0
    ensures var (a, b, c, d) := (|qs[0]|, |qs[2]|, |qs[4]|, |qs[6]|);
            var q := if a <= b && a <= c && a <= d then 0
                     else if b <= c && b <= d then 2
                     else if c <= d then 4 else 6;
            Dispatch(qs, header, Low).1 == qs[q := qs[q] + [header]]
  {
    ChosenIsLeastLoaded(qs, Low);
    var w := Chosen(qs, Low);
    assert |qs[2 * w]| <= |qs[2 * 0]| && |qs[2 * w]| <= |qs[2 * 1]| && |qs[2 * w]| <= |qs[2 * 2]| && |qs[2 * w]| <= |qs[2 * 3]|;
    assert w > 0 ==> |qs[2 * w]| < |qs[2 * 0]|;
    assert w > 1 ==> |qs[2 * w]| < |qs[2 * 1]|;
    assert w > 2 ==> |qs[2 * w]| < |qs[2 * 2]|;
  }

  /** The group's loads change as the load-balance model says. */
  lemma DispatchLoads(qs: Queues, header: MsgHeader, priority: Priority)
    ensures Loads(Dispatch(qs, header, priority).1, FirstOf(priority), CountOf(priority))
         == Accept(Loads(qs, FirstOf(priority), CountOf(priority)), CapacityOf(priority))
  {
  }

  /** Dispatching a whole sequence of messages: the answers, in order, and the queues after them. */
  function DispatchAll(qs: Queues, headers: seq<MsgHeader>, priority: Priority): (r: (seq<bool>, Queues))
    ensures |r.0| == |headers|
  {
    if headers == [] then ([], qs)
    else
      var (answers, qs') := DispatchAll(qs, headers[..|headers| - 1], priority);
      var (ok, qs'') := Dispatch(qs', headers[|headers| - 1], priority);
      (answers + [ok], qs'')
  }

  /** The load-balance theorems are about every sequence of dispatches. */
  lemma {:induction false} DispatchAllLoads(qs: Queues, headers: seq<MsgHeader>, priority: Priority)
    ensures Loads(DispatchAll(qs, headers, priority).1, FirstOf(priority), CountOf(priority))
         == AcceptMany(Loads(qs, FirstOf(priority), CountOf(priority)), CapacityOf(priority), |headers|)
    decreases |headers|
  {
    if headers != [] {
      var earlier := headers[..|headers| - 1];
      DispatchAllLoads(qs, earlier, priority);
      DispatchLoads(DispatchAll(qs, earlier, priority).1, headers[|headers| - 1], priority);
    }
  }

  /** From empty queues exactly the first messages up to the group's total capacity are accepted. */
  lemma {:induction false} ExactlyTotalCapacityAccepted(qs: Queues, headers: seq<MsgHeader>, priority: Priority, k: nat)
    requires k < |headers| && forall w: nat :: w < WORKERS ==> qs[2 * w] == []
    ensures DispatchAll(qs, headers, priority).0[k] <==> k < if priority.High? then 512 else 4096
    decreases |headers|
  {
    var first, workers, capacity := FirstOf(priority), CountOf(priority), CapacityOf(priority);
    var earlier := headers[..|headers| - 1];
    assert workers * capacity == if priority.High? then 512 else 4096;
    EmptyLoads(qs, priority);
    hide AcceptMany, Dispatch, Level, Best, Accept, Loads, FirstOf, CapacityOf, CountOf;
    if k < |earlier| {
      ExactlyTotalCapacityAccepted(qs, earlier, priority, k);
    } else {
      var qs' := DispatchAll(qs, earlier, priority).1;
      DispatchAllLoads(qs, earlier, priority);
      DispatchAnswer(qs', headers[k], priority);
      ExactlyCapacityManySucceed(workers, capacity, k);
    }
  }

  lemma LengthFromEmpty(qs: Queues, headers: seq<MsgHeader>, priority: Priority, i: nat, workers: nat)
    requires forall w: nat :: w < WORKERS ==> qs[2 * w] == []
    requires |headers| <= (if priority.High? then 512 else 4096) && i < workers == CountOf(priority)
    ensures |DispatchAll(qs, headers, priority).1[2 * (FirstOf(priority) + i)]| == (|headers| + workers - 1 - i) / workers
  {
    var capacity := CapacityOf(priority);
    assert workers * capacity == if priority.High? then 512 else 4096;
    EmptyLoads(qs, priority);
    var sizes := Loads(DispatchAll(qs, headers, priority).1, FirstOf(priority), workers);
    assert sizes[i] == |DispatchAll(qs, headers, priority).1[2 * (FirstOf(priority) + i)]|;
    hide Dispatch, Level, AcceptMany, Loads, FirstOf, CapacityOf, CountOf, DispatchAll;
    DispatchAllLoads(qs, headers, priority);
    ClosedForm(workers, capacity, |headers|, i);
  }

  /** How a sequence of high messages to empty request queues is spread, while there is room. */
  lemma HighFromEmpty(qs: Queues, headers: seq<MsgHeader>)
    requires (forall w: nat :: w < WORKERS ==> qs[2 * w] == []) && |headers| <= 512
    ensures var qs' := DispatchAll(qs, headers, High).1;
            |qs'[8]| == (|headers| + 1) / 2 && |qs'[10]| == |headers| / 2
  {
    hide DispatchAll;
    LengthFromEmpty(qs, headers, High, 0, 2);
    LengthFromEmpty(qs, headers, High, 1, 2);
  }

  lemma LowFromEmpty(qs: Queues, headers: seq<MsgHeader>)
    requires (forall w: nat :: w < WORKERS ==> qs[2 * w] == []) && |headers| <= 4096
    ensures var (qs', n) := (DispatchAll(qs, headers, Low).1, |headers|);
            |qs'[0]| == (n + 3) / 4 && |qs'[2]| == (n + 2) / 4 && |qs'[4]| == (n + 1) / 4 && |qs'[6]| == n / 4
  {
    hide DispatchAll;
    LengthFromEmpty(qs, headers, Low, 0, 4);
    LengthFromEmpty(qs, headers, Low, 1, 4);
    LengthFromEmpty(qs, headers, Low, 2, 4);
    LengthFromEmpty(qs, headers, Low, 3, 4);
  }

  /** Over any sequence of messages the lengths of a group's queues stay within max(1, initial spread). */
  lemma SpreadStays(qs: Queues, headers: seq<MsgHeader>, priority: Priority, d: nat, v: nat, w: nat)
    requires forall i: nat, j: nat :: InGroup(priority, i) && InGroup(priority, j) ==> |qs[2 * i]| <= |qs[2 * j]| + d
    requires InGroup(priority, v) && InGroup(priority, w)
    ensures var qs' := DispatchAll(qs, headers, priority).1; |qs'[2 * v]| <= |qs'[2 * w]| + if d == 0 then 1 else d
  {
    hide DispatchAll, Dispatch, AcceptMany, SpreadAtMost;
    var first, count := FirstOf(priority), CountOf(priority);
    var sizes := Loads(qs, first, count);
    GroupSpread(qs, priority, d);
    SpreadBound(sizes, CapacityOf(priority), |headers|, d);
    DispatchAllLoads(qs, headers, priority);
    SpreadOfTwo(DispatchAll(qs, headers, priority).1, priority, AtLeastOne(d), v, w);
  }

  lemma GroupSpread(qs: Queues, priority: Priority, d: nat)
    requires forall i: nat, j: nat :: InGroup(priority, i) && InGroup(priority, j) ==> |qs[2 * i]| <= |qs[2 * j]| + d
    ensures SpreadAtMost(Loads(qs, FirstOf(priority), CountOf(priority)), d)
  {
    var first, sizes := FirstOf(priority), Loads(qs, FirstOf(priority), CountOf(priority));
    forall i, j | 0 <= i < |sizes| && 0 <= j < |sizes| ensures sizes[i] <= sizes[j] + d {
      assert InGroup(priority, first + i) && InGroup(priority, first + j);
    }
  }

  lemma SpreadOfTwo(qs: Queues, priority: Priority, d: nat, v: nat, w: nat)
    requires SpreadAtMost(Loads(qs, FirstOf(priority), CountOf(priority)), d) && InGroup(priority, v) && InGroup(priority, w)
    ensures |qs[2 * v]| <= |qs[2 * w]| + d
  {
    var first, sizes := FirstOf(priority), Loads(qs, FirstOf(priority), CountOf(priority));
    assert sizes[v - first] <= sizes[w - first] + d;
  }

  /** Workers 0 to 3 serve low messages, 4 and 5 high ones. */
  predicate InGroup(priority: Priority, w: nat) {
    if priority.High? then 4 <= w < 6 else w < 4
  }

  lemma EmptyLoads(qs: Queues, priority: Priority)
    requires forall w: nat :: w < WORKERS ==> qs[2 * w] == []
    ensures Loads(qs, FirstOf(priority), CountOf(priority)) == Level(CountOf(priority), 0, 0) && CountOf(priority) > 0
  {
  }

  lemma DispatchAnswer(qs: Queues, header: MsgHeader, priority: Priority)
    ensures var sizes := Loads(qs, FirstOf(priority), CountOf(priority));
            Dispatch(qs, header, priority).0 <==> sizes[Best(sizes)] < CapacityOf(priority)
  {
  }

  function CountTrue(flags: seq<bool>): (n: nat)
    ensures n <= |flags|
  {
    if flags == [] then 0
    else CountTrue(flags[..|flags| - 1]) + if flags[|flags| - 1] then 1 else 0
  }

  lemma {:induction false} CountTrueZero(flags: seq<bool>)
    ensures CountTrue(flags) == 0 <==> forall i :: 0 <= i < |flags| ==> !flags[i]
    decreases |flags|
  {
    if flags != [] {
      CountTrueZero(flags[..|flags| - 1]);
    }
  }

  /** What recovery leaves in the queues: the head of each processing worker's request queue is gone. */
  function Recovered(qs: Queues, processing: seq<bool>): (qs': Queues)
    requires |processing| == WORKERS
  {
    seq(QUEUES, q requires 0 <= q < QUEUES =>
      if q % 2 == 0 && processing[q / 2] && qs[q] != [] then qs[q][1..] else qs[q])
  }

  /** The protocol's promise: a processing worker's request queue holds at least its head. */
  ghost predicate HeadsPresent(qs: Queues, processing: seq<bool>) {
    |processing| == WORKERS && forall w :: 0 <= w < WORKERS && processing[w] ==> qs[2 * w] != []
  }

  /** Recovery drops exactly the heads of the processing workers' request queues. */
  lemma RecoveredDropsHeads(qs: Queues, processing: seq<bool>)
    requires HeadsPresent(qs, processing)
    ensures forall q: nat :: q < QUEUES ==>
              qs[q] == (if q % 2 == 0 && processing[q / 2] then [qs[q][0]] else []) + Recovered(qs, processing)[q]
  {
    forall q: nat | q < QUEUES
      ensures qs[q] == (if q % 2 == 0 && processing[q / 2] then [qs[q][0]] else []) + Recovered(qs, processing)[q]
    {
      if q % 2 == 0 && processing[q / 2] {
        assert qs[2 * (q / 2)] != [];
      }
    }
  }

  /** Once every monitor is idle a scan finds nothing and a further recovery changes nothing. */
  lemma RecoveredOnce(qs: Queues)
    ensures var idle := seq(WORKERS, _ => false);
            CountTrue(idle) == 0 && HeadsPresent(qs, idle) && Recovered(qs, idle) == qs
  {
    CountTrueZero(seq(WORKERS, _ => false));
  }

  // ---- The layout object ----

  class PhoenixShmLayout {
    const memory: array<MsgHeader>
    const queues: seq<Ring.SpscRingBuffer<MsgHeader>>
    const monitors: seq<Monitor.ThreadMonitor>

    /** The parts of the object, before or after initialisation, over a segment of any size. */
    ghost predicate Parts() {
      && |queues| == QUEUES && |monitors| == WORKERS
      && (forall q, p :: 0 <= q < p < QUEUES ==> queues[q] != queues[p])
      && (forall v, w :: 0 <= v < w < WORKERS ==> monitors[v] != monitors[w])
      && (forall q :: 0 <= q < QUEUES ==> queues[q].memory == memory && queues[q].capacity == QueueCapacity(q))
    }

    /** The segment is large enough for where the queues are placed. */
    ghost predicate Shaped() {
      Parts() && memory.Length >= CELLS_NEEDED
    }

    ghost predicate QueueValid(q: nat)
      requires q < |queues|
      reads queues[q]
    {
      queues[q].Valid() && queues[q].bufferStart == QueueStart(q)
    }

    ghost predicate Valid()
      reads queues
    {
      Shaped() && forall q: nat :: q < QUEUES ==> QueueValid(q)
    }

    ghost function Held(): (qs: Queues)
      requires Valid()
      reads queues, memory
    {
      seq(QUEUES, q requires 0 <= q < QUEUES && Valid() reads queues, memory =>
        assert QueueValid(q); queues[q].Contents())
    }

    ghost function Processing(): (flags: seq<bool>)
      requires Parts()
      reads monitors
      ensures |flags| == WORKERS
    {
      seq(WORKERS, w requires 0 <= w < WORKERS && Parts() reads monitors => monitors[w].Processing())
    }

    /** An operation that leaves a queue's indices and cells alone leaves its contents alone. */
    twostate lemma QueueFrame(q: nat)
      requires q < |queues| && Shaped() && old(QueueValid(q))
      requires unchanged(queues[q])
      requires forall c :: QueueStart(q) <= c < QueueStart(q) + QueueCapacity(q) ==> memory[c] == old(memory[c])
      ensures QueueValid(q) && queues[q].Contents() == old(queues[q].Contents())
    {
      var ring := queues[q];
      Ring.WindowFrame(old(memory[..]), memory[..], ring.bufferStart, ring.capacity, ring.consumed,
                       ring.written - ring.consumed);
    }

    /** Pushing on one queue appends to it and leaves the other eleven as they were. */
    method PushOn(q: nat, header: MsgHeader) returns (ok: bool)
      requires Valid() && q < QUEUES
      modifies queues[q], memory
      ensures Valid()
      ensures ok <==> |old(Held())[q]| < QueueCapacity(q)
      ensures Held() == if ok then old(Held())[q := old(Held())[q] + [header]] else old(Held())
    {
      assert QueueValid(q);
      ok := queues[q].Push(header);
      forall p: nat | p < QUEUES && p != q
        ensures QueueValid(p) && queues[p].Contents() == old(Held())[p]
      {
        if p < q { RegionsDisjoint(p, q); } else { RegionsDisjoint(q, p); }
        assert old(QueueValid(p));
        QueueFrame(p);
      }
      assert QueueValid(q);
    }

    /** Popping one queue drops its head and leaves the other eleven as they were. */
    method PopOn(q: nat) returns (ok: bool)
      requires Valid() && q < QUEUES
      modifies queues[q]
      ensures Valid()
      ensures ok <==> old(Held())[q] != []
      ensures Held() == if ok then old(Held())[q := old(Held())[q][1..]] else old(Held())
    {
      assert QueueValid(q);
      ok := queues[q].Pop();
      forall p: nat | p < QUEUES && p != q
        ensures QueueValid(p) && queues[p].Contents() == old(Held())[p]
      {
        assert old(QueueValid(p));
        QueueFrame(p);
      }
      assert QueueValid(q);
    }

    method FullOn(q: nat) returns (full: bool)
      requires Valid() && q < QUEUES
      ensures full <==> |Held()[q]| >= QueueCapacity(q)
      ensures |Held()[q]| <= QueueCapacity(q)
    {
      assert QueueValid(q);
      full := queues[q].Full();
    }

    lemma QueueCount()
      requires Valid()
      ensures |queues| == QUEUES
    {
    }

    method EmptyOn(q: nat) returns (empty: bool)
      requires Valid() && q < QUEUES
      ensures empty <==> Held()[q] == []
    {
      assert QueueValid(q);
      empty := queues[q].Empty();
    }

    /** The front message of a queue, or nothing. */
    method PeekOn(q: nat) returns (header: Option<MsgHeader>)
      requires Valid() && q < QUEUES
      ensures header == if Held()[q] == [] then None else Some(Held()[q][0])
    {
      assert QueueValid(q);
      var cell := queues[q].Peek();
      header := if cell.Some? then Some(memory[cell.value]) else None;
    }

    constructor (shmCells: nat)
      ensures Parts() && fresh(memory) && memory.Length == shmCells
      ensures forall q :: 0 <= q < QUEUES ==> fresh(queues[q])
      ensures forall w :: 0 <= w < WORKERS ==> fresh(monitors[w])
    {
      var cells := new MsgHeader[shmCells](_ => MsgHeader(0, 0, 0));
      CapacitiesPass();
      var rings: seq<Ring.SpscRingBuffer<MsgHeader>> := [];
      while |rings| < QUEUES
        invariant |rings| <= QUEUES
        invariant forall q :: 0 <= q < |rings| ==> fresh(rings[q]) && rings[q].memory == cells && rings[q].capacity == QueueCapacity(q)
        invariant forall q, p :: 0 <= q < p < |rings| ==> rings[q] != rings[p]
      {
        var ring := new Ring.SpscRingBuffer<MsgHeader>(QueueCapacity(|rings|), cells);
        rings := rings + [ring];
      }
      var records: seq<Monitor.ThreadMonitor> := [];
      while |records| < WORKERS
        invariant |records| <= WORKERS
        invariant forall w :: 0 <= w < |records| ==> fresh(records[w])
        invariant forall v, w :: 0 <= v < w < |records| ==> records[v] != records[w]
      {
        var record := new Monitor.ThreadMonitor();
        records := records + [record];
      }
      memory, queues, monitors := cells, rings, records;
    }

    /**
     * `bufferBytes` is the size the caller states for the segment after the header.  The queues are
     * usable exactly when the segment has the cells that their placement needs.
     */
    method Initialize(bufferBytes: nat) returns (ok: bool)
      requires Parts()
      modifies queues, monitors
      ensures ok <==> bufferBytes >= CalculateBufferSize()
      ensures ok ==> forall q: nat :: q < QUEUES ==> queues[q].Placed(QueueStart(q))
      ensures ok ==> Processing() == seq(WORKERS, _ => false)
      ensures ok ==> (Valid() <==> memory.Length >= CELLS_NEEDED)
      ensures ok && Valid() ==> Held() == seq(QUEUES, _ => [])
      ensures !ok ==> forall q :: 0 <= q < QUEUES ==> unchanged(queues[q])
      ensures !ok ==> forall w :: 0 <= w < WORKERS ==> unchanged(monitors[w])
    {
      if bufferBytes < CalculateBufferSize() {
        return false;
      }
      hide Valid, Held, Processing;
      InitializeQueues();
      ok := true;
    }

    method InitializeQueues()
      requires Parts()
      modifies queues, monitors
      ensures forall q: nat :: q < QUEUES ==> queues[q].Placed(QueueStart(q))
      ensures Processing() == seq(WORKERS, _ => false)
      ensures Valid() <==> memory.Length >= CELLS_NEEDED
      ensures Valid() ==> Held() == seq(QUEUES, _ => [])
    {
      hide Valid, Held, Processing, Ring.SpscRingBuffer.Placed;
      var normalBuffer := 0;
      var vipBuffer := normalBuffer + NORMAL_WORKERS * 2 * NORMAL_CAPACITY;
      InitializeGroup(0, NORMAL_WORKERS, normalBuffer);
      label NormalDone:
      InitializeGroup(NORMAL_WORKERS, VIP_WORKERS, vipBuffer);
      forall w: nat | w < NORMAL_WORKERS ensures WorkerFresh(w) {
        WorkerFrame@NormalDone(w);
      }
      AllFresh();
    }

    ghost predicate WorkerFresh(w: nat)
      requires Parts() && w < WORKERS
      reads queues[2 * w], queues[2 * w + 1], monitors[w]
    {
      && !monitors[w].Processing()
      && queues[2 * w].Placed(QueueStart(2 * w)) && queues[2 * w + 1].Placed(QueueStart(2 * w + 1))
    }

    twostate lemma WorkerFrame(w: nat)
      requires Parts() && w < WORKERS && old(WorkerFresh(w))
      requires unchanged(queues[2 * w]) && unchanged(queues[2 * w + 1]) && unchanged(monitors[w])
      ensures WorkerFresh(w)
    {
    }

    lemma AllFresh()
      requires Parts() && forall w: nat :: w < WORKERS ==> WorkerFresh(w)
      ensures forall q: nat :: q < QUEUES ==> queues[q].Placed(QueueStart(q))
      ensures Processing() == seq(WORKERS, _ => false)
      ensures Valid() <==> memory.Length >= CELLS_NEEDED
      ensures Valid() ==> Held() == seq(QUEUES, _ => [])
    {
      hide Ring.SpscRingBuffer.Valid, Ring.SpscRingBuffer.Contents;
      CapacitiesPass();
      forall q: nat | q < QUEUES
        ensures queues[q].Placed(QueueStart(q))
        ensures QueueValid(q) <==> QueueStart(q) + QueueCapacity(q) <= memory.Length
        ensures QueueValid(q) ==> queues[q].Contents() == []
      {
        assert WorkerFresh(q / 2);
        assert q == 2 * (q / 2) || q == 2 * (q / 2) + 1;
        queues[q].PlacedIsEmpty(QueueStart(q));
      }
      QueuesFitExactly(memory.Length);
      forall w: nat | w < WORKERS ensures !monitors[w].Processing() {
        assert WorkerFresh(w);
      }
    }

    /** One of the two initialisation loops: both groups use the normal queue size as their stride. */
    method InitializeGroup(first: nat, count: nat, base: nat)
      requires Parts() && first + count <= WORKERS && base == first * 2 * NORMAL_CAPACITY
      modifies set q | 2 * first <= q < 2 * (first + count) :: queues[q]
      modifies set w | first <= w < first + count :: monitors[w]
      ensures forall w: nat :: first <= w < first + count ==> WorkerFresh(w)
      ensures forall w: nat :: w < WORKERS && !(first <= w < first + count) ==>
                unchanged(queues[2 * w]) && unchanged(queues[2 * w + 1]) && unchanged(monitors[w])
    {
      hide Ring.SpscRingBuffer.Placed;
      var stride := NORMAL_CAPACITY;
      var i := 0;
      while i < count
        invariant i <= count
        invariant forall w: nat :: first <= w < first + i ==> WorkerFresh(w)
      {
        label Before:
        InitializeWorker(first + i, base + i * 2 * stride, stride);
        forall w: nat | first <= w < first + i ensures WorkerFresh(w) {
          WorkerFrame@Before(w);
        }
        i := i + 1;
      }
    }

    method InitializeWorker(w: nat, reqStart: nat, stride: nat)
      requires Parts() && w < WORKERS && stride == NORMAL_CAPACITY && reqStart == QueueStart(2 * w)
      modifies queues[2 * w], queues[2 * w + 1], monitors[w]
      ensures WorkerFresh(w)
    {
      CapacitiesPass();
      monitors[w].Reset();
      var respStart := reqStart + stride;
      var reqOk := queues[2 * w].Initialize(reqStart, stride);
      var respOk := queues[2 * w + 1].Initialize(respStart, stride);
    }

    method FindBestNormalWorker() returns (best: nat)
      requires Valid()
      ensures best < NORMAL_WORKERS && best == Best(Loads(Held(), 0, NORMAL_WORKERS))
    {
      best := FindBestIn(0, NORMAL_WORKERS);
    }

    method FindBestVipWorker() returns (best: nat)
      requires Valid()
      ensures best < VIP_WORKERS && best == Best(Loads(Held(), NORMAL_WORKERS, VIP_WORKERS))
    {
      best := FindBestIn(NORMAL_WORKERS, VIP_WORKERS);
    }

    method AvailableRequests(w: nat) returns (size: nat)
      requires w < WORKERS && 2 * w < |queues| && QueueValid(2 * w)
      ensures size == |queues[2 * w].Contents()|
    {
      size := queues[2 * w].Size();
    }

    /** The selection loop both groups use. */
    method FindBestIn(first: nat, count: nat) returns (bestIndex: nat)
      requires Valid() && count > 0 && first + count <= WORKERS
      ensures bestIndex < count && bestIndex == Best(Loads(Held(), first, count))
    {
      bestIndex := FindLeast(first, count, Loads(Held(), first, count));
    }

    ghost predicate Sized(w: nat, first: nat, sizes: seq<nat>)
      requires |queues| == QUEUES && w < WORKERS && first <= w < first + |sizes|
      reads queues[2 * w], memory
    {
      QueueValid(2 * w) && queues[2 * w].memory == memory && |queues[2 * w].Contents()| == sizes[w - first]
    }

    method FindLeast(first: nat, count: nat, ghost sizes: seq<nat>) returns (bestIndex: nat)
      requires count > 0 && first + count <= WORKERS && |queues| == QUEUES && |sizes| == count
      requires forall w: nat :: first <= w < first + count ==> Sized(w, first, sizes)
      ensures bestIndex < count && bestIndex == Best(sizes)
    {
      hide Ring.SpscRingBuffer.Valid, Ring.SpscRingBuffer.Contents;
      bestIndex := 0;
      assert Sized(first, first, sizes);
      var minSize := AvailableRequests(first);
      var i := 1;
      while i < count
        invariant 1 <= i <= count && bestIndex < i
        invariant bestIndex == Best(sizes[..i]) && minSize == sizes[bestIndex]
      {
        assert sizes[..i + 1][..i] == sizes[..i];
        assert Sized(first + i, first, sizes);
        var size := AvailableRequests(first + i);
        if size < minSize {
          minSize, bestIndex := size, i;
        }
        i := i + 1;
      }
      assert sizes[..count] == sizes;
    }

    /** The number of monitors left in the PROCESSING state. */
    method ScanCrashedWorkers() returns (count: nat)
      requires Shaped()
      ensures count == CountTrue(Processing())
    {
      count := 0;
      ghost var flags := Processing();
      var i := 0;
      while i < NORMAL_WORKERS
        invariant i <= NORMAL_WORKERS && count == CountTrue(flags[..i])
      {
        assert flags[..i + 1][..i] == flags[..i];
        var busy := monitors[i].IsProcessing();
        if busy { count := count + 1; }
        i := i + 1;
      }
      i := 0;
      while i < VIP_WORKERS
        invariant i <= VIP_WORKERS && count == CountTrue(flags[..NORMAL_WORKERS + i])
      {
        assert flags[..NORMAL_WORKERS + i + 1][..NORMAL_WORKERS + i] == flags[..NORMAL_WORKERS + i];
        var busy := monitors[NORMAL_WORKERS + i].IsProcessing();
        if busy { count := count + 1; }
        i := i + 1;
      }
      assert flags[..WORKERS] == flags;
    }

    /** Worker `w` as it was before recovery. */
    ghost predicate Before(w: nat, flags: seq<bool>, qs: Queues)
      requires Shaped() && w < WORKERS == |flags|
      reads queues[2 * w], monitors[w], memory
    {
      monitors[w].Processing() == flags[w] && QueueValid(2 * w) && queues[2 * w].Contents() == qs[2 * w]
    }

    /** Worker `w` as recovery leaves it; skipping in an empty queue would break the queue. */
    ghost predicate After(w: nat, flags: seq<bool>, qs: Queues)
      requires Shaped() && w < WORKERS == |flags|
      reads queues[2 * w], monitors[w], memory
    {
      && !monitors[w].Processing()
      && if flags[w] && qs[2 * w] == [] then !queues[2 * w].Valid()
         else QueueValid(2 * w) && queues[2 * w].Contents() == if flags[w] then qs[2 * w][1..] else qs[2 * w]
    }

    method RecoverWorker(w: nat, ghost flags: seq<bool>, ghost qs: Queues) returns (skipped: bool)
      requires Shaped() && w < WORKERS == |flags| && Before(w, flags, qs)
      modifies queues[2 * w], monitors[w]
      ensures skipped == flags[w] && After(w, flags, qs)
    {
      skipped := monitors[w].IsProcessing();
      if skipped {
        queues[2 * w].ForceAdvanceReadIndex(1);
        monitors[w].EndTransaction();
      }
    }

    /** One of the two recovery loops. */
    method RecoverGroup(first: nat, count: nat, ghost flags: seq<bool>, ghost qs: Queues) returns (skipped: nat)
      requires Shaped() && first + count <= WORKERS == |flags|
      requires forall w: nat :: first <= w < first + count ==> Before(w, flags, qs)
      modifies set w | first <= w < first + count :: queues[2 * w]
      modifies set w | first <= w < first + count :: monitors[w]
      ensures CountTrue(flags[..first]) + skipped == CountTrue(flags[..first + count])
      ensures forall w: nat :: first <= w < first + count ==> After(w, flags, qs)
    {
      hide Ring.SpscRingBuffer.Valid, Ring.SpscRingBuffer.Contents;
      skipped := 0;
      var w := first;
      while w < first + count
        invariant first <= w <= first + count
        invariant CountTrue(flags[..first]) + skipped == CountTrue(flags[..w])
        invariant forall v: nat :: first <= v < w ==> After(v, flags, qs)
        invariant forall v: nat :: w <= v < first + count ==> Before(v, flags, qs)
      {
        assert flags[..w + 1][..w] == flags[..w];
        var one := RecoverWorker(w, flags, qs);
        if one { skipped := skipped + 1; }
        w := w + 1;
      }
    }

    /**
     * Skips the head of every processing worker's request queue and marks the worker idle.  The layout
     * stays sound exactly when each of those queues had a head.
     */
    method RecoverCrashedWorkers() returns (skipped: nat)
      requires Valid()
      modifies queues, monitors
      ensures Shaped()
      ensures skipped == CountTrue(old(Processing()))
      ensures Processing() == seq(WORKERS, _ => false)
      ensures Valid() <==> HeadsPresent(old(Held()), old(Processing()))
      ensures Valid() ==> Held() == Recovered(old(Held()), old(Processing()))
    {
      hide Ring.SpscRingBuffer.Valid, Ring.SpscRingBuffer.Contents;
      ghost var flags, qs := Processing(), Held();
      WorkersBefore(flags, qs);
      hide Valid, Held, Processing, Before, After, CountTrue, ResponsesKept;
      skipped := RecoverBoth(flags, qs);
      AllRecovered(flags, qs);
    }

    lemma WorkersBefore(flags: seq<bool>, qs: Queues)
      requires Valid() && flags == Processing() && qs == Held()
      ensures forall w: nat :: w < WORKERS ==> Before(w, flags, qs) && ResponsesKept(w, qs)
    {
      hide Ring.SpscRingBuffer.Valid, Ring.SpscRingBuffer.Contents;
    }

    /** The two loops in turn. */
    method RecoverBoth(ghost flags: seq<bool>, ghost qs: Queues) returns (skipped: nat)
      requires Shaped() && |flags| == WORKERS
      requires forall w: nat :: w < WORKERS ==> Before(w, flags, qs) && ResponsesKept(w, qs)
      modifies queues, monitors
      ensures skipped == CountTrue(flags)
      ensures forall w: nat :: w < WORKERS ==> After(w, flags, qs) && ResponsesKept(w, qs)
    {
      hide Before, After, CountTrue, ResponsesKept;
      var normal := RecoverGroup(0, NORMAL_WORKERS, flags, qs);
      var vip := RecoverGroup(NORMAL_WORKERS, VIP_WORKERS, flags, qs);
      skipped := normal + vip;
      assert flags[..WORKERS] == flags && flags[..0] == [];
      NoneTrue();
    }

    static lemma NoneTrue()
      ensures CountTrue([]) == 0
    {
    }

    ghost predicate ResponsesKept(w: nat, qs: Queues)
      requires Shaped() && w < WORKERS
      reads queues[2 * w + 1], memory
    {
      QueueValid(2 * w + 1) && queues[2 * w + 1].Contents() == qs[2 * w + 1]
    }

    lemma AllRecovered(flags: seq<bool>, qs: Queues)
      requires Shaped() && |flags| == WORKERS
      requires forall w: nat :: w < WORKERS ==> After(w, flags, qs)
      requires forall w: nat :: w < WORKERS ==> ResponsesKept(w, qs)
      ensures Processing() == seq(WORKERS, _ => false)
      ensures Valid() <==> HeadsPresent(qs, flags)
      ensures Valid() ==> Held() == Recovered(qs, flags)
    {
      hide Ring.SpscRingBuffer.Valid, Ring.SpscRingBuffer.Contents;
      forall w: nat | w < WORKERS ensures !monitors[w].Processing() { assert After(w, flags, qs); }
      if HeadsPresent(qs, flags) {
        forall q: nat | q < QUEUES ensures QueueValid(q) && queues[q].Contents() == Recovered(qs, flags)[q] {
          assert After(q / 2, flags, qs) && ResponsesKept(q / 2, qs);
          assert q == 2 * (q / 2) || q == 2 * (q / 2) + 1;
        }
      } else {
        var w: nat :| w < WORKERS && flags[w] && qs[2 * w] == [];
        assert After(w, flags, qs);
        assert !QueueValid(2 * w);
      }
    }
  }
}
