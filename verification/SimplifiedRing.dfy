/** The ring with a run-time capacity: a slot is the stored index modulo any capacity. */
module SimplifiedRing {
  import opened Word64
  import opened Messages

  datatype Ring = Ring(slots: seq<MsgHeader>, writeIdx: u64, readIdx: u64)

  datatype Op = Push(header: MsgHeader) | Peek | Pop

  datatype Reply = Done(ok: bool) | Front(header: Option<MsgHeader>)

  predicate HasSlots(r: Ring) {
    0 < |r.slots| < TWO64
  }

  predicate Full(r: Ring) {
    Sub(r.writeIdx, r.readIdx) >= |r.slots|
  }

  predicate Empty(r: Ring) {
    r.writeIdx == r.readIdx
  }

  function Slot(r: Ring, index: u64): (i: nat)
    requires HasSlots(r)
    ensures i < |r.slots|
  {
    index % |r.slots|
  }

  function After(r: Ring, op: Op): (r': Ring)
    requires HasSlots(r)
    ensures |r'.slots| == |r.slots|
  {
    match op
    case Push(header) =>
      if Full(r) then r
      else r.(slots := r.slots[Slot(r, r.writeIdx) := header], writeIdx := Add(r.writeIdx, 1))
    case Peek => r
    case Pop => if Empty(r) then r else r.(readIdx := Add(r.readIdx, 1))
  }

  function ReplyTo(r: Ring, op: Op): Reply
    requires HasSlots(r)
  {
    match op
    case Push(_) => Done(!Full(r))
    case Peek => Front(if Empty(r) then None else Some(r.slots[Slot(r, r.readIdx)]))
    case Pop => Done(!Empty(r))
  }

  function Run(r: Ring, ops: seq<Op>): (r': Ring)
    requires HasSlots(r)
    ensures |r'.slots| == |r.slots|
    decreases |ops|
  {
    if ops == [] then r else Run(After(r, ops[0]), ops[1..])
  }

  function Replies(r: Ring, ops: seq<Op>): seq<Reply>
    requires HasSlots(r)
    decreases |ops|
  {
    if ops == [] then [] else [ReplyTo(r, ops[0])] + Replies(After(r, ops[0]), ops[1..])
  }

  // ---- The bounded queue it should be ----

  type Queue = seq<MsgHeader>

  function FifoAfter(capacity: nat, q: Queue, op: Op): Queue {
    match op
    case Push(header) => if |q| < capacity then q + [header] else q
    case Peek => q
    case Pop => if q == [] then q else q[1..]
  }

  function FifoReply(capacity: nat, q: Queue, op: Op): Reply {
    match op
    case Push(_) => Done(|q| < capacity)
    case Peek => Front(if q == [] then None else Some(q[0]))
    case Pop => Done(q != [])
  }

  function FifoRun(capacity: nat, q: Queue, ops: seq<Op>): Queue
    decreases |ops|
  {
    if ops == [] then q else FifoRun(capacity, FifoAfter(capacity, q, ops[0]), ops[1..])
  }

  function FifoReplies(capacity: nat, q: Queue, ops: seq<Op>): seq<Reply>
    decreases |ops|
  {
    if ops == [] then [] else [FifoReply(capacity, q, ops[0])] + FifoReplies(capacity, FifoAfter(capacity, q, ops[0]), ops[1..])
  }

  /** How many of the pushes are accepted. */
  function Accepted(capacity: nat, q: Queue, ops: seq<Op>): nat
    decreases |ops|
  {
    if ops == [] then 0
    else (if ops[0].Push? && |q| < capacity then 1 else 0) + Accepted(capacity, FifoAfter(capacity, q, ops[0]), ops[1..])
  }

  // ---- What holds after `w` accepted pushes and `c` accepted pops ----

  predicate Divides(capacity: nat)
    requires capacity > 0
  {
    TWO64 % capacity == 0
  }

  ghost predicate Holds(r: Ring, q: Queue, w: nat, c: nat) {
    && HasSlots(r)
    && c <= w <= c + |r.slots| && |q| == w - c
    && r.writeIdx == Wrap(w) && r.readIdx == Wrap(c)
    && (forall k :: 0 <= k < |q| ==> q[k] == r.slots[Slot(r, Wrap(c + k))])
  }

  /** No stored index so far has a slot other than its count's. */
  predicate Safe(capacity: nat, w: nat)
    requires capacity > 0
  {
    w <= TWO64 || Divides(capacity)
  }

  lemma StoredSlot(x: nat, capacity: nat)
    requires capacity > 0 && (x < TWO64 || Divides(capacity))
    ensures Wrap(x) % capacity == x % capacity
  {
    if x >= TWO64 {
      assert TWO64 == capacity * (TWO64 / capacity);
      ModOfMod(x, capacity, TWO64 / capacity);
    }
  }

  lemma NewSlotIsFree(capacity: nat, c: nat, k: nat, w: nat)
    requires 0 < capacity && c + k < w < c + capacity && Safe(capacity, w + 1)
    ensures Wrap(c + k) % capacity != Wrap(w) % capacity
  {
    StoredSlot(c + k, capacity);
    StoredSlot(w, capacity);
    SlotsDistinct(c + k, w, capacity);
  }

  /** One operation answers as the queue does and keeps holding it. */
  lemma StepHolds(r: Ring, q: Queue, w: nat, c: nat, op: Op)
    requires Holds(r, q, w, c)
    requires op.Push? && |q| < |r.slots| ==> Safe(|r.slots|, w + 1)
    ensures ReplyTo(r, op) == FifoReply(|r.slots|, q, op)
    ensures Holds(After(r, op), FifoAfter(|r.slots|, q, op),
                  if op.Push? && |q| < |r.slots| then w + 1 else w, if op.Pop? && q != [] then c + 1 else c)
  {
    match op
    case Push(header) =>
      SubOfWrapped(w, c);
      if |q| < |r.slots| { PushHolds(r, q, w, c, header); }
    case Peek =>
      WrappedEqual(w, c);
      hide Wrap, Slot;
      assert q != [] ==> q[0] == r.slots[Slot(r, Wrap(c + 0))];
    case Pop =>
      WrappedEqual(w, c);
      if q != [] { PopHolds(r, q, w, c); }
  }

  lemma PushHolds(r: Ring, q: Queue, w: nat, c: nat, header: MsgHeader)
    requires Holds(r, q, w, c) && |q| < |r.slots| && Safe(|r.slots|, w + 1) && !Full(r)
    ensures Holds(After(r, Push(header)), q + [header], w + 1, c)
  {
    AddOfWrapped(w, 1);
    var r', q' := After(r, Push(header)), q + [header];
    forall k | 0 <= k < |q'| ensures q'[k] == r'.slots[Slot(r', Wrap(c + k))] {
      if k < |q| {
        NewSlotIsFree(|r.slots|, c, k, w);
      }
    }
  }

  lemma PopHolds(r: Ring, q: Queue, w: nat, c: nat)
    requires Holds(r, q, w, c) && q != [] && !Empty(r)
    ensures Holds(After(r, Pop), q[1..], w, c + 1)
  {
    AddOfWrapped(c, 1);
    hide Wrap, Slot;
    forall k | 0 <= k < |q| - 1 ensures q[1..][k] == r.slots[Slot(r, Wrap(c + 1 + k))] {
      assert q[k + 1] == r.slots[Slot(r, Wrap(c + (k + 1)))];
      assert c + (k + 1) == c + 1 + k;
    }
  }

  lemma {:induction false} RunHolds(r: Ring, q: Queue, w: nat, c: nat, ops: seq<Op>) returns (c': nat)
    requires Holds(r, q, w, c) && Safe(|r.slots|, w + Accepted(|r.slots|, q, ops))
    ensures Replies(r, ops) == FifoReplies(|r.slots|, q, ops)
    ensures Holds(Run(r, ops), FifoRun(|r.slots|, q, ops), w + Accepted(|r.slots|, q, ops), c')
    decreases |ops|
  {
    c' := c;
    if ops != [] {
      var op, n := ops[0], |r.slots|;
      StepHolds(r, q, w, c, op);
      c' := RunHolds(After(r, op), FifoAfter(n, q, op), if op.Push? && |q| < n then w + 1 else w,
                     if op.Pop? && q != [] then c + 1 else c, ops[1..]);
    }
  }

  function Fresh(slots: seq<MsgHeader>): Ring {
    Ring(slots, 0, 0)
  }

  /** Every capacity gives a queue for the first 2^64 accepted pushes. */
  lemma FifoUntilWrap(slots: seq<MsgHeader>, ops: seq<Op>)
    requires HasSlots(Fresh(slots)) && Accepted(|slots|, [], ops) <= TWO64
    ensures Replies(Fresh(slots), ops) == FifoReplies(|slots|, [], ops)
  {
    var c := RunHolds(Fresh(slots), [], 0, 0, ops);
  }

  /** The ring answers as a queue in every run, however long. */
  ghost predicate AlwaysFifo(capacity: nat)
    requires 0 < capacity < TWO64
  {
    forall slots: seq<MsgHeader>, ops: seq<Op> | |slots| == capacity ::
      Replies(Fresh(slots), ops) == FifoReplies(capacity, [], ops)
  }

  lemma DivisorIsFifo(capacity: nat)
    requires 0 < capacity < TWO64 && Divides(capacity)
    ensures AlwaysFifo(capacity)
  {
    forall slots: seq<MsgHeader>, ops: seq<Op> | |slots| == capacity
      ensures Replies(Fresh(slots), ops) == FifoReplies(capacity, [], ops)
    {
      var c := RunHolds(Fresh(slots), [], 0, 0, ops);
    }
  }

  // ---- When the capacity does not divide 2^64, the message of count 2^64 lands on an unread one ----

  function Repeat(ops: seq<Op>, n: nat): seq<Op> {
    if n == 0 then [] else ops + Repeat(ops, n - 1)
  }

  function Headers(h: MsgHeader, n: nat): Queue {
    seq(n, _ => h)
  }

  lemma {:induction false} RepliesAppend(r: Ring, a: seq<Op>, b: seq<Op>)
    requires HasSlots(r)
    ensures Replies(r, a + b) == Replies(r, a) + Replies(Run(r, a), b)
    decreases |a|
  {
    if a == [] {
      assert a + b == b;
    } else {
      assert (a + b)[1..] == a[1..] + b;
      RepliesAppend(After(r, a[0]), a[1..], b);
    }
  }

  lemma {:induction false} FifoAppend(capacity: nat, q: Queue, a: seq<Op>, b: seq<Op>)
    ensures FifoReplies(capacity, q, a + b)
         == FifoReplies(capacity, q, a) + FifoReplies(capacity, FifoRun(capacity, q, a), b)
    ensures FifoRun(capacity, q, a + b) == FifoRun(capacity, FifoRun(capacity, q, a), b)
    ensures Accepted(capacity, q, a + b) == Accepted(capacity, q, a) + Accepted(capacity, FifoRun(capacity, q, a), b)
    decreases |a|
  {
    if a == [] {
      assert a + b == b;
    } else {
      assert (a + b)[1..] == a[1..] + b;
      FifoAppend(capacity, FifoAfter(capacity, q, a[0]), a[1..], b);
    }
  }

  lemma {:induction false} PushesFill(capacity: nat, h: MsgHeader, have: nat, n: nat)
    requires have + n <= capacity
    ensures FifoRun(capacity, Headers(h, have), Repeat([Push(h)], n)) == Headers(h, have + n)
    ensures Accepted(capacity, Headers(h, have), Repeat([Push(h)], n)) == n
    decreases n
  {
    if n > 0 {
      var ops := Repeat([Push(h)], n);
      assert ops[0] == Push(h) && ops[1..] == Repeat([Push(h)], n - 1);
      assert Headers(h, have) + [h] == Headers(h, have + 1);
      PushesFill(capacity, h, have + 1, n - 1);
    }
  }

  lemma {:induction false} PushPopsPass(capacity: nat, h: MsgHeader, n: nat)
    requires capacity > 0
    ensures FifoRun(capacity, [], Repeat([Push(h), Pop], n)) == []
    ensures Accepted(capacity, [], Repeat([Push(h), Pop], n)) == n
    decreases n
  {
    if n > 0 {
      var once, rest := [Push(h), Pop], Repeat([Push(h), Pop], n - 1);
      PushPopsPass(capacity, h, n - 1);
      FifoAppend(capacity, [], once, rest);
      assert once[1..] == [Pop] && [Pop][1..] == [];
      assert FifoAfter(capacity, [], Push(h)) == [h];
      assert FifoRun(capacity, [h], [Pop]) == [];
      assert FifoRun(capacity, [], once) == [] && Accepted(capacity, [], once) == 1;
    }
  }

  const OLD: MsgHeader := MsgHeader(1, 0, 0)
  const NEW: MsgHeader := MsgHeader(2, 0, 0)

  /** A run that leaves the unread messages 2^64 - 2^64 % capacity up to 2^64 - 1 in the ring. */
  function ToTheBrink(capacity: nat): seq<Op>
    requires 0 < capacity < TWO64
  {
    var left := TWO64 % capacity;
    Repeat([Push(OLD), Pop], TWO64 - left) + Repeat([Push(OLD)], left)
  }

  lemma NoHeaders(h: MsgHeader)
    ensures Headers(h, 0) == []
  {
  }

  lemma StartHolds(slots: seq<MsgHeader>)
    requires HasSlots(Fresh(slots))
    ensures Holds(Fresh(slots), [], 0, 0)
  {
  }

  lemma BrinkReached(slots: seq<MsgHeader>) returns (c: nat)
    requires HasSlots(Fresh(slots))
    ensures Holds(Run(Fresh(slots), ToTheBrink(|slots|)), Headers(OLD, TWO64 % |slots|), TWO64, c)
    ensures FifoRun(|slots|, [], ToTheBrink(|slots|)) == Headers(OLD, TWO64 % |slots|)
  {
    hide FifoReplies, Replies, Run, Holds, Headers;
    var capacity := |slots|;
    var left := TWO64 % capacity;
    StartHolds(slots);
    PushPopsPass(capacity, OLD, TWO64 - left);
    FifoAppend(capacity, [], Repeat([Push(OLD), Pop], TWO64 - left), Repeat([Push(OLD)], left));
    NoHeaders(OLD);
    PushesFill(capacity, OLD, 0, left);
    c := RunHolds(Fresh(slots), [], 0, 0, ToTheBrink(capacity));
  }

  /** The oldest unread message and the next one to be pushed share slot 0. */
  lemma SharedSlot(capacity: nat)
    requires 0 < capacity < TWO64
    ensures Wrap(TWO64 - TWO64 % capacity) % capacity == 0 == Wrap(TWO64) % capacity || Divides(capacity)
  {
    var q, left := TWO64 / capacity, TWO64 % capacity;
    assert TWO64 - left == capacity * q;
    DivModUnique(TWO64 - left, capacity, q, 0);
  }

  lemma OtherwiseOverwrites(slots: seq<MsgHeader>)
    requires HasSlots(Fresh(slots)) && !Divides(|slots|)
    ensures var ops := ToTheBrink(|slots|) + [Push(NEW), Peek];
            Replies(Fresh(slots), ops) != FifoReplies(|slots|, [], ops)
  {
    var capacity := |slots|;
    var brink, left := ToTheBrink(capacity), TWO64 % capacity;
    var q := Headers(OLD, left);
    var c := BrinkReached(slots);
    hide ToTheBrink, Repeat, FifoRun, Run, Replies, FifoReplies;
    var r := Run(Fresh(slots), brink);
    assert c == TWO64 - left;
    SubOfWrapped(TWO64, c);
    WrappedEqual(TWO64 + 1, c);
    SharedSlot(capacity);
    AddOfWrapped(TWO64, 1);
    BrinkAnswers(r, q);
    RepliesAppend(Fresh(slots), brink, [Push(NEW), Peek]);
    FifoAppend(capacity, [], brink, [Push(NEW), Peek]);
    var replies, expected := Replies(Fresh(slots), brink), FifoReplies(capacity, [], brink);
    LastDiffers(replies, expected, Replies(r, [Push(NEW), Peek]), FifoReplies(capacity, q, [Push(NEW), Peek]));
  }

  lemma LastDiffers<T>(a: seq<T>, a': seq<T>, b: seq<T>, b': seq<T>)
    requires |b| == |b'| == 2 && b[1] != b'[1]
    ensures a + b != a' + b'
  {
    assert |a| == |a'| ==> (a + b)[|a| + 1] == b[1] && (a' + b')[|a| + 1] == b'[1];
    assert |a| != |a'| ==> |a + b| != |a' + b'|;
  }

  lemma {:induction false} BrinkAnswers(r: Ring, q: Queue)
    requires HasSlots(r) && 0 < |q| < |r.slots| && q[0] == OLD
    requires !Full(r) && Slot(r, r.readIdx) == Slot(r, r.writeIdx) && Add(r.writeIdx, 1) != r.readIdx
    ensures Replies(r, [Push(NEW), Peek]) == [Done(true), Front(Some(NEW))]
    ensures FifoReplies(|r.slots|, q, [Push(NEW), Peek]) == [Done(true), Front(Some(OLD))]
  {
    var r' := After(r, Push(NEW));
    var q' := FifoAfter(|r.slots|, q, Push(NEW));
    hide Add, Sub;
    assert ReplyTo(r', Peek) == Front(Some(NEW));
    assert [Push(NEW), Peek][1..] == [Peek] && [Peek][1..] == [];
    assert Replies(r', [Peek]) == [ReplyTo(r', Peek)];
    assert FifoReplies(|r.slots|, q', [Peek]) == [FifoReply(|r.slots|, q', Peek)];
  }

  /** The ring is a queue in every run exactly when the capacity divides 2^64. */
  lemma AlwaysFifoExactly(capacity: nat)
    requires 0 < capacity < TWO64
    ensures AlwaysFifo(capacity) <==> Divides(capacity)
  {
    if Divides(capacity) {
      DivisorIsFifo(capacity);
    } else {
      OtherwiseOverwrites(Headers(OLD, capacity));
      assert |Headers(OLD, capacity)| == capacity;
    }
  }
}
