/** What the client promises in every state that some run reaches, with fewer than 2^64 calls made. */
module ClientTheorems {
  import opened Word64
  import opened Messages
  import opened ClientSteps
  import Layout = PhoenixShmLayout

  ghost predicate Legal(s: Client, acts: seq<Action>)
    decreases |acts|
  {
    acts == [] || (Enabled(s, acts[0]) && Legal(Step(s, acts[0]), acts[1..]))
  }

  ghost function Final(s: Client, acts: seq<Action>): Client
    requires Legal(s, acts)
    decreases |acts|
  {
    if acts == [] then s else Final(Step(s, acts[0]), acts[1..])
  }

  ghost predicate Reaches(queues: Layout.Queues, acts: seq<Action>, s: Client) {
    NoRequests(queues) && Legal(Start(queues), acts) && s == Final(Start(queues), acts) && |s.calls| < TWO64
  }

  lemma {:induction false} CallsGrow(s: Client, acts: seq<Action>)
    requires Legal(s, acts)
    ensures |Final(s, acts).calls| >= |s.calls|
    decreases |acts|
  {
    if acts != [] {
      CallsGrow(Step(s, acts[0]), acts[1..]);
    }
  }

  lemma {:induction false} RunKeepsInv(s: Client, acts: seq<Action>)
    requires Inv(s) && Legal(s, acts) && |Final(s, acts).calls| < TWO64
    ensures Inv(Final(s, acts))
    decreases |acts|
  {
    hide Inv, Step, Enabled;
    if acts != [] {
      CallsGrow(Step(s, acts[0]), acts[1..]);
      StepKeepsInv(s, acts[0]);
      RunKeepsInv(Step(s, acts[0]), acts[1..]);
    }
  }

  lemma ReachedInv(queues: Layout.Queues, acts: seq<Action>, s: Client)
    requires Reaches(queues, acts, s)
    ensures Inv(s)
  {
    StartInv(queues);
    RunKeepsInv(Start(queues), acts);
  }

  /** No promise is ever set twice, and one that is set carries the id of its own call. */
  lemma PromisesMatch(queues: Layout.Queues, acts: seq<Action>, s: Client, n: nat)
    requires Reaches(queues, acts, s) && n < |s.calls|
    ensures !s.thrown && s.calls[n].header.seqId == n + 1
    ensures s.calls[n].promise.Some? ==> s.calls[n].promise.value.seqId == s.calls[n].header.seqId
  {
    ReachedInv(queues, acts, s);
    assert CallOk(s.calls[n], n, Listed(s, n), Held(s, n), s.drained);
    assert SeqOf(n) == n + 1;
  }

  /** Once set, a promise keeps its value for the rest of the run. */
  lemma {:induction false} PromiseStays(s: Client, acts: seq<Action>, n: nat)
    requires Inv(s) && Legal(s, acts) && |Final(s, acts).calls| < TWO64
    requires n < |s.calls| && s.calls[n].promise.Some?
    ensures n < |Final(s, acts).calls| && Final(s, acts).calls[n].promise == s.calls[n].promise
    decreases |acts|
  {
    hide Inv, Step, Enabled;
    if acts != [] {
      CallsGrow(Step(s, acts[0]), acts[1..]);
      StepKeepsInv(s, acts[0]);
      PromiseIsFinal(s, acts[0], n);
      PromiseStays(Step(s, acts[0]), acts[1..], n);
    }
  }

  /** The first response with call `n`'s id among those drained since its entry was made. */
  function FirstSince(s: Client, n: nat): Option<MsgHeader>
    requires n < |s.calls| && s.calls[n].registered.Some? && s.calls[n].registered.value <= |s.drained|
  {
    FirstWith(s.drained[s.calls[n].registered.value..], s.calls[n].header.seqId)
  }

  /**
   * An entry that has not timed out is pending exactly while no response with its id has been drained
   * since it was made; after that the first such response is in its promise, or in the poller's hand.
   */
  ghost predicate ResolvedByFirst(s: Client, n: nat)
    requires n < |s.calls|
  {
    && s.calls[n].registered.Some? && s.calls[n].registered.value <= |s.drained|
    && (s.calls[n].header.seqId in s.pending <==> FirstSince(s, n).None?)
    && (s.calls[n].header.seqId in s.pending ==> s.calls[n].promise.None?)
    && (FirstSince(s, n).Some? ==> s.calls[n].promise == FirstSince(s, n) || Held(s, n) == FirstSince(s, n))
  }

  lemma RegisteredIsResolved(queues: Layout.Queues, acts: seq<Action>, s: Client, n: nat)
    requires Reaches(queues, acts, s) && n < |s.calls| && s.calls[n].registered.Some? && !s.calls[n].erased
    ensures ResolvedByFirst(s, n)
  {
    ReachedInv(queues, acts, s);
    assert CallOk(s.calls[n], n, Listed(s, n), Held(s, n), s.drained);
    hide FirstWith;
  }

  /** A `CallAsync` whose send succeeded is never lost: it registered first and nothing else erases it. */
  lemma AsyncIsResolved(queues: Layout.Queues, acts: seq<Action>, s: Client, n: nat)
    requires Reaches(queues, acts, s) && n < |s.calls| && !s.calls[n].waits && s.calls[n].sent
    ensures ResolvedByFirst(s, n)
  {
    ReachedInv(queues, acts, s);
    assert CallOk(s.calls[n], n, Listed(s, n), Held(s, n), s.drained);
    RegisteredIsResolved(queues, acts, s, n);
  }

  /** The pending ids are those of calls made, each its own, and below the next id. */
  lemma PendingIsOwn(queues: Layout.Queues, acts: seq<Action>, s: Client, id: u64)
    requires Reaches(queues, acts, s) && id in s.pending && |s.calls| + 1 < TWO64
    ensures s.pending[id] < |s.calls| && s.calls[s.pending[id]].header.seqId == id
    ensures 0 < id < s.nextSeqId
  {
    ReachedInv(queues, acts, s);
    var n := s.pending[id];
    assert CallOk(s.calls[n], n, Listed(s, n), Held(s, n), s.drained);
    IdsDiffer(n, |s.calls|);
  }

  /** Every request queue holds strictly increasing ids, whatever workers have taken from it. */
  lemma RequestsIncrease(queues: Layout.Queues, acts: seq<Action>, s: Client, worker: nat)
    requires Reaches(queues, acts, s) && worker < Layout.WORKERS
    ensures Increasing(s.queues[2 * worker])
    ensures forall i :: 0 <= i < |s.queues[2 * worker]| ==> s.queues[2 * worker][i].seqId <= |s.calls|
  {
    ReachedInv(queues, acts, s);
    assert RequestsOk(s, worker);
  }

  // ---- Every call gets on ----

  /** A call that is neither sent nor refused, or refused and not yet taken back, is the one being sent. */
  ghost predicate Accounted(s: Client) {
    forall n: nat :: n < |s.calls| ==>
      && (!s.calls[n].sent && !s.calls[n].failed ==> s.sender == Some(n))
      && (s.calls[n].failed && !s.calls[n].waits && !s.calls[n].erased ==> s.sender == Some(n))
  }

  lemma StepAccounts(s: Client, a: Action)
    requires Inv(s) && Enabled(s, a) && Accounted(s)
    ensures Accounted(Step(s, a))
  {
    hide FirstWith, CallsOk, PendingOk, PollerOk, RequestsOk;
  }

  lemma {:induction false} RunAccounts(s: Client, acts: seq<Action>)
    requires Inv(s) && Accounted(s) && Legal(s, acts) && |Final(s, acts).calls| < TWO64
    ensures Accounted(Final(s, acts))
    decreases |acts|
  {
    hide Inv, Step, Enabled, Accounted;
    if acts != [] {
      CallsGrow(Step(s, acts[0]), acts[1..]);
      StepKeepsInv(s, acts[0]);
      StepAccounts(s, acts[0]);
      RunAccounts(Step(s, acts[0]), acts[1..]);
    }
  }

  /** The actions of call `n`. */
  predicate OfCall(a: Action, n: nat) {
    match a
    case Register(m) => m == n
    case Send(m, _, _) => m == n
    case Erase(m) => m == n
    case TimeOut(m) => m == n
    case _ => false
  }

  /** Through with everything but waiting: sent and registered, or refused and out of the way. */
  predicate Settled(s: Client, n: nat)
    requires n < |s.calls|
  {
    if s.calls[n].sent then s.calls[n].registered.Some? else s.calls[n].failed && s.sender != Some(n)
  }

  /**
   * In every reachable state each call that is not settled has a step, a waiting one may time out, and
   * when none is being sent a new one may be issued.
   */
  lemma CallsNeverStuck(queues: Layout.Queues, acts: seq<Action>, s: Client, n: nat)
    requires Reaches(queues, acts, s) && n < |s.calls|
    ensures !Settled(s, n) ==> exists a: Action :: OfCall(a, n) && Enabled(s, a)
    ensures s.calls[n].waits && s.calls[n].registered.Some? && !s.calls[n].erased ==> Enabled(s, TimeOut(n))
    ensures s.sender.None? ==> forall waits, funcId, length :: Enabled(s, Issue(waits, funcId, length))
  {
    ReachedInv(queues, acts, s);
    StartInv(queues);
    RunAccounts(Start(queues), acts);
    hide Legal, Final, FirstWith;
    var c := s.calls[n];
    assert CallOk(c, n, Listed(s, n), Held(s, n), s.drained);
    if !Settled(s, n) {
      var a := if c.sent then Register(n) else if c.failed then Erase(n)
               else if !c.waits && c.registered.None? then Register(n) else Send(n, 0, false);
      assert OfCall(a, n) && Enabled(s, a);
    }
  }

  // ---- `Call` registers after sending, and its response may be gone by then ----

  function NoQueues(): (queues: Layout.Queues)
    ensures forall q :: 0 <= q < |queues| ==> queues[q] == []
  {
    seq(Layout.QUEUES, _ => [])
  }

  const ANSWER: MsgHeader := MsgHeader(1, 7, 0)

  function Answered(waits: bool): seq<Action> {
    if waits then [Issue(true, 7, 0), Send(0, 0, true)] else [Issue(false, 7, 0), Register(0), Send(0, 0, true)]
  }

  /** A worker takes the request and answers it; the poller wakes and drains the answer. */
  const ANSWER_DRAINED: seq<Action> := [TakeRequest(0), Respond(0, ANSWER), Poll, Poll, Poll, Poll, Poll]

  ghost predicate Goes(s: Client, acts: seq<Action>, s': Client) {
    Legal(s, acts) && Final(s, acts) == s'
  }

  lemma {:induction false} GoesOn(s: Client, a: seq<Action>, s1: Client, b: seq<Action>, s2: Client)
    requires Goes(s, a, s1) && Goes(s1, b, s2)
    ensures Goes(s, a + b, s2)
    decreases |a|
  {
    if a == [] {
      assert a + b == b;
    } else {
      assert (a + b)[0] == a[0] && (a + b)[1..] == a[1..] + b;
      GoesOn(Step(s, a[0]), a[1..], s1, b, s2);
    }
  }

  lemma {:induction false} Goes1(s: Client, a: Action)
    requires Enabled(s, a)
    ensures Goes(s, [a], Step(s, a))
  {
    assert [a][1..] == [];
    assert Legal(Step(s, a), []) && Final(Step(s, a), []) == Step(s, a);
    hide Step, Enabled;
  }

  lemma {:induction false} Goes2(s: Client, a: Action, b: Action)
    requires Enabled(s, a) && Enabled(Step(s, a), b)
    ensures Goes(s, [a, b], Step(Step(s, a), b))
  {
    hide Step, Enabled;
    Goes1(s, a);
    Goes1(Step(s, a), b);
    GoesOn(s, [a], Step(s, a), [b], Step(Step(s, a), b));
    assert [a] + [b] == [a, b];
  }

  lemma OneInQueue(q: nat, header: MsgHeader)
    requires q < Layout.QUEUES
    ensures NoQueues()[q := NoQueues()[q] + [header]] == NoQueues()[q := [header]]
    ensures NoQueues()[q := [header]][q := [header][1..]] == NoQueues()
  {
    assert NoQueues()[q] + [header] == [header];
    assert [header][1..] == NoQueues()[q];
  }

  /** A state in which call 0's request, alone in the queues, has been sent and the poller sleeps. */
  predicate RequestOut(s: Client) {
    && |s.calls| == 1 && s.drained == [] && s.poller == Asleep && s.calls[0].promise.None? && s.sender.None?
    && s.queues == NoQueues()[0 := [MsgHeader(1, 7, 0)]] && s.calls[0].header.seqId == 1 && !s.thrown
  }

  /** What the worker and the poller make of it. */
  lemma {:induction false} DrainAnswer(s: Client) returns (s': Client)
    requires RequestOut(s)
    ensures Goes(s, ANSWER_DRAINED, s')
    ensures s'.drained == [ANSWER] && s'.queues == NoQueues() && s'.sender == s.sender
    ensures s'.pending == s.pending - {1}
    ensures s.pending == map[1 := 0] ==> s'.calls == s.calls[0 := s.calls[0].(promise := Some(ANSWER))]
    ensures 1 !in s.pending ==> s'.calls == s.calls
  {
    OneInQueue(0, MsgHeader(1, 7, 0));
    OneInQueue(1, ANSWER);
    var s1 := Step(s, TakeRequest(0));
    assert s1 == s.(queues := NoQueues());
    var s2 := Step(s1, Respond(0, ANSWER));
    assert s2 == s.(queues := NoQueues()[1 := [ANSWER]]);
    Goes2(s, TakeRequest(0), Respond(0, ANSWER));
    var s3, s4 := DrainOne(s2);
    GoesOn(s, [TakeRequest(0), Respond(0, ANSWER)], s2, [Poll, Poll], s3);
    GoesOn(s, [TakeRequest(0), Respond(0, ANSWER)] + [Poll, Poll], s3, [Poll, Poll], s4);
    s' := Step(s4, Poll);
    Goes1(s4, Poll);
    GoesOn(s, [TakeRequest(0), Respond(0, ANSWER)] + [Poll, Poll] + [Poll, Poll], s4, [Poll], s');
    assert [TakeRequest(0), Respond(0, ANSWER)] + [Poll, Poll] + [Poll, Poll] + [Poll] == ANSWER_DRAINED;
  }

  lemma {:induction false} DrainOne(s: Client) returns (s2: Client, s4: Client)
    requires s.poller == Asleep && s.queues == NoQueues()[1 := [ANSWER]] && s.drained == [] && |s.calls| == 1
    requires s.calls[0].promise.None?
    ensures Goes(s, [Poll, Poll], s2) && Goes(s2, [Poll, Poll], s4)
    ensures s4.queues == s.queues && s4.drained == [ANSWER] && s4.poller == Finishing(0, ANSWER)
    ensures s4.pending == s.pending - {1} && s4.sender == s.sender
    ensures 1 in s.pending && s.pending[1] == 0 ==> s4.calls == s.calls[0 := s.calls[0].(promise := Some(ANSWER))]
    ensures 1 !in s.pending ==> s4.calls == s.calls
  {
    s2 := Step(Step(s, Poll), Poll);
    Goes2(s, Poll, Poll);
    assert s2 == s.(poller := Peeked(0, ANSWER));
    s4 := Step(Step(s2, Poll), Poll);
    Goes2(s2, Poll, Poll);
    assert [] + [ANSWER] == [ANSWER];
    assert 1 !in s.pending ==> s.pending - {1} == s.pending;
  }

  /** The answer to a `Call` drained before it registers: the entry waits for an answer that is gone. */
  lemma CallMayMissItsAnswer() returns (acts: seq<Action>, s: Client)
    ensures Reaches(NoQueues(), acts, s) && |s.calls| == 1
    ensures s.calls[0].waits && s.calls[0].sent && s.calls[0].registered.Some? && !s.calls[0].erased
    ensures s.queues == NoQueues() && ANSWER in s.drained && ANSWER.seqId == s.calls[0].header.seqId
    ensures s.calls[0].promise.None? && s.calls[0].header.seqId in s.pending
  {
    var s0 := Start(NoQueues());
    var s1 := Step(s0, Issue(true, 7, 0));
    var s2 := Step(s1, Send(0, 0, true));
    Goes2(s0, Issue(true, 7, 0), Send(0, 0, true));
    OneInQueue(0, MsgHeader(1, 7, 0));
    assert s2.queues == NoQueues()[0 := [MsgHeader(1, 7, 0)]];
    assert RequestOut(s2) && s2.pending == map[];
    var s3 := DrainAnswer(s2);
    GoesOn(s0, Answered(true), s2, ANSWER_DRAINED, s3);
    s := Step(s3, Register(0));
    Goes1(s3, Register(0));
    acts := Answered(true) + ANSWER_DRAINED + [Register(0)];
    GoesOn(s0, Answered(true) + ANSWER_DRAINED, s3, [Register(0)], s);
  }

  /** The same answer, drained at the same point, reaches a `CallAsync`. */
  lemma AsyncGetsThatAnswer() returns (acts: seq<Action>, s: Client)
    ensures Reaches(NoQueues(), acts, s) && |s.calls| == 1
    ensures !s.calls[0].waits && s.calls[0].sent && s.queues == NoQueues() && s.drained == [ANSWER]
    ensures s.calls[0].promise == Some(ANSWER) && s.calls[0].header.seqId !in s.pending
  {
    var s0 := Start(NoQueues());
    var s1 := Step(s0, Issue(false, 7, 0));
    var s2 := Step(s1, Register(0));
    Goes2(s0, Issue(false, 7, 0), Register(0));
    var s3 := Step(s2, Send(0, 0, true));
    Goes1(s2, Send(0, 0, true));
    GoesOn(s0, [Issue(false, 7, 0), Register(0)], s2, [Send(0, 0, true)], s3);
    assert [Issue(false, 7, 0), Register(0)] + [Send(0, 0, true)] == Answered(false);
    OneInQueue(0, MsgHeader(1, 7, 0));
    assert s3.queues == NoQueues()[0 := [MsgHeader(1, 7, 0)]];
    assert RequestOut(s3) && s3.pending == map[1 := 0];
    s := DrainAnswer(s3);
    acts := Answered(false) + ANSWER_DRAINED;
    GoesOn(s0, Answered(false), s3, ANSWER_DRAINED, s);
  }
}
