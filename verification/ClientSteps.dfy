/**
 * Matching responses to requests: the client's calls, its map of pending requests and its response
 * poller as a system of steps over the layout's queues.  Any number of calls may be waiting; sending
 * is serialised, as the single-producer queues require.  Workers may answer anything at any time.
 */
module ClientSteps {
  import opened Word64
  import opened Messages
  import Layout = PhoenixShmLayout

  /**
   * One `Call` (`waits`) or `CallAsync`.  `registered` is the number of responses drained when its
   * pending entry was made; `promise` is what its promise was fulfilled with.
   */
  datatype Call = Call(
    waits: bool,
    header: MsgHeader,
    sent: bool,
    failed: bool,
    registered: Option<nat>,
    erased: bool,
    promise: Option<MsgHeader>)

  datatype Poller =
    | Asleep
    | Looking(worker: nat)
    | Peeked(worker: nat, header: MsgHeader)
    | Took(worker: nat, header: MsgHeader, owner: Option<nat>)  // the entry found, now erased
    | Finishing(worker: nat, header: MsgHeader)                 // about to pop

  datatype Client = Client(
    nextSeqId: u64,
    calls: seq<Call>,
    pending: map<u64, nat>,       // sequence id -> call number
    sender: Option<nat>,          // the call that is being sent
    queues: Layout.Queues,
    poller: Poller,
    drained: seq<MsgHeader>,      // every response looked up so far
    thrown: bool)                 // a promise was set twice

  datatype Action =
    | Issue(waits: bool, funcId: u32, length: u64)
    | Register(n: nat)
    | Send(n: nat, worker: nat, ok: bool)
    | Erase(n: nat)
    | TimeOut(n: nat)
    | Poll
    | Respond(worker: nat, header: MsgHeader)
    | TakeRequest(worker: nat)

  function SeqOf(n: nat): u64 {
    Wrap(n + 1)
  }

  predicate Enabled(s: Client, a: Action) {
    match a
    case Issue(_, _, _) => s.sender.None?
    case Register(n) =>
      n < |s.calls| && s.calls[n].registered.None? && !s.calls[n].failed
      && if s.calls[n].waits then s.calls[n].sent else s.sender == Some(n)
    case Send(n, worker, ok) =>
      && s.sender == Some(n) && n < |s.calls| && worker < Layout.WORKERS && !s.calls[n].failed
      && (s.calls[n].waits || s.calls[n].registered.Some?)
      && (ok ==> |s.queues[2 * worker]| < Layout.QueueCapacity(2 * worker))
    case Erase(n) => s.sender == Some(n) && n < |s.calls| && s.calls[n].failed
    case TimeOut(n) =>
      n < |s.calls| && s.calls[n].waits && s.calls[n].registered.Some? && !s.calls[n].erased
    case Poll => true
    case Respond(worker, _) =>
      worker < Layout.WORKERS && |s.queues[2 * worker + 1]| < Layout.QueueCapacity(2 * worker + 1)
    case TakeRequest(worker) => worker < Layout.WORKERS && s.queues[2 * worker] != []
  }

  function Step(s: Client, a: Action): Client
    requires Enabled(s, a)
  {
    match a
    case Issue(waits, funcId, length) =>
      var header := MsgHeader(s.nextSeqId, funcId, Low32(length));
      s.(calls := s.calls + [Call(waits, header, false, false, None, false, None)],
         nextSeqId := Add(s.nextSeqId, 1), sender := Some(|s.calls|))
    case Register(n) =>
      var call := s.calls[n].(registered := Some(|s.drained|));
      s.(calls := s.calls[n := call], pending := s.pending[call.header.seqId := n])
    case Send(n, worker, ok) => SendStep(s, n, worker, ok)
    case Erase(n) =>
      if s.calls[n].waits then s.(sender := None)
      else
        s.(pending := s.pending - {s.calls[n].header.seqId}, calls := s.calls[n := s.calls[n].(erased := true)],
           sender := None)
    case TimeOut(n) =>
      s.(pending := s.pending - {s.calls[n].header.seqId}, calls := s.calls[n := s.calls[n].(erased := true)])
    case Poll => PollStep(s)
    case Respond(worker, header) =>
      s.(queues := s.queues[2 * worker + 1 := s.queues[2 * worker + 1] + [header]])
    case TakeRequest(worker) => s.(queues := s.queues[2 * worker := s.queues[2 * worker][1..]])
  }

  /** The header goes to some worker of the group, or the send fails. */
  function SendStep(s: Client, n: nat, worker: nat, ok: bool): Client
    requires n < |s.calls| && worker < Layout.WORKERS
  {
    var call := s.calls[n];
    if ok then
      s.(queues := s.queues[2 * worker := s.queues[2 * worker] + [call.header]],
         calls := s.calls[n := call.(sent := true)], sender := None)
    else s.(calls := s.calls[n := call.(failed := true)])
  }

  /** One step of the response poller. */
  function PollStep(s: Client): Client {
    match s.poller
    case Asleep => s.(poller := Looking(0))
    case Looking(worker) =>
      if worker >= Layout.WORKERS then s.(poller := Asleep)
      else if s.queues[2 * worker + 1] == [] then s.(poller := Looking(worker + 1))
      else s.(poller := Peeked(worker, s.queues[2 * worker + 1][0]))
    case Peeked(worker, header) =>
      var s' := s.(drained := s.drained + [header]);
      if header.seqId in s.pending
      then s'.(poller := Took(worker, header, Some(s.pending[header.seqId])), pending := s.pending - {header.seqId})
      else s'.(poller := Took(worker, header, None))
    case Took(worker, header, owner) =>
      var s' := s.(poller := Finishing(worker, header));
      if owner.Some? && owner.value < |s.calls| then
        var call := s.calls[owner.value];
        if call.promise.Some? then s'.(thrown := true)
        else s'.(calls := s.calls[owner.value := call.(promise := Some(header))])
      else s'
    case Finishing(worker, _) =>
      if worker < Layout.WORKERS && s.queues[2 * worker + 1] != []
      then s.(poller := Looking(worker), queues := s.queues[2 * worker + 1 := s.queues[2 * worker + 1][1..]])
      else s.(poller := Looking(worker))
  }

  // ---- The first response with an id ----

  function FirstWith(responses: seq<MsgHeader>, id: u64): (first: Option<MsgHeader>)
    ensures first.Some? ==> first.value.seqId == id
  {
    if responses == [] then None
    else
      var earlier := FirstWith(responses[..|responses| - 1], id);
      var last := responses[|responses| - 1];
      if earlier.None? && last.seqId == id then Some(last) else earlier
  }

  lemma {:induction false} FirstWithIs(responses: seq<MsgHeader>, id: u64)
    ensures FirstWith(responses, id).None? <==> forall i :: 0 <= i < |responses| ==> responses[i].seqId != id
    ensures FirstWith(responses, id).Some? ==>
              exists i: nat :: i < |responses| && FirstWith(responses, id) == Some(responses[i])
                && forall j :: 0 <= j < i ==> responses[j].seqId != id
    decreases |responses|
  {
    if responses != [] {
      var earlier := responses[..|responses| - 1];
      FirstWithIs(earlier, id);
      if FirstWith(earlier, id).Some? {
        var i: nat :| i < |earlier| && FirstWith(earlier, id) == Some(earlier[i])
          && forall j :: 0 <= j < i ==> earlier[j].seqId != id;
        assert responses[i] == earlier[i];
      }
    }
  }

  lemma FirstWithMore(responses: seq<MsgHeader>, id: u64, from: nat, more: MsgHeader)
    requires from <= |responses|
    ensures var first := FirstWith(responses[from..], id);
            FirstWith((responses + [more])[from..], id)
            == if first.None? && more.seqId == id then Some(more) else first
  {
    assert (responses + [more])[from..][..|responses| - from] == responses[from..];
  }

  // ---- The invariant ----

  /** The pending entry under call `n`'s id. */
  function Listed(s: Client, n: nat): Option<nat> {
    if SeqOf(n) in s.pending then Some(s.pending[SeqOf(n)]) else None
  }

  /** The response the poller has matched to call `n` and not yet handed over. */
  function Held(s: Client, n: nat): Option<MsgHeader> {
    if s.poller.Took? && s.poller.owner == Some(n) then Some(s.poller.header) else None
  }

  predicate CallOk(c: Call, n: nat, listed: Option<nat>, held: Option<MsgHeader>, drained: seq<MsgHeader>) {
    && c.header.seqId == SeqOf(n)
    && (listed.Some? ==> listed == Some(n) && c.registered.Some? && !c.erased && c.promise.None? && held.None?)
    && (c.promise.Some? ==> c.promise.value.seqId == SeqOf(n) && held.None?)
    && (held.Some? ==> held.value.seqId == SeqOf(n))
    && (c.registered.None? ==> c.promise.None? && held.None? && !c.erased)
    && (c.registered.Some? ==> c.registered.value <= |drained|)
    && (c.registered.Some? && !c.erased ==>
          var first := FirstWith(drained[c.registered.value..], SeqOf(n));
          if first.None? then listed.Some? else listed.None? && (c.promise == first || held == first))
    && (!c.waits && (c.sent || c.failed) ==> c.registered.Some?)
    && (!c.waits && c.erased ==> c.failed)
    && (c.waits && c.registered.Some? ==> c.sent)
    && !(c.sent && c.failed)
  }

  ghost predicate CallsOk(s: Client) {
    forall n: nat :: n < |s.calls| ==> CallOk(s.calls[n], n, Listed(s, n), Held(s, n), s.drained)
  }

  /** Every entry is that of the call with its id. */
  ghost predicate PendingOk(s: Client) {
    forall id :: id in s.pending ==> s.pending[id] < |s.calls| && SeqOf(s.pending[id]) == id
  }

  /** The response being handled is the head of the queue it came from. */
  predicate PollerOk(s: Client) {
    match s.poller
    case Asleep => true
    case Looking(_) => true
    case Peeked(worker, header) => AtHead(s, worker, header)
    case Took(worker, header, owner) => AtHead(s, worker, header) && (owner.Some? ==> owner.value < |s.calls|)
    case Finishing(worker, header) => AtHead(s, worker, header)
  }

  predicate AtHead(s: Client, worker: nat, header: MsgHeader) {
    worker < Layout.WORKERS && s.queues[2 * worker + 1] != [] && s.queues[2 * worker + 1][0] == header
  }

  predicate SenderOk(s: Client) {
    match s.sender
    case None => true
    case Some(n) => n + 1 == |s.calls| && !s.calls[n].sent
  }

  ghost predicate Increasing(queue: seq<MsgHeader>) {
    forall i, j :: 0 <= i < j < |queue| ==> queue[i].seqId < queue[j].seqId
  }

  /** How many calls are through with sending. */
  function Through(s: Client): nat {
    if s.sender.Some? && |s.calls| > 0 then |s.calls| - 1 else |s.calls|
  }

  /** The request queue holds increasing ids of calls that are through with sending. */
  ghost predicate RequestsOk(s: Client, worker: nat)
    requires worker < Layout.WORKERS
  {
    Increasing(s.queues[2 * worker]) &&
    forall i :: 0 <= i < |s.queues[2 * worker]| ==> s.queues[2 * worker][i].seqId <= Through(s)
  }

  /** Fewer than 2^64 calls were made, so no id was used twice. */
  ghost predicate Inv(s: Client) {
    && |s.calls| < TWO64 && s.nextSeqId == Wrap(|s.calls| + 1) && !s.thrown
    && CallsOk(s) && PendingOk(s) && PollerOk(s) && SenderOk(s)
    && forall worker: nat :: worker < Layout.WORKERS ==> RequestsOk(s, worker)
  }

  function Start(queues: Layout.Queues): Client {
    Client(1, [], map[], None, queues, Asleep, [], false)
  }

  predicate NoRequests(queues: Layout.Queues) {
    forall worker: nat :: worker < Layout.WORKERS ==> queues[2 * worker] == []
  }

  lemma StartInv(queues: Layout.Queues)
    requires NoRequests(queues)
    ensures Inv(Start(queues))
  {
  }

  lemma IdsDiffer(m: nat, n: nat)
    requires m < n && n + 1 < TWO64
    ensures SeqOf(m) == m + 1 != n + 1 == SeqOf(n)
  {
  }

  // ---- Every step keeps it ----

  lemma IssueKeepsInv(s: Client, waits: bool, funcId: u32, length: u64)
    requires Inv(s) && Enabled(s, Issue(waits, funcId, length)) && |s.calls| + 1 < TWO64
    ensures Inv(Step(s, Issue(waits, funcId, length)))
  {
    var s' := Step(s, Issue(waits, funcId, length));
    AddOfWrapped(|s.calls| + 1, 1);
    forall n: nat | n < |s'.calls| ensures CallOk(s'.calls[n], n, Listed(s', n), Held(s', n), s'.drained) {
      if n == |s.calls| {
        if SeqOf(n) in s.pending {
          IdsDiffer(s.pending[SeqOf(n)], n);
        }
      }
    }
    forall worker: nat | worker < Layout.WORKERS ensures RequestsOk(s', worker) {
      assert RequestsOk(s, worker);
    }
  }

  lemma RegisterKeepsInv(s: Client, n: nat)
    requires Inv(s) && Enabled(s, Register(n))
    ensures Inv(Step(s, Register(n)))
  {
    var s' := Step(s, Register(n));
    assert CallOk(s.calls[n], n, Listed(s, n), Held(s, n), s.drained);
    assert s.drained[|s.drained|..] == [];
    hide FirstWith;
    assert FirstWith([], SeqOf(n)) == None by { FirstWithIs([], SeqOf(n)); }
    forall m: nat | m < |s'.calls| ensures CallOk(s'.calls[m], m, Listed(s', m), Held(s', m), s'.drained) {
      assert CallOk(s.calls[m], m, Listed(s, m), Held(s, m), s.drained);
      OthersKeep(s, s', n, m);
    }
    SameRequests(s, s');
  }

  /** A change of the map under one call's id leaves the other entries. */
  lemma OthersKeep(s: Client, s': Client, n: nat, m: nat)
    requires n + 1 < TWO64 && m + 1 < TWO64
    requires forall id :: id != SeqOf(n) ==> (id in s.pending <==> id in s'.pending)
    requires forall id :: id != SeqOf(n) && id in s.pending ==> s'.pending[id] == s.pending[id]
    ensures m != n ==> Listed(s', m) == Listed(s, m)
  {
    if m < n { IdsDiffer(m, n); } else if n < m { IdsDiffer(n, m); }
  }

  lemma SameRequests(s: Client, s': Client)
    requires forall worker: nat :: worker < Layout.WORKERS ==> RequestsOk(s, worker)
    requires Through(s) <= Through(s')
    requires forall worker: nat :: worker < Layout.WORKERS ==> s'.queues[2 * worker] == s.queues[2 * worker]
    ensures forall worker: nat :: worker < Layout.WORKERS ==> RequestsOk(s', worker)
  {
    forall worker: nat | worker < Layout.WORKERS ensures RequestsOk(s', worker) {
      assert RequestsOk(s, worker);
    }
  }

  lemma SendKeepsInv(s: Client, n: nat, worker: nat, ok: bool)
    requires Inv(s) && Enabled(s, Send(n, worker, ok))
    ensures Inv(Step(s, Send(n, worker, ok)))
  {
    var s' := Step(s, Send(n, worker, ok));
    hide FirstWith;
    assert CallOk(s.calls[n], n, Listed(s, n), Held(s, n), s.drained);
    forall m: nat | m < |s'.calls| ensures CallOk(s'.calls[m], m, Listed(s', m), Held(s', m), s'.drained) {
      assert CallOk(s.calls[m], m, Listed(s, m), Held(s, m), s.drained);
    }
    forall w: nat | w < Layout.WORKERS ensures RequestsOk(s', w) {
      assert RequestsOk(s, w);
    }
  }

  lemma ErasedKeepsInv(s: Client, s': Client, n: nat)
    requires Inv(s) && n < |s.calls| && s.calls[n].registered.Some?
    requires s.calls[n].waits || s.calls[n].failed
    requires s' == s.(pending := s.pending - {SeqOf(n)}, calls := s.calls[n := s.calls[n].(erased := true)],
                      sender := s'.sender)
    requires s'.sender == s.sender || s'.sender == None
    ensures Inv(s')
  {
    hide FirstWith;
    forall m: nat | m < |s'.calls| ensures CallOk(s'.calls[m], m, Listed(s', m), Held(s', m), s'.drained) {
      assert CallOk(s.calls[m], m, Listed(s, m), Held(s, m), s.drained);
      OthersKeep(s, s', n, m);
    }
    SameRequests(s, s');
  }

  lemma EraseKeepsInv(s: Client, n: nat)
    requires Inv(s) && Enabled(s, Erase(n))
    ensures Inv(Step(s, Erase(n)))
  {
    var s' := Step(s, Erase(n));
    assert CallOk(s.calls[n], n, Listed(s, n), Held(s, n), s.drained);
    if s.calls[n].waits {
      hide FirstWith;
      forall m: nat | m < |s'.calls| ensures CallOk(s'.calls[m], m, Listed(s', m), Held(s', m), s'.drained) {
        assert CallOk(s.calls[m], m, Listed(s, m), Held(s, m), s.drained);
      }
      SameRequests(s, s');
    } else {
      ErasedKeepsInv(s, s', n);
    }
  }

  lemma TimeOutKeepsInv(s: Client, n: nat)
    requires Inv(s) && Enabled(s, TimeOut(n))
    ensures Inv(Step(s, TimeOut(n)))
  {
    assert CallOk(s.calls[n], n, Listed(s, n), Held(s, n), s.drained);
    ErasedKeepsInv(s, Step(s, TimeOut(n)), n);
  }

  lemma RespondKeepsInv(s: Client, worker: nat, header: MsgHeader)
    requires Inv(s) && Enabled(s, Respond(worker, header))
    ensures Inv(Step(s, Respond(worker, header)))
  {
    var s' := Step(s, Respond(worker, header));
    SameCalls(s, s');
    SameRequests(s, s');
  }

  lemma SameCalls(s: Client, s': Client)
    requires CallsOk(s) && s'.calls == s.calls && s'.pending == s.pending && s'.drained == s.drained
    requires (!s.poller.Took? && !s'.poller.Took?) || s.poller == s'.poller
    ensures CallsOk(s')
  {
    forall n: nat | n < |s'.calls| ensures CallOk(s'.calls[n], n, Listed(s', n), Held(s', n), s'.drained) {
      assert CallOk(s.calls[n], n, Listed(s, n), Held(s, n), s.drained);
    }
  }

  lemma TakeRequestKeepsInv(s: Client, worker: nat)
    requires Inv(s) && Enabled(s, TakeRequest(worker))
    ensures Inv(Step(s, TakeRequest(worker)))
  {
    var s' := Step(s, TakeRequest(worker));
    SameCalls(s, s');
    forall w: nat | w < Layout.WORKERS ensures RequestsOk(s', w) {
      assert RequestsOk(s, w);
    }
  }

  /** The look-up: the response enters the history; an entry with its id is erased and held. */
  lemma PeekedKeepsInv(s: Client)
    requires Inv(s) && s.poller.Peeked?
    ensures Inv(Step(s, Poll))
  {
    var s' := Step(s, Poll);
    var header := s.poller.header;
    hide FirstWith;
    forall n: nat | n < |s'.calls| ensures CallOk(s'.calls[n], n, Listed(s', n), Held(s', n), s'.drained) {
      assert CallOk(s.calls[n], n, Listed(s, n), Held(s, n), s.drained);
      var c := s.calls[n];
      if c.registered.Some? {
        FirstWithMore(s.drained, SeqOf(n), c.registered.value, header);
      }
    }
    SameRequests(s, s');
  }

  lemma TookKeepsInv(s: Client)
    requires Inv(s) && s.poller.Took?
    ensures Inv(Step(s, Poll))
  {
    var s' := Step(s, Poll);
    hide FirstWith;
    if s.poller.owner.Some? {
      var owner := s.poller.owner.value;
      assert CallOk(s.calls[owner], owner, Listed(s, owner), Held(s, owner), s.drained);
    }
    forall n: nat | n < |s'.calls| ensures CallOk(s'.calls[n], n, Listed(s', n), Held(s', n), s'.drained) {
      assert CallOk(s.calls[n], n, Listed(s, n), Held(s, n), s.drained);
    }
    SameRequests(s, s');
  }

  lemma QuietPollKeepsInv(s: Client)
    requires Inv(s) && !s.poller.Peeked? && !s.poller.Took?
    ensures Inv(Step(s, Poll))
  {
    var s' := Step(s, Poll);
    SameCalls(s, s');
    SameRequests(s, s');
  }

  lemma StepKeepsInv(s: Client, a: Action)
    requires Inv(s) && Enabled(s, a) && |Step(s, a).calls| < TWO64
    ensures Inv(Step(s, a))
  {
    match a {
      case Issue(waits, funcId, length) => IssueKeepsInv(s, waits, funcId, length);
      case Register(n) => RegisterKeepsInv(s, n);
      case Send(n, worker, ok) => SendKeepsInv(s, n, worker, ok);
      case Erase(n) => EraseKeepsInv(s, n);
      case TimeOut(n) => TimeOutKeepsInv(s, n);
      case Poll =>
        if s.poller.Peeked? { PeekedKeepsInv(s); }
        else if s.poller.Took? { TookKeepsInv(s); }
        else { QuietPollKeepsInv(s); }
      case Respond(worker, header) => RespondKeepsInv(s, worker, header);
      case TakeRequest(worker) => TakeRequestKeepsInv(s, worker);
    }
  }

  // ---- What one step does to a promise ----

  /** A fulfilled promise is never set again, and calls are never forgotten. */
  lemma PromiseIsFinal(s: Client, a: Action, n: nat)
    requires Inv(s) && Enabled(s, a) && n < |s.calls|
    ensures n < |Step(s, a).calls| && (s.calls[n].promise.Some? ==> Step(s, a).calls[n].promise == s.calls[n].promise)
    ensures s.calls[n].sent ==> Step(s, a).calls[n].sent
    ensures Step(s, a).calls[n].waits == s.calls[n].waits
  {
    assert CallOk(s.calls[n], n, Listed(s, n), Held(s, n), s.drained);
    hide FirstWith;
  }

  /** A promise is set only by handing over a held response that was found under its own id. */
  lemma SetOnlyByHandOver(s: Client, a: Action, n: nat)
    requires Inv(s) && Enabled(s, a) && n < |s.calls|
    requires Step(s, a).calls[n].promise != s.calls[n].promise
    ensures a.Poll? && Held(s, n).Some? && Step(s, a).calls[n].promise == Held(s, n)
    ensures Held(s, n).value.seqId == s.calls[n].header.seqId && s.calls[n].promise.None?
  {
    assert CallOk(s.calls[n], n, Listed(s, n), Held(s, n), s.drained);
    hide FirstWith;
  }

  /** A response whose id is not pending passes through and changes nothing but the queue it leaves. */
  lemma UnmatchedPasses(s: Client)
    requires Inv(s) && s.poller.Peeked? && s.poller.header.seqId !in s.pending
    ensures var s' := Step(Step(Step(s, Poll), Poll), Poll);
            var q := 2 * s.poller.worker + 1;
            && s'.calls == s.calls && s'.pending == s.pending && s'.poller == Looking(s.poller.worker)
            && s'.queues == s.queues[q := s.queues[q][1..]]
            && s'.drained == s.drained + [s.queues[q][0]]
  {
  }
}
