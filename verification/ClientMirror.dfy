/** What the client object does is what the step system does: one abstraction, kept by every operation. */
module ClientMirror {
  import opened Word64
  import opened Messages
  import opened ClientSteps
  import opened ClientTheorems
  import opened ClientDrain
  import Objects = IpcClient
  import Layout = PhoenixShmLayout

  /** The entry objects by the number of the call they were made for. */
  type Owners = map<nat, Objects.PendingRequest>

  ghost predicate Apart(owners: Owners) {
    forall m, n :: m in owners && n in owners && owners[m] == owners[n] ==> m == n
  }

  /** The pending map holds, under the same ids, the objects of the calls the step system has there. */
  ghost predicate SamePending(pending: map<u64, Objects.PendingRequest>, s: Client, owners: Owners) {
    && (forall id :: id in pending <==> id in s.pending)
    && (forall id :: id in pending ==> s.pending[id] in owners && pending[id] == owners[s.pending[id]])
  }

  /** Every entry object's promise is that of its call. */
  ghost predicate SamePromises(s: Client, owners: Owners)
    reads owners.Values
  {
    forall n :: n in owners ==> n < |s.calls| && owners[n].promise == s.calls[n].promise
  }

  /** The object's fields, the shared memory and the entry objects are those of the step system's state. */
  ghost predicate Mirrors(c: Objects.IpcClient, s: Client, owners: Owners)
    reads c, owners.Values, c.layout.queues, c.layout.memory
  {
    && c.layout.Valid() && c.layout.Held() == s.queues && c.nextSeqId == s.nextSeqId
    && Apart(owners) && SamePromises(s, owners) && SamePending(c.pending, s, owners)
  }

  lemma MirrorsOpen(c: Objects.IpcClient, s: Client, owners: Owners)
    requires Mirrors(c, s, owners) && Inv(s)
    ensures c.Open()
  {
    hide Layout.PhoenixShmLayout.Valid, Layout.PhoenixShmLayout.Held, FirstWith;
    forall id | id in c.pending ensures c.pending[id].promise.None? {
      var n := s.pending[id];
      assert CallOk(s.calls[n], n, Listed(s, n), Held(s, n), s.drained);
    }
    forall id1, id2 | id1 in c.pending && id2 in c.pending && c.pending[id1] == c.pending[id2] ensures id1 == id2 {
      assert SeqOf(s.pending[id1]) == id1 && SeqOf(s.pending[id2]) == id2;
    }
  }

  // ---- The steps of each operation ----

  /** What a finished send leaves: one call more, whose id is pending or not. */
  ghost predicate OneCallMore(s: Client, s': Client, call: Call, pending: map<u64, nat>, queues: Layout.Queues) {
    && s'.calls == s.calls + [call] && s'.nextSeqId == Add(s.nextSeqId, 1) && s'.sender.None?
    && s'.pending == pending && s'.queues == queues && s'.poller == s.poller && s'.drained == s.drained
  }

  lemma {:induction false} CallAsyncSteps(s: Client, funcId: u32, size: u64, priority: Priority)
    returns (acts: seq<Action>, s': Client, call: Call)
    requires s.sender.None?
    ensures Goes(s, acts, s') && call.promise.None? && !call.waits
    ensures var header := MsgHeader(s.nextSeqId, funcId, Low32(size));
            var (ok, queues) := Layout.Dispatch(s.queues, header, priority);
            && call.header == header && call.sent == ok
            && OneCallMore(s, s', call, if ok then s.pending[header.seqId := |s.calls|] else s.pending - {header.seqId}, queues)
  {
    var n := |s.calls|;
    var s1 := Step(s, Issue(false, funcId, size));
    var s2 := Step(s1, Register(n));
    Goes2(s, Issue(false, funcId, size), Register(n));
    var header := s2.calls[n].header;
    var (ok, queues) := Layout.Dispatch(s.queues, header, priority);
    var send := Send(n, Layout.Chosen(s.queues, priority), ok);
    DispatchIsSend(s2, n, priority);
    hide Layout.Dispatch, Layout.Chosen, Add, Low32;
    var s3 := Step(s2, send);
    Goes1(s2, send);
    GoesOn(s, [Issue(false, funcId, size), Register(n)], s2, [send], s3);
    acts, s', call := [Issue(false, funcId, size), Register(n)] + [send], s3, s3.calls[n];
    if !ok {
      s' := Step(s3, Erase(n));
      Goes1(s3, Erase(n));
      GoesOn(s, acts, s3, [Erase(n)], s');
      acts, call := acts + [Erase(n)], s'.calls[n];
    }
  }

  lemma {:induction false} StartCallSteps(s: Client, funcId: u32, size: u64, priority: Priority)
    returns (acts: seq<Action>, s': Client, call: Call)
    requires s.sender.None?
    ensures Goes(s, acts, s') && call.promise.None? && call.waits && call.registered.None?
    ensures var header := MsgHeader(s.nextSeqId, funcId, Low32(size));
            var (ok, queues) := Layout.Dispatch(s.queues, header, priority);
            call.header == header && call.sent == ok && call.failed == !ok && OneCallMore(s, s', call, s.pending, queues)
  {
    var n := |s.calls|;
    var s1 := Step(s, Issue(true, funcId, size));
    var header := s1.calls[n].header;
    var (ok, queues) := Layout.Dispatch(s.queues, header, priority);
    var send := Send(n, Layout.Chosen(s.queues, priority), ok);
    DispatchIsSend(s1, n, priority);
    Goes2(s, Issue(true, funcId, size), send);
    hide Layout.Dispatch, Layout.Chosen, Add, Low32;
    var s2 := Step(s1, send);
    acts, s', call := [Issue(true, funcId, size), send], s2, s2.calls[n];
    if !ok {
      s' := Step(s2, Erase(n));
      Goes1(s2, Erase(n));
      GoesOn(s, acts, s2, [Erase(n)], s');
      acts, call := acts + [Erase(n)], s'.calls[n];
    }
  }

  function PollActions(k: nat): (acts: seq<Action>)
    ensures |acts| == k
  {
    seq(k, _ => Poll)
  }

  lemma {:induction false} PollsAreRun(s: Client, k: nat)
    ensures Goes(s, PollActions(k), Polls(s, k))
    decreases k
  {
    if k > 0 {
      assert PollActions(k)[0] == Poll && PollActions(k)[1..] == PollActions(k - 1);
      PollsAreRun(Step(s, Poll), k - 1);
    }
  }

  lemma {:induction false} GoesKeepsInv(s: Client, acts: seq<Action>, s': Client)
    requires Inv(s) && Goes(s, acts, s') && |s'.calls| < TWO64
    ensures Inv(s')
  {
    hide Inv;
    RunKeepsInv(s, acts);
  }

  // ---- The abstraction is kept ----

  /** `CallAsync` is issue, register, send and, when that fails, erase. */
  method CallAsync(c: Objects.IpcClient, funcId: u32, size: u64, priority: Priority, ghost s: Client, ghost owners: Owners)
    returns (future: Objects.PendingRequest, ghost acts: seq<Action>, ghost s': Client, ghost owners': Owners)
    requires Mirrors(c, s, owners) && Inv(s) && c.connected && s.sender.None? && |s.calls| + 1 < TWO64
    modifies c, c.layout.queues, c.layout.memory
    ensures Mirrors(c, s', owners') && Inv(s') && Goes(s, acts, s') && s'.sender.None?
    ensures |s'.calls| == |s.calls| + 1 && !s'.calls[|s.calls|].waits
    ensures if s'.calls[|s.calls|].sent then owners' == owners[|s.calls| := future]
            else owners' == owners && future.promise == Some(MsgHeader(0, 0, 0))
  {
    hide Layout.PhoenixShmLayout.Valid, Layout.PhoenixShmLayout.Held, Layout.Dispatch, Low32, Add, Inv, Goes, Objects.IpcClient.Open;
    MirrorsOpen(c, s, owners);
    ghost var call;
    acts, s', call := CallAsyncSteps(s, funcId, size, priority);
    GoesKeepsInv(s, acts, s');
    NextIsSeqOf(s);
    ghost var pending := c.pending;
    assert SamePending(pending, s, owners) && |s.calls| !in owners;
    hide SamePending, SeqOf;
    future := c.CallAsync(funcId, size, priority);
    if call.sent {
      owners' := owners[|s.calls| := future];
      AddedPending(pending, s, s', owners, |s.calls|, future);
    } else {
      owners' := owners;
      RemovedPending(pending, s, s', owners, s.nextSeqId);
    }
    assert SamePromises(s', owners') && Apart(owners');
    hide SamePromises, Apart;
    MirrorsParts(c, s', owners');
  }

  lemma NextIsSeqOf(s: Client)
    requires Inv(s)
    ensures s.nextSeqId == SeqOf(|s.calls|)
  {
  }

  lemma RemovedPending(pending: map<u64, Objects.PendingRequest>, s: Client, s': Client, owners: Owners, id: u64)
    requires SamePending(pending, s, owners) && s'.pending == s.pending - {id}
    ensures SamePending(pending - {id}, s', owners)
  {
  }

  /** `Call` up to its wait is issue and send, with nothing registered. */
  method StartCall(c: Objects.IpcClient, funcId: u32, size: u64, priority: Priority, ghost s: Client, ghost owners: Owners)
    returns (sent: Option<u64>, ghost acts: seq<Action>, ghost s': Client)
    requires Mirrors(c, s, owners) && Inv(s) && c.connected && s.sender.None? && |s.calls| + 1 < TWO64
    modifies c, c.layout.queues, c.layout.memory
    ensures Mirrors(c, s', owners) && Inv(s') && Goes(s, acts, s') && s'.sender.None?
    ensures |s'.calls| == |s.calls| + 1 && s'.calls[|s.calls|].waits && s'.calls[|s.calls|].registered.None?
    ensures s'.calls[|s.calls|].sent == sent.Some?
    ensures sent.Some? ==> s'.calls[|s.calls|].header.seqId == sent.value && !s'.calls[|s.calls|].failed
  {
    hide Layout.PhoenixShmLayout.Valid, Layout.PhoenixShmLayout.Held, Layout.Dispatch, Low32, Add, Inv, Goes;
    ghost var call;
    acts, s', call := StartCallSteps(s, funcId, size, priority);
    GoesKeepsInv(s, acts, s');
    sent := c.StartCall(funcId, size, priority);
  }

  /** The wait of call `n` begins with its register step. */
  method RegisterWait(c: Objects.IpcClient, n: nat, ghost s: Client, ghost owners: Owners)
    returns (entry: Objects.PendingRequest, ghost s': Client, ghost owners': Owners)
    requires Mirrors(c, s, owners) && Inv(s) && n + 1 < TWO64 && n !in owners
    requires Enabled(s, Register(n))
    modifies c
    ensures s' == Step(s, Register(n)) && Mirrors(c, s', owners') && Inv(s') && owners' == owners[n := entry]
  {
    hide Layout.PhoenixShmLayout.Valid, Layout.PhoenixShmLayout.Held, Objects.IpcClient.Open, FirstWith, Step, Enabled, Inv;
    MirrorsOpen(c, s, owners);
    RegisterKeepsInv(s, n);
    RegisterEffect(s, n);
    s' := Step(s, Register(n));
    ghost var pending := c.pending;
    assert SamePending(pending, s, owners);
    hide SamePending;
    entry := c.RegisterWait(SeqOf(n));
    owners' := owners[n := entry];
    AddedPending(pending, s, s', owners, n, entry);
    assert SamePromises(s', owners') && Apart(owners');
    hide SamePromises, Apart;
    MirrorsParts(c, s', owners');
  }

  lemma AddedPending(pending: map<u64, Objects.PendingRequest>, s: Client, s': Client, owners: Owners, n: nat,
                     entry: Objects.PendingRequest)
    requires SamePending(pending, s, owners) && s'.pending == s.pending[SeqOf(n) := n] && n !in owners
    ensures SamePending(pending[SeqOf(n) := entry], s', owners[n := entry])
  {
  }

  /** The calls keep their promises, and the client its queues and ids. */
  ghost predicate OnlyPending(s: Client, s': Client) {
    && s'.queues == s.queues && s'.nextSeqId == s.nextSeqId && |s'.calls| == |s.calls|
    && forall m: nat :: m < |s.calls| ==> s'.calls[m].promise == s.calls[m].promise
  }

  lemma RegisterEffect(s: Client, n: nat)
    requires Inv(s) && Enabled(s, Register(n))
    ensures var s' := Step(s, Register(n));
            OnlyPending(s, s') && s'.pending == s.pending[SeqOf(n) := n] && n < |s.calls| && s.calls[n].promise.None?
  {
    assert CallOk(s.calls[n], n, Listed(s, n), Held(s, n), s.drained);
    hide FirstWith;
  }

  lemma TimeOutEffect(s: Client, n: nat)
    requires Inv(s) && Enabled(s, TimeOut(n))
    ensures var s' := Step(s, TimeOut(n)); OnlyPending(s, s') && s'.pending == s.pending - {SeqOf(n)}
  {
    assert CallOk(s.calls[n], n, Listed(s, n), Held(s, n), s.drained);
    hide FirstWith;
  }

  method TimeOutWait(c: Objects.IpcClient, n: nat, ghost s: Client, ghost owners: Owners)
    returns (response: MsgHeader, ghost s': Client)
    requires Mirrors(c, s, owners) && Inv(s) && Enabled(s, TimeOut(n))
    modifies c
    ensures s' == Step(s, TimeOut(n)) && Mirrors(c, s', owners) && Inv(s')
  {
    hide Layout.PhoenixShmLayout.Valid, Layout.PhoenixShmLayout.Held, Objects.IpcClient.Open, FirstWith, Step, Enabled, Inv;
    MirrorsOpen(c, s, owners);
    TimeOutKeepsInv(s, n);
    TimeOutEffect(s, n);
    s' := Step(s, TimeOut(n));
    response := c.TimeOutWait(SeqOf(n));
  }

  /** One wake-up of the poller is poll steps until it sleeps again. */
  method Drain(c: Objects.IpcClient, ghost s: Client, ghost owners: Owners)
    returns (ghost k: nat, ghost s': Client)
    requires Mirrors(c, s, owners) && Inv(s) && s.poller == Looking(0)
    modifies c, owners.Values, c.layout.queues
    ensures s' == Polls(s, k) && Goes(s, PollActions(k), s') && s'.poller == Asleep
    ensures Mirrors(c, s', owners) && Inv(s')
  {
    hide Layout.PhoenixShmLayout.Valid, Layout.PhoenixShmLayout.Held, Objects.IpcClient.Open, FirstWith, Emptied, Responses, Polls, Goes;
    MirrorsOpen(c, s, owners);
    k := QuietWakeUp(s);
    s' := Polls(s, k);
    PollsAreRun(s, k);
    ghost var entries, responses := c.pending, Responses(s.queues, Layout.WORKERS);
    EntriesAreOwned(c, s, owners);
    StillPending(s, s', responses);
    assert SamePending(entries, s, owners) && SamePromises(s, owners) && c.layout.Held() == s.queues;
    hide Inv, Mirrors, PendingShrinks, SamePending, SamePromises, Apart, SameButPromises, Objects.IpcClient.Settled;
    DrainOwned(c, s, owners);
    SettledPromises(c, s, s', entries, responses, owners);
    SettledPending(c, s, s', entries, responses, owners);
    MirrorsParts(c, s', owners);
  }

  /** The wake-up changes no object that is not in the pending map. */
  method DrainOwned(c: Objects.IpcClient, ghost s: Client, ghost owners: Owners)
    requires c.layout.Valid() && c.Open() && SamePromises(s, owners) && c.pending.Values <= owners.Values
    requires forall n :: n in owners && Listed(s, n).None? ==> owners[n] !in c.pending.Values
    modifies c, owners.Values, c.layout.queues
    ensures c.layout.Valid() && c.layout.Held() == Emptied(old(c.layout.Held()), Layout.WORKERS)
    ensures c.Settled(old(c.pending), Responses(old(c.layout.Held()), Layout.WORKERS)) && c.nextSeqId == old(c.nextSeqId)
    ensures forall n :: n in owners && Listed(s, n).None? ==> n < |s.calls| && owners[n].promise == s.calls[n].promise
  {
    hide Layout.PhoenixShmLayout.Valid, Layout.PhoenixShmLayout.Held, Objects.IpcClient.Open, Objects.IpcClient.Settled;
    hide Emptied, Responses, FirstWith;
    c.Drain();
  }

  lemma MirrorsParts(c: Objects.IpcClient, s: Client, owners: Owners)
    requires c.layout.Valid() && c.layout.Held() == s.queues && c.nextSeqId == s.nextSeqId
    requires Apart(owners) && SamePromises(s, owners) && SamePending(c.pending, s, owners)
    ensures Mirrors(c, s, owners)
  {
  }

  /** What the polls do to the promises of pending and other calls. */
  ghost predicate PromisesSettle(s: Client, s': Client, responses: seq<MsgHeader>) {
    && |s'.calls| == |s.calls|
    && (forall n: nat :: n < |s.calls| && Listed(s, n).Some? ==> s'.calls[n].promise == FirstWith(responses, SeqOf(n)))
    && (forall n: nat :: n < |s.calls| && Listed(s, n).None? ==> s'.calls[n].promise == s.calls[n].promise)
  }

  lemma SettledPromises(c: Objects.IpcClient, s: Client, s': Client, entries: map<u64, Objects.PendingRequest>,
                        responses: seq<MsgHeader>, owners: Owners)
    requires c.Settled(entries, responses) && PromisesSettle(s, s', responses)
    requires forall n :: n in owners ==> n < |s.calls|
    requires forall n :: n in owners && Listed(s, n).Some? ==> SeqOf(n) in entries && entries[SeqOf(n)] == owners[n]
    requires forall n :: n in owners && Listed(s, n).None? ==> owners[n].promise == s.calls[n].promise
    ensures SamePromises(s', owners)
  {
  }

  lemma SettledPending(c: Objects.IpcClient, s: Client, s': Client, entries: map<u64, Objects.PendingRequest>,
                       responses: seq<MsgHeader>, owners: Owners)
    requires c.Settled(entries, responses) && SamePending(entries, s, owners) && PendingShrinks(s, s')
    requires forall id :: id in s'.pending <==> id in s.pending && FirstWith(responses, id).None?
    ensures SamePending(c.pending, s', owners)
  {
  }

  /** An owned object is in the pending map exactly when its call is listed, and then under its id. */
  lemma EntriesAreOwned(c: Objects.IpcClient, s: Client, owners: Owners)
    requires Mirrors(c, s, owners) && Inv(s)
    ensures c.pending.Values <= owners.Values
    ensures forall n :: n in owners && Listed(s, n).Some? ==> SeqOf(n) in c.pending && c.pending[SeqOf(n)] == owners[n]
    ensures forall n :: n in owners && Listed(s, n).None? ==> owners[n] !in c.pending.Values
  {
    hide Layout.PhoenixShmLayout.Valid, Layout.PhoenixShmLayout.Held, FirstWith;
    forall n | n in owners && Listed(s, n).Some? ensures SeqOf(n) in c.pending && c.pending[SeqOf(n)] == owners[n] {
      assert CallOk(s.calls[n], n, Listed(s, n), Held(s, n), s.drained);
    }
    forall n | n in owners && Listed(s, n).None? ensures owners[n] !in c.pending.Values {
      forall id | id in c.pending ensures c.pending[id] != owners[n] {
        assert SeqOf(s.pending[id]) == id;
      }
    }
  }

  /** After the polls the ids still pending are those that no response had. */
  lemma StillPending(s: Client, s': Client, responses: seq<MsgHeader>)
    requires Inv(s) && PendingShrinks(s, s')
    requires forall n: nat :: n < |s.calls| && Listed(s, n).Some? ==>
               (Listed(s', n).Some? <==> FirstWith(responses, SeqOf(n)).None?)
    ensures forall id :: id in s'.pending <==> id in s.pending && FirstWith(responses, id).None?
  {
    hide FirstWith;
    forall id | id in s.pending ensures id in s'.pending <==> FirstWith(responses, id).None? {
      assert SeqOf(s.pending[id]) == id;
      assert Listed(s, s.pending[id]).Some?;
    }
  }
}
