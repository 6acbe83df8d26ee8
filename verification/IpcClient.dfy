/** The client object: sending requests, registering them, and draining the response queues. */
module IpcClient {
  import opened Word64
  import opened Messages
  import opened ClientSteps
  import opened ClientDrain
  import Layout = PhoenixShmLayout

  class PendingRequest {
    var response: MsgHeader
    var ready: bool
    var promise: Option<MsgHeader>

    constructor ()
      ensures !ready && promise.None?
    {
      response, ready, promise := MsgHeader(0, 0, 0), false, None;
    }

    /** A promise can be set once; setting it again would throw. */
    method SetValue(header: MsgHeader)
      requires promise.None?
      modifies this
      ensures ready && response == header && promise == Some(header)
    {
      response := header;
      ready := true;
      promise := Some(header);
    }
  }

  /** A promise that holds the invalid id from the start. */
  method FailedRequest() returns (request: PendingRequest)
    ensures fresh(request) && request.promise == Some(MsgHeader(0, 0, 0))
  {
    request := new PendingRequest();
    request.SetValue(MsgHeader(0, 0, 0));
  }

  lemma OneMore(done: seq<MsgHeader>, header: MsgHeader, id: u64)
    ensures FirstWith(done + [header], id)
         == if FirstWith(done, id).None? && header.seqId == id then Some(header) else FirstWith(done, id)
  {
    FirstWithMore(done, id, 0, header);
    assert (done + [header])[0..] == done + [header] && done[0..] == done;
  }

  /** The queues once `k` messages have been taken from queue `q`. */
  function Taken(qs: Layout.Queues, q: nat, k: nat): Layout.Queues
    requires q < Layout.QUEUES && k <= |qs[q]|
  {
    qs[q := qs[q][k..]]
  }

  lemma NoneTaken(qs: Layout.Queues, q: nat, done: seq<MsgHeader>)
    requires q < Layout.QUEUES
    ensures Taken(qs, q, 0) == qs && done + qs[q][..0] == done
  {
  }

  lemma OneTaken(qs: Layout.Queues, q: nat, k: nat, done: seq<MsgHeader>)
    requires q < Layout.QUEUES && k < |qs[q]|
    ensures Taken(qs, q, k)[q] != []
    ensures Taken(qs, q, k)[q := Taken(qs, q, k)[q][1..]] == Taken(qs, q, k + 1)
    ensures done + qs[q][..k] + [Taken(qs, q, k)[q][0]] == done + qs[q][..k + 1]
  {
  }

  lemma AllTaken(qs: Layout.Queues, q: nat, k: nat)
    requires q < Layout.QUEUES && k <= |qs[q]|
    ensures Taken(qs, q, k)[q] == [] <==> k == |qs[q]|
    ensures k == |qs[q]| ==> Taken(qs, q, k) == qs[q := []] && qs[q][..k] == qs[q]
  {
  }

  class IpcClient {
    const layout: Layout.PhoenixShmLayout
    var connected: bool
    var nextSeqId: u64
    var pending: map<u64, PendingRequest>
    var requestsSent: nat
    var errors: nat
    var timeouts: nat

    /** Entries are distinct objects whose promises are still open. */
    ghost predicate Open()
      reads this`pending, pending.Values
    {
      (forall id :: id in pending ==> pending[id].promise.None?) && Distinct(pending)
    }

    constructor (layout: Layout.PhoenixShmLayout)
      ensures this.layout == layout && connected && nextSeqId == 1 && pending == map[] && Open()
    {
      this.layout, connected, nextSeqId, pending := layout, true, 1, map[];
      requestsSent, errors, timeouts := 0, 0, 0;
    }

    method SendRequest(header: MsgHeader, priority: Priority) returns (ok: bool)
      requires layout.Valid()
      modifies layout.queues, layout.memory
      ensures layout.Valid()
      ensures (ok, layout.Held()) == Layout.Dispatch(old(layout.Held()), header, priority)
    {
      hide Layout.Dispatch, Layout.PhoenixShmLayout.Valid, Layout.PhoenixShmLayout.Held, Layout.PhoenixShmLayout.Shaped;
      layout.QueueCount();
      var worker;
      if priority.High? {
        worker := layout.FindBestVipWorker();
      } else {
        worker := layout.FindBestNormalWorker();
      }
      assert Layout.FirstOf(priority) + worker == Layout.Chosen(layout.Held(), priority);
      hide *;
      var q := 2 * (Layout.FirstOf(priority) + worker);
      Layout.DispatchedWhere(layout.Held(), header, priority);
      var full := layout.FullOn(q);
      if full {
        return false;
      }
      ok := layout.PushOn(q, header);
    }

    /** The entry is made before the request is sent, and erased when the send fails. */
    method RegisterAndSend(header: MsgHeader, priority: Priority) returns (entry: PendingRequest, ok: bool)
      requires layout.Valid() && Open()
      modifies this`pending, layout.queues, layout.memory
      ensures layout.Valid() && Open() && fresh(entry) && entry.promise.None?
      ensures (ok, layout.Held()) == Layout.Dispatch(old(layout.Held()), header, priority)
      ensures pending == if ok then old(pending)[header.seqId := entry] else old(pending) - {header.seqId}
    {
      hide Layout.Dispatch, Layout.PhoenixShmLayout.Valid, Layout.PhoenixShmLayout.Held, Layout.PhoenixShmLayout.Shaped;
      layout.QueueCount();
      entry := RegisterWait(header.seqId);
      ok := SendRequest(header, priority);
      if !ok {
        pending := pending - {header.seqId};
        assert pending == old(pending) - {header.seqId};
      }
    }

    /** The future returned is the entry's, or one already fulfilled with the invalid id 0. */
    method CallAsync(funcId: u32, payloadSize: u64, priority: Priority) returns (future: PendingRequest)
      requires layout.Valid() && Open()
      modifies this`nextSeqId, this`pending, this`requestsSent, this`errors, layout.queues, layout.memory
      ensures layout.Valid() && Open() && fresh(future)
      ensures old(!connected) ==> future.promise == Some(MsgHeader(0, 0, 0)) && unchanged(this) && layout.Held() == old(layout.Held())
      ensures old(connected) ==>
                var header := MsgHeader(old(nextSeqId), funcId, Low32(payloadSize));
                var (ok, queues) := Layout.Dispatch(old(layout.Held()), header, priority);
                && nextSeqId == Add(old(nextSeqId), 1) && layout.Held() == queues
                && (ok ==> pending == old(pending)[header.seqId := future] && future.promise.None?)
                && (!ok ==> pending == old(pending) - {header.seqId} && future.promise == Some(MsgHeader(0, 0, 0)))
                && requestsSent == old(requestsSent) + (if ok then 1 else 0)
                && errors == old(errors) + if ok then 0 else 1
    {
      hide Layout.Dispatch, Layout.PhoenixShmLayout.Valid, Layout.PhoenixShmLayout.Held, Layout.PhoenixShmLayout.Shaped;
      layout.QueueCount();
      hide Low32, Add, Open;
      if !connected {
        future := FailedRequest();
        return;
      }
      var seqId := nextSeqId;
      nextSeqId := Add(nextSeqId, 1);
      var entry, ok := RegisterAndSend(MsgHeader(seqId, funcId, Low32(payloadSize)), priority);
      if !ok {
        errors := errors + 1;
        future := FailedRequest();
        return;
      }
      requestsSent := requestsSent + 1;
      future := entry;
    }

    /** `Call` up to its wait: the request is out, and nothing is registered for it yet. */
    method StartCall(funcId: u32, payloadSize: u64, priority: Priority) returns (sent: Option<u64>)
      requires layout.Valid()
      modifies this`nextSeqId, this`requestsSent, this`errors, layout.queues, layout.memory
      ensures layout.Valid()
      ensures old(!connected) ==> sent.None? && nextSeqId == old(nextSeqId) && layout.Held() == old(layout.Held())
      ensures old(connected) ==>
                var header := MsgHeader(old(nextSeqId), funcId, Low32(payloadSize));
                var (ok, queues) := Layout.Dispatch(old(layout.Held()), header, priority);
                && nextSeqId == Add(old(nextSeqId), 1) && layout.Held() == queues
                && sent == if ok then Some(header.seqId) else None
      ensures errors == old(errors) + if sent.None? then 1 else 0
      ensures requestsSent == old(requestsSent) + if sent.Some? then 1 else 0
    {
      hide Layout.Dispatch, Layout.PhoenixShmLayout.Valid, Layout.PhoenixShmLayout.Held, Layout.PhoenixShmLayout.Shaped;
      layout.QueueCount();
      hide Low32, Add;
      if !connected {
        errors := errors + 1;
        return None;
      }
      var seqId := nextSeqId;
      nextSeqId := Add(nextSeqId, 1);
      var ok := SendRequest(MsgHeader(seqId, funcId, Low32(payloadSize)), priority);
      if !ok {
        errors := errors + 1;
        return None;
      }
      requestsSent := requestsSent + 1;
      sent := Some(seqId);
    }

    /** The registration at the start of `WaitForResponse`. */
    method RegisterWait(seqId: u64) returns (entry: PendingRequest)
      requires Open()
      modifies this`pending
      ensures Open() && fresh(entry) && entry.promise.None?
      ensures pending == old(pending)[seqId := entry]
    {
      entry := new PendingRequest();
      pending := pending[seqId := entry];
    }

    method TimeOutWait(seqId: u64) returns (response: MsgHeader)
      requires Open()
      modifies this`pending, this`timeouts
      ensures Open() && pending == old(pending) - {seqId} && response == MsgHeader(0, 0, 0)
      ensures timeouts == old(timeouts) + 1
    {
      pending := pending - {seqId};
      timeouts := timeouts + 1;
      response := MsgHeader(0, 0, 0);
    }

    static ghost predicate Distinct(entries: map<u64, PendingRequest>) {
      forall id1, id2 :: id1 in entries && id2 in entries && entries[id1] == entries[id2] ==> id1 == id2
    }

    /** Each entry of `entries` is fulfilled with the first of `responses` that has its id, or still pending. */
    ghost predicate Settled(entries: map<u64, PendingRequest>, responses: seq<MsgHeader>)
      reads this`pending, entries.Values
    {
      && (forall id :: id in entries ==> entries[id].promise == FirstWith(responses, id))
      && (forall id :: id in pending <==> id in entries && FirstWith(responses, id).None?)
      && (forall id :: id in pending ==> pending[id] == entries[id])
    }

    /** The look-up under the response's id and the hand-over to the entry found. */
    method Match(header: MsgHeader, ghost entries: map<u64, PendingRequest>, ghost done: seq<MsgHeader>)
      requires Settled(entries, done) && Distinct(entries)
      modifies this`pending, entries.Values
      ensures Settled(entries, done + [header])
    {
      hide FirstWith;
      forall id ensures FirstWith(done + [header], id)
                     == if FirstWith(done, id).None? && header.seqId == id then Some(header) else FirstWith(done, id)
      {
        OneMore(done, header, id);
      }
      if header.seqId in pending {
        var entry := pending[header.seqId];
        pending := pending - {header.seqId};
        entry.SetValue(header);
      }
    }

    method TakeResponse(q: nat, ghost entries: map<u64, PendingRequest>, ghost done: seq<MsgHeader>)
      requires layout.Valid() && q < Layout.QUEUES && layout.Held()[q] != []
      requires Settled(entries, done) && Distinct(entries)
      modifies this`pending, entries.Values, layout.queues[q]
      ensures layout.Valid() && layout.Held() == old(layout.Held())[q := old(layout.Held())[q][1..]]
      ensures Settled(entries, done + [old(layout.Held())[q][0]])
    {
      hide Layout.Dispatch, Layout.PhoenixShmLayout.Valid, Layout.PhoenixShmLayout.Held, Layout.PhoenixShmLayout.Shaped;
      layout.QueueCount();
      hide FirstWith;
      var front := layout.PeekOn(q);
      Match(front.value, entries, done);
      var popped := layout.PopOn(q);
    }

    lemma OpenIsSettled()
      requires Open()
      ensures Settled(pending, []) && Distinct(pending)
    {
    }

    lemma SettledIsOpen(entries: map<u64, PendingRequest>, responses: seq<MsgHeader>)
      requires Settled(entries, responses) && Distinct(entries)
      ensures Open()
    {
    }

    /** `k` messages of queue `q` are taken, and their responses settled after `done`. */
    ghost predicate TakenSoFar(q: nat, k: nat, entries: map<u64, PendingRequest>, done: seq<MsgHeader>, before: Layout.Queues)
      requires q < Layout.QUEUES && k <= |before[q]|
      reads this`pending, entries.Values, layout.queues, layout.memory
    {
      layout.Valid() && layout.Held() == Taken(before, q, k) && Settled(entries, done + before[q][..k])
    }

    /** Empties one response queue, after the responses `done` of earlier queues. */
    method DrainQueue(q: nat, ghost entries: map<u64, PendingRequest>, ghost done: seq<MsgHeader>)
      requires layout.Valid() && q < Layout.QUEUES
      requires Settled(entries, done) && Distinct(entries)
      modifies this`pending, entries.Values, layout.queues
      ensures layout.Valid() && layout.Held() == old(layout.Held())[q := []]
      ensures Settled(entries, done + old(layout.Held())[q])
    {
      hide Layout.Dispatch, Layout.PhoenixShmLayout.Valid, Layout.PhoenixShmLayout.Held, Layout.PhoenixShmLayout.Shaped;
      hide FirstWith, Settled, Distinct;
      ghost var before, k := layout.Held(), 0;
      NoneTaken(before, q, done);
      AllTaken(before, q, 0);
      var empty := layout.EmptyOn(q);
      assert TakenSoFar(q, 0, entries, done, before);
      hide TakenSoFar, Taken;
      while !empty
        invariant k <= |before[q]| && TakenSoFar(q, k, entries, done, before)
        invariant empty <==> k == |before[q]|
        decreases |before[q]| - k
      {
        empty := TakeNext(q, k, entries, done, before);
        k := k + 1;
      }
      AllIsTaken(q, entries, done, before);
    }

    lemma AllIsTaken(q: nat, entries: map<u64, PendingRequest>, done: seq<MsgHeader>, before: Layout.Queues)
      requires q < Layout.QUEUES && TakenSoFar(q, |before[q]|, entries, done, before)
      ensures layout.Valid() && layout.Held() == before[q := []] && Settled(entries, done + before[q])
    {
      AllTaken(before, q, |before[q]|);
    }

    /** The body of the loop: one response, and whether the queue is then empty. */
    method TakeNext(q: nat, ghost k: nat, ghost entries: map<u64, PendingRequest>, ghost done: seq<MsgHeader>,
                    ghost before: Layout.Queues) returns (empty: bool)
      requires q < Layout.QUEUES && k < |before[q]| && TakenSoFar(q, k, entries, done, before) && Distinct(entries)
      modifies this`pending, entries.Values, layout.queues
      ensures TakenSoFar(q, k + 1, entries, done, before)
      ensures empty <==> k + 1 == |before[q]|
    {
      hide Layout.Dispatch, Layout.PhoenixShmLayout.Valid, Layout.PhoenixShmLayout.Held, Layout.PhoenixShmLayout.Shaped;
      hide FirstWith, Settled, Distinct, Taken;
      layout.QueueCount();
      OneTaken(before, q, k, done);
      TakeResponse(q, entries, done + before[q][..k]);
      AllTaken(before, q, k + 1);
      empty := layout.EmptyOn(q);
    }

    /** One wake-up of the poller: normal workers first, then the VIP workers. */
    method Drain()
      requires layout.Valid() && Open()
      modifies this`pending, pending.Values, layout.queues
      ensures layout.Valid() && Open()
      ensures layout.Held() == Emptied(old(layout.Held()), Layout.WORKERS)
      ensures Settled(old(pending), Responses(old(layout.Held()), Layout.WORKERS))
    {
      ghost var entries, before := pending, layout.Held();
      hide Layout.Dispatch, Layout.PhoenixShmLayout.Valid, Layout.PhoenixShmLayout.Held, Layout.PhoenixShmLayout.Shaped;
      layout.QueueCount();
      hide FirstWith, Settled, Open, Distinct, Emptied, Responses;
      OpenIsSettled();
      EmptiedNone(before);
      assert Drained(entries, before, 0);
      DrainGroup(0, Layout.NORMAL_WORKERS, entries, before);
      DrainGroup(Layout.NORMAL_WORKERS, Layout.VIP_WORKERS, entries, before);
      SettledIsOpen(entries, Responses(before, Layout.WORKERS));
    }

    /** The response queues of the first `n` workers are drained, and every response in them settled. */
    ghost predicate Drained(entries: map<u64, PendingRequest>, before: Layout.Queues, n: nat)
      requires n <= Layout.WORKERS
      reads this`pending, entries.Values, layout.queues, layout.memory
    {
      layout.Valid() && layout.Held() == Emptied(before, n) && Settled(entries, Responses(before, n))
    }

    method DrainGroup(first: nat, count: nat, ghost entries: map<u64, PendingRequest>, ghost before: Layout.Queues)
      requires first + count <= Layout.WORKERS && Distinct(entries) && Drained(entries, before, first)
      modifies this`pending, entries.Values, layout.queues
      ensures Drained(entries, before, first + count)
    {
      hide Distinct, Drained;
      var i := 0;
      while i < count
        invariant i <= count && Drained(entries, before, first + i)
      {
        DrainWorker(first + i, entries, before);
        i := i + 1;
      }
    }

    method DrainWorker(worker: nat, ghost entries: map<u64, PendingRequest>, ghost before: Layout.Queues)
      requires worker < Layout.WORKERS && Distinct(entries) && Drained(entries, before, worker)
      modifies this`pending, entries.Values, layout.queues
      ensures Drained(entries, before, worker + 1)
    {
      hide Layout.Dispatch, Layout.PhoenixShmLayout.Valid, Layout.PhoenixShmLayout.Held, Layout.PhoenixShmLayout.Shaped;
      hide FirstWith, Settled, Distinct, Emptied, Responses;
      layout.QueueCount();
      EmptiedOneMore(before, worker);
      DrainQueue(2 * worker + 1, entries, Responses(before, worker));
    }
  }
}
