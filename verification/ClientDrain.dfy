/** A wake-up of the response poller that nothing interrupts, as steps. */
module ClientDrain {
  import opened Word64
  import opened Messages
  import opened ClientSteps
  import Layout = PhoenixShmLayout

  /** The responses waiting in the queues of the first `n` workers, in the order the poller takes them. */
  function Responses(qs: Layout.Queues, n: nat): seq<MsgHeader>
    requires n <= Layout.WORKERS
  {
    if n == 0 then [] else Responses(qs, n - 1) + qs[2 * n - 1]
  }

  /** The queues once the response queues of the first `n` workers are empty. */
  function Emptied(qs: Layout.Queues, n: nat): Layout.Queues
    requires n <= Layout.WORKERS
  {
    seq(Layout.QUEUES, q requires 0 <= q < Layout.QUEUES => if q % 2 == 1 && q < 2 * n then [] else qs[q])
  }

  /** All six response queues, normal workers first. */
  lemma AllResponses(qs: Layout.Queues)
    ensures Responses(qs, Layout.WORKERS) == qs[1] + qs[3] + qs[5] + qs[7] + qs[9] + qs[11]
  {
    assert Responses(qs, 1) == [] + qs[1] == qs[1];
    assert Responses(qs, 2) == qs[1] + qs[3];
    assert Responses(qs, 3) == qs[1] + qs[3] + qs[5];
    assert Responses(qs, 4) == qs[1] + qs[3] + qs[5] + qs[7];
    assert Responses(qs, 5) == qs[1] + qs[3] + qs[5] + qs[7] + qs[9];
  }

  /** The response queues are empty, the request queues as they were. */
  lemma AllEmptied(qs: Layout.Queues)
    ensures var e := Emptied(qs, Layout.WORKERS);
            && e[1] == e[3] == e[5] == e[7] == e[9] == e[11] == []
            && e[0] == qs[0] && e[2] == qs[2] && e[4] == qs[4] && e[6] == qs[6] && e[8] == qs[8] && e[10] == qs[10]
  {
  }

  lemma EmptiedOneMore(qs: Layout.Queues, n: nat)
    requires n < Layout.WORKERS
    ensures Emptied(qs, n)[2 * n + 1] == qs[2 * n + 1]
    ensures Emptied(qs, n)[2 * n + 1 := []] == Emptied(qs, n + 1)
    ensures Responses(qs, n + 1) == Responses(qs, n) + qs[2 * n + 1]
  {
  }

  lemma EmptiedNone(qs: Layout.Queues)
    ensures Emptied(qs, 0) == qs && Responses(qs, 0) == []
  {
  }

  lemma {:induction false} FirstWithAppend(a: seq<MsgHeader>, b: seq<MsgHeader>, id: u64)
    ensures FirstWith(a + b, id) == if FirstWith(a, id).Some? then FirstWith(a, id) else FirstWith(b, id)
    decreases |b|
  {
    if b == [] {
      assert a + b == a;
    } else {
      assert (a + b)[..|a + b| - 1] == a + b[..|b| - 1];
      FirstWithAppend(a, b[..|b| - 1], id);
    }
  }

  function Polls(s: Client, k: nat): Client
    decreases k
  {
    if k == 0 then s else Polls(Step(s, Poll), k - 1)
  }

  lemma {:induction false} PollsOn(s: Client, j: nat, k: nat)
    ensures Polls(Polls(s, j), k) == Polls(s, j + k)
    decreases j
  {
    if j > 0 {
      PollsOn(Step(s, Poll), j - 1, k);
    }
  }

  /** The calls are as before, but for promises that have been set. */
  ghost predicate SameButPromises(s: Client, s': Client) {
    |s'.calls| == |s.calls| && s'.sender == s.sender && s'.nextSeqId == s.nextSeqId
    && forall n :: 0 <= n < |s.calls| ==> s'.calls[n] == s.calls[n].(promise := s'.calls[n].promise)
  }

  lemma PollKeeps(s: Client)
    requires Inv(s)
    ensures Inv(Step(s, Poll)) && SameButPromises(s, Step(s, Poll))
  {
    StepKeepsInv(s, Poll);
    hide FirstWith;
  }

  /** Peek, look-up, hand-over and pop: one response leaves its queue. */
  lemma {:induction false} FourPolls(s: Client)
    requires Inv(s) && s.poller.Looking? && s.poller.worker < Layout.WORKERS && s.queues[2 * s.poller.worker + 1] != []
    ensures var s', q := Polls(s, 4), 2 * s.poller.worker + 1;
            && Inv(s') && SameButPromises(s, s') && s'.poller == s.poller
            && s'.queues == s.queues[q := s.queues[q][1..]] && s'.drained == s.drained + [s.queues[q][0]]
  {
    var s1 := Step(s, Poll);
    var s2 := Step(s1, Poll);
    var s3 := Step(s2, Poll);
    PollKeeps(s);
    PollKeeps(s1);
    PollKeeps(s2);
    PollKeeps(s3);
    LooksUp(s);
    HandsOver(s2);
    hide Inv, FirstWith, Step;
    assert Polls(s, 4) == Polls(s1, 3) == Polls(s2, 2) == Polls(s3, 1) == Step(s3, Poll);
  }

  lemma LooksUp(s: Client)
    requires s.poller.Looking? && s.poller.worker < Layout.WORKERS && s.queues[2 * s.poller.worker + 1] != []
    ensures var s', header := Step(Step(s, Poll), Poll), s.queues[2 * s.poller.worker + 1][0];
            s'.poller.Took? && s'.poller.worker == s.poller.worker && s'.queues == s.queues && s'.drained == s.drained + [header]
  {
  }

  lemma HandsOver(s: Client)
    requires s.poller.Took? && s.poller.worker < Layout.WORKERS && s.queues[2 * s.poller.worker + 1] != []
    ensures var s', q := Step(Step(s, Poll), Poll), 2 * s.poller.worker + 1;
            && s'.poller == Looking(s.poller.worker) && s'.queues == s.queues[q := s.queues[q][1..]]
            && s'.drained == s.drained
  {
  }

  /** All responses of one worker. */
  lemma {:induction false} DrainsWorker(s: Client) returns (k: nat)
    requires Inv(s) && s.poller.Looking? && s.poller.worker < Layout.WORKERS
    ensures var s', q := Polls(s, k), 2 * s.poller.worker + 1;
            && Inv(s') && SameButPromises(s, s') && s'.poller == Looking(s.poller.worker + 1)
            && s'.queues == s.queues[q := []] && s'.drained == s.drained + s.queues[q]
    decreases |s.queues[2 * s.poller.worker + 1]|
  {
    var q := 2 * s.poller.worker + 1;
    if s.queues[q] == [] {
      k := 1;
      PollKeeps(s);
      assert Polls(s, 1) == Step(s, Poll);
      assert s.queues[q := []] == s.queues;
    } else {
      FourPolls(s);
      var s4 := Polls(s, 4);
      hide Inv, Step, Polls;
      k := DrainsWorker(s4);
      PollsOn(s, 4, k);
      assert [s.queues[q][0]] + s.queues[q][1..] == s.queues[q];
      k := 4 + k;
    }
  }

  lemma {:induction false} DrainsFrom(s: Client, before: Layout.Queues, done: seq<MsgHeader>) returns (k: nat)
    requires Inv(s) && s.poller.Looking? && s.poller.worker <= Layout.WORKERS
    requires s.queues == Emptied(before, s.poller.worker) && s.drained == done + Responses(before, s.poller.worker)
    ensures var s' := Polls(s, k);
            && Inv(s') && SameButPromises(s, s') && s'.poller == Asleep
            && s'.queues == Emptied(before, Layout.WORKERS) && s'.drained == done + Responses(before, Layout.WORKERS)
    decreases Layout.WORKERS - s.poller.worker
  {
    if s.poller.worker == Layout.WORKERS {
      k := 1;
      PollKeeps(s);
      assert Polls(s, 1) == Step(s, Poll);
    } else {
      EmptiedOneMore(before, s.poller.worker);
      var j := DrainsWorker(s);
      hide Inv, Step, Polls, Emptied, Responses;
      k := DrainsFrom(Polls(s, j), before, done);
      PollsOn(s, j, k);
      k := j + k;
    }
  }

  /** Polling forgets entries and never makes one. */
  ghost predicate PendingShrinks(s: Client, s': Client) {
    forall id :: id in s'.pending ==> id in s.pending && s'.pending[id] == s.pending[id]
  }

  lemma {:induction false} PollsShrink(s: Client, k: nat)
    ensures PendingShrinks(s, Polls(s, k))
    decreases k
  {
    if k > 0 {
      PollsShrink(Step(s, Poll), k - 1);
    }
  }

  /** A call that is neither pending nor held keeps its promise as it is. */
  lemma {:induction false} UnlistedStays(s: Client, k: nat, n: nat)
    requires Inv(s) && n < |s.calls| && Listed(s, n).None? && Held(s, n).None?
    ensures var s' := Polls(s, k); n < |s'.calls| && s'.calls[n].promise == s.calls[n].promise
    decreases k
  {
    if k > 0 {
      var s1 := Step(s, Poll);
      PollKeeps(s);
      if s1.calls[n].promise != s.calls[n].promise {
        SetOnlyByHandOver(s, Poll, n);
      }
      hide CallsOk, FirstWith;
      UnlistedStays(s1, k - 1, n);
    }
  }

  /**
   * A wake-up that nothing interrupts empties the response queues, and every pending call gets the
   * first response with its id in queue order, or stays pending when there is none; nothing else changes.
   */
  lemma QuietWakeUp(s: Client) returns (k: nat)
    requires Inv(s) && s.poller == Looking(0)
    ensures var s', responses := Polls(s, k), Responses(s.queues, Layout.WORKERS);
            && Inv(s') && SameButPromises(s, s') && s'.poller == Asleep
            && s'.queues == Emptied(s.queues, Layout.WORKERS) && s'.drained == s.drained + responses
            && PendingShrinks(s, s')
            && (forall n: nat :: n < |s.calls| && Listed(s, n).Some? ==>
                  && s'.calls[n].promise == FirstWith(responses, SeqOf(n))
                  && (Listed(s', n).Some? <==> FirstWith(responses, SeqOf(n)).None?))
            && (forall n: nat :: n < |s.calls| && Listed(s, n).None? ==> s'.calls[n].promise == s.calls[n].promise)
  {
    EmptiedNone(s.queues);
    assert s.drained + [] == s.drained;
    k := DrainsFrom(s, s.queues, s.drained);
    var s' := Polls(s, k);
    PollsShrink(s, k);
    hide Polls, Step, Emptied, Responses;
    forall n: nat | n < |s.calls| && Listed(s, n).Some?
      ensures s'.calls[n].promise == FirstWith(Responses(s.queues, Layout.WORKERS), SeqOf(n))
      ensures Listed(s', n).Some? <==> FirstWith(Responses(s.queues, Layout.WORKERS), SeqOf(n)).None?
    {
      PendingGets(s, s', Responses(s.queues, Layout.WORKERS), n);
    }
    forall n: nat | n < |s.calls| && Listed(s, n).None? ensures s'.calls[n].promise == s.calls[n].promise {
      UnlistedStays(s, k, n);
    }
  }

  lemma PendingGets(s: Client, s': Client, responses: seq<MsgHeader>, n: nat)
    requires Inv(s) && Inv(s') && SameButPromises(s, s') && s'.poller == Asleep && s'.drained == s.drained + responses
    requires n < |s.calls| && Listed(s, n).Some?
    ensures s'.calls[n].promise == FirstWith(responses, SeqOf(n))
    ensures Listed(s', n).Some? <==> FirstWith(responses, SeqOf(n)).None?
  {
    assert CallOk(s.calls[n], n, Listed(s, n), Held(s, n), s.drained);
    assert CallOk(s'.calls[n], n, Listed(s', n), Held(s', n), s'.drained);
    hide FirstWith;
    var since := s.drained[s.calls[n].registered.value..];
    assert s'.drained[s.calls[n].registered.value..] == since + responses;
    FirstWithAppend(since, responses, SeqOf(n));
  }

  /** The object's way of sending is one of the steps. */
  lemma DispatchIsSend(s: Client, n: nat, priority: Priority)
    requires s.sender == Some(n) && n < |s.calls| && !s.calls[n].failed
    requires s.calls[n].waits || s.calls[n].registered.Some?
    ensures var (ok, queues) := Layout.Dispatch(s.queues, s.calls[n].header, priority);
            var a := Send(n, Layout.Chosen(s.queues, priority), ok);
            Enabled(s, a) && Step(s, a).queues == queues && Step(s, a).calls[n].sent == (ok || s.calls[n].sent)
  {
    Layout.DispatchedWhere(s.queues, s.calls[n].header, priority);
  }
}
