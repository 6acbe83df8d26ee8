/** Producer and consumer as objects over the single-queue layout, with what the other side does while one waits. */
module ChannelEnds {
  import opened Messages
  import opened PayloadChannel
  import Queue = SimplifiedRing
  import Layout = SimplifiedShmLayout

  // ---- Waiting, as a function of what the other side does during each sleep ----

  function ReceivedMany(c: Channel, n: nat): (c': Channel)
    requires Queue.HasSlots(c.ring)
    ensures Queue.HasSlots(c'.ring) && |c'.ring.slots| == |c.ring.slots| && c'.area == c.area
    decreases n
  {
    if n == 0 then c else ReceivedMany(Received(c), n - 1)
  }

  /** The channel once there is room or the deadline has come; the consumer pops `receives[k]` times in sleep k. */
  function AwaitRoom(c: Channel, receives: seq<nat>): (c': Channel)
    requires Queue.HasSlots(c.ring)
    ensures Queue.HasSlots(c'.ring) && |c'.ring.slots| == |c.ring.slots| && c'.area == c.area
    decreases |receives|
  {
    if !Queue.Full(c.ring) || receives == [] then c else AwaitRoom(ReceivedMany(c, receives[0]), receives[1..])
  }

  /** A message that cannot fit is refused without waiting. */
  function Awaited(c: Channel, m: Message, receives: seq<nat>): (c': Channel)
    requires Queue.HasSlots(c.ring)
    ensures Queue.HasSlots(c'.ring) && c'.area == c.area
  {
    if m.length > |c.area| then c else AwaitRoom(c, receives)
  }

  function SentMany(c: Channel, messages: seq<Call>): (c': Channel)
    requires Queue.HasSlots(c.ring)
    ensures Queue.HasSlots(c'.ring) && |c'.ring.slots| == |c.ring.slots| && |c'.area| == |c.area|
    decreases |messages|
  {
    if messages == [] then c else SentMany(Sent(c, messages[0]), messages[1..])
  }

  /**
   * The channel when the wait for a message ends, and whether one is then received.  The producer sends
   * `arrivals[k]` in sleep k and passes `lifetime` liveness checks before it is found dead.
   */
  function AwaitMessage(c: Channel, arrivals: seq<seq<Call>>, lifetime: nat): (r: (Channel, bool))
    requires Queue.HasSlots(c.ring)
    ensures Queue.HasSlots(r.0.ring) && |r.0.ring.slots| == |c.ring.slots| && |r.0.area| == |c.area|
    ensures r.1 ==> !Queue.Empty(r.0.ring)
    decreases |arrivals|
  {
    if lifetime == 0 then (c, false)
    else if !Queue.Empty(c.ring) then (c, lifetime > 1)
    else if arrivals == [] then (c, false)
    else AwaitMessage(SentMany(c, arrivals[0]), arrivals[1..], lifetime - 1)
  }

  // ---- A blocking call is a run of sends and receives, so what holds in every run holds of it ----

  function Receives(n: nat): (events: seq<Event>)
    ensures |events| == n
  {
    seq(n, _ => Receive)
  }

  lemma {:induction false} AfterAppend(h: History, a: seq<Event>, b: seq<Event>)
    requires Queue.HasSlots(h.channel.ring)
    ensures After(h, a + b) == After(After(h, a), b)
    decreases |a|
  {
    if a == [] {
      assert a + b == b;
    } else {
      assert (a + b)[0] == a[0] && (a + b)[1..] == a[1..] + b;
      AfterAppend(Next(h, a[0]), a[1..], b);
    }
  }

  lemma ReceivedAsNext(h: History)
    requires Queue.HasSlots(h.channel.ring)
    ensures Next(h, Receive).channel == Received(h.channel)
  {
  }

  lemma {:induction false} ReceivesAreRun(h: History, n: nat)
    requires Queue.HasSlots(h.channel.ring)
    ensures After(h, Receives(n)).channel == ReceivedMany(h.channel, n)
    decreases n
  {
    if n > 0 {
      assert Receives(n)[0] == Receive && Receives(n)[1..] == Receives(n - 1);
      ReceivedAsNext(h);
      ReceivesAreRun(Next(h, Receive), n - 1);
    }
  }

  lemma {:induction false} AwaitRoomIsRun(h: History, receives: seq<nat>) returns (events: seq<Event>)
    requires Queue.HasSlots(h.channel.ring)
    ensures After(h, events).channel == AwaitRoom(h.channel, receives)
    ensures forall e :: e in events ==> e == Receive
    decreases |receives|
  {
    if !Queue.Full(h.channel.ring) || receives == [] {
      events := [];
    } else {
      ReceivesAreRun(h, receives[0]);
      var h' := After(h, Receives(receives[0]));
      var rest := AwaitRoomIsRun(h', receives[1..]);
      AfterAppend(h, Receives(receives[0]), rest);
      events := Receives(receives[0]) + rest;
    }
  }

  /** A blocking send is some receives and then one send. */
  lemma BlockingSendIsRun(h: History, m: Call, receives: seq<nat>) returns (events: seq<Event>)
    requires Queue.HasSlots(h.channel.ring)
    ensures After(h, events + [Send(m)]).channel == Sent(Awaited(h.channel, m, receives), m)
    ensures forall e :: e in events ==> e == Receive
  {
    if m.length > |h.channel.area| {
      events := [];
    } else {
      events := AwaitRoomIsRun(h, receives);
    }
    AfterAppend(h, events, [Send(m)]);
    OneSend(After(h, events), m);
  }

  lemma {:induction false} OneSend(h: History, m: Call)
    requires Queue.HasSlots(h.channel.ring)
    ensures After(h, [Send(m)]).channel == Sent(h.channel, m)
  {
    assert [Send(m)][1..] == [];
    assert After(h, [Send(m)]) == Next(h, Send(m));
  }

  /** A blocking send of a message that fits fails exactly when the queue was full and nothing was received. */
  lemma BlockingSendFailsExactly(h: History, area0: seq<byte>, m: Call, receives: seq<nat>)
    requires Consistent(h, area0) && m.length <= |area0|
    ensures Outcome(Awaited(h.channel, m, receives), m) == QueueFull <==>
              |h.sent| - |h.got| == |h.channel.ring.slots| && forall k :: 0 <= k < |receives| ==> receives[k] == 0
  {
    EmptyWhenAllGot(h, area0);
    hide Queue.Full, Queue.Holds, Overlays;
    RoomExactly(h, area0, receives);
  }

  lemma {:induction false} RoomExactly(h: History, area0: seq<byte>, receives: seq<nat>)
    requires Consistent(h, area0)
    ensures Queue.Full(AwaitRoom(h.channel, receives).ring) <==>
              Queue.Full(h.channel.ring) && forall k :: 0 <= k < |receives| ==> receives[k] == 0
    decreases |receives|
  {
    if Queue.Full(h.channel.ring) && receives != [] {
      if receives[0] == 0 {
        RoomExactly(h, area0, receives[1..]);
        assert forall k :: 0 <= k < |receives| - 1 ==> receives[1..][k] == receives[k + 1];
      } else {
        ReceivingMakesRoom(h, area0, receives[0]);
        assert AwaitRoom(h.channel, receives) == ReceivedMany(h.channel, receives[0]);
      }
    }
  }

  lemma {:induction false} ReceivingMakesRoom(h: History, area0: seq<byte>, n: nat)
    requires Consistent(h, area0) && (n > 0 || !Queue.Full(h.channel.ring))
    ensures !Queue.Full(ReceivedMany(h.channel, n).ring)
    decreases n
  {
    if n > 0 {
      var h' := Next(h, Receive);
      ReceiveConsistent(h, area0);
      EmptyWhenAllGot(h, area0);
      EmptyWhenAllGot(h', area0);
      ReceivedAsNext(h);
      hide Queue.Full, Queue.Holds, Overlays, Next, Received;
      ReceivingMakesRoom(h', area0, n - 1);
    }
  }

  /** The wait ends with the first sleep in which something is received, and the queue is then as that sleep left it. */
  lemma {:induction false} AwaitRoomExactly(h: History, area0: seq<byte>, receives: seq<nat>, k: nat)
    requires Consistent(h, area0) && k <= |receives|
    requires |h.sent| - |h.got| == |h.channel.ring.slots| ==>
               (forall j :: 0 <= j < k ==> receives[j] == 0) && (k < |receives| ==> receives[k] > 0)
    ensures AwaitRoom(h.channel, receives) ==
              if |h.sent| - |h.got| < |h.channel.ring.slots| || k == |receives| then h.channel
              else ReceivedMany(h.channel, receives[k])
    decreases |receives|
  {
    EmptyWhenAllGot(h, area0);
    if |h.sent| - |h.got| == |h.channel.ring.slots| && receives != [] {
      if k == 0 {
        ReceivingMakesRoom(h, area0, receives[0]);
      } else {
        AwaitRoomExactly(h, area0, receives[1..], k - 1);
      }
    }
  }

  function Sends(messages: seq<Call>): (events: seq<Event>)
    ensures |events| == |messages|
  {
    seq(|messages|, k requires 0 <= k < |messages| => Send(messages[k]))
  }

  lemma {:induction false} SendsAreRun(h: History, messages: seq<Call>)
    requires Queue.HasSlots(h.channel.ring)
    ensures After(h, Sends(messages)).channel == SentMany(h.channel, messages)
    decreases |messages|
  {
    if messages != [] {
      assert Sends(messages)[0] == Send(messages[0]) && Sends(messages)[1..] == Sends(messages[1..]);
      SendsAreRun(Next(h, Send(messages[0])), messages[1..]);
    }
  }

  /** How many messages are sent during the sleeps. */
  function Total(arrivals: seq<seq<Call>>): nat {
    if arrivals == [] then 0 else |arrivals[0]| + Total(arrivals[1..])
  }

  /** The wait of a blocking receive is a run of sends. */
  lemma {:induction false} AwaitMessageIsRun(h: History, arrivals: seq<seq<Call>>, lifetime: nat) returns (events: seq<Event>)
    requires Queue.HasSlots(h.channel.ring)
    ensures After(h, events).channel == AwaitMessage(h.channel, arrivals, lifetime).0
    ensures |events| <= Total(arrivals)
    decreases |arrivals|
  {
    if lifetime == 0 || !Queue.Empty(h.channel.ring) || arrivals == [] {
      events := [];
    } else {
      SendsAreRun(h, arrivals[0]);
      var rest := AwaitMessageIsRun(After(h, Sends(arrivals[0])), arrivals[1..], lifetime - 1);
      AfterAppend(h, Sends(arrivals[0]), rest);
      events := Sends(arrivals[0]) + rest;
    }
  }

  /** One send keeps what was sent and received before. */
  lemma SendEffect(h: History, area0: seq<byte>, m: Call)
    requires Consistent(h, area0) && RoomFor(h, 1)
    ensures var h' := Next(h, Send(m));
            && Consistent(h', area0) && h'.got == h.got && |h'.channel.ring.slots| == |h.channel.ring.slots|
            && (h'.sent == h.sent || h'.sent == h.sent + [m])
            && (|h.got| == |h.sent| ==> (h'.sent != h.sent <==> m.length <= |area0|))
  {
    AnswerExactly(h, area0, m);
    if Outcome(h.channel, m).Success? {
      SendConsistent(h, area0, m);
    }
    hide Queue.Holds, Overlays, GotExactly, Outcome;
  }

  /** Some of the messages fits the payload area. */
  ghost predicate Brings(messages: seq<Call>, size: nat) {
    exists i :: 0 <= i < |messages| && messages[i].length <= size
  }

  /** Message `i` is the first that fits. */
  ghost predicate FirstFitting(messages: seq<Call>, size: nat, i: nat) {
    i < |messages| && messages[i].length <= size && forall j :: 0 <= j < i ==> messages[j].length > size
  }

  /** A sequence of sends only adds to what was sent. */
  lemma {:induction false} SendsKeep(h: History, area0: seq<byte>, messages: seq<Call>)
    requires Consistent(h, area0) && RoomFor(h, |messages|)
    ensures var h' := After(h, Sends(messages));
            && Consistent(h', area0) && h'.got == h.got && |h'.channel.ring.slots| == |h.channel.ring.slots|
            && h.sent <= h'.sent && |h'.sent| <= |h.sent| + |messages|
    decreases |messages|
  {
    if messages != [] {
      assert Sends(messages)[0] == Send(messages[0]) && Sends(messages)[1..] == Sends(messages[1..]);
      SendEffect(h, area0, messages[0]);
      hide Consistent, Next;
      SendsKeep(Next(h, Send(messages[0])), area0, messages[1..]);
    }
  }

  lemma FirstSend(h: History, messages: seq<Call>)
    requires Queue.HasSlots(h.channel.ring) && messages != []
    ensures After(h, Sends(messages)) == After(Next(h, Send(messages[0])), Sends(messages[1..]))
  {
    assert Sends(messages)[0] == Send(messages[0]) && Sends(messages)[1..] == Sends(messages[1..]);
    hide Next;
  }

  /** To an empty queue it adds the first message that fits, if there is one. */
  lemma {:induction false} SendsEffect(h: History, area0: seq<byte>, messages: seq<Call>)
    requires Consistent(h, area0) && RoomFor(h, |messages|) && |h.got| == |h.sent|
    ensures var h' := After(h, Sends(messages));
            && h.sent <= h'.sent && (h'.sent != h.sent <==> Brings(messages, |area0|))
            && (h'.sent != h.sent ==>
                  exists i: nat :: FirstFitting(messages, |area0|, i) && h'.sent[|h.sent|] == messages[i])
    decreases |messages|
  {
    SendsKeep(h, area0, messages);
    if messages != [] {
      var m, rest := messages[0], messages[1..];
      FirstSend(h, messages);
      SendEffect(h, area0, m);
      var h1 := Next(h, Send(m));
      hide Consistent, Next, Sends, After, Queue.HasSlots;
      if m.length <= |area0| {
        SendsKeep(h1, area0, rest);
        assert FirstFitting(messages, |area0|, 0) && After(h1, Sends(rest)).sent[|h.sent|] == m;
      } else {
        hide Brings;
        SendsEffect(h1, area0, rest);
        FitsLater(messages, |area0|, After(h1, Sends(rest)).sent, |h.sent|);
      }
    }
  }

  lemma FitsLater(messages: seq<Call>, size: nat, sent: seq<Call>, n: nat)
    requires messages != [] && messages[0].length > size
    ensures Brings(messages, size) <==> Brings(messages[1..], size)
    ensures n < |sent| && (exists i: nat :: FirstFitting(messages[1..], size, i) && sent[n] == messages[1..][i]) ==>
              exists i: nat :: FirstFitting(messages, size, i) && sent[n] == messages[i]
  {
    BringsLater(messages, size);
    if n < |sent| && exists i: nat :: FirstFitting(messages[1..], size, i) && sent[n] == messages[1..][i] {
      var i: nat :| FirstFitting(messages[1..], size, i) && sent[n] == messages[1..][i];
      assert FirstFitting(messages, size, i + 1) && sent[n] == messages[i + 1];
    }
  }

  lemma BringsLater(messages: seq<Call>, size: nat)
    requires messages != [] && messages[0].length > size
    ensures Brings(messages, size) <==> Brings(messages[1..], size)
  {
    if Brings(messages, size) {
      var i :| 0 <= i < |messages| && messages[i].length <= size;
      assert messages[1..][i - 1].length <= size;
    }
    if Brings(messages[1..], size) {
      var i :| 0 <= i < |messages| - 1 && messages[1..][i].length <= size;
      assert messages[i + 1].length <= size;
    }
  }

  /** `k` is the first number of sleeps after which a message is unread. */
  ghost predicate FirstUnread(h: History, size: nat, arrivals: seq<seq<Call>>, k: nat) {
    k <= |arrivals| &&
    if k == 0 then |h.got| < |h.sent|
    else |h.got| == |h.sent| && Brings(arrivals[k - 1], size) && forall j :: 0 <= j < k - 1 ==> !Brings(arrivals[j], size)
  }

  lemma UnreadLater(h: History, h1: History, size: nat, arrivals: seq<seq<Call>>, k: nat)
    requires arrivals != [] && |h.got| == |h.sent| && |h1.got| == |h.got| && |h.sent| <= |h1.sent|
    requires |h1.sent| > |h.sent| <==> Brings(arrivals[0], size)
    ensures FirstUnread(h, size, arrivals, k + 1) <==> FirstUnread(h1, size, arrivals[1..], k)
  {
    hide Brings;
    if FirstUnread(h1, size, arrivals[1..], k) && k > 0 {
      forall j | 0 <= j < k ensures !Brings(arrivals[j], size) {
        assert j > 0 ==> !Brings(arrivals[1..][j - 1], size);
      }
    }
    if FirstUnread(h, size, arrivals, k + 1) && k > 0 {
      assert !Brings(arrivals[0], size);
      forall j | 0 <= j < k - 1 ensures !Brings(arrivals[1..][j], size) {
        assert !Brings(arrivals[j + 1], size);
      }
    }
  }

  /**
   * A receive gets a message exactly when one is unread after some number k of sleeps, none being unread
   * earlier, and the producer survives the k + 1 liveness checks of the loop and the one after it.
   */
  lemma {:induction false} BlockingReceiveExactly(h: History, area0: seq<byte>, arrivals: seq<seq<Call>>, lifetime: nat)
    returns (h': History)
    requires Consistent(h, area0) && RoomFor(h, Total(arrivals))
    ensures Consistent(h', area0) && h'.channel == AwaitMessage(h.channel, arrivals, lifetime).0
    ensures h'.got == h.got && h.sent <= h'.sent
    ensures AwaitMessage(h.channel, arrivals, lifetime).1 <==>
              exists k: nat :: FirstUnread(h, |area0|, arrivals, k) && k + 1 < lifetime
    decreases |arrivals|
  {
    EmptyWhenAllGot(h, area0);
    h' := h;
    if |h.got| < |h.sent| {
      assert FirstUnread(h, |area0|, arrivals, 0);
    } else if lifetime > 0 && arrivals != [] {
      var h1 := After(h, Sends(arrivals[0]));
      SendsAreRun(h, arrivals[0]);
      SendsKeep(h, area0, arrivals[0]);
      SendsEffect(h, area0, arrivals[0]);
      assert !FirstUnread(h, |area0|, arrivals, 0);
      hide Consistent, FirstUnread, Brings, After;
      h' := BlockingReceiveExactly(h1, area0, arrivals[1..], lifetime - 1);
      forall k: nat ensures FirstUnread(h, |area0|, arrivals, k + 1) <==> FirstUnread(h1, |area0|, arrivals[1..], k) {
        UnreadLater(h, h1, |area0|, arrivals, k);
      }
      if k: nat :| FirstUnread(h, |area0|, arrivals, k) && k + 1 < lifetime {
        assert FirstUnread(h1, |area0|, arrivals[1..], k - 1);
      }
      if k: nat :| FirstUnread(h1, |area0|, arrivals[1..], k) && k + 1 < lifetime - 1 {
        assert FirstUnread(h, |area0|, arrivals, k + 1);
      }
    }
  }

  function SentAll(c: Channel, arrivals: seq<seq<Call>>): (c': Channel)
    requires Queue.HasSlots(c.ring)
    ensures Queue.HasSlots(c'.ring)
    decreases |arrivals|
  {
    if arrivals == [] then c else SentAll(SentMany(c, arrivals[0]), arrivals[1..])
  }

  /** The wait lasts until a message is unread, the deadline or the producer's death, whichever comes first. */
  lemma {:induction false} AwaitMessageStops(h: History, area0: seq<byte>, arrivals: seq<seq<Call>>, lifetime: nat)
    returns (n: nat)
    requires Consistent(h, area0) && RoomFor(h, Total(arrivals))
    ensures n <= |arrivals| && n <= lifetime
    ensures AwaitMessage(h.channel, arrivals, lifetime).0 == SentAll(h.channel, arrivals[..n])
    ensures n == |arrivals| || n == lifetime || FirstUnread(h, |area0|, arrivals, n)
    ensures forall k: nat :: k < n ==> !FirstUnread(h, |area0|, arrivals, k)
    decreases |arrivals|
  {
    EmptyWhenAllGot(h, area0);
    n := 0;
    if |h.got| == |h.sent| && lifetime > 0 && arrivals != [] {
      var h1 := After(h, Sends(arrivals[0]));
      SendsAreRun(h, arrivals[0]);
      SendsKeep(h, area0, arrivals[0]);
      SendsEffect(h, area0, arrivals[0]);
      assert !FirstUnread(h, |area0|, arrivals, 0);
      hide Consistent, FirstUnread, Brings, After, SentMany, Queue.Empty;
      var rest := AwaitMessageStops(h1, area0, arrivals[1..], lifetime - 1);
      forall k: nat ensures FirstUnread(h, |area0|, arrivals, k + 1) <==> FirstUnread(h1, |area0|, arrivals[1..], k) {
        UnreadLater(h, h1, |area0|, arrivals, k);
      }
      n := rest + 1;
      assert arrivals[..n][0] == arrivals[0] && arrivals[..n][1..] == arrivals[1..][..rest];
      forall k: nat | k < n ensures !FirstUnread(h, |area0|, arrivals, k) {
        assert k > 0 ==> !FirstUnread(h1, |area0|, arrivals[1..], k - 1);
      }
    }
  }

  /** The message received is the first one unread, and exactly that one leaves the queue. */
  lemma BlockingReceiveDelivers(h: History, area0: seq<byte>, arrivals: seq<seq<Call>>, lifetime: nat) returns (h': History)
    requires Consistent(h, area0) && RoomFor(h, Total(arrivals))
    requires exists k: nat :: FirstUnread(h, |area0|, arrivals, k) && k + 1 < lifetime
    ensures var (c, ready) := AwaitMessage(h.channel, arrivals, lifetime);
            && ready && Consistent(h', area0) && h'.channel == Received(c)
            && h.sent <= h'.sent && |h'.got| == |h.got| + 1 <= |h'.sent| && h'.got[..|h.got|] == h.got
            && Delivered(c) == Some(h'.got[|h.got|])
            && h'.got[|h.got|].header == MsgHeader(0, h'.sent[|h.got|].funcId, h'.sent[|h.got|].length % 0x1_0000_0000)
  {
    var before := BlockingReceiveExactly(h, area0, arrivals, lifetime);
    EmptyWhenAllGot(before, area0);
    ReceiveConsistent(before, area0);
    ReceivedAsNext(before);
    h' := Next(before, Receive);
    ReceivedHeader(h', area0, |h.got|);
    hide Queue.Holds, Overlays, GotExactly;
  }

  /** In every run the message received next states a length that fits the payload area. */
  lemma NextFits(h: History, area0: seq<byte>)
    requires Consistent(h, area0)
    ensures Front(h.channel).Some? ==> Front(h.channel).value.payloadLen <= |h.channel.area|
  {
    EmptyWhenAllGot(h, area0);
    ConsistentFits(h, area0);
    if |h.got| < |h.sent| {
      assert QueuedHeader(h.channel.ring, |h.got|).payloadLen <= |h.channel.area|;
    }
  }

  /** So a blocking receive reads no byte outside the payload area. */
  lemma BlockingReceiveInArea(h: History, area0: seq<byte>, arrivals: seq<seq<Call>>, lifetime: nat)
    requires Consistent(h, area0) && RoomFor(h, Total(arrivals))
    ensures InArea(AwaitMessage(h.channel, arrivals, lifetime).0)
  {
    var events := AwaitMessageIsRun(h, arrivals, lifetime);
    hide Consistent, After, Queue.HasSlots;
    RunConsistent(h, area0, events);
    NextFits(After(h, events), area0);
  }

  predicate InArea(c: Channel)
    requires Queue.HasSlots(c.ring)
  {
    Front(c).Some? ==> Front(c).value.payloadLen <= |c.area|
  }

  // ---- The two objects ----

  ghost function ChannelOf(layout: Layout.SimplifiedShmLayout): Channel
    requires layout.Valid()
    reads layout, layout.slots, layout.payload
  {
    Channel(layout.Ring(), layout.payload[..layout.payloadSize])
  }

  lemma SendCases(c: Channel, m: Message)
    requires Queue.HasSlots(c.ring) && WellFormed(m)
    ensures m.length > |c.area| ==> Outcome(c, m) == Error && Sent(c, m) == c
    ensures m.length <= |c.area| && Queue.Full(c.ring) ==> Outcome(c, m) == QueueFull && Sent(c, m) == c
    ensures m.length <= |c.area| && !Queue.Full(c.ring) ==>
              && Outcome(c, m) == Success && Queue.ReplyTo(c.ring, Queue.Push(HeaderOf(m))) == Queue.Done(true)
              && Sent(c, m) == Channel(Queue.After(c.ring, Queue.Push(HeaderOf(m))), Overlay(c.area, m))
  {
  }

  lemma ReceiveCases(c: Channel)
    requires Queue.HasSlots(c.ring)
    ensures Queue.Empty(c.ring) ==> Front(c).None? && Delivered(c).None? && Received(c) == c
    ensures !Queue.Empty(c.ring) ==> Front(c).Some? && Queue.ReplyTo(c.ring, Queue.Pop) == Queue.Done(true)
  {
  }

  class Producer {
    const layout: Layout.SimplifiedShmLayout
    var valid: bool

    constructor (layout: Layout.SimplifiedShmLayout)
      ensures this.layout == layout && valid
    {
      this.layout, valid := layout, true;
    }

    /** The copy to the start of the payload area. */
    method CopyPayload(bytes: seq<byte>)
      requires layout.Valid() && |bytes| <= layout.payloadSize
      modifies layout.payload
      ensures layout.payload[..layout.payloadSize] == bytes + old(layout.payload[..layout.payloadSize])[|bytes|..]
      ensures layout.Ring() == old(layout.Ring())
    {
      forall i | 0 <= i < |bytes| {
        layout.payload[i] := bytes[i];
      }
    }

    /** What the consumer does to the shared memory during one sleep. */
    method ConsumerPops(n: nat)
      requires layout.Valid()
      modifies layout`readIdx
      ensures layout.Valid() && ChannelOf(layout) == ReceivedMany(old(ChannelOf(layout)), n)
    {
      hide Queue.After, Queue.ReplyTo;
      if n > 0 {
        var popped := layout.Pop();
        assert ChannelOf(layout) == Received(old(ChannelOf(layout)));
        ConsumerPops(n - 1);
      }
    }

    /**
     * `receives` has an entry for each sleep before the deadline: how often the consumer pops in it.
     * A call that does not block has none.
     */
    method DoSend(m: Message, receives: seq<nat>) returns (r: SendResult)
      requires WellFormed(m) && (valid ==> layout.Valid())
      modifies layout`writeIdx, layout`readIdx, layout.slots, layout.payload
      ensures !valid ==> r.ShmClosed? && unchanged(layout, layout.slots, layout.payload)
      ensures valid ==> layout.Valid()
      ensures valid ==> var c := Awaited(old(ChannelOf(layout)), m, receives);
                        r == Outcome(c, m) && ChannelOf(layout) == Sent(c, m)
    {
      if !valid {
        return ShmClosed;
      }
      ghost var c0 := ChannelOf(layout);
      SendCases(Awaited(c0, m, receives), m);
      hide Queue.After, Queue.Full, Queue.Slot, Queue.ReplyTo, Low32, Outcome, Sent;
      if m.length > layout.payloadSize {
        return Error;
      }
      var k := 0;
      var full := layout.IsFull();
      while full
        invariant k <= |receives| && layout.Valid() && full == Queue.Full(layout.Ring())
        invariant layout.payloadSize == old(layout.payloadSize)
        invariant AwaitRoom(ChannelOf(layout), receives[k..]) == AwaitRoom(c0, receives)
        decreases |receives| - k
      {
        if k == |receives| {
          return QueueFull;
        }
        ConsumerPops(receives[k]);
        assert receives[k..][1..] == receives[k + 1..];
        k := k + 1;
        full := layout.IsFull();
      }
      if m.payload.Some? && m.length > 0 {
        CopyPayload(m.payload.value);
      }
      var pushed := layout.Push(HeaderOf(m));
      if !pushed {
        return QueueFull;
      }
      r := Success;
    }
  }

  class Consumer {
    const layout: Layout.SimplifiedShmLayout
    var valid: bool

    constructor (layout: Layout.SimplifiedShmLayout)
      ensures this.layout == layout && valid
    {
      this.layout, valid := layout, true;
    }

    /** What the producer does to the shared memory during one sleep. */
    method ProducerSends(producer: Producer, messages: seq<Call>)
      requires producer.layout == layout && producer.valid && layout.Valid()
      modifies layout`writeIdx, layout`readIdx, layout.slots, layout.payload
      ensures layout.Valid() && ChannelOf(layout) == SentMany(old(ChannelOf(layout)), messages)
      decreases |messages|
    {
      if messages != [] {
        hide Sent, Outcome;
        var r := producer.DoSend(messages[0], []);
        ProducerSends(producer, messages[1..]);
      }
    }

    /**
     * `arrivals` has an entry for each sleep before the deadline: what the producer sends in it; it is
     * found dead at the liveness check after `lifetime` others.  `buffer` says whether the caller passes
     * one for the payload; `inArea` is false when the copy would read past the payload area.
     */
    method DoReceive(buffer: bool, producer: Producer, arrivals: seq<seq<Call>>, lifetime: nat)
      returns (r: Option<Delivery>, inArea: bool)
      requires producer.layout == layout && producer.valid
      requires valid ==> layout.Valid()
      modifies layout`writeIdx, layout`readIdx, layout.slots, layout.payload
      ensures !valid ==> r.None? && inArea && unchanged(layout, layout.slots, layout.payload)
      ensures valid ==> layout.Valid()
      ensures valid ==>
                var (c, ready) := AwaitMessage(old(ChannelOf(layout)), arrivals, lifetime);
                && ChannelOf(layout) == (if ready then Received(c) else c)
                && (!ready ==> r.None?)
                && (ready && buffer ==> r == Delivered(c))
                && (ready && !buffer ==> Front(c).Some? && r == Some(Delivery(Front(c).value, [])))
                && (inArea <==> ready && buffer ==> InArea(c))
    {
      r, inArea := None, true;
      if !valid {
        return;
      }
      var ready := Wait(producer, arrivals, lifetime);
      if !ready {
        return;
      }
      r, inArea := TakeFront(buffer);
    }

    /** The loop until there is a message, the deadline has come or the producer is dead, and the check after it. */
    method Wait(producer: Producer, arrivals: seq<seq<Call>>, lifetime: nat) returns (ready: bool)
      requires producer.layout == layout && producer.valid && layout.Valid()
      modifies layout`writeIdx, layout`readIdx, layout.slots, layout.payload
      ensures layout.Valid() && (ChannelOf(layout), ready) == AwaitMessage(old(ChannelOf(layout)), arrivals, lifetime)
    {
      ghost var c0 := ChannelOf(layout);
      hide Queue.Empty, SentMany;
      var k, checks := 0, 0;
      while true
        invariant k <= |arrivals| && checks == k && k <= lifetime && layout.Valid()
        invariant AwaitMessage(ChannelOf(layout), arrivals[k..], lifetime - k) == AwaitMessage(c0, arrivals, lifetime)
        decreases |arrivals| - k
      {
        if checks == lifetime {
          return false;
        }
        checks := checks + 1;
        var empty := layout.IsEmpty();
        if !empty {
          break;
        }
        if k == |arrivals| {
          return false;
        }
        ProducerSends(producer, arrivals[k]);
        assert arrivals[k..][1..] == arrivals[k + 1..];
        k := k + 1;
      }
      ready := checks < lifetime;
    }

    /** Peek, copy and pop. */
    method TakeFront(buffer: bool) returns (r: Option<Delivery>, inArea: bool)
      requires layout.Valid() && !Queue.Empty(layout.Ring())
      modifies layout`readIdx
      ensures layout.Valid() && ChannelOf(layout) == Received(old(ChannelOf(layout)))
      ensures Front(old(ChannelOf(layout))).Some?
      ensures r == if buffer then Delivered(old(ChannelOf(layout)))
                   else Some(Delivery(Front(old(ChannelOf(layout))).value, []))
      ensures inArea <==> buffer ==> InArea(old(ChannelOf(layout)))
    {
      ghost var c := ChannelOf(layout);
      ReceiveCases(c);
      hide Queue.After, Queue.Empty, Queue.Slot, Queue.ReplyTo, Queue.HasSlots;
      var front := layout.Peek();
      if front.None? {
        return None, true;
      }
      var header := layout.slots[front.value];
      assert Front(c) == Some(header);
      var bytes := [];
      inArea := true;
      if header.payloadLen > 0 && buffer {
        inArea := header.payloadLen <= layout.payloadSize;
        bytes := layout.payload[..if inArea then header.payloadLen else layout.payloadSize];
        assert bytes == Prefix(c.area, header.payloadLen);
      }
      var popped := layout.Pop();
      if !popped {
        return None, inArea;
      }
      assert ChannelOf(layout).area == c.area;
      r := Some(Delivery(header, bytes));
    }
  }
}
