/** One header queue and one shared payload area: what whole runs of sends and receives deliver. */
module PayloadChannel {
  import opened Word64
  import opened Messages
  import Queue = SimplifiedRing
  import Layout = SimplifiedShmLayout

  type byte = Layout.byte

  /** What a caller sends: `length` is the payload length it states, `payload` its bytes if it has any. */
  datatype Message = Message(funcId: u32, payload: Option<seq<byte>>, length: u64)

  predicate WellFormed(m: Message) {
    m.payload.Some? ==> |m.payload.value| == m.length
  }

  predicate HasData(m: Message) {
    m.payload.Some? && m.length > 0
  }

  function HeaderOf(m: Message): MsgHeader {
    MsgHeader(0, m.funcId, Low32(m.length))
  }

  datatype SendResult = Success | QueueFull | Error | ShmClosed

  datatype Delivery = Delivery(header: MsgHeader, bytes: seq<byte>)

  datatype Channel = Channel(ring: Queue.Ring, area: seq<byte>)

  /** The payload area after a message's bytes are copied to its start. */
  function Overlay(area: seq<byte>, m: Message): (area': seq<byte>)
    requires WellFormed(m) && m.length <= |area|
    ensures |area'| == |area|
  {
    if HasData(m) then m.payload.value + area[m.length..] else area
  }

  function Outcome(c: Channel, m: Message): SendResult {
    if m.length > |c.area| then Error else if Queue.Full(c.ring) then QueueFull else Success
  }

  function Sent(c: Channel, m: Message): (c': Channel)
    requires Queue.HasSlots(c.ring) && WellFormed(m)
    ensures Queue.HasSlots(c'.ring) && |c'.ring.slots| == |c.ring.slots| && |c'.area| == |c.area|
  {
    if Outcome(c, m).Success?
    then Channel(Queue.After(c.ring, Queue.Push(HeaderOf(m))), Overlay(c.area, m))
    else c
  }

  /** The first `n` bytes, or all of a shorter sequence. */
  function Prefix(area: seq<byte>, n: nat): seq<byte> {
    if n <= |area| then area[..n] else area
  }

  function Front(c: Channel): Option<MsgHeader>
    requires Queue.HasSlots(c.ring)
  {
    Queue.ReplyTo(c.ring, Queue.Peek).header
  }

  function Delivered(c: Channel): Option<Delivery>
    requires Queue.HasSlots(c.ring)
  {
    match Front(c)
    case None => None
    case Some(header) => Some(Delivery(header, Prefix(c.area, header.payloadLen)))
  }

  function Received(c: Channel): (c': Channel)
    requires Queue.HasSlots(c.ring)
    ensures Queue.HasSlots(c'.ring) && |c'.ring.slots| == |c.ring.slots| && c'.area == c.area
  {
    c.(ring := Queue.After(c.ring, Queue.Pop))
  }

  // ---- Runs with their history ----

  type Call = m: Message | WellFormed(m) witness Message(0, None, 0)

  datatype Event = Send(message: Call) | Receive

  /** `sent`: the accepted messages; `got`: what was received; `seen[i]`: how many were sent before receipt i. */
  datatype History = History(channel: Channel, sent: seq<Call>, got: seq<Delivery>, seen: seq<nat>)

  function Next(h: History, e: Event): (h': History)
    requires Queue.HasSlots(h.channel.ring)
    ensures Queue.HasSlots(h'.channel.ring)
    ensures |h'.channel.ring.slots| == |h.channel.ring.slots| && |h'.channel.area| == |h.channel.area|
  {
    match e
    case Send(m) =>
      History(Sent(h.channel, m), if Outcome(h.channel, m).Success? then h.sent + [m] else h.sent, h.got, h.seen)
    case Receive =>
      match Delivered(h.channel)
      case None => h
      case Some(d) => History(Received(h.channel), h.sent, h.got + [d], h.seen + [|h.sent|])
  }

  function After(h: History, events: seq<Event>): (h': History)
    requires Queue.HasSlots(h.channel.ring)
    ensures Queue.HasSlots(h'.channel.ring)
    decreases |events|
  {
    if events == [] then h else After(Next(h, events[0]), events[1..])
  }

  function Start(slots: seq<MsgHeader>, area: seq<byte>): History {
    History(Channel(Queue.Fresh(slots), area), [], [], [])
  }

  predicate AllFit(messages: seq<Call>, size: nat) {
    forall i :: 0 <= i < |messages| ==> messages[i].length <= size
  }

  /** The payload area after all these messages, copied in order. */
  function Overlays(area: seq<byte>, messages: seq<Call>): (area': seq<byte>)
    requires AllFit(messages, |area|)
    ensures |area'| == |area|
  {
    if messages == [] then area
    else Overlay(Overlays(area, messages[..|messages| - 1]), messages[|messages| - 1])
  }

  function HeadersOf(messages: seq<Call>): (headers: seq<MsgHeader>)
    ensures |headers| == |messages|
    ensures forall i :: 0 <= i < |messages| ==> headers[i] == HeaderOf(messages[i])
  {
    seq(|messages|, i requires 0 <= i < |messages| => HeaderOf(messages[i]))
  }

  /** The unread messages are queued in order, and each receipt got the area as it was then. */
  ghost predicate Consistent(h: History, area0: seq<byte>) {
    && |h.got| <= |h.sent| && |h.seen| == |h.got|
    && AllFit(h.sent, |area0|)
    && Queue.Holds(h.channel.ring, HeadersOf(h.sent[|h.got|..]), |h.sent|, |h.got|)
    && h.channel.area == Overlays(area0, h.sent)
    && (forall i :: 0 <= i < |h.got| ==> i < h.seen[i] <= |h.sent|)
    && (forall i :: 0 <= i < |h.got| ==> GotExactly(h, area0, i))
  }

  /** Receipt `i` is the header of message `i` with the front of the area as overlaid so far. */
  ghost predicate GotExactly(h: History, area0: seq<byte>, i: nat)
    requires i < |h.got| == |h.seen| && i < h.seen[i] <= |h.sent| && AllFit(h.sent, |area0|)
  {
    && h.got[i].header == HeaderOf(h.sent[i])
    && h.got[i].bytes == Prefix(Overlays(area0, h.sent[..h.seen[i]]), Low32(h.sent[i].length))
  }

  /** The history leaves room for `n` more sends before a stored index could lose its slot. */
  predicate RoomFor(h: History, n: nat)
    requires Queue.HasSlots(h.channel.ring)
  {
    Queue.Safe(|h.channel.ring.slots|, |h.sent| + n)
  }

  lemma SendConsistent(h: History, area0: seq<byte>, m: Call)
    requires Consistent(h, area0) && RoomFor(h, 1) && Outcome(h.channel, m).Success?
    ensures Consistent(Next(h, Send(m)), area0)
  {
    var h' := Next(h, Send(m));
    SendHolds(h, m);
    hide Queue.Holds, Queue.After, Queue.Full, Overlay, Queue.Safe, HeadersOf;
    assert h'.sent[..|h'.sent| - 1] == h.sent;
    hide Overlays, HeaderOf;
    forall i | 0 <= i < |h'.got| ensures GotExactly(h', area0, i) {
      assert GotExactly(h, area0, i);
      assert h'.sent[..h.seen[i]] == h.sent[..h.seen[i]];
    }
  }

  /** The queue's part of an accepted send. */
  lemma SendHolds(h: History, m: Call)
    requires |h.got| <= |h.sent| && Queue.Holds(h.channel.ring, HeadersOf(h.sent[|h.got|..]), |h.sent|, |h.got|)
    requires RoomFor(h, 1) && !Queue.Full(h.channel.ring)
    ensures Queue.Holds(Queue.After(h.channel.ring, Queue.Push(HeaderOf(m))), HeadersOf((h.sent + [m])[|h.got|..]),
                        |h.sent| + 1, |h.got|)
  {
    var q, ring := HeadersOf(h.sent[|h.got|..]), h.channel.ring;
    SubOfWrapped(|h.sent|, |h.got|);
    Queue.StepHolds(ring, q, |h.sent|, |h.got|, Queue.Push(HeaderOf(m)));
    hide Queue.After;
    assert (h.sent + [m])[|h.got|..] == h.sent[|h.got|..] + [m];
    assert HeadersOf((h.sent + [m])[|h.got|..]) == q + [HeaderOf(m)];
  }

  lemma ReceiveConsistent(h: History, area0: seq<byte>)
    requires Consistent(h, area0)
    ensures Consistent(Next(h, Receive), area0)
    ensures var h' := Next(h, Receive);
            if |h.got| == |h.sent| then h' == h
            else |h'.got| == |h.got| + 1 && h'.got[..|h.got|] == h.got && h'.sent == h.sent && h'.seen == h.seen + [|h.sent|]
  {
    var q := HeadersOf(h.sent[|h.got|..]);
    Queue.StepHolds(h.channel.ring, q, |h.sent|, |h.got|, Queue.Peek);
    Queue.StepHolds(h.channel.ring, q, |h.sent|, |h.got|, Queue.Pop);
    hide Queue.Holds, Queue.After, Queue.ReplyTo, Queue.Safe, Overlays, HeaderOf;
    if q != [] {
      var m := h.sent[|h.got|];
      assert q[0] == HeaderOf(m) && HeadersOf(h.sent[|h.got| + 1..]) == q[1..];
      LengthOfHeader(m);
      FrontTaken(h, area0, Next(h, Receive), m);
    }
  }

  lemma FrontTaken(h: History, area0: seq<byte>, h': History, m: Call)
    requires Consistent(h, area0) && |h.got| < |h.sent| && m == h.sent[|h.got|]
    requires h' == History(h'.channel, h.sent, h.got + [Delivery(HeaderOf(m), Prefix(h.channel.area, Low32(m.length)))],
                           h.seen + [|h.sent|])
    requires h'.channel.area == h.channel.area
    requires Queue.Holds(h'.channel.ring, HeadersOf(h.sent[|h.got| + 1..]), |h.sent|, |h.got| + 1)
    ensures Consistent(h', area0)
  {
    hide Queue.Holds, Overlays, HeaderOf, HeadersOf, Prefix, Low32;
    assert h.sent[..|h.sent|] == h.sent;
    forall i | 0 <= i < |h'.got| ensures GotExactly(h', area0, i) {
      assert i < |h.got| ==> GotExactly(h, area0, i);
    }
  }

  lemma LengthOfHeader(m: Message)
    ensures HeaderOf(m).payloadLen == Low32(m.length)
  {
  }

  lemma {:induction false} RunConsistent(h: History, area0: seq<byte>, events: seq<Event>)
    requires Consistent(h, area0) && RoomFor(h, |events|)
    ensures Consistent(After(h, events), area0)
    decreases |events|
  {
    if events != [] {
      match events[0] {
        case Send(m) =>
          if Outcome(h.channel, m).Success? { SendConsistent(h, area0, m); }
        case Receive => ReceiveConsistent(h, area0);
      }
      hide Consistent, Next;
      RunConsistent(Next(h, events[0]), area0, events[1..]);
    }
  }

  // ---- What holds in every run ----

  /** The header in the slot of the message with this count. */
  function QueuedHeader(ring: Queue.Ring, count: nat): MsgHeader
    requires Queue.HasSlots(ring)
  {
    ring.slots[Queue.Slot(ring, Wrap(count))]
  }

  /** Every unread header states a length that fits the payload area. */
  ghost predicate QueuedFit(h: History)
    requires Queue.HasSlots(h.channel.ring)
  {
    forall k: nat :: |h.got| <= k < |h.sent| ==> QueuedHeader(h.channel.ring, k).payloadLen <= |h.channel.area|
  }

  /**
   * While the capacity divides 2^64, or fewer than 2^64 events have happened: the area is the in-order
   * overlay of all accepted messages, receipts are the sent headers in order, and lengths always fit.
   */
  lemma EveryRun(slots: seq<MsgHeader>, area: seq<byte>, events: seq<Event>)
    requires Queue.HasSlots(Queue.Fresh(slots)) && Queue.Safe(|slots|, |events|)
    ensures var h := After(Start(slots, area), events);
            Consistent(h, area) && QueuedFit(h)
  {
    hide After, Consistent, Queue.Holds, QueuedFit;
    StartConsistent(slots, area);
    RunConsistent(Start(slots, area), area, events);
    ConsistentFits(After(Start(slots, area), events), area);
  }

  lemma StartConsistent(slots: seq<MsgHeader>, area: seq<byte>)
    requires Queue.HasSlots(Queue.Fresh(slots))
    ensures Consistent(Start(slots, area), area)
  {
  }

  lemma {:induction false} ConsistentFits(h: History, area0: seq<byte>)
    requires Consistent(h, area0)
    ensures QueuedFit(h)
  {
    var waiting := h.sent[|h.got|..];
    hide Queue.Holds, Queue.HasSlots, Queue.Slot, Wrap, GotExactly, Overlays;
    HeadersFit(waiting, |area0|);
    hide HeadersOf, AllFit, QueuedHeader;
    HeldFit(h.channel.ring, HeadersOf(waiting), |h.sent|, |h.got|, |area0|);
  }

  lemma HeadersFit(messages: seq<Call>, size: nat)
    requires AllFit(messages, size)
    ensures forall i :: 0 <= i < |messages| ==> HeadersOf(messages)[i].payloadLen <= size
  {
  }

  lemma HeldFit(ring: Queue.Ring, q: Queue.Queue, w: nat, c: nat, size: nat)
    requires Queue.Holds(ring, q, w, c) && forall i :: 0 <= i < |q| ==> q[i].payloadLen <= size
    ensures forall k: nat :: c <= k < w ==> QueuedHeader(ring, k).payloadLen <= size
  {
    hide Wrap, Queue.Slot;
    forall k: nat | c <= k < w ensures QueuedHeader(ring, k).payloadLen <= size {
      assert q[k - c] == ring.slots[Queue.Slot(ring, Wrap(c + (k - c)))];
      assert c + (k - c) == k;
    }
  }

  lemma EmptyWhenAllGot(h: History, area0: seq<byte>)
    requires Consistent(h, area0)
    ensures Queue.Empty(h.channel.ring) <==> |h.got| == |h.sent|
    ensures Queue.Full(h.channel.ring) <==> |h.sent| - |h.got| == |h.channel.ring.slots|
    ensures |h.sent| - |h.got| <= |h.channel.ring.slots|
  {
    hide GotExactly, Overlays, HeadersOf, AllFit;
    HeldEmptyOrFull(h.channel.ring, HeadersOf(h.sent[|h.got|..]), |h.sent|, |h.got|);
  }

  lemma HeldEmptyOrFull(ring: Queue.Ring, q: Queue.Queue, w: nat, c: nat)
    requires Queue.Holds(ring, q, w, c)
    ensures Queue.Empty(ring) <==> c == w
    ensures Queue.Full(ring) <==> w - c == |ring.slots|
    ensures w - c <= |ring.slots|
  {
    WrappedEqual(w, c);
    SubOfWrapped(w, c);
  }

  predicate Writes(m: Message, b: nat) {
    HasData(m) && b < m.length
  }

  /** Byte `b` of the overlaid area is that of the last message long enough to have written it. */
  lemma {:induction false} OverlaidByte(area: seq<byte>, messages: seq<Call>, b: nat, j: nat)
    requires AllFit(messages, |area|) && j < |messages| && Writes(messages[j], b)
    requires forall k :: j < k < |messages| ==> !Writes(messages[k], b)
    ensures b < |area| && Overlays(area, messages)[b] == messages[j].payload.value[b]
    decreases |messages|
  {
    if j < |messages| - 1 {
      OverlaidByte(area, messages[..|messages| - 1], b, j);
    }
  }

  /** Byte `b` of receipt `i` comes from the last message written to it before the receipt. */
  lemma ReceivedByte(h: History, area0: seq<byte>, i: nat, b: nat, j: nat)
    requires Consistent(h, area0) && i < |h.got| && b < h.got[i].header.payloadLen
    requires j < h.seen[i] && Writes(h.sent[j], b) && forall k :: j < k < h.seen[i] ==> !Writes(h.sent[k], b)
    ensures b < |h.got[i].bytes| && h.got[i].bytes[b] == h.sent[j].payload.value[b]
  {
    hide Queue.Holds, Queue.HasSlots, HeadersOf, Overlays, Writes;
    assert GotExactly(h, area0, i);
    OverlaidByte(area0, h.sent[..h.seen[i]], b, j);
  }

  /** A receipt has as many bytes as its header says, which are the low 32 bits of the length sent. */
  lemma ReceivedLength(h: History, area0: seq<byte>, i: nat)
    requires Consistent(h, area0) && i < |h.got|
    ensures |h.got[i].bytes| == h.got[i].header.payloadLen == Low32(h.sent[i].length) <= h.sent[i].length
    ensures h.got[i].header == HeaderOf(h.sent[i])
    ensures h.sent[i].length < TWO32 <==> Low32(h.sent[i].length) == h.sent[i].length
  {
    hide Queue.Holds, Queue.HasSlots, HeadersOf, Overlays;
    assert GotExactly(h, area0, i);
  }

  /** The header received is the one sent: no sequence id, the caller's function id, the length's low 32 bits. */
  lemma ReceivedHeader(h: History, area0: seq<byte>, i: nat)
    requires Consistent(h, area0) && i < |h.got|
    ensures h.got[i].header.seqId == 0 && h.got[i].header.funcId == h.sent[i].funcId
    ensures h.got[i].header.payloadLen == h.sent[i].length % 0x1_0000_0000
  {
    hide Queue.Holds, Queue.HasSlots, HeadersOf, Overlays;
    assert GotExactly(h, area0, i);
  }

  /** So is every header still in the queue. */
  lemma UnreadHeader(h: History, area0: seq<byte>, k: nat)
    requires Consistent(h, area0) && |h.got| <= k < |h.sent|
    ensures Queue.HasSlots(h.channel.ring)
    ensures var header := QueuedHeader(h.channel.ring, k);
            header.seqId == 0 && header.funcId == h.sent[k].funcId && header.payloadLen == h.sent[k].length % 0x1_0000_0000
  {
    hide Wrap, Queue.Slot, GotExactly, Overlays;
    var waiting := h.sent[|h.got|..];
    assert HeadersOf(waiting)[k - |h.got|] == HeaderOf(waiting[k - |h.got|]) && waiting[k - |h.got|] == h.sent[k];
    assert |h.got| + (k - |h.got|) == k;
  }

  /** An accepted send puts its payload at the start of the area, whatever its length; without one the area stays. */
  lemma AreaAfterSend(c: Channel, m: Call)
    requires Queue.HasSlots(c.ring) && Outcome(c, m).Success?
    ensures m.payload.Some? ==> |m.payload.value| <= |c.area| && Sent(c, m).area == m.payload.value + c.area[|m.payload.value|..]
    ensures m.payload.None? ==> Sent(c, m).area == c.area
  {
  }

  /** Message `j` is the last to write byte `b` before receipt `i`, and writes another byte than message `i`. */
  ghost predicate Spoils(h: History, i: nat, j: nat, b: nat)
    requires i < |h.seen| && i < h.seen[i] <= |h.sent| && Writes(h.sent[i], b)
  {
    && i < j < h.seen[i] && Writes(h.sent[j], b)
    && (forall k :: j < k < h.seen[i] ==> !Writes(h.sent[k], b))
    && h.sent[j].payload.value[b] != h.sent[i].payload.value[b]
  }

  /** The last message from `i` on that writes byte `b`. */
  lemma {:induction false} LastWriter(messages: seq<Call>, i: nat, b: nat) returns (j: nat)
    requires i < |messages| && Writes(messages[i], b)
    ensures i <= j < |messages| && Writes(messages[j], b) && forall k :: j < k < |messages| ==> !Writes(messages[k], b)
    decreases |messages|
  {
    if Writes(messages[|messages| - 1], b) {
      j := |messages| - 1;
    } else {
      j := LastWriter(messages[..|messages| - 1], i, b);
    }
  }

  /** What byte `b` of receipt `i` is, in terms of the messages sent meanwhile. */
  lemma ByteIsSpoiled(h: History, area0: seq<byte>, i: nat, b: nat)
    requires Consistent(h, area0) && i < |h.got| && Writes(h.sent[i], b) && b < h.got[i].header.payloadLen
    ensures b < |h.got[i].bytes|
    ensures h.got[i].bytes[b] != h.sent[i].payload.value[b] <==> exists j: nat :: Spoils(h, i, j, b)
  {
    hide Queue.Holds, Queue.HasSlots, HeadersOf, Overlays, AllFit, GotExactly, HeaderOf;
    var sent := h.sent[..h.seen[i]];
    var last := LastWriter(sent, i, b);
    ReceivedByte(h, area0, i, b, last);
    if h.got[i].bytes[b] != h.sent[i].payload.value[b] {
      assert Spoils(h, i, last, b);
    }
    forall j: nat | Spoils(h, i, j, b) ensures h.got[i].bytes[b] != h.sent[i].payload.value[b] {
      ReceivedByte(h, area0, i, b, j);
    }
  }

  /**
   * A message with data is received as it was sent exactly when its length fits in 32 bits and no later
   * message left another byte in its place before the receipt.
   */
  lemma IntactExactly(h: History, area0: seq<byte>, i: nat)
    requires Consistent(h, area0) && i < |h.got| && HasData(h.sent[i])
    ensures h.got[i].bytes == h.sent[i].payload.value <==>
              h.sent[i].length < TWO32 && forall b: nat, j: nat :: b < h.sent[i].length ==> !Spoils(h, i, j, b)
  {
    var m := h.sent[i];
    ReceivedLength(h, area0, i);
    hide Consistent, Spoils, HeaderOf, Low32;
    if m.length < TWO32 {
      forall b: nat | b < m.length
        ensures h.got[i].bytes[b] == m.payload.value[b] <==> forall j: nat :: !Spoils(h, i, j, b)
      {
        ByteIsSpoiled(h, area0, i, b);
      }
      if h.got[i].bytes == m.payload.value {
        forall b: nat, j: nat | b < m.length ensures !Spoils(h, i, j, b) {
          assert h.got[i].bytes[b] == m.payload.value[b];
        }
      }
    }
  }

  /**
   * When the data messages sent before the receipt differ from it in their first byte: a message is
   * received as it was sent exactly when it is shorter than 2^32 bytes and there is no such message.
   */
  lemma IntactUnlessOverwritten(h: History, area0: seq<byte>, i: nat)
    requires Consistent(h, area0) && i < |h.got| && HasData(h.sent[i])
    requires forall k :: i < k < h.seen[i] && HasData(h.sent[k]) ==> h.sent[k].payload.value[0] != h.sent[i].payload.value[0]
    ensures h.got[i].bytes == h.sent[i].payload.value <==>
              h.sent[i].length < TWO32 && forall k :: i < k < h.seen[i] ==> !HasData(h.sent[k])
  {
    IntactExactly(h, area0, i);
    hide Queue.Holds, Queue.HasSlots, HeadersOf, Overlays, AllFit, GotExactly, HeaderOf;
    if k :| i < k < h.seen[i] && HasData(h.sent[k]) {
      var j := LastWriter(h.sent[..h.seen[i]], k, 0);
      assert Spoils(h, i, j, 0);
    }
  }

  /** Every message with data is sent on an empty queue. */
  predicate OneAtATime(h: History, events: seq<Event>)
    requires Queue.HasSlots(h.channel.ring)
    decreases |events|
  {
    events == [] ||
    (&& (events[0].Send? && HasData(events[0].message) ==> Queue.Empty(h.channel.ring))
     && OneAtATime(Next(h, events[0]), events[1..]))
  }

  /** When a message with data was sent, every earlier message had been received. */
  ghost predicate Alone(h: History) {
    forall j :: 0 <= j < |h.sent| && HasData(h.sent[j]) ==>
      j <= |h.got| <= |h.seen| && forall i :: 0 <= i < j ==> h.seen[i] <= j
  }

  lemma {:induction false} RunAlone(h: History, area0: seq<byte>, events: seq<Event>)
    requires Consistent(h, area0) && RoomFor(h, |events|) && OneAtATime(h, events) && Alone(h)
    ensures Alone(After(h, events))
    decreases |events|
  {
    if events != [] {
      RunConsistent(h, area0, events[..1]);
      assert events[..1][1..] == [] && events[..1][0] == events[0];
      assert After(h, events[..1]) == Next(h, events[0]);
      StepAlone(h, area0, events[0]);
      hide Consistent, Next, Alone;
      RunAlone(Next(h, events[0]), area0, events[1..]);
    }
  }

  lemma StepAlone(h: History, area0: seq<byte>, e: Event)
    requires Consistent(h, area0) && Alone(h)
    requires e.Send? && HasData(e.message) ==> Queue.Empty(h.channel.ring)
    ensures Alone(Next(h, e))
  {
    EmptyWhenAllGot(h, area0);
    var h' := Next(h, e);
    hide Queue.Empty, Overlays, Queue.Holds, Received, Sent, Delivered, Outcome, HasData;
    if h'.sent != h.sent {
      forall j | 0 <= j < |h.sent| ensures h'.sent[j] == h.sent[j] {}
    }
  }

  /**
   * With one message with data outstanding at a time, the bytes received are the bytes sent exactly
   * when the length fits in the header.
   */
  lemma OneAtATimeIsIntact(slots: seq<MsgHeader>, area: seq<byte>, events: seq<Event>)
    requires Queue.HasSlots(Queue.Fresh(slots)) && Queue.Safe(|slots|, |events|)
    requires OneAtATime(Start(slots, area), events)
    ensures var h := After(Start(slots, area), events);
            |h.got| <= |h.sent| && forall i :: 0 <= i < |h.got| && HasData(h.sent[i]) ==>
              (h.got[i].bytes == h.sent[i].payload.value <==> h.sent[i].length < TWO32)
  {
    var h0 := Start(slots, area);
    var h := After(h0, events);
    EveryRun(slots, area, events);
    StartConsistent(slots, area);
    RunAlone(h0, area, events);
    hide After, OneAtATime, Start, Queue.Holds, Overlays, GotExactly;
    forall i | 0 <= i < |h.got| && HasData(h.sent[i])
      ensures h.got[i].bytes == h.sent[i].payload.value <==> h.sent[i].length < TWO32
    {
      IntactUnlessOverwritten(h, area, i);
    }
  }

  /** What a send answers, in terms of the messages still unread. */
  lemma AnswerExactly(h: History, area0: seq<byte>, m: Call)
    requires Consistent(h, area0)
    ensures Outcome(h.channel, m) ==
              if m.length > |area0| then Error
              else if |h.sent| - |h.got| == |h.channel.ring.slots| then QueueFull else Success
  {
    EmptyWhenAllGot(h, area0);
    hide Queue.Full, Queue.Holds, GotExactly;
  }

  /** Two sends to an empty queue with room, and a receive. */
  lemma TwoOutstanding(h: History, area0: seq<byte>, m1: Call, m2: Call)
    requires Consistent(h, area0) && RoomFor(h, 2) && |h.got| == |h.sent| && |h.channel.ring.slots| >= 2
    requires m1.length <= |area0| && m2.length <= |area0|
    ensures var h' := Next(Next(Next(h, Send(m1)), Send(m2)), Receive);
            && Consistent(h', area0) && h'.sent == h.sent + [m1, m2]
            && |h'.got| == |h.got| + 1 && |h'.seen| == |h'.got| && h'.seen[|h.got|] == |h.got| + 2
  {
    var h1 := Next(h, Send(m1));
    var h2 := Next(h1, Send(m2));
    AnswerExactly(h, area0, m1);
    SendConsistent(h, area0, m1);
    AnswerExactly(h1, area0, m2);
    SendConsistent(h1, area0, m2);
    assert h2.sent == h.sent + [m1, m2] && h2.got == h.got;
    hide Queue.Holds, GotExactly, Overlays, HeadersOf, Queue.Safe, Sent, Outcome;
    ReceiveConsistent(h2, area0);
  }

  /**
   * Two messages with data outstanding: the first is received with the second's bytes as far as those
   * reach, so with other bytes than its own when the two differ in the first.
   */
  lemma TwoOutstandingMix(h: History, area0: seq<byte>, m1: Call, m2: Call)
    requires Consistent(h, area0) && RoomFor(h, 2) && |h.got| == |h.sent| && |h.channel.ring.slots| >= 2
    requires HasData(m1) && HasData(m2) && m1.length <= |area0| && m2.length <= |area0|
    ensures var h', i := Next(Next(Next(h, Send(m1)), Send(m2)), Receive), |h.got|;
            && |h'.got| == i + 1 && h'.got[i].header == HeaderOf(m1)
            && (forall b: nat :: b < m2.length && b < Low32(m1.length) ==>
                  b < |h'.got[i].bytes| && h'.got[i].bytes[b] == m2.payload.value[b])
            && (m1.payload.value[0] != m2.payload.value[0] ==> h'.got[i].bytes != m1.payload.value)
  {
    var h3 := Next(Next(Next(h, Send(m1)), Send(m2)), Receive);
    var i := |h.got|;
    TwoOutstanding(h, area0, m1, m2);
    hide Next, Queue.Holds, GotExactly, Overlays, HeadersOf, Queue.Safe, Consistent;
    assert h3.sent[i] == m1 && h3.sent[i + 1] == m2;
    ReceivedLength(h3, area0, i);
    forall b: nat | b < m2.length && b < Low32(m1.length)
      ensures b < |h3.got[i].bytes| && h3.got[i].bytes[b] == m2.payload.value[b]
    {
      ReceivedByte(h3, area0, i, b, i + 1);
    }
    if m1.payload.value[0] != m2.payload.value[0] {
      IntactUnlessOverwritten(h3, area0, i);
    }
  }
}
