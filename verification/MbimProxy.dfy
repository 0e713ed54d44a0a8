/**
  quectel-mbim-proxy.c: requests of up to 32 clients share one device.  The proxy writes the
  number of the client's slot into the top byte of the transaction id and takes it out of
  the response again.
 */
module MbimProxy {
  import opened Arith
  import opened Bytes

  const CM_MAX_CLIENT := 32
  const TID_LIMIT := 0x100_0000
  const MBIM_OPEN_MSG := 1
  const MBIM_CLOSE_MSG := 2
  const STATUS_OK: seq<byte> := [0, 0, 0, 0]

  /** A slot is free while its descriptor is not positive. */
  datatype Slot = Slot(fd: int, idx: nat)

  /** Message type, transaction id (32 bits), and what follows the message header. */
  datatype Message = Message(kind: nat, tid: nat, body: seq<byte>)

  datatype Sent = ToDevice(msg: Message) | ToClient(fd: int, msg: Message)

  datatype Event =
    | Connect(fd: int)
    | Disconnect(fd: int)
    | Request(fd: int, msg: Message)
    | Response(msg: Message)

  /** Bitwise or of two numbers. */
  function Or(a: nat, b: nat): nat {
    if a == 0 then b else if b == 0 then a
    else 2 * Or(a / 2, b / 2) + (if a % 2 == 1 || b % 2 == 1 then 1 else 0)
  }

  /** tid | (idx << 24). */
  function Tag(tid: nat, idx: nat): nat {
    Or(tid / TID_LIMIT, idx) * TID_LIMIT + tid % TID_LIMIT
  }

  /** The first slot that satisfies p, or the number of slots. */
  function First(slots: seq<Slot>, p: Slot -> bool): (i: nat)
    ensures i <= |slots| && (i < |slots| ==> p(slots[i])) && forall k :: 0 <= k < i ==> !p(slots[k])
  {
    if slots == [] || p(slots[0]) then 0 else 1 + First(slots[1..], p)
  }

  function Unused(): Slot -> bool { (s: Slot) => s.fd <= 0 }
  function Of(fd: int): Slot -> bool { (s: Slot) => s.fd == fd }
  function Numbered(idx: nat): Slot -> bool { (s: Slot) => s.idx == idx && s.fd > 0 }

  /** handle_client_connect and handle_client_disconnect. */
  function Next(slots: seq<Slot>, e: Event): (t: seq<Slot>)
    ensures |t| == |slots|
  {
    match e
    case Connect(fd) =>
      var i := First(slots, Unused());
      if fd >= 0 && i < |slots| then slots[i := Slot(fd, i + 1)] else slots
    case Disconnect(fd) =>
      var i := First(slots, Of(fd));
      if i < |slots| && fd > 0 then slots[i := slots[i].(fd := -1)] else slots
    case _ => slots
  }

  /** A message without a sender goes to every client. */
  function Broadcast(slots: seq<Slot>, msg: Message): seq<Sent> {
    if slots == [] then []
    else Broadcast(slots[..|slots| - 1], msg) +
         (if slots[|slots| - 1].fd > 0 then [ToClient(slots[|slots| - 1].fd, msg)] else [])
  }

  /** handle_client_request and handle_device_response: what is written where. */
  function Output(slots: seq<Slot>, e: Event): seq<Sent> {
    match e
    case Request(fd, msg) =>
      var i := First(slots, Of(fd));
      if i == |slots| then []
      else if msg.kind == MBIM_OPEN_MSG || msg.kind == MBIM_CLOSE_MSG
      then [ToClient(fd, Message(msg.kind + 0x8000_0000, msg.tid, STATUS_OK))]
      else [ToDevice(msg.(tid := Tag(msg.tid, slots[i].idx)))]
    case Response(msg) =>
      if msg.tid == 0 then Broadcast(slots, msg)
      else
        var i := First(slots, Numbered(msg.tid / TID_LIMIT));
        if i == |slots| then [] else [ToClient(slots[i].fd, msg.(tid := msg.tid % TID_LIMIT))]
    case _ => []
  }

  // ---------- slots ----------

  /** Slot i, once used, is numbered i + 1; no descriptor has two slots. */
  ghost predicate Good(slots: seq<Slot>) {
    && |slots| == CM_MAX_CLIENT
    && (forall i :: 0 <= i < |slots| ==> slots[i].idx == i + 1 || (slots[i].idx == 0 && slots[i].fd <= 0))
    && forall i, j :: 0 <= i < j < |slots| && slots[i].fd > 0 ==> slots[i].fd != slots[j].fd
  }

  /** What accept() guarantees: a new descriptor is not one that is still open. */
  ghost predicate Fresh(slots: seq<Slot>, e: Event) {
    e.Connect? && e.fd > 0 && First(slots, Unused()) < |slots| ==> First(slots, Of(e.fd)) == |slots|
  }

  lemma StepGood(slots: seq<Slot>, e: Event)
    requires Good(slots)
    ensures Good(Next(slots, e)) <==> Fresh(slots, e)
  {
    if e.Connect? {
      var i, j := First(slots, Unused()), First(slots, Of(e.fd));
      if i < |slots| && e.fd > 0 && j < |slots| {
        assert Next(slots, e)[i].fd == Next(slots, e)[j].fd == e.fd && i != j;
      }
    }
  }

  function Run(slots: seq<Slot>, es: seq<Event>): seq<Slot>
    decreases |es|
  {
    if es == [] then slots else Run(Next(slots, es[0]), es[1..])
  }

  ghost predicate AllFresh(slots: seq<Slot>, es: seq<Event>)
    decreases |es|
  {
    es == [] || (Fresh(slots, es[0]) && AllFresh(Next(slots, es[0]), es[1..]))
  }

  // ---------- transaction ids ----------

  /** Both halves of a tagged id come back if and only if the id fits in 24 bits; a tagged id is never 0. */
  lemma TagRoundTrip(tid: nat, idx: nat)
    requires 1 <= idx
    ensures Tag(tid, idx) != 0
    ensures Tag(tid, idx) / TID_LIMIT == Or(tid / TID_LIMIT, idx) && Tag(tid, idx) % TID_LIMIT == tid % TID_LIMIT
    ensures Tag(tid, idx) / TID_LIMIT == idx && Tag(tid, idx) % TID_LIMIT == tid <==> tid < TID_LIMIT
  {
    OrIsPositive(tid / TID_LIMIT, idx);
    Quot(Tag(tid, idx), TID_LIMIT, Or(tid / TID_LIMIT, idx), tid % TID_LIMIT);
  }

  /** The slot number goes into the top byte, and the low three bytes stay. */
  lemma TagByNumbers(tid: nat, idx: nat)
    requires tid < 0x100_0000
    ensures Tag(tid, idx) == idx * 0x100_0000 + tid
  {
    assert tid / 0x100_0000 == 0 && Or(0, idx) == idx;
  }

  lemma {:induction false} OrIsPositive(a: nat, b: nat)
    requires b >= 1
    ensures Or(a, b) >= 1
  {
    if a != 0 && b > 1 {
      OrIsPositive(a / 2, b / 2);
    }
  }

  /** The tag stays in a byte, so that the id stays in 32 bits. */
  lemma {:induction false} OrIsBounded(a: nat, b: nat, n: nat)
    requires a < Pow(n) && b < Pow(n)
    ensures Or(a, b) < Pow(n)
  {
    if a != 0 && b != 0 {
      OrIsBounded(a / 2, b / 2, n - 1);
    }
  }

  function Pow(n: nat): nat { if n == 0 then 1 else 2 * Pow(n - 1) }

  lemma TagFits(tid: nat, idx: nat)
    requires tid < 0x1_0000_0000 && idx <= CM_MAX_CLIENT
    ensures Tag(tid, idx) < 0x1_0000_0000
  {
    assert Pow(8) == 256;
    OrIsBounded(tid / TID_LIMIT, idx, 8);
  }

  // ---------- routing ----------

  /** While a client stays connected, its slot does not change. */
  lemma {:induction false} SlotStays(slots: seq<Slot>, i: nat, es: seq<Event>)
    requires Good(slots) && AllFresh(slots, es) && i < |slots| && slots[i].fd > 0
    requires forall k :: 0 <= k < |es| ==> es[k] != Disconnect(slots[i].fd)
    ensures Good(Run(slots, es)) && Run(slots, es)[i] == slots[i]
    decreases |es|
  {
    if es != [] {
      StepGood(slots, es[0]);
      assert Next(slots, es[0])[i] == slots[i];
      SlotStays(Next(slots, es[0]), i, es[1..]);
    }
  }

  /** The first slot numbered i + 1 is slot i. */
  lemma NumberedIs(slots: seq<Slot>, i: nat)
    requires Good(slots) && i < |slots| && slots[i].fd > 0
    ensures First(slots, Numbered(i + 1)) == i
  {
  }

  lemma OwnSlot(slots: seq<Slot>, i: nat)
    requires Good(slots) && i < |slots| && slots[i].fd > 0
    ensures First(slots, Of(slots[i].fd)) == i
  {
  }

  /**
    A request with an id below 2^24 is forwarded under a tagged id, and whatever happens in between,
    as long as its client stays connected, the response to that id is delivered once, to that client
    only, with the id restored.
   */
  lemma ResponseReachesSender(slots: seq<Slot>, i: nat, msg: Message, es: seq<Event>, answer: Message)
    requires Good(slots) && AllFresh(slots, es) && i < |slots| && slots[i].fd > 0
    requires forall k :: 0 <= k < |es| ==> es[k] != Disconnect(slots[i].fd)
    requires msg.kind != MBIM_OPEN_MSG && msg.kind != MBIM_CLOSE_MSG && msg.tid < TID_LIMIT
    requires answer.tid == Tag(msg.tid, slots[i].idx)
    ensures Output(slots, Request(slots[i].fd, msg)) == [ToDevice(msg.(tid := answer.tid))]
    ensures Output(Run(slots, es), Response(answer)) == [ToClient(slots[i].fd, answer.(tid := msg.tid))]
  {
    OwnSlot(slots, i);
    SlotStays(slots, i, es);
    TagRoundTrip(msg.tid, i + 1);
    NumberedIs(Run(slots, es), i);
  }

  /** For a larger id: client 2 asks with id 2^24, and the response goes to client 3, with id 0. */
  lemma LargeIdIsMisrouted(slots: seq<Slot>, body: seq<byte>)
    requires Good(slots) && slots[1].fd > 0 && slots[2].fd > 0
    ensures Output(slots, Request(slots[1].fd, Message(3, TID_LIMIT, body))) == [ToDevice(Message(3, 3 * TID_LIMIT, body))]
    ensures Output(slots, Response(Message(0x8000_0003, 3 * TID_LIMIT, body))) == [ToClient(slots[2].fd, Message(0x8000_0003, 0, body))]
  {
  }

  /** Who connects gets the lowest free slot, if there is one. */
  lemma ConnectTakesLowest(slots: seq<Slot>, fd: int, i: nat)
    requires fd > 0 && i < |slots| && slots[i].fd <= 0 && forall k :: 0 <= k < i ==> slots[k].fd > 0
    ensures Next(slots, Connect(fd)) == slots[i := Slot(fd, i + 1)]
  {
  }

  lemma FullRefuses(slots: seq<Slot>, fd: int)
    requires forall k :: 0 <= k < |slots| ==> slots[k].fd > 0
    ensures Next(slots, Connect(fd)) == slots
  {
  }

  /** Who leaves has no slot any more; its slot is free, and all the others are as they were. */
  lemma DisconnectFrees(slots: seq<Slot>, fd: int)
    requires Good(slots) && fd > 0
    ensures var t := Next(slots, Disconnect(fd));
            && |t| == |slots|
            && forall i :: 0 <= i < |t| ==> if slots[i].fd == fd then t[i].fd <= 0 && t[i].idx == slots[i].idx else t[i] == slots[i]
  {
  }

  /**
    A message of the device without a transaction id reaches every connected client once, in the order of
    the slots, and nobody else.
   */
  lemma IndicationReachesAll(slots: seq<Slot>, msg: Message) returns (to: seq<nat>)
    requires msg.tid == 0
    ensures |Output(slots, Response(msg))| == |to|
    ensures forall k :: 0 <= k < |to| ==> to[k] < |slots| && slots[to[k]].fd > 0
    ensures forall k :: 0 <= k < |to| ==> Output(slots, Response(msg))[k] == ToClient(slots[to[k]].fd, msg)
    ensures forall i :: 0 <= i < |slots| && slots[i].fd > 0 ==> i in to
    ensures forall k, l :: 0 <= k < l < |to| ==> to[k] < to[l]
  {
    to := BroadcastTo(slots, msg);
  }

  lemma {:induction false} BroadcastTo(slots: seq<Slot>, msg: Message) returns (to: seq<nat>)
    ensures |Broadcast(slots, msg)| == |to|
    ensures forall k :: 0 <= k < |to| ==> to[k] < |slots| && slots[to[k]].fd > 0
    ensures forall k :: 0 <= k < |to| ==> Broadcast(slots, msg)[k] == ToClient(slots[to[k]].fd, msg)
    ensures forall i :: 0 <= i < |slots| && slots[i].fd > 0 ==> i in to
    ensures forall k, l :: 0 <= k < l < |to| ==> to[k] < to[l]
  {
    to := [];
    if slots != [] {
      var n := |slots| - 1;
      var before := BroadcastTo(slots[..n], msg);
      to := before + if slots[n].fd > 0 then [n] else [];
      forall i | 0 <= i < |slots| && slots[i].fd > 0
        ensures i in to
      {
        if i < n {
          assert slots[..n][i].fd > 0 && i in before;
        } else {
          assert to[|before|] == n;
        }
      }
    }
  }

  /** A request to open or to close is answered by the proxy itself, with status 0; the device does not see it. */
  lemma OpenAndCloseAreAnswered(slots: seq<Slot>, i: nat, msg: Message)
    requires Good(slots) && i < |slots| && slots[i].fd > 0 && (msg.kind == 1 || msg.kind == 2)
    ensures Output(slots, Request(slots[i].fd, msg)) ==
            [ToClient(slots[i].fd, Message(if msg.kind == 1 then 0x8000_0001 else 0x8000_0002, msg.tid, [0, 0, 0, 0]))]
  {
    OwnSlot(slots, i);
  }

  /** A response whose slot is not in use, and a request from nobody, go nowhere. */
  lemma NobodyThere(slots: seq<Slot>, fd: int, msg: Message)
    requires forall i :: 0 <= i < |slots| ==> slots[i].fd != fd
    requires forall i :: 0 <= i < |slots| && slots[i].fd > 0 ==> slots[i].idx != msg.tid / 0x100_0000
    ensures Output(slots, Request(fd, msg)) == []
    ensures msg.tid != 0 ==> Output(slots, Response(msg)) == []
  {
  }

  // ---------- the program ----------

  class Proxy {
    const cmClients: array<Slot>

    constructor ()
      ensures Valid() && Good(cmClients[..]) && fresh(cmClients) && cmClients.Length == 32
      ensures forall i :: 0 <= i < 32 ==> cmClients[i].fd <= 0
    {
      cmClients := new Slot[CM_MAX_CLIENT](i => Slot(0, 0));
    }

    ghost predicate Valid() {
      cmClients.Length == CM_MAX_CLIENT
    }

    method Search(p: Slot -> bool) returns (i: nat)
      ensures i == First(cmClients[..], p)
    {
      i := 0;
      while i < cmClients.Length && !p(cmClients[i])
        invariant i <= cmClients.Length && First(cmClients[..], p) == i + First(cmClients[i..], p)
      {
        assert cmClients[i..][0] == cmClients[i] && cmClients[i..][1..] == cmClients[i + 1..];
        i := i + 1;
      }
      assert i < cmClients.Length ==> cmClients[i..][0] == cmClients[i];
    }

    /** handle_client_connect with the result of accept(). */
    method ClientConnect(clientFd: int) returns (r: int)
      modifies cmClients
      ensures cmClients[..] == Next(old(cmClients[..]), Connect(clientFd))
      ensures r == if clientFd >= 0 && First(old(cmClients[..]), Unused()) < cmClients.Length then 0 else -1
    {
      if clientFd < 0 {
        return -1;
      }
      var i := Search(Unused());
      if i < cmClients.Length {
        cmClients[i] := Slot(clientFd, i + 1);
        return 0;
      }
      return -1;
    }

    /** handle_client_disconnect. */
    method ClientDisconnect(clientFd: int)
      modifies cmClients
      ensures cmClients[..] == Next(old(cmClients[..]), Disconnect(clientFd))
    {
      var i := Search(Of(clientFd));
      if i < cmClients.Length {
        if cmClients[i].fd > 0 {
          cmClients[i] := cmClients[i].(fd := -1);
        }
      }
    }

    /** handle_client_request. */
    method ClientRequest(clientFd: int, msg: Message) returns (sent: seq<Sent>)
      ensures sent == Output(cmClients[..], Request(clientFd, msg))
    {
      var i := Search(Of(clientFd));
      if i == cmClients.Length {
        return [];
      }
      if msg.kind == MBIM_OPEN_MSG || msg.kind == MBIM_CLOSE_MSG {
        return [ToClient(clientFd, Message(msg.kind + 0x8000_0000, msg.tid, STATUS_OK))];
      }
      return [ToDevice(msg.(tid := Tag(msg.tid, cmClients[i].idx)))];
    }

    /** handle_device_response. */
    method DeviceResponse(msg: Message) returns (sent: seq<Sent>)
      ensures sent == Output(cmClients[..], Response(msg))
    {
      sent := [];
      var i := 0;
      if msg.tid == 0 {
        while i < cmClients.Length
          invariant i <= cmClients.Length && sent == Broadcast(cmClients[..i], msg)
        {
          assert cmClients[..i + 1][..i] == cmClients[..i];
          if cmClients[i].fd > 0 {
            sent := sent + [ToClient(cmClients[i].fd, msg)];
          }
          i := i + 1;
        }
        assert cmClients[..i] == cmClients[..];
      } else {
        i := Search(Numbered(msg.tid / TID_LIMIT));
        if i < cmClients.Length {
          sent := [ToClient(cmClients[i].fd, msg.(tid := msg.tid % TID_LIMIT))];
        }
      }
    }
  }
}
