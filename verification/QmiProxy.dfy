/**
  quectel-qmi-proxy.c once its server is up: many clients share one modem, which answers one
  control request at a time.  Control requests wait in a queue; the modem's answers carry no
  client, so the proxy must pair them with the queue.
 */
module QmiProxy {
  import opened Bytes
  import opened QList

  const GET_CLIENT_ID := 0x22
  const RELEASE_CLIENT_ID := 0x23
  const REVOKE_CLIENT_ID := 0x24
  const SYNC_REQ := 0x27

  /** A QMI service client: the service and the id the modem gave out for it. */
  datatype Client = Client(qmiType: nat, id: nat)

  datatype Conn = Conn(fd: int, clients: seq<Client>)

  /** Frames from the modem: control frames, with the outcome and client fields some of them carry, and service frames. */
  datatype DevFrame =
    | Ctl(response: bool, ctlType: nat, ok: bool, client: Client, body: seq<byte>)
    | Svc(client: Client, body: seq<byte>)

  datatype Request = CtlRequest(ctlType: nat, body: seq<byte>) | SvcRequest(body: seq<byte>)

  datatype Asked = Asked(fd: int, request: Request)
  datatype Sent = Sent(fd: int, frame: DevFrame)

  /**
    The proxy with everything it has sent.  The last two fields are history: every control request
    accepted, and every control response that was taken as an answer.
   */
  datatype Proxy = Proxy(
    conns: seq<Conn>, queue: seq<Asked>, ctlToDevice: seq<Asked>, svcToDevice: seq<Asked>,
    ctlToClients: seq<Sent>, svcToClients: seq<Sent>, reset: bool, asked: seq<Asked>, answers: seq<DevFrame>)

  datatype Event =
    | FromDevice(frame: DevFrame)
    | FromClient(fd: int, request: Request)
    | Accept(fd: int)
    | Disconnect(fd: int)

  const START := Proxy([], [], [], [], [], [], false, [], [])

  function Repeat<T>(x: T, n: nat): (s: seq<T>)
    ensures |s| == n && forall i :: 0 <= i < n ==> s[i] == x
  {
    seq(n, i => x)
  }

  function OnFd(fd: int): Conn -> bool { (c: Conn) => c.fd == fd }
  function SentBy(fd: int): Asked -> bool { (m: Asked) => m.fd == fd }
  function Is(c: Client): Client -> bool { d => d == c }

  /** How many connections have this descriptor. */
  function Matches(conns: seq<Conn>, fd: int): nat {
    if conns == [] then 0 else (if conns[0].fd == fd then 1 else 0) + Matches(conns[1..], fd)
  }

  /** get_client_id and release_client_id on the connection that asked. */
  function Registered(c: Conn, f: DevFrame): Conn
    requires f.Ctl?
  {
    if !f.ok then c
    else if f.ctlType == GET_CLIENT_ID then c.(clients := c.clients + [f.client])
    else if f.ctlType == RELEASE_CLIENT_ID || f.ctlType == REVOKE_CLIENT_ID
    then c.(clients := DropWhere(c.clients, Is(f.client)))
    else c
  }

  function RegisteredAt(conns: seq<Conn>, fd: int, f: DevFrame): (cs: seq<Conn>)
    requires f.Ctl?
    ensures |cs| == |conns|
  {
    seq(|conns|, i requires 0 <= i < |conns| => if conns[i].fd == fd then Registered(conns[i], f) else conns[i])
  }

  /** Lines 326 to 352: a response goes to whoever sent the head of the queue. */
  function Answer(p: Proxy, f: DevFrame): Proxy
    requires f.Ctl? && p.queue != []
  {
    var fd := p.queue[0].fd;
    var n := Matches(p.conns, fd);
    p.(conns := RegisteredAt(p.conns, fd, f), queue := p.queue[1..],
       ctlToClients := p.ctlToClients + Repeat(Sent(fd, f), n),
       reset := p.reset || (n > 0 && f.ctlType == REVOKE_CLIENT_ID),
       answers := p.answers + [f])
  }

  /** Lines 354 to 364: whatever is now at the head of the queue goes to the device. */
  function SendHead(p: Proxy): Proxy {
    if p.queue == [] then p
    else p.(ctlToDevice := p.ctlToDevice + Repeat(p.queue[0], Matches(p.conns, p.queue[0].fd)))
  }

  predicate Wants(c: Client, f: DevFrame)
    requires f.Svc?
  {
    f.client.qmiType == c.qmiType && (f.client.id == 0 || f.client.id == c.id)
  }

  function RouteTo(fd: int, cs: seq<Client>, f: DevFrame): seq<Sent>
    requires f.Svc?
  {
    if cs == [] then [] else RouteTo(fd, cs[..|cs| - 1], f) + (if Wants(cs[|cs| - 1], f) then [Sent(fd, f)] else [])
  }

  /** Lines 367 to 378: a service frame goes to every client of its service that it names. */
  function Route(conns: seq<Conn>, f: DevFrame): seq<Sent>
    requires f.Svc?
  {
    if conns == [] then []
    else Route(conns[..|conns| - 1], f) + RouteTo(conns[|conns| - 1].fd, conns[|conns| - 1].clients, f)
  }

  function Next(p: Proxy, e: Event): (q: Proxy)
    ensures p.ctlToDevice <= q.ctlToDevice && p.ctlToClients <= q.ctlToClients && p.svcToClients <= q.svcToClients
  {
    match e
    case FromDevice(f) =>
      if f.Svc? then p.(svcToClients := p.svcToClients + Route(p.conns, f))
      else SendHead(if f.response && p.queue != [] then Answer(p, f) else p)
    case FromClient(fd, r) =>
      if r.SvcRequest? then p.(svcToDevice := p.svcToDevice + [Asked(fd, r)])
      else if r.ctlType == SYNC_REQ then p
      else p.(ctlToDevice := p.ctlToDevice + (if p.queue == [] then [Asked(fd, r)] else []),
              queue := p.queue + [Asked(fd, r)], asked := p.asked + [Asked(fd, r)])
    case Accept(fd) => p.(conns := p.conns + [Conn(fd, [])])
    case Disconnect(fd) =>
      if Matches(p.conns, fd) == 0 then p
      else p.(conns := DropWhere(p.conns, OnFd(fd)), queue := DropWhere(p.queue, SentBy(fd)))
  }

  function Run(p: Proxy, es: seq<Event>): Proxy {
    if es == [] then p else Next(Run(p, es[..|es| - 1]), es[|es| - 1])
  }

  // ---------- requests and answers are paired ----------

  /** No descriptor belongs to two connections. */
  ghost predicate OwnDescriptors(conns: seq<Conn>) {
    forall i, j :: 0 <= i < j < |conns| ==> conns[i].fd != conns[j].fd
  }

  ghost predicate Connected(conns: seq<Conn>, fd: int) {
    exists i :: 0 <= i < |conns| && conns[i].fd == fd
  }

  /** Every queued request has a sender to answer, and only one. */
  ghost predicate Attended(p: Proxy) {
    OwnDescriptors(p.conns) && forall i :: 0 <= i < |p.queue| ==> Connected(p.conns, p.queue[i].fd)
  }

  /**
    Requests reached the device once each, in order, up to the one that is outstanding, which is the
    head of the queue; and the n-th response went to the sender of the n-th request.
   */
  ghost predicate Paired(p: Proxy) {
    && Attended(p)
    && |p.answers| <= |p.asked| && p.queue == p.asked[|p.answers|..]
    && p.ctlToDevice == p.asked[..|p.answers| + (if p.queue == [] then 0 else 1)]
    && |p.ctlToClients| == |p.answers|
    && forall i :: 0 <= i < |p.answers| ==> p.ctlToClients[i] == Sent(p.asked[i].fd, p.answers[i])
  }

  /** What the pairing needs of an event; a caller can tell all of it before the event. */
  ghost predicate Orderly(p: Proxy, e: Event) {
    match e
    case FromDevice(f) => f.Ctl? && !f.response ==> p.queue == []
    case FromClient(fd, r) => r.CtlRequest? && r.ctlType != SYNC_REQ ==> Connected(p.conns, fd)
    case Accept(fd) => !Connected(p.conns, fd)
    case Disconnect(fd) => forall i :: 0 <= i < |p.queue| ==> p.queue[i].fd != fd
  }

  lemma {:induction false} MatchesCounts(conns: seq<Conn>, fd: int)
    ensures Matches(conns, fd) == 0 <==> !Connected(conns, fd)
    ensures OwnDescriptors(conns) ==> Matches(conns, fd) <= 1
  {
    if conns != [] {
      MatchesCounts(conns[1..], fd);
      if Connected(conns[1..], fd) {
        var i :| 0 <= i < |conns[1..]| && conns[1..][i].fd == fd;
        assert conns[i + 1].fd == fd;
      } else if Connected(conns, fd) {
        var i :| 0 <= i < |conns| && conns[i].fd == fd;
        assert i > 0 ==> conns[1..][i - 1].fd == fd;
      }
    }
  }

  lemma SameDescriptors(cs: seq<Conn>, ds: seq<Conn>, fd: int)
    requires |cs| == |ds| && forall i :: 0 <= i < |cs| ==> cs[i].fd == ds[i].fd
    ensures Connected(cs, fd) <==> Connected(ds, fd)
  {
  }

  /** One answer taken, nothing sent to the device yet. */
  lemma AnswerPairs(p: Proxy, f: DevFrame)
    requires Paired(p) && f.Ctl? && p.queue != []
    ensures var q := Answer(p, f);
            && Attended(q)
            && |q.answers| <= |q.asked| && q.queue == q.asked[|q.answers|..]
            && q.ctlToDevice == q.asked[..|q.answers|]
            && |q.ctlToClients| == |q.answers|
            && forall i :: 0 <= i < |q.answers| ==> q.ctlToClients[i] == Sent(q.asked[i].fd, q.answers[i])
  {
    var q := Answer(p, f);
    var fd := p.queue[0].fd;
    MatchesCounts(p.conns, fd);
    assert Connected(p.conns, p.queue[0].fd);
    forall i | 0 <= i < |p.conns|
      ensures q.conns[i].fd == p.conns[i].fd
    {
    }
    forall i | 0 <= i < |q.queue|
      ensures Connected(q.conns, q.queue[i].fd)
    {
      assert q.queue[i] == p.queue[i + 1];
      SameDescriptors(p.conns, q.conns, q.queue[i].fd);
    }
    assert p.queue[0] == p.asked[|p.answers|];
  }

  lemma SendHeadPairs(p: Proxy)
    requires Attended(p)
    requires |p.answers| <= |p.asked| && p.queue == p.asked[|p.answers|..]
    ensures var q := SendHead(p);
            q == p.(ctlToDevice := p.ctlToDevice + (if p.queue == [] then [] else [p.asked[|p.answers|]]))
  {
    if p.queue != [] {
      MatchesCounts(p.conns, p.queue[0].fd);
      assert Connected(p.conns, p.queue[0].fd);
      assert p.queue[0] == p.asked[|p.answers|];
    } else {
      assert p.ctlToDevice + [] == p.ctlToDevice;
    }
  }

  lemma {:induction false} DropWhereLength<T>(s: seq<T>, p: T -> bool)
    ensures (forall i :: 0 <= i < |s| ==> !p(s[i])) ==> DropWhere(s, p) == s
    ensures (exists i :: 0 <= i < |s| && p(s[i])) ==> |DropWhere(s, p)| == |s| - 1
  {
    if s != [] && !p(s[0]) {
      DropWhereLength(s[1..], p);
      if i :| 0 <= i < |s| && p(s[i]) {
        assert p(s[1..][i - 1]);
      }
    }
  }

  /** Without the one connection of descriptor fd, the others are still connected and distinct. */
  lemma {:induction false} DropConnection(conns: seq<Conn>, fd: int)
    ensures var cs := DropWhere(conns, OnFd(fd));
            && (OwnDescriptors(conns) ==> OwnDescriptors(cs))
            && (forall other :: other != fd && Connected(conns, other) ==> Connected(cs, other))
            && (forall c :: c in cs ==> c in conns)
  {
    var p := OnFd(fd);
    if conns == [] {
    } else if p(conns[0]) {
      forall other | other != fd && Connected(conns, other)
        ensures Connected(conns[1..], other)
      {
        var i :| 0 <= i < |conns| && conns[i].fd == other;
        assert conns[1..][i - 1].fd == other;
      }
    } else {
      DropConnection(conns[1..], fd);
      var ds := DropWhere(conns[1..], p);
      var cs := [conns[0]] + ds;
      forall other | other != fd && Connected(conns, other)
        ensures Connected(cs, other)
      {
        var i :| 0 <= i < |conns| && conns[i].fd == other;
        if i == 0 {
          assert cs[0].fd == other;
        } else {
          assert conns[1..][i - 1].fd == other;
          assert Connected(conns[1..], other) && Connected(ds, other);
          var j :| 0 <= j < |ds| && ds[j].fd == other;
          assert cs[j + 1].fd == other;
        }
      }
      if OwnDescriptors(conns) {
        forall j | 0 <= j < |ds|
          ensures ds[j].fd != conns[0].fd
        {
          assert ds[j] in conns[1..];
        }
      }
    }
  }

  lemma FromDevicePairs(p: Proxy, f: DevFrame)
    requires Paired(p) && f.Ctl?
    ensures Paired(Next(p, FromDevice(f))) <==> Orderly(p, FromDevice(f))
  {
    if f.response && p.queue != [] {
      AnswerPairs(p, f);
      SendHeadPairs(Answer(p, f));
      var q := Answer(p, f);
      assert q.queue != [] ==> q.asked[..|q.answers|] + [q.asked[|q.answers|]] == q.asked[..|q.answers| + 1];
    } else {
      SendHeadPairs(p);
    }
  }

  lemma FromClientPairs(p: Proxy, fd: int, r: Request)
    requires Paired(p)
    ensures Paired(Next(p, FromClient(fd, r))) <==> Orderly(p, FromClient(fd, r))
  {
    if r.CtlRequest? && r.ctlType != SYNC_REQ {
      var q, a := Next(p, FromClient(fd, r)), Asked(fd, r);
      hide Matches, Connected, OwnDescriptors;
      assert q.asked[|p.answers|..] == p.asked[|p.answers|..] + [a];
      if p.queue == [] {
        assert q.asked[..|p.answers| + 1] == p.asked[..|p.answers|] + [a];
      } else {
        assert q.asked[..|p.answers| + 1] == p.asked[..|p.answers| + 1];
      }
      AskAttended(p, fd, r);
    }
  }

  lemma AskAttended(p: Proxy, fd: int, r: Request)
    requires Attended(p) && r.CtlRequest? && r.ctlType != SYNC_REQ
    ensures Attended(Next(p, FromClient(fd, r))) <==> Connected(p.conns, fd)
  {
    hide Connected, OwnDescriptors;
    var q := Next(p, FromClient(fd, r));
    assert q.queue[|p.queue|].fd == fd;
    assert forall i :: 0 <= i < |p.queue| ==> q.queue[i] == p.queue[i];
  }

  lemma DisconnectPairs(p: Proxy, fd: int)
    requires Paired(p)
    ensures Paired(Next(p, Disconnect(fd))) <==> Orderly(p, Disconnect(fd))
  {
    var queued := SentBy(fd);
    MatchesCounts(p.conns, fd);
    DropConnection(p.conns, fd);
    DropWhereLength(p.queue, queued);
    if !Orderly(p, Disconnect(fd)) {
      var i :| 0 <= i < |p.queue| && p.queue[i].fd == fd;
      assert queued(p.queue[i]) && Connected(p.conns, p.queue[i].fd);
    }
  }

  /** One event keeps the pairing if and only if it is orderly. */
  lemma StepPaired(p: Proxy, e: Event)
    requires Paired(p)
    ensures Paired(Next(p, e)) <==> Orderly(p, e)
  {
    match e {
      case FromDevice(f) =>
        if f.Ctl? {
          FromDevicePairs(p, f);
        }
      case FromClient(fd, r) =>
        FromClientPairs(p, fd, r);
      case Accept(fd) =>
        AcceptAttended(p, fd);
      case Disconnect(fd) =>
        DisconnectPairs(p, fd);
    }
  }

  lemma AcceptAttended(p: Proxy, fd: int)
    requires Attended(p)
    ensures Attended(Next(p, Accept(fd))) <==> !Connected(p.conns, fd)
  {
    var q := Next(p, Accept(fd));
    assert q.conns[|p.conns|].fd == fd;
    forall i | 0 <= i < |p.queue|
      ensures Connected(q.conns, p.queue[i].fd)
    {
      assert Connected(p.conns, p.queue[i].fd);
      var j :| 0 <= j < |p.conns| && p.conns[j].fd == p.queue[i].fd;
      assert q.conns[j].fd == p.queue[i].fd;
    }
    if Connected(p.conns, fd) {
      var j :| 0 <= j < |p.conns| && p.conns[j].fd == fd;
      assert q.conns[j].fd == q.conns[|p.conns|].fd;
    }
  }

  /** Every event of the run is orderly where it happens. */
  ghost predicate AllOrderly(es: seq<Event>) {
    es == [] || (AllOrderly(es[..|es| - 1]) && Orderly(Run(START, es[..|es| - 1]), es[|es| - 1]))
  }

  /** Over every run: pairing holds throughout if and only if every event was orderly. */
  lemma {:induction false} RunPaired(es: seq<Event>)
    ensures AllOrderly(es) <==> forall k :: 0 <= k <= |es| ==> Paired(Run(START, es[..k]))
  {
    hide Paired, Orderly, Next;
    if es == [] {
      StartIsPaired();
      assert es[..0] == [];
    } else {
      var before := es[..|es| - 1];
      RunPaired(before);
      assert es[..|es|] == es && before[..|before|] == before;
      assert forall k :: 0 <= k <= |before| ==> es[..k] == before[..k];
      if Paired(Run(START, before)) {
        StepPaired(Run(START, before), es[|es| - 1]);
      }
      if AllOrderly(es) {
        forall k | 0 <= k <= |es|
          ensures Paired(Run(START, es[..k]))
        {
          assert k <= |before| ==> es[..k] == before[..k];
        }
      }
    }
  }

  lemma StartIsPaired()
    ensures Paired(START)
  {
  }

  lemma TwoAsk(a: Request, b: Request)
    requires a.CtlRequest? && b.CtlRequest? && a.ctlType != SYNC_REQ && b.ctlType != SYNC_REQ
    ensures var p := Next(Next(Next(Next(START, Accept(5)), Accept(6)), FromClient(5, a)), FromClient(6, b));
            && p.conns == [Conn(5, []), Conn(6, [])] && p.queue == [Asked(5, a), Asked(6, b)]
            && p.ctlToDevice == [Asked(5, a)] && p.ctlToClients == []
  {
  }

  lemma HeadLeaves(p: Proxy, a: Asked, b: Asked, answer: DevFrame)
    requires p.conns == [Conn(a.fd, []), Conn(b.fd, [])] && p.queue == [a, b] && a.fd != b.fd
    requires answer.Ctl? && answer.response
    ensures var q := Next(Next(p, Disconnect(a.fd)), FromDevice(answer));
            q.ctlToDevice == p.ctlToDevice && q.ctlToClients == p.ctlToClients + [Sent(b.fd, answer)] && q.queue == []
  {
    hide Registered;
    DropWhereAt(p.conns, OnFd(a.fd), 0);
    DropWhereAt(p.queue, SentBy(a.fd), 0);
    MatchesCounts(p.conns, a.fd);
    assert p.conns[0].fd == a.fd;
    var q := Next(p, Disconnect(a.fd));
    assert q.conns == [Conn(b.fd, [])] && q.queue == [b];
    assert Matches(q.conns, b.fd) == 1 + Matches([], b.fd);
  }

  /** Why a client with a queued request must not leave: its answer then goes to the next in line, whose request is never sent. */
  lemma DisconnectMisroutes(a: Request, b: Request, answer: DevFrame)
    requires a.CtlRequest? && b.CtlRequest? && a.ctlType != SYNC_REQ && b.ctlType != SYNC_REQ
    requires answer.Ctl? && answer.response
    ensures var p := Run(START, [Accept(5), Accept(6), FromClient(5, a), FromClient(6, b), Disconnect(5), FromDevice(answer)]);
            p.ctlToDevice == [Asked(5, a)] && p.ctlToClients == [Sent(6, answer)] && p.queue == []
  {
    hide Run, Next;
    TwoAsk(a, b);
    var p := Next(Next(Next(Next(START, Accept(5)), Accept(6)), FromClient(5, a)), FromClient(6, b));
    HeadLeaves(p, Asked(5, a), Asked(6, b), answer);
    var e1 := [] + [Accept(5)];
    var e2 := e1 + [Accept(6)];
    var e3 := e2 + [FromClient(5, a)];
    var e4 := e3 + [FromClient(6, b)];
    var e5 := e4 + [Disconnect(5)];
    RunOne([], Accept(5));
    RunOne(e1, Accept(6));
    RunOne(e2, FromClient(5, a));
    RunOne(e3, FromClient(6, b));
    RunOne(e4, Disconnect(5));
    RunOne(e5, FromDevice(answer));
    assert e5 + [FromDevice(answer)] ==
           [Accept(5), Accept(6), FromClient(5, a), FromClient(6, b), Disconnect(5), FromDevice(answer)];
  }

  lemma RunOne(es: seq<Event>, e: Event)
    ensures Run(START, []) == START && Run(START, es + [e]) == Next(Run(START, es), e)
  {
  }

  // ---------- answers go to the sender of the request that the device answered ----------

  /**
    The n-th response went to the sender of the n-th request that reached the device; a request is
    outstanding there exactly while the queue is not empty, and it is the head of the queue.  Whoever
    waits in the queue is connected, so that its turn will come.
   */
  ghost predicate Routed(p: Proxy) {
    && Attended(p)
    && |p.ctlToClients| == |p.answers| && |p.ctlToDevice| == |p.answers| + (if p.queue == [] then 0 else 1)
    && (p.queue != [] ==> p.ctlToDevice[|p.answers|] == p.queue[0])
    && forall i :: 0 <= i < |p.answers| ==> p.ctlToClients[i] == Sent(p.ctlToDevice[i].fd, p.answers[i])
  }

  /** How many requests of one client are in the queue. */
  function Waiting(queue: seq<Asked>, fd: int): nat {
    if queue == [] then 0 else (if queue[0].fd == fd then 1 else 0) + Waiting(queue[1..], fd)
  }

  /**
    What routing needs of an event.  A client may leave unless its request is the outstanding one, or it
    has a second one waiting: cleanup removes one only.
   */
  ghost predicate Harmless(p: Proxy, e: Event) {
    match e
    case Disconnect(fd) =>
      Connected(p.conns, fd) ==> (p.queue != [] ==> p.queue[0].fd != fd) && Waiting(p.queue, fd) <= 1
    case _ => Orderly(p, e)
  }

  lemma {:induction false} WaitingCounts(queue: seq<Asked>, fd: int)
    ensures Waiting(queue, fd) == 0 <==> forall i :: 0 <= i < |queue| ==> queue[i].fd != fd
    ensures Waiting(DropWhere(queue, SentBy(fd)), fd) == if Waiting(queue, fd) == 0 then 0 else Waiting(queue, fd) - 1
    ensures forall m :: m in DropWhere(queue, SentBy(fd)) ==> m in queue
  {
    if queue != [] {
      WaitingCounts(queue[1..], fd);
      if i :| 0 <= i < |queue| && queue[i].fd == fd {
        assert i > 0 ==> queue[1..][i - 1].fd == fd;
      }
    }
  }

  lemma {:induction false} StillConnected(conns: seq<Conn>, fd: int, other: int)
    requires OwnDescriptors(conns) && Connected(conns, fd)
    ensures Connected(DropWhere(conns, OnFd(fd)), other) <==> other != fd && Connected(conns, other)
  {
    var p := OnFd(fd);
    if !p(conns[0]) {
      var i :| 0 <= i < |conns| && conns[i].fd == fd;
      assert conns[1..][i - 1].fd == fd;
      StillConnected(conns[1..], fd, other);
      assert DropWhere(conns, p) == [conns[0]] + DropWhere(conns[1..], p);
      ConnectedCons(conns[0], DropWhere(conns[1..], p), other);
    }
    ConnectedCons(conns[0], conns[1..], other);
    assert conns == [conns[0]] + conns[1..];
    OnlyOne(conns);
  }

  lemma OnlyOne(conns: seq<Conn>)
    requires OwnDescriptors(conns) && conns != []
    ensures !Connected(conns[1..], conns[0].fd)
  {
  }

  lemma ConnectedCons(c: Conn, cs: seq<Conn>, fd: int)
    ensures Connected([c] + cs, fd) <==> c.fd == fd || Connected(cs, fd)
  {
    if Connected(cs, fd) {
      var i :| 0 <= i < |cs| && cs[i].fd == fd;
      assert ([c] + cs)[i + 1].fd == fd;
    }
    if c.fd == fd {
      assert ([c] + cs)[0].fd == fd;
    }
    if Connected([c] + cs, fd) && c.fd != fd {
      var i :| 0 <= i < |[c] + cs| && ([c] + cs)[i].fd == fd;
      assert cs[i - 1].fd == fd;
    }
  }

  /** A client leaves: every queued sender stays attended if and only if no request of its own is left. */
  lemma DisconnectAttended(p: Proxy, fd: int)
    requires Attended(p) && Connected(p.conns, fd)
    ensures var q := Next(p, Disconnect(fd));
            && OwnDescriptors(q.conns)
            && (forall i :: 0 <= i < |q.queue| ==> (Connected(q.conns, q.queue[i].fd) <==> q.queue[i].fd != fd))
            && (Waiting(q.queue, fd) == 0 <==> Waiting(p.queue, fd) <= 1)
            && (Attended(q) <==> Waiting(p.queue, fd) <= 1)
  {
    MatchesCounts(p.conns, fd);
    var q := Next(p, Disconnect(fd));
    DropConnection(p.conns, fd);
    WaitingCounts(p.queue, fd);
    WaitingCounts(q.queue, fd);
    forall i | 0 <= i < |q.queue|
      ensures Connected(q.conns, q.queue[i].fd) <==> q.queue[i].fd != fd
    {
      assert q.queue[i] in p.queue;
      StillConnected(p.conns, fd, q.queue[i].fd);
    }
  }

  lemma DisconnectRoutes(p: Proxy, fd: int)
    requires Routed(p)
    ensures Routed(Next(p, Disconnect(fd))) <==> Harmless(p, Disconnect(fd))
  {
    MatchesCounts(p.conns, fd);
    if Connected(p.conns, fd) {
      var q := Next(p, Disconnect(fd));
      DisconnectAttended(p, fd);
      WaitingCounts(p.queue, fd);
      if p.queue != [] && p.queue[0].fd == fd && q.queue != [] {
        assert SentBy(fd)(p.queue[0]) && q.queue == p.queue[1..];
      }
    }
  }

  lemma AnswerRoutes(p: Proxy, f: DevFrame)
    requires Routed(p) && f.Ctl? && f.response
    ensures Routed(Next(p, FromDevice(f)))
  {
    if p.queue != [] {
      var a := Answer(p, f);
      MatchesCounts(p.conns, p.queue[0].fd);
      assert Connected(p.conns, p.queue[0].fd);
      forall fd
        ensures Connected(a.conns, fd) <==> Connected(p.conns, fd)
      {
        SameDescriptors(p.conns, a.conns, fd);
      }
      assert forall i :: 0 <= i < |a.queue| ==> a.queue[i] == p.queue[i + 1];
      assert a.ctlToClients[|p.answers|] == Sent(p.queue[0].fd, f);
      if a.queue != [] {
        MatchesCounts(a.conns, a.queue[0].fd);
        assert Connected(a.conns, a.queue[0].fd);
      }
    }
  }

  /** One event keeps the routing if and only if it is harmless. */
  lemma StepRouted(p: Proxy, e: Event)
    requires Routed(p)
    ensures Routed(Next(p, e)) <==> Harmless(p, e)
  {
    match e {
      case FromDevice(f) =>
        if f.Ctl? && f.response {
          AnswerRoutes(p, f);
        } else if f.Ctl? && p.queue != [] {
          MatchesCounts(p.conns, p.queue[0].fd);
          assert Connected(p.conns, p.queue[0].fd);
        }
      case FromClient(fd, r) =>
        if r.CtlRequest? && r.ctlType != SYNC_REQ {
          assert Next(p, e).queue[|p.queue|].fd == fd;
        }
      case Accept(fd) => AcceptAttended(p, fd);
      case Disconnect(fd) => DisconnectRoutes(p, fd);
    }
  }

  ghost predicate AllHarmless(es: seq<Event>) {
    es == [] || (AllHarmless(es[..|es| - 1]) && Harmless(Run(START, es[..|es| - 1]), es[|es| - 1]))
  }

  /** Over every run: routing holds throughout if and only if every event was harmless. */
  lemma {:induction false} RunRouted(es: seq<Event>)
    ensures AllHarmless(es) <==> forall k :: 0 <= k <= |es| ==> Routed(Run(START, es[..k]))
  {
    hide Routed, Harmless, Next;
    if es == [] {
      StartIsRouted();
      assert es[..0] == [];
    } else {
      var before := es[..|es| - 1];
      RunRouted(before);
      assert es[..|es|] == es && before[..|before|] == before;
      assert forall k :: 0 <= k <= |before| ==> es[..k] == before[..k];
      if Routed(Run(START, before)) {
        StepRouted(Run(START, before), es[|es| - 1]);
      }
      if AllHarmless(es) {
        forall k | 0 <= k <= |es|
          ensures Routed(Run(START, es[..k]))
        {
          assert k <= |before| ==> es[..k] == before[..k];
        }
      }
    }
  }

  lemma StartIsRouted()
    ensures Routed(START)
  {
  }

  /** At most one control request is ever outstanding, and it is the head of the queue. */
  lemma OneOutstanding(es: seq<Event>)
    requires AllHarmless(es)
    ensures var p := Run(START, es);
            && |p.answers| <= |p.ctlToDevice| <= |p.answers| + 1
            && (|p.ctlToDevice| == |p.answers| + 1 <==> p.queue != [])
            && (p.queue != [] ==> p.ctlToDevice[|p.answers|] == p.queue[0])
  {
    RunRouted(es);
    assert es[..|es|] == es;
    var p := Run(START, es);
    assert Routed(p);
  }

  /**
    Why a client with two waiting requests must not leave: the second stays, and once it is at the head
    it is never sent, nor is any request behind it, until the device speaks first.
   */
  lemma SecondRequestStalls(p: Proxy, fd: int, r: Request)
    requires p.queue != [] && !Connected(p.conns, p.queue[0].fd) && r.CtlRequest? && r.ctlType != SYNC_REQ
    ensures Next(p, FromClient(fd, r)).ctlToDevice == p.ctlToDevice && Next(p, FromClient(fd, r)).queue[0] == p.queue[0]
    ensures SendHead(p).ctlToDevice == p.ctlToDevice
  {
    MatchesCounts(p.conns, p.queue[0].fd);
  }

  // ---------- the program, with its request queue on the heap ----------

  class Server {
    const ctl: List<Asked>
    var conns: seq<Conn>
    var ctlToDevice: seq<Asked>
    var svcToDevice: seq<Asked>
    var ctlToClients: seq<Sent>
    var svcToClients: seq<Sent>
    var reset: bool
    ghost var asked: seq<Asked>
    ghost var answers: seq<DevFrame>

    constructor ()
      ensures Valid() && View() == START && fresh(ctl) && fresh(ctl.nodes)
    {
      ctl := new List(Asked(-1, SvcRequest([])));
      conns, ctlToDevice, svcToDevice, ctlToClients, svcToClients := [], [], [], [], [];
      reset, asked, answers := false, [], [];
    }

    ghost predicate Valid()
      reads ctl, ctl.nodes
    {
      ctl.Valid()
    }

    ghost function View(): Proxy
      requires Valid()
      reads this, ctl, ctl.nodes
    {
      Proxy(conns, ctl.Items(), ctlToDevice, svcToDevice, ctlToClients, svcToClients, reset, asked, answers)
    }

    /** recv_qmi_from_client. */
    method RecvFromClient(fd: int, r: Request)
      requires Valid()
      modifies this, ctl, ctl.nodes
      ensures Valid() && View() == Next(old(View()), FromClient(fd, r))
      ensures svcToDevice == old(svcToDevice) + (if r.SvcRequest? then [Asked(fd, r)] else [])
      ensures forall x :: x in ctl.nodes ==> x in old(ctl.nodes) || fresh(x)
    {
      hide List.Items, List.Valid;
      if r.CtlRequest? {
        if r.ctlType == SYNC_REQ {
          return;
        }
        var empty := ctl.Empty();
        if empty {
          ctlToDevice := ctlToDevice + [Asked(fd, r)];
        }
        ctl.Append(Asked(fd, r));
        asked := asked + [Asked(fd, r)];
      } else {
        svcToDevice := svcToDevice + [Asked(fd, r)];
      }
    }

    /** Lines 330 to 347: the loop over the connections that delivers a response. */
    method DeliverAnswer(fd: int, f: DevFrame)
      requires f.Ctl?
      modifies this`conns, this`ctlToClients, this`reset
      ensures conns == RegisteredAt(old(conns), fd, f)
      ensures ctlToClients == old(ctlToClients) + Repeat(Sent(fd, f), Matches(old(conns), fd))
      ensures reset == (old(reset) || (Matches(old(conns), fd) > 0 && f.ctlType == REVOKE_CLIENT_ID))
    {
      var i := 0;
      while i < |conns|
        invariant i <= |conns| == |old(conns)|
        invariant forall k :: 0 <= k < |conns| ==> conns[k] == if k < i then RegisteredAt(old(conns), fd, f)[k] else old(conns)[k]
        invariant ctlToClients == old(ctlToClients) + Repeat(Sent(fd, f), Matches(old(conns)[..i], fd))
        invariant reset == (old(reset) || (Matches(old(conns)[..i], fd) > 0 && f.ctlType == REVOKE_CLIENT_ID))
      {
        MatchesLast(old(conns), i, fd);
        if conns[i].fd == fd {
          ctlToClients := ctlToClients + [Sent(fd, f)];
          conns := conns[i := Registered(conns[i], f)];
          if f.ctlType == REVOKE_CLIENT_ID {
            reset := true;
          }
        }
        i := i + 1;
      }
      assert old(conns)[..i] == old(conns);
    }

    /** Lines 354 to 364: the loop that sends the head of the queue once for every connection of its sender. */
    method SendHeadToDevice()
      requires Valid()
      modifies this`ctlToDevice
      ensures View() == SendHead(old(View()))
    {
      hide List.Items, List.Valid;
      var empty := ctl.Empty();
      if !empty {
        var m := ctl.First();
        var i := 0;
        while i < |conns|
          invariant i <= |conns|
          invariant ctlToDevice == old(ctlToDevice) + Repeat(m, Matches(conns[..i], m.fd))
        {
          MatchesLast(conns, i, m.fd);
          if conns[i].fd == m.fd {
            ctlToDevice := ctlToDevice + [m];
          }
          i := i + 1;
        }
        assert conns[..i] == conns;
      }
    }

    /** Lines 327 to 351: the head of the queue, if any, is answered and leaves. */
    method TakeAnswer(f: DevFrame)
      requires Valid() && f.Ctl?
      modifies this, ctl, ctl.nodes
      ensures Valid() && View() == (if old(View()).queue != [] then Answer(old(View()), f) else old(View()))
      ensures forall x :: x in ctl.nodes ==> x in old(ctl.nodes)
    {
      hide RegisteredAt, Matches, Repeat, List.Items, List.Valid;
      var empty := ctl.Empty();
      if !empty {
        var m := ctl.First();
        DeliverAnswer(m.fd, f);
        ctl.DropFirst();
        answers := answers + [f];
      }
    }

    /** recv_qmi_from_dev. */
    method RecvFromDev(f: DevFrame)
      requires Valid()
      modifies this, ctl, ctl.nodes
      ensures Valid() && View() == Next(old(View()), FromDevice(f))
      ensures forall x :: x in ctl.nodes ==> x in old(ctl.nodes)
    {
      hide Answer, SendHead, Route, List.Items, List.Valid;
      if f.Ctl? {
        if f.response {
          TakeAnswer(f);
        }
        SendHeadToDevice();
      } else {
        RouteFrame(f);
      }
    }

    /** Lines 371 to 376: the clients of one connection. */
    method RouteToClients(c: Conn, f: DevFrame)
      requires f.Svc?
      modifies this`svcToClients
      ensures svcToClients == old(svcToClients) + RouteTo(c.fd, c.clients, f)
    {
      var j := 0;
      while j < |c.clients|
        invariant j <= |c.clients| && svcToClients == old(svcToClients) + RouteTo(c.fd, c.clients[..j], f)
      {
        assert c.clients[..j + 1][..j] == c.clients[..j];
        if Wants(c.clients[j], f) {
          svcToClients := svcToClients + [Sent(c.fd, f)];
        }
        j := j + 1;
      }
      assert c.clients[..j] == c.clients;
    }

    /** Lines 367 to 378. */
    method RouteFrame(f: DevFrame)
      requires f.Svc?
      modifies this`svcToClients
      ensures svcToClients == old(svcToClients) + Route(conns, f)
    {
      hide RouteTo;
      var i := 0;
      while i < |conns|
        invariant i <= |conns| && svcToClients == old(svcToClients) + Route(conns[..i], f)
      {
        assert conns[..i + 1][..i] == conns[..i];
        RouteToClients(conns[i], f);
        i := i + 1;
      }
      assert conns[..i] == conns;
    }

    /** accept_qmi_connection. */
    method AcceptConnection(fd: int)
      requires Valid()
      modifies this`conns
      ensures View() == Next(old(View()), Accept(fd))
    {
      conns := conns + [Conn(fd, [])];
    }

    /** cleanup_qmi_connection: the first queued request of the connection goes too, and only that one. */
    method Cleanup(fd: int)
      requires Valid()
      modifies this, ctl, ctl.nodes
      ensures Valid() && View() == Next(old(View()), Disconnect(fd))
      ensures forall x :: x in ctl.nodes ==> x in old(ctl.nodes)
    {
      hide List.Items, List.Valid;
      var i := 0;
      while i < |conns|
        invariant i <= |conns| && conns == old(conns) && ctl.nodes == old(ctl.nodes) && Valid() && View() == old(View())
        invariant forall k :: 0 <= k < i ==> conns[k].fd != fd
      {
        if conns[i].fd == fd {
          MatchesCounts(conns, fd);
          DropWhereAt(conns, OnFd(fd), i);
          ctl.RemoveWhere(SentBy(fd));
          conns := conns[..i] + conns[i + 1..];
          return;
        }
        i := i + 1;
      }
      MatchesCounts(conns, fd);
    }
  }

  lemma MatchesLast(conns: seq<Conn>, i: nat, fd: int)
    requires i < |conns|
    ensures Matches(conns[..i + 1], fd) == Matches(conns[..i], fd) + (if conns[i].fd == fd then 1 else 0)
    decreases i
  {
    if i > 0 {
      MatchesLast(conns[1..], i - 1, fd);
      assert conns[..i + 1][1..] == conns[1..][..i] && conns[..i][1..] == conns[1..][..i - 1];
    }
  }
}
