/** Service traffic through the QMI proxy: what reaches the modem and which clients its frames reach, field by field. */
module QmiService {
  import opened Bytes
  import opened QList
  import opened QmiProxy

  // ---------- from clients to the modem ----------

  function ServiceRequests(es: seq<Event>): seq<Asked> {
    if es == [] then []
    else
      var e := es[|es| - 1];
      ServiceRequests(es[..|es| - 1]) + (if e.FromClient? && e.request.SvcRequest? then [Asked(e.fd, e.request)] else [])
  }

  /** Control requests but synchronisation, which the proxy keeps for itself. */
  function ControlRequests(es: seq<Event>): seq<Asked> {
    if es == [] then []
    else
      var e := es[|es| - 1];
      ControlRequests(es[..|es| - 1]) +
        (if e.FromClient? && e.request.CtlRequest? && e.request.ctlType != 0x27 then [Asked(e.fd, e.request)] else [])
  }

  /** Over every run: the modem gets exactly the service requests, in order; the control requests are all accepted. */
  lemma {:induction false} RunRequests(es: seq<Event>)
    ensures Run(START, es).svcToDevice == ServiceRequests(es) && Run(START, es).asked == ControlRequests(es)
  {
    if es != [] {
      RunRequests(es[..|es| - 1]);
      var p, e := Run(START, es[..|es| - 1]), es[|es| - 1];
      assert p.svcToDevice + [] == p.svcToDevice && p.asked + [] == p.asked;
    }
  }

  // ---------- from the modem to clients ----------

  /** What one event sends to clients on the service channels. */
  function Delivered(p: Proxy, e: Event): seq<Sent> { Next(p, e).svcToClients[|p.svcToClients|..] }

  lemma {:induction false} ClientsNamed(fd: int, cs: seq<Client>, f: DevFrame) returns (to: seq<nat>)
    requires f.Svc?
    ensures |RouteTo(fd, cs, f)| == |to| && forall k :: 0 <= k < |to| ==> RouteTo(fd, cs, f)[k] == Sent(fd, f)
    ensures forall k :: 0 <= k < |to| ==> to[k] < |cs| && Wants(cs[to[k]], f)
    ensures forall j :: 0 <= j < |cs| && Wants(cs[j], f) ==> j in to
    ensures forall k, l :: 0 <= k < l < |to| ==> to[k] < to[l]
  {
    to := [];
    if cs != [] {
      to := ClientsNamed(fd, cs[..|cs| - 1], f);
      if Wants(cs[|cs| - 1], f) {
        to := to + [|cs| - 1];
      }
    }
  }

  lemma {:induction false} RouteNamed(conns: seq<Conn>, f: DevFrame) returns (to: seq<(nat, nat)>)
    requires f.Svc?
    ensures |Route(conns, f)| == |to|
    ensures forall k :: 0 <= k < |to| ==>
              var (i, j) := to[k];
              && i < |conns| && j < |conns[i].clients| && Route(conns, f)[k] == Sent(conns[i].fd, f) && Wants(conns[i].clients[j], f)
    ensures forall i, j :: 0 <= i < |conns| && 0 <= j < |conns[i].clients| && Wants(conns[i].clients[j], f) ==> (i, j) in to
    ensures forall k, l :: 0 <= k < l < |to| ==> to[k].0 < to[l].0 || (to[k].0 == to[l].0 && to[k].1 < to[l].1)
  {
    hide Wants, RouteTo;
    to := [];
    if conns != [] {
      var n := |conns| - 1;
      var before := RouteNamed(conns[..n], f);
      var js := ClientsNamed(conns[n].fd, conns[n].clients, f);
      var here := seq(|js|, k requires 0 <= k < |js| => (n, js[k]));
      to := before + here;
      assert Route(conns, f) == Route(conns[..n], f) + RouteTo(conns[n].fd, conns[n].clients, f);
      forall k | 0 <= k < |to|
        ensures to[k].0 < |conns| && to[k].1 < |conns[to[k].0].clients|
        ensures Route(conns, f)[k] == Sent(conns[to[k].0].fd, f) && Wants(conns[to[k].0].clients[to[k].1], f)
      {
        if k < |before| {
          assert to[k] == before[k] && conns[..n][to[k].0] == conns[to[k].0];
        } else {
          assert to[k] == here[k - |before|];
        }
      }
      forall i, j | 0 <= i < |conns| && 0 <= j < |conns[i].clients| && Wants(conns[i].clients[j], f)
        ensures (i, j) in to
      {
        if i < n {
          assert Wants(conns[..n][i].clients[j], f);
          assert (i, j) in before;
        } else {
          var k :| 0 <= k < |js| && js[k] == j;
          assert here[k] == (i, j);
        }
      }
    }
  }

  /**
    A service frame is sent once for every client of its service, on every connection, whose id it names or
    if it names none; in the order of the connections and of the clients on each; and nothing else happens.
   */
  lemma ServiceFrameReaches(p: Proxy, f: DevFrame) returns (to: seq<(nat, nat)>)
    requires f.Svc?
    ensures Next(p, FromDevice(f)) == p.(svcToClients := p.svcToClients + Delivered(p, FromDevice(f)))
    ensures |Delivered(p, FromDevice(f))| == |to|
    ensures forall k :: 0 <= k < |to| ==>
              var (i, j) := to[k];
              && i < |p.conns| && j < |p.conns[i].clients| && Delivered(p, FromDevice(f))[k] == Sent(p.conns[i].fd, f)
              && p.conns[i].clients[j].qmiType == f.client.qmiType
              && (f.client.id == 0 || f.client.id == p.conns[i].clients[j].id)
    ensures forall i, j ::
              (&& 0 <= i < |p.conns| && 0 <= j < |p.conns[i].clients| && p.conns[i].clients[j].qmiType == f.client.qmiType
               && (f.client.id == 0 || f.client.id == p.conns[i].clients[j].id)) ==> (i, j) in to
    ensures forall k, l :: 0 <= k < l < |to| ==> to[k].0 < to[l].0 || (to[k].0 == to[l].0 && to[k].1 < to[l].1)
  {
    to := RouteNamed(p.conns, f);
    assert Delivered(p, FromDevice(f)) == Route(p.conns, f);
  }

  /** Nothing else ever sends to clients on the service channels. */
  lemma OnlyServiceFrames(p: Proxy, e: Event)
    requires !(e.FromDevice? && e.frame.Svc?)
    ensures Delivered(p, e) == []
  {
  }

  /** Which descriptors hold a client that the frame names. */
  ghost predicate Named(conns: seq<Conn>, fd: int, f: DevFrame)
    requires f.Svc?
  {
    exists i, j :: 0 <= i < |conns| && 0 <= j < |conns[i].clients| && conns[i].fd == fd
                   && conns[i].clients[j].qmiType == f.client.qmiType
                   && (f.client.id == 0 || f.client.id == conns[i].clients[j].id)
  }

  lemma RouteReaches(p: Proxy, f: DevFrame, fd: int)
    requires f.Svc?
    ensures Sent(fd, f) in Delivered(p, FromDevice(f)) <==>
            exists i, j :: 0 <= i < |p.conns| && 0 <= j < |p.conns[i].clients| && p.conns[i].fd == fd
                           && p.conns[i].clients[j].qmiType == f.client.qmiType
                           && (f.client.id == 0 || f.client.id == p.conns[i].clients[j].id)
  {
    hide Next, Delivered;
    var to := ServiceFrameReaches(p, f);
    var d := Delivered(p, FromDevice(f));
    if Sent(fd, f) in d {
      var k :| 0 <= k < |d| && d[k] == Sent(fd, f);
      assert p.conns[to[k].0].clients[to[k].1].qmiType == f.client.qmiType;
    }
    if i, j :| 0 <= i < |p.conns| && 0 <= j < |p.conns[i].clients| && p.conns[i].fd == fd
               && p.conns[i].clients[j].qmiType == f.client.qmiType
               && (f.client.id == 0 || f.client.id == p.conns[i].clients[j].id) {
      var k :| 0 <= k < |to| && to[k] == (i, j);
      assert d[k] == Sent(fd, f);
    }
  }

  // ---------- clients come and go ----------

  /** What a response taken from the queue leaves of the connections. */
  lemma AnswerConns(p: Proxy, f: DevFrame)
    requires f.Ctl? && f.response && p.queue != []
    ensures Next(p, FromDevice(f)).conns == RegisteredAt(p.conns, p.queue[0].fd, f)
  {
  }

  lemma OwnerIsHead(p: Proxy)
    requires Routed(p) && p.queue != []
    ensures |p.answers| < |p.ctlToDevice| && p.ctlToDevice[|p.answers|] == p.queue[0] && Connected(p.conns, p.queue[0].fd)
  {
  }

  lemma GrantHolds(conns: seq<Conn>, owner: int, f: DevFrame, g: DevFrame, fd: int)
    requires f.Ctl? && f.ok && f.ctlType == 0x22 && g.Svc? && Connected(conns, owner)
    ensures Named(RegisteredAt(conns, owner, f), fd, g) <==>
            || Named(conns, fd, g)
            || (fd == owner && f.client.qmiType == g.client.qmiType && (g.client.id == 0 || g.client.id == f.client.id))
  {
    var cs := RegisteredAt(conns, owner, f);
    if Named(conns, fd, g) {
      var i, j :| 0 <= i < |conns| && 0 <= j < |conns[i].clients| && conns[i].fd == fd
                  && conns[i].clients[j].qmiType == g.client.qmiType
                  && (g.client.id == 0 || g.client.id == conns[i].clients[j].id);
      assert cs[i].clients[j] == conns[i].clients[j];
    }
    if fd == owner && f.client.qmiType == g.client.qmiType && (g.client.id == 0 || g.client.id == f.client.id) {
      var i :| 0 <= i < |conns| && conns[i].fd == owner;
      assert cs[i].clients[|conns[i].clients|] == f.client;
    }
    if Named(cs, fd, g) {
      var i, j :| 0 <= i < |cs| && 0 <= j < |cs[i].clients| && cs[i].fd == fd
                  && cs[i].clients[j].qmiType == g.client.qmiType
                  && (g.client.id == 0 || g.client.id == cs[i].clients[j].id);
      if j < |conns[i].clients| {
        assert cs[i].clients[j] == conns[i].clients[j];
      }
    }
  }

  /**
    A client id granted in answer to a request is served from then on, on the connection that asked and on
    no other: of the service frames, exactly those that name the new client reach one connection more.
   */
  lemma GrantIsServed(p: Proxy, f: DevFrame, g: DevFrame, fd: int)
    requires Routed(p) && p.queue != [] && f.Ctl? && f.response && f.ok && f.ctlType == 0x22 && g.Svc?
    ensures |p.answers| < |p.ctlToDevice|
    ensures Sent(fd, g) in Delivered(Next(p, FromDevice(f)), FromDevice(g)) <==>
            || Sent(fd, g) in Delivered(p, FromDevice(g))
            || (&& fd == p.ctlToDevice[|p.answers|].fd && f.client.qmiType == g.client.qmiType
                && (g.client.id == 0 || g.client.id == f.client.id))
  {
    hide Next, Delivered, Routed, RegisteredAt;
    OwnerIsHead(p);
    AnswerConns(p, f);
    RouteReaches(p, g, fd);
    RouteReaches(Next(p, FromDevice(f)), g, fd);
    GrantHolds(p.conns, p.queue[0].fd, f, g, fd);
  }

  lemma IsExactly(c: Client, d: Client)
    ensures Is(c)(d) <==> d == c
  {
  }

  lemma {:induction false} DropOne(cs: seq<Client>, c: Client)
    ensures multiset(DropWhere(cs, Is(c))) == multiset(cs) - multiset{c}
  {
    hide Is;
    if cs != [] {
      DropOne(cs[1..], c);
      IsExactly(c, cs[0]);
      var ds := DropWhere(cs[1..], Is(c));
      assert cs == [cs[0]] + cs[1..] && multiset([cs[0]] + ds) == multiset{cs[0]} + multiset(ds);
    }
  }

  /** An id that is given back or revoked in an answer is forgotten once, on the connection that asked; nothing else changes. */
  lemma ReleaseForgetsOne(p: Proxy, f: DevFrame, i: nat)
    requires Routed(p) && p.queue != [] && f.Ctl? && f.response && f.ok && i < |p.conns|
    requires f.ctlType == 0x23 || f.ctlType == 0x24
    ensures |p.answers| < |p.ctlToDevice| && |Next(p, FromDevice(f)).conns| == |p.conns|
    ensures var c := Next(p, FromDevice(f)).conns[i];
            && c.fd == p.conns[i].fd
            && multiset(c.clients) == multiset(p.conns[i].clients) -
                 (if c.fd == p.ctlToDevice[|p.answers|].fd then multiset{f.client} else multiset{})
  {
    hide Next, Routed;
    OwnerIsHead(p);
    AnswerConns(p, f);
    DropOne(p.conns[i].clients, f.client);
  }

  /** Any other answer, and one that reports an error, leaves the clients as they are. */
  lemma OtherAnswersKeepClients(p: Proxy, f: DevFrame)
    requires f.Ctl? && (!f.ok || !(0x22 <= f.ctlType <= 0x24) || !f.response)
    ensures Next(p, FromDevice(f)).conns == p.conns
  {
    if f.response && p.queue != [] {
      AnswerConns(p, f);
    }
  }

  /** The modem is reset exactly when an answer that revokes an id has a client to go to. */
  lemma ResetByRevoke(p: Proxy, e: Event)
    ensures Next(p, e).reset <==>
            || p.reset
            || (e.FromDevice? && e.frame.Ctl? && e.frame.response && e.frame.ctlType == 0x24
                && p.queue != [] && Connected(p.conns, p.queue[0].fd))
  {
    if p.queue != [] {
      MatchesCounts(p.conns, p.queue[0].fd);
    }
  }
}
