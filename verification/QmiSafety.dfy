/**
  What the clients of the QMI proxy may lose, and exactly which events put it at risk.  The modem answers
  its requests in the order in which they reached it.
 */
module QmiSafety {
  import opened Bytes
  import opened QList
  import opened QmiProxy

  /**
    The proxy, the answers that the device still owes, oldest first and each with the descriptor of the
    client that waits for it, None once that client has left, and whether an answer has ever gone to a
    client that it was not owed to, or twice to one.
   */
  datatype Watched = Watched(p: Proxy, owed: seq<Option<int>>, misrouted: bool)

  const BEGIN := Watched(START, [], false)

  function Owners(ms: seq<Asked>): (owners: seq<Option<int>>) {
    seq(|ms|, i requires 0 <= i < |ms| => Some(ms[i].fd))
  }

  /** Nobody waits any more for what was owed to the client that left. */
  function Forsaken(owed: seq<Option<int>>, fd: int): seq<Option<int>> {
    seq(|owed|, i requires 0 <= i < |owed| => if owed[i] == Some(fd) then None else owed[i])
  }

  predicate IsAnswer(e: Event) { e.FromDevice? && e.frame.Ctl? && e.frame.response }

  /** What the event sent to clients on the control channel, against what was owed. */
  predicate Misroutes(w: Watched, e: Event) {
    var sent := Next(w.p, e).ctlToClients[|w.p.ctlToClients|..];
    sent != [] && !(e.FromDevice? && w.owed != [] && w.owed[0].Some? && sent == [Sent(w.owed[0].value, e.frame)])
  }

  function Advance(w: Watched, e: Event): Watched {
    var q := Next(w.p, e);
    var owed := if IsAnswer(e) && w.owed != [] then w.owed[1..]
                else if e.Disconnect? then Forsaken(w.owed, e.fd)
                else w.owed;
    Watched(q, owed + Owners(q.ctlToDevice[|w.p.ctlToDevice|..]), w.misrouted || Misroutes(w, e))
  }

  function After(w: Watched, es: seq<Event>): Watched
    decreases |es|
  {
    if es == [] then w else After(Advance(w, es[0]), es[1..])
  }

  /** A client waits for an answer and the device has nothing to answer: nothing will ever wake the queue. */
  ghost predicate Stalled(w: Watched) {
    w.owed == [] && exists i :: 0 <= i < |w.p.queue| && Connected(w.p.conns, w.p.queue[i].fd)
  }

  ghost predicate Bad(w: Watched) { w.misrouted || Stalled(w) }

  /** Orderly events, and no answer from the device to a request that it does not hold. */
  ghost predicate Blameless(w: Watched, e: Event) {
    Orderly(w.p, e) && (IsAnswer(e) ==> w.owed != [])
  }

  ghost predicate AllBlameless(w: Watched, es: seq<Event>)
    decreases |es|
  {
    es == [] || (Blameless(w, es[0]) && AllBlameless(Advance(w, es[0]), es[1..]))
  }

  /** Whatever blameless events follow, nothing goes wrong. */
  ghost predicate Safe(w: Watched) {
    forall es :: AllBlameless(w, es) ==> !Bad(After(w, es))
  }

  /**
    Every queued request has one connected sender, and the device owes the answer to the head of the queue,
    to its sender, and no other.
   */
  ghost predicate Ready(w: Watched) {
    !w.misrouted && Attended(w.p) && w.owed == if w.p.queue == [] then [] else [Some(w.p.queue[0].fd)]
  }

  // ---------- harmless events keep the proxy ready ----------

  lemma AnswerAttended(p: Proxy, f: DevFrame)
    requires Attended(p) && p.queue != [] && f.Ctl?
    ensures Attended(Answer(p, f)) && Matches(p.conns, p.queue[0].fd) == 1
  {
    var a := Answer(p, f);
    MatchesCounts(p.conns, p.queue[0].fd);
    assert Connected(p.conns, p.queue[0].fd);
    forall i | 0 <= i < |a.queue|
      ensures Connected(a.conns, a.queue[i].fd)
    {
      assert a.queue[i] == p.queue[i + 1];
      SameDescriptors(p.conns, a.conns, a.queue[i].fd);
    }
  }

  lemma HeadIsSent(p: Proxy)
    ensures SendHead(p).ctlToDevice[|p.ctlToDevice|..] ==
            if p.queue == [] then [] else Repeat(p.queue[0], Matches(p.conns, p.queue[0].fd))
  {
  }

  /** What an answer does while a request is queued. */
  lemma AnswerStep(w: Watched, f: DevFrame)
    requires f.Ctl? && f.response && w.p.queue != [] && w.owed != []
    ensures var v := Advance(w, FromDevice(f));
            var n := Matches(w.p.conns, w.p.queue[0].fd);
            && v.p.queue == w.p.queue[1..] && |v.p.conns| == |w.p.conns|
            && (forall i :: 0 <= i < |v.p.conns| ==> v.p.conns[i].fd == w.p.conns[i].fd)
            && v.owed == w.owed[1..] + (if v.p.queue == [] then []
                                        else seq(Matches(v.p.conns, v.p.queue[0].fd), i => Some(v.p.queue[0].fd)))
            && v.misrouted == (w.misrouted || (n > 0 && !(n == 1 && w.owed[0] == Some(w.p.queue[0].fd))))
  {
    hide Matches;
    var a := Answer(w.p, f);
    HeadIsSent(a);
    var v := Advance(w, FromDevice(f));
    assert v.p == SendHead(a);
    var n := Matches(w.p.conns, w.p.queue[0].fd);
    var sent := v.p.ctlToClients[|w.p.ctlToClients|..];
    assert sent == Repeat(Sent(w.p.queue[0].fd, f), n);
    if w.owed[0].Some? && sent == [Sent(w.owed[0].value, f)] {
      assert sent[0] == Sent(w.p.queue[0].fd, f) && |sent| == n;
    }
  }

  lemma AcceptStep(w: Watched, fd: int)
    ensures Advance(w, Accept(fd)) == w.(p := w.p.(conns := w.p.conns + [Conn(fd, [])]))
  {
  }

  lemma RequestStep(w: Watched, fd: int, r: Request)
    requires r.CtlRequest? && r.ctlType != SYNC_REQ
    ensures var v := Advance(w, FromClient(fd, r));
            && v.p.queue == w.p.queue + [Asked(fd, r)] && v.p.conns == w.p.conns && v.misrouted == w.misrouted
            && v.owed == w.owed + (if w.p.queue == [] then [Some(fd)] else [])
  {
  }

  lemma DisconnectStep(w: Watched, fd: int)
    ensures Advance(w, Disconnect(fd)) == Watched(Next(w.p, Disconnect(fd)), Forsaken(w.owed, fd), w.misrouted)
  {
  }

  /** A control frame that is no answer sends the head of the queue again. */
  lemma NoticeStep(w: Watched, f: DevFrame)
    requires f.Ctl? && !f.response
    ensures var v := Advance(w, FromDevice(f));
            && v.p.queue == w.p.queue && v.p.conns == w.p.conns && v.misrouted == w.misrouted
            && v.owed == w.owed + (if w.p.queue == [] then []
                                   else seq(Matches(w.p.conns, w.p.queue[0].fd), i => Some(w.p.queue[0].fd)))
  {
    HeadIsSent(w.p);
  }

  /** An answer reaches exactly the client that waits for it, once. */
  lemma ReadyAnswer(w: Watched, f: DevFrame)
    requires Ready(w) && f.Ctl? && f.response && w.p.queue != []
    ensures w.owed != [] && w.owed[0].Some?
    ensures Next(w.p, FromDevice(f)).ctlToClients == w.p.ctlToClients + [Sent(w.owed[0].value, f)]
    ensures Ready(Advance(w, FromDevice(f)))
  {
    AnswerStep(w, f);
    AnswerAttended(w.p, f);
    var a := Answer(w.p, f);
    if a.queue != [] {
      MatchesCounts(a.conns, a.queue[0].fd);
      assert Connected(a.conns, a.queue[0].fd);
    }
  }

  lemma ReadyDisconnect(w: Watched, fd: int)
    requires Ready(w) && Harmless(w.p, Disconnect(fd))
    ensures Ready(Advance(w, Disconnect(fd)))
  {
    var p := w.p;
    MatchesCounts(p.conns, fd);
    DisconnectStep(w, fd);
    if Connected(p.conns, fd) {
      DisconnectAttended(p, fd);
    } else if p.queue != [] {
      assert Connected(p.conns, p.queue[0].fd);
    }
  }

  /** A harmless event keeps the proxy ready. */
  lemma ReadyStep(w: Watched, e: Event)
    requires Ready(w) && Harmless(w.p, e)
    ensures Ready(Advance(w, e))
  {
    match e {
      case FromDevice(f) =>
        if f.Ctl? && f.response && w.p.queue != [] {
          ReadyAnswer(w, f);
        }
      case FromClient(fd, r) =>
        if r.CtlRequest? && r.ctlType != SYNC_REQ {
          RequestStep(w, fd, r);
        }
      case Accept(fd) =>
        AcceptStep(w, fd);
        AcceptAttended(w.p, fd);
      case Disconnect(fd) =>
        ReadyDisconnect(w, fd);
    }
  }

  lemma OrderlyIsHarmless(p: Proxy, e: Event)
    requires Orderly(p, e)
    ensures Harmless(p, e)
  {
    if e.Disconnect? {
      WaitingCounts(p.queue, e.fd);
    }
  }

  lemma {:induction false} ReadyStays(w: Watched, es: seq<Event>)
    requires Ready(w) && AllBlameless(w, es)
    ensures Ready(After(w, es))
    decreases |es|
  {
    if es != [] {
      OrderlyIsHarmless(w.p, es[0]);
      ReadyStep(w, es[0]);
      ReadyStays(Advance(w, es[0]), es[1..]);
    }
  }

  lemma ReadyIsSafe(w: Watched)
    requires Ready(w)
    ensures Safe(w)
  {
    forall es | AllBlameless(w, es)
      ensures !Bad(After(w, es))
    {
      ReadyStays(w, es);
    }
  }

  // ---------- every other event can end badly ----------

  lemma BadNow(w: Watched)
    requires Bad(w)
    ensures !Safe(w)
  {
    assert AllBlameless(w, []) && After(w, []) == w;
  }

  lemma UnsafeBefore(w: Watched, e: Event)
    requires Blameless(w, e) && !Safe(Advance(w, e))
    ensures !Safe(w)
  {
    hide Blameless, Bad, Advance;
    var v := Advance(w, e);
    var es :| AllBlameless(v, es) && Bad(After(v, es));
    var fs := [e] + es;
    assert fs[0] == e && fs[1..] == es;
    assert AllBlameless(w, fs) && After(w, fs) == After(v, es);
  }

  const ANSWER := Ctl(true, 0, true, Client(0, 0), [])
  const REQUEST := CtlRequest(0, [])

  /** A descriptor that no connection and no queued request has. */
  function Unused(conns: seq<Conn>, queue: seq<Asked>): (fd: int)
    ensures forall i :: 0 <= i < |conns| ==> conns[i].fd < fd
    ensures forall i :: 0 <= i < |queue| ==> queue[i].fd < fd
  {
    if conns != [] then
      var rest := Unused(conns[1..], queue);
      assert forall i :: 1 <= i < |conns| ==> conns[i] == conns[1..][i - 1];
      if conns[0].fd < rest then rest else conns[0].fd + 1
    else if queue != [] then
      var rest := Unused(conns, queue[1..]);
      assert forall i :: 1 <= i < |queue| ==> queue[i] == queue[1..][i - 1];
      if queue[0].fd < rest then rest else queue[0].fd + 1
    else 0
  }

  /** A new client connects and asks. */
  lemma NewClientAsks(w: Watched) returns (g: int, v: Watched)
    ensures forall i :: 0 <= i < |w.p.conns| ==> w.p.conns[i].fd < g
    ensures forall i :: 0 <= i < |w.p.queue| ==> w.p.queue[i].fd < g
    ensures !Safe(v) ==> !Safe(w)
    ensures v.p.conns == w.p.conns + [Conn(g, [])] && v.p.queue == w.p.queue + [Asked(g, REQUEST)]
    ensures v.owed == w.owed + (if w.p.queue == [] then [Some(g)] else []) && v.misrouted == w.misrouted
  {
    hide Safe;
    g := Unused(w.p.conns, w.p.queue);
    var u := Advance(w, Accept(g));
    AcceptStep(w, g);
    v := Advance(u, FromClient(g, REQUEST));
    RequestStep(u, g, REQUEST);
    assert u.p.conns[|w.p.conns|].fd == g;
    if !Safe(v) {
      UnsafeBefore(u, FromClient(g, REQUEST));
      UnsafeBefore(w, Accept(g));
    }
  }

  /** The answer that is due next is owed to somebody else than the head of the queue, who is connected: that is who gets it. */
  lemma WrongHead(w: Watched)
    requires w.owed != [] && w.p.queue != [] && Connected(w.p.conns, w.p.queue[0].fd)
    requires w.owed[0] != Some(w.p.queue[0].fd) || Matches(w.p.conns, w.p.queue[0].fd) > 1
    ensures !Safe(w)
  {
    MatchesCounts(w.p.conns, w.p.queue[0].fd);
    AnswerStep(w, ANSWER);
    BadNow(Advance(w, FromDevice(ANSWER)));
    UnsafeBefore(w, FromDevice(ANSWER));
  }

  /** The device owes an answer to somebody who has left. */
  lemma OwedToNobody(w: Watched)
    requires w.owed != [] && w.owed[0] == None
    ensures !Safe(w)
  {
    hide Safe;
    if w.p.queue == [] {
      var g, v := NewClientAsks(w);
      assert v.p.conns[|w.p.conns|].fd == g;
      WrongHead(v);
    } else if Connected(w.p.conns, w.p.queue[0].fd) {
      WrongHead(w);
    } else {
      var fd := w.p.queue[0].fd;
      AcceptStep(w, fd);
      var v := Advance(w, Accept(fd));
      assert v.p.conns[|w.p.conns|].fd == fd;
      WrongHead(v);
      UnsafeBefore(w, Accept(fd));
    }
  }

  lemma SameMatches(cs: seq<Conn>, ds: seq<Conn>, fd: int)
    requires |cs| == |ds| && forall i :: 0 <= i < |cs| ==> cs[i].fd == ds[i].fd
    ensures Matches(cs, fd) == Matches(ds, fd)
  {
    if cs != [] {
      SameMatches(cs[1..], ds[1..], fd);
    }
  }

  /**
    Down the queue is a request whose descriptor has no connection, or two: its turn comes, and then nothing
    or too much is sent.
   */
  lemma {:induction false} Unattended(w: Watched, i: nat)
    requires i < |w.p.queue|
    requires |w.owed| == Matches(w.p.conns, w.p.queue[0].fd)
    requires forall k :: 0 <= k < |w.owed| ==> w.owed[k] == Some(w.p.queue[0].fd)
    requires forall k :: 0 <= k < i ==> Matches(w.p.conns, w.p.queue[k].fd) == 1
    requires Matches(w.p.conns, w.p.queue[i].fd) != 1
    ensures !Safe(w)
    decreases i
  {
    hide Safe, Matches;
    MatchesCounts(w.p.conns, w.p.queue[0].fd);
    if i > 0 {
      AnswerStep(w, ANSWER);
      var v := Advance(w, FromDevice(ANSWER));
      forall k | 0 <= k < i
        ensures Matches(v.p.conns, v.p.queue[k].fd) == Matches(w.p.conns, w.p.queue[k + 1].fd)
      {
        assert v.p.queue[k] == w.p.queue[k + 1];
        SameMatches(v.p.conns, w.p.conns, v.p.queue[k].fd);
      }
      Unattended(v, i - 1);
      UnsafeBefore(w, FromDevice(ANSWER));
    } else if w.owed == [] {
      var g, v := NewClientAsks(w);
      assert v.p.conns[|w.p.conns|].fd == g && v.p.queue[|w.p.queue|].fd == g;
      BadNow(v);
    } else {
      WrongHead(w);
    }
  }

  /** The device owes one answer more than the queue can take: the last in the queue gets that of the one before. */
  lemma {:induction false} OneTooMany(w: Watched, g: int)
    requires Attended(w.p) && w.p.queue != [] && |w.owed| == 2 && w.owed[0] != Some(g) && w.owed[1] == Some(w.p.queue[0].fd)
    requires forall i :: 0 <= i < |w.p.queue| ==> (w.p.queue[i].fd == g <==> i == |w.p.queue| - 1)
    ensures !Safe(w)
    decreases |w.p.queue|
  {
    hide Safe, Matches;
    assert Connected(w.p.conns, w.p.queue[0].fd);
    if w.owed[0] != Some(w.p.queue[0].fd) {
      WrongHead(w);
    } else {
      AnswerStep(w, ANSWER);
      AnswerAttended(w.p, ANSWER);
      var v := Advance(w, FromDevice(ANSWER));
      assert v.p == SendHead(Answer(w.p, ANSWER));
      assert v.p.queue[0] == w.p.queue[1] && Connected(v.p.conns, v.p.queue[0].fd);
      MatchesCounts(v.p.conns, v.p.queue[0].fd);
      assert v.owed == [w.owed[1], Some(v.p.queue[0].fd)];
      OneTooMany(v, g);
      UnsafeBefore(w, FromDevice(ANSWER));
    }
  }

  lemma NoticeIsUnsafe(w: Watched, f: DevFrame)
    requires Ready(w) && f.Ctl? && !f.response && w.p.queue != []
    ensures !Safe(Advance(w, FromDevice(f)))
  {
    hide Safe, Matches;
    NoticeStep(w, f);
    var v := Advance(w, FromDevice(f));
    assert Connected(w.p.conns, w.p.queue[0].fd);
    MatchesCounts(w.p.conns, w.p.queue[0].fd);
    assert v.owed == [Some(w.p.queue[0].fd), Some(w.p.queue[0].fd)];
    var g, u := NewClientAsks(v);
    NewcomerAttended(w.p, u.p, g);
    OneTooMany(u, g);
  }

  /** A new client leaves the others attended, and is attended itself. */
  lemma NewcomerAttended(p: Proxy, q: Proxy, g: int)
    requires Attended(p) && forall i :: 0 <= i < |p.conns| ==> p.conns[i].fd < g
    requires q.conns == p.conns + [Conn(g, [])] && q.queue == p.queue + [Asked(g, REQUEST)]
    ensures Attended(q)
  {
    AcceptAttended(p, g);
    var r := Next(p, Accept(g));
    assert q.conns[|p.conns|].fd == g;
    forall i | 0 <= i < |q.queue|
      ensures Connected(q.conns, q.queue[i].fd)
    {
      if i < |p.queue| {
        assert q.queue[i] == r.queue[i] && Connected(r.conns, r.queue[i].fd);
      }
    }
  }

  lemma DisconnectIsUnsafe(w: Watched, fd: int)
    requires Ready(w) && !Harmless(w.p, Disconnect(fd))
    ensures !Safe(Advance(w, Disconnect(fd)))
  {
    hide Safe, Matches;
    DisconnectStep(w, fd);
    if w.p.queue != [] && w.p.queue[0].fd == fd {
      OwedToNobody(Advance(w, Disconnect(fd)));
    } else {
      SecondIsUnsafe(w, fd);
    }
  }

  /** Cleanup removes one request; a second one of the same client stays behind. */
  lemma SecondIsUnsafe(w: Watched, fd: int)
    requires Ready(w) && Connected(w.p.conns, fd) && Waiting(w.p.queue, fd) > 1 && w.p.queue[0].fd != fd
    ensures !Safe(Advance(w, Disconnect(fd)))
  {
    hide Safe, Matches, Waiting;
    DisconnectStep(w, fd);
    DisconnectAttended(w.p, fd);
    var v := Advance(w, Disconnect(fd));
    MatchesCounts(w.p.conns, fd);
    assert v.p.queue == DropWhere(w.p.queue, SentBy(fd));
    WaitingCounts(v.p.queue, fd);
    var i := FirstOf(v.p.queue, fd);
    HeadStays(w.p.queue, fd);
    forall k | 0 <= k <= i
      ensures Matches(v.p.conns, v.p.queue[k].fd) == if k < i then 1 else 0
    {
      MatchesCounts(v.p.conns, v.p.queue[k].fd);
    }
    Unattended(v, i);
  }

  lemma HeadStays(queue: seq<Asked>, fd: int)
    requires queue != [] && queue[0].fd != fd
    ensures DropWhere(queue, SentBy(fd)) != [] && DropWhere(queue, SentBy(fd))[0] == queue[0]
  {
  }

  lemma {:induction false} FirstOf(queue: seq<Asked>, fd: int) returns (i: nat)
    requires Waiting(queue, fd) > 0
    ensures i < |queue| && queue[i].fd == fd && forall k :: 0 <= k < i ==> queue[k].fd != fd
  {
    if queue[0].fd == fd {
      i := 0;
    } else {
      var j := FirstOf(queue[1..], fd);
      i := j + 1;
    }
  }

  /** A descriptor that is handed out twice: a request through it is sent twice, or answered twice. */
  lemma AcceptIsUnsafe(w: Watched, fd: int)
    requires Ready(w) && Connected(w.p.conns, fd)
    ensures !Safe(Advance(w, Accept(fd)))
  {
    hide Safe, Matches;
    AcceptStep(w, fd);
    var v := Advance(w, Accept(fd));
    var u := Advance(v, FromClient(fd, REQUEST));
    RequestStep(v, fd, REQUEST);
    assert v.p.conns[|w.p.conns|].fd == fd;
    forall m | m in u.p.queue
      ensures Matches(u.p.conns, m.fd) == if m.fd == fd then 2 else 1
    {
      MatchesLast(u.p.conns, |w.p.conns|, m.fd);
      assert u.p.conns[..|w.p.conns|] == w.p.conns && u.p.conns[..|w.p.conns| + 1] == u.p.conns;
      MatchesCounts(w.p.conns, m.fd);
      if m.fd != fd {
        assert m in w.p.queue;
      }
    }
    assert u.p.queue[|w.p.queue|].fd == fd;
    WaitingCounts(u.p.queue, fd);
    var i := FirstOf(u.p.queue, fd);
    if i == 0 {
      assert Connected(u.p.conns, fd);
      WrongHead(u);
    } else {
      assert u.p.queue[0] in u.p.queue;
      Unattended(u, i);
    }
    UnsafeBefore(v, FromClient(fd, REQUEST));
  }

  /** The program reads requests from connected clients only. */
  ghost predicate Possible(p: Proxy, e: Event) {
    e.FromClient? ==> Connected(p.conns, e.fd)
  }

  /** An event is harmless if and only if nothing blameless that follows it can go wrong. */
  lemma StepSafe(w: Watched, e: Event)
    requires Ready(w) && Possible(w.p, e)
    ensures Safe(Advance(w, e)) <==> Harmless(w.p, e)
  {
    hide Safe, Ready, Advance;
    if Harmless(w.p, e) {
      ReadyStep(w, e);
      ReadyIsSafe(Advance(w, e));
    } else {
      match e {
        case FromDevice(f) => NoticeIsUnsafe(w, f);
        case FromClient(fd, r) =>
        case Accept(fd) => AcceptIsUnsafe(w, fd);
        case Disconnect(fd) => DisconnectIsUnsafe(w, fd);
      }
    }
  }

  ghost predicate AllPossible(es: seq<Event>) {
    es == [] || (AllPossible(es[..|es| - 1]) && Possible(Run(START, es[..|es| - 1]), es[|es| - 1]))
  }

  function Watch(es: seq<Event>): (w: Watched)
    ensures w.p == Run(START, es)
  {
    if es == [] then BEGIN else Advance(Watch(es[..|es| - 1]), es[|es| - 1])
  }

  /**
    Over every run: whatever blameless events may follow at any point, nothing goes wrong, if and only if
    every event was harmless.
   */
  lemma {:induction false} RunSafe(es: seq<Event>)
    requires AllPossible(es)
    ensures AllHarmless(es) <==> forall k :: 0 <= k <= |es| ==> Safe(Watch(es[..k]))
    ensures AllHarmless(es) ==> Ready(Watch(es))
  {
    hide Safe, Ready, Advance, Harmless, Possible, Run;
    if es == [] {
      ReadyBegin();
      assert es[..0] == [];
    } else {
      var before, e := es[..|es| - 1], es[|es| - 1];
      RunSafe(before);
      assert es[..|es|] == es && before[..|before|] == before;
      assert forall k :: 0 <= k <= |before| ==> es[..k] == before[..k];
      if AllHarmless(before) {
        StepSafe(Watch(before), e);
        if AllHarmless(es) {
          ReadyStep(Watch(before), e);
          forall k | 0 <= k <= |es|
            ensures Safe(Watch(es[..k]))
          {
            assert k <= |before| ==> es[..k] == before[..k];
          }
        }
      }
    }
  }

  lemma ReadyBegin()
    ensures Ready(BEGIN) && Safe(BEGIN)
  {
    ReadyIsSafe(BEGIN);
  }
}
