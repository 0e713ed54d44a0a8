/**
  Client and port numbers of quectel-qrtr-proxy.c: two bitmaps of bytes hand out the lowest
  free number, and the lists of connections and clients remember who holds which.
 */
module QrtrIds {
  import opened Bytes

  const CLIENT_IDS := 0xf0
  const PORT_IDS := 0xff0
  const MAX_CLIENTS := 239
  const NODE_MYSELF := 1

  datatype Client = Client(qmiType: nat, clientId: nat, node: nat, port: nat)
  datatype Conn = Conn(fd: int, clients: seq<Client>)

  /** The two bitmaps, the connections with their clients, and the ports reported to the modem as deleted. */
  datatype Proxy = Proxy(clientBits: seq<byte>, portBits: seq<byte>, conns: seq<Conn>, deleted: seq<nat>)

  datatype Event =
    | Get(fd: int, qmiType: nat, known: bool)
    | Release(fd: int, qmiType: nat, clientId: nat)
    | Accept(fd: int)
    | Disconnect(fd: int)

  // ---------- the functions of the program ----------

  /** The first free number from id on, 0 if there is none. */
  function FirstFree(bits: seq<byte>, id: nat): (r: nat)
    requires id >= 1
    ensures r == 0 || (id <= r < |bits| && bits[r] == 0)
    ensures forall k :: id <= k < |bits| && (r == 0 || k < r) ==> bits[k] != 0
    decreases |bits| - id
  {
    if id >= |bits| then 0 else if bits[id] == 0 then id else FirstFree(bits, id + 1)
  }

  /** The map entry of a number is a byte: bitmap[id] = id. */
  function Take(bits: seq<byte>, id: nat): (b: seq<byte>)
    ensures |b| == |bits|
  {
    if 0 < id < |bits| then bits[id := (id % 256) as byte] else bits
  }

  /** free_client_id and free_port_id. */
  function Free(bits: seq<byte>, id: nat): (b: seq<byte>)
    ensures |b| == |bits|
  {
    if id < |bits| && bits[id] as nat == id then bits[id := 0] else bits
  }

  /** The index of the first connection of fd, or the number of connections. */
  function Find(conns: seq<Conn>, fd: int): (i: nat)
    ensures i <= |conns| && (i < |conns| ==> conns[i].fd == fd) && forall k :: 0 <= k < i ==> conns[k].fd != fd
  {
    if conns == [] || conns[0].fd == fd then 0 else 1 + Find(conns[1..], fd)
  }

  function FindClient(cs: seq<Client>, qmiType: nat, clientId: nat): (j: nat)
    ensures j <= |cs| && (j < |cs| ==> cs[j].qmiType == qmiType && cs[j].clientId == clientId)
    ensures forall k :: 0 <= k < j ==> !(cs[k].qmiType == qmiType && cs[k].clientId == clientId)
  {
    if cs == [] || (cs[0].qmiType == qmiType && cs[0].clientId == clientId) then 0
    else 1 + FindClient(cs[1..], qmiType, clientId)
  }

  /** alloc_qrtr_client_id on connection i. */
  function Alloc(p: Proxy, i: nat, qmiType: nat): Proxy
    requires i < |p.conns|
  {
    var id, port := FirstFree(p.clientBits, 1), FirstFree(p.portBits, 1);
    var c := Client(qmiType, id, NODE_MYSELF, port);
    p.(clientBits := Take(p.clientBits, id), portBits := Take(p.portBits, port),
       conns := p.conns[i := p.conns[i].(clients := p.conns[i].clients + [c])])
  }

  /** release_qrtr_client_id for client j of connection i. */
  function Drop(p: Proxy, i: nat, j: nat): Proxy
    requires i < |p.conns| && j < |p.conns[i].clients|
  {
    var cs := p.conns[i].clients;
    p.(clientBits := Free(p.clientBits, cs[j].clientId), portBits := Free(p.portBits, cs[j].port),
       conns := p.conns[i := p.conns[i].(clients := cs[..j] + cs[j + 1..])],
       deleted := p.deleted + [cs[j].port])
  }

  /** The loop of cleanup_qrtr_connection over the clients of connection i. */
  function DropAll(p: Proxy, i: nat): (q: Proxy)
    requires i < |p.conns|
    ensures |q.conns| == |p.conns| && q.conns[i].clients == []
    decreases |p.conns[i].clients|
  {
    if p.conns[i].clients == [] then p else DropAll(Drop(p, i, 0), i)
  }

  function Next(p: Proxy, e: Event): Proxy {
    match e
    case Get(fd, qmiType, known) =>
      var i := Find(p.conns, fd);
      if i < |p.conns| && known then Alloc(p, i, qmiType) else p
    case Release(fd, qmiType, clientId) =>
      var i := Find(p.conns, fd);
      if i == |p.conns| then p
      else
        var j := FindClient(p.conns[i].clients, qmiType, clientId);
        if j < |p.conns[i].clients| then Drop(p, i, j) else p
    case Accept(fd) => p.(conns := p.conns + [Conn(fd, [])])
    case Disconnect(fd) =>
      var i := Find(p.conns, fd);
      if i == |p.conns| then p
      else
        var q := DropAll(p, i);
        q.(conns := q.conns[..i] + q.conns[i + 1..])
  }

  function Run(p: Proxy, es: seq<Event>): Proxy {
    if es == [] then p else Next(Run(p, es[..|es| - 1]), es[|es| - 1])
  }

  const START := Proxy(seq(CLIENT_IDS, i => 0), seq(PORT_IDS, i => 0), [], [])

  // ---------- who holds what ----------

  /** All live clients. */
  function Live(conns: seq<Conn>): seq<Client> {
    if conns == [] then [] else conns[0].clients + Live(conns[1..])
  }

  lemma {:induction false} LiveSplit(conns: seq<Conn>, i: nat)
    requires i < |conns|
    ensures Live(conns) == Live(conns[..i]) + conns[i].clients + Live(conns[i + 1..])
  {
    if i > 0 {
      LiveSplit(conns[1..], i - 1);
      assert conns[..i][1..] == conns[1..][..i - 1] && conns[1..][i..] == conns[i + 1..];
    }
  }

  /** The client ids, or the ports, of some clients. */
  function Ids(live: seq<Client>): (s: seq<nat>)
    ensures |s| == |live|
  {
    seq(|live|, k requires 0 <= k < |live| => live[k].clientId)
  }

  function Ports(live: seq<Client>): (s: seq<nat>)
    ensures |s| == |live|
  {
    seq(|live|, k requires 0 <= k < |live| => live[k].port)
  }

  ghost predicate Numbers(nums: seq<nat>, n: nat) {
    (forall k :: 0 <= k < |nums| ==> 1 <= nums[k] <= n) && Distinct(nums)
  }

  /** Distinct numbers from 1 to 239, each marked with itself in the bitmap, and nothing else marked. */
  ghost predicate Marked(bits: seq<byte>, nums: seq<nat>) {
    && |bits| > MAX_CLIENTS && Numbers(nums, MAX_CLIENTS)
    && forall id :: 1 <= id < |bits| ==> bits[id] as nat == if id in nums then id else 0
  }

  predicate AllMine(live: seq<Client>) { forall k :: 0 <= k < |live| ==> live[k].node == NODE_MYSELF }

  ghost predicate Consistent(p: Proxy) {
    && |p.clientBits| == CLIENT_IDS && |p.portBits| == PORT_IDS
    && Marked(p.clientBits, Ids(Live(p.conns))) && Marked(p.portBits, Ports(Live(p.conns)))
    && AllMine(Live(p.conns))
  }

  // ---------- counting ----------

  lemma {:induction false} ManyHeld(nums: seq<nat>, n: nat)
    requires forall m :: 1 <= m <= n ==> m in nums
    ensures n <= |nums|
  {
    if n > 0 {
      assert n in nums;
      var k :| 0 <= k < |nums| && nums[k] == n;
      var rest := nums[..k] + nums[k + 1..];
      forall m | 1 <= m <= n - 1
        ensures m in rest
      {
        assert m in nums;
        var l :| 0 <= l < |nums| && nums[l] == m;
        assert rest[if l < k then l else l - 1] == m;
      }
      ManyHeld(rest, n - 1);
    }
  }

  /** Distinct numbers from 1 to n: at most n of them, and if there are n, then every one. */
  lemma {:induction false} AllTaken(nums: seq<nat>, n: nat)
    requires Numbers(nums, n)
    ensures |nums| <= n
    ensures |nums| == n ==> forall m :: 1 <= m <= n ==> m in nums
  {
    assert nums != [] ==> 1 <= nums[0] <= n;
    if n == 0 {
    } else if k :| 0 <= k < |nums| && nums[k] == n {
      var rest := nums[..k] + nums[k + 1..];
      AllTaken(rest, n - 1);
      if |nums| == n {
        forall m | 1 <= m <= n
          ensures m in nums
        {
          if m < n {
            assert m in rest;
          }
        }
      }
    } else {
      AllTaken(nums, n - 1);
    }
  }

  lemma MarkedIsBounded(bits: seq<byte>, nums: seq<nat>)
    requires Marked(bits, nums)
    ensures |nums| <= MAX_CLIENTS
    ensures |nums| == MAX_CLIENTS && |bits| == CLIENT_IDS ==> FirstFree(bits, 1) == 0
  {
    AllTaken(nums, MAX_CLIENTS);
  }

  /** The lowest free number is at most one more than the number of holders. */
  lemma LowestIsSmall(bits: seq<byte>, nums: seq<nat>)
    requires Marked(bits, nums) && |nums| < MAX_CLIENTS
    ensures 1 <= FirstFree(bits, 1) <= |nums| + 1
  {
    var r := FirstFree(bits, 1);
    ManyHeld(nums, if r == 0 then MAX_CLIENTS else r - 1);
  }

  lemma {:induction false} MembersInsert(a: seq<nat>, x: nat, b: seq<nat>, y: nat)
    ensures y in a + [x] + b <==> y in a + b || y == x
  {
    assert y in a + [x] + b <==> y in a || y == x || y in b;
    assert y in a + b <==> y in a || y in b;
  }

  lemma DistinctInsert(a: seq<nat>, x: nat, b: seq<nat>)
    ensures Distinct(a + [x] + b) <==> Distinct(a + b) && x !in a + b
  {
    var s, t := a + [x] + b, a + b;
    assert s[|a|] == x;
    assert forall k :: 0 <= k < |t| ==> t[k] == s[if k < |a| then k else k + 1];
    assert forall k :: 0 <= k < |s| && k != |a| ==> s[k] == t[if k < |a| then k else k - 1];
  }

  lemma NumbersGrow(a: seq<nat>, x: nat, b: seq<nat>, n: nat)
    ensures Numbers(a + [x] + b, n) <==> Numbers(a + b, n) && x !in a + b && 1 <= x <= n
  {
    hide Distinct;
    DistinctInsert(a, x, b);
    var s, t := a + [x] + b, a + b;
    assert s[|a|] == x;
    assert forall k :: 0 <= k < |t| ==> t[k] == s[if k < |a| then k else k + 1];
    assert forall k :: 0 <= k < |s| && k != |a| ==> s[k] == t[if k < |a| then k else k - 1];
  }

  /** The lowest free number is taken. */
  lemma MarkedInsert(bits: seq<byte>, a: seq<nat>, x: nat, b: seq<nat>)
    requires Marked(bits, a + b) && |a + b| < MAX_CLIENTS && x == FirstFree(bits, 1)
    ensures Marked(Take(bits, x), a + [x] + b)
  {
    hide Numbers;
    LowestIsSmall(bits, a + b);
    NumbersGrow(a, x, b, MAX_CLIENTS);
    forall id | 1 <= id < |bits|
      ensures id in a + [x] + b <==> id in a + b || id == x
    {
      MembersInsert(a, x, b, id);
    }
  }

  /** A number is given back. */
  lemma MarkedRemove(bits: seq<byte>, a: seq<nat>, x: nat, b: seq<nat>)
    requires Marked(bits, a + [x] + b)
    ensures Marked(Free(bits, x), a + b)
  {
    hide Numbers;
    NumbersGrow(a, x, b, MAX_CLIENTS);
    MembersInsert(a, x, b, x);
    forall id | 1 <= id < |bits|
      ensures id in a + [x] + b <==> id in a + b || id == x
    {
      MembersInsert(a, x, b, id);
    }
  }

  lemma NumbersInsert(a: seq<Client>, x: Client, b: seq<Client>)
    ensures Ids(a + [x] + b) == Ids(a) + [x.clientId] + Ids(b) && Ids(a + b) == Ids(a) + Ids(b)
    ensures Ports(a + [x] + b) == Ports(a) + [x.port] + Ports(b) && Ports(a + b) == Ports(a) + Ports(b)
  {
  }

  /** Replacing the clients of one connection. */
  lemma LiveUpdate(conns: seq<Conn>, i: nat, cs: seq<Client>)
    requires i < |conns|
    ensures Live(conns[i := conns[i].(clients := cs)]) == Live(conns[..i]) + cs + Live(conns[i + 1..])
  {
    var ds := conns[i := conns[i].(clients := cs)];
    LiveSplit(ds, i);
    assert ds[..i] == conns[..i] && ds[i + 1..] == conns[i + 1..];
  }

  lemma AllocKeeps(p: Proxy, i: nat, qmiType: nat)
    requires Consistent(p) && i < |p.conns|
    ensures Consistent(Alloc(p, i, qmiType)) <==> |Live(p.conns)| < MAX_CLIENTS
    ensures |Live(Alloc(p, i, qmiType).conns)| == |Live(p.conns)| + 1
  {
    var q := Alloc(p, i, qmiType);
    var cs := q.conns[i].clients;
    var x := cs[|cs| - 1];
    var a, b := Live(p.conns[..i]) + p.conns[i].clients, Live(p.conns[i + 1..]);
    LiveSplit(p.conns, i);
    LiveUpdate(p.conns, i, cs);
    assert Live(q.conns) == a + [x] + b;
    NumbersInsert(a, x, b);
    MarkedIsBounded(p.clientBits, Ids(a + b));
    if |a + b| < MAX_CLIENTS {
      MarkedInsert(p.clientBits, Ids(a), x.clientId, Ids(b));
      MarkedInsert(p.portBits, Ports(a), x.port, Ports(b));
      MineInsert(a, x, b);
    } else {
      assert Ids(a + [x] + b)[|a|] == 0;
    }
  }

  lemma DropKeeps(p: Proxy, i: nat, j: nat)
    requires Consistent(p) && i < |p.conns| && j < |p.conns[i].clients|
    ensures Consistent(Drop(p, i, j))
  {
    hide AllMine, Marked, Free, Live;
    var q := Drop(p, i, j);
    var cs := p.conns[i].clients;
    var x := cs[j];
    var a, b := Live(p.conns[..i]) + cs[..j], cs[j + 1..] + Live(p.conns[i + 1..]);
    LiveSplit(p.conns, i);
    LiveUpdate(p.conns, i, cs[..j] + cs[j + 1..]);
    OneOut(Live(p.conns[..i]), cs, j, Live(p.conns[i + 1..]));
    assert Live(p.conns) == a + [x] + b && Live(q.conns) == a + b;
    NumbersInsert(a, x, b);
    MarkedRemove(p.clientBits, Ids(a), x.clientId, Ids(b));
    MarkedRemove(p.portBits, Ports(a), x.port, Ports(b));
    MineInsert(a, x, b);
  }

  lemma OneOut(before: seq<Client>, cs: seq<Client>, j: nat, behind: seq<Client>)
    requires j < |cs|
    ensures before + cs + behind == before + cs[..j] + [cs[j]] + (cs[j + 1..] + behind)
    ensures before + (cs[..j] + cs[j + 1..]) + behind == before + cs[..j] + (cs[j + 1..] + behind)
  {
  }

  lemma MineInsert(a: seq<Client>, x: Client, b: seq<Client>)
    ensures AllMine(a + [x] + b) <==> AllMine(a + b) && x.node == NODE_MYSELF
  {
    MineJoin(a + [x], b, 0);
    MineJoin(a, [x], 0);
    MineJoin(a, b, 0);
    assert [x][0] == x;
  }

  lemma {:induction false} DropAllKeeps(p: Proxy, i: nat)
    requires Consistent(p) && i < |p.conns|
    ensures Consistent(DropAll(p, i))
    decreases |p.conns[i].clients|
  {
    if p.conns[i].clients != [] {
      DropKeeps(p, i, 0);
      DropAllKeeps(Drop(p, i, 0), i);
    }
  }

  lemma EmptyConnection(conns: seq<Conn>, i: nat)
    requires i < |conns| && conns[i].clients == []
    ensures Live(conns[..i] + conns[i + 1..]) == Live(conns)
  {
    LiveSplit(conns, i);
    LiveJoin(conns[..i], conns[i + 1..]);
    assert Live(conns[..i]) + [] == Live(conns[..i]);
  }

  lemma {:induction false} LiveJoin(a: seq<Conn>, b: seq<Conn>)
    ensures Live(a + b) == Live(a) + Live(b)
  {
    if a == [] {
      assert a + b == b;
    } else {
      assert (a + b)[1..] == a[1..] + b;
      LiveJoin(a[1..], b);
    }
  }

  /** A client id is asked for when 239 clients are live already. */
  predicate Exhausted(p: Proxy, e: Event) {
    e.Get? && e.known && Find(p.conns, e.fd) < |p.conns| && |Live(p.conns)| >= MAX_CLIENTS
  }

  /** One event keeps the numbers consistent, except for a request too many. */
  lemma StepConsistent(p: Proxy, e: Event)
    requires Consistent(p)
    ensures Consistent(Next(p, e)) <==> !Exhausted(p, e)
  {
    match e {
      case Get(fd, qmiType, known) =>
        if Find(p.conns, fd) < |p.conns| && known {
          AllocKeeps(p, Find(p.conns, fd), qmiType);
        }
      case Release(fd, qmiType, clientId) =>
        var i := Find(p.conns, fd);
        if i < |p.conns| {
          var j := FindClient(p.conns[i].clients, qmiType, clientId);
          if j < |p.conns[i].clients| {
            DropKeeps(p, i, j);
          }
        }
      case Accept(fd) =>
        LiveJoin(p.conns, [Conn(fd, [])]);
        assert Live([Conn(fd, [])]) == [] + Live([]);
        assert Live(p.conns) + [] == Live(p.conns);
      case Disconnect(fd) =>
        var i := Find(p.conns, fd);
        if i < |p.conns| {
          DropAllKeeps(p, i);
          EmptyConnection(DropAll(p, i).conns, i);
        }
    }
  }

  predicate NeverExhausted(p: Proxy, es: seq<Event>) {
    es == [] || (NeverExhausted(p, es[..|es| - 1]) && !Exhausted(Run(p, es[..|es| - 1]), es[|es| - 1]))
  }

  /**
    Over every run from a consistent state, such as the start: the numbers are consistent throughout
    if and only if no client id was asked for beyond 239 live ones.
   */
  lemma {:induction false} RunConsistent(p: Proxy, es: seq<Event>)
    requires Consistent(p)
    ensures NeverExhausted(p, es) <==> forall k :: 0 <= k <= |es| ==> Consistent(Run(p, es[..k]))
  {
    hide Consistent, Exhausted, Next;
    if es == [] {
      assert es[..0] == [];
    } else {
      var before := es[..|es| - 1];
      RunConsistent(p, before);
      assert es[..|es|] == es && before[..|before|] == before;
      assert forall k :: 0 <= k <= |before| ==> es[..k] == before[..k];
      if Consistent(Run(p, before)) {
        StepConsistent(Run(p, before), es[|es| - 1]);
      }
      if NeverExhausted(p, es) {
        forall k | 0 <= k <= |es|
          ensures Consistent(Run(p, es[..k]))
        {
          assert k <= |before| ==> es[..k] == before[..k];
        }
      }
    }
  }

  lemma StartIsConsistent()
    ensures Consistent(START)
  {
  }

  function Asks(fd: int, n: nat): (es: seq<Event>)
    ensures |es| == n
  {
    seq(n, i => Get(fd, 1, true))
  }

  lemma {:induction false} AsksFill(p: Proxy, fd: int, n: nat)
    requires Consistent(p) && p.conns == [Conn(fd, [])] && n <= MAX_CLIENTS
    ensures var q := Run(p, Asks(fd, n));
            Consistent(q) && |Live(q.conns)| == n && |q.conns| == 1 && q.conns[0].fd == fd
  {
    hide Consistent, Live, Run, Next;
    RunLast(p, [Accept(fd)]);
    if n == 0 {
      NobodyLive(fd);
    } else {
      AsksFill(p, fd, n - 1);
      assert Asks(fd, n)[..n - 1] == Asks(fd, n - 1);
      RunLast(p, Asks(fd, n));
      OneAsk(Run(p, Asks(fd, n - 1)), fd);
    }
  }

  /** One request too many: from the start, the 240th client on one connection gets the id 0 and breaks the numbers. */
  lemma TooManyClients(fd: int)
    ensures var p := Next(START, Accept(fd));
            Consistent(Run(p, Asks(fd, MAX_CLIENTS))) && !Consistent(Run(p, Asks(fd, MAX_CLIENTS + 1)))
  {
    hide Consistent, Live, Run;
    var p := Next(START, Accept(fd));
    StartIsConsistent();
    StepConsistent(START, Accept(fd));
    assert p.conns == [Conn(fd, [])];
    AsksFill(p, fd, MAX_CLIENTS);
    assert Asks(fd, MAX_CLIENTS + 1)[..MAX_CLIENTS] == Asks(fd, MAX_CLIENTS);
    RunLast(p, Asks(fd, MAX_CLIENTS + 1));
    OneAsk(Run(p, Asks(fd, MAX_CLIENTS)), fd);
  }

  lemma OneAsk(p: Proxy, fd: int)
    requires Consistent(p) && |p.conns| == 1 && p.conns[0].fd == fd
    ensures var q := Next(p, Get(fd, 1, true));
            && (Consistent(q) <==> |Live(p.conns)| < MAX_CLIENTS)
            && |Live(q.conns)| == |Live(p.conns)| + 1 && |q.conns| == 1 && q.conns[0].fd == fd
  {
    hide Consistent, Live;
    AllocKeeps(p, 0, 1);
  }

  lemma NobodyLive(fd: int)
    ensures Live([Conn(fd, [])]) == []
  {
  }

  lemma RunLast(p: Proxy, es: seq<Event>)
    ensures Run(p, []) == p
    ensures es != [] ==> Run(p, es) == Next(Run(p, es[..|es| - 1]), es[|es| - 1])
  {
  }

  // ---------- what a request and a release do ----------

  /** A request gets the lowest client id and the lowest port that no live client holds, on the connection that asks. */
  lemma GetTakesLowest(p: Proxy, i: nat, qmiType: nat)
    requires Consistent(p) && |Live(p.conns)| < 239 && i < |p.conns|
    requires forall k :: 0 <= k < i ==> p.conns[k].fd != p.conns[i].fd
    ensures var q := Next(p, Get(p.conns[i].fd, qmiType, true));
            exists id: nat, port: nat ::
              && q.conns == p.conns[i := Conn(p.conns[i].fd, p.conns[i].clients + [Client(qmiType, id, 1, port)])]
              && q.deleted == p.deleted
              && id > 0 && id !in Ids(Live(p.conns)) && (forall m :: 1 <= m < id ==> m in Ids(Live(p.conns)))
              && port > 0 && port !in Ports(Live(p.conns)) && forall m :: 1 <= m < port ==> m in Ports(Live(p.conns))
  {
    FindIs(p.conns, i);
    LowestIsSmall(p.clientBits, Ids(Live(p.conns)));
    LowestIsSmall(p.portBits, Ports(Live(p.conns)));
    var id, port := FirstFree(p.clientBits, 1), FirstFree(p.portBits, 1);
    var q := Next(p, Get(p.conns[i].fd, qmiType, true));
    assert q.conns == p.conns[i := Conn(p.conns[i].fd, p.conns[i].clients + [Client(qmiType, id, 1, port)])];
  }

  lemma {:induction false} FindIs(conns: seq<Conn>, i: nat)
    requires i < |conns| && forall k :: 0 <= k < i ==> conns[k].fd != conns[i].fd
    ensures Find(conns, conns[i].fd) == i
  {
  }

  /**
    A release takes client j of the connection away, and nobody else; its id and its port are free again, for
    any later request, and the port is reported as deleted.
   */
  lemma ReleaseFrees(p: Proxy, i: nat, j: nat)
    requires Consistent(p) && i < |p.conns| && forall k :: 0 <= k < i ==> p.conns[k].fd != p.conns[i].fd
    requires j < |p.conns[i].clients|
    requires var cs := p.conns[i].clients;
             forall k :: 0 <= k < j ==> !(cs[k].qmiType == cs[j].qmiType && cs[k].clientId == cs[j].clientId)
    ensures var cs := p.conns[i].clients;
            var q := Next(p, Release(p.conns[i].fd, cs[j].qmiType, cs[j].clientId));
            && q.conns == p.conns[i := Conn(p.conns[i].fd, cs[..j] + cs[j + 1..])]
            && q.deleted == p.deleted + [cs[j].port]
            && Consistent(q) && cs[j].clientId !in Ids(Live(q.conns)) && cs[j].port !in Ports(Live(q.conns))
            && cs[j].clientId < |q.clientBits| && q.clientBits[cs[j].clientId] == 0
            && cs[j].port < |q.portBits| && q.portBits[cs[j].port] == 0
  {
    hide Consistent, Live, DropAll;
    var cs := p.conns[i].clients;
    FindIs(p.conns, i);
    FindClientIs(cs, j);
    DropKeeps(p, i, j);
    DropFrees(p, i, j);
  }

  lemma {:induction false} FindClientIs(cs: seq<Client>, j: nat)
    requires j < |cs|
    requires forall k :: 0 <= k < j ==> !(cs[k].qmiType == cs[j].qmiType && cs[k].clientId == cs[j].clientId)
    ensures FindClient(cs, cs[j].qmiType, cs[j].clientId) == j
  {
  }

  lemma DropFrees(p: Proxy, i: nat, j: nat)
    requires Consistent(p) && i < |p.conns| && j < |p.conns[i].clients|
    ensures var c, q := p.conns[i].clients[j], Drop(p, i, j);
            && c.clientId !in Ids(Live(q.conns)) && c.port !in Ports(Live(q.conns))
            && c.clientId < |q.clientBits| && q.clientBits[c.clientId] == 0
            && c.port < |q.portBits| && q.portBits[c.port] == 0
  {
    hide AllMine;
    var q := Drop(p, i, j);
    var cs := p.conns[i].clients;
    var x := cs[j];
    var a, b := Live(p.conns[..i]) + cs[..j], cs[j + 1..] + Live(p.conns[i + 1..]);
    LiveSplit(p.conns, i);
    LiveUpdate(p.conns, i, cs[..j] + cs[j + 1..]);
    OneOut(Live(p.conns[..i]), cs, j, Live(p.conns[i + 1..]));
    assert Live(p.conns) == a + [x] + b && Live(q.conns) == a + b;
    NumbersInsert(a, x, b);
    NumbersGrow(Ids(a), x.clientId, Ids(b), MAX_CLIENTS);
    NumbersGrow(Ports(a), x.port, Ports(b), MAX_CLIENTS);
    MembersInsert(Ids(a), x.clientId, Ids(b), x.clientId);
    MembersInsert(Ports(a), x.port, Ports(b), x.port);
  }

  /** From a connection that is not there, for a service that is not there, or for a client that is not there: nothing happens. */
  lemma NothingToDo(p: Proxy, fd: int, qmiType: nat, clientId: nat, known: bool)
    ensures !known || (forall k :: 0 <= k < |p.conns| ==> p.conns[k].fd != fd) ==> Next(p, Get(fd, qmiType, known)) == p
    ensures (forall k, l :: 0 <= k < |p.conns| && 0 <= l < |p.conns[k].clients| && p.conns[k].fd == fd ==>
               p.conns[k].clients[l].qmiType != qmiType || p.conns[k].clients[l].clientId != clientId) ==>
            Next(p, Release(fd, qmiType, clientId)) == p
  {
  }

  /** Who leaves has no connection any more; its clients are gone, in order, and their ports are reported as deleted. */
  lemma DisconnectFrees(p: Proxy, i: nat)
    requires Consistent(p) && i < |p.conns| && forall k :: 0 <= k < i ==> p.conns[k].fd != p.conns[i].fd
    ensures var q := Next(p, Disconnect(p.conns[i].fd));
            && q.conns == p.conns[..i] + p.conns[i + 1..] && q.deleted == p.deleted + Ports(p.conns[i].clients)
            && Consistent(q)
  {
    FindIs(p.conns, i);
    DropAllReports(p, i);
    DropAllKeeps(p, i);
    EmptyConnection(DropAll(p, i).conns, i);
  }

  lemma {:induction false} DropAllReports(p: Proxy, i: nat)
    requires i < |p.conns|
    ensures var q := DropAll(p, i);
            && q.conns == p.conns[i := Conn(p.conns[i].fd, [])] && q.deleted == p.deleted + Ports(p.conns[i].clients)
    decreases |p.conns[i].clients|
  {
    var cs := p.conns[i].clients;
    if cs == [] {
      assert p.deleted + Ports(cs) == p.deleted && p.conns[i] == Conn(p.conns[i].fd, []);
    } else {
      var q := Drop(p, i, 0);
      DropAllReports(q, i);
      assert cs[..0] + cs[1..] == cs[1..];
      assert Ports(cs) == [cs[0].port] + Ports(cs[1..]);
      assert p.deleted + ([cs[0].port] + Ports(cs[1..])) == p.deleted + [cs[0].port] + Ports(cs[1..]);
    }
  }

  // ---------- data routing ----------

  datatype Delivery = Delivery(fd: int, qmiType: nat, clientId: nat)

  function DeliverTo(c: Conn, cs: seq<Client>, node: nat, port: nat): seq<Delivery> {
    if cs == [] then []
    else DeliverTo(c, cs[..|cs| - 1], node, port) +
         var x := cs[|cs| - 1];
         if x.node == node && x.port == port then [Delivery(c.fd, x.qmiType, x.clientId)] else []
  }

  /** Lines 482 to 504: to whom a data packet for this node and port is sent. */
  function Deliveries(conns: seq<Conn>, node: nat, port: nat): seq<Delivery> {
    if conns == [] then []
    else
      var last := conns[|conns| - 1];
      Deliveries(conns[..|conns| - 1], node, port) + DeliverTo(last, last.clients, node, port)
  }

  function Count(nums: seq<nat>, x: nat): nat {
    if nums == [] then 0 else Count(nums[..|nums| - 1], x) + (if nums[|nums| - 1] == x then 1 else 0)
  }

  lemma {:induction false} CountOfDistinct(nums: seq<nat>, x: nat)
    requires Distinct(nums)
    ensures Count(nums, x) == if x in nums then 1 else 0
  {
    if nums != [] {
      var front := nums[..|nums| - 1];
      CountOfDistinct(front, x);
      assert nums == front + [nums[|nums| - 1]];
    }
  }

  lemma {:induction false} CountJoin(a: seq<nat>, b: seq<nat>, x: nat)
    ensures Count(a + b, x) == Count(a, x) + Count(b, x)
  {
    if b == [] {
      assert a + b == a;
    } else {
      var front := b[..|b| - 1];
      assert (a + b)[..|a + b| - 1] == a + front;
      CountJoin(a, front, x);
    }
  }

  lemma {:induction false} DeliverToCounts(c: Conn, cs: seq<Client>, port: nat)
    requires AllMine(cs)
    ensures |DeliverTo(c, cs, NODE_MYSELF, port)| == Count(Ports(cs), port)
  {
    if cs != [] {
      var front := cs[..|cs| - 1];
      DeliverToCounts(c, front, port);
      assert Ports(cs)[..|cs| - 1] == Ports(front);
    }
  }

  lemma MineJoin(a: seq<Client>, b: seq<Client>, port: nat)
    ensures AllMine(a + b) <==> AllMine(a) && AllMine(b)
    ensures Count(Ports(a + b), port) == Count(Ports(a), port) + Count(Ports(b), port)
  {
    hide Count;
    CountJoin(Ports(a), Ports(b), port);
    assert Ports(a + b) == Ports(a) + Ports(b);
    assert forall k :: 0 <= k < |a| ==> (a + b)[k] == a[k];
    assert forall k :: 0 <= k < |b| ==> (a + b)[|a| + k] == b[k];
  }

  lemma {:induction false} DeliveriesCount(conns: seq<Conn>, port: nat)
    requires AllMine(Live(conns))
    ensures |Deliveries(conns, NODE_MYSELF, port)| == Count(Ports(Live(conns)), port)
  {
    if conns != [] {
      hide DeliverTo, Count, AllMine;
      var n := |conns| - 1;
      var cs := conns[n].clients;
      LiveSplit(conns, n);
      assert Live(conns) == Live(conns[..n]) + cs;
      MineJoin(Live(conns[..n]), cs, port);
      DeliveriesCount(conns[..n], port);
      DeliverToCounts(conns[n], cs, port);
    }
  }

  /** A data packet reaches exactly one client if its port is held, and otherwise none. */
  lemma OneReceiver(p: Proxy, port: nat)
    requires Consistent(p)
    ensures |Deliveries(p.conns, NODE_MYSELF, port)| == if port in Ports(Live(p.conns)) then 1 else 0
  {
    DeliveriesCount(p.conns, port);
    CountOfDistinct(Ports(Live(p.conns)), port);
  }

  /** And that client is the one that holds the port. */
  lemma {:induction false} ReceiverHoldsPort(conns: seq<Conn>, node: nat, port: nat, d: Delivery)
    ensures d in Deliveries(conns, node, port) <==>
            exists i, j :: 0 <= i < |conns| && 0 <= j < |conns[i].clients| && conns[i].fd == d.fd
                           && conns[i].clients[j] == Client(d.qmiType, d.clientId, node, port)
  {
    if conns != [] {
      var n := |conns| - 1;
      ReceiverHoldsPort(conns[..n], node, port, d);
      DeliverToHolds(conns[n], conns[n].clients, node, port, d);
      if i, j :| 0 <= i < |conns| && 0 <= j < |conns[i].clients| && conns[i].fd == d.fd
                 && conns[i].clients[j] == Client(d.qmiType, d.clientId, node, port) {
        assert i < n ==> conns[..n][i] == conns[i];
      }
    }
  }

  lemma {:induction false} DeliverToHolds(c: Conn, cs: seq<Client>, node: nat, port: nat, d: Delivery)
    ensures d in DeliverTo(c, cs, node, port) <==>
            d.fd == c.fd && exists j :: 0 <= j < |cs| && cs[j] == Client(d.qmiType, d.clientId, node, port)
  {
    if cs != [] {
      var n := |cs| - 1;
      DeliverToHolds(c, cs[..n], node, port, d);
      if j :| 0 <= j < |cs| && cs[j] == Client(d.qmiType, d.clientId, node, port) {
        assert j < n ==> cs[..n][j] == cs[j];
      }
    }
  }

  // ---------- the program ----------

  class Server {
    const clientBitmap: array<byte>
    const portBitmap: array<byte>
    var conns: seq<Conn>
    var deleted: seq<nat>

    constructor ()
      ensures Valid() && View() == START && fresh(clientBitmap) && fresh(portBitmap)
    {
      clientBitmap := new byte[CLIENT_IDS](i => 0);
      portBitmap := new byte[PORT_IDS](i => 0);
      conns, deleted := [], [];
    }

    ghost predicate Valid()
    {
      clientBitmap != portBitmap && clientBitmap.Length == CLIENT_IDS && portBitmap.Length == PORT_IDS
    }

    ghost function View(): Proxy
      reads this, clientBitmap, portBitmap
    {
      Proxy(clientBitmap[..], portBitmap[..], conns, deleted)
    }

    /** alloc_client_id and alloc_port_id, which differ only in the bitmap. */
    static method AllocId(bitmap: array<byte>) returns (id: nat)
      requires bitmap.Length >= 1
      modifies bitmap
      ensures id == FirstFree(old(bitmap[..]), 1) && bitmap[..] == Take(old(bitmap[..]), id)
    {
      id := 1;
      while id < bitmap.Length
        invariant 1 <= id <= bitmap.Length && bitmap[..] == old(bitmap[..])
        invariant FirstFree(bitmap[..], 1) == FirstFree(bitmap[..], id)
      {
        if bitmap[id] == 0 {
          bitmap[id] := (id % 256) as byte;
          return;
        }
        id := id + 1;
      }
      id := 0;
    }

    /** free_client_id and free_port_id. */
    static method FreeId(bitmap: array<byte>, id: nat)
      modifies bitmap
      ensures bitmap[..] == Free(old(bitmap[..]), id)
    {
      if id < bitmap.Length && bitmap[id] as nat == id {
        bitmap[id] := 0;
      }
    }

    method FindConnection(fd: int) returns (i: nat)
      ensures i == Find(conns, fd)
    {
      i := 0;
      while i < |conns| && conns[i].fd != fd
        invariant i <= |conns| && Find(conns, fd) == i + Find(conns[i..], fd)
      {
        i := i + 1;
      }
    }

    /** A GET_CLIENT_ID request: the client id that goes into the response, 0 on failure. */
    method GetClientId(fd: int, qmiType: nat, known: bool) returns (clientId: nat)
      requires Valid()
      modifies this`conns, clientBitmap, portBitmap
      ensures View() == Next(old(View()), Get(fd, qmiType, known))
      ensures clientId == if known && Find(old(conns), fd) < |old(conns)| then FirstFree(old(clientBitmap[..]), 1) else 0
    {
      clientId := 0;
      var i := FindConnection(fd);
      if i < |conns| && known {
        clientId := AllocId(clientBitmap);
        var port := AllocId(portBitmap);
        conns := conns[i := conns[i].(clients := conns[i].clients + [Client(qmiType, clientId, NODE_MYSELF, port)])];
      }
    }

    /** release_qrtr_client_id on connection i. */
    method ReleaseOn(i: nat, qmiType: nat, clientId: nat)
      requires Valid() && i < |conns|
      modifies this, clientBitmap, portBitmap
      ensures var p := old(View()); var j := FindClient(p.conns[i].clients, qmiType, clientId);
              View() == if j < |p.conns[i].clients| then Drop(p, i, j) else p
    {
      hide FindClient;
      var cs := conns[i].clients;
      var j := SearchClient(cs, qmiType, clientId);
      if j < |cs| {
        deleted := deleted + [cs[j].port];
        FreeId(clientBitmap, cs[j].clientId);
        FreeId(portBitmap, cs[j].port);
        conns := conns[i := conns[i].(clients := cs[..j] + cs[j + 1..])];
      }
    }

    method SearchClient(cs: seq<Client>, qmiType: nat, clientId: nat) returns (j: nat)
      ensures j == FindClient(cs, qmiType, clientId)
    {
      j := 0;
      while j < |cs| && !(cs[j].qmiType == qmiType && cs[j].clientId == clientId)
        invariant j <= |cs| && FindClient(cs, qmiType, clientId) == j + FindClient(cs[j..], qmiType, clientId)
      {
        j := j + 1;
      }
    }

    method ReleaseClientId(fd: int, qmiType: nat, clientId: nat)
      requires Valid()
      modifies this, clientBitmap, portBitmap
      ensures View() == Next(old(View()), Release(fd, qmiType, clientId))
    {
      var i := FindConnection(fd);
      if i < |conns| {
        ReleaseOn(i, qmiType, clientId);
      }
    }

    /** cleanup_qrtr_connection: always releases the client at the head, by its type and id. */
    method Cleanup(fd: int)
      requires Valid()
      modifies this, clientBitmap, portBitmap
      ensures View() == Next(old(View()), Disconnect(fd))
    {
      var i := FindConnection(fd);
      if i < |conns| {
        while conns[i].clients != []
          invariant i < |conns| && DropAll(View(), i) == DropAll(old(View()), i)
          decreases |conns[i].clients|
        {
          ReleaseOn(i, conns[i].clients[0].qmiType, conns[i].clients[0].clientId);
        }
        conns := conns[..i] + conns[i + 1..];
      }
    }

    /** accept_qrtr_connection. */
    method AcceptConnection(fd: int)
      modifies this`conns
      ensures View() == Next(old(View()), Accept(fd))
    {
      conns := conns + [Conn(fd, [])];
    }

    /** The inner loop of the DATA branch. */
    method DeliverToClients(c: Conn, node: nat, port: nat) returns (sent: seq<Delivery>)
      ensures sent == DeliverTo(c, c.clients, node, port)
    {
      sent := [];
      var j := 0;
      while j < |c.clients|
        invariant j <= |c.clients| && sent == DeliverTo(c, c.clients[..j], node, port)
      {
        assert c.clients[..j + 1][..j] == c.clients[..j];
        if c.clients[j].node == node && c.clients[j].port == port {
          sent := sent + [Delivery(c.fd, c.clients[j].qmiType, c.clients[j].clientId)];
        }
        j := j + 1;
      }
      assert c.clients[..j] == c.clients;
    }

    /** The DATA branch of recv_qrtr_from_dev. */
    method RecvData(node: nat, port: nat) returns (sent: seq<Delivery>)
      ensures sent == Deliveries(conns, node, port)
    {
      hide DeliverTo;
      sent := [];
      var i := 0;
      while i < |conns|
        invariant i <= |conns| && sent == Deliveries(conns[..i], node, port)
      {
        var more := DeliverToClients(conns[i], node, port);
        assert conns[..i + 1][..i] == conns[..i];
        sent := sent + more;
        i := i + 1;
      }
      assert conns[..i] == conns;
    }
  }
}
