/**
  The aggregator under concurrency: transmit calls, the timer and the flush work interleave
  at every point where the code holds no lock.  A run is any sequence of steps.
 */
module AggregatorThreads {
  import opened Bytes
  import opened Aggregator

  /**
    Where a transmit call is: waiting for the lock with its frame; between unlocking and the end of
    dev_queue_xmit; before looking at agg_skb (1042), at the timer (1043), or before starting it (1044).
   */
  datatype Pc =
    | Idle
    | WantLock(frame: Packet)
    | Sending(send: seq<Packet>, left: Option<Packet>)
    | LookSkb
    | LookTimer
    | StartTimer

  /** The flush work: not running, started but without the lock, or handing over what it took. */
  datatype Worker = Asleep | Awake | Handing(taken: seq<Packet>)

  /** tx has one entry per possible caller; firing counts timer callbacks that have not scheduled the work yet. */
  datatype State = State(
    settings: Settings, pending: seq<Packet>, tx: seq<Pc>, timerQueued: bool, firing: nat,
    workPending: bool, worker: Worker, accepted: seq<Packet>, handed: seq<Packet>)

  datatype Move =
    | Call(id: nat, frame: Packet)
    | Lock(id: nat, env: Env)
    | Xmit(id: nat)
    | SeeSkb(id: nat)
    | SeeTimer(id: nat)
    | Start(id: nat)
    | Expire
    | Callback
    | Wake
    | Take
    | Deliver

  predicate At(s: State, id: nat) {
    id < |s.tx|
  }

  predicate Enabled(s: State, m: Move) {
    match m
    case Call(id, frame) => At(s, id) && s.tx[id].Idle? && |frame| <= s.settings.maxSize
    case Lock(id, env) => At(s, id) && s.tx[id].WantLock?
    case Xmit(id) => At(s, id) && s.tx[id].Sending?
    case SeeSkb(id) => At(s, id) && s.tx[id].LookSkb?
    case SeeTimer(id) => At(s, id) && s.tx[id].LookTimer?
    case Start(id) => At(s, id) && s.tx[id].StartTimer?
    case Expire => s.timerQueued
    case Callback => s.firing > 0
    case Wake => s.workPending && s.worker.Asleep?
    case Take => s.worker.Awake?
    case Deliver => s.worker.Handing?
  }

  function Apply(s: State, m: Move): State
    requires Enabled(s, m)
  {
    match m
    case Call(id, frame) => s.(tx := s.tx[id := WantLock(frame)], accepted := s.accepted + [frame])
    case Lock(id, env) =>
      var f := s.tx[id].frame;
      var o := Locked(s.settings, s.pending, f, env);
      s.(pending := o.pending, tx := s.tx[id := Sending(o.send, if o.left then Some(f) else None)])
    case Xmit(id) =>
      s.(handed := s.handed + s.tx[id].send,
         tx := s.tx[id := match s.tx[id].left case Some(f) => WantLock(f) case None => LookSkb])
    case SeeSkb(id) => s.(tx := s.tx[id := if s.pending != [] then LookTimer else Idle])
    case SeeTimer(id) => s.(tx := s.tx[id := if s.timerQueued then Idle else StartTimer])
    case Start(id) => s.(tx := s.tx[id := Idle], timerQueued := true)
    case Expire => s.(timerQueued := false, firing := s.firing + 1)
    case Callback => s.(firing := s.firing - 1, workPending := true)
    case Wake => s.(workPending := false, worker := Awake)
    case Take => s.(pending := [], worker := if s.pending != [] then Handing(s.pending) else Asleep)
    case Deliver => s.(handed := s.handed + s.worker.taken, worker := Asleep)
  }

  /** A run: each move is enabled where it happens. */
  predicate IsRun(s: State, ms: seq<Move>)
    decreases |ms|
  {
    ms == [] || (Enabled(s, ms[0]) && IsRun(Apply(s, ms[0]), ms[1..]))
  }

  function After(s: State, ms: seq<Move>): State
    requires IsRun(s, ms)
    decreases |ms|
  {
    if ms == [] then s else After(Apply(s, ms[0]), ms[1..])
  }

  predicate Initial(s: State) {
    && s.pending == s.accepted == s.handed == [] && s.worker == Asleep
    && !s.timerQueued && s.firing == 0 && !s.workPending && s.settings.maxDatagrams > 1
    && forall i :: 0 <= i < |s.tx| ==> s.tx[i] == Idle
  }

  // ---------- no packet is stranded ----------

  /** Some transmit call has not yet finished its final look at the timer. */
  ghost predicate Busy(s: State) {
    exists i :: 0 <= i < |s.tx| && !s.tx[i].Idle?
  }

  ghost predicate Watched(s: State) {
    s.pending != [] ==> s.timerQueued || s.firing > 0 || s.workPending || s.worker.Awake? || Busy(s)
  }

  lemma ApplyKeepsWatched(s: State, m: Move)
    requires Enabled(s, m) && Watched(s)
    ensures Watched(Apply(s, m))
  {
    hide Locked;
    var t := Apply(s, m);
    if m.Call? || m.Lock? || m.Xmit? {
      assert !t.tx[m.id].Idle?;
    } else if m.SeeSkb? && s.pending != [] {
      assert !t.tx[m.id].Idle?;
    } else if m.SeeTimer? && !s.timerQueued {
      assert !t.tx[m.id].Idle?;
    } else if m.Expire? || m.Callback? || m.Wake? || m.Take? || m.Deliver? {
      assert t.tx == s.tx;
      if Busy(s) {
        var i :| 0 <= i < |s.tx| && !s.tx[i].Idle?;
        assert !t.tx[i].Idle?;
      }
    }
  }

  /** In every interleaving, pending frames have a queued timer, flush work on its way, or a call still looking after them. */
  lemma {:induction false} NeverStranded(s: State, ms: seq<Move>)
    requires Watched(s) && IsRun(s, ms)
    ensures Watched(After(s, ms))
    decreases |ms|
  {
    if ms != [] {
      ApplyKeepsWatched(s, ms[0]);
      NeverStranded(Apply(s, ms[0]), ms[1..]);
    }
  }

  /** What the timer and the worker still do on their own, once the worker is not handing anything over. */
  function WakeUp(s: State): seq<Move> {
    if s.worker.Awake? then [Take]
    else if s.workPending then [Wake, Take]
    else if s.firing > 0 then [Callback, Wake, Take]
    else [Expire, Callback, Wake, Take]
  }

  /** Once no call is active, at most five timer and worker steps take the pending frames away. */
  lemma PendingIsFlushed(s: State)
    requires Watched(s) && !Busy(s) && s.pending != []
    ensures var ms := (if s.worker.Handing? then [Deliver] else []) + WakeUp(s);
            |ms| <= 5 && IsRun(s, ms) && After(s, ms).pending == []
  {
    if s.worker.Handing? {
      var t := Apply(s, Deliver);
      var ms := [Deliver] + WakeUp(s);
      assert ms[0] == Deliver && ms[1..] == WakeUp(t);
      WakeUpTakes(t);
    } else {
      assert [] + WakeUp(s) == WakeUp(s);
      WakeUpTakes(s);
    }
  }

  lemma WakeUpTakes(s: State)
    requires !s.worker.Handing? && (s.timerQueued || s.firing > 0 || s.workPending || s.worker.Awake?)
    ensures IsRun(s, WakeUp(s)) && After(s, WakeUp(s)).pending == []
    decreases !s.worker.Awake?, !s.workPending, s.firing == 0
  {
    if !s.worker.Awake? {
      var m := WakeUp(s)[0];
      assert WakeUp(s)[1..] == WakeUp(Apply(s, m));
      WakeUpTakes(Apply(s, m));
    } else {
      assert WakeUp(s)[1..] == [];
    }
  }

  // ---------- nothing is lost or doubled, and the limits hold ----------

  function Times(f: Packet, fs: seq<Packet>): nat {
    multiset(fs)[f]
  }

  /** How often a call, all calls, or the worker hold the frame f. */
  function Held(f: Packet, pc: Pc): nat {
    match pc
    case WantLock(g) => if f == g then 1 else 0
    case Sending(send, left) => Times(f, send) + (if left == Some(f) then 1 else 0)
    case _ => 0
  }

  function InFlight(f: Packet, tx: seq<Pc>): nat {
    if tx == [] then 0 else Held(f, tx[0]) + InFlight(f, tx[1..])
  }

  function Taken(f: Packet, w: Worker): nat {
    match w case Handing(fs) => Times(f, fs) case _ => 0
  }

  lemma {:induction false} InFlightUpdate(f: Packet, tx: seq<Pc>, i: nat, pc: Pc)
    requires i < |tx|
    ensures InFlight(f, tx[i := pc]) + Held(f, tx[i]) == InFlight(f, tx) + Held(f, pc)
  {
    hide Held;
    var tx' := tx[i := pc];
    assert InFlight(f, tx') == Held(f, tx'[0]) + InFlight(f, tx'[1..]);
    if i == 0 {
      assert tx'[1..] == tx[1..];
    } else {
      assert tx'[1..] == tx[1..][i - 1 := pc];
      InFlightUpdate(f, tx[1..], i - 1, pc);
    }
  }

  /** Every accepted frame is, as often as it was accepted, handed over, pending, or held by a call or the worker. */
  ghost predicate Conserved(s: State) {
    forall f :: Times(f, s.accepted) == Times(f, s.handed) + Times(f, s.pending) + InFlight(f, s.tx) + Taken(f, s.worker)
  }

  predicate PcFits(s: Settings, pc: Pc) {
    match pc
    case WantLock(f) => |f| <= s.maxSize
    case Sending(send, left) => Fits(s, send) && (left.Some? ==> |left.value| <= s.maxSize)
    case _ => true
  }

  ghost predicate WithinLimits(s: State) {
    && s.settings.maxDatagrams > 1 && Bounded(s.settings, s.pending)
    && (forall i :: 0 <= i < |s.tx| ==> PcFits(s.settings, s.tx[i]))
    && (s.worker.Handing? ==> Fits(s.settings, s.worker.taken))
  }

  lemma TimesAdd(f: Packet, a: seq<Packet>, b: seq<Packet>)
    ensures Times(f, a + b) == Times(f, a) + Times(f, b)
  {
  }

  lemma LockedKeepsFrame(s: Settings, pending: seq<Packet>, frame: Packet, e: Env, f: Packet)
    ensures var o := Locked(s, pending, frame, e);
            Times(f, pending) + Held(f, WantLock(frame))
              == Times(f, o.pending) + Held(f, Sending(o.send, if o.left then Some(frame) else None))
  {
  }

  lemma ApplyConserves(s: State, m: Move, f: Packet)
    requires Enabled(s, m)
    requires Times(f, s.accepted) == Times(f, s.handed) + Times(f, s.pending) + InFlight(f, s.tx) + Taken(f, s.worker)
    ensures var t := Apply(s, m);
            Times(f, t.accepted) == Times(f, t.handed) + Times(f, t.pending) + InFlight(f, t.tx) + Taken(f, t.worker)
  {
    hide Locked, InFlight;
    var t := Apply(s, m);
    if m.Call? || m.Lock? || m.Xmit? || m.SeeSkb? || m.SeeTimer? || m.Start? {
      InFlightUpdate(f, s.tx, m.id, t.tx[m.id]);
    }
    match m {
      case Call(id, frame) => TimesAdd(f, s.accepted, [frame]);
      case Lock(id, env) => LockedKeepsFrame(s.settings, s.pending, s.tx[id].frame, env, f);
      case Xmit(id) => TimesAdd(f, s.handed, s.tx[id].send);
      case Deliver => TimesAdd(f, s.handed, s.worker.taken);
      case _ =>
    }
  }

  lemma ApplyKeepsLimits(s: State, m: Move)
    requires Enabled(s, m) && WithinLimits(s)
    ensures WithinLimits(Apply(s, m))
  {
    hide Locked;
    if m.Lock? {
      LockedBounds(s.settings, s.pending, s.tx[m.id].frame, m.env);
    }
  }

  lemma AllApplyConserve(s: State, m: Move)
    requires Enabled(s, m) && Conserved(s)
    ensures Conserved(Apply(s, m))
  {
    forall f
      ensures var t := Apply(s, m);
              Times(f, t.accepted) == Times(f, t.handed) + Times(f, t.pending) + InFlight(f, t.tx) + Taken(f, t.worker)
    {
      ApplyConserves(s, m, f);
    }
  }

  /** Both hold in every interleaving of any number of calls with the timer and the worker. */
  lemma {:induction false} ConservedAndBounded(s: State, ms: seq<Move>)
    requires Conserved(s) && WithinLimits(s) && IsRun(s, ms)
    ensures Conserved(After(s, ms)) && WithinLimits(After(s, ms))
    decreases |ms|
  {
    hide Conserved, WithinLimits, Apply;
    if ms != [] {
      AllApplyConserve(s, ms[0]);
      ApplyKeepsLimits(s, ms[0]);
      ConservedAndBounded(Apply(s, ms[0]), ms[1..]);
    }
  }

  lemma {:induction false} AllIdleHoldNothing(f: Packet, tx: seq<Pc>)
    requires forall i :: 0 <= i < |tx| ==> tx[i] == Idle
    ensures InFlight(f, tx) == 0
  {
    if tx != [] {
      AllIdleHoldNothing(f, tx[1..]);
    }
  }

  lemma InitialIsGood(s: State)
    requires Initial(s)
    ensures Watched(s) && Conserved(s) && WithinLimits(s)
  {
    forall f
      ensures InFlight(f, s.tx) == 0
    {
      AllIdleHoldNothing(f, s.tx);
    }
    assert Concat(s.pending) == [];
  }

  /** All three together, from the start: no packet is stranded, lost, doubled or sent in too large an aggregate. */
  lemma EveryInterleaving(s: State, ms: seq<Move>)
    requires Initial(s) && IsRun(s, ms)
    ensures Watched(After(s, ms)) && Conserved(After(s, ms)) && WithinLimits(After(s, ms))
  {
    InitialIsGood(s);
    NeverStranded(s, ms);
    ConservedAndBounded(s, ms);
  }

  // ---------- the order of transmission ----------

  /** Who has taken frames out of the pending buffer and not yet handed them over. */
  datatype Holder = Caller(id: nat) | Flusher

  /**
    A state with its history: the holders in the order in which they took their frames under the lock,
    and every frame in the order in which the locked section placed it.
   */
  datatype Traced = Traced(s: State, holders: seq<Holder>, locked: seq<Packet>)

  function FramesOf(s: State, h: Holder): seq<Packet> {
    match h
    case Caller(id) => if At(s, id) && s.tx[id].Sending? then s.tx[id].send else []
    case Flusher => if s.worker.Handing? then s.worker.taken else []
  }

  function Outstanding(s: State, hs: seq<Holder>): seq<Packet> {
    if hs == [] then [] else FramesOf(s, hs[0]) + Outstanding(s, hs[1..])
  }

  function Without(hs: seq<Holder>, h: Holder): seq<Holder> {
    if hs == [] then [] else if hs[0] == h then hs[1..] else [hs[0]] + Without(hs[1..], h)
  }

  function Advance(t: Traced, m: Move): (t': Traced)
    requires Enabled(t.s, m)
    ensures t'.s == Apply(t.s, m)
  {
    var u := t.(s := Apply(t.s, m));
    match m
    case Lock(id, env) =>
      var f := t.s.tx[id].frame;
      var o := Locked(t.s.settings, t.s.pending, f, env);
      u.(holders := t.holders + (if o.send != [] then [Caller(id)] else []),
         locked := t.locked + (if o.left then [] else [f]))
    case Take => u.(holders := t.holders + (if t.s.pending != [] then [Flusher] else []))
    case Xmit(id) => u.(holders := Without(t.holders, Caller(id)))
    case Deliver => u.(holders := Without(t.holders, Flusher))
    case _ => u
  }

  function End(t: Traced, ms: seq<Move>): Traced
    requires IsRun(t.s, ms)
    decreases |ms|
  {
    if ms == [] then t else End(Advance(t, ms[0]), ms[1..])
  }

  /** The holders are exactly those that hold frames, once each. */
  ghost predicate Tracked(t: Traced) {
    Distinct(t.holders) && forall h :: h in t.holders <==> FramesOf(t.s, h) != []
  }

  /** What was handed over, then what is on its way, then what is pending, is in the order of the locks. */
  ghost predicate InOrder(t: Traced) {
    t.s.handed + Outstanding(t.s, t.holders) + t.s.pending == t.locked
  }

  /** The mover that hands frames over is the one that has held its frames longest. */
  predicate InTurn(t: Traced, m: Move) {
    match m
    case Xmit(id) => FramesOf(t.s, Caller(id)) == [] || (t.holders != [] && t.holders[0] == Caller(id))
    case Deliver => FramesOf(t.s, Flusher) == [] || (t.holders != [] && t.holders[0] == Flusher)
    case _ => true
  }

  predicate AllInTurn(t: Traced, ms: seq<Move>)
    requires IsRun(t.s, ms)
    decreases |ms|
  {
    ms == [] || (InTurn(t, ms[0]) && AllInTurn(Advance(t, ms[0]), ms[1..]))
  }

  /** A frame was handed over before one that was locked earlier. */
  ghost predicate Overtaken(t: Traced) {
    exists i :: 0 <= i < |t.s.handed| && i < |t.locked| && t.s.handed[i] != t.locked[i]
  }

  lemma {:induction false} OutstandingSame(s: State, u: State, hs: seq<Holder>)
    requires forall h :: h in hs ==> FramesOf(u, h) == FramesOf(s, h)
    ensures Outstanding(u, hs) == Outstanding(s, hs)
  {
    if hs != [] {
      assert forall h :: h in hs[1..] ==> h in hs;
      OutstandingSame(s, u, hs[1..]);
    }
  }

  lemma {:induction false} OutstandingOneMore(s: State, hs: seq<Holder>, h: Holder)
    ensures Outstanding(s, hs + [h]) == Outstanding(s, hs) + FramesOf(s, h)
  {
    if hs == [] {
      assert hs + [h] == [h] && [h][1..] == [];
      assert FramesOf(s, h) + [] == [] + FramesOf(s, h);
    } else {
      assert (hs + [h])[1..] == hs[1..] + [h];
      OutstandingOneMore(s, hs[1..], h);
      assert FramesOf(s, hs[0]) + (Outstanding(s, hs[1..]) + FramesOf(s, h))
          == FramesOf(s, hs[0]) + Outstanding(s, hs[1..]) + FramesOf(s, h);
    }
  }

  lemma OutstandingTaken(s: State, hs: seq<Holder>, h: Holder)
    ensures Outstanding(s, hs + (if FramesOf(s, h) != [] then [h] else [])) == Outstanding(s, hs) + FramesOf(s, h)
  {
    OutstandingOneMore(s, hs, h);
    assert hs + [] == hs && Outstanding(s, hs) + [] == Outstanding(s, hs);
  }

  lemma {:induction false} WithoutRemoves(hs: seq<Holder>, h: Holder)
    requires Distinct(hs)
    ensures Distinct(Without(hs, h)) && forall g :: g in Without(hs, h) <==> g in hs && g != h
  {
    if hs != [] && hs[0] != h {
      WithoutRemoves(hs[1..], h);
      assert hs == [hs[0]] + hs[1..];
      assert hs[0] !in hs[1..];
    }
  }

  /** The frames of one holder leave, from wherever it stands. */
  lemma {:induction false} WithoutOutstanding(s: State, hs: seq<Holder>, h: Holder)
    requires h in hs && forall g :: g in hs ==> FramesOf(s, g) != []
    ensures hs[0] == h ==> Outstanding(s, hs) == FramesOf(s, h) + Outstanding(s, Without(hs, h))
    ensures |Outstanding(s, hs)| == |FramesOf(s, h)| + |Outstanding(s, Without(hs, h))|
    ensures |Outstanding(s, hs)| > 0 && Outstanding(s, hs)[0] == FramesOf(s, hs[0])[0]
    ensures hs[0] != h ==> exists k :: 0 < k < |Outstanding(s, hs)| && Outstanding(s, hs)[k] == FramesOf(s, h)[0]
  {
    if hs[0] != h {
      assert forall g :: g in hs[1..] ==> g in hs;
      WithoutOutstanding(s, hs[1..], h);
      var rest := Outstanding(s, hs[1..]);
      var j :| 0 <= j < |rest| && rest[j] == FramesOf(s, h)[0];
      var k := |FramesOf(s, hs[0])| + j;
      assert Outstanding(s, hs)[k] == rest[j];
    }
  }

  /** The steps that neither take frames out of the pending buffer nor hand any over. */
  lemma FramesStay(s: State, m: Move)
    requires Enabled(s, m) && !m.Lock? && !m.Take? && !m.Xmit? && !m.Deliver?
    ensures forall h :: FramesOf(Apply(s, m), h) == FramesOf(s, h)
  {
  }

  /** A hand-over takes the frames of its holder and of no other. */
  lemma FramesLeave(s: State, m: Move, h: Holder)
    requires Enabled(s, m) && ((m.Xmit? && h == Caller(m.id)) || (m.Deliver? && h == Flusher))
    ensures FramesOf(Apply(s, m), h) == [] && forall g :: g != h ==> FramesOf(Apply(s, m), g) == FramesOf(s, g)
    ensures Apply(s, m).handed == s.handed + FramesOf(s, h) && Apply(s, m).pending == s.pending
  {
  }

  lemma TrackedStep(t: Traced, m: Move)
    requires Enabled(t.s, m) && Tracked(t)
    ensures Tracked(Advance(t, m))
  {
    hide Locked, Without, Outstanding;
    var u := Advance(t, m);
    match m {
      case Xmit(id) =>
        WithoutRemoves(t.holders, Caller(id));
        FramesLeave(t.s, m, Caller(id));
      case Deliver =>
        WithoutRemoves(t.holders, Flusher);
        FramesLeave(t.s, m, Flusher);
      case Lock(id, env) => assert FramesOf(t.s, Caller(id)) == [];
      case Take => assert FramesOf(t.s, Flusher) == [];
      case _ => FramesStay(t.s, m);
    }
  }

  lemma {:induction false} WithoutNothing(hs: seq<Holder>, h: Holder)
    requires h !in hs
    ensures Without(hs, h) == hs
  {
    if hs != [] {
      WithoutNothing(hs[1..], h);
    }
  }

  /** Holder h hands over: in order if it stands first, and otherwise it overtakes. */
  lemma HandOver(t: Traced, u: Traced, h: Holder)
    requires Tracked(t) && InOrder(t) && Distinct(t.locked)
    requires u.s.handed == t.s.handed + FramesOf(t.s, h) && u.s.pending == t.s.pending && u.locked == t.locked
    requires u.holders == Without(t.holders, h) && forall g :: g != h ==> FramesOf(u.s, g) == FramesOf(t.s, g)
    ensures FramesOf(t.s, h) == [] || t.holders[0] == h ==> InOrder(u)
    ensures FramesOf(t.s, h) != [] && t.holders[0] != h ==> Overtaken(u)
  {
    hide FramesOf;
    var fs := FramesOf(t.s, h);
    var out, out' := Outstanding(t.s, t.holders), Outstanding(u.s, u.holders);
    WithoutRemoves(t.holders, h);
    OutstandingSame(t.s, u.s, u.holders);
    if fs == [] {
      WithoutNothing(t.holders, h);
      assert u.s.handed == t.s.handed;
    } else {
      WithoutOutstanding(t.s, t.holders, h);
      var n := |t.s.handed|;
      if t.holders[0] == h {
        assert t.s.handed + (fs + out') == u.s.handed + out';
      } else {
        var k :| 0 < k < |out| && out[k] == fs[0];
        assert t.locked[n + k] == fs[0] && t.locked[n] == out[0];
        assert u.s.handed[n] == fs[0] && t.locked[n] != t.locked[n + k];
      }
    }
  }

  /** The locked section puts the frame behind everything else. */
  lemma LockInOrder(t: Traced, id: nat, env: Env)
    requires Enabled(t.s, Lock(id, env)) && Tracked(t) && InOrder(t)
    ensures InOrder(Advance(t, Lock(id, env)))
  {
    hide Locked, Outstanding;
    var f := t.s.tx[id].frame;
    var o := Locked(t.s.settings, t.s.pending, f, env);
    var u := Advance(t, Lock(id, env));
    assert FramesOf(u.s, Caller(id)) == o.send;
    LockedConserves(t.s.settings, t.s.pending, f, env);
    assert FramesOf(t.s, Caller(id)) == [];
    OutstandingSame(t.s, u.s, t.holders);
    OutstandingTaken(u.s, t.holders, Caller(id));
    var out := Outstanding(t.s, t.holders);
    assert Outstanding(u.s, u.holders) == out + o.send;
    assert u.s.handed + (out + o.send) + o.pending == t.s.handed + out + (o.send + o.pending);
    assert t.locked + [f] == t.s.handed + out + (t.s.pending + [f]);
    if o.left {
      Cancel(t.s.pending, o.send + o.pending, [f]);
    } else {
      assert o.send + o.pending + [] == o.send + o.pending;
    }
  }

  lemma Cancel<T>(a: seq<T>, b: seq<T>, c: seq<T>)
    requires a + c == b + c
    ensures a == b
  {
    assert |a| == |b| && a == (a + c)[..|a|] && b == (b + c)[..|a|];
  }

  lemma TakeInOrder(t: Traced)
    requires Enabled(t.s, Take) && Tracked(t) && InOrder(t)
    ensures InOrder(Advance(t, Take))
  {
    var u := Advance(t, Take);
    assert FramesOf(t.s, Flusher) == [];
    OutstandingSame(t.s, u.s, t.holders);
    OutstandingTaken(u.s, t.holders, Flusher);
    var out := Outstanding(t.s, t.holders);
    assert FramesOf(u.s, Flusher) == t.s.pending;
    assert t.s.handed + (out + t.s.pending) + [] == t.s.handed + out + t.s.pending;
  }

  /** One step keeps the order of the locks if the mover is in turn, and otherwise lets a frame overtake. */
  lemma StepInOrder(t: Traced, m: Move)
    requires Enabled(t.s, m) && Tracked(t) && InOrder(t) && Distinct(t.locked)
    ensures if InTurn(t, m) then InOrder(Advance(t, m)) else Overtaken(Advance(t, m))
  {
    hide Locked, Outstanding, Without, FramesOf;
    var u := Advance(t, m);
    match m {
      case Lock(id, env) => LockInOrder(t, id, env);
      case Take => TakeInOrder(t);
      case Xmit(id) =>
        FramesLeave(t.s, m, Caller(id));
        HandOver(t, u, Caller(id));
      case Deliver =>
        FramesLeave(t.s, m, Flusher);
        HandOver(t, u, Flusher);
      case _ =>
        FramesStay(t.s, m);
        OutstandingSame(t.s, u.s, t.holders);
    }
  }

  lemma HistoriesStep(t: Traced, m: Move)
    requires Enabled(t.s, m)
    ensures var u := Advance(t, m); t.s.handed <= u.s.handed && t.locked <= u.locked && t.s.accepted <= u.s.accepted
  {
    hide Locked, Without;
  }

  /** Nothing mends it: both histories only grow. */
  lemma {:induction false} HistoriesGrow(t: Traced, ms: seq<Move>)
    requires IsRun(t.s, ms)
    ensures var u := End(t, ms);
            u.s == After(t.s, ms) && t.s.handed <= u.s.handed && t.locked <= u.locked && t.s.accepted <= u.s.accepted
    decreases |ms|
  {
    hide Apply, Advance, Enabled;
    if ms != [] {
      HistoriesStep(t, ms[0]);
      HistoriesGrow(Advance(t, ms[0]), ms[1..]);
    }
  }

  lemma StillOvertaken(t: Traced, ms: seq<Move>)
    requires IsRun(t.s, ms) && Overtaken(t)
    ensures !InOrder(End(t, ms))
  {
    HistoriesGrow(t, ms);
    var u := End(t, ms);
    var i :| 0 <= i < |t.s.handed| && i < |t.locked| && t.s.handed[i] != t.locked[i];
    assert (u.s.handed + Outstanding(u.s, u.holders) + u.s.pending)[i] == u.s.handed[i];
  }

  /**
    Exactly when the order of the locks survives a whole run, for distinct frames: whoever handed frames
    over had held them longest.
   */
  lemma {:induction false} RunInOrder(t: Traced, ms: seq<Move>)
    requires Tracked(t) && InOrder(t) && IsRun(t.s, ms) && Distinct(End(t, ms).locked)
    ensures Tracked(End(t, ms)) && (InOrder(End(t, ms)) <==> AllInTurn(t, ms))
    decreases |ms|
  {
    hide Tracked, InOrder, Overtaken, Advance, InTurn;
    HistoriesGrow(t, ms);
    if ms != [] {
      PrefixIsDistinct(t.locked, End(t, ms).locked);
      StepInOrder(t, ms[0]);
      TrackedStep(t, ms[0]);
      if InTurn(t, ms[0]) {
        RunInOrder(Advance(t, ms[0]), ms[1..]);
      } else {
        StillOvertaken(Advance(t, ms[0]), ms[1..]);
        RunTracked(Advance(t, ms[0]), ms[1..]);
      }
    }
  }

  lemma {:induction false} RunTracked(t: Traced, ms: seq<Move>)
    requires Tracked(t) && IsRun(t.s, ms)
    ensures Tracked(End(t, ms))
    decreases |ms|
  {
    hide Tracked;
    if ms != [] {
      TrackedStep(t, ms[0]);
      RunTracked(Advance(t, ms[0]), ms[1..]);
    }
  }

  lemma PrefixIsDistinct<T(!new)>(a: seq<T>, b: seq<T>)
    requires a <= b && Distinct(b)
    ensures Distinct(a)
  {
  }

  /** A call without the frames it is handing over: what it still has to place. */
  function Unplaced(pc: Pc): Pc {
    if pc.Sending? then Sending([], pc.left) else pc
  }

  function AllUnplaced(tx: seq<Pc>): (u: seq<Pc>)
    ensures |u| == |tx|
  {
    seq(|tx|, i requires 0 <= i < |tx| => Unplaced(tx[i]))
  }

  /** Every accepted frame has been placed under the lock or is still with its call. */
  ghost predicate Accounted(t: Traced) {
    forall f :: Times(f, t.s.accepted) == Times(f, t.locked) + InFlight(f, AllUnplaced(t.s.tx))
  }

  /** Frames are placed in the order of the calls. */
  ghost predicate FollowsCalls(t: Traced) {
    t.locked <= t.s.accepted
  }

  /** The call that places its frame is the oldest that has not placed one yet. */
  predicate PlacesInTurn(t: Traced, m: Move)
    requires Enabled(t.s, m)
  {
    m.Lock? && !Locked(t.s.settings, t.s.pending, t.s.tx[m.id].frame, m.env).left ==>
      |t.locked| < |t.s.accepted| && t.s.accepted[|t.locked|] == t.s.tx[m.id].frame
  }

  predicate AllPlacedInTurn(t: Traced, ms: seq<Move>)
    requires IsRun(t.s, ms)
    decreases |ms|
  {
    ms == [] || (PlacesInTurn(t, ms[0]) && AllPlacedInTurn(Advance(t, ms[0]), ms[1..]))
  }

  lemma AccountedFrame(t: Traced, m: Move, f: Packet)
    requires Enabled(t.s, m)
    requires Times(f, t.s.accepted) == Times(f, t.locked) + InFlight(f, AllUnplaced(t.s.tx))
    ensures var u := Advance(t, m); Times(f, u.s.accepted) == Times(f, u.locked) + InFlight(f, AllUnplaced(u.s.tx))
  {
    hide Locked, InFlight, Without, AllUnplaced, Times;
    if m.Lock? {
      AccountedLock(t, m.id, m.env, f);
    } else {
      var u := Advance(t, m);
      if m.Call? {
        UnplacedUpdate(f, t.s.tx, m.id, WantLock(m.frame));
        TimesAdd(f, t.s.accepted, [m.frame]);
        TimesOne(f, m.frame);
      } else if m.Xmit? || m.SeeSkb? || m.SeeTimer? || m.Start? {
        TimesNone(f);
        UnplacedUpdate(f, t.s.tx, m.id, u.s.tx[m.id]);
      }
    }
  }

  lemma TimesOne(f: Packet, g: Packet)
    ensures Times(f, [g]) == if f == g then 1 else 0
  {
  }

  lemma TimesNone(f: Packet)
    ensures Times(f, []) == 0
  {
  }

  lemma AccountedLock(t: Traced, id: nat, env: Env, f: Packet)
    requires Enabled(t.s, Lock(id, env))
    requires Times(f, t.s.accepted) == Times(f, t.locked) + InFlight(f, AllUnplaced(t.s.tx))
    ensures var u := Advance(t, Lock(id, env)); Times(f, u.s.accepted) == Times(f, u.locked) + InFlight(f, AllUnplaced(u.s.tx))
  {
    hide Locked, InFlight, AllUnplaced, Times;
    var g := t.s.tx[id].frame;
    var o := Locked(t.s.settings, t.s.pending, g, env);
    UnplacedUpdate(f, t.s.tx, id, Sending(o.send, if o.left then Some(g) else None));
    TimesAdd(f, t.locked, [g]);
    TimesOne(f, g);
    TimesNone(f);
    assert t.locked + [] == t.locked;
  }

  lemma UnplacedUpdate(f: Packet, tx: seq<Pc>, i: nat, pc: Pc)
    requires i < |tx|
    ensures InFlight(f, AllUnplaced(tx[i := pc])) + Held(f, Unplaced(tx[i])) == InFlight(f, AllUnplaced(tx)) + Held(f, Unplaced(pc))
  {
    hide InFlight, Held;
    InFlightUpdate(f, AllUnplaced(tx), i, Unplaced(pc));
    assert AllUnplaced(tx[i := pc]) == AllUnplaced(tx)[i := Unplaced(pc)];
  }

  lemma {:induction false} RunAccounted(t: Traced, ms: seq<Move>)
    requires Accounted(t) && IsRun(t.s, ms)
    ensures Accounted(End(t, ms))
    decreases |ms|
  {
    hide Advance, InFlight;
    if ms != [] {
      forall f
        ensures var u := Advance(t, ms[0]); Times(f, u.s.accepted) == Times(f, u.locked) + InFlight(f, AllUnplaced(u.s.tx))
      {
        AccountedFrame(t, ms[0], f);
      }
      RunAccounted(Advance(t, ms[0]), ms[1..]);
    }
  }

  lemma {:induction false} InFlightHas(f: Packet, tx: seq<Pc>, i: nat)
    requires i < |tx|
    ensures InFlight(f, tx) >= Held(f, tx[i])
  {
    hide Held;
    if i > 0 {
      InFlightHas(f, tx[1..], i - 1);
    }
  }

  lemma StepFollowsCalls(t: Traced, m: Move)
    requires Enabled(t.s, m) && Accounted(t) && FollowsCalls(t)
    ensures PlacesInTurn(t, m) ==> FollowsCalls(Advance(t, m))
    ensures !PlacesInTurn(t, m) ==> Passed(Advance(t, m))
  {
    hide Locked;
    var n := |t.locked|;
    if m.Lock? && !Locked(t.s.settings, t.s.pending, t.s.tx[m.id].frame, m.env).left {
      var f := t.s.tx[m.id].frame;
      assert Held(f, AllUnplaced(t.s.tx)[m.id]) == 1;
      InFlightHas(f, AllUnplaced(t.s.tx), m.id);
      assert t.locked != t.s.accepted;
      assert n < |t.s.accepted|;
      assert Advance(t, m).locked[n] == f;
    }
  }

  /** A frame was placed before one that was accepted earlier. */
  ghost predicate Passed(t: Traced) {
    exists i :: 0 <= i < |t.locked| && i < |t.s.accepted| && t.locked[i] != t.s.accepted[i]
  }

  /** Exactly when frames are placed in the order of the calls over a whole run. */
  lemma {:induction false} RunFollowsCalls(t: Traced, ms: seq<Move>)
    requires Accounted(t) && FollowsCalls(t) && IsRun(t.s, ms)
    ensures FollowsCalls(End(t, ms)) <==> AllPlacedInTurn(t, ms)
    decreases |ms|
  {
    hide FollowsCalls, PlacesInTurn, Accounted, Passed;
    if ms != [] {
      var u := Advance(t, ms[0]);
      StepFollowsCalls(t, ms[0]);
      RunAccounted(t, [ms[0]]);
      assert [ms[0]][1..] == [] && End(t, [ms[0]]) == u;
      if PlacesInTurn(t, ms[0]) {
        RunFollowsCalls(u, ms[1..]);
      } else {
        StillPassed(u, ms[1..]);
      }
    }
  }

  lemma StillPassed(t: Traced, ms: seq<Move>)
    requires IsRun(t.s, ms) && Passed(t)
    ensures !FollowsCalls(End(t, ms))
  {
    HistoriesGrow(t, ms);
    var i :| 0 <= i < |t.locked| && i < |t.s.accepted| && t.locked[i] != t.s.accepted[i];
    assert End(t, ms).locked[i] == t.locked[i] && End(t, ms).s.accepted[i] == t.s.accepted[i];
  }

  lemma DistinctCounts(fs: seq<Packet>, gs: seq<Packet>)
    requires Distinct(gs) && forall f :: Times(f, fs) <= Times(f, gs)
    ensures Distinct(fs)
  {
    forall i, j | 0 <= i < j < |fs|
      ensures fs[i] != fs[j]
    {
      if fs[i] == fs[j] {
        TimesAdd(fs[i], fs[..i + 1], fs[i + 1..]);
        assert fs == fs[..i + 1] + fs[i + 1..];
        assert fs[..i + 1][i] == fs[i] && fs[i + 1..][j - i - 1] == fs[i];
        AtMostOnce(gs, fs[i]);
        assert false;
      }
    }
  }

  lemma {:induction false} AtMostOnce(fs: seq<Packet>, f: Packet)
    requires Distinct(fs)
    ensures Times(f, fs) <= 1
  {
    if fs != [] {
      assert fs == [fs[0]] + fs[1..];
      TimesAdd(f, [fs[0]], fs[1..]);
      AtMostOnce(fs[1..], f);
      assert fs[0] !in fs[1..];
    }
  }

  /**
    The order of whole runs, for distinct frames, from the start.  Frames leave in the order of the locks
    exactly if each hand-over is by the holder that took its frames first; locks follow the calls exactly
    if each lock places the oldest frame not placed yet; both together, and frames leave as accepted.
   */
  lemma OrderOfRuns(s: State, ms: seq<Move>)
    requires Initial(s) && IsRun(s, ms) && Distinct(After(s, ms).accepted)
    ensures var t := Traced(s, [], []);
            && End(t, ms).s == After(s, ms)
            && (InOrder(End(t, ms)) <==> AllInTurn(t, ms))
            && (FollowsCalls(End(t, ms)) <==> AllPlacedInTurn(t, ms))
            && (AllInTurn(t, ms) && AllPlacedInTurn(t, ms) ==> After(s, ms).handed <= After(s, ms).accepted)
  {
    hide Locked, InOrder, FollowsCalls, End, AllInTurn, AllPlacedInTurn, InFlight;
    var t := Traced(s, [], []);
    StartIsOrdered(s);
    HistoriesGrow(t, ms);
    RunAccounted(t, ms);
    var u := End(t, ms);
    DistinctCounts(u.locked, u.s.accepted);
    RunInOrder(t, ms);
    RunFollowsCalls(t, ms);
    if AllInTurn(t, ms) && AllPlacedInTurn(t, ms) {
      HandedFirst(u);
    }
  }

  lemma HandedFirst(u: Traced)
    requires InOrder(u) && FollowsCalls(u)
    ensures u.s.handed <= u.s.accepted
  {
  }

  lemma StartIsOrdered(s: State)
    requires Initial(s)
    ensures var t := Traced(s, [], []); Tracked(t) && InOrder(t) && Accounted(t) && FollowsCalls(t)
  {
    forall f
      ensures InFlight(f, AllUnplaced(s.tx)) == 0
    {
      AllIdleHoldNothing(f, AllUnplaced(s.tx));
    }
  }

  lemma NoMore(s: State)
    ensures IsRun(s, []) && After(s, []) == s
  {
  }

  lemma OneMore(s: State, m: Move, rest: seq<Move>)
    requires Enabled(s, m) && IsRun(Apply(s, m), rest)
    ensures IsRun(s, [m] + rest) && After(s, [m] + rest) == After(Apply(s, m), rest)
  {
  }

  lemma LockAlone(s: State, id: nat, e: Env)
    requires Enabled(s, Lock(id, e)) && s.pending == [] && e.apart
    ensures Apply(s, Lock(id, e)) == s.(tx := s.tx[id := Sending([s.tx[id].frame], None)])
  {
  }

  /** The second of two calls is the first to leave dev_queue_xmit. */
  lemma SwapSteps(s0: State, e: Env, a: Packet, b: Packet)
    requires Initial(s0) && s0.tx == [Idle, Idle] && e.apart && |a| <= s0.settings.maxSize && |b| <= s0.settings.maxSize
    ensures Enabled(s0, Call(0, a))
    ensures var s1 := Apply(s0, Call(0, a));
            && Enabled(s1, Lock(0, e))
            && var s2 := Apply(s1, Lock(0, e));
            && Enabled(s2, Call(1, b))
            && var s3 := Apply(s2, Call(1, b));
            && Enabled(s3, Lock(1, e))
            && var s4 := Apply(s3, Lock(1, e));
            && Enabled(s4, Xmit(1)) && Enabled(Apply(s4, Xmit(1)), Xmit(0))
            && var s6 := Apply(Apply(s4, Xmit(1)), Xmit(0)); s6.accepted == [a, b] && s6.handed == [b, a]
  {
    hide Locked;
    var s1 := Apply(s0, Call(0, a));
    LockAlone(s1, 0, e);
    var s3 := Apply(Apply(s1, Lock(0, e)), Call(1, b));
    LockAlone(s3, 1, e);
    var s4 := Apply(s3, Lock(1, e));
    assert s4 == s0.(tx := [Sending([a], None), Sending([b], None)], accepted := [a, b]);
    assert [] + [b] == [b];
  }

  /** A run out of turn: two calls leave dev_queue_xmit in the order opposite to their locks. */
  lemma OrderCanBreak(a: Packet, b: Packet)
    requires a != b && |a| <= 1500 && |b| <= 1500
    ensures exists s, ms :: Initial(s) && IsRun(s, ms) && After(s, ms).accepted == [a, b] && After(s, ms).handed == [b, a]
  {
    hide IsRun, After, Concat, Apply, Enabled;
    var s0 := State(Settings(2, 1500), [], [Idle, Idle], false, 0, false, Asleep, [], []);
    var e := Env(false, true, false, false, false);
    SwapSteps(s0, e, a, b);
    var s1 := Apply(s0, Call(0, a));
    var s2 := Apply(s1, Lock(0, e));
    var s3 := Apply(s2, Call(1, b));
    var s4 := Apply(s3, Lock(1, e));
    var s5 := Apply(s4, Xmit(1));
    var r1 := [Xmit(0)] + [];
    var r2 := [Xmit(1)] + r1;
    var r3 := [Lock(1, e)] + r2;
    var r4 := [Call(1, b)] + r3;
    var r5 := [Lock(0, e)] + r4;
    var r6 := [Call(0, a)] + r5;
    NoMore(Apply(s5, Xmit(0)));
    OneMore(s5, Xmit(0), []);
    OneMore(s4, Xmit(1), r1);
    OneMore(s3, Lock(1, e), r2);
    OneMore(s2, Call(1, b), r3);
    OneMore(s1, Lock(0, e), r4);
    OneMore(s0, Call(0, a), r5);
    assert Initial(s0) && IsRun(s0, r6) && After(s0, r6) == Apply(s5, Xmit(0));
  }

  // ---------- one call, or one flush, alone ----------

  lemma {:induction false} OneMoreAtEnd(s: State, ms: seq<Move>, m: Move)
    requires IsRun(s, ms) && Enabled(After(s, ms), m)
    ensures IsRun(s, ms + [m]) && After(s, ms + [m]) == Apply(After(s, ms), m)
    decreases |ms|
  {
    hide Apply, Enabled;
    if ms == [] {
      assert [] + [m] == [m] && [m][1..] == [];
    } else {
      assert (ms + [m])[1..] == ms[1..] + [m];
      OneMoreAtEnd(Apply(s, ms[0]), ms[1..], m);
    }
  }

  /** A pass alone: the lock, and the end of dev_queue_xmit. */
  lemma PassAlone(s: State, id: nat, env: Env)
    requires At(s, id) && s.tx[id].WantLock?
    ensures Enabled(s, Lock(id, env)) && Enabled(Apply(s, Lock(id, env)), Xmit(id))
    ensures var f := s.tx[id].frame;
            var o := Locked(s.settings, s.pending, f, env);
            Apply(Apply(s, Lock(id, env)), Xmit(id)) ==
              s.(pending := o.pending, handed := s.handed + o.send, tx := s.tx[id := if o.left then WantLock(f) else LookSkb])
  {
    hide Locked;
  }

  /** After its last pass a call looks at the buffer and at the timer, which is queued in the end if anything is pending. */
  lemma LookAlone(s0: State, before: seq<Move>, id: nat) returns (ms: seq<Move>)
    requires IsRun(s0, before)
    requires var s := After(s0, before); At(s, id) && s.tx[id] == LookSkb
    ensures IsRun(s0, ms)
    ensures var s := After(s0, before);
            After(s0, ms) == s.(tx := s.tx[id := Idle], timerQueued := s.timerQueued || s.pending != [])
  {
    hide IsRun, After;
    var s := After(s0, before);
    ms := before + [SeeSkb(id)];
    OneMoreAtEnd(s0, before, SeeSkb(id));
    if s.pending != [] {
      OneMoreAtEnd(s0, ms, SeeTimer(id));
      ms := ms + [SeeTimer(id)];
      if !s.timerQueued {
        OneMoreAtEnd(s0, ms, Start(id));
        ms := ms + [Start(id)];
      }
    }
  }

  lemma CallAlone(s: State, id: nat, frame: Packet)
    requires At(s, id) && s.tx[id] == Idle && |frame| <= s.settings.maxSize
    ensures Enabled(s, Call(id, frame))
    ensures Apply(s, Call(id, frame)) == s.(tx := s.tx[id := WantLock(frame)], accepted := s.accepted + [frame])
  {
  }

  /** The serialised call, pass by pass. */
  lemma CallIsPasses(q: Queue, frame: Packet, first: Env, second: Env)
    requires q.settings.maxDatagrams > 1 && Bounded(q.settings, q.pending) && |frame| <= q.settings.maxSize && q.sent == []
    ensures var u := Next(q, Event.Tx(frame, first, second));
            var o := Locked(q.settings, q.pending, frame, first);
            var o' := Locked(q.settings, o.pending, frame, second);
            && u.pending == (if o.left then o'.pending else o.pending)
            && Concat(u.sent) == o.send + (if o.left then o'.send else []) && !(o.left && o'.left)
  {
    hide Locked, Concat;
    var o := Locked(q.settings, q.pending, frame, first);
    var o' := Locked(q.settings, o.pending, frame, second);
    LockedBounds(q.settings, q.pending, frame, first);
    LockedBounds(q.settings, o.pending, frame, second);
    HandConcat([], o.send);
    HandConcat(Hand([], o.send), o'.send);
    NoneConcat();
    assert o.send + [] == o.send;
  }

  /** A call that nobody interferes with does what the serialised call does. */
  lemma SerialCall(s: State, id: nat, frame: Packet, first: Env, second: Env) returns (ms: seq<Move>)
    requires At(s, id) && s.tx[id] == Idle && s.settings.maxDatagrams > 1 && |frame| <= s.settings.maxSize
    requires Bounded(s.settings, s.pending)
    ensures IsRun(s, ms)
    ensures var q := Next(Queue(s.settings, s.pending, []), Event.Tx(frame, first, second));
            After(s, ms) == s.(pending := q.pending, handed := s.handed + Concat(q.sent), accepted := s.accepted + [frame],
                               timerQueued := s.timerQueued || q.pending != [])
  {
    hide IsRun, After, Locked, Concat, Next, Apply, Enabled, Bounded;
    CallIsPasses(Queue(s.settings, s.pending, []), frame, first, second);
    NoMore(s);
    CallAlone(s, id, frame);
    OneMoreAtEnd(s, [], Call(id, frame));
    ms := TwoMoves(s, [] + [Call(id, frame)], id, first);
    var o := Locked(s.settings, s.pending, frame, first);
    if o.left {
      ms := TwoMoves(s, ms, id, second);
      var o' := Locked(s.settings, o.pending, frame, second);
      assert s.handed + o.send + o'.send == s.handed + (o.send + o'.send);
    } else {
      assert o.send + [] == o.send;
    }
    assert s.tx[id := LookSkb][id := Idle] == s.tx;
    ms := LookAlone(s, ms, id);
  }

  lemma NoneConcat()
    ensures Concat<Packet>([]) == [] && forall fs: seq<Packet> :: [] + fs == fs
  {
  }

  lemma TwoMoves(s0: State, before: seq<Move>, id: nat, env: Env) returns (ms: seq<Move>)
    requires IsRun(s0, before)
    requires var s := After(s0, before); At(s, id) && s.tx[id].WantLock?
    ensures IsRun(s0, ms)
    ensures var s := After(s0, before);
            var o := Locked(s.settings, s.pending, s.tx[id].frame, env);
            After(s0, ms) == s.(pending := o.pending, handed := s.handed + o.send,
                                tx := s.tx[id := if o.left then WantLock(s.tx[id].frame) else LookSkb])
  {
    hide IsRun, After, Locked;
    PassAlone(After(s0, before), id, env);
    OneMoreAtEnd(s0, before, Lock(id, env));
    OneMoreAtEnd(s0, before + [Lock(id, env)], Xmit(id));
    ms := before + [Lock(id, env)] + [Xmit(id)];
  }

  lemma FlushMoves(s: State)
    requires s.workPending && s.worker == Asleep
    ensures Enabled(s, Wake) && Enabled(Apply(s, Wake), Take)
    ensures var t := Apply(Apply(s, Wake), Take);
            && t == s.(workPending := false, pending := [], worker := if s.pending != [] then Handing(s.pending) else Asleep)
            && (s.pending != [] ==> Enabled(t, Deliver))
            && (s.pending != [] ==> Apply(t, Deliver) == s.(workPending := false, pending := [], handed := s.handed + s.pending))
  {
  }

  /** The flush work alone does what the serialised flush does. */
  lemma SerialFlush(s: State) returns (ms: seq<Move>)
    requires s.workPending && s.worker == Asleep
    ensures IsRun(s, ms)
    ensures var q := Next(Queue(s.settings, s.pending, []), Flush);
            After(s, ms) == s.(pending := q.pending, handed := s.handed + Concat(q.sent), workPending := false)
  {
    hide IsRun, After, Concat, Apply, Enabled;
    NoMore(s);
    FlushMoves(s);
    OneMoreAtEnd(s, [], Wake);
    OneMoreAtEnd(s, [] + [Wake], Take);
    ms := [] + [Wake] + [Take];
    HandConcat([], s.pending);
    NoneConcat();
    if s.pending != [] {
      OneMoreAtEnd(s, ms, Deliver);
      ms := ms + [Deliver];
    } else {
      assert s.handed + [] == s.handed;
    }
  }
}
