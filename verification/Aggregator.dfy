/**
  Uplink aggregation of qmi_wwan_q.c.  Frames are collected in one pending buffer until a
  limit, a pause or an urgent packet makes it ready to send.
 */
module Aggregator {
  import opened Bytes

  type Packet = seq<byte>

  datatype Settings = Settings(maxDatagrams: nat, maxSize: nat)

  /** What the locked section finds out besides the buffer: pauses, xmit_more, an urgent packet, the allocator. */
  datatype Env = Env(late: bool, apart: bool, xmitMore: bool, urgent: bool, allocates: bool)

  /** What it does: the new pending frames, the frames to transmit, and whether the caller's frame is still to place. */
  datatype Outcome = Outcome(pending: seq<Packet>, send: seq<Packet>, left: bool)

  /** Lines 949 to 1024 on the list of pending frames; no frames means that agg_skb is NULL. */
  function Locked(s: Settings, pending: seq<Packet>, frame: Packet, e: Env): Outcome {
    var skip := !e.xmitMore && e.urgent;
    if pending != [] then
      if |Concat(pending)| + |frame| < s.maxSize then
        var grown := pending + [frame];
        if e.late || |grown| == s.maxDatagrams || skip then Outcome([], grown, false) else Outcome(grown, [], false)
      else Outcome([], pending, true)
    else if e.apart || skip || !e.allocates then Outcome([], [frame], false)
    else Outcome([frame], [], false)
  }

  /** Within the limits that a transmitted aggregate must respect. */
  predicate Fits(s: Settings, fs: seq<Packet>) {
    |fs| <= s.maxDatagrams && |Concat(fs)| <= s.maxSize
  }

  /** Aggregation is on only above one datagram, and a pending buffer always has room for another frame's count. */
  predicate Bounded(s: Settings, pending: seq<Packet>) {
    if s.maxDatagrams == 1 then pending == []
    else s.maxDatagrams > 1 && Fits(s, pending) && |pending| < s.maxDatagrams
  }

  /** The locked section loses, repeats and reorders nothing. */
  lemma LockedConserves(s: Settings, pending: seq<Packet>, frame: Packet, e: Env)
    ensures var o := Locked(s, pending, frame, e);
            pending + [frame] == o.send + o.pending + (if o.left then [frame] else [])
  {
  }

  lemma LockedBounds(s: Settings, pending: seq<Packet>, frame: Packet, e: Env)
    requires Bounded(s, pending) && s.maxDatagrams > 1 && |frame| <= s.maxSize
    ensures var o := Locked(s, pending, frame, e);
            && Bounded(s, o.pending) && Fits(s, o.send)
            && (o.left ==> o.pending == [] && pending != [] && o.send == pending)
  {
    ConcatOne(pending, frame);
    ConcatOne([], frame);
    assert [] + [frame] == [frame];
  }

  // ---------- serialised calls ----------

  /** The aggregator between calls: settings, pending frames, and the aggregates handed to dev_queue_xmit so far. */
  datatype Queue = Queue(settings: Settings, pending: seq<Packet>, sent: seq<seq<Packet>>)

  datatype Event =
    | Tx(frame: Packet, first: Env, second: Env)
    | Flush
    | Store(settings: Settings)

  function Hand(sent: seq<seq<Packet>>, fs: seq<Packet>): seq<seq<Packet>> {
    if fs == [] then sent else sent + [fs]
  }

  /** One transmit call, one flush-work run, or one settings request, each run to its end. */
  function Next(q: Queue, v: Event): Queue {
    match v
    case Tx(frame, first, second) =>
      if q.settings.maxDatagrams == 1 then q.(sent := q.sent + [[frame]])
      else
        var o := Locked(q.settings, q.pending, frame, first);
        if !o.left then q.(pending := o.pending, sent := Hand(q.sent, o.send))
        else
          var o' := Locked(q.settings, o.pending, frame, second);
          q.(pending := o'.pending, sent := Hand(Hand(q.sent, o.send), o'.send))
    case Flush => q.(pending := [], sent := Hand(q.sent, q.pending))
    case Store(s) => if q.settings.maxDatagrams == 1 && s.maxDatagrams > 1 then q.(settings := s) else q
  }

  function Run(q: Queue, vs: seq<Event>): Queue {
    if vs == [] then q else Next(Run(q, vs[..|vs| - 1]), vs[|vs| - 1])
  }

  const START := Queue(Settings(1, 1500), [], [])

  function Accepted(vs: seq<Event>): seq<Packet> {
    if vs == [] then []
    else Accepted(vs[..|vs| - 1]) + (if vs[|vs| - 1].Tx? then [vs[|vs| - 1].frame] else [])
  }

  lemma HandConcat(sent: seq<seq<Packet>>, fs: seq<Packet>)
    ensures Concat(Hand(sent, fs)) == Concat(sent) + fs
  {
    ConcatOne(sent, fs);
  }

  lemma Regroup(done: seq<Packet>, pending: seq<Packet>, frame: Packet, send: seq<Packet>, after: seq<Packet>)
    requires pending + [frame] == send + after + []
    ensures done + send + after == done + pending + [frame]
  {
    assert done + send + after == done + (send + after + []);
    assert done + pending + [frame] == done + (pending + [frame]);
  }

  lemma NextConserves(q: Queue, v: Event)
    requires Bounded(q.settings, q.pending) && Admissible(q.settings, v)
    ensures var q' := Next(q, v);
            Concat(q'.sent) + q'.pending == Concat(q.sent) + q.pending + (if v.Tx? then [v.frame] else [])
  {
    hide Locked;
    match v {
      case Tx(frame, first, second) =>
        ConcatOne(q.sent, [frame]);
        if q.settings.maxDatagrams > 1 {
          var o := Locked(q.settings, q.pending, frame, first);
          var o' := Locked(q.settings, o.pending, frame, second);
          LockedBounds(q.settings, q.pending, frame, first);
          LockedBounds(q.settings, o.pending, frame, second);
          LockedConserves(q.settings, q.pending, frame, first);
          LockedConserves(q.settings, o.pending, frame, second);
          HandConcat(q.sent, o.send);
          HandConcat(Hand(q.sent, o.send), o'.send);
          if o.left {
            Regroup(Concat(q.sent) + q.pending, [], frame, o'.send, o'.pending);
          } else {
            Regroup(Concat(q.sent), q.pending, frame, o.send, o.pending);
          }
        }
      case Flush => HandConcat(q.sent, q.pending);
      case Store(s) =>
    }
  }

  lemma NextBounds(q: Queue, v: Event)
    requires Bounded(q.settings, q.pending) && Admissible(q.settings, v)
    ensures Bounded(Next(q, v).settings, Next(q, v).pending)
  {
    if v.Tx? && q.settings.maxDatagrams > 1 {
      LockedBounds(q.settings, q.pending, v.frame, v.first);
      LockedBounds(q.settings, Locked(q.settings, q.pending, v.frame, v.first).pending, v.frame, v.second);
    }
  }

  /** The driver's own duty: while aggregation is on, a frame fits the buffer that alloc_skb is asked for. */
  predicate Admissible(s: Settings, v: Event) {
    v.Tx? && s.maxDatagrams > 1 ==> |v.frame| <= s.maxSize
  }

  predicate AllAdmissible(vs: seq<Event>) {
    vs == [] || (AllAdmissible(vs[..|vs| - 1]) && Admissible(Run(START, vs[..|vs| - 1]).settings, vs[|vs| - 1]))
  }

  /** How many of the transmissions of a run were made while aggregation was off. */
  function Singles(vs: seq<Event>): nat {
    if vs == [] then 0
    else Singles(vs[..|vs| - 1]) + (if vs[|vs| - 1].Tx? && Run(START, vs[..|vs| - 1]).settings.maxDatagrams == 1 then 1 else 0)
  }

  /** The first n transmissions are single frames of any size; all later ones are within both limits. */
  predicate Legal(q: Queue, n: nat) {
    && n <= |q.sent| && (q.settings.maxDatagrams == 1 ==> n == |q.sent|)
    && (forall i :: 0 <= i < n ==> |q.sent[i]| == 1)
    && forall i :: n <= i < |q.sent| ==> q.sent[i] != [] && Fits(q.settings, q.sent[i])
  }

  lemma NextSendsLegally(q: Queue, v: Event, n: nat)
    requires Bounded(q.settings, q.pending) && Admissible(q.settings, v) && Legal(q, n)
    ensures Legal(Next(q, v), n + (if v.Tx? && q.settings.maxDatagrams == 1 then 1 else 0))
  {
    if v.Tx? && q.settings.maxDatagrams > 1 {
      LockedBounds(q.settings, q.pending, v.frame, v.first);
      LockedBounds(q.settings, Locked(q.settings, q.pending, v.frame, v.first).pending, v.frame, v.second);
    }
  }

  /** Over every run: what was handed over, followed by what is pending, is what was accepted, in order. */
  lemma {:induction false} RunConserves(vs: seq<Event>)
    requires AllAdmissible(vs)
    ensures var q := Run(START, vs); Concat(q.sent) + q.pending == Accepted(vs)
  {
    if vs != [] {
      var before := vs[..|vs| - 1];
      RunConserves(before);
      RunBounds(before);
      NextConserves(Run(START, before), vs[|vs| - 1]);
    }
  }

  /**
    Over every run: the pending buffer respects both limits, and so does everything transmitted since
    aggregation was switched on, single frames included.
   */
  lemma {:induction false} RunBounds(vs: seq<Event>)
    requires AllAdmissible(vs)
    ensures var q := Run(START, vs); Bounded(q.settings, q.pending) && Legal(q, Singles(vs))
  {
    hide Legal, Bounded, Admissible, Next;
    if vs == [] {
      StartIsLegal();
    } else {
      var before := vs[..|vs| - 1];
      RunBounds(before);
      NextBounds(Run(START, before), vs[|vs| - 1]);
      NextSendsLegally(Run(START, before), vs[|vs| - 1], Singles(before));
    }
  }

  lemma StartIsLegal()
    ensures Bounded(START.settings, START.pending) && Legal(START, 0)
  {
  }

  // ---------- the driver's fields ----------

  const AGG_TIME_LIMIT := 1_000_000
  const AGG_BYPASS_TIME := 10_000_000

  /** diff.tv_sec > 0 || diff.tv_nsec > limit, on the normalised difference of two times in nanoseconds. */
  predicate Longer(now: int, since: int, limit: int) {
    (now - since) / 1_000_000_000 > 0 || (now - since) % 1_000_000_000 > limit
  }

  /** Up to a limit below a second: what is left of a second counts if the clock has gone back. */
  lemma LongerIs(now: int, since: int, limit: int)
    requires 0 <= limit < 1_000_000_000
    ensures Longer(now, since, limit) <==> !((if now - since < 0 then (now - since) % 1_000_000_000 else now - since) <= limit)
  {
  }

  function EnvAt(since: int, now: int, xmitMore: bool, urgent: bool, allocates: bool): Env {
    Env(Longer(now, since, AGG_TIME_LIMIT), Longer(now, since, AGG_BYPASS_TIME), xmitMore, urgent, allocates)
  }

  lemma EnvIs(since: int, now: int, xmitMore: bool, urgent: bool, allocates: bool)
    ensures var gap := if now - since < 0 then (now - since) % 1_000_000_000 else now - since;
            EnvAt(since, now, xmitMore, urgent, allocates) == Env(!(gap <= 1_000_000), !(gap <= 10_000_000), xmitMore, urgent, allocates)
  {
    hide Longer;
    LongerIs(now, since, AGG_TIME_LIMIT);
    LongerIs(now, since, AGG_BYPASS_TIME);
  }

  /** Every aggregate as the bytes of one buffer. */
  function Wire(sent: seq<seq<Packet>>): (w: seq<Packet>)
    ensures |w| == |sent|
  {
    seq(|sent|, i requires 0 <= i < |sent| => Concat(sent[i]))
  }

  lemma WireMore(sent: seq<seq<Packet>>, fs: seq<Packet>)
    ensures Wire(sent + [fs]) == Wire(sent) + [Concat(fs)]
  {
  }

  lemma PlainTx(q: Queue, frame: Packet)
    requires q.settings.maxDatagrams == 1
    ensures forall e0, e1 :: Next(q, Event.Tx(frame, e0, e1)) == q.(sent := q.sent + [[frame]])
  {
  }

  /** What a call does, in the bytes of the buffers. */
  lemma InBytes(q: Queue, frame: Packet, e0: Env, e1: Env)
    requires q.settings.maxDatagrams > 1 && Bounded(q.settings, q.pending)
    ensures var u, w := Next(q, Event.Tx(frame, e0, e1)), Wire(q.sent);
            var o := Locked(q.settings, q.pending, frame, e0);
            if q.pending == [] then
              var kept := !(e0.apart || (!e0.xmitMore && e0.urgent) || !e0.allocates);
              !o.left && (o.send == [] <==> kept) &&
              u.pending == (if kept then [frame] else []) && Wire(u.sent) == w + (if kept then [] else [frame])
            else if |Concat(q.pending)| + |frame| < q.settings.maxSize then
              var kept := !(e0.late || (!e0.xmitMore && e0.urgent)) && |q.pending| + 1 < q.settings.maxDatagrams;
              && !o.left && (o.send == [] <==> kept)
              && u.pending == (if kept then q.pending + [frame] else [])
              && Wire(u.sent) == w + (if kept then [] else [Concat(q.pending) + frame])
            else
              var kept := !(e1.apart || (!e1.xmitMore && e1.urgent) || !e1.allocates);
              && o.left && (Locked(q.settings, o.pending, frame, e1).send == [] <==> kept)
              && u.pending == (if kept then [frame] else [])
              && Wire(u.sent) == w + [Concat(q.pending)] + (if kept then [] else [frame])
  {
    hide Wire;
    ConcatOne(q.pending, frame);
    ConcatOne([], frame);
    assert [] + frame == frame && [] + [frame] == [frame] && Wire(q.sent) + [] == Wire(q.sent);
    WireMore(q.sent, [frame]);
    WireMore(q.sent, q.pending + [frame]);
    WireMore(q.sent, q.pending);
    WireMore(q.sent + [q.pending], [frame]);
    assert Wire(q.sent) + [Concat(q.pending)] + [] == Wire(q.sent) + [Concat(q.pending)];
  }

  class Priv {
    var maxDatagrams: nat
    var maxSize: nat
    var aggSkb: Option<Packet>
    var aggCount: nat
    var aggTime: int
    var timerQueued: bool
    var workPending: bool
    var handed: seq<Packet>
    ghost var frames: seq<Packet>
    ghost var aggregates: seq<seq<Packet>>

    constructor (now: int)
      ensures Valid() && View() == START && aggTime == now && !timerQueued && !workPending
    {
      maxDatagrams, maxSize := 1, 1500;
      aggSkb, aggCount, aggTime := None, 0, now;
      timerQueued, workPending := false, false;
      handed, frames, aggregates := [], [], [];
    }

    /** The buffer holds the pending frames back to back, the counter counts them, and NULL means none. */
    ghost predicate Valid()
      reads this
    {
      && (aggSkb == None <==> frames == []) && aggCount == |frames|
      && (aggSkb.Some? ==> aggSkb.value == Concat(frames))
      && handed == Wire(aggregates)
      && Bounded(Settings(maxDatagrams, maxSize), frames)
    }

    ghost function View(): Queue
      reads this
    {
      Queue(Settings(maxDatagrams, maxSize), frames, aggregates)
    }

    /** dev_queue_xmit of one buffer; fs are the frames in it. */
    method Xmit(skb: Packet, ghost fs: seq<Packet>)
      requires skb == Concat(fs)
      modifies this`handed, this`aggregates
      ensures aggregates == old(aggregates) + [fs] && handed == old(handed) + [skb]
      ensures old(handed) == Wire(old(aggregates)) ==> handed == Wire(aggregates)
    {
      handed := handed + [skb];
      aggregates := aggregates + [fs];
    }

    /** Lines 949 to 1025: everything that happens under the lock. */
    method LockedSection(skb: Packet, now: int, xmitMore: bool, urgent: bool, allocates: bool)
      returns (send: Option<Packet>, left: bool, ghost fs: seq<Packet>)
      requires Valid() && maxDatagrams > 1 && |skb| <= maxSize
      modifies this`aggSkb, this`aggCount, this`aggTime, this`frames
      ensures Valid()
      ensures var o := Locked(old(View()).settings, old(frames), skb, old(EnvAt(aggTime, now, xmitMore, urgent, allocates)));
              frames == o.pending && fs == o.send && left == o.left
      ensures (send == None <==> fs == []) && (send.Some? ==> send.value == Concat(fs))
      ensures aggTime == if send.Some? then now else old(aggTime)
      ensures old(aggSkb) == None ==>
              var gap := now - old(aggTime);
              var kept := (if gap < 0 then gap % 1_000_000_000 else gap) <= 10_000_000 && !(!xmitMore && urgent) && allocates;
              && !left && aggSkb == (if kept then Some(skb) else None) && aggCount == (if kept then 1 else 0)
              && send == (if kept then None else Some(skb)) && aggTime == if kept then old(aggTime) else now
      ensures old(aggSkb).Some? && |old(aggSkb).value| + |skb| < maxSize ==>
              var age := now - old(aggTime);
              var grown := old(aggSkb).value + skb;
              var kept := (if age < 0 then age % 1_000_000_000 else age) <= 1_000_000
                          && old(aggCount) + 1 < maxDatagrams && !(!xmitMore && urgent);
              && !left && aggSkb == (if kept then Some(grown) else None) && aggCount == (if kept then old(aggCount) + 1 else 0)
              && send == (if kept then None else Some(grown)) && aggTime == if kept then old(aggTime) else now
      ensures old(aggSkb).Some? && |old(aggSkb).value| + |skb| >= maxSize ==>
              left && aggSkb == None && aggCount == 0 && send == old(aggSkb) && aggTime == now
    {
      LongerIs(now, aggTime, AGG_TIME_LIMIT);
      LongerIs(now, aggTime, AGG_BYPASS_TIME);
      LockedBounds(Settings(maxDatagrams, maxSize), frames, skb, EnvAt(aggTime, now, xmitMore, urgent, allocates));
      ConcatOne(frames, skb);
      var ready2send := false;
      send, left, fs := None, true, [];
      if aggSkb.Some? {
        if |aggSkb.value| + |skb| < maxSize {
          aggSkb := Some(aggSkb.value + skb);
          aggCount := aggCount + 1;
          frames := frames + [skb];
          if Longer(now, aggTime, AGG_TIME_LIMIT) {
            ready2send := true;
          } else if aggCount == maxDatagrams {
            ready2send := true;
          } else if !xmitMore {
            ready2send := urgent;
          }
          left := false;
        } else {
          ready2send := true;
        }
        if ready2send {
          send, fs := aggSkb, frames;
          aggSkb, aggCount, frames := None, 0, [];
        }
      } else {
        if Longer(now, aggTime, AGG_BYPASS_TIME) {
          ready2send := true;
        } else if !xmitMore {
          ready2send := urgent;
        }
        if !ready2send {
          if allocates {
            aggSkb := Some(skb);
            aggCount := aggCount + 1;
            frames := [skb];
            left := false;
          } else {
            ready2send := true;
          }
        }
        if ready2send {
          send, left, fs := Some(skb), false, [skb];
        }
      }
      if ready2send {
        aggTime := now;
      }
    }

    /** One pass from new_packet on: the locked section, then the transmission outside the lock. */
    method Pass(skb: Packet, now: int, xmitMore: bool, urgent: bool, allocates: bool) returns (left: bool)
      requires Valid() && maxDatagrams > 1 && |skb| <= maxSize
      modifies this`aggSkb, this`aggCount, this`aggTime, this`frames, this`handed, this`aggregates
      ensures Valid()
      ensures var q := old(View());
              var o := Locked(q.settings, q.pending, skb, old(EnvAt(aggTime, now, xmitMore, urgent, allocates)));
              View() == q.(pending := o.pending, sent := Hand(q.sent, o.send)) && left == o.left
                && aggTime == if o.send != [] then now else old(aggTime)
    {
      hide Locked, Fits, EnvAt;
      var send;
      ghost var fs;
      send, left, fs := LockedSection(skb, now, xmitMore, urgent, allocates);
      if send.Some? {
        Xmit(send.value, fs);
      }
    }

    /** Lines 945 to 1040: once more from new_packet on while the frame is left, at most twice. */
    method Passes(skb: Packet, now: nat -> int, xmitMore: bool, urgent: bool, allocates: nat -> bool) returns (passes: nat)
      requires Valid() && maxDatagrams > 1 && |skb| <= maxSize
      modifies this`aggSkb, this`aggCount, this`aggTime, this`frames, this`handed, this`aggregates
      ensures Valid() && passes <= 2
      ensures var q, e0, e1 := old(View()), old(EnvAt(aggTime, now(0), xmitMore, urgent, allocates(0))),
                               EnvAt(now(0), now(1), xmitMore, urgent, allocates(1));
              var o := Locked(q.settings, q.pending, skb, e0);
              && View() == Next(q, Event.Tx(skb, e0, e1))
              && aggTime == if o.left then (if Locked(q.settings, o.pending, skb, e1).send != [] then now(1) else now(0))
                            else if o.send != [] then now(0) else old(aggTime)
    {
      hide Locked, Fits, EnvAt;
      passes := 0;
      ghost var q := View();
      ghost var e0, e1 := EnvAt(aggTime, now(0), xmitMore, urgent, allocates(0)), EnvAt(now(0), now(1), xmitMore, urgent, allocates(1));
      ghost var o := Locked(q.settings, q.pending, skb, e0);
      ghost var o' := Locked(q.settings, o.pending, skb, e1);
      LockedBounds(q.settings, q.pending, skb, e0);
      LockedBounds(q.settings, o.pending, skb, e1);
      var left := true;
      while left
        invariant Valid() && passes <= 2
        invariant passes == 0 ==> left && View() == q && aggTime == old(aggTime)
        invariant passes == 1 ==> View() == q.(pending := o.pending, sent := Hand(q.sent, o.send))
        invariant passes == 1 ==> left == o.left && aggTime == if o.send != [] then now(0) else old(aggTime)
        invariant passes == 2 ==> o.left && !left
        invariant passes == 2 ==> View() == q.(pending := o'.pending, sent := Hand(Hand(q.sent, o.send), o'.send))
        invariant passes == 2 ==> aggTime == if o'.send != [] then now(1) else now(0)
        decreases 2 - passes
      {
        left := Pass(skb, now(passes), xmitMore, urgent, allocates(passes));
        passes := passes + 1;
      }
    }

    /** rmnet_usb_tx_agg run to its end, with the clock and the allocator answering per pass: at most two passes. */
    method Tx(skb: Packet, now: nat -> int, xmitMore: bool, urgent: bool, allocates: nat -> bool) returns (passes: nat)
      requires Valid() && (maxDatagrams > 1 ==> |skb| <= maxSize)
      modifies this
      ensures Valid() && passes <= 2
      ensures View() == Next(old(View()), Event.Tx(skb, old(EnvAt(aggTime, now(0), xmitMore, urgent, allocates(0))),
                                                   EnvAt(now(0), now(1), xmitMore, urgent, allocates(1))))
      ensures old(maxDatagrams) == 1 ==> handed == old(handed) + [skb] && aggSkb == old(aggSkb) && aggTime == old(aggTime)
      ensures old(maxDatagrams) > 1 && old(aggSkb) == None ==>
              var gap := now(0) - old(aggTime);
              var kept := (if gap < 0 then gap % 1_000_000_000 else gap) <= 10_000_000 && !(!xmitMore && urgent) && allocates(0);
              && aggSkb == (if kept then Some(skb) else None)
              && handed == old(handed) + (if kept then [] else [skb]) && aggTime == if kept then old(aggTime) else now(0)
      ensures old(maxDatagrams) > 1 && old(aggSkb).Some? && |old(aggSkb).value| + |skb| < old(maxSize) ==>
              var age := now(0) - old(aggTime);
              var grown := old(aggSkb).value + skb;
              var kept := (if age < 0 then age % 1_000_000_000 else age) <= 1_000_000
                          && old(aggCount) + 1 < old(maxDatagrams) && !(!xmitMore && urgent);
              && aggSkb == (if kept then Some(grown) else None) && (kept ==> aggCount == old(aggCount) + 1)
              && handed == old(handed) + (if kept then [] else [grown]) && aggTime == if kept then old(aggTime) else now(0)
      ensures old(maxDatagrams) > 1 && old(aggSkb).Some? && |old(aggSkb).value| + |skb| >= old(maxSize) ==>
              var gap := now(1) - now(0);
              var kept := (if gap < 0 then gap % 1_000_000_000 else gap) <= 10_000_000 && !(!xmitMore && urgent) && allocates(1);
              && aggSkb == (if kept then Some(skb) else None)
              && handed == old(handed) + [old(aggSkb).value] + (if kept then [] else [skb])
              && aggTime == if kept then now(0) else now(1)
      ensures workPending == old(workPending) && timerQueued == (old(timerQueued) || aggSkb.Some?)
    {
      hide Locked, Fits, EnvAt, Next, Wire;
      passes := 0;
      ghost var q := View();
      assert Concat([skb]) == skb + Concat([]) == skb;
      if maxDatagrams == 1 {
        Xmit(skb, [skb]);
        PlainTx(q, skb);
        return;
      }
      ghost var e0, e1 := EnvAt(aggTime, now(0), xmitMore, urgent, allocates(0)), EnvAt(now(0), now(1), xmitMore, urgent, allocates(1));
      EnvIs(aggTime, now(0), xmitMore, urgent, allocates(0));
      EnvIs(now(0), now(1), xmitMore, urgent, allocates(1));
      InBytes(q, skb, e0, e1);
      ConcatOne(frames, skb);
      passes := Passes(skb, now, xmitMore, urgent, allocates);
      if aggSkb.Some? {
        if !timerQueued {
          timerQueued := true;
        }
      }
    }

    /** rmnet_usb_tx_agg_timer_cb: the expired timer is off the queue and schedules the work. */
    method TimerExpires()
      requires Valid() && timerQueued
      modifies this`timerQueued, this`workPending
      ensures Valid() && View() == old(View()) && !timerQueued && workPending
    {
      timerQueued := false;
      workPending := true;
    }

    /** rmnet_usb_tx_agg_work. */
    method Work(now: int)
      requires Valid() && workPending
      modifies this
      ensures Valid() && View() == Next(old(View()), Flush)
      ensures aggSkb == None && !workPending && timerQueued == old(timerQueued)
      ensures handed == old(handed) + (if old(aggSkb).Some? then [old(aggSkb).value] else [])
      ensures aggTime == if old(aggSkb).Some? then now else old(aggTime)
    {
      workPending := false;
      var skb := None;
      ghost var fs := frames;
      if aggSkb.Some? {
        skb := aggSkb;
        aggSkb, aggCount, frames := None, 0, [];
        aggTime := now;
      }
      if skb.Some? {
        Xmit(skb.value, fs);
      }
    }

    /** The settings request of qma_setting_store. */
    method StoreSettings(s: Settings)
      requires Valid()
      modifies this`maxDatagrams, this`maxSize
      ensures Valid() && View() == Next(old(View()), Store(s))
      ensures maxDatagrams == (if old(maxDatagrams) == 1 && s.maxDatagrams > 1 then s.maxDatagrams else old(maxDatagrams))
      ensures maxSize == if old(maxDatagrams) == 1 && s.maxDatagrams > 1 then s.maxSize else old(maxSize)
    {
      if maxDatagrams == 1 && s.maxDatagrams > 1 {
        maxDatagrams, maxSize := s.maxDatagrams, s.maxSize;
      }
    }
  }

  // ---------- bursts ----------

  /** A transmit call: when it takes the lock, and what it finds out there. */
  datatype TxCall = TxCall(frame: Packet, at: int, xmitMore: bool, urgent: bool, allocates: bool)

  /** The calls of a burst, as they see the time since the last transmission before it; a second pass never comes first. */
  function Calls(since: int, calls: seq<TxCall>): seq<Event> {
    if calls == [] then []
    else
      var c := calls[|calls| - 1];
      var e := EnvAt(since, c.at, c.xmitMore, c.urgent, c.allocates);
      Calls(since, calls[..|calls| - 1]) + [Event.Tx(c.frame, e, e)]
  }

  function FramesIn(calls: seq<TxCall>): seq<Packet> {
    if calls == [] then [] else FramesIn(calls[..|calls| - 1]) + [calls[|calls| - 1].frame]
  }

  lemma CallsLength(since: int, calls: seq<TxCall>)
    ensures |Calls(since, calls)| == |calls| == |FramesIn(calls)|
  {
  }

  lemma SentGrows(q: Queue, v: Event)
    ensures |Next(q, v).sent| >= |q.sent|
  {
  }

  /** The next call of a burst that has sent nothing yet. */
  lemma BurstStep(q: Queue, since: int, held: seq<Packet>, c: TxCall)
    requires q.settings.maxDatagrams > 1 && q.pending == held && |held| < q.settings.maxDatagrams
    ensures var gap := if c.at - since < 0 then (c.at - since) % 1_000_000_000 else c.at - since;
            var e := EnvAt(since, c.at, c.xmitMore, c.urgent, c.allocates);
            var u := Next(q, Event.Tx(c.frame, e, e));
            if !(!c.xmitMore && c.urgent)
               && (if held == [] then gap <= 10_000_000 && c.allocates
                   else gap <= 1_000_000 && |held| + 1 < q.settings.maxDatagrams && |Concat(held)| + |c.frame| < q.settings.maxSize)
            then u == q.(pending := held + [c.frame])
            else |u.sent| > |q.sent|
  {
    hide EnvAt;
    EnvIs(since, c.at, c.xmitMore, c.urgent, c.allocates);
    if held == [] {
      assert held + [c.frame] == [c.frame];
    }
  }

  /**
    Call i of a burst: the first comes within 10 ms of the last transmission and finds memory, a later one
    comes within 1 ms of it and stays below both limits, and neither is urgent at the end of its own burst.
   */
  predicate Joins(s: Settings, since: int, calls: seq<TxCall>, i: nat)
    requires i < |calls|
  {
    var c := calls[i];
    var gap := if c.at - since < 0 then (c.at - since) % 1_000_000_000 else c.at - since;
    && (c.xmitMore || !c.urgent)
    && if i == 0 then gap <= 10_000_000 && c.allocates
       else gap <= 1_000_000 && i + 1 < s.maxDatagrams && |Concat(FramesIn(calls[..i]))| + |c.frame| < s.maxSize
  }

  lemma JoinsPrefix(s: Settings, since: int, calls: seq<TxCall>, n: nat)
    requires n <= |calls|
    ensures forall i :: 0 <= i < n ==> (Joins(s, since, calls[..n], i) <==> Joins(s, since, calls, i))
  {
    hide Concat;
    assert forall i :: 0 <= i < n ==> calls[..n][..i] == calls[..i];
  }

  lemma LastJoins(q: Queue, u: Queue, since: int, calls: seq<TxCall>)
    requires q.settings.maxDatagrams > 1 && calls != [] && u == q.(pending := FramesIn(calls[..|calls| - 1]))
    requires forall i :: 0 <= i < |calls| - 1 ==> Joins(q.settings, since, calls, i)
    ensures var c := calls[|calls| - 1];
            var e := EnvAt(since, c.at, c.xmitMore, c.urgent, c.allocates);
            if Joins(q.settings, since, calls, |calls| - 1) then Next(u, Event.Tx(c.frame, e, e)) == q.(pending := FramesIn(calls))
            else |Next(u, Event.Tx(c.frame, e, e)).sent| > |q.sent|
  {
    hide Concat, EnvAt, Next;
    var n := |calls| - 1;
    CallsLength(since, calls[..n]);
    if n > 0 {
      assert Joins(q.settings, since, calls, n - 1);
    }
    BurstStep(u, since, FramesIn(calls[..n]), calls[n]);
  }

  /** A burst of calls that finds nothing pending is held back entirely if and only if each of its calls joins. */
  lemma {:induction false} BurstIsHeld(q: Queue, since: int, calls: seq<TxCall>)
    requires q.settings.maxDatagrams > 1 && q.pending == []
    ensures var u := Run(q, Calls(since, calls));
            if forall i :: 0 <= i < |calls| ==> Joins(q.settings, since, calls, i) then u == q.(pending := FramesIn(calls))
            else |u.sent| > |q.sent|
  {
    hide EnvAt, Next, Joins;
    if calls != [] {
      var n := |calls| - 1;
      var before, c := calls[..n], calls[n];
      BurstIsHeld(q, since, before);
      JoinsPrefix(q.settings, since, calls, n);
      var e := EnvAt(since, c.at, c.xmitMore, c.urgent, c.allocates);
      var u := Run(q, Calls(since, before));
      assert Run(q, Calls(since, calls)) == Next(u, Event.Tx(c.frame, e, e));
      SentGrows(u, Event.Tx(c.frame, e, e));
      if forall i :: 0 <= i < n ==> Joins(q.settings, since, calls, i) {
        LastJoins(q, u, since, calls);
      }
    }
  }

  /** A burst that is held back leaves with the flush work, as one aggregate. */
  lemma BurstIsOneAggregate(q: Queue, since: int, calls: seq<TxCall>)
    requires q.settings.maxDatagrams > 1 && q.pending == [] && calls != [] && |calls| < q.settings.maxDatagrams
    requires |Concat(FramesIn(calls))| < q.settings.maxSize && calls[0].allocates
    requires forall i :: 0 <= i < |calls| ==>
               0 <= calls[i].at - since <= (if i == 0 then 10_000_000 else 1_000_000) && !calls[i].urgent
    ensures Run(q, Calls(since, calls)).sent == q.sent
    ensures Run(q, Calls(since, calls) + [Flush]) == q.(sent := q.sent + [FramesIn(calls)])
  {
    hide Concat, EnvAt, Next;
    CallsLength(since, calls);
    forall i | 0 <= i < |calls|
      ensures Joins(q.settings, since, calls, i)
    {
      FramesPrefix(calls, i + 1);
      ConcatOne(FramesIn(calls[..i]), calls[i].frame);
      assert calls[..i + 1][..i] == calls[..i];
    }
    BurstIsHeld(q, since, calls);
    assert (Calls(since, calls) + [Flush])[..|calls|] == Calls(since, calls);
    FlushSends(q.(pending := FramesIn(calls)));
  }

  lemma FlushSends(q: Queue)
    requires q.pending != []
    ensures Next(q, Flush) == q.(pending := [], sent := q.sent + [q.pending])
  {
  }

  lemma {:induction false} FramesPrefix(calls: seq<TxCall>, n: nat)
    requires n <= |calls|
    ensures |Concat(FramesIn(calls[..n]))| <= |Concat(FramesIn(calls))|
  {
    if n < |calls| {
      FramesPrefix(calls[..|calls| - 1], n);
      assert calls[..|calls| - 1][..n] == calls[..n];
      ConcatOne(FramesIn(calls[..|calls| - 1]), calls[|calls| - 1].frame);
    } else {
      assert calls[..n] == calls;
    }
  }

  lemma {:induction false} WireIsConcat(sent: seq<seq<Packet>>)
    ensures Concat(Wire(sent)) == Concat(Concat(sent))
  {
    if sent != [] {
      assert Wire(sent) == [Concat(sent[0])] + Wire(sent[1..]);
      assert Wire(sent)[1..] == Wire(sent[1..]);
      WireIsConcat(sent[1..]);
      ConcatSplit(sent[0], Concat(sent[1..]));
    }
  }

  /** The same on the wire: the bytes of all transmitted buffers, then the pending buffer, are the accepted bytes. */
  lemma RunDeliversBytes(vs: seq<Event>)
    requires AllAdmissible(vs)
    ensures var q := Run(START, vs); Concat(Wire(q.sent)) + Concat(q.pending) == Concat(Accepted(vs))
  {
    var q := Run(START, vs);
    RunConserves(vs);
    WireIsConcat(q.sent);
    ConcatSplit(Concat(q.sent), q.pending);
  }
}
