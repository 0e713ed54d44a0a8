/**
  The circular buffer of p910nd.c and the two copy loops built on it.  What the operating
  system answers is arbitrary: short reads, short writes, transient and permanent errors,
  any subset of the descriptors that select was asked about, and any time.
 */
module P910 {
  import opened Arith
  import opened Bytes

  const BUFFER_SIZE := 8192

  /** What read() does: up to n of the next bytes, so 0 at the end of the stream, or an error of either kind. */
  datatype ReadAnswer = Delivers(n: nat) | ReadFault(transient: bool)

  /** What write() does: it takes up to n of the bytes offered, or fails in either way. */
  datatype WriteAnswer = Takes(n: nat) | WriteFault(transient: bool)

  /** An index that may have run past the end of the buffer once. */
  function Wrapped(i: nat): (w: nat)
    requires i < 2 * BUFFER_SIZE
  {
    if i < BUFFER_SIZE then i else i - BUFFER_SIZE
  }

  lemma WrappedIsMod(i: nat)
    requires i < 2 * BUFFER_SIZE
    ensures Wrapped(i) == i % BUFFER_SIZE
  {
  }

  /** n bytes of a circular array from start on. */
  function Ring(b: seq<byte>, start: nat, n: nat): (s: seq<byte>)
    requires |b| == BUFFER_SIZE && start < BUFFER_SIZE && n <= BUFFER_SIZE
    ensures |s| == n
  {
    seq(n, k requires 0 <= k < n => b[Wrapped(start + k)])
  }

  lemma RingDrop(b: seq<byte>, start: nat, n: nat, k: nat)
    requires |b| == BUFFER_SIZE && start < BUFFER_SIZE && k <= n <= BUFFER_SIZE
    ensures Ring(b, Wrapped(start + k), n - k) == Ring(b, start, n)[k..]
  {
    forall i | 0 <= i < n - k
      ensures Ring(b, Wrapped(start + k), n - k)[i] == Ring(b, start, n)[k..][i]
    {
      assert Wrapped(Wrapped(start + k) + i) == Wrapped(start + (k + i));
    }
  }

  lemma RingAppend(b: seq<byte>, start: nat, n: nat, data: seq<byte>)
    requires |b| == BUFFER_SIZE && start < BUFFER_SIZE && n + |data| <= BUFFER_SIZE
    requires Wrapped(start + n) + |data| <= BUFFER_SIZE
    ensures var end := Wrapped(start + n);
            Ring(b[..end] + data + b[end + |data|..], start, n + |data|) == Ring(b, start, n) + data
  {
    var end := Wrapped(start + n);
    var b' := b[..end] + data + b[end + |data|..];
    forall i | 0 <= i < n + |data|
      ensures b'[Wrapped(start + i)] == (Ring(b, start, n) + data)[i]
    {
      if i >= n {
        assert Wrapped(start + i) == end + (i - n);
      }
    }
  }

  /**
    Buffer_t.  input is the stream behind infd and pos how much of it has been read; the ghost fields
    record all bytes ever removed and given to write().
   */
  class Buffer {
    const buffer: array<byte>
    const detectEof: bool
    const infd: int
    const input: seq<byte>
    var pos: nat
    var outfd: int
    var startidx: nat
    var endidx: nat
    var bytes: nat
    var totalin: nat
    var totalout: nat
    var eofRead: bool
    var eofSent: bool
    var readErr: bool
    var writeErr: bool
    ghost var removed: seq<byte>
    ghost var written: seq<byte>

    /** initBuffer. */
    constructor (infd: int, outfd: int, detectEof: bool, input: seq<byte>)
      ensures Valid() && Contents() == removed == written == [] && pos == 0 && this.input == input && fresh(buffer) && buffer.Length == 8192
      ensures this.infd == infd && this.outfd == outfd && this.detectEof == detectEof
      ensures !eofRead && !eofSent && !readErr && !writeErr
    {
      buffer := new byte[BUFFER_SIZE];
      this.infd, this.outfd, this.detectEof := infd, outfd, detectEof;
      this.input, pos := input, 0;
      startidx, endidx, bytes, totalin, totalout := 0, 0, 0, 0, 0;
      eofRead, eofSent, readErr, writeErr := false, false, false, false;
      removed, written := [], [];
    }

    ghost predicate Shape()
      reads this
    {
      buffer.Length == BUFFER_SIZE && startidx < BUFFER_SIZE && endidx < BUFFER_SIZE && bytes <= BUFFER_SIZE && pos <= |input|
    }

    /** The buffered bytes, oldest first, unwrapped. */
    ghost function Contents(): (s: seq<byte>)
      requires Shape()
      reads this, buffer
      ensures |s| == bytes
    {
      Ring(buffer[..], startidx, bytes)
    }

    /** The indices agree, and what was read is what was removed followed by what is buffered. */
    ghost predicate Valid()
      reads this, buffer
    {
      && Shape()
      && endidx == Wrapped(startidx + bytes)
      && input[..pos] == removed + Contents()
      && (outfd >= 0 ==> written == removed) && written <= removed
      && totalin == pos && totalout == |written|
    }

    /** How much readBuffer asks for: the free space in one piece. */
    ghost function Room(): nat
      requires Shape()
      reads this
    {
      if bytes == 0 then BUFFER_SIZE else Min(BUFFER_SIZE - bytes, BUFFER_SIZE - endidx)
    }

    /** How much writeBuffer offers: the oldest bytes in one piece. */
    ghost function Offer(): nat
      requires Shape()
      reads this
    {
      if writeErr then 0 else Min(bytes, BUFFER_SIZE - startidx)
    }

    /** Lines 315 to 328. */
    method FreeSpace() returns (avail: nat)
      requires Valid()
      modifies this`startidx, this`endidx
      ensures Valid() && Contents() == old(Contents())
      ensures avail == old(Room()) == Room() && endidx + avail <= BUFFER_SIZE && bytes + avail <= BUFFER_SIZE
    {
      if bytes == 0 {
        startidx, endidx := 0, 0;
        avail := BUFFER_SIZE;
      } else if bytes == BUFFER_SIZE {
        avail := 0;
      } else if endidx > startidx {
        avail := BUFFER_SIZE - endidx;
      } else {
        avail := startidx - endidx;
      }
    }

    /** The bytes read() put at endidx. */
    method Store(data: seq<byte>)
      requires buffer.Length == BUFFER_SIZE && endidx + |data| <= BUFFER_SIZE
      modifies buffer
      ensures buffer[..] == old(buffer[..endidx]) + data + old(buffer[endidx + |data|..])
    {
      forall k | 0 <= k < |data| {
        buffer[endidx + k] := data[k];
      }
    }

    /** The result of read() for n bytes at endidx, and the bookkeeping behind it. */
    method Append(n: nat)
      requires Valid() && endidx + n <= BUFFER_SIZE && bytes + n <= BUFFER_SIZE && pos + n <= |input|
      modifies this`endidx, this`totalin, this`bytes, this`pos, buffer
      ensures Valid() && pos == old(pos) + n && Contents() == old(Contents()) + input[old(pos)..old(pos) + n]
    {
      hide Ring;
      ghost var before, was := Contents(), buffer[..];
      var data := input[pos..pos + n];
      Store(data);
      RingAppend(was, startidx, bytes, data);
      assert was[endidx + n..] == old(buffer[endidx + n..]) && was[..endidx] == old(buffer[..endidx]);
      pos := pos + n;
      endidx := endidx + n;
      totalin := totalin + n;
      bytes := bytes + n;
      if endidx == BUFFER_SIZE {
        endidx := 0;
      }
      assert input[..pos] == input[..old(pos)] + data;
      assert removed + (before + data) == removed + before + data;
    }

    /** readBuffer: appends exactly the bytes that read() delivered. */
    method Read(a: ReadAnswer) returns (result: int)
      requires Valid()
      modifies this, buffer
      ensures Valid() && removed == old(removed) && written == old(written) && outfd == old(outfd)
      ensures old(pos) <= pos && Contents() == old(Contents()) + input[old(pos)..pos]
      ensures pos - old(pos) == if old(readErr) || a.ReadFault? then 0 else Min(a.n, Min(old(Room()), |input| - old(pos)))
      ensures result == if old(readErr) then -1 else if old(Room()) > 0 && a == ReadFault(false) then -1 else pos - old(pos)
      ensures readErr == (old(readErr) || (old(Room()) > 0 && a == ReadFault(false)))
      ensures eofRead == (old(eofRead) || (detectEof && !old(readErr) && old(Room()) > 0 && pos == old(pos) && a != ReadFault(true)))
      ensures eofSent == old(eofSent) && writeErr == old(writeErr)
    {
      hide Ring;
      result := 0;
      if readErr {
        return -1;
      }
      var avail := FreeSpace();
      if avail != 0 {
        result := if a.ReadFault? then -1 else Min(a.n, Min(avail, |input| - pos));
        if result > 0 {
          Append(result);
        } else if result < 0 {
          if a.transient {
            return 0;
          }
          readErr := true;
          if detectEof {
            eofRead := true;
          }
        } else if detectEof {
          eofRead := true;
        } else {
          result := 0;
        }
      }
    }

    /** Lines 362 to 372. */
    method Ready() returns (avail: nat)
      requires Valid()
      ensures avail == Offer() && avail <= bytes && startidx + avail <= BUFFER_SIZE
    {
      if bytes == 0 || writeErr {
        avail := 0;
      } else if endidx > startidx {
        avail := endidx - startidx;
      } else {
        avail := BUFFER_SIZE - startidx;
      }
    }

    /** Lines 386 to 393: n bytes leave from startidx. */
    method Remove(n: nat)
      requires Valid() && n <= bytes && startidx + n <= BUFFER_SIZE
      modifies this`startidx, this`totalout, this`bytes, this`removed, this`written
      ensures Valid() && Contents() == old(Contents())[n..] && removed == old(removed) + old(Contents())[..n]
      ensures written == old(written) + (if outfd >= 0 then old(Contents())[..n] else [])
    {
      hide Ring;
      ghost var before := Contents();
      RingDrop(buffer[..], startidx, bytes, n);
      removed := removed + before[..n];
      startidx := startidx + n;
      if outfd >= 0 {
        totalout := totalout + n;
        written := written + before[..n];
      }
      bytes := bytes - n;
      if startidx == BUFFER_SIZE {
        startidx := 0;
      }
      assert before == before[..n] + before[n..];
    }

    /** Lines 494 and 495: after a write error the rest is discarded, and the error is forgotten. */
    method DropOutput()
      requires Valid()
      modifies this`outfd, this`writeErr
      ensures Valid() && outfd == -1 && !writeErr && Contents() == old(Contents())
    {
      outfd := -1;
      writeErr := false;
    }

    /** writeBuffer: removes exactly the prefix that was written, or everything in one piece when there is no output. */
    method Write(a: WriteAnswer) returns (result: int)
      requires Valid()
      modifies this
      ensures Valid() && pos == old(pos) && outfd == old(outfd) && eofRead == old(eofRead) && readErr == old(readErr)
      ensures result == if outfd >= 0 && old(Offer()) > 0 && a == WriteFault(false) then -1
                        else if outfd < 0 then old(Offer()) else if a.Takes? then Min(a.n, old(Offer())) else 0
      ensures var n := if result > 0 then result else 0;
              && Contents() == old(Contents())[n..] && removed == old(removed) + old(Contents())[..n]
              && written == old(written) + (if outfd >= 0 then old(Contents())[..n] else [])
      ensures writeErr == (old(writeErr) || result == -1)
      ensures eofSent == (old(eofSent) || (eofRead && old(Offer()) == 0))
    {
      hide Ring;
      result := 0;
      var avail := Ready();
      if avail != 0 {
        if outfd >= 0 {
          result := if a.WriteFault? then -1 else Min(a.n, avail);
        } else {
          result := avail;
        }
        if result < 0 {
          if a.transient {
            return 0;
          }
          writeErr := true;
        } else {
          Remove(result);
        }
      } else if eofRead {
        eofSent := true;
      }
    }
  }

  /** Why a copy loop ended; Running when the observed run stops before the loop does. */
  datatype Exit = EofSent | PrinterFailed | NetworkFailed | NetworkIdle | SelectFailed | Running

  /** What the network-to-printer buffer satisfies at every test of either loop. */
  ghost predicate Sound(b: Buffer)
    reads b, b.buffer
  {
    && b.Valid() && b.outfd >= 0 && b.detectEof
    && (b.eofSent && !b.writeErr ==> b.bytes == 0)
    && (b.eofSent ==> b.eofRead) && (b.readErr ==> b.eofRead)
    && (b.eofRead && !b.readErr ==> b.pos == |b.input|)
  }

  lemma SoundAtEnd(b: Buffer)
    requires Sound(b)
    ensures b.Shape() && b.input[..b.pos] == b.written + b.Contents()
    ensures b.bytes == 0 ==> b.Contents() == [] && b.written == b.input[..b.pos]
    ensures b.eofSent ==> b.readErr || b.pos == |b.input|
    ensures b.eofSent && !b.writeErr ==> b.bytes == 0
  {
  }

  /** How far a job still is from its end, in rounds in which something moves. */
  ghost function ToDo(b: Buffer): nat
    requires b.Shape()
    reads b
  {
    2 * (|b.input| - b.pos) + b.bytes + (if b.eofRead then 0 else 1) + (if b.eofSent then 0 else 1)
  }

  /** One network read, for any answer but "nothing" before the end of the stream; it keeps the buffer sound. */
  method ReadSound(b: Buffer, a: ReadAnswer) returns (got: int)
    requires Sound(b) && !b.eofSent && a != Delivers(0)
    modifies b, b.buffer
    ensures Sound(b) && !b.eofSent && b.outfd == old(b.outfd) && b.writeErr == old(b.writeErr) && b.written == old(b.written)
    ensures old(b.pos) <= b.pos && b.Shape() && b.Contents() == old(b.Contents()) + b.input[old(b.pos)..b.pos]
    ensures got > 0 <==> b.pos > old(b.pos)
    ensures b.pos - old(b.pos) == if old(b.readErr) || a.ReadFault? then 0 else Min(a.n, Min(old(b.Room()), |b.input| - old(b.pos)))
    ensures b.readErr == (old(b.readErr) || (old(b.Room()) > 0 && a == ReadFault(false)))
    ensures a.Delivers? && !old(b.readErr) ==> !b.readErr && ToDo(b) <= old(ToDo(b))
    ensures a.Delivers? && !old(b.eofRead) && old(b.Room()) > 0 ==>
              ToDo(b) < old(ToDo(b)) && !b.readErr && b.eofRead == (b.pos == old(b.pos))
    ensures old(b.eofRead) ==> b.eofRead
  {
    hide Ring;
    got := b.Read(a);
  }

  method WriteSound(b: Buffer, a: WriteAnswer) returns (put: int)
    requires Sound(b) && !b.eofSent && !b.writeErr
    modifies b
    ensures Sound(b) && b.outfd == old(b.outfd) && b.pos == old(b.pos) && b.eofRead == old(b.eofRead) && b.readErr == old(b.readErr)
    ensures put == if old(b.Offer()) > 0 && a == WriteFault(false) then -1 else if a.Takes? then Min(a.n, old(b.Offer())) else 0
    ensures b.Shape() && var n := if put > 0 then put else 0;
            && n <= old(b.bytes) && b.Contents() == old(b.Contents())[n..] && b.written == old(b.written) + old(b.Contents())[..n]
    ensures b.writeErr == (put == -1) && b.eofSent == (b.eofRead && old(b.bytes) == 0)
    ensures a.Takes? && a.n > 0 && (old(b.bytes) > 0 || b.eofRead) ==> ToDo(b) < old(ToDo(b))
  {
    hide Ring;
    put := b.Write(a);
  }

  /** What read() and write() answer in one round of the unidirectional loop. */
  datatype Step = Step(input: ReadAnswer, output: WriteAnswer)

  /** The network has something, or has ended, and the printer takes something. */
  predicate Willing(input: ReadAnswer, output: WriteAnswer) {
    input.Delivers? && input.n > 0 && output.Takes? && output.n > 0
  }

  /**
    The unidirectional loop of copy_stream (511-521, 524) on the bytes that the network will send,
    observed for as many rounds as there are answers.  The descriptors are open, so never negative.
   */
  method CopyUnidirectional(fd: int, lp: int, network: seq<byte>, steps: seq<Step>)
    returns (exit: Exit, result: int, n: nat, ghost got: nat, ghost printer: seq<byte>, ghost waiting: seq<byte>)
    requires fd >= 0 && lp >= 0 && forall i :: 0 <= i < |steps| ==> steps[i].input != Delivers(0)
    ensures got <= |network| && network[..got] == printer + waiting
    ensures exit == EofSent || exit == PrinterFailed || (exit == Running && n == |steps|)
    ensures result == 0 || result == -1
    ensures exit != Running && result == 0 ==> exit == EofSent && printer == network && waiting == []
    ensures exit == PrinterFailed ==> result == -1
    ensures |steps| >= 2 * |network| + 2 && (forall i :: 0 <= i < |steps| ==> Willing(steps[i].input, steps[i].output)) ==>
              exit == EofSent && result == 0 && printer == network
  {
    var b := new Buffer(fd, lp, true, network);
    assert Sound(b);
    ghost var willing := forall i :: 0 <= i < |steps| ==> Willing(steps[i].input, steps[i].output);
    n := 0;
    while !b.eofSent && !b.writeErr && n < |steps|
      invariant Sound(b) && fresh(b) && fresh(b.buffer) && n <= |steps|
      invariant willing ==> !b.readErr && !b.writeErr && (b.eofSent || ToDo(b) + n <= 2 * |network| + 2)
      decreases |steps| - n
    {
      hide Sound, Buffer.Valid;
      Round(b, steps[n].input, steps[n].output);
      n := n + 1;
    }
    SoundAtEnd(b);
    exit := if b.writeErr then PrinterFailed else if b.eofSent then EofSent else Running;
    result := if b.readErr || b.writeErr then -1 else 0;
    got, printer, waiting := b.pos, b.written, b.Contents();
    assert network[..|network|] == network;
  }

  /** Lines 513 to 520. */
  method Round(b: Buffer, input: ReadAnswer, output: WriteAnswer)
    requires Sound(b) && !b.eofSent && !b.writeErr && input != Delivers(0)
    modifies b, b.buffer
    ensures Sound(b) && b.Shape()
    ensures Willing(input, output) && !old(b.readErr) ==> !b.readErr && !b.writeErr && (b.eofSent || ToDo(b) < old(ToDo(b)))
  {
    hide Ring;
    SoundIs(b);
    if b.bytes == 0 && !b.eofRead {
      var got := ReadSound(b, input);
    }
    var put := WriteSound(b, output);
  }

  lemma SoundIs(b: Buffer)
    requires Sound(b)
    ensures b.Shape() && b.outfd >= 0 && (b.bytes == 0 ==> b.Room() == BUFFER_SIZE) && (b.eofSent ==> b.eofRead)
    ensures b.bytes < BUFFER_SIZE ==> b.Room() > 0
    ensures b.bytes > 0 && !b.writeErr <==> b.Offer() > 0
  {
  }

  /** prepBuffer: the descriptors to wait for. */
  method Prep(b: Buffer, readfds: set<int>, writefds: set<int>) returns (readfds': set<int>, writefds': set<int>)
    ensures writefds' == writefds + (if b.outfd >= 0 && !b.writeErr && (b.bytes != 0 || b.eofRead) then {b.outfd} else {})
    ensures readfds' == readfds + (if b.infd >= 0 && !b.readErr && !b.eofRead && b.bytes < BUFFER_SIZE then {b.infd} else {})
  {
    readfds', writefds' := readfds, writefds;
    if b.outfd >= 0 && !b.writeErr && (b.bytes != 0 || b.eofRead) {
      writefds' := writefds' + {b.outfd};
    }
    if b.infd >= 0 && !b.readErr && !b.eofRead && b.bytes < BUFFER_SIZE {
      readfds' := readfds' + {b.infd};
    }
  }

  /**
    What one round of the bidirectional loop is told: the clock before select() and after each transfer, in
    seconds, whether the pacing timer has expired, what select() answers, and read() and write() on both ways.
   */
  datatype Turn = Turn(
    now: int, afterRead: int, afterWrite: int, expired: bool,
    ready: bool, interrupted: bool, readable: set<int>, writable: set<int>,
    input: ReadAnswer, output: WriteAnswer, backInput: ReadAnswer, backOutput: WriteAnswer)

  method ReadBack(back: Buffer, a: ReadAnswer) returns (got: int)
    requires back.Valid() && !back.writeErr
    modifies back, back.buffer
    ensures back.Valid() && !back.writeErr && back.outfd == old(back.outfd) && back.written == old(back.written)
    ensures old(back.pos) <= back.pos <= |back.input| && back.Contents() == old(back.Contents()) + back.input[old(back.pos)..back.pos]
    ensures back.pos - old(back.pos) ==
            if old(back.readErr) || a.ReadFault? then 0 else Min(a.n, Min(old(back.Room()), |back.input| - old(back.pos)))
    ensures got > 0 <==> back.pos > old(back.pos)
  {
    hide Ring;
    got := back.Read(a);
  }

  /** Lines 427 to 450: which descriptors are served in this round. */
  method Await(b: Buffer, back: Buffer, lp: int, timer: bool, t: Turn) returns (r: set<int>, w: set<int>, timer': bool)
    ensures timer' == (timer && !t.expired)
    ensures forall d :: d in r <==>
              && d in t.readable && !(timer' && d == lp)
              && ((d == b.infd && d >= 0 && !b.readErr && !b.eofRead && b.bytes < BUFFER_SIZE) ||
                  (d == back.infd && d >= 0 && !back.readErr && !back.eofRead && back.bytes < BUFFER_SIZE))
    ensures forall d :: d in w <==>
              && d in t.writable
              && ((d == b.outfd && d >= 0 && !b.writeErr && (b.bytes != 0 || b.eofRead)) ||
                  (d == back.outfd && d >= 0 && !back.writeErr && (back.bytes != 0 || back.eofRead)))
  {
    timer' := timer;
    r, w := Prep(b, {}, {});
    r, w := Prep(back, r, w);
    if timer {
      if t.expired {
        timer' := false;
      } else {
        r := r - {lp};
      }
    }
    r, w := r * t.readable, w * t.writable;
  }

  lemma ValidIs(b: Buffer)
    requires b.Valid()
    ensures b.Shape() && |b.Contents()| == b.bytes && b.Offer() <= b.bytes
    ensures !b.writeErr ==> (b.Offer() > 0 <==> b.bytes > 0)
  {
  }

  /** Lines 451 to 465: what the network has sent, or the idle exit. */
  method Receive(b: Buffer, ready: bool, lastRead: int, t: Turn) returns (idle: bool, lastRead': int)
    requires Sound(b) && !b.eofSent && !b.writeErr && t.input != Delivers(0)
    modifies b, b.buffer
    ensures Sound(b) && !b.eofSent && !b.writeErr && b.outfd == old(b.outfd) && b.written == old(b.written)
    ensures old(b.pos) <= b.pos <= |b.input| && b.Shape() && b.Contents() == old(b.Contents()) + b.input[old(b.pos)..b.pos]
    ensures b.pos - old(b.pos) ==
            if !ready || old(b.readErr) || t.input.ReadFault? then 0
            else Min(t.input.n, Min(old(b.Room()), |b.input| - old(b.pos)))
    ensures lastRead' == if b.pos > old(b.pos) then t.afterRead else lastRead
    ensures idle == (!b.eofRead && b.bytes == 0 && t.now - lastRead' >= 30)
    ensures t.input.Delivers? && !old(b.readErr) ==> !b.readErr && ToDo(b) <= old(ToDo(b))
    ensures t.input.Delivers? && !old(b.readErr) && ready && !old(b.eofRead) && old(b.bytes) < BUFFER_SIZE ==>
              ToDo(b) < old(ToDo(b)) && !idle
    ensures old(b.eofRead) ==> b.eofRead
  {
    hide Ring, Sound, Buffer.Valid;
    SoundIs(b);
    lastRead' := lastRead;
    if ready {
      var got := ReadSound(b, t.input);
      if got > 0 {
        lastRead' := t.afterRead;
      }
    }
    SoundIs(b);
    idle := !b.eofRead && b.bytes == 0 && t.now - lastRead' >= 30;
  }

  /** Lines 466 to 480. */
  method ReceiveBack(back: Buffer, ready: bool, timer: bool, t: Turn) returns (timer': bool)
    requires back.Valid() && !back.writeErr
    modifies back, back.buffer
    ensures back.Valid() && !back.writeErr && back.outfd == old(back.outfd) && back.written == old(back.written)
    ensures old(back.pos) <= back.pos <= |back.input| && back.Contents() == old(back.Contents()) + back.input[old(back.pos)..back.pos]
    ensures back.pos - old(back.pos) ==
            if !ready || old(back.readErr) || t.backInput.ReadFault? then 0
            else Min(t.backInput.n, Min(old(back.Room()), |back.input| - old(back.pos)))
    ensures timer' == (timer || back.pos > old(back.pos))
  {
    hide Ring, Buffer.Room;
    timer' := timer;
    if ready {
      var got := ReadBack(back, t.backInput);
      if got > 0 {
        timer' := true;
      }
    }
  }

  /** Lines 481 to 488. */
  method Print(b: Buffer, ready: bool, lastRead: int, t: Turn) returns (put: nat, lastRead': int)
    requires Sound(b) && !b.eofSent && !b.writeErr
    modifies b
    ensures Sound(b) && b.outfd == old(b.outfd) && b.pos == old(b.pos) && b.eofRead == old(b.eofRead) && b.readErr == old(b.readErr)
    ensures put <= old(b.bytes) && b.Shape() && b.bytes == old(b.bytes) - put
    ensures b.Contents() == old(b.Contents())[put..] && b.written == old(b.written) + old(b.Contents())[..put]
    ensures put > 0 ==> ready && t.output.Takes? && put <= t.output.n
    ensures ready && old(b.bytes) > 0 && t.output.Takes? && t.output.n > 0 ==> put > 0
    ensures b.writeErr == (ready && old(b.bytes) > 0 && t.output == WriteFault(false))
    ensures b.eofSent == (ready && b.eofRead && old(b.bytes) == 0)
    ensures lastRead' == if put > 0 then t.afterWrite else lastRead
    ensures t.output.Takes? ==> ToDo(b) <= old(ToDo(b))
    ensures ready && t.output.Takes? && t.output.n > 0 && (old(b.bytes) > 0 || b.eofRead) ==> ToDo(b) < old(ToDo(b))
  {
    hide Ring, Sound, Buffer.Valid;
    SoundIs(b);
    put, lastRead' := 0, lastRead;
    if ready {
      var n := WriteSound(b, t.output);
      if n > 0 {
        put := n;
        lastRead' := t.afterWrite;
      }
    }
  }

  /** Lines 489 to 504: after a failed write the output is turned off, and the error forgotten. */
  method GiveBack(back: Buffer, ready: bool, t: Turn) returns (gave: nat)
    requires back.Valid() && !back.writeErr
    modifies back
    ensures back.Valid() && !back.writeErr && back.pos == old(back.pos) && gave <= old(back.bytes)
    ensures back.Contents() == old(back.Contents())[gave..]
    ensures back.written == old(back.written) + (if old(back.outfd) >= 0 then old(back.Contents())[..gave] else [])
    ensures var serves := ready || old(back.outfd) == -1;
            && (gave > 0 ==> serves && (old(back.outfd) >= 0 ==> t.backOutput.Takes? && gave <= t.backOutput.n))
            && (serves && old(back.bytes) > 0 && (old(back.outfd) < 0 || (t.backOutput.Takes? && t.backOutput.n > 0)) ==> gave > 0)
            && back.outfd == if serves && old(back.outfd) >= 0 && old(back.bytes) > 0 && t.backOutput == WriteFault(false) then -1
                             else old(back.outfd)
  {
    hide Ring, Buffer.Valid, Buffer.Contents, Buffer.Offer;
    gave := 0;
    ValidIs(back);
    if ready || back.outfd == -1 {
      var put := back.Write(t.backOutput);
      if put < 0 {
        back.DropOutput();
      } else {
        gave := put;
      }
    }
  }

  /**
    Lines 451 to 504: the descriptors that are ready are served; idle says that the 30-second exit is taken,
    which happens exactly if nothing is buffered, the network has not ended, and nothing has come or gone for
    30 seconds.  The printer gets what it takes of the oldest bytes, and nothing else moves on its way; what
    the printer has sent goes to the network, or nowhere once a write to it has failed.
   */
  method Serve(b: Buffer, back: Buffer, fd: int, lp: int, r: set<int>, w: set<int>, lastRead: int, timer: bool, t: Turn)
    returns (idle: bool, lastRead': int, timer': bool, put: nat, gave: nat)
    requires Sound(b) && !b.eofSent && !b.writeErr && back.Valid() && !back.writeErr && b != back && b.buffer != back.buffer
    requires t.input != Delivers(0)
    modifies b, b.buffer, back, back.buffer
    ensures Sound(b) && back.Valid() && !back.writeErr && b.outfd == old(b.outfd) && old(b.pos) <= b.pos <= |b.input|
    ensures b.pos - old(b.pos) ==
            if fd !in r || old(b.readErr) || t.input.ReadFault? then 0
            else Min(t.input.n, Min(old(b.Room()), |b.input| - old(b.pos)))
    ensures var data := old(b.Contents()) + b.input[old(b.pos)..b.pos];
            && idle == (!b.eofRead && data == [] && t.now - (if b.pos > old(b.pos) then t.afterRead else lastRead) >= 30)
            && put <= |data| && b.Contents() == data[put..] && b.written == old(b.written) + data[..put]
            && (put > 0 ==> !idle && lp in w && t.output.Takes? && put <= t.output.n)
            && (!idle && lp in w && data != [] && t.output.Takes? && t.output.n > 0 ==> put > 0)
            && lastRead' == (if put > 0 then t.afterWrite else if b.pos > old(b.pos) then t.afterRead else lastRead)
            && b.writeErr == (!idle && lp in w && data != [] && t.output == WriteFault(false))
            && b.eofSent == (!idle && lp in w && b.eofRead && data == [])
    ensures old(back.pos) <= back.pos <= |back.input| && timer' == (timer || back.pos > old(back.pos))
    ensures back.pos - old(back.pos) ==
            if idle || lp !in r || old(back.readErr) || t.backInput.ReadFault? then 0
            else Min(t.backInput.n, Min(old(back.Room()), |back.input| - old(back.pos)))
    ensures var data := old(back.Contents()) + back.input[old(back.pos)..back.pos];
            var serves := !idle && (fd in w || old(back.outfd) == -1);
            && gave <= |data| && back.Contents() == data[gave..]
            && back.written == old(back.written) + (if old(back.outfd) >= 0 then data[..gave] else [])
            && (gave > 0 ==> serves && (old(back.outfd) >= 0 ==> t.backOutput.Takes? && gave <= t.backOutput.n))
            && (serves && data != [] && (old(back.outfd) < 0 || (t.backOutput.Takes? && t.backOutput.n > 0)) ==> gave > 0)
            && back.outfd == (if serves && old(back.outfd) >= 0 && data != [] && t.backOutput == WriteFault(false) then -1
                              else old(back.outfd))
    ensures Willing(t.input, t.output) && !old(b.readErr) ==>
              && !b.readErr && !b.writeErr
              && ((fd in r && !old(b.eofRead) && old(b.bytes) < BUFFER_SIZE) || (lp in w && (old(b.bytes) > 0 || old(b.eofRead))) ==>
                    !idle && (b.eofSent || ToDo(b) < old(ToDo(b))))
  {
    hide Ring, Sound, Buffer.Valid, Buffer.Contents, Buffer.Room, Buffer.Offer, ToDo, Min;
    SoundIs(b);
    ValidIs(back);
    timer', put, gave := timer, 0, 0;
    idle, lastRead' := Receive(b, fd in r, lastRead, t);
    ghost var data := b.Contents();
    if !idle {
      timer' := ReceiveBack(back, lp in r, timer, t);
      put, lastRead' := Print(b, lp in w, lastRead', t);
      ValidIs(back);
      gave := GiveBack(back, fd in w, t);
    }
  }

  /**
    Both descriptors are ready for whatever was asked, the network has something or has ended, and the
    printer takes something.
   */
  predicate AllReady(fd: int, lp: int, t: Turn) {
    t.ready && {fd, lp} <= t.readable && {fd, lp} <= t.writable && Willing(t.input, t.output)
  }

  /** One round with an answer of select(). */
  method ServeTurn(b: Buffer, back: Buffer, fd: int, lp: int, lastRead: int, timer: bool, t: Turn)
    returns (idle: bool, lastRead': int, timer': bool)
    requires Sound(b) && !b.eofSent && !b.writeErr && back.Valid() && !back.writeErr && b != back && b.buffer != back.buffer
    requires b.infd == fd && back.infd == lp
    requires b.outfd == lp && fd >= 0 && lp >= 0 && fd != lp && t.input != Delivers(0)
    modifies b, b.buffer, back, back.buffer
    ensures Sound(b) && back.Valid() && !back.writeErr && b.outfd == old(b.outfd) && b.Shape()
    ensures idle ==> !b.eofSent && b.bytes == 0
    ensures AllReady(fd, lp, t) && !old(b.readErr) ==>
              !b.readErr && !b.writeErr && !idle && (b.eofSent || ToDo(b) < old(ToDo(b)))
  {
    hide Sound, Buffer.Valid, Buffer.Contents, Buffer.Room, Buffer.Offer, ToDo;
    SoundIs(b);
    var r, w;
    r, w, timer' := Await(b, back, lp, timer, t);
    var put, gave;
    idle, lastRead', timer', put, gave := Serve(b, back, fd, lp, r, w, lastRead, timer', t);
    SoundIs(b);
  }

  /**
    The bidirectional loop of copy_stream (413-508, 524), observed for as many rounds as there are turns:
    network is what the network will send and status what the printer will send back.
   */
  method CopyBidirectional(fd: int, lp: int, network: seq<byte>, status: seq<byte>, start: int, turns: seq<Turn>)
    returns (exit: Exit, result: int, n: nat, ghost got: nat, ghost printer: seq<byte>, ghost waiting: seq<byte>, ghost returned: seq<byte>)
    requires fd >= 0 && lp >= 0 && fd != lp && forall i :: 0 <= i < |turns| ==> turns[i].input != Delivers(0)
    ensures got <= |network| && network[..got] == printer + waiting && returned <= status
    ensures exit != NetworkFailed && (exit == Running ==> n == |turns|)
    ensures result == 0 || result == -1
    ensures exit != Running && result == 0 ==> (exit == EofSent || exit == NetworkIdle) && printer == network[..got] && waiting == []
    ensures exit == EofSent && result == 0 ==> printer == network
    ensures exit == PrinterFailed || exit == SelectFailed ==> result == -1
    ensures |turns| >= 2 * |network| + 2 && (forall i :: 0 <= i < |turns| ==> AllReady(fd, lp, turns[i])) ==>
              exit == EofSent && result == 0 && printer == network
  {
    var b := new Buffer(fd, lp, true, network);
    var back := new Buffer(lp, fd, false, status);
    assert Sound(b);
    ghost var ready := forall i :: 0 <= i < |turns| ==> AllReady(fd, lp, turns[i]);
    var lastRead, timer := start, false;
    n := 0;
    exit := Running;
    while !b.eofSent && !b.writeErr && !back.writeErr && n < |turns| && exit == Running
      invariant fresh(b) && fresh(b.buffer) && fresh(back) && fresh(back.buffer) && b.buffer != back.buffer && b != back
      invariant Sound(b) && b.outfd == lp && back.Valid() && !back.writeErr && n <= |turns|
      invariant exit == Running || exit == SelectFailed || (exit == NetworkIdle && b.bytes == 0 && !b.eofSent)
      invariant ready ==> exit == Running && !b.readErr && !b.writeErr && (b.eofSent || ToDo(b) + n <= 2 * |network| + 2)
      decreases |turns| - n
    {
      hide Sound, Buffer.Valid, AllReady;
      var t := turns[n];
      n := n + 1;
      ReadyTurn(fd, lp, t);
      if t.ready {
        var idle;
        idle, lastRead, timer := ServeTurn(b, back, fd, lp, lastRead, timer, t);
        if idle {
          exit := NetworkIdle;
        }
      } else if !t.interrupted {
        exit := SelectFailed;
      }
    }
    SoundAtEnd(b);
    ReturnedIsPrefix(back);
    if exit == SelectFailed {
      result := -1;
    } else {
      result := if b.readErr || b.writeErr then -1 else 0;
      if exit == Running {
        exit := if b.writeErr then PrinterFailed else if b.eofSent then EofSent
                else if back.writeErr then NetworkFailed else Running;
      }
    }
    got, printer, waiting, returned := b.pos, b.written, b.Contents(), back.written;
    assert network[..|network|] == network;
  }

  lemma ReadyTurn(fd: int, lp: int, t: Turn)
    ensures AllReady(fd, lp, t) ==> t.ready
  {
  }

  /** Whatever came of the network, it got the first bytes of what the printer sent. */
  lemma ReturnedIsPrefix(back: Buffer)
    requires back.Valid()
    ensures back.written <= back.input
  {
    var sent := back.input[..back.pos];
    assert sent == back.removed + back.Contents();
    assert back.written <= sent <= back.input;
  }
}
