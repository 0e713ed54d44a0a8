/** readline() and readerLoop() of atchannel.c as they are, on the static buffer and its cursor. */
module AtReader {
  import opened Bytes
  import opened AtLines
  import opened AtReadline
  import opened AtCuts
  import opened AtTexts
  import AtResponse

  /** What the reader thread passes on: a line for processLine, or an unsolicited message with its second line. */
  datatype Passed = Single(line: seq<byte>) | Pair(first: seq<byte>, second: seq<byte>)

  const SMS_UNSOLICITED := ["+CMT:", "+CDS:", "+CBM:", "+CMTI:"]

  predicate OpensPair(line: seq<byte>) { AtResponse.StartsWithAny(line, SMS_UNSOLICITED) }

  /** Lines in order, two together where the first one announces the second; a first one without a second is dropped. */
  function PassOn(lines: seq<seq<byte>>): seq<Passed> {
    if lines == [] then []
    else if !OpensPair(lines[0]) then [Single(lines[0])] + PassOn(lines[1..])
    else if |lines| == 1 then []
    else [Pair(lines[0], lines[1])] + PassOn(lines[2..])
  }

  lemma OpensPairIs(line: seq<byte>)
    ensures OpensPair(line) <==> SaysMessage(line)
  {
    hide AtResponse.Text;
    AtResponse.TextIs("+CMT:", [43, 67, 77, 84, 58]);
    AtResponse.TextIs("+CDS:", [43, 67, 68, 83, 58]);
    AtResponse.TextIs("+CBM:", [43, 67, 66, 77, 58]);
    AtResponse.TextIs("+CMTI:", [43, 67, 77, 84, 73, 58]);
    assert SMS_UNSOLICITED[0] == "+CMT:" && SMS_UNSOLICITED[1] == "+CDS:";
    assert SMS_UNSOLICITED[2] == "+CBM:" && SMS_UNSOLICITED[3] == "+CMTI:";
  }

  function LinesIn(ps: seq<Passed>): seq<seq<byte>> {
    if ps == [] then []
    else (match ps[0] case Single(line) => [line] case Pair(first, second) => [first, second]) + LinesIn(ps[1..])
  }

  /**
    What is passed on are the lines, in order and each once, but for a last one that announces another; pairs
    are those that open with an announcement, and nothing else does.
   */
  lemma {:induction false} PassOnIs(lines: seq<seq<byte>>)
    ensures var ps := PassOn(lines);
            && (LinesIn(ps) == lines
                || (lines != [] && SaysMessage(lines[|lines| - 1]) && LinesIn(ps) == lines[..|lines| - 1]))
            && forall i :: 0 <= i < |ps| ==>
                 if ps[i].Single? then !SaysMessage(ps[i].line) else SaysMessage(ps[i].first)
    decreases |lines|
  {
    hide OpensPair, SaysMessage, LinesIn;
    NoneIn();
    if lines != [] {
      OpensPairIs(lines[0]);
      var n := if OpensPair(lines[0]) then 2 else 1;
      if n <= |lines| {
        PassOnIs(lines[n..]);
        var more := PassOn(lines[n..]);
        var p := if n == 2 then Pair(lines[0], lines[1]) else Single(lines[0]);
        assert PassOn(lines) == [p] + more;
        LinesInMore(p, more);
        assert (if n == 2 then [lines[0], lines[1]] else [lines[0]]) == lines[..n];
        AllButLast(lines, n);
      }
    }
  }

  lemma NoneIn()
    ensures LinesIn([]) == []
  {
  }

  lemma LinesInMore(p: Passed, more: seq<Passed>)
    ensures LinesIn([p] + more) == (match p case Single(line) => [line] case Pair(first, second) => [first, second]) + LinesIn(more)
  {
  }

  lemma AllButLast<T>(s: seq<T>, n: nat)
    requires n <= |s|
    ensures s == s[..n] + s[n..]
    ensures n < |s| ==> s[..|s| - 1] == s[..n] + s[n..][..|s[n..]| - 1]
  {
  }

  /**
    The static buffer with the byte behind it and the cursor; pieces is what the reads still to come
    deliver.  The ghost copy b is the same memory, seen from the cursor.
   */
  class Reader {
    const mem: array<byte>
    var cur: nat
    var pieces: seq<seq<byte>>
    ghost var b: Buf

    constructor (memory: seq<byte>, pieces: seq<seq<byte>>)
      requires |memory| == 4097 && memory[0] == 0 && NulFree(Concat(pieces))
      ensures Valid() && b == Buf([], [], memory[1..]) && this.pieces == pieces && fresh(mem)
    {
      mem := new byte[MEM](i requires 0 <= i < |memory| => memory[i]);
      cur, this.pieces, b := 0, pieces, Buf([], [], memory[1..]);
      new;
      assert mem[..] == memory == Whole(b);
    }

    ghost predicate Valid()
      reads this, mem
    {
      && mem.Length == MEM && Sized(b) && cur == |b.front| && mem[..] == Whole(b)
      && NulFree(b.pending) && NulFree(Concat(pieces))
    }

    lemma TextAt(i: nat)
      requires Valid() && i <= |b.pending|
      ensures cur + i < MEM && mem[cur + i] == if i < |b.pending| then b.pending[i] else 0
    {
    }

    /** Lines 349 and 404. */
    method SkipNewlines()
      requires Valid()
      modifies this`cur, this`b
      ensures Valid() && b == SkipFront(old(b))
    {
      hide Skip;
      ghost var was := b;
      TextAt(0);
      while mem[cur] == CR || mem[cur] == LF
        invariant Valid() && SkipFront(b) == SkipFront(was)
        invariant mem[cur] == if b.pending != [] then b.pending[0] else 0
        decreases |b.pending|
      {
        OneNewline(b);
        cur := cur + 1;
        b := Buf(b.front + [b.pending[0]], b.pending[1..], b.stale);
        assert mem[..] == Whole(b);
        TextAt(0);
      }
      NoNewline(b);
    }

    /** findNextEOL at the cursor: the index of the line's end, relative to the cursor. */
    method FindNextEol() returns (e: Option<nat>)
      requires Valid()
      ensures e == FindEnd(b.pending)
    {
      hide Eol, Whole;
      TextAt(0);
      if mem[cur] == PROMPT {
        TextAt(1);
        if mem[cur + 1] == SPACE {
          TextAt(2);
          if mem[cur + 2] == 0 {
            assert b.pending == PROMPT_TEXT;
            return Some(2);
          }
        }
      }
      assert b.pending != PROMPT_TEXT;
      var i := 0;
      while mem[cur + i] != 0 && mem[cur + i] != CR && mem[cur + i] != LF
        invariant i <= |b.pending| && cur + i < MEM && mem[cur + i] == if i < |b.pending| then b.pending[i] else 0
        invariant forall k :: 0 <= k < i ==> !IsEol(b.pending[k])
        decreases |b.pending| - i
      {
        i := i + 1;
        TextAt(i);
      }
      EolIs(b.pending, i);
      e := if mem[cur + i] == 0 then None else Some(i);
    }

    /** strlen() at the cursor. */
    method Length() returns (len: nat)
      requires Valid()
      ensures len == |b.pending|
    {
      hide Whole;
      len := 0;
      TextAt(0);
      while mem[cur + len] != 0
        invariant len <= |b.pending| && cur + len < MEM && mem[cur + len] == if len < |b.pending| then b.pending[len] else 0
        decreases |b.pending| - len
      {
        len := len + 1;
        TextAt(len);
      }
    }

    /** Lines 342 and 343, and 372 and 373. */
    method StartOver()
      requires Valid()
      modifies this`cur, this`b, mem
      ensures Valid() && b == Restart(old(b))
    {
      cur := 0;
      mem[0] := 0;
      b := Restart(b);
      assert mem[..] == [0] + old(mem[..])[1..];
    }

    /** Lines 356 to 362: a partial line moves to the front of the buffer; the result is its length. */
    method Compact() returns (len: nat)
      requires Valid()
      modifies this`cur, this`b, mem
      ensures Valid() && b == Compacted(old(b)) && len == |b.pending|
    {
      hide Whole;
      len := Length();
      CompactedWhole(b);
      Move(cur, len + 1);
      cur := 0;
      b := Compacted(b);
    }

    /** memmove to the start of the buffer. */
    method Move(from: nat, n: nat)
      requires mem.Length == MEM && from + n <= MEM
      modifies mem
      ensures mem[..] == old(mem[..])[from..from + n] + old(mem[..])[n..]
    {
      forall k | 0 <= k < n {
        mem[k] := mem[from + k];
      }
    }

    /** read() at index at, which asks for all the room there is, and the NUL behind what it delivered (393-401). */
    method ReadMore(at: nat) returns (count: nat)
      requires Valid() && at == cur + |b.pending| && at < MAX_AT_RESPONSE
      modifies this`b, this`pieces, mem
      ensures Valid() && (count == 0 <==> old(pieces) == [] || old(pieces)[0] == [])
      ensures count == 0 ==> b == old(b) && pieces == old(pieces) && mem[..] == old(mem[..])
      ensures count > 0 ==> count == Asked(old(b), old(pieces)) && pieces == After(old(pieces), count)
                            && b == Filled(old(b), old(pieces)[0][..count])
    {
      count := 0;
      if pieces != [] && pieces[0] != [] {
        hide NulFree, Whole;
        count := Min(|pieces[0]|, MAX_AT_RESPONSE - at);
        ghost var d := pieces[0][..count];
        NulFreeParts(d, Concat(After(pieces, count)));
        NulFreeParts(b.pending, d);
        Store(at, pieces[0][..count]);
        pieces := After(pieces, count);
        FilledWhole(b, d);
        b := Filled(b, d);
      }
    }

    /** The bytes that read() puts at index at, and the NUL behind them. */
    method Store(at: nat, d: seq<byte>)
      requires mem.Length == MEM && at + |d| < MEM
      modifies mem
      ensures mem[..] == old(mem[..])[..at] + d + [0] + old(mem[..])[at + |d| + 1..]
    {
      forall k | 0 <= k < |d| {
        mem[at + k] := d[k];
      }
      mem[at + |d|] := 0;
    }

    /** Lines 422 to 425: the line is ended, and the cursor moves one byte on. */
    method TakeLine(e: nat) returns (line: seq<byte>)
      requires Valid() && e <= |b.pending|
      modifies this`cur, this`b, mem
      ensures line == old(b).pending[..e]
      ensures Cut(old(b), e).Some? ==> Valid() && b == Cut(old(b), e).value
      ensures Cut(old(b), e) == None ==> mem.Length == MEM && cur <= MEM && forall k :: cur <= k < MEM ==> mem[k] != 0
    {
      line := mem[cur..cur + e];
      ghost var was, next := b, Cut(b, e);
      assert line == mem[..][cur..cur + e];
      mem[cur + e] := 0;
      cur := cur + e + 1;
      CutWhole(was, e);
      assert mem[..] == Whole(was)[|was.front| + e := 0];
      if next.Some? {
        b := next.value;
      } else {
        assert forall k :: cur <= k < MEM ==> mem[k] == mem[..][k];
      }
    }

    /** Lines 340 to 366: nothing is buffered, or a line is complete, or a partial line is at the front. */
    method Begin() returns (pRead: nat, e: Option<nat>)
      requires Valid()
      modifies this`cur, this`b, mem
      ensures Valid() && e == FindEnd(b.pending) && pRead <= MEM
      ensures if e.Some? then old(b).pending != [] && b == SkipFront(old(b))
              else pRead == |b.pending| && b == (if old(b).pending == [] then Restart(old(b)) else Compacted(SkipFront(old(b))))
                   && cur == 0 && FindEnd((if old(b).pending == [] then b else SkipFront(old(b))).pending) == None
    {
      hide FindEnd, Skip, Whole, Restart, Compacted, SkipFront;
      pRead, e := 0, None;
      TextAt(0);
      ghost var was := b;
      if mem[cur] == 0 {
        Consumed();
        StartOver();
        FindEndNothing();
      } else {
        SkipNewlines();
        FindEndNothing();
        e := FindNextEol();
        if e == None {
          pRead := Compact();
        }
      }
    }

    lemma Consumed()
      requires Valid() && mem[cur] == 0
      ensures b.pending == []
    {
    }

    /** One round of the loop (368 to 408): nothing more to read, or a line, or a longer partial line. */
    method Round(pRead: nat) returns (count: nat, pRead': nat, e: Option<nat>)
      requires Valid() && pRead == cur + |b.pending|
      modifies this`cur, this`b, this`pieces, mem
      ensures Valid() && pRead' == cur + |b.pending|
      ensures var r := Roomed(old(b));
              if count == 0 then e == None && b == r && Await(old(b), old(pieces)) == Ended(r)
              else e == FindEnd(b.pending) && |Concat(pieces)| < |Concat(old(pieces))|
                   && Await(old(b), old(pieces)) == (match e case Some(v) => Take(b, v, pieces) case None => Await(b, pieces))
    {
      hide FindEnd, Whole, Cut, SkipFront, Restart, Await, Take;
      pRead', e := pRead, None;
      if MAX_AT_RESPONSE - pRead == 0 {
        StartOver();
        pRead' := 0;
      }
      ghost var r := b;
      AwaitUnfolded(old(b), pieces);
      count := ReadMore(pRead');
      if count > 0 {
        SkipNewlines();
        e := FindNextEol();
        SameEnd(Filled(r, old(pieces)[0][..count]));
        pRead' := pRead' + count;
      }
    }

    /** readline(); c says what the call is. */
    method ReadLine() returns (line: Option<seq<byte>>, ghost c: Call)
      requires Valid()
      modifies this`cur, this`b, this`pieces, mem
      ensures c == ReadLineF(old(b), old(pieces))
      ensures line == if c.Line? then Some(c.line) else None
      ensures c.Line? ==> pieces == c.rest
      ensures Left(c).Some? ==> Valid() && b == Left(c).value
      ensures Left(c) == None ==> mem.Length == MEM && cur <= MEM && forall k :: cur <= k < MEM ==> mem[k] != 0
    {
      hide FindEnd, Whole, Cut, SkipFront, Restart, Compacted, Await;
      c := ReadLineF(b, pieces);
      var pRead, e := Begin();
      while e == None
        invariant Valid() && e == FindEnd(b.pending) && (e == None ==> pRead == cur + |b.pending|)
        invariant c == match e case Some(v) => Take(b, v, pieces) case None => Await(b, pieces)
        decreases |Concat(pieces)|, e == None
      {
        var count;
        count, pRead, e := Round(pRead);
        if count == 0 {
          return None, c;
        }
      }
      EndIsBehind(b.pending, e.value);
      var text := TakeLine(e.value);
      line := Some(text);
    }

    /**
      readerLoop: lines one by one, or two by two, until a call returns NULL; ok says whether the string
      at the cursor always ended inside the memory.  The stream's runs are passed on, whatever the cut
      and the memory, if its lines fit and none starts like the prompt; and the byte behind the buffer is
      as before exactly if no read filled the buffer, or it was 0.
     */
    method ReaderLoop() returns (ok: bool, passed: seq<Passed>)
      requires Valid()
      modifies this`cur, this`b, this`pieces, mem
      ensures var all := AllRead(old(b), old(pieces)); if all == None then !ok else ok && passed == PassOn(all.value)
      ensures ok ==> Valid() && RunEnd(old(b), old(pieces)) == Some(b)
      ensures ok ==> (mem[MAX_AT_RESPONSE] == old(mem[MAX_AT_RESPONSE]) <==>
                      !RunFills(old(b), old(pieces)) || old(mem[MAX_AT_RESPONSE]) == 0)
      ensures Delivering(old(pieces)) && Fits(Residue(old(b), old(pieces))) && NoPrompt(Residue(old(b), old(pieces))) ==>
                ok && passed == PassOn(Runs(Residue(old(b), old(pieces)), []))
    {
      hide AllRead, RunEnd, Ahead, Fits, NoPrompt, Runs, Whole, RunFills, PassOn, Even, AtResponse.StartsWithAny;
      ghost var b0, p0, done := b, pieces, [];
      GuardHere();
      RunGuard(b, pieces);
      if Delivering(p0) && Fits(Residue(b0, p0)) && NoPrompt(Residue(b0, p0)) {
        NoPromptIsRight(b0, p0);
      }
      ok, passed := true, [];
      AtStart(b0, p0);
      while true
        invariant ok && Valid() && Sized(b0) && Ahead(b0, p0, done, b, pieces) && PassOn(done) == passed && Even(done)
        decreases |Concat(pieces)|, |b.pending| + |b.stale|
      {
        var line;
        line, ok := NextLineOf(b0, p0, done);
        if line == None || !ok {
          break;
        }
        var sms := AtResponse.StartsWithOneOf(line.value, SMS_UNSOLICITED);
        if !sms {
          PassOnSingle(done, line.value);
          passed := passed + [Single(line.value)];
          done := done + [line.value];
        } else {
          var line2;
          line2, ok := NextLineOf(b0, p0, done + [line.value]);
          PassOnHalf(done, line.value);
          if line2 == None || !ok {
            break;
          }
          PassOnPair(done, line.value, line2.value);
          passed := passed + [Pair(line.value, line2.value)];
          done := done + [line.value] + [line2.value];
        }
      }
      if ok {
        GuardHere();
      }
    }

    lemma GuardHere()
      requires Valid()
      ensures mem[MAX_AT_RESPONSE] == Guard(b)
    {
    }

    /** The next call of a run that started from b0 and p0 and has returned the lines done. */
    method NextLineOf(ghost b0: Buf, ghost p0: seq<seq<byte>>, ghost done: seq<seq<byte>>) returns (line: Option<seq<byte>>, ok: bool)
      requires Valid() && Sized(b0) && Ahead(b0, p0, done, b, pieces)
      modifies this`cur, this`b, this`pieces, mem
      ensures !ok ==> AllRead(b0, p0) == None
      ensures ok ==> Valid()
      ensures ok && line == None ==> AllRead(b0, p0) == Some(done) && RunEnd(b0, p0) == Some(b)
      ensures ok && line.Some? ==> Ahead(b0, p0, done + [line.value], b, pieces)
      ensures ok && line.Some? && |Concat(pieces)| >= |Concat(old(pieces))| ==>
                pieces == old(pieces) && |b.pending| + |b.stale| < |old(b).pending| + |old(b).stale|
    {
      hide AllRead, RunEnd, Ahead, ReadLineF, Whole;
      OneCall(b0, p0, done, b, pieces);
      ghost var c;
      line, c := ReadLine();
      if Left(c).Some? {
        TextAt(|b.pending|);
      }
      ok := true;
      if line.Some? {
        ok := Terminated();
      }
    }

    /** Whether the string at the cursor ends inside the memory. */
    method Terminated() returns (t: bool)
      requires mem.Length == MEM && cur <= MEM
      ensures t <==> exists k :: cur <= k < MEM && mem[k] == 0
    {
      var i := cur;
      while i < MEM && mem[i] != 0
        invariant cur <= i <= MEM && forall k :: cur <= k < i ==> mem[k] != 0
      {
        i := i + 1;
      }
      t := i < MEM;
    }
  }

  lemma AwaitUnfolded(b: Buf, pieces: seq<seq<byte>>)
    requires Sized(b)
    ensures var r := Roomed(b);
            if pieces == [] || pieces[0] == [] then Await(b, pieces) == Ended(r)
            else
              var n := Asked(r, pieces);
              var rest := After(pieces, n);
              var d := SkipFront(Filled(r, pieces[0][..n]));
              && |Concat(rest)| < |Concat(pieces)|
              && Await(b, pieces) == match FindEnd(d.pending) case Some(e) => Take(d, e, rest) case None => Await(d, rest)
  {
  }

  lemma SameEnd(b: Buf)
    requires Sized(b)
    ensures var d := SkipFront(b); |d.front| + |d.pending| == |b.front| + |b.pending|
  {
  }

  function Prepend(lines: seq<seq<byte>>, more: Option<seq<seq<byte>>>): Option<seq<seq<byte>>> {
    if more == None then None else Some(lines + more.value)
  }

  /** After these lines, the run from b0 and p0 has come to b and pieces. */
  ghost predicate Ahead(b0: Buf, p0: seq<seq<byte>>, done: seq<seq<byte>>, b: Buf, pieces: seq<seq<byte>>)
    requires Sized(b0)
  {
    Sized(b) && AllRead(b0, p0) == Prepend(done, AllRead(b, pieces)) && RunEnd(b0, p0) == RunEnd(b, pieces)
  }

  lemma AtStart(b: Buf, pieces: seq<seq<byte>>)
    requires Sized(b)
    ensures Ahead(b, pieces, [], b, pieces) && PassOn([]) == [] && Even([])
  {
    hide AllRead, RunEnd;
    if AllRead(b, pieces).Some? {
      assert [] + AllRead(b, pieces).value == AllRead(b, pieces).value;
    }
  }

  lemma OneCall(b0: Buf, p0: seq<seq<byte>>, done: seq<seq<byte>>, b: Buf, pieces: seq<seq<byte>>)
    requires Sized(b0) && Ahead(b0, p0, done, b, pieces)
    ensures var c := ReadLineF(b, pieces);
            if c.Ended? then AllRead(b0, p0) == Some(done) && RunEnd(b0, p0) == Some(c.last)
            else if c.buf == None then AllRead(b0, p0) == None
            else Ahead(b0, p0, done + [c.line], c.buf.value, c.rest)
  {
    hide ReadLineF;
    var c := ReadLineF(b, pieces);
    if c.Ended? {
      assert done + [] == done;
    } else if c.buf.Some? && AllRead(c.buf.value, c.rest).Some? {
      var more := AllRead(c.buf.value, c.rest).value;
      assert done + ([c.line] + more) == done + [c.line] + more;
    }
  }

  /** Lines that pair up: none is left half. */
  predicate Even(lines: seq<seq<byte>>) {
    lines == [] || (if OpensPair(lines[0]) then |lines| > 1 && Even(lines[2..]) else Even(lines[1..]))
  }

  lemma {:induction false} PassOnMore(done: seq<seq<byte>>, more: seq<seq<byte>>)
    requires Even(done)
    ensures PassOn(done + more) == PassOn(done) + PassOn(more) && (Even(more) ==> Even(done + more))
    decreases |done|
  {
    hide OpensPair;
    if done == [] {
      assert done + more == more;
    } else if OpensPair(done[0]) {
      assert (done + more)[2..] == done[2..] + more;
      PassOnMore(done[2..], more);
    } else {
      assert (done + more)[1..] == done[1..] + more;
      PassOnMore(done[1..], more);
    }
  }

  lemma PassOnSingle(done: seq<seq<byte>>, line: seq<byte>)
    requires Even(done) && !OpensPair(line)
    ensures PassOn(done + [line]) == PassOn(done) + [Single(line)] && Even(done + [line])
  {
    hide OpensPair;
    assert [line][1..] == [] && PassOn([]) == [] && Even([]);
    assert PassOn([line]) == [Single(line)] + PassOn([]) && Even([line]);
    PassOnMore(done, [line]);
  }

  lemma PassOnHalf(done: seq<seq<byte>>, line: seq<byte>)
    requires Even(done) && OpensPair(line)
    ensures PassOn(done + [line]) == PassOn(done)
  {
    hide OpensPair;
    assert PassOn([line]) == [] && PassOn(done) + [] == PassOn(done);
    PassOnMore(done, [line]);
  }

  lemma PassOnPair(done: seq<seq<byte>>, line: seq<byte>, line2: seq<byte>)
    requires Even(done) && OpensPair(line)
    ensures PassOn(done + [line] + [line2]) == PassOn(done) + [Pair(line, line2)] && Even(done + [line] + [line2])
  {
    hide OpensPair;
    assert done + [line] + [line2] == done + [line, line2] && [line, line2][2..] == [];
    assert PassOn([]) == [] && Even([]);
    assert PassOn([line, line2]) == [Pair(line, line2)] + PassOn([]) && Even([line, line2]);
    PassOnMore(done, [line, line2]);
  }

  lemma NulFreeParts(a: seq<byte>, c: seq<byte>)
    ensures NulFree(a + c) <==> NulFree(a) && NulFree(c)
  {
    assert forall i :: 0 <= i < |a| ==> (a + c)[i] == a[i];
    assert forall i :: 0 <= i < |c| ==> (a + c)[|a| + i] == c[i];
  }

  lemma CompactedWhole(b: Buf)
    requires Sized(b)
    ensures var n := |b.pending| + 1;
            |b.front| + n <= MEM == |Whole(b)|
            && Whole(Compacted(b)) == Whole(b)[|b.front|..|b.front| + n] + Whole(b)[n..]
  {
  }

  lemma FilledWhole(b: Buf, d: seq<byte>)
    requires Sized(b) && |d| <= |b.stale|
    ensures var at := |b.front| + |b.pending|;
            at + |d| < MEM && |Whole(b)| == MEM
            && Whole(Filled(b, d)) == Whole(b)[..at] + d + [0] + Whole(b)[at + |d| + 1..]
  {
  }

  lemma OneNewline(b: Buf)
    requires Sized(b) && b.pending != [] && IsEol(b.pending[0])
    ensures var c := Buf(b.front + [b.pending[0]], b.pending[1..], b.stale);
            Sized(c) && Whole(c) == Whole(b) && SkipFront(c) == SkipFront(b)
  {
    var p, n := b.pending, |b.pending| - |Skip(b.pending)|;
    assert p[..n] == [p[0]] + p[1..][..n - 1] && p[1..][n - 1..] == p[n..] && p == [p[0]] + p[1..];
    assert b.front + [p[0]] + p[1..] == b.front + p;
    assert b.front + [p[0]] + p[1..][..n - 1] == b.front + p[..n];
  }

  lemma NoNewline(b: Buf)
    requires Sized(b) && (b.pending != [] ==> !IsEol(b.pending[0]))
    ensures SkipFront(b) == b
  {
    assert b.pending[..0] == [] && b.pending[0..] == b.pending && b.front + [] == b.front;
  }

  lemma CutWhole(b: Buf, e: nat)
    requires Sized(b) && e <= |b.pending|
    ensures var c := Cut(b, e);
            && (c.Some? ==> Whole(c.value) == Whole(b)[|b.front| + e := 0] && |c.value.front| == |b.front| + e + 1)
            && (c.Some? && NulFree(b.pending) ==> NulFree(c.value.pending))
            && (c == None ==> e == |b.pending| && forall k :: |b.front| + e < k < MEM ==> Whole(b)[k] != 0)
  {
    if e < |b.pending| {
      CutInside(b.front, b.pending, b.stale, e);
    } else {
      hide Nul;
      var z := Nul(b.stale);
      if z < |b.stale| {
        CutBehind(b.front, b.pending, b.stale, z);
      } else {
        assert b.stale[..z] == b.stale;
        assert forall k :: |b.front| + e < k < MEM ==> Whole(b)[k] == b.stale[k - |b.front| - e - 1];
      }
    }
  }

  lemma CutInside(front: seq<byte>, p: seq<byte>, stale: seq<byte>, e: nat)
    requires e < |p|
    ensures front + p[..e] + [0] + p[e + 1..] + [0] + stale == (front + p + [0] + stale)[|front| + e := 0]
  {
  }

  lemma CutBehind(front: seq<byte>, p: seq<byte>, stale: seq<byte>, z: nat)
    requires z < |stale| && stale[z] == 0
    ensures var w := front + p + [0] + stale; front + p + [0] + stale[..z] + [0] + stale[z + 1..] == w[|front| + |p| := 0]
  {
    assert stale == stale[..z] + [0] + stale[z + 1..];
  }
}
