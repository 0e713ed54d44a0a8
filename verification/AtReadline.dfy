/**
  readline() of atchannel.c: lines cut out of a byte stream that arrives in pieces, in a
  fixed buffer with a moving cursor.  One call, and whole runs, on values.
 */
module AtReadline {
  import opened Bytes
  import opened AtLines

  // ---------- the memory ----------

  /** The buffer and the one byte behind it, where the NUL of a read that fills the buffer is stored. */
  const MEM := MAX_AT_RESPONSE + 1

  /** Memory from the cursor's point of view: what is in front of it, the string at it, its NUL, and what is behind. */
  datatype Buf = Buf(front: seq<byte>, pending: seq<byte>, stale: seq<byte>)

  predicate Sized(b: Buf) { |b.front| + |b.pending| + 1 + |b.stale| == MEM }

  function Whole(b: Buf): (w: seq<byte>)
    ensures |w| == |b.front| + |b.pending| + 1 + |b.stale|
  {
    b.front + b.pending + [0] + b.stale
  }

  /** The cursor skips newlines. */
  function SkipFront(b: Buf): (c: Buf)
    requires Sized(b)
    ensures Sized(c) && c.pending == Skip(b.pending) && c.stale == b.stale
  {
    var n := |b.pending| - |Skip(b.pending)|;
    SkipDrops(b.pending);
    Buf(b.front + b.pending[..n], b.pending[n..], b.stale)
  }

  /** The cursor goes back to the start of the buffer, and a NUL is stored there. */
  function Restart(b: Buf): (c: Buf)
    requires Sized(b)
    ensures Sized(c) && c.front == c.pending == []
  {
    Buf([], [], Whole(b)[1..])
  }

  /** The string at the cursor is moved to the start of the buffer, NUL included. */
  function Compacted(b: Buf): (c: Buf)
    requires Sized(b)
    ensures Sized(c) && c.front == [] && c.pending == b.pending
  {
    Buf([], b.pending, Whole(b)[|b.pending| + 1..])
  }

  /** A read delivers d behind the string, and a NUL is stored behind d. */
  function Filled(b: Buf, d: seq<byte>): (c: Buf)
    requires Sized(b) && |d| <= |b.stale|
    ensures Sized(c)
  {
    Buf(b.front, b.pending + d, b.stale[|d|..])
  }

  function Nul(s: seq<byte>): (z: nat)
    ensures z <= |s| && NulFree(s[..z]) && (z < |s| ==> s[z] == 0)
  {
    if s == [] || s[0] == 0 then 0
    else
      var z := 1 + Nul(s[1..]);
      assert s[..z] == [s[0]] + s[1..][..z - 1];
      z
  }

  /**
    The line is ended at e and the cursor is put one byte behind its end.  Behind a prompt that is the byte
    after the NUL: the string there is whatever the memory holds, and None if it has no end in it.
   */
  function Cut(b: Buf, e: nat): (c: Option<Buf>)
    requires Sized(b) && e <= |b.pending|
    ensures c.Some? ==> Sized(c.value) && |c.value.pending| + |c.value.stale| < |b.pending| + 1 + |b.stale|
    ensures c.Some? && e > 0 ==> |c.value.pending| + |c.value.stale| < |b.pending| + |b.stale|
  {
    if e < |b.pending| then Some(Buf(b.front + b.pending[..e] + [0], b.pending[e + 1..], b.stale))
    else
      var z := Nul(b.stale);
      if z == |b.stale| then None
      else Some(Buf(b.front + b.pending + [0], b.stale[..z], b.stale[z + 1..]))
  }

  // ---------- one call ----------

  /**
    A line, whether it ended at the NUL, the memory afterwards and the pieces still to be read; or the end,
    when a read delivers nothing.
   */
  datatype Call = Line(line: seq<byte>, prompt: bool, buf: Option<Buf>, rest: seq<seq<byte>>) | Ended(last: Buf)

  function Take(b: Buf, e: nat, pieces: seq<seq<byte>>): Call
    requires Sized(b) && e <= |b.pending|
  {
    Line(b.pending[..e], e == |b.pending|, Cut(b, e), pieces)
  }

  /** The pieces after n bytes of the first one. */
  function After(pieces: seq<seq<byte>>, n: nat): (r: seq<seq<byte>>)
    requires pieces != [] && n <= |pieces[0]|
    ensures Concat(pieces) == pieces[0][..n] + Concat(r)
    ensures Delivering(pieces) ==> Delivering(r)
  {
    assert pieces[0] == pieces[0][..n] + pieces[0][n..];
    if n < |pieces[0]| then
      assert ([pieces[0][n..]] + pieces[1..])[1..] == pieces[1..];
      [pieces[0][n..]] + pieces[1..]
    else pieces[1..]
  }

  /** Every read delivers something. */
  predicate Delivering(pieces: seq<seq<byte>>) { forall i :: 0 <= i < |pieces| ==> pieces[i] != [] }

  /** What one read asks for, and what it is given: the next piece, or as much of it as there is room for. */
  function Asked(b: Buf, pieces: seq<seq<byte>>): (n: nat)
    requires pieces != []
    ensures n <= |pieces[0]| && n <= |b.stale|
  {
    Min(|pieces[0]|, |b.stale|)
  }

  /** The check before each read: a full buffer without a line is given up. */
  function Roomed(b: Buf): (c: Buf)
    requires Sized(b)
    ensures Sized(c) && c.stale != []
  {
    if b.stale == [] then Restart(b) else b
  }

  /** The loop of readline, from a string without a line's end. */
  function Await(b: Buf, pieces: seq<seq<byte>>): (c: Call)
    requires Sized(b)
    ensures c.Line? ==> |Concat(c.rest)| < |Concat(pieces)| && (c.buf.Some? ==> Sized(c.buf.value))
    ensures c.Line? && Delivering(pieces) ==> Delivering(c.rest)
    ensures c.Ended? ==> Sized(c.last)
    decreases |Concat(pieces)|
  {
    var r := Roomed(b);
    if pieces == [] || pieces[0] == [] then Ended(r)
    else
      var n := Asked(r, pieces);
      var rest := After(pieces, n);
      var d := SkipFront(Filled(r, pieces[0][..n]));
      match FindEnd(d.pending)
      case Some(e) => Take(d, e, rest)
      case None => Await(d, rest)
  }

  /** readline(). */
  function ReadLineF(b: Buf, pieces: seq<seq<byte>>): (c: Call)
    requires Sized(b)
    ensures c.Line? && c.buf.Some? ==>
              && Sized(c.buf.value)
              && (|Concat(c.rest)| < |Concat(pieces)| ||
                  (c.rest == pieces && |c.buf.value.pending| + |c.buf.value.stale| < |b.pending| + |b.stale|))
    ensures c.Line? && Delivering(pieces) ==> Delivering(c.rest)
    ensures c.Ended? ==> Sized(c.last)
  {
    if b.pending == [] then Await(Restart(b), pieces)
    else
      var s := SkipFront(b);
      match FindEnd(s.pending)
      case Some(e) => EndIsBehind(s.pending, e); Take(s, e, pieces)
      case None => Await(Compacted(s), pieces)
  }

  lemma EndIsBehind(p: seq<byte>, e: nat)
    requires FindEnd(p) == Some(e)
    ensures p != []
  {
  }

  /** Everything not yet returned: the string at the cursor, then what is still to be read. */
  function Residue(b: Buf, pieces: seq<seq<byte>>): seq<byte> { b.pending + Concat(pieces) }

  // ---------- one call, exactly ----------

  /** A call is right if its line and the lines still to come are those of the stream. */
  predicate Right(c: Call, s: seq<byte>) {
    match c
    case Ended(last) => AllLines(s) == []
    case Line(line, prompt, buf, rest) => buf.Some? && AllLines(s) == [line] + AllLines(Residue(buf.value, rest))
  }

  /**
    A prompt that does no harm: it is a whole line of the stream, its terminator comes next, and there is
    nothing but newlines in the memory behind its NUL.
   */
  predicate Harmless(c: Call) {
    c.Line? && c.prompt ==>
      c.buf.Some? && Skip(c.buf.value.pending) == [] && Concat(c.rest) != [] && IsEol(Concat(c.rest)[0])
  }

  /** What a call on the stream s can be. */
  predicate CallOn(c: Call, s: seq<byte>) {
    match c
    case Ended(last) => NextLine(s) == None
    case Line(line, prompt, buf, rest) =>
      if prompt then line == PROMPT_TEXT && Skip(s) == PROMPT_TEXT + Concat(rest)
      else buf.Some? && NextLine(s) == Some((line, Residue(buf.value, rest)))
  }

  lemma OnlySkipMatters(c: Call, s: seq<byte>, t: seq<byte>)
    requires CallOn(c, s) && Skip(s) == Skip(t)
    ensures CallOn(c, t)
  {
  }

  lemma SkipNothing(s: seq<byte>)
    requires s != [] ==> !IsEol(s[0])
    ensures Skip(s) == s
  {
  }

  lemma SplitAt(p: seq<byte>, rest: seq<byte>, e: nat)
    requires e < |p|
    ensures (p + rest)[..e] == p[..e] && (p + rest)[e + 1..] == p[e + 1..] + rest
  {
  }

  /** The first line's end found in a prefix is that of the stream. */
  lemma CompleteLine(p: seq<byte>, rest: seq<byte>)
    requires p != [] && !IsEol(p[0]) && Eol(p) < |p|
    ensures NextLine(p + rest) == Some((p[..Eol(p)], p[Eol(p) + 1..] + rest))
  {
    hide Eol, Skip;
    SkipNothing(p + rest);
    assert forall k :: 0 <= k < |p| ==> (p + rest)[k] == p[k];
    EolIs(p + rest, Eol(p));
    SplitAt(p, rest, Eol(p));
  }

  lemma TakeOn(d: Buf, e: nat, rest: seq<seq<byte>>)
    requires Sized(d) && FindEnd(d.pending) == Some(e) && !IsEol(d.pending[0])
    ensures CallOn(Take(d, e, rest), Residue(d, rest))
  {
    var p, r := d.pending, Concat(rest);
    if p == PROMPT_TEXT {
      assert p[..2] == p;
      SkipNothing(p + r);
    } else {
      hide Eol;
      CompleteLine(p, r);
    }
  }

  lemma NoLineYet(p: seq<byte>)
    requires FindEnd(p) == None && (p != [] ==> !IsEol(p[0]))
    ensures NextLine(p) == None
  {
  }

  /** A partial line, with the newlines in front of it, leaves room: it is not given up. */
  lemma RoomLeft(b: Buf, r: seq<byte>)
    requires Sized(b) && FindEnd(b.pending) == None && (b.pending != [] ==> !IsEol(b.pending[0]))
    requires (forall k :: 0 <= k < |b.front| ==> IsEol(b.front[k])) && FirstEnd(b.front + (b.pending + r)) < MAX_AT_RESPONSE
    ensures b.stale != []
  {
    SkipEols(b.front, b.pending + r);
    EolAtLeast(b.pending, r);
    if b.pending != [] {
      SkipNothing(b.pending + r);
    }
  }

  /** Waiting for a line's end behind newlines, with room for the first line. */
  ghost predicate Partial(b: Buf, pieces: seq<seq<byte>>) {
    && Sized(b) && FindEnd(b.pending) == None && (b.pending != [] ==> !IsEol(b.pending[0])) && Delivering(pieces)
    && (forall k :: 0 <= k < |b.front| ==> IsEol(b.front[k]))
    && FirstEnd(b.front + Residue(b, pieces)) < MAX_AT_RESPONSE
  }

  /** The memory after one more read. */
  function Reread(b: Buf, pieces: seq<seq<byte>>): (d: Buf)
    requires Sized(b) && b.stale != [] && pieces != []
    ensures Sized(d)
  {
    SkipFront(Filled(b, pieces[0][..Asked(b, pieces)]))
  }

  lemma AwaitReads(b: Buf, pieces: seq<seq<byte>>)
    requires Sized(b) && b.stale != [] && pieces != [] && pieces[0] != []
    ensures var d := Reread(b, pieces); var rest := After(pieces, Asked(b, pieces));
            Await(b, pieces) == match FindEnd(d.pending) case Some(e) => Take(d, e, rest) case None => Await(d, rest)
  {
  }

  /** One more read: nothing of the stream is lost but newlines. */
  lemma OneRead(b: Buf, pieces: seq<seq<byte>>)
    requires Partial(b, pieces) && pieces != []
    ensures b.stale != []
    ensures var d := Reread(b, pieces); var rest := After(pieces, Asked(b, pieces));
            && Delivering(rest) && |Concat(rest)| < |Concat(pieces)|
            && (d.pending != [] ==> !IsEol(d.pending[0])) && (forall k :: 0 <= k < |d.front| ==> IsEol(d.front[k]))
            && d.front + Residue(d, rest) == b.front + Residue(b, pieces)
            && Skip(Residue(d, rest)) == Skip(Residue(b, pieces))
            && d.stale == b.stale[Asked(b, pieces)..]
            && Await(b, pieces) == match FindEnd(d.pending) case Some(e) => Take(d, e, rest) case None => Await(d, rest)
  {
    hide FindEnd, Eol, Skip, FirstEnd, Await;
    RoomLeft(b, Concat(pieces));
    AwaitReads(b, pieces);
    var n := Asked(b, pieces);
    var rest := After(pieces, n);
    var f := Filled(b, pieces[0][..n]);
    var d := SkipFront(f);
    var k := |f.pending| - |d.pending|;
    SkippedFront(f);
    assert pieces[0] != [];
    Rejoined(b.front, b.pending, pieces[0][..n], Concat(rest), k);
    SkipEols(f.pending[..k], Residue(d, rest));
  }

  lemma Rejoined(front: seq<byte>, p: seq<byte>, d: seq<byte>, rest: seq<byte>, k: nat)
    requires k <= |p + d|
    ensures p + (d + rest) == (p + d)[..k] + ((p + d)[k..] + rest)
    ensures front + (p + d)[..k] + ((p + d)[k..] + rest) == front + (p + (d + rest))
  {
  }

  /** The loop finds the next line of the stream, for every way of cutting it. */
  lemma {:induction false} AwaitOn(b: Buf, pieces: seq<seq<byte>>)
    requires Partial(b, pieces)
    ensures CallOn(Await(b, pieces), Residue(b, pieces))
    decreases |Concat(pieces)|
  {
    hide FindEnd, Eol, Skip, NextLine, FirstEnd, CallOn, Cut, Await, Take, Reread, After;
    if pieces == [] {
      RoomLeft(b, Concat(pieces));
      NoLineYet(b.pending);
      EndedOn(b);
      AwaitNothing(b);
    } else {
      OneRead(b, pieces);
      var d, rest := Reread(b, pieces), After(pieces, Asked(b, pieces));
      match FindEnd(d.pending) {
        case Some(e) =>
          EndIsBehind(d.pending, e);
          TakeOn(d, e, rest);
        case None =>
          AwaitOn(d, rest);
      }
      OnlySkipMatters(Await(b, pieces), Residue(d, rest), Residue(b, pieces));
    }
  }

  lemma AwaitNothing(b: Buf)
    requires Sized(b) && b.stale != []
    ensures Await(b, []) == Ended(b)
  {
  }

  lemma EndedOn(b: Buf)
    requires NextLine(b.pending) == None
    ensures CallOn(Ended(b), Residue(b, []))
  {
    assert Residue(b, []) == b.pending;
  }

  lemma SkippedFront(f: Buf)
    requires Sized(f)
    ensures var d := SkipFront(f); var k := |f.pending| - |d.pending|;
            && 0 <= k <= |f.pending| && d.pending == f.pending[k..] && d.front == f.front + f.pending[..k]
            && (d.pending != [] ==> !IsEol(d.pending[0])) && (forall i :: 0 <= i < k ==> IsEol(f.pending[i]))
            && f.pending == f.pending[..k] + d.pending
  {
    SkipDrops(f.pending);
  }

  lemma SkippedOn(b: Buf, pieces: seq<seq<byte>>)
    requires Sized(b)
    ensures var c := SkipFront(b); var s, t := Residue(b, pieces), Residue(c, pieces);
            && (c.pending != [] ==> !IsEol(c.pending[0])) && Skip(t) == Skip(s) && FirstEnd(t) <= FirstEnd(s)
  {
    hide Eol, Skip, FirstEnd;
    var c := SkipFront(b);
    var k := |b.pending| - |c.pending|;
    SkippedFront(b);
    assert Residue(b, pieces) == b.pending[..k] + Residue(c, pieces);
    SkipEols(b.pending[..k], Residue(c, pieces));
    NewlinesFirst(b.pending[..k], Residue(c, pieces));
  }

  /** readline() on a stream whose first line fits, from any memory and for any cut. */
  lemma ReadLineOn(b: Buf, pieces: seq<seq<byte>>)
    requires Sized(b) && Delivering(pieces) && FirstEnd(Residue(b, pieces)) < MAX_AT_RESPONSE
    ensures CallOn(ReadLineF(b, pieces), Residue(b, pieces))
  {
    hide FindEnd, Eol, Skip, NextLine, CallOn, Cut, Await, FirstEnd, SkipFront;
    var s := Residue(b, pieces);
    if b.pending == [] {
      FindEndNothing();
      assert [] + Residue(Restart(b), pieces) == s;
      AwaitOn(Restart(b), pieces);
    } else {
      var c := SkipFront(b);
      SkippedOn(b, pieces);
      match FindEnd(c.pending) {
        case Some(e) =>
          EndIsBehind(c.pending, e);
          TakeOn(c, e, pieces);
        case None =>
          assert [] + Residue(Compacted(c), pieces) == Residue(c, pieces);
          AwaitOn(Compacted(c), pieces);
      }
      OnlySkipMatters(ReadLineF(b, pieces), Residue(c, pieces), s);
    }
  }

  lemma FindEndNothing()
    ensures FindEnd([]) == None
  {
  }

  // ---------- prompts ----------

  /** The runs up to a terminator, and those behind it. */
  lemma {:induction false} RunsAtEol(a: seq<byte>, e: byte, t: seq<byte>, run: seq<byte>)
    requires IsEol(e)
    ensures Runs(a + [e] + t, run) == Runs(a + [e], run) + Runs(t, [])
  {
    if a == [] {
      assert [e] + t == a + [e] + t && ([e] + t)[1..] == t && [e][1..] == [];
    } else {
      assert (a + [e] + t)[1..] == a[1..] + [e] + t && (a + [e])[1..] == a[1..] + [e];
      if IsEol(a[0]) {
        RunsAtEol(a[1..], e, t, []);
      } else {
        RunsAtEol(a[1..], e, t, run + [a[0]]);
      }
    }
  }

  lemma {:induction false} RunsOfText(a: seq<byte>, e: byte, run: seq<byte>)
    requires IsEol(e)
    ensures Runs(a + [e], run) == [] <==> run == [] && Skip(a) == []
  {
    if a == [] {
      assert [] + [e] == [e] && [e][1..] == [];
    } else {
      assert (a + [e])[1..] == a[1..] + [e];
      if IsEol(a[0]) {
        RunsOfText(a[1..], e, []);
      } else {
        RunsOfText(a[1..], e, run + [a[0]]);
      }
    }
  }

  lemma LinesAtEol(a: seq<byte>, r: seq<byte>)
    requires r != [] && IsEol(r[0])
    ensures AllLines(a + r) == AllLines(a + [r[0]]) + AllLines(r[1..])
    ensures AllLines(a + [r[0]]) == [] <==> Skip(a) == []
  {
    assert a + r == a + [r[0]] + r[1..];
    AllLinesAreRuns(a + r);
    AllLinesAreRuns(a + [r[0]]);
    AllLinesAreRuns(r[1..]);
    RunsAtEol(a, r[0], r[1..], []);
    RunsOfText(a, r[0], []);
  }

  lemma LinesFromSkip(s: seq<byte>)
    ensures AllLines(s) == AllLines(Skip(s))
  {
    AllLinesAreRuns(s);
    AllLinesAreRuns(Skip(s));
    RunsSkip(s);
  }

  lemma PromptLine(e: byte)
    requires IsEol(e)
    ensures AllLines(PROMPT_TEXT + [e]) == [PROMPT_TEXT]
  {
    var s := PROMPT_TEXT + [e];
    SkipNothing(s);
    EolIs(s, 2);
    assert s[..2] == PROMPT_TEXT && s[3..] == [];
    assert NextLine([]) == None;
  }

  /** A line that goes on behind the prompt, or does not end, is not the prompt. */
  lemma LongerLine(r: seq<byte>)
    requires r == [] || !IsEol(r[0])
    ensures AllLines(PROMPT_TEXT + r) == [] || AllLines(PROMPT_TEXT + r)[0] != PROMPT_TEXT
  {
  }

  /** What was taken for a prompt was right exactly if it was harmless; everything else is right. */
  lemma CallRight(c: Call, s: seq<byte>)
    requires CallOn(c, s)
    ensures Right(c, s) <==> Harmless(c)
  {
    hide AllLines, Skip, FindEnd;
    if c.Ended? || !c.prompt {
      LinesFromNext(s);
    } else {
      var r := Concat(c.rest);
      LinesFromSkip(s);
      if r == [] || !IsEol(r[0]) {
        LongerLine(r);
      } else {
        LinesAtEol(PROMPT_TEXT, r);
        PromptLine(r[0]);
        if c.buf.Some? {
          var g := c.buf.value.pending;
          LinesAtEol(g, r);
          Behind(PROMPT_TEXT, AllLines(g + [r[0]]), AllLines(r[1..]));
        }
      }
    }
  }

  lemma Behind<T>(x: T, a: seq<T>, b: seq<T>)
    ensures [x] + b == [x] + (a + b) <==> a == []
  {
  }

  lemma LinesFromNext(s: seq<byte>)
    ensures AllLines(s) == match NextLine(s) case None => [] case Some(r) => [r.0] + AllLines(r.1)
  {
  }

  /**
    One call on any stream whose first line fits, from any memory, for any cut: it returns the next line and
    leaves the lines behind it exactly if it took no harmful prompt.
   */
  lemma ReadLineRight(b: Buf, pieces: seq<seq<byte>>)
    requires Sized(b) && Delivering(pieces) && FirstEnd(Residue(b, pieces)) < MAX_AT_RESPONSE
    ensures Right(ReadLineF(b, pieces), Residue(b, pieces)) <==> Harmless(ReadLineF(b, pieces))
  {
    ReadLineOn(b, pieces);
    CallRight(ReadLineF(b, pieces), Residue(b, pieces));
  }

  /** Without a prompt in front, no call takes one. */
  lemma NoPromptTaken(c: Call, s: seq<byte>)
    requires CallOn(c, s) && !IsPrompt(Skip(s))
    ensures c.Line? ==> !c.prompt
  {
  }

  // ---------- whole runs ----------

  /** The lines of all calls up to the end; None if the cursor was left on bytes without a NUL behind them. */
  function AllRead(b: Buf, pieces: seq<seq<byte>>): Option<seq<seq<byte>>>
    requires Sized(b)
    decreases |Concat(pieces)|, |b.pending| + |b.stale|
  {
    match ReadLineF(b, pieces)
    case Ended(last) => Some([])
    case Line(line, prompt, buf, rest) =>
      if buf == None then None
      else
        var more := AllRead(buf.value, rest);
        if more == None then None else Some([line] + more.value)
  }

  predicate AllRight(b: Buf, pieces: seq<seq<byte>>)
    requires Sized(b)
    decreases |Concat(pieces)|, |b.pending| + |b.stale|
  {
    var c := ReadLineF(b, pieces);
    Right(c, Residue(b, pieces)) && (c.Line? && c.buf.Some? ==> AllRight(c.buf.value, c.rest))
  }

  predicate AllHarmless(b: Buf, pieces: seq<seq<byte>>)
    requires Sized(b)
    decreases |Concat(pieces)|, |b.pending| + |b.stale|
  {
    var c := ReadLineF(b, pieces);
    Harmless(c) && (c.Line? && c.buf.Some? ==> AllHarmless(c.buf.value, c.rest))
  }

  /** The first line at every call fits. */
  predicate AllFit(b: Buf, pieces: seq<seq<byte>>)
    requires Sized(b)
    decreases |Concat(pieces)|, |b.pending| + |b.stale|
  {
    var c := ReadLineF(b, pieces);
    FirstEnd(Residue(b, pieces)) < MAX_AT_RESPONSE && (c.Line? && c.buf.Some? ==> AllFit(c.buf.value, c.rest))
  }

  /** Every call of a run is right exactly if every prompt taken in it was harmless. */
  lemma {:induction false} RunRight(b: Buf, pieces: seq<seq<byte>>)
    requires Sized(b) && Delivering(pieces) && AllFit(b, pieces)
    ensures AllRight(b, pieces) <==> AllHarmless(b, pieces)
    decreases |Concat(pieces)|, |b.pending| + |b.stale|
  {
    hide ReadLineF, Right, Harmless, FirstEnd;
    var c := ReadLineF(b, pieces);
    ReadLineRight(b, pieces);
    if c.Line? && c.buf.Some? {
      RunRight(c.buf.value, c.rest);
    }
  }

  /** And then the lines returned are the non-empty runs of the stream. */
  lemma {:induction false} RightGivesRuns(b: Buf, pieces: seq<seq<byte>>)
    requires Sized(b) && AllRight(b, pieces)
    ensures AllRead(b, pieces) == Some(Runs(Residue(b, pieces), []))
    decreases |Concat(pieces)|, |b.pending| + |b.stale|
  {
    hide ReadLineF, Runs, AllLines;
    var c := ReadLineF(b, pieces);
    AllLinesAreRuns(Residue(b, pieces));
    if c.Line? {
      RightGivesRuns(c.buf.value, c.rest);
      AllLinesAreRuns(Residue(c.buf.value, c.rest));
    }
  }

  /**
    A stream whose lines fit and none of whose lines starts with "> ": from any memory and for any cut, the
    lines returned are its non-empty runs, in order.
   */
  lemma {:induction false} NoPromptIsRight(b: Buf, pieces: seq<seq<byte>>)
    requires Sized(b) && Delivering(pieces) && Fits(Residue(b, pieces)) && NoPrompt(Residue(b, pieces))
    ensures AllRight(b, pieces) && AllRead(b, pieces) == Some(Runs(Residue(b, pieces), []))
    decreases |Concat(pieces)|, |b.pending| + |b.stale|
  {
    hide ReadLineF, AllRead, Runs, FirstEnd, NextLine, Skip, IsPrompt, Right;
    var c := ReadLineF(b, pieces);
    ReadLineOn(b, pieces);
    NoPromptTaken(c, Residue(b, pieces));
    CallRight(c, Residue(b, pieces));
    if c.Line? {
      NoPromptIsRight(c.buf.value, c.rest);
    }
    RightGivesRuns(b, pieces);
  }
}
