/** readline() over all cuts of a stream: when every cut is right, and when the NUL of a read leaves the buffer. */
module AtCuts {
  import opened Bytes
  import opened AtLines
  import opened AtReadline

  // ---------- all cuts ----------

  /** A cut right behind the two bytes of the prompt that t starts with. */
  function BehindPrompt(t: seq<byte>): (pieces: seq<seq<byte>>)
    requires IsPrompt(Skip(t))
    ensures Delivering(pieces) && Concat(pieces) == t
  {
    var k := |t| - |Skip(t)| + 2;
    Pieces(t, k)
  }

  function Pieces(t: seq<byte>, k: nat): (pieces: seq<seq<byte>>)
    requires 0 < k <= |t|
    ensures Delivering(pieces) && Concat(pieces) == t && pieces != [] && pieces[0] == t[..k]
  {
    OnePiece(t[k..]);
    OnePiece(t);
    assert t == t[..k] + t[k..];
    if k < |t| then [t[..k]] + [t[k..]] else [t]
  }

  lemma OnePiece(d: seq<byte>)
    ensures Concat([d]) == d && forall pieces :: Concat([d] + pieces) == d + Concat(pieces)
  {
  }

  /** The memory after one read into an empty buffer. */
  function FirstFill(b: Buf, d: seq<byte>): (c: Buf)
    requires Sized(b) && |d| <= MAX_AT_RESPONSE
    ensures Sized(c) && c.pending == Skip(d)
  {
    assert [] + d == d;
    SkipDrops(d);
    SkipFront(Filled(Restart(b), d))
  }

  lemma FirstRead(b: Buf, pieces: seq<seq<byte>>)
    requires Sized(b) && b.pending == [] && pieces != [] && pieces[0] != [] && |pieces[0]| <= MAX_AT_RESPONSE
    ensures var d := FirstFill(b, pieces[0]);
            && Concat(pieces) == pieces[0] + Concat(pieces[1..])
            && ReadLineF(b, pieces) == match FindEnd(d.pending)
                 case Some(e) => Take(d, e, pieces[1..])
                 case None => Await(d, pieces[1..])
  {
    hide FindEnd, Cut, Whole, SkipFront, Await;
    var r := Restart(b);
    assert Asked(r, pieces) == |pieces[0]| && pieces[0][..|pieces[0]|] == pieces[0];
    AwaitReads(r, pieces);
  }

  lemma {:induction false} NulFreeHasNone(s: seq<byte>)
    requires NulFree(s)
    ensures Nul(s) == |s|
  {
  }

  /** What that cut does: the two bytes come out as a line of their own. */
  lemma PromptIsCut(b: Buf, t: seq<byte>)
    requires Sized(b) && b.pending == [] && IsPrompt(Skip(t)) && FirstEnd(t) < MAX_AT_RESPONSE
    ensures var c := ReadLineF(b, BehindPrompt(t));
            && c.Line? && c.prompt && c.line == PROMPT_TEXT && Concat(c.rest) == Skip(t)[2..]
            && (b.front == [] && NulFree(b.stale) ==> c.buf == None)
  {
    hide ReadLineF, FirstFill, Cut;
    var pieces, n := BehindPrompt(t), |t| - |Skip(t)|;
    PromptInFront(t);
    FirstRead(b, pieces);
    var d := FirstFill(b, pieces[0]);
    assert FindEnd(d.pending) == Some(2) && PROMPT_TEXT[..2] == PROMPT_TEXT;
    CutAtNul(b, t[..n + 2]);
    assert t == t[..n + 2] + t[n + 2..] && Skip(t)[2..] == t[n + 2..];
  }

  /** Of a stream that starts with the prompt, the piece that ends with it. */
  lemma PromptInFront(t: seq<byte>)
    requires IsPrompt(Skip(t))
    ensures var n := |t| - |Skip(t)|; Skip(t) == t[n..] && Skip(t[..n + 2]) == PROMPT_TEXT && n + 2 <= FirstEnd(t)
  {
    hide Eol, Skip;
    var n := |t| - |Skip(t)|;
    SkipDrops(t);
    SplitPrompt(Skip(t));
    EolAtLeast(PROMPT_TEXT, Skip(t)[2..]);
    assert t[..n + 2] == t[..n] + PROMPT_TEXT;
    SkipEols(t[..n], PROMPT_TEXT);
    SkipNothing(PROMPT_TEXT);
  }

  lemma SplitPrompt(s: seq<byte>)
    requires IsPrompt(s)
    ensures s == PROMPT_TEXT + s[2..] && s[..2] == PROMPT_TEXT
  {
  }

  lemma CutAtNul(b: Buf, d: seq<byte>)
    requires Sized(b) && b.pending == [] && |d| < MAX_AT_RESPONSE
    ensures b.front == [] && NulFree(b.stale) ==> Cut(FirstFill(b, d), |Skip(d)|) == None
    ensures b.front == [] && (forall i :: 0 <= i < |b.stale| ==> b.stale[i] == 0) ==>
              Cut(FirstFill(b, d), |Skip(d)|).Some? && Cut(FirstFill(b, d), |Skip(d)|).value.pending == []
  {
    hide FirstFill, Whole;
    if b.front == [] {
      var c := FirstFill(b, d);
      StaleBehind(b, d);
      if NulFree(b.stale) {
        assert forall i :: 0 <= i < |c.stale| ==> c.stale[i] == b.stale[|d| + i];
        NulFreeHasNone(c.stale);
      }
    }
  }

  lemma StaleBehind(b: Buf, d: seq<byte>)
    requires Sized(b) && b.pending == [] && b.front == [] && |d| < MAX_AT_RESPONSE
    ensures |d| < |b.stale| && FirstFill(b, d).stale == b.stale[|d|..]
  {
  }

  function Filler(x: byte): (s: seq<byte>)
    ensures |s| == MEM - 1 && forall i :: 0 <= i < |s| ==> s[i] == x
  {
    seq(MEM - 1, i => x)
  }

  /** A consumed buffer with this byte all over the memory behind it. */
  function Empty(x: byte): (b: Buf)
    ensures Sized(b)
  {
    Buf([], [], Filler(x))
  }

  /** With t still to come, the next call is right from whatever memory and for every cut. */
  ghost predicate SafeCall(t: seq<byte>) {
    forall b, pieces :: Sized(b) && b.pending == [] && Delivering(pieces) && Concat(pieces) == t ==> Right(ReadLineF(b, pieces), t)
  }

  /** That is so exactly if the first line does not start with "> ". */
  lemma EveryCutRight(t: seq<byte>)
    requires FirstEnd(t) < MAX_AT_RESPONSE
    ensures SafeCall(t) <==> !IsPrompt(Skip(t))
  {
    hide ReadLineF, Right, Skip, FirstEnd;
    if IsPrompt(Skip(t)) {
      var b, pieces := Empty(1), BehindPrompt(t);
      PromptIsCut(b, t);
      assert Residue(b, pieces) == t;
      ReadLineRight(b, pieces);
      assert !Harmless(ReadLineF(b, pieces));
    } else {
      forall b, pieces | Sized(b) && b.pending == [] && Delivering(pieces) && Concat(pieces) == t
        ensures Right(ReadLineF(b, pieces), t)
      {
        assert Residue(b, pieces) == t;
        ReadLineOn(b, pieces);
        NoPromptTaken(ReadLineF(b, pieces), t);
        CallRight(ReadLineF(b, pieces), t);
      }
    }
  }

  ghost predicate EveryCallSafe(s: seq<byte>)
    decreases |s|
  {
    SafeCall(s) && (NextLine(s).Some? ==> EveryCallSafe(NextLine(s).value.1))
  }

  /** Line after line, every call on a stream is safe exactly if none of its lines starts with "> ". */
  lemma {:induction false} EveryCallSafeIff(s: seq<byte>)
    requires Fits(s)
    ensures EveryCallSafe(s) <==> NoPrompt(s)
    decreases |s|
  {
    hide SafeCall, IsPrompt, FirstEnd, Skip;
    EveryCutRight(s);
    if NextLine(s).Some? {
      EveryCallSafeIff(NextLine(s).value.1);
    }
  }

  /** The prompt that t starts with is a whole line of t. */
  predicate WholePrompt(t: seq<byte>)
  {
    IsPrompt(t) ==> |t| > 2 && IsEol(t[2])
  }

  /** From cleared memory a prompt that is a whole line does no harm. */
  lemma {:induction false} AwaitClean(b: Buf, pieces: seq<seq<byte>>)
    requires Partial(b, pieces) && forall k :: 0 <= k < |b.stale| ==> b.stale[k] == 0
    ensures var c := Await(b, pieces); c.Line? && c.prompt ==> c.buf.Some? && c.buf.value.pending == []
    decreases |Concat(pieces)|
  {
    hide FindEnd, Eol, Skip, FirstEnd, Await, Reread, After;
    if pieces == [] {
      RoomLeft(b, Concat(pieces));
      AwaitNothing(b);
    } else {
      OneRead(b, pieces);
      var d, rest := Reread(b, pieces), After(pieces, Asked(b, pieces));
      match FindEnd(d.pending) {
        case Some(e) =>
          if e == |d.pending| {
            EndAtNul(d.pending);
            PromptFits(d.front, d.pending, Concat(rest));
          }
        case None =>
          AwaitClean(d, rest);
      }
    }
  }

  lemma EndAtNul(p: seq<byte>)
    requires FindEnd(p) == Some(|p|)
    ensures p == PROMPT_TEXT
  {
  }

  lemma PromptFits(n: seq<byte>, p: seq<byte>, r: seq<byte>)
    requires (forall k :: 0 <= k < |n| ==> IsEol(n[k])) && p == PROMPT_TEXT && FirstEnd(n + (p + r)) < MAX_AT_RESPONSE
    ensures |n| + |p| < MAX_AT_RESPONSE
  {
    hide Eol, Skip;
    NewlinesFirst(n, p + r);
    SkipNothing(p + r);
    EolAtLeast(p, r);
  }

  /**
    The same from cleared memory, as the program starts with it: every cut is right exactly if the first line
    does not start with "> " or is nothing else.
   */
  lemma EveryCutRightWhenCleared(t: seq<byte>)
    requires FirstEnd(t) < MAX_AT_RESPONSE
    ensures (forall pieces :: Delivering(pieces) && Concat(pieces) == t ==> Right(ReadLineF(Empty(0), pieces), t))
       <==> WholePrompt(Skip(t))
  {
    hide Right, Skip, FirstEnd, Await;
    var b := Empty(0);
    if WholePrompt(Skip(t)) {
      forall pieces | Delivering(pieces) && Concat(pieces) == t
        ensures Right(ReadLineF(b, pieces), t)
      {
        assert Residue(b, pieces) == t && [] + Residue(Restart(b), pieces) == t;
        ReadLineOn(b, pieces);
        FindEndNothing();
        AwaitClean(Restart(b), pieces);
        SkipOfNothing();
        CallRight(ReadLineF(b, pieces), t);
      }
    } else {
      var pieces := BehindPrompt(t);
      PromptIsCut(b, t);
      assert Residue(b, pieces) == t;
      ReadLineRight(b, pieces);
    }
  }

  lemma SkipOfNothing()
    ensures Skip([]) == []
  {
  }

  // ---------- streams with a prompt that goes on ----------

  /** Some line starts with "> " and is more than that, or does not end. */
  predicate PromptGoesOn(s: seq<byte>)
    decreases |s|
  {
    !WholePrompt(Skip(s)) || (NextLine(s).Some? && PromptGoesOn(NextLine(s).value.1))
  }

  /** The length of the piece that holds just the first line, with the newlines before it and its terminator. */
  function LinePiece(s: seq<byte>): (k: nat)
    requires NextLine(s).Some?
    ensures 0 < k <= |s| && k == FirstEnd(s) + 1 && NextLine(s).value.1 == s[k..]
  {
    SkipDrops(s);
    |s| - |NextLine(s).value.1|
  }

  lemma LineInFront(s: seq<byte>)
    requires NextLine(s).Some?
    ensures var t := Skip(s[..LinePiece(s)]); var e := |t| - 1;
            e >= 0 && FindEnd(t) == Some(e) && t[..e] == NextLine(s).value.0
  {
    hide Eol, Skip;
    var t := Skip(s);
    SkipDrops(s);
    var n, e := |s| - |t|, Eol(t);
    PieceOfLine(s, n, e);
    SkipEols(s[..n], t[..e + 1]);
    SkipNothing(t[..e + 1]);
    EolIs(t[..e + 1], e);
  }

  lemma PieceOfLine(s: seq<byte>, n: nat, e: nat)
    requires n + e < |s| && IsEol(s[n + e])
    ensures var t := s[n..]; s[..n + e + 1] == s[..n] + t[..e + 1] && t[..e + 1][..e] == t[..e] && t[..e + 1] != PROMPT_TEXT
  {
  }

  /** The memory after one line that came in one piece. */
  function AfterLine(b: Buf, s: seq<byte>): (c: Buf)
    requires Sized(b) && b.pending == [] && NextLine(s).Some? && FirstEnd(s) < MAX_AT_RESPONSE
    ensures Sized(c) && c.pending == []
  {
    var d := FirstFill(b, s[..LinePiece(s)]);
    LineInFront(s);
    Cut(d, |d.pending| - 1).value
  }

  lemma WholeLine(b: Buf, s: seq<byte>, later: seq<seq<byte>>)
    requires Sized(b) && b.pending == [] && NextLine(s).Some? && FirstEnd(s) < MAX_AT_RESPONSE
    ensures ReadLineF(b, [s[..LinePiece(s)]] + later) == Line(NextLine(s).value.0, false, Some(AfterLine(b, s)), later)
  {
    hide ReadLineF, FirstFill, FindEnd, NextLine;
    var pieces := [s[..LinePiece(s)]] + later;
    LineInFront(s);
    FirstRead(b, pieces);
    assert pieces[1..] == later;
  }

  /** Whatever the memory: a stream in which a prompt goes on comes out wrong for some cut. */
  lemma {:induction false} SomeCutIsWrong(b: Buf, s: seq<byte>) returns (pieces: seq<seq<byte>>)
    requires Sized(b) && b.pending == [] && Fits(s) && PromptGoesOn(s)
    ensures Delivering(pieces) && Concat(pieces) == s && AllRead(b, pieces) != Some(Runs(s, []))
    decreases |s|
  {
    hide Skip, Eol, Runs, FirstEnd, ReadLineF, NextLine, AfterLine;
    AllLinesAreRuns(s);
    if !WholePrompt(Skip(s)) {
      pieces := BehindPrompt(s);
      PromptIsCut(b, s);
      LinesFromSkip(s);
      var r := Skip(s)[2..];
      assert Skip(s) == PROMPT_TEXT + r;
      LongerLine(r);
    } else {
      var r := NextLine(s).value;
      var k := LinePiece(s);
      var later := SomeCutIsWrong(AfterLine(b, s), r.1);
      pieces := [s[..k]] + later;
      OnePiece(s[..k]);
      assert s == s[..k] + s[k..];
      WholeLine(b, s, later);
      LinesFromNext(s);
      AllLinesAreRuns(r.1);
      assert ([r.0] + Runs(r.1, []))[1..] == Runs(r.1, []);
    }
  }

  // ---------- whole runs ----------

  /** How many bytes there are up to the end of the first prompt. */
  function FirstPrompt(s: seq<byte>): (k: Option<nat>)
    ensures k == None <==> NoPrompt(s)
    ensures k.Some? ==> 0 < k.value <= |s|
    decreases |s|
  {
    if IsPrompt(Skip(s)) then Some(|s| - |Skip(s)| + 2)
    else if NextLine(s) == None then None
    else
      var t := NextLine(s).value.1;
      if FirstPrompt(t) == None then None else Some(|s| - |t| + FirstPrompt(t).value)
  }

  /** Complete lines without a prompt, and then a prompt with nothing behind it. */
  predicate EndsInPrompt(p: seq<byte>)
    decreases |p|
  {
    Skip(p) == PROMPT_TEXT || (!IsPrompt(Skip(p)) && NextLine(p).Some? && EndsInPrompt(NextLine(p).value.1))
  }

  lemma {:induction false} UpToPrompt(s: seq<byte>)
    requires FirstPrompt(s).Some?
    ensures EndsInPrompt(s[..FirstPrompt(s).value])
    decreases |s|
  {
    hide Eol, Skip, FirstEnd;
    if IsPrompt(Skip(s)) {
      PromptInFront(s);
    } else {
      var k, p := LinePiece(s), s[..FirstPrompt(s).value];
      UpToPrompt(s[k..]);
      LineInFront(s);
      assert p == s[..k] + s[k..][..|p| - k];
      LineOfPrefix(s[..k], s[k..][..|p| - k], NextLine(s).value.0);
      NoPromptInPrefix(s, k, p);
    }
  }

  /** A piece that is one complete line, whatever follows it. */
  lemma LineOfPrefix(a: seq<byte>, r: seq<byte>, line: seq<byte>)
    requires Skip(a) != [] && FindEnd(Skip(a)) == Some(|Skip(a)| - 1) && Skip(a)[..|Skip(a)| - 1] == line
    ensures NextLine(a + r) == Some((line, r))
  {
    hide Eol, Skip;
    var t, e := Skip(a), |Skip(a)| - 1;
    var n := |a| - |t|;
    SkipDrops(a);
    assert a + r == a[..n] + (t + r);
    SkipEols(a[..n], t + r);
    SkipNothing(t + r);
    assert forall k :: 0 <= k < |t| ==> (t + r)[k] == t[k];
    EolIs(t + r, e);
    assert (t + r)[..e] == line && (t + r)[e + 1..] == r;
  }

  lemma NoPromptInPrefix(s: seq<byte>, k: nat, p: seq<byte>)
    requires !IsPrompt(Skip(s)) && k <= |p| && p <= s && NextLine(s).Some? && k == LinePiece(s)
    ensures !IsPrompt(Skip(p))
  {
    hide Eol, Skip, NextLine;
    SkipDrops(s);
    SkipDrops(p);
    var n := |s| - |Skip(s)|;
    LineInFront(s);
    assert p == s[..n] + s[n..|p|];
    SkipEols(s[..n], s[n..|p|]);
    SkipNothing(s[n..|p|]);
  }

  /** Lines that are in the buffer already come out of it; the prompt behind them finds no NUL behind its own. */
  lemma {:induction false} InBuffer(b: Buf, pieces: seq<seq<byte>>)
    requires Sized(b) && EndsInPrompt(b.pending) && NulFree(b.stale)
    ensures AllRead(b, pieces) == None
    decreases |b.pending|
  {
    hide Eol, Skip, FirstEnd, Await, Whole;
    var p := b.pending;
    SkipOfNothing();
    SkippedFront(b);
    var d := SkipFront(b);
    if Skip(p) == PROMPT_TEXT {
      NulFreeHasNone(b.stale);
      assert ReadLineF(b, pieces).buf == None;
    } else {
      var e := Eol(d.pending);
      assert FindEnd(d.pending) == Some(e) && Cut(d, e).Some?;
      InBuffer(Cut(d, e).value, pieces);
    }
  }

  /** Reading a piece with a complete line or a prompt at its front is as having it in the buffer. */
  lemma AfterFill(b: Buf, pieces: seq<seq<byte>>)
    requires Sized(b) && b.pending == [] && pieces != [] && pieces[0] != [] && |pieces[0]| <= MAX_AT_RESPONSE
    requires FindEnd(Skip(pieces[0])).Some?
    ensures AllRead(b, pieces) == AllRead(FirstFill(b, pieces[0]), pieces[1..])
  {
    hide Cut, Whole, Await, Eol, FirstFill, Skip;
    FirstRead(b, pieces);
    var d := FirstFill(b, pieces[0]);
    EndIsBehind(d.pending, FindEnd(d.pending).value);
    SkipNothing(d.pending);
    SkippedFront(d);
    assert SkipFront(d) == d;
  }

  /** With s still to come, all calls to the end are right from whatever memory and for every cut. */
  ghost predicate SafeRun(s: seq<byte>) {
    forall b, pieces ::
      Sized(b) && b.pending == [] && Delivering(pieces) && Concat(pieces) == s ==> AllRead(b, pieces) == Some(Runs(s, []))
  }

  /** A prompt that the buffer can hold with everything before it: some cut and some memory make it lose the cursor. */
  lemma PromptLosesCursor(s: seq<byte>)
    requires FirstPrompt(s).Some? && FirstPrompt(s).value <= MAX_AT_RESPONSE
    ensures AllRead(Empty(1), Pieces(s, FirstPrompt(s).value)) == None
  {
    hide AllRead, Skip, FindEnd, Whole, EndsInPrompt;
    var b, p := Empty(1), s[..FirstPrompt(s).value];
    var pieces := Pieces(s, |p|);
    UpToPrompt(s);
    EndFound(p);
    AfterFill(b, pieces);
    FilledBehind(b, p);
    var d := FirstFill(b, p);
    assert NulFree(d.stale) by {
      assert forall i :: 0 <= i < |d.stale| ==> d.stale[i] == b.stale[|p| + i];
    }
    EndStays(p);
    InBuffer(d, pieces[1..]);
  }

  lemma FilledBehind(b: Buf, d: seq<byte>)
    requires Sized(b) && b.pending == b.front == [] && |d| <= MAX_AT_RESPONSE
    ensures |b.stale| == MAX_AT_RESPONSE && FirstFill(b, d).stale == b.stale[|d|..]
  {
  }

  lemma EndFound(p: seq<byte>)
    requires EndsInPrompt(p)
    ensures FindEnd(Skip(p)).Some?
  {
  }

  lemma EndStays(p: seq<byte>)
    requires EndsInPrompt(p)
    ensures EndsInPrompt(Skip(p))
  {
    SkipNothing(Skip(p));
  }

  /**
    A whole run is right from whatever memory and for every cut exactly if no line starts with "> ".  Of the
    streams whose only prompts are whole lines, this is about those with a prompt in the first bufferful.
   */
  lemma SafeRunIff(s: seq<byte>)
    requires Fits(s)
    requires FirstPrompt(s).Some? ==> FirstPrompt(s).value <= MAX_AT_RESPONSE || PromptGoesOn(s)
    ensures SafeRun(s) <==> NoPrompt(s)
  {
    hide AllRead, Fits, NoPrompt, FirstPrompt, PromptGoesOn, Runs;
    if NoPrompt(s) {
      forall b, pieces | Sized(b) && b.pending == [] && Delivering(pieces) && Concat(pieces) == s
        ensures AllRead(b, pieces) == Some(Runs(s, []))
      {
        assert Residue(b, pieces) == s;
        NoPromptIsRight(b, pieces);
      }
    } else if PromptGoesOn(s) {
      var pieces := SomeCutIsWrong(Empty(1), s);
    } else {
      PromptLosesCursor(s);
    }
  }

  ghost predicate EveryRunSafe(s: seq<byte>)
    decreases |s|
  {
    SafeRun(s) && (NextLine(s).Some? ==> EveryRunSafe(NextLine(s).value.1))
  }

  /** From every line on, the rest of a stream comes out right exactly if none of its lines starts with "> ". */
  lemma {:induction false} EveryRunSafeIff(s: seq<byte>)
    requires Fits(s)
    ensures EveryRunSafe(s) <==> NoPrompt(s)
    decreases |s|
  {
    hide SafeRun, Skip, FirstEnd, Eol, NextLine;
    if IsPrompt(Skip(s)) {
      PromptInFront(s);
      SafeRunIff(s);
    } else {
      if NextLine(s).Some? {
        EveryRunSafeIff(NextLine(s).value.1);
      }
      if NoPrompt(s) {
        SafeRunIff(s);
      }
    }
  }

  lemma OneShortLine(b: Buf, line: seq<byte>)
    requires Sized(b) && b.pending == [] && line != [] && |line| < MAX_AT_RESPONSE && forall i :: 0 <= i < |line| ==> !IsEol(line[i])
    ensures AllRead(b, [line + [CR]]) == Some([line])
  {
    hide ReadLineF, AfterLine, Eol, Skip;
    var s := line + [CR];
    SkipNothing(s);
    EolIs(s, |line|);
    assert NextLine(s) == Some((line, [])) by {
      assert s[..|line|] == line && s[|line| + 1..] == [];
    }
    assert LinePiece(s) == |s| && s[..|s|] == s && [s[..LinePiece(s)]] + [] == [s];
    WholeLine(b, s, []);
    assert ReadLineF(b, [s]) == Line(line, false, Some(AfterLine(b, s)), []);
    NothingMore(AfterLine(b, s));
    assert [line] + [] == [line];
  }

  /** Two cuts of one stream, from cleared memory, and what they give. */
  lemma TwoCuts()
    ensures AllRead(Empty(0), [PROMPT_TEXT + [65] + [CR]]) == Some([PROMPT_TEXT + [65]])
    ensures AllRead(Empty(0), [PROMPT_TEXT, [65] + [CR]]) == Some([PROMPT_TEXT, [65]])
  {
    hide ReadLineF, FirstFill;
    OneShortLine(Empty(0), PROMPT_TEXT + [65]);
    var pieces := [PROMPT_TEXT, [65] + [CR]];
    FirstRead(Empty(0), pieces);
    SkipNothing(PROMPT_TEXT);
    CutAtNul(Empty(0), PROMPT_TEXT);
    var c := Cut(FirstFill(Empty(0), PROMPT_TEXT), 2).value;
    assert pieces[1..] == [[65] + [CR]] && PROMPT_TEXT[..2] == PROMPT_TEXT;
    assert ReadLineF(Empty(0), pieces) == Line(PROMPT_TEXT, true, Some(c), [[65] + [CR]]);
    OneShortLine(c, [65]);
    assert [PROMPT_TEXT] + [[65]] == [PROMPT_TEXT, [65]];
  }

  /** A letter already at the cursor, and then its terminator. */
  lemma TextThenEnd(b: Buf, x: byte)
    requires Sized(b) && b.pending == [x] && !IsEol(x)
    ensures AllRead(b, [[CR]]) == Some([[x]])
  {
    hide ReadLineF, AllRead, Skip, Eol;
    OnePiece([CR]);
    assert Residue(b, [[CR]]) == [x, CR];
    SkipNothing([x, CR]);
    EolIs([x, CR], 1);
    assert [x, CR][..1] == [x] && [x, CR][2..] == [];
    ReadLineOn(b, [[CR]]);
    var c := ReadLineF(b, [[CR]]);
    assert c.Line? && !c.prompt && c.line == [x] && Residue(c.buf.value, c.rest) == [];
    Drained(c.rest);
    LastLine(b, [[CR]], [x], c.buf.value);
  }

  lemma Drained(pieces: seq<seq<byte>>)
    requires Delivering(pieces) && Concat(pieces) == []
    ensures pieces == []
  {
  }

  lemma LastLine(b: Buf, pieces: seq<seq<byte>>, line: seq<byte>, e: Buf)
    requires Sized(b) && Sized(e) && e.pending == [] && ReadLineF(b, pieces) == Line(line, false, Some(e), [])
    ensures AllRead(b, pieces) == Some([line])
  {
    hide ReadLineF;
    NothingMore(e);
    assert [line] + [] == [line];
  }

  /** What earlier traffic left behind the prompt comes out as a line of its own, though the prompt was a whole line. */
  lemma StaleComesBack(b: Buf)
    requires Sized(b) && b.front == b.pending == [] && b.stale[2] == 88 && b.stale[3] == 0
    ensures Runs(PROMPT_TEXT + [CR], []) == [PROMPT_TEXT] && AllRead(b, [PROMPT_TEXT, [CR]]) == Some([PROMPT_TEXT, [88]])
  {
    hide ReadLineF, FirstFill;
    PromptLine(CR);
    AllLinesAreRuns(PROMPT_TEXT + [CR]);
    var pieces := [PROMPT_TEXT, [CR]];
    FirstRead(b, pieces);
    SkipNothing(PROMPT_TEXT);
    StaleBehind(b, PROMPT_TEXT);
    var d := FirstFill(b, PROMPT_TEXT);
    assert d.stale[0] == 88 && d.stale[1] == 0 && Nul(d.stale[1..]) == 0 && Nul(d.stale) == 1 && d.stale[..1] == [88];
    var c := Cut(d, 2).value;
    assert pieces[1..] == [[CR]] && PROMPT_TEXT[..2] == PROMPT_TEXT;
    assert ReadLineF(b, pieces) == Line(PROMPT_TEXT, true, Some(c), [[CR]]);
    TextThenEnd(c, 88);
    assert [PROMPT_TEXT] + [[88]] == [PROMPT_TEXT, [88]];
  }

  lemma NothingMore(b: Buf)
    requires Sized(b) && b.pending == []
    ensures AllRead(b, []) == Some([])
  {
  }

  // ---------- the byte behind the buffer ----------

  /** The byte behind the buffer, which is not the reader's. */
  function Guard(b: Buf): byte
    requires Sized(b)
  {
    Whole(b)[MAX_AT_RESPONSE]
  }

  /** The NUL of a read is stored inside the buffer exactly if the read does not fill it. */
  lemma NulInside(b: Buf, d: seq<byte>)
    requires Sized(b) && |d| <= |b.stale|
    ensures var at := |b.front| + |b.pending|; at + |d| < MAX_AT_RESPONSE <==> |d| < |b.stale|
    ensures Guard(Filled(b, d)) == if |d| == |b.stale| then 0 else Guard(b)
  {
  }

  lemma GuardIsLast(b: Buf)
    requires Sized(b)
    ensures Guard(b) == if b.stale == [] then 0 else b.stale[|b.stale| - 1]
  {
  }

  /** Every other step leaves that byte alone. */
  lemma GuardStays(b: Buf, e: nat)
    requires Sized(b)
    ensures Guard(Restart(b)) == Guard(b) && Guard(Compacted(b)) == Guard(b) && Guard(Roomed(b)) == Guard(b)
    ensures Guard(SkipFront(b)) == Guard(b)
    ensures e <= |b.pending| && Cut(b, e).Some? ==> Guard(Cut(b, e).value) == Guard(b)
  {
    hide Whole, Guard, Skip, Nul;
    GuardIsLast(b);
    GuardIsLast(Restart(b));
    GuardIsLast(Compacted(b));
    GuardIsLast(SkipFront(b));
    GuardOfRestart(b);
    GuardOfCompacted(b);
    if e <= |b.pending| && Cut(b, e).Some? {
      GuardIsLast(Cut(b, e).value);
    }
  }

  lemma GuardOfRestart(b: Buf)
    requires Sized(b)
    ensures |Restart(b).stale| == MEM - 1 && Restart(b).stale[MEM - 2] == Guard(b)
  {
  }

  lemma GuardOfCompacted(b: Buf)
    requires Sized(b)
    ensures var c := Compacted(b); c.stale != [] ==> c.stale[|c.stale| - 1] == Guard(b)
    ensures Compacted(b).stale == [] ==> b.stale == []
  {
  }

  /** Some read of the loop fills the buffer. */
  predicate AwaitFills(b: Buf, pieces: seq<seq<byte>>)
    requires Sized(b)
    decreases |Concat(pieces)|
  {
    var r := Roomed(b);
    pieces != [] && pieces[0] != [] &&
    (Asked(r, pieces) == |r.stale| ||
     (FindEnd(Reread(r, pieces).pending) == None && AwaitFills(Reread(r, pieces), After(pieces, Asked(r, pieces)))))
  }

  predicate ReadLineFills(b: Buf, pieces: seq<seq<byte>>)
    requires Sized(b)
  {
    if b.pending == [] then AwaitFills(Restart(b), pieces)
    else FindEnd(SkipFront(b).pending) == None && AwaitFills(Compacted(SkipFront(b)), pieces)
  }

  predicate RunFills(b: Buf, pieces: seq<seq<byte>>)
    requires Sized(b)
    decreases |Concat(pieces)|, |b.pending| + |b.stale|
  {
    var c := ReadLineF(b, pieces);
    ReadLineFills(b, pieces) || (c.Line? && c.buf.Some? && RunFills(c.buf.value, c.rest))
  }

  /** The memory after a call, if the cursor is still in it. */
  function Left(c: Call): Option<Buf> { if c.Line? then c.buf else Some(c.last) }

  function RunEnd(b: Buf, pieces: seq<seq<byte>>): (e: Option<Buf>)
    requires Sized(b)
    ensures e.Some? ==> Sized(e.value)
    decreases |Concat(pieces)|, |b.pending| + |b.stale|
  {
    var c := ReadLineF(b, pieces);
    if c.Line? && c.buf.Some? then RunEnd(c.buf.value, c.rest) else Left(c)
  }

  lemma {:induction false} AwaitGuard(b: Buf, pieces: seq<seq<byte>>)
    requires Sized(b)
    ensures var l := Left(Await(b, pieces));
            l.Some? ==> Sized(l.value) && Guard(l.value) == if AwaitFills(b, pieces) then 0 else Guard(b)
    decreases |Concat(pieces)|
  {
    hide Guard, FindEnd, Whole, Cut, Restart, SkipFront, Filled;
    var r := Roomed(b);
    GuardStays(b, 0);
    if pieces != [] && pieces[0] != [] {
      var n, f := Asked(r, pieces), Filled(r, pieces[0][..Asked(r, pieces)]);
      var d := Reread(r, pieces);
      NulInside(r, pieces[0][..n]);
      GuardStays(f, 0);
      match FindEnd(d.pending) {
        case Some(e) => GuardStays(d, e);
        case None => AwaitGuard(d, After(pieces, n));
      }
    }
  }

  lemma ReadLineGuard(b: Buf, pieces: seq<seq<byte>>)
    requires Sized(b)
    ensures var l := Left(ReadLineF(b, pieces));
            l.Some? ==> Sized(l.value) && Guard(l.value) == if ReadLineFills(b, pieces) then 0 else Guard(b)
  {
    hide Guard, FindEnd, Whole, Cut, Restart, SkipFront, Compacted, Await, AwaitFills;
    GuardStays(b, 0);
    if b.pending == [] {
      AwaitGuard(Restart(b), pieces);
    } else {
      var s := SkipFront(b);
      match FindEnd(s.pending) {
        case Some(e) => GuardStays(s, e);
        case None =>
          GuardStays(s, 0);
          AwaitGuard(Compacted(s), pieces);
      }
    }
  }

  /** Over a whole run: the byte behind the buffer is cleared exactly if some read filled the buffer. */
  lemma {:induction false} RunGuard(b: Buf, pieces: seq<seq<byte>>)
    requires Sized(b)
    ensures RunEnd(b, pieces).Some? ==> Guard(RunEnd(b, pieces).value) == if RunFills(b, pieces) then 0 else Guard(b)
    decreases |Concat(pieces)|, |b.pending| + |b.stale|
  {
    hide Guard, ReadLineF, ReadLineFills;
    ReadLineGuard(b, pieces);
    var c := ReadLineF(b, pieces);
    if c.Line? && c.buf.Some? {
      RunGuard(c.buf.value, c.rest);
    }
  }

  /** n lines of one letter. */
  function Letters(n: nat): (s: seq<byte>)
    ensures |s| == 2 * n
  {
    if n == 0 then [] else [65, CR] + Letters(n - 1)
  }

  lemma {:induction false} LettersFit(n: nat)
    ensures Fits(Letters(n)) && NoPrompt(Letters(n))
  {
    hide Eol, Skip;
    var s := Letters(n);
    SkipNothing(s);
    if n == 0 {
      EolIs(s, 0);
    } else {
      EolIs(s, 1);
      assert s[..1] == [65] && s[2..] == Letters(n - 1);
      LettersFit(n - 1);
    }
  }

  /** Short lines alone do not help: one read of 2048 of them fills the buffer, though their lines come out right. */
  lemma ShortLinesFill(b: Buf)
    requires Sized(b) && b.pending == []
    ensures var s := Letters(2048);
            && AllRead(b, [s]) == Some(Runs(s, [])) && RunFills(b, [s])
            && RunEnd(b, [s]).Some? && Guard(RunEnd(b, [s]).value) == 0
  {
    hide Letters, AllRead, Runs, Fits, NoPrompt, Await, Guard, FindEnd;
    var s := Letters(2048);
    LettersFit(2048);
    OnePiece(s);
    assert Residue(b, [s]) == s;
    NoPromptIsRight(b, [s]);
    FullPiece(b, s);
    EndReached(b, [s]);
    RunGuard(b, [s]);
  }

  lemma FullPiece(b: Buf, s: seq<byte>)
    requires Sized(b) && b.pending == [] && |s| == MAX_AT_RESPONSE
    ensures RunFills(b, [s])
  {
  }

  lemma {:induction false} EndReached(b: Buf, pieces: seq<seq<byte>>)
    requires Sized(b) && AllRead(b, pieces).Some?
    ensures RunEnd(b, pieces).Some?
    decreases |Concat(pieces)|, |b.pending| + |b.stale|
  {
    hide ReadLineF;
    var c := ReadLineF(b, pieces);
    if c.Line? {
      EndReached(c.buf.value, c.rest);
    }
  }
}
