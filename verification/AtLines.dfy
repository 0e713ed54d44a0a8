/** Lines of a byte stream, as atchannel.c cuts them, and which streams its buffer can hold. */
module AtLines {
  import opened Bytes

  const CR: byte := 13
  const LF: byte := 10
  const PROMPT: byte := 62
  const SPACE: byte := 32

  predicate IsEol(b: byte) { b == CR || b == LF }

  // ---------- what the lines of a stream are ----------

  /** The reference: the non-empty runs between CR and LF, in order; run is what has been seen of the current one. */
  function Runs(s: seq<byte>, run: seq<byte>): seq<seq<byte>> {
    if s == [] then []
    else if !IsEol(s[0]) then Runs(s[1..], run + [s[0]])
    else (if run == [] then [] else [run]) + Runs(s[1..], [])
  }

  function Skip(s: seq<byte>): (t: seq<byte>)
    ensures |t| <= |s| && (t != [] ==> !IsEol(t[0]))
  {
    if s == [] || !IsEol(s[0]) then s else Skip(s[1..])
  }

  /** How many bytes precede the first CR or LF. */
  function Eol(s: seq<byte>): (e: nat)
    ensures e <= |s| && (forall i :: 0 <= i < e ==> !IsEol(s[i])) && (e < |s| ==> IsEol(s[e]))
  {
    if s == [] || IsEol(s[0]) then 0 else 1 + Eol(s[1..])
  }

  /** The first complete line of s, and what follows its terminator. */
  function NextLine(s: seq<byte>): (r: Option<(seq<byte>, seq<byte>)>)
    ensures r.Some? ==> |r.value.1| < |s|
  {
    var t := Skip(s);
    var e := Eol(t);
    if e < |t| then Some((t[..e], t[e + 1..])) else None
  }

  function AllLines(s: seq<byte>): seq<seq<byte>>
    decreases |s|
  {
    match NextLine(s) case None => [] case Some(r) => [r.0] + AllLines(r.1)
  }

  /** By the bytes: CR is 13, LF is 10, and a run is what stands before one of them, if anything does. */
  lemma RunsByNumbers(text: seq<byte>, e: byte, rest: seq<byte>)
    requires (e == 13 || e == 10) && forall i :: 0 <= i < |text| ==> text[i] != 13 && text[i] != 10
    ensures Runs(text, []) == []
    ensures Runs(text + [e] + rest, []) == (if text == [] then [] else [text]) + Runs(rest, [])
  {
    RunsOfOne(text, e, rest, []);
    assert [] + text == text;
  }

  lemma {:induction false} RunsOfOne(text: seq<byte>, e: byte, rest: seq<byte>, run: seq<byte>)
    requires IsEol(e) && forall i :: 0 <= i < |text| ==> !IsEol(text[i])
    ensures Runs(text, run) == []
    ensures Runs(text + [e] + rest, run) == (if run + text == [] then [] else [run + text]) + Runs(rest, [])
  {
    if text == [] {
      assert text + [e] + rest == [e] + rest && ([e] + rest)[1..] == rest && run + text == run;
    } else {
      assert (text + [e] + rest)[1..] == text[1..] + [e] + rest;
      assert run + [text[0]] + text[1..] == run + text;
      RunsOfOne(text[1..], e, rest, run + [text[0]]);
    }
  }

  lemma {:induction false} RunsFromMiddle(s: seq<byte>, run: seq<byte>)
    requires s != [] && (run != [] || !IsEol(s[0]))
    ensures var e := Eol(s); Runs(s, run) == if e < |s| then [run + s[..e]] + Runs(s[e + 1..], []) else []
    decreases |s|
  {
    if IsEol(s[0]) {
      assert run + s[..0] == run;
    } else if |s| == 1 {
      assert s[1..] == [];
    } else {
      RunsFromMiddle(s[1..], run + [s[0]]);
      var e := Eol(s);
      assert e < |s| ==> run + [s[0]] + s[1..][..e - 1] == run + s[..e];
      assert e < |s| ==> s[1..][e..] == s[e + 1..];
    }
  }

  lemma {:induction false} RunsSkip(s: seq<byte>)
    ensures Runs(s, []) == Runs(Skip(s), [])
  {
    if s != [] && IsEol(s[0]) {
      RunsSkip(s[1..]);
    }
  }

  /** Taking line after line gives the reference. */
  lemma {:induction false} AllLinesAreRuns(s: seq<byte>)
    ensures AllLines(s) == Runs(s, [])
    decreases |s|
  {
    hide Eol, Skip;
    RunsSkip(s);
    var t := Skip(s);
    if t != [] {
      RunsFromMiddle(t, []);
      var e := Eol(t);
      if e < |t| {
        assert [] + t[..e] == t[..e];
        AllLinesAreRuns(t[e + 1..]);
      }
    }
  }

  /** How many bytes the first line takes with the newlines before it, without its terminator. */
  function FirstEnd(s: seq<byte>): nat { |s| - |Skip(s)| + Eol(Skip(s)) }

  const MAX_AT_RESPONSE := 4096

  /** The buffer has room for every line with the newlines before it and its terminator. */
  predicate Fits(s: seq<byte>)
    decreases |s|
  {
    FirstEnd(s) < MAX_AT_RESPONSE && (NextLine(s).Some? ==> Fits(NextLine(s).value.1))
  }

  const PROMPT_TEXT: seq<byte> := [PROMPT, SPACE]

  predicate IsPrompt(t: seq<byte>) { PROMPT_TEXT <= t }

  /** No line, complete or not, starts like the SMS prompt. */
  predicate NoPrompt(s: seq<byte>)
    decreases |s|
  {
    !IsPrompt(Skip(s)) && (NextLine(s).Some? ==> NoPrompt(NextLine(s).value.1))
  }

  predicate NulFree(s: seq<byte>) { forall i :: 0 <= i < |s| ==> s[i] != 0 }

  /** findNextEOL on the bytes at the cursor: where the line ends, which for the prompt is the NUL behind it. */
  function FindEnd(p: seq<byte>): (e: Option<nat>)
    ensures e.Some? ==> e.value <= |p|
  {
    if p == PROMPT_TEXT then Some(2) else if Eol(p) < |p| then Some(Eol(p)) else None
  }

  lemma EolIs(s: seq<byte>, i: nat)
    requires i <= |s| && (forall k :: 0 <= k < i ==> !IsEol(s[k])) && (i < |s| ==> IsEol(s[i]))
    ensures Eol(s) == i
  {
  }

  lemma {:induction false} SkipEols(n: seq<byte>, s: seq<byte>)
    requires forall i :: 0 <= i < |n| ==> IsEol(n[i])
    ensures Skip(n + s) == Skip(s)
  {
    if n == [] {
      assert n + s == s;
    } else {
      assert (n + s)[1..] == n[1..] + s;
      SkipEols(n[1..], s);
    }
  }

  lemma EolAtLeast(run: seq<byte>, rest: seq<byte>)
    requires forall i :: 0 <= i < |run| ==> !IsEol(run[i])
    ensures Eol(run + rest) >= |run|
  {
  }

  lemma NewlinesFirst(n: seq<byte>, s: seq<byte>)
    requires forall i :: 0 <= i < |n| ==> IsEol(n[i])
    ensures FirstEnd(n + s) == |n| + FirstEnd(s)
  {
    hide Eol, Skip;
    SkipEols(n, s);
  }

  lemma {:induction false} SkipDrops(s: seq<byte>)
    ensures Skip(s) == s[|s| - |Skip(s)|..] && forall k :: 0 <= k < |s| - |Skip(s)| ==> IsEol(s[k])
  {
    if s != [] && IsEol(s[0]) {
      SkipDrops(s[1..]);
    }
  }
}
