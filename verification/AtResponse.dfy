/**
  What atchannel.c does with the lines that readline() returns: while a command waits for its
  answer, each line is final, intermediate, a prompt, or not meant for the command at all.
 */
module AtResponse {
  import opened Bytes
  import opened AtTexts

  type Line = seq<byte>

  datatype Kind = NoResult | Numeric | SingleLine | MultiLine

  /** An ATResponse, its intermediate lines in the order in which they came. */
  datatype Reply = Reply(success: bool, final: Option<Line>, lines: seq<Line>)

  /**
    The channel: the command's kind and prefix, what is still to be sent on its prompts, whether it is a
    proxy, the reply under construction, the lines handed to the unsolicited handler, and what was written.
   */
  datatype Channel = Channel(
    kind: Kind, prefix: Line, sms: Option<Line>, raw: Option<Line>, proxy: bool,
    reply: Option<Reply>, handled: seq<Line>, written: seq<Line>)

  function Text(s: string): Line {
    seq(|s|, i requires 0 <= i < |s| => (s[i] as int % 256) as byte)
  }

  const CTRL_Z: Line := [26]
  const CARRIAGE_RETURN: Line := [13]

  predicate StartsWithAny(line: Line, prefixes: seq<string>) {
    exists i :: 0 <= i < |prefixes| && Text(prefixes[i]) <= line
  }

  const SUCCESSES := ["OK", "+QIND: \"FOTA\",\"END\",0", "CONNECT"]
  const ERRORS := ["ERROR", "+CMS ERROR:", "+CME ERROR:", "NO CARRIER", "NO ANSWER", "NO DIALTONE", "COMMAND NOT SUPPORT"]

  predicate Succeeds(line: Line) { StartsWithAny(line, SUCCESSES) }
  predicate Fails(line: Line) { StartsWithAny(line, ERRORS) }

  predicate StartsWithDigit(line: Line) { line != [] && 48 <= line[0] <= 57 }

  /** The switch at the end of processLine: whether the line belongs to the command. */
  predicate Belongs(kind: Kind, prefix: Line, line: Line, already: seq<Line>) {
    match kind
    case NoResult => false
    case Numeric => already == [] && StartsWithDigit(line)
    case SingleLine => already == [] && prefix <= line
    case MultiLine => prefix <= line
  }

  /** processLine. */
  function Next(c: Channel, line: Line): Channel {
    if c.reply == None then c.(handled := c.handled + [line])
    else if c.raw.Some? && line == Text("CONNECT") then c.(raw := None, written := c.written + [c.raw.value])
    else if Succeeds(line) || Fails(line) then
      c.(handled := c.handled + (if c.proxy then [line] else []),
         reply := Some(c.reply.value.(success := Succeeds(line), final := Some(line))))
    else if c.sms.Some? && line == Text("> ") then c.(sms := None, written := c.written + [c.sms.value + CTRL_Z])
    else if Belongs(c.kind, c.prefix, line, c.reply.value.lines)
    then c.(reply := Some(c.reply.value.(lines := c.reply.value.lines + [line])))
    else c.(handled := c.handled + [line])
  }

  function Run(c: Channel, lines: seq<Line>): Channel {
    if lines == [] then c else Next(Run(c, lines[..|lines| - 1]), lines[|lines| - 1])
  }

  // ---------- the texts, in bytes ----------

  lemma TextIs(s: string, bytes: Line)
    requires |s| == |bytes| && forall i :: 0 <= i < |s| ==> s[i] as int == bytes[i] as int
    ensures Text(s) == bytes
  {
  }

  lemma SuccessTexts()
    ensures Text("OK") == [79, 75] && Text("CONNECT") == [67, 79, 78, 78, 69, 67, 84]
    ensures Text("+QIND: \"FOTA\",\"END\",0") ==
            [43, 81, 73, 78, 68, 58, 32, 34, 70, 79, 84, 65, 34, 44, 34, 69, 78, 68, 34, 44, 48]
    ensures Text("> ") == [62, 32]
  {
    hide Text;
    TextIs("OK", [79, 75]);
    TextIs("CONNECT", [67, 79, 78, 78, 69, 67, 84]);
    TextIs("+QIND: \"FOTA\",\"END\",0", [43, 81, 73, 78, 68, 58, 32, 34, 70, 79, 84, 65, 34, 44, 34, 69, 78, 68, 34, 44, 48]);
    TextIs("> ", [62, 32]);
  }

  lemma ErrorTexts()
    ensures Text("ERROR") == [69, 82, 82, 79, 82]
    ensures Text("+CMS ERROR:") == [43, 67, 77, 83, 32, 69, 82, 82, 79, 82, 58]
    ensures Text("+CME ERROR:") == [43, 67, 77, 69, 32, 69, 82, 82, 79, 82, 58]
  {
    hide Text;
    TextIs("ERROR", [69, 82, 82, 79, 82]);
    TextIs("+CMS ERROR:", [43, 67, 77, 83, 32, 69, 82, 82, 79, 82, 58]);
    TextIs("+CME ERROR:", [43, 67, 77, 69, 32, 69, 82, 82, 79, 82, 58]);
  }

  lemma RefusalTexts()
    ensures Text("NO CARRIER") == [78, 79, 32, 67, 65, 82, 82, 73, 69, 82]
    ensures Text("NO ANSWER") == [78, 79, 32, 65, 78, 83, 87, 69, 82]
    ensures Text("NO DIALTONE") == [78, 79, 32, 68, 73, 65, 76, 84, 79, 78, 69]
    ensures Text("COMMAND NOT SUPPORT") == [67, 79, 77, 77, 65, 78, 68, 32, 78, 79, 84, 32, 83, 85, 80, 80, 79, 82, 84]
  {
    hide Text;
    TextIs("NO CARRIER", [78, 79, 32, 67, 65, 82, 82, 73, 69, 82]);
    TextIs("NO ANSWER", [78, 79, 32, 65, 78, 83, 87, 69, 82]);
    TextIs("NO DIALTONE", [78, 79, 32, 68, 73, 65, 76, 84, 79, 78, 69]);
    TextIs("COMMAND NOT SUPPORT", [67, 79, 77, 77, 65, 78, 68, 32, 78, 79, 84, 32, 83, 85, 80, 80, 79, 82, 84]);
  }

  lemma SucceedsIs(line: Line)
    ensures Succeeds(line) <==> SaysDone(line)
  {
    hide Text;
    SuccessTexts();
    assert SUCCESSES[0] == "OK" && SUCCESSES[1] == "+QIND: \"FOTA\",\"END\",0" && SUCCESSES[2] == "CONNECT";
  }

  lemma FailsIs(line: Line)
    ensures Fails(line) <==> SaysFailed(line)
  {
    hide Text;
    ErrorTexts();
    RefusalTexts();
    assert ERRORS[0] == "ERROR" && ERRORS[1] == "+CMS ERROR:" && ERRORS[2] == "+CME ERROR:" && ERRORS[3] == "NO CARRIER";
    assert ERRORS[4] == "NO ANSWER" && ERRORS[5] == "NO DIALTONE" && ERRORS[6] == "COMMAND NOT SUPPORT";
  }

  /** Which lines end a command, and how, for every line; none says both. */
  lemma Verdict(c: Channel, line: Line)
    requires c.reply.Some? && (c.raw == None || line != [67, 79, 78, 78, 69, 67, 84])
    ensures var r := Next(c, line).reply;
            if [79, 75] <= line || [67, 79, 78, 78, 69, 67, 84] <= line
               || [43, 81, 73, 78, 68, 58, 32, 34, 70, 79, 84, 65, 34, 44, 34, 69, 78, 68, 34, 44, 48] <= line
            then r == Some(Reply(true, Some(line), c.reply.value.lines))
            else if [69, 82, 82, 79, 82] <= line || [43, 67, 77, 83, 32, 69, 82, 82, 79, 82, 58] <= line
               || [43, 67, 77, 69, 32, 69, 82, 82, 79, 82, 58] <= line || [78, 79, 32, 67, 65, 82, 82, 73, 69, 82] <= line
               || [78, 79, 32, 65, 78, 83, 87, 69, 82] <= line || [78, 79, 32, 68, 73, 65, 76, 84, 79, 78, 69] <= line
               || [67, 79, 77, 77, 65, 78, 68, 32, 78, 79, 84, 32, 83, 85, 80, 80, 79, 82, 84] <= line
            then r == Some(Reply(false, Some(line), c.reply.value.lines))
            else r.Some? && r.value.final == c.reply.value.final && r.value.success == c.reply.value.success
  {
    hide Succeeds, Fails, Text, Belongs;
    SucceedsIs(line);
    FailsIs(line);
    SuccessTexts();
  }

  // ---------- what a command gets ----------

  function Filter(lines: seq<Line>, kind: Kind, prefix: Line): seq<Line> {
    if lines == [] then []
    else Filter(lines[..|lines| - 1], kind, prefix) +
         (if Belongs(kind, prefix, lines[|lines| - 1], []) then [lines[|lines| - 1]] else [])
  }

  /** The lines that a command of this kind is to get: all that match for MULTILINE, else the first that does. */
  function Wanted(lines: seq<Line>, kind: Kind, prefix: Line): seq<Line> {
    var all := Filter(lines, kind, prefix);
    if kind.MultiLine? || all == [] then all else all[..1]
  }

  predicate Ordinary(line: Line) { !Succeeds(line) && !Fails(line) }

  /** The lines that do not, with this much still to be said for the command, belong to it. */
  function Others(lines: seq<Line>, kind: Kind, prefix: Line): seq<Line> {
    if lines == [] then []
    else
      var before, line := lines[..|lines| - 1], lines[|lines| - 1];
      Others(before, kind, prefix) + (if Belongs(kind, prefix, line, Wanted(before, kind, prefix)) then [] else [line])
  }

  function Ordinaries(lines: seq<Line>): seq<Line> {
    if lines == [] then []
    else Ordinaries(lines[..|lines| - 1]) + (if Ordinary(lines[|lines| - 1]) then [lines[|lines| - 1]] else [])
  }

  function LastFinal(lines: seq<Line>): Option<Line> {
    if lines == [] then None
    else if Ordinary(lines[|lines| - 1]) then LastFinal(lines[..|lines| - 1])
    else Some(lines[|lines| - 1])
  }

  /** The reply that these lines make: the last final one, and what is wanted of those that are not final. */
  function Outcome(lines: seq<Line>, kind: Kind, prefix: Line): Reply {
    var final := LastFinal(lines);
    Reply(final.Some? && Succeeds(final.value), final, Wanted(Ordinaries(lines), kind, prefix))
  }

  predicate AllOrdinary(lines: seq<Line>) { forall i :: 0 <= i < |lines| ==> Ordinary(lines[i]) }

  /** A command just sent. */
  predicate Waiting(c: Channel) { c.reply == Some(Reply(false, None, [])) && c.sms == None && c.raw == None }

  /** One ordinary line for a waiting command: taken if it belongs, handed on otherwise. */
  lemma NextWaiting(c: Channel, lines: seq<Line>, line: Line)
    requires c.reply == Some(Reply(false, None, lines)) && c.sms == None && c.raw == None && Ordinary(line)
    ensures Next(c, line) ==
            if Belongs(c.kind, c.prefix, line, lines) then c.(reply := Some(Reply(false, None, lines + [line])))
            else c.(handled := c.handled + [line])
  {
  }

  lemma {:induction false} WhileWaiting(c: Channel, lines: seq<Line>)
    requires Waiting(c) && AllOrdinary(lines)
    ensures Run(c, lines) == c.(reply := Some(Reply(false, None, Wanted(lines, c.kind, c.prefix))),
                                handled := c.handled + Others(lines, c.kind, c.prefix))
  {
    hide Succeeds, Fails, Belongs, Wanted, Next, Ordinary;
    if lines == [] {
      WantedMore([[]], c.kind, c.prefix);
      assert c.handled + [] == c.handled;
    } else {
      var n := |lines| - 1;
      WhileWaiting(c, lines[..n]);
      WantedMore(lines, c.kind, c.prefix);
      var before, line := Wanted(lines[..n], c.kind, c.prefix), lines[n];
      NextWaiting(Run(c, lines[..n]), before, line);
      var others := Others(lines[..n], c.kind, c.prefix);
      assert before + [] == before && others + [] == others;
      assert c.handled + others + [line] == c.handled + (others + [line]);
    }
  }

  /** No line is lost: each is wanted or one of the others. */
  lemma {:induction false} WantedOrOther(lines: seq<Line>, kind: Kind, prefix: Line)
    ensures multiset(Wanted(lines, kind, prefix)) + multiset(Others(lines, kind, prefix)) == multiset(lines)
  {
    hide Belongs, Wanted;
    if lines == [] {
      WantedMore([[]], kind, prefix);
    } else {
      var n := |lines| - 1;
      WantedOrOther(lines[..n], kind, prefix);
      WantedMore(lines, kind, prefix);
      var before, others := Wanted(lines[..n], kind, prefix), Others(lines[..n], kind, prefix);
      assert lines == lines[..n] + [lines[n]];
      assert before + [] == before && others + [] == others;
      Balance(multiset(before), multiset(others), multiset(lines[..n]), lines[n]);
    }
  }

  lemma Balance(a: multiset<Line>, b: multiset<Line>, d: multiset<Line>, x: Line)
    requires a + b == d
    ensures a + multiset{x} + b == d + multiset{x} && a + (b + multiset{x}) == d + multiset{x}
  {
  }

  lemma WantedMore(lines: seq<Line>, kind: Kind, prefix: Line)
    requires lines != []
    ensures Wanted([], kind, prefix) == []
    ensures var before, line := Wanted(lines[..|lines| - 1], kind, prefix), lines[|lines| - 1];
            Wanted(lines, kind, prefix) == before + (if Belongs(kind, prefix, line, before) then [line] else [])
  {
  }

  /**
    Whatever lines come before the final one, the reply holds exactly the command's intermediate lines, in
    order of arrival, and the final line; the other lines went to the unsolicited handler, in order of arrival.
   */
  lemma ReplyIsComplete(c: Channel, lines: seq<Line>, final: Line)
    requires Waiting(c) && AllOrdinary(lines) && !Ordinary(final)
    ensures Run(c, lines + [final]) ==
            c.(reply := Some(Reply(Succeeds(final), Some(final), Wanted(lines, c.kind, c.prefix))),
               handled := c.handled + Others(lines, c.kind, c.prefix) + (if c.proxy then [final] else []))
  {
    hide Succeeds, Fails;
    WhileWaiting(c, lines);
    assert (lines + [final])[..|lines|] == lines;
  }

  // ---------- prompts ----------

  /** Line number n answers a prompt: it is the first CONNECT while raw data waits, or the first "> " while a PDU does. */
  predicate Answers(before: seq<Line>, line: Line, raw: bool, sms: bool) {
    (raw && line == Text("CONNECT") && line !in before) || (sms && line == Text("> ") && line !in before)
  }

  /** The lines without those that only ask for the command's data. */
  function WithoutPrompts(lines: seq<Line>, raw: bool, sms: bool): seq<Line> {
    if lines == [] then []
    else
      var before, line := lines[..|lines| - 1], lines[|lines| - 1];
      WithoutPrompts(before, raw, sms) + (if Answers(before, line, raw, sms) then [] else [line])
  }

  /** A command without data for a prompt. */
  function NoData(c: Channel): Channel { c.(raw := None, sms := None) }

  lemma PromptsDiffer()
    ensures Text("CONNECT") != Text("> ") && Ordinary(Text("> "))
  {
    assert |Text("CONNECT")| == 7 && |Text("> ")| == 2;
    forall i | 0 <= i < |SUCCESSES|
      ensures !(Text(SUCCESSES[i]) <= Text("> "))
    {
      assert Text(SUCCESSES[i])[0] != Text("> ")[0];
    }
    forall i | 0 <= i < |ERRORS|
      ensures !(Text(ERRORS[i]) <= Text("> "))
    {
      assert Text(ERRORS[i])[0] != Text("> ")[0];
    }
  }

  lemma NextAside(c: Channel, d: Channel, line: Line)
    requires c.reply.Some? && d == NoData(c).(written := d.written)
    ensures if (c.raw.Some? && line == Text("CONNECT")) || (c.sms.Some? && line == Text("> "))
            then NoData(Next(c, line)) == d.(written := Next(c, line).written)
            else NoData(Next(c, line)) == Next(d, line).(written := Next(c, line).written)
    ensures Next(c, line).reply.Some? && Next(d, line).reply.Some?
    ensures Next(c, line).raw == if line == Text("CONNECT") then None else c.raw
    ensures Next(c, line).sms == if line == Text("> ") then None else c.sms
    ensures Next(d, line).written == d.written && Next(d, line).raw == None && Next(d, line).sms == None
  {
    PromptsDiffer();
    hide Succeeds, Fails, Belongs, Text;
  }

  /** A command with data for prompts gets what it would get if the prompts had not been there. */
  lemma {:induction false} PromptsAside(c: Channel, lines: seq<Line>)
    requires c.reply.Some?
    ensures var e := Run(NoData(c), WithoutPrompts(lines, c.raw.Some?, c.sms.Some?));
            && NoData(Run(c, lines)) == e.(written := Run(c, lines).written)
            && Run(c, lines).reply.Some? && e.written == c.written
            && Run(c, lines).raw == (if Text("CONNECT") in lines then None else c.raw)
            && Run(c, lines).sms == (if Text("> ") in lines then None else c.sms)
  {
    hide Next, Text;
    if lines != [] {
      var n := |lines| - 1;
      var ps := WithoutPrompts(lines[..n], c.raw.Some?, c.sms.Some?);
      PromptsAside(c, lines[..n]);
      assert lines == lines[..n] + [lines[n]];
      NextAside(Run(c, lines[..n]), Run(NoData(c), ps), lines[n]);
      assert (ps + [lines[n]])[..|ps|] == ps && ps + [] == ps;
    }
  }

  /** What is written while a command waits. */
  lemma {:induction false} WrittenForPrompts(c: Channel, lines: seq<Line>)
    requires c.reply.Some?
    ensures Run(c, lines).written == c.written + PromptData(lines, c.raw, c.sms)
  {
    hide Text, Succeeds, Fails, Belongs, WithoutPrompts;
    if lines != [] {
      var before, line := lines[..|lines| - 1], lines[|lines| - 1];
      WrittenForPrompts(c, before);
      PromptsAside(c, before);
      SuccessTexts();
      PromptsDiffer();
      var d := Run(c, before);
      assert d.written + [] == d.written;
    }
  }

  // ---------- what each kind of command wants ----------

  /** In order, and as often as they came: the lines for which this holds. */
  ghost predicate Picks(picked: seq<Line>, lines: seq<Line>, p: Line -> bool) {
    exists at: seq<nat> :: Places(at, picked, lines, p)
  }

  ghost predicate Places(at: seq<nat>, picked: seq<Line>, lines: seq<Line>, p: Line -> bool) {
    && |at| == |picked| && (forall k :: 0 <= k < |at| ==> at[k] < |lines| && lines[at[k]] == picked[k] && p(picked[k]))
    && (forall k, l :: 0 <= k < l < |at| ==> at[k] < at[l])
    && forall i :: 0 <= i < |lines| && p(lines[i]) ==> i in at
  }

  lemma {:induction false} FilterPlaces(lines: seq<Line>, kind: Kind, prefix: Line, p: Line -> bool) returns (at: seq<nat>)
    requires forall line :: p(line) <==> Belongs(kind, prefix, line, [])
    ensures Places(at, Filter(lines, kind, prefix), lines, p)
  {
    hide Belongs;
    at := [];
    if lines != [] {
      var n := |lines| - 1;
      var before := FilterPlaces(lines[..n], kind, prefix, p);
      PlacesMore(before, Filter(lines[..n], kind, prefix), lines, p);
      at := before + if p(lines[n]) then [n] else [];
    }
  }

  lemma PlacesMore(at: seq<nat>, picked: seq<Line>, lines: seq<Line>, p: Line -> bool)
    requires lines != [] && Places(at, picked, lines[..|lines| - 1], p)
    ensures var n := |lines| - 1;
            Places(at + (if p(lines[n]) then [n] else []), picked + (if p(lines[n]) then [lines[n]] else []), lines, p)
  {
    var n := |lines| - 1;
    var more := at + if p(lines[n]) then [n] else [];
    assert forall k :: 0 <= k < |at| ==> more[k] == at[k] && lines[at[k]] == lines[..n][at[k]];
    forall i | 0 <= i < |lines| && p(lines[i])
      ensures i in more
    {
      if i < n {
        assert lines[..n][i] == lines[i] && i in at;
      } else {
        assert more[|at|] == n;
      }
    }
  }

  lemma FilterSame(lines: seq<Line>, kind: Kind, prefix: Line, p: Line -> bool)
    requires forall line :: p(line) <==> Belongs(kind, prefix, line, [])
    ensures Picks(Filter(lines, kind, prefix), lines, p)
  {
    hide Places, Filter, Belongs;
    var at := FilterPlaces(lines, kind, prefix, p);
  }

  /**
    A MULTILINE command wants every line with its prefix, a SINGLELINE command the first of these, a NUMERIC
    one the first line that starts with a digit, and one without a result none.
   */
  lemma WantedIs(lines: seq<Line>, kind: Kind, prefix: Line)
    ensures kind.NoResult? ==> Wanted(lines, kind, prefix) == []
    ensures kind.MultiLine? ==> Picks(Wanted(lines, kind, prefix), lines, line => prefix <= line)
    ensures kind.SingleLine? ==> IsFirst(Wanted(lines, kind, prefix), lines, line => prefix <= line)
    ensures kind.Numeric? ==> IsFirst(Wanted(lines, kind, prefix), lines, line => line != [] && 48 <= line[0] <= 57)
  {
    hide Picks;
    var all := Filter(lines, kind, prefix);
    match kind {
      case NoResult =>
        FilterSame(lines, kind, prefix, line => false);
        NonePicked(all, lines, line => false);
      case MultiLine => FilterSame(lines, kind, prefix, line => prefix <= line);
      case SingleLine =>
        FilterSame(lines, kind, prefix, line => prefix <= line);
        FirstPicked(all, lines, line => prefix <= line);
      case Numeric =>
        FilterSame(lines, kind, prefix, line => line != [] && 48 <= line[0] <= 57);
        FirstPicked(all, lines, line => line != [] && 48 <= line[0] <= 57);
    }
  }

  /** Just the first line for which p holds, if there is one. */
  ghost predicate IsFirst(picked: seq<Line>, lines: seq<Line>, p: Line -> bool) {
    if forall i :: 0 <= i < |lines| ==> !p(lines[i]) then picked == []
    else exists i :: 0 <= i < |lines| && picked == [lines[i]] && p(lines[i]) && forall j :: 0 <= j < i ==> !p(lines[j])
  }

  lemma NonePicked(picked: seq<Line>, lines: seq<Line>, p: Line -> bool)
    requires Picks(picked, lines, p) && forall line :: !p(line)
    ensures picked == []
  {
    hide Places;
    var at :| Places(at, picked, lines, p);
    PlaceAt(at, picked, lines, p);
  }

  lemma PlaceAt(at: seq<nat>, picked: seq<Line>, lines: seq<Line>, p: Line -> bool)
    requires Places(at, picked, lines, p)
    ensures |at| == |picked|
    ensures picked != [] ==> at[0] < |lines| && lines[at[0]] == picked[0] && p(picked[0])
  {
  }

  lemma PlaceOf(at: seq<nat>, picked: seq<Line>, lines: seq<Line>, p: Line -> bool, i: nat)
    requires Places(at, picked, lines, p) && i < |lines| && p(lines[i])
    ensures at != [] && at[0] <= i
  {
    var k :| 0 <= k < |at| && at[k] == i;
  }

  lemma FirstPicked(picked: seq<Line>, lines: seq<Line>, p: Line -> bool)
    requires Picks(picked, lines, p)
    ensures IsFirst(if picked == [] then [] else picked[..1], lines, p)
  {
    hide Places;
    var at :| Places(at, picked, lines, p);
    PlaceAt(at, picked, lines, p);
    forall i | 0 <= i < |lines| && p(lines[i])
      ensures at != [] && at[0] <= i
    {
      PlaceOf(at, picked, lines, p, i);
    }
    if picked != [] {
      assert picked[..1] == [lines[at[0]]];
    }
  }

  // ---------- lines until the caller wakes ----------

  lemma NextReply(c: Channel, line: Line)
    requires c.reply.Some? && c.sms == None && c.raw == None
    ensures Next(c, line).(handled := c.handled) ==
            if !Ordinary(line) then c.(reply := Some(c.reply.value.(success := Succeeds(line), final := Some(line))))
            else if Belongs(c.kind, c.prefix, line, c.reply.value.lines)
            then c.(reply := Some(c.reply.value.(lines := c.reply.value.lines + [line])))
            else c
  {
    hide Succeeds, Fails, Belongs;
  }

  lemma OutcomeMore(lines: seq<Line>, kind: Kind, prefix: Line)
    requires lines != []
    ensures Outcome([], kind, prefix) == Reply(false, None, [])
    ensures var before, line := Outcome(lines[..|lines| - 1], kind, prefix), lines[|lines| - 1];
            Outcome(lines, kind, prefix) ==
              if !Ordinary(line) then before.(success := Succeeds(line), final := Some(line))
              else before.(lines := before.lines + (if Belongs(kind, prefix, line, before.lines) then [line] else []))
  {
    hide Succeeds, Fails, Belongs, Wanted, Ordinary;
    var line, ordinary := lines[|lines| - 1], Ordinaries(lines[..|lines| - 1]);
    assert (ordinary + [line])[..|ordinary|] == ordinary && ordinary + [] == ordinary;
    WantedMore(ordinary + [line], kind, prefix);
  }

  /** However many lines come before the caller wakes, behind a final one too, the reply is their outcome. */
  lemma {:induction false} ReplyAtAnyTime(c: Channel, lines: seq<Line>)
    requires Waiting(c)
    ensures Run(c, lines).(handled := c.handled) == c.(reply := Some(Outcome(lines, c.kind, c.prefix)))
  {
    hide Succeeds, Fails, Belongs, Outcome, Next, Ordinary;
    if lines == [] {
      OutcomeMore([[]], c.kind, c.prefix);
    } else {
      var before, line := lines[..|lines| - 1], lines[|lines| - 1];
      ReplyAtAnyTime(c, before);
      var d := Run(c, before);
      assert d.reply == Some(Outcome(before, c.kind, c.prefix)) && d.kind == c.kind && d.prefix == c.prefix;
      NextReply(d, line);
      OutcomeMore(lines, c.kind, c.prefix);
      var same := Outcome(before, c.kind, c.prefix).lines;
      assert same + [] == same;
    }
  }

  /** With data for prompts, too. */
  lemma ReplyWithPrompts(c: Channel, lines: seq<Line>)
    requires c.reply == Some(Reply(false, None, []))
    ensures Run(c, lines).reply == Some(Outcome(WithoutPrompts(lines, c.raw.Some?, c.sms.Some?), c.kind, c.prefix))
  {
    hide Outcome, Run;
    PromptsAside(c, lines);
    ReplyAtAnyTime(NoData(c), WithoutPrompts(lines, c.raw.Some?, c.sms.Some?));
  }

  /** The first final line, if nothing follows it: the reply is what came before, and that line. */
  lemma {:induction false} OutcomeAtFinal(lines: seq<Line>, final: Line, kind: Kind, prefix: Line)
    requires AllOrdinary(lines) && !Ordinary(final)
    ensures Outcome(lines, kind, prefix) == Reply(false, None, Wanted(lines, kind, prefix))
    ensures Outcome(lines + [final], kind, prefix) == Reply(Succeeds(final), Some(final), Wanted(lines, kind, prefix))
  {
    hide Succeeds, Fails, Wanted, Ordinary;
    OrdinariesAll(lines);
    assert (lines + [final])[..|lines|] == lines && lines + [] == lines;
  }

  lemma {:induction false} OrdinariesAll(lines: seq<Line>)
    requires AllOrdinary(lines)
    ensures Ordinaries(lines) == lines && LastFinal(lines) == None
  {
    hide Ordinary;
    if lines != [] {
      OrdinariesAll(lines[..|lines| - 1]);
    }
  }

  lemma {:induction false} LastFinalIs(lines: seq<Line>)
    ensures if forall k :: 0 <= k < |lines| ==> !SaysDone(lines[k]) && !SaysFailed(lines[k]) then LastFinal(lines) == None
            else exists k :: && 0 <= k < |lines| && LastFinal(lines) == Some(lines[k])
                             && (if Succeeds(lines[k]) then SaysDone(lines[k]) else SaysFailed(lines[k]))
                             && forall l :: k < l < |lines| ==> !SaysDone(lines[l]) && !SaysFailed(lines[l])
  {
    hide Succeeds, Fails, SaysDone, SaysFailed;
    if lines != [] {
      var n := |lines| - 1;
      SucceedsIs(lines[n]);
      FailsIs(lines[n]);
      LastFinalIs(lines[..n]);
      assert forall k :: 0 <= k < n ==> lines[k] == lines[..n][k];
    }
  }

  /** A line that comes before the caller wakes changes the reply, unless it is not wanted or says the same again. */
  lemma LateLine(lines: seq<Line>, late: Line, kind: Kind, prefix: Line)
    ensures Outcome(lines + [late], kind, prefix) == Outcome(lines, kind, prefix) <==>
            if Ordinary(late) then !Belongs(kind, prefix, late, Wanted(Ordinaries(lines), kind, prefix))
            else LastFinal(lines) == Some(late)
  {
    hide Succeeds, Fails, Wanted, Ordinary, Belongs;
    assert (lines + [late])[..|lines|] == lines;
    OutcomeMore(lines + [late], kind, prefix);
    var wanted := Outcome(lines, kind, prefix).lines;
    assert |wanted + [late]| == |wanted| + 1 && wanted + [] == wanted;
  }

  const COMMAND_PENDING := -2
  const CHANNEL_CLOSED := -3
  const TIMEOUT := -4

  // ---------- the program ----------

  class ATLine {
    const line: Line
    var next: ATLine?

    constructor (line: Line, next: ATLine?)
      ensures this.line == line && this.next == next
    {
      this.line, this.next := line, next;
    }
  }

  /** A NULL-terminated list: these nodes, in this order, none twice. */
  ghost predicate Chain(head: ATLine?, nodes: seq<ATLine>)
    reads nodes
  {
    && (if nodes == [] then head == null else head == nodes[0] && nodes[|nodes| - 1].next == null)
    && (forall i :: 0 <= i < |nodes| - 1 ==> nodes[i].next == nodes[i + 1])
    && (forall i, j :: 0 <= i < j < |nodes| ==> nodes[i] != nodes[j])
  }

  function Reversed<T>(s: seq<T>): (r: seq<T>)
    ensures |r| == |s| && forall i :: 0 <= i < |s| ==> r[i] == s[|s| - 1 - i]
  {
    seq(|s|, i requires 0 <= i < |s| => s[|s| - 1 - i])
  }

  ghost function Texts(nodes: seq<ATLine>): (t: seq<Line>)
    ensures |t| == |nodes|
  {
    seq(|nodes|, i requires 0 <= i < |nodes| => nodes[i].line)
  }

  lemma TurnedRound(head: ATLine?, all: seq<ATLine>)
    requires forall i, j :: 0 <= i < j < |all| ==> all[i] != all[j]
    requires head == if all == [] then null else all[|all| - 1]
    requires (all != [] ==> all[0].next == null) && forall i :: 1 <= i < |all| ==> all[i].next == all[i - 1]
    ensures Chain(head, Reversed(all))
  {
  }

  class ATResponse {
    var success: bool
    var finalResponse: Option<Line>
    var intermediates: ATLine?
    ghost var nodes: seq<ATLine>

    /** at_response_new. */
    constructor ()
      ensures Valid() && View() == Reply(false, None, [])
    {
      success, finalResponse, intermediates, nodes := false, None, null, [];
    }

    ghost predicate Valid()
      reads this, nodes
    {
      Chain(intermediates, nodes)
    }

    /** While the reader collects, the newest line is at the head. */
    ghost function View(): Reply
      reads this
    {
      Reply(success, finalResponse, Reversed(Texts(nodes)))
    }

    /** addIntermediate. */
    method AddIntermediate(line: Line)
      requires Valid()
      modifies this`intermediates, this`nodes
      ensures Valid() && View() == old(View()).(lines := old(View()).lines + [line])
      ensures forall x :: x in nodes ==> x in old(nodes) || fresh(x)
    {
      var node := new ATLine(line, intermediates);
      intermediates := node;
      nodes := [node] + nodes;
      assert Texts(nodes) == [line] + Texts(old(nodes));
    }

    /** reverseIntermediates: the list is turned round in place; afterwards it is in order of arrival. */
    method ReverseIntermediates()
      requires Valid()
      modifies this`intermediates, this`nodes, nodes
      ensures Valid() && nodes == Reversed(old(nodes))
      ensures Texts(nodes) == old(View()).lines
    {
      var pcur := intermediates;
      intermediates := null;
      ghost var all, k := nodes, 0;
      nodes := [];
      while pcur != null
        invariant k <= |all| && pcur == (if k < |all| then all[k] else null)
        invariant intermediates == (if k > 0 then all[k - 1] else null)
        invariant k > 0 ==> all[0].next == null
        invariant forall i :: 1 <= i < k ==> all[i].next == all[i - 1]
        invariant k < |all| ==> all[|all| - 1].next == null
        invariant forall i :: k <= i < |all| - 1 ==> all[i].next == all[i + 1]
        decreases |all| - k
      {
        var pnext := pcur.next;
        pcur.next := intermediates;
        intermediates := pcur;
        pcur := pnext;
        k := k + 1;
      }
      TurnedRound(intermediates, all);
      nodes := Reversed(all);
      assert Texts(nodes) == Reversed(Texts(all));
    }
  }

  /** strStartsWith on strings without NUL. */
  method StartsWith(line: Line, prefix: Line) returns (r: bool)
    ensures r <==> prefix <= line
  {
    var i := 0;
    while i < |line| && i < |prefix|
      invariant i <= |line| && i <= |prefix| && line[..i] == prefix[..i]
    {
      if line[i] != prefix[i] {
        return false;
      }
      i := i + 1;
    }
    return i == |prefix|;
  }

  /** isFinalResponseSuccess, isFinalResponseError and isSMSUnsolicited, which differ in their prefixes. */
  method StartsWithOneOf(line: Line, prefixes: seq<string>) returns (r: bool)
    ensures r == StartsWithAny(line, prefixes)
  {
    var i := 0;
    while i < |prefixes|
      invariant i <= |prefixes| && forall k :: 0 <= k < i ==> !(Text(prefixes[k]) <= line)
    {
      var starts := StartsWith(line, Text(prefixes[i]));
      if starts {
        return true;
      }
      i := i + 1;
    }
    return false;
  }

  class AtChannel {
    var kind: Kind
    var prefix: Line
    var sms: Option<Line>
    var raw: Option<Line>
    const proxy: bool
    var response: ATResponse?
    var handled: seq<Line>
    var written: seq<Line>

    constructor (proxy: bool)
      ensures this.proxy == proxy && response == null && sms == None && raw == None && handled == [] && written == []
    {
      this.proxy := proxy;
      kind, prefix, sms, raw, response, handled, written := NoResult, [], None, None, null, [], [];
    }

    ghost predicate Valid()
      reads this, response, if response != null then response.nodes else []
    {
      response != null ==> response.Valid()
    }

    ghost function View(): Channel
      reads this, response
    {
      Channel(kind, prefix, sms, raw, proxy, if response == null then None else Some(response.View()), handled, written)
    }

    method HandleFinal(line: Line, success: bool)
      requires Valid() && response != null
      modifies this`handled, response
      ensures Valid() && response.nodes == old(response.nodes)
      ensures View() == old(View()).(handled := old(handled) + (if proxy then [line] else []),
                                     reply := Some(old(response.View()).(success := success, final := Some(line))))
    {
      if proxy {
        handled := handled + [line];
      }
      response.success := success;
      response.finalResponse := Some(line);
    }

    /** The switch of processLine. */
    method Collect(line: Line)
      requires Valid() && response != null
      modifies this`handled, response
      ensures Valid() && forall x :: x in response.nodes ==> x in old(response.nodes) || fresh(x)
      ensures View() == if Belongs(kind, prefix, line, old(response.View()).lines)
                        then old(View()).(reply := Some(old(response.View()).(lines := old(response.View()).lines + [line])))
                        else old(View()).(handled := old(handled) + [line])
    {
      var add := false;
      match kind {
        case NoResult =>
        case Numeric => add := response.intermediates == null && StartsWithDigit(line);
        case SingleLine =>
          if response.intermediates == null {
            add := StartsWith(line, prefix);
          }
        case MultiLine => add := StartsWith(line, prefix);
      }
      if add {
        response.AddIntermediate(line);
      } else {
        handled := handled + [line];
      }
    }

    /** processLine. */
    method ProcessLine(line: Line)
      requires Valid()
      modifies this, response
      ensures Valid() && View() == Next(old(View()), line) && response == old(response)
      ensures response != null ==> forall x :: x in response.nodes ==> x in old(response.nodes) || fresh(x)
    {
      hide StartsWithAny, Text, Belongs;
      if response == null {
        handled := handled + [line];
        return;
      }
      if raw.Some? && line == Text("CONNECT") {
        written := written + [raw.value];
        raw := None;
        return;
      }
      var success := StartsWithOneOf(line, SUCCESSES);
      if success {
        HandleFinal(line, true);
        return;
      }
      var error := StartsWithOneOf(line, ERRORS);
      if error {
        HandleFinal(line, false);
      } else if sms.Some? && line == Text("> ") {
        written := written + [sms.value + CTRL_Z];
        sms := None;
      } else {
        Collect(line);
      }
    }

    /** The channel as it is when this command has just been written. */
    ghost function Sent(command: Line, kind: Kind, prefix: Line, sms: Option<Line>): Channel
      reads this
    {
      Channel(kind, prefix, sms, raw, proxy, Some(Reply(false, None, [])), handled, written + [command + [13]])
    }

    /** The reader at work until the caller wakes. */
    method Wait(lines: seq<Line>)
      requires Valid() && response != null
      modifies this, response
      ensures Valid() && response == old(response) && forall x :: x in response.nodes ==> x in old(response.nodes) || fresh(x)
      ensures View() == Run(old(View()), lines)
    {
      hide Next;
      var i := 0;
      while i < |lines|
        invariant i <= |lines| && response == old(response) && Valid()
        invariant forall x :: x in response.nodes ==> x in old(response.nodes) || fresh(x)
        invariant View() == Run(old(View()), lines[..i])
      {
        assert lines[..i + 1][..i] == lines[..i];
        ProcessLine(lines[i]);
        i := i + 1;
      }
      assert lines[..i] == lines;
    }

    /** The command is written, and the caller waits for its response. */
    method Exchange(command: Line, kind: Kind, prefix: Line, sms: Option<Line>, lines: seq<Line>)
      requires response == null
      modifies this
      ensures response != null && fresh(response) && response.Valid() && forall x :: x in response.nodes ==> fresh(x)
      ensures View() == Run(old(Sent(command, kind, prefix, sms)), lines)
    {
      hide Run;
      written := written + [command + CARRIAGE_RETURN];
      this.kind, this.prefix, this.sms := kind, prefix, sms;
      response := new ATResponse();
      Wait(lines);
    }

    /**
      at_send_command_full_nolock for a caller that wants the response.  writeError is what writing the
      command came to; lines are all that the reader processes until the caller wakes for good, closed says
      whether the channel is closed by then, and expired whether it was the clock that woke the caller, as
      it does in the end if there is neither a final line nor a closed channel.
     */
    method SendCommand(command: Line, kind: Kind, prefix: Line, sms: Option<Line>, writeError: int,
                       lines: seq<Line>, closed: bool, expired: bool)
      returns (err: int, r: ATResponse?)
      requires Valid() && (writeError == 0 || writeError == -1 || writeError == -3)
      modifies this
      ensures response == null && this.sms == None
      ensures old(response) != null ==> err == -2 && r == null && written == old(written) && handled == old(handled)
      ensures old(response) == null && writeError != 0 ==>
              err == writeError && r == null && written == old(written) && handled == old(handled)
      ensures old(response) == null && writeError == 0 ==>
              var all := WithoutPrompts(lines, old(raw).Some?, sms.Some?);
              var end := Run(old(Sent(command, kind, prefix, sms)), lines);
              && handled == end.handled && raw == (if [67, 79, 78, 78, 69, 67, 84] in lines then None else old(raw))
              && written == old(written) + [command + [13]] + PromptData(lines, old(raw), sms)
              && if expired || (LastFinal(all) == None && !closed) then err == -4 && r == null
                 else
                   && r != null && r.Valid() && err == (if closed then -3 else 0)
                   && Reply(r.success, r.finalResponse, Texts(r.nodes)) == Outcome(all, kind, prefix)
      ensures r != null ==>
              var all := WithoutPrompts(lines, old(raw).Some?, sms.Some?);
              if forall k :: 0 <= k < |all| ==> !SaysDone(all[k]) && !SaysFailed(all[k])
              then r.finalResponse == None && !r.success && closed
              else exists k :: && 0 <= k < |all| && r.finalResponse == Some(all[k])
                               && (if r.success then SaysDone(all[k]) else SaysFailed(all[k]))
                               && forall l :: k < l < |all| ==> !SaysDone(all[l]) && !SaysFailed(all[l])
    {
      hide Run, Reversed, WithoutPrompts, LastFinal, Wanted, Ordinaries, Succeeds, SaysDone, SaysFailed, PromptData, Text;
      if response != null || writeError != 0 {
        err, r := if response != null then COMMAND_PENDING else writeError, null;
        response, this.sms := null, None;
        return;
      }
      ReplyWithPrompts(Sent(command, kind, prefix, sms), lines);
      WrittenForPrompts(Sent(command, kind, prefix, sms), lines);
      PromptsAside(Sent(command, kind, prefix, sms), lines);
      SuccessTexts();
      LastFinalIs(WithoutPrompts(lines, raw.Some?, sms.Some?));
      Exchange(command, kind, prefix, sms, lines);
      this.sms := None;
      if expired || (response.finalResponse == None && !closed) {
        response := null;
        return TIMEOUT, null;
      }
      err := if closed then CHANNEL_CLOSED else 0;
      assert forall k :: 0 <= k < |response.nodes| ==> response.nodes[k] in response.nodes;
      response.ReverseIntermediates();
      r := response;
      response := null;
    }
  }
}
