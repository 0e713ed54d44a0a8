/**
  urllogger-reader.c: binary records arrive in arbitrary pieces, are cut apart in a fixed
  buffer and printed as CSV lines.
 */
module UrlLogger {
  import opened Bytes

  const READ_BUF_LEN := 65536
  const HDR := 62
  const QUOTE: byte := 34
  const COMMA: byte := 44
  const CR: byte := 13
  const LF: byte := 10

  // ---------- records ----------

  function Le16(s: seq<byte>, at: nat): nat
    requires at + 1 < |s|
  {
    s[at] as nat + 256 * s[at + 1] as nat
  }

  function Version(s: seq<byte>): nat requires |s| >= HDR { Le16(s, 0) }
  function HeaderLen(s: seq<byte>): nat requires |s| >= HDR { Le16(s, 2) }
  function RecordLen(s: seq<byte>): nat requires |s| >= HDR { Le16(s, 4) }

  /** A header that process_buffer accepts once the whole record is there. */
  predicate Proper(s: seq<byte>)
    requires |s| >= HDR
  {
    Version(s) == 2 && HeaderLen(s) >= HDR && RecordLen(s) >= HeaderLen(s)
  }

  predicate Complete(s: seq<byte>) { |s| >= HDR && Proper(s) && RecordLen(s) <= |s| }

  /** The complete records at the front of s, and what is left behind them. */
  function Records(s: seq<byte>): seq<seq<byte>>
    decreases |s|
  {
    if Complete(s) then [s[..RecordLen(s)]] + Records(s[RecordLen(s)..]) else []
  }

  function Rest(s: seq<byte>): (r: seq<byte>)
    ensures |r| <= |s| && !Complete(r)
    decreases |s|
  {
    if Complete(s) then Rest(s[RecordLen(s)..]) else s
  }

  /** A stream in which every header that is there in full is proper. */
  predicate Valid(s: seq<byte>)
    decreases |s|
  {
    |s| < HDR || (Proper(s) && (RecordLen(s) <= |s| ==> Valid(s[RecordLen(s)..])))
  }

  /** Headers do not change when more bytes follow. */
  lemma SameHeader(s: seq<byte>, t: seq<byte>)
    requires |s| >= HDR
    ensures Version(s + t) == Version(s) && HeaderLen(s + t) == HeaderLen(s) && RecordLen(s + t) == RecordLen(s)
    ensures Proper(s + t) <==> Proper(s)
  {
  }

  lemma StillComplete(a: seq<byte>, b: seq<byte>)
    requires Complete(a)
    ensures HDR <= RecordLen(a) <= |a| && Complete(a + b) && RecordLen(a + b) == RecordLen(a)
    ensures (a + b)[..RecordLen(a)] == a[..RecordLen(a)] && (a + b)[RecordLen(a)..] == a[RecordLen(a)..] + b
  {
  }

  /** Cutting the stream anywhere, and carrying over what is left, finds the same records. */
  lemma {:induction false} RecordsOfPieces(a: seq<byte>, b: seq<byte>)
    ensures Records(a + b) == Records(a) + Records(Rest(a) + b)
    ensures Rest(a + b) == Rest(Rest(a) + b)
    decreases |a|
  {
    hide Complete, RecordLen;
    if Complete(a) {
      StillComplete(a, b);
      var n := RecordLen(a);
      RecordsOfPieces(a[n..], b);
      assert [a[..n]] + (Records(a[n..]) + Records(Rest(a[n..]) + b)) == [a[..n]] + Records(a[n..]) + Records(Rest(a[n..]) + b);
    }
  }

  lemma {:induction false} ValidPrefix(a: seq<byte>, b: seq<byte>)
    requires Valid(a + b)
    ensures Valid(a)
    decreases |a|
  {
    if |a| >= HDR {
      SameHeader(a, b);
      if RecordLen(a) <= |a| {
        assert (a + b)[RecordLen(a)..] == a[RecordLen(a)..] + b;
        ValidPrefix(a[RecordLen(a)..], b);
      }
    }
  }

  /** What is left over is less than a record, hence less than the buffer. */
  lemma {:induction false} RestIsSmall(s: seq<byte>)
    requires Valid(s)
    ensures |Rest(s)| < READ_BUF_LEN - 1
    decreases |s|
  {
    if Complete(s) {
      RestIsSmall(s[RecordLen(s)..]);
    }
  }

  /** Behind an improper header nothing is recognised any more, however the stream goes on. */
  lemma {:induction false} StuckOnImproper(s: seq<byte>, t: seq<byte>)
    requires |Rest(s)| >= HDR && !Proper(Rest(s))
    ensures Records(s + t) == Records(s)
  {
    RecordsOfPieces(s, t);
    SameHeader(Rest(s), t);
  }

  // ---------- the last CSV field ----------

  predicate Special(b: byte) { b == QUOTE || b == COMMA || b == CR || b == LF }

  predicate NeedsQuotes(d: seq<byte>) { exists i :: 0 <= i < |d| && Special(d[i]) }

  function Doubled(d: seq<byte>): seq<byte> {
    if d == [] then [] else Doubled(d[..|d| - 1]) + (if d[|d| - 1] == QUOTE then [QUOTE, QUOTE] else [d[|d| - 1]])
  }

  function Quoted(d: seq<byte>): seq<byte> {
    if NeedsQuotes(d) then [QUOTE] + Doubled(d) + [QUOTE] else Doubled(d)
  }

  /** RFC 4180, section 2, rules 5 to 7: the inside of a quoted field up to its closing quote. */
  function ReadQuoted(s: seq<byte>, field: seq<byte>): Option<(seq<byte>, seq<byte>)>
    decreases |s|
  {
    if s == [] then None
    else if s[0] != QUOTE then ReadQuoted(s[1..], field + [s[0]])
    else if |s| > 1 && s[1] == QUOTE then ReadQuoted(s[2..], field + [QUOTE])
    else Some((field, s[1..]))
  }

  function ReadPlain(s: seq<byte>, field: seq<byte>): Option<(seq<byte>, seq<byte>)>
    decreases |s|
  {
    if s == [] then None
    else if s[0] == LF then Some((field, s))
    else if Special(s[0]) then None
    else ReadPlain(s[1..], field + [s[0]])
  }

  /** The last field of a record and what follows its line end, which print_event writes as LF. */
  function ReadLast(s: seq<byte>): Option<(seq<byte>, seq<byte>)> {
    var r := if s != [] && s[0] == QUOTE then ReadQuoted(s[1..], []) else ReadPlain(s, []);
    if r.Some? && r.value.1 != [] && r.value.1[0] == LF then Some((r.value.0, r.value.1[1..])) else None
  }

  lemma {:induction false} DoubledFront(d: seq<byte>)
    requires d != []
    ensures Doubled(d) == (if d[0] == QUOTE then [QUOTE, QUOTE] else [d[0]]) + Doubled(d[1..])
  {
    var n := |d| - 1;
    if n == 0 {
      assert d[..0] == [] && d[1..] == [];
    } else {
      DoubledFront(d[..n]);
      assert d[..n][1..] == d[1..][..n - 1] && d[..n][0] == d[0] && d[1..][n - 1] == d[n];
      var first := if d[0] == QUOTE then [QUOTE, QUOTE] else [d[0]];
      var last := if d[n] == QUOTE then [QUOTE, QUOTE] else [d[n]];
      assert first + Doubled(d[1..][..n - 1]) + last == first + (Doubled(d[1..][..n - 1]) + last);
    }
  }

  lemma {:induction false} ReadQuotedBack(d: seq<byte>, field: seq<byte>, rest: seq<byte>)
    requires rest == [] || rest[0] != QUOTE
    ensures ReadQuoted(Doubled(d) + [QUOTE] + rest, field) == Some((field + d, rest))
    decreases |d|
  {
    var s := Doubled(d) + [QUOTE] + rest;
    if d == [] {
      assert s == [QUOTE] + rest && s[1..] == rest;
      assert field + d == field;
    } else {
      DoubledFront(d);
      var tail := Doubled(d[1..]) + [QUOTE] + rest;
      if d[0] == QUOTE {
        assert s == [QUOTE, QUOTE] + tail && s[2..] == tail;
      } else {
        assert s == [d[0]] + tail && s[1..] == tail;
      }
      ReadQuotedBack(d[1..], field + [d[0]], rest);
      assert field + [d[0]] + d[1..] == field + d;
    }
  }

  lemma {:induction false} ReadPlainBack(d: seq<byte>, field: seq<byte>, rest: seq<byte>)
    requires !NeedsQuotes(d)
    ensures ReadPlain(d + [LF] + rest, field) == Some((field + d, [LF] + rest))
    decreases |d|
  {
    var s := d + [LF] + rest;
    if d == [] {
      assert s == [LF] + rest && field + d == field;
    } else {
      assert s[0] == d[0] && s[1..] == d[1..] + [LF] + rest;
      assert forall i :: 0 <= i < |d[1..]| ==> d[1..][i] == d[i + 1];
      ReadPlainBack(d[1..], field + [d[0]], rest);
      assert field + [d[0]] + d[1..] == field + d;
    }
  }

  lemma {:induction false} NothingDoubled(d: seq<byte>)
    requires !NeedsQuotes(d)
    ensures Doubled(d) == d
  {
    if d != [] {
      assert forall i :: 0 <= i < |d| - 1 ==> d[..|d| - 1][i] == d[i];
      NothingDoubled(d[..|d| - 1]);
    }
  }

  lemma QuotedReadsBack(d: seq<byte>, rest: seq<byte>)
    requires NeedsQuotes(d)
    ensures ReadLast(Quoted(d) + [LF] + rest) == Some((d, rest))
  {
    hide Doubled, ReadQuoted, ReadPlain, NeedsQuotes;
    var s := Quoted(d) + [LF] + rest;
    var tail := [LF] + rest;
    assert s[0] == QUOTE && s[1..] == Doubled(d) + [QUOTE] + tail;
    ReadQuotedBack(d, [], tail);
    assert [] + d == d && tail[1..] == rest;
  }

  lemma PlainReadsBack(d: seq<byte>, rest: seq<byte>)
    requires !NeedsQuotes(d)
    ensures ReadLast(Quoted(d) + [LF] + rest) == Some((d, rest))
  {
    hide Doubled, ReadQuoted, ReadPlain;
    var s := d + [LF] + rest;
    NothingDoubled(d);
    ReadPlainBack(d, [], rest);
    assert d != [] ==> s[0] == d[0] && !Special(d[0]);
    assert d == [] ==> s[0] == LF;
    assert [] + d == d && ([LF] + rest)[1..] == rest;
  }

  /** Reading the last field of a printed line gives back the payload, whatever bytes it holds, and finds the line's end. */
  lemma FieldRoundTrip(d: seq<byte>, rest: seq<byte>)
    ensures ReadLast(Quoted(d) + [LF] + rest) == Some((d, rest))
  {
    hide Quoted, ReadLast;
    if NeedsQuotes(d) {
      QuotedReadsBack(d, rest);
    } else {
      PlainReadsBack(d, rest);
    }
  }

  // ---------- printed lines ----------

  /** A printed line: the header bytes its fixed columns are formatted from, and its last field as written. */
  datatype Line = Line(head: seq<byte>, field: seq<byte>)

  function Payload(s: seq<byte>): seq<byte>
    requires Complete(s)
  {
    s[HeaderLen(s)..RecordLen(s)]
  }

  /** What is printed for the record at the front of s. */
  function LineOf(s: seq<byte>): Line
    requires Complete(s)
  {
    Line(s[..HDR], Quoted(Payload(s)))
  }

  /** One line per complete record of s, in order. */
  function LinesOf(s: seq<byte>): seq<Line>
    decreases |s|
  {
    if Complete(s) then [LineOf(s)] + LinesOf(s[RecordLen(s)..]) else []
  }

  lemma FrontOnly(s: seq<byte>, t: seq<byte>)
    requires Complete(s)
    ensures Complete(s + t) && Payload(s + t) == Payload(s) && LineOf(s + t) == LineOf(s)
  {
  }

  lemma RecordAlone(s: seq<byte>)
    requires Complete(s)
    ensures var r := s[..RecordLen(s)]; Complete(r) && RecordLen(r) == |r| && Payload(r) == Payload(s) && r[..HDR] == s[..HDR]
  {
  }

  /** The lines are those of the records, and each one gives its record's payload back. */
  lemma {:induction false} LinesAreRecords(s: seq<byte>, i: nat, rest: seq<byte>)
    ensures |LinesOf(s)| == |Records(s)|
    ensures i < |Records(s)| ==> Complete(Records(s)[i]) && |Records(s)[i]| == RecordLen(Records(s)[i])
    ensures i < |Records(s)| ==> LinesOf(s)[i].head == Records(s)[i][..HDR]
    ensures i < |Records(s)| ==> ReadLast(LinesOf(s)[i].field + [LF] + rest) == Some((Payload(Records(s)[i]), rest))
    decreases |s|
  {
    hide Quoted, ReadLast, Proper, Version, HeaderLen, RecordLen;
    if Complete(s) {
      CutFront(s);
      var n := RecordLen(s);
      if i == 0 {
        RecordAlone(s);
        FieldRoundTrip(Payload(s), rest);
        LinesAreRecords(s[n..], 0, rest);
      } else {
        LinesAreRecords(s[n..], i - 1, rest);
      }
    }
  }

  // ---------- records by their bytes ----------

  /** A record as the kernel queues it: a header of at least 62 bytes, which says how long it is, and the data behind it. */
  datatype Event = Event(head: seq<byte>, data: seq<byte>)

  predicate WellFormed(r: Event) {
    && |r.head| >= 62 && r.head[0] == 2 && r.head[1] == 0
    && r.head[2] as nat + 256 * r.head[3] as nat == |r.head|
    && r.head[4] as nat + 256 * r.head[5] as nat == |r.head| + |r.data|
  }

  /** The events one after the other. */
  function Stream(rs: seq<Event>): seq<byte> {
    if rs == [] then [] else rs[0].head + rs[0].data + Stream(rs[1..])
  }

  /** A line for an event: its first 62 bytes, and a last field that reads back as its data and ends with the line. */
  ghost predicate Shows(l: Line, r: Event)
    requires WellFormed(r)
  {
    l.head == r.head[..62] && forall after :: ReadLast(l.field + [10] + after) == Some((r.data, after))
  }

  /** One event, whatever follows it. */
  lemma EventPrinted(r: Event, rest: seq<byte>)
    requires WellFormed(r)
    ensures var ls := LinesOf(r.head + r.data + rest); ls != [] && ls[1..] == LinesOf(rest) && Shows(ls[0], r)
  {
    hide Quoted, ReadLast, LinesOf;
    var s := r.head + r.data + rest;
    assert Complete(s) && RecordLen(s) == |r.head + r.data|;
    assert s[|r.head + r.data|..] == rest && Payload(s) == r.data && s[..62] == r.head[..62];
    forall after
      ensures ReadLast(Quoted(r.data) + [10] + after) == Some((r.data, after))
    {
      FieldRoundTrip(r.data, after);
    }
    CutFront(s);
  }

  /** The beginning of an event is no record. */
  lemma PartPrintsNothing(r: Event, n: nat)
    requires WellFormed(r) && n < |r.head + r.data|
    ensures LinesOf((r.head + r.data)[..n]) == []
  {
  }

  predicate AllWellFormed(rs: seq<Event>) { forall i :: 0 <= i < |rs| ==> WellFormed(rs[i]) }

  /** Of the first pos bytes of these events: one line for each event that is there in full, in order. */
  ghost predicate PrintedUpTo(ls: seq<Line>, rs: seq<Event>, pos: nat)
    requires AllWellFormed(rs)
  {
    && |ls| <= |rs| && (pos == |Stream(rs)| ==> |ls| == |rs|)
    && |Stream(rs[..|ls|])| <= pos && (|ls| < |rs| ==> pos < |Stream(rs[..|ls| + 1])|)
    && forall i :: 0 <= i < |ls| ==> Shows(ls[i], rs[i])
  }

  /** Of a stream of events, up to anywhere: one line for each event that is there in full, in order. */
  lemma {:induction false} EventsPrinted(rs: seq<Event>, pos: nat)
    requires AllWellFormed(rs) && pos <= |Stream(rs)|
    ensures PrintedUpTo(LinesOf(Stream(rs)[..pos]), rs, pos)
  {
    hide LinesOf, Shows, WellFormed;
    if rs == [] {
      assert Stream(rs)[..pos] == [];
      NoneLeft([]);
    } else {
      var r, rest := rs[0], Stream(rs[1..]);
      var n := |r.head + r.data|;
      if pos < n {
        PartPrintsNothing(r, pos);
        assert Stream(rs)[..pos] == (r.head + r.data)[..pos];
        assert rs[..1] == [r] && [r][1..] == [];
      } else {
        EventsPrinted(rs[1..], pos - n);
        assert Stream(rs)[..pos] == r.head + r.data + rest[..pos - n];
        EventPrinted(r, rest[..pos - n]);
        var ls, more := LinesOf(Stream(rs)[..pos]), LinesOf(rest[..pos - n]);
        assert |ls| == 1 + |more|;
        assert rs[..|ls|][1..] == rs[1..][..|more|];
        if |ls| < |rs| {
          StreamPrefix(rs, |ls| + 1);
          assert rs[..|ls| + 1][1..] == rs[1..][..|more| + 1];
        }
        assert forall i :: 0 < i < |ls| ==> ls[i] == more[i - 1] && rs[i] == rs[1..][i - 1];
      }
    }
  }

  lemma {:induction false} EventsAreValid(rs: seq<Event>)
    requires AllWellFormed(rs)
    ensures Valid(Stream(rs))
  {
    if rs != [] {
      var r, rest := rs[0], Stream(rs[1..]);
      EventsAreValid(rs[1..]);
      var s := Stream(rs);
      assert WellFormed(r) && RecordLen(s) == |r.head + r.data| && s[|r.head + r.data|..] == rest;
    }
  }

  /** What the last field looks like: the data itself, or within quotes and each quote twice, if it holds one of four bytes. */
  lemma FieldIs(d: seq<byte>)
    ensures Quoted(d) ==
            if exists i :: 0 <= i < |d| && (d[i] == 34 || d[i] == 44 || d[i] == 13 || d[i] == 10)
            then [34] + Concat(seq(|d|, i requires 0 <= i < |d| => if d[i] == 34 then [34, 34] else [d[i]])) + [34]
            else d
  {
    hide Doubled, Concat;
    if NeedsQuotes(d) {
      DoubledIs(d);
    } else {
      NothingDoubled(d);
    }
  }

  lemma {:induction false} DoubledIs(d: seq<byte>)
    ensures Doubled(d) == Concat(seq(|d|, i requires 0 <= i < |d| => if d[i] == 34 then [34, 34] else [d[i]]))
  {
    if d != [] {
      var n := |d| - 1;
      DoubledIs(d[..n]);
      var before := seq(n, i requires 0 <= i < n => if d[..n][i] == 34 then [34, 34] else [d[..n][i]]);
      var last := if d[n] == 34 then [34, 34] else [d[n]];
      ConcatOne(before, last);
      assert seq(|d|, i requires 0 <= i < |d| => if d[i] == 34 then [34, 34] else [d[i]]) == before + [last];
    }
  }

  /** Cutting the stream anywhere, and carrying over what is left, prints the same lines. */
  lemma {:induction false} LinesOfPieces(a: seq<byte>, b: seq<byte>)
    ensures LinesOf(a + b) == LinesOf(a) + LinesOf(Rest(a) + b)
    decreases |a|
  {
    hide LineOf, Complete, RecordLen;
    if Complete(a) {
      FrontOnly(a, b);
      StillComplete(a, b);
      var n := RecordLen(a);
      LinesOfPieces(a[n..], b);
      assert [LineOf(a)] + (LinesOf(a[n..]) + LinesOf(Rest(a[n..]) + b)) == [LineOf(a)] + LinesOf(a[n..]) + LinesOf(Rest(a[n..]) + b);
    }
  }

  // ---------- a whole stream, with what the full buffer gives up ----------

  /**
    The lines of a stream: those of its records and, once the buffer has filled up behind a header that
    is not accepted, those of what follows the READ_BUF_LEN bytes given up.
   */
  function Printed(s: seq<byte>): seq<Line>
    decreases |s|
  {
    LinesOf(s) + (if |Rest(s)| >= READ_BUF_LEN then Printed(Rest(s)[READ_BUF_LEN..]) else [])
  }

  /** What the buffer holds at the end. */
  function Carry(s: seq<byte>): (r: seq<byte>)
    ensures |r| < READ_BUF_LEN && !Complete(r)
    decreases |s|
  {
    if |Rest(s)| >= READ_BUF_LEN then Carry(Rest(s)[READ_BUF_LEN..]) else Rest(s)
  }

  /** A header that is not accepted at the front: once there are 65536 bytes from it on, these are given up, and no others. */
  lemma GivenUp(s: seq<byte>)
    requires |s| >= 65536 && !(s[0] == 2 && s[1] == 0)
    ensures Printed(s) == Printed(s[65536..]) && Carry(s) == Carry(s[65536..])
  {
    assert !Complete(s) && LinesOf(s) == [] && Rest(s) == s;
    assert [] + Printed(s[65536..]) == Printed(s[65536..]);
  }

  lemma KeptSoFar(s: seq<byte>)
    requires 0 < |s| < 65536 && (|s| < 62 || !(s[0] == 2 && s[1] == 0))
    ensures Printed(s) == [] && Carry(s) == s
  {
    assert !Complete(s) && LinesOf(s) == [] && Rest(s) == s;
  }

  /** A rest that fills the buffer starts with a header that is not accepted, and it stays that way. */
  lemma FullIsStuck(r: seq<byte>, b: seq<byte>)
    requires |r| >= READ_BUF_LEN && !Complete(r)
    ensures LinesOf(r + b) == [] && Rest(r + b) == r + b
  {
  }

  /** Cutting any stream anywhere, and carrying over what the buffer holds, prints the same lines. */
  lemma {:induction false} PrintedOfPieces(a: seq<byte>, b: seq<byte>)
    ensures Printed(a + b) == Printed(a) + Printed(Carry(a) + b) && Carry(a + b) == Carry(Carry(a) + b)
    decreases |a|
  {
    hide Complete, LinesOf, Rest;
    LinesOfPieces(a, b);
    RecordsOfPieces(a, b);
    var r := Rest(a);
    if |r| >= READ_BUF_LEN {
      FullIsStuck(r, b);
      assert (r + b)[READ_BUF_LEN..] == r[READ_BUF_LEN..] + b;
      PrintedOfPieces(r[READ_BUF_LEN..], b);
      var more := Printed(r[READ_BUF_LEN..] + b);
      assert LinesOf(a) + [] + more == LinesOf(a) + more;
      assert LinesOf(a) + Printed(r[READ_BUF_LEN..]) + Printed(Carry(a) + b)
          == LinesOf(a) + (Printed(r[READ_BUF_LEN..]) + Printed(Carry(a) + b));
    } else {
      var x := Rest(r + b);
      var more := if |x| >= READ_BUF_LEN then Printed(x[READ_BUF_LEN..]) else [];
      assert LinesOf(a) + LinesOf(r + b) + more == LinesOf(a) + (LinesOf(r + b) + more);
      assert LinesOf(a) + [] == LinesOf(a);
    }
  }

  /** On a valid stream nothing is given up: what is left over never fills the buffer. */
  lemma ValidIsPrinted(input: seq<byte>, pos: nat)
    requires Valid(input) && pos <= |input|
    ensures Printed(input[..pos]) == LinesOf(input[..pos]) && Carry(input[..pos]) == Rest(input[..pos])
    ensures |Rest(input[..pos])| < READ_BUF_LEN - 1
  {
    assert input == input[..pos] + input[pos..];
    ValidPrefix(input[..pos], input[pos..]);
    RestIsSmall(input[..pos]);
  }

  // ---------- the reader ----------

  class Reader {
    const input: seq<byte>
    var pos: nat
    const buf: array<byte>
    var pending: nat
    /** What has been put into the last field of the line being printed. */
    var field: seq<byte>
    var lines: seq<Line>

    constructor (input: seq<byte>)
      ensures this.input == input && pos == 0 && fresh(buf) && Faithful()
    {
      this.input := input;
      pos, pending, field, lines := 0, 0, [], [];
      buf := new byte[READ_BUF_LEN];
    }

    ghost predicate Shaped()
      reads this
    {
      buf.Length == READ_BUF_LEN && pending <= READ_BUF_LEN && pos <= |input|
    }

    /** Exactly the lines of the bytes read so far have been printed; the buffer holds what is carried over. */
    ghost predicate Faithful()
      reads this, buf
    {
      Shaped() && lines == Printed(input[..pos]) && buf[..pending] == Carry(input[..pos])
    }

    /** The first loop of csv_write_field. */
    method Scan(at: nat, len: nat) returns (quoted: bool)
      requires at + len <= buf.Length
      ensures quoted == NeedsQuotes(buf[at..at + len])
    {
      quoted := false;
      var i := 0;
      while i < len
        invariant i <= len && forall k :: at <= k < at + i ==> !Special(buf[k])
      {
        if Special(buf[at + i]) {
          assert buf[at..at + len][i] == buf[at + i];
          return true;
        }
        i := i + 1;
      }
    }

    /** Its second loop. */
    method PutDoubled(at: nat, len: nat)
      requires at + len <= buf.Length
      modifies this`field
      ensures field == old(field) + Doubled(buf[at..at + len])
    {
      ghost var d := buf[at..at + len];
      var i := 0;
      assert d[..0] == [];
      while i < len
        invariant i <= len && field == old(field) + Doubled(d[..i])
      {
        if buf[at + i] == QUOTE {
          field := field + [QUOTE];
        }
        field := field + [buf[at + i]];
        assert d[..i + 1][..i] == d[..i] && d[..i + 1][i] == buf[at + i];
        i := i + 1;
      }
      assert d[..len] == d;
    }

    /** csv_write_field. */
    method CsvWriteField(at: nat, len: nat)
      requires at + len <= buf.Length
      modifies this`field
      ensures field == old(field) + Quoted(buf[at..at + len])
    {
      hide NeedsQuotes, Doubled;
      var quoted := Scan(at, len);
      if quoted {
        field := field + [QUOTE];
      }
      PutDoubled(at, len);
      if quoted {
        field := field + [QUOTE];
      }
    }

    /** print_event: the columns come from the header at off, the last field from what follows the header. */
    method PrintEvent(off: nat, h: seq<byte>)
      requires Shaped() && off + HDR <= pending && h == buf[off..off + HDR] && Complete(buf[off..pending])
      modifies this`field, this`lines
      ensures lines == old(lines) + [LineOf(buf[off..pending])]
    {
      hide Quoted;
      SubSlice(buf[..], off, pending, 0, HDR);
      HeaderOf(h, buf[off..pending]);
      field := [];
      CsvWriteField(off + HeaderLen(h), RecordLen(h) - HeaderLen(h));
      SubSlice(buf[..], off, pending, HeaderLen(h), RecordLen(h));
      assert field == Quoted(Payload(buf[off..pending]));
      lines := lines + [Line(h, field)];
    }

    /** The memmove at the end of process_buffer. */
    method Slide(off: nat)
      requires Shaped() && off <= pending
      modifies this`pending, buf
      ensures Shaped() && buf[..pending] == old(buf[off..pending])
    {
      if off > 0 {
        forall k | 0 <= k < pending - off {
          buf[k] := buf[off + k];
        }
        pending := pending - off;
      }
    }

    /** A buffer that is full is given up (lines 280 and 329). */
    method MakeRoom()
      requires Shaped()
      modifies this`pending
      ensures Shaped() && pending == if old(pending) == READ_BUF_LEN then 0 else old(pending)
    {
      if pending >= buf.Length {
        pending := 0;
      }
    }

    /** One round of the loop of process_buffer: the offset behind the record at off, or off itself to leave the loop. */
    method NextRecord(off: nat, ghost s: seq<byte>) returns (next: nat, ghost rest: seq<byte>)
      requires Shaped() && off + HDR <= pending && s == buf[off..pending]
      modifies this`field, this`lines
      ensures off <= next <= pending && rest == buf[next..pending]
      ensures lines + LinesOf(rest) == old(lines) + LinesOf(s) && Rest(rest) == Rest(s)
      ensures next == off ==> rest == s && LinesOf(s) == [] && Rest(s) == s
    {
      hide LineOf, Complete, Proper, RecordLen, HeaderLen, Version, LinesOf, Rest;
      var h := buf[off..off + HDR];
      SubSlice(buf[..], off, pending, 0, HDR);
      HeaderOf(h, s);
      if Version(h) != 2 || HeaderLen(h) < HDR || RecordLen(h) < HeaderLen(h) || RecordLen(h) > pending - off {
        NoneLeft(s);
        return off, s;
      }
      CutFront(s);
      SubSlice(buf[..], off, pending, RecordLen(h), |s|);
      PrintEvent(off, h);
      next, rest := off + RecordLen(h), s[RecordLen(h)..];
      assert old(lines) + [LineOf(s)] + LinesOf(rest) == old(lines) + ([LineOf(s)] + LinesOf(rest));
    }

    /** process_buffer: prints every complete record, keeps what is left, or drops a full buffer in which no record starts. */
    method ProcessBuffer()
      requires Shaped()
      modifies this`pending, this`field, this`lines, buf
      ensures Shaped() && lines == old(lines) + LinesOf(old(buf[..pending]))
      ensures var rest := Rest(old(buf[..pending]));
              if |rest| == READ_BUF_LEN then pending == 0 else buf[..pending] == rest
    {
      hide LinesOf, Rest;
      var off := 0;
      ghost var b := buf[..pending];
      ghost var s := b;
      assert buf[off..pending] == s;
      while pending - off >= HDR
        invariant Shaped() && off <= pending && pending == |b| && buf[..] == old(buf[..])
        invariant s == buf[off..pending] && lines + LinesOf(s) == old(lines) + LinesOf(b) && Rest(s) == Rest(b)
        decreases pending - off
      {
        var next;
        next, s := NextRecord(off, s);
        if next == off {
          break;
        }
        off := next;
      }
      if pending - off < HDR {
        NoneLeft(s);
      }
      Slide(off);
      MakeRoom();
    }

    /** read() into the free part of the buffer: it fails, finds nothing more, or delivers some bytes. */
    method ReadMore() returns (len: int)
      requires Shaped()
      modifies this`pos, buf
      ensures Shaped() && -1 <= len <= READ_BUF_LEN - pending && pos == old(pos) + (if len > 0 then len else 0)
      ensures buf[..pending] == old(buf[..pending])
      ensures len > 0 ==> buf[pending..pending + len] == input[old(pos)..pos]
    {
      len :| -1 <= len <= READ_BUF_LEN - pending && len <= |input| - pos;
      if len > 0 {
        forall k | 0 <= k < len {
          buf[pending + k] := input[pos + k];
        }
        pos := pos + len;
      }
    }

    /** What a read has just put behind the pending bytes is processed with them. */
    method Process(len: nat, ghost start: nat)
      requires Shaped() && pending + len <= buf.Length && start + len == pos && lines == Printed(input[..start])
      requires buf[..pending] == Carry(input[..start]) && buf[pending..pending + len] == input[start..pos]
      modifies this`pending, this`field, this`lines, buf
      ensures Faithful()
    {
      hide Printed, Carry, LinesOf, Rest;
      assert buf[..pending + len] == buf[..pending] + input[start..pos];
      OneMoreRead(input, start, pos);
      pending := pending + len;
      OneBuffer(buf[..pending]);
      ProcessBuffer();
    }

    /**
      The inner loop of read_loop, for one time the queue is readable.  Up to signals reads are
      interrupted; a read that fails otherwise sets exiting.
     */
    method Drain(signals: nat) returns (exiting: bool)
      requires Faithful()
      modifies this, buf
      ensures Faithful() && old(pos) <= pos
    {
      hide Printed, Carry, LinesOf, Rest;
      exiting := false;
      var left: nat := signals;
      while true
        invariant Faithful() && old(pos) <= pos <= |input|
        decreases left + |input| - pos
      {
        MakeRoom();
        var len := ReadMore();
        if len < 0 {
          if left > 0 {
            left := left - 1;
            continue;
          }
          exiting := true;
          return;
        }
        if len == 0 {
          return;
        }
        Process(len, pos - len);
        if len < buf.Length - pending {
          return;
        }
      }
    }
  }

  /**
    read_loop: signals[i] reads are interrupted in round i.  Whatever pieces the reads delivered, the lines
    of the bytes read have been printed; on a valid stream, one for every complete record, in order.
   */
  method ReadLoop(input: seq<byte>, signals: seq<nat>) returns (lines: seq<Line>, pos: nat)
    ensures pos <= |input| && lines == Printed(input[..pos])
    ensures Valid(input) ==> lines == LinesOf(input[..pos]) && |lines| == |Records(input[..pos])|
    ensures forall rs :: AllWellFormed(rs) && Stream(rs) == input ==> PrintedUpTo(lines, rs, pos)
  {
    hide Valid, LinesOf, Rest, Printed, Carry, Stream, PrintedUpTo, AllWellFormed;
    var r := new Reader(input);
    var i, exiting := 0, false;
    while i < |signals| && !exiting
      invariant r.Faithful() && r.input == input && fresh(r) && fresh(r.buf)
    {
      exiting := r.Drain(signals[i]);
      i := i + 1;
    }
    lines, pos := r.lines, r.pos;
    if Valid(input) {
      ValidIsPrinted(input, pos);
    }
    LinesAreRecords(input[..pos], 0, []);
    forall rs | AllWellFormed(rs) && Stream(rs) == input
      ensures PrintedUpTo(lines, rs, pos)
    {
      EventsAreValid(rs);
      EventsPrinted(rs, pos);
    }
  }

  lemma {:induction false} StreamPrefix(rs: seq<Event>, n: nat)
    requires n <= |rs|
    ensures |Stream(rs[..n])| <= |Stream(rs)|
  {
    if n > 0 {
      StreamPrefix(rs[1..], n - 1);
      assert rs[..n][1..] == rs[1..][..n - 1];
    }
  }

  lemma SubSlice(b: seq<byte>, lo: nat, hi: nat, from: nat, to: nat)
    requires lo <= hi <= |b| && from <= to <= hi - lo
    ensures b[lo..hi][from..to] == b[lo + from..lo + to]
    ensures to == hi - lo ==> b[lo..hi][from..] == b[lo + from..hi]
  {
    assert forall k :: from <= k < hi - lo ==> b[lo..hi][k] == b[lo + k];
  }

  /** The test of process_buffer on the header alone. */
  lemma HeaderOf(h: seq<byte>, s: seq<byte>)
    requires |s| >= HDR && h == s[..HDR]
    ensures HeaderLen(h) == HeaderLen(s) && RecordLen(h) == RecordLen(s)
    ensures Complete(s) <==> Version(h) == 2 && HeaderLen(h) >= HDR && RecordLen(h) >= HeaderLen(h) && RecordLen(h) <= |s|
    ensures Complete(s) ==> HDR <= HeaderLen(h) <= RecordLen(h) <= |s|
  {
  }

  lemma CutFront(s: seq<byte>)
    requires Complete(s)
    ensures HDR <= RecordLen(s) <= |s| && Rest(s) == Rest(s[RecordLen(s)..])
    ensures LinesOf(s) == [LineOf(s)] + LinesOf(s[RecordLen(s)..])
  {
  }

  lemma NoneLeft(s: seq<byte>)
    requires |s| >= HDR ==> !Complete(s)
    ensures LinesOf(s) == [] && Rest(s) == s
  {
  }

  /** One buffer of bytes: at most all of it is given up. */
  lemma OneBuffer(s: seq<byte>)
    requires |s| <= READ_BUF_LEN
    ensures Printed(s) == LinesOf(s) && Carry(s) == if |Rest(s)| == READ_BUF_LEN then [] else Rest(s)
  {
  }

  lemma OneMoreRead(input: seq<byte>, from: nat, to: nat)
    requires from <= to <= |input|
    ensures Printed(input[..to]) == Printed(input[..from]) + Printed(Carry(input[..from]) + input[from..to])
    ensures Carry(input[..to]) == Carry(Carry(input[..from]) + input[from..to])
  {
    assert input[..to] == input[..from] + input[from..to];
    PrintedOfPieces(input[..from], input[from..to]);
  }
}
