/**
  QMI messages of QMIThread.c: requests written field by field into a 256-byte buffer, strings
  copied together with their NUL, and GetTLV, which finds a field in a message again.
 */
module Tlv {
  import opened Bytes

  /** One type-length-value field. */
  datatype Field = Field(kind: byte, value: seq<byte>)

  const TLV_HDR := 3
  const INDEX_BASE := 0x1000
  const BUFSIZE := 256
  const HEADER_AT := 9
  const TLVS_AT := 13

  function Encode(f: Field): (s: seq<byte>)
    ensures |s| == TLV_HDR + |f.value|
  {
    [f.kind, Lo(|f.value|), Hi(|f.value|)] + f.value
  }

  function EncodeAll(fs: seq<Field>): seq<byte> {
    if fs == [] then [] else EncodeAll(fs[..|fs| - 1]) + Encode(fs[|fs| - 1])
  }

  // ---------- looking fields up ----------

  function LengthAt(s: seq<byte>): nat
    requires |s| >= TLV_HDR
  {
    s[1] as nat + 256 * s[2] as nat
  }

  /** What a lookup ends with: a place, NULL, or a header that is not inside what it may look at. */
  datatype Lookup = Found(at: nat) | Null | Astray

  /** The test on field number n, counted from 1: by index above 0x1000, by type below. */
  predicate Matches(kind: byte, n: nat, tlvType: nat) {
    if tlvType > INDEX_BASE then n + INDEX_BASE == tlvType else kind as nat == tlvType
  }

  /** GetTLV on the bytes s of a message: n fields have been passed, at is where s starts; Astray where Length underflows. */
  function Scan(s: seq<byte>, tlvType: nat, n: nat, at: nat): Lookup
    decreases |s|
  {
    if |s| < TLV_HDR then Null
    else if Matches(s[0], n + 1, tlvType) then Found(at)
    else if TLV_HDR + LengthAt(s) > |s| then Astray
    else Scan(s[TLV_HDR + LengthAt(s)..], tlvType, n + 1, at + TLV_HDR + LengthAt(s))
  }

  /** GetTLV in memory, whatever it holds: Length has 16 bits and wraps round, the pointer does not. */
  function Walk(mem: seq<byte>, at: nat, length: nat, tlvType: nat, n: nat): Lookup
    decreases |mem| - at
  {
    if length < TLV_HDR then Null
    else if at + TLV_HDR > |mem| then Astray
    else if Matches(mem[at], n + 1, tlvType) then Found(at)
    else
      var step := mem[at + 1] as nat + 256 * mem[at + 2] as nat + TLV_HDR;
      Walk(mem, at + step, (length - step) % 65536, tlvType, n + 1)
  }

  /** GetTLV on the message header at hdr; Astray where it would look behind the memory that it was given. */
  method GetTlv(mem: array<byte>, hdr: nat, tlvType: nat) returns (r: Lookup)
    requires hdr + 4 <= mem.Length
    ensures r == Walk(mem[..], hdr + 4, mem[hdr + 2] as nat + 256 * mem[hdr + 3] as nat, tlvType, 0)
  {
    var find := 0;
    var length := mem[hdr + 2] as nat + 256 * mem[hdr + 3] as nat;
    var at := hdr + 4;
    while length >= TLV_HDR
      invariant 0 <= length
      invariant Walk(mem[..], hdr + 4, mem[hdr + 2] as nat + 256 * mem[hdr + 3] as nat, tlvType, 0) == Walk(mem[..], at, length, tlvType, find)
      decreases mem.Length - at
    {
      if at + TLV_HDR > mem.Length {
        return Astray;
      }
      find := find + 1;
      if tlvType > INDEX_BASE {
        if find + INDEX_BASE == tlvType {
          return Found(at);
        }
      } else if mem[at] as nat == tlvType {
        return Found(at);
      }
      var step := mem[at + 1] as nat + 256 * mem[at + 2] as nat + TLV_HDR;
      length := (length - step) % 65536;
      at := at + step;
    }
    return Null;
  }

  // ---------- messages that do not tile ----------

  /** By how much the last field of a message runs past its end. */
  function Excess(s: seq<byte>): nat
    decreases |s|
  {
    if |s| < TLV_HDR then 0
    else if TLV_HDR + LengthAt(s) > |s| then TLV_HDR + LengthAt(s) - |s|
    else Excess(s[TLV_HDR + LengthAt(s)..])
  }

  /** Fields follow each other without running past the end; fewer than three bytes may be left over. */
  predicate Tiled(s: seq<byte>) { Excess(s) == 0 }

  /** No header on the way, the last one included, matches. */
  predicate Absent(s: seq<byte>, tlvType: nat, n: nat)
    decreases |s|
  {
    |s| < TLV_HDR ||
    (!Matches(s[0], n + 1, tlvType) &&
     (TLV_HDR + LengthAt(s) <= |s| ==> Absent(s[TLV_HDR + LengthAt(s)..], tlvType, n + 1)))
  }

  /** Length underflows exactly if the fields do not tile the message and none of them matches. */
  lemma {:induction false} UnderflowsIff(s: seq<byte>, tlvType: nat, n: nat, at: nat)
    ensures Scan(s, tlvType, n, at) == Astray <==> !Tiled(s) && Absent(s, tlvType, n)
    ensures Scan(s, tlvType, n, at) == Null <==> Tiled(s) && Absent(s, tlvType, n)
    decreases |s|
  {
    if |s| >= TLV_HDR && TLV_HDR + LengthAt(s) <= |s| {
      UnderflowsIff(s[TLV_HDR + LengthAt(s)..], tlvType, n + 1, at + TLV_HDR + LengthAt(s));
    }
  }

  lemma HeaderInMemory(pre: seq<byte>, s: seq<byte>, post: seq<byte>)
    requires |s| >= TLV_HDR
    ensures var mem := pre + s + post; mem[|pre|] == s[0] && mem[|pre| + 1] == s[1] && mem[|pre| + 2] == s[2]
  {
  }

  lemma PastField(pre: seq<byte>, s: seq<byte>, post: seq<byte>, step: nat)
    requires step <= |s| < 65536
    ensures pre + s + post == (pre + s[..step]) + s[step..] + post && (|s| - step) % 65536 == |s[step..]|
  {
  }

  /** While Length does not underflow, the walk stays inside the message, whatever lies before and behind it. */
  lemma {:induction false} WalkIsScan(pre: seq<byte>, s: seq<byte>, post: seq<byte>, tlvType: nat, n: nat)
    requires |s| < 65536 && Scan(s, tlvType, n, |pre|) != Astray
    ensures Walk(pre + s + post, |pre|, |s|, tlvType, n) == Scan(s, tlvType, n, |pre|)
    decreases |s|
  {
    if |s| >= TLV_HDR {
      var step := TLV_HDR + LengthAt(s);
      HeaderInMemory(pre, s, post);
      if !Matches(s[0], n + 1, tlvType) {
        PastField(pre, s, post, step);
        WalkIsScan(pre + s[..step], s[step..], post, tlvType, n + 1);
      }
    }
  }

  /**
    Exactly when the walk leaves a message with nothing behind it: no field matches and the last one runs
    past the end.  Only an excess of more than 65533 makes Length wrap to less than a header, which ends
    the loop.
   */
  lemma {:induction false} StraysIff(pre: seq<byte>, s: seq<byte>, tlvType: nat, n: nat)
    requires |s| < 65536
    ensures Walk(pre + s, |pre|, |s|, tlvType, n) == Astray <==> Absent(s, tlvType, n) && 0 < Excess(s) <= 65533
    decreases |s|
  {
    if |s| >= TLV_HDR {
      var step := TLV_HDR + LengthAt(s);
      HeaderInMemory(pre, s, []);
      assert pre + s + [] == pre + s;
      if step > |s| {
        Wraps(|s|, step);
      } else if !Matches(s[0], n + 1, tlvType) {
        PastField(pre, s, [], step);
        assert (pre + s[..step]) + s[step..] + [] == (pre + s[..step]) + s[step..];
        StraysIff(pre + s[..step], s[step..], tlvType, n + 1);
      }
    }
  }

  /** 16-bit underflow. */
  lemma Wraps(length: nat, step: nat)
    requires TLV_HDR <= length < step <= 65535 + TLV_HDR && length < 65536
    ensures (length - step) % 65536 == 65536 - (step - length)
  {
  }

  /** The shortest such message: one field of length 1 without its value. */
  lemma OneByteMissing(kind: byte, tlvType: nat)
    requires tlvType <= INDEX_BASE && kind as nat != tlvType
    ensures Walk([kind, 1, 0], 0, 3, tlvType, 0) == Astray
  {
  }

  /** The index of the first field of a type, or the number of fields. */
  function FirstOf(fs: seq<Field>, kind: nat): (k: nat)
    ensures k <= |fs| && (k < |fs| ==> fs[k].kind as nat == kind) && forall i :: 0 <= i < k ==> fs[i].kind as nat != kind
  {
    if fs == [] || fs[0].kind as nat == kind then 0 else 1 + FirstOf(fs[1..], kind)
  }

  lemma {:induction false} EncodeFront(fs: seq<Field>)
    requires fs != []
    ensures EncodeAll(fs) == Encode(fs[0]) + EncodeAll(fs[1..])
  {
    if |fs| == 1 {
      assert fs[..0] == [] && fs[1..] == [];
      assert [] + Encode(fs[0]) == Encode(fs[0]) + [];
    } else {
      var n := |fs| - 1;
      EncodeFront(fs[..n]);
      assert fs[..n][1..] == fs[1..][..n - 1] && fs[..n][0] == fs[0] && fs[1..][n - 1] == fs[n];
      assert Encode(fs[0]) + EncodeAll(fs[1..][..n - 1]) + Encode(fs[n])
          == Encode(fs[0]) + (EncodeAll(fs[1..][..n - 1]) + Encode(fs[n]));
    }
  }

  lemma HeadField(f: Field, rest: seq<byte>)
    requires |f.value| < 65536
    ensures var s := Encode(f) + rest;
            |s| >= TLV_HDR && s[0] == f.kind && LengthAt(s) == |f.value| && s[TLV_HDR + |f.value|..] == rest
  {
  }

  predicate Short(fs: seq<Field>) { forall i :: 0 <= i < |fs| ==> |fs[i].value| < 65536 }

  lemma {:induction false} EncodedIsTiled(fs: seq<Field>)
    requires Short(fs)
    ensures Tiled(EncodeAll(fs))
  {
    if fs != [] {
      EncodeFront(fs);
      HeadField(fs[0], EncodeAll(fs[1..]));
      EncodedIsTiled(fs[1..]);
    }
  }

  /** Where field k of the encoded fields starts, counted from at. */
  function Start(fs: seq<Field>, k: int, at: nat): Lookup {
    if 0 <= k < |fs| then Found(at + |EncodeAll(fs[..k])|) else Null
  }

  lemma StartInTail(fs: seq<Field>, k: int, at: nat)
    requires fs != [] && k > 0
    ensures Start(fs, k, at) == Start(fs[1..], k - 1, at + TLV_HDR + |fs[0].value|)
  {
    if k < |fs| {
      EncodeFront(fs[..k]);
      assert fs[..k][1..] == fs[1..][..k - 1];
    }
  }

  lemma StartOfFirst(fs: seq<Field>, at: nat)
    requires fs != []
    ensures Start(fs, 0, at) == Found(at)
  {
  }

  lemma ScanStep(fs: seq<Field>, tlvType: nat, n: nat, at: nat)
    requires fs != [] && Short(fs)
    ensures Tiled(EncodeAll(fs)) && Tiled(EncodeAll(fs[1..]))
    ensures Scan(EncodeAll(fs), tlvType, n, at) ==
            if Matches(fs[0].kind, n + 1, tlvType) then Found(at)
            else Scan(EncodeAll(fs[1..]), tlvType, n + 1, at + TLV_HDR + |fs[0].value|)
  {
    hide Encode, EncodeAll, Scan;
    EncodedIsTiled(fs);
    EncodedIsTiled(fs[1..]);
    EncodeFront(fs);
    HeadField(fs[0], EncodeAll(fs[1..]));
    ScanUnfolded(EncodeAll(fs), tlvType, n, at);
  }

  lemma ScanUnfolded(s: seq<byte>, tlvType: nat, n: nat, at: nat)
    requires Tiled(s) && |s| >= TLV_HDR
    ensures Scan(s, tlvType, n, at) ==
            if Matches(s[0], n + 1, tlvType) then Found(at)
            else Scan(s[TLV_HDR + LengthAt(s)..], tlvType, n + 1, at + TLV_HDR + LengthAt(s))
  {
  }

  /** The scan over encoded fields stops at the first field of the type asked for, and finds nothing exactly when there is none. */
  lemma {:induction false} ScanFindsKind(fs: seq<Field>, tlvType: nat, n: nat, at: nat)
    requires Short(fs) && tlvType <= INDEX_BASE
    ensures Tiled(EncodeAll(fs)) && Scan(EncodeAll(fs), tlvType, n, at) == Start(fs, FirstOf(fs, tlvType), at)
  {
    if fs != [] {
      hide Scan, Start, EncodeAll;
      ScanStep(fs, tlvType, n, at);
      if fs[0].kind as nat == tlvType {
        StartOfFirst(fs, at);
      } else {
        ScanFindsKind(fs[1..], tlvType, n + 1, at + TLV_HDR + |fs[0].value|);
        StartInTail(fs, FirstOf(fs, tlvType), at);
      }
    }
  }

  lemma ScanNothing(tlvType: nat, n: nat, at: nat)
    ensures EncodeAll([]) == [] && Tiled([])
    ensures tlvType > INDEX_BASE + n ==> Scan([], tlvType, n, at) == Start([], tlvType - INDEX_BASE - 1 - n, at)
  {
  }

  /** Asked for the index 0x1000 + i, the scan returns the fields in order. */
  lemma {:induction false} ScanFindsIndex(fs: seq<Field>, tlvType: nat, n: nat, at: nat)
    requires Short(fs) && tlvType > INDEX_BASE + n
    ensures Tiled(EncodeAll(fs)) && Scan(EncodeAll(fs), tlvType, n, at) == Start(fs, tlvType - INDEX_BASE - 1 - n, at)
  {
    hide Scan, Start, EncodeAll;
    if fs == [] {
      ScanNothing(tlvType, n, at);
    } else {
      ScanStep(fs, tlvType, n, at);
      if n + 1 + INDEX_BASE == tlvType {
        StartOfFirst(fs, at);
      } else {
        ScanFindsIndex(fs[1..], tlvType, n + 1, at + TLV_HDR + |fs[0].value|);
        StartInTail(fs, tlvType - INDEX_BASE - 1 - n, at);
      }
    }
  }

  /** At the start of field k lie its type, its length and its value. */
  lemma FieldAtStart(fs: seq<Field>, k: nat)
    requires k < |fs|
    ensures var at := |EncodeAll(fs[..k])|;
            at + |Encode(fs[k])| <= |EncodeAll(fs)| && EncodeAll(fs)[at..at + |Encode(fs[k])|] == Encode(fs[k])
    decreases |fs|
  {
    hide Encode;
    var n := |fs| - 1;
    var at := |EncodeAll(fs[..k])|;
    assert EncodeAll(fs) == EncodeAll(fs[..n]) + Encode(fs[n]);
    if k < n {
      FieldAtStart(fs[..n], k);
      assert fs[..n][..k] == fs[..k];
      assert EncodeAll(fs)[at..at + |Encode(fs[k])|] == EncodeAll(fs[..n])[at..at + |Encode(fs[k])|];
    }
  }

  // ---------- composing requests ----------

  /** The profile fields that go into a request; the numbers are the C program's ints. */
  datatype Profile = Profile(apn: Option<seq<byte>>, user: Option<seq<byte>>, password: Option<seq<byte>>,
                             auth: nat, iptype: nat, curIpFamily: nat, pdp: nat)

  /** C strings hold no NUL. */
  predicate CString(s: Option<seq<byte>>) { s.Some? ==> forall i :: 0 <= i < |s.value| ==> s.value[i] != 0 }

  predicate CStrings(p: Profile) { CString(p.apn) && CString(p.user) && CString(p.password) }

  const CDMA_USER: seq<byte> := [99, 116, 110, 101, 116, 64, 109, 121, 99, 100, 109, 97, 46, 99, 110]
  const CDMA_PASSWORD: seq<byte> := [118, 110, 101, 116, 46, 109, 111, 98, 105]
  const CHAP := 2

  predicate Blank(s: Option<seq<byte>>) { s == None || s.value == [] }

  /** Lines 191 to 199: the account of the CDMA network when the profile names none. */
  function Account(p: Profile, cdma: bool): Profile {
    if cdma && Blank(p.user) && Blank(p.password)
    then p.(user := Some(CDMA_USER), password := Some(CDMA_PASSWORD), auth := CHAP)
    else p
  }

  function TextField(kind: byte, s: Option<seq<byte>>): seq<Field> {
    if s.Some? then [Field(kind, s.value)] else []
  }

  /** The user, password and authentication fields, in this order, under the given types. */
  function AccountFields(p: Profile, userKind: byte, passwordKind: byte, authKind: byte): seq<Field> {
    TextField(userKind, p.user) + TextField(passwordKind, p.password) +
    (if p.user.Some? && p.password.Some? then [Field(authKind, [Lo(p.auth)])] else [])
  }

  /** What a StartNetworkInterface request is to say. */
  function StartFields(p0: Profile, cdma: bool): seq<Field> {
    var p := Account(p0, cdma);
    [Field(0x30, [if cdma then 2 else 1])] +
    (if cdma then [] else TextField(0x14, p.apn)) +
    AccountFields(p, 0x17, 0x18, 0x16) +
    [Field(0x19, [Lo(p.curIpFamily)])] +
    (if p.pdp != 0 && !cdma then [Field(0x31, [Lo(p.pdp)])] else [])
  }

  /** What a ModifyProfileSettings request is to say. */
  function ModifyFields(p: Profile): seq<Field> {
    [Field(0x01, [0, Lo(p.pdp)])] + [Field(0x11, [Lo(p.iptype)])] + TextField(0x14, p.apn) +
    AccountFields(p, 0x1B, 0x1C, 0x1D)
  }

  /** A field written behind the fields so far. */
  lemma OneFieldMore(b: seq<byte>, fs: seq<Field>, f: Field)
    requires TLVS_AT + |EncodeAll(fs)| + |Encode(f)| <= |b|
    requires var p := TLVS_AT + |EncodeAll(fs)|; b[TLVS_AT..p] == EncodeAll(fs) && b[p..p + |Encode(f)|] == Encode(f)
    ensures var n := |EncodeAll(fs)| + |Encode(f)|;
            |EncodeAll(fs + [f])| == n && b[TLVS_AT..TLVS_AT + n] == EncodeAll(fs + [f])
  {
  }

  lemma IsEncoded(b: seq<byte>, p: nat, f: Field)
    requires p + TLV_HDR + |f.value| <= |b|
    requires b[p] == f.kind && b[p + 1] == Lo(|f.value|) && b[p + 2] == Hi(|f.value|)
    requires b[p + TLV_HDR..p + TLV_HDR + |f.value|] == f.value
    ensures b[p..p + TLV_HDR + |f.value|] == Encode(f)
  {
  }

  class Composer {
    const buf: array<byte>
    var tlvLength: nat
    ghost var fields: seq<Field>

    constructor ()
      ensures Valid() && fields == [] && fresh(buf)
    {
      buf := new byte[BUFSIZE](i => 0);
      tlvLength, fields := 0, [];
    }

    /** The buffer holds the fields so far, encoded, from TLVS_AT on; a NUL may lie behind them. */
    ghost predicate Valid()
      reads this, buf
    {
      && buf.Length == BUFSIZE && tlvLength == |EncodeAll(fields)| && TLVS_AT + tlvLength <= BUFSIZE
      && buf[TLVS_AT..TLVS_AT + tlvLength] == EncodeAll(fields)
    }

    /** qstrcpy to index to: every character, then the NUL. */
    method Qstrcpy(to: nat, from: seq<byte>)
      requires buf.Length == BUFSIZE && to + |from| < BUFSIZE
      modifies buf
      ensures buf[to..to + |from|] == from && buf[to + |from|] == 0
      ensures forall k :: 0 <= k < BUFSIZE && !(to <= k <= to + |from|) ==> buf[k] == old(buf[k])
    {
      var i := 0;
      while i < |from|
        invariant i <= |from| && buf[to..to + i] == from[..i]
        invariant forall k :: 0 <= k < BUFSIZE && !(to <= k < to + i) ==> buf[k] == old(buf[k])
      {
        buf[to + i] := from[i];
        i := i + 1;
      }
      buf[to + i] := 0;
    }

    /** A one-byte field: type, length, value. */
    method PutByte(kind: byte, value: byte)
      requires Valid() && TLVS_AT + tlvLength + TLV_HDR + 1 <= BUFSIZE
      modifies this, buf
      ensures Valid() && fields == old(fields) + [Field(kind, [value])]
      ensures forall k :: 0 <= k < TLVS_AT ==> buf[k] == old(buf[k])
    {
      hide EncodeAll;
      var p := TLVS_AT + tlvLength;
      buf[p], buf[p + 1], buf[p + 2], buf[p + 3] := kind, 1, 0, value;
      assert buf[..][TLVS_AT..p] == EncodeAll(fields) && buf[..][p..p + 4] == Encode(Field(kind, [value]));
      OneFieldMore(buf[..], fields, Field(kind, [value]));
      tlvLength := tlvLength + 1 + TLV_HDR;
      fields := fields + [Field(kind, [value])];
    }

    /** The bytes of a string field at index p, and its NUL behind them. */
    method WriteText(p: nat, kind: byte, text: seq<byte>)
      requires buf.Length == BUFSIZE && p + TLV_HDR + |text| < BUFSIZE
      modifies buf
      ensures buf[..][p..p + TLV_HDR + |text|] == Encode(Field(kind, text)) && buf[p + TLV_HDR + |text|] == 0
      ensures forall k :: 0 <= k < BUFSIZE && !(p <= k <= p + TLV_HDR + |text|) ==> buf[k] == old(buf[k])
    {
      buf[p], buf[p + 1], buf[p + 2] := kind, Lo(|text|), Hi(|text|);
      Qstrcpy(p + TLV_HDR, text);
      IsEncoded(buf[..], p, Field(kind, text));
    }

    /** A string field, if there is a string; its NUL lies where the next field begins. */
    method PutText(kind: byte, s: Option<seq<byte>>)
      requires Valid() && (s.Some? ==> TLVS_AT + tlvLength + TLV_HDR + |s.value| < BUFSIZE)
      modifies this, buf
      ensures Valid() && fields == old(fields) + TextField(kind, s)
      ensures forall k :: 0 <= k < TLVS_AT ==> buf[k] == old(buf[k])
    {
      hide EncodeAll, Encode;
      if s.Some? {
        var p := TLVS_AT + tlvLength;
        ghost var before, f := buf[TLVS_AT..p], Field(kind, s.value);
        WriteText(p, kind, s.value);
        assert buf[..][TLVS_AT..p] == before;
        OneFieldMore(buf[..], fields, f);
        tlvLength := tlvLength + |s.value| + TLV_HDR;
        fields := fields + [f];
      }
    }

    /** The first field of a ModifyProfileSettings request, which its struct declares: profile type and index. */
    method PutPair(kind: byte, first: byte, second: byte)
      requires Valid() && TLVS_AT + tlvLength + TLV_HDR + 2 <= BUFSIZE
      modifies this, buf
      ensures Valid() && fields == old(fields) + [Field(kind, [first, second])]
      ensures forall k :: 0 <= k < TLVS_AT ==> buf[k] == old(buf[k])
    {
      hide EncodeAll;
      var p := TLVS_AT + tlvLength;
      buf[p], buf[p + 1], buf[p + 2], buf[p + 3], buf[p + 4] := kind, 2, 0, first, second;
      assert buf[..][TLVS_AT..p] == EncodeAll(fields) && buf[..][p..p + 5] == Encode(Field(kind, [first, second]));
      OneFieldMore(buf[..], fields, Field(kind, [first, second]));
      tlvLength := tlvLength + 2 + TLV_HDR;
      fields := fields + [Field(kind, [first, second])];
    }

    /** User name, password, and how to authenticate if both are there. */
    method PutAccount(p: Profile, userKind: byte, passwordKind: byte, authKind: byte)
      requires Valid() && Fits(fields + AccountFields(p, userKind, passwordKind, authKind))
      requires IsText(userKind) && IsText(passwordKind)
      modifies this, buf
      ensures Valid() && fields == old(fields) + AccountFields(p, userKind, passwordKind, authKind)
      ensures forall k :: 0 <= k < TLVS_AT ==> buf[k] == old(buf[k])
    {
      hide EncodeAll, Encode;
      var u, w := TextField(userKind, p.user), TextField(passwordKind, p.password);
      var a := if p.user.Some? && p.password.Some? then [Field(authKind, [Lo(p.auth)])] else [];
      ghost var all := fields + AccountFields(p, userKind, passwordKind, authKind);
      assert AccountFields(p, userKind, passwordKind, authKind) == u + w + a;
      assert fields + u + (w + a) == all;
      RoomFor(fields, userKind, p.user, w + a);
      PutText(userKind, p.user);
      assert fields + w + a == all;
      RoomFor(fields, passwordKind, p.password, a);
      PutText(passwordKind, p.password);
      if p.user.Some? && p.password.Some? {
        assert fields + [a[0]] + [] == all;
        RoomForByte(fields, a[0], []);
        PutByte(authKind, Lo(p.auth));
      }
    }

    /** WdsStartNwInterfaceReq. */
    method StartNwInterface(p0: Profile, cdma: bool)
      requires Valid() && fields == [] && Fits(StartFields(p0, cdma))
      modifies this, buf
      ensures Valid() && fields == StartFields(p0, cdma)
      ensures forall k :: 0 <= k < TLVS_AT ==> buf[k] == old(buf[k])
    {
      hide EncodeAll, Encode, AccountFields, Fits, Account;
      var p := Account(p0, cdma);
      var tech := Field(0x30, [if cdma then 2 else 1]);
      ghost var apn := if cdma then [] else TextField(0x14, p.apn);
      ghost var acc := AccountFields(p, 0x17, 0x18, 0x16);
      var family := Field(0x19, [Lo(p.curIpFamily)]);
      ghost var index := if p.pdp != 0 && !cdma then [Field(0x31, [Lo(p.pdp)])] else [];
      ghost var all := StartFields(p0, cdma);
      assert all == [] + [tech] + (apn + acc + [family] + index);
      RoomForByte([], tech, apn + acc + [family] + index);
      PutByte(0x30, if cdma then 2 else 1);
      if !cdma {
        assert all == fields + apn + (acc + [family] + index);
        RoomFor(fields, 0x14, p.apn, acc + [family] + index);
        PutText(0x14, p.apn);
      }
      assert all == (fields + acc) + ([family] + index);
      FitsPrefix(fields + acc, [family] + index);
      PutAccount(p, 0x17, 0x18, 0x16);
      assert all == fields + [family] + index;
      RoomForByte(fields, family, index);
      PutByte(0x19, Lo(p.curIpFamily));
      if p.pdp != 0 && !cdma {
        assert all == fields + [index[0]] + [];
        RoomForByte(fields, index[0], []);
        PutByte(0x31, Lo(p.pdp));
      }
    }

    /** WdsModifyProfileSettingsReq. */
    method ModifyProfileSettings(p: Profile)
      requires Valid() && fields == [] && Fits(ModifyFields(p))
      modifies this, buf
      ensures Valid() && fields == ModifyFields(p)
      ensures forall k :: 0 <= k < TLVS_AT ==> buf[k] == old(buf[k])
    {
      hide EncodeAll, Encode, AccountFields;
      var profile, pdpType := Field(0x01, [0, Lo(p.pdp)]), Field(0x11, [Lo(p.iptype)]);
      ghost var apn := TextField(0x14, p.apn);
      ghost var acc := AccountFields(p, 0x1B, 0x1C, 0x1D);
      ghost var all := ModifyFields(p);
      assert all == [] + [profile] + ([pdpType] + apn + acc);
      RoomForByte([], profile, [pdpType] + apn + acc);
      PutPair(0x01, 0, Lo(p.pdp));
      assert all == fields + [pdpType] + (apn + acc);
      RoomForByte(fields, pdpType, apn + acc);
      PutByte(0x11, Lo(p.iptype));
      assert all == fields + apn + acc;
      RoomFor(fields, 0x14, p.apn, acc);
      PutText(0x14, p.apn);
      assert all == fields + acc;
      PutAccount(p, 0x1B, 0x1C, 0x1D);
    }

    /** The header fields of ComposeQMUXMsg. */
    method PutHeader(qmiType: byte, msgType: nat, transactionId: nat, n: nat)
      requires buf.Length == BUFSIZE
      modifies buf
      ensures buf[..TLVS_AT] == MessageHeader(qmiType, msgType, transactionId, n)
      ensures forall k :: TLVS_AT <= k < BUFSIZE ==> buf[k] == old(buf[k])
    {
      var h := MessageHeader(qmiType, msgType, transactionId, n);
      forall k | 0 <= k < TLVS_AT {
        buf[k] := h[k];
      }
    }

    /** The rest of ComposeQMUXMsg: headers before the fields, and a copy of exactly the message. */
    method Finish(qmiType: byte, msgType: nat, transactionId: nat) returns (msg: array<byte>)
      requires Valid()
      modifies buf
      ensures fresh(msg) && msg[..] == MessageHeader(qmiType, msgType, transactionId, |EncodeAll(fields)|) + EncodeAll(fields)
    {
      hide EncodeAll, MessageHeader;
      ghost var text := EncodeAll(fields);
      var n := tlvLength;
      PutHeader(qmiType, msgType, transactionId, n);
      assert buf[TLVS_AT..TLVS_AT + n] == text;
      msg := new byte[n + TLVS_AT];
      forall k | 0 <= k < msg.Length {
        msg[k] := buf[k];
      }
      assert msg[..] == buf[..TLVS_AT] + buf[TLVS_AT..TLVS_AT + n];
    }
  }

  /** QMI header (type, length, flags, service, client), QMUX header (flags, transaction), message type and length. */
  function MessageHeader(qmiType: byte, msgType: nat, transactionId: nat, n: nat): (h: seq<byte>)
    ensures |h| == TLVS_AT
  {
    [1, Lo(n + 12), Hi(n + 12), 0, qmiType, 0] + [0, Lo(transactionId), Hi(transactionId)] +
    [Lo(msgType), Hi(msgType), Lo(n), Hi(n)]
  }

  /** The types of string fields, which are written with a NUL behind them. */
  predicate IsText(kind: byte) { kind == 0x14 || kind == 0x17 || kind == 0x18 || kind == 0x1B || kind == 0x1C }

  /** The message fits the buffer, with the NUL behind it if a string comes last. */
  ghost predicate Fits(fs: seq<Field>) {
    TLVS_AT + |EncodeAll(fs)| + (if fs != [] && IsText(fs[|fs| - 1].kind) then 1 else 0) <= BUFSIZE
  }

  lemma {:induction false} EncodeJoin(a: seq<Field>, b: seq<Field>)
    ensures EncodeAll(a + b) == EncodeAll(a) + EncodeAll(b)
  {
    if b == [] {
      assert a + b == a;
    } else {
      hide Encode;
      var n := |b| - 1;
      assert (a + b)[..|a + b| - 1] == a + b[..n];
      EncodeJoin(a, b[..n]);
      assert EncodeAll(a) + (EncodeAll(b[..n]) + Encode(b[n])) == EncodeAll(a) + EncodeAll(b[..n]) + Encode(b[n]);
    }
  }

  lemma RoomForByte(fs: seq<Field>, f: Field, rest: seq<Field>)
    requires Fits(fs + [f] + rest)
    ensures TLVS_AT + |EncodeAll(fs)| + TLV_HDR + |f.value| <= BUFSIZE
    ensures rest != [] ==> TLVS_AT + |EncodeAll(fs)| + TLV_HDR + |f.value| < BUFSIZE
  {
    EncodeJoin(fs + [f], rest);
    EncodeJoin(fs, [f]);
    assert [f][..0] == [];
    assert EncodeAll([f]) == [] + Encode(f);
    if rest != [] {
      EncodeFront(rest);
    }
  }

  lemma RoomFor(fs: seq<Field>, kind: byte, s: Option<seq<byte>>, rest: seq<Field>)
    requires Fits(fs + TextField(kind, s) + rest) && IsText(kind)
    ensures s.Some? ==> TLVS_AT + |EncodeAll(fs)| + TLV_HDR + |s.value| < BUFSIZE
  {
    if s.Some? {
      var f := Field(kind, s.value);
      RoomForByte(fs, f, rest);
      if rest == [] {
        assert fs + [f] + rest == fs + [f];
        EncodeJoin(fs, [f]);
        assert [f][..0] == [];
        assert EncodeAll([f]) == [] + Encode(f);
      }
    }
  }

  lemma FitsPrefix(a: seq<Field>, b: seq<Field>)
    requires Fits(a + b) && b != []
    ensures Fits(a)
  {
    EncodeJoin(a, b);
    EncodeFront(b);
  }

  // ---------- what is composed can be looked up ----------

  ghost predicate DistinctKinds(fs: seq<Field>) {
    forall i, j :: 0 <= i < j < |fs| ==> fs[i].kind != fs[j].kind
  }

  /** Every field is found by its type, with its value, and no other type is found. */
  lemma EveryFieldFound(fs: seq<Field>, k: nat, at: nat)
    requires Short(fs) && DistinctKinds(fs) && k < |fs|
    ensures Tiled(EncodeAll(fs)) && Scan(EncodeAll(fs), fs[k].kind as nat, 0, at) == Found(at + |EncodeAll(fs[..k])|)
    ensures var p := |EncodeAll(fs[..k])|; p + |Encode(fs[k])| <= |EncodeAll(fs)| && EncodeAll(fs)[p..p + |Encode(fs[k])|] == Encode(fs[k])
  {
    ScanFindsKind(fs, fs[k].kind as nat, 0, at);
    FieldAtStart(fs, k);
    assert FirstOf(fs, fs[k].kind as nat) == k;
  }

  lemma NothingElseFound(fs: seq<Field>, tlvType: nat, at: nat)
    requires Short(fs) && tlvType <= INDEX_BASE
    ensures Tiled(EncodeAll(fs))
    ensures Scan(EncodeAll(fs), tlvType, 0, at) == Null <==> forall i :: 0 <= i < |fs| ==> fs[i].kind as nat != tlvType
  {
    ScanFindsKind(fs, tlvType, 0, at);
  }

  /** The place of a type in the order in which the requests write their fields. */
  function Rank(kind: byte): nat {
    if kind == 0x30 || kind == 0x01 then 0 else if kind == 0x11 then 1 else if kind == 0x14 then 2
    else if kind == 0x17 || kind == 0x1B then 3 else if kind == 0x18 || kind == 0x1C then 4
    else if kind == 0x16 || kind == 0x1D then 5 else if kind == 0x19 then 6 else 7
  }

  ghost predicate Ranked(fs: seq<Field>, low: nat, high: nat) {
    && (forall i :: 0 <= i < |fs| ==> low <= Rank(fs[i].kind) < high)
    && forall i, j :: 0 <= i < j < |fs| ==> Rank(fs[i].kind) < Rank(fs[j].kind)
  }

  lemma RankedAtMostOne(fs: seq<Field>, kind: byte)
    requires |fs| <= 1 && (fs != [] ==> fs[0].kind == kind)
    ensures Ranked(fs, Rank(kind), Rank(kind) + 1)
  {
  }

  lemma AccountRanked(p: Profile, userKind: byte, passwordKind: byte, authKind: byte)
    requires Rank(userKind) == 3 && Rank(passwordKind) == 4 && Rank(authKind) == 5
    ensures Ranked(AccountFields(p, userKind, passwordKind, authKind), 3, 6)
  {
  }

  lemma FiveParts(a: seq<Field>, b: seq<Field>, c: seq<Field>, d: seq<Field>, e: seq<Field>)
    requires Ranked(a, 0, 1) && Ranked(b, 2, 3) && Ranked(c, 3, 6) && Ranked(d, 6, 7) && Ranked(e, 7, 8)
    ensures DistinctKinds(a + b + c + d + e)
  {
  }

  lemma StartKindsDistinct(p0: Profile, cdma: bool)
    ensures DistinctKinds(StartFields(p0, cdma))
  {
    hide AccountFields, Account, Ranked, DistinctKinds;
    var p := Account(p0, cdma);
    var apn := if cdma then [] else TextField(0x14, p.apn);
    var index := if p.pdp != 0 && !cdma then [Field(0x31, [Lo(p.pdp)])] else [];
    RankedAtMostOne([Field(0x30, [if cdma then 2 else 1])], 0x30);
    RankedAtMostOne(apn, 0x14);
    AccountRanked(p, 0x17, 0x18, 0x16);
    RankedAtMostOne([Field(0x19, [Lo(p.curIpFamily)])], 0x19);
    RankedAtMostOne(index, 0x31);
    FiveParts([Field(0x30, [if cdma then 2 else 1])], apn, AccountFields(p, 0x17, 0x18, 0x16), [Field(0x19, [Lo(p.curIpFamily)])], index);
  }

  lemma ModifyKindsDistinct(p: Profile)
    ensures DistinctKinds(ModifyFields(p))
  {
  }

  /** A message that fits the buffer has no field too long for its length bytes. */
  lemma FittingIsShort(fs: seq<Field>)
    requires Fits(fs)
    ensures Short(fs)
  {
    forall i | 0 <= i < |fs|
      ensures |fs[i].value| < 65536
    {
      FieldAtStart(fs, i);
    }
  }

  /** The fields that a lookup asks for: those of a type, or the one of an index above 0x1000. */
  predicate AskedFor(fs: seq<Field>, i: nat, tlvType: nat)
    requires i < |fs|
  {
    if tlvType > INDEX_BASE then i + 1 + INDEX_BASE == tlvType else fs[i].kind as nat == tlvType
  }

  /** What a lookup in a message with these fields returns: NULL, or the place of the field asked for. */
  ghost predicate IsAnswer(r: Lookup, msg: seq<byte>, fs: seq<Field>, tlvType: nat) {
    match r
    case Null => forall i :: 0 <= i < |fs| ==> !AskedFor(fs, i, tlvType)
    case Astray => false
    case Found(at) =>
      exists i :: 0 <= i < |fs| && AskedFor(fs, i, tlvType)
                  && at + |Encode(fs[i])| <= |msg| && msg[at..at + |Encode(fs[i])|] == Encode(fs[i])
  }

  lemma ScanAnswers(header: seq<byte>, fs: seq<Field>, tlvType: nat)
    requires Short(fs)
    ensures Tiled(EncodeAll(fs))
    ensures IsAnswer(Scan(EncodeAll(fs), tlvType, 0, |header|), header + EncodeAll(fs), fs, tlvType)
    ensures Scan(EncodeAll(fs), tlvType, 0, |header|) != Astray
  {
    hide Scan, Encode, EncodeAll, Tiled;
    var k: int;
    if tlvType > INDEX_BASE {
      ScanFindsIndex(fs, tlvType, 0, |header|);
      k := tlvType - INDEX_BASE - 1;
    } else {
      ScanFindsKind(fs, tlvType, 0, |header|);
      k := FirstOf(fs, tlvType);
    }
    if k < |fs| {
      FieldAtStart(fs, k);
      var p, n := |EncodeAll(fs[..k])|, |Encode(fs[k])|;
      assert (header + EncodeAll(fs))[|header| + p..|header| + p + n] == EncodeAll(fs)[p..p + n];
      assert AskedFor(fs, k, tlvType);
    }
  }

  /** The Length of the message header is the length of the fields. */
  lemma LengthInHeader(msg: seq<byte>, fs: seq<Field>, qmiType: byte, msgType: nat, transactionId: nat)
    requires Fits(fs) && msg == MessageHeader(qmiType, msgType, transactionId, |EncodeAll(fs)|) + EncodeAll(fs)
    ensures |EncodeAll(fs)| < 65536
    ensures msg[HEADER_AT + 2] as nat + 256 * msg[HEADER_AT + 3] as nat == |EncodeAll(fs)|
  {
  }

  /** A lookup in a composed message answers from its fields. */
  lemma MessageAnswers(msg: seq<byte>, fs: seq<Field>, qmiType: byte, msgType: nat, transactionId: nat, tlvType: nat)
    requires Fits(fs) && msg == MessageHeader(qmiType, msgType, transactionId, |EncodeAll(fs)|) + EncodeAll(fs)
    ensures var length := msg[HEADER_AT + 2] as nat + 256 * msg[HEADER_AT + 3] as nat;
            IsAnswer(Walk(msg, HEADER_AT + 4, length, tlvType, 0), msg, fs, tlvType)
  {
    hide EncodeAll, MessageHeader, Fits, Scan, Walk, IsAnswer;
    var header := MessageHeader(qmiType, msgType, transactionId, |EncodeAll(fs)|);
    FittingIsShort(fs);
    ScanAnswers(header, fs, tlvType);
    LengthInHeader(msg, fs, qmiType, msgType, transactionId);
    assert header + EncodeAll(fs) + [] == msg;
    WalkIsScan(header, EncodeAll(fs), [], tlvType, 0);
  }

  // ---------- which value goes under which type ----------

  /** What stands under a type of a StartNetworkInterface request; with a blank account, CDMA has that of ctnet@mycdma.cn. */
  function StartValue(p: Profile, cdma: bool, kind: nat): Option<seq<byte>> {
    var ctnet := cdma && (p.user == None || p.user == Some([])) && (p.password == None || p.password == Some([]));
    if kind == 0x30 then Some([if cdma then 2 else 1])
    else if kind == 0x14 then if cdma then None else p.apn
    else if kind == 0x17 then
      if ctnet then Some([99, 116, 110, 101, 116, 64, 109, 121, 99, 100, 109, 97, 46, 99, 110]) else p.user
    else if kind == 0x18 then if ctnet then Some([118, 110, 101, 116, 46, 109, 111, 98, 105]) else p.password
    else if kind == 0x16 then
      if ctnet then Some([2]) else if p.user.Some? && p.password.Some? then Some([(p.auth % 256) as byte]) else None
    else if kind == 0x19 then Some([(p.curIpFamily % 256) as byte])
    else if kind == 0x31 then if p.pdp != 0 && !cdma then Some([(p.pdp % 256) as byte]) else None
    else None
  }

  function ModifyValue(p: Profile, kind: nat): Option<seq<byte>> {
    if kind == 0x01 then Some([0, (p.pdp % 256) as byte])
    else if kind == 0x11 then Some([(p.iptype % 256) as byte])
    else if kind == 0x14 then p.apn
    else if kind == 0x1B then p.user
    else if kind == 0x1C then p.password
    else if kind == 0x1D then if p.user.Some? && p.password.Some? then Some([(p.auth % 256) as byte]) else None
    else None
  }

  lemma AccountContains(p: Profile, userKind: byte, passwordKind: byte, authKind: byte, f: Field)
    ensures f in AccountFields(p, userKind, passwordKind, authKind) <==>
              || (f.kind == userKind && p.user == Some(f.value))
              || (f.kind == passwordKind && p.password == Some(f.value))
              || (f.kind == authKind && p.user.Some? && p.password.Some? && f.value == [(p.auth % 256) as byte])
  {
  }

  lemma StartContains(p: Profile, cdma: bool, f: Field)
    ensures f in StartFields(p, cdma) <==> StartValue(p, cdma, f.kind as nat) == Some(f.value)
  {
    hide AccountFields;
    AccountContains(Account(p, cdma), 0x17, 0x18, 0x16, f);
  }

  lemma ModifyContains(p: Profile, f: Field)
    ensures f in ModifyFields(p) <==> ModifyValue(p, f.kind as nat) == Some(f.value)
  {
    hide AccountFields;
    AccountContains(p, 0x1B, 0x1C, 0x1D, f);
  }

  lemma StartsWith(p: Profile, cdma: bool)
    ensures StartFields(p, cdma) != [] && StartFields(p, cdma)[0] == Field(0x30, [if cdma then 2 else 1])
  {
  }

  lemma ModifyStartsWith(p: Profile)
    ensures ModifyFields(p) != [] && ModifyFields(p)[0] == Field(0x01, [0, Lo(p.pdp)])
  {
  }

  /** A lookup that found this value under this type: type, length low byte first, value; or NULL for none. */
  predicate Says(msg: seq<byte>, r: Lookup, kind: nat, value: Option<seq<byte>>) {
    match value
    case None => r == Null
    case Some(v) =>
      && r.Found? && r.at + 3 + |v| <= |msg| && msg[r.at] as nat == kind
      && msg[r.at + 1] as nat + 256 * msg[r.at + 2] as nat == |v| && msg[r.at + 3..r.at + 3 + |v|] == v
  }

  /** What stands before the fields: the QMI header and the message header, both with the lengths that follow. */
  predicate Headed(msg: seq<byte>, service: byte, msgType: nat, transactionId: nat) {
    && |msg| >= 13 && msg[0] == 1 && msg[1] as nat + 256 * msg[2] as nat == |msg| - 1
    && msg[3] == 0 && msg[4] == service && msg[5] == 0
    && msg[6] == 0 && msg[7] as nat + 256 * msg[8] as nat == transactionId % 65536
    && msg[9] as nat + 256 * msg[10] as nat == msgType % 65536 && msg[11] as nat + 256 * msg[12] as nat == |msg| - 13
  }

  lemma HeadIs(msg: seq<byte>, fs: seq<Field>, qmiType: byte, msgType: nat, transactionId: nat)
    requires Fits(fs) && msg == MessageHeader(qmiType, msgType, transactionId, |EncodeAll(fs)|) + EncodeAll(fs)
    ensures Headed(msg, qmiType, msgType, transactionId)
  {
    hide EncodeAll;
    TwoBytes(transactionId);
    TwoBytes(msgType);
    TwoBytes(|msg| - 1);
    TwoBytes(|msg| - 13);
  }

  lemma TwoBytes(n: nat)
    ensures Lo(n) as nat + 256 * Hi(n) as nat == n % 65536
  {
  }

  /** If just one value can stand under a type, that is what a lookup says. */
  lemma AnswerSays(r: Lookup, msg: seq<byte>, fs: seq<Field>, kind: nat, value: Option<seq<byte>>)
    requires kind <= INDEX_BASE && IsAnswer(r, msg, fs, kind) && Short(fs) && (value.Some? ==> kind < 256)
    requires forall f: Field :: f.kind as nat == kind ==> (f in fs <==> value == Some(f.value))
    ensures Says(msg, r, kind, value)
  {
    match r {
      case Null =>
        if value.Some? {
          var i :| 0 <= i < |fs| && fs[i] == Field(kind as byte, value.value);
          assert AskedFor(fs, i, kind);
        }
      case Found(at) =>
        var i :| 0 <= i < |fs| && AskedFor(fs, i, kind)
                 && at + |Encode(fs[i])| <= |msg| && msg[at..at + |Encode(fs[i])|] == Encode(fs[i]);
        var v := fs[i].value;
        assert fs[i] in fs && value == Some(v);
        EncodedSays(msg, at, fs[i]);
    }
  }

  /** Field number k, counted from 1, is what a lookup for 0x1000 + k says. */
  lemma IndexSays(r: Lookup, msg: seq<byte>, fs: seq<Field>, k: nat)
    requires 1 <= k <= |fs| && IsAnswer(r, msg, fs, 0x1000 + k) && Short(fs)
    ensures Says(msg, r, fs[k - 1].kind as nat, Some(fs[k - 1].value))
  {
    assert AskedFor(fs, k - 1, 0x1000 + k);
    EncodedSays(msg, r.at, fs[k - 1]);
  }

  lemma EncodedSays(msg: seq<byte>, at: nat, f: Field)
    requires at + |Encode(f)| <= |msg| && msg[at..at + |Encode(f)|] == Encode(f) && |f.value| < 65536
    ensures msg[at] == f.kind && msg[at + 1] as nat + 256 * msg[at + 2] as nat == |f.value|
    ensures msg[at + 3..at + 3 + |f.value|] == f.value
  {
    var e := msg[at..at + |Encode(f)|];
    assert e[0] == f.kind && e[1] == Lo(|f.value|) && e[2] == Hi(|f.value|) && e[3..] == f.value;
    assert msg[at + 3..at + 3 + |f.value|] == e[3..];
  }

  /**
    StartNetworkInterface end to end: composed for any profile whose message fits, every field that the
    profile calls for is found with exactly its value, by its type or its index, and GetTLV returns NULL
    exactly for all other types and indices; no type occurs twice.
   */
  method StartAndLookUp(p: Profile, cdma: bool, transactionId: nat, tlvType: nat) returns (msg: array<byte>, r: Lookup)
    requires CStrings(p) && Fits(StartFields(p, cdma))
    ensures IsAnswer(r, msg[..], StartFields(p, cdma), tlvType) && DistinctKinds(StartFields(p, cdma))
    ensures tlvType <= 0x1000 ==> Says(msg[..], r, tlvType, StartValue(p, cdma, tlvType))
    ensures tlvType == 0x1001 ==> Says(msg[..], r, 0x30, StartValue(p, cdma, 0x30))
    ensures fresh(msg) && Headed(msg[..], 1, 0x20, transactionId)
  {
    hide StartFields, EncodeAll, MessageHeader, Fits, DistinctKinds, Walk, IsAnswer, Says, Headed;
    ghost var fs := StartFields(p, cdma);
    var c := new Composer();
    c.StartNwInterface(p, cdma);
    msg := c.Finish(1, 0x20, transactionId);
    StartKindsDistinct(p, cdma);
    MessageAnswers(msg[..], fs, 1, 0x20, transactionId, tlvType);
    HeadIs(msg[..], fs, 1, 0x20, transactionId);
    r := GetTlv(msg, HEADER_AT, tlvType);
    FittingIsShort(fs);
    forall f: Field | f.kind as nat == tlvType
      ensures f in fs <==> StartValue(p, cdma, tlvType) == Some(f.value)
    {
      StartContains(p, cdma, f);
    }
    if tlvType <= INDEX_BASE {
      AnswerSays(r, msg[..], fs, tlvType, StartValue(p, cdma, tlvType));
    } else if tlvType == 0x1001 {
      StartsWith(p, cdma);
      IndexSays(r, msg[..], fs, 1);
    }
  }

  /** The same for ModifyProfileSettings. */
  method ModifyAndLookUp(p: Profile, transactionId: nat, tlvType: nat) returns (msg: array<byte>, r: Lookup)
    requires CStrings(p) && Fits(ModifyFields(p))
    ensures IsAnswer(r, msg[..], ModifyFields(p), tlvType) && DistinctKinds(ModifyFields(p))
    ensures tlvType <= 0x1000 ==> Says(msg[..], r, tlvType, ModifyValue(p, tlvType))
    ensures tlvType == 0x1001 ==> Says(msg[..], r, 0x01, ModifyValue(p, 0x01))
    ensures fresh(msg) && Headed(msg[..], 1, 0x28, transactionId)
  {
    hide ModifyFields, EncodeAll, MessageHeader, Fits, DistinctKinds, Walk, IsAnswer, Says, Headed;
    ghost var fs := ModifyFields(p);
    var c := new Composer();
    c.ModifyProfileSettings(p);
    msg := c.Finish(1, 0x28, transactionId);
    ModifyKindsDistinct(p);
    MessageAnswers(msg[..], fs, 1, 0x28, transactionId, tlvType);
    HeadIs(msg[..], fs, 1, 0x28, transactionId);
    r := GetTlv(msg, HEADER_AT, tlvType);
    FittingIsShort(fs);
    forall f: Field | f.kind as nat == tlvType
      ensures f in fs <==> ModifyValue(p, tlvType) == Some(f.value)
    {
      ModifyContains(p, f);
    }
    if tlvType <= INDEX_BASE {
      AnswerSays(r, msg[..], fs, tlvType, ModifyValue(p, tlvType));
    } else if tlvType == 0x1001 {
      ModifyStartsWith(p);
      IndexSays(r, msg[..], fs, 1);
    }
  }
}
