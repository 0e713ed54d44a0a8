/**
  QMAP framing of qmi_wwan_q.c: the two header printers of the transmit path and the
  parser of the receive path.
 */
module Qmap {
  import opened Arith
  import opened Bytes

  const QMAP_HDR := 4
  const CSUM_HDR := 4
  const MAX_PACKET := 1500
  const FIRST_MUX := 0x81
  const CSUM_OFFLOAD := 2

  /** The part of a socket buffer that matters here: len bytes from data on, with room before and after. */
  class SkBuff {
    const mem: array<byte>
    var data: nat
    var len: nat

    constructor (capacity: nat, headroom: nat)
      requires headroom <= capacity
      ensures mem.Length == capacity && fresh(mem) && data == headroom && len == 0
    {
      mem := new byte[capacity];
      data, len := headroom, 0;
    }

    ghost predicate Valid()
      reads this
    {
      data + len <= mem.Length
    }

    function Contents(): seq<byte>
      requires Valid()
      reads this, mem
    {
      mem[data..data + len]
    }

    function Tailroom(): nat
      requires Valid()
      reads this
    {
      mem.Length - (data + len)
    }

    /** skb_put: the new bytes are whatever the memory held. */
    method Put(n: nat)
      requires Valid() && n <= Tailroom()
      modifies this`len
      ensures Valid() && len == old(len) + n
      ensures Contents() == old(Contents()) + old(mem[data + len..data + len + n])
    {
      len := len + n;
    }

    /** skb_push and the header bytes written through the pointer it returns. */
    method PushHeader(header: seq<byte>)
      requires Valid() && |header| <= data
      modifies this, mem
      ensures Valid() && Contents() == header + old(Contents())
      ensures data == old(data) - |header| && len == old(len) + |header|
    {
      data, len := data - |header|, len + |header|;
      forall i | 0 <= i < |header| {
        mem[data + i] := header[i];
      }
    }

    /** skb_pull. */
    method Pull(n: nat)
      requires Valid()
      modifies this
      ensures Valid()
      ensures n <= old(len) ==> Contents() == old(Contents())[n..] && len == old(len) - n && data == old(data) + n
      ensures n > old(len) ==> data == old(data) && len == old(len)
    {
      if n <= len {
        data, len := data + n, len - n;
      }
    }
  }

  /** One framed packet; fill is the padding, whose bytes nobody sets. */
  datatype Frame = Frame(v5: bool, mux: byte, payload: seq<byte>, fill: seq<byte>)

  /** The header layout: padding, next-header and command bits in one byte, mux id, big-endian length. */
  function Header(v5: bool, mux: byte, pad: nat, pktLen: nat): (h: seq<byte>)
    requires pad < 64
    ensures |h| == HeaderSize(v5)
  {
    if v5 then [(pad + 64) as byte, mux, Hi(pktLen), Lo(pktLen)] + [(2 * CSUM_OFFLOAD) as byte, 0, 0, 0]
    else [pad as byte, mux, Hi(pktLen), Lo(pktLen)]
  }

  function HeaderSize(v5: bool): nat { if v5 then QMAP_HDR + CSUM_HDR else QMAP_HDR }

  function Encode(f: Frame): (s: seq<byte>)
    requires |f.fill| < 64
    ensures |s| == HeaderSize(f.v5) + |f.payload| + |f.fill|
  {
    Header(f.v5, f.mux, |f.fill|, |f.payload| + |f.fill|) + f.payload + f.fill
  }

  /** How many padding bytes the printers add: up to the next multiple of four, or none if they do not fit. */
  function PadLength(len: nat, tailroom: nat): (pad: nat)
    ensures pad < 4 && pad <= tailroom
  {
    if len % 4 == 0 || tailroom < 4 - len % 4 then 0 else 4 - len % 4
  }

  lemma PaddedToFour(len: nat, tailroom: nat)
    requires tailroom >= 3
    ensures (len + PadLength(len, tailroom)) % 4 == 0
  {
  }

  /** What a printer makes of a buffer. */
  ghost function Framed(v5: bool, mux: byte, skb: SkBuff): (f: Frame)
    requires skb.Valid()
    reads skb, skb.mem
    ensures |f.fill| < 4
  {
    var tail := skb.data + skb.len;
    Frame(v5, mux, skb.Contents(), skb.mem[tail..tail + PadLength(skb.len, skb.Tailroom())])
  }

  /** The lines both printers begin with (647-656 and 671-681). */
  method PadToFour(skb: SkBuff) returns (pad: nat)
    requires skb.Valid()
    modifies skb`len
    ensures skb.Valid() && pad == PadLength(old(skb.len), old(skb.Tailroom())) && skb.len == old(skb.len) + pad
    ensures skb.Contents() == old(skb.Contents()) + old(skb.mem[skb.data + skb.len..skb.data + skb.len + PadLength(skb.len, skb.Tailroom())])
  {
    pad := skb.len % 4;
    if pad != 0 {
      pad := 4 - pad;
      if skb.Tailroom() < pad {
        pad := 0;
      }
      if pad != 0 {
        skb.Put(pad);
      }
    }
  }

  method AddQhdr(skb: SkBuff, mux: byte)
    requires skb.Valid() && QMAP_HDR <= skb.data
    modifies skb, skb.mem
    ensures skb.Valid() && skb.Contents() == Encode(old(Framed(false, mux, skb)))
  {
    hide PadLength;
    var pad := PadToFour(skb);
    var header := Header(false, mux, pad, skb.len);
    hide Header;
    skb.PushHeader(header);
  }

  method AddQhdrV5(skb: SkBuff, mux: byte)
    requires skb.Valid() && QMAP_HDR + CSUM_HDR <= skb.data
    modifies skb, skb.mem
    ensures skb.Valid() && skb.Contents() == Encode(old(Framed(true, mux, skb)))
  {
    hide PadLength, Header;
    var mapDatalen := skb.len;
    var padding := PadToFour(skb);
    skb.PushHeader(Header(true, mux, padding, mapDatalen + padding));
  }

  /** A packet handed up the receive path, with the index of the network device it goes to. */
  datatype Rx = Rx(dev: nat, payload: seq<byte>)

  /**
    The receiver: which of the qmap_mode devices are registered, the padding the modem puts at
    the end of every downlink packet, the byte that lies after the buffer, and which receive
    allocations succeed.
   */
  datatype Receiver = Receiver(devices: seq<bool>, minimumPadding: nat, after: byte, allocates: nat -> bool)

  /** What one pass of the loop decides about the bytes at the head of the buffer. */
  datatype Verdict = Stop | Skip(size: nat) | Deliver(size: nat, rx: Rx)

  function Parse(r: Receiver, s: seq<byte>, n: nat): (v: Verdict)
    requires |s| > QMAP_HDR
    ensures !v.Stop? ==> 0 < v.size <= |s|
  {
    var pktLen := s[2] as nat * 256 + s[3] as nat;
    var size := HeaderSize(s[0] as nat / 64 % 2 == 1);
    var skbLen := pktLen - s[0] as nat % 64 - r.minimumPadding;
    if skbLen > MAX_PACKET || |s| < pktLen + size then Stop
    else
      var first := if size < |s| then s[size] else r.after;
      var dev := s[1] as int - FIRST_MUX;
      if s[0] as nat / 128 == 1 then Skip(pktLen + size)
      else if first as nat / 16 != 4 && first as nat / 16 != 6 then Stop
      else if dev < 0 || dev >= |r.devices| then Stop
      else if !r.devices[dev] then Skip(pktLen + size)
      else if skbLen < 0 || !r.allocates(n) then Stop
      else Deliver(pktLen + size, Rx(dev, s[size..size + skbLen]))
  }

  /** The packets that come out of the bytes s, after n receive allocations. */
  function Decode(r: Receiver, s: seq<byte>, n: nat): seq<Rx>
    decreases |s|
  {
    if |s| <= QMAP_HDR then []
    else match Parse(r, s, n)
      case Stop => []
      case Skip(size) => Decode(r, s[size..], n)
      case Deliver(size, rx) => [rx] + Decode(r, s[size..], n + 1)
  }

  /** The tests of the loop body, in their order, on the buffer itself. */
  method ParseHead(r: Receiver, skb: SkBuff, n: nat) returns (v: Verdict)
    requires skb.Valid() && skb.len > QMAP_HDR
    ensures v == Parse(r, skb.Contents(), n)
  {
    ghost var s := skb.Contents();
    var head := skb.mem[skb.data];
    var pktLen := skb.mem[skb.data + 2] as nat * 256 + skb.mem[skb.data + 3] as nat;
    assert head == s[0] && pktLen == s[2] as nat * 256 + s[3] as nat;
    var size := QMAP_HDR;
    if head as nat / 64 % 2 == 1 {
      size := size + CSUM_HDR;
    }
    var skbLen := pktLen - head as nat % 64;
    skbLen := skbLen - r.minimumPadding;
    if skbLen > MAX_PACKET {
      return Stop;
    }
    if skb.len < pktLen + size {
      return Stop;
    }
    if head as nat / 128 == 1 {
      return Skip(pktLen + size);
    }
    var first := if size < skb.len then skb.mem[skb.data + size] else r.after;
    if first as nat / 16 != 4 && first as nat / 16 != 6 {
      return Stop;
    }
    var dev := skb.mem[skb.data + 1] as int - FIRST_MUX;
    assert dev == s[1] as int - FIRST_MUX;
    if dev < 0 || dev >= |r.devices| {
      return Stop;
    }
    if !r.devices[dev] {
      return Skip(pktLen + size);
    }
    if skbLen < 0 || !r.allocates(n) {
      return Stop;
    }
    var payload := skb.mem[skb.data + size..skb.data + size + skbLen];
    assert forall k :: 0 <= k < skbLen ==> payload[k] == s[size + k];
    assert payload == s[size..size + skbLen];
    return Deliver(pktLen + size, Rx(dev, payload));
  }

  /** One pass of the loop body: what is already in the chain and what is still in the buffer add up as before. */
  method Pass(r: Receiver, skb: SkBuff, chain: seq<Rx>) returns (more: bool, chain': seq<Rx>)
    requires skb.Valid() && skb.len > QMAP_HDR
    modifies skb
    ensures skb.Valid() && (more ==> skb.len < old(skb.len))
    ensures !more ==> chain' == chain && Decode(r, old(skb.Contents()), |chain|) == []
    ensures more ==> chain' + Decode(r, skb.Contents(), |chain'|) == chain + Decode(r, old(skb.Contents()), |chain|)
  {
    hide Parse;
    ghost var s := skb.Contents();
    var v := ParseHead(r, skb, |chain|);
    match v {
      case Stop =>
        more, chain' := false, chain;
      case Skip(size) =>
        skb.Pull(size);
        more, chain' := true, chain;
      case Deliver(size, rx) =>
        skb.Pull(size);
        more, chain' := true, chain + [rx];
        ghost var later := Decode(r, s[size..], |chain| + 1);
        assert chain + ([rx] + later) == chain' + later;
    }
  }

  /** qmap_packet_decode: pulls packet after packet off the buffer. */
  method PacketDecode(r: Receiver, skb: SkBuff) returns (chain: seq<Rx>)
    requires skb.Valid()
    modifies skb
    ensures chain == Decode(r, old(skb.Contents()), 0)
  {
    chain := [];
    while skb.len > QMAP_HDR
      invariant skb.Valid()
      invariant chain + Decode(r, skb.Contents(), |chain|) == Decode(r, old(skb.Contents()), 0)
      decreases skb.len
    {
      hide Decode;
      var more;
      more, chain := Pass(r, skb, chain);
      if !more {
        break;
      }
    }
  }

  // ---------- what the printers and the parser promise each other ----------

  /** An IP packet that a printer has framed and whose length field does not wrap. */
  predicate IpFrame(f: Frame) {
    && |f.fill| < 4 && 1 <= |f.payload| && |f.payload| + |f.fill| < 65536
    && (f.payload[0] as nat / 16 == 4 || f.payload[0] as nat / 16 == 6)
  }

  predicate Registered(r: Receiver, f: Frame) {
    0 <= f.mux as int - FIRST_MUX < |r.devices| && r.devices[f.mux as int - FIRST_MUX]
  }

  function Sent(f: Frame): Rx
    requires f.mux as int >= FIRST_MUX
  {
    Rx(f.mux as int - FIRST_MUX, f.payload)
  }

  ghost predicate Receivable(r: Receiver, fs: seq<Frame>) {
    && (forall i :: 0 <= i < |fs| ==> IpFrame(fs[i]) && Registered(r, fs[i]))
    && (forall k :: r.allocates(k))
  }

  function EncodeAll(fs: seq<Frame>): seq<byte>
    requires forall i :: 0 <= i < |fs| ==> |fs[i].fill| < 4
  {
    if fs == [] then [] else Encode(fs[0]) + EncodeAll(fs[1..])
  }

  function SentAll(fs: seq<Frame>): (rx: seq<Rx>)
    requires forall i :: 0 <= i < |fs| ==> fs[i].mux as int >= FIRST_MUX
    ensures |rx| == |fs|
  {
    seq(|fs|, i requires 0 <= i < |fs| => Sent(fs[i]))
  }

  lemma PrefixOfSlice<T>(s: seq<T>, from: nat, p: seq<T>, keep: nat)
    requires keep <= |p| && from + |p| <= |s| && s[from..from + |p|] == p
    ensures s[from..from + keep] == p[..keep]
  {
  }

  lemma HeaderFields(f: Frame, rest: seq<byte>)
    requires IpFrame(f)
    ensures var s := Encode(f) + rest; var size := HeaderSize(f.v5);
            && |Encode(f)| == size + |f.payload| + |f.fill| && |s| > QMAP_HDR
            && s[2] as nat * 256 + s[3] as nat == |f.payload| + |f.fill|
            && (s[0] as nat / 64 % 2 == 1) == f.v5 && s[0] as nat % 64 == |f.fill| && s[0] as nat / 128 == 0
            && s[1] == f.mux && s[size] == f.payload[0]
            && s[size..size + |f.payload|] == f.payload
  {
  }

  /** One frame at the head of the buffer: delivered, less the receiver's minimum padding, unless it is too long. */
  lemma HeadOfFrame(r: Receiver, f: Frame, rest: seq<byte>, n: nat)
    requires IpFrame(f) && Registered(r, f) && r.allocates(n)
    ensures var keep := |f.payload| - r.minimumPadding;
            Parse(r, Encode(f) + rest, n) ==
              if keep < 0 || keep > MAX_PACKET then Stop
              else Deliver(|Encode(f)|, Rx(f.mux as int - FIRST_MUX, f.payload[..keep]))
  {
    HeaderFields(f, rest);
    var s := Encode(f) + rest;
    var size := HeaderSize(f.v5);
    var keep := |f.payload| - r.minimumPadding;
    if 0 <= keep {
      PrefixOfSlice(s, size, f.payload, keep);
    }
  }

  lemma DecodeOne(r: Receiver, f: Frame, rest: seq<byte>, n: nat)
    requires IpFrame(f) && Registered(r, f) && r.allocates(n)
    requires r.minimumPadding == 0 && |f.payload| <= MAX_PACKET
    ensures Decode(r, Encode(f) + rest, n) == [Sent(f)] + Decode(r, rest, n + 1)
  {
    hide Parse, Encode;
    HeadOfFrame(r, f, rest, n);
    HeaderFields(f, rest);
    assert f.payload[..|f.payload|] == f.payload;
    assert (Encode(f) + rest)[|Encode(f)|..] == rest;
  }

  /** The frames at the head of a buffer come out exactly, in order, whatever follows them. */
  lemma {:induction false} RoundTrip(r: Receiver, fs: seq<Frame>, rest: seq<byte>, n: nat)
    requires Receivable(r, fs) && r.minimumPadding == 0
    requires forall i :: 0 <= i < |fs| ==> |fs[i].payload| <= MAX_PACKET
    ensures Decode(r, EncodeAll(fs) + rest, n) == SentAll(fs) + Decode(r, rest, n + |fs|)
  {
    hide Parse, Encode, Decode;
    if fs == [] {
      assert EncodeAll(fs) + rest == rest;
    } else {
      assert EncodeAll(fs) + rest == Encode(fs[0]) + (EncodeAll(fs[1..]) + rest);
      DecodeOne(r, fs[0], EncodeAll(fs[1..]) + rest, n);
      RoundTrip(r, fs[1..], rest, n + 1);
      assert SentAll(fs) == [Sent(fs[0])] + SentAll(fs[1..]);
    }
  }

  /**
    Exactly when the receiver gets back what was framed: nothing was framed, or it strips no
    minimum padding and no packet is longer than 1500 bytes.
   */
  lemma {:induction false} RoundTripIff(r: Receiver, fs: seq<Frame>, n: nat)
    requires Receivable(r, fs)
    ensures Decode(r, EncodeAll(fs), n) == SentAll(fs) <==>
            fs == [] || (r.minimumPadding == 0 && forall i :: 0 <= i < |fs| ==> |fs[i].payload| <= MAX_PACKET)
  {
    hide Parse, Encode;
    if fs != [] {
      var s := EncodeAll(fs);
      HeadOfFrame(r, fs[0], EncodeAll(fs[1..]), n);
      HeaderFields(fs[0], EncodeAll(fs[1..]));
      var keep := |fs[0].payload| - r.minimumPadding;
      if 0 <= keep <= MAX_PACKET {
        assert s[|Encode(fs[0])|..] == EncodeAll(fs[1..]);
        RoundTripIff(r, fs[1..], n + 1);
        var later := Decode(r, EncodeAll(fs[1..]), n + 1);
        var got := Rx(fs[0].mux as int - FIRST_MUX, fs[0].payload[..keep]);
        assert Decode(r, s, n) == [got] + later;
        assert SentAll(fs) == [Sent(fs[0])] + SentAll(fs[1..]);
        FrontAndBack(got, later, Sent(fs[0]), SentAll(fs[1..]));
        assert |fs[0].payload[..keep]| == keep;
        assert keep == |fs[0].payload| ==> fs[0].payload[..keep] == fs[0].payload;
      }
    }
  }

  function Always(): nat -> bool { n => true }

  /** A receiver that strips one byte of minimum padding, or a packet one byte too long: both lose what was sent. */
  lemma PaddingOrLengthLoses(long: seq<byte>)
    requires |long| == MAX_PACKET + 1 && long[0] == 0x45
    ensures Decode(Receiver([true], 1, 0, Always()), EncodeAll([Frame(false, 0x81, [0x45], [])]), 0) == [Rx(0, [])]
    ensures Decode(Receiver([true], 0, 0, Always()), EncodeAll([Frame(false, 0x81, long, [])]), 0) == []
  {
    hide Parse;
    var f, g := Frame(false, 0x81, [0x45], []), Frame(false, 0x81, long, []);
    assert [f][1..] == [] && Encode(f) + [] == Encode(f) && [g][1..] == [] && Encode(g) + [] == Encode(g);
    HeadOfFrame(Receiver([true], 1, 0, Always()), f, [], 0);
    HeadOfFrame(Receiver([true], 0, 0, Always()), g, [], 0);
    HeaderFields(f, []);
    HeaderFields(g, []);
    assert f.payload[..0] == [] && Encode(f)[|Encode(f)|..] == [];
  }

  lemma FrontAndBack(x: Rx, xs: seq<Rx>, y: Rx, ys: seq<Rx>)
    ensures [x] + xs == [y] + ys <==> x == y && xs == ys
  {
    if [x] + xs == [y] + ys {
      assert ([x] + xs)[0] == ([y] + ys)[0];
      assert ([x] + xs)[1..] == ([y] + ys)[1..];
    }
  }

  // ---------- command packets and devices that are not registered ----------

  /** A command packet by its bytes: the top bit of the first, and the length in the third and fourth. */
  predicate IsCommand(r: Receiver, c: seq<byte>) {
    && |c| >= 4 && c[0] >= 128
    && |c| == (if c[0] as nat / 64 % 2 == 1 then 8 else 4) + 256 * c[2] as nat + c[3] as nat
    && 256 * c[2] as nat + c[3] as nat - c[0] as nat % 64 - r.minimumPadding <= 1500
  }

  /** A command packet delivers nothing, and what follows it comes out as if it had not been there. */
  lemma CommandSkipped(r: Receiver, c: seq<byte>, rest: seq<byte>, n: nat)
    requires IsCommand(r, c)
    ensures Decode(r, c + rest, n) == Decode(r, rest, n)
  {
    var s := c + rest;
    assert s[|c|..] == rest;
    assert |s| <= 4 ==> rest == [];
  }

  /** The same for a packet to a device that the driver knows but that is not registered. */
  lemma UnregisteredSkipped(r: Receiver, f: Frame, rest: seq<byte>, n: nat)
    requires IpFrame(f) && |f.payload| - r.minimumPadding <= 1500
    requires 0x81 <= f.mux as int < 0x81 + |r.devices| && !r.devices[f.mux as int - 0x81]
    ensures Decode(r, Encode(f) + rest, n) == Decode(r, rest, n)
  {
    hide Encode;
    HeaderFields(f, rest);
    assert (Encode(f) + rest)[|Encode(f)|..] == rest;
  }

  /** A packet to any other number ends the buffer: nothing behind it is delivered. */
  lemma UnknownStops(r: Receiver, f: Frame, rest: seq<byte>, n: nat)
    requires IpFrame(f) && !(0x81 <= f.mux as int < 0x81 + |r.devices|)
    ensures Decode(r, Encode(f) + rest, n) == []
  {
    hide Encode;
    HeaderFields(f, rest);
  }

  /** What the modem puts into one buffer: packets, some of them to devices not registered, and commands. */
  datatype Item = Packet(frame: Frame) | Command(bytes: seq<byte>)

  ghost predicate Acceptable(r: Receiver, x: Item) {
    match x
    case Command(c) => IsCommand(r, c)
    case Packet(f) => IpFrame(f) && |f.payload| <= 1500 && 0x81 <= f.mux as int < 0x81 + |r.devices|
  }

  predicate Printable(x: Item) { x.Packet? ==> |x.frame.fill| < 4 }

  function ItemBytes(x: Item): seq<byte>
    requires Printable(x)
  {
    if x.Packet? then Encode(x.frame) else x.bytes
  }

  function StreamOf(xs: seq<Item>): seq<byte>
    requires forall i :: 0 <= i < |xs| ==> Printable(xs[i])
  {
    if xs == [] then [] else ItemBytes(xs[0]) + StreamOf(xs[1..])
  }

  /** The packets to registered devices. */
  function ToRegistered(r: Receiver, xs: seq<Item>): seq<Rx> {
    if xs == [] then []
    else
      var x := xs[0];
      (if x.Packet? && 0x81 <= x.frame.mux as int < 0x81 + |r.devices| && r.devices[x.frame.mux as int - 0x81]
       then [Rx(x.frame.mux as int - 0x81, x.frame.payload)] else []) + ToRegistered(r, xs[1..])
  }

  /** Commands and packets to devices not registered take nothing away from what stands around them. */
  lemma {:induction false} MixedStream(r: Receiver, xs: seq<Item>, rest: seq<byte>, n: nat)
    requires forall i :: 0 <= i < |xs| ==> Printable(xs[i]) && Acceptable(r, xs[i])
    requires r.minimumPadding == 0 && forall k :: r.allocates(k)
    ensures Decode(r, StreamOf(xs) + rest, n) == ToRegistered(r, xs) + Decode(r, rest, n + |ToRegistered(r, xs)|)
  {
    hide Encode, Decode;
    if xs == [] {
      assert StreamOf(xs) + rest == rest;
    } else {
      var x, tail := xs[0], StreamOf(xs[1..]) + rest;
      assert Acceptable(r, x);
      assert StreamOf(xs) + rest == ItemBytes(x) + tail;
      if x.Command? {
        CommandSkipped(r, x.bytes, tail, n);
        MixedStream(r, xs[1..], rest, n);
      } else if r.devices[x.frame.mux as int - 0x81] {
        DecodeOne(r, x.frame, tail, n);
        MixedStream(r, xs[1..], rest, n + 1);
      } else {
        UnregisteredSkipped(r, x.frame, tail, n);
        MixedStream(r, xs[1..], rest, n);
      }
    }
  }

  /** The header bytes of both printers, by number. */
  lemma FrameBytes(f: Frame)
    requires |f.fill| < 4
    ensures var n := |f.payload| + |f.fill|;
            Encode(f) ==
              (if f.v5 then [(64 + |f.fill|) as byte, f.mux, (n / 256 % 256) as byte, (n % 256) as byte, 4, 0, 0, 0]
               else [|f.fill| as byte, f.mux, (n / 256 % 256) as byte, (n % 256) as byte]) + f.payload + f.fill
  {
  }

  function Volume(rx: seq<Rx>): nat {
    if rx == [] then 0 else QMAP_HDR + |rx[0].payload| + Volume(rx[1..])
  }

  /** On any bytes at all: every packet handed up fits, goes to a registered device, and nothing is handed up twice. */
  lemma {:induction false} DecodeIsSound(r: Receiver, s: seq<byte>, n: nat)
    ensures var rx := Decode(r, s, n);
            && Volume(rx) <= |s|
            && forall i :: 0 <= i < |rx| ==>
                 && |rx[i].payload| <= MAX_PACKET && rx[i].dev < |r.devices| && r.devices[rx[i].dev]
                 && (rx[i].payload != [] ==> rx[i].payload[0] as nat / 16 == 4 || rx[i].payload[0] as nat / 16 == 6)
    decreases |s|
  {
    if |s| > QMAP_HDR {
      match Parse(r, s, n) {
        case Stop =>
        case Skip(size) => DecodeIsSound(r, s[size..], n);
        case Deliver(size, rx) =>
          DecodeIsSound(r, s[size..], n + 1);
          assert Decode(r, s, n)[1..] == Decode(r, s[size..], n + 1);
      }
    }
  }
}
