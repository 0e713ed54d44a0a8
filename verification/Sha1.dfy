/**
  The block transform of sha1.c: 80 unrolled rounds with rotated register names, working in
  place on the 64 bytes it is given, which it uses as sixteen little-endian words.
 */
module Sha1Transform {
  import opened Sha1Spec

  function Rotl8(x: word): word { (x << 8) | (x >> 24) }
  function Rotl24(x: word): word { (x << 24) | (x >> 8) }

  /** The word a little-endian machine sees in four bytes. */
  function LeWord(b0: octet, b1: octet, b2: octet, b3: octet): word {
    BeWord(b3, b2, b1, b0)
  }

  /** The sixteen words l[0..16] of the union, read from the bytes at off. */
  function Words(buf: array<octet>, off: nat): (l: seq<word>)
    requires off + BLOCK <= buf.Length
    reads buf
    ensures |l| == 16
  {
    seq(16, j requires 0 <= j < 16 reads buf =>
      LeWord(buf[off + 4 * j], buf[off + 4 * j + 1], buf[off + 4 * j + 2], buf[off + 4 * j + 3]))
  }

  lemma WordRoundTrip(w: word)
    ensures var s := WordBytes(w); BeWord(s[0], s[1], s[2], s[3]) == w
  {
  }

  method PutBytes(buf: array<octet>, p: nat, b0: octet, b1: octet, b2: octet, b3: octet)
    requires p + 4 <= buf.Length
    modifies buf
    ensures buf[p] == b0 && buf[p + 1] == b1 && buf[p + 2] == b2 && buf[p + 3] == b3
    ensures forall k :: 0 <= k < buf.Length && !(p <= k < p + 4) ==> buf[k] == old(buf[k])
  {
    buf[p] := b0;
    buf[p + 1] := b1;
    buf[p + 2] := b2;
    buf[p + 3] := b3;
  }

  /** An assignment to l[j]: least significant byte first. */
  method PutWord(buf: array<octet>, off: nat, j: nat, w: word)
    requires off + BLOCK <= buf.Length && j < 16
    modifies buf
    ensures Words(buf, off) == old(Words(buf, off))[j := w]
    ensures forall k :: 0 <= k < buf.Length && !(off <= k < off + BLOCK) ==> buf[k] == old(buf[k])
  {
    hide WordBytes, BeWord;
    var s := WordBytes(w);
    PutBytes(buf, off + 4 * j, s[3], s[2], s[1], s[0]);
    WordRoundTrip(w);
  }

  /** The right-hand side of blk0 on a little-endian machine. */
  function ByteSwap(l: word): word { (Rotl24(l) & 0xFF00FF00) | (Rotl8(l) & 0x00FF00FF) }

  /** blk0 turns the raw little-endian word of four bytes into their big-endian word. */
  lemma SwapGivesBigEndian(b0: octet, b1: octet, b2: octet, b3: octet)
    ensures ByteSwap(LeWord(b0, b1, b2, b3)) == BeWord(b0, b1, b2, b3)
  {
  }

  lemma ChRewritten(x: word, y: word, z: word)
    ensures (x & (y ^ z)) ^ z == Ch(x, y, z)
  {
  }

  lemma MajRewritten(x: word, y: word, z: word)
    ensures ((x | y) & z) | (x & y) == Maj(x, y, z)
  {
  }

  /** What the macros add up, in their order: z += f + blk + K + rol(v, 5). */
  function Accumulate(z: word, f: word, w: word, k: word, r: word): word { z + (f + w + k + r) }

  lemma SumReordered(z: word, f: word, w: word, k: word, r: word)
    ensures Accumulate(z, f, w, k, r) == T(r, f, z, k, w)
  {
  }

  /** The sixteen words of the block as the little-endian machine first sees them. */
  function RawWords(b: seq<octet>): (l: seq<word>)
    requires |b| == BLOCK
    ensures |l| == 16
  {
    seq(16, j requires 0 <= j < 16 => LeWord(b[4 * j], b[4 * j + 1], b[4 * j + 2], b[4 * j + 3]))
  }

  /** The sixteen words after t schedule steps have been computed in place: step t writes word t mod 16. */
  ghost function WordsAt(b: seq<octet>, t: nat): (l: seq<word>)
    requires |b| == BLOCK
    ensures |l| == 16
  {
    if t == 0 then RawWords(b)
    else WordsAt(b, t - 1)[(t - 1) % 16 := W(BlockWords(b), t - 1)]
  }

  /** Sixteen words are enough: they hold the last sixteen entries of the 80-word schedule. */
  lemma {:induction false} InPlaceSchedule(b: seq<octet>, t: nat, s: nat)
    requires |b| == BLOCK
    ensures s < t <= s + 16 ==> WordsAt(b, t)[s % 16] == W(BlockWords(b), s)
    ensures t <= s < 16 ==> WordsAt(b, t)[s] == RawWords(b)[s]
  {
    hide W, RawWords, BlockWords;
    if t > 0 {
      InPlaceSchedule(b, t - 1, s);
      if s < t - 1 && t <= s + 16 {
        assert s % 16 != (t - 1) % 16;
      }
    }
  }

  /** What every round keeps: registers and block words after i rounds on the original block bytes b. */
  ghost predicate AfterRounds(h: Regs, b: seq<octet>, i: nat, r: Regs, l: seq<word>) {
    |b| == BLOCK && r == Rounds(h, BlockWords(b), i) && l == WordsAt(b, i)
  }

  /** One round in the C program's form: z collects the sum and w is rotated; the names move round by one. */
  lemma StepInPlace(r: Regs, i: nat, t: word, f: word, z: word, w: word)
    requires f == F(i, r.b, r.c, r.d)
    requires z == Accumulate(r.e, f, t, K(i), Rotl5(r.a)) && w == Rotl30(r.b)
    ensures Regs(z, r.a, w, r.c, r.d) == Step(r, i, t)
  {
    hide F, K, Rotl5, Rotl30, Accumulate, T;
    SumReordered(r.e, f, t, K(i), Rotl5(r.a));
  }

  lemma RoundInPlace(h: Regs, b: seq<octet>, i: nat, r: Regs, t: word, f: word, z: word, w: word)
    requires |b| == BLOCK && r == Rounds(h, BlockWords(b), i)
    requires t == W(BlockWords(b), i) && f == F(i, r.b, r.c, r.d)
    requires z == Accumulate(r.e, f, t, K(i), Rotl5(r.a)) && w == Rotl30(r.b)
    ensures Regs(z, r.a, w, r.c, r.d) == Rounds(h, BlockWords(b), i + 1)
  {
    hide F, K, Rotl5, Rotl30, Accumulate, T, Step, W, BlockWords;
    StepInPlace(r, i, t, f, z, w);
  }

  lemma WordsAtStep(b: seq<octet>, i: nat)
    requires |b| == BLOCK
    ensures WordsAt(b, i + 1) == WordsAt(b, i)[i % 16 := W(BlockWords(b), i)]
  {
  }

  lemma SwapRaw(b: seq<octet>, i: nat)
    requires |b| == BLOCK && i < 16
    ensures ByteSwap(RawWords(b)[i]) == BlockWords(b)[i]
  {
    hide ByteSwap, LeWord, BeWord;
    SwapGivesBigEndian(b[4 * i], b[4 * i + 1], b[4 * i + 2], b[4 * i + 3]);
  }

  lemma Blk0Value(b: seq<octet>, i: nat)
    requires |b| == BLOCK && i < 16
    ensures ByteSwap(WordsAt(b, i)[i]) == W(BlockWords(b), i)
  {
    hide ByteSwap, LeWord, BeWord, WordsAt, RawWords, BlockWords;
    InPlaceSchedule(b, i, i);
    SwapRaw(b, i);
  }

  method Blk0(buf: array<octet>, off: nat, i: nat, ghost b: seq<octet>) returns (t: word)
    requires off + BLOCK <= buf.Length && i < 16
    requires |b| == BLOCK && Words(buf, off) == WordsAt(b, i)
    modifies buf
    ensures t == W(BlockWords(b), i)
    ensures Words(buf, off) == WordsAt(b, i + 1)
    ensures forall k :: 0 <= k < buf.Length && !(off <= k < off + BLOCK) ==> buf[k] == old(buf[k])
  {
    hide ByteSwap, W, WordsAt;
    t := ByteSwap(Words(buf, off)[i]);
    Blk0Value(b, i);
    WordsAtStep(b, i);
    PutWord(buf, off, i, t);
  }

  /** What blk computes from four words. */
  function Mix(a: word, b: word, c: word, d: word): word { Rotl1(a ^ b ^ c ^ d) }

  lemma MixIsW(block: seq<word>, i: nat)
    requires |block| == 16 && 16 <= i
    ensures Mix(W(block, i - 3), W(block, i - 8), W(block, i - 14), W(block, i - 16)) == W(block, i)
  {
  }

  lemma SixteenMore(x: nat)
    ensures (x + 16) % 16 == x % 16
  {
  }

  lemma BlkValue(b: seq<octet>, i: nat)
    requires |b| == BLOCK && 16 <= i
    ensures var l := WordsAt(b, i); Mix(l[(i + 13) % 16], l[(i + 8) % 16], l[(i + 2) % 16], l[i % 16]) == W(BlockWords(b), i)
  {
    hide WordsAt, BlockWords, Mix, W;
    InPlaceSchedule(b, i, i - 3);
    InPlaceSchedule(b, i, i - 8);
    InPlaceSchedule(b, i, i - 14);
    InPlaceSchedule(b, i, i - 16);
    SixteenMore(i - 3);
    SixteenMore(i - 8);
    SixteenMore(i - 14);
    SixteenMore(i - 16);
    MixIsW(BlockWords(b), i);
  }

  method Blk(buf: array<octet>, off: nat, i: nat, ghost b: seq<octet>) returns (t: word)
    requires off + BLOCK <= buf.Length && 16 <= i
    requires |b| == BLOCK && Words(buf, off) == WordsAt(b, i)
    modifies buf
    ensures t == W(BlockWords(b), i)
    ensures Words(buf, off) == WordsAt(b, i + 1)
    ensures forall k :: 0 <= k < buf.Length && !(off <= k < off + BLOCK) ==> buf[k] == old(buf[k])
  {
    hide Mix, W, WordsAt, BlockWords;
    BlkValue(b, i);
    WordsAtStep(b, i);
    var l := Words(buf, off);
    t := Mix(l[(i + 13) % 16], l[(i + 8) % 16], l[(i + 2) % 16], l[i % 16]);
    PutWord(buf, off, i % 16, t);
  }

  method R0(v: word, w: word, x: word, y: word, z: word, buf: array<octet>, off: nat, i: nat,
            ghost h: Regs, ghost b: seq<octet>) returns (z': word, w': word)
    requires off + BLOCK <= buf.Length && i < 16
    requires AfterRounds(h, b, i, Regs(v, w, x, y, z), Words(buf, off))
    modifies buf
    ensures AfterRounds(h, b, i + 1, Regs(z', v, w', x, y), Words(buf, off))
    ensures forall k :: 0 <= k < buf.Length && !(off <= k < off + BLOCK) ==> buf[k] == old(buf[k])
  {
    var t := Blk0(buf, off, i, b);
    z' := Accumulate(z, (w & (x ^ y)) ^ y, t, 0x5A827999, Rotl5(v));
    w' := Rotl30(w);
    ChRewritten(w, x, y);
    RoundInPlace(h, b, i, Regs(v, w, x, y, z), t, Ch(w, x, y), z', w');
  }

  method R1(v: word, w: word, x: word, y: word, z: word, buf: array<octet>, off: nat, i: nat,
            ghost h: Regs, ghost b: seq<octet>) returns (z': word, w': word)
    requires off + BLOCK <= buf.Length && 16 <= i < 20
    requires AfterRounds(h, b, i, Regs(v, w, x, y, z), Words(buf, off))
    modifies buf
    ensures AfterRounds(h, b, i + 1, Regs(z', v, w', x, y), Words(buf, off))
    ensures forall k :: 0 <= k < buf.Length && !(off <= k < off + BLOCK) ==> buf[k] == old(buf[k])
  {
    var t := Blk(buf, off, i, b);
    z' := Accumulate(z, (w & (x ^ y)) ^ y, t, 0x5A827999, Rotl5(v));
    w' := Rotl30(w);
    ChRewritten(w, x, y);
    RoundInPlace(h, b, i, Regs(v, w, x, y, z), t, Ch(w, x, y), z', w');
  }

  method R2(v: word, w: word, x: word, y: word, z: word, buf: array<octet>, off: nat, i: nat,
            ghost h: Regs, ghost b: seq<octet>) returns (z': word, w': word)
    requires off + BLOCK <= buf.Length && 20 <= i < 40
    requires AfterRounds(h, b, i, Regs(v, w, x, y, z), Words(buf, off))
    modifies buf
    ensures AfterRounds(h, b, i + 1, Regs(z', v, w', x, y), Words(buf, off))
    ensures forall k :: 0 <= k < buf.Length && !(off <= k < off + BLOCK) ==> buf[k] == old(buf[k])
  {
    var t := Blk(buf, off, i, b);
    z' := Accumulate(z, w ^ x ^ y, t, 0x6ED9EBA1, Rotl5(v));
    w' := Rotl30(w);
    RoundInPlace(h, b, i, Regs(v, w, x, y, z), t, Parity(w, x, y), z', w');
  }

  method R3(v: word, w: word, x: word, y: word, z: word, buf: array<octet>, off: nat, i: nat,
            ghost h: Regs, ghost b: seq<octet>) returns (z': word, w': word)
    requires off + BLOCK <= buf.Length && 40 <= i < 60
    requires AfterRounds(h, b, i, Regs(v, w, x, y, z), Words(buf, off))
    modifies buf
    ensures AfterRounds(h, b, i + 1, Regs(z', v, w', x, y), Words(buf, off))
    ensures forall k :: 0 <= k < buf.Length && !(off <= k < off + BLOCK) ==> buf[k] == old(buf[k])
  {
    var t := Blk(buf, off, i, b);
    z' := Accumulate(z, ((w | x) & y) | (w & x), t, 0x8F1BBCDC, Rotl5(v));
    w' := Rotl30(w);
    MajRewritten(w, x, y);
    RoundInPlace(h, b, i, Regs(v, w, x, y, z), t, Maj(w, x, y), z', w');
  }

  method R4(v: word, w: word, x: word, y: word, z: word, buf: array<octet>, off: nat, i: nat,
            ghost h: Regs, ghost b: seq<octet>) returns (z': word, w': word)
    requires off + BLOCK <= buf.Length && 60 <= i < 80
    requires AfterRounds(h, b, i, Regs(v, w, x, y, z), Words(buf, off))
    modifies buf
    ensures AfterRounds(h, b, i + 1, Regs(z', v, w', x, y), Words(buf, off))
    ensures forall k :: 0 <= k < buf.Length && !(off <= k < off + BLOCK) ==> buf[k] == old(buf[k])
  {
    var t := Blk(buf, off, i, b);
    z' := Accumulate(z, w ^ x ^ y, t, 0xCA62C1D6, Rotl5(v));
    w' := Rotl30(w);
    RoundInPlace(h, b, i, Regs(v, w, x, y, z), t, Parity(w, x, y), z', w');
  }

  /** Rounds 0 to 19. */
  method Rounds0(a0: word, b0: word, c0: word, d0: word, e0: word, buf: array<octet>, off: nat,
                 ghost h: Regs, ghost bs: seq<octet>) returns (a: word, b: word, c: word, d: word, e: word)
    requires off + BLOCK <= buf.Length
    requires AfterRounds(h, bs, 0, Regs(a0, b0, c0, d0, e0), Words(buf, off))
    modifies buf
    ensures AfterRounds(h, bs, 20, Regs(a, b, c, d, e), Words(buf, off))
    ensures forall k :: 0 <= k < buf.Length && !(off <= k < off + BLOCK) ==> buf[k] == old(buf[k])
  {
    hide AfterRounds, Words;
    a, b, c, d, e := a0, b0, c0, d0, e0;
    e, b := R0(a, b, c, d, e, buf, off, 0, h, bs);
    d, a := R0(e, a, b, c, d, buf, off, 1, h, bs);
    c, e := R0(d, e, a, b, c, buf, off, 2, h, bs);
    b, d := R0(c, d, e, a, b, buf, off, 3, h, bs);
    a, c := R0(b, c, d, e, a, buf, off, 4, h, bs);
    e, b := R0(a, b, c, d, e, buf, off, 5, h, bs);
    d, a := R0(e, a, b, c, d, buf, off, 6, h, bs);
    c, e := R0(d, e, a, b, c, buf, off, 7, h, bs);
    b, d := R0(c, d, e, a, b, buf, off, 8, h, bs);
    a, c := R0(b, c, d, e, a, buf, off, 9, h, bs);
    e, b := R0(a, b, c, d, e, buf, off, 10, h, bs);
    d, a := R0(e, a, b, c, d, buf, off, 11, h, bs);
    c, e := R0(d, e, a, b, c, buf, off, 12, h, bs);
    b, d := R0(c, d, e, a, b, buf, off, 13, h, bs);
    a, c := R0(b, c, d, e, a, buf, off, 14, h, bs);
    e, b := R0(a, b, c, d, e, buf, off, 15, h, bs);
    d, a := R1(e, a, b, c, d, buf, off, 16, h, bs);
    c, e := R1(d, e, a, b, c, buf, off, 17, h, bs);
    b, d := R1(c, d, e, a, b, buf, off, 18, h, bs);
    a, c := R1(b, c, d, e, a, buf, off, 19, h, bs);
  }

  /** Rounds 20 to 39. */
  method Rounds20(a0: word, b0: word, c0: word, d0: word, e0: word, buf: array<octet>, off: nat,
                 ghost h: Regs, ghost bs: seq<octet>) returns (a: word, b: word, c: word, d: word, e: word)
    requires off + BLOCK <= buf.Length
    requires AfterRounds(h, bs, 20, Regs(a0, b0, c0, d0, e0), Words(buf, off))
    modifies buf
    ensures AfterRounds(h, bs, 40, Regs(a, b, c, d, e), Words(buf, off))
    ensures forall k :: 0 <= k < buf.Length && !(off <= k < off + BLOCK) ==> buf[k] == old(buf[k])
  {
    hide AfterRounds, Words;
    a, b, c, d, e := a0, b0, c0, d0, e0;
    e, b := R2(a, b, c, d, e, buf, off, 20, h, bs);
    d, a := R2(e, a, b, c, d, buf, off, 21, h, bs);
    c, e := R2(d, e, a, b, c, buf, off, 22, h, bs);
    b, d := R2(c, d, e, a, b, buf, off, 23, h, bs);
    a, c := R2(b, c, d, e, a, buf, off, 24, h, bs);
    e, b := R2(a, b, c, d, e, buf, off, 25, h, bs);
    d, a := R2(e, a, b, c, d, buf, off, 26, h, bs);
    c, e := R2(d, e, a, b, c, buf, off, 27, h, bs);
    b, d := R2(c, d, e, a, b, buf, off, 28, h, bs);
    a, c := R2(b, c, d, e, a, buf, off, 29, h, bs);
    e, b := R2(a, b, c, d, e, buf, off, 30, h, bs);
    d, a := R2(e, a, b, c, d, buf, off, 31, h, bs);
    c, e := R2(d, e, a, b, c, buf, off, 32, h, bs);
    b, d := R2(c, d, e, a, b, buf, off, 33, h, bs);
    a, c := R2(b, c, d, e, a, buf, off, 34, h, bs);
    e, b := R2(a, b, c, d, e, buf, off, 35, h, bs);
    d, a := R2(e, a, b, c, d, buf, off, 36, h, bs);
    c, e := R2(d, e, a, b, c, buf, off, 37, h, bs);
    b, d := R2(c, d, e, a, b, buf, off, 38, h, bs);
    a, c := R2(b, c, d, e, a, buf, off, 39, h, bs);
  }

  /** Rounds 40 to 59. */
  method Rounds40(a0: word, b0: word, c0: word, d0: word, e0: word, buf: array<octet>, off: nat,
                 ghost h: Regs, ghost bs: seq<octet>) returns (a: word, b: word, c: word, d: word, e: word)
    requires off + BLOCK <= buf.Length
    requires AfterRounds(h, bs, 40, Regs(a0, b0, c0, d0, e0), Words(buf, off))
    modifies buf
    ensures AfterRounds(h, bs, 60, Regs(a, b, c, d, e), Words(buf, off))
    ensures forall k :: 0 <= k < buf.Length && !(off <= k < off + BLOCK) ==> buf[k] == old(buf[k])
  {
    hide AfterRounds, Words;
    a, b, c, d, e := a0, b0, c0, d0, e0;
    e, b := R3(a, b, c, d, e, buf, off, 40, h, bs);
    d, a := R3(e, a, b, c, d, buf, off, 41, h, bs);
    c, e := R3(d, e, a, b, c, buf, off, 42, h, bs);
    b, d := R3(c, d, e, a, b, buf, off, 43, h, bs);
    a, c := R3(b, c, d, e, a, buf, off, 44, h, bs);
    e, b := R3(a, b, c, d, e, buf, off, 45, h, bs);
    d, a := R3(e, a, b, c, d, buf, off, 46, h, bs);
    c, e := R3(d, e, a, b, c, buf, off, 47, h, bs);
    b, d := R3(c, d, e, a, b, buf, off, 48, h, bs);
    a, c := R3(b, c, d, e, a, buf, off, 49, h, bs);
    e, b := R3(a, b, c, d, e, buf, off, 50, h, bs);
    d, a := R3(e, a, b, c, d, buf, off, 51, h, bs);
    c, e := R3(d, e, a, b, c, buf, off, 52, h, bs);
    b, d := R3(c, d, e, a, b, buf, off, 53, h, bs);
    a, c := R3(b, c, d, e, a, buf, off, 54, h, bs);
    e, b := R3(a, b, c, d, e, buf, off, 55, h, bs);
    d, a := R3(e, a, b, c, d, buf, off, 56, h, bs);
    c, e := R3(d, e, a, b, c, buf, off, 57, h, bs);
    b, d := R3(c, d, e, a, b, buf, off, 58, h, bs);
    a, c := R3(b, c, d, e, a, buf, off, 59, h, bs);
  }

  /** Rounds 60 to 79. */
  method Rounds60(a0: word, b0: word, c0: word, d0: word, e0: word, buf: array<octet>, off: nat,
                 ghost h: Regs, ghost bs: seq<octet>) returns (a: word, b: word, c: word, d: word, e: word)
    requires off + BLOCK <= buf.Length
    requires AfterRounds(h, bs, 60, Regs(a0, b0, c0, d0, e0), Words(buf, off))
    modifies buf
    ensures AfterRounds(h, bs, 80, Regs(a, b, c, d, e), Words(buf, off))
    ensures forall k :: 0 <= k < buf.Length && !(off <= k < off + BLOCK) ==> buf[k] == old(buf[k])
  {
    hide AfterRounds, Words;
    a, b, c, d, e := a0, b0, c0, d0, e0;
    e, b := R4(a, b, c, d, e, buf, off, 60, h, bs);
    d, a := R4(e, a, b, c, d, buf, off, 61, h, bs);
    c, e := R4(d, e, a, b, c, buf, off, 62, h, bs);
    b, d := R4(c, d, e, a, b, buf, off, 63, h, bs);
    a, c := R4(b, c, d, e, a, buf, off, 64, h, bs);
    e, b := R4(a, b, c, d, e, buf, off, 65, h, bs);
    d, a := R4(e, a, b, c, d, buf, off, 66, h, bs);
    c, e := R4(d, e, a, b, c, buf, off, 67, h, bs);
    b, d := R4(c, d, e, a, b, buf, off, 68, h, bs);
    a, c := R4(b, c, d, e, a, buf, off, 69, h, bs);
    e, b := R4(a, b, c, d, e, buf, off, 70, h, bs);
    d, a := R4(e, a, b, c, d, buf, off, 71, h, bs);
    c, e := R4(d, e, a, b, c, buf, off, 72, h, bs);
    b, d := R4(c, d, e, a, b, buf, off, 73, h, bs);
    a, c := R4(b, c, d, e, a, buf, off, 74, h, bs);
    e, b := R4(a, b, c, d, e, buf, off, 75, h, bs);
    d, a := R4(e, a, b, c, d, buf, off, 76, h, bs);
    c, e := R4(d, e, a, b, c, buf, off, 77, h, bs);
    b, d := R4(c, d, e, a, b, buf, off, 78, h, bs);
    a, c := R4(b, c, d, e, a, buf, off, 79, h, bs);
  }

  ghost function HashOf(state: array<word>): Regs
    requires state.Length == 5
    reads state
  {
    Regs(state[0], state[1], state[2], state[3], state[4])
  }

  lemma WordsAreRaw(buf: array<octet>, off: nat)
    requires off + BLOCK <= buf.Length
    ensures Words(buf, off) == RawWords(buf[off..off + BLOCK])
  {
  }

  lemma AfterNoRounds(h: Regs, b: seq<octet>)
    requires |b| == BLOCK
    ensures AfterRounds(h, b, 0, h, RawWords(b))
  {
  }

  /** The last step of the transform: the working variables are added back into the state. */
  method AddBack(state: array<word>, a: word, b: word, c: word, d: word, e: word)
    requires state.Length == 5
    modifies state
    ensures HashOf(state) == AddRegs(old(HashOf(state)), Regs(a, b, c, d, e))
  {
    hide Plus;
    state[0] := Plus(state[0], a);
    state[1] := Plus(state[1], b);
    state[2] := Plus(state[2], c);
    state[3] := Plus(state[3], d);
    state[4] := Plus(state[4], e);
  }

  /** SHA1_Transform: compresses the block at off into state, and leaves the last sixteen schedule words in its place. */
  method Transform(state: array<word>, buf: array<octet>, off: nat)
    requires state.Length == 5 && off + BLOCK <= buf.Length
    modifies state, buf
    ensures HashOf(state) == Compress(old(HashOf(state)), old(buf[off..off + BLOCK]))
    ensures forall j :: 0 <= j < 16 ==> Words(buf, off)[j] == W(BlockWords(old(buf[off..off + BLOCK])), 64 + j)
    ensures forall k :: 0 <= k < buf.Length && !(off <= k < off + BLOCK) ==> buf[k] == old(buf[k])
  {
    hide Rounds, W, BlockWords, WordsAt, Words, RawWords, LeWord, BeWord, AddRegs;
    ghost var bs := buf[off..off + BLOCK];
    ghost var h := HashOf(state);
    var a, b, c, d, e := state[0], state[1], state[2], state[3], state[4];
    WordsAreRaw(buf, off);
    AfterNoRounds(h, bs);
    a, b, c, d, e := Rounds0(a, b, c, d, e, buf, off, h, bs);
    a, b, c, d, e := Rounds20(a, b, c, d, e, buf, off, h, bs);
    a, b, c, d, e := Rounds40(a, b, c, d, e, buf, off, h, bs);
    a, b, c, d, e := Rounds60(a, b, c, d, e, buf, off, h, bs);
    AddBack(state, a, b, c, d, e);
    forall j | 0 <= j < 16
      ensures WordsAt(bs, 80)[j] == W(BlockWords(bs), 64 + j)
    {
      InPlaceSchedule(bs, 80, 64 + j);
    }
  }
}
