/**
  SHA-1 as FIPS 180-4 defines it: the functions and constants of sections 4.1.1 and 4.2.1,
  the padding of section 5.1.1 and the hash computation of section 6.1.2 with its
  80-word message schedule.  Nothing here follows the C program.
 */
module Sha1Spec {
  import opened Arith

  type octet = bv8
  type word = bv32

  /** The five working variables, and also the five words of an intermediate hash value. */
  datatype Regs = Regs(a: word, b: word, c: word, d: word, e: word)

  const BLOCK := 64
  const DIGEST := 20

  function Rotl1(x: word): word { (x << 1) | (x >> 31) }
  function Rotl5(x: word): word { (x << 5) | (x >> 27) }
  function Rotl30(x: word): word { (x << 30) | (x >> 2) }

  function Ch(x: word, y: word, z: word): word { (x & y) ^ ((!x) & z) }
  function Parity(x: word, y: word, z: word): word { x ^ y ^ z }
  function Maj(x: word, y: word, z: word): word { (x & y) ^ (x & z) ^ (y & z) }

  /** Section 4.1.1: the logical function of round t. */
  function F(t: nat, x: word, y: word, z: word): word {
    if t < 20 then Ch(x, y, z) else if t < 40 then Parity(x, y, z)
    else if t < 60 then Maj(x, y, z) else Parity(x, y, z)
  }

  /** Section 4.2.1: the constant of round t. */
  function K(t: nat): word {
    if t < 20 then 0x5A827999 else if t < 40 then 0x6ED9EBA1
    else if t < 60 then 0x8F1BBCDC else 0xCA62C1D6
  }

  /** The big-endian word of four bytes (section 3.1). */
  function BeWord(b0: octet, b1: octet, b2: octet, b3: octet): word {
    ((b0 as word) << 24) | ((b1 as word) << 16) | ((b2 as word) << 8) | (b3 as word)
  }

  /** The sixteen words of a 64-byte block. */
  function BlockWords(b: seq<octet>): (m: seq<word>)
    requires |b| == BLOCK
    ensures |m| == 16
  {
    seq(16, i requires 0 <= i < 16 => BeWord(b[4 * i], b[4 * i + 1], b[4 * i + 2], b[4 * i + 3]))
  }

  /** Section 6.1.2, step 1: the message schedule. */
  function W(m: seq<word>, t: nat): word
    requires |m| == 16
  {
    if t < 16 then m[t] else Rotl1(W(m, t - 3) ^ W(m, t - 8) ^ W(m, t - 14) ^ W(m, t - 16))
  }

  /** The temporary word T of section 6.1.2: a sum modulo 2^32. */
  function T(a5: word, f: word, e: word, k: word, w: word): word { a5 + f + e + k + w }

  /** Section 6.1.2, step 3: one round, with its logical function, constant and schedule word. */
  function Step(r: Regs, t: nat, w: word): Regs {
    Regs(T(Rotl5(r.a), F(t, r.b, r.c, r.d), r.e, K(t), w), r.a, Rotl30(r.b), r.c, r.d)
  }

  function Rounds(h: Regs, m: seq<word>, t: nat): Regs
    requires |m| == 16
  {
    if t == 0 then h else Step(Rounds(h, m, t - 1), t - 1, W(m, t - 1))
  }

  /** Addition modulo 2^32. */
  function Plus(x: word, y: word): word { x + y }

  function AddRegs(x: Regs, y: Regs): Regs {
    Regs(Plus(x.a, y.a), Plus(x.b, y.b), Plus(x.c, y.c), Plus(x.d, y.d), Plus(x.e, y.e))
  }

  /** Section 6.1.2: the next intermediate hash value. */
  function Compress(h: Regs, block: seq<octet>): Regs
    requires |block| == BLOCK
  {
    AddRegs(h, Rounds(h, BlockWords(block), 80))
  }

  /** Section 5.3.1. */
  const H0 := Regs(0x67452301, 0xEFCDAB89, 0x98BADCFE, 0x10325476, 0xC3D2E1F0)

  /** The hash value after the first n blocks of s. */
  function Fold(s: seq<octet>, n: nat): Regs
    requires BLOCK * n <= |s|
  {
    if n == 0 then H0 else Compress(Fold(s, n - 1), s[BLOCK * (n - 1)..BLOCK * n])
  }

  function Zeros(n: nat): (z: seq<octet>)
    ensures |z| == n && forall i :: 0 <= i < n ==> z[i] == 0
  {
    seq(n, i => 0)
  }

  function ByteOf(n: int): octet
    requires 0 <= n < 256
  {
    n as octet
  }

  /** The 64-bit big-endian representation of n; section 5.1.1 uses it for n below 2^64. */
  function Be64(n: nat): (s: seq<octet>)
    ensures |s| == 8
  {
    [ByteOf(n / 0x100_0000_0000_0000 % 256), ByteOf(n / 0x1_0000_0000_0000 % 256),
     ByteOf(n / 0x100_0000_0000 % 256), ByteOf(n / 0x1_0000_0000 % 256),
     ByteOf(n / 0x100_0000 % 256), ByteOf(n / 0x1_0000 % 256),
     ByteOf(n / 0x100 % 256), ByteOf(n % 256)]
  }

  /** The number k of zero bytes of section 5.1.1, in bytes: see ZeroCountIsLeast. */
  function ZeroCount(len: nat): (k: nat) {
    (119 - len % 64) % 64
  }

  function Pad(m: seq<octet>): (p: seq<octet>)
    ensures |p| == |m| + 1 + ZeroCount(|m|) + 8
  {
    m + [0x80] + Zeros(ZeroCount(|m|)) + Be64(8 * |m|)
  }

  /** The four big-endian bytes of a word. */
  function WordBytes(w: word): (s: seq<octet>)
    ensures |s| == 4
  {
    [((w >> 24) & 0xFF) as octet, ((w >> 16) & 0xFF) as octet, ((w >> 8) & 0xFF) as octet, (w & 0xFF) as octet]
  }

  /** The digest bytes of a hash value: five big-endian words. */
  function RegsBytes(h: Regs): (s: seq<octet>)
    ensures |s| == DIGEST
  {
    WordBytes(h.a) + WordBytes(h.b) + WordBytes(h.c) + WordBytes(h.d) + WordBytes(h.e)
  }

  function Sha1(m: seq<octet>): (d: seq<octet>)
    ensures |d| == DIGEST
  {
    PadIsWhole(m);
    RegsBytes(Fold(Pad(m), |Pad(m)| / BLOCK))
  }

  lemma PadIsWhole(m: seq<octet>)
    ensures |Pad(m)| % BLOCK == 0
  {
    ZeroCountIsLeast(|m|, 0);
    WholeBlocks(|m| + 1 + ZeroCount(|m|));
  }

  lemma WholeBlocks(n: nat)
    requires n % 64 == 56
    ensures (n + 8) % 64 == 0
  {
  }

  /** Section 5.1.1 asks for the smallest non-negative k with l + 1 + k congruent to 448 modulo 512 bits. */
  lemma ZeroCountIsLeast(len: nat, k: nat)
    ensures (len + 1 + ZeroCount(len)) % 64 == 56
    ensures (len + 1 + k) % 64 == 56 ==> ZeroCount(len) <= k
  {
    var q, r := len / 64, len % 64;
    if r < 56 {
      Quot(119 - r, 64, 1, 55 - r);
      Quot(len + 1 + ZeroCount(len), 64, q, 56);
    } else {
      Quot(119 - r, 64, 0, 119 - r);
      Quot(len + 1 + ZeroCount(len), 64, q + 1, 56);
    }
    if k < ZeroCount(len) {
      var s := r + 1 + k;
      Quot(len + 1 + k, 64, if s < 64 then q else q + 1, if s < 64 then s else s - 64);
    }
  }

  /** The padding by its bytes: 128, then zeros, then eight bytes, whole blocks in all and not one more than that takes. */
  lemma PadByBytes(m: seq<octet>)
    ensures var p := Pad(m);
            && m < p && p[|m|] == 128 && |p| % 64 == 0 && |p| < |m| + 73
            && (forall i :: |m| < i < |p| - 8 ==> p[i] == 0)
            && forall i :: 0 <= i < 8 ==> p[|p| - 8 + i] == Be64(8 * |m|)[i]
  {
    hide Be64;
    PadIsWhole(m);
  }

  // ---------- where the constants come from ----------

  /** The constants of section 4.2.1 are the square roots of 2, 3, 5 and 10, times 2^30 and rounded down. */
  lemma RoundConstants(t: nat)
    requires t < 80
    ensures var n := if t < 20 then 2 else if t < 40 then 3 else if t < 60 then 5 else 10;
            var k := K(t) as int;
            k * k <= n * 0x1000_0000_0000_0000 < (k + 1) * (k + 1)
  {
  }

  /**
    The initial hash value of section 5.3.1, least significant half-byte first: the half-bytes of 01, 23, 45
    and so on up to EF, then down again from FE to 10, then of F0, E1, D2 and C3.
   */
  lemma InitialValue()
    ensures Nibbles(H0.a) + Nibbles(H0.b) == [1, 0, 3, 2, 5, 4, 7, 6, 9, 8, 11, 10, 13, 12, 15, 14]
    ensures Nibbles(H0.c) + Nibbles(H0.d) == [14, 15, 12, 13, 10, 11, 8, 9, 6, 7, 4, 5, 2, 3, 0, 1]
    ensures Nibbles(H0.e) == [0, 15, 1, 14, 2, 13, 3, 12]
  {
  }

  /** The eight half-bytes of a word, the least significant one first. */
  function Nibbles(w: word): seq<word> {
    [w & 15, (w >> 4) & 15, (w >> 8) & 15, (w >> 12) & 15, (w >> 16) & 15, (w >> 20) & 15, (w >> 24) & 15, (w >> 28) & 15]
  }

  /** The circular shifts of section 3.2. */
  lemma Rotations(x: word)
    ensures Rotl1(x) == x.RotateLeft(1) && Rotl5(x) == x.RotateLeft(5) && Rotl30(x) == x.RotateLeft(30)
  {
  }
}
