/**
  The streaming interface of sha1.c.  A context that has been fed the bytes m "holds" m; every
  update appends to what it holds, however the message is cut into updates.
 */
module Sha1Context {
  import opened Arith
  import opened Sha1Spec
  import opened Sha1Transform

  const TWO32 := 0x1_0000_0000
  const TWO64 := 0x1_0000_0000_0000_0000

  /** memcpy of n bytes between different objects. */
  method CopyBytes(dst: array<octet>, dpos: nat, src: array<octet>, spos: nat, n: nat)
    requires dst != src && dpos + n <= dst.Length && spos + n <= src.Length
    modifies dst
    ensures dst[..] == old(dst[..dpos]) + src[spos..spos + n] + old(dst[dpos + n..])
  {
    forall k | 0 <= k < n {
      dst[dpos + k] := src[spos + k];
    }
  }

  /** Index in a caller's buffer one past the last byte that Update overwrites, for j pending bytes. */
  function WholeEnd(j: nat, len: nat): (e: int)
    requires j < BLOCK
    ensures (e + j) % BLOCK == 0 && e <= len < e + BLOCK
  {
    (j + len) / BLOCK * BLOCK - j
  }

  lemma {:induction false} FoldOfPrefix(s: seq<octet>, t: seq<octet>, n: nat)
    requires BLOCK * n <= |s|
    ensures Fold(s + t, n) == Fold(s, n)
  {
    hide Compress;
    if n > 0 {
      FoldOfPrefix(s, t, n - 1);
      assert (s + t)[BLOCK * (n - 1)..BLOCK * n] == s[BLOCK * (n - 1)..BLOCK * n];
    }
  }

  /** One wrap-around of a 32-bit sum. */
  lemma Wrap32(x: nat)
    requires x < 2 * TWO32
    ensures x % TWO32 == if x < TWO32 then x else x - TWO32
  {
  }

  /** Line 118 sums unsigned; it means to ask whether a block can be completed. */
  predicate TestAsMeant(j: nat, len: nat) { (j + len) % TWO32 > 63 <==> j + len > 63 }

  /**
    For every 32-bit len the test comes out as meant exactly if the sum does not wrap.  If it does, the call
    takes the short branch and copies len bytes to where fewer than 64 fit.
   */
  lemma BlockTestIff(j: nat, len: nat)
    requires j < BLOCK && len < TWO32
    ensures TestAsMeant(j, len) <==> j + len < TWO32
    ensures j + len >= TWO32 ==> (j + len) % TWO32 <= 63 && j + len > BLOCK
  {
    Wrap32(j + len);
  }

  lemma PendingFromWords(n: nat, q: nat, c0: nat, c1: nat)
    requires 8 * n == q * TWO64 + c1 * TWO32 + c0
    ensures c0 / 8 % 64 == n % 64
  {
    var p := n - q * (TWO64 / 8) - c1 * (TWO32 / 8);
    Quot(c0, 8, p, 0);
    Quot(n, 64, p / 64 + q * (TWO64 / 512) + c1 * (TWO32 / 512), p % 64);
  }

  /** The low counter word gives the number of pending bytes: line 115. */
  lemma PendingFromCount(n: nat, c0: nat, c1: nat)
    requires c1 * TWO32 + c0 == 8 * n % TWO64
    ensures c0 / 8 % 64 == n % 64
  {
    PendingFromWords(n, 8 * n / TWO64, c0, c1);
  }

  /** After n bytes, some call finds the test wrong exactly if bytes are pending: the longest call is one. */
  lemma SomeCallWraps(n: nat, c0: nat, c1: nat)
    requires c1 * TWO32 + c0 == 8 * n % TWO64
    ensures (exists len: nat :: len < TWO32 && !TestAsMeant(c0 / 8 % 64, len)) <==> n % 64 != 0
    ensures n % 64 != 0 ==> !TestAsMeant(c0 / 8 % 64, TWO32 - 1)
  {
    PendingFromCount(n, c0, c1);
    var j := n % 64;
    BlockTestIff(j, TWO32 - 1);
    forall len: nat | len < TWO32
      ensures j == 0 ==> TestAsMeant(j, len)
    {
      BlockTestIff(j, len);
    }
  }

  /** The two-word counter with its carry adds 8 * len modulo 2^64: lines 116 and 117. */
  lemma CountAdds(c0: nat, c1: nat, n: nat, len: nat)
    requires c0 < TWO32 && c1 < TWO32 && len < TWO32
    requires c1 * TWO32 + c0 == 8 * n % TWO64
    ensures var low := 8 * len % TWO32;
            var d0 := (c0 + low) % TWO32;
            var d1 := ((if d0 < low then (c1 + 1) % TWO32 else c1) + len / 0x2000_0000) % TWO32;
            d1 * TWO32 + d0 == 8 * (n + len) % TWO64
  {
    var high, low := len / 0x2000_0000, 8 * (len % 0x2000_0000);
    Quot(8 * len, TWO32, high, low);
    CarryAdds(c0, c1, n, 8 * n / TWO64, low, high);
  }

  lemma CarryAdds(c0: nat, c1: nat, n: nat, q: nat, low: nat, high: nat)
    requires c0 < TWO32 && c1 < TWO32 && low < TWO32 && high < 8
    requires 8 * n == q * TWO64 + c1 * TWO32 + c0
    ensures var d0 := (c0 + low) % TWO32;
            var d1 := ((if d0 < low then (c1 + 1) % TWO32 else c1) + high) % TWO32;
            d1 * TWO32 + d0 == (8 * n + high * TWO32 + low) % TWO64
  {
    var d0 := if c0 + low < TWO32 then c0 + low else c0 + low - TWO32;
    Wrap32(c0 + low);
    var e1 := if d0 < low then (c1 + 1) % TWO32 else c1;
    Wrap32(c1 + 1);
    Wrap32(e1 + high);
    var d1 := (e1 + high) % TWO32;
    var total := c1 + high + (if d0 < low then 1 else 0);
    var r := if total < TWO32 then 0 else 1;
    assert d1 == total - r * TWO32;
    Quot(8 * n + high * TWO32 + low, TWO64, q + r, d1 * TWO32 + d0);
  }

  lemma SliceOfOrig(m: seq<octet>, orig: seq<octet>, s: seq<octet>, i: nat)
    requires i + |s| <= |orig|
    requires forall k :: 0 <= k < |s| ==> s[k] == orig[i + k]
    ensures s == (m + orig)[|m| + i..|m| + i + |s|]
  {
  }

  /** The unsigned sum i + 63 of line 121 does not wrap. */
  lemma NoWrap(j: nat, i: nat, q: nat)
    requires j + i == BLOCK * q && j + i < TWO32
    ensures i + 63 < TWO32
  {
  }

  lemma WholePart(m: nat, len: nat, i: nat, n: nat)
    requires BLOCK * n == m + i && i <= len <= i + 63
    ensures (m + len) / BLOCK == n && (m + len) % BLOCK == len - i
    ensures i == WholeEnd(m % BLOCK, len)
  {
  }

  lemma TailAfterWhole(m: seq<octet>, orig: seq<octet>, i: nat)
    requires i <= |orig| && i == WholeEnd(|m| % BLOCK, |orig|)
    ensures var all := m + orig; |all| % BLOCK == |orig| - i && all[|all| / BLOCK * BLOCK..] == orig[i..]
  {
  }

  lemma TailInBuffer(m: seq<octet>, orig: seq<octet>)
    requires |m| % BLOCK + |orig| < BLOCK
    ensures var all := m + orig; |all| / BLOCK == |m| / BLOCK && |all| % BLOCK == |m| % BLOCK + |orig|
    ensures var all := m + orig; all[|all| / BLOCK * BLOCK..] == m[|m| / BLOCK * BLOCK..] + orig
  {
  }

  /** n shifted right by 8 * k bits. */
  function ShiftBytes(n: nat, k: nat): nat
    requires k < 4
  {
    if k == 0 then n else if k == 1 then n / 0x100 else if k == 2 then n / 0x1_0000 else n / 0x100_0000
  }

  /** Byte i of finalcount, line 137. */
  function CountByte(c0: nat, c1: nat, i: nat): octet
    requires i < 8
  {
    ByteOf(ShiftBytes(if i >= 4 then c0 else c1, 3 - i % 4) % 256)
  }

  /** The low 32 bits decide the low four bytes. */
  lemma LowByte(n: nat, high: nat, c: nat, d: nat, up: nat)
    requires n == high * TWO32 + c && c < TWO32 && d > 0 && d * up * 256 == TWO32
    ensures n / d % 256 == c / d % 256
  {
    var high' := high * (up * 256);
    assert high' * d == high * TWO32;
    Quot(n, d, high' + c / d, c % d);
    assert high' == (high * up) * 256;
    Quot(n / d, 256, high * up + c / d / 256, c / d % 256);
  }

  /** The words above decide the high four bytes. */
  lemma HighByte(n: nat, high: nat, c: nat, d: nat)
    requires n == high * TWO32 + c && c < TWO32 && d > 0
    ensures n / (d * TWO32) == high / d
  {
    var r := high % d;
    assert (r + 1) * TWO32 <= d * TWO32;
    assert n == (high / d) * d * TWO32 + r * TWO32 + c;
    Quot(n, d * TWO32, high / d, r * TWO32 + c);
  }

  lemma CountByteIs(n: nat, c0: nat, c1: nat, i: nat)
    requires c0 < TWO32 && c1 < TWO32 && c1 * TWO32 + c0 == 8 * n % TWO64 && i < 8
    ensures CountByte(c0, c1, i) == Be64(8 * n)[i]
  {
    CountByteFromWords(8 * n, 8 * n / TWO64, c0, c1, i);
  }

  lemma CountByteFromWords(n: nat, q: nat, c0: nat, c1: nat, i: nat)
    requires c0 < TWO32 && c1 < TWO32 && n == q * TWO64 + c1 * TWO32 + c0 && i < 8
    ensures CountByte(c0, c1, i) == Be64(n)[i]
  {
    hide ByteOf;
    var high := q * TWO32 + c1;
    match i {
      case 7 => LowByte(n, high, c0, 1, 0x100_0000);
      case 6 => LowByte(n, high, c0, 0x100, 0x1_0000);
      case 5 => LowByte(n, high, c0, 0x1_0000, 0x100);
      case 4 => LowByte(n, high, c0, 0x100_0000, 1);
      case 3 => HighByte(n, high, c0, 1); LowByte(high, q, c1, 1, 0x100_0000);
      case 2 => HighByte(n, high, c0, 0x100); LowByte(high, q, c1, 0x100, 0x1_0000);
      case 1 => HighByte(n, high, c0, 0x1_0000); LowByte(high, q, c1, 0x1_0000, 0x100);
      case _ => HighByte(n, high, c0, 0x100_0000); LowByte(high, q, c1, 0x100_0000, 1);
    }
  }

  /** Byte k of a state word, line 147. */
  function StateByte(w: word, k: nat): octet
    requires k < 4
  {
    WordBytes(w)[k]
  }

  lemma StateByteIs(h: Regs, i: nat, w: word)
    requires i < DIGEST
    requires w == (match i / 4 case 0 => h.a case 1 => h.b case 2 => h.c case 3 => h.d case _ => h.e)
    ensures StateByte(w, i % 4) == RegsBytes(h)[i]
  {
    hide WordBytes;
  }

  class ShaCtx {
    const state: array<word>
    const buffer: array<octet>
    var count0: nat
    var count1: nat

    constructor ()
      ensures state.Length == 5 && buffer.Length == BLOCK && fresh(state) && fresh(buffer)
    {
      state := new word[5];
      buffer := new octet[BLOCK];
      count0, count1 := 0, 0;
    }

    ghost predicate Shaped()
    {
      state.Length == 5 && buffer.Length == BLOCK
    }

    /** The counter holds the length of n bytes in bits, modulo 2^64. */
    ghost predicate Counted(n: nat)
      reads this
    {
      count0 < TWO32 && count1 < TWO32 && count1 * TWO32 + count0 == 8 * n % TWO64
    }

    /** This context has been fed exactly the bytes m since the last Init. */
    ghost predicate Holds(m: seq<octet>)
      reads this, state, buffer
    {
      && Shaped()
      && Counted(|m|)
      && HashOf(state) == Fold(m, |m| / BLOCK)
      && buffer[..|m| % BLOCK] == m[|m| / BLOCK * BLOCK..]
    }

    method Init()
      requires Shaped()
      modifies this, state
      ensures Holds([])
    {
      hide Compress;
      state[0] := 0x67452301;
      state[1] := 0xEFCDAB89;
      state[2] := 0x98BADCFE;
      state[3] := 0x10325476;
      state[4] := 0xC3D2E1F0;
      count0, count1 := 0, 0;
    }

    /** Line 115. */
    method Pending(ghost n: nat) returns (j: nat)
      requires Counted(n)
      ensures j == n % BLOCK
    {
      PendingFromCount(n, count0, count1);
      j := count0 / 8 % 64;
    }

    /** Lines 116 and 117. */
    method AddToCount(len: nat, ghost n: nat)
      requires Counted(n) && len < TWO32
      modifies this
      ensures Counted(n + len)
    {
      CountAdds(count0, count1, n, len);
      var low := 8 * len % TWO32;
      count0 := (count0 + low) % TWO32;
      if count0 < low {
        count1 := (count1 + 1) % TWO32;
      }
      count1 := (count1 + len / 0x2000_0000) % TWO32;
    }

    /** Lines 119 and 120: the buffer is filled up to a whole block and compressed. */
    method FillAndTransform(data: array<octet>, off: nat, j: nat, ghost m: seq<octet>)
      requires Shaped() && data != buffer && j == |m| % BLOCK
      requires HashOf(state) == Fold(m, |m| / BLOCK)
      requires buffer[..j] == m[|m| / BLOCK * BLOCK..]
      requires off + BLOCK - j <= data.Length
      modifies state, buffer
      ensures HashOf(state) == Fold(m + data[off..off + BLOCK - j], |m| / BLOCK + 1)
    {
      hide Compress, HashOf;
      ghost var n := |m| / BLOCK;
      ghost var all := m + data[off..off + BLOCK - j];
      CopyBytes(buffer, j, data, off, BLOCK - j);
      assert buffer[..0 + BLOCK] == all[BLOCK * n..BLOCK * (n + 1)];
      Transform(state, buffer, 0);
      FoldOfPrefix(m, data[off..off + BLOCK - j], n);
    }

    /** Line 122: one whole block is compressed, in place, inside the caller's data. */
    method TransformInData(data: array<octet>, pos: nat, ghost all: seq<octet>, ghost n: nat)
      requires Shaped() && data != buffer && pos + BLOCK <= data.Length
      requires BLOCK * (n + 1) <= |all| && HashOf(state) == Fold(all, n)
      requires data[pos..pos + BLOCK] == all[BLOCK * n..BLOCK * (n + 1)]
      modifies state, data
      ensures HashOf(state) == Fold(all, n + 1)
      ensures forall k :: 0 <= k < data.Length && !(pos <= k < pos + BLOCK) ==> data[k] == old(data[k])
    {
      hide Compress, HashOf;
      Transform(state, data, pos);
    }

    /** Lines 119 to 123: every whole block, the first one through the buffer and the others in place. */
    method TransformWhole(data: array<octet>, off: nat, len: nat, j: nat, ghost m: seq<octet>) returns (i: nat)
      requires Shaped() && data != buffer && off + len <= data.Length
      requires j == |m| % BLOCK && BLOCK <= j + len < TWO32
      requires HashOf(state) == Fold(m, |m| / BLOCK)
      requires buffer[..j] == m[|m| / BLOCK * BLOCK..]
      modifies state, buffer, data
      ensures i == WholeEnd(j, len)
      ensures var all := m + old(data[off..off + len]); HashOf(state) == Fold(all, |all| / BLOCK)
      ensures forall k :: 0 <= k < data.Length && !(off + BLOCK - j <= k < off + i) ==> data[k] == old(data[k])
    {
      hide Fold, HashOf, WholeEnd;
      ghost var orig := data[off..off + len];
      ghost var all := m + orig;
      i := BLOCK - j;
      FillAndTransform(data, off, j, m);
      assert all == (m + data[off..off + i]) + data[off + i..off + len];
      FoldOfPrefix(m + data[off..off + i], data[off + i..off + len], |m| / BLOCK + 1);
      ghost var n := |m| / BLOCK + 1;
      while i + 63 < len
        invariant BLOCK - j <= i <= len && BLOCK * n == |m| + i
        invariant i + 63 < TWO32
        invariant HashOf(state) == Fold(all, n)
        invariant forall k :: i <= k < len ==> data[off + k] == orig[k]
        invariant forall k :: 0 <= k < data.Length && !(off + BLOCK - j <= k < off + i) ==> data[k] == old(data[k])
      {
        ghost var block := data[off + i..off + i + BLOCK];
        SliceOfOrig(m, orig, block, i);
        assert block == all[BLOCK * n..BLOCK * (n + 1)];
        TransformInData(data, off + i, all, n);
        i, n := i + 64, n + 1;
        NoWrap(j, i, n - |m| / BLOCK);
      }
      WholePart(|m|, len, i, n);
    }

    /** Line 127: the bytes that do not fill a block wait in the buffer. */
    method StoreTail(data: array<octet>, pos: nat, j: nat, n: nat)
      requires Shaped() && data != buffer && pos + n <= data.Length && j + n <= BLOCK
      modifies buffer
      ensures buffer[..j + n] == old(buffer[..j]) + data[pos..pos + n]
    {
      CopyBytes(buffer, j, data, pos, n);
    }

    /** Lines 118 to 126: whole blocks are consumed; i is how much data they took and j' what stays in the buffer. */
    method Absorb(data: array<octet>, off: nat, len: nat, j: nat, ghost m: seq<octet>) returns (i: nat, j': nat)
      requires Shaped() && data != buffer && off + len <= data.Length
      requires j == |m| % BLOCK && j + len < TWO32
      requires HashOf(state) == Fold(m, |m| / BLOCK)
      requires buffer[..j] == m[|m| / BLOCK * BLOCK..]
      modifies state, buffer, data
      ensures i <= len && j' <= BLOCK
      ensures var all := m + old(data[off..off + len]);
              && HashOf(state) == Fold(all, |all| / BLOCK)
              && j' + len - i == |all| % BLOCK
              && all[|all| / BLOCK * BLOCK..] == buffer[..j'] + data[off + i..off + len]
      ensures forall k :: 0 <= k < data.Length && !(off + BLOCK - j <= k < off + WholeEnd(j, len))
                ==> data[k] == old(data[k])
    {
      hide Fold, HashOf, WholeEnd;
      ghost var orig := data[off..off + len];
      if j + len > 63 {
        i := TransformWhole(data, off, len, j, m);
        TailAfterWhole(m, orig, i);
        assert data[off + i..off + len] == orig[i..];
        j' := 0;
      } else {
        TailInBuffer(m, orig);
        FoldOfPrefix(m, orig, |m| / BLOCK);
        i, j' := 0, j;
      }
    }

    /** SHA1_Update on the len bytes of data from off. */
    method Update(data: array<octet>, off: nat, len: nat, ghost m: seq<octet>)
      requires Holds(m) && data != buffer && off + len <= data.Length
      requires |m| % BLOCK + len < TWO32
      modifies this, state, buffer, data
      ensures Holds(m + old(data[off..off + len]))
      ensures forall k :: 0 <= k < data.Length
                && !(off + BLOCK - |m| % BLOCK <= k < off + WholeEnd(|m| % BLOCK, len))
                ==> data[k] == old(data[k])
    {
      hide Fold, HashOf, Counted, WholeEnd;
      var j := Pending(|m|);
      AddToCount(len, |m|);
      var i;
      ghost var all := m + data[off..off + len];
      i, j := Absorb(data, off, len, j, m);
      StoreTail(data, off + i, j, len - i);
      assert buffer[..|all| % BLOCK] == all[|all| / BLOCK * BLOCK..];
    }

    /** Lines 136 to 139: the bit counter as eight big-endian bytes. */
    method FinalCount(ghost n: nat) returns (finalcount: array<octet>)
      requires Counted(n)
      ensures fresh(finalcount) && finalcount[..] == Be64(8 * n)
    {
      finalcount := new octet[8];
      var i := 0;
      while i < 8
        invariant i <= 8 && forall k :: 0 <= k < i ==> finalcount[k] == Be64(8 * n)[k]
      {
        hide Be64, CountByte;
        CountByteIs(n, count0, count1, i);
        finalcount[i] := CountByte(count0, count1, i);
        i := i + 1;
      }
    }

    /** A call with one byte. */
    method AddByte(b: octet, ghost m: seq<octet>)
      requires Holds(m)
      modifies this, state, buffer
      ensures Holds(m + [b])
    {
      hide Holds;
      var data := new octet[1];
      data[0] := b;
      assert data[0..1] == [b];
      Update(data, 0, 1, m);
    }

    /** Lines 141 to 143: zero bytes, one at a time, until 56 bytes are pending. */
    method PadZeros(ghost m: seq<octet>, ghost len: nat)
      requires Holds(m) && |m| == len + 1
      modifies this, state, buffer
      ensures Holds(m + Zeros(ZeroCount(len)))
    {
      hide Holds, ZeroCount, Zeros;
      ghost var k := 0;
      ZerosGrow(m);
      var more := ZeroIsDue(m);
      while more
        invariant k <= ZeroCount(len) && Holds(m + Zeros(k))
        invariant more == ((len + 1 + k) % 64 != 56)
        decreases ZeroCount(len) - k
      {
        ZeroCountIsLeast(len, k);
        AddByte(0, m + Zeros(k));
        assert m + Zeros(k) + [0] == m + Zeros(k + 1);
        k := k + 1;
        more := ZeroIsDue(m + Zeros(k));
      }
      ZeroCountIsLeast(len, k);
    }

    lemma ZerosGrow(m: seq<octet>)
      ensures m + Zeros(0) == m && forall k: nat :: |Zeros(k)| == k && Zeros(k + 1) == Zeros(k) + [0]
    {
    }

    /** The loop test of line 141: (count[0] & 504) != 448. */
    method ZeroIsDue(ghost m: seq<octet>) returns (due: bool)
      requires Holds(m)
      ensures due == (|m| % 64 != 56)
    {
      PendingFromCount(|m|, count0, count1);
      due := count0 / 8 % 64 * 8 != 448;
    }

    /** Lines 146 to 149: the state as twenty big-endian bytes. */
    method PutDigest(digest: array<octet>)
      requires Shaped() && digest.Length >= DIGEST
      modifies digest
      ensures digest[..DIGEST] == RegsBytes(HashOf(state))
      ensures forall k :: DIGEST <= k < digest.Length ==> digest[k] == old(digest[k])
    {
      var i := 0;
      while i < DIGEST
        invariant i <= DIGEST && forall k :: 0 <= k < i ==> digest[k] == RegsBytes(HashOf(state))[k]
        invariant forall k :: DIGEST <= k < digest.Length ==> digest[k] == old(digest[k])
      {
        hide RegsBytes, StateByte;
        StateByteIs(HashOf(state), i, state[i / 4]);
        digest[i] := StateByte(state[i / 4], i % 4);
        i := i + 1;
      }
    }

    /** SHA1_Final: pads, writes the digest and wipes the context. */
    method Final(digest: array<octet>, ghost m: seq<octet>)
      requires Holds(m) && digest != buffer && digest.Length >= DIGEST
      modifies this, state, buffer, digest
      ensures digest[..DIGEST] == Sha1(m)
      ensures forall k :: DIGEST <= k < digest.Length ==> digest[k] == old(digest[k])
      ensures Shaped() && count0 == count1 == 0
      ensures (forall k :: 0 <= k < 5 ==> state[k] == 0) && (forall k :: 0 <= k < BLOCK ==> buffer[k] == 0)
    {
      hide HashOf, Fold, Counted, Be64;
      var finalcount := FinalCount(|m|);
      AddByte(0x80, m);
      PadZeros(m + [0x80], |m|);
      ghost var padded := m + [0x80] + Zeros(ZeroCount(|m|));
      PadIsWhole(m);
      assert finalcount[0..8] == Be64(8 * |m|);
      Update(finalcount, 0, 8, padded);
      assert padded + Be64(8 * |m|) == Pad(m);
      PutDigest(digest);
      forall k | 0 <= k < BLOCK {
        buffer[k] := 0;
      }
      forall k | 0 <= k < 5 {
        state[k] := 0;
      }
      count0, count1 := 0, 0;
    }
  }
}
