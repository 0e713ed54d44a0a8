/**
  hmac_sha1.c on top of the SHA-1 context: a keyed context computes the HMAC of RFC 2104,
  however the key and the messages are cut into pieces.
 */
module Hmac {
  import Bytes

  import opened Sha1Spec
  import opened Sha1Context

  const IPAD: octet := 0x36
  const OPAD: octet := 0x5c

  /** RFC 2104, section 2: the key hashed if it is longer than a block, then zero-padded to a block. */
  function KeyBlock(k: seq<octet>): (b: seq<octet>)
    ensures |b| == BLOCK
  {
    if |k| > BLOCK then Sha1(k) + Zeros(BLOCK - DIGEST) else k + Zeros(BLOCK - |k|)
  }

  function XorByte(x: octet, y: octet): octet { x ^ y }

  function Xor(s: seq<octet>, p: octet): (x: seq<octet>)
    ensures |x| == |s|
  {
    seq(|s|, i requires 0 <= i < |s| => XorByte(s[i], p))
  }

  /** RFC 2104, section 2: H(K XOR opad, H(K XOR ipad, text)). */
  function HmacSha1(k: seq<octet>, text: seq<octet>): (d: seq<octet>)
    ensures |d| == DIGEST
  {
    Sha1(Xor(KeyBlock(k), OPAD) + Sha1(Xor(KeyBlock(k), IPAD) + text))
  }

  /** The same with the fillers and the block length as RFC 2104, section 2, gives them. */
  lemma HmacByNumbers(k: seq<octet>, text: seq<octet>)
    ensures var key := if |k| > 64 then Sha1(k) + seq(44, i => 0) else k + seq(64 - |k|, i => 0);
            HmacSha1(k, text) == Sha1(seq(64, i requires 0 <= i < 64 => key[i] ^ 0x5c) +
                                      Sha1(seq(64, i requires 0 <= i < 64 => key[i] ^ 0x36) + text))
  {
    hide Sha1;
    var key := if |k| > 64 then Sha1(k) + seq(44, i => 0) else k + seq(64 - |k|, i => 0);
    assert KeyBlock(k) == key;
    assert Xor(key, OPAD) == seq(64, i requires 0 <= i < 64 => key[i] ^ 0x5c);
    assert Xor(key, IPAD) == seq(64, i requires 0 <= i < 64 => key[i] ^ 0x36);
  }

  lemma XorFacts(x: octet, p: octet)
    ensures XorByte(p, x) == XorByte(x, p) && XorByte(0, p) == p
  {
  }

  method Fill(a: array<octet>, from: nat, b: octet)
    requires from <= a.Length
    modifies a
    ensures forall k :: 0 <= k < a.Length ==> a[k] == if k < from then old(a[k]) else b
  {
    forall k | from <= k < a.Length {
      a[k] := b;
    }
  }

  class HmacCtx {
    const ipad: array<octet>
    const opad: array<octet>
    const sha: ShaCtx
    const key: array<octet>
    var keylen: nat
    var hashkey: nat

    constructor ()
      ensures Shaped()
      ensures fresh(ipad) && fresh(opad) && fresh(key) && fresh(sha) && fresh(sha.state) && fresh(sha.buffer)
    {
      ipad := new octet[BLOCK];
      opad := new octet[BLOCK];
      key := new octet[BLOCK];
      sha := new ShaCtx();
    }

    ghost predicate Shaped()
    {
      && ipad.Length == opad.Length == key.Length == BLOCK && sha.Shaped()
      && ipad != opad && ipad != key && opad != key
      && sha.buffer != ipad && sha.buffer != opad && sha.buffer != key
    }

    /** The caller's array is none of the context's own. */
    ghost predicate Foreign(data: array<octet>)
    {
      data != ipad && data != opad && data != key && data != sha.buffer
    }

    /** The key bytes k have been given and the key is still open. */
    ghost predicate KeyFed(k: seq<octet>)
      reads this, ipad, opad, key, sha, sha.state, sha.buffer
    {
      && Shaped()
      && (forall i :: 0 <= i < BLOCK ==> ipad[i] == IPAD && opad[i] == OPAD)
      && (if hashkey == 0 then |k| <= BLOCK && keylen == |k| && key[..keylen] == k
          else |k| > BLOCK && keylen == DIGEST && sha.Holds(k))
    }

    /** The key is closed: both pads hold the key block XORed with their filler. */
    ghost predicate Keyed(k: seq<octet>)
      reads ipad, opad
    {
      Shaped() && ipad[..] == Xor(KeyBlock(k), IPAD) && opad[..] == Xor(KeyBlock(k), OPAD)
    }

    /** A message has been started and its bytes so far are text. */
    ghost predicate InMessage(k: seq<octet>, text: seq<octet>)
      reads ipad, opad, sha, sha.state, sha.buffer
    {
      Keyed(k) && sha.Holds(Xor(KeyBlock(k), IPAD) + text)
    }

    method Init()
      requires Shaped()
      modifies this, ipad, opad, key
      ensures KeyFed([])
    {
      Fill(key, 0, 0);
      Fill(ipad, 0, IPAD);
      Fill(opad, 0, OPAD);
      keylen := 0;
      hashkey := 0;
    }

    /** HMAC_SHA1_UpdateKey.  The bound on len is the one under which no unsigned sum on the way wraps. */
    method UpdateKey(data: array<octet>, off: nat, len: nat, ghost k: seq<octet>)
      requires KeyFed(k) && Foreign(data) && off + len <= data.Length
      requires (if hashkey == 0 then |k| else |k| % BLOCK) + len < TWO32
      modifies this, key, sha, sha.state, sha.buffer, data
      ensures KeyFed(k + old(data[off..off + len]))
    {
      hide ShaCtx.Holds;
      if len < 1 {
        assert k + data[off..off + len] == k;
        return;
      }
      if hashkey != 0 || len + keylen > BLOCK {
        if hashkey == 0 {
          hashkey := 1;
          sha.Init();
          if keylen > 0 {
            assert key[0..keylen] == k;
            sha.Update(key, 0, keylen, []);
            assert [] + k == k;
          }
          keylen := DIGEST;
        }
        sha.Update(data, off, len, k);
      } else {
        CopyBytes(key, keylen, data, off, len);
        keylen := keylen + len;
      }
    }

    /** Lines 137 to 147: the key, or its hash, is padded with zeros to the key block. */
    method PadKey(ghost k: seq<octet>)
      requires KeyFed(k)
      modifies key, sha, sha.state, sha.buffer
      ensures key[..] == KeyBlock(k) && keylen <= BLOCK && forall j :: keylen <= j < BLOCK ==> key[j] == 0
    {
      hide ShaCtx.Holds, Sha1;
      if hashkey != 0 {
        Fill(key, 0, 0);
        sha.Final(key, k);
      }
      if BLOCK - keylen > 0 {
        Fill(key, keylen, 0);
      }
    }

    /** HMAC_SHA1_EndKey. */
    method EndKey(ghost k: seq<octet>)
      requires KeyFed(k)
      modifies this, ipad, opad, key, sha, sha.state, sha.buffer
      ensures Keyed(k)
    {
      hide KeyBlock, ShaCtx.Holds;
      PadKey(k);
      XorPads();
    }

    /** Lines 149 to 158: both pads are combined with the key, byte by byte. */
    method XorPads()
      requires Shaped() && keylen <= BLOCK && forall j :: keylen <= j < BLOCK ==> key[j] == 0
      requires forall i :: 0 <= i < BLOCK ==> ipad[i] == IPAD && opad[i] == OPAD
      modifies ipad, opad
      ensures ipad[..] == Xor(key[..], IPAD) && opad[..] == Xor(key[..], OPAD)
    {
      hide XorByte;
      var i := 0;
      while i < keylen
        invariant i <= keylen
        invariant forall j :: 0 <= j < BLOCK ==> ipad[j] == if j < i then XorByte(IPAD, key[j]) else IPAD
        invariant forall j :: 0 <= j < BLOCK ==> opad[j] == if j < i then XorByte(OPAD, key[j]) else OPAD
      {
        ipad[i] := XorByte(ipad[i], key[i]);
        opad[i] := XorByte(opad[i], key[i]);
        i := i + 1;
      }
      forall j | 0 <= j < BLOCK
        ensures ipad[j] == XorByte(key[j], IPAD) && opad[j] == XorByte(key[j], OPAD)
      {
        XorFacts(key[j], IPAD);
        XorFacts(key[j], OPAD);
      }
    }

    /** HMAC_SHA1_StartMessage: hashing the inner pad as one whole block leaves the pad itself alone. */
    method StartMessage(ghost k: seq<octet>)
      requires Keyed(k)
      modifies sha, sha.state, sha.buffer, ipad
      ensures InMessage(k, [])
    {
      hide ShaCtx.Holds, Xor, KeyBlock;
      sha.Init();
      assert ipad[0..BLOCK] == ipad[..];
      sha.Update(ipad, 0, BLOCK, []);
      assert [] + Xor(KeyBlock(k), IPAD) == Xor(KeyBlock(k), IPAD) + [];
    }

    /** HMAC_SHA1_UpdateMessage. */
    method UpdateMessage(data: array<octet>, off: nat, len: nat, ghost k: seq<octet>, ghost text: seq<octet>)
      requires InMessage(k, text) && Foreign(data) && off + len <= data.Length
      requires |text| % BLOCK + len < TWO32
      modifies sha, sha.state, sha.buffer, data
      ensures InMessage(k, text + old(data[off..off + len]))
    {
      hide ShaCtx.Holds, Xor, KeyBlock;
      assert |Xor(KeyBlock(k), IPAD) + text| % BLOCK == |text| % BLOCK;
      sha.Update(data, off, len, Xor(KeyBlock(k), IPAD) + text);
      assert Xor(KeyBlock(k), IPAD) + text + old(data[off..off + len])
          == Xor(KeyBlock(k), IPAD) + (text + old(data[off..off + len]));
    }

    /** HMAC_SHA1_EndMessage: delivers the code and leaves the context keyed for the next message. */
    method EndMessage(out: array<octet>, ghost k: seq<octet>, ghost text: seq<octet>)
      requires InMessage(k, text) && Foreign(out) && out.Length >= DIGEST
      modifies sha, sha.state, sha.buffer, opad, out
      ensures out[..DIGEST] == HmacSha1(k, text)
      ensures Keyed(k)
    {
      hide ShaCtx.Holds, Xor, KeyBlock, Sha1;
      var buf := new octet[DIGEST];
      sha.Final(buf, Xor(KeyBlock(k), IPAD) + text);
      sha.Init();
      assert opad[0..BLOCK] == opad[..];
      sha.Update(opad, 0, BLOCK, []);
      assert [] + Xor(KeyBlock(k), OPAD) == Xor(KeyBlock(k), OPAD);
      assert buf[0..DIGEST] == buf[..DIGEST];
      sha.Update(buf, 0, DIGEST, Xor(KeyBlock(k), OPAD));
      sha.Final(out, Xor(KeyBlock(k), OPAD) + Sha1(Xor(KeyBlock(k), IPAD) + text));
    }

    /** HMAC_SHA1_Done wipes ipad twice and never opad. */
    method Done()
      requires Shaped()
      modifies this, ipad, key
      ensures forall j :: 0 <= j < BLOCK ==> ipad[j] == 0 && key[j] == 0 && opad[j] == old(opad[j])
      ensures keylen == 0 && hashkey == 0
    {
      Fill(ipad, 0, 0);
      Fill(ipad, 0, 0);
      Fill(key, 0, 0);
      keylen := 0;
      hashkey := 0;
    }
  }

  const BLOCK_SIZE := 2048

  method Load(buf: array<octet>, s: seq<octet>)
    requires |s| <= buf.Length
    modifies buf
    ensures buf[0..|s|] == s
  {
    forall k | 0 <= k < |s| {
      buf[k] := s[k];
    }
  }

  /**
    The program of hmac_sha1_main.c: the key is its argument, reads holds what each fread call
    returned.  The output depends only on the bytes read, not on how the calls cut them.
   */
  method Tool(keyArg: array<octet>, pieces: seq<seq<octet>>) returns (code: seq<octet>)
    requires keyArg.Length < TWO32
    requires forall i :: 0 <= i < |pieces| ==> |pieces[i]| <= BLOCK_SIZE
    modifies keyArg
    ensures code == HmacSha1(old(keyArg[..]), Bytes.Concat(pieces))
  {
    hide HmacSha1, HmacCtx.InMessage, HmacCtx.Keyed;
    var ctx := new HmacCtx();
    var buf := new octet[BLOCK_SIZE];
    ghost var k := keyArg[..];
    ctx.Init();
    assert [] + keyArg[0..keyArg.Length] == k;
    ctx.UpdateKey(keyArg, 0, keyArg.Length, []);
    ctx.EndKey(k);
    ctx.StartMessage(k);
    Feed(ctx, buf, pieces, k);
    ctx.EndMessage(buf, k, Bytes.Concat(pieces));
    code := buf[..DIGEST];
    ctx.Done();
  }

  /** Lines 30 to 33 of hmac_sha1_main.c: read by read, until there is nothing more. */
  method Feed(ctx: HmacCtx, buf: array<octet>, pieces: seq<seq<octet>>, ghost k: seq<octet>)
    requires ctx.InMessage(k, []) && ctx.Foreign(buf) && buf.Length == BLOCK_SIZE
    requires forall i :: 0 <= i < |pieces| ==> |pieces[i]| <= BLOCK_SIZE
    modifies ctx.sha, ctx.sha.state, ctx.sha.buffer, buf
    ensures ctx.InMessage(k, Bytes.Concat(pieces))
  {
    hide HmacCtx.InMessage;
    var n := 0;
    while n < |pieces|
      invariant n <= |pieces| && ctx.InMessage(k, Bytes.Concat(pieces[..n]))
    {
      Load(buf, pieces[n]);
      ctx.UpdateMessage(buf, 0, |pieces[n]|, k, Bytes.Concat(pieces[..n]));
      Bytes.ConcatOne(pieces[..n], pieces[n]);
      assert pieces[..n + 1] == pieces[..n] + [pieces[n]];
      n := n + 1;
    }
    assert pieces[..n] == pieces;
  }
}
