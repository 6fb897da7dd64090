/** The keyed hash of src/lib/hmac.c: HMAC of RFC 2104, section 2, over SHA-1. */
module Hmac {
  import opened Words
  import opened Sha1Spec
  import opened Sha1

  // --------------------------------------------------------------- RFC 2104, section 2

  /** The key as a block of 64 bytes: hashed first when it is longer than a block, and
      completed with zeros. */
  function KeyBlock(key: seq<Byte>): (k: seq<Byte>)
    ensures |k| == 64
  {
    var short := if |key| > 64 then Sha1Of(key) else key;
    short + Zeros(64 - |short|)
  }

  function Masked(k: seq<Byte>, pad: Byte): (m: seq<Byte>)
    ensures |m| == |k| && forall i :: 0 <= i < |k| ==> m[i] == XorByte(k[i], pad)
  {
    seq(|k|, i requires 0 <= i < |k| => XorByte(k[i], pad))
  }

  const IPAD := Byte(0x36)
  const OPAD := Byte(0x5c)

  /** H(K XOR opad, H(K XOR ipad, text)) */
  function HmacOf(key: seq<Byte>, text: seq<Byte>): seq<Byte> {
    Sha1Of(Masked(KeyBlock(key), OPAD) + Sha1Of(Masked(KeyBlock(key), IPAD) + text))
  }

  /** `k` is the key, or its hash when it is longer than a block, with zeros behind it. */
  predicate IsKeyBlock(k: seq<Byte>, key: seq<Byte>) {
    var short := if |key| <= 64 then key else Sha1Of(key);
    |k| == 64 && k[..|short|] == short && forall i :: |short| <= i < 64 ==> k[i] == Byte(0)
  }

  lemma KeyBlockIs(k: seq<Byte>, key: seq<Byte>)
    ensures IsKeyBlock(k, key) <==> k == KeyBlock(key)
  {
    hide Sha1Of, Zeros;
    var short := if |key| <= 64 then key else Sha1Of(key);
    var n := 64 - |short|;
    var zeros := Zeros(n);
    assert KeyBlock(key) == short + zeros;
    forall i | 0 <= i < n
      ensures zeros[i] == Byte(0)
    {
      ZerosAre(n, i);
    }
    hide KeyBlock;
    if IsKeyBlock(k, key) {
      assert k == k[..|short|] + k[|short|..];
      assert k[|short|..] == zeros;
    }
  }

  /** The hash of the standard: with the key block XORed byte by byte with 0x36 in front of the
      text, and with 0x5c in front of the hash of that. */
  lemma HmacExactly(key: seq<Byte>, text: seq<Byte>, k: seq<Byte>, inner: seq<Byte>, outer: seq<Byte>)
    requires IsKeyBlock(k, key) && |inner| == |outer| == 64
    requires forall i :: 0 <= i < 64 ==> inner[i].bits == k[i].bits ^ 0x36
    requires forall i :: 0 <= i < 64 ==> outer[i].bits == k[i].bits ^ 0x5c
    ensures HmacOf(key, text) == Sha1Of(outer + Sha1Of(inner + text))
  {
    hide Sha1Of, KeyBlock, IsKeyBlock;
    KeyBlockIs(k, key);
    assert inner == Masked(k, IPAD);
    assert outer == Masked(k, OPAD);
  }

  // ------------------------------------------------------------------------------ the code

  lemma XorZero(b: Byte)
    ensures XorByte(Byte(0), b) == b && forall c: Byte :: XorByte(b, c) == XorByte(c, b)
  {
  }

  /** memset and the loop that XORs the key into the pad: the bytes past the key keep the
      pad, as the zeros of the standard do. */
  method PadKey(key: array<Byte>, keylen: nat, pad: Byte) returns (a: array<Byte>)
    requires keylen <= 64 && keylen <= key.Length
    ensures fresh(a) && a.Length == 64
    ensures a[..64] == Masked(key[..keylen] + Zeros(64 - keylen), pad)
  {
    hide XorByte, Masked;
    a := new Byte[64](_ => pad);
    for i := 0 to keylen
      invariant forall k :: 0 <= k < i ==> a[k] == XorByte(key[k], pad)
      invariant forall k :: i <= k < 64 ==> a[k] == pad
    {
      a[i] := XorByte(a[i], key[i]);
      XorZero(pad);
    }
    ghost var block := key[..keylen] + Zeros(64 - keylen);
    forall k | 0 <= k < 64
      ensures a[k] == XorByte(block[k], pad)
    {
      if k >= keylen {
        ZerosAre(64 - keylen, k - keylen);
        XorZero(pad);
      }
    }
  }

  /** The hash of one or two stretches, by the three calls. */
  method HashTwo(ctx: Context, first: array<Byte>, n: nat, second: array<Byte>, k: nat, digest: array<Byte>)
    requires ctx.Shape() && n <= first.Length && k <= second.Length && n < 0x2000_0000 && k < 0x2000_0000
    requires first != ctx.buffer && second != ctx.buffer && digest != ctx.buffer && digest.Length >= 20
    modifies ctx, ctx.state, ctx.buffer, digest
    ensures digest[..] == Sha1Of(old(first[..n]) + old(second[..k])) + old(digest[20..])
  {
    hide Sha1Of;
    ctx.Init();
    ctx.Update(first, n, []);
    assert [] + first[..n] == first[..n];
    ctx.Update(second, k, first[..n]);
    ctx.Final(digest, first[..n] + second[..k]);
  }

  /** Shorten the key if it is longer than a block. */
  method ShortKey(ctx: Context, inputkey: array<Byte>, inputkeylen: nat) returns (key: array<Byte>, keylen: nat)
    requires ctx.Shape() && inputkeylen <= inputkey.Length && inputkeylen < 0x2000_0000 && inputkey != ctx.buffer
    modifies ctx, ctx.state, ctx.buffer
    ensures keylen <= 64 && keylen <= key.Length
    ensures key[..keylen] + Zeros(64 - keylen) == KeyBlock(old(inputkey[..inputkeylen]))
  {
    hide Sha1Of;
    key, keylen := inputkey, inputkeylen;
    if keylen > 64 {
      ctx.Init();
      ctx.Update(inputkey, keylen, []);
      assert [] + inputkey[..keylen] == inputkey[..keylen];
      var keydigest := new Byte[20];
      ctx.Final(keydigest, inputkey[..keylen]);
      assert keydigest[..20] == Sha1Of(inputkey[..inputkeylen]);
      key, keylen := keydigest, 20;
    }
  }

  /** `sha1_hmac`; the key, the message and the place of the digest may overlap. */
  method Sha1Hmac(inputkey: array<Byte>, inputkeylen: nat, inputmsg: array<Byte>, msglen: nat, dst: array<Byte>)
    requires inputkeylen <= inputkey.Length && inputkeylen < 0x2000_0000
    requires msglen <= inputmsg.Length && msglen < 0x2000_0000 && dst.Length >= 20
    modifies dst
    ensures dst[..] == HmacOf(old(inputkey[..inputkeylen]), old(inputmsg[..msglen])) + old(dst[20..])
  {
    hide Sha1Of, KeyBlock, Masked;
    var ctx := new Context();
    var key, keylen := ShortKey(ctx, inputkey, inputkeylen);
    var ipad := PadKey(key, keylen, Byte(0x36));
    var opad := PadKey(key, keylen, Byte(0x5c));
    HashTwo(ctx, ipad, 64, inputmsg, msglen, dst);
    ghost var inner := Sha1Of(Masked(KeyBlock(old(inputkey[..inputkeylen])), IPAD) + old(inputmsg[..msglen]));
    assert dst[..20] == inner;
    HashTwo(ctx, opad, 64, dst, 20, dst);
  }
}
