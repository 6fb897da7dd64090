/** SHA-1 as FIPS 180-4 defines it: the 80-word message schedule of section 6.1.2, and the
    padding of section 5.1.1. */
module Sha1Spec {
  import opened Words

  function Add(a: Word, b: Word): Word {
    Word(a.bits + b.bits)
  }

  function Sum5(a: Word, b: Word, c: Word, d: Word, e: Word): Word {
    Word(a.bits + b.bits + c.bits + d.bits + e.bits)
  }

  function Rotl1(w: Word): Word {
    Word((w.bits << 1) | (w.bits >> 31))
  }

  function Rotl5(w: Word): Word {
    Word((w.bits << 5) | (w.bits >> 27))
  }

  function Rotl30(w: Word): Word {
    Word((w.bits << 30) | (w.bits >> 2))
  }

  // ------------------------------------------------------- functions and constants (4.1, 4.2)

  function Ch(x: Word, y: Word, z: Word): Word {
    Word((x.bits & y.bits) ^ (!x.bits & z.bits))
  }

  function Parity(x: Word, y: Word, z: Word): Word {
    Word(x.bits ^ y.bits ^ z.bits)
  }

  function Maj(x: Word, y: Word, z: Word): Word {
    Word((x.bits & y.bits) ^ (x.bits & z.bits) ^ (y.bits & z.bits))
  }

  function F(t: nat, x: Word, y: Word, z: Word): Word {
    if t < 20 then Ch(x, y, z)
    else if t < 40 then Parity(x, y, z)
    else if t < 60 then Maj(x, y, z)
    else Parity(x, y, z)
  }

  function K(t: nat): Word {
    if t < 20 then Word(0x5A827999)
    else if t < 40 then Word(0x6ED9EBA1)
    else if t < 60 then Word(0x8F1BBCDC)
    else Word(0xCA62C1D6)
  }

  // --------------------------------------------------------------- one block (section 6.1.2)

  /** The working variables. */
  datatype Regs = Regs(a: Word, b: Word, c: Word, d: Word, e: Word)

  function Schedule(words: seq<Word>, t: nat): Word
    requires |words| == 16
  {
    if t < 16 then words[t] else
      Rotl1(Xor(Xor(Xor(Schedule(words, t - 3), Schedule(words, t - 8)), Schedule(words, t - 14)),
                Schedule(words, t - 16)))
  }

  function Round(r: Regs, t: nat, w: Word): Regs {
    var temp := Sum5(Rotl5(r.a), F(t, r.b, r.c, r.d), r.e, K(t), w);
    Regs(temp, r.a, Rotl30(r.b), r.c, r.d)
  }

  function RoundsTo(start: Regs, words: seq<Word>, t: nat): Regs
    requires |words| == 16
  {
    if t == 0 then start else Round(RoundsTo(start, words, t - 1), t - 1, Schedule(words, t - 1))
  }

  function AddRegs(x: Regs, y: Regs): Regs {
    Regs(Add(x.a, y.a), Add(x.b, y.b), Add(x.c, y.c), Add(x.d, y.d), Add(x.e, y.e))
  }

  /** The 16 words of a block of 64 bytes. */
  function BlockWords(block: seq<Byte>): (words: seq<Word>)
    requires |block| == 64
    ensures |words| == 16
  {
    seq(16, i requires 0 <= i < 16 =>
      BigEndian(block[4 * i], block[4 * i + 1], block[4 * i + 2], block[4 * i + 3]))
  }

  function Compress(h: Regs, block: seq<Byte>): Regs
    requires |block| == 64
  {
    AddRegs(h, RoundsTo(h, BlockWords(block), 80))
  }

  // ------------------------------------------------------------------------- whole messages

  const INITIAL := Regs(Word(0x67452301), Word(0xEFCDAB89), Word(0x98BADCFE), Word(0x10325476), Word(0xC3D2E1F0))

  /** The hash value after the whole blocks of `m`; a shorter rest is ignored. */
  function Fold(h: Regs, m: seq<Byte>): Regs
    decreases |m|
  {
    if |m| < 64 then h else Fold(Compress(h, m[..64]), m[64..])
  }

  function Zeros(n: nat): (z: seq<Byte>)
    ensures |z| == n
  {
    if n == 0 then [] else Zeros(n - 1) + [Byte(0)]
  }

  lemma {:induction false} ZerosAre(n: nat, i: nat)
    requires i < n
    ensures Zeros(n)[i] == Byte(0)
  {
    if i < n - 1 {
      ZerosAre(n - 1, i);
    }
  }

  /** How many zero bytes make the length, with the marker and the count, a multiple of 64. */
  function ZerosFor(n: nat): (k: nat)
    ensures (n + 1 + k) % 64 == 56
  {
    (119 - n % 64) % 64
  }

  const TWO_32 := 0x1_0000_0000
  const TWO_64 := 0x1_0000_0000_0000_0000

  /** Byte `i` of a 64-bit count, most significant first. */
  function CountByte(bits: nat, i: nat): Byte
    requires i < 8
  {
    var word := if i < 4 then bits / TWO_32 % TWO_32 else bits % TWO_32;
    var shift := [0x100_0000, 0x1_0000, 0x100, 1][i % 4];
    Byte((word / shift % 256) as bv8)
  }

  function CountBytes(bits: nat): (s: seq<Byte>)
    ensures |s| == 8
  {
    seq(8, i requires 0 <= i < 8 => CountByte(bits, i))
  }

  /** The padded message; the count of bits is taken modulo 2^64, which for the messages
      that the standard admits changes nothing. */
  function Padded(m: seq<Byte>): (p: seq<Byte>)
    ensures |p| % 64 == 0
  {
    var p := m + [Byte(0x80)] + Zeros(ZerosFor(|m|));
    assert |p| % 64 == 56;
    p + CountBytes(8 * |m|)
  }

  function DigestBytes(h: Regs): (d: seq<Byte>)
    ensures |d| == 20
  {
    BigBytes(h.a) + BigBytes(h.b) + BigBytes(h.c) + BigBytes(h.d) + BigBytes(h.e)
  }

  function Sha1Of(m: seq<Byte>): (d: seq<Byte>)
    ensures |d| == 20
  {
    DigestBytes(Fold(INITIAL, Padded(m)))
  }

  lemma {:induction false} FoldConcat(h: Regs, a: seq<Byte>, b: seq<Byte>)
    requires |a| % 64 == 0
    ensures Fold(h, a + b) == Fold(Fold(h, a), b)
    decreases |a|
  {
    hide Compress;
    if a == [] {
      assert a + b == b;
    } else {
      assert (a + b)[..64] == a[..64] && (a + b)[64..] == a[64..] + b;
      FoldConcat(Compress(h, a[..64]), a[64..], b);
    }
  }

  // ------------------------------------------------------------ algebra that the C code uses

  /** The mux form of Ch that the macros R0 and R1 use. */
  function Mux(w: Word, x: Word, y: Word): Word {
    Word((w.bits & (x.bits ^ y.bits)) ^ y.bits)
  }

  function Majority(w: Word, x: Word, y: Word): Word {
    Word(((w.bits | x.bits) & y.bits) | (w.bits & x.bits))
  }

  lemma ChAsMux(w: Word, x: Word, y: Word)
    ensures Mux(w, x, y) == Ch(w, x, y)
  {
  }

  lemma MajAsOr(w: Word, x: Word, y: Word)
    ensures Majority(w, x, y) == Maj(w, x, y)
  {
  }

  /** The sum in the order of the macros, `z += f + w + k + rol`. */
  function MacroSum(z: Word, f: Word, w: Word, k: Word, r: Word): Word {
    Word(z.bits + (((f.bits + w.bits) + k.bits) + r.bits))
  }

  lemma SumOrder(z: Word, f: Word, w: Word, k: Word, r: Word)
    ensures MacroSum(z, f, w, k, r) == Sum5(r, f, z, k, w)
  {
  }
}
