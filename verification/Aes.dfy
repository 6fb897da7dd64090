/** The table-driven cipher of src/lib/aes.c (the rolled loops), proved against FIPS 197.

    The tables are defined as the comment at the head of that file defines them, from the
    S-box and multiplication in GF(2^8). */
module Aes {
  import opened Words
  import opened AesSpec

  // ------------------------------------------------------------------- tables and words

  function Pack(c: Col): Word {
    BigEndian(c.r0, c.r1, c.r2, c.r3)
  }

  function Split(w: Word): Col {
    Col(Byte3(w), Byte2(w), Byte1(w), Byte0(w))
  }

  function Te0(box: Box, x: Byte): Word {
    var s := box.fwd(x);
    BigEndian(Xtime(s), s, s, Mul3(s))
  }

  function Te1(box: Box, x: Byte): Word {
    var s := box.fwd(x);
    BigEndian(Mul3(s), Xtime(s), s, s)
  }

  function Te2(box: Box, x: Byte): Word {
    var s := box.fwd(x);
    BigEndian(s, Mul3(s), Xtime(s), s)
  }

  function Te3(box: Box, x: Byte): Word {
    var s := box.fwd(x);
    BigEndian(s, s, Mul3(s), Xtime(s))
  }

  function Te4(box: Box, x: Byte): Word {
    var s := box.fwd(x);
    BigEndian(s, s, s, s)
  }

  function Td0(box: Box, x: Byte): Word {
    var s := box.inv(x);
    BigEndian(MulE(s), Mul9(s), MulD(s), MulB(s))
  }

  function Td1(box: Box, x: Byte): Word {
    var s := box.inv(x);
    BigEndian(MulB(s), MulE(s), Mul9(s), MulD(s))
  }

  function Td2(box: Box, x: Byte): Word {
    var s := box.inv(x);
    BigEndian(MulD(s), MulB(s), MulE(s), Mul9(s))
  }

  function Td3(box: Box, x: Byte): Word {
    var s := box.inv(x);
    BigEndian(Mul9(s), MulD(s), MulB(s), MulE(s))
  }

  function Td4(box: Box, x: Byte): Word {
    var s := box.inv(x);
    BigEndian(s, s, s, s)
  }

  /** The words of a table entry that a mask keeps: `& 0xff000000` and so on. */
  function Mask3(w: Word): Word {
    Word(w.bits & 0xFF00_0000)
  }

  function Mask2(w: Word): Word {
    Word(w.bits & 0x00FF_0000)
  }

  function Mask1(w: Word): Word {
    Word(w.bits & 0x0000_FF00)
  }

  function Mask0(w: Word): Word {
    Word(w.bits & 0x0000_00FF)
  }

  // ------------------------------------------------------------ the algebra of packing

  lemma SplitPack(c: Col)
    ensures Split(Pack(c)) == c
  {
    hide LittleEndian, Byte0, Byte1, Byte2, Byte3;
    Unpack(c.r3, c.r2, c.r1, c.r0);
  }

  lemma PackSplit(w: Word)
    ensures Pack(Split(w)) == w
  {
    hide LittleEndian, Byte0, Byte1, Byte2, Byte3;
    Repack(w);
  }

  lemma SplitXor(a: Word, b: Word)
    ensures Split(Xor(a, b)) == XorCol(Split(a), Split(b))
  {
    hide Xor, XorByte, Byte0, Byte1, Byte2, Byte3;
    Xor0(a, b);
    Xor1(a, b);
    Xor2(a, b);
    Xor3(a, b);
  }

  function XorAll(a: Word, b: Word, c: Word, d: Word): Word {
    Xor(Xor(Xor(a, b), c), d)
  }

  lemma SplitXorAll(a: Col, b: Col, c: Col, d: Col)
    ensures Split(XorAll(Pack(a), Pack(b), Pack(c), Pack(d))) == XorCol(XorCol(XorCol(a, b), c), d)
  {
    hide Xor, XorCol, Pack, Split;
    SplitPack(a);
    SplitPack(b);
    SplitPack(c);
    SplitPack(d);
    SplitXor(Pack(a), Pack(b));
    SplitXor(Xor(Pack(a), Pack(b)), Pack(c));
    SplitXor(Xor(Xor(Pack(a), Pack(b)), Pack(c)), Pack(d));
  }

  /** Four encryption tables together substitute and mix one column. */
  lemma TeIsMix(box: Box, a: Byte, b: Byte, c: Byte, d: Byte)
    ensures Split(XorAll(Te0(box, a), Te1(box, b), Te2(box, c), Te3(box, d)))
         == MixCol(MapCol(box.fwd, Col(a, b, c, d)))
  {
    hide Xor, XorByte, XorAll, Xtime, Mul3, LittleEndian, Split;
    var p, q, r, s := box.fwd(a), box.fwd(b), box.fwd(c), box.fwd(d);
    SplitXorAll(Col(Xtime(p), p, p, Mul3(p)), Col(Mul3(q), Xtime(q), q, q),
                Col(r, Mul3(r), Xtime(r), r), Col(s, s, Mul3(s), Xtime(s)));
  }

  lemma TdIsUnmix(box: Box, a: Byte, b: Byte, c: Byte, d: Byte)
    ensures Split(XorAll(Td0(box, a), Td1(box, b), Td2(box, c), Td3(box, d)))
         == InvMixCol(MapCol(box.inv, Col(a, b, c, d)))
  {
    hide Xor, XorByte, XorAll, Mul9, MulB, MulD, MulE, LittleEndian, Split;
    var p, q, r, s := box.inv(a), box.inv(b), box.inv(c), box.inv(d);
    SplitXorAll(Col(MulE(p), Mul9(p), MulD(p), MulB(p)), Col(MulB(q), MulE(q), Mul9(q), MulD(q)),
                Col(MulD(r), MulB(r), MulE(r), Mul9(r)), Col(Mul9(s), MulD(s), MulB(s), MulE(s)));
  }

  lemma MaskedPack(a: Byte, b: Byte, c: Byte, d: Byte)
    ensures Mask3(BigEndian(a, a, a, a)) == BigEndian(a, Byte(0), Byte(0), Byte(0))
    ensures Mask2(BigEndian(b, b, b, b)) == BigEndian(Byte(0), b, Byte(0), Byte(0))
    ensures Mask1(BigEndian(c, c, c, c)) == BigEndian(Byte(0), Byte(0), c, Byte(0))
    ensures Mask0(BigEndian(d, d, d, d)) == BigEndian(Byte(0), Byte(0), Byte(0), d)
  {
  }

  /** The masked last round only substitutes. */
  lemma MaskedSum(a: Byte, b: Byte, c: Byte, d: Byte)
    ensures Split(XorAll(Mask3(BigEndian(a, a, a, a)), Mask2(BigEndian(b, b, b, b)),
                         Mask1(BigEndian(c, c, c, c)), Mask0(BigEndian(d, d, d, d))))
         == Col(a, b, c, d)
  {
    hide Xor, XorByte, XorAll, LittleEndian, Split, Mask0, Mask1, Mask2, Mask3;
    MaskedPack(a, b, c, d);
    var z := Byte(0);
    SplitXorAll(Col(a, z, z, z), Col(z, b, z, z), Col(z, z, c, z), Col(z, z, z, d));
    ZeroIsNeutral(a);
    ZeroIsNeutral(b);
    ZeroIsNeutral(c);
    ZeroIsNeutral(d);
    ZeroIsNeutral(z);
  }

  // ------------------------------------------------------------------------- blocks

  function BlockOf(s: seq<Byte>): Block
    requires |s| == 16
  {
    Block(Col(s[0], s[1], s[2], s[3]), Col(s[4], s[5], s[6], s[7]),
          Col(s[8], s[9], s[10], s[11]), Col(s[12], s[13], s[14], s[15]))
  }

  function BytesOf(b: Block): (s: seq<Byte>)
    ensures |s| == 16 && BlockOf(s) == b
  {
    [b.c0.r0, b.c0.r1, b.c0.r2, b.c0.r3, b.c1.r0, b.c1.r1, b.c1.r2, b.c1.r3,
     b.c2.r0, b.c2.r1, b.c2.r2, b.c2.r3, b.c3.r0, b.c3.r1, b.c3.r2, b.c3.r3]
  }

  function Words4(w0: Word, w1: Word, w2: Word, w3: Word): Block {
    Block(Split(w0), Split(w1), Split(w2), Split(w3))
  }

  /** Round key `r` of a schedule laid out in words. */
  function RoundKey(rk: seq<Word>, r: nat): Block
    requires 4 * r + 4 <= |rk|
  {
    Words4(rk[4 * r], rk[4 * r + 1], rk[4 * r + 2], rk[4 * r + 3])
  }

  function KeysOf(rk: seq<Word>, nr: nat): (keys: Schedule)
    requires 4 * (nr + 1) <= |rk|
    ensures |keys| == nr + 1
    ensures forall r :: 0 <= r <= nr ==> keys[r] == RoundKey(rk, r)
  {
    seq(nr + 1, r requires 0 <= r <= nr => RoundKey(rk, r))
  }

  // ------------------------------------------------------------------------ the rounds

  function EncColumn(box: Box, a: Word, b: Word, c: Word, d: Word, k: Word): Word {
    Xor(XorAll(Te0(box, Byte3(a)), Te1(box, Byte2(b)), Te2(box, Byte1(c)), Te3(box, Byte0(d))), k)
  }

  function EncLast(box: Box, a: Word, b: Word, c: Word, d: Word, k: Word): Word {
    Xor(XorAll(Mask3(Te4(box, Byte3(a))), Mask2(Te4(box, Byte2(b))),
               Mask1(Te4(box, Byte1(c))), Mask0(Te4(box, Byte0(d)))), k)
  }

  function DecColumn(box: Box, a: Word, b: Word, c: Word, d: Word, k: Word): Word {
    Xor(XorAll(Td0(box, Byte3(a)), Td1(box, Byte2(b)), Td2(box, Byte1(c)), Td3(box, Byte0(d))), k)
  }

  function DecLast(box: Box, a: Word, b: Word, c: Word, d: Word, k: Word): Word {
    Xor(XorAll(Mask3(Td4(box, Byte3(a))), Mask2(Td4(box, Byte2(b))),
               Mask1(Td4(box, Byte1(c))), Mask0(Td4(box, Byte0(d)))), k)
  }

  lemma EncColumnIs(box: Box, a: Word, b: Word, c: Word, d: Word, k: Word)
    ensures Split(EncColumn(box, a, b, c, d, k))
         == XorCol(MixCol(MapCol(box.fwd, Col(Byte3(a), Byte2(b), Byte1(c), Byte0(d)))), Split(k))
    ensures Split(EncLast(box, a, b, c, d, k))
         == XorCol(MapCol(box.fwd, Col(Byte3(a), Byte2(b), Byte1(c), Byte0(d))), Split(k))
  {
    hide Xor, XorCol, XorAll, MixCol, Split, Te0, Te1, Te2, Te3, LittleEndian, Mask0, Mask1, Mask2, Mask3,
         Byte0, Byte1, Byte2, Byte3;
    TeIsMix(box, Byte3(a), Byte2(b), Byte1(c), Byte0(d));
    SplitXor(XorAll(Te0(box, Byte3(a)), Te1(box, Byte2(b)), Te2(box, Byte1(c)), Te3(box, Byte0(d))), k);
    MaskedSum(box.fwd(Byte3(a)), box.fwd(Byte2(b)), box.fwd(Byte1(c)), box.fwd(Byte0(d)));
    SplitXor(XorAll(Mask3(Te4(box, Byte3(a))), Mask2(Te4(box, Byte2(b))),
                    Mask1(Te4(box, Byte1(c))), Mask0(Te4(box, Byte0(d)))), k);
  }

  lemma DecColumnIs(box: Box, a: Word, b: Word, c: Word, d: Word, k: Word)
    ensures Split(DecColumn(box, a, b, c, d, k))
         == XorCol(InvMixCol(MapCol(box.inv, Col(Byte3(a), Byte2(b), Byte1(c), Byte0(d)))), Split(k))
    ensures Split(DecLast(box, a, b, c, d, k))
         == XorCol(MapCol(box.inv, Col(Byte3(a), Byte2(b), Byte1(c), Byte0(d))), Split(k))
  {
    hide Xor, XorCol, XorAll, InvMixCol, Split, Td0, Td1, Td2, Td3, LittleEndian, Mask0, Mask1, Mask2, Mask3,
         Byte0, Byte1, Byte2, Byte3;
    TdIsUnmix(box, Byte3(a), Byte2(b), Byte1(c), Byte0(d));
    SplitXor(XorAll(Td0(box, Byte3(a)), Td1(box, Byte2(b)), Td2(box, Byte1(c)), Td3(box, Byte0(d))), k);
    MaskedSum(box.inv(Byte3(a)), box.inv(Byte2(b)), box.inv(Byte1(c)), box.inv(Byte0(d)));
    SplitXor(XorAll(Mask3(Td4(box, Byte3(a))), Mask2(Td4(box, Byte2(b))),
                    Mask1(Td4(box, Byte1(c))), Mask0(Td4(box, Byte0(d)))), k);
  }

  datatype Quad = Quad(w0: Word, w1: Word, w2: Word, w3: Word)

  function AsBlock(q: Quad): Block {
    Words4(q.w0, q.w1, q.w2, q.w3)
  }

  /** A full table round on the state `s` with the round key at `rk[at..at + 4]`. */
  method EncRound(box: Box, s: Quad, rk: array<Word>, at: nat) returns (t: Quad)
    requires at + 4 <= rk.Length && at % 4 == 0
    ensures AsBlock(t) == AesSpec.AddKey(MixColumns(ShiftRows(SubBytes(box.fwd, AsBlock(s)))), RoundKey(rk[..], at / 4))
  {
    hide Xor, XorCol, MixCol, EncColumn, EncLast, Byte0, Byte1, Byte2, Byte3;
    t := Quad(EncColumn(box, s.w0, s.w1, s.w2, s.w3, rk[at]),
              EncColumn(box, s.w1, s.w2, s.w3, s.w0, rk[at + 1]),
              EncColumn(box, s.w2, s.w3, s.w0, s.w1, rk[at + 2]),
              EncColumn(box, s.w3, s.w0, s.w1, s.w2, rk[at + 3]));
    EncColumnIs(box, s.w0, s.w1, s.w2, s.w3, rk[at]);
    EncColumnIs(box, s.w1, s.w2, s.w3, s.w0, rk[at + 1]);
    EncColumnIs(box, s.w2, s.w3, s.w0, s.w1, rk[at + 2]);
    EncColumnIs(box, s.w3, s.w0, s.w1, s.w2, rk[at + 3]);
  }

  method EncFinal(box: Box, s: Quad, rk: array<Word>, at: nat) returns (t: Quad)
    requires at + 4 <= rk.Length && at % 4 == 0
    ensures AsBlock(t) == AesSpec.AddKey(ShiftRows(SubBytes(box.fwd, AsBlock(s))), RoundKey(rk[..], at / 4))
  {
    hide Xor, XorCol, EncColumn, EncLast, Byte0, Byte1, Byte2, Byte3;
    t := Quad(EncLast(box, s.w0, s.w1, s.w2, s.w3, rk[at]),
              EncLast(box, s.w1, s.w2, s.w3, s.w0, rk[at + 1]),
              EncLast(box, s.w2, s.w3, s.w0, s.w1, rk[at + 2]),
              EncLast(box, s.w3, s.w0, s.w1, s.w2, rk[at + 3]));
    EncColumnIs(box, s.w0, s.w1, s.w2, s.w3, rk[at]);
    EncColumnIs(box, s.w1, s.w2, s.w3, s.w0, rk[at + 1]);
    EncColumnIs(box, s.w2, s.w3, s.w0, s.w1, rk[at + 2]);
    EncColumnIs(box, s.w3, s.w0, s.w1, s.w2, rk[at + 3]);
  }

  method DecRound(box: Box, s: Quad, rk: array<Word>, at: nat) returns (t: Quad)
    requires at + 4 <= rk.Length && at % 4 == 0
    ensures AsBlock(t)
         == AesSpec.AddKey(InvMixColumns(InvShiftRows(SubBytes(box.inv, AsBlock(s)))), RoundKey(rk[..], at / 4))
  {
    hide Xor, XorCol, InvMixCol, DecColumn, DecLast, Byte0, Byte1, Byte2, Byte3;
    t := Quad(DecColumn(box, s.w0, s.w3, s.w2, s.w1, rk[at]),
              DecColumn(box, s.w1, s.w0, s.w3, s.w2, rk[at + 1]),
              DecColumn(box, s.w2, s.w1, s.w0, s.w3, rk[at + 2]),
              DecColumn(box, s.w3, s.w2, s.w1, s.w0, rk[at + 3]));
    DecColumnIs(box, s.w0, s.w3, s.w2, s.w1, rk[at]);
    DecColumnIs(box, s.w1, s.w0, s.w3, s.w2, rk[at + 1]);
    DecColumnIs(box, s.w2, s.w1, s.w0, s.w3, rk[at + 2]);
    DecColumnIs(box, s.w3, s.w2, s.w1, s.w0, rk[at + 3]);
  }

  method DecFinal(box: Box, s: Quad, rk: array<Word>, at: nat) returns (t: Quad)
    requires at + 4 <= rk.Length && at % 4 == 0
    ensures AsBlock(t) == AesSpec.AddKey(InvShiftRows(SubBytes(box.inv, AsBlock(s))), RoundKey(rk[..], at / 4))
  {
    hide Xor, XorCol, DecColumn, DecLast, Byte0, Byte1, Byte2, Byte3;
    t := Quad(DecLast(box, s.w0, s.w3, s.w2, s.w1, rk[at]),
              DecLast(box, s.w1, s.w0, s.w3, s.w2, rk[at + 1]),
              DecLast(box, s.w2, s.w1, s.w0, s.w3, rk[at + 2]),
              DecLast(box, s.w3, s.w2, s.w1, s.w0, rk[at + 3]));
    DecColumnIs(box, s.w0, s.w3, s.w2, s.w1, rk[at]);
    DecColumnIs(box, s.w1, s.w0, s.w3, s.w2, rk[at + 1]);
    DecColumnIs(box, s.w2, s.w1, s.w0, s.w3, rk[at + 2]);
    DecColumnIs(box, s.w3, s.w2, s.w1, s.w0, rk[at + 3]);
  }

  /** The first step of both directions: block bytes to words, plus the first round key. */
  method LoadBlock(s: array<Byte>, rk: array<Word>) returns (q: Quad)
    requires s.Length >= 16 && rk.Length >= 4
    ensures AsBlock(q) == AesSpec.AddKey(BlockOf(s[..16]), RoundKey(rk[..], 0))
  {
    hide Xor, XorCol, LittleEndian, Byte0, Byte1, Byte2, Byte3;
    var g0, g1 := BigEndian(s[0], s[1], s[2], s[3]), BigEndian(s[4], s[5], s[6], s[7]);
    var g2, g3 := BigEndian(s[8], s[9], s[10], s[11]), BigEndian(s[12], s[13], s[14], s[15]);
    q := Quad(Xor(g0, rk[0]), Xor(g1, rk[1]), Xor(g2, rk[2]), Xor(g3, rk[3]));
    SplitPack(Col(s[0], s[1], s[2], s[3]));
    SplitPack(Col(s[4], s[5], s[6], s[7]));
    SplitPack(Col(s[8], s[9], s[10], s[11]));
    SplitPack(Col(s[12], s[13], s[14], s[15]));
    SplitXor(g0, rk[0]);
    SplitXor(g1, rk[1]);
    SplitXor(g2, rk[2]);
    SplitXor(g3, rk[3]);
  }

  method StoreWord(w: Word, ct: array<Byte>, at: nat)
    requires at + 4 <= ct.Length
    modifies ct
    ensures Col(ct[at], ct[at + 1], ct[at + 2], ct[at + 3]) == Split(w)
    ensures forall i :: 0 <= i < ct.Length && !(at <= i < at + 4) ==> ct[i] == old(ct[i])
  {
    hide Byte0, Byte1, Byte2, Byte3;
    ct[at] := Byte3(w);
    ct[at + 1] := Byte2(w);
    ct[at + 2] := Byte1(w);
    ct[at + 3] := Byte0(w);
  }

  method StoreBlock(q: Quad, ct: array<Byte>)
    requires ct.Length >= 16
    modifies ct
    ensures BlockOf(ct[..16]) == AsBlock(q) && ct[16..] == old(ct[16..])
  {
    hide Split;
    StoreWord(q.w0, ct, 0);
    StoreWord(q.w1, ct, 4);
    StoreWord(q.w2, ct, 8);
    StoreWord(q.w3, ct, 12);
  }

  method RijndaelEncrypt(box: Box, rk: array<Word>, nr: nat, pt: array<Byte>, ct: array<Byte>)
    requires nr >= 2 && nr % 2 == 0 && rk.Length >= 4 * (nr + 1)
    requires pt.Length >= 16 && ct.Length >= 16
    modifies ct
    ensures BlockOf(ct[..16]) == Cipher(box, KeysOf(rk[..], nr), old(BlockOf(pt[..16])))
    ensures ct[16..] == old(ct[16..])
  {
    hide AesSpec.AddKey, MixColumns, ShiftRows, SubBytes, AsBlock, RoundKey, BlockOf, Rounds;
    ghost var keys, b := KeysOf(rk[..], nr), BlockOf(pt[..16]);
    RoundsStart(box, keys, b);
    var s := LoadBlock(pt, rk);
    var at, r := 0, nr / 2;
    ghost var n := 0;
    var t;
    while true
      invariant 0 < r && at == 4 * n && n + 2 * r == nr
      invariant AsBlock(s) == Rounds(box, keys, b, n) && unchanged(ct)
      decreases r
    {
      RoundsNext(box, keys, b, n);
      assert (at + 4) / 4 == n + 1;
      t := EncRound(box, s, rk, at + 4);
      at := at + 8;
      r := r - 1;
      n := n + 2;
      assert at / 4 == n;
      if r == 0 {
        break;
      }
      RoundsNext(box, keys, b, n - 1);
      s := EncRound(box, t, rk, at);
    }
    t := EncFinal(box, t, rk, at);
    StoreBlock(t, ct);
  }

  method RijndaelDecrypt(box: Box, rk: array<Word>, nr: nat, ct: array<Byte>, pt: array<Byte>)
    requires nr >= 2 && nr % 2 == 0 && rk.Length >= 4 * (nr + 1)
    requires pt.Length >= 16 && ct.Length >= 16
    modifies pt
    ensures BlockOf(pt[..16]) == InvCipher(box, KeysOf(rk[..], nr), old(BlockOf(ct[..16])))
    ensures pt[16..] == old(pt[16..])
  {
    hide AesSpec.AddKey, InvMixColumns, InvShiftRows, SubBytes, AsBlock, RoundKey, BlockOf, InvRounds;
    ghost var keys, b := KeysOf(rk[..], nr), BlockOf(ct[..16]);
    RoundsStart(box, keys, b);
    var s := LoadBlock(ct, rk);
    var at, r := 0, nr / 2;
    ghost var n := 0;
    var t;
    while true
      invariant 0 < r && at == 4 * n && n + 2 * r == nr
      invariant AsBlock(s) == InvRounds(box, keys, b, n) && unchanged(pt)
      decreases r
    {
      InvRoundsNext(box, keys, b, n);
      assert (at + 4) / 4 == n + 1;
      t := DecRound(box, s, rk, at + 4);
      at := at + 8;
      r := r - 1;
      n := n + 2;
      assert at / 4 == n;
      if r == 0 {
        break;
      }
      InvRoundsNext(box, keys, b, n - 1);
      s := DecRound(box, t, rk, at);
    }
    t := DecFinal(box, t, rk, at);
    StoreBlock(t, pt);
  }

  // ------------------------------------------------------------------- the key schedule

  function RotWord(w: Word): Word {
    BigEndian(Byte2(w), Byte1(w), Byte0(w), Byte3(w))
  }

  function SubWord(box: Box, w: Word): Word {
    BigEndian(box.fwd(Byte3(w)), box.fwd(Byte2(w)), box.fwd(Byte1(w)), box.fwd(Byte0(w)))
  }

  function PowerOfX(i: nat): Byte {
    if i == 0 then Byte(1) else Xtime(PowerOfX(i - 1))
  }

  /** Rcon of section 5.2, counted from 0. */
  function Rcon(i: nat): Word {
    BigEndian(PowerOfX(i), Byte(0), Byte(0), Byte(0))
  }

  const RCON_TABLE: seq<Word> := [
    Word(0x01000000), Word(0x02000000), Word(0x04000000), Word(0x08000000), Word(0x10000000),
    Word(0x20000000), Word(0x40000000), Word(0x80000000), Word(0x1B000000), Word(0x36000000)]

  lemma {:induction false} PowersOfX()
    ensures PowerOfX(0) == Byte(0x01) && PowerOfX(1) == Byte(0x02) && PowerOfX(2) == Byte(0x04)
    ensures PowerOfX(3) == Byte(0x08) && PowerOfX(4) == Byte(0x10) && PowerOfX(5) == Byte(0x20)
    ensures PowerOfX(6) == Byte(0x40) && PowerOfX(7) == Byte(0x80) && PowerOfX(8) == Byte(0x1B)
    ensures PowerOfX(9) == Byte(0x36)
  {
    hide Xtime;
    assert Xtime(Byte(0x01)) == Byte(0x02) && Xtime(Byte(0x02)) == Byte(0x04) by { Doubles(); }
    Doubles();
  }

  lemma Doubles()
    ensures Xtime(Byte(0x01)) == Byte(0x02) && Xtime(Byte(0x02)) == Byte(0x04)
    ensures Xtime(Byte(0x04)) == Byte(0x08) && Xtime(Byte(0x08)) == Byte(0x10)
    ensures Xtime(Byte(0x10)) == Byte(0x20) && Xtime(Byte(0x20)) == Byte(0x40)
    ensures Xtime(Byte(0x40)) == Byte(0x80) && Xtime(Byte(0x80)) == Byte(0x1B)
    ensures Xtime(Byte(0x1B)) == Byte(0x36)
  {
  }

  /** The table of round constants is the one the standard defines. */
  lemma RconTable(i: nat)
    requires i < 10
    ensures RCON_TABLE[i] == Rcon(i)
  {
    hide LittleEndian, PowerOfX;
    PowersOfX();
    TopByte(PowerOfX(i));
  }

  lemma TopByte(b: Byte)
    ensures BigEndian(b, Byte(0), Byte(0), Byte(0)) == Word((b.bits as bv32) << 24)
  {
  }

  /** Word `i` of the expanded key (section 5.2). */
  function ExpandedWord(box: Box, key: seq<Word>, i: nat): Word
    requires |key| == 4 || |key| == 6 || |key| == 8
  {
    var nk := |key|;
    if i < nk then key[i] else
      var temp := ExpandedWord(box, key, i - 1);
      Xor(ExpandedWord(box, key, i - nk),
          if i % nk == 0 then Xor(SubWord(box, RotWord(temp)), Rcon(i / nk - 1))
          else if nk > 6 && i % nk == 4 then SubWord(box, temp)
          else temp)
  }

  lemma XorAssoc(a: Word, b: Word, c: Word)
    ensures Xor(Xor(a, b), c) == Xor(a, Xor(b, c))
  {
  }

  lemma ChainOfFour(k: Word, a: Word, b: Word, c: Word, d: Word)
    ensures Xor(Xor(Xor(Xor(k, a), b), c), d) == Xor(k, XorAll(a, b, c, d))
  {
    hide Xor;
    XorAssoc(k, a, b);
    XorAssoc(k, Xor(a, b), c);
    XorAssoc(k, Xor(Xor(a, b), c), d);
  }

  /** `k` plus the substituted bytes, each placed by a mask, as the C code writes it. */
  function PlusSubstituted(box: Box, k: Word, b3: Byte, b2: Byte, b1: Byte, b0: Byte): Word {
    Xor(Xor(Xor(Xor(k, Mask3(Te4(box, b3))), Mask2(Te4(box, b2))), Mask1(Te4(box, b1))), Mask0(Te4(box, b0)))
  }

  lemma PlusSubstitutedIs(box: Box, k: Word, b3: Byte, b2: Byte, b1: Byte, b0: Byte)
    ensures PlusSubstituted(box, k, b3, b2, b1, b0)
         == Xor(k, BigEndian(box.fwd(b3), box.fwd(b2), box.fwd(b1), box.fwd(b0)))
  {
    hide Xor, XorAll, LittleEndian, Mask0, Mask1, Mask2, Mask3, Split;
    var p, q, r, s := box.fwd(b3), box.fwd(b2), box.fwd(b1), box.fwd(b0);
    var m3, m2 := Mask3(BigEndian(p, p, p, p)), Mask2(BigEndian(q, q, q, q));
    var m1, m0 := Mask1(BigEndian(r, r, r, r)), Mask0(BigEndian(s, s, s, s));
    ChainOfFour(k, m3, m2, m1, m0);
    MaskedSum(p, q, r, s);
    PackSplit(XorAll(m3, m2, m1, m0));
  }

  /** The step at a multiple of the key length. */
  lemma KeyStepIs(box: Box, k: Word, temp: Word, i: nat)
    requires i < 10
    ensures Xor(PlusSubstituted(box, k, Byte2(temp), Byte1(temp), Byte0(temp), Byte3(temp)), RCON_TABLE[i])
         == Xor(k, Xor(SubWord(box, RotWord(temp)), Rcon(i)))
  {
    hide Xor, PlusSubstituted, LittleEndian, Byte0, Byte1, Byte2, Byte3, Rcon;
    PlusSubstitutedIs(box, k, Byte2(temp), Byte1(temp), Byte0(temp), Byte3(temp));
    Unpack(Byte3(temp), Byte0(temp), Byte1(temp), Byte2(temp));
    XorAssoc(k, SubWord(box, RotWord(temp)), Rcon(i));
    RconTable(i);
  }

  function KeyWords(cipherKey: seq<Byte>, nk: nat): (key: seq<Word>)
    requires 4 * nk <= |cipherKey|
    ensures |key| == nk
  {
    seq(nk, j requires 0 <= j < nk =>
      BigEndian(cipherKey[4 * j], cipherKey[4 * j + 1], cipherKey[4 * j + 2], cipherKey[4 * j + 3]))
  }

  /** The first `n` words of `rk` are those of the expanded key. */
  ghost predicate ExpandedTo(box: Box, key: seq<Word>, rk: seq<Word>, n: nat)
    requires |key| == 4 || |key| == 6 || |key| == 8
  {
    n <= |rk| && forall j :: 0 <= j < n ==> rk[j] == ExpandedWord(box, key, j)
  }

  /** `rk[o + nk] = rk[o] ^ ...` with substitution, rotation and round constant `i`. */
  method FirstWord(box: Box, rk: array<Word>, o: nat, nk: nat, i: nat, ghost key: seq<Word>)
    requires |key| == nk && (nk == 4 || nk == 6 || nk == 8) && o == nk * i && i < 10 && o + nk < rk.Length
    requires ExpandedTo(box, key, rk[..], o + nk)
    modifies rk
    ensures ExpandedTo(box, key, rk[..], o + nk + 1)
  {
    hide Xor, PlusSubstituted, SubWord, RotWord, Rcon, Byte0, Byte1, Byte2, Byte3;
    var temp := rk[o + nk - 1];
    KeyStepIs(box, rk[o], temp, i);
    assert (o + nk) % nk == 0 && (o + nk) / nk - 1 == i;
    rk[o + nk] := Xor(PlusSubstituted(box, rk[o], Byte2(temp), Byte1(temp), Byte0(temp), Byte3(temp)), RCON_TABLE[i]);
  }

  /** `rk[n] = rk[n - nk] ^ rk[n - 1]` */
  method PlainWord(box: Box, rk: array<Word>, n: nat, nk: nat, ghost key: seq<Word>)
    requires |key| == nk && (nk == 4 || nk == 6 || nk == 8) && nk <= n < rk.Length
    requires n % nk != 0 && (nk > 6 ==> n % nk != 4)
    requires ExpandedTo(box, key, rk[..], n)
    modifies rk
    ensures ExpandedTo(box, key, rk[..], n + 1)
  {
    hide Xor, SubWord, RotWord, Rcon;
    rk[n] := Xor(rk[n - nk], rk[n - 1]);
  }

  /** The extra substitution in the middle of a 256-bit group. */
  method MiddleWord(box: Box, rk: array<Word>, n: nat, ghost key: seq<Word>)
    requires |key| == 8 && 8 <= n < rk.Length && n % 8 == 4
    requires ExpandedTo(box, key, rk[..], n)
    modifies rk
    ensures ExpandedTo(box, key, rk[..], n + 1)
  {
    hide Xor, PlusSubstituted, RotWord, Rcon, LittleEndian, Byte0, Byte1, Byte2, Byte3;
    var temp := rk[n - 1];
    PlusSubstitutedIs(box, rk[n - 8], Byte3(temp), Byte2(temp), Byte1(temp), Byte0(temp));
    rk[n] := PlusSubstituted(box, rk[n - 8], Byte3(temp), Byte2(temp), Byte1(temp), Byte0(temp));
  }

  function RoundsFor(keyBits: int): nat {
    if keyBits == 128 then 10 else if keyBits == 192 then 12 else if keyBits == 256 then 14 else 0
  }

  /** Copy the cipher key into the first words of the schedule. */
  method LoadKeyWords(rk: array<Word>, cipherKey: array<Byte>, from: nat, to: nat)
    requires from <= to <= rk.Length && 4 * to <= cipherKey.Length
    requires from <= to && forall j :: 0 <= j < from ==> rk[j] == KeyWords(cipherKey[..], from)[j]
    modifies rk
    ensures rk[..to] == KeyWords(cipherKey[..], to)
  {
    hide LittleEndian;
    for j := from to to
      invariant forall k :: 0 <= k < j ==> rk[k] == KeyWords(cipherKey[..], to)[k]
    {
      rk[j] := BigEndian(cipherKey[4 * j], cipherKey[4 * j + 1], cipherKey[4 * j + 2], cipherKey[4 * j + 3]);
    }
  }

  method Expand128(box: Box, rk: array<Word>, ghost key: seq<Word>)
    requires |key| == 4 && rk.Length >= 44 && rk[..4] == key
    modifies rk
    ensures ExpandedTo(box, key, rk[..], 44)
  {
    hide ExpandedWord;
    StartsExpanded(box, key, rk[..]);
    var i, o := 0, 0;
    while true
      invariant 0 <= i < 10 && o == 4 * i && ExpandedTo(box, key, rk[..], o + 4)
      decreases 10 - i
    {
      FirstWord(box, rk, o, 4, i, key);
      PlainWord(box, rk, o + 5, 4, key);
      PlainWord(box, rk, o + 6, 4, key);
      PlainWord(box, rk, o + 7, 4, key);
      i := i + 1;
      if i == 10 {
        return;
      }
      o := o + 4;
    }
  }

  method Expand192(box: Box, rk: array<Word>, ghost key: seq<Word>)
    requires |key| == 6 && rk.Length >= 52 && rk[..6] == key
    modifies rk
    ensures ExpandedTo(box, key, rk[..], 52)
  {
    hide ExpandedWord;
    StartsExpanded(box, key, rk[..]);
    var i, o := 0, 0;
    while true
      invariant 0 <= i < 8 && o == 6 * i && ExpandedTo(box, key, rk[..], o + 6)
      decreases 8 - i
    {
      FirstWord(box, rk, o, 6, i, key);
      PlainWord(box, rk, o + 7, 6, key);
      PlainWord(box, rk, o + 8, 6, key);
      PlainWord(box, rk, o + 9, 6, key);
      i := i + 1;
      if i == 8 {
        return;
      }
      PlainWord(box, rk, o + 10, 6, key);
      PlainWord(box, rk, o + 11, 6, key);
      o := o + 6;
    }
  }

  method Expand256(box: Box, rk: array<Word>, ghost key: seq<Word>)
    requires |key| == 8 && rk.Length >= 60 && rk[..8] == key
    modifies rk
    ensures ExpandedTo(box, key, rk[..], 60)
  {
    hide ExpandedWord;
    StartsExpanded(box, key, rk[..]);
    var i, o := 0, 0;
    while true
      invariant 0 <= i < 7 && o == 8 * i && ExpandedTo(box, key, rk[..], o + 8)
      decreases 7 - i
    {
      FirstWord(box, rk, o, 8, i, key);
      PlainWord(box, rk, o + 9, 8, key);
      PlainWord(box, rk, o + 10, 8, key);
      PlainWord(box, rk, o + 11, 8, key);
      i := i + 1;
      if i == 7 {
        return;
      }
      MiddleWord(box, rk, o + 12, key);
      PlainWord(box, rk, o + 13, 8, key);
      PlainWord(box, rk, o + 14, 8, key);
      PlainWord(box, rk, o + 15, 8, key);
      o := o + 8;
    }
  }

  lemma StartsExpanded(box: Box, key: seq<Word>, rk: seq<Word>)
    requires |key| == 4 || |key| == 6 || |key| == 8
    requires |rk| >= |key| && rk[..|key|] == key
    ensures ExpandedTo(box, key, rk, |key|)
  {
    forall j | 0 <= j < |key|
      ensures rk[j] == ExpandedWord(box, key, j)
    {
      assert rk[j] == rk[..|key|][j];
    }
  }

  /** Expand the cipher key; an unknown key size gives 0 rounds. */
  method RijndaelKeySetupEnc(box: Box, rk: array<Word>, cipherKey: array<Byte>, keyBits: int) returns (nr: nat)
    requires rk.Length >= 8 && rk.Length >= 4 * (RoundsFor(keyBits) + 1)
    requires cipherKey.Length >= if keyBits == 128 then 16 else if keyBits == 192 then 24 else 32
    modifies rk
    ensures nr == RoundsFor(keyBits)
    ensures nr > 0 ==> ExpandedTo(box, KeyWords(cipherKey[..], keyBits / 32), rk[..], 4 * (nr + 1))
  {
    hide ExpandedWord, LittleEndian;
    LoadKeyWords(rk, cipherKey, 0, 4);
    if keyBits == 128 {
      Expand128(box, rk, KeyWords(cipherKey[..], 4));
      return 10;
    }
    LoadKeyWords(rk, cipherKey, 4, 6);
    if keyBits == 192 {
      Expand192(box, rk, KeyWords(cipherKey[..], 6));
      return 12;
    }
    LoadKeyWords(rk, cipherKey, 6, 8);
    if keyBits == 256 {
      Expand256(box, rk, KeyWords(cipherKey[..], 8));
      return 14;
    }
    return 0;
  }

  // ----------------------------------------------------------- the decryption schedule

  /** The encryption schedule of a cipher key, by the standard's recurrence. */
  function EncSchedule(box: Box, key: seq<Word>, nr: nat): (keys: Schedule)
    requires |key| == 4 || |key| == 6 || |key| == 8
    ensures |keys| == nr + 1
  {
    KeysOf(seq(4 * (nr + 1), i requires 0 <= i => ExpandedWord(box, key, i)), nr)
  }

  lemma ExpandedKeys(box: Box, key: seq<Word>, rk: seq<Word>, nr: nat)
    requires |key| == 4 || |key| == 6 || |key| == 8
    requires ExpandedTo(box, key, rk, 4 * (nr + 1))
    ensures KeysOf(rk, nr) == EncSchedule(box, key, nr)
  {
    hide ExpandedWord, Split;
    var words := seq(4 * (nr + 1), i requires 0 <= i => ExpandedWord(box, key, i));
    forall r | 0 <= r <= nr
      ensures RoundKey(rk, r) == RoundKey(words, r)
    {
    }
  }

  method SwapWords(rk: array<Word>, i: nat, j: nat)
    requires i < rk.Length && j < rk.Length
    modifies rk
    ensures rk[..] == old(rk[..])[i := old(rk[j])][j := old(rk[i])]
  {
    var temp := rk[i];
    rk[i] := rk[j];
    rk[j] := temp;
  }

  lemma SameGroup(w: seq<Word>, v: seq<Word>, a: nat, b: nat)
    requires 4 * a + 4 <= |w| && 4 * b + 4 <= |v| && w[4 * a..4 * a + 4] == v[4 * b..4 * b + 4]
    ensures RoundKey(w, a) == RoundKey(v, b)
  {
    hide Split;
    var s := w[4 * a..4 * a + 4];
    assert w[4 * a] == s[0] && w[4 * a + 1] == s[1] && w[4 * a + 2] == s[2] && w[4 * a + 3] == s[3];
    assert v[4 * b] == s[0] && v[4 * b + 1] == s[1] && v[4 * b + 2] == s[2] && v[4 * b + 3] == s[3];
  }

  /** Swapping the four words of two groups swaps their round keys. */
  lemma SwappedGroups(w: seq<Word>, v: seq<Word>, a: nat, b: nat, nr: nat)
    requires a < b <= nr && |w| == |v| >= 4 * (nr + 1)
    requires v[4 * a..4 * a + 4] == w[4 * b..4 * b + 4] && v[4 * b..4 * b + 4] == w[4 * a..4 * a + 4]
    requires forall k :: 0 <= k < |w| && !(4 * a <= k < 4 * a + 4) && !(4 * b <= k < 4 * b + 4) ==> v[k] == w[k]
    ensures var ks := KeysOf(w, nr); KeysOf(v, nr) == ks[a := ks[b]][b := ks[a]]
  {
    hide Split;
    SameGroup(w, v, b, a);
    SameGroup(w, v, a, b);
    forall r | 0 <= r <= nr && r != a && r != b
      ensures RoundKey(v, r) == RoundKey(w, r)
    {
    }
  }

  /** Swap the round keys `a` and `b`. */
  method SwapKeys(rk: array<Word>, a: nat, b: nat, ghost nr: nat)
    requires a < b <= nr && rk.Length >= 4 * (nr + 1)
    modifies rk
    ensures var ks := old(KeysOf(rk[..], nr)); KeysOf(rk[..], nr) == ks[a := ks[b]][b := ks[a]]
  {
    hide KeysOf;
    ghost var w := rk[..];
    var i, j := 4 * a, 4 * b;
    SwapWords(rk, i, j);
    SwapWords(rk, i + 1, j + 1);
    SwapWords(rk, i + 2, j + 2);
    SwapWords(rk, i + 3, j + 3);
    SwappedGroups(w, rk[..], a, b, nr);
  }

  function UnmixWord(box: Box, w: Word): Word {
    XorAll(Td0(box, Byte0(Te4(box, Byte3(w)))), Td1(box, Byte0(Te4(box, Byte2(w)))),
           Td2(box, Byte0(Te4(box, Byte1(w)))), Td3(box, Byte0(Te4(box, Byte0(w)))))
  }

  lemma UnmixWordIs(box: Box, w: Word)
    requires Inverses(box)
    ensures Split(UnmixWord(box, w)) == InvMixCol(Split(w))
  {
    hide XorAll, Td0, Td1, Td2, Td3, LittleEndian, InvMixCol, Byte0, Byte1, Byte2, Byte3;
    var p, q, r, s := box.fwd(Byte3(w)), box.fwd(Byte2(w)), box.fwd(Byte1(w)), box.fwd(Byte0(w));
    Unpack(p, p, p, p);
    Unpack(q, q, q, q);
    Unpack(r, r, r, r);
    Unpack(s, s, s, s);
    TdIsUnmix(box, p, q, r, s);
  }

  method UnmixKey(box: Box, rk: array<Word>, g: nat, ghost nr: nat)
    requires Inverses(box) && g <= nr && rk.Length >= 4 * (nr + 1)
    modifies rk
    ensures var ks := old(KeysOf(rk[..], nr)); KeysOf(rk[..], nr) == ks[g := InvMixColumns(ks[g])]
  {
    hide Split, UnmixWord, InvMixCol, Inverses;
    var o := 4 * g;
    UnmixWordIs(box, rk[o]);
    UnmixWordIs(box, rk[o + 1]);
    UnmixWordIs(box, rk[o + 2]);
    UnmixWordIs(box, rk[o + 3]);
    rk[o] := UnmixWord(box, rk[o]);
    rk[o + 1] := UnmixWord(box, rk[o + 1]);
    rk[o + 2] := UnmixWord(box, rk[o + 2]);
    rk[o + 3] := UnmixWord(box, rk[o + 3]);
    forall r | 0 <= r <= nr && r != g
      ensures RoundKey(rk[..], r) == RoundKey(old(rk[..]), r)
    {
    }
  }

  /** `cur` is `ks` with everything outside positions `a` to `b` reversed. */
  ghost predicate PartReversed(ks: Schedule, cur: Schedule, a: int, b: int) {
    && |cur| == |ks| == a + b + 1
    && (forall g :: 0 <= g < |ks| && g < a ==> cur[g] == ks[|ks| - 1 - g])
    && (forall g :: 0 <= g < |ks| && a <= g <= b ==> cur[g] == ks[g])
    && (forall g :: 0 <= g < |ks| && b < g ==> cur[g] == ks[|ks| - 1 - g])
  }

  lemma SwapStep(ks: Schedule, cur: Schedule, a: nat, b: nat)
    requires PartReversed(ks, cur, a, b) && a < b
    ensures b < |cur| && PartReversed(ks, cur[a := cur[b]][b := cur[a]], a + 1, b - 1)
  {
  }

  lemma AllReversed(ks: Schedule, cur: Schedule, a: nat, b: int)
    requires PartReversed(ks, cur, a, b) && a >= b
    ensures |cur| == |ks| && forall g :: 0 <= g < |ks| ==> cur[g] == ks[|ks| - 1 - g]
  {
  }

  /** Reverse the order of the round keys. */
  method ReverseKeys(rk: array<Word>, nr: nat)
    requires rk.Length >= 4 * (nr + 1)
    modifies rk
    ensures forall g :: 0 <= g <= nr ==> KeysOf(rk[..], nr)[g] == old(KeysOf(rk[..], nr))[nr - g]
  {
    hide KeysOf;
    ghost var ks := KeysOf(rk[..], nr);
    var i, j := 0, 4 * nr;
    ghost var a, b: int := 0, nr;
    assert PartReversed(ks, KeysOf(rk[..], nr), a, b);
    while i < j
      invariant i == 4 * a && j == 4 * b && 0 <= a && a + b == nr
      invariant PartReversed(ks, KeysOf(rk[..], nr), a, b)
      decreases j - i
    {
      hide PartReversed;
      assert i / 4 == a && j / 4 == b;
      SwapStep(ks, KeysOf(rk[..], nr), a, b);
      SwapKeys(rk, i / 4, j / 4, nr);
      i, j := i + 4, j - 4;
      a, b := a + 1, b - 1;
    }
    AllReversed(ks, KeysOf(rk[..], nr), a, b);
  }

  /** Reverse the round keys, then unmix all but the first and the last. */
  method InvertSchedule(box: Box, rk: array<Word>, nr: nat)
    requires Inverses(box) && rk.Length >= 4 * (nr + 1)
    modifies rk
    ensures KeysOf(rk[..], nr) == InvSchedule(old(KeysOf(rk[..], nr)))
  {
    hide KeysOf, InvMixColumns, Inverses;
    ghost var ks := KeysOf(rk[..], nr);
    ReverseKeys(rk, nr);
    var i := 1;
    while i < nr
      invariant 1 <= i && (i <= nr || nr == 0)
      invariant |KeysOf(rk[..], nr)| == nr + 1
      invariant forall h :: 0 <= h <= nr ==>
        KeysOf(rk[..], nr)[h] == if 1 <= h < i then InvMixColumns(ks[nr - h]) else ks[nr - h]
    {
      UnmixKey(box, rk, i, nr);
      i := i + 1;
    }
  }

  method RijndaelKeySetupDec(box: Box, rk: array<Word>, cipherKey: array<Byte>, keyBits: int) returns (nr: nat)
    requires Inverses(box)
    requires rk.Length >= 8 && rk.Length >= 4 * (RoundsFor(keyBits) + 1)
    requires cipherKey.Length >= if keyBits == 128 then 16 else if keyBits == 192 then 24 else 32
    modifies rk
    ensures nr == RoundsFor(keyBits)
    ensures nr > 0 ==>
      KeysOf(rk[..], nr) == InvSchedule(EncSchedule(box, KeyWords(cipherKey[..], keyBits / 32), nr))
  {
    hide Inverses, EncSchedule, KeyWords, ExpandedWord;
    nr := RijndaelKeySetupEnc(box, rk, cipherKey, keyBits);
    if nr > 0 {
      ExpandedKeys(box, KeyWords(cipherKey[..], keyBits / 32), rk[..], nr);
    }
    InvertSchedule(box, rk, nr);
  }

  /** The four entry points together: for every key of a known size and every block, what
      `RijndaelDecrypt` makes of the output of `RijndaelEncrypt` is the block itself. */
  method EncryptThenDecrypt(box: Box, cipherKey: array<Byte>, keyBits: int, data: array<Byte>, back: array<Byte>)
    requires Inverses(box) && RoundsFor(keyBits) > 0
    requires cipherKey.Length >= keyBits / 8 && data.Length >= 16 && back.Length >= 16 && back != data
    modifies back
    ensures BlockOf(back[..16]) == BlockOf(data[..16])
  {
    hide Inverses, EncSchedule, KeyWords, ExpandedWord, Cipher, InvCipher, InvSchedule, KeysOf, BlockOf;
    var enc, dec := new Word[60], new Word[60];
    var nr := RijndaelKeySetupEnc(box, enc, cipherKey, keyBits);
    var nr' := RijndaelKeySetupDec(box, dec, cipherKey, keyBits);
    ghost var key := KeyWords(cipherKey[..], keyBits / 32);
    ExpandedKeys(box, key, enc[..], nr);
    DecryptInvertsEncrypt(box, EncSchedule(box, key, nr), BlockOf(data[..16]));
    var cipher := new Byte[16];
    RijndaelEncrypt(box, enc, nr, data, cipher);
    RijndaelDecrypt(box, dec, nr, cipher, back);
  }
}
