/** The cipher of FIPS 197 on its 4x4 state of bytes, its inverse in the equivalent form of
    section 5.3.5, and the proof that the second undoes the first.

    The S-box is a parameter: any pair of byte functions that undo each other. */
module AesSpec {
  import opened Words

  // ------------------------------------------------------------------------- GF(2^8)

  function Xtime(b: Byte): Byte {
    Byte((b.bits << 1) ^ (if b.bits & 0x80 != 0 then 0x1B else 0))
  }

  function Mul3(b: Byte): Byte {
    XorByte(Xtime(b), b)
  }

  function Mul9(b: Byte): Byte {
    XorByte(Xtime(Xtime(Xtime(b))), b)
  }

  function MulB(b: Byte): Byte {
    XorByte(Xtime(Xtime(Xtime(b))), Mul3(b))
  }

  function MulD(b: Byte): Byte {
    XorByte(XorByte(Xtime(Xtime(Xtime(b))), Xtime(Xtime(b))), b)
  }

  function MulE(b: Byte): Byte {
    XorByte(XorByte(Xtime(Xtime(Xtime(b))), Xtime(Xtime(b))), Xtime(b))
  }

  // ------------------------------------------------------------------ columns and blocks

  /** A column of the state, row 0 first. */
  datatype Col = Col(r0: Byte, r1: Byte, r2: Byte, r3: Byte)

  datatype Block = Block(c0: Col, c1: Col, c2: Col, c3: Col)

  function XorCol(a: Col, b: Col): Col {
    Col(XorByte(a.r0, b.r0), XorByte(a.r1, b.r1), XorByte(a.r2, b.r2), XorByte(a.r3, b.r3))
  }

  function AddKey(s: Block, k: Block): Block {
    Block(XorCol(s.c0, k.c0), XorCol(s.c1, k.c1), XorCol(s.c2, k.c2), XorCol(s.c3, k.c3))
  }

  function Sum4(a: Byte, b: Byte, c: Byte, d: Byte): Byte {
    XorByte(XorByte(XorByte(a, b), c), d)
  }

  /** MixColumns on one column (section 5.1.3). */
  function MixCol(c: Col): Col {
    Col(Sum4(Xtime(c.r0), Mul3(c.r1), c.r2, c.r3),
        Sum4(c.r0, Xtime(c.r1), Mul3(c.r2), c.r3),
        Sum4(c.r0, c.r1, Xtime(c.r2), Mul3(c.r3)),
        Sum4(Mul3(c.r0), c.r1, c.r2, Xtime(c.r3)))
  }

  /** InvMixColumns on one column (section 5.3.3). */
  function InvMixCol(c: Col): Col {
    Col(Sum4(MulE(c.r0), MulB(c.r1), MulD(c.r2), Mul9(c.r3)),
        Sum4(Mul9(c.r0), MulE(c.r1), MulB(c.r2), MulD(c.r3)),
        Sum4(MulD(c.r0), Mul9(c.r1), MulE(c.r2), MulB(c.r3)),
        Sum4(MulB(c.r0), MulD(c.r1), Mul9(c.r2), MulE(c.r3)))
  }

  function MixColumns(s: Block): Block {
    Block(MixCol(s.c0), MixCol(s.c1), MixCol(s.c2), MixCol(s.c3))
  }

  function InvMixColumns(s: Block): Block {
    Block(InvMixCol(s.c0), InvMixCol(s.c1), InvMixCol(s.c2), InvMixCol(s.c3))
  }

  /** Row `r` moves `r` columns to the left (section 5.1.2). */
  function ShiftRows(s: Block): Block {
    Block(Col(s.c0.r0, s.c1.r1, s.c2.r2, s.c3.r3),
          Col(s.c1.r0, s.c2.r1, s.c3.r2, s.c0.r3),
          Col(s.c2.r0, s.c3.r1, s.c0.r2, s.c1.r3),
          Col(s.c3.r0, s.c0.r1, s.c1.r2, s.c2.r3))
  }

  function InvShiftRows(s: Block): Block {
    Block(Col(s.c0.r0, s.c3.r1, s.c2.r2, s.c1.r3),
          Col(s.c1.r0, s.c0.r1, s.c3.r2, s.c2.r3),
          Col(s.c2.r0, s.c1.r1, s.c0.r2, s.c3.r3),
          Col(s.c3.r0, s.c2.r1, s.c1.r2, s.c0.r3))
  }

  datatype Box = Box(fwd: Byte -> Byte, inv: Byte -> Byte)

  ghost predicate Inverses(box: Box) {
    && (forall b :: box.inv(box.fwd(b)) == b)
    && (forall b :: box.fwd(box.inv(b)) == b)
  }

  function MapCol(f: Byte -> Byte, c: Col): Col {
    Col(f(c.r0), f(c.r1), f(c.r2), f(c.r3))
  }

  function SubBytes(f: Byte -> Byte, s: Block): Block {
    Block(MapCol(f, s.c0), MapCol(f, s.c1), MapCol(f, s.c2), MapCol(f, s.c3))
  }

  // ----------------------------------------------------------------------- the two ciphers

  /** Round keys, first to last. */
  type Schedule = seq<Block>

  /** The state after `r` full rounds of the cipher (section 5.1). */
  function Rounds(box: Box, keys: Schedule, b: Block, r: nat): Block
    requires r < |keys|
  {
    if r == 0 then AddKey(b, keys[0])
    else AddKey(MixColumns(ShiftRows(SubBytes(box.fwd, Rounds(box, keys, b, r - 1)))), keys[r])
  }

  function Cipher(box: Box, keys: Schedule, b: Block): Block
    requires |keys| >= 2
  {
    var n := |keys| - 1;
    AddKey(ShiftRows(SubBytes(box.fwd, Rounds(box, keys, b, n - 1))), keys[n])
  }

  /** The same for the equivalent inverse cipher (section 5.3.5). */
  function InvRounds(box: Box, keys: Schedule, b: Block, r: nat): Block
    requires r < |keys|
  {
    if r == 0 then AddKey(b, keys[0])
    else AddKey(InvMixColumns(InvShiftRows(SubBytes(box.inv, InvRounds(box, keys, b, r - 1)))), keys[r])
  }

  function InvCipher(box: Box, keys: Schedule, b: Block): Block
    requires |keys| >= 2
  {
    var n := |keys| - 1;
    AddKey(InvShiftRows(SubBytes(box.inv, InvRounds(box, keys, b, n - 1))), keys[n])
  }

  lemma RoundsStart(box: Box, keys: Schedule, b: Block)
    requires |keys| > 0
    ensures Rounds(box, keys, b, 0) == AddKey(b, keys[0]) == InvRounds(box, keys, b, 0)
  {
  }

  lemma RoundsNext(box: Box, keys: Schedule, b: Block, r: nat)
    requires r + 1 < |keys|
    ensures Rounds(box, keys, b, r + 1)
         == AddKey(MixColumns(ShiftRows(SubBytes(box.fwd, Rounds(box, keys, b, r)))), keys[r + 1])
  {
  }

  lemma InvRoundsNext(box: Box, keys: Schedule, b: Block, r: nat)
    requires r + 1 < |keys|
    ensures InvRounds(box, keys, b, r + 1)
         == AddKey(InvMixColumns(InvShiftRows(SubBytes(box.inv, InvRounds(box, keys, b, r)))), keys[r + 1])
  {
  }

  /** The decryption schedule: reversed, the inner round keys with their columns unmixed. */
  function InvSchedule(keys: Schedule): (d: Schedule)
    ensures |d| == |keys|
  {
    seq(|keys|, i requires 0 <= i < |keys| =>
      if i == 0 || i == |keys| - 1 then keys[|keys| - 1 - i] else InvMixColumns(keys[|keys| - 1 - i]))
  }

  // ------------------------------------------------------------------------- linearity

  lemma XtimeLinear(a: Byte, b: Byte)
    ensures Xtime(XorByte(a, b)) == XorByte(Xtime(a), Xtime(b))
  {
  }

  /** (a + b) + (c + d) = (a + c) + (b + d) */
  lemma XorAssoc(a: Byte, b: Byte, c: Byte)
    ensures XorByte(a, XorByte(b, c)) == XorByte(XorByte(a, b), c)
  {
  }

  lemma XorCommutes(a: Byte, b: Byte)
    ensures XorByte(a, b) == XorByte(b, a)
  {
  }

  lemma XorFlip(a: Byte, b: Byte, c: Byte)
    ensures XorByte(XorByte(a, b), c) == XorByte(XorByte(a, c), b)
  {
    hide XorByte;
    XorAssoc(a, b, c);
    XorAssoc(a, c, b);
    XorCommutes(b, c);
  }

  lemma XorSwap(a: Byte, b: Byte, c: Byte, d: Byte)
    ensures XorByte(XorByte(a, b), XorByte(c, d)) == XorByte(XorByte(a, c), XorByte(b, d))
  {
  }

  lemma Linear(a: Byte, b: Byte)
    ensures Mul3(XorByte(a, b)) == XorByte(Mul3(a), Mul3(b))
    ensures Mul9(XorByte(a, b)) == XorByte(Mul9(a), Mul9(b))
    ensures MulB(XorByte(a, b)) == XorByte(MulB(a), MulB(b))
    ensures MulD(XorByte(a, b)) == XorByte(MulD(a), MulD(b))
    ensures MulE(XorByte(a, b)) == XorByte(MulE(a), MulE(b))
  {
    hide XorByte, Xtime;
    var a2, b2 := Xtime(a), Xtime(b);
    var a4, b4 := Xtime(a2), Xtime(b2);
    var a8, b8 := Xtime(a4), Xtime(b4);
    XtimeLinear(a, b);
    XtimeLinear(a2, b2);
    XtimeLinear(a4, b4);
    XorSwap(a2, b2, a, b);
    XorSwap(a8, b8, a, b);
    XorSwap(a8, b8, Mul3(a), Mul3(b));
    XorSwap(a8, b8, a4, b4);
    XorSwap(XorByte(a8, a4), XorByte(b8, b4), a, b);
    XorSwap(XorByte(a8, a4), XorByte(b8, b4), a2, b2);
  }

  lemma SumSwap(a: Byte, b: Byte, c: Byte, d: Byte, a': Byte, b': Byte, c': Byte, d': Byte)
    ensures Sum4(XorByte(a, a'), XorByte(b, b'), XorByte(c, c'), XorByte(d, d'))
         == XorByte(Sum4(a, b, c, d), Sum4(a', b', c', d'))
  {
    hide XorByte;
    XorSwap(a, a', b, b');
    XorSwap(XorByte(a, b), XorByte(a', b'), c, c');
    XorSwap(XorByte(XorByte(a, b), c), XorByte(XorByte(a', b'), c'), d, d');
  }

  lemma MixColLinear(x: Col, y: Col)
    ensures MixCol(XorCol(x, y)) == XorCol(MixCol(x), MixCol(y))
  {
    hide XorByte, Xtime, Mul3, Sum4;
    XtimeLinear(x.r0, y.r0);
    XtimeLinear(x.r1, y.r1);
    XtimeLinear(x.r2, y.r2);
    XtimeLinear(x.r3, y.r3);
    Linear(x.r0, y.r0);
    Linear(x.r1, y.r1);
    Linear(x.r2, y.r2);
    Linear(x.r3, y.r3);
    SumSwap(Xtime(x.r0), Mul3(x.r1), x.r2, x.r3, Xtime(y.r0), Mul3(y.r1), y.r2, y.r3);
    SumSwap(x.r0, Xtime(x.r1), Mul3(x.r2), x.r3, y.r0, Xtime(y.r1), Mul3(y.r2), y.r3);
    SumSwap(x.r0, x.r1, Xtime(x.r2), Mul3(x.r3), y.r0, y.r1, Xtime(y.r2), Mul3(y.r3));
    SumSwap(Mul3(x.r0), x.r1, x.r2, Xtime(x.r3), Mul3(y.r0), y.r1, y.r2, Xtime(y.r3));
  }

  lemma InvMixColLinear(x: Col, y: Col)
    ensures InvMixCol(XorCol(x, y)) == XorCol(InvMixCol(x), InvMixCol(y))
  {
    hide XorByte, Mul9, MulB, MulD, MulE, Sum4;
    Linear(x.r0, y.r0);
    Linear(x.r1, y.r1);
    Linear(x.r2, y.r2);
    Linear(x.r3, y.r3);
    SumSwap(MulE(x.r0), MulB(x.r1), MulD(x.r2), Mul9(x.r3), MulE(y.r0), MulB(y.r1), MulD(y.r2), Mul9(y.r3));
    SumSwap(Mul9(x.r0), MulE(x.r1), MulB(x.r2), MulD(x.r3), Mul9(y.r0), MulE(y.r1), MulB(y.r2), MulD(y.r3));
    SumSwap(MulD(x.r0), Mul9(x.r1), MulE(x.r2), MulB(x.r3), MulD(y.r0), Mul9(y.r1), MulE(y.r2), MulB(y.r3));
    SumSwap(MulB(x.r0), MulD(x.r1), Mul9(x.r2), MulE(x.r3), MulB(y.r0), MulD(y.r1), Mul9(y.r2), MulE(y.r3));
  }

  // The product of the two mixing matrices is the identity: four sums, up to rotation.
  // Below, a1, a2, a4, a8, a16 stand for a byte and its products with powers of x.

  lemma Sum0(a1: Byte, a2: Byte, a4: Byte, a8: Byte, a16: Byte)
    ensures Sum4(XorByte(XorByte(a16, a8), a4),
                 XorByte(a8, XorByte(a2, a1)),
                 XorByte(XorByte(a8, a4), a1),
                 XorByte(XorByte(a16, a2), XorByte(a8, a1))) == a1
  {
    hide XorByte;
    Sum0a(a1, a2, a4, a8, a16);
    Sum0b(a1, a2, a4, a8, a16);
    Sum0c(a1, a2, a4, a8, a16);
  }

  lemma Sum0a(a1: Byte, a2: Byte, a4: Byte, a8: Byte, a16: Byte)
    ensures XorByte(XorByte(XorByte(a16, a8), a4), XorByte(a8, XorByte(a2, a1)))
         == XorByte(XorByte(a16, a4), XorByte(a2, a1))
  {
    hide XorByte;
    XorSwap(XorByte(a16, a8), a4, a8, XorByte(a2, a1));
    XorByteTwice(a16, a8);
    XorAssoc(a16, a4, XorByte(a2, a1));
  }

  lemma Sum0b(a1: Byte, a2: Byte, a4: Byte, a8: Byte, a16: Byte)
    ensures XorByte(XorByte(XorByte(a16, a4), XorByte(a2, a1)), XorByte(XorByte(a8, a4), a1))
         == XorByte(XorByte(a16, a2), a8)
  {
    hide XorByte;
    XorSwap(XorByte(a16, a4), XorByte(a2, a1), XorByte(a8, a4), a1);
    XorByteTwice(a2, a1);
    XorSwap(a16, a4, a8, a4);
    ZeroIsNeutral(a4);
    ZeroIsNeutral(XorByte(a16, a8));
    XorFlip(a16, a8, a2);
  }

  lemma Sum0c(a1: Byte, a2: Byte, a4: Byte, a8: Byte, a16: Byte)
    ensures XorByte(XorByte(XorByte(a16, a2), a8),
                    XorByte(XorByte(a16, a2), XorByte(a8, a1))) == a1
  {
    hide XorByte;
    XorSwap(XorByte(a16, a2), a8, XorByte(a16, a2), XorByte(a8, a1));
    ZeroIsNeutral(XorByte(a16, a2));
    XorAssoc(a8, a8, a1);
    ZeroIsNeutral(a8);
    ZeroIsNeutral(a1);
  }

  lemma Product0(a: Byte)
    ensures Sum4(MulE(Xtime(a)), MulB(a), MulD(a), Mul9(Mul3(a))) == a
  {
    hide XorByte, Sum4, Xtime;
    var a2 := Xtime(a);
    var a4 := Xtime(a2);
    var a8 := Xtime(a4);
    Linear(a2, a);
    Sum0(a, a2, a4, a8, Xtime(a8));
  }

  lemma Sum1(a1: Byte, a2: Byte, a4: Byte, a8: Byte, a16: Byte)
    ensures Sum4(XorByte(a16, a2),
                 XorByte(XorByte(a8, a4), a2),
                 XorByte(a8, XorByte(a2, a1)),
                 XorByte(XorByte(XorByte(a16, a8), a2), XorByte(XorByte(a8, a4), a1))) == Byte(0)
  {
    hide XorByte;
    Sum1a(a1, a2, a4, a8, a16);
    Sum0a(a1, a2, a4, a8, a16);
    Sum1c(a1, a2, a4, a8, a16);
    ZeroIsNeutral(XorByte(XorByte(a16, a4), XorByte(a2, a1)));
  }

  lemma Sum1a(a1: Byte, a2: Byte, a4: Byte, a8: Byte, a16: Byte)
    ensures XorByte(XorByte(a16, a2), XorByte(XorByte(a8, a4), a2))
         == XorByte(XorByte(a16, a8), a4)
  {
    hide XorByte;
    XorSwap(a16, a2, XorByte(a8, a4), a2);
    ZeroIsNeutral(a2);
    ZeroIsNeutral(XorByte(a16, XorByte(a8, a4)));
    XorAssoc(a16, a8, a4);
  }

  lemma Sum1c(a1: Byte, a2: Byte, a4: Byte, a8: Byte, a16: Byte)
    ensures XorByte(XorByte(XorByte(a16, a8), a2), XorByte(XorByte(a8, a4), a1))
         == XorByte(XorByte(a16, a4), XorByte(a2, a1))
  {
    hide XorByte;
    XorSwap(XorByte(a16, a8), a2, XorByte(a8, a4), a1);
    XorAssoc(XorByte(a16, a8), a8, a4);
    XorByteTwice(a16, a8);
  }

  lemma Product1(a: Byte)
    ensures Sum4(Mul9(Xtime(a)), MulE(a), MulB(a), MulD(Mul3(a))) == Byte(0)
  {
    hide XorByte, Sum4, Xtime;
    var a2 := Xtime(a);
    var a4 := Xtime(a2);
    var a8 := Xtime(a4);
    Linear(a2, a);
    Sum1(a, a2, a4, a8, Xtime(a8));
  }

  lemma Sum2(a1: Byte, a2: Byte, a4: Byte, a8: Byte, a16: Byte)
    ensures Sum4(XorByte(XorByte(a16, a8), a2),
                 XorByte(a8, a1),
                 XorByte(XorByte(a8, a4), a2),
                 XorByte(XorByte(a16, XorByte(a4, a2)), XorByte(a8, XorByte(a2, a1)))) == Byte(0)
  {
    hide XorByte;
    Sum2a(a1, a2, a4, a8, a16);
    Sum2b(a1, a2, a4, a8, a16);
    Sum2c(a1, a2, a4, a8, a16);
    ZeroIsNeutral(XorByte(XorByte(a16, a8), XorByte(a4, a1)));
  }

  lemma Sum2a(a1: Byte, a2: Byte, a4: Byte, a8: Byte, a16: Byte)
    ensures XorByte(XorByte(XorByte(a16, a8), a2), XorByte(a8, a1))
         == XorByte(XorByte(a16, a2), a1)
  {
    hide XorByte;
    XorSwap(XorByte(a16, a8), a2, a8, a1);
    XorByteTwice(a16, a8);
    XorAssoc(a16, a2, a1);
  }

  lemma Sum2b(a1: Byte, a2: Byte, a4: Byte, a8: Byte, a16: Byte)
    ensures XorByte(XorByte(XorByte(a16, a2), a1), XorByte(XorByte(a8, a4), a2))
         == XorByte(XorByte(a16, a8), XorByte(a4, a1))
  {
    hide XorByte;
    XorFlip(a16, a2, a1);
    XorSwap(XorByte(a16, a1), a2, XorByte(a8, a4), a2);
    ZeroIsNeutral(a2);
    ZeroIsNeutral(XorByte(XorByte(a16, a1), XorByte(a8, a4)));
    XorSwap(a16, a1, a8, a4);
    XorCommutes(a1, a4);
  }

  lemma Sum2c(a1: Byte, a2: Byte, a4: Byte, a8: Byte, a16: Byte)
    ensures XorByte(XorByte(a16, XorByte(a4, a2)), XorByte(a8, XorByte(a2, a1)))
         == XorByte(XorByte(a16, a8), XorByte(a4, a1))
  {
    hide XorByte;
    XorSwap(a16, XorByte(a4, a2), a8, XorByte(a2, a1));
    XorAssoc(XorByte(a4, a2), a2, a1);
    XorByteTwice(a4, a2);
  }

  lemma Product2(a: Byte)
    ensures Sum4(MulD(Xtime(a)), Mul9(a), MulE(a), MulB(Mul3(a))) == Byte(0)
  {
    hide XorByte, Sum4, Xtime;
    var a2 := Xtime(a);
    var a4 := Xtime(a2);
    var a8 := Xtime(a4);
    Linear(a2, a);
    Sum2(a, a2, a4, a8, Xtime(a8));
  }

  lemma Sum3(a1: Byte, a2: Byte, a4: Byte, a8: Byte, a16: Byte)
    ensures Sum4(XorByte(a16, XorByte(a4, a2)),
                 XorByte(XorByte(a8, a4), a1),
                 XorByte(a8, a1),
                 XorByte(XorByte(XorByte(a16, a8), a4), XorByte(XorByte(a8, a4), a2))) == Byte(0)
  {
    hide XorByte;
    Sum3a(a1, a2, a4, a8, a16);
    Sum3b(a1, a2, a4, a8, a16);
    Sum3c(a1, a2, a4, a8, a16);
    ZeroIsNeutral(XorByte(a16, a2));
  }

  lemma Sum3a(a1: Byte, a2: Byte, a4: Byte, a8: Byte, a16: Byte)
    ensures XorByte(XorByte(a16, XorByte(a4, a2)), XorByte(XorByte(a8, a4), a1))
         == XorByte(XorByte(a16, a8), XorByte(a2, a1))
  {
    hide XorByte;
    XorSwap(a16, XorByte(a4, a2), XorByte(a8, a4), a1);
    XorAssoc(a16, a8, a4);
    XorAssoc(a4, a2, a1);
    XorAssoc(XorByte(XorByte(a16, a8), a4), a4, XorByte(a2, a1));
    XorByteTwice(XorByte(a16, a8), a4);
  }

  lemma Sum3b(a1: Byte, a2: Byte, a4: Byte, a8: Byte, a16: Byte)
    ensures XorByte(XorByte(XorByte(a16, a8), XorByte(a2, a1)), XorByte(a8, a1))
         == XorByte(a16, a2)
  {
    hide XorByte;
    XorSwap(XorByte(a16, a8), XorByte(a2, a1), a8, a1);
    XorByteTwice(a16, a8);
    XorByteTwice(a2, a1);
  }

  lemma Sum3c(a1: Byte, a2: Byte, a4: Byte, a8: Byte, a16: Byte)
    ensures XorByte(XorByte(XorByte(a16, a8), a4), XorByte(XorByte(a8, a4), a2))
         == XorByte(a16, a2)
  {
    hide XorByte;
    XorAssoc(XorByte(XorByte(a16, a8), a4), XorByte(a8, a4), a2);
    XorAssoc(a16, a8, a4);
    XorByteTwice(a16, XorByte(a8, a4));
  }

  lemma Product3(a: Byte)
    ensures Sum4(MulB(Xtime(a)), MulD(a), Mul9(a), MulE(Mul3(a))) == Byte(0)
  {
    hide XorByte, Sum4, Xtime;
    var a2 := Xtime(a);
    var a4 := Xtime(a2);
    var a8 := Xtime(a4);
    Linear(a2, a);
    Sum3(a, a2, a4, a8, Xtime(a8));
  }

  lemma Rotate(a: Byte, b: Byte, c: Byte, d: Byte)
    ensures Sum4(a, b, c, d) == Sum4(b, c, d, a)
  {
  }

  lemma Zeros(a: Byte)
    ensures var z := Byte(0);
            && Xtime(z) == z && Mul3(z) == z && XorByte(a, z) == a
            && Sum4(a, z, z, z) == a && Sum4(z, a, z, z) == a && Sum4(z, z, a, z) == a && Sum4(z, z, z, a) == a
  {
  }

  lemma Rotations(a: Byte, b: Byte, c: Byte, d: Byte)
    ensures Sum4(a, b, c, d) == Sum4(b, c, d, a) == Sum4(c, d, a, b) == Sum4(d, a, b, c)
  {
    hide Sum4;
    Rotate(a, b, c, d);
    Rotate(b, c, d, a);
    Rotate(c, d, a, b);
  }

  lemma Products(a: Byte)
    ensures var z := Byte(0);
            && InvMixCol(MixCol(Col(a, z, z, z))) == Col(a, z, z, z)
            && InvMixCol(MixCol(Col(z, a, z, z))) == Col(z, a, z, z)
            && InvMixCol(MixCol(Col(z, z, a, z))) == Col(z, z, a, z)
            && InvMixCol(MixCol(Col(z, z, z, a))) == Col(z, z, z, a)
  {
    hide XorByte, Xtime, Mul3, Mul9, MulB, MulD, MulE, Sum4;
    var a2, a3 := Xtime(a), Mul3(a);
    Zeros(a);
    Zeros(a2);
    Zeros(a3);
    Product0(a);
    Product1(a);
    Product2(a);
    Product3(a);
    Rotations(MulE(a2), MulB(a), MulD(a), Mul9(a3));
    Rotations(Mul9(a2), MulE(a), MulB(a), MulD(a3));
    Rotations(MulD(a2), Mul9(a), MulE(a), MulB(a3));
    Rotations(MulB(a2), MulD(a), Mul9(a), MulE(a3));
  }

  lemma ZeroIsNeutral(a: Byte)
    ensures XorByte(a, Byte(0)) == a == XorByte(Byte(0), a) && XorByte(a, a) == Byte(0)
  {
  }

  /** A column is the sum of four columns with one byte each. */
  lemma ByRows(c: Col)
    ensures var z := Byte(0);
            XorCol(XorCol(Col(c.r0, z, z, z), Col(z, c.r1, z, z)), XorCol(Col(z, z, c.r2, z), Col(z, z, z, c.r3))) == c
  {
    hide XorByte;
    ZeroIsNeutral(c.r0);
    ZeroIsNeutral(c.r1);
    ZeroIsNeutral(c.r2);
    ZeroIsNeutral(c.r3);
    ZeroIsNeutral(Byte(0));
  }

  lemma MixedSum(x: Col, y: Col)
    requires InvMixCol(MixCol(x)) == x && InvMixCol(MixCol(y)) == y
    ensures InvMixCol(MixCol(XorCol(x, y))) == XorCol(x, y)
  {
    hide MixCol, InvMixCol, XorCol;
    MixColLinear(x, y);
    InvMixColLinear(MixCol(x), MixCol(y));
  }

  /** InvMixColumns undoes MixColumns. */
  lemma UnmixCol(c: Col)
    ensures InvMixCol(MixCol(c)) == c
  {
    hide MixCol, InvMixCol, XorCol;
    var z := Byte(0);
    var c0, c1, c2, c3 := Col(c.r0, z, z, z), Col(z, c.r1, z, z), Col(z, z, c.r2, z), Col(z, z, z, c.r3);
    Products(c.r0);
    Products(c.r1);
    Products(c.r2);
    Products(c.r3);
    MixedSum(c0, c1);
    MixedSum(c2, c3);
    MixedSum(XorCol(c0, c1), XorCol(c2, c3));
    ByRows(c);
  }

  // ------------------------------------------------------------------- the inverse theorem

  lemma AddKeyTwice(s: Block, k: Block)
    ensures AddKey(AddKey(s, k), k) == s
  {
    hide XorByte;
    XorColTwice(s.c0, k.c0);
    XorColTwice(s.c1, k.c1);
    XorColTwice(s.c2, k.c2);
    XorColTwice(s.c3, k.c3);
  }

  lemma XorColTwice(s: Col, k: Col)
    ensures XorCol(XorCol(s, k), k) == s
  {
    hide XorByte;
    XorByteTwice(s.r0, k.r0);
    XorByteTwice(s.r1, k.r1);
    XorByteTwice(s.r2, k.r2);
    XorByteTwice(s.r3, k.r3);
  }

  /** Substitution and row shifts are undone together, in either order. */
  lemma Unshift(box: Box, s: Block)
    requires Inverses(box)
    ensures InvShiftRows(SubBytes(box.inv, ShiftRows(SubBytes(box.fwd, s)))) == s
  {
    hide XorByte;
  }

  /** Unmixing moves past the round key if the key is unmixed too. */
  lemma UnmixKeyed(s: Block, k: Block)
    ensures AddKey(InvMixColumns(AddKey(MixColumns(s), k)), InvMixColumns(k)) == s
  {
    hide MixCol, InvMixCol, XorCol;
    UnmixKeyedCol(s.c0, k.c0);
    UnmixKeyedCol(s.c1, k.c1);
    UnmixKeyedCol(s.c2, k.c2);
    UnmixKeyedCol(s.c3, k.c3);
  }

  lemma UnmixKeyedCol(c: Col, k: Col)
    ensures XorCol(InvMixCol(XorCol(MixCol(c), k)), InvMixCol(k)) == c
  {
    hide MixCol, InvMixCol, XorCol;
    InvMixColLinear(MixCol(c), k);
    UnmixCol(c);
    XorColTwice(c, InvMixCol(k));
  }

  /** After `r` rounds of decryption the state is that of encryption before the last
      `r + 1` keys were added, but for a substitution and a row shift. */
  lemma {:induction false} RoundsMeet(box: Box, keys: Schedule, b: Block, r: nat)
    requires Inverses(box) && |keys| >= 2 && r < |keys| - 1
    ensures InvRounds(box, InvSchedule(keys), Cipher(box, keys, b), r)
         == ShiftRows(SubBytes(box.fwd, Rounds(box, keys, b, |keys| - 2 - r)))
  {
    hide AddKey, MixColumns, InvMixColumns, ShiftRows, InvShiftRows, SubBytes, Inverses;
    var n := |keys| - 1;
    var d := InvSchedule(keys);
    if r == 0 {
      AddKeyTwice(ShiftRows(SubBytes(box.fwd, Rounds(box, keys, b, n - 1))), keys[n]);
    } else {
      RoundsMeet(box, keys, b, r - 1);
      var s := Rounds(box, keys, b, n - r);
      var before := ShiftRows(SubBytes(box.fwd, Rounds(box, keys, b, n - r - 1)));
      assert s == AddKey(MixColumns(before), keys[n - r]);
      Unshift(box, s);
      UnmixKeyed(before, keys[n - r]);
      assert d[r] == InvMixColumns(keys[n - r]);
    }
  }

  /** The equivalent inverse cipher with the decryption schedule undoes the cipher: for every
      block, every schedule and every invertible S-box. */
  lemma DecryptInvertsEncrypt(box: Box, keys: Schedule, b: Block)
    requires Inverses(box) && |keys| >= 2
    ensures InvCipher(box, InvSchedule(keys), Cipher(box, keys, b)) == b
  {
    hide AddKey, MixColumns, InvMixColumns, ShiftRows, InvShiftRows, SubBytes, Inverses, Cipher;
    var n := |keys| - 1;
    RoundsMeet(box, keys, b, n - 1);
    Unshift(box, Rounds(box, keys, b, 0));
    AddKeyTwice(b, keys[0]);
  }
}
