/** What the Shannon MAC of src/lib/shn.c can tell apart.

    A word of the message enters the stream register and the 32 parallel CRC-16 registers.  Both
    steps can be run backwards, so that no later word can hide an earlier difference from the
    register, and none within sixteen words can hide it from the CRC. */
module ShannonMac {
  import opened Words
  import opened Shannon

  // -------------------------------------------------------------------- running backwards

  lemma XorCancels(a: Word, b: Word, k: Word)
    ensures Xor(a, k) == Xor(b, k) ==> a == b
    ensures Xor(k, a) == Xor(k, b) ==> a == b
  {
  }

  lemma RotlInjective(a: Word, b: Word)
    ensures Rotl1(a) == Rotl1(b) ==> a == b
  {
  }

  /** The register and the stream word behind a cycle, word by word */
  lemma CycledAt(st: State)
    ensures var enters := Xor(Sbox1(Xor(Xor(st.r[12], st.r[13]), st.konst)), Rotl1(st.r[0]));
      var t := Sbox2(Xor(st.r[3], enters));
      && Cycled(st).r[0] == Xor(st.r[1], t) && Cycled(st).r[15] == enters
      && (forall i :: 1 <= i < 15 ==> Cycled(st).r[i] == st.r[i + 1])
      && Cycled(st).sbuf == Xor(Xor(t, st.r[9]), st.r[13])
      && Cycled(st).crc == st.crc && Cycled(st).konst == st.konst
  {
    hide Sbox1, Sbox2, Rotl1, Xor;
  }

  /** A cycle of the register can be run backwards. */
  lemma CycleInjective(a: State, b: State)
    requires a.konst == b.konst && Cycled(a).r == Cycled(b).r
    ensures a.r == b.r
  {
    CycledAt(a);
    CycledAt(b);
    hide Cycled, Sbox1, Sbox2, Xor, Rotl1;
    forall i | 2 <= i < 16
      ensures a.r[i] == b.r[i]
    {
      assert Cycled(a).r[i - 1] == a.r[i] && Cycled(b).r[i - 1] == b.r[i];
    }
    XorCancels(a.r[1], b.r[1], Sbox2(Xor(a.r[3], Cycled(a).r[15])));
    XorCancels(Rotl1(a.r[0]), Rotl1(b.r[0]), Sbox1(Xor(Xor(a.r[12], a.r[13]), a.konst)));
    RotlInjective(a.r[0], b.r[0]);
    assert forall i :: 0 <= i < 16 ==> a.r[i] == b.r[i];
  }

  lemma {:induction false} CyclesInjective(a: State, b: State, n: nat)
    requires a.konst == b.konst && CycledN(a, n).r == CycledN(b, n).r
    ensures a.r == b.r
  {
    hide Cycled;
    if n > 0 {
      KeepsSaved(a, n - 1);
      KeepsSaved(b, n - 1);
      CycleInjective(CycledN(a, n - 1), CycledN(b, n - 1));
      CyclesInjective(a, b, n - 1);
    }
  }

  /** The same word leads from different registers to different registers, and so for the CRC;
      different words lead from the same state to different registers and to different CRCs. */
  lemma WordInjective(a: State, b: State, v: Word, w: Word)
    ensures MacWord(a, w).r == MacWord(b, w).r ==> a.r == b.r
    ensures MacWord(a, w).crc == MacWord(b, w).crc ==> a.crc == b.crc
    ensures MacWord(a, v).r == MacWord(a, w).r ==> v == w
    ensures MacWord(a, v).crc == MacWord(a, w).crc ==> v == w
  {
    AddInjective(a, b, v, w);
    CrcInjective(a.crc, b.crc, w);
    CrcTells(a.crc, v, w);
    hide KeyAdded, CrcFeedback, Shifted;
  }

  lemma AddInjective(a: State, b: State, v: Word, w: Word)
    ensures KeyAdded(a, w).r == KeyAdded(b, w).r ==> a.r == b.r
    ensures KeyAdded(a, v).r == KeyAdded(a, w).r ==> v == w
    ensures KeyAdded(a, w).konst == a.konst && KeyAdded(a, w).crc == a.crc
  {
    var ra, rb := KeyAdded(a, w).r, KeyAdded(b, w).r;
    XorCancels(a.r[13], b.r[13], w);
    XorCancels(v, w, a.r[13]);
    hide Xor;
    assert ra[13] == Xor(a.r[13], w) && rb[13] == Xor(b.r[13], w) && KeyAdded(a, v).r[13] == Xor(a.r[13], v);
    assert forall i :: 0 <= i < 16 && i != 13 ==> ra[i] == a.r[i] && rb[i] == b.r[i];
    if ra == rb {
      assert forall i :: 0 <= i < 16 ==> a.r[i] == b.r[i];
    }
  }

  lemma CrcInjective(a: Register, b: Register, w: Word)
    ensures Shifted(a, CrcFeedback(a, w)) == Shifted(b, CrcFeedback(b, w)) ==> a == b
  {
    var ca, cb := Shifted(a, CrcFeedback(a, w)), Shifted(b, CrcFeedback(b, w));
    if ca == cb {
      hide Xor;
      forall i | 1 <= i < 16
        ensures a[i] == b[i]
      {
        assert ca[i - 1] == a[i] && cb[i - 1] == b[i];
      }
      assert ca[15] == CrcFeedback(a, w) && cb[15] == CrcFeedback(b, w);
      FeedbackCancels(a[0], b[0], a[2], a[15], w);
      assert forall i :: 0 <= i < 16 ==> a[i] == b[i];
    }
  }

  lemma FeedbackCancels(x: Word, y: Word, p: Word, q: Word, w: Word)
    ensures Xor(Xor(Xor(x, p), q), w) == Xor(Xor(Xor(y, p), q), w) ==> x == y
  {
    XorCancels(Xor(Xor(x, p), q), Xor(Xor(y, p), q), w);
    XorCancels(Xor(x, p), Xor(y, p), q);
    XorCancels(x, y, p);
    hide Xor;
  }

  lemma CrcTells(a: Register, v: Word, w: Word)
    ensures Shifted(a, CrcFeedback(a, v))[15] == Shifted(a, CrcFeedback(a, w))[15] ==> v == w
  {
    XorCancels(v, w, Xor(Xor(a[0], a[2]), a[15]));
    hide Xor;
  }

  // -------------------------------------------------------------------------- messages

  /** Two states at the same place of a word, with the same bytes of it taken in */
  predicate Level(a: State, b: State) {
    a.nbuf == b.nbuf && a.konst == b.konst && (a.nbuf != 0 ==> a.mbuf == b.mbuf)
  }

  lemma OpenedLevel(a: State, b: State)
    requires Ok(a) && Ok(b) && Level(a, b)
    ensures Level(Opened(a), Opened(b)) && Opened(a).nbuf != 0
    ensures Opened(a).r == Opened(b).r ==> a.r == b.r
    ensures Opened(a).crc == a.crc && Opened(b).crc == b.crc
  {
    CycledAt(a);
    CycledAt(b);
    hide Cycled;
    if Opened(a).r == Opened(b).r && a.nbuf == 0 {
      CycleInjective(a, b);
    }
  }

  /** The same byte leads from different registers to different registers, and so for the CRC. */
  lemma ByteInjective(a: State, b: State, p: Byte)
    requires Ok(a) && Ok(b) && Level(a, b)
    ensures Level(Absorb(a, p), Absorb(b, p))
    ensures Absorb(a, p).r == Absorb(b, p).r ==> a.r == b.r
    ensures Absorb(a, p).crc == Absorb(b, p).crc ==> a.crc == b.crc
  {
    OpenedLevel(a, b);
    var m := Xor(Opened(a).mbuf, AtLane(p, Lane(a)));
    WordInjective(Opened(a), Opened(b), m, m);
    AddInjective(Opened(a), Opened(b), m, m);
    hide Opened, KeyAdded, CrcFeedback, Shifted, Xor, AtLane;
  }

  /** What follows a difference does not undo it. */
  lemma {:induction false} RestInjective(a: State, b: State, rest: seq<Byte>)
    requires Ok(a) && Ok(b) && Level(a, b)
    ensures var x, y := Absorbed(a, rest), Absorbed(b, rest);
      Level(x, y) && (x.r == y.r ==> a.r == b.r) && (x.crc == y.crc ==> a.crc == b.crc)
  {
    hide Absorb, Level;
    if rest != [] {
      var front := rest[..|rest| - 1];
      RestInjective(a, b, front);
      ByteInjective(Absorbed(a, front), Absorbed(b, front), rest[|rest| - 1]);
    }
  }

  lemma PackInjective(p: seq<Byte>, q: seq<Byte>)
    requires |p| == |q| == 4
    ensures LittleEndian(p[0], p[1], p[2], p[3]) == LittleEndian(q[0], q[1], q[2], q[3]) ==> p == q
  {
    PackedBytes(p);
    PackedBytes(q);
    hide LittleEndian, LittleBytes;
  }

  /** A word at a word boundary: what it does, and that it can be told from another. */
  lemma WordTold(st: State, p: seq<Byte>, q: seq<Byte>)
    requires st.nbuf == 0 && |p| == |q| == 4
    ensures var x, y := Absorbed(st, p), Absorbed(st, q);
      && x.nbuf == y.nbuf == 0 && x.konst == y.konst == st.konst
      && (x.r == y.r ==> p == q) && (x.crc == y.crc ==> p == q)
  {
    hide Absorbed, MacWord, Cycled, LittleEndian;
    OneWord(st, p);
    OneWord(st, q);
    CycledAt(st);
    WordKeeps(Cycled(st), LittleEndian(p[0], p[1], p[2], p[3]));
    WordKeeps(Cycled(st), LittleEndian(q[0], q[1], q[2], q[3]));
    KeepsCount(st);
    WordInjective(Cycled(st), Cycled(st), LittleEndian(p[0], p[1], p[2], p[3]),
                  LittleEndian(q[0], q[1], q[2], q[3]));
    PackInjective(p, q);
  }

  lemma KeepsCount(st: State)
    ensures Cycled(st).nbuf == st.nbuf
  {
  }

  lemma WordKeeps(st: State, w: Word)
    ensures MacWord(st, w).nbuf == st.nbuf && MacWord(st, w).konst == st.konst
    ensures MacWord(st, w).crc[15] == CrcFeedback(st.crc, w)
    ensures forall i :: 0 <= i < 15 ==> MacWord(st, w).crc[i] == st.crc[i + 1]
  {
    hide CrcFeedback;
  }

  /** Two messages that differ in one word leave different registers and different CRCs,
      whatever is in front and whatever follows. */
  lemma OneWordTold(st: State, front: seq<Byte>, p: seq<Byte>, q: seq<Byte>, rest: seq<Byte>)
    requires Ok(st) && Absorbed(st, front).nbuf == 0 && |p| == |q| == 4 && p != q
    ensures var x, y := Absorbed(st, front + p + rest), Absorbed(st, front + q + rest);
      Level(x, y) && x.r != y.r && x.crc != y.crc
  {
    var s := Absorbed(st, front);
    hide Absorbed, Encrypted;
    ChunksAgree(st, front, p);
    ChunksAgree(st, front, q);
    ChunksAgree(st, front + p, rest);
    ChunksAgree(st, front + q, rest);
    WordTold(s, p, q);
    RestInjective(Absorbed(s, p), Absorbed(s, q), rest);
  }

  // --------------------------------------------------------------- differences close together

  /** Whole words leave the place of the word alone and move the CRC on, word by word. */
  lemma {:induction false} CrcSlides(a: State, p: seq<Byte>)
    requires a.nbuf == 0 && |p| % 4 == 0
    ensures var x := Absorbed(a, p);
      x.nbuf == 0 && x.konst == a.konst
      && forall i :: 0 <= i < 16 - |p| / 4 ==> x.crc[i] == a.crc[i + |p| / 4]
    decreases |p|
  {
    hide Absorbed, CrcFeedback, LittleEndian;
    if p != [] {
      var front, last := p[..|p| - 4], p[|p| - 4..];
      CrcSlides(a, front);
      assert p == front + last;
      LastWord(a, front, last);
    } else {
      EmptyMessage(a, p);
    }
  }

  lemma LastWord(a: State, front: seq<Byte>, last: seq<Byte>)
    requires Ok(a) && Absorbed(a, front).nbuf == 0 && |last| == 4
    ensures var s, x := Absorbed(a, front), Absorbed(a, front + last);
      x.nbuf == 0 && x.konst == s.konst && forall i :: 0 <= i < 15 ==> x.crc[i] == s.crc[i + 1]
  {
    hide Absorbed, Encrypted, CrcFeedback, LittleEndian;
    ChunksAgree(a, front, last);
    WordEnters(Absorbed(a, front), last);
  }

  /** The CRC after one word */
  predicate Entered(crc: Register, x: Register, v: seq<Byte>)
    requires |v| == 4
  {
    && x[15] == CrcFeedback(crc, LittleEndian(v[0], v[1], v[2], v[3]))
    && forall i :: 0 <= i < 15 ==> x[i] == crc[i + 1]
  }

  /** The first words of two messages that leave the same CRC */
  lemma FirstWord(a: State, b: State, v: seq<Byte>, w: seq<Byte>, p: seq<Byte>, q: seq<Byte>, k: nat)
    requires a.nbuf == 0 == b.nbuf && a.crc == b.crc
    requires |v| == |w| == 4 && |p| == |q| == 4 * k && k < 16
    requires Absorbed(a, v + p).crc == Absorbed(b, w + q).crc
    ensures v == w
    ensures var x, y := Absorbed(a, v), Absorbed(b, w);
      x.nbuf == 0 == y.nbuf && x.crc == y.crc && Absorbed(x, p).crc == Absorbed(y, q).crc
  {
    hide Absorbed, Entered;
    WordFirst(a, v, p, k);
    WordFirst(b, w, q, k);
    SameEntry(a.crc, Absorbed(a, v).crc, Absorbed(b, w).crc, v, w);
  }

  lemma SameEntry(crc: Register, x: Register, y: Register, v: seq<Byte>, w: seq<Byte>)
    requires |v| == |w| == 4 && x[15] == y[15] && Entered(crc, x, v) && Entered(crc, y, w)
    ensures v == w && x == y
  {
    hide CrcFeedback, LittleEndian;
    FeedbackTells(crc, LittleEndian(v[0], v[1], v[2], v[3]), LittleEndian(w[0], w[1], w[2], w[3]));
    PackInjective(v, w);
    assert forall i :: 0 <= i < 16 ==> x[i] == y[i];
  }

  /** The first word of a short message, which its CRC still shows */
  lemma WordFirst(a: State, v: seq<Byte>, p: seq<Byte>, k: nat)
    requires a.nbuf == 0 && |v| == 4 && |p| == 4 * k && k < 16
    ensures var x := Absorbed(a, v);
      && x.nbuf == 0 && Entered(a.crc, x.crc, v) && Absorbed(a, v + p) == Absorbed(x, p)
      && Absorbed(a, v + p).crc[15 - k] == x.crc[15]
  {
    hide Absorbed, Encrypted, CrcFeedback, LittleEndian;
    ChunksAgree(a, v, p);
    WordEnters(a, v);
    CrcSlides(Absorbed(a, v), p);
    assert |p| / 4 == k;
  }

  lemma FeedbackTells(a: Register, v: Word, w: Word)
    ensures CrcFeedback(a, v) == CrcFeedback(a, w) ==> v == w
  {
    XorCancels(v, w, Xor(Xor(a[0], a[2]), a[15]));
    hide Xor;
  }

  lemma WordEnters(a: State, v: seq<Byte>)
    requires a.nbuf == 0 && |v| == 4
    ensures var x := Absorbed(a, v); x.nbuf == 0 && x.konst == a.konst && Entered(a.crc, x.crc, v)
  {
    hide Absorbed, Encrypted, MacWord, Cycled, LittleEndian, CrcFeedback;
    OneWord(a, v);
    CycledAt(a);
    KeepsCount(a);
    WordKeeps(Cycled(a), LittleEndian(v[0], v[1], v[2], v[3]));
  }

  /** From the same CRC, up to sixteen words that leave the same CRC are the same words. */
  lemma {:induction false} BurstTold(a: State, b: State, p: seq<Byte>, q: seq<Byte>)
    requires a.nbuf == 0 == b.nbuf && a.crc == b.crc && |p| == |q| <= 64 && |p| % 4 == 0
    requires Absorbed(a, p).crc == Absorbed(b, q).crc
    ensures p == q
    decreases |p|
  {
    hide Absorbed;
    if p != [] {
      assert p == p[..4] + p[4..] && q == q[..4] + q[4..];
      FirstWord(a, b, p[..4], q[..4], p[4..], q[4..], |p| / 4 - 1);
      BurstTold(Absorbed(a, p[..4]), Absorbed(b, q[..4]), p[4..], q[4..]);
    }
  }

  // ------------------------------------------------------------------------------ the end

  lemma XorSeqCancels(a: Register, b: Register, c: Register)
    ensures XorSeq(a, c) == XorSeq(b, c) ==> a == b
  {
    if XorSeq(a, c) == XorSeq(b, c) {
      forall i | 0 <= i < 16
        ensures a[i] == b[i]
      {
        assert XorSeq(a, c)[i] == XorSeq(b, c)[i];
        XorCancels(a[i], b[i], c[i]);
      }
    }
  }

  /** The state with a word that was begun taken in */
  function Rounded(st: State): State {
    if st.nbuf != 0 then MacWord(st, st.mbuf) else st
  }

  lemma ClosedIs(st: State)
    ensures var marked := KeyAdded(Cycled(Rounded(st)), Xor(INITKONST, LengthWord(st.nbuf * 8)));
      && Closed(st).crc == Rounded(st).crc && Closed(st).konst == st.konst
      && Closed(st).r == CycledN(marked.(nbuf := 0, r := XorSeq(marked.r, Rounded(st).crc)), N).r
  {
    hide CycledN, Feedback, Sbox2, Xor, Shifted, XorSeq, CrcFeedback, LengthWord;
    var marked := KeyAdded(Cycled(Rounded(st)), Xor(INITKONST, LengthWord(st.nbuf * 8))).(nbuf := 0);
    var c := marked.(r := XorSeq(marked.r, marked.crc));
    CyclesSame(c, c, N);
    KeepsSaved(c, N);
    assert Closed(st) == CycledN(c, N);
  }

  /** Finishing a message hides no difference: states that differ are closed to states that
      differ. */
  lemma ClosedInjective(a: State, b: State)
    requires Ok(a) && Ok(b) && Level(a, b)
    ensures Closed(a).crc == Closed(b).crc ==> a.crc == b.crc
    ensures Closed(a).crc == Closed(b).crc && Closed(a).r == Closed(b).r ==> a.r == b.r
  {
    ClosedIs(a);
    ClosedIs(b);
    hide Closed;
    RoundedInjective(a, b);
    if Closed(a).crc == Closed(b).crc && Closed(a).r == Closed(b).r {
      var x, y, mark := Cycled(Rounded(a)), Cycled(Rounded(b)), Xor(INITKONST, LengthWord(a.nbuf * 8));
      CycledAt(Rounded(a));
      CycledAt(Rounded(b));
      hide Rounded, Cycled, Xor, LengthWord, KeyAdded, XorSeq, CycledN;
      AddInjective(x, y, mark, mark);
      AddInjective(y, x, mark, mark);
      var s, t := KeyAdded(x, mark), KeyAdded(y, mark);
      CyclesInjective(s.(nbuf := 0, r := XorSeq(s.r, Rounded(a).crc)),
                      t.(nbuf := 0, r := XorSeq(t.r, Rounded(b).crc)), N);
      XorSeqCancels(s.r, t.r, Rounded(a).crc);
      CycleInjective(Rounded(a), Rounded(b));
    }
  }

  lemma RoundedInjective(a: State, b: State)
    requires Level(a, b)
    ensures Rounded(a).konst == a.konst && Rounded(b).konst == b.konst
    ensures Rounded(a).r == Rounded(b).r ==> a.r == b.r
    ensures Rounded(a).crc == Rounded(b).crc ==> a.crc == b.crc
  {
    WordInjective(a, b, a.mbuf, a.mbuf);
    WordKeeps(a, a.mbuf);
    WordKeeps(b, b.mbuf);
    hide MacWord;
  }

  function Zeros(n: nat): seq<Byte> {
    seq(n, i => Byte(0))
  }

  lemma NoXor(m: Word, lane: nat)
    requires lane < 4
    ensures Xor(m, AtLane(Byte(0), lane)) == m
  {
  }

  /** A word that was begun is finished as if zeros followed. */
  lemma {:induction false} ZerosFill(st: State)
    requires Ok(st) && st.nbuf != 0
    ensures Absorbed(st, Zeros(st.nbuf / 8)).crc == Rounded(st).crc
    decreases st.nbuf
  {
    hide Absorb, Rounded, Absorbed, Encrypted;
    var x := Absorb(st, Byte(0));
    var rest := Zeros(st.nbuf / 8 - 1);
    ZeroTaken(st);
    assert Zeros(st.nbuf / 8) == [Byte(0)] + rest;
    ChunksAgree(st, [Byte(0)], rest);
    OneByte(st, Byte(0));
    hide Zeros;
    if st.nbuf > 8 {
      ZerosFill(x);
      SameRounded(st, x);
    } else {
      EmptyMessage(x, rest);
    }
  }

  lemma ZeroTaken(st: State)
    requires Ok(st) && st.nbuf != 0
    ensures if st.nbuf == 8 then Absorb(st, Byte(0)).crc == Rounded(st).crc
            else Absorb(st, Byte(0)) == st.(nbuf := st.nbuf - 8)
  {
    NoXor(st.mbuf, Lane(st));
    hide Xor, AtLane, CrcFeedback, Shifted;
  }

  lemma SameRounded(a: State, b: State)
    requires a.nbuf != 0 && b == a.(nbuf := b.nbuf) && b.nbuf != 0
    ensures Rounded(a).crc == Rounded(b).crc
  {
    hide Xor, CrcFeedback, Shifted;
  }

  lemma OneByte(st: State, p: Byte)
    requires Ok(st)
    ensures Absorbed(st, [p]) == Absorb(st, p)
  {
    hide Absorb;
    assert [p][..0] == [];
    EmptyMessage(st, [p][..0]);
  }

  /** A message that ends within a word is finished as if zeros followed. */
  lemma ZeroPadded(st: State, p: seq<Byte>)
    requires Ok(st)
    ensures var x := Absorbed(st, p);
      Closed(x).crc == Absorbed(st, p + Zeros(if x.nbuf == 0 then 0 else x.nbuf / 8)).crc
  {
    var x := Absorbed(st, p);
    hide Absorbed, Encrypted, Closed, Zeros;
    ClosedIs(x);
    if x.nbuf != 0 {
      ZerosFill(x);
      ChunksAgree(st, p, Zeros(x.nbuf / 8));
    } else {
      NoZeros();
      assert p + [] == p;
    }
  }

  lemma NoZeros()
    ensures Zeros(0) == []
  {
  }

  lemma PlaceNext(a: State, p: Byte)
    requires Ok(a)
    ensures Absorb(a, p).nbuf == if a.nbuf == 0 then 24 else a.nbuf - 8
  {
    hide Xor, AtLane, CrcFeedback, Shifted;
  }

  /** Different stretches of up to sixteen words from the same state */
  lemma StretchTold(s: State, p: seq<Byte>, q: seq<Byte>)
    requires s.nbuf == 0 && |p| == |q| <= 64 && |p| % 4 == 0 && p != q
    ensures Level(Absorbed(s, p), Absorbed(s, q)) && Absorbed(s, p).crc != Absorbed(s, q).crc
  {
    hide Absorbed;
    CrcSlides(s, p);
    CrcSlides(s, q);
    if Absorbed(s, p).crc == Absorbed(s, q).crc {
      BurstTold(s, s, p, q);
    }
  }

  lemma InThree(st: State, front: seq<Byte>, p: seq<Byte>, rest: seq<Byte>)
    requires Ok(st)
    ensures Absorbed(st, front + p + rest) == Absorbed(Absorbed(Absorbed(st, front), p), rest)
  {
    hide Absorbed, Encrypted;
    ChunksAgree(st, front, p);
    ChunksAgree(st, front + p, rest);
  }

  /** Two messages of one length that differ within sixteen words, at most, are closed with
      different CRCs, whatever is in front and whatever follows. */
  lemma BurstSeen(st: State, front: seq<Byte>, p: seq<Byte>, q: seq<Byte>, rest: seq<Byte>)
    requires Ok(st) && Absorbed(st, front).nbuf == 0 && |p| == |q| <= 64 && |p| % 4 == 0 && p != q
    ensures Closed(Absorbed(st, front + p + rest)).crc != Closed(Absorbed(st, front + q + rest)).crc
  {
    hide Absorbed, Closed, Level;
    var s := Absorbed(st, front);
    InThree(st, front, p, rest);
    InThree(st, front, q, rest);
    StretchTold(s, p, q);
    RestInjective(Absorbed(s, p), Absorbed(s, q), rest);
    ClosedInjective(Absorbed(Absorbed(s, p), rest), Absorbed(Absorbed(s, q), rest));
  }

  /** And so are those that differ within sixteen words at the end, the last of which may be
      cut short. */
  lemma EndSeen(st: State, front: seq<Byte>, p: seq<Byte>, q: seq<Byte>)
    requires Ok(st) && Absorbed(st, front).nbuf == 0 && |p| == |q| <= 64 && p != q
    ensures Closed(Absorbed(st, front + p)).crc != Closed(Absorbed(st, front + q)).crc
  {
    hide Absorbed, Encrypted, Closed;
    var s := Absorbed(st, front);
    ChunksAgree(st, front, p);
    ChunksAgree(st, front, q);
    CutShort(s, p, q, FillUp(|p|), |p| + FillUp(|p|));
  }

  /** How many bytes are missing to a whole word */
  function FillUp(k: nat): (n: nat)
    ensures (k + n) % 4 == 0 && n < 4 && (k <= 64 ==> k + n <= 64)
  {
    if k % 4 == 0 then 0 else 4 - k % 4
  }

  lemma CutShort(s: State, p: seq<Byte>, q: seq<Byte>, n: nat, k: nat)
    requires s.nbuf == 0 && |p| == |q| && p != q && n == FillUp(|p|) && k == |p| + n <= 64 && k % 4 == 0
    ensures Closed(Absorbed(s, p)).crc != Closed(Absorbed(s, q)).crc
  {
    hide Absorbed, Closed, Zeros, FillUp;
    ZeroEnd(s, p, n);
    ZeroEnd(s, q, n);
    ZerosLength(n);
    StillDifferent(p, q, Zeros(n));
    WholeWords(s, p + Zeros(n), q + Zeros(n), k);
  }

  lemma WholeWords(s: State, p: seq<Byte>, q: seq<Byte>, k: nat)
    requires s.nbuf == 0 && |p| == |q| == k <= 64 && k % 4 == 0 && p != q
    ensures Absorbed(s, p).crc != Absorbed(s, q).crc
  {
    hide Absorbed;
    StretchTold(s, p, q);
  }

  lemma StillDifferent(p: seq<Byte>, q: seq<Byte>, z: seq<Byte>)
    requires |p| == |q| && p != q
    ensures p + z != q + z
  {
    assert (p + z)[..|p|] == p && (q + z)[..|q|] == q;
  }

  lemma ZeroEnd(s: State, p: seq<Byte>, n: nat)
    requires s.nbuf == 0 && n == FillUp(|p|)
    ensures Closed(Absorbed(s, p)).crc == Absorbed(s, p + Zeros(n)).crc
  {
    hide Absorbed, Closed, Zeros;
    PlaceOf(s, p);
    ZeroPadded(s, p);
  }

  lemma ZerosLength(n: nat)
    ensures |Zeros(n)| == n
  {
  }

  /** How much of a word is open behind a message that began at a word */
  lemma {:induction false} PlaceOf(s: State, p: seq<Byte>)
    requires s.nbuf == 0
    ensures Absorbed(s, p).nbuf == if |p| % 4 == 0 then 0 else 32 - 8 * (|p| % 4)
  {
    hide Absorb;
    if p != [] {
      PlaceOf(s, p[..|p| - 1]);
      PlaceNext(Absorbed(s, p[..|p| - 1]), p[|p| - 1]);
    }
  }

  // ---------------------------------------------------------------------- keys and nonces

  /** The first word of key material, or all of it when it is shorter */
  function FirstKeyWord(key: seq<Byte>): Word
    requires key != []
  {
    if |key| >= 4 then LittleEndian(key[0], key[1], key[2], key[3]) else Padded(key)
  }

  function KeyRest(key: seq<Byte>): seq<Byte> {
    if |key| >= 4 then key[4..] else []
  }

  lemma FoldedFirst(st: State, key: seq<Byte>)
    requires key != []
    ensures Folded(st, key) == Folded(Cycled(KeyAdded(st, FirstKeyWord(key))), KeyRest(key))
  {
    hide Cycled, KeyAdded, LittleEndian, Padded;
  }

  lemma KeyWordInjective(key: seq<Byte>, other: seq<Byte>)
    requires key != [] && |key| == |other| && FirstKeyWord(key) == FirstKeyWord(other)
    requires KeyRest(key) == KeyRest(other)
    ensures key == other
  {
    hide LittleEndian;
    if |key| >= 4 {
      assert key == key[..4] + key[4..] && other == other[..4] + other[4..];
      PackInjective(key[..4], other[..4]);
    } else {
      var p, q := seq(4, i requires 0 <= i => OrZero(key, i)), seq(4, i requires 0 <= i => OrZero(other, i));
      PackInjective(p, q);
      assert forall i :: 0 <= i < |key| ==> key[i] == p[i] && other[i] == q[i];
    }
  }

  /** A word that enters the register, one cycle later */
  lemma KeyEnters(st: State, k: Word)
    ensures var x := Cycled(KeyAdded(st, k));
      && x.konst == st.konst && x.r[12] == Xor(st.r[13], k)
      && forall i :: 1 <= i < 12 ==> x.r[i] == st.r[i + 1]
  {
    CycledAt(KeyAdded(st, k));
    hide Cycled, Xor;
  }

  /** The number of words that key material makes */
  function KeyWords(key: seq<Byte>): nat
    decreases |key|
  {
    if key == [] then 0 else 1 + KeyWords(KeyRest(key))
  }

  lemma {:induction false} KeyWordsSame(key: seq<Byte>, other: seq<Byte>)
    requires |key| == |other|
    ensures KeyWords(key) == KeyWords(other) && 4 * KeyWords(key) < |key| + 4
    decreases |key|
  {
    if key != [] {
      KeyWordsSame(KeyRest(key), KeyRest(other));
    }
  }

  /** Key material moves the lower words of the register down. */
  lemma {:induction false} KeySlides(st: State, key: seq<Byte>, i: nat)
    requires 1 <= i && i + KeyWords(key) <= 12
    ensures Folded(st, key).konst == st.konst && Folded(st, key).r[i] == st.r[i + KeyWords(key)]
    decreases |key|
  {
    if key != [] {
      FoldedFirst(st, key);
      KeyEnters(st, FirstKeyWord(key));
      hide Folded, Cycled, KeyAdded, FirstKeyWord;
      KeySlides(Cycled(KeyAdded(st, FirstKeyWord(key))), KeyRest(key), i);
    }
  }

  /** The first word of key material can be seen in the register in the end. */
  lemma FirstKeySeen(a: State, key: seq<Byte>, n: nat)
    requires key != [] && n == KeyWords(KeyRest(key)) && n < 12
    ensures Folded(a, key).r[12 - n] == Xor(a.r[13], FirstKeyWord(key))
  {
    FoldedFirst(a, key);
    KeyEnters(a, FirstKeyWord(key));
    hide Folded, Cycled, KeyAdded, FirstKeyWord, Xor, KeyWords;
    KeySlides(Cycled(KeyAdded(a, FirstKeyWord(key))), KeyRest(key), 12 - n);
  }

  lemma FirstKeyTold(a: State, b: State, key: seq<Byte>, other: seq<Byte>)
    requires SameRegister(a, b) && key != [] && |key| == |other| <= 48 && Folded(a, key).r == Folded(b, other).r
    ensures FirstKeyWord(key) == FirstKeyWord(other)
  {
    KeyWordsSame(KeyRest(key), KeyRest(other));
    hide Folded, FirstKeyWord, Xor, KeyWords;
    var n := KeyWords(KeyRest(key));
    FirstKeySeen(a, key, n);
    FirstKeySeen(b, other, n);
    XorCancels(FirstKeyWord(key), FirstKeyWord(other), a.r[13]);
  }

  /** Up to twelve words of key material can be told from each other in the register. */
  lemma {:induction false} KeyTold(a: State, b: State, key: seq<Byte>, other: seq<Byte>)
    requires SameRegister(a, b) && |key| == |other| <= 48 && Folded(a, key).r == Folded(b, other).r
    ensures key == other
    decreases |key|
  {
    if key != [] {
      FirstKeyTold(a, b, key, other);
      hide FirstKeyWord, SameRegister, KeyAdded, Cycled;
      FoldedFirst(a, key);
      FoldedFirst(b, other);
      var v := FirstKeyWord(key);
      SameAdded(a, b, v);
      hide Folded;
      KeyTold(Cycled(KeyAdded(a, v)), Cycled(KeyAdded(b, v)), KeyRest(key), KeyRest(other));
      KeyWordInjective(key, other);
    }
  }

  lemma SameAdded(a: State, b: State, k: Word)
    requires SameRegister(a, b)
    ensures SameRegister(Cycled(KeyAdded(a, k)), Cycled(KeyAdded(b, k)))
  {
    hide Feedback, Sbox2, Xor;
  }

  /** Different keys or nonces of one length, of up to twelve words, are told apart by the copy
      of the register that loading leaves in the CRC. */
  lemma LoadedTold(st: State, key: seq<Byte>, other: seq<Byte>)
    requires |key| == |other| <= 48 && key != other
    ensures Loaded(st, key).crc != Loaded(st, other).crc
  {
    LoadedCrc(st, key);
    LoadedCrc(st, other);
    hide Loaded, Folded;
    var w := LengthWord(|key|);
    var a, b := Folded(st, key), Folded(st, other);
    FoldedKeepsSaved(st, key);
    FoldedKeepsSaved(st, other);
    if Loaded(st, key).crc == Loaded(st, other).crc {
      AddInjective(a, b, w, w);
      AddInjective(b, a, w, w);
      CycleInjective(KeyAdded(a, w), KeyAdded(b, w));
      KeyTold(st, st, key, other);
    }
  }

  lemma LoadedCrc(st: State, key: seq<Byte>)
    ensures Loaded(st, key).crc == Cycled(KeyAdded(Folded(st, key), LengthWord(|key|))).r
  {
    hide Folded, LengthWord, Xor, XorSeq, Feedback, Shifted, Sbox2;
    var keyed := Cycled(KeyAdded(Folded(st, key), LengthWord(|key|)));
    var c := keyed.(crc := keyed.r);
    CyclesSame(c, c, N);
  }

  /** Streams under different nonces start from different states. */
  lemma NonceTold(initR: Register, nonce: seq<Byte>, other: seq<Byte>)
    requires |nonce| == |other| <= 48 && nonce != other
    ensures Start(initR, nonce) != Start(initR, other)
  {
    hide Loaded;
    LoadedTold(Fresh(initR), nonce, other);
  }

  // ------------------------------------------------------------------------- the numbers

  /** The s-boxes, on words with one and with two bits */
  lemma SboxValues()
    ensures Sbox1(Word(1)) == Word(0x2D4800A1) && Sbox1(Word(5)) == Word(0xBD6802A5)
    ensures Sbox2(Word(1)) == Word(0x0C4812A1) && Sbox2(Word(0x8001)) == Word(0x0D589685)
  {
  }

  /** A word of the message enters the register at place 13, and the CRC at its end. */
  lemma MacWordAt(st: State, w: Word)
    ensures var x := MacWord(st, w);
      && x.r == st.r[13 := Xor(st.r[13], w)]
      && x.crc[15] == Xor(Xor(Xor(st.crc[0], st.crc[2]), st.crc[15]), w)
      && forall i :: 0 <= i < 15 ==> x.crc[i] == st.crc[i + 1]
  {
    hide Xor;
  }

  /** A tag of four bytes is the stream word behind the end of the message. */
  lemma TagIs(st: State)
    ensures Tag(st, 4) == LittleBytes(Cycled(Closed(st)).sbuf)
  {
    hide Closed, Cycled, LittleBytes;
    assert Stream(Cycled(Closed(st)), 0) == [];
  }

  /** Key material is folded in word by word, its length behind it; the register is kept, cycled
      sixteen times, and what was kept is put on top. */
  lemma LoadedIs(st: State, key: seq<Byte>)
    requires |key| < 0x1_0000_0000
    ensures var folded := Folded(st, key);
      var keyed := Cycled(folded.(r := folded.r[13 := Xor(folded.r[13], Word(|key| as bv32))]));
      && Loaded(st, key).crc == keyed.r
      && forall i :: 0 <= i < 16 ==> Loaded(st, key).r[i] == Xor(CycledN(keyed, 16).r[i], keyed.r[i])
  {
    hide CycledN, Cycled, Folded, Xor;
    assert LengthWord(|key|) == Word(|key| as bv32);
    hide LengthWord;
    var keyed := Cycled(KeyAdded(Folded(st, key), LengthWord(|key|)));
    CyclesSame(keyed.(crc := keyed.r), keyed, 16);
    KeepsSaved(keyed.(crc := keyed.r), 16);
  }

  /** Generation starts at a word boundary, from the loaded register, whose first word is the
      constant from there on. */
  lemma StartIs(initR: Register, nonce: seq<Byte>)
    ensures var s := Start(initR, nonce);
      && s.r == Loaded(Fresh(initR), nonce).r && s.crc == Loaded(Fresh(initR), nonce).crc
      && s.konst == s.r[0] && s.initR == initR && s.nbuf == 0
    ensures Fresh(initR).r == initR && Fresh(initR).konst == Word(0x6996C53A)
  {
    hide Loaded;
  }

  /** What a fresh context begins with */
  lemma Beginning()
    ensures seq(16, i requires 0 <= i => Fibonacci(i))
         == [Word(1), Word(1), Word(2), Word(3), Word(5), Word(8), Word(13), Word(21), Word(34), Word(55), Word(89),
             Word(144), Word(233), Word(377), Word(610), Word(987)]
    ensures forall r :: Fresh(r).konst == Word(0x6996C53A)
  {
    assert Fibonacci(2) == Word(2) && Fibonacci(3) == Word(3) && Fibonacci(4) == Word(5) && Fibonacci(5) == Word(8);
    assert Fibonacci(6) == Word(13) && Fibonacci(7) == Word(21) && Fibonacci(8) == Word(34);
    assert Fibonacci(9) == Word(55) && Fibonacci(10) == Word(89) && Fibonacci(11) == Word(144);
    assert Fibonacci(12) == Word(233) && Fibonacci(13) == Word(377) && Fibonacci(14) == Word(610);
    assert Fibonacci(15) == Word(987);
  }
}
