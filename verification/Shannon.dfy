/** The Shannon stream cipher and MAC of src/lib/shn.c.

    `Shn` is the C context: three 16-word registers, the stream word `sbuf`, the partial
    MAC word `mbuf` and the number `nbuf` of stream bits still buffered.  Its methods work
    word by word on the caller's buffer, with a head and a tail of single bytes.

    They are proved against a machine that takes one byte at a time (`Absorb`).  That
    machine has no head, body and tail, so how a message is cut into calls cannot matter. */
module Shannon {
  import opened Words

  const N := 16
  const INITKONST := Word(0x6996c53a)
  const KEYP := 13

  type Register = s: seq<Word> | |s| == N witness seq(N, _ => Word(0))

  datatype State = State(r: Register, crc: Register, initR: Register,
                         konst: Word, sbuf: Word, mbuf: Word, nbuf: nat)

  // ---------------------------------------------------------------- nonlinear feedback

  function Sbox1(w: Word): Word {
    var v := w.bits ^ (((w.bits << 5) | (w.bits >> 27)) | ((w.bits << 7) | (w.bits >> 25)));
    Word(v ^ (((v << 19) | (v >> 13)) | ((v << 22) | (v >> 10))))
  }

  function Sbox2(w: Word): Word {
    var v := w.bits ^ (((w.bits << 7) | (w.bits >> 25)) | ((w.bits << 22) | (w.bits >> 10)));
    Word(v ^ (((v << 5) | (v >> 27)) | ((v << 19) | (v >> 13))))
  }

  function Rotl1(w: Word): Word {
    Word((w.bits << 1) | (w.bits >> 31))
  }

  function Feedback(r: Register, konst: Word): Word {
    Xor(Sbox1(Xor(Xor(r[12], r[13]), konst)), Rotl1(r[0]))
  }

  /** The register one position on, with the word that enters at the end. */
  function Shifted(r: Register, last: Word): Register {
    r[1..] + [last]
  }

  /** One step of the register; leaves the next stream word in `sbuf`. */
  function Cycled(st: State): State {
    var r := Shifted(st.r, Feedback(st.r, st.konst));
    var t := Sbox2(Xor(r[2], r[15]));
    st.(r := r[0 := Xor(r[0], t)], sbuf := Xor(Xor(t, r[8]), r[12]))
  }

  function CycledN(st: State, n: nat): State {
    if n == 0 then st else Cycled(CycledN(st, n - 1))
  }

  function CrcFeedback(crc: Register, w: Word): Word {
    Xor(Xor(Xor(crc[0], crc[2]), crc[15]), w)
  }

  /** Add key, nonce or counter material to the register. */
  function KeyAdded(st: State, k: Word): State {
    st.(r := st.r[KEYP := Xor(st.r[KEYP], k)])
  }

  /** Accumulate one plaintext word: into the CRC and into the stream register. */
  function MacWord(st: State, w: Word): State {
    KeyAdded(st, w).(crc := Shifted(st.crc, CrcFeedback(st.crc, w)))
  }

  // ---------------------------------------------------------- the byte-at-a-time machine

  predicate Ok(st: State) {
    st.nbuf == 0 || st.nbuf == 8 || st.nbuf == 16 || st.nbuf == 24 || st.nbuf == 32
  }

  /** The position within the current word that the next byte takes. */
  function Lane(st: State): (lane: nat)
    requires Ok(st)
    ensures lane < 4
  {
    if st.nbuf == 0 then 0 else (32 - st.nbuf) / 8
  }

  /** At a word boundary the register moves on and an empty MAC word is opened. */
  function Opened(st: State): State {
    if st.nbuf == 0 then Cycled(st).(mbuf := Word(0), nbuf := 32) else st
  }

  /** The stream byte that encrypts the next byte. */
  function StreamByte(st: State): Byte
    requires Ok(st)
  {
    ByteOf(Opened(st).sbuf, Lane(st))
  }

  /** Take in one plaintext byte; a completed word goes to the MAC at once. */
  function Absorb(st: State, p: Byte): (st': State)
    requires Ok(st)
    ensures Ok(st')
  {
    var o := Opened(st);
    var m := Xor(o.mbuf, AtLane(p, Lane(st)));
    if o.nbuf == 8 then MacWord(o, m).(mbuf := Word(0), nbuf := 0)
    else o.(mbuf := m, nbuf := o.nbuf - 8)
  }

  function Absorbed(st: State, plain: seq<Byte>): (st': State)
    requires Ok(st)
    ensures Ok(st')
  {
    if plain == [] then st else Absorb(Absorbed(st, plain[..|plain| - 1]), plain[|plain| - 1])
  }

  function Encrypted(st: State, plain: seq<Byte>): (cipher: seq<Byte>)
    requires Ok(st)
    ensures |cipher| == |plain|
  {
    if plain == [] then [] else
      var front := plain[..|plain| - 1];
      Encrypted(st, front) + [XorByte(plain[|plain| - 1], StreamByte(Absorbed(st, front)))]
  }

  function Decrypted(st: State, cipher: seq<Byte>): (plain: seq<Byte>)
    requires Ok(st)
    ensures |plain| == |cipher|
  {
    if cipher == [] then [] else
      var front := Decrypted(st, cipher[..|cipher| - 1]);
      front + [XorByte(cipher[|cipher| - 1], StreamByte(Absorbed(st, front)))]
  }

  // ------------------------------------------------------------------ chunk independence

  /** Cutting a message anywhere leaves the same state and the same cipher text. */
  lemma {:induction false} ChunksAgree(st: State, a: seq<Byte>, b: seq<Byte>)
    requires Ok(st)
    ensures Absorbed(st, a + b) == Absorbed(Absorbed(st, a), b)
    ensures Encrypted(st, a + b) == Encrypted(st, a) + Encrypted(Absorbed(st, a), b)
  {
    hide Absorb, StreamByte, XorByte;
    if b == [] {
      assert a + b == a;
    } else {
      var front := b[..|b| - 1];
      assert (a + b)[..|a + b| - 1] == a + front;
      ChunksAgree(st, a, front);
    }
  }

  lemma DecryptOneMore(st: State, cipher: seq<Byte>, c: Byte)
    requires Ok(st)
    ensures var plain := Decrypted(st, cipher);
            Decrypted(st, cipher + [c]) == plain + [XorByte(c, StreamByte(Absorbed(st, plain)))]
  {
    hide Absorbed, StreamByte, XorByte;
    assert (cipher + [c])[..|cipher + [c]| - 1] == cipher;
  }

  /** The same for decryption: the second call continues from the state that the
      plaintext recovered by the first call leaves behind. */
  lemma {:induction false} DecryptChunksAgree(st: State, a: seq<Byte>, b: seq<Byte>)
    requires Ok(st)
    ensures Decrypted(st, a + b)
         == Decrypted(st, a) + Decrypted(Absorbed(st, Decrypted(st, a)), b)
  {
    hide Absorbed, Encrypted, Decrypted, StreamByte, XorByte;
    var pa := Decrypted(st, a);
    var next := Absorbed(st, pa);
    if b == [] {
      assert a + b == a;
    } else {
      var front, last := b[..|b| - 1], b[|b| - 1];
      var pf := Decrypted(next, front);
      assert b == front + [last] && a + b == (a + front) + [last];
      DecryptChunksAgree(st, a, front);
      DecryptOneMore(st, a + front, last);
      DecryptOneMore(next, front, last);
      ChunksAgree(st, pa, pf);
    }
  }

  /** Decryption from the sender's state gives back the plaintext, and so the receiver's
      register and MAC follow the sender's. */
  lemma {:induction false} DecryptInvertsEncrypt(st: State, plain: seq<Byte>)
    requires Ok(st)
    ensures Decrypted(st, Encrypted(st, plain)) == plain
  {
    hide Absorb, StreamByte, XorByte;
    if plain != [] {
      var front := plain[..|plain| - 1];
      var cipher := Encrypted(st, plain);
      assert cipher[..|cipher| - 1] == Encrypted(st, front);
      DecryptInvertsEncrypt(st, front);
      XorByteTwice(plain[|plain| - 1], StreamByte(Absorbed(st, front)));
    }
  }

  /** And conversely, whatever bytes arrive, encrypting what was recovered gives them back. */
  lemma {:induction false} EncryptInvertsDecrypt(st: State, cipher: seq<Byte>)
    requires Ok(st)
    ensures Encrypted(st, Decrypted(st, cipher)) == cipher
  {
    hide Absorb, StreamByte, XorByte;
    if cipher != [] {
      var front := cipher[..|cipher| - 1];
      var plain := Decrypted(st, cipher);
      assert plain[..|plain| - 1] == Decrypted(st, front);
      EncryptInvertsDecrypt(st, front);
      XorByteTwice(cipher[|cipher| - 1], StreamByte(Absorbed(st, plain[..|plain| - 1])));
    }
  }

  // ----------------------------------------------------------- words against single bytes

  /** What is left to do once the last byte of a word has been fed in. */
  function Settled(st: State): State {
    if st.nbuf == 0 then MacWord(st, st.mbuf).(mbuf := Word(0)) else st
  }

  /** A byte fed into the word that is being filled. */
  function Fed(st: State, p: Byte): State
    requires Ok(st) && st.nbuf != 0
  {
    st.(mbuf := Xor(st.mbuf, AtLane(p, Lane(st))), nbuf := st.nbuf - 8)
  }

  lemma FeedOneMore(st: State, ps: seq<Byte>, m: nat)
    requires Ok(st) && m < |ps|
    ensures var s := Absorbed(st, ps[..m]);
            && (s.nbuf != 0 ==> Settled(Fed(s, ps[m])) == Absorbed(st, ps[..m + 1]))
            && Absorbed(st, ps[..m + 1]) == Absorb(s, ps[m])
            && Encrypted(st, ps[..m + 1])
            == Encrypted(st, ps[..m]) + [XorByte(ps[m], StreamByte(s))]
  {
    hide Shifted, CrcFeedback, Xor, XorByte, AtLane, StreamByte;
    assert ps[..m + 1][..m] == ps[..m];
  }

  lemma OneWord(st: State, ps: seq<Byte>)
    requires st.nbuf == 0 && |ps| == 4
    ensures var w := LittleEndian(ps[0], ps[1], ps[2], ps[3]);
            && Absorbed(st, ps) == MacWord(Cycled(st), w).(mbuf := Word(0))
            && Encrypted(st, ps) == LittleBytes(Xor(w, Cycled(st).sbuf))
  {
    hide Feedback, Shifted, Sbox2, CrcFeedback, Xor, XorByte, AtLane, ByteOf, LittleBytes, LittleEndian;
    hide Absorbed, Encrypted;
    PackedByXor(ps[0], ps[1], ps[2], ps[3]);
    var o := Cycled(st).(mbuf := Word(0), nbuf := 32);
    assert Absorbed(st, ps[..0]) == st && Encrypted(st, ps[..0]) == [] by { EmptyMessage(st, ps[..0]); }
    FeedOneMore(st, ps, 0);
    FeedOneMore(st, ps, 1);
    FeedOneMore(st, ps, 2);
    FeedOneMore(st, ps, 3);
    assert ps[..4] == ps;
    XorPacked(ps[0], ps[1], ps[2], ps[3], o.sbuf);
  }

  lemma StreamWithinWord(st: State)
    requires Ok(st) && st.nbuf != 0
    ensures StreamByte(st) == ByteOf(st.sbuf, Lane(st))
  {
  }

  lemma CipherByte(st: State, plain: seq<Byte>, m: nat)
    requires Ok(st) && m < |plain|
    ensures Encrypted(st, plain)[m] == XorByte(plain[m], StreamByte(Absorbed(st, plain[..m])))
  {
    hide Absorbed, StreamByte, XorByte;
    FeedOneMore(st, plain, m);
    CipherStretch(st, plain, 0, m + 1);
    EmptyMessage(st, plain[..0]);
    assert plain[0..m + 1] == plain[..m + 1];
    assert Encrypted(st, plain)[0..m + 1][m] == Encrypted(st, plain)[m];
  }

  lemma PackedBytes(ps: seq<Byte>)
    requires |ps| == 4
    ensures LittleBytes(LittleEndian(ps[0], ps[1], ps[2], ps[3])) == ps
  {
    hide LittleEndian, Byte0, Byte1, Byte2, Byte3;
    Unpack(ps[0], ps[1], ps[2], ps[3]);
  }

  lemma PackedBack(w: Word, ps: seq<Byte>)
    requires ps == LittleBytes(w)
    ensures LittleEndian(ps[0], ps[1], ps[2], ps[3]) == w
  {
    hide LittleEndian, Byte0, Byte1, Byte2, Byte3;
    Repack(w);
  }

  lemma EmptyMessage(st: State, ps: seq<Byte>)
    requires Ok(st) && ps == []
    ensures Absorbed(st, ps) == st && Encrypted(st, ps) == [] && Decrypted(st, ps) == []
  {
  }

  lemma OpenedAgrees(st: State, ps: seq<Byte>)
    requires st.nbuf == 0 && ps != []
    ensures Absorbed(Opened(st), ps) == Absorbed(st, ps)
    ensures Encrypted(Opened(st), ps) == Encrypted(st, ps)
  {
    hide MacWord, Cycled, Xor, XorByte, AtLane, ByteOf;
    if |ps| > 1 {
      OpenedAgrees(st, ps[..|ps| - 1]);
    } else {
      assert ps == [ps[0]] && ps[..0] == [];
    }
  }

  /** The buffer `was` once the first `i` bytes of `plain` from `start` on are encrypted. */
  function PartDone(st: State, was: seq<Byte>, start: nat, plain: seq<Byte>, i: nat): (s: seq<Byte>)
    requires Ok(st) && i <= |plain| && start + |plain| <= |was|
    ensures |s| == |was|
  {
    Patched(was, start, Encrypted(st, plain[..i]))
  }

  lemma NothingDone(st: State, was: seq<Byte>, start: nat, plain: seq<Byte>)
    requires Ok(st) && start + |plain| <= |was|
    ensures Absorbed(st, plain[..0]) == st && PartDone(st, was, start, plain, 0) == was
  {
    EmptyMessage(st, plain[..0]);
    PatchNothing(was, start);
  }

  lemma AllDone(st: State, was: seq<Byte>, start: nat, plain: seq<Byte>)
    requires Ok(st) && start + |plain| <= |was|
    ensures PartDone(st, was, start, plain, |plain|) == Patched(was, start, Encrypted(st, plain))
  {
    assert plain[..|plain|] == plain;
  }

  lemma StillPlain(st: State, was: seq<Byte>, start: nat, plain: seq<Byte>, i: nat, j: nat)
    requires Ok(st) && i <= j <= |plain| && start + |plain| <= |was|
    requires plain == was[start..start + |plain|]
    ensures PartDone(st, was, start, plain, i)[start + i..start + j] == plain[i..j]
  {
    hide Encrypted, Patched;
    PatchLeaves(was, start, Encrypted(st, plain[..i]), plain, i, j);
  }

  lemma EncryptOnwards(st: State, was: seq<Byte>, start: nat, a: seq<Byte>, b: seq<Byte>, next: nat)
    requires Ok(st) && next == start + |a| && next + |b| <= |was|
    ensures Patched(was, start, Encrypted(st, a + b))
         == Patched(Patched(was, start, Encrypted(st, a)), next, Encrypted(Absorbed(st, a), b))
  {
    hide Absorbed, Encrypted, Patched;
    ChunksAgree(st, a, b);
    PatchMore(was, start, Encrypted(st, a), Encrypted(Absorbed(st, a), b));
  }

  lemma NextPiece(st: State, was: seq<Byte>, start: nat, plain: seq<Byte>, i: nat, j: nat)
    requires Ok(st) && i <= j <= |plain| && start + |plain| <= |was|
    ensures PartDone(st, was, start, plain, j)
         == Patched(PartDone(st, was, start, plain, i), start + i,
                    Encrypted(Absorbed(st, plain[..i]), plain[i..j]))
  {
    hide Absorbed, Encrypted, Patched;
    assert plain[..j] == plain[..i] + plain[i..j];
    EncryptOnwards(st, was, start, plain[..i], plain[i..j], start + i);
  }

  lemma NextState(st: State, plain: seq<Byte>, i: nat, j: nat)
    requires Ok(st) && i <= j <= |plain|
    ensures Absorbed(st, plain[..j]) == Absorbed(Absorbed(st, plain[..i]), plain[i..j])
  {
    hide Absorbed, Encrypted;
    assert plain[..j] == plain[..i] + plain[i..j];
    ChunksAgree(st, plain[..i], plain[i..j]);
  }

  /** Going on from byte `i` to byte `j` of a buffer that was plain to begin with. */
  lemma Onwards(st: State, was: seq<Byte>, start: nat, plain: seq<Byte>, i: nat, j: nat)
    requires Ok(st) && i <= j <= |plain| && start + |plain| <= |was|
    requires plain == was[start..start + |plain|]
    ensures var done := PartDone(st, was, start, plain, i);
            && done[start + i..start + j] == plain[i..j]
            && Absorbed(st, plain[..j]) == Absorbed(Absorbed(st, plain[..i]), plain[i..j])
            && PartDone(st, was, start, plain, j)
            == Patched(done, start + i, Encrypted(Absorbed(st, plain[..i]), plain[i..j]))
  {
    hide Absorbed, Encrypted, Patched, PartDone;
    StillPlain(st, was, start, plain, i, j);
    NextPiece(st, was, start, plain, i, j);
    NextState(st, plain, i, j);
  }

  /** The cipher text of `plain` has, from `i` to `j`, what encrypting that stretch gives. */
  lemma CipherStretch(st: State, plain: seq<Byte>, i: nat, j: nat)
    requires Ok(st) && i <= j <= |plain|
    ensures Encrypted(st, plain)[i..j] == Encrypted(Absorbed(st, plain[..i]), plain[i..j])
  {
    hide Absorbed, Encrypted;
    var a, b, c := plain[..i], plain[i..j], plain[j..];
    var s := Absorbed(st, a);
    assert plain == a + (b + c);
    ChunksAgree(st, a, b + c);
    ChunksAgree(s, b, c);
    var ea, eb, ec := Encrypted(st, a), Encrypted(s, b), Encrypted(Absorbed(s, b), c);
    assert (ea + (eb + ec))[i..j] == eb;
  }

  lemma StillCipher(st: State, was: seq<Byte>, start: nat, plain: seq<Byte>, i: nat, j: nat)
    requires Ok(st) && i <= j <= |plain| && start + |plain| <= |was|
    requires Encrypted(st, plain) == was[start..start + |plain|]
    ensures Patched(was, start, plain[..i])[start + i..start + j]
         == Encrypted(Absorbed(st, plain[..i]), plain[i..j])
  {
    hide Absorbed, Encrypted, Patched;
    PatchLeaves(was, start, plain[..i], Encrypted(st, plain), i, j);
    CipherStretch(st, plain, i, j);
  }

  lemma PatchNext(was: seq<Byte>, start: nat, plain: seq<Byte>, i: nat, j: nat)
    requires i <= j <= |plain| && start + |plain| <= |was|
    ensures Patched(was, start, plain[..j]) == Patched(Patched(was, start, plain[..i]), start + i, plain[i..j])
  {
    hide Patched;
    assert plain[..j] == plain[..i] + plain[i..j];
    PatchMore(was, start, plain[..i], plain[i..j]);
  }

  /** Going on from byte `i` to byte `j` of a buffer that held cipher text to begin with. */
  lemma BackOnwards(st: State, was: seq<Byte>, start: nat, plain: seq<Byte>, i: nat, j: nat)
    requires Ok(st) && i <= j <= |plain| && start + |plain| <= |was|
    requires Encrypted(st, plain) == was[start..start + |plain|]
    ensures var done := Patched(was, start, plain[..i]);
            && done[start + i..start + j] == Encrypted(Absorbed(st, plain[..i]), plain[i..j])
            && Absorbed(st, plain[..j]) == Absorbed(Absorbed(st, plain[..i]), plain[i..j])
            && Patched(was, start, plain[..j]) == Patched(done, start + i, plain[i..j])
  {
    hide Absorbed, Encrypted, Patched;
    StillCipher(st, was, start, plain, i, j);
    NextState(st, plain, i, j);
    PatchNext(was, start, plain, i, j);
  }

  // ------------------------------------------------------------ keys, nonces and the tag

  /** A short last piece of key material, zero padded to a word. */
  function Padded(xtra: seq<Byte>): Word
    requires |xtra| < 4
  {
    LittleEndian(OrZero(xtra, 0), OrZero(xtra, 1), OrZero(xtra, 2), OrZero(xtra, 3))
  }

  function OrZero(s: seq<Byte>, i: nat): Byte {
    if i < |s| then s[i] else Byte(0)
  }

  /** Fold key material into the register, a word at a time. */
  function Folded(st: State, key: seq<Byte>): State
    decreases |key|
  {
    if |key| >= 4 then
      Folded(Cycled(KeyAdded(st, LittleEndian(key[0], key[1], key[2], key[3]))), key[4..])
    else if |key| > 0 then Cycled(KeyAdded(st, Padded(key)))
    else st
  }

  /** The key length as the C word that is folded in after the key. */
  function LengthWord(n: nat): Word {
    Word((n % 0x1_0000_0000) as bv32)
  }

  function Loaded(st: State, key: seq<Byte>): State {
    var keyed := Cycled(KeyAdded(Folded(st, key), LengthWord(|key|)));
    var diffused := CycledN(keyed.(crc := keyed.r), N);
    diffused.(r := XorSeq(diffused.r, diffused.crc))
  }

  function Add(a: Word, b: Word): Word {
    Word(a.bits + b.bits)
  }

  /** Word `i` of the initial register: the Fibonacci numbers. */
  function Fibonacci(i: nat): Word {
    if i < 2 then Word(1) else Add(Fibonacci(i - 1), Fibonacci(i - 2))
  }

  /** The register that a key leaves saved. */
  function KeyRegister(key: seq<Byte>): Register {
    Loaded(Fresh(seq(N, i requires 0 <= i => Fibonacci(i))), key).r
  }

  /** A context that holds nothing but a register. */
  function Fresh(r: Register): State {
    State(r, r, r, INITKONST, Word(0), Word(0), 0)
  }

  /** The state that stream generation starts from, for a saved register and a nonce. */
  function Start(initR: Register, nonce: seq<Byte>): (st: State)
    ensures Ok(st)
  {
    var l := Loaded(Fresh(initR), nonce);
    l.(konst := l.r[0], initR := initR, mbuf := Word(0), nbuf := 0)
  }

  ghost predicate SameRegister(a: State, b: State) {
    a.r == b.r && a.konst == b.konst
  }

  lemma {:induction false} CyclesSame(a: State, b: State, n: nat)
    requires SameRegister(a, b)
    ensures var a', b' := CycledN(a, n), CycledN(b, n);
            && SameRegister(a', b') && (n > 0 ==> a'.sbuf == b'.sbuf) && a'.crc == a.crc && b'.crc == b.crc
  {
    hide Feedback, Shifted, Sbox2, Xor;
    if n > 0 {
      CyclesSame(a, b, n - 1);
    }
  }

  lemma {:induction false} FoldedSame(a: State, b: State, key: seq<Byte>)
    requires SameRegister(a, b)
    ensures SameRegister(Folded(a, key), Folded(b, key))
    decreases |key|
  {
    hide Feedback, Shifted, Sbox2, Xor, LittleEndian, Padded;
    if |key| >= 4 {
      var w := LittleEndian(key[0], key[1], key[2], key[3]);
      FoldedSame(Cycled(KeyAdded(a, w)), Cycled(KeyAdded(b, w)), key[4..]);
    }
  }

  /** Loading overwrites the CRC and the stream word: only the register counts. */
  lemma LoadedSame(a: State, b: State, key: seq<Byte>)
    requires SameRegister(a, b)
    ensures var la, lb := Loaded(a, key), Loaded(b, key);
            && SameRegister(la, lb) && la.crc == lb.crc && la.sbuf == lb.sbuf
  {
    hide Folded, LengthWord, Xor, XorSeq, Feedback, Shifted, Sbox2;
    FoldedSame(a, b, key);
    var w := LengthWord(|key|);
    var ka, kb := Cycled(KeyAdded(Folded(a, key), w)), Cycled(KeyAdded(Folded(b, key), w));
    CyclesSame(ka.(crc := ka.r), kb.(crc := kb.r), N);
  }

  lemma {:induction false} KeepsSaved(st: State, n: nat)
    ensures CycledN(st, n).initR == st.initR && CycledN(st, n).konst == st.konst
  {
    if n > 0 {
      KeepsSaved(st, n - 1);
    }
  }

  lemma {:induction false} FoldedKeepsSaved(st: State, key: seq<Byte>)
    ensures Folded(st, key).initR == st.initR && Folded(st, key).konst == st.konst
    decreases |key|
  {
    hide Feedback, Shifted, Sbox2, Xor, LittleEndian, Padded;
    if |key| >= 4 {
      FoldedKeepsSaved(Cycled(KeyAdded(st, LittleEndian(key[0], key[1], key[2], key[3]))), key[4..]);
    }
  }

  lemma LoadedKeepsSaved(st: State, key: seq<Byte>)
    ensures Loaded(st, key).initR == st.initR && Loaded(st, key).konst == st.konst
  {
    hide Folded, LengthWord, Xor, XorSeq, Feedback, Shifted, Sbox2;
    FoldedKeepsSaved(st, key);
    var keyed := Cycled(KeyAdded(Folded(st, key), LengthWord(|key|)));
    KeepsSaved(keyed.(crc := keyed.r), N);
  }

  /** A nonce wipes history: what follows depends on the saved register and the nonce
      alone, not on anything encrypted, decrypted or finished before. */
  lemma NonceForgets(st: State, nonce: seq<Byte>)
    ensures var l := Loaded(st.(r := st.initR, konst := INITKONST), nonce);
            l.(konst := l.r[0], mbuf := Word(0), nbuf := 0) == Start(st.initR, nonce)
  {
    hide Loaded;
    var s := st.(r := st.initR, konst := INITKONST);
    LoadedSame(s, Fresh(st.initR), nonce);
    LoadedKeepsSaved(s, nonce);
  }

  /** Mark the end of the input and diffuse the CRC into the register. */
  function Closed(st: State): State {
    var m := if st.nbuf != 0 then MacWord(st, st.mbuf) else st;
    var marked := KeyAdded(Cycled(m), Xor(INITKONST, LengthWord(st.nbuf * 8))).(nbuf := 0);
    CycledN(marked.(r := XorSeq(marked.r, marked.crc)), N)
  }

  /** The first `n` bytes of key stream, whole words as long as they last. */
  function Stream(st: State, n: nat): (tag: seq<Byte>)
    ensures |tag| == n
    decreases n
  {
    if n == 0 then [] else
      var c := Cycled(st);
      if n >= 4 then LittleBytes(c.sbuf) + Stream(c, n - 4) else LittleBytes(c.sbuf)[..n]
  }

  /** The MAC of `n` bytes. */
  function Tag(st: State, n: nat): (tag: seq<Byte>)
    ensures |tag| == n
  {
    Stream(Closed(st), n)
  }

  /** Sender, receiver and an observer that only accumulates the plaintext agree on the
      tag, however each of them cut the message into two calls. */
  lemma TagsAgree(st: State, a: seq<Byte>, b: seq<Byte>, n: nat)
    requires Ok(st)
    ensures var plain := a + b;
            var cipher := Encrypted(st, a) + Encrypted(Absorbed(st, a), b);
            var recovered := Decrypted(st, cipher);
            && recovered == plain
            && Tag(Absorbed(st, recovered), n) == Tag(Absorbed(Absorbed(st, a), b), n)
            && Tag(Absorbed(st, plain), n) == Tag(Absorbed(Absorbed(st, a), b), n)
  {
    hide Absorbed, Encrypted, Decrypted, Tag;
    ChunksAgree(st, a, b);
    DecryptInvertsEncrypt(st, a + b);
  }

  lemma {:induction false} MbufRides(st: State, m: Word, n: nat)
    ensures CycledN(st.(mbuf := m), n) == CycledN(st, n).(mbuf := m)
    ensures CycledN(st, n).nbuf == st.nbuf
  {
    hide Feedback, Shifted, Sbox2, Xor;
    if n > 0 {
      MbufRides(st, m, n - 1);
    }
  }

  lemma {:induction false} StreamSame(a: State, b: State, n: nat)
    requires SameRegister(a, b)
    ensures Stream(a, n) == Stream(b, n)
    decreases n
  {
    hide Feedback, Shifted, Sbox2, Xor, LittleBytes;
    if n >= 4 {
      StreamSame(Cycled(a), Cycled(b), n - 4);
    }
  }

  // ------------------------------------------------------------------------- the context

  method ReadWord(buf: array<Byte>, at: nat) returns (w: Word)
    requires at + 4 <= buf.Length
    ensures var s := buf[at..at + 4]; w == LittleEndian(s[0], s[1], s[2], s[3])
  {
    w := LittleEndian(buf[at], buf[at + 1], buf[at + 2], buf[at + 3]);
  }

  method WriteWord(w: Word, buf: array<Byte>, at: nat)
    requires at + 4 <= buf.Length
    modifies buf
    ensures buf[..] == Patched(old(buf[..]), at, LittleBytes(w))
  {
    hide ByteOf;
    buf[at + 3] := ByteOf(w, 3);
    buf[at + 2] := ByteOf(w, 2);
    buf[at + 1] := ByteOf(w, 1);
    buf[at] := ByteOf(w, 0);
  }

  method WritePart(w: Word, buf: array<Byte>, at: nat, n: nat)
    requires n < 4 && at + n <= buf.Length
    modifies buf
    ensures buf[..] == Patched(old(buf[..]), at, LittleBytes(w)[..n])
  {
    hide ByteOf;
    for i := 0 to n
      invariant buf[..] == Patched(old(buf[..]), at, LittleBytes(w)[..i])
    {
      PatchOneMore(old(buf[..]), at, LittleBytes(w)[..i], ByteOf(w, i));
      assert LittleBytes(w)[..i + 1] == LittleBytes(w)[..i] + [ByteOf(w, i)];
      buf[at + i] := ByteOf(w, i);
    }
  }

  class Shn {
    const R: array<Word>
    const CRC: array<Word>
    const initR: array<Word>
    var konst: Word
    var sbuf: Word
    var mbuf: Word
    var nbuf: nat

    ghost predicate Shape()
      reads this
    {
      && R.Length == N && CRC.Length == N && initR.Length == N
      && R != CRC && R != initR && CRC != initR
      && (nbuf == 0 || nbuf == 8 || nbuf == 16 || nbuf == 24 || nbuf == 32)
    }

    ghost predicate Valid()
      reads this
    {
      Shape() && nbuf != 32
    }

    /** Every field of the context. */
    ghost function Raw(): (st: State)
      reads this, R, CRC, initR
      requires Shape()
      ensures Ok(st)
    {
      State(R[..], CRC[..], initR[..], konst, sbuf, mbuf, nbuf)
    }

    /** What the context stands for: `mbuf` is dead at a word boundary. */
    ghost function Abs(): (st: State)
      reads this, R, CRC, initR
      requires Shape()
      ensures Ok(st)
    {
      if nbuf == 0 then Raw().(mbuf := Word(0)) else Raw()
    }

    constructor ()
      ensures Valid() && fresh(R) && fresh(CRC) && fresh(initR)
    {
      R, CRC, initR := new Word[N], new Word[N], new Word[N];
      konst, sbuf, mbuf, nbuf := Word(0), Word(0), Word(0), 0;
    }

    method Cycle()
      requires Shape()
      modifies this`sbuf, R
      ensures Shape() && Raw() == Cycled(old(Raw()))
    {
      hide Sbox1, Sbox2, Rotl1, Xor;
      ghost var r := R[..];
      var t := Xor(Xor(R[12], R[13]), konst);
      t := Xor(Sbox1(t), Rotl1(R[0]));
      for i := 1 to N
        invariant forall k :: 0 <= k < i - 1 ==> R[k] == old(R[k + 1])
        invariant forall k :: i - 1 <= k < N ==> R[k] == old(R[k])
      {
        R[i - 1] := R[i];
      }
      R[N - 1] := t;
      ghost var shifted := R[..];
      assert shifted == Shifted(r, Feedback(r, konst));
      t := Sbox2(Xor(R[2], R[15]));
      R[0] := Xor(R[0], t);
      assert R[..] == shifted[0 := Xor(shifted[0], t)];
      sbuf := Xor(Xor(t, R[8]), R[12]);
    }

    method CrcFunc(w: Word)
      requires Shape()
      modifies CRC
      ensures CRC[..] == Shifted(old(CRC[..]), CrcFeedback(old(CRC[..]), w))
    {
      hide Xor;
      var t := Xor(Xor(Xor(CRC[0], CRC[2]), CRC[15]), w);
      for j := 1 to N
        invariant forall k :: 0 <= k < j - 1 ==> CRC[k] == old(CRC[k + 1])
        invariant forall k :: j - 1 <= k < N ==> CRC[k] == old(CRC[k])
      {
        CRC[j - 1] := CRC[j];
      }
      CRC[N - 1] := t;
    }

    method MacFunc(w: Word)
      requires Shape()
      modifies R, CRC
      ensures Raw() == MacWord(old(Raw()), w)
    {
      hide Xor;
      CrcFunc(w);
      R[KEYP] := Xor(R[KEYP], w);
      assert R[..] == old(R[..])[KEYP := Xor(old(R[KEYP]), w)];
    }

    /** The loops over the bytes of a word that is not complete. */
    method EncryptBytes(buf: array<Byte>, from: nat, count: nat) returns (m: nat)
      requires Shape() && nbuf != 0 && from + count <= buf.Length
      modifies this`mbuf, this`nbuf, buf
      ensures Shape() && m <= count && nbuf == old(nbuf) - 8 * m && (nbuf != 0 ==> m == count)
      ensures R[..] == old(R[..]) && CRC[..] == old(CRC[..])
      ensures Settled(Raw()) == Absorbed(old(Raw()), old(buf[from..from + m]))
      ensures buf[..] == Patched(old(buf[..]), from, Encrypted(old(Raw()), old(buf[from..from + m])))
    {
      hide MacWord, Absorbed, Encrypted, Absorb, Opened, Xor, XorByte, AtLane, ByteOf, Patched;
      ghost var was, plain, st := buf[..], buf[from..from + count], Raw();
      m := 0;
      EmptyMessage(st, plain[..0]);
      PatchNothing(was, from);
      while nbuf != 0 && m < count
        invariant Shape() && m <= count && nbuf == old(nbuf) - 8 * m
        invariant Settled(Raw()) == Absorbed(st, plain[..m])
        invariant buf[..] == Patched(was, from, Encrypted(st, plain[..m]))
      {
        ghost var s := Raw();
        FeedOneMore(st, plain, m);
        PatchOneMore(was, from, Encrypted(st, plain[..m]), XorByte(plain[m], StreamByte(s)));
        assert buf[from + m] == buf[..][from + m] == plain[m];
        assert StreamByte(s) == ByteOf(sbuf, Lane(s)) by { StreamWithinWord(s); }
        var lane := (32 - nbuf) / 8;
        mbuf := Xor(mbuf, AtLane(buf[from + m], lane));
        buf[from + m] := XorByte(buf[from + m], ByteOf(sbuf, lane));
        nbuf := nbuf - 8;
        assert Raw() == Fed(s, plain[m]);
        m := m + 1;
      }
      assert plain[..m] == old(buf[from..from + m]);
    }

    /** One turn of the loop over whole words. */
    method EncryptWord(buf: array<Byte>, at: nat)
      requires Shape() && nbuf == 0 && at + 4 <= buf.Length
      modifies this`sbuf, R, CRC, buf
      ensures Abs() == Absorbed(old(Abs()), old(buf[at..at + 4]))
      ensures buf[..] == Patched(old(buf[..]), at, Encrypted(old(Abs()), old(buf[at..at + 4])))
    {
      hide Feedback, Shifted, Sbox2, CrcFeedback, Xor, Absorbed, Encrypted, Patched, LittleBytes;
      OneWord(Abs(), buf[at..at + 4]);
      Cycle();
      var t := ReadWord(buf, at);
      MacFunc(t);
      t := Xor(t, sbuf);
      WriteWord(t, buf, at);
    }

    /** The bytes after the last whole word: open a new word and feed them in. */
    method EncryptTail(buf: array<Byte>, at: nat, count: nat)
      requires Shape() && nbuf == 0 && 0 < count < 4 && at + count <= buf.Length
      modifies this`sbuf, this`mbuf, this`nbuf, R, buf
      ensures Valid() && Abs() == Absorbed(old(Abs()), old(buf[at..at + count]))
      ensures buf[..] == Patched(old(buf[..]), at, Encrypted(old(Abs()), old(buf[at..at + count])))
    {
      hide Feedback, Shifted, Sbox2, CrcFeedback, Xor, Absorbed, Encrypted, Patched;
      OpenedAgrees(Abs(), buf[at..at + count]);
      Cycle();
      mbuf := Word(0);
      nbuf := 32;
      var m := EncryptBytes(buf, at, count);
    }

    /** The loop over whole words. */
    method EncryptWords(buf: array<Byte>, at: nat, count: nat)
      requires Shape() && nbuf == 0 && at + count <= buf.Length && count % 4 == 0
      modifies this`sbuf, R, CRC, buf
      ensures Abs() == Absorbed(old(Abs()), old(buf[at..at + count]))
      ensures buf[..] == Patched(old(buf[..]), at, Encrypted(old(Abs()), old(buf[at..at + count])))
    {
      hide Absorbed, Encrypted, Patched, PartDone;
      ghost var was, plain, st := buf[..], buf[at..at + count], Abs();
      NothingDone(st, was, at, plain);
      var i := 0;
      while i < count
        invariant i <= count && i % 4 == 0
        invariant Abs() == Absorbed(st, plain[..i])
        invariant buf[..] == PartDone(st, was, at, plain, i)
      {
        Onwards(st, was, at, plain, i, i + 4);
        assert buf[at + i..at + i + 4] == buf[..][at + i..at + (i + 4)];
        EncryptWord(buf, at + i);
        i := i + 4;
      }
      AllDone(st, was, at, plain);
      assert plain[..count] == plain;
    }

    /** Bytes that complete a word begun by an earlier call. */
    method EncryptHead(buf: array<Byte>, start: nat, n: nat) returns (i: nat)
      requires Valid() && start + n <= buf.Length
      modifies this`mbuf, this`nbuf, R, CRC, buf
      ensures Valid() && i <= n && (nbuf != 0 ==> i == n)
      ensures Abs() == Absorbed(old(Abs()), old(buf[start..start + i]))
      ensures buf[..] == Patched(old(buf[..]), start, Encrypted(old(Abs()), old(buf[start..start + i])))
    {
      hide Absorbed, Encrypted, MacWord, Patched;
      i := 0;
      if nbuf != 0 {
        i := EncryptBytes(buf, start, n);
        if nbuf == 0 {
          MacFunc(mbuf);
        }
      } else {
        EmptyMessage(Abs(), buf[start..start]);
        PatchNothing(buf[..], start);
      }
    }

    /** Encrypt `n` bytes of the buffer in place and accumulate them for the MAC. */
    method Encrypt(buf: array<Byte>, start: nat, n: nat)
      requires Valid() && start + n <= buf.Length
      modifies this`sbuf, this`mbuf, this`nbuf, R, CRC, buf
      ensures Valid() && Abs() == Absorbed(old(Abs()), old(buf[start..start + n]))
      ensures buf[..] == Patched(old(buf[..]), start, Encrypted(old(Abs()), old(buf[start..start + n])))
    {
      hide Absorbed, Encrypted, Patched, PartDone, Abs, Ok;
      ghost var was, plain, st := buf[..], buf[start..start + n], Abs();
      NothingDone(st, was, start, plain);
      AllDone(st, was, start, plain);
      assert plain[..n] == plain;
      var i := EncryptHead(buf, start, n);
      Onwards(st, was, start, plain, 0, i);
      assert old(buf[start..start + i]) == plain[0..i];
      if nbuf != 0 {
        return;
      }
      var end := i + (n - i) / 4 * 4;
      Onwards(st, was, start, plain, i, end);
      assert buf[start + i..start + end] == buf[..][start + i..start + end];
      EncryptWords(buf, start + i, end - i);
      if end < n {
        Onwards(st, was, start, plain, end, n);
        assert buf[start + end..start + n] == buf[..][start + end..start + n];
        EncryptTail(buf, start + end, n - end);
      }
    }

    // Decryption.  The recovered text `plain` is a ghost parameter of the inner methods:
    // the cipher text that they find in the buffer is the encryption of it.

    method DecryptBytes(buf: array<Byte>, from: nat, count: nat, ghost plain: seq<Byte>) returns (m: nat)
      requires Shape() && nbuf != 0 && from + count <= buf.Length && |plain| == count
      requires buf[from..from + count] == Encrypted(Raw(), plain)
      modifies this`mbuf, this`nbuf, buf
      ensures Shape() && m <= count && nbuf == old(nbuf) - 8 * m && (nbuf != 0 ==> m == count)
      ensures R[..] == old(R[..]) && CRC[..] == old(CRC[..])
      ensures Settled(Raw()) == Absorbed(old(Raw()), plain[..m])
      ensures buf[..] == Patched(old(buf[..]), from, plain[..m])
    {
      hide MacWord, Absorbed, Encrypted, Absorb, Opened, StreamByte, Xor, XorByte, AtLane, ByteOf, Patched;
      ghost var was, st := buf[..], Raw();
      m := 0;
      EmptyMessage(st, plain[..0]);
      PatchNothing(was, from);
      while nbuf != 0 && m < count
        invariant Shape() && m <= count && nbuf == old(nbuf) - 8 * m
        invariant Settled(Raw()) == Absorbed(st, plain[..m])
        invariant buf[..] == Patched(was, from, plain[..m])
      {
        ghost var s := Raw();
        FeedOneMore(st, plain, m);
        PatchOneMore(was, from, plain[..m], plain[m]);
        assert buf[from + m] == buf[..][from + m] == was[from..from + count][m];
        CipherByte(st, plain, m);
        StreamWithinWord(s);
        XorByteTwice(plain[m], StreamByte(s));
        var lane := (32 - nbuf) / 8;
        buf[from + m] := XorByte(buf[from + m], ByteOf(sbuf, lane));
        mbuf := Xor(mbuf, AtLane(buf[from + m], lane));
        nbuf := nbuf - 8;
        assert Raw() == Fed(s, plain[m]);
        assert plain[..m + 1] == plain[..m] + [plain[m]];
        m := m + 1;
      }
    }

    method DecryptWord(buf: array<Byte>, at: nat, ghost plain: seq<Byte>)
      requires Shape() && nbuf == 0 && at + 4 <= buf.Length && |plain| == 4
      requires buf[at..at + 4] == Encrypted(Abs(), plain)
      modifies this`sbuf, R, CRC, buf
      ensures Abs() == Absorbed(old(Abs()), plain)
      ensures buf[..] == Patched(old(buf[..]), at, plain)
    {
      hide Feedback, Shifted, Sbox2, CrcFeedback, Xor, Absorbed, Encrypted, Patched, LittleEndian, LittleBytes;
      OneWord(Abs(), plain);
      ghost var w := LittleEndian(plain[0], plain[1], plain[2], plain[3]);
      Cycle();
      var t := ReadWord(buf, at);
      PackedBack(Xor(w, sbuf), buf[at..at + 4]);
      XorTwice(w, sbuf);
      t := Xor(t, sbuf);
      MacFunc(t);
      PackedBytes(plain);
      WriteWord(t, buf, at);
    }

    method DecryptTail(buf: array<Byte>, at: nat, count: nat, ghost plain: seq<Byte>)
      requires Shape() && nbuf == 0 && 0 < count < 4 && at + count <= buf.Length && |plain| == count
      requires buf[at..at + count] == Encrypted(Abs(), plain)
      modifies this`sbuf, this`mbuf, this`nbuf, R, buf
      ensures Valid() && Abs() == Absorbed(old(Abs()), plain)
      ensures buf[..] == Patched(old(buf[..]), at, plain)
    {
      hide Feedback, Shifted, Sbox2, CrcFeedback, Xor, Absorbed, Encrypted, Patched;
      OpenedAgrees(Abs(), plain);
      Cycle();
      mbuf := Word(0);
      nbuf := 32;
      var m := DecryptBytes(buf, at, count, plain);
      assert plain[..count] == plain;
    }

    method DecryptWords(buf: array<Byte>, at: nat, count: nat, ghost plain: seq<Byte>)
      requires Shape() && nbuf == 0 && at + count <= buf.Length && count % 4 == 0 && |plain| == count
      requires buf[at..at + count] == Encrypted(Abs(), plain)
      modifies this`sbuf, R, CRC, buf
      ensures Abs() == Absorbed(old(Abs()), plain)
      ensures buf[..] == Patched(old(buf[..]), at, plain)
    {
      hide Absorbed, Encrypted, Patched;
      ghost var was, st := buf[..], Abs();
      EmptyMessage(st, plain[..0]);
      PatchNothing(was, at);
      assert plain[..0] == [];
      var i := 0;
      while i < count
        invariant i <= count && i % 4 == 0
        invariant Abs() == Absorbed(st, plain[..i])
        invariant buf[..] == Patched(was, at, plain[..i])
      {
        BackOnwards(st, was, at, plain, i, i + 4);
        assert buf[at + i..at + i + 4] == buf[..][at + i..at + (i + 4)];
        DecryptWord(buf, at + i, plain[i..i + 4]);
        i := i + 4;
      }
      assert plain[..count] == plain;
    }

    method DecryptHead(buf: array<Byte>, start: nat, n: nat, ghost plain: seq<Byte>) returns (i: nat)
      requires Valid() && start + n <= buf.Length && |plain| == n
      requires buf[start..start + n] == Encrypted(Abs(), plain)
      modifies this`mbuf, this`nbuf, R, CRC, buf
      ensures Valid() && i <= n && (nbuf != 0 ==> i == n)
      ensures Abs() == Absorbed(old(Abs()), plain[..i])
      ensures buf[..] == Patched(old(buf[..]), start, plain[..i])
    {
      hide Absorbed, Encrypted, MacWord, Patched;
      i := 0;
      if nbuf != 0 {
        i := DecryptBytes(buf, start, n, plain);
        if nbuf == 0 {
          MacFunc(mbuf);
        }
      } else {
        EmptyMessage(Abs(), plain[..0]);
        PatchNothing(buf[..], start);
      }
    }

    /** Decrypt `n` bytes of the buffer in place and accumulate the plaintext for the MAC. */
    method Decrypt(buf: array<Byte>, start: nat, n: nat)
      requires Valid() && start + n <= buf.Length
      modifies this`sbuf, this`mbuf, this`nbuf, R, CRC, buf
      ensures Valid()
      ensures var plain := Decrypted(old(Abs()), old(buf[start..start + n]));
              && Abs() == Absorbed(old(Abs()), plain)
              && buf[..] == Patched(old(buf[..]), start, plain)
    {
      hide Absorbed, Encrypted, Decrypted, Patched, Abs, Ok;
      ghost var was, st := buf[..], Abs();
      ghost var plain := Decrypted(st, buf[start..start + n]);
      EncryptInvertsDecrypt(st, buf[start..start + n]);
      assert plain[..n] == plain;
      var i := DecryptHead(buf, start, n, plain);
      if nbuf != 0 {
        return;
      }
      var end := i + (n - i) / 4 * 4;
      BackOnwards(st, was, start, plain, i, end);
      assert buf[start + i..start + end] == buf[..][start + i..start + end];
      DecryptWords(buf, start + i, end - i, plain[i..end]);
      if end < n {
        BackOnwards(st, was, start, plain, end, n);
        assert buf[start + end..start + n] == buf[..][start + end..start + n];
        DecryptTail(buf, start + end, n - end, plain[end..n]);
      }
    }

    // Accumulating for the MAC alone

    method MacBytes(buf: array<Byte>, from: nat, count: nat) returns (m: nat)
      requires Shape() && nbuf != 0 && from + count <= buf.Length
      modifies this`mbuf, this`nbuf
      ensures Shape() && m <= count && nbuf == old(nbuf) - 8 * m && (nbuf != 0 ==> m == count)
      ensures Settled(Raw()) == Absorbed(old(Raw()), buf[from..from + m])
    {
      hide MacWord, Absorbed, Encrypted, Absorb, Opened, Xor, XorByte, AtLane, ByteOf;
      ghost var plain, st := buf[from..from + count], Raw();
      m := 0;
      EmptyMessage(st, plain[..0]);
      while nbuf != 0 && m < count
        invariant Shape() && m <= count && nbuf == old(nbuf) - 8 * m
        invariant Settled(Raw()) == Absorbed(st, plain[..m])
      {
        ghost var s := Raw();
        FeedOneMore(st, plain, m);
        mbuf := Xor(mbuf, AtLane(buf[from + m], (32 - nbuf) / 8));
        nbuf := nbuf - 8;
        assert Raw() == Fed(s, plain[m]);
        m := m + 1;
      }
      SliceOfSlice(buf[..], from, from + count, 0, m);
      assert buf[..][from..from + count] == plain;
    }

    method OneMacWord(buf: array<Byte>, at: nat)
      requires Shape() && nbuf == 0 && at + 4 <= buf.Length
      modifies this`sbuf, R, CRC
      ensures Abs() == Absorbed(old(Abs()), buf[at..at + 4])
    {
      hide Feedback, Shifted, Sbox2, CrcFeedback, Xor, Absorbed, Encrypted, LittleEndian, LittleBytes;
      OneWord(Abs(), buf[at..at + 4]);
      Cycle();
      var t := ReadWord(buf, at);
      MacFunc(t);
    }

    method MacWords(buf: array<Byte>, at: nat, count: nat)
      requires Shape() && nbuf == 0 && at + count <= buf.Length && count % 4 == 0
      modifies this`sbuf, R, CRC
      ensures Abs() == Absorbed(old(Abs()), buf[at..at + count])
    {
      hide Absorbed, Encrypted;
      ghost var plain, st := buf[at..at + count], Abs();
      EmptyMessage(st, plain[..0]);
      var i := 0;
      while i < count
        invariant i <= count && i % 4 == 0
        invariant Abs() == Absorbed(st, plain[..i])
      {
        NextState(st, plain, i, i + 4);
        SliceOfSlice(buf[..], at, at + count, i, i + 4);
        assert buf[at + i..at + i + 4] == buf[..][at + i..at + (i + 4)];
        OneMacWord(buf, at + i);
        i := i + 4;
      }
      assert plain[..count] == plain;
    }

    method MacTail(buf: array<Byte>, at: nat, count: nat)
      requires Shape() && nbuf == 0 && 0 < count < 4 && at + count <= buf.Length
      modifies this`sbuf, this`mbuf, this`nbuf, R
      ensures Valid() && Abs() == Absorbed(old(Abs()), buf[at..at + count])
    {
      hide Feedback, Shifted, Sbox2, CrcFeedback, Xor, Absorbed, Encrypted;
      OpenedAgrees(Abs(), buf[at..at + count]);
      Cycle();
      mbuf := Word(0);
      nbuf := 32;
      var m := MacBytes(buf, at, count);
    }

    method MacHead(buf: array<Byte>, start: nat, n: nat) returns (i: nat)
      requires Valid() && start + n <= buf.Length
      modifies this`mbuf, this`nbuf, R, CRC
      ensures Valid() && i <= n && (nbuf != 0 ==> i == n)
      ensures Abs() == Absorbed(old(Abs()), buf[start..start + i])
    {
      hide Absorbed, Encrypted, MacWord;
      i := 0;
      if nbuf != 0 {
        i := MacBytes(buf, start, n);
        if nbuf == 0 {
          MacFunc(mbuf);
        }
      } else {
        EmptyMessage(Abs(), buf[start..start]);
      }
    }

    /** Accumulate `n` bytes for the MAC and leave them as they are. */
    method MacOnly(buf: array<Byte>, start: nat, n: nat)
      requires Valid() && start + n <= buf.Length
      modifies this`sbuf, this`mbuf, this`nbuf, R, CRC
      ensures Valid() && Abs() == Absorbed(old(Abs()), buf[start..start + n])
    {
      hide Absorbed, Encrypted, Abs, Ok;
      ghost var all, st := buf[..], Abs();
      ghost var plain := all[start..start + n];
      assert plain[..n] == plain == buf[start..start + n];
      var i := MacHead(buf, start, n);
      assert buf[start..start + i] == plain[..i];
      if nbuf != 0 {
        return;
      }
      var end := i + (n - i) / 4 * 4;
      NextState(st, plain, i, end);
      SliceOfSlice(all, start, start + n, i, end);
      assert buf[start + i..start + end] == all[start + i..start + end];
      MacWords(buf, start + i, end - i);
      if end < n {
        NextState(st, plain, end, n);
        SliceOfSlice(all, start, start + n, end, n);
        assert buf[start + end..start + n] == all[start + end..start + n];
        MacTail(buf, start + end, n - end);
      }
    }

    // Keys and nonces

    method Diffuse()
      requires Shape()
      modifies this`sbuf, R
      ensures Shape() && Raw() == CycledN(old(Raw()), N)
    {
      hide Cycled;
      for i := 0 to N
        invariant Shape() && Raw() == CycledN(old(Raw()), i)
      {
        Cycle();
      }
    }

    method AddKey(k: Word)
      requires Shape()
      modifies R
      ensures Raw() == KeyAdded(old(Raw()), k)
    {
      hide Xor;
      ghost var r := R[..];
      R[KEYP] := Xor(R[KEYP], k);
      assert R[..] == r[KEYP := Xor(r[KEYP], k)];
    }

    method XorCrc()
      requires Shape()
      modifies R
      ensures Raw() == old(Raw()).(r := XorSeq(old(R[..]), CRC[..]))
    {
      hide Xor;
      for i := 0 to N
        invariant forall k :: 0 <= k < i ==> R[k] == Xor(old(R[k]), CRC[k])
        invariant forall k :: i <= k < N ==> R[k] == old(R[k])
      {
        R[i] := Xor(R[i], CRC[i]);
      }
      assert R[..] == XorSeq(old(R[..]), CRC[..]);
    }

    /** Key bytes that do not fill a word, padded in a scratch array. */
    method LoadExtra(key: seq<Byte>, from: nat)
      requires Shape() && from < |key| < from + 4
      modifies this`sbuf, R
      ensures Shape() && Raw() == Cycled(KeyAdded(old(Raw()), Padded(key[from..])))
    {
      hide Cycled, KeyAdded, LittleEndian;
      var xtra := new Byte[4](_ => Byte(0));
      var i, j := from, 0;
      while i < |key|
        invariant i <= |key| && j == i - from && xtra.Length == 4
        invariant forall k :: 0 <= k < j ==> xtra[k] == key[from + k]
        modifies xtra
      {
        xtra[j] := key[i];
        i, j := i + 1, j + 1;
      }
      while j < 4
        invariant |key| - from <= j <= 4
        invariant forall k :: 0 <= k < |key| - from ==> xtra[k] == key[from + k]
        invariant forall k :: |key| - from <= k < j ==> xtra[k] == Byte(0)
        modifies xtra
      {
        xtra[j] := Byte(0);
        j := j + 1;
      }
      ghost var last := key[from..];
      assert OrZero(last, 0) == xtra[0] && OrZero(last, 1) == xtra[1];
      assert OrZero(last, 2) == xtra[2] && OrZero(last, 3) == xtra[3];
      AddKey(LittleEndian(xtra[0], xtra[1], xtra[2], xtra[3]));
      Cycle();
    }

    method FoldKey(key: seq<Byte>)
      requires Shape()
      modifies this`sbuf, R
      ensures Shape() && Raw() == Folded(old(Raw()), key)
    {
      hide Cycled, KeyAdded, LittleEndian, Padded;
      ghost var st := Raw();
      var i := 0;
      while i < |key| / 4 * 4
        invariant i <= |key| && i % 4 == 0
        invariant Shape() && Folded(Raw(), key[i..]) == Folded(st, key)
      {
        assert key[i..][4..] == key[i + 4..];
        AddKey(LittleEndian(key[i], key[i + 1], key[i + 2], key[i + 3]));
        Cycle();
        i := i + 4;
      }
      if i < |key| {
        LoadExtra(key, i);
      }
    }

    method LoadKey(key: seq<Byte>)
      requires Shape()
      modifies this`sbuf, R, CRC
      ensures Shape() && Raw() == Loaded(old(Raw()), key)
    {
      hide Cycled, Folded, KeyAdded, Xor, XorSeq, LengthWord;
      FoldKey(key);
      AddKey(LengthWord(|key|));
      Cycle();
      ghost var keyed := Raw();
      forall k | 0 <= k < N {
        CRC[k] := R[k];
      }
      assert CRC[..] == R[..] == keyed.r;
      assert Raw() == keyed.(crc := keyed.r);
      Diffuse();
      XorCrc();
    }

    method InitState()
      requires Shape()
      modifies this`konst, R
      ensures Shape() && konst == INITKONST && R[..] == seq(N, i requires 0 <= i => Fibonacci(i))
    {
      hide Add;
      R[0] := Word(1);
      R[1] := Word(1);
      for i := 2 to N
        invariant forall k :: 0 <= k < i ==> R[k] == Fibonacci(k)
      {
        R[i] := Add(R[i - 1], R[i - 2]);
      }
      konst := INITKONST;
    }

    /** Set the key: afterwards the saved register is a function of the key alone. */
    method Key(key: seq<Byte>)
      requires Valid()
      modifies this, R, CRC, initR
      ensures Valid() && initR[..] == KeyRegister(key)
    {
      hide Loaded, Fibonacci;
      InitState();
      LoadedSame(Raw(), Fresh(R[..]), key);
      LoadKey(key);
      konst := R[0];
      forall k | 0 <= k < N {
        initR[k] := R[k];
      }
      assert initR[..] == R[..];
      nbuf := 0;
    }

    /** Set the nonce. */
    method Nonce(nonce: seq<Byte>)
      requires Valid()
      modifies this, R, CRC
      ensures Valid() && Abs() == Start(old(initR[..]), nonce)
    {
      hide Loaded, Start;
      ghost var st := Raw();
      NonceForgets(st, nonce);
      forall k | 0 <= k < N {
        R[k] := initR[k];
      }
      assert R[..] == initR[..] == st.initR;
      konst := INITKONST;
      assert Raw() == st.(r := st.initR, konst := INITKONST);
      LoadKey(nonce);
      konst := R[0];
      nbuf := 0;
    }

    /** End of message: the CRC goes into the register and the whole is diffused. */
    method Close()
      requires Valid()
      modifies this, R, CRC
      ensures Valid() && nbuf == 0
      ensures Abs() == Closed(old(Abs())).(mbuf := Word(0))
    {
      hide Feedback, Shifted, Sbox2, CrcFeedback, Xor, XorSeq, LengthWord, CycledN;
      ghost var st := Abs();
      if nbuf != 0 {
        MacFunc(mbuf);
      }
      Cycle();
      AddKey(Xor(INITKONST, LengthWord(nbuf * 8)));
      nbuf := 0;
      XorCrc();
      ghost var marked := Raw();
      Diffuse();
      MbufRides(marked, Word(0), N);
    }

    /** Stream words into the buffer, the last one cut short if need be. */
    method Output(buf: array<Byte>, at: nat, n: nat)
      requires Valid() && at + n <= buf.Length
      modifies this`sbuf, R, buf
      ensures Valid()
      ensures buf[..] == Patched(old(buf[..]), at, Stream(old(Raw()), n))
    {
      hide Cycled, ByteOf, LittleBytes, Patched;
      ghost var was, all := buf[..], Stream(Raw(), n);
      ghost var done: seq<Byte> := [];
      var left: nat := n;
      PatchNothing(was, at);
      while left > 0
        invariant left <= n && |done| == n - left && Shape() && nbuf == old(nbuf)
        invariant all == done + Stream(Raw(), left)
        invariant buf[..] == Patched(was, at, done)
        decreases left
      {
        ghost var st := Raw();
        Cycle();
        if left >= 4 {
          PatchMore(was, at, done, LittleBytes(sbuf));
          WriteWord(sbuf, buf, at + n - left);
          done := done + LittleBytes(sbuf);
          left := left - 4;
        } else {
          ghost var tail := LittleBytes(sbuf)[..left];
          assert all == done + tail;
          WritePart(sbuf, buf, at + n - left, left);
          PatchMore(was, at, done, tail);
          return;
        }
      }
      assert all == done;
    }

    /** Finish the message and put `n` bytes of its tag into the buffer. */
    method Finish(buf: array<Byte>, at: nat, n: nat)
      requires Valid() && at + n <= buf.Length
      modifies this, R, CRC, buf
      ensures Valid() && initR[..] == old(initR[..])
      ensures buf[..] == Patched(old(buf[..]), at, Tag(old(Abs()), n))
    {
      hide Closed, Stream, Patched;
      ghost var st := Abs();
      Close();
      StreamSame(Raw(), Closed(st), n);
      Output(buf, at, n);
    }
  }
}
