/** Decryption of audio data: src/clients/gateway/gw-stream.c, and the same loop in
    despotify_substream_callback of src/lib/despotify.c.

    Data comes in blocks of 1024 bytes, each made of four interleaved quarters, encrypted in
    counter mode.  The specification says of every output byte, on its own, which input byte
    and which byte of key stream it is made of (section 6.5 of NIST SP 800-38A). */
module CounterMode {
  import opened ByteCounter
  import opened Words
  import opened AesSpec
  import opened Aes

  type Iv = s: seq<Byte> | |s| == 16 witness seq(16, _ => Byte(0))

  // ------------------------------------------------------------------------ the counter

  /** The counter after `n` increments. */
  function IvAt(iv: Iv, n: nat): Iv {
    if n == 0 then iv else Incremented(IvAt(iv, n - 1))
  }

  lemma {:induction false} IvAtAdds(iv: Iv, m: nat, n: nat)
    ensures IvAt(IvAt(iv, m), n) == IvAt(iv, m + n)
  {
    if n > 0 {
      IvAtAdds(iv, m, n - 1);
    }
  }

  const MODULUS := Power256(16)

  /** The counter counts modulo 2^128. */
  lemma {:induction false} IvAtValue(iv: Iv, n: nat)
    ensures Value(IvAt(iv, n)) == (Value(iv) + n) % MODULUS
  {
    hide Value, Incremented, Power256;
    ValueBound(iv);
    if n > 0 {
      IvAtValue(iv, n - 1);
      IncrementAddsOne(IvAt(iv, n - 1));
      ModSucc(Value(iv) + n - 1, MODULUS);
    } else {
      ModUnique(Value(iv), 0, MODULUS, Value(iv));
    }
  }

  // ---------------------------------------------------------------------- the data stream

  /** The input byte that goes to place `i`: four quarters, dealt out in turn. */
  function SourceIndex(i: nat): (j: nat)
    ensures i / 1024 * 1024 <= j < i / 1024 * 1024 + 1024
  {
    i / 1024 * 1024 + i % 4 * 256 + i % 1024 / 4
  }

  lemma SourceInside(i: nat, n: nat)
    requires i < n && n % 1024 == 0
    ensures SourceIndex(i) < n
  {
    hide SourceIndex;
    var j := SourceIndex(i);
    assert n == 1024 * (n / 1024) && i / 1024 < n / 1024;
  }

  /** The place from which it came back: the two are inverse permutations of each block. */
  function TargetIndex(j: nat): (i: nat)
    ensures j / 1024 * 1024 <= i < j / 1024 * 1024 + 1024
  {
    j / 1024 * 1024 + j % 256 * 4 + j % 1024 / 256
  }

  lemma SourceOf(b: nat, m: nat, q: nat)
    requires m < 256 && q < 4
    ensures SourceIndex(b * 1024 + 4 * m + q) == b * 1024 + q * 256 + m
  {
    var i := b * 1024 + 4 * m + q;
    assert i / 1024 == b && i % 1024 == 4 * m + q && i % 4 == q;
  }

  lemma SourceOfFour(at: nat, i: nat, m: nat)
    requires at % 1024 == 0 && i == 4 * m && m < 256
    ensures SourceIndex(at + i) == at + m
    ensures SourceIndex(at + i + 1) == at + 256 + m
    ensures SourceIndex(at + i + 2) == at + 2 * 256 + m
    ensures SourceIndex(at + i + 3) == at + 3 * 256 + m
  {
    hide SourceIndex;
    var b := at / 1024;
    assert at == b * 1024;
    SourceOf(b, m, 0);
    SourceOf(b, m, 1);
    SourceOf(b, m, 2);
    SourceOf(b, m, 3);
  }

  lemma TargetOf(b: nat, m: nat, q: nat)
    requires m < 256 && q < 4
    ensures TargetIndex(b * 1024 + q * 256 + m) == b * 1024 + 4 * m + q
  {
    var j := b * 1024 + q * 256 + m;
    assert j / 1024 == b && j % 1024 == q * 256 + m && j % 256 == m;
  }

  /** The block at `at`, its quarters dealt out. */
  function Dealt(data: seq<Byte>, at: nat): (s: seq<Byte>)
    requires at % 1024 == 0 && at + 1024 <= |data|
    ensures |s| == 1024
  {
    seq(1024, k requires 0 <= k < 1024 => InBlock(at, k); data[SourceIndex(at + k)])
  }

  lemma InBlock(at: nat, k: nat)
    requires at % 1024 == 0 && k < 1024
    ensures at <= SourceIndex(at + k) < at + 1024
  {
    ShiftedIndex(at, k);
    assert k / 1024 == 0;
  }

  lemma DealingPermutes(i: nat)
    ensures SourceIndex(TargetIndex(i)) == i && TargetIndex(SourceIndex(i)) == i
  {
    var b, r := i / 1024, i % 1024;
    SourceOf(b, r / 4, r % 4);
    TargetOf(b, r / 4, r % 4);
    SourceOf(b, r % 256, r / 256);
    TargetOf(b, r % 256, r / 256);
  }

  /** The key stream block for a counter value. */
  function KeyBlock(box: Box, keys: Schedule, iv: Iv): (s: seq<Byte>)
    requires |keys| >= 2
    ensures |s| == 16
  {
    BytesOf(Cipher(box, keys, BlockOf(iv)))
  }

  /** Byte `i` of the decrypted stream that starts with counter `iv`. */
  function PlainByte(box: Box, keys: Schedule, iv: Iv, data: seq<Byte>, i: nat): Byte
    requires |keys| >= 2 && |data| % 1024 == 0 && i < |data|
  {
    SourceInside(i, |data|);
    XorByte(data[SourceIndex(i)], KeyBlock(box, keys, IvAt(iv, i / 16))[i % 16])
  }

  function Plain(box: Box, keys: Schedule, iv: Iv, data: seq<Byte>): (p: seq<Byte>)
    requires |keys| >= 2 && |data| % 1024 == 0
    ensures |p| == |data|
    ensures forall i :: 0 <= i < |data| ==> p[i] == PlainByte(box, keys, iv, data, i)
  {
    seq(|data|, i requires 0 <= i < |data| => PlainByte(box, keys, iv, data, i))
  }

  lemma DivShift(b: nat, i: nat)
    ensures (1024 * b + i) / 1024 == b + i / 1024 && (1024 * b + i) % 1024 == i % 1024
    ensures (1024 * b + i) % 4 == i % 4
  {
    By1024(b + i / 1024, i % 1024);
    By4(256 * b + i / 4, i % 4);
  }

  lemma By1024(q: nat, r: nat)
    requires r < 1024
    ensures (1024 * q + r) / 1024 == q && (1024 * q + r) % 1024 == r
  {
  }

  lemma By4(q: nat, r: nat)
    requires r < 4
    ensures (4 * q + r) % 4 == r
  {
  }

  lemma ShiftedIndex(n: nat, i: nat)
    requires n % 1024 == 0
    ensures SourceIndex(n + i) == n + SourceIndex(i)
  {
    assert n == 1024 * (n / 1024);
    DivShift(n / 1024, i);
  }

  lemma SixteenShift(b: nat, i: nat)
    ensures (1024 * b + i) / 16 == 64 * b + i / 16 && (1024 * b + i) % 16 == i % 16
  {
    var q, r := i / 16, i % 16;
    assert 1024 * b + i == 16 * (64 * b + q) + r;
  }

  lemma ShiftedSixteen(n: nat, i: nat)
    requires n % 1024 == 0
    ensures (n + i) / 16 == n / 16 + i / 16 && (n + i) % 16 == i % 16
  {
    assert n == 1024 * (n / 1024);
    SixteenShift(n / 1024, i);
    SixteenShift(n / 1024, 0);
  }

  lemma PlainByteFirst(box: Box, keys: Schedule, iv: Iv, a: seq<Byte>, b: seq<Byte>, i: nat)
    requires |keys| >= 2 && |a| % 1024 == 0 && |b| % 1024 == 0 && i < |a|
    ensures PlainByte(box, keys, iv, a + b, i) == PlainByte(box, keys, iv, a, i)
  {
    hide XorByte, KeyBlock, IvAt, SourceIndex;
    SourceInside(i, |a|);
  }

  lemma PlainByteSecond(box: Box, keys: Schedule, iv: Iv, a: seq<Byte>, b: seq<Byte>, i: nat)
    requires |keys| >= 2 && |a| % 1024 == 0 && |b| % 1024 == 0 && i < |b|
    ensures PlainByte(box, keys, iv, a + b, |a| + i) == PlainByte(box, keys, IvAt(iv, |a| / 16), b, i)
  {
    hide XorByte, KeyBlock, IvAt, SourceIndex;
    ShiftedIndex(|a|, i);
    ShiftedSixteen(|a|, i);
    IvAtAdds(iv, |a| / 16, i / 16);
  }

  /** Decryption in packets: any cut at a block boundary gives the same stream, with the
      counter advanced by the blocks of the cipher that were used. */
  lemma PacketsAgree(box: Box, keys: Schedule, iv: Iv, a: seq<Byte>, b: seq<Byte>)
    requires |keys| >= 2 && |a| % 1024 == 0 && |b| % 1024 == 0
    ensures Plain(box, keys, iv, a + b) == Plain(box, keys, iv, a) + Plain(box, keys, IvAt(iv, |a| / 16), b)
  {
    hide PlainByte, IvAt;
    var whole, pa, pb := Plain(box, keys, iv, a + b), Plain(box, keys, iv, a), Plain(box, keys, IvAt(iv, |a| / 16), b);
    forall i | 0 <= i < |a|
      ensures whole[i] == pa[i]
    {
      PlainByteFirst(box, keys, iv, a, b, i);
    }
    forall i | 0 <= i < |b|
      ensures whole[|a| + i] == pb[i]
    {
      PlainByteSecond(box, keys, iv, a, b, i);
    }
  }

  lemma Modulus()
    ensures MODULUS == 0x1_0000_0000_0000_0000_0000_0000_0000_0000
  {
    assert Power256(4) == 0x1_0000_0000 by {
      assert Power256(2) == 0x1_0000;
    }
    assert Power256(8) == 0x1_0000_0000_0000_0000 by {
      assert Power256(6) == 0x1_0000_0000_0000;
    }
    assert Power256(12) == 0x1_0000_0000_0000_0000_0000_0000 by {
      assert Power256(10) == 0x1_0000_0000_0000_0000_0000;
    }
    assert Power256(14) == 0x1_0000_0000_0000_0000_0000_0000_0000;
  }

  /** A byte of the stream, at place `k` of block `b`: it is number `m` of quarter `q`, masked with
      a byte of the enciphered counter, which starts at `iv`, counts stretches of 16 bytes modulo
      2^128, and is written with its most significant byte first. */
  lemma StreamByte(box: Box, keys: Schedule, iv: Iv, data: seq<Byte>, b: nat, m: nat, q: nat, k: nat, counter: Iv)
    requires |keys| >= 2 && |data| % 1024 == 0 && 1024 * b + 1024 <= |data| && m < 256 && q < 4 && k == 4 * m + q
    requires Value(counter) == (Value(iv) + (64 * b + k / 16)) % 0x1_0000_0000_0000_0000_0000_0000_0000_0000
    ensures Plain(box, keys, iv, data)[1024 * b + k]
         == XorByte(data[1024 * b + 256 * q + m], BytesOf(Cipher(box, keys, BlockOf(counter)))[k % 16])
  {
    hide Value, IvAt, SourceIndex, Cipher, XorByte, Power256, PlainByte, Plain, BytesOf;
    SixteenSplit(b, k);
    SourceOf(b, m, q);
    Modulus();
    ByteIs(box, keys, iv, data, 1024 * b + k, 1024 * b + 256 * q + m, 64 * b + k / 16, k % 16, counter);
  }

  lemma ByteIs(box: Box, keys: Schedule, iv: Iv, data: seq<Byte>, i: nat, from: nat, n: nat, r: nat, counter: Iv)
    requires |keys| >= 2 && |data| % 1024 == 0 && i < |data| && SourceIndex(i) == from < |data|
    requires i / 16 == n && i % 16 == r && Value(counter) == (Value(iv) + n) % MODULUS
    ensures Plain(box, keys, iv, data)[i] == XorByte(data[from], BytesOf(Cipher(box, keys, BlockOf(counter)))[r])
  {
    hide IvAt, SourceIndex, Cipher, XorByte, Value, Power256;
    IvAtValue(iv, n);
    ValueInjective(counter, IvAt(iv, n));
  }

  lemma SixteenSplit(b: nat, k: nat)
    ensures (1024 * b + k) / 16 == 64 * b + k / 16 && (1024 * b + k) % 16 == k % 16
  {
    ModUnique(1024 * b + k, 64 * b + k / 16, 16, k % 16);
  }

  /** Seeking: what is decrypted from position `p` on, with the counter set for `p`, is the
      rest of what would have been decrypted from the start. */
  lemma SeekAgrees(box: Box, keys: Schedule, iv: Iv, data: seq<Byte>, p: nat)
    requires |keys| >= 2 && |data| % 1024 == 0 && p % 1024 == 0 && p <= |data|
    ensures Plain(box, keys, iv, data)[p..] == Plain(box, keys, IvAt(iv, p / 16), data[p..])
  {
    hide Plain, IvAt;
    assert data == data[..p] + data[p..];
    PacketsAgree(box, keys, iv, data[..p], data[p..]);
  }

  // ---------------------------------------------------------------------------- seeking

  const INT_SPAN := 0x1_0000_0000

  /** How often the seek loop runs: the unsigned offset is cast to a signed int first. */
  function SeekSteps(offset: nat): nat
    requires offset < INT_SPAN
  {
    var signed := if offset >= INT_SPAN / 2 then offset - INT_SPAN else offset;
    if signed > 0 then signed / 16 else 0
  }

  lemma {:induction false} PowerGrows(n: nat)
    requires n >= 4
    ensures Power256(n) >= INT_SPAN
  {
    if n > 4 {
      PowerGrows(n - 1);
    } else {
      assert Power256(4) == Power256(3) * 256 && Power256(3) == Power256(2) * 256;
      assert Power256(2) == Power256(1) * 256 && Power256(1) == Power256(0) * 256;
    }
  }

  /** The loop sets the counter for the offset exactly when the offset is below 2^31. */
  lemma SeekExactly(iv: Iv, offset: nat)
    requires offset < INT_SPAN
    ensures IvAt(iv, SeekSteps(offset)) == IvAt(iv, offset / 16) <==> offset < INT_SPAN / 2
  {
    hide Value, Incremented, Power256, IvAt;
    if offset >= INT_SPAN / 2 {
      var k := offset / 16;
      PowerGrows(16);
      ValueBound(iv);
      IvAtValue(iv, 0);
      IvAtValue(iv, k);
      var v, m := Value(iv), MODULUS;
      ModUnique(v, 0, m, v);
      if v + k < m {
        ModUnique(v + k, 0, m, v + k);
      } else {
        ModUnique(v + k, 1, m, v + k - m);
      }
    }
  }

  // ------------------------------------------------------------------------- the context

  /** The initial counter value, the same for every file. */
  const INITIAL_IV: seq<Byte> := [
    Byte(0x72), Byte(0xe0), Byte(0x67), Byte(0xfb), Byte(0xdd), Byte(0xcb), Byte(0xcf), Byte(0x77),
    Byte(0xeb), Byte(0xe8), Byte(0xbc), Byte(0x64), Byte(0x3f), Byte(0x63), Byte(0x0d), Byte(0x93)]

  lemma NextDigit(s: seq<Byte>, i: nat, v: nat, digit: nat)
    requires i < |s| && Value(s[..i]) == v && Num(s[i]) == digit
    ensures Value(s[..i + 1]) == v * 256 + digit
  {
    ValueAppended(s[..i], s[i]);
    assert s[..i + 1] == s[..i] + [s[i]];
  }

  /** The first counter block of a file, as a number */
  lemma FirstCounter()
    ensures Value(INITIAL_IV) == 0x72e0_67fb_ddcb_cf77_ebe8_bc64_3f63_0d93
  {
    assert Value(INITIAL_IV[..0]) == 0;
    hide Value;
    NextDigit(INITIAL_IV, 0, 0x0, 0x72);
    NextDigit(INITIAL_IV, 1, 0x72, 0xe0);
    NextDigit(INITIAL_IV, 2, 0x72e0, 0x67);
    NextDigit(INITIAL_IV, 3, 0x72e067, 0xfb);
    NextDigit(INITIAL_IV, 4, 0x72e067fb, 0xdd);
    NextDigit(INITIAL_IV, 5, 0x72e067fbdd, 0xcb);
    NextDigit(INITIAL_IV, 6, 0x72e067fbddcb, 0xcf);
    NextDigit(INITIAL_IV, 7, 0x72e067fbddcbcf, 0x77);
    NextDigit(INITIAL_IV, 8, 0x72e067fbddcbcf77, 0xeb);
    NextDigit(INITIAL_IV, 9, 0x72e067fbddcbcf77eb, 0xe8);
    NextDigit(INITIAL_IV, 10, 0x72e067fbddcbcf77ebe8, 0xbc);
    NextDigit(INITIAL_IV, 11, 0x72e067fbddcbcf77ebe8bc, 0x64);
    NextDigit(INITIAL_IV, 12, 0x72e067fbddcbcf77ebe8bc64, 0x3f);
    NextDigit(INITIAL_IV, 13, 0x72e067fbddcbcf77ebe8bc643f, 0x63);
    NextDigit(INITIAL_IV, 14, 0x72e067fbddcbcf77ebe8bc643f63, 0x0d);
    NextDigit(INITIAL_IV, 15, 0x72e067fbddcbcf77ebe8bc643f630d, 0x93);
    assert INITIAL_IV[..16] == INITIAL_IV;
  }

  /** One turn of the carry loop. */
  lemma CarryStep(was: seq<Byte>, j: nat)
    requires j < |was|
    ensures var last := Succ(was[j]);
            Incremented(was[..j + 1]) == (if last != Byte(0) then was[..j] else Incremented(was[..j])) + [last]
  {
    hide Succ;
    var front := was[..j + 1];
    assert front[..|front| - 1] == was[..j];
  }

  lemma CarryPut(was: seq<Byte>, j: nat, tail: seq<Byte>, last: Byte)
    requires j < |was|
    ensures (was[..j + 1] + tail)[j := last] == was[..j] + ([last] + tail)
    ensures (was[..j + 1] + tail)[j] == was[j]
    ensures was[..j] + [last] + tail == was[..j] + ([last] + tail)
  {
  }

  lemma CarryOn(was: seq<Byte>, j: nat, tail: seq<Byte>)
    requires j < |was| && Incremented(was) == Incremented(was[..j + 1]) + tail
    ensures var last := Succ(was[j]);
      Incremented(was) == (if last != Byte(0) then was[..j] else Incremented(was[..j])) + ([last] + tail)
  {
    hide Succ, Incremented;
    CarryStep(was, j);
    var last := Succ(was[j]);
    Joined(was[..j], last, tail);
    Joined(Incremented(was[..j]), last, tail);
  }

  lemma Joined(a: seq<Byte>, last: Byte, tail: seq<Byte>)
    ensures a + [last] + tail == a + ([last] + tail)
  {
  }

  method IncrementIv(iv: array<Byte>)
    requires iv.Length == 16
    modifies iv
    ensures iv[..] == Incremented(old(iv[..]))
  {
    hide Succ, Incremented;
    ghost var was := iv[..];
    ghost var tail: seq<Byte> := [];
    var j := 15;
    assert was[..16] == was;
    while j >= 0
      invariant -1 <= j < 16
      invariant iv[..] == was[..j + 1] + tail
      invariant Incremented(was) == Incremented(was[..j + 1]) + tail
    {
      hide Succ, Incremented;
      ghost var now := iv[..];
      CarryOn(was, j, tail);
      CarryPut(was, j, tail, Succ(was[j]));
      assert iv[j] == now[j] == was[j];
      iv[j] := Succ(iv[j]);
      assert iv[..] == now[j := Succ(was[j])];
      tail := [iv[j]] + tail;
      if iv[j] != Byte(0) {
        return;
      }
      j := j - 1;
    }
    IncrementedNone(was[..0]);
  }

  lemma IncrementedNone(s: seq<Byte>)
    requires s == []
    ensures Incremented(s) == []
  {
  }

  class StreamCtx {
    const box: Box
    const state: array<Word>
    const iv: array<Byte>
    const keystream: array<Byte>
    var data: seq<Byte>

    ghost predicate Valid() {
      state.Length == 44 && iv.Length == 16 && keystream.Length == 16 && iv != keystream
    }

    ghost function Keys(): (keys: Schedule)
      requires Valid()
      reads state
      ensures |keys| == 11
    {
      KeysOf(state[..], 10)
    }

    ghost function Counter(): Iv
      requires Valid()
      reads iv
    {
      iv[..]
    }

    /** The next 16 bytes of key stream. */
    ghost function KeyStream(): (s: seq<Byte>)
      requires Valid()
      reads state, iv
      ensures |s| == 16
    {
      KeyBlock(box, Keys(), Counter())
    }

    /** Expand the file key and set the counter for the position asked for. */
    constructor (box: Box, offset: nat, key: array<Byte>)
      requires offset < INT_SPAN && key.Length >= 16
      ensures Valid() && data == [] && this.box == box
      ensures fresh(state) && fresh(iv) && fresh(keystream)
      ensures Keys() == EncSchedule(box, KeyWords(key[..], 4), 10)
      ensures Counter() == IvAt(INITIAL_IV, SeekSteps(offset))
    {
      hide EncSchedule, KeyWords, ExpandedTo, KeysOf, Incremented;
      this.box := box;
      state := new Word[44];
      iv := new Byte[16](i requires 0 <= i < 16 => INITIAL_IV[i]);
      keystream := new Byte[16];
      data := [];
      new;
      assert iv[..] == INITIAL_IV;
      var nr := RijndaelKeySetupEnc(box, state, key, 128);
      ExpandedKeys(box, KeyWords(key[..], 4), state[..], 10);
      var signed := if offset >= INT_SPAN / 2 then offset - INT_SPAN else offset;
      var steps := if signed > 0 then signed / 16 else 0;
      var i := 0;
      while i < steps
        invariant 0 <= i <= steps && iv[..] == IvAt(INITIAL_IV, i)
        modifies iv
      {
        IncrementIv(iv);
        i := i + 1;
      }
    }

    /** Put the four quarters of the block at `at` back together. */
    method Deinterleave(buf: array<Byte>, at: nat, plaintext: array<Byte>)
      requires at % 1024 == 0 && at + 1024 <= buf.Length && at + 1024 <= plaintext.Length && buf != plaintext
      modifies plaintext
      ensures plaintext[at..at + 1024] == Dealt(buf[..], at)
      ensures plaintext[..at] == old(plaintext[..at]) && plaintext[at + 1024..] == old(plaintext[at + 1024..])
    {
      hide SourceIndex, Patched, Dealt;
      ghost var was, want := plaintext[..], Dealt(buf[..], at);
      PatchNothing(was, at);
      var c, w, x, y, z := at, at, at + 256, at + 2 * 256, at + 3 * 256;
      var i := 0;
      ghost var m := 0;
      while i < 1024
        invariant i == 4 * m && 0 <= m <= 256 && c == at + i
        invariant w == at + m && x == w + 256 && y == x + 256 && z == y + 256
        invariant plaintext[..] == Patched(was, at, want[..i])
      {
        hide SourceIndex, Patched, Dealt;
        FourDealt(buf[..], at, i, m);
        FourMore(was, at, want, i);
        ghost var now := plaintext[..];
        plaintext[c] := buf[w];
        plaintext[c + 1] := buf[x];
        plaintext[c + 2] := buf[y];
        plaintext[c + 3] := buf[z];
        assert plaintext[..] == now[c := buf[w]][c + 1 := buf[x]][c + 2 := buf[y]][c + 3 := buf[z]];
        c, w, x, y, z := c + 4, w + 1, x + 1, y + 1, z + 1;
        i := i + 4;
        m := m + 1;
      }
      assert want[..1024] == want;
      PatchedParts(was, at, want);
      assert plaintext[..][at..at + 1024] == plaintext[at..at + 1024];
    }

    /** Decrypt the 16 bytes at `at` with the next block of key stream. */
    method DecryptSixteen(plaintext: array<Byte>, at: nat)
      requires Valid() && at + 16 <= plaintext.Length && plaintext != iv && plaintext != keystream
      modifies iv, keystream, plaintext
      ensures Counter() == Incremented(old(Counter()))
      ensures plaintext[..] == MaskedAt(old(plaintext[..]), at, old(KeyStream()))
    {
      hide Cipher, KeysOf, XorByte, Incremented, BlockOf;
      ghost var ks := KeyStream();
      assert iv[..16] == iv[..];
      RijndaelEncrypt(box, state, 10, iv, keystream);
      assert keystream[..16] == keystream[..];
      SameBlock(keystream[..], ks);
      IncrementIv(iv);
      ghost var was, s := plaintext[..], plaintext[at..at + 16];
      assert was[..at] + [] + was[at..] == was;
      for j := 0 to 16
        invariant Counter() == Incremented(old(Counter())) && keystream[..] == ks
        invariant plaintext[..] == Patched(was, at, Mask16(s, ks)[..j])
      {
        MaskOneMore(s, ks, j);
        PatchOneMore(was, at, Mask16(s, ks)[..j], XorByte(s[j], ks[j]));
        assert plaintext[at + j] == plaintext[..][at + j] == s[j];
        plaintext[at + j] := XorByte(plaintext[at + j], keystream[j]);
      }
      assert Mask16(s, ks)[..16] == Mask16(s, ks);
    }

    /** Decrypt the 1024 bytes at `at`, 16 at a time. */
    method DecryptBlock(plaintext: array<Byte>, at: nat)
      requires Valid() && at + 1024 <= plaintext.Length && plaintext != iv && plaintext != keystream
      modifies iv, keystream, plaintext
      ensures Counter() == IvAt(old(Counter()), 64)
      ensures plaintext[..] == Patched(old(plaintext[..]), at,
                                       Masked(box, Keys(), old(Counter()), old(plaintext[at..at + 1024])))
    {
      hide KeyBlock, KeysOf, XorByte, Incremented, Patched, Masked;
      ghost var was, s, iv0 := plaintext[..], plaintext[at..at + 1024], Counter();
      var i := 0;
      ghost var n := 0;
      MaskedNone(box, Keys(), iv0, s[..0]);
      PatchNothing(was, at);
      while i < 1024
        invariant i == 16 * n && 0 <= n <= 64
        invariant Counter() == IvAt(iv0, n)
        invariant plaintext[..] == Patched(was, at, Masked(box, Keys(), iv0, s[..i]))
      {
        MaskedNext(box, Keys(), iv0, s, n);
        ghost var done := Masked(box, Keys(), iv0, s[..i]);
        ghost var more := Mask16(s[i..i + 16], KeyBlock(box, Keys(), Counter()));
        PatchLeaves(was, at, done, s, i, i + 16);
        assert plaintext[at + i..at + i + 16] == plaintext[..][at + i..at + (i + 16)];
        PatchMore(was, at, done, more);
        DecryptSixteen(plaintext, at + i);
        i := i + 16;
        n := n + 1;
      }
      assert s[..1024] == s;
    }

    /** One block of 1024 bytes, from the packet into the plain text buffer. */
    method OneBlock(buf: array<Byte>, block: nat, plaintext: array<Byte>)
      requires Valid() && block * 1024 + 1024 <= buf.Length && block * 1024 + 1024 <= plaintext.Length
      requires buf != plaintext && plaintext != iv && plaintext != keystream && buf != iv && buf != keystream
      modifies iv, keystream, plaintext
      ensures Counter() == IvAt(old(Counter()), 64)
      ensures plaintext[..block * 1024 + 1024]
           == old(plaintext[..block * 1024])
            + Plain(box, Keys(), old(Counter()), buf[block * 1024..block * 1024 + 1024])
    {
      hide Plain, KeysOf, Masked, Patched, Dealt, IvAt;
      var at := block * 1024;
      Deinterleave(buf, at, plaintext);
      ghost var dealt := plaintext[..];
      assert dealt[..at] == plaintext[..at] == old(plaintext[..at]);
      BlockIsPlain(box, Keys(), Counter(), buf[..], at);
      assert buf[..][at..at + 1024] == buf[at..at + 1024];
      PatchedPrefix(dealt, at, Plain(box, Keys(), Counter(), buf[at..at + 1024]));
      DecryptBlock(plaintext, at);
      assert plaintext[..at + 1024] == plaintext[..][..at + 1024];
    }

    /** The first `blocks` blocks of a packet. */
    method DecryptBlocks(buf: array<Byte>, blocks: nat, plaintext: array<Byte>)
      requires Valid() && blocks * 1024 <= buf.Length && blocks * 1024 <= plaintext.Length
      requires buf != plaintext && plaintext != iv && plaintext != keystream && buf != iv && buf != keystream
      modifies iv, keystream, plaintext
      ensures Counter() == IvAt(old(Counter()), blocks * 64)
      ensures plaintext[..blocks * 1024] == PlainBlocks(box, Keys(), old(Counter()), buf[..], blocks)
    {
      hide PlainBlocks, KeysOf, IvAt, Counter, Valid;
      ghost var keys, iv0, all := Keys(), Counter(), buf[..];
      NoBlocks(box, keys, iv0, all);
      for block := 0 to blocks
        invariant Valid() && Keys() == keys && buf[..] == all
        invariant Counter() == IvAt(iv0, block * 64)
        invariant plaintext[..block * 1024] == PlainBlocks(box, keys, iv0, all, block)
      {
        NextBlock(box, keys, iv0, all, block);
        assert buf[block * 1024..block * 1024 + 1024] == all[block * 1024..block * 1024 + 1024];
        OneBlock(buf, block, plaintext);
      }
    }

    /** A packet of data: whole blocks are decrypted; what a last partial block contributes
        is left open, as the C code leaves it uninitialised. */
    method Data(buf: array<Byte>, len: nat)
      requires Valid() && len <= buf.Length && buf != iv && buf != keystream
      modifies this`data, iv, keystream
      ensures Counter() == IvAt(old(Counter()), len / 1024 * 64)
      ensures var m := len / 1024 * 1024;
              && |data| == |old(data)| + len
              && data[..|old(data)| + m] == old(data) + Plain(box, Keys(), old(Counter()), buf[..m])
    {
      hide Plain, KeysOf, IvAt;
      var plaintext := new Byte[len + 1024];
      DecryptBlocks(buf, len / 1024, plaintext);
      PrefixOfAppend(data, plaintext[..len], len / 1024 * 1024);
      assert plaintext[..len][..len / 1024 * 1024] == plaintext[..len / 1024 * 1024];
      assert buf[..][..len / 1024 * 1024] == buf[..len / 1024 * 1024];
      data := data + plaintext[..len];
    }
  }

  /** The plain text of the first `n` blocks of `data`. */
  ghost function PlainBlocks(box: Box, keys: Schedule, iv: Iv, data: seq<Byte>, n: nat): (p: seq<Byte>)
    requires |keys| >= 2 && n * 1024 <= |data|
    ensures |p| == n * 1024
  {
    Plain(box, keys, iv, data[..n * 1024])
  }

  lemma NoBlocks(box: Box, keys: Schedule, iv: Iv, data: seq<Byte>)
    requires |keys| >= 2
    ensures PlainBlocks(box, keys, iv, data, 0) == [] && IvAt(iv, 0) == iv
  {
  }

  lemma PrefixOfAppend(a: seq<Byte>, b: seq<Byte>, m: nat)
    requires m <= |b|
    ensures (a + b)[..|a| + m] == a + b[..m]
  {
  }

  lemma NextBlock(box: Box, keys: Schedule, iv: Iv, data: seq<Byte>, n: nat)
    requires |keys| >= 2 && n * 1024 + 1024 <= |data|
    ensures PlainBlocks(box, keys, iv, data, n + 1)
         == PlainBlocks(box, keys, iv, data, n)
          + Plain(box, keys, IvAt(iv, n * 64), data[n * 1024..n * 1024 + 1024])
    ensures IvAt(IvAt(iv, n * 64), 64) == IvAt(iv, (n + 1) * 64)
  {
    hide Plain, IvAt;
    var at := n * 1024;
    assert at / 16 == n * 64;
    assert data[..at + 1024] == data[..at] + data[at..at + 1024];
    PacketsAgree(box, keys, iv, data[..at], data[at..at + 1024]);
    IvAtAdds(iv, n * 64, 64);
  }

  lemma PatchedParts(s: seq<Byte>, at: nat, piece: seq<Byte>)
    requires at + |piece| <= |s|
    ensures var p := Patched(s, at, piece);
      p[at..at + |piece|] == piece && p[..at] == s[..at] && p[at + |piece|..] == s[at + |piece|..]
  {
  }

  lemma FourDealt(data: seq<Byte>, at: nat, i: nat, m: nat)
    requires at % 1024 == 0 && at + 1024 <= |data| && i == 4 * m && m < 256
    ensures var want := Dealt(data, at);
      && want[i] == data[at + m] && want[i + 1] == data[at + 256 + m]
      && want[i + 2] == data[at + 2 * 256 + m] && want[i + 3] == data[at + 3 * 256 + m]
  {
    hide SourceIndex;
    SourceOfFour(at, i, m);
  }

  lemma FourMore(was: seq<Byte>, at: nat, want: seq<Byte>, i: nat)
    requires i + 4 <= |want| && at + |want| <= |was|
    ensures Patched(was, at, want[..i])[at + i := want[i]][at + i + 1 := want[i + 1]]
              [at + i + 2 := want[i + 2]][at + i + 3 := want[i + 3]]
         == Patched(was, at, want[..i + 4])
  {
    hide Patched;
    OneDealt(was, at, want, i);
    OneDealt(was, at, want, i + 1);
    OneDealt(was, at, want, i + 2);
    OneDealt(was, at, want, i + 3);
  }

  lemma OneDealt(was: seq<Byte>, at: nat, want: seq<Byte>, i: nat)
    requires i < |want| && at + |want| <= |was|
    ensures Patched(was, at, want[..i])[at + i := want[i]] == Patched(was, at, want[..i + 1])
  {
    hide Patched;
    PatchOneMore(was, at, want[..i], want[i]);
    assert want[..i] + [want[i]] == want[..i + 1];
  }

  lemma PatchedPrefix(s: seq<Byte>, at: nat, piece: seq<Byte>)
    requires at + |piece| <= |s|
    ensures Patched(s, at, piece)[..at + |piece|] == s[..at] + piece
  {
  }

  lemma MaskedNone(box: Box, keys: Schedule, iv: Iv, s: seq<Byte>)
    requires |keys| >= 2 && s == []
    ensures Masked(box, keys, iv, s) == [] && IvAt(iv, 0) == iv
  {
  }

  /** Sixteen bytes plus a block of key stream. */
  function Mask16(s: seq<Byte>, ks: seq<Byte>): (r: seq<Byte>)
    requires |s| == |ks| == 16
    ensures |r| == 16
  {
    seq(16, j requires 0 <= j < 16 => XorByte(s[j], ks[j]))
  }

  lemma MaskOneMore(s: seq<Byte>, ks: seq<Byte>, j: nat)
    requires |s| == |ks| == 16 && j < 16
    ensures Mask16(s, ks)[..j + 1] == Mask16(s, ks)[..j] + [XorByte(s[j], ks[j])]
  {
  }

  /** The same in the middle of a buffer. */
  function MaskedAt(s: seq<Byte>, at: nat, ks: seq<Byte>): (r: seq<Byte>)
    requires at + 16 <= |s| && |ks| == 16
    ensures |r| == |s|
  {
    Patched(s, at, Mask16(s[at..at + 16], ks))
  }

  /** A stretch with the key stream from counter `iv` on added to it. */
  function Masked(box: Box, keys: Schedule, iv: Iv, s: seq<Byte>): (r: seq<Byte>)
    requires |keys| >= 2
    ensures |r| == |s|
  {
    seq(|s|, k requires 0 <= k < |s| => XorByte(s[k], KeyBlock(box, keys, IvAt(iv, k / 16))[k % 16]))
  }

  lemma {:induction false} MaskedNext(box: Box, keys: Schedule, iv: Iv, s: seq<Byte>, n: nat)
    requires |keys| >= 2 && 16 * n + 16 <= |s|
    ensures Masked(box, keys, iv, s[..16 * n + 16])
         == Masked(box, keys, iv, s[..16 * n])
          + Mask16(s[16 * n..16 * n + 16], KeyBlock(box, keys, IvAt(iv, n)))
  {
    hide XorByte, KeyBlock, IvAt;
    forall k | 16 * n <= k < 16 * n + 16
      ensures k / 16 == n && k % 16 == k - 16 * n
    {
    }
  }

  /** One block, dealt out and masked, is the plain text of that block. */
  lemma BlockIsPlain(box: Box, keys: Schedule, iv: Iv, data: seq<Byte>, at: nat)
    requires |keys| >= 2 && at % 1024 == 0 && at + 1024 <= |data|
    ensures Masked(box, keys, iv, Dealt(data, at)) == Plain(box, keys, iv, data[at..at + 1024])
  {
    hide XorByte, KeyBlock, IvAt, SourceIndex;
    var m, p := Masked(box, keys, iv, Dealt(data, at)), Plain(box, keys, iv, data[at..at + 1024]);
    forall k | 0 <= k < 1024
      ensures m[k] == p[k]
    {
      ShiftedIndex(at, k);
      assert k / 1024 == 0;
      assert p[k] == PlainByte(box, keys, iv, data[at..at + 1024], k);
    }
  }

  lemma SameBlock(s: seq<Byte>, t: seq<Byte>)
    requires |s| == |t| == 16 && BlockOf(s) == BlockOf(t)
    ensures s == t
  {
    assert s == BytesOf(BlockOf(s)) && t == BytesOf(BlockOf(t));
  }

  ghost function FileKeys(box: Box, key: seq<Byte>): (keys: Schedule)
    requires |key| >= 16
    ensures |keys| == 11
  {
    EncSchedule(box, KeyWords(key, 4), 10)
  }

  /** One request: whole blocks of the file from an offset on, streamed as one packet. */
  method Stream(box: Box, key: array<Byte>, offset: nat, packet: array<Byte>) returns (data: seq<Byte>)
    requires key.Length >= 16 && offset < INT_SPAN && packet.Length % 1024 == 0
    ensures data == Plain(box, FileKeys(box, key[..]), IvAt(INITIAL_IV, SeekSteps(offset)), packet[..])
  {
    hide EncSchedule, KeyWords, Plain, IvAt, KeysOf, StreamCtx.Keys, StreamCtx.Counter, SeekSteps;
    var ctx := new StreamCtx(box, offset, key);
    ghost var keys, start := ctx.Keys(), ctx.Counter();
    assert keys == FileKeys(box, key[..]);
    hide FileKeys;
    WholeBlocks(packet.Length);
    ctx.Data(packet, packet.Length);
    data := ctx.data;
    FromNothing(data, Plain(box, keys, start, packet[..packet.Length]));
    assert packet[..packet.Length] == packet[..];
  }

  lemma WholeBlocks(n: nat)
    requires n % 1024 == 0
    ensures n / 1024 * 1024 == n
  {
  }

  lemma FromNothing(d: seq<Byte>, p: seq<Byte>)
    ensures d[..|d|] == [] + p ==> d == p
  {
  }

  /** Two requests for the same file: one from the start, and one from an offset that is a whole
      number of blocks.  What the second one streams is what the first one streams from there on,
      below the offset at which the cast goes wrong. */
  method StreamAndSeek(box: Box, key: array<Byte>, file: array<Byte>, offset: nat)
    returns (whole: seq<Byte>, part: seq<Byte>)
    requires key.Length >= 16 && file.Length % 1024 == 0 && offset % 1024 == 0
    requires offset <= file.Length && offset < INT_SPAN
    ensures |whole| == file.Length && |part| == file.Length - offset
    ensures offset < INT_SPAN / 2 ==> part == whole[offset..]
  {
    hide FileKeys, Plain, IvAt, SeekSteps, PlainByte, SourceIndex, Incremented, Value, Power256;
    ghost var keys, f := FileKeys(box, key[..]), file[..];
    whole := Stream(box, key, 0, file);
    var rest := Suffix(file, offset);
    part := Stream(box, key, offset, rest);
    assert key[..] == old(key[..]);
    PartIsRest(box, keys, f, offset, whole, part);
  }

  lemma PartIsRest(box: Box, keys: Schedule, f: seq<Byte>, offset: nat, whole: seq<Byte>, part: seq<Byte>)
    requires |keys| == 11 && |f| % 1024 == 0 && offset % 1024 == 0 && offset <= |f| && offset < INT_SPAN
    requires whole == Plain(box, keys, IvAt(INITIAL_IV, SeekSteps(0)), f)
    requires part == Plain(box, keys, IvAt(INITIAL_IV, SeekSteps(offset)), f[offset..])
    ensures |whole| == |f| && |part| == |f| - offset
    ensures offset < INT_SPAN / 2 ==> part == whole[offset..]
  {
    StartCounter();
    SeekExactly(INITIAL_IV, offset);
    hide IvAt, SeekSteps, PlainByte, SourceIndex, Incremented, Value, Power256;
    SeekAgrees(box, keys, INITIAL_IV, f, offset);
    hide Plain;
  }

  /** A copy of the file from an offset on */
  method Suffix(file: array<Byte>, offset: nat) returns (rest: array<Byte>)
    requires offset <= file.Length
    ensures fresh(rest) && rest.Length == file.Length - offset && rest[..] == file[..][offset..]
  {
    rest := new Byte[file.Length - offset](i requires 0 <= i < file.Length - offset reads file => file[offset + i]);
  }

  lemma StartCounter()
    ensures IvAt(INITIAL_IV, SeekSteps(0)) == INITIAL_IV
  {
  }
}
