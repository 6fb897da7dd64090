/** The SHA-1 code of src/lib/sha1.c. */
module Sha1 {
  import opened Words
  import opened Sha1Spec

  // ------------------------------------------------------------------------- one block

  /** What a run over one block starts from: registers and message words (for the proof). */
  datatype Start = Start(regs: Regs, words: seq<Word>) {
    predicate Valid() {
      |words| == 16
    }

    function At(t: nat): Regs
      requires Valid()
    {
      RoundsTo(regs, words, t)
    }
  }

  /** The workspace before round `t`: slot `j` holds the newest schedule word whose index
      is `j` modulo 16; words that are still to be used for the first time wait in the
      order in which memcpy left them, little end first. */
  ghost predicate Rolling(l: seq<Word>, h: Start, t: nat)
    requires h.Valid()
  {
    && |l| == 16
    && (forall k :: 0 <= k < t && t - 16 <= k ==> l[k % 16] == Schedule(h.words, k))
    && (forall k :: t <= k < 16 ==> Swapped(l[k]) == h.words[k])
  }

  /** Byte order reversed: rol(w, 24) & 0xFF00FF00 | rol(w, 8) & 0x00FF00FF. */
  function Swapped(w: Word): Word {
    Word((((w.bits << 24) | (w.bits >> 8)) & 0xFF00_FF00) | (((w.bits << 8) | (w.bits >> 24)) & 0x00FF_00FF))
  }

  lemma SwappedIsBigEndian(b0: Byte, b1: Byte, b2: Byte, b3: Byte)
    ensures Swapped(LittleEndian(b0, b1, b2, b3)) == BigEndian(b0, b1, b2, b3)
  {
  }

  method Blk0(l: array<Word>, i: nat, ghost h: Start) returns (w: Word)
    requires h.Valid() && i < 16 && l.Length == 16 && Rolling(l[..], h, i)
    modifies l
    ensures w == Schedule(h.words, i) && Rolling(l[..], h, i + 1)
  {
    hide Swapped;
    l[i] := Swapped(l[i]);
    w := l[i];
  }

  /** The four slots that a new schedule word is made from. */
  lemma SlotsOf(l: seq<Word>, i: nat, h: Start)
    requires h.Valid() && i >= 16 && Rolling(l, h, i)
    ensures l[(i + 13) % 16] == Schedule(h.words, i - 3) && l[(i + 8) % 16] == Schedule(h.words, i - 8)
    ensures l[(i + 2) % 16] == Schedule(h.words, i - 14) && l[i % 16] == Schedule(h.words, i - 16)
  {
    hide Swapped, Schedule;
    SlotOf(i);
  }

  lemma NewWord(l: seq<Word>, i: nat, h: Start, w: Word)
    requires h.Valid() && i >= 16 && Rolling(l, h, i) && w == Schedule(h.words, i)
    ensures Rolling(l[i % 16 := w], h, i + 1)
  {
    hide Swapped, Schedule;
    assert forall k :: 0 <= k < i && i + 1 - 16 <= k ==> k % 16 != i % 16;
  }

  method Blk(l: array<Word>, i: nat, ghost h: Start) returns (w: Word)
    requires h.Valid() && i >= 16 && l.Length == 16 && Rolling(l[..], h, i)
    modifies l
    ensures w == Schedule(h.words, i) && Rolling(l[..], h, i + 1)
  {
    hide Swapped, Rotl1, Xor, Rolling;
    SlotsOf(l[..], i, h);
    ghost var was := l[..];
    l[i % 16] := Rotl1(Xor(Xor(Xor(l[(i + 13) % 16], l[(i + 8) % 16]), l[(i + 2) % 16]), l[i % 16]));
    w := l[i % 16];
    NewWord(was, i, h, w);
    assert l[..] == was[i % 16 := w];
  }

  lemma SlotOf(i: nat)
    requires i >= 16
    ensures (i + 13) % 16 == (i - 3) % 16 && (i + 8) % 16 == (i - 8) % 16 && (i + 2) % 16 == (i - 14) % 16
    ensures i % 16 == (i - 16) % 16
  {
    SameSlot(i - 16);
    SameSlot(i - 3);
    SameSlot(i - 8);
    SameSlot(i - 14);
  }

  /** Sixteen places on is the same slot. */
  lemma SameSlot(k: nat)
    ensures (k + 16) % 16 == k % 16
  {
    var q, r := k / 16, k % 16;
    assert k == 16 * q + r && k + 16 == 16 * (q + 1) + r;
  }

  method R0(l: array<Word>, v: Word, w: Word, x: Word, y: Word, z: Word, i: nat, ghost h: Start)
    returns (w': Word, z': Word)
    requires h.Valid() && 0 <= i < 16 && l.Length == 16 && Rolling(l[..], h, i)
    requires h.At(i) == Regs(v, w, x, y, z)
    modifies l
    ensures Rolling(l[..], h, i + 1) && h.At(i + 1) == Regs(z', v, w', x, y)
  {
    hide MacroSum, Sum5, Rotl5, Rotl30, Mux, Ch, Parity, Maj, Swapped, Schedule;
    var b := Blk0(l, i, h);
    z' := MacroSum(z, Mux(w, x, y), b, Word(0x5A827999), Rotl5(v));
    w' := Rotl30(w);
    SumOrder(z, Mux(w, x, y), b, Word(0x5A827999), Rotl5(v));
    ChAsMux(w, x, y);
  }

  method R1(l: array<Word>, v: Word, w: Word, x: Word, y: Word, z: Word, i: nat, ghost h: Start)
    returns (w': Word, z': Word)
    requires h.Valid() && 16 <= i < 20 && l.Length == 16 && Rolling(l[..], h, i)
    requires h.At(i) == Regs(v, w, x, y, z)
    modifies l
    ensures Rolling(l[..], h, i + 1) && h.At(i + 1) == Regs(z', v, w', x, y)
  {
    hide MacroSum, Sum5, Rotl5, Rotl30, Mux, Ch, Parity, Maj, Swapped, Schedule;
    var b := Blk(l, i, h);
    z' := MacroSum(z, Mux(w, x, y), b, Word(0x5A827999), Rotl5(v));
    w' := Rotl30(w);
    SumOrder(z, Mux(w, x, y), b, Word(0x5A827999), Rotl5(v));
    ChAsMux(w, x, y);
  }

  method R2(l: array<Word>, v: Word, w: Word, x: Word, y: Word, z: Word, i: nat, ghost h: Start)
    returns (w': Word, z': Word)
    requires h.Valid() && 20 <= i < 40 && l.Length == 16 && Rolling(l[..], h, i)
    requires h.At(i) == Regs(v, w, x, y, z)
    modifies l
    ensures Rolling(l[..], h, i + 1) && h.At(i + 1) == Regs(z', v, w', x, y)
  {
    hide MacroSum, Sum5, Rotl5, Rotl30, Ch, Parity, Maj, Swapped, Schedule;
    var b := Blk(l, i, h);
    z' := MacroSum(z, Parity(w, x, y), b, Word(0x6ED9EBA1), Rotl5(v));
    w' := Rotl30(w);
    SumOrder(z, Parity(w, x, y), b, Word(0x6ED9EBA1), Rotl5(v));
  }

  method R3(l: array<Word>, v: Word, w: Word, x: Word, y: Word, z: Word, i: nat, ghost h: Start)
    returns (w': Word, z': Word)
    requires h.Valid() && 40 <= i < 60 && l.Length == 16 && Rolling(l[..], h, i)
    requires h.At(i) == Regs(v, w, x, y, z)
    modifies l
    ensures Rolling(l[..], h, i + 1) && h.At(i + 1) == Regs(z', v, w', x, y)
  {
    hide MacroSum, Sum5, Rotl5, Rotl30, Majority, Ch, Parity, Maj, Swapped, Schedule;
    var b := Blk(l, i, h);
    z' := MacroSum(z, Majority(w, x, y), b, Word(0x8F1BBCDC), Rotl5(v));
    w' := Rotl30(w);
    SumOrder(z, Majority(w, x, y), b, Word(0x8F1BBCDC), Rotl5(v));
    MajAsOr(w, x, y);
  }

  method R4(l: array<Word>, v: Word, w: Word, x: Word, y: Word, z: Word, i: nat, ghost h: Start)
    returns (w': Word, z': Word)
    requires h.Valid() && 60 <= i < 80 && l.Length == 16 && Rolling(l[..], h, i)
    requires h.At(i) == Regs(v, w, x, y, z)
    modifies l
    ensures Rolling(l[..], h, i + 1) && h.At(i + 1) == Regs(z', v, w', x, y)
  {
    hide MacroSum, Sum5, Rotl5, Rotl30, Ch, Parity, Maj, Swapped, Schedule;
    var b := Blk(l, i, h);
    z' := MacroSum(z, Parity(w, x, y), b, Word(0xCA62C1D6), Rotl5(v));
    w' := Rotl30(w);
    SumOrder(z, Parity(w, x, y), b, Word(0xCA62C1D6), Rotl5(v));
  }

  method DoR01(l: array<Word>, a0: Word, b0: Word, c0: Word, d0: Word, e0: Word, ghost h: Start)
    returns (a: Word, b: Word, c: Word, d: Word, e: Word)
    requires h.Valid() && l.Length == 16 && Rolling(l[..], h, 0) && h.At(0) == Regs(a0, b0, c0, d0, e0)
    modifies l
    ensures Rolling(l[..], h, 20) && h.At(20) == Regs(a, b, c, d, e)
  {
    hide Rolling, RoundsTo;
    a, b, c, d, e := a0, b0, c0, d0, e0;
    b, e := R0(l, a, b, c, d, e, 0, h);
    a, d := R0(l, e, a, b, c, d, 1, h);
    e, c := R0(l, d, e, a, b, c, 2, h);
    d, b := R0(l, c, d, e, a, b, 3, h);
    c, a := R0(l, b, c, d, e, a, 4, h);
    b, e := R0(l, a, b, c, d, e, 5, h);
    a, d := R0(l, e, a, b, c, d, 6, h);
    e, c := R0(l, d, e, a, b, c, 7, h);
    d, b := R0(l, c, d, e, a, b, 8, h);
    c, a := R0(l, b, c, d, e, a, 9, h);
    b, e := R0(l, a, b, c, d, e, 10, h);
    a, d := R0(l, e, a, b, c, d, 11, h);
    e, c := R0(l, d, e, a, b, c, 12, h);
    d, b := R0(l, c, d, e, a, b, 13, h);
    c, a := R0(l, b, c, d, e, a, 14, h);
    b, e := R0(l, a, b, c, d, e, 15, h);
    a, d := R1(l, e, a, b, c, d, 16, h);
    e, c := R1(l, d, e, a, b, c, 17, h);
    d, b := R1(l, c, d, e, a, b, 18, h);
    c, a := R1(l, b, c, d, e, a, 19, h);
  }

  method DoR2(l: array<Word>, a0: Word, b0: Word, c0: Word, d0: Word, e0: Word, ghost h: Start)
    returns (a: Word, b: Word, c: Word, d: Word, e: Word)
    requires h.Valid() && l.Length == 16 && Rolling(l[..], h, 20) && h.At(20) == Regs(a0, b0, c0, d0, e0)
    modifies l
    ensures Rolling(l[..], h, 40) && h.At(40) == Regs(a, b, c, d, e)
  {
    hide Rolling, RoundsTo;
    a, b, c, d, e := a0, b0, c0, d0, e0;
    b, e := R2(l, a, b, c, d, e, 20, h);
    a, d := R2(l, e, a, b, c, d, 21, h);
    e, c := R2(l, d, e, a, b, c, 22, h);
    d, b := R2(l, c, d, e, a, b, 23, h);
    c, a := R2(l, b, c, d, e, a, 24, h);
    b, e := R2(l, a, b, c, d, e, 25, h);
    a, d := R2(l, e, a, b, c, d, 26, h);
    e, c := R2(l, d, e, a, b, c, 27, h);
    d, b := R2(l, c, d, e, a, b, 28, h);
    c, a := R2(l, b, c, d, e, a, 29, h);
    b, e := R2(l, a, b, c, d, e, 30, h);
    a, d := R2(l, e, a, b, c, d, 31, h);
    e, c := R2(l, d, e, a, b, c, 32, h);
    d, b := R2(l, c, d, e, a, b, 33, h);
    c, a := R2(l, b, c, d, e, a, 34, h);
    b, e := R2(l, a, b, c, d, e, 35, h);
    a, d := R2(l, e, a, b, c, d, 36, h);
    e, c := R2(l, d, e, a, b, c, 37, h);
    d, b := R2(l, c, d, e, a, b, 38, h);
    c, a := R2(l, b, c, d, e, a, 39, h);
  }

  method DoR3(l: array<Word>, a0: Word, b0: Word, c0: Word, d0: Word, e0: Word, ghost h: Start)
    returns (a: Word, b: Word, c: Word, d: Word, e: Word)
    requires h.Valid() && l.Length == 16 && Rolling(l[..], h, 40) && h.At(40) == Regs(a0, b0, c0, d0, e0)
    modifies l
    ensures Rolling(l[..], h, 60) && h.At(60) == Regs(a, b, c, d, e)
  {
    hide Rolling, RoundsTo;
    a, b, c, d, e := a0, b0, c0, d0, e0;
    b, e := R3(l, a, b, c, d, e, 40, h);
    a, d := R3(l, e, a, b, c, d, 41, h);
    e, c := R3(l, d, e, a, b, c, 42, h);
    d, b := R3(l, c, d, e, a, b, 43, h);
    c, a := R3(l, b, c, d, e, a, 44, h);
    b, e := R3(l, a, b, c, d, e, 45, h);
    a, d := R3(l, e, a, b, c, d, 46, h);
    e, c := R3(l, d, e, a, b, c, 47, h);
    d, b := R3(l, c, d, e, a, b, 48, h);
    c, a := R3(l, b, c, d, e, a, 49, h);
    b, e := R3(l, a, b, c, d, e, 50, h);
    a, d := R3(l, e, a, b, c, d, 51, h);
    e, c := R3(l, d, e, a, b, c, 52, h);
    d, b := R3(l, c, d, e, a, b, 53, h);
    c, a := R3(l, b, c, d, e, a, 54, h);
    b, e := R3(l, a, b, c, d, e, 55, h);
    a, d := R3(l, e, a, b, c, d, 56, h);
    e, c := R3(l, d, e, a, b, c, 57, h);
    d, b := R3(l, c, d, e, a, b, 58, h);
    c, a := R3(l, b, c, d, e, a, 59, h);
  }

  method DoR4(l: array<Word>, a0: Word, b0: Word, c0: Word, d0: Word, e0: Word, ghost h: Start)
    returns (a: Word, b: Word, c: Word, d: Word, e: Word)
    requires h.Valid() && l.Length == 16 && Rolling(l[..], h, 60) && h.At(60) == Regs(a0, b0, c0, d0, e0)
    modifies l
    ensures Rolling(l[..], h, 80) && h.At(80) == Regs(a, b, c, d, e)
  {
    hide Rolling, RoundsTo;
    a, b, c, d, e := a0, b0, c0, d0, e0;
    b, e := R4(l, a, b, c, d, e, 60, h);
    a, d := R4(l, e, a, b, c, d, 61, h);
    e, c := R4(l, d, e, a, b, c, 62, h);
    d, b := R4(l, c, d, e, a, b, 63, h);
    c, a := R4(l, b, c, d, e, a, 64, h);
    b, e := R4(l, a, b, c, d, e, 65, h);
    a, d := R4(l, e, a, b, c, d, 66, h);
    e, c := R4(l, d, e, a, b, c, 67, h);
    d, b := R4(l, c, d, e, a, b, 68, h);
    c, a := R4(l, b, c, d, e, a, 69, h);
    b, e := R4(l, a, b, c, d, e, 70, h);
    a, d := R4(l, e, a, b, c, d, 71, h);
    e, c := R4(l, d, e, a, b, c, 72, h);
    d, b := R4(l, c, d, e, a, b, 73, h);
    c, a := R4(l, b, c, d, e, a, 74, h);
    b, e := R4(l, a, b, c, d, e, 75, h);
    a, d := R4(l, e, a, b, c, d, 76, h);
    e, c := R4(l, d, e, a, b, c, 77, h);
    d, b := R4(l, c, d, e, a, b, 78, h);
    c, a := R4(l, b, c, d, e, a, 79, h);
  }

  // Transform and the streaming interface

  /** memcpy into the union: the words of the block, little end first. */
  method LoadWorkspace(buffer: array<Byte>, at: nat) returns (l: array<Word>)
    requires at + 64 <= buffer.Length
    ensures fresh(l) && l.Length == 16
    ensures forall h: Start :: h.Valid() && h.words == BlockWords(buffer[at..at + 64]) ==> Rolling(l[..], h, 0)
  {
    hide LittleEndian, Swapped;
    l := new Word[16];
    for i := 0 to 16
      invariant forall k :: 0 <= k < i ==> Swapped(l[k]) == BlockWords(buffer[at..at + 64])[k]
    {
      var o := at + 4 * i;
      SwappedIsBigEndian(buffer[o], buffer[o + 1], buffer[o + 2], buffer[o + 3]);
      l[i] := LittleEndian(buffer[o], buffer[o + 1], buffer[o + 2], buffer[o + 3]);
    }
  }

  function RegsOf(state: seq<Word>): Regs
    requires |state| == 5
  {
    Regs(state[0], state[1], state[2], state[3], state[4])
  }

  /** Hash a single block: the rolling workspace computes what the full schedule defines. */
  method Transform(state: array<Word>, buffer: array<Byte>, at: nat)
    requires state.Length == 5 && at + 64 <= buffer.Length
    modifies state
    ensures RegsOf(state[..]) == Compress(old(RegsOf(state[..])), buffer[at..at + 64])
  {
    hide Add, Rolling, RoundsTo, BlockWords;
    var l := LoadWorkspace(buffer, at);
    ghost var h := Start(RegsOf(state[..]), BlockWords(buffer[at..at + 64]));
    var a, b, c, d, e := state[0], state[1], state[2], state[3], state[4];
    Begins(h);
    a, b, c, d, e := DoR01(l, a, b, c, d, e, h);
    a, b, c, d, e := DoR2(l, a, b, c, d, e, h);
    a, b, c, d, e := DoR3(l, a, b, c, d, e, h);
    a, b, c, d, e := DoR4(l, a, b, c, d, e, h);
    state[0] := Add(state[0], a);
    state[1] := Add(state[1], b);
    state[2] := Add(state[2], c);
    state[3] := Add(state[3], d);
    state[4] := Add(state[4], e);
  }

  lemma Begins(h: Start)
    requires h.Valid()
    ensures h.At(0) == h.regs
  {
  }

  // ------------------------------------------------------------------------- the counters

  /** `count[0] += len << 3` */
  function LowCount(count0: nat, len: nat): nat {
    (count0 + len * 8 % 0x1_0000_0000) % 0x1_0000_0000
  }

  /** `if ((count[0] += len << 3) < j) count[1] += (len >> 29) + 1;` */
  function HighCount(count0: nat, count1: nat, len: nat): nat {
    if LowCount(count0, len) < count0 then (count1 + len / 0x2000_0000 + 1) % 0x1_0000_0000 else count1
  }

  /** `LowCount` is the low half of the sum, and the comparison sees its carry. */
  lemma LowCarry(count0: nat, len: nat) returns (q: nat, carry: nat)
    requires count0 < 0x1_0000_0000
    ensures q == len / 0x2000_0000 && carry == if LowCount(count0, len) < count0 then 1 else 0
    ensures count0 + 8 * len == (q + carry) * 0x1_0000_0000 + LowCount(count0, len)
  {
    q := len / 0x2000_0000;
    var shifted := 8 * (len - q * 0x2000_0000);
    assert 8 * len == q * 0x1_0000_0000 + shifted && shifted < 0x1_0000_0000;
    Remainder32(8 * len, q, shifted);
    carry := if count0 + shifted < 0x1_0000_0000 then 0 else 1;
    Remainder32(count0 + shifted, carry, count0 + shifted - carry * 0x1_0000_0000);
  }

  lemma Remainder32(x: nat, q: nat, r: nat)
    requires x == q * 0x1_0000_0000 + r && r < 0x1_0000_0000
    ensures x % 0x1_0000_0000 == r && x / 0x1_0000_0000 == q
  {
  }

  lemma Remainder64(x: nat, q: nat, r: nat)
    requires x == q * 0x1_0000_0000_0000_0000 + r && r < 0x1_0000_0000_0000_0000
    ensures x % 0x1_0000_0000_0000_0000 == r
  {
  }

  /** The two counters of any call hold the right 64-bit count exactly when the call is
      shorter than 2^29 bytes or the low counter overflows. */
  lemma CountersExactly(count0: nat, count1: nat, len: nat)
    requires count0 < 0x1_0000_0000 && count1 < 0x1_0000_0000 && len < 0x1_0000_0000
    ensures HighCount(count0, count1, len) * 0x1_0000_0000 + LowCount(count0, len)
         == (count1 * 0x1_0000_0000 + count0 + 8 * len) % 0x1_0000_0000_0000_0000
       <==> len < 0x2000_0000 || LowCount(count0, len) < count0
  {
    var low := LowCount(count0, len);
    var q, carry := LowCarry(count0, len);
    var sum := count1 + q + carry;
    var over := if sum < 0x1_0000_0000 then 0 else 1;
    var high := sum - over * 0x1_0000_0000;
    Remainder32(sum, over, high);
    HighIs(count0, count1, len, q, carry, high);
    hide LowCount, HighCount;
    Remainder64(count1 * 0x1_0000_0000 + count0 + 8 * len, over, high * 0x1_0000_0000 + low);
  }

  lemma HighIs(count0: nat, count1: nat, len: nat, q: nat, carry: nat, high: nat)
    requires count0 < 0x1_0000_0000 && count1 < 0x1_0000_0000 && len < 0x1_0000_0000
    requires q == len / 0x2000_0000 && carry == if LowCount(count0, len) < count0 then 1 else 0
    requires high == (count1 + q + carry) % 0x1_0000_0000
    ensures HighCount(count0, count1, len) == high <==> len < 0x2000_0000 || LowCount(count0, len) < count0
  {
    hide LowCount;
    assert q < 8;
    if carry == 0 && q >= 1 {
      assert high == count1 + q || high == count1 + q - 0x1_0000_0000;
    }
  }

  ghost predicate CountsBytes(count0: nat, count1: nat, n: nat) {
    count0 == 8 * n % 0x1_0000_0000 && count1 == 8 * n / 0x1_0000_0000 % 0x1_0000_0000
  }

  lemma Next32(q: nat)
    ensures (q + 1) % 0x1_0000_0000 == (q % 0x1_0000_0000 + 1) % 0x1_0000_0000
  {
  }

  lemma HighUp(count0: nat, q: nat, len: nat, carry: nat)
    requires len < 0x2000_0000 && carry == if LowCount(count0, len) < count0 then 1 else 0
    ensures HighCount(count0, q % 0x1_0000_0000, len) == (q + carry) % 0x1_0000_0000
  {
    hide LowCount;
    Next32(q);
  }

  lemma CountUp(count0: nat, count1: nat, n: nat, len: nat)
    requires CountsBytes(count0, count1, n) && len < 0x2000_0000
    ensures CountsBytes(LowCount(count0, len), HighCount(count0, count1, len), n + len)
  {
    hide LowCount, HighCount;
    var q := 8 * n / 0x1_0000_0000;
    Remainder32(8 * n, q, count0);
    var q', carry := LowCarry(count0, len);
    HighUp(count0, q, len, carry);
    LowBelow(count0, len);
    Remainder32(8 * (n + len), q + carry, LowCount(count0, len));
  }

  lemma LowBelow(count0: nat, len: nat)
    ensures LowCount(count0, len) < 0x1_0000_0000
  {
  }

  lemma Index64(n: nat, q: nat, r: nat, y: nat)
    requires n == 64 * q + r && r < 64 && n >= 64 * y
    ensures 8 * (n - 64 * y) / 8 % 64 == r
  {
    assert 8 * (n - 64 * y) / 8 == 64 * (q - y) + r;
  }

  lemma CountIndex(count0: nat, count1: nat, n: nat)
    requires CountsBytes(count0, count1, n)
    ensures count0 / 8 % 64 == n % 64
  {
    var q := 8 * n / 0x1_0000_0000;
    Remainder32(8 * n, q, count0);
    var blocks := q * 0x80_0000;
    assert count0 == 8 * (n - 64 * blocks);
    Index64(n, n / 64, n % 64, blocks);
  }

  // --------------------------------------------------------------------- the context

  /** The part of a message that has gone through the compression function. */
  function Whole(m: seq<Byte>): (w: seq<Byte>)
    ensures |w| % 64 == 0
  {
    m[..|m| / 64 * 64]
  }

  function Rest(m: seq<Byte>): (r: seq<Byte>)
    ensures |r| == |m| % 64 && Whole(m) + r == m
  {
    m[|m| / 64 * 64..]
  }

  lemma SplitMessage(w: seq<Byte>, r: seq<Byte>)
    requires |w| % 64 == 0 && |r| < 64
    ensures Whole(w + r) == w && Rest(w + r) == r
  {
    assert (|w| + |r|) / 64 * 64 == |w|;
  }

  lemma FoldBlock(h: Regs, w: seq<Byte>, b: seq<Byte>)
    requires |w| % 64 == 0 && |b| == 64
    ensures Fold(h, w + b) == Compress(Fold(h, w), b)
  {
    hide Compress;
    FoldConcat(h, w, b);
    assert b[..64] == b && Fold(Compress(Fold(h, w), b), b[64..]) == Compress(Fold(h, w), b);
  }

  class Context {
    const state: array<Word>
    const buffer: array<Byte>
    var count0: nat
    var count1: nat

    ghost predicate Shape() {
      state.Length == 5 && buffer.Length == 64
    }

    /** The context has taken in the message `m`. */
    ghost predicate Holds(m: seq<Byte>)
      reads this, state, buffer
    {
      && Shape() && CountsBytes(count0, count1, |m|)
      && RegsOf(state[..]) == Fold(INITIAL, Whole(m))
      && buffer[..|m| % 64] == Rest(m)
    }

    constructor ()
      ensures Shape() && fresh(state) && fresh(buffer)
    {
      state, buffer := new Word[5], new Byte[64];
      count0, count1 := 0, 0;
    }

    method Init()
      requires Shape()
      modifies this, state
      ensures Holds([])
    {
      state[0], state[1], state[2] := Word(0x67452301), Word(0xEFCDAB89), Word(0x98BADCFE);
      state[3], state[4] := Word(0x10325476), Word(0xC3D2E1F0);
      count0, count1 := 0, 0;
    }

    /** Copy `n` bytes into the buffer at `at`. */
    method Fill(at: nat, data: array<Byte>, from: nat, n: nat)
      requires Shape() && at + n <= 64 && from + n <= data.Length && data != buffer
      modifies buffer
      ensures buffer[..at] == old(buffer[..at]) && buffer[at..at + n] == data[from..from + n]
    {
      forall k | 0 <= k < n {
        buffer[at + k] := data[from + k];
      }
    }

    /** Compress the buffer, completed by the first bytes of the data. */
    method CompleteBuffer(data: array<Byte>, j: nat, ghost m: seq<Byte>) returns (i: nat)
      requires Shape() && data != buffer && j == |m| % 64 && 64 - j <= data.Length
      requires RegsOf(state[..]) == Fold(INITIAL, Whole(m)) && buffer[..j] == Rest(m)
      modifies state, buffer
      ensures i == 64 - j && (|m| + i) % 64 == 0
      ensures RegsOf(state[..]) == Fold(INITIAL, m + data[..i])
    {
      hide Compress, Fold, Whole, Rest;
      i := 64 - j;
      Fill(j, data, 0, i);
      assert buffer[0..0 + 64] == buffer[..j] + buffer[j..j + i];
      assert data[0..0 + i] == data[..i];
      FoldBlock(INITIAL, Whole(m), Rest(m) + data[..i]);
      assert Whole(m) + (Rest(m) + data[..i]) == m + data[..i];
      Transform(state, buffer, 0);
    }

    /** Compress the buffer and then every whole block of the data; what is left over goes
        to the front of the buffer. */
    method UpdateWhole(data: array<Byte>, len: nat, j: nat, ghost m: seq<Byte>) returns (i: nat)
      requires Shape() && data != buffer && j == |m| % 64 && len <= data.Length && 64 <= j + len
      requires RegsOf(state[..]) == Fold(INITIAL, Whole(m)) && buffer[..j] == Rest(m)
      modifies state, buffer
      ensures i <= len && len - i < 64 && (|m| + i) % 64 == 0
      ensures RegsOf(state[..]) == Fold(INITIAL, m + data[..i])
    {
      hide Compress, Fold, Whole, Rest, RegsOf;
      i := CompleteBuffer(data, j, m);
      while i + 63 < len
        invariant 0 < i <= len && (|m| + i) % 64 == 0
        invariant RegsOf(state[..]) == Fold(INITIAL, m + data[..i])
      {
        FoldBlock(INITIAL, m + data[..i], data[i..i + 64]);
        assert m + data[..i] + data[i..i + 64] == m + data[..i + 64];
        Transform(state, data, i);
        i := i + 64;
      }
    }

    /** Take in `len` bytes.  A call of 2^29 bytes or more can lose counts, see
        `CountersExactly`. */
    method Update(data: array<Byte>, len: nat, ghost m: seq<Byte>)
      requires Holds(m) && len <= data.Length && len < 0x2000_0000 && data != buffer
      modifies this, state, buffer
      ensures Holds(m + data[..len])
    {
      hide Compress, Fold, CountsBytes, LowCount, HighCount, Whole, Rest, RegsOf;
      CountUp(count0, count1, |m|, len);
      CountIndex(count0, count1, |m|);
      var j := count0 / 8 % 64;
      var i := 0;
      count0, count1 := LowCount(count0, len), HighCount(count0, count1, len);
      assert |m + data[..len]| == |m| + len;
      if j + len > 63 {
        i := UpdateWhole(data, len, j, m);
        SplitMessage(m + data[..i], data[i..len]);
        assert m + data[..i] + data[i..len] == m + data[..len];
        Fill(0, data, i, len - i);
        assert buffer[..len - i] == buffer[0..0 + (len - i)];
        assert (|m| + len) % 64 == len - i;
      } else {
        SplitMessage(Whole(m), Rest(m) + data[..len]);
        assert Whole(m) + (Rest(m) + data[..len]) == m + data[..len];
        Fill(j, data, 0, len);
        assert buffer[..j + len] == buffer[..j] + buffer[j..j + len];
        assert data[0..0 + len] == data[..len];
        assert (|m| + len) % 64 == j + len;
      }
    }

    /** `(count[0] & 504) != 448`, and the zero byte it asks for, until 8 bytes are missing
        to a whole block. */
    method PadZeros(ghost m: seq<Byte>, ghost n: nat)
      requires Holds(m) && |m| == n + 1
      modifies this, state, buffer
      ensures Holds(m + Zeros(ZerosFor(n)))
    {
      hide Holds, CountsBytes;
      ghost var k := 0;
      assert m + Zeros(0) == m;
      IndexOf(m);
      while count0 / 8 % 64 * 8 != 448
        invariant k <= ZerosFor(n) && Holds(m + Zeros(k))
        invariant count0 / 8 % 64 == (n + 1 + k) % 64
        decreases ZerosFor(n) - k
      {
        hide Holds, CountsBytes;
        PadOne(m + Zeros(k));
        assert m + Zeros(k + 1) == m + Zeros(k) + [Byte(0)];
        k := k + 1;
        IndexOf(m + Zeros(k));
      }
      OnlyOnce(n, k);
    }

    method PadOne(ghost m: seq<Byte>)
      requires Holds(m)
      modifies this, state, buffer
      ensures Holds(m + [Byte(0)])
    {
      hide Fold, RegsOf, Whole, Rest, CountsBytes;
      var zero := new Byte[1][Byte(0)];
      assert zero[..1] == [Byte(0)];
      Update(zero, 1, m);
    }

    lemma IndexOf(m: seq<Byte>)
      requires Holds(m)
      ensures Shape() && count0 / 8 % 64 == |m| % 64
    {
      CountIndex(count0, count1, |m|);
    }

    /** The count in 8 bytes, most significant first. */
    method CountField(ghost m: seq<Byte>) returns (f: array<Byte>)
      requires Holds(m)
      ensures fresh(f) && f.Length == 8 && f[..8] == CountBytes(8 * |m|)
    {
      hide Fold, RegsOf, Whole, Rest;
      f := new Byte[8];
      for i := 0 to 8
        invariant forall k :: 0 <= k < i ==> f[k] == CountByte(8 * |m|, k)
      {
        var word := if i >= 4 then count0 else count1;
        f[i] := Byte((word / [0x100_0000, 0x1_0000, 0x100, 1][i % 4] % 256) as bv8);
      }
    }

    method PutDigest(digest: array<Byte>)
      requires Shape() && digest.Length >= 20 && digest != buffer
      modifies digest
      ensures digest[..] == DigestBytes(RegsOf(state[..])) + old(digest[20..])
    {
      hide ByteOf;
      ghost var h := RegsOf(state[..]);
      for i := 0 to 20
        invariant forall k :: 0 <= k < i ==> digest[k] == DigestBytes(h)[k]
        invariant digest[20..] == old(digest[20..])
      {
        digest[i] := ByteOf(state[i / 4], 3 - i % 4);
      }
    }

    /** Add padding and give the message digest: the fold over the padded message. */
    method Final(digest: array?<Byte>, ghost m: seq<Byte>)
      requires Holds(m) && digest != buffer && (digest != null ==> digest.Length >= 20)
      modifies this, state, buffer, digest
      ensures digest != null ==> digest[..] == Sha1Of(m) + old(digest[20..])
    {
      hide Fold, Compress, CountByte;
      var finalcount := CountField(m);
      var marker := new Byte[1][Byte(0x80)];
      assert marker[..1] == [Byte(0x80)];
      Update(marker, 1, m);
      PadZeros(m + [Byte(0x80)], |m|);
      assert finalcount[..8] == CountBytes(8 * |m|);
      Update(finalcount, 8, m + [Byte(0x80)] + Zeros(ZerosFor(|m|)));
      assert Whole(Padded(m)) == Padded(m);
      if digest != null {
        PutDigest(digest);
      }
    }
  }

  lemma OnlyOnce(n: nat, k: nat)
    requires k <= ZerosFor(n) && (n + 1 + k) % 64 == 56
    ensures k == ZerosFor(n)
  {
  }
}
