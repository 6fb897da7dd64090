/** Machine words and bytes of the ciphers and digests, with the packings that src/lib/shn.c
    (little-endian) and src/lib/aes.c, src/lib/sha1.c, src/lib/packet.c (big-endian) use.

    Both are wrapped, and their operators have names, so that a proof about the movement of
    data can leave the bits alone. */
module Words {

  datatype Word = Word(bits: bv32)
  datatype Byte = Byte(bits: bv8)

  function Xor(a: Word, b: Word): Word {
    Word(a.bits ^ b.bits)
  }

  function XorByte(a: Byte, b: Byte): Byte {
    Byte(a.bits ^ b.bits)
  }

  lemma XorByteTwice(a: Byte, k: Byte)
    ensures XorByte(XorByte(a, k), k) == a
  {
  }

  lemma XorTwice(a: Word, k: Word)
    ensures Xor(Xor(a, k), k) == a
  {
  }

  function Byte0(w: Word): Byte {
    Byte((w.bits & 0xFF) as bv8)
  }

  function Byte1(w: Word): Byte {
    Byte(((w.bits >> 8) & 0xFF) as bv8)
  }

  function Byte2(w: Word): Byte {
    Byte(((w.bits >> 16) & 0xFF) as bv8)
  }

  function Byte3(w: Word): Byte {
    Byte((w.bits >> 24) as bv8)
  }

  /** Byte `lane` of `w`, counted from the least significant end. */
  function ByteOf(w: Word, lane: nat): Byte
    requires lane < 4
  {
    match lane
    case 0 => Byte0(w)
    case 1 => Byte1(w)
    case 2 => Byte2(w)
    case _ => Byte3(w)
  }

  /** The byte `b` moved to position `lane`, zero elsewhere. */
  function AtLane(b: Byte, lane: nat): Word
    requires lane < 4
  {
    match lane
    case 0 => Word(b.bits as bv32)
    case 1 => Word((b.bits as bv32) << 8)
    case 2 => Word((b.bits as bv32) << 16)
    case _ => Word((b.bits as bv32) << 24)
  }

  /** Four bytes, least significant first, as one word. */
  function LittleEndian(b0: Byte, b1: Byte, b2: Byte, b3: Byte): Word {
    Word(((b3.bits as bv32) << 24) | ((b2.bits as bv32) << 16) | ((b1.bits as bv32) << 8) | (b0.bits as bv32))
  }

  /** Four bytes, most significant first, as one word. */
  function BigEndian(b3: Byte, b2: Byte, b1: Byte, b0: Byte): Word {
    LittleEndian(b0, b1, b2, b3)
  }

  /** The four bytes of a word, least significant first. */
  function LittleBytes(w: Word): (s: seq<Byte>)
    ensures |s| == 4
  {
    [ByteOf(w, 0), ByteOf(w, 1), ByteOf(w, 2), ByteOf(w, 3)]
  }

  /** The four bytes of a word, most significant first. */
  function BigBytes(w: Word): (s: seq<Byte>)
    ensures |s| == 4
  {
    [ByteOf(w, 3), ByteOf(w, 2), ByteOf(w, 1), ByteOf(w, 0)]
  }

  function XorSeq(a: seq<Word>, b: seq<Word>): (c: seq<Word>)
    requires |a| == |b|
    ensures |c| == |a|
    ensures forall i :: 0 <= i < |a| ==> c[i] == Xor(a[i], b[i])
  {
    seq(|a|, i requires 0 <= i < |a| => Xor(a[i], b[i]))
  }

  // ----------------------------------------------------------------- packing byte by byte

  lemma PackFirst(b0: Byte)
    ensures Xor(Word(0), AtLane(b0, 0)) == LittleEndian(b0, Byte(0), Byte(0), Byte(0))
  {
  }

  lemma PackSecond(b0: Byte, b1: Byte)
    ensures Xor(LittleEndian(b0, Byte(0), Byte(0), Byte(0)), AtLane(b1, 1)) == LittleEndian(b0, b1, Byte(0), Byte(0))
  {
  }

  lemma PackThird(b0: Byte, b1: Byte, b2: Byte)
    ensures Xor(LittleEndian(b0, b1, Byte(0), Byte(0)), AtLane(b2, 2)) == LittleEndian(b0, b1, b2, Byte(0))
  {
  }

  lemma PackFourth(b0: Byte, b1: Byte, b2: Byte, b3: Byte)
    ensures Xor(LittleEndian(b0, b1, b2, Byte(0)), AtLane(b3, 3)) == LittleEndian(b0, b1, b2, b3)
  {
  }

  /** Four bytes XORed one by one into an empty word pack it. */
  lemma PackedByXor(b0: Byte, b1: Byte, b2: Byte, b3: Byte)
    ensures Xor(Xor(Xor(Xor(Word(0), AtLane(b0, 0)), AtLane(b1, 1)), AtLane(b2, 2)), AtLane(b3, 3))
         == LittleEndian(b0, b1, b2, b3)
  {
    hide Xor, LittleEndian, AtLane;
    PackFirst(b0);
    PackSecond(b0, b1);
    PackThird(b0, b1, b2);
    PackFourth(b0, b1, b2, b3);
  }

  lemma Unpack(b0: Byte, b1: Byte, b2: Byte, b3: Byte)
    ensures Byte0(LittleEndian(b0, b1, b2, b3)) == b0
    ensures Byte1(LittleEndian(b0, b1, b2, b3)) == b1
    ensures Byte2(LittleEndian(b0, b1, b2, b3)) == b2
    ensures Byte3(LittleEndian(b0, b1, b2, b3)) == b3
  {
  }

  lemma Repack(w: Word)
    ensures LittleEndian(Byte0(w), Byte1(w), Byte2(w), Byte3(w)) == w
  {
  }

  lemma Xor0(a: Word, b: Word)
    ensures Byte0(Xor(a, b)) == XorByte(Byte0(a), Byte0(b))
  {
  }

  lemma Xor1(a: Word, b: Word)
    ensures Byte1(Xor(a, b)) == XorByte(Byte1(a), Byte1(b))
  {
  }

  lemma Xor2(a: Word, b: Word)
    ensures Byte2(Xor(a, b)) == XorByte(Byte2(a), Byte2(b))
  {
  }

  lemma Xor3(a: Word, b: Word)
    ensures Byte3(Xor(a, b)) == XorByte(Byte3(a), Byte3(b))
  {
  }

  /** Exclusive or acts on each byte of a packed word. */
  lemma XorPacked(b0: Byte, b1: Byte, b2: Byte, b3: Byte, k: Word)
    ensures LittleBytes(Xor(LittleEndian(b0, b1, b2, b3), k))
         == [XorByte(b0, ByteOf(k, 0)), XorByte(b1, ByteOf(k, 1)),
             XorByte(b2, ByteOf(k, 2)), XorByte(b3, ByteOf(k, 3))]
  {
    hide Xor, XorByte, LittleEndian, Byte0, Byte1, Byte2, Byte3;
    var w := LittleEndian(b0, b1, b2, b3);
    Unpack(b0, b1, b2, b3);
    Xor0(w, k);
    Xor1(w, k);
    Xor2(w, k);
    Xor3(w, k);
  }

  // ------------------------------------------------------------------- stretches of a buffer

  lemma SliceOfSlice<T>(s: seq<T>, lo: nat, hi: nat, i: nat, j: nat)
    requires i <= j <= hi - lo && lo <= hi <= |s|
    ensures s[lo..hi][i..j] == s[lo + i..lo + j]
  {
    forall k | 0 <= k < j - i
      ensures s[lo..hi][i..j][k] == s[lo + i..lo + j][k]
    {
      assert s[lo..hi][i..j][k] == s[lo..hi][i + k] == s[lo + i + k];
    }
  }

  /** `s` with the elements from `at` on overwritten by `piece`. */
  function Patched<T>(s: seq<T>, at: nat, piece: seq<T>): (r: seq<T>)
    requires at + |piece| <= |s|
    ensures |r| == |s|
  {
    s[..at] + piece + s[at + |piece|..]
  }

  lemma PatchNothing<T>(s: seq<T>, at: nat)
    requires at <= |s|
    ensures Patched(s, at, []) == s
  {
  }

  lemma PatchBeyond<T>(s: seq<T>, at: nat, piece: seq<T>, lo: nat, hi: nat)
    requires at + |piece| <= lo <= hi <= |s|
    ensures Patched(s, at, piece)[lo..hi] == s[lo..hi]
  {
  }

  /** What lies beyond the patch is still the part from `i` to `j` of the old stretch. */
  lemma PatchLeaves<T>(s: seq<T>, at: nat, piece: seq<T>, stretch: seq<T>, i: nat, j: nat)
    requires |piece| == i <= j <= |stretch| && at + |stretch| <= |s|
    requires stretch == s[at..at + |stretch|]
    ensures Patched(s, at, piece)[at + i..at + j] == stretch[i..j]
  {
    PatchBeyond(s, at, piece, at + i, at + j);
    SliceOfSlice(s, at, at + |stretch|, i, j);
  }

  lemma PatchOneMore<T>(s: seq<T>, at: nat, piece: seq<T>, x: T)
    requires at + |piece| < |s|
    ensures Patched(s, at, piece)[at + |piece|] == s[at + |piece|]
    ensures Patched(s, at, piece)[at + |piece| := x] == Patched(s, at, piece + [x])
  {
  }

  lemma PatchMore<T>(s: seq<T>, at: nat, a: seq<T>, b: seq<T>)
    requires at + |a| + |b| <= |s|
    ensures Patched(Patched(s, at, a), at + |a|, b) == Patched(s, at, a + b)
  {
  }
}
