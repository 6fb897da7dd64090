/** The conversion from UTF-16 to UTF-8 in src/lib/ezxml.c. */
module Utf8 {
  type Octet = b: int | 0 <= b < 256

  // ------------------------------------------------------------------- bits of a number

  function Pow2(n: nat): (p: nat)
    ensures p > 0
  {
    if n == 0 then 1 else 2 * Pow2(n - 1)
  }

  /** `x << n`; the code never shifts a code point's bytes by a negative number. */
  function Shl(x: nat, n: int): nat {
    if n >= 0 then x * Pow2(n) else 0
  }

  function Shr(x: nat, n: nat): nat {
    if n == 0 then x else Shr(x / 2, n - 1)
  }

  /** `x | y`, bit by bit */
  function Or(x: nat, y: nat): nat {
    if x == 0 then y
    else if y == 0 then x
    else 2 * Or(x / 2, y / 2) + (if x % 2 == 1 || y % 2 == 1 then 1 else 0)
  }

  /** Numbers without a common bit are added. */
  lemma {:induction false} OrAdds(x: nat, y: nat, n: nat)
    requires y < Pow2(n)
    ensures Or(x * Pow2(n), y) == x * Pow2(n) + y
  {
    if n > 0 && x > 0 && y > 0 {
      var half := x * Pow2(n - 1);
      DoubleProduct(x, Pow2(n - 1));
      assert x * Pow2(n) == 2 * half && half > 0;
      OrAdds(x, y / 2, n - 1);
    }
  }

  lemma DoubleProduct(x: nat, p: nat)
    ensures x * (2 * p) == 2 * (x * p) && (x > 0 && p > 0 ==> x * p > 0)
  {
  }

  // ----------------------------------------------------- the bytes of one character, in C

  /** `for (b = 0, d = c; d; d /= 2) b++;` */
  function Bits(c: nat): nat {
    if c == 0 then 0 else 1 + Bits(c / 2)
  }

  lemma {:induction false} BitsMonotone(c: nat, d: nat)
    requires c <= d
    ensures Bits(c) <= Bits(d)
  {
    if c > 0 {
      BitsMonotone(c / 2, d / 2);
    }
  }

  function Head(b: nat, c: nat): Octet {
    Or(Shl(0xFF, 7 - b), Shr(c, 6 * b)) % 256
  }

  function PayloadByte(b: nat, c: nat): Octet {
    Or(0x80, Shr(c, 6 * b) % 64) % 256
  }

  /** `while (b) *s++ = 0x80 | ((c >> (6 * --b)) & 0x3F);` */
  function Payload(b: nat, c: nat): (s: seq<Octet>)
    ensures |s| == b
  {
    if b == 0 then [] else [PayloadByte(b - 1, c)] + Payload(b - 1, c)
  }

  /** `(b - 2) / 5` for the number of bits of `c` */
  function PayloadLength(c: nat): nat
    requires c >= 0x80
  {
    assert Bits(c) >= 2;
    (Bits(c) - 2) / 5
  }

  function CharBytes(c: nat): (s: seq<Octet>)
    ensures s != []
  {
    if c < 0x80 then [c] else [Head(PayloadLength(c), c)] + Payload(PayloadLength(c), c)
  }

  // ------------------------------------------------------------- RFC 3629, section 3

  /** The shortest form of a character below 2^21. */
  function Utf8Of(c: nat): seq<Octet>
    requires c < 0x20_0000
  {
    if c < 0x80 then [c]
    else if c < 0x800 then [0xC0 + c / 0x40, 0x80 + c % 0x40]
    else if c < 0x1_0000 then [0xE0 + c / 0x1000, 0x80 + c / 0x40 % 0x40, 0x80 + c % 0x40]
    else [0xF0 + c / 0x4_0000, 0x80 + c / 0x1000 % 0x40, 0x80 + c / 0x40 % 0x40, 0x80 + c % 0x40]
  }

  lemma {:induction false} BitsOfPower(n: nat)
    ensures Bits(Pow2(n)) == n + 1 && Bits(Pow2(n) - 1) == n
  {
    if n > 0 {
      BitsOfPower(n - 1);
      assert Pow2(n) / 2 == Pow2(n - 1) && (Pow2(n) - 1) / 2 == Pow2(n - 1) - 1;
    }
  }

  lemma Powers()
    ensures Pow2(7) == 0x80 && Pow2(11) == 0x800 && Pow2(16) == 0x1_0000 && Pow2(21) == 0x20_0000
  {
  }

  lemma BitsAtLimits()
    ensures Bits(0x80) == 8 && Bits(0x7FF) == 11 && Bits(0x800) == 12
    ensures Bits(0xFFFF) == 16 && Bits(0x1_0000) == 17 && Bits(0x1F_FFFF) == 21
  {
    hide Bits;
    Powers();
    BitsOfPower(7);
    BitsOfPower(11);
    BitsOfPower(16);
    BitsOfPower(21);
  }

  /** The formula finds the number of payload bytes that the standard has. */
  lemma PayloadLengthIs(c: nat)
    requires 0x80 <= c < 0x20_0000
    ensures PayloadLength(c) == if c < 0x800 then 1 else if c < 0x1_0000 then 2 else 3
  {
    hide Bits, Pow2;
    BitsAtLimits();
    BitsMonotone(if c < 0x800 then 0x80 else if c < 0x1_0000 then 0x800 else 0x1_0000, c);
    BitsMonotone(c, if c < 0x800 then 0x7FF else if c < 0x1_0000 then 0xFFFF else 0x1F_FFFF);
  }

  lemma PowersAre()
    ensures Pow2(0) == 1 && Pow2(4) == 16 && Pow2(5) == 32 && Pow2(6) == 64
    ensures Pow2(12) == 0x1000 && Pow2(18) == 0x4_0000 && Pow2(8) == 256 && Pow2(10) == 1024
  {
  }

  lemma {:induction false} ShrTwice(x: nat, m: nat, n: nat)
    ensures Shr(Shr(x, m), n) == Shr(x, m + n)
  {
    if m > 0 {
      ShrTwice(x / 2, m - 1, n);
    }
  }

  lemma ShrThree(x: nat)
    ensures Shr(x, 3) == x / 8
  {
    assert Shr(x, 3) == Shr(x / 2, 2) == Shr(x / 2 / 2, 1) == x / 2 / 2 / 2;
  }

  lemma ShrSix(x: nat)
    ensures Shr(x, 6) == x / 0x40
  {
    ShrThree(x);
    ShrThree(x / 8);
    ShrTwice(x, 3, 3);
  }

  lemma ShrIs(x: nat)
    ensures Shr(x, 0) == x && Shr(x, 6) == x / 0x40 && Shr(x, 12) == x / 0x1000 && Shr(x, 18) == x / 0x4_0000
  {
    ShrSix(x);
    ShrSix(x / 0x40);
    ShrSix(x / 0x1000);
    ShrTwice(x, 6, 6);
    ShrTwice(x, 12, 6);
  }

  lemma HeadIs(c: nat, b: nat)
    requires (b == 1 && c < 0x800) || (b == 2 && c < 0x1_0000) || (b == 3 && c < 0x20_0000)
    ensures Head(b, c)
         == if b == 1 then 0xC0 + c / 0x40 else if b == 2 then 0xE0 + c / 0x1000 else 0xF0 + c / 0x4_0000
  {
    PowersAre();
    ShrIs(c);
    hide Shr, Or, Pow2;
    OrAdds(0xFF, Shr(c, 6 * b), 7 - b);
  }

  lemma PayloadByteIs(c: nat, b: nat)
    requires b <= 2
    ensures PayloadByte(b, c)
         == 0x80 + (if b == 0 then c else if b == 1 then c / 0x40 else c / 0x1000) % 0x40
  {
    PowersAre();
    ShrIs(c);
    hide Shr, Or, Pow2;
    OrAdds(2, Shr(c, 6 * b) % 64, 6);
  }

  /** The bytes written for a code point are its UTF-8 form. */
  lemma CharBytesAreUtf8(c: nat)
    requires c < 0x20_0000
    ensures CharBytes(c) == Utf8Of(c)
  {
    if c >= 0x80 {
      PayloadLengthIs(c);
      var b := PayloadLength(c);
      HeadIs(c, b);
      PayloadByteIs(c, 0);
      PayloadByteIs(c, 1);
      PayloadByteIs(c, 2);
      hide Head, PayloadByte, PayloadLength;
      assert Payload(1, c) == [PayloadByte(0, c)] + Payload(0, c);
      assert Payload(2, c) == [PayloadByte(1, c)] + Payload(1, c);
      assert Payload(3, c) == [PayloadByte(2, c)] + Payload(2, c);
    }
  }

  // ------------------------------------------------------- RFC 2781, section 2: UTF-16

  /** A code point that is not a surrogate. */
  predicate Scalar(c: nat) {
    c < 0xD800 || 0xE000 <= c < 0x11_0000
  }

  predicate Scalars(cs: seq<nat>) {
    forall i :: 0 <= i < |cs| ==> Scalar(cs[i])
  }

  /** A 16-bit unit in one of the two byte orders. */
  function UnitBytes(w: nat, be: bool): (s: seq<Octet>)
    requires w < 0x1_0000
    ensures |s| == 2
  {
    if be then [w / 256, w % 256] else [w % 256, w / 256]
  }

  function Utf16Of(c: nat, be: bool): (s: seq<Octet>)
    requires Scalar(c)
    ensures |s| == if c < 0x1_0000 then 2 else 4
  {
    if c < 0x1_0000 then UnitBytes(c, be)
    else UnitBytes(0xD800 + (c - 0x1_0000) / 0x400, be) + UnitBytes(0xDC00 + (c - 0x1_0000) % 0x400, be)
  }

  function Encoded16(cs: seq<nat>, be: bool): seq<Octet>
    requires Scalars(cs)
  {
    if cs == [] then [] else Utf16Of(cs[0], be) + Encoded16(cs[1..], be)
  }

  function Encoded8(cs: seq<nat>): seq<Octet>
    requires Scalars(cs)
  {
    if cs == [] then [] else Utf8Of(cs[0]) + Encoded8(cs[1..])
  }

  // -------------------------------------------------------------------------- the loop

  /** The unit at a place of the string, put together with shift and or. */
  function UnitAt(s: seq<Octet>, at: nat, be: bool): (w: nat)
    requires at + 2 <= |s|
  {
    if be then Or(Shl(s[at], 8), s[at + 1]) else Or(Shl(s[at + 1], 8), s[at])
  }

  /** `(((c & 0x3FF) << 10) | (d & 0x3FF)) + 0x10000` */
  function Joined(c: nat, d: nat): nat {
    Or(Shl(c % 0x400, 10), d % 0x400) + 0x1_0000
  }

  /** What the loop writes from a place on. */
  function Converted(s: seq<Octet>, at: nat, be: bool): seq<Octet>
    decreases |s| + 2 - at
  {
    if at + 2 > |s| then []
    else
      var c := UnitAt(s, at, be);
      if !(0xD800 <= c <= 0xDFFF) then CharBytes(c) + Converted(s, at + 2, be)
      else if at + 4 <= |s| then CharBytes(Joined(c, UnitAt(s, at + 2, be))) + Converted(s, at + 4, be)
      else CharBytes(c)
  }

  lemma UnitFound(s: seq<Octet>, at: nat, be: bool, w: nat)
    requires at + 2 <= |s| && w < 0x1_0000 && s[at..at + 2] == UnitBytes(w, be)
    ensures UnitAt(s, at, be) == w
  {
    PowersAre();
    assert s[at] == s[at..at + 2][0] && s[at + 1] == s[at..at + 2][1];
    OrAdds(w / 256, w % 256, 8);
  }

  lemma JoinedParts(q: nat, r: nat)
    requires q < 0x400 && r < 0x400
    ensures Joined(0xD800 + q, 0xDC00 + r) == 0x400 * q + r + 0x1_0000
  {
    PowersAre();
    assert (0xD800 + q) % 0x400 == q && (0xDC00 + r) % 0x400 == r;
    hide Or, Pow2;
    OrAdds(q, r, 10);
  }

  lemma JoinedIs(c: nat)
    requires 0x1_0000 <= c < 0x11_0000
    ensures Joined(0xD800 + (c - 0x1_0000) / 0x400, 0xDC00 + (c - 0x1_0000) % 0x400) == c
  {
    hide Joined;
    JoinedParts((c - 0x1_0000) / 0x400, (c - 0x1_0000) % 0x400);
  }

  /** One character of a well-formed string. */
  lemma CharConverted(s: seq<Octet>, at: nat, next: nat, be: bool, c: nat)
    requires Scalar(c) && next == at + |Utf16Of(c, be)| <= |s| && s[at..next] == Utf16Of(c, be)
    ensures Converted(s, at, be) == Utf8Of(c) + Converted(s, next, be)
  {
    CharBytesAreUtf8(c);
    if c < 0x1_0000 {
      UnitFound(s, at, be, c);
    } else {
      var high, low := 0xD800 + (c - 0x1_0000) / 0x400, 0xDC00 + (c - 0x1_0000) % 0x400;
      assert s[at..at + 2] == s[at..next][..2] && s[at + 2..at + 4] == s[at..next][2..];
      UnitFound(s, at, be, high);
      UnitFound(s, at + 2, be, low);
      JoinedIs(c);
    }
  }

  /** Every well-formed string, in either byte order, becomes the UTF-8 of its characters. */
  lemma {:induction false} StringConverted(s: seq<Octet>, at: nat, be: bool, cs: seq<nat>)
    requires at <= |s| && Scalars(cs) && s[at..] == Encoded16(cs, be)
    ensures Converted(s, at, be) == Encoded8(cs)
    decreases |cs|
  {
    if cs != [] {
      var first := Utf16Of(cs[0], be);
      var next := at + |first|;
      assert |s[at..]| == |first| + |Encoded16(cs[1..], be)|;
      assert s[at..next] == s[at..][..|first|] == first;
      assert s[next..] == s[at..][|first|..] == Encoded16(cs[1..], be);
      hide Converted, Utf16Of, Utf8Of;
      CharConverted(s, at, next, be, cs[0]);
      StringConverted(s, next, be, cs[1..]);
    }
  }

  datatype Option<T> = None | Some(value: T)

  /** The byte order that a first byte marks. */
  function ByteOrder(first: Octet): Option<bool> {
    if first == 0xFE then Some(true) else if first == 0xFF then Some(false) else None
  }

  function Str2Utf8Of(s: seq<Octet>): Option<seq<Octet>>
    requires s != []
  {
    match ByteOrder(s[0])
    case None => None
    case Some(be) => Some(Converted(s, 2, be))
  }

  /** With its byte order mark, a well-formed UTF-16 string is converted to UTF-8, and a
      string that does not begin like one is left alone. */
  lemma Utf16Converted(cs: seq<nat>, be: bool)
    requires Scalars(cs)
    ensures Str2Utf8Of(UnitBytes(0xFEFF, be) + Encoded16(cs, be)) == Some(Encoded8(cs))
  {
    var s := UnitBytes(0xFEFF, be) + Encoded16(cs, be);
    assert s[2..] == Encoded16(cs, be);
    StringConverted(s, 2, be, cs);
  }

  // ------------------------------------------------------------------------------ the code

  /** The payload of a character, highest bits first. */
  method PutPayload(u: seq<Octet>, length: nat, c: nat) returns (r: seq<Octet>)
    ensures r == u + Payload(length, c)
  {
    var b: nat := length;
    r := u;
    while b != 0
      invariant r + Payload(b, c) == u + Payload(length, c)
    {
      hide PayloadByte;
      b := b - 1;
      Assoc(r, [PayloadByte(b, c)], Payload(b, c));
      r := r + [PayloadByte(b, c)];
    }
    Assoc(r, [], []);
  }

  /** Append one character to the output. */
  method PutChar(u: seq<Octet>, c: nat) returns (r: seq<Octet>)
    ensures r == u + CharBytes(c)
  {
    if c < 0x80 {
      return u + [c];
    }
    var b: nat, d := 0, c;
    while d != 0
      invariant Bits(c) == b + Bits(d)
    {
      d := d / 2;
      b := b + 1;
    }
    AtLeastTwo(c);
    b := (b - 2) / 5;
    hide Head, Payload;
    r := PutPayload(u + [Head(b, c)], b, c);
    Assoc(u, [Head(b, c)], Payload(b, c));
  }

  lemma AtLeastTwo(c: nat)
    requires c >= 0x80
    ensures Bits(c) >= 2
  {
  }

  /** The code point at a place, and where the next one is. */
  method NextChar(s: seq<Octet>, start: nat, be: bool) returns (c: nat, sl: nat)
    requires start + 2 <= |s|
    ensures Converted(s, start, be) == CharBytes(c) + Converted(s, sl, be) && sl > start
  {
    hide UnitAt, Joined, CharBytes;
    sl := start;
    c := UnitAt(s, sl, be);
    if 0xD800 <= c <= 0xDFFF {
      sl := sl + 2;
      if sl < |s| - 1 {
        c := Joined(c, UnitAt(s, sl, be));
      }
    }
    sl := sl + 2;
    assert CharBytes(c) + [] == CharBytes(c);
  }

  lemma Assoc(a: seq<Octet>, b: seq<Octet>, c: seq<Octet>)
    ensures a + (b + c) == a + b + c && a + [] == a
  {
  }

  /** `ezxml_str2utf8` */
  method Str2Utf8(s: seq<Octet>) returns (r: Option<seq<Octet>>)
    requires s != []
    ensures r == Str2Utf8Of(s)
  {
    if s[0] != 0xFE && s[0] != 0xFF {
      return None;
    }
    var be := s[0] == 0xFE;
    var u: seq<Octet> := [];
    var sl := 2;
    ghost var all := Converted(s, 2, be);
    assert [] + all == all;
    while sl < |s| - 1
      invariant 2 <= sl && u + Converted(s, sl, be) == all
    {
      hide Converted, CharBytes;
      var c, next := NextChar(s, sl, be);
      Assoc(u, CharBytes(c), Converted(s, next, be));
      u := PutChar(u, c);
      sl := next;
    }
    Assoc(u, [], []);
    r := Some(u);
  }
}
