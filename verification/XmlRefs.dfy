/** What the decoder of src/lib/ezxml.c makes of each kind of reference, in any text and with any
    table on which decoding ends. */
module XmlRefs {
  import opened XmlText
  import Utf8

  /** The decoding of a text begins with its first turn. */
  lemma FirstTurn(u: string, turn: Turn, ent: seq<Entity>, mode: Mode)
    requires TableOk(ent) && u != "" && TurnAt(u, ent, mode) == turn
    ensures Decoded(u, ent, mode) == turn.written + Decoded(turn.rest, ent, mode)
  {
    hide TurnAt, Steps, TableOk;
  }

  // ------------------------------------------------------------------ character references

  predicate AllDigits(d: string, base: nat) {
    forall i :: 0 <= i < |d| ==> DigitValue(d[i]) < base
  }

  lemma {:induction false} DigitsRun(u: string, at: nat, d: string, base: nat)
    requires at + |d| < |u| && u[at..at + |d|] == d && AllDigits(d, base) && u[at + |d|] == ';' && base <= 36
    ensures DigitsEnd(u, at, base) == at + |d|
    decreases |d|
  {
    if d != "" {
      assert u[at] == u[at..at + |d|][0] == d[0];
      assert u[at + 1..at + 1 + |d[1..]|] == u[at..at + |d|][1..] == d[1..];
      DigitsRun(u, at + 1, d[1..], base);
    }
  }

  /** Digits are no white space and no sign. */
  lemma DigitPlain(c: char, base: nat)
    requires DigitValue(c) < base <= 16
    ensures !IsSpace(c) && c != '-' && c != '+' && c != 'x' && c != 'X' && c != ';'
  {
  }

  /** `strtol` reads digits up to a ';'. */
  lemma StrtolReads(u: string, at: nat, d: string, base: nat)
    requires base == 10 || base == 16
    requires d != "" && AllDigits(d, base) && at + |d| < |u| && u[at..at + |d|] == d && u[at + |d|] == ';'
    requires Number(d, base) < 0x8000_0000_0000_0000
    ensures Strtol(u, at, base) == Parsed(Number(d, base), at + |d|)
  {
    hide Number, DigitValue;
    assert u[at] == u[at..at + |d|][0] == d[0];
    DigitPlain(d[0], base);
    if |d| > 1 {
      assert u[at + 1] == u[at..at + |d|][1] == d[1];
      DigitPlain(d[1], base);
    }
    DigitsRun(u, at, d, base);
    assert SpaceEnd(u, at) == at;
    assert DigitsStart(u, at, base) == at;
  }

  /** The bytes of a text */
  function AsText(s: seq<Utf8.Octet>): string {
    seq(|s|, i requires 0 <= i < |s| => s[i] as char)
  }

  lemma CharTextIs(n: nat)
    requires n < 0x20_0000
    ensures CharText(n) == AsText(Utf8.Utf8Of(n))
  {
    Utf8.CharBytesAreUtf8(n);
    hide Utf8.CharBytes;
  }

  /** "&#" or "&#x", digits, and ';' */
  function Reference(d: string, hex: bool): string {
    (if hex then "&#x" else "&#") + d + ";"
  }

  lemma ReferenceRead(d: string, hex: bool, rest: string)
    requires d != "" && AllDigits(d, if hex then 16 else 10)
    requires 0 < Number(d, if hex then 16 else 10) < 0x20_0000
    ensures var u := Reference(d, hex) + rest;
      && IsCharRef(u) && RefNumber(u) == Parsed(Number(d, if hex then 16 else 10), |Reference(d, hex)| - 1)
      && u[|Reference(d, hex)|..] == rest
  {
    var u := Reference(d, hex) + rest;
    var at := if hex then 3 else 2;
    hide Number, DigitValue, Strtol;
    assert u[..2] == "&#" && u[at..at + |d|] == d && u[at + |d|] == ';';
    assert u[2] == if hex then 'x' else d[0];
    DigitPlain(d[0], if hex then 16 else 10);
    StrtolReads(u, at, d, if hex then 16 else 10);
  }

  /** A character reference becomes the UTF-8 form (RFC 3629, section 3) of its number, and
      decoding goes on behind it.  The digits may have any length, and hexadecimal ones either
      case. */
  lemma ReferenceDecoded(d: string, hex: bool, rest: string, ent: seq<Entity>, mode: Mode)
    requires TableOk(ent) && mode != Cdata
    requires d != "" && AllDigits(d, if hex then 16 else 10)
    requires 0 < Number(d, if hex then 16 else 10) < 0x20_0000
    ensures Decoded(Reference(d, hex) + rest, ent, mode)
         == AsText(Utf8.Utf8Of(Number(d, if hex then 16 else 10))) + Decoded(rest, ent, mode)
  {
    hide TableOk, Decoded, IsCharRef, RefNumber, Number, Lookup, CharText, AllDigits;
    var u := Reference(d, hex) + rest;
    var n := Number(d, if hex then 16 else 10);
    ReferenceRead(d, hex, rest);
    CharTextIs(n);
    FirstTurn(u, Turn(CharText(n), rest), ent, mode);
  }

  /** The digit for a value */
  function DigitChar(v: nat, upper: bool): char
    requires v < 16
  {
    if v < 10 then (v + '0' as int) as char else if upper then (v - 10 + 'A' as int) as char
    else (v - 10 + 'a' as int) as char
  }

  /** The digits of a number, without leading zeros */
  function Digits(n: nat, base: nat, upper: bool): string
    requires 2 <= base <= 16
  {
    (if n < base then "" else Digits(n / base, base, upper)) + [DigitChar(n % base, upper)]
  }

  lemma DigitCharValue(v: nat, upper: bool)
    requires v < 16
    ensures DigitValue(DigitChar(v, upper)) == v
  {
  }

  lemma {:induction false} DigitsRead(n: nat, base: nat, upper: bool)
    requires 2 <= base <= 16
    ensures var d := Digits(n, base, upper);
      d != "" && AllDigits(d, base) && Number(d, base) == n
    decreases n
  {
    hide DigitChar, DigitValue, Number, Digits;
    var q, r := n / base, n % base;
    DivMod(n, base);
    DigitsStep(n, base, upper, q, r);
    DigitCharValue(r, upper);
    if n < base {
      NumberAppended("", DigitChar(r, upper), base);
      assert "" + [DigitChar(r, upper)] == [DigitChar(r, upper)];
      NoNumber(base);
    } else {
      DigitsRead(q, base, upper);
      NumberAppended(Digits(q, base, upper), DigitChar(r, upper), base);
    }
  }

  lemma DigitsStep(n: nat, base: nat, upper: bool, q: nat, r: nat)
    requires 2 <= base <= 16 && q == n / base && r == n % base
    ensures Digits(n, base, upper) == (if n < base then "" else Digits(q, base, upper)) + [DigitChar(r, upper)]
  {
    hide DigitChar;
  }

  lemma NumberAppended(front: string, c: char, base: nat)
    ensures Number(front + [c], base) == Number(front, base) * base + DigitValue(c)
  {
    hide DigitValue;
    assert (front + [c])[..|front|] == front;
  }

  lemma NoNumber(base: nat)
    ensures Number("", base) * base == 0
  {
  }

  lemma DivMod(n: nat, base: nat)
    requires base >= 2
    ensures n / base * base + n % base == n && n % base < base
    ensures n < base ==> n % base == n
    ensures n >= base ==> n / base < n
  {
  }

  /** So `&#233;` is the character 233, and so is `&#xE9;`: every number below 2^21 but 0, in
      decimal and in hexadecimal digits. */
  lemma NumberDecoded(n: nat, hex: bool, upper: bool, rest: string, ent: seq<Entity>, mode: Mode)
    requires TableOk(ent) && mode != Cdata && 0 < n < 0x20_0000
    ensures Decoded(Reference(Digits(n, if hex then 16 else 10, upper), hex) + rest, ent, mode)
         == AsText(Utf8.Utf8Of(n)) + Decoded(rest, ent, mode)
  {
    hide TableOk, Decoded, Reference, Number, AllDigits, Digits;
    DigitsRead(n, if hex then 16 else 10, upper);
    ReferenceDecoded(Digits(n, if hex then 16 else 10, upper), hex, rest, ent, mode);
  }

  // ---------------------------------------------------------------------- named references

  /** A reference to an entity becomes what its value becomes, in front of what follows. */
  lemma EntityDecoded(ent: seq<Entity>, i: nat, rest: string, mode: Mode)
    requires TableOk(ent) && mode != Cdata && i < |ent| && NameOk(ent[i].name) && ent[i].name[0] != '#'
    requires Named(ent) && Effective(ent, i)
    ensures Decoded("&" + ent[i].name + rest, ent, mode) == Decoded(ent[i].value + rest, ent, mode)
  {
    hide TableOk, Decoded, TurnAt, Named, Effective;
    Replaces(ent, i, rest, mode);
    FirstTurn("&" + ent[i].name + rest, Turn("", ent[i].value + rest), ent, mode);
  }

  /** The five names that every document knows */
  lemma NamesDecoded(rest: string, mode: Mode)
    requires mode != Cdata
    ensures TableOk(DEFAULTS)
    ensures Decoded("&lt;" + rest, DEFAULTS, mode) == "<" + Decoded(rest, DEFAULTS, mode)
    ensures Decoded("&gt;" + rest, DEFAULTS, mode) == ">" + Decoded(rest, DEFAULTS, mode)
    ensures Decoded("&quot;" + rest, DEFAULTS, mode) == "\"" + Decoded(rest, DEFAULTS, mode)
    ensures Decoded("&apos;" + rest, DEFAULTS, mode) == "\'" + Decoded(rest, DEFAULTS, mode)
    ensures Decoded("&amp;" + rest, DEFAULTS, mode) == "&" + Decoded(rest, DEFAULTS, mode)
  {
    DefaultsOk();
    hide TableOk, Decoded;
    assert "&" + DEFAULTS[0].name == "&lt;" && "&" + DEFAULTS[1].name == "&gt;" && "&" + DEFAULTS[2].name == "&quot;";
    assert "&" + DEFAULTS[3].name == "&apos;" && "&" + DEFAULTS[4].name == "&amp;";
    var a := mode == Attribute;
    NamedBack(0, '6', '0', '<', a, rest);
    NamedBack(1, '6', '2', '>', a, rest);
    NamedBack(2, '3', '4', '\"', a, rest);
    NamedBack(3, '3', '9', '\'', a, rest);
    NamedBack(4, '3', '8', '&', a, rest);
  }

  // --------------------------------------------------------------------------- other text

  /** A '&' that begins no reference stays. */
  lemma AmpersandStays(rest: string, ent: seq<Entity>, mode: Mode)
    requires TableOk(ent) && !IsCharRef("&" + rest) && Lookup(ent, rest) == |ent|
    ensures Decoded("&" + rest, ent, mode) == "&" + Decoded(rest, ent, mode)
  {
    hide TableOk, Decoded, IsCharRef, Lookup;
    assert ("&" + rest)[1..] == rest;
    FirstTurn("&" + rest, Turn("&", rest), ent, mode);
  }

  /** Other characters stay, but that white space in an attribute becomes a space. */
  lemma OtherStays(c: char, rest: string, ent: seq<Entity>, mode: Mode)
    requires TableOk(ent) && c != '&'
    ensures Decoded([c] + rest, ent, mode)
         == [if mode == Attribute && (c == ' ' || '\t' <= c <= '\r') then ' ' else c] + Decoded(rest, ent, mode)
  {
    hide TableOk, Decoded, RefNumber, Lookup;
    var u := [c] + rest;
    NumericFront(u);
    assert u[0] == c && u[1..] == rest;
    FirstTurn(u, Turn([if mode == Attribute && (c == ' ' || '\t' <= c <= '\r') then ' ' else c], rest), ent, mode);
  }

  /** A cdata section is left as it is. */
  lemma {:induction false} SectionStays(u: string, ent: seq<Entity>)
    requires TableOk(ent)
    ensures Decoded(u, ent, Cdata) == u
  {
    hide TableOk, RefNumber, Lookup;
    if u != "" {
      FirstTurn(u, Turn([u[0]], u[1..]), ent, Cdata);
      SectionStays(u[1..], ent);
      assert u == [u[0]] + u[1..];
    }
  }

  /** CR LF and CR become LF, and nothing else changes. */
  lemma LineEnds(u: string, w: string)
    requires '\r' !in u
    ensures Lines(u + "\r\n" + w) == u + "\n" + Lines(w)
    ensures (w == "" || w[0] != '\n') ==> Lines(u + "\r" + w) == u + "\n" + Lines(w)
    ensures Lines(u) == u
  {
    Assoc(u, "\r\n", w);
    Assoc(u, "\r", w);
    Assoc(u, "\n", Lines(w));
    LinesPass(u, "\r\n" + w);
    LinesPass(u, "\r" + w);
    LinesPass(u, "");
    assert u + "" == u && ("\r\n" + w)[2..] == w && ("\r" + w)[1..] == w;
    assert Lines("") == "";
  }
}
