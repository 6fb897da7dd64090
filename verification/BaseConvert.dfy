/** The radix conversion between the hexadecimal and the base-62 names of a track: the C code
    of src/lib/despotify.c, which divides the digits in place and fills the destination from
    its end, and its Java twin, which prepends digits and pads afterwards. */
module BaseConvert {
  // ------------------------------------------------------------------------- the numbers

  function Value(digits: seq<nat>, base: nat): nat {
    if digits == [] then 0 else Value(digits[..|digits| - 1], base) * base + digits[|digits| - 1]
  }

  function Pow(base: nat, n: nat): nat {
    if n == 0 then 1 else Pow(base, n - 1) * base
  }

  /** The digits of a number, without leading zeros but for zero itself. */
  function Digits(v: nat, base: nat): (d: seq<nat>)
    requires base >= 2
    ensures d != []
  {
    if v < base then [v] else
      Smaller(v, base);
      Digits(v / base, base) + [v % base]
  }

  lemma Smaller(v: nat, base: nat)
    requires base >= 2 && v >= base
    ensures 0 < v / base < v
  {
    var q, r := v / base, v % base;
    assert v == q * base + r;
    assert q != 0;
    AtLeastTwice(q, base);
  }

  lemma AtLeastTwice(q: nat, base: nat)
    requires base >= 2
    ensures q * base >= q + q
  {
    var more: nat := base - 2;
    assert q * base == q + q + q * more;
  }

  predicate InBase(digits: seq<nat>, base: nat) {
    forall i :: 0 <= i < |digits| ==> digits[i] < base
  }

  lemma {:induction false} DigitsInBase(v: nat, base: nat)
    requires base >= 2
    ensures InBase(Digits(v, base), base)
  {
    if v >= base {
      Smaller(v, base);
      DigitsInBase(v / base, base);
    }
  }

  lemma {:induction false} ValueOfDigits(v: nat, base: nat)
    requires base >= 2
    ensures Value(Digits(v, base), base) == v
  {
    if v < base {
      assert [v][..0] == [];
    } else {
      Smaller(v, base);
      ValueOfDigits(v / base, base);
      var d := Digits(v / base, base) + [v % base];
      assert d[..|d| - 1] == Digits(v / base, base);
    }
  }

  /** A number has at most `n` digits exactly when it is below the power. */
  lemma {:induction false} DigitsFit(v: nat, base: nat, n: nat)
    requires base >= 2 && n >= 1
    ensures |Digits(v, base)| <= n <==> v < Pow(base, n)
    decreases n
  {
    if v < base {
      PowAtLeast(base, n);
    } else if n == 1 {
      Smaller(v, base);
      assert Pow(base, 1) == Pow(base, 0) * base == base;
    } else {
      Smaller(v, base);
      DigitsFit(v / base, base, n - 1);
      QuotientBelow(v, base, Pow(base, n - 1));
    }
  }

  lemma {:induction false} PowAtLeast(base: nat, n: nat)
    requires base >= 2 && n >= 1
    ensures Pow(base, n) >= base
  {
    if n == 1 {
      assert Pow(base, 1) == Pow(base, 0) * base == base;
    } else {
      PowAtLeast(base, n - 1);
      assert Pow(base, n - 1) * base >= Pow(base, n - 1);
    }
  }

  lemma QuotientBelow(v: nat, base: nat, p: nat)
    requires base >= 1
    ensures v / base < p <==> v < p * base
  {
    var q, r := v / base, v % base;
    assert v == q * base + r && r < base;
    if q < p {
      assert (q + 1) * base <= p * base;
    } else {
      assert q * base >= p * base;
    }
  }

  lemma {:induction false} ValueBelow(d: seq<nat>, base: nat)
    requires InBase(d, base)
    ensures Value(d, base) < Pow(base, |d|)
  {
    if d != [] {
      var front := d[..|d| - 1];
      ValueBelow(front, base);
      MultiplesApart(Value(front, base), Pow(base, |front|), base);
    }
  }

  function Zeros(n: nat): (z: seq<nat>)
    ensures |z| == n && forall i :: 0 <= i < n ==> z[i] == 0
  {
    seq(n, _ => 0)
  }

  lemma {:induction false} ValueZeros(n: nat, base: nat)
    ensures Value(Zeros(n), base) == 0
  {
    if n > 0 {
      assert Zeros(n)[..n - 1] == Zeros(n - 1);
      ValueZeros(n - 1, base);
    }
  }

  lemma {:induction false} ValuePadded(n: nat, d: seq<nat>, base: nat)
    ensures Value(Zeros(n) + d, base) == Value(d, base)
  {
    if d == [] {
      assert Zeros(n) + d == Zeros(n);
      ValueZeros(n, base);
    } else {
      var all := Zeros(n) + d;
      assert all[..|all| - 1] == Zeros(n) + d[..|d| - 1];
      ValuePadded(n, d[..|d| - 1], base);
    }
  }

  /** Equally long digit strings of one value are the same. */
  lemma {:induction false} SameDigits(a: seq<nat>, b: seq<nat>, base: nat)
    requires base >= 1 && InBase(a, base) && InBase(b, base) && |a| == |b| && Value(a, base) == Value(b, base)
    ensures a == b
  {
    if a != [] {
      var x, y := a[..|a| - 1], b[..|b| - 1];
      QuotientUnique(Value(x, base), a[|a| - 1], Value(y, base), b[|b| - 1], base);
      SameDigits(x, y, base);
      assert a == x + [a[|a| - 1]] && b == y + [b[|b| - 1]];
    }
  }

  lemma Distribute(a: nat, k: nat, base: nat)
    ensures (a + k) * base == a * base + k * base
  {
  }

  lemma MultiplesApart(a: nat, b: nat, base: nat)
    ensures a < b ==> a * base + base <= b * base
  {
    if a < b {
      Distribute(a, b - a, base);
      Distribute(1, b - a - 1, base);
    }
  }

  lemma QuotientUnique(q: nat, r: nat, q': nat, r': nat, base: nat)
    requires r < base && r' < base && q * base + r == q' * base + r'
    ensures q == q' && r == r'
  {
    MultiplesApart(q, q', base);
    MultiplesApart(q', q, base);
  }

  // ----------------------------------------------------------------------- the characters

  /** The alphabet: 0-9, a-z, A-Z, + and /. */
  function CharOf(d: nat): char
    requires d < 64
  {
    if d < 10 then ('0' as int + d) as char
    else if d < 36 then ('a' as int + (d - 10)) as char
    else if d < 62 then ('A' as int + (d - 36)) as char
    else if d == 62 then '+' else '/'
  }

  predicate InAlphabet(c: char) {
    '0' <= c <= '9' || 'a' <= c <= 'z' || 'A' <= c <= 'Z' || c == '+' || c == '/'
  }

  /** `strchr(alphabet, c) - alphabet` */
  function DigitOf(c: char): (d: nat)
    requires InAlphabet(c)
    ensures d < 64
  {
    if '0' <= c <= '9' then c as int - '0' as int
    else if 'a' <= c <= 'z' then c as int - 'a' as int + 10
    else if 'A' <= c <= 'Z' then c as int - 'A' as int + 36
    else if c == '+' then 62 else 63
  }

  lemma CharDigit(d: nat)
    requires d < 64
    ensures InAlphabet(CharOf(d)) && DigitOf(CharOf(d)) == d
  {
  }

  lemma DigitChar(c: char)
    requires InAlphabet(c)
    ensures CharOf(DigitOf(c)) == c
  {
  }

  const DIGITS := "0123456789"
  const SMALL := "abcdefghijklmnopqrstuvwxyz"
  const CAPITAL := "ABCDEFGHIJKLMNOPQRSTUVWXYZ"

  lemma DigitsInOrder(k: nat)
    requires k < 10
    ensures |DIGITS| == 10 && DIGITS[k] as int == '0' as int + k
  {
    assert k == 0 || k == 1 || k == 2 || k == 3 || k == 4 || k == 5 || k == 6 || k == 7 || k == 8 ||
           k == 9;
  }

  lemma SmallInOrder(k: nat)
    requires k < 26
    ensures |SMALL| == 26 && SMALL[k] as int == 'a' as int + k
  {
    assert k == 0 || k == 1 || k == 2 || k == 3 || k == 4 || k == 5 || k == 6 || k == 7 || k == 8 ||
           k == 9 || k == 10 || k == 11 || k == 12 || k == 13 || k == 14 || k == 15 || k == 16 || k == 17 ||
           k == 18 || k == 19 || k == 20 || k == 21 || k == 22 || k == 23 || k == 24 || k == 25;
  }

  lemma CapitalInOrder(k: nat)
    requires k < 26
    ensures |CAPITAL| == 26 && CAPITAL[k] as int == 'A' as int + k
  {
    assert k == 0 || k == 1 || k == 2 || k == 3 || k == 4 || k == 5 || k == 6 || k == 7 || k == 8 ||
           k == 9 || k == 10 || k == 11 || k == 12 || k == 13 || k == 14 || k == 15 || k == 16 || k == 17 ||
           k == 18 || k == 19 || k == 20 || k == 21 || k == 22 || k == 23 || k == 24 || k == 25;
  }

  predicate InOrder(s: string, first: char, n: nat) {
    |s| == n && forall k :: 0 <= k < n ==> s[k] as int == first as int + k
  }

  lemma AlphabetOf(d: nat, digits: string, small: string, capital: string)
    requires d < 64 && InOrder(digits, '0', 10) && InOrder(small, 'a', 26) && InOrder(capital, 'A', 26)
    ensures var alphabet := digits + small + capital + "+/"; |alphabet| == 64 && CharOf(d) == alphabet[d]
  {
  }

  /** Digit and character are each other's place in the string of the C code. */
  lemma Alphabet(d: nat)
    requires d < 64
    ensures var alphabet := DIGITS + SMALL + CAPITAL + "+/";
      |alphabet| == 64 && CharOf(d) == alphabet[d] && InAlphabet(CharOf(d)) && DigitOf(CharOf(d)) == d
  {
    forall k | 0 <= k < 10
      ensures DIGITS[k] as int == '0' as int + k
    {
      DigitsInOrder(k);
    }
    forall k | 0 <= k < 26
      ensures SMALL[k] as int == 'a' as int + k && CAPITAL[k] as int == 'A' as int + k
    {
      SmallInOrder(k);
      CapitalInOrder(k);
    }
    hide CharOf;
    AlphabetOf(d, DIGITS, SMALL, CAPITAL);
    CharDigit(d);
  }

  predicate Readable(s: string) {
    forall i :: 0 <= i < |s| ==> InAlphabet(s[i])
  }

  function Read(s: string): (d: seq<nat>)
    requires Readable(s)
    ensures |d| == |s| && forall i :: 0 <= i < |s| ==> d[i] == DigitOf(s[i])
  {
    seq(|s|, i requires 0 <= i < |s| => DigitOf(s[i]))
  }

  function Write(d: seq<nat>): (s: string)
    requires InBase(d, 64)
    ensures |s| == |d| && forall i :: 0 <= i < |d| ==> s[i] == CharOf(d[i])
  {
    seq(|d|, i requires 0 <= i < |d| => CharOf(d[i]))
  }

  lemma ReadWrite(d: seq<nat>)
    requires InBase(d, 64)
    ensures Readable(Write(d)) && Read(Write(d)) == d
  {
    forall i | 0 <= i < |d|
      ensures InAlphabet(Write(d)[i]) && DigitOf(Write(d)[i]) == d[i]
    {
      CharDigit(d[i]);
    }
  }

  lemma WriteRead(s: string)
    requires Readable(s)
    ensures Write(Read(s)) == s
  {
    forall i | 0 <= i < |s|
      ensures CharOf(DigitOf(s[i])) == s[i]
    {
      DigitChar(s[i]);
    }
  }

  /** What a conversion to `n` digits gives: the value, in the new base. */
  function Converted(src: string, frombase: nat, tobase: nat, n: nat): (s: string)
    requires Readable(src) && 2 <= tobase <= 64
    ensures Readable(s)
  {
    var d := Digits(Value(Read(src), frombase), tobase);
    DigitsInBase(Value(Read(src), frombase), tobase);
    var s := Write(Zeros(if |d| < n then n - |d| else 0) + d);
    ReadWrite(Zeros(if |d| < n then n - |d| else 0) + d);
    s
  }

  lemma ConvertedDigits(src: string, frombase: nat, tobase: nat, n: nat)
    requires Readable(src) && 2 <= tobase <= 64
    ensures var d := Digits(Value(Read(src), frombase), tobase);
      && InBase(d, tobase)
      && Read(Converted(src, frombase, tobase, n)) == Zeros(if |d| < n then n - |d| else 0) + d
      && |Converted(src, frombase, tobase, n)| == (if |d| < n then n - |d| else 0) + |d|
  {
    hide Value, Digits;
    var v := Value(Read(src), frombase);
    DigitsInBase(v, tobase);
    ReadWrite(Zeros(if |Digits(v, tobase)| < n then n - |Digits(v, tobase)| else 0) + Digits(v, tobase));
  }

  lemma ConvertedValue(src: string, frombase: nat, tobase: nat, n: nat)
    requires Readable(src) && 2 <= tobase <= 64
    ensures Value(Read(Converted(src, frombase, tobase, n)), tobase) == Value(Read(src), frombase)
    ensures InBase(Read(Converted(src, frombase, tobase, n)), tobase)
    ensures n >= 1 ==>
      (|Converted(src, frombase, tobase, n)| == n <==> Value(Read(src), frombase) < Pow(tobase, n))
  {
    hide Value, Digits, Pow, Converted, Read;
    var v := Value(Read(src), frombase);
    var d := Digits(v, tobase);
    ConvertedDigits(src, frombase, tobase, n);
    ValuePadded(if |d| < n then n - |d| else 0, d, tobase);
    ValueOfDigits(v, tobase);
    if n >= 1 {
      DigitsFit(v, tobase, n);
    }
  }

  /** Converting to another base and back gives the same string, whenever the value fits
      the number of digits in between. */
  lemma ThereAndBack(src: string, a: nat, b: nat, n: nat)
    requires 2 <= a <= 64 && 2 <= b <= 64 && n >= 1 && src != []
    requires Readable(src) && InBase(Read(src), a) && Value(Read(src), a) < Pow(b, n)
    ensures |Converted(src, a, b, n)| == n
    ensures Converted(Converted(src, a, b, n), b, a, |src|) == src
  {
    var there := Converted(src, a, b, n);
    var back := Converted(there, b, a, |src|);
    ConvertedValue(src, a, b, n);
    ConvertedValue(there, b, a, |src|);
    ValueBelow(Read(src), a);
    SameDigits(Read(back), Read(src), a);
    WriteRead(back);
    WriteRead(src);
  }

  // ---------------------------------------------------------------- identifiers and URIs

  function Id2Uri(id: string): (uri: string)
    requires Readable(id)
    ensures Readable(uri)
  {
    Converted(id, 16, 62, 22)
  }

  function Uri2Id(uri: string): (id: string)
    requires Readable(uri)
    ensures Readable(id)
  {
    Converted(uri, 62, 16, 32)
  }

  lemma {:induction false} PowSum(base: nat, m: nat, n: nat)
    ensures Pow(base, m + n) == Pow(base, m) * Pow(base, n)
  {
    if n > 0 {
      PowSum(base, m, n - 1);
      Regroup(Pow(base, m), Pow(base, n - 1), base);
    }
  }

  lemma Regroup(a: nat, b: nat, c: nat)
    ensures a * b * c == a * (b * c)
  {
  }

  lemma PowersOfTwo()
    ensures Pow(16, 32) == 0x1_0000_0000_0000_0000_0000_0000_0000_0000 < Pow(62, 22)
  {
    assert Pow(16, 4) == 0x1_0000;
    PowSum(16, 4, 4);
    PowSum(16, 8, 8);
    PowSum(16, 16, 16);
    assert Pow(62, 5) == 916132832;
    PowSum(62, 5, 5);
    PowSum(62, 1, 10);
    PowSum(62, 11, 11);
  }

  /** 32 hexadecimal digits always fit 22 digits to base 62, and come back from them. */
  lemma IdRoundTrip(id: string)
    requires Readable(id) && InBase(Read(id), 16) && |id| == 32
    ensures |Id2Uri(id)| == 22 && Uri2Id(Id2Uri(id)) == id
  {
    PowersOfTwo();
    ValueBelow(Read(id), 16);
    ThereAndBack(id, 16, 62, 22);
  }

  /** 22 digits to base 62 fit 32 hexadecimal digits, and come back from them, exactly when
      their value is below 2^128. */
  lemma UriRoundTrip(uri: string)
    requires Readable(uri) && InBase(Read(uri), 62) && |uri| == 22
    ensures |Uri2Id(uri)| == 32 <==> Value(Read(uri), 62) < 0x1_0000_0000_0000_0000_0000_0000_0000_0000
    ensures |Uri2Id(uri)| == 32 ==> Id2Uri(Uri2Id(uri)) == uri
  {
    PowersOfTwo();
    ConvertedValue(uri, 62, 16, 32);
    if |Uri2Id(uri)| == 32 {
      ThereAndBack(uri, 62, 16, 32);
    }
  }

  /** The first digit counts the power of the base that the digits behind it are short of. */
  lemma {:induction false} ValueFirst(d: nat, rest: seq<nat>, base: nat)
    ensures Value([d] + rest, base) == d * Pow(base, |rest|) + Value(rest, base)
  {
    var all := [d] + rest;
    if rest == [] {
      assert all[..0] == [];
    } else {
      var n := |rest| - 1;
      assert all[..|all| - 1] == [d] + rest[..n];
      ValueFirst(d, rest[..n], base);
      Distribute(d * Pow(base, n), Value(rest[..n], base), base);
      Regroup(d, Pow(base, n), base);
    }
  }

  /** Of all strings of 22 digits to base 62, the URI is the one whose value is that of the
      identifier's hexadecimal digits. */
  lemma IdExactly(id: string, uri: string)
    requires Readable(id) && InBase(Read(id), 16) && |id| == 32
    requires Readable(uri) && InBase(Read(uri), 62) && |uri| == 22
    ensures uri == Id2Uri(id) <==> Value(Read(uri), 62) == Value(Read(id), 16)
  {
    IdRoundTrip(id);
    ConvertedValue(id, 16, 62, 22);
    hide Value, Converted, Uri2Id;
    if Value(Read(uri), 62) == Value(Read(id), 16) {
      SameDigits(Read(uri), Read(Id2Uri(id)), 62);
      WriteRead(uri);
      WriteRead(Id2Uri(id));
    }
  }

  // ----------------------------------------------------------------- the in-place division

  /** One step of the long division: the next digit `d` joins the remainder `r`. */
  lemma DivisionStep(q: nat, r: nat, d: nat, frombase: nat, tobase: nat)
    requires tobase >= 2 && r < tobase
    ensures var t := r * frombase + d;
      (q * tobase + r) * frombase + d == (q * frombase + t / tobase) * tobase + t % tobase
  {
    var t := r * frombase + d;
    Distribute(q * tobase, r, frombase);
    Distribute(q * frombase, t / tobase, tobase);
    Swap(q, tobase, frombase);
  }

  lemma Swap(q: nat, x: nat, y: nat)
    ensures q * x * y == q * y * x
  {
  }

  lemma ValueAppend(digits: seq<nat>, d: nat, base: nat)
    ensures Value(digits + [d], base) == Value(digits, base) * base + d
  {
    assert (digits + [d])[..|digits|] == digits;
  }

  lemma {:induction false} LeadingDigit(digits: seq<nat>, base: nat)
    requires digits != [] && digits[0] > 0 && base >= 1
    ensures Value(digits, base) > 0
  {
    if |digits| == 1 {
      assert digits[..0] == [];
    } else {
      LeadingDigit(digits[..|digits| - 1], base);
      Distribute(1, Value(digits[..|digits| - 1], base) - 1, base);
    }
  }

  lemma SmallQuotient(t: nat, tobase: nat)
    requires tobase >= 2
    ensures t < tobase ==> t / tobase == 0 && t % tobase == t
    ensures t >= tobase ==> t / tobase > 0
  {
    if t >= tobase {
      Smaller(t, tobase);
    }
  }

  /** Append a digit of a quotient; leading zeros are left out. */
  function Appended(quotient: seq<nat>, d: nat): seq<nat> {
    if d > 0 || quotient != [] then quotient + [d] else quotient
  }

  lemma AppendedValue(quotient: seq<nat>, d: nat, base: nat)
    ensures Value(Appended(quotient, d), base) == Value(quotient, base) * base + d
  {
    if d > 0 || quotient != [] {
      ValueAppend(quotient, d, base);
    }
  }

  /** A digit is brought down to a remainder, and the sum divided. */
  datatype Division = Division(quotient: nat, rest: nat)

  function Step(rest: nat, digit: nat, frombase: nat, tobase: nat): Division
    requires tobase > 0
  {
    Division((rest * frombase + digit) / tobase, (rest * frombase + digit) % tobase)
  }

  /** One digit of the long division. */
  method DivideDigit(number: array<nat>, i: nat, start: nat, rest: nat, frombase: nat, tobase: nat)
    returns (newlen: nat, divide: nat)
    requires start <= i < number.Length && tobase >= 2
    modifies number
    ensures divide == Step(rest, old(number[i]), frombase, tobase).rest < tobase && newlen <= i + 1
    ensures number[..newlen] == Appended(old(number[..start]), Step(rest, old(number[i]), frombase, tobase).quotient)
    ensures number[i + 1..] == old(number[i + 1..])
  {
    newlen := start;
    divide := rest * frombase + number[i];
    SmallQuotient(divide, tobase);
    ghost var quotient := number[..start];
    if divide >= tobase {
      number[newlen] := divide / tobase;
      newlen := newlen + 1;
      divide := divide % tobase;
    } else if newlen > 0 {
      number[newlen] := 0;
      newlen := newlen + 1;
    }
  }

  lemma DivisionGoesOn(v: nat, w: nat, q: nat, rest: nat, digit: nat, frombase: nat, tobase: nat, p: nat)
    requires tobase >= 2 && rest < tobase && v == q * tobase + rest && w == v * frombase + digit
    requires p == q * frombase + (rest * frombase + digit) / tobase
    ensures w == p * tobase + (rest * frombase + digit) % tobase
  {
    DivisionStep(q, rest, digit, frombase, tobase);
  }

  /** The first `i` digits have been divided, with this quotient and remainder. */
  ghost predicate Halfway(was: seq<nat>, i: nat, quotient: seq<nat>, rest: nat, frombase: nat, tobase: nat)
    requires i <= |was|
  {
    Value(was[..i], frombase) == Value(quotient, frombase) * tobase + rest
  }

  lemma DigitDivided(was: seq<nat>, i: nat, quotient: seq<nat>, rest: nat, frombase: nat, tobase: nat)
    requires i < |was| && tobase >= 2 && rest < tobase && Halfway(was, i, quotient, rest, frombase, tobase)
    ensures var step := Step(rest, was[i], frombase, tobase);
      Halfway(was, i + 1, Appended(quotient, step.quotient), step.rest, frombase, tobase)
  {
    hide Value, Appended;
    assert was[..i + 1] == was[..i] + [was[i]];
    ValueAppend(was[..i], was[i], frombase);
    var q, t := Value(quotient, frombase), rest * frombase + was[i];
    AppendedValue(quotient, t / tobase, frombase);
    DivisionGoesOn(Value(was[..i], frombase), Value(was[..i + 1], frombase), q, rest, was[i], frombase, tobase,
                   Value(Appended(quotient, t / tobase), frombase));
  }

  /** A quotient without a leading zero stays so. */
  lemma AppendedFirst(quotient: seq<nat>, d: nat)
    requires quotient != [] ==> quotient[0] > 0
    ensures Appended(quotient, d) != [] ==> Appended(quotient, d)[0] > 0
  {
  }

  lemma NothingDivided(was: seq<nat>, quotient: seq<nat>, frombase: nat, tobase: nat)
    requires quotient == []
    ensures Halfway(was, 0, quotient, 0, frombase, tobase)
  {
    assert was[..0] == [];
  }

  /** One round of either program: `number` is divided by the new base in place, and the
      remainder is left over.  The quotient has no leading zeros. */
  method Divide(number: array<nat>, len: nat, frombase: nat, tobase: nat) returns (newlen: nat, divide: nat)
    requires len <= number.Length && frombase >= 1 && tobase >= 2
    modifies number
    ensures newlen <= len && divide < tobase
    ensures Value(old(number[..len]), frombase) == Value(number[..newlen], frombase) * tobase + divide
    ensures newlen == 0 <==> Value(number[..newlen], frombase) == 0
  {
    divide, newlen := 0, 0;
    ghost var was := number[..];
    NothingDivided(was, number[..0], frombase, tobase);
    hide Value;
    for i := 0 to len
      invariant newlen <= i && divide < tobase && number[i..] == was[i..]
      invariant Halfway(was, i, number[..newlen], divide, frombase, tobase)
      invariant newlen > 0 ==> number[0] > 0
    {
      hide Value, Halfway, Step, Appended;
      assert number[i] == was[i];
      DigitDivided(was, i, number[..newlen], divide, frombase, tobase);
      AppendedFirst(number[..newlen], Step(divide, number[i], frombase, tobase).quotient);
      newlen, divide := DivideDigit(number, i, newlen, divide, frombase, tobase);
      assert newlen > 0 ==> number[0] == number[..newlen][0];
    }
    ValueOfNothing(number[..newlen], frombase);
    if newlen > 0 {
      LeadingDigit(number[..newlen], frombase);
    }
  }

  lemma ValueOfNothing(digits: seq<nat>, base: nat)
    ensures digits == [] ==> Value(digits, base) == 0
  {
  }

  // ------------------------------------------------------------------------- the C code

  /** What the digits of `v` are, after one division gave `q` and the last digit `r`. */
  lemma LastDigit(v: nat, q: nat, r: nat, base: nat)
    requires base >= 2 && r < base && v == q * base + r
    ensures Digits(v, base) == if q == 0 then [r] else Digits(q, base) + [r]
    ensures q <= v && (q > 0 ==> q < v)
  {
    SmallQuotient(v, base);
    QuotientUnique(v / base, v % base, q, r, base);
    if v >= base {
      Smaller(v, base);
    }
  }

  /** The digits of the source, at the front of the array. */
  method ReadDigits(src: string, number: array<nat>)
    requires Readable(src) && |src| <= number.Length
    modifies number
    ensures number[..|src|] == Read(src)
  {
    for i := 0 to |src|
      invariant forall k :: 0 <= k < i ==> number[k] == DigitOf(src[k])
    {
      number[i] := DigitOf(src[i]);
    }
  }

  /** What the destination holds when the last digits are there: zeros, those digits, and the
      NUL. */
  predicate Filled(dest: seq<char>, padlen: nat, tail: seq<nat>) {
    && |tail| <= padlen < |dest| && InBase(tail, 64) && dest[padlen] == '\0'
    && (forall k :: 0 <= k < padlen - |tail| ==> dest[k] == '0')
    && (forall k :: 0 <= k < |tail| ==> dest[padlen - |tail| + k] == CharOf(tail[k]))
  }

  lemma DigitFilled(dest: seq<char>, padlen: nat, tail: seq<nat>, digit: nat)
    requires Filled(dest, padlen, tail) && |tail| < padlen && digit < 64
    ensures Filled(dest[padlen - 1 - |tail| := CharOf(digit)], padlen, [digit] + tail)
  {
    var next, at := dest[padlen - 1 - |tail| := CharOf(digit)], padlen - 1 - |tail|;
    forall k | 0 <= k < |tail| + 1
      ensures next[at + k] == CharOf(([digit] + tail)[k])
    {
      if k > 0 {
        assert ([digit] + tail)[k] == tail[k - 1];
      }
    }
  }

  lemma FilledIs(dest: seq<char>, padlen: nat, tail: seq<nat>)
    requires Filled(dest, padlen, tail)
    ensures InBase(Zeros(padlen - |tail|) + tail, 64)
    ensures dest[..padlen + 1] == Write(Zeros(padlen - |tail|) + tail) + ['\0']
  {
  }

  /** memset, and the NUL behind it */
  method Blank(dest: array<char>, padlen: nat)
    requires padlen < dest.Length
    modifies dest
    ensures Filled(dest[..], padlen, [])
    ensures dest[padlen + 1..] == old(dest[padlen + 1..])
  {
    for i := 0 to padlen
      invariant forall k :: 0 <= k < i ==> dest[k] == '0'
      invariant dest[padlen + 1..] == old(dest[padlen + 1..])
    {
      dest[i] := '0';
    }
    dest[padlen] := '\0';
  }

  /** `baseconvert`: the value of the source in exactly `padlen` digits and a NUL.  The array
      of the code has 128 places, and its destination none for a further digit. */
  method Convert(src: string, dest: array<char>, frombase: nat, tobase: nat, padlen: nat)
    requires Readable(src) && |src| <= 128 && 1 <= frombase && 2 <= tobase <= 64
    requires 1 <= padlen < dest.Length && Value(Read(src), frombase) < Pow(tobase, padlen)
    modifies dest
    ensures dest[..padlen + 1] == Converted(src, frombase, tobase, padlen) + ['\0']
    ensures dest[padlen + 1..] == old(dest[padlen + 1..])
  {
    hide Value, Pow, Digits, Filled;
    ghost var all := Digits(Value(Read(src), frombase), tobase);
    DigitsFit(Value(Read(src), frombase), tobase, padlen);
    var number := new nat[128];
    ReadDigits(src, number);
    Blank(dest, padlen);
    var len, at := |src|, padlen - 1;
    ghost var tail: seq<nat> := [];
    assert all + tail == all;
    var more := true;
    while more
      invariant 0 <= len <= 128 && at == padlen - 1 - |tail| && |tail| <= |all|
      invariant more ==> all == Digits(Value(number[..len], frombase), tobase) + tail
      invariant !more ==> all == tail
      invariant Filled(dest[..], padlen, tail) && dest[padlen + 1..] == old(dest[padlen + 1..])
      decreases more, Value(number[..len], frombase)
    {
      hide Value, Digits, Filled;
      ghost var v := Value(number[..len], frombase);
      var divide;
      len, divide := Divide(number, len, frombase, tobase);
      LastDigit(v, Value(number[..len], frombase), divide, tobase);
      DigitFilled(dest[..], padlen, tail, divide);
      dest[at] := CharOf(divide);
      at := at - 1;
      tail := [divide] + tail;
      more := len != 0;
    }
    FilledIs(dest[..], padlen, tail);
    assert dest[..][..padlen + 1] == dest[..padlen + 1];
  }

  /** `despotify_id2uri` */
  method IdToUri(id: string, uri: array<char>)
    requires Readable(id) && InBase(Read(id), 16) && |id| == 32 && uri.Length == 23
    modifies uri
    ensures uri[..] == Id2Uri(id) + ['\0']
  {
    hide Value, Pow;
    PowersOfTwo();
    ValueBelow(Read(id), 16);
    Convert(id, uri, 16, 62, 22);
    assert uri[..] == uri[..23];
  }

  /** `despotify_uri2id` */
  method UriToId(uri: string, id: array<char>)
    requires Readable(uri) && InBase(Read(uri), 62) && |uri| == 22 && id.Length == 33
    requires Value(Read(uri), 62) < 0x1_0000_0000_0000_0000_0000_0000_0000_0000
    modifies id
    ensures id[..] == Uri2Id(uri) + ['\0']
  {
    hide Value, Pow;
    PowersOfTwo();
    Convert(uri, id, 62, 16, 32);
    assert id[..] == id[..33];
  }

  // ---------------------------------------------------------------------- the Java twin

  /** `SpotifyURI.baseConvert`: the digits without padding. */
  method BaseConvert(source: string, frombase: nat, tobase: nat) returns (result: string)
    requires Readable(source) && InBase(Read(source), 62) && 1 <= frombase && 2 <= tobase <= 62
    ensures InBase(Digits(Value(Read(source), frombase), tobase), tobase)
    ensures result == Write(Digits(Value(Read(source), frombase), tobase))
  {
    hide Value, Digits;
    ghost var all := Digits(Value(Read(source), frombase), tobase);
    DigitsInBase(Value(Read(source), frombase), tobase);
    var length: nat := |source|;
    var number := new nat[length];
    ReadDigits(source, number);
    assert number[..length] == Read(source);
    result := "";
    ghost var tail: seq<nat> := [];
    assert all + tail == all;
    var more := true;
    while more
      invariant length <= number.Length && |tail| == |result|
      invariant more ==> all == Digits(Value(number[..length], frombase), tobase) + tail
      invariant !more ==> all == tail
      invariant forall k :: 0 <= k < |tail| ==> tail[k] < tobase && result[k] == CharOf(tail[k])
      decreases more, Value(number[..length], frombase)
    {
      ghost var v := Value(number[..length], frombase);
      var divide;
      length, divide := Divide(number, length, frombase, tobase);
      LastDigit(v, Value(number[..length], frombase), divide, tobase);
      result := [CharOf(divide)] + result;
      tail := [divide] + tail;
      more := length != 0;
    }
  }

  /** The loop that inserts zeros in front until the string is `n` long. */
  method PadTo(s: string, n: nat) returns (r: string)
    ensures r == seq(if |s| < n then n - |s| else 0, _ => '0') + s
  {
    r := s;
    while |r| < n
      invariant |s| <= |r| && r[|r| - |s|..] == s && (|r| == |s| || |r| <= n)
      invariant forall k :: 0 <= k < |r| - |s| ==> r[k] == '0'
    {
      r := ['0'] + r;
    }
  }

  /** `toURI` and `toHex`, for the two pairs of bases: prepending digits and padding in front
      gives what the C code leaves in its destination, whenever that is large enough. */
  method PaddedConvert(source: string, frombase: nat, tobase: nat, n: nat) returns (r: string)
    requires Readable(source) && InBase(Read(source), 62) && 1 <= frombase && 2 <= tobase <= 62
    ensures r == Converted(source, frombase, tobase, n)
  {
    hide Value, Digits;
    var digits := BaseConvert(source, frombase, tobase);
    r := PadTo(digits, n);
  }
}
