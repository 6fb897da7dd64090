/** Bytes as a number in base 256, and the loop that counts it up: the counter blocks of
    src/clients/gateway/gw-stream.c and the nonces of src/lib/packet.c. */
module ByteCounter {
  import opened Words

  function Succ(b: Byte): Byte {
    Byte(b.bits + 1)
  }

  function Num(b: Byte): (n: nat)
    ensures n < 256
  {
    b.bits as nat
  }

  /** The carry loop: add one from the last byte on, and go left while a byte becomes 0. */
  function Incremented(s: seq<Byte>): (r: seq<Byte>)
    ensures |r| == |s|
  {
    if s == [] then [] else
      var front, last := s[..|s| - 1], Succ(s[|s| - 1]);
      if last != Byte(0) then front + [last] else Incremented(front) + [last]
  }

  /** The number that the bytes write in base 256, most significant first. */
  function Value(s: seq<Byte>): nat {
    if s == [] then 0 else Value(s[..|s| - 1]) * 256 + Num(s[|s| - 1])
  }

  function Power256(n: nat): (p: nat)
    ensures p > 0
  {
    if n == 0 then 1 else Power256(n - 1) * 256
  }

  lemma {:induction false} ValueBound(s: seq<Byte>)
    ensures Value(s) < Power256(|s|)
  {
    if s != [] {
      ValueBound(s[..|s| - 1]);
    }
  }

  lemma SuccNum(b: Byte)
    ensures Num(Succ(b)) == (Num(b) + 1) % 256
    ensures Succ(b) == Byte(0) <==> Num(b) == 255
  {
  }

  /** The carry loop adds one and wraps round to zero (appendix B.1 of NIST SP 800-38A). */
  lemma {:induction false} IncrementAddsOne(s: seq<Byte>)
    ensures Value(Incremented(s)) == if Value(s) + 1 == Power256(|s|) then 0 else Value(s) + 1
  {
    if s != [] {
      var front, last := s[..|s| - 1], s[|s| - 1];
      IncrementAddsOne(front);
      hide Num, Succ, Incremented, Value, Power256;
      assert s == front + [last];
      IncrementedValue(front, last);
      ValueBound(front);
      ValueAppended(front, last);
      PowerNext(|front|);
      CarryFull(Value(front), Num(last), Power256(|front|));
    }
  }

  lemma IncrementedValue(front: seq<Byte>, last: Byte)
    ensures Value(Incremented(front + [last]))
         == if Num(last) < 255 then Value(front) * 256 + Num(last) + 1 else Value(Incremented(front)) * 256
  {
    hide Num, Succ, Incremented, Value;
    SuccNum(last);
    IncrementedAt(front, last);
    ValueAppended(if Num(last) < 255 then front else Incremented(front), Succ(last));
  }

  lemma IncrementedAt(front: seq<Byte>, last: Byte)
    ensures Incremented(front + [last]) == (if Succ(last) != Byte(0) then front else Incremented(front)) + [Succ(last)]
  {
    assert (front + [last])[..|front|] == front;
  }

  lemma PowerNext(n: nat)
    ensures Power256(n + 1) == Power256(n) * 256
  {
  }

  lemma ValueAppended(front: seq<Byte>, b: Byte)
    ensures Value(front + [b]) == Value(front) * 256 + Num(b)
  {
    hide Num;
    assert (front + [b])[..|front|] == front;
  }

  /** A number is the largest of its width when its front and its last digit are. */
  lemma CarryFull(v: nat, n: nat, p: nat)
    requires v < p && n < 256
    ensures v * 256 + n + 1 == p * 256 <==> v + 1 == p && n == 255
  {
  }

  lemma {:induction false} ValueInjective(s: seq<Byte>, t: seq<Byte>)
    requires |s| == |t| && Value(s) == Value(t)
    ensures s == t
  {
    if s != [] {
      ValueInjective(s[..|s| - 1], t[..|t| - 1]);
      NumInjective(s[|s| - 1], t[|t| - 1]);
      assert s == s[..|s| - 1] + [s[|s| - 1]] && t == t[..|t| - 1] + [t[|t| - 1]];
    }
  }

  lemma NumInjective(a: Byte, b: Byte)
    ensures Num(a) == Num(b) ==> a == b
  {
  }

  // ------------------------------------------------------------------------ remainders

  lemma ModSucc(a: nat, m: nat)
    requires m > 0
    ensures (a + 1) % m == if a % m + 1 == m then 0 else a % m + 1
  {
    var q := a / m;
    assert a == q * m + a % m;
    if a % m + 1 == m {
      assert a + 1 == (q + 1) * m;
      ModUnique(a + 1, q + 1, m, 0);
    } else {
      ModUnique(a + 1, q, m, a % m + 1);
    }
  }

  lemma {:induction false} MultipleAtLeast(k: nat, m: nat)
    requires k > 0
    ensures k * m >= m
  {
    if k > 1 {
      MultipleAtLeast(k - 1, m);
      assert k * m == (k - 1) * m + m;
    }
  }

  lemma MultipleApart(k: int, m: int)
    requires k != 0 && m > 0
    ensures k * m >= m || k * m <= -m
  {
    if k > 0 {
      MultipleAtLeast(k, m);
    } else {
      MultipleAtLeast(-k, m);
      assert k * m == -(-k * m);
    }
  }

  lemma ModUnique(x: nat, q: nat, m: nat, r: nat)
    requires r < m && x == q * m + r
    ensures x % m == r && x / m == q
  {
    var k := x / m - q;
    assert x == (x / m) * m + x % m;
    assert k * m == r - x % m;
    if k != 0 {
      MultipleApart(k, m);
    }
  }
}
