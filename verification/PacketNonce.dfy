/** The counters of src/lib/packet.c, and what goes over the wire, in numbers. */
module PacketNonce {
  import opened ByteCounter
  import opened PacketLayer
  import opened Shannon
  import opened Words

  // ------------------------------------------------------------------------ the counter

  /** Adding one to a word carries from byte to byte. */
  lemma CarryBytes(w: Word)
    ensures var v := NextIv(w);
      && Byte0(v) == Succ(Byte0(w))
      && Byte1(v) == (if Byte0(v) == Byte(0) then Succ(Byte1(w)) else Byte1(w))
      && Byte2(v) == (if Byte0(v) == Byte(0) && Byte1(v) == Byte(0) then Succ(Byte2(w)) else Byte2(w))
      && Byte3(v) == (if Byte0(v) == Byte(0) && Byte1(v) == Byte(0) && Byte2(v) == Byte(0) then Succ(Byte3(w))
                      else Byte3(w))
  {
  }

  lemma Carried(a: Byte, b: Byte, c: Byte, d: Byte)
    ensures Incremented([a, b, c, d])
         == if Succ(d) != Byte(0) then [a, b, c, Succ(d)]
            else if Succ(c) != Byte(0) then [a, b, Succ(c), Succ(d)]
            else if Succ(b) != Byte(0) then [a, Succ(b), Succ(c), Succ(d)]
            else [Succ(a), Succ(b), Succ(c), Succ(d)]
  {
    hide Succ, Incremented;
    assert [a, b, c, d] == [a, b, c] + [d] && [a, b, c] == [a, b] + [c] && [a, b] == [a] + [b] && [a] == [] + [a];
    IncrementedAt([a, b, c], d);
    IncrementedAt([a, b], c);
    IncrementedAt([a], b);
    IncrementedAt([], a);
    NothingIncremented();
  }

  lemma NothingIncremented()
    ensures Incremented([]) == []
  {
  }

  lemma NextBytes(w: Word)
    ensures BigBytes(NextIv(w)) == Incremented(BigBytes(w))
  {
    hide Succ, Incremented, Byte0, Byte1, Byte2, Byte3, NextIv;
    CarryBytes(w);
    Carried(Byte3(w), Byte2(w), Byte1(w), Byte0(w));
  }

  /** The number that four bytes write. */
  lemma FourBytes(s: seq<Byte>)
    requires |s| == 4
    ensures Value(s) == 0x100_0000 * Num(s[0]) + 0x1_0000 * Num(s[1]) + 0x100 * Num(s[2]) + Num(s[3])
    ensures Power256(4) == 0x1_0000_0000
  {
    assert s == [] + [s[0]] + [s[1]] + [s[2]] + [s[3]];
    hide Num, Value;
    ValueAppended([], s[0]);
    ValueAppended([] + [s[0]], s[1]);
    ValueAppended([] + [s[0]] + [s[1]], s[2]);
    ValueAppended([] + [s[0]] + [s[1]] + [s[2]], s[3]);
    NothingValued();
    FourPlaces();
  }

  lemma NothingValued()
    ensures Value([]) == 0
  {
  }

  lemma FourPlaces()
    ensures Power256(4) == 0x1_0000_0000
  {
    assert Power256(2) == 0x1_0000;
    PowerNext(2);
    PowerNext(3);
  }

  /** The counter behind `n` packets, as it goes into the nonce, is `n` modulo 2^32. */
  lemma {:induction false} NonceCounts(n: nat)
    ensures Value(BigBytes(IvAfter(n))) == n % 0x1_0000_0000
  {
    hide Incremented, Value, Power256, BigBytes, NextIv;
    if n > 0 {
      NonceCounts(n - 1);
      NextBytes(IvAfter(n - 1));
      IncrementAddsOne(BigBytes(IvAfter(n - 1)));
      FourPlaces();
      ModSucc(n - 1, 0x1_0000_0000);
    } else {
      FourBytes(BigBytes(Word(0)));
      ZeroBytes();
    }
  }

  lemma ZeroBytes()
    ensures BigBytes(Word(0)) == [Byte(0), Byte(0), Byte(0), Byte(0)] && Num(Byte(0)) == 0
  {
  }

  /** Digit by digit: the nonce is the number of packets before, most significant byte first. */
  lemma NonceDigits(n: nat)
    ensures var nonce := BigBytes(IvAfter(n));
      && Num(nonce[0]) == n / 0x100_0000 % 0x100 && Num(nonce[1]) == n / 0x1_0000 % 0x100
      && Num(nonce[2]) == n / 0x100 % 0x100 && Num(nonce[3]) == n % 0x100
  {
    hide Num, Value, Power256, BigBytes, IvAfter;
    var nonce := BigBytes(IvAfter(n));
    NonceCounts(n);
    FourBytes(nonce);
    DigitsOf(n, Num(nonce[0]), Num(nonce[1]), Num(nonce[2]), Num(nonce[3]));
  }

  lemma DigitsOf(n: nat, a: nat, b: nat, c: nat, d: nat)
    requires a < 256 && b < 256 && c < 256 && d < 256
    requires n % 0x1_0000_0000 == 0x100_0000 * a + 0x1_0000 * b + 0x100 * c + d
    ensures n / 0x100_0000 % 0x100 == a && n / 0x1_0000 % 0x100 == b && n / 0x100 % 0x100 == c && n % 0x100 == d
  {
    var q := n / 0x1_0000_0000;
    var q1 := 0x100 * q + a;
    var q2 := 0x100 * q1 + b;
    var q3 := 0x100 * q2 + c;
    DigitAt(n, 0x100_0000, q1, 0x1_0000 * b + 0x100 * c + d, q, a);
    DigitAt(n, 0x1_0000, q2, 0x100 * c + d, q1, b);
    DigitAt(n, 0x100, q3, d, q2, c);
    ModUnique(n, q3, 0x100, d);
  }

  lemma DigitAt(n: nat, place: nat, q: nat, r: nat, higher: nat, digit: nat)
    requires r < place && n == q * place + r && q == 0x100 * higher + digit && digit < 0x100
    ensures n / place % 0x100 == digit
  {
    ModUnique(n, q, place, r);
    ModUnique(q, higher, 0x100, digit);
  }

  /** Two packets go out under the same nonce exactly when a multiple of 2^32 packets lies
      between them. */
  lemma NoncesApart(i: nat, j: nat)
    ensures BigBytes(IvAfter(i)) == BigBytes(IvAfter(j)) <==> i % 0x1_0000_0000 == j % 0x1_0000_0000
  {
    hide Value, BigBytes, IvAfter;
    NonceCounts(i);
    NonceCounts(j);
    if i % 0x1_0000_0000 == j % 0x1_0000_0000 {
      ValueInjective(BigBytes(IvAfter(i)), BigBytes(IvAfter(j)));
    }
  }

  // ------------------------------------------------------------------------- whole runs

  /** The header is the command and the length, most significant byte first. */
  lemma HeaderIs(p: Packet)
    requires p.Valid()
    ensures var h := Header(p);
      h[0] == p.cmd && Num(h[1]) == |p.payload| / 0x100 && Num(h[2]) == |p.payload| % 0x100
  {
    hide Num, High, Low, Size;
    LengthDigits(p.len);
  }

  lemma LengthDigits(len: Length)
    ensures Size(len) == 0x100 * Num(High(len)) + Num(Low(len))
  {
    TwoDigits(len.bits);
  }

  lemma TwoDigits(x: bv16)
    ensures x as nat == 0x100 * ((x >> 8) as bv8 as nat) + ((x & 0xFF) as bv8 as nat)
  {
  }

  /** After any run, the next packet goes out behind those before, under a nonce that is the
      number of packets sent so far, with header and payload encrypted and the tag behind them;
      and the next one is read under the number of packets received so far. */
  lemma SentUnder(initR: Register, events: seq<Event>, p: Packet)
    requires p.Valid() && forall e <- events :: e.Send? ==> e.p.Valid()
    ensures var l := Run(Idle(initR), events);
      var nonce, n, h := BigBytes(l.sendIV), |l.sent|, Header(p);
      && Num(nonce[0]) == n / 0x100_0000 % 0x100 && Num(nonce[1]) == n / 0x1_0000 % 0x100
      && Num(nonce[2]) == n / 0x100 % 0x100 && Num(nonce[3]) == n % 0x100
      && h[0] == p.cmd && Num(h[1]) == |p.payload| / 0x100 && Num(h[2]) == |p.payload| % 0x100
      && Step(l, Send(p)).wire == l.wire + (Encrypted(Start(initR, nonce), h + p.payload)
                                            + Tag(Absorbed(Start(initR, nonce), h + p.payload), 4))
  {
    hide InStep, Encrypted, Absorbed, Tag, Start, Num, Header, BigBytes;
    RunDelivers(initR, events);
    CountersAre(Run(Idle(initR), events), initR);
    NonceDigits(|Run(Idle(initR), events).sent|);
    HeaderIs(p);
  }

  lemma ReceivedUnder(initR: Register, events: seq<Event>)
    requires forall e <- events :: e.Send? ==> e.p.Valid()
    ensures var l := Run(Idle(initR), events);
      var nonce, n := BigBytes(l.recvIV), |l.received|;
      && Num(nonce[0]) == n / 0x100_0000 % 0x100 && Num(nonce[1]) == n / 0x1_0000 % 0x100
      && Num(nonce[2]) == n / 0x100 % 0x100 && Num(nonce[3]) == n % 0x100
  {
    hide InStep, Num, BigBytes;
    RunDelivers(initR, events);
    CountersAre(Run(Idle(initR), events), initR);
    NonceDigits(|Run(Idle(initR), events).received|);
  }

  lemma CountersAre(l: Link, initR: Register)
    requires InStep(l, initR)
    ensures l.initR == initR && l.sendIV == IvAfter(|l.sent|) && l.recvIV == IvAfter(|l.received|)
  {
    hide InFlight;
  }

  /** Of 2^32 packets in a row no two share a nonce. */
  lemma NoncesFresh(initR: Register, before: seq<Event>, later: seq<Event>)
    requires forall e <- before + later :: e.Send? ==> e.p.Valid()
    requires |Run(Idle(initR), before).sent| < |Run(Idle(initR), later).sent|
    requires |Run(Idle(initR), later).sent| < |Run(Idle(initR), before).sent| + 0x1_0000_0000
    ensures BigBytes(Run(Idle(initR), before).sendIV) != BigBytes(Run(Idle(initR), later).sendIV)
  {
    hide InStep, Run, BigBytes, IvAfter;
    RunDelivers(initR, before);
    RunDelivers(initR, later);
    CountersAre(Run(Idle(initR), before), initR);
    CountersAre(Run(Idle(initR), later), initR);
    var i, j := |Run(Idle(initR), before).sent|, |Run(Idle(initR), later).sent|;
    NoncesApart(i, j);
    Apart(i, j, 0x1_0000_0000);
  }

  lemma Apart(i: nat, j: nat, m: nat)
    requires i < j < i + m
    ensures i % m != j % m
  {
    var k := j / m - i / m;
    assert j - i == k * m + (j % m - i % m);
    if k != 0 {
      MultipleApart(k, m);
    }
  }
}
