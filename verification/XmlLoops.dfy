/** When decoding in src/lib/ezxml.c ends.  The check for circular definitions looks at one
    value at a time, so that a reference which a value begins and the text behind it
    completes escapes it. */
module XmlLoops {
  import opened XmlText

  /** What is left of a text after some turns of the decoding loop. */
  function AfterTurns(u: string, ent: seq<Entity>, mode: Mode, n: nat): string
    decreases n
  {
    if n == 0 || u == "" then u else AfterTurns(TurnAt(u, ent, mode).rest, ent, mode, n - 1)
  }

  ghost predicate Ends(u: string, ent: seq<Entity>, mode: Mode) {
    exists n: nat :: AfterTurns(u, ent, mode, n) == ""
  }

  /** With an acyclic table of complete values, decoding ends on every text. */
  lemma {:induction false} CompleteTablesEnd(u: string, ent: seq<Entity>, mode: Mode)
    requires TableOk(ent)
    ensures Ends(u, ent, mode)
    decreases Steps(ent, u, Decoder)
  {
    hide TurnAt;
    if u == "" {
      assert AfterTurns(u, ent, mode, 0) == "";
    } else {
      var rest := TurnAt(u, ent, mode).rest;
      TurnShrinks(u, ent, mode);
      CompleteTablesEnd(rest, ent, mode);
      var n: nat :| AfterTurns(rest, ent, mode, n) == "";
      assert AfterTurns(u, ent, mode, n + 1) == "";
    }
  }

  lemma {:induction false} TurnsAdd(u: string, ent: seq<Entity>, mode: Mode, m: nat, n: nat)
    ensures AfterTurns(u, ent, mode, m + n) == AfterTurns(AfterTurns(u, ent, mode, m), ent, mode, n)
    decreases m
  {
    hide TurnAt;
    if m > 0 && u != "" {
      TurnsAdd(TurnAt(u, ent, mode).rest, ent, mode, m - 1, n);
    }
  }

  /** A text that comes back never ends. */
  lemma {:induction false} NeverEmpty(u: string, ent: seq<Entity>, mode: Mode, k: nat, n: nat)
    requires u != "" && k > 0 && AfterTurns(u, ent, mode, k) == u
    ensures AfterTurns(u, ent, mode, n) != ""
    decreases n
  {
    hide TurnAt;
    if n < k {
      TurnsAdd(u, ent, mode, n, k - n);
    } else {
      TurnsAdd(u, ent, mode, k, n - k);
      NeverEmpty(u, ent, mode, k, n - k);
    }
  }

  lemma ComesBack(u: string, ent: seq<Entity>, mode: Mode, k: nat)
    requires u != "" && k > 0 && AfterTurns(u, ent, mode, k) == u
    ensures !Ends(u, ent, mode)
  {
    forall n: nat
      ensures AfterTurns(u, ent, mode, n) != ""
    {
      NeverEmpty(u, ent, mode, k, n);
    }
  }

  // ------------------------------------------------------------------ what a text refers to

  /** No expansion of the text that the decoder makes refers to the name. */
  ghost predicate Clear(name: string, u: string, ent: seq<Entity>)
    requires Acyclic(ent)
    decreases Steps(ent, u, Decoder)
  {
    u == ""
    || (
      StepsTail(ent, u, 1, Decoder);
      var j := RefAt(ent, u, 0, Decoder);
      && !(u[0] == '&' && !Numeric(u, 0) && Prefix(name, u[1..]))
      && (j < |ent| ==> (StepsValue(ent, u, Decoder); Clear(name, ent[j].value, ent)))
      && Clear(name, u[1..], ent))
  }

  /** What passes the check is clear for the decoder. */
  lemma {:induction false} AvoidsClear(name: string, u: string, ent: seq<Entity>)
    requires Acyclic(ent) && Avoids(name, u, ent)
    ensures Clear(name, u, ent)
    decreases Steps(ent, u, Check)
  {
    if u != "" {
      StepsTail(ent, u, 1, Check);
      AvoidsClear(name, u[1..], ent);
      if RefAt(ent, u, 0, Decoder) < |ent| {
        StepsValue(ent, u, Check);
        AvoidsClear(name, ent[RefAt(ent, u, 0, Check)].value, ent);
      }
    }
  }

  /** Nothing short refers to a long name. */
  lemma {:induction false} ShortAvoids(name: string, u: string, ent: seq<Entity>)
    requires Acyclic(ent) && |u| < |name| && forall i :: 0 <= i < |ent| ==> |ent[i].value| < |name|
    ensures Avoids(name, u, ent)
    decreases Steps(ent, u, Check)
  {
    if u != "" {
      StepsTail(ent, u, 1, Check);
      ShortAvoids(name, u[1..], ent);
      if RefAt(ent, u, 0, Check) < |ent| {
        StepsValue(ent, u, Check);
        ShortAvoids(name, ent[RefAt(ent, u, 0, Check)].value, ent);
      }
    }
  }

  /** Nor does a text in which the name is behind no '&', if all values are short. */
  lemma {:induction false} FarAvoids(name: string, u: string, ent: seq<Entity>)
    requires Acyclic(ent) && forall i :: 0 <= i < |ent| ==> |ent[i].value| < |name|
    requires forall k :: 0 <= k < |u| && u[k] == '&' ==> !Prefix(name, u[k + 1..])
    ensures Avoids(name, u, ent)
    decreases |u|
  {
    if u != "" {
      forall k | 0 <= k < |u[1..]| && u[1..][k] == '&'
        ensures !Prefix(name, u[1..][k + 1..])
      {
        assert u[1..][k + 1..] == u[k + 1 + 1..];
      }
      StepsTail(ent, u, 1, Check);
      FarAvoids(name, u[1..], ent);
      if RefAt(ent, u, 0, Check) < |ent| {
        StepsValue(ent, u, Check);
        ShortAvoids(name, ent[RefAt(ent, u, 0, Check)].value, ent);
      }
    }
  }

  lemma CompleteRef(v: string)
    requires Complete(v) && v != "" && v[0] == '&' && !Numeric(v, 0)
    ensures ';' in v[1..] && |v| > 1
  {
  }

  /** References of a text whose front completes its own are those of the front and those of
      the rest. */
  lemma {:induction false} ClearConcat(name: string, a: string, b: string, ent: seq<Entity>)
    requires Written(ent) && Acyclic(ent) && NameOk(name) && Complete(a)
    ensures Clear(name, a + b, ent) <==> Clear(name, a, ent) && Clear(name, b, ent)
    decreases |a|
  {
    if a == "" {
      assert a + b == b;
    } else {
      assert (a + b)[1..] == a[1..] + b && (a + b)[0] == a[0];
      CompleteTail(a);
      ClearConcat(name, a[1..], b, ent);
      FirstRef(ent, a, b);
      if a[0] == '&' && !Numeric(a, 0) {
        CompleteRef(a);
        PrefixComplete(name, a[1..], b);
      }
      hide Acyclic, Steps, Lookup, Written, Complete, NameOk, RefAt;
    }
  }

  lemma {:induction false} ClearFrom(name: string, u: string, ent: seq<Entity>, from: nat)
    requires Acyclic(ent) && Clear(name, u, ent) && from <= |u|
    ensures Clear(name, u[from..], ent)
    decreases from
  {
    if from == 0 {
      assert u[0..] == u;
    } else {
      ClearFrom(name, u[1..], ent, from - 1);
      assert u[1..][from - 1..] == u[from..];
    }
  }

  lemma {:induction false} CompleteFrom(v: string, from: nat)
    requires Complete(v) && from <= |v|
    ensures Complete(v[from..])
    decreases from
  {
    if from == 0 {
      assert v[0..] == v;
    } else {
      CompleteTail(v);
      CompleteFrom(v[1..], from - 1);
      assert v[1..][from - 1..] == v[from..];
    }
  }

  lemma CompleteConcat(a: string, b: string)
    requires Complete(a) && Complete(b)
    ensures Complete(a + b)
  {
    forall k | 0 <= k < |a + b| && (a + b)[k] == '&' && !Numeric(a + b, k)
      ensures ';' in (a + b)[k + 1..]
    {
      if k < |a| {
        assert (a + b)[k + 1..] == a[k + 1..] + b;
      } else {
        assert (a + b)[k + 1..] == b[k - |a| + 1..];
      }
    }
  }

  // ------------------------------------------------------- a text in front of a reference

  lemma {:induction false} SpaceEndLocal(p: string, x: string, at: nat)
    requires at <= |p| && x != "" && x[0] == '&'
    ensures SpaceEnd(p + x, at) == SpaceEnd(p, at)
    decreases |p| - at
  {
    if at < |p| {
      SpaceEndLocal(p, x, at + 1);
    }
  }

  lemma {:induction false} DigitsEndLocal(p: string, x: string, at: nat, base: nat)
    requires at <= |p| && x != "" && x[0] == '&' && base <= 36
    ensures DigitsEnd(p + x, at, base) == DigitsEnd(p, at, base)
    decreases |p| - at
  {
    if at < |p| {
      DigitsEndLocal(p, x, at + 1, base);
    }
  }

  lemma StartLocal(p: string, x: string, at: nat, base: nat)
    requires at <= |p| && x != "" && x[0] == '&'
    ensures DigitsStart(p + x, at, base) == DigitsStart(p, at, base) && Negative(p + x, at) == Negative(p, at)
  {
    SpaceEndLocal(p, x, at);
    hide SpaceEnd, IsSpace;
  }

  /** A number ends in front of a reference. */
  lemma StrtolLocal(p: string, x: string, at: nat, base: nat)
    requires at <= |p| && x != "" && x[0] == '&' && base <= 36
    ensures Strtol(p + x, at, base) == Strtol(p, at, base)
  {
    hide DigitsStart, Negative, DigitsEnd, Number;
    StartLocal(p, x, at, base);
    var start := DigitsStart(p, at, base);
    DigitsEndLocal(p, x, start, base);
    assert (p + x)[start..DigitsEnd(p, start, base)] == p[start..DigitsEnd(p, start, base)];
  }

  lemma RefLocal(p: string, x: string)
    requires p != "" && x != "" && x[0] == '&'
    ensures Prefix("&#", p + x) == Prefix("&#", p)
    ensures Prefix("&#", p) ==> RefNumber(p + x) == RefNumber(p)
    ensures IsCharRef(p + x) == IsCharRef(p)
  {
    NumericFront(p);
    NumericFront(p + x);
    if Prefix("&#", p) {
      hide Strtol;
      if |p| > 2 && p[2] == 'x' {
        StrtolLocal(p, x, 3, 16);
      } else {
        StrtolLocal(p, x, 2, 10);
      }
    }
  }

  // ------------------------------------------------------ a table with two more entries

  lemma LookupTwo(ent: seq<Entity>, e: Entity, f: Entity, u: string)
    ensures Lookup(ent, u) < |ent| ==> Lookup(ent + [e] + [f], u) == Lookup(ent, u)
    ensures Lookup(ent, u) == |ent| && !Prefix(e.name, u) && !Prefix(f.name, u) ==>
      Lookup(ent + [e] + [f], u) == |ent| + 2
  {
    LookupExtended(ent, e, u);
    LookupExtended(ent + [e], f, u);
  }

  /** What one turn leaves of a text. */
  ghost function FrontTurn(p: string, ent: seq<Entity>): (r: string)
    requires TableOk(ent) && p != ""
    ensures Steps(ent, r, Decoder) < Steps(ent, p, Decoder)
  {
    TurnShrinks(p, ent, Content);
    TurnAt(p, ent, Content).rest
  }

  lemma FrontLookup(y: string, x: string, ent: seq<Entity>, e: Entity, f: Entity)
    requires Named(ent) && NameOk(e.name) && NameOk(f.name) && ';' in y
    requires !Prefix(e.name, y) && !Prefix(f.name, y)
    ensures Lookup(ent + [e] + [f], y + x) == if Lookup(ent, y) < |ent| then Lookup(ent, y) else |ent| + 2
  {
    PrefixComplete(e.name, y, x);
    PrefixComplete(f.name, y, x);
    hide Prefix, Lookup;
    LookupTwo(ent, e, f, y + x);
    LookupComplete(ent, y, x);
  }

  lemma ClearFirst(name: string, p: string, ent: seq<Entity>)
    requires Acyclic(ent) && Clear(name, p, ent) && p != "" && p[0] == '&' && !Numeric(p, 0)
    ensures !Prefix(name, p[1..])
  {
  }

  lemma EntityTurn(u: string, ent: seq<Entity>)
    requires u != "" && u[0] == '&' && !Numeric(u, 0)
    ensures var j := Lookup(ent, u[1..]);
      TurnAt(u, ent, Content).rest == if j < |ent| then ent[j].value + u[1 + SemiEnd(u[1..])..] else u[1..]
  {
    NumericFront(u);
    hide Lookup, RefNumber;
  }

  lemma SliceConcat(p: string, x: string, from: nat, v: string)
    requires from <= |p|
    ensures v + (p + x)[from..] == v + p[from..] + x
  {
    assert (p + x)[from..] == p[from..] + x;
  }

  lemma NotFound(u: string, ent: seq<Entity>)
    requires u != "" && u[0] == '&' && !Numeric(u, 0) && Lookup(ent, u[1..]) == |ent|
    ensures TurnAt(u, ent, Content).rest == u[1..]
  {
    EntityTurn(u, ent);
  }

  lemma Found(u: string, ent: seq<Entity>, e: Entity)
    requires u != "" && u[0] == '&' && !Numeric(u, 0)
    requires Lookup(ent, u[1..]) < |ent| && ent[Lookup(ent, u[1..])] == e && NameOk(e.name)
    ensures 1 + |e.name| <= |u| && TurnAt(u, ent, Content).rest == e.value + u[1 + |e.name|..]
  {
    SemiOfName(e.name, u[1..]);
    EntityTurn(u, ent);
  }

  lemma FrontOf(p: string, x: string)
    requires |p| > 1 && p[0] == '&' && !Numeric(p, 0)
    ensures (p + x)[0] == '&' && !Numeric(p + x, 0) && (p + x)[1..] == p[1..] + x
  {
  }

  lemma SameFound(p: string, x: string, ent: seq<Entity>, all: seq<Entity>, e: Entity)
    requires |p| > 1 && p[0] == '&' && !Numeric(p, 0) && NameOk(e.name)
    requires Lookup(ent, p[1..]) < |ent| && ent[Lookup(ent, p[1..])] == e
    requires Lookup(all, p[1..] + x) < |all| && all[Lookup(all, p[1..] + x)] == e
    ensures TurnAt(p + x, all, Content).rest == TurnAt(p, ent, Content).rest + x
  {
    hide TurnAt, Lookup, Numeric, Prefix, NameOk;
    FrontOf(p, x);
    Found(p, ent, e);
    Found(p + x, all, e);
    SliceConcat(p, x, 1 + |e.name|, e.value);
  }

  lemma SameNotFound(p: string, x: string, ent: seq<Entity>, all: seq<Entity>)
    requires |p| > 1 && p[0] == '&' && !Numeric(p, 0)
    requires Lookup(ent, p[1..]) == |ent| && Lookup(all, p[1..] + x) == |all|
    ensures TurnAt(p + x, all, Content).rest == TurnAt(p, ent, Content).rest + x
  {
    hide TurnAt, Lookup, Numeric, Prefix;
    FrontOf(p, x);
    NotFound(p, ent);
    NotFound(p + x, all);
  }

  /** One turn at the front of a text whose expansions refer to neither of the new names
      changes nothing behind the text. */
  lemma FrontEntity(p: string, x: string, ent: seq<Entity>, e: Entity, f: Entity)
    requires TableOk(ent) && NameOk(e.name) && NameOk(f.name) && Complete(p) && p != "" && p[0] == '&' && !Numeric(p, 0)
    requires Clear(e.name, p, ent) && Clear(f.name, p, ent) && x != "" && x[0] == '&'
    ensures TurnAt(p + x, ent + [e] + [f], Content).rest == TurnAt(p, ent, Content).rest + x
  {
    CompleteRef(p);
    ClearFirst(e.name, p, ent);
    ClearFirst(f.name, p, ent);
    hide Clear, Lookup, NameOk, Complete, Acyclic, TurnAt;
    FrontLookup(p[1..], x, ent, e, f);
    var j := Lookup(ent, p[1..]);
    if j < |ent| {
      assert (ent + [e] + [f])[j] == ent[j] && NameOk(ent[j].name);
      SameFound(p, x, ent, ent + [e] + [f], ent[j]);
    } else {
      SameNotFound(p, x, ent, ent + [e] + [f]);
    }
  }

  lemma FrontOther(p: string, x: string, ent: seq<Entity>, all: seq<Entity>)
    requires p != "" && (p[0] != '&' || Numeric(p, 0)) && x != "" && x[0] == '&'
    ensures TurnAt(p + x, all, Content).rest == TurnAt(p, ent, Content).rest + x
  {
    NumericFront(p);
    RefLocal(p, x);
    hide Lookup, RefNumber;
    if IsCharRef(p) {
      assert RefNumber(p).end < |p|;
      assert (p + x)[RefNumber(p).end + 1..] == p[RefNumber(p).end + 1..] + x;
    } else {
      assert (p + x)[1..] == p[1..] + x;
    }
  }

  /** What is left is the end of the text, with the value of an entity in front if the text
      begins with a reference. */
  lemma FrontParts(p: string, ent: seq<Entity>) returns (v: string, from: nat)
    requires TableOk(ent) && p != ""
    ensures from <= |p| && FrontTurn(p, ent) == v + p[from..]
    ensures v == "" || (RefAt(ent, p, 0, Decoder) < |ent| && v == ent[RefAt(ent, p, 0, Decoder)].value)
  {
    NumericFront(p);
    hide Lookup, RefNumber, Acyclic, Written;
    if IsCharRef(p) {
      v, from := "", RefNumber(p).end + 1;
    } else if RefAt(ent, p, 0, Decoder) < |ent| {
      v, from := ent[Lookup(ent, p[1..])].value, 1 + SemiEnd(p[1..]);
    } else {
      v, from := "", 1;
    }
  }

  lemma ClearValue(name: string, p: string, ent: seq<Entity>)
    requires Acyclic(ent) && Clear(name, p, ent)
    ensures p != "" && RefAt(ent, p, 0, Decoder) < |ent| ==> Clear(name, ent[RefAt(ent, p, 0, Decoder)].value, ent)
    ensures Clear(name, "", ent)
  {
  }

  /** What is left of a complete text that is clear of a name is the same. */
  lemma FrontKeeps(p: string, ent: seq<Entity>, name: string)
    requires TableOk(ent) && NameOk(name) && p != "" && Complete(p) && Clear(name, p, ent)
    ensures Complete(FrontTurn(p, ent)) && Clear(name, FrontTurn(p, ent), ent)
  {
    var v, from := FrontParts(p, ent);
    assert Complete(v) by {
      if v != "" {
        FoundIsComplete(ent, p);
      }
    }
    ClearValue(name, p, ent);
    hide Acyclic, Written, Complete, Clear, RefAt, NameOk, FrontTurn;
    CompleteFrom(p, from);
    CompleteConcat(v, p[from..]);
    ClearFrom(name, p, ent, from);
    ClearConcat(name, v, p[from..], ent);
  }

  /** The decoder works off such a text and comes to the reference behind it. */
  lemma {:induction false} Passes(p: string, x: string, ent: seq<Entity>, e: Entity, f: Entity) returns (i: nat)
    requires TableOk(ent) && NameOk(e.name) && NameOk(f.name) && Complete(p) && x != "" && x[0] == '&'
    requires Clear(e.name, p, ent) && Clear(f.name, p, ent)
    ensures AfterTurns(p + x, ent + [e] + [f], Content, i) == x
    decreases Steps(ent, p, Decoder)
  {
    if p == "" {
      i := 0;
      assert p + x == x;
    } else {
      if p[0] == '&' && !Numeric(p, 0) {
        FrontEntity(p, x, ent, e, f);
      } else {
        FrontOther(p, x, ent, ent + [e] + [f]);
      }
      FrontKeeps(p, ent, e.name);
      FrontKeeps(p, ent, f.name);
      hide Acyclic, Written, Complete, Clear, Steps, TurnAt, NameOk;
      i := Passes(FrontTurn(p, ent), x, ent, e, f);
      i := i + 1;
    }
  }

  // ----------------------------------------------------------------- the exact condition

  /** The definitions that the check accepts for a table in order, as values complete: those
      that keep it in order. */
  ghost predicate Accepted(ent: seq<Entity>, f: Entity)
    requires Acyclic(ent)
  {
    NameOk(f.name) && Complete(f.value) && Avoids(f.name, f.value, ent)
  }

  function Longest(ent: seq<Entity>): (n: nat)
    ensures forall i :: 0 <= i < |ent| ==> |ent[i].name| < n && |ent[i].value| < n
  {
    if ent == [] then 1 else
      var n := Longest(ent[1..]);
      assert forall i :: 0 < i < |ent| ==> ent[i] == ent[1..][i - 1];
      n + |ent[0].name| + |ent[0].value|
  }

  function Letters(n: nat): (t: string)
    ensures |t| == n + 1
  {
    seq(n + 1, i => 'a')
  }

  /** A value leaves the reference at `k` open. */
  predicate OpenAt(v: string, k: nat) {
    k < |v| && v[k] == '&' && !Numeric(v, k) && ';' !in v[k + 1..]
  }

  /** In front of the first open reference, a value is complete. */
  lemma FirstOpen(v: string) returns (k: nat)
    requires !Complete(v)
    ensures OpenAt(v, k) && Complete(v[..k])
  {
    var some :| 0 <= some < |v| && v[some] == '&' && !Numeric(v, some) && !(';' in v[some + 1..]);
    assert OpenAt(v, some);
    k := 0;
    while !OpenAt(v, k)
      invariant k <= some && forall j :: 0 <= j < k ==> !OpenAt(v, j)
      decreases some - k
    {
      k := k + 1;
    }
    forall j | 0 <= j < |v[..k]| && v[..k][j] == '&' && !Numeric(v[..k], j)
      ensures ';' in v[..k][j + 1..]
    {
      assert !OpenAt(v, j) && !Numeric(v, j);
      assert v[j + 1..] == v[..k][j + 1..] + [v[k]] + v[k + 1..];
    }
  }

  /** The definition that closes the reference which `e` leaves open at `k`, and leads back to
      `e`: with the name that the value of `e` begins, made long by letters. */
  function Closing(e: Entity, k: nat, n: nat): Entity
    requires k < |e.value|
  {
    Entity(e.value[k + 1..] + Letters(n) + ";", "&" + e.name + Letters(n) + ";")
  }

  lemma ClosingNamed(e: Entity, k: nat, n: nat)
    requires NameOk(e.name) && OpenAt(e.value, k) && |e.name| < n
    ensures var f := Closing(e, k, n); NameOk(f.name) && f.name[0] != '#' && Complete(f.value) && |f.name| > n
  {
    var f, w := Closing(e, k, n), e.value[k + 1..];
    assert forall i :: 0 <= i < |w| ==> f.name[i] == w[i] == e.value[k + 1 + i];
    assert f.name[0] != '#';
    assert f.value[|f.value| - 1] == ';';
    forall i | 0 <= i < |f.value| && f.value[i] == '&'
      ensures ';' in f.value[i + 1..]
    {
      assert f.value[i + 1..][|f.value| - i - 2] == ';';
    }
  }

  /** The closing name is behind no '&' of the closing value, where a ';' comes earlier. */
  lemma ClosingFar(e: Entity, k: nat, n: nat, i: nat)
    requires NameOk(e.name) && OpenAt(e.value, k) && |e.name| < n
    requires i < |Closing(e, k, n).value| && Closing(e, k, n).value[i] == '&'
    ensures !Prefix(Closing(e, k, n).name, Closing(e, k, n).value[i + 1..])
  {
    ClosingNamed(e, k, n);
    var f := Closing(e, k, n);
    hide OpenAt, Complete;
    assert f.value[|e.name|] == e.name[|e.name| - 1] == ';';
    assert i < |e.name|;
    var semi := |e.name| - i - 1;
    assert f.value[i + 1..][semi] == ';' != f.name[semi];
  }

  lemma ClosingAccepted(ent: seq<Entity>, e: Entity, k: nat, n: nat)
    requires Acyclic(ent) && e in ent && NameOk(e.name) && OpenAt(e.value, k) && n == Longest(ent)
    ensures Accepted(ent, Closing(e, k, n))
  {
    var f := Closing(e, k, n);
    ClosingNamed(e, k, n);
    forall i | 0 <= i < |f.value| && f.value[i] == '&'
      ensures !Prefix(f.name, f.value[i + 1..])
    {
      ClosingFar(e, k, n, i);
    }
    hide Closing, OpenAt, Complete, NameOk, Acyclic;
    FarAvoids(f.name, f.value, ent);
  }

  lemma PrefixSelf(n: string)
    ensures Prefix(n, n)
  {
  }

  lemma NewNames(ent: seq<Entity>, e: Entity, f: Entity)
    requires Named(ent + [e]) && NameOk(f.name) && Lookup(ent, e.name) == |ent| && |f.name| > Longest(ent + [e])
    ensures Effective(ent + [e] + [f], |ent|) && Effective(ent + [e] + [f], |ent| + 1)
  {
    var one := ent + [e];
    assert one[|ent|] == e;
    PrefixSelf(e.name);
    PrefixSelf(f.name);
    hide Lookup, Prefix, Longest, NameOk;
    LookupExtended(ent, e, e.name);
    LookupExtended(one, f, e.name);
    LookupExtended(one, f, f.name);
    var j := Lookup(one, f.name);
    if j < |one| {
      OneName(one[j].name, f.name, f.name);
    }
  }

  /** What leads to the place that a value leaves open leads to neither new name. */
  lemma FrontClear(ent: seq<Entity>, e: Entity, f: Entity, k: nat)
    requires TableOk(ent) && NameOk(e.name) && Avoids(e.name, e.value, ent) && |f.name| > Longest(ent + [e])
    requires k <= |e.value| && Complete(e.value[..k])
    ensures Clear(e.name, e.value[..k], ent) && Clear(f.name, e.value[..k], ent)
  {
    hide Acyclic, Written, Complete, Longest, Clear, Avoids;
    var p := e.value[..k];
    assert e.value == p + e.value[k..];
    AvoidsClear(e.name, e.value, ent);
    ClearConcat(e.name, p, e.value[k..], ent);
    assert (ent + [e])[|ent|] == e;
    forall i | 0 <= i < |ent|
      ensures |ent[i].value| < |f.name|
    {
      assert (ent + [e])[i] == ent[i];
    }
    ShortAvoids(f.name, p, ent);
    AvoidsClear(f.name, p, ent);
  }

  lemma Round(u: string, mid: string, x: string, all: seq<Entity>, i: nat)
    requires u != "" && TurnAt(u, all, Content).rest == mid && AfterTurns(mid, all, Content, i) == x
    requires x != "" && TurnAt(x, all, Content).rest == u
    ensures !Ends(u, all, Content)
  {
    hide TurnAt;
    assert AfterTurns(u, all, Content, 1) == AfterTurns(mid, all, Content, 0) == mid;
    TurnsAdd(u, all, Content, 1, i);
    assert AfterTurns(x, all, Content, 1) == AfterTurns(u, all, Content, 0) == u;
    TurnsAdd(u, all, Content, 1 + i, 1);
    ComesBack(u, all, Content, 1 + i + 1);
  }

  lemma ClosingTexts(e: Entity, k: nat, n: nat)
    requires OpenAt(e.value, k)
    ensures var f := Closing(e, k, n);
      && f.value == "&" + e.name + (Letters(n) + ";")
      && e.value + (Letters(n) + ";") == e.value[..k] + ("&" + f.name)
      && "&" + f.name + "" == "&" + f.name && f.value + "" == f.value
  {
  }

  lemma LongestLast(ent: seq<Entity>, e: Entity)
    ensures |e.name| < Longest(ent + [e]) && |e.value| < Longest(ent + [e])
  {
    assert (ent + [e])[|ent|] == e;
  }

  lemma ClosingTurns(ent: seq<Entity>, e: Entity, f: Entity, rest: string, front: string)
    requires Named(ent + [e]) && NameOk(e.name) && e.name[0] != '#' && Lookup(ent, e.name) == |ent|
    requires NameOk(f.name) && f.name[0] != '#' && |f.name| > Longest(ent + [e])
    requires f.value == "&" + e.name + rest && e.value + rest == front && f.value + "" == f.value
    requires "&" + f.name + "" == "&" + f.name
    ensures TurnAt(f.value, ent + [e] + [f], Content).rest == front
    ensures TurnAt("&" + f.name, ent + [e] + [f], Content).rest == f.value
  {
    var all := ent + [e] + [f];
    assert all[|ent|] == e && all[|ent| + 1] == f;
    NewNames(ent, e, f);
    hide Longest, TurnAt, Effective, NameOk, Lookup, Prefix;
    Replaces(all, |ent|, rest, Content);
    Replaces(all, |ent| + 1, "", Content);
  }

  /** The closing value comes back to itself. */
  lemma ClosingLoops(ent: seq<Entity>, e: Entity, k: nat)
    requires TableOk(ent) && NameOk(e.name) && e.name[0] != '#' && Lookup(ent, e.name) == |ent|
    requires Avoids(e.name, e.value, ent) && OpenAt(e.value, k) && Complete(e.value[..k])
    ensures !Ends(Closing(e, k, Longest(ent + [e])).value, ent + [e] + [Closing(e, k, Longest(ent + [e]))], Content)
  {
    assert k < |e.value|;
    hide Acyclic, Complete, Longest, Clear, Avoids, OpenAt, TurnAt, AfterTurns, Ends, NameOk, Closing;
    var n := Longest(ent + [e]);
    var f := Closing(e, k, n);
    LongestLast(ent, e);
    ClosingNamed(e, k, n);
    ClosingTexts(e, k, n);
    ClosingTurns(ent, e, f, Letters(n) + ";", e.value[..k] + ("&" + f.name));
    FrontClear(ent, e, f, k);
    var i := Passes(e.value[..k], "&" + f.name, ent, e, f);
    Round(f.value, e.value[..k] + ("&" + f.name), "&" + f.name, ent + [e] + [f], i);
  }

  /** With a new definition that passes the check, decoding ends for every text whatever is
      defined next, just when its value completes its references (or its name begins with '#').
      A caller can look at that before the call; `ezxml_internal_dtd` does not. */
  lemma CompletenessExactly(ent: seq<Entity>, e: Entity)
    requires TableOk(ent) && NameOk(e.name) && Lookup(ent, e.name) == |ent| && Avoids(e.name, e.value, ent)
    ensures Acyclic(ent + [e])
    ensures Harmless(e) <==>
      forall f, u, mode :: Accepted(ent + [e], f) ==> Ends(u, ent + [e] + [f], mode)
  {
    hide Acyclic, Complete, Avoids, Ends, Longest, NameOk;
    DefinitionKeeps(ent, e);
    var one := ent + [e];
    if Harmless(e) {
      forall f, u, mode | Accepted(one, f)
        ensures Ends(u, one + [f], mode)
      {
        DefinitionKeeps(one, f);
        CompleteTablesEnd(u, one + [f], mode);
      }
    } else {
      HarmlessHash(e);
      var k := FirstOpen(e.value);
      assert one[|ent|] == e;
      var f := Closing(e, k, Longest(one));
      ClosingAccepted(one, e, k, Longest(one));
      ClosingLoops(ent, e, k);
    }
  }

  lemma HarmlessHash(e: Entity)
    requires NameOk(e.name) && !Harmless(e)
    ensures e.name[0] != '#' && !Complete(e.value)
  {
    assert e.name[..1] == [e.name[0]];
  }

  // -------------------------------------------------------------------------- an example

  const X: Entity := Entity("x;", "&y")
  const Y: Entity := Entity("y;", "&x;;")

  lemma NoDefault(u: string)
    requires u == "" || u[0] == 'x' || u[0] == 'y'
    ensures Lookup(DEFAULTS, u) == 5
  {
    if u != "" {
      forall i | 0 <= i < 5
        ensures !Prefix(DEFAULTS[i].name, u)
      {
        OtherStart(DEFAULTS[i].name, u);
      }
    }
  }

  lemma {:induction false} PlainAvoids(name: string, u: string, ent: seq<Entity>)
    requires Acyclic(ent) && '&' !in u
    ensures Avoids(name, u, ent)
    decreases |u|
  {
    hide Acyclic, Steps;
    if u != "" {
      PlainAvoids(name, u[1..], ent);
    }
  }

  /** What a text that refers to something in front only has to do with a name. */
  lemma OneReference(name: string, u: string, ent: seq<Entity>)
    requires Acyclic(ent) && '&' !in u && !Prefix(name, u)
    requires Lookup(ent, u) < |ent| ==> Avoids(name, ent[Lookup(ent, u)].value, ent)
    ensures Avoids(name, "&" + u, ent)
  {
    hide Avoids, Acyclic, Lookup;
    var v := "&" + u;
    assert v[0..] == v && v[1..] == u;
    PlainAvoids(name, u, ent);
    AvoidsFirst(name, v, 0, ent);
  }

  lemma XAccepted()
    requires TableOk(DEFAULTS)
    ensures Avoids(X.name, X.value, DEFAULTS)
  {
    hide Avoids, Acyclic, Written, Lookup;
    NoDefault("y");
    assert "&" + "y" == X.value;
    OneReference(X.name, "y", DEFAULTS);
  }

  lemma YAccepted()
    requires TableOk(DEFAULTS) && Acyclic(DEFAULTS + [X])
    ensures Avoids(Y.name, Y.value, DEFAULTS + [X])
  {
    hide Avoids, Acyclic, Written, Lookup;
    var one := DEFAULTS + [X];
    NoDefault("y");
    NoDefault("x;;");
    LookupExtended(DEFAULTS, X, "y");
    LookupExtended(DEFAULTS, X, "x;;");
    assert "x;;"[..2] == "x;" && one[5] == X && "&" + "y" == X.value && "&" + "x;;" == Y.value;
    OneReference(Y.name, "y", one);
    OneReference(Y.name, "x;;", one);
  }

  lemma LoopNamed()
    ensures Named(DEFAULTS + [X] + [Y])
  {
    DefaultsWritten();
  }

  lemma LoopTurns()
    ensures var all := DEFAULTS + [X] + [Y];
      TurnAt("&x;;", all, Content).rest == "&y;" && TurnAt("&y;", all, Content).rest == "&x;;"
  {
    var all := DEFAULTS + [X] + [Y];
    NoDefault("x;");
    NoDefault("y;");
    hide Lookup, TurnAt, RefNumber, NameOk;
    LookupExtended(DEFAULTS, X, "x;");
    LookupExtended(DEFAULTS, X, "y;");
    LookupExtended(DEFAULTS + [X], Y, "x;");
    LookupExtended(DEFAULTS + [X], Y, "y;");
    assert all[5] == X && all[6] == Y && "y;"[..2] == "y;" && "x;"[..2] == "x;" && "y;"[0] == 'y';
    LoopNamed();
    assert "&" + X.name + ";" == "&x;;" && "&" + Y.name + "" == "&y;";
    assert X.value + ";" == "&y;" && Y.value + "" == "&x;;";
    Replaces(all, 5, ";", Content);
    Replaces(all, 6, "", Content);
  }

  lemma XIsOpen()
    ensures !Harmless(X) && Harmless(Y)
  {
    assert OpenAt(X.value, 0) && ';' !in X.value[1..] && !Numeric(X.value, 0);
    assert "x;"[..1][0] == 'x';
    assert Y.value[1..][2] == ';';
  }

  /** Two definitions that the check accepts, one after the other, and a text on which
      decoding then goes round for ever.  The value of the first is not complete. */
  lemma AcceptedLoop()
    ensures TableOk(DEFAULTS) && Avoids(X.name, X.value, DEFAULTS) && Acyclic(DEFAULTS + [X])
    ensures Avoids(Y.name, Y.value, DEFAULTS + [X]) && Acyclic(DEFAULTS + [X] + [Y])
    ensures !Harmless(X) && Harmless(Y) && !Ends("&x;;", DEFAULTS + [X] + [Y], Content)
  {
    hide Acyclic, Written, Avoids, Harmless, TurnAt, AfterTurns, Ends;
    DefaultsOk();
    XAccepted();
    DefinitionKeeps(DEFAULTS, X);
    YAccepted();
    DefinitionKeeps(DEFAULTS + [X], Y);
    XIsOpen();
    LoopTurns();
    TurnsNone("&y;", DEFAULTS + [X] + [Y]);
    Round("&x;;", "&y;", "&y;", DEFAULTS + [X] + [Y], 0);
  }

  lemma TurnsNone(u: string, ent: seq<Entity>)
    ensures AfterTurns(u, ent, Content, 0) == u
  {
  }

  // ----------------------------------------------------------- a name with an inner ';'

  const Z: Entity := Entity("x;y;", "&x;")

  lemma ZAccepted()
    requires TableOk(DEFAULTS)
    ensures Avoids(Z.name, Z.value, DEFAULTS) && Harmless(Z) && !NameOk(Z.name)
  {
    hide Avoids, Acyclic, Written, Lookup;
    NoDefault("x;");
    assert "&" + "x;" == Z.value && Z.value[1..][1] == ';' && Z.name[1] == ';';
    OneReference(Z.name, "x;", DEFAULTS);
  }

  lemma ZTurn()
    ensures TurnAt("&x;y;", DEFAULTS + [Z], Content).rest == "&x;y;"
  {
    var u, all := "&x;y;", DEFAULTS + [Z];
    NoDefault("x;y;");
    LookupExtended(DEFAULTS, Z, "x;y;");
    assert u[1..] == "x;y;" && "x;y;"[..4] == "x;y;" && all[5] == Z;
    assert SemiEnd("x;y;") == 2 by {
      assert "x;y;"[1..] == ";y;";
    }
    NumericFront(u);
    hide Lookup, SemiEnd, RefNumber;
    assert u[3..] == "y;" && Z.value + "y;" == u;
  }

  /** One definition, with a value that is complete, passes the check and makes decoding go round
      for ever: its name has a ';' inside, and the decoder replaces a reference only up to the
      first ';', behind which the rest of the name completes the value to the same text. */
  lemma InnerSemicolonLoop()
    ensures TableOk(DEFAULTS) && Avoids(Z.name, Z.value, DEFAULTS) && Acyclic(DEFAULTS + [Z])
    ensures Harmless(Z) && !Ends("&x;y;", DEFAULTS + [Z], Content)
  {
    hide Acyclic, Written, Avoids, Harmless, TurnAt, AfterTurns, Ends;
    DefaultsOk();
    ZAccepted();
    DefinitionKeeps(DEFAULTS, Z);
    ZTurn();
    TurnsNone("&x;y;", DEFAULTS + [Z]);
    Round("&x;y;", "&x;y;", "&x;y;", DEFAULTS + [Z], 0);
  }
}
