/** Character data in src/lib/ezxml.c: ampersand encoding, decoding with an entity table, and
    the check that keeps the table free of circular definitions.  A character stands for a
    byte of the text. */
module XmlText {
  import Utf8

  const VT: char := '\U{0B}'
  const FF: char := '\U{0C}'

  /** `isspace` in the C locale */
  predicate IsSpace(c: char) {
    c == ' ' || c == '\t' || c == '\n' || c == VT || c == FF || c == '\r'
  }

  predicate Prefix(p: string, u: string) {
    |p| <= |u| && u[..|p|] == p
  }

  // --------------------------------------------------------------------------- encoding

  function AmpChar(c: char, a: bool): string {
    if c == '&' then "&amp;"
    else if c == '<' then "&lt;"
    else if c == '>' then "&gt;"
    else if c == '\"' then (if a then "&quot;" else "\"")
    else if c == '\n' then (if a then "&#xA;" else "\n")
    else if c == '\t' then (if a then "&#x9;" else "\t")
    else if c == '\r' then "&#xD;"
    else [c]
  }

  /** The encoding of a text up to its NUL, for an attribute if `a`. */
  function AmpEncoded(s: string, a: bool): string {
    if s == "" || s[0] == '\0' then "" else AmpChar(s[0], a) + AmpEncoded(s[1..], a)
  }

  // ---------------------------------------------------------------------------- entities

  /** A name with the ';' that ends it, and its replacement text. */
  datatype Entity = Entity(name: string, value: string)

  /** The first entry whose name begins the text, or the length of the table. */
  function Lookup(ent: seq<Entity>, u: string): (i: nat)
    ensures i <= |ent| && (i < |ent| ==> Prefix(ent[i].name, u))
    ensures forall k :: 0 <= k < i ==> !Prefix(ent[k].name, u)
  {
    if ent == [] || Prefix(ent[0].name, u) then 0 else Lookup(ent[1..], u) + 1
  }

  /** A name ends with its only ';'. */
  predicate NameOk(n: string) {
    n != "" && n[|n| - 1] == ';' && forall i :: 0 <= i < |n| - 1 ==> n[i] != ';'
  }

  /** A character reference, well formed or not, begins at `k`. */
  predicate Numeric(u: string, k: nat) {
    k + 1 < |u| && u[k] == '&' && u[k + 1] == '#'
  }

  /** The references to entities that a value begins are completed by the value. */
  predicate Complete(v: string) {
    forall k :: 0 <= k < |v| && v[k] == '&' && !Numeric(v, k) ==> ';' in v[k + 1..]
  }

  /** A definition that is not used, since "&#" always begins a number, or has a complete value. */
  predicate Harmless(e: Entity) {
    Prefix("#", e.name) || Complete(e.value)
  }

  predicate Named(ent: seq<Entity>) {
    forall i :: 0 <= i < |ent| ==> NameOk(ent[i].name)
  }

  predicate Written(ent: seq<Entity>) {
    Named(ent) && forall i :: 0 <= i < |ent| ==> Harmless(ent[i])
  }

  /** Who reads a text: the check takes every '&' for a reference to an entity, the decoder only
      one that does not begin a number. */
  datatype Reader = Check | Decoder

  /** The entity that the text refers to at `k`, or the length of the table. */
  function RefAt(ent: seq<Entity>, u: string, k: nat, who: Reader): (j: nat)
    requires k < |u|
    ensures j <= |ent|
  {
    if u[k] == '&' && !(who == Decoder && Numeric(u, k)) then Lookup(ent, u[k + 1..]) else |ent|
  }

  /** The ranks of all entities that the text refers to are below a bound. */
  ghost predicate Below(ent: seq<Entity>, rank: seq<nat>, u: string, bound: nat, who: Reader)
    requires |rank| == |ent|
  {
    forall k :: 0 <= k < |u| && RefAt(ent, u, k, who) < |ent| ==> rank[RefAt(ent, u, k, who)] < bound
  }

  /** Entry `i` is the first with its name. */
  predicate Effective(ent: seq<Entity>, i: nat)
    requires i < |ent|
  {
    Lookup(ent, ent[i].name) == i
  }

  ghost predicate Ranked(ent: seq<Entity>, rank: seq<nat>) {
    && |rank| == |ent|
    && forall i :: 0 <= i < |ent| && Effective(ent, i) ==> Below(ent, rank, ent[i].value, rank[i], Check)
  }

  /** No definition leads back to its own name. */
  ghost predicate Acyclic(ent: seq<Entity>) {
    exists rank :: Ranked(ent, rank)
  }

  lemma PrefixOfPrefix(p: string, n: string, u: string)
    requires Prefix(p, n) && Prefix(n, u)
    ensures Prefix(p, u)
  {
    assert u[..|p|] == n[..|p|];
  }

  lemma FoundIsEffective(ent: seq<Entity>, u: string)
    requires Lookup(ent, u) < |ent|
    ensures Effective(ent, Lookup(ent, u))
  {
    var j := Lookup(ent, u);
    var i := Lookup(ent, ent[j].name);
    assert i <= j;
    PrefixOfPrefix(ent[i].name, ent[j].name, u);
  }

  lemma BelowTail(ent: seq<Entity>, rank: seq<nat>, u: string, bound: nat, from: nat, who: Reader)
    requires |rank| == |ent| && Below(ent, rank, u, bound, who) && from <= |u|
    ensures Below(ent, rank, u[from..], bound, who)
  {
    forall k | 0 <= k < |u| - from && RefAt(ent, u[from..], k, who) < |ent|
      ensures rank[RefAt(ent, u[from..], k, who)] < bound
    {
      assert u[from..][k + 1..] == u[from + k + 1..];
      assert RefAt(ent, u, from + k, who) == RefAt(ent, u[from..], k, who);
    }
  }

  lemma CheckSeesMore(ent: seq<Entity>, rank: seq<nat>, u: string, bound: nat, who: Reader)
    requires |rank| == |ent| && Below(ent, rank, u, bound, Check)
    ensures Below(ent, rank, u, bound, who)
  {
    forall k | 0 <= k < |u| && RefAt(ent, u, k, who) < |ent|
      ensures rank[RefAt(ent, u, k, who)] < bound
    {
      assert RefAt(ent, u, k, Check) == RefAt(ent, u, k, who);
    }
  }

  /** How many steps the expansion of a text can take: one for each character, and for a
      reference those of its value besides. */
  ghost function Weight(ent: seq<Entity>, rank: seq<nat>, u: string, bound: nat, who: Reader): (w: nat)
    requires Ranked(ent, rank) && Below(ent, rank, u, bound, who)
    ensures w >= |u|
    decreases bound, |u|
  {
    if u == "" then 0
    else
      BelowTail(ent, rank, u, bound, 1, who);
      var j := RefAt(ent, u, 0, who);
      var rest := Weight(ent, rank, u[1..], bound, who);
      if j == |ent| then 1 + rest
      else
        FoundIsEffective(ent, u[1..]);
        CheckSeesMore(ent, rank, ent[j].value, rank[j], who);
        1 + Weight(ent, rank, ent[j].value, rank[j], who) + rest
  }

  lemma {:induction false} WeightAnyBound(ent: seq<Entity>, rank: seq<nat>, u: string, b: nat, c: nat, who: Reader)
    requires Ranked(ent, rank) && Below(ent, rank, u, b, who) && Below(ent, rank, u, c, who)
    ensures Weight(ent, rank, u, b, who) == Weight(ent, rank, u, c, who)
    decreases |u|
  {
    if u != "" {
      BelowTail(ent, rank, u, b, 1, who);
      BelowTail(ent, rank, u, c, 1, who);
      WeightAnyBound(ent, rank, u[1..], b, c, who);
    }
  }

  lemma {:induction false} WeightTail(ent: seq<Entity>, rank: seq<nat>, u: string, bound: nat, from: nat, who: Reader)
    requires Ranked(ent, rank) && Below(ent, rank, u, bound, who) && from <= |u|
    ensures Below(ent, rank, u[from..], bound, who)
    ensures Weight(ent, rank, u[from..], bound, who) + from <= Weight(ent, rank, u, bound, who)
    decreases from
  {
    BelowTail(ent, rank, u, bound, from, who);
    if from == 0 {
      assert u[0..] == u;
    } else {
      BelowTail(ent, rank, u, bound, 1, who);
      WeightTail(ent, rank, u[1..], bound, from - 1, who);
      assert u[1..][from - 1..] == u[from..];
    }
  }

  lemma PrefixComplete(n: string, x: string, w: string)
    requires NameOk(n) && ';' in x
    ensures Prefix(n, x + w) <==> Prefix(n, x)
  {
    var k :| 0 <= k < |x| && x[k] == ';';
    assert Prefix(n, x + w) && k < |n| ==> n[k] == (x + w)[..|n|][k] == ';';
    assert |n| <= |x| ==> (x + w)[..|n|] == x[..|n|];
  }

  lemma {:induction false} LookupComplete(ent: seq<Entity>, x: string, w: string)
    requires Named(ent) && ';' in x
    ensures Lookup(ent, x + w) == Lookup(ent, x)
  {
    if ent != [] {
      PrefixComplete(ent[0].name, x, w);
      assert Named(ent[1..]);
      LookupComplete(ent[1..], x, w);
    }
  }

  lemma HashFindsNone(ent: seq<Entity>, u: string)
    requires forall i :: 0 <= i < |ent| ==> ent[i].name != "" && ent[i].name[0] != '#'
    requires u != "" && u[0] == '#'
    ensures Lookup(ent, u) == |ent|
  {
    forall i | 0 <= i < |ent|
      ensures !Prefix(ent[i].name, u)
    {
      OtherStart(ent[i].name, u);
    }
  }

  lemma OtherStart(n: string, u: string)
    requires n != "" && u != "" && n[0] != u[0]
    ensures !Prefix(n, u)
  {
    assert |n| <= |u| ==> u[..|n|][0] == u[0];
  }

  /** What a complete value refers to does not depend on the text behind it. */
  lemma FirstRef(ent: seq<Entity>, v: string, w: string)
    requires Written(ent) && Complete(v) && v != ""
    ensures RefAt(ent, v + w, 0, Decoder) == RefAt(ent, v, 0, Decoder)
  {
    assert (v + w)[1..] == v[1..] + w;
    if v[0] == '&' && !Numeric(v, 0) {
      assert |v| > 1;
      LookupComplete(ent, v[1..], w);
    }
  }

  /** What the decoder finds is complete. */
  lemma FoundIsComplete(ent: seq<Entity>, u: string)
    requires Written(ent) && u != "" && RefAt(ent, u, 0, Decoder) < |ent|
    ensures Complete(ent[RefAt(ent, u, 0, Decoder)].value)
  {
    var e := ent[Lookup(ent, u[1..])];
    assert Harmless(e) && Prefix(e.name, u[1..]);
    if Prefix("#", e.name) {
      PrefixOfPrefix("#", e.name, u[1..]);
    }
  }

  /** What the first character weighs. */
  ghost function FirstWeight(ent: seq<Entity>, rank: seq<nat>, j: nat, who: Reader): nat
    requires Ranked(ent, rank) && (j < |ent| ==> Effective(ent, j))
  {
    if j < |ent| then
      CheckSeesMore(ent, rank, ent[j].value, rank[j], who);
      1 + Weight(ent, rank, ent[j].value, rank[j], who)
    else 1
  }

  lemma WeightFirst(ent: seq<Entity>, rank: seq<nat>, u: string, bound: nat, who: Reader)
    requires Ranked(ent, rank) && Below(ent, rank, u, bound, who) && u != ""
    ensures Below(ent, rank, u[1..], bound, who)
    ensures RefAt(ent, u, 0, who) < |ent| ==> Effective(ent, RefAt(ent, u, 0, who))
    ensures Weight(ent, rank, u, bound, who)
         == FirstWeight(ent, rank, RefAt(ent, u, 0, who), who) + Weight(ent, rank, u[1..], bound, who)
  {
    BelowTail(ent, rank, u, bound, 1, who);
    if RefAt(ent, u, 0, who) < |ent| {
      FoundIsEffective(ent, u[1..]);
    }
  }

  /** Replacing a reference in front by its value: the weights add up, because the value
      completes its references itself. */
  lemma {:induction false} WeightConcat(ent: seq<Entity>, rank: seq<nat>, v: string, w: string, bound: nat)
    requires Written(ent) && Ranked(ent, rank) && Complete(v)
    requires Below(ent, rank, v, bound, Decoder) && Below(ent, rank, w, bound, Decoder)
    ensures Below(ent, rank, v + w, bound, Decoder)
    ensures Weight(ent, rank, v + w, bound, Decoder)
         == Weight(ent, rank, v, bound, Decoder) + Weight(ent, rank, w, bound, Decoder)
    decreases |v|
  {
    if v == "" {
      assert v + w == w;
    } else {
      assert (v + w)[1..] == v[1..] + w;
      WeightFirst(ent, rank, v, bound, Decoder);
      CompleteTail(v);
      FirstRef(ent, v, w);
      FirstBelow(ent, rank, v, bound, Decoder);
      hide Weight, Below, Complete, Written, Ranked, FirstWeight, RefAt;
      WeightConcat(ent, rank, v[1..], w, bound);
      BelowFirst(ent, rank, v + w, bound, Decoder);
      WeightFirst(ent, rank, v + w, bound, Decoder);
    }
  }

  lemma FirstBelow(ent: seq<Entity>, rank: seq<nat>, u: string, bound: nat, who: Reader)
    requires |rank| == |ent| && u != "" && Below(ent, rank, u, bound, who)
    ensures RefAt(ent, u, 0, who) < |ent| ==> rank[RefAt(ent, u, 0, who)] < bound
  {
  }

  lemma CompleteTail(v: string)
    requires Complete(v) && v != ""
    ensures Complete(v[1..])
  {
    forall k | 0 <= k < |v| - 1 && v[1..][k] == '&' && !Numeric(v[1..], k)
      ensures ';' in v[1..][k + 1..]
    {
      assert v[1..][k + 1..] == v[k + 2..] && !Numeric(v, k + 1);
    }
  }

  lemma BelowFirst(ent: seq<Entity>, rank: seq<nat>, u: string, bound: nat, who: Reader)
    requires |rank| == |ent| && u != "" && Below(ent, rank, u[1..], bound, who)
    requires RefAt(ent, u, 0, who) < |ent| ==> rank[RefAt(ent, u, 0, who)] < bound
    ensures Below(ent, rank, u, bound, who)
  {
    forall k | 0 <= k < |u| && RefAt(ent, u, k, who) < |ent|
      ensures rank[RefAt(ent, u, k, who)] < bound
    {
      if k > 0 {
        assert u[1..][k..] == u[k + 1..];
        assert RefAt(ent, u[1..], k - 1, who) == RefAt(ent, u, k, who);
      }
    }
  }

  // ---------------------------------------------------------------------------- the table

  /** A rank for a table, and a bound for all texts. */
  ghost function RankOf(ent: seq<Entity>): (rank: seq<nat>)
    requires Acyclic(ent)
    ensures Ranked(ent, rank)
  {
    var rank :| Ranked(ent, rank);
    rank
  }

  ghost function Top(rank: seq<nat>): (b: nat)
    ensures forall i :: 0 <= i < |rank| ==> rank[i] < b
  {
    if rank == [] then 0 else
      var b := Top(rank[1..]);
      assert forall i :: 0 < i < |rank| ==> rank[i] == rank[1..][i - 1];
      if rank[0] < b then b else rank[0] + 1
  }

  ghost predicate TableOk(ent: seq<Entity>) {
    Written(ent) && Acyclic(ent)
  }

  /** The measure for all walks over a text and its expansions. */
  ghost function Steps(ent: seq<Entity>, u: string, who: Reader): (n: nat)
    requires Acyclic(ent)
    ensures n >= |u|
  {
    Weight(ent, RankOf(ent), u, Top(RankOf(ent)), who)
  }

  lemma TopBounds(ent: seq<Entity>, rank: seq<nat>, u: string, who: Reader)
    requires |rank| == |ent|
    ensures Below(ent, rank, u, Top(rank), who)
  {
  }

  lemma StepsTail(ent: seq<Entity>, u: string, from: nat, who: Reader)
    requires Acyclic(ent) && from <= |u|
    ensures Steps(ent, u[from..], who) + from <= Steps(ent, u, who)
  {
    WeightTail(ent, RankOf(ent), u, Top(RankOf(ent)), from, who);
  }

  /** A text weighs more than the value that it refers to. */
  lemma StepsValue(ent: seq<Entity>, u: string, who: Reader)
    requires Acyclic(ent) && u != "" && RefAt(ent, u, 0, who) < |ent|
    ensures Steps(ent, ent[RefAt(ent, u, 0, who)].value, who) + Steps(ent, u[1..], who) < Steps(ent, u, who)
  {
    var rank, b, j := RankOf(ent), Top(RankOf(ent)), RefAt(ent, u, 0, who);
    WeightFirst(ent, rank, u, b, who);
    CheckSeesMore(ent, rank, ent[j].value, rank[j], who);
    TopBounds(ent, rank, ent[j].value, who);
    hide RefAt, Below, Top, Ranked, Weight;
    WeightAnyBound(ent, rank, ent[j].value, rank[j], b, who);
  }

  /** A reference weighs more than what it is replaced by. */
  lemma StepsExpand(ent: seq<Entity>, u: string, from: nat)
    requires TableOk(ent) && u != "" && 1 <= from <= |u| && RefAt(ent, u, 0, Decoder) < |ent|
    ensures Steps(ent, ent[RefAt(ent, u, 0, Decoder)].value + u[from..], Decoder) < Steps(ent, u, Decoder)
  {
    var rank, b, j := RankOf(ent), Top(RankOf(ent)), RefAt(ent, u, 0, Decoder);
    var v := ent[j].value;
    FoundIsComplete(ent, u);
    StepsValue(ent, u, Decoder);
    WeightConcat(ent, rank, v, u[from..], b);
    StepsTail(ent, u[1..], from - 1, Decoder);
    assert u[1..][from - 1..] == u[from..];
  }

  // ------------------------------------------------------------------ circular references

  /** No expansion of the text refers to the name. */
  ghost predicate Avoids(name: string, u: string, ent: seq<Entity>)
    requires Acyclic(ent)
    decreases Steps(ent, u, Check)
  {
    u == ""
    || (
      StepsTail(ent, u, 1, Check);
      var j := RefAt(ent, u, 0, Check);
      && !(u[0] == '&' && Prefix(name, u[1..]))
      && (j < |ent| ==> (StepsValue(ent, u, Check); Avoids(name, ent[j].value, ent)))
      && Avoids(name, u[1..], ent))
  }

  /** What the first character of a text has to do with it. */
  lemma AvoidsFirst(name: string, s: string, at: nat, ent: seq<Entity>)
    requires Acyclic(ent) && at <= |s|
    ensures at == |s| ==> Avoids(name, s[at..], ent)
    ensures at < |s| && s[at] != '&' ==> Avoids(name, s[at..], ent) == Avoids(name, s[at + 1..], ent)
    ensures at < |s| && s[at] == '&' && Prefix(name, s[at + 1..]) ==> !Avoids(name, s[at..], ent)
    ensures at < |s| && s[at] == '&' && !Prefix(name, s[at + 1..]) ==>
      var i := Lookup(ent, s[at + 1..]);
      Avoids(name, s[at..], ent) == ((i < |ent| ==> Avoids(name, ent[i].value, ent)) && Avoids(name, s[at + 1..], ent))
  {
    if at < |s| {
      assert s[at..][1..] == s[at + 1..];
    }
  }

  /** The next '&', or the end. */
  method FindReference(s: string, start: nat, ghost name: string, ghost ent: seq<Entity>) returns (at: nat)
    requires start <= |s| && Acyclic(ent)
    ensures start <= at <= |s| && (at < |s| ==> s[at] == '&')
    ensures Avoids(name, s[start..], ent) == Avoids(name, s[at..], ent)
  {
    hide Avoids, Acyclic;
    at := start;
    while at < |s| && s[at] != '&'
      invariant start <= at <= |s| && Avoids(name, s[start..], ent) == Avoids(name, s[at..], ent)
    {
      AvoidsFirst(name, s, at, ent);
      at := at + 1;
    }
  }

  lemma ReferenceShrinks(s: string, at: nat, ent: seq<Entity>)
    requires Acyclic(ent) && at < |s| && s[at] == '&' && Lookup(ent, s[at + 1..]) < |ent|
    ensures Steps(ent, ent[Lookup(ent, s[at + 1..])].value, Check) < Steps(ent, s, Check)
  {
    assert s[at..][1..] == s[at + 1..];
    StepsTail(ent, s, at, Check);
    StepsValue(ent, s[at..], Check);
  }

  /** `ezxml_ent_ok`; it ends because the table has no circular definitions. */
  method EntOk(name: string, s: string, ent: seq<Entity>) returns (ok: bool)
    requires Acyclic(ent)
    ensures ok <==> Avoids(name, s, ent)
    decreases Steps(ent, s, Check)
  {
    hide Avoids, Acyclic, Steps;
    var at := 0;
    assert s[0..] == s;
    while true
      invariant at <= |s| && Avoids(name, s, ent) == Avoids(name, s[at..], ent)
      decreases |s| - at
    {
      at := FindReference(s, at, name, ent);
      AvoidsFirst(name, s, at, ent);
      if at == |s| {
        return true;
      }
      if Prefix(name, s[at + 1..]) {
        return false;
      }
      var i := Lookup(ent, s[at + 1..]);
      if i < |ent| {
        ReferenceShrinks(s, at, ent);
        var inner := EntOk(name, ent[i].value, ent);
        if !inner {
          return false;
        }
      }
      at := at + 1;
    }
  }

  /** The entries that expansions of the text refer to. */
  ghost function Reached(u: string, ent: seq<Entity>): (r: set<nat>)
    requires Acyclic(ent)
    decreases Steps(ent, u, Check)
  {
    if u == "" then {} else
      StepsTail(ent, u, 1, Check);
      var j := RefAt(ent, u, 0, Check);
      (if j < |ent| then (StepsValue(ent, u, Check); {j} + Reached(ent[j].value, ent)) else {}) + Reached(u[1..], ent)
  }

  lemma {:induction false} ReachedRefs(u: string, ent: seq<Entity>, k: nat)
    requires Acyclic(ent) && k < |u| && RefAt(ent, u, k, Check) < |ent|
    ensures RefAt(ent, u, k, Check) in Reached(u, ent)
    decreases k
  {
    StepsTail(ent, u, 1, Check);
    if k > 0 {
      assert u[1..][k..] == u[k + 1..];
      ReachedRefs(u[1..], ent, k - 1);
    }
  }

  /** What is reached through an entry that is reached is reached. */
  lemma {:induction false} ReachedClosed(u: string, ent: seq<Entity>, i: nat)
    requires Acyclic(ent) && i in Reached(u, ent)
    ensures i < |ent| && Effective(ent, i) && Reached(ent[i].value, ent) <= Reached(u, ent)
    decreases Steps(ent, u, Check)
  {
    if u != "" {
      StepsTail(ent, u, 1, Check);
      var j := RefAt(ent, u, 0, Check);
      if i in Reached(u[1..], ent) {
        ReachedClosed(u[1..], ent, i);
      } else {
        StepsValue(ent, u, Check);
        FoundIsEffective(ent, u[1..]);
        if i != j {
          ReachedClosed(ent[j].value, ent, i);
        }
      }
    }
  }

  /** What is reached avoids the name too. */
  lemma {:induction false} ReachedAvoids(name: string, u: string, ent: seq<Entity>, i: nat)
    requires Acyclic(ent) && Avoids(name, u, ent) && i in Reached(u, ent)
    ensures i < |ent| && Avoids(name, ent[i].value, ent)
    decreases Steps(ent, u, Check)
  {
    if u != "" {
      StepsTail(ent, u, 1, Check);
      var j := RefAt(ent, u, 0, Check);
      if i in Reached(u[1..], ent) {
        ReachedAvoids(name, u[1..], ent, i);
      } else {
        StepsValue(ent, u, Check);
        if i != j {
          ReachedAvoids(name, ent[j].value, ent, i);
        }
      }
    }
  }

  lemma {:induction false} AvoidsRefs(name: string, u: string, ent: seq<Entity>, k: nat)
    requires Acyclic(ent) && Avoids(name, u, ent) && k < |u| && u[k] == '&'
    ensures !Prefix(name, u[k + 1..])
    decreases k
  {
    StepsTail(ent, u, 1, Check);
    if k > 0 {
      assert u[1..][k..] == u[k + 1..];
      AvoidsRefs(name, u[1..], ent, k - 1);
    }
  }

  // -------------------------------------------------------------------- a new definition

  lemma {:induction false} LookupExtended(ent: seq<Entity>, e: Entity, u: string)
    ensures Lookup(ent + [e], u) == if Lookup(ent, u) < |ent| then Lookup(ent, u)
                                    else if Prefix(e.name, u) then |ent| else |ent| + 1
  {
    if ent == [] {
      assert (ent + [e])[1..] == [];
    } else {
      assert (ent + [e])[1..] == ent[1..] + [e];
      LookupExtended(ent[1..], e, u);
    }
  }

  /** Ranks for the table with a new entry: what the new value reaches stays where it is, the
      new entry comes above, and everything else above that. */
  ghost function NewRank(ent: seq<Entity>, rank: seq<nat>, reached: set<nat>): (r: seq<nat>)
    requires |rank| == |ent|
    ensures |r| == |ent| + 1
  {
    seq(|ent| + 1, i requires 0 <= i < |ent| + 1 =>
      if i == |ent| then Top(rank) else if i in reached then rank[i] else rank[i] + Top(rank) + 1)
  }

  lemma NewBelow(ent: seq<Entity>, rank: seq<nat>, e: Entity, i: nat)
    requires Acyclic(ent) && Ranked(ent, rank) && Avoids(e.name, e.value, ent)
    requires i <= |ent| && Effective(ent + [e], i)
    ensures var all, r := ent + [e], NewRank(ent, rank, Reached(e.value, ent)); Below(all, r, all[i].value, r[i], Check)
  {
    var all, reached := ent + [e], Reached(e.value, ent);
    var r, v := NewRank(ent, rank, reached), all[i].value;
    LookupExtended(ent, e, all[i].name);
    if i in reached {
      ReachedClosed(e.value, ent, i);
      ReachedAvoids(e.name, e.value, ent, i);
    }
    forall k | 0 <= k < |v| && RefAt(all, v, k, Check) < |all|
      ensures r[RefAt(all, v, k, Check)] < r[i]
    {
      LookupExtended(ent, e, v[k + 1..]);
      var j := RefAt(ent, v, k, Check);
      if i == |ent| || i in reached {
        AvoidsRefs(e.name, v, ent, k);
        ReachedRefs(v, ent, k);
      }
      if i < |ent| && j < |ent| {
        assert rank[j] < rank[i];
      }
    }
  }

  /** A definition that passes the check keeps the table free of circular definitions. */
  lemma DefinitionKeeps(ent: seq<Entity>, e: Entity)
    requires Acyclic(ent) && Avoids(e.name, e.value, ent)
    ensures Acyclic(ent + [e])
  {
    var all := ent + [e];
    var r := NewRank(ent, RankOf(ent), Reached(e.value, ent));
    forall i | 0 <= i < |all| && Effective(all, i)
      ensures Below(all, r, all[i].value, r[i], Check)
    {
      NewBelow(ent, RankOf(ent), e, i);
    }
    assert Ranked(all, r);
  }

  lemma NotLonger(m: string, n: string, u: string)
    requires NameOk(m) && NameOk(n) && Prefix(m, u) && Prefix(n, u)
    ensures |n| <= |m|
  {
    assert u[|m| - 1] == m[|m| - 1];
    assert forall i :: 0 <= i < |n| ==> n[i] == u[i];
  }

  /** Two names in front of the same text are the same name. */
  lemma OneName(m: string, n: string, u: string)
    requires NameOk(m) && NameOk(n) && Prefix(m, u) && Prefix(n, u)
    ensures m == n
  {
    NotLonger(m, n, u);
    NotLonger(n, m, u);
  }

  /** Where the ranks of a table with a new name `e` fall, `e` is avoided. */
  lemma {:induction false} RankAvoids(ent: seq<Entity>, e: Entity, r: seq<nat>, u: string, bound: nat)
    requires Named(ent) && Acyclic(ent) && NameOk(e.name) && Lookup(ent, e.name) == |ent|
    requires Ranked(ent + [e], r) && Below(ent + [e], r, u, bound, Check) && bound <= r[|ent|]
    ensures Avoids(e.name, u, ent)
    decreases Steps(ent, u, Check)
  {
    var all := ent + [e];
    if u != "" {
      StepsTail(ent, u, 1, Check);
      BelowTail(all, r, u, bound, 1, Check);
      RankAvoids(ent, e, r, u[1..], bound);
      LookupExtended(ent, e, u[1..]);
      var j := RefAt(ent, u, 0, Check);
      if j < |ent| {
        FirstBelow(all, r, u, bound, Check);
        FoundIsEffective(all, u[1..]);
        StepsValue(ent, u, Check);
        assert all[j] == ent[j];
        RankAvoids(ent, e, r, ent[j].value, r[j]);
        if Prefix(e.name, u[1..]) {
          OneName(e.name, ent[j].name, u[1..]);
          assert false;
        }
      } else {
        FirstBelow(all, r, u, bound, Check);
      }
    }
  }

  /** The check is exact: a new name may be defined as a value just when no circular
      definition comes of it. */
  lemma CheckIsExact(ent: seq<Entity>, e: Entity)
    requires Named(ent) && Acyclic(ent) && NameOk(e.name) && Lookup(ent, e.name) == |ent|
    ensures Acyclic(ent + [e]) <==> Avoids(e.name, e.value, ent)
  {
    if Avoids(e.name, e.value, ent) {
      DefinitionKeeps(ent, e);
    }
    if Acyclic(ent + [e]) {
      var all := ent + [e];
      LookupExtended(ent, e, e.name);
      assert Effective(all, |ent|) && all[|ent|] == e;
      RankAvoids(ent, e, RankOf(all), e.value, RankOf(all)[|ent|]);
    }
  }

  // ------------------------------------------------------------------ character references

  function DigitValue(c: char): nat {
    if '0' <= c <= '9' then c as int - '0' as int
    else if 'a' <= c <= 'z' then c as int - 'a' as int + 10
    else if 'A' <= c <= 'Z' then c as int - 'A' as int + 10
    else 36
  }

  /** The end of the digits from a place on. */
  function DigitsEnd(u: string, at: nat, base: nat): (e: nat)
    requires at <= |u|
    ensures at <= e <= |u|
    decreases |u| - at
  {
    if at < |u| && DigitValue(u[at]) < base then DigitsEnd(u, at + 1, base) else at
  }

  function Number(digits: string, base: nat): nat {
    if digits == "" then 0 else Number(digits[..|digits| - 1], base) * base + DigitValue(digits[|digits| - 1])
  }

  function SpaceEnd(u: string, at: nat): (e: nat)
    requires at <= |u|
    ensures at <= e <= |u|
    decreases |u| - at
  {
    if at < |u| && IsSpace(u[at]) then SpaceEnd(u, at + 1) else at
  }

  datatype Long = Parsed(value: int, end: nat)

  predicate Negative(u: string, at: nat)
    requires at <= |u|
  {
    SpaceEnd(u, at) < |u| && u[SpaceEnd(u, at)] == '-'
  }

  /** Behind white space, a sign, and 0x to base 16. */
  function DigitsStart(u: string, at: nat, base: nat): (s: nat)
    requires at <= |u|
    ensures at <= s <= |u|
  {
    var p := SpaceEnd(u, at);
    var q := if p < |u| && (u[p] == '-' || u[p] == '+') then p + 1 else p;
    var hex := base == 16 && q + 2 < |u| && u[q] == '0' && (u[q + 1] == 'x' || u[q + 1] == 'X')
               && DigitValue(u[q + 2]) < 16;
    if hex then q + 2 else q
  }

  /** `strtol`: white space, a sign, 0x to base 16, and digits; the value is cut off at the
      limits of a 64-bit long. */
  function Strtol(u: string, at: nat, base: nat): (n: Long)
    requires at <= |u|
    ensures at <= n.end <= |u|
    ensures -0x8000_0000_0000_0000 <= n.value < 0x8000_0000_0000_0000
  {
    var start := DigitsStart(u, at, base);
    var end := DigitsEnd(u, start, base);
    if end == start then Parsed(0, at)
    else
      var v: int := Number(u[start..end], base);
      Parsed(if Negative(u, at) then (if v > 0x8000_0000_0000_0000 then -0x8000_0000_0000_0000 else -v)
             else if v >= 0x8000_0000_0000_0000 then 0x7FFF_FFFF_FFFF_FFFF else v, end)
  }

  /** The number after "&#", to the base that it asks for. */
  function RefNumber(u: string): (n: Long)
    requires Prefix("&#", u)
    ensures 2 <= n.end <= |u|
  {
    if |u| > 2 && u[2] == 'x' then Strtol(u, 3, 16) else Strtol(u, 2, 10)
  }

  predicate IsCharRef(u: string) {
    Prefix("&#", u) && var n := RefNumber(u); n.value != 0 && n.end < |u| && u[n.end] == ';'
  }

  /** A number as one byte below 0x80, else as a multi-byte sequence. */
  function CharText(c: int): (s: string)
    ensures s != ""
  {
    if c < 0x80 then [(c % 256) as char]
    else
      var b := Utf8.CharBytes(c);
      seq(|b|, i requires 0 <= i < |b| => b[i] as char)
  }

  // ---------------------------------------------------------------------------- decoding

  /** `&` for character content, ` ` for attributes, `c` for cdata sections */
  datatype Mode = Content | Attribute | Cdata

  /** CR LF and CR become LF. */
  function Lines(u: string): string
    decreases |u|
  {
    if u == "" then ""
    else if u[0] != '\r' then [u[0]] + Lines(u[1..])
    else "\n" + Lines(if |u| > 1 && u[1] == '\n' then u[2..] else u[1..])
  }

  /** `strchr(s, ';')`: the place behind the first ';', or the end. */
  function SemiEnd(u: string): (n: nat)
    ensures n <= |u|
  {
    if u == "" then 0 else if u[0] == ';' then 1 else 1 + SemiEnd(u[1..])
  }

  lemma {:induction false} SemiOfName(n: string, u: string)
    requires NameOk(n) && Prefix(n, u)
    ensures SemiEnd(u) == |n|
    decreases |n|
  {
    assert u[0] == u[..|n|][0] == n[0];
    if |n| > 1 {
      assert u[1..][..|n| - 1] == u[..|n|][1..] == n[1..];
      SemiOfName(n[1..], u[1..]);
    }
  }

  /** What the decoding loop does at the front of a text: write something, and go on with a
      text in which that is behind it. */
  datatype Turn = Turn(written: string, rest: string)

  function TurnAt(u: string, ent: seq<Entity>, mode: Mode): Turn
    requires u != ""
  {
    if mode != Cdata && IsCharRef(u) then Turn(CharText(RefNumber(u).value), u[RefNumber(u).end + 1..])
    else if u[0] == '&' && mode != Cdata && !Prefix("&#", u) && Lookup(ent, u[1..]) < |ent| then
      var e := ent[Lookup(ent, u[1..])];
      Turn("", e.value + u[1 + SemiEnd(u[1..])..])
    else if mode == Attribute && IsSpace(u[0]) then Turn(" ", u[1..])
    else Turn([u[0]], u[1..])
  }

  lemma NumericFront(u: string)
    requires u != ""
    ensures Numeric(u, 0) == Prefix("&#", u)
  {
    assert |u| >= 2 ==> u[..2] == [u[0], u[1]];
  }

  lemma TurnShrinks(u: string, ent: seq<Entity>, mode: Mode)
    requires TableOk(ent) && u != ""
    ensures Steps(ent, TurnAt(u, ent, mode).rest, Decoder) < Steps(ent, u, Decoder)
  {
    hide Steps, Acyclic, Written, RefNumber;
    StepsTail(ent, u, 1, Decoder);
    if mode != Cdata && IsCharRef(u) {
      StepsTail(ent, u, RefNumber(u).end + 1, Decoder);
    } else if u[0] == '&' && !Prefix("&#", u) && Lookup(ent, u[1..]) < |ent| {
      NumericFront(u);
      StepsExpand(ent, u, 1 + SemiEnd(u[1..]));
    }
  }

  /** The decoding of a text whose line ends are normal.  It ends for every text, because the
      table has no circular definitions. */
  function Decoded(u: string, ent: seq<Entity>, mode: Mode): string
    requires TableOk(ent)
    decreases Steps(ent, u, Decoder)
  {
    if u == "" then "" else
      TurnShrinks(u, ent, mode);
      TurnAt(u, ent, mode).written + Decoded(TurnAt(u, ent, mode).rest, ent, mode)
  }

  lemma Assoc(a: string, b: string, c: string)
    ensures a + b + c == a + (b + c) && a + "" == a && "" + a == a
  {
  }

  /** The first loop of `ezxml_decode`, in place. */
  method NormalizeLines(text: string) returns (r: string)
    ensures r == Lines(text)
  {
    r := text;
    var s: nat := 0;
    Assoc(Lines(text), "", "");
    assert r[0..] == text;
    while s < |r|
      invariant s <= |r| && r[..s] + Lines(r[s..]) == Lines(text)
      decreases |r| - s
    {
      while s < |r| && r[s] == '\r'
        invariant s <= |r| && r[..s] + Lines(r[s..]) == Lines(text)
        decreases |r| - s
      {
        ghost var front, u := r[..s], r[s..];
        r := r[s := '\n'];
        s := s + 1;
        if s < |r| && r[s] == '\n' {
          r := r[..s] + r[s + 1..];
        }
        assert r[..s] == front + "\n";
        assert r[s..] == if |u| > 1 && u[1] == '\n' then u[2..] else u[1..];
        Assoc(front, "\n", Lines(r[s..]));
      }
      if s < |r| {
        assert r[s..][1..] == r[s + 1..] && r[..s + 1] == r[..s] + [r[s]];
        Assoc(r[..s], [r[s]], Lines(r[s + 1..]));
        s := s + 1;
      }
    }
    assert r[..s] == r && r[s..] == "";
  }

  /** A character that begins nothing is passed over. */
  lemma SkipsOver(r: string, s: nat, ent: seq<Entity>, mode: Mode)
    requires TableOk(ent) && s < |r|
    requires TurnAt(r[s..], ent, mode) == Turn([r[s]], r[s..][1..])
    ensures r[..s] + Decoded(r[s..], ent, mode) == r[..s + 1] + Decoded(r[s + 1..], ent, mode)
    ensures Steps(ent, r[s + 1..], Decoder) < Steps(ent, r[s..], Decoder)
  {
    assert r[s..][1..] == r[s + 1..] && r[..s + 1] == r[..s] + [r[s]];
    StepsTail(ent, r[s..], 1, Decoder);
    hide TurnAt, Steps;
    Assoc(r[..s], [r[s]], Decoded(r[s + 1..], ent, mode));
  }

  /** Replace the front of what follows `s` as the turn says. */
  lemma Replaced(r: string, s: nat, turn: Turn, next: string, ent: seq<Entity>, mode: Mode)
    requires TableOk(ent) && s < |r| && turn == TurnAt(r[s..], ent, mode)
    requires next == r[..s] + turn.written + turn.rest
    ensures var s' := s + |turn.written|;
      && next[s'..] == turn.rest && Steps(ent, next[s'..], Decoder) < Steps(ent, r[s..], Decoder)
      && r[..s] + Decoded(r[s..], ent, mode) == next[..s'] + Decoded(next[s'..], ent, mode)
  {
    var s' := s + |turn.written|;
    TurnShrinks(r[s..], ent, mode);
    hide TurnAt, Steps;
    assert next[..s'] == r[..s] + turn.written && next[s'..] == turn.rest;
    Assoc(r[..s], turn.written, Decoded(turn.rest, ent, mode));
  }

  lemma OneOn(text: string, at: nat, c: char)
    requires at < |text|
    ensures text[at := c] == text[..at] + [c] + text[at..][1..] && text[at := text[at]] == text
  {
  }

  /** One turn at the `&` or white space at `at`, in place. */
  method TakeTurn(text: string, at: nat, ent: seq<Entity>, mode: Mode) returns (r: string, s: nat)
    requires at < |text|
    ensures var turn := TurnAt(text[at..], ent, mode);
      r == text[..at] + turn.written + turn.rest && s == at + |turn.written|
  {
    hide RefNumber, Lookup, CharText;
    r, s := text, at;
    var u := r[s..];
    OneOn(text, at, u[0]);
    OneOn(text, at, ' ');
    if mode != Cdata && IsCharRef(u) {
      var n := RefNumber(u);
      r := r[..s] + CharText(n.value) + u[n.end + 1..];
      s := s + |CharText(n.value)|;
    } else if u[0] == '&' && mode != Cdata && !Prefix("&#", u) {
      var b := Lookup(ent, u[1..]);
      if b < |ent| {
        var e := 1 + SemiEnd(u[1..]);
        r := r[..s] + ent[b].value + u[e..];
        assert r == text[..at] + "" + (ent[b].value + u[e..]);
      } else {
        s := s + 1;
      }
    } else if mode == Attribute && IsSpace(u[0]) {
      r := r[s := ' '];
      s := s + 1;
    } else {
      s := s + 1;
    }
  }

  /** `while (*s && *s != '&' && !isspace(*s)) s++;` */
  method SkipPlain(r: string, start: nat, ghost ent: seq<Entity>, ghost mode: Mode) returns (s: nat)
    requires start <= |r| && TableOk(ent)
    ensures start <= s <= |r| && Steps(ent, r[s..], Decoder) <= Steps(ent, r[start..], Decoder)
    ensures r[..s] + Decoded(r[s..], ent, mode) == r[..start] + Decoded(r[start..], ent, mode)
  {
    hide Acyclic, Written, Steps, Decoded, RefNumber, Lookup;
    s := start;
    while s < |r| && r[s] != '&' && !IsSpace(r[s])
      invariant start <= s <= |r| && Steps(ent, r[s..], Decoder) <= Steps(ent, r[start..], Decoder)
      invariant r[..s] + Decoded(r[s..], ent, mode) == r[..start] + Decoded(r[start..], ent, mode)
    {
      SkipsOver(r, s, ent, mode);
      s := s + 1;
    }
  }

  /** The second loop of `ezxml_decode`, in place. */
  method DecodeLoop(text: string, ent: seq<Entity>, mode: Mode) returns (r: string)
    requires TableOk(ent)
    ensures r == Decoded(text, ent, mode)
  {
    r := text;
    var s: nat := 0;
    Assoc(Decoded(text, ent, mode), "", "");
    assert r[0..] == text;
    hide Acyclic, Written, Steps, TurnAt;
    while true
      invariant s <= |r| && r[..s] + Decoded(r[s..], ent, mode) == Decoded(text, ent, mode)
      decreases Steps(ent, r[s..], Decoder)
    {
      hide Acyclic, Written, Steps, TurnAt, Decoded;
      ghost var steps := Steps(ent, r[s..], Decoder);
      s := SkipPlain(r, s, ent, mode);
      if s == |r| {
        break;
      }
      ghost var before, at := r, s;
      r, s := TakeTurn(r, s, ent, mode);
      Replaced(before, at, TurnAt(before[at..], ent, mode), r, ent, mode);
      assert s <= |r|;
    }
    assert r[..s] == r && r[s..] == "";
  }

  /** `ezxml_decode` in the three modes */
  method Decode(text: string, ent: seq<Entity>, mode: Mode) returns (r: string)
    requires TableOk(ent)
    ensures r == Decoded(Lines(text), ent, mode)
  {
    var lines := NormalizeLines(text);
    r := DecodeLoop(lines, ent, mode);
  }

  // -------------------------------------------------------------------------- round trip

  /** The five entities that every document has. */
  const DEFAULTS: seq<Entity> := [Entity("lt;", "&#60;"), Entity("gt;", "&#62;"), Entity("quot;", "&#34;"),
                                  Entity("apos;", "&#39;"), Entity("amp;", "&#38;")]

  lemma DefaultsWritten()
    ensures Written(DEFAULTS)
  {
    forall i | 0 <= i < 5
      ensures NameOk(DEFAULTS[i].name) && Complete(DEFAULTS[i].value)
    {
      assert DEFAULTS[i].value[1..][|DEFAULTS[i].value| - 2] == ';';
    }
  }

  lemma NoDefaultRefs(i: nat, k: nat)
    requires i < 5 && k < |DEFAULTS[i].value|
    ensures RefAt(DEFAULTS, DEFAULTS[i].value, k, Check) == |DEFAULTS|
  {
    hide Lookup;
    if k == 0 {
      HashFindsNone(DEFAULTS, DEFAULTS[i].value[1..]);
    }
  }

  /** The default table is in order, so decoding with it ends. */
  lemma DefaultsOk()
    ensures TableOk(DEFAULTS)
  {
    DefaultsWritten();
    var rank: seq<nat> := [0, 0, 0, 0, 0];
    hide Lookup, RefAt, Written;
    forall i | 0 <= i < |DEFAULTS|
      ensures Below(DEFAULTS, rank, DEFAULTS[i].value, rank[i], Check)
    {
      forall k | 0 <= k < |DEFAULTS[i].value|
        ensures RefAt(DEFAULTS, DEFAULTS[i].value, k, Check) == |DEFAULTS|
      {
        NoDefaultRefs(i, k);
      }
    }
    assert Ranked(DEFAULTS, rank);
  }

  lemma DefaultFound(i: nat, rest: string)
    requires i < 5
    ensures Lookup(DEFAULTS, DEFAULTS[i].name + rest) == i
  {
    DefaultsWritten();
    var u := DEFAULTS[i].name + rest;
    assert u[..|DEFAULTS[i].name|] == DEFAULTS[i].name;
    var j := Lookup(DEFAULTS, u);
    assert Prefix(DEFAULTS[i].name, u) && j <= i;
    OneName(DEFAULTS[i].name, DEFAULTS[j].name, u);
  }

  /** A reference with one hexadecimal digit */
  lemma HexRef(d: char, rest: string)
    requires d == '9' || d == 'A' || d == 'D'
    ensures var u := "&#x" + [d] + ";" + rest; IsCharRef(u) && RefNumber(u) == Parsed(DigitValue(d), 4)
  {
    var u := "&#x" + [d] + ";" + rest;
    assert u[0] == '&' && u[1] == '#' && u[2] == 'x' && u[3] == d && u[4] == ';';
    assert u[..2] == "&#" && u[3..4] == [d];
    assert DigitsEnd(u, 4, 16) == 4 && DigitsEnd(u, 3, 16) == 4;
    assert [d][..0] == "" && Number([d], 16) == DigitValue(d);
  }

  /** A reference with two decimal digits */
  lemma DecimalRef(c: char, d: char, rest: string)
    requires '1' <= c <= '9' && '0' <= d <= '9'
    ensures var u := "&#" + [c] + [d] + ";" + rest;
      IsCharRef(u) && RefNumber(u) == Parsed(10 * DigitValue(c) + DigitValue(d), 4)
  {
    var u := "&#" + [c] + [d] + ";" + rest;
    assert u[0] == '&' && u[1] == '#' && u[2] == c && u[3] == d && u[4] == ';';
    assert u[..2] == "&#" && u[2..4] == [c, d];
    assert DigitsEnd(u, 4, 10) == 4 && DigitsEnd(u, 3, 10) == 4 && DigitsEnd(u, 2, 10) == 4;
    assert [c, d][..1] == [c] && [c][..0] == "" && Number([c], 10) == DigitValue(c);
  }

  function ModeFor(a: bool): Mode {
    if a then Attribute else Content
  }

  /** The decoding of a text begins with its first turn. */
  lemma DecodedTurn(u: string, turn: Turn, mode: Mode)
    requires TableOk(DEFAULTS) && u != "" && TurnAt(u, DEFAULTS, mode) == turn
    ensures Decoded(u, DEFAULTS, mode) == turn.written + Decoded(turn.rest, DEFAULTS, mode)
  {
    hide TurnAt, Steps, TableOk;
  }

  lemma HexBack(d: char, c: char, a: bool, rest: string)
    requires TableOk(DEFAULTS) && (d == '9' || d == 'A' || d == 'D') && DigitValue(d) == c as int
    ensures Decoded("&#x" + [d] + ";" + rest, DEFAULTS, ModeFor(a)) == [c] + Decoded(rest, DEFAULTS, ModeFor(a))
  {
    hide Decoded, TableOk, Lookup, IsCharRef, RefNumber;
    var u := "&#x" + [d] + ";" + rest;
    HexRef(d, rest);
    assert u[5..] == rest;
    DecodedTurn(u, Turn([c], rest), ModeFor(a));
  }

  lemma DecimalBack(x: char, y: char, c: char, a: bool, rest: string)
    requires TableOk(DEFAULTS) && '1' <= x <= '9' && '0' <= y <= '9'
    requires 10 * DigitValue(x) + DigitValue(y) == c as int
    ensures Decoded("&#" + [x] + [y] + ";" + rest, DEFAULTS, ModeFor(a)) == [c] + Decoded(rest, DEFAULTS, ModeFor(a))
  {
    hide Decoded, TableOk, Lookup, IsCharRef, RefNumber;
    var u := "&#" + [x] + [y] + ";" + rest;
    DecimalRef(x, y, rest);
    assert u[5..] == rest && 10 * DigitValue(x) + DigitValue(y) < 0x80;
    DecodedTurn(u, Turn([c], rest), ModeFor(a));
  }

  lemma SemiAtName(n: string, rest: string)
    requires NameOk(n)
    ensures SemiEnd(n + rest) == |n|
  {
    assert (n + rest)[..|n|] == n;
    SemiOfName(n, n + rest);
  }

  /** An entity reference in front of a text is replaced. */
  lemma Replaces(ent: seq<Entity>, i: nat, rest: string, mode: Mode)
    requires mode != Cdata && i < |ent| && NameOk(ent[i].name) && ent[i].name[0] != '#'
    requires Named(ent) && Effective(ent, i)
    ensures TurnAt("&" + ent[i].name + rest, ent, mode) == Turn("", ent[i].value + rest)
  {
    var n := ent[i].name;
    var u := "&" + n + rest;
    NumericFront(u);
    assert u[1..] == n + rest && u[1] == n[0] && u[1 + |n|..] == rest;
    assert n[|n| - 1] == ';';
    LookupComplete(ent, n, rest);
    SemiAtName(n, rest);
    hide Lookup, RefNumber, SemiEnd;
  }

  /** A named reference is replaced by its value, which is decoded in its turn. */
  lemma NamedTurn(i: nat, mode: Mode, rest: string)
    requires i < 5 && mode != Cdata
    ensures TurnAt("&" + DEFAULTS[i].name + rest, DEFAULTS, mode) == Turn("", DEFAULTS[i].value + rest)
  {
    DefaultsWritten();
    DefaultFound(i, "");
    assert DEFAULTS[i].name + "" == DEFAULTS[i].name;
    hide TurnAt, Lookup, NameOk;
    Replaces(DEFAULTS, i, rest, mode);
  }

  lemma NamedBack(i: nat, x: char, y: char, c: char, a: bool, rest: string)
    requires TableOk(DEFAULTS) && i < 5 && DEFAULTS[i].value == "&#" + [x] + [y] + ";"
    requires '1' <= x <= '9' && '0' <= y <= '9' && 10 * DigitValue(x) + DigitValue(y) == c as int
    ensures Decoded("&" + DEFAULTS[i].name + rest, DEFAULTS, ModeFor(a)) == [c] + Decoded(rest, DEFAULTS, ModeFor(a))
  {
    hide Decoded, TableOk, TurnAt;
    NamedTurn(i, ModeFor(a), rest);
    DecodedTurn("&" + DEFAULTS[i].name + rest, Turn("", DEFAULTS[i].value + rest), ModeFor(a));
    DecimalBack(x, y, c, a, rest);
  }

  /** What becomes of a character that is not encoded: in an attribute, white space becomes
      a space. */
  function Soft(c: char, a: bool): char {
    if a && (c == VT || c == FF) then ' ' else c
  }

  lemma OtherBack(c: char, a: bool, rest: string)
    requires TableOk(DEFAULTS) && c != '&' && (a ==> c != '\t' && c != '\n' && c != '\r')
    ensures Decoded([c] + rest, DEFAULTS, ModeFor(a)) == [Soft(c, a)] + Decoded(rest, DEFAULTS, ModeFor(a))
  {
    hide Decoded, TableOk, Lookup, RefNumber;
    var u := [c] + rest;
    assert u[0] == c && u[1..] == rest;
    NumericFront(u);
    DecodedTurn(u, Turn([Soft(c, a)], rest), ModeFor(a));
  }

  /** Decoding what a character was encoded to gives the character, and goes on behind it. */
  lemma CharBack(c: char, a: bool, rest: string)
    requires c != '\0' && TableOk(DEFAULTS)
    ensures Decoded(AmpChar(c, a) + rest, DEFAULTS, ModeFor(a)) == [Soft(c, a)] + Decoded(rest, DEFAULTS, ModeFor(a))
  {
    hide Decoded, TableOk;
    assert "&" + DEFAULTS[0].name == "&lt;" && "&" + DEFAULTS[1].name == "&gt;";
    assert "&" + DEFAULTS[2].name == "&quot;" && "&" + DEFAULTS[4].name == "&amp;";
    assert "&#x" + ['D'] + ";" == "&#xD;" && "&#x" + ['A'] + ";" == "&#xA;" && "&#x" + ['9'] + ";" == "&#x9;";
    if c == '&' {
      NamedBack(4, '3', '8', c, a, rest);
    } else if c == '<' {
      NamedBack(0, '6', '0', c, a, rest);
    } else if c == '>' {
      NamedBack(1, '6', '2', c, a, rest);
    } else if c == '\"' && a {
      NamedBack(2, '3', '4', c, a, rest);
    } else if c == '\r' {
      HexBack('D', c, a, rest);
    } else if c == '\n' && a {
      HexBack('A', c, a, rest);
    } else if c == '\t' && a {
      HexBack('9', c, a, rest);
    } else {
      OtherBack(c, a, rest);
    }
  }

  /** What comes back from an encoding: the text up to its NUL, in an attribute with spaces
      for vertical tab and form feed. */
  function Softened(s: string, a: bool): string {
    if s == "" || s[0] == '\0' then "" else [Soft(s[0], a)] + Softened(s[1..], a)
  }

  lemma {:induction false} DecodedBack(s: string, a: bool)
    requires TableOk(DEFAULTS)
    ensures Decoded(AmpEncoded(s, a), DEFAULTS, ModeFor(a)) == Softened(s, a)
  {
    hide Decoded, AmpChar, TableOk;
    if s != "" && s[0] != '\0' {
      CharBack(s[0], a, AmpEncoded(s[1..], a));
      DecodedBack(s[1..], a);
    } else {
      DecodedEmpty(a);
    }
  }

  /** A text without NUL, and in an attribute without vertical tab and form feed. */
  predicate Plain(s: string, a: bool) {
    forall i :: 0 <= i < |s| ==> s[i] != '\0' && (a ==> s[i] != VT && s[i] != FF)
  }

  lemma {:induction false} SoftenedSame(s: string, a: bool)
    ensures Softened(s, a) == s <==> Plain(s, a)
  {
    if s != "" {
      SoftenedSame(s[1..], a);
      assert s == [s[0]] + s[1..];
      assert Plain(s, a) <==> s[0] != '\0' && (a ==> s[0] != VT && s[0] != FF) && Plain(s[1..], a) by {
        assert forall i :: 0 <= i < |s[1..]| ==> s[1..][i] == s[i + 1];
      }
    }
  }

  lemma DecodedEmpty(a: bool)
    requires TableOk(DEFAULTS)
    ensures Decoded("", DEFAULTS, ModeFor(a)) == ""
  {
  }

  /** The encoding has no carriage return, so that normal line ends change nothing in it. */
  lemma {:induction false} LinesOfEncoded(s: string, a: bool)
    ensures Lines(AmpEncoded(s, a)) == AmpEncoded(s, a)
  {
    if s != "" && s[0] != '\0' {
      LinesOfEncoded(s[1..], a);
      LinesPass(AmpChar(s[0], a), AmpEncoded(s[1..], a));
    }
  }

  lemma {:induction false} LinesPass(u: string, w: string)
    requires '\r' !in u
    ensures Lines(u + w) == u + Lines(w)
  {
    if u == "" {
      assert u + w == w;
    } else {
      assert (u + w)[1..] == u[1..] + w;
      LinesPass(u[1..], w);
    }
  }

  /** Decoding with the default entities undoes encoding, once (a text such as "&amp;lt;" is
      not decoded twice), for exactly the plain texts. */
  lemma DecodeUndoesEncode(s: string, a: bool)
    ensures TableOk(DEFAULTS)
    ensures Decoded(Lines(AmpEncoded(s, a)), DEFAULTS, ModeFor(a)) == s <==> Plain(s, a)
  {
    DefaultsOk();
    LinesOfEncoded(s, a);
    DecodedBack(s, a);
    SoftenedSame(s, a);
  }

  // ------------------------------------------------------------- more of the code

  /** `ezxml_ampencode`: append the encoding of `s` to `dst`. */
  method AmpEncode(s: string, dst: string, a: bool) returns (r: string)
    ensures r == dst + AmpEncoded(s, a)
  {
    r := dst;
    Assoc(AmpEncoded(s, a), "", "");
    assert s[0..] == s;
    for e := 0 to |s|
      invariant r + AmpEncoded(s[e..], a) == dst + AmpEncoded(s, a)
    {
      hide AmpChar;
      var rest := s[e..];
      assert rest[1..] == s[e + 1..];
      if s[e] == '\0' {
        Assoc(r, "", "");
        return;
      }
      Assoc(r, AmpChar(s[e], a), AmpEncoded(s[e + 1..], a));
      r := r + AmpChar(s[e], a);
    }
    Assoc(r, "", "");
    assert s[|s|..] == "";
  }

  /** The part of `ezxml_internal_dtd` that enters a general entity: a circular definition is
      refused, and otherwise the definition goes to the end of the table. */
  method Define(ent: seq<Entity>, name: string, value: string) returns (r: seq<Entity>, ok: bool)
    requires Acyclic(ent)
    ensures Acyclic(r) && r == if ok then ent + [Entity(name, value)] else ent
    ensures Named(ent) && NameOk(name) && Lookup(ent, name) == |ent| ==> (ok <==> Acyclic(ent + [Entity(name, value)]))
    ensures TableOk(ent) && NameOk(name) && Harmless(Entity(name, value)) ==> TableOk(r)
  {
    ok := EntOk(name, value, ent);
    if Named(ent) && NameOk(name) && Lookup(ent, name) == |ent| {
      CheckIsExact(ent, Entity(name, value));
    }
    if ok {
      DefinitionKeeps(ent, Entity(name, value));
      r := ent + [Entity(name, value)];
    } else {
      r := ent;
    }
  }
}
