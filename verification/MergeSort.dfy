/** Bottom-up merge sort on sequences: the specification of the pointer algorithm in
    src/clients/despotify/sort.c, and what it promises whenever the comparison ranks the keys at hand. */
module MergeSort {

  datatype Item<K, V> = Item(key: K, value: V)

  /** The order test `compare(a, b) <= 0`. */
  type Test<!K> = (K, K) -> bool

  /** `le` ranks the keys in `ks`: any two compare, and the ranking is transitive. */
  ghost predicate RanksAll<K>(le: Test<K>, ks: set<K>) {
    && (forall a, b :: a in ks && b in ks ==> le(a, b) || le(b, a))
    && (forall a, b, c :: a in ks && b in ks && c in ks && le(a, b) && le(b, c) ==> le(a, c))
  }

  ghost predicate KeysIn<K, V>(s: seq<Item<K, V>>, ks: set<K>) {
    forall y <- s :: y.key in ks
  }

  function Min(a: nat, b: nat): nat {
    if a < b then a else b
  }

  function Merge<K, V>(le: Test<K>, a: seq<Item<K, V>>, b: seq<Item<K, V>>): (m: seq<Item<K, V>>)
    ensures |m| == |a| + |b|
    decreases |a| + |b|
  {
    if a == [] then b
    else if b == [] then a
    else if le(a[0].key, b[0].key) then [a[0]] + Merge(le, a[1..], b)
    else [b[0]] + Merge(le, a, b[1..])
  }

  /** One pass: neighbouring runs of length `k` are merged in pairs. */
  function Pass<K, V>(le: Test<K>, s: seq<Item<K, V>>, k: nat): (p: seq<Item<K, V>>)
    requires k > 0
    ensures |p| == |s|
    decreases |s|
  {
    if s == [] then [] else
      var i := Min(k, |s|);
      var j := Min(k + k, |s|);
      Merge(le, s[..i], s[i..j]) + Pass(le, s[j..], k)
  }

  /** Passes with doubling run length until one merge covers the list. */
  function SortFrom<K, V>(le: Test<K>, s: seq<Item<K, V>>, k: nat): (p: seq<Item<K, V>>)
    requires k > 0
    ensures |p| == |s|
    decreases |s| - k
  {
    if |s| <= k + k then Pass(le, s, k) else SortFrom(le, Pass(le, s, k), k + k)
  }

  // ------------------------------------------------------------------------- permutation

  lemma FirstAndRest<T>(s: seq<T>)
    requires s != []
    ensures multiset(s) == multiset{s[0]} + multiset(s[1..])
  {
    assert s == [s[0]] + s[1..];
  }

  lemma ConsCounts<T>(x: T, s: seq<T>)
    ensures multiset([x] + s) == multiset{x} + multiset(s)
  {
  }

  lemma {:induction false} MergePermutes<K, V>(le: Test<K>, a: seq<Item<K, V>>, b: seq<Item<K, V>>)
    ensures multiset(Merge(le, a, b)) == multiset(a) + multiset(b)
    decreases |a| + |b|
  {
    if a == [] || b == [] {
    } else if le(a[0].key, b[0].key) {
      var m := Merge(le, a[1..], b);
      assert Merge(le, a, b) == [a[0]] + m;
      hide Merge;
      MergePermutes(le, a[1..], b);
      ConsCounts(a[0], m);
      FirstAndRest(a);
    } else {
      var m := Merge(le, a, b[1..]);
      assert Merge(le, a, b) == [b[0]] + m;
      hide Merge;
      MergePermutes(le, a, b[1..]);
      ConsCounts(b[0], m);
      FirstAndRest(b);
    }
  }

  lemma ThreeParts<T>(s: seq<T>, i: nat, j: nat)
    requires i <= j <= |s|
    ensures multiset(s) == multiset(s[..i]) + multiset(s[i..j]) + multiset(s[j..])
  {
    assert s == s[..i] + s[i..j] + s[j..];
  }

  lemma {:induction false} PassPermutes<K, V>(le: Test<K>, s: seq<Item<K, V>>, k: nat)
    requires k > 0
    ensures multiset(Pass(le, s, k)) == multiset(s)
    decreases |s|
  {
    hide Merge;
    if s != [] {
      var i, j := Min(k, |s|), Min(k + k, |s|);
      MergePermutes(le, s[..i], s[i..j]);
      PassPermutes(le, s[j..], k);
      ThreeParts(s, i, j);
    }
  }

  lemma {:induction false} SortPermutes<K, V>(le: Test<K>, s: seq<Item<K, V>>, k: nat)
    requires k > 0
    ensures multiset(SortFrom(le, s, k)) == multiset(s)
    decreases |s| - k
  {
    PassPermutes(le, s, k);
    if |s| > k + k {
      SortPermutes(le, Pass(le, s, k), k + k);
    }
  }

  // -------------------------------------------------------------------------- sortedness

  ghost predicate Sorted<K, V>(le: Test<K>, s: seq<Item<K, V>>) {
    forall i, j :: 0 <= i < j < |s| ==> le(s[i].key, s[j].key)
  }

  /** Every run of length `k` is sorted. */
  ghost predicate RunsSorted<K, V>(le: Test<K>, s: seq<Item<K, V>>, k: nat)
    requires k > 0
    decreases |s|
  {
    s == [] || (Sorted(le, s[..Min(k, |s|)]) && RunsSorted(le, s[Min(k, |s|)..], k))
  }

  ghost predicate AllAbove<K, V>(le: Test<K>, x: K, s: seq<Item<K, V>>) {
    forall y <- s :: le(x, y.key)
  }

  lemma {:induction false} MergeMembers<K, V>(le: Test<K>, a: seq<Item<K, V>>, b: seq<Item<K, V>>)
    ensures forall y <- Merge(le, a, b) :: y in a || y in b
  {
    MergePermutes(le, a, b);
    forall y <- Merge(le, a, b)
      ensures y in a || y in b
    {
      assert y in multiset(Merge(le, a, b));
    }
  }

  lemma SortedCons<K, V>(le: Test<K>, x: Item<K, V>, s: seq<Item<K, V>>)
    requires Sorted(le, s) && AllAbove(le, x.key, s)
    ensures Sorted(le, [x] + s)
  {
    var t := [x] + s;
    forall i, j | 0 <= i < j < |t|
      ensures le(t[i].key, t[j].key)
    {
      assert t[j] == s[j - 1] && t[j] in s;
    }
  }

  lemma {:induction false} MergeSorts<K, V>(le: Test<K>, ks: set<K>, a: seq<Item<K, V>>, b: seq<Item<K, V>>)
    requires RanksAll(le, ks) && KeysIn(a, ks) && KeysIn(b, ks) && Sorted(le, a) && Sorted(le, b)
    ensures Sorted(le, Merge(le, a, b))
    decreases |a| + |b|
  {
    if a == [] || b == [] {
    } else if le(a[0].key, b[0].key) {
      MergeSorts(le, ks, a[1..], b);
      MergeMembers(le, a[1..], b);
      assert AllAbove(le, a[0].key, Merge(le, a[1..], b));
      SortedCons(le, a[0], Merge(le, a[1..], b));
    } else {
      MergeSorts(le, ks, a, b[1..]);
      MergeMembers(le, a, b[1..]);
      assert AllAbove(le, b[0].key, Merge(le, a, b[1..]));
      SortedCons(le, b[0], Merge(le, a, b[1..]));
    }
  }

  lemma RunsAfter<K, V>(le: Test<K>, s: seq<Item<K, V>>, k: nat)
    requires k > 0 && RunsSorted(le, s, k)
    ensures var i, j := Min(k, |s|), Min(k + k, |s|);
            Sorted(le, s[..i]) && Sorted(le, s[i..j]) && RunsSorted(le, s[j..], k)
  {
    var i, j := Min(k, |s|), Min(k + k, |s|);
    if |s| > k {
      var t := s[i..];
      assert t[..Min(k, |t|)] == s[i..j] && t[Min(k, |t|)..] == s[j..];
    }
  }

  lemma {:induction false} PassSortsRuns<K, V>(le: Test<K>, ks: set<K>, s: seq<Item<K, V>>, k: nat)
    requires RanksAll(le, ks) && KeysIn(s, ks) && k > 0 && RunsSorted(le, s, k)
    ensures RunsSorted(le, Pass(le, s, k), k + k)
    decreases |s|
  {
    if s != [] {
      var i, j := Min(k, |s|), Min(k + k, |s|);
      RunsAfter(le, s, k);
      var m := Merge(le, s[..i], s[i..j]);
      MergeSorts(le, ks, s[..i], s[i..j]);
      PassSortsRuns(le, ks, s[j..], k);
      var p := Pass(le, s, k);
      assert p[..Min(k + k, |p|)] == m && p[Min(k + k, |p|)..] == Pass(le, s[j..], k);
    }
  }

  lemma PassKeys<K, V>(le: Test<K>, ks: set<K>, s: seq<Item<K, V>>, k: nat)
    requires k > 0 && KeysIn(s, ks)
    ensures KeysIn(Pass(le, s, k), ks)
  {
    PassPermutes(le, s, k);
    forall y <- Pass(le, s, k)
      ensures y.key in ks
    {
      assert y in multiset(Pass(le, s, k));
    }
  }

  lemma {:induction false} SortSorts<K, V>(le: Test<K>, ks: set<K>, s: seq<Item<K, V>>, k: nat)
    requires RanksAll(le, ks) && KeysIn(s, ks) && k > 0 && RunsSorted(le, s, k)
    ensures Sorted(le, SortFrom(le, s, k))
    decreases |s| - k
  {
    PassSortsRuns(le, ks, s, k);
    var p := Pass(le, s, k);
    if |s| > k + k {
      PassKeys(le, ks, s, k);
      SortSorts(le, ks, p, k + k);
    } else {
      assert p[..|p|] == p;
    }
  }

  lemma {:induction false} SinglesSorted<K, V>(le: Test<K>, s: seq<Item<K, V>>)
    ensures RunsSorted(le, s, 1)
    decreases |s|
  {
    if s != [] {
      SinglesSorted(le, s[1..]);
    }
  }

  // --------------------------------------------------------------------------- stability

  /** The items that rank equal to `x`, in order. */
  ghost function Equals<K, V>(le: Test<K>, x: K, s: seq<Item<K, V>>): seq<Item<K, V>> {
    if s == [] then [] else
      (if le(x, s[0].key) && le(s[0].key, x) then [s[0]] else []) + Equals(le, x, s[1..])
  }

  lemma {:induction false} EqualsConcat<K, V>(le: Test<K>, x: K, a: seq<Item<K, V>>, b: seq<Item<K, V>>)
    ensures Equals(le, x, a + b) == Equals(le, x, a) + Equals(le, x, b)
    decreases |a|
  {
    if a == [] {
      assert a + b == b;
    } else {
      assert (a + b)[1..] == a[1..] + b;
      EqualsConcat(le, x, a[1..], b);
    }
  }

  lemma EqualsFirst<K, V>(le: Test<K>, x: K, y: Item<K, V>, s: seq<Item<K, V>>)
    ensures Equals(le, x, [y] + s) == Equals(le, x, [y]) + Equals(le, x, s)
  {
    EqualsConcat(le, x, [y], s);
  }

  lemma {:induction false} NoneEqual<K, V>(le: Test<K>, x: K, s: seq<Item<K, V>>)
    requires forall y <- s :: !le(y.key, x)
    ensures Equals(le, x, s) == []
    decreases |s|
  {
    if s != [] {
      NoneEqual(le, x, s[1..]);
    }
  }

  /** Equal items of the second run, all of which come out before any of the first. */
  lemma SecondRunFirst<K, V>(le: Test<K>, ks: set<K>, x: K, a: seq<Item<K, V>>, y: Item<K, V>)
    requires RanksAll(le, ks) && x in ks && y.key in ks && KeysIn(a, ks) && Sorted(le, a)
    requires a != [] && !le(a[0].key, y.key)
    ensures Equals(le, x, [y]) == [] || Equals(le, x, a) == []
  {
    if le(x, y.key) && le(y.key, x) {
      forall z <- a
        ensures !le(z.key, x)
      {
        assert le(a[0].key, z.key);
      }
      NoneEqual(le, x, a);
    }
  }

  lemma {:induction false} MergeStable<K, V>(le: Test<K>, ks: set<K>, x: K, a: seq<Item<K, V>>, b: seq<Item<K, V>>)
    requires RanksAll(le, ks) && x in ks && KeysIn(a, ks) && KeysIn(b, ks) && Sorted(le, a)
    ensures Equals(le, x, Merge(le, a, b)) == Equals(le, x, a) + Equals(le, x, b)
    decreases |a| + |b|
  {
    hide Equals, RanksAll;
    if a == [] || b == [] {
      assert Equals<K, V>(le, x, []) == [] by { EqualsNone(le, x, if a == [] then a else b); }
    } else if le(a[0].key, b[0].key) {
      MergeStable(le, ks, x, a[1..], b);
      EqualsFirst(le, x, a[0], Merge(le, a[1..], b));
      EqualsFirst(le, x, a[0], a[1..]);
      assert a == [a[0]] + a[1..];
    } else {
      MergeStable(le, ks, x, a, b[1..]);
      EqualsFirst(le, x, b[0], Merge(le, a, b[1..]));
      EqualsFirst(le, x, b[0], b[1..]);
      assert b == [b[0]] + b[1..];
      SecondRunFirst(le, ks, x, a, b[0]);
    }
  }

  lemma EqualsNone<K, V>(le: Test<K>, x: K, s: seq<Item<K, V>>)
    requires s == []
    ensures Equals(le, x, s) == []
  {
  }

  lemma {:induction false} PassStable<K, V>(le: Test<K>, ks: set<K>, x: K, s: seq<Item<K, V>>, k: nat)
    requires RanksAll(le, ks) && x in ks && KeysIn(s, ks) && k > 0 && RunsSorted(le, s, k)
    ensures Equals(le, x, Pass(le, s, k)) == Equals(le, x, s)
    decreases |s|
  {
    hide Equals, RanksAll, RunsSorted, Merge;
    if s != [] {
      var i, j := Min(k, |s|), Min(k + k, |s|);
      var a, b, c := s[..i], s[i..j], s[j..];
      RunsAfter(le, s, k);
      MergeStable(le, ks, x, a, b);
      PassStable(le, ks, x, c, k);
      EqualsConcat(le, x, Merge(le, a, b), Pass(le, c, k));
      assert s == (a + b) + c;
      EqualsConcat(le, x, a + b, c);
      EqualsConcat(le, x, a, b);
    }
  }

  lemma {:induction false} SortStable<K, V>(le: Test<K>, ks: set<K>, x: K, s: seq<Item<K, V>>, k: nat)
    requires RanksAll(le, ks) && x in ks && KeysIn(s, ks) && k > 0 && RunsSorted(le, s, k)
    ensures Equals(le, x, SortFrom(le, s, k)) == Equals(le, x, s)
    decreases |s| - k
  {
    PassStable(le, ks, x, s, k);
    if |s| > k + k {
      PassSortsRuns(le, ks, s, k);
      PassKeys(le, ks, s, k);
      SortStable(le, ks, x, Pass(le, s, k), k + k);
    }
  }

  /** The sort returns the same items, sorted, with equals in their original order. */
  lemma SortCorrect<K, V>(le: Test<K>, ks: set<K>, s: seq<Item<K, V>>)
    requires RanksAll(le, ks) && KeysIn(s, ks)
    ensures var r := SortFrom(le, s, 1);
            && multiset(r) == multiset(s) && Sorted(le, r)
            && forall x <- ks :: Equals(le, x, r) == Equals(le, x, s)
  {
    SinglesSorted(le, s);
    SortPermutes(le, s, 1);
    SortSorts(le, ks, s, 1);
    forall x <- ks
      ensures Equals(le, x, SortFrom(le, s, 1)) == Equals(le, x, s)
    {
      SortStable(le, ks, x, s, 1);
    }
  }
}
