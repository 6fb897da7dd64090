/** The in-place list sort of src/clients/despotify/sort.c.  Nodes are relinked on the heap;
    the result is the list that `MergeSort.SortFrom` describes, made of the same nodes. */
module TrackSort {
  import opened MergeSort

  // -------------------------------------------------------------------------- comparison

  /** What tracks are ordered by; none of it changes while a list is sorted. */
  datatype Key = Key(artist: string, album: string, number: int)

  const INT_MAX := 0x7FFF_FFFF
  const INT_SPAN := 0x1_0000_0000

  predicate IsInt(n: int) {
    -INT_MAX - 1 <= n <= INT_MAX
  }

  /** Two's complement wrap-around of a C int. */
  function Wrap(n: int): (w: int)
    ensures IsInt(w)
  {
    (n + INT_MAX + 1) % INT_SPAN - INT_MAX - 1
  }

  type StrCmp = (string, string) -> int

  /** `track_compare` for two tracks that are both there. */
  function TrackCompare(strcmp: StrCmp, a: Key, b: Key): int {
    var rv := Wrap(strcmp(a.artist, b.artist) * 1000 + strcmp(a.album, b.album) * 10);
    if rv != 0 then rv else Wrap(a.number - b.number)
  }

  /** The test that the merge makes. */
  function NotAfter(strcmp: StrCmp): Test<Key> {
    (a, b) => TrackCompare(strcmp, a, b) <= 0
  }

  function Sign(n: int): int {
    if n < 0 then -1 else if n > 0 then 1 else 0
  }

  function Abs(n: int): nat {
    if n < 0 then -n else n
  }

  /** The order that the comparison is meant to be: artist, then album, then number. */
  function Lexicographic(strcmp: StrCmp, a: Key, b: Key): int {
    var artist, album := strcmp(a.artist, b.artist), strcmp(a.album, b.album);
    if artist != 0 then Sign(artist) else if album != 0 then Sign(album) else Sign(a.number - b.number)
  }

  /** The C library's promise, of which the code uses the size of the result as well. */
  ghost predicate OrdersStrings(strcmp: StrCmp) {
    && (forall a, b :: Sign(strcmp(a, b)) == -Sign(strcmp(b, a)))
    && (forall a, b, c :: strcmp(a, b) <= 0 && strcmp(b, c) <= 0 ==> strcmp(a, c) <= 0)
  }

  /** The weighted sum is itself an int. */
  predicate NoOverflow(strcmp: StrCmp, a: Key, b: Key) {
    IsInt(strcmp(a.artist, b.artist) * 1000 + strcmp(a.album, b.album) * 10)
  }

  /** The album cannot outweigh the artist. */
  predicate ArtistDecides(strcmp: StrCmp, a: Key, b: Key) {
    var artist, album := strcmp(a.artist, b.artist), strcmp(a.album, b.album);
    artist == 0 || album == 0 || Sign(artist) == Sign(album) || Abs(album) < 100 * Abs(artist)
  }

  lemma WrapFits(n: int)
    requires IsInt(n)
    ensures Wrap(n) == n
  {
  }

  /** With equal artist and album the result has the right sign exactly when the difference
      of the track numbers is an int. */
  lemma NumbersExactly(strcmp: StrCmp, a: Key, b: Key)
    requires strcmp(a.artist, b.artist) == 0 == strcmp(a.album, b.album)
    requires IsInt(a.number) && IsInt(b.number)
    ensures Sign(TrackCompare(strcmp, a, b)) == Lexicographic(strcmp, a, b) <==> IsInt(a.number - b.number)
  {
    var d := a.number - b.number;
    if IsInt(d) {
      WrapFits(d);
    } else {
      assert Wrap(d) == if d > 0 then d - INT_SPAN else d + INT_SPAN;
    }
  }

  ghost predicate RightFor(strcmp: StrCmp, a: Key, b: Key, m: int, n: int) {
    var x, y := a.(number := m), b.(number := n);
    Sign(TrackCompare(strcmp, x, y)) == Lexicographic(strcmp, x, y)
  }

  /** Otherwise it has the right sign, whatever the track numbers, exactly when the album
      cannot outweigh the artist. */
  lemma NamesExactly(strcmp: StrCmp, a: Key, b: Key)
    requires NoOverflow(strcmp, a, b) && !(strcmp(a.artist, b.artist) == 0 == strcmp(a.album, b.album))
    ensures ArtistDecides(strcmp, a, b)
       <==> forall m, n :: IsInt(m) && IsInt(n) ==> RightFor(strcmp, a, b, m, n)
  {
    hide Wrap;
    var artist, album := strcmp(a.artist, b.artist), strcmp(a.album, b.album);
    WrapFits(artist * 1000 + album * 10);
    if ArtistDecides(strcmp, a, b) {
      forall m, n
        ensures RightFor(strcmp, a, b, m, n)
      {
        assert TrackCompare(strcmp, a.(number := m), b.(number := n)) == artist * 1000 + album * 10;
      }
    } else {
      // adverse track numbers, for the case that the weighted sum is zero
      var m, n := if artist > 0 then 0 else 1, if artist > 0 then 1 else 0;
      WrapFits(m - n);
      assert !RightFor(strcmp, a, b, m, n);
    }
  }

  /** The keys on which `track_compare` is the lexicographic order. */
  ghost predicate Agreeable(strcmp: StrCmp, ks: set<Key>) {
    forall a, b :: a in ks && b in ks ==>
      && NoOverflow(strcmp, a, b) && ArtistDecides(strcmp, a, b) && IsInt(a.number - b.number)
  }

  lemma AgreeableCompare(strcmp: StrCmp, a: Key, b: Key)
    requires NoOverflow(strcmp, a, b) && ArtistDecides(strcmp, a, b) && IsInt(a.number - b.number)
    ensures Sign(TrackCompare(strcmp, a, b)) == Lexicographic(strcmp, a, b)
  {
    WrapFits(strcmp(a.artist, b.artist) * 1000 + strcmp(a.album, b.album) * 10);
    WrapFits(a.number - b.number);
  }

  lemma LexicographicRanks(strcmp: StrCmp, a: Key, b: Key, c: Key)
    requires OrdersStrings(strcmp)
    ensures Lexicographic(strcmp, a, b) <= 0 || Lexicographic(strcmp, b, a) <= 0
    ensures Lexicographic(strcmp, a, b) <= 0 && Lexicographic(strcmp, b, c) <= 0 ==> Lexicographic(strcmp, a, c) <= 0
  {
    StringsRank(strcmp, a.artist, b.artist, c.artist);
    StringsRank(strcmp, a.album, b.album, c.album);
  }

  lemma StringsRank(strcmp: StrCmp, a: string, b: string, c: string)
    requires OrdersStrings(strcmp)
    ensures Sign(strcmp(a, b)) == -Sign(strcmp(b, a))
    ensures strcmp(a, b) <= 0 && strcmp(b, c) <= 0 ==>
              strcmp(a, c) <= 0 && (strcmp(a, c) == 0 ==> strcmp(a, b) == 0 == strcmp(b, c))
  {
    if strcmp(a, b) <= 0 && strcmp(b, c) <= 0 && strcmp(a, c) == 0 {
      assert Sign(strcmp(c, a)) == -Sign(strcmp(a, c));
      assert strcmp(c, b) <= 0 && strcmp(b, a) <= 0;
      assert Sign(strcmp(c, b)) == -Sign(strcmp(b, c));
    }
  }

  /** On agreeable keys the comparison is a total preorder. */
  lemma AgreeableRanks(strcmp: StrCmp, ks: set<Key>)
    requires OrdersStrings(strcmp) && Agreeable(strcmp, ks)
    ensures RanksAll(NotAfter(strcmp), ks)
  {
    hide TrackCompare, Lexicographic, OrdersStrings;
    var le := NotAfter(strcmp);
    forall a, b | a in ks && b in ks
      ensures le(a, b) <==> Lexicographic(strcmp, a, b) <= 0
    {
      AgreeableCompare(strcmp, a, b);
    }
    forall a, b, c | a in ks && b in ks && c in ks
      ensures le(a, b) || le(b, a)
      ensures le(a, b) && le(b, c) ==> le(a, c)
    {
      LexicographicRanks(strcmp, a, b, c);
    }
  }

  /** A `strcmp` that returns -1, 0 or 1 makes any keys agreeable whose track numbers are
      less than 2^31 apart. */
  lemma NormalisedAgrees(strcmp: StrCmp, ks: set<Key>)
    requires forall s, t :: -1 <= strcmp(s, t) <= 1
    requires forall a, b :: a in ks && b in ks ==> IsInt(a.number - b.number)
    ensures Agreeable(strcmp, ks)
  {
  }

  /** A `strcmp` that returns the difference of the first characters that differ, which the
      C standard also allows. */
  function CharDifference(s: string, t: string): int {
    if s == [] && t == [] then 0
    else if s == [] then -(t[0] as int)
    else if t == [] then s[0] as int
    else if s[0] != t[0] then s[0] as int - t[0] as int
    else CharDifference(s[1..], t[1..])
  }

  /** With it the comparison can run in a circle, so that no order of the three tracks
      satisfies it. */
  lemma DifferencesCanCycle()
    ensures var a := Key("aa", "~", 1);
            var b := Key("ab", "D", 1);
            var c := Key("b", "\t", 1);
            && TrackCompare(CharDifference, a, b) < 0
            && TrackCompare(CharDifference, b, c) < 0
            && TrackCompare(CharDifference, c, a) < 0
            && !RanksAll(NotAfter(CharDifference), {a, b, c})
  {
    var a, b, c := Key("aa", "~", 1), Key("ab", "D", 1), Key("b", "\t", 1);
    assert "aa"[1..] == "a" && "ab"[1..] == "b";
    assert CharDifference("aa", "ab") == CharDifference("a", "b") == -1;
    assert CharDifference("~", "D") == 58 && CharDifference("D", "\t") == 59 && CharDifference("\t", "~") == -117;
    assert CharDifference("ab", "b") == -1 && CharDifference("b", "aa") == 1;
    assert TrackCompare(CharDifference, a, b) == -420;
    assert TrackCompare(CharDifference, b, c) == -410;
    assert TrackCompare(CharDifference, c, a) == -170;
    assert TrackCompare(CharDifference, a, c) == 170;
    var le := NotAfter(CharDifference);
    assert le(a, b) && le(b, c) && !le(a, c);
  }

  // ------------------------------------------------------------------------ linked lists

  class Track {
    const key: Key
    var next: Track?

    constructor (key: Key)
      ensures this.key == key && next == null
    {
      this.key, next := key, null;
    }
  }

  type Entry = Item<Key, Track>

  ghost predicate OfTracks(s: seq<Entry>) {
    forall e <- s :: e.key == e.value.key
  }

  ghost function Nodes(s: seq<Entry>): set<Track> {
    set e <- s :: e.value
  }

  ghost predicate Distinct(s: seq<Entry>) {
    forall i, j :: 0 <= i < j < |s| ==> s[i].value != s[j].value
  }

  /** Each node but the last points to its neighbour. */
  ghost predicate Linked(s: seq<Entry>)
    reads Nodes(s)
  {
    forall i {:trigger s[i].value.next} :: 0 <= i < |s| - 1 ==> s[i].value.next == s[i + 1].value
  }

  ghost predicate StartsAt(head: Track?, s: seq<Entry>) {
    if s == [] then head == null else head == s[0].value
  }

  /** `s` is the whole list that starts at `head`. */
  ghost predicate IsList(head: Track?, s: seq<Entry>)
    reads Nodes(s)
  {
    StartsAt(head, s) && Linked(s) && (s != [] ==> s[|s| - 1].value.next == null)
  }

  /** The rest of a list is a list. */
  lemma ListTail(head: Track?, s: seq<Entry>, i: nat)
    requires IsList(head, s) && i <= |s|
    ensures IsList(if i == |s| then null else s[i].value, s[i..])
  {
    var t := s[i..];
    forall k | 0 <= k < |t| - 1
      ensures t[k].value.next == t[k + 1].value
    {
      assert t[k] == s[i + k];
      assert s[i + k].value.next == s[i + k + 1].value;
    }
  }

  /** A node determines the list that starts at it. */
  lemma {:induction false} ListLength(head: Track?, s: seq<Entry>, t: seq<Entry>)
    requires IsList(head, s) && IsList(head, t)
    ensures |s| == |t|
    decreases |s|
  {
    if s != [] && t != [] {
      ListTail(head, s, 1);
      ListTail(head, t, 1);
      ListLength(s[0].value.next, s[1..], t[1..]);
    }
  }

  /** No node occurs twice in a list that ends. */
  lemma {:induction false} ListDistinct(head: Track?, s: seq<Entry>)
    requires IsList(head, s)
    ensures Distinct(s)
  {
    forall i, j | 0 <= i < j < |s|
      ensures s[i].value != s[j].value
    {
      if s[i].value == s[j].value {
        ListTail(head, s, i);
        ListTail(head, s, j);
        ListLength(s[i].value, s[i..], s[j..]);
      }
    }
  }

  lemma NodesOfRest(s: seq<Entry>)
    requires s != [] && Distinct(s)
    ensures Nodes(s) == {s[0].value} + Nodes(s[1..]) && s[0].value !in Nodes(s[1..])
    ensures Distinct(s[1..])
  {
    var t := s[1..];
    assert s == [s[0]] + t;
    assert forall i, j :: 0 <= i < j < |t| ==> t[i] == s[i + 1] && t[j] == s[j + 1];
  }

  lemma NodesOfMore(s: seq<Entry>, e: Entry)
    ensures Nodes(s + [e]) == Nodes(s) + {e.value}
  {
  }

  // ------------------------------------------------------------------------- the sort

  /** The output so far: a list but for the last node, whose link is still to be set. */
  ghost predicate IsOutput(list: Track?, tail: Track?, out: seq<Entry>)
    reads Nodes(out)
  {
    && StartsAt(list, out) && Linked(out) && Distinct(out)
    && (if out == [] then tail == null else tail == out[|out| - 1].value)
  }

  /** In the middle of a merge: output, what is left of the first run, and the list that
      the second run begins.  `all` is the set of nodes that takes part. */
  ghost predicate Merging(list: Track?, tail: Track?, p: Track?, q: Track?,
                          out: seq<Entry>, x: seq<Entry>, y: seq<Entry>, all: set<Track>)
    reads Nodes(out), Nodes(x), Nodes(y)
  {
    && IsOutput(list, tail, out)
    && Linked(x) && Distinct(x) && (x != [] ==> p == x[0].value)
    && IsList(q, y) && Distinct(y)
    && Nodes(out) !! Nodes(x) !! Nodes(y)
    && Nodes(out) + Nodes(x) + Nodes(y) == all
  }

  /** The same with one node `e` in the hand. */
  ghost predicate Holding(list: Track?, tail: Track?, p: Track?, q: Track?, e: Track,
                          out: seq<Entry>, x: seq<Entry>, y: seq<Entry>, all: set<Track>)
    reads Nodes(out), Nodes(x), Nodes(y)
  {
    Merging(list, tail, p, q, out, x, y, all - {e}) && e in all
  }

  lemma TakeP(list: Track?, tail: Track?, p: Track, q: Track?,
              out: seq<Entry>, x: seq<Entry>, y: seq<Entry>, all: set<Track>)
    requires Merging(list, tail, p, q, out, x, y, all) && x != []
    ensures p == x[0].value && Holding(list, tail, p.next, q, p, out, x[1..], y, all)
  {
    NodesOfRest(x);
    var t := x[1..];
    assert t != [] ==> x[0].value.next == x[1].value == t[0].value;
    forall i | 0 <= i < |t| - 1
      ensures t[i].value.next == t[i + 1].value
    {
      assert x[i + 1].value.next == x[i + 2].value;
    }
  }

  lemma TakeQ(list: Track?, tail: Track?, p: Track?, q: Track,
              out: seq<Entry>, x: seq<Entry>, y: seq<Entry>, all: set<Track>)
    requires Merging(list, tail, p, q, out, x, y, all) && y != []
    ensures q == y[0].value && Holding(list, tail, p, q.next, q, out, x, y[1..], all)
  {
    NodesOfRest(y);
    ListTail(q, y, 1);
    assert y[1..] != [] ==> y[0].value.next == y[1].value;
  }

  /** Put `e` at the end of the output. */
  method Append(list: Track?, tail: Track?, e: Track, ghost entry: Entry, ghost p: Track?, ghost q: Track?,
                ghost out: seq<Entry>, ghost x: seq<Entry>, ghost y: seq<Entry>, ghost all: set<Track>)
    returns (list': Track?, tail': Track)
    requires Holding(list, tail, p, q, e, out, x, y, all) && entry.value == e
    modifies if tail == null then {} else {tail}
    ensures Merging(list', tail', p, q, out + [entry], x, y, all)
  {
    list' := list;
    NodesOfMore(out, entry);
    assert out != [] ==> out[|out| - 1].value in Nodes(out);
    assert forall i :: 0 <= i < |x| ==> x[i].value in Nodes(x);
    assert forall i :: 0 <= i < |y| ==> y[i].value in Nodes(y);
    assert forall i :: 0 <= i < |out| ==> out[i].value in Nodes(out);
    if tail != null {
      tail.next := e;
    } else {
      list' := e;
    }
    tail' := e;
  }

  /** What the merge still has to produce, once its first item is known. */
  lemma MergeFromA(le: Test<Key>, done: seq<Entry>, x: seq<Entry>, b: seq<Entry>)
    requires x != [] && (b == [] || le(x[0].key, b[0].key))
    ensures done + Merge(le, x, b) == (done + [x[0]]) + Merge(le, x[1..], b)
  {
    if b == [] {
      assert x == [x[0]] + x[1..];
    }
    assert Merge(le, x, b) == [x[0]] + Merge(le, x[1..], b);
    hide Merge;
    OneFurther(done, x[0], Merge(le, x[1..], b));
  }

  lemma OneFurther(done: seq<Entry>, e: Entry, rest: seq<Entry>)
    ensures done + ([e] + rest) == (done + [e]) + rest
  {
  }

  lemma MergeFromB(le: Test<Key>, done: seq<Entry>, x: seq<Entry>, b: seq<Entry>)
    requires b != [] && (x == [] || !le(x[0].key, b[0].key))
    ensures done + Merge(le, x, b) == (done + [b[0]]) + Merge(le, x, b[1..])
  {
    if x == [] {
      assert b == [b[0]] + b[1..];
    }
    assert Merge(le, x, b) == [b[0]] + Merge(le, x, b[1..]);
    hide Merge;
    OneFurther(done, b[0], Merge(le, x, b[1..]));
  }

  lemma SecondRun(y: seq<Entry>, n: nat)
    requires y != [] && n > 0
    ensures y[..Min(n, |y|)][0] == y[0] && y[..Min(n, |y|)][1..] == y[1..][..Min(n - 1, |y| - 1)]
    ensures y[Min(n, |y|)..] == y[1..][Min(n - 1, |y| - 1)..]
  {
  }

  /** Merge the run of `psize0` nodes at `p0` with the run of at most `insize` nodes at `q0`. */
  method MergeRuns(strcmp: StrCmp, p0: Track?, q0: Track?, psize0: nat, insize: nat, list0: Track?, tail0: Track?,
                   ghost out: seq<Entry>, ghost a: seq<Entry>, ghost rest: seq<Entry>, ghost all: set<Track>)
    returns (list: Track?, tail: Track?, q: Track?)
    requires Merging(list0, tail0, p0, q0, out, a, rest, all) && psize0 == |a|
    requires OfTracks(a) && OfTracks(rest)
    modifies all
    ensures var m := Min(insize, |rest|);
            Merging(list, tail, q, q, out + Merge(NotAfter(strcmp), a, rest[..m]), [], rest[m..], all)
  {
    hide Merging, Holding, TrackCompare, Merge;
    ghost var le := NotAfter(strcmp);
    ghost var goal := out + Merge(le, a, rest[..Min(insize, |rest|)]);
    ghost var done, x, y := out, a, rest;
    var p, psize, qsize := p0, psize0, insize;
    list, tail, q := list0, tail0, q0;
    while psize > 0 || (qsize > 0 && q != null)
      invariant psize == |x| && qsize >= 0
      invariant Merging(list, tail, p, q, done, x, y, all)
      invariant OfTracks(x) && OfTracks(y)
      invariant done + Merge(le, x, y[..Min(qsize, |y|)]) == goal
      invariant y[Min(qsize, |y|)..] == rest[Min(insize, |rest|)..]
      decreases |x| + |y|
    {
      Heads(list, tail, p, q, done, x, y, all);
      var e: Track;
      ghost var entry: Entry;
      ghost var b := y[..Min(qsize, |y|)];
      if psize == 0 {
        TakeQ(list, tail, p, q, done, x, y, all);
        SecondRun(y, qsize);
        MergeFromB(le, done, x, b);
        entry, y := y[0], y[1..];
        e := q;
        q := q.next;
        qsize := qsize - 1;
      } else if qsize == 0 || q == null {
        TakeP(list, tail, p, q, done, x, y, all);
        MergeFromA(le, done, x, b);
        entry, x := x[0], x[1..];
        e := p;
        p := p.next;
        psize := psize - 1;
      } else if TrackCompare(strcmp, p.key, q.key) <= 0 {
        TakeP(list, tail, p, q, done, x, y, all);
        MergeFromA(le, done, x, b);
        entry, x := x[0], x[1..];
        e := p;
        p := p.next;
        psize := psize - 1;
      } else {
        TakeQ(list, tail, p, q, done, x, y, all);
        SecondRun(y, qsize);
        MergeFromB(le, done, x, b);
        entry, y := y[0], y[1..];
        e := q;
        q := q.next;
        qsize := qsize - 1;
      }
      list, tail := Append(list, tail, e, entry, p, q, done, x, y, all);
      done := done + [entry];
    }
    Heads(list, tail, p, q, done, x, y, all);
    MergeNothing(le, done, x, y[..Min(qsize, |y|)]);
    NoneLeft(list, tail, p, q, done, x, y, all);
  }

  lemma MergeNothing(le: Test<Key>, done: seq<Entry>, x: seq<Entry>, b: seq<Entry>)
    requires x == [] && b == []
    ensures done + Merge(le, x, b) == done
  {
  }

  lemma NoneLeft(list: Track?, tail: Track?, p: Track?, q: Track?,
                 out: seq<Entry>, x: seq<Entry>, y: seq<Entry>, all: set<Track>)
    requires Merging(list, tail, p, q, out, x, y, all) && x == []
    ensures Merging(list, tail, q, q, out, [], y, all)
  {
  }

  lemma Heads(list: Track?, tail: Track?, p: Track?, q: Track?,
              out: seq<Entry>, x: seq<Entry>, y: seq<Entry>, all: set<Track>)
    requires Merging(list, tail, p, q, out, x, y, all)
    ensures x != [] ==> p == x[0].value
    ensures if y == [] then q == null else q == y[0].value
    ensures tail != null ==> tail in all
  {
    if out != [] {
      assert out[|out| - 1] in out;
    }
  }

  lemma NodesOfParts(y: seq<Entry>, n: nat)
    requires n <= |y|
    ensures Nodes(y) == Nodes(y[..n]) + Nodes(y[n..])
  {
    assert y == y[..n] + y[n..];
  }

  lemma DistinctParts(y: seq<Entry>, n: nat)
    requires n <= |y| && Distinct(y)
    ensures Distinct(y[..n]) && Distinct(y[n..])
    ensures forall i, j :: 0 <= i < n <= j < |y| ==> y[i].value != y[j].value
  {
    assert forall i :: n <= i < |y| ==> y[n..][i - n] == y[i];
  }

  lemma PartsApart(y: seq<Entry>, n: nat)
    requires n <= |y| && Distinct(y)
    ensures Nodes(y[..n]) !! Nodes(y[n..])
  {
    DistinctParts(y, n);
    hide Distinct;
    forall e | e in Nodes(y[..n])
      ensures e !in Nodes(y[n..])
    {
      var i :| 0 <= i < n && y[..n][i].value == e;
      assert y[i].value == e;
    }
  }

  lemma LinkedFront(y: seq<Entry>, n: nat)
    requires n <= |y| && Linked(y)
    ensures Linked(y[..n])
  {
    forall i | 0 <= i < n - 1
      ensures y[..n][i].value.next == y[..n][i + 1].value
    {
      assert y[i].value.next == y[i + 1].value;
    }
  }

  /** Cut the list at `p` into the first run and the rest. */
  lemma CutRun(list: Track?, tail: Track?, p: Track?, q: Track?,
               out: seq<Entry>, y: seq<Entry>, n: nat, all: set<Track>)
    requires Merging(list, tail, p, p, out, [], y, all) && n <= |y|
    requires q == if n == |y| then null else y[n].value
    ensures Merging(list, tail, p, q, out, y[..n], y[n..], all)
  {
    ListTail(p, y, n);
    NodesOfParts(y, n);
    DistinctParts(y, n);
    PartsApart(y, n);
    LinkedFront(y, n);
    hide Distinct, Linked, IsOutput;
  }

  lemma ListOf(list: Track?, tail: Track?, p: Track?, q: Track?,
               out: seq<Entry>, x: seq<Entry>, y: seq<Entry>, all: set<Track>)
    requires Merging(list, tail, p, q, out, x, y, all)
    ensures IsList(q, y) && Distinct(y) && Nodes(y) <= all
  {
  }

  /** The end of the run of `insize` nodes that starts at `p`, or of the list. */
  method FindRun(p: Track, insize: nat, ghost y: seq<Entry>) returns (q: Track?, psize: nat)
    requires IsList(p, y) && y != []
    ensures psize == Min(insize, |y|)
    ensures q == if psize == |y| then null else y[psize].value
  {
    q := p;
    psize := 0;
    for i := 0 to insize
      invariant psize == i < |y| && q == y[psize].value
    {
      psize := psize + 1;
      q := q.next;
      if q == null {
        break;
      }
    }
  }

  /** One turn of a pass: merge the next two runs. */
  method MergePair(strcmp: StrCmp, p: Track, insize: nat, list0: Track?, tail0: Track?,
                   ghost out: seq<Entry>, ghost rest: seq<Entry>, ghost all: set<Track>)
    returns (list: Track?, tail: Track?, q: Track?)
    requires insize > 0 && rest != [] && Merging(list0, tail0, p, p, out, [], rest, all) && OfTracks(rest)
    modifies all
    ensures var i, j := Min(insize, |rest|), Min(insize + insize, |rest|);
            Merging(list, tail, q, q, out + Merge(NotAfter(strcmp), rest[..i], rest[i..j]), [], rest[j..], all)
  {
    hide Merge;
    ListOf(list0, tail0, p, p, out, [], rest, all);
    var psize;
    q, psize := FindRun(p, insize, rest);
    CutRun(list0, tail0, p, q, out, rest, psize, all);
    ghost var a, b := rest[..psize], rest[psize..];
    ghost var m, j := Min(insize, |b|), Min(insize + insize, |rest|);
    assert b[..m] == rest[psize..j] && b[m..] == rest[j..];
    list, tail, q := MergeRuns(strcmp, p, q, psize, insize, list0, tail0, out, a, b, all);
  }

  /** One pass over the list; also counts the merges. */
  method OnePass(strcmp: StrCmp, list0: Track, insize: nat, ghost s: seq<Entry>)
    returns (list: Track?, nmerges: nat)
    requires insize > 0 && s != [] && IsList(list0, s) && OfTracks(s)
    modifies Nodes(s)
    ensures IsList(list, Pass(NotAfter(strcmp), s, insize))
    ensures nmerges <= 1 <==> |s| <= insize + insize
  {
    hide Merging, Merge, Pass;
    ghost var le, all := NotAfter(strcmp), Nodes(s);
    ghost var done: seq<Entry>, rest := [], s;
    var p: Track?, tail: Track? := list0, null;
    list, nmerges := null, 0;
    ListDistinct(list0, s);
    PassStarts(list0, s);
    while p != null
      invariant Merging(list, tail, p, p, done, [], rest, all)
      invariant (p == null <==> rest == []) && OfTracks(rest)
      invariant done + Pass(le, rest, insize) == Pass(le, s, insize)
      invariant nmerges == 0 ==> rest == s
      invariant nmerges == 1 ==> rest == s[Min(insize + insize, |s|)..]
      invariant nmerges > 1 ==> |s| > insize + insize
      decreases |rest|
    {
      nmerges := nmerges + 1;
      PassStep(le, done, rest, insize);
      ghost var i, j := Min(insize, |rest|), Min(insize + insize, |rest|);
      list, tail, p := MergePair(strcmp, p, insize, list, tail, done, rest, all);
      done, rest := done + Merge(le, rest[..i], rest[i..j]), rest[j..];
      Heads(list, tail, p, p, done, [], rest, all);
    }
    PassEnds(le, rest, insize);
    assert done == Pass(le, s, insize);
    list := Terminate(list, tail, done, all);
  }

  lemma PassStep(le: Test<Key>, done: seq<Entry>, rest: seq<Entry>, k: nat)
    requires k > 0 && rest != []
    ensures var i, j := Min(k, |rest|), Min(k + k, |rest|);
            done + Pass(le, rest, k) == (done + Merge(le, rest[..i], rest[i..j])) + Pass(le, rest[j..], k)
  {
    hide Merge;
  }

  lemma PassEnds(le: Test<Key>, rest: seq<Entry>, k: nat)
    requires k > 0 && rest == []
    ensures Pass(le, rest, k) == []
  {
  }

  lemma PassStarts(list: Track, s: seq<Entry>)
    requires IsList(list, s) && Distinct(s)
    ensures Merging(null, null, list, list, [], [], s, Nodes(s))
  {
    assert Nodes([]) == {};
  }

  /** The last node of the output ends the list. */
  method Terminate(list: Track?, tail: Track?, ghost out: seq<Entry>, ghost all: set<Track>) returns (r: Track?)
    requires Merging(list, tail, null, null, out, [], [], all) && out != []
    modifies all
    ensures r == list && IsList(r, out)
  {
    r := list;
    assert out[|out| - 1] in out;
    assert forall i :: 0 <= i < |out| - 1 ==> out[i].value != tail;
    tail.next := null;
  }

  lemma PassKeepsNodes(le: Test<Key>, s: seq<Entry>, k: nat)
    requires k > 0 && OfTracks(s)
    ensures Nodes(Pass(le, s, k)) == Nodes(s) && OfTracks(Pass(le, s, k))
  {
    PassPermutes(le, s, k);
    var p := Pass(le, s, k);
    assert forall e :: e in p <==> e in multiset(p);
    assert forall e :: e in s <==> e in multiset(s);
  }

  /** Sort a list in place: the result is the list `SortFrom` describes, over the same
      nodes, and it ends. */
  method TracklistSort(strcmp: StrCmp, list0: Track?, ghost s: seq<Entry>) returns (list: Track?)
    requires IsList(list0, s) && OfTracks(s)
    modifies Nodes(s)
    ensures IsList(list, SortFrom(NotAfter(strcmp), s, 1))
  {
    if list0 == null {
      return null;
    }
    hide Merge, Pass;
    ghost var le, cur := NotAfter(strcmp), s;
    var insize := 1;
    list := list0;
    while true
      invariant insize > 0 && cur != [] && IsList(list, cur) && OfTracks(cur) && Nodes(cur) == Nodes(s)
      invariant SortFrom(le, cur, insize) == SortFrom(le, s, 1)
      decreases |cur| - insize
    {
      var nmerges;
      list, nmerges := OnePass(strcmp, list, insize, cur);
      PassKeepsNodes(le, cur, insize);
      ghost var longer := |cur| > insize + insize;
      cur := Pass(le, cur, insize);
      if nmerges <= 1 {
        return;
      }
      insize := insize * 2;
    }
  }

  /** What the caller of `TracklistSort` gets: the same tracks, in the intended order, and
      tracks that compare equal in the order in which they were. */
  lemma SortedTracks(strcmp: StrCmp, ks: set<Key>, s: seq<Entry>)
    requires OrdersStrings(strcmp) && Agreeable(strcmp, ks) && KeysIn(s, ks)
    ensures var le, r := NotAfter(strcmp), SortFrom(NotAfter(strcmp), s, 1);
            && multiset(r) == multiset(s)
            && (forall i, j :: 0 <= i < j < |r| ==> Lexicographic(strcmp, r[i].key, r[j].key) <= 0)
            && (forall x <- ks :: Equals(le, x, r) == Equals(le, x, s))
  {
    hide TrackCompare, Lexicographic;
    AgreeableRanks(strcmp, ks);
    var le := NotAfter(strcmp);
    SortCorrect(le, ks, s);
    var r := SortFrom(le, s, 1);
    forall i, j | 0 <= i < j < |r|
      ensures Lexicographic(strcmp, r[i].key, r[j].key) <= 0
    {
      assert r[i] in multiset(r) && r[j] in multiset(r);
      assert le(r[i].key, r[j].key);
      AgreeableCompare(strcmp, r[i].key, r[j].key);
    }
  }
}
