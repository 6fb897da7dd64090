/** The child lists of src/lib/ezxml.c.  A tag's children hang on three linked lists at once:
    `ordered` in document order, `next` among those of one name, and `sibling` through the
    first of every name. */
module XmlTree {
  import XmlParse

  // --------------------------------------------------- the lists, as places in the children

  /** The first place from `i` on that holds a name, or the number of places. */
  function FirstFrom(ns: seq<string>, name: string, i: nat): (j: nat)
    requires i <= |ns|
    ensures i <= j <= |ns| && (j < |ns| ==> ns[j] == name)
    ensures forall k :: i <= k < j ==> ns[k] != name
    decreases |ns| - i
  {
    if i == |ns| || ns[i] == name then i else FirstFrom(ns, name, i + 1)
  }

  predicate IsFirst(ns: seq<string>, i: nat)
    requires i < |ns|
  {
    FirstFrom(ns, ns[i], 0) == i
  }

  /** The first place from `i` on that is the first of its name. */
  function NewNameFrom(ns: seq<string>, i: nat): (j: nat)
    requires i <= |ns|
    ensures i <= j <= |ns| && (j < |ns| ==> IsFirst(ns, j))
    ensures forall k :: i <= k < j ==> !IsFirst(ns, k)
    decreases |ns| - i
  {
    if i == |ns| || IsFirst(ns, i) then i else NewNameFrom(ns, i + 1)
  }

  lemma {:induction false} FirstAppended(ns: seq<string>, n: string, name: string, i: nat)
    requires i <= |ns|
    ensures FirstFrom(ns + [n], name, i)
         == if FirstFrom(ns, name, i) < |ns| then FirstFrom(ns, name, i) else if n == name then |ns| else |ns| + 1
    decreases |ns| - i
  {
    if i < |ns| {
      FirstAppended(ns, n, name, i + 1);
    }
  }

  lemma IsFirstAppended(ns: seq<string>, n: string, i: nat)
    requires i <= |ns|
    ensures IsFirst(ns + [n], i) == if i < |ns| then IsFirst(ns, i) else FirstFrom(ns, n, 0) == |ns|
  {
    FirstAppended(ns, n, (ns + [n])[i], 0);
  }

  lemma {:induction false} NewNameAppended(ns: seq<string>, n: string, i: nat)
    requires i <= |ns|
    ensures NewNameFrom(ns + [n], i)
         == if NewNameFrom(ns, i) < |ns| then NewNameFrom(ns, i)
            else if FirstFrom(ns, n, 0) == |ns| then |ns| else |ns| + 1
    decreases |ns| - i
  {
    IsFirstAppended(ns, n, i);
    if i < |ns| {
      NewNameAppended(ns, n, i + 1);
    }
  }

  /** All places of a name from `i` on. */
  function Places(ns: seq<string>, name: string, i: nat): (p: seq<nat>)
    requires i <= |ns|
    ensures forall k :: 0 <= k < |p| ==> i <= p[k] < |ns| && ns[p[k]] == name
    decreases |ns| - i
  {
    if i == |ns| then []
    else if ns[i] == name then [i] + Places(ns, name, i + 1)
    else Places(ns, name, i + 1)
  }

  /** `idx` steps along the children of one name. */
  function Steps(ns: seq<string>, i: nat, idx: nat): (j: nat)
    requires i <= |ns|
    ensures j <= |ns|
    decreases idx
  {
    if i == |ns| || idx == 0 then i else Steps(ns, FirstFrom(ns, ns[i], i + 1), idx - 1)
  }

  /** The places of a name begin with the first one. */
  lemma {:induction false} PlacesBegin(ns: seq<string>, name: string, i: nat)
    requires i <= |ns|
    ensures var j := FirstFrom(ns, name, i);
      Places(ns, name, i) == if j == |ns| then [] else [j] + Places(ns, name, j + 1)
    decreases |ns| - i
  {
    if i < |ns| && ns[i] != name {
      PlacesBegin(ns, name, i + 1);
    }
  }

  /** Steps along the children of one name lead to the place of that number among them. */
  lemma {:induction false} StepsArePlaces(ns: seq<string>, name: string, i: nat, idx: nat)
    requires i <= |ns|
    ensures var p := Places(ns, name, i);
      Steps(ns, FirstFrom(ns, name, i), idx) == if idx < |p| then p[idx] else |ns|
    decreases idx
  {
    hide FirstFrom, Places;
    var j := FirstFrom(ns, name, i);
    PlacesBegin(ns, name, i);
    if j < |ns| && idx > 0 {
      StepsArePlaces(ns, name, j + 1, idx - 1);
    }
  }

  // ------------------------------------------------------------------------------- the tags

  class Element {
    const name: string
    var attrs: seq<XmlParse.Attr>
    var txt: string
    var off: nat
    var next: Element?
    var sibling: Element?
    var ordered: Element?
    var child: Element?
    var parent: Element?
    /** The children in document order, as the lists must present them. */
    ghost var kids: seq<Element>

    constructor (name: string)
      ensures this.name == name && kids == [] && child == null && attrs == [] && txt == ""
    {
      this.name, attrs, txt := name, [], "";
      off, next, sibling, ordered, child, parent := 0, null, null, null, null, null;
      kids := [];
    }

    /** All three lists present the children. */
    ghost predicate LinksOk()
      reads this, kids
    {
      KidsOk(this, kids) && OrderedOk(child, kids) && NextOk(kids) && SiblingOk(kids)
    }
  }

  /** The children are different tags of their parent, with offsets in document order. */
  ghost predicate KidsOk(parent: Element, kids: seq<Element>)
    reads kids`off, kids`parent
  {
    && (forall i, j :: 0 <= i < j < |kids| ==> kids[i] != kids[j] && kids[i].off <= kids[j].off)
    && (forall i :: 0 <= i < |kids| ==> kids[i] != parent && kids[i].parent == parent)
  }

  ghost predicate OrderedOk(child: Element?, kids: seq<Element>)
    reads kids`ordered
  {
    child == At(kids, 0) && forall i :: 0 <= i < |kids| ==> kids[i].ordered == At(kids, i + 1)
  }

  ghost predicate NextOk(kids: seq<Element>)
    reads kids`next
  {
    forall i :: 0 <= i < |kids| ==> kids[i].next == NextAt(kids, i)
  }

  /** The next child with the name of child `i`. */
  function NextAt(kids: seq<Element>, i: nat): Element?
    requires i < |kids|
  {
    At(kids, FirstFrom(Names(kids), kids[i].name, i + 1))
  }

  ghost predicate SiblingOk(kids: seq<Element>)
    reads kids`sibling
  {
    forall i :: 0 <= i < |kids| && IsFirst(Names(kids), i) ==> kids[i].sibling == SiblingAt(kids, i)
  }

  /** The first child of a new name behind child `i`. */
  function SiblingAt(kids: seq<Element>, i: nat): Element?
    requires i < |kids|
  {
    At(kids, NewNameFrom(Names(kids), i + 1))
  }

  function Names(kids: seq<Element>): (ns: seq<string>)
    ensures |ns| == |kids| && forall i :: 0 <= i < |kids| ==> ns[i] == kids[i].name
  {
    seq(|kids|, i requires 0 <= i < |kids| => kids[i].name)
  }

  /** The child at a place, NULL behind the last one. */
  function At(kids: seq<Element>, i: nat): Element? {
    if i < |kids| then kids[i] else null
  }

  /** `ezxml_child`: the first child of that name. */
  method Child(xml: Element?, name: string) returns (r: Element?)
    requires xml != null ==> xml.LinksOk()
    ensures r == if xml == null then null else At(xml.kids, FirstFrom(Names(xml.kids), name, 0))
  {
    if xml == null {
      return null;
    }
    ghost var ns, i := Names(xml.kids), 0;
    r := xml.child;
    assert |ns| > 0 ==> IsFirst(ns, 0);
    while r != null && name != r.name
      invariant i <= |ns| && r == At(xml.kids, i) && (i < |ns| ==> IsFirst(ns, i))
      invariant FirstFrom(ns, name, 0) >= i
      decreases |ns| - i
    {
      NotBefore(ns, name, i, NewNameFrom(ns, i + 1));
      i := NewNameFrom(ns, i + 1);
      r := r.sibling;
    }
  }

  /** Between two first places of names there is no new name. */
  lemma NotBefore(ns: seq<string>, name: string, i: nat, j: nat)
    requires i < |ns| && ns[i] != name && FirstFrom(ns, name, 0) >= i && j == NewNameFrom(ns, i + 1)
    ensures FirstFrom(ns, name, 0) >= j
  {
    hide FirstFrom, NewNameFrom;
    var f := FirstFrom(ns, name, 0);
    if f < |ns| {
      assert IsFirst(ns, f);
    }
  }

  lemma NextIs(dest: Element, i: nat)
    requires NextOk(dest.kids) && i < |dest.kids|
    ensures dest.kids[i].next == At(dest.kids, FirstFrom(Names(dest.kids), Names(dest.kids)[i], i + 1))
  {
    hide FirstFrom;
  }

  lemma StepsOn(ns: seq<string>, i: nat, n: nat)
    requires i <= |ns|
    ensures i == |ns| || n == 0 ==> Steps(ns, i, n) == i
    ensures i < |ns| && n > 0 ==> Steps(ns, i, n) == Steps(ns, FirstFrom(ns, ns[i], i + 1), n - 1)
  {
    hide FirstFrom;
  }

  /** `ezxml_idx`: `idx` steps along the `next` list of a child. */
  method Idx(xml: Element?, idx: nat, ghost dest: Element?, ghost at: nat) returns (r: Element?)
    requires if dest == null then xml == null else
      NextOk(dest.kids) && at <= |dest.kids| && xml == At(dest.kids, at)
    ensures r == if dest == null then null else At(dest.kids, Steps(Names(dest.kids), at, idx))
  {
    hide FirstFrom, Steps, NextOk;
    ghost var kids := if dest == null then [] else dest.kids;
    ghost var ns := Names(kids);
    ghost var i: nat := if dest == null then 0 else at;
    ghost var start := i;
    var n: nat := idx;
    r := xml;
    while r != null && n != 0
      invariant i <= |ns| && r == At(kids, i) && Steps(ns, i, n) == Steps(ns, start, idx)
      decreases n
    {
      hide FirstFrom, Steps, NextOk;
      NextIs(dest, i);
      StepsOn(ns, i, n);
      i := FirstFrom(ns, ns[i], i + 1);
      r := r.next;
      n := n - 1;
    }
    StepsOn(ns, i, n);
  }

  // -------------------------------------------------------------------------- insertion

  /** The end of the `ordered` list */
  method LastOrdered(dest: Element, off: nat) returns (cur: Element)
    requires KidsOk(dest, dest.kids) && OrderedOk(dest.child, dest.kids)
    requires dest.kids != [] && dest.kids[|dest.kids| - 1].off <= off
    ensures cur == dest.kids[|dest.kids| - 1]
  {
    cur := dest.child;
    ghost var i := 0;
    while cur.ordered != null && cur.ordered.off <= off
      invariant i < |dest.kids| && cur == dest.kids[i]
      decreases |dest.kids| - i
    {
      i := i + 1;
      cur := cur.ordered;
    }
  }

  /** The walk along `sibling` to the first tag of a name; `prev` is the tag in front. */
  method FindKind(dest: Element, name: string) returns (cur: Element?, prev: Element?)
    requires dest.child == At(dest.kids, 0) && SiblingOk(dest.kids) && dest.kids != []
    ensures var f := FirstFrom(Names(dest.kids), name, 0); cur == At(dest.kids, f)
  {
    ghost var ns, i := Names(dest.kids), 0;
    cur, prev := dest.child, null;
    hide NewNameFrom, FirstFrom;
    FirstIsFirst(ns);
    while cur != null && cur.name != name
      invariant i <= |ns| && cur == At(dest.kids, i) && (i < |ns| ==> IsFirst(ns, i))
      invariant FirstFrom(ns, name, 0) >= i
      decreases |ns| - i
    {
      hide NewNameFrom, FirstFrom, IsFirst;
      SiblingIs(dest, i);
      NotBefore(ns, name, i, NewNameFrom(ns, i + 1));
      i := NewNameFrom(ns, i + 1);
      prev := cur;
      cur := cur.sibling;
    }
  }

  lemma FirstIsFirst(ns: seq<string>)
    ensures ns != [] ==> IsFirst(ns, 0)
  {
  }

  lemma SiblingIs(dest: Element, i: nat)
    requires SiblingOk(dest.kids) && i < |dest.kids| && IsFirst(Names(dest.kids), i)
    ensures dest.kids[i].sibling == At(dest.kids, NewNameFrom(Names(dest.kids), i + 1))
  {
    hide NewNameFrom, IsFirst;
  }

  /** The end of the `next` list from the first tag of a name; `last` is its place. */
  method LastOfKind(dest: Element, first: Element, off: nat, ghost f: nat) returns (cur: Element, ghost last: nat)
    requires KidsOk(dest, dest.kids) && NextOk(dest.kids) && f < |dest.kids| && dest.kids[f] == first
    requires dest.kids[|dest.kids| - 1].off <= off
    ensures last < |dest.kids| && cur == dest.kids[last] && cur.name == first.name
    ensures FirstFrom(Names(dest.kids), cur.name, last + 1) == |dest.kids| && cur.next == null
  {
    hide FirstFrom, NextOk;
    cur, last := first, f;
    while cur.next != null && cur.next.off <= off
      invariant last < |dest.kids| && cur == dest.kids[last] && cur.name == first.name
      decreases |dest.kids| - last
    {
      NextIs(dest, last);
      last := FirstFrom(Names(dest.kids), cur.name, last + 1);
      cur := cur.next;
    }
    NextIs(dest, last);
  }

  /** The end of the `sibling` list; `last` is its place. */
  method LastSibling(dest: Element, off: nat) returns (cur: Element?, prev: Element?, ghost last: nat)
    requires KidsOk(dest, dest.kids) && dest.child == At(dest.kids, 0) && SiblingOk(dest.kids) && dest.kids != []
    requires dest.kids[|dest.kids| - 1].off <= off
    ensures cur == null && last < |dest.kids| && prev == dest.kids[last]
    ensures IsFirst(Names(dest.kids), last) && NewNameFrom(Names(dest.kids), last + 1) == |dest.kids|
  {
    hide NewNameFrom, FirstFrom;
    ghost var ns := Names(dest.kids);
    ghost var i: nat := 0;
    last := 0;
    cur, prev := dest.child, null;
    FirstIsFirst(ns);
    while cur != null && cur.off <= off
      invariant i <= |ns| && cur == At(dest.kids, i) && (i < |ns| ==> IsFirst(ns, i))
      invariant last < |ns| && IsFirst(ns, last)
      invariant i > 0 ==> prev == dest.kids[last] && i == NewNameFrom(ns, last + 1)
      decreases |ns| - i
    {
      hide NewNameFrom, FirstFrom, IsFirst;
      SiblingIs(dest, i);
      last := i;
      i := NewNameFrom(ns, i + 1);
      prev := cur;
      cur := cur.sibling;
    }
  }

  /** Hang a new tag on the end of the `ordered` list. */
  method LinkOrdered(xml: Element, dest: Element, off: nat)
    requires KidsOk(dest, dest.kids) && OrderedOk(dest.child, dest.kids) && xml !in dest.kids && xml != dest
    requires dest.kids != [] && dest.kids[|dest.kids| - 1].off <= off
    modifies xml`ordered, dest.kids`ordered
    ensures OrderedOk(dest.child, dest.kids + [xml])
  {
    var cur := LastOrdered(dest, off);
    xml.ordered := cur.ordered;
    cur.ordered := xml;
  }

  lemma NamesAppended(kids: seq<Element>, xml: Element)
    ensures Names(kids + [xml]) == Names(kids) + [xml.name]
  {
  }

  /** No other place of a name than the last one has no further one behind it. */
  lemma LastOnly(ns: seq<string>, name: string, i: nat, last: nat)
    requires i < |ns| && last < |ns| && ns[last] == name && FirstFrom(ns, name, last + 1) == |ns|
    ensures ns[i] == name && FirstFrom(ns, name, i + 1) == |ns| ==> i == last
  {
    hide FirstFrom;
  }

  /** How a new child changes what comes next. */
  lemma NextAppended(kids: seq<Element>, xml: Element, i: nat)
    requires i <= |kids|
    ensures NextAt(kids + [xml], i)
         == if i == |kids| then null
            else if kids[i].name == xml.name && FirstFrom(Names(kids), xml.name, i + 1) == |kids| then xml
            else NextAt(kids, i)
  {
    NamesAppended(kids, xml);
    hide FirstFrom;
    if i < |kids| {
      FirstAppended(Names(kids), xml.name, kids[i].name, i + 1);
    }
  }

  /** Hang it on the end of the `next` list of its name. */
  method LinkNext(xml: Element, dest: Element, first: Element, off: nat, ghost f: nat)
    requires KidsOk(dest, dest.kids) && NextOk(dest.kids) && xml !in dest.kids && xml != dest && xml.next == null
    requires f < |dest.kids| && dest.kids[f] == first && first.name == xml.name
    requires dest.kids[|dest.kids| - 1].off <= off
    modifies xml`next, dest.kids`next
    ensures NextOk(dest.kids + [xml])
  {
    hide FirstFrom, NextAt;
    var cur;
    ghost var last;
    ghost var kids := dest.kids;
    cur, last := LastOfKind(dest, first, off, f);
    xml.next := cur.next;
    cur.next := xml;
    forall i | 0 <= i <= |kids|
      ensures (kids + [xml])[i].next == NextAt(kids + [xml], i)
    {
      NextAppended(kids, xml, i);
      if i < |kids| {
        LastOnly(Names(kids), xml.name, i, last);
      }
    }
  }

  /** No tag is in front of the first of a new name in its `next` list. */
  lemma NewKindNext(kids: seq<Element>, xml: Element)
    requires NextOk(kids) && xml.next == null && FirstFrom(Names(kids), xml.name, 0) == |kids|
    ensures NextOk(kids + [xml])
  {
    hide FirstFrom, NextAt;
    forall i | 0 <= i <= |kids|
      ensures (kids + [xml])[i].next == NextAt(kids + [xml], i)
    {
      NextAppended(kids, xml, i);
    }
  }

  /** How a new child changes what comes next on the `sibling` list. */
  lemma SiblingAppended(kids: seq<Element>, xml: Element, i: nat)
    requires i <= |kids|
    ensures IsFirst(Names(kids + [xml]), i)
         == if i < |kids| then IsFirst(Names(kids), i) else FirstFrom(Names(kids), xml.name, 0) == |kids|
    ensures SiblingAt(kids + [xml], i)
         == if i == |kids| then null
            else if FirstFrom(Names(kids), xml.name, 0) == |kids| && NewNameFrom(Names(kids), i + 1) == |kids| then xml
            else SiblingAt(kids, i)
  {
    NamesAppended(kids, xml);
    hide FirstFrom, NewNameFrom, IsFirst;
    IsFirstAppended(Names(kids), xml.name, i);
    if i < |kids| {
      NewNameAppended(Names(kids), xml.name, i + 1);
    }
  }

  /** The `sibling` list goes round a tag whose name is not new. */
  lemma OldKindSibling(kids: seq<Element>, xml: Element)
    requires SiblingOk(kids) && FirstFrom(Names(kids), xml.name, 0) < |kids|
    ensures SiblingOk(kids + [xml])
  {
    hide FirstFrom, NewNameFrom, IsFirst, SiblingAt;
    var all := kids + [xml];
    forall i | 0 <= i < |all| && IsFirst(Names(all), i)
      ensures all[i].sibling == SiblingAt(all, i)
    {
      SiblingAppended(kids, xml, i);
    }
  }

  /** Only the last first place has no new name behind it. */
  lemma LastFirstOnly(ns: seq<string>, i: nat, last: nat)
    requires i < |ns| && last < |ns| && IsFirst(ns, i) && IsFirst(ns, last) && NewNameFrom(ns, last + 1) == |ns|
    ensures NewNameFrom(ns, i + 1) == |ns| ==> i == last
  {
    hide NewNameFrom, IsFirst;
  }

  /** Hang the first tag of a name on the end of the `sibling` list. */
  method LinkSibling(xml: Element, dest: Element, off: nat)
    requires KidsOk(dest, dest.kids) && SiblingOk(dest.kids) && xml !in dest.kids && xml != dest
    requires dest.child == At(dest.kids, 0) && dest.kids != [] && dest.kids[|dest.kids| - 1].off <= off
    requires FirstFrom(Names(dest.kids), xml.name, 0) == |dest.kids|
    modifies xml`sibling, dest.kids`sibling
    ensures SiblingOk(dest.kids + [xml])
  {
    hide FirstFrom, NewNameFrom, IsFirst, SiblingAt;
    ghost var kids := dest.kids;
    var cur, prev;
    ghost var last;
    cur, prev, last := LastSibling(dest, off);
    xml.sibling := cur;
    if prev != null {
      prev.sibling := xml;
    }
    ghost var all := kids + [xml];
    forall i | 0 <= i < |all| && IsFirst(Names(all), i)
      ensures all[i].sibling == SiblingAt(all, i)
    {
      SiblingAppended(kids, xml, i);
      if i < |kids| {
        LastFirstOnly(Names(kids), i, last);
      }
    }
  }

  lemma ChildIs(dest: Element)
    requires OrderedOk(dest.child, dest.kids)
    ensures dest.child == At(dest.kids, 0)
  {
  }

  /** The lists of a single child */
  lemma AloneOk(xml: Element)
    requires xml.next == null && xml.sibling == null && xml.ordered == null
    ensures OrderedOk(xml, [xml]) && NextOk([xml]) && SiblingOk([xml])
  {
  }

  lemma KidsAppended(dest: Element, kids: seq<Element>, xml: Element)
    requires KidsOk(dest, kids) && xml !in kids && xml != dest && xml.parent == dest
    requires kids != [] ==> kids[|kids| - 1].off <= xml.off
    ensures KidsOk(dest, kids + [xml])
  {
    var all := kids + [xml];
    forall i, j | 0 <= i < j < |all|
      ensures all[i] != all[j] && all[i].off <= all[j].off
    {
      if j == |kids| && i < |kids| - 1 {
        assert kids[i].off <= kids[|kids| - 1].off;
      }
    }
  }

  method LinkOldKind(xml: Element, dest: Element, first: Element, off: nat, ghost f: nat)
    requires KidsOk(dest, dest.kids) && NextOk(dest.kids) && SiblingOk(dest.kids)
    requires xml !in dest.kids && xml != dest && xml.next == null
    requires f == FirstFrom(Names(dest.kids), xml.name, 0) < |dest.kids| && dest.kids[f] == first
    requires dest.kids[|dest.kids| - 1].off <= off
    modifies xml`next, dest.kids`next
    ensures NextOk(dest.kids + [xml]) && SiblingOk(dest.kids + [xml])
  {
    hide FirstFrom, KidsOk, NextOk, SiblingOk;
    LinkNext(xml, dest, first, off, f);
    OldKindSibling(dest.kids, xml);
  }

  method LinkNewKind(xml: Element, dest: Element, off: nat)
    requires KidsOk(dest, dest.kids) && NextOk(dest.kids) && SiblingOk(dest.kids)
    requires dest.child == At(dest.kids, 0) && dest.kids != [] && dest.kids[|dest.kids| - 1].off <= off
    requires xml !in dest.kids && xml != dest && xml.next == null
    requires FirstFrom(Names(dest.kids), xml.name, 0) == |dest.kids|
    modifies xml`sibling, dest.kids`sibling
    ensures NextOk(dest.kids + [xml]) && SiblingOk(dest.kids + [xml])
  {
    hide FirstFrom, KidsOk, NextOk, SiblingOk;
    LinkSibling(xml, dest, off);
    NewKindNext(dest.kids, xml);
  }

  /** Hang a tag that is not the first child on the lists. */
  method InsertLater(xml: Element, dest: Element, off: nat)
    requires dest.LinksOk() && xml !in dest.kids && xml != dest && dest.kids != []
    requires dest.kids[|dest.kids| - 1].off <= off && xml.next == null
    modifies xml`next, xml`sibling, xml`ordered, dest.kids`next, dest.kids`sibling, dest.kids`ordered
    ensures OrderedOk(dest.child, dest.kids + [xml]) && NextOk(dest.kids + [xml]) && SiblingOk(dest.kids + [xml])
  {
    hide KidsOk, FirstFrom, NewNameFrom, IsFirst, OrderedOk, NextOk, SiblingOk;
    ghost var f := FirstFrom(Names(dest.kids), xml.name, 0);
    ChildIs(dest);
    LastIsLast(dest, off);
    LinkOrdered(xml, dest, off);
    var cur, _ := FindKind(dest, xml.name);
    if cur != null && cur.off <= off {
      LinkOldKind(xml, dest, cur, off, f);
    } else {
      xml.next := cur;
      LinkNewKind(xml, dest, off);
    }
  }

  /** No child is behind an offset that is not below the last one's. */
  lemma LastIsLast(dest: Element, off: nat)
    requires KidsOk(dest, dest.kids) && dest.kids != [] && dest.kids[|dest.kids| - 1].off <= off
    ensures forall i :: 0 <= i < |dest.kids| ==> dest.kids[i].off <= off
  {
  }

  method Place(xml: Element, dest: Element, off: nat)
    requires dest.LinksOk() && xml !in dest.kids && xml != dest
    requires dest.kids != [] ==> dest.kids[|dest.kids| - 1].off <= off
    modifies xml`next, xml`sibling, xml`ordered, xml`off, xml`parent
    ensures xml.next == null && xml.sibling == null && xml.ordered == null && xml.off == off && xml.parent == dest
    ensures dest.LinksOk() && KidsOk(dest, dest.kids + [xml])
  {
    hide NextOk, SiblingOk, OrderedOk;
    xml.next, xml.sibling, xml.ordered := null, null, null;
    xml.off := off;
    xml.parent := dest;
    KidsAppended(dest, dest.kids, xml);
  }

  /** `ezxml_insert` of a tag whose offset is not below that of any child, as the parser does
      it: all three lists present the children with the new one behind them. */
  method Insert(xml: Element, dest: Element, off: nat)
    requires dest.LinksOk() && xml !in dest.kids && xml != dest
    requires dest.kids != [] ==> dest.kids[|dest.kids| - 1].off <= off
    modifies xml`next, xml`sibling, xml`ordered, xml`off, xml`parent, dest`child, dest`kids
    modifies dest.kids`next, dest.kids`sibling, dest.kids`ordered
    ensures dest.LinksOk() && dest.kids == old(dest.kids) + [xml]
    ensures xml.off == off && xml.parent == dest
  {
    hide OrderedOk, NextOk, SiblingOk, KidsOk;
    Place(xml, dest, off);
    ChildIs(dest);
    var head := dest.child;
    if head != null {
      InsertLater(xml, dest, off);
    } else {
      dest.child := xml;
      AloneOk(xml);
      assert dest.kids + [xml] == [xml];
    }
    dest.kids := dest.kids + [xml];
  }

  // ---------------------------------------------------------------------- whole documents

  /** A set of tags holds their children. */
  ghost predicate Closed(doc: set<Element>)
    reads doc
  {
    forall t, k :: t in doc && k in t.kids ==> k in doc
  }

  /** All their lists are in order. */
  ghost predicate Linked(doc: set<Element>)
    requires Closed(doc)
    reads doc
  {
    forall t :: t in doc ==> t.LinksOk()
  }

  ghost predicate Document(doc: set<Element>)
    reads doc
  {
    Closed(doc) && Linked(doc)
  }

  /** The links of a tag that are its parent's business. */
  datatype Link = Link(off: nat, parent: Element?, next: Element?, sibling: Element?, ordered: Element?)

  ghost function Links(kids: seq<Element>): (l: seq<Link>)
    reads kids`off, kids`parent, kids`next, kids`sibling, kids`ordered
    ensures |l| == |kids| && forall i :: 0 <= i < |kids| ==>
      l[i] == Link(kids[i].off, kids[i].parent, kids[i].next, kids[i].sibling, kids[i].ordered)
  {
    if kids == [] then [] else
      var k := kids[0];
      [Link(k.off, k.parent, k.next, k.sibling, k.ordered)] + Links(kids[1..])
  }

  /** `LinksOk`, as a statement about the links. */
  predicate InOrder(t: Element, child: Element?, kids: seq<Element>, l: seq<Link>) {
    && |l| == |kids| && child == At(kids, 0)
    && (forall i, j :: 0 <= i < j < |kids| ==> kids[i] != kids[j] && l[i].off <= l[j].off)
    && (forall i :: 0 <= i < |kids| ==> kids[i] != t && l[i].parent == t)
    && (forall i :: 0 <= i < |kids| ==> l[i].ordered == At(kids, i + 1) && l[i].next == NextAt(kids, i))
    && (forall i :: 0 <= i < |kids| && IsFirst(Names(kids), i) ==> l[i].sibling == SiblingAt(kids, i))
  }

  lemma InOrderIs(t: Element)
    ensures t.LinksOk() <==> InOrder(t, t.child, t.kids, Links(t.kids))
  {
    hide IsFirst, SiblingAt, NextAt;
  }

  /** The children of another tag are not those of this one. */
  lemma OtherKids(t: Element, xml: Element, kids: seq<Element>)
    requires t.LinksOk() && xml.LinksOk() && t != xml && kids == xml.kids
    ensures forall k :: k in t.kids ==> k !in kids
  {
    hide OrderedOk, NextOk, SiblingOk;
    forall k | k in t.kids
      ensures k.parent == t && k !in kids
    {
    }
  }

  /** `ezxml_add_child` in parser order: the new tag is the last child, and no other tag's
      children change. */
  method AddChild(xml: Element, name: string, off: nat, ghost doc: set<Element>) returns (child: Element)
    requires Document(doc) && xml in doc
    requires xml.kids != [] ==> xml.kids[|xml.kids| - 1].off <= off
    modifies doc
    ensures fresh(child) && child.name == name && child.off == off && child.kids == [] && child.parent == xml
    ensures child.attrs == [] && child.txt == ""
    ensures Document(doc + {child}) && xml.kids == old(xml.kids) + [child]
    ensures forall t :: t in doc && t != xml ==> t.kids == old(t.kids)
    ensures forall t :: t in doc ==> t.off == old(t.off) && t.parent == old(t.parent)
    ensures forall t :: t in doc ==> t.attrs == old(t.attrs) && t.txt == old(t.txt)
  {
    hide KidsOk, OrderedOk, NextOk, SiblingOk, InOrder, Links;
    forall t | t in doc && t != xml
      ensures InOrder(t, t.child, t.kids, Links(t.kids)) && forall k :: k in t.kids ==> k !in xml.kids
    {
      InOrderIs(t);
      OtherKids(t, xml, xml.kids);
    }
    child := new Element(name);
    EmptyOk(child);
    Insert(child, xml, off);
    forall t | t in doc && t != xml
      ensures t.LinksOk()
    {
      forall i | 0 <= i < |t.kids|
        ensures Links(t.kids)[i] == old(Links(t.kids))[i]
      {
        assert t.kids[i] in old(t.kids) && t.kids[i] in doc;
      }
      assert Links(t.kids) == old(Links(t.kids));
      InOrderIs(t);
    }
  }

  lemma EmptyOk(t: Element)
    requires t.kids == [] && t.child == null
    ensures t.LinksOk()
  {
  }

  /** The children of a name, as the plain sequence of children has them. */
  function Named(kids: seq<Element>, name: string): (r: seq<Element>)
    ensures forall k :: k in r ==> k in kids
  {
    var p := Places(Names(kids), name, 0);
    seq(|p|, i requires 0 <= i < |p| => At(kids, p[i]) as Element)
  }

  /** Look up a path of names and indexes on the plain children; a negative index, an empty
      name or the end of the path ends it. */
  ghost function Find(t: Element?, path: seq<(string, int)>, doc: set<Element>): Element?
    requires Closed(doc) && (t != null ==> t in doc)
    reads doc
    decreases |path|
  {
    if path == [] || path[0].0 == "" || t == null then t
    else
      var named, idx := Named(t.kids, path[0].0), path[0].1;
      if idx < 0 then (if named == [] then null else named[0])
      else if idx < |named| then Find(named[idx], path[1..], doc)
      else null
  }

  /** `ezxml_vget`: the lists lead to the same tag. */
  method VGet(xml: Element?, path: seq<(string, int)>, ghost doc: set<Element>) returns (r: Element?)
    requires Document(doc) && (xml != null ==> xml in doc)
    ensures r == Find(xml, path, doc)
    decreases |path|
  {
    if path == [] || path[0].0 == "" {
      return xml;
    }
    var name, idx := path[0].0, path[0].1;
    hide Document, Places, Steps, FirstFrom;
    DocumentOk(xml, doc);
    var first := Child(xml, name);
    if xml != null {
      NamedAre(xml.kids, name, idx);
    }
    if idx < 0 {
      return first;
    }
    var nth := Idx(first, idx, xml, if xml == null then 0 else FirstFrom(Names(xml.kids), name, 0));
    assert nth != null ==> nth in xml.kids;
    r := VGet(nth, path[1..], doc);
  }

  lemma DocumentOk(t: Element?, doc: set<Element>)
    requires Document(doc) && (t != null ==> t in doc)
    ensures t != null ==> t.LinksOk() && forall k :: k in t.kids ==> k in doc
  {
  }

  /** The first child of a name and the steps from it, as the plain children have them. */
  lemma NamedAre(kids: seq<Element>, name: string, idx: int)
    ensures var f, named := FirstFrom(Names(kids), name, 0), Named(kids, name);
      && At(kids, f) == (if named == [] then null else named[0])
      && (idx >= 0 ==> At(kids, Steps(Names(kids), f, idx)) == if idx < |named| then named[idx] else null)
  {
    hide Places, Steps, FirstFrom, Names;
    PlacesBegin(Names(kids), name, 0);
    if idx >= 0 {
      StepsArePlaces(Names(kids), name, 0, idx);
    }
  }

  predicate Increasing(p: seq<nat>) {
    forall k, l :: 0 <= k < l < |p| ==> p[k] < p[l]
  }

  /** The places of a name are in order. */
  lemma {:induction false} PlacesInOrder(ns: seq<string>, name: string, i: nat)
    requires i <= |ns|
    ensures Increasing(Places(ns, name, i))
    decreases |ns| - i
  {
    if i < |ns| {
      PlacesInOrder(ns, name, i + 1);
      if ns[i] == name {
        FirstSmaller(i, Places(ns, name, i + 1));
      }
    }
  }

  /** They are all there are. */
  lemma {:induction false} PlacesAreAll(ns: seq<string>, name: string, i: nat, j: nat)
    requires i <= j < |ns| && ns[j] == name
    ensures j in Places(ns, name, i)
    decreases j - i
  {
    if i < j {
      PlacesAreAll(ns, name, i + 1, j);
    }
  }

  lemma FirstSmaller(i: nat, rest: seq<nat>)
    requires forall k :: 0 <= k < |rest| ==> i < rest[k]
    requires Increasing(rest)
    ensures Increasing([i] + rest)
  {
  }
}
