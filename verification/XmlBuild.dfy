/** The parser of src/lib/ezxml.c on its own data: the root keeps the insertion point, every tag
    is an object on the linked lists of its parent, and opening, filling and closing a tag update
    these objects.  What they show of the document is what `XmlParse` says of values. */
module XmlBuild {
  import opened XmlText
  import opened XmlTree
  import XmlParse

  /** A tag that presents an element: its own fields, and its children in document order. */
  ghost predicate Presents(tag: Element, t: XmlParse.Tree, doc: set<Element>)
    reads doc
    decreases t
  {
    && tag in doc && tag.name == t.name && tag.attrs == t.attrs && tag.txt == t.txt && tag.off == t.off
    && |tag.kids| == |t.kids| && forall i :: 0 <= i < |t.kids| ==> Presents(tag.kids[i], t.kids[i], doc)
  }

  // --------------------------------------------------- what the tags of a document look like

  /** The fields of a tag, but for the links of its parent's lists. */
  datatype Face = Face(name: string, attrs: seq<XmlParse.Attr>, txt: string, off: nat, kids: seq<Element>,
                       parent: Element?)

  type Faces = map<Element, Face>
  type Known = map<Element, XmlParse.Tree>

  ghost function Look(doc: set<Element>): (f: Faces)
    reads doc
    ensures f.Keys == doc
  {
    map t | t in doc :: Face(t.name, t.attrs, t.txt, t.off, t.kids, t.parent)
  }

  /** A child is different from the others of its parent, and knows it. */
  predicate Family(f: Faces) {
    && (forall t :: t in f ==> forall k <- f[t].kids :: k in f && f[k].parent == t)
    && (forall t :: t in f ==> forall i, j :: 0 <= i < j < |f[t].kids| ==> f[t].kids[i] != f[t].kids[j])
  }

  /** The open tags, each the last child of the one before it */
  predicate Chain(f: Faces, path: seq<Element>) {
    && (forall t <- path :: t in f)
    && (path != [] ==> f[path[0]].parent == null)
    && (forall i, j :: 0 <= i < j < |path| ==> path[i] != path[j])
    && (forall i :: 0 < i < |path| ==> f[path[i]].parent == path[i - 1] && LastOf(f[path[i - 1]].kids, path[i]))
  }

  predicate LastOf(kids: seq<Element>, kid: Element) {
    kids != [] && kids[|kids| - 1] == kid
  }

  /** The tag at the insertion point */
  function Tip(path: seq<Element>): Element? {
    if path == [] then null else path[|path| - 1]
  }

  /** A tag shows what is known of it; of its child that is open, nothing is known yet. */
  predicate Shown(t: XmlParse.Tree, face: Face, open: bool, val: Known) {
    && t.name == face.name && t.attrs == face.attrs && t.txt == face.txt
    && t.off == face.off && |face.kids| == |t.kids| + (if open then 1 else 0)
    && forall i :: 0 <= i < |t.kids| ==> face.kids[i] in val && t.kids[i] == val[face.kids[i]]
  }

  /** A tag with a child that is open */
  predicate HasOpen(t: Element, path: seq<Element>) {
    t in path && t != Tip(path)
  }

  predicate AllShown(f: Faces, path: seq<Element>, val: Known) {
    f.Keys == val.Keys && forall t :: t in f ==> Shown(val[t], f[t], HasOpen(t, path), val)
  }

  /** The children stand inside the text. */
  predicate InText(f: Faces) {
    forall t, k :: t in f && k in f[t].kids && k in f ==> f[k].off <= |f[t].txt|
  }

  function Values(path: seq<Element>, val: Known): (v: seq<XmlParse.Tree>)
    requires forall t <- path :: t in val
    ensures |v| == |path| && forall i :: 0 <= i < |path| ==> v[i] == val[path[i]]
  {
    seq(|path|, i requires 0 <= i < |path| => val[path[i]])
  }

  predicate Sound(f: Faces, path: seq<Element>, val: Known) {
    Family(f) && Chain(f, path) && AllShown(f, path, val) && InText(f)
  }

  // ---------------------------------------------------------------------------- one change

  /** A tag opened behind the children of the last one */
  function Opened(f: Faces, xml: Element, tag: Element, name: string, attrs: seq<XmlParse.Attr>): Faces
    requires xml in f
  {
    f[xml := f[xml].(kids := f[xml].kids + [tag])][tag := Face(name, attrs, "", |f[xml].txt|, [], xml)]
  }

  function OpenedVal(val: Known, xml: Element, tag: Element, name: string, attrs: seq<XmlParse.Attr>): Known
    requires xml in val
  {
    val[tag := XmlParse.Tree(name, attrs, "", |val[xml].txt|, [])]
  }

  lemma OpenedShown(f: Faces, path: seq<Element>, val: Known, tag: Element, name: string, attrs: seq<XmlParse.Attr>)
    requires path != [] && Chain(f, path) && AllShown(f, path, val) && tag !in f
    ensures var xml := path[|path| - 1];
      AllShown(Opened(f, xml, tag, name, attrs), path + [tag], OpenedVal(val, xml, tag, name, attrs))
  {
  }

  lemma OpenedChain(f: Faces, path: seq<Element>, tag: Element, name: string, attrs: seq<XmlParse.Attr>)
    requires path != [] && Chain(f, path) && tag !in f
    ensures Chain(Opened(f, path[|path| - 1], tag, name, attrs), path + [tag])
  {
  }

  lemma OpenedFamily(f: Faces, xml: Element, tag: Element, name: string, attrs: seq<XmlParse.Attr>)
    requires xml in f && Family(f) && tag !in f
    ensures Family(Opened(f, xml, tag, name, attrs))
  {
    assert forall k <- f[xml].kids :: k != tag;
  }

  lemma OpenedInText(f: Faces, xml: Element, tag: Element, name: string, attrs: seq<XmlParse.Attr>)
    requires xml in f && Family(f) && InText(f) && tag !in f
    ensures InText(Opened(f, xml, tag, name, attrs))
  {
  }

  /** The text of the last open tag grows. */
  function Filled(f: Faces, xml: Element, text: string): Faces
    requires xml in f
  {
    f[xml := f[xml].(txt := f[xml].txt + text)]
  }

  function FilledVal(val: Known, xml: Element, text: string): Known
    requires xml in val
  {
    val[xml := val[xml].(txt := val[xml].txt + text)]
  }

  /** An open tag is not among the children that are known. */
  lemma OpenNotKnown(f: Faces, path: seq<Element>, val: Known, xml: Element, t: Element, i: nat)
    requires Sound(f, path, val) && xml in path && t in f && i < |val[t].kids|
    ensures i < |f[t].kids| && f[t].kids[i] != xml
  {
    var k :| 0 <= k < |path| && path[k] == xml;
    if k > 0 && t == path[k - 1] {
      assert HasOpen(t, path);
    }
  }

  lemma FilledShown(f: Faces, path: seq<Element>, val: Known, xml: Element, text: string)
    requires path != [] && xml == path[|path| - 1] && Sound(f, path, val)
    ensures AllShown(Filled(f, xml, text), path, FilledVal(val, xml, text))
  {
    var g, w := Filled(f, xml, text), FilledVal(val, xml, text);
    forall t | t in g
      ensures Shown(w[t], g[t], HasOpen(t, path), w)
    {
      forall i | 0 <= i < |val[t].kids|
        ensures i < |f[t].kids| && f[t].kids[i] != xml
      {
        OpenNotKnown(f, path, val, xml, t, i);
      }
      hide Chain, Family, InText, HasOpen;
    }
  }

  lemma FilledRest(f: Faces, path: seq<Element>, xml: Element, text: string)
    requires xml in f && Family(f) && Chain(f, path) && InText(f)
    ensures var g := Filled(f, xml, text);
      Family(g) && Chain(g, path) && InText(g)
  {
  }

  /** The last child of a tag has become known. */
  function ClosedVal(val: Known, outer: Element, xml: Element): Known
    requires outer in val && xml in val
  {
    val[outer := val[outer].(kids := val[outer].kids + [val[xml]])]
  }

  lemma ClosedShown(f: Faces, path: seq<Element>, val: Known, outer: Element, xml: Element)
    requires |path| > 1 && xml == path[|path| - 1] && outer == path[|path| - 2] && Sound(f, path, val)
    ensures AllShown(f, path[..|path| - 1], ClosedVal(val, outer, xml))
  {
    var less, w := path[..|path| - 1], ClosedVal(val, outer, xml);
    forall t | t in f
      ensures Shown(w[t], f[t], HasOpen(t, less), w)
    {
      forall i | 0 <= i < |val[t].kids|
        ensures i < |f[t].kids| && f[t].kids[i] != outer
      {
        OpenNotKnown(f, path, val, outer, t, i);
      }
      CloserOpen(f, path, t);
      OnPath(f, path, val);
      hide Chain, Family, InText, HasOpen, Sound;
      if t == outer {
        OuterShown(val, f[t], outer, xml);
      }
    }
  }

  /** The outer tag shows its last child. */
  lemma OuterShown(val: Known, face: Face, outer: Element, xml: Element)
    requires outer in val && xml in val && xml != outer && LastOf(face.kids, xml)
    requires Shown(val[outer], face, true, val)
    requires forall i :: 0 <= i < |val[outer].kids| ==> face.kids[i] != outer
    ensures Shown(ClosedVal(val, outer, xml)[outer], face, false, ClosedVal(val, outer, xml))
  {
  }

  /** Which tags have an open child when the last one is closed */
  lemma CloserOpen(f: Faces, path: seq<Element>, t: Element)
    requires |path| > 1 && Chain(f, path)
    ensures HasOpen(t, path[..|path| - 1]) == (HasOpen(t, path) && t != path[|path| - 2])
    ensures HasOpen(path[|path| - 2], path) && LastOf(f[path[|path| - 2]].kids, path[|path| - 1])
    ensures path[|path| - 1] != path[|path| - 2]
  {
    var less := path[..|path| - 1];
    assert path == less + [path[|path| - 1]];
  }

  /** The document as a value, before and after the root */
  function Shows(root: Element?, path: seq<Element>, val: Known): (d: XmlParse.Doc)
    requires (forall t <- path :: t in val) && (root != null ==> root in val)
    ensures XmlParse.Open(d)
  {
    if root == null then XmlParse.Before
    else if path == [] then XmlParse.Behind(val[root])
    else XmlParse.Inside(Values(path, val))
  }

  lemma OpenedSound(f: Faces, path: seq<Element>, val: Known, tag: Element, name: string, attrs: seq<XmlParse.Attr>)
    requires path != [] && Sound(f, path, val) && tag !in f
    ensures var xml := path[|path| - 1];
      xml in f && xml in val
      && Sound(Opened(f, xml, tag, name, attrs), path + [tag], OpenedVal(val, xml, tag, name, attrs))
  {
    var xml := path[|path| - 1];
    OnPath(f, path, val);
    hide Family, InText, AllShown, Chain, Opened, OpenedVal;
    OpenedFamily(f, xml, tag, name, attrs);
    OpenedInText(f, xml, tag, name, attrs);
    OpenedChain(f, path, tag, name, attrs);
    OpenedShown(f, path, val, tag, name, attrs);
  }

  /** The value of the document when a tag is opened */
  lemma OpenedValue(path: seq<Element>, val: Known, tag: Element, name: string, attrs: seq<XmlParse.Attr>)
    requires path != [] && tag !in val && forall t <- path :: t in val
    ensures var w := OpenedVal(val, path[|path| - 1], tag, name, attrs);
      XmlParse.Inside(Values(path + [tag], w)) == XmlParse.OpenTag(XmlParse.Inside(Values(path, val)), name, attrs)
  {
    var w := OpenedVal(val, path[|path| - 1], tag, name, attrs);
    assert Values(path + [tag], w) == Values(path, val) + [w[tag]];
  }

  /** The open tags are tags of the document. */
  lemma OnPath(f: Faces, path: seq<Element>, val: Known)
    requires Chain(f, path) && AllShown(f, path, val)
    ensures forall t <- path :: t in f && t in val
  {
  }

  lemma FilledSound(f: Faces, path: seq<Element>, val: Known, xml: Element, text: string)
    requires path != [] && xml == path[|path| - 1] && Sound(f, path, val)
    ensures xml in f && xml in val && Sound(Filled(f, xml, text), path, FilledVal(val, xml, text))
  {
    OnPath(f, path, val);
    hide Family, InText, AllShown, Chain, Filled, FilledVal;
    FilledShown(f, path, val, xml, text);
    FilledRest(f, path, xml, text);
  }

  /** The value of the document when text is added */
  lemma FilledValue(f: Faces, path: seq<Element>, val: Known, xml: Element, text: string)
    requires path != [] && xml == path[|path| - 1] && Sound(f, path, val) && forall t <- path :: t in val
    ensures
      XmlParse.Inside(Values(path, FilledVal(val, xml, text)))
      == XmlParse.CharContent(XmlParse.Inside(Values(path, val)), text)
  {
    var w := FilledVal(val, xml, text);
    assert Values(path, w) == XmlParse.WithLast(Values(path, val), w[xml]);
  }

  /** The last open tag is one of the document, with its children inside its text. */
  lemma TipKnown(f: Faces, path: seq<Element>, val: Known)
    requires path != [] && Sound(f, path, val)
    ensures (forall t <- path :: t in f && t in val) && path[|path| - 1] in f
    ensures var face, t := f[path[|path| - 1]], XmlParse.Last(Values(path, val));
      && t.name == face.name && t.txt == face.txt
      && (face.kids == [] || (face.kids[|face.kids| - 1] in f && f[face.kids[|face.kids| - 1]].off <= |face.txt|))
  {
  }

  lemma FirstSound(tag: Element, name: string, attrs: seq<XmlParse.Attr>)
    ensures var f := map[tag := Face(name, attrs, "", 0, [], null)];
      var val := map[tag := XmlParse.Tree(name, attrs, "", 0, [])];
      Sound(f, [tag], val) && Values([tag], val) == [val[tag]]
  {
  }

  lemma ChainCut(f: Faces, path: seq<Element>)
    requires path != [] && Chain(f, path)
    ensures Chain(f, path[..|path| - 1]) && f[path[|path| - 1]].parent == Tip(path[..|path| - 1])
  {
  }

  lemma ClosedSound(f: Faces, path: seq<Element>, val: Known)
    requires path != [] && Sound(f, path, val)
    ensures forall t <- path :: t in f && t in val
    ensures f[path[|path| - 1]].parent == Tip(path[..|path| - 1])
    ensures Sound(f, path[..|path| - 1], Closing(path, val))
  {
    OnPath(f, path, val);
    ChainCut(f, path);
    if |path| > 1 {
      ClosedShown(f, path, val, path[|path| - 2], path[|path| - 1]);
      hide Family, InText, AllShown, Chain;
    } else {
      assert path[..|path| - 1] == [];
    }
  }

  /** What is known when the last open tag is closed */
  ghost function Closing(path: seq<Element>, val: Known): Known
    requires path != [] && forall t <- path :: t in val
  {
    if |path| == 1 then val else ClosedVal(val, path[|path| - 2], path[|path| - 1])
  }

  /** The value of the document when a tag is closed */
  lemma ClosedValue(f: Faces, path: seq<Element>, val: Known)
    requires |path| > 1 && Sound(f, path, val) && forall t <- path :: t in val
    ensures XmlParse.Inside(Values(path[..|path| - 1], Closing(path, val)))
         == XmlParse.CloseTag(XmlParse.Inside(Values(path, val)), XmlParse.Last(Values(path, val)).name)
  {
    var less, w := path[..|path| - 1], Closing(path, val);
    var open := Values(path, val);
    assert Values(less, val) == open[..|path| - 1];
    assert Values(less, w) == XmlParse.WithLast(Values(less, val), w[path[|path| - 2]]);
  }

  // ------------------------------------------------------------------- the tags themselves

  lemma DocumentFamily(doc: set<Element>)
    requires Document(doc)
    ensures Family(Look(doc))
  {
    hide OrderedOk, NextOk, SiblingOk;
  }

  lemma LookIs(doc: set<Element>)
    ensures forall t :: t in doc ==> Look(doc)[t] == Face(t.name, t.attrs, t.txt, t.off, t.kids, t.parent)
  {
  }

  method SetAttrs(tag: Element, attrs: seq<XmlParse.Attr>, ghost doc: set<Element>)
    requires Document(doc)
    modifies tag`attrs
    ensures Document(doc) && tag.attrs == attrs
  {
    hide KidsOk, OrderedOk, NextOk, SiblingOk;
    tag.attrs := attrs;
  }

  method SetText(tag: Element, txt: string, ghost doc: set<Element>)
    requires Document(doc)
    modifies tag`txt
    ensures Document(doc) && tag.txt == txt
  {
    hide KidsOk, OrderedOk, NextOk, SiblingOk;
    tag.txt := txt;
  }

  /** A tag of its own */
  method NewTag(name: string, attrs: seq<XmlParse.Attr>) returns (tag: Element)
    ensures fresh(tag) && Document({tag}) && Look({tag}) == map[tag := Face(name, attrs, "", 0, [], null)]
  {
    hide KidsOk, OrderedOk, NextOk, SiblingOk;
    tag := new Element(name);
    tag.attrs, tag.off, tag.parent := attrs, 0, null;
    EmptyOk(tag);
  }

  /** `ezxml_add_child` at the end of the text, and the attributes */
  method Hang(xml: Element, name: string, attrs: seq<XmlParse.Attr>, ghost doc: set<Element>) returns (tag: Element)
    requires Document(doc) && xml in doc
    requires xml.kids != [] ==> xml.kids[|xml.kids| - 1].off <= |xml.txt|
    modifies doc
    ensures fresh(tag) && Document(doc + {tag})
    ensures Look(doc + {tag}) == Opened(old(Look(doc)), xml, tag, name, attrs)
  {
    hide Document;
    tag := AddChild(xml, name, |xml.txt|, doc);
    SetAttrs(tag, attrs, doc + {tag});
  }

  /** A document with its root, its open tags and what is known of it */
  ghost predicate Fits(root: Element?, doc: set<Element>, path: seq<Element>, val: Known)
    reads doc
  {
    && Document(doc) && Sound(Look(doc), path, val) && val.Keys == doc && (forall t <- path :: t in val)
    && (path != [] ==> path[0] == root)
    && (if root == null then doc == {} else root in doc)
  }

  /** The first tag becomes the root. */
  method OpenFirst(name: string, attrs: seq<XmlParse.Attr>) returns (tag: Element, ghost val: Known)
    ensures fresh(tag) && Fits(tag, {tag}, [tag], val)
    ensures Shows(tag, [tag], val) == XmlParse.OpenTag(XmlParse.Before, name, attrs)
  {
    hide KidsOk, OrderedOk, NextOk, SiblingOk, Document, Sound;
    tag := NewTag(name, attrs);
    FirstSound(tag, name, attrs);
    val := map[tag := XmlParse.Tree(name, attrs, "", 0, [])];
  }

  /** A further tag becomes the last child of the one that is open. */
  method OpenLater(xml: Element, name: string, attrs: seq<XmlParse.Attr>,
                   ghost root: Element?, ghost doc: set<Element>, ghost path: seq<Element>, ghost val: Known)
    returns (tag: Element, ghost w: Known)
    requires Fits(root, doc, path, val) && xml == Tip(path)
    modifies doc
    ensures fresh(tag) && Fits(root, doc + {tag}, path + [tag], w)
    ensures Shows(root, path + [tag], w) == XmlParse.OpenTag(Shows(root, path, val), name, attrs)
  {
    hide Sound, Opened, Look, Values, XmlParse.OpenTag, Document;
    ghost var f := Look(doc);
    TipKnown(f, path, val);
    LookIs(doc);
    tag := Hang(xml, name, attrs, doc);
    OpenedSound(f, path, val, tag, name, attrs);
    OpenedValue(path, val, tag, name, attrs);
    w := OpenedVal(val, xml, tag, name, attrs);
  }

  /** Text is added to the last open tag. */
  method Fill(xml: Element, text: string,
              ghost root: Element?, ghost doc: set<Element>, ghost path: seq<Element>, ghost val: Known)
    returns (ghost w: Known)
    requires Fits(root, doc, path, val) && xml == Tip(path)
    modifies xml`txt
    ensures Fits(root, doc, path, w)
    ensures Shows(root, path, w) == XmlParse.CharContent(Shows(root, path, val), text)
  {
    hide Sound, Values, XmlParse.CharContent, Document;
    ghost var f := Look(doc);
    TipKnown(f, path, val);
    SetText(xml, xml.txt + text, doc);
    assert Look(doc) == Filled(f, xml, text);
    FilledSound(f, path, val, xml, text);
    FilledValue(f, path, val, xml, text);
    w := FilledVal(val, xml, text);
  }

  lemma Close(xml: Element, root: Element?, doc: set<Element>, path: seq<Element>, val: Known)
    requires Fits(root, doc, path, val) && xml == Tip(path)
    ensures xml in doc && xml.name == XmlParse.Last(Values(path, val)).name
    ensures Fits(root, doc, path[..|path| - 1], Closing(path, val)) && xml.parent == Tip(path[..|path| - 1])
    ensures Shows(root, path[..|path| - 1], Closing(path, val)) == XmlParse.CloseTag(Shows(root, path, val), xml.name)
  {
    hide Sound, Document;
    var f := Look(doc);
    TipKnown(f, path, val);
    ClosedSound(f, path, val);
    if |path| > 1 {
      ClosedValue(f, path, val);
    }
  }

  /** What one turn of the main loop comes to: the answer, or the text to go on with. */
  datatype Turned = Stop(result: XmlParse.Result) | GoOn(u: string)

  ghost predicate Turns(t: Turned, u: string, e: char, before: XmlParse.Doc, after: XmlParse.Doc)
    requires TableOk(DEFAULTS) && XmlParse.Open(before) && XmlParse.Open(after) && u != ""
  {
    match t
    case Stop(r) => XmlParse.Markup(u, e, before) == r && !r.Ok?
    case GoOn(v) => |v| < |u| && XmlParse.Markup(u, e, before) == XmlParse.Then(v, e, after)
  }

  /** The outcome of parsing, without the tree */
  datatype Answer = Done | Failed(message: string) | Unmodelled

  function Answered(r: XmlParse.Result): Answer {
    match r
    case Ok(_) => Done
    case Fail(message) => Failed(message)
    case Unmodelled => Unmodelled
  }

  /** When the last tag is closed, the root presents the whole document. */
  lemma {:induction false} RootPresents(tag: Element, t: XmlParse.Tree, doc: set<Element>, val: Known)
    requires AllShown(Look(doc), [], val) && tag in val && t == val[tag]
    ensures Presents(tag, t, doc)
    decreases t
  {
    assert Look(doc)[tag].name == tag.name;
    forall i | 0 <= i < |t.kids|
      ensures Presents(tag.kids[i], t.kids[i], doc)
    {
      RootPresents(tag.kids[i], t.kids[i], doc, val);
    }
  }

  /** `ezxml_root_t`: the root tag and the tag at the insertion point. */
  class Root {
    var root: Element?
    var cur: Element?
    /** The tags of the document, those that are open, and what is known of each. */
    ghost var doc: set<Element>
    ghost var path: seq<Element>
    ghost var val: Known

    constructor ()
      ensures Valid() && Abs() == XmlParse.Before && doc == {}
    {
      root, cur, doc, path, val := null, null, {}, [], map[];
    }

    ghost predicate Valid()
      reads this, doc
    {
      Fits(root, doc, path, val) && cur == Tip(path)
    }

    /** The document as a value */
    ghost function Abs(): (d: XmlParse.Doc)
      requires Valid()
      reads this, doc
      ensures XmlParse.Open(d)
    {
      Shows(root, path, val)
    }

    /** `ezxml_open_tag` */
    method OpenTag(name: string, attrs: seq<XmlParse.Attr>)
      requires Valid() && !Abs().Behind?
      modifies this, doc
      ensures Valid() && fresh(doc - old(doc)) && Abs() == XmlParse.OpenTag(old(Abs()), name, attrs)
    {
      hide Document, Sound, XmlParse.OpenTag, Fits, Values;
      if root == null {
        var tag, w := OpenFirst(name, attrs);
        hide Shows;
        root, cur, doc, path, val := tag, tag, {tag}, [tag], w;
      } else {
        var tag, w := OpenLater(cur, name, attrs, root, doc, path, val);
        hide Shows;
        cur, doc, path, val := tag, doc + {tag}, path + [tag], w;
      }
    }

    /** `ezxml_char_content`, with the text decoded */
    method CharContent(text: string)
      requires Valid()
      modifies this, doc
      ensures Valid() && doc == old(doc) && Abs() == XmlParse.CharContent(old(Abs()), text)
    {
      hide Document, Sound;
      if cur != null {
        hide XmlParse.CharContent;
        val := Fill(cur, text, root, doc, path, val);
      }
    }

    /** `ezxml_close_tag` */
    method CloseTag(name: string) returns (ok: bool)
      requires Valid()
      modifies this
      ensures Valid() && doc == old(doc) && ok == XmlParse.Closes(old(Abs()), name)
      ensures Abs() == if ok then XmlParse.CloseTag(old(Abs()), name) else old(Abs())
    {
      hide Document, Sound, Values;
      if cur == null {
        return false;
      }
      Close(cur, root, doc, path, val);
      if name != cur.name {
        return false;
      }
      hide XmlParse.CloseTag, Closing;
      cur, path, val, ok := cur.parent, path[..|path| - 1], Closing(path, val), true;
    }

    // ---------------------------------------------------------------------------- parsing

    /** One piece of markup, as far as its last character */
    method MarkupTurn(u: string, e: char) returns (t: Turned)
      requires TableOk(DEFAULTS) && Valid() && u != ""
      modifies this, doc
      ensures Valid() && fresh(doc - old(doc)) && Turns(t, u, e, old(Abs()), Abs())
    {
      hide Fits, TableOk, XmlParse.ReadTag, XmlParse.Then;
      var s := u[1..];
      if s != "" && XmlParse.StartChar(s[0]) {
        t := TagTurn(u, e);
      } else if s != "" && s[0] == '/' {
        t := CloseTurn(u, e);
      } else if Prefix("!--", s) || Prefix("![CDATA[", s) {
        t := SectionTurn(u, e);
      } else if Prefix("!DOCTYPE", s) {
        t := DeclTurn(u, e);
      } else if s != "" && s[0] == '?' {
        t := InstTurn(u, e);
      } else {
        t := Stop(XmlParse.Fail("unexpected <"));
      }
    }

    /** A new tag, which may be empty */
    method TagTurn(u: string, e: char) returns (t: Turned)
      requires TableOk(DEFAULTS) && Valid() && u != "" && u[1..] != "" && XmlParse.StartChar(u[1])
      modifies this, doc
      ensures Valid() && fresh(doc - old(doc)) && Turns(t, u, e, old(Abs()), Abs())
    {
      hide Fits, TableOk, XmlParse.ReadTag, XmlParse.Then, XmlParse.OpenTag, XmlParse.CloseTag, XmlParse.Closes;
      if root != null && cur == null {
        return Stop(XmlParse.Fail("markup outside of root element"));
      }
      var tag := XmlParse.TakeTag(u[1..], e);
      if tag.BadTag? {
        return Stop(XmlParse.Fail(tag.message));
      }
      XmlParse.OpenedCloses(Abs(), tag.name, tag.attrs);
      OpenTag(tag.name, tag.attrs);
      if tag.empty {
        var _ := CloseTag(tag.name);
      }
      t := GoOn(tag.rest);
    }

    method CloseTurn(u: string, e: char) returns (t: Turned)
      requires TableOk(DEFAULTS) && Valid() && u != "" && u[1..] != "" && u[1] == '/'
      modifies this
      ensures Valid() && doc == old(doc) && Turns(t, u, e, old(Abs()), Abs())
    {
      hide Fits, TableOk, XmlParse.Until, XmlParse.Then, XmlParse.Along, XmlParse.CloseTag, XmlParse.Closes;
      var s := u[1..];
      var n := XmlParse.Until(s[1..], XmlParse.CloseEnd);
      var name, rest := s[1..1 + n], s[1 + n..];
      if rest == "" && e != '>' {
        return Stop(XmlParse.Fail("missing >"));
      }
      var ok := CloseTag(name);
      if !ok {
        return Stop(XmlParse.Fail("unexpected closing tag"));
      }
      if rest != "" && IsSpace(rest[0]) {
        rest := rest[XmlParse.Along(rest, XmlParse.White)..];
      }
      t := GoOn(rest);
    }

    /** A comment or a cdata section */
    method SectionTurn(u: string, e: char) returns (t: Turned)
      requires TableOk(DEFAULTS) && Valid() && u != "" && (Prefix("!--", u[1..]) || Prefix("![CDATA[", u[1..]))
      modifies this, doc
      ensures Valid() && doc == old(doc) && Turns(t, u, e, old(Abs()), Abs())
    {
      hide Fits, TableOk, XmlParse.Then, XmlParse.Search, Decoded, Lines, XmlParse.CharContent;
      var s := u[1..];
      XmlParse.PrefixFirst("!--", s);
      XmlParse.PrefixFirst("![CDATA[", s);
      if Prefix("!--", s) {
        var n := 3 + XmlParse.Search(s[3..], "--");
        if n == |s| {
          return Stop(XmlParse.Fail("unclosed <!--"));
        }
        XmlParse.CommentEnd(s, n);
        var rest := s[n + 2..];
        if (rest != "" && rest[0] != '>') || (rest == "" && e != '>') {
          return Stop(XmlParse.Fail("unclosed <!--"));
        }
        return GoOn(rest);
      }
      var n := 8 + XmlParse.Search(s[8..], "]]>");
      if n == |s| {
        return Stop(XmlParse.Fail("unclosed <![CDATA["));
      }
      XmlParse.SectionEnd(s, n);
      if n > 8 {
        var text := Decode(s[8..n], DEFAULTS, Cdata);
        CharContent(text);
      }
      t := GoOn(s[n + 2..]);
    }

    /** A document type declaration */
    method DeclTurn(u: string, e: char) returns (t: Turned)
      requires TableOk(DEFAULTS) && Valid() && u != "" && Prefix("!DOCTYPE", u[1..])
      ensures Turns(t, u, e, Abs(), Abs())
    {
      hide Fits, TableOk, XmlParse.Then, XmlParse.Until, XmlParse.Markup;
      var s := u[1..];
      XmlParse.PrefixFirst("!DOCTYPE", s);
      XmlParse.DeclIs(u, e, Abs());
      var n := XmlParse.ScanDecl(s);
      if n < |s| && s[n] == '[' {
        return Stop(XmlParse.Unmodelled);
      }
      if n == |s| && e != '>' {
        return Stop(XmlParse.Fail("unclosed <!DOCTYPE"));
      }
      t := GoOn(s[n..]);
    }

    /** A processing instruction, without the list that it is entered in */
    method InstTurn(u: string, e: char) returns (t: Turned)
      requires TableOk(DEFAULTS) && Valid() && u != "" && u[1..] != "" && u[1] == '?'
      ensures Turns(t, u, e, Abs(), Abs())
    {
      hide Fits, TableOk, XmlParse.Then, XmlParse.InstEnd, XmlParse.Markup;
      var s := u[1..];
      XmlParse.InstIs(u, e, Abs());
      var n := XmlParse.ScanInst(s);
      if n == |s| || (n + 1 == |s| && e != '>') {
        return Stop(XmlParse.Fail("unclosed <?"));
      }
      if n == 0 {
        return Stop(XmlParse.Unmodelled);
      }
      t := GoOn(s[n + 1..]);
    }

    /** The text behind markup, as far as the next markup, of which there may be none */
    method ContentTurn(u: string, e: char) returns (v: string)
      requires TableOk(DEFAULTS) && Valid()
      modifies this, doc
      ensures Valid() && doc == old(doc) && |v| <= |u|
      ensures XmlParse.Then(u, e, old(Abs()))
           == if v == "" then XmlParse.Finish(Abs()) else XmlParse.Markup(v, e, Abs())
    {
      hide Fits, TableOk, XmlParse.Markup, Decoded, Lines, XmlParse.Finish, XmlParse.CharContent, XmlParse.Then;
      XmlParse.ThenIs(u, e, Abs());
      if u == "" {
        return "";
      }
      v := u[1..];
      var d := XmlParse.ScanTo(v, '<');
      if d == |v| {
        return "";
      }
      if d > 0 {
        var content := Decode(v[..d], DEFAULTS, Mode.Content);
        CharContent(content);
        v := v[d..];
      }
    }

    /** The checks behind the main loop */
    method Finish() returns (a: Answer)
      requires Valid()
      ensures a == Answered(XmlParse.Finish(Abs()))
      ensures a.Done? ==> root != null && Document(doc) && Presents(root, XmlParse.Finish(Abs()).root, doc)
    {
      hide Presents, Document, Chain, Family, InText, AllShown;
      if cur == null && root != null {
        RootPresents(root, val[root], doc, val);
        return Done;
      }
      a := Failed(if root == null then "root tag missing" else "unclosed tag");
    }

    /** From the first '<' to the answer */
    method MainLoop(text: string, e: char) returns (a: Answer)
      requires TableOk(DEFAULTS) && Valid() && text != ""
      modifies this, doc
      ensures a == Answered(XmlParse.Markup(text, e, old(Abs())))
      ensures a.Done? ==>
        root != null && Document(doc) && Presents(root, XmlParse.Markup(text, e, old(Abs())).root, doc)
    {
      hide TableOk, XmlParse.Markup, XmlParse.Finish, XmlParse.Then, Fits, Presents, Document;
      var u := text;
      while true
        invariant u != "" && Valid() && fresh(doc - old(doc))
        invariant XmlParse.Markup(text, e, old(Abs())) == XmlParse.Markup(u, e, Abs())
        decreases |u|
      {
        var t := MarkupTurn(u, e);
        if t.Stop? {
          return Answered(t.result);
        }
        u := ContentTurn(t.u, e);
        if u == "" {
          a := Finish();
          return;
        }
      }
    }
  }

  /** `ezxml_parse_str`: the answer that the text calls for, and with it a root tag that presents
      the element read, on linked lists that are in order. */
  method ParseStr(s: string) returns (a: Answer, root: Element?, ghost doc: set<Element>)
    ensures a == Answered(XmlParse.Parsed(s))
    ensures a.Done? ==> root != null && Document(doc) && Presents(root, XmlParse.Parsed(s).root, doc)
  {
    DefaultsOk();
    root, doc := null, {};
    if s == "" {
      return Failed("root tag missing"), null, {};
    }
    var e, text := s[|s| - 1], XmlParse.UpToNul(s[..|s| - 1]);
    var n := XmlParse.ScanTo(text, '<');
    if n == |text| {
      return Failed("root tag missing"), null, {};
    }
    hide XmlParse.Markup, Presents, Document, Fits;
    var xml := new Root();
    a := xml.MainLoop(text[n..], e);
    root, doc := xml.root, xml.doc;
  }
}
