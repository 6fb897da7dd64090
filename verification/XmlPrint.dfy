/** The printer of src/lib/ezxml.c: it walks the lists of the tags, and prints what they present. */
module XmlPrint {
  import opened XmlText
  import opened XmlTree
  import XmlParse
  import XmlBuild

  /** The lists of a tag that presents an element lead to the tags of its children. */
  lemma KidPresents(tag: Element, t: XmlParse.Tree, i: nat, doc: set<Element>)
    requires Document(doc) && XmlBuild.Presents(tag, t, doc) && i < |t.kids|
    ensures |tag.kids| == |t.kids| && tag.kids[i] in doc && XmlBuild.Presents(tag.kids[i], t.kids[i], doc)
    ensures tag.kids[i].parent == tag && tag.kids[i].ordered == At(tag.kids, i + 1)
  {
    hide NextOk, SiblingOk;
    assert tag.LinksOk();
  }

  lemma FirstPresents(tag: Element, t: XmlParse.Tree, doc: set<Element>)
    requires Document(doc) && XmlBuild.Presents(tag, t, doc)
    ensures |tag.kids| == |t.kids| && tag.child == At(tag.kids, 0)
    ensures tag.name == t.name && tag.attrs == t.attrs && tag.txt == t.txt && tag.off == t.off
  {
    hide NextOk, SiblingOk;
    assert tag.LinksOk();
  }

  /** From a child on: the text before it, the child, and what is behind it */
  lemma InnerFrom(t: XmlParse.Tree, i: nat, start: nat)
    requires i < |t.kids| && start <= |t.txt|
    ensures XmlParse.Inner(t.txt, t.kids[i..], start)
         == AmpEncoded(XmlParse.Part(t.txt, start, t.kids[i].off), false) + XmlParse.Printed(t.kids[i])
            + XmlParse.Inner(t.txt, t.kids[i + 1..], XmlParse.Min(t.kids[i].off, |t.txt|))
    ensures XmlParse.Size(t.kids[i..]) == 1 + XmlParse.Size(t.kids[i].kids) + XmlParse.Size(t.kids[i + 1..])
  {
    hide AmpEncoded, XmlParse.Printed, XmlParse.Part;
    assert t.kids[i..][1..] == t.kids[i + 1..];
  }

  /** Behind the last child there is only text. */
  lemma InnerEnd(t: XmlParse.Tree, start: nat)
    requires start <= |t.txt|
    ensures XmlParse.Inner(t.txt, t.kids[|t.kids|..], start) == AmpEncoded(t.txt[start..], false)
  {
    hide AmpEncoded;
  }

  /** An element is its tags and what is between them. */
  lemma PrintedIs(t: XmlParse.Tree)
    ensures t.kids != [] ==> XmlParse.Printed(t) == XmlParse.StartTag(t) + XmlParse.Inner(t.txt, t.kids[0..], 0)
                                                 + XmlParse.EndTag(t.name)
    ensures t.kids == [] ==> XmlParse.Printed(t) == XmlParse.StartTag(t) + AmpEncoded(t.txt, false)
                                                 + XmlParse.EndTag(t.name)
    ensures XmlParse.Size(t.kids[0..]) == XmlParse.Size(t.kids)
  {
    hide AmpEncoded, XmlParse.StartTag;
    assert t.txt[0..] == t.txt && t.kids[0..] == t.kids;
  }

  /** `ezxml_toxml_r`: a child, with the text of its parent up to it, and then the children
      behind it and the rest of that text. */
  method ToXmlR(xml: Element, start: nat, s: string,
                ghost dest: Element, ghost t: XmlParse.Tree, ghost i: nat, ghost doc: set<Element>)
    returns (r: string)
    requires Document(doc) && XmlBuild.Presents(dest, t, doc) && start <= |t.txt|
    requires i < |t.kids| == |dest.kids| && xml == dest.kids[i]
    ensures r == s + XmlParse.Inner(t.txt, t.kids[i..], start)
    decreases XmlParse.Size(t.kids[i..]), 0
  {
    hide XmlBuild.Presents, Document, AmpEncoded, XmlParse.Part, XmlParse.Printed, XmlParse.Inner, XmlParse.Size;
    KidPresents(dest, t, i, doc);
    FirstPresents(dest, t, doc);
    ghost var kid := t.kids[i];
    FirstPresents(xml, kid, doc);
    InnerFrom(t, i, start);
    var txt := if xml.parent != null then xml.parent.txt else "";
    r := AmpEncode(XmlParse.Part(txt, start, xml.off), s, false);
    r := PutElement(xml, r, kid, doc);
    var off := 0;
    while off < |txt| && off < xml.off
      invariant off <= XmlParse.Min(xml.off, |txt|)
    {
      off := off + 1;
    }
    if xml.ordered != null {
      r := ToXmlR(xml.ordered, off, r, dest, t, i + 1, doc);
    } else {
      InnerEnd(t, off);
      r := AmpEncode(txt[off..], r, false);
    }
    XmlParse.ThreeParts(s, AmpEncoded(XmlParse.Part(txt, start, xml.off), false), XmlParse.Printed(kid),
                        XmlParse.Inner(txt, t.kids[i + 1..], off));
  }

  /** The tag itself: its start and end, and between them its children or its text */
  method PutElement(xml: Element, s: string, ghost t: XmlParse.Tree, ghost doc: set<Element>) returns (r: string)
    requires Document(doc) && XmlBuild.Presents(xml, t, doc)
    ensures r == s + XmlParse.Printed(t)
    decreases XmlParse.Size(t.kids), 1
  {
    hide XmlBuild.Presents, Document, AmpEncoded, XmlParse.PrintedAttrs;
    hide XmlParse.Printed, XmlParse.Inner, XmlParse.Size;
    FirstPresents(xml, t, doc);
    PrintedIs(t);
    r := s + "<" + xml.name;
    r := XmlParse.PutAttrs(xml.attrs, r);
    r := r + ">";
    assert r == s + XmlParse.StartTag(t);
    hide XmlParse.StartTag;
    ghost var inner := if t.kids == [] then AmpEncoded(t.txt, false) else XmlParse.Inner(t.txt, t.kids[0..], 0);
    if xml.child != null {
      r := ToXmlR(xml.child, 0, r, xml, t, 0, doc);
    } else {
      r := AmpEncode(xml.txt, r, false);
    }
    assert r == s + XmlParse.StartTag(t) + inner;
    r := r + "</" + xml.name + ">";
    assert r == s + XmlParse.StartTag(t) + inner + XmlParse.EndTag(t.name);
    XmlParse.ThreeParts(s, XmlParse.StartTag(t), inner, XmlParse.EndTag(t.name));
  }

  /** `ezxml_toxml`, but for processing instructions: its parent and what is behind it are put
      aside meanwhile, so that the tag is printed without the text and the siblings around it. */
  method ToXml(xml: Element?, ghost t: XmlParse.Tree, ghost doc: set<Element>) returns (s: string)
    requires Document(doc) && (xml != null ==> XmlBuild.Presents(xml, t, doc))
    ensures s == if xml == null then "" else XmlParse.Printed(t)
  {
    if xml == null {
      return "";
    }
    hide XmlParse.Printed, Document, XmlBuild.Presents;
    s := PutElement(xml, "", t, doc);
  }

  /** Printing a document and parsing what is printed: the new root presents the same element. */
  method PrintAndParse(xml: Element, ghost t: XmlParse.Tree, ghost doc: set<Element>)
    returns (a: XmlBuild.Answer, root: Element?, ghost new_doc: set<Element>)
    requires Document(doc) && XmlBuild.Presents(xml, t, doc) && XmlParse.TreeOk(t) && xml.off == 0
    ensures a == XmlBuild.Done && root != null && Document(new_doc) && XmlBuild.Presents(root, t, new_doc)
  {
    assert t.off == 0;
    hide XmlParse.Printed, Document, XmlBuild.Presents, XmlParse.TreeOk;
    var s := ToXml(xml, t, doc);
    XmlParse.ParsePrinted(t);
    a, root, new_doc := XmlBuild.ParseStr(s);
  }

  // ------------------------------------------------------------------------- the form

  lemma EncodedFirst(c: char, s: string, a: bool)
    requires c != '\0'
    ensures AmpEncoded([c] + s, a) == AmpChar(c, a) + AmpEncoded(s, a)
  {
    hide AmpChar;
    assert ([c] + s)[1..] == s;
  }

  /** What is written for each character, in an attribute and in content */
  lemma EncodedHead(c: char, s: string)
    requires c != '\0'
    ensures c == '&' ==> forall a :: AmpEncoded([c] + s, a) == "&amp;" + AmpEncoded(s, a)
    ensures c == '<' ==> forall a :: AmpEncoded([c] + s, a) == "&lt;" + AmpEncoded(s, a)
    ensures c == '>' ==> forall a :: AmpEncoded([c] + s, a) == "&gt;" + AmpEncoded(s, a)
    ensures c == '\r' ==> forall a :: AmpEncoded([c] + s, a) == "&#xD;" + AmpEncoded(s, a)
    ensures c == '\"' ==> AmpEncoded([c] + s, true) == "&quot;" + AmpEncoded(s, true)
    ensures c == '\n' ==> AmpEncoded([c] + s, true) == "&#xA;" + AmpEncoded(s, true)
    ensures c == '\t' ==> AmpEncoded([c] + s, true) == "&#x9;" + AmpEncoded(s, true)
    ensures c in "\"\n\t" ==> AmpEncoded([c] + s, false) == [c] + AmpEncoded(s, false)
    ensures c !in "&<>\r\"\n\t" ==> forall a :: AmpEncoded([c] + s, a) == [c] + AmpEncoded(s, a)
  {
    EncodedFirst(c, s, true);
    EncodedFirst(c, s, false);
    hide AmpEncoded;
  }

  /** The form of an element with an attribute and without children: the attribute's value in
      quotes, and an end tag even when there is no content. */
  lemma LeafPrinted(n: string, k: string, v: string, txt: string, off: nat)
    ensures XmlParse.Printed(XmlParse.Tree(n, [XmlParse.Attr(k, v)], txt, off, []))
         == "<" + n + (" " + k + "=\"" + AmpEncoded(v, true) + "\"") + ">" + AmpEncoded(txt, false) + ("</" + n + ">")
  {
    hide AmpEncoded;
    var attrs := [XmlParse.Attr(k, v)];
    var t := XmlParse.Tree(n, attrs, txt, off, []);
    assert XmlParse.PrintedAttrs(attrs, 0) == XmlParse.PrintedAttr(attrs[0]) + XmlParse.PrintedAttrs(attrs, 1);
    assert XmlParse.Inner(txt, [], 0) == AmpEncoded(txt[0..], false) && txt[0..] == txt;
  }

  /** A child is printed at its offset, between the two parts of the text. */
  lemma ChildPrinted(n: string, txt: string, off: nat, kid: XmlParse.Tree)
    requires kid.off <= |txt|
    ensures XmlParse.Printed(XmlParse.Tree(n, [], txt, off, [kid]))
         == "<" + n + ">" + (AmpEncoded(txt[..kid.off], false) + XmlParse.Printed(kid)
                             + AmpEncoded(txt[kid.off..], false)) + ("</" + n + ">")
  {
    hide AmpEncoded, XmlParse.Inner, XmlParse.Printed, XmlParse.Part;
    InnerOfOne(txt, kid);
    NoAttributes(XmlParse.Tree(n, [], txt, off, [kid]));
  }

  lemma NoAttributes(t: XmlParse.Tree)
    requires t.attrs == []
    ensures XmlParse.Printed(t) == "<" + t.name + ">" + XmlParse.Inner(t.txt, t.kids, 0) + ("</" + t.name + ">")
  {
    hide AmpEncoded, XmlParse.Inner;
    assert XmlParse.PrintedAttrs([], 0) == "";
  }

  lemma InnerOfOne(txt: string, kid: XmlParse.Tree)
    requires kid.off <= |txt|
    ensures XmlParse.Inner(txt, [kid], 0)
         == AmpEncoded(txt[..kid.off], false) + XmlParse.Printed(kid) + AmpEncoded(txt[kid.off..], false)
  {
    hide AmpEncoded, XmlParse.Printed;
    assert [kid][1..] == [] && XmlParse.Inner(txt, [], kid.off) == AmpEncoded(txt[kid.off..], false);
    assert XmlParse.Part(txt, 0, kid.off) == txt[..kid.off];
  }
}
