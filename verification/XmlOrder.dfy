/** The order of the children that the parser of src/lib/ezxml.c makes: it opens each at the
    end of its parent's text as it then is, so that the offsets never fall and lie inside the
    text. */
module XmlOrder {
  import opened XmlText
  import opened XmlParse

  /** The offsets of the children do not fall and are inside the text, at every level. */
  predicate InOrder(t: Tree)
    decreases t
  {
    && (forall i :: 0 <= i < |t.kids| ==> t.kids[i].off <= |t.txt| && InOrder(t.kids[i]))
    && (forall i :: 0 < i < |t.kids| ==> t.kids[i - 1].off <= t.kids[i].off)
  }

  /** What has been read is in order, and every open element stands at the end of the text
      around it. */
  predicate DocInOrder(doc: Doc) {
    match doc
    case Before => true
    case Behind(root) => InOrder(root)
    case Inside(open) =>
      && (forall i :: 0 <= i < |open| ==> InOrder(open[i]))
      && (forall i :: 0 < i < |open| ==> open[i].off == |open[i - 1].txt|)
  }

  lemma OpenInOrder(doc: Doc, name: string, attrs: seq<Attr>)
    requires Open(doc) && !doc.Behind? && DocInOrder(doc)
    ensures DocInOrder(OpenTag(doc, name, attrs))
    ensures doc.Inside? ==> forall kid <- Last(doc.open).kids :: kid.off <= Last(OpenTag(doc, name, attrs).open).off
  {
  }

  lemma TextInOrder(doc: Doc, text: string)
    requires Open(doc) && DocInOrder(doc)
    ensures DocInOrder(CharContent(doc, text))
  {
    if doc.Inside? {
      LongerInOrder(Last(doc.open), text);
    }
    hide InOrder;
  }

  lemma LongerInOrder(t: Tree, text: string)
    requires InOrder(t)
    ensures InOrder(t.(txt := t.txt + text))
  {
  }

  lemma KidInOrder(t: Tree, kid: Tree)
    requires InOrder(t) && InOrder(kid) && kid.off == |t.txt|
    ensures InOrder(t.(kids := t.kids + [kid]))
  {
  }

  lemma CloseInOrder(doc: Doc, name: string)
    requires Open(doc) && Closes(doc, name) && DocInOrder(doc)
    ensures DocInOrder(CloseTag(doc, name))
  {
    var open := doc.open;
    if |open| > 1 {
      KidInOrder(open[|open| - 2], Last(open));
    }
    hide InOrder;
  }

  predicate IsTag(s: string) {
    s != "" && StartChar(s[0])
  }

  predicate IsClose(s: string) {
    s != "" && s[0] == '/'
  }

  lemma {:induction false} TagInOrder(u: string, e: char, doc: Doc)
    requires TableOk(DEFAULTS) && Open(doc) && u != "" && DocInOrder(doc)
    requires IsTag(u[1..])
    ensures Markup(u, e, doc).Ok? ==> InOrder(Markup(u, e, doc).root)
    decreases |u|, 0
  {
    hide DocInOrder, InOrder, TableOk, Decoded, ReadTag, Until, Search, Along, Lines, IsSpace;
    hide OpenTag, CloseTag, CharContent, Closes;
    var s := u[1..];
    if !doc.Behind? && ReadTag(s, e).Tag? {
      var t := ReadTag(s, e);
      OpenInOrder(doc, t.name, t.attrs);
      OpenedCloses(doc, t.name, t.attrs);
      var inside := OpenTag(doc, t.name, t.attrs);
      if t.empty {
        CloseInOrder(inside, t.name);
        ThenInOrder(t.rest, e, CloseTag(inside, t.name));
      } else {
        ThenInOrder(t.rest, e, inside);
      }
    }
  }

  lemma {:induction false} EndInOrder(u: string, e: char, doc: Doc)
    requires TableOk(DEFAULTS) && Open(doc) && u != "" && DocInOrder(doc)
    requires !IsTag(u[1..]) && IsClose(u[1..])
    ensures Markup(u, e, doc).Ok? ==> InOrder(Markup(u, e, doc).root)
    decreases |u|, 0
  {
    hide DocInOrder, InOrder, TableOk, Decoded, ReadTag, Until, Search, Along, Lines, IsSpace;
    hide OpenTag, CloseTag, CharContent, Closes;
    var s := u[1..];
    var n := Until(s[1..], CloseEnd);
    var name, rest := s[1..1 + n], s[1 + n..];
    if !(rest == "" && e != '>') && Closes(doc, name) {
      CloseInOrder(doc, name);
      var next := if rest != "" && IsSpace(rest[0]) then rest[Along(rest, White)..] else rest;
      ThenInOrder(next, e, CloseTag(doc, name));
    }
  }

  lemma {:induction false} CommentInOrder(u: string, e: char, doc: Doc)
    requires TableOk(DEFAULTS) && Open(doc) && u != "" && DocInOrder(doc)
    requires !IsTag(u[1..]) && !IsClose(u[1..]) && Prefix("!--", u[1..])
    ensures Markup(u, e, doc).Ok? ==> InOrder(Markup(u, e, doc).root)
    decreases |u|, 0
  {
    hide DocInOrder, InOrder, TableOk, Decoded, ReadTag, Until, Search, Along, Lines, IsSpace;
    hide OpenTag, CloseTag, CharContent, Closes;
    var s := u[1..];
    var n := 3 + Search(s[3..], "--");
    if n < |s| {
      CommentEnd(s, n);
      ThenInOrder(s[n + 2..], e, doc);
    }
  }

  lemma {:induction false} SectionInOrder(u: string, e: char, doc: Doc)
    requires TableOk(DEFAULTS) && Open(doc) && u != "" && DocInOrder(doc)
    requires !IsTag(u[1..]) && !IsClose(u[1..]) && !Prefix("!--", u[1..]) && Prefix("![CDATA[", u[1..])
    ensures Markup(u, e, doc).Ok? ==> InOrder(Markup(u, e, doc).root)
    decreases |u|, 0
  {
    hide DocInOrder, InOrder, TableOk, Decoded, ReadTag, Until, Search, Along, Lines, IsSpace;
    hide OpenTag, CloseTag, CharContent, Closes;
    var s := u[1..];
    var n := 8 + Search(s[8..], "]]>");
    if n < |s| {
      SectionEnd(s, n);
      var text := Decoded(Lines(s[8..n]), DEFAULTS, Cdata);
      TextInOrder(doc, text);
      ThenInOrder(s[n + 2..], e, if n > 8 then CharContent(doc, text) else doc);
    }
  }

  lemma {:induction false} DeclInOrder(u: string, e: char, doc: Doc)
    requires TableOk(DEFAULTS) && Open(doc) && u != "" && DocInOrder(doc)
    requires Prefix("!DOCTYPE", u[1..])
    ensures Markup(u, e, doc).Ok? ==> InOrder(Markup(u, e, doc).root)
    decreases |u|, 0
  {
    hide DocInOrder, InOrder, TableOk, Until, Markup, Prefix;
    DeclIs(u, e, doc);
    ThenInOrder(u[1..][Until(u[1..], DeclEnd)..], e, doc);
  }

  lemma {:induction false} InstInOrder(u: string, e: char, doc: Doc)
    requires TableOk(DEFAULTS) && Open(doc) && u != "" && DocInOrder(doc)
    requires u[1..] != "" && u[1] == '?'
    ensures Markup(u, e, doc).Ok? ==> InOrder(Markup(u, e, doc).root)
    decreases |u|, 0
  {
    hide DocInOrder, InOrder, TableOk, Markup, InstEnd;
    InstIs(u, e, doc);
    var n := InstEnd(u[1..]);
    if n + 1 <= |u[1..]| {
      ThenInOrder(u[1..][n + 1..], e, doc);
    }
  }

  lemma {:induction false} MarkupInOrder(u: string, e: char, doc: Doc)
    requires TableOk(DEFAULTS) && Open(doc) && u != "" && DocInOrder(doc)
    ensures Markup(u, e, doc).Ok? ==> InOrder(Markup(u, e, doc).root)
    decreases |u|, 1
  {
    var s := u[1..];
    if IsTag(s) {
      TagInOrder(u, e, doc);
    } else if IsClose(s) {
      EndInOrder(u, e, doc);
    } else if Prefix("!--", s) {
      CommentInOrder(u, e, doc);
    } else if Prefix("![CDATA[", s) {
      SectionInOrder(u, e, doc);
    } else if Prefix("!DOCTYPE", s) {
      DeclInOrder(u, e, doc);
    } else if s != "" && s[0] == '?' {
      InstInOrder(u, e, doc);
    } else {
      hide DocInOrder, InOrder, TableOk, Decoded, ReadTag, Until, Search, Along, Lines, Prefix;
    }
  }

  lemma {:induction false} ThenInOrder(u: string, e: char, doc: Doc)
    requires TableOk(DEFAULTS) && Open(doc) && DocInOrder(doc)
    ensures Then(u, e, doc).Ok? ==> InOrder(Then(u, e, doc).root)
    decreases |u|, 3
  {
    hide InOrder, TableOk;
    if u != "" {
      ContentInOrder(u[1..], e, doc);
    }
  }

  lemma {:induction false} ContentInOrder(w: string, e: char, doc: Doc)
    requires TableOk(DEFAULTS) && Open(doc) && DocInOrder(doc)
    ensures XmlParse.Content(w, e, doc).Ok? ==> InOrder(XmlParse.Content(w, e, doc).root)
    decreases |w|, 2
  {
    hide InOrder, TableOk, Decoded, Until, Lines;
    var n := Until(w, One('<'));
    if 0 < n < |w| {
      var text := Decoded(Lines(w[..n]), DEFAULTS, Mode.Content);
      TextInOrder(doc, text);
      MarkupInOrder(w[n..], e, CharContent(doc, text));
    } else if n < |w| {
      MarkupInOrder(w, e, doc);
    }
  }

  /** Whatever the document, the children of every element of the result come in the order of
      their offsets, inside its text: the order that inserting them into the lists of a tag
      counts on. */
  lemma ParsedInOrder(s: string)
    ensures XmlParse.Parsed(s).Ok? ==> InOrder(XmlParse.Parsed(s).root)
  {
    DefaultsOk();
    hide InOrder, TableOk, Until, Markup;
    if s != "" {
      var u := UpToNul(s[..|s| - 1]);
      var n := Until(u, One('<'));
      if n < |u| {
        MarkupInOrder(u[n..], s[|s| - 1], Before);
      }
    }
  }
}
