/** Documents as they are written by hand or by a server, and what src/lib/ezxml.c reads from them:
    empty elements in either form, both kinds of quotes, attributes without a value, white space
    inside tags, comments, cdata sections, and text with any references. */
module XmlSource {
  import opened XmlText
  import opened XmlParse
  import XmlRefs

  // ------------------------------------------------------------------------------ the source

  /** An attribute with what separates it from its value and from what follows. */
  datatype SourceAttr =
    | Quoted(name: string, gap: string, quote: char, raw: string, after: string)
    | Bare(name: string, gap: string)
  {
    function Written(): string {
      match this
      case Quoted(name, gap, quote, raw, after) => name + (gap + ([quote] + (raw + ([quote] + after))))
      case Bare(name, gap) => name + gap
    }

    predicate Valid() {
      && AttrName(name) && name[0] != '\"' && name[0] != '\'' && (forall c <- gap :: Equals.Has(c))
      && (Quoted? ==>
            && gap != "" && (quote == '\"' || quote == '\'') && quote !in raw && '\0' !in raw
            && forall c <- after :: IsSpace(c))
    }

    /** The attribute that it stands for: a value is decoded, and none is empty. */
    function Meaning(): Attr
      requires TableOk(DEFAULTS)
    {
      Attr(name, if Quoted? then Decoded(Lines(raw), DEFAULTS, Attribute) else "")
    }
  }

  function AttrsWritten(attrs: seq<SourceAttr>): string {
    if attrs == [] then "" else attrs[0].Written() + AttrsWritten(attrs[1..])
  }

  /** A bare attribute in front of another one is followed by white space or an equals sign. */
  predicate AttrsValid(attrs: seq<SourceAttr>) {
    forall i :: 0 <= i < |attrs| ==> attrs[i].Valid() && (attrs[i].Bare? && i < |attrs| - 1 ==> attrs[i].gap != "")
  }

  function AttrsMeaning(attrs: seq<SourceAttr>): (m: seq<Attr>)
    requires TableOk(DEFAULTS)
    ensures |m| == |attrs| && forall i :: 0 <= i < |attrs| ==> m[i] == attrs[i].Meaning()
  {
    seq(|attrs|, i requires 0 <= i < |attrs| => attrs[i].Meaning())
  }

  // ----------------------------------------------------------------------------- attributes

  lemma {:induction false} SkipRun(a: string, u: string)
    requires (forall c <- a :: IsSpace(c)) && (u == "" || !IsSpace(u[0]))
    ensures SkipSpace(a + u) == u
  {
    if a == "" {
      assert a + u == u;
    } else {
      assert (a + u)[1..] == a[1..] + u && (a + u)[0] == a[0];
      SkipRun(a[1..], u);
    }
  }

  lemma {:induction false} AlongRun(a: string, u: string, run: Class)
    requires (forall c <- a :: run.Has(c)) && (u == "" || !run.Has(u[0]))
    ensures Along(a + u, run) == |a|
  {
    if a == "" {
      assert a + u == u;
    } else {
      assert (a + u)[1..] == a[1..] + u && (a + u)[0] == a[0];
      AlongRun(a[1..], u, run);
    }
  }

  /** A value in quotes of either kind */
  lemma QuotedValue(quote: char, raw: string, rest: string)
    requires TableOk(DEFAULTS) && (quote == '\"' || quote == '\'') && quote !in raw
    ensures ReadValue([quote] + (raw + ([quote] + rest)))
         == Value(Decoded(Lines(raw), DEFAULTS, Attribute), rest)
  {
    hide Decoded, TableOk, Lines, Until;
    var t := [quote] + (raw + ([quote] + rest));
    assert t[0] == quote && t[1..] == raw + ([quote] + rest);
    UntilStop(raw, [quote] + rest, One(quote));
    assert t[1..1 + |raw|] == raw && t[|raw| + 2..] == rest;
  }

  /** What cannot be taken for a part of the attribute in front of it */
  predicate Ends(w: string) {
    w != "" && !IsSpace(w[0]) && w[0] != '=' && w[0] != '\"' && w[0] != '\''
  }

  lemma NameAhead(name: string, rest: string)
    requires AttrName(name) && rest != "" && AttrEnd.Has(rest[0])
    ensures var r := name + rest;
      r != "" && r[0] != '/' && r[0] != '>' && Until(r, AttrEnd) == |name| && r[..|name|] == name && r[|name|..] == rest
  {
    UntilStop(name, rest, AttrEnd);
  }

  /** The value behind a name and a gap */
  lemma GapRead(name: string, gap: string, t: string)
    requires TableOk(DEFAULTS) && gap != "" && (forall c <- gap :: Equals.Has(c)) && t != "" && !Equals.Has(t[0])
    ensures ReadNamed(name + (gap + t), |name|) == ReadValue(t)
  {
    hide TableOk, ReadValue, Along;
    var r := name + (gap + t);
    var n := |name|;
    GapBegins(gap);
    assert r[n] == gap[0] && r[n + 1..] == gap[1..] + t;
    AlongRun(gap[1..], t, Equals);
    assert r[n + 1 + |gap[1..]|..] == t;
  }

  lemma GapBegins(gap: string)
    requires gap != "" && forall c <- gap :: Equals.Has(c)
    ensures (gap[0] == '=' || IsSpace(gap[0])) && AttrEnd.Has(gap[0]) && forall c <- gap[1..] :: Equals.Has(c)
  {
    assert gap[0] in gap && Equals.Has(gap[0]);
  }

  /** One attribute, whatever follows it */
  lemma AttrSeen(a: SourceAttr, w: string)
    requires TableOk(DEFAULTS) && a.Valid() && Ends(w)
    requires a.Bare? && a.gap == "" ==> w[0] == '/' || w[0] == '>'
    ensures ReadAttrs(a.Written() + w) == MoreAttrs(a.Meaning(), ReadAttrs(w))
  {
    hide Decoded, TableOk, Lines, ReadAttrs, Until, Along, ReadValue, ReadNamed, SkipSpace;
    match a
    case Quoted(name, gap, quote, raw, after) =>
      var t := [quote] + (raw + ([quote] + (after + w)));
      var r := name + (gap + t);
      WrittenQuoted(a, w, r, t);
      GapBegins(gap);
      assert (gap + t)[0] == gap[0];
      NameAhead(name, gap + t);
      GapRead(name, gap, t);
      QuotedValue(quote, raw, after + w);
      AttrsUnfold(r, |name|, Decoded(Lines(raw), DEFAULTS, Attribute), after + w);
      SkipRun(after, w);
    case Bare(name, gap) =>
      var r := name + (gap + w);
      Assoc(name, gap, w);
      if gap == "" {
        assert gap + w == w;
        NameAhead(name, w);
        NoGap(name, w);
      } else {
        GapBegins(gap);
        assert (gap + w)[0] == gap[0];
        NameAhead(name, gap + w);
        GapRead(name, gap, w);
        NoValue(w);
      }
      AttrsUnfold(r, |name|, "", w);
      SkipRun("", w);
      assert "" + w == w;
  }

  lemma WrittenQuoted(a: SourceAttr, w: string, r: string, t: string)
    requires a.Quoted? && t == [a.quote] + (a.raw + ([a.quote] + (a.after + w))) && r == a.name + (a.gap + t)
    ensures a.Written() + w == r
  {
    Assoc([a.quote], a.after, w);
    Assoc(a.raw, [a.quote] + a.after, w);
    Assoc([a.quote], a.raw + ([a.quote] + a.after), w);
    Assoc(a.gap, [a.quote] + (a.raw + ([a.quote] + a.after)), w);
    Assoc(a.name, a.gap + ([a.quote] + (a.raw + ([a.quote] + a.after))), w);
  }

  lemma NoGap(name: string, w: string)
    requires TableOk(DEFAULTS) && w != "" && (w[0] == '/' || w[0] == '>')
    ensures ReadNamed(name + w, |name|) == Value("", w)
  {
    hide TableOk, ReadValue;
    assert (name + w)[|name|..] == w;
  }

  lemma NoValue(w: string)
    requires TableOk(DEFAULTS) && Ends(w)
    ensures ReadValue(w) == Value("", w)
  {
    hide TableOk, Decoded, Lines;
  }

  lemma WrittenEnds(a: SourceAttr, w: string)
    requires a.Valid()
    ensures Ends(a.Written() + w)
  {
    assert (a.Written() + w)[0] == a.name[0];
  }

  lemma AttrsBegin(attrs: seq<SourceAttr>, w: string)
    requires AttrsValid(attrs) && w != "" && (w[0] == '/' || w[0] == '>')
    ensures Ends(AttrsWritten(attrs) + w)
    ensures attrs == [] ==> AttrsWritten(attrs) + w == w
    ensures attrs != [] ==> AttrsWritten(attrs) + w == attrs[0].Written() + (AttrsWritten(attrs[1..]) + w)
  {
    hide SourceAttr.Written, AttrName;
    if attrs == [] {
      assert AttrsWritten(attrs) + w == w;
    } else {
      Assoc(attrs[0].Written(), AttrsWritten(attrs[1..]), w);
      WrittenEnds(attrs[0], AttrsWritten(attrs[1..]) + w);
    }
  }

  lemma MeaningFirst(attrs: seq<SourceAttr>)
    requires TableOk(DEFAULTS) && attrs != []
    ensures [attrs[0].Meaning()] + AttrsMeaning(attrs[1..]) == AttrsMeaning(attrs)
  {
    hide TableOk, SourceAttr.Meaning;
  }

  /** Attributes of any form, up to the end of the tag */
  lemma {:induction false} AttrsSeen(attrs: seq<SourceAttr>, w: string)
    requires TableOk(DEFAULTS) && AttrsValid(attrs) && w != "" && (w[0] == '/' || w[0] == '>')
    ensures ReadAttrs(AttrsWritten(attrs) + w) == Attrs(AttrsMeaning(attrs), w)
  {
    hide TableOk, SourceAttr.Written, SourceAttr.Meaning, SourceAttr.Valid, AttrsWritten, Ends;
    AttrsBegin(attrs, w);
    if attrs != [] {
      hide ReadAttrs, AttrsMeaning;
      var rest := AttrsWritten(attrs[1..]) + w;
      AttrsBegin(attrs[1..], w);
      AttrsSeen(attrs[1..], w);
      AttrSeen(attrs[0], rest);
      MeaningFirst(attrs);
    }
  }

  // ------------------------------------------------------------------------------- elements

  /** An element, an empty one or one with content and an end tag, in which white space may stand
      behind the name. */
  datatype Node = Node(name: string, lead: string, attrs: seq<SourceAttr>, body: Body)
  datatype Body = Empty | Full(pieces: seq<Piece>, last: string, close: string)

  /** Text, and the markup behind it */
  datatype Piece = Piece(text: string, item: Item)
  datatype Item = Element(node: Node) | Section(section: string) | Skipped(aside: Aside)

  /** Markup that leaves no trace in an element: comments, processing instructions, and
      declarations of the document's type, here without an internal subset */
  datatype Aside = Comment(comment: string) | Instruction(inst: string) | Declaration(decl: string)

  function Count(pieces: seq<Piece>): nat {
    if pieces == [] then 0
    else 2 + Count(pieces[1..]) + match pieces[0].item
         case Element(Node(_, _, _, Full(inner, _, _))) => 1 + Count(inner)
         case _ => 0
  }

  function Measure(n: Node): nat {
    if n.body.Full? then Count(n.body.pieces) else 0
  }

  /** An element as it is written, up to its last '>', and what stands from there on. */
  function NodeThen(n: Node, v: string): (u: string)
    ensures u != "" && u[0] == '<'
    decreases Measure(n), 1
  {
    "<" + (n.name + (n.lead + (AttrsWritten(n.attrs) + match n.body
      case Empty => "/" + v
      case Full(pieces, last, close) => ">" + PiecesThen(pieces, last, "</" + (n.name + (close + v))))))
  }

  function ItemThen(item: Item, v: string): (u: string)
    ensures u != "" && u[0] == '<'
    decreases if item.Element? then Measure(item.node) + 1 else 0, 0
  {
    match item
    case Element(node) => NodeThen(node, v)
    case Section(body) => "<![CDATA[" + (body + ("]]" + v))
    case Skipped(aside) => AsideThen(aside, v)
  }

  function AsideThen(aside: Aside, v: string): (u: string)
    ensures u != "" && u[0] == '<'
  {
    match aside
    case Comment(body) => "<!--" + (body + ("--" + v))
    case Instruction(inst) => "<?" + (inst + ("?" + v))
    case Declaration(decl) => "<!DOCTYPE" + (decl + v)
  }

  function PiecesThen(pieces: seq<Piece>, last: string, v: string): string
    decreases Count(pieces), 0
  {
    if pieces == [] then last + v
    else pieces[0].text + ItemThen(pieces[0].item, ">" + PiecesThen(pieces[1..], last, v))
  }

  /** What has been read of an element's content. */
  datatype Got = Got(txt: string, kids: seq<Tree>)

  function TextAdded(got: Got, raw: string): Got
    requires TableOk(DEFAULTS)
  {
    got.(txt := got.txt + Decoded(Lines(raw), DEFAULTS, Mode.Content))
  }

  function ItemAdded(got: Got, item: Item): Got
    requires TableOk(DEFAULTS)
    decreases if item.Element? then Measure(item.node) + 1 else 0, 0
  {
    match item
    case Element(node) => got.(kids := got.kids + [Meaning(node, |got.txt|)])
    case Section(body) => got.(txt := got.txt + Lines(body))
    case Skipped(_) => got
  }

  function Contents(pieces: seq<Piece>, last: string, got: Got): Got
    requires TableOk(DEFAULTS)
    decreases Count(pieces), 0
  {
    if pieces == [] then TextAdded(got, last)
    else Contents(pieces[1..], last, ItemAdded(TextAdded(got, pieces[0].text), pieces[0].item))
  }

  /** The element that a source stands for: texts are decoded and joined, cdata sections taken as
      they are, comments left out, and children stand where the text has come to. */
  function Meaning(n: Node, off: nat): Tree
    requires TableOk(DEFAULTS)
    decreases Measure(n), 1
  {
    match n.body
    case Empty => Tree(n.name, AttrsMeaning(n.attrs), "", off, [])
    case Full(pieces, last, _) =>
      var got := Contents(pieces, last, Got("", []));
      Tree(n.name, AttrsMeaning(n.attrs), got.txt, off, got.kids)
  }

  predicate TextValid(raw: string) {
    '<' !in raw && '\0' !in raw
  }

  /** The mark is not in the body, nor does it begin there. */
  predicate EndsFirst(body: string, mark: string)
    requires mark != ""
  {
    Search(body + mark, mark) == |body| && '\0' !in body
  }

  predicate NodeValid(n: Node)
    decreases Measure(n), 1
  {
    && TagName(n.name) && AttrsValid(n.attrs) && (forall c <- n.lead :: IsSpace(c))
    && (n.attrs != [] ==> n.lead != "") && (n.lead != "" ==> IsWhite(n.lead[0]))
    && (n.body.Full? ==> PiecesValid(n.body.pieces) && TextValid(n.body.last) && forall c <- n.body.close :: IsWhite(c))
  }

  predicate ItemValid(item: Item)
    decreases if item.Element? then Measure(item.node) + 1 else 0, 0
  {
    match item
    case Element(node) => NodeValid(node)
    case Section(body) => EndsFirst(body, "]]>")
    case Skipped(aside) => AsideValid(aside)
  }

  predicate AsideValid(aside: Aside) {
    match aside
    case Comment(body) => EndsFirst(body, "--")
    case Instruction(inst) => inst != "" && '\0' !in inst && NoInstEnd("?" + inst + "?")
    case Declaration(decl) => '[' !in decl && '>' !in decl && '\0' !in decl
  }

  /** No question mark in front of a '>' */
  predicate NoInstEnd(t: string) {
    forall i :: 0 <= i < |t| - 1 ==> !(t[i] == '?' && t[i + 1] == '>')
  }

  predicate PiecesValid(pieces: seq<Piece>)
    decreases Count(pieces), 0
  {
    pieces != [] ==> TextValid(pieces[0].text) && ItemValid(pieces[0].item) && PiecesValid(pieces[1..])
  }

  // ------------------------------------------------------------------------- reading tags

  /** What opening, filling and closing an element makes of a document */
  function Added(doc: Doc, t: Tree): (d: Doc)
    requires Open(doc) && !doc.Behind?
    ensures Open(d)
  {
    if doc.Before? then Behind(t) else Inside(WithKid(doc.open, t))
  }

  function OffsetIn(doc: Doc): nat
    requires Open(doc)
  {
    if doc.Inside? then |Last(doc.open).txt| else 0
  }

  lemma ElementClosed(doc: Doc, t: Tree)
    requires Open(doc) && !doc.Behind? && t.off == OffsetIn(doc)
    ensures var inside := OpenTag(doc, t.name, t.attrs);
      && inside.open != [] && Last(inside.open) == t.(txt := "", kids := [])
      && var full := Inside(Filled(inside.open, t.txt, t.kids));
      Closes(full, t.name) && CloseTag(full, t.name) == Added(doc, t)
  {
    if doc.Inside? {
      ChildClosed(doc.open, t);
    } else {
      var inside := OpenTag(doc, t.name, t.attrs);
      assert [] + t.kids == t.kids;
      assert Filled(inside.open, t.txt, t.kids) == [t];
    }
  }

  /** A start tag in front of its end, which is "/" for an empty element */
  lemma TagSeen(n: Node, tail: string, e: char)
    requires TableOk(DEFAULTS) && NodeValid(n) && tail != "" && (tail[0] == '/' || tail[0] == '>')
    ensures var s := n.name + (n.lead + (AttrsWritten(n.attrs) + tail));
      && s != "" && StartChar(s[0])
      && ReadTag(s, e)
         == if tail[0] == '>' then Tag(n.name, AttrsMeaning(n.attrs), false, tail)
            else if (tail[1..] != "" && tail[1] != '>') || (tail[1..] == "" && e != '>') then BadTag("missing >")
            else Tag(n.name, AttrsMeaning(n.attrs), true, tail[1..])
  {
    hide TableOk, ReadAttrs, SkipSpace, AttrsMeaning, PiecesValid, TextValid;
    var rest := AttrsWritten(n.attrs) + tail;
    var s := n.name + (n.lead + rest);
    AttrsBegin(n.attrs, tail);
    AttrsSeen(n.attrs, tail);
    hide AttrsWritten, AttrsValid;
    LeadBegins(n, rest, tail);
    UntilStop(n.name, n.lead + rest, TagEnd);
    assert s[..|n.name|] == n.name && s[|n.name|..] == n.lead + rest;
    SkipRun(n.lead, rest);
  }

  lemma LeadBegins(n: Node, rest: string, tail: string)
    requires NodeValid(n) && tail != "" && (tail[0] == '/' || tail[0] == '>') && Ends(rest)
    requires n.attrs == [] ==> rest == tail
    ensures n.lead + rest != "" && TagEnd.Has((n.lead + rest)[0])
  {
    if n.lead != "" {
      assert (n.lead + rest)[0] == n.lead[0];
    } else {
      assert n.lead + rest == rest;
    }
  }

  /** An empty element is opened and closed at once, whatever stands behind it. */
  lemma EmptySeen(n: Node, v: string, e: char, doc: Doc)
    requires TableOk(DEFAULTS) && NodeValid(n) && n.body.Empty? && Open(doc) && !doc.Behind?
    requires if v == "" then e == '>' else v[0] == '>'
    ensures Markup(NodeThen(n, v), e, doc) == Then(v, e, Added(doc, Meaning(n, OffsetIn(doc))))
  {
    hide TableOk, ReadTag, AttrsWritten, AttrsMeaning, NodeValid, Then;
    var t := Meaning(n, OffsetIn(doc));
    var u := NodeThen(n, v);
    TagSeen(n, "/" + v, e);
    assert u[1..] == n.name + (n.lead + (AttrsWritten(n.attrs) + ("/" + v)));
    assert ("/" + v)[1..] == v;
    ElementClosed(doc, t);
    SameFilled(OpenTag(doc, t.name, t.attrs).open);
    hide OpenTag, CloseTag, Added, Closes, Filled;
  }

  lemma SameFilled(open: seq<Tree>)
    requires open != [] && Last(open).txt == "" && Last(open).kids == []
    ensures Filled(open, "", []) == open
  {
    SameLast(open);
    assert Last(open).kids + [] == [];
    assert Last(open).(txt := "", kids := []) == Last(open);
  }

  // ----------------------------------------------------------------------- reading content

  /** The document with what has been got of the content of its last element */
  function Holding(doc: Doc, got: Got): (d: Doc)
    requires doc.Inside? && Open(doc)
    ensures d.Inside? && Open(d) && Last(d.open).txt == got.txt
  {
    Inside(WithLast(doc.open, Last(doc.open).(txt := got.txt, kids := got.kids)))
  }

  lemma HoldingTwice(doc: Doc, a: Got, b: Got)
    requires doc.Inside? && Open(doc)
    ensures Holding(Holding(doc, a), b) == Holding(doc, b)
  {
  }

  lemma NoText()
    requires TableOk(DEFAULTS)
    ensures Decoded(Lines(""), DEFAULTS, Mode.Content) == ""
  {
  }

  lemma ContentHeld(doc: Doc, got: Got, raw: string)
    requires TableOk(DEFAULTS) && doc.Inside? && Open(doc)
    ensures (if raw == "" then Holding(doc, got)
             else CharContent(Holding(doc, got), Decoded(Lines(raw), DEFAULTS, Mode.Content)))
         == Holding(doc, TextAdded(got, raw))
  {
    hide TableOk, Decoded, Lines;
    if raw == "" {
      NoText();
      assert got.txt + "" == got.txt;
    }
  }

  /** Text in front of markup */
  lemma TextHeld(doc: Doc, got: Got, raw: string, w: string, e: char)
    requires TableOk(DEFAULTS) && doc.Inside? && Open(doc) && TextValid(raw) && w != "" && w[0] == '<'
    ensures XmlParse.Content(raw + w, e, Holding(doc, got)) == Markup(w, e, Holding(doc, TextAdded(got, raw)))
  {
    hide TableOk, Decoded, Lines, XmlParse.Content, Markup, Holding, TextAdded;
    ContentStep(raw, w, e, Holding(doc, got));
    ContentHeld(doc, got, raw);
  }

  lemma CommentFound(body: string, rest: string)
    requires EndsFirst(body, "--")
    ensures Search(body + ("--" + rest), "--") == |body|
  {
    Assoc(body, "--", rest);
    SearchOn(body, "--", rest);
  }

  lemma SectionFound(body: string, rest: string)
    requires EndsFirst(body, "]]>")
    ensures Search(body + ("]]>" + rest), "]]>") == |body|
  {
    Assoc(body, "]]>", rest);
    SearchOn(body, "]]>", rest);
  }

  /** What follows the first mark does not change where it is. */
  lemma {:induction false} SearchOn(body: string, mark: string, rest: string)
    requires mark != "" && Search(body + mark, mark) == |body|
    ensures Search(body + mark + rest, mark) == |body|
  {
    var u := body + mark;
    PrefixOn(mark, u, rest);
    assert (u + rest)[1..] == u[1..] + rest;
    if body != "" {
      assert u[1..] == body[1..] + mark;
      SearchOn(body[1..], mark, rest);
    } else {
      assert u == mark;
    }
  }

  lemma PrefixOn(mark: string, u: string, rest: string)
    requires |mark| <= |u|
    ensures Prefix(mark, u + rest) == Prefix(mark, u)
  {
    assert (u + rest)[..|mark|] == u[..|mark|];
  }

  lemma CommentSeen(body: string, v: string, e: char, doc: Doc)
    requires TableOk(DEFAULTS) && EndsFirst(body, "--") && Open(doc)
    requires if v == "" then e == '>' else v[0] == '>'
    ensures Markup(AsideThen(Comment(body), v), e, doc) == Then(v, e, doc)
  {
    hide TableOk, Then, Search, EndsFirst, Markup;
    var s := "!--" + (body + ("--" + v));
    var u := "<!--" + (body + ("--" + v));
    assert u[1..] == s && s[..3] == "!--" && s[3..] == body + ("--" + v);
    CommentFound(body, v);
    var n := 3 + |body|;
    assert s[n + 2..] == v;
    assert n < |s| && Prefix("--", s[n..]) by {
      assert s[n..][..2] == "--";
    }
    CommentUnfold(u, s, n, e, doc);
  }

  lemma CommentUnfold(u: string, s: string, n: nat, e: char, doc: Doc)
    requires TableOk(DEFAULTS) && Open(doc) && u != "" && u[1..] == s && |s| >= 3 && s[..3] == "!--"
    requires n == 3 + Search(s[3..], "--") && n + 2 <= |s| && Prefix("--", s[n..])
    requires if s[n + 2..] == "" then e == '>' else s[n + 2..][0] == '>'
    ensures Markup(u, e, doc) == Then(s[n + 2..], e, doc)
  {
    hide TableOk, Then, Search, Until, Instructed, Declared, ReadTag, CharContent;
    assert s[0] == '!';
  }

  /** Where an instruction ends */
  lemma {:induction false} InstFound(t: string, v: string)
    requires t != "" && t[|t| - 1] == '?' && NoInstEnd(t) && (v == "" || v[0] == '>')
    ensures InstEnd(t + v) == |t| - 1
  {
    if |t| > 1 {
      assert (t + v)[1..] == t[1..] + v;
      assert forall i :: 0 <= i < |t[1..]| ==> t[1..][i] == t[i + 1];
      InstFound(t[1..], v);
      assert (t + v)[0] == t[0] && (t + v)[1] == t[1];
    }
  }

  lemma InstSeen(inst: string, v: string, e: char, doc: Doc)
    requires TableOk(DEFAULTS) && AsideValid(Instruction(inst)) && Open(doc)
    requires if v == "" then e == '>' else v[0] == '>'
    ensures Markup(AsideThen(Instruction(inst), v), e, doc) == Then(v, e, doc)
  {
    hide TableOk, Then, Markup, InstEnd;
    var t := "?" + inst + "?";
    var s := t + v;
    var u := "<?" + (inst + ("?" + v));
    assert u[1..] == s;
    InstFound(t, v);
    assert s[|t|..] == v;
    InstIs(u, e, doc);
  }

  lemma DeclSeen(decl: string, v: string, e: char, doc: Doc)
    requires TableOk(DEFAULTS) && AsideValid(Declaration(decl)) && Open(doc)
    requires if v == "" then e == '>' else v[0] == '>'
    ensures Markup(AsideThen(Declaration(decl), v), e, doc) == Then(v, e, doc)
  {
    hide TableOk, Then, Markup, Until;
    var t := "!DOCTYPE" + decl;
    var s := t + v;
    var u := "<!DOCTYPE" + (decl + v);
    assert u[1..] == s;
    UntilStop(t, v, DeclEnd);
    assert s[|t|..] == v && s[..8] == "!DOCTYPE";
    DeclIs(u, e, doc);
  }

  /** Such markup leaves no trace, whatever document is open. */
  lemma AsideSeen(aside: Aside, v: string, e: char, doc: Doc)
    requires TableOk(DEFAULTS) && AsideValid(aside) && Open(doc)
    requires if v == "" then e == '>' else v[0] == '>'
    ensures Markup(AsideThen(aside, v), e, doc) == Then(v, e, doc)
  {
    hide TableOk, Then, Markup, AsideThen;
    match aside
    case Comment(body) => CommentSeen(body, v, e, doc);
    case Instruction(inst) => InstSeen(inst, v, e, doc);
    case Declaration(decl) => DeclSeen(decl, v, e, doc);
  }

  lemma ThenContent(rest: string, e: char, doc: Doc)
    requires TableOk(DEFAULTS) && Open(doc)
    ensures Then(">" + rest, e, doc) == XmlParse.Content(rest, e, doc)
  {
    hide TableOk, XmlParse.Content;
    assert (">" + rest)[1..] == rest;
  }

  lemma SectionText(body: string, rest: string, u: string, s: string, n: nat)
    requires EndsFirst(body, "]]>") && s == "![CDATA[" + (body + ("]]>" + rest)) && n == 8 + |body|
    requires u == "<![CDATA[" + (body + ("]]" + (">" + rest)))
    ensures u == "<" + s && |s| >= 8 && s[..8] == "![CDATA[" && s[..3] == "![C"
    ensures n == 8 + Search(s[8..], "]]>") && n + 2 < |s| && s[n + 2..] == ">" + rest && s[8..n] == body
  {
    hide Search, EndsFirst;
    assert s[8..] == body + ("]]>" + rest);
    SectionFound(body, rest);
  }

  lemma SectionSeen(body: string, rest: string, e: char, doc: Doc, got: Got)
    requires TableOk(DEFAULTS) && EndsFirst(body, "]]>") && doc.Inside? && Open(doc)
    ensures Markup(ItemThen(Section(body), ">" + rest), e, Holding(doc, got))
         == XmlParse.Content(rest, e, Holding(doc, ItemAdded(got, Section(body))))
  {
    var s := "![CDATA[" + (body + ("]]>" + rest));
    var u := ItemThen(Section(body), ">" + rest);
    assert u == "<![CDATA[" + (body + ("]]" + (">" + rest)));
    hide TableOk, XmlParse.Content, Markup, Then, Search, EndsFirst, Lines, Decoded, Holding, ItemThen, ItemAdded;
    hide CharContent;
    SectionText(body, rest, u, s, 8 + |body|);
    SectionUnfold(u, s, 8 + |body|, e, Holding(doc, got));
    ThenContent(rest, e, Holding(doc, ItemAdded(got, Section(body))));
    SectionHeld(doc, got, body);
  }

  lemma SectionUnfold(u: string, s: string, n: nat, e: char, doc: Doc)
    requires TableOk(DEFAULTS) && Open(doc) && u == "<" + s && |s| >= 8 && s[..8] == "![CDATA[" && s[..3] == "![C"
    requires n == 8 + Search(s[8..], "]]>") && n + 2 < |s|
    ensures Markup(u, e, doc)
         == Then(s[n + 2..], e, if n > 8 then CharContent(doc, Decoded(Lines(s[8..n]), DEFAULTS, Cdata)) else doc)
  {
    hide TableOk, Then, Search, Lines, Decoded, CharContent, Instructed, Declared;
    assert u[1..] == s && s[0] == '!';
  }

  lemma SectionHeld(doc: Doc, got: Got, body: string)
    requires TableOk(DEFAULTS) && doc.Inside? && Open(doc)
    ensures (if |body| > 0 then CharContent(Holding(doc, got), Decoded(Lines(body), DEFAULTS, Cdata))
             else Holding(doc, got))
         == Holding(doc, ItemAdded(got, Section(body)))
  {
    hide TableOk, Decoded, Lines;
    XmlRefs.SectionStays(Lines(body), DEFAULTS);
    NoLines();
    assert got.txt + "" == got.txt;
  }

  lemma NoLines()
    ensures Lines("") == ""
  {
  }

  // ----------------------------------------------------------------------- whole elements

  lemma KidHeld(doc: Doc, got: Got, node: Node)
    requires TableOk(DEFAULTS) && doc.Inside? && Open(doc)
    ensures OffsetIn(Holding(doc, got)) == |got.txt|
    ensures Added(Holding(doc, got), Meaning(node, |got.txt|)) == Holding(doc, ItemAdded(got, Element(node)))
  {
    hide TableOk, Meaning;
  }

  lemma {:induction false} ItemSeen(item: Item, rest: string, e: char, doc: Doc, got: Got)
    requires TableOk(DEFAULTS) && ItemValid(item) && doc.Inside? && Open(doc)
    ensures Markup(ItemThen(item, ">" + rest), e, Holding(doc, got))
         == XmlParse.Content(rest, e, Holding(doc, ItemAdded(got, item)))
    decreases if item.Element? then Measure(item.node) + 1 else 0, 0
  {
    match item
    case Element(node) =>
      hide TableOk, Markup, XmlParse.Content, Then, NodeThen, Meaning, NodeValid, Added, Holding, ItemAdded;
      KidHeld(doc, got, node);
      NodeSeen(node, ">" + rest, e, Holding(doc, got));
      ThenContent(rest, e, Holding(doc, ItemAdded(got, item)));
    case Section(body) =>
      hide TableOk, Markup, XmlParse.Content, EndsFirst, Holding, ItemAdded;
      SectionSeen(body, rest, e, doc, got);
    case Skipped(aside) =>
      hide TableOk, Markup, XmlParse.Content, Then, AsideThen, AsideValid, Holding;
      AsideSeen(aside, ">" + rest, e, Holding(doc, got));
      ThenContent(rest, e, Holding(doc, got));
  }

  lemma {:induction false} PiecesSeen(pieces: seq<Piece>, last: string, w: string, e: char, doc: Doc, got: Got)
    requires TableOk(DEFAULTS) && PiecesValid(pieces) && TextValid(last) && doc.Inside? && Open(doc)
    requires w != "" && w[0] == '<'
    ensures XmlParse.Content(PiecesThen(pieces, last, w), e, Holding(doc, got))
         == Markup(w, e, Holding(doc, Contents(pieces, last, got)))
    decreases Count(pieces), 0
  {
    hide TableOk, Markup, XmlParse.Content, Holding, ItemAdded, TextAdded, ItemThen, TextValid, ItemValid;
    if pieces == [] {
      TextHeld(doc, got, last, w, e);
    } else {
      var text, item, rest := pieces[0].text, pieces[0].item, PiecesThen(pieces[1..], last, w);
      var got1 := TextAdded(got, text);
      TextHeld(doc, got, text, ItemThen(item, ">" + rest), e);
      ItemSeen(item, rest, e, doc, got1);
      PiecesSeen(pieces[1..], last, w, e, doc, ItemAdded(got1, item));
    }
  }

  /** An end tag, in which white space may follow the name */
  lemma CloseSeen(name: string, close: string, v: string, e: char, doc: Doc)
    requires TableOk(DEFAULTS) && TagName(name) && (forall c <- close :: IsWhite(c)) && Open(doc) && Closes(doc, name)
    requires if v == "" then e == '>' else v[0] == '>'
    ensures Markup("</" + (name + (close + v)), e, doc) == Then(v, e, CloseTag(doc, name))
  {
    var rest := close + v;
    var u := "</" + (name + rest);
    CloseText(name, close, v, rest, u);
    hide TableOk, Then, Closes, CloseTag, Until, Along, TagName, StartChar, IsSpace, Markup;
    CloseUnfold(u, name, rest, v, e, doc);
  }

  /** What the parser does behind "</" */
  lemma CloseUnfold(u: string, name: string, rest: string, v: string, e: char, doc: Doc)
    requires TableOk(DEFAULTS) && Open(doc) && Closes(doc, name) && |u| > 1 && u[1] == '/' && !StartChar('/')
    requires Until(u[1..][1..], CloseEnd) == |name| <= |u[1..][1..]|
    requires u[1..][1..1 + |name|] == name && u[1..][1 + |name|..] == rest
    requires (if rest != "" && IsSpace(rest[0]) then rest[Along(rest, White)..] == v else rest == v)
    requires rest == "" ==> e == '>'
    ensures Markup(u, e, doc) == Then(v, e, CloseTag(doc, name))
  {
    hide TableOk, Then, Closes, CloseTag, Until, Along, StartChar, IsSpace;
  }

  lemma CloseText(name: string, close: string, v: string, rest: string, u: string)
    requires TagName(name) && (forall c <- close :: IsWhite(c)) && (v == "" || v[0] == '>')
    requires rest == close + v && u == "</" + (name + rest)
    ensures |u| > 1 && u[0] == '<' && u[1] == '/' && Until(u[1..][1..], CloseEnd) == |name|
    ensures u[1..][1..1 + |name|] == name && u[1..][1 + |name|..] == rest
    ensures if rest != "" && IsSpace(rest[0]) then rest[Along(rest, White)..] == v else rest == v
    ensures !StartChar('/')
  {
    if close != "" {
      assert rest[0] == close[0] && close[0] in close;
    } else {
      assert rest == v;
    }
    assert u[1..][1..] == name + rest;
    UntilStop(name, rest, CloseEnd);
    AlongRun(close, v, White);
    assert rest[|close|..] == v;
  }

  lemma StartedFull(n: Node, v: string, e: char, doc: Doc)
    requires TableOk(DEFAULTS) && NodeValid(n) && n.body.Full? && Open(doc) && !doc.Behind?
    ensures Markup(NodeThen(n, v), e, doc)
         == XmlParse.Content(PiecesThen(n.body.pieces, n.body.last, "</" + (n.name + (n.body.close + v))), e,
                             OpenTag(doc, n.name, AttrsMeaning(n.attrs)))
  {
    hide TableOk, ReadTag, AttrsWritten, AttrsMeaning, NodeValid, XmlParse.Content, PiecesThen;
    var tail := ">" + PiecesThen(n.body.pieces, n.body.last, "</" + (n.name + (n.body.close + v)));
    var u := NodeThen(n, v);
    TagSeen(n, tail, e);
    assert u[1..] == n.name + (n.lead + (AttrsWritten(n.attrs) + tail));
    assert tail[1..] == PiecesThen(n.body.pieces, n.body.last, "</" + (n.name + (n.body.close + v)));
  }

  lemma HoldingFilled(doc: Doc, name: string, attrs: seq<Attr>, got: Got)
    requires Open(doc) && !doc.Behind?
    ensures var inside := OpenTag(doc, name, attrs);
      && Holding(inside, Got("", [])) == inside
      && Holding(inside, got) == Inside(Filled(inside.open, got.txt, got.kids))
  {
    var inside := OpenTag(doc, name, attrs);
    assert [] + got.kids == got.kids;
    SameLast(inside.open);
  }

  /** A valid element, whatever stands behind it, is read as what it stands for: it becomes the
      root, or the last child of the open element. */
  lemma {:induction false} NodeSeen(n: Node, v: string, e: char, doc: Doc)
    requires TableOk(DEFAULTS) && NodeValid(n) && Open(doc) && !doc.Behind?
    requires if v == "" then e == '>' else v[0] == '>'
    ensures Markup(NodeThen(n, v), e, doc) == Then(v, e, Added(doc, Meaning(n, OffsetIn(doc))))
    decreases Measure(n), 1
  {
    if n.body.Empty? {
      EmptySeen(n, v, e, doc);
    } else {
      var t := Meaning(n, OffsetIn(doc));
      var got := Contents(n.body.pieces, n.body.last, Got("", []));
      var last := "</" + (n.name + (n.body.close + v));
      hide TableOk, Markup, XmlParse.Content, Then, NodeThen, Holding, OpenTag, CloseTag, Closes, Added, Contents;
      hide PiecesValid, TextValid, AttrsValid, AttrsMeaning, TagName;
      StartedFull(n, v, e, doc);
      var inside := OpenTag(doc, n.name, AttrsMeaning(n.attrs));
      HoldingFilled(doc, n.name, AttrsMeaning(n.attrs), got);
      PiecesSeen(n.body.pieces, n.body.last, last, e, inside, Got("", []));
      ElementClosed(doc, t);
      CloseSeen(n.name, n.body.close, v, e, Holding(inside, got));
    }
  }

  // ------------------------------------------------------------------------------ documents

  /** What stands in front of the root, and the text behind it */
  datatype Misc = Misc(aside: Aside, text: string)

  /** A document: what is in front of the root, the root, and text behind it. */
  datatype Document = Document(pre: string, misc: seq<Misc>, root: Node, post: string) {
    function Written(): string {
      pre + MiscThen(misc, NodeThen(root, ">" + post))
    }

    predicate Valid() {
      TextValid(pre) && MiscValid(misc) && NodeValid(root) && TextValid(post)
    }
  }

  function MiscThen(misc: seq<Misc>, w: string): string {
    if misc == [] then w
    else AsideThen(misc[0].aside, ">" + (misc[0].text + MiscThen(misc[1..], w)))
  }

  predicate MiscValid(misc: seq<Misc>) {
    forall m <- misc :: AsideValid(m.aside) && TextValid(m.text)
  }

  lemma {:induction false} MiscSeen(misc: seq<Misc>, w: string, e: char)
    requires TableOk(DEFAULTS) && MiscValid(misc) && w != "" && w[0] == '<'
    ensures var u := MiscThen(misc, w);
      u != "" && u[0] == '<' && Markup(u, e, Before) == Markup(w, e, Before)
  {
    hide TableOk, Markup, AsideThen, AsideValid, TextValid;
    if misc != [] {
      var m, rest := misc[0], MiscThen(misc[1..], w);
      MiscSeen(misc[1..], w, e);
      MiscFirst(misc);
      AsideSeen(m.aside, ">" + (m.text + rest), e, Before);
      ThenContent(m.text + rest, e, Before);
      hide XmlParse.Content, Then, Decoded, Lines;
      OutsideText(m.text, rest, e);
    }
  }

  lemma MiscFirst(misc: seq<Misc>)
    requires misc != [] && MiscValid(misc)
    ensures AsideValid(misc[0].aside) && TextValid(misc[0].text) && MiscValid(misc[1..])
  {
    hide AsideValid, TextValid;
    assert misc[0] in misc;
  }

  lemma OutsideText(text: string, w: string, e: char)
    requires TableOk(DEFAULTS) && TextValid(text) && w != "" && w[0] == '<'
    ensures XmlParse.Content(text + w, e, Before) == Markup(w, e, Before)
  {
    hide TableOk, Markup, XmlParse.Content, Decoded, Lines;
    ContentStep(text, w, e, Before);
  }

  // What stands from the last '>' on is just appended.

  lemma {:induction false} NodeAppend(n: Node, v: string, z: string)
    ensures NodeThen(n, v + z) == NodeThen(n, v) + z
    decreases Measure(n), 1
  {
    hide AttrsWritten;
    match n.body
    case Empty =>
      Assoc("/", v, z);
      NodeJoin(n, "/" + v, z);
    case Full(pieces, last, close) =>
      var end := "</" + (n.name + (close + v));
      PiecesAppend(pieces, last, end, z);
      Assoc(close, v, z);
      Assoc(n.name, close + v, z);
      Assoc("</", n.name + (close + v), z);
      hide PiecesThen;
      Assoc(">", PiecesThen(pieces, last, end), z);
      NodeJoin(n, ">" + PiecesThen(pieces, last, end), z);
  }

  lemma NodeJoin(n: Node, tail: string, z: string)
    ensures "<" + (n.name + (n.lead + (AttrsWritten(n.attrs) + (tail + z))))
         == "<" + (n.name + (n.lead + (AttrsWritten(n.attrs) + tail))) + z
  {
    hide AttrsWritten;
    Assoc(AttrsWritten(n.attrs), tail, z);
    Assoc(n.lead, AttrsWritten(n.attrs) + tail, z);
    Assoc(n.name, n.lead + (AttrsWritten(n.attrs) + tail), z);
    Assoc("<", n.name + (n.lead + (AttrsWritten(n.attrs) + tail)), z);
  }

  lemma {:induction false} ItemAppend(item: Item, v: string, z: string)
    ensures ItemThen(item, v + z) == ItemThen(item, v) + z
    decreases if item.Element? then Measure(item.node) + 1 else 0, 0
  {
    hide NodeThen, AsideThen;
    match item
    case Element(node) => NodeAppend(node, v, z);
    case Section(body) =>
      Assoc("]]", v, z);
      Assoc(body, "]]" + v, z);
      Assoc("<![CDATA[", body + ("]]" + v), z);
    case Skipped(aside) => AsideAppend(aside, v, z);
  }

  lemma AsideAppend(aside: Aside, v: string, z: string)
    ensures AsideThen(aside, v + z) == AsideThen(aside, v) + z
  {
    match aside
    case Comment(body) =>
      Assoc("--", v, z);
      Assoc(body, "--" + v, z);
      Assoc("<!--", body + ("--" + v), z);
    case Instruction(inst) =>
      Assoc("?", v, z);
      Assoc(inst, "?" + v, z);
      Assoc("<?", inst + ("?" + v), z);
    case Declaration(decl) =>
      Assoc(decl, v, z);
      Assoc("<!DOCTYPE", decl + v, z);
  }

  lemma {:induction false} PiecesAppend(pieces: seq<Piece>, last: string, v: string, z: string)
    ensures PiecesThen(pieces, last, v + z) == PiecesThen(pieces, last, v) + z
    decreases Count(pieces), 0
  {
    hide ItemThen;
    if pieces == [] {
      Assoc(last, v, z);
    } else {
      var rest := PiecesThen(pieces[1..], last, v);
      PiecesAppend(pieces[1..], last, v, z);
      Assoc(">", rest, z);
      ItemAppend(pieces[0].item, ">" + rest, z);
      Assoc(pieces[0].text, ItemThen(pieces[0].item, ">" + rest), z);
    }
  }

  lemma {:induction false} MiscAppend(misc: seq<Misc>, w: string, z: string)
    ensures MiscThen(misc, w + z) == MiscThen(misc, w) + z
  {
    hide AsideThen;
    if misc != [] {
      var rest := MiscThen(misc[1..], w);
      MiscAppend(misc[1..], w, z);
      Assoc(misc[0].text, rest, z);
      Assoc(">", misc[0].text + rest, z);
      AsideAppend(misc[0].aside, ">" + (misc[0].text + rest), z);
    }
  }

  // Nowhere is a NUL.

  lemma AttrNoNul(a: SourceAttr)
    requires a.Valid()
    ensures '\0' !in a.Written()
  {
  }

  lemma {:induction false} AttrsNoNul(attrs: seq<SourceAttr>)
    requires AttrsValid(attrs)
    ensures '\0' !in AttrsWritten(attrs)
  {
    hide SourceAttr.Valid, SourceAttr.Written;
    if attrs != [] {
      AttrNoNul(attrs[0]);
      AttrsNoNul(attrs[1..]);
    }
  }

  lemma {:induction false} NodeNoNul(n: Node, v: string)
    requires NodeValid(n) && '\0' !in v
    ensures '\0' !in NodeThen(n, v)
    decreases Measure(n), 1
  {
    AttrsNoNul(n.attrs);
    assert '\0' !in n.name && '\0' !in n.lead;
    hide AttrsWritten, AttrsValid, PiecesThen, TagName, TextValid, PiecesValid;
    match n.body
    case Empty =>
    case Full(pieces, last, close) =>
      assert '\0' !in close;
      PiecesNoNul(pieces, last, "</" + (n.name + (close + v)));
  }

  lemma {:induction false} ItemNoNul(item: Item, v: string)
    requires ItemValid(item) && '\0' !in v
    ensures '\0' !in ItemThen(item, v)
    decreases if item.Element? then Measure(item.node) + 1 else 0, 0
  {
    hide NodeThen, NodeValid, Search, AsideThen, AsideValid;
    match item
    case Element(node) => NodeNoNul(node, v);
    case Section(body) =>
    case Skipped(aside) => AsideNoNul(aside, v);
  }

  lemma AsideNoNul(aside: Aside, v: string)
    requires AsideValid(aside) && '\0' !in v
    ensures '\0' !in AsideThen(aside, v)
  {
    hide Search;
  }

  lemma {:induction false} PiecesNoNul(pieces: seq<Piece>, last: string, v: string)
    requires PiecesValid(pieces) && TextValid(last) && '\0' !in v
    ensures '\0' !in PiecesThen(pieces, last, v)
    decreases Count(pieces), 0
  {
    hide ItemThen, ItemValid;
    if pieces != [] {
      PiecesNoNul(pieces[1..], last, v);
      ItemNoNul(pieces[0].item, ">" + PiecesThen(pieces[1..], last, v));
    }
  }

  lemma {:induction false} MiscNoNul(misc: seq<Misc>, w: string)
    requires MiscValid(misc) && '\0' !in w
    ensures '\0' !in MiscThen(misc, w)
  {
    hide AsideValid, AsideThen;
    if misc != [] {
      MiscFirst(misc);
      MiscNoNul(misc[1..], w);
      AsideNoNul(misc[0].aside, ">" + (misc[0].text + MiscThen(misc[1..], w)));
    }
  }

  /** A valid document is read as the element that its root stands for. */
  lemma SourceParsed(d: Document)
    requires TableOk(DEFAULTS) && d.Valid()
    ensures XmlParse.Parsed(d.Written()) == Ok(Meaning(d.root, 0))
  {
    var v := if d.post == "" then "" else ">" + d.post[..|d.post| - 1];
    var e := if d.post == "" then '>' else d.post[|d.post| - 1];
    assert ">" + d.post == v + [e];
    hide TableOk, Markup, NodeThen, Meaning, NodeValid, MiscValid, MiscThen, XmlParse.Parsed, Then;
    var w := NodeThen(d.root, v);
    NodeAppend(d.root, v, [e]);
    MiscAppend(d.misc, w, [e]);
    Assoc(d.pre, MiscThen(d.misc, w), [e]);
    NodeNoNul(d.root, v);
    MiscNoNul(d.misc, w);
    MiscSeen(d.misc, w, e);
    NodeSeen(d.root, v, e, Before);
    RootBehind(d.post, v, e, Meaning(d.root, 0));
    FromFirst(d.Written(), d.pre, MiscThen(d.misc, w), e);
  }

  lemma RootBehind(post: string, v: string, e: char, t: Tree)
    requires TableOk(DEFAULTS) && TextValid(post) && v == if post == "" then "" else ">" + post[..|post| - 1]
    ensures Then(v, e, Behind(t)) == Ok(t)
  {
    hide TableOk, Decoded, Lines, Markup;
    if post != "" {
      var w := post[..|post| - 1];
      assert v[1..] == w;
      UntilStop(w, "", One('<'));
      assert w + "" == w;
    }
  }

  lemma FromFirst(s: string, pre: string, u: string, e: char)
    requires TableOk(DEFAULTS) && s == pre + u + [e] && TextValid(pre) && '\0' !in u && u != "" && u[0] == '<'
    ensures XmlParse.Parsed(s) == Markup(u, e, Before)
  {
    NoNul(pre + u);
    hide TableOk, Markup, UpToNul;
    assert s[..|s| - 1] == pre + u && s[|s| - 1] == e;
    UntilStop(pre, u, One('<'));
    assert (pre + u)[|pre|..] == u;
  }

  lemma SelfClosingRead(name: string, attrs: seq<Attr>, w: string, e: char)
    requires TableOk(DEFAULTS) && TagName(name) && AttrsOk(attrs)
    ensures ReadTag(name + PrintedAttrs(attrs, 0) + ("/>" + w), e) == Tag(name, attrs, true, ">" + w)
  {
    hide TableOk, ReadAttrs, SkipSpace, PrintedAttrs, AttrsOk;
    var tail := "/>" + w;
    var u := PrintedAttrs(attrs, 0) + tail;
    var s := name + PrintedAttrs(attrs, 0) + tail;
    assert s == name + u;
    XmlParse.AttrsBegin(attrs, tail);
    UntilStop(name, u, TagEnd);
    assert s[..|name|] == name && s[|name|..] == u;
    AttrsRead(attrs, 0, tail);
    assert attrs[0..] == attrs && tail[1..] == ">" + w;
  }

  /** `<name k="v"/>` in any open document: the element is added without text and children, as the
      root or as the last child of the open element, where that one's text stands, and reading
      goes on behind it. */
  lemma SelfClosing(name: string, attrs: seq<Attr>, w: string, e: char, doc: Doc)
    requires TableOk(DEFAULTS) && TagName(name) && AttrsOk(attrs) && Open(doc) && !doc.Behind?
    ensures Markup("<" + (name + PrintedAttrs(attrs, 0) + ("/>" + w)), e, doc)
         == XmlParse.Content(w, e,
              if doc.Before? then Behind(Tree(name, attrs, "", 0, []))
              else Inside(WithKid(doc.open, Tree(name, attrs, "", |Last(doc.open).txt|, []))))
  {
    hide TableOk, ReadTag, PrintedAttrs, AttrsOk, XmlParse.Content;
    var t := Tree(name, attrs, "", OffsetIn(doc), []);
    var s := name + PrintedAttrs(attrs, 0) + ("/>" + w);
    assert ("<" + s)[1..] == s && s[0] == name[0] && (">" + w)[1..] == w;
    SelfClosingRead(name, attrs, w, e);
    ElementClosed(doc, t);
    SameFilled(OpenTag(doc, name, attrs).open);
    hide OpenTag, CloseTag, Closes, Filled;
  }

  /** An empty tag and a start tag with its end tag at once read alike. */
  lemma EmptyAlike(n: Node, v: string, e: char, doc: Doc)
    requires TableOk(DEFAULTS) && NodeValid(n) && n.body.Empty? && Open(doc) && !doc.Behind?
    requires if v == "" then e == '>' else v[0] == '>'
    ensures Markup(NodeThen(n, v), e, doc) == Markup(NodeThen(n.(body := Full([], "", "")), v), e, doc)
  {
    hide TableOk, Markup, NodeThen, Then, Added, AttrsMeaning, AttrsValid, TagName;
    var m := n.(body := Full([], "", ""));
    NodeSeen(n, v, e, doc);
    NodeSeen(m, v, e, doc);
    EmptyMeaning(n, OffsetIn(doc));
  }

  lemma EmptyMeaning(n: Node, off: nat)
    requires TableOk(DEFAULTS) && n.body.Empty?
    ensures Meaning(n, off) == Meaning(n.(body := Full([], "", "")), off)
  {
    hide TableOk, AttrsMeaning, Decoded, Lines;
    NoText();
    assert Contents([], "", Got("", [])) == Got("", []);
  }

  // --------------------------------------------------------------------------------- errors

  /** An end tag with another name than the open element, or without one, is an error. */
  lemma WrongClose(name: string, w: string, e: char, doc: Doc)
    requires TableOk(DEFAULTS) && TagName(name) && w != "" && w[0] == '>' && Open(doc)
    requires doc.Inside? ==> Last(doc.open).name != name
    ensures Markup("</" + (name + w), e, doc) == Fail("unexpected closing tag")
  {
    hide TableOk, Until, Then, TagName;
    var u := "</" + (name + w);
    assert "" + w == w;
    CloseText(name, "", w, w, u);
  }

  /** So an element must end with its own name. */
  lemma WrongEnd(n: Node, name: string, w: string, e: char, doc: Doc)
    requires TableOk(DEFAULTS) && NodeValid(n) && n.body.Full? && Open(doc) && !doc.Behind?
    requires TagName(name) && name != n.name && w != "" && w[0] == '>'
    ensures Markup("<" + (n.name + (n.lead + (AttrsWritten(n.attrs)
                          + (">" + PiecesThen(n.body.pieces, n.body.last, "</" + (name + w)))))), e, doc)
         == Fail("unexpected closing tag")
  {
    hide TableOk, ReadTag, AttrsWritten, AttrsMeaning, AttrsValid, XmlParse.Content, PiecesThen, Contents, TagName;
    hide PiecesValid, TextValid, Holding;
    var last := "</" + (name + w);
    var tail := ">" + PiecesThen(n.body.pieces, n.body.last, last);
    var inside := OpenTag(doc, n.name, AttrsMeaning(n.attrs));
    var got := Contents(n.body.pieces, n.body.last, Got("", []));
    TagOpens(n, tail, e, doc);
    HoldingFilled(doc, n.name, AttrsMeaning(n.attrs), got);
    hide Markup;
    PiecesSeen(n.body.pieces, n.body.last, last, e, inside, Got("", []));
    WrongClose(name, w, e, Holding(inside, got));
  }

  lemma TagOpens(n: Node, tail: string, e: char, doc: Doc)
    requires TableOk(DEFAULTS) && NodeValid(n) && Open(doc) && !doc.Behind? && tail != "" && tail[0] == '>'
    ensures Markup("<" + (n.name + (n.lead + (AttrsWritten(n.attrs) + tail))), e, doc)
         == XmlParse.Content(tail[1..], e, OpenTag(doc, n.name, AttrsMeaning(n.attrs)))
  {
    hide TableOk, ReadTag, AttrsWritten, AttrsMeaning, NodeValid, XmlParse.Content;
    var s := n.name + (n.lead + (AttrsWritten(n.attrs) + tail));
    TagSeen(n, tail, e);
    assert ("<" + s)[1..] == s;
  }

  /** An element behind the root is an error. */
  lemma SecondRoot(n: Node, v: string, e: char, root: Tree)
    requires TableOk(DEFAULTS) && NodeValid(n)
    ensures Markup(NodeThen(n, v), e, Behind(root)) == Fail("markup outside of root element")
  {
    hide TableOk, ReadTag, AttrsWritten, PiecesThen, AttrsValid, PiecesValid, TextValid, Then, Until, Search;
    var u := NodeThen(n, v);
    assert u[1] == n.name[0];
  }

  /** Where the text ends, the root must have been closed. */
  lemma TextEnds(w: string, e: char, doc: Doc)
    requires TableOk(DEFAULTS) && Open(doc) && '<' !in w
    ensures XmlParse.Content(w, e, doc)
         == match doc
            case Before => Fail("root tag missing")
            case Inside(_) => Fail("unclosed tag")
            case Behind(root) => Ok(root)
  {
    hide TableOk, Decoded, Lines, Markup;
    UntilStop(w, "", One('<'));
    assert w + "" == w;
  }

  /** A comment, a cdata section, an instruction or a declaration that does not end, and a value
      without its closing quote, are errors, and so is a '<' in front of anything else. */
  lemma NotEnded(body: string, e: char, doc: Doc)
    requires TableOk(DEFAULTS) && Open(doc)
    ensures Search(body, "--") == |body| ==> Markup("<!--" + body, e, doc) == Fail("unclosed <!--")
    ensures Search(body, "]]>") == |body| ==> Markup("<![CDATA[" + body, e, doc) == Fail("unclosed <![CDATA[")
    ensures '?' !in body && body != "" && body[0] != '>' ==> Markup("<?" + body, e, doc) == Fail("unclosed <?")
    ensures '[' !in body && '>' !in body && e != '>' ==>
      Markup("<!DOCTYPE" + body, e, doc) == Fail("unclosed <!DOCTYPE")
  {
    hide TableOk, Search, Markup;
    CommentNotEnded(body, e, doc);
    SectionNotEnded(body, e, doc);
    InstNotEnded(body, e, doc);
    DeclNotEnded(body, e, doc);
  }

  lemma CommentNotEnded(body: string, e: char, doc: Doc)
    requires TableOk(DEFAULTS) && Open(doc)
    ensures Search(body, "--") == |body| ==> Markup("<!--" + body, e, doc) == Fail("unclosed <!--")
  {
    hide TableOk, Search, Then, Decoded, Lines, ReadTag, Closes, Instructed, Declared, Until, CharContent;
    var s := "!--" + body;
    assert ("<!--" + body)[1..] == s && s[..3] == "!--" && s[3..] == body && s[0] == '!';
  }

  lemma SectionNotEnded(body: string, e: char, doc: Doc)
    requires TableOk(DEFAULTS) && Open(doc)
    ensures Search(body, "]]>") == |body| ==> Markup("<![CDATA[" + body, e, doc) == Fail("unclosed <![CDATA[")
  {
    hide TableOk, Search, Then, Decoded, Lines, ReadTag, Closes, Instructed, Declared, Until, CharContent;
    var s := "![CDATA[" + body;
    assert ("<![CDATA[" + body)[1..] == s && s[..8] == "![CDATA[" && s[8..] == body && s[..3] == "![C" && s[0] == '!';
  }

  lemma InstNotEnded(body: string, e: char, doc: Doc)
    requires TableOk(DEFAULTS) && Open(doc)
    ensures '?' !in body && body != "" && body[0] != '>' ==> Markup("<?" + body, e, doc) == Fail("unclosed <?")
  {
    hide TableOk, Markup, Then;
    if '?' !in body && body != "" && body[0] != '>' {
      var s := "?" + body;
      assert ("<?" + body)[1..] == s && s[1..] == body;
      InstIs("<?" + body, e, doc);
      NoInst(body);
      assert InstEnd(s) == |s|;
    }
  }

  lemma {:induction false} NoInst(t: string)
    requires '?' !in t
    ensures InstEnd(t) == |t|
  {
    if t != "" {
      NoInst(t[1..]);
    }
  }

  lemma DeclNotEnded(body: string, e: char, doc: Doc)
    requires TableOk(DEFAULTS) && Open(doc)
    ensures '[' !in body && '>' !in body && e != '>' ==>
      Markup("<!DOCTYPE" + body, e, doc) == Fail("unclosed <!DOCTYPE")
  {
    hide TableOk, Markup, Then, Until;
    if '[' !in body && '>' !in body && e != '>' {
      var s := "!DOCTYPE" + body;
      assert ("<!DOCTYPE" + body)[1..] == s && s[..8] == "!DOCTYPE";
      DeclIs("<!DOCTYPE" + body, e, doc);
      UntilStop(s, "", DeclEnd);
      assert s + "" == s;
    }
  }

  lemma NotQuoted(name: string, gap: string, quote: char, raw: string)
    requires TableOk(DEFAULTS) && SourceAttr.Quoted(name, gap, quote, raw, "").Valid()
    ensures ReadAttrs(name + (gap + ([quote] + raw))) == BadAttrs
  {
    hide Decoded, TableOk, Lines, Until, Along, ReadNamed, ReadAttrs;
    var t := [quote] + raw;
    GapBegins(gap);
    assert (gap + t)[0] == gap[0];
    NameAhead(name, gap + t);
    GapRead(name, gap, t);
    assert t[1..] == raw;
    UntilStop(raw, "", One(quote));
    assert raw + "" == raw;
    Unquoted(name + (gap + t), |name|);
  }

  lemma Unquoted(r: string, n: nat)
    requires TableOk(DEFAULTS) && r != "" && r[0] != '/' && r[0] != '>' && n == Until(r, AttrEnd)
    requires ReadNamed(r, n) == Unclosed
    ensures ReadAttrs(r) == BadAttrs
  {
    hide TableOk, ReadNamed, SkipSpace, Until;
  }

  lemma StrayOpening(s: string, e: char, doc: Doc)
    requires TableOk(DEFAULTS) && Open(doc)
    requires s == "" || (!StartChar(s[0]) && s[0] != '/' && s[0] != '!' && s[0] != '?')
    ensures Markup("<" + s, e, doc) == Fail("unexpected <")
  {
    hide TableOk, Then, Search, Decoded, Lines, ReadTag, Closes;
    assert ("<" + s)[1..] == s;
    PrefixFirst("!--", s);
    PrefixFirst("![CDATA[", s);
    PrefixFirst("!DOCTYPE", s);
  }
}
