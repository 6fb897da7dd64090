/** The parser and the printer of src/lib/ezxml.c: element tags, character content, comments
    and cdata sections, as definitions on values: the elements that are open, from the root to
    the insertion point, hold what has been read of them.  `XmlBuild` and `XmlPrint` do the same
    on the tags and their linked lists. */
module XmlParse {
  import opened XmlText

  datatype Attr = Attr(name: string, value: string)

  /** An element; `off` is its place in the text of its parent. */
  datatype Tree = Tree(name: string, attrs: seq<Attr>, txt: string, off: nat, kids: seq<Tree>)

  function Size(kids: seq<Tree>): nat {
    if kids == [] then 0 else 1 + Size(kids[0].kids) + Size(kids[1..])
  }

  // ---------------------------------------------------------------------------- scanning

  /** The sets of characters that the scans stop at or run along: EZXML_WS, and with it what
      ends a tag name, an attribute name or the name in a closing tag, or what stands between
      a name and its value; or a single character. */
  datatype Class = White | TagEnd | AttrEnd | CloseEnd | Equals | DeclEnd | Brackets | One(only: char) {
    predicate Has(c: char) {
      match this
      case One(d) => c == d
      case White => IsWhite(c)
      case TagEnd => IsWhite(c) || c == '/' || c == '>'
      case AttrEnd => IsWhite(c) || c == '=' || c == '/' || c == '>'
      case CloseEnd => IsWhite(c) || c == '>'
      case Equals => IsWhite(c) || c == '='
      case DeclEnd => c == '[' || c == '>'
      case Brackets => c == '[' || c == ']' || c == '>'
    }
  }

  predicate IsWhite(c: char) {
    c == '\t' || c == '\r' || c == '\n' || c == ' '
  }

  /** `strcspn`: how far the text goes without a character of the set. */
  function Until(u: string, stops: Class): (n: nat)
    ensures n <= |u| && (n < |u| ==> stops.Has(u[n]))
  {
    if u == "" || stops.Has(u[0]) then 0 else 1 + Until(u[1..], stops)
  }

  /** `strspn`: how far it goes with characters of the set. */
  function Along(u: string, run: Class): (n: nat)
    ensures n <= |u| && (n < |u| ==> !run.Has(u[n]))
  {
    if u == "" || !run.Has(u[0]) then 0 else 1 + Along(u[1..], run)
  }

  /** `while (isspace(*s)) s++;` */
  function SkipSpace(u: string): (w: string)
    ensures |w| <= |u| && (w != "" ==> !IsSpace(w[0]))
  {
    if u == "" || !IsSpace(u[0]) then u else SkipSpace(u[1..])
  }

  /** `strstr`: where a pattern first begins, or the length. */
  function Search(u: string, p: string): (n: nat)
    requires p != ""
    ensures n <= |u| && (n < |u| ==> Prefix(p, u[n..]))
  {
    if u == "" then 0 else if Prefix(p, u) then 0 else
      var n := Search(u[1..], p);
      assert n < |u[1..]| ==> u[1..][n..] == u[n + 1..];
      1 + n
  }

  /** The first question mark that stands in front of a '>' or at the end, or the length. */
  function InstEnd(s: string): (n: nat)
    ensures n <= |s| && (n < |s| ==> s[n] == '?' && (n + 1 < |s| ==> s[n + 1] == '>'))
  {
    if s == "" || (s[0] == '?' && (|s| == 1 || s[1] == '>')) then 0 else 1 + InstEnd(s[1..])
  }

  /** The characters that begin a tag name: letters, `_`, `:` and all bytes above 0x7F. */
  predicate StartChar(c: char) {
    'a' <= c <= 'z' || 'A' <= c <= 'Z' || c == '_' || c == ':' || c as int >= 0x80
  }

  // ------------------------------------------------------------------------ element tags

  /** The value behind a name, decoded, and what follows it; empty when it is not quoted. */
  datatype Value = Value(text: string, rest: string) | Unclosed

  function ReadValue(t: string): (v: Value)
    requires TableOk(DEFAULTS)
    ensures v.Value? ==> |v.rest| <= |t|
  {
    if t != "" && (t[0] == '\"' || t[0] == '\'') then
      var m := Until(t[1..], One(t[0]));
      if 1 + m == |t| then Unclosed
      else Value(Decoded(Lines(t[1..1 + m]), DEFAULTS, Attribute), t[m + 2..])
    else Value("", t)
  }

  /** What follows a name that ends at `n`. */
  function ReadNamed(r: string, n: nat): (v: Value)
    requires TableOk(DEFAULTS) && n <= |r|
    ensures v.Value? ==> |v.rest| <= |r| - n && (n < |r| && (r[n] == '=' || IsSpace(r[n])) ==> |v.rest| < |r| - n)
  {
    if n < |r| && (r[n] == '=' || IsSpace(r[n])) then ReadValue(r[n + 1 + Along(r[n + 1..], Equals)..])
    else Value("", r[n..])
  }

  datatype Attrs = Attrs(attrs: seq<Attr>, rest: string) | BadAttrs

  /** The attributes of a tag, from the first character of a name on. */
  function ReadAttrs(r: string): (a: Attrs)
    requires TableOk(DEFAULTS)
    ensures a.Attrs? ==> |a.rest| <= |r| && (a.rest == "" || a.rest[0] == '/' || a.rest[0] == '>')
    decreases |r|
  {
    if r == "" || r[0] == '/' || r[0] == '>' then Attrs([], r)
    else
      var n := Until(r, AttrEnd);
      match ReadNamed(r, n)
      case Unclosed => BadAttrs
      case Value(text, rest) => MoreAttrs(Attr(r[..n], text), ReadAttrs(SkipSpace(rest)))
  }

  function MoreAttrs(first: Attr, more: Attrs): Attrs {
    match more
    case BadAttrs => BadAttrs
    case Attrs(attrs, rest) => Attrs([first] + attrs, rest)
  }

  /** A tag, and the text from its '>' on; the '>' at the very end of a document is missing
      there, and `e` tells whether it was one. */
  datatype Tag = Tag(name: string, attrs: seq<Attr>, empty: bool, rest: string) | BadTag(message: string)

  function ReadTag(s: string, e: char): (t: Tag)
    requires TableOk(DEFAULTS)
    ensures t.Tag? ==> |t.rest| <= |s|
  {
    var n := Until(s, TagEnd);
    match ReadAttrs(SkipSpace(s[n..]))
    case BadAttrs => BadTag("missing quote")
    case Attrs(attrs, rest) =>
      if rest != "" && rest[0] == '/' then
        if (rest[1..] != "" && rest[1] != '>') || (rest[1..] == "" && e != '>') then BadTag("missing >")
        else Tag(s[..n], attrs, true, rest[1..])
      else if (rest != "" && rest[0] == '>') || (rest == "" && e == '>') then Tag(s[..n], attrs, false, rest)
      else BadTag("missing >")
  }

  // ---------------------------------------------------------------------- the open elements

  /** Where the insertion point is: before the root's tag, in the last of the open elements,
      or behind the root. */
  datatype Doc = Before | Inside(open: seq<Tree>) | Behind(root: Tree)

  predicate Open(doc: Doc) {
    doc.Inside? ==> doc.open != []
  }

  function Last(open: seq<Tree>): Tree
    requires open != []
  {
    open[|open| - 1]
  }

  function WithLast(open: seq<Tree>, t: Tree): (o: seq<Tree>)
    requires open != []
    ensures o != []
  {
    open[..|open| - 1] + [t]
  }

  /** `ezxml_open_tag` */
  function OpenTag(doc: Doc, name: string, attrs: seq<Attr>): (d: Doc)
    requires Open(doc) && !doc.Behind?
    ensures Open(d) && d.Inside?
  {
    match doc
    case Before => Inside([Tree(name, attrs, "", 0, [])])
    case Inside(open) => Inside(open + [Tree(name, attrs, "", |Last(open).txt|, [])])
  }

  /** `ezxml_char_content`, with the text decoded */
  function CharContent(doc: Doc, text: string): (d: Doc)
    requires Open(doc)
    ensures Open(d)
  {
    if doc.Inside? then Inside(WithLast(doc.open, Last(doc.open).(txt := Last(doc.open).txt + text))) else doc
  }

  /** `ezxml_close_tag` fits. */
  predicate Closes(doc: Doc, name: string)
    requires Open(doc)
  {
    doc.Inside? && Last(doc.open).name == name
  }

  function CloseTag(doc: Doc, name: string): (d: Doc)
    requires Open(doc) && Closes(doc, name)
    ensures Open(d)
  {
    var open := doc.open;
    if |open| == 1 then Behind(open[0])
    else
      var outer := open[..|open| - 1];
      Inside(WithLast(outer, Last(outer).(kids := Last(outer).kids + [Last(open)])))
  }

  // --------------------------------------------------------------------------- documents

  /** `Unmodelled` stands for a document type declaration with an internal subset, and for a
      processing instruction of which nothing stands between its marks. */
  datatype Result = Ok(root: Tree) | Fail(message: string) | Unmodelled

  function Finish(doc: Doc): Result
    requires Open(doc)
  {
    match doc
    case Behind(root) => Ok(root)
    case Before => Fail("root tag missing")
    case Inside(_) => Fail("unclosed tag")
  }

  /** From a '<' on. */
  function Markup(u: string, e: char, doc: Doc): Result
    requires TableOk(DEFAULTS) && Open(doc) && u != ""
    decreases |u|, 0
  {
    var s := u[1..];
    if s != "" && StartChar(s[0]) then
      if doc.Behind? then Fail("markup outside of root element")
      else
        match ReadTag(s, e)
        case BadTag(m) => Fail(m)
        case Tag(name, attrs, empty, rest) =>
          var inside := OpenTag(doc, name, attrs);
          Then(rest, e, if empty then CloseTag(inside, name) else inside)
    else if s != "" && s[0] == '/' then
      var n := Until(s[1..], CloseEnd);
      var name, rest := s[1..1 + n], s[1 + n..];
      if rest == "" && e != '>' then Fail("missing >")
      else if !Closes(doc, name) then Fail("unexpected closing tag")
      else Then(if rest != "" && IsSpace(rest[0]) then rest[Along(rest, White)..] else rest, e, CloseTag(doc, name))
    else if Prefix("!--", s) then
      var n := 3 + Search(s[3..], "--");
      if n == |s| then Fail("unclosed <!--")
      else
        CommentEnd(s, n);
        var rest := s[n + 2..];
        if (rest != "" && rest[0] != '>') || (rest == "" && e != '>') then Fail("unclosed <!--")
        else Then(rest, e, doc)
    else if Prefix("![CDATA[", s) then
      var n := 8 + Search(s[8..], "]]>");
      if n == |s| then Fail("unclosed <![CDATA[")
      else
        SectionEnd(s, n);
        Then(s[n + 2..], e, if n > 8 then CharContent(doc, Decoded(Lines(s[8..n]), DEFAULTS, Cdata)) else doc)
    else if Prefix("!DOCTYPE", s) then Declared(s, e, doc)
    else if s != "" && s[0] == '?' then Instructed(s, e, doc)
    else Fail("unexpected <")
  }

  /** A declaration of the document's type */
  function Declared(s: string, e: char, doc: Doc): Result
    requires TableOk(DEFAULTS) && Open(doc)
    decreases |s|, 3
  {
    var n := Until(s, DeclEnd);
    if n < |s| && s[n] == '[' then Unmodelled
    else if n == |s| && e != '>' then Fail("unclosed <!DOCTYPE")
    else Then(s[n..], e, doc)
  }

  /** A processing instruction, without the list that it is entered in */
  function Instructed(s: string, e: char, doc: Doc): Result
    requires TableOk(DEFAULTS) && Open(doc)
    decreases |s|, 3
  {
    var n := InstEnd(s);
    if n == |s| || (n + 1 == |s| && e != '>') then Fail("unclosed <?")
    else if n == 0 then Unmodelled
    else Then(s[n + 1..], e, doc)
  }

  lemma InstIs(u: string, e: char, doc: Doc)
    requires TableOk(DEFAULTS) && Open(doc) && u != "" && u[1..] != "" && u[1] == '?'
    ensures Markup(u, e, doc) == Instructed(u[1..], e, doc)
  {
    hide TableOk, Then, InstEnd, Until, Search, ReadTag, Prefix, OpenTag, CloseTag, Closes, CharContent, Along, Decoded;
    hide Lines, IsSpace, Instructed, Declared;
    PrefixFirst("!--", u[1..]);
    PrefixFirst("![CDATA[", u[1..]);
    PrefixFirst("!DOCTYPE", u[1..]);
  }

  lemma DeclIs(u: string, e: char, doc: Doc)
    requires TableOk(DEFAULTS) && Open(doc) && u != "" && Prefix("!DOCTYPE", u[1..])
    ensures Markup(u, e, doc) == Declared(u[1..], e, doc)
  {
    hide TableOk, Then, InstEnd, Until, Search, ReadTag, OpenTag, CloseTag, Closes, CharContent, Along, Decoded;
    hide Lines, IsSpace, Instructed, Declared;
    PrefixFirst("!DOCTYPE", u[1..]);
    assert u[1..][..8][1] == u[1..][1] == 'D';
    assert u[1..][..3] == "!DO";
  }

  lemma CommentEnd(s: string, n: nat)
    requires n < |s| && Prefix("--", s[n..])
    ensures n + 2 <= |s|
  {
  }

  lemma SectionEnd(s: string, n: nat)
    requires n < |s| && Prefix("]]>", s[n..])
    ensures n + 3 <= |s|
  {
  }

  /** From the last character of markup on, which is a '>' unless it is missing. */
  function Then(u: string, e: char, doc: Doc): Result
    requires TableOk(DEFAULTS) && Open(doc)
    decreases |u|, 2
  {
    if u == "" then Finish(doc) else Content(u[1..], e, doc)
  }

  /** From behind it on. */
  function Content(w: string, e: char, doc: Doc): Result
    requires TableOk(DEFAULTS) && Open(doc)
    decreases |w|, 1
  {
    var n := Until(w, One('<'));
    if n == |w| then Finish(doc)
    else if n > 0 then Markup(w[n..], e, CharContent(doc, Decoded(Lines(w[..n]), DEFAULTS, Mode.Content)))
    else Markup(w, e, doc)
  }

  function UpToNul(u: string): string {
    if u == "" || u[0] == '\0' then "" else [u[0]] + UpToNul(u[1..])
  }

  /** `ezxml_parse_str` on UTF-8: the last character makes room for a NUL. */
  function Parsed(s: string): Result {
    DefaultsOk();
    if s == "" then Fail("root tag missing")
    else
      var u := UpToNul(s[..|s| - 1]);
      var n := Until(u, One('<'));
      if n == |u| then Fail("root tag missing") else Markup(u[n..], s[|s| - 1], Before)
  }

  // ---------------------------------------------------------------------------- printing

  /** `ezxml_attr` finds this attribute for its name. */
  predicate IsFirst(attrs: seq<Attr>, i: nat)
    requires i < |attrs|
  {
    forall k :: 0 <= k < i ==> attrs[k].name != attrs[i].name
  }

  function PrintedAttr(a: Attr): string {
    " " + a.name + "=\"" + AmpEncoded(a.value, true) + "\""
  }

  function PrintedAttrs(attrs: seq<Attr>, from: nat): string
    requires from <= |attrs|
    decreases |attrs| - from
  {
    if from == |attrs| then ""
    else (if IsFirst(attrs, from) then PrintedAttr(attrs[from]) else "") + PrintedAttrs(attrs, from + 1)
  }

  function Min(a: nat, b: nat): nat {
    if a <= b then a else b
  }

  /** `txt + start` for `off - start` characters: all of them when the difference wraps. */
  function Part(txt: string, start: nat, off: nat): string
    requires start <= |txt|
  {
    if start <= off then txt[start..Min(off, |txt|)] else txt[start..]
  }

  /** The content of an element from a place of its text on: text and children in turn. */
  function Inner(txt: string, kids: seq<Tree>, start: nat): string
    requires start <= |txt|
    decreases Size(kids), 0
  {
    if kids == [] then AmpEncoded(txt[start..], false)
    else
      AmpEncoded(Part(txt, start, kids[0].off), false) + Printed(kids[0])
      + Inner(txt, kids[1..], Min(kids[0].off, |txt|))
  }

  function StartTag(t: Tree): string {
    "<" + t.name + PrintedAttrs(t.attrs, 0) + ">"
  }

  function EndTag(name: string): string {
    "</" + name + ">"
  }

  /** An element without the text around it. */
  function Printed(t: Tree): string
    decreases Size(t.kids), 1
  {
    StartTag(t) + Inner(t.txt, t.kids, 0) + EndTag(t.name)
  }

  // --------------------------------------------------------- trees that a document can hold

  /** A tag name: as in XML, and more generally with any characters but white space, `/`, `>`
      and NUL behind the first. */
  predicate TagName(n: string) {
    n != "" && StartChar(n[0]) && forall i :: 0 <= i < |n| ==> !TagEnd.Has(n[i]) && n[i] != '\0'
  }

  predicate AttrName(n: string) {
    n != "" && !IsSpace(n[0]) && forall i :: 0 <= i < |n| ==> !AttrEnd.Has(n[i]) && n[i] != '\0'
  }

  predicate AttrsOk(attrs: seq<Attr>) {
    forall i :: 0 <= i < |attrs| ==> AttrName(attrs[i].name) && Plain(attrs[i].value, true) && IsFirst(attrs, i)
  }

  /** Children come in the order of their places, which are in the text. */
  predicate KidsOk(txt: string, kids: seq<Tree>, start: nat)
    decreases Size(kids), 0
  {
    kids == [] || (start <= kids[0].off <= |txt| && TreeOk(kids[0]) && KidsOk(txt, kids[1..], kids[0].off))
  }

  predicate TreeOk(t: Tree)
    decreases Size(t.kids), 1
  {
    TagName(t.name) && AttrsOk(t.attrs) && Plain(t.txt, false) && KidsOk(t.txt, t.kids, 0)
  }

  // -------------------------------------------------------------------- scanning what is printed

  lemma {:induction false} UntilStop(a: string, b: string, stops: Class)
    requires (forall i :: 0 <= i < |a| ==> !stops.Has(a[i])) && (b == "" || stops.Has(b[0]))
    ensures Until(a + b, stops) == |a|
  {
    if a == "" {
      assert a + b == b;
    } else {
      assert (a + b)[0] == a[0] && (a + b)[1..] == a[1..] + b;
      UntilStop(a[1..], b, stops);
    }
  }

  lemma EncodedCharChars(c: char, a: bool)
    requires c != '\0'
    ensures '<' !in AmpChar(c, a) && '\0' !in AmpChar(c, a) && (a ==> '\"' !in AmpChar(c, a)) && AmpChar(c, a) != ""
    ensures '>' !in AmpChar(c, a) && '\r' !in AmpChar(c, a)
    ensures a ==> '\n' !in AmpChar(c, a) && '\t' !in AmpChar(c, a)
  {
  }

  /** Encoded text has no '<', no '>', no carriage return and no NUL, and in an attribute no quote,
      no tab and no line feed. */
  lemma {:induction false} EncodedChars(s: string, a: bool)
    requires Plain(s, a)
    ensures '<' !in AmpEncoded(s, a) && '\0' !in AmpEncoded(s, a) && (a ==> '\"' !in AmpEncoded(s, a))
    ensures '>' !in AmpEncoded(s, a) && '\r' !in AmpEncoded(s, a)
    ensures a ==> '\n' !in AmpEncoded(s, a) && '\t' !in AmpEncoded(s, a)
    ensures AmpEncoded(s, a) == "" <==> s == ""
  {
    if s != "" {
      EncodedCharChars(s[0], a);
      hide AmpChar;
      EncodedChars(s[1..], a);
    }
  }

  lemma ValueRead(t: string, m: nat)
    requires TableOk(DEFAULTS) && t != "" && t[0] == '\"' && m == Until(t[1..], One('\"')) && 1 + m < |t|
    ensures ReadValue(t) == Value(Decoded(Lines(t[1..1 + m]), DEFAULTS, Attribute), t[m + 2..])
    ensures Along(t, Equals) == 0
  {
    hide Decoded, TableOk, Lines, Until, Along;
    assert t[1..][..m] == t[1..1 + m];
    QuoteEndsBlank(t);
    hide IsWhite;
  }

  /** A quote is no space and no equals sign. */
  lemma QuoteEndsBlank(t: string)
    requires t != "" && t[0] == '\"'
    ensures Along(t, Equals) == 0
  {
  }

  lemma NamedRead(r: string, n: nat, t: string)
    requires TableOk(DEFAULTS) && n < |r| && r[n] == '=' && t == r[n + 1..] && Along(t, Equals) == 0
    ensures ReadNamed(r, n) == ReadValue(t)
  {
    hide TableOk, ReadValue, Along;
    assert r[n + 1 + 0..] == t;
  }

  lemma AttrsUnfold(r: string, n: nat, text: string, rest: string)
    requires TableOk(DEFAULTS) && r != "" && r[0] != '/' && r[0] != '>'
    requires n == Until(r, AttrEnd) && ReadNamed(r, n) == Value(text, rest)
    ensures ReadAttrs(r) == MoreAttrs(Attr(r[..n], text), ReadAttrs(SkipSpace(rest)))
  {
    hide TableOk, ReadNamed, SkipSpace, Until;
  }

  /** What the parser makes of a name, an equals sign and a quoted value. */
  lemma QuotedRead(r: string, n: nat, t: string, m: nat)
    requires TableOk(DEFAULTS) && r != "" && r[0] != '/' && r[0] != '>'
    requires n == Until(r, AttrEnd) < |r| && r[n] == '='
    requires t == r[n + 1..] && t != "" && t[0] == '\"' && m == Until(t[1..], One('\"')) && 1 + m < |t|
    ensures ReadAttrs(r) == MoreAttrs(Attr(r[..n], Decoded(Lines(t[1..1 + m]), DEFAULTS, Attribute)),
                                      ReadAttrs(SkipSpace(t[m + 2..])))
  {
    hide Decoded, TableOk, Lines, SkipSpace, Until, ReadValue, ReadNamed, ReadAttrs, Along;
    ValueRead(t, m);
    NamedRead(r, n, t);
    AttrsUnfold(r, n, Decoded(Lines(t[1..1 + m]), DEFAULTS, Attribute), t[m + 2..]);
  }

  lemma QuotedParts(name: string, enc: string, w: string, r: string, t: string)
    requires r == name + "=" + t && t == "\"" + enc + "\"" + w
    ensures |r| > |name| && r[..|name|] == name && r[|name|] == '=' && r[|name| + 1..] == t
    ensures |t| > 1 + |enc| && t[0] == '\"' && t[1..] == enc + ("\"" + w)
    ensures t[1..1 + |enc|] == enc && t[|enc| + 2..] == w
  {
  }

  lemma NameUntil(name: string, r: string, t: string)
    requires AttrName(name) && r == name + "=" + t
    ensures Until(r, AttrEnd) == |name| && r[0] != '/' && r[0] != '>'
  {
    assert r == name + ("=" + t) && r[0] == name[0];
    UntilStop(name, "=" + t, AttrEnd);
  }

  lemma ValueUntil(value: string, w: string)
    requires Plain(value, true)
    ensures Until(AmpEncoded(value, true) + ("\"" + w), One('\"')) == |AmpEncoded(value, true)|
  {
    EncodedChars(value, true);
    hide AmpEncoded;
    UntilStop(AmpEncoded(value, true), "\"" + w, One('\"'));
  }

  /** A printed attribute is read back. */
  lemma AttrRead(a: Attr, w: string)
    requires TableOk(DEFAULTS) && AttrName(a.name) && Plain(a.value, true)
    ensures SkipSpace(PrintedAttr(a) + w) == PrintedAttr(a)[1..] + w
    ensures ReadAttrs(PrintedAttr(a)[1..] + w) == MoreAttrs(a, ReadAttrs(SkipSpace(w)))
  {
    hide Decoded, TableOk, AmpEncoded, Lines, ReadAttrs, Plain, Until, PrintedAttr, AttrName, SkipSpace;
    var enc := AmpEncoded(a.value, true);
    var t := "\"" + enc + "\"" + w;
    var r := a.name + "=" + t;
    DecodeUndoesEncode(a.value, true);
    PrintedParts(a, enc, w, r);
    QuotedParts(a.name, enc, w, r, t);
    NameUntil(a.name, r, t);
    ValueUntil(a.value, w);
    QuotedRead(r, |a.name|, t, |enc|);
  }

  lemma PrintedParts(a: Attr, enc: string, w: string, r: string)
    requires AttrName(a.name) && enc == AmpEncoded(a.value, true) && r == a.name + "=" + ("\"" + enc + "\"" + w)
    ensures PrintedAttr(a) != "" && PrintedAttr(a)[1..] + w == r
    ensures SkipSpace(PrintedAttr(a) + w) == r && r != "" && r[0] == a.name[0]
  {
    hide AmpEncoded;
    var u := PrintedAttr(a) + w;
    assert PrintedAttr(a)[1..] == a.name + "=\"" + enc + "\"";
    assert PrintedAttr(a)[1..] + w == r;
    assert u[0] == ' ' && u[1..] == r && r[0] == a.name[0];
  }

  lemma AttrsEndRead(w: string)
    requires TableOk(DEFAULTS) && w != "" && (w[0] == '>' || w[0] == '/')
    ensures ReadAttrs(SkipSpace(w)) == Attrs([], w)
  {
    hide TableOk, ReadNamed, Until;
  }

  lemma {:induction false} AttrsRead(attrs: seq<Attr>, from: nat, w: string)
    requires TableOk(DEFAULTS) && AttrsOk(attrs) && from <= |attrs| && w != "" && (w[0] == '>' || w[0] == '/')
    ensures ReadAttrs(SkipSpace(PrintedAttrs(attrs, from) + w)) == Attrs(attrs[from..], w)
    decreases |attrs| - from
  {
    hide TableOk, ReadAttrs, SkipSpace, PrintedAttr, AttrName, Plain;
    if from == |attrs| {
      assert PrintedAttrs(attrs, from) + w == w;
      AttrsEndRead(w);
    } else {
      var more := PrintedAttrs(attrs, from + 1);
      Assoc(PrintedAttr(attrs[from]), more, w);
      AttrRead(attrs[from], more + w);
      AttrsRead(attrs, from + 1, w);
      assert [attrs[from]] + attrs[from + 1..] == attrs[from..];
    }
  }

  lemma AttrsBegin(attrs: seq<Attr>, w: string)
    requires AttrsOk(attrs) && w != "" && (w[0] == '>' || w[0] == '/')
    ensures var u := PrintedAttrs(attrs, 0) + w; u != "" && TagEnd.Has(u[0])
  {
    hide AmpEncoded;
    if attrs != [] {
      assert PrintedAttr(attrs[0])[0] == ' ';
    }
  }

  /** A printed start tag is read back. */
  lemma TagRead(t: Tree, w: string, e: char)
    requires TableOk(DEFAULTS) && TagName(t.name) && AttrsOk(t.attrs)
    ensures ReadTag(t.name + PrintedAttrs(t.attrs, 0) + (">" + w), e) == Tag(t.name, t.attrs, false, ">" + w)
  {
    hide TableOk, ReadAttrs, SkipSpace, PrintedAttrs, AttrsOk;
    var u := PrintedAttrs(t.attrs, 0) + (">" + w);
    var s := t.name + PrintedAttrs(t.attrs, 0) + (">" + w);
    Assoc(t.name, PrintedAttrs(t.attrs, 0), ">" + w);
    AttrsBegin(t.attrs, ">" + w);
    UntilStop(t.name, u, TagEnd);
    assert s[..|t.name|] == t.name && s[|t.name|..] == u;
    AttrsRead(t.attrs, 0, ">" + w);
    assert t.attrs[0..] == t.attrs;
  }

  /** A start tag opens its element. */
  lemma StartSeen(t: Tree, w: string, e: char, doc: Doc)
    requires TableOk(DEFAULTS) && TagName(t.name) && AttrsOk(t.attrs) && Open(doc) && !doc.Behind?
    ensures Markup(StartTag(t) + w, e, doc) == Content(w, e, OpenTag(doc, t.name, t.attrs))
  {
    hide TableOk, ReadTag, PrintedAttrs, AttrsOk, Content;
    var u := StartTag(t) + w;
    assert u[1..] == t.name + PrintedAttrs(t.attrs, 0) + (">" + w);
    assert u[1..][0] == t.name[0];
    TagRead(t, w, e);
    assert (">" + w)[1..] == w;
  }

  lemma CloseParts(name: string, tail: string, s: string)
    requires TagName(name) && s == "/" + name + tail && (tail == "" || tail[0] == '>')
    ensures s[0] == '/' && s[1..] == name + tail && Until(s[1..], CloseEnd) == |name|
    ensures s[1..1 + |name|] == name && s[1 + |name|..] == tail
  {
    assert s[1..] == name + tail;
    UntilStop(name, tail, CloseEnd);
  }

  /** An end tag closes it. */
  lemma EndSeen(name: string, w: string, e: char, doc: Doc)
    requires TableOk(DEFAULTS) && TagName(name) && Open(doc) && Closes(doc, name)
    ensures Markup(EndTag(name) + w, e, doc) == Content(w, e, CloseTag(doc, name))
  {
    var u := EndTag(name) + w;
    assert u[1..] == "/" + name + (">" + w);
    CloseParts(name, ">" + w, u[1..]);
    assert (">" + w)[1..] == w;
    hide TableOk, Content, Until, TagName, Closes, CloseTag, Open;
  }

  /** At the end of a document, its last character is missing. */
  lemma EndAtEnd(name: string, doc: Doc)
    requires TableOk(DEFAULTS) && TagName(name) && Open(doc) && Closes(doc, name)
    ensures Markup("</" + name, '>', doc) == Finish(CloseTag(doc, name))
  {
    var u := "</" + name;
    assert u[1..] == "/" + name + "";
    CloseParts(name, "", u[1..]);
    hide TableOk, Until, TagName, Closes, CloseTag, Open, Finish;
  }

  lemma SameLast(open: seq<Tree>)
    requires open != []
    ensures WithLast(open, Last(open)) == open
  {
  }

  /** Text in front of markup is decoded and becomes content. */
  lemma ContentStep(enc: string, w: string, e: char, doc: Doc)
    requires TableOk(DEFAULTS) && Open(doc) && '<' !in enc && w != "" && w[0] == '<'
    ensures Content(enc + w, e, doc)
         == Markup(w, e, if enc == "" then doc else CharContent(doc, Decoded(Lines(enc), DEFAULTS, Mode.Content)))
  {
    hide TableOk, Decoded, Lines, Markup, Until;
    UntilStop(enc, w, One('<'));
    var u := enc + w;
    assert u[..|enc|] == enc && u[|enc|..] == w;
  }

  /** Encoded text becomes text of the open element. */
  lemma TextSeen(chunk: string, w: string, e: char, open: seq<Tree>)
    requires TableOk(DEFAULTS) && Plain(chunk, false) && w != "" && w[0] == '<' && open != []
    ensures Content(AmpEncoded(chunk, false) + w, e, Inside(open))
         == Markup(w, e, Inside(WithLast(open, Last(open).(txt := Last(open).txt + chunk))))
  {
    hide TableOk, Decoded, Lines, AmpEncoded, Markup, Content, Plain;
    EncodedChars(chunk, false);
    DecodeUndoesEncode(chunk, false);
    ContentStep(AmpEncoded(chunk, false), w, e, Inside(open));
    if chunk == "" {
      assert Last(open).txt + "" == Last(open).txt;
      SameLast(open);
    }
  }

  // -------------------------------------------------------------------------- round trip

  /** The open elements after a child of the last one was read. */
  function WithKid(open: seq<Tree>, t: Tree): (o: seq<Tree>)
    requires open != []
    ensures o != []
  {
    WithLast(open, Last(open).(kids := Last(open).kids + [t]))
  }

  /** After the content of an element was read, from a place of its text on. */
  function Filled(open: seq<Tree>, txt: string, kids: seq<Tree>): (o: seq<Tree>)
    requires open != []
    ensures o != []
  {
    WithLast(open, Last(open).(txt := txt, kids := Last(open).kids + kids))
  }

  lemma PlainPart(txt: string, i: nat, j: nat)
    requires Plain(txt, false) && i <= j <= |txt|
    ensures Plain(txt[i..j], false) && txt[..i] + txt[i..j] == txt[..j]
  {
  }

  lemma StartsWithMarkup(t: Tree, w: string)
    ensures var u := Printed(t) + w; u != "" && u[0] == '<'
  {
    hide PrintedAttrs, Inner;
  }

  /** Opening a child and closing it again, when its content was read. */
  lemma ChildClosed(open: seq<Tree>, t: Tree)
    requires open != [] && t.off == |Last(open).txt|
    ensures var inside := OpenTag(Inside(open), t.name, t.attrs);
      && inside.open != [] && Last(inside.open) == t.(txt := "", kids := [])
      && var full := Inside(Filled(inside.open, t.txt, t.kids));
      Closes(full, t.name) && CloseTag(full, t.name) == Inside(WithKid(open, t))
  {
    var inner := open + [t.(txt := "", kids := [])];
    var full := Filled(inner, t.txt, t.kids);
    assert Last(full) == t && full[..|full| - 1] == open;
  }

  lemma {:induction false} ContentSeen(txt: string, kids: seq<Tree>, start: nat, w: string, e: char, open: seq<Tree>)
    requires TableOk(DEFAULTS) && Plain(txt, false) && start <= |txt| && KidsOk(txt, kids, start)
    requires w != "" && w[0] == '<' && open != [] && Last(open).txt == txt[..start]
    ensures Content(Inner(txt, kids, start) + w, e, Inside(open)) == Markup(w, e, Inside(Filled(open, txt, kids)))
    decreases Size(kids), 0
  {
    hide TableOk, Markup, Content, Printed, Plain;
    if kids == [] {
      PlainPart(txt, start, |txt|);
      assert txt[..|txt|] == txt && txt[start..|txt|] == txt[start..];
      TextSeen(txt[start..], w, e, open);
      assert Last(open).kids + [] == Last(open).kids;
    } else {
      var k, off := kids[0], kids[0].off;
      var rest := Inner(txt, kids[1..], off);
      PlainPart(txt, start, off);
      var open1 := WithLast(open, Last(open).(txt := txt[..off]));
      StartsWithMarkup(k, rest + w);
      TextSeen(txt[start..off], Printed(k) + (rest + w), e, open);
      TreeSeen(k, rest + w, e, open1);
      ContentSeen(txt, kids[1..], off, w, e, WithKid(open1, k));
      InnerSplit(txt, kids, start, w);
      FilledInTurn(open, txt, kids);
    }
  }

  lemma InnerSplit(txt: string, kids: seq<Tree>, start: nat, w: string)
    requires kids != [] && start <= kids[0].off <= |txt|
    ensures Inner(txt, kids, start) + w
         == AmpEncoded(txt[start..kids[0].off], false) + (Printed(kids[0]) + (Inner(txt, kids[1..], kids[0].off) + w))
  {
    hide Printed, AmpEncoded;
    var a, b, c := AmpEncoded(txt[start..kids[0].off], false), Printed(kids[0]), Inner(txt, kids[1..], kids[0].off);
    assert Inner(txt, kids, start) == a + b + c;
    Assoc(a + b, c, w);
    Assoc(a, b, c + w);
  }

  lemma FilledInTurn(open: seq<Tree>, txt: string, kids: seq<Tree>)
    requires open != [] && kids != [] && kids[0].off <= |txt|
    ensures Filled(WithKid(WithLast(open, Last(open).(txt := txt[..kids[0].off])), kids[0]), txt, kids[1..])
         == Filled(open, txt, kids)
  {
    assert Last(open).kids + [kids[0]] + kids[1..] == Last(open).kids + kids;
  }

  /** A printed element is read back as a child of the element around it. */
  lemma {:induction false} TreeSeen(t: Tree, w: string, e: char, open: seq<Tree>)
    requires TableOk(DEFAULTS) && TreeOk(t) && open != [] && t.off == |Last(open).txt|
    ensures Markup(Printed(t) + w, e, Inside(open)) == Content(w, e, Inside(WithKid(open, t)))
    decreases Size(t.kids), 1
  {
    hide TableOk, Markup, Content, Inner, StartTag, EndTag, Plain, AttrsOk, TagName;
    var inner := Inner(t.txt, t.kids, 0);
    var inside := OpenTag(Inside(open), t.name, t.attrs);
    Assoc(StartTag(t), inner, EndTag(t.name));
    Assoc(StartTag(t), inner + EndTag(t.name), w);
    Assoc(inner, EndTag(t.name), w);
    StartSeen(t, inner + (EndTag(t.name) + w), e, Inside(open));
    ChildClosed(open, t);
    EndBegins(t.name, w);
    assert t.txt[..0] == "";
    ContentSeen(t.txt, t.kids, 0, EndTag(t.name) + w, e, inside.open);
    EndSeen(t.name, w, e, Inside(Filled(inside.open, t.txt, t.kids)));
  }

  lemma EndBegins(name: string, w: string)
    ensures var u := EndTag(name) + w; u != "" && u[0] == '<'
  {
  }

  lemma {:induction false} NoNul(u: string)
    requires '\0' !in u
    ensures UpToNul(u) == u
  {
    if u != "" {
      assert u == [u[0]] + u[1..];
      NoNul(u[1..]);
    }
  }

  lemma PrintedAttrNoNul(a: Attr)
    requires AttrName(a.name) && Plain(a.value, true)
    ensures '\0' !in PrintedAttr(a)
  {
    EncodedChars(a.value, true);
    hide AmpEncoded, Plain;
  }

  lemma {:induction false} PrintedAttrsNoNul(attrs: seq<Attr>, from: nat)
    requires AttrsOk(attrs) && from <= |attrs|
    ensures '\0' !in PrintedAttrs(attrs, from)
    decreases |attrs| - from
  {
    hide PrintedAttr, AttrName, Plain;
    if from < |attrs| {
      PrintedAttrNoNul(attrs[from]);
      PrintedAttrsNoNul(attrs, from + 1);
    }
  }

  lemma {:induction false} InnerNoNul(txt: string, kids: seq<Tree>, start: nat)
    requires Plain(txt, false) && start <= |txt| && KidsOk(txt, kids, start)
    ensures '\0' !in Inner(txt, kids, start)
    decreases Size(kids), 0
  {
    hide AmpEncoded, Printed;
    if kids == [] {
      PlainPart(txt, start, |txt|);
      assert txt[start..|txt|] == txt[start..];
      EncodedChars(txt[start..], false);
    } else {
      PlainPart(txt, start, kids[0].off);
      EncodedChars(txt[start..kids[0].off], false);
      PrintedNoNul(kids[0]);
      InnerNoNul(txt, kids[1..], kids[0].off);
    }
  }

  lemma {:induction false} PrintedNoNul(t: Tree)
    requires TreeOk(t)
    ensures '\0' !in Printed(t)
    decreases Size(t.kids), 1
  {
    hide Inner, PrintedAttrs;
    InnerNoNul(t.txt, t.kids, 0);
    PrintedAttrsNoNul(t.attrs, 0);
    assert '\0' !in t.name;
  }

  /** A printed document without its last character. */
  function Cut(t: Tree): string {
    StartTag(t) + (Inner(t.txt, t.kids, 0) + ("</" + t.name))
  }

  lemma CutIs(t: Tree)
    ensures Printed(t) == Cut(t) + ">"
  {
    hide StartTag, Inner;
  }

  lemma RootSeen(t: Tree)
    requires TableOk(DEFAULTS) && TreeOk(t) && t.off == 0
    ensures Markup(Cut(t), '>', Before) == Ok(t)
  {
    hide TableOk, Markup, Content, Inner, StartTag, Plain, AttrsOk, TagName;
    var last := "</" + t.name;
    StartSeen(t, Inner(t.txt, t.kids, 0) + last, '>', Before);
    var inside := OpenTag(Before, t.name, t.attrs);
    assert t.txt[..0] == "";
    ContentSeen(t.txt, t.kids, 0, last, '>', inside.open);
    var full := Inside(Filled(inside.open, t.txt, t.kids));
    assert Last(full.open) == t && |full.open| == 1;
    EndAtEnd(t.name, full);
  }

  lemma ParsedFrom(s: string, u: string)
    requires TableOk(DEFAULTS) && s == u + ">" && '\0' !in u && u != "" && u[0] == '<'
    ensures Parsed(s) == Markup(u, '>', Before)
  {
    NoNul(u);
    hide TableOk, Markup, UpToNul;
    assert s[..|s| - 1] == u && s[|s| - 1] == '>';
    assert Until(u, One('<')) == 0 && u[0..] == u;
  }

  lemma CutClean(t: Tree)
    requires TreeOk(t)
    ensures '\0' !in Cut(t) && Cut(t) != "" && Cut(t)[0] == '<'
  {
    hide StartTag, Inner;
    PrintedNoNul(t);
    CutIs(t);
    StartTagBegins(t, Inner(t.txt, t.kids, 0) + ("</" + t.name));
  }

  /** Parsing the printed form of a tree gives the tree back: names, attributes, text, the
      order of the children and their places in the text. */
  lemma ParsePrinted(t: Tree)
    requires TreeOk(t) && t.off == 0
    ensures Parsed(Printed(t)) == Ok(t)
  {
    hide TableOk, Markup, TreeOk, Cut, Printed, Parsed;
    DefaultsOk();
    CutIs(t);
    CutClean(t);
    RootSeen(t);
    ParsedFrom(Printed(t), Cut(t));
  }

  lemma StartTagBegins(t: Tree, w: string)
    ensures var u := StartTag(t) + w; u != "" && u[0] == '<'
  {
    hide PrintedAttrs;
  }

  // ------------------------------------------------------------------------------ the code

  /** `while (isspace(*s)) s++;` */
  method SkipSpaces(u: string) returns (w: string)
    ensures w == SkipSpace(u)
  {
    w := u;
    while w != "" && IsSpace(w[0])
      invariant SkipSpace(w) == SkipSpace(u)
      decreases |w|
    {
      w := w[1..];
    }
  }

  /** `while (*s && *s != q) s++;` */
  method ScanTo(u: string, q: char) returns (n: nat)
    ensures n == Until(u, One(q))
  {
    n := 0;
    assert u[0..] == u;
    while n < |u| && u[n] != q
      invariant n <= |u| && Until(u, One(q)) == n + Until(u[n..], One(q))
    {
      assert u[n..][1..] == u[n + 1..];
      n := n + 1;
    }
  }

  /** The loop over brackets, in a declaration that has no subset before its end */
  method ScanDecl(s: string) returns (n: nat)
    requires s != "" && s[0] == '!'
    ensures n == Until(s, DeclEnd)
  {
    n := 0;
    assert s[0..] == s;
    while n < |s| && s[n] != '>' && s[n] != '['
      invariant n <= |s| && Until(s, DeclEnd) == n + Until(s[n..], DeclEnd)
      decreases |s| - n
    {
      var d := Until(s[n + 1..], Brackets);
      DeclOn(s[n..], d);
      assert s[n..][1..] == s[n + 1..] && s[n..][d + 1..] == s[n + 1 + d..];
      n := n + 1 + d;
    }
  }

  lemma {:induction false} DeclOn(t: string, d: nat)
    requires t != "" && t[0] != '>' && t[0] != '[' && d == Until(t[1..], Brackets)
    ensures Until(t, DeclEnd) == d + 1 + Until(t[d + 1..], DeclEnd)
  {
    if d > 0 {
      assert t[1..][0] == t[1] && t[1..][1..] == t[2..];
      DeclOn(t[1..], d - 1);
      assert t[1..][d..] == t[d + 1..];
    }
  }

  /** The loop over question marks */
  method ScanInst(s: string) returns (n: nat)
    requires s != "" && s[0] == '?'
    ensures n == InstEnd(s)
  {
    hide InstEnd, Until;
    n := 0;
    assert s[0..] == s;
    while true
      invariant n <= |s| && InstEnd(s) == n + InstEnd(s[n..])
      decreases |s| - n
    {
      var d := ScanTo(s[n..], '?');
      InstOn(s[n..], d);
      assert s[n..][d..] == s[n + d..];
      n := n + d;
      if n == |s| || n + 1 == |s| || s[n + 1] == '>' {
        EndHere(s[n..]);
        return;
      }
      NotHere(s[n..]);
      assert s[n..][1..] == s[n + 1..];
      n := n + 1;
    }
  }

  lemma EndHere(t: string)
    requires t != "" ==> t[0] == '?' && (|t| == 1 || t[1] == '>')
    ensures InstEnd(t) == 0
  {
  }

  lemma NotHere(t: string)
    requires |t| > 1 && t[1] != '>'
    ensures InstEnd(t) == 1 + InstEnd(t[1..])
  {
  }

  lemma {:induction false} InstOn(t: string, d: nat)
    requires d == Until(t, One('?'))
    ensures InstEnd(t) == d + InstEnd(t[d..])
  {
    if d > 0 {
      InstOn(t[1..], d - 1);
      assert t[1..][d - 1..] == t[d..];
    }
  }

  /** What the loop over the attributes has read, in front of what it will read. */
  function Prepend(attrs: seq<Attr>, more: Attrs): Attrs {
    match more
    case BadAttrs => BadAttrs
    case Attrs(rest, u) => Attrs(attrs + rest, u)
  }

  lemma PrependOne(attrs: seq<Attr>, a: Attr, more: Attrs)
    ensures Prepend(attrs, MoreAttrs(a, more)) == Prepend(attrs + [a], more)
    ensures Prepend([], more) == more
  {
    if more.Attrs? {
      assert attrs + ([a] + more.attrs) == attrs + [a] + more.attrs;
      assert [] + more.attrs == more.attrs;
    }
  }

  /** The value of an attribute, behind the white space and the equals sign */
  method TakeValue(t: string) returns (v: Value)
    requires TableOk(DEFAULTS)
    ensures v == ReadValue(t)
  {
    hide TableOk, Decoded, Lines, Until;
    if t == "" || (t[0] != '\"' && t[0] != '\'') {
      return Value("", t);
    }
    var m := ScanTo(t[1..], t[0]);
    if 1 + m == |t| {
      return Unclosed;
    }
    var text := Decode(t[1..1 + m], DEFAULTS, Attribute);
    v := Value(text, t[m + 2..]);
  }

  /** What follows the name of an attribute */
  method TakeNamed(u: string, n: nat) returns (value: Value)
    requires TableOk(DEFAULTS) && n <= |u|
    ensures value == ReadNamed(u, n)
  {
    hide TableOk, ReadValue, Along;
    value := Value("", u[n..]);
    if n < |u| && (u[n] == '=' || IsSpace(u[n])) {
      value := TakeValue(u[n + 1 + Along(u[n + 1..], Equals)..]);
    }
  }

  lemma AttrsBad(r: string, n: nat)
    requires TableOk(DEFAULTS) && r != "" && r[0] != '/' && r[0] != '>'
    requires n == Until(r, AttrEnd) && ReadNamed(r, n) == Unclosed
    ensures ReadAttrs(r) == BadAttrs
  {
    hide TableOk, ReadNamed, SkipSpace, Until;
  }

  lemma ValueShrinks(r: string, n: nat)
    requires TableOk(DEFAULTS) && r != "" && r[0] != '/' && r[0] != '>' && n == Until(r, AttrEnd)
    ensures ReadNamed(r, n).Value? ==> |SkipSpace(ReadNamed(r, n).rest)| < |r|
  {
    hide TableOk, ReadValue;
  }

  /** The loop over the attributes of a tag */
  method AttributeLoop(s: string) returns (a: Attrs)
    requires TableOk(DEFAULTS)
    ensures a == ReadAttrs(s)
  {
    var attrs, u := [], s;
    PrependOne([], Attr("", ""), ReadAttrs(s));
    hide TableOk, ReadNamed, Prepend, Until;
    while u != "" && u[0] != '/' && u[0] != '>'
      invariant ReadAttrs(s) == Prepend(attrs, ReadAttrs(u))
      decreases |u|
    {
      hide TableOk, ReadNamed, Prepend, ReadAttrs, Until, SkipSpace;
      var n := Until(u, AttrEnd);
      var value := TakeNamed(u, n);
      if value == Unclosed {
        AttrsBad(u, n);
        PrependBad(attrs);
        return BadAttrs;
      }
      AttrsUnfold(u, n, value.text, value.rest);
      PrependOne(attrs, Attr(u[..n], value.text), ReadAttrs(SkipSpace(value.rest)));
      ValueShrinks(u, n);
      attrs := attrs + [Attr(u[..n], value.text)];
      u := SkipSpaces(value.rest);
    }
    PrependNone(attrs, u);
    a := Attrs(attrs, u);
  }

  lemma PrependNone(attrs: seq<Attr>, u: string)
    ensures Prepend(attrs, Attrs([], u)) == Attrs(attrs, u)
  {
    assert attrs + [] == attrs;
  }

  lemma PrependBad(attrs: seq<Attr>)
    ensures Prepend(attrs, BadAttrs) == BadAttrs
  {
  }

  /** A new tag, up to its '>' */
  method TakeTag(s: string, e: char) returns (t: Tag)
    requires TableOk(DEFAULTS)
    ensures t == ReadTag(s, e)
  {
    hide TableOk, ReadAttrs, Until, SkipSpace;
    var n := Until(s, TagEnd);
    var u := SkipSpaces(s[n..]);
    var a := AttributeLoop(u);
    if a == BadAttrs {
      return BadTag("missing quote");
    }
    var rest := a.rest;
    if rest != "" && rest[0] == '/' {
      rest := rest[1..];
      if (rest != "" && rest[0] != '>') || (rest == "" && e != '>') {
        return BadTag("missing >");
      }
      t := Tag(s[..n], a.attrs, true, rest);
    } else if (rest != "" && rest[0] == '>') || (rest == "" && e == '>') {
      t := Tag(s[..n], a.attrs, false, rest);
    } else {
      t := BadTag("missing >");
    }
  }

  lemma OpenedCloses(doc: Doc, name: string, attrs: seq<Attr>)
    requires Open(doc) && !doc.Behind?
    ensures Closes(OpenTag(doc, name, attrs), name)
  {
  }

  lemma PrefixFirst(p: string, s: string)
    requires p != ""
    ensures Prefix(p, s) ==> s != "" && s[0] == p[0]
  {
    assert |p| <= |s| ==> s[..|p|][0] == s[0];
  }

  /** From the last character of markup to the next markup. */
  lemma ThenIs(u: string, e: char, doc: Doc)
    requires TableOk(DEFAULTS) && Open(doc)
    ensures u == "" ==> Then(u, e, doc) == Finish(doc)
    ensures u != "" ==> var w := u[1..]; var d := Until(w, One('<'));
      Then(u, e, doc)
      == if d == |w| then Finish(doc)
         else if d > 0 then Markup(w[d..], e, CharContent(doc, Decoded(Lines(w[..d]), DEFAULTS, Mode.Content)))
         else Markup(w, e, doc)
  {
    hide TableOk, Markup, Decoded, Lines, Until;
  }

  /** The search of `ezxml_attr` for the name of attribute `i` ends at that attribute. */
  method FindsItself(attrs: seq<Attr>, i: nat) returns (found: bool)
    requires i < |attrs|
    ensures found <==> IsFirst(attrs, i)
  {
    var k := 0;
    while attrs[k].name != attrs[i].name
      invariant k <= i && forall j :: 0 <= j < k ==> attrs[j].name != attrs[i].name
      decreases i - k
    {
      k := k + 1;
    }
    found := k == i;
  }

  /** One attribute, unless an earlier one has its name */
  method PutAttr(attrs: seq<Attr>, i: nat, s: string) returns (r: string)
    requires i < |attrs|
    ensures r == s + (if IsFirst(attrs, i) then PrintedAttr(attrs[i]) else "")
  {
    hide AmpEncoded, IsFirst;
    var a := attrs[i];
    r := s;
    var own := FindsItself(attrs, i);
    if own {
      r := r + " " + a.name + "=\"";
      r := AmpEncode(a.value, r, true);
      r := r + "\"";
      assert r == s + PrintedAttr(a);
    } else {
      Assoc(r, "", "");
    }
  }

  /** The attributes of a tag */
  method PutAttrs(attrs: seq<Attr>, s: string) returns (r: string)
    ensures r == s + PrintedAttrs(attrs, 0)
  {
    hide PrintedAttr, IsFirst;
    r := s;
    for i := 0 to |attrs|
      invariant r + PrintedAttrs(attrs, i) == s + PrintedAttrs(attrs, 0)
    {
      Assoc(r, if IsFirst(attrs, i) then PrintedAttr(attrs[i]) else "", PrintedAttrs(attrs, i + 1));
      r := PutAttr(attrs, i, r);
    }
    Assoc(r, "", "");
  }

  lemma ThreeParts(s: string, a: string, b: string, c: string)
    ensures s + a + b + c == s + (a + b + c)
  {
  }
}
