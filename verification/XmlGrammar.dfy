/**
  The language that src/s3/xml.cc accepts, as a grammar of its own: documents are data with a text, and the parser accepts
  an input if and only if it is the text of such a document nested at most 32 deep. Texts are written in front of a
  `tail`, the input that follows.
 */
module XmlGrammar {
  import opened Common
  import opened Xml
  import opened XmlText
  import opened XmlRoundTrip
  import opened XmlTokens

  // ---------------------------------------------------------------- the grammar

  datatype Attribute = Attribute(gap: string, name: string, left: string, right: string, quote: char, value: string)

  datatype Element =
    | Empty(name: string, attrs: seq<Attribute>, gap: string)
    | Full(name: string, attrs: seq<Attribute>, gap: string, items: seq<Markup>, close: string)

  datatype Markup = Chars(pieces: seq<Piece>) | Cdata(text: string) | Comment(whole: string) | Nested(e: Element)

  /** What may stand around the root: an instruction, a comment or a DOCTYPE, after blanks. */
  datatype Misc = Misc(gap: string, whole: string)

  datatype Document = Document(before: seq<Misc>, gap: string, first: char, root: Element, after: seq<Misc>, end: string)

  /** The value in its quotes. */
  function QuotedText(a: Attribute, tail: string): string {
    [a.quote] + ((a.value + [a.quote]) + tail)
  }

  function AttributeText(a: Attribute, tail: string): string {
    a.name + (a.left + ("=" + (a.right + QuotedText(a, tail))))
  }

  function AttributesText(attrs: seq<Attribute>, tail: string): string {
    if attrs == [] then tail else attrs[0].gap + AttributeText(attrs[0], AttributesText(attrs[1..], tail))
  }

  function CloseText(name: string, close: string, tail: string): string {
    "</" + (name + (close + (">" + tail)))
  }

  /** An element without its first character. */
  function ElementText(e: Element, tail: string): string
    decreases e, 1
  {
    match e
    case Empty(name, attrs, gap) => name + AttributesText(attrs, gap + ("/>" + tail))
    case Full(name, attrs, gap, items, close) =>
      name + AttributesText(attrs, gap + (">" + MarkupsText(items, CloseText(name, close, tail))))
  }

  function MarkupText(m: Markup, tail: string): string
    decreases m, 1
  {
    match m
    case Chars(pieces) => PiecesText(pieces) + tail
    case Cdata(text) => "<![CDATA[" + ((text + "]]>") + tail)
    case Comment(whole) => whole + tail
    case Nested(e) => "<" + ElementText(e, tail)
  }

  function MarkupsText(items: seq<Markup>, tail: string): string
    decreases items, 0
  {
    if items == [] then tail else MarkupText(items[0], MarkupsText(items[1..], tail))
  }

  function MiscsText(ms: seq<Misc>, tail: string): string {
    if ms == [] then tail else ms[0].gap + (ms[0].whole + MiscsText(ms[1..], tail))
  }

  function DocumentText(d: Document): string {
    MiscsText(d.before, d.gap + ([d.first] + ElementText(d.root, MiscsText(d.after, d.end))))
  }

  ghost predicate LegalAttribute(a: Attribute) {
    && AllSpace(a.gap) && LegalName(a.name) && AllSpace(a.left) && AllSpace(a.right)
    && (a.quote == '"' || a.quote == '\'') && a.quote !in a.value
  }

  /** Attributes follow the element's name after a blank. */
  ghost predicate LegalAttributes(attrs: seq<Attribute>) {
    (forall a <- attrs :: LegalAttribute(a)) && (attrs != [] ==> attrs[0].gap != "")
  }

  ghost predicate LegalElement(e: Element)
    decreases e, 1
  {
    && LegalName(e.name) && LegalAttributes(e.attrs) && AllSpace(e.gap)
    && (e.Full? ==> LegalMarkups(e.items) && AllSpace(e.close))
  }

  ghost predicate LegalMarkup(m: Markup)
    decreases m, 1
  {
    match m
    case Chars(pieces) => pieces != [] && forall p <- pieces :: LegalPiece(p)
    case Cdata(text) => EndsFirst(text + "]]>", "]]>")
    case Comment(whole) => StartsWith(whole, "<!--") && EndsFirst(whole, "-->")
    case Nested(e) => LegalElement(e)
  }

  ghost predicate LegalMarkups(items: seq<Markup>)
    decreases items, 0
  {
    items == [] || (LegalMarkup(items[0]) && LegalMarkups(items[1..]))
  }

  ghost predicate LegalMisc(m: Misc) {
    && AllSpace(m.gap)
    && (|| (StartsWith(m.whole, "<?") && EndsFirst(m.whole, "?>"))
        || (StartsWith(m.whole, "<!--") && EndsFirst(m.whole, "-->"))
        || (StartsWith(m.whole, "<!DOCTYPE") && EndsFirst(m.whole, ">")))
  }

  /** The first character of the root is not looked at, but it is no blank. */
  ghost predicate LegalDocument(d: Document) {
    && (forall m <- d.before :: LegalMisc(m)) && AllSpace(d.gap) && !SpaceCode(d.first as int)
    && LegalElement(d.root) && (forall m <- d.after :: LegalMisc(m)) && AllSpace(d.end)
  }

  // ---------------------------------------------------------------- what it means

  function Deep(e: Element): nat
    decreases e, 1
  {
    1 + if e.Full? then DeepAll(e.items) else 0
  }

  function DeepIn(m: Markup): nat
    decreases m, 1
  {
    if m.Nested? then Deep(m.e) else 0
  }

  function DeepAll(items: seq<Markup>): nat
    decreases items, 0
  {
    if items == [] then 0
    else
      var a, b := DeepIn(items[0]), DeepAll(items[1..]);
      if a < b then b else a
  }

  /** The text one piece of content contributes. */
  ghost function Said(m: Markup): string
    requires LegalMarkup(m)
  {
    match m
    case Chars(pieces) => PiecesValue(pieces)
    case Cdata(text) => text
    case _ => ""
  }

  ghost function SaidAll(items: seq<Markup>): string
    requires LegalMarkups(items)
  {
    if items == [] then "" else Said(items[0]) + SaidAll(items[1..])
  }

  /** The tree of a document: names, trimmed direct texts, child elements in order. */
  ghost predicate Denotes(e: Element, n: Node)
    requires LegalElement(e)
    decreases e, 1
  {
    && n.name == e.name
    && (if e.Full? then IsTrimmed(SaidAll(e.items), n.text) && DenotesAll(e.items, n.children)
        else n.text == "" && n.children == [])
  }

  ghost predicate DenotesIn(m: Markup, n: Node)
    requires LegalMarkup(m)
    decreases m, 1
  {
    m.Nested? && Denotes(m.e, n)
  }

  ghost predicate DenotesAll(items: seq<Markup>, ns: seq<Node>)
    requires LegalMarkups(items)
    decreases items, 0
  {
    if items == [] then ns == []
    else if !items[0].Nested? then DenotesAll(items[1..], ns)
    else ns != [] && DenotesIn(items[0], ns[0]) && DenotesAll(items[1..], ns[1..])
  }

  /** The same tree, computed. */
  ghost function Tree(e: Element): Node
    requires LegalElement(e)
    decreases e, 1
  {
    if e.Full? then Node(e.name, Trim(SaidAll(e.items)), Trees(e.items)) else Node(e.name, "", [])
  }

  ghost function TreesIn(m: Markup): seq<Node>
    requires LegalMarkup(m)
    decreases m, 1
  {
    if m.Nested? then [Tree(m.e)] else []
  }

  ghost function Trees(items: seq<Markup>): seq<Node>
    requires LegalMarkups(items)
    decreases items, 0
  {
    if items == [] then [] else TreesIn(items[0]) + Trees(items[1..])
  }

  lemma {:induction false} TreeDenoted(e: Element)
    requires LegalElement(e)
    ensures Denotes(e, Tree(e))
    decreases e, 1
  {
    if e.Full? {
      TrimExact(SaidAll(e.items));
      TreesDenoted(e.items);
    }
  }

  lemma {:induction false} TreeInDenoted(m: Markup)
    requires LegalMarkup(m) && m.Nested?
    ensures DenotesIn(m, Tree(m.e))
    decreases m, 1
  {
    TreeDenoted(m.e);
  }

  lemma {:induction false} TreesDenoted(items: seq<Markup>)
    requires LegalMarkups(items)
    ensures DenotesAll(items, Trees(items))
    decreases items, 0
  {
    if items != [] {
      TreesDenoted(items[1..]);
      if items[0].Nested? {
        TreeInDenoted(items[0]);
        assert Trees(items)[0] == Tree(items[0].e) && Trees(items)[1..] == Trees(items[1..]);
      } else {
        assert Trees(items) == Trees(items[1..]);
      }
    }
  }

  /** A document means one tree only. */
  lemma {:induction false} DenotesOne(e: Element, n: Node)
    requires LegalElement(e) && Denotes(e, n)
    ensures n == Tree(e)
    decreases e, 1
  {
    if e.Full? {
      TrimExact(SaidAll(e.items));
      TrimmedIsUnique(SaidAll(e.items), n.text, Trim(SaidAll(e.items)));
      DenotesAllOne(e.items, n.children);
    }
  }

  lemma {:induction false} DenotesInOne(m: Markup, n: Node)
    requires LegalMarkup(m) && DenotesIn(m, n)
    ensures n == Tree(m.e)
    decreases m, 1
  {
    DenotesOne(m.e, n);
  }

  lemma {:induction false} DenotesAllOne(items: seq<Markup>, ns: seq<Node>)
    requires LegalMarkups(items) && DenotesAll(items, ns)
    ensures ns == Trees(items)
    decreases items, 0
  {
    if items != [] {
      if items[0].Nested? {
        DenotesInOne(items[0], ns[0]);
        DenotesAllOne(items[1..], ns[1..]);
        assert ns == [ns[0]] + ns[1..];
      } else {
        DenotesAllOne(items[1..], ns);
        assert Trees(items) == Trees(items[1..]);
      }
    }
  }

  // ---------------------------------------------------------------- tags are read as written

  lemma {:induction false} QuotedReads(a: Attribute, tail: string)
    requires LegalAttribute(a)
    ensures ParseQuoted(a.right + QuotedText(a, tail)) == Ok(tail)
  {
    var q := QuotedText(a, tail);
    SkipExact(a.right, q);
    assert q[0] == a.quote && q[1..] == (a.value + [a.quote]) + tail;
    QuoteEnds(a.value, a.quote);
    AfterExact(a.value + [a.quote], [a.quote], tail);
  }

  lemma QuoteEnds(v: string, q: char)
    requires q !in v
    ensures EndsFirst(v + [q], [q])
  {
    var w := v + [q];
    forall i: nat | i < |w| - 1 ensures !OccursAt(w, [q], i) {
      assert w[i..i + 1][0] == v[i] && v[i] in v;
    }
    assert w[|v|..|v| + 1] == [q];
  }

  lemma {:induction false} NameReads(name: string, r: string)
    requires LegalName(name) && (r != "" ==> !NameCode(r[0] as int))
    ensures ParseName(name + r) == Ok((name, r))
  {
    SpanExact(name, r);
  }

  lemma {:induction false} AttributeReads(a: Attribute, tail: string)
    requires LegalAttribute(a)
    ensures ParseAttribute(AttributeText(a, tail)) == Ok(tail)
  {
    var eq := "=" + (a.right + QuotedText(a, tail));
    var r := a.left + eq;
    assert r[0] == if a.left == "" then '=' else a.left[0];
    NameReads(a.name, r);
    SkipExact(a.left, eq);
    assert eq[0] == '=' && eq[1..] == a.right + QuotedText(a, tail);
    QuotedReads(a, tail);
  }

  /** How a start tag ends, and what the parser says of it. */
  function TagText(gap: string, open: bool, tail: string): string {
    gap + ((if open then ">" else "/>") + tail)
  }

  lemma {:induction false} TagEndReads(gap: string, open: bool, tail: string)
    requires AllSpace(gap)
    ensures ParseAttributes(TagText(gap, open, tail)) == Ok(if open then Open(tail) else SelfClosed(tail))
  {
    var u := (if open then ">" else "/>") + tail;
    SkipExact(gap, u);
    assert open ==> u[0] == '>' && u[1..] == tail;
    assert !open ==> u[0] == '/' && u[..2] == "/>" && u[2..] == tail;
  }

  lemma {:induction false} NameFirst(a: Attribute, tail: string)
    requires LegalAttribute(a)
    ensures var u := AttributeText(a, tail);
            u != "" && NameCode(u[0] as int) && NoSpaceAhead(u) && u[0] != '>' && !StartsWith(u, "/>")
  {
    var u := AttributeText(a, tail);
    assert u[0] == a.name[0] && a.name[0] in a.name;
    HeadDiffers(u, "/>");
  }

  lemma {:induction false} AttributesReads(attrs: seq<Attribute>, gap: string, open: bool, tail: string)
    requires (forall a <- attrs :: LegalAttribute(a)) && AllSpace(gap)
    ensures ParseAttributes(AttributesText(attrs, TagText(gap, open, tail))) == Ok(if open then Open(tail) else SelfClosed(tail))
  {
    if attrs == [] {
      TagEndReads(gap, open, tail);
    } else {
      var a, rest := attrs[0], AttributesText(attrs[1..], TagText(gap, open, tail));
      var u := AttributeText(a, rest);
      NameFirst(a, rest);
      SkipExact(a.gap, u);
      AttributeReads(a, rest);
      AttributesReads(attrs[1..], gap, open, tail);
    }
  }

  /** What follows the name of an element is no name character. */
  lemma {:induction false} NameEnds(attrs: seq<Attribute>, gap: string, open: bool, tail: string)
    requires LegalAttributes(attrs) && AllSpace(gap)
    ensures var r := AttributesText(attrs, TagText(gap, open, tail)); r != "" && !NameCode(r[0] as int)
  {
    var r := AttributesText(attrs, TagText(gap, open, tail));
    if attrs == [] {
      assert r[0] == if gap != "" then gap[0] else if open then '>' else '/';
    } else {
      assert attrs[0] in attrs && r[0] == attrs[0].gap[0];
    }
  }

  lemma {:induction false} CloseReads(name: string, close: string, tail: string, depth: nat)
    requires LegalName(name) && AllSpace(close)
    ensures ParseContent(CloseText(name, close, tail), name, depth) == Ok(Content("", [], tail))
  {
    var u := CloseText(name, close, tail);
    var r := close + (">" + tail);
    assert u[..2] == "</" && u[2..] == name + r;
    assert r[0] == if close == "" then '>' else close[0];
    NameReads(name, r);
    SkipExact(close, ">" + tail);
    assert (">" + tail)[1..] == tail;
  }

  // ---------------------------------------------------------------- content is read as written

  lemma {:induction false} PiecesHead(ps: seq<Piece>)
    requires ps != [] && forall p <- ps :: LegalPiece(p)
    ensures PiecesText(ps) != "" && PiecesText(ps)[0] != '<'
  {
    assert ps[0] in ps && PiecesText(ps)[0] == PieceText(ps[0])[0];
  }

  lemma {:induction false} CharsRead(ps: seq<Piece>, tail: string, name: string, depth: nat)
    requires ps != [] && forall p <- ps :: LegalPiece(p)
    ensures ParseContent(PiecesText(ps) + tail, name, depth) == Prepend(PiecesValue(ps), [], ParseContent(tail, name, depth))
  {
    var u, v := PiecesText(ps) + tail, PiecesValue(ps);
    PiecesHead(ps);
    assert u[0] == PiecesText(ps)[0];
    PiecesExact(ps, tail);
    TextStep(u, name, depth);
    if tail != "" && tail[0] != '<' {
      TextStep(tail, name, depth);
      var p := ParseText(tail);
      if p.Ok? {
        PrependTwice(v, [], p.value.0, [], ParseContent(p.value.1, name, depth));
        NoNodes();
      }
    } else {
      assert ParseText(tail) == Ok(("", tail));
      assert v + "" == v;
    }
  }

  lemma NoNodes()
    ensures var none: seq<Node> := []; none + none == none
  {
  }

  lemma {:induction false} PrefixedBy(p: string, r: string)
    ensures StartsWith(p + r, p) && (p + r)[|p|..] == r
  {
    assert (p + r)[..|p|] == p;
  }

  lemma {:induction false} AlsoPrefixed(w: string, p: string, r: string)
    requires StartsWith(w, p)
    ensures StartsWith(w + r, p)
  {
    assert (w + r)[..|p|] == w[..|p|];
  }

  /** Two texts that differ early exclude each other. */
  lemma {:induction false} NotBoth(r: string, p: string, q: string, i: nat)
    requires StartsWith(r, p) && i < |p| && i < |q| && p[i] != q[i]
    ensures !StartsWith(r, q)
  {
    assert r[i] == r[..|p|][i];
    if |q| <= |r| { assert r[..|q|][i] == r[i]; }
  }

  lemma {:induction false} CommentReads(w: string, tail: string, name: string, depth: nat)
    requires StartsWith(w, "<!--") && EndsFirst(w, "-->")
    ensures ParseContent(w + tail, name, depth) == ParseContent(tail, name, depth)
  {
    AlsoPrefixed(w, "<!--", tail);
    NotBoth(w + tail, "<!--", "</", 1);
    AfterExact(w, "-->", tail);
  }

  lemma {:induction false} CdataReads(t: string, tail: string, name: string, depth: nat)
    requires EndsFirst(t + "]]>", "]]>")
    ensures ParseContent("<![CDATA[" + ((t + "]]>") + tail), name, depth) == Prepend(t, [], ParseContent(tail, name, depth))
  {
    var r := (t + "]]>") + tail;
    var u := "<![CDATA[" + r;
    PrefixedBy("<![CDATA[", r);
    NotBoth(u, "<![CDATA[", "</", 1);
    NotBoth(u, "<![CDATA[", "<!--", 2);
    AfterExact(t + "]]>", "]]>", tail);
    assert u[9..|u| - |tail| - 3] == t;
  }

  lemma {:induction false} StartTagReads(e: Element, first: char, tail: string, depth: nat)
    requires LegalElement(e) && e.Full? && depth + 1 <= MAX_DEPTH
    ensures ParseElement([first] + ElementText(e, tail), depth) ==
            var c := ParseContent(MarkupsText(e.items, CloseText(e.name, e.close, tail)), e.name, depth + 1);
            if c.Err? then Err(c.error) else Ok((Node(e.name, Trim(c.value.text), c.value.children), c.value.rest))
  {
    var body := MarkupsText(e.items, CloseText(e.name, e.close, tail));
    var a := AttributesText(e.attrs, TagText(e.gap, true, body));
    var u := [first] + ElementText(e, tail);
    assert u[1..] == e.name + a;
    NameEnds(e.attrs, e.gap, true, body);
    NameReads(e.name, a);
    AttributesReads(e.attrs, e.gap, true, body);
  }

  lemma {:induction false} EmptyTagReads(e: Element, first: char, tail: string, depth: nat)
    requires LegalElement(e) && e.Empty? && depth + 1 <= MAX_DEPTH
    ensures ParseElement([first] + ElementText(e, tail), depth) == Ok((Node(e.name, "", []), tail))
  {
    var a := AttributesText(e.attrs, TagText(e.gap, false, tail));
    var u := [first] + ElementText(e, tail);
    assert u[1..] == e.name + a;
    NameEnds(e.attrs, e.gap, false, tail);
    NameReads(e.name, a);
    AttributesReads(e.attrs, e.gap, false, tail);
  }

  /** An element is read as its tree before any further input, or refused as too deep. */
  lemma {:induction false} ElementReads(e: Element, first: char, tail: string, depth: nat)
    requires LegalElement(e)
    ensures ParseElement([first] + ElementText(e, tail), depth) ==
            if depth + Deep(e) <= MAX_DEPTH then Ok((Tree(e), tail)) else Err(TooDeep)
    decreases e, 1
  {
    if depth + 1 <= MAX_DEPTH {
      if e.Empty? {
        EmptyTagReads(e, first, tail, depth);
      } else {
        StartTagReads(e, first, tail, depth);
        MarkupsRead(e.items, CloseText(e.name, e.close, tail), e.name, depth + 1);
        CloseReads(e.name, e.close, tail, depth + 1);
        assert SaidAll(e.items) + "" == SaidAll(e.items) && Trees(e.items) + [] == Trees(e.items);
      }
    }
  }

  lemma {:induction false} NestedTag(e: Element, tail: string)
    requires LegalElement(e)
    ensures var u := "<" + ElementText(e, tail); |u| >= 2 && u[0] == '<' && IsNameChar(u[1])
  {
    var u := "<" + ElementText(e, tail);
    assert u[1] == e.name[0] && e.name[0] in e.name;
    CodesExact(u[1]);
  }

  lemma {:induction false} MarkupReads(m: Markup, tail: string, name: string, depth: nat)
    requires LegalMarkup(m)
    ensures ParseContent(MarkupText(m, tail), name, depth) ==
            if DeepIn(m) == 0 || depth + DeepIn(m) <= MAX_DEPTH
            then Prepend(Said(m), TreesIn(m), ParseContent(tail, name, depth)) else Err(TooDeep)
    decreases m, 1
  {
    match m
    case Chars(pieces) => CharsRead(pieces, tail, name, depth);
    case Cdata(text) => CdataReads(text, tail, name, depth);
    case Comment(whole) =>
      CommentReads(whole, tail, name, depth);
      PrependNothing(ParseContent(tail, name, depth));
    case Nested(e) =>
      NestedTag(e, tail);
      TagStep("<" + ElementText(e, tail), name, depth);
      ElementReads(e, '<', tail, depth);
  }

  lemma {:induction false} MarkupsRead(items: seq<Markup>, tail: string, name: string, depth: nat)
    requires LegalMarkups(items)
    ensures ParseContent(MarkupsText(items, tail), name, depth) ==
            if DeepAll(items) == 0 || depth + DeepAll(items) <= MAX_DEPTH
            then Prepend(SaidAll(items), Trees(items), ParseContent(tail, name, depth)) else Err(TooDeep)
    decreases items, 0
  {
    if items == [] {
      PrependNothing(ParseContent(tail, name, depth));
    } else {
      MarkupReads(items[0], MarkupsText(items[1..], tail), name, depth);
      MarkupsRead(items[1..], tail, name, depth);
      PrependTwice(Said(items[0]), TreesIn(items[0]), SaidAll(items[1..]), Trees(items[1..]), ParseContent(tail, name, depth));
    }
  }
}
