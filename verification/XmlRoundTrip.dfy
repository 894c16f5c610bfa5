/** Parsing what the writer emits gives the written tree back. */
module XmlRoundTrip {
  import opened Common
  import opened Xml
  import opened XmlText

  // ---------------------------------------------------------------- what is written and what is read

  predicate LegalName(n: string) {
    n != "" && forall c <- n :: NameCode(c as int)
  }

  predicate LegalAttrs(attrs: seq<Attr>) {
    forall a <- attrs :: LegalName(a.name) && '"' !in a.value
  }

  predicate Legal(e: Elem) {
    LegalName(e.name) && LegalAttrs(e.attrs) && LegalItems(e.items)
  }

  predicate LegalItem(item: Item) {
    item.Child? ==> Legal(item.elem)
  }

  predicate LegalItems(items: seq<Item>) {
    items == [] || (LegalItem(items[0]) && LegalItems(items[1..]))
  }

  /** Nesting depth: 1 for an element without child elements. */
  function Height(e: Elem): nat {
    1 + HeightItems(e.items)
  }

  function HeightItem(item: Item): nat {
    if item.Child? then Height(item.elem) else 0
  }

  function HeightItems(items: seq<Item>): nat {
    if items == [] then 0
    else
      var a, b := HeightItem(items[0]), HeightItems(items[1..]);
      if a < b then b else a
  }

  /** The direct text: all pieces in order, without forbidden control characters. */
  function TextOf(items: seq<Item>): string {
    if items == [] then "" else (if items[0].Text? then Sanitize(items[0].text) else "") + TextOf(items[1..])
  }

  /** What the parser makes of a document; Shows says what that is. */
  function Norm(e: Elem): Node {
    Node(e.name, Trim(TextOf(e.items)), ChildrenOf(e.items))
  }

  function NormItem(item: Item): seq<Node> {
    if item.Child? then [Norm(item.elem)] else []
  }

  function ChildrenOf(items: seq<Item>): seq<Node> {
    if items == [] then [] else NormItem(items[0]) + ChildrenOf(items[1..])
  }

  /** The direct text as written: all pieces in order, without control characters. */
  function WrittenText(items: seq<Item>): string {
    if items == [] then "" else (if items[0].Text? then Visible(items[0].text) else "") + WrittenText(items[1..])
  }

  /**
    The tree a reader of the document is entitled to: the names, the direct text of every element without control
    characters and outer blanks, and the child elements in order.
   */
  ghost predicate Shows(e: Elem, n: Node) {
    n.name == e.name && IsTrimmed(WrittenText(e.items), n.text) && ShowsItems(e.items, n.children)
  }

  ghost predicate ShowsItems(items: seq<Item>, ns: seq<Node>) {
    if items == [] then ns == []
    else if items[0].Text? then ShowsItems(items[1..], ns)
    else ns != [] && ShowsItem(items[0], ns[0]) && ShowsItems(items[1..], ns[1..])
  }

  ghost predicate ShowsItem(item: Item, n: Node) {
    item.Child? && Shows(item.elem, n)
  }

  lemma {:induction false} TextOfWritten(items: seq<Item>)
    ensures TextOf(items) == WrittenText(items)
  {
    if items != [] {
      if items[0].Text? { SanitizeExact(items[0].text); }
      TextOfWritten(items[1..]);
    }
  }

  lemma {:induction false} NormShows(e: Elem)
    ensures Shows(e, Norm(e))
    decreases e
  {
    TrimExact(TextOf(e.items));
    TextOfWritten(e.items);
    ChildrenShow(e.items);
  }

  lemma {:induction false} NormItemShows(item: Item)
    requires item.Child?
    ensures ShowsItem(item, Norm(item.elem))
    decreases item
  {
    NormShows(item.elem);
  }

  lemma {:induction false} ChildrenShow(items: seq<Item>)
    ensures ShowsItems(items, ChildrenOf(items))
    decreases items
  {
    if items != [] {
      ChildrenShow(items[1..]);
      if items[0].Child? {
        NormItemShows(items[0]);
        assert ChildrenOf(items)[0] == Norm(items[0].elem) && ChildrenOf(items)[1..] == ChildrenOf(items[1..]);
      } else {
        assert ChildrenOf(items) == ChildrenOf(items[1..]);
      }
    }
  }

  // ---------------------------------------------------------------- names and attributes

  lemma {:induction false} SpanExact(n: string, r: string)
    requires forall c <- n :: NameCode(c as int)
    requires r != "" ==> !NameCode(r[0] as int)
    ensures Span(n + r) == (n, r)
  {
    if n == "" {
      assert n + r == r;
    } else {
      assert n[0] in n && forall c <- n[1..] :: c in n;
      assert (n + r)[1..] == n[1..] + r;
      SpanExact(n[1..], r);
      assert [n[0]] + n[1..] == n;
    }
  }

  lemma {:induction false} AfterQuote(v: string, r: string)
    requires '"' !in v
    ensures After(v + "\"" + r, "\"") == Some(r)
  {
    var u := v + "\"" + r;
    if v == "" {
      assert u[..1] == "\"" && u[1..] == r;
    } else {
      assert u[0] == v[0] && v[0] in v;
      assert u[..1] != "\"" by { assert u[..1][0] == v[0]; }
      assert u[1..] == v[1..] + "\"" + r;
      AfterQuote(v[1..], r);
    }
  }

  lemma {:induction false} AttributeExact(a: Attr, r: string)
    requires LegalName(a.name) && '"' !in a.value
    ensures ParseAttribute(AttrText(a) + r) == Ok(r)
  {
    var tail := "=\"" + a.value + "\"" + r;
    assert AttrText(a) + r == a.name + tail;
    SpanExact(a.name, tail);
    assert SkipSpace(tail) == tail;
    var c := tail[1..];
    assert c == "\"" + (a.value + "\"" + r);
    assert SkipSpace(c) == c;
    assert c[1..] == a.value + "\"" + r && [c[0]] == "\"";
    AfterQuote(a.value, r);
  }

  /** A blank and an attribute are read off the front of a start tag. */
  lemma {:induction false} AttributeReadFirst(a: Attr, tail: string)
    requires LegalName(a.name) && '"' !in a.value
    ensures ParseAttributes(" " + (AttrText(a) + tail)) == ParseAttributes(tail)
  {
    var u := AttrText(a) + tail;
    var w := " " + u;
    assert u[0] == a.name[0] && a.name[0] in a.name;
    assert SkipSpace(u) == u;
    assert w[1..] == u;
    assert SkipSpace(w) == u;
    HeadDiffers(u, "/>");
    AttributeExact(a, tail);
  }

  lemma {:induction false} TagEndRead(r: string)
    ensures ParseAttributes(">" + r) == Ok(Open(r))
  {
    var u := ">" + r;
    assert SkipSpace(u) == u && u[1..] == r;
  }

  lemma {:induction false} Regroup(a: string, b: string, c: string, d: string)
    ensures a + b + c + d == a + (b + (c + d))
  {
  }

  lemma {:induction false} AttrsSplit(attrs: seq<Attr>, r: string)
    requires attrs != []
    ensures AttrsText(attrs) + ">" + r == " " + (AttrText(attrs[0]) + (AttrsText(attrs[1..]) + ">" + r))
  {
    var a, rest := AttrText(attrs[0]), AttrsText(attrs[1..]);
    Regroup(" ", a, rest, ">" + r);
    Regroup(" ", a, rest, ">");
    assert AttrsText(attrs) + ">" + r == AttrsText(attrs) + (">" + r);
    assert rest + ">" + r == rest + (">" + r);
  }

  lemma {:induction false} AttributesExact(attrs: seq<Attr>, r: string)
    requires LegalAttrs(attrs)
    ensures ParseAttributes(AttrsText(attrs) + ">" + r) == Ok(Open(r))
  {
    if attrs == [] {
      assert AttrsText(attrs) + ">" + r == ">" + r;
      TagEndRead(r);
    } else {
      var tail := AttrsText(attrs[1..]) + ">" + r;
      AttrsSplit(attrs, r);
      AttributeReadFirst(attrs[0], tail);
      AttributesExact(attrs[1..], r);
    }
  }

  // ---------------------------------------------------------------- text

  function PrependText(t: string, p: Result<(string, string), Error>): Result<(string, string), Error> {
    match p
    case Err(e) => Err(e)
    case Ok((a, r)) => Ok((t + a, r))
  }

  /** An escaped special character is read back as one entity. */
  lemma {:induction false} EntityExact(e: string, c: char, r: string)
    requires 2 <= |e| <= 4 && ';' !in e && EntityValue(e) == Ok([c])
    ensures ParseEntity("&" + e + ";" + r) == Ok(([c], r))
  {
    var u := "&" + e + ";" + r;
    var k := |e| + 1;
    assert IndexOf(u, ';') == Some(k) by {
      forall j | 0 <= j < k ensures u[j] != ';' {
        if j > 0 { assert u[j] == e[j - 1] && e[j - 1] in e; }
      }
      assert u[k] == ';';
      IndexOfAt(u, ';', k);
    }
    assert u[1..k] == e && u[k + 1..] == r;
  }

  lemma {:induction false} IndexOfAt(r: string, c: char, k: nat)
    requires k < |r| && r[k] == c && forall j :: 0 <= j < k ==> r[j] != c
    ensures IndexOf(r, c) == Some(k)
  {
    if k > 0 {
      assert r[0] != c;
      IndexOfAt(r[1..], c, k - 1);
    }
  }

  /** Up to its semicolon, a reference has the value of what is inside. */
  lemma {:induction false} EntityAt(r: string, semi: nat)
    requires r != "" && r[0] == '&' && 0 < semi && IndexOf(r, ';') == Some(semi)
    ensures var v := EntityValue(r[1..semi]);
            ParseEntity(r) ==
            if semi > 16 then Err(MalformedEntity) else if v.Err? then Err(v.error) else Ok((v.value, r[semi + 1..]))
  {
  }

  lemma {:induction false} CharExact(c: char, r: string)
    ensures ParseText(EscapeChar(c) + r) == PrependText(Sanitize([c]), ParseText(r))
  {
    assert Sanitize([c]) == if IsForbidden(c) then "" else [c] by { assert Sanitize([c][1..]) == ""; }
    if c == '&' || c == '<' || c == '>' || c == '"' || c == '\'' {
      var e := if c == '&' then "amp" else if c == '<' then "lt" else if c == '>' then "gt" else if c == '"' then "quot" else "apos";
      assert EscapeChar(c) == "&" + e + ";";
      assert EscapeChar(c) + r == "&" + e + ";" + r;
      EntityExact(e, c, r);
    } else if IsForbidden(c) {
      assert EscapeChar(c) + r == r;
      EmptyPrefix(ParseText(r));
    } else {
      assert ([c] + r)[1..] == r;
    }
  }

  lemma {:induction false} EmptyPrefix(p: Result<(string, string), Error>)
    ensures PrependText("", p) == p
  {
    if p.Ok? { assert "" + p.value.0 == p.value.0; }
  }

  lemma {:induction false} PrependTextTwice(t: string, u: string, p: Result<(string, string), Error>)
    ensures PrependText(t, PrependText(u, p)) == PrependText(t + u, p)
  {
    if p.Ok? { assert t + (u + p.value.0) == t + u + p.value.0; }
  }

  lemma {:induction false} SanitizeFirst(t: string)
    requires t != ""
    ensures Sanitize(t) == Sanitize([t[0]]) + Sanitize(t[1..])
  {
    assert [t[0]][1..] == "";
    assert Sanitize([t[0]]) == if IsForbidden(t[0]) then "" else [t[0]];
  }

  /** Escaping then reading character data is dropping the forbidden characters. */
  lemma {:induction false} TextExact(t: string, r: string)
    ensures ParseText(Escape(t) + r) == PrependText(Sanitize(t), ParseText(r))
  {
    if t == "" {
      assert Escape(t) + r == r;
      EmptyPrefix(ParseText(r));
    } else {
      var tail := Escape(t[1..]) + r;
      assert Escape(t) + r == EscapeChar(t[0]) + tail;
      CharExact(t[0], tail);
      TextExact(t[1..], r);
      PrependTextTwice(Sanitize([t[0]]), Sanitize(t[1..]), ParseText(r));
      SanitizeFirst(t);
    }
  }

  lemma {:induction false} PrependTwice(t: string, c: seq<Node>, u: string, d: seq<Node>, p: Result<Content, Error>)
    ensures Prepend(t, c, Prepend(u, d, p)) == Prepend(t + u, c + d, p)
  {
    if p.Ok? {
      assert t + (u + p.value.text) == t + u + p.value.text;
      assert c + (d + p.value.children) == c + d + p.value.children;
    }
  }

  lemma {:induction false} PrependNothing(p: Result<Content, Error>)
    ensures Prepend("", [], p) == p
  {
    if p.Ok? {
      assert "" + p.value.text == p.value.text && [] + p.value.children == p.value.children;
    }
  }

  /** Inside content, a piece of escaped text adds exactly its sanitised form. */
  lemma {:induction false} ContentText(t: string, r: string, name: string, depth: nat)
    ensures ParseContent(Escape(t) + r, name, depth) == Prepend(Sanitize(t), [], ParseContent(r, name, depth))
  {
    var u := Escape(t) + r;
    EscapeHead(t);
    TextExact(t, r);
    if Escape(t) == "" {
      assert u == r;
      assert Sanitize(t) == "" by { EscapeEmpty(t); }
      PrependNothing(ParseContent(r, name, depth));
    } else {
      assert u[0] == Escape(t)[0] && u[0] != '<';
      NoMarkup(u);
      TextStep(u, name, depth);
      if r != "" && r[0] != '<' {
        NoMarkup(r);
        TextStep(r, name, depth);
        var p := ParseText(r);
        if p.Ok? {
          PrependTwice(Sanitize(t), [], p.value.0, [], ParseContent(p.value.1, name, depth));
          var none: seq<Node> := [];
          assert none + none == none;
        }
      } else {
        assert ParseText(r) == Ok(("", r));
        assert Sanitize(t) + "" == Sanitize(t);
      }
    }
  }

  /** Content that does not start with markup is read as character data first. */
  lemma {:induction false} TextStep(r: string, name: string, depth: nat)
    requires r != "" && r[0] != '<'
    ensures ParseContent(r, name, depth) ==
            var p := ParseText(r);
            if p.Err? then Err(p.error) else Prepend(p.value.0, [], ParseContent(p.value.1, name, depth))
  {
    NoMarkup(r);
  }

  lemma {:induction false} HeadDiffers(r: string, p: string)
    requires r != "" && p != "" && r[0] != p[0]
    ensures !StartsWith(r, p)
  {
    if |p| <= |r| {
      assert r[..|p|][0] == r[0];
    }
  }

  lemma {:induction false} NoMarkup(r: string)
    requires r != "" && r[0] != '<'
    ensures !StartsWith(r, "</") && !StartsWith(r, "<!--") && !StartsWith(r, "<![CDATA[")
  {
    HeadDiffers(r, "</");
    HeadDiffers(r, "<!--");
    HeadDiffers(r, "<![CDATA[");
  }

  lemma {:induction false} EscapeHead(t: string)
    ensures Escape(t) != "" ==> Escape(t)[0] != '<'
  {
    if t != "" && EscapeChar(t[0]) == "" {
      EscapeHead(t[1..]);
      assert Escape(t) == Escape(t[1..]);
    }
  }

  lemma {:induction false} EscapeEmpty(t: string)
    requires Escape(t) == ""
    ensures Sanitize(t) == ""
  {
    if t != "" {
      assert |EscapeChar(t[0])| == 0;
      EscapeEmpty(t[1..]);
    }
  }

  // ---------------------------------------------------------------- elements

  /** An opening tag is not mistaken for a close tag, a comment or CDATA. */
  lemma {:induction false} TagStep(r: string, name: string, depth: nat)
    requires |r| >= 2 && r[0] == '<' && IsNameChar(r[1])
    ensures ParseContent(r, name, depth) ==
            var p := ParseElement(r, depth);
            if p.Err? then Err(p.error) else Prepend("", [p.value.0], ParseContent(p.value.1, name, depth))
  {
    assert !StartsWith(r, "</") by { SecondDiffers(r, "</"); }
    assert !StartsWith(r, "<!--") by { SecondDiffers(r, "<!--"); }
    assert !StartsWith(r, "<![CDATA[") by { SecondDiffers(r, "<![CDATA["); }
  }

  lemma {:induction false} SecondDiffers(r: string, p: string)
    requires |r| >= 2 && |p| >= 2 && r[1] != p[1]
    ensures !StartsWith(r, p)
  {
    if |p| <= |r| {
      assert r[..|p|][1] == r[1];
    }
  }

  /** The close tag of the enclosing element ends its content. */
  lemma {:induction false} CloseExact(name: string, r: string, depth: nat)
    requires LegalName(name)
    ensures ParseContent("</" + name + ">" + r, name, depth) == Ok(Content("", [], r))
  {
    var u := "</" + name + ">" + r;
    assert u[..2] == "</" && u[2..] == name + (">" + r);
    SpanExact(name, ">" + r);
    assert SkipSpace(">" + r) == ">" + r && (">" + r)[1..] == r;
  }

  /** What follows the name in a start tag is not a name character. */
  lemma {:induction false} AttrsHead(attrs: seq<Attr>, r: string)
    ensures var a := AttrsText(attrs) + ">" + r; a != "" && !IsNameChar(a[0])
  {
  }

  /** The start tag is read and skipped, attributes included. */
  lemma {:induction false} OpenExact(name: string, attrs: seq<Attr>, body: string, depth: nat)
    requires LegalName(name) && LegalAttrs(attrs) && depth + 1 <= MAX_DEPTH
    ensures ParseElement("<" + name + AttrsText(attrs) + ">" + body, depth) ==
            var c := ParseContent(body, name, depth + 1);
            if c.Err? then Err(c.error) else Ok((Node(name, Trim(c.value.text), c.value.children), c.value.rest))
  {
    var u := "<" + name + AttrsText(attrs) + ">" + body;
    var a := AttrsText(attrs) + ">" + body;
    assert u[1..] == name + a;
    AttrsHead(attrs, body);
    SpanExact(name, a);
    AttributesExact(attrs, body);
  }

  /** Reading what was written for one element, at any depth and before any further input. */
  lemma {:induction false} ElementExact(e: Elem, r: string, depth: nat)
    requires Legal(e)
    ensures ParseElement(Write(e) + r, depth) ==
            if depth + Height(e) <= MAX_DEPTH then Ok((Norm(e), r)) else Err(TooDeep)
    decreases e
  {
    if depth + 1 <= MAX_DEPTH {
      var tail := "</" + e.name + ">" + r;
      var body := WriteItems(e.items) + tail;
      assert Write(e) + r == "<" + e.name + AttrsText(e.attrs) + ">" + body;
      OpenExact(e.name, e.attrs, body, depth);
      ItemsExact(e.items, tail, e.name, depth + 1);
      CloseExact(e.name, r, depth + 1);
      assert TextOf(e.items) + "" == TextOf(e.items) && ChildrenOf(e.items) + [] == ChildrenOf(e.items);
    }
  }

  /** Reading what was written for one item adds its text or its node to the content. */
  lemma {:induction false} ItemExact(item: Item, r: string, name: string, depth: nat)
    requires LegalItem(item)
    ensures ParseContent(WriteItem(item) + r, name, depth) ==
            if item.Text? then Prepend(Sanitize(item.text), [], ParseContent(r, name, depth))
            else if depth + HeightItem(item) <= MAX_DEPTH then Prepend("", NormItem(item), ParseContent(r, name, depth))
            else Err(TooDeep)
    decreases item
  {
    match item
    case Text(t) => ContentText(t, r, name, depth);
    case Child(e) =>
      var u := Write(e) + r;
      assert Legal(e) && e.name[0] in e.name;
      assert u[0] == '<' && u[1] == e.name[0];
      TagStep(u, name, depth);
      ElementExact(e, r, depth);
  }

  /** Reading what was written for a run of items, before anything else. */
  lemma {:induction false} ItemsExact(items: seq<Item>, r: string, name: string, depth: nat)
    requires LegalItems(items)
    ensures ParseContent(WriteItems(items) + r, name, depth) ==
            if HeightItems(items) == 0 || depth + HeightItems(items) <= MAX_DEPTH
            then Prepend(TextOf(items), ChildrenOf(items), ParseContent(r, name, depth)) else Err(TooDeep)
    decreases items
  {
    if items == [] {
      assert WriteItems(items) + r == r;
      PrependNothing(ParseContent(r, name, depth));
    } else {
      var item, rest := items[0], items[1..];
      var tail := WriteItems(rest) + r;
      assert WriteItems(items) + r == WriteItem(item) + tail;
      ItemExact(item, tail, name, depth);
      ItemsExact(rest, r, name, depth);
      var t := if item.Text? then Sanitize(item.text) else "";
      PrependTwice(t, NormItem(item), TextOf(rest), ChildrenOf(rest), ParseContent(r, name, depth));
    }
  }

  // ---------------------------------------------------------------- documents

  lemma {:induction false} HeaderShape()
    ensures |HEADER| >= 2 && HEADER[..2] == "<?" && HEADER[|HEADER| - 2..] == "?>"
    ensures forall j :: 1 <= j <= |HEADER| - 2 ==> HEADER[j] != '>'
  {
    assert HEADER[0] == '<' && HEADER[1] == '?';
  }

  /** The declaration that XmlWriter starts with is skipped. */
  lemma {:induction false} HeaderSkipped(r: string)
    requires r != "" && r[0] == '<' && (|r| > 1 ==> r[1] != '?' && r[1] != '!')
    ensures SkipMisc(HEADER + r) == Ok(r)
  {
    HeaderShape();
    InstructionSkipped(HEADER, r);
    RootKept(r);
  }

  lemma {:induction false} RootKept(r: string)
    requires r != "" && r[0] == '<' && (|r| > 1 ==> r[1] != '?' && r[1] != '!')
    ensures SkipMisc(r) == Ok(r)
  {
    NotMisc(r);
    assert SkipSpace(r) == r;
  }

  lemma {:induction false} InstructionSkipped(h: string, r: string)
    requires |h| >= 2 && h[..2] == "<?" && h[|h| - 2..] == "?>"
    requires forall j :: 1 <= j <= |h| - 2 ==> h[j] != '>'
    ensures SkipMisc(h + r) == SkipMisc(r)
  {
    var u, k := h + r, |h| - 2;
    assert u[0] == h[..2][0] && u[1] == h[..2][1];
    assert SkipSpace(u) == u && u[..2] == "<?";
    assert u[k..k + 2] == h[k..];
    AfterAt(u, "?>", k);
    assert u[k + 2..] == r;
  }

  lemma {:induction false} NotMisc(r: string)
    requires r != "" && r[0] == '<' && (|r| > 1 ==> r[1] != '?' && r[1] != '!')
    ensures !StartsWith(r, "<?") && !StartsWith(r, "<!--") && !StartsWith(r, "<!DOCTYPE")
  {
    if |r| > 1 {
      SecondDiffers(r, "<?");
      SecondDiffers(r, "<!--");
      SecondDiffers(r, "<!DOCTYPE");
    }
  }

  lemma {:induction false} AfterAt(r: string, p: string, k: nat)
    requires |p| == 2 && k + 2 <= |r| && r[k..k + 2] == p
    requires forall j :: 1 <= j <= k ==> r[j] != p[1]
    ensures After(r, p) == Some(r[k + 2..])
  {
    if k > 0 {
      assert r[..2][1] == r[1];
      var q := r[1..];
      assert q[k - 1..k + 1] == r[k..k + 2];
      AfterAt(q, p, k - 1);
      assert q[k + 1..] == r[k + 2..];
    }
  }

  /**
    Round trip: for every document with legal names, within the size limit, parsing what the writer
    emits gives the tree back, texts without forbidden control characters and outer white space, if
    and only if it is nested at most 32 deep; deeper documents are refused as too deep.
   */
  lemma {:induction false} RoundTrip(e: Elem, maxSize: nat)
    requires Legal(e) && |WriteDocument(e)| <= maxSize
    ensures var p := Parse(WriteDocument(e), maxSize);
            if Height(e) <= 32 then p.Ok? && Shows(e, p.value) else p == Err(TooDeep)
  {
    NormShows(e);
    DocumentExact(e, maxSize);
  }

  lemma {:induction false} DocumentExact(e: Elem, maxSize: nat)
    requires Legal(e) && |WriteDocument(e)| <= maxSize
    ensures Parse(WriteDocument(e), maxSize) == if Height(e) <= MAX_DEPTH then Ok(Norm(e)) else Err(TooDeep)
  {
    var w := Write(e);
    assert w[0] == '<' && w[1] == e.name[0] && e.name[0] in e.name;
    HeaderSkipped(w);
    ElementExact(e, "", 0);
    assert w + "" == w;
    assert SkipMisc("") == Ok("");
  }

  // ---------------------------------------------------------------- anything that parses can be rewritten

  function NodeHeight(n: Node): nat {
    1 + NodesHeight(n.children)
  }

  function NodesHeight(ns: seq<Node>): nat {
    if ns == [] then 0
    else
      var a, b := NodeHeight(ns[0]), NodesHeight(ns[1..]);
      if a < b then b else a
  }

  predicate LegalNode(n: Node) {
    LegalName(n.name) && LegalNodes(n.children)
  }

  predicate LegalNodes(ns: seq<Node>) {
    ns == [] || (LegalNode(ns[0]) && LegalNodes(ns[1..]))
  }

  /** Whatever the input, a parsed tree has legal names and respects the depth limit. */
  lemma {:induction false} ParsedIsLegal(r: string, depth: nat)
    requires r != "" && ParseElement(r, depth).Ok?
    ensures var n := ParseElement(r, depth).value.0; LegalNode(n) && depth + NodeHeight(n) <= 32
    decreases |r|, 0
  {
    var (name, a) := ParseName(r[1..]).value;
    var end := ParseAttributes(a).value;
    if end.Open? {
      ContentIsLegal(end.rest, name, depth + 1);
    }
  }

  lemma {:induction false} ContentIsLegal(r: string, name: string, depth: nat)
    requires ParseContent(r, name, depth).Ok? && depth <= MAX_DEPTH
    ensures var c := ParseContent(r, name, depth).value;
            LegalNodes(c.children) && depth + NodesHeight(c.children) <= MAX_DEPTH
    decreases |r|, 1
  {
    var c := ParseContent(r, name, depth).value;
    if StartsWith(r, "</") {
    } else if StartsWith(r, "<!--") {
      ContentIsLegal(After(r, "-->").value, name, depth);
    } else if StartsWith(r, "<![CDATA[") {
      var a := After(r[9..], "]]>").value;
      ContentIsLegal(a, name, depth);
      assert c.children == ParseContent(a, name, depth).value.children;
    } else if r[0] == '<' {
      var (n, a) := ParseElement(r, depth).value;
      ParsedIsLegal(r, depth);
      ContentIsLegal(a, name, depth);
      assert c.children == [n] + ParseContent(a, name, depth).value.children;
    } else {
      var (t, a) := ParseText(r).value;
      ContentIsLegal(a, name, depth);
      assert c.children == ParseContent(a, name, depth).value.children;
    }
  }

  /** A parsed tree as a document to write: its text, then its children. */
  function AsElem(n: Node): Elem {
    Elem(n.name, [], [Text(n.text)] + AsItems(n.children))
  }

  function AsItems(ns: seq<Node>): seq<Item> {
    if ns == [] then [] else [Child(AsElem(ns[0]))] + AsItems(ns[1..])
  }

  /** The tree with every text cleaned of what the writer drops. */
  function Clean(n: Node): Node {
    Node(n.name, Trim(Sanitize(n.text)), CleanAll(n.children))
  }

  function CleanAll(ns: seq<Node>): seq<Node> {
    if ns == [] then [] else [Clean(ns[0])] + CleanAll(ns[1..])
  }

  /** The same tree with the control characters and outer blanks of every text gone. */
  ghost predicate Cleaned(n: Node, m: Node) {
    m.name == n.name && IsTrimmed(Visible(n.text), m.text) && CleanedAll(n.children, m.children)
  }

  ghost predicate CleanedAll(ns: seq<Node>, ms: seq<Node>) {
    if ns == [] then ms == [] else ms != [] && Cleaned(ns[0], ms[0]) && CleanedAll(ns[1..], ms[1..])
  }

  lemma {:induction false} CleanIsCleaned(n: Node)
    ensures Cleaned(n, Clean(n))
    decreases n
  {
    SanitizeExact(n.text);
    TrimExact(Sanitize(n.text));
    CleanAllIsCleaned(n.children);
  }

  lemma {:induction false} CleanAllIsCleaned(ns: seq<Node>)
    ensures CleanedAll(ns, CleanAll(ns))
    decreases ns
  {
    if ns != [] {
      CleanIsCleaned(ns[0]);
      CleanAllIsCleaned(ns[1..]);
      assert CleanAll(ns)[0] == Clean(ns[0]) && CleanAll(ns)[1..] == CleanAll(ns[1..]);
    }
  }

  lemma {:induction false} AsElemExact(n: Node)
    requires LegalNode(n)
    ensures Legal(AsElem(n)) && Height(AsElem(n)) == NodeHeight(n) && Norm(AsElem(n)) == Clean(n)
    decreases n
  {
    var items := AsItems(n.children);
    AsItemsExact(n.children);
    var all := [Text(n.text)] + items;
    assert all[1..] == items && all[0] == Text(n.text);
    assert HeightItem(all[0]) == 0 && HeightItems(all) == HeightItems(items);
    assert TextOf(all) == Sanitize(n.text) + TextOf(items) && Sanitize(n.text) + "" == Sanitize(n.text);
    assert ChildrenOf(all) == [] + ChildrenOf(items) && [] + ChildrenOf(items) == ChildrenOf(items);
  }

  lemma {:induction false} AsItemsExact(ns: seq<Node>)
    requires LegalNodes(ns)
    ensures var items := AsItems(ns);
            LegalItems(items) && HeightItems(items) == NodesHeight(ns) && TextOf(items) == "" && ChildrenOf(items) == CleanAll(ns)
    decreases ns
  {
    if ns != [] {
      AsElemExact(ns[0]);
      AsItemsExact(ns[1..]);
      var items := AsItems(ns);
      assert items[0] == Child(AsElem(ns[0])) && items[1..] == AsItems(ns[1..]);
    }
  }

  /** Whatever parses can be written again, and reads back as the same tree with cleaned texts. */
  lemma {:induction false} Reparse(input: string, maxSize: nat, maxSize': nat)
    requires Parse(input, maxSize).Ok?
    requires |WriteDocument(AsElem(Parse(input, maxSize).value))| <= maxSize'
    ensures var n := Parse(input, maxSize).value;
            var p := Parse(WriteDocument(AsElem(n)), maxSize'); p.Ok? && Cleaned(n, p.value)
  {
    var r := SkipMisc(input).value;
    ParsedIsLegal(r, 0);
    var n := Parse(input, maxSize).value;
    AsElemExact(n);
    DocumentExact(AsElem(n), maxSize');
    CleanIsCleaned(n);
  }
}
