/** The parser accepts exactly the grammar of XmlGrammar: whatever it accepts is a document, and is read as what it means. */
module XmlLanguage {
  import opened Common
  import opened Xml
  import opened XmlText
  import opened XmlRoundTrip
  import opened XmlTokens
  import opened XmlGrammar

  // ---------------------------------------------------------------- whatever is accepted is an element

  lemma {:induction false} NameSound(r: string)
    requires ParseName(r).Ok?
    ensures var (name, rest) := ParseName(r).value;
            LegalName(name) && r == name + rest && (rest != "" ==> !NameCode(rest[0] as int))
  {
    var (name, rest) := ParseName(r).value;
    forall c <- name ensures NameCode(c as int) {
      CodesExact(c);
    }
    if rest != "" { CodesExact(rest[0]); }
  }

  lemma {:induction false} QuotedSound(r: string) returns (right: string, quote: char, value: string)
    requires ParseQuoted(r).Ok?
    ensures AllSpace(right) && (quote == '"' || quote == '\'') && quote !in value
    ensures r == right + ([quote] + ((value + [quote]) + ParseQuoted(r).value))
  {
    right := SkipSound(r);
    var c := SkipSpace(r);
    quote := c[0];
    var w := AfterSound(c[1..], [quote]);
    value := w[..|w| - 1];
    QuoteSplit(w, quote);
    assert c == [c[0]] + c[1..];
  }

  lemma QuoteSplit(w: string, q: char)
    requires EndsFirst(w, [q])
    ensures w == w[..|w| - 1] + [q] && q !in w[..|w| - 1]
  {
    var n := |w| - 1;
    assert w[n..n + 1] == [q] && w[n] == w[n..n + 1][0];
    forall i | 0 <= i < n ensures w[i] != q {
      assert !OccursAt(w, [q], i);
      assert w[i..i + 1] == [w[i]];
    }
  }

  lemma {:induction false} AttributeSound(r: string, gap: string) returns (a: Attribute)
    requires ParseAttribute(r).Ok? && AllSpace(gap)
    ensures LegalAttribute(a) && a.gap == gap && r == AttributeText(a, ParseAttribute(r).value)
  {
    NameSound(r);
    var (name, rest) := ParseName(r).value;
    var left := SkipSound(rest);
    var b := SkipSpace(rest);
    var right, quote, value := QuotedSound(b[1..]);
    a := Attribute(gap, name, left, right, quote, value);
    assert b == "=" + b[1..];
  }

  lemma {:induction false} TagEndSound(u: string)
    requires u != "" && (u[0] == '>' || StartsWith(u, "/>"))
    ensures u[0] == '>' ==> u == ">" + u[1..]
    ensures StartsWith(u, "/>") ==> u == "/>" + u[2..]
  {
    assert StartsWith(u, "/>") ==> u == u[..2] + u[2..];
  }

  /** The rest of a start tag: attributes, blanks and its end. */
  lemma {:induction false} AttributesSound(r: string) returns (attrs: seq<Attribute>, gap: string)
    requires ParseAttributes(r).Ok?
    ensures (forall a <- attrs :: LegalAttribute(a)) && AllSpace(gap)
    ensures var end := ParseAttributes(r).value; r == AttributesText(attrs, TagText(gap, end.Open?, end.rest))
    ensures r != "" && !NameCode(r[0] as int) ==> LegalAttributes(attrs)
    decreases |r|
  {
    var w := SkipSound(r);
    var u := SkipSpace(r);
    if u[0] == '>' || StartsWith(u, "/>") {
      attrs, gap := [], w;
      TagEndSound(u);
    } else {
      var a := AttributeSound(u, w);
      var rest := ParseAttribute(u).value;
      var more;
      more, gap := AttributesSound(rest);
      attrs := [a] + more;
      assert attrs[1..] == more;
      if w == "" {
        assert r == u;
        NameFirst(a, rest);
      }
    }
  }

  /** Whatever is read as an element is one, nested no deeper than the limit, and is read as its tree. */
  lemma {:induction false} ElementSound(r: string, depth: nat) returns (e: Element)
    requires r != "" && ParseElement(r, depth).Ok?
    ensures LegalElement(e) && depth + Deep(e) <= MAX_DEPTH
    ensures r == [r[0]] + ElementText(e, ParseElement(r, depth).value.1) && ParseElement(r, depth).value.0 == Tree(e)
    decreases |r|, 0
  {
    var name, attrs, gap, end := StartTagSound(r, depth);
    if end.SelfClosed? {
      e := Empty(name, attrs, gap);
    } else {
      var items, close := ContentSound(end.rest, name, depth + 1);
      e := Full(name, attrs, gap, items, close);
      FullSound(r, e, depth);
    }
  }

  /** The start tag, and what the parser makes of what follows. */
  lemma {:induction false} StartTagSound(r: string, depth: nat) returns (name: string, attrs: seq<Attribute>, gap: string, end: TagEnd)
    requires r != "" && ParseElement(r, depth).Ok?
    ensures LegalName(name) && LegalAttributes(attrs) && AllSpace(gap) && depth + 1 <= MAX_DEPTH && |end.rest| < |r|
    ensures r == [r[0]] + (name + AttributesText(attrs, TagText(gap, end.Open?, end.rest)))
    ensures end.SelfClosed? ==> ParseElement(r, depth) == Ok((Node(name, "", []), end.rest))
    ensures end.Open? ==>
              var c := ParseContent(end.rest, name, depth + 1);
              c.Ok? && ParseElement(r, depth) == Ok((Node(name, Trim(c.value.text), c.value.children), c.value.rest))
  {
    NameSound(r[1..]);
    name := ParseName(r[1..]).value.0;
    var a := ParseName(r[1..]).value.1;
    attrs, gap := AttributesSound(a);
    end := ParseAttributes(a).value;
    assert a != "";
    assert r == [r[0]] + r[1..];
  }

  lemma {:induction false} FullSound(r: string, e: Element, depth: nat)
    requires r != "" && ParseElement(r, depth).Ok? && e.Full? && LegalElement(e)
    requires var rest := ParseElement(r, depth).value.1; var body := MarkupsText(e.items, CloseText(e.name, e.close, rest));
             && r == [r[0]] + (e.name + AttributesText(e.attrs, TagText(e.gap, true, body)))
             && ParseElement(r, depth).value.0 == Node(e.name, Trim(SaidAll(e.items)), Trees(e.items))
    ensures r == [r[0]] + ElementText(e, ParseElement(r, depth).value.1) && ParseElement(r, depth).value.0 == Tree(e)
  {
  }

  /** The content of an element up to and with its close tag. */
  lemma {:induction false} ContentSound(r: string, name: string, depth: nat) returns (items: seq<Markup>, close: string)
    requires ParseContent(r, name, depth).Ok? && LegalName(name) && depth <= MAX_DEPTH
    ensures LegalMarkups(items) && AllSpace(close) && depth + DeepAll(items) <= MAX_DEPTH
    ensures var c := ParseContent(r, name, depth).value;
            r == MarkupsText(items, CloseText(name, close, c.rest)) && c.text == SaidAll(items) && c.children == Trees(items)
    decreases |r|, 2
  {
    if StartsWith(r, "</") {
      items := [];
      close := CloseSound(r, name, depth);
    } else {
      var m, rest := MarkupSound(r, name, depth);
      var more;
      more, close := ContentSound(rest, name, depth);
      items := [m] + more;
      assert items[0] == m && items[1..] == more;
    }
  }

  lemma {:induction false} CloseSound(r: string, name: string, depth: nat) returns (close: string)
    requires StartsWith(r, "</") && ParseContent(r, name, depth).Ok?
    ensures AllSpace(close) && ParseContent(r, name, depth).value.text == "" && ParseContent(r, name, depth).value.children == []
    ensures r == CloseText(name, close, ParseContent(r, name, depth).value.rest)
  {
    CloseFirst(r, name, depth);
    close := CloseTagSound(r[2..], name);
    assert r == r[..2] + r[2..];
  }

  lemma {:induction false} CloseFirst(r: string, name: string, depth: nat)
    requires StartsWith(r, "</") && ParseContent(r, name, depth).Ok?
    ensures ParseClose(r[2..], name).Ok? && ParseContent(r, name, depth) == Ok(Content("", [], ParseClose(r[2..], name).value))
  {
  }

  lemma {:induction false} CloseTagSound(r: string, name: string) returns (close: string)
    requires ParseClose(r, name).Ok?
    ensures AllSpace(close) && r == name + (close + (">" + ParseClose(r, name).value))
  {
    NameSound(r);
    var a := ParseName(r).value.1;
    close := SkipSound(a);
    var b := SkipSpace(a);
    assert b == ">" + b[1..];
  }

  /** One piece of content, and what follows it. */
  lemma {:induction false} MarkupSound(r: string, name: string, depth: nat) returns (m: Markup, rest: string)
    requires ParseContent(r, name, depth).Ok? && !StartsWith(r, "</") && depth <= MAX_DEPTH
    ensures LegalMarkup(m) && (DeepIn(m) == 0 || depth + DeepIn(m) <= MAX_DEPTH) && |rest| < |r| && r == MarkupText(m, rest)
    ensures ParseContent(rest, name, depth).Ok?
    ensures ParseContent(r, name, depth) == Prepend(Said(m), TreesIn(m), ParseContent(rest, name, depth))
    decreases |r|, 1
  {
    if StartsWith(r, "<!--") {
      m, rest := CommentSound(r, name, depth);
    } else if StartsWith(r, "<![CDATA[") {
      m, rest := CdataSound(r, name, depth);
    } else if r[0] == '<' {
      ChildFirst(r, name, depth);
      var e := ElementSound(r, depth);
      m, rest := Nested(e), ParseElement(r, depth).value.1;
    } else {
      m, rest := CharsSound(r, name, depth);
    }
  }

  lemma {:induction false} ChildFirst(r: string, name: string, depth: nat)
    requires r != "" && r[0] == '<' && !StartsWith(r, "</") && !StartsWith(r, "<!--") && !StartsWith(r, "<![CDATA[")
    requires ParseContent(r, name, depth).Ok?
    ensures ParseElement(r, depth).Ok?
    ensures var (n, rest) := ParseElement(r, depth).value;
            ParseContent(rest, name, depth).Ok? && ParseContent(r, name, depth) == Prepend("", [n], ParseContent(rest, name, depth))
  {
  }

  lemma {:induction false} CommentSound(r: string, name: string, depth: nat) returns (m: Markup, rest: string)
    requires StartsWith(r, "<!--") && !StartsWith(r, "</") && ParseContent(r, name, depth).Ok?
    ensures m.Comment? && LegalMarkup(m) && |rest| < |r| && r == MarkupText(m, rest)
    ensures ParseContent(rest, name, depth).Ok?
    ensures ParseContent(r, name, depth) == Prepend("", [], ParseContent(rest, name, depth))
  {
    var w := AfterSound(r, "-->");
    rest := After(r, "-->").value;
    m := Comment(w);
    CommentStarts(r, w, rest);
    PrependNothing(ParseContent(rest, name, depth));
  }

  /** The terminator of a comment cannot end before its opener does. */
  lemma {:induction false} CommentStarts(r: string, w: string, rest: string)
    requires StartsWith(r, "<!--") && r == w + rest && EndsFirst(w, "-->")
    ensures StartsWith(w, "<!--")
  {
    assert r[..4] == "<!--" && r[0] == '<' && r[1] == '!';
    var n := |w| - 3;
    assert w[n..n + 3][0] == '-' && w[n..n + 3][2] == '>' && w[n] == w[n..n + 3][0];
    assert w[n + 2] == w[n..n + 3][2] && r[n] == w[n] && r[n + 2] == w[n + 2];
    assert |w| >= 4 && w[..4] == r[..4];
  }

  lemma {:induction false} CdataSound(r: string, name: string, depth: nat) returns (m: Markup, rest: string)
    requires StartsWith(r, "<![CDATA[") && !StartsWith(r, "</") && !StartsWith(r, "<!--") && ParseContent(r, name, depth).Ok?
    ensures m.Cdata? && LegalMarkup(m) && |rest| < |r| && r == MarkupText(m, rest)
    ensures ParseContent(rest, name, depth).Ok?
    ensures ParseContent(r, name, depth) == Prepend(m.text, [], ParseContent(rest, name, depth))
  {
    CdataFirst(r, name, depth);
    var w := AfterSound(r[9..], "]]>");
    rest := After(r[9..], "]]>").value;
    var t := w[..|w| - 3];
    m := Cdata(t);
    CdataSplit(r, w, rest);
  }

  lemma {:induction false} CdataFirst(r: string, name: string, depth: nat)
    requires StartsWith(r, "<![CDATA[") && !StartsWith(r, "</") && !StartsWith(r, "<!--") && ParseContent(r, name, depth).Ok?
    ensures var a := After(r[9..], "]]>");
            && a.Some? && ParseContent(a.value, name, depth).Ok?
            && ParseContent(r, name, depth) == Prepend(r[9..|r| - |a.value| - 3], [], ParseContent(a.value, name, depth))
  {
  }

  lemma {:induction false} CdataSplit(r: string, w: string, rest: string)
    requires StartsWith(r, "<![CDATA[") && r[9..] == w + rest && EndsFirst(w, "]]>")
    ensures var t := w[..|w| - 3];
            t + "]]>" == w && r == "<![CDATA[" + ((t + "]]>") + rest) && r[9..|r| - |rest| - 3] == t
  {
    var n := |w| - 3;
    var t := w[..n];
    assert w == t + "]]>" by { assert w[n..n + 3] == "]]>"; }
    assert r == r[..9] + r[9..];
    assert |r| == 9 + |w| + |rest|;
    assert r[9..|r| - |rest| - 3] == r[9..][..n];
    assert r[9..][..n] == t;
  }

  lemma {:induction false} CharsSound(r: string, name: string, depth: nat) returns (m: Markup, rest: string)
    requires r != "" && r[0] != '<' && ParseContent(r, name, depth).Ok?
    ensures m.Chars? && LegalMarkup(m) && |rest| < |r| && r == MarkupText(m, rest)
    ensures ParseContent(rest, name, depth).Ok?
    ensures ParseContent(r, name, depth) == Prepend(PiecesValue(m.pieces), [], ParseContent(rest, name, depth))
  {
    TextStep(r, name, depth);
    var ps := TextSound(r);
    rest := ParseText(r).value.1;
    m := Chars(ps);
    assert ps != [];
  }

  // ---------------------------------------------------------------- around the root

  /** What ends the skipping before the root: the end, or a character that is no blank and opens no misc. */
  predicate AtRoot(r: string) {
    NoSpaceAhead(r) && !StartsWith(r, "<?") && !StartsWith(r, "<!--") && !StartsWith(r, "<!DOCTYPE")
  }

  lemma {:induction false} GapReads(gap: string, r: string)
    requires AllSpace(gap) && AtRoot(r)
    ensures SkipMisc(gap + r) == Ok(r)
  {
    SkipExact(gap, r);
  }

  lemma {:induction false} MiscReads(m: Misc, r: string)
    requires LegalMisc(m)
    ensures SkipMisc(m.gap + (m.whole + r)) == SkipMisc(r)
  {
    var u := m.whole + r;
    assert u[0] == m.whole[0] && m.whole[0] == '<' by { MiscHead(m); }
    SkipExact(m.gap, u);
    if StartsWith(m.whole, "<?") {
      AlsoPrefixed(m.whole, "<?", r);
      AfterOpener(m.whole, "<?", "?>", r);
    } else if StartsWith(m.whole, "<!--") {
      AlsoPrefixed(m.whole, "<!--", r);
      NotBoth(u, "<!--", "<?", 1);
      AfterOpener(m.whole, "<!--", "-->", r);
    } else {
      AlsoPrefixed(m.whole, "<!DOCTYPE", r);
      NotBoth(u, "<!DOCTYPE", "<?", 1);
      NotBoth(u, "<!DOCTYPE", "<!--", 2);
      AfterOpener(m.whole, "<!DOCTYPE", ">", r);
    }
  }

  lemma {:induction false} MiscHead(m: Misc)
    requires LegalMisc(m)
    ensures m.whole != "" && m.whole[0] == '<'
  {
    var w := m.whole;
    if StartsWith(w, "<?") {
      assert w[0] == w[..2][0];
    } else if StartsWith(w, "<!--") {
      assert w[0] == w[..4][0];
    } else {
      assert w[0] == w[..9][0];
    }
  }

  /** With its opener the kind of a misc is settled, and so is its terminator. */
  lemma {:induction false} AfterOpener(w: string, opener: string, p: string, r: string)
    requires StartsWith(w, opener) && p != "" && LegalMisc(Misc("", w))
    requires (opener, p) == ("<?", "?>") || (opener, p) == ("<!--", "-->") || (opener, p) == ("<!DOCTYPE", ">")
    ensures After(w + r, p) == Some(r)
  {
    if opener == "<?" {
      NotBoth(w, "<?", "<!--", 1);
      NotBoth(w, "<?", "<!DOCTYPE", 1);
    } else if opener == "<!--" {
      NotBoth(w, "<!--", "<?", 1);
      NotBoth(w, "<!--", "<!DOCTYPE", 2);
    } else {
      NotBoth(w, "<!DOCTYPE", "<?", 1);
      NotBoth(w, "<!DOCTYPE", "<!--", 2);
    }
    AfterExact(w, p, r);
  }

  lemma {:induction false} MiscsRead(ms: seq<Misc>, gap: string, r: string)
    requires (forall m <- ms :: LegalMisc(m)) && AllSpace(gap) && AtRoot(r)
    ensures SkipMisc(MiscsText(ms, gap + r)) == Ok(r)
  {
    if ms == [] {
      GapReads(gap, r);
    } else {
      MiscReads(ms[0], MiscsText(ms[1..], gap + r));
      MiscsRead(ms[1..], gap, r);
    }
  }

  lemma {:induction false} MiscSound(u: string, opener: string, p: string) returns (w: string)
    requires StartsWith(u, opener) && After(u, p).Some?
    requires (opener, p) == ("<?", "?>") || (opener, p) == ("<!--", "-->") || (opener, p) == ("<!DOCTYPE", ">")
    ensures StartsWith(w, opener) && EndsFirst(w, p) && u == w + After(u, p).value
  {
    w := AfterSound(u, p);
    var rest := After(u, p).value;
    if opener == "<!--" {
      CommentStarts(u, w, rest);
    } else {
      OpenerFits(u, w, rest, opener, p);
    }
  }

  lemma {:induction false} OpenerFits(u: string, w: string, rest: string, opener: string, p: string)
    requires StartsWith(u, opener) && u == w + rest && EndsFirst(w, p)
    requires (opener, p) == ("<?", "?>") || (opener, p) == ("<!DOCTYPE", ">")
    ensures StartsWith(w, opener)
  {
    var n := |w| - |p|;
    assert w[n..n + |p|][|p| - 1] == '>' && w[|w| - 1] == '>' && u[|w| - 1] == '>';
    assert u[..|opener|] == opener && forall i :: 0 <= i < |opener| ==> u[i] == opener[i] && opener[i] != '>';
    assert |w| > |opener|;
    assert w[..|opener|] == u[..|opener|];
  }

  lemma {:induction false} SkipMiscSound(r: string) returns (ms: seq<Misc>, gap: string)
    requires SkipMisc(r).Ok?
    ensures (forall m <- ms :: LegalMisc(m)) && AllSpace(gap) && AtRoot(SkipMisc(r).value)
    ensures r == MiscsText(ms, gap + SkipMisc(r).value)
    decreases |r|
  {
    var w := SkipSound(r);
    var u := SkipSpace(r);
    if AtRoot(u) {
      ms, gap := [], w;
    } else {
      var opener := if StartsWith(u, "<?") then "<?" else if StartsWith(u, "<!--") then "<!--" else "<!DOCTYPE";
      var p := if StartsWith(u, "<?") then "?>" else if StartsWith(u, "<!--") then "-->" else ">";
      var whole := MiscSound(u, opener, p);
      var more;
      more, gap := SkipMiscSound(After(u, p).value);
      ms := [Misc(w, whole)] + more;
      assert ms[0] == Misc(w, whole) && ms[1..] == more;
    }
  }

  // ---------------------------------------------------------------- documents

  lemma {:induction false} RootAhead(d: Document, tail: string)
    requires LegalDocument(d)
    ensures AtRoot([d.first] + ElementText(d.root, tail))
  {
    var u := [d.first] + ElementText(d.root, tail);
    assert u[0] == d.first && u[1] == d.root.name[0] && d.root.name[0] in d.root.name;
    if d.first == '<' {
      NotMisc(u);
    } else {
      HeadDiffers(u, "<?");
      HeadDiffers(u, "<!--");
      HeadDiffers(u, "<!DOCTYPE");
    }
  }

  lemma {:induction false} DocumentReads(d: Document, maxSize: nat)
    requires LegalDocument(d) && |DocumentText(d)| <= maxSize
    ensures Parse(DocumentText(d), maxSize) == if Deep(d.root) <= 32 then Ok(Tree(d.root)) else Err(TooDeep)
  {
    var tail := MiscsText(d.after, d.end);
    var r := [d.first] + ElementText(d.root, tail);
    RootAhead(d, tail);
    MiscsRead(d.before, d.gap, r);
    ElementReads(d.root, d.first, tail, 0);
    assert d.end + "" == d.end;
    MiscsRead(d.after, d.end, "");
  }

  lemma {:induction false} DocumentSound(input: string, maxSize: nat) returns (d: Document)
    requires Parse(input, maxSize).Ok?
    ensures LegalDocument(d) && DocumentText(d) == input && Deep(d.root) <= 32 && Parse(input, maxSize).value == Tree(d.root)
  {
    var before, gap := SkipMiscSound(input);
    var r := SkipMisc(input).value;
    var root := ElementSound(r, 0);
    var after, end := SkipMiscSound(ParseElement(r, 0).value.1);
    d := Document(before, gap, r[0], root, after, end);
    assert end + "" == end;
  }

  /**
    The parser accepts an input and returns a tree if and only if the input is within the size limit and is the text of a
    document of the grammar, nested at most 32 deep, that means this tree. Comments and CDATA sections, named, decimal and
    hexadecimal references, self-closed tags, quotes of both kinds and blanks in every place are part of the grammar;
    close tags carry the name of their start tag.
   */
  lemma {:induction false} AcceptsExactly(input: string, maxSize: nat, n: Node)
    ensures Parse(input, maxSize) == Ok(n) <==>
            && |input| <= maxSize
            && exists d :: LegalDocument(d) && DocumentText(d) == input && Deep(d.root) <= 32 && Denotes(d.root, n)
  {
    if Parse(input, maxSize) == Ok(n) {
      var d := DocumentSound(input, maxSize);
      TreeDenoted(d.root);
    }
    if |input| <= maxSize {
      forall d | LegalDocument(d) && DocumentText(d) == input && Deep(d.root) <= 32 && Denotes(d.root, n)
        ensures Parse(input, maxSize) == Ok(n)
      {
        DocumentReads(d, maxSize);
        DenotesOne(d.root, n);
      }
    }
  }
}
