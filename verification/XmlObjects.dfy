/** The writer and the parser of src/s3/xml.{h,cc} as objects, proved against the functions of Xml. */
module XmlObjects {
  import opened Common
  import opened Xml
  import opened XmlRoundTrip

  // ---------------------------------------------------------------- writer

  lemma {:induction false} EscapeSnoc(s: string, i: nat)
    requires i < |s|
    ensures Escape(s[..i + 1]) == Escape(s[..i]) + EscapeChar(s[i])
  {
    if i == 0 {
      assert s[..1][1..] == "" && s[..0] == "";
    } else {
      var t, a, b := s[1..], s[..i], s[..i + 1];
      EscapeSnoc(t, i - 1);
      assert a[0] == b[0] == s[0] && a[1..] == t[..i - 1] && b[1..] == t[..i] && t[i - 1] == s[i];
      Associates(EscapeChar(s[0]), Escape(t[..i - 1]), EscapeChar(s[i]));
    }
  }

  /** xml_escape's loop. */
  method XmlEscape(s: string) returns (out: string)
    ensures out == Escape(s)
  {
    out := "";
    for i := 0 to |s|
      invariant out == Escape(s[..i])
    {
      EscapeSnoc(s, i);
      var c := s[i];
      match c {
        case '&' => out := out + "&amp;";
        case '<' => out := out + "&lt;";
        case '>' => out := out + "&gt;";
        case '"' => out := out + "&quot;";
        case '\'' => out := out + "&apos;";
        case _ =>
          if !(c < ' ' && c != '\t' && c != '\n' && c != '\r') {
            out := out + [c];
          }
      }
    }
    assert s[..|s|] == s;
  }

  lemma {:induction false} TextElement(tag: string, text: string)
    ensures Write(Elem(tag, [], [Item.Text(text)])) == "<" + tag + ">" + Escape(text) + "</" + tag + ">"
  {
    var items := [Item.Text(text)];
    assert items[1..] == [];
    assert WriteItems(items) == Escape(text) + "" == Escape(text);
    assert "<" + tag + "" + ">" == "<" + tag + ">";
  }

  class XmlWriter {
    var out: string
    var stack: seq<string>

    constructor ()
      ensures out == HEADER && stack == []
    {
      out, stack := HEADER, [];
    }

    method Open(tag: string, attrs: string)
      modifies this
      ensures out == old(out) + "<" + tag + (if attrs == "" then "" else " " + attrs) + ">"
      ensures stack == old(stack) + [tag]
    {
      out := out + "<" + tag + (if attrs == "" then "" else " " + attrs) + ">";
      stack := stack + [tag];
    }

    method Close()
      requires stack != []
      modifies this
      ensures out == old(out) + "</" + old(stack)[|old(stack)| - 1] + ">"
      ensures stack == old(stack)[..|old(stack)| - 1]
    {
      out := out + "</" + stack[|stack| - 1] + ">";
      stack := stack[..|stack| - 1];
    }

    method Text(s: string)
      modifies this
      ensures out == old(out) + Escape(s) && stack == old(stack)
    {
      var t := XmlEscape(s);
      out := out + t;
    }

    method Element(tag: string, text: string)
      modifies this
      ensures out == old(out) + Write(Elem(tag, [], [Item.Text(text)])) && stack == old(stack)
    {
      var t := XmlEscape(text);
      TextElement(tag, text);
      out := out + ("<" + tag + ">" + t + "</" + tag + ">");
    }
  }

  lemma {:induction false} ElementText(out: string, e: Elem)
    ensures out + "<" + e.name + AttrsText(e.attrs) + ">" + WriteItems(e.items) + "</" + e.name + ">" == out + Write(e)
  {
  }

  lemma {:induction false} OpenTag(out: string, e: Elem)
    ensures var a := AttrsText(e.attrs);
            var given := if a == "" then "" else a[1..];
            out + "<" + e.name + (if given == "" then "" else " " + given) + ">" == out + "<" + e.name + a + ">"
  {
    var a := AttrsText(e.attrs);
    if e.attrs != [] {
      assert a == " " + a[1..] && |AttrText(e.attrs[0])| >= 3;
    }
  }

  /** Driving the writer along a document appends exactly its written form and leaves the stack as it was. */
  method Emit(w: XmlWriter, e: Elem)
    modifies w
    ensures w.out == old(w.out) + Write(e) && w.stack == old(w.stack)
    decreases e
  {
    var attrs := AttrsText(e.attrs);
    OpenTag(w.out, e);
    ElementText(w.out, e);
    w.Open(e.name, if attrs == "" then "" else attrs[1..]);
    EmitItems(w, e.items);
    assert w.stack[|w.stack| - 1] == e.name;
    w.Close();
  }

  method EmitItem(w: XmlWriter, item: Item)
    modifies w
    ensures w.out == old(w.out) + WriteItem(item) && w.stack == old(w.stack)
    decreases item
  {
    match item
    case Text(t) => w.Text(t);
    case Child(c) => Emit(w, c);
  }

  lemma {:induction false} ItemsText(out: string, items: seq<Item>)
    requires items != []
    ensures out + WriteItem(items[0]) + WriteItems(items[1..]) == out + WriteItems(items)
  {
    var a, b := WriteItem(items[0]), WriteItems(items[1..]);
    assert out + a + b == out + (a + b);
  }

  method EmitItems(w: XmlWriter, items: seq<Item>)
    modifies w
    ensures w.out == old(w.out) + WriteItems(items) && w.stack == old(w.stack)
    decreases items
  {
    if items != [] {
      ItemsText(w.out, items);
      EmitItem(w, items[0]);
      EmitItems(w, items[1..]);
    } else {
      assert w.out + "" == w.out;
    }
  }

  // ---------------------------------------------------------------- parser

  class Parser {
    const s: string
    var pos: nat
    var depth: nat

    ghost predicate Valid()
      reads this
    {
      pos <= |s|
    }

    /** The input still unread. */
    ghost function Rest(): string
      requires Valid()
      reads this
    {
      s[pos..]
    }

    constructor (input: string)
      ensures Valid() && s == input && pos == 0 && depth == 0
    {
      s, pos, depth := input, 0, 0;
    }

    predicate StartsHere(p: string)
      requires Valid()
      reads this
      ensures StartsHere(p) == StartsWith(Rest(), p)
    {
      assert pos + |p| <= |s| ==> s[pos..][..|p|] == s[pos..pos + |p|];
      pos + |p| <= |s| && s[pos..pos + |p|] == p
    }

    method SkipWs()
      requires Valid()
      modifies this`pos
      ensures Valid() && pos >= old(pos) && Rest() == SkipSpace(old(Rest()))
    {
      while pos < |s| && IsSpace(s[pos])
        invariant Valid() && pos >= old(pos)
        invariant SkipSpace(Rest()) == SkipSpace(old(Rest()))
      {
        assert Rest()[1..] == s[pos + 1..];
        pos := pos + 1;
      }
    }

    /** skip_until: the search for `end` and the jump behind it. */
    method SkipUntil(end: string) returns (ok: bool)
      requires Valid() && end != ""
      modifies this`pos
      ensures Valid() && pos >= old(pos)
      ensures After(old(Rest()), end) == if ok then Some(Rest()) else None
      ensures ok ==> pos > old(pos)
    {
      var at := pos;
      while at < |s|
        invariant pos <= at <= |s| && pos == old(pos)
        invariant After(old(Rest()), end) == After(s[at..], end)
      {
        if at + |end| <= |s| && s[at..at + |end|] == end {
          assert s[at..][..|end|] == end && s[at..][|end|..] == s[at + |end|..];
          pos := at + |end|;
          return true;
        }
        assert at + |end| <= |s| ==> s[at..][..|end|] == s[at..at + |end|];
        assert s[at..][1..] == s[at + 1..];
        at := at + 1;
      }
      return false;
    }

    method SkipMiscHere() returns (err: Option<Error>)
      requires Valid()
      modifies this`pos
      ensures Valid() && pos >= old(pos)
      ensures SkipMisc(old(Rest())) == if err.None? then Ok(Rest()) else Err(err.value)
    {
      while true
        invariant Valid() && pos >= old(pos)
        invariant SkipMisc(Rest()) == SkipMisc(old(Rest()))
        decreases |s| - pos
      {
        ghost var before := Rest();
        SkipWs();
        ghost var u := Rest();
        assert u == SkipSpace(before);
        var ok := true;
        if StartsHere("<?") {
          ok := SkipUntil("?>");
        } else if StartsHere("<!--") {
          ok := SkipUntil("-->");
        } else if StartsHere("<!DOCTYPE") {
          ok := SkipUntil(">");
        } else {
          return None;
        }
        if !ok {
          return Some(UnterminatedMisc);
        }
      }
    }

    method ParseNameHere() returns (r: Result<string, Error>)
      requires Valid()
      modifies this`pos
      ensures Valid() && pos >= old(pos)
      ensures ParseName(old(Rest())) == if r.Ok? then Ok((r.value, Rest())) else Err(r.error)
    {
      var start := pos;
      while pos < |s| && IsNameChar(s[pos])
        invariant start <= pos <= |s|
        invariant forall j :: start <= j < pos ==> IsNameChar(s[j])
      {
        pos := pos + 1;
      }
      assert old(Rest()) == s[start..pos] + Rest();
      SpanExact(s[start..pos], Rest());
      if pos == start {
        return Err(ExpectedName);
      }
      return Ok(s[start..pos]);
    }

    method ParseAttributeHere() returns (err: Option<Error>)
      requires Valid()
      modifies this`pos
      ensures Valid() && pos >= old(pos)
      ensures ParseAttribute(old(Rest())) == if err.None? then Ok(Rest()) else Err(err.value)
      ensures err.None? ==> pos > old(pos)
    {
      var name := ParseNameHere();
      if name.Err? {
        return Some(name.error);
      }
      SkipWs();
      if pos >= |s| || s[pos] != '=' {
        return Some(MalformedAttribute);
      }
      assert Rest()[1..] == s[pos + 1..];
      pos := pos + 1;
      err := ParseQuotedHere();
    }

    /** An attribute's value after its equals sign. */
    method ParseQuotedHere() returns (err: Option<Error>)
      requires Valid()
      modifies this`pos
      ensures Valid() && pos >= old(pos)
      ensures ParseQuoted(old(Rest())) == if err.None? then Ok(Rest()) else Err(err.value)
    {
      SkipWs();
      if pos >= |s| || (s[pos] != '"' && s[pos] != '\'') {
        return Some(UnquotedAttribute);
      }
      var quote := s[pos];
      assert Rest()[1..] == s[pos + 1..];
      pos := pos + 1;
      var ok := SkipUntil([quote]);
      if !ok {
        return Some(UnterminatedAttribute);
      }
      return None;
    }

    /** The attribute loop of parse_element; true when the tag closed itself. */
    method ParseTagEnd() returns (r: Result<bool, Error>)
      requires Valid()
      modifies this`pos
      ensures Valid() && pos >= old(pos)
      ensures r.Ok? ==> pos > old(pos)
      ensures ParseAttributes(old(Rest())) ==
              if r.Err? then Err(r.error) else Ok(if r.value then SelfClosed(Rest()) else Open(Rest()))
    {
      while true
        invariant Valid() && pos >= old(pos)
        invariant ParseAttributes(Rest()) == ParseAttributes(old(Rest()))
        decreases |s| - pos
      {
        ghost var before := Rest();
        SkipWs();
        assert Rest() == SkipSpace(before);
        if pos >= |s| {
          return Err(UnterminatedStartTag);
        }
        if s[pos] == '>' {
          assert Rest()[1..] == s[pos + 1..];
          pos := pos + 1;
          return Ok(false);
        }
        if StartsHere("/>") {
          assert Rest()[2..] == s[pos + 2..];
          pos := pos + 2;
          return Ok(true);
        }
        var err := ParseAttributeHere();
        if err.Some? {
          return Err(err.value);
        }
      }
    }

    method FindSemicolon() returns (semi: nat)
      requires Valid()
      ensures pos <= semi <= |s| && (semi < |s| ==> s[semi] == ';')
      ensures forall j :: pos <= j < semi ==> s[j] != ';'
    {
      semi := pos;
      while semi < |s| && s[semi] != ';'
        invariant pos <= semi <= |s|
        invariant forall j :: pos <= j < semi ==> s[j] != ';'
      {
        semi := semi + 1;
      }
    }

    method ParseEntityHere() returns (r: Result<string, Error>)
      requires Valid() && pos < |s| && s[pos] == '&'
      modifies this`pos
      ensures Valid() && pos >= old(pos)
      ensures r.Ok? ==> pos > old(pos)
      ensures ParseEntity(old(Rest())) == if r.Ok? then Ok((r.value, Rest())) else Err(r.error)
    {
      var semi := FindSemicolon();
      ghost var rest := Rest();
      if semi == |s| {
        NoIndex(rest, ';');
        return Err(MalformedEntity);
      }
      IndexOfAt(rest, ';', semi - pos);
      EntityAt(rest, semi - pos);
      if semi - pos > 16 {
        return Err(MalformedEntity);
      }
      assert rest[1..semi - pos] == s[pos + 1..semi] && rest[semi - pos + 1..] == s[semi + 1..];
      r := EntityValue(s[pos + 1..semi]);
      if r.Ok? {
        pos := semi + 1;
      }
    }

    /** One character or entity of character data. */
    method TextPiece() returns (r: Result<string, Error>)
      requires Valid() && pos < |s| && s[pos] != '<'
      modifies this`pos
      ensures Valid() && pos >= old(pos)
      ensures r.Ok? ==> pos > old(pos)
      ensures ParseText(old(Rest())) == if r.Ok? then PrependText(r.value, ParseText(Rest())) else Err(r.error)
    {
      if s[pos] == '&' {
        r := ParseEntityHere();
      } else {
        assert Rest()[1..] == s[pos + 1..];
        r := Ok([s[pos]]);
        pos := pos + 1;
      }
    }

    /** Character data up to the next tag. */
    method ParseTextHere() returns (r: Result<string, Error>)
      requires Valid()
      modifies this`pos
      ensures Valid() && pos >= old(pos)
      ensures r.Ok? && old(pos) < |s| && s[old(pos)] != '<' ==> pos > old(pos)
      ensures ParseText(old(Rest())) == if r.Ok? then Ok((r.value, Rest())) else Err(r.error)
    {
      var out := "";
      ghost var target := ParseText(Rest());
      EmptyPrefix(target);
      while pos < |s| && s[pos] != '<'
        invariant Valid() && pos >= old(pos)
        invariant target == PrependText(out, ParseText(Rest()))
        decreases |s| - pos
      {
        var piece := TextPiece();
        if piece.Err? {
          return piece;
        }
        PrependTextTwice(out, piece.value, ParseText(Rest()));
        out := out + piece.value;
      }
      assert out + "" == out;
      return Ok(out);
    }

    method ParseCloseHere(name: string) returns (err: Option<Error>)
      requires Valid()
      modifies this`pos
      ensures Valid() && pos >= old(pos)
      ensures ParseClose(old(Rest()), name) == if err.None? then Ok(Rest()) else Err(err.value)
    {
      var close := ParseNameHere();
      if close.Err? {
        return Some(close.error);
      }
      if close.value != name {
        return Some(MismatchedClose);
      }
      SkipWs();
      if pos >= |s| || s[pos] != '>' {
        return Some(MalformedClose);
      }
      assert Rest()[1..] == s[pos + 1..];
      pos := pos + 1;
      return None;
    }

    /** parse_element: the whole element at the current position, children included. */
    method ParseElementHere() returns (r: Result<Node, Error>)
      requires Valid() && pos < |s|
      modifies this
      ensures Valid() && pos >= old(pos)
      ensures r.Ok? ==> pos > old(pos) && depth == old(depth)
      ensures ParseElement(old(Rest()), old(depth)) == if r.Ok? then Ok((r.value, Rest())) else Err(r.error)
      decreases |s| - pos, 0
    {
      ghost var d := depth;
      depth := depth + 1;
      if depth > MAX_DEPTH {
        return Err(TooDeep);
      }
      assert Rest()[1..] == s[pos + 1..];
      pos := pos + 1;
      var name := ParseNameHere();
      if name.Err? {
        return Err(name.error);
      }
      var end := ParseTagEnd();
      if end.Err? {
        return Err(end.error);
      }
      if end.value {
        depth := depth - 1;
        return Ok(Node(name.value, "", []));
      }
      r := ParseContentHere(name.value);
      if r.Ok? {
        depth := depth - 1;
      }
    }

    /** A CDATA section: its literal text. */
    method CdataHere() returns (r: Result<string, Error>)
      requires Valid() && StartsWith(Rest(), "<![CDATA[")
      modifies this`pos
      ensures Valid() && pos >= old(pos)
      ensures r.Ok? ==> pos > old(pos)
      ensures ParseCdata(old(Rest())) == if r.Ok? then Ok((r.value, Rest())) else Err(r.error)
    {
      ghost var was := Rest();
      var start := pos + 9;
      assert was[9..] == s[start..];
      pos := start;
      var ok := SkipUntil("]]>");
      if !ok {
        return Err(UnterminatedCdata);
      }
      assert s[start..pos - 3] == was[9..|was| - |Rest()| - 3];
      return Ok(s[start..pos - 3]);
    }

    /** A comment inside an element. */
    method CommentHere(ghost name: string) returns (err: Option<Error>)
      requires Valid() && StartsWith(Rest(), "<!--")
      modifies this`pos
      ensures Valid() && pos >= old(pos)
      ensures err.None? ==> pos > old(pos)
      ensures ParseContent(old(Rest()), name, depth) ==
              if err.None? then ParseContent(Rest(), name, depth) else Err(err.value)
    {
      CommentStep(Rest(), name, depth);
      var ok := SkipUntil("-->");
      err := if ok then None else Some(UnterminatedMisc);
    }

    /** A CDATA section inside an element, as text. */
    method CdataPiece(ghost name: string) returns (r: Result<string, Error>)
      requires Valid() && StartsWith(Rest(), "<![CDATA[")
      modifies this`pos
      ensures Valid() && pos >= old(pos)
      ensures r.Ok? ==> pos > old(pos)
      ensures ParseContent(old(Rest()), name, depth) ==
              if r.Ok? then Prepend(r.value, [], ParseContent(Rest(), name, depth)) else Err(r.error)
    {
      CdataStep(Rest(), name, depth);
      r := CdataHere();
    }

    /** One piece of content other than the close tag: a comment, CDATA, a child element or text. */
    method PieceHere(ghost name: string) returns (r: Result<(string, seq<Node>), Error>)
      requires Valid() && pos < |s| && !StartsWith(Rest(), "</")
      modifies this
      ensures Valid() && pos >= old(pos)
      ensures r.Ok? ==> pos > old(pos) && depth == old(depth)
      ensures ParseContent(old(Rest()), name, old(depth)) ==
              if r.Ok? then Prepend(r.value.0, r.value.1, ParseContent(Rest(), name, depth)) else Err(r.error)
      decreases |s| - pos, 1
    {
      if StartsHere("<!--") {
        var err := CommentHere(name);
        PrependNothing(ParseContent(Rest(), name, depth));
        return if err.Some? then Err(err.value) else Ok(("", []));
      }
      if StartsHere("<![CDATA[") {
        var t := CdataPiece(name);
        return if t.Err? then Err(t.error) else Ok((t.value, []));
      }
      if s[pos] == '<' {
        ChildStep(Rest(), name, depth);
        var child := ParseElementHere();
        return if child.Err? then Err(child.error) else Ok(("", [child.value]));
      }
      TextStep(Rest(), name, depth);
      var t := ParseTextHere();
      return if t.Err? then Err(t.error) else Ok((t.value, []));
    }

    /** The end of an element's content: its close tag, or the end of the input. */
    method FinishContent(name: string, text: string, children: seq<Node>) returns (r: Result<Node, Error>)
      requires Valid() && (pos < |s| ==> StartsWith(Rest(), "</"))
      modifies this`pos
      ensures Valid() && pos >= old(pos)
      ensures var c := Prepend(text, children, ParseContent(old(Rest()), name, depth));
              if r.Err? then c == Err(r.error)
              else c.Ok? && r.value == Node(name, Trim(c.value.text), c.value.children) && Rest() == c.value.rest
    {
      if pos >= |s| {
        return Err(UnterminatedElement);
      }
      CloseStep(Rest(), name, depth);
      assert Rest()[2..] == s[pos + 2..];
      pos := pos + 2;
      var err := ParseCloseHere(name);
      if err.Some? {
        return Err(err.value);
      }
      assert text + "" == text && children + [] == children;
      return Ok(Node(name, Trim(text), children));
    }

    /** The content loop of parse_element: text, children and markup up to the close tag. */
    method ParseContentHere(name: string) returns (r: Result<Node, Error>)
      requires Valid()
      modifies this
      ensures Valid() && pos >= old(pos)
      ensures r.Ok? ==> depth == old(depth)
      ensures var c := ParseContent(old(Rest()), name, old(depth));
              if r.Err? then c == Err(r.error)
              else c.Ok? && r.value == Node(name, Trim(c.value.text), c.value.children) && Rest() == c.value.rest
      decreases |s| - pos, 2
    {
      var text := "";
      var children := [];
      ghost var target := ParseContent(Rest(), name, depth);
      PrependNothing(target);
      while pos < |s| && !StartsHere("</")
        invariant Valid() && pos >= old(pos) && depth == old(depth)
        invariant target == Prepend(text, children, ParseContent(Rest(), name, depth))
        decreases |s| - pos
      {
        var piece := PieceHere(name);
        if piece.Err? {
          return Err(piece.error);
        }
        PrependTwice(text, children, piece.value.0, piece.value.1, ParseContent(Rest(), name, depth));
        text := text + piece.value.0;
        children := children + piece.value.1;
      }
      r := FinishContent(name, text, children);
    }
  }

  lemma {:induction false} PrefixAt(r: string, p: string, i: nat)
    requires StartsWith(r, p) && i < |p|
    ensures r[i] == p[i]
  {
    assert r[..|p|][i] == p[i];
  }

  /** Two prefixes that differ somewhere exclude each other. */
  lemma {:induction false} OtherPrefix(r: string, p: string, q: string, i: nat)
    requires StartsWith(r, p) && i < |p| && i < |q| && p[i] != q[i]
    ensures !StartsWith(r, q)
  {
    PrefixAt(r, p, i);
    if StartsWith(r, q) {
      PrefixAt(r, q, i);
    }
  }

  lemma {:induction false} CommentStep(r: string, name: string, depth: nat)
    requires StartsWith(r, "<!--")
    ensures ParseContent(r, name, depth) ==
            var a := After(r, "-->");
            if a.None? then Err(UnterminatedMisc) else ParseContent(a.value, name, depth)
  {
    OtherPrefix(r, "<!--", "</", 1);
  }

  lemma {:induction false} CdataStep(r: string, name: string, depth: nat)
    requires StartsWith(r, "<![CDATA[")
    ensures ParseContent(r, name, depth) ==
            var p := ParseCdata(r);
            if p.Err? then Err(p.error) else Prepend(p.value.0, [], ParseContent(p.value.1, name, depth))
  {
    assert !StartsWith(r, "</") && !StartsWith(r, "<!--") by {
      OtherPrefix(r, "<![CDATA[", "</", 1);
      OtherPrefix(r, "<![CDATA[", "<!--", 2);
    }
  }

  lemma {:induction false} ChildStep(r: string, name: string, depth: nat)
    requires r != "" && r[0] == '<' && !StartsWith(r, "</") && !StartsWith(r, "<!--") && !StartsWith(r, "<![CDATA[")
    ensures ParseContent(r, name, depth) ==
            var p := ParseElement(r, depth);
            if p.Err? then Err(p.error) else Prepend("", [p.value.0], ParseContent(p.value.1, name, depth))
  {
  }

  lemma {:induction false} CloseStep(r: string, name: string, depth: nat)
    requires StartsWith(r, "</")
    ensures ParseContent(r, name, depth) ==
            var p := ParseClose(r[2..], name);
            if p.Err? then Err(p.error) else Ok(Content("", [], p.value))
  {
  }

  lemma {:induction false} NoIndex(r: string, c: char)
    requires forall j :: 0 <= j < |r| ==> r[j] != c
    ensures IndexOf(r, c) == None
  {
    if r != "" {
      assert r[0] != c;
      NoIndex(r[1..], c);
    }
  }

  /** xml_parse: reading the whole input, declaration and trailing markup included. */
  method XmlParse(input: string, maxSize: nat) returns (r: Result<Node, Error>)
    ensures r == Parse(input, maxSize)
  {
    if |input| > maxSize {
      return Err(TooLarge);
    }
    var p := new Parser(input);
    assert input[0..] == input;
    var err := p.SkipMiscHere();
    if err.Some? {
      return Err(err.value);
    }
    if p.pos >= |input| {
      return Err(EmptyDocument);
    }
    var root := p.ParseElementHere();
    if root.Err? {
      return Err(root.error);
    }
    err := p.SkipMiscHere();
    if err.Some? {
      return Err(err.value);
    }
    if p.pos < |input| {
      return Err(TrailingContent);
    }
    return root;
  }

  /** The two objects together: a document written with the writer is read back by the parser. */
  method WriteThenParse(e: Elem, maxSize: nat) returns (r: Result<Node, Error>)
    requires Legal(e) && |WriteDocument(e)| <= maxSize
    ensures if Height(e) <= 32 then r.Ok? && Shows(e, r.value) else r == Err(TooDeep)
  {
    var w := new XmlWriter();
    Emit(w, e);
    RoundTrip(e, maxSize);
    r := XmlParse(w.out, maxSize);
  }
}
