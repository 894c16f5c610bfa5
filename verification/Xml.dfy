/**
  The XML generator and parser of src/s3/xml.{h,cc} as functions. The parser works on the input
  still unread: every function takes it and returns what is left. Bytes are characters.
 */
module Xml {
  import opened Common

  /** Why the parser throws MalformedXML. */
  datatype Error =
    | TooLarge | EmptyDocument | TrailingContent | UnterminatedMisc | ExpectedName | TooDeep
    | UnterminatedStartTag | UnterminatedElement | MismatchedClose | MalformedClose | UnterminatedCdata
    | MalformedAttribute | UnquotedAttribute | UnterminatedAttribute
    | MalformedEntity | MalformedReference | ReferenceOutOfRange | UnknownEntity

  datatype Node = Node(name: string, text: string, children: seq<Node>)

  const MAX_DEPTH: nat := 32

  // ---------------------------------------------------------------- characters

  /** std::isspace in the C locale. */
  predicate IsSpace(c: char) {
    c == ' ' || 9 as char <= c <= 13 as char
  }

  predicate IsNameChar(c: char) {
    'a' <= c <= 'z' || 'A' <= c <= 'Z' || '0' <= c <= '9' || c == '_' || c == '-' || c == '.' || c == ':'
  }

  /** The white space trimmed from element text. */
  predicate IsBlank(c: char) {
    c == ' ' || c == '\t' || c == '\r' || c == '\n'
  }

  /** Control characters that XML 1.0 forbids; they are dropped on output. */
  predicate IsForbidden(c: char) {
    c < ' ' && c != '\t' && c != '\n' && c != '\r'
  }

  // ---------------------------------------------------------------- writing

  function EscapeChar(c: char): string {
    match c
    case '&' => "&amp;"
    case '<' => "&lt;"
    case '>' => "&gt;"
    case '"' => "&quot;"
    case '\'' => "&apos;"
    case _ => if IsForbidden(c) then "" else [c]
  }

  /** xml_escape. */
  function Escape(s: string): string {
    if s == "" then "" else EscapeChar(s[0]) + Escape(s[1..])
  }

  /** What survives escaping: everything but forbidden control characters. */
  function Sanitize(s: string): string {
    if s == "" then "" else (if IsForbidden(s[0]) then "" else [s[0]]) + Sanitize(s[1..])
  }

  /** One attribute of a start tag, as handed to XmlWriter::open. */
  datatype Attr = Attr(name: string, value: string)

  /** A document as a program writes it: text and elements in any order inside an element. */
  datatype Elem = Elem(name: string, attrs: seq<Attr>, items: seq<Item>)
  datatype Item = Text(text: string) | Child(elem: Elem)

  function AttrText(a: Attr): string {
    a.name + "=\"" + a.value + "\""
  }

  /** The attributes, each preceded by one space. */
  function AttrsText(attrs: seq<Attr>): string {
    if attrs == [] then "" else " " + AttrText(attrs[0]) + AttrsText(attrs[1..])
  }

  /** What open, text, nested elements and close append. */
  function Write(e: Elem): string {
    "<" + e.name + AttrsText(e.attrs) + ">" + WriteItems(e.items) + "</" + e.name + ">"
  }

  function WriteItem(item: Item): string {
    match item
    case Text(t) => Escape(t)
    case Child(e) => Write(e)
  }

  function WriteItems(items: seq<Item>): string {
    if items == [] then "" else WriteItem(items[0]) + WriteItems(items[1..])
  }

  const HEADER: string := "<?xml version=\"1.0\" encoding=\"UTF-8\"?>"

  function WriteDocument(e: Elem): string {
    HEADER + Write(e)
  }

  // ---------------------------------------------------------------- scanning

  predicate StartsWith(r: string, p: string) {
    |p| <= |r| && r[..|p|] == p
  }

  function SkipSpace(r: string): (t: string)
    ensures |t| <= |r|
  {
    if r != "" && IsSpace(r[0]) then SkipSpace(r[1..]) else r
  }

  /** What follows the first occurrence of `p`. */
  function After(r: string, p: string): (t: Option<string>)
    ensures t.Some? ==> |t.value| + |p| <= |r|
  {
    if StartsWith(r, p) then Some(r[|p|..])
    else if r == "" then None
    else After(r[1..], p)
  }

  /** White space, processing instructions, comments and DOCTYPE around the root element. */
  function SkipMisc(r: string): (t: Result<string, Error>)
    ensures t.Ok? ==> |t.value| <= |r|
    decreases |r|
  {
    var u := SkipSpace(r);
    var stop := if StartsWith(u, "<?") then "?>" else if StartsWith(u, "<!--") then "-->" else if StartsWith(u, "<!DOCTYPE") then ">" else "";
    if stop == "" then Ok(u)
    else match After(u, stop)
         case None => Err(UnterminatedMisc)
         case Some(v) => SkipMisc(v)
  }

  /** The longest run of name characters and what follows it. */
  function Span(r: string): (t: (string, string))
    ensures r == t.0 + t.1
    ensures forall c <- t.0 :: IsNameChar(c)
    ensures t.1 != "" ==> !IsNameChar(t.1[0])
  {
    if r != "" && IsNameChar(r[0]) then var (a, b) := Span(r[1..]); ([r[0]] + a, b) else ("", r)
  }

  function ParseName(r: string): (t: Result<(string, string), Error>)
    ensures t.Ok? ==> t.value.0 != "" && r == t.value.0 + t.value.1 && (forall c <- t.value.0 :: IsNameChar(c))
  {
    var (a, b) := Span(r);
    if a == "" then Err(ExpectedName) else Ok((a, b))
  }

  /** The quoted value after an equals sign. */
  function ParseQuoted(r: string): (t: Result<string, Error>)
    ensures t.Ok? ==> |t.value| < |r|
  {
    var c := SkipSpace(r);
    if c == "" || (c[0] != '"' && c[0] != '\'') then Err(UnquotedAttribute)
    else match After(c[1..], [c[0]])
         case None => Err(UnterminatedAttribute)
         case Some(d) => Ok(d)
  }

  /** Attributes are checked for shape and skipped. */
  function ParseAttribute(r: string): (t: Result<string, Error>)
    ensures t.Ok? ==> |t.value| < |r|
  {
    match ParseName(r)
    case Err(e) => Err(e)
    case Ok((_, a)) =>
      var b := SkipSpace(a);
      if b == "" || b[0] != '=' then Err(MalformedAttribute) else ParseQuoted(b[1..])
  }

  /** How a start tag ends. */
  datatype TagEnd = Open(rest: string) | SelfClosed(rest: string)

  function ParseAttributes(r: string): (t: Result<TagEnd, Error>)
    ensures t.Ok? ==> |t.value.rest| < |r|
    decreases |r|
  {
    var u := SkipSpace(r);
    if u == "" then Err(UnterminatedStartTag)
    else if u[0] == '>' then Ok(Open(u[1..]))
    else if StartsWith(u, "/>") then Ok(SelfClosed(u[2..]))
    else match ParseAttribute(u)
         case Err(e) => Err(e)
         case Ok(v) => ParseAttributes(v)
  }

  // ---------------------------------------------------------------- text

  function DigitValue(c: char): nat {
    if '0' <= c <= '9' then (c - '0') as nat
    else if 'a' <= c <= 'z' then (c - 'a') as nat + 10
    else if 'A' <= c <= 'Z' then (c - 'A') as nat + 10
    else 99
  }

  function Digits(s: string, radix: nat, acc: nat): nat {
    if s != "" && DigitValue(s[0]) < radix then Digits(s[1..], radix, acc * radix + DigitValue(s[0])) else acc
  }

  /** A 0x is skipped when a hexadecimal digit follows. */
  function SkipPrefix(b: string, radix: nat): string {
    if radix == 16 && |b| > 2 && b[0] == '0' && (b[1] == 'x' || b[1] == 'X') && DigitValue(b[2]) < 16 then b[2..] else b
  }

  function Unsigned(b: string, radix: nat): Option<nat> {
    var c := SkipPrefix(b, radix);
    if c == "" || DigitValue(c[0]) >= radix then None else Some(Digits(c, radix, 0))
  }

  /** std::stol: optional white space, sign and 0x prefix; trailing characters are ignored. */
  function Stol(s: string, radix: nat): Option<int> {
    var a := SkipSpace(s);
    if a != "" && a[0] == '-' then
      match Unsigned(a[1..], radix) case None => None case Some(n) => Some(-(n as int))
    else
      match Unsigned(if a != "" && a[0] == '+' then a[1..] else a, radix) case None => None case Some(n) => Some(n)
  }

  /** append_utf8. */
  function Utf8(cp: nat): string
    requires cp <= 0x10FFFF
  {
    if cp < 0x80 then [cp as char]
    else if cp < 0x800 then [(0xC0 + cp / 64) as char, (0x80 + cp % 64) as char]
    else if cp < 0x10000 then [(0xE0 + cp / 4096) as char, (0x80 + cp / 64 % 64) as char, (0x80 + cp % 64) as char]
    else [(0xF0 + cp / 262144) as char, (0x80 + cp / 4096 % 64) as char, (0x80 + cp / 64 % 64) as char, (0x80 + cp % 64) as char]
  }

  function IndexOf(r: string, c: char): (k: Option<nat>)
    ensures k.Some? ==> k.value < |r| && r[k.value] == c && forall j :: 0 <= j < k.value ==> r[j] != c
  {
    if r == "" then None
    else if r[0] == c then Some(0)
    else match IndexOf(r[1..], c) case None => None case Some(k) => Some(k + 1)
  }

  /** The value of an entity reference, without its & and ;. */
  function EntityValue(e: string): Result<string, Error> {
    if e == "lt" then Ok("<")
    else if e == "gt" then Ok(">")
    else if e == "amp" then Ok("&")
    else if e == "quot" then Ok("\"")
    else if e == "apos" then Ok("'")
    else if e != "" && e[0] == '#' then CodeValue(e[1..])
    else Err(UnknownEntity)
  }

  /** The value of a numeric reference, after its #. */
  function CodeValue(r: string): Result<string, Error> {
    match if r != "" && (r[0] == 'x' || r[0] == 'X') then Stol(r[1..], 16) else Stol(r, 10)
    case None => Err(MalformedReference)
    case Some(n) => if n <= 0 || n > 0x10FFFF then Err(ReferenceOutOfRange) else Ok(Utf8(n))
  }

  /** At an ampersand: the referenced text and what follows the semicolon. */
  function ParseEntity(r: string): (t: Result<(string, string), Error>)
    requires r != "" && r[0] == '&'
    ensures t.Ok? ==> |t.value.1| < |r|
  {
    match IndexOf(r, ';')
    case None => Err(MalformedEntity)
    case Some(semi) =>
      if semi > 16 then Err(MalformedEntity)
      else match EntityValue(r[1..semi])
           case Err(e) => Err(e)
           case Ok(v) => Ok((v, r[semi + 1..]))
  }

  /** Character data up to the next tag. */
  function ParseText(r: string): (t: Result<(string, string), Error>)
    ensures t.Ok? ==> |t.value.1| <= |r| && (t.value.1 != "" ==> t.value.1[0] == '<')
    ensures t.Ok? && r != "" && r[0] != '<' ==> |t.value.1| < |r|
    decreases |r|
  {
    if r == "" || r[0] == '<' then Ok(("", r))
    else
      var head := if r[0] == '&' then ParseEntity(r) else Ok(([r[0]], r[1..]));
      match head
      case Err(e) => Err(e)
      case Ok((a, u)) =>
        match ParseText(u)
        case Err(e) => Err(e)
        case Ok((b, v)) => Ok((a + b, v))
  }

  function TrimLeft(s: string): string {
    if s != "" && IsBlank(s[0]) then TrimLeft(s[1..]) else s
  }

  function TrimRight(s: string): string {
    if s != "" && IsBlank(s[|s| - 1]) then TrimRight(s[..|s| - 1]) else s
  }

  function Trim(s: string): string {
    TrimRight(TrimLeft(s))
  }

  // ---------------------------------------------------------------- elements

  /** What an element's content amounts to, and the input after its close tag. */
  datatype Content = Content(text: string, children: seq<Node>, rest: string)

  function Prepend(text: string, children: seq<Node>, c: Result<Content, Error>): Result<Content, Error> {
    match c
    case Err(e) => Err(e)
    case Ok(v) => Ok(Content(text + v.text, children + v.children, v.rest))
  }

  /** A CDATA section, after its nine opening characters are checked: the literal text and what follows it. */
  function ParseCdata(r: string): (t: Result<(string, string), Error>)
    requires |r| >= 9
    ensures t.Ok? ==> |t.value.1| < |r|
  {
    match After(r[9..], "]]>")
    case None => Err(UnterminatedCdata)
    case Some(a) => Ok((r[9..|r| - |a| - 3], a))
  }

  /** The close tag of `name`, after its two opening characters. */
  function ParseClose(r: string, name: string): (t: Result<string, Error>)
    ensures t.Ok? ==> |t.value| < |r|
  {
    match ParseName(r)
    case Err(e) => Err(e)
    case Ok((close, a)) =>
      if close != name then Err(MismatchedClose)
      else
        var b := SkipSpace(a);
        if b == "" || b[0] != '>' then Err(MalformedClose) else Ok(b[1..])
  }

  /** The whole element at the head of the input; `depth` elements enclose it. */
  function ParseElement(r: string, depth: nat): (t: Result<(Node, string), Error>)
    requires r != ""
    ensures t.Ok? ==> |t.value.1| < |r|
    decreases |r|, 0
  {
    if depth + 1 > MAX_DEPTH then Err(TooDeep)
    else match ParseName(r[1..])
         case Err(e) => Err(e)
         case Ok((name, a)) =>
           match ParseAttributes(a)
           case Err(e) => Err(e)
           case Ok(SelfClosed(b)) => Ok((Node(name, "", []), b))
           case Ok(Open(b)) =>
             match ParseContent(b, name, depth + 1)
             case Err(e) => Err(e)
             case Ok(c) => Ok((Node(name, Trim(c.text), c.children), c.rest))
  }

  function ParseContent(r: string, name: string, depth: nat): (t: Result<Content, Error>)
    ensures t.Ok? ==> |t.value.rest| <= |r|
    decreases |r|, 1
  {
    if r == "" then Err(UnterminatedElement)
    else if StartsWith(r, "</") then
      match ParseClose(r[2..], name)
      case Err(e) => Err(e)
      case Ok(a) => Ok(Content("", [], a))
    else if StartsWith(r, "<!--") then
      match After(r, "-->")
      case None => Err(UnterminatedMisc)
      case Some(a) => ParseContent(a, name, depth)
    else if StartsWith(r, "<![CDATA[") then
      match ParseCdata(r)
      case Err(e) => Err(e)
      case Ok((t, a)) => Prepend(t, [], ParseContent(a, name, depth))
    else if r[0] == '<' then
      match ParseElement(r, depth)
      case Err(e) => Err(e)
      case Ok((n, a)) => Prepend("", [n], ParseContent(a, name, depth))
    else
      match ParseText(r)
      case Err(e) => Err(e)
      case Ok((t, a)) => Prepend(t, [], ParseContent(a, name, depth))
  }

  /** xml_parse. */
  function Parse(input: string, maxSize: nat): Result<Node, Error> {
    if |input| > maxSize then Err(TooLarge)
    else match SkipMisc(input)
         case Err(e) => Err(e)
         case Ok("") => Err(EmptyDocument)
         case Ok(r) =>
           match ParseElement(r, 0)
           case Err(e) => Err(e)
           case Ok((root, a)) =>
             match SkipMisc(a)
             case Err(e) => Err(e)
             case Ok(b) => if b != "" then Err(TrailingContent) else Ok(root)
  }
}
