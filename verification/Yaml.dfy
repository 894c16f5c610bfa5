/**
  The YAML-subset parser of src/core/config.cc as functions. The block parser works on the lines
  still unread; rewriting the current line in place ("- x" becomes "x" indented by two more) is
  rewriting the head of that list. Line numbers only feed error messages and are left out.
 */
module Yaml {
  import opened Common

  datatype Line = Line(indent: nat, text: string)

  datatype Node = Scalar(value: string) | Map(entries: seq<(string, Node)>) | List(items: seq<Node>)

  datatype Error = TabIndentation | TooDeep | ExpectedKey | UndefinedVariable(name: string) | UnexpectedIndent

  /** kMaxDepth. */
  const MAX_DEPTH: nat := 64

  // ---------------------------------------------------------------- text helpers

  predicate IsBlank(c: char) {
    c == ' ' || c == '\t'
  }

  function TrimLeft(s: string): (r: string)
    ensures |r| <= |s|
  {
    if s != "" && IsBlank(s[0]) then TrimLeft(s[1..]) else s
  }

  function TrimRight(s: string): (r: string)
    ensures |r| <= |s|
  {
    if s != "" && IsBlank(s[|s| - 1]) then TrimRight(s[..|s| - 1]) else s
  }

  function Trim(s: string): string {
    TrimRight(TrimLeft(s))
  }

  function Unquote(s: string): string {
    if |s| >= 2 && ((s[0] == '"' && s[|s| - 1] == '"') || (s[0] == '\'' && s[|s| - 1] == '\'')) then s[1..|s| - 1] else s
  }

  function IndexOf(s: string, c: char): (k: Option<nat>)
    ensures k.Some? ==> k.value < |s| && s[k.value] == c
  {
    if s == "" then None
    else if s[0] == c then Some(0)
    else match IndexOf(s[1..], c) case None => None case Some(k) => Some(k + 1)
  }

  /** Where ":-" starts. */
  function DefaultAt(s: string): (k: Option<nat>)
    ensures k.Some? ==> k.value + 2 <= |s|
  {
    if |s| < 2 then None
    else if s[0] == ':' && s[1] == '-' then Some(0)
    else match DefaultAt(s[1..]) case None => None case Some(k) => Some(k + 1)
  }

  /** The value of ${expr}: the variable, else its default, else an error. */
  function Variable(expr: string, env: map<string, string>): Result<string, Error> {
    var d := DefaultAt(expr);
    var name := if d.Some? then expr[..d.value] else expr;
    if name in env then Ok(env[name])
    else if d.Some? then Ok(expr[d.value + 2..])
    else Err(UndefinedVariable(name))
  }

  /** expand_env. */
  function Expand(s: string, env: map<string, string>): Result<string, Error>
    decreases |s|
  {
    if s == "" then Ok("")
    else if |s| >= 2 && s[0] == '$' && s[1] == '{' && IndexOf(s[2..], '}').Some? then
      var end := IndexOf(s[2..], '}').value;
      match Variable(s[2..2 + end], env)
      case Err(e) => Err(e)
      case Ok(v) =>
        match Expand(s[3 + end..], env)
        case Err(e) => Err(e)
        case Ok(r) => Ok(v + r)
    else
      match Expand(s[1..], env)
      case Err(e) => Err(e)
      case Ok(r) => Ok([s[0]] + r)
  }

  // ---------------------------------------------------------------- lines

  function SkipSpaces(s: string): (r: string)
    ensures |r| <= |s|
  {
    if s != "" && s[0] == ' ' then SkipSpaces(s[1..]) else s
  }

  /** The text before an unquoted " #"; `quote` is the open quote, `prev` the character before. */
  function CutComment(s: string, quote: Option<char>, prev: Option<char>): string {
    if s == "" then ""
    else if quote.Some? then [s[0]] + CutComment(s[1..], if s[0] == quote.value then None else quote, Some(s[0]))
    else if s[0] == '"' || s[0] == '\'' then [s[0]] + CutComment(s[1..], Some(s[0]), Some(s[0]))
    else if s[0] == '#' && prev.Some? && IsBlank(prev.value) then ""
    else [s[0]] + CutComment(s[1..], None, Some(s[0]))
  }

  /** A raw line without the carriage return at its end. */
  function Core(raw: string): string {
    if raw != "" && raw[|raw| - 1] == '\r' then raw[..|raw| - 1] else raw
  }

  /** What follows the indentation: a line with its content, or nothing. */
  function BodyLine(indent: nat, body: string): Result<seq<Line>, Error> {
    if body != "" && body[0] == '\t' then Err(TabIndentation)
    else
      var content := Trim(if body != "" && body[0] == '#' then "" else CutComment(body, None, None));
      Ok(if content == "" then [] else [Line(indent, content)])
  }

  /** One raw line: its indentation and content, nothing for blank and comment lines. */
  function ToLine(raw: string): Result<seq<Line>, Error> {
    var body := SkipSpaces(Core(raw));
    BodyLine(|Core(raw)| - |body|, body)
  }

  /** std::getline over the whole text: a final newline does not start another line. */
  function ToLines(text: string): Result<seq<Line>, Error>
    decreases |text|
  {
    if text == "" then Ok([])
    else
      var nl := IndexOf(text, '\n');
      match ToLine(if nl.Some? then text[..nl.value] else text)
      case Err(e) => Err(e)
      case Ok(a) =>
        match ToLines(if nl.Some? then text[nl.value + 1..] else "")
        case Err(e) => Err(e)
        case Ok(b) => Ok(a + b)
  }

  // ---------------------------------------------------------------- blocks

  predicate IsItem(text: string) {
    |text| >= 2 && text[0] == '-' && text[1] == ' '
  }

  /** What remains to be done first: lines, then text of the current line. */
  function HeadSize(ls: seq<Line>): nat {
    if ls == [] then 0 else |ls[0].text|
  }

  /** The current "- x" line as the first line of the item it opens. */
  function OpenItem(ls: seq<Line>, indent: nat): (r: seq<Line>)
    requires ls != [] && IsItem(ls[0].text)
    ensures |r| == |ls| && HeadSize(r) < HeadSize(ls)
  {
    [Line(indent + 2, ls[0].text[2..])] + ls[1..]
  }

  /** parse_block, called at a line whose indentation is `indent`. */
  function Block(ls: seq<Line>, indent: nat, depth: nat, env: map<string, string>): (r: Result<(Node, seq<Line>), Error>)
    requires ls != [] && ls[0].indent == indent
    ensures r.Ok? ==> |r.value.1| < |ls|
    decreases |ls|, HeadSize(ls), 2
  {
    if depth > MAX_DEPTH then Err(TooDeep)
    else if IsItem(ls[0].text) then
      match Items(ls, indent, depth, env)
      case Err(e) => Err(e)
      case Ok((ns, rest)) => Ok((List(ns), rest))
    else
      match Entries(ls, indent, depth, env)
      case Err(e) => Err(e)
      case Ok((es, rest)) => Ok((Map(es), rest))
  }

  predicate AtItem(ls: seq<Line>, indent: nat) {
    ls != [] && ls[0].indent == indent && IsItem(ls[0].text)
  }

  predicate AtEntry(ls: seq<Line>, indent: nat) {
    ls != [] && ls[0].indent == indent && !IsItem(ls[0].text)
  }

  /** The list loop of parse_block. */
  function Items(ls: seq<Line>, indent: nat, depth: nat, env: map<string, string>): (r: Result<(seq<Node>, seq<Line>), Error>)
    ensures r.Ok? ==> |r.value.1| <= |ls| && (AtItem(ls, indent) ==> |r.value.1| < |ls|)
    decreases |ls|, HeadSize(ls), 1
  {
    if !AtItem(ls, indent) then Ok(([], ls))
    else
      match Block(OpenItem(ls, indent), indent + 2, depth + 1, env)
      case Err(e) => Err(e)
      case Ok((n, a)) =>
        match Items(a, indent, depth, env)
        case Err(e) => Err(e)
        case Ok((ns, rest)) => Ok(([n] + ns, rest))
  }

  /** One "key:" line with its value or nested block. */
  function Entry(ls: seq<Line>, indent: nat, depth: nat, env: map<string, string>): (r: Result<((string, Node), seq<Line>), Error>)
    requires ls != []
    ensures r.Ok? ==> |r.value.1| < |ls|
    decreases |ls|, HeadSize(ls), 0
  {
    var text := ls[0].text;
    match IndexOf(text, ':')
    case None => Err(ExpectedKey)
    case Some(colon) =>
      var key, val := Trim(text[..colon]), Trim(text[colon + 1..]);
      var next := ls[1..];
      if val != "" then
        match Expand(Unquote(val), env)
        case Err(e) => Err(e)
        case Ok(v) => Ok(((key, Scalar(v)), next))
      else if next != [] && next[0].indent > indent then
        match Block(next, next[0].indent, depth + 1, env)
        case Err(e) => Err(e)
        case Ok((n, rest)) => Ok(((key, n), rest))
      else Ok(((key, Map([])), next))
  }

  /** The map loop of parse_block. */
  function Entries(ls: seq<Line>, indent: nat, depth: nat, env: map<string, string>): (r: Result<(seq<(string, Node)>, seq<Line>), Error>)
    ensures r.Ok? ==> |r.value.1| <= |ls| && (AtEntry(ls, indent) ==> |r.value.1| < |ls|)
    decreases |ls|, HeadSize(ls), 1
  {
    if !AtEntry(ls, indent) then Ok(([], ls))
    else
      match Entry(ls, indent, depth, env)
      case Err(e) => Err(e)
      case Ok((kv, a)) =>
        match Entries(a, indent, depth, env)
        case Err(e) => Err(e)
        case Ok((es, rest)) => Ok(([kv] + es, rest))
  }

  /** Parser::parse: every line must have been consumed. */
  function ParseLines(ls: seq<Line>, env: map<string, string>): Result<Node, Error> {
    if ls == [] then Ok(Map([]))
    else
      match Block(ls, ls[0].indent, 0, env)
      case Err(e) => Err(e)
      case Ok((n, rest)) => if rest != [] then Err(UnexpectedIndent) else Ok(n)
  }

  /** yaml_parse. */
  function Parse(text: string, env: map<string, string>): Result<Node, Error> {
    match ToLines(text)
    case Err(e) => Err(e)
    case Ok(ls) => ParseLines(ls, env)
  }
}
