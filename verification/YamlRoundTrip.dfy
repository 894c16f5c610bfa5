/** A configuration tree written out line by line is read back as the same tree. */
module YamlRoundTrip {
  import opened Common
  import opened Yaml
  import opened YamlText
  import opened YamlTheorems
  import YamlGrammar

  // ---------------------------------------------------------------- writing

  /** Keys that survive as the part of a line before its first colon. */
  predicate LegalKey(k: string) {
    Tight(k) && ':' !in k && !("- " <= k)
  }

  /** A tree that can stand where a block is expected. */
  predicate IsBlock(n: Node) {
    n.List? || (n.Map? && n.entries != [])
  }

  /** Values hold no variable reference; lists hold blocks only (the subset has no scalar items) and are not empty. */
  ghost predicate Legal(n: Node) {
    match n
    case Scalar(v) => Literal(v)
    case Map(es) => LegalEntries(es)
    case List(ns) => ns != [] && LegalItems(ns)
  }

  ghost predicate LegalEntry(kv: (string, Node)) {
    LegalKey(kv.0) && Legal(kv.1)
  }

  ghost predicate LegalEntries(es: seq<(string, Node)>) {
    es == [] || (LegalEntry(es[0]) && LegalEntries(es[1..]))
  }

  ghost predicate LegalItems(ns: seq<Node>) {
    ns == [] || (IsBlock(ns[0]) && Legal(ns[0]) && LegalItems(ns[1..]))
  }

  /** A value in double quotes, or in single quotes when it holds a double one. */
  function QuoteFor(v: string): char {
    if '"' in v then '\'' else '"'
  }

  function Letters(v: string): seq<Piece> {
    if v == "" then [] else [Piece.Plain(v[0])] + Letters(v[1..])
  }

  function ValueOf(v: string): YamlGrammar.Value {
    YamlGrammar.Quoted(" ", QuoteFor(v), Letters(v), "")
  }

  /** "key: " and the quoted value, or "key:" followed by the nested block two columns further in. */
  function KeyOf(kv: (string, Node)): YamlGrammar.Key {
    var name := YamlGrammar.Cell("", kv.0, "");
    if kv.1.Scalar? then YamlGrammar.Leaf(name, ValueOf(kv.1.value))
    else if IsBlock(kv.1) then YamlGrammar.Branch(name, "", 2, OutlineOf(kv.1))
    else YamlGrammar.Leaf(name, YamlGrammar.Nothing(""))
  }

  function KeysOf(es: seq<(string, Node)>): seq<YamlGrammar.Key> {
    if es == [] then [] else [KeyOf(es[0])] + KeysOf(es[1..])
  }

  function OutlinesOf(ns: seq<Node>): seq<YamlGrammar.Outline> {
    if ns == [] then [] else [OutlineOf(ns[0])] + OutlinesOf(ns[1..])
  }

  /** How a tree is written; only blocks are. */
  function OutlineOf(n: Node): YamlGrammar.Outline {
    match n
    case Scalar(_) => YamlGrammar.Keys([])
    case Map(es) => YamlGrammar.Keys(KeysOf(es))
    case List(ns) => YamlGrammar.Bullets(OutlinesOf(ns))
  }

  function Render(n: Node, indent: nat): seq<Line> {
    YamlGrammar.LinesOf(OutlineOf(n), indent)
  }

  // ---------------------------------------------------------------- what is written is legal and denotes the tree

  lemma {:induction false} LettersExact(v: string, env: map<string, string>)
    ensures PiecesText(Letters(v)) == v && PiecesValue(Letters(v), env) == Ok(v)
  {
    if v != "" {
      LettersExact(v[1..], env);
      assert Letters(v)[1..] == Letters(v[1..]);
      assert [v[0]] + v[1..] == v;
    }
  }

  lemma {:induction false} LettersLegal(v: string)
    requires Literal(v)
    ensures LegalPieces(Letters(v))
  {
    if v != "" {
      var rest := v[1..];
      LiteralRest(v);
      LettersLegal(rest);
      LettersExact(rest, map[]);
      assert Letters(v)[1..] == Letters(rest);
    }
  }

  /** `k` writes `kv` legally. */
  ghost predicate Writes(k: YamlGrammar.Key, kv: (string, Node), env: map<string, string>) {
    YamlGrammar.LegalKey(k) && YamlGrammar.DenotesKey(k, kv, env) && YamlGrammar.DeepKey(k) == HeightEntry(kv)
  }

  lemma {:induction false} KeyNotDashed(k: string, rest: string)
    requires LegalKey(k)
    ensures !("- " <= k + ":" + rest)
  {
    var t := k + ":" + rest;
    assert k == "" ==> t[0] == ':';
    assert |k| == 1 ==> t[1] == ':';
    assert |k| >= 2 ==> t[..2] == k[..2];
  }

  lemma {:induction false} NameLegal(k: string)
    requires LegalKey(k)
    ensures var c := YamlGrammar.Cell("", k, ""); YamlGrammar.LegalCell(c) && YamlGrammar.CellText(c) == k
  {
    assert "" + k + "" == k;
  }

  lemma {:induction false} ValueLegal(v: string)
    requires Literal(v)
    ensures YamlGrammar.LegalValue(ValueOf(v))
  {
    LettersLegal(v);
    var t := YamlGrammar.Written(ValueOf(v)).text;
    assert t[0] == QuoteFor(v) && t[|t| - 1] == QuoteFor(v);
  }

  lemma {:induction false} ScalarWritten(k: string, v: string, env: map<string, string>)
    requires LegalKey(k) && Literal(v)
    ensures Writes(KeyOf((k, Scalar(v))), (k, Scalar(v)), env)
  {
    NameLegal(k);
    ValueLegal(v);
    LettersExact(v, env);
    KeyNotDashed(k, YamlGrammar.CellText(YamlGrammar.Written(ValueOf(v))));
  }

  lemma {:induction false} EntryWritten(kv: (string, Node), env: map<string, string>)
    requires LegalEntry(kv)
    ensures Writes(KeyOf(kv), kv, env)
    decreases kv
  {
    var (k, n) := kv;
    if n.Scalar? {
      ScalarWritten(k, n.value, env);
    } else {
      NameLegal(k);
      KeyNotDashed(k, "");
      if IsBlock(n) {
        TreeWritten(n, env);
      } else {
        assert n.entries == [];
      }
    }
  }

  lemma {:induction false} EntriesWritten(es: seq<(string, Node)>, env: map<string, string>)
    requires LegalEntries(es)
    ensures var ks := KeysOf(es);
            YamlGrammar.LegalKeys(ks) && YamlGrammar.DenotesKeys(ks, es, env) && YamlGrammar.DeepKeys(ks) == HeightEntries(es)
    decreases es
  {
    if es != [] {
      EntryWritten(es[0], env);
      EntriesWritten(es[1..], env);
      assert KeysOf(es)[1..] == KeysOf(es[1..]);
    }
  }

  lemma {:induction false} ItemsWritten(ns: seq<Node>, env: map<string, string>)
    requires LegalItems(ns)
    ensures var os := OutlinesOf(ns);
            YamlGrammar.LegalItems(os) && YamlGrammar.DenotesItems(os, ns, env) && YamlGrammar.DeepItems(os) == HeightItems(ns)
    decreases ns
  {
    if ns != [] {
      TreeWritten(ns[0], env);
      ItemsWritten(ns[1..], env);
      assert OutlinesOf(ns)[1..] == OutlinesOf(ns[1..]);
    }
  }

  lemma {:induction false} TreeWritten(n: Node, env: map<string, string>)
    requires Legal(n) && IsBlock(n)
    ensures var o := OutlineOf(n);
            YamlGrammar.Legal(o) && YamlGrammar.Denotes(o, n, env) && YamlGrammar.Deep(o) == Height(n)
    decreases n
  {
    match n
    case Map(es) => EntriesWritten(es, env);
    case List(ns) => ItemsWritten(ns, env);
  }

  /** Lines written for a legal tree parse back to it, in any environment, exactly when it nests at most 65 blocks. */
  lemma {:induction false} LinesRoundTrip(n: Node, env: map<string, string>)
    requires Legal(n) && IsBlock(n)
    ensures ParseLines(Render(n, 0), env) == if Height(n) <= 65 then Ok(n) else Err(TooDeep)
  {
    TreeWritten(n, env);
    YamlGrammar.BlockReads(OutlineOf(n), n, 0, 0, [], env);
    assert Render(n, 0) + [] == Render(n, 0);
  }

  // ---------------------------------------------------------------- the text

  function TextOf(ls: seq<Line>): string {
    if ls == [] then "" else Spaces(ls[0].indent) + ls[0].text + "\n" + TextOf(ls[1..])
  }

  /** Line contents that no preprocessing touches. */
  predicate Safe(t: string) {
    && t != "" && '\n' !in t && t[|t| - 1] != '\r'
    && Tight(t) && t[0] != '#' && CutComment(t, None, None) == t
  }

  lemma {:induction false} BodyBack(indent: nat, t: string)
    requires Safe(t)
    ensures BodyLine(indent, t) == Ok([Line(indent, t)])
  {
    TightIsTrimmed(t);
    TrimIs(t, t);
  }

  lemma {:induction false} LineBack(l: Line)
    requires Safe(l.text)
    ensures ToLine(Spaces(l.indent) + l.text) == Ok([l])
  {
    var raw := Spaces(l.indent) + l.text;
    assert raw[|raw| - 1] == l.text[|l.text| - 1];
    CoreExact(raw, l.indent, l.text);
    BodyBack(l.indent, l.text);
  }

  lemma {:induction false} NoNewline(n: nat, t: string)
    requires '\n' !in t
    ensures '\n' !in Spaces(n) + t
  {
    if n > 0 {
      NoNewline(n - 1, t);
      assert Spaces(n) + t == " " + (Spaces(n - 1) + t);
    }
  }

  lemma {:induction false} FirstLineBack(l: Line, more: string)
    requires Safe(l.text) && ToLines(more).Ok?
    ensures ToLines(Spaces(l.indent) + l.text + "\n" + more) == Ok([l] + ToLines(more).value)
  {
    var raw := Spaces(l.indent) + l.text;
    var text := raw + "\n" + more;
    NoNewline(l.indent, l.text);
    YamlGrammar.FirstAt(raw, '\n', more);
    assert text[..|raw|] == raw && text[|raw| + 1..] == more;
    LineBack(l);
  }

  lemma {:induction false} LinesBack(ls: seq<Line>)
    requires forall l <- ls :: Safe(l.text)
    ensures ToLines(TextOf(ls)) == Ok(ls)
  {
    if ls != [] {
      LinesBack(ls[1..]);
      FirstLineBack(ls[0], TextOf(ls[1..]));
      assert [ls[0]] + ls[1..] == ls;
    }
  }

  /** Characters with no meaning to the comment and quote scan. */
  predicate Plain(s: string) {
    '#' !in s && '"' !in s && '\'' !in s && '\n' !in s
  }

  lemma {:induction false} CutOne(c: char, r: string, prev: Option<char>)
    requires Plain([c])
    ensures CutComment([c] + r, None, prev) == [c] + CutComment(r, None, Some(c))
  {
    var u := [c] + r;
    assert c in [c] && u[0] == c && u[1..] == r;
  }

  lemma {:induction false} CutPlain(s: string, r: string, prev: Option<char>)
    requires Plain(s)
    ensures CutComment(s + r, None, prev) == s + CutComment(r, None, if s == "" then prev else Some(s[|s| - 1]))
  {
    if s == "" {
      assert s + r == r;
    } else {
      var c, t := s[0], s[1..];
      assert s == [c] + t && c in s;
      CutPlain(t, r, Some(c));
      CutOne(c, t + r, prev);
      Associates([c], t, r);
      Associates([c], t, CutComment(r, None, Some(s[|s| - 1])));
    }
  }

  lemma {:induction false} CutQuoted(v: string, q: char, prev: Option<char>)
    requires q !in v
    ensures CutComment(v + [q], Some(q), prev) == v + [q]
  {
    if v == "" {
      assert v + [q] == [q] && [q][1..] == "";
    } else {
      var u := v + [q];
      assert u[0] == v[0] && v[0] in v && u[1..] == v[1..] + [q];
      CutQuoted(v[1..], q, Some(v[0]));
    }
  }

  function Quoted(v: string): string {
    [QuoteFor(v)] + v + [QuoteFor(v)]
  }

  lemma {:induction false} CutQuotedValue(v: string, prev: Option<char>)
    requires '"' !in v || '\'' !in v
    ensures CutComment(Quoted(v), None, prev) == Quoted(v)
  {
    var q := QuoteFor(v);
    assert Quoted(v)[1..] == v + [q];
    CutQuoted(v, q, Some(q));
  }

  lemma {:induction false} BareLineSafe(k: string)
    requires LegalKey(k) && Plain(k)
    ensures Safe(k + ":")
  {
    var t := k + ":";
    assert t[0] == if k == "" then ':' else k[0];
    assert k != "" ==> k[0] in k;
    CutPlain(t, "", None);
    assert t + "" == t;
  }

  lemma {:induction false} ValueLineUncut(k: string, v: string)
    requires Plain(k) && ('"' !in v || '\'' !in v)
    ensures var t := k + ": " + Quoted(v); CutComment(t, None, None) == t
  {
    var p := k + ": ";
    CutPlain(p, Quoted(v), None);
    CutQuotedValue(v, Some(p[|p| - 1]));
  }

  /** The line of a value is safe when its key is plain and the value has no newline and not both quotes. */
  lemma {:induction false} ValueLineSafe(k: string, v: string)
    requires LegalKey(k) && Plain(k) && ('"' !in v || '\'' !in v) && '\n' !in v
    ensures Safe(k + ": " + Quoted(v))
  {
    var t := k + ": " + Quoted(v);
    assert t[0] == if k == "" then ':' else k[0];
    assert k != "" ==> k[0] in k;
    assert t[|t| - 1] == QuoteFor(v);
    ValueLineUncut(k, v);
  }

  /** What a key line of the written tree is. */
  lemma {:induction false} KeyTextIs(kv: (string, Node))
    ensures YamlGrammar.KeyText(KeyOf(kv)) == if kv.1.Scalar? then kv.0 + ": " + Quoted(kv.1.value) else kv.0 + ":"
  {
    var k := KeyOf(kv);
    assert YamlGrammar.CellText(k.name) == kv.0;
    if kv.1.Scalar? {
      LettersExact(kv.1.value, map[]);
      var q := Quoted(kv.1.value);
      assert YamlGrammar.CellText(YamlGrammar.Written(k.value)) == " " + q;
      assert kv.0 + ":" + (" " + q) == kv.0 + ": " + q;
    } else {
      assert kv.0 + ":" + "" == kv.0 + ":";
    }
  }

  lemma {:induction false} MarkCut(t: string)
    requires t != "" && t[0] != '#' && CutComment(t, None, None) == t
    ensures CutComment("- " + t, None, None) == "- " + t
  {
    assert CutComment(t, None, Some(' ')) == CutComment(t, None, None);
    CutPlain("- ", t, None);
  }

  lemma {:induction false} MarkSafe(t: string)
    requires Safe(t)
    ensures Safe("- " + t)
  {
    MarkCut(t);
    SafeBehind(t, "- " + t);
  }

  /** A dash and a space before safe contents. */
  lemma {:induction false} SafeBehind(t: string, u: string)
    requires Safe(t) && |u| == |t| + 2 && u[0] == '-' && u[1] == ' ' && u[2..] == t
    requires CutComment(u, None, None) == u
    ensures Safe(u)
  {
    assert u[|u| - 1] == t[|t| - 1];
    forall i | 2 <= i < |u| ensures u[i] == t[i - 2] {}
    assert forall c <- u :: c == '-' || c == ' ' || c in t;
  }

  predicate SafeTree(n: Node) {
    match n
    case Scalar(v) => ('"' !in v || '\'' !in v) && '\n' !in v
    case Map(es) => SafeEntries(es)
    case List(ns) => SafeItems(ns)
  }

  predicate SafeEntry(kv: (string, Node)) {
    Plain(kv.0) && SafeTree(kv.1)
  }

  predicate SafeEntries(es: seq<(string, Node)>) {
    es == [] || (SafeEntry(es[0]) && SafeEntries(es[1..]))
  }

  predicate SafeItems(ns: seq<Node>) {
    ns == [] || (SafeTree(ns[0]) && SafeItems(ns[1..]))
  }

  ghost predicate AllSafe(ls: seq<Line>) {
    forall l <- ls :: Safe(l.text)
  }

  lemma {:induction false} RenderSafe(n: Node, indent: nat)
    requires Legal(n) && SafeTree(n)
    ensures AllSafe(Render(n, indent))
    decreases n
  {
    match n
    case Scalar(_) => assert YamlGrammar.KeyLines([], indent) == [];
    case Map(es) => EntriesSafe(es, indent);
    case List(ns) => ItemsSafe(ns, indent);
  }

  lemma {:induction false} EntrySafe(kv: (string, Node), indent: nat)
    requires LegalEntry(kv) && SafeEntry(kv)
    ensures AllSafe(YamlGrammar.KeyLine(KeyOf(kv), indent))
    decreases kv
  {
    KeyTextIs(kv);
    if kv.1.Scalar? {
      ValueLineSafe(kv.0, kv.1.value);
    } else {
      BareLineSafe(kv.0);
      RenderSafe(kv.1, indent + 2);
    }
  }

  lemma {:induction false} EntriesSafe(es: seq<(string, Node)>, indent: nat)
    requires LegalEntries(es) && SafeEntries(es)
    ensures AllSafe(YamlGrammar.KeyLines(KeysOf(es), indent))
    decreases es
  {
    if es != [] {
      EntrySafe(es[0], indent);
      EntriesSafe(es[1..], indent);
      assert KeysOf(es)[1..] == KeysOf(es[1..]);
    }
  }

  lemma {:induction false} MarkedSafe(ls: seq<Line>, indent: nat)
    requires AllSafe(ls)
    ensures AllSafe(YamlGrammar.Mark(ls, indent))
  {
    if ls != [] {
      assert ls[0] in ls;
      MarkSafe(ls[0].text);
      assert forall l <- ls[1..] :: l in ls;
    }
  }

  lemma {:induction false} ItemsSafe(ns: seq<Node>, indent: nat)
    requires LegalItems(ns) && SafeItems(ns)
    ensures AllSafe(YamlGrammar.ItemLines(OutlinesOf(ns), indent))
    decreases ns
  {
    if ns != [] {
      RenderSafe(ns[0], indent + 2);
      MarkedSafe(Render(ns[0], indent + 2), indent);
      ItemsSafe(ns[1..], indent);
      assert OutlinesOf(ns)[1..] == OutlinesOf(ns[1..]);
    }
  }

  /**
    Round trip: a tree with plain keys and values without newlines or both kinds of quote, written as text,
    parses back to itself, in any environment, exactly when it nests at most 65 blocks.
   */
  lemma {:induction false} RoundTrip(n: Node, env: map<string, string>)
    requires Legal(n) && IsBlock(n) && SafeTree(n)
    ensures Parse(TextOf(Render(n, 0)), env) == if Height(n) <= 65 then Ok(n) else Err(TooDeep)
  {
    RenderSafe(n, 0);
    LinesBack(Render(n, 0));
    LinesRoundTrip(n, env);
  }
}
