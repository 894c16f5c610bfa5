/** What trimming, quoting, variables and comments of src/core/config.cc mean, stated on positions and code points. */
module YamlText {
  import opened Common
  import opened Yaml

  // ---------------------------------------------------------------- blanks and quotes

  /** Space and tab. */
  predicate BlankCode(n: int) {
    n == 32 || n == 9
  }

  lemma BlankExact(c: char)
    ensures IsBlank(c) <==> BlankCode(c as int)
  {
  }

  /** `i`, `j` enclose the part of `s` between its leading and trailing blanks. */
  ghost predicate Edges(s: string, i: nat, j: nat) {
    && i <= j <= |s|
    && (i < j ==> !BlankCode(s[i] as int) && !BlankCode(s[j - 1] as int))
    && (forall x :: 0 <= x < i ==> BlankCode(s[x] as int))
    && (forall x :: j <= x < |s| ==> BlankCode(s[x] as int))
  }

  ghost predicate IsTrimmed(s: string, t: string) {
    exists i: nat, j: nat :: Edges(s, i, j) && t == s[i..j]
  }

  lemma {:induction false} LeftEdge(s: string) returns (i: nat)
    ensures i <= |s| && TrimLeft(s) == s[i..]
    ensures (forall x :: 0 <= x < i ==> BlankCode(s[x] as int)) && (i < |s| ==> !BlankCode(s[i] as int))
  {
    if s != "" && IsBlank(s[0]) {
      var k := LeftEdge(s[1..]);
      i := k + 1;
      assert s[1..][k..] == s[i..];
      forall x | 0 <= x < i ensures BlankCode(s[x] as int) {
        assert x > 0 ==> s[x] == s[1..][x - 1];
      }
    } else {
      i := 0;
    }
  }

  lemma {:induction false} RightEdge(s: string) returns (j: nat)
    ensures j <= |s| && TrimRight(s) == s[..j]
    ensures (forall x :: j <= x < |s| ==> BlankCode(s[x] as int)) && (j > 0 ==> !BlankCode(s[j - 1] as int))
  {
    if s != "" && IsBlank(s[|s| - 1]) {
      var t := s[..|s| - 1];
      j := RightEdge(t);
      assert t[..j] == s[..j];
      forall x | j <= x < |s| ensures BlankCode(s[x] as int) {
        assert x < |t| ==> s[x] == t[x];
      }
    } else {
      j := |s|;
    }
  }

  /** trim cuts the outer spaces and tabs and nothing else. */
  lemma {:induction false} TrimExact(s: string)
    ensures IsTrimmed(s, Trim(s))
  {
    var i := LeftEdge(s);
    var t := s[i..];
    var k := RightEdge(t);
    var j := i + k;
    assert t[..k] == s[i..j];
    forall x | j <= x < |s| ensures BlankCode(s[x] as int) {
      assert s[x] == t[x - i];
    }
    assert k > 0 ==> t[k - 1] == s[j - 1] && t[0] == s[i];
    assert Edges(s, i, j);
  }

  lemma {:induction false} TrimmedIsUnique(s: string, t: string, u: string)
    requires IsTrimmed(s, t) && IsTrimmed(s, u)
    ensures t == u
  {
    var i: nat, j: nat :| Edges(s, i, j) && t == s[i..j];
    var k: nat, l: nat :| Edges(s, k, l) && u == s[k..l];
    assert i < j || k < l ==> i == k && j == l;
  }

  lemma {:induction false} TrimIs(s: string, t: string)
    requires IsTrimmed(s, t)
    ensures Trim(s) == t
  {
    TrimExact(s);
    TrimmedIsUnique(s, t, Trim(s));
  }

  /** A text that begins and ends with something else than a blank. */
  predicate Tight(t: string) {
    t != "" ==> !BlankCode(t[0] as int) && !BlankCode(t[|t| - 1] as int)
  }

  lemma {:induction false} TightIsTrimmed(t: string)
    requires Tight(t)
    ensures IsTrimmed(t, t)
  {
    assert Edges(t, 0, |t|) && t[0..|t|] == t;
  }

  predicate IsQuote(c: char) {
    c as int == 34 || c as int == 39
  }

  /** A value between two quotes of one kind stands for what they enclose; any other value for itself. */
  ghost predicate IsUnquoted(s: string, u: string) {
    if |s| >= 2 && IsQuote(s[0]) && s[|s| - 1] == s[0] then s == [s[0]] + u + [s[0]] else u == s
  }

  lemma {:induction false} UnquoteExact(s: string, u: string)
    ensures Unquote(s) == u <==> IsUnquoted(s, u)
  {
    if |s| >= 2 && IsQuote(s[0]) && s[|s| - 1] == s[0] {
      assert s == [s[0]] + s[1..|s| - 1] + [s[0]];
      assert s == [s[0]] + u + [s[0]] ==> u == s[1..|s| - 1];
    }
  }

  // ---------------------------------------------------------------- variables

  /** No reference starts with `c` before `rest`: it is no "${" with a "}" after it. */
  predicate NoReference(c: char, rest: string) {
    !(c == '$' && rest != "" && rest[0] == '{' && '}' in rest[1..])
  }

  /** `s` holds no variable reference. */
  ghost predicate Literal(s: string) {
    forall i :: 0 <= i < |s| ==> NoReference(s[i], s[i + 1..])
  }

  /** ":-" does not occur in `name` followed by `tail`, up to where the name ends. */
  ghost predicate NoDefaultIn(name: string, tail: string) {
    forall i :: 0 <= i < |name| && i + 1 < |name + tail| ==> !(name[i] == ':' && (name + tail)[i + 1] == '-')
  }

  /** An already expanded piece in front of the rest. */
  function PrependText(a: string, r: Result<string, Error>): Result<string, Error> {
    match r
    case Err(e) => Err(e)
    case Ok(b) => Ok(a + b)
  }

  lemma {:induction false} BraceAt(e: string, r: string)
    requires '}' !in e
    ensures IndexOf(e + "}" + r, '}') == Some(|e|)
  {
    var u := e + "}" + r;
    if e != "" {
      assert u[0] == e[0] && e[0] in e;
      assert u[1..] == e[1..] + "}" + r;
      BraceAt(e[1..], r);
    }
  }

  lemma {:induction false} BraceMissing(s: string)
    ensures IndexOf(s, '}').None? <==> '}' !in s
  {
    if s != "" {
      assert s == [s[0]] + s[1..];
      BraceMissing(s[1..]);
    }
  }

  lemma {:induction false} DefaultStarts(name: string, d: string)
    requires NoDefaultIn(name, ":-")
    ensures DefaultAt(name + ":-" + d) == Some(|name|)
  {
    var u := name + ":-" + d;
    if name != "" {
      assert u[0] == name[0] && u[1] == (name + ":-")[1];
      var more := name[1..];
      assert u[1..] == more + ":-" + d;
      assert NoDefaultIn(more, ":-") by {
        forall i | 0 <= i < |more| && i + 1 < |more + ":-"| ensures !(more[i] == ':' && (more + ":-")[i + 1] == '-') {
          assert more[i] == name[i + 1] && (more + ":-")[i + 1] == (name + ":-")[i + 2];
        }
      }
      DefaultStarts(more, d);
    } else {
      assert u[0] == ':' && u[1] == '-';
    }
  }

  lemma {:induction false} DefaultMissing(name: string)
    requires NoDefaultIn(name, "")
    ensures DefaultAt(name).None?
  {
    if |name| >= 2 {
      var more := name[1..];
      assert name + "" == name && more + "" == more;
      assert !(name[0] == ':' && name[1] == '-');
      assert NoDefaultIn(more, "") by {
        forall i | 0 <= i < |more| && i + 1 < |more + ""| ensures !(more[i] == ':' && (more + "")[i + 1] == '-') {
          assert more[i] == name[i + 1] && (more + "")[i + 1] == (name + "")[i + 2];
        }
      }
      DefaultMissing(more);
    }
  }

  /** What stands between the braces is one reference, and the rest goes on. */
  lemma {:induction false} ReferenceFirst(e: string, rest: string, env: map<string, string>)
    requires '}' !in e
    ensures Expand("${" + e + "}" + rest, env) ==
            var v := Variable(e, env); if v.Err? then Err(v.error) else PrependText(v.value, Expand(rest, env))
  {
    var s := "${" + e + "}" + rest;
    assert s[0] == '$' && s[1] == '{' && s[2..] == e + "}" + rest;
    BraceAt(e, rest);
    assert s[2..2 + |e|] == e && s[3 + |e|..] == rest;
  }

  /** "${NAME}" is the value of a defined variable, and an error naming the variable otherwise. */
  lemma {:induction false} VariableExpands(name: string, rest: string, env: map<string, string>)
    requires '}' !in name && NoDefaultIn(name, "")
    ensures Expand("${" + name + "}" + rest, env) ==
            if name in env then PrependText(env[name], Expand(rest, env)) else Err(UndefinedVariable(name))
  {
    DefaultMissing(name);
    ReferenceFirst(name, rest, env);
  }

  /** "${NAME:-default}" is the value of a defined variable, and the default otherwise. */
  lemma {:induction false} DefaultExpands(name: string, d: string, rest: string, env: map<string, string>)
    requires '}' !in name && '}' !in d && NoDefaultIn(name, ":-")
    ensures Expand("${" + (name + ":-" + d) + "}" + rest, env) ==
            PrependText(if name in env then env[name] else d, Expand(rest, env))
  {
    var e := name + ":-" + d;
    DefaultStarts(name, d);
    assert e[..|name|] == name && e[|name| + 2..] == d;
    ReferenceFirst(e, rest, env);
  }

  /** Anything else stands for itself, one character at a time. */
  lemma {:induction false} CharacterExpands(c: char, rest: string, env: map<string, string>)
    requires NoReference(c, rest)
    ensures Expand([c] + rest, env) == PrependText([c], Expand(rest, env))
  {
    var s := [c] + rest;
    assert s[1..] == rest && (rest != "" ==> s[2..] == rest[1..] && s[1] == rest[0]);
    if rest != "" { BraceMissing(rest[1..]); }
  }

  /** The three cases are all there are. */
  lemma {:induction false} ReferenceOrCharacter(s: string) returns (name: string, d: Option<string>, rest: string)
    requires s != "" && !NoReference(s[0], s[1..])
    ensures '}' !in name && (d.Some? ==> '}' !in d.value) && |rest| < |s|
    ensures if d.Some? then NoDefaultIn(name, ":-") && s == "${" + (name + ":-" + d.value) + "}" + rest
            else NoDefaultIn(name, "") && s == "${" + name + "}" + rest
  {
    var e;
    e, rest := SplitAtBrace(s[2..]);
    assert s[1..][0] == '{' && s[1..][1..] == s[2..];
    assert s == "${" + s[2..];
    var k := DefaultSplit(e);
    if k.Some? {
      name, d := e[..k.value], Some(e[k.value + 2..]);
      assert e == name + ":-" + d.value;
      assert forall c <- name :: c in e;
      assert forall c <- d.value :: c in e;
    } else {
      name, d := e, None;
    }
    assert s == "${" + e + "}" + rest;
  }

  lemma {:induction false} SplitAtBrace(s: string) returns (e: string, rest: string)
    requires '}' in s
    ensures '}' !in e && s == e + "}" + rest
  {
    if s[0] == '}' {
      e, rest := "", s[1..];
    } else {
      assert s == [s[0]] + s[1..];
      var f;
      f, rest := SplitAtBrace(s[1..]);
      e := [s[0]] + f;
    }
  }

  /** The first ":-" of `e`, if there is one. */
  lemma {:induction false} DefaultSplit(e: string) returns (k: Option<nat>)
    ensures k.None? ==> NoDefaultIn(e, "")
    ensures k.Some? ==> k.value + 2 <= |e| && e[k.value..k.value + 2] == ":-" && NoDefaultIn(e[..k.value], ":-")
  {
    if |e| < 2 {
      k := None;
    } else if e[0] == ':' && e[1] == '-' {
      k := Some(0);
      assert e[0..2] == ":-";
    } else {
      var t := e[1..];
      var j := DefaultSplit(t);
      if j.None? {
        k := None;
        assert e + "" == e && t + "" == t;
        forall i | 0 <= i < |e| && i + 1 < |e + ""| ensures !(e[i] == ':' && (e + "")[i + 1] == '-') {
          if i > 0 { assert e[i] == t[i - 1] && (e + "")[i + 1] == (t + "")[i]; }
        }
      } else {
        k := Some(j.value + 1);
        DefaultOneOn(e, t, j.value);
      }
    }
  }

  lemma {:induction false} DefaultOneOn(e: string, t: string, j: nat)
    requires |e| >= 2 && t == e[1..] && !(e[0] == ':' && e[1] == '-')
    requires j + 2 <= |t| && t[j..j + 2] == ":-" && NoDefaultIn(t[..j], ":-")
    ensures e[j + 1..j + 3] == ":-" && NoDefaultIn(e[..j + 1], ":-")
  {
    assert e[j + 1..j + 3] == t[j..j + 2];
    var a, b := e[..j + 1], t[..j];
    forall i | 0 <= i < |a| && i + 1 < |a + ":-"| ensures !(a[i] == ':' && (a + ":-")[i + 1] == '-') {
      if i > 0 {
        assert a[i] == b[i - 1] && (a + ":-")[i + 1] == (b + ":-")[i];
      } else {
        assert j == 0 ==> (a + ":-")[1] == ':';
        assert j > 0 ==> (a + ":-")[1] == e[1];
      }
    }
  }

  // ---------------------------------------------------------------- values as a sequence of pieces

  /** A character, a reference without a default, or one with a default. */
  datatype Piece = Plain(c: char) | Reference(name: string) | Optional(name: string, default: string)

  function PieceText(p: Piece): string {
    match p
    case Plain(c) => [c]
    case Reference(name) => "${" + name + "}"
    case Optional(name, d) => "${" + (name + ":-" + d) + "}"
  }

  function PiecesText(ps: seq<Piece>): string {
    if ps == [] then "" else PieceText(ps[0]) + PiecesText(ps[1..])
  }

  ghost predicate LegalPiece(p: Piece, rest: string) {
    match p
    case Plain(c) => NoReference(c, rest)
    case Reference(name) => '}' !in name && NoDefaultIn(name, "")
    case Optional(name, d) => '}' !in name && '}' !in d && NoDefaultIn(name, ":-")
  }

  ghost predicate LegalPieces(ps: seq<Piece>) {
    ps == [] || (LegalPiece(ps[0], PiecesText(ps[1..])) && LegalPieces(ps[1..]))
  }

  function PieceValue(p: Piece, env: map<string, string>): Result<string, Error> {
    match p
    case Plain(c) => Ok([c])
    case Reference(name) => if name in env then Ok(env[name]) else Err(UndefinedVariable(name))
    case Optional(name, d) => Ok(if name in env then env[name] else d)
  }

  /** The values of the pieces in order, or the error of the first undefined variable. */
  function PiecesValue(ps: seq<Piece>, env: map<string, string>): Result<string, Error> {
    if ps == [] then Ok("")
    else
      var v := PieceValue(ps[0], env);
      if v.Err? then v else PrependText(v.value, PiecesValue(ps[1..], env))
  }

  lemma {:induction false} PieceExpands(p: Piece, rest: string, env: map<string, string>)
    requires LegalPiece(p, rest)
    ensures var v := PieceValue(p, env);
            Expand(PieceText(p) + rest, env) == if v.Err? then v else PrependText(v.value, Expand(rest, env))
  {
    match p
    case Plain(c) => CharacterExpands(c, rest, env);
    case Reference(name) => VariableExpands(name, rest, env);
    case Optional(name, d) => DefaultExpands(name, d, rest, env);
  }

  lemma {:induction false} PiecesExpand(ps: seq<Piece>, env: map<string, string>)
    requires LegalPieces(ps)
    ensures Expand(PiecesText(ps), env) == PiecesValue(ps, env)
  {
    if ps != [] {
      PiecesExpand(ps[1..], env);
      PieceExpands(ps[0], PiecesText(ps[1..]), env);
    }
  }

  lemma {:induction false} PieceFirst(s: string) returns (p: Piece, rest: string)
    requires s != ""
    ensures LegalPiece(p, rest) && s == PieceText(p) + rest && |rest| < |s|
  {
    if NoReference(s[0], s[1..]) {
      p, rest := Plain(s[0]), s[1..];
      assert s == [s[0]] + s[1..];
    } else {
      var name, d;
      name, d, rest := ReferenceOrCharacter(s);
      p := if d.Some? then Optional(name, d.value) else Reference(name);
    }
  }

  lemma {:induction false} PiecesOf(s: string) returns (ps: seq<Piece>)
    ensures LegalPieces(ps) && PiecesText(ps) == s
    decreases |s|
  {
    if s == "" {
      ps := [];
    } else {
      var p, rest := PieceFirst(s);
      var more := PiecesOf(rest);
      ps := [p] + more;
      assert ps[1..] == more;
    }
  }

  /** `s` consists of legal pieces whose values in order are `v`, or whose first undefined variable is the error `v`. */
  ghost predicate Expands(s: string, env: map<string, string>, v: Result<string, Error>) {
    exists ps :: LegalPieces(ps) && PiecesText(ps) == s && PiecesValue(ps, env) == v
  }

  /** expand_env on every text: the value of each piece, or the error of the first variable that has none. */
  lemma {:induction false} ExpandExact(s: string, env: map<string, string>, v: Result<string, Error>)
    ensures Expand(s, env) == v <==> Expands(s, env, v)
  {
    if Expand(s, env) == v {
      var ps := PiecesOf(s);
      PiecesExpand(ps, env);
    }
    if Expands(s, env, v) {
      var ps :| LegalPieces(ps) && PiecesText(ps) == s && PiecesValue(ps, env) == v;
      PiecesExpand(ps, env);
    }
  }

  lemma {:induction false} LiteralRest(s: string)
    requires Literal(s) && s != ""
    ensures NoReference(s[0], s[1..]) && Literal(s[1..])
  {
    var rest := s[1..];
    forall i | 0 <= i < |rest| ensures NoReference(rest[i], rest[i + 1..]) {
      assert rest[i] == s[i + 1] && rest[i + 1..] == s[i + 2..];
    }
  }

  /** A text without a reference expands to itself, whatever the environment. */
  lemma {:induction false} LiteralExpands(s: string, env: map<string, string>)
    requires Literal(s)
    ensures Expand(s, env) == Ok(s)
  {
    if s != "" {
      var rest := s[1..];
      LiteralRest(s);
      LiteralExpands(rest, env);
      CharacterExpands(s[0], rest, env);
      assert [s[0]] + rest == s;
    }
  }

  // ---------------------------------------------------------------- comments

  /** The quote that is open before position `i`. */
  function OpenQuote(s: string, i: nat): Option<char>
    requires i <= |s|
  {
    if i == 0 then None
    else
      var c := s[i - 1];
      match OpenQuote(s, i - 1)
      case Some(q) => if c == q then None else Some(q)
      case None => if IsQuote(c) then Some(c) else None
  }

  /** A # after a blank, outside quotes. */
  predicate CommentAt(s: string, i: nat) {
    0 < i < |s| && s[i] == '#' && BlankCode(s[i - 1] as int) && OpenQuote(s, i).None?
  }

  /** `k` is where the content ends: at the first comment, or at the end. */
  ghost predicate ContentEnd(s: string, k: nat) {
    k <= |s| && (k < |s| ==> CommentAt(s, k)) && forall i: nat :: i < k ==> !CommentAt(s, i)
  }

  function Previous(s: string, i: nat): Option<char>
    requires i <= |s|
  {
    if i == 0 then None else Some(s[i - 1])
  }

  lemma {:induction false} CutFrom(s: string, i: nat, k: nat)
    requires ContentEnd(s, k) && i <= k
    ensures CutComment(s[i..], OpenQuote(s, i), Previous(s, i)) == s[i..k]
    decreases k - i
  {
    if i == k {
      if k < |s| {
        assert s[i..][0] == s[k];
        BlankExact(s[k - 1]);
      }
    } else {
      assert s[i..][0] == s[i] && s[i..][1..] == s[i + 1..];
      assert !CommentAt(s, i);
      if i > 0 { BlankExact(s[i - 1]); }
      CutFrom(s, i + 1, k);
      assert s[i..k] == [s[i]] + s[i + 1..k];
    }
  }

  /** The comment is cut off where the first unquoted # after a blank stands. */
  lemma {:induction false} CutExact(s: string, k: nat)
    requires ContentEnd(s, k)
    ensures CutComment(s, None, None) == s[..k]
  {
    CutFrom(s, 0, k);
    assert s[0..] == s && s[0..k] == s[..k];
  }

  lemma {:induction false} ContentEnds(s: string) returns (k: nat)
    ensures ContentEnd(s, k)
  {
    k := 0;
    while k < |s| && !CommentAt(s, k)
      invariant k <= |s| && forall i: nat :: i < k ==> !CommentAt(s, i)
    {
      k := k + 1;
    }
  }

  // ---------------------------------------------------------------- lines

  function Spaces(n: nat): string {
    if n == 0 then "" else " " + Spaces(n - 1)
  }

  lemma {:induction false} SpacesSkipped(n: nat, t: string)
    requires t == "" || t[0] != ' '
    ensures SkipSpaces(Spaces(n) + t) == t && |Spaces(n)| == n
  {
    if n == 0 {
      assert Spaces(n) + t == t;
    } else {
      assert (Spaces(n) + t)[1..] == Spaces(n - 1) + t;
      SpacesSkipped(n - 1, t);
    }
  }

  lemma {:induction false} SpacesFirst(s: string) returns (n: nat)
    ensures s == Spaces(n) + SkipSpaces(s) && (SkipSpaces(s) == "" || SkipSpaces(s)[0] != ' ')
  {
    if s != "" && s[0] == ' ' {
      var k := SpacesFirst(s[1..]);
      n := k + 1;
      assert s == [s[0]] + s[1..];
      Associates(" ", Spaces(k), SkipSpaces(s));
    } else {
      n := 0;
      assert Spaces(0) + s == s;
    }
  }

  /** A raw line in its parts: a carriage return at the end is no content, all leading spaces are indentation. */
  ghost predicate Parts(raw: string, indent: nat, body: string) {
    && (body == "" || body[0] != ' ')
    && (raw == Spaces(indent) + body + "\r" || (raw == Spaces(indent) + body && (raw == "" || raw[|raw| - 1] != '\r')))
  }

  /** The content of a line's body: nothing if it is a comment, else what precedes its first comment, trimmed. */
  ghost predicate ContentOf(body: string, t: string) {
    if body != "" && body[0] == '#' then t == "" else exists k: nat :: ContentEnd(body, k) && IsTrimmed(body[..k], t)
  }

  /** What a raw line amounts to: an error for a tab after the indentation, nothing without content, else one line. */
  ghost predicate LineMeans(raw: string, r: Result<seq<Line>, Error>) {
    exists indent: nat, body: string ::
      Parts(raw, indent, body) && BodyMeans(indent, body, r)
  }

  ghost predicate BodyMeans(indent: nat, body: string, r: Result<seq<Line>, Error>) {
    if body != "" && body[0] as int == 9 then r == Err(TabIndentation)
    else exists t :: ContentOf(body, t) && r == Ok(if t == "" then [] else [Line(indent, t)])
  }

  lemma {:induction false} ContentExact(body: string, t: string)
    ensures ContentOf(body, t) <==>
            t == Trim(if body != "" && body[0] == '#' then "" else CutComment(body, None, None))
  {
    if body != "" && body[0] == '#' {
      assert Trim("") == "";
    } else {
      var k := ContentEnds(body);
      CutExact(body, k);
      TrimExact(body[..k]);
      if ContentOf(body, t) {
        var j: nat :| ContentEnd(body, j) && IsTrimmed(body[..j], t);
        CutExact(body, j);
        TrimIs(body[..j], t);
      }
    }
  }

  lemma {:induction false} CoreExact(raw: string, indent: nat, body: string)
    requires Parts(raw, indent, body)
    ensures SkipSpaces(Core(raw)) == body && |Core(raw)| - |body| == indent
  {
    var t := Spaces(indent) + body;
    if raw == t + "\r" {
      assert raw[|raw| - 1] == '\r' && raw[..|raw| - 1] == t;
    }
    SpacesSkipped(indent, body);
  }

  lemma {:induction false} BodyLineExact(indent: nat, body: string, r: Result<seq<Line>, Error>)
    ensures r == BodyLine(indent, body) <==> BodyMeans(indent, body, r)
  {
    var content := Trim(if body != "" && body[0] == '#' then "" else CutComment(body, None, None));
    assert ContentOf(body, content) by { ContentExact(body, content); }
    forall t | ContentOf(body, t) ensures t == content { ContentExact(body, t); }
  }

  lemma {:induction false} BodyExact(raw: string, indent: nat, body: string, r: Result<seq<Line>, Error>)
    requires Parts(raw, indent, body)
    ensures ToLine(raw) == r <==> BodyMeans(indent, body, r)
  {
    CoreExact(raw, indent, body);
    BodyLineExact(indent, body, r);
  }

  lemma {:induction false} PartsOf(raw: string) returns (indent: nat, body: string)
    ensures Parts(raw, indent, body)
  {
    var core := Core(raw);
    indent := SpacesFirst(core);
    body := SkipSpaces(core);
    assert core != raw ==> raw == core + "\r";
  }

  /** to_lines on one raw line. */
  lemma {:induction false} LineExact(raw: string, r: Result<seq<Line>, Error>)
    ensures ToLine(raw) == r <==> LineMeans(raw, r)
  {
    var indent, body := PartsOf(raw);
    BodyExact(raw, indent, body, r);
    if LineMeans(raw, r) {
      var i: nat, b: string :| Parts(raw, i, b) && BodyMeans(i, b, r);
      BodyExact(raw, i, b, r);
    }
  }
}
