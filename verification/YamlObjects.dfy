/** The variable expander and the block parser of src/core/config.cc as they run: index and lines change in place. */
module YamlObjects {
  import opened Common
  import opened Yaml
  import opened YamlText

  lemma {:induction false} PrependTextTwice(a: string, b: string, r: Result<string, Error>)
    ensures PrependText(a, PrependText(b, r)) == PrependText(a + b, r)
  {
    if r.Ok? {
      assert a + (b + r.value) == a + b + r.value;
    }
  }

  method FindChar(s: string, start: nat, c: char) returns (k: Option<nat>)
    requires start <= |s|
    ensures k == match IndexOf(s[start..], c) case None => None case Some(j) => Some(start + j)
  {
    var i := start;
    while i < |s|
      invariant start <= i <= |s|
      invariant match IndexOf(s[i..], c)
                case None => IndexOf(s[start..], c).None?
                case Some(j) => IndexOf(s[start..], c) == Some(i - start + j)
    {
      if s[i] == c {
        return Some(i);
      }
      assert s[i..][1..] == s[i + 1..];
      i := i + 1;
    }
    return None;
  }

  /** Expanding from `i` is the piece `v` followed by expanding from `next`, unless `v` is an error. */
  ghost predicate ExpandsTo(s: string, i: nat, v: Result<string, Error>, next: nat, env: map<string, string>) {
    && i <= next <= |s|
    && Expand(s[i..], env) == if v.Err? then v else PrependText(v.value, Expand(s[next..], env))
  }

  lemma {:induction false} VariableFirst(r: string, k: nat, env: map<string, string>)
    requires |r| >= 3 + k && r[0] == '$' && r[1] == '{' && IndexOf(r[2..], '}') == Some(k)
    ensures var v := Variable(r[2..2 + k], env);
            Expand(r, env) == if v.Err? then v else PrependText(v.value, Expand(r[3 + k..], env))
  {
  }

  lemma {:induction false} ExpandsVariable(s: string, i: nat, end: nat, env: map<string, string>)
    requires i + 2 <= end < |s| && s[i] == '$' && s[i + 1] == '{' && IndexOf(s[i + 2..], '}') == Some(end - i - 2)
    ensures ExpandsTo(s, i, Variable(s[i + 2..end], env), end + 1, env)
  {
    var r, k: nat := s[i..], end - i - 2;
    assert r[2..] == s[i + 2..] && r[2..2 + k] == s[i + 2..end] && r[3 + k..] == s[end + 1..];
    VariableFirst(r, k, env);
  }

  lemma {:induction false} ExpandsCharacter(s: string, i: nat, env: map<string, string>)
    requires i < |s|
    requires s[i] == '$' && i + 1 < |s| && s[i + 1] == '{' ==> IndexOf(s[i + 2..], '}').None?
    ensures ExpandsTo(s, i, Ok([s[i]]), i + 1, env)
  {
    var rest := s[i..];
    assert i + 1 < |s| ==> rest[2..] == s[i + 2..];
    assert rest[1..] == s[i + 1..];
  }

  /** The end of the variable reference that starts at `i`, if one does. */
  method FindVariable(s: string, i: nat) returns (end: Option<nat>)
    requires i < |s|
    ensures end.Some? ==> i + 2 <= end.value < |s| && s[i] == '$' && s[i + 1] == '{'
                          && IndexOf(s[i + 2..], '}') == Some(end.value - i - 2)
    ensures end.None? && s[i] == '$' && i + 1 < |s| && s[i + 1] == '{' ==> IndexOf(s[i + 2..], '}').None?
  {
    end := None;
    if s[i] == '$' && i + 1 < |s| && s[i + 1] == '{' {
      end := FindChar(s, i + 2, '}');
    }
  }

  /** One round of expand_env's loop: a variable reference or a single character. */
  method ExpandPiece(s: string, i: nat, env: map<string, string>) returns (v: Result<string, Error>, next: nat)
    requires i < |s|
    ensures i < next && ExpandsTo(s, i, v, next, env)
  {
    var end := FindVariable(s, i);
    if end.None? {
      ExpandsCharacter(s, i, env);
      return Ok([s[i]]), i + 1;
    }
    v, next := VariablePiece(s, i, end.value, env);
  }

  method VariablePiece(s: string, i: nat, end: nat, env: map<string, string>) returns (v: Result<string, Error>, next: nat)
    requires i + 2 <= end < |s| && s[i] == '$' && s[i + 1] == '{' && IndexOf(s[i + 2..], '}') == Some(end - i - 2)
    ensures i < next && ExpandsTo(s, i, v, next, env)
  {
    ExpandsVariable(s, i, end, env);
    return Variable(s[i + 2..end], env), end + 1;
  }

  /** expand_env's loop. */
  method ExpandEnv(s: string, env: map<string, string>) returns (r: Result<string, Error>)
    ensures r == Expand(s, env)
  {
    var out := "";
    var i := 0;
    assert s[0..] == s;
    PrependNoText(Expand(s, env));
    while i < |s|
      invariant i <= |s|
      invariant PrependText(out, Expand(s[i..], env)) == Expand(s, env)
    {
      var v, next := ExpandPiece(s, i, env);
      if v.Err? {
        return v;
      }
      PrependTextTwice(out, v.value, Expand(s[next..], env));
      out, i := out + v.value, next;
    }
    assert out + "" == out;
    return Ok(out);
  }

  lemma {:induction false} PrependNoText(r: Result<string, Error>)
    ensures PrependText("", r) == r
  {
    if r.Ok? {
      assert "" + r.value == r.value;
    }
  }

  /** The first `n` lines are untouched. */
  predicate SameBefore(was: seq<Line>, now: seq<Line>, n: nat) {
    n <= |was| && n <= |now| && now[..n] == was[..n]
  }

  lemma {:induction false} SameBeforeOn(a: seq<Line>, b: seq<Line>, c: seq<Line>, n: nat, m: nat)
    requires SameBefore(a, b, n) && n <= m && SameBefore(b, c, m)
    ensures SameBefore(a, c, n)
  {
    assert c[..n] == c[..m][..n] && b[..n] == b[..m][..n];
  }

  lemma {:induction false} RewriteAfter(a: seq<Line>, b: seq<Line>, n: nat, i: nat, line: Line)
    requires SameBefore(a, b, n) && n <= i < |b|
    ensures SameBefore(a, b[i := line], n)
  {
  }

  class Parser {
    var lines: seq<Line>
    var i: nat
    const env: map<string, string>

    constructor (lines: seq<Line>, env: map<string, string>)
      ensures this.lines == lines && i == 0 && this.env == env
    {
      this.lines, i, this.env := lines, 0, env;
    }

    ghost predicate Valid()
      reads this
    {
      i <= |lines|
    }

    /** The lines still unread. */
    ghost function Rest(): seq<Line>
      requires Valid()
      reads this
    {
      lines[i..]
    }

    /** parse_block: the list branch rewrites the current line and parses it again as a block. */
    method ParseBlock(indent: nat, depth: nat) returns (r: Result<Node, Error>)
      requires Valid() && i < |lines| && lines[i].indent == indent
      modifies this
      ensures Valid() && |lines| == old(|lines|)
      ensures r.Ok? ==> i > old(i)
      ensures old(i) <= i && SameBefore(old(lines), lines, old(i))
      ensures Block(old(Rest()), indent, depth, env) == if r.Ok? then Ok((r.value, Rest())) else Err(r.error)
      decreases |lines| - i, |lines[i].text|, 2
    {
      if depth > MAX_DEPTH {
        return Err(TooDeep);
      }
      if IsItem(lines[i].text) {
        r := ParseList(indent, depth);
      } else {
        r := ParseMap(indent, depth);
      }
    }

    method ParseList(indent: nat, depth: nat) returns (r: Result<Node, Error>)
      requires Valid() && i < |lines| && lines[i].indent == indent && IsItem(lines[i].text)
      modifies this
      ensures Valid() && |lines| == old(|lines|)
      ensures r.Ok? ==> i > old(i)
      ensures old(i) <= i && SameBefore(old(lines), lines, old(i))
      ensures var x := Items(old(Rest()), indent, depth, env);
              if r.Err? then x == Err(r.error) else x.Ok? && r.value == List(x.value.0) && Rest() == x.value.1
      decreases |lines| - i, |lines[i].text|, 1
    {
      var list := [];
      ghost var target := Items(Rest(), indent, depth, env);
      PrependNoNodes(target);
      while i < |lines| && lines[i].indent == indent && IsItem(lines[i].text)
        invariant Valid() && |lines| == old(|lines|) && i >= old(i)
        invariant i == old(i) ==> lines == old(lines)
        invariant SameBefore(old(lines), lines, old(i))
        invariant target == PrependNodes(list, Items(Rest(), indent, depth, env))
        decreases |lines| - i
      {
        ghost var before, at := lines, i;
        var n := ParseItem(indent, depth);
        SameBeforeOn(old(lines), before, lines, old(i), at);
        if n.Err? {
          return Err(n.error);
        }
        PrependNodesTwice(list, [n.value], Items(Rest(), indent, depth, env));
        list := list + [n.value];
      }
      assert list + [] == list;
      return Ok(List(list));
    }

    /** One item: its line is rewritten without the dash and parsed again, as a block two columns further in. */
    method ParseItem(indent: nat, depth: nat) returns (r: Result<Node, Error>)
      requires Valid() && i < |lines| && lines[i].indent == indent && IsItem(lines[i].text)
      modifies this
      ensures Valid() && |lines| == old(|lines|)
      ensures r.Ok? ==> i > old(i)
      ensures old(i) <= i && SameBefore(old(lines), lines, old(i))
      ensures Block(OpenItem(old(Rest()), indent), indent + 2, depth + 1, env) ==
              if r.Ok? then Ok((r.value, Rest())) else Err(r.error)
      decreases |lines| - i, |lines[i].text|, 0
    {
      ghost var was := Rest();
      RewriteAfter(lines, lines, i, i, Line(indent + 2, lines[i].text[2..]));
      lines := lines[i := Line(indent + 2, lines[i].text[2..])];
      assert Rest() == OpenItem(was, indent);
      ghost var before, at := lines, i;
      r := ParseBlock(indent + 2, depth + 1);
      SameBeforeOn(old(lines), before, lines, at, at);
    }

    method ParseEntry(indent: nat, depth: nat) returns (r: Result<(string, Node), Error>)
      requires Valid() && i < |lines|
      modifies this
      ensures Valid() && |lines| == old(|lines|)
      ensures r.Ok? ==> i > old(i)
      ensures old(i) <= i && SameBefore(old(lines), lines, old(i))
      ensures Entry(old(Rest()), indent, depth, env) == if r.Ok? then Ok((r.value, Rest())) else Err(r.error)
      decreases |lines| - i, |lines[i].text|, 0
    {
      var text := lines[i].text;
      assert text[0..] == text;
      var colon := FindChar(text, 0, ':');
      if colon.None? {
        return Err(ExpectedKey);
      }
      var key, val := Trim(text[..colon.value]), Trim(text[colon.value + 1..]);
      assert Rest()[1..] == lines[i + 1..];
      i := i + 1;
      if val != "" {
        var v := ExpandEnv(Unquote(val), env);
        if v.Err? {
          return Err(v.error);
        }
        return Ok((key, Scalar(v.value)));
      }
      if i < |lines| && lines[i].indent > indent {
        r := ParseNested(key, depth);
        return;
      }
      return Ok((key, Map([])));
    }

    /** The block under a key, one level deeper. */
    method ParseNested(key: string, depth: nat) returns (r: Result<(string, Node), Error>)
      requires Valid() && 0 < i < |lines|
      modifies this
      ensures Valid() && |lines| == old(|lines|)
      ensures old(i) <= i && SameBefore(old(lines), lines, old(i) - 1)
      ensures var x := Block(old(Rest()), old(lines[i].indent), depth + 1, env);
              x == if r.Ok? then Ok((r.value.1, Rest())) else Err(r.error)
      ensures r.Ok? ==> r.value.0 == key
      decreases |lines| - i, |lines[i].text|, 3
    {
      ghost var at := i;
      var n := ParseBlock(lines[i].indent, depth + 1);
      SameBeforeOn(old(lines), old(lines), lines, at - 1, at);
      if n.Err? {
        return Err(n.error);
      }
      return Ok((key, n.value));
    }

    method ParseMap(indent: nat, depth: nat) returns (r: Result<Node, Error>)
      requires Valid() && i < |lines| && lines[i].indent == indent && !IsItem(lines[i].text)
      modifies this
      ensures Valid() && |lines| == old(|lines|)
      ensures r.Ok? ==> i > old(i)
      ensures old(i) <= i && SameBefore(old(lines), lines, old(i))
      ensures var x := Entries(old(Rest()), indent, depth, env);
              if r.Err? then x == Err(r.error) else x.Ok? && r.value == Map(x.value.0) && Rest() == x.value.1
      decreases |lines| - i, |lines[i].text|, 1
    {
      var entries := [];
      ghost var target := Entries(Rest(), indent, depth, env);
      PrependNoNodes(target);
      while i < |lines| && lines[i].indent == indent && !IsItem(lines[i].text)
        invariant Valid() && |lines| == old(|lines|) && i >= old(i)
        invariant i == old(i) ==> lines == old(lines)
        invariant SameBefore(old(lines), lines, old(i))
        invariant target == PrependNodes(entries, Entries(Rest(), indent, depth, env))
        decreases |lines| - i
      {
        ghost var before, at := lines, i;
        var kv := ParseEntry(indent, depth);
        SameBeforeOn(old(lines), before, lines, old(i), at);
        if kv.Err? {
          return Err(kv.error);
        }
        PrependNodesTwice(entries, [kv.value], Entries(Rest(), indent, depth, env));
        entries := entries + [kv.value];
      }
      assert entries + [] == entries;
      return Ok(Map(entries));
    }

    /** parse: an unread line is an error. */
    method ParseAll() returns (r: Result<Node, Error>)
      requires i == 0
      modifies this
      ensures r == ParseLines(old(lines), env)
    {
      if lines == [] {
        return Ok(Map([]));
      }
      assert lines[0..] == lines;
      r := ParseBlock(lines[0].indent, 0);
      if r.Ok? && i < |lines| {
        return Err(UnexpectedIndent);
      }
    }
  }

  function PrependNodes<X>(a: seq<X>, r: Result<(seq<X>, seq<Line>), Error>): Result<(seq<X>, seq<Line>), Error> {
    if r.Err? then r else Ok((a + r.value.0, r.value.1))
  }

  lemma {:induction false} PrependNoNodes<X>(r: Result<(seq<X>, seq<Line>), Error>)
    ensures PrependNodes([], r) == r
  {
    if r.Ok? {
      assert [] + r.value.0 == r.value.0;
    }
  }

  lemma {:induction false} PrependNodesTwice<X>(a: seq<X>, b: seq<X>, r: Result<(seq<X>, seq<Line>), Error>)
    ensures PrependNodes(a, PrependNodes(b, r)) == PrependNodes(a + b, r)
  {
    if r.Ok? {
      assert a + (b + r.value.0) == a + b + r.value.0;
    }
  }
}
