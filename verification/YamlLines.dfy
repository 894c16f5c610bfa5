/** The line reader of src/core/config.cc as it runs: one pass over the text, one scan per line. */
module YamlLines {
  import opened Common
  import opened Yaml
  import opened YamlObjects
  import opened YamlText

  /** The scan for an unquoted " #". */
  method StripComment(content: string) returns (r: string)
    ensures r == CutComment(content, None, None)
  {
    var quote: Option<char> := None;
    var j := 0;
    assert content[0..] == content && "" + content == content;
    while j < |content|
      invariant j <= |content|
      invariant content[..j] + CutComment(content[j..], quote, Previous(content, j)) == CutComment(content, None, None)
    {
      var c := content[j];
      assert content[j..][0] == c && content[j..][1..] == content[j + 1..];
      ghost var rest := content[j + 1..];
      if quote.Some? {
        if c == quote.value {
          quote := None;
        }
      } else if c == '"' || c == '\'' {
        quote := Some(c);
      } else if c == '#' && j > 0 && IsBlank(content[j - 1]) {
        assert content[..j] + "" == content[..j];
        return content[..j];
      }
      OneCharacterOn(content, j, CutComment(rest, quote, Some(c)));
      j := j + 1;
    }
    assert content[..j] + "" == content;
    return content;
  }

  lemma {:induction false} OneCharacterOn(s: string, j: nat, tail: string)
    requires j < |s|
    ensures s[..j] + ([s[j]] + tail) == s[..j + 1] + tail
  {
    assert s[..j + 1] == s[..j] + [s[j]];
  }

  /** The body of to_lines' loop: a line with content, or none. */
  method ReadLine(text: string) returns (r: Result<seq<Line>, Error>)
    ensures r == ToLine(text)
  {
    var raw := text;
    if raw != "" && raw[|raw| - 1] == '\r' {
      raw := raw[..|raw| - 1];
    }
    var indent := 0;
    assert raw[0..] == raw;
    while indent < |raw| && raw[indent] == ' '
      invariant indent <= |raw| && SkipSpaces(raw[indent..]) == SkipSpaces(raw)
    {
      assert raw[indent..][1..] == raw[indent + 1..];
      indent := indent + 1;
    }
    var content := raw[indent..];
    assert SkipSpaces(content) == content;
    if content != "" && content[0] == '\t' {
      return Err(TabIndentation);
    }
    if content != "" && content[0] == '#' {
      content := "";
    } else {
      content := StripComment(content);
    }
    content := Trim(content);
    return Ok(if content == "" then [] else [Line(indent, content)]);
  }

  function PrependLines(a: seq<Line>, r: Result<seq<Line>, Error>): Result<seq<Line>, Error> {
    match r
    case Err(e) => Err(e)
    case Ok(b) => Ok(a + b)
  }

  lemma {:induction false} PrependLinesTwice(a: seq<Line>, b: seq<Line>, r: Result<seq<Line>, Error>)
    ensures PrependLines(a, PrependLines(b, r)) == PrependLines(a + b, r)
  {
    if r.Ok? {
      assert a + (b + r.value) == a + b + r.value;
    }
  }

  /** Reading the lines from `at` is `line` followed by reading them from `next`, unless `line` is an error. */
  ghost predicate LineTo(text: string, at: nat, line: Result<seq<Line>, Error>, next: nat) {
    && at <= next <= |text|
    && ToLines(text[at..]) == if line.Err? then line else PrependLines(line.value, ToLines(text[next..]))
  }

  lemma {:induction false} LineWithEnd(r: string, j: nat)
    requires r != "" && IndexOf(r, '\n') == Some(j)
    ensures var line := ToLine(r[..j]);
            ToLines(r) == if line.Err? then line else PrependLines(line.value, ToLines(r[j + 1..]))
  {
  }

  lemma {:induction false} LineAtEnd(r: string)
    requires r != "" && IndexOf(r, '\n').None?
    ensures var line := ToLine(r); ToLines(r) == if line.Err? then line else PrependLines(line.value, ToLines(""))
  {
  }

  /** std::getline from `at`, and the loop's body on what it read. */
  method GetLine(text: string, at: nat) returns (line: Result<seq<Line>, Error>, next: nat)
    requires at < |text|
    ensures at < next && LineTo(text, at, line, next)
  {
    var nl := FindChar(text, at, '\n');
    ghost var rest := text[at..];
    if nl.Some? {
      line := ReadLine(text[at..nl.value]);
      next := nl.value + 1;
      ghost var j: nat := nl.value - at;
      assert rest[..j] == text[at..nl.value] && rest[j + 1..] == text[next..];
      LineWithEnd(rest, j);
    } else {
      line := ReadLine(text[at..]);
      next := |text|;
      assert text[next..] == "";
      LineAtEnd(rest);
    }
  }

  /** to_lines. */
  method SplitLines(text: string) returns (r: Result<seq<Line>, Error>)
    ensures r == ToLines(text)
  {
    var lines: seq<Line> := [];
    var at := 0;
    assert text[0..] == text;
    assert ToLines(text).Ok? ==> [] + ToLines(text).value == ToLines(text).value;
    while at < |text|
      invariant at <= |text|
      invariant PrependLines(lines, ToLines(text[at..])) == ToLines(text)
    {
      var line, next := GetLine(text, at);
      if line.Err? {
        return line;
      }
      PrependLinesTwice(lines, line.value, ToLines(text[next..]));
      lines, at := lines + line.value, next;
    }
    assert lines + [] == lines;
    return Ok(lines);
  }

  /** yaml_parse. */
  method YamlParse(text: string, env: map<string, string>) returns (r: Result<Node, Error>)
    ensures r == Parse(text, env)
  {
    var lines := SplitLines(text);
    if lines.Err? {
      return Err(lines.error);
    }
    var p := new Parser(lines.value, env);
    r := p.ParseAll();
  }
}
