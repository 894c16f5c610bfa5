/** The texts yaml_parse of src/core/config.cc accepts, and the trees it makes of them. */
module YamlLanguage {
  import opened Common
  import opened Yaml
  import opened YamlText
  import opened YamlGrammar

  /** Raw lines put together; the last one need not be ended. */
  function Joined(raws: seq<string>, ended: bool): string {
    if raws == [] then ""
    else if |raws| == 1 && !ended then raws[0]
    else raws[0] + "\n" + Joined(raws[1..], ended)
  }

  /** An unended last line has at least one character. */
  predicate LegalRaws(raws: seq<string>, ended: bool) {
    (forall i :: 0 <= i < |raws| ==> '\n' !in raws[i]) && (!ended ==> raws != [] && raws[|raws| - 1] != "")
  }

  function Flat(cs: seq<seq<Line>>): seq<Line> {
    if cs == [] then [] else cs[0] + Flat(cs[1..])
  }

  /** Each raw line is one line with content, or none. */
  ghost predicate Contents(raws: seq<string>, cs: seq<seq<Line>>) {
    |raws| == |cs| && forall i :: 0 <= i < |raws| ==> LineMeans(raws[i], Ok(cs[i]))
  }

  lemma {:induction false} LegalRest(raws: seq<string>, ended: bool)
    requires LegalRaws(raws, ended) && raws != [] && (|raws| > 1 || ended)
    ensures LegalRaws(raws[1..], ended) && '\n' !in raws[0]
  {
    var more := raws[1..];
    assert forall i :: 0 <= i < |more| ==> more[i] == raws[i + 1];
  }

  lemma {:induction false} ContentsRest(raws: seq<string>, cs: seq<seq<Line>>)
    requires Contents(raws, cs) && raws != []
    ensures Contents(raws[1..], cs[1..]) && ToLine(raws[0]) == Ok(cs[0])
  {
    LineExact(raws[0], Ok(cs[0]));
    forall i | 0 <= i < |raws[1..]| ensures LineMeans(raws[1..][i], Ok(cs[1..][i])) {
      assert raws[1..][i] == raws[i + 1] && cs[1..][i] == cs[i + 1];
    }
  }

  /** The first line of an ended one. */
  lemma {:induction false} EndedFirst(raw: string, rest: string)
    requires '\n' !in raw
    ensures ToLines(raw + "\n" + rest) ==
            var a, b := ToLine(raw), ToLines(rest);
            if a.Err? then a else if b.Err? then b else Ok(a.value + b.value)
  {
    var text := raw + "\n" + rest;
    FirstAt(raw, '\n', rest);
    assert text[..|raw|] == raw && text[|raw| + 1..] == rest;
  }

  lemma {:induction false} UnendedOnly(raw: string)
    requires '\n' !in raw && raw != ""
    ensures ToLines(raw) == ToLine(raw)
  {
    NotIn(raw, '\n');
    var a := ToLine(raw);
    if a.Ok? { assert a.value + [] == a.value; }
  }

  lemma {:induction false} NotIn(s: string, c: char)
    requires c !in s
    ensures IndexOf(s, c).None?
  {
    if s != "" {
      assert s == [s[0]] + s[1..];
      NotIn(s[1..], c);
    }
  }

  /** A line that is ended, and the ones after it. */
  lemma {:induction false} ReadRest(raws: seq<string>, ended: bool)
    requires LegalRaws(raws, ended) && raws != [] && (|raws| > 1 || ended)
    ensures LegalRaws(raws[1..], ended)
    ensures ToLines(Joined(raws, ended)) ==
            var a, b := ToLine(raws[0]), ToLines(Joined(raws[1..], ended));
            if a.Err? then a else if b.Err? then b else Ok(a.value + b.value)
  {
    LegalRest(raws, ended);
    EndedFirst(raws[0], Joined(raws[1..], ended));
  }

  lemma {:induction false} LinesRead(raws: seq<string>, ended: bool, cs: seq<seq<Line>>)
    requires LegalRaws(raws, ended) && Contents(raws, cs)
    ensures ToLines(Joined(raws, ended)) == Ok(Flat(cs))
  {
    if raws != [] {
      ContentsRest(raws, cs);
      if |raws| == 1 && !ended {
        UnendedOnly(raws[0]);
        assert Flat(cs[1..]) == [] && cs[0] + [] == cs[0];
      } else {
        ReadRest(raws, ended);
        LinesRead(raws[1..], ended, cs[1..]);
      }
    }
  }

  /** Any text is put together from raw lines in this way. */
  lemma {:induction false} RawsOf(text: string) returns (raws: seq<string>, ended: bool)
    ensures LegalRaws(raws, ended) && text == Joined(raws, ended)
    decreases |text|
  {
    if text == "" {
      raws, ended := [], true;
    } else {
      var nl := IndexOf(text, '\n');
      NotBefore(text, '\n');
      if nl.None? {
        raws, ended := [text], false;
      } else {
        var first, rest := text[..nl.value], text[nl.value + 1..];
        var more;
        more, ended := RawsOf(rest);
        raws := [first] + more;
        RawsJoin(first, more, ended);
        assert text == first + "\n" + rest;
      }
    }
  }

  lemma {:induction false} RawsJoin(first: string, more: seq<string>, ended: bool)
    requires '\n' !in first && LegalRaws(more, ended)
    ensures LegalRaws([first] + more, ended) && Joined([first] + more, ended) == first + "\n" + Joined(more, ended)
  {
    var raws := [first] + more;
    assert raws[1..] == more;
    forall i | 0 <= i < |raws| ensures '\n' !in raws[i] {
      if i > 0 { assert raws[i] == more[i - 1]; }
    }
  }

  /** A tab after a line's leading spaces, and nothing else, is refused before the blocks are read. */
  lemma {:induction false} TabsRefused(raws: seq<string>, ended: bool)
    requires LegalRaws(raws, ended)
    ensures ToLines(Joined(raws, ended)) == Err(TabIndentation) <==>
            exists i :: 0 <= i < |raws| && LineMeans(raws[i], Err(TabIndentation))
    ensures ToLines(Joined(raws, ended)).Err? ==> ToLines(Joined(raws, ended)) == Err(TabIndentation)
  {
    if raws != [] {
      LineExact(raws[0], Err(TabIndentation));
      if |raws| == 1 && !ended {
        UnendedOnly(raws[0]);
      } else {
        var more := raws[1..];
        ReadRest(raws, ended);
        TabsRefused(more, ended);
        assert forall i :: 0 <= i < |more| ==> more[i] == raws[i + 1];
        assert forall i :: 0 < i < |raws| ==> raws[i] == more[i - 1];
      }
    }
  }

  lemma {:induction false} ReadOrTab(raw: string)
    ensures ToLine(raw).Ok? || LineMeans(raw, Err(TabIndentation))
  {
    LineExact(raw, Err(TabIndentation));
  }

  /** What the lines of a text that is read hold, each on its own. */
  lemma {:induction false} LinesSound(raws: seq<string>, ended: bool) returns (cs: seq<seq<Line>>)
    requires LegalRaws(raws, ended) && ToLines(Joined(raws, ended)).Ok?
    ensures Contents(raws, cs)
  {
    TabsRefused(raws, ended);
    forall i | 0 <= i < |raws| ensures ToLine(raws[i]).Ok? { ReadOrTab(raws[i]); }
    cs := seq(|raws|, i requires 0 <= i < |raws| => ToLine(raws[i]).value);
    forall i | 0 <= i < |raws| ensures LineMeans(raws[i], Ok(cs[i])) { LineExact(raws[i], Ok(cs[i])); }
  }

  /** The text's lines, each read on its own, are legal and denote `n`. */
  ghost predicate TextMeans(text: string, n: Node, env: map<string, string>) {
    exists raws, ended, cs ::
      LegalRaws(raws, ended) && text == Joined(raws, ended) && Contents(raws, cs) && LinesMean(Flat(cs), n, env)
  }

  /** yaml_parse accepts exactly the legal texts, and makes of each exactly the tree it denotes. */
  lemma {:induction false} AcceptsExactly(text: string, n: Node, env: map<string, string>)
    ensures Parse(text, env) == Ok(n) <==> TextMeans(text, n, env)
  {
    if Parse(text, env) == Ok(n) {
      var raws, ended := RawsOf(text);
      var cs := LinesSound(raws, ended);
      LinesRead(raws, ended, cs);
      LinesAccepted(Flat(cs), n, env);
    }
    if TextMeans(text, n, env) {
      var raws, ended, cs :|
        LegalRaws(raws, ended) && text == Joined(raws, ended) && Contents(raws, cs) && LinesMean(Flat(cs), n, env);
      LinesRead(raws, ended, cs);
      LinesAccepted(Flat(cs), n, env);
    }
  }
}
