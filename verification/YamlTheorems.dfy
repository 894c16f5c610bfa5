/** What every successful parse of the YAML subset guarantees, for every list of lines. */
module YamlTheorems {
  import opened Common
  import opened Yaml

  // ---------------------------------------------------------------- every line is consumed once

  /** The line's content behind any number of leading "- " markers. */
  function Strip(text: string): string {
    if IsItem(text) then Strip(text[2..]) else text
  }

  /** What one line contributes, on its own: its key and its scalar value, if it has one. */
  datatype Fact = Fact(key: string, value: Option<string>)

  function FactOf(line: Line, env: map<string, string>): Fact {
    var text := Strip(line.text);
    match IndexOf(text, ':')
    case None => Fact(text, None)
    case Some(colon) =>
      var val := Trim(text[colon + 1..]);
      var v := Expand(Unquote(val), env);
      Fact(Trim(text[..colon]), if val != "" && v.Ok? then Some(v.value) else None)
  }

  function FactsOf(ls: seq<Line>, env: map<string, string>): seq<Fact> {
    if ls == [] then [] else [FactOf(ls[0], env)] + FactsOf(ls[1..], env)
  }

  /** The keys of a tree with their scalar values, in reading order. */
  function Preorder(n: Node): seq<Fact> {
    match n
    case Scalar(_) => []
    case Map(es) => PreorderEntries(es)
    case List(ns) => PreorderItems(ns)
  }

  function PreorderEntry(kv: (string, Node)): seq<Fact> {
    [Fact(kv.0, if kv.1.Scalar? then Some(kv.1.value) else None)] + Preorder(kv.1)
  }

  function PreorderEntries(es: seq<(string, Node)>): seq<Fact> {
    if es == [] then [] else PreorderEntry(es[0]) + PreorderEntries(es[1..])
  }

  function PreorderItems(ns: seq<Node>): seq<Fact> {
    if ns == [] then [] else Preorder(ns[0]) + PreorderItems(ns[1..])
  }

  ghost predicate IsTail(rest: seq<Line>, ls: seq<Line>) {
    |rest| <= |ls| && rest == ls[|ls| - |rest|..]
  }

  /** `facts` is what the lines consumed between `ls` and `rest` say. */
  ghost predicate Consumed(facts: seq<Fact>, ls: seq<Line>, rest: seq<Line>, env: map<string, string>) {
    IsTail(rest, ls) && facts == FactsOf(ls[..|ls| - |rest|], env)
  }

  lemma {:induction false} FactsAppend(a: seq<Line>, b: seq<Line>, env: map<string, string>)
    ensures FactsOf(a + b, env) == FactsOf(a, env) + FactsOf(b, env)
  {
    if a == [] {
      assert a + b == b;
    } else {
      assert (a + b)[1..] == a[1..] + b;
      FactsAppend(a[1..], b, env);
    }
  }

  lemma {:induction false} ConsumedThen(f: seq<Fact>, g: seq<Fact>, a: seq<Line>, b: seq<Line>, c: seq<Line>, env: map<string, string>)
    requires Consumed(f, a, b, env) && Consumed(g, b, c, env)
    ensures Consumed(f + g, a, c, env)
  {
    var i, j := |a| - |b|, |b| - |c|;
    assert c == a[i + j..];
    assert a[..i + j] == a[..i] + b[..j];
    FactsAppend(a[..i], b[..j], env);
  }

  /** Opening an item changes no fact. */
  lemma {:induction false} OpenItemFacts(f: seq<Fact>, ls: seq<Line>, indent: nat, rest: seq<Line>, env: map<string, string>)
    requires ls != [] && IsItem(ls[0].text) && |rest| < |ls|
    requires Consumed(f, OpenItem(ls, indent), rest, env)
    ensures Consumed(f, ls, rest, env)
  {
    var o := OpenItem(ls, indent);
    var k := |ls| - |rest|;
    assert o[k..] == ls[k..];
    OpenedFact(ls, indent, env);
    SameFacts(o[..k], ls[..k], env);
  }

  lemma {:induction false} OpenedFact(ls: seq<Line>, indent: nat, env: map<string, string>)
    requires ls != [] && IsItem(ls[0].text)
    ensures FactOf(OpenItem(ls, indent)[0], env) == FactOf(ls[0], env)
  {
    assert Strip(OpenItem(ls, indent)[0].text) == Strip(ls[0].text);
  }

  lemma {:induction false} SameFacts(a: seq<Line>, b: seq<Line>, env: map<string, string>)
    requires |a| == |b| > 0 && a[1..] == b[1..] && FactOf(a[0], env) == FactOf(b[0], env)
    ensures FactsOf(a, env) == FactsOf(b, env)
  {
  }

  lemma {:induction false} BlockConsumes(ls: seq<Line>, indent: nat, depth: nat, env: map<string, string>)
    requires ls != [] && ls[0].indent == indent && Block(ls, indent, depth, env).Ok?
    ensures var (n, rest) := Block(ls, indent, depth, env).value; Consumed(Preorder(n), ls, rest, env)
    decreases |ls|, HeadSize(ls), 2
  {
    if IsItem(ls[0].text) {
      ItemsConsume(ls, indent, depth, env);
    } else {
      EntriesConsume(ls, indent, depth, env);
    }
  }

  lemma {:induction false} ItemsConsume(ls: seq<Line>, indent: nat, depth: nat, env: map<string, string>)
    requires Items(ls, indent, depth, env).Ok?
    ensures var (ns, rest) := Items(ls, indent, depth, env).value; Consumed(PreorderItems(ns), ls, rest, env)
    decreases |ls|, HeadSize(ls), 1
  {
    if AtItem(ls, indent) {
      var (n, a) := Block(OpenItem(ls, indent), indent + 2, depth + 1, env).value;
      BlockConsumes(OpenItem(ls, indent), indent + 2, depth + 1, env);
      OpenItemFacts(Preorder(n), ls, indent, a, env);
      ItemsConsume(a, indent, depth, env);
      var (ns, rest) := Items(a, indent, depth, env).value;
      ConsumedThen(Preorder(n), PreorderItems(ns), ls, a, rest, env);
      assert ([n] + ns)[1..] == ns;
    }
  }

  lemma {:induction false} EntryFact(ls: seq<Line>, indent: nat, depth: nat, env: map<string, string>)
    requires AtEntry(ls, indent) && Entry(ls, indent, depth, env).Ok?
    ensures var (k, v) := Entry(ls, indent, depth, env).value.0;
            FactOf(ls[0], env) == Fact(k, if v.Scalar? then Some(v.value) else None)
  {
    var text := ls[0].text;
    assert Strip(text) == text;
  }

  /** The key an entry puts into the tree, with its scalar value, is what its own line says. */
  lemma {:induction false} EntryLine(ls: seq<Line>, indent: nat, depth: nat, env: map<string, string>)
    requires AtEntry(ls, indent) && Entry(ls, indent, depth, env).Ok?
    ensures var (k, v) := Entry(ls, indent, depth, env).value.0;
            Consumed([Fact(k, if v.Scalar? then Some(v.value) else None)], ls, ls[1..], env)
  {
    EntryFact(ls, indent, depth, env);
    assert ls[..1] == [ls[0]] && [ls[0]][1..] == [];
    assert FactsOf([ls[0]], env) == [FactOf(ls[0], env)];
  }

  lemma {:induction false} EntryConsumes(ls: seq<Line>, indent: nat, depth: nat, env: map<string, string>)
    requires AtEntry(ls, indent) && Entry(ls, indent, depth, env).Ok?
    ensures var (kv, rest) := Entry(ls, indent, depth, env).value; Consumed(PreorderEntry(kv), ls, rest, env)
    decreases |ls|, HeadSize(ls), 0
  {
    var (kv, rest) := Entry(ls, indent, depth, env).value;
    var next := ls[1..];
    var head := [Fact(kv.0, if kv.1.Scalar? then Some(kv.1.value) else None)];
    EntryLine(ls, indent, depth, env);
    if rest != next {
      BlockConsumes(next, next[0].indent, depth + 1, env);
      ConsumedThen(head, Preorder(kv.1), ls, next, rest, env);
    } else {
      assert head + [] == head;
    }
  }

  lemma {:induction false} EntriesConsume(ls: seq<Line>, indent: nat, depth: nat, env: map<string, string>)
    requires Entries(ls, indent, depth, env).Ok?
    ensures var (es, rest) := Entries(ls, indent, depth, env).value; Consumed(PreorderEntries(es), ls, rest, env)
    decreases |ls|, HeadSize(ls), 1
  {
    if AtEntry(ls, indent) {
      var (kv, a) := Entry(ls, indent, depth, env).value;
      EntryConsumes(ls, indent, depth, env);
      EntriesConsume(a, indent, depth, env);
      var (es, rest) := Entries(a, indent, depth, env).value;
      ConsumedThen(PreorderEntry(kv), PreorderEntries(es), ls, a, rest, env);
      assert ([kv] + es)[1..] == es;
    }
  }

  /**
    A successful parse consumes every line exactly once and in order: reading the tree in order
    gives exactly one key, with its scalar value, for each line.
   */
  lemma {:induction false} EveryLineOnce(ls: seq<Line>, env: map<string, string>)
    requires ParseLines(ls, env).Ok?
    ensures Preorder(ParseLines(ls, env).value) == FactsOf(ls, env)
  {
    if ls != [] {
      BlockConsumes(ls, ls[0].indent, 0, env);
      assert ls[..|ls|] == ls;
    }
  }

  // ---------------------------------------------------------------- nesting

  /** Blocks nested inside each other; scalars and empty maps are no blocks of their own. */
  function Height(n: Node): nat {
    match n
    case Scalar(_) => 0
    case Map(es) => if es == [] then 0 else 1 + HeightEntries(es)
    case List(ns) => 1 + HeightItems(ns)
  }

  function HeightEntry(kv: (string, Node)): nat {
    Height(kv.1)
  }

  function HeightEntries(es: seq<(string, Node)>): nat {
    if es == [] then 0
    else
      var a, b := HeightEntry(es[0]), HeightEntries(es[1..]);
      if a < b then b else a
  }

  function HeightItems(ns: seq<Node>): nat {
    if ns == [] then 0
    else
      var a, b := Height(ns[0]), HeightItems(ns[1..]);
      if a < b then b else a
  }

  lemma {:induction false} BlockHeight(ls: seq<Line>, indent: nat, depth: nat, env: map<string, string>)
    requires ls != [] && ls[0].indent == indent && Block(ls, indent, depth, env).Ok?
    ensures depth + Height(Block(ls, indent, depth, env).value.0) <= MAX_DEPTH + 1
    decreases |ls|, HeadSize(ls), 2
  {
    if IsItem(ls[0].text) {
      ItemsHeight(ls, indent, depth, env);
    } else {
      EntriesHeight(ls, indent, depth, env);
    }
  }

  lemma {:induction false} ItemsHeight(ls: seq<Line>, indent: nat, depth: nat, env: map<string, string>)
    requires depth <= MAX_DEPTH && Items(ls, indent, depth, env).Ok?
    ensures depth + HeightItems(Items(ls, indent, depth, env).value.0) <= MAX_DEPTH
    decreases |ls|, HeadSize(ls), 1
  {
    if AtItem(ls, indent) {
      var (n, a) := Block(OpenItem(ls, indent), indent + 2, depth + 1, env).value;
      BlockHeight(OpenItem(ls, indent), indent + 2, depth + 1, env);
      ItemsHeight(a, indent, depth, env);
      var ns := Items(a, indent, depth, env).value.0;
      assert ([n] + ns)[1..] == ns;
    }
  }

  lemma {:induction false} EntriesHeight(ls: seq<Line>, indent: nat, depth: nat, env: map<string, string>)
    requires depth <= MAX_DEPTH && Entries(ls, indent, depth, env).Ok?
    ensures depth + HeightEntries(Entries(ls, indent, depth, env).value.0) <= MAX_DEPTH
    decreases |ls|, HeadSize(ls), 1
  {
    if AtEntry(ls, indent) {
      var (kv, a) := Entry(ls, indent, depth, env).value;
      var next := ls[1..];
      if Height(kv.1) > 0 {
        BlockHeight(next, next[0].indent, depth + 1, env);
      }
      EntriesHeight(a, indent, depth, env);
      var es := Entries(a, indent, depth, env).value.0;
      assert ([kv] + es)[1..] == es;
    }
  }

  /** No parsed tree nests more than 65 blocks: depths 0 to 64. */
  lemma {:induction false} NestingBounded(ls: seq<Line>, env: map<string, string>)
    requires ParseLines(ls, env).Ok?
    ensures Height(ParseLines(ls, env).value) <= 65
  {
    if ls != [] {
      BlockHeight(ls, ls[0].indent, 0, env);
    }
  }
}
