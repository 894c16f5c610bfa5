/** The lines the block parser of src/core/config.cc accepts, as a grammar, and the trees they denote. */
module YamlGrammar {
  import opened Common
  import opened Yaml
  import opened YamlText

  // ---------------------------------------------------------------- the grammar

  /** A block as it is written: "- " items, or "key:" lines. */
  datatype Outline = Bullets(items: seq<Outline>) | Keys(keys: seq<Key>)

  /** A key line with its value, or with a block written `deeper` columns further in. */
  datatype Key = Leaf(name: Cell, value: Value) | Branch(name: Cell, blank: string, deeper: nat, under: Outline)

  /** A text between blanks. */
  datatype Cell = Cell(left: string, text: string, right: string)

  /** No value, one without quotes or one in quotes, each between blanks. */
  datatype Value = Nothing(blank: string) | Bare(left: string, pieces: seq<Piece>, right: string)
                 | Quoted(left: string, quote: char, pieces: seq<Piece>, right: string)

  function CellText(c: Cell): string {
    c.left + c.text + c.right
  }

  /** What a value is written as, between its blanks. */
  function Written(v: Value): Cell {
    match v
    case Nothing(blank) => Cell(blank, "", "")
    case Bare(left, ps, right) => Cell(left, PiecesText(ps), right)
    case Quoted(left, q, ps, right) => Cell(left, [q] + PiecesText(ps) + [q], right)
  }

  function KeyText(k: Key): string {
    CellText(k.name) + ":" + (if k.Leaf? then CellText(Written(k.value)) else k.blank)
  }

  ghost predicate AllBlank(s: string) {
    forall i :: 0 <= i < |s| ==> BlankCode(s[i] as int)
  }

  ghost predicate LegalCell(c: Cell) {
    AllBlank(c.left) && AllBlank(c.right) && Tight(c.text)
  }

  predicate InQuotes(s: string) {
    |s| >= 2 && IsQuote(s[0]) && s[|s| - 1] == s[0]
  }

  ghost predicate LegalValue(v: Value) {
    && LegalCell(Written(v))
    && match v
       case Nothing(_) => true
       case Bare(_, ps, _) => LegalPieces(ps) && PiecesText(ps) != "" && !InQuotes(PiecesText(ps))
       case Quoted(_, q, ps, _) => LegalPieces(ps) && IsQuote(q)
  }

  predicate Dashed(text: string) {
    "- " <= text
  }

  /** No block is empty, no key line starts with the item marker or has a colon in its key, and what is under a key is further in. */
  ghost predicate Legal(o: Outline) {
    match o
    case Bullets(os) => os != [] && LegalItems(os)
    case Keys(ks) => ks != [] && LegalKeys(ks)
  }

  ghost predicate LegalItems(os: seq<Outline>) {
    os == [] || (Legal(os[0]) && LegalItems(os[1..]))
  }

  ghost predicate LegalText(k: Key) {
    && !Dashed(KeyText(k)) && LegalCell(k.name) && ':' !in CellText(k.name)
    && if k.Leaf? then LegalValue(k.value) else AllBlank(k.blank)
  }

  ghost predicate LegalKey(k: Key) {
    LegalText(k) && (k.Branch? ==> k.deeper > 0 && Legal(k.under))
  }

  ghost predicate LegalKeys(ks: seq<Key>) {
    ks == [] || (LegalKey(ks[0]) && LegalKeys(ks[1..]))
  }

  /** The lines of a block at the given indentation. */
  function LinesOf(o: Outline, indent: nat): seq<Line> {
    match o
    case Bullets(os) => ItemLines(os, indent)
    case Keys(ks) => KeyLines(ks, indent)
  }

  /** The first line of an item's block carries the "- " marker, two columns to the left. */
  function Mark(ls: seq<Line>, indent: nat): seq<Line> {
    if ls == [] then [] else [Line(indent, "- " + ls[0].text)] + ls[1..]
  }

  function ItemLines(os: seq<Outline>, indent: nat): seq<Line> {
    if os == [] then [] else Mark(LinesOf(os[0], indent + 2), indent) + ItemLines(os[1..], indent)
  }

  function KeyLine(k: Key, indent: nat): seq<Line> {
    [Line(indent, KeyText(k))] + (if k.Branch? then LinesOf(k.under, indent + k.deeper) else [])
  }

  function KeyLines(ks: seq<Key>, indent: nat): seq<Line> {
    if ks == [] then [] else KeyLine(ks[0], indent) + KeyLines(ks[1..], indent)
  }

  /** How many blocks are nested inside each other. */
  function Deep(o: Outline): nat {
    match o
    case Bullets(os) => 1 + DeepItems(os)
    case Keys(ks) => 1 + DeepKeys(ks)
  }

  function DeepItems(os: seq<Outline>): nat {
    if os == [] then 0
    else
      var a, b := Deep(os[0]), DeepItems(os[1..]);
      if a < b then b else a
  }

  function DeepKey(k: Key): nat {
    if k.Branch? then Deep(k.under) else 0
  }

  function DeepKeys(ks: seq<Key>): nat {
    if ks == [] then 0
    else
      var a, b := DeepKey(ks[0]), DeepKeys(ks[1..]);
      if a < b then b else a
  }

  // ---------------------------------------------------------------- what is meant

  /** A line without a value is an empty map, any other one a scalar whose variables are replaced. */
  predicate ValueMeans(v: Value, n: Node, env: map<string, string>) {
    if v.Nothing? then n == Map([]) else n.Scalar? && PiecesValue(v.pieces, env) == Ok(n.value)
  }

  predicate Denotes(o: Outline, n: Node, env: map<string, string>) {
    match o
    case Bullets(os) => n.List? && DenotesItems(os, n.items, env)
    case Keys(ks) => n.Map? && DenotesKeys(ks, n.entries, env)
  }

  predicate DenotesItems(os: seq<Outline>, ns: seq<Node>, env: map<string, string>) {
    |os| == |ns| && (os == [] || (Denotes(os[0], ns[0], env) && DenotesItems(os[1..], ns[1..], env)))
  }

  predicate DenotesKey(k: Key, kv: (string, Node), env: map<string, string>) {
    && kv.0 == k.name.text
    && match k
       case Leaf(_, v) => ValueMeans(v, kv.1, env)
       case Branch(_, _, _, o) => Denotes(o, kv.1, env)
  }

  predicate DenotesKeys(ks: seq<Key>, es: seq<(string, Node)>, env: map<string, string>) {
    |ks| == |es| && (ks == [] || (DenotesKey(ks[0], es[0], env) && DenotesKeys(ks[1..], es[1..], env)))
  }

  // ---------------------------------------------------------------- one line

  lemma {:induction false} FirstAt(k: string, c: char, r: string)
    requires c !in k
    ensures IndexOf(k + [c] + r, c) == Some(|k|)
  {
    var u := k + [c] + r;
    if k != "" {
      assert u[0] == k[0] && k[0] in k;
      assert u[1..] == k[1..] + [c] + r;
      FirstAt(k[1..], c, r);
    }
  }

  lemma {:induction false} NotBefore(s: string, c: char)
    ensures IndexOf(s, c).Some? ==> c !in s[..IndexOf(s, c).value]
    ensures IndexOf(s, c).None? ==> c !in s
  {
    if s != "" && s[0] != c {
      NotBefore(s[1..], c);
      var j := IndexOf(s[1..], c);
      assert s == [s[0]] + s[1..];
      if j.Some? {
        assert s[..j.value + 1] == [s[0]] + s[1..][..j.value];
      }
    }
  }

  lemma {:induction false} CellExact(c: Cell)
    requires LegalCell(c)
    ensures Trim(CellText(c)) == c.text
  {
    var s := CellText(c);
    var i, j := |c.left|, |c.left + c.text|;
    if c.text == "" {
      CellBlank(c);
      assert Edges(s, 0, 0) && s[0..0] == c.text;
    } else {
      forall x | 0 <= x < i ensures BlankCode(s[x] as int) { assert s[x] == c.left[x]; }
      forall x | j <= x < |s| ensures BlankCode(s[x] as int) { assert s[x] == c.right[x - j]; }
      assert s[i] == c.text[0] && s[j - 1] == c.text[|c.text| - 1];
      assert Edges(s, i, j) && s[i..j] == c.text;
    }
    TrimIs(s, c.text);
  }

  lemma {:induction false} CellBlank(c: Cell)
    requires LegalCell(c) && c.text == ""
    ensures forall x :: 0 <= x < |CellText(c)| ==> BlankCode(CellText(c)[x] as int)
  {
    forall x | 0 <= x < |CellText(c)| ensures BlankCode(CellText(c)[x] as int) {
      assert CellText(c)[x] == if x < |c.left| then c.left[x] else c.right[x - |c.left|];
    }
  }

  lemma {:induction false} CellAt(s: string, i: nat, j: nat)
    requires Edges(s, i, j)
    ensures var c := Cell(s[..i], s[i..j], s[j..]); LegalCell(c) && CellText(c) == s
  {
    var l, t, r := s[..i], s[i..j], s[j..];
    assert AllBlank(l) && AllBlank(r);
    assert i < j ==> t[0] == s[i] && t[|t| - 1] == s[j - 1];
    assert s == l + t + r;
  }

  lemma {:induction false} CellFound(s: string) returns (c: Cell)
    ensures LegalCell(c) && CellText(c) == s && c.text == Trim(s)
  {
    TrimExact(s);
    var i: nat, j: nat :| Edges(s, i, j) && Trim(s) == s[i..j];
    CellAt(s, i, j);
    c := Cell(s[..i], s[i..j], s[j..]);
  }

  lemma {:induction false} ValueExact(v: Value, env: map<string, string>)
    requires LegalValue(v) && !v.Nothing?
    ensures Written(v).text != "" && Expand(Unquote(Written(v).text), env) == PiecesValue(v.pieces, env)
  {
    var t, u := Written(v).text, PiecesText(v.pieces);
    PiecesExpand(v.pieces, env);
    if v.Quoted? {
      assert t[0] == v.quote && t[|t| - 1] == v.quote && t == [t[0]] + u + [t[0]];
    }
    UnquoteExact(t, u);
  }

  lemma {:induction false} ValueFound(c: Cell) returns (v: Value)
    requires LegalCell(c) && c.text != ""
    ensures LegalValue(v) && !v.Nothing? && Written(v) == c
  {
    if InQuotes(c.text) {
      v := QuotedFound(c);
    } else {
      var ps := PiecesOf(c.text);
      v := Bare(c.left, ps, c.right);
    }
  }

  lemma {:induction false} QuotedFound(c: Cell) returns (v: Value)
    requires LegalCell(c) && InQuotes(c.text)
    ensures LegalValue(v) && v.Quoted? && Written(v) == c
  {
    var t := c.text;
    var u := t[1..|t| - 1];
    assert t == [t[0]] + u + [t[0]];
    var ps := PiecesOf(u);
    v := Quoted(c.left, t[0], ps, c.right);
  }

  lemma {:induction false} DashedExact(text: string)
    ensures IsItem(text) <==> Dashed(text)
  {
    assert IsItem(text) ==> text[..2] == "- ";
  }

  // ---------------------------------------------------------------- legal lines are read

  /** Nothing that follows continues a block at this indentation. */
  predicate Ends(rest: seq<Line>, indent: nat) {
    rest == [] || rest[0].indent < indent
  }

  lemma {:induction false} OutlineHead(o: Outline, indent: nat)
    requires Legal(o)
    ensures var ls := LinesOf(o, indent); ls != [] && ls[0].indent == indent && (IsItem(ls[0].text) <==> o.Bullets?)
    decreases o
  {
    match o
    case Keys(ks) =>
      assert LegalKey(ks[0]);
      KeysHead(ks, indent);
      DashedExact(KeyText(ks[0]));
    case Bullets(os) => ItemsHead(os, indent);
  }

  lemma {:induction false} ItemsHead(os: seq<Outline>, indent: nat)
    requires os != [] && LegalItems(os)
    ensures var ls := ItemLines(os, indent); ls != [] && ls[0].indent == indent && IsItem(ls[0].text)
    decreases os
  {
    OutlineHead(os[0], indent + 2);
    var ls := LinesOf(os[0], indent + 2);
    assert Mark(ls, indent)[0] == Line(indent, "- " + ls[0].text);
    assert IsItem("- " + ls[0].text);
  }

  /** The marker is taken off again, giving the item's own block. */
  lemma {:induction false} ItemOpens(block: seq<Line>, indent: nat, tail: seq<Line>)
    requires block != [] && block[0].indent == indent + 2
    ensures var ls := Mark(block, indent) + tail; AtItem(ls, indent) && OpenItem(ls, indent) == block + tail
  {
    var ls := Mark(block, indent) + tail;
    assert ls[0].text == "- " + block[0].text && ls[0].text[2..] == block[0].text;
    assert OpenItem(ls, indent)[0] == block[0];
    assert ls[1..] == block[1..] + tail;
  }

  lemma {:induction false} ItemsTail(more: seq<Outline>, indent: nat, rest: seq<Line>)
    requires LegalItems(more) && Ends(rest, indent)
    ensures Ends(ItemLines(more, indent) + rest, indent + 2)
  {
    if more != [] {
      ItemsHead(more, indent);
    }
  }

  lemma {:induction false} KeysHead(ks: seq<Key>, indent: nat)
    requires ks != []
    ensures var ls := KeyLines(ks, indent); ls != [] && ls[0] == Line(indent, KeyText(ks[0]))
  {
    assert KeyLines(ks, indent) == KeyLine(ks[0], indent) + KeyLines(ks[1..], indent);
  }

  lemma {:induction false} KeysTail(ks: seq<Key>, indent: nat, rest: seq<Line>)
    requires Ends(rest, indent)
    ensures Ends(KeyLines(ks, indent) + rest, indent + 1)
  {
    var tail := KeyLines(ks, indent) + rest;
    if ks == [] {
      assert tail == rest;
    } else {
      KeysHead(ks, indent);
      assert tail[0] == KeyLines(ks, indent)[0];
    }
  }

  ghost predicate BlockRead(o: Outline, n: Node, indent: nat, depth: nat, rest: seq<Line>, env: map<string, string>) {
    var ls := LinesOf(o, indent) + rest;
    && ls != [] && ls[0].indent == indent
    && Block(ls, indent, depth, env) == if depth + Deep(o) <= 65 then Ok((n, rest)) else Err(TooDeep)
  }

  /** Reading the lines of a block gives the tree it denotes, unless it nests too deep. */
  lemma {:induction false} BlockReads(o: Outline, n: Node, indent: nat, depth: nat, rest: seq<Line>, env: map<string, string>)
    requires Legal(o) && Denotes(o, n, env) && Ends(rest, indent)
    ensures BlockRead(o, n, indent, depth, rest, env)
    decreases o
  {
    OutlineHead(o, indent);
    var ls := LinesOf(o, indent) + rest;
    assert ls[0] == LinesOf(o, indent)[0];
    if depth <= MAX_DEPTH {
      match o
      case Keys(ks) => KeysRead(ks, n.entries, indent, depth, rest, env);
      case Bullets(os) => ItemsRead(os, n.items, indent, depth, rest, env);
    }
  }

  /** One round of the list loop, given what its item parses to. */
  lemma {:induction false} ItemsStep(ls: seq<Line>, indent: nat, depth: nat, env: map<string, string>)
    requires AtItem(ls, indent)
    ensures Items(ls, indent, depth, env) ==
            var b := Block(OpenItem(ls, indent), indent + 2, depth + 1, env);
            if b.Err? then Err(b.error)
            else
              var m := Items(b.value.1, indent, depth, env);
              if m.Err? then Err(m.error) else Ok(([b.value.0] + m.value.0, m.value.1))
  {
  }

  /** The first item of a list, given that it is read on its own, up to the items after it. */
  lemma {:induction false} FirstItem(os: seq<Outline>, n: Node, indent: nat, depth: nat, rest: seq<Line>, env: map<string, string>)
    requires os != [] && LinesOf(os[0], indent + 2) != [] && LinesOf(os[0], indent + 2)[0].indent == indent + 2
    requires BlockRead(os[0], n, indent + 2, depth + 1, ItemLines(os[1..], indent) + rest, env)
    ensures var ls := ItemLines(os, indent) + rest;
            && AtItem(ls, indent)
            && Block(OpenItem(ls, indent), indent + 2, depth + 1, env) ==
               if depth + Deep(os[0]) <= 64 then Ok((n, ItemLines(os[1..], indent) + rest)) else Err(TooDeep)
  {
    var block, tail := LinesOf(os[0], indent + 2), ItemLines(os[1..], indent) + rest;
    ItemOpens(block, indent, tail);
    Associates(Mark(block, indent), ItemLines(os[1..], indent), rest);
  }

  lemma {:induction false} ItemsRead(os: seq<Outline>, ns: seq<Node>, indent: nat, depth: nat, rest: seq<Line>, env: map<string, string>)
    requires LegalItems(os) && DenotesItems(os, ns, env) && Ends(rest, indent) && depth <= 64
    ensures Items(ItemLines(os, indent) + rest, indent, depth, env) ==
            if depth + DeepItems(os) <= 64 then Ok((ns, rest)) else Err(TooDeep)
    decreases os
  {
    var ls := ItemLines(os, indent) + rest;
    if os == [] {
      assert ls == rest;
    } else {
      ItemsTail(os[1..], indent, rest);
      OutlineHead(os[0], indent + 2);
      BlockReads(os[0], ns[0], indent + 2, depth + 1, ItemLines(os[1..], indent) + rest, env);
      FirstItem(os, ns[0], indent, depth, rest, env);
      ItemsStep(ls, indent, depth, env);
      ItemsRead(os[1..], ns[1..], indent, depth, rest, env);
      assert [ns[0]] + ns[1..] == ns;
    }
  }

  /** What becomes of a line with this key and value. */
  ghost predicate Becomes(r: Result<((string, Node), seq<Line>), Error>, next: seq<Line>, indent: nat, depth: nat,
                          key: string, val: string, env: map<string, string>) {
    if val != "" then
      var w := Expand(Unquote(val), env);
      r == if w.Err? then Err(w.error) else Ok(((key, Scalar(w.value)), next))
    else if Ends(next, indent + 1) then r == Ok(((key, Map([])), next))
    else
      var b := Block(next, next[0].indent, depth + 1, env);
      r == if b.Err? then Err(b.error) else Ok(((key, b.value.0), b.value.1))
  }

  lemma {:induction false} EntryUnfold(ls: seq<Line>, indent: nat, depth: nat, colon: nat, key: string, val: string, env: map<string, string>)
    requires ls != [] && IndexOf(ls[0].text, ':') == Some(colon)
    requires key == Trim(ls[0].text[..colon]) && val == Trim(ls[0].text[colon + 1..])
    ensures Becomes(Entry(ls, indent, depth, env), ls[1..], indent, depth, key, val, env)
  {
  }

  /** What the parser sees of a key line. */
  lemma {:induction false} KeySplit(k: Key)
    requires LegalText(k)
    ensures var t, j := KeyText(k), |CellText(k.name)|;
            && IndexOf(t, ':') == Some(j) && Trim(t[..j]) == k.name.text
            && Trim(t[j + 1..]) == if k.Leaf? then Written(k.value).text else ""
  {
    var t, c := KeyText(k), CellText(k.name);
    var rest := if k.Leaf? then CellText(Written(k.value)) else k.blank;
    FirstAt(c, ':', rest);
    assert t[..|c|] == c && t[|c| + 1..] == rest;
    CellExact(k.name);
    if k.Leaf? {
      CellExact(Written(k.value));
    } else {
      CellExact(Cell(k.blank, "", ""));
      assert k.blank + "" + "" == k.blank;
    }
  }

  /** One round of the map loop, given what its entry parses to. */
  lemma {:induction false} EntriesStep(ls: seq<Line>, indent: nat, depth: nat, env: map<string, string>)
    requires AtEntry(ls, indent)
    ensures Entries(ls, indent, depth, env) ==
            var b := Entry(ls, indent, depth, env);
            if b.Err? then Err(b.error)
            else
              var m := Entries(b.value.1, indent, depth, env);
              if m.Err? then Err(m.error) else Ok(([b.value.0] + m.value.0, m.value.1))
  {
  }

  ghost predicate KeyRead(k: Key, kv: (string, Node), indent: nat, depth: nat, tail: seq<Line>, env: map<string, string>) {
    var ls := KeyLine(k, indent) + tail;
    && AtEntry(ls, indent)
    && Entry(ls, indent, depth, env) == if depth + DeepKey(k) <= 64 then Ok((kv, tail)) else Err(TooDeep)
  }

  lemma {:induction false} LeafReads(k: Key, kv: (string, Node), indent: nat, depth: nat, tail: seq<Line>, env: map<string, string>)
    requires k.Leaf? && LegalText(k) && kv.0 == k.name.text && ValueMeans(k.value, kv.1, env)
    requires Ends(tail, indent + 1) && depth <= 64
    ensures KeyRead(k, kv, indent, depth, tail, env)
  {
    var ls := KeyLine(k, indent) + tail;
    assert ls[0] == Line(indent, KeyText(k)) && ls[1..] == tail;
    DashedExact(KeyText(k));
    KeySplit(k);
    EntryUnfold(ls, indent, depth, |CellText(k.name)|, kv.0, Written(k.value).text, env);
    if !k.value.Nothing? {
      ValueExact(k.value, env);
    }
  }

  lemma {:induction false} BranchUnfold(ls: seq<Line>, k: Key, indent: nat, depth: nat, env: map<string, string>)
    requires k.Branch? && LegalText(k) && ls != [] && ls[0] == Line(indent, KeyText(k))
    ensures AtEntry(ls, indent) && Becomes(Entry(ls, indent, depth, env), ls[1..], indent, depth, k.name.text, "", env)
  {
    DashedExact(KeyText(k));
    KeySplit(k);
    EntryUnfold(ls, indent, depth, |CellText(k.name)|, k.name.text, "", env);
  }

  lemma {:induction false} BranchBecomes(r: Result<((string, Node), seq<Line>), Error>, next: seq<Line>, indent: nat, depth: nat,
                                         kv: (string, Node), deep: nat, tail: seq<Line>, env: map<string, string>)
    requires Becomes(r, next, indent, depth, kv.0, "", env) && next != [] && next[0].indent > indent
    requires Block(next, next[0].indent, depth + 1, env) == if depth + 1 + deep <= 65 then Ok((kv.1, tail)) else Err(TooDeep)
    ensures r == if depth + deep <= 64 then Ok((kv, tail)) else Err(TooDeep)
  {
  }

  lemma {:induction false} BranchLines(k: Key, indent: nat, tail: seq<Line>)
    requires k.Branch?
    ensures var ls := KeyLine(k, indent) + tail;
            ls[0] == Line(indent, KeyText(k)) && ls[1..] == LinesOf(k.under, indent + k.deeper) + tail
  {
  }

  /** A key with a block, given how its line and the block on its own are read. */
  lemma {:induction false} BranchReads(k: Key, kv: (string, Node), indent: nat, depth: nat, tail: seq<Line>, env: map<string, string>)
    requires k.Branch? && k.deeper > 0 && BlockRead(k.under, kv.1, indent + k.deeper, depth + 1, tail, env)
    requires var ls := KeyLine(k, indent) + tail;
             AtEntry(ls, indent) && Becomes(Entry(ls, indent, depth, env), ls[1..], indent, depth, kv.0, "", env)
    ensures KeyRead(k, kv, indent, depth, tail, env)
  {
    var ls := KeyLine(k, indent) + tail;
    BranchLines(k, indent, tail);
    BranchBecomes(Entry(ls, indent, depth, env), ls[1..], indent, depth, kv, Deep(k.under), tail, env);
  }

  lemma {:induction false} KeyReads(k: Key, kv: (string, Node), indent: nat, depth: nat, tail: seq<Line>, env: map<string, string>)
    requires LegalKey(k) && DenotesKey(k, kv, env) && Ends(tail, indent + 1) && depth <= 64
    ensures KeyRead(k, kv, indent, depth, tail, env)
    decreases k
  {
    match k
    case Leaf(_, _) => LeafReads(k, kv, indent, depth, tail, env);
    case Branch(_, _, deeper, o) =>
      BlockReads(o, kv.1, indent + deeper, depth + 1, tail, env);
      BranchLines(k, indent, tail);
      BranchUnfold(KeyLine(k, indent) + tail, k, indent, depth, env);
      BranchReads(k, kv, indent, depth, tail, env);
  }

  lemma {:induction false} KeysRead(ks: seq<Key>, es: seq<(string, Node)>, indent: nat, depth: nat, rest: seq<Line>, env: map<string, string>)
    requires LegalKeys(ks) && DenotesKeys(ks, es, env) && Ends(rest, indent) && depth <= 64
    ensures Entries(KeyLines(ks, indent) + rest, indent, depth, env) ==
            if depth + DeepKeys(ks) <= 64 then Ok((es, rest)) else Err(TooDeep)
    decreases ks
  {
    if ks == [] {
      assert KeyLines(ks, indent) + rest == rest;
    } else {
      var tail := KeyLines(ks[1..], indent) + rest;
      KeysTail(ks[1..], indent, rest);
      KeyReads(ks[0], es[0], indent, depth, tail, env);
      KeysRead(ks[1..], es[1..], indent, depth, rest, env);
      KeysReadOn(ks, es, indent, depth, rest, env);
    }
  }

  /** The first key, given that it is read, and the keys after it, given that they are. */
  lemma {:induction false} KeysReadOn(ks: seq<Key>, es: seq<(string, Node)>, indent: nat, depth: nat, rest: seq<Line>, env: map<string, string>)
    requires |ks| == |es| > 0 && depth <= 64
    requires KeyRead(ks[0], es[0], indent, depth, KeyLines(ks[1..], indent) + rest, env)
    requires Entries(KeyLines(ks[1..], indent) + rest, indent, depth, env) ==
             if depth + DeepKeys(ks[1..]) <= 64 then Ok((es[1..], rest)) else Err(TooDeep)
    ensures Entries(KeyLines(ks, indent) + rest, indent, depth, env) ==
            if depth + DeepKeys(ks) <= 64 then Ok((es, rest)) else Err(TooDeep)
  {
    var ls := KeyLine(ks[0], indent) + (KeyLines(ks[1..], indent) + rest);
    Associates(KeyLine(ks[0], indent), KeyLines(ks[1..], indent), rest);
    EntriesStep(ls, indent, depth, env);
    assert [es[0]] + es[1..] == es;
  }

  // ---------------------------------------------------------------- what is read is legal

  /** `o` is what the block parser consumed between `ls` and `rest`, and `n` its tree. */
  ghost predicate BlockIs(o: Outline, n: Node, ls: seq<Line>, indent: nat, depth: nat, rest: seq<Line>, env: map<string, string>) {
    Legal(o) && Denotes(o, n, env) && ls == LinesOf(o, indent) + rest && depth + Deep(o) <= 65
  }

  ghost predicate ItemsAre(os: seq<Outline>, ns: seq<Node>, ls: seq<Line>, indent: nat, depth: nat, rest: seq<Line>, env: map<string, string>) {
    LegalItems(os) && DenotesItems(os, ns, env) && ls == ItemLines(os, indent) + rest && depth + DeepItems(os) <= 64
  }

  ghost predicate KeyIs(k: Key, kv: (string, Node), ls: seq<Line>, indent: nat, depth: nat, rest: seq<Line>, env: map<string, string>) {
    LegalKey(k) && DenotesKey(k, kv, env) && ls == KeyLine(k, indent) + rest && depth + DeepKey(k) <= 64
  }

  ghost predicate KeysAre(ks: seq<Key>, es: seq<(string, Node)>, ls: seq<Line>, indent: nat, depth: nat, rest: seq<Line>, env: map<string, string>) {
    LegalKeys(ks) && DenotesKeys(ks, es, env) && ls == KeyLines(ks, indent) + rest && depth + DeepKeys(ks) <= 64
  }

  lemma {:induction false} BlockSound(ls: seq<Line>, indent: nat, depth: nat, env: map<string, string>) returns (o: Outline)
    requires ls != [] && ls[0].indent == indent && Block(ls, indent, depth, env).Ok?
    ensures var (n, rest) := Block(ls, indent, depth, env).value; BlockIs(o, n, ls, indent, depth, rest, env)
    decreases |ls|, HeadSize(ls), 2
  {
    if IsItem(ls[0].text) {
      var os := ItemsSound(ls, indent, depth, env);
      o := Bullets(os);
      assert os != [];
    } else {
      var ks := KeysSound(ls, indent, depth, env);
      o := Keys(ks);
      assert ks != [];
    }
  }

  /** The dash belongs to the item's first line. */
  lemma {:induction false} ItemMarked(ls: seq<Line>, indent: nat, block: seq<Line>, a: seq<Line>)
    requires AtItem(ls, indent) && block != [] && OpenItem(ls, indent) == block + a
    ensures ls == Mark(block, indent) + a
  {
    var r := OpenItem(ls, indent);
    assert r[0] == block[0] && r[1..] == block[1..] + a && r[1..] == ls[1..];
    assert ls[0].text == "- " + block[0].text;
    assert ls == [ls[0]] + ls[1..];
  }

  lemma {:induction false} ItemsJoin(o: Outline, os: seq<Outline>, n: Node, ns: seq<Node>, ls: seq<Line>, indent: nat, depth: nat,
                                     a: seq<Line>, rest: seq<Line>, env: map<string, string>)
    requires AtItem(ls, indent) && BlockIs(o, n, OpenItem(ls, indent), indent + 2, depth + 1, a, env)
    requires ItemsAre(os, ns, a, indent, depth, rest, env)
    ensures ItemsAre([o] + os, [n] + ns, ls, indent, depth, rest, env)
  {
    OutlineHead(o, indent + 2);
    var block := LinesOf(o, indent + 2);
    ItemMarked(ls, indent, block, a);
    assert ([o] + os)[1..] == os && ([n] + ns)[1..] == ns;
    Associates(Mark(block, indent), ItemLines(os, indent), rest);
  }

  lemma {:induction false} ItemsSound(ls: seq<Line>, indent: nat, depth: nat, env: map<string, string>) returns (os: seq<Outline>)
    requires depth <= 64 && Items(ls, indent, depth, env).Ok?
    ensures var (ns, rest) := Items(ls, indent, depth, env).value; ItemsAre(os, ns, ls, indent, depth, rest, env)
    ensures AtItem(ls, indent) ==> os != []
    decreases |ls|, HeadSize(ls), 1
  {
    if AtItem(ls, indent) {
      ItemsStep(ls, indent, depth, env);
      var (n, a) := Block(OpenItem(ls, indent), indent + 2, depth + 1, env).value;
      var o := BlockSound(OpenItem(ls, indent), indent + 2, depth + 1, env);
      var more := ItemsSound(a, indent, depth, env);
      var (ns, rest) := Items(a, indent, depth, env).value;
      ItemsJoin(o, more, n, ns, ls, indent, depth, a, rest, env);
      os := [o] + more;
    } else {
      os := [];
    }
  }

  /** The parts of a key line that is read. */
  lemma {:induction false} LineParts(text: string, colon: nat) returns (name: Cell, val: Cell)
    requires IndexOf(text, ':') == Some(colon)
    ensures LegalCell(name) && LegalCell(val) && ':' !in CellText(name)
    ensures text == CellText(name) + ":" + CellText(val)
    ensures name.text == Trim(text[..colon]) && val.text == Trim(text[colon + 1..])
  {
    NotBefore(text, ':');
    name := CellFound(text[..colon]);
    val := CellFound(text[colon + 1..]);
    assert text == text[..colon] + ":" + text[colon + 1..];
  }

  lemma {:induction false} KeySound(ls: seq<Line>, indent: nat, depth: nat, env: map<string, string>) returns (k: Key)
    requires depth <= 64 && AtEntry(ls, indent) && Entry(ls, indent, depth, env).Ok?
    ensures var (kv, rest) := Entry(ls, indent, depth, env).value; KeyIs(k, kv, ls, indent, depth, rest, env)
    decreases |ls|, HeadSize(ls), 0
  {
    var text, next := ls[0].text, ls[1..];
    var (kv, rest) := Entry(ls, indent, depth, env).value;
    var colon := IndexOf(text, ':').value;
    var name, val := LineParts(text, colon);
    EntryUnfold(ls, indent, depth, colon, name.text, val.text, env);
    DashedExact(text);
    if val.text != "" {
      var v := ValueFound(val);
      k := Leaf(name, v);
      ValueExact(v, env);
      LeafIs(ls, k, kv, indent, depth, env);
    } else if Ends(next, indent + 1) {
      k := EmptyLeaf(name, val);
      LeafIs(ls, k, kv, indent, depth, env);
    } else {
      var o := BlockSound(next, next[0].indent, depth + 1, env);
      k := EmptyBranch(name, val, next[0].indent - indent, o);
      BranchIs(ls, k, kv, indent, depth, rest, env);
    }
  }

  lemma {:induction false} EmptyLeaf(name: Cell, val: Cell) returns (k: Key)
    requires LegalCell(val) && val.text == ""
    ensures k.Leaf? && k.name == name && k.value.Nothing? && LegalValue(k.value)
    ensures KeyText(k) == CellText(name) + ":" + CellText(val)
  {
    var blank := val.left + val.right;
    assert AllBlank(blank);
    k := Leaf(name, Nothing(blank));
    assert CellText(val) == blank && CellText(Written(Nothing(blank))) == blank;
  }

  lemma {:induction false} EmptyBranch(name: Cell, val: Cell, deeper: nat, o: Outline) returns (k: Key)
    requires LegalCell(val) && val.text == ""
    ensures k.Branch? && k.name == name && k.deeper == deeper && k.under == o && AllBlank(k.blank)
    ensures KeyText(k) == CellText(name) + ":" + CellText(val)
  {
    k := Branch(name, val.left + val.right, deeper, o);
    assert CellText(val) == val.left + val.right;
  }

  lemma {:induction false} LeafIs(ls: seq<Line>, k: Key, kv: (string, Node), indent: nat, depth: nat, env: map<string, string>)
    requires ls != [] && ls[0] == Line(indent, KeyText(k)) && k.Leaf? && LegalText(k) && depth <= 64
    requires kv.0 == k.name.text && ValueMeans(k.value, kv.1, env)
    ensures KeyIs(k, kv, ls, indent, depth, ls[1..], env)
  {
    assert ls == [ls[0]] + [] + ls[1..];
  }

  lemma {:induction false} BranchIs(ls: seq<Line>, k: Key, kv: (string, Node), indent: nat, depth: nat, rest: seq<Line>, env: map<string, string>)
    requires ls != [] && ls[0] == Line(indent, KeyText(k)) && k.Branch? && LegalText(k) && k.deeper > 0 && kv.0 == k.name.text
    requires BlockIs(k.under, kv.1, ls[1..], indent + k.deeper, depth + 1, rest, env)
    ensures KeyIs(k, kv, ls, indent, depth, rest, env)
  {
    assert ls == [ls[0]] + ls[1..];
    Associates([ls[0]], LinesOf(k.under, indent + k.deeper), rest);
  }

  lemma {:induction false} KeysJoin(k: Key, ks: seq<Key>, kv: (string, Node), es: seq<(string, Node)>, ls: seq<Line>, indent: nat, depth: nat,
                                    a: seq<Line>, rest: seq<Line>, env: map<string, string>)
    requires KeyIs(k, kv, ls, indent, depth, a, env) && KeysAre(ks, es, a, indent, depth, rest, env)
    ensures KeysAre([k] + ks, [kv] + es, ls, indent, depth, rest, env)
  {
    assert ([k] + ks)[1..] == ks && ([kv] + es)[1..] == es;
    Associates(KeyLine(k, indent), KeyLines(ks, indent), rest);
  }

  lemma {:induction false} KeysSound(ls: seq<Line>, indent: nat, depth: nat, env: map<string, string>) returns (ks: seq<Key>)
    requires depth <= 64 && Entries(ls, indent, depth, env).Ok?
    ensures var (es, rest) := Entries(ls, indent, depth, env).value; KeysAre(ks, es, ls, indent, depth, rest, env)
    ensures AtEntry(ls, indent) ==> ks != []
    decreases |ls|, HeadSize(ls), 1
  {
    if AtEntry(ls, indent) {
      var (kv, a) := Entry(ls, indent, depth, env).value;
      EntriesStep(ls, indent, depth, env);
      var k := KeySound(ls, indent, depth, env);
      var more := KeysSound(a, indent, depth, env);
      var (es, rest) := Entries(a, indent, depth, env).value;
      KeysJoin(k, more, kv, es, ls, indent, depth, a, rest, env);
      ks := [k] + more;
    } else {
      ks := [];
    }
  }

  // ---------------------------------------------------------------- all lines

  /** The lines are those of one legal block that denotes `n` and nests at most 65 blocks; no lines are the empty map. */
  ghost predicate LinesMean(ls: seq<Line>, n: Node, env: map<string, string>) {
    if ls == [] then n == Map([])
    else exists o :: Legal(o) && Denotes(o, n, env) && Deep(o) <= 65 && ls == LinesOf(o, ls[0].indent)
  }

  /** Exactly the legal lines are accepted, each giving exactly the tree it denotes. */
  lemma {:induction false} LinesAccepted(ls: seq<Line>, n: Node, env: map<string, string>)
    ensures ParseLines(ls, env) == Ok(n) <==> LinesMean(ls, n, env)
  {
    if ls != [] {
      var indent := ls[0].indent;
      if ParseLines(ls, env) == Ok(n) {
        var o := BlockSound(ls, indent, 0, env);
        assert LinesOf(o, indent) + [] == LinesOf(o, indent);
      }
      if LinesMean(ls, n, env) {
        var o :| Legal(o) && Denotes(o, n, env) && Deep(o) <= 65 && ls == LinesOf(o, indent);
        BlockReads(o, n, indent, 0, [], env);
        assert ls + [] == ls;
      }
    }
  }
}
