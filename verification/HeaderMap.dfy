/**
  The header table of src/http/model.h: items in insertion order, an 8-bit tag of each name beside
  them, and a 256-bit set of the tags present. Lookups use the set and the tags as filters; the
  reference they are compared with is a plain case-insensitive scan of the items.
 */
module HeaderMap {
  import opened Common

  type Byte = bv8
  type Text = seq<Byte>
  type Header = (Text, Text)

  const SPACE: Byte := 0x20
  const TAB: Byte := 0x09
  const COMMA: Byte := 0x2C

  function Lower(c: Byte): Byte {
    if 0x41 <= c <= 0x5A then c - 0x41 + 0x61 else c
  }

  function Folded(s: Text): Text {
    seq(|s|, i requires 0 <= i < |s| => Lower(s[i]))
  }

  // ---------------------------------------------------------------- the plain table

  predicate Same(a: Text, b: Text) {
    Folded(a) == Folded(b)
  }

  /** The same byte, or the upper and the lower case of one of the letters A to Z. */
  predicate SameLetter(a: Byte, b: Byte) {
    || a == b
    || (0x41 <= a <= 0x5A && b == a + 0x20)
    || (0x41 <= b <= 0x5A && a == b + 0x20)
  }

  lemma LowerEqual(a: Byte, b: Byte)
    ensures Lower(a) == Lower(b) <==> SameLetter(a, b)
  {
  }

  /** Two names are the same exactly when they are as long and agree byte by byte, ASCII letters up to case. */
  lemma SameIsByLetter(a: Text, b: Text)
    ensures Same(a, b) <==> |a| == |b| && forall i :: 0 <= i < |a| ==> SameLetter(a[i], b[i])
  {
    if |a| == |b| {
      forall i | 0 <= i < |a| ensures Folded(a)[i] == Folded(b)[i] <==> SameLetter(a[i], b[i]) {
        LowerEqual(a[i], b[i]);
      }
      if forall i :: 0 <= i < |a| ==> SameLetter(a[i], b[i]) {
        assert Folded(a) == Folded(b);
      }
    } else {
      assert |Folded(a)| != |Folded(b)|;
    }
  }

  /** Values of the items named `key`, in order. */
  function Values(items: seq<Header>, key: Text): seq<Text> {
    if items == [] then []
    else (if Same(items[0].0, key) then [items[0].1] else []) + Values(items[1..], key)
  }

  function Without(items: seq<Header>, key: Text): seq<Header> {
    if items == [] then []
    else (if Same(items[0].0, key) then [] else [items[0]]) + Without(items[1..], key)
  }

  /** set: overwrite the first item named `key`, or append one. */
  function Put(items: seq<Header>, key: Text, value: Text): seq<Header> {
    if items == [] then [(key, value)]
    else if Same(items[0].0, key) then [(items[0].0, value)] + items[1..]
    else [items[0]] + Put(items[1..], key, value)
  }

  lemma {:induction false} ValuesSplit(a: seq<Header>, b: seq<Header>, key: Text)
    ensures Values(a + b, key) == Values(a, key) + Values(b, key)
  {
    if a == [] {
      assert a + b == b;
    } else {
      assert (a + b)[0] == a[0] && (a + b)[1..] == a[1..] + b;
      ValuesSplit(a[1..], b, key);
      Associates(if Same(a[0].0, key) then [a[0].1] else [], Values(a[1..], key), Values(b, key));
    }
  }

  lemma {:induction false} WithoutSplit(a: seq<Header>, b: seq<Header>, key: Text)
    ensures Without(a + b, key) == Without(a, key) + Without(b, key)
  {
    if a == [] {
      assert a + b == b;
    } else {
      assert (a + b)[0] == a[0] && (a + b)[1..] == a[1..] + b;
      WithoutSplit(a[1..], b, key);
      Associates(if Same(a[0].0, key) then [] else [a[0]], Without(a[1..], key), Without(b, key));
    }
  }

  /** Lookups do not depend on how the name is spelled. */
  lemma {:induction false} ValuesUpToCase(items: seq<Header>, key: Text, other: Text)
    ensures Same(key, other) ==> Values(items, key) == Values(items, other)
  {
    if items != [] {
      ValuesUpToCase(items[1..], key, other);
    }
  }

  /** set leaves one more value only if there was none, replaces just the first, and touches no other name. */
  lemma {:induction false} PutValues(items: seq<Header>, key: Text, value: Text, other: Text)
    ensures Values(Put(items, key, value), other) ==
            if !Same(key, other) then Values(items, other)
            else if Values(items, key) == [] then [value]
            else [value] + Values(items, key)[1..]
  {
    if items == [] {
      assert Put(items, key, value)[1..] == [];
    } else if Same(items[0].0, key) {
      assert Put(items, key, value)[1..] == items[1..];
      ValuesUpToCase(items[1..], key, other);
    } else {
      assert Put(items, key, value)[1..] == Put(items[1..], key, value);
      PutValues(items[1..], key, value, other);
    }
  }

  /** remove leaves no value under any spelling of the name and every other name as it was. */
  lemma {:induction false} WithoutValues(items: seq<Header>, key: Text, other: Text)
    ensures Values(Without(items, key), other) == if Same(key, other) then [] else Values(items, other)
    ensures |Without(items, key)| + |Values(items, key)| == |items|
  {
    if items != [] {
      WithoutValues(items[1..], key, other);
      if Same(items[0].0, key) {
        assert Without(items, key) == Without(items[1..], key);
      } else {
        assert Without(items, key)[1..] == Without(items[1..], key);
      }
    }
  }

  ghost predicate Increasing(at: seq<nat>) {
    forall j, k :: 0 <= j < k < |at| ==> at[j] < at[k]
  }

  /** `at` lists, in increasing order, the positions before `n` of items that have the name, or that have another one. */
  ghost predicate Positions(at: seq<nat>, items: seq<Header>, n: nat, key: Text, named: bool) {
    && n <= |items| && Increasing(at)
    && (forall j :: 0 <= j < |at| ==> at[j] < n)
    && (forall i: nat :: i < n ==> (i in at <==> Same(items[i].0, key) == named))
  }

  lemma {:induction false} PositionsNext(at: seq<nat>, items: seq<Header>, n: nat, key: Text, named: bool)
    requires n < |items| && Positions(at, items, n, key, named)
    ensures Positions(at + if Same(items[n].0, key) == named then [n] else [], items, n + 1, key, named)
  {
  }

  /** The values of a name are those of the items at exactly the positions with that name, in order. */
  lemma {:induction false} ValuesAt(items: seq<Header>, n: nat, key: Text) returns (at: seq<nat>)
    requires n <= |items|
    ensures Positions(at, items, n, key, true) && |Values(items[..n], key)| == |at|
    ensures forall j :: 0 <= j < |at| ==> Values(items[..n], key)[j] == items[at[j]].1
  {
    if n == 0 {
      at := [];
    } else {
      var before := ValuesAt(items, n - 1, key);
      PositionsNext(before, items, n - 1, key, true);
      ValuesNext(items, n - 1, key);
      at := before + if Same(items[n - 1].0, key) then [n - 1] else [];
    }
  }

  /** remove keeps the items at exactly the positions with another name, in order. */
  lemma {:induction false} WithoutAt(items: seq<Header>, n: nat, key: Text) returns (at: seq<nat>)
    requires n <= |items|
    ensures Positions(at, items, n, key, false) && |Without(items[..n], key)| == |at|
    ensures forall j :: 0 <= j < |at| ==> Without(items[..n], key)[j] == items[at[j]]
  {
    if n == 0 {
      at := [];
    } else {
      var before := WithoutAt(items, n - 1, key);
      PositionsNext(before, items, n - 1, key, false);
      WithoutNext(items, n - 1, key);
      at := before + if Same(items[n - 1].0, key) then [] else [n - 1];
    }
  }

  // ---------------------------------------------------------------- tags and the set of tags

  /** Length, first and last character folded into 8 bits. */
  function Tag(key: Text): Byte {
    if key == [] then 0 else Mix(|key|, Lower(key[0]), Lower(key[|key| - 1]))
  }

  function Mix(size: nat, first: Byte, last: Byte): Byte {
    var n := (size % 0x1_0000_0000_0000_0000) as bv64;
    (((n * 0x9D) ^ (first as bv64 * 0x35) ^ (last as bv64 << 3)) & 0xFF) as bv8
  }

  lemma {:induction false} SameTag(a: Text, b: Text)
    requires Same(a, b)
    ensures Tag(a) == Tag(b)
  {
    if a != [] {
      assert |Folded(a)| == |a| && |Folded(b)| == |b|;
      assert Folded(a)[0] == Folded(b)[0] && Folded(a)[|a| - 1] == Folded(b)[|b| - 1];
    }
  }

  /** `t >> 6`, the word of the set that holds tag `t`. */
  function Word(t: Byte): (i: nat)
    ensures i < 4 && i == (t >> 6) as int
  {
    if t >> 6 == 0 then 0 else if t >> 6 == 1 then 1 else if t >> 6 == 2 then 2 else 3
  }

  predicate Bit(word: bv64, t: Byte) {
    (word >> (t & 63)) & 1 == 1
  }

  function WithBit(word: bv64, t: Byte): bv64 {
    word | ((1 as bv64) << (t & 63))
  }

  lemma {:induction false} WithBitSets(word: bv64, t: Byte, u: Byte)
    ensures Bit(WithBit(word, t), u) <==> t & 63 == u & 63 || Bit(word, u)
  {
  }

  lemma {:induction false} WordBitDetermine(t: Byte, u: Byte)
    requires Word(t) == Word(u) && t & 63 == u & 63
    ensures t == u
  {
  }

  predicate Present(words: seq<bv64>, t: Byte)
    requires |words| == 4
  {
    Bit(words[Word(t)], t)
  }

  ghost predicate Exact(words: seq<bv64>, tags: seq<Byte>) {
    && |words| == 4
    && forall t: Byte :: Present(words, t) <==> t in tags
  }

  lemma {:induction false} NothingPresent(words: seq<bv64>)
    requires |words| == 4 && forall i :: 0 <= i < 4 ==> words[i] == 0
    ensures Exact(words, [])
  {
    forall t: Byte ensures !Present(words, t) {
      assert !Bit(0, t);
    }
  }

  lemma {:induction false} MarkExact(words: seq<bv64>, tags: seq<Byte>, t: Byte)
    requires Exact(words, tags)
    ensures Exact(words[Word(t) := WithBit(words[Word(t)], t)], tags + [t])
  {
    var marked := words[Word(t) := WithBit(words[Word(t)], t)];
    forall u: Byte ensures Present(marked, u) <==> u in tags + [t] {
      assert Present(words, u) <==> u in tags;
      if Word(u) == Word(t) {
        WithBitSets(words[Word(t)], t, u);
        if t & 63 == u & 63 {
          WordBitDetermine(t, u);
        }
      }
    }
  }

  function Tags(items: seq<Header>): seq<Byte> {
    seq(|items|, i requires 0 <= i < |items| => Tag(items[i].0))
  }

  lemma {:induction false} TagsUpdate(items: seq<Header>, i: nat, h: Header)
    requires i < |items|
    ensures Tags(items[i := h]) == Tags(items)[i := Tag(h.0)]
  {
  }

  lemma {:induction false} TagsTake(items: seq<Header>, n: nat)
    requires n <= |items|
    ensures Tags(items[..n]) == Tags(items)[..n]
  {
  }

  /** A name whose tag is not in the set names no item. */
  lemma {:induction false} AbsentTag(items: seq<Header>, key: Text)
    requires Tag(key) !in Tags(items)
    ensures Values(items, key) == [] && Without(items, key) == items
  {
    if items != [] {
      assert Tags(items)[0] == Tag(items[0].0);
      if Same(items[0].0, key) {
        SameTag(items[0].0, key);
        assert false;
      }
      assert Tags(items) == [Tag(items[0].0)] + Tags(items[1..]);
      AbsentTag(items[1..], key);
    }
  }

  // ---------------------------------------------------------------- list headers

  /** The pieces of a value between commas. */
  function Pieces(v: Text): (r: seq<Text>)
    ensures r != []
  {
    if v == [] then [[]]
    else
      var rest := Pieces(v[1..]);
      if v[0] == COMMA then [[]] + rest else [[v[0]] + rest[0]] + rest[1..]
  }

  function Joined(pieces: seq<Text>): Text {
    if pieces == [] then [] else if |pieces| == 1 then pieces[0] else pieces[0] + [COMMA] + Joined(pieces[1..])
  }

  lemma {:induction false} JoinedCons(piece: Text, rest: seq<Text>)
    requires rest != []
    ensures Joined([piece] + rest) == piece + [COMMA] + Joined(rest)
  {
    assert ([piece] + rest)[1..] == rest;
  }

  lemma {:induction false} JoinedGlue(c: Byte, rest: seq<Text>)
    requires rest != []
    ensures Joined([[c] + rest[0]] + rest[1..]) == [c] + Joined(rest)
  {
    var first, tail := rest[0], rest[1..];
    assert rest == [first] + tail;
    if tail != [] {
      JoinedCons([c] + first, tail);
      JoinedCons(first, tail);
      var end := [COMMA] + Joined(tail);
      assert first + [COMMA] + Joined(tail) == first + end;
      assert ([c] + first) + [COMMA] + Joined(tail) == [c] + (first + end);
    }
  }

  /** Pieces is the split at every comma: joining gives the value back and no piece holds a comma. */
  lemma {:induction false} PiecesAreTheSplit(v: Text)
    ensures Joined(Pieces(v)) == v
    ensures forall i :: 0 <= i < |Pieces(v)| ==> COMMA !in Pieces(v)[i]
  {
    if v != [] {
      var rest := Pieces(v[1..]);
      PiecesAreTheSplit(v[1..]);
      if v[0] == COMMA {
        JoinedCons([], rest);
        assert [] + [COMMA] + v[1..] == v;
      } else {
        JoinedGlue(v[0], rest);
        assert [v[0]] + v[1..] == v;
      }
    }
  }

  /** A comma-free run up to a comma, or to the end, is the first piece. */
  lemma {:induction false} PiecesStep(v: Text, comma: nat)
    requires comma <= |v| && COMMA !in v[..comma]
    requires comma < |v| ==> v[comma] == COMMA
    ensures Pieces(v) == [v[..comma]] + if comma < |v| then Pieces(v[comma + 1..]) else []
  {
    if comma > 0 {
      var w, p := v[1..], v[1..comma];
      assert v[0] in v[..comma];
      assert [v[0]] + p == v[..comma];
      var rest := if comma < |v| then Pieces(v[comma + 1..]) else [];
      assert Pieces(w) == [p] + rest by {
        assert w[..comma - 1] == p == v[..comma][1..];
        assert comma < |v| ==> w[comma..] == v[comma + 1..] && w[comma - 1] == v[comma];
        PiecesStep(w, comma - 1);
      }
      PiecesGlue(v, p, rest);
    } else {
      assert v[..0] == [];
    }
  }

  lemma {:induction false} PiecesGlue(v: Text, p: Text, rest: seq<Text>)
    requires v != [] && v[0] != COMMA && Pieces(v[1..]) == [p] + rest
    ensures Pieces(v) == [[v[0]] + p] + rest
  {
    HeadTail(p, rest);
  }

  lemma {:induction false} HeadTail<X>(x: X, t: seq<X>)
    ensures ([x] + t)[0] == x && ([x] + t)[1..] == t
  {
  }

  predicate Blank(c: Byte) {
    c == SPACE || c == TAB
  }

  predicate SpaceOrTab(c: Byte) {
    c == 0x20 || c == 0x09
  }

  /** `i`, `j` enclose the part of `s` between its leading and trailing blanks. */
  ghost predicate Edges(s: Text, i: nat, j: nat) {
    && i <= j <= |s|
    && (i < j ==> !SpaceOrTab(s[i]) && !SpaceOrTab(s[j - 1]))
    && (forall x :: 0 <= x < i ==> SpaceOrTab(s[x]))
    && (forall x :: j <= x < |s| ==> SpaceOrTab(s[x]))
  }

  ghost predicate IsTrimmed(s: Text, t: Text) {
    exists i: nat, j: nat :: Edges(s, i, j) && t == s[i..j]
  }

  method Trim(s: Text) returns (t: Text)
    ensures IsTrimmed(s, t)
  {
    var i, j := 0, |s|;
    while i < j && Blank(s[i])
      invariant i <= j && forall x :: 0 <= x < i ==> Blank(s[x])
    {
      i := i + 1;
    }
    while i < j && Blank(s[j - 1])
      invariant i <= j <= |s| && (forall x :: 0 <= x < i ==> Blank(s[x])) && (i < j ==> !Blank(s[i]))
      invariant forall x :: j <= x < |s| ==> Blank(s[x])
    {
      j := j - 1;
    }
    assert Edges(s, i, j);
    t := s[i..j];
  }

  lemma {:induction false} TrimIsUnique(s: Text, t: Text, u: Text)
    requires IsTrimmed(s, t) && IsTrimmed(s, u)
    ensures t == u
  {
    var i: nat, j: nat :| Edges(s, i, j) && t == s[i..j];
    var k: nat, l: nat :| Edges(s, k, l) && u == s[k..l];
    assert i < j || k < l ==> i == k && j == l;
  }

  ghost predicate PieceIs(piece: Text, token: Text) {
    exists t :: IsTrimmed(piece, t) && Same(t, token)
  }

  /** Some piece of the list value is the token, blanks around it and case aside. */
  ghost predicate TokenIn(v: Text, token: Text) {
    SomeIs(Pieces(v), token)
  }

  ghost predicate SomeIs(pieces: seq<Text>, token: Text) {
    exists i :: 0 <= i < |pieces| && PieceIs(pieces[i], token)
  }

  lemma {:induction false} SomeIsCons(piece: Text, rest: seq<Text>, token: Text)
    ensures SomeIs([piece] + rest, token) <==> PieceIs(piece, token) || SomeIs(rest, token)
  {
    var all := [piece] + rest;
    assert all[0] == piece;
    forall i | 0 <= i < |rest| ensures rest[i] == all[i + 1] {}
  }

  // ---------------------------------------------------------------- the scanning loops

  method Ieq(a: Text, b: Text) returns (r: bool)
    ensures r <==> Same(a, b)
  {
    assert |Folded(a)| == |a| && |Folded(b)| == |b|;
    if |a| != |b| {
      return false;
    }
    for i := 0 to |a|
      invariant Folded(a)[..i] == Folded(b)[..i]
    {
      if Lower(a[i]) != Lower(b[i]) {
        assert Folded(a)[i] != Folded(b)[i];
        return false;
      }
    }
    assert Folded(a)[..|a|] == Folded(a) && Folded(b)[..|b|] == Folded(b);
    return true;
  }

  method FindComma(v: Text, start: nat) returns (comma: nat)
    requires start <= |v|
    ensures start <= comma <= |v| && COMMA !in v[start..comma]
    ensures comma < |v| ==> v[comma] == COMMA
  {
    comma := start;
    while comma < |v| && v[comma] != COMMA
      invariant start <= comma <= |v| && COMMA !in v[start..comma]
    {
      assert v[start..comma + 1] == v[start..comma] + [v[comma]];
      comma := comma + 1;
    }
  }

  lemma {:induction false} NextToken(v: Text, start: nat, comma: nat, token: Text)
    requires start <= comma <= |v| && COMMA !in v[start..comma]
    requires comma < |v| ==> v[comma] == COMMA
    ensures TokenIn(v[start..], token) <==>
            PieceIs(v[start..comma], token) || (comma < |v| && TokenIn(v[comma + 1..], token))
  {
    var piece, rest := v[start..comma], if comma < |v| then Pieces(v[comma + 1..]) else [];
    assert Pieces(v[start..]) == [piece] + rest by {
      assert v[start..][..comma - start] == piece;
      assert comma < |v| ==> v[start..][comma - start + 1..] == v[comma + 1..];
      PiecesStep(v[start..], comma - start);
    }
    SomeIsCons(piece, rest, token);
  }

  method PieceMatches(piece: Text, token: Text) returns (r: bool)
    ensures r <==> PieceIs(piece, token)
  {
    var t := Trim(piece);
    r := Ieq(t, token);
    if !r {
      forall u | IsTrimmed(piece, u) ensures u == t { TrimIsUnique(piece, t, u); }
    }
  }

  method ListHasToken(v: Text, token: Text) returns (r: bool)
    ensures r <==> TokenIn(v, token)
  {
    var start := 0;
    assert v[0..] == v;
    while start <= |v|
      invariant start <= |v| + 1
      invariant TokenIn(v, token) <==> start <= |v| && TokenIn(v[start..], token)
    {
      var comma := FindComma(v, start);
      NextToken(v, start, comma, token);
      var hit := PieceMatches(v[start..comma], token);
      if hit {
        return true;
      }
      start := comma + 1;
    }
    return false;
  }

  // ---------------------------------------------------------------- the table

  class HeaderMap {
    var items: seq<Header>
    var tags: seq<Byte>
    const present: array<bv64>

    ghost predicate Valid()
      reads this, present
    {
      && present.Length == 4
      && tags == Tags(items)
      && Exact(present[..], tags)
    }

    constructor ()
      ensures Valid() && items == [] && fresh(present)
    {
      items, tags := [], [];
      present := new bv64[4](_ => 0);
      new;
      NothingPresent(present[..]);
    }

    method Mark(t: Byte)
      requires present.Length == 4
      modifies present
      ensures forall seen: seq<Byte> :: old(Exact(present[..], seen)) ==> Exact(present[..], seen + [t])
    {
      ghost var before := present[..];
      present[Word(t)] := WithBit(present[Word(t)], t);
      assert present[..] == before[Word(t) := WithBit(before[Word(t)], t)];
      forall seen: seq<Byte> | Exact(before, seen) ensures Exact(present[..], seen + [t]) {
        MarkExact(before, seen, t);
      }
    }

    predicate Maybe(t: Byte)
      requires present.Length == 4
      reads this, present
    {
      Bit(present[Word(t)], t)
    }

    method Add(key: Text, value: Text)
      requires Valid()
      modifies this, present
      ensures Valid() && items == old(items) + [(key, value)]
    {
      var t := Tag(key);
      tags := tags + [t];
      Mark(t);
      items := items + [(key, value)];
    }

    /** `tags_[i] == t && ieq(items_[i].first, key)`: the filtered comparison is the plain one. */
    method SameAt(i: nat, t: Byte, key: Text) returns (r: bool)
      requires i < |items| && tags == Tags(items) && t == Tag(key)
      ensures r <==> Same(items[i].0, key)
    {
      if tags[i] != t {
        assert !Same(items[i].0, key) by {
          if Same(items[i].0, key) { SameTag(items[i].0, key); }
        }
        return false;
      }
      r := Ieq(items[i].0, key);
    }

    /** The scan shared by find and find_mut: the first item of that name, or `None`. */
    method FindIndex(key: Text) returns (r: Option<nat>)
      requires Valid()
      ensures r.Some? ==> r.value < |items| && Same(items[r.value].0, key) && Values(items[..r.value], key) == []
      ensures r.None? ==> Values(items, key) == []
    {
      var t := Tag(key);
      assert Present(present[..], t) == Maybe(t);
      if !Maybe(t) {
        AbsentTag(items, key);
        return None;
      }
      for i := 0 to |items|
        invariant Values(items[..i], key) == []
      {
        assert items[..i + 1] == items[..i] + [items[i]];
        ValuesSplit(items[..i], [items[i]], key);
        var same := SameAt(i, t, key);
        if same {
          return Some(i);
        }
      }
      assert items[..|items|] == items;
      return None;
    }

    method Find(key: Text) returns (r: Option<Text>)
      requires Valid()
      ensures r == if Values(items, key) == [] then None else Some(Values(items, key)[0])
    {
      var at := FindIndex(key);
      if at.None? {
        return None;
      }
      FirstValue(items, key, at.value);
      return Some(items[at.value].1);
    }

    method Set(key: Text, value: Text)
      requires Valid()
      modifies this, present
      ensures Valid() && items == Put(old(items), key, value)
    {
      var at := FindIndex(key);
      if at.Some? {
        PutAt(items, key, value, at.value);
        items := items[at.value := (items[at.value].0, value)];
        return;
      }
      PutAbsent(items, key, value);
      Add(key, value);
    }

    method GetAll(key: Text) returns (r: seq<Text>)
      requires Valid()
      ensures r == Values(items, key)
    {
      var t := Tag(key);
      assert Present(present[..], t) == Maybe(t);
      if !Maybe(t) {
        AbsentTag(items, key);
        return [];
      }
      r := [];
      for i := 0 to |items|
        invariant r == Values(items[..i], key)
      {
        assert items[..i + 1] == items[..i] + [items[i]];
        ValuesSplit(items[..i], [items[i]], key);
        var same := SameAt(i, t, key);
        if same {
          r := r + [items[i].1];
        }
      }
      assert items[..|items|] == items;
    }

    method Count(key: Text) returns (n: nat)
      requires Valid()
      ensures n == |Values(items, key)|
    {
      var t := Tag(key);
      assert Present(present[..], t) == Maybe(t);
      if !Maybe(t) {
        AbsentTag(items, key);
        return 0;
      }
      n := 0;
      for i := 0 to |items|
        invariant n == |Values(items[..i], key)|
      {
        assert items[..i + 1] == items[..i] + [items[i]];
        ValuesSplit(items[..i], [items[i]], key);
        var same := SameAt(i, t, key);
        if same {
          n := n + 1;
        }
      }
      assert items[..|items|] == items;
    }

    method HasToken(key: Text, token: Text) returns (r: bool)
      requires Valid()
      ensures r <==> AnyToken(Values(items, key), token)
    {
      var t := Tag(key);
      assert Present(present[..], t) == Maybe(t);
      if !Maybe(t) {
        AbsentTag(items, key);
        return false;
      }
      for i := 0 to |items|
        invariant !AnyToken(Values(items[..i], key), token)
      {
        ValuesNext(items, i, key);
        var same := SameAt(i, t, key);
        if same {
          var hit := ListHasToken(items[i].1, token);
          if hit {
            MoreValues(items, i + 1, key, items[i].1);
            return true;
          }
        }
      }
      assert items[..|items|] == items;
      return false;
    }

    /** Compacts in place, then rebuilds the set of tags from what is left. */
    method Remove(key: Text) returns (removed: nat)
      requires Valid()
      modifies this, present
      ensures Valid() && items == Without(old(items), key)
      ensures removed == |Values(old(items), key)|
    {
      var t := Tag(key);
      assert Present(present[..], t) == Maybe(t);
      if !Maybe(t) {
        AbsentTag(items, key);
        return 0;
      }
      removed := Compact(t, key);
      WithoutValues(old(items), key, key);
      if removed > 0 {
        Rebuild();
      }
    }

    method Compact(t: Byte, key: Text) returns (removed: nat)
      requires tags == Tags(items) && t == Tag(key)
      modifies this
      ensures tags == Tags(items) && items == Without(old(items), key)
      ensures removed == |old(items)| - |items|
      ensures removed == 0 ==> items == old(items)
    {
      ghost var was := items;
      var w, n := 0, |items|;
      for r := 0 to n
        invariant w <= r && |items| == n && tags == Tags(items)
        invariant items[..w] == Without(was[..r], key)
        invariant items[r..] == was[r..]
        invariant w == r ==> items == was
      {
        WithoutNext(was, r, key);
        assert items[r] == items[r..][0] == was[r];
        assert items[r + 1..] == items[r..][1..];
        var same := SameAt(r, t, key);
        if !same {
          if w != r {
            TagsUpdate(items, w, items[r]);
            items := items[w := items[r]];
            tags := tags[w := tags[r]];
          }
          assert items[..w + 1] == items[..w] + [was[r]];
          w := w + 1;
        }
      }
      assert was[..n] == was;
      removed := n - w;
      TagsTake(items, w);
      items := items[..w];
      tags := tags[..w];
    }

    method Rebuild()
      requires present.Length == 4
      modifies present
      ensures Exact(present[..], tags)
    {
      for i := 0 to 4
        invariant forall j :: 0 <= j < i ==> present[j] == 0
      {
        present[i] := 0;
      }
      NothingPresent(present[..]);
      for i := 0 to |tags|
        invariant Exact(present[..], tags[..i])
      {
        assert tags[..i + 1] == tags[..i] + [tags[i]];
        Mark(tags[i]);
      }
      assert tags[..|tags|] == tags;
    }
  }

  lemma {:induction false} ValuesNext(items: seq<Header>, r: nat, key: Text)
    requires r < |items|
    ensures Values(items[..r + 1], key) ==
            Values(items[..r], key) + if Same(items[r].0, key) then [items[r].1] else []
  {
    assert items[..r + 1] == items[..r] + [items[r]];
    ValuesSplit(items[..r], [items[r]], key);
    assert [items[r]][1..] == [];
  }

  /** Some value of a list header holds the token. */
  ghost predicate AnyToken(vs: seq<Text>, token: Text) {
    exists v <- vs :: TokenIn(v, token)
  }

  lemma {:induction false} MoreValues(items: seq<Header>, r: nat, key: Text, v: Text)
    requires r <= |items| && v in Values(items[..r], key)
    ensures v in Values(items, key)
  {
    assert items == items[..r] + items[r..];
    ValuesSplit(items[..r], items[r..], key);
  }

  lemma {:induction false} WithoutNext(items: seq<Header>, r: nat, key: Text)
    requires r < |items|
    ensures Without(items[..r + 1], key) ==
            Without(items[..r], key) + if Same(items[r].0, key) then [] else [items[r]]
  {
    assert items[..r + 1] == items[..r] + [items[r]];
    WithoutSplit(items[..r], [items[r]], key);
    assert [items[r]][1..] == [];
  }

  lemma {:induction false} FirstValue(items: seq<Header>, key: Text, i: nat)
    requires i < |items| && Same(items[i].0, key) && Values(items[..i], key) == []
    ensures Values(items, key) != [] && Values(items, key)[0] == items[i].1
  {
    assert items == items[..i] + items[i..];
    ValuesSplit(items[..i], items[i..], key);
  }

  lemma {:induction false} PutAt(items: seq<Header>, key: Text, value: Text, i: nat)
    requires i < |items| && Same(items[i].0, key) && Values(items[..i], key) == []
    ensures Put(items, key, value) == items[i := (items[i].0, value)]
    ensures Tags(Put(items, key, value)) == Tags(items)
  {
    if i > 0 {
      assert items[..i][1..] == items[1..][..i - 1];
      PutAt(items[1..], key, value, i - 1);
    }
  }

  lemma {:induction false} PutAbsent(items: seq<Header>, key: Text, value: Text)
    requires Values(items, key) == []
    ensures Put(items, key, value) == items + [(key, value)]
  {
    if items != [] {
      PutAbsent(items[1..], key, value);
    }
  }
}
