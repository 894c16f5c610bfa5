/**
  The tokens of the XML subset that src/s3/xml.cc reads, as data: blanks, terminated markup, character data and
  references. Each has a text and a value; the scanning functions read exactly these texts and give these values.
 */
module XmlTokens {
  import opened Common
  import opened Xml
  import opened XmlText
  import opened XmlRoundTrip
  import opened XmlReferences

  // ---------------------------------------------------------------- up to a terminator

  predicate OccursAt(w: string, p: string, i: nat) {
    i + |p| <= |w| && w[i..i + |p|] == p
  }

  /** `p` ends the text and occurs nowhere before. */
  ghost predicate EndsFirst(w: string, p: string) {
    |p| <= |w| && OccursAt(w, p, |w| - |p|) && forall i: nat :: i < |w| - |p| ==> !OccursAt(w, p, i)
  }

  lemma OccursTail(w: string, p: string, i: nat)
    requires w != ""
    ensures OccursAt(w[1..], p, i) <==> OccursAt(w, p, i + 1)
  {
    assert i + 1 + |p| <= |w| ==> w[1..][i..i + |p|] == w[i + 1..i + 1 + |p|];
  }

  lemma OccursBefore(w: string, r: string, p: string)
    requires |p| <= |w|
    ensures StartsWith(w + r, p) <==> OccursAt(w, p, 0)
  {
    assert (w + r)[..|p|] == w[0..0 + |p|];
  }

  lemma EndsFirstTail(w: string, p: string)
    requires EndsFirst(w, p) && |p| < |w|
    ensures EndsFirst(w[1..], p)
  {
    var t := w[1..];
    forall i: nat ensures OccursAt(t, p, i) <==> OccursAt(w, p, i + 1) {
      OccursTail(w, p, i);
    }
  }

  lemma {:induction false} AfterExact(w: string, p: string, r: string)
    requires EndsFirst(w, p) && p != ""
    ensures After(w + r, p) == Some(r)
    decreases |w|
  {
    var u := w + r;
    OccursBefore(w, r, p);
    if |w| == |p| {
      assert u[|p|..] == r;
    } else {
      assert u[1..] == w[1..] + r;
      EndsFirstTail(w, p);
      AfterExact(w[1..], p, r);
    }
  }

  lemma {:induction false} AfterSound(r: string, p: string) returns (w: string)
    requires p != "" && After(r, p).Some?
    ensures EndsFirst(w, p) && r == w + After(r, p).value
    decreases |r|
  {
    if StartsWith(r, p) {
      w := p;
      assert p[0..|p|] == p && r == r[..|p|] + r[|p|..];
    } else {
      var v := AfterSound(r[1..], p);
      w := [r[0]] + v;
      var rest := After(r, p).value;
      assert r == [r[0]] + r[1..];
      Associates([r[0]], v, rest);
      OneMoreBefore(w, v, rest, p);
    }
  }

  lemma OneMoreBefore(w: string, v: string, rest: string, p: string)
    requires EndsFirst(v, p) && w != "" && w[1..] == v && !StartsWith(w + rest, p)
    ensures EndsFirst(w, p)
  {
    OccursBefore(w, rest, p);
    OccursTail(w, p, |v| - |p|);
    forall i: nat | i < |w| - |p| ensures !OccursAt(w, p, i) {
      if i > 0 { OccursTail(w, p, i - 1); }
    }
  }

  // ---------------------------------------------------------------- blanks between tokens

  predicate AllSpace(w: string) {
    forall i :: 0 <= i < |w| ==> SpaceCode(w[i] as int)
  }

  predicate NoSpaceAhead(r: string) {
    r != "" ==> !SpaceCode(r[0] as int)
  }

  lemma {:induction false} SkipExact(w: string, r: string)
    requires AllSpace(w) && NoSpaceAhead(r)
    ensures SkipSpace(w + r) == r
  {
    if w == "" {
      assert w + r == r;
    } else {
      assert (w + r)[0] == w[0] && (w + r)[1..] == w[1..] + r;
      SkipExact(w[1..], r);
    }
  }

  lemma {:induction false} SkipSound(r: string) returns (w: string)
    ensures AllSpace(w) && r == w + SkipSpace(r) && NoSpaceAhead(SkipSpace(r))
  {
    if r != "" && IsSpace(r[0]) {
      var v := SkipSound(r[1..]);
      w := [r[0]] + v;
      assert r == [r[0]] + r[1..];
      Associates([r[0]], v, SkipSpace(r));
    } else {
      w := "";
      assert "" + r == r;
    }
  }

  // ---------------------------------------------------------------- digits

  /** The value of a digit by its code point, or -1. */
  function DigitCode(n: int): int {
    if 48 <= n <= 57 then n - 48 else if 97 <= n <= 102 then n - 87 else if 65 <= n <= 70 then n - 55 else -1
  }

  predicate IsDigit(c: char, radix: nat) {
    0 <= DigitCode(c as int) < radix
  }

  predicate AllDigit(d: string, radix: nat) {
    forall i :: 0 <= i < |d| ==> IsDigit(d[i], radix)
  }

  predicate NoDigitAhead(r: string, radix: nat) {
    r != "" ==> !IsDigit(r[0], radix)
  }

  /** Positional notation: the last digit counts one. */
  function ValueOf(d: string, radix: nat): nat
    requires AllDigit(d, radix)
  {
    if d == "" then 0 else ValueOf(d[..|d| - 1], radix) * radix + DigitCode(d[|d| - 1] as int)
  }

  lemma DigitExact(c: char, radix: nat)
    requires radix <= 16
    ensures DigitValue(c) < radix <==> IsDigit(c, radix)
    ensures IsDigit(c, radix) ==> DigitValue(c) == DigitCode(c as int)
  {
  }

  lemma {:induction false} DigitsStop(d: string, r: string, radix: nat, acc: nat)
    requires AllDigit(d, radix) && NoDigitAhead(r, radix) && radix <= 16
    ensures Digits(d + r, radix, acc) == Digits(d, radix, acc)
  {
    if d == "" {
      assert d + r == r;
      if r != "" { DigitExact(r[0], radix); }
    } else {
      DigitExact(d[0], radix);
      assert (d + r)[0] == d[0] && (d + r)[1..] == d[1..] + r;
      DigitsStop(d[1..], r, radix, acc * radix + DigitValue(d[0]));
    }
  }

  lemma {:induction false} DigitsLast(d: string, c: char, radix: nat, acc: nat)
    requires AllDigit(d, radix) && IsDigit(c, radix) && radix <= 16
    ensures Digits(d + [c], radix, acc) == Digits(d, radix, acc) * radix + DigitCode(c as int)
  {
    if d == "" {
      DigitExact(c, radix);
      assert d + [c] == [c] && [c][1..] == "";
    } else {
      DigitExact(d[0], radix);
      assert (d + [c])[0] == d[0] && (d + [c])[1..] == d[1..] + [c];
      DigitsLast(d[1..], c, radix, acc * radix + DigitValue(d[0]));
    }
  }

  lemma {:induction false} DigitsExact(d: string, radix: nat)
    requires AllDigit(d, radix) && radix <= 16
    ensures Digits(d, radix, 0) == ValueOf(d, radix)
  {
    if d != "" {
      var n := |d| - 1;
      DigitsExact(d[..n], radix);
      DigitsLast(d[..n], d[n], radix, 0);
      assert d[..n] + [d[n]] == d;
    }
  }

  lemma {:induction false} DigitsSpan(r: string, radix: nat) returns (d: string, rest: string)
    ensures r == d + rest && AllDigit(d, radix) && NoDigitAhead(rest, radix)
    ensures r != "" && IsDigit(r[0], radix) ==> d != "" && d[0] == r[0]
  {
    if r != "" && IsDigit(r[0], radix) {
      var e;
      e, rest := DigitsSpan(r[1..], radix);
      d := [r[0]] + e;
      assert r == [r[0]] + r[1..];
      Associates([r[0]], e, rest);
    } else {
      d, rest := "", r;
    }
  }

  // ---------------------------------------------------------------- character references

  /**
    A numeric reference without its & and ;: "#", an "x" when hexadecimal, then what std::stol admits: blanks, a plus sign, for
    hexadecimal a 0x, the digits, and anything that is not a further digit.
   */
  datatype Numeric = Numeric(x: string, blanks: string, plus: string, zero: string, digits: string, junk: string)

  function Radix(n: Numeric): nat {
    if n.x == "" then 10 else 16
  }

  function Number(n: Numeric): string {
    n.plus + (n.zero + (n.digits + n.junk))
  }

  function NumericText(n: Numeric): string {
    "#" + (n.x + (n.blanks + Number(n)))
  }

  predicate IsX(c: char) {
    c == 'x' || c == 'X'
  }

  /** A zero that is not the first half of a 0x. */
  predicate PlainZero(r: string) {
    |r| > 2 && r[0] == '0' && IsX(r[1]) ==> !IsDigit(r[2], 16)
  }

  predicate LegalNumeric(n: Numeric) {
    && (n.x == "" || n.x == "x" || n.x == "X")
    && AllSpace(n.blanks) && (n.plus == "" || n.plus == "+")
    && (n.zero == "" || (n.x != "" && (n.zero == "0x" || n.zero == "0X")))
    && n.digits != "" && AllDigit(n.digits, Radix(n)) && NoDigitAhead(n.junk, Radix(n))
    && (n.zero == "" && n.x != "" ==> PlainZero(n.digits + n.junk))
    && 0 < ValueOf(n.digits, Radix(n)) <= 0x10FFFF
  }

  lemma {:induction false} PrefixExact(n: Numeric)
    requires LegalNumeric(n)
    ensures SkipPrefix(n.zero + (n.digits + n.junk), Radix(n)) == n.digits + n.junk
  {
    var tail := n.digits + n.junk;
    var c := n.zero + tail;
    if n.zero != "" {
      assert c[0] == '0' && IsX(c[1]) && c[2] == n.digits[0] && c[2..] == tail;
      DigitExact(c[2], 16);
    } else {
      assert c == tail;
      if |c| > 2 { DigitExact(c[2], 16); }
    }
  }

  lemma {:induction false} UnsignedExact(n: Numeric)
    requires LegalNumeric(n)
    ensures Unsigned(n.zero + (n.digits + n.junk), Radix(n)) == Some(ValueOf(n.digits, Radix(n)))
  {
    PrefixExact(n);
    assert (n.digits + n.junk)[0] == n.digits[0];
    DigitExact(n.digits[0], Radix(n));
    DigitsStop(n.digits, n.junk, Radix(n), 0);
    DigitsExact(n.digits, Radix(n));
  }

  /** What the number begins with: a sign or a digit. */
  lemma {:induction false} NumberHead(n: Numeric)
    requires LegalNumeric(n)
    ensures var a := Number(n); a != "" && a[0] == if n.plus == "+" then '+' else if n.zero != "" then '0' else n.digits[0]
    ensures n.plus == "+" ==> Number(n)[1..] == n.zero + (n.digits + n.junk)
    ensures n.plus == "" ==> Number(n) == n.zero + (n.digits + n.junk)
  {
  }

  lemma {:induction false} StolExact(n: Numeric)
    requires LegalNumeric(n)
    ensures Stol(n.blanks + Number(n), Radix(n)) == Some(ValueOf(n.digits, Radix(n)))
  {
    NumberHead(n);
    SkipExact(n.blanks, Number(n));
    UnsignedExact(n);
  }

  /** An optional 0x, the digits and what follows them. */
  lemma {:induction false} UnsignedSound(b: string, x: string) returns (zero: string, digits: string, junk: string)
    requires x == "" || x == "x" || x == "X"
    requires var radix := if x == "" then 10 else 16; Unsigned(b, radix).Some? && 0 < Unsigned(b, radix).value <= 0x10FFFF
    ensures LegalNumeric(Numeric(x, "", "", zero, digits, junk)) && b == zero + (digits + junk)
    ensures var radix := if x == "" then 10 else 16; Unsigned(b, radix) == Some(ValueOf(digits, radix))
  {
    var radix := if x == "" then 10 else 16;
    var c := SkipPrefix(b, radix);
    zero := b[..|b| - |c|];
    DigitExact(c[0], radix);
    digits, junk := DigitsSpan(c, radix);
    DigitsStop(digits, junk, radix, 0);
    DigitsExact(digits, radix);
    if |b| > 2 { DigitExact(b[2], 16); }
    if c == b {
      assert zero == "";
    } else {
      assert zero == b[..2] && (zero == "0x" || zero == "0X");
    }
    assert b == zero + c;
  }

  /** Whatever std::stol reads as a positive number has this form. */
  lemma {:induction false} StolSound(s: string, x: string) returns (n: Numeric)
    requires x == "" || x == "x" || x == "X"
    requires var v := Stol(s, if x == "" then 10 else 16); v.Some? && 0 < v.value <= 0x10FFFF
    ensures LegalNumeric(n) && n.x == x && n.blanks + Number(n) == s
    ensures Stol(s, Radix(n)) == Some(ValueOf(n.digits, Radix(n)))
  {
    StolSkips(s, if x == "" then 10 else 16);
    var w := SkipSound(s);
    var plus, b := SignSound(SkipSpace(s), if x == "" then 10 else 16);
    var zero, digits, junk := UnsignedSound(b, x);
    n := Numeric(x, w, plus, zero, digits, junk);
    assert Number(n) == plus + b;
  }

  lemma {:induction false} SignSound(a: string, radix: nat) returns (plus: string, b: string)
    requires NoSpaceAhead(a) && Stol(a, radix).Some? && Stol(a, radix).value > 0
    ensures (plus == "" || plus == "+") && a == plus + b && Stol(a, radix) == Unsigned(b, radix)
  {
    plus := if a != "" && a[0] == '+' then "+" else "";
    b := a[|plus|..];
    assert plus + b == a;
  }

  lemma {:induction false} StolSkips(s: string, radix: nat)
    ensures Stol(s, radix) == Stol(SkipSpace(s), radix)
  {
    var w := SkipSound(s);
    assert SkipSpace(SkipSpace(s)) == SkipSpace(s);
  }

  /** Character data: a plain character, one of the five named references, or a numeric one. */
  datatype Piece = Raw(c: char) | Named(name: string) | Coded(n: Numeric)

  /** The named references, by code point. */
  function NamedCode(name: string): Option<int> {
    if name == "lt" then Some(60) else if name == "gt" then Some(62) else if name == "amp" then Some(38)
    else if name == "quot" then Some(34) else if name == "apos" then Some(39) else None
  }

  function Inside(p: Piece): string {
    match p
    case Raw(c) => [c]
    case Named(name) => name
    case Coded(n) => NumericText(n)
  }

  function PieceText(p: Piece): string {
    if p.Raw? then [p.c] else "&" + Inside(p) + ";"
  }

  predicate LegalPiece(p: Piece) {
    match p
    case Raw(c) => c != '<' && c != '&'
    case Named(name) => NamedCode(name).Some?
    case Coded(n) => LegalNumeric(n) && ';' !in NumericText(n) && |NumericText(n)| <= 15
  }

  /** What a piece stands for: itself, a character, or the UTF-8 form of a code point. */
  ghost predicate Means(p: Piece, v: string) {
    match p
    case Raw(c) => v == [c]
    case Named(name) => NamedCode(name).Some? && |v| == 1 && v[0] as int == NamedCode(name).value
    case Coded(n) => LegalNumeric(n) && |v| > 0 && CodePoint(v) == Some(ValueOf(n.digits, Radix(n)))
  }

  function PieceValue(p: Piece): string
    requires LegalPiece(p)
  {
    match p
    case Raw(c) => [c]
    case Named(name) => if name == "lt" then "<" else if name == "gt" then ">" else if name == "amp" then "&" else if name == "quot" then "\"" else "'"
    case Coded(n) => Utf8(ValueOf(n.digits, Radix(n)))
  }

  lemma ValueIsMeant(p: Piece)
    requires LegalPiece(p)
    ensures Means(p, PieceValue(p))
  {
    if p.Coded? {
      Utf8Decodes(ValueOf(p.n.digits, Radix(p.n)));
    }
  }

  lemma {:induction false} CodeExact(n: Numeric)
    requires LegalNumeric(n)
    ensures CodeValue(n.x + (n.blanks + Number(n))) == Ok(Utf8(ValueOf(n.digits, Radix(n))))
  {
    var s := n.blanks + Number(n);
    var r := n.x + s;
    StolExact(n);
    if n.x == "" {
      assert r == s;
      NoXAhead(n);
    } else {
      assert r[0] == n.x[0] && r[1..] == s;
    }
  }

  lemma {:induction false} NoXAhead(n: Numeric)
    requires LegalNumeric(n) && n.x == ""
    ensures var s := n.blanks + Number(n); s != "" && !IsX(s[0])
  {
    var s := n.blanks + Number(n);
    NumberHead(n);
    if n.blanks != "" {
      assert s[0] == n.blanks[0];
    } else {
      assert s == Number(n);
    }
  }

  lemma {:induction false} HashFirst(r: string)
    ensures EntityValue("#" + r) == CodeValue(r)
  {
    var e := "#" + r;
    assert e[0] == '#' && e[1..] == r;
  }

  lemma {:induction false} NamedExact(name: string)
    requires NamedCode(name).Some?
    ensures EntityValue(name) == Ok(PieceValue(Named(name)))
  {
  }

  lemma {:induction false} EntityValueExact(p: Piece)
    requires LegalPiece(p) && !p.Raw?
    ensures EntityValue(Inside(p)) == Ok(PieceValue(p))
  {
    if p.Coded? {
      var r := p.n.x + (p.n.blanks + Number(p.n));
      assert EntityValue("#" + r) == Ok(Utf8(ValueOf(p.n.digits, Radix(p.n)))) by {
        CodeExact(p.n);
        HashFirst(r);
      }
    } else {
      NamedExact(p.name);
    }
  }

  lemma {:induction false} CodeSound(r: string) returns (n: Numeric)
    requires CodeValue(r).Ok?
    ensures LegalNumeric(n) && n.x + (n.blanks + Number(n)) == r
    ensures CodeValue(r) == Ok(Utf8(ValueOf(n.digits, Radix(n))))
  {
    if r != "" && IsX(r[0]) {
      n := StolSound(r[1..], r[..1]);
      assert r == r[..1] + r[1..];
    } else {
      n := StolSound(r, "");
      assert "" + r == r;
    }
  }

  lemma {:induction false} EntityValueSound(e: string) returns (p: Piece)
    requires EntityValue(e).Ok?
    ensures !p.Raw? && Inside(p) == e && (p.Coded? ==> LegalNumeric(p.n)) && (p.Named? ==> LegalPiece(p))
    ensures p.Named? ==> EntityValue(e) == Ok(PieceValue(p))
    ensures p.Coded? ==> EntityValue(e) == Ok(Utf8(ValueOf(p.n.digits, Radix(p.n))))
  {
    if NamedCode(e).Some? {
      p := Named(e);
    } else {
      var n := CodeSound(e[1..]);
      p := Coded(n);
      assert e == "#" + e[1..];
    }
  }

  // ---------------------------------------------------------------- character data

  lemma {:induction false} PieceExact(p: Piece, r: string)
    requires LegalPiece(p)
    ensures ParseText(PieceText(p) + r) == PrependText(PieceValue(p), ParseText(r))
  {
    if p.Raw? {
      assert ([p.c] + r)[1..] == r;
    } else {
      ReferenceReads(p, r);
      var u := PieceText(p) + r;
      assert u[0] == '&';
    }
  }

  lemma {:induction false} ReferenceReads(p: Piece, r: string)
    requires LegalPiece(p) && !p.Raw?
    ensures var u := PieceText(p) + r; u != "" && u[0] == '&' && ParseEntity(u) == Ok((PieceValue(p), r))
  {
    var e := Inside(p);
    assert EntityValue(e) == Ok(PieceValue(p)) by { EntityValueExact(p); }
    assert ';' !in e && |e| <= 15;
    EntityReads(e, PieceValue(p), r);
    assert PieceText(p) + r == "&" + e + ";" + r;
  }

  function PiecesText(ps: seq<Piece>): string {
    if ps == [] then "" else PieceText(ps[0]) + PiecesText(ps[1..])
  }

  function PiecesValue(ps: seq<Piece>): string
    requires forall p <- ps :: LegalPiece(p)
  {
    if ps == [] then "" else PieceValue(ps[0]) + PiecesValue(ps[1..])
  }

  lemma {:induction false} PiecesExact(ps: seq<Piece>, r: string)
    requires forall p <- ps :: LegalPiece(p)
    ensures ParseText(PiecesText(ps) + r) == PrependText(PiecesValue(ps), ParseText(r))
  {
    if ps == [] {
      assert PiecesText(ps) + r == r;
      EmptyPrefix(ParseText(r));
    } else {
      var tail := PiecesText(ps[1..]) + r;
      Associates(PieceText(ps[0]), PiecesText(ps[1..]), r);
      PieceExact(ps[0], tail);
      PiecesExact(ps[1..], r);
      PrependTextTwice(PieceValue(ps[0]), PiecesValue(ps[1..]), ParseText(r));
    }
  }

  lemma {:induction false} EntitySound(r: string) returns (p: Piece)
    requires r != "" && r[0] == '&' && ParseEntity(r).Ok?
    ensures LegalPiece(p) && !p.Raw? && r == PieceText(p) + ParseEntity(r).value.1 && PieceValue(p) == ParseEntity(r).value.0
  {
    var semi := IndexOf(r, ';').value;
    EntityShape(r, semi);
    p := ReferenceSound(r[1..semi]);
    Unwrapped(r, semi);
  }

  lemma {:induction false} EntityShape(r: string, semi: nat)
    requires r != "" && r[0] == '&' && ParseEntity(r).Ok? && IndexOf(r, ';') == Some(semi)
    ensures 0 < semi <= 16 && ';' !in r[1..semi]
    ensures EntityValue(r[1..semi]).Ok? && ParseEntity(r) == Ok((EntityValue(r[1..semi]).value, r[semi + 1..]))
  {
    assert semi > 0;
    EntityAt(r, semi);
    NoSemicolonInside(r, semi);
  }

  lemma Unwrapped(r: string, semi: nat)
    requires 0 < semi < |r| && r[0] == '&' && r[semi] == ';'
    ensures r == ("&" + r[1..semi] + ";") + r[semi + 1..]
  {
  }

  lemma {:induction false} ReferenceSound(e: string) returns (p: Piece)
    requires EntityValue(e).Ok? && ';' !in e && |e| <= 15
    ensures LegalPiece(p) && !p.Raw? && PieceText(p) == "&" + e + ";" && EntityValue(e) == Ok(PieceValue(p))
  {
    p := EntityValueSound(e);
  }

  lemma NoSemicolonInside(r: string, semi: nat)
    requires 0 < semi < |r| && forall j :: 0 <= j < semi ==> r[j] != ';'
    ensures ';' !in r[1..semi]
  {
    var e := r[1..semi];
    forall i | 0 <= i < |e| ensures e[i] != ';' {
      assert e[i] == r[i + 1];
    }
  }

  /** Whatever is read as character data is a run of pieces. */
  lemma {:induction false} TextSound(r: string) returns (ps: seq<Piece>)
    requires ParseText(r).Ok?
    ensures (forall p <- ps :: LegalPiece(p)) && r == PiecesText(ps) + ParseText(r).value.1
    ensures PiecesValue(ps) == ParseText(r).value.0
    decreases |r|
  {
    if r == "" || r[0] == '<' {
      ps := [];
      assert "" + r == r;
    } else {
      var p, rest;
      if r[0] == '&' {
        p := EntitySound(r);
        rest := ParseEntity(r).value.1;
      } else {
        p, rest := Raw(r[0]), r[1..];
        assert r == [r[0]] + r[1..];
      }
      var qs := TextSound(rest);
      ps := [p] + qs;
      assert ps[1..] == qs;
      Associates(PieceText(p), PiecesText(qs), ParseText(r).value.1);
    }
  }
}
