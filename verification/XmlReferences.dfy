/**
  Numeric character references of src/s3/xml.cc: every code point the parser admits can be written as
  a decimal reference, and what is read back is its UTF-8 form, from which the code point follows.
 */
module XmlReferences {
  import opened Common
  import opened Xml

  // ---------------------------------------------------------------- UTF-8

  predicate Trailing(c: char) {
    0x80 <= c as int < 0xC0
  }

  function Low(c: char): int {
    c as int - 0x80
  }

  /** The code point when it needs that many bytes. */
  function AtLeast(n: int, least: int): Option<int> {
    if n >= least then Some(n) else None
  }

  /** An independent decoder for one code point, by the range of the leading byte; longer forms than needed are refused. */
  function CodePoint(u: string): Option<int> {
    if |u| == 1 && u[0] as int < 0x80 then Some(u[0] as int)
    else if |u| == 2 && 0xC0 <= u[0] as int < 0xE0 && Trailing(u[1]) then AtLeast((u[0] as int - 0xC0) * 64 + Low(u[1]), 0x80)
    else if |u| == 3 && 0xE0 <= u[0] as int < 0xF0 && Trailing(u[1]) && Trailing(u[2]) then
      AtLeast((u[0] as int - 0xE0) * 4096 + Low(u[1]) * 64 + Low(u[2]), 0x800)
    else if |u| == 4 && 0xF0 <= u[0] as int < 0xF8 && Trailing(u[1]) && Trailing(u[2]) && Trailing(u[3]) then
      AtLeast((u[0] as int - 0xF0) * 262144 + Low(u[1]) * 4096 + Low(u[2]) * 64 + Low(u[3]), 0x10000)
    else None
  }

  lemma {:induction false} Base64(n: nat)
    ensures n == n / 64 * 64 + n % 64
    ensures n / 4096 == n / 64 / 64 && n / 262144 == n / 4096 / 64
  {
  }

  /** append_utf8 loses nothing. */
  lemma {:induction false} Utf8Decodes(cp: nat)
    requires cp <= 0x10FFFF
    ensures CodePoint(Utf8(cp)) == Some(cp)
  {
    if 0x80 <= cp < 0x800 {
      TwoBytes(cp);
    } else if 0x800 <= cp < 0x10000 {
      ThreeBytes(cp);
    } else if 0x10000 <= cp {
      FourBytes(cp);
    }
  }

  lemma {:induction false} TwoBytes(cp: nat)
    requires 0x80 <= cp < 0x800
    ensures CodePoint(Utf8(cp)) == Some(cp)
  {
    Base64(cp);
    assert cp / 64 < 32;
  }

  lemma {:induction false} ThreeBytes(cp: nat)
    requires 0x800 <= cp < 0x10000
    ensures CodePoint(Utf8(cp)) == Some(cp)
  {
    var a, b, c := cp / 4096, cp / 64 % 64, cp % 64;
    Base64(cp);
    Base64(cp / 64);
    assert a < 16 && cp == a * 4096 + b * 64 + c;
  }

  lemma {:induction false} FourBytes(cp: nat)
    requires 0x10000 <= cp <= 0x10FFFF
    ensures CodePoint(Utf8(cp)) == Some(cp)
  {
    var a, b, c, d := cp / 262144, cp / 4096 % 64, cp / 64 % 64, cp % 64;
    Base64(cp);
    Base64(cp / 64);
    Base64(cp / 4096);
    assert a < 8 && cp == a * 262144 + b * 4096 + c * 64 + d;
  }

  /** The parts of a number written in base 64. */
  lemma {:induction false} Parts64(a: int, b: int)
    requires 0 <= a && 0 <= b < 64
    ensures (a * 64 + b) / 64 == a && (a * 64 + b) % 64 == b
  {
  }

  /** And the other way: whatever decodes to an admitted code point is what append_utf8 writes for it. */
  lemma {:induction false} Utf8Unique(u: string)
    requires CodePoint(u).Some? && CodePoint(u).value <= 0x10FFFF
    ensures Utf8(CodePoint(u).value) == u
  {
    var n := CodePoint(u).value;
    if |u| == 2 {
      Parts64(u[0] as int - 0xC0, Low(u[1]));
    } else if |u| == 3 {
      Three64(n, u[0] as int - 0xE0, Low(u[1]), Low(u[2]));
    } else if |u| == 4 {
      Four64(n, u[0] as int - 0xF0, Low(u[1]), Low(u[2]), Low(u[3]));
    }
  }

  lemma {:induction false} Three64(n: int, a: int, b: int, c: int)
    requires 0 <= a && 0 <= b < 64 && 0 <= c < 64 && n == a * 4096 + b * 64 + c
    ensures n % 64 == c && n / 64 % 64 == b && n / 4096 == a
  {
    Parts64(a * 64 + b, c);
    Parts64(a, b);
    Base64(n);
  }

  lemma {:induction false} Four64(n: int, a: int, b: int, c: int, d: int)
    requires 0 <= a && 0 <= b < 64 && 0 <= c < 64 && 0 <= d < 64 && n == a * 262144 + b * 4096 + c * 64 + d
    ensures n % 64 == d && n / 64 % 64 == c && n / 4096 % 64 == b && n / 262144 == a
  {
    Parts64(a * 4096 + b * 64 + c, d);
    Three64(n / 64, a, b, c);
    Base64(n);
  }

  // ---------------------------------------------------------------- decimal references

  function DigitOf(d: nat): char
    requires d < 10
  {
    ('0' as int + d) as char
  }

  function Decimal(n: nat): string {
    if n < 10 then [DigitOf(n)] else Decimal(n / 10) + [DigitOf(n % 10)]
  }

  function Pow10(k: nat): nat {
    if k == 0 then 1 else 10 * Pow10(k - 1)
  }

  predicate AllDigits(s: string) {
    forall i :: 0 <= i < |s| ==> '0' <= s[i] <= '9'
  }

  lemma {:induction false} DecimalShape(n: nat, k: nat)
    requires k > 0 && n < Pow10(k)
    ensures 0 < |Decimal(n)| <= k && AllDigits(Decimal(n))
    decreases k
  {
    if n >= 10 {
      DecimalShape(n / 10, k - 1);
    }
  }

  lemma {:induction false} DigitsSnoc(s: string, c: char, acc: nat)
    requires AllDigits(s) && '0' <= c <= '9'
    ensures Digits(s + [c], 10, acc) == Digits(s, 10, acc) * 10 + DigitValue(c)
  {
    if s == "" {
      assert s + [c] == [c] && [c][1..] == "";
    } else {
      assert (s + [c])[1..] == s[1..] + [c];
      DigitsSnoc(s[1..], c, acc * 10 + DigitValue(s[0]));
    }
  }

  lemma {:induction false} DecimalReads(n: nat, k: nat)
    requires k > 0 && n < Pow10(k)
    ensures Digits(Decimal(n), 10, 0) == n
    decreases k
  {
    if n < 10 {
      assert Decimal(n)[1..] == "";
    } else {
      DecimalShape(n / 10, k - 1);
      DecimalReads(n / 10, k - 1);
      DigitsSnoc(Decimal(n / 10), DigitOf(n % 10), 0);
    }
  }

  lemma {:induction false} StolDecimal(n: nat)
    requires n < Pow10(7)
    ensures Stol(Decimal(n), 10) == Some(n)
  {
    DecimalShape(n, 7);
    DecimalReads(n, 7);
    var s := Decimal(n);
    assert SkipSpace(s) == s;
  }

  lemma {:induction false} SemicolonAfter(s: string, r: string)
    requires ';' !in s
    ensures IndexOf(s + ";" + r, ';') == Some(|s|)
  {
    var u := s + ";" + r;
    if s != "" {
      assert u[0] == s[0] && s[0] in s;
      assert u[1..] == s[1..] + ";" + r;
      SemicolonAfter(s[1..], r);
    }
  }

  lemma {:induction false} ReferenceValue(cp: nat)
    requires 0 < cp <= 0x10FFFF
    ensures EntityValue("#" + Decimal(cp)) == Ok(Utf8(cp))
  {
    SevenDigits();
    DecimalShape(cp, 7);
    StolDecimal(cp);
    var e := "#" + Decimal(cp);
    assert e[1..] == Decimal(cp);
    assert e[0] == '#' && e[1] == Decimal(cp)[0];
  }

  lemma {:induction false} SevenDigits()
    ensures Pow10(7) == 10000000
  {
    assert Pow10(3) == 1000;
    assert Pow10(5) == 100000;
  }

  /** A short reference without a semicolon inside is read up to its semicolon. */
  lemma {:induction false} EntityReads(e: string, v: string, r: string)
    requires ';' !in e && |e| <= 15 && EntityValue(e) == Ok(v)
    ensures ParseEntity("&" + e + ";" + r) == Ok((v, r))
  {
    var s := "&" + e;
    var u := s + ";" + r;
    assert ';' !in s;
    SemicolonAfter(s, r);
    assert u[0] == '&' && u[1..|s|] == e && u[|s| + 1..] == r;
  }

  lemma {:induction false} NoSemicolon(cp: nat)
    requires cp <= 0x10FFFF
    ensures ';' !in "#" + Decimal(cp) && |"#" + Decimal(cp)| <= 8
  {
    SevenDigits();
    DecimalShape(cp, 7);
  }

  /** Every code point of the admitted range is read from its decimal reference, and can be told from the result. */
  lemma {:induction false} ReferenceExact(cp: nat, r: string)
    requires 0 < cp <= 0x10FFFF
    ensures ParseEntity("&" + ("#" + Decimal(cp)) + ";" + r) == Ok((Utf8(cp), r))
    ensures CodePoint(Utf8(cp)) == Some(cp)
  {
    NoSemicolon(cp);
    ReferenceValue(cp);
    EntityReads("#" + Decimal(cp), Utf8(cp), r);
    Utf8Decodes(cp);
  }
}
