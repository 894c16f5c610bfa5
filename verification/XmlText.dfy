/** Character classes of src/s3/xml.cc by code point, and what trimming, escaping and dropping do to a text. */
module XmlText {
  import opened Common
  import opened Xml

  // ---------------------------------------------------------------- characters by code point

  /** Space, and tab to carriage return. */
  predicate SpaceCode(n: int) {
    n == 32 || 9 <= n <= 13
  }

  /** Letters, digits, hyphen, full stop, colon and underscore. */
  predicate NameCode(n: int) {
    97 <= n <= 122 || 65 <= n <= 90 || 48 <= n <= 57 || n == 45 || n == 46 || n == 58 || n == 95
  }

  /** Space, tab, line feed and carriage return. */
  predicate BlankCode(n: int) {
    n == 32 || n == 9 || n == 10 || n == 13
  }

  /** The control characters below 32 other than tab, line feed and carriage return. */
  predicate ControlCode(n: int) {
    0 <= n <= 8 || n == 11 || n == 12 || 14 <= n <= 31
  }

  lemma CodesExact(c: char)
    ensures IsSpace(c) <==> SpaceCode(c as int)
    ensures IsNameChar(c) <==> NameCode(c as int)
    ensures IsBlank(c) <==> BlankCode(c as int)
    ensures IsForbidden(c) <==> ControlCode(c as int)
  {
  }

  // ---------------------------------------------------------------- trimming

  /** `i`, `j` enclose the part of `s` between its leading and trailing blanks. */
  ghost predicate Edges(s: string, i: nat, j: nat) {
    && i <= j <= |s|
    && (i < j ==> !BlankCode(s[i] as int) && !BlankCode(s[j - 1] as int))
    && (forall x :: 0 <= x < i ==> BlankCode(s[x] as int))
    && (forall x :: j <= x < |s| ==> BlankCode(s[x] as int))
  }

  ghost predicate IsTrimmed(s: string, t: string) {
    exists i: nat, j: nat :: Edges(s, i, j) && t == s[i..j]
  }

  lemma {:induction false} LeftEdge(s: string) returns (i: nat)
    ensures i <= |s| && TrimLeft(s) == s[i..]
    ensures (forall x :: 0 <= x < i ==> BlankCode(s[x] as int)) && (i < |s| ==> !BlankCode(s[i] as int))
  {
    if s != "" && IsBlank(s[0]) {
      var k := LeftEdge(s[1..]);
      i := k + 1;
      assert s[1..][k..] == s[i..];
      forall x | 0 <= x < i ensures BlankCode(s[x] as int) {
        assert x > 0 ==> s[x] == s[1..][x - 1];
      }
    } else {
      i := 0;
    }
  }

  lemma {:induction false} RightEdge(s: string) returns (j: nat)
    ensures j <= |s| && TrimRight(s) == s[..j]
    ensures (forall x :: j <= x < |s| ==> BlankCode(s[x] as int)) && (j > 0 ==> !BlankCode(s[j - 1] as int))
  {
    if s != "" && IsBlank(s[|s| - 1]) {
      var t := s[..|s| - 1];
      j := RightEdge(t);
      assert t[..j] == s[..j];
      forall x | j <= x < |s| ensures BlankCode(s[x] as int) {
        assert x < |t| ==> s[x] == t[x];
      }
    } else {
      j := |s|;
    }
  }

  /** trim cuts the outer blanks and nothing else. */
  lemma TrimExact(s: string)
    ensures IsTrimmed(s, Trim(s))
  {
    var i := LeftEdge(s);
    var t := s[i..];
    var k := RightEdge(t);
    var j := i + k;
    assert t[..k] == s[i..j];
    forall x | j <= x < |s| ensures BlankCode(s[x] as int) {
      assert s[x] == t[x - i];
    }
    assert k > 0 ==> t[k - 1] == s[j - 1] && t[0] == s[i];
    assert Edges(s, i, j);
  }

  lemma TrimmedIsUnique(s: string, t: string, u: string)
    requires IsTrimmed(s, t) && IsTrimmed(s, u)
    ensures t == u
  {
    var i: nat, j: nat :| Edges(s, i, j) && t == s[i..j];
    var k: nat, l: nat :| Edges(s, k, l) && u == s[k..l];
    assert i < j || k < l ==> i == k && j == l;
  }

  // ---------------------------------------------------------------- what is written

  /** The text without its control characters. */
  function Visible(s: string): string {
    if s == "" then ""
    else Visible(s[..|s| - 1]) + if ControlCode(s[|s| - 1] as int) then "" else [s[|s| - 1]]
  }

  lemma {:induction false} VisibleCons(s: string)
    requires s != ""
    ensures Visible(s) == (if ControlCode(s[0] as int) then "" else [s[0]]) + Visible(s[1..])
  {
    var n := |s| - 1;
    if n > 0 {
      var t := s[..n];
      VisibleCons(t);
      assert t[1..] == s[1..][..n - 1] && s[1..][n - 1] == s[n] && t[0] == s[0];
      Associates(if ControlCode(s[0] as int) then "" else [s[0]], Visible(t[1..]), if ControlCode(s[n] as int) then "" else [s[n]]);
    } else {
      assert s[..0] == "" && s[1..] == "";
    }
  }

  /** Escaping drops exactly the control characters. */
  lemma {:induction false} SanitizeExact(s: string)
    ensures Sanitize(s) == Visible(s)
  {
    if s != "" {
      SanitizeExact(s[1..]);
      VisibleCons(s);
      CodesExact(s[0]);
    }
  }

  /** The five references that stand for a character. */
  predicate IsReference(r: string) {
    r == "&lt;" || r == "&gt;" || r == "&amp;" || r == "&quot;" || r == "&apos;"
  }

  /** No markup, no quote and no control character; every ampersand begins one of the five references. */
  ghost predicate SafeText(t: string) {
    forall i :: 0 <= i < |t| ==>
      && t[i] != '<' && t[i] != '>' && t[i] != '"' && t[i] != '\'' && !ControlCode(t[i] as int)
      && (t[i] == '&' ==> exists k :: i < k <= |t| && IsReference(t[i..k]))
  }

  lemma EscapeCharSafe(c: char)
    ensures SafeText(EscapeChar(c))
  {
    var t := EscapeChar(c);
    forall i | 0 <= i < |t| && t[i] == '&' ensures exists k :: i < k <= |t| && IsReference(t[i..k]) {
      assert i == 0 && t[0..|t|] == t && IsReference(t[i..|t|]);
    }
  }

  lemma SafeJoins(a: string, b: string)
    requires SafeText(a) && SafeText(b)
    ensures SafeText(a + b)
  {
    var t := a + b;
    forall i | 0 <= i < |t| && t[i] == '&' ensures exists k :: i < k <= |t| && IsReference(t[i..k]) {
      if i < |a| {
        var k :| i < k <= |a| && IsReference(a[i..k]);
        assert t[i..k] == a[i..k];
      } else {
        var k :| i - |a| < k <= |b| && IsReference(b[i - |a|..k]);
        assert t[i..k + |a|] == b[i - |a|..k];
      }
    }
  }

  /** Whatever the text, what is written for it is safe inside an element or a quoted value. */
  lemma {:induction false} EscapeSafe(s: string)
    ensures SafeText(Escape(s))
  {
    if s != "" {
      EscapeCharSafe(s[0]);
      EscapeSafe(s[1..]);
      SafeJoins(EscapeChar(s[0]), Escape(s[1..]));
    }
  }
}
