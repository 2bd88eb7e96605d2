/**
 * Character classes and the string primitives the alias parser is built
 * from: maximal runs of a character class (what a greedy regex quantifier
 * consumes) and Python 2's `str.strip()`.
 */
module Text {

  /** `\s` of Python 2's `re` on byte strings, and the set `str.strip()` removes. */
  predicate IsSpace(c: char) {
    c == ' ' || c == '\t' || c == '\n' || c == '\r' || c == '\U{B}' || c == '\U{C}'
  }

  /** The class `[A-Za-z0-9_-]` of alias names. */
  predicate IsNameChar(c: char) {
    ('A' <= c <= 'Z') || ('a' <= c <= 'z') || ('0' <= c <= '9') || c == '_' || c == '-'
  }

  /** What `.` matches: anything but a newline. */
  predicate IsLineChar(c: char) {
    c != '\n'
  }

  /** The three character classes the alias expressions quantify over. */
  datatype CharClass = NameChars | SpaceChars | LineChars

  predicate In(k: CharClass, c: char) {
    match k
    case NameChars => IsNameChar(c)
    case SpaceChars => IsSpace(c)
    case LineChars => IsLineChar(c)
  }

  /**
   * Length of the longest run of characters of class `k` that starts at
   * index `i` of `s`: what a greedy `[...]+`, `\s+` or `.*` consumes there.
   */
  function Span(k: CharClass, s: string, i: nat): (n: nat)
    requires i <= |s|
    ensures i + n <= |s|
    ensures forall j :: i <= j < i + n ==> In(k, s[j])
    ensures i + n == |s| || !In(k, s[i + n])
    decreases |s| - i
  {
    if i < |s| && In(k, s[i]) then 1 + Span(k, s, i + 1) else 0
  }

  /** Any run of class-`k` characters starting at `i` is no longer than the maximal one. */
  lemma {:induction false} SpanIsMaximal(k: CharClass, s: string, i: nat, m: nat)
    requires i + m <= |s|
    requires forall j :: i <= j < i + m ==> In(k, s[j])
    ensures m <= Span(k, s, i)
    decreases m
  {
    if m > 0 {
      SpanIsMaximal(k, s, i + 1, m - 1);
    }
  }

  /** `s.lstrip()`: drop the leading run of whitespace. */
  function StripLeft(s: string): string {
    s[Span(SpaceChars, s, 0)..]
  }

  /** `s.rstrip()`: drop trailing whitespace. */
  function StripRight(s: string): string {
    if s != [] && IsSpace(s[|s| - 1]) then StripRight(s[..|s| - 1]) else s
  }

  /** `s.strip()`: drop whitespace at both ends. */
  function Strip(s: string): string {
    StripRight(StripLeft(s))
  }

  /** `lstrip()` keeps a suffix, cuts only whitespace, and stops at the first other character. */
  lemma StripLeftShape(s: string)
    ensures |StripLeft(s)| <= |s| && StripLeft(s) == s[|s| - |StripLeft(s)|..]
    ensures forall j :: 0 <= j < |s| - |StripLeft(s)| ==> IsSpace(s[j])
    ensures StripLeft(s) == [] || !IsSpace(StripLeft(s)[0])
  {
    var n := Span(SpaceChars, s, 0);
    assert forall j :: 0 <= j < n ==> In(SpaceChars, s[j]);
    if n < |s| {
      assert StripLeft(s)[0] == s[n];
    }
  }

  /** `rstrip()` keeps a prefix, cuts only whitespace, and stops at the last other character. */
  lemma {:induction false} StripRightShape(s: string)
    ensures |StripRight(s)| <= |s| && StripRight(s) == s[..|StripRight(s)|]
    ensures forall j :: |StripRight(s)| <= j < |s| ==> IsSpace(s[j])
    ensures StripRight(s) == [] || !IsSpace(StripRight(s)[|StripRight(s)| - 1])
  {
    if s != [] && IsSpace(s[|s| - 1]) {
      StripRightShape(s[..|s| - 1]);
    }
  }

  /**
   * What `strip()` promises: the result is the slice `s[i..i + |r|]` for some
   * `i`, everything cut off on either side is whitespace, and the result
   * neither starts nor ends with whitespace.
   */
  lemma StripShape(s: string)
    ensures var i := |s| - |StripLeft(s)|;
      && 0 <= i && i + |Strip(s)| <= |s| && Strip(s) == s[i..i + |Strip(s)|]
      && (forall j :: 0 <= j < i ==> IsSpace(s[j]))
      && (forall j :: i + |Strip(s)| <= j < |s| ==> IsSpace(s[j]))
    ensures Strip(s) == [] || (!IsSpace(Strip(s)[0]) && !IsSpace(Strip(s)[|Strip(s)| - 1]))
  {
    var l := StripLeft(s);
    StripLeftShape(s);
    StripRightShape(l);
    var i := |s| - |l|;
    var r := Strip(s);
    assert r == l[..|r|];
    forall j | i + |r| <= j < |s|
      ensures IsSpace(s[j])
    {
      assert s[j] == l[j - i];
    }
  }

  /** Whitespace in front of a string does not change what `lstrip()` returns. */
  lemma StripIgnoresLeadingSpace(w: string, t: string)
    requires forall j :: 0 <= j < |w| ==> IsSpace(w[j])
    ensures StripLeft(w + t) == StripLeft(t)
  {
    var s, m := w + t, Span(SpaceChars, t, 0);
    var n := |w| + m;
    forall j | 0 <= j < n
      ensures In(SpaceChars, s[j])
    {
      if j < |w| {
        assert s[j] == w[j];
      } else {
        assert s[j] == t[j - |w|];
      }
    }
    if n < |s| {
      assert s[n] == t[m];
    }
    SpanUnique(SpaceChars, s, 0, n);
    assert s[n..] == t[m..];
  }

  /** A string that neither starts nor ends with whitespace is left alone by `strip()`. */
  lemma StripKeeps(s: string)
    requires s == [] || (!IsSpace(s[0]) && !IsSpace(s[|s| - 1]))
    ensures Strip(s) == s
  {
    assert StripLeft(s) == s;
  }

  /** `strip()` is idempotent. */
  lemma StripIdempotent(s: string)
    ensures Strip(Strip(s)) == Strip(s)
  {
    StripShape(s);
    StripKeeps(Strip(s));
  }

  /** A name character is never whitespace, so a name is left alone by `strip()`. */
  lemma StripKeepsName(s: string)
    requires forall j :: 0 <= j < |s| ==> IsNameChar(s[j])
    ensures Strip(s) == s
  {
    StripKeeps(s);
  }

  /** A run of class-`k` characters that stops at the end or at another character is the maximal run. */
  lemma SpanUnique(k: CharClass, s: string, i: nat, n: nat)
    requires i + n <= |s|
    requires forall j :: i <= j < i + n ==> In(k, s[j])
    requires i + n == |s| || !In(k, s[i + n])
    ensures Span(k, s, i) == n
  {
    SpanIsMaximal(k, s, i, n);
  }

  /** A run of class-`k` characters that reaches the end of `s` is the maximal run. */
  lemma SpanToEnd(k: CharClass, s: string, i: nat)
    requires i <= |s|
    requires forall j :: i <= j < |s| ==> In(k, s[j])
    ensures i + Span(k, s, i) == |s|
  {
    SpanIsMaximal(k, s, i, |s| - i);
  }

  /** A run stopped by a character outside `k` is exactly as long as the characters before it. */
  lemma SpanUpTo(k: CharClass, s: string, i: nat, m: nat)
    requires i + m < |s|
    requires forall j :: i <= j < i + m ==> In(k, s[j])
    requires !In(k, s[i + m])
    ensures Span(k, s, i) == m
  {
    SpanIsMaximal(k, s, i, m);
  }
}
