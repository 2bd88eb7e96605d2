/**
 * The alias half of `diffAlias` in sourceAny.py: the two line grammars of the
 * shells' `alias` listings, the per-line clean-up of a matched value, the
 * loop that builds a name -> value table from a listing, and the diff of two
 * such tables.
 *
 * The regular expressions are matched by hand. `re.match` anchors at the
 * start of the line only; `.` stops at a newline while `\s` matches one, so
 * the matchers are stated for any string, with or without the newline that
 * Python keeps at the end of each line it reads from a file.
 */
module Aliases {
  import opened Wrappers
  import opened Text
  import opened Dialects
  import Differ

  /** The groups of `(?P<name>[A-Za-z0-9_-]+)\s+(?P<value>.*)` matched at the start of `s`. */
  function MatchCsh(s: string): Option<(string, string)> {
    var n := Span(NameChars, s, 0);
    if n == 0 || n == |s| || !IsSpace(s[n]) then None
    else
      var v := n + Span(SpaceChars, s, n);
      var e := v + Span(LineChars, s, v);
      Some((s[..n], s[v..e]))
  }

  /** The position of the last `'` in `s[lo..hi]`, if there is one. */
  function LastQuote(s: string, lo: nat, hi: nat): (r: Option<nat>)
    requires lo <= hi <= |s|
    ensures r.Some? ==> lo <= r.value < hi && s[r.value] == '\'' && forall j :: r.value < j < hi ==> s[j] != '\''
    ensures r.None? ==> forall j :: lo <= j < hi ==> s[j] != '\''
    decreases hi - lo
  {
    if lo == hi then None
    else if s[hi - 1] == '\'' then Some(hi - 1)
    else LastQuote(s, lo, hi - 1)
  }

  const AliasKeyword: string := "alias "

  /**
   * The groups of `alias (?P<name>[A-Za-z0-9_-]+)='(?P<value>.*)'` matched at
   * the start of `s`: the greedy `.*` backs off to the last `'` before the end
   * of the line.
   */
  function MatchBash(s: string): Option<(string, string)> {
    if !(AliasKeyword <= s) then None
    else
      var n := Span(NameChars, s, 6);
      var p := 6 + n;
      if n == 0 || p + 2 > |s| || s[p] != '=' || s[p + 1] != '\'' then None
      else
        var v := p + 2;
        var e := v + Span(LineChars, s, v);
        match LastQuote(s, v, e)
        case None => None
        case Some(q) => Some((s[6..p], s[v..q]))
  }

  /** `diffAlias` uses the csh expression for format 'csh' and the bash one for anything else. */
  function GrammarFor(format: string): (g: Dialect)
    ensures g == Csh <==> format == Name(Csh)
  {
    if format == "csh" then Csh else Bash
  }

  /** `value[1:-1]` when the value starts with `(`: both ends cut, the last one unchecked. */
  function Unparen(v: string): string {
    if |v| > 0 && v[0] == '(' then (if |v| >= 2 then v[1..|v| - 1] else "") else v
  }

  /** `reAlias.match(line)` for the expression of dialect `g`. */
  function Match(line: string, g: Dialect): Option<(string, string)> {
    match g
    case Csh => MatchCsh(line)
    case Bash => MatchBash(line)
  }

  /** The clean-up of lines 52-55: both groups stripped, then a value opening with `(` unwrapped. */
  function Clean(m: Option<(string, string)>): Option<(string, string)> {
    match m
    case None => None
    case Some((name, value)) => Some((Strip(name), Unparen(Strip(value))))
  }

  /** One line of a listing: its (name, value) pair, or None when the line does not match. */
  function ParseLine(line: string, g: Dialect): Option<(string, string)> {
    Clean(Match(line, g))
  }

  /** The outcome of every line of a listing, in order. */
  function Entries(lines: seq<string>, g: Dialect): seq<Option<(string, string)>> {
    seq(|lines|, i requires 0 <= i < |lines| => ParseLine(lines[i], g))
  }

  /** The table that the outcomes of a listing build: each match sets its name, later ones overwrite. */
  function Fill(es: seq<Option<(string, string)>>): map<string, string> {
    if es == [] then map[]
    else
      var t := Fill(es[..|es| - 1]);
      match es[|es| - 1]
      case None => t
      case Some((name, value)) => t[name := value]
  }

  /** One more outcome either leaves the table alone or sets one name. */
  lemma FillStep(es: seq<Option<(string, string)>>, i: nat)
    requires i < |es|
    ensures Fill(es[..i + 1]) == if es[i].Some? then Fill(es[..i])[es[i].value.0 := es[i].value.1] else Fill(es[..i])
  {
    assert es[..i + 1][..i] == es[..i];
  }

  /** The table `diffAlias` builds from one listing. */
  function AliasTable(lines: seq<string>, g: Dialect): map<string, string> {
    Fill(Entries(lines, g))
  }

  /** The `for line in f` loop of `diffAlias`, filling one table from one listing. */
  method ParseAliases(lines: seq<string>, g: Dialect) returns (table: map<string, string>)
    ensures table == AliasTable(lines, g)
  {
    ghost var es := Entries(lines, g);
    table := map[];
    for i := 0 to |lines|
      invariant table == Fill(es[..i])
    {
      var m := ParseLine(lines[i], g);
      FillStep(es, i);
      if m.Some? {
        table := table[m.value.0 := m.value.1];
      }
    }
    assert es[..|lines|] == es;
  }

  /** `diffAlias`: parse both listings with the grammar `format` selects, then diff the tables. */
  method DiffAlias(before: seq<string>, after: seq<string>, format: string) returns (d: map<string, string>)
    ensures d == Differ.Diff(AliasTable(before, GrammarFor(format)), AliasTable(after, GrammarFor(format)))
  {
    var g := GrammarFor(format);
    var als1 := ParseAliases(before, g);
    var als2 := ParseAliases(after, g);
    d := Differ.DiffDict(als1, als2);
  }

  // ---------------------------------------------------------------------
  // The csh grammar

  /** `s` opens with `n` name characters followed by a whitespace character. */
  ghost predicate CshHead(s: string, n: nat) {
    0 < n < |s| && IsSpace(s[n]) && forall j :: 0 <= j < n ==> IsNameChar(s[j])
  }

  /** The only possible name length of a csh match is the maximal leading run of name characters. */
  lemma CshHeadIsRun(s: string, n: nat)
    requires CshHead(s, n)
    ensures Span(NameChars, s, 0) == n
  {
    SpanUpTo(NameChars, s, 0, n);
  }

  /** A csh line matches exactly when it opens with a name followed by whitespace. */
  lemma CshMatchesIff(s: string)
    ensures MatchCsh(s).Some? <==> exists n :: CshHead(s, n)
  {
    var n := Span(NameChars, s, 0);
    if exists k :: CshHead(s, k) {
      var k :| CshHead(s, k);
      CshHeadIsRun(s, k);
    } else {
      assert !CshHead(s, n);
    }
  }

  /** The groups of a csh match, given where the three greedy runs end. */
  lemma MatchCshAt(s: string, n: nat, v: nat, e: nat)
    requires 0 < n < |s| && IsSpace(s[n]) && n == Span(NameChars, s, 0)
    requires v == n + Span(SpaceChars, s, n) && e == v + Span(LineChars, s, v)
    ensures MatchCsh(s) == Some((s[..n], s[v..e]))
  {
  }

  /** `strip()` of an all-whitespace string is empty. */
  lemma StripAllSpace(w: string)
    requires forall j :: 0 <= j < |w| ==> IsSpace(w[j])
    ensures Strip(w) == ""
  {
    StripIgnoresLeadingSpace(w, "");
    assert w + "" == w;
  }

  /** Where the line's text `s[..l]` ends: at the end of `s` or at its final newline. */
  ghost predicate LineEnd(s: string, n: nat, l: nat) {
    n < l <= |s| && (l == |s| || (l + 1 == |s| && s[l] == '\n')) && forall j :: n <= j < l ==> s[j] != '\n'
  }

  /** The `.*` run from `v` inside the text ends where the text does. */
  lemma LineRun(s: string, n: nat, l: nat, v: nat)
    requires LineEnd(s, n, l) && n <= v <= l
    ensures v + Span(LineChars, s, v) == l
  {
    if l < |s| {
      SpanUpTo(LineChars, s, v, l - v);
    } else {
      SpanToEnd(LineChars, s, v);
    }
  }

  /** When the text goes on past the whitespace run, the value group is the rest of the text. */
  lemma CshValueText(s: string, n: nat, l: nat)
    requires CshHead(s, n) && LineEnd(s, n, l)
    requires n + Span(SpaceChars, s, n) <= l
    ensures MatchCsh(s) == Some((s[..n], s[n + Span(SpaceChars, s, n)..l]))
    ensures Strip(s[n + Span(SpaceChars, s, n)..l]) == Strip(s[n..l])
  {
    CshHeadIsRun(s, n);
    var v := n + Span(SpaceChars, s, n);
    LineRun(s, n, l, v);
    MatchCshAt(s, n, v, l);
    StripAfterSpace(s, n, v, l);
  }

  /** Cutting a leading whitespace run off `s[n..l]` does not change its `strip()`. */
  lemma StripAfterSpace(s: string, n: nat, v: nat, l: nat)
    requires n <= v <= l <= |s|
    requires forall j :: n <= j < v ==> In(SpaceChars, s[j])
    ensures Strip(s[v..l]) == Strip(s[n..l])
  {
    assert s[n..l] == s[n..v] + s[v..l];
    StripIgnoresLeadingSpace(s[n..v], s[v..l]);
  }

  /** When the whitespace run swallows the text (and its newline), the value group is empty. */
  lemma CshValueBlank(s: string, n: nat, l: nat)
    requires CshHead(s, n) && LineEnd(s, n, l)
    requires n + Span(SpaceChars, s, n) > l
    ensures MatchCsh(s) == Some((s[..n], ""))
    ensures Strip(s[n..l]) == ""
  {
    CshHeadIsRun(s, n);
    var v := n + Span(SpaceChars, s, n);
    assert v == |s|;
    MatchCshAt(s, n, v, v);
    assert s[v..v] == "";
    assert forall j :: 0 <= j < l - n ==> s[n..l][j] == s[n + j];
    StripAllSpace(s[n..l]);
  }

  /**
   * On a line `s` that opens with a csh head of length `n` and whose text
   * `s[..l]` is followed by nothing or by a final newline, the value group
   * strips to `s[n..l]` stripped.
   */
  lemma CshValue(s: string, n: nat, l: nat)
    requires CshHead(s, n) && LineEnd(s, n, l)
    ensures MatchCsh(s).Some? && MatchCsh(s).value.0 == s[..n]
    ensures Strip(MatchCsh(s).value.1) == Strip(s[n..l])
  {
    if n + Span(SpaceChars, s, n) <= l {
      CshValueText(s, n, l);
    } else {
      CshValueBlank(s, n, l);
    }
  }

  /**
   * A csh listing line NAME REST, where REST opens with whitespace and holds
   * no newline, read bare or with its terminating newline, defines NAME as
   * REST stripped (and unwrapped when it opens with `(`).
   */
  lemma CshLine(name: string, rest: string, newline: bool)
    requires |name| > 0 && forall j :: 0 <= j < |name| ==> IsNameChar(name[j])
    requires |rest| > 0 && IsSpace(rest[0]) && forall j :: 0 <= j < |rest| ==> rest[j] != '\n'
    ensures ParseLine(name + rest + (if newline then "\n" else ""), Csh) == Some((name, Unparen(Strip(rest))))
  {
    var s := name + rest + (if newline then "\n" else "");
    var n, l := |name|, |name| + |rest|;
    forall j | 0 <= j < n
      ensures s[j] == name[j]
    {
    }
    forall j | n <= j < l
      ensures s[j] == rest[j - n]
    {
    }
    assert CshHead(s, n) && LineEnd(s, n, l);
    assert s[..n] == name && s[n..l] == rest;
    CshValue(s, n, l);
    StripKeepsName(name);
  }

  /** The newline quirk: `\s+` matches the newline, so a bare name read with it defines itself as empty. */
  lemma CshBareName(name: string)
    requires |name| > 0 && forall j :: 0 <= j < |name| ==> IsNameChar(name[j])
    ensures ParseLine(name + "\n", Csh) == Some((name, ""))
    ensures ParseLine(name, Csh) == None
  {
    var s := name + "\n";
    var n := |name|;
    forall j | 0 <= j < n
      ensures s[j] == name[j]
    {
    }
    assert CshHead(s, n);
    CshHeadIsRun(s, n);
    assert Span(SpaceChars, s, n) == 1;
    MatchCshAt(s, n, |s|, |s|);
    assert s[..n] == name;
    StripKeepsName(name);
    SpanToEnd(NameChars, name, 0);
  }

  /**
   * The csh listing prints an alias as its name, a tab and its definition:
   * a definition with no surrounding whitespace that does not open with `(`
   * reads back as itself, with or without the line's newline.
   */
  lemma CshListingRoundTrip(name: string, value: string, newline: bool)
    requires |name| > 0 && forall j :: 0 <= j < |name| ==> IsNameChar(name[j])
    requires forall j :: 0 <= j < |value| ==> value[j] != '\n'
    requires value == [] || (!IsSpace(value[0]) && !IsSpace(value[|value| - 1]) && value[0] != '(')
    ensures ParseLine(name + "\t" + value + (if newline then "\n" else ""), Csh) == Some((name, value))
  {
    var rest := "\t" + value;
    assert name + "\t" + value == name + rest;
    CshLine(name, rest, newline);
    PlainValue(value);
  }

  /** A definition the csh listing wraps in parentheses reads back without them. */
  lemma CshListingParenRoundTrip(name: string, value: string, newline: bool)
    requires |name| > 0 && forall j :: 0 <= j < |name| ==> IsNameChar(name[j])
    requires forall j :: 0 <= j < |value| ==> value[j] != '\n'
    ensures ParseLine(name + "\t(" + value + ")" + (if newline then "\n" else ""), Csh) == Some((name, value))
  {
    var rest := "\t" + ("(" + value + ")");
    assert name + "\t(" + value + ")" == name + rest;
    CshLine(name, rest, newline);
    ParenValue(value);
  }

  // ---------------------------------------------------------------------
  // The bash grammar

  /** A line opening with `alias NAME='` has NAME as its maximal name run after the keyword. */
  lemma BashHead(s: string, name: string)
    requires |name| > 0 && forall j :: 0 <= j < |name| ==> IsNameChar(name[j])
    requires AliasKeyword + name + "='" <= s
    ensures AliasKeyword <= s && 6 + |name| + 2 <= |s|
    ensures Span(NameChars, s, 6) == |name| && s[6..6 + |name|] == name
    ensures s[6 + |name|] == '=' && s[6 + |name| + 1] == '\''
  {
    var h := AliasKeyword + name + "='";
    assert s[..|h|] == h;
    assert h[..6] == AliasKeyword;
    assert s[6..6 + |name|] == h[6..6 + |name|] == name;
    forall j | 6 <= j < 6 + |name|
      ensures IsNameChar(s[j])
    {
      assert s[j] == name[j - 6];
    }
    assert s[6 + |name|] == h[6 + |name|];
    SpanUpTo(NameChars, s, 6, |name|);
  }

  /** The line terminator a listing line is read with, if any. */
  function Newline(newline: bool): string {
    if newline then "\n" else ""
  }

  /**
   * After `='`, a rest of line `BODY'REST` with no newline and no `'` in REST,
   * read bare or with its newline, puts the last quote of the line right
   * after BODY.
   */
  lemma BashTail(s: string, v: nat, body: string, rest: string, newline: bool)
    requires v <= |s| && s[v..] == body + "'" + rest + Newline(newline)
    requires forall j :: 0 <= j < |body| ==> body[j] != '\n'
    requires forall j :: 0 <= j < |rest| ==> rest[j] != '\n' && rest[j] != '\''
    ensures v + Span(LineChars, s, v) == |s| - |Newline(newline)|
    ensures LastQuote(s, v, |s| - |Newline(newline)|) == Some(v + |body|)
    ensures s[v..v + |body|] == body
  {
    var q, e := v + |body|, |s| - |Newline(newline)|;
    forall j | v <= j < e
      ensures IsLineChar(s[j])
    {
      assert s[j] == s[v..][j - v];
    }
    if newline {
      assert s[e] == s[v..][e - v] == '\n';
      SpanUpTo(LineChars, s, v, e - v);
    } else {
      SpanToEnd(LineChars, s, v);
    }
    assert s[q] == s[v..][|body|] == '\'';
    forall j | q < j < e
      ensures s[j] != '\''
    {
      assert s[j] == s[v..][j - v] == rest[j - q - 1];
    }
    assert s[v..q] == s[v..][..|body|];
  }

  /** The groups of a bash match, given the line's head and what follows `='`. */
  lemma BashMatchAt(s: string, name: string, body: string, rest: string, newline: bool)
    requires |name| > 0 && forall j :: 0 <= j < |name| ==> IsNameChar(name[j])
    requires AliasKeyword + name + "='" <= s && s[|name| + 8..] == body + "'" + rest + Newline(newline)
    requires forall j :: 0 <= j < |body| ==> body[j] != '\n'
    requires forall j :: 0 <= j < |rest| ==> rest[j] != '\n' && rest[j] != '\''
    ensures MatchBash(s) == Some((name, body))
  {
    BashHead(s, name);
    BashTail(s, |name| + 8, body, rest, newline);
  }

  /**
   * A bash line `alias NAME='BODY'REST`, with no newline and no `'` in REST,
   * read bare or with its newline, matches with NAME and BODY as its groups:
   * the value runs to the last quote on the line and whatever follows that
   * quote is ignored.
   */
  lemma BashLineMatch(name: string, body: string, rest: string, newline: bool)
    requires |name| > 0 && forall j :: 0 <= j < |name| ==> IsNameChar(name[j])
    requires forall j :: 0 <= j < |body| ==> body[j] != '\n'
    requires forall j :: 0 <= j < |rest| ==> rest[j] != '\n' && rest[j] != '\''
    ensures MatchBash(AliasKeyword + name + "='" + body + "'" + rest + Newline(newline)) == Some((name, body))
  {
    var h := AliasKeyword + name + "='";
    var t := body + "'" + rest + Newline(newline);
    var s := h + t;
    assert s == AliasKeyword + name + "='" + body + "'" + rest + Newline(newline);
    assert s[|h|..] == t;
    BashMatchAt(s, name, body, rest, newline);
  }

  /** Hence the pair such a line defines: NAME, and BODY stripped and unwrapped. */
  lemma BashLineParse(name: string, body: string, rest: string, newline: bool)
    requires |name| > 0 && forall j :: 0 <= j < |name| ==> IsNameChar(name[j])
    requires forall j :: 0 <= j < |body| ==> body[j] != '\n'
    requires forall j :: 0 <= j < |rest| ==> rest[j] != '\n' && rest[j] != '\''
    ensures ParseLine(AliasKeyword + name + "='" + body + "'" + rest + Newline(newline), Bash)
              == Some((name, Unparen(Strip(body))))
  {
    BashLineMatch(name, body, rest, newline);
    StripKeepsName(name);
  }

  /** The positions a bash match is read from: the name run, the value start, the line's end and the last quote. */
  lemma BashMatchPositions(s: string) returns (p: nat, v: nat, e: nat, q: nat)
    requires MatchBash(s).Some?
    ensures p == 6 + Span(NameChars, s, 6) && v == p + 2 && v <= e <= |s|
    ensures e == v + Span(LineChars, s, v) && LastQuote(s, v, e) == Some(q)
    ensures AliasKeyword <= s && s[p] == '=' && s[v - 1] == '\'' && s[q] == '\''
    ensures MatchBash(s).value == (s[6..p], s[v..q])
  {
    p := 6 + Span(NameChars, s, 6);
    v := p + 2;
    e := v + Span(LineChars, s, v);
    q := LastQuote(s, v, e).value;
  }

  /** A bash match's line opens with `alias NAME='BODY'`. */
  lemma BashMatchPrefix(s: string)
    requires MatchBash(s).Some?
    ensures AliasKeyword + MatchBash(s).value.0 + "='" + MatchBash(s).value.1 + "'" <= s
  {
    var p, v, e, q := BashMatchPositions(s);
    QuotedPrefix(s, p, q);
  }

  /** The characters up to a closing quote at `q` spell `alias NAME='BODY'`. */
  lemma QuotedPrefix(s: string, p: nat, q: nat)
    requires AliasKeyword <= s && 6 <= p && p + 2 <= q < |s|
    requires s[p] == '=' && s[p + 1] == '\'' && s[q] == '\''
    ensures AliasKeyword + s[6..p] + "='" + s[p + 2..q] + "'" <= s
  {
    assert s[..q + 1] == s[..6] + s[6..p] + s[p..p + 2] + s[p + 2..q] + s[q..q + 1];
  }

  /** No `'` follows the closing quote of a bash match before the line's newline. */
  lemma BashMatchLastQuote(s: string)
    requires MatchBash(s).Some?
    ensures var q := 8 + |MatchBash(s).value.0| + |MatchBash(s).value.1|;
      forall j :: q < j < |s| && (forall i :: q < i <= j ==> s[i] != '\n') ==> s[j] != '\''
  {
    var p, v, e, q := BashMatchPositions(s);
    forall j | q < j < |s| && (forall i :: q < i <= j ==> s[i] != '\n')
      ensures s[j] != '\''
    {
      if e < |s| {
        assert s[e] == '\n';
      }
      assert j < e;
    }
  }

  /**
   * Conversely, every line that matches opens with `alias NAME='BODY'` for a
   * name made of name characters, and no `'` follows BODY's closing quote
   * before the line's newline: the value group ends at the last quote.
   */
  lemma BashMatchShape(s: string)
    requires MatchBash(s).Some?
    ensures var (name, body) := MatchBash(s).value;
      var q := 8 + |name| + |body|;
      && IsName(name)
      && AliasKeyword + name + "='" + body + "'" <= s
      && (forall j :: q < j < |s| && (forall i :: q < i <= j ==> s[i] != '\n') ==> s[j] != '\'')
  {
    MatchedNameIsName(s, Bash);
    BashMatchPrefix(s);
    BashMatchLastQuote(s);
  }

  /** A line whose value has no closing quote before its newline does not match: `alias foo='bar` defines nothing. */
  lemma BashUnclosed(name: string, body: string, newline: bool)
    requires |name| > 0 && forall j :: 0 <= j < |name| ==> IsNameChar(name[j])
    requires forall j :: 0 <= j < |body| ==> body[j] != '\n' && body[j] != '\''
    ensures MatchBash(AliasKeyword + name + "='" + body + Newline(newline)) == None
  {
    var h := AliasKeyword + name + "='";
    var s := h + (body + Newline(newline));
    assert s == AliasKeyword + name + "='" + body + Newline(newline);
    BashHead(s, name);
    var v := |h|;
    forall j | v <= j < |s|
      ensures s[j] != '\''
    {
      assert s[j] == (body + Newline(newline))[j - v];
    }
  }

  /**
   * The bash listing prints an alias as `alias NAME='VALUE'`: a value with
   * no surrounding whitespace that does not open with `(` reads back as
   * itself, with or without the line's newline.
   */
  lemma BashListingRoundTrip(name: string, value: string, newline: bool)
    requires |name| > 0 && forall j :: 0 <= j < |name| ==> IsNameChar(name[j])
    requires forall j :: 0 <= j < |value| ==> value[j] != '\n'
    requires value == [] || (!IsSpace(value[0]) && !IsSpace(value[|value| - 1]) && value[0] != '(')
    ensures ParseLine(AliasKeyword + name + "='" + value + "'" + Newline(newline), Bash) == Some((name, value))
  {
    assert AliasKeyword + name + "='" + value + "'" + "" == AliasKeyword + name + "='" + value + "'";
    BashLineParse(name, value, "", newline);
    StripKeeps(value);
  }

  // ---------------------------------------------------------------------
  // The value clean-up

  /** A stripped value opening with `(` loses exactly its first and its last character, whatever that is. */
  lemma UnparenCutsBothEnds(v: string)
    requires |v| >= 2 && v[0] == '('
    ensures v == "(" + Unparen(v) + [v[|v| - 1]]
  {
  }

  /** A value with no surrounding whitespace that does not open with `(` survives the clean-up after a tab. */
  lemma PlainValue(value: string)
    requires value == [] || (!IsSpace(value[0]) && !IsSpace(value[|value| - 1]) && value[0] != '(')
    ensures Unparen(Strip("\t" + value)) == value
  {
    StripIgnoresLeadingSpace("\t", value);
    StripKeeps(value);
  }

  /** A parenthesised value after a tab comes out of the clean-up unwrapped. */
  lemma ParenValue(value: string)
    ensures Unparen(Strip("\t" + ("(" + value + ")"))) == value
  {
    var w := "(" + value + ")";
    StripIgnoresLeadingSpace("\t", w);
    StripKeeps(w);
    assert w[1..|w| - 1] == value;
  }

  lemma UnparenExamples()
    ensures Unparen("(") == ""
    ensures Unparen("(ls") == "l"
    ensures Unparen("ls)") == "ls)"
  {
  }

  // ---------------------------------------------------------------------
  // The table

  /** A name is in the table exactly when some outcome defines it. */
  lemma {:induction false} FillKeys(es: seq<Option<(string, string)>>, k: string)
    ensures k in Fill(es) <==> exists i :: 0 <= i < |es| && es[i].Some? && es[i].value.0 == k
    decreases |es|
  {
    if es != [] {
      var init := es[..|es| - 1];
      FillKeys(init, k);
      if k in Fill(init) {
        var i :| 0 <= i < |init| && init[i].Some? && init[i].value.0 == k;
        assert es[i] == init[i];
      }
      if exists i :: 0 <= i < |es| && es[i].Some? && es[i].value.0 == k {
        var i :| 0 <= i < |es| && es[i].Some? && es[i].value.0 == k;
        if i < |init| {
          assert init[i] == es[i];
        }
      }
    }
  }

  /** The last outcome that defines a name decides its value. */
  lemma {:induction false} FillLastWins(es: seq<Option<(string, string)>>, i: nat)
    requires i < |es| && es[i].Some?
    requires forall j :: i < j < |es| ==> es[j].None? || es[j].value.0 != es[i].value.0
    ensures es[i].value.0 in Fill(es) && Fill(es)[es[i].value.0] == es[i].value.1
    decreases |es|
  {
    var init := es[..|es| - 1];
    if i < |es| - 1 {
      assert init[i] == es[i];
      forall j | i < j < |init|
        ensures init[j].None? || init[j].value.0 != init[i].value.0
      {
        assert init[j] == es[j];
      }
      FillLastWins(init, i);
    }
  }

  /** An outcome of no match leaves the table as it is, wherever it stands. */
  lemma {:induction false} FillSkips(before: seq<Option<(string, string)>>, after: seq<Option<(string, string)>>)
    ensures Fill(before + [None] + after) == Fill(before + after)
    decreases |after|
  {
    if after == [] {
      assert before + [None] + after == before + [None];
      assert (before + [None])[..|before|] == before;
      assert before + after == before;
    } else {
      var init := after[..|after| - 1];
      assert (before + [None] + after)[..|before + [None] + after| - 1] == before + [None] + init;
      assert (before + after)[..|before + after| - 1] == before + init;
      FillSkips(before, init);
    }
  }

  /** A name is in the table of a listing exactly when some line of it defines the name. */
  lemma AliasTableKeys(lines: seq<string>, g: Dialect, k: string)
    ensures k in AliasTable(lines, g) <==>
            exists i :: 0 <= i < |lines| && ParseLine(lines[i], g).Some? && ParseLine(lines[i], g).value.0 == k
  {
    var es := Entries(lines, g);
    FillKeys(es, k);
    if k in AliasTable(lines, g) {
      var i :| 0 <= i < |es| && es[i].Some? && es[i].value.0 == k;
      assert es[i] == ParseLine(lines[i], g);
    } else {
      forall i | 0 <= i < |lines|
        ensures !(ParseLine(lines[i], g).Some? && ParseLine(lines[i], g).value.0 == k)
      {
        assert es[i] == ParseLine(lines[i], g);
      }
    }
  }

  /** For a name defined more than once, the last line that defines it wins. */
  lemma AliasTableLastWins(lines: seq<string>, g: Dialect, i: nat)
    requires i < |lines| && ParseLine(lines[i], g).Some?
    requires forall j :: i < j < |lines| ==> ParseLine(lines[j], g).None? || ParseLine(lines[j], g).value.0 != ParseLine(lines[i], g).value.0
    ensures ParseLine(lines[i], g).value.0 in AliasTable(lines, g)
    ensures AliasTable(lines, g)[ParseLine(lines[i], g).value.0] == ParseLine(lines[i], g).value.1
  {
    FillLastWins(Entries(lines, g), i);
  }

  /** The outcomes of two listings read one after the other. */
  lemma EntriesAppend(a: seq<string>, b: seq<string>, g: Dialect)
    ensures Entries(a + b, g) == Entries(a, g) + Entries(b, g)
  {
    var l, la, lb := Entries(a + b, g), Entries(a, g), Entries(b, g);
    assert |l| == |la + lb|;
    forall i | 0 <= i < |l|
      ensures l[i] == (la + lb)[i]
    {
      if i < |a| {
        calc {
          l[i];
          ParseLine((a + b)[i], g);
          { assert (a + b)[i] == a[i]; }
          la[i];
        }
      } else {
        calc {
          l[i];
          ParseLine((a + b)[i], g);
          { assert (a + b)[i] == b[i - |a|]; }
          lb[i - |a|];
        }
      }
    }
  }

  /** A line that does not match is skipped: the table is as if it were not there. */
  lemma AliasTableSkips(before: seq<string>, line: string, after: seq<string>, g: Dialect)
    requires ParseLine(line, g).None?
    ensures AliasTable(before + [line] + after, g) == AliasTable(before + after, g)
  {
    EntriesAppend(before + [line], after, g);
    EntriesAppend(before, [line], g);
    EntriesAppend(before, after, g);
    assert Entries([line], g) == [None];
    FillSkips(Entries(before, g), Entries(after, g));
  }

  /** A name the expressions match is a non-empty run of `[A-Za-z0-9_-]`. */
  ghost predicate IsName(name: string) {
    |name| > 0 && forall j :: 0 <= j < |name| ==> IsNameChar(name[j])
  }

  lemma MatchedNameIsName(line: string, g: Dialect)
    requires Match(line, g).Some?
    ensures IsName(Match(line, g).value.0)
  {
    var name := Match(line, g).value.0;
    if g == Csh {
      var n := Span(NameChars, line, 0);
      assert name == line[..n];
      assert forall j :: 0 <= j < n ==> In(NameChars, line[j]);
    } else {
      var n := Span(NameChars, line, 6);
      assert name == line[6..6 + n];
      assert forall j :: 6 <= j < 6 + n ==> In(NameChars, line[j]);
    }
  }

  /** Every name a listing line defines is such a run (the name's `strip()` changes nothing). */
  lemma ParsedNameIsName(line: string, g: Dialect)
    requires ParseLine(line, g).Some?
    ensures IsName(ParseLine(line, g).value.0)
  {
    MatchedNameIsName(line, g);
    StripKeepsName(Match(line, g).value.0);
  }

  /** Hence every key of an alias table is a name. */
  lemma AliasTableNames(lines: seq<string>, g: Dialect)
    ensures forall k :: k in AliasTable(lines, g) ==> IsName(k)
  {
    forall k | k in AliasTable(lines, g)
      ensures IsName(k)
    {
      AliasTableKeys(lines, g, k);
      var i :| 0 <= i < |lines| && ParseLine(lines[i], g).Some? && ParseLine(lines[i], g).value.0 == k;
      ParsedNameIsName(lines[i], g);
    }
  }

  /** A one-line listing defines exactly its own pair. */
  lemma AliasTableSingle(line: string, g: Dialect, name: string, value: string)
    requires ParseLine(line, g) == Some((name, value))
    ensures AliasTable([line], g) == map[name := value]
  {
    var es := Entries([line], g);
    assert es == [Some((name, value))];
    assert es[..0] == [];
    assert Fill(es) == Fill([])[name := value];
  }
}
