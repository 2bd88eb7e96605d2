/**
 * `outputScript` of sourceAny.py: render the env-var diff and the alias diff
 * as a script of the output dialect, onto a stream the caller hands in or a
 * file the function opens itself.
 */
module Emitter {
  import opened Wrappers
  import opened Dialects

  /** A writable text stream: what `write` has received so far, and whether it is closed. */
  class Stream {
    const name: string
    var chunks: seq<string>
    var closed: bool

    /** `open(name, 'w')`: a new, empty, open file. */
    constructor Open(name: string)
      ensures this.name == name && chunks == [] && !closed
    {
      this.name := name;
      chunks := [];
      closed := false;
    }

    method Write(data: string)
      requires !closed
      modifies this`chunks
      ensures chunks == old(chunks) + [data]
    {
      chunks := chunks + [data];
    }

    method Close()
      modifies this`closed
      ensures closed
    {
      closed := true;
    }
  }

  /** `fnOut`: an object with a `write` method, or a path to open. */
  datatype Target = Handle(stream: Stream) | Path(path: string)

  /** The two kinds of lines: an environment variable, and an alias. */
  datatype Template = Export | Define

  /**
   * How one entry is written: `keyword`, the name, `sep`, then the value
   * between `open` and `close` (which ends the line). Values are
   * interpolated without any escaping.
   */
  datatype Layout = Layout(keyword: string, sep: char, open: string, close: string)

  function Header(d: Dialect): string {
    match d
    case Bash => "#!/bin/bash\n"
    case Csh => "#!/bin/csh\n"
  }

  /** `export N="V"`, `alias N="V"`, `setenv N 'V'` and `alias N V`, each ending in a newline. */
  function LayoutOf(d: Dialect, t: Template): Layout {
    match (d, t)
    case (Bash, Export) => Layout("export ", '=', "\"", "\"\n")
    case (Bash, Define) => Layout("alias ", '=', "\"", "\"\n")
    case (Csh, Export) => Layout("setenv ", ' ', "'", "'\n")
    case (Csh, Define) => Layout("alias ", ' ', "", "\n")
  }

  /** The line of one entry. */
  function Line(f: Layout, name: string, value: string): string {
    f.keyword + name + [f.sep] + f.open + value + f.close
  }

  /** The lines of a sequence of entries, in order. */
  function Section(f: Layout, pairs: seq<(string, string)>): (r: seq<string>)
    ensures |r| == |pairs|
    ensures forall i :: 0 <= i < |pairs| ==> r[i] == Line(f, pairs[i].0, pairs[i].1)
  {
    if pairs == [] then []
    else Section(f, pairs[..|pairs| - 1]) + [Line(f, pairs[|pairs| - 1].0, pairs[|pairs| - 1].1)]
  }

  /** Writing one more entry appends its line. */
  lemma SectionSnoc(f: Layout, pairs: seq<(string, string)>, name: string, value: string)
    ensures Section(f, pairs + [(name, value)]) == Section(f, pairs) + [Line(f, name, value)]
  {
    assert (pairs + [(name, value)])[..|pairs|] == pairs;
  }

  /** The whole script for entries taken in the given orders. */
  function Script(d: Dialect, env: seq<(string, string)>, als: seq<(string, string)>): seq<string> {
    [Header(d)] + Section(LayoutOf(d, Export), env) + Section(LayoutOf(d, Define), als)
  }

  /** The keys a sequence of entries lists. */
  ghost function Names(pairs: seq<(string, string)>): set<string> {
    if pairs == [] then {} else Names(pairs[..|pairs| - 1]) + {pairs[|pairs| - 1].0}
  }

  /** `pairs` lists the entries of `m`, each key once, in some order (dict iteration order). */
  ghost predicate Enumerates(pairs: seq<(string, string)>, m: map<string, string>) {
    && (forall i :: 0 <= i < |pairs| ==> pairs[i].0 in m && m[pairs[i].0] == pairs[i].1)
    && (forall i, j :: 0 <= i < j < |pairs| ==> pairs[i].0 != pairs[j].0)
    && Names(pairs) == m.Keys
  }

  /** Part way through a loop over `m`: `pairs` lists the entries of `m` whose keys are no longer in `todo`. */
  ghost predicate EnumeratesExcept(pairs: seq<(string, string)>, m: map<string, string>, todo: set<string>) {
    && todo <= m.Keys
    && (forall i :: 0 <= i < |pairs| ==> pairs[i].0 in m && pairs[i].0 !in todo && m[pairs[i].0] == pairs[i].1)
    && (forall i, j :: 0 <= i < j < |pairs| ==> pairs[i].0 != pairs[j].0)
    && Names(pairs) == m.Keys - todo
  }

  /** Taking one more key out of `todo` and listing its entry keeps the loop's account. */
  lemma EnumerateStep(pairs: seq<(string, string)>, m: map<string, string>, todo: set<string>, name: string)
    requires EnumeratesExcept(pairs, m, todo) && name in todo
    ensures EnumeratesExcept(pairs + [(name, m[name])], m, todo - {name})
  {
    assert (pairs + [(name, m[name])])[..|pairs|] == pairs;
  }

  /** One `for name, value in d.iteritems()` loop: one `write` per entry, in an unspecified order. */
  method WriteSection(fout: Stream, f: Layout, m: map<string, string>)
      returns (ghost pairs: seq<(string, string)>)
    requires !fout.closed
    modifies fout`chunks
    ensures Enumerates(pairs, m)
    ensures fout.chunks == old(fout.chunks) + Section(f, pairs)
  {
    pairs := [];
    var todo := m.Keys;
    while todo != {}
      invariant EnumeratesExcept(pairs, m, todo)
      invariant fout.chunks == old(fout.chunks) + Section(f, pairs)
      decreases todo
    {
      var name :| name in todo;
      var value := m[name];
      fout.Write(Line(f, name, value));
      SectionSnoc(f, pairs, name, value);
      EnumerateStep(pairs, m, todo, name);
      pairs := pairs + [(name, value)];
      todo := todo - {name};
    }
  }

  /** `formatBash` / `formatCsh`: the header, then every env line, then every alias line. */
  method FormatScript(fout: Stream, d: Dialect, dEnv: map<string, string>, dAls: map<string, string>)
      returns (ghost envPairs: seq<(string, string)>, ghost alsPairs: seq<(string, string)>)
    requires !fout.closed
    modifies fout`chunks
    ensures Enumerates(envPairs, dEnv) && Enumerates(alsPairs, dAls)
    ensures fout.chunks == old(fout.chunks) + Script(d, envPairs, alsPairs)
  {
    fout.Write(Header(d));
    envPairs := WriteSection(fout, LayoutOf(d, Export), dEnv);
    alsPairs := WriteSection(fout, LayoutOf(d, Define), dAls);
  }

  /**
   * `outputScript`: an unsupported format raises before anything is written
   * (leaving a file it opened open); a stream handed in is written to and
   * never closed; a file it opened is closed once the script is written.
   */
  method OutputScript(dEnv: map<string, string>, dAls: map<string, string>, fnOut: Target, format: string)
      returns (fout: Stream, err: Option<Error>, ghost envPairs: seq<(string, string)>, ghost alsPairs: seq<(string, string)>)
    modifies if fnOut.Handle? then {fnOut.stream} else {}
    ensures fnOut.Handle? ==> fout == fnOut.stream && fout.closed == old(fnOut.stream.closed)
    ensures fnOut.Path? ==> fresh(fout) && fout.name == fnOut.path && (fout.closed <==> err.None?)
    ensures ParseDialect(format).None? ==> err == Some(UnsupportedDialect)
    ensures ParseDialect(format).Some? ==>
              err == if fnOut.Handle? && old(fnOut.stream.closed) then Some(ClosedFile) else None
    ensures err.None? ==> Enumerates(envPairs, dEnv) && Enumerates(alsPairs, dAls)
    ensures fout.chunks == (if fnOut.Handle? then old(fnOut.stream.chunks) else [])
                           + (if err.None? then Script(ParseDialect(format).value, envPairs, alsPairs) else [])
  {
    var doClose: bool;
    if fnOut.Handle? {
      fout := fnOut.stream;
      doClose := false;
    } else {
      fout := new Stream.Open(fnOut.path);
      doClose := true;
    }
    envPairs, alsPairs := [], [];
    var d := ParseDialect(format);
    if d.None? {
      err := Some(UnsupportedDialect);
      return;
    }
    if fout.closed {
      // the first `write` raises ValueError on a closed file
      err := Some(ClosedFile);
      return;
    }
    envPairs, alsPairs := FormatScript(fout, d.value, dEnv, dAls);
    err := None;
    if doClose {
      fout.Close();
    }
  }

  // ---------------------------------------------------------------------
  // Properties of the rendered script

  /** A key is among `Names(pairs)` exactly when some pair lists it. */
  lemma {:induction false} NamesListed(pairs: seq<(string, string)>, k: string)
    ensures k in Names(pairs) <==> exists i :: 0 <= i < |pairs| && pairs[i].0 == k
    decreases |pairs|
  {
    if pairs != [] {
      var init := pairs[..|pairs| - 1];
      NamesListed(init, k);
      if k in Names(init) {
        var i :| 0 <= i < |init| && init[i].0 == k;
        assert pairs[i].0 == k;
      }
      if exists i :: 0 <= i < |pairs| && pairs[i].0 == k {
        var i :| 0 <= i < |pairs| && pairs[i].0 == k;
        if i < |init| {
          assert init[i].0 == k;
        }
      }
    }
  }

  /** Pairs with distinct keys list as many keys as there are pairs. */
  lemma {:induction false} NamesCount(pairs: seq<(string, string)>)
    requires forall i, j :: 0 <= i < j < |pairs| ==> pairs[i].0 != pairs[j].0
    ensures |Names(pairs)| == |pairs|
    decreases |pairs|
  {
    if pairs != [] {
      var init, last := pairs[..|pairs| - 1], pairs[|pairs| - 1];
      NamesCount(init);
      NamesListed(init, last.0);
      assert last.0 !in Names(init);
    }
  }

  /** An enumeration of a map has exactly one pair per key. */
  lemma EnumerationLength(pairs: seq<(string, string)>, m: map<string, string>)
    requires Enumerates(pairs, m)
    ensures |pairs| == |m|
  {
    NamesCount(pairs);
    assert |m| == |m.Keys|;
  }

  /**
   * A section holds the line of every entry of the map it enumerates, and
   * each of its lines is the line of some entry.
   */
  lemma SectionCovers(f: Layout, pairs: seq<(string, string)>, m: map<string, string>)
    requires Enumerates(pairs, m)
    ensures forall k :: k in m ==> Line(f, k, m[k]) in Section(f, pairs)
    ensures forall i :: 0 <= i < |pairs| ==> exists k :: k in m && Section(f, pairs)[i] == Line(f, k, m[k])
  {
    var sec := Section(f, pairs);
    forall k | k in m
      ensures Line(f, k, m[k]) in sec
    {
      NamesListed(pairs, k);
      var i :| 0 <= i < |pairs| && pairs[i].0 == k;
      assert sec[i] == Line(f, k, m[k]);
    }
    forall i | 0 <= i < |pairs|
      ensures exists k :: k in m && sec[i] == Line(f, k, m[k])
    {
      var k := pairs[i].0;
      assert sec[i] == Line(f, k, m[k]);
    }
  }

  /**
   * The script is one header line, then exactly one line per env entry, then
   * exactly one line per alias entry: 1 + |dEnv| + |dAls| lines, the env
   * section holding each env entry's line, and likewise the alias section.
   */
  lemma ScriptShape(d: Dialect, dEnv: map<string, string>, dAls: map<string, string>,
                    env: seq<(string, string)>, als: seq<(string, string)>)
    requires Enumerates(env, dEnv) && Enumerates(als, dAls)
    ensures var s := Script(d, env, als);
      && |s| == 1 + |dEnv| + |dAls|
      && s[0] == Header(d)
      && s[1..1 + |dEnv|] == Section(LayoutOf(d, Export), env)
      && s[1 + |dEnv|..] == Section(LayoutOf(d, Define), als)
      && (forall k :: k in dEnv ==> Line(LayoutOf(d, Export), k, dEnv[k]) in s[1..1 + |dEnv|])
      && (forall k :: k in dAls ==> Line(LayoutOf(d, Define), k, dAls[k]) in s[1 + |dEnv|..])
  {
    EnumerationLength(env, dEnv);
    EnumerationLength(als, dAls);
    var s := Script(d, env, als);
    var fe, fa := LayoutOf(d, Export), LayoutOf(d, Define);
    assert s[1..1 + |dEnv|] == Section(fe, env);
    assert s[1 + |dEnv|..] == Section(fa, als);
    SectionCovers(fe, env, dEnv);
    SectionCovers(fa, als, dAls);
  }

  /** In `name + [sep] + tail` with `sep` absent from `name`, the first `sep` ends the name. */
  lemma FirstSeparator(name: string, tail: string, sep: char)
    requires sep !in name
    ensures (name + [sep] + tail)[|name|] == sep
    ensures forall j :: 0 <= j < |name| ==> (name + [sep] + tail)[j] != sep
  {
    forall j | 0 <= j < |name|
      ensures (name + [sep] + tail)[j] != sep
    {
      assert (name + [sep] + tail)[j] == name[j];
    }
  }

  /** Two strings that agree up to a separator absent from both names have equal names and tails. */
  lemma SplitAtSeparator(name1: string, tail1: string, name2: string, tail2: string, sep: char)
    requires sep !in name1 && sep !in name2
    requires name1 + [sep] + tail1 == name2 + [sep] + tail2
    ensures name1 == name2 && tail1 == tail2
  {
    var s := name1 + [sep] + tail1;
    FirstSeparator(name1, tail1, sep);
    FirstSeparator(name2, tail2, sep);
    assert |name1| == |name2|;
    assert name1 == s[..|name1|] == name2;
    assert tail1 == s[|name1| + 1..] == tail2;
  }

  /**
   * A line determines its entry, as long as the names do not contain the
   * character that ends a name: distinct entries give distinct lines.
   */
  lemma LineInjective(f: Layout, name1: string, value1: string, name2: string, value2: string)
    requires f.sep !in name1 && f.sep !in name2
    requires Line(f, name1, value1) == Line(f, name2, value2)
    ensures name1 == name2 && value1 == value2
  {
    var tail1, tail2 := f.open + value1 + f.close, f.open + value2 + f.close;
    var l1, l2 := Line(f, name1, value1), Line(f, name2, value2);
    assert l1 == f.keyword + (name1 + [f.sep] + tail1);
    assert l2 == f.keyword + (name2 + [f.sep] + tail2);
    assert name1 + [f.sep] + tail1 == l1[|f.keyword|..] == l2[|f.keyword|..] == name2 + [f.sep] + tail2;
    SplitAtSeparator(name1, tail1, name2, tail2, f.sep);
    assert value1 == tail1[|f.open|..|tail1| - |f.close|] == tail2[|f.open|..|tail2| - |f.close|] == value2;
  }

  /** With such names, the lines of a section are pairwise distinct: one line per entry, none repeated. */
  lemma SectionDistinct(f: Layout, pairs: seq<(string, string)>, m: map<string, string>)
    requires Enumerates(pairs, m)
    requires forall k :: k in m ==> f.sep !in k
    ensures forall i, j :: 0 <= i < j < |pairs| ==> Section(f, pairs)[i] != Section(f, pairs)[j]
  {
    forall i, j | 0 <= i < j < |pairs|
      ensures Section(f, pairs)[i] != Section(f, pairs)[j]
    {
      if Section(f, pairs)[i] == Section(f, pairs)[j] {
        LineInjective(f, pairs[i].0, pairs[i].1, pairs[j].0, pairs[j].1);
      }
    }
  }
}
