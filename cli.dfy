/**
 * `main` of sourceAny.py: which of the options `-e`, `-c`, `-s` and `-o`
 * decides what the program does, and the conversion it then performs.
 */
module Cli {
  import opened Wrappers
  import opened Dialects
  import opened Emitter
  import opened Sourcer
  import Differ
  import Aliases

  /** The parsed options: each is absent unless given on the command line. */
  datatype Options = Options(env: Option<string>, csh: Option<string>, sh: Option<string>, out: Option<string>)

  /** Where the converted script goes: standard output, or the file named by `-o`. */
  datatype Destination = Stdout | OutFile(path: string)

  /** What one run of the program does. */
  datatype Action =
    | RecordEnv(file: string)
    | Convert(script: string, input: Dialect, dest: Destination)
    | DoNothing

  /**
   * The `if`/`elif` chain of `main`: `-e` wins over `-c`, which wins over
   * `-s`; `-o` only chooses the destination; with none of the three the
   * program does nothing.
   */
  function Dispatch(o: Options): (a: Action)
    ensures a.RecordEnv? <==> o.env.Some?
    ensures a.RecordEnv? ==> a.file == o.env.value
    ensures a.Convert? <==> o.env.None? && (o.csh.Some? || o.sh.Some?)
    ensures a.Convert? ==> (a.input == Csh <==> o.csh.Some?)
    ensures a.Convert? && a.input == Csh ==> a.script == o.csh.value
    ensures a.Convert? && a.input == Bash ==> a.script == o.sh.value
    ensures a.Convert? ==> (a.dest == Stdout <==> o.out.None?)
    ensures a.Convert? && o.out.Some? ==> a.dest == OutFile(o.out.value)
    ensures a == DoNothing <==> o.env.None? && o.csh.None? && o.sh.None?
  {
    var dest := if o.out.Some? then OutFile(o.out.value) else Stdout;
    if o.env.Some? then RecordEnv(o.env.value)
    else if o.csh.Some? then Convert(o.csh.value, Csh, dest)
    else if o.sh.Some? then Convert(o.sh.value, Bash, dest)
    else DoNothing
  }

  /**
   * One run of `main` after option parsing. `-e` (pickling `os.environ`) is
   * not part of this model and leaves every stream as it was. A conversion
   * sources the script in its own dialect with the default shell and writes
   * the changes as a script of the other dialect, to `stdout` or to a new
   * file that `out` returns.
   */
  method Run(o: Options, stdout: Stream, tmpDir: string, run: Invocation -> Capture)
      returns (err: Option<Error>, out: Option<Stream>,
               ghost envPairs: seq<(string, string)>, ghost alsPairs: seq<(string, string)>)
    modifies stdout
    ensures stdout.closed == old(stdout.closed)
    ensures !Dispatch(o).Convert? ==> err == None && out == None && stdout.chunks == old(stdout.chunks)
    ensures Dispatch(o).Convert? ==>
      var Convert(script, d, dest) := Dispatch(o);
      var w := SelectWrapper(Name(d), None, tmpDir).value;
      var c := run(Invocation(w.script, w.shell, script));
      var (dEnv, dAls) := Changes(c, d);
      && (c.exitCode != 0 ==> err == Some(CalledProcessError(c.exitCode)) && out == None
                              && stdout.chunks == old(stdout.chunks))
      && (c.exitCode == 0 && dest == Stdout ==>
            && out == None
            && err == (if old(stdout.closed) then Some(ClosedFile) else None)
            && (err == None ==> Enumerates(envPairs, dEnv) && Enumerates(alsPairs, dAls))
            && stdout.chunks == old(stdout.chunks) + (if err == None then Script(Other(d), envPairs, alsPairs) else []))
      && (c.exitCode == 0 && dest.OutFile? ==>
            && err == None && out.Some? && fresh(out.value)
            && out.value.name == dest.path && out.value.closed
            && Enumerates(envPairs, dEnv) && Enumerates(alsPairs, dAls)
            && out.value.chunks == Script(Other(d), envPairs, alsPairs)
            && stdout.chunks == old(stdout.chunks))
  {
    err, out, envPairs, alsPairs := None, None, [], [];
    var a := Dispatch(o);
    if !a.Convert? {
      return;
    }
    ParseDialectName(Name(a.input), a.input);
    ParseDialectName(Name(Other(a.input)), Other(a.input));
    var r := SourceScript(a.script, Name(a.input), None, tmpDir, run);
    if r.Failure? {
      err := Some(r.error);
      return;
    }
    var (dEnv, dAls) := r.value;
    var target := if a.dest.Stdout? then Handle(stdout) else Path(a.dest.path);
    var fout;
    fout, err, envPairs, alsPairs := OutputScript(dEnv, dAls, target, Name(Other(a.input)));
    if a.dest.OutFile? {
      out := Some(fout);
    }
  }

  // ---------------------------------------------------------------------
  // Properties

  /** `-e` decides the run on its own, whatever else is given. */
  lemma EnvOverrides(o: Options, file: string)
    ensures Dispatch(o.(env := Some(file))) == RecordEnv(file)
  {
  }

  /** `-s` matters only when neither `-e` nor `-c` is given. */
  lemma ShIgnoredUnderCsh(o: Options, script: string)
    requires o.csh.Some?
    ensures Dispatch(o.(sh := Some(script))) == Dispatch(o)
  {
  }

  /**
   * Alias names are runs of `[A-Za-z0-9_-]`, which never contain the `=` or
   * the space that ends a name in an alias line: the alias section of a
   * converted script holds one line per changed alias and no line twice.
   */
  lemma AliasLinesDistinct(c: Capture, d: Dialect, als: seq<(string, string)>)
    requires Enumerates(als, Changes(c, d).1)
    ensures forall i, j :: 0 <= i < j < |als| ==>
              Section(LayoutOf(Other(d), Define), als)[i] != Section(LayoutOf(Other(d), Define), als)[j]
  {
    var f := LayoutOf(Other(d), Define);
    var after := Aliases.AliasTable(c.alsAfter, d);
    Aliases.AliasTableNames(c.alsAfter, d);
    Differ.DiffWithinAfter(Aliases.AliasTable(c.alsBefore, d), after);
    forall k | k in Changes(c, d).1
      ensures f.sep !in k
    {
      assert k in after;
    }
    SectionDistinct(f, als, Changes(c, d).1);
  }
}
