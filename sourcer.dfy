/**
 * `sourceScript` of sourceAny.py: pick the wrapper script and shell for a
 * dialect, run the wrapper (which records the environment and the alias
 * listing before and after sourcing the user's script), and report what the
 * sourcing changed.
 */
module Sourcer {
  import opened Wrappers
  import opened Dialects
  import Differ
  import Aliases

  /** `os.path.join(dir, file)` for a relative `file`: a `/` is inserted unless `dir` is empty or ends in one. */
  function Join(dir: string, file: string): (p: string)
    ensures p == dir + file || p == dir + "/" + file
    ensures p == dir + file <==> dir == [] || dir[|dir| - 1] == '/'
  {
    if dir == [] || dir[|dir| - 1] == '/' then dir + file else dir + "/" + file
  }

  /** The wrapper the shell runs: its path inside the temporary directory, and the shell binary. */
  datatype Wrapper = Wrapper(script: string, shell: string)

  function ScriptName(d: Dialect): string {
    match d
    case Csh => "do.csh"
    case Bash => "do.sh"
  }

  function DefaultShell(d: Dialect): string {
    match d
    case Csh => "/bin/csh"
    case Bash => "/bin/bash"
  }

  /**
   * The dialect branch of `sourceScript`: `do.csh` run by `/bin/csh` for
   * csh, `do.sh` run by `/bin/bash` for bash, a shell given by the caller
   * kept as is, and ValueError for any other format.
   */
  function SelectWrapper(format: string, binShell: Option<string>, tmpDir: string): (r: Result<Wrapper, Error>)
    ensures r.Failure? <==> format != "csh" && format != "bash"
    ensures r.Failure? ==> r.error == UnsupportedDialect
    ensures r.Success? && binShell.Some? ==> r.value.shell == binShell.value
  {
    match ParseDialect(format)
    case None => Failure(UnsupportedDialect)
    case Some(d) =>
      var shell := if binShell.Some? then binShell.value else DefaultShell(d);
      Success(Wrapper(Join(tmpDir, ScriptName(d)), shell))
  }

  /** What the shell is asked to do: run `script` with `shell`, the script sourcing `sourced`. */
  datatype Invocation = Invocation(script: string, shell: string, sourced: string)

  /**
   * What running the wrapper leaves behind: the exit status, the environment
   * before and after sourcing, and the `alias` listings before and after
   * (one string per line).
   */
  datatype Capture = Capture(exitCode: int,
                             envBefore: map<string, string>, envAfter: map<string, string>,
                             alsBefore: seq<string>, alsAfter: seq<string>)

  /** The pair `sourceScript` returns for a successful run: the env diff and the alias diff. */
  function Changes(c: Capture, d: Dialect): (map<string, string>, map<string, string>) {
    (Differ.Diff(c.envBefore, c.envAfter),
     Differ.Diff(Aliases.AliasTable(c.alsBefore, d), Aliases.AliasTable(c.alsAfter, d)))
  }

  /**
   * `sourceScript(fnIn, format, binShell)`. The temporary directory and the
   * shell are parameters: `run` stands for writing the wrapper, executing it
   * with `subprocess.check_call` and reading back its four dumps.
   */
  method SourceScript(fnIn: string, format: string, binShell: Option<string>, tmpDir: string,
                      run: Invocation -> Capture)
      returns (r: Result<(map<string, string>, map<string, string>), Error>)
    ensures ParseDialect(format).None? ==> r == Failure(UnsupportedDialect)
    ensures ParseDialect(format).Some? ==>
              var w := SelectWrapper(format, binShell, tmpDir).value;
              var c := run(Invocation(w.script, w.shell, fnIn));
              r == if c.exitCode != 0 then Failure(CalledProcessError(c.exitCode))
                   else Success(Changes(c, ParseDialect(format).value))
  {
    var w := SelectWrapper(format, binShell, tmpDir);
    if w.Failure? {
      return Failure(w.error);
    }
    var c := run(Invocation(w.value.script, w.value.shell, fnIn));
    if c.exitCode != 0 {
      return Failure(CalledProcessError(c.exitCode));
    }
    var dEnv := Differ.DiffDict(c.envBefore, c.envAfter);
    var dAls := Aliases.DiffAlias(c.alsBefore, c.alsAfter, format);
    r := Success((dEnv, dAls));
  }

  // ---------------------------------------------------------------------
  // Properties

  /** Without a shell from the caller, each dialect gets its own wrapper name and shell. */
  lemma DefaultWrappers(tmpDir: string)
    ensures SelectWrapper("csh", None, tmpDir) == Success(Wrapper(Join(tmpDir, "do.csh"), "/bin/csh"))
    ensures SelectWrapper("bash", None, tmpDir) == Success(Wrapper(Join(tmpDir, "do.sh"), "/bin/bash"))
  {
  }

  /** The wrapper lives directly inside the temporary directory. */
  lemma WrapperInTmpDir(format: string, binShell: Option<string>, tmpDir: string)
    requires SelectWrapper(format, binShell, tmpDir).Success?
    ensures var p := SelectWrapper(format, binShell, tmpDir).value.script;
            var name := ScriptName(ParseDialect(format).value);
      tmpDir <= p && (p[|tmpDir|..] == name || p[|tmpDir|..] == "/" + name)
  {
    var name := ScriptName(ParseDialect(format).value);
    if tmpDir == [] || tmpDir[|tmpDir| - 1] == '/' {
      assert (tmpDir + name)[|tmpDir|..] == name;
    } else {
      assert (tmpDir + ("/" + name))[|tmpDir|..] == "/" + name;
      assert tmpDir + "/" + name == tmpDir + ("/" + name);
    }
  }

  /** A script that changes nothing is reported as changing nothing. */
  lemma ChangesOfNoOp(c: Capture, d: Dialect)
    requires c.envBefore == c.envAfter && c.alsBefore == c.alsAfter
    ensures Changes(c, d) == (map[], map[])
  {
    Differ.DiffOfSameIsEmpty(c.envBefore);
    Differ.DiffOfSameIsEmpty(Aliases.AliasTable(c.alsBefore, d));
  }

  /**
   * Replaying the reported changes on top of the "before" state gives the
   * "after" state for every variable and alias the sourced script left
   * defined; removals are not reported, so removed names keep their old value.
   */
  lemma ChangesReplay(c: Capture, d: Dialect)
    ensures var (dEnv, dAls) := Changes(c, d);
      && (forall k :: k in c.envAfter ==> k in c.envBefore + dEnv && (c.envBefore + dEnv)[k] == c.envAfter[k])
      && (forall k :: k in Aliases.AliasTable(c.alsAfter, d) ==>
            var before := Aliases.AliasTable(c.alsBefore, d);
            k in before + dAls && (before + dAls)[k] == Aliases.AliasTable(c.alsAfter, d)[k])
  {
    Differ.DiffPatchesBefore(c.envBefore, c.envAfter);
    Differ.DiffPatchesBefore(Aliases.AliasTable(c.alsBefore, d), Aliases.AliasTable(c.alsAfter, d));
  }
}
