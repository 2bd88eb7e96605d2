/** The two shell dialects and how the program names them in its `format` arguments. */
module Dialects {
  import opened Wrappers

  datatype Dialect = Csh | Bash

  /** The `format` string that selects a dialect. */
  function Name(d: Dialect): string {
    match d
    case Csh => "csh"
    case Bash => "bash"
  }

  /**
   * The `format=='csh'` / `format=='bash'` tests of sourceScript and
   * outputScript: any other string selects no dialect (and the caller raises
   * ValueError).
   */
  function ParseDialect(format: string): (r: Option<Dialect>)
    ensures r.Some? ==> Name(r.value) == format
  {
    if format == "csh" then Some(Csh)
    else if format == "bash" then Some(Bash)
    else None
  }

  /** Exactly the two dialect names are accepted, each meaning its own dialect. */
  lemma ParseDialectName(format: string, d: Dialect)
    ensures ParseDialect(format) == Some(d) <==> format == Name(d)
  {
  }

  /** The dialect a conversion emits: bash for csh input, csh for bash input. */
  function Other(d: Dialect): (r: Dialect)
    ensures r != d
  {
    match d
    case Csh => Bash
    case Bash => Csh
  }

  lemma OtherInvolution(d: Dialect)
    ensures Other(Other(d)) == d
  {
  }
}
