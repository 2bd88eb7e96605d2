# sourceAny in Dafny

sourceAny converts a shell start-up script from one dialect to the other. It
sources a csh (or bash) script in a child shell. The child records the
environment and the `alias` listing before and after sourcing. sourceAny then
diffs the two environments and the two alias tables, and writes the new or
changed entries as a bash (or csh) script.

This project models that pipeline in Dafny and proves its properties:

- `differ.dfy` (module `Differ`): `diffDict`, the loop that reports the
  entries of the "after" mapping that are new or changed.
- `text.dfy` (module `Text`): the character classes of the two alias
  expressions, greedy runs of a class (what `[...]+`, `\s+` and `.*`
  consume), and Python 2's `str.strip()`.
- `dialects.dfy` (module `Dialects`): the two dialects, the `format` strings
  that name them, and the swap that a conversion performs.
- `aliases.dfy` (module `Aliases`): `diffAlias`. This covers the csh and bash
  alias-line expressions, the strip and parenthesis clean-up, the loop that
  fills a table from a listing, and the diff of the two tables.
- `emitter.dfy` (module `Emitter`): `outputScript`. A `Stream` class stands
  for a writable file object: the chunks written so far and a closed flag.
  The module holds the header and line layouts of both dialects, the write
  loops, the ValueError on an unknown format, and the rule that only a file
  the function opened itself is closed.
- `sourcer.dfy` (module `Sourcer`): `sourceScript`. It picks the wrapper
  script name and shell for the dialect, runs the wrapper, and returns the
  env diff and the alias diff. Running the wrapper is a function parameter.
- `cli.dfy` (module `Cli`): the option dispatch of `main`, and one whole
  conversion run to standard output or to a file.
- `wrappers.dfy` (module `Wrappers`): `Option`, `Result`, and the error
  cases. These are ValueError for an unknown format, ValueError for a write
  to a closed file, and `CalledProcessError` for a non-zero exit status.

Dictionary iteration order is unspecified in the source. So the write loops
pick their next key nondeterministically. They also return, as ghost
values, the order they used. Contracts state the output for that order,
and lemmas state what holds for every order.

The model keeps these behaviours of the code as written:

- The csh expression's `\s+` may match the line's own newline. So a listing
  line `FOO` followed by a newline defines `FOO` as the empty string, while
  the same line without the newline defines nothing.
- The bash expression's greedy `.*'` backs off to the last quote on the
  line. Text after that quote is ignored.
- `value[1:-1]` removes the first character and the last character, whatever
  the last one is. `(` alone becomes empty.
- `diffAlias` uses the csh expression only for format `csh`, and the bash
  expression for every other string.
- `outputScript` opens its file before it checks the format. On ValueError
  that file stays open and empty.
- Entry values are written into the templates without any escaping.
- Keys that the sourced script removes are never reported.

## Model

| member | source | states |
|---|---|---|
| Differ.DiffDict | sourceAny.py:10-19 | the result holds exactly the keys of `d2` that `d1` lacks or maps to another value, each with its `d2` value, whatever order the loop visits the keys in |
| Differ.Diff | sourceAny.py:10-19 | the mapping `diffDict` returns; `DiffDict` proves the loop computes it and the lemmas below state what it holds |
| Differ.DiffWithinAfter | sourceAny.py:12-18 | every reported entry is an entry of the "after" mapping |
| Differ.DiffOfSameIsEmpty | sourceAny.py:13-16 | comparing a mapping with itself reports nothing |
| Differ.DiffOfAddedKey | sourceAny.py:17-18 | adding one new key reports exactly that key and value |
| Differ.DiffOfRemovedKey | sourceAny.py:12 | a removed key is never reported |
| Differ.DiffPatchesBefore | sourceAny.py:10-19 | overlaying the diff on "before" gives "after" on every key of "after" and leaves dropped keys at their old values |
| Differ.DiffIsMinimal | sourceAny.py:10-19 | any overlay that turns "before" into "after" must set every reported key |
| Text.Span | sourceAny.py:40-42 | the greedy run of a character class from a position: all its characters are in the class and the next one is not |
| Text.SpanIsMaximal | sourceAny.py:40-42 | no run of class characters from that position is longer than the greedy run |
| Text.SpanUnique | sourceAny.py:40-42 | a run that stops at the end or at a character outside the class is the greedy run |
| Text.StripLeft | sourceAny.py:52-53 | `lstrip`: characterised by `StripLeftShape` and `StripIgnoresLeadingSpace` |
| Text.StripRight | sourceAny.py:52-53 | `rstrip`: characterised by `StripRightShape` |
| Text.Strip | sourceAny.py:52-53 | `str.strip()`: characterised by `StripShape`, `StripKeeps` and `StripIdempotent` |
| Text.StripLeftShape | sourceAny.py:52-53 | `lstrip` keeps a suffix, removes only whitespace, and the result does not start with whitespace |
| Text.StripRightShape | sourceAny.py:52-53 | `rstrip` keeps a prefix, removes only whitespace, and the result does not end with whitespace |
| Text.StripShape | sourceAny.py:52-53 | `strip` returns a slice of its input with only whitespace removed on both sides and no whitespace at either end |
| Text.StripIgnoresLeadingSpace | sourceAny.py:53 | whitespace in front of a string does not change what `lstrip` returns |
| Text.StripKeeps | sourceAny.py:52-53 | a string without whitespace at either end is returned unchanged |
| Text.StripIdempotent | sourceAny.py:52-53 | stripping twice is stripping once |
| Text.StripKeepsName | sourceAny.py:52 | the name group, made of `[A-Za-z0-9_-]`, is unchanged by `strip` |
| Dialects.ParseDialect | sourceAny.py:66-75 | only the strings `csh` and `bash` select a dialect, each its own |
| Dialects.ParseDialectName | sourceAny.py:143-148 | `format` selects dialect `d` exactly when it is `d`'s name |
| Dialects.Other | sourceAny.py:174-192 | the output dialect of a conversion differs from the input dialect |
| Dialects.OtherInvolution | sourceAny.py:174-192 | swapping the dialect twice gives the original dialect |
| Aliases.LastQuote | sourceAny.py:42 | the position of the last `'` in a range, or no position when the range has none |
| Aliases.GrammarFor | sourceAny.py:39-42 | the csh expression is used exactly when format is `csh` |
| Aliases.MatchCsh | sourceAny.py:40 | the groups of the csh expression matched at the start of a line: `CshMatchesIff` says when it matches and `CshValue` what the groups are |
| Aliases.MatchBash | sourceAny.py:42 | the groups of the bash expression matched at the start of a line: `BashLineMatch` and `BashUnclosed` say which lines match, `BashMatchShape` what every match looks like |
| Aliases.Unparen | sourceAny.py:54-55 | `value[1:-1]` for a value opening with `(`: characterised by `UnparenCutsBothEnds` and `UnparenExamples` |
| Aliases.Clean | sourceAny.py:52-55 | both groups stripped, then a value opening with `(` unwrapped: characterised by `PlainValue`, `ParenValue` and `StripKeepsName` |
| Aliases.ParseLine | sourceAny.py:48-55 | one listing line's (name, value) pair, or nothing when it does not match: characterised by `CshLine`, `BashLineParse`, `ParsedNameIsName` and the round-trip lemmas |
| Aliases.Fill | sourceAny.py:56 | the table that `dAls[name] = value` builds: characterised by `FillKeys`, `FillLastWins` and `FillSkips` |
| Aliases.AliasTable | sourceAny.py:45-56 | the table of one listing: characterised by `AliasTableKeys`, `AliasTableLastWins`, `AliasTableSkips` and `AliasTableSingle` |
| Aliases.ParseAliases | sourceAny.py:45-56 | the loop over one listing builds the table `AliasTable` of that listing |
| Aliases.DiffAlias | sourceAny.py:34-57 | the result is the diff of the tables built from the two listings with the expression `format` selects |
| Aliases.CshMatchesIff | sourceAny.py:40 | a line matches the csh expression exactly when it opens with a non-empty name followed by whitespace |
| Aliases.CshValue | sourceAny.py:40-53 | on a matching csh line, the name group is the leading name and the stripped value group is the stripped rest of the line |
| Aliases.CshValueText | sourceAny.py:40 | when text follows the whitespace, the value group runs from after the whitespace to the end of the line's text |
| Aliases.CshValueBlank | sourceAny.py:40 | when the whitespace run reaches the end of the line, the value group is empty |
| Aliases.CshLine | sourceAny.py:40-55 | a csh line `NAME REST`, with or without its newline, defines NAME as REST stripped and unwrapped |
| Aliases.CshBareName | sourceAny.py:40-53 | a bare name followed by a newline defines the name as empty, and the same name without a newline does not match |
| Aliases.CshListingRoundTrip | sourceAny.py:40-56 | a csh listing line `NAME<tab>VALUE` reads back as (NAME, VALUE) for a plain value |
| Aliases.CshListingParenRoundTrip | sourceAny.py:40-56 | a csh listing line `NAME<tab>(VALUE)` reads back as (NAME, VALUE) |
| Aliases.BashHead | sourceAny.py:42 | a line opening with `alias NAME='` has NAME as the greedy name run after the keyword |
| Aliases.BashTail | sourceAny.py:42 | after `='`, the value runs up to the last quote before the end of the line, whether or not the line keeps its newline |
| Aliases.BashMatchAt | sourceAny.py:42 | a line with head `alias NAME='` and tail `BODY'REST` matches with groups NAME and BODY |
| Aliases.BashLineMatch | sourceAny.py:42-48 | `alias NAME='BODY'REST`, bare or with its newline, with no quote or newline in REST, matches with groups NAME and BODY |
| Aliases.BashLineParse | sourceAny.py:42-55 | such a line, bare or with its newline, defines NAME as BODY stripped and unwrapped |
| Aliases.BashMatchPrefix | sourceAny.py:42 | every line that matches the bash expression opens with `alias NAME='BODY'`, where NAME and BODY are the two groups |
| Aliases.BashMatchLastQuote | sourceAny.py:42 | on a matching line no `'` follows BODY's closing quote before the line's newline: `.*'` ends at the last quote |
| Aliases.BashMatchShape | sourceAny.py:42-50 | conversely to `BashLineMatch`: every match opens with `alias NAME='BODY'` for a name of `[A-Za-z0-9_-]`, and its closing quote is the last one before the newline |
| Aliases.BashUnclosed | sourceAny.py:42-50 | a line `alias NAME='BODY` without a closing quote before its newline does not match, so it defines nothing |
| Aliases.BashListingRoundTrip | sourceAny.py:42-56 | a bash listing line `alias NAME='VALUE'`, bare or with its newline, reads back as (NAME, VALUE) for a plain value |
| Aliases.UnparenCutsBothEnds | sourceAny.py:54-55 | a value opening with `(` loses exactly its first and its last character |
| Aliases.PlainValue | sourceAny.py:53-55 | a plain value after a tab comes out of the clean-up unchanged |
| Aliases.ParenValue | sourceAny.py:53-55 | a parenthesised value after a tab comes out of the clean-up without its parentheses |
| Aliases.UnparenExamples | sourceAny.py:54-55 | `(` becomes empty, `(ls` becomes `l`, and `ls)` is unchanged |
| Aliases.FillKeys | sourceAny.py:49-56 | a name is in the table exactly when some outcome defines it |
| Aliases.FillLastWins | sourceAny.py:56 | the value of a name is the one its last defining outcome gives |
| Aliases.FillSkips | sourceAny.py:49-50 | outcomes of lines that do not match leave the table unchanged |
| Aliases.AliasTableKeys | sourceAny.py:47-56 | a name is in a listing's table exactly when some line of the listing defines it |
| Aliases.AliasTableLastWins | sourceAny.py:56 | a name defined more than once takes its value from the last line that defines it |
| Aliases.EntriesAppend | sourceAny.py:47-48 | the outcomes of two listings read one after the other are the outcomes of each |
| Aliases.AliasTableSkips | sourceAny.py:49-50 | a line that does not match can be removed without changing the table |
| Aliases.AliasTableSingle | sourceAny.py:56 | a one-line listing defines exactly its own pair |
| Aliases.MatchedNameIsName | sourceAny.py:40-42 | the name group of a match is a non-empty run of `[A-Za-z0-9_-]` |
| Aliases.ParsedNameIsName | sourceAny.py:52 | every name a line defines is such a run |
| Aliases.AliasTableNames | sourceAny.py:52-56 | every key of an alias table is such a run |
| Emitter.Stream.Write | sourceAny.py:112-134 | a write to an open stream appends its text and changes nothing else |
| Emitter.Stream.Close | sourceAny.py:150-151 | closing marks the stream closed and leaves its text alone |
| Emitter.Stream.Open | sourceAny.py:140 | opening a path for writing gives an empty, open stream with that name |
| Emitter.Header | sourceAny.py:112-124 | the first line of a script: `#!/bin/bash` or `#!/bin/csh`; `ScriptShape` places it first |
| Emitter.LayoutOf | sourceAny.py:114-131 | the four line templates, each ending in a newline; `AliasLinesDistinct` and `LineInjective` use their separators |
| Emitter.Line | sourceAny.py:114-131 | one entry's line: `LineInjective` proves the line gives back its name and value when the name lacks the separator |
| Emitter.Script | sourceAny.py:111-134 | the whole text written for a dialect: characterised by `ScriptShape` |
| Emitter.Section | sourceAny.py:113-122 | one line per entry, in the order given, each line the entry's template |
| Emitter.WriteSection | sourceAny.py:113-117 | the loop writes one line per entry of the mapping, each key once, in some order |
| Emitter.FormatScript | sourceAny.py:111-134 | the header, then the env lines, then the alias lines are appended |
| Emitter.OutputScript | sourceAny.py:110-151 | an unknown format raises ValueError before any write; a closed stream raises at the first write; otherwise the whole script is appended; a stream from the caller is never closed; a file it opened is closed exactly on success |
| Emitter.EnumerationLength | sourceAny.py:113-122 | a loop over a mapping visits exactly as many entries as it has keys |
| Emitter.SectionCovers | sourceAny.py:113-122 | the section holds each entry's line, and each of its lines is some entry's line |
| Emitter.ScriptShape | sourceAny.py:111-134 | the script is 1 + #env + #aliases lines: the header, the env section and the alias section, each section holding every entry's line |
| Emitter.SplitAtSeparator | sourceAny.py:114-131 | two lines that agree and whose names lack the separator have equal names and equal tails |
| Emitter.LineInjective | sourceAny.py:114-131 | a line determines its name and value when names lack the separator that ends them |
| Emitter.SectionDistinct | sourceAny.py:113-134 | with such names, no line of a section is repeated |
| Sourcer.Join | sourceAny.py:66-73 | the joined path is the file under the directory, with a `/` inserted exactly when the directory does not end in one |
| Sourcer.SelectWrapper | sourceAny.py:66-75 | any format other than `csh` or `bash` is a ValueError, and a shell given by the caller is kept |
| Sourcer.DefaultWrappers | sourceAny.py:66-73 | without a shell from the caller, csh uses `do.csh` with `/bin/csh` and bash uses `do.sh` with `/bin/bash` |
| Sourcer.WrapperInTmpDir | sourceAny.py:65-71 | the wrapper script lies directly inside the temporary directory |
| Sourcer.SourceScript | sourceAny.py:59-108 | an unknown format raises ValueError, a non-zero exit raises `CalledProcessError` with that status, and otherwise the result is the env diff and the alias diff of the run |
| Sourcer.ChangesOfNoOp | sourceAny.py:96-108 | a script that changes nothing is reported as changing nothing |
| Sourcer.ChangesReplay | sourceAny.py:96-108 | overlaying the reported changes on the before state gives the after state for every variable and alias that is still defined |
| Cli.Dispatch | sourceAny.py:170-192 | `-e` wins over `-c`, which wins over `-s`; csh input converts to bash and bash input to csh; without `-o` the output is stdout; with none of the three options nothing happens |
| Cli.Run | sourceAny.py:170-192 | a conversion sources the script with the default shell and writes the other dialect's script of its changes to stdout or to a new file that is then closed; stdout is never closed; errors stop the run before any output |
| Cli.EnvOverrides | sourceAny.py:170-172 | `-e` decides the run whatever other options are given |
| Cli.ShIgnoredUnderCsh | sourceAny.py:174-184 | `-s` is ignored when `-c` is given |
| Cli.AliasLinesDistinct | sourceAny.py:118-134 | alias names never contain `=` or a space, so the alias section of a conversion has exactly one line per changed alias |

## Left out

- `saveAllEnvVar` and `diffEnvVar` (pickling and unpickling `os.environ`) are not modelled. The environments before and after are maps handed in through `Sourcer.Capture`. The `-e` branch of `Cli.Run` does nothing.
- Reading files is not modelled: a listing is a sequence of lines, each with or without its final newline.
- `tempfile.mkdtemp`, writing the wrapper script, `os.chmod`, `subprocess.check_call` and `shutil.rmtree` are not modelled. The temporary directory is a parameter. The run is a function from the invocation (script path, shell, sourced path) to a `Sourcer.Capture` holding the exit status and the two snapshots.
- The wrapper script's text, and `os.path.abspath` of the sourced path, are not modelled, for the same reason.
- Option parsing with `optparse` is not modelled: `Cli.Options` holds the parsed options.
- Cli.Run: the shell is always the default one, as in `main`; `binShell` is a parameter only of `Sourcer.SourceScript`.
- Emitter.OutputScript: a failing `open(fnOut, 'w')` (an IOError for a missing directory or a denied permission, for example) is not modelled: `Emitter.Stream.Open` always succeeds. Write errors other than a closed stream (a full disk, for example) are not modelled either.
- Emitter.Stream: a stream's content is the sequence of written chunks; how they are buffered and flushed is not modelled.
- Dictionary iteration order is not modelled: the loops may visit keys in any order, and contracts hold for every order.
- Python 3's Unicode `strip()` and `\s` are not modelled. The model follows Python 2 byte strings, whose whitespace is space, tab, newline, carriage return, vertical tab and form feed.
