# smallsh in Dafny

A model of the core of `smallsh`, a small interactive Unix shell written in C.
The shell reads a command line and expands every `$$` to its own pid. It cuts
the line into words and handles the built-ins `exit`, `cd` and `status` itself.
Other commands run as children, in the foreground or, with a trailing `&`, in
the background. `<` and `>` redirect the child's input and output. The shell
tracks the last foreground outcome for `status` and keeps a table of background
children, which it reaps at the top of each loop. SIGTSTP toggles a
foreground-only mode in which `&` is ignored.

The model is split into modules that follow the program's functions:

- `Tokenize` covers `parseInput`. A specification of `strtok_r` on `" \n"`
  (`Tokens`) is proved to return non-empty words that keep every non-delimiter
  character. On a line typed as words separated by single spaces, it returns
  exactly those words. `ParseInput` fills the argument array with the tokens.
- `Arguments` covers `parseArgArray` and the child's redirection scan.
  `ExecArgs` removes the operators `<`, `>` and `&` and the file named after
  each redirection. `LastTarget` is the file that the last `<` or `>` names.
  Both are related to a `Command` record by a render/parse round trip.
- `Expand` covers `expandInput`. The character loop is proved equal to a
  run-based description. A lone `$` stays. A run of k ≥ 2 dollar signs becomes
  the pid k − 1 times.
- `Decimal` covers `sprintf("%d")`, with a proved inverse.
- `Status` covers `getSigStatus`, `getStatus` and the two notices that main
  prints after a wait.
- `Toggle` covers `catchSIGTSTP`.
- `Jobs` covers `resizeArray`, which compacts the pid array in place.
- `SmallShell.Shell` is a class holding the mutable state: `ExStat`, `termSig`,
  `foregroundOnly` and main's `pidList`/`childArrayLength`.
- `Dispatch` covers main's decision for one line: skip it, run a built-in, or
  launch a program in the foreground or background.

Functions such as `getpid`, `getpwuid` and the result of `waitpid` become
parameters. The shell's pid is `pid`, the home directory is `home`, and a
child's wait status is an `Outcome`.

Four behaviours of the code that a reader might not expect are modelled as
the code has them:

- A run of three or more dollar signs is not read as `$$` followed by the
  rest. Every `$` followed by another `$` yields one pid, so `$$$` becomes the
  pid twice (smallsh.c:349-355).
- A line is skipped when it starts with `#` or its length, newline included,
  is exactly one (smallsh.c:128). A line of spaces only is not skipped. It
  reaches `strcmp` on `argArray[0]` with a null pointer, so `Classify` requires
  such a line to hold at least one word.
- Background commands get `/dev/null` on standard input, output and error
  before the redirection scan, and explicit `<`/`>` files then replace it
  (smallsh.c:173-251).
- The job table is an ordered array. A reaped pid is removed by shifting the
  later entries down (smallsh.c:486-508).

## Model

| member | source | states |
|---|---|---|
| Tokenize.ParseInput | smallsh.c:376-391 | the count returned is the number of `strtok_r` tokens, the array's first slots hold exactly those tokens in order, and the later slots are untouched |
| Tokenize.TokensAreWords | smallsh.c:382 | every token is non-empty and contains no space or newline |
| Tokenize.TokensKeepLetters | smallsh.c:382 | the tokens written back to back are exactly the line's non-delimiter characters: nothing is lost, reordered or invented |
| Tokenize.TokensOfJoin | smallsh.c:382 | words typed with single spaces between them are tokenized back to the same words (round trip) |
| Tokenize.TokensIgnoreTrailingDelimiter | smallsh.c:382 | the trailing newline that getline leaves does not change the tokens |
| Tokenize.TokenCountGrows | smallsh.c:382-387 | reading further into the line never lowers the number of tokens |
| Arguments.ParseArgArray | smallsh.c:395-419 | the new array's first `argCount` slots are the exec arguments: the words in order, minus `<`, `>`, `&` and the file word after each redirection; at most `numArgs` of them |
| Arguments.ExecArgsHasNoOperator | smallsh.c:402-405 | no `<`, `>` or `&` reaches execvp |
| Arguments.ExecArgsSelects | smallsh.c:401-415 | the exec arguments are a subsequence of the words: there are strictly increasing positions of exactly the kept words |
| Arguments.FileOperandDropped | smallsh.c:402-409 | the first ordinary word after a redirection operator, with any `&` between them, is never kept |
| Arguments.LastTarget | smallsh.c:203-251 | there is no target exactly when the operator appears at no position followed by a word; otherwise the target is the word after the last such occurrence |
| Arguments.RedirectTargets | smallsh.c:203-251 | the scan over the words leaves `inFile` and `outFile` as the words after the last `<` and the last `>` |
| Arguments.MarkerAddsNoArgument | smallsh.c:405 | a trailing `&` adds nothing to the exec arguments |
| Arguments.MarkerHidesNoRedirection | smallsh.c:203-251 | a trailing `&` does not change which file is redirected |
| Arguments.ParseRender | smallsh.c:395-419 | reading the exec arguments, both redirection files and the `&` marker back from the words of a rendered command gives that command (round trip) |
| Expand.ExpandInput | smallsh.c:334-371 | the character-by-character rebuild equals the run-based expansion: a lone `$` stays, a run of k ≥ 2 dollar signs becomes the pid k − 1 times, all other characters are copied |
| Expand.SpanMatchesRuns | smallsh.c:347-364 | the per-character pieces the loop appends add up to the run-based expansion, for every line |
| Expand.ExpandWithoutDollar | smallsh.c:357-360 | a line without `$` comes back unchanged |
| Expand.ExpandRunsAppend | smallsh.c:347-364 | expansion distributes over concatenation when the cut does not split a run of dollar signs |
| Expand.ExpandOfDollars | smallsh.c:349-355 | k ≥ 2 dollar signs in a row expand to the pid k − 1 times |
| Expand.ExpandDollarRun | smallsh.c:349-355 | a run of k ≥ 2 dollar signs inside a line expands to the pid k − 1 times, and the text around it expands independently |
| Expand.ExpandTripleDollar | smallsh.c:349-355 | `$$$` becomes the pid twice |
| Decimal.Show | smallsh.c:338 | `%d` gives at least one digit, only digits, and no leading zero |
| Decimal.ValueOfShow | smallsh.c:338 | reading back the digits that `%d` printed gives the number printed |
| Decimal.ShowInjective | smallsh.c:338 | different numbers print differently |
| Status.Report | smallsh.c:439-448 | with termSig 0 the line is "exit value " followed by digits that read back as ExStat; otherwise it is "terminated by signal " followed by digits that read back as termSig |
| Status.InterruptNotice | smallsh.c:274-276 | a notice is printed exactly when termSig is 2, and it reads "terminated by signal 2" |
| Status.BackgroundNotice | smallsh.c:112-121 | nothing is printed exactly when the outcome is neither an exit nor a signal; otherwise the line starts "background pid N is done: " |
| Status.ReportAfterUpdate | smallsh.c:469-483 | after an exit, `status` prints "exit value" with the exit code; after a signal, "terminated by signal" with the signal; any other outcome changes nothing; the two fields are never both non-zero |
| Status.InitialReport | smallsh.c:25-26 | before any command, `status` prints "exit value 0" |
| Status.ReportInjective | smallsh.c:439-448 | the status line loses nothing: two reachable records that print the same are the same |
| Status.InterruptNoticeAfterUpdate | smallsh.c:268-276 | after a foreground wait the status is printed if and only if the child was killed by signal 2, and then it reads "terminated by signal 2" |
| Status.BackgroundNoticeAfterUpdate | smallsh.c:105-121 | the completion line of a reaped background child names its pid and its own exit status or signal; nothing is printed for any other outcome |
| Toggle.Notice | smallsh.c:512-525 | the hard-wired byte counts 51 and 31 write each message in full: the entry notice when leaving normal mode, the exit notice otherwise |
| Toggle.TogglesAlternate | smallsh.c:512-525 | after n signals the mode is flipped exactly when n is odd, and each notice announces the mode entered at that signal |
| Toggle.ToggleTwice | smallsh.c:512-525 | two signals restore the mode; from normal mode they write the entry notice and then the exit notice |
| Jobs.Without | smallsh.c:492-500 | removing a pid never makes the table longer |
| Jobs.WithoutCounts | smallsh.c:492-500 | removal drops every occurrence of the pid and keeps the multiplicity of every other pid |
| Jobs.WithoutAppend | smallsh.c:492-500 | removal keeps the order: it distributes over concatenation |
| Jobs.WithoutMembers | smallsh.c:492-500 | the pids left are exactly the old pids other than the removed one |
| Jobs.WithoutAbsent | smallsh.c:492-500 | removing a pid that is not in the table changes nothing |
| Jobs.RemoveRegistered | smallsh.c:105-106 | removing a pid registered once shortens the table by exactly one, matching main's decrement, and keeps the pids distinct and every other pid present |
| Jobs.ResizeArray | smallsh.c:486-508 | the first slots become the old first `length` entries without the pid, in order; the slots after them keep their old contents |
| SmallShell.Shell.constructor | smallsh.c:25-40 | the shell starts with no jobs, exit status 0, no signal, and normal mode |
| SmallShell.Shell.CatchSIGTSTP | smallsh.c:512-525 | the mode flips and the notice for the new mode is written |
| SmallShell.Shell.GetSigStatus | smallsh.c:469-483 | ExStat and termSig become the exit code with signal 0, or 0 with the signal, or stay as they were |
| SmallShell.Shell.FinishForeground | smallsh.c:265-277 | the outcome is recorded, and the status line is returned exactly when termSig is 2 |
| SmallShell.Shell.Register | smallsh.c:279-289 | the pid is appended to the job table, the rest of the array is untouched, the table stays distinct, and "Background PID is N" is announced |
| SmallShell.Shell.ReapBackground | smallsh.c:99-122 | the reaped pid leaves the table, the table shrinks by one and keeps its order, the outcome is recorded, and the completion line is returned |
| Dispatch.CdTarget | smallsh.c:424-432 | the directory for `cd` is the home directory or a word of the command; with an argument, it is the first argument |
| Dispatch.Classify | smallsh.c:128-151 | a line is skipped exactly when it starts with `#` or has length one; built-ins are chosen by the first word, and `cd`'s directory is home or one of its words; a launch carries the line's tokens, is not a built-in, and its exec arguments are `ExecArgs` of the tokens, with no operator; a background launch has `&` as its last word and foreground-only mode off |
| Dispatch.BackgroundExactly | smallsh.c:128-151 | a typed command line is never skipped; it launches a program exactly when its first word is not a built-in, and in the background exactly when, in addition, its last word is `&` and foreground-only mode is off |
| Dispatch.MarkerIgnoredInForegroundOnly | smallsh.c:145-151 | in foreground-only mode, a line ending in `&` launches in the foreground with the same arguments and redirections as the line without it |
| Dispatch.MarkerHonouredInNormalMode | smallsh.c:145-151 | in normal mode, the same line ending in `&` launches in the background |
| Dispatch.BuiltinsRouted | smallsh.c:133-142 | `exit`, `cd` and `status` are routed by the first word alone, in either mode and with or without `&`; `cd` alone goes to the home directory, `cd dir` goes to `dir` |

## Left out

- Process creation and program execution are not modelled. This covers
  `fork`, `execvp` and the child's error exit. So is `exitProgram`, which
  kills the jobs and waits for them. They are calls into the operating system.
  The child's argument list is `ExecArgs` and its redirections are
  `LastTarget`.
- Signal dispositions are not modelled: `sigaction` and `sigprocmask`.
  Neither are the parent's non-blocking `waitpid` and the foreground
  `waitpid`. The reaped pid and its `Outcome` are parameters.
- The `W*` macros are not modelled. `Outcome` already tells an exit from a
  signal.
- Opening files, `dup2` and the `/dev/null` redirection of background children
  are not modelled. They are I/O. The model gives the file that each stream
  ends up redirected to.
- Arguments.LastTarget: the source opens every `<` and `>` target in turn,
  not only the last. Each `>` target is created or truncated, so `ls > a > b`
  leaves an empty `a`. The model names only the last target of each kind.
- When an open fails, the child exits. The model keeps only the last `<` and
  the last `>`. It does not model that a failed open of an earlier one ends the
  child first.
- `getInput` is not modelled. That covers reading the line with `getline`, the
  prompt, and re-reading lines that are too long or empty. These are I/O. The
  line is a parameter of every operation that uses it.
- `changeDir`'s `chdir` call and its error message are not modelled. The model
  gives the directory chosen (`CdTarget`).
- Writing to standard output is not modelled: `printf`, `write` and `fflush`.
  Each operation returns the text it would print.
- Tokenize.ParseInput: the tokens are copied values. The model does not
  capture that `strtok_r` writes NULs into the input buffer and that the
  argument array points into it.
- Tokenize.ParseInput: lines with more than MAXARG words overflow the argument
  array in the source. They are excluded by a precondition.
- Expand.ExpandInput: the source overwrites the input buffer in place; the
  model returns the expanded line instead.
- Expand.ExpandInput: it requires a line that does not start with `$`. At
  position 0 the source appends to an uninitialised `temp` or reads
  `input[-1]`.
- Expand.ExpandInput: it requires a pid of at most five digits, because
  `pidChar` has six bytes.
- Expand.ExpandInput: it requires an expansion shorter than MAXLINE. Longer
  expansions overflow `temp`.
- Arguments.RedirectTargets: it requires that no redirection operator is the
  last word. In the source that case reads `argArray[argCount]`, a null
  pointer.
- Arguments.RedirectTargets: it requires file names shorter than MAXARG.
  Longer names overflow `inFile`/`outFile` in the source.
- Dispatch.Classify: lines that are not skipped but hold no word are excluded
  (a line of spaces only). In the source they pass a null pointer to
  `strcmp`.
- SmallShell.Shell.Register: it requires a free slot in the table and a pid
  that is not already registered. The source checks no bound. The operating
  system never hands out a live pid twice.
- SmallShell.Shell.ReapBackground: it requires the reaped pid to be registered.
  Foreground children are always waited for by pid, so `waitpid(-1, …)` only
  reaps background children.
- Characters versus bytes: the model's strings are sequences of characters,
  while the source counts bytes and stops at a NUL byte. Three consequences
  follow:
  - Dispatch.Skipped tests a length of one character where the source tests
    `strlen`, so a one-character non-ASCII line is skipped by the model but not
    by the source.
  - Expand.ExpandInput and Arguments.RedirectTargets bound lengths in
    characters, where `temp` and `inFile`/`outFile` hold bytes. A multi-byte
    name within the bound can still overflow the C buffer.
  - Tokenize.Tokens treats `'\0'` as an ordinary character, where the C string
    ends there.
- Integers are unbounded. A pid, exit code or signal number is a `nat`, and no
  C `int` overflow arises in the modelled code.
