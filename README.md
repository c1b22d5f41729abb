# in-trigger, modelled in Dafny

`in-trigger command [pattern]` watches one directory through inotify. It runs
`command` with system(3) each time an entry's modification is reported and
the entry's name matches the shell pattern. All of the program lives in
`trigger.c`. This project models that file's logic and proves properties
about it:

- **should_trigger** decides which events run the command
  (`events.dfy`, `glob.dfy`). Its fnmatch(3) call with `FNM_PATHNAME` is
  modelled as a matcher over literal characters, backslash quoting, `?`
  and `*`. That matcher is proved equal to a reference reading of the
  pattern.
- **mask2str** names the first known inotify bit of an event mask
  (`events.dfy`).
- **determine_watch_path** chooses the directory to watch and the pattern
  left for the names reported in it (`watch_path.dfy`). It relies on
  dirname(3) and basename(3) (`path_split.dfy`).
- **process_events** is the loop that reads the inotify descriptor, runs
  the command and writes progress lines (`event_loop.dfy`,
  `event_loop_facts.dfy`).
- **main** checks the arguments, sets up the watch and writes the log lines
  around the loop (`cli.dfy`, `cli_facts.dfy`).

The kernel, the signal handler and system() are not modelled as code; they
are replaced by inputs:

- Each read of the inotify descriptor is one element of a script:
  - `Record`: an event, what system() reports if the command runs for it,
    and whether the SIGINT handler fires while the record is handled;
  - `ReadFailed`: read() returned a negative length;
  - `KilledInRead`: SIGINT arrived during read(), while the default
    disposition is installed.
- getcwd(), inotify_init() and inotify_add_watch() succeed or fail according
  to an `Environment` value.
- `debugBuild` says whether `debug()` is compiled in. In that case mask2str
  is evaluated before each command, and its assert aborts the process on an
  unknown mask.

The C functions are modelled in their own form:

- `DetermineWatchPath`, `HandleRead`, `ProcessEvents` and `TriggerMain` are
  methods that follow the statements of the C code.
- Each of these methods is proved equal to a specification function:
  `ResolveAsWritten`, `Handle`, `Dispatch` and `Main`.
- The lemmas are stated about those functions.

Where the code and the program's own description disagree, the model
follows the code:

- A SIGINT that arrives while process_events waits in read() kills the
  process (trigger.c:91-93 restore the default disposition around read()).
  It does not end the loop cleanly with exit status 0.
- If inotify_init() or inotify_add_watch() fails, the process exits with
  status 1 and does not print the usage text (trigger.c:30-31, 40-41).
- Only `-h` asks for the usage text. There is no `--help`.
- An unknown event mask does not produce a label. In a build with `debug()`
  it aborts the process before the command runs (trigger.c:79, 97).
- Every return from process_events logs "Terminating ...". This includes a
  `break` after the command dies of a signal and a failed read; after both,
  main goes on to exit 0 (trigger.c:103, 110-111, 179-183).

## Model

| member | source | states |
|---|---|---|
| Glob.Tokens | trigger.c:48 | reading a pattern fails only on a pattern ending in a backslash |
| Glob.Quote | trigger.c:48 | quoting tokens back into pattern text and reading that text again gives the same tokens |
| Glob.MatchConsumes | trigger.c:48 | the matcher `MatchTokens` gives each literal character and each `?` exactly one character of the name; without `*` the name has one character per token |
| Glob.FnMatch | trigger.c:48 | only a readable pattern matches, and a matched name is at least as long as the pattern's literals and `?`s; its full meaning is `Glob.FnMatchIsGlob` |
| Glob.TrailingBackslash | trigger.c:48 | a readable pattern with a backslash added at its end cannot be read and matches no name |
| Glob.FnMatchIsGlob | trigger.c:48 | the matcher accepts a name exactly when the name is the pattern with every `?` replaced by one non-`/` character and every `*` by a `/`-free string (backslash quotes the next character) |
| Glob.MatchKeepsSlashes | trigger.c:48 | under FNM_PATHNAME a match pairs every `/` of the name with a `/` written in the pattern |
| Glob.SlashFreePatternMatchesNoPath | trigger.c:48 | a pattern without `/` matches only names without `/` |
| Glob.StarDotC | trigger.c:48 | `*.c` matches `main.c` and does not match `src/main.c` |
| Glob.PlainMatchesItself | trigger.c:48 | a pattern without special characters (`*`, `?`, `\`, `[`) matches its own text and nothing else |
| Glob.DirectoryPrefix | trigger.c:48 | a directory prefix without special characters can be taken off both the pattern and the name without changing the verdict |
| Glob.DotSlashNeedsSlash | trigger.c:48 | a pattern beginning with `./` matches no name that lacks a `/` |
| Events.ShouldTrigger | trigger.c:45-60 | an event with no name never triggers; a named event always triggers when no pattern is set |
| Events.ShouldTriggerIsGlob | trigger.c:47-50 | with a pattern, a named event triggers exactly when its name matches the pattern in the reference reading |
| Events.StarDotCTriggers | trigger.c:45-60 | with pattern `*.c`, an event for `main.c` triggers and one for `src/main.c` does not |
| Events.MaskToKind | trigger.c:62-81 | no kind exactly when no known bit is set; otherwise the kind's bit is set in the mask and no bit checked before it is set |
| Events.EventName | trigger.c:62-81 | a name exactly when a known bit is set, and then it is the label of the first bit set in the order mask2str tests them |
| Events.SingleBitNamed | trigger.c:65-76 | a mask holding a single known bit is named after that bit |
| PathSplit.TrimSlashes | trigger.c:131-132 | the result is a prefix that does not end in `/`, and only slashes were removed |
| PathSplit.TrimName | trigger.c:131-132 | the result is a prefix that is empty or ends in `/`, and the part removed holds no `/` |
| PathSplit.Basename | trigger.c:131 | basename() is never empty, and it is `/` or free of `/` |
| PathSplit.Dirname | trigger.c:132 | dirname() is never empty, and it is `/` or does not end in `/` |
| PathSplit.SplitJoin | trigger.c:131-132 | for `dir/name`, where dir does not end in `/` and name has no `/`, dirname gives dir and basename gives name |
| PathSplit.ReassembleDirectory | trigger.c:131-133 | a path with a directory part is its dirname and its basename joined by a non-empty run of slashes (or by the root dirname's own `/`), plus trailing slashes |
| PathSplit.ReassembleName | trigger.c:131-133 | a path without a directory part is its basename plus trailing slashes |
| PathSplit.NoDirectoryDirnameDot | trigger.c:133 | a path without a directory part has dirname `.` |
| WatchPath.ResolveAsWritten | trigger.c:128-146 | with no pattern, or a pattern without a directory part, the working directory is watched with the pattern unchanged; a pattern that is rewritten becomes `/` or a name free of `/` |
| WatchPath.DetermineWatchPath | trigger.c:121-150 | the directory and the new pattern are those of `ResolveAsWritten`. The path is missing exactly when getcwd() fails and the pattern is absent or its dirname is `.`. With no pattern the working directory is watched. A rewritten pattern has no `/` of its own |
| WatchPath.ResolveDiffersOnlyOnDot | trigger.c:133 | the split as written and the split as described differ only for patterns with a directory part whose dirname is `.` |
| WatchPath.ResidualHasNoDirectory | trigger.c:131-136 | the pattern left after the split has no directory part (bar the root `/`), except a pattern kept whole because its dirname is `.` |
| WatchPath.CorrectedResidualHasNoDirectory | trigger.c:131-136 | with the corrected split, the pattern left never has a directory part (bar the root `/`) |
| WatchPath.ResolveKeepsMatching | trigger.c:128-137 | with the corrected split, `dir/pat` watches dir with `pat`, and a name reported there triggers exactly when `dir/name` matches `dir/pat` |
| WatchPath.ResolveExamples | trigger.c:128-146 | as written, `src/*.c` watches `src` for `*.c`; `foo.txt` and no pattern watch the working directory |
| WatchPath.DotSlashPrefixed | trigger.c:133 | with `./` put in front of the name, `./pat` matches exactly the names `pat` matches |
| WatchPath.DotSlashPatternNeverTriggers | trigger.c:133 | as written, `./pat` is kept whole with the working directory watched, and no reported name ever triggers |
| EventLoop.Dispatch | trigger.c:83-112 | the loop never consumes more reads than it is given, and it is still waiting only after consuming all of them |
| EventLoop.HandleRead | trigger.c:91-108 | one pass of the loop body writes the lines and causes the stop that `Handle` describes |
| EventLoop.ProcessEvents | trigger.c:83-112 | the loop writes the trace, stops for the reason and consumes the reads that `Dispatch` gives |
| EventLoop.HandleContinues | trigger.c:96-109 | a pass goes round again exactly for a record that is rejected, or whose command exits or dies of a signal other than SIGINT/SIGQUIT, with no SIGINT caught |
| EventLoop.HandleRuns | trigger.c:96-99 | a pass runs the command, once, exactly for an accepted record that the debug assert does not abort; only that assert stops a pass with SIGABRT |
| EventLoop.HandleStops | trigger.c:90-111 | a failed read, a command system() could not launch, one killed by SIGINT or SIGQUIT, and a SIGINT caught by the handler each stop the loop and return through "Terminating ..."; a SIGINT during read() and the debug assert are the only stops that kill the process |
| EventLoopFacts.RunsAreAccepted | trigger.c:96-99 | the command runs once for each accepted record consumed, in order, with the record's name. After a debug abort the last record is accepted but not run |
| EventLoopFacts.StopsAtFirst | trigger.c:90-109 | the loop passes every read before the last one consumed, and it stops at that read for the reason it gives. It is waiting exactly when every read lets it go round |
| EventLoopFacts.ReportedAppend | trigger.c:98-111 | well-reported traces joined at a clean boundary stay well reported |
| EventLoopFacts.HandleReported | trigger.c:98-106 | the lines of one pass, with "Terminating" added when it stops the loop, form a report; they never hold "Terminating" themselves, do not start with a closing line, and a pass that goes round again ends on "done." or writes nothing |
| EventLoopFacts.DispatchReported | trigger.c:98-111 | every "Executing" line carries the command and is followed at once by "done." or "Interrupted by signal" for the same name, or by "Terminating" when system() could not launch it. Every closing line follows its "Executing". "Terminating" is last, and it appears exactly when process_events returns |
| EventLoopFacts.ExitCodeIgnored | trigger.c:99-106 | the loop behaves the same whatever exit codes the command returns |
| EventLoopFacts.LaterReads | trigger.c:90-109 | reads after the loop has stopped change nothing; a waiting loop continues with the next reads from where it stood |
| EventLoopFacts.NoMatchNoRuns | trigger.c:96-99 | when no reported name matches the pattern, the command never runs |
| Cli.TriggerMain | trigger.c:157-187 | main writes the output and ends the way `Main` describes |
| CliFacts.UsageWhenMisused | trigger.c:163-186 | the usage text is printed exactly for a wrong argument count, for `-h`, and when getcwd() fails while the pattern is absent or its dirname is `.`; it is then the only output |
| CliFacts.ExitStatus | trigger.c:157-187 | exit status 0 exactly after `-h` or when process_events returns; status 1 exactly for a bad argument count or a failed set-up; otherwise the process has reached the watch |
| CliFacts.RunsTheGivenCommand | trigger.c:168-178 | every command the program runs is its first argument |
| CliFacts.DirectoryArgument | trigger.c:169-178 | `in-trigger cmd dir/pat` with dir other than `.` watches `dir` with `pat`, and a name there triggers exactly when `dir/name` matches `dir/pat`; with dir `.` the argument is kept whole and the program watches the working directory, or prints the usage text when getcwd() fails |
| CliFacts.DotSlashArgumentNeverRuns | trigger.c:169-178 | `in-trigger cmd ./pat` watches the working directory with `./pat`, and when no reported name holds a `/` no "Executing" line is ever written |

`EventLoop.Runs` (the names in the "Executing" lines of a trace) and
`EventLoop.Accepted` (the names of the accepted records of a script) are
helpers of the model, not code of trigger.c. The lemmas about them alone
(`EventLoop.NoRuns`, `EventLoop.RunsEmpty`, `EventLoop.OneRun`,
`EventLoopFacts.RunsAppend`, `EventLoopFacts.AcceptedCons`,
`EventLoopFacts.NoneAccepted`) serve the proofs above and have no row.

## Left out

- The inotify record layout is not modelled. The model does not cover the buffer of `sizeof(pointer) + NAME_MAX + 1` bytes, records batched in one read, or a name too long for the buffer. Each read yields at most one record, the only one the C code looks at. A read that fails, including an EINVAL for a too-small buffer, is `ReadFailed`.
- signal() and the handler are not modelled as code. Their effect is the `sigint` flag of a record and the `KilledInRead` read.
- A SIGINT caught after trigger.c:89 installs the handler and before the first test of `done` at trigger.c:90 is not modelled. In the code the loop is then skipped, process_events logs "Terminating ..." and main exits 0 without any read; in the model every stop comes from a read, so a run that returns has consumed at least one.
- system() is not modelled. Its result is an `Outcome`: an exit code, a terminating signal, or -1.
- The watch mask `IN_MODIFY` is not modelled. Nothing filters events by mask apart from what the script holds.
- inotify_init() and inotify_add_watch() are booleans of the environment, and getcwd() is an optional string.
- Failures of strdup() (check_mem) are not modelled. The model assumes memory is always available.
- free() is not modelled.
- The text, colours and streams of the log lines are not modelled. The progress lines and the "Terminating ..." line of process_events, and main's "Inotify instance initialized", "Watch pattern ... added" and "Stopped watching" lines, are datatype values.
- The log_err() messages of failed checks are not modelled: only their effect (the usage text, the exit status) is. These are the lines at trigger.c:28, 38, 94, 105, 163 and 173, as well as trigger.c:78 (unknown mask) and trigger.c:143 (getcwd() failure).
- The debug() lines at trigger.c:52, 56 and 97 are not modelled; only the mask2str evaluation that line 97 causes in a debug build is.
- Names and patterns are sequences of characters, not bytes. In the C locale fnmatch's `?` and `*` work on bytes, so `?.c` matches a one-byte name before `.c` but not `é.c` (two bytes in UTF-8), which this model would accept. File names that are not valid text cannot be represented.
- fnmatch bracket expressions (`[...]`) are not modelled. In this model `[` is an ordinary character.
- dirname() of a path beginning with exactly two slashes is implementation-defined. Here `//` is treated like any other run of slashes.
- Events.ShouldTrigger: its own contract covers only the cases without a pattern; the pattern case is stated in Events.ShouldTriggerIsGlob.

## Findings

| source | as written | input that shows it | evidently intended | confidence | as-written member | corrected member |
|---|---|---|---|---|---|---|
| trigger.c:133 | the pattern is split only when its dirname is not `.`, so a pattern `./*.c` is kept whole and matched against bare names reported in the working directory | pattern `./*.c` with `main.c` modified in the working directory: no reported name contains `/`, so the command never runs | split whenever the pattern has a directory part, so `./*.c` watches `.` for `*.c` | not executed; medium | WatchPath.DotSlashPatternNeverTriggers | WatchPath.ResolveKeepsMatching |

The rest of the model follows the code: `DetermineWatchPath`, `Main` and the
facts about the program use the split as written (`WatchPath.ResolveAsWritten`),
and `CliFacts.DotSlashArgumentNeverRuns` shows the consequence for a whole
invocation. The corrected split (`WatchPath.Resolve`) appears only as the
intended behaviour: `WatchPath.ResolveDiffersOnlyOnDot` proves that the two
splits differ only on such patterns, and `WatchPath.ResolveKeepsMatching` and
`WatchPath.CorrectedResidualHasNoDirectory` state what the correction gives.
