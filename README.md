# dash: the per-line command engine

`dash.c` is a small Unix shell. Its `main` reads a line, splits it into
parallel groups on `&`, and tokenises each group on blanks. While tokenising
it parses the output redirection `>`. It then runs one of the built-ins
`path`, `cd` or `exit`. Otherwise it looks the command up on the search path
and launches it.

This project models that engine in Dafny. The model starts where `main`
strips the newline and ends where the argument vector for `execv` is
complete. It is organised as follows:

- `text.dfy` (module `Text`):
  - the newline strip;
  - a model of the C library's `strtok_r`, as `NextToken` and `Tokens`;
  - an independent reference for `strtok_r`'s result, `NonEmpty(Fields(...))`.
- `parser.dfy` (module `Parser`):
  - the tokeniser and redirection parser, both as the specification `Step`/`ParseFrom` and as the imperative `ParseGroup`/`ScanToken` proved equal to it;
  - the classification lemmas for tokens;
  - the redirection target and the argument vector `execv` receives.
- `builtins.dfy` (module `Builtins`):
  - what `path` does to the search path (`PathUpdate`) and its closed form;
  - the argument check of `cd`;
  - the specification of command resolution (`FirstExecutable`).
- `engine.dfy` (module `Engine`):
  - one group (`RunGroup`) and one line (`RunLine`) as functions from the session (search path and working directory) to a trace of outcomes: `Error(kind)`, `Chdir(dir)`, `Spawn(path, argv, redirect)`, `AbortLine`, `Terminate`;
  - the line-level properties.
- `shell.dfy` (module `Shell`): the class `SessionState`, which holds the source's fixed array `searchpath[10]`, its count `num_paths` and the working directory. Its methods do in place what `Engine` specifies and are proved to:
  - `path` appends into the array;
  - resolution loops over the array;
  - the line loop advances a `strtok_r` cursor.

Two outside calls are parameters of the model:

- `access(path, X_OK)` is the oracle `executable(cwd, path)`;
- `chdir` is the oracle `changeDir(cwd, dir)`, which gives the new directory or `None`.

## Model

| member | source | states |
|---|---|---|
| Text.StripNewline | dash.c:99-102 | A trailing newline is removed and nothing else; a line without one is unchanged. |
| Text.NextToken | dash.c:109 | One `strtok_r` call has no token iff the text is all delimiters. Otherwise the token is non-empty and free of delimiters, and the saved rest is shorter than the input. |
| Text.TokensAreNonEmptyFields | dash.c:109 | The tokens are the non-empty fields between delimiters, in order. Leading, trailing or repeated `&`, space or tab never produce an empty group or token. |
| Text.TokensWellFormed | dash.c:121 | Every token is non-empty and contains no delimiter. |
| Text.TokensOfPlainText | dash.c:109 | A text with no delimiter is exactly one token, itself. |
| Text.TokensStep | dash.c:109 | The first call of `strtok_r` yields the first token; later calls yield the tokens of the saved rest. |
| Parser.LeftOfRedirect | dash.c:138-143 | What `temp_token` holds after `strtok(temp_token, ">")`, stored as the left part and, for the first token, as the command. It is a non-empty prefix of the token: the token cut just before its `>`, or the whole token when the `>` comes first, since `strtok` skips a leading delimiter without overwriting it. |
| Parser.ScanToken | dash.c:122-177 | The loop body on one token updates `args`, `redirection_idx` and `command` exactly as `Step` says, or raises `parse_error` exactly when `Step` fails. |
| Parser.ParseGroup | dash.c:112-186 | The tokeniser loop, which stops at the tenth stored argument or the first parse error, computes `ParseText(group)`. |
| Parser.ParseWellFormed | dash.c:121-178 | Between tokens, the stored arguments are non-empty and at most 11 (the `args[10]` slot is written when an embedded redirection comes tenth). The redirection index never passes their number, and the command is the first argument. |
| Parser.ParseTextWellFormed | dash.c:112-186 | Every successful parse of a group satisfies that invariant. |
| Parser.ParseExtends | dash.c:141-177 | Stored arguments are only ever appended to. |
| Parser.ParseAppend | dash.c:121 | Parsing a concatenation parses the first part, then continues from that state over the second part. |
| Parser.StepFailures | dash.c:129-169 | `parse_error` is raised by a token with two or more `>`, and by a standalone `>` or an embedded `a>b` once a redirection is recorded. |
| Parser.ParseFailsAt | dash.c:180-183 | A parse error on any token the loop reaches fails the whole group, whatever follows. |
| Parser.StepEmbeddedRedirect | dash.c:138-157 | An embedded `left>right` stores `left` at `i` and `right` at `i+1`, and sets `redirection_idx = i+1`. When it is the first token, `left` becomes the command. A token `>right` is stored whole in `left`'s place. |
| Parser.StepTrailingRedirectIsPlain | dash.c:130 | A token whose only `>` is its last character (`ls>`) is not a redirection: it passes the ordinary-token check and is stored verbatim. |
| Parser.StepAfterRedirect | dash.c:172-177 | After a redirection at index `r`, an ordinary token is refused iff more than `r+1` arguments are stored; otherwise it is appended. |
| Parser.CommandIsFirstToken | dash.c:122-124 | When the first token holds no `>`, it is the command name and the first argument. |
| Parser.CommandIsLeftOfFirstToken | dash.c:138-147 | When the first token is `left>right`, `left` is the command; when it is `>right`, the whole token is. The redirection is at index 1. |
| Parser.RedirectStays | dash.c:146-169 | A recorded redirection index never changes afterwards. |
| Parser.RedirectOf | dash.c:254-255 | The output file is `args[redirection_idx]`, and the terminator when a trailing `>` has no target. There is no redirection iff none was recorded. |
| Parser.UpToNullPrefix | dash.c:290 | `execv` reads the vector up to its first null slot. |
| Parser.Argv | dash.c:186-285 | The vector `execv` reads: slot 0 is the resolved path (dash.c:285), then the stored arguments after the command. It ends at the terminator written after them (dash.c:186), or at the redirection index (dash.c:260), so the target and anything after it are left out. |
| Parser.OneStrayTokenAccepted | dash.c:172 | `ls > a b` parses, and `b` does not reach the argument vector. |
| Parser.TwoStrayTokensRejected | dash.c:172-175 | `ls > a b c` is a parse error. |
| Parser.StepStandaloneRedirect | dash.c:161-164 | In any state with no redirection recorded, a standalone `>` is accepted: nothing is stored and the redirection index is the number of stored arguments. |
| Parser.TrailingRedirectParses | dash.c:161-186 | A `>` ending any group that parses with no redirection and fewer than ten arguments is not a parse error. The arguments are unchanged and the output file is the terminator (`MissingTarget`). |
| Parser.TrailingRedirectHasNoTarget | dash.c:161-164 | `ls >` is not a parse error; the redirection points at the terminator. |
| Parser.LeadingRedirectKeepsWholeToken | dash.c:138-154 | `ls >out` stores `>out` and then `out`, redirects to `out`, and launches with `argv = [path, ">out"]`. |
| Parser.LeadingRedirectIsNotExit | dash.c:138-147 | A group `>exit` has the command `>exit`, not the built-in `exit`, and redirects to `exit`. |
| Builtins.AddPathsAppendsInOrder | dash.c:202-211 | The copying loop appends the non-`-o` arguments in order until ten entries are held and drops the rest silently. |
| Builtins.PathUpdateValid | dash.c:199-211 | `path` keeps the search path between 1 and 10 entries, with the empty entry first. |
| Builtins.PathResetKeepsOnlyInitial | dash.c:199-201 | `path -o a b ...` keeps only the initial empty entry, then appends `a b ...` in order. |
| Builtins.PathAppendKeepsOld | dash.c:202-211 | Without a leading `-o`, the old entries stay and the new ones follow them. |
| Builtins.PathNeverHoldsFlag | dash.c:205 | `-o` in any position is never appended. |
| Builtins.CdTarget | dash.c:221-234 | `cd` has a target iff exactly one argument follows it, and the target is that argument. |
| Builtins.FirstExecutableIsFirst | dash.c:263-277 | Resolution fails iff no candidate is executable. Otherwise it yields the executable candidate with the smallest search-path index; the candidate is `entry/command`, or `command` for the empty entry. |
| Engine.RunGroup | dash.c:110-310 | A skipped group changes nothing and reports exactly one error. Only a successful `cd` changes the directory, and `-o` never enters the search path. The group ends the shell (flow `Exit`, events `[Terminate]`) iff its command is `exit`, and `Terminate` appears only then. `path` without arguments yields exactly its error and `AbortLine`, and `AbortLine` appears only then. At most one command is launched, and only by a counted group. |
| Engine.SpawnsAppend | dash.c:286 | Launches in a concatenated trace add up. |
| Engine.AtMostTenLaunches | dash.c:109 | At most ten groups are counted and at most ten commands launched, whatever the number of groups. |
| Engine.AtMostTenLaunchesPerLine | dash.c:109 | The same bound for a whole line. |
| Engine.TerminateOnlyLast | dash.c:216 | Nothing follows `Terminate` when it ends the second part of a trace. |
| Engine.TerminateIsLast | dash.c:214-217 | `exit` ends everything: `Terminate` is the last outcome of a line whenever it occurs. |
| Engine.PathWithoutArgsAbandonsLine | dash.c:193-196 | `path` with no argument reports an error and drops the rest of the line. |
| Engine.CdArityErrorSkipsOnlyItsGroup | dash.c:221-234 | A `cd` with the wrong number of arguments reports one error and is skipped. The count and session are untouched, and the later groups still run. |
| Engine.ExitTerminatesLine | dash.c:214-217 | `exit` yields exactly `Terminate`, drops the rest of the line and leaves the session as it was. |
| Engine.CdSuccessChangesDirectory | dash.c:235-240 | A `cd` with one argument whose `chdir` succeeds reports `Chdir(dir)`, moves to the new directory and counts; the later groups run from there. |
| Engine.NotFoundSkipsOnlyItsGroup | dash.c:278-284 | A non-built-in command with no executable candidate reports exactly one error, is not counted, and the later groups still run. |
| Engine.ChdirFailureStillCounts | dash.c:236-240 | A failed `chdir` reports an error but is not skipped: the group counts against the ten. |
| Engine.ParseErrorSkipsOnlyItsGroup | dash.c:180-183 | A group that fails to parse reports one error, is not counted, and the later groups still run. |
| Engine.SearchPathStaysClean | dash.c:199-211 | Over a whole line the search path never comes to hold `-o`. |
| Engine.SpawnUsesFirstExecutable | dash.c:263-285 | A launched command's path is the first executable candidate for its name, and its argument vector starts with that path. |
| Shell.SessionState.constructor | dash.c:49-53 | At start-up the search path holds only the empty entry. |
| Shell.SessionState.AppendPath | dash.c:207-209 | `searchpath[num_paths++] = entry` appends exactly that entry. |
| Shell.SessionState.RunPath | dash.c:199-211 | The in-place `-o` reset and copying loop leave the array holding `PathUpdate` of the old search path. |
| Shell.SessionState.Resolve | dash.c:263-277 | The loop over `searchpath[0..num_paths)` returns exactly `FirstExecutable`. |
| Shell.SessionState.RunGroupHere | dash.c:110-310 | One group run in place produces the events, flow and new session that `Engine.RunGroup` specifies. |
| Shell.SessionState.RunGroupsStep | dash.c:109-310 | Running the groups `[g] + rest` is running `g`, then the rest unless `g` stopped the line. |
| Shell.SessionState.RunGroupsDone | dash.c:109 | With no group left, or ten counted, the group loop produces nothing. |
| Shell.SessionState.RunOneGroup | dash.c:110-310 | One pass of the group loop in place completes the trace that `Engine.RunGroups` gives for the rest of the line. |
| Shell.SessionState.NextGroup | dash.c:109-310 | One pass of the `strtok_r` loop over `&`, including its stop conditions, completes the trace of `Engine.RunLine`. |
| Shell.SessionState.RunLine | dash.c:98-311 | The whole line, run in place, produces exactly the trace and final session of `Engine.RunLine`. |

## Left out

- Process creation and waiting (`fork`, `execv`, `waitpid`, the end-of-line `wait` loop, dash.c:286-317): a launch is the `Spawn` event. The child's `execv` failure path is not modelled.
- Descriptor handling (`dup`, `dup2`, `open`, `flushstream`, dash.c:82-83, 254-259, 282, 305): operating-system I/O. A redirection is recorded in the `Spawn` event only. The model therefore does not capture that the output file is created even when resolution then fails.
- The line source (`getline`, `fopen`, the prompt and batch echo, `display_header`, `argc` checks, the outer `while` condition, dash.c:21-33, 63-97): terminal and file I/O. The engine takes one line as a `string`.
- `write_error` is the `Error(kind)` event; the kind is the model's own label, since the source writes the same message every time.
- `chdir` and `access` are oracles, fixed for the duration of a line; no file system is modelled.
- The `strdup` + `strcat` overflow of dash.c:264-271 is modelled as plain concatenation of the candidate path.
- `args` is a sequence. It can hold 11 entries, matching the source's `args[10]` write after an embedded redirection in tenth position.
- Parser.Argv: the terminator `args[i] = NULL` (dash.c:186) is written outside `char *args[10]` (dash.c:118) whenever ten or eleven arguments are stored. The model treats it as a terminator slot all the same, and does not capture the out-of-bounds write.
- Parser.Argv: for a group that is `>` alone, no argument is stored, and dash.c:186 and dash.c:260 write only `args[0]`, which dash.c:285 then overwrites with the path. `args[1]` is never written, so `execv` would read whatever it held. The model gives `argv = [path]` and does not capture that undefined read.
- Parser.ParseGroup, Engine.RunGroup: a group with no token leaves `command` uninitialised in the source (dash.c:113, 190). The model gives `command = None`. The engine then emits `Unspecified` and stops the line, rather than guessing what the undefined read does.
- The interactive end-of-file case, where `characters` is -1 and `buffer[-2]` is read (dash.c:99), is not modelled. Lines are strings of any length.
- C strings end at the first NUL character; the model's strings are plain character sequences.
- Memory leaks of the `strdup` calls are not modelled.
- Parser.StepAfterRedirect: the extra-token check at dash.c:172 lets one stray token after a redirection target through. It is modelled as written (see `OneStrayTokenAccepted`), since the intended rule cannot be told from the source.
