# Command planning in the hw1 shell

This project models the part of the hw1 shell (`hw1/shell.c`) that turns an
already-tokenized input line into a decision and a command plan:

- the builtin table `cmd_table`, the `lookup` of a command name in it and the
  `cmd_help` listing printed from it;
- `detect_out_direction` and `detect_in_direction`, which find the first `>`
  and the first `<` token;
- the planning half of `cmd_exec`: `>` is tested before `<`, the argument
  vector is the tokens before the operator plus a NULL sentinel, built in
  place in an array, and the target is the token after the operator; with no
  operator the vector holds every token (`cmd_exec_helper`);
- the PATH candidates tried by `execv`: the command name as given, then
  `dir/name` for each directory `strtok` cuts out of `PATH` at `:`, in order;
- `detect_background_proce` and the branch `main` takes for a line (builtin,
  background line, or a child that runs the plan).

Tokens are `seq<string>`; a C NULL is `None` of `Wrappers.Option`. The
argument vector is an `array<Option<string>>` whose last slot is `None`.
`tokens_get_token` past the end of the line is taken to return NULL, so a
redirection target is an `Option<string>`. The tokenizer is not part of this
model.

Modules: `Wrappers` (Option), `Tokens` (first-index search), `ArgVector`
(the sentinel-terminated vector), `Builtins`, `Redirection`, `PathSearch`,
`Shell` (background test and per-line dispatch).

Behaviour of the code that a reader of the shell might not expect, and that
the model keeps:

- a line holding both `>` and `<` is an output redirection whichever comes
  first ("output wins", not "first operator wins"), and a `<` before the `>`
  is passed to the program as an ordinary argument (`Redirection.OutputWins`);
- the help builtin is registered as `?`; `help` is not in the table and is
  run as an external program (`Shell.HelpSpelling`);
- a line ending in `&` is not launched in the background: the child that
  sees it runs nothing (`Shell.ExecuteIff`), then goes on through the rest of
  the loop body and reads the following input lines itself, while the shell
  waits for that child to end;
- an empty `PATH` field (leading, trailing or doubled `:`) is dropped by
  `strtok`, where section 8.3 of POSIX.1-2017 reads it as the current
  directory (`PathSearch.StrTokIsNonEmptyFields`, `PathSearch.EmptyFieldDropped`).

## Model

| member | source | states |
|---|---|---|
| `Tokens.IndexOf` | hw1/shell.c:136-144 | the first-index search: -1 exactly when the string is absent; otherwise an index below the length holding the string with no earlier occurrence |
| `Tokens.FindToken` | hw1/shell.c:136-144 | the early-return loop over the tokens returns -1 exactly when no token equals the operator, else the smallest index of one that does |
| `Redirection.DetectOut` | hw1/shell.c:136-144 | result is -1 or below the length; -1 exactly when no token is `>`; otherwise the first `>` |
| `Redirection.DetectIn` | hw1/shell.c:177-185 | result is -1 or below the length; -1 exactly when no token is `<`; otherwise the first `<` |
| `ArgVector.Argv` | hw1/shell.c:88-93 | the vector has one slot per word plus one; slot j holds word j, the last slot is NULL |
| `ArgVector.UntilNullArgv` | hw1/shell.c:122-129 | reading the vector up to its first NULL, as `execv` does, gives back exactly the words, so the sentinel cuts off nothing and adds nothing |
| `ArgVector.BuildArgv` | hw1/shell.c:123-128 | the newly allocated array filled in place has n + 1 slots, tokens 0..n-1 in order and NULL at slot n |
| `Redirection.PlanOf` | hw1/shell.c:84-104 | argv is always a prefix of the line; a redirected argv stops before its operator, which is the next token; no `>` is in the argv of a redirected line, and an input redirection happens only on a line without `>` |
| `Redirection.PlanCommand` | hw1/shell.c:84-106 | both detections, the branch, the filled argv array and the target give exactly `PlanOf(tokens)`, with a newly allocated array equal to that plan's argv plus the NULL sentinel |
| `Redirection.PlanBranch` | hw1/shell.c:85-106 | the output branch is taken exactly when `>` occurs, the input branch exactly when `<` occurs and `>` does not, otherwise all tokens are argv |
| `Redirection.RedirectSplit` | hw1/shell.c:87-104 | a redirected line splits at its first operator i: argv is tokens[0..i), token i is the operator, which is not in argv; the target exists exactly when i + 1 is an index and the line starts with argv, the operator and the target |
| `Redirection.OutputWins` | hw1/shell.c:85-96 | with both operators present the plan is an output redirection even when `<` comes first, and then the `<` is in argv |
| `Redirection.OutputWinsExample` | hw1/shell.c:85-104 | `sort < in.txt > out.txt` writes to out.txt and runs sort with arguments `<` and `in.txt` |
| `Builtins.BuiltinIndex` | hw1/shell.c:188-193 | the value lookup returns is in [-1, 4) |
| `Builtins.Lookup` | hw1/shell.c:188-193 | -1 exactly when cmd is NULL or no row has that name; otherwise a row with that name and no earlier row with it |
| `Builtins.BuiltinIndexTable` | hw1/shell.c:53-58 | with the table as written `?`, `exit`, `pwd`, `cd` map to 0, 1, 2, 3, and `help` and NULL to -1 |
| `Builtins.EveryRowFound` | hw1/shell.c:53-58 | every row's name looks up to that row, so no row is shadowed by an earlier one |
| `Builtins.HelpLine` | hw1/shell.c:63 | the `cmd - doc` line of a row whose name has no space starts with exactly that name, read up to the first space |
| `Builtins.Help` | hw1/shell.c:61-65 | one `cmd - doc` line per table row in table order, status 1 |
| `Builtins.LineCommandPrefix` | hw1/shell.c:63 | a name without spaces is read back from the front of its help line |
| `Builtins.HelpListsEachRowOnce` | hw1/shell.c:61-63 | help line i names row i, and no two lines name the same command: each row is listed exactly once, in order |
| `PathSearch.RunLength` | hw1/shell.c:109 | the leading run stops at the first `:` or at the end, and holds no `:` |
| `PathSearch.StrTok` | hw1/shell.c:109-115 | every segment `strtok` yields is non-empty and holds no `:` |
| `PathSearch.StrTokIsNonEmptyFields` | hw1/shell.c:109-115 | the segments are exactly the non-empty `:`-separated fields of PATH, in order |
| `PathSearch.StrTokJoin` | hw1/shell.c:109-115 | splitting a PATH joined from non-empty, `:`-free directories gives those directories back |
| `PathSearch.EmptyFieldDropped` | hw1/shell.c:109-115 | `a::b` has three fields but yields only the candidates name, `a/name`, `b/name` |
| `PathSearch.InDirs` | hw1/shell.c:111-114 | one `dir + "/" + name` per directory, in order |
| `PathSearch.Candidates` | hw1/shell.c:106-117 | one candidate more than strtok yields segments, the first being the name as given |
| `PathSearch.CandidatesShape` | hw1/shell.c:106-117 | 1 + (number of non-empty fields) candidates; the first is the name as given, candidate i + 1 is field i, `/` and the name |
| `PathSearch.PathCandidates` | hw1/shell.c:154-165 | the strtok loop (also at lines 106-117) produces exactly the candidate list, starting with the name as given |
| `Shell.IsBackground` | hw1/shell.c:225-231 | on a non-empty line, true exactly when the line is some line followed by a separate `&` token |
| `Shell.Dispatch` | hw1/shell.c:275-290 | a builtin action names the table row whose name is the first token |
| `Shell.BuiltinFirst` | hw1/shell.c:275-278 | a line whose first token is a builtin name runs that builtin whatever follows, so it is never redirected or backgrounded |
| `Shell.ExecuteIff` | hw1/shell.c:284-291 | what `detect_background_proce` decides: a child runs the plan exactly when the first token is no builtin and the line does not end in `&`, and a line that is no builtin and ends in `&` is never executed |
| `Shell.HelpSpelling` | hw1/shell.c:53-58 | `?` runs help in the shell whatever follows it; `help` on a line not ending in `&` is handed to a child as an external command |

## Left out

- Process creation and program replacement (`fork`, `execv`, `execvp`, `wait` in `main`, `cmd_exec_helper`, `cmd_output_direction`, `cmd_input_direction`): operating-system calls with no result the model can state; the model stops at the argument vector and the list of paths to try.
- `cmd_input_direction` runs `execvp`, which searches PATH itself; that search is the C library's and is not modelled.
- The pipe relay and the reopening of the output file on every read in `cmd_output_direction`, and the `fopen`/`dup2` of `cmd_input_direction`: file and descriptor plumbing.
- `signal_ignore`, `signal_default` and the terminal and process-group setup in `init_shell`: process-wide signal state.
- `cmd_pwd`, `cmd_cd`, `cmd_exit`: thin wrappers over `getcwd`, `chdir` and `exit`; only their table rows are modelled.
- The tokenizer (`tokenize`, `tokens_get_token`, `tokens_get_length`) is not part of this model; a token past the end of the line is taken to be NULL.
- The `malloc(100)` buffer that `strcat` appends to without initialising it, and its overflow for long paths: candidates are unbounded strings with no garbage prefix.
- PathSearch.PathCandidates: `strtok` writes NUL bytes into the string `getenv("PATH")` returns, so after the loop the process's own PATH holds only its first directory; a child whose every `execv` failed returns to the read loop and forks later commands with that cut-down PATH. The model takes PATH as an unchanging value and does not capture this in-place write; PathSearch.Candidates likewise describes one search on the PATH as it was before it.
- The child that sees a trailing `&` returns to the read loop and handles the following lines itself while the shell waits for it; the model stops at the decision that the line is not executed and does not follow that child through later lines.
- An unset `PATH` (`getenv` returning NULL, which `strtok` is then given): PATH is always a string here.
- The empty `cmd_exec_background` stub, the prompt and the line counter in `main`.
- Shell.Dispatch: requires a non-empty line, because `detect_background_proce` reads token length - 1; what an empty line does depends on the tokenizer.
