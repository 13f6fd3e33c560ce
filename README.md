# ai-teacher command gate and capture helpers, modelled in Dafny

ai-teacher is a desktop assistant (Tauri, Rust back end) that looks at the
user's screen and can run shell commands for the user. This project models
the parts of its back end that decide things, and proves what they do:

- **The command-safety gate** of `execute_command` (`CommandPolicy`,
  `CommandExecution`). First, the lower-cased command name must start with
  one of eight allowed names. Then the per-tool whitelists `validate_*_command`
  judge the lower-cased arguments. A refused request comes back as a
  `CommandResult` with the reason and no process started. A permitted one is
  launched (on Windows everything except docker and git goes through
  `powershell -Command`). Its exit status becomes `success`, `exit_code` and
  `error`. The whitelists are proved equal to a declarative table of
  read-only request shapes.
- **`extract_json_from_output`** (`JsonExtract`). The method keeps the
  source's loop and bracket counter. It is proved equal to a ghost
  specification of "the first bracket group, else the first brace group,
  else the trimmed text", including the fallback to the last closing bracket
  and the slice that panics.
- **The window-selection helpers** (`WindowQuery`):
  - how a match condition is chosen from the optional process name and title;
  - how names and titles are put into PowerShell single-quoted literals,
    proved against a model of PowerShell's quote lexing;
  - how `ConvertTo-Json` output is normalised and turned into `WindowInfo` values.
- **Capture files** (`CaptureFiles`): the sanitised file name
  `{process}_{title}_{timestamp}.png` and removal of the `\\?\` path prefix.
- **The capture interval** (`CaptureSettings`): a class with one `u64`
  field, default 3. Writes outside 1..10 are refused.
- **The screen monitor** (`ScreenMonitor`): emits only when the image hash
  changes.
- **The focus-change detector** of `process_monitor/windows.rs`
  (`FocusMonitor`): reports a change of foreground process, except a change
  away from an empty name (the starting name, or an empty name a probe
  returned).

Each monitor step is a function, and a class method is proved to update its
field as that function says. Runs of steps are folded by recursive functions,
and lemmas about those functions say what a whole run produces.

The safety policy is a binary decision in the code: `Ok(())` to run, or
`Err(reason)` to refuse. There is no "needs approval" level in the Rust code,
and there is no default refusal for unknown names. A name outside the seven
policy arms passes the policy; only the prefix allow-list stands in its way.
The model follows the code here, and two lemmas show where this lets
unexpected text through (`LongerNamePassesBothChecks`,
`PrefixAdmitsPowerShellText`).

## Model

| member | source | states |
|---|---|---|
| CommandPolicy.AnyArg | src-tauri/src/commands.rs:1340 | `Iterator::any` over the arguments: true exactly when some argument satisfies the predicate |
| CommandPolicy.ValidateDocker | src-tauri/src/commands.rs:1303-1329 | allowed exactly for the read-only subcommands, or `compose` followed by a read-only compose subcommand; no arguments, an unknown subcommand, `compose` alone and an unknown compose subcommand each get their own refusal message |
| CommandPolicy.ValidateGit | src-tauri/src/commands.rs:1331-1358 | no arguments are refused with their message; inspection subcommands pass; `branch` passes without a delete flag and is otherwise refused with the branch-deletion message; `config` passes with a listing flag after it and is otherwise refused with the config message; other subcommands get the not-permitted message |
| CommandPolicy.ValidateNpm | src-tauri/src/commands.rs:1360-1380 | allowed exactly for the listing subcommands, or `config` whose second argument is `list` or starts with `get`; no arguments, an unknown subcommand and a refused `config` each get their own refusal message |
| CommandPolicy.ValidateNode | src-tauri/src/commands.rs:1382-1393 | allowed exactly when the first argument is `-v` or `--version`; otherwise the missing-arguments or version-only message |
| CommandPolicy.ValidatePython | src-tauri/src/commands.rs:1395-1406 | allowed exactly when the first argument is `-v`, `--version` or `-version`; otherwise the missing-arguments or version-only message |
| CommandPolicy.ValidatePowerShell | src-tauri/src/commands.rs:1408-1416 | allowed exactly for `-command` or `-c` followed by text starting with `get-process`; any refusal carries the Get-Process message |
| CommandPolicy.ValidateCmd | src-tauri/src/commands.rs:1418-1423 | allowed exactly for `/c tasklist` at the start; any refusal carries the tasklist message |
| CommandPolicy.LowerAll | src-tauri/src/commands.rs:1426 | the lowered argument vector has the same length, and each entry is its argument lower-cased |
| CommandPolicy.ValidateCommandPolicy | src-tauri/src/commands.rs:1425-1437 | a name outside the seven arms is let through with any arguments, and every gated tool refuses an empty argument list |
| CommandPolicy.LoweredIsNotUpperFlag | src-tauri/src/commands.rs:1340 | no lower-cased argument equals `-D`, so that third delete flag of the git arm can never match |
| CommandPolicy.GitBranchDecision | src-tauri/src/commands.rs:1339-1345 | `git branch` is refused exactly when some argument lower-cases to `-d` or `--delete` |
| CommandPolicy.GitConfigDecision | src-tauri/src/commands.rs:1346-1352 | `git config` is allowed exactly when some argument after the subcommand lower-cases to `--list` or `-l` |
| CommandPolicy.DockerMatchesReference | src-tauri/src/commands.rs:1303-1329 | docker requests pass exactly when the subcommand is read-only, or is `compose` with a read-only compose subcommand |
| CommandPolicy.GitMatchesReference | src-tauri/src/commands.rs:1331-1358 | git requests pass exactly when they are an inspection subcommand, a non-deleting `branch`, or a listing `config` |
| CommandPolicy.NpmMatchesReference | src-tauri/src/commands.rs:1360-1380 | npm requests pass exactly when they are a listing subcommand, `config list`, or `config` with a second argument starting with `get` |
| CommandPolicy.PolicyMatchesReference | src-tauri/src/commands.rs:1303-1437 | for every command name and argument list, `validate_command_policy` answers `Ok` exactly when the reference table admits the request, including the node, python, PowerShell and cmd arms |
| CommandPolicy.PolicyIgnoresArgumentCase | src-tauri/src/commands.rs:1425-1426 | lower-casing the arguments before the policy changes no decision and no message |
| CommandPolicy.DockerRejections | src-tauri/src/commands.rs:1303-1329 | docker without a subcommand gets its exact refusal message, and `docker rm x` is refused |
| CommandPolicy.GitUpperDeleteRefused | src-tauri/src/commands.rs:1339-1345 | `git branch -D main` is refused, because arguments are lower-cased first |
| CommandPolicy.NpmConfigGetPrefix | src-tauri/src/commands.rs:1366-1373 | `npm config` admits any second argument that starts with `get` |
| CommandPolicy.PowerShellPrefixOnly | src-tauri/src/commands.rs:1408-1416 | PowerShell text only has to start with `get-process`; anything may follow |
| CommandExecution.NotAllowed | src-tauri/src/commands.rs:1449-1457 | the allow-list refusal message starts by naming the refused command in quotes |
| CommandExecution.CheckCommand | src-tauri/src/commands.rs:1446-1471 | a request passes both checks exactly when its lower-cased name starts with an allowed name and the reference table admits it; a name failing the prefix test gets the allow-list message, and otherwise the policy's own answer, with its reason, is returned |
| CommandExecution.Refusal | src-tauri/src/commands.rs:1451-1470 | a refused request reports failure with the reason as its error, empty output and no exit code |
| CommandExecution.LaunchPlan | src-tauri/src/commands.rs:1473-1497 | off Windows, and for docker and git, the program is started as named with its arguments; on Windows anything else becomes `powershell -Command` with a line starting with the name and a space |
| CommandExecution.Completed | src-tauri/src/commands.rs:1499-1510 | `success` and `exit_code` are the exit status's `success()` and `code()`; `error` is `None` exactly on success and otherwise `Command failed with exit code: ` followed by the `{:?}` of the code; success means exit code 0; stdout and stderr are passed through |
| CommandExecution.ExecuteCommand | src-tauri/src/commands.rs:1440-1510 | a refused request yields the refusal result; a permitted one yields the completed result of its one planned launch, or `Err` with `Failed to execute command: ` and the spawn error; every result has `error == None` exactly when `success`, and a success has exit code 0 and passed both checks |
| CommandExecution.RefusedRequestNeverSpawns | src-tauri/src/commands.rs:1449-1471 | a refused request yields `success = false`, empty output, no exit code and the reason, and the result does not depend on the operating system |
| CommandExecution.OnlyPlannedLaunchMatters | src-tauri/src/commands.rs:1473-1510 | the result depends only on what the one planned launch returns |
| CommandExecution.UnlistedNameRefused | src-tauri/src/commands.rs:1449-1457 | a name that does not start with an allowed name is refused, with a message naming it |
| CommandExecution.LongerNamePassesBothChecks | src-tauri/src/commands.rs:1425-1471 | any name that merely starts with `docker` (such as `dockerx`) passes both checks with any arguments |
| CommandExecution.PrefixAdmitsPowerShellText | src-tauri/src/commands.rs:1446-1490 | on Windows, `node;<anything>` passes both checks, and its whole text becomes the PowerShell command line |
| CommandExecution.NodeLaterArgumentUnchecked | src-tauri/src/commands.rs:1382-1490 | `node -v <anything>` passes both checks, and on Windows `<anything>` is joined unchecked into the PowerShell command line |
| CommandExecution.WindowsCommandLineKeepsArguments | src-tauri/src/commands.rs:1483-1487 | on Windows, splitting the PowerShell command line at spaces gives back the name and the arguments when none holds a space |
| CommandExecution.SpaceInArgumentSplits | src-tauri/src/commands.rs:1486 | an argument holding a space becomes two words on that command line |
| JsonExtract.FirstClose | src-tauri/src/commands.rs:19-28 | the counter loop's exit point: the first position where the count since the opening bracket returns to zero, or none |
| JsonExtract.FirstCloseExists | src-tauri/src/commands.rs:19-28 | where the count returns to zero at all, there is a first such position |
| JsonExtract.FirstCloseUnique | src-tauri/src/commands.rs:19-28 | the first position where the count returns to zero is unique |
| JsonExtract.Scan | src-tauri/src/commands.rs:16-35 | a pass finds something whenever both of its delimiters occur, and it panics only when the last closing delimiter lies more than one character before the first opening one |
| JsonExtract.Extract | src-tauri/src/commands.rs:10-63 | a bracket group found by the first pass is the result whatever braces the output holds, and a panic comes only from one of the two passes |
| JsonExtract.ScanDelimited | src-tauri/src/commands.rs:16-35 | the loop with its counter finds exactly what the specification of one delimiter pass says: the balanced group, the fallback slice to the last closing delimiter, the panicking slice, or no match |
| JsonExtract.ExtractJsonFromOutput | src-tauri/src/commands.rs:10-63 | the whole extraction equals the specification: the bracket pass, then the brace pass, then the trimmed output; `None` stands for the panic |
| JsonExtract.FirstCloseIsBalanced | src-tauri/src/commands.rs:19-28 | the text returned by the counting loop is balanced: depth zero at its end and positive at every proper prefix |
| JsonExtract.ScanFindsGroup | src-tauri/src/commands.rs:16-28 | a pass whose delimiter group closes returns exactly that group, and the group is balanced |
| JsonExtract.ScanNoMatch | src-tauri/src/commands.rs:16-35 | a pass whose opening or closing delimiter is absent matches nothing |
| JsonExtract.ArrayTakesPrecedence | src-tauri/src/commands.rs:14-28 | when the first `[` has a matching `]`, that balanced group is the result, whatever braces come before it |
| JsonExtract.UnclosedArrayFallsBack | src-tauri/src/commands.rs:31-35 | an unbalanced `[` falls back to the trimmed slice up to the last `]`, and panics when that `]` lies before the `[` |
| JsonExtract.ObjectWhenNoArray | src-tauri/src/commands.rs:38-51 | without a bracket pair, the first balanced brace group is the result |
| JsonExtract.PlainOutputTrimmed | src-tauri/src/commands.rs:61-62 | output without a bracket pair and without a brace pair is returned trimmed |
| JsonExtract.ReversedBracketsPanic | src-tauri/src/commands.rs:32-33 | `]x[` reaches the slice whose end lies before its start |
| JsonExtract.InnerArrayCloses | src-tauri/src/commands.rs:16-28 | a `[1]` preceded by no `[` is where the bracket pass ends |
| JsonExtract.ObjectWithBracketYieldsInnerArray | src-tauri/src/commands.rs:14-28 | an object whose string field holds `[1]` is cut down to `[1]` |
| JsonExtract.FirstOpening | src-tauri/src/commands.rs:14-39 | the first `[` or `{` of the output, with nothing of either kind before it |
| JsonExtract.FirstOpeningIs | src-tauri/src/commands.rs:14-39 | a position holding the first opening delimiter is the one found |
| JsonExtract.IntendedExtractsOutermostGroup | src-tauri/src/commands.rs:10-63 | with the delimiter that opens first, the outermost balanced group is returned, array or object |
| JsonExtract.IntendedKeepsObjectWithBracket | src-tauri/src/commands.rs:10-63 | under that rule the object holding `[1]` in a string is returned whole |
| JsonExtract.DepthAppend | src-tauri/src/commands.rs:19-28 | the counter over a concatenation is the sum of the counters |
| JsonExtract.DepthNeutral | src-tauri/src/commands.rs:19-28 | text without either delimiter leaves the counter unchanged |
| WindowQuery.Escape | src-tauri/src/commands.rs:673 | text without an apostrophe is left unchanged by `replace("'", "''")` |
| WindowQuery.EscapeQuotes | src-tauri/src/commands.rs:673 | text without any PowerShell quote character is left unchanged when every quote character is doubled |
| WindowQuery.EscapeReadsBack | src-tauri/src/commands.rs:672-673 | text with no typographic quote, escaped by `replace("'", "''")`, is read back by PowerShell exactly, up to the closing quote |
| WindowQuery.EscapedLiteralRoundTrip | src-tauri/src/commands.rs:672-673 | for such text, the escaped literal followed by `'` ends where intended and yields the text |
| WindowQuery.TypographicQuoteEndsLiteral | src-tauri/src/commands.rs:672-673 | a title starting with U+2019 escapes to a literal that PowerShell ends at that character |
| WindowQuery.EscapeQuotesReadsBack | src-tauri/src/commands.rs:672-673 | doubling every PowerShell quote character makes any text read back exactly |
| WindowQuery.EscapeQuotesRoundTrip | src-tauri/src/commands.rs:672-673 | with every quote character doubled, any text round-trips through a single-quoted literal |
| WindowQuery.EscapingsAgree | src-tauri/src/commands.rs:673 | on text without typographic quotes, the two escapings coincide |
| WindowQuery.SelectCondition | src-tauri/src/commands.rs:669-689 | the condition uses the process name exactly when one is given and the title exactly when one is given, carrying the given values |
| WindowQuery.Render | src-tauri/src/commands.rs:669-689 | with neither filter given, the condition is `$match = $true` |
| WindowQuery.ConditionScript | src-tauri/src/commands.rs:669-689 | for values without typographic quotes, the condition text as written equals the one that doubles every quote character |
| WindowQuery.RenderingsAgree | src-tauri/src/commands.rs:669-689 | for values without typographic quotes, both escapings render the same condition text |
| WindowQuery.TitleLiteralIntended | src-tauri/src/commands.rs:686 | the title-only script's literal holds exactly `*title*` when all quotes are doubled |
| WindowQuery.TitleLiteralAsWrittenLeaks | src-tauri/src/commands.rs:686 | as written, the literal for title `’;x` is just `*`, and `;x*'` is left over as script text |
| WindowQuery.ProcessLiteralIntended | src-tauri/src/commands.rs:676-683 | the process-only script's `$searchName` literal holds exactly the process name, followed by the rest of the script |
| WindowQuery.PairLiteralsIntended | src-tauri/src/commands.rs:671-674 | in the process-and-title condition, the first literal reads back as the process name and leaves the fixed separator, after which the second literal reads back as `*title*` and leaves `)` |
| WindowQuery.PatternLiteralReadsBack | src-tauri/src/commands.rs:672 | a `*value*` literal with every quote doubled reads back as the pattern and leaves the text after its closing quote |
| WindowQuery.ProcessOnlyIsContainment | src-tauri/src/commands.rs:677-681 | the process-only test matches exactly the processes whose name contains the searched name, ignoring case; the equality and `.exe` tests add nothing |
| WindowQuery.SelectedConditionMeaning | src-tauri/src/commands.rs:669-689 | the selected condition matches a window exactly when each given filter matches it |
| WindowQuery.AddingTitleNarrows | src-tauri/src/commands.rs:669-689 | a window matched by process and title is matched by each filter alone |
| WindowQuery.MatchIgnoresCase | src-tauri/src/commands.rs:669-689 | lower-casing the process name and title changes no match |
| WindowQuery.Index | src-tauri/src/commands.rs:820-822 | `w[key]` is the field's value when `w` is an object holding the key, and `Null` otherwise |
| WindowQuery.AsStr | src-tauri/src/commands.rs:820-821 | `as_str` succeeds exactly on strings, and then yields that string |
| WindowQuery.AsBool | src-tauri/src/commands.rs:822 | `as_bool` succeeds exactly on booleans, and then yields that boolean |
| WindowQuery.ToWindowInfo | src-tauri/src/commands.rs:819-830 | an entry yields a `WindowInfo` exactly when its Title and ProcessName are strings; it carries them, and `is_active` holds exactly when IsActive is `true` |
| WindowQuery.ExtractWindows | src-tauri/src/commands.rs:817-831 | filtering never yields more windows than entries |
| WindowQuery.ExtractWindowsAppend | src-tauri/src/commands.rs:817-831 | extraction works entry by entry and keeps order |
| WindowQuery.ExtractWindowsMembers | src-tauri/src/commands.rs:817-831 | a window is listed exactly when some entry converts to it |
| WindowQuery.Normalize | src-tauri/src/commands.rs:806-813 | an array gives its own entries, an object becomes a one-entry list, and anything else gives no entries |
| WindowQuery.ListWindows | src-tauri/src/commands.rs:806-831 | never more windows than normalised entries, at most one for a single object, none for a JSON value that is neither array nor object |
| WindowQuery.SingleWindowListed | src-tauri/src/commands.rs:806-831 | a single window object is listed as that window |
| WindowQuery.ArrayListedEntryWise | src-tauri/src/commands.rs:806-831 | listing an array of windows lists each part in order |
| WindowQuery.OpenWindowsAsWritten | src-tauri/src/commands.rs:258-272 | a JSON array is listed as the listing command would list it, and anything else, including a single object, gives no windows |
| WindowQuery.OpenWindows | src-tauri/src/commands.rs:258-272 | text that is not JSON gives no windows, and any value other than an object is listed as before |
| WindowQuery.SingleWindowLostAsWritten | src-tauri/src/commands.rs:258-272 | the system context's window list is empty for a single window object, which the listing command would list |
| WindowQuery.OpenWindowsKeepsSingleWindow | src-tauri/src/commands.rs:258-272 | with normalisation added, arrays give the same list as before and a single window object is kept |
| CaptureFiles.SanitizeTitle | src-tauri/src/commands.rs:1129-1132 | same length; every character is alphanumeric, `-`, `_` or `.`; such characters are kept and every other one becomes `_` |
| CaptureFiles.SanitizeProcess | src-tauri/src/commands.rs:1133-1136 | same length; every character is alphanumeric, `-` or `_`; such characters are kept and every other one becomes `_` |
| CaptureFiles.SanitizeIdempotent | src-tauri/src/commands.rs:1129-1136 | sanitising an already sanitised name changes nothing |
| CaptureFiles.FileName | src-tauri/src/commands.rs:1138-1144 | the name starts with the sanitised process name, `_`, the sanitised title and `_`, and ends in `.png` |
| CaptureFiles.FileNameStaysInDirectory | src-tauri/src/commands.rs:1129-1144 | the file name holds no path separator or other character Windows forbids, is not `.` or `..`, and ends in `.png` |
| CaptureFiles.TimestampRoundTrip | src-tauri/src/commands.rs:1138-1144 | the timestamp is read back from the digits between the last `_` and `.png` |
| CaptureFiles.StripExtendedPrefix | src-tauri/src/commands.rs:354-356 | a path starting with `\\?\` loses exactly that prefix; any other path is unchanged |
| CaptureFiles.StripAddedPrefix | src-tauri/src/commands.rs:354-356 | removing the prefix undoes adding it |
| CaptureSettings.IntervalUpdate | src-tauri/src/commands.rs:1254-1264 | a request is answered `Ok` exactly when it is in 1..10 and is then stored; otherwise the stored value stays and the range message is returned |
| CaptureSettings.ScreenCaptureState.constructor | src-tauri/src/screen_capture.rs:9-15 | a fresh state holds the default interval of 3 seconds |
| CaptureSettings.ScreenCaptureState.GetCaptureInterval | src-tauri/src/commands.rs:1247-1252 | answers `Ok` with the stored interval and changes nothing |
| CaptureSettings.ScreenCaptureState.SetCaptureInterval | src-tauri/src/commands.rs:1254-1264 | the new field and the answer are those of the update rule, and an interval in range stays in range |
| CaptureSettings.IntervalStaysInRange | src-tauri/src/commands.rs:1259-1262 | from a value in range, any series of requests leaves the interval in 1..10 |
| CaptureSettings.LastAcceptedWins | src-tauri/src/commands.rs:1254-1264 | after a series of requests the interval is the last accepted one, or the starting value when none was accepted |
| ScreenMonitor.MonitorStep | src-tauri/src/commands.rs:1223-1234 | an event is emitted exactly when a capture succeeds with a hash different from the last one; it carries that capture and its hash is remembered; otherwise the last hash stays |
| ScreenMonitor.Monitor.constructor | src-tauri/src/commands.rs:1217 | the monitor starts with the empty hash |
| ScreenMonitor.Monitor.OnCapture | src-tauri/src/commands.rs:1223-1234 | the stored hash and the emitted event are those of the step rule |
| ScreenMonitor.EmittedHashesChange | src-tauri/src/commands.rs:1216-1236 | over any run, the first event differs from the starting hash, consecutive events differ in hash, and the stored hash is that of the last event |
| ScreenMonitor.EmittedComeFromCaptures | src-tauri/src/commands.rs:1216-1236 | every event is one of the successful captures, and there are at most as many events as captures |
| FocusMonitor.FocusStep | src-tauri/src/process_monitor/windows.rs:33-47 | a failed probe changes nothing; a successful one is remembered; a `focus_changed` event with that name and time is emitted exactly when the name changed and the previous name was not empty |
| FocusMonitor.FocusTracker.constructor | src-tauri/src/process_monitor/windows.rs:31 | a thread starts with the empty name |
| FocusMonitor.FocusTracker.Step | src-tauri/src/process_monitor/windows.rs:33-47 | the remembered name and the event are those of the step rule |
| FocusMonitor.ProcessMonitor.constructor | src-tauri/src/process_monitor/windows.rs:19-21 | a new monitor holds no sender |
| FocusMonitor.ProcessMonitor.StartMonitoring | src-tauri/src/process_monitor/windows.rs:23-53 | starting keeps a sender, starts a fresh thread state with the empty name, and answers `Ok` |
| FocusMonitor.LastActiveSnoc | src-tauri/src/process_monitor/windows.rs:32-49 | each probe acts on the state the earlier probes left |
| FocusMonitor.LastActiveIsLastSeen | src-tauri/src/process_monitor/windows.rs:33-47 | after a run, the remembered name is that of the last successful probe; failed probes change nothing |
| FocusMonitor.RepeatsAndFailuresAreSilent | src-tauri/src/process_monitor/windows.rs:33-47 | probes that fail or repeat the remembered name emit nothing and change nothing |
| FocusMonitor.EventsComeFromProbes | src-tauri/src/process_monitor/windows.rs:36-42 | every event is `focus_changed` for a name some probe returned, and there is at most one event per probe |
| FocusMonitor.EventsSnocSilent | src-tauri/src/process_monitor/windows.rs:33-47 | a last probe that reports nothing adds no event to a run |
| FocusMonitor.EmptyNameHidesNextChange | src-tauri/src/process_monitor/windows.rs:35-43 | a change to the empty name is reported, and the following change away from it is not |
| FocusMonitor.FirstProbeIsSilent | src-tauri/src/process_monitor/windows.rs:31-43 | a fresh thread reports nothing up to and including its first successful probe, and then remembers that name |
| Text.TrimStart | src-tauri/src/commands.rs:62 | `trim_start` removes exactly the leading whitespace |
| Text.TrimEnd | src-tauri/src/commands.rs:62 | `trim_end` removes exactly the trailing whitespace |
| Text.Trim | src-tauri/src/commands.rs:62 | the trimmed text is a contiguous part of the input with only whitespace before and after it, and it neither starts nor ends with whitespace |
| Text.TrimTight | src-tauri/src/commands.rs:26 | a balanced group, which starts and ends with a delimiter, is its own trim |
| Text.TrimAllWhitespace | src-tauri/src/commands.rs:62 | output made only of whitespace trims to the empty string |
| Text.LowerIdempotent | src-tauri/src/commands.rs:1426 | lower-casing twice is lower-casing once |
| Text.LowerConcat | src-tauri/src/commands.rs:1426 | lower-casing distributes over concatenation |
| Text.SplitJoin | src-tauri/src/commands.rs:1486 | joining with a space and splitting at spaces recovers the parts when none holds a space |
| Text.DecimalRoundTrip | src-tauri/src/commands.rs:1144 | the decimal rendering of the timestamp reads back as the timestamp |

## Left out

- Lower-casing (`to_lowercase`) is modelled for ASCII letters only. Rust lower-cases all of Unicode, for example KELVIN SIGN to `k`, so the model admits fewer spellings of a whitelisted word than the program does.
- `char::is_alphanumeric` is modelled for ASCII letters and digits only. Rust also keeps non-ASCII letters and digits in capture file names.
- CommandExecution.ExecuteCommand: spawning, waiting and the bytes of stdout and stderr are the `run` parameter. `from_utf8_lossy` is not modelled; the output is taken as already decoded text.
- The `[Security]` log line of `execute_command` and every `eprintln!` diagnostic are left out, because they are I/O.
- JsonExtract.ExtractJsonFromOutput: the `i32` counter is unbounded in the model. An overflow would need more than two billion nested delimiters.
- JSON parsing itself (`serde_json::from_str`) is an input. The model's `Json` has integer numbers only, and a parse failure is `None`.
- WindowQuery.ConditionMatches models PowerShell's `-ilike '*x*'` and `-like` as case-insensitive containment. Wildcard characters (`*`, `?`, `[`) inside the searched name or title are taken literally.
- The capture variant of the process-only condition also writes debug lines to stderr. Only its `$searchName` literal, which both variants share, is rendered in the model.
- The PowerShell scripts around the match condition (window enumeration, screenshot, OCR), the images, base64 and the hash function are not part of this model. A hash is an opaque string.
- Threads, `tokio::spawn`, sleeps, the atomic load and store, the mpsc channel and the clock are left out. Each monitor iteration's probe or capture outcome and its time are inputs. The endless loops become the `Events`/`Emitted` folds over finite runs.
- `get_active_process` (the PowerShell probe and its trim) is an input of FocusMonitor.FocusStep.
- The Tauri command wrappers and window commands, `main.rs`, `process_monitor/unix.rs` and the other parts of `get_system_context` are not part of this model.
- The approval levels, orchestrator, caches and target resolution described for the wider system do not exist in these source files. The command gate here is the binary `Ok`/`Err` decision of the code.

## Findings

| source | as written | input that shows it | evidently intended | confidence | as-written member | corrected member |
|---|---|---|---|---|---|---|
| src-tauri/src/commands.rs:14-35 | the bracket pass runs first, so any `[`…`]` anywhere in the output wins over an enclosing object | `{"t":"[1]"}` gives `[1]` | return the outermost JSON value: scan whichever delimiter opens first | not executed | JsonExtract.ObjectWithBracketYieldsInnerArray | JsonExtract.IntendedExtractsOutermostGroup |
| src-tauri/src/commands.rs:672-673 | `replace("'", "''")` doubles only the ASCII apostrophe, but PowerShell also ends a single-quoted literal at U+2018–U+201B | window title `’;x` ends the literal after `*` and leaves `;x*'` as script text | double every PowerShell single-quote character, so any text round-trips | not executed | WindowQuery.TypographicQuoteEndsLiteral | WindowQuery.EscapeQuotesRoundTrip |
| src-tauri/src/commands.rs:258-272 | the window list is parsed as an array only, so one open window, which `ConvertTo-Json` writes as a bare object, fails to parse and becomes an empty list | a single window object `{"Title":"a","ProcessName":"b"}` | normalise a single object into a one-entry list, as `list_windows_by_process` does | not executed | WindowQuery.SingleWindowLostAsWritten | WindowQuery.OpenWindowsKeepsSingleWindow |
