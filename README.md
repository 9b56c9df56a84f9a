# GitUp security advisor, web-aware file naming and the Sheets log buffer, in Dafny

This project models three parts of the AndyWeb/AndyGoogle tooling and proves
properties of the model.

- **The GitUp security advisor** (`gitup_security_advisor.py`) takes the
  issues a GitGuard scan reports. For each issue it:
  - decides whether `.gitignore` or `.gitupignore` already covers the file,
    using `fnmatch` patterns;
  - recommends an action and proposes an ignore pattern;
  - asks the user for an A/G/I/R decision;
  - appends the accepted patterns, each with a provenance comment, to the
    two ignore files;
  - records the session in `.gitupignore.meta`.
- **The web-aware file manager** (`Scripts/Deployment/UpdateFiles.py`)
  turns header paths into PascalCase paths. It keeps the names web
  frameworks need, strips known base directories, and counts the status
  of every file it processes.
- **The Sheets logger's local buffer** (`Source/Utils/SheetsLogger.py`)
  keeps three JSON log files of at most 1000 entries. Pending entries become
  sheet rows and are flagged as uploaded once the sheet has accepted them.

Modules:

| file | module | models |
|---|---|---|
| `wrappers.dfy` | `Wrappers` | `Option` and `Result` |
| `text.dfy` | `Text` | the Python `str` operations the code relies on: `strip` (with `str.isspace`), `readlines` (which keeps `'\n'`), `startswith`, `in`, ASCII `upper`/`lower`, `split`/`join`, `str(int)` |
| `tally.dfy` | `Tally` | the insertion-ordered dict that `d[k] = d.get(k, 0) + 1` builds |
| `glob.dfy` | `Glob` | `fnmatch.fnmatch` on POSIX (case-sensitive; `*`, `?`, `[...]`, `[!...]`; an unclosed `[` is literal) |
| `ignore_policy.dfy` | `IgnorePolicy` | the pure logic of the advisor: active patterns, coverage, recommendation, proposed pattern, the decision session, additions and audit records |
| `advisor.dfy` | `SecurityAdvisor` | class `Advisor`, whose fields are the two ignore files, the metadata file and the current issues; its methods run the loops of the source |
| `update_files.dfy` | `UpdateFiles` | web exceptions, `_IsWebFile`, PascalCase, base-directory stripping, path conversion, `ProcessAllFiles` statistics |
| `sheets_logger.dfy` | `SheetsLog` | class `SheetsLogger`, whose fields are the three log files, the rows each sheet received and the spreadsheet id |

Files on disk are fields or parameters of type `Option<string>` (`None` for
a missing file). The clock, the scanner's output, the user's typed lines and
the success of Google API calls are all parameters.

## Model

| member | source | states |
|---|---|---|
| IgnorePolicy.ActivePatterns | gitup_security_advisor.py:58-69 | the patterns read from an ignore file are non-empty and stripped, and there are no more of them than lines |
| IgnorePolicy.ActivePatternsExactly | gitup_security_advisor.py:61-62 | `p` is a pattern exactly when some line is non-blank, does not start with `#`, and strips to `p` |
| IgnorePolicy.IndentedLineIsPattern | gitup_security_advisor.py:61-62 | only a `#` in the first column makes a comment: an indented `  # x` is read as the pattern `# x` |
| IgnorePolicy.IsCovered | gitup_security_advisor.py:104-116 | a path is covered exactly when some pattern matches it directly, matches it as `*/pattern`, or is a directory pattern (`.../`) that prefixes it; an empty pattern list covers nothing |
| IgnorePolicy.ListedPathCovered | gitup_security_advisor.py:108-110 | a path listed verbatim as a pattern is covered when it holds no `[` |
| IgnorePolicy.BracketPathNotSelfCovered | gitup_security_advisor.py:109 | the path `[a]` listed as the pattern `[a]` is not covered, because the pattern is a character class |
| IgnorePolicy.StarSlashNeedsSlash | gitup_security_advisor.py:111 | only a string containing '/' can match a `*/`-prefixed pattern |
| IgnorePolicy.NoSlashNoSubdirectoryMatch | gitup_security_advisor.py:111 | a top-level path never matches through the `*/pattern` rule |
| IgnorePolicy.CoveredInAnyDirectory | gitup_security_advisor.py:111-112 | whatever a pattern matches, it also covers below any directory |
| Glob.LiteralMatch | gitup_security_advisor.py:109 | a pattern without `*`, `?` or `[` matches exactly its own text |
| Glob.SelfMatch | gitup_security_advisor.py:109 | a pattern without `[` matches its own text |
| Glob.MatchUnderDirectory | gitup_security_advisor.py:111 | if `name` matches `pat`, then `dir/name` matches `*/pat` |
| IgnorePolicy.RecommendedAction | gitup_security_advisor.py:118-130 | `already_handled` exactly when both files cover the path; the action never adds to a file that already covers it; when neither covers it, `add_to_gitignore` exactly for severity `CRITICAL` |
| IgnorePolicy.Dirname | gitup_security_advisor.py:140 | unless the directory part is all slashes, `os.path.dirname` is non-empty and `path` starts with it followed by '/' |
| IgnorePolicy.ProposedPattern | gitup_security_advisor.py:132-142 | a `.db` file, or a `.json` file whose path mentions `config` or `secret`, is proposed by its exact path even when the path mentions a cache; otherwise a path mentioning `Cache`/`cache` is proposed as its directory plus '/', and any other path as itself |
| IgnorePolicy.CacheFileProposesDirectory | gitup_security_advisor.py:139-140 | `Data/Cache/tmp.bin` is proposed as `Data/Cache/` |
| IgnorePolicy.DbInCacheKeptExact | gitup_security_advisor.py:135-136 | `Cache/app.db` is proposed by its exact path: the `.db` rule is checked before the cache rule |
| IgnorePolicy.ProposedPatternCovers | gitup_security_advisor.py:132-142 | the proposed pattern covers the file it was proposed for, when the path has a directory and no `[` |
| IgnorePolicy.TopLevelCacheNotCovered | gitup_security_advisor.py:139-140 | a top-level `cache.bin` gets the pattern `/`, which does not cover it |
| IgnorePolicy.Analysis | gitup_security_advisor.py:81-100 | one recommendation per issue, in issue order, from the two pattern lists |
| IgnorePolicy.ActionCountsAddUp | gitup_security_advisor.py:161-164 | the action counts add up to the number of recommendations; each count is that action's number of occurrences; the keys are exactly the actions that occur |
| Tally.TallyTotal | gitup_security_advisor.py:161-164 | the counts built by `d[k] = d.get(k, 0) + 1` add up to the number of elements |
| Tally.TallyCount | gitup_security_advisor.py:161-164 | each key's count is its number of occurrences |
| Tally.TallyKeys | gitup_security_advisor.py:161-164 | the keys are distinct and are exactly the values that occur |
| Tally.BumpKeyOrder | gitup_security_advisor.py:161-164 | counting a key keeps the order of the keys; a key not seen before goes last |
| IgnorePolicy.ParseChoice | gitup_security_advisor.py:217-219 | an answer is accepted exactly when, stripped and upper-cased, it is one of `A`, `G`, `I`, `R`, and that letter is the choice |
| IgnorePolicy.LowerCaseAccepted | gitup_security_advisor.py:217 | `" g\n"` is accepted as GitUp |
| IgnorePolicy.DecideSkips | gitup_security_advisor.py:244-245 | an invalid answer is passed over and the question asked again |
| IgnorePolicy.DecideStep | gitup_security_advisor.py:219-243 | a valid answer records one decision; when it departs from the recommendation, the next line, stripped, is its reason |
| IgnorePolicy.DecideRunsOut | gitup_security_advisor.py:215-239 | input that ends before an answer, or before the reason an answer needs, ends the session with an error |
| IgnorePolicy.ThenAppend | gitup_security_advisor.py:242 | appending decisions one at a time is the same as appending them together |
| IgnorePolicy.DecideShape | gitup_security_advisor.py:211-247 | a finished session holds exactly one decision per recommendation, in order. Each has its 1-based id, file path, severity, recommendation, pattern and timestamp, and a reason exactly when it departs from the recommendation |
| IgnorePolicy.UnknownAnswersIgnored | gitup_security_advisor.py:216-245 | any run of invalid answers before the real ones changes nothing |
| IgnorePolicy.FirstAnswerDecides | gitup_security_advisor.py:217-240 | the first valid answer is the recorded choice; the line after it is the reason when one is asked |
| IgnorePolicy.AdditionsShape | gitup_security_advisor.py:267-278 | the additions are the selected decisions in order, two lines each: the provenance comment, then the pattern. A decision is selected exactly when it has the target choice and its pattern is not already a stripped line. Every added line ends in a newline |
| IgnorePolicy.BlockHeader | gitup_security_advisor.py:283-284 | the block header ends in a newline |
| IgnorePolicy.ApplyExtends | gitup_security_advisor.py:281-292 | an ignore file is unchanged exactly when nothing is selected; otherwise its old text is kept and followed by a blank line and the block header |
| IgnorePolicy.ReadBackBlock | gitup_security_advisor.py:255-256 | reading back an appended file gives the old lines, then the header lines, then the added lines |
| IgnorePolicy.NothingSelected | gitup_security_advisor.py:270-276 | when every pattern of the target choice is already present, nothing is added |
| IgnorePolicy.ApplyIdempotent | gitup_security_advisor.py:249-292 | for patterns without a line break or surrounding white space, applying the same batch a second time leaves both ignore files as the first application left them |
| IgnorePolicy.ExistingLinesStripped | gitup_security_advisor.py:253-276 | the lines read back from an ignore file are stripped, so a pattern with surrounding white space is never among them |
| IgnorePolicy.UnstrippedPatternReappended | gitup_security_advisor.py:253-292 | a selected pattern with surrounding white space is appended again by every application: the second application still changes the file and keeps the first one's text in front |
| IgnorePolicy.DuplicatesInBatchKept | gitup_security_advisor.py:267-272 | two accepted decisions with the same pattern in one batch add four lines: duplicates are checked only against the file as read |
| IgnorePolicy.ChoiceCountsAddUp | gitup_security_advisor.py:320-325 | the four choice counts of a session add up to its number of decisions |
| IgnorePolicy.SessionRecord | gitup_security_advisor.py:315-326 | the record stores all decisions, `total_issues` is their number, and the summary adds up to it |
| IgnorePolicy.SaveSession | gitup_security_advisor.py:304-330 | a metadata file that is missing or unreadable starts from an empty map; one that is not a JSON object fails. Otherwise the new session is stored under its id and every other session is kept |
| IgnorePolicy.DistinctSessionsKept | gitup_security_advisor.py:314-315 | two sessions with different ids are both kept |
| IgnorePolicy.SameSecondOverwrites | gitup_security_advisor.py:314-315 | a second session in the same second replaces the first |
| IgnorePolicy.EmptyBatchRecorded | gitup_security_advisor.py:315-326 | a session with no decisions is still recorded, with zero counts |
| SecurityAdvisor.Advisor.constructor | gitup_security_advisor.py:20-28 | the advisor holds the project's files, and its issues are those the scan yielded from an empty list |
| SecurityAdvisor.Advisor.LoadCurrentIssues | gitup_security_advisor.py:30-52 | exit code 0 reads issues from stdout, any other code from stderr; output that is not JSON keeps the current issues; JSON without `issues` gives none |
| SecurityAdvisor.Advisor.AnalyzeGitignoreCoverage | gitup_security_advisor.py:54-102 | the loop yields the two pattern lists and one recommendation per issue; each recommendation's flags are that issue's coverage |
| SecurityAdvisor.Advisor.GenerateDiffReport | gitup_security_advisor.py:144-164 | the counting loop yields the ordered tally of actions; it adds up to the number of issues, has distinct keys, and counts each action's occurrences |
| SecurityAdvisor.NextDecision | gitup_security_advisor.py:216-245 | the re-prompt loop for one issue consumes lines until a valid answer (and its reason), giving the session's next decision, or reports that input ran out |
| SecurityAdvisor.Advisor.PromptUserDecisions | gitup_security_advisor.py:197-247 | the interactive loop yields exactly the session `Decide` defines over the analysis, or the end-of-input error |
| SecurityAdvisor.CollectAdditions | gitup_security_advisor.py:264-278 | the loop over decisions builds both addition lists as `Additions` defines them |
| SecurityAdvisor.Advisor.ApplyUserDecisions | gitup_security_advisor.py:249-299 | each ignore file gains exactly its block of selected decisions; the reported counts are twice the number selected; the session is saved |
| SecurityAdvisor.Advisor.SaveAuditMetadata | gitup_security_advisor.py:301-330 | the metadata becomes the saved map, or is left unchanged when saving fails |
| UpdateFiles.ExceptionsKeepTheirName | Scripts/Deployment/UpdateFiles.py:40-79 | every web exception maps a name to itself |
| UpdateFiles.HasWebPart | Scripts/Deployment/UpdateFiles.py:101-103 | the loop over path parts finds a web directory exactly when some part equals one of the web paths, ignoring case |
| UpdateFiles.Suffix | Scripts/Deployment/UpdateFiles.py:106 | `Path.suffix` is empty or a '.'-led proper ending of the name |
| UpdateFiles.UnderWebDirectoryIsWebFile | Scripts/Deployment/UpdateFiles.py:95-103 | a file directly under `src` is a web file whatever its extension |
| UpdateFiles.ExceptionUnchanged | Scripts/Deployment/UpdateFiles.py:116-118 | a name listed among the web exceptions is left as it is |
| UpdateFiles.ApiSpelling | Scripts/Deployment/UpdateFiles.py:121-129 | an `API`-like name becomes `api` exactly for a web file whose path mentions `WebPages` or `frontend`, and `API` otherwise |
| UpdateFiles.WebPatternLowered | Scripts/Deployment/UpdateFiles.py:132-144 | a web file with a web extension whose name holds a web pattern is lower-cased |
| UpdateFiles.StemAndExtension | Scripts/Deployment/UpdateFiles.py:159-164 | the stem and the extension put back together are the name; the extension starts at the last dot; a directory, or a name without a dot, has no extension |
| UpdateFiles.Words | Scripts/Deployment/UpdateFiles.py:167 | the words are non-empty and hold no `_`, `-` or white space |
| UpdateFiles.PascalShape | Scripts/Deployment/UpdateFiles.py:148-172 | without an exception, the result is the stem in PascalCase (`PascalChars`: the stem's letters in order, separators dropped, each word's first letter upper-cased and the others lower-cased) followed by the original extension; a directory keeps no extension |
| UpdateFiles.PascalJoinIsPascalChars | Scripts/Deployment/UpdateFiles.py:167-168 | joining the capitalised words of `re.split` equals PascalCase read off character by character |
| UpdateFiles.PascalCharsWord | Scripts/Deployment/UpdateFiles.py:167-168 | a word at the start of the stem is capitalised, and the text after it starts a new word |
| UpdateFiles.WordsOfWordThen | Scripts/Deployment/UpdateFiles.py:167-168 | a word followed by a separator is the first word of the name |
| UpdateFiles.StripAllOf | Scripts/Deployment/UpdateFiles.py:203-212 | stripping base directories gives a suffix of the path, and a path that starts with none of them is unchanged |
| UpdateFiles.StripBaseDirectories | Scripts/Deployment/UpdateFiles.py:203-212 | the loop strips each base directory at most once, in list order, leaving a suffix of the path |
| UpdateFiles.StripAllOfBase | Scripts/Deployment/UpdateFiles.py:203-212 | stripping the base directories is `ProjectHimalaya`, `BowersWorld-com`, `AndyWeb`, then `Project`, each tried once |
| UpdateFiles.BaseDirectoriesInOrder | Scripts/Deployment/UpdateFiles.py:205-209 | for every rest `r`, `ProjectHimalaya/Project/` + `r` loses both prefixes and gives `r`, because the later `Project` is checked after `ProjectHimalaya` |
| UpdateFiles.BaseDirectoriesOnce | Scripts/Deployment/UpdateFiles.py:205-209 | for every rest `r`, `Project/ProjectHimalaya/` + `r` keeps `ProjectHimalaya/` + `r`, because each directory is checked only once |
| UpdateFiles.ConvertKeepsNoSlash | Scripts/Deployment/UpdateFiles.py:148-172 | converting a path segment never introduces a '/' |
| UpdateFiles.ConvertPartKeepsNoSlash | Scripts/Deployment/UpdateFiles.py:223-229 | a converted segment holds no '/' when the input segment holds none |
| UpdateFiles.ConvertedPartsCount | Scripts/Deployment/UpdateFiles.py:219-230 | there is one converted segment per non-empty input segment |
| UpdateFiles.ConvertedPartsNoSlash | Scripts/Deployment/UpdateFiles.py:219-230 | no converted segment holds a '/' |
| UpdateFiles.ConvertPathToPascalCase | Scripts/Deployment/UpdateFiles.py:214-234 | the corrected loop joins, in order, the conversions of the non-empty segments; each is converted as a directory unless it is last, in the context of the path up to it |
| UpdateFiles.ConvertPathDefect | Scripts/Deployment/UpdateFiles.py:216-232 | every path with a non-empty segment raises in the code as written, while the corrected conversion splits back into one converted segment per non-empty input segment |
| UpdateFiles.SrcAppRaises | Scripts/Deployment/UpdateFiles.py:216-226 | `src/app.js` has two non-empty segments, so the code as written raises on it |
| UpdateFiles.StatsCountEveryFile | Scripts/Deployment/UpdateFiles.py:357-368 | the four counters add up to the number of files processed; with the statuses `ProcessFile` reports, `warnings` stays 0 |
| UpdateFiles.ProcessAllFiles | Scripts/Deployment/UpdateFiles.py:343-380 | a missing folder is an error and an empty folder reports no files. Otherwise each regular file's status is counted once: a status that is not a counter's key counts as an error |
| SheetsLog.Pending | Source/Utils/SheetsLogger.py:344 | the pending entries are no more than the entries, and none of them is flagged as uploaded |
| SheetsLog.PendingExactly | Source/Utils/SheetsLogger.py:344 | an entry is pending exactly when its `uploaded` flag is absent or falsy |
| SheetsLog.PendingAppend | Source/Utils/SheetsLogger.py:344 | the pending list of a longer log extends the pending list of the shorter one |
| SheetsLog.KeepLast | Source/Utils/SheetsLogger.py:325-326 | the cap keeps at most 1000 entries, and exactly 1000 when there were more |
| SheetsLog.KeepLastIsSuffix | Source/Utils/SheetsLogger.py:325-326 | the kept entries are the last ones, in their original order |
| SheetsLog.AppendKeepsLatest | Source/Utils/SheetsLogger.py:314-326 | after an append, the new entry is last and not uploaded, and the log holds at most 1000 entries, the most recent ones in order (a missing file starts from an empty list); below the cap nothing is dropped |
| SheetsLog.AppendAddsPending | Source/Utils/SheetsLogger.py:320-322 | below the cap, an append adds exactly one pending entry |
| SheetsLog.Cells | Source/Utils/SheetsLogger.py:402-424 | a row has one cell per column, holding that column's value (`''` when it is absent), passed through `str()` exactly for the stringified columns |
| SheetsLog.RowsShape | Source/Utils/SheetsLogger.py:399-428 | the usage and session sheets get one row per pending entry, 10 and 8 cells wide; any other sheet, including `Error Log`, gets no rows |
| SheetsLog.MarkUploaded | Source/Utils/SheetsLogger.py:445-447 | marking keeps every entry at its place and flags exactly the pending ones |
| SheetsLog.MarkingClearsPending | Source/Utils/SheetsLogger.py:445-447 | after marking nothing is pending, and no entry differs except in its `uploaded` flag |
| SheetsLog.OrDefault | Source/Utils/SheetsLogger.py:246-254 | `value or default` gives the default, or the value when it is a non-empty string |
| SheetsLog.UsageEntryFillsRow | Source/Utils/SheetsLogger.py:244-255 | the entry `LogUsage` builds has every column of a usage row |
| SheetsLog.SessionEntryFillsRow | Source/Utils/SheetsLogger.py:275-284 | the entry `LogSession` builds has every column of a session row |
| SheetsLog.UsageEntry | Source/Utils/SheetsLogger.py:244-255 | a new usage entry is pending, is stamped with the current time as a string, always names a session and a user (the fallbacks are non-empty), and has a truthy `book_id` exactly when a non-zero book id was given |
| SheetsLog.SessionEntry | Source/Utils/SheetsLogger.py:275-284 | a new session entry is pending, always names a user, and records the session end it was given |
| SheetsLog.ErrorEntry | Source/Utils/SheetsLogger.py:292-300 | a new error entry carries an `uploaded` flag that leaves it pending, always names a user (`system` by default), and records the severity it was given |
| SheetsLog.ValueSet | Source/Utils/SheetsLogger.py:489-491 | the set of distinct values has no more elements than the list, and holds exactly its values |
| SheetsLog.PyKey | Source/Utils/SheetsLogger.py:489-496 | a value as a set element or dict key: never a boolean, and equal to the value under Python's `==` |
| SheetsLog.PyKeyMerges | Source/Utils/SheetsLogger.py:489-496 | two values fall together in a set or a dict exactly when Python's `==` says they are equal (`True == 1`, `False == 0`) |
| SheetsLog.TrueAndOneAreOneSession | Source/Utils/SheetsLogger.py:489 | a session id `true` and a session id `1` count as one session |
| SheetsLog.NonStringTimestampRaises | Source/Utils/SheetsLogger.py:481-485 | an entry whose timestamp is a number or null makes the cutoff raise `TypeError`, which the per-entry handler does not catch |
| SheetsLog.RecentEntries | Source/Utils/SheetsLogger.py:477-485 | the filter loop gives the entries the cutoff keeps, in order, and gives nothing exactly when the cutoff raises on some entry |
| SheetsLog.ActionCounts | Source/Utils/SheetsLogger.py:493-496 | the counting loop gives the insertion-ordered tally of the actions |
| SheetsLog.Recent | Source/Utils/SheetsLogger.py:477-485 | the kept entries pass the cutoff and come from the log, and every entry of the log that passes is kept |
| SheetsLog.RecentCounts | Source/Utils/SheetsLogger.py:477-485 | each passing entry is kept as often as it occurs in the log, and no other entry is kept |
| SheetsLog.RecentAppend | Source/Utils/SheetsLogger.py:477-485 | filtering a log with one more entry adds that entry at the end exactly when it passes: the order is kept |
| SheetsLog.SummaryBounds | Source/Utils/SheetsLogger.py:488-496 | the action breakdown adds up to `total_actions` and has one key per action, actions equal under Python's `==` sharing one; there are never more distinct sessions, users or books than actions |
| SheetsLog.SheetsLogger.constructor | Source/Utils/SheetsLogger.py:25-39 | the logger starts from the three log files as they are on disk, with nothing uploaded and no spreadsheet id |
| SheetsLog.SheetsLogger.AppendToLocalLog | Source/Utils/SheetsLogger.py:310-333 | the file of the given kind becomes `Appended` of what it was, and the other files are unchanged |
| SheetsLog.SheetsLogger.GetPendingLogCount | Source/Utils/SheetsLogger.py:335-349 | the count is the number of pending usage entries: 0 for a missing or unreadable file, and never more than the entries |
| SheetsLog.SheetsLogger.UploadLogFile | Source/Utils/SheetsLogger.py:383-459 | only an unreadable file raises. When there are rows and the append call succeeds, the sheet gains the pending entries' rows and every entry is flagged uploaded (`UploadedFile`, `UploadedSheets`). A missing file or no pending entries returns true unchanged; a failed call returns false unchanged |
| SheetsLog.SheetsLogger.UploadErrorLogs | Source/Utils/SheetsLogger.py:461-464 | uploading the error log changes nothing and succeeds unless the file is unreadable, because the error sheet builds no rows |
| SheetsLog.SheetsLogger.GetOrCreateUsageSheet | Source/Utils/SheetsLogger.py:85-145 | a spreadsheet id once set is returned and kept; an unset one takes the id the create call returns, and stays unset when that call fails |
| SheetsLog.SheetStaysSet | Source/Utils/SheetsLogger.py:87-88 | once the spreadsheet id is set, no number of later calls replaces it |
| SheetsLog.SheetsLogger.BatchUploadLogs | Source/Utils/SheetsLogger.py:351-381 | the spreadsheet id is got or created first. With an id, the usage and session files and the sheets become `AfterBatch` of the old ones: the usage upload, then the session upload unless the usage file did not load, and the error log adds nothing; without one, nothing else changes. The batch reports success exactly when there is an id and no file was unreadable |
| SheetsLog.SheetsLogger.LogUsage | Source/Utils/SheetsLogger.py:239-263 | the entry `UsageEntry` builds from the arguments is appended to the usage log; a batch upload runs exactly when 50 or more entries are then pending, and the new state is then `AfterBatch` of the state with the entry appended when the spreadsheet id is then set |
| SheetsLog.BatchClearsUsage | Source/Utils/SheetsLogger.py:351-367 | a batch whose append calls succeed leaves no usage entry pending, changes each entry only in its `uploaded` flag, and adds one usage row per previously pending entry |
| SheetsLog.TriggeredBatchClearsPending | Source/Utils/SheetsLogger.py:258-263 | when an append triggers a successful batch, the usage log is left with nothing pending, the new entry included |
| SheetsLog.SheetsLogger.LogSession | Source/Utils/SheetsLogger.py:265-287 | the entry `SessionEntry` builds from the arguments is appended to the session log and nothing else changes |
| SheetsLog.SheetsLogger.LogError | Source/Utils/SheetsLogger.py:289-308 | the entry `ErrorEntry` builds from the arguments, with the same severity, is appended to the error log, and an upload runs exactly for `CRITICAL` or `FATAL`. It raises only when that upload meets an unreadable file, and it never changes the sheets |
| SheetsLog.SheetsLogger.GetAnalyticsSummary | Source/Utils/SheetsLogger.py:466-510 | nothing for a missing or unreadable usage log, or when the cutoff raises on one of its entries; otherwise the summary counts of the recent entries, with values equal under Python's `==` counted once, and a breakdown that adds up to the number of actions |

## Left out

- The scanner is not run: the GitGuard subprocess appears only as its outcome (`ScanRun`: failed, or an exit code with stdout and stderr). JSON parsing of that output is likewise reduced to its result (`ScanJson`).
- `input()`, `print()`, the text of the report (including `str.title()` and emoji), `show_audit_history` and `main` are I/O; the session reads its answers from a list of lines.
- The end of input (`EOFError`) ends the session with an error.
- `datetime.now()` values, session ids and the `Generated:` stamps are parameters. The per-decision timestamps are a `clock` function of the decision id.
- JSON values in `.gitupignore.meta` other than an object, a missing file or an unreadable file are folded into one failing case. Their exact exception is not modelled.
- Universal-newline translation (`'\r\n'` and `'\r'` read as `'\n'`) is not modelled: files are text with `'\n'` line ends.
- Case mapping is ASCII only. For example, Python's `'ı'.upper() == 'I'` (which would let `apı` count as `API`) is not captured.
- UpdateFiles: `ProcessFile`, `_ExtractHeaderPath`, `_ValidateTimestamp`, `_ArchiveExistingFile`, `_GenerateReport`, logging and file moves are filesystem and regex work. `ProcessAllFiles` takes each file's status as given.
- UpdateFiles.ParsePath: a POSIX `PurePath` only. Windows path flavours are not modelled.
- SheetsLogger: the OAuth flow, the spreadsheet creation call, the header set-up and the append calls are reduced to their outcomes. `created` is the id the create call returns, or `None` when it fails; `apiOk` says an append call succeeds, and one value applies to all sheets of a batch.
- SheetsLogger: the current time, the epoch seconds behind a default session id and a session's `(end - start).total_seconds()` are parameters. `LogSession` takes the resolved session end.
- SheetsLogger: the day cutoff of the analytics summary (`datetime.fromisoformat` and the comparison) is the parameter `atOrAfter`. It says, for a timestamp string, whether the entry is kept, skipped, or makes the comparison raise. The float average per session is left out, and so is the float duration of a session.
- SheetsLog.SheetsLogger.GetAnalyticsSummary: a `days` so large that the cutoff date is out of range raises `OverflowError` and gives no summary (lines 480, 508-510); the model always has a cutoff. For a dict key merged from `true` and `1`, the model shows the number where Python keeps whichever came first; the counts agree.
- SheetsLog.JsonValue: numbers are integers, so `str()` of a float and `duration or 0.0` for a float duration are only approximated.
- Row cells record `str()` as a marker (`Str`) rather than a rendered string.
- SheetsLog.LogFile: a log whose top level is not an object, or whose entries are not objects, is not modelled.
- Which exception an `AppendToLocalLog` on an unreadable file prints is not modelled: the file is left as it was.
- SheetsLog.SheetsLogger.BatchUploadLogs: no spreadsheet id stands only for a sheet that could not be got or created (lines 357-359). `Authenticate` (lines 41-83) never returns false: it returns true or raises. A failed authentication therefore raises out of `BatchUploadLogs` (lines 353-355, outside the `try`) and out of `LogUsage`, where the model returns false and changes nothing.

Where the documented intent and the code differ, the model follows the code:
- A `FATAL` issue that no file covers is recommended for `.gitupignore`, because only `CRITICAL` goes to `.gitignore` (gitup_security_advisor.py:127-130).
- Two sessions saved in the same second share an id, and the second overwrites the first (gitup_security_advisor.py:314-315).
- A path listed verbatim as a pattern is not covered when it contains a closed `[...]` class (gitup_security_advisor.py:109).
- A pattern with surrounding white space (the scanner's paths are not restricted) is never found again among the stripped lines of the file (gitup_security_advisor.py:270, 276), so it is appended again on every run (`IgnorePolicy.UnstrippedPatternReappended`). A pattern holding a line break is read back as two lines and is likewise not found; the model states only the white-space case. Re-applying a batch changes nothing only for the remaining patterns (`IgnorePolicy.ApplyIdempotent`).

## Findings

| source | as written | input that shows it | evidently intended | confidence | as-written member | corrected member |
|---|---|---|---|---|---|---|
| Scripts/Deployment/UpdateFiles.py:226 | `Path('/'.join(...))` calls the `str` parameter `Path`, which hides `pathlib.Path`, so the conversion raises `TypeError` at the first non-empty segment. `ProcessFile` catches it (lines 336-339), so every file whose header path has a non-empty segment after the base directories are stripped ends with status `error` (a path such as `/` or `Project/` converts to the empty path and goes on) | header path `src/app.js` | each non-empty segment converted in the context of `pathlib.Path` of the path up to it, giving `src/app.js` back converted segment by segment | high (by reading; not executed) | UpdateFiles.ConvertPathAsWritten | UpdateFiles.ConvertPathToPascalCase |
