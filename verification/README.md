# Telegram–tmux bridge: a Dafny model of its decision core

`bridge.py` connects a Telegram chat to a Claude session running in a tmux
pane. This project models the routines underneath its network and tmux
plumbing, and proves properties about them:

- **Project paths** (`project_path.dfy`): `decode_project_path` turns an encoded
  directory name such as `-Users-foo-my-app` back into a path. It tries the
  all-slashes reading first, then rebuilds the path greedily from the
  longest existing runs of `-`-separated pieces. The method is proved
  against a greedy specification function. Two facts are proved about it:
  for names without `/` the result re-encodes to the name, and every
  reconstructible path decodes back to itself.
- **Session store** (`session_store.dfy`): `is_valid_session`, the three
  listings (recent sessions, projects, sessions of one project) and
  `resolve_project_dir`, over an abstract directory of records. The
  listings are loops that filter and append, followed by a stable sort on
  mtime in descending order and a Python slice (`listing.dfy`).
- **Identity** (`identity.dfy`): `filter_window_title`, the window title,
  the marker file, the newest session file, and the priority chain of
  `get_current_session_id`.
- **Sync gate** (`sync_gate.dfy`) and **bridge state** (`bridge.dfy`): the
  paused, disabled and pending flag files, the session-to-chat map file,
  the marker file, the window name and the keys sent to the pane. They are
  fields of a class whose methods are `clear_sync_flags`, `/stop`,
  `/escape`, `/terminate`, `bind_session_to_chat`, the free-text message
  path and one pass of the session poller.
- **Bindings** (`bindings.dfy`): the map file and the bind / refuse / forward
  decisions of the message handler and the poller.
- **Usage** (`usage.dfy`, `dicts.dfy`): `scan_token_usage` as nested loops,
  proved equal to a left fold over the files and lines. Python's
  insertion-ordered dicts are modelled as association lists. The model also
  covers `_model_cost_key` and `_estimate_cost` in exact `real` arithmetic.
- **Pane** (`pane.dfy`) and **callbacks** (`callbacks.dfy`): `is_shell_prompt`,
  and the keystroke plans of the session switch, the new-in-project
  callback and the `askq:` answer. They also cover `parse_callback_data`
  and the project-hash cache.
- **Text** (`text.dfy`): the Python string operations these rely on:
  `strip`, `split`/`join`, `replace`, `str(int)`, `int(str)` and
  `shlex.quote`, plus the code-point order used to compare day strings.

Everything outside the process becomes a parameter:

- the filesystem (entries and session records);
- `os.path.isdir` (`isDir`) and `os.path.realpath`;
- the MD5 digest;
- the clock (`now`, and the four day strings);
- whether the pane is at a shell;
- whether each file write succeeds (`writeOk`, `saveOk`, `markerOk`).

Two behaviours of the code that are easy to misread:

- The "newest session" signal of `get_current_session_id`
  (bridge.py:825-831) takes the newest of *all* `*/*.jsonl` files, whether
  or not the record is a valid session. `Identity.RecentSid` uses every
  file in a project directory.
- `resolve_project_dir("")` returns the projects directory itself, since
  `projects_dir / ""` exists (bridge.py:434-436). `SessionStore.Resolve`
  answers `Some("")` for the empty name.

## Model

| member | source | states |
|---|---|---|
| Text.LStrip | bridge.py:110-112 | the result is a suffix of the input; what it drops is whitespace, and it does not start with whitespace |
| Text.RStrip | bridge.py:110-112 | the result is a prefix of the input; what it drops is whitespace, and it does not end with whitespace |
| Text.Strip | bridge.py:110-112 | a non-empty stripped line neither starts nor ends with whitespace |
| Text.StripInfix | bridge.py:110-112 | the stripped line is a slice of the line, and what lies before and after it is whitespace |
| Text.StripIdempotent | bridge.py:110-112 | stripping twice is stripping once |
| Text.StripEmptyIffBlank | bridge.py:111-113 | a stripped line is empty exactly when the line is all whitespace, which is when the prompt scan skips it |
| Text.LStripChar | bridge.py:761 | `lstrip("-")` drops only leading hyphens, and the result does not start with one |
| Text.Replace | bridge.py:764 | `replace` changes exactly the occurrences of one character and keeps the length |
| Text.Split | bridge.py:769 | `split("-")` yields at least one piece, and no piece contains the separator |
| Text.JoinSplit | bridge.py:769-776 | joining the pieces of a split with the separator gives the string back |
| Text.SplitConcat | bridge.py:769 | splitting `a + sep + b` gives the pieces of `a` followed by those of `b` |
| Text.LexLeTrans | bridge.py:544-562 | the order on day strings is transitive |
| Text.LexLeTotal | bridge.py:544-562 | any two day strings are comparable |
| Text.LexLeAntisym | bridge.py:544-562 | two day strings that are each `<=` the other are equal |
| Text.ShowNat | bridge.py:874 | `str` of a natural number is a non-empty digit string without a leading zero |
| Text.ShowNatValue | bridge.py:874 | the digits of `str(n)` denote `n` |
| Text.ShowInt | bridge.py:874 | `str(n)` starts with `-` exactly for a negative `n`, and the rest is digits |
| Text.ParseInt | bridge.py:1257-1258 | `int` of a blank text fails; a text it accepts is, once stripped, digits after an optional sign, and a negative result had a `-` |
| Text.ParseIntValue | bridge.py:1257-1258 | `int` accepts exactly a stripped text of digits, or a sign followed by digits, and yields their base-ten value, negated after `-` |
| Text.ParseShowInt | bridge.py:1190-1191 | `str(chat_id)` is non-empty and has no surrounding whitespace, and `int` reads it back as the same number |
| Text.ShowIntInjective | bridge.py:1222 | different chat ids have different decimal texts, so comparing the texts compares the ids |
| Text.ShellQuote | bridge.py:291 | `shlex.quote` gives `''` for the empty string, leaves a non-empty string of safe characters unchanged, and otherwise wraps it in single quotes with each `'` written `'"'"'` |
| Text.ShellQuoteRoundTrip | bridge.py:291 | the shell reads the quoted word back as the original string, so `cd` receives the path unchanged |
| Listing.Prefix | bridge.py:403-404 | a slice `[:n]` is a prefix of the list, of length `min(n, len)`; for negative `n` it drops `-n` elements from the end |
| Listing.SortDescSorted | bridge.py:403 | `sort(key=mtime, reverse=True)` gives a permutation of its input that is ordered by mtime, newest first |
| Listing.SortDescStable | bridge.py:403 | the sort is stable: the elements with any one mtime keep their original relative order |
| Listing.InsertDescSorted | bridge.py:403 | inserting into a sorted list keeps it sorted |
| Listing.InsertDescMultiset | bridge.py:403 | inserting adds exactly the one element |
| Listing.InsertDescStable | bridge.py:403 | a new element goes after every element with the same mtime |
| Listing.TopN | bridge.py:403-404 | sorting then slicing yields a sorted sub-multiset of the input whose length is bounded by the limit |
| Listing.OutsidePrefixNoNewer | bridge.py:403-404 | an element left out by the slice is no newer than any element kept |
| ProjectPath.LongestRun | bridge.py:777-783 | the inner loop finds the longest run of pieces whose joined candidate exists, and no longer run exists; when none is found, no run exists |
| ProjectPath.FindRun | bridge.py:777-783 | the descending `for j` loop returns exactly that longest run |
| ProjectPath.Decode | bridge.py:751-792 | a decoded path always exists, and the all-slashes reading is returned whenever it exists |
| ProjectPath.DecodeProjectPath | bridge.py:751-792 | the `while` loop (which advances `i` on every pass) computes `Decode`; any path it returns exists |
| ProjectPath.DecodeDashImage | bridge.py:751-792 | for a name without `/`, replacing `/` by `-` in the result gives `-` followed by the name without its leading hyphens |
| ProjectPath.GreedyImage | bridge.py:773-787 | the greedy loop's invariant: the partial path re-encodes to the pieces consumed so far |
| ProjectPath.DecodeRoundTrip | bridge.py:751-792 | a reconstructible path decodes from its encoding back to itself. Reconstructible: non-empty names without `/`, the first not starting with `-`; the path and every ancestor whose last name holds `-` exist; when some name holds `-`, the all-slashes reading does not exist; and from no ancestor does a candidate running past the next name's pieces exist. Only these probes are constrained: a shorter reading beside an ancestor (`/u/my-app` next to `/u/my-app-v2`) may exist |
| ProjectPath.FastPathExact | bridge.py:764-766 | for a reconstructible path, an existing all-slashes reading is the path itself |
| ProjectPath.SimplePathIsPath | bridge.py:764-766 | the all-slashes reading of a path's encoding is the path itself exactly when no directory name holds `-` |
| ProjectPath.GreedyRebuilds | bridge.py:773-787 | for a reconstructible path, the greedy loop started at any ancestor rebuilds the path |
| ProjectPath.GreedyNextAncestor | bridge.py:773-787 | for a reconstructible path, one pass of the outer loop from an ancestor reaches the next ancestor |
| ProjectPath.NextRun | bridge.py:777-783 | for a reconstructible path, the run the inner loop finds from an ancestor is exactly the next component's pieces, or none when that name is a single piece |
| ProjectPath.GreedyExtends | bridge.py:773-787 | the outer loop only appends to the path it has built, and each remaining piece makes it longer |
| ProjectPath.EncodedName | bridge.py:761 | the encoding of an absolute path, with its leading hyphens stripped, is the components joined by `-` |
| SessionStore.IsValidSessionCases | bridge.py:361-381 | a record is valid exactly when it is non-empty, at most `max_age_days` days old, and its first line is not blank and parses |
| SessionStore.RecentSessions | bridge.py:384-404 | no projects directory lists nothing; the listing never holds more records than there are valid files in project directories |
| SessionStore.RecentSessionsSpec | bridge.py:384-404 | the recent listing is a sub-multiset of the valid files inside project directories (no record repeated beyond the files behind it), newest first; with `limit >= 0` it holds exactly `limit` of them, or all when there are fewer; every valid file it omits is no newer than each one kept |
| SessionStore.GetRecentSessionsFromFiles | bridge.py:384-404 | the filter-append loop, sort and slice compute `RecentSessions` |
| SessionStore.ValidRecentMembers | bridge.py:390-400 | the loop collects exactly the valid files in project directories |
| SessionStore.ValidRecentCount | bridge.py:390-400 | the loop collects one record per valid file in a project directory |
| SessionStore.Projects | bridge.py:407-426 | no projects directory lists nothing; never more projects than directory entries with valid files |
| SessionStore.ProjectsSpec | bridge.py:407-426 | the listing is a sub-multiset of the per-directory summaries; every project listed is a directory entry with at least one valid file; its count is the number of valid files and its mtime is their maximum; the list is newest first and, with `limit >= 0`, holds exactly `limit` projects or all listable ones when there are fewer |
| SessionStore.SummariesCount | bridge.py:412-423 | the loop over the entries appends one summary per directory entry with valid files |
| SessionStore.ProjectsOmittedNoNewer | bridge.py:407-426 | a directory with valid files that the listing leaves out has no valid file newer than any listed project |
| SessionStore.SummariesComplete | bridge.py:413-424 | every directory with a valid file gets a summary |
| SessionStore.GetProjects | bridge.py:407-426 | the loop over directory entries, sort and slice compute `Projects` |
| SessionStore.MaxMtime | bridge.py:419 | `max(..., key=mtime)` is an upper bound that some file attains |
| SessionStore.ValidInMembers | bridge.py:416 | the files collected for a directory are exactly its valid files |
| SessionStore.Resolve | bridge.py:429-441 | no projects directory gives none; an exact (or empty) name resolves to itself; otherwise the first directory whose name starts with the argument |
| SessionStore.FirstPrefixDir | bridge.py:438-441 | the first directory entry with the prefix, and none when no entry has it |
| SessionStore.ResolveProjectDir | bridge.py:429-441 | the loop over entries computes `Resolve` |
| SessionStore.SessionsForProject | bridge.py:444-461 | an unresolved name lists nothing; never more sessions than valid files of the resolved directory |
| SessionStore.SessionsForProjectSpec | bridge.py:444-461 | an unresolved name lists nothing; otherwise the sessions listed are a sub-multiset of the valid files of the resolved directory, newest first, exactly `limit` of them (with `limit >= 0`) or all when there are fewer, and every valid file left out is no newer than each one listed |
| SessionStore.SessionsInMembers | bridge.py:450-457 | the loop collects exactly the valid files of the directory: each record comes from one, and each one has its record |
| SessionStore.SessionsInCount | bridge.py:450-457 | the loop collects one record per valid file of the directory |
| SessionStore.GetSessionsForProject | bridge.py:444-461 | the loop, sort and slice compute `SessionsForProject` |
| SessionStore.ProjectOfSession | bridge.py:799-801 | the project of the first file (in glob order) holding the session id, with no earlier file holding it; none when no file holds it |
| SessionStore.ProjectPathForSession | bridge.py:795-803 | nothing without a projects directory or a file holding the id; otherwise exactly the decoding of the first such file's project directory, which may itself be nothing; a returned path exists |
| Identity.FilterWindowTitle | bridge.py:122-126 | a title is kept exactly when it is not one of the generic names (including the empty one) |
| Identity.TitleSidClean | bridge.py:346-352 | the title gives an id exactly when the window has a name whose stripped form is not generic; that id is stripped and not generic |
| Identity.MarkerSidClean | bridge.py:809-815 | the marker gives an id exactly when the file is readable; the id is stripped |
| Identity.NewestIndex | bridge.py:830 | `max` picks the first position holding the greatest mtime |
| Identity.Newest | bridge.py:830 | the newest file is one of the files, and no file is newer |
| Identity.Globbed | bridge.py:828 | `*/*.jsonl` matches exactly the files inside a project directory |
| Identity.RecentSid | bridge.py:825-831 | the stem of a newest file in a project directory, valid or not; none only when there is no projects directory or no such file |
| Identity.CurrentSessionId | bridge.py:807-846 | a title equal to the marker wins; otherwise the newest file's stem if any; otherwise the title, then the marker; the result is always one of the three |
| Identity.AgreementWins | bridge.py:820-822 | once the window is named after a session and the marker holds it, that session is current whatever the newest file is |
| SyncGate.GetSyncState | bridge.py:144-150 | terminated exactly when the disabled flag is set, paused exactly when only the paused flag is set, active otherwise |
| Bindings.LoadMap | bridge.py:849-857 | a missing or unreadable map file reads as the empty map |
| Bindings.ChatIdForSession | bridge.py:884-889 | the bound chat exists exactly when the id is non-empty and in the map, and is the map's entry |
| Bindings.BindMap | bridge.py:869-876 | a saved bind of a non-empty id adds exactly that key to the map's keys, with the chat's decimal text; an empty id or a failed write leaves the file as it was |
| Bindings.BindThenLookup | bridge.py:869-889 | after a bind, the session answers the new chat's decimal text, and every other session answers what it did before |
| Bindings.BindNoop | bridge.py:871-872 | an empty id, or a failed write, leaves the map file unchanged |
| Bindings.RegularMessageDecision | bridge.py:1208-1225 | refused when sync is not active, or tmux is missing, or the current session is bound to another chat; an unbound current session is bound and the message forwarded; otherwise forwarded |
| Bindings.FirstChatOwnsSession | bridge.py:1217-1225 | the first chat to write binds an unbound session; after that, other chats are refused and that chat is forwarded without rebinding |
| Bindings.Poll | bridge.py:1252-1261 | a new non-empty current id becomes the last-known id; it is bound exactly when unbound and the chat-id file holds a non-blank integer, and then to that integer |
| Bindings.PollOncePerSession | bridge.py:1252-1253 | a second pass over the same current id binds nothing |
| Bindings.PollKeepsBinding | bridge.py:1255 | the poller never rebinds a session that already has a chat |
| Bindings.PollBindsLastChat | bridge.py:1190-1191 | a new unbound session is bound to the chat that last wrote to the bridge |
| Bridge.BoundSessionIsOwned | bridge.py:1217-1225 | a session that was bound and named in both the title and the marker is current, and every other chat is refused |
| Bridge.BridgeState.constructor | bridge.py:137-150 | starts with no flags, no map, marker or chat file, and nothing sent |
| Bridge.BridgeState.ClearSyncFlags | bridge.py:137-141 | both flags are removed; the state is active |
| Bridge.BridgeState.Stop | bridge.py:1055-1063 | the paused flag is written and the pending flag removed; the state is paused, or still terminated; a failed write changes nothing |
| Bridge.BridgeState.Escape | bridge.py:1065-1072 | Escape and Ctrl-C are sent when tmux is up; the pending flag is removed in any case |
| Bridge.BridgeState.Terminate | bridge.py:1074-1083 | the disabled flag is written and the paused and pending flags removed; the state is terminated; a failed write changes nothing |
| Bridge.BridgeState.Bind | bridge.py:869-881 | the map file gains the binding, the marker names the session, other sessions keep their chats; an empty id changes nothing |
| Bridge.BridgeState.SetTitle | bridge.py:341-343 | the window takes the new name when tmux is up |
| Bridge.BridgeState.RememberChat | bridge.py:1190-1191 | the chat-id file holds the sender's decimal id |
| Bridge.BridgeState.BindCurrent | bridge.py:1221-1222 | bind, then rename the window; with a clean id and successful writes, the session is current afterwards |
| Bridge.BridgeState.Forward | bridge.py:1227-1230 | the pending flag is set and the text followed by Enter is sent to the pane |
| Bridge.BridgeState.HandleRegularMessage | bridge.py:1205-1230 | the action is the decision over the state before; exactly the forwarded messages reach the pane; only a bind-and-forward changes the map, marker and window name |
| Bridge.BridgeState.CarryOut | bridge.py:1219-1230 | a decided action takes effect: only a bind-and-forward binds and renames the window, and only forwarded messages reach the pane and set the pending flag |
| Bridge.BridgeState.BindPolled | bridge.py:1257-1261 | the poller's bind, when it decided on one, records the chat in the map file, writes the marker when the id is non-empty and the write succeeds, and renames the window only when tmux is up; otherwise nothing changes |
| Bridge.BridgeState.PollOnce | bridge.py:1250-1261 | one poller pass: returns the new last-known id; binds exactly when `Poll` says so, to the chat in the chat-id file, with the map file, marker and window name each given exactly (the marker only on a successful write of a non-empty id, the window only with tmux up); otherwise nothing changes |
| Usage.ScanTokenUsage | bridge.py:464-586 | the nested loops compute the left fold over fresh files and their lines; a missing projects directory gives none |
| Usage.ScanFile | bridge.py:514-578 | the line loop of one file is the fold over its lines |
| Usage.CountLine | bridge.py:523-578 | one line is skipped unless it is an assistant entry with usage, a non-synthetic model and a timestamp; otherwise it is counted |
| Usage.CountWindows | bridge.py:544-578 | a counted line adds to the 30-day, 7-day, yesterday and today windows whose day condition holds |
| Usage.StepBalanced | bridge.py:566-576 | each step keeps the per-project and per-session sums equal to today's input plus output, and the per-model sums equal to today's input and output |
| Usage.StepNoSynthetic | bridge.py:531-532 | no per-model table gains a `<synthetic>` row |
| Usage.StepNested | bridge.py:544-569 | when the day bounds are ordered, today's totals stay within the week's and the week's within the month's |
| Usage.ReportSound | bridge.py:464-586 | the whole report is balanced, free of synthetic rows, and nested when the bounds are ordered |
| Usage.StaleFilesIgnored | bridge.py:504-506 | files older than the cutoff `now - (days+1)*86400` do not affect the report |
| Usage.UncountedLinesIgnored | bridge.py:523-541 | lines that are not counted do not affect the report |
| Usage.StripDateSuffix | bridge.py:90-91 | a trailing `-` followed by eight ASCII digits is removed, and nothing else is |
| Usage.ShortenStripsPrefixAndDate | bridge.py:83-93 | a model outside the table loses its `claude-` prefix and date, and its hyphens become spaces |
| Usage.CostKey | bridge.py:608-614 | the first of opus, sonnet and haiku found in the lower-cased short name, or empty when none is |
| Usage.EstimateCostUnknown | bridge.py:617-621 | a model of no known family costs 0 |
| Usage.EstimateCostAdditive | bridge.py:617-623 | the estimate is linear in the token counts |
| Usage.EstimateCost | bridge.py:601-623 | a model of no known family costs 0; Opus costs 15 and 75 dollars per million input and output tokens, Sonnet 3 and 15, Haiku 0.25 and 1.25; for non-negative counts the cost lies between 0 and the token total at the highest rate (75 dollars per million) |
| Usage.ShortenBase | bridge.py:83-93 | a model outside the table comes out without hyphens and no longer than its id |
| Usage.CostKeySonnetExample | bridge.py:608-614 | the table's Sonnet 4.5 id is priced as Sonnet |
| Usage.CostKeyHaikuExample | bridge.py:608-614 | the table's Haiku 4.5 id is priced as Haiku |
| Usage.CostKeyUnlistedExample | bridge.py:83-93 | a dated Sonnet id outside the table loses prefix and date and is priced as Sonnet |
| Usage.EstimateCostExamples | bridge.py:601-623 | a million input and a hundred thousand output tokens cost 22.5 on Opus 4.6, 4.5 on Sonnet 4.5, 0.375 on Haiku 4.5, and 4.5 on an unlisted dated Sonnet id |
| Pane.PromptLineExamples | bridge.py:114-117 | a line ending in `$`, `%` or `#`, or holding `❯` or `➜`, is a prompt; Claude's own output such as `Claude is thinking...` is not |
| Pane.IsShellPrompt | bridge.py:108-119 | the scan answers whether the last non-blank stripped line ends in `$`, `%` or `#`, or contains `❯` or `➜` |
| Pane.LastNonBlank | bridge.py:110-113 | the last non-blank line, or none exactly when every line is blank |
| Pane.BlankIsNoPrompt | bridge.py:108-119 | empty or all-blank content is never a prompt |
| Pane.EarlierLinesIrrelevant | bridge.py:108-119 | lines above a non-blank last part never change the answer |
| Pane.ExitClaude | bridge.py:275-286 | Escape and `/exit`, then, exactly when the pane is not at a shell, Escape and `exit`; no `cd` |
| Pane.CdAndStart | bridge.py:289-297 | a `cd` to the quoted path, then Claude started, resuming when an id is given |
| Pane.SwitchSession | bridge.py:300-325 | the switch starts with Escape and `/exit` exactly when a cross-project restart is needed, and otherwise with Escape and `/resume` on the session |
| Pane.SwitchResumes | bridge.py:300-325 | every switch ends by starting Claude on the session, or with Claude's own `/resume` when no restart was needed |
| Pane.SwitchDirectory | bridge.py:300-325 | a switch changes directory only to the session's path, never when it is unknown; it starts with `/exit` exactly when a cross-project switch is needed, and otherwise with `/resume` |
| Pane.NewSession | bridge.py:328-338 | Escape and `/clear`, then Claude started only if the pane is at a shell |
| Pane.NewInProject | bridge.py:1013-1022 | the callback starts with Escape and `/exit` exactly when the pane is in another directory, and otherwise with Escape and `/clear` |
| Pane.NewInProjectPlan | bridge.py:1013-1022 | the plan ends with a fresh Claude, or with `/clear`; it changes directory only when the pane is elsewhere, and only to the project |
| Pane.AnswerKeys | bridge.py:998-1002 | Down `n` times (none for negative `n`), then Enter |
| Callbacks.ParseCallbackData | bridge.py:153-160 | a value is returned exactly when the data starts with the prefix and the rest is 1 to 128 characters, and then it is that rest |
| Callbacks.ParseBuiltCallback | bridge.py:153-160 | a payload built from a prefix and an acceptable value parses back to the value |
| Callbacks.AskAnswer | bridge.py:945-1003 | with tmux missing the callback is refused whatever its payload (exactly then); with tmux up, malformed payloads and non-integers are ignored (exactly then), and otherwise `n` Down keys and Enter are sent and option `n+1` is replied |
| Callbacks.AskRoundTrip | bridge.py:987-1003 | the payload for option index `n` parses back to `n` |
| Callbacks.ProjectHashCache.constructor | bridge.py:96-105 | the cache starts empty |
| Callbacks.ProjectHashCache.ProjectHash | bridge.py:96-100 | the short hash is the first eight digest characters, it is cached for the name, and it resolves back to that name |
| Callbacks.ProjectHashCache.ProjectFromHash | bridge.py:103-105 | a hash resolves exactly when it is cached, and to the name last hashed to it |
| Dicts.PutGet | bridge.py:565-571 | updating a dict entry sets that key and leaves every other key as it was |
| Dicts.PutKeys | bridge.py:565-571 | a new key goes to the end of the insertion order, and an existing key keeps its place |
| Dicts.PutDistinct | bridge.py:565-571 | updating keeps the keys distinct, as a Python dict's are |
| Dicts.SumByPut | bridge.py:570-571 | the sum of the values changes by the new value minus the old one |

## Left out

- Telegram HTTP, the HTTP server, `reply`, `reply_keyboard` and the command dispatch of `handle_message`: these are network I/O. The model keeps only the write of the chat-id file and the free-text path.
- Threads, the typing loop, fixed sleeps and the endless `session_poller` loop: `PollOnce` is one pass of it. Races between the poller and the message handler are not modelled.
- The content of the flag files: the model does not record the timestamps they hold, only whether each file exists.
- A failing file write is a boolean parameter. A write that fails halfway (a flag written but the pending file not removed) is not modelled.
- Bridge.BridgeState.ClearSyncFlags: assumes both removals succeed. In the source an `os.remove` that fails raises out of the caller (bridge.py:139-141).
- Bridge.BridgeState.Escape: assumes the pending-file removal succeeds. The source does not guard it, so a failure would raise out of the `/escape` handler (bridge.py:1070-1071).
- Bridge.BridgeState.RememberChat: assumes the chat-id write succeeds. The source does not guard it, so a failure would end `handle_message` before dispatch (bridge.py:1190-1191).
- Bridge.BridgeState.Forward: assumes the pending-file write in `_start_typing` succeeds. The source does not guard it, so a failure would raise before the text reaches the pane (bridge.py:217-218, 1227-1228).
- Usage.StripDateSuffix: the date is eight ASCII digits. Python's `\d` also matches other Unicode decimal digits, and `$` also matches before a final newline. Neither case is modelled.
- MD5, `os.path.realpath`, `os.path.isdir`, `Path.glob`/`stat` and JSON parsing are parameters or fields of the abstract records.
- A map file that holds valid JSON but not an object is not distinguished from a corrupt one.
- The `'"usage"' in line` prefilter and JSON decoding of log lines are folded into the `Unparsed` line kind.
- Token counts are natural numbers: JSON integers are assumed non-negative.
- `Pane.Lines` breaks at every line-boundary character. Python's `splitlines` treats `\r\n` as one break and drops a trailing empty line. Both only add blank lines, which the prompt scan skips.
- Usage.CostKey: lower-cases ASCII letters only, and the final `.title()` of `shorten_model_name` is not applied. For ASCII, title-casing and then lower-casing equals lower-casing.
- `int()` on Unicode digits or with `_` separators, and `strip()` of non-ASCII whitespace beyond the characters listed in `Text.IsSpace`, are not modelled.
- `_estimate_cost` returns a float; the model uses exact reals.
- Text.ShellRead: the shell's reading of a word covers only the quoting `shlex.quote` produces: safe characters, single-quoted text, and double-quoted text without `$`, `` ` `` or `\`. Other shell syntax is not read.
- SessionStore.Resolve: directory names containing `/` are not modelled. An exact match is any entry, as with `exists()`.
- Bridge.BridgeState.HandleRegularMessage: its contract does not state the resulting `ChatFor`/`CurrentSid`; `Bridge.BoundSessionIsOwned` and `BindCurrent` state them.
- Bridge.BridgeState.SetTitle: a rename without a tmux session fails silently in the source, and the model treats it as a no-op.
- The float presentation code (`format_token_report` and its helpers), `_load_config_env`, `setup_bot_commands` and `main` are not part of this model.
