# flowmode, modelled in Dafny

flowmode is a Linux desktop activity tracker. A daemon polls the X11 active
window every few seconds, matches it against a list of tracked-app rules,
and keeps an SQLite ledger of activity sessions: at most one session is
open, it is closed when the user switches app, goes idle, pauses tracking
or quits. A tray icon shows today's tracked time. A terminal dashboard and
a small web API read the same ledger; the web API also serves a standalone
Pomodoro timer that keeps its state in memory and never touches the ledger.

This project models that core as pure Dafny functions over immutable data:

- `Config` — tracked-app rules and `match_window` (first rule whose pattern
  occurs case-insensitively in the window class or title), plus the default
  rule set.
- `Storage` — the `activity` table as a sequence of rows, with the session
  life cycle (`start_activity`, `end_activity`, `update_activity_time`,
  `get_active_session`, `close_open_sessions`, `reset_today`) and the
  v0.5.0 migration that adds and backfills the active/passive counters.
- `StorageQueries` — the read queries over today's window: the total, the
  per-(app, category) summary, the per-(app, title) detail, the hourly
  buckets. GROUP BY, SUM, HAVING and ORDER BY are written out.
- `Tracker` — the parsing part of the X11 probes (`xprop WM_CLASS`,
  `xdotool`, `xprintidle`), given what the programs printed.
- `Daemon` — the main loop of `start_daemon` as a transition function over
  events (poll tick, tray command, Ctrl-C, the tray's pause flag), with the
  headline invariant: while the loop runs, the only open row is the session
  the loop remembers, and once it stops no row is open.
- `Patterns` and `TitleParser` — the window-title context extraction: the
  five regular expressions, written out with leftmost-first, lazy-group
  semantics, and the Teams, terminal and browser parsers.
  `TitleScenarios` proves the parser's unit-test titles as instances of
  general title shapes.
- `Pomodoro` — the Pomodoro timer's state machine, its `MM:SS` display and
  its tray status.
- `Tray` — `format_duration`, the icon name and the title.
- `Tui` — tab cycling and key handling of the dashboard.
- `Web` — the SPA asset-path choice, the 24-hour chart fill, the focus
  streak and the burnout level.
- `Text` and `Wrappers` — string helpers with Rust's semantics (`trim`,
  `contains`, `replace`, `trim_end_matches`, truncating `/` and `%`, decimal
  rendering) and `Option`.
- `Search` — the first set flag in a range. The rule matcher's
  `iter().find`, the choice among a pattern's candidate group starts and
  the end of group 1 of the browser pattern are all this search.

Time is integer seconds. The local day is the window
`[dayStart, dayStart + 86400)`, and `dayStart` is an input. Whatever an
external program printed, the clock's `now`, and the key pressed are inputs
of the operations that use them.

Behaviours of the code the model keeps deliberately:

- `end_activity` stores the signed difference `now - started_at`. It does
  not clamp it at zero (`src/storage.rs:108-118`).
- Windows matched by a `Process` rule are tested against the window class
  (`src/config.rs:152`).
- The browser parser's YouTube branch removes the word `YouTube` before it
  tries to remove `- YouTube`. So `Amazing Video - YouTube` gives the video
  title `Amazing Video -`, with the dash kept (`TitleScenarios.YouTubeVideo`).

## Model

| member | source | states |
|---|---|---|
| Config.Field | src/config.rs:149-153 | title rules inspect the title; class and process rules both inspect the window class |
| Config.FirstMatch | src/config.rs:147-154 | the index found is in range and its rule accepts the window |
| Config.FirstMatchFirst | src/config.rs:147-154 | no rule before the one found accepts the window |
| Config.FirstMatchFound | src/config.rs:147-154 | an accepting rule guarantees a match at or before it |
| Config.FirstMatchSpec | src/config.rs:147-154 | the match is the first accepting rule in list order, and `None` exactly when no rule accepts |
| Config.MatchWindow | src/config.rs:143-155 | `Some` iff some rule's lowercased pattern occurs in its lowercased field; the result is the first such rule in list order |
| Config.MatchIgnoresCase | src/config.rs:144-148 | re-casing the class, the title or any pattern never changes which rule is chosen |
| Config.EmptyPatternShadows | src/config.rs:147-154 | a rule with an empty pattern matches every window, so no later rule is ever chosen |
| Config.Default | src/config.rs:29-99 | idle timeout 300 s, poll interval 5 s, nine rules, Brave first |
| Config.DefaultMatchesBrave | src/config.rs:36-41 | with the default rules, any class containing "brave" in any case is tracked as Brave, whatever the title |
| Config.BraveBrowserScenario | src/config.rs:36-41 | the class "brave-browser" is tracked as Brave |
| Storage.OneOpenId | src/storage.rs:135-168 | in a valid table, one open id means at most one open row |
| Storage.NextId | src/storage.rs:97-105 | the id the next insert receives is positive and above every existing id |
| Storage.StartActivity | src/storage.rs:97-105 | appends one open row stamped `now` with zero counters; the old rows are untouched; the open ids grow by exactly the new id, which is fresh |
| Storage.Close | src/storage.rs:108-118 | a closed row ends at `now` with duration `now - started_at`; no other field changes |
| Storage.EndActivity | src/storage.rs:108-118 | closes every row carrying the id and leaves every other row unchanged |
| Storage.EndActivityOpenIds | src/storage.rs:108-118 | ending a session keeps the table valid and removes exactly that id from the open ids |
| Storage.UpdateActivityTime | src/storage.rs:122-132 | the row with the id gains the deltas in its counters and the sum of both in its duration; no other field and no other row changes |
| Storage.UpdateKeepsReconciliation | src/storage.rs:122-132 | a counter update keeps the table valid, opens or closes nothing, and keeps every row's `duration - (active + passive)` |
| Storage.ActiveSession | src/storage.rs:135-168 | `None` iff no row is open; otherwise an open row whose start is the latest among open rows |
| Storage.ActiveSessionOfSingleOpen | src/storage.rs:135-168 | with exactly one open row, that row is the active session |
| Storage.IdsDetermineRows | src/storage.rs:55-66 | in a valid table an id names a single row |
| Storage.CloseOpenSessions | src/storage.rs:353-363 | every open row is closed at `now`; every closed row is untouched |
| Storage.CloseOpenSessionsClosesAll | src/storage.rs:353-363 | after the sweep the table is valid and no row is open |
| Storage.ResetToday | src/storage.rs:366-377 | keeps exactly the rows that did not start inside today's window |
| Storage.ResetTodayValid | src/storage.rs:366-377 | deleting today's rows keeps ids positive and increasing |
| Storage.Backfill | src/storage.rs:90 | rows with zero active seconds and a positive duration get `active_secs := duration_secs`; other rows are unchanged |
| Storage.AddCounterColumns | src/storage.rs:80-91 | a legacy row gains active and passive counters of 0 and is otherwise copied |
| Storage.MigrationBackfill | src/storage.rs:80-91 | after migration every row's active seconds are its duration where positive, else 0; its passive seconds are 0; nothing else changes |
| StorageQueries.DayRows | src/storage.rs:216-222 | exactly the rows that started in today's window |
| StorageQueries.TodayTotal | src/storage.rs:211-225 | the total is 0 when no row started today |
| StorageQueries.Keys | src/storage.rs:181-187 | the group keys are distinct, and each is the key of some row |
| StorageQueries.Group | src/storage.rs:181-187 | a group holds exactly the rows with its key |
| StorageQueries.GroupSumsTotal | src/storage.rs:181-187 | grouping loses nothing: the per-group sums add up to the plain sum |
| StorageQueries.Insert | src/storage.rs:181-187 | inserting into an ordered list gives the old entries plus `x` as a multiset, still ordered, with the totals' sum increased by `x` |
| StorageQueries.Sort | src/storage.rs:181-187 | ORDER BY yields a permutation of the entries (same multiset), ordered, with the same sum of totals |
| StorageQueries.SortDistinct | src/storage.rs:181-187 | sorting keeps the group keys distinct |
| StorageQueries.Summaries | src/storage.rs:181-187 | one summary per key, in key order, and their totals sum to the grouped sum |
| StorageQueries.DateSummary | src/storage.rs:177-208 | one entry per (app, category) group with rows today, with its three sums, largest total first; the totals add up to today's total |
| StorageQueries.ResetClearsToday | src/storage.rs:366-377 | after `reset_today`, today's total is 0 and today's summary is empty |
| StorageQueries.DetailOf | src/storage.rs:385-391 | the group's duration sum, and a category taken from a row of the group |
| StorageQueries.Details | src/storage.rs:385-391 | HAVING keeps exactly the groups whose duration sum is at least 5 s |
| StorageQueries.TodayDetailed | src/storage.rs:380-411 | one entry per (app, title) group of today whose total is at least 5 s, ordered by app name and then by total, largest first |
| StorageQueries.HourOf | src/storage.rs:228-264 | a row started today falls into an hour in 0..23 |
| StorageQueries.HourRows | src/storage.rs:228-264 | exactly today's rows that started in hour `h` |
| StorageQueries.Hourly | src/storage.rs:267-315 | buckets in increasing hour order, one for each hour with rows, each with that hour's three sums; every row of today lands in a bucket |
| StorageQueries.HourlyMatchesTotal | src/storage.rs:228-264 | the hourly buckets add up to today's total |
| Text.Trim | src/title_parser.rs:90 | `str::trim`: a slice of the input that drops only whitespace at both ends, and starts and ends with non-whitespace |
| Text.Lower | src/config.rs:144-148 | character-wise lowercasing, length kept |
| Text.Contains | src/config.rs:150-152 | true iff the pattern occurs at some position |
| Text.TrimEndMatches | src/title_parser.rs:150-155 | the result is a prefix that no longer ends with the pattern; an empty pattern strips nothing |
| Text.TrimEndMatchesRepeat | src/title_parser.rs:150-155 | what is stripped is a whole number of copies of the pattern |
| Text.RemoveAll | src/title_parser.rs:165-166 | `replace(pat, "")` leaves a string without an occurrence of the pattern unchanged, and removes at least one copy's length from a string that has one |
| Text.NatToStringRoundTrip | src/tray.rs:239-241 | decimal rendering reads back as the number |
| Text.TDiv | src/tray.rs:235 | Rust's `/`, truncating toward zero: the remainder lies in `[0, b)` for non-negative `a` and in `(-b, 0]` for negative `a` |
| Text.TRem | src/tray.rs:236 | Rust's `%`: `a == (a / b) * b + r`, non-negative for non-negative `a` |
| Text.LexLeTotal | src/storage.rs:385-391 | SQLite's text order compares any two app names |
| Text.LexLeAntisymmetric | src/storage.rs:385-391 | two names ordered both ways are equal |
| Text.LexLeTrans | src/storage.rs:385-391 | the text order is transitive |
| Tracker.Split | src/tracker.rs:70 | `split('"')` yields one more piece than there are quotes |
| Tracker.WindowClassOf | src/tracker.rs:59-75 | the text between the first two quotes of xprop's output, which contains no quote; "unknown" when there are fewer than two quotes |
| Tracker.FallbackUnreachable | src/tracker.rs:69-73 | when the first-quote parse fails, the output has fewer than four quote-separated pieces, so the fallback always yields "unknown" |
| Tracker.WindowClass | src/tracker.rs:54-76 | fails only when xprop cannot be started; its exit status is ignored |
| Tracker.ActiveWindow | src/tracker.rs:14-51 | succeeds iff xdotool's id probe ran successfully with a non-blank id and the other two probes could be started; then the id and title are trimmed and the class is parsed |
| Tracker.ParseU64 | src/tracker.rs:85-88 | accepts exactly an optional `+` and one or more digits whose value fits in 64 bits |
| Tracker.ParseRendered | src/tracker.rs:85-88 | any 64-bit value written in decimal parses back |
| Tracker.IdleSecs | src/tracker.rs:79-101 | the whole seconds of the printed milliseconds; 0 on spawn failure, unsuccessful exit or unparsable output |
| Tracker.IdleOfPrintedMillis | src/tracker.rs:84-90 | xprintidle printing `<ms>\n` gives `ms / 1000` |
| Daemon.EndSession | src/main.rs:157-161 | ending the remembered session removes just its id from the open ids; without a session nothing changes |
| Daemon.TodayText | src/main.rs:246-251 | the tray text after a tick reads back as today's whole minutes, and is "0m" on a day without rows |
| Daemon.Startup | src/main.rs:113-135 | after start-up no row is open, the loop runs with tracking on, no session is remembered, and the invariant holds |
| Daemon.NeedNewSession | src/main.rs:211-215 | no new session iff there is an active session and it belongs to the matched app |
| Daemon.Classify | src/main.rs:204-244 | keeps the table valid and the flags; a failed window probe changes nothing |
| Daemon.Tick | src/main.rs:179-252 | with tracking off nothing changes; past the idle timeout the loop marks itself idle and ends the session; otherwise it clears idle, classifies the window and refreshes the tray text |
| Daemon.Step | src/main.rs:143-176 | a stopped loop ignores events; Pause leaves no session remembered; Quit and Ctrl-C stop the loop |
| Daemon.ClassifyKeepsInv | src/main.rs:204-244 | classification keeps "the open rows are the remembered session" |
| Daemon.StepKeepsInv | src/main.rs:143-263 | every event keeps the invariant |
| Daemon.RunKeepsInv | src/main.rs:143-265 | any event sequence keeps the invariant |
| Daemon.DaemonLifetime | src/main.rs:113-265 | from start-up, whatever happens: at most one row is open, it is the remembered session, and none is open once the loop has stopped |
| Daemon.ProbeFailureKeepsSession | src/main.rs:241-243 | a failed window probe leaves the table and the session alone |
| Daemon.UnmatchedWindowEndsSession | src/main.rs:233-239 | a window no rule matches ends the session; afterwards no row is open |
| Daemon.OtherAppStartsSession | src/main.rs:217-232 | a matched window of another app ends the old session and opens exactly one new row, which becomes the session |
| Daemon.SameAppKeepsSession | src/main.rs:211-215 | a matched window of the open session's app changes neither the table nor the session |
| Daemon.IdleEndsSession | src/main.rs:185-196 | going idle sets the idle flag, forgets the session and leaves no row open |
| Daemon.PauseEndsSession | src/main.rs:155-162 | pausing forgets the session and leaves no row open |
| Patterns.SkipDigits | src/title_parser.rs:21 | the run of ASCII digits from a position is maximal |
| Patterns.CountPrefix | src/title_parser.rs:21 | a matched counter prefix `(\d+)` starts with `(` and ends with `)` |
| Patterns.LazyEnd | src/title_parser.rs:21-29 | the smallest end in range from which the rest of the pattern matches, or `None` when there is none |
| Patterns.GroupEnd | src/title_parser.rs:21-29 | a lazy `(.+?)` group spans at least one character and no newline, and the rest of the pattern matches after it |
| Patterns.FirstStart | src/title_parser.rs:21-29 | the start chosen is a candidate from which the lazy group can end |
| Patterns.FirstCapture | src/title_parser.rs:21-29 | a capture spans at least one character, lies inside the text and holds no newline |
| Patterns.FirstCapturePriority | src/title_parser.rs:21-29 | the capture comes from the first candidate start, in priority order, from which the group can end |
| Patterns.FirstCaptureNone | src/title_parser.rs:21-29 | there is no capture exactly when no candidate start works |
| Patterns.FirstCaptureHead | src/title_parser.rs:21-29 | when the highest-priority start works, it is the one taken |
| Patterns.CallCapture | src/title_parser.rs:20-22 | TEAMS_CALL_RE's capture is non-empty and newline-free |
| Patterns.ChatCapture | src/title_parser.rs:24-26 | TEAMS_CHAT_RE's capture is non-empty and newline-free |
| Patterns.ChannelCapture | src/title_parser.rs:28-30 | TEAMS_CHANNEL_RE's capture is non-empty and newline-free |
| Patterns.SiteFrom | src/title_parser.rs:36-38 | group 1 of BROWSER_SITE_RE ends, within range, at a position from which the separator and group 2 match |
| Patterns.SiteFromFirst | src/title_parser.rs:36-38 | group 1 is lazy: no earlier end lets the rest of the pattern match |
| Patterns.SiteFromNone | src/title_parser.rs:36-38 | no end is found only when no position in range lets the rest of the pattern match |
| Patterns.SiteCapture | src/title_parser.rs:36-38 | BROWSER_SITE_RE's page and site captures are both non-empty |
| Patterns.LastSegment | src/title_parser.rs:32-34 | PATH_RE matches iff the text is non-empty and does not end in `/`; the capture is the slash-free tail after the last `/` |
| Patterns.LastSegmentOf | src/title_parser.rs:32-34 | `dir/name` captures `name` |
| Patterns.LastSegmentNoSlash | src/title_parser.rs:32-34 | a slash-free text captures itself |
| TitleParser.Truncate | src/title_parser.rs:273-280 | short strings are kept; longer ones become exactly `max_len` characters, an ellipsis included |
| TitleParser.TruncateIdempotent | src/title_parser.rs:273-280 | truncating twice to the same width is truncating once |
| TitleParser.TeamsTitle | src/title_parser.rs:41-86 | call iff the call pattern matches; chat iff only the chat pattern does; otherwise a non-empty channel name other than "Microsoft Teams" gives that channel, an empty or "Microsoft Teams" one gives the Teams app, and no channel match gives the title as an app; each with its display |
| TitleParser.TeamsWithoutPipe | src/title_parser.rs:80-85 | a Teams title without a pipe character that is not a call falls back to the app entry |
| TitleParser.ChatNeedsPipe | src/title_parser.rs:24-26 | the chat pattern cannot match a title without a pipe character |
| TitleParser.TerminalCleaned | src/title_parser.rs:90-94 | the cleaned terminal title neither starts nor ends with whitespace |
| TitleParser.HostPath | src/title_parser.rs:110-112 | a title with `@` and `:` yields the trimmed text after its first `:` |
| TitleParser.SecondWord | src/title_parser.rs:126 | non-empty iff the title has at least two words; then it is the whole word that starts after exactly one earlier word |
| TitleParser.TerminalOf | src/title_parser.rs:97-142 | folder for path-like titles (their last segment), else for `user@host: path` titles (the path's last segment); else file for `vim`/`nvim` titles (the file's base name); else terminal; a folder or file context is a non-empty slash-free last segment |
| TitleParser.TerminalTitle | src/title_parser.rs:89-143 | the terminal fallback's context is the cleaned title |
| TitleParser.BrowserCleaned | src/title_parser.rs:147-155 | the cleaned browser title neither starts nor ends with whitespace |
| TitleParser.VideoTitle | src/title_parser.rs:163-168 | the video title is no longer than the cleaned title and is trimmed |
| TitleParser.SiteOf | src/title_parser.rs:161-221 | the site family is the first one, in the parser's order, whose marker occurs in the lowercased title; each family holds iff its markers occur and no earlier family's do |
| TitleParser.GmailIsMail | src/title_parser.rs:203 | the `gmail` test is subsumed by the `mail` test |
| TitleParser.BrowserTitle | src/title_parser.rs:146-246 | each site family gets its context type, context and display; the generic case uses BROWSER_SITE_RE's page and site |
| TitleParser.BrowserIgnoresBraveSuffix | src/title_parser.rs:150-151 | appending " - Brave" to a title changes nothing |
| TitleParser.ParseTitle | src/title_parser.rs:249-270 | the lowercased category picks the parser; communication goes to Teams only when the app name contains "teams" |
| TitleParser.ParseTitleIgnoresCase | src/title_parser.rs:249-252 | the choice ignores the case of the category and the app name |
| TitleParser.ContextTypeNonEmpty | src/title_parser.rs:249-270 | the context type is never empty for a non-empty category |
| TitleScenarios.ChatShape | src/title_parser.rs:24-26 | a title made of the prefix `(2) Chat`, a pipe, a plain name, a pipe and `Microsoft Teams` is a chat with that name shown whole |
| TitleScenarios.CallShape | src/title_parser.rs:20-22 | a title made of `Call with`, a plain name, a pipe and `Microsoft Teams` is a call with that name shown whole |
| TitleScenarios.ChatTest | src/title_parser.rs:286-292 | the chat test title gives context type "chat" and a display containing the name |
| TitleScenarios.CallTest | src/title_parser.rs:294-300 | the call test title gives context type "call" and a display containing the name |
| TitleScenarios.MarkerStripped | src/title_parser.rs:90-94 | a leading ✱ * ● ○ ◉ glyph and the space after it are stripped: the cleaned title is the rest |
| TitleParser.TerminalCleanedSlice | src/title_parser.rs:90-94 | the cleaned title is a contiguous slice of the title: only whitespace and marker glyphs precede it and only whitespace follows it |
| TitleScenarios.TerminalPathShape | src/title_parser.rs:97-106 | a path-like title names its last folder |
| TitleScenarios.TerminalTest | src/title_parser.rs:302-308 | `~/Projects/Office/FlowMode` is the folder "FlowMode" |
| TitleScenarios.HostPathShape | src/title_parser.rs:110-121 | `login: dir/folder` with `@` in the login names the folder |
| TitleScenarios.EditorShape | src/title_parser.rs:125-134 | `vim <file>` is an editing entry for the file |
| TitleScenarios.YouTubeVideo | src/title_parser.rs:163-168 | the video title of `<name> - YouTube` is `<name> -` |
| TitleScenarios.YouTubeShape | src/title_parser.rs:146-181 | `<name> - YouTube - Brave` is a video shown as `YT: <name> -` |
| TitleScenarios.YouTubeTest | src/title_parser.rs:310-316 | the YouTube test title is a video whose display starts with "YT:" |
| Pomodoro.StateName | src/pomodoro.rs:29-37 | `as_str` gives every state a non-empty name |
| Pomodoro.StateNameInjective | src/pomodoro.rs:30-38 | different states have different names, so `as_str` (Pomodoro.StateName) identifies the state |
| Pomodoro.WithDurations | src/pomodoro.rs:73-85 | an idle timer with a full work session on the clock, durations in seconds |
| Pomodoro.New | src/pomodoro.rs:58-70 | 25-minute work, 5- and 15-minute breaks, idle |
| Pomodoro.StartWork | src/pomodoro.rs:88-93 | working with a full work session; nothing else changes |
| Pomodoro.Completed32 | src/pomodoro.rs:98-99 | the count read through `as u32` is below 2^32 and equals the count when that fits |
| Pomodoro.StartBreak | src/pomodoro.rs:96-108 | long break iff it is due, else short break, with the matching duration; nothing else changes |
| Pomodoro.Pause | src/pomodoro.rs:111-117 | a running session pauses and remembers its state; otherwise nothing changes |
| Pomodoro.Resume | src/pomodoro.rs:120-126 | only a paused timer returns to its remembered state |
| Pomodoro.Reset | src/pomodoro.rs:129-135 | idle, a full work session, no pomodoros; durations kept |
| Pomodoro.Skip | src/pomodoro.rs:138-150 | work goes to a break and a break to work, without counting a pomodoro; idle and paused do nothing |
| Pomodoro.Tick | src/pomodoro.rs:154-180 | as written: a running session with time left loses a second; one at zero completes and starts the next session |
| Pomodoro.CountDown | src/pomodoro.rs:161-165 | `k` ticks of a running session with at least `k` seconds left subtract `k` |
| Pomodoro.TicksAdd | src/pomodoro.rs:154-180 | ticking `a + b` times is ticking `a` then `b` times |
| Pomodoro.WorkCompletesAfterExtraTick | src/pomodoro.rs:154-180 | as written, a `d`-second session sits at zero after `d` ticks and completes on tick `d + 1` |
| Pomodoro.OneMinuteTestAsWritten | src/pomodoro.rs:268-281 | as written, after 60 ticks of a one-minute session the timer is still working with no pomodoro counted |
| Pomodoro.TickFixed | src/pomodoro.rs:154-180 | corrected: the tick that takes the last second completes the session |
| Pomodoro.CountDownFixed | src/pomodoro.rs:161-165 | `k` corrected ticks with more than `k` seconds left subtract `k` |
| Pomodoro.TicksFixedAdd | src/pomodoro.rs:154-180 | corrected ticking composes |
| Pomodoro.WorkCompletesOnTime | src/pomodoro.rs:268-281 | corrected: a `d`-second session completes on tick `d` and counts one pomodoro |
| Pomodoro.OneMinuteTestFixed | src/pomodoro.rs:268-281 | corrected: after 60 ticks of a one-minute session the timer is on a short break with one pomodoro |
| Pomodoro.Pad2 | src/pomodoro.rs:212 | `{:02}` gives at least two digits, exactly two below 100, reading back as the number |
| Pomodoro.FormatRemaining | src/pomodoro.rs:208-213 | `MM:SS` reads back as the remaining seconds, with the seconds part below 60 |
| Pomodoro.FormatRemainingInjective | src/pomodoro.rs:208-213 | different remaining times never show the same clock |
| Pomodoro.TrayStatus | src/pomodoro.rs:216-225 | nothing iff idle; otherwise a separator, the `MM:SS` clock and the state's tag: W working, B short break, LB long break, P paused |
| Pomodoro.TrayStatusReadBack | src/pomodoro.rs:216-225 | two timers with the same tray text are in the same state with the same time left |
| Pomodoro.Longest | src/pomodoro.rs:51-53 | the largest of the three durations |
| Pomodoro.Apply | src/pomodoro.rs:88-180 | `TickOp` is the tick as written and `TickFixedOp` the corrected one; no operation changes the durations; only reset and the two ticks change the count |
| Pomodoro.ApplyKeepsWf | src/pomodoro.rs:88-180 | every operation, the as-written tick and the corrected tick included, keeps the invariant: a paused timer remembers a running state and the clock never exceeds the longest duration |
| Pomodoro.RunKeepsWf | src/pomodoro.rs:88-180 | any sequence of operations, mixing either tick, keeps the invariant |
| Pomodoro.NewIsWf | src/pomodoro.rs:73-85 | a new timer satisfies the invariant |
| Pomodoro.PauseResume | src/pomodoro.rs:111-126 | resume undoes pause, and pausing twice is pausing once |
| Pomodoro.PauseResumeTest | src/pomodoro.rs:255-265 | after start, pause then resume the timer is working again |
| Pomodoro.LongBreakEveryFourth | src/pomodoro.rs:98-99 | exactly every fourth completed pomodoro earns the long break |
| Tray.Hours | src/tray.rs:235 | whole hours of a non-negative count, positive iff at least 3600 s |
| Tray.Minutes | src/tray.rs:236 | minutes past the hour, in 0..59 for a non-negative count, and together with the hours they make the whole minutes |
| Tray.FormatDuration | src/tray.rs:234-243 | ends in "m"; contains "h" iff there is a whole hour; "0m" below a minute |
| Tray.FormatDurationReadBack | src/tray.rs:234-243 | for a non-negative count the text reads back as the whole minutes: only the seconds past the minute are lost |
| Tray.StatusOf | src/tray.rs:72-94 | idle wins over tracking, tracking over paused |
| Tray.IconName | src/tray.rs:72-80 | each icon name occurs exactly in its state |
| Tray.Title | src/tray.rs:82-94 | a glyph per state, a space, and the shared time text or "0m" |
| Tray.IconAgreesWithTitle | src/tray.rs:72-94 | two flag settings give the same icon iff they give the same title |
| Tui.Index | src/tui.rs:34-40 | tab indices are below 3 |
| Tui.FromIndex | src/tui.rs:42-49 | inverts the index; indices past the last tab give Summary |
| Tui.IndexRoundTrip | src/tui.rs:34-49 | tabs and indices correspond one to one |
| Tui.TabCycle | src/tui.rs:51-57 | `Tab::next` (Tui.Next) goes Summary, Detailed, Timeline and back; `Tab::prev` (Tui.Prev) goes the other way |
| Tui.NextPrevInverse | src/tui.rs:51-57 | next and prev undo each other |
| Tui.NextThrice | src/tui.rs:51-53 | three steps right come full circle |
| Tui.PrevThrice | src/tui.rs:55-57 | three steps left come full circle |
| Tui.StepsMove | src/tui.rs:51-57 | no step stays on the same tab |
| Tui.HandleKey | src/tui.rs:117-143 | quits iff a press of 'q' or Esc; Tab/Right and BackTab/Left switch tab and scroll to the top; Down/'j' and Up/'k' scroll by one; releases and unlisted keys change nothing |
| Tui.ScrollDown | src/tui.rs:133-135 | `saturating_add(1)` on usize |
| Tui.ScrollUp | src/tui.rs:136-138 | `saturating_sub(1)` |
| Tui.ScrollDownUp | src/tui.rs:133-138 | up undoes down below the cap, and down undoes up above zero |
| Tui.NumberKeys | src/tui.rs:122-124 | 1, 2, 3 pick a tab and keep the scroll; unlisted keys change nothing |
| Tui.TabBackTab | src/tui.rs:125-132 | Tab then BackTab returns to the same tab, scrolled to the top |
| Tui.Keys | src/tui.rs:117-143 | a key sequence keeps the scroll offset within usize |
| Tui.NoQuitNoExit | src/tui.rs:121 | no key event other than a press of 'q' or Esc ends the loop |
| Web.SpaPath | src/web.rs:165-173 | empty or dot-less paths serve index.html; otherwise the path without leading slashes |
| Web.SpaPathIdempotent | src/web.rs:165-173 | choosing the asset for a chosen asset changes nothing |
| Web.SpaPathLeadingSlash | src/web.rs:165-173 | an extra leading slash does not change the asset served |
| Web.LastFor | src/web.rs:309-315 | a row for the hour with no later row for it, `None` iff there is none |
| Web.HourlyFill | src/web.rs:305-315 | 24 entries in hour order; each holds the last row for its hour, with total = active + passive, or zeros |
| Web.LateRowIgnored | src/web.rs:310 | rows for hours past 23 change nothing |
| Web.RunSplit | src/web.rs:389-400 | run sums split at any midpoint |
| Web.WithinCurrentRun | src/web.rs:389-400 | a focused run ending inside the current run sums to no more than it |
| Web.SecsAt | src/web.rs:392 | `unwrap_or(0)`: 0 when no row has that hour |
| Web.SecsAtFirstMatch | src/web.rs:392 | `find(..)`: when some row has the hour, the total of the first such row |
| Web.RunsBoundedAtBreak | src/web.rs:395-398 | when an hour at or under 300 s ends the current run, every run ending by then sums to no more than the larger of the best so far and the run just closed |
| Web.RunsBoundedAtEnd | src/web.rs:399 | after the last hour, every run sums to no more than the final best |
| Web.FocusStreakSecs | src/web.rs:388-400 | the largest sum over runs of consecutive hours above 300 s: it bounds every run and is attained |
| Web.FocusStreakMins | src/web.rs:407 | the longest run's whole minutes, bounding and attained |
| Web.LeadingLong | src/web.rs:457-465 | the count of leading days over ten hours, stopping at the first shorter day |
| Web.ConsecutiveLongDays | src/web.rs:457-465 | counts the long days among the first seven entries of the history (one per day with activity, most recent first), and stops at the first short one |
| Web.ConsecutiveIgnoresOlderDays | src/web.rs:459 | history entries past the first seven do not matter |
| Web.WeeklySecs | src/web.rs:453 | with no negative entry, each of the first seven history entries is at most the weekly total |
| Web.WeeklySecsIgnoresOlderDays | src/web.rs:453 | entries past the first seven do not change the weekly total |
| Web.WeeklyHours | src/web.rs:453-454 | the weekly hours cast to u32: 0 for no time, saturating at u32::MAX, otherwise the whole hours |
| Web.LevelNameInjective | src/web.rs:488-505 | the four level strings are distinct, so the reported string determines the level |
| Web.BurnoutLevel | src/web.rs:488-505 | critical iff over 60 h or five long days; high, medium, low by the following guards |
| Web.BurnoutMonotone | src/web.rs:488-505 | more hours or more long days never lower the level |
| Web.Burnout | src/web.rs:438-505 | "unknown" and 0 when storage fails; otherwise the count is the leading long days of the first seven history entries, and the level is the one the guard cascade gives for the weekly hours and that count, each level an iff |
| Web.FiveLongDaysCritical | src/web.rs:489 | five long days in a row are critical whatever the weekly total |

## Left out

- SQLite itself: errors, the `?` propagation that would stop the daemon, and the connection. A failed `get_active_session` is treated as "a new session is needed", but the model has no failing storage.
- Timestamps are integer epoch seconds. RFC 3339 text, `julianday`, time zones and DST are not modelled, and the day window is `[dayStart, dayStart + 86400)`. `get_active_session` orders RFC 3339 strings, which the model orders as numbers.
- Lowercasing is ASCII-only, where Rust's `to_lowercase` is full Unicode.
- The regex crate is not used. The five patterns are hand-coded matchers with leftmost-first semantics.
- Concurrency (`tokio::select!`, the locks, the atomics and the channel) is modelled as one event at a time. The tray stores its pause/resume flag and then sends a command; these are two separate events, `SetTracking` and `PauseCommand`/`ResumeCommand`.
- Spawning processes (`flowmode dashboard`, `xdotool`, `xprop`, `xprintidle`) is left out: each program's outcome is an input.
- Pomodoro's `last_tick` is written but never read, and `enabled` is a flag nothing consults; neither is modelled.
- Pomodoro.Completed32: `completed_pomodoros` is an unbounded count. The u64 wrap-around of `fetch_add` and of `work_mins * 60` cannot happen in practice and is not modelled.
- Drawing the tray, the dashboard and the web pages (ksni, ratatui, axum) is not modelled. Menu labels, the tooltip, JSON encoding and the embedded asset lookup are left out too.
- Loading and saving the configuration file and the directory paths are left out, as are `get_week_summary`, `get_history_days` and the `get_today_summary` wrapper.
- The web statistics computed in floating point (`active_percent`, the trend direction), `best_hour`, `most_used_app` and the burnout recommendation strings are not modelled.
- The dashboard's truncation of long titles for display is a rendering detail and is not modelled.
- Web.WeeklyHours: for totals below 2^32 hours the float quotient truncates to the whole hours; beyond that the cast saturates. Rounding of `f64` for totals above 2^53 seconds is not modelled.
- Storage.ActiveSession: among several open rows with the same start, SQL does not say which one it returns; the model picks the last in table order, and its contract states only that the result is an open row with the latest start.
- StorageQueries.DetailOf: SQLite reports a bare `category` column from an unspecified row of the group; the model takes the group's first row and states only that the category comes from some row of the group.
- Integer overflow of `i64` sums in the queries is not modelled.
- Web.ConsecutiveLongDays: the history has one entry per day with activity (`src/storage.rs:418-423` groups by day), so its first seven entries can span up to fifteen calendar days, and a day with no activity does not break the run. The model takes the entries as given and does not see calendar gaps; the same holds for the seven entries `WeeklySecs` sums.
- Terminal I/O errors that end the dashboard loop through `?` (`src/tui.rs:112-118`) are not modelled; Tui.NoQuitNoExit speaks only of key events.
- Patterns.SkipDigits: `\d` is read as the ASCII digits 0-9, where the regex crate's `\d` is Unicode `\p{Nd}`. A counter written in other digits, as in `(٣) Chat | X | Microsoft Teams`, is not skipped, so the model reports the channel `(٣) Chat | X` where the source reports a chat with `X`.
- Daemon.DaemonLifetime: the daemon is taken to be the only writer of the database. `flowmode reset` (`src/main.rs:93-94`, `src/main.rs:344-351`, `src/storage.rs:366-377`) can delete today's rows, including the open one, and a second `flowmode start` closes open rows (`src/main.rs:114`); either breaks "the open row is the remembered session" and is not modelled.

## Findings

| source | as written | input that shows it | evidently intended | confidence | as-written member | corrected member |
|---|---|---|---|---|---|---|
| src/pomodoro.rs:154-180 | `tick` counts down to 0 and completes the session only on the following tick, so a `d`-second session takes `d + 1` ticks | `with_durations(1, 1, 1)`, `start_work`, 60 ticks: the timer is still working at 00:00 with 0 pomodoros, while the test at src/pomodoro.rs:268-281 expects a break and 1 pomodoro | the tick that takes the last second completes the session, so `d` ticks finish a `d`-second session | not executed | Pomodoro.OneMinuteTestAsWritten | Pomodoro.WorkCompletesOnTime |
