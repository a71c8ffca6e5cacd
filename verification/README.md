# scnr/ui-cli — a Dafny model of the command-line front ends

This project models the decision logic of the SCNR command-line interface,
a Ruby program. It does not model the network, the terminal or the engine. The parts covered are:

- **Output** (`lib/scnr/ui/cli/output.rb`): the four output switches
  (debug level, verbose, mute, only-positives), which `print_*` call emits
  what, the `print_color` line format, and the error log buffer with its
  once-per-process header and credential masking.
- **EngineCli** (`lib/scnr/ui/cli/engine.rb`): the interactive command screen
  of the local scan. This covers the "Hit:" menu, the one-line commands
  `a p r s g v d<n>` and Enter, and the capture and restore of
  only-positives around the screen.
- **Session** (`lib/scnr/ui/cli/rpc/client/instance.rb`): the client that
  drives a remote instance. This covers the progress delta protocol
  (error offset and digests already seen), the issue union and severity
  sort, the status and busy rules, the key handler, and the polling loop
  of `run` with its timeout and detach exits.
- **Reproduce** (`lib/scnr/ui/cli/reproduce.rb`): how stale issues are
  split into reproduced and missing ones, and the centred headings and
  issue lines it prints.
- **Monitor** (`agent_monitor.rb` and `dispatcher_monitor.rb`):
  `seconds_to_hms`, `proc_mem`, `proc_state`, the instance table rows and
  the statistics block with its peer lists.
- **Listing** (`scheduler/list.rb`, `queue/list.rb`): which sections are
  printed, in what order, with what headers and lines. The scheduler
  numbers its entries "[i] "; the queue does not.
- **ListOptions, GetOptions, ConnectOptions, RestoredOptions**: positional
  arguments and validation of four option parsers.
- **Console** (`bin/scnr_console.rb`): loading and saving the permanent
  IRB history.

Shared pieces:

- `Strings` holds decimal rendering and parsing, `rjust`, Ruby's
  `String#split` on one character, `join`, `chomp` and `gsub`.
- `Seqs` holds `uniq` and `|` under a key, `reverse` and the `[-n, n]`
  tail.
- `Scan` holds the scan status symbols, the issue record and the
  severity sort.
- `Wrappers` holds `Option` and `Result`. `Result` carries the error
  message and the exit status of the `exit 1` paths.

Parameters stand in for calls into code the model cannot see: the
scheduler ping, the snapshot metadata reader, the re-check of an issue,
the replies of `native_progress`, the clock ticks of the polling loop and
the point at which Ctrl+C arrives.

Places where the code's behaviour is easy to misread (the model follows the code):

- The issue sort is `sort_by(&:digest).sort_by(&:severity).reverse`.
  Ruby's `sort_by` is not stable, so equally severe issues have no fixed
  order. The model promises only non-increasing severity and a
  permutation, and never a digest tie-break.
- `RestoredEngine::OptionParser#after_parse` assigns the first positional
  argument to `options.snapshot.path`. That is the same option
  `--snapshot-save-path` sets, so the positional snapshot always replaces
  it, and with no argument it becomes `nil`.
- In `instance.rb` the gated keys use `return` inside a `Thread.new`
  block. The thread ends there, so a refused `p`, `r` or `s` is followed
  by no refresh and no redraw. The empty line calls `get_user_command` a
  second time, which arms a second reader.
- `UI::CLI::OptionParser` (the base class) is not part of this model.
  Its `validate`, reached through `super`, is treated as accepting.
  The queue's own `List::OptionParser` is not part of this model either:
  the queue listing reuses the scheduler's status switches.

## Model

| member | source | states |
|---|---|---|
| Output.Initialize | lib/scnr/ui/cli/output.rb:35-56 | every switch starts off and the error buffer starts empty; the log file is `<logs>error-<pid>.log`, and the pid can be read back from the name |
| Output.SettersTouchOneSwitch | lib/scnr/ui/cli/output.rb:314-401 | each `*_on`/`*_off`, `mute`/`unmute` and only-positives setter fixes its own switch, leaves the other three alone, and is idempotent |
| Output.DebugLevels | lib/scnr/ui/cli/output.rb:337-363 | `debug?(l)` holds iff the level is at least `l`; plain `debug_on` gives level 1 (`debug?` but not `debug?(2)`); `debug_off` clears every level from 1 up; `debug_on(l)` leaves the other switches alone |
| Output.ColorLine | lib/scnr/ui/cli/output.rb:432-436 | both forms end with a space, the message and a newline; the plain form starts with the sign |
| Output.ColorCode | lib/scnr/ui/cli/output.rb:433 | the terminal form opens with ESC "[1;" and the colour number, which reads back as the colour |
| Output.Personalize | lib/scnr/ui/cli/output.rb:410-415 | the message is kept whole at the end; a personalising class puts exactly its name and ": " in front, and otherwise the message is unchanged |
| Output.ColorLineAgree | lib/scnr/ui/cli/output.rb:424-441 | the terminal line and the plain line carry the same sign and message; only the escape codes around the sign differ |
| Output.Puts | lib/scnr/ui/cli/output.rb:300-309 | what `puts` writes always ends in a newline and starts with the string itself |
| Output.Emit | lib/scnr/ui/cli/output.rb:171-219 | a `print_*` call writes something iff its gate passes (mute without override, only-positives, verbose, debug level); a debug line carries the time stamp in front of its sign; a plain line is written as by `puts` |
| Output.PrintColor | lib/scnr/ui/cli/output.rb:424-425 | `print_color` is silent iff output is muted and the call does not override the mute |
| Output.OnlyPositivesKeepsOk | lib/scnr/ui/cli/output.rb:180-201 | under only-positives, status, info and plain lines are silent, while ok and bad lines still print unless muted |
| Output.MaskCredentials | lib/scnr/ui/cli/output.rb:139-144 | when a user name is present, both it and the password become `*****`; otherwise nothing changes |
| Output.LogError | lib/scnr/ui/cli/output.rb:124-161 | with no log file nothing changes; otherwise the header goes into the buffer on the first call only, the stamped message always comes last, and the switches and the file name are kept |
| Output.HeaderOnce | lib/scnr/ui/cli/output.rb:127-156 | a second `log_error` adds only its stamped line: the header is written once per process |
| EngineCli.Capture | lib/scnr/ui/cli/engine.rb:375-378 | the screen remembers the only-positives setting and turns only-positives off; nothing else changes |
| EngineCli.Restore | lib/scnr/ui/cli/engine.rb:380-383 | only-positives comes back on if it was captured on (it is never turned off), output is unmuted, and debug and verbose are kept |
| EngineCli.Hide | lib/scnr/ui/cli/engine.rb:369-373 | the screen is closed and the output switches are restored |
| EngineCli.Show | lib/scnr/ui/cli/engine.rb:226-232 | the screen is up and output is muted; nothing else changes |
| EngineCli.CaptureRestore | lib/scnr/ui/cli/engine.rb:375-383 | capture then restore gives back the switches as they were, unmuted |
| EngineCli.MatchDebug | lib/scnr/ui/cli/engine.rb:341-348 | `/d(\d?)/` matches iff the line contains a 'd'; the level is the digit right after the leftmost 'd', if there is one |
| EngineCli.ApplyDebug | lib/scnr/ui/cli/engine.rb:344-348 | a bare `d` toggles `debug?`, between off and level 1; `d<n>` sets level n; nothing else changes |
| EngineCli.Interpret | lib/scnr/ui/cli/engine.rb:294-361 | with the screen hidden only Enter acts; `a` aborts; `p` and `s` pause and suspend only a scanning scan; `g` reports; `v` alone flips verbose; only a non-keyword line with a 'd' changes the debug level; no line ever resumes |
| EngineCli.DebugCommand | lib/scnr/ui/cli/engine.rb:341-348 | on the screen, a non-keyword line containing 'd' closes the screen and toggles debugging or sets the digit's level, even inside a longer line |
| EngineCli.ToggleTwice | lib/scnr/ui/cli/engine.rb:351-357 | Enter opens the screen (muted, only-positives off) and Enter again closes it, leaving the switches as before but unmuted |
| EngineCli.ReportRestores | lib/scnr/ui/cli/engine.rb:330-333 | `g` closes the screen, unmutes, and leaves only-positives on iff it was on or had been captured on |
| EngineCli.VerboseTwice | lib/scnr/ui/cli/engine.rb:336-357 | `v` closes the screen, Enter reopens it without touching verbosity, and a second `v` gives verbosity back |
| EngineCli.MenuKeys | lib/scnr/ui/cli/engine.rb:252-272 | nothing is listed while suspending; otherwise a, g, v and d are always listed, Enter, p and s only while scanning, and r only while paused or pausing |
| EngineCli.MenuKeysAreOffered | lib/scnr/ui/cli/engine.rb:268-269 | a key is on the menu iff the scan is not suspending and the per-entry filter admits it (both directions) |
| EngineCli.MenuLines | lib/scnr/ui/cli/engine.rb:256-271 | one line per listed key, in order: `'<key>' to <action>.` |
| EngineCli.VerboseEntryHonest | lib/scnr/ui/cli/engine.rb:263 | the `v` entry says "enable" exactly when typing `v` turns verbose messages on |
| EngineCli.ResumeNeverIssued | lib/scnr/ui/cli/engine.rb:320-322 | `r` is offered for a paused or pausing scan, yet the guard as written turns it away in both states |
| EngineCli.InterpretCorrected | lib/scnr/ui/cli/engine.rb:320-322 | with the guard the menu advertises, `r` resumes iff the scan is paused or pausing; every other line is handled as before |
| EngineCli.OfferedCommandsReachScan | lib/scnr/ui/cli/engine.rb:268-333 | with the corrected guard, every scan command the menu offers (p, r, a, s, g) reaches the scan |
| Session.ProgressRequest | lib/scnr/ui/cli/rpc/client/instance.rb:207-213 | the request skips exactly the error messages already counted and excludes exactly the digests already known; from a fresh session it skips none and excludes no digest |
| Session.HasErrorsIffCounted | lib/scnr/ui/cli/rpc/client/instance.rb:197-232 | `has_errors?` holds exactly when some error message has been received, and a refresh keeps it so |
| Session.ErrorLogPath | lib/scnr/ui/cli/rpc/client/instance.rb:226-228 | the log name is the URL with every ':' made '_', followed by `.error.log`; it holds no ':' |
| Session.MergeIssues | lib/scnr/ui/cli/rpc/client/instance.rb:218-220 | the union of held and arrived issues, then sorted: a permutation of that union, non-increasing in severity, with no key twice; every arrived key is present, nothing else is, and a duplicate-free held list is kept whole |
| Session.MergeCoversArrived | lib/scnr/ui/cli/rpc/client/instance.rb:218 | every arrived issue's key is present after the union |
| Session.MergeFromSources | lib/scnr/ui/cli/rpc/client/instance.rb:218 | every issue after the union was held or arrived |
| Session.MergeKeepsHeld | lib/scnr/ui/cli/rpc/client/instance.rb:218 | a duplicate-free held list survives the union whole |
| Session.MergeDigests | lib/scnr/ui/cli/rpc/client/instance.rb:224 | the union of held and arrived digests: exactly those digests, none twice, and a duplicate-free held list stays in front |
| Session.Refresh | lib/scnr/ui/cli/rpc/client/instance.rb:205-237 | a `nil` reply changes nothing; otherwise the snapshot is stored, issues and digests are merged, the error count grows by the errors received, and the log is named only when errors arrived |
| Session.RefreshValid | lib/scnr/ui/cli/rpc/client/instance.rb:205-237 | a refresh keeps the session invariant (issues sorted and duplicate-free, digests duplicate-free and covering the issues) and never loses an issue |
| Session.RequestAfterRefresh | lib/scnr/ui/cli/rpc/client/instance.rb:207-232 | the next request skips every error received so far; its excluded digests extend the previous ones, hold no repeats and cover every issue just received |
| Session.RefreshTwice | lib/scnr/ui/cli/rpc/client/instance.rb:218-224 | absorbing the same reply twice leaves the same issues (as a multiset) and the same digests |
| Session.MergeIssuesAgain | lib/scnr/ui/cli/rpc/client/instance.rb:218-220 | merging arrivals that are already in gives back the same issues as a multiset |
| Session.MergeDigestsAgain | lib/scnr/ui/cli/rpc/client/instance.rb:224 | merging digests that are already in changes nothing |
| Session.AbsorbAllTracks | lib/scnr/ui/cli/rpc/client/instance.rb:205-237 | over any run of replies the error count equals the errors received and a digest is held iff it was held or some reply reported it |
| Session.Status | lib/scnr/ui/cli/rpc/client/instance.rb:324-327 | read off a session: the local abort flag wins, otherwise the held snapshot's status; nothing when there is neither |
| Session.StatusNow | lib/scnr/ui/cli/rpc/client/instance.rb:201-203 | `status` through `progress`: the abort flag answers without a fetch, a held snapshot answers without a fetch, and otherwise a snapshot is fetched and absorbed; the result is the status of the session left behind, and it fails only on a `nil` reply to that fetch |
| Session.Busy | lib/scnr/ui/cli/rpc/client/instance.rb:239-241 | read off a session: busy iff not aborting and the held snapshot says busy; nothing only when there is neither a snapshot nor an abort |
| Session.BusyNow | lib/scnr/ui/cli/rpc/client/instance.rb:239-241 | `busy?` fetches as `status` does and then reads the snapshot held; never busy after `a`; it fails only on a `nil` reply to the fetch |
| Session.AbortIsFinal | lib/scnr/ui/cli/rpc/client/instance.rb:324-327 | once `a` was typed no reply brings the session back: it stays aborting and not busy |
| Session.HandleLine | lib/scnr/ui/cli/rpc/client/instance.rb:156-194 | `p` and `s` reach the instance only while scanning and `r` only while paused; `g` reports; `a` only sets the local flag; a refused key ends the thread with no refresh; Enter arms two readers |
| Session.React | lib/scnr/ui/cli/rpc/client/instance.rb:165-166 | a reaction sets the abort flag iff it asks to, and leaves the issues, digests, snapshot and error log alone |
| Session.AbortKeyIsLocal | lib/scnr/ui/cli/rpc/client/instance.rb:165-166 | `a` sends nothing to the instance, yet from then on the session reports aborting and not busy |
| Session.MenuKeys | lib/scnr/ui/cli/rpc/client/instance.rb:118-134 | nothing is listed while suspending or aborting; otherwise a and g are always listed, Enter, p and s only while scanning, and r while paused or pausing |
| Session.MenuKeysAreOffered | lib/scnr/ui/cli/rpc/client/instance.rb:130-131 | a key is listed iff the per-entry rules admit it (both directions) |
| Session.MenuLines | lib/scnr/ui/cli/rpc/client/instance.rb:122-133 | one `'<key>' to <action>.` line per listed key, in order |
| Session.ResumeOfferedButIgnored | lib/scnr/ui/cli/rpc/client/instance.rb:175-177 | `r` is listed for a pausing scan, but the handler sends nothing and its thread ends without a refresh |
| Session.HandleLineCorrected | lib/scnr/ui/cli/rpc/client/instance.rb:175-177 | with the gate the menu advertises, `r` resumes iff the scan is paused or pausing; every other line is handled as before |
| Session.OfferedKeysAreHonoured | lib/scnr/ui/cli/rpc/client/instance.rb:129-186 | with the corrected gate, every listed key other than Enter reaches the instance or sets the abort flag |
| Session.PollLoop | lib/scnr/ui/cli/rpc/client/instance.rb:73-82 | the loop ends finished only when not busy, timed out only at or past the deadline, detached only at the interrupt; it keeps the invariant and loses no issue |
| Session.PollStep | lib/scnr/ui/cli/rpc/client/instance.rb:73-82 | one pass with a snapshot held never crashes and has the same exit guarantees as the loop |
| Session.Run | lib/scnr/ui/cli/rpc/client/instance.rb:59-94 | the scan is started iff the instance is ready; report-and-shutdown runs unless the user detached; the timeout message appears iff the deadline passed |
| Scan.Digests | lib/scnr/ui/cli/rpc/client/instance.rb:224 | one digest per issue, in order |
| Scan.Insert | lib/scnr/ui/cli/rpc/client/instance.rb:220 | inserting into a severity-sorted list keeps it sorted and adds exactly that issue |
| Scan.SortBySeverity | lib/scnr/ui/cli/rpc/client/instance.rb:220 | the result is a permutation with non-increasing severity |
| Scan.InsertKeyDistinct | lib/scnr/ui/cli/rpc/client/instance.rb:218-220 | inserting an issue whose key is new keeps the keys distinct |
| Scan.SortKeyDistinct | lib/scnr/ui/cli/rpc/client/instance.rb:218-220 | sorting a duplicate-free union keeps it duplicate-free |
| Seqs.UniqBy | lib/scnr/ui/cli/rpc/client/scheduler/get/option_parser.rb:55 | `uniq` under a key: no key twice, nothing new, every input key kept |
| Seqs.UniqByFirst | lib/scnr/ui/cli/rpc/client/scheduler/get/option_parser.rb:55 | `uniq` keeps each element's first occurrence, and the survivors are in order of first appearance |
| Seqs.UniqByDistinct | lib/scnr/ui/cli/rpc/client/scheduler/get/option_parser.rb:55 | on a list with no repeats `uniq` changes nothing |
| Seqs.UniqByPrefix | lib/scnr/ui/cli/rpc/client/instance.rb:218 | deduplicating `a + b` gives the deduplicated `a` followed by more |
| Seqs.UnionKeepsLeft | lib/scnr/ui/cli/rpc/client/instance.rb:218 | the union of a duplicate-free `a` with `b` starts with `a` |
| Seqs.UnionAbsorbed | lib/scnr/ui/cli/rpc/client/instance.rb:218 | the union of a duplicate-free `a` with `b` is `a` itself when every key of `b` is already in `a` |
| Seqs.Reverse | bin/scnr_console.rb:39 | element i of the result is element n-1-i of the input |
| Seqs.LastAtMost | bin/scnr_console.rb:40 | `lines[-n, n]` when longer than n: the last n elements; otherwise all of them |
| Strings.ParseNatToString | lib/scnr/ui/cli/rpc/client/agent_monitor.rb:145 | `to_s` of a non-negative integer reads back as the same number |
| Strings.ParseNatRJust | lib/scnr/ui/cli/rpc/client/agent_monitor.rb:145 | `rjust(w, '0')` keeps the value of a digit string |
| Strings.RJust | lib/scnr/ui/cli/rpc/client/agent_monitor.rb:145 | padded to the width on the left with the pad character; the string itself ends the result |
| Strings.FieldsJoin | lib/scnr/ui/cli/rpc/client/connect/option_parser.rb:49 | splitting a join of separator-free parts gives the parts back |
| Strings.JoinFields | lib/scnr/ui/cli/rpc/client/connect/option_parser.rb:49 | joining the fields of a string with the separator gives the string back |
| Strings.FieldsAppend | lib/scnr/ui/cli/rpc/client/connect/option_parser.rb:49 | a string up to the first separator is the first field |
| Strings.DropTrailingEmpty | lib/scnr/ui/cli/rpc/client/connect/option_parser.rb:49 | `split` drops trailing empty fields and nothing else: a prefix whose last piece is non-empty |
| Strings.Split | lib/scnr/ui/cli/rpc/client/connect/option_parser.rb:49 | `split`: no piece holds the separator, the last piece is never empty, the pieces are the leading fields of the string and every field dropped is empty, "" gives no piece and a string without the separator gives itself |
| Strings.JoinShape | bin/scnr_console.rb:41 | `join` starts with the first part and ends with the last, and adds one separator between neighbours |
| Strings.IntToString | lib/scnr/ui/cli/engine.rb:266 | `to_s`: a leading '-' exactly for a negative number, and the digits read back as its magnitude |
| Strings.Chomp | bin/scnr_console.rb:35 | `chomp` removes one "\n", "\r\n" or "\r" at the end and changes the line iff it ends in one |
| Strings.ReplaceChar | lib/scnr/ui/cli/rpc/client/instance.rb:227 | `gsub` of one character: the same length, with every `from` made `to` and every other character kept |
| Reproduce.Marks | lib/scnr/ui/cli/reproduce.rb:208-213 | no marks for a string of 120 characters or more; otherwise half of the remaining width, rounded down |
| Reproduce.Heading | lib/scnr/ui/cli/reproduce.rb:208-216 | the string centred between equal runs of the mark, each run set off by a space; a short heading is 121 or 122 characters wide |
| Reproduce.HeadingSymmetric | lib/scnr/ui/cli/reproduce.rb:215 | a heading reads the same from both ends up to the string |
| Reproduce.H1 | lib/scnr/ui/cli/reproduce.rb:218-220 | an '=' heading of the given kind |
| Reproduce.H2 | lib/scnr/ui/cli/reproduce.rb:222-224 | a '-' heading of the given kind |
| Reproduce.H3 | lib/scnr/ui/cli/reproduce.rb:226-228 | a '.' heading of the given kind |
| Reproduce.IssueSource | lib/scnr/ui/cli/reproduce.rb:42 | the issues given on the command line when there are any, otherwise the report's |
| Reproduce.Partition | lib/scnr/ui/cli/reproduce.rb:51-68 | the loop puts each issue's fresh copy in reproduced or the stale issue in missing, so the sizes add up to the number of issues |
| Reproduce.PartitionMembers | lib/scnr/ui/cli/reproduce.rb:53-65 | an issue is missing iff it is in the input and fails to re-check; every reproduced issue is the re-check of an input issue, and every successful re-check is kept |
| Reproduce.MissingKeepsOrder | lib/scnr/ui/cli/reproduce.rb:53-65 | missing issues keep their input order |
| Reproduce.MissingPrefix | lib/scnr/ui/cli/reproduce.rb:53-65 | the missing list of a prefix of the input is a prefix of the whole missing list |
| Reproduce.EscapeChar | lib/scnr/ui/cli/reproduce.rb:178 | `inspect` writes each character as itself or as a backslash escape that stands for it; `"` and `\` are always escaped, and `#` exactly when `{`, `$` or `@` follows |
| Reproduce.UnescapeEscape | lib/scnr/ui/cli/reproduce.rb:178 | escaping loses nothing: the escaped text reads back as the string |
| Reproduce.Inspect | lib/scnr/ui/cli/reproduce.rb:178 | `inspect` puts double quotes around the escaped text, and what is between them reads back as the input name |
| Reproduce.Counter | lib/scnr/ui/cli/reproduce.rb:176 | the "(index/total) " counter: the index's digits after "(", then "/", the total's digits and ") " |
| Reproduce.CounterReadBack | lib/scnr/ui/cli/reproduce.rb:176 | the counter's two numbers read back as the index and the total |
| Reproduce.HeadingTitle | lib/scnr/ui/cli/reproduce.rb:176-178 | the title starts with the counter; without an input name it is the counter followed by `print_issue`'s "[digest] name in type" line, less that line's trailing space |
| Reproduce.HeadingTitleInput | lib/scnr/ui/cli/reproduce.rb:177-178 | an input name only appends " input " and the name's `inspect` to the title |
| Reproduce.IssueHeading | lib/scnr/ui/cli/reproduce.rb:175-188 | '=' info headings: the title, "From: " and the referring page's URL, "At: " and the page's URL, and "Using: " and the input value only for an active issue; then one blank line |
| Reproduce.RunTitles | lib/scnr/ui/cli/reproduce.rb:53-54 | heading i of a run is numbered i + 1 out of the number of issues |
| Reproduce.IssueLine | lib/scnr/ui/cli/reproduce.rb:190-196 | the line starts "[digest] " and ends in a space; it names the input as `input '<name>' ` when there is one |
| Reproduce.IssueLineInput | lib/scnr/ui/cli/reproduce.rb:194-196 | naming the input only appends the input part to the line |
| Reproduce.Summary | lib/scnr/ui/cli/reproduce.rb:72-92 | the "Reproduced n" and "Missing m" headings carry the partition's counts; "No issues were successfully replayed." appears iff none were, and "All issues were successfully replayed." iff none is missing |
| Monitor.Hms | lib/scnr/ui/cli/rpc/client/agent_monitor.rb:145 | under Ruby's flooring division, a non-negative duration gives hours, minutes below 60 and seconds below 60 that add back up to it |
| Monitor.Pad2 | lib/scnr/ui/cli/rpc/client/agent_monitor.rb:145 | a field is at least two characters wide and, for a non-negative number, reads back as the number |
| Monitor.SecondsToHms | lib/scnr/ui/cli/rpc/client/agent_monitor.rb:143-146 | the display is at least 8 characters long |
| Monitor.HmsFields | lib/scnr/ui/cli/rpc/client/agent_monitor.rb:145 | a non-negative duration splits at ':' into the three padded fields |
| Monitor.MinutesSecondsWidth | lib/scnr/ui/cli/rpc/client/agent_monitor.rb:145 | three fields; minutes and seconds are exactly two characters wide |
| Monitor.HmsRoundTrip | lib/scnr/ui/cli/rpc/client/agent_monitor.rb:143-146 | reading the three fields back gives the number of seconds: the display loses nothing |
| Monitor.HoursUncapped | lib/scnr/ui/cli/rpc/client/agent_monitor.rb:145 | from 100 hours on, the hours field is wider than two characters |
| Monitor.ProcMem | lib/scnr/ui/cli/rpc/client/agent_monitor.rb:124-127 | the text is the page count divided by 256 (Ruby's floor division), followed by "MB" |
| Monitor.ProcMemBounds | lib/scnr/ui/cli/rpc/client/agent_monitor.rb:126 | the number shown is the size in 4096-byte pages, rounded down to whole mebibytes |
| Monitor.ProcState | lib/scnr/ui/cli/rpc/client/agent_monitor.rb:129-141 | a label exactly for S, D, Z, T and W, and `nil` for anything else |
| Monitor.ProcStateDistinct | lib/scnr/ui/cli/rpc/client/agent_monitor.rb:129-141 | different letters get different labels |
| Monitor.InstanceRows | lib/scnr/ui/cli/rpc/client/agent_monitor.rb:84-100 | no table for no instances; otherwise one six-column row per instance, with `url/token` second and the age rendered by `seconds_to_hms` last |
| Monitor.PeerSection | lib/scnr/ui/cli/rpc/client/agent_monitor.rb:109-114 | an empty list prints nothing; otherwise the title, then one "* peer" line per peer in order |
| Monitor.Stats | lib/scnr/ui/cli/rpc/client/agent_monitor.rb:102-122 | the two counts, a blank line, then the peer sections; the first section shown decides the fourth line |
| Monitor.AgentStats | lib/scnr/ui/cli/rpc/client/agent_monitor.rb:102-122 | the agent titles its lists "Neighbours:" and "Unreachable peers:" |
| Monitor.DispatcherStats | lib/scnr/ui/cli/rpc/client/dispatcher_monitor.rb:95-115 | the dispatcher titles its lists "Neighbours:" and "Unreachable neighbours:" |
| Monitor.SectionsGated | lib/scnr/ui/cli/rpc/client/agent_monitor.rb:109-121 | each list's title is printed iff that list is non-empty |
| Listing.Select | lib/scnr/ui/cli/rpc/client/scheduler/list/option_parser.rb:33-47 | a status switch sets its own flag and leaves the others alone |
| Listing.SelectAll | lib/scnr/ui/cli/rpc/client/scheduler/list/option_parser.rb:33-47 | after the switches, a flag is set iff it was set before or its switch was given |
| Listing.ListAllIffNoneGiven | lib/scnr/ui/cli/rpc/client/scheduler/list/option_parser.rb:50-52 | `list_all?` holds iff no status switch was given |
| Listing.ShownSections | lib/scnr/ui/cli/rpc/client/scheduler/list.rb:29-46 | at least one section is printed, always in queued, running, completed, failed order |
| Listing.ShownSectionsMembers | lib/scnr/ui/cli/rpc/client/scheduler/list.rb:29-46 | a section is printed iff its flag is set or `list_all?` holds |
| Listing.Header | lib/scnr/ui/cli/rpc/client/scheduler/list.rb:60-100 | a section heading is never a plain line: queued is info, running status, completed ok and failed bad |
| Listing.HeaderCount | lib/scnr/ui/cli/rpc/client/scheduler/list.rb:60-100 | a heading is the section's title and a bracketed count that reads back as its number of entries; for the queue, the sum of the priority counts |
| Listing.QueuedTotal | lib/scnr/ui/cli/rpc/client/scheduler/list.rb:60 | the "Queued [n]" count, `q.values.flatten.size`, is the sum of the priority sizes |
| Listing.Entry | lib/scnr/ui/cli/rpc/client/scheduler/list.rb:68 | a numbered entry starts with "[" and the counter i + 1, ends with the text, and is three characters longer than both; an unnumbered entry is the text |
| Listing.EntryCounter | lib/scnr/ui/cli/rpc/client/scheduler/list.rb:67-69 | the counter of entry i reads back as i + 1 |
| Listing.IdLines | lib/scnr/ui/cli/rpc/client/scheduler/list.rb:67-69 | one line per id, in order: numbered for the scheduler, "* id" for the queue |
| Listing.PriorityTitle | lib/scnr/ui/cli/rpc/client/scheduler/list.rb:64 | "Priority: " then the priority, " [", the count and "]" |
| Listing.PriorityCount | lib/scnr/ui/cli/rpc/client/scheduler/list.rb:64 | the bracketed count of a priority title reads back as the number of ids at that priority |
| Listing.PriorityBlock | lib/scnr/ui/cli/rpc/client/scheduler/list.rb:63-72 | one priority prints its title, a blank line, its id lines in order and a blank line |
| Listing.PriorityLines | lib/scnr/ui/cli/rpc/client/scheduler/list.rb:63-72 | the priorities' blocks take 3 lines per priority plus one per id |
| Listing.PriorityBlockAt | lib/scnr/ui/cli/rpc/client/scheduler/list.rb:63-72 | the block of priority i, in full, sits right after the blocks of the earlier priorities: 3 lines for each of them plus their ids |
| Listing.RunningLines | lib/scnr/ui/cli/rpc/client/scheduler/list.rb:81-83 | one `id: url/token` entry per running scan, in order |
| Listing.CompletedLines | lib/scnr/ui/cli/rpc/client/scheduler/list.rb:92-94 | one `id: report` entry per completed scan, in order |
| Listing.FailedLines | lib/scnr/ui/cli/rpc/client/scheduler/list.rb:103-105 | one `id: [error] description` entry per failed scan, in order |
| Listing.Block | lib/scnr/ui/cli/rpc/client/scheduler/list.rb:75-79 | a section is its header, then plain lines only |
| Listing.Render | lib/scnr/ui/cli/rpc/client/scheduler/list.rb:29-48 | the output ends with a blank line; it starts with the queued header when queued is shown and with a blank line otherwise |
| Listing.SectionsHeadings | lib/scnr/ui/cli/rpc/client/scheduler/list.rb:29-46 | the non-plain lines of the sections are exactly their headers, one per section, in order |
| Listing.RenderHeadings | lib/scnr/ui/cli/rpc/client/scheduler/list.rb:29-48 | the headers of the whole listing are exactly those of the shown sections, in order |
| ListOptions.SchedulerUrl | lib/scnr/ui/cli/rpc/client/scheduler/list/option_parser.rb:77-79 | the URL is the first argument, `nil` iff there is none |
| ListOptions.Validate | lib/scnr/ui/cli/rpc/client/scheduler/list/option_parser.rb:81-96 | accepted iff a URL is given and answers the ping; otherwise exit 1 with "Missing 'scheduler_URL'." or the two "Could not reach" lines |
| ListOptions.MissingUrlBeforePing | lib/scnr/ui/cli/rpc/client/scheduler/list/option_parser.rb:81-85 | a missing URL is reported whatever the network would answer |
| GetOptions.AfterParse | lib/scnr/ui/cli/rpc/client/scheduler/get/option_parser.rb:53-56 | the URL is the first argument; the ids are the rest without repeats, empty iff at most one argument; every given id is kept and nothing else |
| GetOptions.IdsInFirstOrder | lib/scnr/ui/cli/rpc/client/scheduler/get/option_parser.rb:55 | ids keep their first occurrence and order of first appearance |
| GetOptions.Validate | lib/scnr/ui/cli/rpc/client/scheduler/get/option_parser.rb:58-78 | the URL is checked first, then the ids, then the ping; each failure exits 1 with its own message |
| GetOptions.ParseThenValidate | lib/scnr/ui/cli/rpc/client/scheduler/get/option_parser.rb:53-78 | no arguments reports the missing URL and a lone URL the missing ids, neither consulting the network; it is accepted iff there are at least two arguments and the URL answers |
| ConnectOptions.SplitInstance | lib/scnr/ui/cli/rpc/client/connect/option_parser.rb:49 | URL and token hold no '/' and are the first and second fields; a token only comes with a URL, and is `nil` only when every field after the first is empty; an argument with no '/' is all URL, or `nil` when empty |
| ConnectOptions.AfterParse | lib/scnr/ui/cli/rpc/client/connect/option_parser.rb:47-50 | with no argument, `nil.split` ends the program with status 1; otherwise the argument is split |
| ConnectOptions.SplitRoundTrip | lib/scnr/ui/cli/rpc/client/connect/option_parser.rb:49 | `url/token` splits back into the URL and the token, and pieces after a further '/' are dropped |
| ConnectOptions.TrailingSlashDropsToken | lib/scnr/ui/cli/rpc/client/connect/option_parser.rb:49 | `host:port/` has a `nil` token |
| RestoredOptions.Apply | lib/scnr/ui/cli/restored_engine/option_parser.rb:36-40 | `--system-slots-override` sets the maximum slots to 1 |
| RestoredOptions.ApplyAll | lib/scnr/ui/cli/restored_engine/option_parser.rb:21-89 | `timeout_suspend?` and `print_metadata?` hold iff their switch was given or they were already set; the slots become 1 when overridden and are otherwise untouched |
| RestoredOptions.LastTimeoutWins | lib/scnr/ui/cli/restored_engine/option_parser.rb:25-29 | the last `--timeout` wins |
| RestoredOptions.FlagsDefaultFalse | lib/scnr/ui/cli/restored_engine/option_parser.rb:52-54 | from a fresh parser, the two flags hold exactly when their switches are given, and the slots are 1 or unset |
| RestoredOptions.AfterParse | lib/scnr/ui/cli/restored_engine/option_parser.rb:96-98 | the snapshot path is the first argument, `nil` iff there is none, replacing any `--snapshot-save-path`; nothing else changes |
| RestoredOptions.ValidateTimeout | lib/scnr/ui/cli/restored_engine/option_parser.rb:105-110 | accepted iff there is no timeout or it is positive; otherwise exit 1 with "Invalid timeout value." |
| RestoredOptions.ValidateSnapshotPath | lib/scnr/ui/cli/restored_engine/option_parser.rb:112-124 | accepted iff a path is given and its metadata reads; otherwise exit 1 with "No snapshot file provided." or the reader's message |
| RestoredOptions.Validate | lib/scnr/ui/cli/restored_engine/option_parser.rb:100-103 | accepted iff both checks pass; a bad timeout is reported first |
| RestoredOptions.TimeoutCheckedFirst | lib/scnr/ui/cli/restored_engine/option_parser.rb:100-110 | with a bad timeout the snapshot is never looked at, whatever the path or the file |
| Console.Load | bin/scnr_console.rb:35 | whatever the file holds, no loaded history line contains a line break |
| Console.Lines | bin/scnr_console.rb:35 | `readlines`: lines split at "\n", none holding a line break |
| Console.ChompAll | bin/scnr_console.rb:35 | each line is chomped, one for one |
| Console.KeepLastRef | bin/scnr_console.rb:39 | the reference rule for `reverse.uniq.reverse`: lines drawn from the history, none twice |
| Console.KeepLastRefCovers | bin/scnr_console.rb:39 | every history line survives deduplication |
| Console.KeepLastIsRef | bin/scnr_console.rb:39 | `reverse.uniq.reverse` keeps exactly the last occurrence of each line, in order |
| Console.KeepLastDistinct | bin/scnr_console.rb:39 | `reverse.uniq.reverse` keeps every history line, adds none and repeats none |
| Console.KeepLastStep | bin/scnr_console.rb:39 | peeling the oldest line: it is dropped iff it occurs again later |
| Console.LastKept | bin/scnr_console.rb:39 | the newest line always survives, as the last one |
| Console.DistinctKept | bin/scnr_console.rb:39 | a history without repeats is kept whole |
| Console.Saved | bin/scnr_console.rb:39-40 | at most 300 lines, the newest ones of the deduplicated history, and all of them when it is short enough |
| Console.SaveTextOf | bin/scnr_console.rb:39-41 | a short history of distinct lines is saved whole, joined with "\n" |
| Console.LoadJoin | bin/scnr_console.rb:35-41 | storable lines joined with "\n" read back as the same lines when the last one is not empty |
| Console.SaveAppending | bin/scnr_console.rb:41 | the append-mode save leaves the old contents as a prefix |
| Console.AppendingMergesLines | bin/scnr_console.rb:35-41 | two sessions with the append-mode save: the file reads back with the first session's last line fused to the second's first, and the old lines repeated |
| Console.SaveReplacing | bin/scnr_console.rb:41 | the replacing save writes exactly what the append-mode save adds after the old contents |
| Console.ReplacingReadsBack | bin/scnr_console.rb:38-42 | with a replacing save the file reads back as exactly the saved lines: at most 300, no repeats, the newest occurrences |

## Left out

- Threads, sleeping and terminal control (clear screen, cursor moves, `flush`) are left out. A call that the source runs on a reader thread is modelled as one synchronous step.
- The RPC clients are parameters or snapshot values: the scheduler, queue, instance, agent and dispatcher calls, `alive?`, `native_progress` and `native_report`.
- File I/O is replaced by string contents: the error log and history files, report saving and `File.size`.
- Floating point is not modelled: the utilisation percentage, report sizes in MB, the profiling statistics of `add_resource_usage_statistics` and the time difference in `print_debug`.
- `caller_location` and the backtrace printers are left out. They read the Ruby call stack.
- Output.Emit: the debug line's time stamp and caller location are a single opaque `stamp` parameter.
- The environment dump and the YAML options dump of `log_error` are opaque header strings. Only the masking of the HTTP credentials is modelled.
- `prepare_rpc_options`, `parse_cookie_jar`, `print_statistics` of the instance client and the engine's `parse_options` are left out. They only copy engine options.
- `replay_issue` of the reproducer is left out. It submits requests and prints proof, request and response text from the engine.
- The option parsers' SSL and other switches that only copy a value into the engine options are left out.
- The queue's own `List::OptionParser` and the base `UI::CLI::OptionParser` are not part of this model.
- `hms_to_seconds`, which turns `--timeout` text into seconds, is engine code. The model takes the seconds it returns.
- The `table` renderer of the monitor instance table is not part of this model. Only the rows handed to it are modelled.
- Monitor.SecondsToHms: its own contract promises only the length. The field contents are stated by HmsFields, MinutesSecondsWidth and HmsRoundTrip, for non-negative durations only. The `to_i` truncation of a fractional age happens before the model's integer argument.
- Monitor.ProcMem: `rss.to_i` of a non-numeric value is not modelled. The argument is already a number of pages.
- Issue equality for `|` and `uniq` is the engine's. The model takes it as an arbitrary key function, so every result holds for any equivalence.
- Console: `File.exists?` is taken as an existence test. A Ruby version without it would end the history set-up in the `rescue`, and that path is left out.
- Reproduce.Inspect: only the named escapes are modelled. Other non-printable characters, which `inspect` writes as `\u` or `\x` escapes, are written as themselves.
- Reproduce.Summary: the `print_issue` listing of each partition, and the blank lines around it, are not part of the modelled sequence (reproduce.rb lines 78-83 and 93-98).
- RestoredOptions.ValidateTimeout, RestoredOptions.ValidateSnapshotPath, ListOptions.Validate, GetOptions.Validate: the result carries the message and the exit status, not which `print_*` call prints it. `validate_timeout` uses `print_bad`; the others use `print_error`, which also appends the message to the error log (output.rb line 106).
- EngineCli.Interpret: `a` and `s` also start a cleanup thread. For `s` it runs `suspend!`, hides the screen, captures the switches and generates the reports. For `a` it runs `abort!`, hides the screen, restores the switches and generates the reports. Only the synchronous effects are modelled: the capture of `a` and the intent.
- Output.Personalize: the class's short name (`self.class.name.split('::').last`) is an input.
- Console.Load: only files whose last line is non-empty are shown to read back exactly. An empty final line is read as no line, which the model reproduces but no lemma restates.

## Findings

| source | as written | input that shows it | evidently intended | confidence | as-written member | corrected member |
|---|---|---|---|---|---|---|
| lib/scnr/ui/cli/engine.rb:321 | the guard returns unless the scan is pausing, or unless it is paused, so `resume!` is reached only by a scan that is both pausing and paused, which never happens | command screen shown, scan status `paused`, the user types `r` (which the menu at line 269 offers) | return only when the scan is neither paused nor pausing, as the menu at line 269 does: resume a paused or pausing scan | not executed | EngineCli.Interpret, EngineCli.ResumeNeverIssued | EngineCli.InterpretCorrected, EngineCli.OfferedCommandsReachScan |
| lib/scnr/ui/cli/rpc/client/instance.rb:176 | `return if !paused?` refuses `r` for a pausing scan, though line 131 lists `r` while pausing | status `pausing`, the user types `r` | resume when paused or pausing, as the menu says | not executed | Session.HandleLine, Session.ResumeOfferedButIgnored | Session.HandleLineCorrected, Session.OfferedKeysAreHonoured |
| bin/scnr_console.rb:41 | the history is saved with `File.open(histfile, 'a')`, with no line break before it and no truncation | a first session saves "a" and "b"; the second loads them, adds "c" and exits; the file then reads "a", "ba", "b", "c" | replace the file with the deduplicated, truncated history (mode 'w') | not executed | Console.SaveAppending, Console.AppendingMergesLines | Console.SaveReplacing, Console.ReplacingReadsBack |
