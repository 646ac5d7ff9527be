# Claudette core: a verified model

Claudette is a desktop orchestrator for coding agents. This project models the parts of its library crate whose
correctness does not show in any single branch, and proves what they promise, for every input, every run and
every interleaving:

- **Time.** Cron expressions and the minute-by-minute search for the next run, and the day-number arithmetic
  behind the date stamps. One theory of the Gregorian calendar, given by counting days, serves both
  (`Calendar`, `Cron`, `Schedule`, `CronText`).
- **Concurrent state.** The file watcher with its redundant routing indices, the generation-stamped probe of the
  shell environment, and the supervisor of MCP servers. Each takes and releases locks within one operation; the
  models interleave the sections between lock boundaries (`FileWatcher`, `WatchProtocol`, `ShellProbe`,
  `Supervisor`, `SupervisorRuns`, with `Runs`).
- **Parsers.** Unified diffs, `git status --porcelain=v2 -z`, the NUL-delimited environment dump, and `%VAR%`
  expansion on UTF-8 bytes. Each is proved against the text that a printer produces or against a definition on
  characters (`UnifiedDiff`, `TrimmedDiff`, `GitStatus`, `ShellCapture`, `EnvExpand`, with `Utf8`, `Codec`, `Lexicographic` and `Text`).
- **Allocation, storage, copying.** Choosing a free workspace name, CLI flags in a flat key-value table, forking a
  conversation, and choosing notification sounds (`WorkspaceAlloc`, `FlagStore`, `FlagRuns`, `Fork`, `Sounds`).

Operations that loop or update state are methods, and classes where the source has objects, proved against
functions or relations; the lemmas then say what those mean. `dafny verify dfyconfig.toml` checks everything.

Some properties one would like are false of the code. The model keeps the code as it is, exhibits an input, and
proves when the property does hold:

| wish | fails for | holds exactly when |
|---|---|---|
| the cron search finds a run from every start | `0 0 29 2 *`, from 1 March 2025 (`CronText.LeapDayCanBeMissed`, `Schedule.SomeStartMisses`) | a weekday, or a day that every year has, is named (`Schedule.SearchBoundExact`) |
| parsing a printed patch gives back its hunks | a removed line that begins with `--` (`UnifiedDiff.HeaderLookAlikeIsSkipped`) | no such line, no final carriage return, no text that looks binary (`UnifiedDiff.RoundTripExact`) |
| the same, after git's output has been trimmed | a patch that ends with a blank line of context (`TrimmedDiff.BlankEndIsLost`) | in addition, the last printed line ends in something other than white space (`TrimmedDiff.TrimmedRoundTripExact`) |
| the flag table loads back what was stored | two repository ids, one prefix continuing the other (`FlagRuns.PhantomOverride`) | the prefixes are prefix-free (`FlagRuns.RunsExactIffPrefixFree`) |
| no stale shell environment is ever accepted | a worker that is out for 2^64 invalidations (`ShellProbe.StaleResultAfterWrap`) | no open probe meets a worker that began a positive multiple of 2^64 invalidations ago (`ShellProbe.StaleExactly`) |
| a reader never sees an environment older than the latest invalidation | a reader between the two writes of an invalidation (`ShellProbe.OldResultWhileInvalidating`) | within the wrap, no invalidation is between its two writes (`ShellProbe.NoStaleResult`) |
| a failure count of zero means that there is no error | 2^32 failures in a row (`SupervisorRuns.CountWrapsToZero`) | the failures since the last reset are none, or not a multiple of 2^32 (`Supervisor.CountAndErrorAgree`) |
| a server is in state Disabled exactly when its flag is off | configured off while connected, configured on while Disabled, switched off while reconnecting (`SupervisorRuns.ConnectedButOff`, `SupervisorRuns.DisabledButOn`, `SupervisorRuns.PendingButOff`) | since the server was last inserted or switched, the flag it was given matches whether it has left the Disabled state (`SupervisorRuns.EveryRunAgreesExactly`; step by step, `SupervisorRuns.AgreementStep`) |
| watched paths are the subscribed paths | two overlapping calls (`WatchProtocol.OverlapCanLeaveAnOrphanWatch`, `WatchProtocol.OverlapCanLoseAWatch`) | no unsubscribed path was watched too late, and no subscribed one had its attempt fail or was subscribed while its removal was under way (`WatchProtocol.WatchedIsSubscribedExactly`) |

Where the code and its description disagree, the code is modelled. A cron field counts as a wildcard when it selects
every value of its range, however it is written (src/scheduling.rs:258-259). Enabling a server is described as a
move to Pending, but only a server in state Disabled moves (src/mcp_supervisor.rs:571-588).

## Model

| member | source | states |
|---|---|---|
| `Calendar.CountingIsDayNumber` | src/cesp.rs:290-303 | The closed form for the number of a date is right: the date found by counting `n` days from 1970-01-01, forwards or backwards, has number `n`, for every integer `n`. |
| `Calendar.DateOfDayNumber` | src/cesp.rs:290-303 | Every valid Gregorian date is reached by counting, at its own number and at no other. |
| `Calendar.EpochDaysToDateIsCounting` | src/cesp.rs:290-303 | Civil-from-days is exact: for every day number, without bound, its result is the date found by counting days with the month lengths and the leap rule, so in particular a valid date. |
| `Calendar.EpochDaysConsecutive` | src/cesp.rs:290-303 | Consecutive day numbers give consecutive calendar dates. |
| `Calendar.YearOfEraExact` | src/cesp.rs:294-295 | The division that finds the year of the 400-year era yields the one year whose days include the given day. |
| `Calendar.CommonDayRecurs` | src/scheduling.rs:265 | A day and month that every year has occurs in any 366 consecutive days. |
| `Cron.InsertSteps` | src/scheduling.rs:182-189 | The stepping loop, with its saturating addition, inserts exactly the values that are the start plus a multiple of the step up to the end, weekday 7 as 0. |
| `Cron.ExpandRange` | src/scheduling.rs:220-238 | A range is refused exactly when it is malformed or outside its field, and adds exactly the values it denotes. |
| `Cron.NormalizeValue` | src/scheduling.rs:240-249 | A value is accepted exactly when, with weekday 7 read as Sunday, it lies in the range. |
| `Cron.PartInRange` | src/scheduling.rs:171-249 | A well-formed part selects at least one value, and only values of the range. |
| `Cron.ExpandField` | src/scheduling.rs:171-218 | The result is absent exactly when some comma part is malformed; otherwise it is the strictly ascending, nonempty, in-range list of the union of what the parts denote. |
| `Schedule.ParseCronExpression` | src/scheduling.rs:152-169 | An expression is accepted exactly when it has five well-formed fields; each resulting list is nonempty, ascending and in range. |
| `Schedule.FullBySize` | src/scheduling.rs:258-259 | A field has as many values as its range exactly when it has all of them, which is how the code recognises wildcards. |
| `Schedule.CandidateMatchesIsFires` | src/scheduling.rs:265-285 | The test in the scan selects exactly the minutes the expression denotes: month, hour and minute must match, and of the two day fields the one that is no wildcard, or either if neither is. |
| `Schedule.FirstMatch` | src/scheduling.rs:265-287 | The scan returns the first selected minute of the next 366 * 24 * 60, and nothing only if there is none. |
| `Schedule.NextCronRun` | src/scheduling.rs:251-288 | The result is the least instant strictly after the input that the expression selects, in any zone of whole minutes; it is absent exactly when the expression is malformed or selects nothing in the 366 days; and it is present from every start if the expression names a weekday or a day every year has. |
| `Schedule.WindowSuffices` | src/scheduling.rs:265 | The 366-day bound is long enough, from every start, for every expression that restricts weekdays or names a (month, day) of a common year. |
| `Schedule.SomeStartMisses` | src/scheduling.rs:265-287 | Every other expression finds nothing from 1 March 2025 on, in every zone: only leap days and impossible dates are missed. |
| `Schedule.SearchBoundExact` | src/scheduling.rs:251-288 | The search succeeds from all starts if and only if the expression restricts weekdays or names a day of a common year. |
| `CronText.FieldExact` | src/scheduling.rs:171-249 | A field written as numbers, ranges, ranges with a step, stars and stars with a step, joined by commas, is accepted exactly if each part fits the field, and selects exactly what one of them names, Sunday being 0 also when written as 7. |
| `CronText.WeekdayIsZeller` | src/scheduling.rs:272 | For every date, the weekday the scan uses is that of Zeller's congruence on year, month and day, with Sunday as 0. |
| `CronText.ExpressionFiresExactly` | src/scheduling.rs:152-285 | Every expression written in this way is accepted exactly if each part fits its field, and then fires at exactly the dates and times its parts name: minute, hour and month, and of day and weekday the one that is no wildcard, or either. |
| `CronText.ExpressionFiresAt` | src/scheduling.rs:261-285 | In a zone so many minutes ahead of UTC, that is at the instant which is so many minutes before the local time, and at no instant between whole minutes. |
| `CronText.WeekdayFiresExactly` | src/scheduling.rs:272-285 | An expression for one time on one weekday fires at that time on every date of that weekday and at no other. |
| `CronText.AnyGap` | src/scheduling.rs:153 | Fields may be separated and surrounded by spaces, tabs and line ends. |
| `CronText.PlusSign` | src/scheduling.rs:178 | A number may be written with a plus sign. |
| `CronText.DateFoundExactly` | src/scheduling.rs:152-288 | The expression for a time on one date of every year is accepted, for every time and date, and selects a day of every year exactly if the date exists in common years. |
| `CronText.LeapDayCanBeMissed` | src/scheduling.rs:251-288 | `0 0 29 2 *` is accepted and selects no day of every year. |
| `FileWatcher.ConsistentIsIndicesOf` | src/file_watcher.rs:76-96 | Consistent indices are determined by the one map from key to path and the listed workspaces, and conversely. |
| `FileWatcher.IndicesMutuallyInverse` | src/file_watcher.rs:76-96 | In consistent indices no path has an empty subscriber set, and the path, key and workspace indices are inverse to each other in both directions. |
| `FileWatcher.UnsubscribedRouted` | src/file_watcher.rs:226-237 | Taking a key off its path and dropping the path when it was the last subscriber keeps the path index the exact inverse of the table. |
| `FileWatcher.WithSubscriberRouted` | src/file_watcher.rs:249-265 | Subscribing a key keeps the path index the exact inverse of the table. |
| `FileWatcher.WatcherState.DropSubscriber` | src/file_watcher.rs:229-236 | Removes one subscriber and drops the path exactly when none is left, and says which. |
| `FileWatcher.WatcherState.DropKeys` | src/file_watcher.rs:226-238 | In any order of keys: exactly those keys leave the table, the path index stays its inverse, and the reported paths are exactly those that lost their last subscriber. |
| `FileWatcher.WatcherState.AddKey` | src/file_watcher.rs:249-266 | A key that moves leaves its old path; the path index stays the inverse of the table; a path that loses its last subscriber is reported. |
| `FileWatcher.WatcherState.AddKeys` | src/file_watcher.rs:249-266 | In any order, even when canonical paths swap between keys: the table is overlaid with the desired entries, the index stays its inverse, and every path that vanished is reported. |
| `FileWatcher.WatcherState.RegisterSection` | src/file_watcher.rs:209-286 | Replaces exactly one workspace's slice of the table and keeps all indices consistent; the paths to watch are exactly the desired unwatched ones, the paths to remove exactly those that lost every subscriber. |
| `FileWatcher.WatcherState.UnregisterSection` | src/file_watcher.rs:335-354 | Removes exactly one workspace's slice, keeps all indices consistent, and returns exactly the paths that lost every subscriber. |
| `FileWatcher.WatcherState.Route` | src/file_watcher.rs:147-166 | An event calls back exactly the keys whose path is looked up, each once. |
| `WatchProtocol.FileWatcher.Sweep` | src/file_watcher.rs:289-305 | Removes exactly the listed watches that have no subscriber, from the books and from the system alike. |
| `WatchProtocol.FileWatcher.Install` | src/file_watcher.rs:306-326 | Adds exactly the listed watches that the system allows, to the books and to the system alike. |
| `WatchProtocol.FileWatcher.Register` | src/file_watcher.rs:195-327 | A call on its own leaves recorded watches equal to real ones and each with a subscriber; the live watches are the old ones still subscribed plus the desired ones the system allows, so each desired path is watched or its attempt failed. |
| `WatchProtocol.FileWatcher.UnregisterWorkspace` | src/file_watcher.rs:334-368 | A call on its own keeps the same invariant and leaves exactly the old watches that still have a subscriber. |
| `WatchProtocol.StepKeepsInv` | src/file_watcher.rs:195-368 | Every lock section and every backend call keeps the indices consistent, and the recorded watches equal to the real ones up to the one path the lock holder is changing. |
| `WatchProtocol.EveryInterleavingKeepsInv` | src/file_watcher.rs:195-368 | In every interleaving of any number of threads the indices are consistent, and recorded and real watches are equal whenever the watcher lock is free. |
| `WatchProtocol.OrphansAndLossesExact` | src/file_watcher.rs:289-326 | In every interleaving, whenever no call is in progress: an unsubscribed path is watched if and only if its last watch was installed when it had no subscriber; a subscribed path is not watched if and only if, since its last watch, an attempt on it failed or it was subscribed while its removal was decided on and not yet recorded. |
| `WatchProtocol.WatchedIsSubscribedExactly` | src/file_watcher.rs:195-368 | So the watched paths are the subscribed ones if and only if no unsubscribed path was watched late and no subscribed one was lost. |
| `WatchProtocol.SerialLossIsFailure` | src/file_watcher.rs:195-368 | If no call starts before the previous one is done, a path is lost only by a failed attempt. |
| `WatchProtocol.SerialCallsLeaveNoOrphans` | src/file_watcher.rs:274-327 | If no call starts before the previous one is done, then between calls the live watches are the recorded ones and each has a subscriber. |
| `WatchProtocol.OverlapCanLeaveAnOrphanWatch` | src/file_watcher.rs:306-310 | There is a run of two overlapping calls that ends with a watch that has no subscriber, because watching does not recheck. |
| `WatchProtocol.OverlapCanLoseAWatch` | src/file_watcher.rs:300-303 | There is a run of two overlapping calls that ends with a subscriber that has no watch, because recheck and removal are separate sections. |
| `ShellProbe.ShellEnvProbe.Begin` | src/env.rs:110-119 | A probe is claimed exactly when the phase is Idle, with the current generation. |
| `ShellProbe.ShellEnvProbe.Finish` | src/env.rs:126-144 | A result is taken exactly when its generation is current and its probe is still open; a failed probe completes without touching the cache; otherwise nothing changes. |
| `ShellProbe.ShellEnvProbe.ReleaseWaiters` | src/env.rs:146-153 | A running probe becomes one whose wait has expired, in the same generation; any other phase stays. |
| `ShellProbe.ShellEnvProbe.Invalidate` | src/env.rs:457-466 | The generation advances with wrap-around, the phase is Idle, the cache is empty. |
| `ShellProbe.SameGeneration` | src/env.rs:130 | Generations of two epochs are equal exactly when they are a multiple of 2^64 invalidations apart. |
| `ShellProbe.StaleExactly` | src/env.rs:126-144 | A result makes the visible environment stale if and only if it arrives while a probe is open and its worker began a positive multiple of 2^64 invalidations ago. |
| `ShellProbe.AcceptedExactly` | src/env.rs:120-144 | In every run within the wrap, whatever expiries and invalidations went before: a result is taken if and only if its worker began after the latest invalidation, and then readers see it; otherwise nothing they see changes. |
| `ShellProbe.ExpiryReleases` | src/env.rs:146-153 | After an expiry no waiter is kept waiting, and nothing else has changed. |
| `ShellProbe.EveryInterleavingKeepsInv` | src/env.rs:110-153 | In every interleaving of claims, results, expiries and invalidations, without any bound: each generation starts at most one probe and accepts at most one result, which is for a probe it started. |
| `ShellProbe.NoStaleResult` | src/env.rs:457-466 | While no worker stays out for 2^64 invalidations, a cached environment comes from a worker that began after the latest invalidation, except between the two writes of an invalidation: it is older if and only if one is under way, and then it is from the generation before. Whenever the mutex is free the phase is then Complete. |
| `ShellProbe.OldResultWhileInvalidating` | src/env.rs:457-466 | There is a run after which a reader, which takes no mutex, sees the old environment although the generation has advanced. |
| `ShellProbe.StaleResultAfterWrap` | src/env.rs:461 | There is a run of exactly 2^64 invalidations after which the first worker's old result is accepted as current. |
| `Supervisor.McpSupervisor.InitRepo` | src/mcp_supervisor.rs:317-403 | Both initialisers perform their changes one by one: enter the repository, drop the servers not listed, configure those listed. |
| `Supervisor.InitRepoExact` | src/mcp_supervisor.rs:317-403 | Initialising leaves exactly the listed servers, each with the configuration of its last listing; those that were there keep state, failure count and last error, and their enabled flag unless one is given; new ones start without failures, enabled unless a flag is given, Disabled if first listed as off and Pending otherwise; no other repository changes. |
| `Supervisor.McpSupervisor.ApplyValidation` | src/mcp_supervisor.rs:434-459 | A server that exists and is still enabled shows its outcome: Connected without error and count, or Failed with the error; a disabled one stays as it was; flags and configurations stay. |
| `Supervisor.McpSupervisor.ReportToolFailure` | src/mcp_supervisor.rs:469-484 | A connected server becomes Failed with the error and one more failure; otherwise nothing changes. |
| `Supervisor.McpSupervisor.SetServerEnabled` | src/mcp_supervisor.rs:572-594 | The flag is as asked; disabling moves to Disabled and keeps count and error; enabling moves to Pending and resets them exactly when the state is Disabled. |
| `Supervisor.OthersUnchanged` | src/mcp_supervisor.rs:317-594 | A server that a change does not name is there afterwards exactly if it was and is not removed, is as it was, and has nothing recorded about it. |
| `Supervisor.ChangesKeepInv` | src/mcp_supervisor.rs:317-594 | Every section keeps the agreement between each server's fields and its recorded history. |
| `Supervisor.EveryRunTellsHistory` | src/mcp_supervisor.rs:317-618 | In every run, with any number of validations and reconnections in flight, each server's failure count is the number of failures since its last success, re-enabling or insertion, as 32 bits; its last error is the latest of them; Connected implies none, Failed implies some. |
| `Supervisor.EveryRunShowsLatest` | src/mcp_supervisor.rs:317-618 | In every run the state of each server is determined by the latest that was recorded of it: Failed exactly after a failure, Connected exactly after a success, Disabled exactly after it was switched off or inserted as off, and otherwise Pending. |
| `Supervisor.FlightsShow` | src/mcp_supervisor.rs:434-556 | A reconnection first marks its server Pending, enabled or not; validations and reconnections end with each enabled server showing its outcome. |
| `Supervisor.CountAndErrorAgree` | src/mcp_supervisor.rs:434-459 | In every run the count is zero exactly when there is no error if and only if the failures are none or not a multiple of 2^32; a connected server has count zero and no error, a failed one has an error and, short of wrap-around, a positive count. |
| `Supervisor.OnlyEnabledServersConnect` | src/mcp_supervisor.rs:434-548 | A step of any run that connects a server is the end of a validation or reconnection, and the server is enabled before and after it. |
| `SupervisorRuns.AgreementStep` | src/mcp_supervisor.rs:317-594 | If flag and state agree, a change parts them if and only if it configures the opposite flag or marks a disabled server as reconnecting. |
| `SupervisorRuns.EveryRunAgreesExactly` | src/mcp_supervisor.rs:317-618 | In every run, for every server: flag and state agree if and only if, since the server was last inserted or switched, the last flag given (or else the flag it then had) is on exactly if it was enabled then, has been marked as reconnecting, or has had a validation applied. |
| `SupervisorRuns.ConnectedButOff` | src/mcp_supervisor.rs:378-382 | There is a run that ends with a connected server whose flag is off. |
| `SupervisorRuns.DisabledButOn` | src/mcp_supervisor.rs:378-382 | There is a run that ends with a server in state Disabled whose flag is on. |
| `SupervisorRuns.PendingButOff` | src/mcp_supervisor.rs:508-515 | There is a run that ends with a pending server whose flag is off, because the second section of a reconnection does not look at the flag. |
| `SupervisorRuns.CountWrapsToZero` | src/mcp_supervisor.rs:452-456 | There is a run of 2^32 failed validations after which the failure count is zero and an error is shown. |
| `UnifiedDiff.ParseUnifiedDiff` | src/diff.rs:920-1013 | The line loop computes the left-to-right reading of the lines, or an empty binary diff when the text looks binary. |
| `UnifiedDiff.BinaryExactly` | src/diff.rs:921-927 | Text is taken for a binary diff, and nothing of it is read, exactly if "Binary files" and "differ" both occur in it. |
| `UnifiedDiff.NoticeIsBinary` | src/diff.rs:921-927 | So git's notice about binary files is recognised, whatever they are called. |
| `UnifiedDiff.OtherLinesIgnored` | src/diff.rs:967-1001 | Empty lines and lines that begin with no plus, minus, space or double at sign change nothing. |
| `UnifiedDiff.BrokenHeaderEndsHunk` | src/diff.rs:950-958 | A line that begins like a hunk header and is none ends the hunk before it and begins none. |
| `UnifiedDiff.HeaderRoundTrip` | src/diff.rs:1035-1058 | A printed hunk header, with or without counts and whatever follows it, is read back as its two starts. |
| `UnifiedDiff.LinesOfUnlines` | src/diff.rs:932 | Splitting printed text gives back its lines, without their final carriage returns. |
| `UnifiedDiff.ParseOfPrinted` | src/diff.rs:920-1058 | For every patch that does not look binary, with any lines before its first hunk: the hunks come back with all lines but the header look-alikes, and each line's old and new numbers are the start plus the count of earlier surviving lines on that side, modulo 2^32. |
| `UnifiedDiff.HunkFaithful` | src/diff.rs:934-1003 | What is read back of a hunk equals the hunk exactly when no line looks like a header and none ends in a carriage return. |
| `UnifiedDiff.RoundTripExact` | src/diff.rs:920-1058 | Parsing a printed patch returns its hunks, numbered by counting, if and only if the text does not look binary and every hunk is faithful. |
| `UnifiedDiff.HeaderLookAlikeIsSkipped` | src/diff.rs:934-947 | A removed line that begins with `--`, or an added one with `++`, changes nothing whatever was read before. |
| `TrimmedDiff.LinesOfOpen` | src/diff.rs:932 | Splitting text whose last line has no newline gives back all its lines, the last one as it is. |
| `TrimmedDiff.ParseOfTrimmed` | src/diff.rs:53-67 | For every printed patch, trimmed as git's output is: what trimming leaves of it, which is all but white space at the end of its last hunk, is read as it would be untrimmed. |
| `TrimmedDiff.TrimmedRoundTripExact` | src/diff.rs:920-1058 | Parsing a printed and trimmed patch returns its hunks if and only if the text does not look binary, every hunk is faithful, and the last printed line ends in something other than white space. |
| `TrimmedDiff.BlankEndIsLost` | src/diff.rs:62 | A blank line that ends the context of the last hunk is lost. |
| `GitStatus.ParseFileTreeGitStatus` | src/diff.rs:304-386 | The record loop computes the left-to-right reading of the NUL-separated fields, a rename using up the field after it. |
| `GitStatus.ParsePrinted` | src/diff.rs:304-386 | A printed record is read as what it says and uses up exactly its own fields. |
| `GitStatus.StatusRoundTrip` | src/diff.rs:304-386 | For every list of records with NUL-free paths, which may hold spaces or look like records, parsing the printed text gives what the records say, in order; a rename's source is never read as a record. |
| `GitStatus.EntryRecovered` | src/diff.rs:451-489 | Each path has the entry of the last record that names it: the layer from which columns are set, the status from the columns and the disk, the source of a rename. |
| `GitStatus.DeletedOidRecovered` | src/diff.rs:346-353 | An unstaged deletion is remembered with its HEAD object id. |
| `GitStatus.OidsKeep` | src/diff.rs:346-353 | Nothing else is remembered as an unstaged deletion. |
| `GitStatus.UntrackedRecovered` | src/diff.rs:315-325 | The untracked paths are listed in the order of their records. |
| `GitStatus.CountOids` | src/diff.rs:398-409 | For each object id, the number of listed paths that are untracked and hash to it. |
| `GitStatus.PrintedMatching` | src/diff.rs:398-409 | For what git prints, the untracked files that may stand for a deletion are those of the untracked records whose content has its object id. |
| `GitStatus.ShortRecordIgnored` | src/diff.rs:328-345 | A record with too few columns says nothing and uses up nothing. |
| `GitStatus.RenameAtEnd` | src/diff.rs:368 | A rename whose source is missing at the end has an empty one. |
| `Lexicographic.Sorted` | src/diff.rs:415-416 | The strings, each once, in lexicographic order. |
| `Lexicographic.FirstDifference` | src/diff.rs:416 | The first differing character decides the order, and a string comes before its continuations. |
| `GitStatus.SuppressRenameGhosts` | src/diff.rs:388-431 | For every object id the number of hidden deletions is the minimum of its deletions and its untracked files; the hidden ones are lexicographically first; all other entries are unchanged. |
| `GitStatus.FileTreeGitStatus` | src/diff.rs:280-296 | The same, for the statuses parsed from whatever git prints. |
| `ShellCapture.ParseEnvDump` | src/env.rs:187-212 | The chunk loop computes the left-to-right reading of the NUL-separated chunks, later ones overriding earlier ones. |
| `ShellCapture.ChunkExactly` | src/env.rs:189-210 | A chunk is a variable exactly if it is UTF-8 for a nonempty name without an equals sign, an equals sign and a value; every other chunk is dropped. |
| `ShellCapture.DumpRoundTrip` | src/env.rs:187-212 | Any environment, of any bytes, printed after any NUL-free banner is recovered: all its text variables, and at most one stray entry from the banner, which a real variable of that name overrides. |
| `ShellCapture.EnvironmentLookup` | src/env.rs:187-212 | A text variable that no later one of its name overrides has its own value. |
| `ShellCapture.ApplyDenylist` | src/env.rs:271-294 | The variables are divided into the kept, with values unchanged, and the denied, listed in order of name. |
| `ShellCapture.DeniedExactly` | src/env.rs:225-292 | A variable is kept, with its value, exactly if its name is not on the built-in list, does not begin with STARSHIP_ and is not denied by the user. |
| `ShellCapture.PartitionAgainstBaseline` | src/env.rs:423-440 | A variable is inherited exactly when the baseline has it with the same value; all others are added. |
| `ShellCapture.OverlayReproducesDump` | src/env.rs:508-529 | Overlaying the captured variables on the baseline gives each name of the dump the dump's value, except denied names, which keep the baseline's; captured, inherited and denied names partition the dump. |
| `ShellCapture.ShellValueReachesChildren` | src/env.rs:508-529 | End to end: each text variable of the shell that is not denied reaches child processes with the shell's value, whatever the banner. |
| `Utf8.DecodeEncode` | src/env.rs:762-799 | Every text has a valid encoding, from which it is recovered. |
| `Utf8.EncodeDecode` | src/env.rs:762-799 | Every valid byte string is the encoding of a text. |
| `Utf8.EncodingsByKind` | src/env.rs:795 | A character takes one to four bytes by its number, as the standard says, with one character of each kind spelled out. |
| `EnvExpand.NothingKnown` | src/env.rs:772-780 | With no known variables, expansion is the identity. |
| `EnvExpand.FirstPlaceholder` | src/env.rs:770-786 | The first placeholder of a text becomes its value if it is known and stays as it is if not; what precedes it is copied, what follows it is expanded on its own. |
| `EnvExpand.LonePercent` | src/env.rs:787-796 | Text with fewer than two percent signs is copied. |
| `EnvExpand.BeforePercent` | src/env.rs:770-771 | The first percent byte of an encoded text is its first percent sign: the byte search never hits inside a character. |
| `EnvExpand.TakePlaceholder` | src/env.rs:770-785 | A placeholder is cut out at character boundaries, replaced by its value or kept, and skipped whole. |
| `EnvExpand.TakeChar` | src/env.rs:790-796 | Otherwise exactly one character is copied, cut at character boundaries. |
| `EnvExpand.ExpandEnvVarsWithLookup` | src/env.rs:762-799 | For every valid UTF-8 input the byte loop yields valid UTF-8 that decodes to the left-to-right expansion of the decoded input, every slice lying on character boundaries; with no known variables the output is the input. |
| `WorkspaceAlloc.FirstFree` | src/workspace_alloc.rs:81-105 | The first attempt that nothing blocks, all earlier ones being blocked; none exactly when all 10,000 are. |
| `WorkspaceAlloc.TryCandidates` | src/workspace_alloc.rs:81-109 | The loop over prebuilt sets finds that attempt. |
| `WorkspaceAlloc.AllocateWorkspaceName` | src/workspace_alloc.rs:45-109 | A git error is passed on; otherwise the result is the lowest free suffix; it is exhaustion only if at least 10,000 obstacles exist; a valid requested name gives a valid allocated one. |
| `WorkspaceAlloc.AllocationExact` | src/workspace_alloc.rs:81-108 | The result is the requested name with the lowest number from 1 to 10,000 for which no workspace of the repository has the name, the branch or the path, git has neither the branch nor a worktree at the path, and nothing is at the path; there is none exactly if there is no such number. |
| `WorkspaceAlloc.ValidNameIsOneLevel` | src/workspace_alloc.rs:38-43 | A valid name holds no slash, dot or space, so its path is one directory below the repository's. |
| `WorkspaceAlloc.CandidateValid` | src/workspace_alloc.rs:38-43 | A numeric suffix keeps a valid workspace name valid. |
| `WorkspaceAlloc.CandidateInjective` | src/workspace_alloc.rs:82-86 | Different attempts propose different names, even when the requested name itself looks suffixed. |
| `WorkspaceAlloc.ExhaustedNeedsObstacles` | src/workspace_alloc.rs:90-108 | Each blocked attempt has an obstacle of its own among names, branches, paths, git branches, git worktrees and disk entries, so exhaustion needs 10,000 of them. |
| `WorkspaceAlloc.EveryRunKeepsDistinct` | src/workspace_alloc.rs:91-99 | Over every sequence of creations and deletions, whatever disk and git look like each time, workspaces of a repository keep distinct names, branches and paths. |
| `FlagStore.KeyInjective` | src/claude_flags_store.rs:29-47 | Under one prefix, a key determines flag name and aspect, whatever characters names contain. |
| `FlagStore.ReadRowExact` | src/claude_flags_store.rs:51-54 | Taking a key apart finds the name and aspect it was built from, and no other key reads the same. |
| `FlagStore.ToldAspect` | src/claude_flags_store.rs:58-116 | The rows with a prefix, in any order, tell exactly the table's cells under that prefix. |
| `FlagStore.LoadGlobal` | src/claude_flags_store.rs:58-85 | From rows in any order: exactly the flags with a well-formed enabled cell, each with its value cell. |
| `FlagStore.LoadRepoOverrides` | src/claude_flags_store.rs:89-118 | From rows in any order: exactly the repository's flags that have the sentinel and hold something. |
| `FlagRuns.GlobalLoadedExactly` | src/claude_flags_store.rs:58-85 | A global flag is loaded exactly if its enabled cell says true or false, and then with that and with its value cell. |
| `FlagRuns.OverrideLoadedExactly` | src/claude_flags_store.rs:89-118 | An override is loaded exactly if its sentinel is true and it has an enabled or a value cell; it is on exactly if its enabled cell says true. |
| `FlagRuns.SetIsLoaded` | src/claude_flags_store.rs:152-171 | After any operations at all, a global flag that is set is loaded as it was set, an empty value counting as none; one that is cleared is not loaded. |
| `FlagRuns.OverrideIsLoaded` | src/claude_flags_store.rs:173-205 | The same for an override. |
| `FlagRuns.FlagTable.SetGlobalFlag` | src/claude_flags_store.rs:152-171 | The enabled cell says true or false as asked, the value cell holds the value given, or is absent if there is none or it is empty; no other cell changes. |
| `FlagRuns.FlagTable.SetRepoOverride` | src/claude_flags_store.rs:173-194 | The same for an override, with its sentinel. |
| `FlagRuns.FlagTable.ClearRepoOverride` | src/claude_flags_store.rs:196-205 | Deletes the three cells of an override and no other. |
| `FlagRuns.FlagTable.ClearGlobalFlag` | src/claude_flags_store.rs:213-217 | Deletes the two cells of a global flag and no other. |
| `FlagRuns.ColonFreeIsPrefixFree` | src/claude_flags_store.rs:25-27 | Repository ids without colons have prefix-free key prefixes. |
| `FlagRuns.TableRepresents` | src/claude_flags_store.rs:152-217 | After every run of operations the flat table holds, cell by cell, exactly the intended global and per-repository maps. |
| `FlagRuns.PhantomOverride` | src/claude_flags_store.rs:89-118 | If one repository's prefix continues another's, an override of the first shows up as an override of the second. |
| `FlagRuns.RunsExactIffPrefixFree` | src/claude_flags_store.rs:58-217 | Every run loads back to exactly the intended maps if and only if the prefixes of the repository ids are prefix-free. |
| `FlagRuns.ResolveForRepo` | src/claude_flags_store.rs:124-150 | For each known flag in order: the override if there is one, else the global value, left out when off or unknown, without value when the flag takes none. |
| `FlagRuns.ResolvedExactly` | src/claude_flags_store.rs:124-150 | A flag is passed on exactly if it is known and on, by its override if it has one and by the global value otherwise; its value is passed on exactly if it takes one. |
| `FlagRuns.ClearRestoresResolution` | src/claude_flags_store.rs:196-205 | After every run, clearing an override gives every repository the resolution that would hold had that override never been touched. |
| `Fork.CopyFilesEffect` | src/fork.rs:422-443 | Copied snapshot files restore byte for byte what their sources do, whether by reference or by bytes, and no other snapshot changes. |
| `Fork.WithCheckpointEffect` | src/fork.rs:387-473 | Copying one checkpoint gives the new one the same files and activities and leaves every other checkpoint as it was. |
| `Fork.Database.CopyMessages` | src/fork.rs:356-377 | Appends one copy per message in order, and maps each old id to the id of its copy and nothing else. |
| `Fork.Database.CopyCheckpoints` | src/fork.rs:387-473 | Copies the checkpoints before the first whose message was not copied, and those only, and succeeds exactly when there is none; existing rows and blobs stay as they were. |
| `Fork.Database.CopyHistory` | src/fork.rs:334-476 | Succeeds exactly when the new workspace has a session and every checkpoint up to the fork hangs on a copied message. Without a session nothing changes; otherwise all messages of the prefix are copied under an injective id map, and exactly the checkpoints before the first that hangs on no copied message, each with its files and activities. In any case existing rows and blobs stay. |
| `Fork.SourceExactly` | src/fork.rs:340 | The messages that are copied are those of the source workspace, in order, up to and including the one the checkpoint hangs on. |
| `Fork.NoSource` | src/fork.rs:340 | None are copied if the workspace has no such message. |
| `Fork.ForkReadsLikeSource` | src/fork.rs:356-377 | After a fork the new workspace lists, after any messages of its own, the source prefix in order with equal content under the mapped ids; every other workspace lists what it did. |
| `Fork.ForkedCheckpoint` | src/fork.rs:387-473 | Each copied checkpoint is at its source's turn, hangs on the image of its source's message, and restores and shows the same. |
| `Sounds.Candidates` | src/cesp.rs:347-348 | Exactly the sounds that are not in the recent window. |
| `Sounds.Trim` | src/cesp.rs:358-360 | Keeps the latest two, or all if there are at most two. |
| `Sounds.SoundPlaybackState.PickSound` | src/cesp.rs:329-366 | Without sounds or within the debounce interval nothing is played or changed; otherwise one candidate is played and noted, in its category only. |
| `Sounds.DebounceExactly` | src/cesp.rs:335-343 | After every run of calls, a call plays and changes nothing exactly if there are no sounds or its category last played less than the debounce interval ago. |
| `Sounds.AnyCandidateMayBeNext` | src/cesp.rs:347-356 | Every sound that was not played recently may be next; every sound at all, if all were. |
| `Sounds.CategoriesAreIndependent` | src/cesp.rs:329-366 | Over every run of calls, what a category plays and its window are determined by its own unhurried calls only. |
| `Sounds.NoRepeatWithinFour` | src/cesp.rs:347-362 | Over every run of calls and all random choices, any four consecutive sounds of a category with at least four are different. |
| `Sounds.SmallCategoriesPlayRounds` | src/cesp.rs:350-353 | Over every run of calls and all random choices, a category with at most three sounds plays them in consecutive rounds, each a permutation of all of them. |

## Left out

- Daylight saving: the local zone is a fixed offset of whole minutes from UTC, and instants have no range limit.
- `resume_fire_time`, `cron_to_human` and the scheduled-task records: one branch each on top of the search.
- `Calendar.EpochDaysToDateIsCounting`: day numbers are unbounded, so the 64-bit overflow of the first addition is not modelled.
- The file-system notification backend: installing a watch may fail, removing one leaves the path unwatched, and nothing else changes the watches. The filter on event kinds, canonicalisation of paths and log messages are not part of this model.
- Overflow checks of debug builds: line numbers and failure counts wrap around at 2^32, as in release builds.
- `run_probe_pipeline` and the installer for tests, which write the cache outside the probe protocol; and poisoned locks.
- `prewarm_shell_env`: its test for a filled cache comes before the claim, outside the mutex, and only skips claims; the model lets any claim be tried.
- `wait_for_shell_env_probe`, whose only effect on the protocol is the expiry step.
- The supervisor's broadcasts, status snapshots, transports, backoff, and what validation does: its outcome is arbitrary.
- `TrimmedDiff.ParseOfTrimmed`: what git prints is taken to begin with something other than white space, as its headers do.
- Running git: its output, the existence of paths and the hashes of files are given. Unmerged and ignored records are skipped by the parser and are modelled as text it skips.
- The shell itself, and the glob patterns of the user's deny list (a predicate on names here).
- `Fork.Database.CopyHistory`: time stamps given by the database are not modelled.
- `Fork.Database.CopyHistory`: the query for checkpoints is given by its contract, rows are kept in the order their queries sort them, and blob references resolve because nothing deletes a referenced blob. Random identifiers are taken to be new and distinct, digests free of collisions.
- The rest of forking: worktree, session transcript and settings.
- `FlagStore.LoadGlobal`: the prefix query may return more rows than those with the prefix, since it ignores case, but returns each row once; `FlagStore.LoadRepoOverrides` likewise.
- Database errors other than those above.
- `WorkspaceAlloc.AllocateWorkspaceName`: paths are Unix paths in text form, and only an existing path has a canonical form.
- `resolve_category`, sound files, audio and sound packs: table look-ups and input and output.
- The remaining modules of the crate, the server, the mobile and desktop shells.
