# SOOP VOD downloader: a Dafny model of its core

The program downloads a VOD from the SOOP streaming platform. It works in six steps:

1. It checks the player page address (`Types.player_url`).
2. It asks the VOD API for the segment files of the wanted quality (`SOOP.get_manifest`) and collects them in a `Manifest`.
3. It runs one ffmpeg child per segment into a fresh temporary file.
4. It follows each child's `-progress pipe:1` output (`read_out_time`).
5. It concatenates the segments with a second ffmpeg child.
6. It removes the temporary files.

Logging in goes through the shared `requests` session of the class `SOOP`. Three drivers are modelled:

- the current one, `src/main.py`;
- the older package driver, `src/soop_dl.py`;
- the single-file program `soop_dl.py` at the top of the repository.

The modules follow the source files:

| module | file | what it holds |
|---|---|---|
| `Wrappers`, `Strings` | none | `Option`/`Result`, and the Python string built-ins the core relies on (`strip`, `split`, `in`, `int()`, `str.lower`) |
| `Types` | `src/model/types.py` | the URL checks and the title number |
| `Manifests` | `src/model/manifest.py` | class `Manifest`, whose two lists grow by `AddVod` |
| `Util` | `src/util/util.py` | `delete_spec_char`, `get_unique_filename`, `read_out_time` |
| `Progress` | none | how every driver consumes `read_out_time` with a progress bar |
| `Soop` | `src/SOOP/soop.py` | the case-insensitive header map, class `Session`, class `SoopClient` (the class `SOOP` with its shared session), `check_auth`, `login`, `sec_login`, `get_manifest` |
| `Process` | `src/process/process.py` | the ffmpeg argv lists and the concat list file |
| `Cli` | `src/main.py` | `download_parts`, `concat_parts`, `remove_temp_files`, `download`, the input parsers, `try_login` |
| `SoopDl` | `src/soop_dl.py` | its own argv lists, `download` and `try_login` |
| `LegacySoopDl` | `soop_dl.py` | where the single-file program differs from the package |

The outside world becomes data:

- The filesystem is the set of existing paths.
- Every HTTP exchange is a value saying what the server answered, or that the request failed.
- Each ffmpeg child is given by the stdout lines it writes, its exit code, whether it left its output file behind when it failed (one that exits with 0 always has), and, for a segment, the answer of the duration probe.
- `os.path.abspath` is a function parameter.
- Paths follow the POSIX rules of `os.path`.

The single-file `soop_dl.py` repeats package code, and those parts are modelled once, by the package's members:

- `get_unique_filename` (lines 176-192) and `_delete_spec_char` (195-196) are `Util.GetUniqueFilename` and `Util.DeleteSpecChar`.
- `_check_auth` (417-426), `_login` (429-483) and `_sec_login` (486-512) are `Soop.CheckAuth`, `Soop.Login` and `Soop.SecLogin`, on the session passed in.
- `_get_download_process` (270-328), `_get_concat_process` (331-381) and `download` (713-830) are `SoopDl.GetDownloadProcess`, `SoopDl.GetConcatProcess` and `SoopDl.DownloadWith`. This file's `Manifest` does define the `list` property (155-160) that `download` reads.

## Model

| member | source | states |
|---|---|---|
| Strings.Strip | src/util/util.py:36 | `str.strip()`: never longer; no whitespace at either end; empty exactly when the text was all whitespace |
| Strings.Words | src/main.py:552 | `str.split()`: every word is non-empty and holds no whitespace |
| Strings.Split | src/util/util.py:41 | `str.split(sep)`: at least one piece, none containing the separator |
| Strings.ParseInt | src/util/util.py:41 | `int()` succeeds exactly on a non-empty run of digits with an optional sign |
| Types.ParsePlayerUrl | src/model/types.py:41-64 | "invalid URL" exactly when validation fails; a success keeps the parsed URL, which passes validation, and its title number is the integer in the part after the first `player` part |
| Types.MakeUrl | src/model/types.py:8-23 | the stored address is the raw text stripped; the path parts are the `/`-separated pieces of the path, none containing `/`, and join back to the path |
| Types.IndexOf | src/model/types.py:49 | `list.index`: the position holds the element and no earlier position does |
| Types.InvalidUrlExactly | src/model/types.py:54-60 | the "invalid URL" error is raised exactly when no path part is `player` or the netloc lacks `vod.sooplive.co.kr` |
| Types.HostIsSubstringTest | src/model/types.py:58 | the host test is a substring test: any netloc containing the host passes |
| Types.ParsedMeaning | src/model/types.py:41-64 | a success keeps the stripped text and carries the integer in the path part right after the first `player` part |
| Types.TitleNoExtracted | src/model/types.py:45-52 | on the player host, a path whose first `player` part is followed by the decimal text of `n` yields the title number `n` |
| Types.ExamplePlayerPath | src/model/types.py:45-64 | `/player/12345` on the player host gives title number 12345 |
| Types.PlayerLastIsNotFound | src/model/types.py:48-52 | a `player` part at the end of the path raises the "title number not found" error (the `IndexError` branch) |
| Manifests.Zip | src/model/manifest.py:52 | `zip`: as many pairs as the shorter list, pair i made of both lists' i-th elements |
| Manifests.SumConcat | src/model/manifest.py:45 | `sum` over a concatenation is the sum of the sums |
| Manifests.Manifest.constructor | src/model/manifest.py:5-9 | a new manifest has an empty title, no entries, count 0 and total duration 0 |
| Manifests.Manifest.SetTitle | src/model/manifest.py:11-17 | only the title changes |
| Manifests.Manifest.AddVod | src/model/manifest.py:19-27 | one entry appended to each list, the title untouched, count up by one, duration up by the entry's, items extended by exactly the new pair |
| Manifests.Manifest.Count | src/model/manifest.py:29-33 | the count is the length of one list and at most the length of either |
| Manifests.Manifest.IsEmpty | src/model/manifest.py:35-39 | empty exactly when either list is empty |
| Manifests.Manifest.Duration | src/model/manifest.py:41-45 | the sum of the expected durations, never negative when none of them is |
| Manifests.SumNonNegative | src/model/manifest.py:45 | `sum` of non-negative values is non-negative |
| Manifests.Manifest.Items | src/model/manifest.py:47-52 | `Count()` pairs in insertion order, pair i being (url i, duration i) |
| Util.DeleteSpecChar | src/util/util.py:26-27 | the result is no longer than the input and holds no character of the class `[/:*?"<>|]` |
| Util.DeleteSpecCharCounts | src/util/util.py:26-27 | each special character occurs 0 times afterwards; every other character occurs as often as before |
| Util.DeleteSpecCharConcat | src/util/util.py:26-27 | removal works piece by piece, so the kept characters keep their order |
| Util.DeleteSpecCharClean | src/util/util.py:26-27 | a text without special characters is returned unchanged |
| Util.DeleteSpecCharIdempotent | src/util/util.py:26-27 | sanitising twice is sanitising once |
| Util.SplitPath | src/util/util.py:12 | `os.path.split`: the tail has no `/` and is a suffix of the path |
| Util.SplitExt | src/util/util.py:13 | `os.path.splitext`: stem and extension concatenate to the name; the extension is empty or starts with `.` |
| Util.JoinPath | src/util/util.py:20 | `os.path.join` of two components under the POSIX rule: an absolute second component replaces the first, otherwise a `/` is put between them unless the first is empty or ends with one (stated by `JoinKeepsParts`) |
| Util.JoinKeepsParts | src/util/util.py:20 | the joined path ends with the second component, and starts with the first when the second is relative |
| Util.NumberedLastSlash | src/util/util.py:12-20 | a numbered candidate keeps the directory of the path it was made from: its last `/` is the directory's, never later |
| Util.NumberedPathInjective | src/util/util.py:15-20 | different counters give different candidate paths, so the search never tries a path twice |
| Util.GetUniqueFilename | src/util/util.py:7-23 | the result does not exist; a free path is returned as given, unsanitised; otherwise the result is the candidate `dir/name(k)ext` with the smallest k >= 1 that is free, the name sanitised |
| Util.FirstFree | src/util/util.py:17-23 | the search loop: a free result, the path itself when free, else the first free numbered candidate |
| Util.ProgressValues | src/util/util.py:30-45 | what the generator yields over the remaining lines: -1 at EOF, a blank line or `progress...end`, a value per `out_time_ms` line, the exception of a bad one (its properties are the lemmas below) |
| Util.OutTime | src/util/util.py:41 | raises exactly when the line has no second `=`-field or that field is not an integer |
| Util.Millis | src/util/util.py:41 | `// 1000` floors: `ms*1000 <= n < ms*1000 + 1000`, negative values included |
| Util.ReadOutTime | src/util/util.py:30-45 | the generator run on the child's stdout yields exactly `ProgressValues`: -1 at EOF, a blank line or `progress...end`, a value per `out_time_ms` line, other lines skipped, or the exception of a bad line |
| Util.EndsWithSentinel | src/util/util.py:34-45 | a stream that does not raise ends with -1 |
| Util.SentinelOnlyLast | src/util/util.py:34-45 | with non-negative times, -1 appears only as the last value |
| Util.NegativeTimeLooksLikeSentinel | src/util/util.py:41 | a time between -1000 and -1 microseconds also yields -1, so consumers stop early on it |
| Util.OutTimeOfLine | src/util/util.py:40-42 | a well-formed `out_time_ms=<t>` line yields `t // 1000` |
| Util.ProgressOnEnd | src/util/util.py:43-45 | `progress=end` yields -1 and stops; later lines are never read |
| Util.ProgressOfTimes | src/util/util.py:30-45 | times then `progress=end` yield each time in ms, then -1, without raising |
| Util.ExampleProgress | src/util/util.py:30-45 | one and two seconds, then the end marker, yield 1000, 2000, -1 |
| Progress.FirstSentinel | src/main.py:409-412 | the position of the first -1: no earlier value is -1 |
| Progress.ConsumeProgress | src/main.py:409-412 | the consumer loop (update on each value, break at -1, the generator's exception escapes) computes `Consumed` |
| Progress.TrackFails | src/main.py:409-412 | the loop fails exactly when the generator raised before yielding any -1 |
| Progress.TrackValue | src/main.py:409-412 | without failure, the bar ends at the value yielded just before the first -1, or at its start value when -1 comes first |
| Progress.Consumed | src/main.py:409-414 | the bar's `completed` after the consumer loop, or the exception that escaped it (stated by `ConsumedMeaning`) |
| Progress.ConsumedMeaning | src/main.py:409-414 | both facts from a bar starting at 0 |
| Progress.ConsumedOfTimes | src/main.py:484-487 | a child that reports times then `progress=end` leaves the bar at its last time in ms, or at 0 |
| Soop.FindSetHeader | src/SOOP/soop.py:37 | an assignment to a case-insensitive header map changes only the names equal to the key ignoring case |
| Soop.FindUpdateAll | src/SOOP/soop.py:37 | after `update(us)`, a name mentioned in `us` holds its last mention's value; other names keep theirs |
| Soop.SessionHeaders | src/SOOP/soop.py:16-20 | a session after `update(HEADERS)` sends the three fixed headers with their values and keeps every other default header |
| Soop.Session.constructor | src/SOOP/soop.py:36 | a new session holds the library defaults and no cookies |
| Soop.Session.Update | src/SOOP/soop.py:37 | the headers become `UpdateAll` of the old ones; the cookies are unchanged |
| Soop.SoopClient.constructor | src/SOOP/soop.py:30-31 | the class starts without a session |
| Soop.SoopClient.GetSession | src/SOOP/soop.py:33-38 | the first call creates a session with the fixed headers and no cookies; later calls return the same object unchanged |
| Soop.CheckAuthCases | src/SOOP/soop.py:40-50 | a failed request or an HTTP error status means logged out; otherwise logged in exactly when `IS_LOGIN` is 1 |
| Soop.Login | src/SOOP/soop.py:52-108 | a probe reporting a login gives True; a True or False result otherwise needs a JSON reply to the post; an unreachable server without a login raises the transport error |
| Soop.DispatchCode | src/SOOP/soop.py:95-107 | `RESULT` 1 confirms, -11 goes to the second factor, a missing code counts as 1024; every other code is a `LoginError` |
| Soop.DispatchDefault | src/SOOP/soop.py:106-108 | every code outside the table, and a missing one, raises "cannot log in" |
| Soop.DispatchErrors | src/SOOP/soop.py:98-103 | -1, -3 and -10 each raise their own, different message |
| Soop.SecLogin | src/SOOP/soop.py:110-138 | never returns False; True exactly for status 200 with `RESULT` 1 (default 0); a failed POST ends in `UnboundLocalError`; the second-factor error for any other answer with a JSON body |
| Soop.LoginWhenLoggedIn | src/SOOP/soop.py:72-74 | when the probe reports a login, `login` returns True without posting |
| Soop.LoginIgnoresStatus | src/SOOP/soop.py:90-95 | the first reply's HTTP status never changes the outcome; `RESULT` decides |
| Soop.LoginFalse | src/SOOP/soop.py:95-97 | `login` returns False only when `RESULT` is 1 and the probe after it reports logged out |
| Soop.LoginRejected | src/SOOP/soop.py:95-108 | a `LoginError` is exactly a table error of the first reply, or a failed second factor after -11 |
| Soop.TargetQuality | src/SOOP/soop.py:182-187 | a request among the table's labels is kept; anything else (`auto`, `자동`, None, unknown) becomes the native height plus `p` |
| Soop.TargetHeight | src/SOOP/soop.py:185-192 | the height compared against is the target without its final `p` |
| Soop.Request360FallsBack | src/SOOP/soop.py:9-14 | `360p` is not in the table, so it falls back to the native height |
| Soop.AddKept | src/SOOP/soop.py:191-193 | the inner loop appends exactly the variants of the wanted height, with the group's duration, leaving the title alone |
| Soop.AddSelected | src/SOOP/soop.py:189-193 | the outer loop appends the kept pairs of every group, in order |
| Soop.KeptMembership | src/SOOP/soop.py:191-193 | a pair is kept exactly when a variant of the group has the height and that file |
| Soop.SelectedMembership | src/SOOP/soop.py:189-193 | a pair is selected exactly when some group has that duration and a variant of that height with that file |
| Soop.SelectedSound | src/SOOP/soop.py:189-193 | every selected pair comes from a matching variant of some group |
| Soop.SelectedComplete | src/SOOP/soop.py:189-193 | every matching variant of every group is selected |
| Soop.SelectedEmpty | src/SOOP/soop.py:189-198 | the selection is empty exactly when no variant anywhere has the height |
| Soop.SoopClient.GetManifest | src/SOOP/soop.py:152-200 | a bad URL raises before any session exists; otherwise the session exists afterwards, and the result is the manifest of `ManifestOutcome` or its error |
| Soop.SoopClient.FetchManifest | src/SOOP/soop.py:168-200 | after the URL check: a new manifest filled with the selected pairs and titled, or the request, data or `Manifest Empty.` error |
| Soop.ManifestOutcome | src/SOOP/soop.py:152-200 | a bad URL gives its own error; a returned selection is never empty |
| Soop.ManifestOf | src/SOOP/soop.py:168-200 | a failed request or an error status, and only that, gives the request error; a result holds at least one pair and the title the API answered |
| Soop.ManifestNonEmpty | src/SOOP/soop.py:197-200 | a returned manifest is never empty; an empty selection raises `KeyError` |
| Soop.ManifestUrlFirst | src/SOOP/soop.py:167 | with a bad URL the API is never consulted: any two APIs give the same URL error |
| Process.ForwardedHeaders | src/process/process.py:25-27 | exactly the session headers other than `content-length` and `content-encoding` (any case) are kept |
| Process.ForwardedExactly | src/process/process.py:25-31 | a header is passed to ffmpeg exactly when it is in the session and not excluded |
| Process.ForwardedAppend | src/process/process.py:25-27 | filtering keeps the session's order |
| Process.Flags | src/process/process.py:29-33 | each value is preceded by its own `-headers` flag |
| Process.CollectForwarded | src/process/process.py:25-27 | the first loop computes `ForwardedHeaders` |
| Process.AddHeaderFlags | src/process/process.py:30-31 | the second loop emits a `-headers "k: v"` pair per kept header |
| Process.FirstOccurrences | src/process/process.py:21 | each name once, every name of the input and no other, in the order it first occurs |
| Process.SetCookieNames | src/process/process.py:21 | storing under a name already in the dict keeps the names as they are; a new name goes last |
| Process.SetCookieDistinct | src/process/process.py:21 | storing keeps the dict's names distinct |
| Process.SetCookieEntries | src/process/process.py:21 | on distinct names, storing holds the new pair and every pair of another name, and nothing else |
| Process.CookieDictNames | src/process/process.py:21 | `get_dict()` holds each cookie name of the jar once, in the order the name first occurs in the jar |
| Process.CookieDictMeaning | src/process/process.py:21 | the names of `get_dict()` are distinct and each of its entries is a cookie of the jar |
| Process.CookieDictKeepsLast | src/process/process.py:21 | for each name, the last cookie of that name in the jar is the one `get_dict()` keeps |
| Process.CookieDictOfDistinct | src/process/process.py:21 | a jar whose names are already distinct gives itself |
| Process.CookieDictSameName | src/process/process.py:21 | two cookies of one name give one entry, with the later value |
| Process.AddCookieFlags | src/process/process.py:32-33 | the third loop appends a `-headers "Cookie: k=v"` pair per entry of `get_dict()`, in its order |
| Process.HeaderArgs | src/process/process.py:18-33 | forwarded headers, then one `Cookie` line per entry of `get_dict()` over the jar, each behind `-headers` |
| Process.DownloadCommand | src/process/process.py:35-57 | the argv has 14 elements beyond the header arguments (16 in turbo mode), starts with ffmpeg and ends with the output path |
| Process.DownloadCommandShape | src/process/process.py:35-57 | ffmpeg first, the header arguments intact after it, then `-i url`; the output path is always last; `-threads 0` stands just before it exactly in turbo mode |
| Process.DownloadProcess | src/process/process.py:8-57 | the argv passed to `Popen` is `DownloadCommand` over the session's header arguments, whose cookies are the entries of `get_dict()` |
| Process.ConcatCommand | src/process/process.py:84-107 | 17 elements (19 in turbo mode): ffmpeg first, the list file seventh, the export path seventeenth |
| Process.ConcatCommandShape | src/process/process.py:84-107 | the list file follows `-i`; `-threads 0` is already in the fixed part; the export path is last only without turbo, since turbo appends a second `-threads 0` after it |
| Process.ConcatListText | src/process/process.py:77-82 | the list text is empty exactly when there are no parts, and otherwise ends with a newline |
| Process.ConcatListSnoc | src/process/process.py:80-81 | one more part adds its `file '<part>'` line and a newline at the end |
| Process.WriteConcatList | src/process/process.py:77-82 | the list file holds `file '<part>'` plus a newline per part, in order |
| Process.ConcatListLines | src/process/process.py:80-81 | read back by lines, the list holds one `file '...'` line per part and nothing after the last newline, when no path contains a newline |
| Cli.VidLen | src/main.py:423-426 | the duration probe's answer when truthy, else the bar's value |
| Cli.PartsFrom | src/main.py:392-451 | the loop from segment i visits at least i and at most all segments |
| Cli.FirstIncomplete | src/main.py:427-441 | the first segment that raised, failed or fell short by more than 160 ms; all before it are complete |
| Cli.PartsMeaning | src/main.py:392-451 | the loop visits every complete segment and the first incomplete one, which alone decides the exception (reader error, `ProcessError`, or none when merely short); the total is the sum of the visited segments' progress values, never their expected durations |
| Cli.PartsOnObserved | src/main.py:392-451 | the loop over the runs and their own progress is `PartsFrom` |
| Cli.ChosenMeaning | src/main.py:394-400 | each recorded temporary path was new to the original filesystem; a path whose child left a file is never chosen again; the filesystem afterwards is the original plus exactly the paths whose child left a file |
| Cli.ChosenAllWritten | src/main.py:394-400 | the recorded paths are distinct and all on disk exactly when every child left its file |
| Cli.FreshPath | src/util/util.py:7-23 | `get_unique_filename` on the current filesystem: a free path, the base itself when free, otherwise a numbered name of the base |
| Cli.Segment | src/main.py:409-414 | one child's progress stream read to the end and consumed by the bar |
| Cli.Launch | src/main.py:393-407 | one launch records one fresh path and puts it on disk exactly when the child wrote its file, keeping `Launched` |
| Cli.DownloadParts | src/main.py:368-451 | the visited count, total and exception are those of `PartsFrom` over the manifest's items; every launch ran ffmpeg on item j's URL and on a fresh name of `<cwd>/tmp/<sanitised title>.mp4`, and left that file exactly when its child wrote it |
| Cli.VisitedExitZero | src/main.py:427-433 | every visited segment before the last exited with 0, and so did the last when the loop raised nothing |
| Cli.VisitParts | src/main.py:392-449 | the loop body over the items, with the same result |
| Cli.ConcatDecision | src/main.py:489-506 | a failed child raises `ProcessError`; otherwise the path is returned exactly when the bar reached the total less 1 ms, and nothing is returned when it fell short |
| Cli.ConcatParts | src/main.py:454-506 | a free output path named from `<cwd>/<sanitised title>.mp4`, the list of the parts in order written to the list file, which then stays on disk, the concat argv on them, and `ConcatDecision` on the child's progress |
| Cli.ConcatOfTimes | src/main.py:484-506 | a successful child reporting times yields the path exactly when its last time in ms is within 1 ms of the total |
| Cli.Removal | src/main.py:517-520 | the cleanup removes at most all parts |
| Cli.PartsAsWritten | src/main.py:392-433 | the loop as written: at most one segment is visited, since the first segment whose progress reads ends in the `AttributeError` of the missing duration helper |
| Cli.ProbeMissingFinding | src/main.py:392-433 | as written, any non-empty manifest stops after its first segment with an exception, the missing-helper error whenever progress reads; the corrected loop runs through every segment when all are complete |
| Cli.RemoveTempFiles | src/main.py:509-530 | the loop removes parts in order until the first `OSError`, which is only reported; it reports success exactly when every part was removed |
| Cli.RemovalMeaning | src/main.py:517-530 | exactly the first n parts are gone, and when it stopped early the next part could not be removed |
| Cli.RemovalAll | src/main.py:517-526 | distinct parts that exist and are not held open are all removed |
| Cli.Download | src/main.py:254-295 | an exception of the segment loop ends it; otherwise a concat progress error or a non-zero concat exit ends it with that concat failure; the path is saved exactly when the concat child exited with 0 and its bar reached the total less 1 ms, and it ends in the `AttributeError` on `path.replace` (no path) exactly when the bar fell short. The recorded parts are fresh, distinct names of the temporary base; when the segment loop fails, a part is on disk exactly when its child wrote it and nothing else changed; once the segment loop returned the concat list file is on disk and stays; when the concat fails every part is on disk and the old files stay; any other new file is a name of the output base, and one exists exactly when the concat child wrote its output; after cleanup the old files stay, the saved output (a fresh name of the output base) exists, nothing but the parts, the list file and the output changed, and all parts are gone exactly when none is held open |
| Cli.ConcatAndClean | src/main.py:281-291 | the list file is left on disk in every case; a failing concat ends with its failure, keeps every file and adds, besides the list file, at most one, a name of the output base, exactly when that child wrote its output; otherwise the path is saved or missing by the completion rule, cleanup keeps every other file, and the parts are all removed exactly when none is held open |
| Cli.BesideList | src/main.py:285-286 | after a failed concat the new files are the list file and, when written, the output |
| Cli.CleanupBesideList | src/main.py:288-291 | cleanup after concat keeps the list file, the output and every other non-part file, and removes all parts exactly when none is held open |
| Cli.WrittenParts | src/main.py:254-279 | once the segment loop returned, the parts are fresh distinct names of the temporary base, each on disk exactly when its child wrote it, nothing else changed, and the list file is not among them |
| Cli.CleanupMeaning | src/main.py:509-530 | over distinct existing parts, cleanup keeps every other file and removes all parts exactly when none is held open |
| Cli.RemovalStops | src/main.py:516-520 | the parts are all removed exactly when they are distinct, all exist and none is held open |
| Cli.NamesApart | src/main.py:394-400 | no name of the temporary base `<cwd>/tmp/<file>` is ever a name of the output base `<cwd>/<file>` |
| Cli.GetUrlInput | src/main.py:533-555 | a blank answer, and only a blank one, raises `KeyboardInterrupt`; otherwise, when the stripped answer has a second whitespace-separated word that is a known quality, the result is the first two words, and else the whole stripped answer with the default quality; the URL is never empty; a quality other than the default is a known second word, the URL then being the first word; the URL differs from the whole stripped answer only when a known quality follows |
| Cli.GetUrlInputOfPair | src/main.py:552-553 | a URL, any whitespace run and a known quality, followed by any further words and surrounded by any whitespace, give back the URL and the quality |
| Cli.GetUrlInputOfUnknown | src/main.py:552-555 | when the second word is not a known quality, the URL is the whole stripped answer, further words included, with the default quality |
| Cli.QualityIsWord | src/main.py:552 | every accepted quality is one non-empty word without whitespace |
| Cli.AnswerShape | src/main.py:545-552 | the stripped answer drops exactly the surrounding whitespace, and its first two words are the URL and the word after the gap |
| Cli.WordsOfGap | src/main.py:552 | `split()` of a word, a whitespace run, a word and a tail starting with whitespace is the two words followed by the tail's words |
| Cli.CheckFfmpegPath | src/main.py:342-365 | a missing program or a first line without `ffmpeg` raises `ValueError`; a first line with `ffmpeg` but fewer than three space-separated tokens, and only such a line, raises `IndexError`; otherwise the version is the third token when the line mentions `git` and that token cut at its first `-` when not; a version never holds a space, nor a `-` unless the line mentions `git` |
| Cli.CheckFfmpegGit | src/main.py:357-359 | a banner `ffmpeg version <token> ...` whose first line mentions `git` yields the whole `<token>` |
| Cli.CheckFfmpegRelease | src/main.py:357-361 | a release banner `ffmpeg version <ver>-<build> ...` yields `<ver>` |
| Cli.BatchUrls | src/main.py:191-193 | at most one entry per line, each non-empty and already stripped |
| Cli.BatchUrlsMeaning | src/main.py:193 | the list holds the stripped text of every non-blank line and nothing else |
| Cli.BatchUrlsOne | src/main.py:193 | one line gives its stripped text, or nothing when it is blank |
| Cli.BatchUrlsAppend | src/main.py:193 | the list for two blocks of lines joined is the two lists joined, so order and duplicates are kept line by line |
| Cli.CredentialInput | src/main.py:298-322 | the three answers replace the credentials; a label is added to the changed set exactly when its value differs |
| Cli.CredentialsUnchanged | src/main.py:315-320 | typing the same credentials marks nothing as changed |
| Cli.TryLogin | src/main.py:325-339 | True whenever `login` returns, even when it returned False; False exactly for a `LoginError`; other exceptions escape |
| Cli.TryLoginTrustsLogin | src/main.py:333-336 | an accepted login whose confirming probe fails is still reported as a success |
| Cli.TryLoginWhenLoggedIn | src/main.py:333-336 | already logged in: success without a login request |
| SoopDl.DownloadCommand | src/soop_dl.py:61-82 | 15 elements beyond the header arguments (17 in turbo mode), ffmpeg first, the output path right after the fixed options |
| SoopDl.DownloadCommandShape | src/soop_dl.py:61-82 | ffmpeg, the header arguments, `-i url`; the output path is last without turbo, and turbo appends `-threads 0` after it |
| SoopDl.OutputFileSame | src/soop_dl.py:386 | sanitising `title.mp4` equals sanitising the title and adding `.mp4`, so the segments start from the same path as in the newer driver |
| SoopDl.GetDownloadProcess | src/soop_dl.py:33-82 | a free path under `tmp` (the base itself when free, otherwise a numbered name) and the argv for it |
| SoopDl.BuildDownloadCommand | src/soop_dl.py:46-82 | the argv list built and extended is `DownloadCommand` over the session's header arguments |
| SoopDl.ConcatCommand | src/soop_dl.py:112-135 | the concat argv of this driver; its shape is stated by `ConcatCommandShape` |
| SoopDl.ConcatCommandShape | src/soop_dl.py:112-135 | 18 or 20 elements; the list file follows `-i`; the export path is last only without turbo |
| SoopDl.Absolute | src/soop_dl.py:103-104 | each part replaced by its `os.path.abspath`, in order |
| SoopDl.AbsoluteListLines | src/soop_dl.py:101-106 | read back by lines, the list file holds `file '<abspath(part)>'` per part and nothing after the last newline |
| SoopDl.AbsoluteSnoc | src/soop_dl.py:103-104 | one more part adds its absolute path at the end |
| SoopDl.WriteAbsoluteList | src/soop_dl.py:101-106 | the write loop produces the list text over the absolute paths |
| SoopDl.GetConcatProcess | src/soop_dl.py:94-135 | the list text written to the list file, which then stays on disk, an export path named from `<cwd>/<file>` and free on the filesystem holding the list, and the concat argv on them |
| SoopDl.BuildConcatCommand | src/soop_dl.py:112-135 | the argv list built and extended is `ConcatCommand` |
| SoopDl.SegmentsFrom | src/soop_dl.py:394-426 | the loop from segment i visits between i and all segments |
| SoopDl.FirstShort | src/soop_dl.py:406-418 | the first segment whose reader raised or that fell short by more than 1 ms; all before it were reached |
| SoopDl.SegmentsMeaning | src/soop_dl.py:394-436 | the loop visits every reached segment and the first one not reached; the total gains that segment's progress value only when it was merely short, and nothing from complete segments; an error is reported exactly when its reader raised |
| SoopDl.MergeLabelAfterFullRun | src/soop_dl.py:411-464 | after a run where every segment is reached, the merge total is 0, so a merge reporting times then `progress=end` is always labelled complete |
| SoopDl.DownloadSegments | src/soop_dl.py:388-426 | visited count, total and error are those of `SegmentsFrom`; launch j ran ffmpeg on item j's URL and a fresh name of the temporary base, and left that file exactly when its child wrote it |
| SoopDl.ReadSegment | src/soop_dl.py:405-426 | one turn's reading: a raised reader error ends the loop with that error, a segment short by more than 1 ms ends it with its last value added, and any other segment lets it go on with the total unchanged, as `SegmentsFrom` says |
| SoopDl.Start | src/soop_dl.py:396-399 | one launch records one fresh path, on disk exactly when the child wrote its file, and keeps the launch record |
| SoopDl.PairsAttribute | src/model/manifest.py:47-52 | a `Manifest` yields its pairs through `items` and no other attribute |
| SoopDl.ListAttributeFinding | src/soop_dl.py:393-436 | reading `manifest.list` raises `AttributeError('list')` for every manifest, caught by the handler; reading `items` runs the loop, which launches a segment whenever the manifest is not empty |
| SoopDl.DownloadEnds | src/soop_dl.py:385-491 | the outcome of `download`: a reader error in the segment loop ends it; the merge runs over the recorded parts, truncated or not, labelled "complete" exactly when the bar reached the total less 1 ms; cleanup runs under either label and finishes exactly when every segment child wrote its part and no part is held open |
| SoopDl.DownloadWith | src/soop_dl.py:385-491 | `DownloadEnds` holds. Parts are new, and a part whose child wrote it is never chosen again; after a reader error the filesystem is the old one plus the written parts; otherwise the merge list file is left on disk; a finished path is new, exists exactly when the merge child wrote it, the parts are gone and no other file changed |
| SoopDl.MergeAndClean | src/soop_dl.py:438-486 | the list file is left on disk in every case; a merge error keeps every file and adds, besides the list file, at most the export file, exactly when its child wrote it; otherwise a labelled merge followed by cleanup, finishing exactly when the parts are distinct, all on disk and none is held open; then the export file exists exactly when the merge child wrote it, no part is left and nothing else changed |
| SoopDl.CleanupBesideExport | src/soop_dl.py:466-486 | removing the parts beside the list file and the export file removes them all exactly when they are distinct, exist and none is held open, leaves the list file, leaves the export file there exactly when it was written, and touches nothing else |
| SoopDl.Download | src/soop_dl.py:375-491 | the shared session is created on first use and kept, then `DownloadEnds` holds; a finished path is new and exists exactly when the merge child wrote it; unless the segment loop failed, the list file is left on disk |
| SoopDl.TryLogin | src/soop_dl.py:180-197 | True without a request when login is not asked for; otherwise True exactly when `login` returns True, False when it returns False or raises `LoginError`; other exceptions escape |
| SoopDl.TryLoginDiffers | src/soop_dl.py:180-197 | it differs from the newer driver's `try_login` exactly when `login` returned False |
| LegacySoopDl.Request360Selects | soop_dl.py:249-254 | with this file's table, a 360p request targets `360p`, compared as height `360`; the package's table falls back to the native height |
| LegacySoopDl.TargetSameOtherwise | soop_dl.py:249-254 | every other request gets the same target from both tables |
| LegacySoopDl.ReadOutSame | soop_dl.py:199-215 | the extra `strip` changes nothing: values and errors equal those of the package's reader |
| LegacySoopDl.SessionSetup | soop_dl.py:515-537 | a fresh session with the fixed headers; its cookie jar is empty without login and is the login exchanges' jar with it; the login result follows the package driver's `try_login` rule |

## Left out

- URL parsing (`urllib.parse.urlparse`) is not modelled: the netloc and path are inputs.
- HTTP itself is not modelled: every request's outcome is an input value. The login payload fields and timeouts are not modelled, nor the stripping of credentials before the call.
- Child processes are not modelled: `subprocess.Popen`, `subprocess.run` and stdin forwarding are left out, and what each child did (its output lines, exit code, whether a failed child still created its file, the duration probe's answer) is given as data.
- Cookies that server replies set are not computed. LegacySoopDl.SessionSetup takes the jar left by the login exchanges as an input. `Soop.Login` does not touch the session, and the argv builders use the session's jar as they find it.
- The name of the temporary concat list file is an input: `tempfile` picks it in the system's temporary directory with a `.txt` suffix. Hence the requirement, on the download methods, that it is not already on disk and is not a name the temporary parts or the output could take. The file is created and, since it is opened with `delete=False`, left on disk; the model adds it to the filesystem and never removes it.
- `os.makedirs` and its failures, and a `Popen` that fails to start, are left out.
- The rich progress bars, console output, typer prompts, config files (`handle_config`, `dump_config`, `login_form`), `main`'s loops and `get_manifest_wrap` are user-interface code and are not modelled, except the input parsers listed above.
- `SOOP.logout` is not modelled: nothing in the core calls it.
- The user aborting with Q, and concurrency, are left out.
- Strings.ParseInt: Python's `int()` leniency is left out. `ParseInt` accepts only an optional sign followed by ASCII digits; surrounding whitespace, underscores and non-ASCII digits are refused, where `int()` accepts them.
- Windows paths are left out. Paths follow the POSIX `os.path` rules, and the `replace("\\", "/")` on printing is not modelled.
- `total_duration` in `src/main.py` is a float starting at 0.0; the model uses integers, which give the same comparisons for integer progress values.
- Cli.DownloadParts: `src/main.py:424` calls `util.get_duration_ms`, which `src/util/util.py` does not define, so as written the loop ends in `AttributeError` at the first segment whose progress reads (see Findings). `Cli.DownloadParts`, `Cli.VisitParts`, `Cli.VidLen` and `Cli.Download` model the loop as intended, taking the probe's answer as given data.
- The `version=` argument that `src/main.py:405-407` passes to `download_process` is not modelled. `src/process/__init__.py` is not part of this model. The `download_process` of `src/process/process.py` has no such parameter, so the call may raise `TypeError`; the model takes the call as if the argument were absent.
- Root `soop_dl.py` has code paths that cannot run as written, and these are not modelled:
  - its `Manifest` is created without the required `title` (line 237), and its lists default to tuples (118-119), so `_get_manifest_urls` cannot build a manifest;
  - its inner loop calls `dict()` on the `quality_info` list (258);
  - `main` calls `session_setup` with one argument (650) and indexes its result (656).

  The model takes the intended behaviour of `_get_manifest_urls` from the package's `get_manifest`, and `session_setup` as it is defined.
- SoopDl.DownloadWith: the parts are not promised to be distinct. A segment child that failed without creating its file leaves its name free, so a later segment may be given the same name; only a part whose child wrote it is never chosen again.
- Cli.Download, Cli.ConcatAndClean, SoopDl.MergeAndClean: after a failed concat the model says only that its output, when the child left one, is some free name of the output base, not which one.
- SoopDl.DownloadWith: the exception a failing `_get_download_process` or `_get_concat_process` would raise (caught and turned into True) is not modelled, since launching cannot fail in the model.

## Findings

| source | as written | input that shows it | evidently intended | confidence | as-written member | corrected member |
|---|---|---|---|---|---|---|
| src/main.py:424 | `util.get_duration_ms(tmp_path, ffprobe_path)` calls a function that `src/util/util.py` does not define, so the `AttributeError` escapes `download_parts` and `download` after the first segment's progress is read, and `main` reports it (lines 173-178) | any manifest whose first segment's progress reads without error, e.g. one entry `("u", 1000)` with a child reporting `progress=end` | a helper in `util` that returns the downloaded file's duration in ms, or a falsy value when it cannot | not executed | Cli.ProbeMissingFinding | Cli.DownloadParts |
| src/soop_dl.py:394 | `for url, duration in manifest.list:` reads an attribute that the package's `Manifest` (src/model/manifest.py) does not define; the `AttributeError` is caught at line 427 and `download` returns True before any segment | any manifest, e.g. one entry `("u", 1000)` | iterate `manifest.items`, the property that yields the (url, duration) pairs | not executed | SoopDl.ListAttributeFinding | SoopDl.DownloadWith |
