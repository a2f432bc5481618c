# yt-downloader: download-task bookkeeping in Dafny

This project models the bookkeeping core of yt-downloader. yt-downloader is a
desktop YouTube downloader with a Tk user interface and a webview user
interface. The model covers:

- the download worker's life cycle: validation; the statuses
  `downloading`, `converting` and `done`/`error`/`cancelled`; the choice
  between a plain rename, a stream copy and a transcode; the target bitrate;
  exactly one closing `finished` event; and the clean-up of the work folders;
- the two queue coordinators, each modelled on its own:
  - the webview `Bridge`: sequential admission through a FIFO waiting list,
    cancel, remove and clear, event-to-record updates, and the load-time
    rewrite of interrupted tasks;
  - the Tk window's record handling (`DownloaderUI`): the `task-N` counter,
    the load-time normalisation of the saved queue, record updates, and the
    guards on remove and clear;
- the pure helpers:
  - file names, timestamps and titles;
  - the YouTube URL shape check and collision-free path naming;
  - version comparison and the ranking of release assets and executables;
  - the action buttons of a task row;
  - the translation fallback;
  - the argument vector of the self-updater and the JSON list of launch
    arguments it carries.

Files:

| file | module | models |
|---|---|---|
| wrappers.dfy | Wrappers | `Option` and `Result` |
| text.dfy | Text | the `str` operations the source relies on (`strip`, `split`, `lower`, `int`, `str(n)`) |
| utils.dfy | Utils | `yt_downloader/utils.py` |
| localization.dfy | Localization | `yt_downloader/localization.py`, including the full `TRANSLATIONS` catalogue |
| updates.dfy | Updates | `yt_downloader/updates.py` |
| json_string_list.dfy | JsonStrings | `json.dumps`/`json.loads` restricted to a list of strings |
| updater.dfy | Updater | `yt_downloader/updater.py` |
| events.dfy | Events | the worker's event dictionaries |
| worker.dfy | Worker | `DownloadWorker` in `yt_downloader/worker.py` |
| widgets.dfy | Widgets | `TaskRow` in `yt_downloader/widgets.py` |
| bridge.dfy | Bridge | `Bridge` in `main_webview.py` |
| app.dfy | App | the record handling of `DownloaderUI` in `yt_downloader/app.py` |

## How the model is built

- **Classes where the source changes state.** `DownloadWorker`, `TaskRow`,
  `Bridge` and `DownloaderUI` are classes. Their fields are the ones the
  source updates. Each method of `TaskRow`, `Bridge` and `DownloaderUI`
  states every field it may change, including the saved copy of the queue,
  in terms of specification functions. The properties are proved about
  those functions. The worker's methods state their effects through
  projections instead: the milestones among the events, the `title`
  event, the file operations, the commands, and the cancel flag. Their
  log lines and the processes they terminate are not stated (see
  "## Left out").
  - A method whose Python loops (`_load_queue_state`,
    `_compute_next_task_counter`, `_restore_queue_from_history`,
    `parse_time_input`, `unique_path`, `normalize_version`, the candidate
    loops of the ranking functions, `replace_executable_with_retry`) keeps
    its loop, with the invariants that tie it to its function.
- **External programs are oracles.** The worker is given an environment
  record:
  - the exit code and standard output of each command;
  - the metadata title and the source file yt-dlp leaves;
  - the file size;
  - the moment at which another thread calls `cancel()`.

  Each checkpoint and each command run is one moment. `Run` calls
  `Cancel` at the moment the environment names, so the worker's reaction to
  a concurrent cancel is modelled at every point where the source can
  observe it.
- **Events.** The worker's events are a `seq` of a tagged datatype.
  `Milestones` projects them onto the events the life cycle is about:
  statuses, `done`, `error` and `finished`.
- **Time.** Seconds are exact `real`s. `format_timestamp` works on whole
  milliseconds, rounded half to even as Python's `round` does.
  `parse_time_input` reads each field by the grammar of Python's `float`
  (a sign, digits with single underscores, a fraction, an exponent), and
  the value is exact.
- **Translation.** A translator is a function value:
  - the worker pins it to `Localization.Translate` in its language;
  - a task row receives it from its owner, as the source does.
- **Threads and locks.** Every coordinator method is one atomic step. Whether
  a worker thread is alive is a parameter. The webview bridge's lock is
  modelled once, to show the self-deadlock below.

### Where the program does not do what its design says

- **`format_timestamp` loses seconds in the hours form**
  (yt_downloader/utils.py:29). `.rstrip("0.")` also strips the seconds field
  when there are hours and no milliseconds:
  - 3600 s gives `01:00:`, which `parse_time_input` refuses
    (`Utils.WholeMinuteNotReadBack`);
  - 3610 s gives `01:00:1`, which reads back as 3601 s
    (`Utils.TensOfSecondsNotReadBack`).

  Everywhere else the round trip holds (`Utils.FormatTimestampRoundTrip`).
  The model keeps the function as written, because the worker builds its
  clip arguments with it.
- **The Tk window drops the worker's error text.** `_poll_queue` reads the
  key `message` from an `error` event, but the worker sends `error`. The
  record therefore ends with status `error` and no error text
  (`App.WorkerErrorTextLost`, `Events.ErrorEventFields`). The model keeps
  this behaviour.
- **`Bridge.cancel_download` deadlocks** when the task has no worker: see
  "## Findings".
- **The bridge calls code that is not shown.** `main_webview.py` passes
  `convert_to_mp4` to a `DownloadWorker` that has no such parameter. It also
  imports `is_supported_video_url` and `resolve_asset_path`, which
  `yt_downloader/utils.py` does not define, and `cleanup_old_versions` and
  `install_update_and_restart`, which `yt_downloader/updater.py` does not
  define. The bridge therefore treats a
  worker as an abstract handle (its arguments and whether a cancel was
  requested). URL support is a predicate passed in as a parameter.

## Model

| member | source | states |
|---|---|---|
| Utils.ReplaceUnsafe | yt_downloader/utils.py:13-14 | each of `<>:"/\|?*` and each control character is replaced one-for-one by `_`; every other character is kept |
| Utils.SanitizeFilename | yt_downloader/utils.py:10-18 | the name is never empty, has no unsafe character, does not end in `.` or a space, and is `video` or a piece of the one-for-one replaced title |
| Utils.SanitizeKeepsCleanTitle | yt_downloader/utils.py:15-18 | a title with no unsafe character, no surrounding blanks and no trailing `.` comes back unchanged |
| Utils.SanitizeFilenameExamples | tests/test_utils.py:13-20 | `a:b` becomes `a_b`; ` ..` falls back to `video` |
| Utils.RoundHalfEven | yt_downloader/utils.py:24 | the milliseconds are the nearest whole number, and a tie goes to the even one, as Python's `round` does |
| Utils.PartValues | yt_downloader/utils.py:87-93 | each `:`-separated field is read by `float`, position for position |
| Utils.ParseFloat | yt_downloader/utils.py:91 | a number needs a non-blank text, and only a leading `-` makes it negative |
| Utils.ParseFloatDigits | yt_downloader/utils.py:91 | a run of digits reads as its decimal value |
| Utils.ParseFloatDecimal | yt_downloader/utils.py:91 | `a.b` reads as a plus the fraction b, also when b is empty |
| Utils.ParseFloatTrailingPoint | yt_downloader/utils.py:91 | `a.` reads as a |
| Utils.ParseFloatFraction | yt_downloader/utils.py:91 | `a.b` with at least one digit after the point reads as a plus the fraction b |
| Utils.ParseFloatExponent | yt_downloader/utils.py:91 | `aeN` reads as a times ten to the N |
| Utils.ParseFloatUnderscore | yt_downloader/utils.py:91 | a single underscore between digits is ignored |
| Utils.ParseFloatRejects | yt_downloader/utils.py:91 | a doubled, leading or trailing underscore, an empty exponent and two points are refused |
| Utils.TimeSpecExponentExample | yt_downloader/utils.py:76-96 | `1e2` reads as 100 seconds, as `float` does |
| Utils.TimeSpec | yt_downloader/utils.py:76-96 | no time exactly when the text is blank; a time has at most three fields |
| Utils.SumParts | yt_downloader/utils.py:85-96 | the loop over the reversed fields, with `multiplier *= 60`, computes the base-60 sum of the field values, and fails as soon as one field is not a number |
| Utils.SumValuesFails | yt_downloader/utils.py:87-93 | one field that is not a number spoils the whole sum |
| Utils.TimeSpecRejects | yt_downloader/utils.py:79-89 | blank text gives no time; more than three fields, or an empty field, is an error |
| Utils.TimeSpecTwoFields | yt_downloader/utils.py:76-96 | `mm:ss` reads as 60·mm + ss |
| Utils.TimeSpecThreeFields | yt_downloader/utils.py:76-96 | `hh:mm:ss` reads as 3600·hh + 60·mm + ss |
| Utils.FormatTimestamp | yt_downloader/utils.py:21-32 | a whole number of seconds under an hour is written as two digits, `:` and two digits |
| Utils.FormatSeconds | yt_downloader/utils.py:21-24 | a time of zero or less is `00:00`; a time in whole milliseconds is formatted from those milliseconds |
| Utils.FormatTimestampZero | yt_downloader/utils.py:23-32 | zero is written `00:00` |
| Utils.FormatSecondsRoundTrip | yt_downloader/utils.py:21-96 | reading back the text of any time gives the time rounded to the millisecond, whenever it is under an hour or has a non-zero millisecond part |
| Utils.FormatTimestampRoundTrip | yt_downloader/utils.py:21-32 | reading a formatted timestamp back gives the same number of milliseconds whenever the time is under an hour or has a non-zero millisecond part |
| Utils.FormatTimestampDropsSeconds | yt_downloader/utils.py:27-30 | at a whole minute of an hour or more the text is `hh:mm:`, with the seconds stripped |
| Utils.EmptySecondsRejected | yt_downloader/utils.py:87-89 | a text ending in an empty seconds field is refused |
| Utils.WholeMinuteNotReadBack | yt_downloader/utils.py:21-32 | at a whole minute of an hour or more the formatted time cannot be read back |
| Utils.FormatTimestampDropsTensZero | yt_downloader/utils.py:27-30 | at a whole ten seconds (not a whole minute) of an hour or more, the seconds field loses its trailing zero |
| Utils.TensOfSecondsMisread | yt_downloader/utils.py:21-32 | such a time reads back with one tenth of its seconds |
| Utils.TensOfSecondsNotReadBack | yt_downloader/utils.py:21-32 | such a time does not read back as itself |
| Utils.KeptLength | yt_downloader/utils.py:38-40 | `max(limit - 3, 1)` capped at the length: at most `limit - 3` when the limit is at least 4, and at least 1 for a non-empty title |
| Utils.ShortenTitle | yt_downloader/utils.py:35-41 | a title within the limit comes back unchanged; a longer one is cut to the kept length plus three characters |
| Utils.ShortenTitleShape | yt_downloader/utils.py:40-41 | a shortened title is a prefix of the title followed by `...` |
| Utils.ShortenTitleFits | yt_downloader/utils.py:35-41 | with a limit of at least 4 the result never exceeds the limit |
| Utils.QueryValues | yt_downloader/utils.py:62-63 | `parse_qs` keeps only the non-blank values of a key |
| Utils.IsYoutubeVideoUrl | yt_downloader/utils.py:44-73 | only http and https URLs on a `youtube.com` or `youtu.be` host are accepted |
| Utils.IsYoutubeVideoText | yt_downloader/utils.py:47-51 | blank text is refused |
| Utils.WatchNeedsVideoId | yt_downloader/utils.py:60-63 | a `/watch` link is accepted exactly when the query has a non-blank `v` |
| Utils.ShortLinkAccepted | tests/test_utils.py:41-69 | `https://youtu.be/abc123` is accepted |
| Utils.ShortsAccepted | tests/test_utils.py:41-69 | `https://youtube.com/shorts/abc123` is accepted |
| Utils.WatchWithoutQueryRejected | tests/test_utils.py:41-69 | `/watch` without a query is refused |
| Utils.ForeignUrlsRejected | tests/test_utils.py:41-69 | an ftp scheme or a foreign host is refused |
| Utils.PlaylistRejected | tests/test_utils.py:41-69 | a playlist link is refused |
| Utils.NumberedInjective | yt_downloader/utils.py:105-110 | different counters give different numbered names |
| Utils.UniquePath | yt_downloader/utils.py:99-113 | the result does not exist; it is the candidate when that is free, else `stem_k+suffix` for the smallest k ≥ 1 that is free |
| Utils.UniquePathExample | tests/test_utils.py:97-109 | with `file.txt` and `file_1.txt` taken the result is `file_2.txt` |
| Utils.FirstFreeIsSecond | yt_downloader/utils.py:108-113 | when `_1` is taken and `_2` is free, the smallest free counter is 2 |
| Localization.CatalogueOf | yt_downloader/localization.py:10-218 | every catalogue entry carries both `uk` and `en` |
| Localization.CatalogueKeys | yt_downloader/localization.py:10-218 | the keys of the dictionary are exactly the keys of its entries |
| Localization.CatalogueLastWins | yt_downloader/localization.py:10-218 | a key written twice in the literal keeps its last entry, as a Python dict literal does |
| Localization.CatalogueOnlySupported | yt_downloader/localization.py:7-218 | the catalogue holds no language other than the supported ones |
| Localization.TranslationsComplete | yt_downloader/localization.py:7-218 | every key of `TRANSLATIONS` has a text in every supported language |
| Localization.BraceFree | yt_downloader/localization.py:228 | the length of the longest brace-free prefix |
| Localization.Format | yt_downloader/localization.py:228 | a text without braces formats to itself |
| Localization.FormatField | yt_downloader/localization.py:228 | a named field is replaced by its argument |
| Localization.FormatMissingArgument | yt_downloader/localization.py:227-231 | a field without an argument makes `format` fail |
| Localization.Lookup | yt_downloader/localization.py:224-226 | the entry in the language, else the default language's entry, else the key itself |
| Localization.FormatOrKeep | yt_downloader/localization.py:227-231 | a failed formatting returns the unformatted text |
| Localization.Translate | yt_downloader/localization.py:221-231 | a known key in a supported language gives that language's formatted entry; an unknown key gives the key; a formatting failure gives the text unformatted |
| Localization.TranslateFallback | yt_downloader/localization.py:225-226 | an unsupported language falls back to the `uk` text |
| Localization.TranslateUnknown | yt_downloader/localization.py:224-226 | an unknown key translates to itself |
| Updates.DigitRun | yt_downloader/updates.py:78-81 | the length of the leading run of digits |
| Updates.FirstDigitRun | yt_downloader/updates.py:78-81 | the first run of digits, absent exactly when there is no digit |
| Updates.IntOf | yt_downloader/updates.py:76-77 | `int()` of a component succeeds only on a run of digits, with its value |
| Updates.CleanVersion | yt_downloader/updates.py:69 | the cleaned version is a suffix of the stripped text and does not start with `v` or `V` |
| Updates.Normalized | yt_downloader/updates.py:66-85 | the version tuple is never empty, and is `(0,)` for a blank version |
| Updates.NormalizeVersion | yt_downloader/updates.py:66-85 | the loop over the parts computes the normalised tuple |
| Updates.PartValueIsFirstRun | yt_downloader/updates.py:76-82 | a part's value is the value of its first digit run, or 0 |
| Updates.NewerAtLength | yt_downloader/updates.py:88-97 | padding both tuples further with zeros does not change the comparison |
| Updates.IsVersionNewer | yt_downloader/updates.py:88-97 | a version is never newer than one with the same normalised tuple |
| Updates.VersionNewerIrreflexive | yt_downloader/updates.py:88-97 | no version is newer than itself |
| Updates.VersionNewerAsymmetric | yt_downloader/updates.py:88-97 | two versions are never each newer than the other |
| Updates.VersionNewerTransitive | yt_downloader/updates.py:88-97 | newer-than is transitive |
| Updates.TrailingZerosNotNewer | yt_downloader/updates.py:93-97 | versions that differ by trailing zeros (`1.0.0`, `1.0`) are not newer than each other |
| Updates.AssetScore | yt_downloader/updates.py:108-117 | the score adds 4, 3, 2 and 1 for win, `.zip`, `.exe` and yt-with-download |
| Updates.CandidatesEmpty | yt_downloader/updates.py:104-121 | there is no candidate exactly when no asset has a name |
| Updates.CandidatesFromAssets | yt_downloader/updates.py:104-118 | every candidate is a named asset with its score |
| Updates.NamedAssetsAreCandidates | yt_downloader/updates.py:104-118 | every named asset is a candidate |
| Updates.CollectCandidates | yt_downloader/updates.py:103-118 | the loop collects the candidates in order |
| Updates.BestCandidate | yt_downloader/updates.py:121-122 | the pick is a candidate that no other candidate outranks by score and then by name |
| Updates.SortClash | yt_downloader/updates.py:121 | finds whether two distinct assets share a score and a name, the case in which sorting compares the dictionaries |
| Updates.SelectPreferredAsset | yt_downloader/updates.py:100-122 | no asset exactly when none has a name; otherwise a named asset ranked highest by score and then by name; a score-and-name tie between different assets raises `TypeError` |
| Updates.ExecutableScore | yt_downloader/updates.py:238-245 | the score adds 4, 3 and 1 for the `yt-downloader` prefix, yt-with-download and setup or installer |
| Updates.RankExecutables | yt_downloader/updates.py:236-246 | each path gets its score and its negated part count |
| Updates.BestRanked | yt_downloader/updates.py:249-250 | the pick is a ranked path that no other outranks |
| Updates.PathLessTotal | yt_downloader/updates.py:249 | two distinct paths are always ordered, so the sort has one maximum |
| Updates.ExecutableBestUnique | yt_downloader/updates.py:246-250 | two top-ranked executables are the same path |
| Updates.FindWindowsExecutable | yt_downloader/updates.py:231-250 | none exactly when the root is missing or holds no `.exe`; otherwise a top-ranked executable |
| Updates.CheckRelease | yt_downloader/updates.py:151-174 | a tag that is empty after stripping `v`/`V` is `missing_version`; a tag not newer than the current version gives no update; for a newer tag the result is `TypeError` exactly when two named assets tie in the ranking, and otherwise the update names the stripped, newer version and the repository, links the release's `html_url` or else `https://github.com/{repo}/releases/latest`, and carries the name, URL and size of the preferred asset, or none of them when no asset has a name |
| JsonStrings.Hex4RoundTrip | yt_downloader/updater.py:284 | four hex digits read back as the code unit they encode |
| JsonStrings.EscapeCharRoundTrip | yt_downloader/updater.py:144-153 | an escaped character parses back to itself |
| JsonStrings.SurrogatePairRoundTrip | yt_downloader/updater.py:144-153 | a character beyond the basic plane, written as a surrogate pair, parses back to itself |
| JsonStrings.EscapeAllAscii | yt_downloader/updater.py:284 | with `ensure_ascii` the encoded text is printable ASCII |
| JsonStrings.EscapeAllRoundTrip | yt_downloader/updater.py:144-153 | an escaped string body parses back to the string |
| JsonStrings.QuoteRoundTrip | yt_downloader/updater.py:144-153 | a quoted string parses back to the string |
| JsonStrings.ItemsRoundTrip | yt_downloader/updater.py:144-153 | the rest of an encoded list parses back to its items |
| JsonStrings.DumpStrings | yt_downloader/updater.py:284 | the encoding of a list is bracketed |
| JsonStrings.LoadDumpStrings | yt_downloader/updater.py:144-153 | decoding the encoding of a list of strings gives the list |
| JsonStrings.ArrayRoundTrip | yt_downloader/updater.py:144-153 | the encoding parses as that array with nothing left over |
| Updater.Flags | yt_downloader/updater.py:268-289 | the flags are the even positions of the option list |
| Updater.ValueOf | yt_downloader/updater.py:296-310 | a flag has a value exactly when it occurs among the flags |
| Updater.Lookup | yt_downloader/updater.py:268-289 | a flag's value is that of its first pair |
| Updater.ReadFlattened | yt_downloader/updater.py:268-289 | reading a flag from the flattened command gives the value of its pair |
| Updater.OptionalPair | yt_downloader/updater.py:280-289 | an optional flag is present with its value exactly when the value is given |
| Updater.ExtendIfGiven | yt_downloader/updater.py:280-289 | `command.extend` of an optional pair appends it only when the value is given |
| Updater.BuildUpdaterCommand | yt_downloader/updater.py:255-290 | the command is the executable, `--run-updater`, then the flattened options |
| Updater.CommandShape | yt_downloader/updater.py:268-290 | the command starts with the executable and `--run-updater`, has at least ten words in flag-value pairs, and is recognised by `maybe_run_updater` |
| Updater.FixedValues | yt_downloader/updater.py:268-279 | `--source`, `--target`, `--wait-before` and `--max-wait` are always present, each with its value |
| Updater.OptionalValues | yt_downloader/updater.py:280-286 | `--launch` and `--log-file` carry their values when given; `--launch-args-json` is present exactly when there are launch arguments, and decodes back to them |
| Updater.RelaunchValues | yt_downloader/updater.py:287-289 | `--relaunch-helper` and `--relaunch-wait` appear together, exactly when a helper is given |
| Updater.ParseLaunchArgs | yt_downloader/updater.py:144-153 | no value, an empty value and an undecodable value give the empty list |
| Updater.LaunchArgsRoundTrip | yt_downloader/updater.py:144-153 | parsing the encoded launch arguments gives them back |
| Updater.MaybeRunUpdater | yt_downloader/updater.py:325-331 | no result exactly when `--run-updater` is absent, else the updater's exit code |
| Updater.ReplaceExecutableWithRetry | yt_downloader/updater.py:94-141 | a missing source fails before any try; source equal to target returns the target untouched; otherwise it succeeds at the first successful try, or fails after `attempts` tries with the last error |
| Events.Get | yt_downloader/worker.py:414-417 | every event carries its `task_id` and `type` |
| Events.ErrorEventFields | yt_downloader/worker.py:241 | an error event carries its text under `error`, and has no `message` key |
| Events.Marks | yt_downloader/worker.py:414-417 | log, title and progress events mark no step of the life cycle; the others mark one |
| Events.MilestonesAppend | yt_downloader/worker.py:414-417 | the milestones of appended logs are the appended milestones |
| Events.FinishedCountOfMilestones | yt_downloader/worker.py:244 | counting `finished` events counts `finished` milestones |
| Worker.Underscored | yt_downloader/worker.py:73 | the task id in the folder name keeps its length and loses its dashes |
| Worker.ClipParts | yt_downloader/worker.py:99-103 | the parts are present exactly when a clip is requested: `-ss` first when the start is positive, `-to` last when an end is set |
| Worker.DownloaderArgs | yt_downloader/worker.py:95-111 | the downloader arguments are present exactly when a clip is requested, and pass the clip to ffmpeg |
| Worker.NoClipDuringFfmpeg | yt_downloader/worker.py:158-161 | a requested clip is always applied while downloading, so ffmpeg never clips |
| Worker.CodecName | yt_downloader/worker.py:315-334 | the stripped ffprobe output, or `unknown` when it is empty |
| Worker.DurationValue | yt_downloader/worker.py:264-269 | the duration is at least 1 second and at least the number `float` reads from ffprobe's output, and 1 when that output is not a number |
| Worker.TotalBitrate | yt_downloader/worker.py:271 | the floor of size·8 over the duration |
| Worker.Headroom | yt_downloader/worker.py:275-277 | the floor of 1.15 times the larger of 800 000 and the total less 320 000 |
| Worker.MegabitsLeast | yt_downloader/worker.py:278-279 | the bitrate is the fewest whole megabits, and at least 4, that cover the headroom |
| Worker.Vbit | yt_downloader/worker.py:250-279 | the bitrate text is a whole number of megabits followed by `M`, at least 4, and covers the headroom |
| Worker.VbitExample | yt_downloader/worker.py:250-279 | 100 000 000 bytes over 60 seconds give `15M` |
| Worker.BuildFfmpegCommand | yt_downloader/worker.py:157-212 | the ffmpeg command starts with its fixed flags, clips only when clipping falls to ffmpeg, and ends with the output name |
| Worker.StageMarks | yt_downloader/worker.py:77-156 | at most the statuses `downloading` and `converting` are reached before an interruption |
| Worker.Reached | yt_downloader/worker.py:61-231 | the attempt itself emits no error, no `finished` and no `cancelled` or `error` status |
| Worker.Ending | yt_downloader/worker.py:232-244 | the ending closes with `finished` and has no other |
| Worker.TraceFinishesOnce | yt_downloader/worker.py:55-248 | every run emits exactly one `finished`, and it comes last |
| Worker.TraceCancelled | yt_downloader/worker.py:232-237 | a cancelled run ends with status `cancelled` and a cancelled `finished` without error, and emits no error and no `done` |
| Worker.TraceFailed | yt_downloader/worker.py:238-244 | a failed run ends with status `error`, an error event and a `finished` carrying the text, and is never `done` or `cancelled` |
| Worker.TraceCompleted | yt_downloader/worker.py:77-244 | a completed run starts with `downloading` and ends with status `done`, the `done` event and `finished` |
| Worker.Translator | yt_downloader/worker.py:419-420 | `_t` is `translate` in the worker's language |
| Worker.DownloadWorker.constructor | yt_downloader/worker.py:25-52 | the URL is stripped, a negative start becomes 0, an unsupported language becomes `uk`; no error, no cancel and no process |
| Worker.DownloadWorker.ValidationError | yt_downloader/worker.py:62-66 | the input is refused exactly when the URL is empty or the end is not after the start, with the matching message |
| Worker.DownloadWorker.Cancel | yt_downloader/worker.py:391-402 | sets the flag and terminates the registered process, if any |
| Worker.DownloadWorker.Tick | yt_downloader/worker.py:391-402 | another thread's `cancel()` lands when it is due: the flag is set exactly when it was set or a cancel fell due |
| Worker.DownloadWorker.CheckCancelled | yt_downloader/worker.py:404-406 | passes exactly when the cancel flag is clear |
| Worker.DownloadWorker.RunCommand | yt_downloader/worker.py:336-389 | the process is always unregistered afterwards; a set cancel flag wins over the exit code; a non-zero exit fails with the process error text; otherwise the captured output |
| Worker.DownloadWorker.Emit | yt_downloader/worker.py:414-417 | the event is appended to the log |
| Worker.DownloadWorker.LogText | yt_downloader/worker.py:408-409 | a translated log line is appended, and marks no milestone |
| Worker.DownloadWorker.SetStatus | yt_downloader/worker.py:411-412 | a status event is appended |
| Worker.DownloadWorker.Prepare | yt_downloader/worker.py:68-78 | the root folder is created, and the temporary folder after it unless a cancel comes first; status `downloading` is announced exactly when the folders were created; the only way to stop is a cancel |
| Worker.DownloadWorker.ResolveTitle | yt_downloader/worker.py:80-85 | the given title, else yt-dlp's, else `video`, announced in a `title` event; stopped only by a cancel |
| Worker.DownloadWorker.Download | yt_downloader/worker.py:95-141 | the download command carries the clip arguments; after it succeeds the `source.%(ext)s` placeholder is unlinked, and a source file exists afterwards |
| Worker.DownloadWorker.ProbeCodecs | yt_downloader/worker.py:299-334 | the codecs are ffprobe's answers, `unknown` when empty |
| Worker.DownloadWorker.ComputeVbit | yt_downloader/worker.py:250-279 | the bitrate string is computed from the file size and ffprobe's duration, after one duration query; it fails exactly when a cancel is pending |
| Worker.DownloadWorker.Convert | yt_downloader/worker.py:145-215 | `converting` is announced exactly when the codecs are not h264 and aac or a clip was requested; then the commands run are the duration query when transcoding and the ffmpeg command with stream copy or the computed bitrate; otherwise no command runs and the source is renamed |
| Worker.DownloadWorker.RunFfmpeg | yt_downloader/worker.py:157-215 | the duration query when transcoding, then one ffmpeg command with the codec arguments and the output name; stopped only by a cancel |
| Worker.DownloadWorker.MoveToLibrary | yt_downloader/worker.py:221-226 | the library folder is created and the file moved to the `unique_path` name: its own name when free, else `stem_k` with the least free k |
| Worker.DownloadWorker.Place | yt_downloader/worker.py:217-231 | a kept folder keeps the file and touches no folder; otherwise the library is created and the file moved to the `unique_path` name; then `done` and the `done` event |
| Worker.DownloadWorker.Fetch | yt_downloader/worker.py:80-143 | title, download and codec probe announce no milestone; the title is announced in a `title` event, the placeholder unlinked, and the source file and its codecs left; the file name is the sanitised title plus `.mp4` |
| Worker.DownloadWorker.Deliver | yt_downloader/worker.py:80-231 | fetch, conversion and placing in turn: `converting` only when converted, `done` only when complete; a completed delivery converted exactly when transcoding or a clip was needed, and its file is where `_finalize_output` puts the sanitised title |
| Worker.DownloadWorker.Attempt | yt_downloader/worker.py:68-231 | the steps in turn up to the first that stops; a completed attempt converted exactly when transcoding or a clip was needed, and its destination is the task folder's file when the folder is kept, else the first free library name for the sanitised title; stopped as cancelled exactly when the cancel flag is set |
| Worker.DownloadWorker.Try | yt_downloader/worker.py:61-231 | an invalid input fails with its message and touches nothing; otherwise the attempt, with its destination, stopped as cancelled exactly when the cancel flag is set |
| Worker.DownloadWorker.HandleCancelled | yt_downloader/worker.py:232-237 | status `cancelled`, and the error cleared |
| Worker.DownloadWorker.HandleFailure | yt_downloader/worker.py:238-242 | the error text is kept, with status `error` and an error event |
| Worker.DownloadWorker.Conclude | yt_downloader/worker.py:232-244 | a cancel clears the error, a failure keeps its text, and `finished` with both always comes last |
| Worker.DownloadWorker.Finish | yt_downloader/worker.py:232-248 | the ending of `Conclude`, then the clean-up operations |
| Worker.DownloadWorker.Run | yt_downloader/worker.py:55-248 | validation failures touch no folder and run no command; exactly one final `finished`; a completed run's file is where `_finalize_output` puts it; a run marked cancelled had its flag set, and a valid run is cancelled exactly when the flag is set; without a cancel it is never cancelled; the clean-up comes last |
| Worker.DownloadWorker.CleanUp | yt_downloader/worker.py:245-248 | the temporary folder is always removed, the work folder when cancelled or not kept |
| Worker.UniquePathStaysInLibrary | yt_downloader/worker.py:224 | `unique_path` keeps the file in the library folder |
| Worker.ReachedCompleted | yt_downloader/worker.py:77-230 | a completed run announces `downloading`, then `converting` when converted, then `done` |
| Worker.TraceJoin | yt_downloader/worker.py:55-248 | the attempt's milestones followed by the ending's are the run's, with one more `finished` |
| Widgets.ActionsFor | yt_downloader/widgets.py:190-242 | cancel shown exactly for an active status with a cancel callback; remove exactly for an inactive one with a remove callback; open shown for `done` and enabled only with a final path; retry exactly with a callback, a URL and a retryable status |
| Widgets.ExclusiveActions | yt_downloader/widgets.py:190-242 | cancel is never shown together with remove, retry or open |
| Widgets.ActiveTaskActions | yt_downloader/widgets.py:190-242 | an active task shows only cancel |
| Widgets.NormalizedSourceUrl | yt_downloader/widgets.py:138-144 | the URL is stripped, and a blank one is dropped |
| Widgets.NormalizedSourceUrlIdempotent | yt_downloader/widgets.py:138-144 | normalising twice is normalising once |
| Widgets.TaskRow.constructor | yt_downloader/widgets.py:17-127 | the row keeps its title, status and path, normalises its URL, and shows the actions its state calls for |
| Widgets.TaskRow.UpdateActions | yt_downloader/widgets.py:190-242 | the buttons follow `ActionsFor` and nothing else changes |
| Widgets.TaskRow.UpdateStatus | yt_downloader/widgets.py:129-132 | the status and its text change, and the buttons follow |
| Widgets.TaskRow.SetFinalPath | yt_downloader/widgets.py:134-136 | the path is set, and a `done` row's open button becomes enabled |
| Widgets.TaskRow.SetSourceUrl | yt_downloader/widgets.py:138-144 | the URL is normalised, and the buttons follow |
| Widgets.TaskRow.SetTitle | yt_downloader/widgets.py:146-149 | the displayed title is always the shortened full title |
| Widgets.TaskRow.Retranslate | yt_downloader/widgets.py:151-156 | the new translator renders the status, and the buttons follow |
| Widgets.TaskRow.MarkCancelling | yt_downloader/widgets.py:158-159 | only the cancel button is disabled |
| Widgets.TaskRow.CancelTask | yt_downloader/widgets.py:161-164 | the cancel callback is called with the task id, if there is one |
| Widgets.TaskRow.RemoveFromHistory | yt_downloader/widgets.py:166-169 | the remove callback is called with the task id, if there is one |
| Widgets.TaskRow.OpenFolder | yt_downloader/widgets.py:171-174 | does nothing without a final path |
| Widgets.TaskRow.OpenSourceUrl | yt_downloader/widgets.py:176-179 | does nothing without a URL or a callback |
| Widgets.TaskRow.TriggerRetry | yt_downloader/widgets.py:181-184 | does nothing without a URL or a callback; otherwise retries with the id and URL |
| Bridge.FirstIndex | main_webview.py:293-295 | the first item with the id, absent exactly when there is none |
| Bridge.FirstWaiting | main_webview.py:284-286 | the first waiting task with the id, absent exactly when there is none |
| Bridge.WithoutFirstWaiting | main_webview.py:282-288 | removes exactly one entry when the task waits, else nothing |
| Bridge.WithoutId | main_webview.py:388-389 | keeps exactly the items with another id |
| Bridge.Marked | main_webview.py:290-303 | the status is set; an error given is stored, none clears it unless the status is `error` |
| Bridge.UpdateTouchesFirstOnly | main_webview.py:738-771 | an event changes only the first item with its id, and no id or URL |
| Bridge.AppliedStatus | main_webview.py:745-766 | `done` sets status and path, `error` status and text, a cancelled `finished` the status `cancelled`, status and progress copy their status |
| Bridge.Applied | main_webview.py:745-766 | id and URL are kept; an event that is not persisted changes nothing but a title |
| Bridge.Reaped | main_webview.py:583-588 | a `finished` event of a dead worker removes that worker, and nothing else does |
| Bridge.LoadedItem | main_webview.py:662-707 | an item is kept exactly when it is an object with a non-blank id; it has a title and is never active or queued |
| Bridge.LoadedAllSettled | main_webview.py:662-707 | no loaded item is active or queued, and each has an id and a title |
| Bridge.LoadedAll | main_webview.py:662-707 | no more items than entries |
| Bridge.LoadedInterrupted | main_webview.py:685-690 | an interrupted download becomes `error` with the fixed message |
| Bridge.LoadedStatus | main_webview.py:685-693 | `queued` becomes `cancelled`; other statuses and their errors are kept |
| Bridge.LoadedTitle | main_webview.py:698 | the title falls back to the URL and then to the id |
| Bridge.RunLock | main_webview.py:64 | a held lock that is acquired again blocks |
| Bridge.CancelWithoutWorkerBlocks | main_webview.py:368-383 | as written, cancelling a task without a worker blocks for ever |
| Bridge.CancelIntendedReturns | main_webview.py:368-383 | with one acquisition every cancellation returns and frees the lock |
| Bridge.Bridge.constructor | main_webview.py:55-76 | the queue is loaded and nothing runs or waits; the queue file is written back exactly when it was missing or an item was rewritten, and otherwise nothing is saved |
| Bridge.Bridge.LoadQueue | main_webview.py:662-707 | the loaded items; the file is rewritten when an item was rewritten or no file existed |
| Bridge.Bridge.AddItem | main_webview.py:723-736 | the item is appended and saved |
| Bridge.Bridge.StartWorker | main_webview.py:263-280 | the worker is registered under its task id |
| Bridge.Bridge.StartDownload | main_webview.py:196-261 | an unsupported URL fails and changes nothing, saved queue and settings included; otherwise settings are saved, the task is queued at the end while sequential work is running or waiting, else it starts, and the queue is saved with it; sequential admission keeps at most one worker |
| Bridge.Bridge.RemoveFromWaiting | main_webview.py:282-288 | removes the first waiting entry with the id, and says whether there was one |
| Bridge.Bridge.FindItem | main_webview.py:292-295 | the first item with the id |
| Bridge.Bridge.MarkStatus | main_webview.py:290-303 | the first item with the id is marked, and saved when found |
| Bridge.Bridge.CancelDownload | main_webview.py:368-383 | a running task's worker is asked to cancel and nothing is saved; a waiting task leaves the list, becomes `cancelled`, is saved and gets a cancelled `finished` event; otherwise `Task not found` and nothing changes |
| Bridge.Bridge.RemoveTask | main_webview.py:385-392 | every item with the id and its waiting entry are removed, running or not |
| Bridge.Bridge.PerformClear | main_webview.py:401-409 | items and waiting list are emptied, and every worker is asked to cancel |
| Bridge.Bridge.UpdateSetting | main_webview.py:411-428 | a root folder must resolve, and one that does not changes nothing; `mp4` and `sequential` take truthiness; any other key is `Unknown setting`; only `root_folder` changes the root |
| Bridge.Bridge.ProcessQueue | main_webview.py:562-572 | nothing, and nothing saved, while a worker runs or nothing waits; else the first waiting task starts as `downloading` and the queue is saved when it holds the task; at most one worker stays at most one |
| Bridge.Bridge.UpdateQueueFromEvent | main_webview.py:738-771 | the event is applied to the first item with its id, and saved when it persists |
| Bridge.Bridge.HandleEvent | main_webview.py:574-602 | the record update, saved when the event persists; the reaping of a finished dead worker; and admission from the waiting list once no worker is left, saved again for the admitted task |
| Bridge.Bridge.Post | main_webview.py:375-377 | the event is appended to the event queue |
| Bridge.Bridge.DispatchNext | main_webview.py:574-602 | an empty event queue changes nothing: no worker, item, waiting task or saved queue; otherwise the first event is taken off and handled as `HandleEvent` says, saved copy included; at most one worker stays at most one |
| App.TaskIds | yt_downloader/app.py:844-876 | the ids of the records, in order |
| App.IndexOf | yt_downloader/app.py:880-883 | the position of a record with the id, absent exactly when there is none |
| App.SuffixOfTaskId | yt_downloader/app.py:975-980 | the number after the last dash of `task-N` is N |
| App.TaskIdFresh | yt_downloader/app.py:411-412 | a counter above every numeric suffix gives an id no record has |
| App.MaxSuffixBounds | yt_downloader/app.py:975-983 | the largest suffix bounds every suffix, and is 0 or some record's |
| App.ComputeNextTaskCounter | yt_downloader/app.py:973-984 | the counter is at least 1, above every numeric suffix, at least a positive stored `next_id`, and no larger than needed |
| App.NonEmpty | yt_downloader/app.py:949-958 | a falsy text is stored as none |
| App.LoadedStatus | yt_downloader/app.py:944-948 | a loaded status is allowed and never active |
| App.LoadedStatusCases | yt_downloader/app.py:944-948 | a missing status is `done`, an active one `cancelled`, an unknown one `done`, an allowed one kept |
| App.LoadedRecord | yt_downloader/app.py:936-966 | a record is kept exactly when it is an object with a non-blank id; its status is allowed and not active; its title is the truthy stored title, else the id; path and URL are the stripped text or none when blank; the time is the stored one when given, else now; an error is kept only when it is non-empty text |
| App.Parsed | yt_downloader/app.py:936-967 | each stored entry is normalised on its own |
| App.KeptUnique | yt_downloader/app.py:939-942 | the kept records have distinct ids and come from the entries |
| App.LoadedRecordsUnique | yt_downloader/app.py:922-971 | loaded ids are distinct and non-empty, and no loaded record is active |
| App.KeptCover | yt_downloader/app.py:939-942 | every valid entry's id is among the kept ones |
| App.LoadedRecordsCover | yt_downloader/app.py:922-971 | no valid id is lost |
| App.KeptFirst | yt_downloader/app.py:939-942 | each kept record is the first entry with its id |
| App.LoadedRecordsFirst | yt_downloader/app.py:922-971 | each loaded record is the first stored entry with its id |
| App.Kept | yt_downloader/app.py:939-942 | no more records than entries |
| App.LoadedRecords | yt_downloader/app.py:922-971 | no more records than stored entries |
| App.LoadedState | yt_downloader/app.py:922-971 | no saved queue loads no record and `next_id` 1; otherwise the records are those the entries load, and a stored `next_id` of at least 1 is kept, any other becomes 1 |
| App.LoadQueueState | yt_downloader/app.py:922-971 | the loop with its `seen_ids` set computes the loaded records and a `next_id` of at least 1 |
| App.Changed | yt_downloader/app.py:884-899 | only the named fields change; a falsy path becomes none; a falsy error removes the error |
| App.ApplyChanges | yt_downloader/app.py:880-903 | ids and order are kept, and an unknown id changes nothing |
| App.WithoutId | yt_downloader/app.py:905-910 | keeps exactly the records with another id |
| App.WithoutIdIds | yt_downloader/app.py:905-910 | the id is gone, the others stay, ids stay distinct |
| App.RemoveFirst | yt_downloader/app.py:818-821 | the first occurrence is removed from the order, if present |
| App.WorkerErrorTextLost | yt_downloader/app.py:714-723 | a worker's error event leaves status `error` with no error text and no path |
| App.EventChanges | yt_downloader/app.py:684-723 | no record change exactly for log, finished and progress events, an empty status and a `done` without a path; every change but a title's sets the status |
| App.EventRow | yt_downloader/app.py:684-723 | the row keeps its URL and cancelling mark, and an event that changes no record leaves it as it is |
| App.PolledAppend | yt_downloader/app.py:676-731 | handling two batches of events in turn is handling them as one |
| App.PolledKeeps | yt_downloader/app.py:676-731 | handling events keeps the rows' tasks and the records' ids |
| App.PolledIgnoresUnknown | yt_downloader/app.py:681-683 | events of tasks without a row change nothing |
| App.PolledWithoutSave | yt_downloader/app.py:676-731 | a batch in which no event changes a record leaves the records as they were |
| App.PollSavesStep | yt_downloader/app.py:676-731 | the queue a batch saves is the one its first event saves unless a later event changes a record, in which case it is the final records |
| App.EventChangeCases | yt_downloader/app.py:684-723 | `cancelled` clears path and error; `done` needs a path and records it; finished, log and progress events change no record |
| App.Refusal | yt_downloader/app.py:359-399 | a task starts only with a URL, a known duration, parsable times, a start in [0, duration) and an end after the start within the duration plus 0.001 |
| App.WorkerEnd | yt_downloader/app.py:447-451 | an end within 0.001 of the duration is passed as none |
| App.RestoredRow | yt_downloader/app.py:848-873 | a restored row has a title, its record's path and is not cancelling |
| App.DropConsistent | yt_downloader/app.py:807-824 | removing a task keeps ids distinct and rows and records in step |
| App.StartConsistent | yt_downloader/app.py:411-442 | the `task-N` id of the counter is new, and the record put in front keeps ids distinct, rows and records in step and the counter above every id |
| App.DownloaderUI.constructor | yt_downloader/app.py:84-94 | the saved queue is loaded, saved back, the counter set above every id, and a row restored per record, with the display order being the record ids in order |
| App.DownloaderUI.SaveQueueState | yt_downloader/app.py:912-920 | `next_id` is clamped to at least 1 |
| App.DownloaderUI.RestoreQueueFromHistory | yt_downloader/app.py:843-878 | one row per record, in the record order |
| App.DownloaderUI.UpdateQueueRecord | yt_downloader/app.py:880-903 | the changes apply to the record with the id and are saved; an unknown id changes nothing |
| App.DownloaderUI.RemoveQueueRecord | yt_downloader/app.py:905-910 | the record is removed and the queue saved |
| App.DownloaderUI.AddRecord | yt_downloader/app.py:441-442 | the new record goes to the front |
| App.DownloaderUI.StartWorker | yt_downloader/app.py:359-451 | a refusal creates nothing and changes no record, order, counter or saved queue; otherwise a fresh `task-N` id is taken, the counter advances, a `downloading` record with the preview title (else the URL), the URL and the time goes to the front and is saved, its row is added, and the worker gets the stripped URL, the start and the end passed as none within 0.001 of the duration |
| App.DownloaderUI.PollEvent | yt_downloader/app.py:679-723 | an event for an unknown task changes nothing; otherwise its row and record change as `EventRow` and `EventChanges` say, and the queue is saved exactly when the record changes |
| App.DownloaderUI.PollQueue | yt_downloader/app.py:676-731 | the records and rows are those of every event applied in turn, the queue is saved with the final records exactly when some event changed a record, and dead workers are reaped |
| App.DownloaderUI.PollFirst | yt_downloader/app.py:679-723 | one event of the batch leaves the rest of the batch to give the same records, rows and saved queue |
| App.DownloaderUI.ConfirmClearHistory | yt_downloader/app.py:739-767 | clears rows, order and records only when no worker is alive, there is history and the user agrees |
| App.DownloaderUI.CancelTask | yt_downloader/app.py:777-785 | a running task's worker is asked to cancel, its row marked cancelling and its record `cancelled` and saved; an unknown task changes nothing, saved queue included |
| App.DownloaderUI.MarkCancelling | yt_downloader/app.py:777-783 | the worker's cancel request and the row's cancelling mark, and nothing else |
| App.DownloaderUI.RemoveHistoryEntry | yt_downloader/app.py:807-824 | removes row, order entry and record, and saves the queue, only when the task is not active and its worker is not alive |
| App.DownloaderUI.DropTask | yt_downloader/app.py:817-824 | row, order entry and record go together, and the queue is saved without the record |

## Left out

- Tk and webview widgets, layout, themes, dialogs, clipboard, previews and
  the JavaScript event channel. A dialog's answer and whether a thread is
  alive are parameters.
- Threads and locks. Each coordinator method is one atomic step. The
  bridge's lock appears only in the deadlock finding.
- Filesystem and process effects. The worker records folder creation, moves,
  renames and removals as a log of operations, and commands as a log of
  argument vectors. Their results come from the environment.
- Floating point. Seconds, durations and the 1.15 bitrate factor are exact.
  IEEE rounding could move a bitrate by one bit per second, and the 0.001
  tolerances are compared exactly.
- `Path` arithmetic is string concatenation with `/`.
- Utils.IsYoutubeVideoUrl: works on a URL already split into scheme, host,
  path and query, because `urlparse` and `parse_qs` are library code.
- Utils.UniquePath: works on a finite set of existing paths instead of the
  disk.
- Utils.ParseFloat: `inf`, `infinity` and `nan` are refused, because they
  are not real numbers; non-ASCII digits are refused; binary rounding and
  overflow to infinity are not modelled.
- Utils.QueryValues: `parse_qs` percent-decodes and this does not, so
  `v=%20` counts here as a non-blank video id.
- Text.ParseNat: `int()` accepts only ASCII digits here, not other Unicode
  digits, signs, underscores or surrounding whitespace, so `int(" 5")`,
  which is 5 in Python, is refused here.
- Text.Lower: folds only the ASCII letters `A`-`Z`, while `str.lower()`
  folds every Unicode letter.
- Updates.FindWindowsExecutable: ties between executables of equal score
  and depth are broken by comparing path parts by code point, as POSIX
  paths compare. Windows paths compare case-folded, so among `B.exe` and
  `a.exe` the source picks `B.exe` and the model picks `a.exe`.
- Updater.ParseLaunchArgs: Dafny's `char` holds no unpaired surrogate, so
  JsonStrings refuses a `\uD800`-`\uDFFF` escape without its partner and
  the launch arguments come out as `[]`. `json.loads` accepts it, so
  `_parse_launch_args` returns a one-element list there.
- Updater.ValueOf: takes a flag's first occurrence, while argparse keeps
  the last. The commands built by `build_updater_command` never repeat a
  flag, so the two agree on them.
- Worker.DurationValue: `float()` also reads `inf` and `nan`, which are not
  reals here and give a duration of 1. In the source an infinite duration
  gives a bitrate of 0 and so `4M`, and `nan` makes `int()` raise, which
  fails the run.
- Updates.IntOf: Python's `int()` also accepts non-ASCII decimal digits;
  here only ASCII digits count.
- Updates.FirstDigitRun: the pattern `\d` also matches non-ASCII decimal
  digits; here only ASCII digits count.
- Worker.DownloadWorker.RunCommand: the `CalledProcessError` message is a
  parameter of the environment, and line-by-line logging of the output is
  left out.
- The worker's step methods, from `Prepare` to `Run`: their log lines and
  the processes they terminate are not stated; events are stated through
  their milestones and the `title` event.
- Worker.DownloadWorker.MoveToLibrary: the library's existing files are a
  set given with the environment.
- Widgets.TaskRow.constructor: button labels and icons are not modelled.
- App.DownloaderUI.UpdateQueueRecord: the source also accepts `url`
  changes, which no caller passes; the model leaves them out.
- App.LoadQueueState: JSON values are reduced to text with a truthiness
  flag, and a saved `items` that is not a list is not modelled.
- Bridge.LoadedItem: queue-file values are text only. The source keeps raw
  JSON values, so a list `status` raises `TypeError` at main_webview.py:687
  and a falsy non-text title such as `0` falls back to the URL.
- Bridge.Bridge.StartDownload: `is_supported_video_url` is not part of this
  model. It is a predicate parameter, and a worker is an abstract handle
  (see above).
- The JSON settings files and `_load_settings` are left out. Settings are a
  record.
- Updater runtime: `run_updater`, `run_from_cli`'s argument parser,
  download, extraction and installation of updates, and the network
  request of `check_for_update`, which gets its decoded release instead.
- `yt_downloader/backend.py`, `relauncher.py`, `themes.py`, `logger.py`
  and `ui.py` are not part of this model.
- Shutdown of the bridge and of the Tk window.

## Findings

| source | as written | input that shows it | evidently intended | confidence | as-written member | corrected member |
|---|---|---|---|---|---|---|
| main_webview.py:368-383 | `cancel_download` holds the non-re-entrant `_lock` while it calls `_remove_from_waiting` (line 283) and `_mark_status` (line 292), which acquire it again | cancelling any task that has no worker, such as a waiting task or an unknown id | the waiting list and the queue are updated under one acquisition, then the worker is cancelled outside it | high, not executed | Bridge.CancelWithoutWorkerBlocks | Bridge.Bridge.CancelDownload |

The corrected behaviour has two parts:

- `Bridge.CancelIntendedReturns` proves that the intended single
  acquisition always returns.
- `Bridge.Bridge.CancelDownload` states the intended effect in each case:
  a running task, a waiting task, and an unknown id.
