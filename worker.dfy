/**
 * `DownloadWorker`: one task's download, conversion and placement, as the
 * sequence of events, file operations and external commands it produces.
 *
 * The external tools (yt-dlp, ffprobe, ffmpeg), the clock and the file system
 * are an `Environment` fixed for the run. Another thread may call `cancel()`
 * at any time; the environment names the moment it does so, counting the
 * worker's cancellation checks and the processes it runs, and the run calls
 * `Cancel` at that moment.
 */
module Worker {
  import opened Wrappers
  import opened Text
  import Utils
  import Localization
  import opened Events

  // ---------------------------------------------------------------------------
  // The environment

  /** What an external command does: its exit code and what it prints. */
  datatype ProcessOutcome = ProcessOutcome(exitCode: int, stdout: string)

  datatype Environment = Environment(
    /** `datetime.now().strftime("%Y-%m-%d_%H-%M-%S_%f")`. */
    timestamp: string,
    /** The outcome of each command line. */
    run: seq<string> -> ProcessOutcome,
    /** `str(CalledProcessError(code, args))`. */
    errorText: (seq<string>, int) -> string,
    /** The non-empty `title` of the JSON yt-dlp prints, `None` when it is missing, empty or undecodable. */
    metadataTitle: string -> Option<string>,
    /** The first `source.*` file in the work folder after the download, if any. */
    sourceFile: Option<string>,
    /** The source file's size in bytes. */
    fileSize: nat,
    /** The files already in the shared library folder. */
    libraryFiles: set<Utils.Path>,
    /** The moment at which another thread calls `cancel()`, if it does. */
    cancelAt: Option<nat>)

  /** A change the worker makes to the file system. */
  datatype FsOp =
    | MakeDirs(path: string)
    | Unlink(path: string)
    | Rename(source: string, target: string)
    | Move(source: string, target: string)
    | RemoveTree(path: string)

  /** Why a run stopped early: `DownloadCancelled`, or any other exception with its text. */
  datatype Abort = Cancelled | Failed(message: string)

  // ---------------------------------------------------------------------------
  // Paths and commands

  /** `dir / name`. */
  function PathJoin(dir: string, name: string): string {
    dir + "/" + name
  }

  function PathText(p: Utils.Path): string {
    PathJoin(p.parent, p.name)
  }

  /** `s.replace("-", "_")`. */
  function Underscored(s: string): (r: string)
    ensures |r| == |s| && '-' !in r
  {
    if s == [] then [] else [if s[0] == '-' then '_' else s[0]] + Underscored(s[1..])
  }

  /** The name of a run's work folder. */
  function WorkdirName(timestamp: string, taskId: string): string {
    "DL_" + timestamp + "_" + Underscored(taskId)
  }

  const LibraryName := "YT_DOWNLOADER_FILES"

  function MetadataCommand(url: string): seq<string> {
    ["yt-dlp", "--dump-single-json", "--skip-download", url]
  }

  function DownloadCommand(workdir: string, tempdir: string, downloaderArgs: seq<string>, url: string): seq<string> {
    ["yt-dlp", "-f", "bv*+ba/b", "-S", "res,fps,br", "--hls-prefer-ffmpeg", "-N", "8",
     "-P", workdir, "--paths", "temp:" + tempdir, "-o", "source.%(ext)s"]
    + downloaderArgs + [url]
  }

  /** The ffprobe call that prints the codec of stream `stream` (`v:0` or `a:0`). */
  function ProbeCommand(stream: string, src: string): seq<string> {
    ["ffprobe", "-v", "error", "-select_streams", stream, "-show_entries", "stream=codec_name",
     "-of", "default=nw=1:nk=1", src]
  }

  function DurationCommand(src: string): seq<string> {
    ["ffprobe", "-v", "error", "-show_entries", "format=duration", "-of", "default=nw=1:nk=1", src]
  }

  // ---------------------------------------------------------------------------
  // Clip and codec decisions

  /** A clip is requested when the start is past zero or an end is given. */
  predicate ClipRequested(start: real, end: Option<real>) {
    start > 0.0 || end.Some?
  }

  /**
   * The `-ss`/`-to` parts handed to yt-dlp's ffmpeg downloader; `formatTime`
   * is `format_timestamp`.
   */
  function ClipParts(start: real, end: Option<real>, formatTime: real -> string): (r: seq<string>)
    ensures r != [] <==> ClipRequested(start, end)
    ensures start > 0.0 ==> r[0] == "-ss " + formatTime(start)
    ensures end.Some? ==> r[|r| - 1] == "-to " + formatTime(end.value)
  {
    (if start > 0.0 then ["-ss " + formatTime(start)] else [])
    + (if end.Some? then ["-to " + formatTime(end.value)] else [])
  }

  /** The downloader arguments: the clip, applied while downloading, whenever one is requested. */
  function DownloaderArgs(start: real, end: Option<real>, formatTime: real -> string): (r: seq<string>)
    ensures r != [] <==> ClipRequested(start, end)
    ensures r != [] ==>
      r == ["--downloader", "ffmpeg", "--downloader-args", "ffmpeg_i:" + Join(ClipParts(start, end, formatTime), " ")]
  {
    var parts := ClipParts(start, end, formatTime);
    if parts != [] then ["--downloader", "ffmpeg", "--downloader-args", "ffmpeg_i:" + Join(parts, " ")] else []
  }

  /**
   * `clip_during_ffmpeg`: a requested clip not already applied while
   * downloading. Since every requested clip is applied while downloading,
   * this never holds.
   */
  lemma NoClipDuringFfmpeg(start: real, end: Option<real>, formatTime: real -> string)
    ensures !(ClipRequested(start, end) && DownloaderArgs(start, end, formatTime) == [])
  {
  }

  /** A codec name from ffprobe's output: stripped, `unknown` when empty. */
  function CodecName(stdout: string): (r: string)
    ensures r != []
    ensures Strip(stdout) != [] ==> r == Strip(stdout)
  {
    var s := Strip(stdout);
    if s == [] then "unknown" else s
  }

  /** Anything but H.264 video with AAC audio, compared case-insensitively, is transcoded. */
  predicate NeedsTranscode(video: string, audio: string) {
    !(Lower(video) == "h264" && Lower(audio) == "aac")
  }

  // ---------------------------------------------------------------------------
  // _compute_vbit

  const AudioBitrate := 320000
  const MinVideoBitrate := 800000
  const MinMegabits := 4

  /** The duration in seconds: at least 1, and 1 when ffprobe's output is not a number. */
  function DurationValue(stdout: string): (d: real)
    ensures d >= 1.0
    ensures Utils.ParseFloat(Strip(stdout)).NotFloat? ==> d == 1.0
    ensures Utils.ParseFloat(Strip(stdout)).Float? ==>
      var v := Utils.ParseFloat(Strip(stdout)).value;
      d == (if v > 1.0 then v else 1.0) && d >= v
  {
    match Utils.ParseFloat(Strip(stdout))
    case Float(v) => if v > 1.0 then v else 1.0
    case NotFloat => 1.0
  }

  /** `int((file_size * 8) // duration)`: the whole bits per second. */
  function TotalBitrate(fileSize: nat, duration: real): (t: nat)
    requires duration >= 1.0
    ensures t as real <= (fileSize * 8) as real / duration < (t + 1) as real
  {
    ((fileSize * 8) as real / duration).Floor
  }

  /** `int(max(800_000, total - 320_000) * 1.15)`, in exact arithmetic. */
  function Headroom(total: int): (h: nat)
    ensures h * 100 <= (if total - AudioBitrate > MinVideoBitrate then total - AudioBitrate else MinVideoBitrate) * 115 < (h + 1) * 100
  {
    var video := if total - AudioBitrate > MinVideoBitrate then total - AudioBitrate else MinVideoBitrate;
    video * 115 / 100
  }

  /** `max((headroom + 999_999) // 1_000_000, 4)`. */
  function Megabits(headroom: nat): nat {
    var m := (headroom + 999999) / 1000000;
    if m > MinMegabits then m else MinMegabits
  }

  /** The bitrate is the fewest whole megabits, and at least four, that cover the headroom. */
  lemma MegabitsLeast(headroom: nat)
    ensures Megabits(headroom) >= MinMegabits
    ensures Megabits(headroom) * 1000000 >= headroom
    ensures Megabits(headroom) == MinMegabits || (Megabits(headroom) - 1) * 1000000 < headroom
  {
    var q := (headroom + 999999) / 1000000;
    var r := (headroom + 999999) % 1000000;
    DivModUnique(headroom + 999999, 1000000, q, r);
    assert q * 1000000 + r == headroom + 999999;
  }

  /** `_compute_vbit`'s text: the megabits followed by `M`. */
  function Vbit(fileSize: nat, duration: real): (r: string)
    requires duration >= 1.0
    ensures |r| >= 2 && r[|r| - 1] == 'M' && ParseNat(r[..|r| - 1]).Some?
    ensures var m := ParseNat(r[..|r| - 1]).value;
      m >= MinMegabits && m * 1000000 >= Headroom(TotalBitrate(fileSize, duration))
  {
    var m := Megabits(Headroom(TotalBitrate(fileSize, duration)));
    MegabitsLeast(Headroom(TotalBitrate(fileSize, duration)));
    ParseNatToString(m);
    assert (NatToString(m) + "M")[..|NatToString(m)|] == NatToString(m);
    NatToString(m) + "M"
  }

  /** 100 000 000 bytes over 60 seconds call for 15 megabits. */
  lemma VbitExample()
    ensures Vbit(100000000, 60.0) == "15M"
  {
    assert TotalBitrate(100000000, 60.0) == 13333333;
    assert Headroom(13333333) == 14965332;
    assert Megabits(14965332) == 15;
    assert NatToString(15) == "15";
  }

  // ---------------------------------------------------------------------------
  // The ffmpeg command

  /** The codec arguments and the output name that end the ffmpeg command. */
  function CodecArgs(needsTranscode: bool, vbit: string, outputName: string): seq<string> {
    if needsTranscode then
      ["-c:v", "libx264", "-preset", "slow", "-pix_fmt", "yuv420p", "-b:v", vbit, "-minrate", vbit,
       "-maxrate", vbit, "-bufsize", "100M", "-profile:v", "high", "-c:a", "aac", "-b:a", "320k",
       "-movflags", "+faststart", outputName]
    else
      ["-c:v", "copy", "-c:a", "copy", "-movflags", "+faststart", outputName]
  }

  const FfmpegBase: seq<string> := ["ffmpeg", "-hide_banner", "-stats", "-y"]

  /**
   * The ffmpeg command, extended step by step: the clip start and length
   * only when clipping falls to ffmpeg, then the input and the codecs.
   */
  method BuildFfmpegCommand(
    clipDuringFfmpeg: bool, start: real, end: Option<real>, formatTime: real -> string, src: string,
    needsTranscode: bool, vbit: string, outputName: string)
    returns (args: seq<string>)
    ensures |args| > 6 && args[..4] == FfmpegBase
    ensures !clipDuringFfmpeg ==> args == FfmpegBase + ["-i", src] + CodecArgs(needsTranscode, vbit, outputName)
    ensures clipDuringFfmpeg ==> |args| > 8 && args[4..8] == ["-ss", formatTime(start), "-i", src]
    ensures args[|args| - 1] == outputName
  {
    args := FfmpegBase;
    if clipDuringFfmpeg {
      args := args + ["-ss", formatTime(start)];
    }
    args := args + ["-i", src];
    if clipDuringFfmpeg && end.Some? {
      var segment := if end.value - start > 0.0 then end.value - start else 0.0;
      args := args + ["-t", formatTime(segment)];
    }
    args := args + CodecArgs(needsTranscode, vbit, outputName);
  }

  // ---------------------------------------------------------------------------
  // The outcome of a run

  /** How a run ended. */
  datatype RunOutcome =
      /** Rejected before anything was created or run. */
    | Invalid(message: string)
      /**
       * Stopped early, after announcing `reached` of the statuses `downloading`
       * and `converting`; `workdirCreated` says whether the work folder was named.
       */
    | Interrupted(reached: nat, abort: Abort, workdirCreated: bool)
      /** Finished: `converted` says whether ffmpeg ran, `destination` is the final file. */
    | Completed(converted: bool, destination: string, previousError: Option<string>)

  /** The first `reached` of the statuses `downloading` and `converting`. */
  function StageMarks(reached: nat): (r: seq<Milestone>)
    ensures |r| == if reached < 2 then reached else 2
    ensures forall i | 0 <= i < |r| :: r[i].StatusMark? && r[i].status in {"downloading", "converting"}
  {
    if reached == 0 then []
    else if reached == 1 then [StatusMark("downloading")]
    else [StatusMark("downloading"), StatusMark("converting")]
  }

  /** The milestones the attempt itself emits before it stops or completes. */
  function Reached(o: RunOutcome): (r: seq<Milestone>)
    ensures forall i | 0 <= i < |r| :: !r[i].FinishedMark? && !r[i].ErrorMark?
    ensures forall i | 0 <= i < |r| :: r[i] != StatusMark("cancelled") && r[i] != StatusMark("error")
  {
    match o
    case Invalid(_) => []
    case Interrupted(reached, _, _) => StageMarks(reached)
    case Completed(converted, destination, _) =>
      [StatusMark("downloading")] + (if converted then [StatusMark("converting")] else [])
      + [StatusMark("done"), DoneMark(destination)]
  }

  /** The milestones of the `except` branches and of the `finally` block's `finished` event. */
  function Ending(o: RunOutcome): (r: seq<Milestone>)
    ensures r != [] && r[|r| - 1].FinishedMark?
    ensures forall i | 0 <= i < |r| - 1 :: !r[i].FinishedMark?
  {
    match o
    case Invalid(m) => [StatusMark("error"), ErrorMark(m), FinishedMark(false, Some(m))]
    case Interrupted(_, Cancelled, _) => [StatusMark("cancelled"), FinishedMark(true, None)]
    case Interrupted(_, Failed(m), _) => [StatusMark("error"), ErrorMark(m), FinishedMark(false, Some(m))]
    case Completed(_, _, previousError) => [FinishedMark(false, previousError)]
  }

  /** The milestones a run with this outcome emits, in order. */
  function Trace(o: RunOutcome): seq<Milestone> {
    Reached(o) + Ending(o)
  }

  /** Every run emits exactly one `finished`, and it comes last. */
  lemma TraceFinishesOnce(o: RunOutcome)
    ensures Trace(o)[|Trace(o)| - 1].FinishedMark?
    ensures FinishedMarkCount(Trace(o)) == 1
  {
    var e := Ending(o);
    FinishedMarkCountAppend(Reached(o), e);
    NoFinishedMarks(Reached(o));
    assert e == e[..|e| - 1] + [e[|e| - 1]];
    FinishedMarkCountAppend(e[..|e| - 1], [e[|e| - 1]]);
    NoFinishedMarks(e[..|e| - 1]);
  }

  lemma {:induction false} NoFinishedMarks(ms: seq<Milestone>)
    requires forall i | 0 <= i < |ms| :: !ms[i].FinishedMark?
    ensures FinishedMarkCount(ms) == 0
  {
    if ms != [] {
      NoFinishedMarks(ms[1..]);
    }
  }

  /**
   * A cancelled run ends with status `cancelled` and a `finished` that says so
   * and carries no error; it never emits an error or a done event.
   */
  lemma TraceCancelled(o: RunOutcome)
    requires o.Interrupted? && o.abort == Cancelled
    ensures Trace(o) == StageMarks(o.reached) + [StatusMark("cancelled"), FinishedMark(true, None)]
    ensures forall i | 0 <= i < |Trace(o)| :: !Trace(o)[i].ErrorMark? && !Trace(o)[i].DoneMark?
  {
  }

  /** A failed run ends with status `error`, the error event and a `finished` carrying the same text, and is never done. */
  lemma TraceFailed(o: RunOutcome, m: string)
    requires (o.Interrupted? && o.abort == Failed(m)) || o == Invalid(m)
    ensures Ending(o) == [StatusMark("error"), ErrorMark(m), FinishedMark(false, Some(m))]
    ensures forall i | 0 <= i < |Trace(o)| :: !Trace(o)[i].DoneMark? && Trace(o)[i] != StatusMark("cancelled")
  {
  }

  /** A completed run announces `done` with its destination right before `finished`, after `downloading`. */
  lemma TraceCompleted(o: RunOutcome)
    requires o.Completed?
    ensures Trace(o)[0] == StatusMark("downloading")
    ensures Trace(o)[|Trace(o)| - 3..] == [StatusMark("done"), DoneMark(o.destination), FinishedMark(false, o.previousError)]
    ensures forall i | 0 <= i < |Trace(o)| :: !Trace(o)[i].ErrorMark? && Trace(o)[i] != StatusMark("cancelled")
  {
  }

  // ---------------------------------------------------------------------------
  // The worker

  /** `_t` in a given language: `translate(language, key, **kwargs)`. */
  function Translator(language: string): (t: (string, map<string, string>) -> string)
    ensures forall key, kwargs :: t(key, kwargs) == Localization.Translate(language, key, kwargs)
  {
    (key, kwargs) => Localization.Translate(language, key, kwargs)
  }

  class DownloadWorker {
    const taskId: string
    /** The URL, stripped. */
    const url: string
    const root: string
    const title: Option<string>
    const separateFolder: bool
    /** The clip start, never negative. */
    const startSeconds: real
    const endSeconds: Option<real>
    /** A supported language; any other falls back to the default. */
    const language: string
    /** `_t`: a text of the catalogue in the worker's language, formatted with the arguments. */
    const translate: (string, map<string, string>) -> string
    /** `format_timestamp`. */
    const formatTime: real -> string
    const env: Environment

    var error: Option<string>
    /** `_cancel_event`. */
    var cancelFlag: bool
    /** `_active_process`: the command line of the running process. */
    var activeProcess: Option<seq<string>>
    /** `_cancelled`. */
    var cancelled: bool
    /** How many moments (cancellation checks and process runs) have passed. */
    var moment: nat
    /** What the worker put on its event queue. */
    var events: seq<Event>
    var fsOps: seq<FsOp>
    /** The command lines of the processes started, in order. */
    var commands: seq<seq<string>>
    /** The processes `cancel()` terminated. */
    var terminated: seq<seq<string>>

    constructor(
      taskId: string, url: string, root: string, title: Option<string>, separateFolder: bool,
      startSeconds: real, endSeconds: Option<real>, language: string, env: Environment)
      ensures this.taskId == taskId && this.url == Strip(url) && this.root == root && this.title == title
      ensures this.separateFolder == separateFolder && this.endSeconds == endSeconds && this.env == env
      ensures this.startSeconds == if startSeconds > 0.0 then startSeconds else 0.0
      ensures this.language == if language in Localization.SupportedLanguages then language else Localization.DefaultLanguage
      ensures translate == Translator(this.language) && formatTime == Utils.FormatSeconds
      ensures error == None && !cancelFlag && activeProcess == None && !cancelled && moment == 0
      ensures events == [] && fsOps == [] && commands == [] && terminated == []
    {
      this.taskId := taskId;
      this.url := Strip(url);
      this.root := root;
      this.title := title;
      this.separateFolder := separateFolder;
      this.startSeconds := if startSeconds > 0.0 then startSeconds else 0.0;
      this.endSeconds := endSeconds;
      var chosen := if language in Localization.SupportedLanguages then language else Localization.DefaultLanguage;
      this.language := chosen;
      this.translate := Translator(chosen);
      this.formatTime := Utils.FormatSeconds;
      this.env := env;
      error := None;
      cancelFlag := false;
      activeProcess := None;
      cancelled := false;
      moment := 0;
      events := [];
      fsOps := [];
      commands := [];
      terminated := [];
    }

    /**
     * Where `_finalize_output` leaves the file named `finalName`: in the
     * task's own folder when it is kept, else under the first free name in
     * the shared library.
     */
    ghost predicate Placed(finalName: string, destination: string) {
      if separateFolder then destination == PathJoin(Workdir(), finalName)
      else exists p :: FirstFree(Utils.Path(Library(), finalName), env.libraryFiles, p) && destination == PathText(p)
    }

    function Workdir(): string {
      PathJoin(root, WorkdirName(env.timestamp, taskId))
    }

    function Tempdir(): string {
      PathJoin(Workdir(), "temp")
    }

    function Library(): string {
      PathJoin(root, LibraryName)
    }

    /** The input checks: an empty URL, or an end not after the start. */
    function ValidationError(): (r: Option<string>)
      ensures r.None? <==> url != [] && (endSeconds.None? || endSeconds.value > startSeconds)
      ensures url == [] ==> r == Some(translate("error_empty_url", map[]))
      ensures url != [] && endSeconds.Some? && endSeconds.value <= startSeconds ==> r == Some(translate("error_end_before_start", map[]))
    {
      if url == [] then Some(translate("error_empty_url", map[]))
      else if endSeconds.Some? && endSeconds.value <= startSeconds then Some(translate("error_end_before_start", map[]))
      else None
    }

    /** The downloaded source file. */
    function Source(): string
      requires env.sourceFile.Some?
    {
      PathJoin(Workdir(), env.sourceFile.value)
    }

    /** The codecs ffprobe reports for the source. */
    function VideoCodec(): string
      requires env.sourceFile.Some?
    {
      CodecName(env.run(ProbeCommand("v:0", Source())).stdout)
    }

    function AudioCodec(): string
      requires env.sourceFile.Some?
    {
      CodecName(env.run(ProbeCommand("a:0", Source())).stdout)
    }

    /**
     * The commands a conversion runs: ffprobe's duration when transcoding,
     * then ffmpeg on the source, with the bitrate the duration gives when
     * transcoding and stream copies otherwise.
     */
    function ConversionCommands(video: string, audio: string, finalName: string): seq<seq<string>>
      requires env.sourceFile.Some?
    {
      var transcode := NeedsTranscode(video, audio);
      var vbit := if transcode then Vbit(env.fileSize, DurationValue(env.run(DurationCommand(Source())).stdout)) else "";
      (if transcode then [DurationCommand(Source())] else [])
      + [FfmpegBase + ["-i", Source()] + CodecArgs(transcode, vbit, finalName)]
    }

    /** The clean-up in `finally`: the temporary folder, then the work folder unless the kept result is in it. */
    function Cleanup(created: bool, wasCancelled: bool): seq<FsOp> {
      (if created then [RemoveTree(Tempdir())] else [])
      + (if created && (wasCancelled || !separateFolder) then [RemoveTree(Workdir())] else [])
    }

    /** `_ensure_metadata`'s title: the given one unless it is empty, else yt-dlp's, else `video`. */
    function VideoTitle(): string {
      if title.Some? && title.value != [] then title.value
      else env.metadataTitle(env.run(MetadataCommand(url)).stdout).GetOr("video")
    }

    /**
     * Whether the cancel flag is set at moment `to`, given that it was `flag`
     * at moment `from`: another thread's `cancel()` landed in between.
     */
    predicate CancelledBetween(flag: bool, from: nat, to: nat) {
      flag || (env.cancelAt.Some? && from <= env.cancelAt.value < to)
    }

    // -------------------------------------------------------------------------
    // Cancellation

    /** `cancel`: sets the flag and terminates the registered process, if any. */
    method Cancel()
      modifies this`cancelFlag, this`terminated
      ensures cancelFlag
      ensures terminated == old(terminated) + if activeProcess.Some? then [activeProcess.value] else []
    {
      cancelFlag := true;
      var process := activeProcess;
      if process.Some? {
        terminated := terminated + [process.value];
      }
    }

    /** A moment passes, and another thread's `cancel()` lands if it is due now. */
    method Tick()
      modifies this`moment, this`cancelFlag, this`terminated
      ensures moment == old(moment) + 1
      ensures cancelFlag == (old(cancelFlag) || env.cancelAt == Some(old(moment)))
      ensures cancelFlag == CancelledBetween(old(cancelFlag), old(moment), moment)
      ensures terminated == old(terminated)
        + if env.cancelAt == Some(old(moment)) && activeProcess.Some? then [activeProcess.value] else []
    {
      if env.cancelAt == Some(moment) {
        Cancel();
      }
      moment := moment + 1;
    }

    /** `_check_cancelled`: `false` where it raises `DownloadCancelled`. */
    method CheckCancelled() returns (ok: bool)
      modifies this`moment, this`cancelFlag, this`terminated
      ensures ok <==> !cancelFlag
      ensures moment == old(moment) + 1
      ensures cancelFlag == (old(cancelFlag) || env.cancelAt == Some(old(moment)))
      ensures cancelFlag == CancelledBetween(old(cancelFlag), old(moment), moment)
      ensures terminated == old(terminated)
        + if env.cancelAt == Some(old(moment)) && activeProcess.Some? then [activeProcess.value] else []
    {
      Tick();
      ok := !cancelFlag;
    }

    /**
     * `_run`: checks for cancellation, starts the process and registers it,
     * waits for it (another thread may cancel meanwhile, which terminates
     * it), and always unregisters it. A set cancel flag wins over the exit
     * code; a non-zero exit code fails with the `CalledProcessError` text.
     */
    method RunCommand(args: seq<string>, capture: bool) returns (r: Result<string, Abort>)
      requires activeProcess == None
      modifies this`moment, this`cancelFlag, this`terminated, this`commands, this`activeProcess
      ensures activeProcess == None
      ensures r == Err(Cancelled) <==> cancelFlag
      ensures moment >= old(moment) && cancelFlag == CancelledBetween(old(cancelFlag), old(moment), moment)
      ensures old(cancelFlag) ==> commands == old(commands)
      ensures !cancelFlag ==> commands == old(commands) + [args]
      ensures !cancelFlag && env.run(args).exitCode != 0 ==> r == Err(Failed(env.errorText(args, env.run(args).exitCode)))
      ensures !cancelFlag && env.run(args).exitCode == 0 ==> r == Ok(if capture then env.run(args).stdout else "")
      ensures terminated == old(terminated) || (cancelFlag && commands == old(commands) + [args] && terminated == old(terminated) + [args])
    {
      var ok := CheckCancelled();
      if !ok {
        return Err(Cancelled);
      }
      commands := commands + [args];
      activeProcess := Some(args);
      Tick();
      var outcome := env.run(args);
      if cancelFlag {
        r := Err(Cancelled);
      } else if outcome.exitCode != 0 {
        r := Err(Failed(env.errorText(args, outcome.exitCode)));
      } else {
        r := Ok(if capture then outcome.stdout else "");
      }
      activeProcess := None;
    }

    // -------------------------------------------------------------------------
    // Events

    /** `_emit`. */
    method Emit(e: Event)
      modifies this`events
      ensures events == old(events) + [e]
      ensures Milestones(events) == Milestones(old(events)) + Marks(e)
    {
      MilestonesSnoc(events, e);
      events := events + [e];
    }

    /** `_log`: a log event with a translated message. */
    method LogText(key: string, kwargs: map<string, string>)
      modifies this`events
      ensures events == old(events) + [Log(taskId, translate(key, kwargs))]
      ensures Milestones(events) == Milestones(old(events))
    {
      Emit(Log(taskId, translate(key, kwargs)));
    }

    /** `_status`. */
    method SetStatus(status: string)
      modifies this`events
      ensures events == old(events) + [Status(taskId, status)]
      ensures Milestones(events) == Milestones(old(events)) + [StatusMark(status)]
    {
      Emit(Status(taskId, status));
    }

    // -------------------------------------------------------------------------
    // The steps of a run

    /** The root and work folders, then status `downloading`. */
    method Prepare() returns (created: bool, abort: Option<Abort>)
      requires activeProcess == None
      modifies this`events, this`fsOps, this`moment, this`cancelFlag, this`terminated
      ensures Milestones(events) == Milestones(old(events)) + if created then [StatusMark("downloading")] else []
      ensures !created ==> abort == Some(Cancelled)
      ensures abort.Some? ==> abort == Some(Cancelled)
      ensures fsOps == old(fsOps) + [MakeDirs(root)] + if created then [MakeDirs(Tempdir())] else []
      ensures abort == Some(Cancelled) <==> cancelFlag
      ensures moment >= old(moment) && cancelFlag == CancelledBetween(old(cancelFlag), old(moment), moment)
    {
      LogText("log_root", map["root" := root]);
      fsOps := fsOps + [MakeDirs(root)];
      var ok := CheckCancelled();
      if !ok {
        return false, Some(Cancelled);
      }
      created := true;
      fsOps := fsOps + [MakeDirs(Tempdir())];
      LogText("log_workdir", map["folder" := Workdir()]);
      SetStatus("downloading");
      ok := CheckCancelled();
      abort := if ok then None else Some(Cancelled);
    }

    /** `_ensure_metadata`'s title (the given one, else yt-dlp's, else `video`), logged and announced. */
    method ResolveTitle() returns (abort: Option<Abort>, videoTitle: string)
      requires activeProcess == None
      modifies this`events, this`moment, this`cancelFlag, this`terminated, this`commands, this`activeProcess
      ensures activeProcess == None
      ensures Milestones(events) == Milestones(old(events))
      ensures abort.None? && title.Some? && title.value != [] ==> videoTitle == title.value
      ensures abort.None? && (title.None? || title.value == []) ==>
        videoTitle == env.metadataTitle(env.run(MetadataCommand(url)).stdout).GetOr("video")
      ensures abort.None? ==> videoTitle == VideoTitle()
      ensures old(events) <= events
      ensures abort.None? ==> Title(taskId, videoTitle) in events[|old(events)|..]
      ensures abort == Some(Cancelled) <==> cancelFlag
      ensures moment >= old(moment) && cancelFlag == CancelledBetween(old(cancelFlag), old(moment), moment)
    {
      if title.Some? && title.value != [] {
        videoTitle := title.value;
      } else {
        var output := RunCommand(MetadataCommand(url), true);
        if output.Err? {
          return Some(output.error), "";
        }
        videoTitle := env.metadataTitle(output.value).GetOr("video");
      }
      LogText("log_title", map["title" := videoTitle]);
      Emit(Title(taskId, videoTitle));
      assert events[|events| - 1] == Title(taskId, videoTitle);
      var ok := CheckCancelled();
      abort := if ok then None else Some(Cancelled);
    }

    /** The download itself, clipped while downloading when a clip is requested. */
    method Download() returns (abort: Option<Abort>)
      requires activeProcess == None
      modifies this`events, this`fsOps, this`moment, this`cancelFlag, this`terminated, this`commands, this`activeProcess
      ensures activeProcess == None
      ensures Milestones(events) == Milestones(old(events))
      ensures abort.None? ==> env.sourceFile.Some?
      ensures abort.None? ==> DownloadCommand(Workdir(), Tempdir(), DownloaderArgs(startSeconds, endSeconds, formatTime), url) in commands
      ensures old(events) <= events
      ensures abort.None? ==> fsOps == old(fsOps) + [Unlink(PathJoin(Workdir(), "source.%(ext)s"))]
      ensures fsOps == old(fsOps) || fsOps == old(fsOps) + [Unlink(PathJoin(Workdir(), "source.%(ext)s"))]
      ensures abort == Some(Cancelled) <==> cancelFlag
      ensures moment >= old(moment) && cancelFlag == CancelledBetween(old(cancelFlag), old(moment), moment)
    {
      if ClipRequested(startSeconds, endSeconds) {
        var humanEnd := if endSeconds.Some? then formatTime(endSeconds.value) else translate("segment_end", map[]);
        LogText("log_segment", map["start" := formatTime(startSeconds), "end" := humanEnd]);
      }
      LogText("log_download_step", map[]);
      var command := DownloadCommand(Workdir(), Tempdir(), DownloaderArgs(startSeconds, endSeconds, formatTime), url);
      var download := RunCommand(command, false);
      if download.Err? {
        return Some(download.error);
      }
      assert commands[|commands| - 1] == command;
      fsOps := fsOps + [Unlink(PathJoin(Workdir(), "source.%(ext)s"))];
      if env.sourceFile.None? {
        return Some(Failed(translate("error_missing_source", map[])));
      }
      var ok := CheckCancelled();
      abort := if ok then None else Some(Cancelled);
    }

    /** `_probe_codecs`: the video and audio codec names, `unknown` when ffprobe prints nothing. */
    method ProbeCodecs() returns (abort: Option<Abort>, video: string, audio: string)
      requires activeProcess == None && env.sourceFile.Some?
      modifies this`events, this`moment, this`cancelFlag, this`terminated, this`commands, this`activeProcess
      ensures activeProcess == None
      ensures Milestones(events) == Milestones(old(events))
      ensures abort.None? ==> video == VideoCodec() && audio == AudioCodec()
      ensures old(events) <= events
      ensures abort == Some(Cancelled) <==> cancelFlag
      ensures moment >= old(moment) && cancelFlag == CancelledBetween(old(cancelFlag), old(moment), moment)
    {
      video, audio := "", "";
      var output := RunCommand(ProbeCommand("v:0", Source()), true);
      if output.Err? {
        return Some(output.error), video, audio;
      }
      video := CodecName(output.value);
      output := RunCommand(ProbeCommand("a:0", Source()), true);
      if output.Err? {
        return Some(output.error), video, audio;
      }
      audio := CodecName(output.value);
      LogText("log_codecs", map["video" := video, "audio" := audio]);
      abort := None;
    }

    /** `_compute_vbit`: ffprobe's duration and the file size give the target bitrate. */
    method ComputeVbit(src: string) returns (r: Result<string, Abort>)
      requires activeProcess == None
      modifies this`moment, this`cancelFlag, this`terminated, this`commands, this`activeProcess
      ensures activeProcess == None
      ensures r.Ok? ==> r.value == Vbit(env.fileSize, DurationValue(env.run(DurationCommand(src)).stdout))
      ensures r.Ok? ==> commands == old(commands) + [DurationCommand(src)]
      ensures r == Err(Cancelled) <==> cancelFlag
      ensures moment >= old(moment) && cancelFlag == CancelledBetween(old(cancelFlag), old(moment), moment)
    {
      var output := RunCommand(DurationCommand(src), true);
      if output.Err? {
        return Err(output.error);
      }
      var duration := DurationValue(output.value);
      r := Ok(Vbit(env.fileSize, duration));
    }

    /**
     * Renames the source to the final name when it is already H.264/AAC and
     * no clip was requested; otherwise announces `converting` and runs
     * ffmpeg, transcoding or copying the streams.
     */
    method Convert(video: string, audio: string, finalName: string) returns (abort: Option<Abort>, converted: bool)
      requires activeProcess == None && env.sourceFile.Some?
      modifies this`events, this`fsOps, this`moment, this`cancelFlag, this`terminated, this`commands, this`activeProcess
      ensures activeProcess == None
      ensures converted <==> NeedsTranscode(video, audio) || ClipRequested(startSeconds, endSeconds)
      ensures Milestones(events) == Milestones(old(events)) + if converted then [StatusMark("converting")] else []
      ensures abort.None? && !converted ==> fsOps == old(fsOps) + [Rename(Source(), PathJoin(Workdir(), finalName))]
      ensures !converted ==> commands == old(commands)
      ensures abort.None? && converted ==> commands == old(commands) + ConversionCommands(video, audio, finalName)
      ensures abort == Some(Cancelled) <==> cancelFlag
      ensures moment >= old(moment) && cancelFlag == CancelledBetween(old(cancelFlag), old(moment), moment)
    {
      var needsTranscode := NeedsTranscode(video, audio);
      var clipApplied := DownloaderArgs(startSeconds, endSeconds, formatTime) != [];
      if !needsTranscode && !clipApplied {
        converted := false;
        LogText("log_skip_transcode", map[]);
        var ok := CheckCancelled();
        if !ok {
          return Some(Cancelled), converted;
        }
        fsOps := fsOps + [Rename(Source(), PathJoin(Workdir(), finalName))];
        return None, converted;
      }
      converted := true;
      SetStatus("converting");
      abort := RunFfmpeg(video, audio, finalName);
    }

    /**
     * The ffmpeg half of `_convert_if_needed`: the target bitrate when
     * transcoding, then ffmpeg on the source.
     */
    method RunFfmpeg(video: string, audio: string, finalName: string) returns (abort: Option<Abort>)
      requires activeProcess == None && env.sourceFile.Some?
      modifies this`events, this`moment, this`cancelFlag, this`terminated, this`commands, this`activeProcess
      ensures activeProcess == None
      ensures Milestones(events) == Milestones(old(events))
      ensures abort.None? ==> commands == old(commands) + ConversionCommands(video, audio, finalName)
      ensures abort == Some(Cancelled) <==> cancelFlag
      ensures moment >= old(moment) && cancelFlag == CancelledBetween(old(cancelFlag), old(moment), moment)
    {
      var needsTranscode := NeedsTranscode(video, audio);
      var clipDuringFfmpeg := ClipRequested(startSeconds, endSeconds) && DownloaderArgs(startSeconds, endSeconds, formatTime) == [];
      var vbit := "";
      ghost var probes: seq<seq<string>> := [];
      if needsTranscode {
        var computed := ComputeVbit(Source());
        if computed.Err? {
          return Some(computed.error);
        }
        vbit := computed.value;
        probes := [DurationCommand(Source())];
        LogText("log_target_bitrate", map["bitrate" := vbit]);
        LogText("log_transcoding", map[]);
      } else {
        LogText("log_copy_streams", map[]);
      }
      ghost var probed := commands;
      assert probed == old(commands) + probes;
      var ffmpeg := BuildFfmpegCommand(clipDuringFfmpeg, startSeconds, endSeconds, formatTime, Source(), needsTranscode, vbit, finalName);
      assert ConversionCommands(video, audio, finalName) == probes + [ffmpeg];
      var result := RunCommand(ffmpeg, false);
      abort := if result.Err? then Some(result.error) else None;
      if abort.None? {
        assert commands == probed + [ffmpeg];
        AppendAssociative(old(commands), probes, [ffmpeg]);
      }
    }

    /**
     * Moves the file into the shared library under a free name unless the
     * task keeps its own folder, then announces `done` with the final path.
     */
    method Place(finalName: string) returns (abort: Option<Abort>, destination: string)
      requires activeProcess == None
      modifies this`events, this`fsOps, this`moment, this`cancelFlag, this`terminated
      ensures abort.Some? ==> abort == Some(Cancelled) && Milestones(events) == Milestones(old(events))
      ensures abort.None? ==> Milestones(events) == Milestones(old(events)) + [StatusMark("done"), DoneMark(destination)]
      ensures abort.None? && separateFolder ==> destination == PathJoin(Workdir(), finalName)
      ensures abort.None? && !separateFolder ==>
        exists p: Utils.Path | p.parent == Library() && p !in env.libraryFiles ::
          destination == PathText(p)
          && (Utils.Path(Library(), finalName) !in env.libraryFiles ==> p.name == finalName)
      ensures abort.None? && !separateFolder ==>
        exists p :: FirstFree(Utils.Path(Library(), finalName), env.libraryFiles, p) && destination == PathText(p)
      ensures abort.None? ==> Placed(finalName, destination)
      ensures separateFolder ==> fsOps == old(fsOps)
      ensures abort.None? && !separateFolder ==>
        fsOps == old(fsOps) + [MakeDirs(Library()), Move(PathJoin(Workdir(), finalName), destination)]
      ensures abort == Some(Cancelled) <==> cancelFlag
      ensures moment >= old(moment) && cancelFlag == CancelledBetween(old(cancelFlag), old(moment), moment)
    {
      destination := PathJoin(Workdir(), finalName);
      var ok := CheckCancelled();
      if !ok {
        return Some(Cancelled), destination;
      }
      if !separateFolder {
        destination := MoveToLibrary(destination, finalName);
      }
      ok := CheckCancelled();
      if !ok {
        return Some(Cancelled), destination;
      }
      SetStatus("done");
      Emit(Done(taskId, destination));
      LogText("log_done_path", map["path" := destination]);
      abort := None;
    }

    /** The title, the download and the codec probe, which announce no milestone. */
    method Fetch() returns (abort: Option<Abort>, video: string, audio: string, finalName: string)
      requires activeProcess == None
      modifies this`events, this`fsOps, this`moment, this`cancelFlag, this`terminated, this`commands, this`activeProcess
      ensures activeProcess == None
      ensures Milestones(events) == Milestones(old(events))
      ensures abort.None? ==> env.sourceFile.Some? && video == VideoCodec() && audio == AudioCodec()
      ensures abort.None? ==> finalName == Utils.SanitizeFilename(VideoTitle()) + ".mp4"
      ensures old(events) <= events
      ensures abort.None? ==> Title(taskId, VideoTitle()) in events[|old(events)|..]
      ensures abort.None? ==> fsOps == old(fsOps) + [Unlink(PathJoin(Workdir(), "source.%(ext)s"))]
      ensures abort == Some(Cancelled) <==> cancelFlag
      ensures moment >= old(moment) && cancelFlag == CancelledBetween(old(cancelFlag), old(moment), moment)
    {
      var videoTitle;
      video, audio, finalName := "", "", "";
      ghost var events0 := events;
      abort, videoTitle := ResolveTitle();
      ghost var titled := events;
      if abort.None? {
        abort := Download();
      }
      if abort.None? {
        abort, video, audio := ProbeCodecs();
        finalName := Utils.SanitizeFilename(videoTitle) + ".mp4";
      }
      if abort.None? {
        TitleKept(events0, titled, events, Title(taskId, videoTitle));
      }
    }

    /** Creates the shared library and moves the file there under the first free name. */
    method MoveToLibrary(source: string, finalName: string) returns (destination: string)
      modifies this`fsOps
      ensures exists p: Utils.Path | p.parent == Library() && p !in env.libraryFiles ::
        destination == PathText(p)
        && (Utils.Path(Library(), finalName) !in env.libraryFiles ==> p.name == finalName)
      ensures exists p :: FirstFree(Utils.Path(Library(), finalName), env.libraryFiles, p) && destination == PathText(p)
      ensures fsOps == old(fsOps) + [MakeDirs(Library()), Move(source, destination)]
    {
      var candidate := Utils.Path(Library(), finalName);
      var target := Utils.UniquePath(candidate, env.libraryFiles);
      UniquePathStaysInLibrary(candidate, target, env.libraryFiles);
      destination := PathText(target);
      fsOps := fsOps + [MakeDirs(Library()), Move(source, destination)];
    }

    /** The body of the `try` after validation: every step in turn, up to the first that aborts. */
    method Attempt() returns (abort: Option<Abort>, created: bool, ghost outcome: RunOutcome)
      requires activeProcess == None
      modifies this`events, this`fsOps, this`moment, this`cancelFlag, this`terminated, this`commands, this`activeProcess
      ensures activeProcess == None
      ensures !outcome.Invalid?
      ensures abort.Some? <==> outcome.Interrupted?
      ensures abort.Some? ==> outcome == Interrupted(outcome.reached, abort.value, created)
      ensures outcome.Interrupted? ==> outcome.reached <= 2 && (!created ==> outcome.reached == 0)
      ensures outcome.Completed? ==> created && outcome.previousError == error && env.sourceFile.Some?
      ensures outcome.Completed? && env.sourceFile.Some? ==>
        (outcome.converted <==> NeedsTranscode(VideoCodec(), AudioCodec()) || ClipRequested(startSeconds, endSeconds))
      ensures outcome.Completed? ==> Placed(Utils.SanitizeFilename(VideoTitle()) + ".mp4", outcome.destination)
      ensures Milestones(events) == Milestones(old(events)) + Reached(outcome)
      ensures abort == Some(Cancelled) <==> cancelFlag
      ensures moment >= old(moment) && cancelFlag == CancelledBetween(old(cancelFlag), old(moment), moment)
    {
      ghost var m0 := Milestones(events);
      var converted := false;
      var destination := "";
      created, abort := Prepare();
      if abort.None? {
        abort, converted, destination := Deliver();
        if abort.None? {
          ReachedCompleted(converted, destination, error);
          Regroup3(m0, [StatusMark("downloading")], if converted then [StatusMark("converting")] else [],
                   [StatusMark("done"), DoneMark(destination)]);
        } else if converted {
          Snoc2(m0, StatusMark("downloading"), StatusMark("converting"));
        }
      }
      ghost var reached: nat := if !created then 0 else if converted then 2 else 1;
      outcome := if abort.Some? then Interrupted(reached, abort.value, created)
                 else Completed(converted, destination, error);
    }

    /** The steps once the folders exist: the title and download, the conversion, and the placing of the file. */
    method Deliver() returns (abort: Option<Abort>, converted: bool, destination: string)
      requires activeProcess == None
      modifies this`events, this`fsOps, this`moment, this`cancelFlag, this`terminated, this`commands, this`activeProcess
      ensures activeProcess == None
      ensures abort.Some? && !converted ==> Milestones(events) == Milestones(old(events))
      ensures abort.Some? && converted ==> Milestones(events) == Milestones(old(events)) + [StatusMark("converting")]
      ensures abort.None? ==> Milestones(events) == Milestones(old(events)) + (if converted then [StatusMark("converting")] else [])
                                                    + [StatusMark("done"), DoneMark(destination)]
      ensures abort.None? ==>
        env.sourceFile.Some?
        && (converted <==> NeedsTranscode(VideoCodec(), AudioCodec()) || ClipRequested(startSeconds, endSeconds))
        && Placed(Utils.SanitizeFilename(VideoTitle()) + ".mp4", destination)
      ensures abort == Some(Cancelled) <==> cancelFlag
      ensures moment >= old(moment) && cancelFlag == CancelledBetween(old(cancelFlag), old(moment), moment)
    {
      converted, destination := false, "";
      var video, audio, finalName;
      abort, video, audio, finalName := Fetch();
      if abort.None? {
        abort, converted := Convert(video, audio, finalName);
        if abort.None? {
          abort, destination := Place(finalName);
        }
      }
    }

    /** `except DownloadCancelled`: status `cancelled`, and no error. */
    method HandleCancelled()
      modifies this`events, this`cancelled, this`error
      ensures cancelled && error == None && |events| > |old(events)|
      ensures Milestones(events) == Milestones(old(events)) + [StatusMark("cancelled")]
    {
      cancelled := true;
      SetStatus("cancelled");
      error := None;
      LogText("log_cancelled", map[]);
    }

    /** `except Exception`: the error text is kept, announced by status `error` and an error event. */
    method HandleFailure(message: string)
      modifies this`events, this`cancelled, this`error
      ensures !cancelled && error == Some(message) && |events| > |old(events)|
      ensures Milestones(events) == Milestones(old(events)) + [StatusMark("error"), ErrorMark(message)]
    {
      cancelled := false;
      error := Some(message);
      SetStatus("error");
      Emit(Error(taskId, message));
      LogText("log_error_message", map["error" := message]);
      Snoc2(Milestones(old(events)), StatusMark("error"), ErrorMark(message));
    }

    /**
     * The `except` branches and the `finally` block's event: cancellation
     * gives status `cancelled` and clears the error, any other failure gives
     * status `error` and an error event, and `finished` always follows.
     */
    method Conclude(abort: Option<Abort>, ghost outcome: RunOutcome)
      requires abort.None? <==> outcome.Completed?
      requires outcome.Invalid? ==> abort == Some(Failed(outcome.message))
      requires outcome.Interrupted? ==> abort == Some(outcome.abort)
      requires outcome.Completed? ==> outcome.previousError == error
      modifies this`events, this`cancelled, this`error
      ensures cancelled == (abort == Some(Cancelled))
      ensures abort == Some(Cancelled) ==> error == None
      ensures abort.Some? && abort.value.Failed? ==> error == Some(abort.value.message)
      ensures abort.None? ==> error == old(error)
      ensures |events| > |old(events)| && events[|events| - 1] == Finished(taskId, cancelled, error)
      ensures Milestones(events) == Milestones(old(events)) + Ending(outcome)
    {
      ghost var m0 := Milestones(events);
      ghost var handled: seq<Milestone> := [];
      if abort == Some(Cancelled) {
        assert Ending(outcome) == [StatusMark("cancelled"), FinishedMark(true, None)];
        HandleCancelled();
        handled := [StatusMark("cancelled")];
      } else if abort.Some? {
        TraceFailed(outcome, abort.value.message);
        HandleFailure(abort.value.message);
        handled := [StatusMark("error"), ErrorMark(abort.value.message)];
      } else {
        assert Ending(outcome) == [FinishedMark(false, error)];
        cancelled := false;
      }
      var finished := Finished(taskId, cancelled, error);
      Emit(finished);
      AppendMark(m0, handled, FinishedMark(cancelled, error));
    }

    /**
     * `run`: validation, the attempt, the `except` branches, and the
     * `finally` block with one `finished` event and the clean-up of the
     * temporary and work folders.
     */
    method Run() returns (ghost outcome: RunOutcome)
      requires activeProcess == None
      modifies this`events, this`fsOps, this`moment, this`cancelFlag, this`terminated, this`commands, this`activeProcess
      modifies this`cancelled, this`error
      ensures activeProcess == None
      ensures Milestones(events) == Milestones(old(events)) + Trace(outcome)
      ensures FinishedCount(events) == FinishedCount(old(events)) + 1
      ensures |events| > 0 && events[|events| - 1] == Finished(taskId, cancelled, error)
      ensures outcome.Interrupted? ==> outcome.reached <= 2
      ensures outcome.Invalid? <==> ValidationError().Some?
      ensures outcome.Invalid? ==> outcome.message == ValidationError().value
      ensures outcome.Invalid? ==> fsOps == old(fsOps) && commands == old(commands)
      ensures cancelled <==> outcome.Interrupted? && outcome.abort == Cancelled
      ensures cancelled ==> error == None
      ensures outcome.Invalid? ==> error == Some(outcome.message)
      ensures outcome.Interrupted? && outcome.abort.Failed? ==> error == Some(outcome.abort.message)
      ensures outcome.Completed? ==> error == old(error) && outcome.previousError == old(error)
      ensures outcome.Completed? ==> env.sourceFile.Some?
      ensures outcome.Completed? && env.sourceFile.Some? ==>
        (outcome.converted <==> NeedsTranscode(VideoCodec(), AudioCodec()) || ClipRequested(startSeconds, endSeconds))
      ensures outcome.Completed? ==> Placed(Utils.SanitizeFilename(VideoTitle()) + ".mp4", outcome.destination)
      ensures var created := outcome.Completed? || (outcome.Interrupted? && outcome.workdirCreated);
        |fsOps| >= |Cleanup(created, cancelled)| && fsOps[|fsOps| - |Cleanup(created, cancelled)|..] == Cleanup(created, cancelled)
      ensures moment >= old(moment) && cancelFlag == CancelledBetween(old(cancelFlag), old(moment), moment)
      ensures cancelled ==> cancelFlag
      ensures !outcome.Invalid? ==> (cancelled <==> cancelFlag)
      ensures !old(cancelFlag) && env.cancelAt.None? ==> !cancelled
    {
      ghost var events0 := events;
      var abort, created;
      abort, created, outcome := Try();
      ghost var progressed, ops, flag, now := events, fsOps, cancelFlag, moment;
      Finish(abort, created, outcome);
      TraceJoin(events0, progressed, events, outcome);
      ghost var cleanup := Cleanup(created, cancelled);
      assert fsOps == ops + cleanup && fsOps[|fsOps| - |cleanup|..] == cleanup;
      assert cancelFlag == flag && moment == now;
      if outcome.Invalid? {
        assert abort == Some(Failed(outcome.message));
      } else if outcome.Interrupted? {
        assert abort == Some(outcome.abort);
      } else {
        assert abort.None?;
      }
    }

    /**
     * The `except` branches and the `finally` block: the ending's events,
     * then the clean-up of the folders.
     */
    method Finish(abort: Option<Abort>, created: bool, ghost outcome: RunOutcome)
      requires abort.None? <==> outcome.Completed?
      requires outcome.Invalid? ==> abort == Some(Failed(outcome.message))
      requires outcome.Interrupted? ==> abort == Some(outcome.abort)
      requires outcome.Completed? ==> outcome.previousError == error
      modifies this`events, this`cancelled, this`error, this`fsOps
      ensures cancelled == (abort == Some(Cancelled))
      ensures abort == Some(Cancelled) ==> error == None
      ensures abort.Some? && abort.value.Failed? ==> error == Some(abort.value.message)
      ensures abort.None? ==> error == old(error)
      ensures |events| > 0 && events[|events| - 1] == Finished(taskId, cancelled, error)
      ensures Milestones(events) == Milestones(old(events)) + Ending(outcome)
      ensures fsOps == old(fsOps) + Cleanup(created, cancelled)
    {
      Conclude(abort, outcome);
      ghost var last := Finished(taskId, cancelled, error);
      assert events[|events| - 1] == last;
      CleanUp(created);
      assert last == Finished(taskId, cancelled, error);
    }

    /** The `try` block: the input checks, then, when they pass, the attempt. */
    method Try() returns (abort: Option<Abort>, created: bool, ghost outcome: RunOutcome)
      requires activeProcess == None
      modifies this`events, this`fsOps, this`moment, this`cancelFlag, this`terminated, this`commands, this`activeProcess
      ensures activeProcess == None
      ensures Milestones(events) == Milestones(old(events)) + Reached(outcome)
      ensures abort.None? <==> outcome.Completed?
      ensures outcome.Invalid? <==> ValidationError().Some?
      ensures outcome.Invalid? ==> outcome.message == ValidationError().value && abort == Some(Failed(outcome.message))
      ensures outcome.Invalid? ==> fsOps == old(fsOps) && commands == old(commands)
      ensures created <==> outcome.Completed? || (outcome.Interrupted? && outcome.workdirCreated)
      ensures outcome.Interrupted? ==> abort == Some(outcome.abort) && outcome.reached <= 2 && created == outcome.workdirCreated
      ensures outcome.Completed? ==> created && outcome.previousError == error && env.sourceFile.Some?
      ensures outcome.Completed? && env.sourceFile.Some? ==>
        (outcome.converted <==> NeedsTranscode(VideoCodec(), AudioCodec()) || ClipRequested(startSeconds, endSeconds))
      ensures outcome.Completed? ==> Placed(Utils.SanitizeFilename(VideoTitle()) + ".mp4", outcome.destination)
      ensures moment >= old(moment) && cancelFlag == CancelledBetween(old(cancelFlag), old(moment), moment)
      ensures abort == Some(Cancelled) ==> cancelFlag
      ensures !outcome.Invalid? ==> (abort == Some(Cancelled) <==> cancelFlag)
    {
      var validation := ValidationError();
      if validation.Some? {
        abort, created := Some(Failed(validation.value)), false;
        outcome := Invalid(validation.value);
      } else {
        abort, created, outcome := Attempt();
      }
    }

    /** The `finally` block's removal of the temporary folder and, unless it is kept, the work folder. */
    method CleanUp(created: bool)
      modifies this`fsOps
      ensures fsOps == old(fsOps) + Cleanup(created, cancelled)
    {
      if created {
        fsOps := fsOps + [RemoveTree(Tempdir())];
      }
      if created && (cancelled || !separateFolder) {
        fsOps := fsOps + [RemoveTree(Workdir())];
      }
    }
  }

  /**
   * `p` is what `unique_path` picks for `candidate` among `existing`: a free
   * path in the same folder, the candidate itself when it is free, else the
   * least `stem_k.suffix` that is free.
   */
  ghost predicate FirstFree(candidate: Utils.Path, existing: set<Utils.Path>, p: Utils.Path) {
    p !in existing && p.parent == candidate.parent
    && (candidate !in existing ==> p == candidate)
    && (candidate in existing ==>
          exists k :: 1 <= k && p == Utils.Numbered(candidate, k)
            && forall j | 1 <= j < k :: Utils.Numbered(candidate, j) in existing)
  }

  /** `unique_path` keeps the folder it was given. */
  lemma UniquePathStaysInLibrary(candidate: Utils.Path, target: Utils.Path, existing: set<Utils.Path>)
    requires candidate !in existing ==> target == candidate
    requires candidate in existing ==> exists k :: 1 <= k && target == Utils.Numbered(candidate, k)
    ensures target.parent == candidate.parent
  {
  }

  /** An event announced after `a` is still among those after `a` once more are announced. */
  lemma TitleKept(a: seq<Event>, b: seq<Event>, c: seq<Event>, x: Event)
    requires a <= b <= c && x in b[|a|..]
    ensures x in c[|a|..]
  {
    var i :| |a| <= i < |b| && b[i] == x;
    assert c[i] == x;
  }

  lemma AppendAssociative<T>(a: seq<T>, b: seq<T>, c: seq<T>)
    ensures a + b + c == a + (b + c)
  {
  }

  lemma Snoc2(m: seq<Milestone>, x: Milestone, y: Milestone)
    ensures m + [x] + [y] == m + [x, y]
  {
  }

  lemma Snoc3(m: seq<Milestone>, x: Milestone, y: Milestone, z: Milestone)
    ensures m + [x] + [y] + [z] == m + [x, y, z]
  {
  }

  lemma AppendMark(m: seq<Milestone>, xs: seq<Milestone>, y: Milestone)
    ensures m + xs + [y] == m + (xs + [y])
  {
  }

  lemma Regroup3(m: seq<Milestone>, a: seq<Milestone>, b: seq<Milestone>, c: seq<Milestone>)
    ensures m + a + b + c == m + (a + b + c)
  {
  }

  /** A completed attempt's milestones, grouped as `Reached` groups them. */
  lemma ReachedCompleted(converted: bool, destination: string, previousError: Option<string>)
    ensures Reached(Completed(converted, destination, previousError))
      == [StatusMark("downloading")] + (if converted then [StatusMark("converting")] else [])
         + [StatusMark("done"), DoneMark(destination)]
  {
  }

  /** The attempt's milestones followed by the ending's are the run's trace, and hold one more `finished`. */
  lemma TraceJoin(before: seq<Event>, progressed: seq<Event>, after: seq<Event>, outcome: RunOutcome)
    requires Milestones(progressed) == Milestones(before) + Reached(outcome)
    requires Milestones(after) == Milestones(progressed) + Ending(outcome)
    ensures Milestones(after) == Milestones(before) + Trace(outcome)
    ensures FinishedCount(after) == FinishedCount(before) + 1
  {
    AppendAssociative(Milestones(before), Reached(outcome), Ending(outcome));
    FinishedCountOfMilestones(before);
    FinishedCountOfMilestones(after);
    FinishedMarkCountAppend(Milestones(before), Trace(outcome));
    TraceFinishesOnce(outcome);
  }
}
