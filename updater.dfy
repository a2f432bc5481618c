/**
 * The updater helper's command line: the arguments the application passes to
 * a copy of itself to swap in a new executable, how those arguments are read
 * back, and the retry loop that replaces the executable.
 */
module Updater {
  import opened Wrappers
  import opened JsonStrings

  // ---------------------------------------------------------------------------
  // Reading `--flag value` pairs

  /** The flags of a flat list of `--flag value` pairs, in order. */
  function Flags(opts: seq<string>): (flags: seq<string>)
    requires |opts| % 2 == 0
    ensures |flags| == |opts| / 2
    ensures forall i | 0 <= i < |flags| :: flags[i] == opts[2 * i]
  {
    if opts == [] then [] else [opts[0]] + Flags(opts[2..])
  }

  /**
   * The value given with the first occurrence of `flag` in a flat list of
   * pairs. argparse keeps the last occurrence instead; the two agree on
   * commands without a repeated flag, which are the only ones built here.
   */
  function ValueOf(opts: seq<string>, flag: string): (r: Option<string>)
    requires |opts| % 2 == 0
    ensures r.Some? <==> flag in Flags(opts)
  {
    if opts == [] then None
    else if opts[0] == flag then Some(opts[1])
    else ValueOf(opts[2..], flag)
  }

  // ---------------------------------------------------------------------------
  // build_updater_command

  /** What the application asks the helper to do; the numbers as `str(float)` writes them. */
  datatype UpdaterRequest = UpdaterRequest(
    source: string, target: string, launchPath: Option<string>, launchArgs: seq<string>,
    logFile: Option<string>, waitBefore: string, maxWait: string,
    relaunchHelper: Option<string>, relaunchWait: string)

  /** A list of `(flag, value)` pairs written out flat, as on a command line. */
  function Flatten(pairs: seq<(string, string)>): (r: seq<string>)
    ensures |r| == 2 * |pairs|
  {
    if pairs == [] then [] else [pairs[0].0, pairs[0].1] + Flatten(pairs[1..])
  }

  /** The value paired with the first occurrence of `flag`. */
  function Lookup(pairs: seq<(string, string)>, flag: string): (r: Option<string>)
    ensures r.Some? ==> (flag, r.value) in pairs
    ensures r.None? ==> forall p | p in pairs :: p.0 != flag
  {
    if pairs == [] then None
    else if pairs[0].0 == flag then Some(pairs[0].1)
    else Lookup(pairs[1..], flag)
  }

  lemma {:induction false} FlattenAppend(a: seq<(string, string)>, b: seq<(string, string)>)
    ensures Flatten(a + b) == Flatten(a) + Flatten(b)
  {
    if a == [] {
      assert a + b == b;
    } else {
      assert (a + b)[1..] == a[1..] + b;
      FlattenAppend(a[1..], b);
    }
  }

  lemma {:induction false} LookupAppend(a: seq<(string, string)>, b: seq<(string, string)>, flag: string)
    ensures Lookup(a + b, flag) == if Lookup(a, flag).Some? then Lookup(a, flag) else Lookup(b, flag)
  {
    if a == [] {
      assert a + b == b;
    } else {
      assert (a + b)[1..] == a[1..] + b;
      LookupAppend(a[1..], b, flag);
    }
  }

  lemma FlattenCons(p: (string, string), rest: seq<(string, string)>)
    ensures Flatten([p] + rest) == [p.0, p.1] + Flatten(rest)
  {
    assert ([p] + rest)[1..] == rest;
  }

  lemma LookupCons(p: (string, string), rest: seq<(string, string)>, flag: string)
    ensures Lookup([p] + rest, flag) == if p.0 == flag then Some(p.1) else Lookup(rest, flag)
  {
    assert ([p] + rest)[1..] == rest;
  }

  /** Reading the flat list back gives the value of each flag's first pair. */
  lemma {:induction false} ReadFlattened(pairs: seq<(string, string)>, flag: string)
    ensures ValueOf(Flatten(pairs), flag) == Lookup(pairs, flag)
  {
    if pairs != [] {
      var flat := Flatten(pairs);
      assert flat[0] == pairs[0].0 && flat[1] == pairs[0].1;
      assert flat[2..] == Flatten(pairs[1..]);
      ReadFlattened(pairs[1..], flag);
    }
  }

  /** A pair for an optional value: present only when the value is. */
  function OptionalPair(flag: string, value: Option<string>): (r: seq<(string, string)>)
    ensures Lookup(r, flag) == value
    ensures forall f | f != flag :: Lookup(r, f).None?
  {
    if value.Some? then [(flag, value.value)] else []
  }

  /** The flags the command always carries. */
  const FixedFlags: seq<string> := ["--source", "--target", "--wait-before", "--max-wait"]

  /** The fixed flags with their values. */
  function FixedOptions(req: UpdaterRequest): seq<(string, string)>
  {
    [("--source", req.source), ("--target", req.target),
     ("--wait-before", req.waitBefore), ("--max-wait", req.maxWait)]
  }

  /** The fixed pairs, written flat. */
  lemma FlattenFixed(req: UpdaterRequest)
    ensures Flatten(FixedOptions(req))
      == ["--source", req.source, "--target", req.target, "--wait-before", req.waitBefore, "--max-wait", req.maxWait]
  {
    var fixed := FixedOptions(req);
    assert fixed == [fixed[0]] + ([fixed[1]] + ([fixed[2]] + ([fixed[3]] + [])));
    FlattenCons(fixed[3], []);
    FlattenCons(fixed[2], [fixed[3]]);
    FlattenCons(fixed[1], [fixed[2], fixed[3]]);
    FlattenCons(fixed[0], [fixed[1], fixed[2], fixed[3]]);
  }

  /** The launch arguments as the command carries them: JSON text, only when there are any. */
  function LaunchArgsJson(launchArgs: seq<string>): Option<string>
  {
    if launchArgs != [] then Some(DumpStrings(launchArgs)) else None
  }

  /** The relaunch pairs, which come together or not at all. */
  function RelaunchOptions(req: UpdaterRequest): seq<(string, string)>
  {
    if req.relaunchHelper.Some?
    then [("--relaunch-helper", req.relaunchHelper.value), ("--relaunch-wait", req.relaunchWait)]
    else []
  }

  /** The optional pairs, in the order they are appended. */
  function OptionalOptions(req: UpdaterRequest): seq<(string, string)>
  {
    OptionalPair("--launch", req.launchPath)
    + OptionalPair("--launch-args-json", LaunchArgsJson(req.launchArgs))
    + OptionalPair("--log-file", req.logFile)
    + RelaunchOptions(req)
  }

  /** The `(flag, value)` pairs `build_updater_command` writes after `--run-updater`. */
  function UpdaterOptions(req: UpdaterRequest): seq<(string, string)>
  {
    FixedOptions(req) + OptionalOptions(req)
  }

  /**
   * `build_updater_command`: the interpreter, `--run-updater`, the fixed
   * pairs, then each optional pair whose value is given, appended in turn.
   */
  method BuildUpdaterCommand(executable: string, req: UpdaterRequest) returns (command: seq<string>)
    ensures command == [executable, "--run-updater"] + Flatten(UpdaterOptions(req))
  {
    command := [executable, "--run-updater",
      "--source", req.source, "--target", req.target,
      "--wait-before", req.waitBefore, "--max-wait", req.maxWait];
    FlattenFixed(req);
    ghost var prefix := [executable, "--run-updater"];
    ghost var pairs := FixedOptions(req);
    assert command == prefix + Flatten(pairs);
    var launchArgsJson := if req.launchArgs != [] then Some(DumpStrings(req.launchArgs)) else None;
    command := ExtendIfGiven(command, "--launch", req.launchPath, prefix, pairs);
    pairs := pairs + OptionalPair("--launch", req.launchPath);
    command := ExtendIfGiven(command, "--launch-args-json", launchArgsJson, prefix, pairs);
    pairs := pairs + OptionalPair("--launch-args-json", LaunchArgsJson(req.launchArgs));
    command := ExtendIfGiven(command, "--log-file", req.logFile, prefix, pairs);
    pairs := pairs + OptionalPair("--log-file", req.logFile);
    if req.relaunchHelper.Some? {
      command := command + ["--relaunch-helper", req.relaunchHelper.value, "--relaunch-wait", req.relaunchWait];
    }
    FlattenAppend(pairs, RelaunchOptions(req));
    Regroup(FixedOptions(req), OptionalPair("--launch", req.launchPath),
      OptionalPair("--launch-args-json", LaunchArgsJson(req.launchArgs)),
      OptionalPair("--log-file", req.logFile), RelaunchOptions(req));
  }

  /** `if value: command.extend([flag, value])`, with the pairs the command carries so far. */
  method ExtendIfGiven(
    command: seq<string>, flag: string, value: Option<string>,
    ghost prefix: seq<string>, ghost pairs: seq<(string, string)>)
    returns (extended: seq<string>)
    requires command == prefix + Flatten(pairs)
    ensures extended == prefix + Flatten(pairs + OptionalPair(flag, value))
  {
    FlattenAppend(pairs, OptionalPair(flag, value));
    if value.Some? {
      extended := command + [flag, value.value];
    } else {
      extended := command;
    }
  }

  lemma Regroup<T>(f: seq<T>, a: seq<T>, b: seq<T>, c: seq<T>, d: seq<T>)
    ensures f + a + b + c + d == f + (a + b + c + d)
  {
  }

  /** The command line is the interpreter, `--run-updater`, then the pairs written flat. */
  lemma CommandShape(executable: string, req: UpdaterRequest, command: seq<string>)
    requires command == [executable, "--run-updater"] + Flatten(UpdaterOptions(req))
    ensures |command| >= 10 && |command| % 2 == 0
    ensures command[0] == executable && command[1] == "--run-updater"
    ensures command[2..] == Flatten(UpdaterOptions(req))
    ensures forall f :: ValueOf(command[2..], f) == Lookup(UpdaterOptions(req), f)
    ensures MaybeRunUpdater(command[1..], 0).Some?
  {
    assert command[2..] == Flatten(UpdaterOptions(req));
    assert command[1..][0] == "--run-updater";
    forall f {
      ReadFlattened(UpdaterOptions(req), f);
    }
  }

  /** What the fixed pairs give for each flag. */
  lemma LookupFixed(req: UpdaterRequest, f: string)
    ensures Lookup(FixedOptions(req), f)
      == if f == "--source" then Some(req.source) else if f == "--target" then Some(req.target)
         else if f == "--wait-before" then Some(req.waitBefore) else if f == "--max-wait" then Some(req.maxWait)
         else None
  {
    var fixed := FixedOptions(req);
    assert fixed == [fixed[0]] + [fixed[1], fixed[2], fixed[3]];
    assert [fixed[1], fixed[2], fixed[3]] == [fixed[1]] + [fixed[2], fixed[3]];
    assert [fixed[2], fixed[3]] == [fixed[2]] + [fixed[3]];
    assert [fixed[3]] == [fixed[3]] + [];
    LookupCons(fixed[0], [fixed[1], fixed[2], fixed[3]], f);
    LookupCons(fixed[1], [fixed[2], fixed[3]], f);
    LookupCons(fixed[2], [fixed[3]], f);
    LookupCons(fixed[3], [], f);
  }

  /** The four fixed flags come first, each with the request's value. */
  lemma FixedValues(req: UpdaterRequest)
    ensures UpdaterOptions(req)[..4] == FixedOptions(req)
    ensures Lookup(UpdaterOptions(req), "--source") == Some(req.source)
    ensures Lookup(UpdaterOptions(req), "--target") == Some(req.target)
    ensures Lookup(UpdaterOptions(req), "--wait-before") == Some(req.waitBefore)
    ensures Lookup(UpdaterOptions(req), "--max-wait") == Some(req.maxWait)
  {
    var fixed := FixedOptions(req);
    LookupFixed(req, "--source");
    LookupAppend(fixed, OptionalOptions(req), "--source");
    LookupFixed(req, "--target");
    LookupAppend(fixed, OptionalOptions(req), "--target");
    LookupFixed(req, "--wait-before");
    LookupAppend(fixed, OptionalOptions(req), "--wait-before");
    LookupFixed(req, "--max-wait");
    LookupAppend(fixed, OptionalOptions(req), "--max-wait");
    assert UpdaterOptions(req)[..4] == fixed;
  }

  /** An optional flag is looked up past the fixed ones, none of which it is. */
  lemma LookupOptional(req: UpdaterRequest, f: string)
    requires f !in FixedFlags
    ensures Lookup(UpdaterOptions(req), f) == Lookup(OptionalOptions(req), f)
  {
    LookupAppend(FixedOptions(req), OptionalOptions(req), f);
  }

  /**
   * `--launch`, `--launch-args-json` and `--log-file` appear exactly when
   * their values are given, and carry them; the launch arguments read back
   * as the list that was written.
   */
  lemma OptionalValues(req: UpdaterRequest)
    ensures Lookup(UpdaterOptions(req), "--launch") == req.launchPath
    ensures Lookup(UpdaterOptions(req), "--launch-args-json").Some? <==> req.launchArgs != []
    ensures ParseLaunchArgs(Lookup(UpdaterOptions(req), "--launch-args-json")) == req.launchArgs
    ensures Lookup(UpdaterOptions(req), "--log-file") == req.logFile
  {
    var a := OptionalPair("--launch", req.launchPath);
    var b := OptionalPair("--launch-args-json", LaunchArgsJson(req.launchArgs));
    var c := OptionalPair("--log-file", req.logFile);
    var d := RelaunchOptions(req);
    assert OptionalOptions(req) == a + (b + (c + d));
    LookupOptional(req, "--launch");
    LookupOptional(req, "--launch-args-json");
    LookupOptional(req, "--log-file");
    LookupAppend(a, b + (c + d), "--launch");
    LookupAppend(a, b + (c + d), "--launch-args-json");
    LookupAppend(b, c + d, "--launch-args-json");
    LookupAppend(a, b + (c + d), "--log-file");
    LookupAppend(b, c + d, "--log-file");
    LookupAppend(c, d, "--log-file");
    if req.launchArgs != [] {
      LaunchArgsRoundTrip(req.launchArgs);
    }
  }

  /** `--relaunch-helper` and `--relaunch-wait` appear together, exactly when a helper is given. */
  lemma RelaunchValues(req: UpdaterRequest)
    ensures Lookup(UpdaterOptions(req), "--relaunch-helper") == req.relaunchHelper
    ensures Lookup(UpdaterOptions(req), "--relaunch-wait").Some? <==> req.relaunchHelper.Some?
    ensures req.relaunchHelper.Some? ==> Lookup(UpdaterOptions(req), "--relaunch-wait") == Some(req.relaunchWait)
  {
    var a := OptionalPair("--launch", req.launchPath);
    var b := OptionalPair("--launch-args-json", LaunchArgsJson(req.launchArgs));
    var c := OptionalPair("--log-file", req.logFile);
    var d := RelaunchOptions(req);
    assert OptionalOptions(req) == a + b + c + d;
    forall f | f in ["--relaunch-helper", "--relaunch-wait"]
      ensures Lookup(UpdaterOptions(req), f) == Lookup(d, f)
    {
      LookupOptional(req, f);
      LookupAppend(a, b, f);
      LookupAppend(a + b, c, f);
      LookupAppend(a + b + c, d, f);
    }
    if req.relaunchHelper.Some? {
      assert d == [d[0]] + [d[1]];
    }
  }

  // ---------------------------------------------------------------------------
  // _parse_launch_args and maybe_run_updater

  /** `_parse_launch_args(value)`: the decoded list of strings, or `[]` for anything else. */
  function ParseLaunchArgs(value: Option<string>): (r: seq<string>)
    ensures value.None? || value == Some([]) ==> r == []
    ensures value.Some? && LoadStrings(value.value).None? ==> r == []
  {
    if value.None? || value.value == [] then []
    else
      match LoadStrings(value.value)
      case Some(xs) => xs
      case None => []
  }

  /** The reader inverts the writer: the encoded launch arguments come back unchanged. */
  lemma LaunchArgsRoundTrip(xs: seq<string>)
    ensures ParseLaunchArgs(Some(DumpStrings(xs))) == xs
  {
    LoadDumpStrings(xs);
  }

  /**
   * `maybe_run_updater(args)`: nothing without `--run-updater`, else what the
   * command-line entry point, run on the same arguments, returns (`exitCode`).
   */
  function MaybeRunUpdater(args: seq<string>, exitCode: int): (r: Option<int>)
    ensures r.None? <==> "--run-updater" !in args
    ensures r.Some? ==> r.value == exitCode
  {
    if "--run-updater" !in args then None else Some(exitCode)
  }

  // ---------------------------------------------------------------------------
  // replace_executable_with_retry

  /**
   * `replace_executable_with_retry`: fails when the source is missing, does
   * nothing when source and target are the same file, else tries up to
   * `attempts` times to copy and swap. `failure(k)` is the text of the
   * `OSError` attempt `k` raises, `None` when it succeeds; `tries` counts the
   * attempts made.
   */
  method ReplaceExecutableWithRetry(
    source: string, target: string, sourceExists: bool, attempts: int, failure: nat -> Option<string>)
    returns (r: Result<string, string>, tries: nat)
    ensures !sourceExists ==> r == Err("Source " + source + " does not exist") && tries == 0
    ensures sourceExists && source == target ==> r == Ok(target) && tries == 0
    ensures sourceExists && source != target ==>
      (r.Ok? <==> exists k | 1 <= k <= attempts :: failure(k).None?)
    ensures r.Ok? ==> r.value == target
    ensures sourceExists && source != target && r.Ok? ==>
      1 <= tries <= attempts && failure(tries).None? && forall k | 1 <= k < tries :: failure(k).Some?
    ensures sourceExists && source != target && r.Err? ==>
      tries == (if attempts < 0 then 0 else attempts)
      && r.error == if attempts >= 1 then failure(attempts).value else "unknown_error"
  {
    if !sourceExists {
      return Err("Source " + source + " does not exist"), 0;
    }
    if source == target {
      return Ok(target), 0;
    }
    var lastError: Option<string> := None;
    tries := 0;
    var attempt := 1;
    while attempt <= attempts
      invariant 1 <= attempt <= if attempts < 1 then 1 else attempts + 1
      invariant tries == attempt - 1
      invariant forall k | 1 <= k < attempt :: failure(k).Some?
      invariant lastError.None? <==> attempt == 1
      invariant lastError.Some? ==> lastError == failure(attempt - 1)
      decreases attempts - attempt
    {
      tries := attempt;
      var outcome := failure(attempt);
      if outcome.None? {
        return Ok(target), tries;
      }
      lastError := outcome;
      attempt := attempt + 1;
    }
    return Err(if lastError.Some? then lastError.value else "unknown_error"), tries;
  }
}
