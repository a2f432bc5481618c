/**
 * The update checker's pure core: version normalisation and comparison, the
 * ranking of release assets and of unpacked executables, and the decision
 * `check_for_update` takes on a decoded release payload.
 */
module Updates {
  import opened Wrappers
  import opened Text

  // ---------------------------------------------------------------------------
  // normalize_version

  /** The characters of the regular expression `[._-]` versions are split on. */
  const VersionSeparators: set<char> := {'.', '_', '-'}

  /** The length of the run of digits `s` starts with. */
  function DigitRun(s: string): (n: nat)
    ensures n <= |s| && AllDigits(s[..n])
    ensures n < |s| ==> !IsDigit(s[n])
  {
    if s != [] && IsDigit(s[0]) then
      var n := DigitRun(s[1..]);
      assert s[..n + 1] == [s[0]] + s[1..][..n];
      n + 1
    else 0
  }

  /** The first match of `(\d+)` in `s`, if any. */
  function FirstDigitRun(s: string): (r: Option<string>)
    ensures r.Some? ==> r.value != [] && AllDigits(r.value)
    ensures r.None? <==> forall i | 0 <= i < |s| :: !IsDigit(s[i])
  {
    if s == [] then None
    else if IsDigit(s[0]) then Some(s[..DigitRun(s)])
    else
      var r := FirstDigitRun(s[1..]);
      assert forall i | 1 <= i < |s| :: s[i] == s[1..][i - 1];
      r
  }

  /**
   * `int(component)` for a component of a version, which holds no `.`, `_`
   * or `-`: surrounding whitespace, an optional `+`, then decimal digits.
   */
  function IntOf(component: string): (r: Option<nat>)
    ensures r.Some? ==> exists u | u != [] && AllDigits(u) :: r.value == DigitsValue(u)
  {
    var t := Strip(component);
    var u := if t != [] && t[0] == '+' then t[1..] else t;
    if u != [] && AllDigits(u) then Some(DigitsValue(u)) else None
  }

  /** The number a component stands for: its `int`, else its first run of digits, else 0. */
  function PartValue(component: string): nat {
    match IntOf(component)
    case Some(v) => v
    case None =>
      match FirstDigitRun(component)
      case Some(digits) => DigitsValue(digits)
      case None => 0
  }

  /** The numbers of the non-empty components, in order. */
  function PartsOf(components: seq<string>): (parts: seq<nat>)
    ensures |parts| <= |components|
  {
    if components == [] then []
    else
      var last := components[|components| - 1];
      PartsOf(components[..|components| - 1]) + (if last == [] then [] else [PartValue(last)])
  }

  /** The text a version is split into components: stripped, without a leading `v`/`V`. */
  function CleanVersion(value: string): (r: string)
    ensures |r| <= |Strip(value)| && r == Strip(value)[|Strip(value)| - |r|..]
    ensures r != [] ==> r[0] != 'v' && r[0] != 'V'
  {
    LStripDropsPrefix(Strip(value), Chars({'v', 'V'}));
    LStrip(Strip(value), Chars({'v', 'V'}))
  }

  /** What `normalize_version(value)` returns; never the empty tuple. */
  function Normalized(value: string): (r: seq<nat>)
    ensures r != []
    ensures CleanVersion(value) == [] ==> r == [0]
  {
    var cleaned := CleanVersion(value);
    if cleaned == [] then [0]
    else
      var parts := PartsOf(SplitAny(cleaned, VersionSeparators));
      if parts == [] then [0] else parts
  }

  /** `normalize_version`: the loop over the components of the cleaned version. */
  method NormalizeVersion(value: string) returns (r: seq<nat>)
    ensures r == Normalized(value)
    ensures r != []
  {
    var cleaned := CleanVersion(value);
    if cleaned == [] {
      return [0];
    }
    var components := SplitAny(cleaned, VersionSeparators);
    var parts: seq<nat> := [];
    for i := 0 to |components|
      invariant parts == PartsOf(components[..i])
    {
      var component := components[i];
      assert components[..i + 1][..i] == components[..i];
      if component == [] {
        continue;
      }
      var parsed := IntOf(component);
      if parsed.Some? {
        parts := parts + [parsed.value];
        continue;
      }
      var run := FirstDigitRun(component);
      if run.Some? {
        parts := parts + [DigitsValue(run.value)];
        continue;
      }
      parts := parts + [0];
    }
    assert components[..|components|] == components;
    r := if parts == [] then [0] else parts;
  }

  /**
   * Whenever `int` accepts a component, its value is that of the component's
   * first run of digits: the fallback to the regular expression agrees with it.
   */
  lemma PartValueIsFirstRun(component: string)
    ensures PartValue(component) == match FirstDigitRun(component)
      case Some(digits) => DigitsValue(digits)
      case None => 0
  {
    var t := Strip(component);
    var u := if t != [] && t[0] == '+' then t[1..] else t;
    if u != [] && AllDigits(u) {
      var front, back := StripSplit(component);
      var sign: string := if t != [] && t[0] == '+' then "+" else "";
      assert t == sign + u;
      assert component == (front + sign) + (u + back);
      FirstDigitRunSkips(front + sign, u + back);
      FirstDigitRunOfRun(u, back);
    }
  }

  /** A text is its stripped self between a whitespace prefix and a suffix that starts with whitespace. */
  lemma StripSplit(s: string) returns (front: string, back: string)
    ensures s == front + Strip(s) + back
    ensures forall i | 0 <= i < |front| :: !IsDigit(front[i])
    ensures back != [] ==> !IsDigit(back[0])
  {
    var lead := LStrip(s, Whitespace);
    LStripDropsPrefix(s, Whitespace);
    RStripDropsSuffix(lead, Whitespace);
    var t := RStrip(lead, Whitespace);
    front, back := s[..|s| - |lead|], lead[|t|..];
    assert lead == t + back;
    assert s == front + lead;
  }

  /** A prefix without digits is skipped by the search. */
  lemma {:induction false} FirstDigitRunSkips(p: string, s: string)
    requires forall i | 0 <= i < |p| :: !IsDigit(p[i])
    ensures FirstDigitRun(p + s) == FirstDigitRun(s)
  {
    if p != [] {
      assert (p + s)[0] == p[0] && (p + s)[1..] == p[1..] + s;
      assert !IsDigit(p[0]);
      FirstDigitRunSkips(p[1..], s);
      assert FirstDigitRun(p + s) == FirstDigitRun((p + s)[1..]);
    } else {
      assert p + s == s;
    }
  }

  /** A run of digits followed by a non-digit (or the end) is the first run found. */
  lemma FirstDigitRunOfRun(u: string, w: string)
    requires u != [] && AllDigits(u)
    requires w != [] ==> !IsDigit(w[0])
    ensures FirstDigitRun(u + w) == Some(u)
  {
    DigitRunOf(u, w);
    assert (u + w)[..|u|] == u;
  }

  lemma {:induction false} DigitRunOf(u: string, w: string)
    requires AllDigits(u)
    requires w != [] ==> !IsDigit(w[0])
    ensures DigitRun(u + w) == |u|
  {
    if u != [] {
      assert (u + w)[1..] == u[1..] + w;
      DigitRunOf(u[1..], w);
    }
  }

  // ---------------------------------------------------------------------------
  // is_version_newer

  /** Python's `<` on tuples of integers. */
  function TupleLess(a: seq<nat>, b: seq<nat>): bool {
    if a == [] then b != []
    else if b == [] then false
    else if a[0] != b[0] then a[0] < b[0]
    else TupleLess(a[1..], b[1..])
  }

  function Zeros(n: nat): (z: seq<nat>)
    ensures |z| == n && forall i | 0 <= i < n :: z[i] == 0
  {
    if n == 0 then [] else Zeros(n - 1) + [0]
  }

  /** `t + (0,) * (n - len(t))`. */
  function Padded(t: seq<nat>, n: nat): (p: seq<nat>)
    ensures |p| == if n > |t| then n else |t|
  {
    if n > |t| then t + Zeros(n - |t|) else t
  }

  function Max(a: nat, b: nat): nat {
    if a < b then b else a
  }

  /** `is_version_newer(latest, current)`: compare the versions padded with zeros to the same length. */
  function IsVersionNewer(latest: string, current: string): (r: bool)
    ensures Normalized(latest) == Normalized(current) ==> !r
  {
    var l, c := Normalized(latest), Normalized(current);
    var n := Max(|l|, |c|);
    TupleLessIrreflexive(Padded(c, n));
    TupleLess(Padded(c, n), Padded(l, n))
  }

  /** Padding both sides further with zeros does not change the comparison. */
  lemma {:induction false} TupleLessPadded(x: seq<nat>, y: seq<nat>, m: nat)
    requires |x| == |y| <= m
    ensures TupleLess(Padded(x, m), Padded(y, m)) == TupleLess(x, y)
  {
    if x == [] {
      ZerosNotLess(m);
    } else {
      var px, py := Padded(x, m), Padded(y, m);
      assert px[0] == x[0] && py[0] == y[0];
      if x[0] == y[0] {
        assert px[1..] == Padded(x[1..], m - 1);
        assert py[1..] == Padded(y[1..], m - 1);
        TupleLessPadded(x[1..], y[1..], m - 1);
      }
    }
  }

  lemma {:induction false} ZerosNotLess(m: nat)
    ensures !TupleLess(Padded([], m), Padded([], m))
  {
    if m > 0 {
      assert Padded([], m)[1..] == Padded([], m - 1);
      ZerosNotLess(m - 1);
    }
  }

  /** A version compares the same against any padding length that covers both. */
  lemma NewerAtLength(latest: string, current: string, m: nat)
    requires |Normalized(latest)| <= m && |Normalized(current)| <= m
    ensures IsVersionNewer(latest, current) == TupleLess(Padded(Normalized(current), m), Padded(Normalized(latest), m))
  {
    var l, c := Normalized(latest), Normalized(current);
    var n := Max(|l|, |c|);
    PaddedTwice(l, n, m);
    PaddedTwice(c, n, m);
    TupleLessPadded(Padded(c, n), Padded(l, n), m);
  }

  lemma PaddedTwice(t: seq<nat>, n: nat, m: nat)
    requires |t| <= n <= m
    ensures Padded(Padded(t, n), m) == Padded(t, m)
  {
    var a, b := Padded(Padded(t, n), m), Padded(t, m);
    assert |a| == |b|;
    forall i | 0 <= i < |a| ensures a[i] == b[i] {
      if i >= |t| {
        assert b[i] == 0;
      }
    }
  }

  lemma {:induction false} TupleLessIrreflexive(a: seq<nat>)
    ensures !TupleLess(a, a)
  {
    if a != [] {
      TupleLessIrreflexive(a[1..]);
    }
  }

  lemma {:induction false} TupleLessTransitive(a: seq<nat>, b: seq<nat>, c: seq<nat>)
    requires TupleLess(a, b) && TupleLess(b, c)
    ensures TupleLess(a, c)
  {
    if a != [] && b != [] && c != [] && a[0] == b[0] && b[0] == c[0] {
      TupleLessTransitive(a[1..], b[1..], c[1..]);
    }
  }

  /** No version is newer than itself. */
  lemma VersionNewerIrreflexive(v: string)
    ensures !IsVersionNewer(v, v)
  {
    TupleLessIrreflexive(Normalized(v));
  }

  /** Of two versions, at most one is newer than the other. */
  lemma VersionNewerAsymmetric(a: string, b: string)
    requires IsVersionNewer(a, b)
    ensures !IsVersionNewer(b, a)
  {
    var n := Max(|Normalized(a)|, |Normalized(b)|);
    NewerAtLength(b, a, n);
    var pa, pb := Padded(Normalized(a), n), Padded(Normalized(b), n);
    if TupleLess(pa, pb) {
      TupleLessTransitive(pa, pb, pa);
      TupleLessIrreflexive(pa);
    }
  }

  /** Being newer is transitive. */
  lemma VersionNewerTransitive(a: string, b: string, c: string)
    requires IsVersionNewer(a, b) && IsVersionNewer(b, c)
    ensures IsVersionNewer(a, c)
  {
    var m := Max(Max(|Normalized(a)|, |Normalized(b)|), |Normalized(c)|);
    NewerAtLength(a, b, m);
    NewerAtLength(b, c, m);
    NewerAtLength(a, c, m);
    TupleLessTransitive(Padded(Normalized(c), m), Padded(Normalized(b), m), Padded(Normalized(a), m));
  }

  /**
   * Trailing zero components do not make a version newer: when one version's
   * tuple is the other's padded with zeros ("1.0.0" and "1.0"), neither is newer.
   */
  lemma TrailingZerosNotNewer(a: string, b: string)
    requires |Normalized(b)| <= |Normalized(a)|
    requires Normalized(a) == Padded(Normalized(b), |Normalized(a)|)
    ensures !IsVersionNewer(a, b) && !IsVersionNewer(b, a)
  {
    TupleLessIrreflexive(Normalized(a));
  }


  // ---------------------------------------------------------------------------
  // select_preferred_asset

  /**
   * A release asset: `str(asset.get("name") or "")`, its download address and
   * size; two assets are the same dictionary exactly when they are equal here.
   */
  datatype Asset = Asset(name: string, downloadUrl: string, size: Option<int>)

  /** How well an asset name suits Windows users. */
  function AssetScore(name: string): (score: nat)
    ensures score <= 10
  {
    var lowered := Lower(name);
    (if Contains(lowered, "windows") || Contains(lowered, "win") then 4 else 0)
    + (if EndsWith(lowered, ".zip") then 3 else 0)
    + (if EndsWith(lowered, ".exe") then 2 else 0)
    + (if Contains(lowered, "yt") && Contains(lowered, "download") then 1 else 0)
  }

  /** An entry of the `candidates` list: `(score, name, asset)`. */
  datatype Candidate = Candidate(score: nat, name: string, asset: Asset)

  function CandidateOf(asset: Asset): Candidate {
    Candidate(AssetScore(asset.name), asset.name, asset)
  }

  /** The candidates the first loop collects: the assets with a name, in order. */
  function Candidates(assets: seq<Asset>): (cs: seq<Candidate>)
    ensures |cs| <= |assets|
  {
    if assets == [] then []
    else
      var last := assets[|assets| - 1];
      Candidates(assets[..|assets| - 1]) + (if last.name == [] then [] else [CandidateOf(last)])
  }

  /** There are no candidates exactly when no asset has a name. */
  lemma {:induction false} CandidatesEmpty(assets: seq<Asset>)
    ensures Candidates(assets) == [] <==> forall i | 0 <= i < |assets| :: assets[i].name == []
  {
    if assets != [] {
      var init := assets[..|assets| - 1];
      CandidatesEmpty(init);
      assert forall i | 0 <= i < |init| :: init[i] == assets[i];
    }
  }

  /** Every candidate is a named asset with its score. */
  lemma {:induction false} CandidatesFromAssets(assets: seq<Asset>)
    ensures forall c | c in Candidates(assets) :: c == CandidateOf(c.asset) && c.asset in assets && c.name != []
  {
    if assets != [] {
      var init := assets[..|assets| - 1];
      CandidatesFromAssets(init);
      assert forall a | a in init :: a in assets;
    }
  }

  /** Every named asset is a candidate. */
  lemma {:induction false} NamedAssetsAreCandidates(assets: seq<Asset>)
    ensures forall i | 0 <= i < |assets| && assets[i].name != [] :: CandidateOf(assets[i]) in Candidates(assets)
  {
    if assets != [] {
      var init := assets[..|assets| - 1];
      NamedAssetsAreCandidates(init);
      assert forall i | 0 <= i < |init| :: init[i] == assets[i];
    }
  }

  /** The tuple `(score, name)` of `a` is smaller than that of `b`. */
  predicate RanksBelow(a: Candidate, b: Candidate) {
    a.score < b.score || (a.score == b.score && StrLess(a.name, b.name))
  }

  /**
   * Two candidates the sort cannot order: their scores and names agree, so it
   * goes on to compare the dictionaries themselves, which raises `TypeError`.
   */
  predicate Clash(a: Candidate, b: Candidate) {
    a.score == b.score && a.name == b.name && a.asset != b.asset
  }

  /**
   * `select_preferred_asset`: `None` when no asset has a name, else the asset
   * of the candidate with the largest `(score, name)`; `TypeError` when two
   * distinct assets tie on both. The sort is modelled by the running maximum
   * `BestCandidate` keeps.
   */
  method SelectPreferredAsset(assets: seq<Asset>) returns (r: Result<Option<Asset>, string>)
    ensures var cs := Candidates(assets);
      r.Err? <==> exists i, j | 0 <= i < |cs| && 0 <= j < |cs| :: Clash(cs[i], cs[j])
    ensures r.Err? ==> r.error == "TypeError"
    ensures r.Ok? ==> (r.value.None? <==> forall i | 0 <= i < |assets| :: assets[i].name == [])
    ensures r.Ok? && r.value.Some? ==> r.value.value in assets && r.value.value.name != []
    ensures r.Ok? && r.value.Some? ==>
      exists c | c in Candidates(assets) :: c.asset == r.value.value && forall d | d in Candidates(assets) :: !RanksBelow(c, d)
  {
    CandidatesEmpty(assets);
    CandidatesFromAssets(assets);
    var candidates := CollectCandidates(assets);
    if candidates == [] {
      return Ok(None);
    }
    var clash := SortClash(candidates);
    if clash {
      return Err("TypeError");
    }
    var best := BestCandidate(candidates);
    return Ok(Some(best.asset));
  }

  /** The first loop of `select_preferred_asset`: a candidate for every named asset. */
  method CollectCandidates(assets: seq<Asset>) returns (candidates: seq<Candidate>)
    ensures candidates == Candidates(assets)
  {
    candidates := [];
    for i := 0 to |assets|
      invariant candidates == Candidates(assets[..i])
    {
      assert assets[..i + 1][..i] == assets[..i];
      var asset := assets[i];
      if asset.name == [] {
        continue;
      }
      candidates := candidates + [CandidateOf(asset)];
    }
    assert assets[..|assets|] == assets;
  }

  /** The first candidate once sorted in reverse: one no other ranks above. */
  method BestCandidate(candidates: seq<Candidate>) returns (best: Candidate)
    requires candidates != []
    ensures best in candidates
    ensures forall d | d in candidates :: !RanksBelow(best, d)
  {
    best := candidates[0];
    StrLessIrreflexive(best.name);
    for i := 1 to |candidates|
      invariant best in candidates
      invariant forall k | 0 <= k < i :: !RanksBelow(best, candidates[k])
    {
      var c := candidates[i];
      if !RanksBelow(c, best) {
        RankStep(c, best, candidates[..i]);
        StrLessIrreflexive(c.name);
        best := c;
      } else {
        RanksBelowAsymmetric(c, best);
      }
    }
  }

  lemma RanksBelowAsymmetric(a: Candidate, b: Candidate)
    requires RanksBelow(a, b)
    ensures !RanksBelow(b, a)
  {
    if a.score == b.score {
      StrLessAsymmetric(a.name, b.name);
    }
  }

  /**
   * Whether sorting the candidates compares two assets: some two candidates
   * tie on score and name but hold different assets.
   */
  method SortClash(candidates: seq<Candidate>) returns (clash: bool)
    ensures clash <==> exists k, l | 0 <= k < |candidates| && 0 <= l < |candidates| :: Clash(candidates[k], candidates[l])
  {
    var seen: map<(nat, string), Asset> := map[];
    clash := false;
    for i := 0 to |candidates|
      invariant forall k | 0 <= k < i :: (candidates[k].score, candidates[k].name) in seen
      invariant forall key | key in seen :: exists k | 0 <= k < i :: seen[key] == candidates[k].asset && key == (candidates[k].score, candidates[k].name)
      invariant !clash ==> forall k | 0 <= k < i :: seen[(candidates[k].score, candidates[k].name)] == candidates[k].asset
      invariant clash <==> exists k, l | 0 <= k < i && 0 <= l < i :: Clash(candidates[k], candidates[l])
    {
      var c := candidates[i];
      var key := (c.score, c.name);
      if key in seen {
        if seen[key] != c.asset {
          var k :| 0 <= k < i && seen[key] == candidates[k].asset && key == (candidates[k].score, candidates[k].name);
          assert Clash(candidates[k], candidates[i]);
          clash := true;
        } else if !clash {
          NoNewClash(candidates, i, seen);
        }
      } else {
        if !clash {
          NoNewClash(candidates, i, seen);
        }
        seen := seen[key := c.asset];
      }
    }
  }

  /** A candidate whose key is unseen, or seen with the same asset, adds no clash. */
  lemma NoNewClash(candidates: seq<Candidate>, i: nat, seen: map<(nat, string), Asset>)
    requires i < |candidates|
    requires forall k | 0 <= k < i :: (candidates[k].score, candidates[k].name) in seen
    requires forall k | 0 <= k < i :: seen[(candidates[k].score, candidates[k].name)] == candidates[k].asset
    requires (candidates[i].score, candidates[i].name) in seen ==> seen[(candidates[i].score, candidates[i].name)] == candidates[i].asset
    requires !exists k, l | 0 <= k < i && 0 <= l < i :: Clash(candidates[k], candidates[l])
    ensures !exists k, l | 0 <= k < i + 1 && 0 <= l < i + 1 :: Clash(candidates[k], candidates[l])
  {
    forall k, l | 0 <= k < i + 1 && 0 <= l < i + 1
      ensures !Clash(candidates[k], candidates[l])
    {
      if k == i && l < i {
        assert (candidates[l].score, candidates[l].name) in seen;
      } else if l == i && k < i {
        assert (candidates[k].score, candidates[k].name) in seen;
      }
    }
  }

  /** A candidate that does not rank below the best so far ranks at least as high as everything before. */
  lemma RankStep(c: Candidate, best: Candidate, before: seq<Candidate>)
    requires !RanksBelow(c, best)
    requires forall k | 0 <= k < |before| :: !RanksBelow(best, before[k])
    ensures forall k | 0 <= k < |before| :: !RanksBelow(c, before[k])
  {
    forall k | 0 <= k < |before| ensures !RanksBelow(c, before[k]) {
      var d := before[k];
      if c.score == d.score && best.score == c.score && StrLess(c.name, d.name) {
        if StrLess(best.name, c.name) {
          StrLessTransitive(best.name, c.name, d.name);
        } else if best.name != c.name {
          StrLessTotal(best.name, c.name);
        }
      }
    }
  }

  // ---------------------------------------------------------------------------
  // find_windows_executable

  /** A path as the list of its parts; its name is the last part. */
  type PathParts = seq<string>

  function PathName(p: PathParts): string {
    if p == [] then [] else p[|p| - 1]
  }

  /** How likely an executable is the application itself. */
  function ExecutableScore(p: PathParts): (score: nat)
    ensures score <= 8
  {
    var name := Lower(PathName(p));
    (if "yt-downloader" <= name then 4 else 0)
    + (if Contains(name, "yt") && Contains(name, "download") then 3 else 0)
    + (if Contains(name, "setup") || Contains(name, "installer") then 1 else 0)
  }

  /** `<` on paths: their parts compared in order. */
  function PathLess(a: PathParts, b: PathParts): bool {
    if a == [] then b != []
    else if b == [] then false
    else if a[0] != b[0] then StrLess(a[0], b[0])
    else PathLess(a[1..], b[1..])
  }

  /** An entry of the `candidates` list: `(score, -len(path.parts), path)`. */
  datatype Ranked = Ranked(score: nat, depth: int, path: PathParts)

  function RankedOf(p: PathParts): Ranked {
    Ranked(ExecutableScore(p), -|p|, p)
  }

  /** The tuple of `a` is smaller than that of `b`. */
  predicate RankedBelow(a: Ranked, b: Ranked) {
    a.score < b.score
    || (a.score == b.score && a.depth < b.depth)
    || (a.score == b.score && a.depth == b.depth && PathLess(a.path, b.path))
  }

  /**
   * `find_windows_executable(root)` over the `.exe` files `root.rglob` finds:
   * `None` when the root is missing or holds none, else the best-scoring one,
   * the shallowest among equals, then the largest path.
   */
  method FindWindowsExecutable(rootExists: bool, executables: seq<PathParts>) returns (r: Option<PathParts>)
    ensures r.None? <==> !rootExists || executables == []
    ensures r.Some? ==> r.value in executables
    ensures r.Some? ==> forall q | q in executables :: !RankedBelow(RankedOf(r.value), RankedOf(q))
  {
    if !rootExists {
      return None;
    }
    var candidates := RankExecutables(executables);
    if candidates == [] {
      return None;
    }
    var best := BestRanked(candidates);
    return Some(best.path);
  }

  /** The loop of `find_windows_executable` that collects `(score, -len(parts), path)`. */
  method RankExecutables(executables: seq<PathParts>) returns (candidates: seq<Ranked>)
    ensures |candidates| == |executables|
    ensures forall k | 0 <= k < |executables| :: candidates[k] == RankedOf(executables[k])
  {
    candidates := [];
    for i := 0 to |executables|
      invariant |candidates| == i
      invariant forall k | 0 <= k < i :: candidates[k] == RankedOf(executables[k])
    {
      candidates := candidates + [RankedOf(executables[i])];
    }
  }

  /** The first entry once sorted in reverse: the one no other ranks above. */
  method BestRanked(candidates: seq<Ranked>) returns (best: Ranked)
    requires candidates != []
    ensures best in candidates
    ensures forall d | d in candidates :: !RankedBelow(best, d)
  {
    best := candidates[0];
    PathLessIrreflexive(best.path);
    for i := 1 to |candidates|
      invariant best in candidates
      invariant forall k | 0 <= k < i :: !RankedBelow(best, candidates[k])
    {
      var c := candidates[i];
      if !RankedBelow(c, best) {
        RankedStep(c, best, candidates[..i]);
        PathLessIrreflexive(c.path);
        best := c;
      } else {
        RankedBelowAsymmetric(c, best);
      }
    }
  }

  lemma {:induction false} PathLessTransitive(a: PathParts, b: PathParts, c: PathParts)
    requires PathLess(a, b) && PathLess(b, c)
    ensures PathLess(a, c)
  {
    if a != [] && b != [] && c != [] {
      if a[0] == b[0] && b[0] == c[0] {
        PathLessTransitive(a[1..], b[1..], c[1..]);
      } else if a[0] != b[0] && b[0] != c[0] && a[0] != c[0] {
        StrLessTransitive(a[0], b[0], c[0]);
      } else if a[0] != b[0] && b[0] != c[0] {
        StrLessAsymmetric(a[0], b[0]);
      }
    }
  }

  lemma {:induction false} PathLessIrreflexive(a: PathParts)
    ensures !PathLess(a, a)
  {
    if a != [] {
      PathLessIrreflexive(a[1..]);
    }
  }

  lemma {:induction false} PathLessTotal(a: PathParts, b: PathParts)
    requires a != b
    ensures PathLess(a, b) || PathLess(b, a)
  {
    if a != [] && b != [] {
      if a[0] == b[0] {
        assert a == [a[0]] + a[1..] && b == [b[0]] + b[1..];
        PathLessTotal(a[1..], b[1..]);
      } else {
        StrLessTotal(a[0], b[0]);
      }
    }
  }

  lemma {:induction false} PathLessAsymmetric(a: PathParts, b: PathParts)
    requires PathLess(a, b)
    ensures !PathLess(b, a)
  {
    if a != [] && b != [] {
      if a[0] == b[0] {
        PathLessAsymmetric(a[1..], b[1..]);
      } else {
        StrLessAsymmetric(a[0], b[0]);
      }
    }
  }

  lemma RankedBelowAsymmetric(a: Ranked, b: Ranked)
    requires RankedBelow(a, b)
    ensures !RankedBelow(b, a)
  {
    if a.score == b.score && a.depth == b.depth {
      PathLessAsymmetric(a.path, b.path);
    }
  }

  lemma RankedStep(c: Ranked, best: Ranked, before: seq<Ranked>)
    requires !RankedBelow(c, best)
    requires forall k | 0 <= k < |before| :: !RankedBelow(best, before[k])
    ensures forall k | 0 <= k < |before| :: !RankedBelow(c, before[k])
  {
    forall k | 0 <= k < |before| ensures !RankedBelow(c, before[k]) {
      var q := before[k];
      if c.score == q.score && best.score == c.score && c.depth == q.depth && best.depth == c.depth && PathLess(c.path, q.path) {
        if PathLess(best.path, c.path) {
          PathLessTransitive(best.path, c.path, q.path);
        } else if best.path != c.path {
          PathLessTotal(best.path, c.path);
        }
      }
    }
  }

  /** Two best executables are the same path: the ranking leaves no tie to break. */
  lemma ExecutableBestUnique(a: PathParts, b: PathParts, executables: seq<PathParts>)
    requires a in executables && b in executables
    requires forall q | q in executables :: !RankedBelow(RankedOf(a), RankedOf(q))
    requires forall q | q in executables :: !RankedBelow(RankedOf(b), RankedOf(q))
    ensures a == b
  {
    if a != b {
      assert !RankedBelow(RankedOf(a), RankedOf(b)) && !RankedBelow(RankedOf(b), RankedOf(a));
      PathLessTotal(a, b);
    }
  }

  // ---------------------------------------------------------------------------
  // check_for_update, given the decoded release payload

  /**
   * The fields of the release payload the decision reads; `tagName` and `name`
   * are `str(...)` of the fields, empty where they are missing or falsy.
   */
  datatype Release = Release(tagName: string, name: string, htmlUrl: string, assets: seq<Asset>)

  /** `UpdateInfo`. */
  datatype UpdateInfo = UpdateInfo(
    latestVersion: string, releasePage: string,
    assetName: Option<string>, assetUrl: Option<string>, assetSize: Option<int>, repository: string)

  /** The version text a release names: its tag, else its name, stripped. */
  function ReleaseTag(release: Release): string {
    Strip(if release.tagName != [] then release.tagName else release.name)
  }

  /** The page `check_for_update` links to: the release's own, else the repository's latest release. */
  function ReleasePage(release: Release, repo: string): string {
    if release.htmlUrl != [] then release.htmlUrl else "https://github.com/" + repo + "/releases/latest"
  }

  /** Two named assets the sort in `select_preferred_asset` cannot order. */
  predicate HasClash(assets: seq<Asset>) {
    var cs := Candidates(assets);
    exists i, j | 0 <= i < |cs| && 0 <= j < |cs| :: Clash(cs[i], cs[j])
  }

  /** `a` is a named asset whose `(score, name)` no other named asset outranks. */
  predicate Preferred(assets: seq<Asset>, a: Asset) {
    a in assets && a.name != []
    && exists c | c in Candidates(assets) :: c.asset == a && forall d | d in Candidates(assets) :: !RanksBelow(c, d)
  }

  /** The asset fields of `info` describe `asset`, or are all unset without one. */
  predicate Offers(info: UpdateInfo, asset: Option<Asset>) {
    match asset
    case None => info.assetName.None? && info.assetUrl.None? && info.assetSize.None?
    case Some(a) => info.assetName == Some(a.name) && info.assetUrl == Some(a.downloadUrl) && info.assetSize == a.size
  }

  /**
   * The part of `check_for_update` after the payload is decoded: the error
   * `missing_version` when the tag is empty once stripped of `v`/`V`, `None`
   * when it is not newer than the running version, else what is on offer.
   */
  method CheckRelease(current: string, repo: string, release: Release) returns (r: Result<Option<UpdateInfo>, string>)
    ensures LStrip(ReleaseTag(release), Chars({'v', 'V'})) == [] <==> r == Err("missing_version")
    ensures r == Ok(None) <==>
      LStrip(ReleaseTag(release), Chars({'v', 'V'})) != [] && !IsVersionNewer(LStrip(ReleaseTag(release), Chars({'v', 'V'})), current)
    ensures r.Ok? && r.value.Some? ==>
      var info := r.value.value;
      info.latestVersion == LStrip(ReleaseTag(release), Chars({'v', 'V'})) && info.latestVersion != []
      && IsVersionNewer(info.latestVersion, current) && info.repository == repo
      && info.releasePage == ReleasePage(release, repo)
    ensures var latest := LStrip(ReleaseTag(release), Chars({'v', 'V'}));
      latest != [] && IsVersionNewer(latest, current) ==> (r.Err? <==> HasClash(release.assets))
    ensures r.Err? ==> r == Err("missing_version") || r == Err("TypeError")
    ensures r.Ok? && r.value.Some? && (forall i | 0 <= i < |release.assets| :: release.assets[i].name == []) ==>
      Offers(r.value.value, None)
    ensures r.Ok? && r.value.Some? && (exists i | 0 <= i < |release.assets| :: release.assets[i].name != []) ==>
      exists a | a in release.assets :: Preferred(release.assets, a) && Offers(r.value.value, Some(a))
  {
    var tag := ReleaseTag(release);
    if tag == [] {
      return Err("missing_version");
    }
    var latest := LStrip(tag, Chars({'v', 'V'}));
    if latest == [] {
      return Err("missing_version");
    }
    if !IsVersionNewer(latest, current) {
      return Ok(None);
    }
    var selected := SelectPreferredAsset(release.assets);
    if selected.Err? {
      return Err(selected.error);
    }
    var page := ReleasePage(release, repo);
    var asset := selected.value;
    var info := UpdateInfo(latest, page,
      if asset.Some? then Some(asset.value.name) else None,
      if asset.Some? then Some(asset.value.downloadUrl) else None,
      if asset.Some? then asset.value.size else None,
      repo);
    return Ok(Some(info));
  }
}
