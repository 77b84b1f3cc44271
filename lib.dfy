/**
 * The pure helpers of the wrapper (lib.js): the cache-corruption output
 * classifier, package-manager detection from the user agent, the split of the
 * command line into a script name and pass-through arguments, and the
 * argument vector handed to the package manager.
 */
module Lib {
  import opened Wrappers

  // ---------------------------------------------------------------------------
  // Strings
  // ---------------------------------------------------------------------------

  /** JavaScript's `s.startsWith(p)`. */
  predicate StartsWith(s: string, p: string) {
    |p| <= |s| && s[..|p|] == p
  }

  /** `s` occurs in `t` starting at index `i`. */
  predicate OccursAt(t: string, s: string, i: int) {
    0 <= i && i + |s| <= |t| && t[i..i + |s|] == s
  }

  /** The characters JavaScript's regular-expression `.` refuses to match
      (line feed, carriage return, line separator, paragraph separator). */
  predicate IsLineTerminator(c: char) {
    c == '\n' || c == '\r' || c as int == 0x2028 || c as int == 0x2029
  }

  predicate NoLineTerminator(s: string) {
    forall k :: 0 <= k < |s| ==> !IsLineTerminator(s[k])
  }

  /** A left-to-right scan for `s` in `t`: what `/s/.test(t)` does for a literal `s`. */
  function HasSubstring(t: string, s: string): bool
    decreases |t|
  {
    if |t| < |s| then false
    else t[..|s|] == s || HasSubstring(t[1..], s)
  }

  /** Occurrences in a suffix are occurrences in the whole string, shifted. */
  lemma OccursAtShift(t: string, s: string, k: nat, i: int)
    requires k <= |t|
    ensures OccursAt(t[k..], s, i) <==> (0 <= i && OccursAt(t, s, i + k))
  {
    if 0 <= i && i + |s| <= |t| - k {
      assert t[k..][i..i + |s|] == t[i + k..i + k + |s|];
    }
  }

  /** The scan finds `s` exactly when `s` occurs somewhere in `t`. */
  lemma {:induction false} HasSubstringCorrect(t: string, s: string)
    ensures HasSubstring(t, s) <==> exists i :: OccursAt(t, s, i)
    decreases |t|
  {
    if |t| < |s| {
    } else if t[..|s|] == s {
      assert OccursAt(t, s, 0);
    } else {
      HasSubstringCorrect(t[1..], s);
      if HasSubstring(t[1..], s) {
        var i :| OccursAt(t[1..], s, i);
        OccursAtShift(t, s, 1, i);
        assert OccursAt(t, s, i + 1);
      }
      if exists i :: OccursAt(t, s, i) {
        var i :| OccursAt(t, s, i);
        assert i != 0;
        OccursAtShift(t, s, 1, i - 1);
        assert OccursAt(t[1..], s, i - 1);
      }
    }
  }

  // ---------------------------------------------------------------------------
  // ERROR_PATTERNS and matchesErrorPattern
  // ---------------------------------------------------------------------------

  const BuildManifestTmp: string := "_buildManifest.js.tmp"
  const Enoent: string := "ENOENT:"
  const NextDir: string := ".next"

  /** The two regular expressions of ERROR_PATTERNS, in their order. */
  datatype ErrorPattern =
    | BuildManifestTmpPattern   // /_buildManifest\.js\.tmp/
    | EnoentNextPattern         // /ENOENT:.*\.next/

  const ErrorPatterns: seq<ErrorPattern> := [BuildManifestTmpPattern, EnoentNextPattern]

  /** `.next` occurs in `u` with no line terminator before it: the `.*\.next` tail of the
      second pattern, anchored at the start of `u`. */
  function NextOnLine(u: string): bool
    decreases |u|
  {
    if |u| < |NextDir| then false
    else if u[..|NextDir|] == NextDir then true
    else if IsLineTerminator(u[0]) then false
    else NextOnLine(u[1..])
  }

  /** The scan for `/ENOENT:.*\.next/`: try every start of `ENOENT:`. */
  function ScanEnoentNext(t: string): bool
    decreases |t|
  {
    if |t| < |Enoent| then false
    else (t[..|Enoent|] == Enoent && NextOnLine(t[|Enoent|..])) || ScanEnoentNext(t[1..])
  }

  /** `pattern.test(text)`. */
  function Test(p: ErrorPattern, text: string): bool {
    match p
    case BuildManifestTmpPattern => HasSubstring(text, BuildManifestTmp)
    case EnoentNextPattern => ScanEnoentNext(text)
  }

  /** `patterns.some((pattern) => pattern.test(text))`. */
  function SomeMatches(patterns: seq<ErrorPattern>, text: string): bool {
    if patterns == [] then false
    else Test(patterns[0], text) || SomeMatches(patterns[1..], text)
  }

  /** matchesErrorPattern(text). */
  function MatchesErrorPattern(text: string): bool {
    SomeMatches(ErrorPatterns, text)
  }

  /** Reference reading of `/ENOENT:.*\.next/`: `ENOENT:` at `i`, `.next` at `j` after it,
      and nothing but non-terminator characters between them. */
  predicate EnoentNextAt(t: string, i: int, j: int) {
    OccursAt(t, Enoent, i) && i + |Enoent| <= j && OccursAt(t, NextDir, j)
    && NoLineTerminator(t[i + |Enoent|..j])
  }

  /** Reference reading of the whole classifier. */
  ghost predicate IsCacheCorruption(t: string) {
    (exists i :: OccursAt(t, BuildManifestTmp, i)) || (exists i: nat, j: nat :: EnoentNextAt(t, i, j))
  }

  /** A `.next` found by the scan, with the stretch before it free of line terminators. */
  lemma {:induction false} NextOnLineWitness(u: string) returns (j: nat)
    requires NextOnLine(u)
    ensures OccursAt(u, NextDir, j) && NoLineTerminator(u[..j])
    decreases |u|
  {
    if u[..|NextDir|] == NextDir {
      j := 0;
    } else {
      var j' := NextOnLineWitness(u[1..]);
      OccursAtShift(u, NextDir, 1, j');
      j := j' + 1;
      assert u[..j] == [u[0]] + u[1..][..j'];
    }
  }

  /** Every `.next` on the first line of `u` is found by the scan. */
  lemma {:induction false} NextOnLineComplete(u: string, j: nat)
    requires OccursAt(u, NextDir, j) && NoLineTerminator(u[..j])
    ensures NextOnLine(u)
    decreases j
  {
    if j > 0 && u[..|NextDir|] != NextDir {
      assert u[..j][0] == u[0];
      OccursAtShift(u, NextDir, 1, j - 1);
      assert u[1..][..j - 1] == u[..j][1..];
      NextOnLineComplete(u[1..], j - 1);
    }
  }

  lemma NextOnLineCorrect(u: string)
    ensures NextOnLine(u) <==> exists j: nat :: OccursAt(u, NextDir, j) && NoLineTerminator(u[..j])
  {
    if NextOnLine(u) {
      var j := NextOnLineWitness(u);
    }
    if exists j: nat :: OccursAt(u, NextDir, j) && NoLineTerminator(u[..j]) {
      var j: nat :| OccursAt(u, NextDir, j) && NoLineTerminator(u[..j]);
      NextOnLineComplete(u, j);
    }
  }

  /** Dropping the first character shifts every match of the reference reading by one. */
  lemma EnoentNextAtShift(t: string, i: int, j: int)
    requires 1 <= |t|
    ensures EnoentNextAt(t[1..], i, j) <==> (0 <= i && EnoentNextAt(t, i + 1, j + 1))
  {
    OccursAtShift(t, Enoent, 1, i);
    OccursAtShift(t, NextDir, 1, j);
    if 0 <= i && i + |Enoent| <= j && j + |NextDir| <= |t| - 1 {
      assert t[1..][i + |Enoent|..j] == t[i + 1 + |Enoent|..j + 1];
    }
  }

  /** A match of `/ENOENT:.*\.next/` found by the scan, as a pair of positions. */
  lemma {:induction false} ScanEnoentNextWitness(t: string) returns (i: nat, j: nat)
    requires ScanEnoentNext(t)
    ensures EnoentNextAt(t, i, j)
    decreases |t|
  {
    var n := |Enoent|;
    if t[..n] == Enoent && NextOnLine(t[n..]) {
      var k := NextOnLineWitness(t[n..]);
      OccursAtShift(t, NextDir, n, k);
      assert t[n..][..k] == t[n..k + n];
      i, j := 0, k + n;
    } else {
      var i', j' := ScanEnoentNextWitness(t[1..]);
      EnoentNextAtShift(t, i', j');
      i, j := i' + 1, j' + 1;
    }
  }

  /** Every match of the reference reading is found by the scan. */
  lemma {:induction false} ScanEnoentNextComplete(t: string, i: nat, j: nat)
    requires EnoentNextAt(t, i, j)
    ensures ScanEnoentNext(t)
    decreases i
  {
    var n := |Enoent|;
    if i == 0 {
      OccursAtShift(t, NextDir, n, j - n);
      assert t[n..][..j - n] == t[n..j];
      NextOnLineComplete(t[n..], j - n);
    } else {
      EnoentNextAtShift(t, i - 1, j - 1);
      ScanEnoentNextComplete(t[1..], i - 1, j - 1);
    }
  }

  /** The scan accepts exactly the texts the reference reading of `/ENOENT:.*\.next/` accepts. */
  lemma ScanEnoentNextCorrect(t: string)
    ensures ScanEnoentNext(t) <==> exists i: nat, j: nat :: EnoentNextAt(t, i, j)
  {
    if ScanEnoentNext(t) {
      var i, j := ScanEnoentNextWitness(t);
    }
    if exists i: nat, j: nat :: EnoentNextAt(t, i, j) {
      var i: nat, j: nat :| EnoentNextAt(t, i, j);
      ScanEnoentNextComplete(t, i, j);
    }
  }

  /** The list has the two patterns, in order: the classifier is their disjunction. */
  lemma MatchesErrorPatternUnfold(t: string)
    ensures MatchesErrorPattern(t) == (HasSubstring(t, BuildManifestTmp) || ScanEnoentNext(t))
  {
    var rest := ErrorPatterns[1..];
    assert ErrorPatterns[0] == BuildManifestTmpPattern && rest[0] == EnoentNextPattern && rest[1..] == [];
    assert SomeMatches(rest, t) == (Test(EnoentNextPattern, t) || SomeMatches(rest[1..], t));
  }

  /** matchesErrorPattern(t) holds exactly when `t` contains `_buildManifest.js.tmp`, or
      contains `ENOENT:` followed later on the same line by `.next`. */
  lemma MatchesErrorPatternCorrect(t: string)
    ensures MatchesErrorPattern(t) <==> IsCacheCorruption(t)
  {
    MatchesErrorPatternUnfold(t);
    HasSubstringCorrect(t, BuildManifestTmp);
    ScanEnoentNextCorrect(t);
  }

  /** Both patterns need a `.`: a text without a full stop is never matched. */
  lemma MatchNeedsDot(t: string)
    ensures MatchesErrorPattern(t) ==> '.' in t
  {
    MatchesErrorPatternCorrect(t);
    if exists i :: OccursAt(t, BuildManifestTmp, i) {
      var i :| OccursAt(t, BuildManifestTmp, i);
      assert t[i + 14] == t[i..i + |BuildManifestTmp|][14] == BuildManifestTmp[14] == '.';
    } else if exists i, j :: EnoentNextAt(t, i, j) {
      var i, j :| EnoentNextAt(t, i, j);
      assert t[j] == t[j..j + |NextDir|][0] == NextDir[0] == '.';
    }
  }

  /** Every match contains `_buildManifest.js.tmp` or `ENOENT:`: a runtime error that
      carries neither is never taken for cache corruption. */
  lemma MatchNeedsSignal(t: string)
    ensures MatchesErrorPattern(t) ==>
      (exists i :: OccursAt(t, BuildManifestTmp, i)) || (exists i :: OccursAt(t, Enoent, i))
  {
    MatchesErrorPatternCorrect(t);
    if exists i: nat, j: nat :: EnoentNextAt(t, i, j) {
      var i: nat, j: nat :| EnoentNextAt(t, i, j);
      assert OccursAt(t, Enoent, i);
    }
  }

  /** A slice of `t` is the same slice of `before + t + after`, shifted by `|before|`. */
  lemma SliceInContext(before: string, t: string, after: string, lo: nat, hi: nat)
    requires lo <= hi <= |t|
    ensures (before + t + after)[|before| + lo..|before| + hi] == t[lo..hi]
  {
    var w := before + t + after;
    forall k | 0 <= k < hi - lo ensures w[|before| + lo..|before| + hi][k] == t[lo..hi][k] {
      assert w[|before| + lo + k] == t[lo + k];
    }
  }

  lemma OccursInContext(before: string, t: string, after: string, s: string, i: nat)
    requires OccursAt(t, s, i)
    ensures OccursAt(before + t + after, s, |before| + i)
  {
    SliceInContext(before, t, after, i, i + |s|);
  }

  lemma EnoentNextInContext(before: string, t: string, after: string, i: nat, j: nat)
    requires EnoentNextAt(t, i, j)
    ensures EnoentNextAt(before + t + after, |before| + i, |before| + j)
  {
    OccursInContext(before, t, after, Enoent, i);
    OccursInContext(before, t, after, NextDir, j);
    SliceInContext(before, t, after, i + |Enoent|, j);
  }

  /** The classifier does not depend on surrounding text: a match survives anything
      written before or after it. */
  lemma MatchesErrorPatternInContext(before: string, t: string, after: string)
    requires MatchesErrorPattern(t)
    ensures MatchesErrorPattern(before + t + after)
  {
    MatchesErrorPatternUnfold(t);
    MatchesErrorPatternUnfold(before + t + after);
    if HasSubstring(t, BuildManifestTmp) {
      HasSubstringCorrect(t, BuildManifestTmp);
      var i: nat :| OccursAt(t, BuildManifestTmp, i);
      OccursInContext(before, t, after, BuildManifestTmp, i);
      HasSubstringCorrect(before + t + after, BuildManifestTmp);
    } else {
      var i, j := ScanEnoentNextWitness(t);
      EnoentNextInContext(before, t, after, i, j);
      ScanEnoentNextComplete(before + t + after, |before| + i, |before| + j);
    }
  }

  /** `ENOENT:` followed by a gap without line terminators and then `.next` is scanned as a
      match, whatever comes before or after. */
  lemma EnoentThenNextOnLine(prefix: string, gap: string, tail: string)
    requires NoLineTerminator(gap)
    ensures ScanEnoentNext(prefix + Enoent + gap + NextDir + tail)
  {
    var t := prefix + Enoent + gap + NextDir + tail;
    var i := |prefix|;
    var j := i + |Enoent| + |gap|;
    assert t[i..i + |Enoent|] == Enoent by {
      assert t[..j + |NextDir|] == prefix + Enoent + gap + NextDir;
    }
    assert t[i + |Enoent|..j] == gap by {
      assert t[..j] == prefix + Enoent + gap;
    }
    assert t[j..j + |NextDir|] == NextDir by {
      assert t[..j + |NextDir|] == prefix + Enoent + gap + NextDir;
    }
    ScanEnoentNextComplete(t, i, j);
  }

  /** The list is not empty and covers both cache signals: the temporary build manifest,
      and any `ENOENT:` line that goes on to name `.next`. */
  lemma ErrorPatternsCoverCacheSignals(gap: string, tail: string)
    requires NoLineTerminator(gap)
    ensures |ErrorPatterns| > 0
    ensures exists p :: p in ErrorPatterns && Test(p, BuildManifestTmp)
    ensures exists p :: p in ErrorPatterns && Test(p, Enoent + gap + NextDir + tail)
  {
    assert Test(ErrorPatterns[0], BuildManifestTmp);
    EnoentThenNextOnLine("", gap, tail);
    assert "" + Enoent == Enoent;
    assert Test(ErrorPatterns[1], Enoent + gap + NextDir + tail);
  }

  // ---------------------------------------------------------------------------
  // detectPackageManager
  // ---------------------------------------------------------------------------

  datatype PackageManager = Npm | Pnpm | Yarn | Bun {
    /** The executable name, which is also the user-agent prefix that selects it. */
    function Name(): string {
      match this
      case Npm => "npm"
      case Pnpm => "pnpm"
      case Yarn => "yarn"
      case Bun => "bun"
    }
  }

  /** detectPackageManager(userAgent): `pnpm`, `yarn`, `bun` by prefix, in that order,
      else `npm`. The three prefixes exclude each other, so the order never decides. */
  function DetectPackageManager(userAgent: string): (r: PackageManager)
    ensures forall m: PackageManager :: m != Npm ==> (r == m <==> StartsWith(userAgent, m.Name()))
    ensures r == Npm <==> !StartsWith(userAgent, "pnpm") && !StartsWith(userAgent, "yarn")
                          && !StartsWith(userAgent, "bun")
  {
    PrefixesExclusive(userAgent);
    if StartsWith(userAgent, "pnpm") then Pnpm
    else if StartsWith(userAgent, "yarn") then Yarn
    else if StartsWith(userAgent, "bun") then Bun
    else Npm
  }

  /** No user agent starts with two of `pnpm`, `yarn` and `bun`: their first letters differ. */
  lemma PrefixesExclusive(userAgent: string)
    ensures !(StartsWith(userAgent, "pnpm") && StartsWith(userAgent, "yarn"))
    ensures !(StartsWith(userAgent, "pnpm") && StartsWith(userAgent, "bun"))
    ensures !(StartsWith(userAgent, "yarn") && StartsWith(userAgent, "bun"))
  {
    if |userAgent| > 0 {
      var c := userAgent[0];
      assert StartsWith(userAgent, "pnpm") ==> c == "pnpm"[0] == 'p';
      assert StartsWith(userAgent, "yarn") ==> c == "yarn"[0] == 'y';
      assert StartsWith(userAgent, "bun") ==> c == "bun"[0] == 'b';
    }
  }

  /** The default parameter: an omitted (`undefined`) user agent is replaced by the
      `npm_config_user_agent` environment variable, or `''` when that is unset. */
  function DetectPackageManagerDefaulted(userAgent: Option<string>, envUserAgent: Option<string>): (r: PackageManager)
    ensures userAgent.Some? ==> r == DetectPackageManager(userAgent.value)
    ensures userAgent.None? ==> r == DetectPackageManager(envUserAgent.GetOr(""))
    ensures userAgent.None? && envUserAgent.None? ==> r == Npm
  {
    DetectPackageManager(userAgent.GetOr(envUserAgent.GetOr("")))
  }

  // ---------------------------------------------------------------------------
  // parseArgs
  // ---------------------------------------------------------------------------

  datatype ParsedArgs = ParsedArgs(script: string, extraArgs: seq<string>)

  const DefaultScript: string := "dev"

  /** `args[0] && !args[0].startsWith('-')`: a first argument that is present, not empty
      and not an option names the script. */
  predicate NamesScript(args: seq<string>) {
    |args| > 0 && args[0] != "" && !StartsWith(args[0], "-")
  }

  /** parseArgs(args). */
  function ParseArgs(args: seq<string>): (r: ParsedArgs)
    ensures NamesScript(args) ==> r.script == args[0] && r.extraArgs == args[1..]
    ensures !NamesScript(args) ==> r.script == DefaultScript && r.extraArgs == args
    // nothing is dropped: the arguments are the script followed by the extras, or the
    // extras alone behind the default script
    ensures [r.script] + r.extraArgs == args || (r.script == DefaultScript && r.extraArgs == args)
    // the chosen script never looks like an option
    ensures r.script != "" && !StartsWith(r.script, "-")
    ensures r.extraArgs == args[|args| - |r.extraArgs|..]
  {
    assert !StartsWith(DefaultScript, "-") by { assert DefaultScript[0] == 'd'; }
    if NamesScript(args) then ParsedArgs(args[0], args[1..]) else ParsedArgs(DefaultScript, args)
  }

  // ---------------------------------------------------------------------------
  // buildRunArgs
  // ---------------------------------------------------------------------------

  const Separator: string := "--"

  /** `v` is the argument vector for `<pm> run <script> [-- <extra>...]`. */
  predicate IsRunVector(script: string, extraArgs: seq<string>, v: seq<string>) {
    |v| >= 2 && v[0] == "run" && v[1] == script
    && (extraArgs == [] ==> |v| == 2)
    && (extraArgs != [] ==> |v| == 3 + |extraArgs| && v[2] == Separator && v[3..] == extraArgs)
  }

  /** buildRunArgs(script, extraArgs): starts from `['run', script]` and pushes `--` and
      the extras only when there are extras. */
  method BuildRunArgs(script: string, extraArgs: seq<string>) returns (runArgs: seq<string>)
    ensures IsRunVector(script, extraArgs, runArgs)
  {
    runArgs := ["run", script];
    if |extraArgs| > 0 {
      runArgs := runArgs + [Separator] + extraArgs;
    }
  }

  /** The vector determines the script and the extras: different invocations never run
      the same command, and the extras can be read back from the vector. */
  lemma RunVectorDeterminesInputs(s1: string, e1: seq<string>, s2: string, e2: seq<string>, v: seq<string>)
    requires IsRunVector(s1, e1, v) && IsRunVector(s2, e2, v)
    ensures s1 == s2 && e1 == e2
  {
  }

  /** The vector is exactly one of the two shapes. */
  lemma RunVectorShape(script: string, extraArgs: seq<string>, v: seq<string>)
    requires IsRunVector(script, extraArgs, v)
    ensures extraArgs == [] ==> v == ["run", script]
    ensures extraArgs != [] ==> v == ["run", script, Separator] + extraArgs
  {
    if extraArgs != [] {
      assert v == v[..3] + v[3..];
    }
  }
}
