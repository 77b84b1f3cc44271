/**
 * The cases lib.test.js checks, stated as lemmas about the model of lib.js. Beside them:
 * general lemmas the cases use (a user agent with a manager's prefix, an `ENOENT:` message
 * naming `.next`), a text whose `\n` stops the classifier's `.`, the `my.next-site` false
 * positive, and an empty first argument.
 */
module LibExamples {
  import opened Wrappers
  import opened Lib

  // ---------------------------------------------------------------------------
  // detectPackageManager
  // ---------------------------------------------------------------------------

  lemma DetectEmptyUserAgent()
    ensures DetectPackageManager("") == Npm
  {
  }

  /** A user agent that starts with a manager's name selects that manager. */
  lemma DetectByPrefix(m: PackageManager, rest: string)
    ensures DetectPackageManager(m.Name() + rest) == m
  {
    var ua := m.Name() + rest;
    assert ua[..|m.Name()|] == m.Name();
    if m == Npm {
      assert ua[0] == 'n';
    }
  }

  lemma DetectPnpmUserAgent()
    ensures DetectPackageManager("pnpm" + "/8.0.0 npm/? node/v18.0.0") == Pnpm
  {
    DetectByPrefix(Pnpm, "/8.0.0 npm/? node/v18.0.0");
  }

  lemma DetectYarnUserAgent()
    ensures DetectPackageManager("yarn" + "/1.22.0 npm/? node/v18.0.0") == Yarn
  {
    DetectByPrefix(Yarn, "/1.22.0 npm/? node/v18.0.0");
  }

  lemma DetectBunUserAgent()
    ensures DetectPackageManager("bun" + "/1.0.0") == Bun
  {
    DetectByPrefix(Bun, "/1.0.0");
  }

  /** An npm user agent falls through every prefix test. */
  lemma DetectNpmUserAgent()
    ensures DetectPackageManager("npm" + "/10.2.0 node/v20.0.0") == Npm
  {
    DetectByPrefix(Npm, "/10.2.0 node/v20.0.0");
  }

  /** `detectPackageManager(undefined)` reads `npm_config_user_agent`: it gives `npm` when
      the variable is unset, and otherwise whatever the variable's prefix selects. */
  lemma DetectUndefinedUserAgent(env: Option<string>)
    ensures env.None? ==> DetectPackageManagerDefaulted(None, env) == Npm
    ensures env.Some? ==> DetectPackageManagerDefaulted(None, env) == DetectPackageManager(env.value)
    ensures DetectPackageManagerDefaulted(None, env) == Npm <==>
      !StartsWith(env.GetOr(""), "pnpm") && !StartsWith(env.GetOr(""), "yarn") && !StartsWith(env.GetOr(""), "bun")
  {
  }

  // ---------------------------------------------------------------------------
  // matchesErrorPattern
  // ---------------------------------------------------------------------------

  lemma NoLineTerminatorConcat(a: string, b: string)
    requires NoLineTerminator(a) && NoLineTerminator(b)
    ensures NoLineTerminator(a + b)
  {
    forall k | 0 <= k < |a + b| ensures !IsLineTerminator((a + b)[k]) {
      if k >= |a| { assert (a + b)[k] == b[k - |a|]; }
    }
  }

  /** A scanned ENOENT-on-the-same-line match is a match of the whole classifier. */
  lemma ScannedEnoentMatches(t: string)
    requires ScanEnoentNext(t)
    ensures MatchesErrorPattern(t)
  {
    MatchesErrorPatternUnfold(t);
  }

  // The long messages below are the tested strings written as concatenations, cut where
  // the pattern starts and ends.

  lemma MatchesBuildManifestTmpError()
    ensures MatchesErrorPattern(
      "Error: ENOENT: no such file or directory, open '.next/static/development/" + "_buildManifest.js.tmp" + "'")
  {
    MatchesErrorPatternCorrect(BuildManifestTmp);
    assert OccursAt(BuildManifestTmp, BuildManifestTmp, 0);
    MatchesErrorPatternInContext(
      "Error: ENOENT: no such file or directory, open '.next/static/development/", BuildManifestTmp, "'");
  }

  /** Any message carrying `ENOENT:`, then a stretch without line breaks, then `.next`. */
  lemma EnoentMessageMatches(prefix: string, gap: string, tail: string)
    requires NoLineTerminator(gap)
    ensures MatchesErrorPattern(prefix + Enoent + gap + NextDir + tail)
  {
    EnoentThenNextOnLine(prefix, gap, tail);
    ScannedEnoentMatches(prefix + Enoent + gap + NextDir + tail);
  }

  // Pieces of the tested messages between `ENOENT:` and `.next`, each free of line
  // terminators.

  const OpenPrefix: string := " no such file or directory, open '"
  const UsersDir: string := "/Users/donggu/Desktop/workspace/"
  const ProjectDir: string := "artcenter/artcenter-admin/"

  lemma OpenPrefixLineFree()
    ensures NoLineTerminator(OpenPrefix) && NoLineTerminator(OpenPrefix + "/path/")
  {
    assert NoLineTerminator("/path/");
    NoLineTerminatorConcat(OpenPrefix, "/path/");
  }

  lemma UsersDirLineFree()
    ensures NoLineTerminator(UsersDir)
  {
  }

  lemma ProjectDirLineFree()
    ensures NoLineTerminator(ProjectDir)
  {
  }

  lemma MatchesEnoentNextError()
    ensures MatchesErrorPattern("" + "ENOENT:" + (OpenPrefix + "/path/") + ".next" + "/server/app/page.js'")
  {
    OpenPrefixLineFree();
    EnoentMessageMatches("", OpenPrefix + "/path/", "/server/app/page.js'");
  }

  lemma MatchesAppBuildManifestError()
    ensures MatchesErrorPattern(
      "[Error: " + "ENOENT:" + (OpenPrefix + UsersDir + ProjectDir)
      + ".next" + "/server/app/(dashboard)/(private)/dashboard/page/app-build-manifest.json']")
  {
    OpenPrefixLineFree();
    UsersDirLineFree();
    ProjectDirLineFree();
    NoLineTerminatorConcat(OpenPrefix, UsersDir);
    NoLineTerminatorConcat(OpenPrefix + UsersDir, ProjectDir);
    EnoentMessageMatches("[Error: ", OpenPrefix + UsersDir + ProjectDir,
      "/server/app/(dashboard)/(private)/dashboard/page/app-build-manifest.json']");
  }

  /** `\.next` is not tied to the cache directory: an ENOENT on a user path with a folder
      whose name merely contains `.next` is classified as cache corruption as well. */
  lemma MatchesEnoentOnUserPath()
    ensures MatchesErrorPattern("" + "ENOENT:" + (OpenPrefix + "/home/u/my") + ".next" + "-site/src/page.tsx'")
  {
    OpenPrefixLineFree();
    assert NoLineTerminator("/home/u/my");
    NoLineTerminatorConcat(OpenPrefix, "/home/u/my");
    EnoentMessageMatches("", OpenPrefix + "/home/u/my", "-site/src/page.tsx'");
  }

  /** The third check on ERROR_PATTERNS: some pattern accepts `ENOENT: .next/something`. */
  lemma PatternsCoverEnoentSample()
    ensures exists p :: p in ErrorPatterns && Test(p, "ENOENT:" + " " + ".next" + "/something")
  {
    ErrorPatternsCoverCacheSignals(" ", "/something");
  }

  /** The five strings of lib.test.js:46-53 are rejected: none of them contains a `.`. */
  lemma RejectsSyntaxError()
    ensures !MatchesErrorPattern("SyntaxError: Unexpected token")
  {
    MatchNeedsDot("SyntaxError: Unexpected token");
  }

  lemma RejectsTypeError()
    ensures !MatchesErrorPattern("TypeError: Cannot read property")
  {
    MatchNeedsDot("TypeError: Cannot read property");
  }

  lemma RejectsEnoentOutsideCache()
    ensures !MatchesErrorPattern("ENOENT: /some/other/path")
  {
    MatchNeedsDot("ENOENT: /some/other/path");
  }

  lemma RejectsRequestLog()
    ensures !MatchesErrorPattern("GET /api/users 200 in 50ms")
  {
    MatchNeedsDot("GET /api/users 200 in 50ms");
  }

  lemma RejectsCompiledBanner()
    ensures !MatchesErrorPattern("Compiled successfully")
  {
    MatchNeedsDot("Compiled successfully");
  }

  /** An ENOENT whose `.next` only appears on the next line is not a match. */
  lemma RejectsEnoentWithNextOnLaterLine()
    ensures !MatchesErrorPattern("ENOENT:\n.next")
  {
    var t := "ENOENT:\n.next";
    MatchesErrorPatternCorrect(t);
    forall i, j | 0 <= i && i + |Enoent| <= j && j + |NextDir| <= |t|
      ensures !EnoentNextAt(t, i, j)
    {
      if i > 0 {
        assert t[i..i + |Enoent|][0] == t[i] != 'E';
      } else if j == 7 {
        assert t[j..j + |NextDir|][0] == t[j] != '.';
      } else {
        assert t[7..j][0] == '\n';
      }
    }
  }

  // ---------------------------------------------------------------------------
  // parseArgs and buildRunArgs
  // ---------------------------------------------------------------------------

  lemma ParseArgsNoArgs()
    ensures ParseArgs([]) == ParsedArgs("dev", [])
  {
  }

  lemma ParseArgsScriptOnly()
    ensures ParseArgs(["build"]) == ParsedArgs("build", [])
  {
    assert NamesScript(["build"]) by { assert "build"[0] == 'b'; }
  }

  lemma ParseArgsScriptAndExtras()
    ensures ParseArgs(["dev", "--port", "3001"]) == ParsedArgs("dev", ["--port", "3001"])
  {
    var args := ["dev", "--port", "3001"];
    assert NamesScript(args) by { assert args[0][0] == 'd'; }
    assert args[1..] == ["--port", "3001"];
  }

  lemma ParseArgsOptionFirst()
    ensures ParseArgs(["--port", "3001"]) == ParsedArgs("dev", ["--port", "3001"])
  {
    var args := ["--port", "3001"];
    assert !NamesScript(args) by { assert args[0][..1] == [args[0][0]] == "-"; }
  }

  /** An empty first argument is falsy in JavaScript, so it stays among the extras. */
  lemma ParseArgsEmptyFirst()
    ensures ParseArgs([""]) == ParsedArgs("dev", [""])
  {
  }

  /** The three buildRunArgs cases of the tests. */
  method BuildRunArgsExamples() returns (a: seq<string>, b: seq<string>, c: seq<string>)
    ensures a == ["run", "dev"]
    ensures b == ["run", "dev", "--", "--port", "3001"]
    ensures c == ["run", "build"]
  {
    a := BuildRunArgs("dev", []);
    RunVectorShape("dev", [], a);
    b := BuildRunArgs("dev", ["--port", "3001"]);
    RunVectorShape("dev", ["--port", "3001"], b);
    c := BuildRunArgs("build", []);
    RunVectorShape("build", [], c);
  }
}
