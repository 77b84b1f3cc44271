# next-zombie, modelled in Dafny

next-zombie wraps a Next.js development server. It runs `<pm> run <script> [-- <extra>...]` with the package manager that launched it, read from `npm_config_user_agent` (npm when that starts with none of `pnpm`, `yarn`, `bun`). Nothing in the project directory is read to choose it. It restarts the server after it crashes. Before every start it tries to delete the `.next` build cache.

The model covers two files.

`lib.js` holds the pure helpers:
- the cache-corruption classifier `matchesErrorPattern` and its `ERROR_PATTERNS`;
- `detectPackageManager`;
- `parseArgs`;
- `buildRunArgs`.

`cli.js` holds the restart policy itself:
- `getPackageManager`;
- the command built inside `start()`;
- `cleanCache`;
- the child's exit listener;
- the restart timer;
- the SIGINT listeners;
- the top-level `cleanCache(); start();`.

Layout:
- `wrappers.dfy`: `Option`, which stands for values JavaScript may leave `undefined` or `null`.
- `lib.dfy` (module `Lib`): the helpers.
  - The two regular expressions are written as scanners: a substring search, and "`ENOENT:` then `.next` later on the same line".
  - Each scanner is proved equal to a reference reading by positions.
  - The classifier as a whole is proved to accept exactly the texts that contain `_buildManifest.js.tmp`, or that contain `ENOENT:` followed by `.next` with no line terminator in between. JavaScript's `.` does not match `\n`, `\r`, U+2028 or U+2029.
- `lib_examples.dfy` (module `LibExamples`): the cases of `lib.test.js`, stated as lemmas about the model, with a few general lemmas they use. The two `ERROR_PATTERNS` checks at lib.test.js:102 and :106 are stated for every context by `Lib.ErrorPatternsCoverCacheSignals` in `lib.dfy`.
- `cli.dfy` (module `Cli`): the wrapper process as a class `Supervisor`.
  - The class records what the wrapper does to the outside world in an effect log: cache cleans, spawns, the armed restart timer, `kill` calls on children's handles, and the process exit.
  - It also keeps counters: spawns, cleans, and the SIGINT listener list.
  - The timer and the child's exit are explicit event methods.
  - The invariant `Valid` ties the counters to the log. Every spawn comes after a cache clean, with at most the restart timer in between, so spawns never outnumber cleans. Every exit the model covers has code 0: a clean or killed child, and SIGINT.

Two behaviours of `cli.js` are proved as written:
- **No restart ceiling.** Any exit code other than 0 or `null` leads to one clean and one restart 1000 ms later, however many crashes came before (`Cli.CrashRepeatedly`).
- **SIGINT is aimed at the first child.** Every `start()` adds one more SIGINT listener and none is removed. Node runs the listeners in registration order, and the first one calls `process.exit(0)`. So the kill is always attempted on the handle of child 0, the first child ever spawned (`Cli.Supervisor.OnSigint`). After a restart child 0 has already exited, so that kill sends nothing, and the running child gets no signal from the wrapper.

`cli.js` never calls `matchesErrorPattern`. It restarts on every exit code other than 0 or `null`, and there is no ceiling on restarts.

The classifier's `\.next` is not tied to the cache directory. An ENOENT on a user path with a folder such as `my.next-site` is classified as cache corruption too (`LibExamples.MatchesEnoentOnUserPath`). What is guaranteed is weaker: every match contains `_buildManifest.js.tmp` or `ENOENT:` (`Lib.MatchNeedsSignal`).

The assertion at lib.test.js:13, `detectPackageManager(undefined)` giving npm, holds only when `npm_config_user_agent` does not start with `pnpm`, `yarn` or `bun`. Those package managers set the variable when they launch the tests (`LibExamples.DetectUndefinedUserAgent`).

## Model

| member | source | states |
|---|---|---|
| Lib.StartsWith | lib.js:11-13 | JavaScript's `startsWith`, also used at lib.js:28 |
| Lib.HasSubstring | lib.js:3 | `pattern.test` for the literal `/_buildManifest\.js\.tmp/`: a left-to-right search for the literal |
| Lib.NextOnLine | lib.js:4 | the `.*\.next` tail of `/ENOENT:.*\.next/`: `.next` reached without crossing a line terminator |
| Lib.ScanEnoentNext | lib.js:4 | `pattern.test` for `/ENOENT:.*\.next/`: tries every start of `ENOENT:` |
| Lib.Test | lib.js:2-5 | `pattern.test(text)` for each of the two patterns of `ERROR_PATTERNS` (`Lib.ErrorPatterns`, in source order) |
| Lib.SomeMatches | lib.js:21 | `patterns.some((pattern) => pattern.test(text))` |
| Lib.MatchesErrorPattern | lib.js:20-22 | matchesErrorPattern(text): `some` over `ERROR_PATTERNS`; its meaning is stated by `Lib.MatchesErrorPatternCorrect` |
| Lib.HasSubstringCorrect | lib.js:3 | the left-to-right scan used for the literal pattern `/_buildManifest\.js\.tmp/` finds the literal exactly when it occurs at some index of the text |
| Lib.NextOnLineWitness | lib.js:4 | when the `.*\.next` tail matches, some `.next` occurs with no line terminator before it |
| Lib.NextOnLineComplete | lib.js:4 | every `.next` preceded only by non-terminator characters is found by the `.*\.next` tail |
| Lib.NextOnLineCorrect | lib.js:4 | the `.*\.next` tail matches iff `.next` occurs with no line terminator before it |
| Lib.ScanEnoentNextWitness | lib.js:4 | a match of `/ENOENT:.*\.next/` yields positions of `ENOENT:` and of a later `.next` with no line terminator between them |
| Lib.ScanEnoentNextComplete | lib.js:4 | every such pair of positions makes `/ENOENT:.*\.next/` match |
| Lib.ScanEnoentNextCorrect | lib.js:4 | `/ENOENT:.*\.next/` matches iff `ENOENT:` is followed, later on the same line, by `.next` |
| Lib.MatchesErrorPatternCorrect | lib.js:20-22 | matchesErrorPattern(t) holds iff t contains `_buildManifest.js.tmp`, or contains `ENOENT:` followed on the same line by `.next` |
| Lib.MatchNeedsDot | lib.js:2-5 | a text without a `.` never matches |
| Lib.MatchNeedsSignal | lib.js:2-5 | every match contains `_buildManifest.js.tmp` or `ENOENT:`, so a runtime error that carries neither never counts as cache corruption |
| Lib.MatchesErrorPatternInContext | lib.js:20-22 | a match survives any text written before or after it |
| Lib.EnoentThenNextOnLine | lib.js:4 | `ENOENT:`, a stretch without line terminators, then `.next` is matched whatever surrounds it |
| Lib.ErrorPatternsCoverCacheSignals | lib.js:2-5 | ERROR_PATTERNS is not empty; some pattern accepts `_buildManifest.js.tmp`, and some pattern accepts every `ENOENT:` line that goes on to name `.next` |
| Lib.DetectPackageManager | lib.js:10-15 | pnpm, yarn and bun are chosen exactly when the user agent starts with that name; npm exactly when it starts with none of them |
| Lib.PrefixesExclusive | lib.js:11-13 | no user agent starts with two of `pnpm`, `yarn`, `bun`, so the order of the tests never decides |
| Lib.DetectPackageManagerDefaulted | lib.js:10 | an explicit user agent is used as given; an omitted one is replaced by `npm_config_user_agent`, or by `''` when that is unset, which gives npm |
| Lib.ParseArgs | lib.js:27-31 | a present, non-empty first argument that does not start with `-` is the script and the rest are extras; otherwise the script is `dev` and all arguments are extras; nothing is dropped, the script never looks like an option, and the extras are a suffix of the arguments |
| Lib.BuildRunArgs | lib.js:36-42 | the result is `run`, the script, then `--` and the extras only when there are extras |
| Lib.RunVectorDeterminesInputs | lib.js:36-42 | the argument vector determines the script and the extras |
| Lib.RunVectorShape | lib.js:36-42 | the vector is `['run', script]` without extras and `['run', script, '--'] + extras` with them |
| LibExamples.DetectEmptyUserAgent | lib.test.js:11-14 | an empty user agent gives npm |
| LibExamples.DetectUndefinedUserAgent | lib.test.js:13 | for every value of `npm_config_user_agent`: an omitted user agent gives npm when the variable is unset, and otherwise what the variable's prefix selects; it gives npm exactly when the variable starts with none of `pnpm`, `yarn`, `bun` |
| LibExamples.DetectByPrefix | lib.js:10-15 | a user agent that starts with a manager's name selects that manager, for all four managers |
| LibExamples.DetectPnpmUserAgent | lib.test.js:16-18 | the pnpm user agent gives pnpm |
| LibExamples.DetectYarnUserAgent | lib.test.js:20-22 | the yarn user agent gives yarn |
| LibExamples.DetectBunUserAgent | lib.test.js:24-26 | the bun user agent gives bun |
| LibExamples.DetectNpmUserAgent | lib.js:14 | an npm user agent falls through every prefix test to npm |
| LibExamples.ScannedEnoentMatches | lib.js:20-22 | a match of the second pattern is a match of the classifier |
| LibExamples.EnoentMessageMatches | lib.js:4 | every message with `ENOENT:`, a stretch without line breaks, then `.next`, is classified as cache corruption |
| LibExamples.MatchesBuildManifestTmpError | lib.test.js:30-33 | the `_buildManifest.js.tmp` ENOENT message matches |
| LibExamples.MatchesEnoentNextError | lib.test.js:35-38 | the ENOENT message for a page under `/path/.next/` matches |
| LibExamples.MatchesAppBuildManifestError | lib.test.js:40-43 | the ENOENT message for `app-build-manifest.json` under `.next` matches |
| LibExamples.RejectsSyntaxError | lib.test.js:46 | `SyntaxError: Unexpected token` does not match |
| LibExamples.RejectsTypeError | lib.test.js:47 | `TypeError: Cannot read property` does not match |
| LibExamples.RejectsEnoentOutsideCache | lib.test.js:48 | ENOENT on a path outside `.next` does not match |
| LibExamples.RejectsRequestLog | lib.test.js:52 | a request log line does not match |
| LibExamples.RejectsCompiledBanner | lib.test.js:53 | `Compiled successfully` does not match |
| LibExamples.RejectsEnoentWithNextOnLaterLine | lib.js:4 | `ENOENT:` with `.next` only on the following line does not match |
| LibExamples.MatchesEnoentOnUserPath | lib.js:4 | an ENOENT on a user path with a folder named `my.next-site` is classified as cache corruption |
| LibExamples.PatternsCoverEnoentSample | lib.test.js:110-113 | some pattern accepts `ENOENT: .next/something` |
| LibExamples.ParseArgsNoArgs | lib.test.js:58-62 | no arguments give script `dev` and no extras |
| LibExamples.ParseArgsScriptOnly | lib.test.js:64-68 | `['build']` gives script `build` and no extras |
| LibExamples.ParseArgsScriptAndExtras | lib.test.js:70-74 | a script followed by options keeps the options as extras |
| LibExamples.ParseArgsOptionFirst | lib.test.js:76-80 | a leading option makes the script `dev` and keeps every argument as an extra |
| LibExamples.ParseArgsEmptyFirst | lib.js:28-29 | an empty first argument is falsy, so the script is `dev` and `''` stays among the extras |
| LibExamples.BuildRunArgsExamples | lib.test.js:83-97 | the three vectors of the tests |
| Cli.GetPackageManager | cli.js:15-21 | cli.js's own prefix dispatch agrees with detectPackageManager applied to the environment's user agent or `''`, and with detectPackageManager called with no argument |
| Cli.StartCommand | cli.js:44-51 | the script, extras and run vector built inside start() are those of parseArgs and buildRunArgs, for every argument list |
| Cli.CleanCacheOutcome | cli.js:24-34 | removal is attempted iff the cache directory exists; it fails only when the directory exists and removal throws; the failure is swallowed |
| Cli.SpawnsNeverOutnumberCleans | cli.js:72-90 | in any log where each spawn follows its own cache clean, spawns plus a pending unused clean never exceed cleans |
| Cli.ChildIdsAt | cli.js:82-85 | the SIGINT listener list holds the children in spawn order, so its first listener belongs to child 0 |
| Cli.StartStep | cli.js:38-86 | a start() from a freshly cleaned state leaves the wrapper running, with one more spawn and one more SIGINT listener |
| Cli.StartSpawn | cli.js:39-59 | the spawn uses the detected package manager and the run vector for the command-line arguments |
| Cli.Supervisor.constructor | cli.js:89-90 | the wrapper cleans the cache once and then spawns the first child, whose command is the one start() builds |
| Cli.Supervisor.CleanCache | cli.js:24-34 | one clean is logged with its outcome, and nothing else changes |
| Cli.Supervisor.Start | cli.js:38-86 | one spawn with the start() command; one more SIGINT listener, for the new child; the invariant is kept |
| Cli.Supervisor.OnChildExit | cli.js:61-78 | exit code 0 or `null`: the wrapper exits 0 with no clean and no spawn; any other code: exactly one clean, then a 1000 ms restart timer |
| Cli.Supervisor.OnTimerFired | cli.js:74-77 | the timer calls start() again |
| Cli.Supervisor.OnSigint | cli.js:82-85 | `kill('SIGINT')` is called on the first child's handle, which sends nothing once that child has exited; then the wrapper exits 0; counters and listeners are unchanged |
| Cli.CrashRepeatedly | cli.js:61-78 | any number of crashes, with any non-zero codes and whatever each cache clean finds, each lead to one more clean and one more spawn, and the wrapper never exits |

## Left out

- Spawning through `cross-spawn`, stdio inheritance and the `FORCE_COLOR` environment (cli.js:56-59) are foreign I/O. A spawn is the `Spawned` effect: the package manager and its argument vector.
- `fs.existsSync` and `fs.rmSync` are filesystem calls. Their answers are the `CacheProbe` parameter of each clean, and the clean's result is recorded in the log.
- Console output and `picocolors` formatting are output only.
- `setTimeout` is not wall-clock time. Arming it is the `RestartTimerArmed(1000)` effect, and firing it is the `OnTimerFired` event.
- The child's `error` event is not modelled. If the spawn itself fails, for example because the detected package manager is not on the PATH, Node emits `error` instead of `exit`. `cli.js` registers no `error` listener, so the wrapper dies of an uncaught exception with a non-zero exit code. The model's claim that the wrapper exits with code 0 covers only the modelled events: child exit, timer and SIGINT.
- Events after `process.exit`: every event method requires that the wrapper has not exited, because the process is gone by then.
- A child exit from any child other than the newest: a restart only happens after the running child has exited, so no older child can still be running.
- `lib.d.ts` declares a different API that `lib.js` does not implement, so it is not part of this model.
- Regular expressions in general: only the two patterns of `ERROR_PATTERNS` are modelled.
- Cli.CrashRepeatedly: states the counters and the invariant after the crashes, not the log entries. The entries of each step are stated by `OnChildExit` and `OnTimerFired`.
