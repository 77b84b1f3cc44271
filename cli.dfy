/**
 * The wrapper's restart policy (cli.js). The script cleans the `.next` cache once
 * and calls `start()`. Each `start()` spawns `<pm> run <script> [-- <extra>...]`,
 * registers an exit listener on that child and adds one more SIGINT listener to the
 * process. A child exit with code 0 or `null` ends the wrapper with code 0. Any other
 * code cleans the cache and calls `start()` again after 1000 ms, with no limit on the
 * number of restarts.
 *
 * Spawning, signalling and deleting become entries of an effect log, the filesystem's
 * answers become parameters, and the timer becomes an explicit event.
 */
module Cli {
  import opened Wrappers
  import opened Lib

  // ---------------------------------------------------------------------------
  // getPackageManager and the command built by start()
  // ---------------------------------------------------------------------------

  /** getPackageManager(): cli.js's own copy of the prefix dispatch, applied to the
      `npm_config_user_agent` environment variable or `''`. */
  function GetPackageManager(envUserAgent: Option<string>): (r: PackageManager)
    ensures r == DetectPackageManager(envUserAgent.GetOr(""))
    ensures r == DetectPackageManagerDefaulted(None, envUserAgent)
  {
    var userAgent := envUserAgent.GetOr("");
    if StartsWith(userAgent, "pnpm") then Pnpm
    else if StartsWith(userAgent, "yarn") then Yarn
    else if StartsWith(userAgent, "bun") then Bun
    else Npm
  }

  /** The lines of start() that split `process.argv.slice(2)` and build `runArgs`:
      they agree with parseArgs and buildRunArgs of lib.js on every input. */
  method StartCommand(args: seq<string>) returns (script: string, extraArgs: seq<string>, runArgs: seq<string>)
    ensures ParsedArgs(script, extraArgs) == ParseArgs(args)
    ensures IsRunVector(script, extraArgs, runArgs)
  {
    script := if |args| > 0 && args[0] != "" && !StartsWith(args[0], "-") then args[0] else DefaultScript;
    extraArgs := if |args| > 0 && args[0] != "" && !StartsWith(args[0], "-") then args[1..] else args;
    runArgs := ["run", script];
    if |extraArgs| > 0 {
      runArgs := runArgs + [Separator] + extraArgs;
    }
  }

  // ---------------------------------------------------------------------------
  // cleanCache
  // ---------------------------------------------------------------------------

  /** What the filesystem answers during one cleanCache(): whether `.next` exists, and
      whether `fs.rmSync` would throw. */
  datatype CacheProbe = CacheProbe(dirPresent: bool, removalThrows: bool)

  datatype CleanOutcome = NoCacheDir | Removed | RemoveFailed

  /** cleanCache(): removal is attempted only when the directory exists, and a throwing
      removal is caught, so the caller always carries on. */
  function CleanCacheOutcome(probe: CacheProbe): (r: CleanOutcome)
    ensures r != NoCacheDir <==> probe.dirPresent
    ensures r == RemoveFailed <==> probe.dirPresent && probe.removalThrows
    ensures r == Removed ==> probe.dirPresent && !probe.removalThrows
  {
    if !probe.dirPresent then NoCacheDir
    else if probe.removalThrows then RemoveFailed
    else Removed
  }

  // ---------------------------------------------------------------------------
  // Effects
  // ---------------------------------------------------------------------------

  const RestartDelayMs: nat := 1000
  const Sigint: string := "SIGINT"

  /** What the wrapper does to the outside world, in order. Children are numbered by
      spawn order from 0. `ChildSignalled(k, s)` is `kill(s)` called on child k's handle,
      which sends nothing once that child has exited. */
  datatype Effect =
    | CacheCleaned(outcome: CleanOutcome)
    | Spawned(pm: PackageManager, runArgs: seq<string>)
    | RestartTimerArmed(delayMs: nat)
    | ChildSignalled(child: nat, signal: string)
    | ProcessExited(code: int)

  function CountSpawns(log: seq<Effect>): nat {
    if log == [] then 0 else CountSpawns(log[..|log| - 1]) + (if log[|log| - 1].Spawned? then 1 else 0)
  }

  function CountCleans(log: seq<Effect>): nat {
    if log == [] then 0 else CountCleans(log[..|log| - 1]) + (if log[|log| - 1].CacheCleaned? then 1 else 0)
  }

  /** The spawn at `i` comes right after a cache clean, or right after the restart timer
      that a cache clean armed. */
  predicate CleanedBefore(log: seq<Effect>, i: int)
    requires 0 <= i < |log|
  {
    (i >= 1 && log[i - 1].CacheCleaned?)
    || (i >= 2 && log[i - 1].RestartTimerArmed? && log[i - 2].CacheCleaned?)
  }

  predicate SpawnsFollowCleans(log: seq<Effect>) {
    forall i :: 0 <= i < |log| && log[i].Spawned? ==> CleanedBefore(log, i)
  }

  /** The log ends with a cache clean that no spawn has used yet. */
  predicate CleanPending(log: seq<Effect>) {
    (|log| >= 1 && log[|log| - 1].CacheCleaned?)
    || (|log| >= 2 && log[|log| - 1].RestartTimerArmed? && log[|log| - 2].CacheCleaned?)
  }

  /** Because every spawn follows its own cache clean, there are never more spawns than
      cache cleans, whatever else happened. */
  lemma {:induction false} SpawnsNeverOutnumberCleans(log: seq<Effect>)
    requires SpawnsFollowCleans(log)
    ensures CountSpawns(log) + (if CleanPending(log) then 1 else 0) <= CountCleans(log)
    decreases |log|
  {
    if log != [] {
      var s, e := log[..|log| - 1], log[|log| - 1];
      assert log == s + [e];
      assert SpawnsFollowCleans(s) by {
        forall i | 0 <= i < |s| && s[i].Spawned? ensures CleanedBefore(s, i) {
          assert log[i] == s[i];
          assert CleanedBefore(log, i);
        }
      }
      SpawnsNeverOutnumberCleans(s);
      if e.Spawned? {
        assert CleanedBefore(log, |log| - 1);
        assert CleanPending(s);
      }
    }
  }

  lemma CountsAppend(log: seq<Effect>, e: Effect)
    ensures CountSpawns(log + [e]) == CountSpawns(log) + (if e.Spawned? then 1 else 0)
    ensures CountCleans(log + [e]) == CountCleans(log) + (if e.CacheCleaned? then 1 else 0)
  {
    assert (log + [e])[..|log|] == log;
  }

  /** Appending keeps the spawn order as long as a spawn only comes after an unused
      cache clean. */
  lemma OrderAppend(log: seq<Effect>, e: Effect)
    requires SpawnsFollowCleans(log)
    requires e.Spawned? ==> CleanPending(log)
    ensures SpawnsFollowCleans(log + [e])
  {
    var l := log + [e];
    forall i | 0 <= i < |l| && l[i].Spawned? ensures CleanedBefore(l, i) {
      if i < |log| {
        assert l[i] == log[i];
        assert CleanedBefore(log, i);
        assert i >= 1 ==> l[i - 1] == log[i - 1];
        assert i >= 2 ==> l[i - 2] == log[i - 2];
      } else {
        assert l[i - 1] == log[|log| - 1];
        assert i >= 2 ==> l[i - 2] == log[|log| - 2];
      }
    }
  }

  /** One effect appended to the log. */
  lemma Append(log: seq<Effect>, e: Effect)
    requires SpawnsFollowCleans(log)
    requires e.Spawned? ==> CleanPending(log)
    ensures CountSpawns(log + [e]) == CountSpawns(log) + (if e.Spawned? then 1 else 0)
    ensures CountCleans(log + [e]) == CountCleans(log) + (if e.CacheCleaned? then 1 else 0)
    ensures SpawnsFollowCleans(log + [e])
  {
    CountsAppend(log, e);
    OrderAppend(log, e);
  }

  /** The children `0, 1, ..., n - 1`, in spawn order. */
  function ChildIds(n: nat): seq<nat> {
    if n == 0 then [] else ChildIds(n - 1) + [n - 1]
  }

  lemma {:induction false} ChildIdsAt(n: nat, k: nat)
    requires k < n
    ensures |ChildIds(n)| == n && ChildIds(n)[k] == k
  {
    if k < n - 1 {
      ChildIdsAt(n - 1, k);
    } else if n > 1 {
      ChildIdsAt(n - 1, 0);
    }
  }

  /** How the counters, the SIGINT listener list and the exit code follow the log. */
  predicate Bookkeeping(log: seq<Effect>, spawns: nat, cleans: nat, handlers: seq<nat>, exitCode: Option<int>) {
    && handlers == ChildIds(spawns)
    && spawns == CountSpawns(log) && cleans == CountCleans(log)
    && SpawnsFollowCleans(log)
    // every exit among the modelled events has code 0, and exiting is the last thing it does
    && (exitCode.Some? ==> exitCode == Some(0) && |log| > 0 && log[|log| - 1] == ProcessExited(0))
  }

  /** A spawn after an unused cache clean: one more child and one more SIGINT listener. */
  lemma SpawnStep(log: seq<Effect>, spawns: nat, cleans: nat, handlers: seq<nat>, e: Effect)
    requires Bookkeeping(log, spawns, cleans, handlers, None)
    requires CleanPending(log) && e.Spawned?
    ensures Bookkeeping(log + [e], spawns + 1, cleans, handlers + [spawns], None)
  {
    Append(log, e);
  }

  /** Any other effect before the exit leaves the counters as they are, except a clean. */
  lemma QuietStep(log: seq<Effect>, spawns: nat, cleans: nat, handlers: seq<nat>, e: Effect)
    requires Bookkeeping(log, spawns, cleans, handlers, None)
    requires !e.Spawned? && !e.ProcessExited?
    ensures Bookkeeping(log + [e], spawns, if e.CacheCleaned? then cleans + 1 else cleans, handlers, None)
  {
    Append(log, e);
  }

  /** `process.exit(0)`. */
  lemma ExitStep(log: seq<Effect>, spawns: nat, cleans: nat, handlers: seq<nat>)
    requires Bookkeeping(log, spawns, cleans, handlers, None)
    ensures Bookkeeping(log + [ProcessExited(0)], spawns, cleans, handlers, Some(0))
  {
    Append(log, ProcessExited(0));
  }

  /** The wrapper between events. */
  predicate Running(log: seq<Effect>, spawns: nat, cleans: nat, handlers: seq<nat>,
                    childRunning: bool, timerArmed: bool, exitCode: Option<int>) {
    && Bookkeeping(log, spawns, cleans, handlers, exitCode)
    && spawns >= 1
    // one clean per start, plus the one made for the restart that is pending
    && cleans == spawns + (if timerArmed then 1 else 0)
    && !(childRunning && timerArmed)
    && (exitCode.None? ==> childRunning || timerArmed)
    && (exitCode.None? && timerArmed ==>
          |log| >= 2 && log[|log| - 1] == RestartTimerArmed(RestartDelayMs) && log[|log| - 2].CacheCleaned?)
  }

  /** The wrapper when start() is called: a cache clean has just run. */
  predicate Due(log: seq<Effect>, spawns: nat, cleans: nat, handlers: seq<nat>,
                childRunning: bool, timerArmed: bool, exitCode: Option<int>) {
    && Bookkeeping(log, spawns, cleans, handlers, exitCode)
    && exitCode.None? && !childRunning && !timerArmed
    && cleans == spawns + 1
    && CleanPending(log)
  }

  /** start() turns a due wrapper into a running one with one more child. */
  lemma StartStep(log: seq<Effect>, spawns: nat, cleans: nat, handlers: seq<nat>, e: Effect)
    requires Due(log, spawns, cleans, handlers, false, false, None) && e.Spawned?
    ensures Running(log + [e], spawns + 1, cleans, handlers + [spawns], true, false, None)
  {
    SpawnStep(log, spawns, cleans, handlers, e);
  }

  /** The spawn of a child, as start() performs it. */
  ghost predicate IsStartSpawn(argv: seq<string>, envUserAgent: Option<string>, e: Effect) {
    && e.Spawned?
    && e.pm == GetPackageManager(envUserAgent)
    && IsRunVector(ParseArgs(argv).script, ParseArgs(argv).extraArgs, e.runArgs)
  }

  /** `spawn(pm, runArgs, ...)` as start() calls it. */
  method StartSpawn(argv: seq<string>, envUserAgent: Option<string>) returns (e: Effect)
    ensures IsStartSpawn(argv, envUserAgent, e)
  {
    var pm := GetPackageManager(envUserAgent);
    var script, extraArgs, runArgs := StartCommand(argv);
    e := Spawned(pm, runArgs);
  }

  // ---------------------------------------------------------------------------
  // The wrapper process
  // ---------------------------------------------------------------------------

  class Supervisor {
    /** `process.argv.slice(2)`, read again by every start() but never changed. */
    const argv: seq<string>
    /** `process.env.npm_config_user_agent`. */
    const envUserAgent: Option<string>

    var log: seq<Effect>
    var spawns: nat
    var cleans: nat
    /** The SIGINT listeners in registration order; each closes over the child of the
        start() that added it. None is ever removed. */
    var sigintHandlers: seq<nat>
    /** The newest child has not exited yet. */
    var childRunning: bool
    /** A restart is scheduled and has not fired yet. */
    var timerArmed: bool
    /** `Some(code)` once `process.exit(code)` has run. */
    var exitCode: Option<int>

    /** Holds between events. */
    ghost predicate Valid()
      reads this
    {
      Running(log, spawns, cleans, sigintHandlers, childRunning, timerArmed, exitCode)
    }

    /** The state in which start() is called: a cache clean has just run. */
    ghost predicate StartDue()
      reads this
    {
      Due(log, spawns, cleans, sigintHandlers, childRunning, timerArmed, exitCode)
    }

    /** The top level of cli.js: `cleanCache(); start();`. */
    constructor (argv: seq<string>, envUserAgent: Option<string>, cache: CacheProbe)
      ensures Valid() && childRunning && exitCode.None?
      ensures this.argv == argv && this.envUserAgent == envUserAgent
      ensures spawns == 1 && cleans == 1 && sigintHandlers == [0]
      ensures |log| == 2 && log[0] == CacheCleaned(CleanCacheOutcome(cache))
      ensures IsStartSpawn(argv, envUserAgent, log[1])
    {
      this.argv := argv;
      this.envUserAgent := envUserAgent;
      log := [];
      spawns, cleans := 0, 0;
      sigintHandlers := [];
      childRunning, timerArmed := false, false;
      exitCode := None;
      new;
      CleanCache(cache);
      assert Due(log, spawns, cleans, sigintHandlers, childRunning, timerArmed, exitCode);
      ghost var spawned := Start();
    }

    /** cleanCache(): one clean step, whose failure is swallowed. */
    method CleanCache(cache: CacheProbe)
      requires Bookkeeping(log, spawns, cleans, sigintHandlers, exitCode) && exitCode.None?
      modifies this`log, this`cleans
      ensures Bookkeeping(log, spawns, cleans, sigintHandlers, exitCode)
      ensures log == old(log) + [CacheCleaned(CleanCacheOutcome(cache))]
      ensures cleans == old(cleans) + 1
    {
      var e := CacheCleaned(CleanCacheOutcome(cache));
      QuietStep(log, spawns, cleans, sigintHandlers, e);
      log := log + [e];
      cleans := cleans + 1;
    }

    /** start(): spawn the child, then register its exit listener and one more SIGINT
        listener. */
    method Start() returns (ghost spawned: Effect)
      requires StartDue()
      modifies this
      ensures Valid() && childRunning && !timerArmed && exitCode.None?
      ensures spawns == old(spawns) + 1 && cleans == old(cleans)
      ensures sigintHandlers == old(sigintHandlers) + [old(spawns)]
      ensures log == old(log) + [spawned] && IsStartSpawn(argv, envUserAgent, spawned)
    {
      var e := StartSpawn(argv, envUserAgent);
      StartStep(log, spawns, cleans, sigintHandlers, e);
      log, sigintHandlers, spawns := log + [e], sigintHandlers + [spawns], spawns + 1;
      childRunning := true;
      spawned := e;
      assert Running(log, spawns, cleans, sigintHandlers, childRunning, timerArmed, exitCode);
    }

    /** The exit listener of the running child. `code` is `None` when the child was
        killed by a signal. */
    method OnChildExit(code: Option<int>, cache: CacheProbe)
      requires Valid() && exitCode.None? && childRunning
      modifies this
      ensures Valid() && !childRunning
      ensures spawns == old(spawns) && sigintHandlers == old(sigintHandlers)
      // clean exit or killed: the wrapper exits 0, with no clean and no restart
      ensures code == None || code == Some(0) ==>
        exitCode == Some(0) && !timerArmed && cleans == old(cleans) && log == old(log) + [ProcessExited(0)]
      // a crash, whatever its code and however many came before: one clean, then a
      // restart 1000 ms later
      ensures code != None && code != Some(0) ==>
        exitCode.None? && timerArmed && cleans == old(cleans) + 1
        && log == old(log) + [CacheCleaned(CleanCacheOutcome(cache)), RestartTimerArmed(RestartDelayMs)]
    {
      childRunning := false;
      if code == None || code == Some(0) {
        ExitStep(log, spawns, cleans, sigintHandlers);
        log := log + [ProcessExited(0)];
        exitCode := Some(0);
        assert Running(log, spawns, cleans, sigintHandlers, childRunning, timerArmed, exitCode);
        return;
      }
      CleanCache(cache);
      QuietStep(log, spawns, cleans, sigintHandlers, RestartTimerArmed(RestartDelayMs));
      log := log + [RestartTimerArmed(RestartDelayMs)];
      timerArmed := true;
      assert Running(log, spawns, cleans, sigintHandlers, childRunning, timerArmed, exitCode);
    }

    /** The restart timer fires: `start()` again. */
    method OnTimerFired() returns (ghost spawned: Effect)
      requires Valid() && exitCode.None? && timerArmed
      modifies this
      ensures Valid() && childRunning && !timerArmed && exitCode.None?
      ensures spawns == old(spawns) + 1 && cleans == old(cleans)
      ensures sigintHandlers == old(sigintHandlers) + [old(spawns)]
      ensures log == old(log) + [spawned] && IsStartSpawn(argv, envUserAgent, spawned)
    {
      timerArmed := false;
      assert Due(log, spawns, cleans, sigintHandlers, childRunning, timerArmed, exitCode);
      spawned := Start();
    }

    /** SIGINT. Node runs the listeners in registration order, and the first one calls
        `process.exit(0)` right after calling `kill` on its own child's handle, so the later
        listeners never run: the kill is always called on the first child's handle, even
        after restarts, when that child has already exited. */
    method OnSigint()
      requires Valid() && exitCode.None?
      modifies this
      ensures Valid() && exitCode == Some(0)
      ensures log == old(log) + [ChildSignalled(0, Sigint), ProcessExited(0)]
      ensures spawns == old(spawns) && cleans == old(cleans) && sigintHandlers == old(sigintHandlers)
      ensures childRunning == old(childRunning) && timerArmed == old(timerArmed)
    {
      ChildIdsAt(spawns, 0);
      var child := sigintHandlers[0];
      QuietStep(log, spawns, cleans, sigintHandlers, ChildSignalled(child, Sigint));
      log := log + [ChildSignalled(child, Sigint)];
      ExitStep(log, spawns, cleans, sigintHandlers);
      log := log + [ProcessExited(0)];
      exitCode := Some(0);
      assert Running(log, spawns, cleans, sigintHandlers, childRunning, timerArmed, exitCode);
    }
  }

  /** There is no restart ceiling: a child that keeps crashing, with any non-zero codes,
      is respawned every time and the wrapper never exits. */
  method CrashRepeatedly(s: Supervisor, codes: seq<int>, caches: seq<CacheProbe>)
    requires s.Valid() && s.exitCode.None? && s.childRunning
    requires |caches| == |codes|
    requires forall k :: 0 <= k < |codes| ==> codes[k] != 0
    modifies s
    ensures s.Valid() && s.exitCode.None? && s.childRunning
    ensures s.spawns == old(s.spawns) + |codes| && s.cleans == old(s.cleans) + |codes|
    ensures |s.sigintHandlers| == old(|s.sigintHandlers|) + |codes|
  {
    var n := 0;
    while n < |codes|
      invariant 0 <= n <= |codes|
      invariant s.Valid() && s.exitCode.None? && s.childRunning
      invariant s.spawns == old(s.spawns) + n && s.cleans == old(s.cleans) + n
      invariant |s.sigintHandlers| == old(|s.sigintHandlers|) + n
    {
      s.OnChildExit(Some(codes[n]), caches[n]);
      ghost var _ := s.OnTimerFired();
      n := n + 1;
    }
  }
}
