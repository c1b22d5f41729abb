/** What an invocation of the program promises: usage text, exit status, and what the watch is set up with. */
module CliFacts {
  import opened Wrappers
  import Glob
  import Events
  import WatchPath
  import opened EventLoop
  import EventLoopFacts
  import opened Cli
  import PathSplit

  /** A command line with the wrong number of arguments, or with -h as the command. */
  predicate AsksForUsage(argv: seq<string>)
  {
    !(1 < |argv| < 4) || argv[1] == "-h"
  }

  /**
   * The usage text is written exactly for a wrong argument count, for -h and
   * when no directory to watch can be found, and is then all that is written.
   */
  lemma UsageWhenMisused(argv: seq<string>, env: Environment, script: seq<Read>, debugBuild: bool)
    ensures var s := Main(argv, env, script, debugBuild);
      (Usage in s.output) <==>
        AsksForUsage(argv) || WatchPath.ResolveAsWritten(PatternArgument(argv), env.cwd).0.None?
    ensures var s := Main(argv, env, script, debugBuild);
      Usage in s.output ==> s.output == [Usage]
  {
  }

  /**
   * Exit status 0 after -h or when process_events returns; status 1 when the
   * arguments, the working directory, inotify_init or inotify_add_watch fail;
   * otherwise the process is killed (a SIGINT during read(), or the debug
   * assert) or is still waiting for the next event.
   */
  lemma ExitStatus(argv: seq<string>, env: Environment, script: seq<Read>, debugBuild: bool)
    ensures var s := Main(argv, env, script, debugBuild);
      s.end == Exit(0) <==>
        (1 < |argv| < 4 && argv[1] == "-h")
        || (Watches(argv, env) && Returns(
              Dispatch(script, FilterOf(WatchPath.ResolveAsWritten(PatternArgument(argv), env.cwd).1), argv[1], debugBuild).stop))
    ensures var s := Main(argv, env, script, debugBuild);
      s.end == Exit(1) <==> !(1 < |argv| < 4) || (argv[1] != "-h" && !Watches(argv, env))
    ensures var s := Main(argv, env, script, debugBuild);
      s.end.Exit? || Watches(argv, env)
  {
  }

  /** Every command the program runs is its first argument, and every run is reported as in process_events. */
  lemma RunsTheGivenCommand(argv: seq<string>, env: Environment, script: seq<Read>, debugBuild: bool)
    ensures var s := Main(argv, env, script, debugBuild);
      forall k | 0 <= k < |s.output| && s.output[k].Progress? && s.output[k].line.Executing? ::
        s.output[k].line.command == argv[1]
  {
    var s := Main(argv, env, script, debugBuild);
    if Watches(argv, env) {
      var (path, pattern) := WatchPath.ResolveAsWritten(PatternArgument(argv), env.cwd);
      var r := Dispatch(script, FilterOf(pattern), argv[1], debugBuild);
      EventLoopFacts.DispatchReported(script, FilterOf(pattern), argv[1], debugBuild);
      var out := [InotifyReady, WatchAdded(pattern, path.value)] + Logged(r.trace);
      forall k | 0 <= k < |s.output| && s.output[k].Progress? && s.output[k].line.Executing?
        ensures s.output[k].line.command == argv[1]
      {
        assert 2 <= k < |out|;
        assert out[k] == Logged(r.trace)[k - 2];
      }
    }
  }

  /**
   * `in-trigger cmd dir/name-pattern`, with dir other than ".", watches dir
   * with the residual pattern, and a name reported there triggers exactly
   * when dir/name matches the pattern argument as a whole. With dir "." the
   * argument is kept whole and the working directory watched instead.
   */
  lemma DirectoryArgument(prog: string, command: string, dir: string, base: string, env: Environment,
                          script: seq<Read>, debugBuild: bool, name: string, mask: bv32)
    requires command != "-h"
    requires dir != [] && dir[|dir| - 1] != '/' && Glob.Plain(dir)
    requires base != [] && '/' !in base
    requires '/' !in name
    requires env.inotifyOpens && env.watchAdded
    ensures var argv := [prog, command, dir + "/" + base];
      dir != "." ==>
        && Watches(argv, env)
        && Main(argv, env, script, debugBuild).output[1] == WatchAdded(Some(base), dir)
    ensures var argv := [prog, command, dir + "/" + base];
      dir == "." ==>
        && (Watches(argv, env) <==> env.cwd.Some?)
        && (env.cwd.Some? ==>
              Main(argv, env, script, debugBuild).output[1] == WatchAdded(Some(dir + "/" + base), env.cwd.value))
    ensures FilterOf(Some(base))(Events.Event(mask, Some(name))) <==>
      Glob.FnMatch(dir + "/" + base, dir + "/" + name)
  {
    WatchPath.ResolveKeepsMatching(dir, base, name, env.cwd, mask);
    WatchPath.ResolveDiffersOnlyOnDot(Some(dir + "/" + base), env.cwd);
    PathSplit.SplitJoin(dir, base);
  }

  /**
   * As written, `in-trigger cmd ./name-pattern` watches the working directory
   * with the argument kept whole; as inotify reports names without a `/`,
   * the command never runs, whatever is modified.
   */
  lemma DotSlashArgumentNeverRuns(prog: string, command: string, base: string, env: Environment,
                                  script: seq<Read>, debugBuild: bool)
    requires command != "-h"
    requires base != [] && '/' !in base
    requires env.cwd.Some? && env.inotifyOpens && env.watchAdded
    requires forall k | 0 <= k < |script| && script[k].Record? && script[k].event.name.Some? ::
      '/' !in script[k].event.name.value
    ensures var argv := [prog, command, "./" + base];
      var s := Main(argv, env, script, debugBuild);
      && Watches(argv, env)
      && s.output[1] == WatchAdded(Some("./" + base), env.cwd.value)
      && forall k | 0 <= k < |s.output| :: !(s.output[k].Progress? && s.output[k].line.Executing?)
  {
    var argv := [prog, command, "./" + base];
    var pattern := "./" + base;
    WatchPath.DotSlashPatternNeverTriggers(base, "", env.cwd, 0);
    assert PatternArgument(argv) == Some(pattern);
    forall k | 0 <= k < |script| && script[k].Record? && script[k].event.name.Some?
      ensures !Glob.Matches(pattern, script[k].event.name.value)
    {
      Glob.FnMatchIsGlob(pattern, script[k].event.name.value);
      Glob.DotSlashNeedsSlash(base, script[k].event.name.value);
    }
    EventLoopFacts.NoMatchNoRuns(script, pattern, command, debugBuild);
    var r := Dispatch(script, FilterOf(Some(pattern)), command, debugBuild);
    EventLoop.RunsEmpty(r.trace);
    var s := Main(argv, env, script, debugBuild);
    var out := [InotifyReady, WatchAdded(Some(pattern), env.cwd.value)] + Logged(r.trace);
    forall k | 0 <= k < |s.output| ensures !(s.output[k].Progress? && s.output[k].line.Executing?) {
      if 2 <= k < |out| {
        assert out[k] == Logged(r.trace)[k - 2];
      }
    }
  }
}
