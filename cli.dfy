/**
 * main: the argument checks, the choice of directory and pattern, and the
 * lines main writes around process_events. The outcomes of getcwd(),
 * inotify_init() and inotify_add_watch() are part of the environment given
 * to it, and the reads of the inotify descriptor are a script.
 */
module Cli {
  import opened Wrappers
  import WatchPath
  import opened EventLoop

  /** What the system gives main besides its arguments. */
  datatype Environment = Environment(
    cwd: Option<string>,  // getcwd(), None when it fails
    inotifyOpens: bool,   // inotify_init() returns a descriptor
    watchAdded: bool)     // inotify_add_watch() accepts the directory

  /** The lines main and the loop write: usage text, log lines and progress lines. */
  datatype Output =
    | Usage                                          // "Usage: in-trigger command [pattern]"
    | InotifyReady                                   // "Inotify instance initialized ..."
    | WatchAdded(pattern: Option<string>, path: string) // "Watch pattern ... added for ..."
    | Progress(line: Line)                           // written by process_events
    | Stopped(path: string)                          // "Stopped watching ..."

  /** How the process ends, if it does. */
  datatype Termination = Exit(code: int) | KilledBy(sig: int) | StillWatching

  datatype Session = Session(output: seq<Output>, end: Termination)

  /** The loop's lines as main's output. */
  function Logged(trace: seq<Line>): (out: seq<Output>)
    ensures |out| == |trace|
    ensures forall k | 0 <= k < |trace| :: out[k] == Progress(trace[k])
  {
    seq(|trace|, k requires 0 <= k < |trace| => Progress(trace[k]))
  }

  /** The pattern argument, when there is one. */
  function PatternArgument(argv: seq<string>): Option<string>
  {
    if |argv| == 3 then Some(argv[2]) else None
  }

  /** Whether main gets past the argument checks to the watch. */
  predicate Watches(argv: seq<string>, env: Environment)
  {
    && 1 < |argv| < 4
    && argv[1] != "-h"
    && WatchPath.ResolveAsWritten(PatternArgument(argv), env.cwd).0.Some?
    && env.inotifyOpens
    && env.watchAdded
  }

  /** The whole session of one invocation of the program. */
  function Main(argv: seq<string>, env: Environment, script: seq<Read>, debugBuild: bool): Session
  {
    if !(1 < |argv| < 4) then Session([Usage], Exit(1))
    else if argv[1] == "-h" then Session([Usage], Exit(0))
    else
      var (path, pattern) := WatchPath.ResolveAsWritten(PatternArgument(argv), env.cwd);
      if path.None? then Session([Usage], Exit(1))
      else if !env.inotifyOpens then Session([], Exit(1))
      else if !env.watchAdded then Session([InotifyReady], Exit(1))
      else Watching(path.value, pattern, argv[1], script, debugBuild)
  }

  /** The session once the watch is in place: the set-up lines, the loop's lines, and how the process ends. */
  function Watching(path: string, pattern: Option<string>, command: string, script: seq<Read>, debugBuild: bool): Session
  {
    var r := Dispatch(script, FilterOf(pattern), command, debugBuild);
    var out := [InotifyReady, WatchAdded(pattern, path)] + Logged(r.trace);
    match r.stop
    case Waiting => Session(out, StillWatching)
    case Killed(sig) => Session(out, KilledBy(sig))
    case _ => Session(out + [Stopped(path)], Exit(0))
  }

  /**
   * main as the C code runs it. A failed check prints the usage text and
   * returns 1; open_inotify_fd and add_watch call exit(1) themselves.
   */
  method TriggerMain(argv: seq<string>, env: Environment, script: seq<Read>, debugBuild: bool) returns (s: Session)
    ensures s == Main(argv, env, script, debugBuild)
  {
    if !(|argv| > 1 && |argv| < 4) {
      return Session([Usage], Exit(1));
    }
    if argv[1] == "-h" {
      return Session([Usage], Exit(0));
    }
    var command := argv[1];
    var pattern: Option<string> := None;
    if |argv| == 3 {
      pattern := Some(argv[2]);
    }
    assert pattern == PatternArgument(argv);
    var path;
    path, pattern := WatchPath.DetermineWatchPath(pattern, env.cwd);
    assert (path, pattern) == WatchPath.ResolveAsWritten(PatternArgument(argv), env.cwd);
    if path.None? {
      return Session([Usage], Exit(1));
    }
    if !env.inotifyOpens {
      return Session([], Exit(1));
    }
    var output := [InotifyReady];
    if !env.watchAdded {
      return Session(output, Exit(1));
    }
    assert Main(argv, env, script, debugBuild) == Watching(path.value, pattern, command, script, debugBuild);
    output := output + [WatchAdded(pattern, path.value)];
    var r := ProcessEvents(script, pattern, command, debugBuild);
    output := output + Logged(r.trace);
    assert output == [InotifyReady, WatchAdded(pattern, path.value)] + Logged(r.trace);
    if r.stop.Waiting? {
      return Session(output, StillWatching);
    }
    if r.stop.Killed? {
      return Session(output, KilledBy(r.stop.sig));
    }
    output := output + [Stopped(path.value)];
    s := Session(output, Exit(0));
  }
}
