/**
 * process_events: the loop that waits for inotify records and runs the
 * command once for every record the filter accepts.
 *
 * The kernel, the signal handler and system() are replaced by a script:
 * each element of `script` is what one read() of the inotify descriptor
 * brings (only the first record of a read is ever looked at), together with
 * what system() reports if the command is run for it, and whether a SIGINT
 * reaches the handler while that record is being handled.
 */
module EventLoop {
  import opened Wrappers
  import opened Events

  const SIGINT: int := 2
  const SIGQUIT: int := 3
  const SIGABRT: int := 6

  /** What system(command) reports: a normal exit, death by a signal, or -1. */
  datatype Outcome = Exited(code: int) | Signalled(sig: int) | LaunchFailed

  /** One read() of the inotify descriptor. */
  datatype Read =
    | Record(event: Event, outcome: Outcome, sigint: bool)
    | ReadFailed
    | KilledInRead

  /** The progress lines of the loop, and the "Terminating ..." line logged when it returns. */
  datatype Line =
    | Executing(name: string, command: string)
    | InterruptedBy(name: string, sig: int)
    | Done(name: string)
    | Terminating

  /** Why the loop is no longer running. */
  datatype Stop =
    | Waiting                      // every read was handled; the next read() blocks
    | Interrupted                  // `done` was set by the SIGINT handler
    | CommandInterrupted(sig: int) // the command died of SIGINT or SIGQUIT
    | CommandFailed                // system() returned -1
    | ReadError                    // read() returned a negative length
    | Killed(sig: int)             // the process itself died

  /** The lines written, why the loop stopped, and how many reads it consumed. */
  datatype Run = Run(trace: seq<Line>, stop: Stop, consumed: nat)

  /** The lines one read produces, and the stop it causes, if any. */
  datatype Step = Step(lines: seq<Line>, stop: Option<Stop>)

  /** The names the command was run for, in order. */
  function Runs(trace: seq<Line>): (names: seq<string>)
  {
    if trace == [] then []
    else (if trace[0].Executing? then [trace[0].name] else []) + Runs(trace[1..])
  }

  /** Lines without an Executing line record no run. */
  lemma {:induction false} NoRuns(lines: seq<Line>)
    requires forall k | 0 <= k < |lines| :: !lines[k].Executing?
    ensures Runs(lines) == []
  {
    if lines != [] {
      NoRuns(lines[1..]);
    }
  }

  /** Lines that record no run hold no Executing line. */
  lemma {:induction false} RunsEmpty(lines: seq<Line>)
    requires Runs(lines) == []
    ensures forall k | 0 <= k < |lines| :: !lines[k].Executing?
  {
    if lines != [] {
      RunsEmpty(lines[1..]);
      assert forall k | 1 <= k < |lines| :: lines[k] == lines[1..][k - 1];
    }
  }

  /** An Executing line followed by lines that are not records the one run. */
  lemma OneRun(name: string, command: string, tail: seq<Line>)
    requires forall k | 0 <= k < |tail| :: !tail[k].Executing?
    ensures Runs([Executing(name, command)] + tail) == [name]
  {
    assert ([Executing(name, command)] + tail)[1..] == tail;
    NoRuns(tail);
  }

  /**
   * An event filter. The loop works for any filter that, like should_trigger,
   * accepts only events that carry a name; process_events uses FilterOf.
   */
  type Filter = f: Event -> bool | forall ev :: f(ev) ==> ev.name.Some? witness (ev: Event) => false

  /** should_trigger with the pattern main hands to process_events. */
  function FilterOf(pattern: Option<string>): Filter
  {
    (ev: Event) => ShouldTrigger(ev, pattern)
  }

  /** The names of the records the filter accepts, in order. */
  function Accepted(script: seq<Read>, accepts: Filter): (names: seq<string>)
  {
    if script == [] then []
    else
      var r := script[0];
      (if r.Record? && accepts(r.event) then [r.event.name.value] else [])
        + Accepted(script[1..], accepts)
  }

  /** A debug build evaluates mask2str before the command runs, and its assert aborts on an unknown mask. */
  predicate Aborts(ev: Event, debugBuild: bool)
  {
    debugBuild && MaskToKind(ev.mask).None?
  }

  /** The command outcomes that end the loop with "Interrupted by signal". */
  predicate EndsLoop(o: Outcome)
  {
    o.Signalled? && (o.sig == SIGINT || o.sig == SIGQUIT)
  }

  /**
   * The reads after which the loop goes round again: a record that is
   * rejected, or whose command exits (with any code) or dies of a signal other
   * than SIGINT and SIGQUIT, with no SIGINT caught meanwhile.
   */
  predicate Continues(read: Read, accepts: Filter, debugBuild: bool)
  {
    && read.Record?
    && !read.sigint
    && (!accepts(read.event)
        || (!Aborts(read.event, debugBuild)
            && (read.outcome.Exited? || (read.outcome.Signalled? && !EndsLoop(read.outcome)))))
  }

  /** The stops after which process_events returns and logs "Terminating ...". */
  predicate Returns(stop: Stop)
  {
    stop.Interrupted? || stop.CommandInterrupted? || stop.CommandFailed? || stop.ReadError?
  }

  /** Ends the iteration of a record: the loop stops when the handler has set `done`. */
  function Finish(lines: seq<Line>, sigint: bool): Step
  {
    Step(lines, if sigint then Some(Interrupted) else None)
  }

  /** The progress lines of one pass through the loop body, and the stop it causes, if any. */
  function Handle(read: Read, accepts: Filter, command: string, debugBuild: bool): Step
  {
    match read
    case KilledInRead => Step([], Some(Killed(SIGINT)))
    case ReadFailed => Step([], Some(ReadError))
    case Record(ev, outcome, sigint) =>
      if !accepts(ev) then Finish([], sigint)
      else if Aborts(ev, debugBuild) then Step([], Some(Killed(SIGABRT)))
      else
        var name := ev.name.value;
        if EndsLoop(outcome) then
          Step([Executing(name, command), InterruptedBy(name, outcome.sig)], Some(CommandInterrupted(outcome.sig)))
        else if outcome.LaunchFailed? then
          Step([Executing(name, command)], Some(CommandFailed))
        else
          Finish([Executing(name, command), Done(name)], sigint)
  }

  /** What process_events logs on its way out: "Terminating ..." when it returns, nothing when the process dies. */
  function Epilogue(stop: Stop): seq<Line>
  {
    if Returns(stop) then [Terminating] else []
  }

  /** The whole run of process_events over a script of reads. */
  function Dispatch(script: seq<Read>, accepts: Filter, command: string, debugBuild: bool): (r: Run)
    ensures r.consumed <= |script|
    ensures r.stop.Waiting? ==> r.consumed == |script|
  {
    if script == [] then Run([], Waiting, 0)
    else
      var s := Handle(script[0], accepts, command, debugBuild);
      if s.stop.Some? then Run(s.lines + Epilogue(s.stop.value), s.stop.value, 1)
      else
        var rest := Dispatch(script[1..], accepts, command, debugBuild);
        Run(s.lines + rest.trace, rest.stop, rest.consumed + 1)
  }

  /** The run whose first `consumed` reads wrote `trace`, continued by `rest`. */
  function Then(trace: seq<Line>, consumed: nat, rest: Run): Run
  {
    Run(trace + rest.trace, rest.stop, consumed + rest.consumed)
  }

  /**
   * The body of the loop of process_events, from one read() to the next test
   * of `done`: the lines it writes, and the reason the loop stops, if it does.
   */
  method HandleRead(read: Read, pattern: Option<string>, command: string, debugBuild: bool)
    returns (lines: seq<Line>, stop: Option<Stop>)
    ensures Step(lines, stop) == Handle(read, FilterOf(pattern), command, debugBuild)
  {
    lines := [];
    stop := None;
    if read.KilledInRead? {
      // SIGINT while read() runs with the default disposition.
      return [], Some(Killed(SIGINT));
    }
    if read.ReadFailed? {
      return [], Some(ReadError);
    }
    var ev := read.event;
    if ShouldTrigger(ev, pattern) {
      if debugBuild && MaskToKind(ev.mask).None? {
        return [], Some(Killed(SIGABRT));
      }
      var name := ev.name.value;
      lines := lines + [Executing(name, command)];
      var ret := read.outcome;
      if ret.Signalled? && (ret.sig == SIGINT || ret.sig == SIGQUIT) {
        lines := lines + [InterruptedBy(name, ret.sig)];
        return lines, Some(CommandInterrupted(ret.sig));
      }
      if ret.LaunchFailed? {
        return lines, Some(CommandFailed);
      }
      lines := lines + [Done(name)];
    }
    if read.sigint {
      stop := Some(Interrupted);
    }
  }

  /**
   * The loop invariant of ProcessEvents carried over the pass through read i:
   * `goal` is the run of the whole script, `trace` the lines written before
   * read i, and (lines, halt) what the pass writes and whether it stops.
   */
  lemma Advance(script: seq<Read>, i: nat, trace: seq<Line>, lines: seq<Line>, halt: Option<Stop>, goal: Run,
                accepts: Filter, command: string, debugBuild: bool)
    requires i < |script|
    requires Step(lines, halt) == Handle(script[i], accepts, command, debugBuild)
    requires goal == Then(trace, i, Dispatch(script[i..], accepts, command, debugBuild))
    ensures halt.None? ==> goal == Then(trace + lines, i + 1, Dispatch(script[i + 1..], accepts, command, debugBuild))
    ensures halt.Some? ==> goal == Run(trace + lines + Epilogue(halt.value), halt.value, i + 1)
  {
  }

  /**
   * process_events as the C code runs it: `done` is the flag the SIGINT
   * handler sets, and every way out of the loop but the process's own death
   * reaches the `error:` label and logs "Terminating ...".
   */
  method ProcessEvents(script: seq<Read>, pattern: Option<string>, command: string, debugBuild: bool)
    returns (r: Run)
    ensures r == Dispatch(script, FilterOf(pattern), command, debugBuild)
  {
    var done := false;
    var i := 0;
    var trace: seq<Line> := [];
    var stop := Interrupted;
    ghost var accepts := FilterOf(pattern);
    ghost var goal := Dispatch(script, accepts, command, debugBuild);
    assert script[0..] == script;
    while !done
      invariant 0 <= i <= |script|
      invariant !done ==> goal == Then(trace, i, Dispatch(script[i..], accepts, command, debugBuild))
      invariant done ==> stop == Interrupted && goal == Run(trace + [Terminating], Interrupted, i)
      decreases |script| - i
    {
      if i == |script| {
        // read() blocks for ever: the script is exhausted.
        assert script[i..] == [];
        assert trace + [] == trace;
        return Run(trace, Waiting, i);
      }
      var lines, halt := HandleRead(script[i], pattern, command, debugBuild);
      Advance(script, i, trace, lines, halt, goal, accepts, command, debugBuild);
      trace := trace + lines;
      i := i + 1;
      if halt.Some? {
        stop := halt.value;
        if stop.Killed? {
          assert trace + [] == trace;
          return Run(trace, stop, i);
        }
        if !stop.Interrupted? {
          break;
        }
        done := true;
      }
    }
    trace := trace + [Terminating];
    r := Run(trace, stop, i);
  }

  /** One pass goes round again exactly for the reads Continues describes. */
  lemma HandleContinues(read: Read, accepts: Filter, command: string, debugBuild: bool)
    ensures Handle(read, accepts, command, debugBuild).stop.None? <==> Continues(read, accepts, debugBuild)
  {
  }

  /**
   * How a pass stops the loop: a failed read, a command that system() could
   * not launch, one that died of SIGINT or SIGQUIT, and a SIGINT caught by the
   * handler leave through the `error:` label and its "Terminating ..." line;
   * a SIGINT during read() and the debug assert kill the process instead.
   */
  lemma HandleStops(read: Read, accepts: Filter, command: string, debugBuild: bool)
    ensures var stop := Handle(read, accepts, command, debugBuild).stop;
      read.ReadFailed? ==> stop == Some(ReadError)
    ensures var stop := Handle(read, accepts, command, debugBuild).stop;
      read.KilledInRead? ==> stop == Some(Killed(SIGINT))
    ensures var stop := Handle(read, accepts, command, debugBuild).stop;
      read.Record? && accepts(read.event) && !Aborts(read.event, debugBuild) ==>
        && (read.outcome.LaunchFailed? ==> stop == Some(CommandFailed))
        && (EndsLoop(read.outcome) ==> stop == Some(CommandInterrupted(read.outcome.sig)))
    ensures var stop := Handle(read, accepts, command, debugBuild).stop;
      read.Record? && read.sigint && Continues(Record(read.event, read.outcome, false), accepts, debugBuild) ==>
        stop == Some(Interrupted)
    ensures var stop := Handle(read, accepts, command, debugBuild).stop;
      stop.Some? ==>
        (Returns(stop.value) <==>
          !(read.KilledInRead? || (read.Record? && accepts(read.event) && Aborts(read.event, debugBuild))))
  {
  }

  /**
   * One pass runs the command exactly for an accepted record, unless the
   * debug assert aborts first, and only that assert stops it with SIGABRT.
   */
  lemma HandleRuns(read: Read, accepts: Filter, command: string, debugBuild: bool)
    ensures Runs(Handle(read, accepts, command, debugBuild).lines) ==
      if read.Record? && accepts(read.event) && !Aborts(read.event, debugBuild)
      then [read.event.name.value] else []
    ensures Handle(read, accepts, command, debugBuild).stop == Some(Killed(SIGABRT)) <==>
      read.Record? && accepts(read.event) && Aborts(read.event, debugBuild)
  {
    var s := Handle(read, accepts, command, debugBuild);
    if read.Record? && accepts(read.event) && !Aborts(read.event, debugBuild) {
      var name := read.event.name.value;
      assert s.lines[0] == Executing(name, command);
      OneRun(name, command, s.lines[1..]);
      assert s.lines == [Executing(name, command)] + s.lines[1..];
    } else {
      NoRuns(s.lines);
    }
  }
}
