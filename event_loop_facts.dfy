/** What the runs of process_events promise, whatever the script. */
module EventLoopFacts {
  import opened Wrappers
  import opened Events
  import Glob
  import opened EventLoop

  lemma {:induction false} RunsAppend(a: seq<Line>, b: seq<Line>)
    ensures Runs(a + b) == Runs(a) + Runs(b)
    decreases |a|
  {
    if a == [] {
      assert a + b == b;
    } else {
      var head := if a[0].Executing? then [a[0].name] else [];
      assert (a + b)[0] == a[0] && (a + b)[1..] == a[1..] + b;
      assert Runs(a + b) == head + Runs(a[1..] + b);
      RunsAppend(a[1..], b);
      assert head + (Runs(a[1..]) + Runs(b)) == head + Runs(a[1..]) + Runs(b);
    }
  }

  lemma AcceptedCons(script: seq<Read>, accepts: Filter, n: nat)
    requires 1 <= n <= |script|
    ensures Accepted(script[..n], accepts) ==
      Accepted([script[0]], accepts) + Accepted(script[1..][..n - 1], accepts)
  {
    var p := script[..n];
    assert p[0] == script[0] && p[1..] == script[1..][..n - 1];
    assert [script[0]][1..] == [];
  }

  /**
   * The runs of a run of the loop over `script`: the command ran once for
   * every record the filter accepted, in order, up to where the loop stopped,
   * and for no other; only a record whose unknown mask aborts a debug build
   * is accepted without a run, and it is the last read consumed.
   */
  predicate RunsFollowAccepted(script: seq<Read>, r: Run, accepts: Filter, debugBuild: bool)
    requires r.consumed <= |script|
  {
    && (r.stop != Killed(SIGABRT) ==> Runs(r.trace) == Accepted(script[..r.consumed], accepts))
    && (r.stop == Killed(SIGABRT) ==>
          && 1 <= r.consumed
          && Runs(r.trace) == Accepted(script[..r.consumed - 1], accepts)
          && script[r.consumed - 1].Record?
          && accepts(script[r.consumed - 1].event)
          && Aborts(script[r.consumed - 1].event, debugBuild))
  }

  /** What one pass's lines record as runs, and when it is the debug assert that stops it. */
  predicate PassRuns(read: Read, s: Step, accepts: Filter, debugBuild: bool)
  {
    && Runs(s.lines) ==
         (if read.Record? && accepts(read.event) && !Aborts(read.event, debugBuild)
          then [read.event.name.value] else [])
    && (s.stop == Some(Killed(SIGABRT)) <==>
         read.Record? && accepts(read.event) && Aborts(read.event, debugBuild))
  }

  /** A pass that stops the loop accounts for the runs of the first read. */
  lemma StopRuns(script: seq<Read>, s: Step, accepts: Filter, debugBuild: bool)
    requires script != [] && PassRuns(script[0], s, accepts, debugBuild) && s.stop.Some?
    ensures RunsFollowAccepted(script, Run(s.lines + Epilogue(s.stop.value), s.stop.value, 1), accepts, debugBuild)
  {
    var read := script[0];
    NoRuns(Epilogue(s.stop.value));
    RunsAppend(s.lines, Epilogue(s.stop.value));
    assert script[..1] == [read];
    assert [read][1..] == [];
    assert Accepted([read], accepts) ==
      (if read.Record? && accepts(read.event) then [read.event.name.value] else []);
    assert Accepted(script[..0], accepts) == [];
  }

  /** A pass that goes round again, followed by the rest of the run, keeps runs and accepted records in step. */
  lemma GoOnRuns(script: seq<Read>, s: Step, rest: Run, accepts: Filter, debugBuild: bool)
    requires script != [] && PassRuns(script[0], s, accepts, debugBuild) && s.stop.None?
    requires rest.consumed <= |script| - 1
    requires RunsFollowAccepted(script[1..], rest, accepts, debugBuild)
    ensures RunsFollowAccepted(script, Run(s.lines + rest.trace, rest.stop, rest.consumed + 1), accepts, debugBuild)
  {
    var read := script[0];
    var n := rest.consumed + 1;
    RunsAppend(s.lines, rest.trace);
    assert [read][1..] == [];
    assert Accepted([read], accepts) ==
      (if read.Record? && accepts(read.event) then [read.event.name.value] else []);
    if rest.stop == Killed(SIGABRT) {
      AcceptedCons(script, accepts, n - 1);
      assert script[1..][rest.consumed - 1] == script[n - 1];
    } else {
      AcceptedCons(script, accepts, n);
    }
  }

  /**
   * The command runs once for every record the filter accepts, in order, up
   * to where the loop stops, and for no other; only the record whose unknown
   * mask aborts a debug build is accepted without a run.
   */
  lemma {:induction false} RunsAreAccepted(script: seq<Read>, accepts: Filter, command: string, debugBuild: bool)
    ensures RunsFollowAccepted(script, Dispatch(script, accepts, command, debugBuild), accepts, debugBuild)
    decreases |script|
  {
    if script != [] {
      var s := Handle(script[0], accepts, command, debugBuild);
      HandleRuns(script[0], accepts, command, debugBuild);
      if s.stop.Some? {
        StopRuns(script, s, accepts, debugBuild);
      } else {
        RunsAreAccepted(script[1..], accepts, command, debugBuild);
        GoOnRuns(script, s, Dispatch(script[1..], accepts, command, debugBuild), accepts, debugBuild);
      }
    }
  }

  /**
   * The loop handles reads until the first that does not let it go round
   * again, and that read decides why it stops; it is still waiting exactly
   * when every read lets it go round again.
   */
  lemma {:induction false} StopsAtFirst(script: seq<Read>, accepts: Filter, command: string, debugBuild: bool)
    ensures var r := Dispatch(script, accepts, command, debugBuild);
      forall k | 0 <= k < r.consumed && (k < r.consumed - 1 || r.stop.Waiting?) ::
        Continues(script[k], accepts, debugBuild)
    ensures var r := Dispatch(script, accepts, command, debugBuild);
      !r.stop.Waiting? ==>
        && 1 <= r.consumed
        && !Continues(script[r.consumed - 1], accepts, debugBuild)
        && Handle(script[r.consumed - 1], accepts, command, debugBuild).stop == Some(r.stop)
    ensures Dispatch(script, accepts, command, debugBuild).stop.Waiting? <==>
      forall k | 0 <= k < |script| :: Continues(script[k], accepts, debugBuild)
    decreases |script|
  {
    var r := Dispatch(script, accepts, command, debugBuild);
    if script != [] {
      var s := Handle(script[0], accepts, command, debugBuild);
      HandleContinues(script[0], accepts, command, debugBuild);
      if s.stop.None? {
        StopsAtFirst(script[1..], accepts, command, debugBuild);
        forall k | 0 <= k < r.consumed && (k < r.consumed - 1 || r.stop.Waiting?)
          ensures Continues(script[k], accepts, debugBuild)
        {
          if k > 0 {
            assert script[k] == script[1..][k - 1];
          }
        }
        if !r.stop.Waiting? {
          assert script[r.consumed - 1] == script[1..][r.consumed - 2];
        }
        if !(forall k | 0 <= k < |script[1..]| :: Continues(script[1..][k], accepts, debugBuild)) {
          var k :| 0 <= k < |script[1..]| && !Continues(script[1..][k], accepts, debugBuild);
          assert script[k + 1] == script[1..][k];
        }
      }
    }
  }

  /** A line that closes the progress report of a run of the command for `name`. */
  predicate Closes(line: Line, name: string)
  {
    line == Done(name) || (line.InterruptedBy? && line.name == name) || line == Terminating
  }

  /**
   * The output is a sequence of progress reports: every "Executing command"
   * line names the configured command and is followed by its "done." or
   * "Interrupted by signal" line, or by "Terminating ..." when the command
   * could not be launched; every "done." and "Interrupted" line follows the
   * "Executing" line for the same name; "Terminating ..." comes last, and only
   * when process_events returns.
   */
  predicate Reported(trace: seq<Line>, command: string)
  {
    && (forall k | 0 <= k < |trace| && trace[k].Executing? ::
          trace[k].command == command && k + 1 < |trace| && Closes(trace[k + 1], trace[k].name))
    && (forall k | 0 <= k < |trace| && (trace[k].Done? || trace[k].InterruptedBy?) ::
          0 < k && trace[k - 1].Executing? && trace[k - 1].name == trace[k].name)
    && (forall k | 0 <= k < |trace| - 1 :: trace[k] != Terminating)
  }

  /** Concatenating two reports, the first not ending inside a run and the second not starting with a closing line. */
  lemma ReportedAppend(a: seq<Line>, b: seq<Line>, command: string)
    requires Reported(a, command) && Reported(b, command)
    requires a == [] || (!a[|a| - 1].Executing? && a[|a| - 1] != Terminating)
    requires b == [] || !(b[0].Done? || b[0].InterruptedBy?)
    ensures Reported(a + b, command)
  {
  }

  /**
   * The lines of one pass form a report once the epilogue of a stop is added;
   * they never hold "Terminating ..." themselves, and a pass that goes round
   * again ends on "done." or writes nothing.
   */
  predicate PassReported(s: Step, command: string)
  {
    && Reported(s.lines + (if s.stop.Some? then Epilogue(s.stop.value) else []), command)
    && (s.lines == [] || !(s.lines[0].Done? || s.lines[0].InterruptedBy?))
    && (forall k | 0 <= k < |s.lines| :: s.lines[k] != Terminating)
    && (s.stop.None? ==> s.lines == [] || s.lines[|s.lines| - 1].Done?)
  }

  /** A run's trace is a report that does not start with a closing line and ends in "Terminating ..." exactly when process_events returns. */
  predicate RunReported(r: Run, command: string)
  {
    && Reported(r.trace, command)
    && (r.trace == [] || !(r.trace[0].Done? || r.trace[0].InterruptedBy?))
    && ((r.trace != [] && r.trace[|r.trace| - 1] == Terminating) <==> Returns(r.stop))
  }

  // The four shapes of a pass: nothing written, an interrupted command, a
  // command that could not be launched, and a command that completed.

  lemma SilentPassReported(stop: Option<Stop>, command: string)
    ensures PassReported(Step([], stop), command)
  {
  }

  lemma InterruptedPassReported(name: string, command: string, sig: int)
    ensures PassReported(Step([Executing(name, command), InterruptedBy(name, sig)], Some(CommandInterrupted(sig))), command)
  {
  }

  lemma FailedPassReported(name: string, command: string)
    ensures PassReported(Step([Executing(name, command)], Some(CommandFailed)), command)
  {
  }

  lemma DonePassReported(name: string, command: string, sigint: bool)
    ensures PassReported(Finish([Executing(name, command), Done(name)], sigint), command)
  {
  }

  /** Every pass of the loop body writes its lines as PassReported describes. */
  lemma HandleReported(read: Read, accepts: Filter, command: string, debugBuild: bool)
    ensures PassReported(Handle(read, accepts, command, debugBuild), command)
  {
    var s := Handle(read, accepts, command, debugBuild);
    if !(read.Record? && accepts(read.event) && !Aborts(read.event, debugBuild)) {
      SilentPassReported(s.stop, command);
    } else if EndsLoop(read.outcome) {
      InterruptedPassReported(read.event.name.value, command, read.outcome.sig);
    } else if read.outcome.LaunchFailed? {
      FailedPassReported(read.event.name.value, command);
    } else {
      DonePassReported(read.event.name.value, command, read.sigint);
    }
  }

  /** A pass that stops the loop, followed by its epilogue, is a run's report. */
  lemma StopReported(s: Step, command: string)
    requires PassReported(s, command) && s.stop.Some?
    ensures RunReported(Run(s.lines + Epilogue(s.stop.value), s.stop.value, 1), command)
  {
  }

  /** A pass that goes round again, followed by the report of the rest of the run, is a run's report. */
  lemma GoOnReported(s: Step, rest: Run, command: string)
    requires PassReported(s, command) && s.stop.None?
    requires RunReported(rest, command)
    ensures RunReported(Run(s.lines + rest.trace, rest.stop, rest.consumed + 1), command)
  {
    var t := s.lines + rest.trace;
    assert s.lines + [] == s.lines;
    ReportedAppend(s.lines, rest.trace, command);
    if rest.trace == [] {
      assert t == s.lines;
      if t != [] {
        assert t[|t| - 1] == s.lines[|s.lines| - 1];
      }
    } else {
      assert t[|t| - 1] == rest.trace[|rest.trace| - 1];
    }
  }

  /** Every run of process_events writes a well-formed report, ending in "Terminating ..." exactly when it returns. */
  lemma {:induction false} DispatchReported(script: seq<Read>, accepts: Filter, command: string, debugBuild: bool)
    ensures RunReported(Dispatch(script, accepts, command, debugBuild), command)
    decreases |script|
  {
    if script != [] {
      var s := Handle(script[0], accepts, command, debugBuild);
      HandleReported(script[0], accepts, command, debugBuild);
      if s.stop.Some? {
        StopReported(s, command);
      } else {
        DispatchReported(script[1..], accepts, command, debugBuild);
        GoOnReported(s, Dispatch(script[1..], accepts, command, debugBuild), command);
      }
    }
  }

  /** Scripts that differ only in the exit codes their commands return. */
  predicate SameButExitCodes(a: seq<Read>, b: seq<Read>)
  {
    && |a| == |b|
    && forall k | 0 <= k < |a| ::
         a[k] == b[k]
         || (a[k].Record? && b[k].Record? && a[k].event == b[k].event && a[k].sigint == b[k].sigint
             && a[k].outcome.Exited? && b[k].outcome.Exited?)
  }

  /** The loop does not look at the exit code of the command: any code means "done." and go round again. */
  lemma {:induction false} ExitCodeIgnored(a: seq<Read>, b: seq<Read>, accepts: Filter, command: string, debugBuild: bool)
    requires SameButExitCodes(a, b)
    ensures Dispatch(a, accepts, command, debugBuild) == Dispatch(b, accepts, command, debugBuild)
    decreases |a|
  {
    if a != [] {
      assert Handle(a[0], accepts, command, debugBuild) == Handle(b[0], accepts, command, debugBuild);
      assert forall k | 0 <= k < |a| - 1 :: a[1..][k] == a[k + 1] && b[1..][k] == b[k + 1];
      ExitCodeIgnored(a[1..], b[1..], accepts, command, debugBuild);
    }
  }

  /** Once the loop has stopped, later reads change nothing; while it waits, they continue the same run. */
  lemma {:induction false} LaterReads(script: seq<Read>, more: seq<Read>, accepts: Filter, command: string, debugBuild: bool)
    ensures var r := Dispatch(script, accepts, command, debugBuild);
      !r.stop.Waiting? ==> Dispatch(script + more, accepts, command, debugBuild) == r
    ensures var r := Dispatch(script, accepts, command, debugBuild);
      r.stop.Waiting? ==> (Dispatch(script + more, accepts, command, debugBuild) ==
        Then(r.trace, |script|, Dispatch(more, accepts, command, debugBuild)))
    decreases |script|
  {
    if script == [] {
      assert script + more == more;
      assert [] + Dispatch(more, accepts, command, debugBuild).trace == Dispatch(more, accepts, command, debugBuild).trace;
    } else {
      assert (script + more)[0] == script[0] && (script + more)[1..] == script[1..] + more;
      var s := Handle(script[0], accepts, command, debugBuild);
      if s.stop.None? {
        LaterReads(script[1..], more, accepts, command, debugBuild);
        var rest := Dispatch(script[1..], accepts, command, debugBuild);
        var m := Dispatch(more, accepts, command, debugBuild);
        assert s.lines + (rest.trace + m.trace) == s.lines + rest.trace + m.trace;
      }
    }
  }

  /** With a pattern no reported name matches, the command never runs. */
  lemma NoMatchNoRuns(script: seq<Read>, pattern: string, command: string, debugBuild: bool)
    requires forall k | 0 <= k < |script| && script[k].Record? && script[k].event.name.Some? ::
      !Glob.Matches(pattern, script[k].event.name.value)
    ensures Runs(Dispatch(script, FilterOf(Some(pattern)), command, debugBuild).trace) == []
  {
    var r := Dispatch(script, FilterOf(Some(pattern)), command, debugBuild);
    RunsAreAccepted(script, FilterOf(Some(pattern)), command, debugBuild);
    var n := if r.stop == Killed(SIGABRT) then r.consumed - 1 else r.consumed;
    NoneAccepted(script[..n], pattern);
  }

  lemma {:induction false} NoneAccepted(script: seq<Read>, pattern: string)
    requires forall k | 0 <= k < |script| && script[k].Record? && script[k].event.name.Some? ::
      !Glob.Matches(pattern, script[k].event.name.value)
    ensures Accepted(script, FilterOf(Some(pattern))) == []
    decreases |script|
  {
    if script != [] {
      var read := script[0];
      if read.Record? && read.event.name.Some? {
        ShouldTriggerIsGlob(read.event, pattern);
      }
      assert forall k | 0 <= k < |script[1..]| :: script[1..][k] == script[k + 1];
      NoneAccepted(script[1..], pattern);
    }
  }

}
