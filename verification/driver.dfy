/**
  The session driver: `debug_code` starts a session over the editor's text and
  `debug_step` calls `step_over` once, reports the result and, for some results,
  schedules itself again with `main_window.after`. A session is the chain of
  ticks from the start until a tick that schedules nothing.

  The dispatch in the source tests `isinstance(result, str)` first, so the
  string "breakpoint" is reported as an error and ends the session; the
  branch that would pause and re-schedule after a longer delay is never taken.
  Every tick that schedules another has advanced the cursor, so every session
  ends after at most one tick per remaining line, plus one.
 */
module Driver {
  import LineStore
  import opened Debugger

  /** What one call of `debug_step` reports to the console. */
  datatype Tick =
    | Errored(message: string)  // a string result: logged as an error, session over
    | Paused(line: nat)         // the breakpoint branch, rescheduled after `PauseDelay`
    | Executed(line: nat)       // a `True` result, rescheduled after `StepDelay`; `line` is the advanced cursor
    | Completed                 // a `False` result: "Debugging complete!", session over
    | Inactive                  // `is_debugging` was already false: nothing happens

  /** Milliseconds before the next tick (`main_window.after`). */
  const PauseDelay: nat := 1000
  const StepDelay: nat := 100

  /** The debugger after one call of `debug_step`, and what that call reported. */
  datatype Ticked<E, V> = Ticked(next: State<E, V>, tick: Tick)

  /** The delay after which a tick schedules the next one, if it does. */
  function Delay(t: Tick): (r: Option<nat>)
    ensures r.Some? <==> t.Paused? || t.Executed?
    ensures t.Paused? ==> r == Some(PauseDelay)
    ensures t.Executed? ==> r == Some(StepDelay)
  {
    match t
    case Paused(_) => Some(PauseDelay)
    case Executed(_) => Some(StepDelay)
    case _ => None
  }

  /**
    The branches of `debug_step` on the result of `step_over`, in the source's
    order. Any string, including "breakpoint", ends the session.
   */
  function Dispatch<E, V>(d: State<E, V>, result: StepResult): (r: Ticked<E, V>)
    ensures !r.tick.Paused?
    ensures r.tick.Errored? <==> result.Text?
    ensures result.Text? ==> r.tick.message == result.s
    ensures r.tick.Executed? <==> result == Flag(true)
    ensures r.tick.Completed? <==> result == Flag(false)
    ensures r.next == d.(debugging := r.next.debugging)
    ensures r.next.debugging <==> r.tick.Executed? && d.debugging
  {
    if result.Text? then Ticked(d.(debugging := false), Errored(result.s))
    else if result == Text(BreakpointResult) then Ticked(d, Paused(d.cursor))
    else if result.b then Ticked(d, Executed(d.cursor))
    else Ticked(d.(debugging := false), Completed)
  }

  /** `debug_step`: one tick of the session over the script `code`. */
  function DebugStep<E, V>(ev: Evaluator<E, V>, d: State<E, V>, code: string): (r: Ticked<E, V>)
    ensures !d.debugging ==> r == Ticked(d, Inactive)
    ensures r.tick.Executed? ==> d.cursor < |LineStore.Lines(code)| && r.next.cursor == d.cursor + 1 == r.tick.line
    ensures !r.tick.Executed? ==> r.next.cursor == d.cursor && !r.next.debugging
    ensures Delay(r.tick).Some? <==> r.tick.Executed?
    ensures r.tick.Completed? <==> d.debugging && d.cursor >= |LineStore.Lines(code)|
    ensures r.next.breakpoints == d.breakpoints
    // an executed tick adds the record of the line it ran
    ensures r.tick.Executed? ==>
              && AppendedOne(d.history, r.next.history)
              && r.next.history[|d.history|].line == d.cursor
              && r.next.history[|d.history|].code == LineStore.Lines(code)[d.cursor]
              && r.next.history[|d.history|].output.Some?
    // a final tick adds nothing, or the record of the breakpoint that ended the session
    ensures !r.tick.Executed? ==>
              || r.next.history == d.history
              || (&& AppendedOne(d.history, r.next.history)
                  && d.cursor < |LineStore.Lines(code)|
                  && r.next.history[|d.history|].line == d.cursor
                  && r.next.history[|d.history|].code == LineStore.Lines(code)[d.cursor]
                  && r.next.history[|d.history|].output.None?
                  && r.tick == Errored(BreakpointResult))
  {
    if d.debugging then
      var step := StepOver(ev, d, code);
      Dispatch(step.next, step.result)
    else
      Ticked(d, Inactive)
  }

  /** The number of lines the cursor can still advance over. */
  function Remaining<E, V>(d: State<E, V>, code: string): nat
  {
    var n := |LineStore.Lines(code)|;
    if d.cursor < n then n - d.cursor else 0
  }

  /** The end of a session: the final debugger and the ticks it took. */
  datatype Run<E, V> = Run(final: State<E, V>, ticks: seq<Tick>)

  /** True when the history `after` extends `before`. */
  ghost predicate Extends<V>(before: seq<Entry<V>>, after: seq<Entry<V>>)
  {
    |before| <= |after| && after[..|before|] == before
  }

  /**
    True when every record past `from` in `h` is for the line after the
    previous one, starting at `start`, and holds that line's text.
   */
  ghost predicate ConsecutiveRecords<V>(h: seq<Entry<V>>, from: nat, start: nat, lines: seq<string>)
    requires from <= |h|
  {
    forall k :: from <= k < |h| ==>
      && h[k].line == start + (k - from)
      && h[k].line < |lines|
      && h[k].code == lines[h[k].line]
  }

  /**
    A session from `d`: ticks are taken while each one schedules the next.
    It always ends, with debugging off and the breakpoints untouched; every
    tick but the last executed the line under the cursor and advanced it.
   */
  function Drive<E, V>(ev: Evaluator<E, V>, d: State<E, V>, code: string): (r: Run<E, V>)
    ensures !r.final.debugging
    ensures r.final.breakpoints == d.breakpoints
    ensures |r.ticks| >= 1 && !r.ticks[|r.ticks| - 1].Executed?
    ensures forall k :: 0 <= k < |r.ticks| - 1 ==> r.ticks[k] == Executed(d.cursor + k + 1)
    ensures |r.ticks| <= Remaining(d, code) + 1
    ensures r.final.cursor == d.cursor + |r.ticks| - 1
    decreases Remaining(d, code)
  {
    var step := DebugStep(ev, d, code);
    if Delay(step.tick).Some? then
      var rest := Drive(ev, step.next, code);
      Run(rest.final, [step.tick] + rest.ticks)
    else
      Run(step.next, [step.tick])
  }

  /**
    The records a session adds to `before`, ending in `after`, given the ticks
    it took from cursor `start`: the history only grows; the new records are
    for consecutive lines from `start`, each with that line's text; there is
    one per executed tick, plus possibly one breakpoint record at the end, in
    which case the session ended with the "breakpoint" error.
   */
  ghost predicate SessionRecords<V>(before: seq<Entry<V>>, start: nat, ticks: seq<Tick>,
                                    after: seq<Entry<V>>, lines: seq<string>)
  {
    && |ticks| >= 1
    && Extends(before, after)
    && ConsecutiveRecords(after, |before|, start, lines)
    && |after| - |before| in {|ticks| - 1, |ticks|}
    && (forall k :: |before| <= k < |before| + |ticks| - 1 ==> after[k].output.Some?)
    && (|after| == |before| + |ticks| ==>
          && after[|after| - 1].output.None?
          && ticks[|ticks| - 1] == Errored(BreakpointResult))
  }

  /** An executed line's record followed by the rest of a session's records. */
  lemma RecordsExtend<V>(h0: seq<Entry<V>>, h1: seq<Entry<V>>, h2: seq<Entry<V>>, c: nat,
                         t: Tick, ticks: seq<Tick>, lines: seq<string>)
    requires AppendedOne(h0, h1) && c < |lines|
    requires h1[|h0|].line == c && h1[|h0|].code == lines[c] && h1[|h0|].output.Some?
    requires SessionRecords(h1, c + 1, ticks, h2, lines)
    ensures SessionRecords(h0, c, [t] + ticks, h2, lines)
  {
    var n := |h0|;
    assert h2[..n + 1] == h1;
    assert h2[..n] == h1[..n];
    assert h2[n] == h1[n];
    var all := [t] + ticks;
    assert all[|all| - 1] == ticks[|ticks| - 1];
  }

  /** The records every session adds, as `SessionRecords` describes them. */
  lemma {:induction false} DriveKeepsHistory<E, V>(ev: Evaluator<E, V>, d: State<E, V>, code: string)
    ensures var r := Drive(ev, d, code);
            SessionRecords(d.history, d.cursor, r.ticks, r.final.history, LineStore.Lines(code))
    decreases Remaining(d, code)
  {
    var step := DebugStep(ev, d, code);
    var d', t := step.next, step.tick;
    DriveUnfolds(ev, d, code);
    if Delay(t).Some? {
      DriveKeepsHistory(ev, d', code);
      var rest := Drive(ev, d', code);
      RecordsExtend(d.history, d'.history, rest.final.history, d.cursor, t, rest.ticks, LineStore.Lines(code));
    } else {
      assert Drive(ev, d, code) == Run(d', [t]);
    }
  }

  /** What `debug_code` does before the first tick: the history is kept. */
  function StartSession<E, V>(d: State<E, V>): (s: State<E, V>)
    ensures s.debugging && s.cursor == 0
    ensures s.history == d.history && s.breakpoints == d.breakpoints && s.env == d.env
  {
    d.(debugging := true, cursor := 0)
  }

  /**
    `debug_code`: a whole session from line 0. The records of earlier
    sessions stay at the front of the history.
   */
  function DebugCode<E, V>(ev: Evaluator<E, V>, d: State<E, V>, code: string): (r: Run<E, V>)
    ensures !r.final.debugging && r.final.breakpoints == d.breakpoints
    ensures |r.ticks| <= |LineStore.Lines(code)| + 1
    ensures SessionRecords(d.history, 0, r.ticks, r.final.history, LineStore.Lines(code))
  {
    DriveKeepsHistory(ev, StartSession(d), code);
    Drive(ev, StartSession(d), code)
  }

  /** One tick of a session, then the rest of it. */
  lemma DriveUnfolds<E, V>(ev: Evaluator<E, V>, d: State<E, V>, code: string)
    ensures var step := DebugStep(ev, d, code);
            Drive(ev, d, code) ==
              if Delay(step.tick).Some? then
                Run(Drive(ev, step.next, code).final, [step.tick] + Drive(ev, step.next, code).ticks)
              else Run(step.next, [step.tick])
  {
  }

  /** Taking one more tick keeps the rest of a session in step with the whole of it. */
  lemma SessionAdvances<E, V>(ev: Evaluator<E, V>, d: State<E, V>, cur: State<E, V>, code: string, ticks: seq<Tick>)
    requires Drive(ev, d, code).final == Drive(ev, cur, code).final
    requires Drive(ev, d, code).ticks == ticks + Drive(ev, cur, code).ticks
    ensures var step := DebugStep(ev, cur, code);
            if Delay(step.tick).Some? then
              && Drive(ev, d, code).final == Drive(ev, step.next, code).final
              && Drive(ev, d, code).ticks == (ticks + [step.tick]) + Drive(ev, step.next, code).ticks
              && Remaining(step.next, code) < Remaining(cur, code)
            else
              Drive(ev, d, code) == Run(step.next, ticks + [step.tick])
  {
    var step := DebugStep(ev, cur, code);
    DriveUnfolds(ev, cur, code);
    var rest := Drive(ev, step.next, code);
    if Delay(step.tick).Some? {
      assert ticks + ([step.tick] + rest.ticks) == (ticks + [step.tick]) + rest.ticks;
    }
  }

  /**
    The session as the event loop runs it: call `debug_step`, and call it
    again for as long as the last tick scheduled another.
   */
  method RunSession<E, V>(ev: Evaluator<E, V>, d: State<E, V>, code: string)
    returns (final: State<E, V>, ticks: seq<Tick>)
    ensures Run(final, ticks) == Drive(ev, d, code)
  {
    final := d;
    ticks := [];
    var pending := true;
    while pending
      invariant pending ==> Drive(ev, d, code).final == Drive(ev, final, code).final
      invariant pending ==> Drive(ev, d, code).ticks == ticks + Drive(ev, final, code).ticks
      invariant !pending ==> Drive(ev, d, code) == Run(final, ticks)
      decreases pending, Remaining(final, code)
    {
      var step := DebugStep(ev, final, code);
      SessionAdvances(ev, d, final, code, ticks);
      ticks := ticks + [step.tick];
      final := step.next;
      pending := Delay(step.tick).Some?;
    }
  }

  /**
    True when the lines `from` up to (excluding) `to` of `lines`, run one
    after another from the environment `env`, each run without a fault.
   */
  ghost predicate RunsClean<E, V>(ev: Evaluator<E, V>, env: E, lines: seq<string>, from: nat, to: nat)
    decreases if from < to then to - from else 0
  {
    from >= to ||
      (&& from < |lines|
       && ev.run(env, lines[from]).Ran?
       && RunsClean(ev, ev.run(env, lines[from]).env, lines, from + 1, to))
  }

  /** The environment after running those lines. */
  ghost function EnvAfter<E, V>(ev: Evaluator<E, V>, env: E, lines: seq<string>, from: nat, to: nat): E
    requires RunsClean(ev, env, lines, from, to)
    decreases if from < to then to - from else 0
  {
    if from >= to then env
    else EnvAfter(ev, ev.run(env, lines[from]).env, lines, from + 1, to)
  }

  /** True when no breakpoint lies in the lines `from` up to (excluding) `to`. */
  ghost predicate NoBreakpointsBetween<E, V>(d: State<E, V>, from: int, to: int)
  {
    forall i :: from <= i < to ==> i !in d.breakpoints
  }

  /**
    With no breakpoint ahead and no fault on the remaining lines, a session
    executes every remaining line once, in order, and then completes with
    the cursor at the line count.
   */
  lemma {:induction false} RunsToEnd<E, V>(ev: Evaluator<E, V>, d: State<E, V>, code: string)
    requires d.debugging && d.cursor <= |LineStore.Lines(code)|
    requires NoBreakpointsBetween(d, d.cursor, |LineStore.Lines(code)|)
    requires RunsClean(ev, d.env, LineStore.Lines(code), d.cursor, |LineStore.Lines(code)|)
    ensures var r := Drive(ev, d, code);
            && r.final.cursor == |LineStore.Lines(code)|
            && |r.ticks| == |LineStore.Lines(code)| - d.cursor + 1
            && r.ticks[|r.ticks| - 1] == Completed
            && |r.final.history| == |d.history| + |LineStore.Lines(code)| - d.cursor
            && r.final.env == EnvAfter(ev, d.env, LineStore.Lines(code), d.cursor, |LineStore.Lines(code)|)
    decreases Remaining(d, code)
  {
    var lines := LineStore.Lines(code);
    var step := DebugStep(ev, d, code);
    if d.cursor < |lines| {
      assert ev.run(d.env, lines[d.cursor]).Ran?;
      assert step.tick.Executed?;
      RunsToEnd(ev, step.next, code);
    } else {
      assert step.tick == Completed;
    }
  }

  /**
    With no fault on the lines before it, a session stops on the first
    breakpoint at or after the cursor: the lines before it are executed, the
    breakpoint line is recorded but not run, and the session ends with the
    "breakpoint" error.
   */
  lemma {:induction false} StopsAtFirstBreakpoint<E, V>(ev: Evaluator<E, V>, d: State<E, V>, code: string, b: nat)
    requires d.debugging && d.cursor <= b < |LineStore.Lines(code)|
    requires b in d.breakpoints && NoBreakpointsBetween(d, d.cursor, b)
    requires RunsClean(ev, d.env, LineStore.Lines(code), d.cursor, b)
    ensures var r := Drive(ev, d, code);
            && r.final.cursor == b
            && r.ticks[|r.ticks| - 1] == Errored(BreakpointResult)
            && |r.final.history| == |d.history| + b - d.cursor + 1
            && r.final.history[|r.final.history| - 1].line == b
            && r.final.history[|r.final.history| - 1].output.None?
            && r.final.history[|r.final.history| - 1].variables == ev.observe(r.final.env)
            && r.final.env == EnvAfter(ev, d.env, LineStore.Lines(code), d.cursor, b)
    decreases b - d.cursor
  {
    var lines := LineStore.Lines(code);
    var step := DebugStep(ev, d, code);
    if d.cursor < b {
      assert ev.run(d.env, lines[d.cursor]).Ran?;
      assert step.tick.Executed?;
      StopsAtFirstBreakpoint(ev, step.next, code, b);
    } else {
      assert step.tick == Errored(BreakpointResult);
    }
  }

  /** A line that faults ends the session at once, with nothing recorded. */
  lemma FaultEndsSession<E, V>(ev: Evaluator<E, V>, d: State<E, V>, code: string)
    requires d.debugging && d.cursor < |LineStore.Lines(code)| && d.cursor !in d.breakpoints
    requires ev.run(d.env, LineStore.Lines(code)[d.cursor]).Fault?
    ensures var r := Drive(ev, d, code);
            && r.ticks == [Errored(ev.run(d.env, LineStore.Lines(code)[d.cursor]).message)]
            && r.final.history == d.history
            && r.final.cursor == d.cursor
  {
  }

  /**
    `debug_code` on a script with no breakpoint on any of its lines, whose
    lines all run without a fault, executes exactly one tick per line, then
    completes.
   */
  lemma DebugCodeExecutesEveryLine<E, V>(ev: Evaluator<E, V>, d: State<E, V>, code: string)
    requires NoBreakpointsBetween(d, 0, |LineStore.Lines(code)|)
    requires RunsClean(ev, d.env, LineStore.Lines(code), 0, |LineStore.Lines(code)|)
    ensures var r := DebugCode(ev, d, code);
            && |r.ticks| == |LineStore.Lines(code)| + 1
            && (forall k :: 0 <= k < |LineStore.Lines(code)| ==> r.ticks[k] == Executed(k + 1))
            && r.ticks[|LineStore.Lines(code)|] == Completed
            && r.final.cursor == |LineStore.Lines(code)|
            && |r.final.history| == |d.history| + |LineStore.Lines(code)|
  {
    RunsToEnd(ev, StartSession(d), code);
  }

  /**
    Since a breakpoint ends the session, the only way past it is a new
    `debug_code`, which starts again from line 0 and, when the lines before
    the breakpoint run cleanly both times (the second time from the
    environment the first session left), stops on the same breakpoint again;
    each of the two sessions adds the records of the lines up to and
    including the breakpoint.
   */
  lemma RestartStopsAgain<E, V>(ev: Evaluator<E, V>, d: State<E, V>, code: string, b: nat)
    requires b < |LineStore.Lines(code)| && b in d.breakpoints && NoBreakpointsBetween(d, 0, b)
    requires RunsClean(ev, d.env, LineStore.Lines(code), 0, b)
    requires RunsClean(ev, EnvAfter(ev, d.env, LineStore.Lines(code), 0, b), LineStore.Lines(code), 0, b)
    ensures var first := DebugCode(ev, d, code);
            var second := DebugCode(ev, first.final, code);
            && first.final.cursor == b && second.final.cursor == b
            && first.ticks[|first.ticks| - 1] == Errored(BreakpointResult)
            && second.ticks[|second.ticks| - 1] == Errored(BreakpointResult)
            && |second.final.history| == |d.history| + 2 * (b + 1)
  {
    StopsAtFirstBreakpoint(ev, StartSession(d), code, b);
    var first := DebugCode(ev, d, code);
    StopsAtFirstBreakpoint(ev, StartSession(first.final), code, b);
  }
}
