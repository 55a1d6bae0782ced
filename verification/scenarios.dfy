/**
  Concrete sessions over a small stand-in interpreter. Its environment
  counts the lines run so far, and it faults on exactly one line, `1/0`, with
  Python's message. It shows that the session lemmas apply to an interpreter
  that can fault, as long as the lines actually run do not.
 */
module Scenarios {
  import LineStore
  import opened Debugger
  import opened Driver

  const DivisionByZero: string := "division by zero"

  function Counting(): Evaluator<int, int>
  {
    Evaluator(
      (env: int, line: string) =>
        if line == "1/0" then Fault(env, DivisionByZero) else Ran(env + 1, ""),
      (env: int) => env)
  }

  const ThreeLines: string := "x = 1\nx = x + 1\nprint(x)"

  /** The three-line script splits into its three statements. */
  lemma ThreeLinesSplit()
    ensures LineStore.Lines(ThreeLines) == ["x = 1", "x = x + 1", "print(x)"]
  {
    var parts := ["x = 1", "x = x + 1", "print(x)"];
    assert LineStore.Join(parts) == ThreeLines;
    LineStore.LinesOfJoin(parts);
  }

  /**
    With no breakpoints, `debug_code` on a script of the three lines of
    `ThreeLines` executes lines 0, 1 and 2 and completes, although the
    interpreter can fault.
   */
  lemma ThreeLinesRunToEnd(code: string)
    requires LineStore.Lines(code) == ["x = 1", "x = x + 1", "print(x)"]
    ensures var r := DebugCode(Counting(), Init<int, int>(0), code);
            && r.ticks == [Executed(1), Executed(2), Executed(3), Completed]
            && r.final.cursor == 3
            && |r.final.history| == 3
            && r.final.env == 3
  {
    var lines := LineStore.Lines(code);
    assert RunsClean(Counting(), 2, lines, 2, 3);
    assert RunsClean(Counting(), 1, lines, 1, 3);
    assert RunsClean(Counting(), 0, lines, 0, 3);
    DebugCodeExecutesEveryLine(Counting(), Init<int, int>(0), code);
    RunsToEnd(Counting(), StartSession(Init<int, int>(0)), code);
    assert EnvAfter(Counting(), 2, lines, 2, 3) == 3;
    assert EnvAfter(Counting(), 1, lines, 1, 3) == 3;
  }

  /**
    With a breakpoint on line 1, `debug_code` on the same script executes
    line 0, records line 1 without running it, and ends with the
    "breakpoint" error.
   */
  lemma ThreeLinesStopAtBreakpoint(code: string)
    requires LineStore.Lines(code) == ["x = 1", "x = x + 1", "print(x)"]
    ensures var d := ToggleBreakpoint(Init<int, int>(0), 1).next;
            var r := DebugCode(Counting(), d, code);
            && r.ticks == [Executed(1), Errored(BreakpointResult)]
            && r.final.cursor == 1
            && |r.final.history| == 2
            && r.final.history[1] == Entry(1, "x = x + 1", None, 1)
  {
    var lines := LineStore.Lines(code);
    var d := ToggleBreakpoint(Init<int, int>(0), 1).next;
    assert RunsClean(Counting(), 0, lines, 0, 1);
    StopsAtFirstBreakpoint(Counting(), StartSession(d), code, 1);
    DriveKeepsHistory(Counting(), StartSession(d), code);
    assert EnvAfter(Counting(), 0, lines, 0, 1) == 1;
  }

  /** The script `1/0` ends its session at once with the fault's message and no record. */
  lemma DivisionFaults()
    ensures var r := DebugCode(Counting(), Init<int, int>(0), "1/0");
            && r.ticks == [Errored(DivisionByZero)]
            && r.final.history == []
            && r.final.cursor == 0
  {
    assert LineStore.Join(["1/0"]) == "1/0";
    LineStore.LinesOfJoin(["1/0"]);
    FaultEndsSession(Counting(), StartSession(Init<int, int>(0)), "1/0");
  }
}
