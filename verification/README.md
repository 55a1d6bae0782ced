# Stepping debugger engine — Dafny model

This project models the stepping engine of a small Python desktop IDE
(`again.py`): the `AdvancedDebugger` object and the `debug_code` /
`debug_step` session driver that calls it. The debugger holds a set of
breakpoint line indices, a cursor naming the next line, an `is_debugging`
flag and an append-only execution history. `step_over` runs one line of the
script, or reports a breakpoint, or reports the end of the script, or reports
the fault a line raised. The driver calls `step_over` repeatedly, through the
Tk event loop, until a result stops it.

Files:

- `line_store.dfy` (module `LineStore`): the script as `code.split('\n')`,
  its inverse `'\n'.join`, and the editor gutter's line count.
- `debugger.dfy` (module `Debugger`): the debugger state, `toggle_breakpoint`
  and `step_over`.
- `driver.dfy` (module `Driver`): `debug_step`'s dispatch, a whole session
  (`Drive`, and the event-loop form `RunSession`), `debug_code`, and the
  session-level properties.
- `scenarios.dfy` (module `Scenarios`): concrete sessions over a stand-in
  interpreter that faults on `1/0`.

Python's `exec` is not modelled. It is a parameter instead, an `Evaluator`
with two functions. `run(env, line)` executes one line against the shared
global environment. It yields either `Ran(env', output)` or
`Fault(env', message)`. A fault carries an environment too, because a line
can change globals before it raises. `observe(env)` stands for the reflection
helpers that take the variables and call-stack snapshot; the snapshot type is
opaque. The global environment is part of the modelled state, because it
persists across steps and across sessions.

The result dispatch in `debug_step` tests `isinstance(result, str)` first.
So the string `"breakpoint"` that `step_over` returns on a breakpoint is
logged as an error, and the session ends. The branch meant to pause and
re-schedule after 1000 ms is never taken. `Driver.Dispatch` keeps the
branches in the source's order and proves the pause tick cannot occur. The
termination proof of `Driver.Drive` relies on that fact: every tick that
schedules another one has advanced the cursor.

Facts about the code that the model keeps:

- A breakpoint ends the session, because its result is a string (again.py:340-342).
- Nothing is recorded at the end of the script or on a fault (again.py:58, 74-76).
- `debug_code` resets only the cursor and the flag, not the history (again.py:330-331).
- Any integer is a valid breakpoint; there is no range check (again.py:31-37).
- `step_over` never reads `is_debugging`; only the driver does (again.py:338).

## Model

| member | source | states |
|---|---|---|
| `LineStore.Lines` | again.py:41 | the script splits into exactly one more line than it has newline characters, and no line contains a newline |
| `LineStore.JoinLines` | again.py:41 | joining the split lines with newlines gives back the script exactly, so splitting loses no text |
| `LineStore.LinesOfJoin` | again.py:41 | splitting a newline-joined list of newline-free lines gives back that list |
| `LineStore.EditorCountsDebuggerLines` | again.py:211-215 | the gutter's line count (newlines + 1) equals the number of lines the debugger steps through; an empty script is one empty line |
| `Debugger.Init` | again.py:22-29 | a new debugger has no breakpoints, cursor 0, debugging off and an empty history |
| `Debugger.ToggleBreakpoint` | again.py:31-37 | the result is true iff the index was absent; that index's membership flips; every other index and every other field is unchanged; any integer is accepted |
| `Debugger.ToggleTwice` | again.py:31-37 | toggling the same index twice restores the debugger exactly, and the two results are opposite |
| `Debugger.StepOver` | again.py:39-76 | `False` iff the cursor is past the last line, and then nothing changes; on a breakpoint the result is "breakpoint", the line is not executed, one record holding the snapshot of the current environment is appended, the flag is set and the cursor stays; on success the result is `True`, one record with the line, its text, its output and the snapshot after it is appended, the cursor moves up by one and the flag is kept; on a fault the message is returned and only the environment may differ; breakpoints are never changed |
| `Debugger.BreakpointRepauses` | again.py:44-54 | stepping twice on a breakpoint pauses twice on the same line, appending two identical records, with the cursor still on that line |
| `Driver.Dispatch` | again.py:340-357 | any string result, "breakpoint" included, ends the session as an error with debugging off; `True` keeps the session going; `False` completes it; the pause branch is never taken |
| `Driver.DebugStep` | again.py:337-357 | a tick that schedules another one executed the line under the cursor, appended its record and advanced the cursor by one; any other tick leaves the cursor, turns debugging off and appends at most the record of the breakpoint that ended it; with debugging off a tick does nothing |
| `Driver.Drive` | again.py:337-359 | every session ends, with debugging off and breakpoints unchanged; it takes at most one tick per remaining line plus one; every tick but the last executed the next line in order; the final cursor is the start cursor plus the number of executed lines |
| `Driver.DriveKeepsHistory` | again.py:337-357 | a session only appends to the history; the new records are for consecutive lines from the starting cursor, each holding that line's text; one record per executed tick plus possibly a final breakpoint record, which happens only if the session ended with the "breakpoint" error |
| `Driver.DebugCode` | again.py:328-359 | a whole session from line 0 keeps the earlier sessions' records at the front of the history, takes at most one tick per line plus one, and ends with debugging off |
| `Driver.RunSession` | again.py:348-359 | the event-loop form, which keeps calling `debug_step` while the last tick scheduled another one, ends in the same state with the same ticks as `Drive` |
| `Driver.RunsToEnd` | again.py:349-357 | with no breakpoint ahead and no fault on the remaining lines as they are run in turn, a session executes every remaining line once, then completes with the cursor at the line count, one record per executed line, and the environment those lines leave |
| `Driver.StopsAtFirstBreakpoint` | again.py:340-342 | with no fault on the lines before the first breakpoint ahead, a session executes them, appends a breakpoint record for that line (with the snapshot of the environment they leave) without running it, and ends there with the "breakpoint" error |
| `Driver.FaultEndsSession` | again.py:55-76 | a faulting line ends the session in one tick with its message; nothing is recorded and the cursor stays |
| `Driver.DebugCodeExecutesEveryLine` | again.py:328-359 | with no breakpoint on any line and every line running without a fault in turn, `debug_code` takes one `Executed` tick per line, reporting lines 1, 2, …, then completes with the cursor at the line count and one new record per line |
| `Scenarios.ThreeLinesRunToEnd` | again.py:328-359 | for `x = 1`, `x = x + 1`, `print(x)` with no breakpoints and an interpreter that faults only on `1/0`, `debug_code` ticks `Executed(1)`, `Executed(2)`, `Executed(3)`, then completes with three records |
| `Scenarios.ThreeLinesStopAtBreakpoint` | again.py:328-359 | the same script with a breakpoint on line 1 executes line 0, records line 1 with the snapshot after line 0, and ends with the "breakpoint" error at cursor 1 |
| `Scenarios.DivisionFaults` | again.py:55-76 | the script `1/0` ends its session in one `Errored("division by zero")` tick with no record and the cursor at 0 |
| `Driver.RestartStopsAgain` | again.py:328-342 | after a session ends on a breakpoint, a second `debug_code` runs again from line 0 and, if the lines before it again run cleanly from the environment the first session left, stops on the same breakpoint; the history keeps the records of both sessions |

## Left out

- All Tk and customtkinter widget classes, the main window, `get_alternate_solution` and the login screen with its credentials. They are presentation and authentication only.
- `run_code`: it executes the whole script once with `exec` and logs the result. It has no stepping logic.
- `exec` itself and the `sys.stdout` redirection. They are replaced by the abstract `Evaluator`. One side effect is not modelled: a faulting line leaves `sys.stdout` redirected.
- `_get_local_variables` and `_get_call_stack`. They use runtime reflection, so the snapshot is the opaque value `observe` returns. In the source the first one reads the helper's own frame, not the script's bindings.
- `datetime.now()` timestamps on history records. They read the wall clock.
- The `main_window.after` delays. They appear only as the constants `PauseDelay` and `StepDelay`, the tags on ticks that reschedule.
- Any UI event between two ticks of a running session: breakpoint toggles, a second Debug Code press, or Run Code. A session is modelled with a fixed breakpoint set and a single chain of ticks. A second Debug Code press while a tick is pending starts a new chain while the old one keeps stepping, and Run Code runs the whole script into the same globals.
- The sharing of globals between the script and the IDE. `exec(line, globals())` runs the script in the IDE module's own namespace. The model assumes the script never rebinds names the engine uses (`datetime`, `sys`, `io`, `inspect`, `debugger`, and others). A line such as `import datetime` would make the later timestamp calls fail, and `debugger.current_line = 5` would move the cursor.
- Lines that never finish, and exceptions that are not an `Exception`. `run` is a total function, so every line either finishes or faults with a message. In the source a line like `while True: pass` never returns, so that session never ends. A line like `exit()` raises `SystemExit`, which is not caught by the `except Exception` at again.py:75 and ends the IDE. So "every session ends" holds only for scripts whose lines finish and raise only `Exception`s.
- The click-to-line mapping in the breakpoint event handler, which is GUI geometry. The handler passes Tk's 1-based line index into the set, while `step_over` compares it with the 0-based cursor. So a click on editor line k pauses before editor line k + 1.
- The console log messages, other than which tick produced them.
