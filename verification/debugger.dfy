/**
  The stepping debugger engine (`AdvancedDebugger` in again.py): a breakpoint
  set, a cursor naming the next line, a debugging flag and an append-only
  execution history, advanced one line of the script at a time.

  The Python interpreter is not modelled. Running one line is delegated to an
  `Evaluator`: `run` executes a line against the shared global environment and
  either succeeds with the new environment and the text the line printed, or
  faults with a message (and with whatever the line had already changed in the
  environment before it raised). `observe` stands for the reflection helpers
  that take a snapshot of variables and call stack; the snapshot is opaque.
 */
module Debugger {
  import LineStore

  datatype Option<T> = None | Some(value: T)

  /** What executing one line with `exec` does. */
  datatype Outcome<E> =
    | Ran(env: E, output: string)
    | Fault(env: E, message: string)

  datatype Evaluator<!E, V> = Evaluator(run: (E, string) -> Outcome<E>, observe: E -> V)

  /**
    One record of `execution_history`. `output` is absent for a breakpoint
    record, which the source writes without an 'output' key.
   */
  datatype Entry<V> = Entry(line: nat, code: string, output: Option<string>, variables: V)

  /** `step_over` returns either a boolean or a string. */
  datatype StepResult = Flag(b: bool) | Text(s: string)

  const BreakpointResult: string := "breakpoint"

  /**
    The debugger object together with the interpreter's global environment,
    which persists across steps and across sessions. `view` is the last
    snapshot taken (the `variables` and `call_stack` attributes).
   */
  datatype State<E, V> = State(
    breakpoints: set<int>,
    cursor: nat,
    debugging: bool,
    history: seq<Entry<V>>,
    view: Option<V>,
    env: E)

  /** The debugger after `toggle_breakpoint`, and whether the line is now a breakpoint. */
  datatype Toggled<E, V> = Toggled(next: State<E, V>, isSet: bool)

  /** The debugger after `step_over`, and what the call returned. */
  datatype Step<E, V> = Step(next: State<E, V>, result: StepResult)

  /** A freshly constructed debugger. */
  function Init<E, V>(env: E): (d: State<E, V>)
    ensures d.breakpoints == {} && d.cursor == 0 && !d.debugging && d.history == []
  {
    State({}, 0, false, [], None, env)
  }

  /**
    `toggle_breakpoint`: flips the membership of `line` and reports whether the
    line is now a breakpoint. Any integer is accepted, without a range check.
   */
  function ToggleBreakpoint<E, V>(d: State<E, V>, line: int): (r: Toggled<E, V>)
    ensures r.isSet <==> line !in d.breakpoints
    ensures line in r.next.breakpoints <==> line !in d.breakpoints
    ensures forall k :: k != line ==> (k in r.next.breakpoints <==> k in d.breakpoints)
    ensures r.next == d.(breakpoints := r.next.breakpoints)
  {
    if line in d.breakpoints then Toggled(d.(breakpoints := d.breakpoints - {line}), false)
    else Toggled(d.(breakpoints := d.breakpoints + {line}), true)
  }

  /** Toggling the same index twice restores the debugger exactly. */
  lemma ToggleTwice<E, V>(d: State<E, V>, line: int)
    ensures ToggleBreakpoint(ToggleBreakpoint(d, line).next, line).next == d
    ensures ToggleBreakpoint(ToggleBreakpoint(d, line).next, line).isSet == !ToggleBreakpoint(d, line).isSet
  {
    var once := ToggleBreakpoint(d, line).next;
    var twice := ToggleBreakpoint(once, line).next;
    assert twice.breakpoints == d.breakpoints;
  }

  /** True when `after` is `before` with exactly one record added at the end. */
  ghost predicate AppendedOne<V>(before: seq<Entry<V>>, after: seq<Entry<V>>)
  {
    |after| == |before| + 1 && after[..|before|] == before
  }

  /**
    `step_over`: one step on the script `code`.
    - Past the last line the result is `False` and nothing changes.
    - On a breakpoint the line is not executed: a record is written, the
      cursor stays, and the result is the string "breakpoint".
    - Otherwise the line is executed; on success a record with its output is
      written, the cursor moves on and the result is `True`; on a fault the
      result is the fault message and only the environment may have changed,
      because the record and the increment come after `exec`.
   */
  function StepOver<E, V>(ev: Evaluator<E, V>, d: State<E, V>, code: string): (r: Step<E, V>)
    // what never changes
    ensures r.next.breakpoints == d.breakpoints
    ensures r.next.history == d.history || AppendedOne(d.history, r.next.history)
    ensures r.next.cursor == d.cursor || r.next.cursor == d.cursor + 1
    // the result tells which of the four cases happened
    ensures r.result == Flag(false) <==> d.cursor >= |LineStore.Lines(code)|
    ensures r.result == Flag(false) ==> r.next == d
    ensures r.result == Flag(true) <==> r.next.cursor == d.cursor + 1
    ensures r.result.Text? ==> r.next.cursor == d.cursor
    ensures d.cursor < |LineStore.Lines(code)| && d.cursor in d.breakpoints ==>
              && r.result == Text(BreakpointResult)
              && r.next.debugging
              && r.next.env == d.env
              && AppendedOne(d.history, r.next.history)
              && r.next.history[|d.history|].variables == ev.observe(d.env)
    // a record is written exactly when the cursor names a line that was
    // either paused on or executed without fault
    ensures AppendedOne(d.history, r.next.history) <==>
              r.result == Flag(true) || (d.cursor < |LineStore.Lines(code)| && d.cursor in d.breakpoints)
    ensures AppendedOne(d.history, r.next.history) ==>
              var e := r.next.history[|d.history|];
              && e.line == d.cursor
              && e.code == LineStore.Lines(code)[d.cursor]
              && (e.output.None? <==> d.cursor in d.breakpoints)
              && r.next.view == Some(e.variables)
    // an executed line's record carries what `exec` printed and the snapshot after it
    ensures r.result == Flag(true) ==>
              var o := ev.run(d.env, LineStore.Lines(code)[d.cursor]);
              && o.Ran?
              && r.next.env == o.env
              && r.next.debugging == d.debugging
              && r.next.history[|d.history|].output == Some(o.output)
              && r.next.history[|d.history|].variables == ev.observe(o.env)
    // a fault changes nothing but the environment, and reports the message
    ensures r.result.Text? && d.cursor !in d.breakpoints ==>
              var o := ev.run(d.env, LineStore.Lines(code)[d.cursor]);
              && o.Fault?
              && r.result.s == o.message
              && r.next == d.(env := o.env)
  {
    var lines := LineStore.Lines(code);
    if d.cursor < |lines| then
      var line := lines[d.cursor];
      if d.cursor in d.breakpoints then
        var snapshot := ev.observe(d.env);
        var entry := Entry(d.cursor, line, None, snapshot);
        Step(d.(debugging := true, view := Some(snapshot), history := d.history + [entry]),
             Text(BreakpointResult))
      else
        match ev.run(d.env, line)
        case Fault(env', message) => Step(d.(env := env'), Text(message))
        case Ran(env', output) =>
          var snapshot := ev.observe(env');
          var entry := Entry(d.cursor, line, Some(output), snapshot);
          Step(d.(env := env', view := Some(snapshot), history := d.history + [entry], cursor := d.cursor + 1),
               Flag(true))
    else
      Step(d, Flag(false))
  }

  /**
    Stepping again on a breakpoint pauses again on the same line: the cursor
    never gets past a breakpoint by `step_over` alone, and each call adds one
    more record for that line.
   */
  lemma BreakpointRepauses<E, V>(ev: Evaluator<E, V>, d: State<E, V>, code: string)
    requires d.cursor < |LineStore.Lines(code)| && d.cursor in d.breakpoints
    ensures var first := StepOver(ev, d, code);
            var second := StepOver(ev, first.next, code);
            && second.result == Text(BreakpointResult)
            && second.next.cursor == d.cursor
            && |second.next.history| == |d.history| + 2
            && second.next.history[|d.history|] == second.next.history[|d.history| + 1]
  {
  }
}
