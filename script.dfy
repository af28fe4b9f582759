/** The top level of the summary script: one `try` block that loads the
    report, walks it, renders the summary and publishes it, and one `catch`
    that turns any exception into exit status 1. Reading the file and
    parsing the JSON are not modelled; their result is the `Loaded` input.
    The environment and whether the append to the step-summary file fails
    are parameters. */
module Script {
  import opened CucumberReport
  import opened Aggregation

  /** What line 4 produces: `readFileSync` fails, `JSON.parse` rejects the
      text, the JSON value is not an array (so `report.forEach` at line 10
      is not a function), or the report array itself. */
  datatype Loaded = FileUnreadable | InvalidJson | NotAnArray | Parsed(report: seq<Feature>)

  /** The JavaScript exception classes the script can meet: the system
      error of `readFileSync`/`appendFileSync`, `JSON.parse`'s
      `SyntaxError`, the `TypeError` of calling `forEach` on a non-array, and
      the `ReferenceError` of reading an undeclared variable. */
  datatype Error = SystemError | SyntaxError | TypeError | ReferenceError

  /** Where the summary goes: appended to the step-summary file, or logged. */
  datatype Sink = StepSummaryFile(path: string) | Console

  /** `process.env.GITHUB_STEP_SUMMARY` (None when unset) and whether
      appending to that file would throw. */
  datatype Env = Env(stepSummary: Option<string>, appendFails: bool)

  /** How a run ends: the summary of these totals published to a sink, or
      an exception caught at line 92. */
  datatype Outcome = Published(sink: Sink, summary: Totals) | Crashed(error: Error)

  /** The status `process` ends with: 1 from the `catch` block, and the
      default 0 when the `try` block completes. */
  function ExitCode(o: Outcome): (code: int)
    ensures code == 0 || code == 1
    ensures code == 1 <==> o.Crashed?
  {
    if o.Crashed? then 1 else 0
  }

  /** Line 85: the environment variable selects the file when it is set to
      a non-empty string (an empty string is falsy). */
  function SinkFor(env: Env): (sink: Sink)
    ensures sink.StepSummaryFile? <==> env.stepSummary.Some? && env.stepSummary.value != ""
    ensures sink.StepSummaryFile? ==> sink.path == env.stepSummary.value
  {
    if env.stepSummary.Some? && env.stepSummary.value != "" then StepSummaryFile(env.stepSummary.value)
    else Console
  }

  /** The exception each load failure raises. */
  function LoadError(loaded: Loaded): (e: Error)
    requires !loaded.Parsed?
    ensures loaded.FileUnreadable? <==> e == SystemError
    ensures loaded.InvalidJson? <==> e == SyntaxError
    ensures loaded.NotAnArray? <==> e == TypeError
  {
    match loaded
    case FileUnreadable => SystemError
    case InvalidJson => SyntaxError
    case NotAnArray => TypeError
  }

  /** The script as written. A failed load throws before any counting; a
      parsed report is walked, and then line 47 reads `failureDetails`,
      which no line declares, so every run that gets that far throws a
      `ReferenceError`. The `catch` block therefore runs on every input:
      the exit status is always 1 and no summary is ever published. */
  method Run(loaded: Loaded, env: Env) returns (o: Outcome)
    ensures o.Crashed? && ExitCode(o) == 1
    ensures !loaded.Parsed? ==> o.error == LoadError(loaded)
    ensures loaded.Parsed? ==> o.error == ReferenceError
  {
    if !loaded.Parsed? {
      return Crashed(LoadError(loaded));
    }
    var totals := Summarize(loaded.report);
    // Line 47: `failureDetails` is not declared anywhere.
    return Crashed(ReferenceError);
  }

  /** The script as evidently intended: `failureDetails` is a declared,
      empty list, so the failure dump is skipped and the summary of the
      counted totals is published to the sink the environment selects.
      A parsed report then exits 0 unless the append to the step-summary
      file throws; load failures end as before. */
  method RunFixed(loaded: Loaded, env: Env) returns (o: Outcome)
    ensures !loaded.Parsed? ==> o == Crashed(LoadError(loaded))
    ensures loaded.Parsed? && SinkFor(env).StepSummaryFile? && env.appendFails
            ==> o == Crashed(SystemError)
    ensures loaded.Parsed? && !(SinkFor(env).StepSummaryFile? && env.appendFails)
            ==> o == Published(SinkFor(env), Aggregate(loaded.report))
    ensures ExitCode(o) == 0 <==> loaded.Parsed? && !(SinkFor(env).StepSummaryFile? && env.appendFails)
  {
    if !loaded.Parsed? {
      return Crashed(LoadError(loaded));
    }
    var totals := Summarize(loaded.report);
    // With `failureDetails` declared empty, the dump of lines 47-83 is skipped.
    var sink := SinkFor(env);
    if sink.StepSummaryFile? && env.appendFails {
      return Crashed(SystemError);
    }
    return Published(sink, totals);
  }
}
