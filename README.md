# Cucumber report summary, modelled in Dafny

`generate-summary.js` reads a Cucumber JSON report and counts it. The report
is an array of features. Each feature holds scenarios (`elements`), and each
scenario holds steps. The script counts passed and failed scenarios, counts
passed, failed and skipped steps, and sums the step durations (nanoseconds).
It then renders a markdown summary (lines 29-44). Lines 85-91 would append
that summary to the file named by `GITHUB_STEP_SUMMARY`, or log it when that
variable is not set. As written, line 47 throws first, so every run ends in
the `catch` at lines 92-94 with status 1 and nothing is published (see
Findings).

The model has five modules:

- `CucumberReport` (`cucumber_report.dfy`) holds the report as the script
  reads it. Every field the script reaches through `?.` is an `Option`. The
  status is `Passed`, `Failed`, `Skipped` or `Other`.
- `Aggregation` (`aggregation.dfy`) holds the counting pass of lines 6-26.
  `Summarize` zeroes the counters (lines 6-8) and runs the outer
  `report.forEach` as a `while` loop. Its body is `WalkFeature`, the `feature`
  callback, which loops over the scenarios. Its body in turn is
  `WalkScenario`, the `scenario` callback. The `step` callback (lines 13-23)
  is the body of the loop inside `WalkScenario`. The counters are shared:
  each callback takes them and hands them back. `Summarize`, `WalkFeature`
  and `WalkScenario` are proved to end with the values of `Tally`,
  `ScenariosAdd` and `ScenarioAdds`. Those are prefix-recursive functions
  that say, counter by counter, what each nesting level adds. `FailedFlag` is
  the fold of the scenario's `failed` flag (lines 12 and 21). `Aggregate`
  gathers the six values of `Tally` into the final counters: it is the pure
  specification of lines 6-26 that `Summarize` is proved equal to.
- `Reference` (`reference.dfy`) is an independent flat reading of the report.
  It lists every scenario and every step, counts statuses, sums durations and
  counts the scenarios that have a failed step.
- `Properties` (`properties.dfy`) proves that the nested walk yields exactly
  the flat counts. From that it proves the properties the summary relies on.
- `Script` (`script.dfy`) holds the `try`/`catch` around it all. Its result is
  an `Outcome`: either published totals or a caught exception, each with its
  exit status.

The failure dump at lines 47-83 reads a `failureDetails` list that no line
declares or fills, so the model has no such list (see Findings).

## Model

| member | source | states |
|---|---|---|
| Aggregation.WalkScenario | generate-summary.js:11-25 | The `scenario` callback adds to each counter exactly what the scenario contributes: each step's duration, one to the counter its status names, and one to `scenariosFailed` if some step failed, else to `scenariosPassed`. A missing `steps` list is walked as empty. |
| Aggregation.WalkFeature | generate-summary.js:10-26 | The `feature` callback adds to each counter exactly what all the feature's scenarios add, in order. A missing `elements` list adds nothing. |
| Aggregation.Summarize | generate-summary.js:6-26 | The counters start at zero and, after walking every feature, equal `Aggregate(report)`. |
| Aggregation.StepsAddNoScenarios | generate-summary.js:13-23 | The step callback never touches the scenario counters. |
| Properties.StepBumpsAtMostOne | generate-summary.js:18-22 | One step adds exactly one to the three step counters together if its status is "passed", "failed" or "skipped", and adds nothing otherwise. It never adds to a scenario counter. |
| Properties.FailedFlagMeansFailedStep | generate-summary.js:12-23 | The `failed` flag ends true exactly when some step has status "failed". |
| Properties.ScenarioClassification | generate-summary.js:24 | A scenario is counted failed if and only if it has a failed step, and passed otherwise. Skipped-only, unrecognised-only and step-less scenarios therefore count as passed. |
| Properties.MissingListsAreEmpty | generate-summary.js:11-13 | A missing `steps` list counts like an empty one: one passed scenario and nothing else. A missing `elements` list counts like an empty one: a feature without it, anywhere in the report, adds nothing to any counter. |
| Properties.StepsAddCounts | generate-summary.js:13-22 | Over a scenario's steps, each step counter equals the number of steps with that status, and the duration equals the sum of the durations. |
| Properties.ScenariosAddCounts | generate-summary.js:11-25 | Over a list of scenarios, every counter equals its flat count. Failed scenarios are those with a failed step, passed scenarios are the rest, and the step counters and duration are taken over all their steps. |
| Properties.TallyFlattens | generate-summary.js:10-11 | Walking feature by feature adds the same as walking the flat list of all scenarios in report order. |
| Properties.TallyCounts | generate-summary.js:10-26 | After the walk, each counter equals its flat count over the report. |
| Properties.AggregateCounts | generate-summary.js:6-26 | The main theorem. All six final counters equal the flat counts: scenarios with and without a failed step, steps per status, and the sum of durations. |
| Properties.ScenarioCountsAddUp | generate-summary.js:24 | scenariosPassed + scenariosFailed is the number of scenarios in the report. scenariosFailed is the number of scenarios with a failed step. |
| Properties.StatusesPartition | generate-summary.js:18-22 | Every step has exactly one of: passed, failed, skipped, or unrecognised or missing status. |
| Properties.StepCountsBounded | generate-summary.js:18-22 | stepsPassed + stepsFailed + stepsSkipped is the step count minus the steps with an unrecognised or missing status, so it is at most the step count. |
| Properties.DurationIsExactSum | generate-summary.js:15-16 | totalDuration is the sum of every step's duration whatever its status, a missing duration counting as 0. |
| Properties.FailedScenariosAtMostFailedSteps | generate-summary.js:19-24 | scenariosFailed <= stepsFailed. |
| Properties.TallyAppend | generate-summary.js:10 | Walking a report in two parts adds what each part adds. |
| Properties.CountersNeverDecrease | generate-summary.js:6-26 | Every counter starts at 0. After any prefix of the report it is at least 0 and at most its final value. |
| Properties.NoScenariosAllZero | generate-summary.js:6-11 | A report with no scenarios leaves every counter at 0. This covers an empty report and features without `elements`. |
| Properties.OnePassedOneFailed | generate-summary.js:10-26 | One feature with one scenario holding a passed step and a failed step gives: 0 passed and 1 failed scenario, 1 passed, 1 failed and 0 skipped steps, and the two durations summed. |
| Script.ExitCode | generate-summary.js:92-94 | The exit status is 1 exactly when an exception was caught, and 0 otherwise. |
| Script.SinkFor | generate-summary.js:85-91 | The step-summary file is chosen exactly when `GITHUB_STEP_SUMMARY` is set to a non-empty string, and it is that path. Otherwise the summary goes to the console. |
| Script.LoadError | generate-summary.js:4-10 | A file that cannot be read raises a system error. Invalid JSON raises `SyntaxError`. A JSON value that is not an array raises `TypeError` at `report.forEach`. |
| Script.Run | generate-summary.js:3-94 | As written, every run is caught and exits 1, and nothing is ever published. A load failure gives its own error. A parsed report, the empty one included, gives the `ReferenceError` of line 47. |
| Script.RunFixed | generate-summary.js:85-94 | With `failureDetails` declared empty, a parsed report publishes `Aggregate(report)` to the selected sink and exits 0. It exits 1 only on a load failure or a failing append to the step-summary file. |

## Left out

- Reading the file and parsing the JSON are not modelled. Their three failure modes and their success are the `Loaded` input of `Script.Run`.
- The `toFixed(2)` formatting of `totalDuration / 1e9` is not modelled (line 29), nor is the markdown template (lines 31-44): a published outcome carries the totals, not the text. The comments at lines 15 and 28 say the durations are already in seconds, but the division by 10^9 at line 29 treats them as nanoseconds. They are modelled as nanoseconds.
- The console dump of failure details (lines 48-82) is not modelled: it can only run on a declared, non-empty `failureDetails`, and no such list exists.
- Console messages, `process.exit` and the file append are not modelled as I/O. The exit status is `Script.ExitCode`. The environment variable and whether the append fails are the `Env` parameter.
- Durations that are not non-negative integers are not modelled (strings, negative numbers, fractions). `|| 0` replaces only falsy values, and JavaScript `+=` would concatenate strings.
- Malformed nodes are not modelled: a `null` feature, scenario or step, or a non-array `elements` or `steps`, throws a `TypeError` inside the walk.
- Floating-point rounding is not modelled. JavaScript numbers are doubles, and the counters and sum are exact here. Sums beyond 2^53 would round in the script.
- A status that is not a string is not modelled separately: it behaves like `Other`, since `===` against the three strings is false for it.
- Names, lines, tags and error messages of steps and scenarios are not modelled. The script never reads them outside the dump.
- The counters of `Aggregation.Totals` are `int`, not `nat`. Non-negativity is proved as `Properties.CountersNeverDecrease` rather than carried by the type.

## Findings

| source | as written | input that shows it | evidently intended | confidence | as-written member | corrected member |
|---|---|---|---|---|---|---|
| generate-summary.js:47 | `failureDetails.length` reads a variable that is never declared, so it throws `ReferenceError` after every successful walk. The `catch` then exits 1 without publishing. | the empty report `[]` (or any parsed array), with `GITHUB_STEP_SUMMARY` unset | `failureDetails` is declared (empty, since nothing fills it). The summary is published and the script exits 0. | high, not executed | Script.Run | Script.RunFixed |
