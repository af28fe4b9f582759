/** The parsed Cucumber JSON report, as far as the summary script reads it.
    Every field the script reaches through optional chaining (`?.`) may be
    absent, so each one is an Option here. */
module CucumberReport {

  datatype Option<+T> = None | Some(value: T)

  /** A step's `result.status`: the three strings the script compares it
      with ("passed", "failed", "skipped"), and `Other` for every other
      value, which the script never tells apart. */
  datatype Status = Passed | Failed | Skipped | Other

  /** One step: `result.status` and `result.duration` (nanoseconds), each
      absent when the step has no `result` or the field is missing. */
  datatype Step = Step(status: Option<Status>, duration: Option<nat>)

  /** One scenario (an entry of a feature's `elements`) with its `steps`. */
  datatype Scenario = Scenario(steps: Option<seq<Step>>)

  /** One feature of the top-level report array, with its `elements`. */
  datatype Feature = Feature(elements: Option<seq<Scenario>>)

  /** `step.result?.duration || 0`: an absent duration and a zero duration
      both contribute nothing. */
  function DurationOf(s: Step): nat {
    if s.duration.Some? then s.duration.value else 0
  }

  /** `scenario.steps?.forEach`: a missing list is walked as an empty one. */
  function StepsOf(sc: Scenario): seq<Step> {
    if sc.steps.Some? then sc.steps.value else []
  }

  /** `feature.elements?.forEach`: a missing list is walked as an empty one. */
  function ElementsOf(f: Feature): seq<Scenario> {
    if f.elements.Some? then f.elements.value else []
  }

  /** Whether a status is one of the three the script counts. */
  predicate Recognised(status: Option<Status>) {
    status == Some(Passed) || status == Some(Failed) || status == Some(Skipped)
  }
}
