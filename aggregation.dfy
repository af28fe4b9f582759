/** The counting pass of the summary script: five counters and a duration
    total accumulated over features, their scenarios and their steps.
    The specification gives, counter by counter, what each nesting level
    adds: prefix-recursive functions that say what a counter has gained
    after the first n items of that level. The methods are the script's
    nested `forEach` callbacks, proved to end with exactly those values. */
module Aggregation {
  import opened CucumberReport

  /** The six counters of lines 6-8. */
  datatype Counter =
    | ScenariosPassed | ScenariosFailed
    | StepsPassed | StepsFailed | StepsSkipped
    | TotalDuration

  /** The values of the six counters. */
  datatype Totals = Totals(
    scenariosPassed: int,
    scenariosFailed: int,
    stepsPassed: int,
    stepsFailed: int,
    stepsSkipped: int,
    totalDuration: int)
  {
    /** The value of one counter. */
    function Get(c: Counter): int {
      match c
      case ScenariosPassed => scenariosPassed
      case ScenariosFailed => scenariosFailed
      case StepsPassed => stepsPassed
      case StepsFailed => stepsFailed
      case StepsSkipped => stepsSkipped
      case TotalDuration => totalDuration
    }
  }

  /** What one step adds to counter `c`: its duration to the total,
      whatever its status, and one to the step counter its status names. */
  function StepAdds(s: Step, c: Counter): int {
    match c
    case TotalDuration => DurationOf(s)
    case StepsPassed => if s.status == Some(Passed) then 1 else 0
    case StepsFailed => if s.status == Some(Failed) then 1 else 0
    case StepsSkipped => if s.status == Some(Skipped) then 1 else 0
    case _ => 0
  }

  /** What the first |steps| steps of one scenario add to counter `c`. */
  function StepsAdd(steps: seq<Step>, c: Counter): int {
    if steps == [] then 0
    else StepsAdd(steps[..|steps| - 1], c) + StepAdds(steps[|steps| - 1], c)
  }

  /** The scenario's `failed` flag after walking `steps`: it starts false
      and is set by any step whose status is "failed". */
  function FailedFlag(steps: seq<Step>): bool {
    if steps == [] then false
    else FailedFlag(steps[..|steps| - 1]) || steps[|steps| - 1].status == Some(Failed)
  }

  /** What one scenario adds to counter `c`: what its steps add (none when
      `steps` is missing), and one to the scenario counter its `failed`
      flag selects. */
  function ScenarioAdds(sc: Scenario, c: Counter): int {
    match c
    case ScenariosPassed => if FailedFlag(StepsOf(sc)) then 0 else 1
    case ScenariosFailed => if FailedFlag(StepsOf(sc)) then 1 else 0
    case _ => StepsAdd(StepsOf(sc), c)
  }

  /** What the first |scs| scenarios of one feature add to counter `c`. */
  function ScenariosAdd(scs: seq<Scenario>, c: Counter): int {
    if scs == [] then 0
    else ScenariosAdd(scs[..|scs| - 1], c) + ScenarioAdds(scs[|scs| - 1], c)
  }

  /** Counter `c` after walking the first |report| features from zero. */
  function Tally(report: seq<Feature>, c: Counter): int {
    if report == [] then 0
    else Tally(report[..|report| - 1], c) + ScenariosAdd(ElementsOf(report[|report| - 1]), c)
  }

  /** All six counters after walking the whole report. */
  function Aggregate(report: seq<Feature>): Totals {
    Totals(Tally(report, ScenariosPassed), Tally(report, ScenariosFailed),
           Tally(report, StepsPassed), Tally(report, StepsFailed),
           Tally(report, StepsSkipped), Tally(report, TotalDuration))
  }

  /** Steps never add to the scenario counters. */
  lemma {:induction false} StepsAddNoScenarios(steps: seq<Step>)
    ensures StepsAdd(steps, ScenariosPassed) == 0 && StepsAdd(steps, ScenariosFailed) == 0
  {
    if steps != [] {
      StepsAddNoScenarios(steps[..|steps| - 1]);
    }
  }

  /** Walking one more step. */
  lemma StepsSnoc(steps: seq<Step>, k: nat)
    requires k < |steps|
    ensures forall c :: StepsAdd(steps[..k + 1], c) == StepsAdd(steps[..k], c) + StepAdds(steps[k], c)
    ensures FailedFlag(steps[..k + 1]) == (FailedFlag(steps[..k]) || steps[k].status == Some(Failed))
  {
    assert steps[..k + 1][..k] == steps[..k];
  }

  /** Walking one more scenario. */
  lemma ScenariosSnoc(scs: seq<Scenario>, j: nat)
    requires j < |scs|
    ensures forall c :: ScenariosAdd(scs[..j + 1], c) == ScenariosAdd(scs[..j], c) + ScenarioAdds(scs[j], c)
  {
    assert scs[..j + 1][..j] == scs[..j];
  }

  /** Walking one more feature. */
  lemma FeaturesSnoc(report: seq<Feature>, i: nat)
    requires i < |report|
    ensures forall c :: Tally(report[..i + 1], c) == Tally(report[..i], c) + ScenariosAdd(ElementsOf(report[i]), c)
  {
    assert report[..i + 1][..i] == report[..i];
  }

  /** The callback `scenario => { ... }`: a fresh `failed` flag, a walk
      over the scenario's steps (none when `steps` is missing) that adds
      every duration and bumps the counter named by the status, then one to
      the scenario counter the flag selects. The counters it shares with its
      caller are passed in and handed back. */
  method WalkScenario(sc: Scenario, counters: Totals) returns (updated: Totals)
    ensures forall c :: updated.Get(c) == counters.Get(c) + ScenarioAdds(sc, c)
  {
    updated := counters;
    var failed := false;
    var steps := StepsOf(sc);
    var k := 0;
    while k < |steps|
      invariant k <= |steps|
      invariant forall c :: updated.Get(c) == counters.Get(c) + StepsAdd(steps[..k], c)
      invariant failed == FailedFlag(steps[..k])
    {
      var step := steps[k];
      StepsSnoc(steps, k);
      updated := updated.(totalDuration := updated.totalDuration + DurationOf(step));
      if step.status == Some(Passed) {
        updated := updated.(stepsPassed := updated.stepsPassed + 1);
      } else if step.status == Some(Failed) {
        updated := updated.(stepsFailed := updated.stepsFailed + 1);
        failed := true;
      } else if step.status == Some(Skipped) {
        updated := updated.(stepsSkipped := updated.stepsSkipped + 1);
      }
      k := k + 1;
    }
    assert steps[..k] == steps;
    StepsAddNoScenarios(steps);
    if failed {
      updated := updated.(scenariosFailed := updated.scenariosFailed + 1);
    } else {
      updated := updated.(scenariosPassed := updated.scenariosPassed + 1);
    }
  }

  /** The callback `feature => { ... }`: every scenario of the feature in
      order (none when `elements` is missing), on the shared counters. */
  method WalkFeature(f: Feature, counters: Totals) returns (updated: Totals)
    ensures forall c :: updated.Get(c) == counters.Get(c) + ScenariosAdd(ElementsOf(f), c)
  {
    updated := counters;
    var scenarios := ElementsOf(f);
    var j := 0;
    while j < |scenarios|
      invariant j <= |scenarios|
      invariant forall c :: updated.Get(c) == counters.Get(c) + ScenariosAdd(scenarios[..j], c)
    {
      ScenariosSnoc(scenarios, j);
      updated := WalkScenario(scenarios[j], updated);
      j := j + 1;
    }
    assert scenarios[..j] == scenarios;
  }

  /** Lines 6-26: all counters start at zero and `report.forEach` hands
      them to every feature in order. */
  method Summarize(report: seq<Feature>) returns (counters: Totals)
    ensures counters == Aggregate(report)
  {
    counters := Totals(0, 0, 0, 0, 0, 0);
    var i := 0;
    while i < |report|
      invariant i <= |report|
      invariant forall c :: counters.Get(c) == Tally(report[..i], c)
    {
      FeaturesSnoc(report, i);
      counters := WalkFeature(report[i], counters);
      i := i + 1;
    }
    assert report[..i] == report;
  }
}
