/** An independent reading of what the summary counts: flatten the report
    into the list of its scenarios and the list of their steps, then count
    and add up over those flat lists. The lemmas in `Properties` show that
    the script's nested walk ends with exactly these numbers. */
module Reference {
  import opened CucumberReport

  /** Every scenario of the report, feature by feature, in report order. */
  function ReportScenarios(report: seq<Feature>): (scs: seq<Scenario>)
    ensures report == [] ==> scs == []
  {
    if report == [] then []
    else ReportScenarios(report[..|report| - 1]) + ElementsOf(report[|report| - 1])
  }

  /** Every step of the given scenarios, scenario by scenario, in order. */
  function ScenarioSteps(scs: seq<Scenario>): (steps: seq<Step>)
    ensures scs == [] ==> steps == []
  {
    if scs == [] then []
    else ScenarioSteps(scs[..|scs| - 1]) + StepsOf(scs[|scs| - 1])
  }

  /** Every step of the report. */
  function ReportSteps(report: seq<Feature>): seq<Step> {
    ScenarioSteps(ReportScenarios(report))
  }

  /** How many of the steps carry exactly this status. */
  function CountStatus(steps: seq<Step>, status: Status): (n: nat)
    ensures n <= |steps|
  {
    if steps == [] then 0
    else CountStatus(steps[..|steps| - 1], status)
         + (if steps[|steps| - 1].status == Some(status) then 1 else 0)
  }

  /** How many of the steps have a missing status or one the script does
      not recognise. */
  function CountUnrecognised(steps: seq<Step>): (n: nat)
    ensures n <= |steps|
  {
    if steps == [] then 0
    else CountUnrecognised(steps[..|steps| - 1])
         + (if Recognised(steps[|steps| - 1].status) then 0 else 1)
  }

  /** The sum of the step durations, an absent one counting as 0. */
  function DurationSum(steps: seq<Step>): nat {
    if steps == [] then 0
    else DurationSum(steps[..|steps| - 1]) + DurationOf(steps[|steps| - 1])
  }

  /** Some step of the scenario has status "failed". */
  predicate HasFailedStep(sc: Scenario) {
    exists i :: 0 <= i < |StepsOf(sc)| && StepsOf(sc)[i].status == Some(Failed)
  }

  /** How many of the scenarios have a failed step. */
  function CountFailing(scs: seq<Scenario>): (n: nat)
    ensures n <= |scs|
  {
    if scs == [] then 0
    else CountFailing(scs[..|scs| - 1]) + (if HasFailedStep(scs[|scs| - 1]) then 1 else 0)
  }
}
