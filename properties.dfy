/** What the counters mean: the nested walk of the summary script, specified
    by `Aggregation.Tally` counter by counter, is related here to the flat
    counts of `Reference`, and the promises of the summary (counts add up,
    failed means some step failed, the duration is an exact sum, missing
    lists are empty, counters only grow) are proved from that relation. */
module Properties {
  import opened CucumberReport
  import opened Aggregation
  import opened Reference

  /** What counter `c` should hold after a list of scenarios, read off the
      flat lists: one passed or failed count per scenario (failed when it
      has a failed step), and per status the number of steps carrying it,
      and the sum of all step durations. */
  function Expected(scs: seq<Scenario>, c: Counter): int {
    var steps := ScenarioSteps(scs);
    match c
    case ScenariosPassed => |scs| - CountFailing(scs)
    case ScenariosFailed => CountFailing(scs)
    case StepsPassed => CountStatus(steps, Passed)
    case StepsFailed => CountStatus(steps, Failed)
    case StepsSkipped => CountStatus(steps, Skipped)
    case TotalDuration => DurationSum(steps)
  }

  // ----- One step, one scenario -----

  /** Each step bumps exactly one step counter when its status is one of
      the three recognised ones and none otherwise, and never a scenario
      counter. */
  lemma StepBumpsAtMostOne(s: Step)
    ensures StepAdds(s, StepsPassed) + StepAdds(s, StepsFailed) + StepAdds(s, StepsSkipped)
            == if Recognised(s.status) then 1 else 0
    ensures StepAdds(s, ScenariosPassed) == 0 && StepAdds(s, ScenariosFailed) == 0
  {
  }

  /** The flag ends true exactly when some step's status is "failed". */
  lemma {:induction false} FailedFlagMeansFailedStep(steps: seq<Step>)
    ensures FailedFlag(steps) <==> exists i :: 0 <= i < |steps| && steps[i].status == Some(Failed)
  {
    if steps != [] {
      var n := |steps| - 1;
      var init := steps[..n];
      FailedFlagMeansFailedStep(init);
      if FailedFlag(init) {
        var i :| 0 <= i < |init| && init[i].status == Some(Failed);
        assert steps[i] == init[i];
      }
      if exists i :: 0 <= i < |steps| && steps[i].status == Some(Failed) {
        var i :| 0 <= i < |steps| && steps[i].status == Some(Failed);
        if i < n {
          assert init[i] == steps[i];
        }
      }
    }
  }

  /** A scenario is counted failed exactly when one of its steps failed,
      and passed otherwise: all-passed, all-skipped, unrecognised-only and
      step-less scenarios all count as passed. */
  lemma ScenarioClassification(sc: Scenario)
    ensures ScenarioAdds(sc, ScenariosFailed) == if HasFailedStep(sc) then 1 else 0
    ensures ScenarioAdds(sc, ScenariosPassed) == if HasFailedStep(sc) then 0 else 1
  {
    FailedFlagMeansFailedStep(StepsOf(sc));
  }

  // ----- Flat counting over concatenations -----

  lemma {:induction false} CountStatusAppend(a: seq<Step>, b: seq<Step>, status: Status)
    ensures CountStatus(a + b, status) == CountStatus(a, status) + CountStatus(b, status)
  {
    if b == [] {
      assert a + b == a;
    } else {
      var n := |b| - 1;
      assert (a + b)[..|a + b| - 1] == a + b[..n];
      CountStatusAppend(a, b[..n], status);
    }
  }

  lemma {:induction false} DurationSumAppend(a: seq<Step>, b: seq<Step>)
    ensures DurationSum(a + b) == DurationSum(a) + DurationSum(b)
  {
    if b == [] {
      assert a + b == a;
    } else {
      var n := |b| - 1;
      assert (a + b)[..|a + b| - 1] == a + b[..n];
      DurationSumAppend(a, b[..n]);
    }
  }

  lemma {:induction false} ScenariosAddAppend(a: seq<Scenario>, b: seq<Scenario>, c: Counter)
    ensures ScenariosAdd(a + b, c) == ScenariosAdd(a, c) + ScenariosAdd(b, c)
  {
    if b == [] {
      assert a + b == a;
    } else {
      var n := |b| - 1;
      assert (a + b)[..|a + b| - 1] == a + b[..n];
      ScenariosAddAppend(a, b[..n], c);
    }
  }

  // ----- The nested walk against the flat counts -----

  /** Over one scenario's steps: each step counter is the number of steps
      with that status and the duration is the exact sum, whatever the
      statuses. */
  lemma {:induction false} StepsAddCounts(steps: seq<Step>, c: Counter)
    ensures c == StepsPassed ==> StepsAdd(steps, c) == CountStatus(steps, Passed)
    ensures c == StepsFailed ==> StepsAdd(steps, c) == CountStatus(steps, Failed)
    ensures c == StepsSkipped ==> StepsAdd(steps, c) == CountStatus(steps, Skipped)
    ensures c == TotalDuration ==> StepsAdd(steps, c) == DurationSum(steps)
  {
    if steps != [] {
      StepsAddCounts(steps[..|steps| - 1], c);
    }
  }

  /** Over a list of scenarios, every counter holds its flat count. */
  lemma {:induction false} ScenariosAddCounts(scs: seq<Scenario>, c: Counter)
    ensures ScenariosAdd(scs, c) == Expected(scs, c)
  {
    if scs != [] {
      var n := |scs| - 1;
      var init, last := scs[..n], scs[n];
      ScenariosAddCounts(init, c);
      ScenarioClassification(last);
      StepsAddCounts(StepsOf(last), c);
      assert ScenarioSteps(scs) == ScenarioSteps(init) + StepsOf(last);
      match c
      case ScenariosPassed =>
      case ScenariosFailed =>
      case StepsPassed => CountStatusAppend(ScenarioSteps(init), StepsOf(last), Passed);
      case StepsFailed => CountStatusAppend(ScenarioSteps(init), StepsOf(last), Failed);
      case StepsSkipped => CountStatusAppend(ScenarioSteps(init), StepsOf(last), Skipped);
      case TotalDuration => DurationSumAppend(ScenarioSteps(init), StepsOf(last));
    }
  }

  /** Walking the features one by one is walking the flat list of all
      their scenarios. */
  lemma {:induction false} TallyFlattens(report: seq<Feature>, c: Counter)
    ensures Tally(report, c) == ScenariosAdd(ReportScenarios(report), c)
  {
    if report != [] {
      var n := |report| - 1;
      TallyFlattens(report[..n], c);
      ScenariosAddAppend(ReportScenarios(report[..n]), ElementsOf(report[n]), c);
    }
  }

  /** Each counter after the walk is its flat count. */
  lemma TallyCounts(report: seq<Feature>, c: Counter)
    ensures Tally(report, c) == Expected(ReportScenarios(report), c)
  {
    TallyFlattens(report, c);
    ScenariosAddCounts(ReportScenarios(report), c);
  }

  /** The main theorem: after the walk, each counter holds the flat count
      it is named after. */
  lemma AggregateCounts(report: seq<Feature>)
    ensures var scs := ReportScenarios(report);
            var steps := ReportSteps(report);
            var t := Aggregate(report);
            && t.scenariosPassed == |scs| - CountFailing(scs)
            && t.scenariosFailed == CountFailing(scs)
            && t.stepsPassed == CountStatus(steps, Passed)
            && t.stepsFailed == CountStatus(steps, Failed)
            && t.stepsSkipped == CountStatus(steps, Skipped)
            && t.totalDuration == DurationSum(steps)
  {
    TallyCounts(report, ScenariosPassed);
    TallyCounts(report, ScenariosFailed);
    TallyCounts(report, StepsPassed);
    TallyCounts(report, StepsFailed);
    TallyCounts(report, StepsSkipped);
    TallyCounts(report, TotalDuration);
  }

  // ----- The promised properties -----

  /** Every scenario is counted exactly once, as passed or as failed;
      a feature without `elements` contributes none. */
  lemma ScenarioCountsAddUp(report: seq<Feature>)
    ensures Aggregate(report).scenariosPassed + Aggregate(report).scenariosFailed
            == |ReportScenarios(report)|
    ensures Aggregate(report).scenariosFailed == CountFailing(ReportScenarios(report))
  {
    AggregateCounts(report);
  }

  /** The three step counters and the unrecognised steps partition the steps. */
  lemma {:induction false} StatusesPartition(steps: seq<Step>)
    ensures CountStatus(steps, Passed) + CountStatus(steps, Failed) + CountStatus(steps, Skipped)
            + CountUnrecognised(steps) == |steps|
  {
    if steps != [] {
      StatusesPartition(steps[..|steps| - 1]);
    }
  }

  /** Each step bumps at most one step counter, and a step with a missing
      or unrecognised status bumps none: the three counters add up to the
      step count less the unrecognised steps, so never more than it. */
  lemma StepCountsBounded(report: seq<Feature>)
    ensures var t := Aggregate(report);
            t.stepsPassed + t.stepsFailed + t.stepsSkipped
            == |ReportSteps(report)| - CountUnrecognised(ReportSteps(report))
    ensures var t := Aggregate(report);
            t.stepsPassed + t.stepsFailed + t.stepsSkipped <= |ReportSteps(report)|
  {
    AggregateCounts(report);
    StatusesPartition(ReportSteps(report));
  }

  /** The duration total is the sum of every step's duration, whatever the
      step's status, a missing duration counting as 0. */
  lemma DurationIsExactSum(report: seq<Feature>)
    ensures Aggregate(report).totalDuration == DurationSum(ReportSteps(report))
  {
    AggregateCounts(report);
  }

  /** A step with status "failed" is counted by `CountStatus`. */
  lemma {:induction false} FailedStepIsCounted(steps: seq<Step>, i: nat)
    requires i < |steps| && steps[i].status == Some(Failed)
    ensures CountStatus(steps, Failed) >= 1
  {
    var n := |steps| - 1;
    if i < n {
      FailedStepIsCounted(steps[..n], i);
    }
  }

  /** Every failing scenario holds at least one failed step. */
  lemma {:induction false} FailingAtMostFailedSteps(scs: seq<Scenario>)
    ensures CountFailing(scs) <= CountStatus(ScenarioSteps(scs), Failed)
  {
    if scs != [] {
      var n := |scs| - 1;
      FailingAtMostFailedSteps(scs[..n]);
      CountStatusAppend(ScenarioSteps(scs[..n]), StepsOf(scs[n]), Failed);
      if HasFailedStep(scs[n]) {
        var i :| 0 <= i < |StepsOf(scs[n])| && StepsOf(scs[n])[i].status == Some(Failed);
        FailedStepIsCounted(StepsOf(scs[n]), i);
      }
    }
  }

  /** There are never more failed scenarios than failed steps. */
  lemma FailedScenariosAtMostFailedSteps(report: seq<Feature>)
    ensures Aggregate(report).scenariosFailed <= Aggregate(report).stepsFailed
  {
    AggregateCounts(report);
    FailingAtMostFailedSteps(ReportScenarios(report));
  }

  /** Walking a report in two parts adds what each part adds. */
  lemma {:induction false} TallyAppend(r: seq<Feature>, s: seq<Feature>, c: Counter)
    ensures Tally(r + s, c) == Tally(r, c) + Tally(s, c)
  {
    if s == [] {
      assert r + s == r;
    } else {
      var n := |s| - 1;
      assert (r + s)[..|r + s| - 1] == r + s[..n];
      TallyAppend(r, s[..n], c);
    }
  }

  /** A missing `steps` list walks like an empty one (one passed scenario,
      nothing else), and a missing `elements` list like an empty one:
      wherever such a feature stands in the report, it adds nothing to any
      counter. Absence is never an error. */
  lemma MissingListsAreEmpty(r: seq<Feature>, s: seq<Feature>, c: Counter)
    ensures ScenarioAdds(Scenario(None), c) == ScenarioAdds(Scenario(Some([])), c)
    ensures ScenarioAdds(Scenario(None), c) == if c == ScenariosPassed then 1 else 0
    ensures Tally(r + [Feature(None)] + s, c) == Tally(r + [Feature(Some([]))] + s, c)
    ensures Tally(r + [Feature(None)] + s, c) == Tally(r + s, c)
  {
    var withNone := r + [Feature(None)];
    var withEmpty := r + [Feature(Some([]))];
    assert withNone[..|withNone| - 1] == r;
    assert withEmpty[..|withEmpty| - 1] == r;
    TallyAppend(withNone, s, c);
    TallyAppend(withEmpty, s, c);
    TallyAppend(r, s, c);
  }

  /** Every counter starts at 0 and never decreases while the features are
      walked: its value after any prefix of the report is at least 0 and at
      most its final value. */
  lemma CountersNeverDecrease(report: seq<Feature>, k: nat, c: Counter)
    requires k <= |report|
    ensures Tally([], c) == 0
    ensures 0 <= Tally(report[..k], c) <= Tally(report, c)
  {
    assert report == report[..k] + report[k..];
    TallyAppend(report[..k], report[k..], c);
    TallyCounts(report[..k], c);
    TallyCounts(report[k..], c);
  }

  /** A report with no scenarios at all (an empty report, or features
      without `elements`) leaves every counter at zero. */
  lemma NoScenariosAllZero(report: seq<Feature>, c: Counter)
    requires ReportScenarios(report) == []
    ensures Tally(report, c) == 0
  {
    TallyCounts(report, c);
  }

  /** One feature, one scenario, a passed step and a failed step: one
      failed scenario, one passed and one failed step. */
  lemma OnePassedOneFailed(d1: nat, d2: nat)
    ensures var step1 := Step(Some(Passed), Some(d1));
            var step2 := Step(Some(Failed), Some(d2));
            var t := Aggregate([Feature(Some([Scenario(Some([step1, step2]))]))]);
            && t.scenariosPassed == 0 && t.scenariosFailed == 1
            && t.stepsPassed == 1 && t.stepsFailed == 1 && t.stepsSkipped == 0
            && t.totalDuration == d1 + d2
  {
    var steps := [Step(Some(Passed), Some(d1)), Step(Some(Failed), Some(d2))];
    assert steps[..1] == [steps[0]];
    assert steps[..1][..0] == [];
    assert FailedFlag(steps);
    forall c ensures StepsAdd(steps, c) == StepAdds(steps[0], c) + StepAdds(steps[1], c) {
      assert StepsAdd(steps[..1], c) == StepAdds(steps[0], c);
    }
    var scs := [Scenario(Some(steps))];
    assert scs[..0] == [];
    var report := [Feature(Some(scs))];
    assert report[..0] == [];
    forall c ensures Tally(report, c) == ScenarioAdds(scs[0], c) {
      assert Tally(report, c) == ScenariosAdd(scs, c);
    }
  }
}
