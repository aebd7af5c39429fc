/** What the accounts of a casebook run always add up to, and what its verdict means. */
module QualityAccounts {
  import opened Common
  import opened Durations
  import opened MemoryRecords
  import opened Phrases
  import opened Quality

  // ----- Totals over everything recorded -----

  function MissingIn(queries: seq<QueryResult>): nat {
    if queries == [] then 0 else MissingIn(queries[..|queries| - 1]) + |queries[|queries| - 1].missing|
  }

  function LeakedIn(queries: seq<QueryResult>): nat {
    if queries == [] then 0 else LeakedIn(queries[..|queries| - 1]) + |queries[|queries| - 1].forbiddenFound|
  }

  function MissingOver(done: seq<ScenarioResult>): nat {
    if done == [] then 0 else MissingOver(done[..|done| - 1]) + MissingIn(done[|done| - 1].queries)
  }

  function LeakedOver(done: seq<ScenarioResult>): nat {
    if done == [] then 0 else LeakedOver(done[..|done| - 1]) + LeakedIn(done[|done| - 1].queries)
  }

  function TotalMissing(r: Run): nat { MissingOver(r.done) + MissingIn(r.current.queries) }

  function TotalLeaked(r: Run): nat { LeakedOver(r.done) + LeakedIn(r.current.queries) }

  function RequiredIn(answered: seq<QualityQuery>): nat {
    if answered == [] then 0 else RequiredIn(answered[..|answered| - 1]) + |answered[|answered| - 1].required|
  }

  function ForbiddenIn(answered: seq<QualityQuery>): nat {
    if answered == [] then 0 else ForbiddenIn(answered[..|answered| - 1]) + |answered[|answered| - 1].forbidden|
  }

  function Searches(calls: seq<Call>): nat {
    if calls == [] then 0 else Searches(calls[..|calls| - 1]) + if calls[|calls| - 1].Search? then 1 else 0
  }

  // ----- The invariant of a run -----

  ghost predicate Balanced(r: Run) {
    && r.metrics.assertions == RequiredIn(r.answered) + ForbiddenIn(r.answered)
    && r.metrics.requiredFacts == RequiredIn(r.answered)
    && r.metrics.forbiddenLeakage == TotalLeaked(r) <= ForbiddenIn(r.answered)
    && r.metrics.assertions == r.metrics.passedAssertions + TotalMissing(r) + r.metrics.forbiddenLeakage
    && r.metrics.requiredFacts == r.metrics.recalledFacts + TotalMissing(r)
    && 0 <= r.metrics.recalledFacts
    && |r.durations| == Searches(r.calls)
  }

  /** A scenario passes exactly when it met no error and none of its queries missed or leaked anything. */
  ghost predicate HonestScenario(sc: ScenarioResult) {
    sc.pass <==> sc.error.None? && MissingIn(sc.queries) + LeakedIn(sc.queries) == 0
  }

  ghost predicate HonestRun(r: Run) {
    && (forall k :: 0 <= k < |r.done| ==> HonestScenario(r.done[k]))
    && HonestScenario(r.current)
    && (r.pass <==> forall k :: 0 <= k < |r.done| ==> r.done[k].pass)
  }

  ghost predicate Accounted(r: Run) { Balanced(r) && HonestRun(r) }

  lemma RecordedBalanced(r: Run, q: QualityQuery, result: QueryResult)
    requires Balanced(r) && |result.missing| <= |q.required| && |result.forbiddenFound| <= |q.forbidden|
    ensures Balanced(Recorded(r, q, result))
  {
    hide Searches, MissingOver, LeakedOver;
    var t := Recorded(r, q, result);
    assert t.answered[..|r.answered|] == r.answered;
    assert t.current.queries[..|r.current.queries|] == r.current.queries;
  }

  lemma RecordedHonest(r: Run, q: QualityQuery, result: QueryResult)
    requires HonestRun(r) && r.current.error.None?
    requires result.pass <==> result.missing == [] && result.forbiddenFound == []
    ensures HonestRun(Recorded(r, q, result))
  {
    var t := Recorded(r, q, result);
    assert t.current.queries[..|r.current.queries|] == r.current.queries;
  }

  /** One step of any kind keeps the books, whatever the engine answers. */
  lemma StepAccounts(env: Env, r: Run, s: Step)
    requires Accounted(r) && r.current.error.None?
    ensures Accounted(AfterStep(env, r, s).0) && AfterStep(env, r, s).0.current.error.None?
  {
    hide Balanced, HonestRun, Recorded, Evaluated;
    var request := RequestOf(s);
    if request.Ask? {
      var calls := r.calls + [request.call];
      var response := env.engine(calls);
      var called :=
        r.(calls := calls, durations := r.durations + if request.call.Search? then [response.duration] else []);
      CalledAccounts(r, called, request.call);
      if request.call.Search? && response.error.None? {
        var result := Evaluated(env.lower, s.query.value, response.contents, response.duration);
        assert called == r.(calls := calls, durations := r.durations + [response.duration]);
        RecordedBalanced(called, s.query.value, result);
        RecordedHonest(called, s.query.value, result);
        assert AfterStep(env, r, s).0 == Recorded(called, s.query.value, result);
        RecordedError(called, s.query.value, result);
      } else {
        assert AfterStep(env, r, s).0 == called;
      }
    }
  }

  lemma RecordedError(r: Run, q: QualityQuery, result: QueryResult)
    ensures Recorded(r, q, result).current.error == r.current.error
  {
  }

  lemma CalledAccounts(r: Run, called: Run, call: Call)
    requires Accounted(r)
    requires called == r.(calls := r.calls + [call], durations := called.durations)
    requires |called.durations| == |r.durations| + if call.Search? then 1 else 0
    ensures Accounted(called)
  {
    hide MissingOver, LeakedOver, MissingIn, LeakedIn, RequiredIn, ForbiddenIn;
    assert (r.calls + [call])[..|r.calls|] == r.calls;
  }

  lemma {:induction false} StepsAccount(env: Env, r: Run, steps: seq<Step>)
    requires Accounted(r) && r.current.error.None?
    ensures Accounted(AfterSteps(env, r, steps))
    decreases |steps|
  {
    hide Balanced, HonestRun, AfterStep;
    if steps != [] {
      StepAccounts(env, r, steps[0]);
      var (next, error) := AfterStep(env, r, steps[0]);
      if error.Some? {
        ErrorAccounts(next, error);
      } else {
        StepsAccount(env, next, steps[1..]);
      }
    }
  }

  lemma ErrorAccounts(r: Run, error: Option<StepError>)
    requires Accounted(r) && error.Some?
    ensures Accounted(r.(current := r.current.(pass := false, error := error)))
  {
  }

  lemma CloseAccounts(r: Run)
    requires Accounted(r)
    ensures Accounted(Closed(r))
  {
    hide Searches, RequiredIn, ForbiddenIn;
    assert Closed(r).done[..|r.done|] == r.done;
    assert forall k :: 0 <= k < |r.done| ==> Closed(r).done[k] == r.done[k];
  }

  lemma BeginAccounts(r: Run, s: Scenario)
    requires Accounted(r) && r.current.queries == []
    ensures Accounted(Begun(r, s))
  {
  }

  lemma EmptyAccounts(r: Run)
    requires r.calls == [] && r.durations == [] && r.done == [] && r.answered == [] && r.current.queries == []
    requires r.metrics == Metrics(0, 0, 0, 0, 0) && r.pass && r.current.pass && r.current.error.None?
    ensures Accounted(r)
  {
  }

  /** The books are right after every scenario of every suite, with every engine. */
  lemma {:induction false} SuiteAccounts(env: Env, suite: seq<Scenario>)
    ensures Accounted(AfterScenarios(env, START, suite)) && AfterScenarios(env, START, suite).current == NOTHING
    decreases |suite|
  {
    hide Accounted, AfterSteps;
    if suite == [] {
      EmptyAccounts(START);
    } else {
      var n := |suite| - 1;
      SuiteAccounts(env, suite[..n]);
      var before := AfterScenarios(env, START, suite[..n]);
      BeginAccounts(before, suite[n]);
      StepsAccount(env, Begun(before, suite[n]), suite[n].steps);
      CloseAccounts(AfterSteps(env, Begun(before, suite[n]), suite[n].steps));
    }
  }

  // ----- The verdict -----

  ghost predicate NoStepErrored(done: seq<ScenarioResult>) {
    forall k :: 0 <= k < |done| ==> done[k].error.None?
  }

  lemma {:induction false} NothingWrong(done: seq<ScenarioResult>)
    requires forall k :: 0 <= k < |done| ==> HonestScenario(done[k])
    ensures (forall k :: 0 <= k < |done| ==> done[k].pass)
              <==> NoStepErrored(done) && MissingOver(done) + LeakedOver(done) == 0
  {
    hide MissingIn, LeakedIn;
    if done != [] {
      var n := |done| - 1;
      NothingWrong(done[..n]);
      assert HonestScenario(done[n]);
      if forall k :: 0 <= k < |done| ==> done[k].pass {
        assert forall k :: 0 <= k < n ==> done[..n][k] == done[k];
        assert NoStepErrored(done[..n]) && done[n].error.None?;
      }
      if NoStepErrored(done) && MissingOver(done) + LeakedOver(done) == 0 {
        assert NoStepErrored(done[..n]);
        assert forall k :: 0 <= k < n ==> done[k] == done[..n][k] && done[..n][k].pass;
      }
    }
  }

  /** With a healthy engine the report passes exactly when no executed step errored and every assertion
      passed; the counters balance; and recall is one exactly when nothing was missing. */
  lemma PassMeans(env: Env, suite: seq<Scenario>)
    ensures var r := AfterScenarios(env, START, suite);
            var report := ReportOf(r);
            var m := report.metrics;
            && |report.scenarios| == |suite|
            && (report.pass <==> NoStepErrored(report.scenarios) && m.passedAssertions == m.assertions)
            && m.assertions == m.passedAssertions + MissingOver(report.scenarios) + m.forbiddenLeakage
            && m.forbiddenLeakage == LeakedOver(report.scenarios)
            && 0 <= m.recalledFacts <= m.requiredFacts <= m.assertions
            && 0.0 <= report.recall <= 1.0
            && (report.recall == 1.0 <==> MissingOver(report.scenarios) == 0)
  {
    hide AfterScenarios, MissingOver, LeakedOver, SortBy, Percentile, RequiredIn, ForbiddenIn;
    SuiteAccounts(env, suite);
    SuiteLength(env, suite);
    var r := AfterScenarios(env, START, suite);
    NothingWrong(r.done);
    RecallBounds(r.metrics.recalledFacts, r.metrics.requiredFacts);
  }

  lemma RecallBounds(a: int, b: int)
    requires 0 <= a <= b
    ensures b > 0 ==> 0.0 <= a as real / b as real <= 1.0 && (a as real / b as real == 1.0 <==> a == b)
  {
    if b > 0 {
      var x, y := a as real, b as real;
      assert (x / y) * y == x;
    }
  }

  lemma {:induction false} SuiteLength(env: Env, suite: seq<Scenario>)
    ensures |AfterScenarios(env, START, suite).done| == |suite|
  {
    hide AfterSteps;
    if suite != [] {
      var n := |suite| - 1;
      SuiteLength(env, suite[..n]);
      StepsKeepDone(env, Begun(AfterScenarios(env, START, suite[..n]), suite[n]), suite[n].steps);
    }
  }

  lemma {:induction false} StepsKeepDone(env: Env, r: Run, steps: seq<Step>)
    ensures AfterSteps(env, r, steps).done == r.done && AfterSteps(env, r, steps).pass == r.pass
    decreases |steps|
  {
    hide AfterStep;
    if steps != [] {
      StepKeepsDone(env, r, steps[0]);
      var (next, error) := AfterStep(env, r, steps[0]);
      if error.None? { StepsKeepDone(env, next, steps[1..]); }
    }
  }

  /** A scenario stops at its first error: whatever steps follow, neither the engine nor the books see them. */
  lemma {:induction false} StopsAtFirstError(env: Env, r: Run, steps: seq<Step>, more: seq<Step>)
    requires r.current.error.None? && AfterSteps(env, r, steps).current.error.Some?
    ensures AfterSteps(env, r, steps + more) == AfterSteps(env, r, steps)
    decreases |steps|
  {
    hide AfterStep;
    var (next, error) := AfterStep(env, r, steps[0]);
    StepKeepsDone(env, r, steps[0]);
    assert (steps + more)[0] == steps[0];
    if error.None? {
      assert (steps + more)[1..] == steps[1..] + more;
      StopsAtFirstError(env, next, steps[1..], more);
    }
  }

  /** Without an error every step runs: splitting a scenario in two changes nothing. */
  lemma {:induction false} CleanStepsCompose(env: Env, r: Run, steps: seq<Step>, more: seq<Step>)
    requires r.current.error.None? && AfterSteps(env, r, steps).current.error.None?
    ensures AfterSteps(env, r, steps + more) == AfterSteps(env, AfterSteps(env, r, steps), more)
    decreases |steps|
  {
    hide AfterStep;
    if steps == [] {
      assert [] + more == more;
    } else {
      var (next, error) := AfterStep(env, r, steps[0]);
      StepKeepsDone(env, r, steps[0]);
      assert (steps + more)[0] == steps[0] && (steps + more)[1..] == steps[1..] + more;
      CleanStepsCompose(env, next, steps[1..], more);
    }
  }

  /** The reported percentiles are those of one sample per search call, and P50 is never above P95. */
  lemma PercentilesOfSearches(env: Env, suite: seq<Scenario>)
    ensures var r := AfterScenarios(env, START, suite);
            && |r.durations| == Searches(r.calls)
            && ReportOf(r).searchP50 <= ReportOf(r).searchP95
            && (r.durations != [] ==> ReportOf(r).searchP50 in r.durations && ReportOf(r).searchP95 in r.durations)
            && (r.durations != [] ==>
                  AtShare(r.durations, 50, ReportOf(r).searchP50) && AtShare(r.durations, 95, ReportOf(r).searchP95))
  {
    hide AfterScenarios, SortBy, Searches, Percentile, Accounted, TotalMissing, TotalLeaked;
    SuiteAccounts(env, suite);
    var r := AfterScenarios(env, START, suite);
    OneSampleEach(r);
    PercentilesOrdered(r.durations, 50, 95);
    if r.durations != [] {
      PercentileMeaning(r.durations, 50);
      PercentileMeaning(r.durations, 95);
      PercentileExactly(r.durations, 50, ReportOf(r).searchP50);
      PercentileExactly(r.durations, 95, ReportOf(r).searchP95);
    }
  }

  lemma OneSampleEach(r: Run)
    requires Accounted(r)
    ensures |r.durations| == Searches(r.calls)
  {
  }
}
