/** Which calls a casebook makes: one for each step that is reached, of the step's own kind, in order. */
module QualityCalls {
  import opened Common
  import opened MemoryRecords
  import opened Quality
  import opened QualityAccounts

  /** The calls are those of the first steps, one each. */
  predicate Follow(calls: seq<Call>, steps: seq<Step>) {
    |calls| <= |steps| && forall i :: 0 <= i < |calls| ==> Fits(steps[i], calls[i])
  }

  /** All but the last of the calls were answered without an error. */
  ghost predicate Answered(env: Env, before: seq<Call>, calls: seq<Call>) {
    forall i :: 0 < i < |calls| ==> env.engine(before + calls[..i]).error.None?
  }

  /** How a scenario ended, told by its error and the calls it made: it got through; or the engine failed the last
      call; or the next step lacks something. */
  ghost predicate Ended(env: Env, before: seq<Call>, calls: seq<Call>, steps: seq<Step>, error: Option<StepError>) {
    match error
    case None => |calls| == |steps| && (calls != [] ==> env.engine(before + calls).error.None?)
    case Some(FromEngine(message)) => calls != [] && env.engine(before + calls).error == Some(message)
    case Some(refusal) => |calls| < |steps| && Incomplete(steps[|calls|]) && Explains(refusal, steps[|calls|])
                          && (calls != [] ==> env.engine(before + calls).error.None?)
  }

  ghost predicate Played(env: Env, before: seq<Call>, calls: seq<Call>, steps: seq<Step>, error: Option<StepError>) {
    Follow(calls, steps) && Answered(env, before, calls) && Ended(env, before, calls, steps, error)
  }

  lemma NothingPlayed(env: Env, before: seq<Call>)
    ensures Played(env, before, [], [], None)
  {
  }

  lemma FirstRefused(env: Env, before: seq<Call>, steps: seq<Step>, error: StepError)
    requires steps != [] && Incomplete(steps[0]) && Explains(error, steps[0])
    ensures Played(env, before, [], steps, Some(error))
  {
  }

  lemma FirstFailed(env: Env, before: seq<Call>, steps: seq<Step>, call: Call)
    requires steps != [] && Fits(steps[0], call) && env.engine(before + [call]).error.Some?
    ensures Played(env, before, [call], steps, EngineError(env.engine(before + [call]).error))
  {
  }

  lemma FirstAnswered(env: Env, before: seq<Call>, call: Call, calls: seq<Call>, steps: seq<Step>,
                      error: Option<StepError>)
    requires steps != [] && Fits(steps[0], call) && env.engine(before + [call]).error.None?
    requires Played(env, before + [call], calls, steps[1..], error)
    ensures Played(env, before, [call] + calls, steps, error)
  {
    hide Fits, Incomplete, Explains;
    var all := [call] + calls;
    assert before + all == before + [call] + calls;
    assert calls == [] ==> before + all == before + [call];
    forall i | 0 <= i < |all| ensures Fits(steps[i], all[i]) {
      if i > 0 { assert steps[1..][i - 1] == steps[i]; }
    }
    forall i | 0 < i < |all| ensures env.engine(before + all[..i]).error.None? {
      assert before + all[..i] == before + [call] + calls[..i - 1];
      if i == 1 { assert before + [call] + calls[..0] == before + [call]; }
    }
    if |calls| < |steps[1..]| { assert steps[1..][|calls|] == steps[|all|]; }
  }

  /** The calls of a scenario are those of its steps, one each and in order, up to the first one that is
      incomplete or that the engine fails. */
  lemma {:induction false} ScenarioCalls(env: Env, r: Run, steps: seq<Step>)
    requires r.current.error.None?
    ensures var t := AfterSteps(env, r, steps);
            exists calls :: t.calls == r.calls + calls && Played(env, r.calls, calls, steps, t.current.error)
    decreases |steps|
  {
    hide AfterStep, Fits, Incomplete, Explains, Played;
    var t := AfterSteps(env, r, steps);
    if steps == [] {
      NothingPlayed(env, r.calls);
      assert t.calls == r.calls + [];
    } else {
      var (next, error) := AfterStep(env, r, steps[0]);
      StepKeepsDone(env, r, steps[0]);
      FirstCall(env, r, steps[0]);
      if Incomplete(steps[0]) {
        FirstRefused(env, r.calls, steps, error.value);
        assert t.calls == r.calls + [];
      } else {
        var call :| Fits(steps[0], call);
        StepCalls(env, r, steps[0], call);
        if error.Some? {
          FirstFailed(env, r.calls, steps, call);
        } else {
          ScenarioCalls(env, next, steps[1..]);
          var calls :| t.calls == next.calls + calls && Played(env, next.calls, calls, steps[1..], t.current.error);
          FirstAnswered(env, r.calls, call, calls, steps, t.current.error);
          assert t.calls == r.calls + ([call] + calls);
        }
      }
    }
  }

  lemma FirstCall(env: Env, r: Run, s: Step)
    ensures Incomplete(s) ==>
              var (t, error) := AfterStep(env, r, s); t == r && error.Some? && Explains(error.value, s)
    ensures !Incomplete(s) ==> exists call :: Fits(s, call)
  {
    hide AfterStep, Fits, Explains;
    forall call { StepCalls(env, r, s, call); }
    if Incomplete(s) { StepCalls(env, r, s, RebuildScope(MemoryRecords.Scope("", "", ""), [])); }
  }

  // ----- Suites -----

  function Flat(runs: seq<seq<Call>>): seq<Call> {
    if runs == [] then [] else Flat(runs[..|runs| - 1]) + runs[|runs| - 1]
  }

  /** The scenarios were played in turn, and each is reported under its own name. */
  ghost predicate PlayedAll(env: Env, runs: seq<seq<Call>>, suite: seq<Scenario>, done: seq<ScenarioResult>) {
    && |runs| == |suite| == |done|
    && forall i :: 0 <= i < |suite| ==>
         && done[i].id == suite[i].id && done[i].description == suite[i].description
         && Played(env, Flat(runs[..i]), runs[i], suite[i].steps, done[i].error)
  }

  lemma PlayedMore(env: Env, runs: seq<seq<Call>>, suite: seq<Scenario>, done: seq<ScenarioResult>,
                   calls: seq<Call>, scenario: Scenario, result: ScenarioResult)
    requires PlayedAll(env, runs, suite, done) && Played(env, Flat(runs), calls, scenario.steps, result.error)
    requires result.id == scenario.id && result.description == scenario.description
    ensures PlayedAll(env, runs + [calls], suite + [scenario], done + [result])
    ensures Flat(runs + [calls]) == Flat(runs) + calls
  {
    hide Flat, Played;
    var all := runs + [calls];
    FlatMore(runs, calls);
    forall i | 0 <= i < |all|
      ensures Played(env, Flat(all[..i]), all[i], (suite + [scenario])[i].steps, (done + [result])[i].error)
    {
      assert all[..i] == runs[..if i < |runs| then i else |runs|];
      assert runs[..|runs|] == runs;
    }
  }

  lemma FlatMore(runs: seq<seq<Call>>, calls: seq<Call>)
    ensures Flat(runs + [calls]) == Flat(runs) + calls
  {
    assert (runs + [calls])[..|runs|] == runs;
  }

  lemma {:induction false} StepsKeepName(env: Env, r: Run, steps: seq<Step>)
    ensures var t := AfterSteps(env, r, steps).current;
            t.id == r.current.id && t.description == r.current.description
    decreases |steps|
  {
    hide Evaluated;
    if steps != [] { StepsKeepName(env, AfterStep(env, r, steps[0]).0, steps[1..]); }
  }

  /** All the calls of a run: those of its scenarios in turn, each starting behind the ones before it whether or not
      they ended in an error. */
  lemma {:induction false} SuiteCalls(env: Env, suite: seq<Scenario>)
    ensures var t := AfterScenarios(env, START, suite);
            exists runs :: t.calls == Flat(runs) && PlayedAll(env, runs, suite, t.done)
    decreases |suite|
  {
    hide AfterSteps, Flat, PlayedAll, Played;
    var t := AfterScenarios(env, START, suite);
    if suite == [] {
      NoScenarios(env);
    } else {
      var n := |suite| - 1;
      SuiteCalls(env, suite[..n]);
      var before := AfterScenarios(env, START, suite[..n]);
      var runs :| before.calls == Flat(runs) && PlayedAll(env, runs, suite[..n], before.done);
      var begun := Begun(before, suite[n]);
      ScenarioCalls(env, begun, suite[n].steps);
      StepsKeepName(env, begun, suite[n].steps);
      StepsKeepDone(env, begun, suite[n].steps);
      var ended := AfterSteps(env, begun, suite[n].steps);
      var calls :| ended.calls == begun.calls + calls
                   && Played(env, begun.calls, calls, suite[n].steps, ended.current.error);
      PlayedMore(env, runs, suite[..n], before.done, calls, suite[n], ended.current);
      assert suite == suite[..n] + [suite[n]];
      assert t.done == before.done + [ended.current];
    }
  }

  lemma NoScenarios(env: Env)
    ensures Flat([]) == [] && PlayedAll(env, [], [], [])
  {
  }
}
