/** Running a casebook against a memory engine and keeping its accounts. */
module Quality {
  import opened Common
  import opened Durations
  import opened MemoryRecords
  import opened Phrases
  import opened Text

  datatype QualityQuery = QualityQuery(query: Query, required: seq<string>, forbidden: seq<string>)

  datatype Step = Step(
    op: string, scope: Option<Scope>, record: Option<Record>, recordID: string, records: seq<Record>,
    query: Option<QualityQuery>)

  datatype Scenario = Scenario(id: string, description: string, steps: seq<Step>)

  datatype Call =
    | ResetScope(scope: Scope)
    | Put(record: Record)
    | Update(record: Record)
    | Delete(scope: Scope, recordID: string)
    | RebuildScope(scope: Scope, records: seq<Record>)
    | Search(query: Query)

  datatype Response = Response(error: Option<string>, contents: seq<string>, duration: int)

  /** An engine in any state: what it answers may depend on every call so far.  lower is strings.ToLower. */
  datatype Env = Env(engine: seq<Call> -> Response, lower: string -> string)

  datatype StepError = MissingArgument(op: string) | Unsupported(op: string) | FromEngine(message: string)

  datatype QueryResult = QueryResult(
    text: string, pass: bool, duration: int, resultCount: nat, missing: seq<string>, forbiddenFound: seq<string>)

  datatype ScenarioResult = ScenarioResult(
    id: string, description: string, pass: bool, error: Option<StepError>, queries: seq<QueryResult>)

  datatype Metrics = Metrics(
    assertions: int, passedAssertions: int, requiredFacts: int, recalledFacts: int, forbiddenLeakage: int)

  datatype Report = Report(
    pass: bool, metrics: Metrics, recall: real, searchP50: int, searchP95: int, scenarios: seq<ScenarioResult>)

  /** A run under way; answered is history only: the queries whose search came back. */
  datatype Run = Run(
    calls: seq<Call>, durations: seq<int>, metrics: Metrics, current: ScenarioResult,
    done: seq<ScenarioResult>, pass: bool, answered: seq<QualityQuery>)

  // ----- One query -----

  function Missing(lower: string -> string, contents: seq<string>, phrases: seq<string>): (r: seq<string>)
    ensures |r| <= |phrases|
    ensures r == [] <==> HasAll(lower, contents, phrases)
    ensures forall p :: p in r <==> p in phrases && !Mentions(lower, contents, p)
  {
    if phrases == [] then []
    else
      var n := |phrases| - 1;
      Missing(lower, contents, phrases[..n]) + if Mentions(lower, contents, phrases[n]) then [] else [phrases[n]]
  }

  function Leaked(lower: string -> string, contents: seq<string>, phrases: seq<string>): (r: seq<string>)
    ensures |r| <= |phrases|
    ensures r == [] <==> HasNone(lower, contents, phrases)
    ensures forall p :: p in r <==> p in phrases && Mentions(lower, contents, p)
  {
    if phrases == [] then []
    else
      var n := |phrases| - 1;
      Leaked(lower, contents, phrases[..n]) + if Mentions(lower, contents, phrases[n]) then [phrases[n]] else []
  }

  lemma MissingStep(lower: string -> string, contents: seq<string>, phrases: seq<string>, k: nat)
    requires k < |phrases|
    ensures Missing(lower, contents, phrases[..k + 1])
            == Missing(lower, contents, phrases[..k])
               + if Mentions(lower, contents, phrases[k]) then [] else [phrases[k]]
  {
    assert phrases[..k + 1][..k] == phrases[..k];
  }

  lemma LeakedStep(lower: string -> string, contents: seq<string>, phrases: seq<string>, k: nat)
    requires k < |phrases|
    ensures Leaked(lower, contents, phrases[..k + 1])
            == Leaked(lower, contents, phrases[..k])
               + if Mentions(lower, contents, phrases[k]) then [phrases[k]] else []
  {
    assert phrases[..k + 1][..k] == phrases[..k];
  }

  method EvaluateQualityQuery(lower: string -> string, q: QualityQuery, contents: seq<string>, duration: int)
    returns (result: QueryResult)
    ensures result.missing == Missing(lower, contents, q.required)
    ensures result.forbiddenFound == Leaked(lower, contents, q.forbidden)
    ensures result.pass <==> HasAll(lower, contents, q.required) && HasNone(lower, contents, q.forbidden)
    ensures (result.text, result.duration, result.resultCount) == (q.query.text, duration, |contents|)
  {
    hide Contains, Join, Missing, Leaked, HasAll, HasNone;
    var joined := lower(Join(contents));
    var missing: seq<string>, found: seq<string>, pass := [], [], true;
    for k := 0 to |q.required|
      invariant missing == Missing(lower, contents, q.required[..k])
      invariant pass <==> missing == []
    {
      MissingStep(lower, contents, q.required, k);
      if !Contains(joined, lower(q.required[k])) {
        missing := missing + [q.required[k]];
        pass := false;
      }
    }
    assert q.required[..|q.required|] == q.required;
    for k := 0 to |q.forbidden|
      invariant found == Leaked(lower, contents, q.forbidden[..k])
      invariant pass <==> missing == [] && found == []
    {
      LeakedStep(lower, contents, q.forbidden, k);
      if Contains(joined, lower(q.forbidden[k])) {
        found := found + [q.forbidden[k]];
        pass := false;
      }
    }
    assert q.forbidden[..|q.forbidden|] == q.forbidden;
    result := QueryResult(q.query.text, pass, duration, |contents|, missing, found);
  }

  function Evaluated(lower: string -> string, q: QualityQuery, contents: seq<string>, duration: int): (r: QueryResult)
    ensures r.pass <==> r.missing == [] && r.forbiddenFound == []
    ensures |r.missing| <= |q.required| && |r.forbiddenFound| <= |q.forbidden|
  {
    var missing, found := Missing(lower, contents, q.required), Leaked(lower, contents, q.forbidden);
    QueryResult(q.query.text, missing == [] && found == [], duration, |contents|, missing, found)
  }

  // ----- Steps, scenarios, suites -----

  datatype Request = Ask(call: Call) | Refuse(error: StepError)

  /** The call a step stands for, or why there is none. */
  function RequestOf(s: Step): Request {
    if s.op == "reset" then
      if s.scope.None? then Refuse(MissingArgument(s.op)) else Ask(ResetScope(s.scope.value))
    else if s.op == "put" then
      if s.record.None? then Refuse(MissingArgument(s.op)) else Ask(Put(s.record.value))
    else if s.op == "update" then
      if s.record.None? then Refuse(MissingArgument(s.op)) else Ask(Update(s.record.value))
    else if s.op == "delete" then
      if s.scope.None? || s.recordID == "" then Refuse(MissingArgument(s.op))
      else Ask(Delete(s.scope.value, s.recordID))
    else if s.op == "rebuild" then
      if s.scope.None? then Refuse(MissingArgument(s.op)) else Ask(RebuildScope(s.scope.value, s.records))
    else if s.op == "search" then
      if s.query.None? then Refuse(MissingArgument(s.op)) else Ask(Search(s.query.value.query))
    else Refuse(Unsupported(s.op))
  }

  function Recorded(r: Run, q: QualityQuery, result: QueryResult): Run {
    var m := r.metrics;
    r.(current := r.current.(queries := r.current.queries + [result], pass := r.current.pass && result.pass),
       answered := r.answered + [q],
       metrics := Metrics(
         m.assertions + |q.required| + |q.forbidden|,
         m.passedAssertions + (|q.required| - |result.missing|) + (|q.forbidden| - |result.forbiddenFound|),
         m.requiredFacts + |q.required|,
         m.recalledFacts + (|q.required| - |result.missing|),
         m.forbiddenLeakage + |result.forbiddenFound|))
  }

  function EngineError(e: Option<string>): Option<StepError> {
    if e.Some? then Some(FromEngine(e.value)) else None
  }

  function AfterStep(env: Env, r: Run, s: Step): (Run, Option<StepError>) {
    var request := RequestOf(s);
    if request.Refuse? then (r, Some(request.error))
    else
      var calls := r.calls + [request.call];
      var response := env.engine(calls);
      if !request.call.Search? then (r.(calls := calls), EngineError(response.error))
      else
        var timed := r.(calls := calls, durations := r.durations + [response.duration]);
        if response.error.Some? then (timed, EngineError(response.error))
        else
          var evaluated := Evaluated(env.lower, s.query.value, response.contents, response.duration);
          (Recorded(timed, s.query.value, evaluated), None)
  }

  // ----- What a step asks of the engine -----

  /** The step names the operation of this call, and the call has just what the step holds. */
  predicate Fits(s: Step, call: Call) {
    match call
    case ResetScope(scope) => s.op == "reset" && s.scope == Some(scope)
    case Put(record) => s.op == "put" && s.record == Some(record)
    case Update(record) => s.op == "update" && s.record == Some(record)
    case Delete(scope, id) => s.op == "delete" && s.scope == Some(scope) && s.recordID == id && id != ""
    case RebuildScope(scope, records) => s.op == "rebuild" && s.scope == Some(scope) && s.records == records
    case Search(query) => s.op == "search" && s.query.Some? && s.query.value.query == query
  }

  ghost predicate Incomplete(s: Step) { forall call :: !Fits(s, call) }

  lemma OpsDiffer()
    ensures "reset" != "delete" && "reset" != "put" && "put" != "delete"
    ensures "update" != "delete" && "update" != "search" && "delete" != "search"
  {
    assert "reset"[0] != "delete"[0] && "update"[0] != "delete"[0] && "update"[0] != "search"[0];
    assert "delete"[0] != "search"[0];
  }

  /** What a refused step is told: an operation that is known lacks an argument. */
  predicate Explains(error: StepError, s: Step) {
    if s.op in {"reset", "put", "update", "delete", "rebuild", "search"} then error == MissingArgument(s.op)
    else error == Unsupported(s.op)
  }

  /** A step makes the one call that it fits, and no other; a step that fits none leaves the run as it was. */
  lemma StepCalls(env: Env, r: Run, s: Step, call: Call)
    ensures var (t, error) := AfterStep(env, r, s);
            && (t.calls == r.calls + [call] <==> Fits(s, call))
            && (Fits(s, call) ==> error == EngineError(env.engine(r.calls + [call]).error))
            && (Incomplete(s) ==> t == r && error.Some? && Explains(error.value, s))
  {
    hide Recorded, Evaluated;
    OpsDiffer();
    var request := RequestOf(s);
    if request.Ask? {
      assert Fits(s, request.call);
      RecordedCalls();
      assert AfterStep(env, r, s).0.calls == r.calls + [request.call];
      assert (r.calls + [request.call])[|r.calls|] == request.call;
      assert (r.calls + [call])[|r.calls|] == call;
    }
  }

  lemma RecordedCalls()
    ensures forall t: Run, q, result :: Recorded(t, q, result).calls == t.calls
  {
  }

  /** The result holds each required phrase that the answer lacks, and each forbidden one that it has, as often
      as the query names it. */
  ghost predicate Judges(lower: string -> string, q: QualityQuery, response: Response, result: QueryResult) {
    && result.text == q.query.text && result.duration == response.duration
    && result.resultCount == |response.contents|
    && (forall p :: multiset(result.missing)[p] ==
          if Mentions(lower, response.contents, p) then 0 else multiset(q.required)[p])
    && (forall p :: multiset(result.forbiddenFound)[p] ==
          if Mentions(lower, response.contents, p) then multiset(q.forbidden)[p] else 0)
    && (result.pass <==> HasAll(lower, response.contents, q.required) && HasNone(lower, response.contents, q.forbidden))
  }

  lemma MissingGrows(lower: string -> string, contents: seq<string>, phrases: seq<string>, p: string)
    requires phrases != []
    ensures var n := |phrases| - 1;
            multiset(Missing(lower, contents, phrases))[p]
            == multiset(Missing(lower, contents, phrases[..n]))[p]
               + if phrases[n] == p && !Mentions(lower, contents, p) then 1 else 0
  {
    hide Mentions, Missing;
    var n := |phrases| - 1;
    MissingStep(lower, contents, phrases, n);
    assert phrases[..n + 1] == phrases;
    Appended(Missing(lower, contents, phrases[..n]), phrases[n], p);
  }

  lemma {:induction false} MissingBag(lower: string -> string, contents: seq<string>, phrases: seq<string>, p: string)
    ensures multiset(Missing(lower, contents, phrases))[p]
            == if Mentions(lower, contents, p) then 0 else multiset(phrases)[p]
  {
    hide Mentions, Missing;
    if phrases == [] {
      NothingToFind(lower, contents);
    } else {
      MissingBag(lower, contents, phrases[..|phrases| - 1], p);
      MissingGrows(lower, contents, phrases, p);
      LastCounts(phrases, p);
    }
  }

  lemma LeakedGrows(lower: string -> string, contents: seq<string>, phrases: seq<string>, p: string)
    requires phrases != []
    ensures var n := |phrases| - 1;
            multiset(Leaked(lower, contents, phrases))[p]
            == multiset(Leaked(lower, contents, phrases[..n]))[p]
               + if phrases[n] == p && Mentions(lower, contents, p) then 1 else 0
  {
    hide Mentions, Leaked;
    var n := |phrases| - 1;
    LeakedStep(lower, contents, phrases, n);
    assert phrases[..n + 1] == phrases;
    Appended(Leaked(lower, contents, phrases[..n]), phrases[n], p);
  }

  lemma {:induction false} LeakedBag(lower: string -> string, contents: seq<string>, phrases: seq<string>, p: string)
    ensures multiset(Leaked(lower, contents, phrases))[p]
            == if Mentions(lower, contents, p) then multiset(phrases)[p] else 0
  {
    hide Mentions, Leaked;
    if phrases == [] {
      NothingToFind(lower, contents);
    } else {
      LeakedBag(lower, contents, phrases[..|phrases| - 1], p);
      LeakedGrows(lower, contents, phrases, p);
      LastCounts(phrases, p);
    }
  }

  lemma NothingToFind(lower: string -> string, contents: seq<string>)
    ensures Missing(lower, contents, []) == Leaked(lower, contents, []) == []
  {
  }

  lemma Appended<T>(s: seq<T>, x: T, y: T)
    ensures multiset(s + [x])[y] == multiset(s)[y] + if x == y then 1 else 0
  {
  }

  lemma LastCounts<T>(s: seq<T>, y: T)
    requires s != []
    ensures multiset(s)[y] == multiset(s[..|s| - 1])[y] + if s[|s| - 1] == y then 1 else 0
  {
    assert s == s[..|s| - 1] + [s[|s| - 1]];
  }

  lemma EvaluatedJudges(lower: string -> string, q: QualityQuery, response: Response)
    ensures Judges(lower, q, response, Evaluated(lower, q, response.contents, response.duration))
  {
    hide Missing, Leaked, Mentions, HasAll, HasNone;
    assert forall p ::
      multiset(Missing(lower, response.contents, q.required))[p] ==
      if Mentions(lower, response.contents, p) then 0 else multiset(q.required)[p] by {
      forall p { MissingBag(lower, response.contents, q.required, p); }
    }
    assert forall p ::
      multiset(Leaked(lower, response.contents, q.forbidden))[p] ==
      if Mentions(lower, response.contents, p) then multiset(q.forbidden)[p] else 0 by {
      forall p { LeakedBag(lower, response.contents, q.forbidden, p); }
    }
  }

  /** A search that is answered adds one judged result; one that fails is only timed; no other step touches
      anything but the calls. */
  lemma StepRecords(env: Env, r: Run, s: Step)
    ensures var (t, error) := AfterStep(env, r, s);
            if s.op != "search" || s.query.None? then t == r.(calls := t.calls)
            else
              var q := s.query.value;
              var response := env.engine(r.calls + [Search(q.query)]);
              var n := |r.current.queries|;
              && t.durations == r.durations + [response.duration]
              && (error.None? <==> response.error.None?)
              && (error.Some? ==> t.current == r.current && t.metrics == r.metrics)
              && (error.None? ==>
                    && |t.current.queries| == n + 1 && t.current.queries[..n] == r.current.queries
                    && Judges(env.lower, q, response, t.current.queries[n])
                    && t.current.pass == (r.current.pass && t.current.queries[n].pass))
  {
    hide Evaluated, Judges;
    OpsDiffer();
    if s.op == "search" && s.query.Some? {
      var q := s.query.value;
      EvaluatedJudges(env.lower, q, env.engine(r.calls + [Search(q.query)]));
    }
  }

  function AfterSteps(env: Env, r: Run, steps: seq<Step>): Run
    decreases |steps|
  {
    if steps == [] then r
    else
      var (next, error) := AfterStep(env, r, steps[0]);
      if error.Some? then next.(current := next.current.(pass := false, error := error))
      else AfterSteps(env, next, steps[1..])
  }

  function Begun(r: Run, s: Scenario): Run {
    r.(current := ScenarioResult(s.id, s.description, true, None, []))
  }

  const NOTHING := ScenarioResult("", "", true, None, [])

  function Closed(r: Run): Run {
    r.(done := r.done + [r.current], pass := r.pass && r.current.pass, current := NOTHING)
  }

  function AfterScenarios(env: Env, r: Run, suite: seq<Scenario>): Run {
    if suite == [] then r
    else
      var n := |suite| - 1;
      var before := AfterScenarios(env, r, suite[..n]);
      Closed(AfterSteps(env, Begun(before, suite[n]), suite[n].steps))
  }

  const START := Run([], [], Metrics(0, 0, 0, 0, 0), NOTHING, [], true, [])

  /** Pass, metrics and the rest of the report after the loop over the suite. */
  function ReportOf(r: Run): Report {
    var recall := if r.metrics.requiredFacts == 0 then 1.0
      else r.metrics.recalledFacts as real / r.metrics.requiredFacts as real;
    var sorted := SortBy(Leq, r.durations);
    Report(r.pass, r.metrics, recall, Percentile(sorted, 50), Percentile(sorted, 95), r.done)
  }

  function UnhealthyReport(error: string): Report {
    Report(false, START.metrics, 0.0, 0, 0, [ScenarioResult("health", "", false, Some(FromEngine(error)), [])])
  }

  class QualityRun {
    const env: Env
    var calls: seq<Call>
    var durations: seq<int>
    var metrics: Metrics
    var current: ScenarioResult
    var done: seq<ScenarioResult>
    var pass: bool
    ghost var answered: seq<QualityQuery>

    constructor (env: Env)
      ensures this.env == env && State() == START
    {
      this.env := env;
      calls, durations, metrics := [], [], Metrics(0, 0, 0, 0, 0);
      current, done, pass := NOTHING, [], true;
      answered := [];
    }

    ghost function State(): Run
      reads this
    {
      Run(calls, durations, metrics, current, done, pass, answered)
    }

    method Invoke(call: Call) returns (response: Response)
      modifies this`calls
      ensures calls == old(calls) + [call] && response == env.engine(calls)
    {
      calls := calls + [call];
      response := env.engine(calls);
    }

    method RecordAnswer(q: QualityQuery, response: Response)
      modifies this
      ensures State() == Recorded(old(State()), q, Evaluated(env.lower, q, response.contents, response.duration))
    {
      hide Missing, Leaked, HasAll, HasNone;
      var result := EvaluateQualityQuery(env.lower, q, response.contents, response.duration);
      current := current.(queries := current.queries + [result]);
      metrics := metrics.(assertions := metrics.assertions + |q.required| + |q.forbidden|);
      metrics := metrics.(passedAssertions := metrics.passedAssertions + (|q.required| - |result.missing|));
      metrics := metrics.(passedAssertions := metrics.passedAssertions + (|q.forbidden| - |result.forbiddenFound|));
      metrics := metrics.(requiredFacts := metrics.requiredFacts + |q.required|);
      metrics := metrics.(recalledFacts := metrics.recalledFacts + (|q.required| - |result.missing|));
      metrics := metrics.(forbiddenLeakage := metrics.forbiddenLeakage + |result.forbiddenFound|);
      answered := answered + [q];
      if !result.pass {
        current := current.(pass := false);
      }
    }

    method RunStep(step: Step) returns (error: Option<StepError>)
      modifies this
      ensures (State(), error) == AfterStep(env, old(State()), step)
      ensures forall call :: calls == old(calls) + [call] <==> Fits(step, call)
    {
      forall call { StepCalls(env, State(), step, call); }
      hide Missing, Leaked, HasAll, HasNone, Recorded, Evaluated;
      var request := RequestOf(step);
      if request.Refuse? {
        return Some(request.error);
      }
      var response := Invoke(request.call);
      if !request.call.Search? {
        return EngineError(response.error);
      }
      durations := durations + [response.duration];
      if response.error.Some? {
        return EngineError(response.error);
      }
      RecordAnswer(step.query.value, response);
      return None;
    }

    method RunScenario(scenario: Scenario)
      modifies this
      ensures State() == Closed(AfterSteps(env, Begun(old(State()), scenario), scenario.steps))
    {
      hide AfterStep;
      ghost var begun := Begun(State(), scenario);
      current := ScenarioResult(scenario.id, scenario.description, true, None, []);
      var i := 0;
      while i < |scenario.steps|
        invariant i <= |scenario.steps|
        invariant AfterSteps(env, begun, scenario.steps) == AfterSteps(env, State(), scenario.steps[i..])
        invariant done == old(done) && pass == old(pass)
      {
        assert scenario.steps[i..][1..] == scenario.steps[i + 1..];
        assert scenario.steps[i..][0] == scenario.steps[i];
        StepKeepsDone(env, State(), scenario.steps[i]);
        var error := RunStep(scenario.steps[i]);
        if error.Some? {
          current := current.(pass := false, error := error);
          assert State() == AfterSteps(env, begun, scenario.steps);
          break;
        }
        i := i + 1;
      }
      assert State() == AfterSteps(env, begun, scenario.steps);
      if !current.pass {
        pass := false;
      }
      done := done + [current];
      current := NOTHING;
    }

    method RunQualitySuite(health: Option<string>, suite: seq<Scenario>) returns (report: Report)
      requires State() == START
      modifies this
      ensures health.Some? ==>
                && report == UnhealthyReport(health.value) && calls == []
                && !report.pass && report.metrics.assertions == report.metrics.passedAssertions == 0
                && |report.scenarios| == 1 && report.scenarios[0].id == "health" && !report.scenarios[0].pass
                && report.scenarios[0].error == Some(FromEngine(health.value))
      ensures health.None? ==> State() == AfterScenarios(env, START, suite) && report == ReportOf(State())
    {
      hide AfterSteps;
      if health.Some? {
        return UnhealthyReport(health.value);
      }
      for i := 0 to |suite|
        invariant State() == AfterScenarios(env, START, suite[..i])
      {
        assert suite[..i + 1][..i] == suite[..i];
        RunScenario(suite[i]);
      }
      assert suite[..|suite|] == suite;
      report := ReportOf(Run(calls, durations, metrics, current, done, pass, []));
    }
  }

  lemma StepKeepsDone(env: Env, r: Run, s: Step)
    ensures AfterStep(env, r, s).0.done == r.done && AfterStep(env, r, s).0.pass == r.pass
    ensures AfterStep(env, r, s).0.current.error == r.current.error
  {
  }
}
