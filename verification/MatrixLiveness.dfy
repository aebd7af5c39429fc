/** Where the pool can stop, that it does stop, and which way it ends. */
module MatrixLiveness {
  import opened Common
  import opened MatrixPool
  import opened MatrixSafety

  /** Everything is over: the collector has returned and no goroutine is left behind. */
  ghost predicate Quiescent(s: State) {
    && s.feederDone
    && (forall w :: 0 <= w < |s.workers| ==> s.workers[w].Exited?)
    && !s.collector.Collecting?
  }

  /** The collector waits for answers that nobody will send: it does not watch the context. */
  ghost predicate Deadlocked(c: Config, s: State) {
    && s.callerCancelled
    && s.feederDone
    && (forall w :: 0 <= w < |s.workers| ==> s.workers[w].Exited?)
    && s.collector.Collecting?
    && s.errs.None? && s.results == [] && |s.collected| < |AllJobs(c)|
  }

  /** Some goroutine of the pool can move; the caller's own cancellation does not count. */
  ghost predicate CanStep(c: Config, s: State) {
    exists a: Action :: Enabled(c, s, a) && !a.CallerCancels?
  }

  // ----- Progress -----

  lemma WorkerCanMove(c: Config, s: State, w: nat)
    requires Inv(c, s) && w < |s.workers| && !s.workers[w].Exited?
    ensures CanStep(c, s)
  {
    match s.workers[w]
    case Idle =>
      var next := if s.feederDone then WorkerExit(w) else if s.fed < |AllJobs(c)| then Feed(w) else FeederStop;
      assert Enabled(c, s, next);
    case Running(job) =>
      var next := if c.world(job).FactoryFails? then FactoryError(w) else Evaluate(w, c.world(job).evaluation);
      assert Enabled(c, s, next);
    case Failing => assert Enabled(c, s, CancelAfterError(w));
    case Sending(_, _) =>
      SendHasRoom(c, s, w);
      assert Enabled(c, s, Send(w));
  }

  lemma RowOrder()
    ensures TotalPreorder(RowLeq)
  {
    forall x: TaskReport, y: TaskReport ensures RowLeq(x, y) || RowLeq(y, x) { LexTotal(x.taskID, y.taskID); }
    forall x: TaskReport, y: TaskReport, z: TaskReport | RowLeq(x, y) && RowLeq(y, z) ensures RowLeq(x, z) {
      LexTrans(x.taskID, y.taskID, z.taskID);
    }
  }

  lemma ReportExists(c: Config, collected: seq<Result>) returns (report: seq<ModelReport>)
    requires |c.resolved| == |c.models|
    ensures IsReport(c, collected, report)
  {
    RowOrder();
    report := seq(|c.models|, m requires 0 <= m < |c.models| =>
      ModelReport(c.resolved[m], SortBy(RowLeq, TasksFor(collected, c.models[m]))));
    forall m | 0 <= m < |c.models| ensures SortOf(RowLeq, TasksFor(collected, c.models[m]), report[m].tasks) {
      SortByIsSort(RowLeq, TasksFor(collected, c.models[m]));
    }
  }

  /** With all workers gone, either somebody can still move, all is over, or the collector is stranded. */
  lemma CollectorCanMove(c: Config, s: State)
    requires ValidConfig(c) && Inv(c, s)
    requires forall w :: 0 <= w < |s.workers| ==> s.workers[w].Exited?
    ensures CanStep(c, s) || Quiescent(s) || Deadlocked(c, s)
  {
    BagEmpty(HeldBy, s.workers);
    CountPlaced(c, s);
    assert s.workers[0].Exited?;
    if !s.feederDone {
      assert Enabled(c, s, FeederStop);
    } else if s.collector.Collecting? {
      if |s.collected| >= |AllJobs(c)| {
        var report := ReportExists(c, s.collected);
        assert Enabled(c, s, Return(report));
      } else if s.errs.Some? {
        assert Enabled(c, s, CollectError);
      } else if s.results != [] {
        assert Enabled(c, s, CollectRow);
      }
    }
  }

  /** Exactly where a run can stop: when everything is over, or stranded after the caller cancelled. */
  lemma StopsExactly(c: Config, s: State)
    requires ValidConfig(c) && Reachable(c, s)
    ensures !CanStep(c, s) <==> Quiescent(s) || Deadlocked(c, s)
  {
    ReachableInv(c, s);
    if Quiescent(s) || Deadlocked(c, s) {
    } else if w :| 0 <= w < |s.workers| && !s.workers[w].Exited? {
      WorkerCanMove(c, s, w);
    } else {
      CollectorCanMove(c, s);
    }
  }

  // ----- Every run ends -----

  function Rank(w: Worker): nat {
    match w
    case Exited => 0
    case Idle => 1
    case Failing => 1
    case Sending(_, _) => 3
    case Running(_) => 4
  }

  function Ranks(ws: seq<Worker>): nat { SumOf(Rank, ws) }

  function Measure(c: Config, s: State): int {
    4 * (|AllJobs(c)| - s.fed) + Ranks(s.workers) + |s.results|
    + (if s.feederDone then 0 else 1) + (if s.collector.Collecting? then 1 else 0)
      + (if s.callerCancelled then 0 else 1)
  }

  predicate MovesWorker(a: Action) {
    a.Feed? || a.FactoryError? || a.CancelAfterError? || a.Evaluate? || a.Send? || a.GiveUp? || a.WorkerExit?
  }

  lemma WorkerStepDecreases(c: Config, s: State, a: Action)
    requires Enabled(c, s, a) && MovesWorker(a)
    ensures Measure(c, Apply(c, s, a)) < Measure(c, s)
  {
    hide AllJobs, RowOf, SumOf;
    SumUpdate(Rank, s.workers, a.w, Apply(c, s, a).workers[a.w]);
  }

  lemma OtherStepDecreases(c: Config, s: State, a: Action)
    requires Enabled(c, s, a) && !MovesWorker(a)
    ensures Measure(c, Apply(c, s, a)) < Measure(c, s)
  {
    hide AllJobs, IsReport, SumOf;
  }

  lemma StepDecreases(c: Config, s: State, a: Action)
    requires Enabled(c, s, a)
    ensures Measure(c, Apply(c, s, a)) < Measure(c, s)
  {
    hide Enabled, Apply, Measure;
    if MovesWorker(a) { WorkerStepDecreases(c, s, a); } else { OtherStepDecreases(c, s, a); }
  }

  lemma StartMeasure(c: Config)
    ensures Measure(c, Init(c)) == 4 * |AllJobs(c)| + c.concurrency + 3
  {
    hide AllJobs, SumOf;
    SumConstant(Rank, c.concurrency, Idle);
  }

  lemma MeasureBounded(c: Config, s: State)
    requires s.fed <= |AllJobs(c)|
    ensures Measure(c, s) >= 0
  {
    hide AllJobs;
  }

  /** No schedule runs forever: a run takes at most 4 steps a job, one a worker and three more. */
  lemma {:induction false} RunsAreBounded(c: Config, trace: seq<Action>, s: State)
    requires Leads(c, trace, s)
    ensures |trace| + Measure(c, s) <= 4 * |AllJobs(c)| + c.concurrency + 3
    ensures Measure(c, s) >= 0
    decreases |trace|
  {
    hide Measure, Enabled, Apply, AllJobs, Init, Explained, GoodRows, Concluded;
    TraceInv(c, trace, s);
    MeasureBounded(c, s);
    if trace == [] {
      StartMeasure(c);
    } else {
      var n := |trace| - 1;
      var p :| Leads(c, trace[..n], p) && Enabled(c, p, trace[n]) && s == Apply(c, p, trace[n]);
      RunsAreBounded(c, trace[..n], p);
      StepDecreases(c, p, trace[n]);
    }
  }

  // ----- Which way it ends -----

  ghost predicate AllProvided(c: Config) {
    forall job :: job in AllJobs(c) ==> c.world(job).Provides?
  }

  /** With a live caller a finished run returns the report exactly when no factory call fails,
      and otherwise an error of one of the failing calls: never a partial report, never a hang. */
  lemma EndsByFactories(c: Config, s: State)
    requires ValidConfig(c) && Reachable(c, s) && !s.callerCancelled && !CanStep(c, s)
    ensures Quiescent(s)
    ensures s.collector.ReturnedReport? <==> AllProvided(c)
    ensures s.collector.ReturnedError? ==> FactoryErrorOf(c, s.collector.error)
  {
    StopsExactly(c, s);
    ReachableInv(c, s);
    if s.collector.ReturnedReport? {
      BagEmpty(HeldBy, s.workers);
      CountPlaced(c, s);
      FullCollection(c, s);
      forall job | job in AllJobs(c) ensures c.world(job).Provides? {
        assert job in multiset(JobsOf(s.collected));
        var i :| 0 <= i < |s.collected| && JobsOf(s.collected)[i] == job;
        assert s.collected[i] in s.collected;
      }
    }
  }

  /** Cancellation by the pool itself always has its error on the way to the collector. */
  lemma CancelHasError(c: Config, s: State)
    requires Reachable(c, s) && s.cancelled && !s.callerCancelled
    ensures s.errs.Some? || !s.collector.Collecting?
  {
    ReachableInv(c, s);
  }

  // ----- The stranded collector -----

  function AfterExits(c: Config, k: nat): State
    requires k <= c.concurrency
  {
    Init(c).(cancelled := true, callerCancelled := true, feederDone := true,
             workers := seq(c.concurrency, w requires 0 <= w < c.concurrency => if w < k then Exited else Idle))
  }

  function ExitTrace(k: nat): seq<Action> {
    if k == 0 then [CallerCancels, FeederStop] else ExitTrace(k - 1) + [WorkerExit(k - 1)]
  }

  lemma LeadsOn(c: Config, trace: seq<Action>, p: State, a: Action)
    requires Leads(c, trace, p) && Enabled(c, p, a)
    ensures Leads(c, trace + [a], Apply(c, p, a))
  {
    assert (trace + [a])[..|trace|] == trace;
  }

  lemma NoExitLeads(c: Config)
    ensures Leads(c, ExitTrace(0), AfterExits(c, 0))
  {
    var cancelled := Apply(c, Init(c), CallerCancels);
    assert Leads(c, [], Init(c));
    LeadsOn(c, [], Init(c), CallerCancels);
    LeadsOn(c, [] + [CallerCancels], cancelled, FeederStop);
    assert [] + [CallerCancels] + [FeederStop] == ExitTrace(0);
    assert AfterExits(c, 0) == Apply(c, cancelled, FeederStop) by {
      assert AfterExits(c, 0).workers == Init(c).workers;
    }
  }

  lemma OneMoreExit(c: Config, k: nat)
    requires k < c.concurrency
    ensures Enabled(c, AfterExits(c, k), WorkerExit(k))
    ensures Apply(c, AfterExits(c, k), WorkerExit(k)) == AfterExits(c, k + 1)
  {
    assert AfterExits(c, k + 1).workers == AfterExits(c, k).workers[k := Exited];
  }

  lemma {:induction false} ExitsLead(c: Config, k: nat)
    requires k <= c.concurrency
    ensures Leads(c, ExitTrace(k), AfterExits(c, k))
  {
    hide Leads, Enabled, Apply, AfterExits;
    if k == 0 {
      NoExitLeads(c);
    } else {
      ExitsLead(c, k - 1);
      OneMoreExit(c, k - 1);
      LeadsOn(c, ExitTrace(k - 1), AfterExits(c, k - 1), WorkerExit(k - 1));
    }
  }

  /** The source gives the collector no way out when the caller cancels: for every grid that is not
      empty, cancelling before the first hand-off strands it, and no other kind of grid can. */
  lemma CallerCanStrand(c: Config)
    ensures (exists s :: Reachable(c, s) && Deadlocked(c, s)) <==> |AllJobs(c)| > 0
  {
    ExitsLead(c, c.concurrency);
    assert Reachable(c, AfterExits(c, c.concurrency));
    if |AllJobs(c)| > 0 {
      assert Deadlocked(c, AfterExits(c, c.concurrency));
    }
  }
}
