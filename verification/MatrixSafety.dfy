/** What every reachable state of the pool satisfies, and what a returned report therefore contains. */
module MatrixSafety {
  import opened Common
  import opened MatrixPool

  // ----- The invariant -----

  /** Conservation: each job handed out is held, buffered, collected or given up, once. */
  ghost predicate Conserved(c: Config, s: State) {
    && |s.workers| == c.concurrency
    && s.fed <= |AllJobs(c)|
    && Placed(s) == multiset(AllJobs(c)[..s.fed])
  }

  predicate GoodRow(c: Config, cancelled: bool, job: Job, row: TaskReport) {
    && row.taskID == job.task.id
    && (row == TrueRow(c.world, job) || cancelled)
    && c.world(job).Provides?
  }

  ghost predicate GoodRows(c: Config, s: State) {
    && (forall w :: 0 <= w < |s.workers| && s.workers[w].Sending? ==>
          GoodRow(c, s.cancelled, s.workers[w].job, s.workers[w].row))
    && (forall r :: r in s.results ==> GoodRow(c, s.cancelled, r.job, r.row))
    && (forall r :: r in s.collected ==> GoodRow(c, s.cancelled, r.job, r.row))
  }

  ghost predicate FactoryErrorOf(c: Config, e: string) {
    exists job :: job in AllJobs(c) && c.world(job) == FactoryFails(e)
  }

  ghost predicate SomeFailing(s: State) {
    exists w :: 0 <= w < |s.workers| && s.workers[w].Failing?
  }

  /** Cancellation never outruns the error that explains it. */
  ghost predicate Explained(c: Config, s: State) {
    && (s.errs.Some? ==> FactoryErrorOf(c, s.errs.value))
    && (s.callerCancelled ==> s.cancelled)
    && (SomeFailing(s) ==> s.lost != [])
    && (s.collector.Collecting? && !s.callerCancelled && (s.cancelled || s.lost != []) ==> s.errs.Some? && s.lost != [])
    && (s.lost != [] ==> s.cancelled || SomeFailing(s))
    && (s.feederDone ==> s.fed == |AllJobs(c)| || s.cancelled)
    && (forall w :: 0 <= w < |s.workers| && s.workers[w].Exited? ==> s.feederDone || s.cancelled)
  }

  ghost predicate Concluded(c: Config, s: State) {
    match s.collector
    case Collecting => true
    case ReturnedError(e) => s.cancelled && FactoryErrorOf(c, e)
    case ReturnedReport(report) =>
      && s.cancelled
      && s.fed == |AllJobs(c)| && s.lost == [] && s.results == []
      && (forall w :: 0 <= w < |s.workers| ==> s.workers[w].Exited?)
      && IsReport(c, s.collected, report)
      && (!s.callerCancelled ==> forall r :: r in s.collected ==> r.row == TrueRow(c.world, r.job))
  }

  ghost predicate Inv(c: Config, s: State) {
    Conserved(c, s) && GoodRows(c, s) && Explained(c, s) && Concluded(c, s)
  }

  // ----- Counting -----

  lemma CountPlaced(c: Config, s: State)
    requires Conserved(c, s)
    ensures |Held(s.workers)| + |s.results| + |s.collected| + |s.lost| == s.fed
  {
    assert |multiset(AllJobs(c)[..s.fed])| == s.fed;
    assert |multiset(JobsOf(s.results))| == |s.results|;
    assert |multiset(JobsOf(s.collected))| == |s.collected|;
    assert |multiset(s.lost)| == |s.lost|;
  }

  /** With every answer counted, nothing is left anywhere else. */
  lemma FullCollection(c: Config, s: State)
    requires Conserved(c, s) && |s.collected| >= |AllJobs(c)|
    ensures |s.collected| == |AllJobs(c)| == s.fed
    ensures s.results == [] && s.lost == [] && Held(s.workers) == multiset{}
    ensures multiset(JobsOf(s.collected)) == multiset(AllJobs(c))
  {
    CountPlaced(c, s);
    assert AllJobs(c)[..s.fed] == AllJobs(c);
    assert |Held(s.workers)| == 0;
    assert JobsOf(s.results) == [];
    assert multiset(s.lost) == multiset{};
    assert multiset(JobsOf(s.results)) == multiset{};
  }

  /** A worker's job is one of the jobs of the grid. */
  lemma HeldJobKnown(c: Config, s: State, w: nat)
    requires Conserved(c, s) && w < |s.workers|
    requires s.workers[w].Running? || s.workers[w].Sending?
    ensures s.workers[w].job in AllJobs(c)
  {
    BagHas(HeldBy, s.workers, w);
    var job := s.workers[w].job;
    assert job in HeldBy(s.workers[w]);
    assert Placed(s)[job] > 0;
    assert job in multiset(AllJobs(c)[..s.fed]);
    assert job in AllJobs(c)[..s.fed];
  }

  /** A send on results never blocks: the buffer always has room for a pending answer. */
  lemma SendHasRoom(c: Config, s: State, w: nat)
    requires Conserved(c, s) && w < |s.workers| && s.workers[w].Sending?
    ensures |s.results| < |AllJobs(c)|
  {
    CountPlaced(c, s);
    BagHas(HeldBy, s.workers, w);
    assert s.workers[w].job in HeldBy(s.workers[w]);
    assert |Held(s.workers)| > 0;
  }

  // ----- Preservation -----

  lemma InitInv(c: Config)
    ensures Inv(c, Init(c))
  {
    BagEmpty(HeldBy, Init(c).workers);
    assert AllJobs(c)[..0] == [];
  }

  /** The bags without the workers: what is buffered, collected or given up. */
  ghost function Elsewhere(s: State): multiset<Job> {
    multiset(JobsOf(s.results)) + multiset(JobsOf(s.collected)) + multiset(s.lost)
  }

  lemma PlacedSplits(s: State)
    ensures Placed(s) == Held(s.workers) + Elsewhere(s)
  {
  }

  /** One worker moves; what it puts down or picks up must be accounted for on the other side. */
  lemma WorkerMove(s: State, t: State, w: nat, v: Worker, before: multiset<Job>, after: multiset<Job>)
    requires w < |s.workers| && t.workers == s.workers[w := v]
    requires Placed(s) == before
    requires Elsewhere(t) + HeldBy(v) + before == Elsewhere(s) + HeldBy(s.workers[w]) + after
    ensures Placed(t) == after
  {
    BagUpdate(HeldBy, s.workers, w, v);
    PlacedSplits(s);
    PlacedSplits(t);
    Rebalance(Held(s.workers), Held(t.workers), HeldBy(s.workers[w]), HeldBy(v), Elsewhere(s), Elsewhere(t), before,
      after);
  }

  lemma FeedConserved(c: Config, s: State, w: nat)
    requires Conserved(c, s) && Enabled(c, s, Feed(w))
    ensures Conserved(c, Apply(c, s, Feed(w)))
  {
    var t := Apply(c, s, Feed(w));
    var job := AllJobs(c)[s.fed];
    assert AllJobs(c)[..t.fed] == AllJobs(c)[..s.fed] + [job];
    WorkerMove(s, t, w, Running(job), multiset(AllJobs(c)[..s.fed]), multiset(AllJobs(c)[..t.fed]));
  }

  lemma LostConserved(c: Config, s: State, t: State, w: nat, v: Worker)
    requires Conserved(c, s) && w < |s.workers| && HeldBy(v) == multiset{}
    requires s.workers[w].Running? || s.workers[w].Sending?
    requires t.workers == s.workers[w := v] && t.lost == s.lost + [s.workers[w].job]
    requires t.fed == s.fed && t.results == s.results && t.collected == s.collected
    ensures Conserved(c, t)
  {
    var bag := multiset(AllJobs(c)[..s.fed]);
    assert multiset(t.lost) == multiset(s.lost) + multiset{s.workers[w].job};
    assert Elsewhere(t) == Elsewhere(s) + HeldBy(s.workers[w]);
    WorkerMove(s, t, w, v, bag, bag);
  }

  lemma SendConserved(c: Config, s: State, w: nat)
    requires Conserved(c, s) && Enabled(c, s, Send(w))
    ensures Conserved(c, Apply(c, s, Send(w)))
  {
    var t := Apply(c, s, Send(w));
    var bag := multiset(AllJobs(c)[..s.fed]);
    JobsOfAppend(s.results, Result(s.workers[w].job, s.workers[w].row));
    WorkerMove(s, t, w, Idle, bag, bag);
  }

  lemma MoveConserved(c: Config, s: State, t: State, w: nat, v: Worker)
    requires Conserved(c, s) && w < |s.workers| && HeldBy(v) == HeldBy(s.workers[w])
    requires t.workers == s.workers[w := v] && t.lost == s.lost
    requires t.fed == s.fed && t.results == s.results && t.collected == s.collected
    ensures Conserved(c, t)
  {
    var bag := multiset(AllJobs(c)[..s.fed]);
    assert Elsewhere(t) == Elsewhere(s);
    WorkerMove(s, t, w, v, bag, bag);
  }

  lemma CollectConserved(c: Config, s: State)
    requires Conserved(c, s) && Enabled(c, s, CollectRow)
    ensures Conserved(c, Apply(c, s, CollectRow))
  {
    JobsOfTail(s.results);
    JobsOfAppend(s.collected, s.results[0]);
  }

  lemma QuietConserved(c: Config, s: State, a: Action)
    requires Conserved(c, s) && Enabled(c, s, a)
    requires a.FeederStop? || a.CollectError? || a.Return? || a.CallerCancels?
    ensures Conserved(c, Apply(c, s, a))
  {
    hide AllJobs, Held, JobsOf, IsReport;
  }

  /** A job goes from a worker to the lost ones. */
  lemma LosingConserved(c: Config, s: State, a: Action)
    requires Conserved(c, s) && Enabled(c, s, a) && (a.FactoryError? || a.GiveUp?)
    ensures Conserved(c, Apply(c, s, a))
  {
    hide Conserved, AllJobs;
    LostConserved(c, s, Apply(c, s, a), a.w, if a.FactoryError? then Failing else Exited);
  }

  /** A worker goes on and keeps its job, if it has one. */
  lemma GoingOnConserved(c: Config, s: State, a: Action)
    requires Conserved(c, s) && Enabled(c, s, a) && (a.CancelAfterError? || a.Evaluate? || a.WorkerExit?)
    ensures Conserved(c, Apply(c, s, a))
  {
    hide Conserved, AllJobs, RowOf;
    MoveConserved(c, s, Apply(c, s, a), a.w, Apply(c, s, a).workers[a.w]);
  }

  lemma StepConserved(c: Config, s: State, a: Action)
    requires Conserved(c, s) && Enabled(c, s, a)
    ensures Conserved(c, Apply(c, s, a))
  {
    hide Conserved, Apply;
    match a
    case Feed(w) => FeedConserved(c, s, w);
    case Send(w) => SendConserved(c, s, w);
    case CollectRow => CollectConserved(c, s);
    case FactoryError(_) => LosingConserved(c, s, a);
    case GiveUp(_) => LosingConserved(c, s, a);
    case CancelAfterError(_) => GoingOnConserved(c, s, a);
    case Evaluate(_, _) => GoingOnConserved(c, s, a);
    case WorkerExit(_) => GoingOnConserved(c, s, a);
    case _ => QuietConserved(c, s, a);
  }

  lemma StepGoodRows(c: Config, s: State, a: Action)
    requires GoodRows(c, s) && Enabled(c, s, a)
    ensures GoodRows(c, Apply(c, s, a))
  {
    hide AllJobs, IsReport;
  }

  lemma FailureExplained(c: Config, s: State, w: nat)
    requires Conserved(c, s) && Explained(c, s) && Enabled(c, s, FactoryError(w))
    ensures Explained(c, Apply(c, s, FactoryError(w)))
  {
    hide Conserved;
    var t := Apply(c, s, FactoryError(w));
    HeldJobKnown(c, s, w);
    assert t.workers[w].Failing?;
    assert FactoryErrorOf(c, c.world(s.workers[w].job).error);
  }

  lemma ReturnExplained(c: Config, s: State, report: seq<ModelReport>)
    requires Conserved(c, s) && Explained(c, s) && Enabled(c, s, Return(report))
    ensures Explained(c, Apply(c, s, Return(report)))
  {
    hide Conserved, IsReport, FactoryErrorOf;
    FullCollection(c, s);
    KeepsFailing(s, Apply(c, s, Return(report)));
  }

  lemma CancelExplained(c: Config, s: State, w: nat)
    requires Explained(c, s) && Enabled(c, s, CancelAfterError(w))
    ensures Explained(c, Apply(c, s, CancelAfterError(w)))
  {
    hide FactoryErrorOf, AllJobs;
    assert SomeFailing(s);
    KeepsFailing(s, Apply(c, s, CancelAfterError(w)));
  }

  lemma OtherExplained(c: Config, s: State, a: Action)
    requires s.fed <= |AllJobs(c)| && Explained(c, s) && Enabled(c, s, a)
    requires !a.FactoryError? && !a.Return? && !a.CancelAfterError?
    ensures Explained(c, Apply(c, s, a))
  {
    hide FactoryErrorOf, TrueRow, RowOf, IsReport, AllJobs, SomeFailing;
    KeepsFailing(s, Apply(c, s, a));
  }

  /** The one-place channel keeps the first error until the collector takes it, and that is the one returned. */
  lemma FirstErrorStays(c: Config, s: State, a: Action)
    requires Enabled(c, s, a) && s.errs.Some?
    ensures var t := Apply(c, s, a);
            if a.CollectError? then t.errs.None? && t.collector == ReturnedError(s.errs.value) else t.errs == s.errs
  {
    hide AllJobs, IsReport, RowOf;
  }

  lemma StepExplained(c: Config, s: State, a: Action)
    requires Conserved(c, s) && Explained(c, s) && Enabled(c, s, a)
    ensures Explained(c, Apply(c, s, a))
  {
    hide Explained, Placed;
    match a
    case FactoryError(w) => FailureExplained(c, s, w);
    case CancelAfterError(w) => CancelExplained(c, s, w);
    case Return(report) => ReturnExplained(c, s, report);
    case _ => OtherExplained(c, s, a);
  }

  lemma KeepsFailing(s: State, t: State)
    requires |s.workers| == |t.workers|
    requires forall w :: 0 <= w < |s.workers| && t.workers[w].Failing? ==> s.workers[w].Failing?
    ensures SomeFailing(t) ==> SomeFailing(s)
    ensures (forall w :: 0 <= w < |s.workers| && s.workers[w].Failing? ==> t.workers[w].Failing?) ==>
              SomeFailing(s) ==> SomeFailing(t)
  {
  }

  lemma StepConcluded(c: Config, s: State, a: Action)
    requires Inv(c, s) && Enabled(c, s, a)
    ensures Concluded(c, Apply(c, s, a))
  {
    match a
    case Return(_) => FullCollection(c, s);
    case _ =>
  }

  lemma StepInv(c: Config, s: State, a: Action)
    requires Inv(c, s) && Enabled(c, s, a)
    ensures Inv(c, Apply(c, s, a))
  {
    StepConserved(c, s, a);
    StepGoodRows(c, s, a);
    StepExplained(c, s, a);
    StepConcluded(c, s, a);
  }

  lemma {:induction false} TraceInv(c: Config, trace: seq<Action>, s: State)
    requires Leads(c, trace, s)
    ensures Inv(c, s)
    decreases |trace|
  {
    if trace == [] {
      InitInv(c);
    } else {
      var n := |trace| - 1;
      var p :| Leads(c, trace[..n], p) && Enabled(c, p, trace[n]) && s == Apply(c, p, trace[n]);
      TraceInv(c, trace[..n], p);
      StepInv(c, p, trace[n]);
    }
  }

  /** Every interleaving, for every number of workers, keeps the invariant. */
  lemma ReachableInv(c: Config, s: State)
    requires Reachable(c, s)
    ensures Inv(c, s)
  {
    var trace :| Leads(c, trace, s);
    TraceInv(c, trace, s);
  }
}
