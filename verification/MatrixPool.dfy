/**
 * The model-by-task worker pool of eval-matrix as a transition system: one goroutine feeds an
 * unbuffered channel, a number of workers answer into a buffered one, and a collector counts the
 * answers.  Every interleaving of the goroutines is a sequence of the actions below.
 */
module MatrixPool {
  import opened Common

  datatype Task = Task(id: string, prompt: string)
  datatype Job = Job(model: string, task: Task)

  datatype TaskReport = TaskReport(
    taskID: string, reportURI: string, providerName: string, model: string, status: string, error: string)
  datatype ModelReport = ModelReport(model: string, tasks: seq<TaskReport>)

  datatype Evaluation = Succeeds(reportURI: string) | Fails(error: string)
  datatype Outcome = FactoryFails(error: string) | Provides(name: string, model: string, evaluation: Evaluation)

  /** resolved gives the model name the factory returned for each requested one, before the pool starts. */
  datatype Config = Config(models: seq<string>, resolved: seq<string>, tasks: seq<Task>, concurrency: nat,
    world: Job -> Outcome)

  datatype Result = Result(job: Job, row: TaskReport)
  datatype Worker = Idle | Running(job: Job) | Failing | Sending(job: Job, row: TaskReport) | Exited
  datatype Collector = Collecting | ReturnedError(error: string) | ReturnedReport(report: seq<ModelReport>)

  /** lost is history only: the jobs whose worker left without sending an answer. */
  datatype State = State(
    fed: nat,
    feederDone: bool,
    workers: seq<Worker>,
    results: seq<Result>,
    errs: Option<string>,
    cancelled: bool,
    callerCancelled: bool,
    collected: seq<Result>,
    lost: seq<Job>,
    collector: Collector)

  datatype Action =
    | Feed(w: nat)
    | FeederStop
    | FactoryError(w: nat)
    | CancelAfterError(w: nat)
    | Evaluate(w: nat, evaluation: Evaluation)
    | Send(w: nat)
    | GiveUp(w: nat)
    | WorkerExit(w: nat)
    | CollectError
    | CollectRow
    | Return(report: seq<ModelReport>)
    | CallerCancels

  // ----- What is asked and what the answers are -----

  function ModelJobs(model: string, tasks: seq<Task>): (r: seq<Job>)
    ensures |r| == |tasks|
  {
    seq(|tasks|, i requires 0 <= i < |tasks| => Job(model, tasks[i]))
  }

  /** The feeder's two nested loops. */
  function Jobs(models: seq<string>, tasks: seq<Task>): seq<Job> {
    if models == [] then [] else ModelJobs(models[0], tasks) + Jobs(models[1..], tasks)
  }

  function AllJobs(c: Config): seq<Job> { Jobs(c.models, c.tasks) }

  function RowOf(job: Job, name: string, model: string, evaluation: Evaluation): TaskReport {
    match evaluation
    case Succeeds(uri) => TaskReport(job.task.id, uri, name, model, "ok", "")
    case Fails(message) => TaskReport(job.task.id, "", name, model, "error", message)
  }

  /** The row a job gets from a live context; a job whose factory fails has none, and any value will do. */
  function TrueRow(world: Job -> Outcome, job: Job): TaskReport {
    var o := world(job);
    if o.Provides? then RowOf(job, o.name, o.model, o.evaluation) else RowOf(job, "", "", Fails(o.error))
  }

  predicate RowLeq(a: TaskReport, b: TaskReport) { LexLeq(a.taskID, b.taskID) }

  /** modelReports[model].Tasks after the collector has appended these results. */
  function TasksFor(results: seq<Result>, model: string): seq<TaskReport> {
    if results == [] then []
    else
      var last := results[|results| - 1];
      TasksFor(results[..|results| - 1], model) + if last.job.model == model then [last.row] else []
  }

  /** The report assembled from the per-model lists, each sorted by task id (ties in any order). */
  ghost predicate IsReport(c: Config, collected: seq<Result>, report: seq<ModelReport>) {
    && |report| == |c.models| == |c.resolved|
    && forall m :: 0 <= m < |report| ==>
         && report[m].model == c.resolved[m]
         && SortOf(RowLeq, TasksFor(collected, c.models[m]), report[m].tasks)
  }

  // ----- Steps -----

  predicate ValidConfig(c: Config) {
    Distinct(c.models) && |c.resolved| == |c.models| && c.concurrency > 0
  }

  function Init(c: Config): State {
    State(0, false, seq(c.concurrency, _ => Idle), [], None, false, false, [], [], Collecting)
  }

  predicate IsWorker(s: State, w: nat) { w < |s.workers| }

  ghost predicate Enabled(c: Config, s: State, a: Action) {
    match a
    // the unbuffered hand-off: the feeder and one idle worker meet
    case Feed(w) => IsWorker(s, w) && s.workers[w].Idle? && !s.feederDone && s.fed < |AllJobs(c)|
    // the feeder has handed everything out, or sees the cancelled context; it closes the channel
    case FeederStop => !s.feederDone && (s.fed >= |AllJobs(c)| || s.cancelled)
    case FactoryError(w) => IsWorker(s, w) && s.workers[w].Running? && c.world(s.workers[w].job).FactoryFails?
    case CancelAfterError(w) => IsWorker(s, w) && s.workers[w].Failing?
    // under a cancelled context the evaluation may come out in any way
    case Evaluate(w, e) =>
      && IsWorker(s, w) && s.workers[w].Running? && c.world(s.workers[w].job).Provides?
      && (e == c.world(s.workers[w].job).evaluation || s.cancelled)
    case Send(w) => IsWorker(s, w) && s.workers[w].Sending? && |s.results| < |AllJobs(c)|
    case GiveUp(w) => IsWorker(s, w) && s.workers[w].Sending? && s.cancelled
    case WorkerExit(w) => IsWorker(s, w) && s.workers[w].Idle? && s.feederDone
    case CollectError => s.collector.Collecting? && |s.collected| < |AllJobs(c)| && s.errs.Some?
    case CollectRow => s.collector.Collecting? && |s.collected| < |AllJobs(c)| && s.results != []
    // all answers counted and wg.Wait is over
    case Return(report) =>
      && s.collector.Collecting? && |s.collected| >= |AllJobs(c)|
      && (forall w :: 0 <= w < |s.workers| ==> s.workers[w].Exited?)
      && IsReport(c, s.collected, report)
    case CallerCancels => !s.callerCancelled
  }

  ghost function Apply(c: Config, s: State, a: Action): State
    requires Enabled(c, s, a)
  {
    match a
    case Feed(w) => s.(fed := s.fed + 1, workers := s.workers[w := Running(AllJobs(c)[s.fed])])
    case FeederStop => s.(feederDone := true)
    case FactoryError(w) =>
      var job := s.workers[w].job;
      s.(workers := s.workers[w := Failing],
         errs := if s.errs.None? then Some(c.world(job).error) else s.errs,
         lost := s.lost + [job])
    case CancelAfterError(w) => s.(workers := s.workers[w := Exited], cancelled := true)
    case Evaluate(w, e) =>
      var job := s.workers[w].job;
      var o := c.world(job);
      s.(workers := s.workers[w := Sending(job, RowOf(job, o.name, o.model, e))])
    case Send(w) =>
      s.(workers := s.workers[w := Idle], results := s.results + [Result(s.workers[w].job, s.workers[w].row)])
    case GiveUp(w) => s.(workers := s.workers[w := Exited], lost := s.lost + [s.workers[w].job])
    case WorkerExit(w) => s.(workers := s.workers[w := Exited])
    // returning runs the deferred cancel
    case CollectError => s.(errs := None, cancelled := true, collector := ReturnedError(s.errs.value))
    case CollectRow => s.(results := s.results[1..], collected := s.collected + [s.results[0]])
    case Return(report) => s.(cancelled := true, collector := ReturnedReport(report))
    case CallerCancels => s.(cancelled := true, callerCancelled := true)
  }

  /** s is where the trace of actions leads from the start. */
  ghost predicate Leads(c: Config, trace: seq<Action>, s: State) {
    if trace == [] then s == Init(c)
    else
      var n := |trace| - 1;
      exists p :: Leads(c, trace[..n], p) && Enabled(c, p, trace[n]) && s == Apply(c, p, trace[n])
  }

  ghost predicate Reachable(c: Config, s: State) {
    exists trace :: Leads(c, trace, s)
  }

  // ----- Conservation of jobs -----

  function Held(ws: seq<Worker>): multiset<Job> { BagOf(HeldBy, ws) }

  function HeldBy(w: Worker): multiset<Job> {
    match w
    case Running(job) => multiset{job}
    case Sending(job, _) => multiset{job}
    case _ => multiset{}
  }

  function JobsOf(results: seq<Result>): seq<Job> {
    seq(|results|, i requires 0 <= i < |results| => results[i].job)
  }

  lemma JobsOfAppend(results: seq<Result>, r: Result)
    ensures multiset(JobsOf(results + [r])) == multiset(JobsOf(results)) + multiset{r.job}
  {
    assert JobsOf(results + [r]) == JobsOf(results) + [r.job];
  }

  lemma JobsOfTail(results: seq<Result>)
    requires results != []
    ensures multiset(JobsOf(results)) == multiset{results[0].job} + multiset(JobsOf(results[1..]))
  {
    assert JobsOf(results) == [results[0].job] + JobsOf(results[1..]);
  }

  lemma {:induction false} JobCount(models: seq<string>, tasks: seq<Task>)
    ensures |Jobs(models, tasks)| == |models| * |tasks|
  {
    if models != [] {
      JobCount(models[1..], tasks);
      assert |models| * |tasks| == |tasks| + (|models| - 1) * |tasks|;
    }
  }

  /** Everything handed out is in exactly one place. */
  ghost function Placed(s: State): multiset<Job> {
    Held(s.workers) + multiset(JobsOf(s.results)) + multiset(JobsOf(s.collected)) + multiset(s.lost)
  }
}
