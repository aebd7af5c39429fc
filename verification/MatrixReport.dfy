/** What a returned report contains: every cell once, and the same rows under every schedule. */
module MatrixReport {
  import opened Common
  import opened MatrixPool
  import opened MatrixSafety

  /** f over the jobs of one model, in order. */
  function Cells<T>(f: Job -> T, jobs: seq<Job>, model: string): seq<T> {
    if jobs == [] then []
    else (if jobs[0].model == model then [f(jobs[0])] else []) + Cells(f, jobs[1..], model)
  }

  function GridRow<T>(f: Job -> T, model: string, tasks: seq<Task>): seq<T> {
    seq(|tasks|, i requires 0 <= i < |tasks| => f(Job(model, tasks[i])))
  }

  lemma {:induction false} CellsConcat<T>(f: Job -> T, a: seq<Job>, b: seq<Job>, model: string)
    ensures Cells(f, a + b, model) == Cells(f, a, model) + Cells(f, b, model)
  {
    if a == [] {
      assert a + b == b;
    } else {
      CellsConcat(f, a[1..], b, model);
      assert (a + b)[1..] == a[1..] + b && (a + b)[0] == a[0];
      var first := if a[0].model == model then [f(a[0])] else [];
      var rest, more := Cells(f, a[1..], model), Cells(f, b, model);
      assert first + (rest + more) == first + rest + more;
    }
  }

  lemma CellsTakeOut<T>(f: Job -> T, a: seq<Job>, k: nat, model: string)
    requires k < |a|
    ensures multiset(Cells(f, a, model)) == multiset(Cells(f, [a[k]], model)) + multiset(Cells(f, Without(a, k), model))
  {
    assert a == a[..k] + ([a[k]] + a[k + 1..]);
    CellsConcat(f, a[..k], [a[k]] + a[k + 1..], model);
    CellsConcat(f, [a[k]], a[k + 1..], model);
    CellsConcat(f, a[..k], a[k + 1..], model);
  }

  /** The bag of cells depends only on the bag of jobs, not on the order they were answered in. */
  lemma {:induction false} CellsPermute<T>(f: Job -> T, a: seq<Job>, b: seq<Job>, model: string)
    requires multiset(a) == multiset(b)
    ensures multiset(Cells(f, a, model)) == multiset(Cells(f, b, model))
    decreases |a|
  {
    SameSize(a, b);
    if a != [] {
      SameElements(a, b, a[0]);
      var k :| 0 <= k < |b| && b[k] == a[0];
      CellsTakeOut(f, a, 0, model);
      CellsTakeOut(f, b, k, model);
      CellsPermute(f, Without(a, 0), Without(b, k), model);
    }
  }

  lemma {:induction false} CellsOfOthers<T>(f: Job -> T, jobs: seq<Job>, model: string)
    requires forall j :: j in jobs ==> j.model != model
    ensures Cells(f, jobs, model) == []
  {
    if jobs != [] { CellsOfOthers(f, jobs[1..], model); }
  }

  lemma {:induction false} CellsOfOne<T>(f: Job -> T, model: string, tasks: seq<Task>)
    ensures Cells(f, ModelJobs(model, tasks), model) == GridRow(f, model, tasks)
  {
    if tasks != [] {
      CellsOfOne(f, model, tasks[1..]);
      assert ModelJobs(model, tasks) == [Job(model, tasks[0])] + ModelJobs(model, tasks[1..]);
    }
  }

  lemma {:induction false} JobModels(models: seq<string>, tasks: seq<Task>, j: Job)
    requires j in Jobs(models, tasks)
    ensures j.model in models
  {
    if j !in ModelJobs(models[0], tasks) { JobModels(models[1..], tasks, j); }
  }

  /** In the grid each distinct model meets each task once, in task order. */
  lemma {:induction false} CellsOfGrid<T>(f: Job -> T, models: seq<string>, tasks: seq<Task>, m: nat)
    requires Distinct(models) && m < |models|
    ensures Cells(f, Jobs(models, tasks), models[m]) == GridRow(f, models[m], tasks)
  {
    var rest := Jobs(models[1..], tasks);
    CellsConcat(f, ModelJobs(models[0], tasks), rest, models[m]);
    if m == 0 {
      forall j | j in rest ensures j.model != models[0] {
        JobModels(models[1..], tasks, j);
        var i :| 0 <= i < |models[1..]| && models[1..][i] == j.model;
        assert models[i + 1] == j.model;
      }
      CellsOfOthers(f, rest, models[0]);
      CellsOfOne(f, models[0], tasks);
    } else {
      CellsOfOthers(f, ModelJobs(models[0], tasks), models[m]);
      CellsOfGrid(f, models[1..], tasks, m - 1);
      assert models[1..][m - 1] == models[m];
    }
  }

  // ----- From collected rows to cells -----

  function JobId(): Job -> string { (j: Job) => j.task.id }

  function JobRow(world: Job -> Outcome): Job -> TaskReport { (j: Job) => TrueRow(world, j) }

  function Ids(rows: seq<TaskReport>): (r: seq<string>)
    ensures |r| == |rows|
  {
    seq(|rows|, i requires 0 <= i < |rows| => rows[i].taskID)
  }

  lemma {:induction false} CollectedIds(results: seq<Result>, model: string)
    requires forall r :: r in results ==> r.row.taskID == r.job.task.id
    ensures Ids(TasksFor(results, model)) == Cells(JobId(), JobsOf(results), model)
  {
    var f := JobId();
    if results != [] {
      var n := |results| - 1;
      var last := results[n];
      assert results == results[..n] + [last];
      assert last in results;
      CollectedIds(results[..n], model);
      assert JobsOf(results) == JobsOf(results[..n]) + [last.job];
      CellsConcat(f, JobsOf(results[..n]), [last.job], model);
      assert Cells(f, [last.job], model) == if last.job.model == model then [f(last.job)] else [];
    }
  }

  lemma {:induction false} CollectedRows(world: Job -> Outcome, results: seq<Result>, model: string)
    requires forall r :: r in results ==> r.row == TrueRow(world, r.job)
    ensures TasksFor(results, model) == Cells(JobRow(world), JobsOf(results), model)
  {
    var f := JobRow(world);
    if results != [] {
      var n := |results| - 1;
      var last := results[n];
      assert results == results[..n] + [last];
      assert last in results;
      CollectedRows(world, results[..n], model);
      assert JobsOf(results) == JobsOf(results[..n]) + [last.job];
      CellsConcat(f, JobsOf(results[..n]), [last.job], model);
      assert Cells(f, [last.job], model) == if last.job.model == model then [f(last.job)] else [];
    }
  }

  lemma IdsWithout(rows: seq<TaskReport>, k: nat)
    requires k < |rows|
    ensures multiset(Ids(rows)) == multiset{rows[k].taskID} + multiset(Ids(Without(rows, k)))
  {
    assert Ids(rows) == Ids(rows[..k]) + [rows[k].taskID] + Ids(rows[k + 1..]);
    assert Ids(Without(rows, k)) == Ids(rows[..k]) + Ids(rows[k + 1..]);
  }

  lemma {:induction false} IdsPermute(a: seq<TaskReport>, b: seq<TaskReport>)
    requires multiset(a) == multiset(b)
    ensures multiset(Ids(a)) == multiset(Ids(b))
    decreases |a|
  {
    hide Ids;
    SameSize(a, b);
    if a == [] {
      assert b == [];
    } else {
      SameElements(a, b, a[0]);
      var k :| 0 <= k < |b| && b[k] == a[0];
      IdsPermute(Without(a, 0), Without(b, k));
      IdsWithout(a, 0);
      IdsWithout(b, k);
    }
  }

  function TaskIds(tasks: seq<Task>): seq<string> {
    seq(|tasks|, i requires 0 <= i < |tasks| => tasks[i].id)
  }

  /** The rows a live run must report for one model. */
  function TrueRows(c: Config, model: string): seq<TaskReport> {
    seq(|c.tasks|, i requires 0 <= i < |c.tasks| => TrueRow(c.world, Job(model, c.tasks[i])))
  }

  lemma FinalCollection(c: Config, s: State)
    requires Reachable(c, s) && s.collector.ReturnedReport?
    ensures multiset(JobsOf(s.collected)) == multiset(AllJobs(c))
    ensures IsReport(c, s.collected, s.collector.report)
    ensures forall r :: r in s.collected ==> r.row.taskID == r.job.task.id
    ensures !s.callerCancelled ==> forall r :: r in s.collected ==> r.row == TrueRow(c.world, r.job)
  {
    ReachableInv(c, s);
    BagEmpty(HeldBy, s.workers);
    CountPlaced(c, s);
    FullCollection(c, s);
  }

  lemma AnsweredCells<T>(f: Job -> T, models: seq<string>, tasks: seq<Task>, answered: seq<Job>, m: nat)
    requires Distinct(models) && m < |models|
    requires multiset(answered) == multiset(Jobs(models, tasks))
    ensures multiset(Cells(f, answered, models[m])) == multiset(GridRow(f, models[m], tasks))
  {
    CellsPermute(f, answered, Jobs(models, tasks), models[m]);
    CellsOfGrid(f, models, tasks, m);
  }

  lemma AnsweredIds(c: Config, collected: seq<Result>, m: nat)
    requires Distinct(c.models) && m < |c.models|
    requires multiset(JobsOf(collected)) == multiset(AllJobs(c))
    requires forall r :: r in collected ==> r.row.taskID == r.job.task.id
    ensures multiset(Ids(TasksFor(collected, c.models[m]))) == multiset(TaskIds(c.tasks))
  {
    CollectedIds(collected, c.models[m]);
    AnsweredCells(JobId(), c.models, c.tasks, JobsOf(collected), m);
    assert GridRow(JobId(), c.models[m], c.tasks) == TaskIds(c.tasks);
  }

  lemma AnsweredRows(c: Config, collected: seq<Result>, m: nat)
    requires Distinct(c.models) && m < |c.models|
    requires multiset(JobsOf(collected)) == multiset(AllJobs(c))
    requires forall r :: r in collected ==> r.row == TrueRow(c.world, r.job)
    ensures multiset(TasksFor(collected, c.models[m])) == multiset(TrueRows(c, c.models[m]))
  {
    CollectedRows(c.world, collected, c.models[m]);
    AnsweredCells(JobRow(c.world), c.models, c.tasks, JobsOf(collected), m);
    assert GridRow(JobRow(c.world), c.models[m], c.tasks) == TrueRows(c, c.models[m]);
  }

  /** A returned report has every model's section, and in it every task exactly as often as it was asked:
      no cell is missing, doubled or filed under another model, whatever the schedule. */
  lemma ReportCoversGrid(c: Config, s: State, m: nat)
    requires ValidConfig(c) && Reachable(c, s) && s.collector.ReturnedReport? && m < |c.models|
    ensures |s.collector.report| == |c.models|
    ensures s.collector.report[m].model == c.resolved[m]
    ensures multiset(Ids(s.collector.report[m].tasks)) == multiset(TaskIds(c.tasks))
    ensures Sorted(RowLeq, s.collector.report[m].tasks)
  {
    FinalCollection(c, s);
    AnsweredIds(c, s.collected, m);
    IdsPermute(s.collector.report[m].tasks, TasksFor(s.collected, c.models[m]));
  }

  /** Unless the caller cancelled, the rows are the ones the providers give in a live context. */
  lemma ReportIsTrue(c: Config, s: State, m: nat)
    requires ValidConfig(c) && Reachable(c, s) && s.collector.ReturnedReport? && !s.callerCancelled && m < |c.models|
    ensures |s.collector.report| == |c.models|
    ensures s.collector.report[m].model == c.resolved[m]
    ensures SortOf(RowLeq, TrueRows(c, c.models[m]), s.collector.report[m].tasks)
  {
    FinalCollection(c, s);
    AnsweredRows(c, s.collected, m);
  }

  /** The row tells how one evaluation came out: under the name and model that the provider gave, with the
      link of a success and nothing else, or the message of a failure and nothing else. */
  predicate Tells(row: TaskReport, task: Task, outcome: Outcome) {
    && row.taskID == task.id
    && outcome.Provides?
    && row.providerName == outcome.name
    && row.model == outcome.model
    && (row.status == "ok" <==> outcome.evaluation.Succeeds?)
    && (row.status == "error" <==> outcome.evaluation.Fails?)
    && row.reportURI == (if outcome.evaluation.Succeeds? then outcome.evaluation.reportURI else "")
    && row.error == (if outcome.evaluation.Succeeds? then "" else outcome.evaluation.error)
  }

  lemma TrueRowTells(world: Job -> Outcome, job: Job)
    requires world(job).Provides?
    ensures Tells(TrueRow(world, job), job.task, world(job))
  {
    assert "ok"[0] != "error"[0];
  }

  /** No factory call failed on the way to a report. */
  lemma ReportedAreProvided(c: Config, s: State, m: nat, i: nat)
    requires ValidConfig(c) && Reachable(c, s) && s.collector.ReturnedReport?
    requires m < |c.models| && i < |c.tasks|
    ensures c.world(Job(c.models[m], c.tasks[i])).Provides?
  {
    FinalCollection(c, s);
    ReachableInv(c, s);
    var job := Job(c.models[m], c.tasks[i]);
    JobInGrid(c.models, c.tasks, m, i);
    SameElements(JobsOf(s.collected), AllJobs(c), job);
    var k :| 0 <= k < |s.collected| && JobsOf(s.collected)[k] == job;
    assert s.collected[k] in s.collected;
  }

  lemma {:induction false} JobInGrid(models: seq<string>, tasks: seq<Task>, m: nat, i: nat)
    requires m < |models| && i < |tasks|
    ensures Job(models[m], tasks[i]) in Jobs(models, tasks)
  {
    if m == 0 {
      assert ModelJobs(models[0], tasks)[i] == Job(models[0], tasks[i]);
    } else {
      JobInGrid(models[1..], tasks, m - 1, i);
    }
  }

  /** Each task has a row of its own, at the given place, and no row is left over. */
  ghost predicate Answers(c: Config, model: string, rows: seq<TaskReport>, places: seq<nat>) {
    && |places| == |rows| == |c.tasks|
    && Distinct(places)
    && forall i :: 0 <= i < |c.tasks| ==>
         places[i] < |rows| && Tells(rows[places[i]], c.tasks[i], c.world(Job(model, c.tasks[i])))
  }

  /** Unless the caller cancelled, the rows of a model's section pair off with the tasks, and each tells how
      that model's evaluation of its task came out. */
  lemma ReportTells(c: Config, s: State, m: nat)
    requires ValidConfig(c) && Reachable(c, s) && s.collector.ReturnedReport? && !s.callerCancelled && m < |c.models|
    ensures |s.collector.report| == |c.models|
    ensures exists places :: Answers(c, c.models[m], s.collector.report[m].tasks, places)
  {
    hide Reachable, Tells;
    ReportIsTrue(c, s, m);
    var rows := s.collector.report[m].tasks;
    SameBagPairs(rows, TrueRows(c, c.models[m]));
    var places :| Pairs(rows, TrueRows(c, c.models[m]), places);
    forall i | 0 <= i < |c.tasks|
      ensures places[i] < |rows| && Tells(rows[places[i]], c.tasks[i], c.world(Job(c.models[m], c.tasks[i])))
    {
      ReportedAreProvided(c, s, m, i);
      TrueRowTells(c.world, Job(c.models[m], c.tasks[i]));
    }
    assert Answers(c, c.models[m], rows, places);
  }

  lemma TrueRowsDoNotTie(c: Config, model: string)
    requires Distinct(TaskIds(c.tasks))
    ensures forall x, y :: x in TrueRows(c, model) && y in TrueRows(c, model) && RowLeq(x, y) && RowLeq(y, x) ==> x == y
  {
    var rows := TrueRows(c, model);
    forall x, y | x in rows && y in rows && RowLeq(x, y) && RowLeq(y, x) ensures x == y {
      LexAntisym(x.taskID, y.taskID);
      var i :| 0 <= i < |rows| && rows[i] == x;
      var j :| 0 <= j < |rows| && rows[j] == y;
      assert TaskIds(c.tasks)[i] == TaskIds(c.tasks)[j];
    }
  }

  /** Schedule independence: two runs over the same grid and providers, with any two numbers of
      workers and any two interleavings, return the identical report. */
  lemma ReportIsScheduleFree(c1: Config, s1: State, c2: Config, s2: State)
    requires ValidConfig(c1) && ValidConfig(c2) && c2 == c1.(concurrency := c2.concurrency)
    requires Distinct(TaskIds(c1.tasks))
    requires Reachable(c1, s1) && s1.collector.ReturnedReport? && !s1.callerCancelled
    requires Reachable(c2, s2) && s2.collector.ReturnedReport? && !s2.callerCancelled
    ensures s1.collector.report == s2.collector.report
  {
    var r1, r2 := s1.collector.report, s2.collector.report;
    ReachableInv(c1, s1);
    ReachableInv(c2, s2);
    forall m | 0 <= m < |r1| ensures r1[m] == r2[m] {
      ReportIsTrue(c1, s1, m);
      ReportIsTrue(c2, s2, m);
      var rows := TrueRows(c1, c1.models[m]);
      assert rows == TrueRows(c2, c2.models[m]);
      TrueRowsDoNotTie(c1, c1.models[m]);
      forall x | x in r1[m].tasks ensures x in rows { SameElements(r1[m].tasks, rows, x); }
      SortUnique(RowLeq, r1[m].tasks, r2[m].tasks);
    }
  }
}
