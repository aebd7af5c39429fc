/** The collector's side of the pool as code: rows appended under their model, then sorted per model. */
module MatrixAssembly {
  import opened Common
  import opened MatrixPool
  import opened MatrixLiveness

  /** modelReports[model], keyed by the requested model; two resolved names may coincide. */
  type ModelReports = map<string, ModelReport>

  method PrepareReports(c: Config) returns (reports: ModelReports)
    requires ValidConfig(c)
    ensures forall m :: 0 <= m < |c.models| ==>
              c.models[m] in reports && reports[c.models[m]] == ModelReport(c.resolved[m], [])
  {
    reports := map[];
    for i := 0 to |c.models|
      invariant forall m :: 0 <= m < i ==>
                  c.models[m] in reports && reports[c.models[m]] == ModelReport(c.resolved[m], [])
    {
      reports := reports[c.models[i] := ModelReport(c.resolved[i], [])];
    }
  }

  lemma NoTasks()
    ensures forall model :: TasksFor([], model) == []
  {
  }

  lemma OneMoreTask(received: seq<MatrixPool.Result>, i: nat, model: string)
    requires i < |received|
    ensures TasksFor(received[..i + 1], model)
            == TasksFor(received[..i], model) + if received[i].job.model == model then [received[i].row] else []
  {
    assert received[..i + 1][..i] == received[..i];
  }

  /** Whatever order the results came in, the assembled sections are a report on them. */
  method AssembleReport(c: Config, received: seq<MatrixPool.Result>) returns (report: seq<ModelReport>)
    requires ValidConfig(c) && forall r :: r in received ==> r.job.model in c.models
    ensures IsReport(c, received, report)
  {
    hide SortBy, RowLeq, TasksFor;
    var reports := PrepareReports(c);
    NoTasks();
    for i := 0 to |received|
      invariant forall m :: 0 <= m < |c.models| ==>
                  && c.models[m] in reports
                  && reports[c.models[m]] == ModelReport(c.resolved[m], TasksFor(received[..i], c.models[m]))
    {
      assert received[i] in received;
      forall m | 0 <= m < |c.models| { OneMoreTask(received, i, c.models[m]); }
      var model := received[i].job.model;
      reports := reports[model := reports[model].(tasks := reports[model].tasks + [received[i].row])];
    }
    assert received[..|received|] == received;
    RowOrder();
    report := [];
    for i := 0 to |c.models|
      invariant |report| == i
      invariant forall m :: 0 <= m < i ==>
                  report[m].model == c.resolved[m] && SortOf(RowLeq, TasksFor(received, c.models[m]), report[m].tasks)
    {
      var modelReport := reports[c.models[i]];
      SortByIsSort(RowLeq, modelReport.tasks);
      report := report + [modelReport.(tasks := SortBy(RowLeq, modelReport.tasks))];
    }
  }
}
