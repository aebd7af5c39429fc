/**
 * The worker pool of the load run as a transition system: the caller feeds an unbuffered channel,
 * workers put records and send their errors into a buffered channel, and the caller waits for all of
 * them before it drains the errors.  Whether a put succeeds may differ from schedule to schedule.
 */
module LoadPool {
  import opened Common
  import opened MemoryRecords
  import opened NativeIndex
  import opened LoadRecords

  datatype Config = Config(records: nat, concurrency: nat, scope: Scope, start: Index)

  datatype Worker = Idle | Putting(index: nat) | Sending(error: string) | Exited

  /** One call of Put as it came out; a failed one may or may not have reached the table. */
  datatype Attempt = Attempt(index: nat, error: Option<string>, landed: bool)

  datatype Report = Report(writesSucceeded: int, writeErrors: seq<string>)

  /** log is history only. */
  datatype State = State(
    fed: nat, closed: bool, workers: seq<Worker>, errors: seq<string>, table: Index,
    report: Option<Report>, log: seq<Attempt>)

  datatype Action =
    | HandOff(w: nat)
    | Close
    | PutReturns(w: nat, error: Option<string>, landed: bool)
    | SendError(w: nat)
    | WorkerExit(w: nat)
    | WaitAndDrain

  function Init(c: Config): State {
    State(0, false, seq(c.concurrency, _ => Idle), [], c.start, None, [])
  }

  ghost predicate Enabled(c: Config, s: State, a: Action) {
    match a
    case HandOff(w) => w < |s.workers| && s.workers[w].Idle? && !s.closed && s.fed < c.records
    case Close => !s.closed && s.fed >= c.records
    case PutReturns(w, error, landed) => w < |s.workers| && s.workers[w].Putting? && (error.None? ==> landed)
    // the channel of errors holds as many as there are records
    case SendError(w) => w < |s.workers| && s.workers[w].Sending? && |s.errors| < c.records
    case WorkerExit(w) => w < |s.workers| && s.workers[w].Idle? && s.closed
    case WaitAndDrain =>
      s.closed && s.report.None? && forall w :: 0 <= w < |s.workers| ==> s.workers[w].Exited?
  }

  ghost function Apply(c: Config, s: State, a: Action): State
    requires Enabled(c, s, a)
  {
    match a
    case HandOff(w) => s.(fed := s.fed + 1, workers := s.workers[w := Putting(s.fed)])
    case Close => s.(closed := true)
    case PutReturns(w, error, landed) =>
      var k := s.workers[w].index;
      s.(workers := s.workers[w := if error.Some? then Sending(error.value) else Idle],
         table := if landed then PutIn(s.table, LoadRecord(c.scope, k)) else s.table,
         log := s.log + [Attempt(k, error, landed)])
    case SendError(w) => s.(workers := s.workers[w := Idle], errors := s.errors + [s.workers[w].error])
    case WorkerExit(w) => s.(workers := s.workers[w := Exited])
    case WaitAndDrain => s.(report := Some(Report(c.records - |s.errors|, s.errors)), errors := [])
  }

  ghost predicate Leads(c: Config, trace: seq<Action>, s: State) {
    if trace == [] then s == Init(c)
    else
      var n := |trace| - 1;
      exists p :: Leads(c, trace[..n], p) && Enabled(c, p, trace[n]) && s == Apply(c, p, trace[n])
  }

  ghost predicate Reachable(c: Config, s: State) {
    exists trace :: Leads(c, trace, s)
  }

  // ----- Where records and errors are -----

  function HeldBy(w: Worker): multiset<nat> { if w.Putting? then multiset{w.index} else multiset{} }

  function PendingBy(w: Worker): multiset<string> { if w.Sending? then multiset{w.error} else multiset{} }

  function Range(n: nat): (r: seq<nat>)
    ensures |r| == n
  {
    seq(n, i => i)
  }

  function Indices(log: seq<Attempt>): (r: seq<nat>)
    ensures |r| == |log|
  {
    seq(|log|, i requires 0 <= i < |log| => log[i].index)
  }

  function ErrorsOf(log: seq<Attempt>): (r: seq<string>)
    ensures |r| <= |log|
  {
    if log == [] then []
    else
      var last := log[|log| - 1];
      ErrorsOf(log[..|log| - 1]) + if last.error.Some? then [last.error.value] else []
  }

  function Successes(log: seq<Attempt>): (r: nat)
    ensures r + |ErrorsOf(log)| == |log|
  {
    if log == [] then 0
    else Successes(log[..|log| - 1]) + if log[|log| - 1].error.None? then 1 else 0
  }

  function Landed(log: seq<Attempt>): set<nat> {
    if log == [] then {}
    else Landed(log[..|log| - 1]) + if log[|log| - 1].landed then {log[|log| - 1].index} else {}
  }

  /** The table after the attempts in their order. */
  function TableAfter(c: Config, log: seq<Attempt>): Index {
    if log == [] then c.start
    else
      var last := log[|log| - 1];
      var before := TableAfter(c, log[..|log| - 1]);
      if last.landed then PutIn(before, LoadRecord(c.scope, last.index)) else before
  }

  // ----- The invariant -----

  /** Each record handed out is being put or has been put, once. */
  ghost predicate PutOnce(c: Config, s: State) {
    && |s.workers| == c.concurrency
    && s.fed <= c.records
    && BagOf(HeldBy, s.workers) + multiset(Indices(s.log)) == multiset(Range(s.fed))
  }

  ghost function ErrorsOut(s: State): multiset<string> {
    multiset(s.errors) + multiset(if s.report.Some? then s.report.value.writeErrors else [])
  }

  /** Each error is on its way, in the channel or in the report, once. */
  ghost predicate ErrorsKept(s: State) {
    BagOf(PendingBy, s.workers) + ErrorsOut(s) == multiset(ErrorsOf(s.log))
  }

  ghost predicate Ordered(c: Config, s: State) {
    && (s.closed ==> s.fed == c.records)
    && (forall w :: 0 <= w < |s.workers| && s.workers[w].Exited? ==> s.closed)
    && (s.report.Some? ==>
          && s.closed && s.errors == []
          && s.report.value.writesSucceeded == c.records - |s.report.value.writeErrors|
          && forall w :: 0 <= w < |s.workers| ==> s.workers[w].Exited?)
    && (forall k :: 0 <= k < |s.log| && s.log[k].error.None? ==> s.log[k].landed)
    && s.table == TableAfter(c, s.log)
  }

  ghost predicate Inv(c: Config, s: State) { PutOnce(c, s) && ErrorsKept(s) && Ordered(c, s) }

  lemma InitInv(c: Config)
    ensures Inv(c, Init(c))
  {
    BagEmpty(HeldBy, Init(c).workers);
    BagEmpty(PendingBy, Init(c).workers);
    assert Indices([]) == [] == Range(0);
  }

  lemma IndicesAppend(log: seq<Attempt>, x: Attempt)
    ensures multiset(Indices(log + [x])) == multiset(Indices(log)) + multiset{x.index}
  {
    assert Indices(log + [x]) == Indices(log) + [x.index];
  }

  lemma ErrorsAppend(log: seq<Attempt>, x: Attempt)
    ensures multiset(ErrorsOf(log + [x]))
            == multiset(ErrorsOf(log)) + if x.error.Some? then multiset{x.error.value} else multiset{}
  {
    assert (log + [x])[..|log|] == log;
  }

  lemma LogAppend(c: Config, log: seq<Attempt>, x: Attempt)
    ensures TableAfter(c, log + [x])
            == if x.landed then PutIn(TableAfter(c, log), LoadRecord(c.scope, x.index)) else TableAfter(c, log)
  {
    assert (log + [x])[..|log|] == log;
  }

  lemma StepPutOnce(c: Config, s: State, a: Action)
    requires PutOnce(c, s) && Enabled(c, s, a)
    ensures PutOnce(c, Apply(c, s, a))
  {
    hide BagOf, Indices, ErrorsOf, PutIn, LoadRecord;
    var t := Apply(c, s, a);
    if a.Close? || a.WaitAndDrain? { return; }
    var was, now := HeldBy(s.workers[a.w]), HeldBy(t.workers[a.w]);
    BagUpdate(HeldBy, s.workers, a.w, t.workers[a.w]);
    assert t.workers == s.workers[a.w := t.workers[a.w]];
    match a {
      case HandOff(w) =>
        assert Range(t.fed) == Range(s.fed) + [s.fed];
        assert multiset(Range(s.fed) + [s.fed]) == multiset(Range(s.fed)) + multiset{s.fed};
      case PutReturns(w, error, landed) => IndicesAppend(s.log, Attempt(s.workers[w].index, error, landed));
      case _ =>
    }
    Rebalance(BagOf(HeldBy, s.workers), BagOf(HeldBy, t.workers), was, now,
              multiset(Indices(s.log)), multiset(Indices(t.log)), multiset(Range(s.fed)), multiset(Range(t.fed)));
  }

  lemma ErrorsMove(s: State, t: State, w: nat, v: Worker)
    requires ErrorsKept(s) && w < |s.workers| && t.workers == s.workers[w := v]
    requires ErrorsOut(t) + PendingBy(v) + multiset(ErrorsOf(s.log))
             == ErrorsOut(s) + PendingBy(s.workers[w]) + multiset(ErrorsOf(t.log))
    ensures ErrorsKept(t)
  {
    hide BagOf, ErrorsOf, ErrorsOut, PendingBy;
    BagUpdate(PendingBy, s.workers, w, v);
    Rebalance(BagOf(PendingBy, s.workers), BagOf(PendingBy, t.workers), PendingBy(s.workers[w]), PendingBy(v),
              ErrorsOut(s), ErrorsOut(t), multiset(ErrorsOf(s.log)), multiset(ErrorsOf(t.log)));
  }

  lemma FailureKept(s: State, t: State, w: nat, x: Attempt)
    requires ErrorsKept(s) && w < |s.workers| && s.workers[w].Putting?
    requires t.workers == s.workers[w := if x.error.Some? then Sending(x.error.value) else Idle]
    requires t.errors == s.errors && t.report == s.report && t.log == s.log + [x]
    ensures ErrorsKept(t)
  {
    hide BagOf, ErrorsOf, ErrorsKept;
    ErrorsAppend(s.log, x);
    ErrorsMove(s, t, w, t.workers[w]);
  }

  lemma SentKept(s: State, t: State, w: nat)
    requires ErrorsKept(s) && w < |s.workers| && s.workers[w].Sending?
    requires t.workers == s.workers[w := Idle] && t.errors == s.errors + [s.workers[w].error]
    requires t.report == s.report && t.log == s.log
    ensures ErrorsKept(t)
  {
    hide BagOf, ErrorsOf, ErrorsKept;
    assert multiset(t.errors) == multiset(s.errors) + multiset{s.workers[w].error};
    ErrorsMove(s, t, w, Idle);
  }

  lemma StepErrorsKept(c: Config, s: State, a: Action)
    requires ErrorsKept(s) && Enabled(c, s, a)
    ensures ErrorsKept(Apply(c, s, a))
  {
    hide BagOf, Indices, ErrorsOf, PutIn, LoadRecord;
    var t := Apply(c, s, a);
    match a
    case PutReturns(w, error, landed) => FailureKept(s, t, w, Attempt(s.workers[w].index, error, landed));
    case SendError(w) => SentKept(s, t, w);
    case HandOff(w) => ErrorsMove(s, t, w, Putting(s.fed));
    case WorkerExit(w) => ErrorsMove(s, t, w, Exited);
    case Close =>
    case WaitAndDrain =>
  }

  lemma StepOrdered(c: Config, s: State, a: Action)
    requires Ordered(c, s) && PutOnce(c, s) && Enabled(c, s, a)
    ensures Ordered(c, Apply(c, s, a))
  {
    hide BagOf, Indices, ErrorsOf, PutIn, LoadRecord, TableAfter;
    match a
    case PutReturns(w, error, landed) => LogAppend(c, s.log, Attempt(s.workers[w].index, error, landed));
    case _ =>
  }

  lemma {:induction false} TraceInv(c: Config, trace: seq<Action>, s: State)
    requires Leads(c, trace, s)
    ensures Inv(c, s)
    decreases |trace|
  {
    hide Apply, Enabled, PutOnce, ErrorsKept, Ordered;
    if trace == [] {
      InitInv(c);
    } else {
      var n := |trace| - 1;
      var p :| Leads(c, trace[..n], p) && Enabled(c, p, trace[n]) && s == Apply(c, p, trace[n]);
      TraceInv(c, trace[..n], p);
      StepPutOnce(c, p, trace[n]);
      StepErrorsKept(c, p, trace[n]);
      StepOrdered(c, p, trace[n]);
    }
  }

  lemma ReachableInv(c: Config, s: State)
    requires Reachable(c, s)
    ensures PutOnce(c, s) && ErrorsKept(s) && Ordered(c, s)
  {
    var trace :| Leads(c, trace, s);
    TraceInv(c, trace, s);
  }

  // ----- The error channel, the end, the count of steps -----

  lemma ErrorsFit(c: Config, s: State)
    requires PutOnce(c, s) && ErrorsKept(s)
    ensures |BagOf(PendingBy, s.workers)| + |s.errors| <= |s.log| <= s.fed <= c.records
  {
    hide BagOf, Indices, ErrorsOf;
    assert |multiset(Indices(s.log))| == |s.log|;
    assert |multiset(Range(s.fed))| == s.fed;
    assert |multiset(ErrorsOf(s.log))| == |ErrorsOf(s.log)|;
    assert |multiset(s.errors)| == |s.errors|;
  }

  /** A worker with an error never waits for room in the channel, although nobody reads from it yet. */
  lemma ErrorHasRoom(c: Config, s: State, w: nat)
    requires Reachable(c, s) && w < |s.workers| && s.workers[w].Sending?
    ensures |s.errors| < c.records
  {
    ReachableInv(c, s);
    ErrorsFit(c, s);
    BagHas(PendingBy, s.workers, w);
    assert s.workers[w].error in PendingBy(s.workers[w]);
    assert |BagOf(PendingBy, s.workers)| > 0;
  }

  ghost predicate CanStep(c: Config, s: State) { exists a :: Enabled(c, s, a) }

  /** The pool stops only with its report: it cannot hang. */
  lemma StopsWithReport(c: Config, s: State)
    requires Reachable(c, s) && c.concurrency > 0
    ensures !CanStep(c, s) <==> s.report.Some?
  {
    hide BagOf, Indices, ErrorsOf, TableAfter;
    ReachableInv(c, s);
    if s.report.None? {
      if w: nat :| w < |s.workers| && !s.workers[w].Exited? {
        match s.workers[w]
        case Putting(_) => assert Enabled(c, s, PutReturns(w, None, true));
        case Sending(_) =>
          ErrorHasRoom(c, s, w);
          assert Enabled(c, s, SendError(w));
        case Idle => assert Enabled(c, s, WorkerExit(w)) || Enabled(c, s, HandOff(w)) || Enabled(c, s, Close);
      } else {
        assert s.workers[0].Exited?;
        assert Enabled(c, s, WaitAndDrain);
      }
    }
  }

  function Rank(w: Worker): nat {
    match w
    case Exited => 0
    case Idle => 1
    case Sending(_) => 2
    case Putting(_) => 3
  }

  function Measure(c: Config, s: State): int {
    3 * (c.records - s.fed) + SumOf(Rank, s.workers) + (if s.closed then 0 else 1) + (if s.report.None? then 1 else 0)
  }

  lemma StepDecreases(c: Config, s: State, a: Action)
    requires Enabled(c, s, a)
    ensures Measure(c, Apply(c, s, a)) < Measure(c, s)
  {
    if !a.Close? && !a.WaitAndDrain? {
      SumUpdate(Rank, s.workers, a.w, Apply(c, s, a).workers[a.w]);
    }
  }

  lemma StartMeasure(c: Config)
    ensures Measure(c, Init(c)) == 3 * c.records + c.concurrency + 2
  {
    SumConstant(Rank, c.concurrency, Idle);
  }

  lemma MeasureStays(c: Config, s: State)
    requires PutOnce(c, s)
    ensures Measure(c, s) >= 0
  {
  }

  /** A run takes at most three steps a record, one a worker, and two more. */
  lemma {:induction false} RunsAreBounded(c: Config, trace: seq<Action>, s: State)
    requires Leads(c, trace, s)
    ensures |trace| + Measure(c, s) <= 3 * c.records + c.concurrency + 2 && Measure(c, s) >= 0
    decreases |trace|
  {
    hide Apply, Enabled, Measure, PutOnce, ErrorsKept, Ordered;
    TraceInv(c, trace, s);
    MeasureStays(c, s);
    if trace == [] {
      StartMeasure(c);
    } else {
      var n := |trace| - 1;
      var p :| Leads(c, trace[..n], p) && Enabled(c, p, trace[n]) && s == Apply(c, p, trace[n]);
      RunsAreBounded(c, trace[..n], p);
      StepDecreases(c, p, trace[n]);
    }
  }

  // ----- What the report says -----

  /** However the goroutines interleave: every generated record is put exactly once, the report holds
      exactly the errors of the failed puts, and its count of successes is that of the others. */
  lemma ReportAccounts(c: Config, s: State)
    requires Reachable(c, s) && s.report.Some?
    ensures multiset(Indices(s.log)) == multiset(Range(c.records))
    ensures multiset(s.report.value.writeErrors) == multiset(ErrorsOf(s.log))
    ensures s.report.value.writesSucceeded == Successes(s.log)
    ensures s.report.value.writesSucceeded + |s.report.value.writeErrors| == c.records
  {
    hide Indices, ErrorsOf, TableAfter, Successes;
    ReachableInv(c, s);
    BagEmpty(HeldBy, s.workers);
    BagEmpty(PendingBy, s.workers);
    SameSize(s.report.value.writeErrors, ErrorsOf(s.log));
    SameSize(Indices(s.log), Range(c.records));
  }

  /** Errors are reported in the order in which the workers sent them. */
  lemma ErrorsQueue(c: Config, s: State, a: Action)
    requires Enabled(c, s, a)
    ensures var t := Apply(c, s, a);
            if a.WaitAndDrain? then t.report.Some? && t.report.value.writeErrors == s.errors
            else t.report == s.report && s.errors <= t.errors
  {
    hide PutIn, LoadRecord;
  }

  // ----- What the table holds -----

  function Place(c: Config, k: nat): Key { KeyOf(LoadRecord(c.scope, k)) }

  lemma PlacesDiffer(c: Config, i: nat, j: nat)
    requires Place(c, i) == Place(c, j)
    ensures i == j
  {
    RecordIDsDiffer(i, j);
  }

  /** The rows are those of the records that landed, and elsewhere the table is untouched. */
  lemma {:induction false} TableByLanded(c: Config, log: seq<Attempt>, key: Key)
    ensures forall k :: k in Landed(log) ==>
              Place(c, k) in TableAfter(c, log) && TableAfter(c, log)[Place(c, k)] == LoadRecord(c.scope, k)
    ensures (forall k :: k in Landed(log) ==> Place(c, k) != key) ==>
              (key in TableAfter(c, log) <==> key in c.start)
                && (key in c.start ==> TableAfter(c, log)[key] == c.start[key])
  {
    hide LoadRecord;
    if log != [] {
      var before := log[..|log| - 1];
      var last := log[|log| - 1];
      TableByLanded(c, before, key);
      forall k | k in Landed(log)
        ensures Place(c, k) in TableAfter(c, log) && TableAfter(c, log)[Place(c, k)] == LoadRecord(c.scope, k)
      {
        if Place(c, k) == Place(c, last.index) { PlacesDiffer(c, k, last.index); }
      }
    }
  }

  lemma SameLandedSameTable(c: Config, a: seq<Attempt>, b: seq<Attempt>)
    requires Landed(a) == Landed(b)
    ensures TableAfter(c, a) == TableAfter(c, b)
  {
    hide TableAfter, Landed, Place;
    var x, y := TableAfter(c, a), TableAfter(c, b);
    forall key ensures (key in x <==> key in y) && (key in x ==> x[key] == y[key]) {
      TableByLanded(c, a, key);
      TableByLanded(c, b, key);
    }
  }

  lemma {:induction false} LandedIs(log: seq<Attempt>, k: nat)
    ensures k in Landed(log) <==> exists i :: 0 <= i < |log| && log[i].index == k && log[i].landed
  {
    if log != [] {
      var before := log[..|log| - 1];
      LandedIs(before, k);
      assert forall i :: 0 <= i < |before| ==> before[i] == log[i];
    }
  }

  lemma {:induction false} NoErrors(log: seq<Attempt>)
    requires ErrorsOf(log) == []
    ensures forall k :: 0 <= k < |log| ==> log[k].error.None?
  {
    if log != [] { NoErrors(log[..|log| - 1]); }
  }

  lemma AllLanded(c: Config, s: State)
    requires Reachable(c, s) && s.report.Some? && s.report.value.writeErrors == []
    ensures Landed(s.log) == set k: nat | k in Range(c.records)
  {
    hide Landed, Indices, Range, ErrorsOf, TableAfter;
    ReachableInv(c, s);
    ReportAccounts(c, s);
    assert |multiset(ErrorsOf(s.log))| == 0;
    NoErrors(s.log);
    forall k: nat ensures k in Landed(s.log) <==> k in Range(c.records) {
      LandedIs(s.log, k);
      SameElements(Indices(s.log), Range(c.records), k);
      IndicesHave(s.log, k);
    }
  }

  lemma IndicesHave(log: seq<Attempt>, k: nat)
    ensures k in Indices(log) <==> exists i :: 0 <= i < |log| && log[i].index == k
  {
    if i :| 0 <= i < |log| && log[i].index == k { assert Indices(log)[i] == k; }
    if i :| 0 <= i < |Indices(log)| && Indices(log)[i] == k { assert log[i].index == k; }
  }

  /** A run that reports no error leaves every record of the catalogue in its place and every other row
      as it was. */
  lemma CleanRunLoadsAll(c: Config, s: State, key: Key)
    requires Reachable(c, s) && s.report.Some? && s.report.value.writeErrors == []
    ensures forall k: nat :: k < c.records ==> Place(c, k) in s.table && s.table[Place(c, k)] == LoadRecord(c.scope, k)
    ensures (forall k: nat :: k < c.records ==> Place(c, k) != key) ==>
              (key in s.table <==> key in c.start) && (key in c.start ==> s.table[key] == c.start[key])
  {
    hide Landed, Indices, ErrorsOf, TableAfter, Place, LoadRecord;
    ReachableInv(c, s);
    AllLanded(c, s);
    TableByLanded(c, s.log, key);
    forall k: nat ensures k in Landed(s.log) <==> k < c.records {
      if k < c.records { assert Range(c.records)[k] == k; }
    }
  }

  /** Without errors the table does not depend on the schedule or on the number of workers. */
  lemma TableIsScheduleFree(c: Config, d: Config, s: State, t: State)
    requires Reachable(c, s) && s.report.Some? && s.report.value.writeErrors == []
    requires Reachable(d, t) && t.report.Some? && t.report.value.writeErrors == []
    requires d == c.(concurrency := d.concurrency)
    ensures s.table == t.table
  {
    hide Landed, Indices, ErrorsOf, TableAfter;
    ReachableInv(c, s);
    ReachableInv(d, t);
    AllLanded(c, s);
    AllLanded(d, t);
    SameLandedSameTable(c, s.log, t.log);
    SameStartSameTable(c, d, t.log);
  }

  lemma {:induction false} SameStartSameTable(c: Config, d: Config, log: seq<Attempt>)
    requires d == c.(concurrency := d.concurrency)
    ensures TableAfter(c, log) == TableAfter(d, log)
  {
    if log != [] { SameStartSameTable(c, d, log[..|log| - 1]); }
  }
}
