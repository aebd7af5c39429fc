/** The query half of a load run: one search per spread target, counted as hit or miss. */
module LoadQueries {
  import opened Common
  import opened LoadRecords
  import opened Digits
  import opened LoadHits
  import opened MemoryRecords
  import opened Phrases

  /** A search failed, or came back with records of the load scope, named by their catalogue index. */
  datatype Answer = Failed | Found(results: seq<nat>)

  datatype Reply = Reply(answer: Answer, duration: int)

  /** The queries asked so far decide the reply: the engine may keep any state of its own. */
  type Engine = seq<Query> -> Reply

  function LoadQuery(scope: Scope, target: nat): Query {
    Query(scope, "模块 module-" + Padded(target, 4) + " 的 production feature flag 和 owner 是什么？", 10, false)
  }

  function Asked(scope: Scope, records: nat, queries: nat, n: nat): (r: seq<Query>)
    requires records > 0
    ensures |r| == n
  {
    seq(n, i requires 0 <= i < n => LoadQuery(scope, QueryTarget(records, queries, i)))
  }

  /** Query i asks for ten current results about one record, by its id: the record at the query's share of the way
      through the catalogue, or the middle one if there is no other query. */
  lemma AsksForTarget(scope: Scope, records: nat, queries: nat, n: nat, i: nat, t: nat)
    requires records > 0 && i < n <= queries
    requires queries > 1 ==> t * (queries - 1) <= i * (records - 1) < (t + 1) * (queries - 1)
    requires queries <= 1 ==> 2 * t <= records < 2 * t + 2
    ensures t < records
    ensures var q := Asked(scope, records, queries, n)[i];
            && q.scope == scope && q.limit == 10 && !q.includeHistory
            && q.text == "模块 " + RecordID(t) + " 的 production feature flag 和 owner 是什么？"
  {
    hide QueryTarget, Padded;
    TargetExactly(records, queries, i, t);
    TargetsInRange(records, queries, i);
    assert "模块 module-" == "模块 " + "module-";
    assert "模块 module-" + Padded(t, 4) == "模块 " + RecordID(t);
  }

  function ReplyTo(engine: Engine, scope: Scope, records: nat, queries: nat, i: nat): Reply
    requires records > 0
  {
    engine(Asked(scope, records, queries, i + 1))
  }

  ghost predicate IsHit(engine: Engine, scope: Scope, records: nat, queries: nat, i: nat)
    requires records > 0
  {
    var answer := ReplyTo(engine, scope, records, queries, i).answer;
    answer.Found? && CountsAsHit(answer.results, QueryTarget(records, queries, i))
  }

  ghost function Hits(engine: Engine, scope: Scope, records: nat, queries: nat, n: nat): (r: nat)
    requires records > 0
    ensures r <= n
    ensures r == n <==> forall i :: 0 <= i < n ==> IsHit(engine, scope, records, queries, i)
  {
    if n == 0 then 0
    else Hits(engine, scope, records, queries, n - 1) + if IsHit(engine, scope, records, queries, n - 1) then 1 else 0
  }

  method RunQueries(engine: Engine, scope: Scope, records: nat, queries: nat)
    returns (queryHits: nat, pass: bool, durations: seq<int>)
    requires records > 0
    ensures queryHits == Hits(engine, scope, records, queries, queries)
    ensures pass <==> queryHits == queries
    ensures |durations| == queries
    ensures forall i :: 0 <= i < queries ==> durations[i] == ReplyTo(engine, scope, records, queries, i).duration
  {
    hide QueryTarget, CountsAsHit;
    queryHits, pass, durations := 0, true, [];
    var asked: seq<Query> := [];
    for i := 0 to queries
      invariant asked == Asked(scope, records, queries, i)
      invariant queryHits == Hits(engine, scope, records, queries, i)
      invariant pass <==> queryHits == i
      invariant |durations| == i
      invariant forall k :: 0 <= k < i ==> durations[k] == ReplyTo(engine, scope, records, queries, k).duration
    {
      var target := QueryTarget(records, queries, i);
      asked := asked + [LoadQuery(scope, target)];
      assert asked == Asked(scope, records, queries, i + 1);
      var reply := engine(asked);
      durations := durations + [reply.duration];
      if reply.answer.Failed? {
        pass := false;
        continue;
      }
      var hit := CheckAnswer(reply.answer.results, target);
      if hit {
        queryHits := queryHits + 1;
      } else {
        pass := false;
      }
    }
  }

  method CheckAnswer(results: seq<nat>, target: nat) returns (hit: bool)
    ensures hit <==> CountsAsHit(results, target)
  {
    hit := RequireContent(Lower, Contents(results), [Flag(target), Owner(target)]);
  }

  predicate BroughtBack(engine: Engine, scope: Scope, records: nat, queries: nat, i: nat)
    requires records > 0
  {
    var answer := ReplyTo(engine, scope, records, queries, i).answer;
    answer.Found? && QueryTarget(records, queries, i) in answer.results
  }

  /** Which of the first n queries brought their own record back. */
  function Recalled(engine: Engine, scope: Scope, records: nat, queries: nat, n: nat): set<nat>
    requires records > 0
  {
    set i: nat | i < n && BroughtBack(engine, scope, records, queries, i)
  }

  lemma RecalledStep(engine: Engine, scope: Scope, records: nat, queries: nat, n: nat)
    requires records > 0 && n > 0
    ensures |Recalled(engine, scope, records, queries, n)|
            == |Recalled(engine, scope, records, queries, n - 1)|
               + if BroughtBack(engine, scope, records, queries, n - 1) then 1 else 0
  {
    hide BroughtBack;
    var before := Recalled(engine, scope, records, queries, n - 1);
    var now := if BroughtBack(engine, scope, records, queries, n - 1) then {n - 1} else {};
    assert Recalled(engine, scope, records, queries, n) == before + now;
  }

  ghost predicate FromCatalogue(engine: Engine, scope: Scope, records: nat, queries: nat)
    requires records > 0
  {
    forall i: nat :: i < queries ==>
      var answer := ReplyTo(engine, scope, records, queries, i).answer;
      answer.Found? ==> forall r :: r in answer.results ==> r < records
  }

  /** Up to ten thousand records, the reported hits are the queries whose own record came back: the
      substring check neither misses one nor counts a stranger. */
  lemma {:induction false} HitsAreRecall(engine: Engine, scope: Scope, records: nat, queries: nat, n: nat)
    requires 0 < records <= 10_000 && n <= queries && FromCatalogue(engine, scope, records, queries)
    ensures Hits(engine, scope, records, queries, n) == |Recalled(engine, scope, records, queries, n)|
  {
    hide QueryTarget, CountsAsHit, Asked;
    if n == 0 {
      assert Recalled(engine, scope, records, queries, 0) == {};
    } else {
      RecalledStep(engine, scope, records, queries, n);
      HitsAreRecall(engine, scope, records, queries, n - 1);
      TargetsInRange(records, queries, n - 1);
      var answer := ReplyTo(engine, scope, records, queries, n - 1).answer;
      if answer.Found? { HitsAreExact(answer.results, QueryTarget(records, queries, n - 1)); }
    }
  }
}
