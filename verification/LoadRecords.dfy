/** The generated catalogue of a load run and the queries spread over it. */
module LoadRecords {
  import opened Digits
  import opened Division
  import opened MemoryRecords

  function RecordID(index: nat): string { "module-" + Padded(index, 4) }

  function Flag(index: nat): string { "ff_" + Padded(index, 4) }

  function Owner(index: nat): string { "#team-" + Padded(index % 23, 2) }

  function ContentHead(index: nat): string { "模块 module-" + Padded(index, 4) + " 的 production feature flag 是 " }

  function ContentTail(index: nat): string {
    "，owner 是 " + Owner(index) + "，请求超时为 " + Decimal(500 + (index % 17) * 100) + "ms。"
  }

  function Content(index: nat): string { ContentHead(index) + Flag(index) + ContentTail(index) }

  function LoadRecord(scope: Scope, index: nat): Record {
    Record(RecordID(index), scope, "repo:services-catalog", 1, "active", Content(index), map[])
  }

  /** What a generated record is. */
  lemma LoadRecordReads(scope: Scope, index: nat)
    ensures var r := LoadRecord(scope, index);
            && r.id == "module-" + Padded(index, 4) && r.scope == scope && r.sourceID == "repo:services-catalog"
            && r.sourceVersion == 1 && r.status == "active" && r.metadata == map[]
            && r.content
               == "模块 module-" + Padded(index, 4) + " 的 production feature flag 是 "
                  + ("ff_" + Padded(index, 4))
                  + ("，owner 是 " + ("#team-" + Padded(index % 23, 2)) + "，请求超时为 "
                     + Decimal(500 + (index % 17) * 100) + "ms。")
  {
    hide Padded, Decimal;
  }

  lemma RecordIDsDiffer(i: nat, j: nat)
    requires RecordID(i) == RecordID(j)
    ensures i == j
  {
    assert RecordID(i)[7..] == Padded(i, 4) && RecordID(j)[7..] == Padded(j, 4);
    PaddedValue(i, 4);
    PaddedValue(j, 4);
  }

  // ----- Query targets -----

  /** Go's integer division; the operands here are not negative. */
  function QueryTarget(records: nat, queries: nat, index: nat): nat
    requires records > 0
  {
    if queries <= 1 then records / 2 else index * (records - 1) / (queries - 1)
  }

  lemma LastTarget(records: nat, queries: nat)
    requires records > 0 && queries > 1
    ensures QueryTarget(records, queries, queries - 1) == records - 1
  {
    DivideBack(records - 1, queries - 1);
  }

  /** Targets stay inside the catalogue and start and end at its ends. */
  lemma TargetsInRange(records: nat, queries: nat, index: nat)
    requires records > 0 && index < queries
    ensures QueryTarget(records, queries, index) < records
    ensures queries > 1
            ==> QueryTarget(records, queries, 0) == 0 && QueryTarget(records, queries, queries - 1) == records - 1
  {
    if queries > 1 {
      LastTarget(records, queries);
      TargetsMonotone(records, queries, index, queries - 1);
      DivideUnique(0, queries - 1, 0);
    }
  }

  lemma TargetsMonotone(records: nat, queries: nat, i: nat, j: nat)
    requires records > 0 && queries > 1 && i <= j < queries
    ensures QueryTarget(records, queries, i) <= QueryTarget(records, queries, j)
  {
    MulGap(i, j, records - 1);
    DivideMonotone(i * (records - 1), j * (records - 1), queries - 1);
  }

  lemma StepBounds(x: nat, m: nat, d: nat, a: nat, b: nat)
    requires a * d <= x < a * d + d && b * d <= x + m < b * d + d
    ensures d <= m ==> a < b
    ensures d >= m ==> b <= a + 1
  {
    MulGap(b, a, d);
    MulGap(a + 1, b, d);
    assert (a + 1) * d == a * d + d;
  }

  /** One step further along the queries. */
  lemma TargetStep(records: nat, queries: nat, i: nat)
    requires records > 0 && queries > 1 && i + 1 < queries
    ensures var a, b := QueryTarget(records, queries, i), QueryTarget(records, queries, i + 1);
            && (queries <= records ==> a < b)
            && (queries >= records ==> b <= a + 1)
  {
    var d, m := queries - 1, records - 1;
    var x := i * m;
    assert (i + 1) * m == x + m;
    StepBounds(x, m, d, x / d, (x + m) / d);
  }

  /** The target is the record at the query's share of the way: the last one that is not beyond it.  A single
      query asks for the record in the middle. */
  lemma TargetExactly(records: nat, queries: nat, index: nat, t: nat)
    requires records > 0
    ensures queries > 1 ==>
              (QueryTarget(records, queries, index) == t
               <==> t * (queries - 1) <= index * (records - 1) < (t + 1) * (queries - 1))
    ensures queries <= 1 ==> (QueryTarget(records, queries, index) == t <==> 2 * t <= records < 2 * t + 2)
  {
    if queries > 1 {
      var x, d := index * (records - 1), queries - 1;
      assert (t + 1) * d == t * d + d;
      if t * d <= x < (t + 1) * d { DivideUnique(x, d, t); }
      var q, r := Quotient(x, d);
    }
  }

  lemma GapBounds(x: nat, m: nat, d: nat, a: nat, b: nat, f: nat, r: nat)
    requires a * d <= x < a * d + d && b * d <= x + m < b * d + d
    requires m == f * d + r && r < d
    ensures a + f <= b <= a + f + 1
    ensures r == 0 ==> b == a + f
  {
    MulGap(b + 1, a + f, d);
    MulGap(a + f + 2, b, d);
    MulGap(a + f + 1, b, d);
    assert (b + 1) * d == b * d + d;
    assert (a + f) * d == a * d + f * d;
    assert (a + f + 1) * d == a * d + f * d + d;
    assert (a + f + 2) * d == a * d + f * d + 2 * d;
  }

  /** Queries are spread evenly: neighbouring targets lie the same number of records apart, or one more where
      that number does not come out even. */
  lemma TargetsSpread(records: nat, queries: nat, i: nat)
    requires records > 0 && queries > 1 && i + 1 < queries
    ensures var gap := QueryTarget(records, queries, i + 1) - QueryTarget(records, queries, i);
            var even, rest := (records - 1) / (queries - 1), (records - 1) % (queries - 1);
            gap == even || (gap == even + 1 && rest != 0)
  {
    var d, m := queries - 1, records - 1;
    var x := i * m;
    assert (i + 1) * m == x + m;
    var a, _ := Quotient(x, d);
    var b, _ := Quotient(x + m, d);
    var f, r := Quotient(m, d);
    GapBounds(x, m, d, a, b, f, r);
  }

  ghost predicate TargetsDistinct(records: nat, queries: nat)
    requires records > 0
  {
    forall i, j :: 0 <= i < j < queries ==> QueryTarget(records, queries, i) < QueryTarget(records, queries, j)
  }

  lemma {:induction false} StrictUpTo(records: nat, queries: nat, i: nat, j: nat)
    requires records > 0 && 1 < queries <= records && i < j < queries
    ensures QueryTarget(records, queries, i) < QueryTarget(records, queries, j)
    decreases j - i
  {
    TargetStep(records, queries, j - 1);
    if i < j - 1 { StrictUpTo(records, queries, i, j - 1); }
  }

  lemma {:induction false} StrictGrows(records: nat, queries: nat, i: nat)
    requires records > 0 && queries > 1 && i < queries && TargetsDistinct(records, queries)
    ensures QueryTarget(records, queries, i) >= i
  {
    if i > 0 { StrictGrows(records, queries, i - 1); }
  }

  /** No record is asked for twice exactly when there are no more queries than records. */
  lemma TargetsDistinctExactly(records: nat, queries: nat)
    requires records > 0 && queries > 1
    ensures TargetsDistinct(records, queries) <==> queries <= records
  {
    hide QueryTarget;
    if queries <= records {
      forall i, j | 0 <= i < j < queries ensures QueryTarget(records, queries, i) < QueryTarget(records, queries, j) {
        StrictUpTo(records, queries, i, j);
      }
    } else if TargetsDistinct(records, queries) {
      StrictGrows(records, queries, queries - 1);
      TargetsInRange(records, queries, queries - 1);
    }
  }

  ghost predicate Hit(records: nat, queries: nat, t: int)
    requires records > 0
  {
    exists i :: 0 <= i < queries && QueryTarget(records, queries, i) == t
  }

  ghost predicate TargetsOnto(records: nat, queries: nat)
    requires records > 0
  {
    forall t :: 0 <= t < records ==> Hit(records, queries, t)
  }

  /** With small steps from 0 up to the value at i, everything in between is hit. */
  lemma {:induction false} HitsBelow(records: nat, queries: nat, i: nat, t: nat)
    requires records > 0 && queries > 1 && queries >= records && i < queries
    requires t <= QueryTarget(records, queries, i)
    ensures exists k :: 0 <= k <= i && QueryTarget(records, queries, k) == t
  {
    if t == QueryTarget(records, queries, i) {
    } else if i == 0 {
      TargetsInRange(records, queries, 0);
    } else {
      TargetStep(records, queries, i - 1);
      HitsBelow(records, queries, i - 1, t);
    }
  }

  function Targets(records: nat, queries: nat, n: nat): (r: set<int>)
    requires records > 0
    ensures |r| <= n
    ensures forall i :: 0 <= i < n ==> QueryTarget(records, queries, i) in r
  {
    if n == 0 then {} else Targets(records, queries, n - 1) + {QueryTarget(records, queries, n - 1)}
  }

  lemma {:induction false} RangeFits(n: nat, s: set<int>)
    requires forall t :: 0 <= t < n ==> t in s
    ensures n <= |s|
  {
    if n > 0 { RangeFits(n - 1, s - {n - 1}); }
  }

  /** Every record is asked for exactly when there are at least as many queries as records. */
  lemma TargetsOntoExactly(records: nat, queries: nat)
    requires records > 0 && queries > 1
    ensures TargetsOnto(records, queries) <==> queries >= records
  {
    hide QueryTarget;
    if queries >= records {
      forall t | 0 <= t < records ensures Hit(records, queries, t) {
        TargetsInRange(records, queries, queries - 1);
        HitsBelow(records, queries, queries - 1, t);
      }
    } else if TargetsOnto(records, queries) {
      forall t | 0 <= t < records ensures t in Targets(records, queries, queries) {
        assert Hit(records, queries, t);
      }
      RangeFits(records, Targets(records, queries, queries));
    }
  }
}
