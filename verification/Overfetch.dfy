/** Fetching more than asked for and filtering afterwards: what it can lose. */
module Overfetch {
  import opened Common
  import opened MemoryRecords
  import opened NativeIndex
  import opened RemoteStore
  import opened RemoteListings

  /** How many items an adapter asks the server for. */
  function FetchSize(e: Engine, limit: int): (k: nat)
    ensures 0 < limit <= 100 ==> limit <= k
    ensures !e.MemOS? ==> 20 <= k <= 100
  {
    var n := if limit * 4 < 20 then 20 else limit * 4;
    if !e.MemOS? && n > 100 then 100 else n
  }

  /** Four times the limit, but twenty at least, and a hundred at most where the engine allows no more. */
  lemma FetchSizeExactly(e: Engine, limit: int, k: nat)
    ensures k == FetchSize(e, limit) <==>
              && 20 <= k
              && (limit <= 5 ==> k == 20)
              && (5 <= limit <= 25 ==> k == 4 * limit)
              && (limit >= 25 ==> if e.MemOS? then k == 4 * limit else k == 100)
  {
  }

  /** MemOS filters by status on the server, whatever the query says about history. */
  function Offered(e: Engine, ranking: seq<Item>): seq<Item> {
    if !e.MemOS? || ranking == [] then ranking
    else
      (if Text(ranking[0].metadata, "cm_lifecycle_status") == "active" then [ranking[0]] else [])
        + Offered(e, ranking[1..])
  }

  /** A search with a text, given the order in which the server ranks the items of the scope. */
  function TextSearch(e: Engine, query: Query, ranking: seq<Item>): seq<Record> {
    Truncate(Shown(e, query, Take(Offered(e, ranking), FetchSize(e, query.limit))), query.limit)
  }

  /** The answer if the whole ranking were fetched. */
  function IdealSearch(e: Engine, query: Query, ranking: seq<Item>): seq<Record> {
    Truncate(Shown(e, query, Offered(e, ranking)), query.limit)
  }

  lemma {:induction false} ShownConcat(e: Engine, query: Query, a: seq<Item>, b: seq<Item>)
    ensures Shown(e, query, a + b) == Shown(e, query, a) + Shown(e, query, b)
  {
    hide Decode;
    if b == [] {
      assert a + b == a;
    } else {
      var n := |b| - 1;
      assert (a + b)[..|a + b| - 1] == a + b[..n];
      assert (a + b)[|a + b| - 1] == b[n];
      ShownConcat(e, query, a, b[..n]);
    }
  }

  /** The part of the offered ranking that is not fetched. */
  function Unfetched(e: Engine, query: Query, ranking: seq<Item>): seq<Item> {
    var offered := Offered(e, ranking);
    offered[|Take(offered, FetchSize(e, query.limit))|..]
  }

  lemma FetchedSplits(e: Engine, query: Query, ranking: seq<Item>)
    ensures var fetched := Take(Offered(e, ranking), FetchSize(e, query.limit));
            Shown(e, query, Offered(e, ranking))
              == Shown(e, query, fetched) + Shown(e, query, Unfetched(e, query, ranking))
  {
    hide Shown, Offered;
    var fetched := Take(Offered(e, ranking), FetchSize(e, query.limit));
    ShownConcat(e, query, fetched, Unfetched(e, query, ranking));
    assert fetched + Unfetched(e, query, ranking) == Offered(e, ranking);
  }

  /** For every ranking and limit, the answer is the beginning of the ideal one; it is the ideal one
      exactly when enough of what was fetched may be shown, or nothing that was not fetched may be. */
  lemma FetchAhead(e: Engine, query: Query, ranking: seq<Item>)
    requires query.limit > 0
    ensures TextSearch(e, query, ranking) <= IdealSearch(e, query, ranking)
    ensures TextSearch(e, query, ranking) == IdealSearch(e, query, ranking)
            <==> |Shown(e, query, Take(Offered(e, ranking), FetchSize(e, query.limit)))| >= query.limit
                 || Shown(e, query, Unfetched(e, query, ranking)) == []
  {
    hide Shown, Offered, FetchSize, Unfetched;
    FetchedSplits(e, query, ranking);
  }

  /** The usable bound: if the limit-th record that may be shown has at most FetchSize - limit hidden
      items in front of it, nothing is lost. */
  lemma EnoughFetched(e: Engine, query: Query, ranking: seq<Item>, n: nat)
    requires query.limit > 0 && n <= |Offered(e, ranking)|
    requires |Shown(e, query, Offered(e, ranking)[..n])| == query.limit
    requires n - query.limit <= FetchSize(e, query.limit) - query.limit
    ensures TextSearch(e, query, ranking) == IdealSearch(e, query, ranking)
    ensures |TextSearch(e, query, ranking)| == query.limit
  {
    hide Shown, Offered;
    var offered := Offered(e, ranking);
    var fetched := Take(offered, FetchSize(e, query.limit));
    assert fetched == offered[..n] + fetched[n..];
    ShownConcat(e, query, offered[..n], fetched[n..]);
    FetchAhead(e, query, ranking);
  }

  lemma {:induction false} ShownSize(e: Engine, query: Query, items: seq<Item>)
    ensures |Shown(e, query, items)| <= |items|
  {
    hide Decode;
    if items != [] { ShownSize(e, query, items[..|items| - 1]); }
  }

  /** mem0 and Supermemory never answer with more than a hundred records, whatever the limit. */
  lemma HundredAtMost(e: Engine, query: Query, ranking: seq<Item>)
    requires !e.MemOS?
    ensures |TextSearch(e, query, ranking)| <= 100
  {
    hide Shown;
    ShownSize(e, query, Take(Offered(e, ranking), FetchSize(e, query.limit)));
  }

  lemma {:induction false} OfferedIsActive(ranking: seq<Item>)
    ensures forall x :: x in Offered(MemOS, ranking) ==> Text(x.metadata, "cm_lifecycle_status") == "active"
  {
    if ranking != [] { OfferedIsActive(ranking[1..]); }
  }

  lemma {:induction false} HistoryAddsNothing(query: Query, items: seq<Item>)
    requires forall x :: x in items ==> Text(x.metadata, "cm_lifecycle_status") == "active"
    ensures Shown(MemOS, query.(includeHistory := true), items) == Shown(MemOS, query.(includeHistory := false), items)
  {
    hide UnprefixedFields, ScanInt, Text;
    if items != [] {
      var n := |items| - 1;
      assert items[n] in items && forall x :: x in items[..n] ==> x in items;
      HistoryAddsNothing(query, items[..n]);
    }
  }

  /** A MemOS search with a text never shows history, also when the query asks for it. */
  lemma MemosTextHidesHistory(query: Query, ranking: seq<Item>)
    ensures TextSearch(MemOS, query.(includeHistory := true), ranking)
            == TextSearch(MemOS, query.(includeHistory := false), ranking)
  {
    hide Shown, Text;
    OfferedIsActive(ranking);
    HistoryAddsNothing(query, Take(Offered(MemOS, ranking), FetchSize(MemOS, query.limit)));
  }

  /** What a history query would show of one item, and whether the server offers the item. */
  lemma ShownOne(query: Query, x: Item)
    requires query.includeHistory
    ensures |Shown(MemOS, query, [x])| == if Kept(MemOS, query, x) then 1 else 0
  {
    hide Decode;
    assert [x][..0] == [] && Shown(MemOS, query, []) == [];
  }

  /** Going on from the front: the first item is offered exactly when it is active. */
  lemma OfferedStep(query: Query, ranking: seq<Item>)
    requires ranking != []
    ensures Shown(MemOS, query, ranking) == Shown(MemOS, query, [ranking[0]]) + Shown(MemOS, query, ranking[1..])
    ensures Shown(MemOS, query, Offered(MemOS, ranking))
            == (if Text(ranking[0].metadata, "cm_lifecycle_status") != "active" then []
                else Shown(MemOS, query, [ranking[0]]))
               + Shown(MemOS, query, Offered(MemOS, ranking[1..]))
  {
    hide Shown, Text;
    assert ranking == [ranking[0]] + ranking[1..];
    ShownConcat(MemOS, query, [ranking[0]], ranking[1..]);
    ShownConcat(MemOS, query, [ranking[0]], Offered(MemOS, ranking[1..]));
    assert [] + Offered(MemOS, ranking[1..]) == Offered(MemOS, ranking[1..]);
    assert [] + Shown(MemOS, query, Offered(MemOS, ranking[1..])) == Shown(MemOS, query, Offered(MemOS, ranking[1..]));
  }

  ghost predicate KeptAreActive(query: Query, ranking: seq<Item>) {
    forall x :: x in ranking && Kept(MemOS, query, x) ==> Text(x.metadata, "cm_lifecycle_status") == "active"
  }

  /** A history query loses something to the filter of the server exactly when there is history to show. */
  lemma {:induction false} HistoryLossExactly(query: Query, ranking: seq<Item>)
    requires query.includeHistory
    ensures Shown(MemOS, query, Offered(MemOS, ranking)) == Shown(MemOS, query, ranking)
            <==> KeptAreActive(query, ranking)
    ensures |Shown(MemOS, query, Offered(MemOS, ranking))| <= |Shown(MemOS, query, ranking)|
    ensures |Shown(MemOS, query, Offered(MemOS, ranking))| == |Shown(MemOS, query, ranking)| ==>
            KeptAreActive(query, ranking)
    decreases |ranking|
  {
    hide Shown, Text, Offered, Kept;
    if ranking == [] {
      NothingOffered();
    } else {
      HistoryLossExactly(query, ranking[1..]);
      OfferedStep(query, ranking);
      ShownOne(query, ranking[0]);
      assert forall x :: x in ranking <==> x == ranking[0] || x in ranking[1..];
    }
  }

  lemma NothingOffered()
    ensures Offered(MemOS, []) == []
  {
  }
}
