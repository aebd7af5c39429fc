/** What the adapters show: listings that agree with the table, and how far fetching ahead carries. */
module RemoteListings {
  import opened Common
  import opened MemoryRecords
  import opened NativeIndex
  import opened RemoteStore
  import opened RemoteRefinement

  /** The engines hand records back under the scope that was asked for, line included. */
  function UnderScope(rows: map<string, Record>, scope: Scope): map<string, Record> {
    map id | id in rows :: rows[id].(scope := scope)
  }

  predicate Kept(e: Engine, query: Query, x: Item) {
    var r := Decode(e, query.scope, x);
    r.id != "" && !(e.Supermemory? && x.forgotten) && (query.includeHistory || r.status == "active")
  }

  lemma {:induction false} ShownMembers(e: Engine, query: Query, items: seq<Item>, r: Record)
    ensures r in Shown(e, query, items)
            <==> exists x :: x in items && Kept(e, query, x) && Decode(e, query.scope, x) == r
  {
    hide Decode;
    if items != [] {
      var n := |items| - 1;
      assert items == items[..n] + [items[n]];
      ShownMembers(e, query, items[..n], r);
      var last := Decode(e, query.scope, items[n]);
      assert Shown(e, query, items) == Shown(e, query, items[..n]) + if Kept(e, query, items[n]) then [last] else [];
    }
  }

  lemma {:induction false} ShownDistinct(e: Engine, query: Query, items: seq<Item>)
    requires forall i, j :: 0 <= i < j < |items| && Kept(e, query, items[i]) && Kept(e, query, items[j]) ==>
               Decode(e, query.scope, items[i]).id != Decode(e, query.scope, items[j]).id
    ensures forall i, j :: 0 <= i < j < |Shown(e, query, items)| ==>
              Shown(e, query, items)[i].id != Shown(e, query, items)[j].id
  {
    hide Decode;
    if items != [] {
      var n := |items| - 1;
      ShownDistinct(e, query, items[..n]);
      var shown := Shown(e, query, items[..n]);
      var last := Decode(e, query.scope, items[n]);
      assert Shown(e, query, items) == shown + if Kept(e, query, items[n]) then [last] else [];
      if Kept(e, query, items[n]) {
        forall r | r in shown ensures r.id != last.id {
          ShownMembers(e, query, items[..n], r);
          var x :| x in items[..n] && Kept(e, query, x) && Decode(e, query.scope, x) == r;
          var i :| 0 <= i < n && items[i] == x;
        }
      }
    }
  }

  lemma LiveReads(e: Engine, s: Store, ix: Index, query: Query, x: Item)
    requires Valid(e, s) && Shows(e, s, ix) && ClearTenant(e, query.scope)
    requires x in s.items && x.tag == TagOf(e, query.scope) && !x.forgotten
    ensures var k := LiveKey(e, x);
            && k in ix && InScope(k, query.scope)
            && Decode(e, query.scope, x) == ix[k].(scope := query.scope) && ix[k].id == k.recordID != ""
  {
    hide Holdable, Decode;
    TagIsScope(e, x, query.scope);
    HoldableHasID(e, Origin(e, x));
    ReadBack(e, Origin(e, x), x.pid, query.scope);
  }

  lemma HoldableHasID(e: Engine, r: Record)
    requires Holdable(e, r)
    ensures r.id != ""
  {
  }

  /** Kept items are live, and show the visible row of their id. */
  lemma KeptShowsRow(e: Engine, s: Store, ix: Index, query: Query, x: Item)
    requires Valid(e, s) && Shows(e, s, ix) && ClearTenant(e, query.scope)
    requires x in s.items && x.tag == TagOf(e, query.scope) && Kept(e, query, x)
    ensures !x.forgotten
    ensures var r := Decode(e, query.scope, x);
              var rows := UnderScope(Rows(ix, query.scope, query.includeHistory), query.scope);
            r.id in rows && rows[r.id] == r
              && LiveKey(e, x) == Key(query.scope.tenantID, query.scope.continuityID, r.id)
  {
    hide Rows, Decode, LiveKey;
    LiveReads(e, s, ix, query, x);
    RowsDomain(ix, query.scope, query.includeHistory, LiveKey(e, x).recordID);
  }

  lemma RowIsKept(e: Engine, s: Store, ix: Index, query: Query, id: string)
    requires Valid(e, s) && Shows(e, s, ix) && ClearTenant(e, query.scope)
    requires id in Rows(ix, query.scope, query.includeHistory)
    ensures exists x :: x in s.items && x.tag == TagOf(e, query.scope) && Kept(e, query, x)
              && Decode(e, query.scope, x).id == id
  {
    hide Rows, Decode, Origin;
    RowsDomain(ix, query.scope, query.includeHistory, id);
    var k := Key(query.scope.tenantID, query.scope.continuityID, id);
    var x :| x in s.items && !x.forgotten && LiveKey(e, x) == k;
    TagIsScope(e, x, query.scope);
    LiveReads(e, s, ix, query, x);
  }

  /** A listing without a text shows exactly the table's visible rows of the scope, each once. */
  lemma ListingAgrees(e: Engine, s: Store, ix: Index, query: Query)
    requires Valid(e, s) && Shows(e, s, ix) && ClearTenant(e, query.scope)
    requires FitsListing(e, ix, query.scope)
    ensures Enumerates(UnderScope(Rows(ix, query.scope, query.includeHistory), query.scope),
            Shown(e, query, Listed(e, s, query.scope)))
  {
    hide Rows, Decode, Valid, Shows, Shown, LiveKey, Kept;
    ListedWhole(e, s, ix, query.scope);
    var items := OfTag(s.items, TagOf(e, query.scope));
    var rows := UnderScope(Rows(ix, query.scope, query.includeHistory), query.scope);
    var out := Shown(e, query, items);
    forall r | r in out ensures r.id in rows && rows[r.id] == r {
      ShownMembers(e, query, items, r);
      var x :| x in items && Kept(e, query, x) && Decode(e, query.scope, x) == r;
      KeptShowsRow(e, s, ix, query, x);
    }
    forall id | id in rows ensures exists r :: r in out && r.id == id {
      RowIsKept(e, s, ix, query, id);
      var x :| x in items && Kept(e, query, x) && Decode(e, query.scope, x).id == id;
      ShownMembers(e, query, items, Decode(e, query.scope, x));
    }
    ListedIDsDiffer(e, s, ix, query);
    ShownDistinct(e, query, items);
  }

  lemma ListedIDsDiffer(e: Engine, s: Store, ix: Index, query: Query)
    requires Valid(e, s) && Shows(e, s, ix) && ClearTenant(e, query.scope)
    ensures var items := OfTag(s.items, TagOf(e, query.scope));
            forall i, j :: 0 <= i < j < |items| && Kept(e, query, items[i]) && Kept(e, query, items[j]) ==>
              Decode(e, query.scope, items[i]).id != Decode(e, query.scope, items[j]).id
  {
    hide Rows, Decode, Shows, LiveKey, Kept, Origin;
    var items := OfTag(s.items, TagOf(e, query.scope));
    OfTagKeepsDistinct(s.items, TagOf(e, query.scope));
    forall i, j | 0 <= i < j < |items| && Kept(e, query, items[i]) && Kept(e, query, items[j])
      ensures Decode(e, query.scope, items[i]).id != Decode(e, query.scope, items[j]).id
    {
      assert items[i] in items && items[j] in items;
      KeptShowsRow(e, s, ix, query, items[i]);
      KeptShowsRow(e, s, ix, query, items[j]);
    }
  }

  lemma {:induction false} EnumerationSize(rows: map<string, Record>, out: seq<Record>)
    requires Enumerates(rows, out)
    ensures |out| == |rows|
  {
    var ids := seq(|out|, i requires 0 <= i < |out| => out[i].id);
    assert forall i :: 0 <= i < |out| ==> out[i] in out;
    DistinctFit(ids, rows.Keys);
    AllPresent(ids, rows.Keys, out);
  }

  lemma {:induction false} AllPresent(ids: seq<string>, all: set<string>, out: seq<Record>)
    requires |ids| == |out| && forall i :: 0 <= i < |ids| ==> ids[i] == out[i].id
    requires forall id :: id in all ==> exists r :: r in out && r.id == id
    ensures |all| <= |ids|
    decreases |ids|
  {
    if ids == [] {
      assert all == {};
    } else {
      var rest := all - {ids[0]};
      forall id | id in rest ensures exists r :: r in out[1..] && r.id == id {
        var r :| r in out && r.id == id;
        assert out == [out[0]] + out[1..];
        assert r in out[1..];
      }
      AllPresent(ids[1..], rest, out[1..]);
      assert all <= rest + {ids[0]};
      assert |all| <= |rest| + 1;
    }
  }

  /** After any proper run on two engines and the table, a listing that is not cut short shows the same
      records on both: as many as the table has, each of them the table's row under the asked scope. */
  lemma EnginesAgree(e: Engine, f: Engine, ops: seq<Op>, query: Query, r: Record)
    requires ProperRun(e, map[], ops) && ProperRun(f, map[], ops)
    requires FitsListing(e, Calls(map[], ops), query.scope) && FitsListing(f, Calls(map[], ops), query.scope)
    requires ClearTenant(e, query.scope) && ClearTenant(f, query.scope)
    requires query.limit <= 0 || |Rows(Calls(map[], ops), query.scope, query.includeHistory)| <= query.limit
    ensures var a := RemoteListing(e, RemoteCalls(e, Store([], 0), ops).0, query);
            var b := RemoteListing(f, RemoteCalls(f, Store([], 0), ops).0, query);
            var rows := UnderScope(Rows(Calls(map[], ops), query.scope, query.includeHistory), query.scope);
            && |a| == |b| == |rows|
            && (r in a <==> r in b) && (r in a <==> r.id in rows && rows[r.id] == r)
  {
    hide Calls, RemoteCalls, ProperRun, Rows, Valid, Shows, Shown, Listed, UnderScope;
    EngineShows(e, ops, query, r);
    EngineShows(f, ops, query, r);
  }

  lemma EngineShows(e: Engine, ops: seq<Op>, query: Query, r: Record)
    requires ProperRun(e, map[], ops) && FitsListing(e, Calls(map[], ops), query.scope) && ClearTenant(e, query.scope)
    requires query.limit <= 0 || |Rows(Calls(map[], ops), query.scope, query.includeHistory)| <= query.limit
    ensures var a := RemoteListing(e, RemoteCalls(e, Store([], 0), ops).0, query);
            var rows := UnderScope(Rows(Calls(map[], ops), query.scope, query.includeHistory), query.scope);
            && |a| == |rows| == |Rows(Calls(map[], ops), query.scope, query.includeHistory)|
            && (r in a <==> r.id in rows && rows[r.id] == r)
  {
    hide Calls, RemoteCalls, ProperRun, Rows, Valid, Shows, Shown, Listed;
    var ix := Calls(map[], ops);
    var s := RemoteCalls(e, Store([], 0), ops).0;
    EmptyStore(e);
    RunRefines(e, Store([], 0), map[], ops);
    ListingAgrees(e, s, ix, query);
    var rows := UnderScope(Rows(ix, query.scope, query.includeHistory), query.scope);
    EnumerationSize(rows, Shown(e, query, Listed(e, s, query.scope)));
    assert rows.Keys == Rows(ix, query.scope, query.includeHistory).Keys;
    assert |rows| == |rows.Keys|
      && |Rows(ix, query.scope, query.includeHistory)| == |Rows(ix, query.scope, query.includeHistory).Keys|;
  }

  lemma EmptyStore(e: Engine)
    ensures Valid(e, Store([], 0)) && Shows(e, Store([], 0), map[])
  {
  }
}
