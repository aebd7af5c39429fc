/** The adapter over the PostgreSQL index. */
module NativeBackend {
  import opened MemoryRecords
  import opened NativeIndex

  class NativeBackend {
    var rows: Index

    constructor ()
      ensures rows == map[]
    {
      rows := map[];
    }

    /** INSERT ... ON CONFLICT DO UPDATE */
    method Put(record: Record) returns (ok: bool)
      modifies this
      ensures (rows, ok) == Call(old(rows), NativeIndex.Put(record))
      ensures ok <==> KeyOf(record) in rows && rows[KeyOf(record)] == record && FitsColumn(record)
      ensures Untouched(old(rows), rows, record.scope)
      ensures WellKeyed(old(rows)) ==> WellKeyed(rows)
    {
      ok := FitsColumn(record);
      if ok {
        rows := rows[KeyOf(record) := record];
      }
    }

    method Update(record: Record) returns (ok: bool)
      modifies this
      ensures (rows, ok) == Call(old(rows), NativeIndex.Update(record))
    {
      ok := Put(record);
    }

    method Delete(scope: Scope, recordID: string)
      modifies this
      ensures rows == Call(old(rows), NativeIndex.Delete(scope, recordID)).0
      ensures Untouched(old(rows), rows, scope)
      ensures forall id :: id in Rows(rows, scope, true) <==> id in Rows(old(rows), scope, true) && id != recordID
    {
      ghost var before := rows;
      rows := rows - {Key(scope.tenantID, scope.continuityID, recordID)};
      forall id ensures id in Rows(rows, scope, true) <==> id in Rows(before, scope, true) && id != recordID {
        RowsDomain(rows, scope, true, id);
        RowsDomain(before, scope, true, id);
      }
    }

    method ResetScope(scope: Scope)
      modifies this
      ensures rows == Call(old(rows), NativeIndex.Reset(scope)).0
      ensures Untouched(old(rows), rows, scope)
      ensures Rows(rows, scope, true) == map[]
    {
      rows := map k | k in rows && !InScope(k, scope) :: rows[k];
    }

    method RebuildScope(scope: Scope, records: seq<Record>) returns (ok: bool)
      modifies this
      ensures (rows, ok) == Call(old(rows), NativeIndex.Rebuild(scope, records))
      ensures OwnUntilRefused(scope, records) ==> Untouched(old(rows), rows, scope)
    {
      ghost var before := rows;
      RebuildIsIsolatedExactly(scope, records);
      assert OwnUntilRefused(scope, records) ==> Untouched(before, RebuildIn(before, scope, records).0, scope);
      ResetScope(scope);
      for i := 0 to |records|
        invariant PutActive(rows, records[i..]) == RebuildIn(old(rows), scope, records)
      {
        assert records[i..][1..] == records[i + 1..];
        if records[i].status != "active" {
          continue;
        }
        ok := Put(records[i]);
        if !ok {
          return;
        }
      }
      ok := true;
    }

    /** The rows come back in the order the database gives them: by record id when there is no text,
        by similarity otherwise. */
    method Search(query: Query, ordered: seq<Record>) returns (results: seq<Record>)
      requires IsRanking(rows, query, ordered)
      requires query.text == "" ==> ordered == Pick(Rows(rows, query.scope, query.includeHistory),
               Ordered(Rows(rows, query.scope, query.includeHistory).Keys))
      ensures query.text == "" ==> results == Listing(rows, query)
      ensures results == Take(ordered, if query.limit <= 0 then 10 else query.limit)
    {
      hide Rows, Ordered, Pick;
      var limit := query.limit;
      if limit <= 0 {
        limit := 10;
      }
      results := [];
      while |results| < |ordered| && |results| < limit
        invariant |results| <= |ordered| && |results| <= limit && results == ordered[..|results|]
      {
        results := results + [ordered[|results|]];
      }
    }
  }
}
