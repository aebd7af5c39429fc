/** The adapters over mem0, MemOS and Supermemory, each with the remote store it talks to. */
module RemoteBackends {
  import opened Common
  import opened MemoryRecords
  import opened NativeIndex
  import opened RemoteStore
  import opened RemoteRefinement

  method Find(e: Engine, listed: seq<Item>, id: string) returns (found: Option<Item>)
    ensures found == FindRecord(e, listed, id)
  {
    for i := 0 to |listed|
      invariant FindRecord(e, listed, id) == FindRecord(e, listed[i..], id)
    {
      assert listed[i..][1..] == listed[i + 1..];
      if ItemID(e, listed[i]) == id && !(e.Supermemory? && listed[i].forgotten) {
        return Some(listed[i]);
      }
    }
    return None;
  }

  method Show(e: Engine, query: Query, items: seq<Item>) returns (results: seq<Record>)
    ensures results == Truncate(Shown(e, query, items), query.limit)
  {
    hide Decode;
    results := [];
    for i := 0 to |items|
      invariant results == Shown(e, query, items[..i])
    {
      assert items[..i + 1][..i] == items[..i];
      var record := Decode(e, query.scope, items[i]);
      if record.id == "" || (e.Supermemory? && items[i].forgotten)
        || !(query.includeHistory || record.status == "active") {
        continue;
      }
      results := results + [record];
    }
    assert items[..|items|] == items;
    if query.limit > 0 && |results| > query.limit {
      results := results[..query.limit];
    }
  }

  class Mem0Backend {
    var store: Store

    constructor ()
      ensures store == Store([], 0)
    {
      store := Store([], 0);
    }

    method Put(record: Record)
      modifies this
      ensures store == RemotePut(Mem0, old(store), record)
    {
      var item := Item(store.next, Pair(record.scope.tenantID, record.scope.continuityID), record.content,
        RecordMetadata(record), false);
      store := Store(store.items + [item], store.next + 1);
    }

    method Search(query: Query) returns (results: seq<Record>)
      requires query.text == ""
      ensures results == RemoteListing(Mem0, store, query)
    {
      results := Show(Mem0, query, Listed(Mem0, store, query.scope));
    }

    method Update(record: Record) returns (ok: bool)
      modifies this
      ensures (store, ok) == RemoteUpdate(Mem0, old(store), record)
    {
      var item := Find(Mem0, Listed(Mem0, store, record.scope), record.id);
      ok := item.Some?;
      if ok {
        store := store.(items := Rewrite(store.items, item.value.pid, record.content, RecordMetadata(record)));
      }
    }

    method Delete(scope: Scope, recordID: string) returns (ok: bool)
      modifies this
      ensures (store, ok) == RemoteDelete(Mem0, old(store), scope, recordID)
    {
      var item := Find(Mem0, Listed(Mem0, store, scope), recordID);
      ok := item.Some?;
      if ok {
        store := store.(items := WithoutPids(store.items, {item.value.pid}));
      }
    }

    method ResetScope(scope: Scope)
      modifies this
      ensures store == RemoteReset(Mem0, old(store), scope)
      ensures forall x :: x in store.items ==> x.tag != TagOf(Mem0, scope)
      ensures PidsDistinct(old(store.items)) ==>
                forall x :: x in old(store.items) && x.tag != TagOf(Mem0, scope) ==> x in store.items
    {
      store := store.(items := WithoutPids(store.items, Pids(OfTag(store.items, TagOf(Mem0, scope)))));
    }

    method RebuildScope(scope: Scope, records: seq<Record>)
      modifies this
      ensures store == RemoteCall(Mem0, old(store), Op.Rebuild(scope, records)).0
    {
      hide RemotePut, RemoteReset;
      ResetScope(scope);
      for i := 0 to |records|
        invariant PutActiveRemote(Mem0, store, records[i..])
                  == RemoteCall(Mem0, old(store), Op.Rebuild(scope, records)).0
      {
        assert records[i..][1..] == records[i + 1..];
        if records[i].status != "active" {
          continue;
        }
        Put(records[i]);
      }
    }
  }

  class MemOSBackend {
    var store: Store

    constructor ()
      ensures store == Store([], 0)
    {
      store := Store([], 0);
    }

    method Put(record: Record)
      modifies this
      ensures store == RemotePut(MemOS, old(store), record)
    {
      var item := Item(store.next, TagOf(MemOS, record.scope), record.content, MemosRecordMetadata(record), false);
      store := Store(store.items + [item], store.next + 1);
    }

    method Search(query: Query) returns (results: seq<Record>)
      requires query.text == ""
      ensures results == RemoteListing(MemOS, store, query)
    {
      results := Show(MemOS, query, Listed(MemOS, store, query.scope));
    }

    method CollectPids(items: seq<Item>) returns (ids: set<nat>)
      ensures ids == Pids(items)
    {
      ids := {};
      for i := 0 to |items|
        invariant ids == Pids(items[..i])
      {
        assert items[..i + 1] == items[..i] + [items[i]];
        ids := ids + {items[i].pid};
      }
      assert items[..|items|] == items;
    }

    method Update(record: Record) returns (ok: bool)
      modifies this
      ensures (store, ok) == RemoteUpdate(MemOS, old(store), record)
    {
      hide RemotePut;
      ok := Delete(record.scope, record.id);
      if ok {
        Put(record);
      }
    }

    method Delete(scope: Scope, recordID: string) returns (ok: bool)
      modifies this
      ensures (store, ok) == RemoteDelete(MemOS, old(store), scope, recordID)
    {
      hide WithID, OfTag, WithoutPids;
      var items := Take(WithID(MemOS, OfTag(store.items, TagOf(MemOS, scope)), recordID), PAGE);
      if |items| == 0 {
        return false;
      }
      var ids := CollectPids(items);
      store := store.(items := WithoutPids(store.items, ids));
      return true;
    }

    method ResetScope(scope: Scope)
      modifies this
      ensures store == RemoteReset(MemOS, old(store), scope)
    {
      hide Listed;
      var items := Listed(MemOS, store, scope);
      if |items| == 0 {
        NothingToDrop(store.items);
        return;
      }
      var ids := CollectPids(items);
      store := store.(items := WithoutPids(store.items, ids));
    }

    method RebuildScope(scope: Scope, records: seq<Record>)
      modifies this
      ensures store == RemoteCall(MemOS, old(store), Op.Rebuild(scope, records)).0
    {
      hide RemotePut, RemoteReset;
      ResetScope(scope);
      for i := 0 to |records|
        invariant PutActiveRemote(MemOS, store, records[i..])
                  == RemoteCall(MemOS, old(store), Op.Rebuild(scope, records)).0
      {
        assert records[i..][1..] == records[i + 1..];
        if records[i].status != "active" {
          continue;
        }
        Put(records[i]);
      }
    }
  }

  lemma {:induction false} NothingToDrop(items: seq<Item>)
    ensures WithoutPids(items, {}) == items
    ensures Pids([]) == {}
  {
    if items != [] { NothingToDrop(items[1..]); }
  }

  class SupermemoryBackend {
    var store: Store

    constructor ()
      ensures store == Store([], 0)
    {
      store := Store([], 0);
    }

    method Put(record: Record)
      modifies this
      ensures store == RemotePut(Supermemory, old(store), record)
    {
      var item := Item(store.next, TagOf(Supermemory, record.scope), record.content, RecordMetadata(record), false);
      store := Store(store.items + [item], store.next + 1);
    }

    /** The server's answer to one page request. */
    function Page(items: seq<Item>, page: nat): (seq<Item>, nat)
      requires page >= 1
    {
      var from := if (page - 1) * 100 <= |items| then (page - 1) * 100 else |items|;
      var to := if page * 100 <= |items| then page * 100 else |items|;
      (items[from..to], (|items| + 99) / 100)
    }

    /** The pages together are the whole scope, each item once and in order; the loop ends. */
    method ListScope(scope: Scope) returns (all: seq<Item>)
      ensures all == Listed(Supermemory, store, scope)
    {
      hide OfTag;
      var items := OfTag(store.items, TagOf(Supermemory, scope));
      all := [];
      var page := 1;
      while true
        invariant page >= 1
        invariant all == items[..if (page - 1) * 100 <= |items| then (page - 1) * 100 else |items|]
        decreases |items| + 100 - page
      {
        var (entries, totalPages) := Page(items, page);
        all := all + entries;
        if totalPages <= page {
          return all;
        }
        page := page + 1;
      }
    }

    method Search(query: Query) returns (results: seq<Record>)
      requires query.text == ""
      ensures results == RemoteListing(Supermemory, store, query)
    {
      hide Listed, Shown;
      var items := ListScope(query.scope);
      results := Show(Supermemory, query, items);
    }

    method Update(record: Record) returns (ok: bool)
      modifies this
      ensures (store, ok) == RemoteUpdate(Supermemory, old(store), record)
    {
      hide Listed;
      var listed := ListScope(record.scope);
      var item := Find(Supermemory, listed, record.id);
      ok := item.Some?;
      if ok {
        store := store.(items := Rewrite(store.items, item.value.pid, record.content, RecordMetadata(record)));
      }
    }

    method Delete(scope: Scope, recordID: string) returns (ok: bool)
      modifies this
      ensures (store, ok) == RemoteDelete(Supermemory, old(store), scope, recordID)
    {
      hide Listed;
      var listed := ListScope(scope);
      var item := Find(Supermemory, listed, recordID);
      ok := item.Some?;
      if ok {
        store := store.(items := Forget(store.items, {item.value.pid}));
      }
    }

    method ResetScope(scope: Scope)
      modifies this
      ensures store == RemoteReset(Supermemory, old(store), scope)
    {
      hide Listed, Forget;
      var items := ListScope(scope);
      for i := 0 to |items|
        invariant store == old(store).(items := Forget(old(store).items, Pids(items[..i])))
      {
        assert items[..i + 1] == items[..i] + [items[i]];
        assert Pids(items[..i + 1]) == Pids(items[..i]) + {items[i].pid};
        store := store.(items := Forget(store.items, {items[i].pid}));
      }
      assert items[..|items|] == items;
    }

    method RebuildScope(scope: Scope, records: seq<Record>)
      modifies this
      ensures store == RemoteCall(Supermemory, old(store), Op.Rebuild(scope, records)).0
    {
      hide RemotePut, RemoteReset;
      ResetScope(scope);
      for i := 0 to |records|
        invariant PutActiveRemote(Supermemory, store, records[i..])
                  == RemoteCall(Supermemory, old(store), Op.Rebuild(scope, records)).0
      {
        assert records[i..][1..] == records[i + 1..];
        if records[i].status != "active" {
          continue;
        }
        Put(records[i]);
      }
    }
  }
}
