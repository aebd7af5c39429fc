/** Each remote engine, driven by its adapter, is another form of the same table. */
module RemoteRefinement {
  import opened Common
  import opened MemoryRecords
  import opened NativeIndex
  import opened RemoteStore

  ghost predicate PidsDistinct(items: seq<Item>) {
    forall i, j :: 0 <= i < j < |items| ==> items[i].pid != items[j].pid
  }

  function LiveKey(e: Engine, x: Item): Key { KeyOf(Origin(e, x)) }

  /** A live item is the one that putting its record makes. */
  ghost predicate Faithful(e: Engine, x: Item) {
    Holdable(e, Origin(e, x)) && x == NewItem(e, Origin(e, x), x.pid)
  }

  ghost predicate OneLive(e: Engine, items: seq<Item>) {
    forall x, y :: x in items && y in items && !x.forgotten && !y.forgotten && LiveKey(e, x) == LiveKey(e, y) ==> x == y
  }

  ghost predicate Valid(e: Engine, s: Store) {
    && PidsDistinct(s.items)
    && (forall x :: x in s.items ==> x.pid < s.next)
    && (forall x :: x in s.items && x.forgotten ==> e.Supermemory?)
    && (forall x :: x in s.items && !x.forgotten ==> Faithful(e, x))
    && OneLive(e, s.items)
  }

  /** The live items are exactly the rows. */
  ghost predicate Shows(e: Engine, s: Store, ix: Index) {
    && (forall x :: x in s.items && !x.forgotten ==> LiveKey(e, x) in ix && ix[LiveKey(e, x)] == Origin(e, x))
    && (forall k :: k in ix ==> exists x :: x in s.items && !x.forgotten && LiveKey(e, x) == k)
  }

  // ----- Sequences of items -----

  lemma TailDistinct(items: seq<Item>)
    requires PidsDistinct(items) && items != []
    ensures PidsDistinct(items[1..]) && forall x :: x in items[1..] ==> x.pid != items[0].pid
  {
    forall i, j | 0 <= i < j < |items[1..]| ensures items[1..][i].pid != items[1..][j].pid {
      assert items[1..][i] == items[i + 1] && items[1..][j] == items[j + 1];
    }
  }

  lemma ConsDistinct(x: Item, rest: seq<Item>)
    requires PidsDistinct(rest) && forall y :: y in rest ==> y.pid != x.pid
    ensures PidsDistinct([x] + rest)
  {
    var s := [x] + rest;
    forall i, j | 0 <= i < j < |s| ensures s[i].pid != s[j].pid {
      assert s[j] == rest[j - 1] && rest[j - 1] in rest;
      if i > 0 { assert s[i] == rest[i - 1]; }
    }
  }

  lemma {:induction false} WithoutKeepsDistinct(items: seq<Item>, pids: set<nat>)
    requires PidsDistinct(items)
    ensures PidsDistinct(WithoutPids(items, pids))
  {
    hide PidsDistinct;
    if items != [] {
      TailDistinct(items);
      WithoutKeepsDistinct(items[1..], pids);
      var rest := WithoutPids(items[1..], pids);
      assert forall x :: x in rest ==> x in items[1..];
      ConsDistinct(items[0], rest);
      assert [] + rest == rest;
    } else {
      assert WithoutPids(items, pids) == items;
    }
  }

  lemma {:induction false} OfTagKeepsDistinct(items: seq<Item>, tag: Tag)
    requires PidsDistinct(items)
    ensures PidsDistinct(OfTag(items, tag))
  {
    hide PidsDistinct;
    if items != [] {
      TailDistinct(items);
      OfTagKeepsDistinct(items[1..], tag);
      var rest := OfTag(items[1..], tag);
      assert forall x :: x in rest ==> x in items[1..];
      ConsDistinct(items[0], rest);
      assert [] + rest == rest;
    } else {
      assert OfTag(items, tag) == items;
    }
  }

  lemma {:induction false} WithIDKeepsDistinct(e: Engine, items: seq<Item>, id: string)
    requires PidsDistinct(items)
    ensures PidsDistinct(WithID(e, items, id))
  {
    hide PidsDistinct, ItemID;
    if items != [] {
      TailDistinct(items);
      WithIDKeepsDistinct(e, items[1..], id);
      var rest := WithID(e, items[1..], id);
      assert forall x :: x in rest ==> x in items[1..];
      ConsDistinct(items[0], rest);
      assert [] + rest == rest;
    } else {
      assert WithID(e, items, id) == items;
    }
  }

  lemma {:induction false} DistinctFit(ids: seq<string>, all: set<string>)
    requires Distinct(ids) && forall id :: id in ids ==> id in all
    ensures |ids| <= |all|
    decreases |ids|
  {
    if ids != [] {
      forall i, j | 0 <= i < j < |ids[1..]| ensures ids[1..][i] != ids[1..][j] {
        assert ids[1..][i] == ids[i + 1] && ids[1..][j] == ids[j + 1];
      }
      forall id | id in ids[1..] ensures id in all - {ids[0]} {
        var i :| 0 <= i < |ids[1..]| && ids[1..][i] == id;
        assert ids[i + 1] == id;
      }
      DistinctFit(ids[1..], all - {ids[0]});
    }
  }

  // ----- Reading the store -----

  lemma FaithfulReads(e: Engine, x: Item)
    requires Faithful(e, x)
    ensures ItemID(e, x) == Origin(e, x).id && x.tag == TagOf(e, Origin(e, x).scope) && !x.forgotten
  {
    NewItemReads(e, Origin(e, x), x.pid);
  }

  /** A live item carries the tag of a scope exactly when its row is in that scope. */
  lemma TagIsScope(e: Engine, x: Item, scope: Scope)
    requires Faithful(e, x) && ClearTenant(e, scope)
    ensures x.tag == TagOf(e, scope) <==> InScope(LiveKey(e, x), scope)
  {
    FaithfulReads(e, x);
    TagsSeparate(e, Origin(e, x).scope, scope);
  }

  function IDs(e: Engine, items: seq<Item>): seq<string> {
    seq(|items|, i requires 0 <= i < |items| => ItemID(e, items[i]))
  }

  /** A listing reaches all of a scope: it reads every page, or one page is enough. */
  ghost predicate FitsListing(e: Engine, ix: Index, scope: Scope) {
    e.Supermemory? || |Rows(ix, scope, true)| <= PAGE
  }

  lemma ListedWhole(e: Engine, s: Store, ix: Index, scope: Scope)
    requires Valid(e, s) && Shows(e, s, ix) && ClearTenant(e, scope) && FitsListing(e, ix, scope)
    ensures Listed(e, s, scope) == OfTag(s.items, TagOf(e, scope))
    ensures !e.Supermemory? ==> |OfTag(s.items, TagOf(e, scope))| <= PAGE
  {
    hide Rows, Origin;
    if !e.Supermemory? {
      var listed := OfTag(s.items, TagOf(e, scope));
      var ids := IDs(e, listed);
      OfTagKeepsDistinct(s.items, TagOf(e, scope));
      forall x | x in listed
        ensures Faithful(e, x) && InScope(LiveKey(e, x), scope) && ItemID(e, x) == LiveKey(e, x).recordID {
        TagIsScope(e, x, scope);
        FaithfulReads(e, x);
      }
      forall i, j | 0 <= i < j < |ids| ensures ids[i] != ids[j] {
        assert listed[i] in listed && listed[j] in listed;
      }
      forall id | id in ids ensures id in Rows(ix, scope, true).Keys {
        var i :| 0 <= i < |ids| && ids[i] == id;
        assert listed[i] in listed;
        RowsDomain(ix, scope, true, id);
      }
      DistinctFit(ids, Rows(ix, scope, true).Keys);
    }
  }

  /** findRecord finds the live item of a row, and reports nothing when there is no such row. */
  lemma FindsRow(e: Engine, s: Store, ix: Index, scope: Scope, id: string)
    requires Valid(e, s) && Shows(e, s, ix) && ClearTenant(e, scope) && FitsListing(e, ix, scope)
    ensures var found := FindRecord(e, Listed(e, s, scope), id);
            var k := Key(scope.tenantID, scope.continuityID, id);
            && (found.Some? <==> k in ix)
            && (found.Some? ==> found.value in s.items && !found.value.forgotten && LiveKey(e, found.value) == k)
  {
    hide Rows, Origin;
    ListedWhole(e, s, ix, scope);
    var found := FindRecord(e, Listed(e, s, scope), id);
    var k := Key(scope.tenantID, scope.continuityID, id);
    if found.Some? {
      RowOfItem(e, s, ix, found.value, scope);
    } else if k in ix {
      var x :| x in s.items && !x.forgotten && LiveKey(e, x) == k;
      TagIsScope(e, x, scope);
      FaithfulReads(e, x);
    }
  }

  /** mem0 looks for a record among the first thousand items of the scope. */
  lemma Mem0FindsExactly(s: Store, ix: Index, scope: Scope, id: string)
    requires Valid(Mem0, s) && Shows(Mem0, s, ix)
    ensures var tagged := OfTag(s.items, TagOf(Mem0, scope)); var k := Key(scope.tenantID, scope.continuityID, id);
            FindRecord(Mem0, Listed(Mem0, s, scope), id).Some?
            <==> exists i :: 0 <= i < |tagged| && i < PAGE && LiveKey(Mem0, tagged[i]) == k
  {
    hide Rows, LiveKey, Shows, Valid, ItemID;
    var tagged := OfTag(s.items, TagOf(Mem0, scope));
    var listed := Listed(Mem0, s, scope);
    assert forall i :: 0 <= i < |listed| ==> listed[i] == tagged[i] && listed[i] in listed;
    forall i | 0 <= i < |tagged|
      ensures ItemID(Mem0, tagged[i]) == id <==> LiveKey(Mem0, tagged[i]) == Key(scope.tenantID, scope.continuityID, id)
    {
      assert tagged[i] in tagged;
      KeyOfTagged(Mem0, s, scope, tagged[i]);
    }
    FindsInList(Mem0, listed, id);
  }

  lemma FindsInList(e: Engine, listed: seq<Item>, id: string)
    requires !e.Supermemory?
    ensures FindRecord(e, listed, id).Some? <==> exists i :: 0 <= i < |listed| && ItemID(e, listed[i]) == id
  {
    hide ItemID;
    assert forall i :: 0 <= i < |listed| ==> listed[i] in listed;
  }

  lemma KeyOfTagged(e: Engine, s: Store, scope: Scope, x: Item)
    requires Valid(e, s) && ClearTenant(e, scope)
    requires x in s.items && (e.Supermemory? ==> !x.forgotten) && x.tag == TagOf(e, scope)
    ensures LiveKey(e, x) == Key(scope.tenantID, scope.continuityID, ItemID(e, x))
  {
    hide Origin;
    TagIsScope(e, x, scope);
    FaithfulReads(e, x);
  }

  lemma RowOfItem(e: Engine, s: Store, ix: Index, x: Item, scope: Scope)
    requires Valid(e, s) && Shows(e, s, ix) && ClearTenant(e, scope)
    requires x in s.items && !x.forgotten && x.tag == TagOf(e, scope)
    ensures LiveKey(e, x) == Key(scope.tenantID, scope.continuityID, ItemID(e, x)) && LiveKey(e, x) in ix
  {
    FaithfulReads(e, x);
    TagIsScope(e, x, scope);
  }

  // ----- Changing the store -----

  /** t has the items of s without those in gone, and x, which holds the record r. */
  ghost predicate Swapped(e: Engine, s: Store, t: Store, gone: set<nat>, x: Item, r: Record) {
    && PidsDistinct(t.items) && s.next <= t.next && x.pid < t.next
    && (forall y :: y in t.items <==> y == x || (y in s.items && y.pid !in gone))
    && !x.forgotten && Origin(e, x) == r && Faithful(e, x)
    && (forall y :: y in s.items && !y.forgotten ==> (y.pid in gone <==> LiveKey(e, y) == KeyOf(r)))
  }

  lemma SwapIsValid(e: Engine, s: Store, t: Store, gone: set<nat>, x: Item, r: Record)
    requires Valid(e, s) && Swapped(e, s, t, gone, x, r)
    ensures Valid(e, t)
  {
    hide Faithful, Origin, PidsDistinct;
  }

  lemma SwapShows(e: Engine, s: Store, t: Store, ix: Index, gone: set<nat>, x: Item, r: Record)
    requires Shows(e, s, ix) && Swapped(e, s, t, gone, x, r)
    ensures Shows(e, t, PutIn(ix, r))
  {
    hide Faithful, Origin, PidsDistinct;
    forall k | k in PutIn(ix, r) ensures exists y :: y in t.items && !y.forgotten && LiveKey(e, y) == k {
      if k == KeyOf(r) {
        assert x in t.items && LiveKey(e, x) == k;
      } else {
        var y :| y in s.items && !y.forgotten && LiveKey(e, y) == k;
        assert y in t.items;
      }
    }
  }

  lemma NewIsFaithful(e: Engine, r: Record, pid: nat)
    requires Holdable(e, r)
    ensures var x := NewItem(e, r, pid); Origin(e, x) == r && Faithful(e, x) && x.pid == pid && !x.forgotten
  {
    hide Holdable, Origin, NewItem;
    ReadBack(e, r, pid, r.scope);
    NewItemShape(e, r, pid);
  }

  lemma AppendDistinct(items: seq<Item>, x: Item)
    requires PidsDistinct(items) && forall y :: y in items ==> y.pid != x.pid
    ensures PidsDistinct(items + [x])
  {
    var t := items + [x];
    forall i, j | 0 <= i < j < |t| ensures t[i].pid != t[j].pid {
      assert t[i] == items[i] && items[i] in items;
    }
  }

  lemma PutStep(e: Engine, s: Store, ix: Index, r: Record)
    requires Valid(e, s) && Shows(e, s, ix) && Holdable(e, r) && KeyOf(r) !in ix
    ensures Valid(e, RemotePut(e, s, r)) && Shows(e, RemotePut(e, s, r), PutIn(ix, r))
  {
    hide Holdable, Origin, NewItem, Faithful, LiveKey, PidsDistinct;
    var t := RemotePut(e, s, r);
    var x := NewItem(e, r, s.next);
    NewIsFaithful(e, r, s.next);
    AppendDistinct(s.items, x);
    assert Swapped(e, s, t, {}, x, r);
    SwapIsValid(e, s, t, {}, x, r);
    SwapShows(e, s, t, ix, {}, x, r);
  }

  lemma NewItemShape(e: Engine, r: Record, pid: nat)
    ensures var x := NewItem(e, r, pid); x.pid == pid && !x.forgotten && x.tag == TagOf(e, r.scope)
  {
  }

  /** Putting an id keeps one live item per id exactly when the id was not live: this is where the
      append-only engines differ from the table, which overwrites. */
  lemma PutNeedsFreshID(e: Engine, s: Store, r: Record)
    requires Valid(e, s) && Holdable(e, r)
    ensures OneLive(e, RemotePut(e, s, r).items)
            <==> forall y :: y in s.items && !y.forgotten ==> LiveKey(e, y) != KeyOf(r)
  {
    hide Holdable, Origin, NewItem, Faithful, PidsDistinct;
    var x := NewItem(e, r, s.next);
    NewIsFaithful(e, r, s.next);
    assert LiveKey(e, x) == KeyOf(r);
    OneLiveAppend(e, s.items, x);
  }

  lemma OneLiveAppend(e: Engine, items: seq<Item>, x: Item)
    requires OneLive(e, items) && !x.forgotten && x !in items
    ensures OneLive(e, items + [x]) <==> forall y :: y in items && !y.forgotten ==> LiveKey(e, y) != LiveKey(e, x)
  {
    hide LiveKey;
    assert forall y :: y in items + [x] <==> y in items || y == x;
  }

  /** Dropping some items takes away exactly their rows. */
  ghost predicate Drops(e: Engine, s: Store, ix: Index, pids: set<nat>, ix': Index) {
    && (forall k :: k in ix' ==> k in ix && ix'[k] == ix[k])
    && (forall x :: x in s.items && !x.forgotten ==> (x.pid in pids <==> LiveKey(e, x) !in ix'))
  }

  lemma DropShows(e: Engine, s: Store, t: Store, ix: Index, pids: set<nat>, ix': Index)
    requires Shows(e, s, ix) && Drops(e, s, ix, pids, ix')
    requires forall x :: x in t.items && !x.forgotten <==> x in s.items && !x.forgotten && x.pid !in pids
    ensures Shows(e, t, ix')
  {
    hide LiveKey, Origin;
    forall k | k in ix' ensures exists x :: x in t.items && !x.forgotten && LiveKey(e, x) == k {
      var x :| x in s.items && !x.forgotten && LiveKey(e, x) == k;
      assert x in t.items && !x.forgotten;
    }
    forall x | x in t.items && !x.forgotten ensures LiveKey(e, x) in ix' && ix'[LiveKey(e, x)] == Origin(e, x) {
      assert x in s.items && !x.forgotten && x.pid !in pids;
    }
  }

  lemma WithoutIsValid(e: Engine, s: Store, pids: set<nat>)
    requires Valid(e, s)
    ensures Valid(e, s.(items := WithoutPids(s.items, pids)))
  {
    hide Faithful, LiveKey, Origin, PidsDistinct;
    WithoutKeepsDistinct(s.items, pids);
  }

  lemma DropStep(e: Engine, s: Store, ix: Index, pids: set<nat>, ix': Index)
    requires Valid(e, s) && Shows(e, s, ix) && Drops(e, s, ix, pids, ix')
    ensures var t := s.(items := WithoutPids(s.items, pids)); Valid(e, t) && Shows(e, t, ix')
  {
    hide Valid, Shows, Drops;
    WithoutIsValid(e, s, pids);
    DropShows(e, s, s.(items := WithoutPids(s.items, pids)), ix, pids, ix');
  }

  lemma ForgetMembers(items: seq<Item>, pids: set<nat>)
    ensures forall x :: x in Forget(items, pids) && !x.forgotten ==> x in items && x.pid !in pids
    ensures forall x :: x in items && x.pid !in pids ==> x in Forget(items, pids)
    ensures forall x :: x in Forget(items, pids) ==> exists y :: y in items && y.pid == x.pid
  {
    var r := Forget(items, pids);
    forall x | x in r
      ensures (exists y :: y in items && y.pid == x.pid) && (!x.forgotten ==> x in items && x.pid !in pids)
    {
      var i :| 0 <= i < |r| && r[i] == x;
      assert items[i] in items;
    }
    forall x | x in items && x.pid !in pids ensures x in r {
      var i :| 0 <= i < |items| && items[i] == x;
      assert r[i] == x;
    }
  }

  lemma ForgetStep(s: Store, ix: Index, pids: set<nat>, ix': Index)
    requires Valid(Supermemory, s) && Shows(Supermemory, s, ix) && Drops(Supermemory, s, ix, pids, ix')
    ensures var t := s.(items := Forget(s.items, pids)); Valid(Supermemory, t) && Shows(Supermemory, t, ix')
  {
    hide Valid, Shows, Drops, Forget;
    ForgetMembers(s.items, pids);
    ForgetIsValid(s, pids);
    DropShows(Supermemory, s, s.(items := Forget(s.items, pids)), ix, pids, ix');
  }

  lemma ForgetIsValid(s: Store, pids: set<nat>)
    requires Valid(Supermemory, s)
    ensures Valid(Supermemory, s.(items := Forget(s.items, pids)))
  {
    hide Faithful, LiveKey, Origin, Forget, PidsDistinct;
    var t := s.(items := Forget(s.items, pids));
    ForgetMembers(s.items, pids);
    ForgetDistinct(s.items, pids);
    forall x | x in t.items ensures x.pid < t.next {
      var y :| y in s.items && y.pid == x.pid;
    }
  }

  lemma ForgetDistinct(items: seq<Item>, pids: set<nat>)
    requires PidsDistinct(items)
    ensures PidsDistinct(Forget(items, pids))
  {
  }

  lemma RowDrops(e: Engine, s: Store, ix: Index, x: Item, scope: Scope, id: string)
    requires Valid(e, s) && Shows(e, s, ix) && x in s.items && !x.forgotten
    requires LiveKey(e, x) == Key(scope.tenantID, scope.continuityID, id)
    ensures Drops(e, s, ix, {x.pid}, DeleteIn(ix, scope, id))
  {
    hide Faithful, LiveKey, Origin;
    forall y | y in s.items && !y.forgotten ensures y.pid == x.pid <==> LiveKey(e, y) !in DeleteIn(ix, scope, id) {
    }
  }

  lemma DeleteStep(e: Engine, s: Store, ix: Index, scope: Scope, id: string)
    requires Valid(e, s) && Shows(e, s, ix) && ClearTenant(e, scope)
    requires e.Mem0? ==> FitsListing(e, ix, scope)
    ensures var (t, ok) := RemoteDelete(e, s, scope, id);
            && (ok <==> Key(scope.tenantID, scope.continuityID, id) in ix)
            && (!ok ==> t == s)
            && Valid(e, t) && Shows(e, t, DeleteIn(ix, scope, id))
            && t.next == s.next
  {
    hide Faithful, LiveKey, Origin, Rows, Valid, Shows;
    var k := Key(scope.tenantID, scope.continuityID, id);
    if k !in ix { assert DeleteIn(ix, scope, id) == ix; }
    if e.MemOS? {
      MemosFinds(s, ix, scope, id);
      if k in ix {
        var x := MemosFound(s, ix, scope, id);
        RowDrops(e, s, ix, x, scope, id);
        DropStep(e, s, ix, {x.pid}, DeleteIn(ix, scope, id));
      }
    } else {
      FindsRow(e, s, ix, scope, id);
      var found := FindRecord(e, Listed(e, s, scope), id);
      if found.Some? {
        RowDrops(e, s, ix, found.value, scope, id);
        if e.Mem0? {
          DropStep(e, s, ix, {found.value.pid}, DeleteIn(ix, scope, id));
        } else {
          ForgetStep(s, ix, {found.value.pid}, DeleteIn(ix, scope, id));
        }
      }
    }
  }

  function MemosMatches(s: Store, scope: Scope, id: string): seq<Item> {
    Take(WithID(MemOS, OfTag(s.items, TagOf(MemOS, scope)), id), PAGE)
  }

  /** One item at most carries an id in a scope, so that the page holds it. */
  lemma MemosMatchesOne(s: Store, scope: Scope, id: string)
    requires Valid(MemOS, s) && ClearTenant(MemOS, scope)
    ensures |WithID(MemOS, OfTag(s.items, TagOf(MemOS, scope)), id)| <= 1
  {
    hide Origin, LiveKey, Faithful, ItemID;
    var tagged := OfTag(s.items, TagOf(MemOS, scope));
    var found := WithID(MemOS, tagged, id);
    OfTagKeepsDistinct(s.items, TagOf(MemOS, scope));
    WithIDKeepsDistinct(MemOS, tagged, id);
    if |found| > 1 {
      assert found[0] in found && found[1] in found;
      KeyOfTagged(MemOS, s, scope, found[0]);
      KeyOfTagged(MemOS, s, scope, found[1]);
    }
  }

  /** MemOS filters by id on the server; the page holds the items of the row and nothing else. */
  lemma MemosFinds(s: Store, ix: Index, scope: Scope, id: string)
    requires Valid(MemOS, s) && Shows(MemOS, s, ix) && ClearTenant(MemOS, scope)
    ensures var k := Key(scope.tenantID, scope.continuityID, id);
            && (MemosMatches(s, scope, id) != [] <==> k in ix)
            && forall x :: x in MemosMatches(s, scope, id) <==> x in s.items && LiveKey(MemOS, x) == k
  {
    hide Rows, Origin;
    var tag := TagOf(MemOS, scope);
    var k := Key(scope.tenantID, scope.continuityID, id);
    MemosMatchesOne(s, scope, id);
    var found := MemosMatches(s, scope, id);
    forall x | x in s.items ensures x in found <==> LiveKey(MemOS, x) == k {
      TagIsScope(MemOS, x, scope);
      FaithfulReads(MemOS, x);
    }
    if k in ix {
      var x :| x in s.items && !x.forgotten && LiveKey(MemOS, x) == k;
      assert x in found;
    }
    assert found != [] ==> found[0] in found;
  }

  lemma MemosFound(s: Store, ix: Index, scope: Scope, id: string) returns (x: Item)
    requires Valid(MemOS, s) && Shows(MemOS, s, ix) && ClearTenant(MemOS, scope)
    requires Key(scope.tenantID, scope.continuityID, id) in ix
    ensures x in s.items && !x.forgotten && LiveKey(MemOS, x) == Key(scope.tenantID, scope.continuityID, id)
    ensures Pids(MemosMatches(s, scope, id)) == {x.pid}
  {
    hide Rows, Origin, LiveKey, Faithful;
    MemosFinds(s, ix, scope, id);
    var found := MemosMatches(s, scope, id);
    x := found[0];
    assert x in found;
    forall y | y in found ensures y == x {}
  }

  lemma ScopeDrops(e: Engine, s: Store, ix: Index, scope: Scope)
    requires Valid(e, s) && Shows(e, s, ix) && ClearTenant(e, scope)
    ensures Drops(e, s, ix, Pids(OfTag(s.items, TagOf(e, scope))), ResetIn(ix, scope))
  {
    hide Origin, LiveKey, Valid, ResetIn;
    var tagged := OfTag(s.items, TagOf(e, scope));
    forall x | x in s.items && !x.forgotten ensures x.pid in Pids(tagged) <==> LiveKey(e, x) !in ResetIn(ix, scope) {
      TaggedByPid(e, s, scope, x);
      IsInScope(e, s, scope, x);
      ResetKeeps(ix, scope, LiveKey(e, x));
    }
    forall k | k in ResetIn(ix, scope) ensures k in ix && ResetIn(ix, scope)[k] == ix[k] { ResetKeeps(ix, scope, k); }
  }

  lemma ResetKeeps(ix: Index, scope: Scope, k: Key)
    ensures k in ResetIn(ix, scope) <==> k in ix && !InScope(k, scope)
    ensures k in ResetIn(ix, scope) ==> ResetIn(ix, scope)[k] == ix[k]
  {
  }

  lemma IsInScope(e: Engine, s: Store, scope: Scope, x: Item)
    requires Valid(e, s) && ClearTenant(e, scope) && x in s.items && !x.forgotten
    ensures x.tag == TagOf(e, scope) <==> InScope(LiveKey(e, x), scope)
  {
    TagIsScope(e, x, scope);
  }

  lemma TaggedByPid(e: Engine, s: Store, scope: Scope, x: Item)
    requires Valid(e, s) && x in s.items
    ensures x.pid in Pids(OfTag(s.items, TagOf(e, scope))) <==> x.tag == TagOf(e, scope)
  {
    hide Faithful, OneLive, Origin, LiveKey;
    var tagged := OfTag(s.items, TagOf(e, scope));
    if x.pid in Pids(tagged) {
      var y :| y in tagged && y.pid == x.pid;
      assert y in s.items;
    }
  }

  lemma ResetStep(e: Engine, s: Store, ix: Index, scope: Scope)
    requires Valid(e, s) && Shows(e, s, ix) && ClearTenant(e, scope)
    requires e.MemOS? ==> FitsListing(e, ix, scope)
    ensures Valid(e, RemoteReset(e, s, scope)) && Shows(e, RemoteReset(e, s, scope), ResetIn(ix, scope))
  {
    hide Valid, Shows, Rows;
    if e.MemOS? { ListedWhole(e, s, ix, scope); }
    ScopeDrops(e, s, ix, scope);
    var pids := Pids(OfTag(s.items, TagOf(e, scope)));
    if e.Supermemory? {
      ForgetStep(s, ix, pids, ResetIn(ix, scope));
    } else {
      DropStep(e, s, ix, pids, ResetIn(ix, scope));
    }
  }

  lemma RewriteMembers(items: seq<Item>, x: Item, memory: string, metadata: Metadata)
    requires PidsDistinct(items) && x in items
    ensures var r := Rewrite(items, x.pid, memory, metadata); var x' := x.(memory := memory, metadata := metadata);
            && PidsDistinct(r)
            && forall y :: y in r <==> y == x' || (y in items && y.pid != x.pid)
  {
    var r := Rewrite(items, x.pid, memory, metadata);
    var x' := x.(memory := memory, metadata := metadata);
    forall y | y in r ensures y == x' || (y in items && y.pid != x.pid) {
      var i :| 0 <= i < |r| && r[i] == y;
    }
    forall y | y in items && y.pid != x.pid ensures y in r {
      var i :| 0 <= i < |items| && items[i] == y;
      assert r[i] == y;
    }
    var i :| 0 <= i < |items| && items[i] == x;
    assert r[i] == x';
  }

  lemma RewriteStep(e: Engine, s: Store, ix: Index, x: Item, r: Record)
    requires Valid(e, s) && Shows(e, s, ix) && Holdable(e, r)
    requires x in s.items && !x.forgotten && LiveKey(e, x) == KeyOf(r)
    ensures var t := s.(items := Rewrite(s.items, x.pid, r.content, Encode(e, r)));
            Valid(e, t) && Shows(e, t, PutIn(ix, r))
  {
    hide Origin, Holdable, Encode, Rewrite, Faithful, PidsDistinct;
    var t := s.(items := Rewrite(s.items, x.pid, r.content, Encode(e, r)));
    var x' := NewItem(e, r, x.pid);
    RewriteMembers(s.items, x, r.content, Encode(e, r));
    NewIsFaithful(e, r, x.pid);
    FaithfulReads(e, x);
    assert x' == x.(memory := r.content, metadata := Encode(e, r));
    RewriteSwaps(e, s, t, x, x', r);
    SwapIsValid(e, s, t, {x.pid}, x', r);
    SwapShows(e, s, t, ix, {x.pid}, x', r);
  }

  lemma RewriteSwaps(e: Engine, s: Store, t: Store, x: Item, x': Item, r: Record)
    requires Valid(e, s) && x in s.items && !x.forgotten && LiveKey(e, x) == KeyOf(r)
    requires PidsDistinct(t.items) && t.next == s.next && x'.pid == x.pid
    requires forall y :: y in t.items <==> y == x' || (y in s.items && y.pid != x.pid)
    requires !x'.forgotten && Origin(e, x') == r && Faithful(e, x')
    ensures Swapped(e, s, t, {x.pid}, x', r)
  {
    hide Origin, Faithful, LiveKey;
    forall y | y in s.items && !y.forgotten ensures y.pid in {x.pid} <==> LiveKey(e, y) == KeyOf(r) {
    }
  }

  lemma UpdateStep(e: Engine, s: Store, ix: Index, r: Record)
    requires Valid(e, s) && Shows(e, s, ix) && Holdable(e, r)
    requires e.Mem0? ==> FitsListing(e, ix, r.scope)
    ensures var (t, ok) := RemoteUpdate(e, s, r);
            && (ok <==> KeyOf(r) in ix)
            && (!ok ==> t == s)
            && (ok ==> Valid(e, t) && Shows(e, t, PutIn(ix, r)))
  {
    hide Valid, Shows, Rows, RemoteDelete;
    assert ClearTenant(e, r.scope);
    if e.MemOS? {
      DeleteStep(e, s, ix, r.scope, r.id);
      var (t, ok) := RemoteDelete(e, s, r.scope, r.id);
      if ok {
        PutStep(e, t, DeleteIn(ix, r.scope, r.id), r);
        assert PutIn(DeleteIn(ix, r.scope, r.id), r) == PutIn(ix, r);
      }
    } else {
      UpdateInPlace(e, s, ix, r);
    }
  }

  lemma UpdateInPlace(e: Engine, s: Store, ix: Index, r: Record)
    requires !e.MemOS? && Valid(e, s) && Shows(e, s, ix) && Holdable(e, r)
    requires e.Mem0? ==> FitsListing(e, ix, r.scope)
    ensures var (t, ok) := RemoteUpdate(e, s, r);
            && (ok <==> KeyOf(r) in ix)
            && (!ok ==> t == s)
            && (ok ==> Valid(e, t) && Shows(e, t, PutIn(ix, r)))
  {
    hide Valid, Shows, Rows, Rewrite, LiveKey;
    FindsRow(e, s, ix, r.scope, r.id);
    var found := FindRecord(e, Listed(e, s, r.scope), r.id);
    if found.Some? { RewriteStep(e, s, ix, found.value, r); }
  }

  /** The records a rebuild is given: its own scope's, holdable, and no id twice among the active ones. */
  ghost predicate Rebuildable(e: Engine, scope: Scope, records: seq<Record>) {
    && (forall r :: r in records && r.status == "active" ==> Holdable(e, r) && SameScope(r.scope, scope))
    && (forall i, j :: 0 <= i < j < |records| && records[i].status == "active" && records[j].status == "active" ==>
          records[i].id != records[j].id)
  }

  lemma RebuildableTail(e: Engine, scope: Scope, records: seq<Record>)
    requires records != [] && Rebuildable(e, scope, records)
    ensures Rebuildable(e, scope, records[1..])
    ensures records[0].status == "active" ==> forall r :: r in records[1..] && r.status == "active" ==>
            KeyOf(r) != KeyOf(records[0])
  {
    forall i, j | 0 <= i < j < |records[1..]| && records[1..][i].status == "active"
      && records[1..][j].status == "active"
      ensures records[1..][i].id != records[1..][j].id
    {
      assert records[1..][i] == records[i + 1] && records[1..][j] == records[j + 1];
    }
    forall r | r in records[1..] && r.status == "active" && records[0].status == "active"
      ensures KeyOf(r) != KeyOf(records[0]) {
      var j :| 0 <= j < |records[1..]| && records[1..][j] == r;
      assert records[j + 1] == r;
    }
  }

  lemma {:induction false} PutActiveStep(e: Engine, s: Store, ix: Index, scope: Scope, records: seq<Record>)
    requires Valid(e, s) && Shows(e, s, ix) && Rebuildable(e, scope, records)
    requires forall r :: r in records && r.status == "active" ==> KeyOf(r) !in ix
    ensures var t := PutActiveRemote(e, s, records); var (ix', ok) := PutActive(ix, records);
            ok && Valid(e, t) && Shows(e, t, ix')
    decreases |records|
  {
    hide Valid, Shows, RemotePut, Rebuildable;
    if records != [] {
      RebuildableTail(e, scope, records);
      assert forall r :: r in records[1..] ==> r in records;
      if records[0].status == "active" {
        FirstHolds(e, scope, records);
        PutStep(e, s, ix, records[0]);
        PutActiveStep(e, RemotePut(e, s, records[0]), PutIn(ix, records[0]), scope, records[1..]);
      } else {
        PutActiveStep(e, s, ix, scope, records[1..]);
      }
    }
  }

  lemma FirstHolds(e: Engine, scope: Scope, records: seq<Record>)
    requires records != [] && Rebuildable(e, scope, records) && records[0].status == "active"
    ensures Holdable(e, records[0]) && FitsColumn(records[0])
  {
    assert records[0] in records;
  }

  lemma RebuildStep(e: Engine, s: Store, ix: Index, scope: Scope, records: seq<Record>)
    requires Valid(e, s) && Shows(e, s, ix) && ClearTenant(e, scope) && Rebuildable(e, scope, records)
    requires e.MemOS? ==> FitsListing(e, ix, scope)
    ensures var t := PutActiveRemote(e, RemoteReset(e, s, scope), records);
              var (ix', ok) := RebuildIn(ix, scope, records);
            ok && Valid(e, t) && Shows(e, t, ix')
  {
    hide Valid, Shows, Rows, RemoteReset, Holdable;
    ResetStep(e, s, ix, scope);
    PutActiveStep(e, RemoteReset(e, s, scope), ResetIn(ix, scope), scope, records);
  }

  // ----- Runs -----

  /** The calls that rest on one page of a listing: mem0 looks for a record there, MemOS empties it. */
  predicate UsesOnePage(e: Engine, op: Op) {
    match e
    case Mem0 => op.Update? || op.Delete?
    case MemOS => op.Reset? || op.Rebuild?
    case Supermemory => false
  }

  /** The calls on which table and engines agree: puts of new ids, updates and deletes of present ones,
      and no scope larger than the page that a call rests on. */
  ghost predicate Proper(e: Engine, ix: Index, op: Op) {
    && (UsesOnePage(e, op) ==> |Rows(ix, OpScope(op), true)| <= PAGE)
    && match op
       case Put(r) => Holdable(e, r) && KeyOf(r) !in ix
       case Update(r) => Holdable(e, r) && KeyOf(r) in ix
       case Delete(scope, id) => ClearTenant(e, scope) && Key(scope.tenantID, scope.continuityID, id) in ix
       case Reset(scope) => ClearTenant(e, scope)
       case Rebuild(scope, records) => ClearTenant(e, scope) && Rebuildable(e, scope, records)
  }

  lemma CallRefines(e: Engine, s: Store, ix: Index, op: Op)
    requires Valid(e, s) && Shows(e, s, ix) && Proper(e, ix, op)
    ensures var (t, ok) := RemoteCall(e, s, op); var (ix', ok') := Call(ix, op);
            ok && ok' && Valid(e, t) && Shows(e, t, ix')
  {
    hide Valid, Shows, Rows, RemotePut, RemoteUpdate, RemoteDelete, RemoteReset, PutActiveRemote, RebuildIn,
         Rebuildable;
    match op
    case Put(r) => PutStep(e, s, ix, r);
    case Update(r) => UpdateStep(e, s, ix, r);
    case Delete(scope, id) => DeleteStep(e, s, ix, scope, id);
    case Reset(scope) => ResetStep(e, s, ix, scope);
    case Rebuild(scope, records) => RebuildStep(e, s, ix, scope, records);
  }

  function RemoteCalls(e: Engine, s: Store, ops: seq<Op>): (Store, bool)
    decreases |ops|
  {
    if ops == [] then (s, true)
    else
      var (t, ok) := RemoteCall(e, s, ops[0]);
      if ok then RemoteCalls(e, t, ops[1..]) else (t, false)
  }

  ghost predicate ProperRun(e: Engine, ix: Index, ops: seq<Op>)
    decreases |ops|
  {
    ops == [] || (Proper(e, ix, ops[0]) && ProperRun(e, Call(ix, ops[0]).0, ops[1..]))
  }

  /** Along every proper run no call fails, and the engine's live items remain exactly the table's rows,
      one item a row. */
  lemma {:induction false} RunRefines(e: Engine, s: Store, ix: Index, ops: seq<Op>)
    requires Valid(e, s) && Shows(e, s, ix) && ProperRun(e, ix, ops)
    ensures var (t, ok) := RemoteCalls(e, s, ops);
            ok && Valid(e, t) && Shows(e, t, Calls(ix, ops))
    decreases |ops|
  {
    hide Valid, Shows, Proper, RemoteCall, Call;
    if ops != [] {
      CallRefines(e, s, ix, ops[0]);
      RunRefines(e, RemoteCall(e, s, ops[0]).0, Call(ix, ops[0]).0, ops[1..]);
    }
  }

  /** Calls on rows that are not there: the engines report an error and change nothing, the table
      inserts on update and shrugs on delete. */
  lemma MissingRowsDiffer(e: Engine, s: Store, ix: Index, r: Record)
    requires Valid(e, s) && Shows(e, s, ix) && Holdable(e, r) && (e.Mem0? ==> FitsListing(e, ix, r.scope))
    ensures RemoteCall(e, s, Update(r)).1 <==> KeyOf(r) in ix
    ensures RemoteCall(e, s, Delete(r.scope, r.id)).1 <==> KeyOf(r) in ix
    ensures Call(ix, Update(r)).1 && Call(ix, Delete(r.scope, r.id)).1
    ensures KeyOf(r) !in ix ==> RemoteCall(e, s, Update(r)).0 == s && RemoteCall(e, s, Delete(r.scope, r.id)).0 == s
  {
    hide Valid, Shows, Rows, RemoteUpdate, RemoteDelete;
    UpdateStep(e, s, ix, r);
    DeleteStep(e, s, ix, r.scope, r.id);
  }

  lemma HasMember<T>(s: seq<T>)
    ensures s != [] ==> exists x :: x in s
  {
    if s != [] { assert s[0] in s; }
  }

  lemma PastThePageStays(s: Store, scope: Scope)
    requires PidsDistinct(s.items) && |OfTag(s.items, TagOf(MemOS, scope))| > PAGE
    ensures OfTag(RemoteReset(MemOS, s, scope).items, TagOf(MemOS, scope)) != []
  {
    var tagged := OfTag(s.items, TagOf(MemOS, scope));
    OfTagKeepsDistinct(s.items, TagOf(MemOS, scope));
    var x := tagged[PAGE];
    assert x in tagged;
    var listed := tagged[..PAGE];
    forall y | y in listed ensures y.pid != x.pid {
      var i :| 0 <= i < PAGE && listed[i] == y;
      assert tagged[i] == y;
    }
    assert x in OfTag(RemoteReset(MemOS, s, scope).items, TagOf(MemOS, scope));
  }

  /** MemOS resets one page: a scope is empty afterwards exactly when it had no more than that. */
  lemma MemosResetEmpties(s: Store, scope: Scope)
    requires PidsDistinct(s.items)
    ensures OfTag(RemoteReset(MemOS, s, scope).items, TagOf(MemOS, scope)) == []
            <==> |OfTag(s.items, TagOf(MemOS, scope))| <= PAGE
  {
    hide PidsDistinct;
    var tagged := OfTag(s.items, TagOf(MemOS, scope));
    if |tagged| <= PAGE {
      var after := OfTag(RemoteReset(MemOS, s, scope).items, TagOf(MemOS, scope));
      assert forall x :: x in after ==> x in tagged && x.pid !in Pids(tagged);
      HasMember(after);
    } else {
      PastThePageStays(s, scope);
    }
  }
}
