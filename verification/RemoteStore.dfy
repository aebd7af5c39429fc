/** The three remote engines as lists of items that obey the requests their adapters send. */
module RemoteStore {
  import opened Common
  import opened MemoryRecords
  import opened NativeIndex

  datatype Engine = Mem0 | MemOS | Supermemory

  /** What an engine files an item under.  The digest of the opaque tag is taken to be collision-free. */
  datatype Tag = Pair(userID: string, agentID: string) | Opaque(digested: string)

  datatype Item = Item(pid: nat, tag: Tag, memory: string, metadata: Metadata, forgotten: bool)
  datatype Store = Store(items: seq<Item>, next: nat)

  const PAGE := 1000

  function TagOf(e: Engine, scope: Scope): Tag {
    if e.Mem0? then Pair(scope.tenantID, scope.continuityID)
    else Opaque(scope.tenantID + "\0" + scope.continuityID)
  }

  // ----- Encoding -----

  function Encode(e: Engine, r: Record): Metadata {
    if e.MemOS? then MemosRecordMetadata(r) else RecordMetadata(r)
  }

  function Decode(e: Engine, scope: Scope, item: Item): Record {
    if e.MemOS? then MemosRecordFromItem(scope, item.memory, item.metadata)
    else RecordFromProvider(scope, item.memory, item.metadata)
  }

  function ItemID(e: Engine, item: Item): string {
    Text(item.metadata, if e.MemOS? then "cm_record_id" else "record_id")
  }

  function ItemScope(e: Engine, item: Item): Scope {
    if e.MemOS? then
      Scope(Text(item.metadata, "cm_tenant_id"), Text(item.metadata, "cm_continuity_id"),
        Text(item.metadata, "cm_continuity_line"))
    else
      Scope(Text(item.metadata, "tenant_id"), Text(item.metadata, "continuity_id"),
        Text(item.metadata, "continuity_line"))
  }

  function NewItem(e: Engine, r: Record, pid: nat): Item {
    Item(pid, TagOf(e, r.scope), r.content, Encode(e, r), false)
  }

  /** The record an item was made from. */
  function Origin(e: Engine, item: Item): Record { Decode(e, ItemScope(e, item), item) }

  predicate ClearTenant(e: Engine, scope: Scope) { e.Mem0? || '\0' !in scope.tenantID }

  /** Records that an engine can hold: they survive the trip through its metadata and can be found again. */
  predicate Holdable(e: Engine, r: Record) {
    && r.id != "" && r.status != "" && -1_000_000 < r.sourceVersion < 1_000_000
    && (e.MemOS? || r.metadata.Keys !! RESERVED)
    && ClearTenant(e, r.scope)
  }

  lemma NewItemReads(e: Engine, r: Record, pid: nat)
    ensures ItemID(e, NewItem(e, r, pid)) == r.id
    ensures ItemScope(e, NewItem(e, r, pid)) == r.scope
  {
    hide PrefixedFields;
    if e.MemOS? { MemosFixedKeys(r); } else { FixedKeys(r); }
  }

  /** A record comes back under the scope of whoever asks: the line is not read from the metadata. */
  lemma ReadBack(e: Engine, r: Record, pid: nat, scope: Scope)
    requires Holdable(e, r)
    ensures Decode(e, scope, NewItem(e, r, pid)) == r.(scope := scope)
    ensures Origin(e, NewItem(e, r, pid)) == r
  {
    hide MemosRecordMetadata, RecordMetadata, Text, ScanInt, UnprefixedFields;
    NewItemReads(e, r, pid);
    if e.MemOS? { MemosRoundTrip(r); } else { ProviderRoundTrip(r); }
  }

  // ----- Tags -----

  /** The tenant of a goes on, behind a separator, with what the continuity of b begins with. */
  ghost predicate Extends(a: Scope, b: Scope) {
    exists x: string :: a.tenantID == b.tenantID + "\0" + x && b.continuityID == x + "\0" + a.continuityID
  }

  lemma LongerExtends(a: Scope, b: Scope)
    requires a.tenantID + "\0" + a.continuityID == b.tenantID + "\0" + b.continuityID
    requires |b.tenantID| < |a.tenantID|
    ensures Extends(a, b)
  {
    var s := a.tenantID + "\0" + a.continuityID;
    var n, m := |b.tenantID|, |a.tenantID|;
    var x := a.tenantID[n + 1..];
    assert s[..m] == a.tenantID && s[n] == '\0';
    assert a.tenantID[..n] == s[..n] == b.tenantID;
    assert a.tenantID == b.tenantID + "\0" + x;
    assert b.continuityID == s[n + 1..];
    assert s[n + 1..] == x + "\0" + a.continuityID;
  }

  lemma SameLengthSameScope(a: Scope, b: Scope)
    requires a.tenantID + "\0" + a.continuityID == b.tenantID + "\0" + b.continuityID
    requires |b.tenantID| == |a.tenantID|
    ensures SameScope(a, b)
  {
    var s := a.tenantID + "\0" + a.continuityID;
    assert s[..|a.tenantID|] == a.tenantID && s[..|a.tenantID|] == b.tenantID;
    assert s[|a.tenantID| + 1..] == a.continuityID && s[|a.tenantID| + 1..] == b.continuityID;
  }

  lemma ExtendedCollide(a: Scope, b: Scope)
    requires Extends(a, b)
    ensures a.tenantID + "\0" + a.continuityID == b.tenantID + "\0" + b.continuityID
  {
    var x :| a.tenantID == b.tenantID + "\0" + x && b.continuityID == x + "\0" + a.continuityID;
    assert b.tenantID + "\0" + x + "\0" + a.continuityID == b.tenantID + "\0" + (x + "\0" + a.continuityID);
  }

  /** Exactly which scopes share a tag: none but equal ones where the tag is a pair, and otherwise also
      those where one tenant extends the other through the separator. */
  lemma TagsAgreeExactly(e: Engine, a: Scope, b: Scope)
    ensures TagOf(e, a) == TagOf(e, b) <==> SameScope(a, b) || (!e.Mem0? && (Extends(a, b) || Extends(b, a)))
  {
    hide Extends;
    if !e.Mem0? {
      if TagOf(e, a) == TagOf(e, b) {
        if |a.tenantID| == |b.tenantID| {
          SameLengthSameScope(a, b);
        } else if |a.tenantID| > |b.tenantID| {
          LongerExtends(a, b);
        } else {
          LongerExtends(b, a);
        }
      }
      if Extends(a, b) { ExtendedCollide(a, b); }
      if Extends(b, a) { ExtendedCollide(b, a); }
    }
  }

  /** Tags separate scopes whose tenants do not contain the separator. */
  lemma TagsSeparate(e: Engine, a: Scope, b: Scope)
    requires ClearTenant(e, a) && ClearTenant(e, b)
    ensures TagOf(e, a) == TagOf(e, b) <==> SameScope(a, b)
  {
    TagsAgreeExactly(e, a, b);
    if Extends(a, b) {
      var x :| a.tenantID == b.tenantID + "\0" + x && b.continuityID == x + "\0" + a.continuityID;
      assert a.tenantID[|b.tenantID|] == '\0';
    }
    if Extends(b, a) {
      var x :| b.tenantID == a.tenantID + "\0" + x && a.continuityID == x + "\0" + b.continuityID;
      assert b.tenantID[|a.tenantID|] == '\0';
    }
  }

  /** Every two texts around a separator give two scopes that share a tag. */
  lemma TagsCollide(e: Engine, tenant: string, x: string, continuity: string, line: string)
    requires !e.Mem0?
    ensures var a, b := Scope(tenant + "\0" + x, continuity, line), Scope(tenant, x + "\0" + continuity, line);
            TagOf(e, a) == TagOf(e, b) && !SameScope(a, b)
  {
    var a, b := Scope(tenant + "\0" + x, continuity, line), Scope(tenant, x + "\0" + continuity, line);
    assert Extends(a, b);
    TagsAgreeExactly(e, a, b);
    assert |a.tenantID| > |b.tenantID|;
  }

  // ----- Requests -----

  function OfTag(items: seq<Item>, tag: Tag): (r: seq<Item>)
    ensures forall x :: x in r <==> x in items && x.tag == tag
  {
    if items == [] then [] else (if items[0].tag == tag then [items[0]] else []) + OfTag(items[1..], tag)
  }

  function WithID(e: Engine, items: seq<Item>, id: string): (r: seq<Item>)
    ensures forall x :: x in r <==> x in items && ItemID(e, x) == id
  {
    if items == [] then [] else (if ItemID(e, items[0]) == id then [items[0]] else []) + WithID(e, items[1..], id)
  }

  function WithoutPids(items: seq<Item>, pids: set<nat>): (r: seq<Item>)
    ensures forall x :: x in r <==> x in items && x.pid !in pids
  {
    if items == [] then [] else (if items[0].pid !in pids then [items[0]] else []) + WithoutPids(items[1..], pids)
  }

  function Rewrite(items: seq<Item>, pid: nat, memory: string, metadata: Metadata): (r: seq<Item>)
    ensures |r| == |items|
    ensures forall i :: 0 <= i < |r| ==>
              r[i] == if items[i].pid == pid then items[i].(memory := memory, metadata := metadata) else items[i]
  {
    seq(|items|, i requires 0 <= i < |items| =>
      if items[i].pid == pid then items[i].(memory := memory, metadata := metadata) else items[i])
  }

  function Forget(items: seq<Item>, pids: set<nat>): (r: seq<Item>)
    ensures |r| == |items|
    ensures forall i :: 0 <= i < |r| ==> r[i] == if items[i].pid in pids then items[i].(forgotten := true) else items[i]
  {
    seq(|items|, i requires 0 <= i < |items| => if items[i].pid in pids then items[i].(forgotten := true) else items[i])
  }

  function Pids(items: seq<Item>): set<nat> { set x | x in items :: x.pid }

  /** What the adapter's listing of a scope returns: one page of a thousand items, or all pages. */
  function Listed(e: Engine, s: Store, scope: Scope): seq<Item> {
    if e.Supermemory? then OfTag(s.items, TagOf(e, scope)) else Take(OfTag(s.items, TagOf(e, scope)), PAGE)
  }

  /** findRecord: the first listed item with the id, forgotten ones passed over. */
  function FindRecord(e: Engine, listed: seq<Item>, id: string): (r: Option<Item>)
    ensures r.Some? ==> r.value in listed && ItemID(e, r.value) == id && !(e.Supermemory? && r.value.forgotten)
    ensures r.None? ==> forall x :: x in listed ==> ItemID(e, x) != id || (e.Supermemory? && x.forgotten)
  {
    if listed == [] then None
    else if ItemID(e, listed[0]) == id && !(e.Supermemory? && listed[0].forgotten) then Some(listed[0])
    else FindRecord(e, listed[1..], id)
  }

  // ----- Adapter calls -----

  function RemotePut(e: Engine, s: Store, r: Record): Store {
    Store(s.items + [NewItem(e, r, s.next)], s.next + 1)
  }

  function RemoteDelete(e: Engine, s: Store, scope: Scope, id: string): (Store, bool) {
    match e
    case Mem0 =>
      var item := FindRecord(e, Listed(e, s, scope), id);
      if item.None? then (s, false) else (s.(items := WithoutPids(s.items, {item.value.pid})), true)
    case MemOS =>
      var found := Take(WithID(e, OfTag(s.items, TagOf(e, scope)), id), PAGE);
      if found == [] then (s, false) else (s.(items := WithoutPids(s.items, Pids(found))), true)
    case Supermemory =>
      var item := FindRecord(e, Listed(e, s, scope), id);
      if item.None? then (s, false) else (s.(items := Forget(s.items, {item.value.pid})), true)
  }

  function RemoteUpdate(e: Engine, s: Store, r: Record): (Store, bool) {
    if e.MemOS? then
      var (t, ok) := RemoteDelete(e, s, r.scope, r.id);
      if ok then (RemotePut(e, t, r), true) else (s, false)
    else
      var item := FindRecord(e, Listed(e, s, r.scope), r.id);
      if item.None? then (s, false)
      else (s.(items := Rewrite(s.items, item.value.pid, r.content, Encode(e, r))), true)
  }

  function RemoteReset(e: Engine, s: Store, scope: Scope): Store {
    match e
    case Mem0 => s.(items := WithoutPids(s.items, Pids(OfTag(s.items, TagOf(e, scope)))))
    case MemOS => s.(items := WithoutPids(s.items, Pids(Listed(e, s, scope))))
    case Supermemory => s.(items := Forget(s.items, Pids(Listed(e, s, scope))))
  }

  function PutActiveRemote(e: Engine, s: Store, records: seq<Record>): Store
    decreases |records|
  {
    if records == [] then s
    else PutActiveRemote(e, if records[0].status == "active" then RemotePut(e, s, records[0]) else s, records[1..])
  }

  function RemoteCall(e: Engine, s: Store, op: Op): (Store, bool) {
    match op
    case Put(r) => (RemotePut(e, s, r), true)
    case Update(r) => RemoteUpdate(e, s, r)
    case Delete(scope, id) => RemoteDelete(e, s, scope, id)
    case Reset(scope) => (RemoteReset(e, s, scope), true)
    case Rebuild(scope, records) => (PutActiveRemote(e, RemoteReset(e, s, scope), records), true)
  }

  /** Search without a text: what is listed, decoded, without anonymous, forgotten and filtered items. */
  function Shown(e: Engine, query: Query, items: seq<Item>): seq<Record> {
    if items == [] then []
    else
      var n := |items| - 1;
      var r := Decode(e, query.scope, items[n]);
      Shown(e, query, items[..n])
      + if r.id == "" || (e.Supermemory? && items[n].forgotten) || !(query.includeHistory || r.status == "active")
        then [] else [r]
  }

  function Truncate(results: seq<Record>, limit: int): seq<Record> {
    if limit > 0 && |results| > limit then results[..limit] else results
  }

  function RemoteListing(e: Engine, s: Store, query: Query): seq<Record> {
    Truncate(Shown(e, query, Listed(e, s, query.scope)), query.limit)
  }
}
