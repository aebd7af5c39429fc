/** The PostgreSQL index as a table keyed by tenant, continuity and record id, and its adapter. */
module NativeIndex {
  import opened Common
  import opened MemoryRecords

  datatype Key = Key(tenantID: string, continuityID: string, recordID: string)

  /** The table; every row sits under its own key. */
  type Index = map<Key, Record>

  function KeyOf(r: Record): Key { Key(r.scope.tenantID, r.scope.continuityID, r.id) }

  predicate InScope(k: Key, scope: Scope) { k.tenantID == scope.tenantID && k.continuityID == scope.continuityID }

  predicate SameScope(a: Scope, b: Scope) { a.tenantID == b.tenantID && a.continuityID == b.continuityID }

  /** What every run keeps: a row sits under its own key and its version fits the column. */
  ghost predicate WellKeyed(ix: Index) {
    forall k :: k in ix ==> KeyOf(ix[k]) == k && FitsColumn(ix[k])
  }

  // ----- What the statements do to the table -----

  function PutIn(ix: Index, r: Record): Index { ix[KeyOf(r) := r] }

  function DeleteIn(ix: Index, scope: Scope, recordID: string): Index {
    ix - {Key(scope.tenantID, scope.continuityID, recordID)}
  }

  function ResetIn(ix: Index, scope: Scope): Index {
    map k | k in ix && !InScope(k, scope) :: ix[k]
  }

  /** source_version is an integer column: other values are refused. */
  predicate FitsColumn(r: Record) { -0x8000_0000 <= r.sourceVersion < 0x8000_0000 }

  /** The active ones of some records put in turn, stopping at the first that is refused. */
  function PutActive(ix: Index, records: seq<Record>): (Index, bool)
    decreases |records|
  {
    if records == [] then (ix, true)
    else if records[0].status != "active" then PutActive(ix, records[1..])
    else if !FitsColumn(records[0]) then (ix, false)
    else PutActive(PutIn(ix, records[0]), records[1..])
  }

  function RebuildIn(ix: Index, scope: Scope, records: seq<Record>): (Index, bool) {
    PutActive(ResetIn(ix, scope), records)
  }

  datatype Op =
    | Put(record: Record)
    | Update(record: Record)
    | Delete(scope: Scope, recordID: string)
    | Reset(scope: Scope)
    | Rebuild(scope: Scope, records: seq<Record>)

  function OpScope(op: Op): Scope {
    if op.Put? || op.Update? then op.record.scope else op.scope
  }

  /** The table after a call, and whether the call reports success. */
  function Call(ix: Index, op: Op): (Index, bool) {
    match op
    case Put(r) => if FitsColumn(r) then (PutIn(ix, r), true) else (ix, false)
    case Update(r) => if FitsColumn(r) then (PutIn(ix, r), true) else (ix, false)
    case Delete(scope, id) => (DeleteIn(ix, scope, id), true)
    case Reset(scope) => (ResetIn(ix, scope), true)
    case Rebuild(scope, records) => RebuildIn(ix, scope, records)
  }

  function Calls(ix: Index, ops: seq<Op>): Index
    decreases |ops|
  {
    if ops == [] then ix else Calls(Call(ix, ops[0]).0, ops[1..])
  }

  // ----- Listings -----

  /** The rows a query may see, by record id: the current ones, or with history all of its scope. */
  function Rows(ix: Index, scope: Scope, history: bool): map<string, Record> {
    map id | id in (set k | k in ix && InScope(k, scope) :: k.recordID)
             && (var k := Key(scope.tenantID, scope.continuityID, id); k in ix && (history || ix[k].status == "active"))
      :: ix[Key(scope.tenantID, scope.continuityID, id)]
  }

  lemma RowsDomain(ix: Index, scope: Scope, history: bool, id: string)
    ensures var k := Key(scope.tenantID, scope.continuityID, id);
            && (id in Rows(ix, scope, history) <==> k in ix && (history || ix[k].status == "active"))
            && (id in Rows(ix, scope, history) ==> Rows(ix, scope, history)[id] == ix[k])
  {
    var k := Key(scope.tenantID, scope.continuityID, id);
    if k in ix { assert InScope(k, scope) && k.recordID == id; }
  }

  ghost predicate IsLeast(ids: set<string>, m: string) {
    m in ids && forall x :: x in ids ==> LexLeq(m, x)
  }

  lemma {:induction false} LeastExists(ids: set<string>)
    requires ids != {}
    ensures exists m :: IsLeast(ids, m)
    ensures forall m, n :: IsLeast(ids, m) && IsLeast(ids, n) ==> m == n
    decreases |ids|
  {
    forall m, n | IsLeast(ids, m) && IsLeast(ids, n) ensures m == n { LexAntisym(m, n); }
    var y :| y in ids;
    LexRefl(y);
    var rest := ids - {y};
    assert forall x :: x in ids ==> x in rest || x == y;
    if rest == {} {
      assert IsLeast(ids, y);
    } else {
      LeastExists(rest);
      var m :| IsLeast(rest, m);
      LexTotal(m, y);
      if LexLeq(m, y) {
        assert IsLeast(ids, m);
      } else {
        forall x | x in ids ensures LexLeq(y, x) { if x != y { LexTrans(y, m, x); } }
        assert IsLeast(ids, y);
      }
    }
  }

  /** ORDER BY record_id */
  ghost function Ordered(ids: set<string>): (r: seq<string>)
    ensures |r| == |ids| && forall id :: id in r <==> id in ids
    ensures Sorted((a, b) => LexLeq(a, b), r)
    decreases |ids|
  {
    if ids == {} then []
    else
      LeastExists(ids);
      var m :| IsLeast(ids, m);
      [m] + Ordered(ids - {m})
  }

  ghost function Pick(rows: map<string, Record>, ids: seq<string>): seq<Record>
    requires forall id :: id in ids ==> id in rows
  {
    seq(|ids|, i requires 0 <= i < |ids| => rows[ids[i]])
  }

  function Take<T>(s: seq<T>, n: int): seq<T>
    requires n >= 0
  {
    if |s| <= n then s else s[..n]
  }

  /** The answer to a query without a text: the visible rows by record id, ten of them if no limit is given. */
  ghost function Listing(ix: Index, query: Query): seq<Record> {
    var rows := Rows(ix, query.scope, query.includeHistory);
    Take(Pick(rows, Ordered(rows.Keys)), if query.limit <= 0 then 10 else query.limit)
  }

  /** out lists the rows, each once, in some order. */
  ghost predicate Enumerates(rows: map<string, Record>, out: seq<Record>) {
    && (forall r :: r in out ==> r.id in rows && rows[r.id] == r)
    && (forall id :: id in rows ==> exists r :: r in out && r.id == id)
    && (forall i, j :: 0 <= i < j < |out| ==> out[i].id != out[j].id)
  }

  /** Any order the vector index may give the visible rows. */
  ghost predicate IsRanking(ix: Index, query: Query, ranking: seq<Record>) {
    Enumerates(Rows(ix, query.scope, query.includeHistory), ranking)
  }

  lemma PickedRows(rows: map<string, Record>, ids: seq<string>)
    requires forall id :: id in ids <==> id in rows
    requires forall id :: id in rows ==> rows[id].id == id
    requires |ids| == |rows|
    ensures Enumerates(rows, Pick(rows, ids))
  {
    var out := Pick(rows, ids);
    assert rows.Keys == set id | id in rows;
    assert |rows| == |rows.Keys|;
    forall i | 0 <= i < |out| ensures out[i] == rows[ids[i]] && out[i].id == ids[i] && ids[i] in rows {
      assert ids[i] in ids;
    }
    forall id | id in rows ensures exists r :: r in out && r.id == id {
      var i :| 0 <= i < |ids| && ids[i] == id;
      assert out[i] in out;
    }
    NoRepeats(ids, rows.Keys);
  }

  /** A listing that is not cut short shows every visible row once. */
  lemma TableListing(ix: Index, query: Query)
    requires WellKeyed(ix)
    requires |Rows(ix, query.scope, query.includeHistory)| <= if query.limit <= 0 then 10 else query.limit
    ensures Enumerates(Rows(ix, query.scope, query.includeHistory), Listing(ix, query))
  {
    hide Rows, Ordered, Pick, Enumerates;
    var rows := Rows(ix, query.scope, query.includeHistory);
    var ids := Ordered(rows.Keys);
    assert |rows| == |rows.Keys|;
    forall id | id in rows ensures rows[id].id == id {
      RowsDomain(ix, query.scope, query.includeHistory, id);
    }
    PickedRows(rows, ids);
    assert |Pick(rows, ids)| == |ids| by { PickedAll(rows, ids); }
  }

  lemma PickedAll(rows: map<string, Record>, ids: seq<string>)
    requires forall id :: id in ids ==> id in rows
    ensures |Pick(rows, ids)| == |ids|
  {
  }

  /** The first n rows by id: they are in order, and those left out come behind them. */
  ghost predicate FirstRows(rows: map<string, Record>, n: nat, out: seq<Record>) {
    && |out| == (if |rows| <= n then |rows| else n)
    && (forall r :: r in out ==> r.id in rows && rows[r.id] == r)
    && (forall i, j :: 0 <= i < j < |out| ==> out[i].id != out[j].id && LexLeq(out[i].id, out[j].id))
    && (forall i, id :: 0 <= i < |out| && id in rows && (forall r :: r in out ==> r.id != id) ==> LexLeq(out[i].id, id))
  }

  lemma PickedRow(rows: map<string, Record>, ids: seq<string>, n: nat)
    requires forall id :: id in ids <==> id in rows
    requires forall id :: id in rows ==> rows[id].id == id
    ensures var out := Take(Pick(rows, ids), n);
            && |out| == (if |ids| <= n then |ids| else n)
            && forall i :: 0 <= i < |out| ==> ids[i] in rows && out[i] == rows[ids[i]] && out[i].id == ids[i]
  {
    var out := Take(Pick(rows, ids), n);
    forall i | 0 <= i < |out| ensures ids[i] in rows && out[i] == rows[ids[i]] && out[i].id == ids[i] {
      assert ids[i] in ids;
    }
  }

  lemma PickedFirst(rows: map<string, Record>, ids: seq<string>, n: nat)
    requires forall id :: id in ids <==> id in rows
    requires forall id :: id in rows ==> rows[id].id == id
    requires |ids| == |rows| && Distinct(ids)
    requires forall i, j :: 0 <= i < j < |ids| ==> LexLeq(ids[i], ids[j])
    ensures FirstRows(rows, n, Take(Pick(rows, ids), n))
  {
    hide LexLeq, Pick, Take;
    var out := Take(Pick(rows, ids), n);
    PickedRow(rows, ids, n);
    forall i, id | 0 <= i < |out| && id in rows && (forall r :: r in out ==> r.id != id) ensures LexLeq(out[i].id, id) {
      var j :| 0 <= j < |ids| && ids[j] == id;
      assert forall k :: 0 <= k < |out| ==> out[k] in out;
    }
  }

  /** However short it is cut, a listing shows the first rows by record id, as many as asked for. */
  lemma ListingIsFirst(ix: Index, query: Query)
    requires WellKeyed(ix)
    ensures FirstRows(Rows(ix, query.scope, query.includeHistory), if query.limit <= 0 then 10 else query.limit,
                      Listing(ix, query))
  {
    hide Rows, Ordered, LexLeq, Pick, Take, FirstRows;
    var rows := Rows(ix, query.scope, query.includeHistory);
    var ids := Ordered(rows.Keys);
    assert |rows| == |rows.Keys|;
    forall id | id in rows ensures rows[id].id == id { RowsDomain(ix, query.scope, query.includeHistory, id); }
    NoRepeats(ids, rows.Keys);
    PickedFirst(rows, ids, if query.limit <= 0 then 10 else query.limit);
  }

  lemma {:induction false} NoRepeats(ids: seq<string>, all: set<string>)
    requires |ids| == |all| && forall id :: id in ids <==> id in all
    ensures Distinct(ids)
    decreases |ids|
  {
    if ids != [] {
      var rest := ids[1..];
      assert ids == [ids[0]] + rest;
      if ids[0] in rest {
        Cover(rest, all);
      } else {
        NoRepeats(rest, all - {ids[0]});
        forall i, j | 0 <= i < j < |ids| ensures ids[i] != ids[j] {
          assert ids[j] == rest[j - 1];
          if i > 0 { assert ids[i] == rest[i - 1]; }
        }
      }
    }
  }

  lemma {:induction false} Cover(ids: seq<string>, all: set<string>)
    requires forall id :: id in all ==> id in ids
    ensures |all| <= |ids|
    decreases |ids|
  {
    if ids != [] {
      assert ids == [ids[0]] + ids[1..];
      Cover(ids[1..], all - {ids[0]});
      assert all <= (all - {ids[0]}) + {ids[0]};
      assert |all| <= |all - {ids[0]}| + 1;
    } else {
      assert all == {};
    }
  }

  // ----- Isolation -----

  ghost predicate Untouched(before: Index, after: Index, scope: Scope) {
    forall k :: !InScope(k, scope) ==> (k in before <==> k in after) && (k in before ==> before[k] == after[k])
  }

  /** Every record that a rebuild gets to put is of the scope it rebuilds. */
  predicate OwnUntilRefused(scope: Scope, records: seq<Record>)
    decreases |records|
  {
    if records == [] then true
    else if records[0].status != "active" then OwnUntilRefused(scope, records[1..])
    else FitsColumn(records[0]) ==> SameScope(records[0].scope, scope) && OwnUntilRefused(scope, records[1..])
  }

  lemma {:induction false} PutActiveStays(ix: Index, scope: Scope, records: seq<Record>)
    requires OwnUntilRefused(scope, records)
    ensures Untouched(ix, PutActive(ix, records).0, scope)
    decreases |records|
  {
    if records != [] {
      if records[0].status != "active" {
        PutActiveStays(ix, scope, records[1..]);
      } else if FitsColumn(records[0]) {
        PutActiveStays(PutIn(ix, records[0]), scope, records[1..]);
        assert Untouched(ix, PutIn(ix, records[0]), scope);
      }
    }
  }

  /** Rows are only added or replaced. */
  lemma {:induction false} PutActiveGrows(ix: Index, records: seq<Record>)
    ensures ix.Keys <= PutActive(ix, records).0.Keys
    decreases |records|
  {
    if records != [] {
      PutActiveGrows(ix, records[1..]);
      PutActiveGrows(PutIn(ix, records[0]), records[1..]);
    }
  }

  /** The first record of another scope that is put leaves a row there. */
  lemma {:induction false} ForeignRecordLands(ix: Index, scope: Scope, records: seq<Record>)
    requires !OwnUntilRefused(scope, records)
    ensures exists k :: k in PutActive(ix, records).0 && !InScope(k, scope)
    decreases |records|
  {
    var first := records[0];
    if first.status != "active" {
      ForeignRecordLands(ix, scope, records[1..]);
    } else if SameScope(first.scope, scope) {
      ForeignRecordLands(PutIn(ix, first), scope, records[1..]);
    } else {
      PutActiveGrows(PutIn(ix, first), records[1..]);
      assert KeyOf(first) in PutIn(ix, first).Keys;
      assert KeyOf(first) in PutActive(ix, records).0 && !InScope(KeyOf(first), scope);
    }
  }

  /** A rebuild leaves every other scope as it was exactly when what it puts is its own. */
  lemma RebuildIsIsolatedExactly(scope: Scope, records: seq<Record>)
    ensures (forall ix: Index :: Untouched(ix, RebuildIn(ix, scope, records).0, scope))
            <==> OwnUntilRefused(scope, records)
  {
    if OwnUntilRefused(scope, records) {
      forall ix: Index ensures Untouched(ix, RebuildIn(ix, scope, records).0, scope) {
        PutActiveStays(ResetIn(ix, scope), scope, records);
        assert Untouched(ix, ResetIn(ix, scope), scope);
      }
    } else {
      var empty: Index := map[];
      assert ResetIn(empty, scope) == empty;
      ForeignRecordLands(empty, scope, records);
      assert !Untouched(empty, RebuildIn(empty, scope, records).0, scope);
    }
  }

  predicate OwnRecords(op: Op) { op.Rebuild? ==> OwnUntilRefused(op.scope, op.records) }

  /** No other call can change a row of another tenant or continuity. */
  lemma CallsAreIsolated(ix: Index, op: Op)
    requires OwnRecords(op)
    ensures Untouched(ix, Call(ix, op).0, OpScope(op))
  {
    if op.Rebuild? { RebuildIsIsolatedExactly(op.scope, op.records); }
  }

  /** Nor does a call on a scope remove a row of another one. */
  lemma CallKeepsOthers(ix: Index, op: Op, k: Key)
    requires k in ix && !InScope(k, OpScope(op))
    ensures k in Call(ix, op).0
  {
    if op.Rebuild? {
      assert k in ResetIn(ix, op.scope).Keys;
      PutActiveGrows(ResetIn(ix, op.scope), op.records);
    }
  }

  lemma {:induction false} CallsKeepOthers(ix: Index, ops: seq<Op>, scope: Scope, k: Key)
    requires forall op :: op in ops ==> SameScope(OpScope(op), scope)
    requires k in ix && !InScope(k, scope)
    ensures k in Calls(ix, ops)
    decreases |ops|
  {
    if ops != [] {
      assert ops[0] in ops && forall op :: op in ops[1..] ==> op in ops;
      CallKeepsOthers(ix, ops[0], k);
      CallsKeepOthers(Call(ix, ops[0]).0, ops[1..], scope, k);
    }
  }

  lemma {:induction false} OwnRunStays(ix: Index, ops: seq<Op>, scope: Scope)
    requires forall op :: op in ops ==> OwnRecords(op) && SameScope(OpScope(op), scope)
    ensures Untouched(ix, Calls(ix, ops), scope)
    decreases |ops|
  {
    if ops != [] {
      assert ops[0] in ops && forall op :: op in ops[1..] ==> op in ops;
      CallsAreIsolated(ix, ops[0]);
      OwnRunStays(Call(ix, ops[0]).0, ops[1..], scope);
    }
  }

  /** A run with a rebuild that is not isolated leaves a row in another scope. */
  lemma {:induction false} ForeignRunLands(ix: Index, ops: seq<Op>, scope: Scope, bad: Op)
    requires forall op :: op in ops ==> SameScope(OpScope(op), scope)
    requires bad in ops && !OwnRecords(bad)
    ensures exists k :: k in Calls(ix, ops) && !InScope(k, scope)
    decreases |ops|
  {
    assert ops[0] in ops && forall op :: op in ops[1..] ==> op in ops;
    var next := Call(ix, ops[0]).0;
    if ops[0] == bad {
      ForeignRecordLands(ResetIn(ix, bad.scope), bad.scope, bad.records);
      var k :| k in next && !InScope(k, scope);
      CallsKeepOthers(next, ops[1..], scope, k);
    } else {
      ForeignRunLands(next, ops[1..], scope, bad);
    }
  }

  /** A run of calls on one tenant and continuity leaves all other rows as they were, whatever the table
      holds, exactly when each of its rebuilds is isolated. */
  lemma RunsAreIsolated(ops: seq<Op>, scope: Scope)
    requires forall op :: op in ops ==> SameScope(OpScope(op), scope)
    ensures (forall ix: Index :: Untouched(ix, Calls(ix, ops), scope)) <==> forall op :: op in ops ==> OwnRecords(op)
  {
    if bad :| bad in ops && !OwnRecords(bad) {
      var empty: Index := map[];
      ForeignRunLands(empty, ops, scope, bad);
      assert !Untouched(empty, Calls(empty, ops), scope);
    } else {
      forall ix: Index ensures Untouched(ix, Calls(ix, ops), scope) { OwnRunStays(ix, ops, scope); }
    }
  }

  lemma {:induction false} RunsKeepKeys(ix: Index, ops: seq<Op>)
    requires WellKeyed(ix)
    ensures WellKeyed(Calls(ix, ops))
    decreases |ops|
  {
    if ops != [] {
      if ops[0].Rebuild? { PutActiveKeepsKeys(ResetIn(ix, ops[0].scope), ops[0].records); }
      RunsKeepKeys(Call(ix, ops[0]).0, ops[1..]);
    }
  }

  lemma {:induction false} PutActiveKeepsKeys(ix: Index, records: seq<Record>)
    requires WellKeyed(ix)
    ensures WellKeyed(PutActive(ix, records).0)
    decreases |records|
  {
    if records != [] && (records[0].status != "active" || FitsColumn(records[0])) {
      PutActiveKeepsKeys(if records[0].status != "active" then ix else PutIn(ix, records[0]), records[1..]);
    }
  }

  // ----- Rebuilding -----

  /** records lists the rows of the scope, in any order. */
  ghost predicate OwnRows(ix: Index, scope: Scope, records: seq<Record>) {
    && (forall r :: r in records ==> SameScope(r.scope, scope) && KeyOf(r) in ix && ix[KeyOf(r)] == r)
    && (forall k :: k in ix && InScope(k, scope) ==> ix[k] in records)
  }

  /** Putting records of ix back on top of part of ix. */
  lemma {:induction false} PutActiveBack(ix: Index, base: Index, records: seq<Record>, k: Key)
    requires forall r :: r in records ==> KeyOf(r) in ix && ix[KeyOf(r)] == r && FitsColumn(r)
    requires k in base ==> k in ix && base[k] == ix[k]
    ensures var (after, ok) := PutActive(base, records);
            && ok
            && (k in after <==>
                k in base || (k in ix && ix[k] in records && ix[k].status == "active" && KeyOf(ix[k]) == k))
            && (k in after ==> k in ix && after[k] == ix[k])
    decreases |records|
  {
    if records != [] {
      var next := if records[0].status == "active" then PutIn(base, records[0]) else base;
      assert records == [records[0]] + records[1..];
      PutActiveBack(ix, next, records[1..], k);
    }
  }

  /** Rebuilding a scope from its own rows: afterwards it holds exactly its active rows. */
  lemma RebuildKeepsActive(ix: Index, scope: Scope, records: seq<Record>, k: Key)
    requires WellKeyed(ix) && OwnRows(ix, scope, records)
    ensures var (after, ok) := RebuildIn(ix, scope, records);
            && ok
            && (k in after <==> k in ix && (InScope(k, scope) ==> ix[k].status == "active"))
            && (k in after ==> after[k] == ix[k])
  {
    PutActiveBack(ix, ResetIn(ix, scope), records, k);
  }

  /** For the state after any run: rebuilding from the scope's own rows changes no current listing, at
      any limit and for any ranking, and history afterwards shows what was current before. */
  lemma RebuildIsInvisible(ops: seq<Op>, scope: Scope, records: seq<Record>, query: Query)
    requires var ix := Calls(map[], ops); OwnRows(ix, scope, records)
    requires SameScope(query.scope, scope)
    ensures var ix := Calls(map[], ops);
            var after := RebuildIn(ix, scope, records).0;
            && Rows(after, query.scope, query.includeHistory) == Rows(ix, query.scope, false)
            && Listing(after, query) == Listing(ix, query.(includeHistory := false))
            && forall ranking ::
                 IsRanking(after, query, ranking) <==> IsRanking(ix, query.(includeHistory := false), ranking)
  {
    hide Calls, RebuildIn, Rows, Listing;
    var ix := Calls(map[], ops);
    RunsKeepKeys(map[], ops);
    var after := RebuildIn(ix, scope, records).0;
    RebuiltRows(ix, scope, records, query.scope, query.includeHistory);
    SameRowsSameListing(after, query, ix, query.(includeHistory := false));
  }

  lemma RebuiltRows(ix: Index, scope: Scope, records: seq<Record>, asked: Scope, history: bool)
    requires WellKeyed(ix) && OwnRows(ix, scope, records) && SameScope(asked, scope)
    ensures Rows(RebuildIn(ix, scope, records).0, asked, history) == Rows(ix, asked, false)
  {
    hide RebuildIn, Rows, OwnRows;
    var after := RebuildIn(ix, scope, records).0;
    var now, was := Rows(after, asked, history), Rows(ix, asked, false);
    forall id ensures (id in now <==> id in was) && (id in now ==> now[id] == was[id]) {
      RebuildKeepsActive(ix, scope, records, Key(asked.tenantID, asked.continuityID, id));
      RowsDomain(after, asked, history, id);
      RowsDomain(ix, asked, false, id);
    }
  }

  lemma SameRowsSameListing(a: Index, p: Query, b: Index, q: Query)
    requires Rows(a, p.scope, p.includeHistory) == Rows(b, q.scope, q.includeHistory) && p.limit == q.limit
    ensures Listing(a, p) == Listing(b, q)
    ensures forall ranking :: IsRanking(a, p, ranking) <==> IsRanking(b, q, ranking)
  {
    hide Rows, Ordered, Pick, Take, Enumerates;
  }
}
