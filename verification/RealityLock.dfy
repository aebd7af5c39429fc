/** Loading a case, freezing it under a lock, and validating it against that lock later. */
module RealityLock {
  import opened Common
  import opened Text
  import opened RealityCase
  import opened RealityValidation

  const MANIFEST := "manifest.json"
  const EVENTS := "events.jsonl"
  const LOCK := "fixture-lock.json"

  const SEALED := "sealed evidence cannot be loaded from a readable local case"
  const INVALID := "case validation failed: "

  // ----- Loading -----

  function JoinCommas(codes: seq<string>): string {
    if codes == [] then "" else if |codes| == 1 then codes[0] else codes[0] + "," + JoinCommas(codes[1..])
  }

  function Codes(vs: seq<Violation>): (r: seq<string>)
    ensures |r| == |vs|
  {
    seq(|vs|, i requires 0 <= i < |vs| => vs[i].code)
  }

  function DecodedManifest(w: World, files: Files): Fallible<Manifest> {
    var data := Read(files, MANIFEST);
    if data.None? then Err(w.readError(MANIFEST)) else w.manifestOf(data.value)
  }

  function DecodedEvents(w: World, files: Files): Fallible<seq<Event>> {
    var data := Read(files, EVENTS);
    if data.None? then Err("open events: " + w.readError(EVENTS))
    else if w.eventsOf(data.value) == Ok([]) then Err("events.jsonl must contain at least one event")
    else w.eventsOf(data.value)
  }

  function Loaded(w: World, files: Files): Fallible<Case> {
    var manifest := DecodedManifest(w, files);
    if manifest.Err? then Err("decode manifest: " + manifest.message)
    else if manifest.value.evidenceLevel == "sealed" then Err(SEALED)
    else
      var events := DecodedEvents(w, files);
      if events.Err? then Err(events.message)
      else
        var c := Case(manifest.value, events.value);
        if Report(w, files, c) != [] then Err(INVALID + JoinCommas(Codes(Report(w, files, c))))
        else Ok(c)
  }

  method LoadCase(w: World, files: Files) returns (r: Fallible<Case>)
    ensures r == Loaded(w, files)
  {
    hide Report, JoinCommas, WellFormed, Added;
    var manifest := DecodedManifest(w, files);
    if manifest.Err? {
      return Err("decode manifest: " + manifest.message);
    }
    if manifest.value.evidenceLevel == "sealed" {
      return Err(SEALED);
    }
    var events := DecodedEvents(w, files);
    if events.Err? {
      return Err(events.message);
    }
    var c := Case(manifest.value, events.value);
    var violations := ValidateCase(w, files, c);
    if |violations| != 0 {
      var codes: seq<string> := [];
      for i := 0 to |violations|
        invariant codes == Codes(violations[..i])
      {
        codes := codes + [violations[i].code];
      }
      assert violations[..|violations|] == violations;
      return Err(INVALID + JoinCommas(codes));
    }
    return Ok(c);
  }

  // ----- Building a lock -----

  function Paths(sources: seq<SourceRef>): (r: seq<string>)
    ensures |r| == |sources|
  {
    seq(|sources|, i requires 0 <= i < |sources| => sources[i].fixturePath)
  }

  function Dedup(s: seq<string>): (r: seq<string>)
    ensures forall x :: x in r <==> x in s
    ensures Distinct(r)
  {
    if s == [] then []
    else
      var n := |s| - 1;
      assert s == s[..n] + [s[n]];
      if s[n] in s[..n] then Dedup(s[..n]) else Dedup(s[..n]) + [s[n]]
  }

  /** Each source path once, in order. */
  function PathList(sources: seq<SourceRef>): seq<string> { SortBy(LexLeq, Dedup(Paths(sources))) }

  function LockFiles(w: World, files: Files, paths: seq<string>): Fallible<seq<LockedFile>> {
    if paths == [] then Ok([])
    else
      var n := |paths| - 1;
      var before := LockFiles(w, files, paths[..n]);
      if before.Err? then before
      else if Read(files, paths[n]).None? then Err("read fixture " + paths[n] + ": " + w.readError(paths[n]))
      else
        var data := Read(files, paths[n]).value;
        Ok(before.value + [LockedFile(paths[n], w.hash(data), |data|)])
  }

  function BuiltLock(w: World, files: Files, c: Case): Fallible<FixtureLock> {
    if Read(files, MANIFEST).None? then Err(w.readError(MANIFEST))
    else if Read(files, EVENTS).None? then Err(w.readError(EVENTS))
    else
      var locked := LockFiles(w, files, PathList(c.manifest.sources));
      if locked.Err? then Err(locked.message)
      else
        Ok(FixtureLock(1, c.manifest.id, w.hash(Read(files, MANIFEST).value), w.hash(Read(files, EVENTS).value),
          locked.value))
  }

  /** Two ordered lists without repetition that hold the same strings are the same list. */
  lemma OrderedListUnique(a: seq<string>, b: seq<string>)
    requires Distinct(a) && Distinct(b) && forall x :: x in a <==> x in b
    ensures SortBy(LexLeq, a) == SortBy(LexLeq, b)
  {
    hide SortBy, LexLeq;
    LexOrder();
    SortByIsSort(LexLeq, a);
    SortByIsSort(LexLeq, b);
    DistinctBags(a, b);
    forall x: string, y: string | LexLeq(x, y) && LexLeq(y, x) ensures x == y { LexAntisym(x, y); }
    SortUnique(LexLeq, SortBy(LexLeq, a), SortBy(LexLeq, b));
  }

  lemma LexOrder()
    ensures TotalPreorder(LexLeq)
  {
    hide LexLeq;
    forall x: string, y: string ensures LexLeq(x, y) || LexLeq(y, x) { LexTotal(x, y); }
    forall x: string, y: string, z: string | LexLeq(x, y) && LexLeq(y, z) ensures LexLeq(x, z) { LexTrans(x, y, z); }
  }

  lemma {:induction false} DistinctCount(a: seq<string>, x: string)
    requires Distinct(a)
    ensures multiset(a)[x] == if x in a then 1 else 0
  {
    if a != [] {
      var n := |a| - 1;
      assert a == a[..n] + [a[n]];
      DistinctCount(a[..n], x);
    }
  }

  lemma DistinctBags(a: seq<string>, b: seq<string>)
    requires Distinct(a) && Distinct(b) && forall x :: x in a <==> x in b
    ensures multiset(a) == multiset(b)
  {
    forall x ensures multiset(a)[x] == multiset(b)[x] {
      DistinctCount(a, x);
      DistinctCount(b, x);
    }
  }

  method BuildFixtureLock(w: World, files: Files, c: Case) returns (r: Fallible<FixtureLock>)
    ensures r == BuiltLock(w, files, c)
  {
    hide SortBy, LexLeq;
    var manifest := Read(files, MANIFEST);
    if manifest.None? {
      return Err(w.readError(MANIFEST));
    }
    var events := Read(files, EVENTS);
    if events.None? {
      return Err(w.readError(EVENTS));
    }
    var orderedPaths := CollectPaths(c.manifest.sources);
    var locked: seq<LockedFile> := [];
    for i := 0 to |orderedPaths|
      invariant LockFiles(w, files, orderedPaths[..i]) == Ok(locked)
    {
      var path := orderedPaths[i];
      assert orderedPaths[..i + 1][..i] == orderedPaths[..i];
      var data := Read(files, path);
      if data.None? {
        FirstErrorStands(w, files, orderedPaths, i + 1);
        return Err("read fixture " + path + ": " + w.readError(path));
      }
      locked := locked + [LockedFile(path, w.hash(data.value), |data.value|)];
    }
    assert orderedPaths[..|orderedPaths|] == orderedPaths;
    return Ok(FixtureLock(1, c.manifest.id, w.hash(manifest.value), w.hash(events.value), locked));
  }

  lemma {:induction false} FirstErrorStands(w: World, files: Files, paths: seq<string>, n: nat)
    requires n <= |paths| && LockFiles(w, files, paths[..n]).Err?
    ensures LockFiles(w, files, paths) == LockFiles(w, files, paths[..n])
  {
    if n == |paths| {
      assert paths[..n] == paths;
    } else {
      var m := |paths| - 1;
      assert paths[..m][..n] == paths[..n];
      FirstErrorStands(w, files, paths[..m], n);
    }
  }

  /** The paths pass through a map, which has no order of its own, and are then sorted. */
  method CollectPaths(sources: seq<SourceRef>) returns (orderedPaths: seq<string>)
    ensures orderedPaths == PathList(sources)
  {
    hide SortBy, Dedup;
    var paths: set<string> := {};
    for i := 0 to |sources|
      invariant forall p :: p in paths <==> p in Paths(sources[..i])
    {
      assert Paths(sources[..i + 1]) == Paths(sources[..i]) + [sources[i].fixturePath];
      paths := paths + {sources[i].fixturePath};
    }
    assert sources[..|sources|] == sources;
    var listed: seq<string> := [];
    var rest := paths;
    while rest != {}
      invariant rest <= paths
      invariant forall p :: p in listed <==> p in paths && p !in rest
      invariant Distinct(listed)
      decreases |rest|
    {
      var p :| p in rest;
      listed := listed + [p];
      rest := rest - {p};
    }
    orderedPaths := SortBy(LexLeq, listed);
    OrderedListUnique(listed, Dedup(Paths(sources)));
  }

  // ----- Freezing -----

  datatype FreezeReport = FreezeReport(caseID: string, lockPath: string, lockSHA256: string)

  function Written(w: World, files: Files, caseID: string, lock: Fallible<FixtureLock>, writeError: Option<string>)
    : (Files, Fallible<FreezeReport>)
  {
    if lock.Err? then (files, Err(lock.message))
    else if writeError.Some? then (files, Err(writeError.value))
    else
      var data := w.lockBytes(lock.value);
      (files[LOCK := File(data)], Ok(FreezeReport(caseID, LOCK, w.hash(data))))
  }

  function Frozen(w: World, files: Files, writeError: Option<string>): (Files, Fallible<FreezeReport>) {
    var c := Loaded(w, files);
    if c.Err? then (files, Err(c.message))
    else Written(w, files, c.value.manifest.id, BuiltLock(w, files, c.value), writeError)
  }

  // ----- Verifying -----

  datatype CaseResult = CaseResult(
    caseID: string, pass: bool, evidenceLevel: string, lines: seq<string>, pressures: seq<string>,
    lockSHA256: string, violations: seq<Violation>)

  const FIXTURE_LOCK_MISMATCH: Code := "fixture_lock_mismatch"

  function Mismatch(message: string): Finding { Found(FIXTURE_LOCK_MISMATCH, message) }

  function AfterBytes(w: World, files: Files, vs: seq<Finding>, path: string, hash: string, bytes: int): seq<Finding> {
    var data := Read(files, path);
    if data.None? then AddIf(vs, true, Mismatch(path + " cannot be read: " + w.readError(path)))
    else
      var actual := w.hash(data.value);
      var v := AddIf(vs, actual != hash, Mismatch(path + " hash is " + actual + ", expected " + hash));
      AddIf(v, bytes >= 0 && |data.value| != bytes,
        Mismatch(path + " size is " + Int(|data.value|) + ", expected " + Int(bytes)))
  }

  function AfterLocked(w: World, files: Files, vs: seq<Finding>, locked: seq<LockedFile>): seq<Finding> {
    if locked == [] then vs
    else
      var n := |locked| - 1;
      var v := AfterLocked(w, files, vs, locked[..n]);
      var f := locked[n];
      if EscapesOrUnclean(w, f.path) then AddIf(v, true, Mismatch("locked path " + w.quote(f.path) + " is invalid"))
      else if !Within(files, f.path) then
        AddIf(v, true, Mismatch("locked path " + w.quote(f.path) + " leaves the case directory"))
      else AfterBytes(w, files, v, f.path, f.sha256, f.bytes)
  }

  function AfterVerify(w: World, files: Files, caseID: string, lock: FixtureLock): seq<Finding> {
    var v := AddIf([], lock.version != 1, Mismatch("lock version is " + Int(lock.version) + ", expected 1"));
    var v := AddIf(v, lock.caseID != caseID,
      Mismatch("lock case id is " + w.quote(lock.caseID) + ", expected " + w.quote(caseID)));
    var v := AfterBytes(w, files, v, MANIFEST, lock.manifestHash, -1);
    var v := AfterBytes(w, files, v, EVENTS, lock.eventsHash, -1);
    AfterLocked(w, files, v, lock.files)
  }

  method VerifyLockedBytes(w: World, files: Files, vs: seq<Finding>, path: string, hash: string, bytes: int)
    returns (violations: seq<Finding>)
    ensures violations == AfterBytes(w, files, vs, path, hash, bytes)
  {
    hide Mismatch, Int;
    violations := vs;
    var data := Read(files, path);
    if data.None? {
      return violations + [Mismatch(path + " cannot be read: " + w.readError(path))];
    }
    var actual := w.hash(data.value);
    if actual != hash {
      violations := violations + [Mismatch(path + " hash is " + actual + ", expected " + hash)];
    }
    if bytes >= 0 && |data.value| != bytes {
      violations := violations + [Mismatch(path + " size is " + Int(|data.value|) + ", expected " + Int(bytes))];
    }
  }

  method VerifyFixtureLock(w: World, files: Files, caseID: string, lock: FixtureLock) returns (violations: seq<Finding>)
    ensures violations == AfterVerify(w, files, caseID, lock)
  {
    hide Mismatch, Int, AfterBytes;
    violations := [];
    if lock.version != 1 {
      violations := violations + [Mismatch("lock version is " + Int(lock.version) + ", expected 1")];
    }
    if lock.caseID != caseID {
      violations := violations
        + [Mismatch("lock case id is " + w.quote(lock.caseID) + ", expected " + w.quote(caseID))];
    }
    violations := VerifyLockedBytes(w, files, violations, MANIFEST, lock.manifestHash, -1);
    violations := VerifyLockedBytes(w, files, violations, EVENTS, lock.eventsHash, -1);
    ghost var before := violations;
    for i := 0 to |lock.files|
      invariant violations == AfterLocked(w, files, before, lock.files[..i])
    {
      var f := lock.files[i];
      assert lock.files[..i + 1][..i] == lock.files[..i];
      if EscapesOrUnclean(w, f.path) {
        violations := violations + [Mismatch("locked path " + w.quote(f.path) + " is invalid")];
        continue;
      }
      if !Within(files, f.path) {
        violations := violations + [Mismatch("locked path " + w.quote(f.path) + " leaves the case directory")];
        continue;
      }
      violations := VerifyLockedBytes(w, files, violations, f.path, f.sha256, f.bytes);
    }
    assert lock.files[..|lock.files|] == lock.files;
  }

  // ----- Validating a frozen case -----

  function WithCodes(codes: seq<string>): seq<Violation> {
    seq(|codes|, i requires 0 <= i < |codes| => Violation(codes[i], "case validation failed"))
  }

  /** How a load error is turned back into violations: by the text of the error. */
  function LoadViolations(message: string): seq<Violation> {
    if Contains(message, "sealed evidence cannot be loaded") then [Violation("local_sealed_evidence", SEALED)]
    else if INVALID <= message then WithCodes(Split(message[|INVALID|..], ","))
    else [Violation("case_load_failed", message)]
  }

  function LockViolations(w: World, files: Files, caseID: string): seq<Violation> {
    var data := Read(files, LOCK);
    if data.None? then [Violation("fixture_lock_missing", w.readError(LOCK))]
    else
      var lock := w.lockOf(data.value);
      if lock.Err? then [Violation("fixture_lock_invalid", lock.message)]
      else AfterVerify(w, files, caseID, lock.value)
  }

  function CaseID(c: Fallible<Case>, fallbackID: string): string { if c.Ok? then c.value.manifest.id else fallbackID }

  function ResultOf(c: Fallible<Case>, caseID: string, lockSHA256: string, found: seq<Violation>): CaseResult {
    if c.Err? then CaseResult(caseID, found == [], "", [], [], lockSHA256, SortBy(ViolationLeq, found))
    else
      var m := c.value.manifest;
      CaseResult(caseID, found == [], m.evidenceLevel, m.continuityLines, m.pressures, lockSHA256,
                 SortBy(ViolationLeq, found))
  }

  function Validated(w: World, files: Files, fallbackID: string): CaseResult {
    var c := Loaded(w, files);
    var caseID := CaseID(c, fallbackID);
    ResultOf(c, caseID, if Read(files, LOCK).Some? then w.hash(Read(files, LOCK).value) else "",
             (if c.Err? then LoadViolations(c.message) else []) + LockViolations(w, files, caseID))
  }

  /** A case directory whose lock file freezing replaces. */
  class CaseDirectory {
    const w: World
    var files: Files

    constructor (w: World, files: Files)
      ensures this.w == w && this.files == files
    {
      this.w, this.files := w, files;
    }

    /** writeError is how the atomic write of the lock comes out; a failed one leaves the old file. */
    method FreezeCase(writeError: Option<string>) returns (r: Fallible<FreezeReport>)
      modifies this
      ensures (files, r) == Frozen(w, old(files), writeError)
    {
      hide Loaded, BuiltLock;
      var c := LoadCase(w, files);
      if c.Err? {
        return Err(c.message);
      }
      var lock := BuildFixtureLock(w, files, c.value);
      if lock.Err? {
        return Err(lock.message);
      }
      var data := w.lockBytes(lock.value);
      if writeError.Some? {
        return Err(writeError.value);
      }
      files := files[LOCK := File(data)];
      return Ok(FreezeReport(c.value.manifest.id, LOCK, w.hash(data)));
    }

    method ValidateFrozenCase(fallbackID: string) returns (result: CaseResult)
      ensures result == Validated(w, files, fallbackID)
      ensures result.pass <==> result.violations == []
    {
      hide Loaded, AfterVerify, SortBy, Split, Contains, ViolationLeq;
      result := CaseResult(fallbackID, false, "", [], [], "", []);
      var violations: seq<Violation> := [];
      var c := LoadCase(w, files);
      if c.Err? {
        if Contains(c.message, "sealed evidence cannot be loaded") {
          violations := violations + [Violation("local_sealed_evidence", SEALED)];
        } else if INVALID <= c.message {
          var codes := Split(c.message[|INVALID|..], ",");
          for i := 0 to |codes|
            invariant violations == WithCodes(codes[..i])
          {
            violations := violations + [Violation(codes[i], "case validation failed")];
          }
          assert codes[..|codes|] == codes;
        } else {
          violations := violations + [Violation("case_load_failed", c.message)];
        }
        assert violations == LoadViolations(c.message);
      } else {
        var m := c.value.manifest;
        result := CaseResult(m.id, false, m.evidenceLevel, m.continuityLines, m.pressures, "", []);
      }
      var data := Read(files, LOCK);
      if data.None? {
        violations := violations + [Violation("fixture_lock_missing", w.readError(LOCK))];
      } else {
        result := result.(lockSHA256 := w.hash(data.value));
        var lock := w.lockOf(data.value);
        if lock.Err? {
          violations := violations + [Violation("fixture_lock_invalid", lock.message)];
        } else {
          var mismatches := VerifyFixtureLock(w, files, result.caseID, lock.value);
          violations := violations + mismatches;
        }
      }
      ViolationOrder();
      SortByIsSort(ViolationLeq, violations);
      var sorted := SortBy(ViolationLeq, violations);
      result := result.(violations := sorted, pass := |sorted| == 0);
    }
  }
}
