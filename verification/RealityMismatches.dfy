/** What validating a frozen case reports: the case it is about, and exactly what does not match its lock. */
module RealityMismatches {
  import opened Common
  import opened RealityCase
  import opened RealityFreeze
  import opened RealityLock
  import opened RealityValidation

  /** What can be said about the bytes under a path; a negative size is not compared. */
  predicate BytesSay(w: World, files: Files, path: string, hash: string, bytes: int, message: string) {
    if path !in files || files[path].Unreadable? then message == path + " cannot be read: " + w.readError(path)
    else
      var data := files[path].data;
      || (w.hash(data) != hash && message == path + " hash is " + w.hash(data) + ", expected " + hash)
      || (bytes >= 0 && |data| != bytes && message == path + " size is " + Int(|data|) + ", expected " + Int(bytes))
  }

  predicate FileSays(w: World, files: Files, f: LockedFile, message: string) {
    var clean := w.clean(f.path);
    if f.path == "" || f.path[0] == '/' || clean != f.path || clean == ".." || "../" <= clean then
      message == "locked path " + w.quote(f.path) + " is invalid"
    else if f.path !in files || files[f.path].Outside? then
      message == "locked path " + w.quote(f.path) + " leaves the case directory"
    else BytesSay(w, files, f.path, f.sha256, f.bytes, message)
  }

  /** What does not match the lock. */
  predicate LockSays(w: World, files: Files, caseID: string, lock: FixtureLock, message: string) {
    || (lock.version != 1 && message == "lock version is " + Int(lock.version) + ", expected 1")
    || (lock.caseID != caseID
        && message == "lock case id is " + w.quote(lock.caseID) + ", expected " + w.quote(caseID))
    || BytesSay(w, files, "manifest.json", lock.manifestHash, -1, message)
    || BytesSay(w, files, "events.jsonl", lock.eventsHash, -1, message)
    || exists k :: 0 <= k < |lock.files| && FileSays(w, files, lock.files[k], message)
  }

  lemma BytesExactly(w: World, files: Files, vs: seq<Finding>, path: string, hash: string, bytes: int, v: Violation)
    ensures v in AfterBytes(w, files, vs, path, hash, bytes)
            <==> v in vs || (v.code == "fixture_lock_mismatch" && BytesSay(w, files, path, hash, bytes, v.message))
  {
    hide PlainCode, Int;
    assert v == Violation(v.code, v.message);
  }

  lemma {:induction false} FilesExactly(w: World, files: Files, vs: seq<Finding>, locked: seq<LockedFile>, v: Violation)
    ensures v in AfterLocked(w, files, vs, locked)
            <==> v in vs || (v.code == "fixture_lock_mismatch"
                             && exists k :: 0 <= k < |locked| && FileSays(w, files, locked[k], v.message))
  {
    hide PlainCode, Int, AfterBytes, BytesSay;
    if locked != [] {
      var n := |locked| - 1;
      var f := locked[n];
      var before := AfterLocked(w, files, vs, locked[..n]);
      FilesExactly(w, files, vs, locked[..n], v);
      BytesExactly(w, files, before, f.path, f.sha256, f.bytes, v);
      assert v == Violation(v.code, v.message);
      assert forall k :: 0 <= k < n ==> locked[..n][k] == locked[k];
      assert v in AfterLocked(w, files, vs, locked)
        <==> v in before || (v.code == "fixture_lock_mismatch" && FileSays(w, files, f, v.message));
    }
  }

  lemma VerifyExactly(w: World, files: Files, caseID: string, lock: FixtureLock, v: Violation)
    ensures v in AfterVerify(w, files, caseID, lock)
            <==> v.code == "fixture_lock_mismatch" && LockSays(w, files, caseID, lock, v.message)
  {
    hide PlainCode, Int, AfterBytes, BytesSay, AfterLocked, FileSays;
    assert v == Violation(v.code, v.message);
    var v1 := AddIf([], lock.version != 1, Mismatch("lock version is " + Int(lock.version) + ", expected 1"));
    var v2 := AddIf(v1, lock.caseID != caseID,
                    Mismatch("lock case id is " + w.quote(lock.caseID) + ", expected " + w.quote(caseID)));
    BytesExactly(w, files, v2, MANIFEST, lock.manifestHash, -1, v);
    var v3 := AfterBytes(w, files, v2, MANIFEST, lock.manifestHash, -1);
    BytesExactly(w, files, v3, EVENTS, lock.eventsHash, -1, v);
    FilesExactly(w, files, AfterBytes(w, files, v3, EVENTS, lock.eventsHash, -1), lock.files, v);
  }

  /** The report on a case that loads: about that case, with the digest of its lock, and with exactly what is wrong
      with the lock or does not match it. */
  lemma ValidationReports(w: World, files: Files, c: Case, fallbackID: string, v: Violation)
    requires Loads(w, files, c)
    ensures var r := Validated(w, files, fallbackID);
            var there := "fixture-lock.json" in files && !files["fixture-lock.json"].Unreadable?;
            && r.caseID == c.manifest.id && r.evidenceLevel == c.manifest.evidenceLevel
            && r.lines == c.manifest.continuityLines && r.pressures == c.manifest.pressures
            && r.lockSHA256 == (if there then w.hash(files["fixture-lock.json"].data) else "")
            && (r.pass <==> r.violations == [])
            && (v in r.violations <==>
                  if !there then v == Violation("fixture_lock_missing", w.readError("fixture-lock.json"))
                  else
                    match w.lockOf(files["fixture-lock.json"].data)
                    case Err(message) => v == Violation("fixture_lock_invalid", message)
                    case Ok(lock) =>
                      v.code == "fixture_lock_mismatch" && LockSays(w, files, c.manifest.id, lock, v.message))
  {
    hide Loads, Loaded, AfterVerify, LockSays, SortBy, ViolationLeq;
    LoadedExactly(w, files, c);
    var found := LockViolations(w, files, c.manifest.id);
    assert [] + found == found;
    SameElements<Violation>(SortBy(ViolationLeq, found), found, v);
    if "fixture-lock.json" in files && !files["fixture-lock.json"].Unreadable? {
      var lock := w.lockOf(files["fixture-lock.json"].data);
      if lock.Ok? { VerifyExactly(w, files, c.manifest.id, lock.value, v); }
    }
  }

  /** The report on a case that does not load goes by the name it was asked for, and says why besides what is wrong
      with the lock. */
  lemma FailedLoadReports(w: World, files: Files, fallbackID: string, v: Violation)
    requires Loaded(w, files).Err?
    ensures var r := Validated(w, files, fallbackID);
            && r.caseID == fallbackID && r.evidenceLevel == "" && r.lines == r.pressures == []
            && !r.pass
            && (v in r.violations <==>
                  v in LoadViolations(Loaded(w, files).message) || v in LockViolations(w, files, fallbackID))
  {
    hide Loaded, LoadViolations, LockViolations, SortBy, ViolationLeq;
    LoadErrorsCount(Loaded(w, files).message);
    var found := LoadViolations(Loaded(w, files).message) + LockViolations(w, files, fallbackID);
    SameElements<Violation>(SortBy(ViolationLeq, found), found, v);
    SameSize<Violation>(SortBy(ViolationLeq, found), found);
  }

  /** A freeze reports the case that it froze and the digest of the lock that is there afterwards. */
  lemma FreezeReports(w: World, files: Files, c: Case)
    requires Loads(w, files, c) && BuiltLock(w, files, c).Ok?
    ensures var (after, r) := Frozen(w, files, None);
            && r.Ok? && LOCK in after && after[LOCK].File?
            && r.value == FreezeReport(c.manifest.id, "fixture-lock.json", w.hash(after[LOCK].data))
  {
    hide Loads, Loaded, BuiltLock;
    LoadedExactly(w, files, c);
  }

  /** Why a case does not load: what is wrong is told by the first of these that applies. */
  lemma LoadFails(w: World, files: Files)
    ensures var manifest, events := DecodedManifest(w, files), DecodedEvents(w, files);
            && (manifest.Err? ==> Loaded(w, files) == Err("decode manifest: " + manifest.message))
            && (manifest.Ok? && manifest.value.evidenceLevel == "sealed" ==>
                  Loaded(w, files) == Err("sealed evidence cannot be loaded from a readable local case"))
            && (manifest.Ok? && manifest.value.evidenceLevel != "sealed" && events.Err? ==>
                  Loaded(w, files) == Err(events.message))
            && (manifest.Ok? && manifest.value.evidenceLevel != "sealed" && events.Ok? ==>
                  var c := Case(manifest.value, events.value);
                  !WellFormed(w, files, c) ==>
                    Loaded(w, files) == Err("case validation failed: " + JoinCommas(Codes(Report(w, files, c)))))
  {
    hide WellFormed, Added, SortBy, DecodedManifest, DecodedEvents, JoinCommas, Codes, ViolationLeq;
    var manifest, events := DecodedManifest(w, files), DecodedEvents(w, files);
    if manifest.Ok? && events.Ok? {
      var c := Case(manifest.value, events.value);
      NothingAdded(w, files, c);
      SameSize<Violation>(Report(w, files, c), Added(w, files, c));
    }
  }
}
