/** What a lock promises: validation against it passes exactly while the evidence is what was frozen. */
module RealityFreeze {
  import opened Common
  import opened RealityCase
  import opened RealityValidation
  import opened RealityLock

  // ----- What a clean verification means -----

  predicate BytesMatch(w: World, files: Files, path: string, hash: string, bytes: int) {
    var data := Read(files, path);
    data.Some? && w.hash(data.value) == hash && (bytes >= 0 ==> |data.value| == bytes)
  }

  predicate FileMatches(w: World, files: Files, f: LockedFile) {
    !EscapesOrUnclean(w, f.path) && Within(files, f.path) && BytesMatch(w, files, f.path, f.sha256, f.bytes)
  }

  predicate Verifies(w: World, files: Files, caseID: string, lock: FixtureLock) {
    && lock.version == 1 && lock.caseID == caseID
    && BytesMatch(w, files, MANIFEST, lock.manifestHash, -1)
    && BytesMatch(w, files, EVENTS, lock.eventsHash, -1)
    && forall k :: 0 <= k < |lock.files| ==> FileMatches(w, files, lock.files[k])
  }

  lemma BytesClean(w: World, files: Files, vs: seq<Finding>, path: string, hash: string, bytes: int)
    ensures AfterBytes(w, files, vs, path, hash, bytes) == [] <==> vs == [] && BytesMatch(w, files, path, hash, bytes)
  {
    hide Mismatch, Int;
  }

  lemma {:induction false} LockedClean(w: World, files: Files, vs: seq<Finding>, locked: seq<LockedFile>)
    ensures AfterLocked(w, files, vs, locked) == []
            <==> vs == [] && forall k :: 0 <= k < |locked| ==> FileMatches(w, files, locked[k])
  {
    hide Mismatch, AfterBytes, EscapesOrUnclean, BytesMatch;
    if locked != [] {
      var n := |locked| - 1;
      var f := locked[n];
      LockedClean(w, files, vs, locked[..n]);
      assert forall k :: 0 <= k < n ==> locked[..n][k] == locked[k];
      BytesClean(w, files, AfterLocked(w, files, vs, locked[..n]), f.path, f.sha256, f.bytes);
    }
  }

  /** Verification finds nothing exactly when the lock matches the directory. */
  lemma VerifyClean(w: World, files: Files, caseID: string, lock: FixtureLock)
    ensures AfterVerify(w, files, caseID, lock) == [] <==> Verifies(w, files, caseID, lock)
  {
    hide Mismatch, AfterBytes, BytesMatch, AfterLocked, Int, FileMatches;
    var v := AddIf([], lock.version != 1, Mismatch("lock version is " + Int(lock.version) + ", expected 1"));
    var v2 := AddIf(v, lock.caseID != caseID,
      Mismatch("lock case id is " + w.quote(lock.caseID) + ", expected " + w.quote(caseID)));
    var v3 := AfterBytes(w, files, v2, MANIFEST, lock.manifestHash, -1);
    var v4 := AfterBytes(w, files, v3, EVENTS, lock.eventsHash, -1);
    BytesClean(w, files, v2, MANIFEST, lock.manifestHash, -1);
    BytesClean(w, files, v3, EVENTS, lock.eventsHash, -1);
    LockedClean(w, files, v4, lock.files);
  }

  lemma LoadErrorsCount(message: string)
    ensures LoadViolations(message) != []
  {
  }

  /** A frozen case passes exactly when it loads and its lock can be read, decoded and matches. */
  lemma PassMeans(w: World, files: Files, fallbackID: string)
    ensures Validated(w, files, fallbackID).pass <==>
              && Loaded(w, files).Ok?
              && Read(files, LOCK).Some? && w.lockOf(Read(files, LOCK).value).Ok?
              && Verifies(w, files, Loaded(w, files).value.manifest.id, w.lockOf(Read(files, LOCK).value).value)
  {
    hide Loaded, AfterVerify, Verifies, LoadViolations, SortBy;
    var c := Loaded(w, files);
    if c.Err? {
      LoadErrorsCount(c.message);
    } else {
      var data := Read(files, LOCK);
      if data.Some? && w.lockOf(data.value).Ok? {
        VerifyClean(w, files, c.value.manifest.id, w.lockOf(data.value).value);
      }
    }
  }

  // ----- What loading depends on -----

  /** The directory holds this case, and it is well-formed. */
  ghost predicate Loads(w: World, files: Files, c: Case) {
    && DecodedManifest(w, files) == Ok(c.manifest)
    && DecodedEvents(w, files) == Ok(c.events)
    && WellFormed(w, files, c)
  }

  /** Loading succeeds exactly with the well-formed case that the directory holds. */
  lemma LoadedExactly(w: World, files: Files, c: Case)
    ensures Loaded(w, files) == Ok(c) <==> Loads(w, files, c)
  {
    hide WellFormed, Added, SortBy, DecodedManifest, DecodedEvents, JoinCommas;
    NothingAdded(w, files, c);
    NotSealedIfGood(w, files, c);
  }

  lemma NotSealedIfGood(w: World, files: Files, c: Case)
    ensures WellFormed(w, files, c) ==> c.manifest.evidenceLevel != "sealed"
  {
    hide GoodSources, GoodEvents, GoodFacts, Blank;
    assert "public" != "sealed" && "withheld_local" != "sealed" by {
      assert "public"[0] != "sealed"[0] && "withheld_local"[0] != "sealed"[0];
    }
  }

  // ----- What a lock holds -----

  lemma {:induction false} FilesBuilt(w: World, files: Files, paths: seq<string>)
    requires forall k :: 0 <= k < |paths| ==> Read(files, paths[k]).Some?
    ensures LockFiles(w, files, paths).Ok? && |LockFiles(w, files, paths).value| == |paths|
    ensures forall k :: 0 <= k < |paths| ==>
              var data := Read(files, paths[k]).value;
              LockFiles(w, files, paths).value[k] == LockedFile(paths[k], w.hash(data), |data|)
  {
    hide Read;
    if paths != [] {
      var n := |paths| - 1;
      assert forall k :: 0 <= k < n ==> paths[..n][k] == paths[k];
      FilesBuilt(w, files, paths[..n]);
    }
  }

  ghost predicate NamesPath(sources: seq<SourceRef>, path: string) {
    exists k :: 0 <= k < |sources| && sources[k].fixturePath == path
  }

  lemma PathListed(sources: seq<SourceRef>, path: string)
    ensures path in PathList(sources) <==> NamesPath(sources, path)
    ensures Distinct(PathList(sources)) && Sorted(LexLeq, PathList(sources))
  {
    hide SortBy, LexLeq;
    var paths := Paths(sources);
    var unique := Dedup(paths);
    LexOrder();
    SortByIsSort(LexLeq, unique);
    SameElements(PathList(sources), unique, path);
    forall i, j | 0 <= i < j < |PathList(sources)| ensures PathList(sources)[i] != PathList(sources)[j] {
      StillDistinct(PathList(sources), unique, i, j);
    }
    if k :| 0 <= k < |sources| && sources[k].fixturePath == path { assert paths[k] == path; }
    if path in paths {
      var k :| 0 <= k < |paths| && paths[k] == path;
      assert sources[k].fixturePath == path;
    }
  }

  lemma StillDistinct(a: seq<string>, b: seq<string>, i: nat, j: nat)
    requires multiset(a) == multiset(b) && Distinct(b) && i < j < |a|
    ensures a[i] != a[j]
  {
    DistinctCount(b, a[i]);
    assert a == a[..i] + [a[i]] + a[i + 1..j] + [a[j]] + a[j + 1..];
    assert multiset(a)[a[i]] <= 1;
  }

  lemma SourceReadable(w: World, files: Files, c: Case, path: string)
    requires Loads(w, files, c) && NamesPath(c.manifest.sources, path)
    ensures path in files && files[path].File? && !EscapesOrUnclean(w, path)
  {
    hide EscapesOrUnclean, GoodEvents, GoodHeader, GoodFacts, DecodedManifest, DecodedEvents;
    var sources := c.manifest.sources;
    var k :| 0 <= k < |sources| && sources[k].fixturePath == path;
    assert GoodSource(w, files, sources[k]);
  }

  /** What a lock of this case says: each source path exactly once, in order, with the digest and the size
      of what is there. */
  ghost predicate Covers(w: World, files: Files, c: Case, lock: FixtureLock) {
    && lock.version == 1 && lock.caseID == c.manifest.id
    && Read(files, MANIFEST).Some? && lock.manifestHash == w.hash(Read(files, MANIFEST).value)
    && Read(files, EVENTS).Some? && lock.eventsHash == w.hash(Read(files, EVENTS).value)
    && (forall k :: 0 <= k < |lock.files| ==>
          var path := lock.files[k].path;
          && NamesPath(c.manifest.sources, path)
          && path in files && files[path].File? && !EscapesOrUnclean(w, path)
          && lock.files[k] == LockedFile(path, w.hash(files[path].data), |files[path].data|))
    && (forall path :: NamesPath(c.manifest.sources, path) ==>
       exists k :: 0 <= k < |lock.files| && lock.files[k].path == path)
    && (forall i, j :: 0 <= i < j < |lock.files| ==>
          lock.files[i].path != lock.files[j].path && LexLeq(lock.files[i].path, lock.files[j].path))
  }

  /** A case that loads can be locked, and its lock covers it. */
  lemma LockCovers(w: World, files: Files, c: Case)
    requires Loads(w, files, c)
    ensures BuiltLock(w, files, c).Ok? && Covers(w, files, c, BuiltLock(w, files, c).value)
  {
    hide PathList, EscapesOrUnclean, LexLeq, WellFormed;
    var paths := PathList(c.manifest.sources);
    forall path ensures path in paths <==> NamesPath(c.manifest.sources, path) { PathListed(c.manifest.sources, path); }
    PathListed(c.manifest.sources, MANIFEST);
    forall k | 0 <= k < |paths|
      ensures NamesPath(c.manifest.sources, paths[k])
      ensures paths[k] in files && files[paths[k]].File? && !EscapesOrUnclean(w, paths[k])
    {
      assert paths[k] in paths;
      SourceReadable(w, files, c, paths[k]);
    }
    FilesBuilt(w, files, paths);
    var lock := BuiltLock(w, files, c).value;
    forall path | NamesPath(c.manifest.sources, path)
      ensures exists k :: 0 <= k < |lock.files| && lock.files[k].path == path {
      var k :| 0 <= k < |paths| && paths[k] == path;
      assert lock.files[k].path == path;
    }
  }

  /** The list of locked files depends only on which paths the sources name: not on their order and
      not on how often a path is named. */
  lemma LockIgnoresOrder(w: World, files: Files, a: seq<SourceRef>, b: seq<SourceRef>)
    requires forall path :: NamesPath(a, path) <==> NamesPath(b, path)
    ensures LockFiles(w, files, PathList(a)) == LockFiles(w, files, PathList(b))
  {
    hide LockFiles, SortBy, LexLeq;
    forall path ensures path in Dedup(Paths(a)) <==> path in Dedup(Paths(b)) {
      InPaths(a, path);
      InPaths(b, path);
    }
    OrderedListUnique(Dedup(Paths(a)), Dedup(Paths(b)));
  }

  lemma InPaths(sources: seq<SourceRef>, path: string)
    ensures path in Paths(sources) <==> NamesPath(sources, path)
  {
    if k :| 0 <= k < |sources| && sources[k].fixturePath == path { assert Paths(sources)[k] == path; }
    if path in Paths(sources) {
      var k :| 0 <= k < |Paths(sources)| && Paths(sources)[k] == path;
      assert sources[k].fixturePath == path;
    }
  }

  // ----- The guarantee -----

  /** Manifest, events and every fixture hold the bytes they held, each fixture still inside the directory. */
  ghost predicate SameEvidence(files: Files, later: Files, sources: seq<SourceRef>) {
    && Read(later, MANIFEST) == Read(files, MANIFEST)
    && Read(later, EVENTS) == Read(files, EVENTS)
    && forall path :: NamesPath(sources, path) ==>
         path in files && path in later && later[path].File? && files[path].File?
           && later[path].data == files[path].data
  }

  lemma SameEvidenceVerifies(w: World, files: Files, later: Files, c: Case, lock: FixtureLock)
    requires Covers(w, files, c, lock) && SameEvidence(files, later, c.manifest.sources)
    ensures Verifies(w, later, c.manifest.id, lock)
  {
    hide EscapesOrUnclean, NamesPath, LexLeq;
  }

  lemma FixturesStay(w: World, files: Files, later: Files, c: Case)
    requires Loads(w, files, c) && SameEvidence(files, later, c.manifest.sources)
    ensures forall k :: 0 <= k < |c.manifest.sources| ==> GoodFixture(w, later, c.manifest.sources[k])
  {
    hide BadFixturePath, GoodEvents, GoodHeader, GoodFacts, DecodedManifest, DecodedEvents;
    var sources := c.manifest.sources;
    forall k | 0 <= k < |sources| ensures GoodFixture(w, later, sources[k]) {
      assert GoodSource(w, files, sources[k]);
      assert NamesPath(sources, sources[k].fixturePath);
    }
  }

  lemma VerifiedIsSame(w: World, files: Files, later: Files, c: Case, lock: FixtureLock, caseID: string)
    requires Lawful(w) && Covers(w, files, c, lock) && Verifies(w, later, caseID, lock)
    ensures SameEvidence(files, later, c.manifest.sources)
  {
    hide EscapesOrUnclean, NamesPath, LexLeq;
    forall path | NamesPath(c.manifest.sources, path)
      ensures path in files && path in later && later[path].File? && files[path].File?
              && later[path].data == files[path].data
    {
      var k :| 0 <= k < |lock.files| && lock.files[k].path == path;
      assert FileMatches(w, later, lock.files[k]);
    }
  }

  /** The lock detects every change: with the lock of a freeze still in place, validation passes exactly
      when the evidence holds the bytes it held when it was frozen. */
  lemma LockDetects(w: World, files: Files, later: Files, c: Case, lock: FixtureLock, fallbackID: string)
    requires Lawful(w) && Loads(w, files, c) && BuiltLock(w, files, c) == Ok(lock)
    requires Read(later, LOCK) == Some(w.lockBytes(lock))
    ensures Validated(w, later, fallbackID).pass <==> SameEvidence(files, later, c.manifest.sources)
  {
    hide Loads, Loaded, BuiltLock, SameEvidence, Validated, Verifies, Read, Covers;
    LockCovers(w, files, c);
    PassMeans(w, later, fallbackID);
    assert w.lockOf(w.lockBytes(lock)) == Ok(lock);
    if Validated(w, later, fallbackID).pass {
      VerifiedIsSame(w, files, later, c, lock, Loaded(w, later).value.manifest.id);
    }
    if SameEvidence(files, later, c.manifest.sources) {
      SameEvidenceLoads(w, files, later, c);
      SameEvidenceVerifies(w, files, later, c, lock);
    }
  }

  lemma SameEvidenceLoads(w: World, files: Files, later: Files, c: Case)
    requires Loads(w, files, c) && SameEvidence(files, later, c.manifest.sources)
    ensures Loaded(w, later) == Ok(c)
  {
    hide Loaded, NamesPath, WellFormed;
    FixturesStay(w, files, later, c);
    StaysWellFormed(w, files, later, c);
    LoadedExactly(w, later, c);
  }

  lemma StaysWellFormed(w: World, files: Files, later: Files, c: Case)
    requires WellFormed(w, files, c)
    requires forall k :: 0 <= k < |c.manifest.sources| ==> GoodFixture(w, later, c.manifest.sources[k])
    ensures WellFormed(w, later, c)
  {
    hide GoodFixture, GoodHeader, GoodEvents, GoodFacts, Blank;
    var sources := c.manifest.sources;
    forall k | 0 <= k < |sources| ensures GoodSource(w, later, sources[k]) {
      assert GoodSource(w, files, sources[k]);
    }
  }

  /** Validation right after a freeze passes exactly when no source names the lock file itself, or the
      freeze did not change that file's bytes. */
  lemma FreezeThenValidate(w: World, files: Files, c: Case, fallbackID: string)
    requires Lawful(w) && Loads(w, files, c)
    ensures Frozen(w, files, None).1.Ok?
    ensures var after := Frozen(w, files, None).0;
            Validated(w, after, fallbackID).pass
            <==> !NamesPath(c.manifest.sources, LOCK) || Read(after, LOCK) == Read(files, LOCK)
  {
    hide Loads, Loaded, BuiltLock, Validated, NamesPath, EscapesOrUnclean, Covers;
    LoadedExactly(w, files, c);
    LockCovers(w, files, c);
    var after := Frozen(w, files, None).0;
    LockDetects(w, files, after, c, BuiltLock(w, files, c).value, fallbackID);
    forall path | NamesPath(c.manifest.sources, path) ensures path in files && files[path].File? {
      SourceReadable(w, files, c, path);
    }
  }

  /** A freeze that fails leaves the directory alone, and one that succeeds touches only the lock. */
  lemma FreezeTouchesOnlyTheLock(w: World, files: Files, writeError: Option<string>, path: string)
    requires path != LOCK || Frozen(w, files, writeError).1.Err?
    ensures var after := Frozen(w, files, writeError).0;
            (path in after <==> path in files) && (path in files ==> after[path] == files[path])
  {
    hide Loaded, BuiltLock;
  }
}
