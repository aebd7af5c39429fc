/** A validation report has each code once for each place where its check fails, with the message about that place. */
module RealityFindings {
  import opened Common
  import opened RealityCase
  import opened RealityChecks
  import opened RealityValidation

  // ----- Counting by check and place -----

  /** A case, and which violations are counted. */
  datatype View = View(w: World, files: Files, c: Case, keep: Violation -> bool)

  /** What one check at one place adds to the count. */
  function Hit(x: View, check: Check, i: nat): nat {
    if Wrong(x.w, x.files, x.c, check, i)
       && x.keep(Violation(CodeName(check), Message(x.w, x.files, x.c, check, i))) then 1 else 0
  }

  /** What it adds at its first n places. */
  function Column(x: View, check: Check, n: nat): nat {
    if n == 0 then 0 else Column(x, check, n - 1) + Hit(x, check, n - 1)
  }

  lemma AddCounts(keep: Violation -> bool, vs: seq<Finding>, wrong: bool, v: Finding)
    ensures Count<Violation>(keep, AddIf(vs, wrong, v))
            == Count<Violation>(keep, vs) + if wrong && keep(v) then 1 else 0
  {
    hide Count, PlainCode;
    var before: seq<Violation> := vs;
    var added: seq<Violation> := [v];
    CountConcat<Violation>(keep, before, added);
    CountOne<Violation>(keep, v);
    if wrong { assert AddIf(vs, wrong, v) == before + added; }
  }

  function HeaderSum(x: View): nat {
    Hit(x, WrongVersion, 0) + Hit(x, NoID, 0) + Hit(x, NoTitle, 0) + Hit(x, WrongLevel, 0) + Hit(x, NoLines, 0)
  }

  lemma WrongVersionHit(x: View, vs: seq<Finding>)
    ensures var m := x.c.manifest;
            Count<Violation>(x.keep, AddIf(vs, m.version != 1, VersionUnsupported()))
            == Count<Violation>(x.keep, vs) + Hit(x, WrongVersion, 0)
  {
    hide Count, PlainCode, AddIf, Blank;
    AddCounts(x.keep, vs, x.c.manifest.version != 1, VersionUnsupported());
  }

  lemma NoIDHit(x: View, vs: seq<Finding>)
    ensures var m := x.c.manifest;
            Count<Violation>(x.keep, AddIf(vs, Blank(m.id), IDRequired()))
            == Count<Violation>(x.keep, vs) + Hit(x, NoID, 0)
  {
    hide Count, PlainCode, AddIf, Blank;
    AddCounts(x.keep, vs, Blank(x.c.manifest.id), IDRequired());
  }

  lemma NoTitleHit(x: View, vs: seq<Finding>)
    ensures var m := x.c.manifest;
            Count<Violation>(x.keep, AddIf(vs, Blank(m.title), TitleRequired()))
            == Count<Violation>(x.keep, vs) + Hit(x, NoTitle, 0)
  {
    hide Count, PlainCode, AddIf, Blank;
    AddCounts(x.keep, vs, Blank(x.c.manifest.title), TitleRequired());
  }

  lemma WrongLevelHit(x: View, vs: seq<Finding>, wrong: bool)
    requires var m := x.c.manifest; wrong <==> m.evidenceLevel != "public" && m.evidenceLevel != "withheld_local"
    ensures var m := x.c.manifest;
            Count<Violation>(x.keep, AddIf(vs, wrong, EvidenceLevelInvalid()))
            == Count<Violation>(x.keep, vs) + Hit(x, WrongLevel, 0)
  {
    hide Count, PlainCode, AddIf, Blank;
    AddCounts(x.keep, vs, wrong, EvidenceLevelInvalid());
  }

  lemma NoLinesHit(x: View, vs: seq<Finding>)
    ensures var m := x.c.manifest;
            Count<Violation>(x.keep, AddIf(vs, m.continuityLines == [], ContinuityLinesRequired()))
            == Count<Violation>(x.keep, vs) + Hit(x, NoLines, 0)
  {
    hide Count, PlainCode, AddIf, Blank;
    AddCounts(x.keep, vs, x.c.manifest.continuityLines == [], ContinuityLinesRequired());
  }

  lemma HeaderCounts(x: View)
    ensures Count<Violation>(x.keep, AfterHeader(x.w, x.c.manifest)) == HeaderSum(x)
  {
    hide Count, Blank, PlainCode, AddIf, Hit, VersionUnsupported, IDRequired, TitleRequired, EvidenceLevelInvalid,
      ContinuityLinesRequired;
    var m := x.c.manifest;
    var v0: seq<Finding> := [];
    NothingCounts(x.keep);
    var v1 := AddIf(v0, m.version != 1, VersionUnsupported());
    var v2 := AddIf(v1, Blank(m.id), IDRequired());
    var v3 := AddIf(v2, Blank(m.title), TitleRequired());
    var level := m.evidenceLevel != "public" && m.evidenceLevel != "withheld_local";
    var v4 := AddIf(v3, level, EvidenceLevelInvalid());
    WrongVersionHit(x, v0);
    NoIDHit(x, v1);
    NoTitleHit(x, v2);
    WrongLevelHit(x, v3, level);
    NoLinesHit(x, v4);
  }

  lemma NothingCounts(keep: Violation -> bool)
    ensures Count<Violation>(keep, []) == 0
  {
  }

  lemma WrongLineHit(x: View, vs: seq<Finding>, i: nat, wrong: bool)
    requires i < |x.c.manifest.continuityLines| && (wrong <==> !ValidContinuityLine(x.c.manifest.continuityLines[i]))
    ensures Count<Violation>(x.keep, AddIf(vs, wrong, ContinuityLineInvalid(x.w, x.c.manifest.continuityLines[i])))
            == Count<Violation>(x.keep, vs) + Hit(x, WrongLine, i)
  {
    hide Count, PlainCode, AddIf;
    AddCounts(x.keep, vs, wrong, ContinuityLineInvalid(x.w, x.c.manifest.continuityLines[i]));
  }

  lemma {:induction false} LinesCount(x: View, vs: seq<Finding>, n: nat)
    requires n <= |x.c.manifest.continuityLines|
    ensures Count<Violation>(x.keep, AfterLines(x.w, vs, x.c.manifest.continuityLines[..n]))
            == Count<Violation>(x.keep, vs) + Column(x, WrongLine, n)
  {
    hide Count, PlainCode, AddIf, Hit, ValidContinuityLine, ContinuityLineInvalid;
    if n > 0 {
      var lines := x.c.manifest.continuityLines;
      var before := AfterLines(x.w, vs, lines[..n - 1]);
      LinesCount(x, vs, n - 1);
      assert lines[..n][..n - 1] == lines[..n - 1];
      WrongLineHit(x, before, n - 1, !ValidContinuityLine(lines[n - 1]));
    }
  }

  function ListsSum(x: View): nat {
    Hit(x, NoPressures, 0) + Hit(x, NoSources, 0) + Hit(x, NoAnchors, 0) + Hit(x, NoCurrent, 0) + Hit(x, NoForbidden, 0)
  }

  lemma NoPressuresHit(x: View, vs: seq<Finding>)
    ensures var m := x.c.manifest;
            Count<Violation>(x.keep, AddIf(vs, m.pressures == [], PressuresRequired()))
            == Count<Violation>(x.keep, vs) + Hit(x, NoPressures, 0)
  {
    hide Count, PlainCode, AddIf;
    AddCounts(x.keep, vs, x.c.manifest.pressures == [], PressuresRequired());
  }

  lemma NoSourcesHit(x: View, vs: seq<Finding>)
    ensures var m := x.c.manifest;
            Count<Violation>(x.keep, AddIf(vs, m.sources == [], SourcesRequired()))
            == Count<Violation>(x.keep, vs) + Hit(x, NoSources, 0)
  {
    hide Count, PlainCode, AddIf;
    AddCounts(x.keep, vs, x.c.manifest.sources == [], SourcesRequired());
  }

  lemma NoAnchorsHit(x: View, vs: seq<Finding>)
    ensures var m := x.c.manifest;
            Count<Violation>(x.keep, AddIf(vs, m.anchors == [], AnchorsRequired()))
            == Count<Violation>(x.keep, vs) + Hit(x, NoAnchors, 0)
  {
    hide Count, PlainCode, AddIf;
    AddCounts(x.keep, vs, x.c.manifest.anchors == [], AnchorsRequired());
  }

  lemma NoCurrentHit(x: View, vs: seq<Finding>)
    ensures var m := x.c.manifest;
            Count<Violation>(x.keep, AddIf(vs, m.expectations.currentFacts == [], CurrentFactsRequired()))
            == Count<Violation>(x.keep, vs) + Hit(x, NoCurrent, 0)
  {
    hide Count, PlainCode, AddIf;
    AddCounts(x.keep, vs, x.c.manifest.expectations.currentFacts == [], CurrentFactsRequired());
  }

  lemma NoForbiddenHit(x: View, vs: seq<Finding>)
    ensures var m := x.c.manifest;
            Count<Violation>(x.keep, AddIf(vs, m.expectations.forbiddenFacts == [], ForbiddenFactsRequired()))
            == Count<Violation>(x.keep, vs) + Hit(x, NoForbidden, 0)
  {
    hide Count, PlainCode, AddIf;
    AddCounts(x.keep, vs, x.c.manifest.expectations.forbiddenFacts == [], ForbiddenFactsRequired());
  }

  lemma ListsCount(x: View, vs: seq<Finding>)
    ensures Count<Violation>(x.keep, AfterLists(vs, x.c.manifest)) == Count<Violation>(x.keep, vs) + ListsSum(x)
  {
    hide Count, PlainCode, AddIf, Hit, PressuresRequired, SourcesRequired, AnchorsRequired, CurrentFactsRequired,
      ForbiddenFactsRequired;
    var m := x.c.manifest;
    var v1 := AddIf(vs, m.pressures == [], PressuresRequired());
    var v2 := AddIf(v1, m.sources == [], SourcesRequired());
    var v3 := AddIf(v2, m.anchors == [], AnchorsRequired());
    var v4 := AddIf(v3, m.expectations.currentFacts == [], CurrentFactsRequired());
    NoPressuresHit(x, vs);
    NoSourcesHit(x, v1);
    NoAnchorsHit(x, v2);
    NoCurrentHit(x, v3);
    NoForbiddenHit(x, v4);
  }

  function TaskSum(x: View): nat { Hit(x, NoAction, 0) + Hit(x, NoPrompt, 0) + Hit(x, NoChecks, 0) }

  lemma NoActionHit(x: View, vs: seq<Finding>)
    ensures var m := x.c.manifest;
            Count<Violation>(x.keep, AddIf(vs, Blank(m.expectations.expectedAction), ExpectedActionRequired()))
            == Count<Violation>(x.keep, vs) + Hit(x, NoAction, 0)
  {
    hide Count, PlainCode, AddIf, Blank;
    AddCounts(x.keep, vs, Blank(x.c.manifest.expectations.expectedAction), ExpectedActionRequired());
  }

  lemma NoPromptHit(x: View, vs: seq<Finding>)
    ensures var m := x.c.manifest;
            Count<Violation>(x.keep, AddIf(vs, Blank(m.task.prompt), TaskPromptRequired()))
            == Count<Violation>(x.keep, vs) + Hit(x, NoPrompt, 0)
  {
    hide Count, PlainCode, AddIf, Blank;
    AddCounts(x.keep, vs, Blank(x.c.manifest.task.prompt), TaskPromptRequired());
  }

  lemma NoChecksHit(x: View, vs: seq<Finding>)
    ensures var m := x.c.manifest;
            Count<Violation>(x.keep, AddIf(vs, m.task.deterministicChecks == [], DeterministicChecksRequired()))
            == Count<Violation>(x.keep, vs) + Hit(x, NoChecks, 0)
  {
    hide Count, PlainCode, AddIf, Blank;
    AddCounts(x.keep, vs, x.c.manifest.task.deterministicChecks == [], DeterministicChecksRequired());
  }

  lemma TaskCount(x: View, vs: seq<Finding>)
    ensures Count<Violation>(x.keep, AfterTask(vs, x.c.manifest)) == Count<Violation>(x.keep, vs) + TaskSum(x)
  {
    hide Count, PlainCode, AddIf, Blank, Hit, ExpectedActionRequired, TaskPromptRequired, DeterministicChecksRequired;
    var m := x.c.manifest;
    var v1 := AddIf(vs, Blank(m.expectations.expectedAction), ExpectedActionRequired());
    var v2 := AddIf(v1, Blank(m.task.prompt), TaskPromptRequired());
    NoActionHit(x, vs);
    NoPromptHit(x, v1);
    NoChecksHit(x, v2);
  }

  // ----- Sources -----

  function SourceSum(x: View, i: nat): nat
  {
    Hit(x, SourceNoID, i) + Hit(x, SourceTwice, i) + Hit(x, SourceNoKind, i) + Hit(x, SourceNotAllowed, i)
    + Hit(x, SourceNotAnonymous, i) + Hit(x, FixtureOutside, i) + Hit(x, FixtureUnread, i)
    + Hit(x, FixtureChanged, i)
  }

  function SourceColumns(x: View, n: nat): nat
  {
    Column(x, SourceNoID, n) + Column(x, SourceTwice, n) + Column(x, SourceNoKind, n)
    + Column(x, SourceNotAllowed, n) + Column(x, SourceNotAnonymous, n) + Column(x, FixtureOutside, n)
    + Column(x, FixtureUnread, n) + Column(x, FixtureChanged, n)
  }

  lemma KnownBefore(x: View, i: nat)
    requires i < |x.c.manifest.sources|
    ensures var sources := x.c.manifest.sources;
            !Blank(sources[i].id) ==>
              (sources[i].id in SourceIDs(sources[..i]) <==> exists j :: 0 <= j < i && sources[j].id == sources[i].id)
  {
    hide Blank;
    var sources := x.c.manifest.sources;
    var id := sources[i].id;
    if !Blank(id) {
      if id in SourceIDs(sources[..i]) {
        var s :| s in sources[..i] && !Blank(s.id) && s.id == id;
        var j :| 0 <= j < i && sources[..i][j] == s;
        assert sources[j].id == id;
      }
      if j :| 0 <= j < i && sources[j].id == id {
        assert sources[..i][j] in sources[..i];
      }
    }
  }

  lemma SourceNoIDHit(x: View, vs: seq<Finding>, i: nat)
    requires i < |x.c.manifest.sources|
    ensures var s := x.c.manifest.sources[i];
            Count<Violation>(x.keep, AddIf(vs, Blank(s.id), SourceIDRequired(i)))
            == Count<Violation>(x.keep, vs) + Hit(x, SourceNoID, i)
  {
    hide Count, PlainCode, AddIf, Blank, Int, SourceIDs, EventIDs;
    var s := x.c.manifest.sources[i];
    AddCounts(x.keep, vs, Blank(s.id), SourceIDRequired(i));
  }

  lemma SourceTwiceWrong(x: View, i: nat)
    requires i < |x.c.manifest.sources|
    ensures var s := x.c.manifest.sources[i];
            Wrong(x.w, x.files, x.c, SourceTwice, i) <==> !Blank(s.id) && s.id in SourceIDs(x.c.manifest.sources[..i])
  {
    hide Blank, SourceIDs, EventIDs;
    var s := x.c.manifest.sources[i];
    KnownBefore(x, i);
  }

  lemma SourceTwiceHit(x: View, vs: seq<Finding>, i: nat, again: bool)
    requires i < |x.c.manifest.sources|
    requires var s := x.c.manifest.sources[i]; again <==> !Blank(s.id) && s.id in SourceIDs(x.c.manifest.sources[..i])
    ensures var s := x.c.manifest.sources[i];
            Count<Violation>(x.keep, AddIf(vs, again, DuplicateSourceID(x.w, s.id)))
            == Count<Violation>(x.keep, vs) + Hit(x, SourceTwice, i)
  {
    hide Count, PlainCode, AddIf, Blank, Int, SourceIDs, EventIDs, Wrong;
    var s := x.c.manifest.sources[i];
    SourceTwiceWrong(x, i);
    AddCounts(x.keep, vs, again, DuplicateSourceID(x.w, s.id));
  }

  lemma SourceNoKindHit(x: View, vs: seq<Finding>, i: nat)
    requires i < |x.c.manifest.sources|
    ensures var s := x.c.manifest.sources[i];
            Count<Violation>(x.keep, AddIf(vs, Blank(s.kind), SourceKindRequired(x.w, s.id)))
            == Count<Violation>(x.keep, vs) + Hit(x, SourceNoKind, i)
  {
    hide Count, PlainCode, AddIf, Blank, Int, SourceIDs, EventIDs;
    var s := x.c.manifest.sources[i];
    AddCounts(x.keep, vs, Blank(s.kind), SourceKindRequired(x.w, s.id));
  }

  lemma SourceNotAllowedHit(x: View, vs: seq<Finding>, i: nat, wrong: bool)
    requires i < |x.c.manifest.sources|
    requires var s := x.c.manifest.sources[i]; wrong <==> !s.authorized
    ensures var s := x.c.manifest.sources[i];
            Count<Violation>(x.keep, AddIf(vs, wrong, SourceNotAuthorized(x.w, s.id)))
            == Count<Violation>(x.keep, vs) + Hit(x, SourceNotAllowed, i)
  {
    hide Count, PlainCode, AddIf, Blank, Int, SourceIDs, EventIDs;
    var s := x.c.manifest.sources[i];
    AddCounts(x.keep, vs, wrong, SourceNotAuthorized(x.w, s.id));
  }

  lemma SourceNotAnonymousHit(x: View, vs: seq<Finding>, i: nat)
    requires i < |x.c.manifest.sources|
    ensures var s := x.c.manifest.sources[i];
            Count<Violation>(x.keep, AddIf(vs, Blank(s.anonymization), SourceAnonymizationRequired(x.w, s.id)))
            == Count<Violation>(x.keep, vs) + Hit(x, SourceNotAnonymous, i)
  {
    hide Count, PlainCode, AddIf, Blank, Int, SourceIDs, EventIDs;
    var s := x.c.manifest.sources[i];
    AddCounts(x.keep, vs, Blank(s.anonymization), SourceAnonymizationRequired(x.w, s.id));
  }

  /** The checks of one source before its fixture, one after the other. */
  function SourceChain(w: World, vs: seq<Finding>, known: set<string>, i: nat, s: SourceRef): seq<seq<Finding>> {
    var v1 := AddIf(vs, Blank(s.id), SourceIDRequired(i));
    var v2 := AddIf(v1, !Blank(s.id) && s.id in known, DuplicateSourceID(w, s.id));
    var v3 := AddIf(v2, Blank(s.kind), SourceKindRequired(w, s.id));
    var v4 := AddIf(v3, !s.authorized, SourceNotAuthorized(w, s.id));
    [v1, v2, v3, v4, AddIf(v4, Blank(s.anonymization), SourceAnonymizationRequired(w, s.id))]
  }

  lemma FieldsAreChain(w: World, vs: seq<Finding>, known: set<string>, i: nat, s: SourceRef)
    ensures AfterSourceFields(w, vs, known, i, s) == SourceChain(w, vs, known, i, s)[4]
  {
    hide Blank, PlainCode, SourceIDRequired, DuplicateSourceID, SourceKindRequired, SourceNotAuthorized,
      SourceAnonymizationRequired;
  }

  lemma SourceFieldsCount(x: View, vs: seq<Finding>, i: nat)
    requires i < |x.c.manifest.sources|
    ensures var sources := x.c.manifest.sources;
            Count<Violation>(x.keep, AfterSourceFields(x.w, vs, SourceIDs(sources[..i]), i, sources[i]))
            == Count<Violation>(x.keep, vs) + Hit(x, SourceNoID, i) + Hit(x, SourceTwice, i)
               + Hit(x, SourceNoKind, i) + Hit(x, SourceNotAllowed, i) + Hit(x, SourceNotAnonymous, i)
  {
    hide Count, PlainCode, Blank, SourceIDs, Hit, AddIf, AfterSourceFields, SourceIDRequired, DuplicateSourceID,
      SourceKindRequired, SourceNotAuthorized, SourceAnonymizationRequired;
    var s, known := x.c.manifest.sources[i], SourceIDs(x.c.manifest.sources[..i]);
    var chain := SourceChain(x.w, vs, known, i, s);
    FieldsAreChain(x.w, vs, known, i, s);
    SourceNoIDHit(x, vs, i);
    SourceTwiceHit(x, chain[0], i, !Blank(s.id) && s.id in known);
    SourceNoKindHit(x, chain[1], i);
    SourceNotAllowedHit(x, chain[2], i, !s.authorized);
    SourceNotAnonymousHit(x, chain[3], i);
  }

  lemma FixtureOutsideHit(x: View, i: nat)
    requires i < |x.c.manifest.sources|
    ensures var s := x.c.manifest.sources[i];
            Hit(x, FixtureOutside, i)
            == if Unclean(x.w, s.fixturePath) then (if x.keep(FixturePathUnclean(x.w, s.id)) then 1 else 0)
               else if !Within(x.files, s.fixturePath) then (if x.keep(FixturePathEscapes(x.w, s.id)) then 1 else 0)
               else 0
  {
    hide PlainCode, Blank;
  }

  lemma FixtureUnreadHit(x: View, i: nat)
    requires i < |x.c.manifest.sources|
    ensures var s := x.c.manifest.sources[i];
            Hit(x, FixtureUnread, i)
            == if Inside(x.w, x.files, s.fixturePath) && x.files[s.fixturePath].Unreadable?
                  && x.keep(FixtureUnreadable(x.w, s.id, s.fixturePath)) then 1 else 0
  {
    hide PlainCode, Blank;
  }

  lemma FixtureChangedHit(x: View, i: nat, path: string, actual: string)
    requires i < |x.c.manifest.sources| && path == x.c.manifest.sources[i].fixturePath
    requires Inside(x.w, x.files, path) && x.files[path].File? ==> actual == x.w.hash(x.files[path].data)
    ensures var s := x.c.manifest.sources[i];
            Hit(x, FixtureChanged, i)
            == if Inside(x.w, x.files, path) && x.files[path].File? && actual != s.sha256
                  && x.keep(FixtureHashMismatch(x.w, s.id, actual, s.sha256)) then 1 else 0
  {
    hide PlainCode, Blank, Unclean;
  }

  lemma FixtureCount(x: View, vs: seq<Finding>, i: nat)
    requires i < |x.c.manifest.sources|
    ensures Count<Violation>(x.keep, AfterFixture(x.w, x.files, vs, x.c.manifest.sources[i]))
            == Count<Violation>(x.keep, vs)
               + Hit(x, FixtureOutside, i) + Hit(x, FixtureUnread, i) + Hit(x, FixtureChanged, i)
  {
    hide Count, PlainCode, AddIf, Blank, Hit, FixturePathUnclean, FixturePathEscapes, FixtureUnreadable,
      FixtureHashMismatch;
    var s := x.c.manifest.sources[i];
    var path := s.fixturePath;
    FixtureOutsideHit(x, i);
    FixtureUnreadHit(x, i);
    var there := Inside(x.w, x.files, path) && x.files[path].File?;
    FixtureChangedHit(x, i, path, if there then x.w.hash(x.files[path].data) else "");
    assert BadFixturePath(x.w, path) <==> Unclean(x.w, path);
    AddCounts(x.keep, vs, true, FixturePathUnclean(x.w, s.id));
    AddCounts(x.keep, vs, true, FixturePathEscapes(x.w, s.id));
    AddCounts(x.keep, vs, true, FixtureUnreadable(x.w, s.id, path));
    if Inside(x.w, x.files, path) && x.files[path].File? {
      var actual := x.w.hash(x.files[path].data);
      AddCounts(x.keep, vs, s.sha256 != actual, FixtureHashMismatch(x.w, s.id, actual, s.sha256));
    }
  }

  lemma SourceCount(x: View, vs: seq<Finding>, i: nat)
    requires i < |x.c.manifest.sources|
    ensures var sources := x.c.manifest.sources;
            Count<Violation>(x.keep, AfterSource(x.w, x.files, vs, SourceIDs(sources[..i]), i, sources[i]))
            == Count<Violation>(x.keep, vs) + SourceSum(x, i)
  {
    hide Count, PlainCode, Blank, SourceIDs, AfterSourceFields, AfterFixture, Hit;
    SourceFieldsCount(x, vs, i);
    FixtureCount(x, AfterSourceFields(x.w, vs, SourceIDs(x.c.manifest.sources[..i]), i, x.c.manifest.sources[i]), i);
  }

  lemma {:induction false} SourcesCount(x: View, vs: seq<Finding>, n: nat)
    requires n <= |x.c.manifest.sources|
    ensures Count<Violation>(x.keep, AfterSources(x.w, x.files, vs, x.c.manifest.sources[..n]))
            == Count<Violation>(x.keep, vs) + SourceColumns(x, n)
  {
    hide Count, PlainCode, SourceIDs, AfterSource, Hit;
    if n > 0 {
      var sources := x.c.manifest.sources;
      SourcesCount(x, vs, n - 1);
      assert sources[..n][..n - 1] == sources[..n - 1];
      SourceCount(x, AfterSources(x.w, x.files, vs, sources[..n - 1]), n - 1);
    }
  }

  // ----- Events -----

  function EventSum(x: View, i: nat): nat
  {
    Hit(x, EventNoID, i) + Hit(x, EventTwice, i) + Hit(x, EventOutOfOrder, i) + Hit(x, EventNoSource, i)
    + Hit(x, EventNoActor, i) + Hit(x, EventNoChannel, i) + Hit(x, EventNoContent, i)
  }

  function EventColumns(x: View, n: nat): nat
  {
    Column(x, EventNoID, n) + Column(x, EventTwice, n) + Column(x, EventOutOfOrder, n)
    + Column(x, EventNoSource, n) + Column(x, EventNoActor, n) + Column(x, EventNoChannel, n)
    + Column(x, EventNoContent, n)
  }

  lemma EventBefore(x: View, i: nat)
    requires i < |x.c.events|
    ensures var events := x.c.events;
            !Blank(events[i].id) ==>
              (events[i].id in EventIDs(events[..i]) <==> exists j :: 0 <= j < i && events[j].id == events[i].id)
  {
    hide Blank;
    var events := x.c.events;
    var id := events[i].id;
    if !Blank(id) {
      if id in EventIDs(events[..i]) {
        var e :| e in events[..i] && !Blank(e.id) && e.id == id;
        var j :| 0 <= j < i && events[..i][j] == e;
        assert events[j].id == id;
      }
      if j :| 0 <= j < i && events[j].id == id {
        assert events[..i][j] in events[..i];
      }
    }
  }

  lemma SourceKnown(sources: seq<SourceRef>, id: string)
    ensures id in SourceIDs(sources) <==> !Blank(id) && exists k :: 0 <= k < |sources| && sources[k].id == id
  {
    hide Blank;
    if !Blank(id) {
      if k :| 0 <= k < |sources| && sources[k].id == id { assert sources[k] in sources; }
    }
  }

  lemma EventNoIDHit(x: View, vs: seq<Finding>, i: nat)
    requires i < |x.c.events|
    ensures var e := x.c.events[i];
            Count<Violation>(x.keep, AddIf(vs, Blank(e.id), EventIDRequired(e.sequence)))
            == Count<Violation>(x.keep, vs) + Hit(x, EventNoID, i)
  {
    hide Count, PlainCode, AddIf, Blank, Int, SourceIDs, EventIDs;
    var e := x.c.events[i];
    AddCounts(x.keep, vs, Blank(e.id), EventIDRequired(e.sequence));
  }

  lemma EventTwiceWrong(x: View, i: nat)
    requires i < |x.c.events|
    ensures var e := x.c.events[i];
            Wrong(x.w, x.files, x.c, EventTwice, i) <==> !Blank(e.id) && e.id in EventIDs(x.c.events[..i])
  {
    hide Blank, SourceIDs, EventIDs;
    var e := x.c.events[i];
    EventBefore(x, i);
  }

  lemma EventTwiceHit(x: View, vs: seq<Finding>, i: nat, again: bool)
    requires i < |x.c.events|
    requires var e := x.c.events[i]; again <==> !Blank(e.id) && e.id in EventIDs(x.c.events[..i])
    ensures var e := x.c.events[i];
            Count<Violation>(x.keep, AddIf(vs, again, DuplicateEventID(x.w, e.id)))
            == Count<Violation>(x.keep, vs) + Hit(x, EventTwice, i)
  {
    hide Count, PlainCode, AddIf, Blank, Int, SourceIDs, EventIDs, Wrong;
    var e := x.c.events[i];
    EventTwiceWrong(x, i);
    AddCounts(x.keep, vs, again, DuplicateEventID(x.w, e.id));
  }

  lemma EventOutOfOrderHit(x: View, vs: seq<Finding>, i: nat)
    requires i < |x.c.events|
    ensures var e := x.c.events[i];
            Count<Violation>(x.keep,
              AddIf(vs, e.sequence != i + 1, EventSequenceInvalid(x.w, e.id, Int(e.sequence), Int(i + 1))))
            == Count<Violation>(x.keep, vs) + Hit(x, EventOutOfOrder, i)
  {
    hide Count, PlainCode, AddIf, Blank, Int, SourceIDs, EventIDs;
    var e := x.c.events[i];
    AddCounts(x.keep, vs, e.sequence != i + 1, EventSequenceInvalid(x.w, e.id, Int(e.sequence), Int(i + 1)));
  }

  lemma EventNoSourceWrong(x: View, i: nat)
    requires i < |x.c.events|
    ensures var e := x.c.events[i];
            Wrong(x.w, x.files, x.c, EventNoSource, i) <==> e.sourceID !in SourceIDs(x.c.manifest.sources)
  {
    hide Blank, SourceIDs, EventIDs;
    var e := x.c.events[i];
    SourceKnown(x.c.manifest.sources, e.sourceID);
  }

  lemma EventNoSourceHit(x: View, vs: seq<Finding>, i: nat, wrong: bool)
    requires i < |x.c.events|
    requires var e := x.c.events[i]; wrong <==> e.sourceID !in SourceIDs(x.c.manifest.sources)
    ensures var e := x.c.events[i];
            Count<Violation>(x.keep, AddIf(vs, wrong, EventSourceUnknown(x.w, e.id, e.sourceID)))
            == Count<Violation>(x.keep, vs) + Hit(x, EventNoSource, i)
  {
    hide Count, PlainCode, AddIf, Blank, Int, SourceIDs, EventIDs, Wrong;
    var e := x.c.events[i];
    EventNoSourceWrong(x, i);
    AddCounts(x.keep, vs, wrong, EventSourceUnknown(x.w, e.id, e.sourceID));
  }

  lemma EventNoActorHit(x: View, vs: seq<Finding>, i: nat)
    requires i < |x.c.events|
    ensures var e := x.c.events[i];
            Count<Violation>(x.keep, AddIf(vs, Blank(e.actor), EventActorRequired(x.w, e.id)))
            == Count<Violation>(x.keep, vs) + Hit(x, EventNoActor, i)
  {
    hide Count, PlainCode, AddIf, Blank, Int, SourceIDs, EventIDs;
    var e := x.c.events[i];
    AddCounts(x.keep, vs, Blank(e.actor), EventActorRequired(x.w, e.id));
  }

  lemma EventNoChannelHit(x: View, vs: seq<Finding>, i: nat)
    requires i < |x.c.events|
    ensures var e := x.c.events[i];
            Count<Violation>(x.keep, AddIf(vs, Blank(e.channel), EventChannelRequired(x.w, e.id)))
            == Count<Violation>(x.keep, vs) + Hit(x, EventNoChannel, i)
  {
    hide Count, PlainCode, AddIf, Blank, Int, SourceIDs, EventIDs;
    var e := x.c.events[i];
    AddCounts(x.keep, vs, Blank(e.channel), EventChannelRequired(x.w, e.id));
  }

  lemma EventNoContentHit(x: View, vs: seq<Finding>, i: nat)
    requires i < |x.c.events|
    ensures var e := x.c.events[i];
            Count<Violation>(x.keep, AddIf(vs, Blank(e.content), EventContentRequired(x.w, e.id)))
            == Count<Violation>(x.keep, vs) + Hit(x, EventNoContent, i)
  {
    hide Count, PlainCode, AddIf, Blank, Int, SourceIDs, EventIDs;
    var e := x.c.events[i];
    AddCounts(x.keep, vs, Blank(e.content), EventContentRequired(x.w, e.id));
  }

  /** The checks of one event, one after the other. */
  function EventChain(w: World, vs: seq<Finding>, ids: set<string>, known: set<string>, i: nat, e: Event)
    : seq<seq<Finding>>
  {
    var v1 := AddIf(vs, Blank(e.id), EventIDRequired(e.sequence));
    var v2 := AddIf(v1, !Blank(e.id) && e.id in known, DuplicateEventID(w, e.id));
    var v3 := AddIf(v2, e.sequence != i + 1, EventSequenceInvalid(w, e.id, Int(e.sequence), Int(i + 1)));
    var v4 := AddIf(v3, e.sourceID !in ids, EventSourceUnknown(w, e.id, e.sourceID));
    var v5 := AddIf(v4, Blank(e.actor), EventActorRequired(w, e.id));
    var v6 := AddIf(v5, Blank(e.channel), EventChannelRequired(w, e.id));
    [v1, v2, v3, v4, v5, v6, AddIf(v6, Blank(e.content), EventContentRequired(w, e.id))]
  }

  lemma EventIsChain(w: World, vs: seq<Finding>, ids: set<string>, known: set<string>, i: nat, e: Event)
    ensures AfterEvent(w, vs, ids, known, i, e) == EventChain(w, vs, ids, known, i, e)[6]
  {
    hide Blank, PlainCode, Int, EventIDRequired, DuplicateEventID, EventSequenceInvalid, EventSourceUnknown,
      EventActorRequired, EventChannelRequired, EventContentRequired;
  }

  lemma EventCount(x: View, vs: seq<Finding>, i: nat)
    requires i < |x.c.events|
    ensures var ids := SourceIDs(x.c.manifest.sources);
            Count<Violation>(x.keep, AfterEvent(x.w, vs, ids, EventIDs(x.c.events[..i]), i, x.c.events[i]))
            == Count<Violation>(x.keep, vs) + EventSum(x, i)
  {
    hide Count, PlainCode, Blank, SourceIDs, EventIDs, Hit, Int, AddIf, AfterEvent, EventIDRequired, DuplicateEventID,
      EventSequenceInvalid, EventSourceUnknown, EventActorRequired, EventChannelRequired, EventContentRequired;
    var e, ids, known := x.c.events[i], SourceIDs(x.c.manifest.sources), EventIDs(x.c.events[..i]);
    var chain := EventChain(x.w, vs, ids, known, i, e);
    EventIsChain(x.w, vs, ids, known, i, e);
    EventNoIDHit(x, vs, i);
    EventTwiceHit(x, chain[0], i, !Blank(e.id) && e.id in known);
    EventOutOfOrderHit(x, chain[1], i);
    EventNoSourceHit(x, chain[2], i, e.sourceID !in ids);
    EventNoActorHit(x, chain[3], i);
    EventNoChannelHit(x, chain[4], i);
    EventNoContentHit(x, chain[5], i);
  }

  lemma {:induction false} EventsCount(x: View, vs: seq<Finding>, n: nat)
    requires n <= |x.c.events|
    ensures Count<Violation>(x.keep, AfterEvents(x.w, vs, SourceIDs(x.c.manifest.sources), x.c.events[..n]))
            == Count<Violation>(x.keep, vs) + EventColumns(x, n)
  {
    hide Count, PlainCode, SourceIDs, EventIDs, AfterEvent, Hit;
    if n > 0 {
      var events := x.c.events;
      EventsCount(x, vs, n - 1);
      assert events[..n][..n - 1] == events[..n - 1];
      EventCount(x, AfterEvents(x.w, vs, SourceIDs(x.c.manifest.sources), events[..n - 1]), n - 1);
    }
  }

  // ----- Facts -----

  lemma InPrefix(facts: seq<string>, i: nat)
    requires i < |facts|
    ensures facts[i] in facts[..i] <==> exists j :: 0 <= j < i && facts[j] == facts[i]
  {
  }

  lemma CurrentTwiceHit(x: View, vs: seq<Finding>, i: nat)
    requires i < |x.c.manifest.expectations.currentFacts|
    ensures var fact := x.c.manifest.expectations.currentFacts[i];
            Count<Violation>(x.keep,
              AddIf(vs, fact in x.c.manifest.expectations.currentFacts[..i], DuplicateCurrentFact(x.w, fact)))
            == Count<Violation>(x.keep, vs) + Hit(x, CurrentTwice, i)
  {
    hide Count, PlainCode, AddIf, Blank, Int, SourceIDs, EventIDs;
    var fact := x.c.manifest.expectations.currentFacts[i];
    InPrefix(x.c.manifest.expectations.currentFacts, i);
    AddCounts(x.keep, vs, fact in x.c.manifest.expectations.currentFacts[..i], DuplicateCurrentFact(x.w, fact));
  }

  lemma ForbiddenTwiceHit(x: View, vs: seq<Finding>, i: nat)
    requires i < |x.c.manifest.expectations.forbiddenFacts|
    ensures var fact := x.c.manifest.expectations.forbiddenFacts[i];
            Count<Violation>(x.keep,
              AddIf(vs, fact in x.c.manifest.expectations.forbiddenFacts[..i], DuplicateForbiddenFact(x.w, fact)))
            == Count<Violation>(x.keep, vs) + Hit(x, ForbiddenTwice, i)
  {
    hide Count, PlainCode, AddIf, Blank, Int, SourceIDs, EventIDs;
    var fact := x.c.manifest.expectations.forbiddenFacts[i];
    InPrefix(x.c.manifest.expectations.forbiddenFacts, i);
    AddCounts(x.keep, vs, fact in x.c.manifest.expectations.forbiddenFacts[..i], DuplicateForbiddenFact(x.w, fact));
  }

  lemma FactConflictHit(x: View, vs: seq<Finding>, i: nat)
    requires i < |x.c.manifest.expectations.forbiddenFacts|
    ensures var fact := x.c.manifest.expectations.forbiddenFacts[i];
            Count<Violation>(x.keep,
              AddIf(vs, fact in x.c.manifest.expectations.currentFacts, FactExpectationConflict(x.w, fact)))
            == Count<Violation>(x.keep, vs) + Hit(x, FactConflict, i)
  {
    hide Count, PlainCode, AddIf, Blank, Int, SourceIDs, EventIDs;
    var fact := x.c.manifest.expectations.forbiddenFacts[i];
    AddCounts(x.keep, vs, fact in x.c.manifest.expectations.currentFacts, FactExpectationConflict(x.w, fact));
  }

  lemma {:induction false} CurrentCount(x: View, vs: seq<Finding>, n: nat)
    requires n <= |x.c.manifest.expectations.currentFacts|
    ensures Count<Violation>(x.keep, AfterCurrentFacts(x.w, vs, x.c.manifest.expectations.currentFacts[..n]))
            == Count<Violation>(x.keep, vs) + Column(x, CurrentTwice, n)
  {
    hide Count, PlainCode, AddIf, Hit, DuplicateCurrentFact;
    if n > 0 {
      var facts := x.c.manifest.expectations.currentFacts;
      CurrentCount(x, vs, n - 1);
      assert facts[..n][..n - 1] == facts[..n - 1];
      CurrentTwiceHit(x, AfterCurrentFacts(x.w, vs, facts[..n - 1]), n - 1);
    }
  }

  lemma {:induction false} ForbiddenCount(x: View, vs: seq<Finding>, n: nat)
    requires n <= |x.c.manifest.expectations.forbiddenFacts|
    ensures var current, facts := x.c.manifest.expectations.currentFacts, x.c.manifest.expectations.forbiddenFacts;
            Count<Violation>(x.keep, AfterForbiddenFacts(x.w, vs, current, facts[..n]))
            == Count<Violation>(x.keep, vs) + Column(x, ForbiddenTwice, n) + Column(x, FactConflict, n)
  {
    hide Count, PlainCode, AddIf, Hit, DuplicateForbiddenFact, FactExpectationConflict;
    if n > 0 {
      var current, facts := x.c.manifest.expectations.currentFacts, x.c.manifest.expectations.forbiddenFacts;
      var before := AfterForbiddenFacts(x.w, vs, current, facts[..n - 1]);
      ForbiddenCount(x, vs, n - 1);
      assert facts[..n][..n - 1] == facts[..n - 1];
      ForbiddenTwiceHit(x, before, n - 1);
      var again := facts[n - 1] in facts[..n - 1];
      FactConflictHit(x, AddIf(before, again, DuplicateForbiddenFact(x.w, facts[n - 1])), n - 1);
    }
  }

  // ----- The whole report -----

  lemma NoEventsHit(x: View, vs: seq<Finding>)
    ensures Count<Violation>(x.keep, AddIf(vs, x.c.events == [], EventsRequired()))
            == Count<Violation>(x.keep, vs) + Hit(x, NoEvents, 0)
  {
    hide Count, PlainCode, AddIf;
    AddCounts(x.keep, vs, x.c.events == [], EventsRequired());
  }

  function ManifestSum(x: View): nat {
    HeaderSum(x) + Column(x, WrongLine, |x.c.manifest.continuityLines|) + ListsSum(x) + TaskSum(x)
  }

  function FactsSum(x: View): nat {
    var e := x.c.manifest.expectations;
    Column(x, CurrentTwice, |e.currentFacts|) + Column(x, ForbiddenTwice, |e.forbiddenFacts|)
    + Column(x, FactConflict, |e.forbiddenFacts|)
  }

  function Total(x: View): nat {
    ManifestSum(x) + SourceColumns(x, |x.c.manifest.sources|) + Hit(x, NoEvents, 0) + EventColumns(x, |x.c.events|)
    + FactsSum(x)
  }

  lemma ManifestCount(x: View)
    ensures Count<Violation>(x.keep, AfterManifest(x.w, x.c.manifest)) == ManifestSum(x)
  {
    hide Count, PlainCode, AfterHeader, AfterLines, AfterLists, AfterTask, Hit, Column;
    var m := x.c.manifest;
    HeaderCounts(x);
    assert m.continuityLines[..|m.continuityLines|] == m.continuityLines;
    LinesCount(x, AfterHeader(x.w, m), |m.continuityLines|);
    ListsCount(x, AfterLines(x.w, AfterHeader(x.w, m), m.continuityLines));
    TaskCount(x, AfterLists(AfterLines(x.w, AfterHeader(x.w, m), m.continuityLines), m));
  }

  lemma FactsCount(x: View, vs: seq<Finding>)
    ensures Count<Violation>(x.keep, AfterFacts(x.w, vs, x.c.manifest.expectations))
            == Count<Violation>(x.keep, vs) + FactsSum(x)
  {
    hide Count, PlainCode, AfterCurrentFacts, AfterForbiddenFacts, Hit, Column;
    var e := x.c.manifest.expectations;
    assert e.currentFacts[..|e.currentFacts|] == e.currentFacts;
    assert e.forbiddenFacts[..|e.forbiddenFacts|] == e.forbiddenFacts;
    CurrentCount(x, vs, |e.currentFacts|);
    ForbiddenCount(x, AfterCurrentFacts(x.w, vs, e.currentFacts), |e.forbiddenFacts|);
  }

  lemma AddedCount(x: View)
    ensures Count<Violation>(x.keep, Added(x.w, x.files, x.c)) == Total(x)
  {
    hide Count, PlainCode, AfterManifest, AfterSources, AfterEvents, AfterFacts, SourceIDs, AddIf, EventsRequired, Hit,
      Column, ManifestSum, SourceColumns, EventColumns, FactsSum;
    var sources, events := x.c.manifest.sources, x.c.events;
    assert sources[..|sources|] == sources && events[..|events|] == events;
    ManifestCount(x);
    var v1 := AfterManifest(x.w, x.c.manifest);
    SourcesCount(x, v1, |sources|);
    var v2 := AfterSources(x.w, x.files, v1, sources);
    NoEventsHit(x, v2);
    var v3 := AddIf(v2, events == [], EventsRequired());
    EventsCount(x, v3, |events|);
    FactsCount(x, AfterEvents(x.w, v3, SourceIDs(sources), events));
  }

  // ----- One code -----

  /** The codes tell the checks apart. */
  function CheckOf(code: string): Check {
    if |code| == 11 then NoID
    else if |code| == 14 then NoTitle
    else if |code| == 15 then NoEvents
    else if |code| == 16 then if code[0] == 's' then NoSources else NoAnchors
    else if |code| == 17 then EventNoID
    else if |code| == 18 then
      if code[0] == 'p' then NoPressures else if code[0] == 's' then SourceNoID
      else if code[0] == 'f' then FixtureUnread else EventTwice
    else if |code| == 19 then if code[0] == 'v' then WrongVersion else SourceTwice
    else if |code| == 20 then
      if code[6] == 'r' then NoPrompt else if code[6] == '_' then SourceNoKind
      else if code[6] == 'e' then FixtureOutside
      else if code[6] == 's' then EventNoSource else EventNoActor
    else if |code| == 21 then if code[0] == 's' then SourceNotAllowed else FixtureChanged
    else if |code| == 22 then
      if code[8] == '_' then WrongLevel else if code[8] == 'f' then NoCurrent
      else if code[8] == 'q' then EventOutOfOrder
      else if code[8] == 'a' then EventNoChannel else if code[8] == 'n' then EventNoContent else CurrentTwice
    else if |code| == 23 then WrongLine
    else if |code| == 24 then
      if code[0] == 'f' then NoForbidden else if code[0] == 'e' then NoAction else ForbiddenTwice
    else if |code| == 25 then if code[0] == 'c' then NoLines else FactConflict
    else if |code| == 29 && code[0] == 'd' then NoChecks
    else SourceNotAnonymous
  }

  predicate OfHeader(check: Check) {
    check.WrongVersion? || check.NoID? || check.NoTitle? || check.WrongLevel? || check.NoLines? || check.WrongLine?
  }

  lemma HeaderCodes(check: Check)
    requires OfHeader(check)
    ensures CheckOf(CodeName(check)) == check
  {
  }

  lemma OtherCodes(check: Check)
    requires !OfHeader(check) && !OfSource(check) && !OfEvent(check) && !OfFacts(check)
    ensures CheckOf(CodeName(check)) == check
  {
  }

  predicate OfFixture(check: Check) { check.FixtureOutside? || check.FixtureUnread? || check.FixtureChanged? }

  predicate OfEventPlace(check: Check) {
    check.EventNoID? || check.EventTwice? || check.EventOutOfOrder? || check.EventNoSource?
  }

  lemma SourceCodes(check: Check)
    requires OfSource(check) && !OfFixture(check)
    ensures CheckOf(CodeName(check)) == check
  {
  }

  lemma FixtureCodes(check: Check)
    requires OfFixture(check)
    ensures CheckOf(CodeName(check)) == check
  {
  }

  lemma EventPlaceCodes(check: Check)
    requires OfEventPlace(check)
    ensures CheckOf(CodeName(check)) == check
  {
  }

  lemma EventTextCodes(check: Check)
    requires OfEvent(check) && !OfEventPlace(check)
    ensures CheckOf(CodeName(check)) == check
  {
  }

  lemma FactCodes(check: Check)
    requires OfFacts(check)
    ensures CheckOf(CodeName(check)) == check
  {
  }

  lemma CodesTell(check: Check)
    ensures CheckOf(CodeName(check)) == check
  {
    hide CodeName, CheckOf;
    if OfHeader(check) {
      HeaderCodes(check);
    } else if OfFixture(check) {
      FixtureCodes(check);
    } else if OfSource(check) {
      SourceCodes(check);
    } else if OfEventPlace(check) {
      EventPlaceCodes(check);
    } else if OfEvent(check) {
      EventTextCodes(check);
    } else if OfFacts(check) {
      FactCodes(check);
    } else {
      OtherCodes(check);
    }
  }

  function Says(check: Check, says: string -> bool): Violation -> bool {
    (v: Violation) => v.code == CodeName(check) && says(v.message)
  }

  lemma OtherHit(x: View, check: Check, says: string -> bool, other: Check, i: nat)
    requires x.keep == Says(check, says) && other != check
    ensures Hit(x, other, i) == 0
  {
    hide CodeName, CheckOf, Wrong, Message;
    CodesTell(check);
    CodesTell(other);
  }

  lemma {:induction false} OtherColumn(x: View, check: Check, says: string -> bool, other: Check, n: nat)
    requires x.keep == Says(check, says) && other != check
    ensures Column(x, other, n) == 0
  {
    hide Hit;
    if n > 0 {
      OtherColumn(x, check, says, other, n - 1);
      OtherHit(x, check, says, other, n - 1);
    }
  }

  /** Nothing but the check is counted. */
  ghost predicate Only(x: View, check: Check) {
    && (forall other: Check, i: nat :: other != check ==> Hit(x, other, i) == 0)
    && (forall other: Check, n: nat :: other != check ==> Column(x, other, n) == 0)
  }

  lemma ManifestIsColumn(x: View, check: Check)
    requires Only(x, check)
    ensures ManifestSum(x) + Hit(x, NoEvents, 0)
            == if OfSource(check) || OfEvent(check) || OfFacts(check) then 0 else Column(x, check, Places(x.c, check))
  {
    hide Hit, Column;
    OnePlace(x, check);
  }

  lemma SourcesAreColumn(x: View, check: Check)
    requires Only(x, check)
    ensures SourceColumns(x, |x.c.manifest.sources|)
            == if OfSource(check) then Column(x, check, Places(x.c, check)) else 0
  {
    hide Hit, Column;
  }

  lemma EventsAreColumn(x: View, check: Check)
    requires Only(x, check)
    ensures EventColumns(x, |x.c.events|) == if OfEvent(check) then Column(x, check, Places(x.c, check)) else 0
  {
    hide Hit, Column;
  }

  lemma FactsAreColumn(x: View, check: Check)
    requires Only(x, check)
    ensures FactsSum(x) == if OfFacts(check) then Column(x, check, Places(x.c, check)) else 0
  {
    hide Hit, Column;
  }

  lemma OnlyThis(x: View, check: Check, says: string -> bool)
    requires x.keep == Says(check, says)
    ensures Only(x, check)
  {
    hide Hit, Column, Says;
    forall other: Check, i: nat | other != check ensures Hit(x, other, i) == 0 {
      OtherHit(x, check, says, other, i);
    }
    forall other: Check, n: nat | other != check ensures Column(x, other, n) == 0 {
      OtherColumn(x, check, says, other, n);
    }
  }

  lemma TotalIsColumn(x: View, check: Check, says: string -> bool)
    requires x.keep == Says(check, says)
    ensures Total(x) == Column(x, check, Places(x.c, check))
  {
    hide Hit, Column, Says, ManifestSum, SourceColumns, EventColumns, FactsSum, Places, Only;
    OnlyThis(x, check, says);
    ManifestIsColumn(x, check);
    SourcesAreColumn(x, check);
    EventsAreColumn(x, check);
    FactsAreColumn(x, check);
  }

  lemma OnePlace(x: View, check: Check)
    ensures Column(x, check, 1) == Hit(x, check, 0)
  {
    hide Hit;
    assert Column(x, check, 0) == 0;
  }

  lemma HitIsFailing(x: View, check: Check, says: string -> bool, i: nat)
    requires x.keep == Says(check, says)
    ensures Hit(x, check, i)
            == if Wrong(x.w, x.files, x.c, check, i) && says(Message(x.w, x.files, x.c, check, i)) then 1 else 0
  {
    hide Wrong, Message, CodeName;
  }

  function Below(fails: nat -> bool, n: nat): set<nat> { set i: nat | i < n && fails(i) }

  lemma BelowStep(fails: nat -> bool, n: nat)
    ensures |Below(fails, n + 1)| == |Below(fails, n)| + if fails(n) then 1 else 0
  {
    assert Below(fails, n + 1) == Below(fails, n) + if fails(n) then {n} else {};
  }

  lemma {:induction false} ColumnIsBelow(x: View, check: Check, fails: nat -> bool, n: nat)
    requires forall i: nat :: Hit(x, check, i) == if fails(i) then 1 else 0
    ensures Column(x, check, n) == |Below(fails, n)|
  {
    hide Hit;
    if n == 0 {
      assert Below(fails, 0) == {};
    } else {
      hide Below;
      ColumnIsBelow(x, check, fails, n - 1);
      BelowStep(fails, n - 1);
    }
  }

  lemma FailingPlaces(x: View, check: Check, says: string -> bool, n: nat)
    requires x.keep == Says(check, says)
    ensures Column(x, check, n)
            == |set i: nat | i < n && Wrong(x.w, x.files, x.c, check, i) && says(Message(x.w, x.files, x.c, check, i))|
  {
    hide Wrong, Message, Hit, Says, Column;
    var fails := (i: nat) => Wrong(x.w, x.files, x.c, check, i) && says(Message(x.w, x.files, x.c, check, i));
    forall i: nat ensures Hit(x, check, i) == if fails(i) then 1 else 0 { HitIsFailing(x, check, says, i); }
    ColumnIsBelow(x, check, fails, n);
    assert Below(fails, n)
      == set i: nat | i < n && Wrong(x.w, x.files, x.c, check, i) && says(Message(x.w, x.files, x.c, check, i));
  }

  /** Check by check, for every case: the report has the check's code once for each place where the check fails, with
      the message about that place; whatever is asked of the messages, as many have it as there are such places. */
  lemma ReportHolds(w: World, files: Files, c: Case, check: Check, says: string -> bool)
    ensures Count<Violation>(Says(check, says), Report(w, files, c))
            == |set i: nat |
                 i < Places(c, check) && Wrong(w, files, c, check, i) && says(Message(w, files, c, check, i))|
  {
    hide Count, SortBy, Added, Total, Column, Wrong, Message, Places, CodeName, ViolationLeq;
    var x := View(w, files, c, Says(check, says));
    CountPermute<Violation>(x.keep, Report(w, files, c), Added(w, files, c));
    AddedCount(x);
    TotalIsColumn(x, check, says);
    FailingPlaces(x, check, says, Places(c, check));
  }

  function Unknown(): Violation -> bool { (v: Violation) => v.code !in set check: Check :: CodeName(check) }

  lemma {:induction false} UnknownColumn(x: View, check: Check, n: nat)
    requires x.keep == Unknown()
    ensures Column(x, check, n) == 0 && Hit(x, check, n) == 0
  {
    hide Wrong, Message, CodeName;
    if n > 0 { UnknownColumn(x, check, n - 1); }
  }

  /** No report has any other code. */
  lemma NothingElse(w: World, files: Files, c: Case, v: Violation)
    requires v in Report(w, files, c)
    ensures exists check :: v.code == CodeName(check)
  {
    hide Count, SortBy, Added, Column, Hit, CodeName, ViolationLeq;
    var x := View(w, files, c, Unknown());
    CountPermute<Violation>(x.keep, Report(w, files, c), Added(w, files, c));
    AddedCount(x);
    forall check: Check, n: nat ensures Column(x, check, n) == 0 && Hit(x, check, n) == 0 {
      UnknownColumn(x, check, n);
    }
    NoneCounted(x.keep, Report(w, files, c), v);
  }

  lemma {:induction false} NoneCounted(keep: Violation -> bool, vs: seq<Violation>, v: Violation)
    requires v in vs && Count<Violation>(keep, vs) == 0
    ensures !keep(v)
  {
    if v != vs[0] { NoneCounted(keep, vs[1..], v); }
  }
}
