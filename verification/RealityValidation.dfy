/** Validation of a loaded case as the program runs it, and what an empty report means. */
module RealityValidation {
  import opened Common
  import opened RealityCase

  // ----- The checks -----

  method ValidateFixture(w: World, files: Files, vs: seq<Finding>, source: SourceRef) returns (violations: seq<Finding>)
    ensures violations == AfterFixture(w, files, vs, source)
  {
    hide PlainCode, FixturePathUnclean, FixturePathEscapes, FixtureUnreadable, FixtureHashMismatch;
    var clean := w.clean(source.fixturePath);
    if source.fixturePath == "" || source.fixturePath[0] == '/' || clean == "." || clean != source.fixturePath
       || clean == ".." || "../" <= clean {
      return vs + [FixturePathUnclean(w, source.id)];
    }
    if !Within(files, clean) {
      return vs + [FixturePathEscapes(w, source.id)];
    }
    var data := Read(files, clean);
    if data.None? {
      return vs + [FixtureUnreadable(w, source.id, clean)];
    }
    var actual := w.hash(data.value);
    if source.sha256 != actual {
      return vs + [FixtureHashMismatch(w, source.id, actual, source.sha256)];
    }
    return vs;
  }

  /** One turn of the loop over the sources. */
  method ValidateSource(w: World, files: Files, vs: seq<Finding>, known: set<string>, i: nat, source: SourceRef)
    returns (violations: seq<Finding>, sourceIDs: set<string>)
    ensures violations == AfterSource(w, files, vs, known, i, source)
    ensures sourceIDs == known + if Blank(source.id) then {} else {source.id}
  {
    hide PlainCode, Blank, BadFixturePath, AfterFixture, Int, SourceIDRequired, DuplicateSourceID,
         SourceKindRequired, SourceNotAuthorized, SourceAnonymizationRequired;
    violations, sourceIDs := vs, known;
    if Blank(source.id) {
      violations := violations + [SourceIDRequired(i)];
    } else if source.id in sourceIDs {
      violations := violations + [DuplicateSourceID(w, source.id)];
    } else {
      sourceIDs := sourceIDs + {source.id};
    }
    if Blank(source.kind) {
      violations := violations + [SourceKindRequired(w, source.id)];
    }
    if !source.authorized {
      violations := violations + [SourceNotAuthorized(w, source.id)];
    }
    if Blank(source.anonymization) {
      violations := violations + [SourceAnonymizationRequired(w, source.id)];
    }
    violations := ValidateFixture(w, files, violations, source);
  }

  method ValidateSources(w: World, files: Files, vs: seq<Finding>, sources: seq<SourceRef>)
    returns (violations: seq<Finding>, sourceIDs: set<string>)
    ensures violations == AfterSources(w, files, vs, sources)
    ensures sourceIDs == SourceIDs(sources)
  {
    hide AfterSource, Blank, SourceIDs;
    NoIDs();
    violations, sourceIDs := vs, {};
    for i := 0 to |sources|
      invariant violations == AfterSources(w, files, vs, sources[..i])
      invariant sourceIDs == SourceIDs(sources[..i])
    {
      assert sources[..i + 1][..i] == sources[..i];
      GrowSourceIDs(sources, i);
      violations, sourceIDs := ValidateSource(w, files, violations, sourceIDs, i, sources[i]);
    }
    assert sources[..|sources|] == sources;
  }

  lemma NoIDs()
    ensures SourceIDs([]) == {} && EventIDs([]) == {}
  {
  }

  lemma GrowSourceIDs(sources: seq<SourceRef>, i: nat)
    requires i < |sources|
    ensures SourceIDs(sources[..i + 1])
            == SourceIDs(sources[..i]) + if Blank(sources[i].id) then {} else {sources[i].id}
  {
    hide Blank;
    assert sources[..i + 1] == sources[..i] + [sources[i]];
  }

  lemma GrowEventIDs(events: seq<Event>, i: nat)
    requires i < |events|
    ensures EventIDs(events[..i + 1]) == EventIDs(events[..i]) + if Blank(events[i].id) then {} else {events[i].id}
  {
    hide Blank;
    assert events[..i + 1] == events[..i] + [events[i]];
  }

  method ValidateEventTexts(w: World, vs: seq<Finding>, event: Event) returns (violations: seq<Finding>)
    ensures violations == AfterEventTexts(w, vs, event)
    ensures violations == [] <==> vs == [] && !Blank(event.actor) && !Blank(event.channel) && !Blank(event.content)
  {
    hide PlainCode, Blank, EventActorRequired, EventChannelRequired, EventContentRequired;
    violations := vs;
    if Blank(event.actor) {
      violations := violations + [EventActorRequired(w, event.id)];
    }
    if Blank(event.channel) {
      violations := violations + [EventChannelRequired(w, event.id)];
    }
    if Blank(event.content) {
      violations := violations + [EventContentRequired(w, event.id)];
    }
  }

  /** One turn of the loop over the events. */
  method ValidateEvent(w: World, vs: seq<Finding>, sourceIDs: set<string>, known: set<string>, i: nat, event: Event)
    returns (violations: seq<Finding>, eventIDs: set<string>)
    ensures violations == AfterEvent(w, vs, sourceIDs, known, i, event)
    ensures eventIDs == known + if Blank(event.id) then {} else {event.id}
  {
    hide PlainCode, Blank, Int, AfterEventTexts, EventIDRequired, DuplicateEventID, EventSequenceInvalid,
         EventSourceUnknown;
    violations, eventIDs := vs, known;
    if Blank(event.id) {
      violations := violations + [EventIDRequired(event.sequence)];
    } else if event.id in eventIDs {
      violations := violations + [DuplicateEventID(w, event.id)];
    } else {
      eventIDs := eventIDs + {event.id};
    }
    if event.sequence != i + 1 {
      violations := violations + [EventSequenceInvalid(w, event.id, Int(event.sequence), Int(i + 1))];
    }
    if event.sourceID !in sourceIDs {
      violations := violations + [EventSourceUnknown(w, event.id, event.sourceID)];
    }
    violations := ValidateEventTexts(w, violations, event);
  }

  method ValidateEvents(w: World, vs: seq<Finding>, sourceIDs: set<string>, events: seq<Event>)
    returns (violations: seq<Finding>)
    ensures violations == AfterEvents(w, vs, sourceIDs, events)
  {
    hide AfterEvent, Blank, EventIDs;
    violations := vs;
    NoIDs();
    var eventIDs: set<string> := {};
    for i := 0 to |events|
      invariant violations == AfterEvents(w, vs, sourceIDs, events[..i])
      invariant eventIDs == EventIDs(events[..i])
    {
      assert events[..i + 1][..i] == events[..i];
      GrowEventIDs(events, i);
      violations, eventIDs := ValidateEvent(w, violations, sourceIDs, eventIDs, i, events[i]);
    }
    assert events[..|events|] == events;
  }

  method ValidateCurrentFacts(w: World, vs: seq<Finding>, facts: seq<string>)
    returns (violations: seq<Finding>, current: set<string>)
    ensures violations == AfterCurrentFacts(w, vs, facts)
    ensures forall f :: f in current <==> f in facts
  {
    hide PlainCode, DuplicateCurrentFact;
    violations, current := vs, {};
    for i := 0 to |facts|
      invariant violations == AfterCurrentFacts(w, vs, facts[..i])
      invariant forall f :: f in current <==> f in facts[..i]
    {
      assert facts[..i + 1] == facts[..i] + [facts[i]];
      assert facts[..i + 1][..i] == facts[..i];
      if facts[i] in current {
        violations := violations + [DuplicateCurrentFact(w, facts[i])];
      }
      current := current + {facts[i]};
    }
    assert facts[..|facts|] == facts;
  }

  method ValidateForbiddenFacts(w: World, vs: seq<Finding>, current: set<string>, facts: seq<string>,
    ghost currentFacts: seq<string>)
    returns (violations: seq<Finding>)
    requires forall f :: f in current <==> f in currentFacts
    ensures violations == AfterForbiddenFacts(w, vs, currentFacts, facts)
  {
    hide PlainCode, DuplicateForbiddenFact, FactExpectationConflict;
    violations := vs;
    var forbidden: set<string> := {};
    for i := 0 to |facts|
      invariant violations == AfterForbiddenFacts(w, vs, currentFacts, facts[..i])
      invariant forall f :: f in forbidden <==> f in facts[..i]
    {
      assert facts[..i + 1] == facts[..i] + [facts[i]];
      assert facts[..i + 1][..i] == facts[..i];
      if facts[i] in forbidden {
        violations := violations + [DuplicateForbiddenFact(w, facts[i])];
      }
      forbidden := forbidden + {facts[i]};
      if facts[i] in current {
        violations := violations + [FactExpectationConflict(w, facts[i])];
      }
    }
    assert facts[..|facts|] == facts;
  }

  method ValidateFactSets(w: World, vs: seq<Finding>, x: Expectations) returns (violations: seq<Finding>)
    ensures violations == AfterFacts(w, vs, x)
  {
    var current;
    violations, current := ValidateCurrentFacts(w, vs, x.currentFacts);
    violations := ValidateForbiddenFacts(w, violations, current, x.forbiddenFacts, x.currentFacts);
  }

  method ValidateManifest(w: World, m: Manifest) returns (violations: seq<Finding>)
    ensures violations == AfterManifest(w, m)
    ensures violations == [] <==> GoodHeader(m)
  {
    hide Blank, AfterHeader, AfterLines, AfterLists, AfterTask, GoodHeader;
    ManifestClean(w, m);
    violations := ValidateHeader(w, m);
    violations := ValidateLines(w, violations, m.continuityLines);
    violations := ValidateLists(violations, m);
    violations := ValidateTask(violations, m);
  }

  method ValidateHeader(w: World, m: Manifest) returns (violations: seq<Finding>)
    ensures violations == AfterHeader(w, m)
    ensures violations == [] <==>
              && m.version == 1 && !Blank(m.id) && !Blank(m.title) && m.continuityLines != []
              && (m.evidenceLevel == "public" || m.evidenceLevel == "withheld_local")
  {
    hide PlainCode, Blank, VersionUnsupported, IDRequired, TitleRequired, EvidenceLevelInvalid,
         ContinuityLinesRequired;
    violations := [];
    if m.version != 1 { violations := violations + [VersionUnsupported()]; }
    if Blank(m.id) { violations := violations + [IDRequired()]; }
    if Blank(m.title) { violations := violations + [TitleRequired()]; }
    if m.evidenceLevel != "public" && m.evidenceLevel != "withheld_local" {
      violations := violations + [EvidenceLevelInvalid()];
    }
    if |m.continuityLines| == 0 {
      violations := violations + [ContinuityLinesRequired()];
    }
  }

  method ValidateLines(w: World, vs: seq<Finding>, lines: seq<string>) returns (violations: seq<Finding>)
    ensures violations == AfterLines(w, vs, lines)
    ensures violations == [] <==> vs == [] && forall k :: 0 <= k < |lines| ==> ValidContinuityLine(lines[k])
  {
    hide PlainCode, ValidContinuityLine, ContinuityLineInvalid;
    LinesClean(w, vs, lines);
    violations := vs;
    for i := 0 to |lines|
      invariant violations == AfterLines(w, vs, lines[..i])
    {
      assert lines[..i + 1][..i] == lines[..i];
      if !ValidContinuityLine(lines[i]) {
        violations := violations + [ContinuityLineInvalid(w, lines[i])];
      }
    }
    assert lines[..|lines|] == lines;
  }

  method ValidateLists(vs: seq<Finding>, m: Manifest) returns (violations: seq<Finding>)
    ensures violations == AfterLists(vs, m)
    ensures violations == [] <==>
              && vs == [] && m.pressures != [] && m.sources != [] && m.anchors != []
              && m.expectations.currentFacts != [] && m.expectations.forbiddenFacts != []
  {
    hide PlainCode, PressuresRequired, SourcesRequired, AnchorsRequired, CurrentFactsRequired, ForbiddenFactsRequired;
    violations := vs;
    if |m.pressures| == 0 { violations := violations + [PressuresRequired()]; }
    if |m.sources| == 0 { violations := violations + [SourcesRequired()]; }
    if |m.anchors| == 0 { violations := violations + [AnchorsRequired()]; }
    if |m.expectations.currentFacts| == 0 {
      violations := violations + [CurrentFactsRequired()];
    }
    if |m.expectations.forbiddenFacts| == 0 {
      violations := violations + [ForbiddenFactsRequired()];
    }
  }

  method ValidateTask(vs: seq<Finding>, m: Manifest) returns (violations: seq<Finding>)
    ensures violations == AfterTask(vs, m)
    ensures violations == [] <==>
              && vs == [] && !Blank(m.expectations.expectedAction) && !Blank(m.task.prompt)
              && m.task.deterministicChecks != []
  {
    hide PlainCode, Blank, ExpectedActionRequired, TaskPromptRequired, DeterministicChecksRequired;
    violations := vs;
    if Blank(m.expectations.expectedAction) {
      violations := violations + [ExpectedActionRequired()];
    }
    if Blank(m.task.prompt) { violations := violations + [TaskPromptRequired()]; }
    if |m.task.deterministicChecks| == 0 {
      violations := violations + [DeterministicChecksRequired()];
    }
  }

  /** The report is the sorted list of everything added, and it is empty exactly for well-formed cases. */
  method ValidateCase(w: World, files: Files, c: Case) returns (violations: seq<Violation>)
    ensures SortOf<Violation>(ViolationLeq, Added(w, files, c), violations)
    ensures violations == Report(w, files, c)
    ensures violations == [] <==> WellFormed(w, files, c)
  {
    hide PlainCode, AfterManifest, AfterSources, AfterEvents, AfterFacts, SortBy, WellFormed, ViolationLeq,
         EventsRequired, Blank, Int;
    var added := ValidateManifest(w, c.manifest);
    var sourceIDs;
    added, sourceIDs := ValidateSources(w, files, added, c.manifest.sources);
    if |c.events| == 0 {
      added := added + [EventsRequired()];
    }
    added := ValidateEvents(w, added, sourceIDs, c.events);
    added := ValidateFactSets(w, added, c.manifest.expectations);
    assert added == Added(w, files, c);
    ViolationOrder();
    SortByIsSort<Violation>(ViolationLeq, added);
    NothingAdded(w, files, c);
    violations := SortBy<Violation>(ViolationLeq, added);
  }

  function Report(w: World, files: Files, c: Case): seq<Violation> {
    SortBy<Violation>(ViolationLeq, Added(w, files, c))
  }

  // ----- Well-formed cases -----

  predicate GoodHeader(m: Manifest) {
    && m.version == 1 && !Blank(m.id) && !Blank(m.title)
    && (m.evidenceLevel == "public" || m.evidenceLevel == "withheld_local")
    && m.continuityLines != []
       && (forall k :: 0 <= k < |m.continuityLines| ==> ValidContinuityLine(m.continuityLines[k]))
    && m.pressures != [] && m.sources != [] && m.anchors != []
    && m.expectations.currentFacts != [] && m.expectations.forbiddenFacts != []
    && !Blank(m.expectations.expectedAction) && !Blank(m.task.prompt) && m.task.deterministicChecks != []
  }

  /** The fixture is a file of the case directory with the declared digest. */
  predicate GoodFixture(w: World, files: Files, s: SourceRef) {
    && !BadFixturePath(w, s.fixturePath)
    && s.fixturePath in files && files[s.fixturePath].File?
    && w.hash(files[s.fixturePath].data) == s.sha256
  }

  predicate GoodSource(w: World, files: Files, s: SourceRef) {
    !Blank(s.id) && !Blank(s.kind) && s.authorized && !Blank(s.anonymization) && GoodFixture(w, files, s)
  }

  predicate GoodSources(w: World, files: Files, sources: seq<SourceRef>) {
    && (forall i :: 0 <= i < |sources| ==> GoodSource(w, files, sources[i]))
    && (forall i, j :: 0 <= i < j < |sources| ==> sources[i].id != sources[j].id)
  }

  predicate Declared(sources: seq<SourceRef>, id: string) {
    exists k :: 0 <= k < |sources| && sources[k].id == id && !Blank(id)
  }

  predicate GoodEvent(sources: seq<SourceRef>, i: nat, e: Event) {
    && !Blank(e.id) && e.sequence == i + 1 && Declared(sources, e.sourceID)
    && !Blank(e.actor) && !Blank(e.channel) && !Blank(e.content)
  }

  predicate GoodEvents(sources: seq<SourceRef>, events: seq<Event>) {
    && (forall i :: 0 <= i < |events| ==> GoodEvent(sources, i, events[i]))
    && (forall i, j :: 0 <= i < j < |events| ==> events[i].id != events[j].id)
  }

  predicate GoodFacts(x: Expectations) {
    && Distinct(x.currentFacts) && Distinct(x.forbiddenFacts)
    && forall f :: f in x.forbiddenFacts ==> f !in x.currentFacts
  }

  predicate WellFormed(w: World, files: Files, c: Case) {
    && GoodHeader(c.manifest)
    && GoodSources(w, files, c.manifest.sources)
    && c.events != [] && GoodEvents(c.manifest.sources, c.events)
    && GoodFacts(c.manifest.expectations)
  }

  lemma {:induction false} LinesClean(w: World, vs: seq<Finding>, lines: seq<string>)
    ensures AfterLines(w, vs, lines) == []
            <==> vs == [] && forall k :: 0 <= k < |lines| ==> ValidContinuityLine(lines[k])
  {
    hide ValidContinuityLine, ContinuityLineInvalid;
    if lines != [] {
      var n := |lines| - 1;
      LinesClean(w, vs, lines[..n]);
      assert forall k :: 0 <= k < n ==> lines[..n][k] == lines[k];
    }
  }

  lemma ManifestClean(w: World, m: Manifest)
    ensures AfterManifest(w, m) == [] <==> GoodHeader(m)
  {
    hide Blank, ValidContinuityLine, AfterLines, VersionUnsupported, IDRequired, TitleRequired, EvidenceLevelInvalid,
      ContinuityLinesRequired,
         PressuresRequired, SourcesRequired, AnchorsRequired, CurrentFactsRequired, ForbiddenFactsRequired,
         ExpectedActionRequired, TaskPromptRequired, DeterministicChecksRequired;
    LinesClean(w, AfterHeader(w, m), m.continuityLines);
  }

  lemma FixtureClean(w: World, files: Files, vs: seq<Finding>, s: SourceRef)
    ensures AfterFixture(w, files, vs, s) == [] <==> vs == [] && GoodFixture(w, files, s)
  {
    hide BadFixturePath, FixturePathUnclean, FixturePathEscapes, FixtureUnreadable, FixtureHashMismatch;
  }

  lemma SourceClean(w: World, files: Files, vs: seq<Finding>, known: set<string>, i: nat, s: SourceRef)
    ensures AfterSource(w, files, vs, known, i, s) == [] <==> vs == [] && s.id !in known && GoodSource(w, files, s)
  {
    hide Blank, GoodFixture, AfterFixture, SourceIDRequired, DuplicateSourceID, SourceKindRequired,
         SourceNotAuthorized, SourceAnonymizationRequired;
    FixtureClean(w, files, AfterSourceFields(w, vs, known, i, s), s);
  }

  lemma GoodSourcesStep(w: World, files: Files, sources: seq<SourceRef>, n: nat)
    requires n == |sources| - 1
    ensures GoodSources(w, files, sources)
            <==> GoodSources(w, files, sources[..n])
                 && GoodSource(w, files, sources[n])
                 && !Declared(sources[..n], sources[n].id)
  {
    hide Blank, GoodFixture;
    var before := sources[..n];
    assert forall k :: 0 <= k < n ==> before[k] == sources[k];
    if GoodSources(w, files, before) && GoodSource(w, files, sources[n]) && !Declared(before, sources[n].id) {
      forall i, j | 0 <= i < j < |sources| ensures sources[i].id != sources[j].id {
        if j == n { assert before[i].id != sources[n].id; }
      }
    }
  }

  lemma {:induction false} SourcesClean(w: World, files: Files, vs: seq<Finding>, sources: seq<SourceRef>)
    ensures AfterSources(w, files, vs, sources) == [] <==> vs == [] && GoodSources(w, files, sources)
  {
    if sources != [] {
      hide Blank, GoodSource, AfterSource, GoodSources, Declared, SourceIDs;
      var n := |sources| - 1;
      SourcesClean(w, files, vs, sources[..n]);
      KnownSources(sources[..n], sources[n].id);
      SourceClean(w, files, AfterSources(w, files, vs, sources[..n]), SourceIDs(sources[..n]), n, sources[n]);
      GoodSourcesStep(w, files, sources, n);
    }
  }

  lemma KnownSources(sources: seq<SourceRef>, id: string)
    ensures id in SourceIDs(sources) <==> Declared(sources, id)
  {
    hide Blank;
    if k :| 0 <= k < |sources| && sources[k].id == id && !Blank(id) { assert sources[k] in sources; }
    if id in SourceIDs(sources) {
      var s :| s in sources && s.id == id && !Blank(s.id);
      var k :| 0 <= k < |sources| && sources[k] == s;
    }
  }

  lemma KnownEvents(events: seq<Event>, id: string)
    ensures id in EventIDs(events) <==> !Blank(id) && exists k :: 0 <= k < |events| && events[k].id == id
  {
    hide Blank;
    if !Blank(id) {
      if k :| 0 <= k < |events| && events[k].id == id { assert events[k] in events; }
    }
    if id in EventIDs(events) {
      var e :| e in events && e.id == id && !Blank(e.id);
      var k :| 0 <= k < |events| && events[k] == e;
    }
  }

  lemma EventClean(w: World, vs: seq<Finding>, sources: seq<SourceRef>, known: set<string>, i: nat, e: Event)
    ensures AfterEvent(w, vs, SourceIDs(sources), known, i, e) == []
            <==> vs == [] && e.id !in known && GoodEvent(sources, i, e)
  {
    hide Blank, SourceIDs, Declared, EventIDRequired, DuplicateEventID, EventSequenceInvalid,
         EventSourceUnknown, EventActorRequired, EventChannelRequired, EventContentRequired;
    KnownSources(sources, e.sourceID);
  }

  lemma GoodEventsStep(sources: seq<SourceRef>, events: seq<Event>, n: nat)
    requires n == |events| - 1
    ensures GoodEvents(sources, events)
            <==> GoodEvents(sources, events[..n])
                 && GoodEvent(sources, n, events[n])
                 && events[n].id !in EventIDs(events[..n])
  {
    hide Blank, Declared, EventIDs;
    var before := events[..n];
    KnownEvents(before, events[n].id);
    assert forall k :: 0 <= k < n ==> before[k] == events[k];
    if GoodEvents(sources, before) && GoodEvent(sources, n, events[n]) && events[n].id !in EventIDs(before) {
      forall i, j | 0 <= i < j < |events| ensures events[i].id != events[j].id {
        if j == n { assert before[i].id != events[n].id; }
      }
    }
  }

  lemma {:induction false} EventsClean(w: World, vs: seq<Finding>, sources: seq<SourceRef>, events: seq<Event>)
    ensures AfterEvents(w, vs, SourceIDs(sources), events) == [] <==> vs == [] && GoodEvents(sources, events)
  {
    if events != [] {
      hide GoodEvent, AfterEvent, GoodEvents, SourceIDs, EventIDs;
      var n := |events| - 1;
      EventsClean(w, vs, sources, events[..n]);
      EventClean(w, AfterEvents(w, vs, SourceIDs(sources), events[..n]), sources, EventIDs(events[..n]), n, events[n]);
      GoodEventsStep(sources, events, n);
    }
  }

  lemma {:induction false} CurrentClean(w: World, vs: seq<Finding>, facts: seq<string>)
    ensures AfterCurrentFacts(w, vs, facts) == [] <==> vs == [] && Distinct(facts)
  {
    hide DuplicateCurrentFact;
    if facts != [] {
      var n := |facts| - 1;
      CurrentClean(w, vs, facts[..n]);
      DistinctStep(facts, n);
    }
  }

  lemma DistinctStep(facts: seq<string>, n: nat)
    requires n == |facts| - 1
    ensures Distinct(facts) <==> Distinct(facts[..n]) && facts[n] !in facts[..n]
  {
    if Distinct(facts) {
      assert forall i, j :: 0 <= i < j < n ==> facts[..n][i] != facts[..n][j];
    }
    if Distinct(facts[..n]) && facts[n] !in facts[..n] {
      forall i, j | 0 <= i < j < |facts| ensures facts[i] != facts[j] {
        assert facts[i] == facts[..n][i];
        if j < n { assert facts[j] == facts[..n][j]; }
      }
    }
  }

  lemma {:induction false} ForbiddenClean(w: World, vs: seq<Finding>, current: seq<string>, facts: seq<string>)
    ensures AfterForbiddenFacts(w, vs, current, facts) == []
            <==> vs == [] && Distinct(facts) && forall f :: f in facts ==> f !in current
  {
    hide Distinct, DuplicateForbiddenFact, FactExpectationConflict;
    if facts != [] {
      var n := |facts| - 1;
      ForbiddenClean(w, vs, current, facts[..n]);
      DistinctStep(facts, n);
      assert facts == facts[..n] + [facts[n]];
    } else {
      assert Distinct(facts) by { DistinctEmpty(); }
    }
  }

  lemma DistinctEmpty()
    ensures Distinct<string>([])
  {
  }

  /** Nothing is added exactly for a well-formed case. */
  lemma NothingAdded(w: World, files: Files, c: Case)
    ensures Added(w, files, c) == [] <==> WellFormed(w, files, c)
  {
    hide GoodHeader, GoodSources, GoodEvents, AfterManifest, AfterSources, AfterEvents, AfterCurrentFacts,
         AfterForbiddenFacts, EventsRequired;
    var m := c.manifest;
    var v1 := AfterManifest(w, m);
    var v2 := AfterSources(w, files, v1, m.sources);
    var v3 := AddIf(v2, c.events == [], EventsRequired());
    var v4 := AfterEvents(w, v3, SourceIDs(m.sources), c.events);
    ManifestClean(w, m);
    SourcesClean(w, files, v1, m.sources);
    EventsClean(w, v3, m.sources, c.events);
    CurrentClean(w, v4, m.expectations.currentFacts);
    ForbiddenClean(w, AfterCurrentFacts(w, v4, m.expectations.currentFacts), m.expectations.currentFacts,
      m.expectations.forbiddenFacts);
  }
}
