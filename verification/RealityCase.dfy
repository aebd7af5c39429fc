/** An evidence case on disk: manifest, events, fixtures, and what validation says about them. */
module RealityCase {
  import opened Common
  import opened Digits
  import opened Text

  type Bytes = seq<bv8>

  datatype SourceRef = SourceRef(
    id: string, kind: string, fixturePath: string, sha256: string, authorized: bool, anonymization: string)

  datatype Expectations = Expectations(currentFacts: seq<string>, forbiddenFacts: seq<string>, expectedAction: string)

  datatype DownstreamTask = DownstreamTask(prompt: string, deterministicChecks: seq<string>)

  datatype Manifest = Manifest(
    version: int, id: string, title: string, evidenceLevel: string, continuityLines: seq<string>,
    pressures: seq<string>, sources: seq<SourceRef>, anchors: seq<string>,
    expectations: Expectations, task: DownstreamTask)

  datatype Event = Event(
    id: string, sequence: int, actor: string, channel: string, sourceID: string, content: string)

  datatype Case = Case(manifest: Manifest, events: seq<Event>)

  datatype Violation = Violation(code: string, message: string)

  /** Codes are lower-case words joined by underscores. */
  predicate PlainCode(code: string) {
    code != "" && forall k :: 0 <= k < |code| ==> code[k] == '_' || 'a' <= code[k] <= 'z'
  }

  type Code = s: string | PlainCode(s) witness "x"

  /** What the checks themselves add; codes read back from an error text are any strings. */
  type Finding = v: Violation | PlainCode(v.code) witness Violation("x", "")

  datatype LockedFile = LockedFile(path: string, sha256: string, bytes: int)

  datatype FixtureLock = FixtureLock(
    version: int, caseID: string, manifestHash: string, eventsHash: string, files: seq<LockedFile>)

  /** A path of the case directory: a file inside it, a link to a file elsewhere, or something that
      cannot be read as a file. */
  datatype Node = File(data: Bytes) | Outside(data: Bytes) | Unreadable

  type Files = map<string, Node>

  /** The library functions: digest, path cleaning, quoting, the texts of read errors, and the codecs. */
  datatype World = World(
    hash: Bytes -> string,
    clean: string -> string,
    quote: string -> string,
    readError: string -> string,
    manifestOf: Bytes -> Fallible<Manifest>,
    eventsOf: Bytes -> Fallible<seq<Event>>,
    lockOf: Bytes -> Fallible<FixtureLock>,
    lockBytes: FixtureLock -> Bytes)

  /** No two contents share a digest, and a lock that was written can be read back. */
  ghost predicate Lawful(w: World) {
    && (forall a, b :: w.hash(a) == w.hash(b) ==> a == b)
    && (forall lock :: w.lockOf(w.lockBytes(lock)) == Ok(lock))
  }

  // ----- Files -----

  /** os.ReadFile follows links. */
  function Read(files: Files, path: string): Option<Bytes> {
    if path in files && !files[path].Unreadable? then Some(files[path].data) else None
  }

  /** pathWithin: the path exists and resolves inside the case directory. */
  predicate Within(files: Files, path: string) { path in files && !files[path].Outside? }

  predicate EscapesOrUnclean(w: World, path: string) {
    path == "" || path[0] == '/' || w.clean(path) != path || w.clean(path) == ".." || "../" <= w.clean(path)
  }

  predicate BadFixturePath(w: World, path: string) { EscapesOrUnclean(w, path) || w.clean(path) == "." }

  // ----- What can be wrong -----

  /** %d */
  function Int(n: int): string { if n < 0 then "-" + Decimal(-n) else Decimal(n) }

  function Found(code: Code, message: string): Finding { Violation(code, message) }

  const VERSION_UNSUPPORTED: Code := "version_unsupported"
  const ID_REQUIRED: Code := "id_required"
  const TITLE_REQUIRED: Code := "title_required"
  const EVIDENCE_LEVEL_INVALID: Code := "evidence_level_invalid"
  const CONTINUITY_LINES_REQUIRED: Code := "continuity_lines_required"
  const PRESSURES_REQUIRED: Code := "pressures_required"
  const SOURCES_REQUIRED: Code := "sources_required"
  const ANCHORS_REQUIRED: Code := "anchors_required"
  const CURRENT_FACTS_REQUIRED: Code := "current_facts_required"
  const FORBIDDEN_FACTS_REQUIRED: Code := "forbidden_facts_required"
  const EXPECTED_ACTION_REQUIRED: Code := "expected_action_required"
  const TASK_PROMPT_REQUIRED: Code := "task_prompt_required"
  const DETERMINISTIC_CHECKS_REQUIRED: Code := "deterministic_checks_required"
  const EVENTS_REQUIRED: Code := "events_required"
  const CONTINUITY_LINE_INVALID: Code := "continuity_line_invalid"
  const SOURCE_ID_REQUIRED: Code := "source_id_required"
  const DUPLICATE_SOURCE_ID: Code := "duplicate_source_id"
  const SOURCE_KIND_REQUIRED: Code := "source_kind_required"
  const SOURCE_NOT_AUTHORIZED: Code := "source_not_authorized"
  const SOURCE_ANONYMIZATION_REQUIRED: Code := "source_anonymization_required"
  const FIXTURE_PATH_INVALID: Code := "fixture_path_invalid"
  const FIXTURE_UNREADABLE: Code := "fixture_unreadable"
  const FIXTURE_HASH_MISMATCH: Code := "fixture_hash_mismatch"
  const EVENT_ID_REQUIRED: Code := "event_id_required"
  const DUPLICATE_EVENT_ID: Code := "duplicate_event_id"
  const EVENT_SEQUENCE_INVALID: Code := "event_sequence_invalid"
  const EVENT_SOURCE_UNKNOWN: Code := "event_source_unknown"
  const EVENT_ACTOR_REQUIRED: Code := "event_actor_required"
  const EVENT_CHANNEL_REQUIRED: Code := "event_channel_required"
  const EVENT_CONTENT_REQUIRED: Code := "event_content_required"
  const DUPLICATE_CURRENT_FACT: Code := "duplicate_current_fact"
  const DUPLICATE_FORBIDDEN_FACT: Code := "duplicate_forbidden_fact"
  const FACT_EXPECTATION_CONFLICT: Code := "fact_expectation_conflict"

  function VersionUnsupported(): Finding { Found(VERSION_UNSUPPORTED, "manifest version must be 1") }

  function IDRequired(): Finding { Found(ID_REQUIRED, "manifest id is required") }

  function TitleRequired(): Finding { Found(TITLE_REQUIRED, "manifest title is required") }

  function EvidenceLevelInvalid(): Finding {
    Found(EVIDENCE_LEVEL_INVALID, "local evidence level must be public or withheld_local")
  }

  function ContinuityLinesRequired(): Finding {
    Found(CONTINUITY_LINES_REQUIRED, "at least one continuity line is required")
  }

  function PressuresRequired(): Finding { Found(PRESSURES_REQUIRED, "at least one pressure is required") }

  function SourcesRequired(): Finding { Found(SOURCES_REQUIRED, "at least one source is required") }

  function AnchorsRequired(): Finding { Found(ANCHORS_REQUIRED, "at least one anchor is required") }

  function CurrentFactsRequired(): Finding {
    Found(CURRENT_FACTS_REQUIRED, "at least one current fact is required")
  }

  function ForbiddenFactsRequired(): Finding {
    Found(FORBIDDEN_FACTS_REQUIRED, "at least one forbidden fact is required")
  }

  function ExpectedActionRequired(): Finding {
    Found(EXPECTED_ACTION_REQUIRED, "expected action is required")
  }

  function TaskPromptRequired(): Finding { Found(TASK_PROMPT_REQUIRED, "downstream task prompt is required") }

  function DeterministicChecksRequired(): Finding {
    Found(DETERMINISTIC_CHECKS_REQUIRED, "at least one deterministic check is required")
  }

  function EventsRequired(): Finding {
    Found(EVENTS_REQUIRED, "events.jsonl must contain at least one event")
  }

  function ContinuityLineInvalid(w: World, line: string): Finding {
    Found(CONTINUITY_LINE_INVALID, "unsupported continuity line " + w.quote(line))
  }

  function SourceIDRequired(i: nat): Finding { Found(SOURCE_ID_REQUIRED, "source " + Int(i) + " has no id") }

  function DuplicateSourceID(w: World, id: string): Finding {
    Found(DUPLICATE_SOURCE_ID, "source id " + w.quote(id) + " is duplicated")
  }

  function SourceKindRequired(w: World, id: string): Finding {
    Found(SOURCE_KIND_REQUIRED, "source " + w.quote(id) + " has no kind")
  }

  function SourceNotAuthorized(w: World, id: string): Finding {
    Found(SOURCE_NOT_AUTHORIZED, "source " + w.quote(id) + " is not authorized")
  }

  function SourceAnonymizationRequired(w: World, id: string): Finding {
    Found(SOURCE_ANONYMIZATION_REQUIRED, "source " + w.quote(id) + " has no anonymization statement")
  }

  function FixturePathUnclean(w: World, id: string): Finding {
    Found(FIXTURE_PATH_INVALID, "source " + w.quote(id) + " fixture path must be clean and relative")
  }

  function FixturePathEscapes(w: World, id: string): Finding {
    Found(FIXTURE_PATH_INVALID, "source " + w.quote(id) + " fixture leaves the case directory")
  }

  function FixtureUnreadable(w: World, id: string, path: string): Finding {
    Found(FIXTURE_UNREADABLE, "source " + w.quote(id) + " fixture cannot be read: " + w.readError(path))
  }

  function FixtureHashMismatch(w: World, id: string, actual: string, declared: string): Finding {
    Found(FIXTURE_HASH_MISMATCH, "source " + w.quote(id) + " fixture hash is " + actual + ", declared " + declared)
  }

  function EventIDRequired(sequence: int): Finding {
    Found(EVENT_ID_REQUIRED, "event at sequence " + Int(sequence) + " has no id")
  }

  function DuplicateEventID(w: World, id: string): Finding {
    Found(DUPLICATE_EVENT_ID, "event id " + w.quote(id) + " is duplicated")
  }

  function EventSequenceInvalid(w: World, id: string, sequence: string, expected: string): Finding {
    Found(EVENT_SEQUENCE_INVALID, "event " + w.quote(id) + " has sequence " + sequence + ", expected " + expected)
  }

  function EventSourceUnknown(w: World, id: string, sourceID: string): Finding {
    Found(EVENT_SOURCE_UNKNOWN, "event " + w.quote(id) + " references unknown source " + w.quote(sourceID))
  }

  function EventActorRequired(w: World, id: string): Finding {
    Found(EVENT_ACTOR_REQUIRED, "event " + w.quote(id) + " has no actor")
  }

  function EventChannelRequired(w: World, id: string): Finding {
    Found(EVENT_CHANNEL_REQUIRED, "event " + w.quote(id) + " has no channel")
  }

  function EventContentRequired(w: World, id: string): Finding {
    Found(EVENT_CONTENT_REQUIRED, "event " + w.quote(id) + " has no content")
  }

  function DuplicateCurrentFact(w: World, fact: string): Finding {
    Found(DUPLICATE_CURRENT_FACT, "current fact " + w.quote(fact) + " is duplicated")
  }

  function DuplicateForbiddenFact(w: World, fact: string): Finding {
    Found(DUPLICATE_FORBIDDEN_FACT, "forbidden fact " + w.quote(fact) + " is duplicated")
  }

  function FactExpectationConflict(w: World, fact: string): Finding {
    Found(FACT_EXPECTATION_CONFLICT, "fact " + w.quote(fact) + " is both current and forbidden")
  }

  // ----- Collecting violations -----

  function AddIf(vs: seq<Finding>, wrong: bool, violation: Finding): (r: seq<Finding>)
    ensures r == [] <==> vs == [] && !wrong
  {
    if wrong then vs + [violation] else vs
  }

  predicate Blank(s: string) { TrimSpace(s) == "" }

  predicate ValidContinuityLine(line: string) {
    line == "workspace" || line == "conversation" || line == "global_defaults" || line == "bridge" || line == "security"
  }

  function AfterLines(w: World, vs: seq<Finding>, lines: seq<string>): seq<Finding> {
    if lines == [] then vs
    else
      var n := |lines| - 1;
      AddIf(AfterLines(w, vs, lines[..n]), !ValidContinuityLine(lines[n]),
            ContinuityLineInvalid(w, lines[n]))
  }

  function AfterHeader(w: World, m: Manifest): seq<Finding> {
    var v := AddIf([], m.version != 1, VersionUnsupported());
    var v := AddIf(v, Blank(m.id), IDRequired());
    var v := AddIf(v, Blank(m.title), TitleRequired());
    var v := AddIf(v, m.evidenceLevel != "public" && m.evidenceLevel != "withheld_local",
                   EvidenceLevelInvalid());
    AddIf(v, m.continuityLines == [], ContinuityLinesRequired())
  }

  function AfterLists(vs: seq<Finding>, m: Manifest): seq<Finding> {
    var v := AddIf(vs, m.pressures == [], PressuresRequired());
    var v := AddIf(v, m.sources == [], SourcesRequired());
    var v := AddIf(v, m.anchors == [], AnchorsRequired());
    var v := AddIf(v, m.expectations.currentFacts == [], CurrentFactsRequired());
    AddIf(v, m.expectations.forbiddenFacts == [], ForbiddenFactsRequired())
  }

  function AfterTask(vs: seq<Finding>, m: Manifest): seq<Finding> {
    var v := AddIf(vs, Blank(m.expectations.expectedAction), ExpectedActionRequired());
    var v := AddIf(v, Blank(m.task.prompt), TaskPromptRequired());
    AddIf(v, m.task.deterministicChecks == [], DeterministicChecksRequired())
  }

  function AfterManifest(w: World, m: Manifest): seq<Finding> {
    AfterTask(AfterLists(AfterLines(w, AfterHeader(w, m), m.continuityLines), m), m)
  }

  function AfterFixture(w: World, files: Files, vs: seq<Finding>, s: SourceRef): seq<Finding> {
    var path := s.fixturePath;
    if BadFixturePath(w, path) then
      AddIf(vs, true, FixturePathUnclean(w, s.id))
    else if !Within(files, path) then
      AddIf(vs, true, FixturePathEscapes(w, s.id))
    else if Read(files, path).None? then
      AddIf(vs, true, FixtureUnreadable(w, s.id, path))
    else
      var actual := w.hash(Read(files, path).value);
      AddIf(vs, s.sha256 != actual, FixtureHashMismatch(w, s.id, actual, s.sha256))
  }

  function SourceIDs(sources: seq<SourceRef>): set<string> {
    set s | s in sources && !Blank(s.id) :: s.id
  }

  function AfterSourceID(w: World, vs: seq<Finding>, known: set<string>, i: nat, s: SourceRef): seq<Finding> {
    if Blank(s.id) then AddIf(vs, true, SourceIDRequired(i))
    else AddIf(vs, s.id in known, DuplicateSourceID(w, s.id))
  }

  function AfterSourceFields(w: World, vs: seq<Finding>, known: set<string>, i: nat, s: SourceRef): seq<Finding> {
    var v := AfterSourceID(w, vs, known, i, s);
    var v := AddIf(v, Blank(s.kind), SourceKindRequired(w, s.id));
    var v := AddIf(v, !s.authorized, SourceNotAuthorized(w, s.id));
    AddIf(v, Blank(s.anonymization), SourceAnonymizationRequired(w, s.id))
  }

  function AfterSource(w: World, files: Files, vs: seq<Finding>, known: set<string>, i: nat,
    s: SourceRef): seq<Finding> {
    AfterFixture(w, files, AfterSourceFields(w, vs, known, i, s), s)
  }

  function AfterSources(w: World, files: Files, vs: seq<Finding>, sources: seq<SourceRef>): seq<Finding> {
    if sources == [] then vs
    else
      var n := |sources| - 1;
      AfterSource(w, files, AfterSources(w, files, vs, sources[..n]), SourceIDs(sources[..n]), n, sources[n])
  }

  function EventIDs(events: seq<Event>): set<string> {
    set e | e in events && !Blank(e.id) :: e.id
  }

  function AfterEventID(w: World, vs: seq<Finding>, known: set<string>, e: Event): seq<Finding> {
    if Blank(e.id) then AddIf(vs, true, EventIDRequired(e.sequence))
    else AddIf(vs, e.id in known, DuplicateEventID(w, e.id))
  }

  function AfterEventTexts(w: World, vs: seq<Finding>, e: Event): seq<Finding> {
    var v := AddIf(vs, Blank(e.actor), EventActorRequired(w, e.id));
    var v := AddIf(v, Blank(e.channel), EventChannelRequired(w, e.id));
    AddIf(v, Blank(e.content), EventContentRequired(w, e.id))
  }

  function AfterEvent(w: World, vs: seq<Finding>, sourceIDs: set<string>, known: set<string>, i: nat,
    e: Event): seq<Finding> {
    var v := AfterEventID(w, vs, known, e);
    var v := AddIf(v, e.sequence != i + 1, EventSequenceInvalid(w, e.id, Int(e.sequence), Int(i + 1)));
    var v := AddIf(v, e.sourceID !in sourceIDs, EventSourceUnknown(w, e.id, e.sourceID));
    AfterEventTexts(w, v, e)
  }

  function AfterEvents(w: World, vs: seq<Finding>, sourceIDs: set<string>, events: seq<Event>): seq<Finding> {
    if events == [] then vs
    else
      var n := |events| - 1;
      AfterEvent(w, AfterEvents(w, vs, sourceIDs, events[..n]), sourceIDs, EventIDs(events[..n]), n, events[n])
  }

  function AfterCurrentFacts(w: World, vs: seq<Finding>, facts: seq<string>): seq<Finding> {
    if facts == [] then vs
    else
      var n := |facts| - 1;
      AddIf(AfterCurrentFacts(w, vs, facts[..n]), facts[n] in facts[..n],
            DuplicateCurrentFact(w, facts[n]))
  }

  function AfterForbiddenFacts(w: World, vs: seq<Finding>, current: seq<string>, facts: seq<string>): seq<Finding> {
    if facts == [] then vs
    else
      var n := |facts| - 1;
      var v := AddIf(AfterForbiddenFacts(w, vs, current, facts[..n]), facts[n] in facts[..n],
                     DuplicateForbiddenFact(w, facts[n]));
      AddIf(v, facts[n] in current, FactExpectationConflict(w, facts[n]))
  }

  function AfterFacts(w: World, vs: seq<Finding>, x: Expectations): seq<Finding> {
    AfterForbiddenFacts(w, AfterCurrentFacts(w, vs, x.currentFacts), x.currentFacts, x.forbiddenFacts)
  }

  /** Everything validation adds, in the order in which it adds it. */
  function Added(w: World, files: Files, c: Case): seq<Finding> {
    var v := AfterSources(w, files, AfterManifest(w, c.manifest), c.manifest.sources);
    var v := AddIf(v, c.events == [], EventsRequired());
    var v := AfterEvents(w, v, SourceIDs(c.manifest.sources), c.events);
    AfterFacts(w, v, c.manifest.expectations)
  }

  // ----- Order of the report -----

  predicate ViolationLeq(a: Violation, b: Violation) {
    if a.code == b.code then LexLeq(a.message, b.message) else LexLeq(a.code, b.code)
  }

  lemma ViolationOrder()
    ensures TotalPreorder(ViolationLeq)
    ensures forall a, b :: ViolationLeq(a, b) && ViolationLeq(b, a) ==> a == b
  {
    hide LexLeq;
    forall a: Violation, b: Violation
      ensures ViolationLeq(a, b) || ViolationLeq(b, a)
      ensures ViolationLeq(a, b) && ViolationLeq(b, a) ==> a == b
    {
      LexTotal(a.message, b.message);
      LexTotal(a.code, b.code);
      if LexLeq(a.code, b.code) && LexLeq(b.code, a.code) { LexAntisym(a.code, b.code); }
      if LexLeq(a.message, b.message) && LexLeq(b.message, a.message) { LexAntisym(a.message, b.message); }
    }
    forall a: Violation, b: Violation, c: Violation | ViolationLeq(a, b) && ViolationLeq(b, c)
      ensures ViolationLeq(a, c)
    {
      ViolationTrans(a, b, c);
    }
  }

  lemma ViolationTrans(a: Violation, b: Violation, c: Violation)
    requires ViolationLeq(a, b) && ViolationLeq(b, c)
    ensures ViolationLeq(a, c)
  {
    hide LexLeq;
    LexRefl(a.code);
    LexRefl(b.code);
    LexTrans(a.code, b.code, c.code);
    if a.code == c.code {
      LexAntisym(a.code, b.code);
      LexTrans(a.message, b.message, c.message);
    }
  }

  /** The sorted report leaves no choice: there is one list with these violations in order. */
  lemma OneReport(added: seq<Violation>, report: seq<Violation>)
    requires SortOf(ViolationLeq, added, report)
    ensures report == SortBy(ViolationLeq, added)
  {
    hide SortBy, ViolationLeq;
    ViolationOrder();
    SortByIsSort(ViolationLeq, added);
    SortUnique(ViolationLeq, report, SortBy(ViolationLeq, added));
  }
}
