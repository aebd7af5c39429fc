/** What validation checks, as a table: the code of each check, where it looks, when it fails and what it then says. */
module RealityChecks {
  import opened Common
  import opened RealityCase

  /** What can be wrong with a case, once or at a place of one of its lists. */
  datatype Check =
    | WrongVersion | NoID | NoTitle | WrongLevel | NoLines | WrongLine | NoPressures | NoSources | NoAnchors
    | NoCurrent | NoForbidden | NoAction | NoPrompt | NoChecks | SourceNoID | SourceTwice | SourceNoKind
    | SourceNotAllowed | SourceNotAnonymous | FixtureOutside | FixtureUnread | FixtureChanged | NoEvents
    | EventNoID | EventTwice | EventOutOfOrder | EventNoSource | EventNoActor | EventNoChannel | EventNoContent
    | CurrentTwice | ForbiddenTwice | FactConflict

  predicate OfSource(check: Check) {
    check.SourceNoID? || check.SourceTwice? || check.SourceNoKind? || check.SourceNotAllowed?
    || check.SourceNotAnonymous? || check.FixtureOutside? || check.FixtureUnread? || check.FixtureChanged?
  }

  predicate OfEvent(check: Check) {
    check.EventNoID? || check.EventTwice? || check.EventOutOfOrder? || check.EventNoSource?
    || check.EventNoActor? || check.EventNoChannel? || check.EventNoContent?
  }

  predicate OfFacts(check: Check) { check.CurrentTwice? || check.ForbiddenTwice? || check.FactConflict? }

  predicate OfManifest(check: Check) { !OfSource(check) && !OfEvent(check) && !OfFacts(check) && !check.WrongLine? }

  function ManifestCode(check: Check): string
    requires OfManifest(check)
  {
    match check
    case WrongVersion => "version_unsupported"
    case NoID => "id_required"
    case NoTitle => "title_required"
    case WrongLevel => "evidence_level_invalid"
    case NoLines => "continuity_lines_required"
    case NoPressures => "pressures_required"
    case NoSources => "sources_required"
    case NoAnchors => "anchors_required"
    case NoCurrent => "current_facts_required"
    case NoForbidden => "forbidden_facts_required"
    case NoAction => "expected_action_required"
    case NoPrompt => "task_prompt_required"
    case NoChecks => "deterministic_checks_required"
    case NoEvents => "events_required"
  }

  function SourceCode(check: Check): string
    requires OfSource(check)
  {
    match check
    case SourceNoID => "source_id_required"
    case SourceTwice => "duplicate_source_id"
    case SourceNoKind => "source_kind_required"
    case SourceNotAllowed => "source_not_authorized"
    case SourceNotAnonymous => "source_anonymization_required"
    case FixtureOutside => "fixture_path_invalid"
    case FixtureUnread => "fixture_unreadable"
    case FixtureChanged => "fixture_hash_mismatch"
  }

  function EventCode(check: Check): string
    requires OfEvent(check)
  {
    match check
    case EventNoID => "event_id_required"
    case EventTwice => "duplicate_event_id"
    case EventOutOfOrder => "event_sequence_invalid"
    case EventNoSource => "event_source_unknown"
    case EventNoActor => "event_actor_required"
    case EventNoChannel => "event_channel_required"
    case EventNoContent => "event_content_required"
  }

  function FactCode(check: Check): string
    requires OfFacts(check)
  {
    match check
    case CurrentTwice => "duplicate_current_fact"
    case ForbiddenTwice => "duplicate_forbidden_fact"
    case FactConflict => "fact_expectation_conflict"
  }

  function CodeName(check: Check): string {
    if OfSource(check) then SourceCode(check)
    else if OfEvent(check) then EventCode(check)
    else if OfFacts(check) then FactCode(check)
    else if check.WrongLine? then "continuity_line_invalid"
    else ManifestCode(check)
  }

  /** In how many places a check looks. */
  function Places(c: Case, check: Check): nat {
    match check
    case WrongLine => |c.manifest.continuityLines|
    case SourceNoID | SourceTwice | SourceNoKind | SourceNotAllowed | SourceNotAnonymous
       | FixtureOutside | FixtureUnread | FixtureChanged => |c.manifest.sources|
    case EventNoID | EventTwice | EventOutOfOrder | EventNoSource | EventNoActor | EventNoChannel
       | EventNoContent => |c.events|
    case CurrentTwice => |c.manifest.expectations.currentFacts|
    case ForbiddenTwice | FactConflict => |c.manifest.expectations.forbiddenFacts|
    case _ => 1
  }

  predicate Unclean(w: World, path: string) {
    || path == "" || path[0] == '/' || w.clean(path) != path
    || w.clean(path) == "." || w.clean(path) == ".." || "../" <= w.clean(path)
  }

  predicate Inside(w: World, files: Files, path: string) {
    !Unclean(w, path) && path in files && !files[path].Outside?
  }

  predicate WrongManifest(c: Case, check: Check)
    requires OfManifest(check)
  {
    var m := c.manifest;
    var x := m.expectations;
    match check
    case WrongVersion => m.version != 1
    case NoID => Blank(m.id)
    case NoTitle => Blank(m.title)
    case WrongLevel => m.evidenceLevel != "public" && m.evidenceLevel != "withheld_local"
    case NoLines => m.continuityLines == []
    case NoPressures => m.pressures == []
    case NoSources => m.sources == []
    case NoAnchors => m.anchors == []
    case NoCurrent => x.currentFacts == []
    case NoForbidden => x.forbiddenFacts == []
    case NoAction => Blank(x.expectedAction)
    case NoPrompt => Blank(m.task.prompt)
    case NoChecks => m.task.deterministicChecks == []
    case NoEvents => c.events == []
  }

  predicate WrongSource(w: World, files: Files, sources: seq<SourceRef>, check: Check, i: nat)
    requires OfSource(check) && i < |sources|
  {
    var s := sources[i];
    match check
    case SourceNoID => Blank(s.id)
    case SourceTwice =>
      && !Blank(s.id) && exists j :: 0 <= j < i && sources[j].id == s.id
    case SourceNoKind => Blank(s.kind)
    case SourceNotAllowed => !s.authorized
    case SourceNotAnonymous => Blank(s.anonymization)
    case FixtureOutside => !Inside(w, files, s.fixturePath)
    case FixtureUnread =>
      && Inside(w, files, s.fixturePath) && files[s.fixturePath].Unreadable?
    case FixtureChanged =>
      && Inside(w, files, s.fixturePath) && files[s.fixturePath].File?
      && w.hash(files[s.fixturePath].data) != s.sha256
  }

  predicate WrongEvent(sources: seq<SourceRef>, events: seq<Event>, check: Check, i: nat)
    requires OfEvent(check) && i < |events|
  {
    var e := events[i];
    match check
    case EventNoID => Blank(e.id)
    case EventTwice =>
      && !Blank(e.id) && exists j :: 0 <= j < i && events[j].id == e.id
    case EventOutOfOrder => e.sequence != i + 1
    case EventNoSource =>
      && (Blank(e.sourceID) || forall k :: 0 <= k < |sources| ==> sources[k].id != e.sourceID)
    case EventNoActor => Blank(e.actor)
    case EventNoChannel => Blank(e.channel)
    case EventNoContent => Blank(e.content)
  }

  predicate WrongFact(x: Expectations, check: Check, i: nat)
    requires OfFacts(check)
  {
    match check
    case CurrentTwice => i < |x.currentFacts| && exists j :: 0 <= j < i && x.currentFacts[j] == x.currentFacts[i]
    case ForbiddenTwice =>
      && i < |x.forbiddenFacts|
      && exists j :: 0 <= j < i && x.forbiddenFacts[j] == x.forbiddenFacts[i]
    case FactConflict =>
      && i < |x.forbiddenFacts|
      && exists j :: 0 <= j < |x.currentFacts| && x.currentFacts[j] == x.forbiddenFacts[i]
  }

  /** The check fails at its place i. */
  predicate Wrong(w: World, files: Files, c: Case, check: Check, i: nat) {
    var m := c.manifest;
    if OfSource(check) then i < |m.sources| && WrongSource(w, files, m.sources, check, i)
    else if OfEvent(check) then i < |c.events| && WrongEvent(m.sources, c.events, check, i)
    else if OfFacts(check) then WrongFact(m.expectations, check, i)
    else if check.WrongLine? then
      && i < |m.continuityLines|
      && m.continuityLines[i] !in {"workspace", "conversation", "global_defaults", "bridge", "security"}
    else i == 0 && WrongManifest(c, check)
  }

  function ManifestMessage(check: Check): string
    requires OfManifest(check)
  {
    match check
    case WrongVersion => "manifest version must be 1"
    case NoID => "manifest id is required"
    case NoTitle => "manifest title is required"
    case WrongLevel => "local evidence level must be public or withheld_local"
    case NoLines => "at least one continuity line is required"
    case NoPressures => "at least one pressure is required"
    case NoSources => "at least one source is required"
    case NoAnchors => "at least one anchor is required"
    case NoCurrent => "at least one current fact is required"
    case NoForbidden => "at least one forbidden fact is required"
    case NoAction => "expected action is required"
    case NoPrompt => "downstream task prompt is required"
    case NoChecks => "at least one deterministic check is required"
    case NoEvents => "events.jsonl must contain at least one event"
  }

  function SourceMessage(w: World, files: Files, sources: seq<SourceRef>, check: Check, i: nat): string
    requires OfSource(check) && i < |sources| && WrongSource(w, files, sources, check, i)
  {
    var s := sources[i];
    match check
    case SourceNoID => "source " + Int(i) + " has no id"
    case SourceTwice => "source id " + w.quote(s.id) + " is duplicated"
    case SourceNoKind => "source " + w.quote(s.id) + " has no kind"
    case SourceNotAllowed => "source " + w.quote(s.id) + " is not authorized"
    case SourceNotAnonymous => "source " + w.quote(s.id) + " has no anonymization statement"
    case FixtureOutside =>
      if Unclean(w, s.fixturePath) then
        "source " + w.quote(s.id) + " fixture path must be clean and relative"
      else "source " + w.quote(s.id) + " fixture leaves the case directory"
    case FixtureUnread =>
      "source " + w.quote(s.id) + " fixture cannot be read: " + w.readError(s.fixturePath)
    case FixtureChanged =>
      "source " + w.quote(s.id) + " fixture hash is " + w.hash(files[s.fixturePath].data)
      + ", declared " + s.sha256
  }

  function EventMessage(w: World, sources: seq<SourceRef>, events: seq<Event>, check: Check, i: nat): string
    requires OfEvent(check) && i < |events|
  {
    var e := events[i];
    match check
    case EventNoID => "event at sequence " + Int(e.sequence) + " has no id"
    case EventTwice => "event id " + w.quote(e.id) + " is duplicated"
    case EventOutOfOrder =>
      "event " + w.quote(e.id) + " has sequence " + Int(e.sequence) + ", expected " + Int(i + 1)
    case EventNoSource =>
      "event " + w.quote(e.id) + " references unknown source " + w.quote(e.sourceID)
    case EventNoActor => "event " + w.quote(e.id) + " has no actor"
    case EventNoChannel => "event " + w.quote(e.id) + " has no channel"
    case EventNoContent => "event " + w.quote(e.id) + " has no content"
  }

  function FactMessage(w: World, x: Expectations, check: Check, i: nat): string
    requires OfFacts(check) && WrongFact(x, check, i)
  {
    match check
    case CurrentTwice => "current fact " + w.quote(x.currentFacts[i]) + " is duplicated"
    case ForbiddenTwice => "forbidden fact " + w.quote(x.forbiddenFacts[i]) + " is duplicated"
    case FactConflict => "fact " + w.quote(x.forbiddenFacts[i]) + " is both current and forbidden"
  }

  function Message(w: World, files: Files, c: Case, check: Check, i: nat): string
    requires Wrong(w, files, c, check, i)
  {
    var m := c.manifest;
    if OfSource(check) then SourceMessage(w, files, m.sources, check, i)
    else if OfEvent(check) then EventMessage(w, m.sources, c.events, check, i)
    else if OfFacts(check) then FactMessage(w, m.expectations, check, i)
    else if check.WrongLine? then "unsupported continuity line " + w.quote(m.continuityLines[i])
    else ManifestMessage(check)
  }
}
