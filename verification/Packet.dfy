/** The context packet handed to a model: eligible claims under a heading, redacted. */
module Packet {
  import opened Redaction
  import opened Text

  datatype ClaimStatus = Draft | Confirmed | Active | StaleCandidate | Conflict | Archived | Deleted
  datatype Claim = Claim(kind: string, content: string, status: ClaimStatus, verifiedByUser: bool)

  datatype Packet = Packet(profile: string, title: string, body: string, redactionCount: nat, tokenEstimate: nat)

  predicate Eligible(claim: Claim) {
    (claim.status.Confirmed? || claim.status.Active?) && claim.verifiedByUser
  }

  function Line(claim: Claim): string { "- [" + claim.kind + "] " + claim.content + "\n" }

  function ProfileIntro(profile: string): string {
    if profile == "general_chinese_chat" then "目标平台：通用中文对话平台，如通义千问、豆包、Kimi、文心、智谱、腾讯元宝。"
    else if profile == "coding_agent"
      then "目标平台：代码开发工具，如 Codex、Cursor、Claude Code、Gemini CLI、通义灵码、CodeGeeX、Comate、Trae、MarsCode。"
    else if profile == "team_handoff" then "目标平台：团队交接。请先说明当前目标、已确认决策和下一步。"
    else "目标平台：通用上下文包。"
  }

  function PurposeLabel(): string { "用途：" }

  function ContextHeading(): string { "\n\n## 已确认上下文\n" }

  function Heading(profile: string, projectName: string, purpose: string): string {
    "# " + projectName + "\n\n" + (PurposeLabel() + purpose + "\n\n") + ProfileIntro(profile) + ContextHeading()
  }

  /** The lines of the claims that may be shown, in order. */
  function Lines(claims: seq<Claim>): string {
    if claims == [] then ""
    else
      var last := claims[|claims| - 1];
      Lines(claims[..|claims| - 1]) + if Eligible(last) then Line(last) else ""
  }

  lemma NoLines()
    ensures Lines([]) == ""
  {
  }

  lemma LinesStep(claims: seq<Claim>, i: nat)
    requires i < |claims|
    ensures Lines(claims[..i + 1]) == Lines(claims[..i]) + if Eligible(claims[i]) then Line(claims[i]) else ""
  {
    assert claims[..i + 1][..i] == claims[..i];
  }

  function BuildSpec(profile: string, projectName: string, purpose: string, claims: seq<Claim>): Packet {
    var body := RedactSpec(Heading(profile, projectName, purpose) + Lines(claims));
    var title := RedactSpec(projectName + " " + profile);
    Packet(profile, title.text, body.text, body.count + title.count, |body.text| / 2 + 1)
  }

  method WriteHeading(profile: string, projectName: string, purpose: string) returns (builder: string)
    ensures builder == Heading(profile, projectName, purpose)
  {
    hide ProfileIntro, PurposeLabel, ContextHeading;
    builder := "# " + projectName + "\n\n";
    builder := builder + (PurposeLabel() + purpose + "\n\n");
    builder := builder + ProfileIntro(profile);
    builder := builder + ContextHeading();
  }

  method Build(profile: string, projectName: string, purpose: string, claims: seq<Claim>) returns (p: Packet)
    ensures p == BuildSpec(profile, projectName, purpose, claims)
  {
    hide Heading, RedactSpec, Lines, Line;
    var builder := WriteHeading(profile, projectName, purpose);
    NoLines();
    var i := 0;
    while i < |claims|
      invariant 0 <= i <= |claims|
      invariant builder == Heading(profile, projectName, purpose) + Lines(claims[..i])
    {
      var claim := claims[i];
      i := i + 1;
      LinesStep(claims, i - 1);
      if !claim.status.Confirmed? && !claim.status.Active? {
        continue;
      }
      if !claim.verifiedByUser {
        continue;
      }
      builder := builder + Line(claim);
    }
    assert claims[..|claims|] == claims;
    var redacted := Redact(builder);
    var redactedTitle := Redact(projectName + " " + profile);
    return Packet(profile, redactedTitle.text, redacted.text,
                  redacted.count + redactedTitle.count, |redacted.text| / 2 + 1);
  }

  /** Whatever the claims, the project name and the purpose hold, title and body come out clean, and the
      packet says how many tokens were put in. */
  lemma PacketIsClean(profile: string, projectName: string, purpose: string, claims: seq<Claim>)
    ensures var p := BuildSpec(profile, projectName, purpose, claims);
            && !Sensitive(p.title) && !Sensitive(p.body)
            && Tally('[', p.body) + Tally('[', p.title)
               == Tally('[', Heading(profile, projectName, purpose) + Lines(claims))
                 + Tally('[', projectName + " " + profile)
                  + p.redactionCount
  {
    hide RedactSpec, Sensitive, Tally, Heading, Lines;
    var body, title := Heading(profile, projectName, purpose) + Lines(claims), projectName + " " + profile;
    RedactedIsClean(body);
    RedactedIsClean(title);
    CountIsTokens(body);
    CountIsTokens(title);
  }

  function EligibleOnly(claims: seq<Claim>): seq<Claim> {
    if claims == [] then []
    else
      var last := claims[|claims| - 1];
      EligibleOnly(claims[..|claims| - 1]) + if Eligible(last) then [last] else []
  }

  lemma {:induction false} LinesOfEligible(claims: seq<Claim>)
    ensures Lines(claims) == Lines(EligibleOnly(claims))
  {
    if claims != [] {
      var n := |claims| - 1;
      LinesOfEligible(claims[..n]);
      LinesStep(claims, n);
      assert claims[..n + 1] == claims;
      if Eligible(claims[n]) {
        var kept := EligibleOnly(claims[..n]) + [claims[n]];
        LinesStep(kept, |kept| - 1);
        assert kept[..|kept| - 1] == EligibleOnly(claims[..n]) && kept[..|kept| - 1 + 1] == kept;
      } else {
        assert EligibleOnly(claims) == EligibleOnly(claims[..n]);
      }
    }
  }

  /** Draft, stale, conflicting, archived, deleted and unverified claims leave no trace in a packet. */
  lemma IneligibleLeaveNoTrace(profile: string, projectName: string, purpose: string, claims: seq<Claim>)
    ensures BuildSpec(profile, projectName, purpose, claims)
            == BuildSpec(profile, projectName, purpose, EligibleOnly(claims))
  {
    LinesOfEligible(claims);
  }
}
