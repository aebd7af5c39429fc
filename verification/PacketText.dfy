/** What a packet holds, told by the claims: which of them are shown, where, and what redaction changes. */
module PacketText {
  import opened Packet
  import opened Redaction
  import opened RedactionMask
  import opened RedactionPieces
  import opened Text

  predicate Shown(claim: Claim) {
    claim.verifiedByUser && (claim.status == Confirmed || claim.status == Active)
  }

  lemma {:induction false} LinesConcat(a: seq<Claim>, b: seq<Claim>)
    ensures Lines(a + b) == Lines(a) + Lines(b)
    decreases |b|
  {
    hide Lines, Line, Eligible;
    if b == [] {
      assert a + b == a;
      NoLines();
    } else {
      var n := |b| - 1;
      LinesConcat(a, b[..n]);
      LastLine(a + b);
      LastLine(b);
      assert (a + b)[..|a + b| - 1] == a + b[..n];
      Associates(Lines(a), Lines(b[..n]), if Eligible(b[n]) then Line(b[n]) else "");
    }
  }

  lemma LastLine(claims: seq<Claim>)
    requires claims != []
    ensures var n := |claims| - 1;
            Lines(claims) == Lines(claims[..n]) + if Eligible(claims[n]) then Line(claims[n]) else ""
  {
  }

  lemma LinesOfOne(claim: Claim)
    ensures Lines([claim]) == if Shown(claim) then "- [" + claim.kind + "] " + claim.content + "\n" else ""
  {
    assert [claim][..0] == [];
  }

  /** Each claim that is shown has its line, between those of the claims before and behind it; no other has one. */
  lemma LineInPlace(claims: seq<Claim>, k: nat)
    requires k < |claims|
    ensures var claim := claims[k];
            Lines(claims)
            == Lines(claims[..k])
               + (if Shown(claim) then "- [" + claim.kind + "] " + claim.content + "\n" else "")
               + Lines(claims[k + 1..])
  {
    hide Lines, Shown;
    var head, one, tail := claims[..k], [claims[k]], claims[k + 1..];
    assert claims == head + one + tail by { Around(claims, k); }
    LinesConcat(head + one, tail);
    LinesConcat(head, one);
    LinesOfOne(claims[k]);
  }

  lemma Around(claims: seq<Claim>, k: nat)
    requires k < |claims|
    ensures claims == claims[..k] + [claims[k]] + claims[k + 1..]
  {
  }

  lemma HeadingReads(profile: string, projectName: string, purpose: string)
    ensures Heading(profile, projectName, purpose)
            == "# " + projectName + "\n\n" + ("用途：" + purpose + "\n\n") + ProfileIntro(profile)
               + "\n\n## 已确认上下文\n"
  {
    hide ProfileIntro;
  }

  /** out is the text with that many secrets replaced by their tokens and all the rest kept. */
  ghost predicate Redacted(text: string, out: string, count: nat) {
    exists marks :: Marks(text, 0, marks) && out == Masked(text, 0, marks) && count == |marks|
  }

  /** Body and title are these texts, up to what redaction replaces in them. */
  ghost predicate Reads(p: Packet, text: string, title: string) {
    exists inBody: nat, inTitle: nat ::
      Redacted(text, p.body, inBody) && Redacted(title, p.title, inTitle) && p.redactionCount == inBody + inTitle
  }

  /** What a packet says, and its numbers. */
  lemma PacketReads(profile: string, projectName: string, purpose: string, claims: seq<Claim>)
    ensures var p := BuildSpec(profile, projectName, purpose, claims);
            && Reads(p, "# " + projectName + "\n\n" + ("用途：" + purpose + "\n\n") + ProfileIntro(profile)
                        + "\n\n## 已确认上下文\n" + Lines(claims),
                     projectName + " " + profile)
            && p.profile == profile
            && 2 * (p.tokenEstimate - 1) <= |p.body| < 2 * p.tokenEstimate
  {
    hide RedactSpec, Lines, ProfileIntro, Heading, Reads;
    HeadingReads(profile, projectName, purpose);
    PacketRedacts(profile, projectName, purpose, claims);
  }

  lemma PacketRedacts(profile: string, projectName: string, purpose: string, claims: seq<Claim>)
    ensures var p := BuildSpec(profile, projectName, purpose, claims);
            Reads(p, Heading(profile, projectName, purpose) + Lines(claims), projectName + " " + profile)
  {
    hide RedactSpec, Lines, Redacted, Heading;
    RedactedText(Heading(profile, projectName, purpose) + Lines(claims));
    RedactedText(projectName + " " + profile);
  }

  lemma RedactedText(text: string)
    ensures Redacted(text, RedactSpec(text).text, RedactSpec(text).count)
  {
    hide RedactSpec, Masked, Marks;
    RedactedIsMasked(text);
  }
}
