/** Violation codes travel through the text of a load error and come out as they went in. */
module RealityCodes {
  import opened Common
  import opened Text
  import opened RealityCase
  import opened RealityValidation
  import opened RealityLock

  // ----- Joining and splitting -----

  ghost predicate PlainAll(codes: seq<string>) { forall k :: 0 <= k < |codes| ==> PlainCode(codes[k]) }

  lemma PlainHasNoComma(code: string, rest: string)
    requires PlainCode(code)
    ensures Index(code, ",") == -1
    ensures Index(code + "," + rest, ",") == |code|
  {
    var s := code + "," + rest;
    IndexBounds(s, ",", 0);
    forall k | 0 <= k < |code| ensures !OccursAt(s, ",", k) && !OccursAt(code, ",", k) {
      assert s[k] == code[k];
    }
    assert s[|code|..|code| + 1] == ",";
    assert OccursAt(s, ",", |code|);
  }

  /** Splitting undoes joining. */
  lemma {:induction false} SplitJoined(codes: seq<string>)
    requires codes != [] && PlainAll(codes)
    ensures Split(JoinCommas(codes), ",") == codes
  {
    hide PlainCode, Index;
    assert PlainCode(codes[0]);
    if |codes| == 1 {
      PlainHasNoComma(codes[0], "");
    } else {
      var rest := JoinCommas(codes[1..]);
      PlainHasNoComma(codes[0], rest);
      SplitJoined(codes[1..]);
      var s := codes[0] + "," + rest;
      assert s[..|codes[0]|] == codes[0] && s[|codes[0]| + 1..] == rest;
    }
  }

  lemma {:induction false} NoBlankJoined(codes: seq<string>)
    requires PlainAll(codes)
    ensures ' ' !in JoinCommas(codes)
  {
    if |codes| == 1 {
      assert PlainCode(codes[0]);
    } else if codes != [] {
      assert PlainCode(codes[0]);
      NoBlankJoined(codes[1..]);
    }
  }

  const MARKER := "sealed evidence cannot be loaded"

  lemma MarkerBlanks(s: string, i: nat)
    requires OccursAt(s, MARKER, i)
    ensures i + 25 < |s| && s[i + 6] == ' ' && s[i + 15] == ' ' && s[i + 22] == ' ' && s[i + 25] == ' '
  {
    OccursChars(s, MARKER, i);
    assert MARKER[6] == ' ' && MARKER[15] == ' ' && MARKER[22] == ' ' && MARKER[25] == ' ';
  }

  /** The marker of sealed evidence has more blanks than the text of a validation error. */
  lemma NotSealed(joined: string)
    requires ' ' !in joined
    ensures !Contains(INVALID + joined, MARKER)
  {
    hide OccursAt;
    var s := INVALID + joined;
    forall k | 0 <= k < |s| && s[k] == ' ' ensures k == 4 || k == 15 || k == 23 {}
    if i: nat :| i <= |s| && OccursAt(s, MARKER, i) { MarkerBlanks(s, i); }
  }

  /** An invalid case is reported with exactly the codes of its violations, in their order, each once per
      violation; only the messages are lost on the way. */
  lemma InvalidCaseCodes(w: World, files: Files, c: Case)
    requires Report(w, files, c) != []
    ensures var message := INVALID + JoinCommas(Codes(Report(w, files, c)));
            LoadViolations(message) == WithCodes(Codes(Report(w, files, c)))
  {
    hide Added, SortBy, PlainCode, Split, Contains, JoinCommas;
    var report := Report(w, files, c);
    var codes := Codes(report);
    forall k | 0 <= k < |codes| ensures PlainCode(codes[k]) {
      assert report[k] in report;
      SameElements<Violation>(report, Added(w, files, c), report[k]);
      var i :| 0 <= i < |Added(w, files, c)| && Added(w, files, c)[i] == report[k];
    }
    SplitJoined(codes);
    NoBlankJoined(codes);
    NotSealed(JoinCommas(codes));
    assert (INVALID + JoinCommas(codes))[|INVALID|..] == JoinCommas(codes);
  }
}
