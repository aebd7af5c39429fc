/** The same cleaning on tokens. */
module ThinkTokens {
  import opened Text
  import opened ThinkTags

  datatype Token = Lit(c: char) | Open | Close

  predicate TagAt(s: string, tag: string) { OccursAt(s, tag, 0) }

  function HeadToken(s: string): Token
    requires s != ""
  {
    if TagAt(s, OPEN) then Open else if TagAt(s, CLOSE) then Close else Lit(s[0])
  }

  function HeadSize(s: string): (n: nat)
    requires s != ""
    ensures 0 < n <= |s|
  {
    if TagAt(s, OPEN) then |OPEN| else if TagAt(s, CLOSE) then |CLOSE| else 1
  }

  function Tokenize(s: string): seq<Token>
    decreases |s|
  {
    if s == "" then [] else [HeadToken(s)] + Tokenize(s[HeadSize(s)..])
  }

  /** The text without its tags. */
  function Letters(ts: seq<Token>): string {
    if ts == [] then "" else (if ts[0].Lit? then [ts[0].c] else "") + Letters(ts[1..])
  }

  function PositionOf(t: Token, ts: seq<Token>): (k: nat)
    requires t in ts
    ensures k < |ts| && ts[k] == t && t !in ts[..k]
  {
    if ts[0] == t then 0 else 1 + PositionOf(t, ts[1..])
  }

  /** Drop every stretch from an opening tag through the next closing tag. */
  function DropSpans(ts: seq<Token>): seq<Token>
    decreases |ts|
  {
    if ts == [] then []
    else if ts[0] == Open && Close in ts[1..] then DropSpans(ts[1..][PositionOf(Close, ts[1..]) + 1..])
    else [ts[0]] + DropSpans(ts[1..])
  }

  /** The stretches between closing tags. */
  function Segments(ts: seq<Token>): (r: seq<seq<Token>>)
    ensures r != []
    decreases |ts|
  {
    if Close in ts then
      var k := PositionOf(Close, ts);
      [ts[..k]] + Segments(ts[k + 1..])
    else [ts]
  }

  function FirstNonBlank(segments: seq<seq<Token>>): string {
    if segments == [] then ""
    else
      var answer := TrimSpace(Letters(segments[0]));
      if answer != "" then answer else FirstNonBlank(segments[1..])
  }

  /** The tokens of the text outside its reasoning spans. */
  function Kept(text: string): seq<Token> { DropSpans(Tokenize(Normalize(text))) }

  /** The meaning: no reasoning spans; if closing tags leak, the first answer that is not blank; no tags. */
  function TokenMeaning(text: string): string { MeaningOf(Kept(text)) }

  function MeaningOf(kept: seq<Token>): string {
    if Close in kept then FirstNonBlank(Segments(kept)) else TrimSpace(Letters(kept))
  }

  /** The tokens of what the loop over the string leaves. */
  function Left(text: string): seq<Token> { Tokenize(Strip(Normalize(text))) }

  /** a ends in the beginning of a tag that is not complete. */
  ghost predicate Dangling(a: string) {
    exists k :: 0 <= k < |a| && (a[k..] < OPEN || a[k..] < CLOSE)
  }

  // ----- Tokens of concatenations -----

  function TagToken(tag: string): Token
    requires IsTag(tag)
  {
    if tag == OPEN then Open else Close
  }

  /** A tag in the text is a token of its own, whatever surrounds it. */
  lemma {:induction false} TokenizeAround(a: string, tag: string, b: string)
    requires IsTag(tag)
    ensures Tokenize(a + tag + b) == Tokenize(a) + [TagToken(tag)] + Tokenize(b)
    decreases |a|
  {
    hide HeadToken, HeadSize, TagAt;
    var s := a + tag + b;
    if a == "" {
      HeadIsTag(tag, b);
      assert s == tag + b;
    } else {
      var n := HeadSize(a);
      HeadKept(a, tag, b);
      assert s[n..] == a[n..] + tag + b;
      TokenizeAround(a[n..], tag, b);
    }
  }

  lemma HeadIsTag(tag: string, b: string)
    requires IsTag(tag)
    ensures HeadToken(tag + b) == TagToken(tag) && HeadSize(tag + b) == |tag| && (tag + b)[|tag|..] == b
  {
    var s := tag + b;
    assert s[..|tag|] == tag;
    assert OccursAt(s, tag, 0);
    if TagAt(s, OPEN) { TagsApart(s, OPEN, 0, tag, 0); }
  }

  lemma HeadKept(a: string, tag: string, b: string)
    requires IsTag(tag) && a != ""
    ensures HeadToken(a + tag + b) == HeadToken(a) && HeadSize(a + tag + b) == HeadSize(a)
  {
    HeadTag(a, tag, b, OPEN);
    HeadTag(a, tag, b, CLOSE);
    assert (a + tag + b)[0] == a[0];
  }

  /** Whether a begins with a tag is not changed by a whole tag behind it. */
  lemma HeadTag(a: string, tag: string, b: string, head: string)
    requires IsTag(tag) && IsTag(head) && a != ""
    ensures TagAt(a + tag + b, head) <==> TagAt(a, head)
  {
    var s := a + tag + b;
    assert s[|a|..|a| + |tag|] == tag;
    assert OccursAt(s, tag, |a|);
    if TagAt(s, head) {
      TagsApart(s, head, 0, tag, |a|);
      assert a[..|head|] == s[..|head|];
    }
    if TagAt(a, head) { assert s[..|head|] == a[..|head|]; }
  }

  lemma HeadJoin(a: string, b: string)
    requires !Dangling(a) && a != ""
    ensures HeadToken(a + b) == HeadToken(a) && HeadSize(a + b) == HeadSize(a)
  {
    SeamTag(a, b, OPEN);
    SeamTag(a, b, CLOSE);
    assert (a + b)[0] == a[0];
  }

  /** Tokens of a concatenation, if no tag is completed across the seam. */
  lemma {:induction false} TokenizeJoin(a: string, b: string)
    requires !Dangling(a)
    ensures Tokenize(a + b) == Tokenize(a) + Tokenize(b)
    decreases |a|
  {
    hide HeadToken, HeadSize, TagAt, Dangling;
    if a == "" {
      assert a + b == b;
    } else {
      var n := HeadSize(a);
      HeadJoin(a, b);
      assert (a + b)[n..] == a[n..] + b;
      DanglingTail(a, n);
      TokenizeJoin(a[n..], b);
    }
  }

  lemma DanglingTail(a: string, n: nat)
    requires n <= |a|
    ensures Dangling(a[n..]) ==> Dangling(a)
  {
    if Dangling(a[n..]) {
      var k :| 0 <= k < |a[n..]| && (a[n..][k..] < OPEN || a[n..][k..] < CLOSE);
      assert a[n..][k..] == a[n + k..];
    }
  }

  lemma SeamTag(a: string, b: string, head: string)
    requires IsTag(head) && a != "" && !Dangling(a)
    ensures TagAt(a + b, head) <==> TagAt(a, head)
  {
    var s := a + b;
    if TagAt(s, head) {
      SeamDangles(a, b, head);
      assert a[..|head|] == s[..|head|];
    }
    if TagAt(a, head) { assert s[..|head|] == a[..|head|]; }
  }

  lemma SeamDangles(a: string, b: string, head: string)
    requires IsTag(head) && a != "" && TagAt(a + b, head)
    ensures |a| < |head| ==> Dangling(a)
  {
    if |a| < |head| {
      assert a[0..] == a;
      assert a == (a + b)[..|head|][..|a|];
    }
  }
}
