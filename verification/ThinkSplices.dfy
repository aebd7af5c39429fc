/** A simple test on the text that makes the exact conditions hold: no opening tag behind an unfinished tag. */
module ThinkSplices {
  import opened Text
  import opened ThinkMeaning
  import opened ThinkReading
  import opened ThinkTags
  import opened ThinkTokens

  /** No opening tag directly follows an unfinished tag: deleting it could complete that one. */
  ghost predicate NoSplice(text: string) {
    forall i :: OccursAt(text, OPEN, i) ==> !Dangling(text[..i])
  }

  // ----- Where splices cannot come from -----

  lemma NoSpliceSlice(text: string, from: nat, to: nat)
    requires from <= to <= |text| && NoSplice(text)
    ensures NoSplice(text[from..to])
  {
    var s := text[from..to];
    forall i | OccursAt(s, OPEN, i) ensures !Dangling(s[..i]) {
      SliceOccurs(text, OPEN, from, to, i);
      assert s[..i] == text[..from + i][from..];
      DanglingTail(text[..from + i], from);
    }
  }

  lemma DanglingHead(a: string, b: string, k: nat)
    requires k < |a| && ((a + b)[k..] < OPEN || (a + b)[k..] < CLOSE)
    ensures Dangling(a)
  {
    assert a[k..] <= (a + b)[k..];
  }

  lemma DanglingSeam(a: string, b: string)
    requires !Dangling(a) && Dangling(a + b)
    ensures Dangling(b)
  {
    var k :| 0 <= k < |a + b| && ((a + b)[k..] < OPEN || (a + b)[k..] < CLOSE);
    if k < |a| {
      DanglingHead(a, b, k);
    } else {
      assert (a + b)[k..] == b[k - |a|..];
    }
  }

  lemma OpenAcrossSeam(a: string, b: string, i: nat)
    requires i < |a| < i + |OPEN| && OccursAt(a + b, OPEN, i)
    ensures Dangling(a)
  {
    assert a[i..] == (a + b)[i..i + |OPEN|][..|a| - i];
    assert a[i..] == OPEN[..|a| - i];
  }

  /** An opening tag behind a cut was there before, and so was what stands in front of it. */
  lemma OpenBehindCut(text: string, start: nat, j: nat, i: nat)
    requires NoSplice(text) && start <= j <= |text| && !Dangling(text[..start])
    requires OccursAt(text[..start] + text[j..], OPEN, i) && start <= i
    ensures !Dangling((text[..start] + text[j..])[..i])
  {
    hide Dangling;
    var a, b := text[..start], text[j..];
    var q := j + (i - start);
    assert text[q..q + |OPEN|] == (a + b)[i..i + |OPEN|];
    assert (a + b)[..i] == a + b[..i - start];
    assert b[..i - start] == text[..q][j..];
    DanglingTail(text[..q], j);
    if Dangling(a + b[..i - start]) { DanglingSeam(a, b[..i - start]); }
  }

  lemma OpenBeforeCut(text: string, start: nat, j: nat, i: nat)
    requires NoSplice(text) && start <= j <= |text| && !Dangling(text[..start])
    requires OccursAt(text[..start] + text[j..], OPEN, i) && i < start
    ensures !Dangling((text[..start] + text[j..])[..i])
  {
    hide Dangling;
    var a, b := text[..start], text[j..];
    if i + |OPEN| <= start {
      assert (a + b)[i..i + |OPEN|] == text[i..i + |OPEN|];
      assert (a + b)[..i] == text[..i];
    } else {
      OpenAcrossSeam(a, b, i);
    }
  }

  /** Cutting a stretch that begins with an opening tag brings no two pieces of a tag together. */
  lemma NoSpliceCut(text: string, start: nat, j: nat)
    requires NoSplice(text) && OccursAt(text, OPEN, start) && start + |OPEN| <= j <= |text|
    ensures !Dangling(text[..start])
    ensures NoSplice(text[..start] + text[j..])
  {
    hide Dangling;
    forall i | OccursAt(text[..start] + text[j..], OPEN, i) ensures !Dangling((text[..start] + text[j..])[..i]) {
      if i < start { OpenBeforeCut(text, start, j, i); } else { OpenBehindCut(text, start, j, i); }
    }
  }

  // ----- The first pass -----

  /** One round of the loop cuts the first span of the token list. */
  lemma RoundDropsSpan(text: string, start: nat, end: nat)
    requires NoSplice(text) && Index(text, OPEN) == start
    requires IndexFrom(text, CLOSE, start + |OPEN|) == end
    ensures DropSpans(Tokenize(text)) == DropSpans(Tokenize(text[..start] + text[end + |CLOSE|..]))
    ensures NoSplice(text[..start] + text[end + |CLOSE|..])
  {
    hide Tokenize, DropSpans, NoSplice, OccursAt;
    IndexBounds(text, OPEN, 0);
    IndexBounds(text, CLOSE, start + |OPEN|);
    SpanTokens(text, start, end);
    SpanLacks(text, start, end);
    DropFirstSpan(Tokenize(text[..start]), Tokenize(text[start + |OPEN|..end]), Tokenize(text[end + |CLOSE|..]));
    NoSpliceCut(text, start, end + |CLOSE|);
    TokenizeJoin(text[..start], text[end + |CLOSE|..]);
  }

  lemma {:induction false} StripWithoutSplices(text: string)
    requires NoSplice(text)
    ensures Tokenize(Strip(text)) == DropSpans(Tokenize(text))
    ensures NoSplice(Strip(text))
    decreases |text|
  {
    hide Tokenize, DropSpans, OccursAt, NoSplice, Contains;
    IndexBounds(text, OPEN, 0);
    var start := Index(text, OPEN);
    if start == -1 {
      TagIsToken(text, OPEN);
      DropNothing(Tokenize(text));
    } else {
      IndexBounds(text, CLOSE, start + |OPEN|);
      var end := IndexFrom(text, CLOSE, start + |OPEN|);
      if end == -1 {
        UnclosedTail(text, start);
      } else {
        RoundDropsSpan(text, start, end);
        StripWithoutSplices(text[..start] + text[end + |CLOSE|..]);
      }
    }
  }

  // ----- The later passes -----

  lemma OpenSplit(a: string, i: nat)
    requires NoSplice(a) && !Contains(a, CLOSE) && Index(a, OPEN) == i
    ensures i + |OPEN| <= |a| && TagFree(a[..i]) && !Dangling(a[..i])
    ensures NoSplice(a[i + |OPEN|..]) && !Contains(a[i + |OPEN|..], CLOSE)
  {
    TailLacks(a, CLOSE, i + |OPEN|);
    NoSpliceTail(a, i + |OPEN|);
    PrefixLacks(a, OPEN, i);
    LacksBefore(a, CLOSE, i);
  }

  /** Under NoSplice, removing opening tags uncovers no tag. */
  lemma {:induction false} RemovingOpensIsClean(a: string)
    requires NoSplice(a) && !Contains(a, CLOSE)
    ensures TagFree(ReplaceAll(a, OPEN, ""))
    decreases |a|
  {
    hide Contains, OccursAt, NoSplice, Dangling, TagFree;
    var i := Index(a, OPEN);
    if i == -1 {
      OpenLacking(a);
    } else {
      OpenSplit(a, i);
      RemovingOpensIsClean(a[i + |OPEN|..]);
      assert a[..i] + "" + ReplaceAll(a[i + |OPEN|..], OPEN, "") == a[..i] + ReplaceAll(a[i + |OPEN|..], OPEN, "");
      TagFreeJoin(a[..i], ReplaceAll(a[i + |OPEN|..], OPEN, ""));
    }
  }

  lemma OpenLacking(a: string)
    requires Index(a, OPEN) == -1 && !Contains(a, CLOSE)
    ensures TagFree(a)
  {
  }

  lemma TagFreeJoin(a: string, b: string)
    requires TagFree(a) && TagFree(b) && !Dangling(a)
    ensures TagFree(a + b)
  {
    hide Tokenize, Contains;
    TokenizeJoin(a, b);
    TagIsToken(a, OPEN);
    TagIsToken(a, CLOSE);
    TagIsToken(b, OPEN);
    TagIsToken(b, CLOSE);
    TagIsToken(a + b, OPEN);
    TagIsToken(a + b, CLOSE);
  }

  lemma NoSpliceTail(text: string, from: nat)
    requires from <= |text| && NoSplice(text)
    ensures NoSplice(text[from..])
  {
    assert text[from..] == text[from..|text|];
    NoSpliceSlice(text, from, |text|);
  }

  lemma NoSpliceHead(text: string, to: nat)
    requires to <= |text| && NoSplice(text)
    ensures NoSplice(text[..to])
  {
    assert text[..to] == text[0..to];
    NoSpliceSlice(text, 0, to);
  }

  lemma TrimKeepsTagFree(s: string)
    requires TagFree(s)
    ensures TagFree(TrimSpace(s))
  {
    var from, to := TrimSpaceSlice(s);
    SliceLacks(s, OPEN, from, to);
    SliceLacks(s, CLOSE, from, to);
  }

  lemma SliceLacks(s: string, p: string, from: nat, to: nat)
    requires from <= to <= |s| && !Contains(s, p)
    ensures !Contains(s[from..to], p)
  {
    if k :| 0 <= k <= |s[from..to]| && OccursAt(s[from..to], p, k) {
      SliceOccurs(s, p, from, to, k);
    }
  }

  lemma {:induction false} AnswerIsClean(text: string)
    requires NoSplice(text)
    ensures TagFree(FirstAnswer(Split(text, CLOSE), 0))
    ensures Trimmed(FirstAnswer(Split(text, CLOSE), 0))
    decreases |text|
  {
    hide NoSplice, TrimSpace, Trimmed;
    var i := Index(text, CLOSE);
    var a := if i == -1 then text else text[..i];
    if i == -1 {
      FirstAnswerShift(text, [], 0);
    } else {
      PrefixLacks(text, CLOSE, i);
      NoSpliceHead(text, i);
      NoSpliceTail(text, i + |CLOSE|);
      AnswerIsClean(text[i + |CLOSE|..]);
      FirstAnswerShift(a, Split(text[i + |CLOSE|..], CLOSE), 0);
    }
    RemovingOpensIsClean(a);
    TrimKeepsTagFree(ReplaceAll(a, OPEN, ""));
    TrimSpaceEdges(ReplaceAll(a, OPEN, ""));
    TrimSpaceEdges("");
  }

  // ----- Line ends -----

  lemma TagHasNoNewline(s: string, p: string, i: int, k: int)
    requires IsTag(p) && OccursAt(s, p, i) && i <= k < i + |p|
    ensures s[k] != '\n'
  {
    OccursChars(s, p, i);
    assert s[i + (k - i)] == p[k - i];
  }

  /** A newline in front of a text completes nothing. */
  lemma NewlineGuards(a: string, b: string)
    requires NoSplice(a) && NoSplice(b)
    ensures NoSplice(a + "\n" + b)
  {
    var s := a + "\n" + b;
    assert s[|a|] == '\n';
    forall i | OccursAt(s, OPEN, i) ensures !Dangling(s[..i]) {
      if i <= |a| {
        if i + |OPEN| > |a| { TagHasNoNewline(s, OPEN, i, |a|); }
        assert a[i..i + |OPEN|] == s[i..i + |OPEN|];
        assert s[..i] == a[..i];
      } else {
        var q := i - |a| - 1;
        assert b[q..q + |OPEN|] == s[i..i + |OPEN|];
        assert s[..i] == (a + "\n") + b[..q];
        EndsInNewline(a);
        if Dangling(s[..i]) { DanglingSeam(a + "\n", b[..q]); }
      }
    }
  }

  lemma EndsInNewline(a: string)
    ensures !Dangling(a + "\n")
  {
    var s := a + "\n";
    forall k, tag | 0 <= k < |s| && IsTag(tag) ensures !(s[k..] < tag) {
      var last := |s| - 1 - k;
      assert s[k..][last] == '\n';
    }
    assert IsTag(OPEN) && IsTag(CLOSE);
  }

  lemma {:induction false} NormalizeKeepsNoSplice(text: string)
    requires NoSplice(text)
    ensures NoSplice(Normalize(text))
    decreases |text|
  {
    hide NoSplice;
    var i := Index(text, "\r\n");
    if i != -1 {
      NoSpliceHead(text, i);
      NoSpliceTail(text, i + 2);
      NormalizeKeepsNoSplice(text[i + 2..]);
      NewlineGuards(text[..i], Normalize(text[i + 2..]));
    }
  }

  // ----- The whole -----

  lemma KeptReads(text: string)
    requires NoSplice(text)
    ensures ReadsBack(Kept(text)) && Tokenize(Strip(Normalize(text))) == Kept(text) && NoSplice(Strip(Normalize(text)))
  {
    hide NoSplice, Tokenize, Strip, DropSpans, ReadsBack, Normalize;
    NormalizeKeepsNoSplice(text);
    StripWithoutSplices(Normalize(text));
    TokensReadBack(Strip(Normalize(text)));
  }

  /** On every text in which no opening tag follows an unfinished tag, the answer is the meaning, and it
      holds no tag and no blank edge. */
  lemma SanitizeWithoutSplices(text: string)
    requires NoSplice(text)
    ensures ReadsBack(Kept(text))
    ensures Sanitize(text) == TokenMeaning(text)
    ensures TagFree(Sanitize(text)) && Trimmed(Sanitize(text))
  {
    hide NoSplice, Tokenize, Strip, TrimSpace, Trimmed, Contains, ReadsBack, Letters, ReplaceAll, LastPasses, Normalize;
    KeptReads(text);
    var s := Strip(Normalize(text));
    SanitizeMeaning(text);
    TagIsToken(s, CLOSE);
    if Close in Kept(text) {
      AnswersAgree(s);
      AnswerIsClean(s);
    } else {
      RemovingOpensLeavesLetters(s);
      RemovingOpensIsClean(s);
      TrimKeepsTagFree(Letters(Kept(text)));
      TrimSpaceEdges(Letters(Kept(text)));
    }
  }

  /** Texts that hold no '<' but those of whole tags are of this kind. */
  lemma WholeTagsOnly(text: string)
    requires forall i :: 0 <= i < |text| && text[i] == '<' ==> OccursAt(text, OPEN, i) || OccursAt(text, CLOSE, i)
    ensures NoSplice(text)
  {
    forall i | OccursAt(text, OPEN, i) ensures !Dangling(text[..i]) {
      forall k, tag | 0 <= k < i && IsTag(tag) ensures !(text[..i][k..] < tag) { NoPiece(text, i, k, tag); }
      assert IsTag(OPEN) && IsTag(CLOSE);
    }
  }

  lemma NoPiece(text: string, i: int, k: nat, tag: string)
    requires OccursAt(text, OPEN, i) && k < i && IsTag(tag)
    requires text[k] == '<' ==> OccursAt(text, OPEN, k) || OccursAt(text, CLOSE, k)
    ensures !(text[..i][k..] < tag)
  {
    var piece := text[..i][k..];
    if piece < tag {
      assert piece[0] == tag[0] == '<' && piece[0] == text[k];
      WholePiece(text, i, k, tag);
    }
  }

  lemma WholePiece(text: string, i: int, k: nat, tag: string)
    requires OccursAt(text, OPEN, i) && k < i && IsTag(tag)
    requires OccursAt(text, OPEN, k) || OccursAt(text, CLOSE, k)
    ensures !(text[..i][k..] < tag)
  {
    var there := if OccursAt(text, OPEN, k) then OPEN else CLOSE;
    TagsApart(text, OPEN, i, there, k);
    OccursChars(text, there, k);
    assert text[k + 1] == there[1];
    assert text[..i][k..][1] == text[k + 1];
    assert |text[..i][k..]| >= |there|;
  }
}
