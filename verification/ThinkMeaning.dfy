/** When the string passes compute the token meaning, exactly. */
module ThinkMeaning {
  import opened Text
  import opened ThinkReading
  import opened ThinkTags
  import opened ThinkTokens

  // ----- Occurrences and tokens -----

  /** A tag occurs in the text exactly when it is one of its tokens. */
  lemma {:induction false} TagIsToken(s: string, tag: string)
    requires IsTag(tag)
    ensures Contains(s, tag) <==> TagToken(tag) in Tokenize(s)
    decreases |s|
  {
    if Contains(s, tag) {
      var i :| 0 <= i <= |s| && OccursAt(s, tag, i);
      Surround(s, tag, i);
      TokenizeAround(s[..i], tag, s[i + |tag|..]);
    } else if s != "" {
      var n := HeadSize(s);
      if Contains(s[n..], tag) {
        var i :| 0 <= i <= |s[n..]| && OccursAt(s[n..], tag, i);
        TailOccurs(s, tag, n, i);
      }
      assert !OccursAt(s, tag, 0);
      TagIsToken(s[n..], tag);
    }
  }

  ghost predicate TagFree(s: string) { !Contains(s, OPEN) && !Contains(s, CLOSE) }

  lemma {:induction false} LettersConcat(a: seq<Token>, b: seq<Token>)
    ensures Letters(a + b) == Letters(a) + Letters(b)
  {
    if a == [] {
      assert a + b == b;
    } else {
      hide Letters;
      LettersConcat(a[1..], b);
      TailOfConcat(a, b);
      FirstLetter(a);
      FirstLetter(a + b);
      Associates(if a[0].Lit? then [a[0].c] else "", Letters(a[1..]), Letters(b));
    }
  }

  lemma FirstLetter(ts: seq<Token>)
    requires ts != []
    ensures Letters(ts) == (if ts[0].Lit? then [ts[0].c] else "") + Letters(ts[1..])
  {
  }

  lemma {:induction false} LettersOfTagFree(s: string)
    requires TagFree(s)
    ensures Letters(Tokenize(s)) == s
    ensures Open !in Tokenize(s) && Close !in Tokenize(s)
    decreases |s|
  {
    if s != "" {
      assert !TagAt(s, OPEN) && !TagAt(s, CLOSE);
      TailLacks(s, OPEN, 1);
      TailLacks(s, CLOSE, 1);
      LettersOfTagFree(s[1..]);
    }
  }

  lemma LacksBefore(s: string, p: string, i: nat)
    requires i <= |s| && p != "" && !Contains(s, p)
    ensures !Contains(s[..i], p)
  {
    PrefixLacks(s, p, i);
  }

  lemma OpenTokens(text: string, start: nat)
    requires Index(text, OPEN) == start
    ensures Tokenize(text) == Tokenize(text[..start]) + ([Open] + Tokenize(text[start + |OPEN|..]))
    ensures Open !in Tokenize(text[..start])
  {
    hide Tokenize;
    Surround(text, OPEN, start);
    TokenizeAround(text[..start], OPEN, text[start + |OPEN|..]);
    PrefixLacks(text, OPEN, start);
    TagIsToken(text[..start], OPEN);
  }

  lemma LettersAroundOpen(a: seq<Token>, b: seq<Token>)
    ensures Letters(a + ([Open] + b)) == Letters(a) + Letters(b)
  {
    LettersConcat(a, [Open] + b);
    assert ([Open] + b)[1..] == b;
  }

  /** Removing the opening tags from a text without closing ones leaves its letters. */
  lemma {:induction false} RemovingOpensLeavesLetters(a: string)
    requires !Contains(a, CLOSE)
    ensures ReplaceAll(a, OPEN, "") == Letters(Tokenize(a))
    decreases |a|
  {
    hide Tokenize, Letters;
    var i := Index(a, OPEN);
    if i == -1 {
      LettersOfTagFree(a);
    } else {
      var x := a[i + |OPEN|..];
      OpenTokens(a, i);
      LettersAroundOpen(Tokenize(a[..i]), Tokenize(x));
      PrefixLacks(a, OPEN, i);
      LacksBefore(a, CLOSE, i);
      LettersOfTagFree(a[..i]);
      TailLacks(a, CLOSE, i + |OPEN|);
      RemovingOpensLeavesLetters(x);
    }
  }

  // ----- The first pass -----

  lemma {:induction false} DropNothing(ts: seq<Token>)
    requires Open !in ts || Close !in ts
    ensures DropSpans(ts) == ts
  {
    if ts != [] {
      assert forall t :: t in ts[1..] ==> t in ts;
      DropNothing(ts[1..]);
    }
  }

  lemma {:induction false} DropBehind(a: seq<Token>, b: seq<Token>)
    requires Open !in a
    ensures DropSpans(a + b) == a + DropSpans(b)
  {
    if a == [] {
      assert a + b == b;
    } else {
      assert (a + b)[1..] == a[1..] + b;
      DropBehind(a[1..], b);
      assert (a + b)[0] != Open;
    }
  }

  lemma {:induction false} PositionBehind(t: Token, a: seq<Token>, b: seq<Token>)
    requires t !in a
    ensures PositionOf(t, a + [t] + b) == |a|
  {
    if a == [] {
      assert a + [t] + b == [t] + b;
    } else {
      PositionBehind(t, a[1..], b);
      assert (a + [t] + b)[1..] == a[1..] + [t] + b;
      assert (a + [t] + b)[0] == a[0];
    }
  }

  lemma DropOneSpan(m: seq<Token>, b: seq<Token>)
    requires Close !in m
    ensures DropSpans([Open] + (m + [Close] + b)) == DropSpans(b)
  {
    var ts := [Open] + (m + [Close] + b);
    assert ts[1..] == m + [Close] + b;
    PositionBehind(Close, m, b);
    assert ts[1..][|m| + 1..] == b;
    assert Close in ts[1..];
  }

  lemma BehindOpen(text: string, from: nat, end: nat)
    requires from <= end && OccursAt(text, CLOSE, end)
    ensures text[from..] == text[from..end] + CLOSE + text[end + |CLOSE|..]
  {
    var n := end + |CLOSE|;
    assert text[from..] == text[from..n] + text[n..];
    assert text[from..n] == text[from..end] + text[end..n];
  }

  /** The tokens of a text around its first span. */
  lemma SpanTokens(text: string, start: nat, end: nat)
    requires Index(text, OPEN) == start && IndexFrom(text, CLOSE, start + |OPEN|) == end
    ensures Tokenize(text) == Tokenize(text[..start])
              + ([Open] + (Tokenize(text[start + |OPEN|..end]) + [Close] + Tokenize(text[end + |CLOSE|..])))
  {
    hide Tokenize, OccursAt;
    IndexBounds(text, OPEN, 0);
    IndexBounds(text, CLOSE, start + |OPEN|);
    var a, m, b := text[..start], text[start + |OPEN|..end], text[end + |CLOSE|..];
    Surround(text, OPEN, start);
    BehindOpen(text, start + |OPEN|, end);
    TokenizeAround(a, OPEN, m + CLOSE + b);
    TokenizeAround(m, CLOSE, b);
    Associates(Tokenize(a), [Open], Tokenize(m) + [Close] + Tokenize(b));
  }

  lemma SpanLacks(text: string, start: nat, end: nat)
    requires Index(text, OPEN) == start && IndexFrom(text, CLOSE, start + |OPEN|) == end
    ensures Open !in Tokenize(text[..start])
    ensures Close !in Tokenize(text[start + |OPEN|..end])
  {
    PrefixLacks(text, OPEN, start);
    TagIsToken(text[..start], OPEN);
    MiddleLacksClose(text, start + |OPEN|, end);
    TagIsToken(text[start + |OPEN|..end], CLOSE);
  }

  lemma DropFirstSpan(a: seq<Token>, m: seq<Token>, b: seq<Token>)
    requires Open !in a && Close !in m
    ensures DropSpans(a + ([Open] + (m + [Close] + b))) == DropSpans(a + b)
  {
    DropBehind(a, [Open] + (m + [Close] + b));
    DropBehind(a, b);
    DropOneSpan(m, b);
  }

  lemma MiddleLacksClose(text: string, from: nat, end: nat)
    requires from <= |text| && IndexFrom(text, CLOSE, from) == end
    ensures !Contains(text[from..end], CLOSE)
  {
    if Contains(text[from..end], CLOSE) {
      var k :| 0 <= k <= |text[from..end]| && OccursAt(text[from..end], CLOSE, k);
      SliceOccurs(text, CLOSE, from, end, k);
    }
  }

  /** Dropping spans behind the seam does not hide what is spelled across it. */
  lemma SeamReads(a: seq<Token>, b: seq<Token>)
    requires ReadsBack(a) && ReadsBack(b) && ReadsBack(a + DropSpans(b))
    ensures ReadsBack(a + b)
  {
    hide DropSpans, ReadsBack;
    forall i, tag | IsTag(tag) && Spells(a + b, tag, i) ensures false { NothingAcross(a, b, tag, i); }
    assert IsTag(OPEN) && IsTag(CLOSE);
    NoneSpelled(a + b);
  }

  lemma NoneSpelled(ts: seq<Token>)
    requires forall i, tag :: IsTag(tag) ==> !Spells(ts, tag, i)
    ensures ReadsBack(ts)
  {
    assert IsTag(OPEN) && IsTag(CLOSE);
  }

  lemma NothingAcross(a: seq<Token>, b: seq<Token>, tag: string, i: int)
    requires IsTag(tag) && ReadsBack(a) && ReadsBack(b) && ReadsBack(a + DropSpans(b))
    ensures !Spells(a + b, tag, i)
  {
    hide DropSpans;
    assert (a + b)[..|a|] == a && (a + b)[|a|..] == b;
    if Spells(a + b, tag, i) {
      if i + |tag| <= |a| {
        SpellsHead(a + b, tag, i, |a|);
      } else if i >= |a| {
        SpellsTail(a + b, tag, i, |a|);
      } else {
        StillSpelled(a, b, tag, i);
      }
    }
  }

  lemma StillSpelled(a: seq<Token>, b: seq<Token>, tag: string, i: int)
    requires Spells(a + b, tag, i) && i < |a| < i + |tag|
    ensures Spells(a + DropSpans(b), tag, i)
  {
    hide DropSpans;
    var n := i + |tag| - |a|;
    var q := b[..n];
    assert q == (a + b)[i..i + |tag|][|a| - i..];
    assert forall k :: 0 <= k < n ==> q[k] == Lits(tag)[|a| - i + k];
    assert Open !in q;
    assert b == q + b[n..];
    DropBehind(q, b[n..]);
    var kept := a + (q + DropSpans(b[n..]));
    assert kept[i..i + |tag|] == (a + q)[i..i + |tag|] == (a + b)[i..i + |tag|];
  }

  /** One round of the loop: the cut text has the tokens around the span, or what is kept spells a tag. */
  lemma RoundReads(text: string, start: nat, end: nat)
    requires Index(text, OPEN) == start && IndexFrom(text, CLOSE, start + |OPEN|) == end
    requires ReadsBack(DropSpans(Tokenize(text)))
    ensures DropSpans(Tokenize(text)) == DropSpans(Tokenize(text[..start] + text[end + |CLOSE|..]))
  {
    hide Tokenize, DropSpans, ReadsBack, Written;
    var a, b := text[..start], text[end + |CLOSE|..];
    var ta, tb := Tokenize(a), Tokenize(b);
    SpanTokens(text, start, end);
    SpanLacks(text, start, end);
    DropFirstSpan(ta, Tokenize(text[start + |OPEN|..end]), tb);
    DropBehind(ta, tb);
    TokensReadBack(a);
    TokensReadBack(b);
    SeamReads(ta, tb);
    WrittenConcat(ta, tb);
    WrittenTokenize(a);
    WrittenTokenize(b);
    ReadAgain(ta + tb);
  }

  lemma {:induction false} StripReadable(text: string)
    requires ReadsBack(DropSpans(Tokenize(text)))
    ensures Tokenize(Strip(text)) == DropSpans(Tokenize(text))
    decreases |text|
  {
    hide Tokenize, DropSpans, OccursAt, Contains, ReadsBack;
    IndexBounds(text, OPEN, 0);
    var start := Index(text, OPEN);
    if start == -1 {
      TagIsToken(text, OPEN);
      DropNothing(Tokenize(text));
    } else {
      IndexBounds(text, CLOSE, start + |OPEN|);
      var end := IndexFrom(text, CLOSE, start + |OPEN|);
      if end == -1 {
        UnclosedTail(text, start);
      } else {
        RoundReads(text, start, end);
        StripReadable(text[..start] + text[end + |CLOSE|..]);
      }
    }
  }

  /** On every text: cutting spans out of the string is dropping them from its tokens exactly when what
      is kept reads back, that is, when the cuts bring no pieces of a tag together. */
  lemma StripMeaning(text: string)
    ensures Tokenize(Strip(text)) == DropSpans(Tokenize(text)) <==> ReadsBack(DropSpans(Tokenize(text)))
  {
    hide Tokenize, DropSpans, ReadsBack, Strip;
    if Tokenize(Strip(text)) == DropSpans(Tokenize(text)) { TokensReadBack(Strip(text)); }
    if ReadsBack(DropSpans(Tokenize(text))) { StripReadable(text); }
  }

  lemma UnclosedTail(text: string, start: nat)
    requires Index(text, OPEN) == start && IndexFrom(text, CLOSE, start + |OPEN|) == -1
    ensures DropSpans(Tokenize(text)) == Tokenize(text)
  {
    var x := text[start + |OPEN|..];
    OpenTokens(text, start);
    if k :| 0 <= k <= |x| && OccursAt(x, CLOSE, k) {
      TailOccurs(text, CLOSE, start + |OPEN|, k);
    }
    TagIsToken(x, CLOSE);
    DropBehind(Tokenize(text[..start]), [Open] + Tokenize(x));
    DropNothing([Open] + Tokenize(x));
  }

  // ----- The second pass -----

  lemma {:induction false} FirstAnswerShift(part: string, parts: seq<string>, k: nat)
    requires k <= |parts|
    ensures FirstAnswer([part] + parts, k + 1) == FirstAnswer(parts, k)
    decreases |parts| - k
  {
    hide TrimSpace, ReplaceAll;
    if k < |parts| { FirstAnswerShift(part, parts, k + 1); }
  }

  lemma CloseTokens(text: string, i: nat)
    requires Index(text, CLOSE) == i
    ensures Close in Tokenize(text)
    ensures Segments(Tokenize(text)) == [Tokenize(text[..i])] + Segments(Tokenize(text[i + |CLOSE|..]))
  {
    hide Tokenize;
    var a, x := text[..i], text[i + |CLOSE|..];
    Surround(text, CLOSE, i);
    TokenizeAround(a, CLOSE, x);
    PrefixLacks(text, CLOSE, i);
    TagIsToken(a, CLOSE);
    var ts := Tokenize(a) + [Close] + Tokenize(x);
    PositionBehind(Close, Tokenize(a), Tokenize(x));
    assert ts[..|Tokenize(a)|] == Tokenize(a);
    assert ts[|Tokenize(a)| + 1..] == Tokenize(x);
  }

  lemma NoCloseNoSegments(ts: seq<Token>)
    requires Close !in ts
    ensures Segments(ts) == [ts]
  {
  }

  /** Splitting at closing tags and taking the first answer, on strings and on tokens. */
  lemma {:induction false} AnswersAgree(text: string)
    ensures FirstAnswer(Split(text, CLOSE), 0) == FirstNonBlank(Segments(Tokenize(text)))
    decreases |text|
  {
    hide Tokenize, Letters, TrimSpace, ReplaceAll, Segments;
    var i := Index(text, CLOSE);
    if i == -1 {
      TagIsToken(text, CLOSE);
      RemovingOpensLeavesLetters(text);
      assert Split(text, CLOSE) == [text];
      FirstAnswerShift(text, [], 0);
      NoCloseNoSegments(Tokenize(text));
      assert FirstNonBlank([Tokenize(text)][1..]) == "";
    } else {
      var a, x := text[..i], text[i + |CLOSE|..];
      CloseTokens(text, i);
      PrefixLacks(text, CLOSE, i);
      RemovingOpensLeavesLetters(a);
      AnswersAgree(x);
      FirstAnswerShift(a, Split(x, CLOSE), 0);
      var rest := Segments(Tokenize(x));
      assert ([Tokenize(a)] + rest)[1..] == rest;
    }
  }

  // ----- The whole -----

  /** The last passes leave a trimmed text alone exactly when it holds no tag. */
  lemma LastPassesExactly(o: string)
    requires Trimmed(o)
    ensures LastPasses(o) == o <==> TagFree(o)
  {
    hide Contains, TrimSpace, ReplaceAll;
    var r := ReplaceAll(o, OPEN, "");
    if TagFree(o) {
      NotContained(o, OPEN);
      NotContained(o, CLOSE);
      TrimSpaceEdges(o);
    } else {
      ReplaceBounds(o, OPEN, "", 'x');
      ReplaceBounds(r, CLOSE, "", 'x');
      TrimBounds(ReplaceAll(r, CLOSE, ""), 'x');
      if !Contains(o, OPEN) { NotContained(o, OPEN); }
    }
  }

  lemma {:induction false} AnswerTrimmed(segments: seq<seq<Token>>)
    ensures Trimmed(FirstNonBlank(segments))
  {
    hide Letters, TrimSpace, Trimmed;
    if segments == [] {
      TrimSpaceEdges("");
      EmptyTrimmed();
    } else {
      TrimSpaceEdges(Letters(segments[0]));
      AnswerTrimmed(segments[1..]);
    }
  }

  lemma EmptyTrimmed()
    ensures Trimmed("")
  {
  }

  /** Removing closing tags shows, also after trimming. */
  lemma RemovalShows(r: string)
    ensures TrimSpace(ReplaceAll(r, CLOSE, "")) == TrimSpace(r) <==> !Contains(r, CLOSE)
  {
    hide Contains, TrimSpace, ReplaceAll, Tally, IsSpace;
    if Contains(r, CLOSE) {
      NoSpaceInTags();
      RemovalTally(r, CLOSE, '<');
      TrimTally(r, '<');
      TrimTally(ReplaceAll(r, CLOSE, ""), '<');
    } else {
      NotContained(r, CLOSE);
    }
  }

  lemma NoSpaceInTags()
    ensures !IsSpace('<') && '<' in CLOSE
  {
    assert CLOSE[0] == '<';
  }

  lemma LeftIsKept(text: string)
    ensures Left(text) == Kept(text) <==> ReadsBack(Kept(text))
  {
    hide Tokenize, Strip, DropSpans, ReadsBack;
    StripMeaning(Normalize(text));
  }

  /** On every text: the answer is the meaning of the tokens that are left exactly when that meaning holds no
      tag, or, if no closing tag leaked, when their letters spell no closing tag. */
  lemma LeftMeaning(text: string)
    ensures Sanitize(text) == MeaningOf(Left(text))
            <==> if Close in Left(text) then TagFree(MeaningOf(Left(text))) else !Contains(Letters(Left(text)), CLOSE)
  {
    hide Tokenize, Strip, TrimSpace, Trimmed, Contains, ReplaceAll, Letters, LastPasses;
    var s := Strip(Normalize(text));
    TagIsToken(s, CLOSE);
    if Close in Left(text) {
      AnswersAgree(s);
      AnswerTrimmed(Segments(Left(text)));
      LastPassesExactly(MeaningOf(Left(text)));
    } else {
      RemovingOpensLeavesLetters(s);
      NoLeak(s);
      RemovalShows(Letters(Left(text)));
    }
  }

  /** On every text whose kept tokens read back: the answer is the meaning of the text, exactly when the same
      holds of the kept tokens. */
  lemma SanitizeMeaning(text: string)
    requires ReadsBack(Kept(text))
    ensures Sanitize(text) == TokenMeaning(text)
            <==> if Close in Kept(text) then TagFree(TokenMeaning(text)) else !Contains(Letters(Kept(text)), CLOSE)
  {
    hide Left, Kept, MeaningOf, Sanitize, Letters, TagFree, Contains, ReadsBack;
    LeftMeaning(text);
    LeftIsKept(text);
  }

  lemma NoLeak(s: string)
    requires !Contains(s, CLOSE)
    ensures LastPasses(StripLeaked(s)) == TrimSpace(ReplaceAll(ReplaceAll(s, OPEN, ""), CLOSE, ""))
  {
  }

  /** The chain of passes; its answer is the meaning of the text under the condition above. */
  method SanitizeModelOutput(input: string) returns (text: string)
    ensures text == Sanitize(input)
    ensures text == MeaningOf(Left(input))
            <==> if Close in Left(input) then TagFree(MeaningOf(Left(input)))
                 else !Contains(Letters(Left(input)), CLOSE)
    ensures ReadsBack(Kept(input)) ==>
              (text == TokenMeaning(input)
               <==> if Close in Kept(input) then TagFree(TokenMeaning(input))
                    else !Contains(Letters(Kept(input)), CLOSE))
  {
    hide Strip, StripLeaked, ReplaceAll, TrimSpace, ReadsBack, Kept, TokenMeaning, Contains, Letters, Left, MeaningOf;
    LeftMeaning(input);
    text := ReplaceAll(input, "\r\n", "\n");
    text := StripBalancedThinkBlocks(text);
    text := StripLeakedThinkClosures(text);
    text := ReplaceAll(text, OPEN, "");
    text := ReplaceAll(text, CLOSE, "");
    text := TrimSpace(text);
    if ReadsBack(Kept(input)) { SanitizeMeaning(input); }
  }
}
