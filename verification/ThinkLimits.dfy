/** What cleaning never adds, cleaning twice, and the inputs on which cleaning and meaning part. */
module ThinkLimits {
  import opened Text
  import opened ThinkMeaning
  import opened ThinkReading
  import opened ThinkResidue
  import opened ThinkSplices
  import opened ThinkTags
  import opened ThinkTokens

  // ----- No pass invents a character or lengthens the text -----

  lemma {:induction false} SubsequenceChars(r: string, s: string, c: char)
    requires Subsequence(r, s) && c in r
    ensures c in s
    decreases |s|
  {
    if r[0] == s[0] && Subsequence(r[1..], s[1..]) {
      if c != r[0] { SubsequenceChars(r[1..], s[1..], c); }
    } else {
      SubsequenceChars(r, s[1..], c);
    }
  }

  lemma PartBounds(a: string, c: char)
    ensures var r := TrimSpace(ReplaceAll(a, OPEN, "")); |r| <= |a| && (c in r ==> c in a)
  {
    ReplaceBounds(a, OPEN, "", c);
    TrimBounds(ReplaceAll(a, OPEN, ""), c);
  }

  lemma {:induction false} AnswerBounds(text: string, c: char)
    ensures var r := FirstAnswer(Split(text, CLOSE), 0);
            |r| <= |text| && (Contains(text, CLOSE) ==> |r| < |text|) && (c in r ==> c in text)
    decreases |text|
  {
    hide TrimSpace, ReplaceAll, OccursAt, Contains;
    IndexBounds(text, CLOSE, 0);
    var i := Index(text, CLOSE);
    if i == -1 {
      PartBounds(text, c);
      FirstAnswerShift(text, [], 0);
      assert Split(text, CLOSE) == [text] + [];
    } else {
      var a, x := text[..i], text[i + |CLOSE|..];
      PartBounds(a, c);
      AnswerBounds(x, c);
      FirstAnswerShift(a, Split(x, CLOSE), 0);
      assert (c in a ==> c in text) && (c in x ==> c in text);
    }
  }

  lemma LeakedBounds(s: string, c: char)
    ensures |StripLeaked(s)| <= |s| && (Contains(s, CLOSE) ==> |StripLeaked(s)| < |s|)
    ensures c in StripLeaked(s) ==> c in s
  {
    hide Contains, FirstAnswer, Split;
    AnswerBounds(s, c);
  }

  lemma LastBounds(s: string, c: char)
    ensures |LastPasses(s)| <= |s| && (Contains(s, OPEN) ==> |LastPasses(s)| < |s|)
    ensures c in LastPasses(s) ==> c in s
  {
    hide Contains, TrimSpace, ReplaceAll;
    ReplaceBounds(s, OPEN, "", c);
    ReplaceBounds(ReplaceAll(s, OPEN, ""), CLOSE, "", c);
    TrimBounds(ReplaceAll(ReplaceAll(s, OPEN, ""), CLOSE, ""), c);
  }

  lemma StripBounds(s: string, c: char)
    ensures |Strip(s)| <= |s| && (c in Strip(s) ==> c in s)
    ensures |Strip(s)| == |s| ==> Strip(s) == s
  {
    hide Subsequence;
    StripDeletes(s);
    if c in Strip(s) { SubsequenceChars(Strip(s), s, c); }
    if Rounds(s) == 0 { assert Strip(s) == s; }
  }

  /** Every character of the answer is one of the text's, or the newline of a normalised line end. */
  lemma SanitizeBounds(text: string, c: char)
    ensures |Sanitize(text)| <= |Normalize(text)| <= |text|
    ensures c in Sanitize(text) ==> c in text || c == '\n'
  {
    hide Strip, StripLeaked, LastPasses, ReplaceAll;
    var n := Normalize(text);
    ReplaceBounds(text, "\r\n", "\n", c);
    StripBounds(n, c);
    LeakedBounds(Strip(n), c);
    LastBounds(StripLeaked(Strip(n)), c);
  }

  // ----- Cleaning twice -----

  lemma TagFreeFixed(o: string)
    requires TagFree(o) && Trimmed(o) && !Contains(o, "\r\n")
    ensures Sanitize(o) == o
  {
    hide LastPasses, Trimmed;
    NotContained(o, "\r\n");
    NotContained(o, OPEN);
    LastPassesExactly(o);
  }

  /** A text that cleaning would change is shortened by it. */
  lemma ChangedIsShorter(o: string)
    requires !TagFree(o) || Contains(o, "\r\n")
    ensures |Sanitize(o)| < |o|
  {
    hide Strip, StripLeaked, LastPasses, Contains, ReplaceAll;
    var n := Normalize(o);
    ReplaceBounds(o, "\r\n", "\n", 'x');
    StripBounds(n, 'x');
    LeakedBounds(Strip(n), 'x');
    LastBounds(StripLeaked(Strip(n)), 'x');
    if !Contains(o, "\r\n") {
      NormalizeFixed(o);
      if |Strip(n)| == |o| && !Contains(o, CLOSE) { NothingLeaked(o); }
    }
  }

  lemma NormalizeFixed(s: string)
    requires !Contains(s, "\r\n")
    ensures Normalize(s) == s
  {
  }

  lemma NothingLeaked(s: string)
    requires !Contains(s, CLOSE)
    ensures StripLeaked(s) == s
  {
  }

  lemma SanitizeTrimmed(text: string)
    ensures Trimmed(Sanitize(text))
  {
    hide Trimmed, TrimSpace, ReplaceAll;
    var s := StripLeaked(Strip(Normalize(text)));
    TrimSpaceEdges(ReplaceAll(ReplaceAll(s, OPEN, ""), CLOSE, ""));
  }

  /** On every text: cleaning an answer again changes nothing exactly when it holds no tag and no carriage
      return in front of a newline. */
  lemma SanitizeTwice(text: string)
    ensures Sanitize(Sanitize(text)) == Sanitize(text)
            <==> TagFree(Sanitize(text)) && !Contains(Sanitize(text), "\r\n")
  {
    hide Sanitize, Contains, Trimmed;
    var o := Sanitize(text);
    SanitizeTrimmed(text);
    if TagFree(o) && !Contains(o, "\r\n") { TagFreeFixed(o); } else { ChangedIsShorter(o); }
  }

  /** The same on the tokens that are left of the text. */
  lemma SanitizeTwiceOnTokens(text: string)
    ensures var rest := Residue(Left(text));
            Sanitize(Sanitize(text)) == Sanitize(text)
            <==> Open !in rest && ReadsBack(rest) && !Contains(TrimSpace(Written(rest)), "\r\n")
  {
    hide Sanitize, Kept, Left, ReadsBack, Contains, Residue, Written, TrimSpace;
    SanitizeTwice(text);
    TagFreeExactly(text);
    SanitizeIsResidue(text);
  }

  lemma OccursHasFirst(s: string, p: string, i: int)
    requires OccursAt(s, p, i) && p != ""
    ensures p[0] in s
  {
    OccursChars(s, p, i);
    assert s[i + 0] == p[0];
  }

  /** Without carriage returns a text without splices is cleaned once and for all. */
  lemma SanitizeIdempotent(text: string)
    requires NoSplice(text) && '\r' !in text
    ensures Sanitize(Sanitize(text)) == Sanitize(text)
  {
    hide Sanitize, NoSplice, TagFree, ReadsBack, Kept, TokenMeaning, Trimmed;
    SanitizeTwice(text);
    SanitizeWithoutSplices(text);
    SanitizeBounds(text, '\r');
    var o := Sanitize(text);
    if i :| 0 <= i <= |o| && OccursAt(o, "\r\n", i) {
      OccursHasFirst(o, "\r\n", i);
    }
  }

  // ----- Inputs on which it changes again -----

  /** Texts whose kept tokens are plain characters come out as those characters. */
  lemma PlainOutcome(text: string, w: string)
    requires Kept(text) == Lits(w) && '<' !in w && Trimmed(w)
    ensures Sanitize(text) == w
  {
    hide Kept, Left, Sanitize, Tokenize, Written, Trimmed, TagFree, ReadsBack, Dropping, TrimSpace, Lits;
    TokenizeAllPlain(w);
    TokensReadBack(w);
    SanitizeIsResidue(text);
    NoCloseInLits(w);
    DroppingNothing(Lits(w), Open);
    DroppingNothing(Lits(w), Close);
    WrittenLits(w);
    TrimSpaceEdges(w);
  }

  lemma PlainKept(text: string)
    requires '<' !in Normalize(text)
    ensures Kept(text) == Lits(Normalize(text))
  {
    hide Tokenize, Lits, DropSpans, Normalize;
    TokenizeAllPlain(Normalize(text));
    NoCloseInLits(Normalize(text));
    DropNothing(Lits(Normalize(text)));
  }

  lemma FirstAt(s: string, p: string, from: nat, k: nat)
    requires from <= k && OccursAt(s, p, k)
    requires forall i :: from <= i < k ==> !OccursAt(s, p, i)
    ensures IndexFrom(s, p, from) == k && (from == 0 ==> Index(s, p) == k)
  {
  }

  /** One line end between texts without any. */
  lemma NormalizeOne(a: string, b: string)
    requires !Contains(a, "\r\n") && !Contains(b, "\r\n")
    ensures Normalize(a + "\r\n" + b) == a + "\n" + b
  {
    var s := a + "\r\n" + b;
    assert s[|a|..|a| + 2] == "\r\n" && s[|a| + 2..] == b && s[..|a|] == a;
    forall i | 0 <= i < |a| ensures !OccursAt(s, "\r\n", i) {
      if OccursAt(s, "\r\n", i) { LineEndInside(s, a, i); }
    }
    FirstAt(s, "\r\n", 0, |a|);
    NotReplaced(b);
  }

  lemma LineEndInside(s: string, a: string, i: nat)
    requires |a| < |s| && a <= s && s[|a|] == '\r' && i < |a| && OccursAt(s, "\r\n", i)
    ensures Contains(a, "\r\n")
  {
    OccursChars(s, "\r\n", i);
    assert s[i + 1] == "\r\n"[1];
    assert i + 2 <= |a|;
    assert a[i..i + 2] == s[i..i + 2];
    assert OccursAt(a, "\r\n", i);
  }

  lemma NotReplaced(b: string)
    requires !Contains(b, "\r\n")
    ensures ReplaceAll(b, "\r\n", "\n") == b
  {
  }

  /** A text that begins and ends with a visible character is trimmed. */
  predicate Bounded(a: string, b: string) {
    a != "" && b != "" && !IsSpace(a[0]) && !IsSpace(b[|b| - 1])
  }

  /** A doubled carriage return: the second cleaning takes what the first has left. */
  lemma DoubledReturn(a: string, b: string)
    requires '<' !in a && '<' !in b && Bounded(a, b)
    requires !Contains(a, "\r\n") && !Contains(b, "\r\n")
    ensures Sanitize(a + "\r\r\n" + b) == a + "\r\n" + b
    ensures Sanitize(a + "\r\n" + b) == a + "\n" + b
  {
    hide Normalize, Kept, Sanitize, Contains, Lits, IsSpace;
    ReturnBehind(a);
    NormalizeOne(a + "\r", b);
    assert (a + "\r") + "\r\n" + b == a + "\r\r\n" + b;
    assert (a + "\r") + "\n" + b == a + "\r\n" + b;
    PlainKept(a + "\r\r\n" + b);
    PlainOutcome(a + "\r\r\n" + b, a + "\r\n" + b);
    NormalizeOne(a, b);
    PlainKept(a + "\r\n" + b);
    PlainOutcome(a + "\r\n" + b, a + "\n" + b);
  }

  lemma ReturnBehind(a: string)
    requires !Contains(a, "\r\n")
    ensures !Contains(a + "\r", "\r\n")
  {
    var s := a + "\r";
    if i: nat :| i <= |s| && OccursAt(s, "\r\n", i) { LineEndInside(s, a, i); }
  }

  /** A span between a carriage return and a newline: removing it joins them to a line end. */
  lemma SpanJoinsLineEnd(a: string, x: string, b: string)
    requires '<' !in a && '<' !in b && Bounded(a, b) && !Contains(x, CLOSE)
    requires !Contains(a, "\r\n") && !Contains(b, "\r\n")
    requires !Contains(a + "\r" + OPEN + x + CLOSE + "\n" + b, "\r\n")
    ensures Sanitize(a + "\r" + OPEN + x + CLOSE + "\n" + b) == a + "\r\n" + b
    ensures Sanitize(a + "\r\n" + b) == a + "\n" + b
  {
    hide Normalize, Kept, Sanitize, Contains, Lits, IsSpace;
    assert a + "\r" + OPEN + x + CLOSE + "\n" + b == (a + "\r") + OPEN + x + CLOSE + ("\n" + b);
    SpanKept(a + "\r", x, "\n" + b);
    assert (a + "\r") + ("\n" + b) == a + "\r\n" + b;
    PlainOutcome(a + "\r" + OPEN + x + CLOSE + "\n" + b, a + "\r\n" + b);
    NormalizeOne(a, b);
    PlainKept(a + "\r\n" + b);
    PlainOutcome(a + "\r\n" + b, a + "\n" + b);
  }

  lemma SpanKept(h: string, x: string, t: string)
    requires '<' !in h && '<' !in t && !Contains(x, CLOSE)
    requires !Contains(h + OPEN + x + CLOSE + t, "\r\n")
    ensures Kept(h + OPEN + x + CLOSE + t) == Lits(h + t)
  {
    hide Tokenize, Lits, DropSpans, Contains, Normalize;
    NormalizeFixed(h + OPEN + x + CLOSE + t);
    TokenizeAllPlain(h);
    TokenizeAllPlain(t);
    NoCloseInLits(h);
    NoCloseInLits(t);
    SpanDropped(h, x, t);
    LitsConcat(h, t);
    NoCloseInLits(h + t);
    DropNothing(Lits(h + t));
  }

  /** A first span around x leaves the tokens before it, and what is kept of those behind it. */
  lemma SpanDropped(h: string, x: string, t: string)
    requires Open !in Tokenize(h) && !Contains(x, CLOSE)
    ensures DropSpans(Tokenize(h + OPEN + x + CLOSE + t)) == DropSpans(Tokenize(h) + Tokenize(t))
    ensures DropSpans(Tokenize(h) + Tokenize(t)) == Tokenize(h) + DropSpans(Tokenize(t))
  {
    hide Tokenize, DropSpans, Contains;
    TagTokens();
    assert h + OPEN + x + CLOSE + t == h + OPEN + (x + CLOSE + t);
    TokenizeAround(h, OPEN, x + CLOSE + t);
    TokenizeAround(x, CLOSE, t);
    TagIsToken(x, CLOSE);
    assert Tokenize(h) + [Open] + (Tokenize(x) + [Close] + Tokenize(t))
        == Tokenize(h) + ([Open] + (Tokenize(x) + [Close] + Tokenize(t)));
    DropFirstSpan(Tokenize(h), Tokenize(x), Tokenize(t));
    DropBehind(Tokenize(h), Tokenize(t));
  }

  // ----- Splices -----

  /** Wherever a first span stands inside a tag that is cut in two, whatever it holds and whatever stands
      around it: the kept tokens spell the tag, and stripping disagrees with them. */
  lemma EverySpliceMatters(a: string, tag: string, p: nat, x: string, b: string)
    requires IsTag(tag) && 0 < p < |tag| && !Contains(a, OPEN) && !Contains(x, CLOSE)
    ensures var text := a + tag[..p] + OPEN + x + CLOSE + tag[p..] + b;
            && !ReadsBack(DropSpans(Tokenize(text)))
            && Tokenize(Strip(text)) != DropSpans(Tokenize(text))
  {
    hide Tokenize, Lits, DropSpans, Contains, Strip, IsTag, ReadsBack;
    var text := a + tag[..p] + OPEN + x + CLOSE + tag[p..] + b;
    SpliceKept(a, tag, p, x, b);
    var rest := DropSpans(Tokenize(b));
    assert (Tokenize(a) + Lits(tag) + rest)[|Tokenize(a)|..|Tokenize(a)| + |tag|] == Lits(tag);
    assert Spells(Tokenize(a) + Lits(tag) + rest, tag, |Tokenize(a)|);
    SpelledIsNotRead(Tokenize(a) + Lits(tag) + rest, tag, |Tokenize(a)|);
    StripMeaning(text);
  }

  lemma SpelledIsNotRead(ts: seq<Token>, tag: string, i: int)
    requires IsTag(tag) && Spells(ts, tag, i)
    ensures !ReadsBack(ts)
  {
  }

  lemma SpliceKept(a: string, tag: string, p: nat, x: string, b: string)
    requires IsTag(tag) && 0 < p < |tag| && !Contains(a, OPEN) && !Contains(x, CLOSE)
    ensures DropSpans(Tokenize(a + tag[..p] + OPEN + x + CLOSE + tag[p..] + b))
            == Tokenize(a) + Lits(tag) + DropSpans(Tokenize(b))
  {
    hide Tokenize, Lits, DropSpans, Contains, IsTag;
    var h, t := a + tag[..p], tag[p..] + b;
    TagTokens();
    TagIsToken(a, OPEN);
    TokenizeFragment(a, tag, p);
    NoCloseInLits(tag[..p]);
    assert a + tag[..p] + OPEN + x + CLOSE + tag[p..] + b == h + OPEN + x + CLOSE + t;
    SpanDropped(h, x, t);
    assert '<' !in tag[p..] by { forall k | p <= k < |tag| ensures tag[k] != '<' { OnlyFirst(tag, k); } }
    TokenizePlain(tag[p..], b);
    NoCloseInLits(tag[p..]);
    DropBehind(Lits(tag[p..]), Tokenize(b));
    LitsConcat(tag[..p], tag[p..]);
    assert tag[..p] + tag[p..] == tag;
    assert Tokenize(a) + Lits(tag[..p]) + (Lits(tag[p..]) + DropSpans(Tokenize(b)))
        == Tokenize(a) + (Lits(tag[..p]) + Lits(tag[p..])) + DropSpans(Tokenize(b));
  }

  lemma FirstOpen(h: string, r: string)
    requires Open !in Tokenize(h)
    ensures Index(h + OPEN + r, OPEN) == |h|
  {
    hide Tokenize;
    var s := h + OPEN + r;
    assert s == h + (OPEN + r);
    OccursInside(h, OPEN, r);
    TagIsToken(h, OPEN);
    forall i | 0 <= i < |h| ensures !OccursAt(s, OPEN, i) {
      if OccursAt(s, OPEN, i) { TagBefore(s, h, OPEN, OPEN, i); }
    }
    FirstAt(s, OPEN, 0, |h|);
  }

  lemma TagBefore(s: string, h: string, tag: string, next: string, i: nat)
    requires h <= s && IsTag(tag) && IsTag(next) && i < |h|
    requires OccursAt(s, tag, i) && OccursAt(s, next, |h|)
    ensures Contains(h, tag)
  {
    TagsApart(s, tag, i, next, |h|);
    assert h[i..i + |tag|] == s[i..i + |tag|];
    assert OccursAt(h, tag, i);
  }

  lemma FirstClose(h: string, x: string, t: string)
    requires !Contains(x, CLOSE)
    ensures IndexFrom(h + OPEN + x + CLOSE + t, CLOSE, |h| + |OPEN|) == |h| + |OPEN| + |x|
  {
    var s := h + OPEN + x + CLOSE + t;
    var from := |h| + |OPEN|;
    assert s[from + |x|..from + |x| + |CLOSE|] == CLOSE;
    forall i | from <= i < from + |x| ensures !OccursAt(s, CLOSE, i) {
      if OccursAt(s, CLOSE, i) { CloseBefore(s, h + OPEN, x, i); }
    }
    FirstAt(s, CLOSE, from, from + |x|);
  }

  lemma CloseBefore(s: string, h: string, x: string, i: nat)
    requires h + x <= s && |h| <= i < |h| + |x|
    requires OccursAt(s, CLOSE, i) && OccursAt(s, CLOSE, |h| + |x|)
    ensures Contains(x, CLOSE)
  {
    TagsApart(s, CLOSE, i, CLOSE, |h| + |x|);
    assert x[i - |h|..i - |h| + |CLOSE|] == s[i..i + |CLOSE|];
    assert OccursAt(x, CLOSE, i - |h|);
  }

  /** The first round completes the tag, and there is no second. */
  lemma SpliceStrips(a: string, tag: string, p: nat, x: string, b: string)
    requires IsTag(tag) && 0 < p < |tag| && '<' !in a && '<' !in b && !Contains(x, CLOSE)
    ensures Strip(a + tag[..p] + OPEN + x + CLOSE + tag[p..] + b) == a + tag + b
  {
    hide Tokenize, Lits, DropSpans, Contains, IsTag, OccursAt;
    var h, t := a + tag[..p], tag[p..] + b;
    var text := h + OPEN + x + CLOSE + t;
    assert a + tag[..p] + OPEN + x + CLOSE + tag[p..] + b == text;
    TokenizeFragment(a, tag, p);
    TokenizeAllPlain(a);
    NoCloseInLits(a);
    NoCloseInLits(tag[..p]);
    assert text == h + OPEN + (x + CLOSE + t);
    FirstOpen(h, x + CLOSE + t);
    FirstClose(h, x, t);
    assert tag[..p] + tag[p..] == tag;
    assert text[..|h|] + text[|h| + |OPEN| + |x| + |CLOSE|..] == a + tag + b;
    OneTagStays(a, tag, b);
  }

  lemma OneTagTokens(a: string, tag: string, b: string)
    requires IsTag(tag) && '<' !in a && '<' !in b
    ensures Tokenize(a + tag + b) == Lits(a) + [TagToken(tag)] + Lits(b)
    ensures DropSpans(Tokenize(a + tag + b)) == Tokenize(a + tag + b)
  {
    hide Tokenize, Lits, DropSpans;
    TokenizeAround(a, tag, b);
    TokenizeAllPlain(a);
    TokenizeAllPlain(b);
    NoCloseInLits(a);
    NoCloseInLits(b);
    DropNothing(Tokenize(a + tag + b));
  }

  lemma OneTagStays(a: string, tag: string, b: string)
    requires IsTag(tag) && '<' !in a && '<' !in b
    ensures Strip(a + tag + b) == a + tag + b
  {
    hide Tokenize, Lits, DropSpans, Written, Strip, ReadsBack;
    var w := a + tag + b;
    OneTagTokens(a, tag, b);
    TokensReadBack(w);
    StripReadable(w);
    WrittenTokenize(w);
    WrittenTokenize(Strip(w));
  }

  lemma OneTagAnswer(a: string, tag: string, b: string)
    requires IsTag(tag) && '<' !in a && '<' !in b
    ensures '<' !in LastPasses(StripLeaked(a + tag + b))
  {
    hide Tokenize, Lits, Written, Contains, Dropping, Segments, TrimSpace, ReplaceAll;
    var w := a + tag + b;
    OneTagTokens(a, tag, b);
    NoCloseInLits(a);
    NoCloseInLits(b);
    TagIsToken(w, CLOSE);
    if tag == CLOSE {
      AnswersAgree(w);
      OneTagSegments(a, b);
      LastBounds(StripLeaked(w), '<');
    } else {
      LastPassesOnTokens(w);
      DroppingAround(Lits(a), Open, Lits(b));
      DroppingNothing(Lits(b), Open);
      LitsConcat(a, b);
      WrittenLits(a + b);
      TokenizeAllPlain(a + b);
      NoCloseInLits(a + b);
      DroppingNothing(Lits(a + b), Close);
      TrimBounds(a + b, '<');
    }
  }

  lemma {:induction false} LettersOfLits(w: string)
    ensures Letters(Lits(w)) == w
  {
    if w != "" {
      assert Lits(w)[1..] == Lits(w[1..]);
      LettersOfLits(w[1..]);
    }
  }

  lemma OneTagSegments(a: string, b: string)
    requires '<' !in a && '<' !in b
    ensures '<' !in FirstNonBlank(Segments(Lits(a) + [Close] + Lits(b)))
  {
    hide Letters, TrimSpace, Lits;
    var ts := Lits(a) + [Close] + Lits(b);
    NoCloseInLits(a);
    NoCloseInLits(b);
    PositionBehind(Close, Lits(a), Lits(b));
    assert ts[..|Lits(a)|] == Lits(a) && ts[|Lits(a)| + 1..] == Lits(b);
    NoCloseNoSegments(Lits(b));
    var last := [Lits(b)];
    var segments := [Lits(a)] + last;
    assert segments[1..] == last && last[1..] == [];
    LettersOfLits(a);
    LettersOfLits(b);
    TrimBounds(a, '<');
    TrimBounds(b, '<');
    assert '<' !in FirstNonBlank(last);
    assert '<' !in FirstNonBlank(segments);
    assert Segments(ts) == segments;
  }

  /** The answer itself changes, whatever the span holds and whatever plain text stands around the tag:
      by its tokens the text means the spelled tag, and the cleaned answer has lost it. */
  lemma SpliceChangesAnswer(a: string, tag: string, p: nat, x: string, b: string)
    requires IsTag(tag) && 0 < p < |tag| && '<' !in a && '<' !in b && !Contains(x, CLOSE)
    requires !Contains(a + tag[..p] + OPEN + x + CLOSE + tag[p..] + b, "\r\n")
    ensures var text := a + tag[..p] + OPEN + x + CLOSE + tag[p..] + b;
            && TokenMeaning(text) == TrimSpace(a + tag + b) && Contains(TokenMeaning(text), tag)
            && '<' !in Sanitize(text)
  {
    hide Tokenize, Lits, DropSpans, Letters, Contains, TrimSpace, Strip, StripLeaked, LastPasses, Normalize;
    var text := a + tag[..p] + OPEN + x + CLOSE + tag[p..] + b;
    NormalizeFixed(text);
    SpliceStrips(a, tag, p, x, b);
    OneTagAnswer(a, tag, b);
    NoOpenIn(a);
    SpliceKept(a, tag, p, x, b);
    TokenizeAllPlain(a);
    TokenizeAllPlain(b);
    NoCloseInLits(b);
    DropNothing(Lits(b));
    LitsConcat(a, tag);
    LitsConcat(a + tag, b);
    NoCloseInLits(a + tag + b);
    LettersOfLits(a + tag + b);
    OccursInside(a, tag, b);
    assert a + tag + b == a + (tag + b);
    TrimmedLacks(a + tag + b, tag);
  }

  lemma NoOpenIn(a: string)
    requires '<' !in a
    ensures !Contains(a, OPEN)
  {
    if i :| 0 <= i <= |a| && OccursAt(a, OPEN, i) { TagInterior(a, OPEN, i); }
  }
}
