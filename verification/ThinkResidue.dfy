/** What the passes make of the kept tokens, exactly, and when tags reach the reader. */
module ThinkResidue {
  import opened Text
  import opened ThinkMeaning
  import opened ThinkReading
  import opened ThinkTags
  import opened ThinkTokens

  function Dropping(ts: seq<Token>, t: Token): (r: seq<Token>)
    ensures t !in r && forall u :: u in r ==> u in ts
  {
    if ts == [] then [] else (if ts[0] == t then [] else [ts[0]]) + Dropping(ts[1..], t)
  }

  /** What the last two passes are given. */
  function Offered(kept: seq<Token>): seq<Token> {
    if Close in kept then Tokenize(FirstNonBlank(Segments(kept))) else kept
  }

  /** What they leave: opening tags dropped, the rest read again, closing tags dropped. */
  function Residue(kept: seq<Token>): seq<Token> {
    Dropping(Tokenize(Written(Dropping(Offered(kept), Open))), Close)
  }

  // ----- Removing a tag, on tokens -----

  lemma {:induction false} DroppingConcat(a: seq<Token>, b: seq<Token>, t: Token)
    ensures Dropping(a + b, t) == Dropping(a, t) + Dropping(b, t)
  {
    if a == [] {
      assert a + b == b;
    } else {
      hide Dropping;
      TailOfConcat(a, b);
      DroppingConcat(a[1..], b, t);
      FirstDropped(a, t);
      FirstDropped(a + b, t);
      Associates(if a[0] == t then [] else [a[0]], Dropping(a[1..], t), Dropping(b, t));
    }
  }

  lemma FirstDropped(ts: seq<Token>, t: Token)
    requires ts != []
    ensures Dropping(ts, t) == (if ts[0] == t then [] else [ts[0]]) + Dropping(ts[1..], t)
  {
  }

  lemma {:induction false} DroppingNothing(ts: seq<Token>, t: Token)
    requires t !in ts
    ensures Dropping(ts, t) == ts
  {
    if ts != [] {
      assert ts == [ts[0]] + ts[1..];
      DroppingNothing(ts[1..], t);
    }
  }

  /** Replacing a tag by nothing is dropping its tokens. */
  lemma {:induction false} RemovalOnTokens(s: string, tag: string)
    requires IsTag(tag)
    ensures ReplaceAll(s, tag, "") == Written(Dropping(Tokenize(s), TagToken(tag)))
    decreases |s|
  {
    hide Tokenize, Written, Dropping, OccursAt, Contains;
    IndexBounds(s, tag, 0);
    var i := Index(s, tag);
    if i == -1 {
      TagIsToken(s, tag);
      DroppingNothing(Tokenize(s), TagToken(tag));
      WrittenTokenize(s);
    } else {
      var x := s[i + |tag|..];
      RemovalOnTokens(x, tag);
      TokensAtTag(s, tag);
      DroppingAround(Tokenize(s[..i]), TagToken(tag), Tokenize(x));
      WrittenConcat(Tokenize(s[..i]), Dropping(Tokenize(x), TagToken(tag)));
      WrittenTokenize(s[..i]);
    }
  }

  lemma TokensAtTag(s: string, tag: string)
    requires IsTag(tag) && Index(s, tag) != -1
    ensures var i := Index(s, tag);
            && 0 <= i && i + |tag| <= |s|
            && Tokenize(s) == Tokenize(s[..i]) + [TagToken(tag)] + Tokenize(s[i + |tag|..])
            && TagToken(tag) !in Tokenize(s[..i])
  {
    hide Tokenize;
    var i := Index(s, tag);
    Surround(s, tag, i);
    TokenizeAround(s[..i], tag, s[i + |tag|..]);
    PrefixLacks(s, tag, i);
    TagIsToken(s[..i], tag);
  }

  lemma DroppingAround(a: seq<Token>, t: Token, b: seq<Token>)
    requires t !in a
    ensures Dropping(a + [t] + b, t) == a + Dropping(b, t)
  {
    hide Dropping;
    DroppingConcat(a + [t], b, t);
    DroppingConcat(a, [t], t);
    DroppingNothing(a, t);
    DroppingOne(t);
    assert a + [] == a;
  }

  lemma DroppingOne(t: Token)
    ensures Dropping([t], t) == []
  {
    assert [t][1..] == [];
  }

  lemma LastPassesOnTokens(s: string)
    ensures LastPasses(s) == TrimSpace(Written(Dropping(Tokenize(Written(Dropping(Tokenize(s), Open))), Close)))
  {
    hide Tokenize, Written, Dropping, TrimSpace, ReplaceAll;
    TagTokens();
    RemovalOnTokens(s, OPEN);
    RemovalOnTokens(ReplaceAll(s, OPEN, ""), CLOSE);
  }

  lemma TagTokens()
    ensures IsTag(OPEN) && IsTag(CLOSE) && TagToken(OPEN) == Open && TagToken(CLOSE) == Close
  {
  }

  /** On every text, the answer is the residue of the tokens that are left; these are the kept tokens
      whenever those read back. */
  lemma SanitizeIsResidue(text: string)
    ensures Sanitize(text) == TrimSpace(Written(Residue(Left(text))))
    ensures ReadsBack(Kept(text)) ==> Left(text) == Kept(text)
  {
    hide Tokenize, Written, Dropping, TrimSpace, Strip, Kept, ReadsBack, LastPasses, Contains;
    var s := Strip(Normalize(text));
    LeftIsKept(text);
    TagIsToken(s, CLOSE);
    LastPassesOnTokens(StripLeaked(s));
    if Close in Left(text) { AnswersAgree(s); } else { WrittenTokenize(s); }
  }

  // ----- Tags in the answer -----

  lemma {:induction false} TokenWritten(ts: seq<Token>, tag: string)
    requires IsTag(tag) && TagToken(tag) in ts
    ensures Contains(Written(ts), tag)
  {
    hide Written, Contains;
    var k :| 0 <= k < |ts| && ts[k] == TagToken(tag);
    assert ts == ts[..k] + ([ts[k]] + ts[k + 1..]);
    WrittenConcat(ts[..k], [ts[k]] + ts[k + 1..]);
    WrittenConcat([ts[k]], ts[k + 1..]);
    OneWritten(tag);
    OccursInside(Written(ts[..k]), tag, Written(ts[k + 1..]));
  }

  lemma OneWritten(tag: string)
    requires IsTag(tag)
    ensures Written([TagToken(tag)]) == tag
  {
    assert Written([TagToken(tag)][1..]) == "";
  }

  /** A written list of tokens holds no tag exactly when none of them is one and none is spelled. */
  lemma TagFreeWritten(ts: seq<Token>)
    ensures TagFree(Written(ts)) <==> Open !in ts && Close !in ts && ReadsBack(ts)
  {
    hide Written, Contains, Spells, Tokenize;
    TagTokens();
    if TagFree(Written(ts)) {
      if Open in ts { TokenWritten(ts, OPEN); }
      if Close in ts { TokenWritten(ts, CLOSE); }
      forall i ensures !Spells(ts, OPEN, i) && !Spells(ts, CLOSE, i) {
        if Spells(ts, OPEN, i) { SpelledOccurs(ts, OPEN, i); }
        if Spells(ts, CLOSE, i) { SpelledOccurs(ts, CLOSE, i); }
      }
    }
    if Open !in ts && Close !in ts && ReadsBack(ts) {
      ReadAgain(ts);
      TagIsToken(Written(ts), OPEN);
      TagIsToken(Written(ts), CLOSE);
    }
  }

  /** A tag has no blank at its edges, so trimming neither hides nor uncovers one. */
  lemma TrimmedTagFree(s: string)
    ensures TagFree(TrimSpace(s)) <==> TagFree(s)
  {
    hide TrimSpace, Contains;
    TrimmedLacks(s, OPEN);
    TrimmedLacks(s, CLOSE);
  }

  lemma TrimmedLacks(s: string, tag: string)
    requires IsTag(tag)
    ensures Contains(TrimSpace(s), tag) <==> Contains(s, tag)
  {
    hide TrimSpace;
    var from, to := TrimSpaceSlice(s);
    if Contains(TrimSpace(s), tag) {
      var k :| 0 <= k <= to - from && OccursAt(s[from..to], tag, k);
      SliceOccurs(s, tag, from, to, k);
    }
    if i :| 0 <= i <= |s| && OccursAt(s, tag, i) {
      InsideEdges(s, from, to, tag, i);
    }
  }

  lemma InsideEdges(s: string, from: nat, to: nat, tag: string, i: nat)
    requires from <= to <= |s| && IsTag(tag) && OccursAt(s, tag, i)
    requires forall k :: 0 <= k < |s| && !(from <= k < to) ==> IsSpace(s[k])
    ensures Contains(s[from..to], tag)
  {
    OccursChars(s, tag, i);
    var last := |tag| - 1;
    assert s[i + 0] == tag[0] == '<' && s[i + last] == tag[last] == '>';
    assert !IsSpace('<') && !IsSpace('>');
    SliceOfSlice(s, from, to, i - from, i - from + |tag|);
    assert OccursAt(s[from..to], tag, i - from);
  }

  /** On every text: the reader sees no tag exactly when no opening tag is in the residue and no tag is
      spelled there. */
  lemma TagFreeExactly(text: string)
    ensures TagFree(Sanitize(text)) <==> Open !in Residue(Left(text)) && ReadsBack(Residue(Left(text)))
  {
    hide Sanitize, Kept, Left, TrimSpace, Written, ReadsBack, Offered, TagFree;
    SanitizeIsResidue(text);
    var rest := Residue(Left(text));
    TrimmedTagFree(Written(rest));
    TagFreeWritten(rest);
  }

  // ----- A tag that reaches the reader -----

  lemma LeakTokens(a: string, p: nat, b: string)
    requires '<' !in a && '<' !in b && 0 < p < |OPEN|
    requires var text := a + OPEN[..p] + OPEN + OPEN[p..] + b; !Contains(text, "\r\n")
    ensures var text := a + OPEN[..p] + OPEN + OPEN[p..] + b;
            && Kept(text) == Lits(a + OPEN[..p]) + [Open] + Lits(OPEN[p..] + b)
            && ReadsBack(Kept(text))
  {
    hide Tokenize, Contains, Lits, DropSpans, ReadsBack;
    var text := a + OPEN[..p] + OPEN + OPEN[p..] + b;
    var h, t := a + OPEN[..p], OPEN[p..] + b;
    NotContained(text, "\r\n");
    TagTokens();
    assert text == h + OPEN + t;
    TokenizeAround(h, OPEN, t);
    TokenizeFragment(a, OPEN, p);
    TokenizeAllPlain(a);
    LitsConcat(a, OPEN[..p]);
    assert '<' !in OPEN[p..] by { forall k | p <= k < |OPEN| ensures OPEN[k] != '<' { OnlyFirst(OPEN, k); } }
    TokenizeAllPlain(t);
    NoCloseInLits(h);
    NoCloseInLits(t);
    DropNothing(Tokenize(text));
    TokensReadBack(text);
  }

  lemma NoCloseInLits(s: string)
    ensures Close !in Lits(s) && Open !in Lits(s)
  {
  }

  lemma LeakResidue(a: string, p: nat, b: string)
    requires '<' !in a && '<' !in b && 0 < p < |OPEN|
    ensures Written(Residue(Lits(a + OPEN[..p]) + [Open] + Lits(OPEN[p..] + b))) == a + OPEN + b
  {
    hide Tokenize, Lits, Dropping, Written;
    var h, t := a + OPEN[..p], OPEN[p..] + b;
    var kept := Lits(h) + [Open] + Lits(t);
    NoCloseInLits(h);
    NoCloseInLits(t);
    DroppingAround(Lits(h), Open, Lits(t));
    DroppingNothing(Lits(t), Open);
    LitsConcat(h, t);
    WrittenLits(h + t);
    assert OPEN[..p] + OPEN[p..] == OPEN;
    assert h + t == a + OPEN + b;
    TagTokens();
    TokenizeAround(a, OPEN, b);
    TokenizeAllPlain(a);
    TokenizeAllPlain(b);
    NoCloseInLits(a);
    NoCloseInLits(b);
    DroppingNothing(Tokenize(a + OPEN + b), Close);
    WrittenTokenize(a + OPEN + b);
  }

  /** An unclosed opening tag inside the pieces of another: removing the one uncovers the other, after
      opening tags have been looked for.  Texts around it make no difference. */
  lemma OpenTagLeaks(a: string, p: nat, b: string)
    requires '<' !in a && '<' !in b && 0 < p < |OPEN|
    requires var text := a + OPEN[..p] + OPEN + OPEN[p..] + b; !Contains(text, "\r\n")
    ensures var text := a + OPEN[..p] + OPEN + OPEN[p..] + b;
            && ReadsBack(Kept(text))
            && Sanitize(text) == TrimSpace(a + OPEN + b)
            && Contains(Sanitize(text), OPEN)
  {
    hide Sanitize, Kept, Left, Contains, TrimSpace, Tokenize, Written, ReadsBack, Dropping, Residue;
    var text := a + OPEN[..p] + OPEN + OPEN[p..] + b;
    LeakTokens(a, p, b);
    SanitizeIsResidue(text);
    LeakResidue(a, p, b);
    OccursInside(a, OPEN, b);
    assert a + OPEN + b == a + (OPEN + b);
    TrimmedLacks(a + OPEN + b, OPEN);
  }
}
