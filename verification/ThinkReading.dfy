/** Tokens written back as text, and when that text is read as the same tokens. */
module ThinkReading {
  import opened Text
  import opened ThinkTags
  import opened ThinkTokens

  function Lits(s: string): (ts: seq<Token>)
    ensures |ts| == |s| && forall k :: 0 <= k < |s| ==> ts[k] == Lit(s[k])
  {
    seq(|s|, i requires 0 <= i < |s| => Lit(s[i]))
  }

  function TokenText(t: Token): string {
    match t
    case Lit(c) => [c]
    case Open => OPEN
    case Close => CLOSE
  }

  function Written(ts: seq<Token>): string {
    if ts == [] then "" else TokenText(ts[0]) + Written(ts[1..])
  }

  /** From token i on, single characters spell out the tag. */
  predicate Spells(ts: seq<Token>, tag: string, i: int) {
    0 <= i <= i + |tag| <= |ts| && ts[i..i + |tag|] == Lits(tag)
  }

  /** No run of single characters spells a tag. */
  ghost predicate ReadsBack(ts: seq<Token>) {
    forall i :: !Spells(ts, OPEN, i) && !Spells(ts, CLOSE, i)
  }

  // ----- Writing -----

  lemma {:induction false} WrittenConcat(a: seq<Token>, b: seq<Token>)
    ensures Written(a + b) == Written(a) + Written(b)
  {
    if a == [] {
      assert a + b == b;
    } else {
      TailOfConcat(a, b);
      WrittenConcat(a[1..], b);
      Associates(TokenText(a[0]), Written(a[1..]), Written(b));
    }
  }

  lemma {:induction false} WrittenLits(s: string)
    ensures Written(Lits(s)) == s
  {
    if s != "" {
      assert Lits(s)[1..] == Lits(s[1..]);
      WrittenLits(s[1..]);
      assert [s[0]] + s[1..] == s;
    }
  }

  lemma HeadText(s: string)
    requires s != ""
    ensures TokenText(HeadToken(s)) == s[..HeadSize(s)]
  {
  }

  /** Writing undoes reading. */
  lemma {:induction false} WrittenTokenize(s: string)
    ensures Written(Tokenize(s)) == s
    decreases |s|
  {
    hide HeadToken, HeadSize, TokenText;
    if s != "" {
      var n := HeadSize(s);
      HeadText(s);
      WrittenTokenize(s[n..]);
      assert ([HeadToken(s)] + Tokenize(s[n..]))[1..] == Tokenize(s[n..]);
      assert s[..n] + s[n..] == s;
    }
  }

  // ----- Reading -----

  lemma NoTagWithout(s: string, tag: string)
    requires IsTag(tag) && s != "" && s[0] != '<'
    ensures !TagAt(s, tag)
  {
    if TagAt(s, tag) { TagInterior(s, tag, 0); }
  }

  /** Characters that begin no tag are tokens of their own. */
  lemma {:induction false} TokenizePlain(w: string, s: string)
    requires '<' !in w
    ensures Tokenize(w + s) == Lits(w) + Tokenize(s)
  {
    hide Tokenize;
    if w == "" {
      assert w + s == s;
    } else {
      PlainHead(w + s);
      assert (w + s)[1..] == w[1..] + s;
      TokenizePlain(w[1..], s);
      assert Lits(w) == [Lit(w[0])] + Lits(w[1..]);
    }
  }

  lemma PlainHead(s: string)
    requires s != "" && s[0] != '<'
    ensures Tokenize(s) == [Lit(s[0])] + Tokenize(s[1..])
  {
    hide TagAt;
    NoTagWithout(s, OPEN);
    NoTagWithout(s, CLOSE);
  }

  lemma {:induction false} WrittenStart(ts: seq<Token>, w: string)
    requires |w| <= |ts| && ts[..|w|] == Lits(w)
    ensures w <= Written(ts) && Written(ts) == w + Written(ts[|w|..])
  {
    assert ts == Lits(w) + ts[|w|..];
    WrittenConcat(Lits(w), ts[|w|..]);
    WrittenLits(w);
  }

  /** What is spelled is in the text. */
  lemma SpelledOccurs(ts: seq<Token>, tag: string, i: int)
    requires Spells(ts, tag, i)
    ensures Contains(Written(ts), tag)
  {
    hide Written;
    assert ts == ts[..i] + ts[i..];
    WrittenConcat(ts[..i], ts[i..]);
    assert ts[i..][..|tag|] == ts[i..i + |tag|];
    WrittenStart(ts[i..], tag);
    OccursInside(Written(ts[..i]), tag, Written(ts[i..][|tag|..]));
  }

  lemma OccursInside(a: string, p: string, b: string)
    ensures OccursAt(a + (p + b), p, |a|) && Contains(a + (p + b), p)
  {
    assert (a + (p + b))[|a|..|a| + |p|] == p;
    assert OccursAt(a + (p + b), p, |a|);
  }

  /** The tokens of a text never spell a tag at their start: it would have been read as one. */
  lemma StartReads(s: string, tag: string)
    requires IsTag(tag)
    ensures !Spells(Tokenize(s), tag, 0)
  {
    hide Written;
    var ts := Tokenize(s);
    if Spells(ts, tag, 0) {
      assert ts[..|tag|] == ts[0..|tag|];
      assert ts[0] == ts[..|tag|][0] == Lit(tag[0]);
      WrittenStart(ts, tag);
      WrittenTokenize(s);
      HeadIsTag(tag, Written(ts[|tag|..]));
    }
  }

  lemma SpellsTail(ts: seq<Token>, tag: string, i: int, n: nat)
    requires Spells(ts, tag, i) && n <= i
    ensures n <= |ts| && Spells(ts[n..], tag, i - n)
  {
    assert ts[n..][i - n..i - n + |tag|] == ts[i..i + |tag|];
  }

  lemma SpellsHead(ts: seq<Token>, tag: string, i: int, n: nat)
    requires Spells(ts, tag, i) && i + |tag| <= n <= |ts|
    ensures Spells(ts[..n], tag, i)
  {
    assert ts[..n][i..i + |tag|] == ts[i..i + |tag|];
  }

  lemma {:induction false} TokensDoNotSpell(s: string, tag: string, i: int)
    requires IsTag(tag)
    ensures !Spells(Tokenize(s), tag, i)
    decreases |s|
  {
    hide IsTag;
    if Spells(Tokenize(s), tag, i) {
      if i == 0 {
        StartReads(s, tag);
      } else {
        var n := HeadSize(s);
        assert Tokenize(s)[1..] == Tokenize(s[n..]);
        SpellsTail(Tokenize(s), tag, i, 1);
        TokensDoNotSpell(s[n..], tag, i - 1);
      }
    }
  }

  lemma TokensReadBack(s: string)
    ensures ReadsBack(Tokenize(s))
  {
    hide Tokenize;
    forall i ensures !Spells(Tokenize(s), OPEN, i) && !Spells(Tokenize(s), CLOSE, i) {
      TokensDoNotSpell(s, OPEN, i);
      TokensDoNotSpell(s, CLOSE, i);
    }
  }

  lemma ReadsBackTail(ts: seq<Token>, n: nat)
    requires ReadsBack(ts) && n <= |ts|
    ensures ReadsBack(ts[n..])
  {
    forall i, tag | IsTag(tag) && Spells(ts[n..], tag, i) ensures false {
      assert ts[n..][i..i + |tag|] == ts[n + i..n + i + |tag|];
      assert Spells(ts, tag, n + i);
    }
    assert IsTag(OPEN) && IsTag(CLOSE);
  }

  /** A text with a tag in front, split behind the tag's first character. */
  lemma TagBehindFirst(c: char, w: string, tag: string)
    requires tag != "" && OccursAt([c] + w, tag, 0)
    ensures c == tag[0] && |tag| - 1 <= |w| && w == tag[1..] + w[|tag| - 1..]
  {
    var s := [c] + w;
    var n := |tag|;
    assert s[..n] == tag;
    assert s[0] == tag[0];
    forall k | 1 <= k < n ensures w[k - 1] == tag[k] {
      assert s[k] == w[k - 1] && s[..n][k] == s[k];
    }
    assert w[..n - 1] == tag[1..];
  }

  /** Characters in a row as tokens, the first one apart. */
  lemma SpelledInFront(tag: string, u: seq<Token>)
    requires tag != ""
    ensures Spells([Lit(tag[0])] + (Lits(tag[1..]) + u), tag, 0)
  {
    var ts := [Lit(tag[0])] + (Lits(tag[1..]) + u);
    assert forall k :: 0 <= k < |tag| ==> ts[k] == Lit(tag[k]);
    assert ts[..|tag|] == Lits(tag);
  }

  /** A single character in front of tokens that read back: it is read alone, unless they spell a tag together. */
  lemma LitInFront(c: char, r: seq<Token>, tag: string)
    requires IsTag(tag) && Tokenize(Written(r)) == r && TagAt([c] + Written(r), tag)
    ensures Spells([Lit(c)] + r, tag, 0)
  {
    hide Written, Tokenize, Spells, OccursAt;
    TagBehindFirst(c, Written(r), tag);
    var u := Written(r)[|tag| - 1..];
    TokenizePlain(tag[1..], u);
    SpelledInFront(tag, Tokenize(u));
  }

  lemma {:induction false} ReadAgain(ts: seq<Token>)
    requires ReadsBack(ts)
    ensures Tokenize(Written(ts)) == ts
  {
    if ts != [] {
      hide ReadsBack, Written, Tokenize;
      ReadsBackTail(ts, 1);
      ReadAgain(ts[1..]);
      ReadFirst(ts);
      assert ts == [ts[0]] + ts[1..];
    }
  }

  lemma ReadFirst(ts: seq<Token>)
    requires ReadsBack(ts) && ts != [] && Tokenize(Written(ts[1..])) == ts[1..]
    ensures Tokenize(Written(ts)) == [ts[0]] + Tokenize(Written(ts[1..]))
  {
    hide ReadsBack, TagAt, IsTag;
    var rest := Written(ts[1..]);
    if ts[0].Lit? {
      TagsAre();
      NotInFront(ts, OPEN);
      NotInFront(ts, CLOSE);
      TailOfConcat([ts[0].c], rest);
      assert [ts[0].c][1..] + rest == rest;
    } else {
      HeadOfTag(ts[0], rest);
    }
  }

  lemma HeadOfTag(t: Token, rest: string)
    requires !t.Lit?
    ensures Tokenize(TokenText(t) + rest) == [t] + Tokenize(rest)
  {
    hide TagAt;
    HeadIsTag(TokenText(t), rest);
  }

  lemma NotInFront(ts: seq<Token>, tag: string)
    requires ReadsBack(ts) && ts != [] && ts[0].Lit? && IsTag(tag)
    requires Tokenize(Written(ts[1..])) == ts[1..]
    ensures !TagAt(Written(ts), tag)
  {
    hide Tokenize, Spells;
    assert [Lit(ts[0].c)] + ts[1..] == ts;
    if TagAt(Written(ts), tag) { LitInFront(ts[0].c, ts[1..], tag); }
  }

  /** Tokens are read back from their text exactly when no run of characters spells a tag. */
  lemma ReadsBackExactly(ts: seq<Token>)
    ensures Tokenize(Written(ts)) == ts <==> ReadsBack(ts)
  {
    hide Tokenize, Written, ReadsBack;
    if Tokenize(Written(ts)) == ts { TokensReadBack(Written(ts)); }
    if ReadsBack(ts) { ReadAgain(ts); }
  }

  // ----- Pieces of tags -----

  lemma LitsConcat(a: string, b: string)
    ensures Lits(a + b) == Lits(a) + Lits(b)
  {
  }

  lemma TokenizeAllPlain(w: string)
    requires '<' !in w
    ensures Tokenize(w) == Lits(w)
  {
    TokenizePlain(w, "");
    assert w + "" == w && Tokenize("") == [];
  }

  lemma OnlyFirst(tag: string, k: nat)
    requires IsTag(tag) && k < |tag|
    ensures tag[k] == '<' <==> k == 0
  {
  }

  /** The beginning of a tag spells no tag, also together with what stands in front of it. */
  lemma FragmentSpellsNothing(ts: seq<Token>, tag: string, p: nat, other: string, i: int)
    requires IsTag(tag) && IsTag(other) && p < |tag| && ReadsBack(ts)
    ensures !Spells(ts + Lits(tag[..p]), other, i)
  {
    hide IsTag, ReadsBack;
    var all := ts + Lits(tag[..p]);
    assert all[..|ts|] == ts;
    NotSpelled(ts, other, i);
    if Spells(all, other, i) {
      if i + |other| <= |ts| {
        SpellsHead(all, other, i, |ts|);
      } else {
        FragmentTooShort(ts, tag, p, other, i);
      }
    }
  }

  lemma NotSpelled(ts: seq<Token>, tag: string, i: int)
    requires IsTag(tag) && ReadsBack(ts)
    ensures !Spells(ts, tag, i)
  {
  }

  lemma FragmentTooShort(ts: seq<Token>, tag: string, p: nat, other: string, i: int)
    requires IsTag(tag) && IsTag(other) && p < |tag| && i + |other| > |ts|
    ensures !Spells(ts + Lits(tag[..p]), other, i)
  {
    hide Lits;
    var all := ts + Lits(tag[..p]);
    if Spells(all, other, i) {
      var run := all[i..i + |other|];
      if i < |ts| {
        assert run[|ts| - i] == all[|ts|] == Lit(tag[0]);
        OnlyFirst(other, |ts| - i);
        OnlyFirst(tag, 0);
      } else {
        assert run[0] == all[i] == Lit(tag[i - |ts|]);
        OnlyFirst(other, 0);
        OnlyFirst(tag, i - |ts|);
        assert run[1] == all[i + 1] == Lit(tag[1]);
        SecondDiffers(tag, other);
      }
    }
  }

  lemma SecondDiffers(tag: string, other: string)
    requires IsTag(tag) && IsTag(other) && |other| < |tag|
    ensures tag[1] != other[1]
  {
  }

  lemma TokenizeFragment(a: string, tag: string, p: nat)
    requires IsTag(tag) && p < |tag|
    ensures Tokenize(a + tag[..p]) == Tokenize(a) + Lits(tag[..p])
  {
    hide Tokenize, Written, Lits, Spells, IsTag;
    var ts := Tokenize(a) + Lits(tag[..p]);
    TokensReadBack(a);
    TagsAre();
    forall i ensures !Spells(ts, OPEN, i) && !Spells(ts, CLOSE, i) {
      FragmentSpellsNothing(Tokenize(a), tag, p, OPEN, i);
      FragmentSpellsNothing(Tokenize(a), tag, p, CLOSE, i);
    }
    ReadAgain(ts);
    WrittenConcat(Tokenize(a), Lits(tag[..p]));
    WrittenTokenize(a);
    WrittenLits(tag[..p]);
  }

  lemma TagsAre()
    ensures IsTag(OPEN) && IsTag(CLOSE)
  {
  }
}
