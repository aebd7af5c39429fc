/** The three rules together: the redacted text is the input with some secrets replaced and nothing else changed. */
module RedactionMask {
  import opened Common
  import opened Regex
  import opened Redaction
  import opened RedactionPieces
  import opened Text

  // ----- All three rules at once -----

  /** t[p..e] and a stretch of s are the same, and so are the edges of words in it. */
  ghost predicate Shares(t: string, p: nat, e: nat, s: string, from: nat) {
    && p <= e <= |t| && from + (e - p) <= |s|
    && (forall q :: p <= q < e ==> t[q] == s[q - p + from])
    && (IsBoundary(t, p) ==> IsBoundary(s, from))
    && (IsBoundary(t, e) ==> IsBoundary(s, e - p + from))
  }

  lemma SharedEdges(t: string, p: nat, e: nat, s: string, from: nat, q: nat)
    requires Shares(t, p, e, s, from) && p <= q <= e && IsBoundary(t, q)
    ensures IsBoundary(s, q - p + from)
  {
    hide IsBoundary;
    if p < q < e { SameNeighbours(t, q, s, q - p + from); }
  }

  /** A match within a stretch that two texts share is a match in both. */
  lemma SharedMatch(secret: Secret, t: string, p: nat, e: nat, s: string, from: nat, a: nat, b: nat)
    requires Shares(t, p, e, s, from) && p <= a < b <= e && Is(secret, t, a, b)
    ensures Is(secret, s, a - p + from, b - p + from)
  {
    hide Is, Matches, IsBoundary, RuleOf;
    var d := from - p;
    RuleFinds(secret, t, a, b);
    RuleFinds(secret, s, a + d, b + d);
    forall q | a <= q <= b && IsBoundary(t, q) ensures IsBoundary(s, q + d) { SharedEdges(t, p, e, s, from, q); }
    assert forall q :: a <= q < b ==> t[q] == s[q + d];
    MatchMoves(RuleOf(secret).pattern, t, a, b, s, d);
  }

  lemma SameNeighbours(t: string, q: int, s: string, r: int)
    requires 0 < q < |t| && 0 < r < |s| && t[q - 1] == s[r - 1] && t[q] == s[r]
    ensures IsBoundary(t, q) <==> IsBoundary(s, r)
  {
  }

  /** Where the next mark, or the text, ends the stretch that begins at a position. */
  function StretchEnd(s: string, marks: seq<Mark>): nat { if marks == [] then |s| else marks[0].start }

  lemma MaskedLater(s: string, from: nat, later: nat, marks: seq<Mark>)
    requires Marks(s, from, marks) && from <= later <= StretchEnd(s, marks)
    ensures Marks(s, later, marks)
    ensures Masked(s, from, marks) == s[from..later] + Masked(s, later, marks)
  {
    hide Is, Masked, Token;
    if marks == [] {
      MaskNone(s, from);
      MaskNone(s, later);
      SplitSlice(s, from, later, |s|);
    } else {
      var m, rest := marks[0], marks[1..];
      assert marks == [m] + rest;
      MaskFirst(s, from, m, rest);
      MaskFirst(s, later, m, rest);
      SplitSlice(s, from, later, m.start);
      Associates(s[from..later], s[later..m.start], Token(m.secret));
      Associates(s[from..later], s[later..m.start] + Token(m.secret), Masked(s, m.end, rest));
    }
  }

  lemma SplitSlice(s: string, from: nat, later: nat, to: nat)
    requires from <= later <= to <= |s|
    ensures s[from..to] == s[from..later] + s[later..to]
    ensures s[from..] == s[from..|s|] && s[later..] == s[later..|s|]
  {
  }

  lemma FindLater(rule: Rule, t: string, p: nat, later: nat)
    requires IsRule(rule) && p <= later <= |t|
    requires var f := Find(rule.pattern, t, p); f.Some? && later <= f.value.0
    ensures Replace(rule, t, p) == t[p..later] + Replace(rule, t, later)
    ensures FindAll(rule, t, p) == FindAll(rule, t, later)
  {
    hide Matches, IsRule;
    var f, g := Find(rule.pattern, t, p), Find(rule.pattern, t, later);
    FindAdvances(rule, t, p);
    assert g == f;
    var (a, b) := f.value;
    SplitSlice(t, p, later, a);
    Associates(t[p..later], t[later..a], rule.replacement);
    Associates(t[p..later], t[later..a] + rule.replacement, Replace(rule, t, b));
  }

  /** A text that was masked already, from a position on: rest is the part of it that begins with a kept stretch. */
  ghost predicate Stands(t: string, p: nat, s: string, from: nat, marks: seq<Mark>) {
    && p <= |t| && Marks(s, from, marks) && t[p..] == Masked(s, from, marks)
    && (IsBoundary(t, p) ==> IsBoundary(s, from))
  }

  lemma EndsAlike(t: string, p: nat, s: string, from: nat)
    requires p < |t| && from <= |s| && t[p..] == s[from..]
    ensures IsBoundary(t, |t|) ==> IsBoundary(s, |s|)
  {
    assert t[|t| - 1] == t[p..][|t| - 1 - p] && s[|s| - 1] == s[from..][|s| - 1 - from];
  }

  lemma EdgesOfMark(m: Mark, s: string)
    requires Is(m.secret, s, m.start, m.end)
    ensures IsBoundary(s, m.start) && IsBoundary(s, m.end)
  {
    EdgeIsBoundary(s, m.start);
    EdgeIsBoundary(s, m.end);
  }

  /** The stretch that the two texts share up to the next mark, and the token behind it. */
  lemma FirstStretch(t: string, p: nat, s: string, from: nat, marks: seq<Mark>)
    requires Stands(t, p, s, from, marks)
    ensures var e := p + (StretchEnd(s, marks) - from);
            && from <= StretchEnd(s, marks) <= |s| && e <= |t| && Shares(t, p, e, s, from)
            && (marks == [] ==> e == |t|)
            && (marks != [] ==>
                  var next := e + |Token(marks[0].secret)|;
                  && next <= |t| && t[e..next] == Token(marks[0].secret)
                  && Stands(t, next, s, marks[0].end, marks[1..]))
  {
    hide Is, IsBoundary, Masked;
    var e := p + (StretchEnd(s, marks) - from);
    if marks == [] {
      MaskNone(s, from);
      if p < |t| { EndsAlike(t, p, s, from); }
      SameChars(t, p, e, s, from);
    } else {
      var m, rest := marks[0], marks[1..];
      assert marks == [m] + rest;
      MaskFirst(s, from, m, rest);
      EdgesOfMark(m, s);
      Cut(t, p, s[from..m.start], Token(m.secret), Masked(s, m.end, rest));
      SameChars(t, p, e, s, from);
    }
  }

  lemma SameChars(t: string, p: nat, e: nat, s: string, from: nat)
    requires p <= e <= |t| && from + (e - p) <= |s| && t[p..e] == s[from..from + (e - p)]
    ensures forall q :: p <= q < e ==> t[q] == s[q - p + from]
  {
    forall q | p <= q < e ensures t[q] == s[q - p + from] {
      assert t[p..e][q - p] == s[from..from + (e - p)][q - p];
    }
  }

  lemma Cut(t: string, p: nat, head: string, token: string, tail: string)
    requires p <= |t| && t[p..] == head + token + tail
    ensures var e := p + |head|; var next := e + |token|;
            && next <= |t| && t[p..e] == head && t[e..next] == token && t[next..] == tail
  {
    var e := p + |head|;
    var next := e + |token|;
    assert t[p..e] == t[p..][..|head|];
    assert t[e..next] == t[p..][|head|..|head| + |token|];
    assert t[next..] == t[p..][|head| + |token|..];
  }

  /** A match in that stretch is one of the original. */
  lemma MatchInStretch(secret: Secret, t: string, p: nat, s: string, from: nat, marks: seq<Mark>, a: nat, b: nat)
    requires Stands(t, p, s, from, marks) && Is(secret, t, a, b)
    requires p <= a < b <= p + (StretchEnd(s, marks) - from)
    ensures var start, end := a - p + from, b - p + from;
            && from <= start < end <= StretchEnd(s, marks) <= |s| && Is(secret, s, start, end)
            && a <= |t| && t[p..a] == s[from..start]
  {
    hide Is, IsBoundary, Masked, Marks;
    var e := p + (StretchEnd(s, marks) - from);
    FirstStretch(t, p, s, from, marks);
    SharedMatch(secret, t, p, e, s, from, a, b);
    SamePrefix(t, p, a, s, from);
  }

  lemma SamePrefix(t: string, p: nat, a: nat, s: string, from: nat)
    requires p <= a <= |t| && from + (a - p) <= |s|
    requires forall q :: p <= q < a ==> t[q] == s[q - p + from]
    ensures t[p..a] == s[from..a - p + from]
  {
  }

  /** What is left behind the match is such a stretch again. */
  lemma StandsLater(secret: Secret, t: string, p: nat, s: string, from: nat, marks: seq<Mark>, start: nat, end: nat)
    requires Stands(t, p, s, from, marks) && from <= start < end <= StretchEnd(s, marks) && Is(secret, s, start, end)
    ensures Stands(t, end - from + p, s, end, marks)
  {
    hide Is, IsBoundary, Masked;
    EdgesOfMark(Mark(secret, start, end), s);
    MaskedLater(s, from, end, marks);
    Cut(t, p, s[from..end], "", Masked(s, end, marks));
  }

  /** A match that is not in the stretch lies behind the token that ends it. */
  lemma MatchBehindToken(secret: Secret, t: string, p: nat, s: string, from: nat, marks: seq<Mark>, a: nat, b: nat)
    requires Stands(t, p, s, from, marks) && Is(secret, t, a, b)
    requires p <= a < b && p + (StretchEnd(s, marks) - from) < b
    ensures marks != [] && p + (StretchEnd(s, marks) - from) + |Token(marks[0].secret)| <= a
  {
    hide Is, IsBoundary, Masked, RuleOf, Matches, Token;
    FirstStretch(t, p, s, from, marks);
    RuleFinds(secret, t, a, b);
    InText(secret, t, a, b);
    var e := p + (StretchEnd(s, marks) - from);
    var by_ := RuleOf(marks[0].secret);
    RuleFinds(marks[0].secret, t, a, b);
    var next := e + |by_.replacement|;
    assert t == t[..e] + by_.replacement + t[next..] by { Rejoin(t, e, next); }
    MatchMissesToken(RuleOf(secret), by_, t[..e], t[next..], a, b);
  }

  lemma InText(secret: Secret, t: string, a: nat, b: nat)
    requires Is(secret, t, a, b)
    ensures b <= |t|
  {
  }

  lemma Rejoin(t: string, e: nat, next: nat)
    requires e <= next <= |t|
    ensures t == t[..e] + t[e..next] + t[next..]
  {
  }

  /** Going on behind the first mark. */
  lemma KeepMark(t: string, p: nat, s: string, from: nat, marks: seq<Mark>, rest: seq<Mark>)
    requires Stands(t, p, s, from, marks) && marks != [] && Marks(s, marks[0].end, rest)
    ensures var next := p + (StretchEnd(s, marks) - from) + |Token(marks[0].secret)|;
            && Marks(s, from, [marks[0]] + rest)
            && next <= |t| && Masked(s, from, [marks[0]] + rest) == t[p..next] + Masked(s, marks[0].end, rest)
  {
    hide Is, IsBoundary, Masked, Token;
    FirstStretch(t, p, s, from, marks);
    MaskFirst(s, from, marks[0], rest);
    var e := p + (StretchEnd(s, marks) - from);
    var next := e + |Token(marks[0].secret)|;
    SamePrefix(t, p, e, s, from);
    SplitSlice(t, p, e, next);
  }

  /** more marks the original where the rule replaces in t, besides where it was marked already. */
  ghost predicate Continues(secret: Secret, t: string, p: nat, s: string, from: nat, n: nat, more: seq<Mark>) {
    && p <= |t| && Marks(s, from, more)
    && Replace(RuleOf(secret), t, p) == Masked(s, from, more)
    && |more| == n + |FindAll(RuleOf(secret), t, p)|
  }

  lemma NoMatch(secret: Secret, t: string, p: nat, s: string, from: nat, marks: seq<Mark>)
    requires Stands(t, p, s, from, marks) && Find(RuleOf(secret).pattern, t, p).None?
    ensures Continues(secret, t, p, s, from, |marks|, marks)
  {
    hide Masked, Marks, Find, RuleOf;
  }

  lemma MarkMatch(secret: Secret, t: string, p: nat, s: string, from: nat, n: nat, m: Mark, a: nat, b: nat,
                  rest: seq<Mark>)
    requires p <= a < b <= |t| && Find(RuleOf(secret).pattern, t, p) == Some((a, b))
    requires from <= m.start < m.end <= |s| && Is(m.secret, s, m.start, m.end) && m.secret == secret
    requires t[p..a] == s[from..m.start] && Continues(secret, t, b, s, m.end, n, rest)
    ensures Continues(secret, t, p, s, from, n, [m] + rest)
  {
    hide Masked, Marks, Find, RuleOf, Is, Matches, Token;
    RuleFinds(secret, t, a, b);
    MaskFirst(s, from, m, rest);
  }

  lemma SkipMark(secret: Secret, t: string, p: nat, s: string, from: nat, marks: seq<Mark>, next: nat, rest: seq<Mark>)
    requires Stands(t, p, s, from, marks) && marks != []
    requires next == p + (StretchEnd(s, marks) - from) + |Token(marks[0].secret)| && next <= |t|
    requires var f := Find(RuleOf(secret).pattern, t, p); f.Some? && next <= f.value.0
    requires Continues(secret, t, next, s, marks[0].end, |marks| - 1, rest)
    ensures Continues(secret, t, p, s, from, |marks|, [marks[0]] + rest)
  {
    hide Masked, Marks, Find, RuleOf, Is, IsBoundary, Token, FindAll, Replace, Shares;
    FirstStretch(t, p, s, from, marks);
    KeepMark(t, p, s, from, marks, rest);
    FindLater(RuleOf(secret), t, p, next);
  }

  /** Replacing by a rule in a masked text is masking the original in more places. */
  lemma {:induction false} MoreMarks(secret: Secret, t: string, p: nat, s: string, from: nat, marks: seq<Mark>)
    returns (more: seq<Mark>)
    requires Stands(t, p, s, from, marks)
    ensures Continues(secret, t, p, s, from, |marks|, more)
    decreases |t| - p
  {
    hide Is, IsBoundary, Masked, Find, RuleOf, Marks, Token, NoneBetween, Continues, Replace, FindAll, Shares;
    FoundIs(secret, t, p);
    FirstStretch(t, p, s, from, marks);
    var f := Find(RuleOf(secret).pattern, t, p);
    if f.None? {
      more := marks;
      NoMatch(secret, t, p, s, from, marks);
    } else {
      var (a, b) := f.value;
      if b <= p + (StretchEnd(s, marks) - from) {
        MatchInStretch(secret, t, p, s, from, marks, a, b);
        var m := Mark(secret, a - p + from, b - p + from);
        StandsLater(secret, t, p, s, from, marks, m.start, m.end);
        var rest := MoreMarks(secret, t, b, s, m.end, marks);
        more := [m] + rest;
        MarkMatch(secret, t, p, s, from, |marks|, m, a, b, rest);
      } else {
        MatchBehindToken(secret, t, p, s, from, marks, a, b);
        TokenNotEmpty(marks[0].secret);
        var next := p + (StretchEnd(s, marks) - from) + |Token(marks[0].secret)|;
        var rest := MoreMarks(secret, t, next, s, marks[0].end, marks[1..]);
        more := [marks[0]] + rest;
        SkipMark(secret, t, p, s, from, marks, next, rest);
      }
    }
  }

  lemma TokenNotEmpty(secret: Secret)
    ensures Token(secret) != ""
  {
  }

  lemma AsItWas(s: string)
    ensures Stands(s, 0, s, 0, [])
  {
    MaskNone(s, 0);
    assert s[0..] == s;
  }

  lemma AsMasked(t: string, s: string, marks: seq<Mark>)
    requires Marks(s, 0, marks) && t == Masked(s, 0, marks)
    ensures Stands(t, 0, s, 0, marks)
  {
    hide Masked, Is;
    assert t[0..] == t;
    FirstEdge(t, s, marks);
  }

  lemma FirstEdge(t: string, s: string, marks: seq<Mark>)
    requires Marks(s, 0, marks) && t == Masked(s, 0, marks)
    ensures IsBoundary(t, 0) ==> IsBoundary(s, 0)
  {
    hide Is;
    if marks == [] {
      MaskNone(s, 0);
    } else {
      var m, rest := marks[0], marks[1..];
      assert marks == [m] + rest;
      MaskFirst(s, 0, m, rest);
      if m.start == 0 { EdgesOfMark(m, s); } else { assert t[0] == s[0..m.start][0] == s[0]; }
    }
  }

  /** For every text there is a list of secrets in it, apart from each other, such that redaction replaces each of
      them by the token of its kind and leaves every character around them where it was; the count is their number. */
  lemma RedactedIsMasked(input: string)
    ensures exists marks :: Marks(input, 0, marks) && RedactSpec(input) == Result(Masked(input, 0, marks), |marks|)
  {
    hide Replace, FindAll, Marks, Masked, RuleOf, Stands;
    RulesAreRules();
    RulesOfSecrets();
    AsItWas(input);
    var keys := MoreMarks(Key, input, 0, input, 0, []);
    var a := Replace(API_KEY, input, 0);
    AsMasked(a, input, keys);
    var mails := MoreMarks(Mail, a, 0, input, 0, keys);
    var b := Replace(EMAIL, a, 0);
    AsMasked(b, input, mails);
    var marks := MoreMarks(Phone, b, 0, input, 0, mails);
    assert RedactSpec(input) == Result(Masked(input, 0, marks), |marks|);
  }

  lemma RulesOfSecrets()
    ensures RuleOf(Key) == API_KEY && RuleOf(Mail) == EMAIL && RuleOf(Phone) == PHONE
  {
  }
}
