/** Replacing API keys, e-mail addresses and phone numbers by tokens. */
module Redaction {
  import opened Common
  import opened Regex
  import opened Text

  datatype Rule = Rule(pattern: Pattern, replacement: string)
  datatype Result = Result(text: string, count: nat)

  const API_KEY := Rule(
    [WordBoundary, One(Only('s')), One(Only('k')), One(Only('-')), AtLeast(KeyChar, 16), WordBoundary],
    "[REDACTED_API_KEY]")
  const EMAIL := Rule(
    [WordBoundary, AtLeast(LocalChar, 1), One(Only('@')), AtLeast(DomainChar, 1), One(Only('.')),
      AtLeast(FoldedLetter, 2), WordBoundary],
    "[REDACTED_EMAIL]")
  const PHONE := Rule(
    [WordBoundary, One(Only('1')), One(ThreeToNine), One(Digit), One(Digit), One(Digit), One(Digit),
     One(Digit), One(Digit), One(Digit), One(Digit), One(Digit), WordBoundary],
    "[REDACTED_PHONE]")
  const RULES := [API_KEY, EMAIL, PHONE]

  // ----- The library calls -----

  predicate MatchString(rule: Rule, s: string) { Find(rule.pattern, s, 0).Some? }

  predicate IsRule(rule: Rule) { rule == API_KEY || rule == EMAIL || rule == PHONE }

  /** Each rule spells out a character that no replacement token contains. */
  function Marker(rule: Rule): char {
    if rule == API_KEY then 's' else if rule == EMAIL then '@' else '1'
  }

  lemma MatchHasMarker(rule: Rule, s: string, i: nat, j: nat)
    requires IsRule(rule) && Matches(rule.pattern, s, i, j)
    ensures i < j <= |s| && exists q :: i <= q < j && s[q] == Marker(rule)
  {
    assert rule.pattern[1] == One(Only('s')) || rule.pattern[2] == One(Only('@')) || rule.pattern[1] == One(Only('1'));
    MatchHas(rule.pattern, s, i, j, Marker(rule));
  }

  lemma FindAdvances(rule: Rule, s: string, from: nat)
    requires IsRule(rule) && from <= |s|
    ensures var f := Find(rule.pattern, s, from); f.Some? ==> from <= f.value.0 < f.value.1 <= |s|
  {
    var f := Find(rule.pattern, s, from);
    if f.Some? { MatchHasMarker(rule, s, f.value.0, f.value.1); }
  }

  /** regexp.FindAllString from a position on: the next match starts where the last one ended. */
  function FindAll(rule: Rule, s: string, from: nat): seq<(nat, nat)>
    requires IsRule(rule) && from <= |s|
    decreases |s| - from
  {
    FindAdvances(rule, s, from);
    var f := Find(rule.pattern, s, from);
    if f.None? then [] else [f.value] + FindAll(rule, s, f.value.1)
  }

  /** regexp.ReplaceAllString from a position on. */
  function Replace(rule: Rule, s: string, from: nat): string
    requires IsRule(rule) && from <= |s|
    decreases |s| - from
  {
    FindAdvances(rule, s, from);
    var f := Find(rule.pattern, s, from);
    if f.None? then s[from..] else s[from..f.value.0] + rule.replacement + Replace(rule, s, f.value.1)
  }

  // ----- The code -----

  /** The rules from k on applied in turn. */
  function Apply(k: nat, r: Result): Result
    requires k <= |RULES|
    decreases |RULES| - k
  {
    if k == |RULES| then r
    else Apply(k + 1, Result(Replace(RULES[k], r.text, 0), r.count + |FindAll(RULES[k], r.text, 0)|))
  }

  function RedactSpec(input: string): Result { Apply(0, Result(input, 0)) }

  method Redact(input: string) returns (r: Result)
    ensures r == RedactSpec(input)
  {
    hide Replace, FindAll, IsRule;
    RulesAreRules();
    var text := input;
    var count: nat := 0;
    for k := 0 to |RULES|
      invariant Apply(k, Result(text, count)) == RedactSpec(input)
    {
      assert IsRule(RULES[k]);
      var matches := FindAll(RULES[k], text, 0);
      count := count + |matches|;
      text := Replace(RULES[k], text, 0);
    }
    return Result(text, count);
  }

  method ContainsSensitive(input: string) returns (found: bool)
    ensures found <==> Sensitive(input)
  {
    for k := 0 to |RULES|
      invariant forall m :: 0 <= m < k ==> !MatchString(RULES[m], input)
    {
      if MatchString(RULES[k], input) { return true; }
    }
    return false;
  }

  /** Some rule matches somewhere. */
  ghost predicate Sensitive(s: string) {
    exists k :: 0 <= k < |RULES| && MatchString(RULES[k], s)
  }

  // ----- Replacing by one rule -----

  ghost predicate Clean(rule: Rule, s: string) {
    forall i: nat, j: nat :: !Matches(rule.pattern, s, i, j)
  }

  lemma CleanIsNoMatch(rule: Rule, s: string)
    requires IsRule(rule)
    ensures Clean(rule, s) <==> !MatchString(rule, s)
  {
    if !MatchString(rule, s) {
      forall i: nat, j: nat ensures !Matches(rule.pattern, s, i, j) {
        if Matches(rule.pattern, s, i, j) { MatchHasMarker(rule, s, i, j); }
      }
    }
  }

  /** Every rule begins and ends with a word boundary, and no class of it has a bracket. */
  predicate Bracketless(rule: Rule) {
    var p := rule.pattern;
    p != [] && p[0].WordBoundary? && p[|p| - 1].WordBoundary? && Avoids(p, '[') && Avoids(p, ']')
  }

  lemma KeyShape()
    ensures Bracketless(API_KEY)
  {
  }

  lemma EmailShape()
    ensures Bracketless(EMAIL)
  {
  }

  lemma PhoneShape()
    ensures Bracketless(PHONE)
  {
  }

  lemma RuleShape(rule: Rule)
    requires IsRule(rule)
    ensures Bracketless(rule)
  {
    hide Bracketless;
    KeyShape();
    EmailShape();
    PhoneShape();
  }

  lemma MatchStarts(rule: Rule, s: string, i: nat, j: nat)
    requires IsRule(rule) && Matches(rule.pattern, s, i, j)
    ensures IsBoundary(s, i)
  {
    RuleShape(rule);
  }

  lemma MatchAvoidsBrackets(rule: Rule, s: string, i: nat, j: nat)
    requires IsRule(rule) && Matches(rule.pattern, s, i, j)
    ensures i < j <= |s| && forall q :: i <= q < j ==> s[q] != '[' && s[q] != ']'
    ensures IsBoundary(s, i) && IsBoundary(s, j)
  {
    hide Matches, Avoids, IsBoundary, IsRule;
    RuleShape(rule);
    MatchStarts(rule, s, i, j);
    MatchHasMarker(rule, s, i, j);
    MatchAvoids(rule.pattern, s, i, j, '[');
    MatchAvoids(rule.pattern, s, i, j, ']');
    MatchEndsAtBoundary(rule.pattern, s, i, j);
  }

  /** A token is bracketed, and holds no character that any rule insists on. */
  lemma TokenIsInert(by_: Rule, rule: Rule)
    requires IsRule(by_) && IsRule(rule)
    ensures var t := by_.replacement;
            |t| > 2 && t[0] == '[' && t[|t| - 1] == ']' && forall q :: 0 <= q < |t| ==> t[q] != Marker(rule)
  {
  }

  /** A kept stretch starts at the start of s, or behind a token at what was a word boundary. */
  predicate KeptFrom(s: string, from: nat, pre: string) {
    if pre == "" then from == 0 else pre[|pre| - 1] == ']' && IsBoundary(s, from)
  }

  predicate KeptTo(s: string, to: nat, post: string) {
    if post == "" then to == |s| else post[0] == '[' && IsBoundary(s, to)
  }

  /** A match of any rule after a replacement was already there, in a stretch that was kept. */
  lemma KeptMatch(rule: Rule, s: string, from: nat, to: nat, pre: string, post: string, i: nat, j: nat)
    requires IsRule(rule) && from <= to <= |s|
    requires KeptFrom(s, from, pre)
    requires KeptTo(s, to, post)
    requires Matches(rule.pattern, pre + s[from..to] + post, i, j) && |pre| <= i && j <= |pre| + (to - from)
    ensures i < j && Matches(rule.pattern, s, i - |pre| + from, j - |pre| + from)
  {
    var t := pre + s[from..to] + post;
    hide Matches, IsBoundary;
    var d := from - |pre|;
    MatchAvoidsBrackets(rule, t, i, j);
    forall q | i <= q <= j && IsBoundary(t, q) ensures IsBoundary(s, q + d) {
    }
    MatchMoves(rule.pattern, t, i, j, s, d);
  }

  /** No match touches a token: it lies wholly before or wholly behind it. */
  lemma MatchMissesToken(rule: Rule, by_: Rule, head: string, rest: string, i: nat, j: nat)
    requires IsRule(rule) && IsRule(by_)
    requires Matches(rule.pattern, head + by_.replacement + rest, i, j)
    ensures j <= |head| || |head| + |by_.replacement| <= i
  {
    hide Matches, IsBoundary;
    var token := by_.replacement;
    var t := head + token + rest;
    TokenIsInert(by_, rule);
    MatchAvoidsBrackets(rule, t, i, j);
    MatchHasMarker(rule, t, i, j);
    var q :| i <= q < j && t[q] == Marker(rule);
    var n := |head|;
    assert t[n..n + |token|] == token;
    forall k | n <= k < n + |token| ensures t[k] == token[k - n] {
      assert t[k] == t[n..n + |token|][k - n];
    }
  }

  /** Where a match after the replacement must have come from: a kept stretch before the next match
      of the replaced rule.  There is none of that rule itself. */
  lemma {:induction false} MatchAfterReplace(rule: Rule, by_: Rule, s: string, from: nat, pre: string, i: nat, j: nat)
    requires IsRule(rule) && IsRule(by_) && from <= |s|
    requires KeptFrom(s, from, pre)
    requires Matches(rule.pattern, pre + Replace(by_, s, from), i, j) && |pre| <= i
    ensures rule != by_ && !Clean(rule, s)
    decreases |s| - from
  {
    hide Matches, IsBoundary, Find, IsRule;
    FindAdvances(by_, s, from);
    var f := Find(by_.pattern, s, from);
    if f.None? {
      assert pre + Replace(by_, s, from) == pre + s[from..|s|] + "";
      MatchAvoidsBrackets(rule, pre + s[from..|s|] + "", i, j);
      KeptMatch(rule, s, from, |s|, pre, "", i, j);
    } else {
      var (a, b) := f.value;
      var head, token, rest := pre + s[from..a], by_.replacement, Replace(by_, s, b);
      assert pre + Replace(by_, s, from) == head + token + rest == head + (token + rest);
      MatchAvoidsBrackets(by_, s, a, b);
      TokenEnds(by_);
      MatchMissesToken(rule, by_, head, rest, i, j);
      if j <= |head| {
        KeptMatch(rule, s, from, a, pre, token + rest, i, j);
      } else {
        MatchAfterReplace(rule, by_, s, b, head + token, i, j);
      }
    }
  }

  lemma TokenEnds(by_: Rule)
    requires IsRule(by_)
    ensures var t := by_.replacement; |t| > 2 && t[0] == '[' && t[|t| - 1] == ']'
  {
  }

  // ----- Redacting -----

  /** Replacing by a rule leaves no match of it, and brings up none of another. */
  lemma ReplaceCleans(rule: Rule, by_: Rule, s: string)
    requires IsRule(rule) && IsRule(by_) && (rule == by_ || Clean(rule, s))
    ensures Clean(rule, Replace(by_, s, 0))
  {
    hide Matches, IsRule;
    forall i: nat, j: nat ensures !Matches(rule.pattern, Replace(by_, s, 0), i, j) {
      if Matches(rule.pattern, Replace(by_, s, 0), i, j) {
        assert "" + Replace(by_, s, 0) == Replace(by_, s, 0);
        MatchAfterReplace(rule, by_, s, 0, "", i, j);
      }
    }
  }

  lemma RulesAreRules()
    ensures IsRule(API_KEY) && IsRule(EMAIL) && IsRule(PHONE)
    ensures API_KEY != EMAIL && API_KEY != PHONE && EMAIL != PHONE
    ensures |RULES| == 3 && RULES[0] == API_KEY && RULES[1] == EMAIL && RULES[2] == PHONE
  {
  }

  lemma SensitiveRules(s: string)
    ensures Sensitive(s) <==> !Clean(API_KEY, s) || !Clean(EMAIL, s) || !Clean(PHONE, s)
  {
    hide Matches, Clean, MatchString;
    RulesAreRules();
    CleanIsNoMatch(API_KEY, s);
    CleanIsNoMatch(EMAIL, s);
    CleanIsNoMatch(PHONE, s);
    if Sensitive(s) {
      var k :| 0 <= k < |RULES| && MatchString(RULES[k], s);
      assert k == 0 || k == 1 || k == 2;
    }
    assert MatchString(RULES[0], s) || MatchString(RULES[1], s) || MatchString(RULES[2], s) ==> Sensitive(s);
  }

  /** For every input, no rule matches the redacted text. */
  lemma RedactedIsClean(s: string)
    ensures !Sensitive(RedactSpec(s).text)
  {
    hide Replace, FindAll, Clean, Sensitive, Matches;
    RulesAreRules();
    var t1 := Replace(API_KEY, s, 0);
    var t2 := Replace(EMAIL, t1, 0);
    var t3 := Replace(PHONE, t2, 0);
    ReplaceCleans(API_KEY, API_KEY, s);
    ReplaceCleans(API_KEY, EMAIL, t1);
    ReplaceCleans(API_KEY, PHONE, t2);
    ReplaceCleans(EMAIL, EMAIL, t1);
    ReplaceCleans(EMAIL, PHONE, t2);
    ReplaceCleans(PHONE, PHONE, t2);
    SensitiveRules(t3);
  }

  lemma CleanUntouched(rule: Rule, s: string)
    requires IsRule(rule) && Clean(rule, s)
    ensures Replace(rule, s, 0) == s && FindAll(rule, s, 0) == []
  {
    CleanIsNoMatch(rule, s);
  }

  lemma InsensitiveUntouched(s: string)
    requires !Sensitive(s)
    ensures RedactSpec(s) == Result(s, 0)
  {
    hide Replace, FindAll, Clean, Sensitive, Matches;
    RulesAreRules();
    SensitiveRules(s);
    CleanUntouched(API_KEY, s);
    CleanUntouched(EMAIL, s);
    CleanUntouched(PHONE, s);
  }

  /** Redacting a redacted text changes nothing and counts nothing. */
  lemma RedactTwice(s: string)
    ensures RedactSpec(RedactSpec(s).text) == Result(RedactSpec(s).text, 0)
  {
    RedactedIsClean(s);
    InsensitiveUntouched(RedactSpec(s).text);
  }

  // ----- The count -----

  lemma {:induction false} TallyOne(s: string, k: nat)
    requires k < |s| && s[k] == '[' && forall q :: 0 <= q < |s| && s[q] == '[' ==> q == k
    ensures Tally('[', s) == 1
  {
    if k > 0 {
      TallyOne(s[1..], k - 1);
    } else {
      TallyNone(s[1..]);
    }
  }

  lemma {:induction false} TallyNone(s: string)
    requires forall q :: 0 <= q < |s| ==> s[q] != '['
    ensures Tally('[', s) == 0
  {
    if s != "" { TallyNone(s[1..]); }
  }

  lemma {:induction false} ReplaceTally(rule: Rule, s: string, from: nat)
    requires IsRule(rule) && from <= |s|
    ensures Tally('[', Replace(rule, s, from)) == Tally('[', s[from..]) + |FindAll(rule, s, from)|
    decreases |s| - from
  {
    hide Matches, IsRule, Find, IsBoundary, Tally;
    FindAdvances(rule, s, from);
    var f := Find(rule.pattern, s, from);
    if f.Some? {
      var (a, b) := f.value;
      MatchAvoidsBrackets(rule, s, a, b);
      ReplaceTally(rule, s, b);
      TallyConcat('[', s[from..a], rule.replacement + Replace(rule, s, b));
      TallyConcat('[', rule.replacement, Replace(rule, s, b));
      TokenTally(rule);
      assert s[from..a] + rule.replacement + Replace(rule, s, b)
        == s[from..a] + (rule.replacement + Replace(rule, s, b));
      assert s[from..] == s[from..a] + (s[a..b] + s[b..]);
      TallyConcat('[', s[from..a], s[a..b] + s[b..]);
      TallyConcat('[', s[a..b], s[b..]);
      TallyNone(s[a..b]);
    }
  }

  lemma TokenTally(rule: Rule)
    requires IsRule(rule)
    ensures Tally('[', rule.replacement) == 1
  {
    TallyOne(rule.replacement, 0);
  }

  /** The count is the number of tokens that were put in: each adds one bracket, nothing removes one. */
  lemma CountIsTokens(s: string)
    ensures Tally('[', RedactSpec(s).text) == Tally('[', s) + RedactSpec(s).count
  {
    hide Replace, FindAll, Tally;
    RulesAreRules();
    var t1 := Replace(API_KEY, s, 0);
    var t2 := Replace(EMAIL, t1, 0);
    WholeTally(API_KEY, s);
    WholeTally(EMAIL, t1);
    WholeTally(PHONE, t2);
  }

  lemma WholeTally(rule: Rule, s: string)
    requires IsRule(rule)
    ensures Tally('[', Replace(rule, s, 0)) == Tally('[', s) + |FindAll(rule, s, 0)|
  {
    assert s[0..] == s;
    ReplaceTally(rule, s, 0);
  }

  lemma SensitiveCounts(s: string)
    requires Sensitive(s)
    ensures RedactSpec(s).count > 0
  {
    hide Replace, Matches;
    RulesAreRules();
    SensitiveRules(s);
    var t1 := Replace(API_KEY, s, 0);
    if Clean(API_KEY, s) {
      CleanUntouched(API_KEY, s);
      CleanIsNoMatch(EMAIL, s);
      CleanIsNoMatch(PHONE, s);
      if Clean(EMAIL, s) { CleanUntouched(EMAIL, s); }
    } else {
      CleanIsNoMatch(API_KEY, s);
    }
  }

  /** The three ways to say that a text holds nothing sensitive: no rule matches, redacting counts
      nothing, redacting changes nothing. */
  lemma UntouchedExactly(s: string)
    ensures !Sensitive(s) <==> RedactSpec(s).count == 0
    ensures !Sensitive(s) <==> RedactSpec(s).text == s
  {
    hide RedactSpec, Sensitive, Tally;
    CountIsTokens(s);
    if Sensitive(s) { SensitiveCounts(s); } else { InsensitiveUntouched(s); }
  }
}
