/** How far a redaction reaches: backtracking search picks the longest match, for each of the rules. */
module RedactionExtent {
  import opened Common
  import opened Regex
  import opened Redaction

  /** No other match from i reaches further than the one the matcher returns. */
  ghost predicate Longest(p: Pattern, s: string, i: nat)
    requires i <= |s|
  {
    forall k: nat :: Matches(p, s, i, k) ==> Run(p, s, i).Some? && k <= Run(p, s, i).value
  }

  lemma {:induction false} RunDownPicks(p: Pattern, s: string, i: nat, k: nat) returns (pick: nat)
    requires p != [] && p[0].AtLeast? && Repeats(p[0].cls, p[0].min, s, i, k)
    ensures i + p[0].min <= pick <= k <= |s| && RunDown(p, s, i, k) == Run(p[1..], s, pick)
    ensures forall q: nat :: pick < q <= k ==> Run(p[1..], s, q).None?
    decreases k
  {
    if Run(p[1..], s, k).Some? || k == i + p[0].min {
      pick := k;
    } else {
      pick := RunDownPicks(p, s, i, k - 1);
    }
  }

  /** A repetition is followed by the longest match from the furthest point where one exists. */
  lemma RepetitionPicks(p: Pattern, s: string, i: nat, k: nat) returns (pick: nat, q: nat)
    requires p != [] && p[0].AtLeast? && i <= |s| && Matches(p, s, i, k)
    ensures Run(p, s, i).Some? && pick <= |s| && Run(p, s, i) == Run(p[1..], s, pick)
    ensures Repeats(p[0].cls, p[0].min, s, i, q) && Matches(p[1..], s, q, k) && q <= pick
    ensures Repeats(p[0].cls, p[0].min, s, i, pick)
  {
    q :| Repeats(p[0].cls, p[0].min, s, i, q) && Matches(p[1..], s, q, k);
    assert Run(p[1..], s, q).Some?;
    var end := SpanEnd(p[0].cls, s, i);
    pick := RunDownPicks(p, s, i, end);
  }

  lemma {:induction false} FixedIsLongest(p: Pattern, s: string, i: nat)
    requires i <= |s| && forall item :: item in p ==> !item.AtLeast?
    ensures Longest(p, s, i)
    decreases |p|
  {
    if p != [] {
      if p[0].WordBoundary? {
        FixedIsLongest(p[1..], s, i);
      } else if i < |s| {
        FixedIsLongest(p[1..], s, i + 1);
      }
    }
  }

  /** A run of one class up to a word boundary. */
  lemma RunToBoundaryIsLongest(cls: CharClass, min: nat, s: string, i: nat)
    requires i <= |s|
    ensures Longest([AtLeast(cls, min), WordBoundary], s, i)
    ensures forall k: nat :: Matches([AtLeast(cls, min), WordBoundary], s, i, k) ==> Repeats(cls, min, s, i, k)
  {
    var p := [AtLeast(cls, min), WordBoundary];
    assert p[1..] == [WordBoundary];
    forall k: nat | Matches(p, s, i, k)
      ensures Run(p, s, i).Some? && k <= Run(p, s, i).value && Repeats(cls, min, s, i, k)
    {
      var pick, q := RepetitionPicks(p, s, i, k);
      assert Matches([WordBoundary], s, pick, Run(p, s, i).value);
    }
  }

  lemma AfterOne(p: Pattern, s: string, i: nat)
    requires p != [] && p[0].One? && i <= |s|
    requires i < |s| ==> Longest(p[1..], s, i + 1)
    ensures Longest(p, s, i)
  {
  }

  lemma AfterBoundary(p: Pattern, s: string, i: nat)
    requires p != [] && p[0].WordBoundary? && i <= |s| && Longest(p[1..], s, i)
    ensures Longest(p, s, i)
  {
  }

  const TOP_LEVEL: Pattern := [One(Only('.')), AtLeast(FoldedLetter, 2), WordBoundary]
  const HOST: Pattern := [AtLeast(DomainChar, 1)] + TOP_LEVEL
  const AT_HOST: Pattern := [One(Only('@'))] + HOST

  /** The last label: a dot and letters, up to the end of the match. */
  lemma TopLevelIsLongest(s: string, i: nat)
    requires i <= |s|
    ensures Longest(TOP_LEVEL, s, i)
    ensures forall k: nat :: Matches(TOP_LEVEL, s, i, k) ==>
              i + 3 <= k <= |s| && s[i] == '.' && forall q :: i < q < k ==> s[q] != '.'
  {
    var p := [AtLeast(FoldedLetter, 2), WordBoundary];
    assert TOP_LEVEL[1..] == p;
    if i < |s| { RunToBoundaryIsLongest(FoldedLetter, 2, s, i + 1); }
    AfterOne(TOP_LEVEL, s, i);
    forall k: nat | Matches(TOP_LEVEL, s, i, k)
      ensures i + 3 <= k <= |s| && s[i] == '.' && forall q :: i < q < k ==> s[q] != '.'
    {
      assert Repeats(FoldedLetter, 2, s, i + 1, k);
    }
  }

  /** Taking the last dot that works gives the longest host. */
  lemma HostIsLongest(s: string, i: nat)
    requires i <= |s|
    ensures Longest(HOST, s, i)
  {
    hide Matches, Run;
    assert HOST[1..] == TOP_LEVEL;
    forall k: nat | Matches(HOST, s, i, k) ensures Run(HOST, s, i).Some? && k <= Run(HOST, s, i).value {
      var pick, q := RepetitionPicks(HOST, s, i, k);
      TopLevelIsLongest(s, q);
      TopLevelIsLongest(s, pick);
      assert Matches(TOP_LEVEL, s, pick, Run(HOST, s, i).value);
    }
  }

  lemma AtHostIsLongest(s: string, i: nat)
    requires i <= |s|
    ensures Longest(AT_HOST, s, i)
    ensures forall k: nat :: Matches(AT_HOST, s, i, k) ==> i < |s| && s[i] == '@'
  {
    assert AT_HOST[1..] == HOST;
    if i < |s| { HostIsLongest(s, i + 1); }
    AfterOne(AT_HOST, s, i);
  }

  /** The local part has no choice: it must end where the '@' is. */
  lemma AddressIsLongest(s: string, i: nat)
    requires i <= |s|
    ensures Longest([AtLeast(LocalChar, 1)] + AT_HOST, s, i)
  {
    hide Matches, Run;
    var p := [AtLeast(LocalChar, 1)] + AT_HOST;
    assert p[1..] == AT_HOST;
    forall k: nat | Matches(p, s, i, k) ensures Run(p, s, i).Some? && k <= Run(p, s, i).value {
      var pick, q := RepetitionPicks(p, s, i, k);
      AtHostIsLongest(s, q);
      AtHostIsLongest(s, pick);
      assert Matches(AT_HOST, s, pick, Run(p, s, i).value);
      assert !LocalChar.Has('@') && q == pick;
    }
  }

  /** Every rule replaces the longest text that matches from where it starts. */
  lemma RulesTakeLongest(rule: Rule, s: string, i: nat)
    requires IsRule(rule) && i <= |s|
    ensures Longest(rule.pattern, s, i)
  {
    hide Matches, Run;
    var p := rule.pattern;
    if rule == PHONE {
      FixedIsLongest(p, s, i);
    } else if rule == EMAIL {
      assert p[1..] == [AtLeast(LocalChar, 1)] + AT_HOST;
      AddressIsLongest(s, i);
      AfterBoundary(p, s, i);
    } else {
      KeyIsLongest(s, i);
    }
  }

  lemma KeyIsLongest(s: string, i: nat)
    requires i <= |s|
    ensures Longest(API_KEY.pattern, s, i)
  {
    hide Matches, Run;
    var p := API_KEY.pattern;
    assert p[4..] == [AtLeast(KeyChar, 16), WordBoundary];
    assert p[3..][1..] == p[4..] && p[2..][1..] == p[3..] && p[1..][1..] == p[2..];
    if i + 3 <= |s| { RunToBoundaryIsLongest(KeyChar, 16, s, i + 3); }
    if i + 2 <= |s| { AfterOne(p[3..], s, i + 2); }
    if i + 1 <= |s| { AfterOne(p[2..], s, i + 1); }
    AfterOne(p[1..], s, i);
    AfterBoundary(p, s, i);
  }
}
