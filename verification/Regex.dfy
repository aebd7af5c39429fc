/**
 * The fragment of Go's regexp package that the redaction rules use: single characters, greedy
 * repetitions and ASCII word boundaries, searched from the left with backtracking.  A text is a
 * sequence of code points.
 */
module Regex {
  import opened Common

  datatype CharClass =
    | Only(c: char)
    | Digit            // \d
    | ThreeToNine      // [3-9]
    | KeyChar          // [A-Za-z0-9_-]
    | LocalChar        // [A-Z0-9._%+\-], case-insensitive
    | DomainChar       // [A-Z0-9.\-], case-insensitive
    | FoldedLetter     // [A-Z], case-insensitive
  {
    predicate Has(x: char) {
      match this
      case Only(c) => x == c
      case Digit => '0' <= x <= '9'
      case ThreeToNine => '3' <= x <= '9'
      case KeyChar => IsWord(x) || x == '-'
      case LocalChar => IsFolded(x) || '0' <= x <= '9' || x == '.' || x == '_' || x == '%' || x == '+' || x == '-'
      case DomainChar => IsFolded(x) || '0' <= x <= '9' || x == '.' || x == '-'
      case FoldedLetter => IsFolded(x)
    }
  }

  /** \w, ASCII only */
  predicate IsWord(x: char) {
    'a' <= x <= 'z' || 'A' <= x <= 'Z' || '0' <= x <= '9' || x == '_'
  }

  /** Letters that fold to A-Z: besides ASCII, the long s (U+017F) and the Kelvin sign (U+212A). */
  predicate IsFolded(x: char) {
    'a' <= x <= 'z' || 'A' <= x <= 'Z' || x == '\U{17F}' || x == '\U{212A}'
  }

  datatype Item = WordBoundary | One(cls: CharClass) | AtLeast(cls: CharClass, min: nat)

  type Pattern = seq<Item>

  /** \b: exactly one of the two neighbours is a word character. */
  predicate IsBoundary(s: string, i: int) {
    && 0 <= i <= |s|
    && (0 < i && IsWord(s[i - 1])) != (i < |s| && IsWord(s[i]))
  }

  /** s[i..j] matches the pattern in its place in s. */
  ghost predicate Matches(p: Pattern, s: string, i: nat, j: nat) {
    if p == [] then i == j <= |s|
    else
      match p[0]
      case WordBoundary => IsBoundary(s, i) && Matches(p[1..], s, i, j)
      case One(cls) => i < |s| && cls.Has(s[i]) && Matches(p[1..], s, i + 1, j)
      case AtLeast(cls, min) => exists k: nat :: Repeats(cls, min, s, i, k) && Matches(p[1..], s, k, j)
  }

  predicate Repeats(cls: CharClass, min: nat, s: string, i: nat, k: nat) {
    i + min <= k <= |s| && forall q :: i <= q < k ==> cls.Has(s[q])
  }

  // ----- The backtracking matcher -----

  function SpanEnd(cls: CharClass, s: string, i: nat): (k: nat)
    requires i <= |s|
    ensures Repeats(cls, 0, s, i, k)
    ensures k == |s| || !cls.Has(s[k])
    decreases |s| - i
  {
    if i < |s| && cls.Has(s[i]) then SpanEnd(cls, s, i + 1) else i
  }

  /** The end of the match that starts at i, each repetition tried from its longest reach down. */
  function Run(p: Pattern, s: string, i: nat): (r: Option<nat>)
    requires i <= |s|
    ensures r.Some? ==> Matches(p, s, i, r.value)
    ensures r.None? ==> forall j: nat :: !Matches(p, s, i, j)
    decreases |p|, |s| + 1
  {
    if p == [] then Some(i)
    else
      match p[0]
      case WordBoundary => if IsBoundary(s, i) then Run(p[1..], s, i) else None
      case One(cls) => if i < |s| && cls.Has(s[i]) then Run(p[1..], s, i + 1) else None
      case AtLeast(cls, min) =>
        var k := SpanEnd(cls, s, i);
        assert forall q: nat :: Repeats(cls, min, s, i, q) ==> q <= k;
        if k < i + min then None else RunDown(p, s, i, k)
  }

  function RunDown(p: Pattern, s: string, i: nat, k: nat): (r: Option<nat>)
    requires p != [] && p[0].AtLeast? && Repeats(p[0].cls, p[0].min, s, i, k)
    ensures r.Some? ==> Matches(p, s, i, r.value)
    ensures r.None? ==> forall q: nat, j: nat :: q <= k && Repeats(p[0].cls, p[0].min, s, i, q) ==>
              !Matches(p[1..], s, q, j)
    decreases |p|, k
  {
    var r := Run(p[1..], s, k);
    if r.Some? || k == i + p[0].min then r else RunDown(p, s, i, k - 1)
  }

  /** The leftmost match that starts at or after a position. */
  function Find(p: Pattern, s: string, from: nat): (r: Option<(nat, nat)>)
    requires from <= |s|
    ensures r.Some? ==>
              from <= r.value.0 <= |s| && Run(p, s, r.value.0) == Some(r.value.1) && Matches(p, s, r.value.0, r.value.1)
    ensures forall i: nat, j: nat :: from <= i && (r.None? || i < r.value.0) ==> i > |s| || !Matches(p, s, i, j)
    decreases |s| - from
  {
    var r := Run(p, s, from);
    if r.Some? then Some((from, r.value))
    else if from == |s| then None
    else Find(p, s, from + 1)
  }

  // ----- What a match consists of -----

  function MinWidth(p: Pattern): nat {
    if p == [] then 0
    else MinWidth(p[1..]) + match p[0] case WordBoundary => 0 case One(_) => 1 case AtLeast(_, min) => min
  }

  lemma {:induction false} MatchWidth(p: Pattern, s: string, i: nat, j: nat)
    requires Matches(p, s, i, j)
    ensures i + MinWidth(p) <= j <= |s|
    decreases |p|
  {
    if p != [] {
      match p[0]
      case WordBoundary => MatchWidth(p[1..], s, i, j);
      case One(_) => MatchWidth(p[1..], s, i + 1, j);
      case AtLeast(cls, min) =>
        var k: nat :| Repeats(cls, min, s, i, k) && Matches(p[1..], s, k, j);
        MatchWidth(p[1..], s, k, j);
    }
  }

  predicate Avoids(p: Pattern, x: char) {
    forall k :: 0 <= k < |p| ==> p[k].WordBoundary? || !p[k].cls.Has(x)
  }

  /** A character outside all classes of the pattern is in no match. */
  lemma {:induction false} MatchAvoids(p: Pattern, s: string, i: nat, j: nat, x: char)
    requires Matches(p, s, i, j) && Avoids(p, x)
    ensures j <= |s| && forall q :: i <= q < j ==> s[q] != x
    decreases |p|
  {
    if p != [] {
      match p[0]
      case WordBoundary => MatchAvoids(p[1..], s, i, j, x);
      case One(_) => MatchAvoids(p[1..], s, i + 1, j, x);
      case AtLeast(cls, min) =>
        var k: nat :| Repeats(cls, min, s, i, k) && Matches(p[1..], s, k, j);
        MatchAvoids(p[1..], s, k, j, x);
    }
  }

  /** A character the pattern spells out is in every match. */
  lemma {:induction false} MatchHas(p: Pattern, s: string, i: nat, j: nat, x: char)
    requires Matches(p, s, i, j) && One(Only(x)) in p
    ensures j <= |s| && exists q :: i <= q < j && s[q] == x
    decreases |p|
  {
    MatchWidth(p, s, i, j);
    match p[0]
    case WordBoundary => MatchHas(p[1..], s, i, j, x);
    case One(cls) =>
      if cls != Only(x) { MatchHas(p[1..], s, i + 1, j, x); } else { MatchWidth(p[1..], s, i + 1, j); }
    case AtLeast(cls, min) =>
      var k: nat :| Repeats(cls, min, s, i, k) && Matches(p[1..], s, k, j);
      MatchHas(p[1..], s, k, j, x);
  }

  lemma {:induction false} MatchEndsAtBoundary(p: Pattern, s: string, i: nat, j: nat)
    requires Matches(p, s, i, j) && p != [] && p[|p| - 1].WordBoundary?
    ensures IsBoundary(s, j)
    decreases |p|
  {
    if |p| > 1 {
      assert p[1..][|p[1..]| - 1] == p[|p| - 1];
      match p[0]
      case WordBoundary => MatchEndsAtBoundary(p[1..], s, i, j);
      case One(_) => MatchEndsAtBoundary(p[1..], s, i + 1, j);
      case AtLeast(cls, min) =>
        var k: nat :| Repeats(cls, min, s, i, k) && Matches(p[1..], s, k, j);
        MatchEndsAtBoundary(p[1..], s, k, j);
    }
  }

  /** A match depends on the characters it covers and on the boundaries in and around them. */
  lemma {:induction false} MatchMoves(p: Pattern, s: string, i: nat, j: nat, t: string, d: int)
    requires Matches(p, s, i, j) && i <= j <= |s| && i + d >= 0 && j + d <= |t|
    requires forall q :: i <= q < j ==> s[q] == t[q + d]
    requires forall q :: i <= q <= j && IsBoundary(s, q) ==> IsBoundary(t, q + d)
    ensures Matches(p, t, i + d, j + d)
    decreases |p|
  {
    if p != [] {
      match p[0]
      case WordBoundary =>
        assert IsBoundary(t, i + d);
        MatchMoves(p[1..], s, i, j, t, d);
      case One(_) =>
        MatchWidth(p[1..], s, i + 1, j);
        MatchMoves(p[1..], s, i + 1, j, t, d);
      case AtLeast(cls, min) =>
        var k: nat :| Repeats(cls, min, s, i, k) && Matches(p[1..], s, k, j);
        MatchWidth(p[1..], s, k, j);
        MatchMoves(p[1..], s, k, j, t, d);
        forall q | i + d <= q < k + d ensures cls.Has(t[q]) { assert s[q - d] == t[q - d + d]; }
        assert Repeats(cls, min, t, i + d, k + d);
    }
  }
}
