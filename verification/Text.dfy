/** The parts of Go's strings package that the modelled code calls, on sequences of code points. */
module Text {

  predicate OccursAt(s: string, p: string, i: int) {
    0 <= i <= i + |p| <= |s| && s[i..i + |p|] == p
  }

  predicate Contains(s: string, p: string) {
    exists i | 0 <= i <= |s| :: OccursAt(s, p, i)
  }

  /** The first occurrence at or after a position, -1 if there is none. */
  function IndexFrom(s: string, p: string, from: nat): (r: int)
    requires from <= |s|
    ensures r == -1 || (from <= r && OccursAt(s, p, r))
    ensures forall k :: from <= k && (r == -1 || k < r) ==> !OccursAt(s, p, k)
    decreases |s| - from
  {
    if OccursAt(s, p, from) then from
    else if from == |s| then -1
    else IndexFrom(s, p, from + 1)
  }

  function Index(s: string, p: string): (r: int)
    ensures r == -1 || OccursAt(s, p, r)
    ensures forall k :: r == -1 || k < r ==> !OccursAt(s, p, k)
  {
    IndexFrom(s, p, 0)
  }

  /** strings.ReplaceAll: occurrences from the left that do not overlap. */
  function ReplaceAll(s: string, old_: string, by_: string): string
    requires old_ != ""
    decreases |s|
  {
    var i := Index(s, old_);
    if i == -1 then s else s[..i] + by_ + ReplaceAll(s[i + |old_|..], old_, by_)
  }

  /** strings.Split. */
  function Split(s: string, sep: string): (r: seq<string>)
    requires sep != ""
    ensures r != []
    decreases |s|
  {
    var i := Index(s, sep);
    if i == -1 then [s] else [s[..i]] + Split(s[i + |sep|..], sep)
  }

  // ----- White space -----

  /** unicode.IsSpace */
  predicate IsSpace(c: char) {
    || '\t' <= c <= '\r' || c == ' ' || c == '\U{85}' || c == '\U{A0}' || c == '\U{1680}'
    || '\U{2000}' <= c <= '\U{200A}' || c == '\U{2028}' || c == '\U{2029}' || c == '\U{202F}'
    || c == '\U{205F}' || c == '\U{3000}'
  }

  function TrimLeft(s: string): (r: string)
    ensures |r| <= |s| && r == s[|s| - |r|..]
    ensures r != "" ==> !IsSpace(r[0])
    ensures forall k :: 0 <= k < |s| - |r| ==> IsSpace(s[k])
  {
    if s != "" && IsSpace(s[0]) then TrimLeft(s[1..]) else s
  }

  function TrimRight(s: string): (r: string)
    ensures |r| <= |s| && r == s[..|r|]
    ensures r != "" ==> !IsSpace(r[|r| - 1])
    ensures forall k :: |r| <= k < |s| ==> IsSpace(s[k])
  {
    if s != "" && IsSpace(s[|s| - 1]) then TrimRight(s[..|s| - 1]) else s
  }

  /** strings.TrimSpace */
  function TrimSpace(s: string): string { TrimRight(TrimLeft(s)) }

  predicate Trimmed(s: string) {
    s != "" ==> !IsSpace(s[0]) && !IsSpace(s[|s| - 1])
  }

  lemma TrimSpaceEdges(s: string)
    ensures Trimmed(TrimSpace(s))
    ensures Trimmed(s) ==> TrimSpace(s) == s
  {
    var l := TrimLeft(s);
    var r := TrimRight(l);
    if r != "" { assert r[0] == l[0]; }
  }

  lemma SliceOfSlice(s: string, a: nat, b: nat, c: nat, d: nat)
    requires a <= b <= |s| && c <= d <= b - a
    ensures s[a..b][c..d] == s[a + c..a + d]
  {
    assert forall k :: 0 <= k < d - c ==> s[a..b][c..d][k] == s[a + c..a + d][k];
  }

  lemma DropTake(s: string, from: nat, n: nat)
    requires from + n <= |s|
    ensures s[from..][..n] == s[from..from + n]
  {
    assert forall k :: 0 <= k < n ==> s[from..][..n][k] == s[from..from + n][k];
  }

  /** Trimming keeps one stretch of the text, and what it cuts off is blank. */
  lemma TrimSpaceSlice(s: string) returns (from: nat, to: nat)
    ensures from <= to <= |s| && TrimSpace(s) == s[from..to]
    ensures forall k :: 0 <= k < |s| && !(from <= k < to) ==> IsSpace(s[k])
  {
    hide IsSpace, TrimLeft, TrimRight;
    var l := TrimLeft(s);
    var n := |TrimRight(l)|;
    from := |s| - |l|;
    to := from + n;
    DropTake(s, from, n);
    forall k | to <= k < |s| ensures IsSpace(s[k]) { assert IsSpace(l[k - from]); }
  }

  lemma SliceOccurs(s: string, p: string, from: nat, to: nat, i: int)
    requires from <= to <= |s| && OccursAt(s[from..to], p, i)
    ensures OccursAt(s, p, from + i)
  {
    var u := s[from..to];
    forall k | 0 <= k < |p| ensures s[from + i + k] == p[k] {
      assert u[i..i + |p|][k] == u[i + k] == s[from + (i + k)];
    }
  }

  lemma TailOccurs(s: string, p: string, from: nat, i: int)
    requires from <= |s| && OccursAt(s[from..], p, i)
    ensures OccursAt(s, p, from + i)
  {
    assert s[from..] == s[from..|s|];
    SliceOccurs(s, p, from, |s|, i);
  }

  lemma TailLacks(s: string, p: string, from: nat)
    requires from <= |s| && !Contains(s, p)
    ensures !Contains(s[from..], p)
  {
    if i :| 0 <= i <= |s[from..]| && OccursAt(s[from..], p, i) {
      TailOccurs(s, p, from, i);
    }
  }

  /** Everything before the first occurrence lacks the pattern. */
  lemma PrefixLacks(s: string, p: string, i: nat)
    requires p != "" && i <= |s| && forall k :: 0 <= k < i ==> !OccursAt(s, p, k)
    ensures !Contains(s[..i], p)
  {
    if k :| 0 <= k <= |s[..i]| && OccursAt(s[..i], p, k) {
      assert s[..i] == s[0..i];
      SliceOccurs(s, p, 0, i, k);
    }
  }

  lemma Surround(s: string, p: string, i: int)
    requires OccursAt(s, p, i)
    ensures s == s[..i] + p + s[i + |p|..]
  {
    assert s == s[..i] + s[i..i + |p|] + s[i + |p|..];
  }

  lemma IndexBounds(s: string, p: string, from: nat)
    requires from <= |s|
    ensures var r := IndexFrom(s, p, from); r == -1 || from <= r <= r + |p| <= |s|
    ensures var r := Index(s, p); r == -1 || 0 <= r <= r + |p| <= |s|
    ensures Index(s, p) == -1 ==> !Contains(s, p)
  {
  }

  lemma OccursChars(s: string, p: string, i: int)
    requires OccursAt(s, p, i)
    ensures forall k :: 0 <= k < |p| ==> s[i + k] == p[k]
  {
    forall k | 0 <= k < |p| ensures s[i + k] == p[k] {
      assert s[i..i + |p|][k] == s[i + k];
    }
  }

  lemma NotContained(s: string, p: string)
    requires !Contains(s, p)
    ensures Index(s, p) == -1
    ensures p != "" ==> ReplaceAll(s, p, "") == s && Split(s, p) == [s]
    ensures forall i :: !OccursAt(s, p, i)
  {
  }

  // ----- Sequences -----

  lemma Associates<T>(a: seq<T>, b: seq<T>, c: seq<T>)
    ensures a + b + c == a + (b + c)
  {
  }

  lemma TailOfConcat<T>(a: seq<T>, b: seq<T>)
    requires a != []
    ensures (a + b)[0] == a[0] && (a + b)[1..] == a[1..] + b
  {
  }

  // ----- Bounds and counts -----

  /** Replacing by something no longer never lengthens, and makes up no character. */
  lemma {:induction false} ReplaceBounds(s: string, p: string, by_: string, c: char)
    requires p != "" && |by_| <= |p|
    ensures |ReplaceAll(s, p, by_)| <= |s|
    ensures |by_| < |p| && Contains(s, p) ==> |ReplaceAll(s, p, by_)| < |s|
    ensures c in ReplaceAll(s, p, by_) ==> c in s || c in by_
    decreases |s|
  {
    hide OccursAt, Contains;
    IndexBounds(s, p, 0);
    var i := Index(s, p);
    if i != -1 {
      ReplaceBounds(s[i + |p|..], p, by_, c);
      assert s == s[..i] + s[i..] && s[i..] == s[i..i + |p|] + s[i + |p|..];
    }
  }

  lemma TrimBounds(s: string, c: char)
    ensures |TrimSpace(s)| <= |s|
    ensures c in TrimSpace(s) ==> c in s
  {
    hide TrimSpace;
    var from, to := TrimSpaceSlice(s);
  }

  function Tally(c: char, s: string): nat {
    if s == "" then 0 else (if s[0] == c then 1 else 0) + Tally(c, s[1..])
  }

  lemma {:induction false} TallyConcat(c: char, a: string, b: string)
    ensures Tally(c, a + b) == Tally(c, a) + Tally(c, b)
  {
    if a == "" {
      assert a + b == b;
    } else {
      TallyConcat(c, a[1..], b);
      assert (a + b)[1..] == a[1..] + b;
    }
  }

  lemma {:induction false} TallyHas(c: char, s: string)
    ensures c in s <==> Tally(c, s) > 0
  {
    if s != "" {
      TallyHas(c, s[1..]);
      assert s == [s[0]] + s[1..];
    }
  }

  lemma TallySplit(c: char, s: string, i: nat, j: nat)
    requires i <= j <= |s|
    ensures Tally(c, s) == Tally(c, s[..i]) + Tally(c, s[i..j]) + Tally(c, s[j..])
  {
    hide Tally;
    assert s == s[..i] + s[i..] && s[i..] == s[i..j] + s[j..];
    TallyConcat(c, s[..i], s[i..]);
    TallyConcat(c, s[i..j], s[j..]);
  }

  /** Removing a pattern removes its characters. */
  lemma {:induction false} RemovalTally(s: string, p: string, c: char)
    requires c in p
    ensures Tally(c, ReplaceAll(s, p, "")) <= Tally(c, s)
    ensures Contains(s, p) ==> Tally(c, ReplaceAll(s, p, "")) < Tally(c, s)
    decreases |s|
  {
    hide OccursAt, Contains, Tally;
    IndexBounds(s, p, 0);
    var i := Index(s, p);
    if i != -1 {
      var x := s[i + |p|..];
      RemovalTally(x, p, c);
      TallySplit(c, s, i, i + |p|);
      IndexHit(s, p);
      TallyHas(c, p);
      assert s[..i] + "" + ReplaceAll(x, p, "") == s[..i] + ReplaceAll(x, p, "");
      TallyConcat(c, s[..i], ReplaceAll(x, p, ""));
    }
  }

  lemma IndexHit(s: string, p: string)
    requires Index(s, p) != -1
    ensures 0 <= Index(s, p) <= Index(s, p) + |p| <= |s| && s[Index(s, p)..Index(s, p) + |p|] == p
  {
  }

  lemma {:induction false} TrimLeftTally(s: string, c: char)
    requires !IsSpace(c)
    ensures Tally(c, TrimLeft(s)) == Tally(c, s)
  {
    if s != "" && IsSpace(s[0]) { TrimLeftTally(s[1..], c); }
  }

  lemma {:induction false} TrimRightTally(s: string, c: char)
    requires !IsSpace(c)
    ensures Tally(c, TrimRight(s)) == Tally(c, s)
  {
    hide Tally;
    if s != "" && IsSpace(s[|s| - 1]) {
      var n := |s| - 1;
      TrimRightTally(s[..n], c);
      TallySplit(c, s, n, n + 1);
      TallyHas(c, s[n..n + 1]);
      TallyHas(c, s[n + 1..]);
    }
  }

  /** Trimming takes away blanks only. */
  lemma TrimTally(s: string, c: char)
    requires !IsSpace(c)
    ensures Tally(c, TrimSpace(s)) == Tally(c, s)
  {
    hide Tally, TrimLeft, TrimRight, IsSpace;
    TrimLeftTally(s, c);
    TrimRightTally(TrimLeft(s), c);
  }
}
