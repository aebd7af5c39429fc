/** Cleaning reasoning tags out of a model's answer: the string passes, and what they mean on tokens. */
module ThinkTags {
  import opened Text

  const OPEN := "<think>"
  const CLOSE := "</think>"

  // ----- The passes -----

  /** The specification of the loop below: cut from the first opening tag through the next closing tag,
      again and again. */
  function Strip(text: string): string
    decreases |text|
  {
    var start := Index(text, OPEN);
    if start == -1 then text
    else
      var end := IndexFrom(text, CLOSE, start + |OPEN|);
      if end == -1 then text else Strip(text[..start] + text[end + |CLOSE|..])
  }

  method StripBalancedThinkBlocks(input: string) returns (text: string)
    ensures text == Strip(input)
  {
    hide OccursAt;
    text := input;
    while true
      invariant Strip(text) == Strip(input)
      decreases |text|
    {
      var start := Index(text, OPEN);
      IndexBounds(text, OPEN, 0);
      if start == -1 { return; }
      var end := Index(text[start + |OPEN|..], CLOSE);
      IndexBounds(text[start + |OPEN|..], CLOSE, 0);
      AfterOffset(text, CLOSE, start + |OPEN|);
      if end == -1 { return; }
      end := end + start + |OPEN|;
      text := text[..start] + text[end + |CLOSE|..];
    }
  }

  lemma OccursBehind(s: string, p: string, from: nat, k: nat)
    requires from <= |s| && from <= k
    ensures OccursAt(s, p, k) <==> OccursAt(s[from..], p, k - from)
  {
    if k + |p| <= |s| {
      assert s[from..] == s[from..|s|];
      SliceOfSlice(s, from, |s|, k - from, k - from + |p|);
    }
  }

  lemma AfterOffset(s: string, p: string, from: nat)
    requires from <= |s|
    ensures var r := Index(s[from..], p); IndexFrom(s, p, from) == if r == -1 then -1 else from + r
  {
    hide OccursAt, IndexFrom, Index;
    var r := Index(s[from..], p);
    var t := IndexFrom(s, p, from);
    forall k | from <= k
      ensures OccursAt(s, p, k) <==> OccursAt(s[from..], p, k - from)
    {
      OccursBehind(s, p, from, k);
    }
    if r != -1 {
      HitInside(s[from..], p, r);
      assert OccursAt(s, p, from + r);
    }
    if t != -1 { assert OccursAt(s[from..], p, t - from); }
  }

  lemma HitInside(s: string, p: string, i: int)
    requires OccursAt(s, p, i)
    ensures 0 <= i <= |s| - |p|
  {
  }

  /** The first segment between closing tags that is not blank, for parts from index k on. */
  function FirstAnswer(parts: seq<string>, k: nat): string
    requires k <= |parts|
    decreases |parts| - k
  {
    if k == |parts| then ""
    else
      var part := TrimSpace(ReplaceAll(parts[k], OPEN, ""));
      if part != "" then part else FirstAnswer(parts, k + 1)
  }

  function StripLeaked(text: string): string {
    if Contains(text, CLOSE) then FirstAnswer(Split(text, CLOSE), 0) else text
  }

  method StripLeakedThinkClosures(text: string) returns (r: string)
    ensures r == StripLeaked(text)
  {
    if !Contains(text, CLOSE) { return text; }
    var parts := Split(text, CLOSE);
    for k := 0 to |parts|
      invariant FirstAnswer(parts, 0) == FirstAnswer(parts, k)
    {
      var part := TrimSpace(ReplaceAll(parts[k], OPEN, ""));
      if part != "" { return part; }
    }
    return "";
  }

  function Normalize(text: string): string { ReplaceAll(text, "\r\n", "\n") }

  function LastPasses(text: string): string {
    TrimSpace(ReplaceAll(ReplaceAll(text, OPEN, ""), CLOSE, ""))
  }

  function Sanitize(text: string): string { LastPasses(StripLeaked(Strip(Normalize(text)))) }

  // ----- What stripping does to every string -----

  /** r can be had from s by deleting characters. */
  predicate Subsequence(r: string, s: string) {
    r == "" || (s != "" && ((r[0] == s[0] && Subsequence(r[1..], s[1..])) || Subsequence(r, s[1..])))
  }

  lemma {:induction false} SubsequenceTail(s: string, k: nat, r: string)
    requires k <= |s| && Subsequence(r, s[k..])
    ensures Subsequence(r, s)
  {
    if k > 0 {
      assert s[1..][k - 1..] == s[k..];
      SubsequenceTail(s[1..], k - 1, r);
    } else {
      assert s[0..] == s;
    }
  }

  lemma {:induction false} SubsequenceKeep(a: string, r: string, s: string)
    requires Subsequence(r, s)
    ensures Subsequence(a + r, a + s)
  {
    if a == "" {
      assert a + r == r && a + s == s;
    } else {
      SubsequenceKeep(a[1..], r, s);
      assert (a + r)[1..] == a[1..] + r && (a + s)[1..] == a[1..] + s;
    }
  }

  lemma {:induction false} SubsequenceRefl(s: string)
    ensures Subsequence(s, s)
  {
    if s != "" { SubsequenceRefl(s[1..]); }
  }

  lemma {:induction false} SubsequenceTrans(a: string, b: string, c: string)
    requires Subsequence(a, b) && Subsequence(b, c)
    ensures Subsequence(a, c)
    decreases |b| + |c|
  {
    if a != "" && b != "" {
      if b[0] == c[0] && Subsequence(b[1..], c[1..]) {
        if a[0] == b[0] && Subsequence(a[1..], b[1..]) {
          SubsequenceTrans(a[1..], b[1..], c[1..]);
        } else {
          SubsequenceTrans(a, b[1..], c[1..]);
        }
      } else {
        SubsequenceTrans(a, b, c[1..]);
      }
    }
  }

  lemma CutIsSubsequence(s: string, i: nat, j: nat)
    requires i <= j <= |s|
    ensures Subsequence(s[..i] + s[j..], s)
  {
    SubsequenceRefl(s[j..]);
    assert s[i..][j - i..] == s[j..];
    SubsequenceTail(s[i..], j - i, s[j..]);
    SubsequenceKeep(s[..i], s[j..], s[i..]);
    assert s[..i] + s[i..] == s;
  }

  /** How often the loop cuts. */
  function Rounds(text: string): nat
    decreases |text|
  {
    var start := Index(text, OPEN);
    if start == -1 then 0
    else
      var end := IndexFrom(text, CLOSE, start + |OPEN|);
      if end == -1 then 0 else 1 + Rounds(text[..start] + text[end + |CLOSE|..])
  }

  lemma UnclosedHasNoPair(text: string, start: nat)
    requires Index(text, OPEN) == start && IndexFrom(text, CLOSE, start + |OPEN|) == -1
    ensures forall i, j :: OccursAt(text, OPEN, i) && OccursAt(text, CLOSE, j) ==> j + |CLOSE| <= i
  {
    forall i, j | OccursAt(text, OPEN, i) && OccursAt(text, CLOSE, j) ensures j + |CLOSE| <= i {
      TagsApart(text, OPEN, i, CLOSE, j);
      TagsApart(text, OPEN, start, CLOSE, j);
    }
  }

  /** The loop's exit: no tag pair is left to cut. */
  lemma {:induction false} StripLeavesNoPair(text: string)
    ensures forall i, j :: OccursAt(Strip(text), OPEN, i) && OccursAt(Strip(text), CLOSE, j) ==> j + |CLOSE| <= i
    decreases |text|
  {
    hide OccursAt;
    IndexBounds(text, OPEN, 0);
    var start := Index(text, OPEN);
    if start != -1 {
      IndexBounds(text, CLOSE, start + |OPEN|);
      var end := IndexFrom(text, CLOSE, start + |OPEN|);
      if end == -1 {
        UnclosedHasNoPair(text, start);
      } else {
        StripLeavesNoPair(text[..start] + text[end + |CLOSE|..]);
      }
    }
  }

  lemma {:induction false} StripDeletes(text: string)
    ensures |Strip(text)| + 15 * Rounds(text) <= |text|
    ensures Subsequence(Strip(text), text)
    decreases |text|
  {
    hide OccursAt, Subsequence;
    IndexBounds(text, OPEN, 0);
    var start := Index(text, OPEN);
    if start != -1 { IndexBounds(text, CLOSE, start + |OPEN|); }
    var end := if start == -1 then -1 else IndexFrom(text, CLOSE, start + |OPEN|);
    if end == -1 {
      SubsequenceRefl(text);
    } else {
      var cut := text[..start] + text[end + |CLOSE|..];
      StripDeletes(cut);
      CutIsSubsequence(text, start, end + |CLOSE|);
      SubsequenceTrans(Strip(cut), cut, text);
    }
  }

  /** On every string: each round removes at least both tags, only deletion happens, and whatever
      closing tags remain lie wholly before the first opening tag. */
  lemma StripOnAnyText(text: string)
    ensures |Strip(text)| + 15 * Rounds(text) <= |text|
    ensures Subsequence(Strip(text), text)
    ensures forall i, j :: OccursAt(Strip(text), OPEN, i) && OccursAt(Strip(text), CLOSE, j) ==> j + |CLOSE| <= i
  {
    StripDeletes(text);
    StripLeavesNoPair(text);
  }

  predicate IsTag(t: string) { t == OPEN || t == CLOSE }

  lemma TagInterior(text: string, t: string, i: int)
    requires IsTag(t) && OccursAt(text, t, i)
    ensures text[i] == '<' && text[i + 1] == t[1]
    ensures forall k :: i < k < i + |t| ==> text[k] != '<'
  {
    OccursChars(text, t, i);
    assert text[i + 0] == t[0] && text[i + 1] == t[1];
    forall k | i < k < i + |t| ensures text[k] != '<' {
      assert text[i + (k - i)] == t[k - i];
    }
  }

  /** Two tags in one text never overlap: each has its only '<' in front. */
  lemma TagsApart(text: string, t: string, i: int, u: string, j: int)
    requires IsTag(t) && IsTag(u) && OccursAt(text, t, i) && OccursAt(text, u, j)
    ensures i == j ==> t == u
    ensures i == j || i + |t| <= j || j + |u| <= i
  {
    TagInterior(text, t, i);
    TagInterior(text, u, j);
  }
}
