/** When the load run counts a query as a hit: a substring check over the joined results. */
module LoadHits {
  import opened Phrases
  import opened Text
  import opened Digits
  import opened LoadRecords

  // ----- The check -----

  /** strings.ToLower on the characters that occur in the catalogue; none of its other letters has a case. */
  function LowerChar(c: char): char {
    if 'A' <= c <= 'Z' then "abcdefghijklmnopqrstuvwxyz"[(c as int) - ('A' as int)] else c
  }

  function Lower(s: string): (r: string)
    ensures |r| == |s|
  {
    seq(|s|, i requires 0 <= i < |s| => LowerChar(s[i]))
  }

  function Contents(results: seq<nat>): seq<string> {
    seq(|results|, i requires 0 <= i < |results| => Content(results[i]))
  }

  /** The condition under which a query for this target counts as a hit. */
  ghost predicate CountsAsHit(results: seq<nat>, target: nat) {
    HasAll(Lower, Contents(results), [Flag(target), Owner(target)])
  }

  // ----- Where the underscore of a record is -----

  lemma PlainHead(index: nat)
    ensures '_' !in ContentHead(index)
  {
  }

  lemma PlainTail(index: nat)
    ensures '_' !in ContentTail(index) && ContentTail(index) != "" && ContentTail(index)[0] == '，'
  {
    assert '_' !in Owner(index);
    assert ContentTail(index)[0] == "，owner 是 "[0];
  }

  /** From the underscore on, a record reads: its padded number, then its tail. */
  lemma AfterUnderscore(index: nat, q: nat)
    requires q < |Content(index)| && Content(index)[q] == '_'
    ensures Content(index)[q + 1..] == Padded(index, 4) + ContentTail(index)
  {
    hide ContentHead, ContentTail, Padded;
    PlainHead(index);
    PlainTail(index);
    var head, digits, tail := ContentHead(index), Padded(index, 4), ContentTail(index);
    assert Content(index) == head + ("ff_" + (digits + tail));
    assert "ff_"[0] == 'f' && "ff_"[1] == 'f';
    forall k | 0 <= k < |head| ensures Content(index)[k] != '_' {
      assert Content(index)[k] == head[k] && head[k] in head;
    }
    forall k | |head| + 3 <= k < |Content(index)| ensures Content(index)[k] != '_' {
      var x := Content(index)[k];
      assert x == (digits + tail)[k - |head| - 3];
      assert x in digits + tail;
    }
    assert q == |head| + 2;
  }

  // ----- Where the underscore of joined records is -----

  /** Behind an underscore of the joined text comes the padded number of one of the records, and then
      no further digit. */
  lemma {:induction false} JoinedUnderscore(results: seq<nat>, q: nat) returns (i: nat, rest: string)
    requires q < |Join(Contents(results))| && Join(Contents(results))[q] == '_'
    ensures i in results && Join(Contents(results))[q + 1..] == Padded(i, 4) + rest
    ensures rest != "" && rest[0] == '，'
    decreases |results|
  {
    hide Content, Padded, ContentTail;
    var c := Contents(results);
    var first := c[0];
    assert first == Content(results[0]);
    if q < |first| {
      i := results[0];
      AfterUnderscore(i, q);
      PlainTail(i);
      rest := ContentTail(i) + Join(c)[|first|..];
      assert Join(c) == first + Join(c)[|first|..];
      assert Join(c)[q + 1..] == first[q + 1..] + Join(c)[|first|..];
      assert Padded(i, 4) + ContentTail(i) + Join(c)[|first|..] == Padded(i, 4) + rest;
    } else {
      assert Contents(results[1..]) == c[1..];
      assert Join(c) == first + "\n" + Join(c[1..]);
      var q' := q - |first| - 1;
      i, rest := JoinedUnderscore(results[1..], q');
      assert Join(c)[q + 1..] == Join(c[1..])[q' + 1..];
    }
  }

  lemma LowerKeeps(s: string, k: nat)
    requires k < |s| && (Lower(s)[k] == '_' || IsDigit(Lower(s)[k]))
    ensures s[k] == Lower(s)[k]
  {
  }

  lemma LowerFlag(target: nat)
    ensures Lower(Flag(target)) == Flag(target)
  {
    hide Padded;
    var p := Padded(target, 4);
    assert forall k :: 0 <= k < |p| ==> IsDigit(p[k]);
    forall k | 0 <= k < |Flag(target)| ensures LowerChar(Flag(target)[k]) == Flag(target)[k] {
      if k >= 3 { assert Flag(target)[k] == p[k - 3]; }
    }
  }

  /** What a match of the flag in the joined text means. */
  lemma FlagIsPrefix(results: seq<nat>, target: nat) returns (i: nat)
    requires Contains(Lower(Join(Contents(results))), Flag(target))
    ensures i in results && Padded(target, 4) <= Padded(i, 4)
  {
    hide Padded, Join, Contents, LowerChar;
    var joined := Join(Contents(results));
    var flag, digits := Flag(target), Padded(target, 4);
    var p :| 0 <= p <= |joined| && OccursAt(Lower(joined), flag, p);
    OccursChars(Lower(joined), flag, p);
    assert Lower(joined)[p + 2] == flag[2] == '_';
    LowerKeeps(joined, p + 2);
    var rest;
    i, rest := JoinedUnderscore(results, p + 2);
    var behind := joined[p + 3..];
    assert forall k :: 0 <= k < |digits| ==> IsDigit(digits[k]);
    forall k | 0 <= k < |digits| ensures behind[k] == digits[k] {
      assert Lower(joined)[p + (3 + k)] == flag[3 + k] == digits[k];
      LowerKeeps(joined, p + (3 + k));
    }
    SplitsAlike(digits, Padded(i, 4), rest, behind);
  }

  /** Digits at the start of digits-then-no-digit lie within those digits. */
  lemma SplitsAlike(digits: string, number: string, rest: string, text: string)
    requires text == number + rest && rest != "" && rest[0] == '，'
    requires |digits| <= |text| && forall k :: 0 <= k < |digits| ==> text[k] == digits[k] && IsDigit(digits[k])
    ensures digits <= number
  {
    assert text[|number|] == rest[0];
    assert forall k :: 0 <= k < |digits| ==> digits[k] == number[k];
  }

  // ----- The other direction -----

  lemma SliceContains(s: string, p: string, a: nat)
    requires a + |p| <= |s| && s[a..a + |p|] == p
    ensures Contains(Lower(s), Lower(p))
  {
    assert Lower(s)[a..a + |p|] == Lower(p) by {
      forall k | 0 <= k < |p| ensures Lower(s)[a..a + |p|][k] == Lower(p)[k] {
        assert s[a + k] == s[a..a + |p|][k];
      }
    }
    assert OccursAt(Lower(s), Lower(p), a);
  }

  lemma {:induction false} JoinHolds(values: seq<string>, k: nat) returns (a: nat)
    requires k < |values|
    ensures a + |values[k]| <= |Join(values)| && Join(values)[a..a + |values[k]|] == values[k]
  {
    if k == 0 {
      a := 0;
      assert Join(values)[..|values[0]|] == values[0];
    } else {
      var b := JoinHolds(values[1..], k - 1);
      a := |values[0]| + 1 + b;
      assert Join(values) == values[0] + "\n" + Join(values[1..]);
      assert Join(values)[a..a + |values[k]|] == Join(values[1..])[b..b + |values[k]|];
    }
  }

  /** A part of one of the values is part of the joined text. */
  lemma PartContained(values: seq<string>, k: nat, p: string, from: nat)
    requires k < |values| && from + |p| <= |values[k]| && values[k][from..from + |p|] == p
    ensures Contains(Lower(Join(values)), Lower(p))
  {
    hide Join, Lower, Contains;
    var a := JoinHolds(values, k);
    var j := Join(values);
    SliceOfSlice(j, a, a + |values[k]|, from, from + |p|);
    SliceContains(j, p, a + from);
  }

  lemma FlagContained(results: seq<nat>, k: nat, target: nat)
    requires k < |results| && Padded(target, 4) <= Padded(results[k], 4)
    ensures Contains(Lower(Join(Contents(results))), Lower(Flag(target)))
  {
    hide Padded, Join, Lower, Contains, ContentHead, ContentTail;
    var i := results[k];
    var from := |ContentHead(i)|;
    var flag := Flag(target);
    assert Content(i)[from..from + |Flag(i)|] == Flag(i);
    assert flag <= Flag(i);
    assert Content(i)[from..from + |flag|] == Flag(i)[..|flag|] == flag;
    PartContained(Contents(results), k, flag, from);
  }

  lemma OwnerContained(results: seq<nat>, k: nat)
    requires k < |results|
    ensures Contains(Lower(Join(Contents(results))), Lower(Owner(results[k])))
  {
    hide Padded, Join, Lower, Contains, ContentHead, Flag, Owner;
    var i := results[k];
    var before := ContentHead(i) + Flag(i) + "，owner 是 ";
    var after := "，请求超时为 " + Decimal(500 + (i % 17) * 100) + "ms。";
    assert Content(i) == before + Owner(i) + after;
    assert Content(i)[|before|..|before| + |Owner(i)|] == Owner(i);
    PartContained(Contents(results), k, Owner(i), |before|);
  }

  // ----- Exactness -----

  /** For any catalogue size: the flag of a target is found exactly when some result's padded number
      begins with the target's. */
  lemma FlagFoundExactly(results: seq<nat>, target: nat)
    ensures Contains(Lower(Join(Contents(results))), Lower(Flag(target)))
            <==> exists k :: 0 <= k < |results| && Padded(target, 4) <= Padded(results[k], 4)
  {
    hide Padded, Join, Lower, Contains, Contents, Flag;
    LowerFlag(target);
    if Contains(Lower(Join(Contents(results))), Lower(Flag(target))) {
      var i := FlagIsPrefix(results, target);
      var k :| 0 <= k < |results| && results[k] == i;
    }
    if k :| 0 <= k < |results| && Padded(target, 4) <= Padded(results[k], 4) {
      FlagContained(results, k, target);
    }
  }

  lemma FourDigits(n: nat)
    requires n < 10_000
    ensures |Padded(n, 4)| == 4
  {
    DecimalLength(n);
    assert Pow10(4) == 10_000 by { assert Pow10(1) == 10 && Pow10(2) == 100 && Pow10(3) == 1000; }
    if |Decimal(n)| > 4 { Pow10Grows(4, |Decimal(n)| - 1); }
  }

  lemma {:induction false} Pow10Grows(a: nat, b: nat)
    requires a <= b
    ensures Pow10(a) <= Pow10(b)
  {
    if a < b { Pow10Grows(a, b - 1); }
  }

  /** Whatever the size of the catalogue, a query whose own record came back counts as a hit. */
  lemma OwnRecordCounts(results: seq<nat>, target: nat)
    requires target in results
    ensures CountsAsHit(results, target)
  {
    hide Padded, Join, Lower, Contains, Contents, Flag, Owner;
    var phrases := [Flag(target), Owner(target)];
    var k :| 0 <= k < |results| && results[k] == target;
    OwnerContained(results, k);
    FlagContained(results, k, target);
    forall m | 0 <= m < |phrases| ensures Contains(Lower(Join(Contents(results))), Lower(phrases[m])) {
      assert phrases[m] == Flag(target) || phrases[m] == Owner(target);
    }
    assert HasAll(Lower, Contents(results), phrases);
  }

  lemma ShortPrefixIsSame(a: nat, b: nat)
    requires a < 10_000 && b < 10_000 && Padded(a, 4) <= Padded(b, 4)
    ensures a == b
  {
    hide Padded, Decimal;
    FourDigits(a);
    FourDigits(b);
    assert Padded(a, 4) == Padded(b, 4)[..4] == Padded(b, 4);
    PaddedValue(a, 4);
    PaddedValue(b, 4);
  }

  /** In a catalogue of at most ten thousand records a query counts as a hit exactly when its own
      record is among the results. */
  lemma HitsAreExact(results: seq<nat>, target: nat)
    requires target < 10_000 && forall r :: r in results ==> r < 10_000
    ensures CountsAsHit(results, target) <==> target in results
  {
    hide Padded, Join, Lower, Contains, Contents, Flag, Owner;
    FlagFoundExactly(results, target);
    if CountsAsHit(results, target) {
      assert Contains(Lower(Join(Contents(results))), Lower([Flag(target), Owner(target)][0]));
      var k :| 0 <= k < |results| && Padded(target, 4) <= Padded(results[k], 4);
      assert results[k] in results;
      ShortPrefixIsSame(target, results[k]);
    }
    if target in results { OwnRecordCounts(results, target); }
  }

  lemma DecimalTenThousand()
    ensures Padded(10_000, 4) == "10000" && Padded(1000, 4) == "1000"
  {
    assert Decimal(1) == "1" && Decimal(10) == "10" && Decimal(100) == "100";
    assert Decimal(1000) == "1000";
    assert Decimal(10_000) == Decimal(1000) + "0";
  }

  /** One record more, and there is a false hit: ff_1000 is found in ff_10000, and the owner of record
      1000 in record 11. */
  lemma HitBoundIsTight()
    ensures CountsAsHit([10_000, 11], 1000) && 1000 !in [10_000, 11]
  {
    hide Padded, Join, Lower, Contains, Contents, Flag;
    var results := [10_000, 11];
    DecimalTenThousand();
    assert "1000" <= "10000";
    FlagFoundExactly(results, 1000);
    assert results[0] == 10_000;
    OwnerContained(results, 1);
    assert 1000 % 23 == 11 == 11 % 23;
    assert Owner(1000) == Owner(11);
  }

  /** The hit counter tells hits from misses in a catalogue of n records exactly when n is at most ten thousand. */
  lemma HitsAreExactUpTo(n: nat)
    ensures (forall results: seq<nat>, target: nat :: target < n && (forall r :: r in results ==> r < n) ==>
               (CountsAsHit(results, target) <==> target in results))
            <==> n <= 10_000
  {
    hide CountsAsHit;
    if n <= 10_000 {
      forall results: seq<nat>, target: nat | target < n && forall r :: r in results ==> r < n
        ensures CountsAsHit(results, target) <==> target in results
      {
        HitsAreExact(results, target);
      }
    } else {
      HitBoundIsTight();
    }
  }
}
