/** Options, the byte-wise order that Go uses on strings, sorting, and totals over a pool. */
module Common {
  datatype Option<+T> = None | Some(value: T)

  datatype Fallible<+T> = Ok(value: T) | Err(message: string)

  predicate Distinct<T(==)>(s: seq<T>) {
    forall i, j :: 0 <= i < j < |s| ==> s[i] != s[j]
  }

  // ----- Order on strings -----

  predicate LexLeq(a: string, b: string) {
    a == [] || (b != [] && (a[0] < b[0] || (a[0] == b[0] && LexLeq(a[1..], b[1..]))))
  }

  lemma {:induction false} LexRefl(a: string)
    ensures LexLeq(a, a)
  {
    if a != [] { LexRefl(a[1..]); }
  }

  lemma {:induction false} LexTotal(a: string, b: string)
    ensures LexLeq(a, b) || LexLeq(b, a)
  {
    if a != [] && b != [] && a[0] == b[0] { LexTotal(a[1..], b[1..]); }
  }

  lemma {:induction false} LexAntisym(a: string, b: string)
    requires LexLeq(a, b) && LexLeq(b, a)
    ensures a == b
  {
    if a != [] {
      LexAntisym(a[1..], b[1..]);
      assert a == [a[0]] + a[1..] && b == [b[0]] + b[1..];
    }
  }

  lemma {:induction false} LexTrans(a: string, b: string, c: string)
    requires LexLeq(a, b) && LexLeq(b, c)
    ensures LexLeq(a, c)
  {
    if a != [] && a[0] == b[0] && b[0] == c[0] { LexTrans(a[1..], b[1..], c[1..]); }
  }

  // ----- Sorting -----

  ghost predicate TotalPreorder<T(!new)>(leq: (T, T) -> bool) {
    && (forall x, y :: leq(x, y) || leq(y, x))
    && (forall x, y, z :: leq(x, y) && leq(y, z) ==> leq(x, z))
  }

  predicate Sorted<T>(leq: (T, T) -> bool, s: seq<T>) {
    forall i, j :: 0 <= i < j < |s| ==> leq(s[i], s[j])
  }

  /** What a library sort promises: the same elements, in order.  Ties may come out either way. */
  predicate SortOf<T(==)>(leq: (T, T) -> bool, input: seq<T>, output: seq<T>) {
    multiset(output) == multiset(input) && Sorted(leq, output)
  }

  function Insert<T>(leq: (T, T) -> bool, x: T, s: seq<T>): (r: seq<T>)
    ensures multiset(r) == multiset{x} + multiset(s)
  {
    if s == [] then [x]
    else if leq(x, s[0]) then [x] + s
    else
      assert s == [s[0]] + s[1..];
      [s[0]] + Insert(leq, x, s[1..])
  }

  lemma {:induction false} InsertSorted<T(!new)>(leq: (T, T) -> bool, x: T, s: seq<T>)
    requires TotalPreorder(leq) && Sorted(leq, s)
    ensures Sorted(leq, Insert(leq, x, s))
  {
    if s != [] && !leq(x, s[0]) {
      InsertSorted(leq, x, s[1..]);
      var t := Insert(leq, x, s[1..]);
      forall i | 0 <= i < |t| ensures leq(s[0], t[i]) {
        assert t[i] in multiset(t);
        if t[i] != x { assert t[i] in s[1..]; }
      }
    } else if s != [] {
      assert forall i :: 0 < i < |s| ==> leq(s[0], s[i]);
    }
  }

  function SortBy<T>(leq: (T, T) -> bool, s: seq<T>): (r: seq<T>)
    ensures multiset(r) == multiset(s)
  {
    if s == [] then []
    else
      assert s == [s[0]] + s[1..];
      Insert(leq, s[0], SortBy(leq, s[1..]))
  }

  lemma {:induction false} SortByIsSort<T(!new)>(leq: (T, T) -> bool, s: seq<T>)
    requires TotalPreorder(leq)
    ensures SortOf(leq, s, SortBy(leq, s))
  {
    if s != [] {
      SortByIsSort(leq, s[1..]);
      InsertSorted(leq, s[0], SortBy(leq, s[1..]));
    }
  }

  /** When no two different elements tie, sorting leaves no choice at all. */
  lemma {:induction false} SortUnique<T>(leq: (T, T) -> bool, a: seq<T>, b: seq<T>)
    requires Sorted(leq, a) && Sorted(leq, b)
    requires multiset(a) == multiset(b)
    requires forall x, y :: x in a && y in a && leq(x, y) && leq(y, x) ==> x == y
    ensures a == b
  {
    if |a| == 0 {
      SameSize(a, b);
    } else {
      SameSize(a, b);
      FirstsAgree(leq, a, b);
      TailBag(a);
      TailBag(b);
      SortUnique(leq, a[1..], b[1..]);
    }
  }

  lemma SameSize<T>(a: seq<T>, b: seq<T>)
    requires multiset(a) == multiset(b)
    ensures |a| == |b|
  {
    assert |multiset(a)| == |a| && |multiset(b)| == |b|;
  }

  lemma TailBag<T>(a: seq<T>)
    requires a != []
    ensures a == [a[0]] + a[1..]
    ensures multiset(a[1..]) == multiset(a) - multiset{a[0]}
  {
    assert a == [a[0]] + a[1..];
  }

  lemma FirstsAgree<T>(leq: (T, T) -> bool, a: seq<T>, b: seq<T>)
    requires Sorted(leq, a) && Sorted(leq, b) && |a| == |b| > 0
    requires multiset(a) == multiset(b)
    requires forall x, y :: x in a && y in a && leq(x, y) && leq(y, x) ==> x == y
    ensures a[0] == b[0]
  {
    SameElements(a, b, a[0]);
    SameElements(a, b, b[0]);
  }

  lemma SameElements<T>(a: seq<T>, b: seq<T>, x: T)
    requires multiset(a) == multiset(b)
    ensures x in a <==> x in b
    ensures |a| == |b|
  {
    assert x in a <==> x in multiset(a);
    assert x in b <==> x in multiset(b);
    assert |multiset(a)| == |a| && |multiset(b)| == |b|;
  }

  /** Taking the element at index k out of a sequence. */
  function Without<T>(s: seq<T>, k: nat): (r: seq<T>)
    requires k < |s|
    ensures |r| == |s| - 1
    ensures multiset(r) == multiset(s) - multiset{s[k]}
  {
    assert s == s[..k] + [s[k]] + s[k + 1..];
    s[..k] + s[k + 1..]
  }

  /** The place of each element of b in a, no place taken twice. */
  ghost predicate Pairs<T>(a: seq<T>, b: seq<T>, places: seq<nat>) {
    && |places| == |b| == |a|
    && Distinct(places)
    && forall i :: 0 <= i < |b| ==> places[i] < |a| && a[places[i]] == b[i]
  }

  /** Places in a sequence after an element was put in at k. */
  function Shifted(places: seq<nat>, k: nat): (r: seq<nat>)
    ensures |r| == |places|
    ensures forall i :: 0 <= i < |r| ==> r[i] == if places[i] < k then places[i] else places[i] + 1
  {
    seq(|places|, i requires 0 <= i < |places| => if places[i] < k then places[i] else places[i] + 1)
  }

  lemma PairFirst<T>(a: seq<T>, b: seq<T>, k: nat, rest: seq<nat>)
    requires b != [] && k < |a| && a[k] == b[0] && Pairs(Without(a, k), b[1..], rest)
    ensures Pairs(a, b, [k] + Shifted(rest, k))
  {
    var places := [k] + Shifted(rest, k);
    ShiftedDiffer(rest, k);
    forall i | 0 <= i < |b| ensures places[i] < |a| && a[places[i]] == b[i] {
      if i > 0 { assert Without(a, k)[rest[i - 1]] == b[1..][i - 1]; }
    }
  }

  lemma ShiftedDiffer(rest: seq<nat>, k: nat)
    requires Distinct(rest)
    ensures Distinct([k] + Shifted(rest, k))
  {
    hide Shifted;
    var places := [k] + Shifted(rest, k);
    forall i, j | 0 <= i < j < |places| ensures places[i] != places[j] {
      if i > 0 { assert rest[i - 1] != rest[j - 1]; }
    }
  }

  /** Sequences with the same elements can be paired off. */
  lemma {:induction false} SameBagPairs<T>(a: seq<T>, b: seq<T>)
    requires multiset(a) == multiset(b)
    ensures exists places :: Pairs(a, b, places)
    decreases |b|
  {
    hide Pairs;
    SameSize(a, b);
    if b == [] {
      NothingPairs(a, b);
    } else {
      SameElements(a, b, b[0]);
      var k :| 0 <= k < |a| && a[k] == b[0];
      TailBag(b);
      SameBagPairs(Without(a, k), b[1..]);
      var rest :| Pairs(Without(a, k), b[1..], rest);
      PairFirst(a, b, k, rest);
    }
  }

  lemma NothingPairs<T>(a: seq<T>, b: seq<T>)
    requires a == b == []
    ensures Pairs(a, b, [])
  {
  }

  // ----- Counting -----

  function Count<T>(keep: T -> bool, s: seq<T>): (r: nat)
    ensures r <= |s|
  {
    if s == [] then 0 else (if keep(s[0]) then 1 else 0) + Count(keep, s[1..])
  }

  lemma {:induction false} CountConcat<T>(keep: T -> bool, a: seq<T>, b: seq<T>)
    ensures Count(keep, a + b) == Count(keep, a) + Count(keep, b)
  {
    if a == [] {
      assert a + b == b;
    } else {
      CountConcat(keep, a[1..], b);
      assert (a + b)[0] == a[0] && (a + b)[1..] == a[1..] + b;
    }
  }

  lemma CountOne<T>(keep: T -> bool, x: T)
    ensures Count(keep, [x]) == if keep(x) then 1 else 0
  {
    assert [x][1..] == [];
  }

  lemma CountTakeOut<T>(keep: T -> bool, s: seq<T>, k: nat)
    requires k < |s|
    ensures Count(keep, s) == (if keep(s[k]) then 1 else 0) + Count(keep, Without(s, k))
  {
    hide Count, Without;
    var head, tail := SplitAround(s, k);
    CountConcat(keep, head, [s[k]] + tail);
    CountConcat(keep, [s[k]], tail);
    CountConcat(keep, head, tail);
    CountOne(keep, s[k]);
  }

  lemma SplitAround<T>(s: seq<T>, k: nat) returns (head: seq<T>, tail: seq<T>)
    requires k < |s|
    ensures s == head + ([s[k]] + tail) && Without(s, k) == head + tail
  {
    head, tail := s[..k], s[k + 1..];
  }

  lemma {:induction false} CountPermute<T>(keep: T -> bool, a: seq<T>, b: seq<T>)
    requires multiset(a) == multiset(b)
    ensures Count(keep, a) == Count(keep, b)
    decreases |a|
  {
    hide Count;
    SameSize(a, b);
    if a == [] {
      assert a == b;
    } else {
      SameElements(a, b, a[0]);
      var k :| 0 <= k < |b| && b[k] == a[0];
      CountTakeOut(keep, a, 0);
      CountTakeOut(keep, b, k);
      CountPermute(keep, Without(a, 0), Without(b, k));
    }
  }

  // ----- Totals over the members of a pool -----

  function BagOf<W, T>(f: W -> multiset<T>, ws: seq<W>): multiset<T> {
    if ws == [] then multiset{} else f(ws[0]) + BagOf(f, ws[1..])
  }

  lemma {:induction false} BagUpdateAt<W, T>(f: W -> multiset<T>, ws: seq<W>, w: nat, v: W, x: T)
    requires w < |ws|
    ensures BagOf(f, ws[w := v])[x] + f(ws[w])[x] == BagOf(f, ws)[x] + f(v)[x]
  {
    if w == 0 {
      assert ws[0 := v][1..] == ws[1..];
    } else {
      BagUpdateAt(f, ws[1..], w - 1, v, x);
      assert ws[w := v][1..] == ws[1..][w - 1 := v];
    }
  }

  lemma BagUpdate<W, T(!new)>(f: W -> multiset<T>, ws: seq<W>, w: nat, v: W)
    requires w < |ws|
    ensures BagOf(f, ws[w := v]) + f(ws[w]) == BagOf(f, ws) + f(v)
  {
    forall x ensures BagOf(f, ws[w := v])[x] + f(ws[w])[x] == BagOf(f, ws)[x] + f(v)[x] {
      BagUpdateAt(f, ws, w, v, x);
    }
  }

  /** What one worker puts down or picks up, balanced against the rest. */
  lemma Rebalance<T(!new)>(h: multiset<T>, h': multiset<T>, was: multiset<T>, now: multiset<T>,
                           e: multiset<T>, e': multiset<T>, before: multiset<T>, after: multiset<T>)
    requires h' + was == h + now
    requires h + e == before
    requires e' + now + before == e + was + after
    ensures h' + e' == after
  {
    forall x ensures (h' + e')[x] == after[x] {
      assert (h' + was)[x] == (h + now)[x];
      assert (h + e)[x] == before[x];
      assert (e' + now + before)[x] == (e + was + after)[x];
    }
  }

  lemma {:induction false} BagEmpty<W, T>(f: W -> multiset<T>, ws: seq<W>)
    requires forall w :: 0 <= w < |ws| ==> f(ws[w]) == multiset{}
    ensures BagOf(f, ws) == multiset{}
  {
    if ws != [] { BagEmpty(f, ws[1..]); }
  }

  lemma {:induction false} BagHas<W, T>(f: W -> multiset<T>, ws: seq<W>, w: nat)
    requires w < |ws|
    ensures f(ws[w]) <= BagOf(f, ws)
  {
    if w > 0 { BagHas(f, ws[1..], w - 1); }
  }

  function SumOf<W>(f: W -> nat, ws: seq<W>): nat {
    if ws == [] then 0 else f(ws[0]) + SumOf(f, ws[1..])
  }

  lemma {:induction false} SumUpdate<W>(f: W -> nat, ws: seq<W>, w: nat, v: W)
    requires w < |ws|
    ensures SumOf(f, ws[w := v]) + f(ws[w]) == SumOf(f, ws) + f(v)
  {
    if w == 0 {
      assert ws[0 := v][1..] == ws[1..];
    } else {
      SumUpdate(f, ws[1..], w - 1, v);
      assert ws[w := v][1..] == ws[1..][w - 1 := v];
    }
  }

  lemma {:induction false} SumConstant<W>(f: W -> nat, n: nat, v: W)
    ensures SumOf(f, seq(n, _ => v)) == n * f(v)
  {
    if n > 0 {
      SumConstant(f, n - 1, v);
      assert seq(n, _ => v)[1..] == seq(n - 1, _ => v);
      assert n * f(v) == f(v) + (n - 1) * f(v);
    }
  }
}
