/** What redaction does to a text, told without the code: which pieces are taken out, what stands in their place,
    and that everything else stays as it is. */
module RedactionPieces {
  import opened Common
  import opened Regex
  import opened Redaction
  import opened RedactionExtent

  // ----- What is looked for -----

  datatype Secret = Key | Mail | Phone

  predicate IsLetter(c: char) { 'a' <= c <= 'z' || 'A' <= c <= 'Z' }

  /** A letter when case is folded: the long s and the Kelvin sign fold to s and k. */
  predicate IsLike(c: char) { IsLetter(c) || c == '\U{17F}' || c == '\U{212A}' }

  predicate IsDecimal(c: char) { '0' <= c <= '9' }

  /** The edge of a word of ASCII letters, digits and underscores. */
  predicate Edge(s: string, i: int) {
    && 0 <= i <= |s|
    && (0 < i && (IsLetter(s[i - 1]) || IsDecimal(s[i - 1]) || s[i - 1] == '_'))
       != (i < |s| && (IsLetter(s[i]) || IsDecimal(s[i]) || s[i] == '_'))
  }

  predicate IsKey(s: string, i: nat, j: nat) {
    && i + 19 <= j <= |s|
    && s[i] == 's' && s[i + 1] == 'k' && s[i + 2] == '-'
    && forall q :: i + 3 <= q < j ==> IsLetter(s[q]) || IsDecimal(s[q]) || s[q] == '_' || s[q] == '-'
  }

  /** A local part, the at sign, a host name, a dot and a last label of two letters or more. */
  predicate IsAddress(s: string, i: nat, at: nat, dot: nat, j: nat) {
    && i < at && at + 1 < dot && dot + 2 < j <= |s|
    && s[at] == '@' && s[dot] == '.'
    && (forall q :: i <= q < at ==> IsLike(s[q]) || IsDecimal(s[q]) || s[q] in "._%+-")
    && (forall q :: at < q < dot ==> IsLike(s[q]) || IsDecimal(s[q]) || s[q] in ".-")
    && (forall q :: dot < q < j ==> IsLike(s[q]))
  }

  predicate IsPhone(s: string, i: nat, j: nat) {
    && j == i + 11 <= |s|
    && s[i] == '1' && '3' <= s[i + 1] <= '9'
    && forall q :: i + 2 <= q < j ==> IsDecimal(s[q])
  }

  /** s[i..j] is such a secret, standing as words of its own. */
  ghost predicate Is(secret: Secret, s: string, i: nat, j: nat) {
    && Edge(s, i) && Edge(s, j)
    && match secret
       case Key => IsKey(s, i, j)
       case Mail => exists at: nat, dot: nat :: IsAddress(s, i, at, dot, j)
       case Phone => IsPhone(s, i, j)
  }

  function Token(secret: Secret): string {
    match secret
    case Key => "[REDACTED_API_KEY]"
    case Mail => "[REDACTED_EMAIL]"
    case Phone => "[REDACTED_PHONE]"
  }

  function RuleOf(secret: Secret): (rule: Rule)
    ensures IsRule(rule)
  {
    match secret
    case Key => API_KEY
    case Mail => EMAIL
    case Phone => PHONE
  }

  // ----- The rules look for that -----

  lemma EdgeIsBoundary(s: string, i: int)
    ensures Edge(s, i) <==> IsBoundary(s, i)
  {
  }

  lemma FirstItem(item: Item, rest: Pattern, s: string, i: nat, j: nat)
    ensures Matches([item] + rest, s, i, j) <==>
              match item
              case WordBoundary => IsBoundary(s, i) && Matches(rest, s, i, j)
              case One(cls) => i < |s| && cls.Has(s[i]) && Matches(rest, s, i + 1, j)
              case AtLeast(cls, min) => exists k: nat :: Repeats(cls, min, s, i, k) && Matches(rest, s, k, j)
  {
    hide IsBoundary, Repeats;
    assert ([item] + rest)[1..] == rest;
  }

  lemma RunThenBoundary(cls: CharClass, min: nat, s: string, i: nat, j: nat)
    ensures Matches([AtLeast(cls, min), WordBoundary], s, i, j) <==> Repeats(cls, min, s, i, j) && IsBoundary(s, j)
  {
    hide Matches, IsBoundary, Repeats;
    assert [AtLeast(cls, min), WordBoundary] == [AtLeast(cls, min)] + [WordBoundary];
    FirstItem(AtLeast(cls, min), [WordBoundary], s, i, j);
    forall k: nat ensures Matches([WordBoundary], s, k, j) <==> k == j && IsBoundary(s, j) { LastBoundary(s, k, j); }
  }

  lemma LastBoundary(s: string, i: nat, j: nat)
    ensures Matches([WordBoundary], s, i, j) <==> i == j && IsBoundary(s, j)
  {
    assert [WordBoundary][1..] == [];
  }

  lemma KeyMatches(s: string, i: nat, j: nat)
    ensures Matches(API_KEY.pattern, s, i, j) <==> Edge(s, i) && Edge(s, j) && IsKey(s, i, j)
  {
    hide Matches, Edge, IsBoundary, Repeats, IsKey;
    var run: Pattern := [AtLeast(KeyChar, 16), WordBoundary];
    var dash: Pattern := [One(Only('-'))] + run;
    var k: Pattern := [One(Only('k'))] + dash;
    var sk: Pattern := [One(Only('s'))] + k;
    assert API_KEY.pattern == [WordBoundary] + sk;
    FirstItem(WordBoundary, sk, s, i, j);
    FirstItem(One(Only('s')), k, s, i, j);
    FirstItem(One(Only('k')), dash, s, i + 1, j);
    FirstItem(One(Only('-')), run, s, i + 2, j);
    RunThenBoundary(KeyChar, 16, s, i + 3, j);
    EdgeIsBoundary(s, i);
    EdgeIsBoundary(s, j);
    KeyTail(s, i, j);
  }

  lemma KeyTail(s: string, i: nat, j: nat)
    ensures IsKey(s, i, j) <==>
              i + 3 <= |s| && s[i] == 's' && s[i + 1] == 'k' && s[i + 2] == '-' && Repeats(KeyChar, 16, s, i + 3, j)
  {
  }

  lemma {:induction false} DigitsMatch(n: nat, s: string, i: nat, j: nat)
    ensures Matches(seq(n, _ => One(Digit)) + [WordBoundary], s, i, j)
            <==> j == i + n <= |s| && (forall q :: i <= q < j ==> IsDecimal(s[q])) && IsBoundary(s, j)
    decreases n
  {
    hide Matches, IsBoundary;
    var p := seq(n, _ => One(Digit)) + [WordBoundary];
    if n == 0 {
      assert p == [WordBoundary];
      LastBoundary(s, i, j);
      BoundaryInside(s, j);
    } else {
      var rest := seq(n - 1, _ => One(Digit)) + [WordBoundary];
      assert p == [One(Digit)] + rest;
      FirstItem(One(Digit), rest, s, i, j);
      DigitsMatch(n - 1, s, i + 1, j);
    }
  }

  lemma BoundaryInside(s: string, i: int)
    ensures IsBoundary(s, i) ==> 0 <= i <= |s|
  {
  }

  lemma PhoneMatches(s: string, i: nat, j: nat)
    ensures Matches(PHONE.pattern, s, i, j) <==> Edge(s, i) && Edge(s, j) && IsPhone(s, i, j)
  {
    hide Matches, Edge, IsBoundary;
    var digits: Pattern := seq(9, _ => One(Digit)) + [WordBoundary];
    var second: Pattern := [One(ThreeToNine)] + digits;
    var first: Pattern := [One(Only('1'))] + second;
    assert PHONE.pattern == [WordBoundary] + first;
    FirstItem(WordBoundary, first, s, i, j);
    FirstItem(One(Only('1')), second, s, i, j);
    FirstItem(One(ThreeToNine), digits, s, i + 1, j);
    DigitsMatch(9, s, i + 2, j);
    EdgeIsBoundary(s, i);
    EdgeIsBoundary(s, j);
  }

  lemma TopLevelMatches(s: string, dot: nat, j: nat)
    ensures Matches(TOP_LEVEL, s, dot, j)
            <==> dot < |s| && s[dot] == '.' && Repeats(FoldedLetter, 2, s, dot + 1, j) && IsBoundary(s, j)
  {
    hide Matches, IsBoundary, Repeats;
    var run: Pattern := [AtLeast(FoldedLetter, 2), WordBoundary];
    assert TOP_LEVEL == [One(Only('.'))] + run;
    FirstItem(One(Only('.')), run, s, dot, j);
    RunThenBoundary(FoldedLetter, 2, s, dot + 1, j);
  }

  lemma MailMatches(s: string, i: nat, j: nat)
    ensures Matches(EMAIL.pattern, s, i, j)
            <==> Edge(s, i) && Edge(s, j) && exists at: nat, dot: nat :: IsAddress(s, i, at, dot, j)
  {
    hide Matches, Edge, IsBoundary, IsAddress, Repeats;
    var whole: Pattern := [AtLeast(LocalChar, 1)] + AT_HOST;
    assert EMAIL.pattern == [WordBoundary] + whole;
    FirstItem(WordBoundary, whole, s, i, j);
    FirstItem(AtLeast(LocalChar, 1), AT_HOST, s, i, j);
    EdgeIsBoundary(s, i);
    EdgeIsBoundary(s, j);
    if Matches(EMAIL.pattern, s, i, j) {
      var at: nat :| Repeats(LocalChar, 1, s, i, at) && Matches(AT_HOST, s, at, j);
      HostMatches(s, at, j);
      var dot: nat :| Repeats(DomainChar, 1, s, at + 1, dot) && Matches(TOP_LEVEL, s, dot, j);
      TopLevelMatches(s, dot, j);
      AddressParts(s, i, at, dot, j);
    }
    if at: nat, dot: nat :| IsAddress(s, i, at, dot, j) {
      AddressParts(s, i, at, dot, j);
      TopLevelMatches(s, dot, j);
      HostMatches(s, at, j);
    }
  }

  lemma HostMatches(s: string, at: nat, j: nat)
    ensures Matches(AT_HOST, s, at, j) <==>
              && at < |s| && s[at] == '@'
              && exists dot: nat :: Repeats(DomainChar, 1, s, at + 1, dot) && Matches(TOP_LEVEL, s, dot, j)
  {
    hide Matches, Repeats;
    FirstItem(One(Only('@')), HOST, s, at, j);
    FirstItem(AtLeast(DomainChar, 1), TOP_LEVEL, s, at + 1, j);
  }

  lemma AddressParts(s: string, i: nat, at: nat, dot: nat, j: nat)
    ensures IsAddress(s, i, at, dot, j)
            <==> && Repeats(LocalChar, 1, s, i, at) && at < |s| && s[at] == '@'
                 && Repeats(DomainChar, 1, s, at + 1, dot) && dot < |s| && s[dot] == '.'
                 && Repeats(FoldedLetter, 2, s, dot + 1, j)
  {
  }

  /** The patterns of the code match exactly the secrets. */
  lemma RuleFinds(secret: Secret, s: string, i: nat, j: nat)
    ensures Matches(RuleOf(secret).pattern, s, i, j) <==> Is(secret, s, i, j)
    ensures RuleOf(secret).replacement == Token(secret)
  {
    hide Matches, Edge, IsKey, IsAddress, IsPhone;
    KeyMatches(s, i, j);
    MailMatches(s, i, j);
    PhoneMatches(s, i, j);
  }

  // ----- Taking secrets out of a text -----

  datatype Mark = Mark(secret: Secret, start: nat, end: nat)

  /** Secrets of the text, from left to right and apart from each other. */
  ghost predicate Marks(s: string, from: nat, marks: seq<Mark>)
    decreases |marks|
  {
    if marks == [] then from <= |s|
    else
      var m := marks[0];
      from <= m.start < m.end <= |s| && Is(m.secret, s, m.start, m.end) && Marks(s, m.end, marks[1..])
  }

  /** What lies around the marks, one stretch more than there are marks. */
  ghost function Around(s: string, from: nat, marks: seq<Mark>): (r: seq<string>)
    requires Marks(s, from, marks)
    ensures |r| == |marks| + 1
    decreases |marks|
  {
    if marks == [] then [s[from..]]
    else [s[from..marks[0].start]] + Around(s, marks[0].end, marks[1..])
  }

  /** Stretches with something between each two of them. */
  function Woven(stretches: seq<string>, between: seq<string>): string
    requires |stretches| == |between| + 1
    decreases |between|
  {
    if between == [] then stretches[0] else stretches[0] + between[0] + Woven(stretches[1..], between[1..])
  }

  ghost function Secrets(s: string, from: nat, marks: seq<Mark>): (r: seq<string>)
    requires Marks(s, from, marks)
    ensures |r| == |marks|
    decreases |marks|
  {
    if marks == [] then [] else [s[marks[0].start..marks[0].end]] + Secrets(s, marks[0].end, marks[1..])
  }

  function Tokens(marks: seq<Mark>): (r: seq<string>)
    ensures |r| == |marks|
  {
    seq(|marks|, k requires 0 <= k < |marks| => Token(marks[k].secret))
  }

  /** The text with every mark replaced by its token and everything around the marks as it was. */
  ghost function Masked(s: string, from: nat, marks: seq<Mark>): string
    requires Marks(s, from, marks)
  {
    Woven(Around(s, from, marks), Tokens(marks))
  }

  lemma MaskNone(s: string, from: nat)
    requires from <= |s|
    ensures Marks(s, from, []) && Masked(s, from, []) == s[from..]
  {
  }

  lemma MaskFirst(s: string, from: nat, m: Mark, rest: seq<Mark>)
    requires from <= m.start < m.end <= |s| && Is(m.secret, s, m.start, m.end) && Marks(s, m.end, rest)
    ensures Marks(s, from, [m] + rest)
    ensures Masked(s, from, [m] + rest) == s[from..m.start] + Token(m.secret) + Masked(s, m.end, rest)
  {
    hide Is;
    var marks := [m] + rest;
    assert marks[1..] == rest;
    assert Around(s, from, marks) == [s[from..m.start]] + Around(s, m.end, rest);
    assert Around(s, from, marks)[1..] == Around(s, m.end, rest);
    assert Tokens(marks) == [Token(m.secret)] + Tokens(rest);
    assert Tokens(marks)[1..] == Tokens(rest);
  }

  /** The text itself is woven of the same stretches, with the secrets between them. */
  lemma {:induction false} TextIsWoven(s: string, from: nat, marks: seq<Mark>)
    requires Marks(s, from, marks)
    ensures s[from..] == Woven(Around(s, from, marks), Secrets(s, from, marks))
    decreases |marks|
  {
    hide Is;
    if marks != [] {
      var m := marks[0];
      TextIsWoven(s, m.end, marks[1..]);
      var around, secrets := Around(s, from, marks), Secrets(s, from, marks);
      assert around[1..] == Around(s, m.end, marks[1..]) && secrets[1..] == Secrets(s, m.end, marks[1..]);
      assert s[from..] == s[from..m.start] + s[m.start..m.end] + s[m.end..];
    }
  }

  // ----- One rule -----

  ghost predicate NoneBetween(secret: Secret, s: string, from: nat, to: int) {
    forall i: nat, j: nat :: from <= i < to ==> !Is(secret, s, i, j)
  }

  /** The marks of one kind of secret: each is the leftmost one behind the last, and as long as it can be. */
  ghost predicate Scanned(secret: Secret, s: string, from: nat, marks: seq<Mark>)
    decreases |marks|
  {
    if marks == [] then NoneBetween(secret, s, from, |s| + 1)
    else
      var m := marks[0];
      && m.secret == secret
      && NoneBetween(secret, s, from, m.start)
      && (forall j: nat :: Is(secret, s, m.start, j) ==> j <= m.end)
      && Scanned(secret, s, m.end, marks[1..])
  }

  /** t is the text with every secret of the kind, found from the left, replaced by its token. */
  ghost predicate Rewrites(secret: Secret, s: string, t: string, n: nat) {
    exists marks ::
      Marks(s, 0, marks) && Scanned(secret, s, 0, marks) && t == Masked(s, 0, marks) && n == |marks|
  }

  lemma FoundIs(secret: Secret, s: string, from: nat)
    requires from <= |s|
    ensures var f := Find(RuleOf(secret).pattern, s, from);
            && (f.None? ==> NoneBetween(secret, s, from, |s| + 1))
            && (f.Some? ==>
                  && from <= f.value.0 < f.value.1 <= |s| && Is(secret, s, f.value.0, f.value.1)
                  && NoneBetween(secret, s, from, f.value.0)
                  && forall j: nat :: Is(secret, s, f.value.0, j) ==> j <= f.value.1)
  {
    hide Is, Matches, RuleOf;
    var rule := RuleOf(secret);
    var f := Find(rule.pattern, s, from);
    FindAdvances(rule, s, from);
    forall i: nat, j: nat ensures Is(secret, s, i, j) <==> Matches(rule.pattern, s, i, j) {
      RuleFinds(secret, s, i, j);
    }
    if f.Some? { RulesTakeLongest(rule, s, f.value.0); }
    if f.None? {
      forall i: nat, j: nat | from <= i <= |s| ensures !Is(secret, s, i, j) {}
    }
  }

  lemma {:induction false} ReplaceMasks(secret: Secret, s: string, from: nat) returns (marks: seq<Mark>)
    requires from <= |s|
    ensures Marks(s, from, marks) && Scanned(secret, s, from, marks)
    ensures Replace(RuleOf(secret), s, from) == Masked(s, from, marks)
    ensures |FindAll(RuleOf(secret), s, from)| == |marks|
    decreases |s| - from
  {
    hide Is, Matches, RuleOf, Find, Masked, NoneBetween;
    var rule := RuleOf(secret);
    FoundIs(secret, s, from);
    RuleFinds(secret, s, 0, 0);
    var f := Find(rule.pattern, s, from);
    if f.None? {
      marks := [];
      MaskNone(s, from);
    } else {
      var m := Mark(secret, f.value.0, f.value.1);
      var rest := ReplaceMasks(secret, s, m.end);
      marks := [m] + rest;
      MaskFirst(s, from, m, rest);
      assert marks[1..] == rest;
    }
  }

  lemma {:induction false} OneScan(secret: Secret, s: string, from: nat, a: seq<Mark>, b: seq<Mark>)
    requires Marks(s, from, a) && Scanned(secret, s, from, a)
    requires Marks(s, from, b) && Scanned(secret, s, from, b)
    ensures a == b
    decreases |a|
  {
    hide Is;
    if a != [] && b != [] {
      OneScan(secret, s, a[0].end, a[1..], b[1..]);
      assert a == [a[0]] + a[1..] && b == [b[0]] + b[1..];
    }
  }

  /** Replacing by a rule is exactly that. */
  lemma ReplaceExactly(secret: Secret, s: string, t: string, n: nat)
    ensures Rewrites(secret, s, t, n)
            <==> t == Replace(RuleOf(secret), s, 0) && n == |FindAll(RuleOf(secret), s, 0)|
  {
    hide Replace, FindAll, Marks, Scanned, Masked, RuleOf;
    var marks := ReplaceMasks(secret, s, 0);
    if Rewrites(secret, s, t, n) {
      var other :| Marks(s, 0, other) && Scanned(secret, s, 0, other) && t == Masked(s, 0, other) && n == |other|;
      OneScan(secret, s, 0, marks, other);
    }
  }

  /** The three rewritings in turn, keys first and telephone numbers last, and the number of pieces replaced. */
  ghost predicate Redacts(input: string, r: Result) {
    exists a, b, keys: nat, mails: nat, phones: nat ::
      && Rewrites(Key, input, a, keys) && Rewrites(Mail, a, b, mails) && Rewrites(Phone, b, r.text, phones)
      && r.count == keys + mails + phones
  }

  /** Redaction is exactly that, for every input. */
  lemma RedactExactly(input: string, r: Result)
    ensures Redacts(input, r) <==> r == RedactSpec(input)
  {
    hide Replace, FindAll, Rewrites;
    RulesAreRules();
    assert RuleOf(Key) == API_KEY && RuleOf(Mail) == EMAIL && RuleOf(Phone) == PHONE;
    var a := Replace(API_KEY, input, 0);
    var b := Replace(EMAIL, a, 0);
    var c := Replace(PHONE, b, 0);
    var keys, mails, phones := |FindAll(API_KEY, input, 0)|, |FindAll(EMAIL, a, 0)|, |FindAll(PHONE, b, 0)|;
    assert RedactSpec(input) == Result(c, keys + mails + phones);
    forall t, n: nat { ReplaceExactly(Key, input, t, n); }
    forall t, n: nat { ReplaceExactly(Mail, a, t, n); }
    forall t, n: nat { ReplaceExactly(Phone, b, t, n); }
    if r == RedactSpec(input) {
      assert Rewrites(Key, input, a, keys) && Rewrites(Mail, a, b, mails) && Rewrites(Phone, b, r.text, phones);
    }
  }
}
