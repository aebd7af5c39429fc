/** Division of natural numbers, which the verifier does not reason about by itself. */
module Division {

  lemma {:induction false} MulGap(a: nat, b: nat, d: nat)
    ensures a < b ==> a * d + d <= b * d
    ensures a <= b ==> a * d <= b * d
    decreases b
  {
    if a < b {
      assert b * d == (b - 1) * d + d;
      MulGap(a, b - 1, d);
    }
  }

  lemma Quotient(x: nat, d: nat) returns (q: nat, r: nat)
    requires d > 0
    ensures q == x / d && r == x % d && x == q * d + r && r < d
  {
    q, r := x / d, x % d;
  }

  lemma DivideUnique(x: nat, d: nat, q: nat)
    requires d > 0 && q * d <= x < q * d + d
    ensures x / d == q
  {
    MulGap(x / d, q, d);
    MulGap(q, x / d, d);
  }

  lemma DivideBack(m: nat, d: nat)
    requires d > 0
    ensures d * m / d == m
  {
    DivideUnique(d * m, d, m);
  }

  lemma DivideMonotone(x: nat, y: nat, d: nat)
    requires d > 0 && x <= y
    ensures x / d <= y / d
  {
    MulGap(y / d, x / d, d);
  }
}
