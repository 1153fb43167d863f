/** The few facts about products and remainders that layouts and schedules rest on. */
module Arith {

  lemma {:induction false} MulStep(t: int, c: int)
    ensures (t + 1) * c == t * c + c
  {
  }

  /** Consecutive blocks of c elements do not overlap. */
  lemma {:induction false} BlocksInOrder(t: nat, u: nat, c: nat)
    requires t < u
    ensures t * c + c <= u * c
    decreases u - t
  {
    MulStep(t, c);
    if t + 1 < u {
      BlocksInOrder(t + 1, u, c);
    }
  }

  lemma MulMonotone(t: nat, u: nat, c: nat)
    requires t <= u
    ensures 0 <= t * c <= u * c
  {
    if t < u {
      BlocksInOrder(t, u, c);
    }
  }

  /** Every position below blocks * c lies in exactly one of the blocks. */
  lemma BlockOf(i: nat, blocks: nat, c: nat) returns (b: nat)
    requires i < blocks * c
    ensures b < blocks && b * c <= i < b * c + c
  {
    b := 0;
    while b * c + c <= i
      invariant b < blocks && b * c <= i
      decreases i - b * c
    {
      MulStep(b, c);
      b := b + 1;
    }
  }

  /** a * b by addition, for proofs that only need its monotonicity. */
  function Mul(a: nat, b: nat): nat {
    if a == 0 then 0 else Mul(a - 1, b) + b
  }

  lemma {:induction false} MulIsProduct(a: nat, b: nat)
    ensures Mul(a, b) == a * b
  {
    if a > 0 {
      MulIsProduct(a - 1, b);
    }
  }

  lemma {:induction false} MulOrder(a: nat, a': nat, b: nat)
    requires a <= a'
    ensures Mul(a, b) <= Mul(a', b)
    decreases a' - a
  {
    if a < a' {
      MulOrder(a + 1, a', b);
    }
  }

  lemma DivMul(n: nat, d: nat)
    requires d > 0
    ensures n == (n / d) * d + n % d
    ensures n == d * (n / d) + n % d
  {
  }

  /** The set {0, ..., n - 1}. */
  function Below(n: nat): (r: set<nat>)
    ensures forall t: nat :: t in r <==> t < n
    ensures |r| == n
  {
    if n == 0 then {} else Below(n - 1) + {n - 1}
  }
}
