/** Clamping, and facts about products and quotients that the solver does not find by itself. */
module Arithmetic {
  function Clamp(n: nat, low: nat, high: nat): nat
  {
    if n < low then low else if n > high then high else n
  }

  lemma {:induction false} ScaleKeepsOrder(a: nat, b: nat, d: nat)
    requires a <= b
    ensures a * d <= b * d
  {
    if a < b {
      ScaleKeepsOrder(a, b - 1, d);
    }
  }

  lemma DivisionUnique(n: nat, d: nat, q: nat, r: nat)
    requires d >= 1 && n == q * d + r && r < d
    ensures n / d == q && n % d == r
  {
    if n / d < q {
      ScaleKeepsOrder(n / d + 1, q, d);
    } else if q < n / d {
      ScaleKeepsOrder(q + 1, n / d, d);
    }
  }

  lemma Distribute(x: nat, a: int, b: int)
    ensures x * a + x * b == x * (a + b)
  {
  }

  /** A product under a name, so that proofs can step it without multiplying. */
  function Times(n: nat, x: nat): nat
  {
    n * x
  }

  lemma TimesStep(n: nat, x: nat)
    ensures Times(n + 1, x) == Times(n, x) + x
  {
    Distribute(x, n, 1);
  }

  lemma TimesKeepsOrder(a: nat, b: nat, x: nat)
    requires a <= b
    ensures Times(a, x) <= Times(b, x)
  {
    ScaleKeepsOrder(a, b, x);
  }
}
