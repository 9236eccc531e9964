/** Small functions and facts about natural numbers. */
module Naturals {
  function Least(a: nat, b: nat): nat { if a < b then a else b }

  function Pow2(n: nat): (p: nat)
    ensures p > 0
  {
    if n == 0 then 1 else 2 * Pow2(n - 1)
  }

  lemma {:induction false} MulLe(a: int, b: int, d: nat)
    requires a <= b
    ensures a * d <= b * d
  {}

  lemma {:induction false} MulStep(a: int, d: nat)
    ensures (a + 1) * d == a * d + d
  {}

  lemma {:induction false} UniqueQuotient(d: nat, q: int, r: int, q': int, r': int)
    requires 0 <= r < d && 0 <= r' < d && q * d + r == q' * d + r'
    ensures q == q' && r == r'
  {
    MulStep(q, d);
    MulStep(q', d);
    if q < q' {
      MulLe(q + 1, q', d);
    } else if q' < q {
      MulLe(q' + 1, q, d);
    }
  }

  lemma {:induction false} DivMod(q: int, d: nat, rem: int)
    requires 0 <= rem < d
    ensures (q * d + rem) / d == q && (q * d + rem) % d == rem
  {
    var n := q * d + rem;
    UniqueQuotient(d, q, rem, n / d, n % d);
  }

  lemma {:induction false} QuotientBelow(i: nat, rows: nat, cols: nat)
    requires i < rows * cols
    ensures cols > 0 && i / cols < rows
  {
    if cols > 0 && i / cols >= rows { MulLe(rows, i / cols, cols); }
  }
}
