/** Finite sums of real-valued functions on the integers. */
module Sums {

  ghost function Sum(f: int -> real, n: nat): real {
    if n == 0 then 0.0 else Sum(f, n - 1) + f(n - 1)
  }

  lemma {:induction false} SumSame(f: int -> real, g: int -> real, n: nat)
    requires forall i :: 0 <= i < n ==> f(i) == g(i)
    ensures Sum(f, n) == Sum(g, n)
  {
    if n > 0 { SumSame(f, g, n - 1); }
  }

  lemma {:induction false} SumZero(f: int -> real, n: nat)
    requires forall i :: 0 <= i < n ==> f(i) == 0.0
    ensures Sum(f, n) == 0.0
  {
    if n > 0 { SumZero(f, n - 1); }
  }

  lemma {:induction false} SumNonneg(f: int -> real, n: nat)
    requires forall i :: 0 <= i < n ==> f(i) >= 0.0
    ensures Sum(f, n) >= 0.0
    ensures forall i :: 0 <= i < n ==> f(i) <= Sum(f, n)
  {
    if n > 0 { SumNonneg(f, n - 1); }
  }

  lemma {:induction false} SumAdd(f: int -> real, g: int -> real, h: int -> real, n: nat)
    requires forall i :: 0 <= i < n ==> h(i) == f(i) + g(i)
    ensures Sum(h, n) == Sum(f, n) + Sum(g, n)
  {
    if n > 0 { SumAdd(f, g, h, n - 1); }
  }

  lemma {:induction false} SumScale(f: int -> real, x: real, g: int -> real, n: nat)
    requires forall i :: 0 <= i < n ==> g(i) == x * f(i)
    ensures Sum(g, n) == x * Sum(f, n)
  {
    if n > 0 { SumScale(f, x, g, n - 1); }
  }

  // Terms that vanish below k and from k + n on leave a shifted window.
  lemma {:induction false} SumShift(f: int -> real, k: nat, n: nat, m: nat)
    requires k + n <= m
    requires forall i :: 0 <= i < m && !(k <= i < k + n) ==> f(i) == 0.0
    ensures Sum(f, m) == Sum(j => f(j + k), n)
    decreases m
  {
    if m > k + n {
      SumShift(f, k, n, m - 1);
    } else if n > 0 {
      SumShift(f, k, n - 1, m - 1);
    } else {
      SumZero(f, m);
    }
  }

  // Exchanging two finite sums.
  lemma {:induction false} SumSwap(h: (int, int) -> real, m: nat, n: nat)
    ensures Sum(i => Sum(j => h(i, j), n), m) == Sum(j => Sum(i => h(i, j), m), n)
  {
    if m == 0 {
      SumZero(j => Sum(i => h(i, j), m), n);
    } else {
      SumSwap(h, m - 1, n);
      var inner := i => Sum(j => h(i, j), n);
      var last := j => h(m - 1, j);
      SumSame(j => h(m - 1, j), last, n);
      SumAdd(j => Sum(i => h(i, j), m - 1), last, j => Sum(i => h(i, j), m), n);
      SumSame(i => Sum(j => h(i, j), n), inner, m);
      SumSame(i => Sum(j => h(i, j), n), inner, m - 1);
    }
  }

  // A window of the integers summed from either end.
  lemma {:induction false} SumReverse(f: int -> real, n: nat)
    ensures Sum(f, n) == Sum(j => f(n - 1 - j), n)
  {
    if n > 0 {
      var g := j => f(n - 1 - j);
      SumReverse(f, n - 1);
      SumFirst(g, n);
      SumSame(j => g(j + 1), j => f(n - 2 - j), n - 1);
      SumSame(j => f((n - 1) - 1 - j), j => f(n - 2 - j), n - 1);
      SumSame(g, j => f(n - 1 - j), n);
    }
  }

  lemma {:induction false} SumFirst(f: int -> real, n: nat)
    requires n > 0
    ensures Sum(f, n) == f(0) + Sum(j => f(j + 1), n - 1)
  {
    var g := j => f(j + 1);
    if n > 1 {
      SumFirst(f, n - 1);
      SumSame(j => f(j + 1), g, n - 2);
      SumSame(j => f(j + 1), g, n - 1);
    }
  }
}
