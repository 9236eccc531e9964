/** Binomial coefficients, and the free cells they count. */
module Binomial {
  import opened Tallies
  import opened Sums
  import opened Placements
  import opened Convolution

  function Fact(n: nat): nat {
    if n == 0 then 1 else n * Fact(n - 1)
  }

  // C(n, k), zero outside 0 <= k <= n.
  function Choose(n: nat, k: int): nat {
    if k < 0 || k > n then 0
    else if k == 0 || k == n then 1
    else Choose(n - 1, k - 1) + Choose(n - 1, k)
  }

  lemma {:induction false} ChoosePascal(n: nat, k: int)
    requires n > 0
    ensures Choose(n, k) == Choose(n - 1, k - 1) + Choose(n - 1, k)
  {
    if k == n { assert Choose(n - 1, k) == 0; }
  }

  // Absorption: each of the k mines of a choice is one of the n cells.
  lemma {:induction false} Absorb(n: nat, k: int)
    requires n > 0
    ensures k * Choose(n, k) == n * Choose(n - 1, k - 1)
  {
    if n == 1 || k <= 0 || k > n {
      if k == 1 { assert Choose(1, 1) == 1 && Choose(0, 0) == 1; }
    } else {
      Absorb(n - 1, k);
      Absorb(n - 1, k - 1);
      ChoosePascal(n, k);
      ChoosePascal(n - 1, k - 1);
      var p, q, r := Choose(n - 1, k), Choose(n - 1, k - 1), Choose(n - 2, k - 2);
      var s := Choose(n - 2, k - 1);
      assert k * p == (n - 1) * s;
      assert (k - 1) * q == (n - 1) * r;
      assert q == r + s;
      AbsorbStep(n, k, p, q, r, s);
    }
  }

  lemma {:induction false} AbsorbStep(n: int, k: int, p: int, q: int, r: int, s: int)
    requires k * p == (n - 1) * s && (k - 1) * q == (n - 1) * r && q == r + s
    ensures k * (q + p) == n * q
  {
    calc {
      k * (q + p);
      (k - 1) * q + q + k * p;
      (n - 1) * r + q + (n - 1) * s;
      { assert (n - 1) * r + (n - 1) * s == (n - 1) * (r + s); }
      (n - 1) * q + q;
      n * q;
    }
  }

  /** The recursive form agrees with n! / (k! (n-k)!), the form the analyzer takes logarithms of. */
  lemma {:induction false} ChooseFact(n: nat, k: nat)
    requires k <= n
    ensures Choose(n, k) * (Fact(k) * Fact(n - k)) == Fact(n)
  {
    if k == 0 || k == n {
    } else {
      Absorb(n, k);
      ChooseFact(n - 1, k - 1);
      var c, d, f, g := Choose(n, k), Choose(n - 1, k - 1), Fact(k - 1), Fact(n - k);
      calc {
        c * (Fact(k) * g);
        { assert Fact(k) == k * f; MulRegroup(c, k, f, g); }
        (k * c) * (f * g);
        (n * d) * (f * g);
        { MulRegroup2(n, d, f * g); }
        n * (d * (f * g));
        n * Fact(n - 1);
        Fact(n);
      }
    }
  }

  lemma {:induction false} MulRegroup(c: int, k: int, f: int, g: int)
    ensures c * ((k * f) * g) == (k * c) * (f * g)
  {
    assert (k * f) * g == k * (f * g);
  }

  lemma {:induction false} MulRegroup2(n: int, d: int, e: int)
    ensures (n * d) * e == n * (d * e)
  {}

  // ---- counting with one cell singled out ----

  lemma {:induction false} Sum2(f: int -> real)
    ensures Sum(f, 2) == f(0) + f(1)
  {
    assert Sum(f, 2) == Sum(f, 1) + f(1);
    assert Sum(f, 1) == Sum(f, 0) + f(0);
  }

  lemma {:induction false} OneCell(x: nat)
    ensures N({x}, [], 0) == 1 && N({x}, [], 1) == 1
    ensures N({x}, [MineAt(x)], 0) == 0 && N({x}, [MineAt(x)], 1) == 1
  {
    NoMines({x});
    forall w: World | w <= {x} ensures |w| == 1 <==> w == {x} {
      if w != {x} { assert w == {}; }
    }
    assert Worlds({x}, [], 1) == {{x}};
    forall w: World ensures Sat([MineAt(x)], w) <==> x in w {
      MineAtSat([], x, w);
      assert [] + [MineAt(x)] == [MineAt(x)];
    }
    assert Worlds({x}, [MineAt(x)], 1) == {{x}};
    assert Worlds({x}, [MineAt(x)], 0) == {};
  }

  // Remove one cell of u that no constraint mentions.
  lemma {:induction false} SplitOne(u: set<nat>, cons: seq<Con>, x: nat, k: int)
    requires x in u && Over(cons, u - {x})
    ensures N(u, cons, k) == N(u - {x}, cons, k) + N(u - {x}, cons, k - 1)
    ensures N(u, cons + [MineAt(x)], k) == N(u - {x}, cons, k - 1)
  {
    hide N, Sum, Sat;
    var v := u - {x};
    assert u == v + {x} && cons + [] == cons;
    OneCell(x);
    assert Over([], {x});
    assert Over([MineAt(x)], {x}) by {
      assert Elems([x]) == {x};
    }
    Split(v, {x}, cons, [], k);
    Sum2(NProduct(v, {x}, cons, [], k));
    Split(v, {x}, cons, [MineAt(x)], k);
    Sum2(NProduct(v, {x}, cons, [MineAt(x)], k));
  }

  /** Unconstrained cells have C(n, k) assignments with k mines. */
  lemma {:induction false} FreeCount(u: set<nat>, k: int)
    ensures N(u, [], k) == Choose(|u|, k)
    decreases |u|
  {
    if u == {} {
      if k == 0 { NoMines(u); } else { NOutside(u, [], k); }
    } else {
      var x :| x in u;
      SplitOne(u, [], x, k);
      FreeCount(u - {x}, k);
      FreeCount(u - {x}, k - 1);
      ChoosePascal(|u|, k);
    }
  }

  lemma {:induction false} FreeMineCount(u: set<nat>, x: nat, k: int)
    requires x in u
    ensures N(u, [MineAt(x)], k) == Choose(|u| - 1, k - 1)
  {
    SplitOne(u, [], x, k);
    assert [] + [MineAt(x)] == [MineAt(x)];
    FreeCount(u - {x}, k - 1);
  }

  // ---- the same facts about whole distributions ----

  lemma {:induction false} PolyCoef(u: set<nat>, cons: seq<Con>, t: int)
    ensures Coef(Poly(u, cons), t) == N(u, cons, t) as real
  {
    if !(0 <= t <= |u|) { NOutside(u, cons, t); }
  }

  lemma {:induction false} ProductTerm(a: set<nat>, b: set<nat>, ca: seq<Con>, cb: seq<Con>, k: int, j: int)
    ensures NProduct(a, b, ca, cb, k)(j) == Term(Poly(a, ca), Poly(b, cb), k)(j)
  {
    PolyCoef(a, ca, k - j);
    PolyCoef(b, cb, j);
  }

  lemma {:induction false} SplitTerm(a: set<nat>, b: set<nat>, ca: seq<Con>, cb: seq<Con>, k: int, r: real)
    requires a !! b && Over(ca, a) && Over(cb, b)
    requires r == Sum(Term(Poly(a, ca), Poly(b, cb), k), |b| + 1)
    ensures N(a + b, ca + cb, k) as real == r
  {
    Split(a, b, ca, cb, k);
    forall j ensures NProduct(a, b, ca, cb, k)(j) == Term(Poly(a, ca), Poly(b, cb), k)(j) {
      ProductTerm(a, b, ca, cb, k, j);
    }
    SumSame(NProduct(a, b, ca, cb, k), Term(Poly(a, ca), Poly(b, cb), k), |b| + 1);
  }

  /** Independent groups of cells: distributions convolve. */
  lemma {:induction false} PolySplit(a: set<nat>, b: set<nat>, ca: seq<Con>, cb: seq<Con>)
    requires a !! b && Over(ca, a) && Over(cb, b)
    ensures Poly(a + b, ca + cb) == Conv(Poly(a, ca), Poly(b, cb))
  {
    DisjointCard(a, b, a + b);
    forall k ensures Coef(Poly(a + b, ca + cb), k) == Coef(Conv(Poly(a, ca), Poly(b, cb)), k) {
      PolyCoef(a + b, ca + cb, k);
      SplitTerm(a, b, ca, cb, k, Sum(Term(Poly(a, ca), Poly(b, cb), k), |b| + 1));
      ConvCoef(Poly(a, ca), Poly(b, cb), k);
    }
    CoefEqual(Poly(a + b, ca + cb), Conv(Poly(a, ca), Poly(b, cb)));
  }
}
