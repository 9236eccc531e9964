/** From component counts to the exact posterior mine probabilities. */
module Posterior {
  import opened Tallies
  import opened Sums
  import opened Placements
  import opened Convolution
  import opened Binomial

  // ---- products of independent pieces ----

  datatype Piece = Piece(u: set<nat>, cons: seq<Con>)

  ghost predicate PiecesOk(ps: seq<Piece>) {
    && (forall i: nat :: i < |ps| ==> Over(ps[i].cons, ps[i].u))
    && (forall i: nat, j: nat :: i < j < |ps| ==> ps[i].u !! ps[j].u)
  }

  ghost function CellsOf(ps: seq<Piece>, i: nat): set<nat>
    requires i <= |ps|
  {
    if i == 0 then {} else CellsOf(ps, i - 1) + ps[i - 1].u
  }

  ghost function ConsOf(ps: seq<Piece>, i: nat): seq<Con>
    requires i <= |ps|
  {
    if i == 0 then [] else ConsOf(ps, i - 1) + ps[i - 1].cons
  }

  lemma {:induction false} CellsOfMember(ps: seq<Piece>, i: nat)
    requires i <= |ps|
    ensures forall x :: x in CellsOf(ps, i) <==> exists k: nat :: k < i && x in ps[k].u
    ensures forall c :: c in ConsOf(ps, i) <==> exists k: nat :: k < i && c in ps[k].cons
  {
    if i > 0 {
      CellsOfMember(ps, i - 1);
      forall x ensures x in CellsOf(ps, i) <==> exists k: nat :: k < i && x in ps[k].u {
        if x in ps[i - 1].u { assert i - 1 < i; }
      }
      forall c ensures c in ConsOf(ps, i) <==> exists k: nat :: k < i && c in ps[k].cons {
        if c in ps[i - 1].cons { assert i - 1 < i; }
      }
    }
  }

  lemma {:induction false} OverPieces(ps: seq<Piece>, i: nat)
    requires PiecesOk(ps) && i <= |ps|
    ensures Over(ConsOf(ps, i), CellsOf(ps, i))
    ensures i < |ps| ==> CellsOf(ps, i) !! ps[i].u
  {
    CellsOfMember(ps, i);
    forall c | c in ConsOf(ps, i) ensures Elems(c.cells) <= CellsOf(ps, i) {
      var k: nat :| k < i && c in ps[k].cons;
      assert Elems(c.cells) <= ps[k].u;
    }
    if i < |ps| {
      forall x | x in CellsOf(ps, i) ensures x !in ps[i].u {
        var k: nat :| k < i && x in ps[k].u;
        assert ps[k].u !! ps[i].u;
      }
    }
  }

  // 1 / (tots[0] * ... * tots[i-1])
  ghost function InvTot(tots: seq<real>, i: nat): real
    requires i <= |tots| && forall k :: 0 <= k < |tots| ==> tots[k] > 0.0
  {
    if i == 0 then 1.0 else InvTot(tots, i - 1) * (1.0 / tots[i - 1])
  }

  lemma {:induction false} InvTotPositive(tots: seq<real>, i: nat)
    requires i <= |tots| && forall k :: 0 <= k < |tots| ==> tots[k] > 0.0
    ensures InvTot(tots, i) > 0.0
  {
    if i > 0 {
      InvTotPositive(tots, i - 1);
      PositiveProduct(InvTot(tots, i - 1), 1.0 / tots[i - 1]);
    }
  }

  lemma {:induction false} PositiveProduct(x: real, y: real)
    requires x > 0.0 && y > 0.0
    ensures x * y > 0.0
  {}

  // Each distribution is the solution counts of a piece divided by a total.
  ghost predicate Normalised(ds: seq<Dist>, ps: seq<Piece>, tots: seq<real>) {
    && |ds| == |ps| == |tots|
    && (forall k :: 0 <= k < |tots| ==> tots[k] > 0.0)
    && forall k: nat :: k < |ds| ==> ds[k] == Scaled(1.0 / tots[k], Poly(ps[k].u, ps[k].cons))
  }

  lemma {:induction false} ScaledOne(a: Dist)
    ensures Scaled(1.0, a) == a
  {}

  /** The running convolution of the normalised component distributions is the
      normalised solution counts of all the components together. */
  lemma {:induction false} PrefixPoly(ds: seq<Dist>, ps: seq<Piece>, tots: seq<real>, i: nat)
    requires PiecesOk(ps) && Normalised(ds, ps, tots) && i <= |ds|
    ensures Prefix(ds, i) == Scaled(InvTot(tots, i), Poly(CellsOf(ps, i), ConsOf(ps, i)))
  {
    hide Worlds, Conv;
    if i == 0 {
      NoMines({});
      assert Poly({}, []) == [1.0];
      ScaledOne([1.0]);
    } else {
      PrefixPoly(ds, ps, tots, i - 1);
      PrefixStep(ps, tots, i - 1);
      assert ds[i - 1] == Scaled(1.0 / tots[i - 1], Poly(ps[i - 1].u, ps[i - 1].cons));
    }
  }

  lemma {:induction false} PrefixStep(ps: seq<Piece>, tots: seq<real>, k: nat)
    requires PiecesOk(ps) && k < |ps| == |tots| && forall i :: 0 <= i < |tots| ==> tots[i] > 0.0
    ensures Conv(Scaled(InvTot(tots, k), Poly(CellsOf(ps, k), ConsOf(ps, k))),
                 Scaled(1.0 / tots[k], Poly(ps[k].u, ps[k].cons)))
         == Scaled(InvTot(tots, k + 1), Poly(CellsOf(ps, k + 1), ConsOf(ps, k + 1)))
  {
    assert CellsOf(ps, k + 1) == CellsOf(ps, k) + ps[k].u && ConsOf(ps, k + 1) == ConsOf(ps, k) + ps[k].cons;
    assert InvTot(tots, k + 1) == InvTot(tots, k) * (1.0 / tots[k]);
    OverPieces(ps, k);
    PolySplit(CellsOf(ps, k), ps[k].u, ConsOf(ps, k), ps[k].cons);
    ConvScaledBy(InvTot(tots, k), Poly(CellsOf(ps, k), ConsOf(ps, k)),
                 1.0 / tots[k], Poly(ps[k].u, ps[k].cons), InvTot(tots, k + 1));
  }

  // ---- weighting by the completions of the free cells ----

  ghost function Weigh(e: seq<real>, w: int -> real): int -> real {
    s => Coef(e, s) * w(s)
  }

  // Exact weight of frontier total s: C(free, mines - s), scaled by inv.
  ghost function FreeWeight(free: nat, mines: int, inv: real): int -> real {
    s => inv * (Choose(free, mines - s) as real)
  }

  lemma {:induction false} WeighTerm(a: Dist, b: Dist, mines: int, c: real, inv: real, x: real, w: int -> real, s: int)
    requires x == c * inv && w(s) == inv * Coef(a, mines - s)
    ensures Weigh(Scaled(c, b), w)(s) == x * Term(a, b, mines)(s)
  {
    ScaledCoef(c, b, s);
    WeighArith(c, Coef(b, s), Coef(a, mines - s), inv, x, Coef(Scaled(c, b), s), w(s));
  }

  lemma {:induction false} WeighArith(c: real, p: real, q: real, inv: real, x: real, l: real, m: real)
    requires x == c * inv && l == c * p && m == inv * q
    ensures l * m == x * (q * p)
  {
    assert (c * p) * (inv * q) == (c * inv) * (q * p);
  }

  // Weights inv * a[mines - s] turn the weighted sum into a coefficient of the convolution.
  lemma {:induction false} WeighConv(a: Dist, b: Dist, mines: int, c: real, inv: real, x: real, w: int -> real, r: real)
    requires x == c * inv && forall s :: w(s) == inv * Coef(a, mines - s)
    requires r == Sum(Weigh(Scaled(c, b), w), |b|)
    ensures r == x * Coef(Conv(a, b), mines)
  {
    var t, h := Term(a, b, mines), Weigh(Scaled(c, b), w);
    forall s ensures h(s) == x * t(s) {
      WeighTerm(a, b, mines, c, inv, x, w, s);
    }
    ConvCoef(a, b, mines);
    ScaledSum(t, x, h, |b|, Coef(Conv(a, b), mines), r);
  }

  lemma {:induction false} FreeConv(g: set<nat>, f: set<nat>, cons: seq<Con>, mines: int)
    requires g !! f && Over(cons, f)
    ensures Coef(Conv(Poly(g, []), Poly(f, cons)), mines) == N(g + f, cons, mines) as real
  {
    assert [] + cons == cons && Over([], g);
    PolySplit(g, f, [], cons);
    PolyCoef(g + f, cons, mines);
  }

  lemma {:induction false} FreeWeightCoef(g: set<nat>, mines: int, inv: real, s: int)
    ensures FreeWeight(|g|, mines, inv)(s) == inv * Coef(Poly(g, []), mines - s)
  {
    hide N, Choose;
    FreeCount(g, mines - s);
    PolyCoef(g, [], mines - s);
    assert Coef(Poly(g, []), mines - s) == Choose(|g|, mines - s) as real;
  }

  /** Weighting the frontier counts by the binomials counts all assignments of
      frontier and free cells with exactly `mines` mines. */
  lemma {:induction false} WeighPoly(g: set<nat>, f: set<nat>, cons: seq<Con>, mines: int, c: real, inv: real,
                                     x: real, r: real)
    requires x == c * inv && g !! f && Over(cons, f)
    requires r == Sum(Weigh(Scaled(c, Poly(f, cons)), FreeWeight(|g|, mines, inv)), |f| + 1)
    ensures r == x * (N(g + f, cons, mines) as real)
  {
    hide N, Sum, Conv, Choose;
    var w := FreeWeight(|g|, mines, inv);
    forall s ensures w(s) == inv * Coef(Poly(g, []), mines - s) {
      FreeWeightCoef(g, mines, inv, s);
    }
    WeighConv(Poly(g, []), Poly(f, cons), mines, c, inv, x, w, r);
    FreeConv(g, f, cons, mines);
  }

  lemma {:induction false} ScaledSum(f: int -> real, x: real, g: int -> real, n: nat, s: real, r: real)
    requires forall i :: 0 <= i < n ==> g(i) == x * f(i)
    requires s == Sum(f, n) && r == Sum(g, n)
    ensures r == x * s
  {
    SumScale(f, x, g, n);
  }

  // Weights may be changed where the distribution vanishes.
  lemma {:induction false} WeighSame(e: seq<real>, v: int -> real, w: int -> real, n: nat)
    requires forall s :: 0 <= s < n && Coef(e, s) != 0.0 ==> v(s) == w(s)
    ensures Sum(Weigh(e, v), n) == Sum(Weigh(e, w), n)
  {
    forall s | 0 <= s < n ensures Weigh(e, v)(s) == Weigh(e, w)(s) {
      if Coef(e, s) == 0.0 {
        MulZero(Coef(e, s), v(s));
        MulZero(Coef(e, s), w(s));
      }
    }
    SumSame(Weigh(e, v), Weigh(e, w), n);
  }

  // ---- the double sum of the per-cell numerator ----

  ghost function Shifted(w: int -> real, t: int): int -> real {
    o => w(t + o)
  }

  // sum over t of a[t] * (sum over o of b[o] * w[t + o])
  ghost function NumeratorTerm(a: seq<real>, b: seq<real>, w: int -> real): int -> real {
    t => Coef(a, t) * Sum(Weigh(b, Shifted(w, t)), |b|)
  }

  ghost function Cross(a: Dist, b: Dist, w: int -> real, t: int): int -> real {
    s => Coef(a, t) * (Coef(b, s - t) * w(s))
  }

  lemma {:induction false} CrossRow(a: Dist, b: Dist, w: int -> real, t: nat, r: real)
    requires t < |a|
    requires r == Sum(Cross(a, b, w, t), |a| + |b| - 1)
    ensures NumeratorTerm(a, b, w)(t) == r
  {
    hide Sum;
    var f := Cross(a, b, w, t);
    forall s | !(t <= s < t + |b|) ensures f(s) == 0.0 {
      MulZero(Coef(b, s - t), w(s));
      MulZero(Coef(a, t), Coef(b, s - t) * w(s));
    }
    SumShift(f, t, |b|, |a| + |b| - 1);
    var g := Weigh(b, Shifted(w, t));
    forall o ensures f(o + t) == Times(Coef(a, t), g)(o) {
      assert o + t - t == o && o + t == t + o;
    }
    SumSame(o => f(o + t), Times(Coef(a, t), g), |b|);
    SumTimes(Coef(a, t), g, |b|);
  }

  ghost function CrossAt(a: Dist, b: Dist, w: int -> real, s: int): int -> real {
    t => Cross(a, b, w, t)(s)
  }

  lemma {:induction false} CrossPoint(a: Dist, b: Dist, w: int -> real, s: int, t: int)
    ensures CrossAt(a, b, w, s)(t) == w(s) * Term(b, a, s)(t)
  {
    assert CrossAt(a, b, w, s)(t) == Cross(a, b, w, t)(s) == Coef(a, t) * (Coef(b, s - t) * w(s));
    assert Term(b, a, s)(t) == Coef(b, s - t) * Coef(a, t);
    CrossArith(Coef(a, t), Coef(b, s - t), w(s));
  }

  lemma {:induction false} CrossTotal(a: Dist, b: Dist, w: int -> real, s: int, y: real, c: real, r: real)
    requires y == w(s) && c == Sum(Term(b, a, s), |a|) && r == Sum(CrossAt(a, b, w, s), |a|)
    ensures r == y * c
  {
    forall t ensures CrossAt(a, b, w, s)(t) == y * Term(b, a, s)(t) {
      CrossPoint(a, b, w, s, t);
    }
    ScaledSum(Term(b, a, s), y, CrossAt(a, b, w, s), |a|, c, r);
  }

  lemma {:induction false} CrossColumn(a: Dist, b: Dist, w: int -> real, s: int, r: real)
    requires r == Sum(CrossAt(a, b, w, s), |a|)
    ensures Weigh(Conv(b, a), w)(s) == r
  {
    var c := Coef(Conv(b, a), s);
    assert r == w(s) * c by {
      ConvCoef(b, a, s);
      CrossTotal(a, b, w, s, w(s), c, r);
    }
  }

  lemma {:induction false} CrossArith(x: real, y: real, z: real)
    ensures x * (y * z) == z * (y * x)
  {}

  /** The nested loops over own and other mine counts compute the weighted sum of
      the convolved distribution. */
  lemma {:induction false} NumeratorIsConv(a: Dist, b: Dist, w: int -> real)
    ensures Sum(NumeratorTerm(a, b, w), |a|) == Sum(Weigh(Conv(b, a), w), |a| + |b| - 1)
  {
    var m := |a| + |b| - 1;
    var h := (t, s) => Cross(a, b, w, t)(s);
    forall t | 0 <= t < |a| ensures NumeratorTerm(a, b, w)(t) == (t => Sum(s => h(t, s), m))(t) {
      CrossRow(a, b, w, t, Sum(Cross(a, b, w, t), m));
      SumSame(s => h(t, s), Cross(a, b, w, t), m);
    }
    SumSame(NumeratorTerm(a, b, w), t => Sum(s => h(t, s), m), |a|);
    SumSwap(h, |a|, m);
    forall s ensures Weigh(Conv(b, a), w)(s) == (s => Sum(t => h(t, s), |a|))(s) {
      SumSame(t => h(t, s), CrossAt(a, b, w, s), |a|);
      CrossColumn(a, b, w, s, Sum(CrossAt(a, b, w, s), |a|));
    }
    SumSame(Weigh(Conv(b, a), w), s => Sum(t => h(t, s), |a|), m);
  }

  // ---- the posterior ----

  /** The true posterior: among all assignments to the hidden cells h that satisfy
      every constraint and have exactly `mines` mines, the fraction with a mine at x. */
  ghost function Chance(h: set<nat>, cons: seq<Con>, mines: int, x: nat): real
    requires N(h, cons, mines) > 0
  {
    (N(h, cons + [MineAt(x)], mines) as real) / (N(h, cons, mines) as real)
  }

  lemma {:induction false} WithMineFewer(h: set<nat>, a: seq<Con>, b: seq<Con>, x: nat, k: int)
    requires forall c :: c in b <==> c in a || c == MineAt(x)
    ensures N(h, b, k) <= N(h, a, k)
    ensures N(h, b, k) == N(h, a + [MineAt(x)], k)
  {
    assert Worlds(h, b, k) <= Worlds(h, a, k);
    SetCardMono(Worlds(h, b, k), Worlds(h, a, k));
    NSameCons(h, b, a + [MineAt(x)], k);
  }

  lemma {:induction false} SetCardMono<T>(s: set<T>, t: set<T>)
    requires s <= t
    ensures |s| <= |t|
  {
    assert t == s + (t - s);
  }

  // The weight table agrees with the binomials wherever some frontier total is possible.
  ghost predicate WeightsFit(d: seq<real>, w: seq<real>, free: nat, mines: int, inv: real) {
    && |w| == |d|
    && forall s: nat :: s < |d| && d[s] != 0.0 ==> w[s] == FreeWeight(free, mines, inv)(s)
  }

  ghost function AsFun(w: seq<real>): int -> real {
    s => Coef(w, s)
  }

  // A weight table that fits d gives the same sum as the binomials on any e supported where d is.
  lemma {:induction false} WeighTable(f: set<nat>, cons: seq<Con>, g: set<nat>, mines: int, c: real, inv: real,
                                      x: real, d: seq<real>, w: seq<real>, e: seq<real>, r: real)
    requires x == c * inv && g !! f && Over(cons, f)
    requires WeightsFit(d, w, |g|, mines, inv)
    requires e == Scaled(c, Poly(f, cons)) && |e| == |d|
    requires forall s: nat :: s < |e| && e[s] != 0.0 ==> d[s] != 0.0
    requires r == Sum(Weigh(e, AsFun(w)), |e|)
    ensures r == x * (N(g + f, cons, mines) as real)
  {
    var v := FreeWeight(|g|, mines, inv);
    WeighSame(e, AsFun(w), v, |e|);
    WeighPoly(g, f, cons, mines, c, inv, x, r);
  }

  // One piece with the extra constraint that x is a mine.
  ghost function Marked(ps: seq<Piece>, i: nat, x: nat): seq<Piece>
    requires i < |ps|
  {
    ps[i := Piece(ps[i].u, ps[i].cons + [MineAt(x)])]
  }

  lemma {:induction false} MarkedFacts(ps: seq<Piece>, i: nat, x: nat)
    requires PiecesOk(ps) && i < |ps| && x in ps[i].u
    ensures PiecesOk(Marked(ps, i, x))
    ensures CellsOf(Marked(ps, i, x), |ps|) == CellsOf(ps, |ps|)
    ensures forall c :: c in ConsOf(Marked(ps, i, x), |ps|) <==> c in ConsOf(ps, |ps|) || c == MineAt(x)
  {
    var qs := Marked(ps, i, x);
    assert Elems([x]) == {x};
    assert forall c :: c in qs[i].cons <==> c in ps[i].cons || c == MineAt(x);
    CellsOfMember(ps, |ps|);
    CellsOfMember(qs, |ps|);
    forall y ensures y in CellsOf(qs, |ps|) <==> y in CellsOf(ps, |ps|) {
      forall k: nat | k < |ps| ensures qs[k].u == ps[k].u {}
    }
    forall c ensures c in ConsOf(qs, |ps|) <==> c in ConsOf(ps, |ps|) || c == MineAt(x) {
      if c in ConsOf(ps, |ps|) {
        var k: nat :| k < |ps| && c in ps[k].cons;
        assert c in qs[k].cons;
      }
      if c == MineAt(x) { assert c in qs[i].cons; }
      if c in ConsOf(qs, |ps|) {
        var k: nat :| k < |ps| && c in qs[k].cons;
        assert k != i ==> c in ps[k].cons;
      }
    }
  }

  lemma {:induction false} MarkedNormalised(ds: seq<Dist>, ps: seq<Piece>, tots: seq<real>, i: nat, x: nat, a: Dist)
    requires Normalised(ds, ps, tots) && i < |ds|
    requires a == Scaled(1.0 / tots[i], Poly(ps[i].u, ps[i].cons + [MineAt(x)]))
    ensures Normalised(ds[i := a], Marked(ps, i, x), tots)
  {
    var es, qs := ds[i := a], Marked(ps, i, x);
    forall k: nat | k < |es| ensures es[k] == Scaled(1.0 / tots[k], Poly(qs[k].u, qs[k].cons)) {
      if k != i { assert es[k] == ds[k] && qs[k] == ps[k]; }
    }
  }

  // The numerator for cell x of component i, from its own row and the other components.
  lemma {:induction false} CellDist(ds: seq<Dist>, ps: seq<Piece>, tots: seq<real>, i: nat, x: nat, a: Dist, b: Dist)
    requires PiecesOk(ps) && Normalised(ds, ps, tots) && i < |ds| && x in ps[i].u
    requires a == Scaled(1.0 / tots[i], Poly(ps[i].u, ps[i].cons + [MineAt(x)]))
    requires b == Conv(Prefix(ds, i), Suffix(ds, i + 1))
    ensures var qs := Marked(ps, i, x);
      Conv(b, a) == Scaled(InvTot(tots, |ds|), Poly(CellsOf(qs, |qs|), ConsOf(qs, |qs|)))
  {
    MarkedFacts(ps, i, x);
    MarkedNormalised(ds, ps, tots, i, x, a);
    ReplaceOne(ds, i, a);
    PrefixPoly(ds[i := a], Marked(ps, i, x), tots, |ds|);
  }

  // A frontier total that is impossible stays impossible when x must be a mine.
  lemma {:induction false} MarkedSupport(f: set<nat>, k: seq<Con>, k': seq<Con>, x: nat, c: real, d: Dist, e: Dist,
                                         s: nat)
    requires forall con :: con in k' <==> con in k || con == MineAt(x)
    requires d == Scaled(c, Poly(f, k)) && e == Scaled(c, Poly(f, k')) && s < |e|
    requires e[s] != 0.0
    ensures d[s] != 0.0
  {
    WithMineFewer(f, k, k', x, s);
    NonzeroProduct(c, N(f, k, s) as real, N(f, k', s) as real);
  }

  lemma {:induction false} NonzeroProduct(c: real, p: real, q: real)
    requires c * q != 0.0 && (p == 0.0 ==> q == 0.0)
    ensures c * p != 0.0
  {
    if c == 0.0 { MulZero(c, q); }
    if q == 0.0 { MulZero(c, q); }
  }

  lemma {:induction false} RatioCancel(f: real, n: real, d: real, num: real, z: real)
    requires f != 0.0 && d != 0.0 && num == f * n && z == f * d
    ensures z != 0.0 && num / z == n / d
  {
    assert z != 0.0;
    assert (n / d) * z == num by {
      assert (n / d) * d == n;
      assert (n / d) * (f * d) == f * ((n / d) * d);
    }
  }

  lemma {:induction false} RatioExact(h: set<nat>, cons: seq<Con>, k: seq<Con>, mines: int, x: nat, f: real,
                                      num: real, z: real)
    requires (forall c :: c in cons <==> c in k) && N(h, cons, mines) > 0 && f > 0.0
    requires num == f * (N(h, k + [MineAt(x)], mines) as real) && z == f * (N(h, k, mines) as real)
    ensures z > 0.0 && num / z == Chance(h, cons, mines, x)
  {
    NSameCons(h, cons, k, mines);
    NSameCons(h, cons + [MineAt(x)], k + [MineAt(x)], mines);
    PositiveProduct(f, N(h, cons, mines) as real);
    RatioCancel(f, N(h, cons + [MineAt(x)], mines) as real, N(h, cons, mines) as real, num, z);
  }

  /** Exactness for frontier cells: with d the normalised counts of the whole
      frontier f and e the same counts with a mine at x, weighting both by the
      binomials of the free cells g gives the true posterior probability of x. */
  lemma {:induction false} CellExact(f: set<nat>, k: seq<Con>, k': seq<Con>, g: set<nat>, mines: int, x: nat, c: real,
                                     inv: real, d: Dist, e: Dist, w: seq<real>, num: real, z: real, cons: seq<Con>)
    requires g !! f && Over(k, f) && Over(k', f) && c > 0.0 && inv > 0.0
    requires d == Scaled(c, Poly(f, k)) && e == Scaled(c, Poly(f, k'))
    requires WeightsFit(d, w, |g|, mines, inv)
    requires num == Sum(Weigh(e, AsFun(w)), |e|) && z == Sum(Weigh(d, AsFun(w)), |d|)
    requires (forall con :: con in k' <==> con in k || con == MineAt(x)) && (forall con :: con in cons <==> con in k)
    requires N(g + f, cons, mines) > 0
    ensures z > 0.0 && num / z == Chance(g + f, cons, mines, x)
  {
    hide N, Sum, Weigh, Sat;
    var y := c * inv;
    assert y > 0.0 by { PositiveProduct(c, inv); }
    assert z == y * (N(g + f, k, mines) as real) by {
      WeighTable(f, k, g, mines, c, inv, y, d, w, d, z);
    }
    assert num == y * (N(g + f, k', mines) as real) by {
      forall s: nat | s < |e| && e[s] != 0.0 ensures d[s] != 0.0 {
        MarkedSupport(f, k, k', x, c, d, e, s);
      }
      WeighTable(f, k', g, mines, c, inv, y, d, w, e, num);
    }
    WithMineFewer(g + f, k, k', x, mines);
    RatioExact(g + f, cons, k, mines, x, y, num, z);
  }

  lemma {:induction false} TotalPositive(f: set<nat>, k: seq<Con>, g: set<nat>, mines: int, c: real, inv: real,
                                         d: Dist, w: seq<real>, z: real)
    requires g !! f && Over(k, f) && c > 0.0 && inv > 0.0
    requires d == Scaled(c, Poly(f, k)) && WeightsFit(d, w, |g|, mines, inv)
    requires z == Sum(Weigh(d, AsFun(w)), |d|) && N(g + f, k, mines) > 0
    ensures z > 0.0
  {
    var y, total := c * inv, N(g + f, k, mines) as real;
    assert y > 0.0 by { PositiveProduct(c, inv); }
    assert z == y * total by { WeighTable(f, k, g, mines, c, inv, y, d, w, d, z); }
    PositiveProduct(y, total);
  }
}
