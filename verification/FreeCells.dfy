/** The shared probability of the free cells, and conservation of mine mass. */
module FreeCells {
  import opened Tallies
  import opened Sums
  import opened Placements
  import opened Convolution
  import opened Binomial
  import opened Posterior

  ghost function Expect(f: int -> real): int -> real {
    s => (s as real) * f(s)
  }

  // Frontier total s, free cells completed: C(n, mines - s) * N(f, k, s).
  ghost function Completions(g: set<nat>, f: set<nat>, k: seq<Con>, mines: int): int -> real {
    Term(Poly(g, []), Poly(f, k), mines)
  }

  lemma {:induction false} CompletionsTotal(g: set<nat>, f: set<nat>, k: seq<Con>, mines: int)
    requires g !! f && Over(k, f)
    ensures Sum(Completions(g, f, k, mines), |f| + 1) == N(g + f, k, mines) as real
  {
    ConvCoef(Poly(g, []), Poly(f, k), mines);
    FreeConv(g, f, k, mines);
  }

  lemma {:induction false} MarkedTotal(g: set<nat>, f: set<nat>, k: seq<Con>, mines: int, x: nat)
    requires g !! f && Over(k, f) && x in g
    ensures Sum(Term(Poly(g, [MineAt(x)]), Poly(f, k), mines), |f| + 1) == N(g + f, k + [MineAt(x)], mines) as real
  {
    assert Elems([x]) == {x};
    ConvCoef(Poly(g, [MineAt(x)]), Poly(f, k), mines);
    PolySplit(g, f, [MineAt(x)], k);
    PolyCoef(g + f, [MineAt(x)] + k, mines);
    NSameCons(g + f, [MineAt(x)] + k, k + [MineAt(x)], mines);
  }

  lemma {:induction false} AbsorbReal(n: nat, j: int)
    requires n > 0
    ensures (n as real) * (Choose(n - 1, j - 1) as real) == (j as real) * (Choose(n, j) as real)
  {
    Absorb(n, j);
    IntMulReal(n, Choose(n - 1, j - 1));
    IntMulReal(j, Choose(n, j));
  }

  lemma {:induction false} IntMulReal(x: int, y: int)
    ensures (x * y) as real == (x as real) * (y as real)
  {}

  // n * u = (mines - s) * t
  ghost predicate Balanced(t: real, u: real, n: real, j: int) {
    n * u == (j as real) * t
  }

  lemma {:induction false} AbsorbBalanced(k: nat, j: int, n: real, a: real, b: real)
    requires k > 0 && n == k as real && a == Choose(k - 1, j - 1) as real && b == Choose(k, j) as real
    ensures Balanced(b, a, n, j)
  {
    AbsorbReal(k, j);
  }

  // n * C(n-1, j-1) = j * C(n, j), as coefficients.
  lemma {:induction false} MarkedCoef(g: set<nat>, x: nat, n: real, j: int)
    requires x in g && n == |g| as real
    ensures Balanced(Coef(Poly(g, []), j), Coef(Poly(g, [MineAt(x)]), j), n, j)
  {
    PolyCoef(g, [MineAt(x)], j);
    FreeMineCount(g, x, j);
    PolyCoef(g, [], j);
    FreeCount(g, j);
    AbsorbBalanced(|g|, j, n, Coef(Poly(g, [MineAt(x)]), j), Coef(Poly(g, []), j));
  }

  lemma {:induction false} MarkedTerm(a: Dist, m: Dist, b: Dist, mines: int, s: int, n: real)
    requires Balanced(Coef(a, mines - s), Coef(m, mines - s), n, mines - s)
    ensures Balanced(Term(a, b, mines)(s), Term(m, b, mines)(s), n, mines - s)
  {
    MulLeft(n, Coef(m, mines - s), (mines - s) as real, Coef(a, mines - s), Coef(b, s),
            Term(m, b, mines)(s), Term(a, b, mines)(s));
  }

  lemma {:induction false} MarkedSum(a: Dist, m: Dist, b: Dist, mines: int, n: real, st: real, se: real, su: real)
    requires forall j :: Balanced(Coef(a, j), Coef(m, j), n, j)
    requires st == Sum(Term(a, b, mines), |b|) && su == Sum(Term(m, b, mines), |b|)
    requires se == Sum(Expect(Term(a, b, mines)), |b|)
    ensures n * su == (mines as real) * st - se
  {
    var t, u := Term(a, b, mines), Term(m, b, mines);
    forall s ensures Balanced(t(s), u(s), n, mines - s) {
      MarkedTerm(a, m, b, mines, s, n);
    }
    ExpectSplit(t, u, n, mines, |b|, st, se, su);
  }

  lemma {:induction false} MulLeft(n: real, a: real, j: real, b: real, p: real, l: real, r: real)
    requires n * a == j * b && l == a * p && r == b * p
    ensures n * l == j * r
  {
    assert n * (a * p) == (n * a) * p;
    assert j * (b * p) == (j * b) * p;
  }

  lemma {:induction false} ExpectSplit(t: int -> real, u: int -> real, n: real, mines: int, m: nat, st: real,
                                       se: real, su: real)
    requires forall s :: Balanced(t(s), u(s), n, mines - s)
    requires st == Sum(t, m) && se == Sum(Expect(t), m) && su == Sum(u, m)
    ensures n * su == (mines as real) * st - se
  {
    var l, r := Times(n, u), Times(mines as real, t);
    SumTimes(n, u, m);
    SumTimes(mines as real, t, m);
    forall s ensures r(s) == l(s) + Expect(t)(s) {
      ExpectPoint(n, u(s), mines, s, t(s));
    }
    SumAdd(l, Expect(t), r, m);
  }

  lemma {:induction false} ExpectPoint(n: real, u: real, mines: int, s: int, t: real)
    requires n * u == ((mines - s) as real) * t
    ensures (mines as real) * t == n * u + (s as real) * t
  {
    assert (mines - s) as real == mines as real - s as real;
  }

  lemma {:induction false} ExpectScale(t: int -> real, y: real, h: int -> real, m: nat, st: real, sh: real)
    requires forall s :: 0 <= s < m ==> h(s) == y * t(s)
    requires st == Sum(Expect(t), m) && sh == Sum(Expect(h), m)
    ensures sh == y * st
  {
    forall s | 0 <= s < m ensures Expect(h)(s) == y * Expect(t)(s) {
      MulSwap(s as real, y, t(s));
    }
    SumScale(Expect(t), y, Expect(h), m);
  }

  lemma {:induction false} MulSwap(x: real, y: real, z: real)
    ensures x * (y * z) == y * (x * z)
  {}

  // The weighted distribution, term by term.
  lemma {:induction false} WeighedTerm(f: set<nat>, k: seq<Con>, g: set<nat>, mines: int, c: real, inv: real, y: real,
                                       d: Dist, w: seq<real>, s: nat)
    requires y == c * inv && WeightsFit(d, w, |g|, mines, inv)
    requires d == Scaled(c, Poly(f, k)) && s < |d|
    ensures Weigh(d, AsFun(w))(s) == y * Completions(g, f, k, mines)(s)
  {
    hide N, Choose, Sat;
    var v := FreeWeight(|g|, mines, inv);
    FreeWeightCoef(g, mines, inv, s);
    WeighTerm(Poly(g, []), Poly(f, k), mines, c, inv, y, v, s);
    if d[s] == 0.0 {
      MulZero(Coef(d, s), AsFun(w)(s));
      MulZero(Coef(d, s), v(s));
    }
  }

  lemma {:induction false} FreeRatio(n: real, mines: real, y: real, total: real, st: real, sx: real, z: real, e: real)
    requires n > 0.0 && y > 0.0 && total > 0.0
    requires z == y * total && e == y * st && n * sx == mines * total - st
    ensures z > 0.0 && (mines - e / z) / n == sx / total
  {
    PositiveProduct(y, total);
    assert e / z == st / total by { RatioCancel(y, st, total, e, z); }
    var q := st / total;
    assert q * total == st;
    assert (mines - q) * total == n * sx;
    assert (mines - q) / n == sx / total by {
      var r := sx / total;
      assert r * total == sx;
      assert (n * r) * total == n * sx;
      SameFactor(mines - q, n * r, total);
      assert (n * r) / n == r;
    }
  }

  lemma {:induction false} SameFactor(a: real, b: real, t: real)
    requires t > 0.0 && a * t == b * t
    ensures a == b
  {
    assert (a - b) * t == 0.0;
  }

  lemma {:induction false} FreeExpect(f: set<nat>, k: seq<Con>, g: set<nat>, mines: int, c: real, inv: real, y: real,
                                      d: Dist, w: seq<real>, st: real, e: real)
    requires y == c * inv && WeightsFit(d, w, |g|, mines, inv) && d == Scaled(c, Poly(f, k))
    requires st == Sum(Expect(Completions(g, f, k, mines)), |f| + 1)
    requires e == Sum(Expect(Weigh(d, AsFun(w))), |d|)
    ensures e == y * st
  {
    hide N, Sum, Choose, Term;
    var t, h := Completions(g, f, k, mines), Weigh(d, AsFun(w));
    forall s | 0 <= s < |f| + 1 ensures h(s) == y * t(s) {
      WeighedTerm(f, k, g, mines, c, inv, y, d, w, s);
    }
    ExpectScale(t, y, h, |f| + 1, st, e);
  }

  lemma {:induction false} FreeMarked(f: set<nat>, k: seq<Con>, g: set<nat>, mines: int, x: nat, n: real, total: real,
                                      st: real, sx: real)
    requires g !! f && Over(k, f) && x in g && n == |g| as real
    requires total == N(g + f, k, mines) as real && sx == N(g + f, k + [MineAt(x)], mines) as real
    requires st == Sum(Expect(Completions(g, f, k, mines)), |f| + 1)
    ensures n * sx == (mines as real) * total - st
  {
    CompletionsTotal(g, f, k, mines);
    MarkedTotal(g, f, k, mines, x);
    forall j ensures Balanced(Coef(Poly(g, []), j), Coef(Poly(g, [MineAt(x)]), j), n, j) {
      MarkedCoef(g, x, n, j);
    }
    MarkedSum(Poly(g, []), Poly(g, [MineAt(x)]), Poly(f, k), mines, n, total, st, sx);
  }

  lemma {:induction false} ChanceSameCons(h: set<nat>, cons: seq<Con>, k: seq<Con>, mines: int, x: nat, sx: real,
                                          total: real)
    requires (forall con :: con in cons <==> con in k) && N(h, cons, mines) > 0
    requires sx == N(h, k + [MineAt(x)], mines) as real && total == N(h, k, mines) as real
    ensures total > 0.0 && Chance(h, cons, mines, x) == sx / total
  {
    NSameCons(h, cons, k, mines);
    NSameCons(h, cons + [MineAt(x)], k + [MineAt(x)], mines);
  }

  /** Exactness for free cells: (mines - E[frontier mines]) / n_free is the true
      posterior probability of every free cell. */
  lemma {:induction false} FreeExact(f: set<nat>, k: seq<Con>, g: set<nat>, mines: int, x: nat, c: real, inv: real,
                                     d: Dist, w: seq<real>, z: real, e: real, cons: seq<Con>)
    requires g !! f && Over(k, f) && c > 0.0 && inv > 0.0 && x in g
    requires d == Scaled(c, Poly(f, k)) && WeightsFit(d, w, |g|, mines, inv)
    requires z == Sum(Weigh(d, AsFun(w)), |d|) && e == Sum(Expect(Weigh(d, AsFun(w))), |d|)
    requires forall con :: con in cons <==> con in k
    requires N(g + f, cons, mines) > 0
    ensures z > 0.0 && (mines as real - e / z) / (|g| as real) == Chance(g + f, cons, mines, x)
  {
    hide N, Sum, Weigh, Poly, Scaled, Chance, Completions;
    var y, n := c * inv, |g| as real;
    var total, sx := N(g + f, k, mines) as real, N(g + f, k + [MineAt(x)], mines) as real;
    var st := Sum(Expect(Completions(g, f, k, mines)), |f| + 1);
    assert y > 0.0 by { PositiveProduct(c, inv); }
    assert z == y * total by { WeighTable(f, k, g, mines, c, inv, y, d, w, d, z); }
    assert e == y * st by { FreeExpect(f, k, g, mines, c, inv, y, d, w, st, e); }
    assert n * sx == (mines as real) * total - st by { FreeMarked(f, k, g, mines, x, n, total, st, sx); }
    ChanceSameCons(g + f, cons, k, mines, x, sx, total);
    FreeRatio(n, mines as real, y, total, st, sx, z, e);
  }

  /** Without any constraint every hidden cell has probability mines / n_hidden. */
  lemma {:induction false} UniformExact(h: set<nat>, mines: int, x: nat)
    requires x in h && N(h, [], mines) > 0
    ensures Chance(h, [], mines, x) == (mines as real) / (|h| as real)
  {
    hide N, Choose;
    var n, a, b := |h| as real, Choose(|h| - 1, mines - 1) as real, Choose(|h|, mines) as real;
    assert [] + [MineAt(x)] == [MineAt(x)];
    assert N(h, [] + [MineAt(x)], mines) as real == a by { FreeMineCount(h, x, mines); }
    assert N(h, [], mines) as real == b by { FreeCount(h, mines); }
    assert n * a == (mines as real) * b by { AbsorbReal(|h|, mines); }
    CrossRatio(n, a, mines as real, b);
  }

  lemma {:induction false} CrossRatio(n: real, a: real, j: real, b: real)
    requires n > 0.0 && b > 0.0 && n * a == j * b
    ensures a / b == j / n
  {
    var r := a / b;
    assert r * b == a;
    assert (n * r) * b == j * b;
    SameFactor(n * r, j, b);
    assert (n * r) / n == r;
  }

  // ---- conservation of mine mass ----

  ghost function Holding(worlds: set<World>, x: nat): set<World> {
    set w | w in worlds && x in w
  }

  // Sum over the listed cells of the number of assignments with a mine there.
  ghost function Mass(xs: seq<nat>, worlds: set<World>): nat {
    if xs == [] then 0 else |Holding(worlds, xs[0])| + Mass(xs[1..], worlds)
  }

  lemma {:induction false} MassRemove(xs: seq<nat>, worlds: set<World>, w: World)
    requires w in worlds
    ensures Mass(xs, worlds) == Mass(xs, worlds - {w}) + Tally(xs, w)
  {
    if xs != [] {
      MassRemove(xs[1..], worlds, w);
      var x := xs[0];
      if x in w {
        assert Holding(worlds, x) == Holding(worlds - {w}, x) + {w};
      } else {
        assert Holding(worlds, x) == Holding(worlds - {w}, x);
      }
    }
  }

  // Counting pairs (cell, assignment) in the other order.
  lemma {:induction false} MassTotal(xs: seq<nat>, worlds: set<World>, mines: nat)
    requires forall w :: w in worlds ==> Tally(xs, w) == mines
    ensures Mass(xs, worlds) == mines * |worlds|
    decreases |worlds|
  {
    hide Holding, Tally;
    if worlds == {} {
      MassEmpty(xs);
    } else {
      var w :| w in worlds;
      MassRemove(xs, worlds, w);
      MassTotal(xs, worlds - {w}, mines);
      assert mines * |worlds| == mines * |worlds - {w}| + mines;
    }
  }

  lemma {:induction false} MassEmpty(xs: seq<nat>)
    ensures Mass(xs, {}) == 0
  {
    if xs != [] {
      MassEmpty(xs[1..]);
      assert Holding({}, xs[0]) == {};
    }
  }

  // Sum of the probabilities of the listed cells.
  ghost function TotalChance(xs: seq<nat>, p: seq<real>): real
    requires forall i :: 0 <= i < |xs| ==> xs[i] < |p|
  {
    if xs == [] then 0.0 else p[xs[0]] + TotalChance(xs[1..], p)
  }

  lemma {:induction false} HoldingIs(h: set<nat>, cons: seq<Con>, mines: int, x: nat)
    ensures |Holding(Worlds(h, cons, mines), x)| == N(h, cons + [MineAt(x)], mines)
  {
    forall w: World ensures Sat(cons + [MineAt(x)], w) <==> Sat(cons, w) && x in w {
      MineAtSat(cons, x, w);
    }
    assert Holding(Worlds(h, cons, mines), x) == Worlds(h, cons + [MineAt(x)], mines);
  }

  lemma {:induction false} TotalIsMass(xs: seq<nat>, p: seq<real>, h: set<nat>, cons: seq<Con>, mines: int, n: nat)
    requires n == N(h, cons, mines) > 0
    requires forall i :: 0 <= i < |xs| ==> xs[i] < |p| && p[xs[i]] == Chance(h, cons, mines, xs[i])
    ensures TotalChance(xs, p) == (Mass(xs, Worlds(h, cons, mines)) as real) / (n as real)
  {
    if xs != [] {
      TotalIsMass(xs[1..], p, h, cons, mines, n);
      HoldingIs(h, cons, mines, xs[0]);
      AddRatio(N(h, cons + [MineAt(xs[0])], mines) as real, Mass(xs[1..], Worlds(h, cons, mines)) as real, n as real);
    }
  }

  lemma {:induction false} AddRatio(a: real, b: real, n: real)
    requires n > 0.0
    ensures (a + b) / n == a / n + b / n
  {}

  /** Mine mass is conserved: exact probabilities over all hidden cells add up to
      the number of mines. */
  lemma {:induction false} MassConserved(xs: seq<nat>, p: seq<real>, h: set<nat>, cons: seq<Con>, mines: nat)
    requires Distinct(xs) && Elems(xs) == h && N(h, cons, mines) > 0
    requires forall i :: 0 <= i < |xs| ==> xs[i] < |p| && p[xs[i]] == Chance(h, cons, mines, xs[i])
    ensures TotalChance(xs, p) == mines as real
  {
    var worlds := Worlds(h, cons, mines);
    var n := |worlds|;
    assert Mass(xs, worlds) == mines * n by {
      forall w | w in worlds ensures Tally(xs, w) == mines {
        TallyCard(xs, w);
      }
      MassTotal(xs, worlds, mines);
    }
    TotalIsMass(xs, p, h, cons, mines, n);
    MassRatio(Mass(xs, worlds), mines, n);
  }

  lemma {:induction false} MassRatio(mass: nat, mines: nat, n: nat)
    requires n > 0 && mass == mines * n
    ensures (mass as real) / (n as real) == mines as real
  {
    IntMulReal(mines, n);
    CancelRight(mines as real, n as real);
  }

  lemma {:induction false} CancelRight(a: real, n: real)
    requires n > 0.0
    ensures (a * n) / n == a
  {}

  /** A chance is a probability; it is 0 (1) exactly when x is a mine in no (every) assignment. */
  lemma {:induction false} ChanceRange(h: set<nat>, cons: seq<Con>, mines: int, x: nat)
    requires N(h, cons, mines) > 0
    ensures 0.0 <= Chance(h, cons, mines, x) <= 1.0
    ensures Chance(h, cons, mines, x) == 0.0 <==> forall w :: w in Worlds(h, cons, mines) ==> x !in w
    ensures Chance(h, cons, mines, x) == 1.0 <==> forall w :: w in Worlds(h, cons, mines) ==> x in w
  {
    var all, with := Worlds(h, cons, mines), Holding(Worlds(h, cons, mines), x);
    HoldingIs(h, cons, mines, x);
    SetCardMono(with, all);
    RatioRange(|with| as real, |all| as real);
    forall w | w in all ensures x in w <==> w in with {}
    if |with| == |all| { SubsetFull(with, all); }
    if forall w :: w in all ==> x !in w { assert with == {}; }
    if forall w :: w in all ==> x in w { assert with == all; }
  }

  lemma {:induction false} RatioRange(a: real, b: real)
    requires 0.0 <= a <= b && b > 0.0
    ensures 0.0 <= a / b <= 1.0
    ensures a / b == 0.0 <==> a == 0.0
    ensures a / b == 1.0 <==> a == b
  {
    var r := a / b;
    assert r * b == a;
    AddRatio(b - a, a, b);
    assert b / b == 1.0;
  }
}
