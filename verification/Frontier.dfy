/** Ties the solved components of a board to the posterior of its hidden cells. */
module Frontier {
  import opened Tallies
  import opened Sums
  import opened Placements
  import opened Convolution
  import opened Binomial
  import opened Posterior
  import opened FreeCells
  import opened Search
  import opened ComponentSolver
  import opened Components
  import opened Weights

  // What the search and the normalisation leave for one component.
  datatype Solved = Solved(s: seq<nat>, t: seq<nat>, tot: nat, dist: seq<real>)

  ghost predicate SolvedOk(comp: Component, r: Solved) {
    && Exact(comp.cells, comp.cons, r.s, r.t)
    && r.tot == SumTo(r.s, |r.s|) && |r.dist| == |r.s|
    && forall j :: 0 <= j < |r.s| ==> r.dist[j] == if r.tot > 0 then (r.s[j] as real) / (r.tot as real) else 0.0
  }

  ghost function PieceOf(comp: Component): Piece {
    Piece(Elems(comp.cells), comp.cons)
  }

  ghost function Pieces(comps: seq<Component>): seq<Piece> {
    seq(|comps|, i requires 0 <= i < |comps| => PieceOf(comps[i]))
  }

  lemma {:induction false} PiecesCons(comps: seq<Component>, cons: seq<Con>)
    requires Decomposition(comps, cons)
    ensures forall c :: c in cons <==> c in ConsOf(Pieces(comps), |comps|)
  {
    hide Mentioned, WellFormed, PiecesApart;
    var ps := Pieces(comps);
    CellsOfMember(ps, |comps|);
    forall c ensures c in cons <==> c in ConsOf(ps, |comps|) {
      if ConInPiece(comps, c) {
        var i: nat :| i < |comps| && c in comps[i].cons;
        assert c in ps[i].cons;
      }
      if c in ConsOf(ps, |comps|) {
        var i: nat :| i < |comps| && c in ps[i].cons;
        assert c in comps[i].cons;
      }
    }
  }

  lemma {:induction false} PiecesFacts(comps: seq<Component>, cons: seq<Con>)
    requires Decomposition(comps, cons)
    ensures PiecesOk(Pieces(comps))
    ensures CellsOf(Pieces(comps), |comps|) == Mentioned(cons)
    ensures forall c :: c in cons <==> c in ConsOf(Pieces(comps), |comps|)
  {
    var ps := Pieces(comps);
    CellsOfMember(ps, |comps|);
    forall x: nat ensures x in CellsOf(ps, |comps|) <==> x in Mentioned(cons) {
      assert x in Mentioned(cons) <==> CellInPiece(comps, x);
      if CellInPiece(comps, x) {
        var i: nat :| i < |comps| && x in comps[i].cells;
        assert x in ps[i].u;
      }
      if x in CellsOf(ps, |comps|) {
        var i: nat :| i < |comps| && x in ps[i].u;
        assert x in comps[i].cells;
      }
    }
    PiecesCons(comps, cons);
    forall i: nat | i < |ps| ensures Over(ps[i].cons, ps[i].u) {
      assert WellFormed(comps[i].cells, comps[i].cons);
    }
  }

  // ---- components without solutions ----

  // An assignment of the whole board restricts to a solution of every component.
  lemma {:induction false} ComponentSolvable(comp: Component, r: Solved, h: set<nat>, cons: seq<Con>, mines: int)
    requires WellFormed(comp.cells, comp.cons) && SolvedOk(comp, r)
    requires forall c :: c in comp.cons ==> c in cons
    requires N(h, cons, mines) > 0
    ensures r.tot > 0
  {
    hide N, WellFormed, At;
    var k := PieceSatisfied(comp, h, cons, mines);
    assert r.s[k] > 0;
    SumToPositive(r.s, |r.s|, k);
  }

  // Restricted to the piece, an assignment of the whole frontier solves it.
  lemma {:induction false} PieceSatisfied(comp: Component, h: set<nat>, cons: seq<Con>, mines: int) returns (k: nat)
    requires WellFormed(comp.cells, comp.cons) && N(h, cons, mines) > 0
    requires forall c :: c in comp.cons ==> c in cons
    ensures k <= |comp.cells| && N(Elems(comp.cells), comp.cons, k) > 0
  {
    var w :| w in Worlds(h, cons, mines);
    var u := Elems(comp.cells);
    var v := w * u;
    SatRestrict(comp.cons, u, w);
    assert v in Worlds(u, comp.cons, |v|);
    SubsetCard(v, u);
    ElemsCard(comp.cells);
    k := |v|;
  }

  lemma {:induction false} ConvZero(a: Dist, b: Dist)
    requires (forall i :: 0 <= i < |a| ==> a[i] == 0.0) || (forall i :: 0 <= i < |b| ==> b[i] == 0.0)
    ensures forall i :: 0 <= i < |Conv(a, b)| ==> Conv(a, b)[i] == 0.0
  {
    forall i | 0 <= i < |Conv(a, b)| ensures Conv(a, b)[i] == 0.0 {
      forall j ensures Term(a, b, i)(j) == 0.0 {
        MulZero(Coef(a, i - j), Coef(b, j));
      }
      SumZero(Term(a, b, i), |b|);
    }
  }

  // One impossible component makes the overall distribution vanish.
  lemma {:induction false} PrefixZero(ds: seq<Dist>, i: nat, k: nat)
    requires i < k <= |ds| && forall j :: 0 <= j < |ds[i]| ==> ds[i][j] == 0.0
    ensures forall j :: 0 <= j < |Prefix(ds, k)| ==> Prefix(ds, k)[j] == 0.0
  {
    if i < k - 1 { PrefixZero(ds, i, k - 1); }
    ConvZero(Prefix(ds, k - 1), ds[k - 1]);
  }

  // ---- the solved frontier ----

  datatype View = View(comps: seq<Component>, cons: seq<Con>, results: seq<Solved>) {

    ghost predicate Valid() {
      && Decomposition(comps, cons) && |results| == |comps|
      && forall i: nat :: i < |comps| ==> SolvedOk(comps[i], results[i])
    }

    ghost predicate Solvable()
      requires Valid()
    {
      forall i: nat :: i < |results| ==> results[i].tot > 0
    }

    ghost function Dists(): seq<Dist>
      requires Valid()
    {
      seq(|results|, i requires 0 <= i < |results| => assert SolvedOk(comps[i], results[i]); results[i].dist)
    }

    ghost function Tots(): seq<real>
      requires Valid()
    {
      seq(|results|, i requires 0 <= i < |results| => results[i].tot as real)
    }

    // The overall frontier mine-count distribution.
    ghost function D(): Dist
      requires Valid()
    {
      Prefix(Dists(), |results|)
    }

    lemma {:induction false} PieceNormalised(i: nat)
      requires Valid() && Solvable() && i < |results|
      ensures Tots()[i] > 0.0
      ensures Dists()[i] == Scaled(1.0 / Tots()[i], Poly(Elems(comps[i].cells), comps[i].cons))
    {
      assert SolvedOk(comps[i], results[i]);
      assert WellFormed(comps[i].cells, comps[i].cons);
      ElemsCard(comps[i].cells);
      DistIsPoly(Elems(comps[i].cells), comps[i].cons, results[i].s, results[i].tot, results[i].dist);
    }

    lemma {:induction false} AllNormalised()
      requires Valid() && Solvable()
      ensures Normalised(Dists(), Pieces(comps), Tots())
    {
      forall i: nat | i < |results|
        ensures Tots()[i] > 0.0
        ensures Dists()[i] == Scaled(1.0 / Tots()[i], Poly(Pieces(comps)[i].u, Pieces(comps)[i].cons))
      {
        PieceNormalised(i);
      }
    }

    // The distribution is the solution counts of the whole frontier, times a positive constant.
    lemma {:induction false} DIsPoly() returns (c: real, k: seq<Con>)
      requires Valid() && Solvable()
      ensures c > 0.0 && D() == Scaled(c, Poly(Mentioned(cons), k))
      ensures Over(k, Mentioned(cons)) && forall con :: con in cons <==> con in k
      ensures k == ConsOf(Pieces(comps), |comps|)
      ensures forall j :: 0 <= j < |Tots()| ==> Tots()[j] > 0.0
      ensures c == InvTot(Tots(), |results|)
    {
      AllNormalised();
      PiecesFacts(comps, cons);
      OverPieces(Pieces(comps), |comps|);
      PrefixPoly(Dists(), Pieces(comps), Tots(), |comps|);
      InvTotPositive(Tots(), |comps|);
      c, k := InvTot(Tots(), |comps|), ConsOf(Pieces(comps), |comps|);
    }

    lemma {:induction false} Unsolvable(h: set<nat>, mines: int)
      requires Valid() && !Solvable()
      ensures N(h, cons, mines) == 0
      ensures forall t :: 0 <= t < |D()| ==> D()[t] == 0.0
    {
      var i: nat :| i < |results| && !(results[i].tot > 0);
      assert SolvedOk(comps[i], results[i]);
      if N(h, cons, mines) > 0 {
        forall c | c in comps[i].cons ensures c in cons {
          assert ConInPiece(comps, c);
        }
        assert WellFormed(comps[i].cells, comps[i].cons);
        ComponentSolvable(comps[i], results[i], h, cons, mines);
      }
      PrefixZero(Dists(), i, |results|);
    }
  }

  lemma {:induction false} ScaledNonneg(c: real, u: set<nat>, k: seq<Con>, d: Dist)
    requires c > 0.0 && d == Scaled(c, Poly(u, k))
    ensures forall t: nat :: t < |d| ==> d[t] >= 0.0 && (d[t] > 0.0 <==> N(u, k, t) > 0)
  {
    forall t: nat | t < |d| ensures d[t] >= 0.0 && (d[t] > 0.0 <==> N(u, k, t) > 0) {
      if N(u, k, t) > 0 {
        PositiveProduct(c, N(u, k, t) as real);
      } else {
        MulZero(c, N(u, k, t) as real);
      }
    }
  }

  // Some frontier total with a possible completion exists exactly when the board is consistent.
  lemma {:induction false} ConsistentIff(f: set<nat>, k: seq<Con>, g: set<nat>, mines: nat)
    requires g !! f && Over(k, f)
    ensures N(g + f, k, mines) > 0
       <==> exists t: nat :: t <= |f| && N(f, k, t) > 0 && Choose(|g|, mines - t) > 0
  {
    hide N, Choose, Sum;
    var h := Completions(g, f, k, mines);
    CompletionsTotal(g, f, k, mines);
    forall t: nat | t <= |f|
      ensures h(t) >= 0.0 && (h(t) > 0.0 <==> N(f, k, t) > 0 && Choose(|g|, mines - t) > 0)
    {
      FreeCount(g, mines - t);
      PolyCoef(g, [], mines - t);
      PolyCoef(f, k, t);
      ProductSign(Choose(|g|, mines - t), N(f, k, t));
    }
    SumNonneg(h, |f| + 1);
    if N(g + f, k, mines) > 0 {
      if forall t: nat :: t <= |f| ==> h(t) == 0.0 {
        SumZero(h, |f| + 1);
      }
    }
  }

  lemma {:induction false} ProductSign(x: nat, y: nat)
    ensures (x as real) * (y as real) >= 0.0
    ensures (x as real) * (y as real) > 0.0 <==> x > 0 && y > 0
  {
    if x > 0 && y > 0 {
      PositiveProduct(x as real, y as real);
    } else {
      MulZero(x as real, y as real);
    }
  }

  // ---- exactness, from the values the loops compute ----

  ghost predicate WeightsFrom(d: seq<real>, w: seq<real>, free: nat, mines: nat, mx: nat) {
    && |w| == |d|
    && (forall t: nat :: t < |d| ==>
         w[t] == if mx == 0 then 1.0 else (RawWeight(d[t], free, mines, t) as real) / (mx as real))
    && (forall t: nat :: t < |d| && d[t] > 0.0 ==> Choose(free, mines - t) <= mx)
    && (mx > 0 ==> exists t: nat :: t < |d| && d[t] > 0.0 && Choose(free, mines - t) == mx)
  }

  // The weight table is all zero exactly on inconsistent boards.
  lemma {:induction false} FallbackIff(v: View, g: set<nat>, mines: nat, w: seq<real>, mx: nat)
    requires v.Valid() && g !! Mentioned(v.cons)
    requires WeightsFrom(v.D(), w, |g|, mines, mx)
    ensures mx == 0 <==> N(g + Mentioned(v.cons), v.cons, mines) == 0
    ensures mx > 0 ==> v.Solvable()
  {
    hide N, Choose, View.Valid, View.Solvable, View.D;
    var f, d := Mentioned(v.cons), v.D();
    if v.Solvable() {
      var c, k := v.DIsPoly();
      ScaledNonneg(c, f, k, d);
      ConsistentIff(f, k, g, mines);
      NSameCons(g + f, v.cons, k, mines);
      if mx > 0 {
        var t: nat :| t < |d| && d[t] > 0.0 && Choose(|g|, mines - t) == mx;
        assert N(f, k, t) > 0;
      }
      if N(g + f, k, mines) > 0 {
        var t: nat :| t <= |f| && N(f, k, t) > 0 && Choose(|g|, mines - t) > 0;
        assert d[t] > 0.0;
      }
    } else {
      v.Unsolvable(g + f, mines);
    }
  }

  lemma {:induction false} WeightsReady(v: View, g: set<nat>, mines: nat, w: seq<real>, mx: nat)
    requires v.Valid() && v.Solvable() && mx > 0
    requires WeightsFrom(v.D(), w, |g|, mines, mx)
    ensures WeightsFit(v.D(), w, |g|, mines, 1.0 / (mx as real)) && 1.0 / (mx as real) > 0.0
    ensures forall t: nat :: t < |w| ==> w[t] >= 0.0
  {
    var c, k := v.DIsPoly();
    ScaledNonneg(c, Mentioned(v.cons), k, v.D());
    WeightsFitFrom(v.D(), w, |g|, mines, mx);
    OverPositive(mx as real);
  }

  lemma {:induction false} OverPositive(x: real)
    requires x > 0.0
    ensures 1.0 / x > 0.0
  {}

  // Row li of T, divided by the component total.
  ghost function RowDist(r: Solved, m: nat, li: nat): seq<real>
    requires r.tot > 0 && forall k: nat :: k <= m ==> At(m, li, k) < |r.t|
  {
    seq(m + 1, k requires 0 <= k <= m => (r.t[At(m, li, k)] as real) / (r.tot as real))
  }

  lemma {:induction false} RowIsPoly(comp: Component, r: Solved, li: nat)
    requires WellFormed(comp.cells, comp.cons) && SolvedOk(comp, r) && r.tot > 0 && li < |comp.cells|
    ensures forall k: nat :: k <= |comp.cells| ==> At(|comp.cells|, li, k) < |r.t|
    ensures RowDist(r, |comp.cells|, li)
         == Scaled(1.0 / (r.tot as real), Poly(Elems(comp.cells), comp.cons + [MineAt(comp.cells[li])]))
  {
    var m := |comp.cells|;
    ElemsCard(comp.cells);
    assert forall k: nat :: k <= m ==> At(m, li, k) < |r.t|;
    var row := seq(m + 1, k requires 0 <= k <= m => r.t[At(m, li, k)]);
    DistIsPoly(Elems(comp.cells), comp.cons + [MineAt(comp.cells[li])], row, r.tot, RowDist(r, m, li));
  }

  // The convolution used for one cell is the frontier's counts with a mine at that cell.
  lemma {:induction false} MarkedDist(v: View, i: nat, li: nat, a: Dist, b: Dist, c: real, k: seq<Con>)
      returns (k': seq<Con>)
    requires v.Valid() && v.Solvable() && i < |v.comps| && li < |v.comps[i].cells|
    requires forall k: nat :: k <= |v.comps[i].cells| ==> At(|v.comps[i].cells|, li, k) < |v.results[i].t|
    requires v.results[i].tot > 0 && a == RowDist(v.results[i], |v.comps[i].cells|, li)
    requires b == Conv(Prefix(v.Dists(), i), Suffix(v.Dists(), i + 1))
    requires k == ConsOf(Pieces(v.comps), |v.comps|)
    requires (forall j :: 0 <= j < |v.Tots()| ==> v.Tots()[j] > 0.0) && c == InvTot(v.Tots(), |v.results|)
    ensures Conv(b, a) == Scaled(c, Poly(Mentioned(v.cons), k')) && Over(k', Mentioned(v.cons))
    ensures forall con :: con in k' <==> con in k || con == MineAt(v.comps[i].cells[li])
  {
    var comp, ps := v.comps[i], Pieces(v.comps);
    var x := comp.cells[li];
    assert WellFormed(comp.cells, comp.cons) && SolvedOk(comp, v.results[i]);
    RowIsPoly(comp, v.results[i], li);
    PiecesFacts(v.comps, v.cons);
    v.AllNormalised();
    MarkedFacts(ps, i, x);
    CellDist(v.Dists(), ps, v.Tots(), i, x, a, b);
    var qs := Marked(ps, i, x);
    OverPieces(qs, |qs|);
    k' := ConsOf(qs, |qs|);
  }

  lemma {:induction false} NumeratorIs(a: Dist, b: Dist, w: int -> real, num: real)
    requires num == Sum(NumeratorTerm(a, b, w), |a|)
    ensures num == Sum(Weigh(Conv(b, a), w), |Conv(b, a)|)
  {
    NumeratorIsConv(a, b, w);
  }

  /** A frontier cell of component i gets its true posterior probability. */
  lemma {:induction false} FrontierCellExact(v: View, g: set<nat>, mines: nat, w: seq<real>, mx: nat, i: nat, li: nat,
                                             a: Dist, b: Dist, num: real, z: real)
    requires v.Valid() && g !! Mentioned(v.cons) && i < |v.comps| && li < |v.comps[i].cells|
    requires v.Solvable() && mx > 0 && WeightsFrom(v.D(), w, |g|, mines, mx)
    requires forall k: nat :: k <= |v.comps[i].cells| ==> At(|v.comps[i].cells|, li, k) < |v.results[i].t|
    requires v.results[i].tot > 0 && a == RowDist(v.results[i], |v.comps[i].cells|, li)
    requires b == Conv(Prefix(v.Dists(), i), Suffix(v.Dists(), i + 1))
    requires num == Sum(NumeratorTerm(a, b, AsFun(w)), |a|)
    requires z == Sum(Weigh(v.D(), AsFun(w)), |v.D()|)
    ensures N(g + Mentioned(v.cons), v.cons, mines) > 0
    ensures z > 0.0 && num / z == Chance(g + Mentioned(v.cons), v.cons, mines, v.comps[i].cells[li])
  {
    var c, k := v.DIsPoly();
    FallbackIff(v, g, mines, w, mx);
    WeightsReady(v, g, mines, w, mx);
    var k' := MarkedDist(v, i, li, a, b, c, k);
    NumeratorIs(a, b, AsFun(w), num);
    CellExact(Mentioned(v.cons), k, k', g, mines, v.comps[i].cells[li], c, 1.0 / (mx as real),
              v.D(), Conv(b, a), w, num, z, v.cons);
  }

  /** The shared free-cell probability is the true posterior of every free cell. */
  lemma {:induction false} FreeCellExact(v: View, g: set<nat>, mines: nat, w: seq<real>, mx: nat, x: nat, z: real,
                                         e: real, q: real)
    requires v.Valid() && g !! Mentioned(v.cons) && x in g
    requires v.Solvable() && mx > 0 && WeightsFrom(v.D(), w, |g|, mines, mx)
    requires z == Sum(Weigh(v.D(), AsFun(w)), |v.D()|) && e == Sum(Expect(Weigh(v.D(), AsFun(w))), |v.D()|)
    requires z > 0.0 && q == (mines as real - e / z) / (|g| as real)
    ensures N(g + Mentioned(v.cons), v.cons, mines) > 0
    ensures q == Chance(g + Mentioned(v.cons), v.cons, mines, x)
  {
    var c, k := v.DIsPoly();
    FallbackIff(v, g, mines, w, mx);
    WeightsReady(v, g, mines, w, mx);
    FreeExact(Mentioned(v.cons), k, g, mines, x, c, 1.0 / (mx as real), v.D(), w, z, e, v.cons);
  }

  /** The normaliser is positive exactly when the weights are not the fallback ones. */
  lemma {:induction false} NormaliserPositive(v: View, g: set<nat>, mines: nat, w: seq<real>, mx: nat, z: real)
    requires v.Valid() && g !! Mentioned(v.cons)
    requires v.Solvable() && mx > 0 && WeightsFrom(v.D(), w, |g|, mines, mx)
    requires z == Sum(Weigh(v.D(), AsFun(w)), |v.D()|)
    ensures z > 0.0
  {
    var c, k := v.DIsPoly();
    FallbackIff(v, g, mines, w, mx);
    WeightsReady(v, g, mines, w, mx);
    NSameCons(g + Mentioned(v.cons), v.cons, k, mines);
    TotalPositive(Mentioned(v.cons), k, g, mines, c, 1.0 / (mx as real), v.D(), w, z);
  }
}
