/** scenario_analyze: exact mine probabilities of every hidden cell. */
module Analyze {
  import opened Tallies
  import opened Sums
  import opened Placements
  import opened Convolution
  import opened Posterior
  import opened FreeCells
  import opened Search
  import opened ComponentSolver
  import opened UnionFind
  import opened Components
  import opened Classes
  import opened Compaction
  import opened Constraints
  import opened Weights
  import opened Frontier

  // Scenarios carries P(mine) by cell; Fallback stands for the branches taken when no
  // frontier total can be completed, whose fair guesses are not modelled.
  datatype Report = NoHidden | Fallback | Scenarios(pMine: seq<real>)

  // ---- solving every component ----

  method SolveOne(cells: seq<nat>, cons: seq<Con>) returns (solved: bool, r: Solved)
    requires WellFormed(cells, cons) && cells != []
    ensures solved ==> SolvedOk(Component(cells, cons), r)
    ensures solved <==> NodeCost(cells, cons) <= NODE_BUDGET
  {
    hide Exact, WellFormed, NodeCost;
    var S, T;
    solved, S, T := CompSolve(cells, cons);
    var tot, dist := Normalise(S[..]);
    r := Solved(S[..], T[..], tot, dist);
  }

  lemma {:induction false} FirstCells(cons: seq<Con>, n: nat)
    requires Usable(cons, n)
    ensures forall c :: c in cons ==> c.cells != [] && c.cells[0] < n
  {
    forall c | c in cons ensures c.cells != [] && c.cells[0] < n {
      assert c.cells[0] in c.cells;
    }
  }

  // The sorted cells hold the components in their order.
  lemma {:induction false} SortedLaid(cons: seq<Con>, frontier: seq<nat>, reps: seq<nat>, compRoot: seq<nat>,
                                      rootOf: seq<nat>, ofs: seq<nat>, compCells: seq<nat>)
    requires SplitContext(cons, frontier, reps, compRoot, rootOf)
    requires forall k :: 0 <= k < |frontier| ==> frontier[k] < |rootOf|
    requires Sorted(frontier, rootOf, |compRoot|, ofs, compCells)
    ensures |Parts(cons)| == |compRoot| && Laid(Parts(cons), ofs, compCells)
  {
    hide SplitContext, Parts;
    PartsCount(cons, frontier, reps, compRoot, rootOf);
    forall i: nat | i < |Parts(cons)| ensures RangeIs(ofs, compCells, i, Parts(cons)[i].cells) {
      PieceIsPart(cons, frontier, reps, compRoot, rootOf, i);
      assert RangeIs(ofs, compCells, i, Group(frontier, rootOf, i));
    }
  }

  method SolvePiece(cons: seq<Con>, uf: Forest, compRoot: seq<nat>, ofs: seq<nat>, compCells: seq<nat>, i: nat,
                    ghost frontier: seq<nat>, ghost rootOf: seq<nat>) returns (solved: bool, comp: Component, r: Solved)
    requires uf.Valid() && SplitContext(cons, frontier, uf.Reps(), compRoot, rootOf) && i < |compRoot|
    requires |Parts(cons)| == |compRoot| && Laid(Parts(cons), ofs, compCells)
    modifies uf.parent
    ensures uf.Valid() && uf.Reps() == old(uf.Reps())
    ensures comp == Parts(cons)[i] && (solved ==> SolvedOk(comp, r))
    ensures solved <==> Afforded(Parts(cons))[i]
  {
    hide SolvedOk, NodeCost, Parts;
    assert RangeIs(ofs, compCells, i, Parts(cons)[i].cells);
    var cc := compCells[ofs[i]..ofs[i + 1]];
    var local := SelectCons(cons, uf, compRoot[i]);
    PieceWellFormed(cons, frontier, uf.Reps(), compRoot, rootOf, i);
    PieceIsPart(cons, frontier, uf.Reps(), compRoot, rootOf, i);
    comp := Component(cc, local);
    solved, r := SolveOne(cc, local);
  }

  // A component over the budget: its cells become free cells.
  method DropCells(cc: seq<nat>, inFrontier: array<bool>)
    requires forall x :: x in cc ==> x < inFrontier.Length
    modifies inFrontier
    ensures forall x: nat :: x < inFrontier.Length ==> (inFrontier[x] <==> old(inFrontier[x]) && x !in cc)
  {
    for k := 0 to |cc|
      invariant forall x: nat :: x < inFrontier.Length ==> (inFrontier[x] <==> old(inFrontier[x]) && x !in cc[..k])
    {
      assert cc[k] in cc && cc[..k + 1] == cc[..k] + [cc[k]];
      inFrontier[cc[k]] := false;
    }
    assert cc[..|cc|] == cc;
  }

  // The components solved among the first i, their results, and what has been dropped.
  ghost predicate SolvedUpto(cons: seq<Con>, i: nat, comps: seq<Component>, results: seq<Solved>, used: seq<Con>,
                             front: set<nat>, dropped: nat)
    requires i <= |Parts(cons)|
  {
    var parts, flags := Parts(cons), Afforded(Parts(cons));
    && comps == Picked(parts[..i], flags[..i]) && |results| == |comps| && used == JoinedCons(comps)
    && (forall j: nat :: j < |comps| ==> SolvedOk(comps[j], results[j]))
    && front == Mentioned(cons) - DroppedCells(parts, flags, i)
    && |front| + dropped == |Mentioned(cons)|
  }

  lemma {:induction false} SolvedNone(cons: seq<Con>)
    ensures SolvedUpto(cons, 0, [], [], [], Mentioned(cons), 0)
  {
    hide Mentioned, Parts;
  }

  lemma {:induction false} PickedSnoc(parts: seq<Component>, flags: seq<bool>, i: nat)
    requires i < |parts| == |flags|
    ensures Picked(parts[..i + 1], flags[..i + 1])
         == Picked(parts[..i], flags[..i]) + (if flags[i] then [parts[i]] else [])
  {
    assert flags[..i + 1][..i] == flags[..i];
  }

  lemma {:induction false} SolvedMore(cons: seq<Con>, i: nat, comps: seq<Component>, results: seq<Solved>,
                                      used: seq<Con>, front: set<nat>, dropped: nat, r: Solved)
    requires i < |Parts(cons)| && SolvedUpto(cons, i, comps, results, used, front, dropped)
    requires Afforded(Parts(cons))[i] && SolvedOk(Parts(cons)[i], r)
    ensures SolvedUpto(cons, i + 1, comps + [Parts(cons)[i]], results + [r], used + Parts(cons)[i].cons, front, dropped)
  {
    hide Mentioned, Parts, SolvedOk, Afforded, Picked, DroppedCells, JoinedCons;
    PickedSnoc(Parts(cons), Afforded(Parts(cons)), i);
    KeptSnoc(Parts(cons), Afforded(Parts(cons)), i);
    JoinedSnoc(comps, Parts(cons)[i]);
  }

  lemma {:induction false} JoinedSnoc(comps: seq<Component>, comp: Component)
    ensures JoinedCons(comps + [comp]) == JoinedCons(comps) + comp.cons
  {
    assert (comps + [comp])[..|comps|] == comps;
  }

  lemma {:induction false} KeptSnoc(parts: seq<Component>, flags: seq<bool>, i: nat)
    requires i < |parts| == |flags| && flags[i]
    ensures DroppedCells(parts, flags, i + 1) == DroppedCells(parts, flags, i)
  {}

  lemma {:induction false} DroppedMore(cons: seq<Con>, i: nat, comps: seq<Component>, results: seq<Solved>,
                                       used: seq<Con>, front: set<nat>, dropped: nat)
    requires i < |Parts(cons)| && SolvedUpto(cons, i, comps, results, used, front, dropped)
    requires Decomposition(Parts(cons), cons) && !Afforded(Parts(cons))[i]
    ensures SolvedUpto(cons, i + 1, comps, results, used, front - Elems(Parts(cons)[i].cells),
                       dropped + |Parts(cons)[i].cells|)
    ensures Elems(Parts(cons)[i].cells) <= front
  {
    hide Parts, SolvedOk, Afforded, Picked, Mentioned, Decomposition, DroppedCells;
    var parts, flags := Parts(cons), Afforded(Parts(cons));
    var gone := Elems(parts[i].cells);
    PickedSnoc(parts, flags, i);
    assert comps + [] == comps;
    StillThere(parts, cons, flags, i);
    DroppedSnoc(parts, flags, i);
    DisjointCard(front - gone, gone, front);
  }

  lemma {:induction false} DroppedSnoc(parts: seq<Component>, flags: seq<bool>, i: nat)
    requires i < |parts| == |flags| && !flags[i]
    ensures DroppedCells(parts, flags, i + 1) == DroppedCells(parts, flags, i) + Elems(parts[i].cells)
  {}

  // The cells of component i lie on the frontier and have not been dropped before.
  lemma {:induction false} StillThere(parts: seq<Component>, cons: seq<Con>, flags: seq<bool>, i: nat)
    requires Decomposition(parts, cons) && i < |parts| == |flags|
    ensures Elems(parts[i].cells) <= Mentioned(cons) - DroppedCells(parts, flags, i)
    ensures |Elems(parts[i].cells)| == |parts[i].cells|
  {
    hide Mentioned, DroppedCells;
    forall x | x in Elems(parts[i].cells) ensures x in Mentioned(cons) && x !in DroppedCells(parts, flags, i) {
      assert CellInPiece(parts, x);
      OnePart(parts, i, x);
      DroppedMember(parts, flags, i, x);
    }
    assert WellFormed(parts[i].cells, parts[i].cons);
    ElemsCard(parts[i].cells);
  }

  method SolveAll(cons: seq<Con>, uf: Forest, compRoot: seq<nat>, ofs: seq<nat>, compCells: seq<nat>,
                  inFrontier: array<bool>, ghost frontier: seq<nat>, ghost rootOf: seq<nat>)
      returns (comps: seq<Component>, results: seq<Solved>, used: seq<Con>, dropped: nat, ghost front: set<nat>)
    requires uf.Valid() && SplitContext(cons, frontier, uf.Reps(), compRoot, rootOf)
    requires |Parts(cons)| == |compRoot| && Laid(Parts(cons), ofs, compCells) && Decomposition(Parts(cons), cons)
    requires SameSet(inFrontier, Mentioned(cons)) && forall x: nat :: x in Mentioned(cons) ==> x < inFrontier.Length
    modifies uf.parent, inFrontier
    ensures SolvedUpto(cons, |Parts(cons)|, comps, results, used, front, dropped)
    ensures SameSet(inFrontier, front)
  {
    hide SolvedOk, SplitContext, Laid, SolvedUpto, Parts, Decomposition, Mentioned, Afforded;
    ghost var reps := uf.Reps();
    comps, results, used, dropped, front := [], [], [], 0, Mentioned(cons);
    SolvedNone(cons);
    for i := 0 to |compRoot|
      invariant uf.Valid() && uf.Reps() == reps
      invariant SolvedUpto(cons, i, comps, results, used, front, dropped)
      invariant SameSet(inFrontier, front) && front <= Mentioned(cons)
    {
      var solved, comp, r := SolvePiece(cons, uf, compRoot, ofs, compCells, i, frontier, rootOf);
      if solved {
        SolvedMore(cons, i, comps, results, used, front, dropped, r);
        comps, results, used := comps + [comp], results + [r], used + comp.cons;
      } else {
        DroppedMore(cons, i, comps, results, used, front, dropped);
        assert forall x :: x in comp.cells <==> x in Elems(comp.cells);
        DropCells(comp.cells, inFrontier);
        dropped := dropped + |comp.cells|;
        front := front - Elems(comp.cells);
      }
    }
  }

  // ---- probabilities of the frontier ----

  ghost predicate CellsDone(v: View, h: set<nat>, mines: nat, p: seq<real>, i: nat, li: nat)
    requires i <= |v.comps| && N(h, v.cons, mines) > 0
  {
    forall j: nat, lj: nat :: j < |v.comps| && lj < |v.comps[j].cells| && (j < i || (j == i && lj < li)) ==>
      v.comps[j].cells[lj] < |p| && p[v.comps[j].cells[lj]] == Chance(h, v.cons, mines, v.comps[j].cells[lj])
  }

  lemma {:induction false} CellsNone(v: View, h: set<nat>, mines: nat, p: seq<real>)
    requires N(h, v.cons, mines) > 0
    ensures CellsDone(v, h, mines, p, 0, 0)
  {}

  // Result i is written from ofs[i] on.
  ghost predicate Slots(v: View, ofs: seq<nat>, compCells: seq<nat>, n: nat) {
    && |v.comps| <= |ofs|
    && (forall i: nat :: i < |v.comps| ==> ofs[i] + |v.comps[i].cells| <= |compCells|)
    && (forall x :: x in compCells ==> x < n)
  }

  // Those are its own cells.
  ghost predicate OwnSlots(v: View, ofs: seq<nat>, compCells: seq<nat>, n: nat)
    requires Slots(v, ofs, compCells, n)
  {
    forall i: nat, li: nat :: i < |v.comps| && li < |v.comps[i].cells| ==>
      compCells[ofs[i] + li] == v.comps[i].cells[li]
  }

  // Cells of the decomposition are pairwise distinct.
  lemma {:induction false} CellsApart(v: View, i: nat, li: nat, j: nat, lj: nat)
    requires v.Valid() && i < |v.comps| && li < |v.comps[i].cells| && j < |v.comps| && lj < |v.comps[j].cells|
    requires v.comps[i].cells[li] == v.comps[j].cells[lj]
    ensures i == j && li == lj
  {
    var x := v.comps[i].cells[li];
    assert x in Elems(v.comps[i].cells) && x in Elems(v.comps[j].cells);
    assert WellFormed(v.comps[i].cells, v.comps[i].cons);
  }

  lemma {:induction false} CellsDoneStep(v: View, h: set<nat>, mines: nat, p: seq<real>, i: nat, li: nat, value: real)
    requires v.Valid() && i < |v.comps| && li < |v.comps[i].cells| && N(h, v.cons, mines) > 0
    requires CellsDone(v, h, mines, p, i, li) && v.comps[i].cells[li] < |p|
    requires value == Chance(h, v.cons, mines, v.comps[i].cells[li])
    ensures CellsDone(v, h, mines, p[v.comps[i].cells[li] := value], i, li + 1)
  {
    var x, q := v.comps[i].cells[li], p[v.comps[i].cells[li] := value];
    forall j: nat, lj: nat | j < |v.comps| && lj < |v.comps[j].cells| && (j < i || (j == i && lj < li + 1))
      ensures v.comps[j].cells[lj] < |q| && q[v.comps[j].cells[lj]] == Chance(h, v.cons, mines, v.comps[j].cells[lj])
    {
      if v.comps[j].cells[lj] == x {
        CellsApart(v, j, lj, i, li);
      }
    }
  }

  lemma {:induction false} RowInTable(v: View, i: nat, li: nat)
    requires v.Valid() && i < |v.comps| && li < |v.comps[i].cells|
    ensures forall k: nat :: k <= |v.comps[i].cells| ==> At(|v.comps[i].cells|, li, k) < |v.results[i].t|
  {
    assert SolvedOk(v.comps[i], v.results[i]);
  }

  method OneCell(v: View, i: nat, li: nat, b: seq<real>, w: array<real>, z: real, ghost g: set<nat>, ghost mines: nat,
                 ghost mx: nat) returns (value: real)
    requires v.Valid() && v.Solvable() && g !! Mentioned(v.cons) && i < |v.comps| && li < |v.comps[i].cells|
    requires mx > 0 && WeightsFrom(v.D(), w[..], |g|, mines, mx)
    requires forall t: nat :: t < w.Length ==> w[t] >= 0.0
    requires b == Conv(Prefix(v.Dists(), i), Suffix(v.Dists(), i + 1))
    requires z == Sum(Weigh(v.D(), AsFun(w[..])), |v.D()|) && z > 0.0
    ensures N(g + Mentioned(v.cons), v.cons, mines) > 0
    ensures value == Chance(g + Mentioned(v.cons), v.cons, mines, v.comps[i].cells[li])
  {
    RowInTable(v, i, li);
    assert SolvedOk(v.comps[i], v.results[i]);
    var m := |v.comps[i].cells|;
    ghost var a := RowDist(v.results[i], m, li);
    var row := seq(m + 1, k requires 0 <= k <= m => v.results[i].t[At(m, li, k)]);
    var num := CellNumerator(row, v.results[i].tot, b, w, a);
    value := num / z;
    FrontierCellExact(v, g, mines, w[..], mx, i, li, a, b, num, z);
  }

  // Distribution of all the other components.
  method Others(pre: Dist, suf: Dist) returns (dExcept: seq<real>)
    ensures dExcept == Conv(pre, suf)
  {
    var len := |pre| + |suf| - 1;
    var out := new real[len](_ => 0.0);
    ConvInto(pre, suf, out);
    assert out[..] == out[..len];
    dExcept := out[..];
  }

  method ComponentCells(v: View, i: nat, pre: Dist, suf: Dist, w: array<real>, z: real, p: array<real>,
                        ofs: seq<nat>, compCells: seq<nat>, ghost g: set<nat>, ghost mines: nat, ghost mx: nat)
    requires v.Valid() && v.Solvable() && g !! Mentioned(v.cons) && i < |v.comps|
    requires Slots(v, ofs, compCells, p.Length)
    requires mx > 0 && WeightsFrom(v.D(), w[..], |g|, mines, mx) && p != w
    requires forall t: nat :: t < w.Length ==> w[t] >= 0.0
    requires pre == Prefix(v.Dists(), i) && suf == Suffix(v.Dists(), i + 1)
    requires z == Sum(Weigh(v.D(), AsFun(w[..])), |v.D()|) && z > 0.0
    requires N(g + Mentioned(v.cons), v.cons, mines) > 0
    requires OwnSlots(v, ofs, compCells, p.Length) ==> CellsDone(v, g + Mentioned(v.cons), mines, p[..], i, 0)
    modifies p
    ensures OwnSlots(v, ofs, compCells, p.Length) ==> CellsDone(v, g + Mentioned(v.cons), mines, p[..], i + 1, 0)
  {
    ghost var h, weights := g + Mentioned(v.cons), w[..];
    var dExcept := Others(pre, suf);
    for li := 0 to |v.comps[i].cells|
      invariant w[..] == weights
      invariant OwnSlots(v, ofs, compCells, p.Length) ==> CellsDone(v, h, mines, p[..], i, li)
    {
      var value := OneCell(v, i, li, dExcept, w, z, g, mines, mx);
      var cell := compCells[ofs[i] + li];
      assert cell in compCells;
      ghost var was := p[..];
      p[cell] := value;
      assert p[..] == was[cell := value];
      if OwnSlots(v, ofs, compCells, p.Length) { CellsDoneStep(v, h, mines, was, i, li, value); }
    }
    if OwnSlots(v, ofs, compCells, p.Length) { CellsDoneNext(v, h, mines, p[..], i); }
  }

  lemma {:induction false} CellsDoneNext(v: View, h: set<nat>, mines: nat, p: seq<real>, i: nat)
    requires i < |v.comps| && N(h, v.cons, mines) > 0
    requires CellsDone(v, h, mines, p, i, |v.comps[i].cells|)
    ensures CellsDone(v, h, mines, p, i + 1, 0)
  {
    hide N, Chance;
  }

  method FrontierCells(v: View, n: nat, prefix: seq<Dist>, suffix: seq<Dist>, w: array<real>, z: real,
                       ofs: seq<nat>, compCells: seq<nat>, ghost g: set<nat>, ghost mines: nat, ghost mx: nat)
      returns (p: array<real>)
    requires v.Valid() && v.Solvable() && Slots(v, ofs, compCells, n) && g !! Mentioned(v.cons)
    requires mx > 0 && WeightsFrom(v.D(), w[..], |g|, mines, mx)
    requires forall t: nat :: t < w.Length ==> w[t] >= 0.0
    requires |prefix| == |suffix| == |v.comps| + 1
    requires forall i: nat :: i <= |v.comps| ==> prefix[i] == Prefix(v.Dists(), i) && suffix[i] == Suffix(v.Dists(), i)
    requires z == Sum(Weigh(v.D(), AsFun(w[..])), |v.D()|) && z > 0.0
    requires N(g + Mentioned(v.cons), v.cons, mines) > 0
    ensures fresh(p) && p.Length == n
    ensures OwnSlots(v, ofs, compCells, n) ==> CellsDone(v, g + Mentioned(v.cons), mines, p[..], |v.comps|, 0)
  {
    hide View.Valid, View.Solvable, View.D, CellsDone, Sum, Weigh, N, Mentioned, Slots, OwnSlots, WeightsFrom, Prefix,
      Suffix;
    ghost var weights := w[..];
    p := new real[n](_ => 0.0);
    CellsNone(v, g + Mentioned(v.cons), mines, p[..]);
    for i := 0 to |v.comps|
      invariant w[..] == weights
      invariant OwnSlots(v, ofs, compCells, n) ==> CellsDone(v, g + Mentioned(v.cons), mines, p[..], i, 0)
    {
      ComponentCells(v, i, prefix[i], suffix[i + 1], w, z, p, ofs, compCells, g, mines, mx);
    }
  }

  function Clamp(p: real): real {
    if p < 0.0 then 0.0 else if p > 1.0 then 1.0 else p
  }

  // ---- the scenario list ----

  method Assemble(hidden: array<bool>, inFrontier: array<bool>, pCell: array<real>, pFree: real)
      returns (pMine: seq<real>)
    requires hidden.Length == inFrontier.Length == pCell.Length
    ensures |pMine| == hidden.Length
    ensures forall x: nat :: x < hidden.Length && hidden[x] ==>
      pMine[x] == 1.0 - Clamp(1.0 - if inFrontier[x] then pCell[x] else pFree)
  {
    pMine := [];
    for i := 0 to hidden.Length
      invariant |pMine| == i
      invariant forall x: nat :: x < i && hidden[x] ==>
        pMine[x] == 1.0 - Clamp(1.0 - if inFrontier[x] then pCell[x] else pFree)
    {
      var p := 0.0;
      if hidden[i] {
        var pSafe := Clamp(1.0 - if inFrontier[i] then pCell[i] else pFree);
        p := 1.0 - pSafe;
      }
      pMine := pMine + [p];
    }
  }

  // Every listed probability is the true posterior.
  ghost predicate AllExact(h: set<nat>, cons: seq<Con>, mines: nat, p: seq<real>)
    requires N(h, cons, mines) > 0
  {
    forall x: nat :: x in h ==> x < |p| && p[x] == Chance(h, cons, mines, x)
  }

  ghost predicate SameSet(a: array<bool>, s: set<nat>)
    reads a
  {
    forall x: nat :: x < a.Length ==> (a[x] <==> x in s)
  }

  lemma {:induction false} AssembleExact(h: set<nat>, f: set<nat>, cons: seq<Con>, mines: nat, hidden: seq<bool>,
                                         inFrontier: seq<bool>, pCell: seq<real>, pFree: real, pMine: seq<real>)
    requires N(h, cons, mines) > 0
    requires |hidden| == |inFrontier| == |pCell| == |pMine|
    requires forall x: nat :: x in h <==> x < |hidden| && hidden[x]
    requires forall x: nat :: x < |inFrontier| ==> (inFrontier[x] <==> x in f)
    requires forall x: nat :: x in h && x in f ==> pCell[x] == Chance(h, cons, mines, x)
    requires forall x: nat :: x in h && x !in f ==> pFree == Chance(h, cons, mines, x)
    requires forall x: nat :: x < |hidden| && hidden[x] ==>
      pMine[x] == 1.0 - Clamp(1.0 - if inFrontier[x] then pCell[x] else pFree)
    ensures AllExact(h, cons, mines, pMine)
  {
    forall x: nat | x in h ensures x < |pMine| && pMine[x] == Chance(h, cons, mines, x) {
      ChanceRange(h, cons, mines, x);
    }
  }

  // ---- no constraints at all: every hidden cell is alike ----

  method UniformPath(hidden: array<bool>, inFrontier: array<bool>, nHidden: nat, mines: nat, ghost h: set<nat>)
      returns (pMine: seq<real>)
    requires hidden.Length == inFrontier.Length && nHidden == |h| > 0
    requires SameSet(inFrontier, {})
    requires forall x: nat :: x in h <==> x < hidden.Length && hidden[x]
    ensures |pMine| == hidden.Length
    ensures N(h, [], mines) > 0 ==> AllExact(h, [], mines, pMine)
  {
    var p := Clamp((mines as real) / (nHidden as real));
    var pCell := new real[hidden.Length](_ => 0.0);
    pMine := Assemble(hidden, inFrontier, pCell, p);
    if N(h, [], mines) > 0 {
      forall x: nat | x in h ensures p == Chance(h, [], mines, x) {
        UniformExact(h, mines, x);
        ChanceRange(h, [], mines, x);
      }
      AssembleExact(h, {}, [], mines, hidden[..], inFrontier[..], pCell[..], p, pMine);
    }
  }

  // ---- the solved frontier ----

  lemma {:induction false} CellsAllDone(v: View, h: set<nat>, mines: nat, p: seq<real>)
    requires v.Valid() && N(h, v.cons, mines) > 0 && CellsDone(v, h, mines, p, |v.comps|, 0)
    ensures forall x: nat :: x in Mentioned(v.cons) ==> x < |p| && p[x] == Chance(h, v.cons, mines, x)
  {
    forall x: nat | x in Mentioned(v.cons) ensures x < |p| && p[x] == Chance(h, v.cons, mines, x) {
      assert CellInPiece(v.comps, x);
      var i: nat :| i < |v.comps| && x in v.comps[i].cells;
      var li :| 0 <= li < |v.comps[i].cells| && v.comps[i].cells[li] == x;
    }
  }

  method FreeProbability(mines: nat, freeCount: nat, z: real, e: real, ghost v: View, ghost g: set<nat>,
                         ghost w: seq<real>, ghost mx: nat) returns (p: real)
    requires v.Valid() && v.Solvable() && g !! Mentioned(v.cons) && freeCount == |g| && z > 0.0
    requires mx > 0 && WeightsFrom(v.D(), w, |g|, mines, mx)
    requires z == Sum(Weigh(v.D(), AsFun(w)), |v.D()|) && e == Sum(Expect(Weigh(v.D(), AsFun(w))), |v.D()|)
    requires N(g + Mentioned(v.cons), v.cons, mines) > 0
    ensures forall x: nat :: x in g ==> p == Chance(g + Mentioned(v.cons), v.cons, mines, x)
  {
    p := 0.0;
    if freeCount > 0 {
      var q := (mines as real - e / z) / (freeCount as real);
      p := Clamp(q);
      forall x: nat | x in g ensures p == Chance(g + Mentioned(v.cons), v.cons, mines, x) {
        FreeCellExact(v, g, mines, w, mx, x, z, e, q);
        ChanceRange(g + Mentioned(v.cons), v.cons, mines, x);
      }
    } else {
      assert g == {};
    }
  }

  method Overall(v: View) returns (prefix: seq<Dist>, suffix: seq<Dist>)
    requires v.Valid()
    ensures |prefix| == |suffix| == |v.comps| + 1
    ensures forall i: nat :: i <= |v.comps| ==> prefix[i] == Prefix(v.Dists(), i) && suffix[i] == Suffix(v.Dists(), i)
  {
    var k := |v.results|;
    var ds: seq<Dist> := seq(k, i requires 0 <= i < k => assert SolvedOk(v.comps[i], v.results[i]); v.results[i].dist);
    assert ds == v.Dists();
    var pre := PrefixProducts(ds);
    var suf := SuffixProducts(ds);
    prefix, suffix := pre[..], suf[..];
  }

  // Binomial weights, normaliser and expected frontier mines of the overall distribution.
  method Weighted(v: View, d: Dist, freeCount: nat, mines: nat, ghost g: set<nat>)
      returns (w: array<real>, mx: nat, z: real, e: real)
    requires v.Valid() && d == v.D() && g !! Mentioned(v.cons) && freeCount == |g|
    ensures fresh(w) && WeightsFrom(v.D(), w[..], |g|, mines, mx)
    ensures z == Sum(Weigh(v.D(), AsFun(w[..])), |v.D()|) && e == Sum(Expect(Weigh(v.D(), AsFun(w[..]))), |v.D()|)
    ensures mx == 0 <==> N(g + Mentioned(v.cons), v.cons, mines) == 0
    ensures mx > 0 ==> v.Solvable() && z > 0.0 && forall t: nat :: t < w.Length ==> w[t] >= 0.0
  {
    hide View.Valid, Sum, Weigh, Expect, N, Mentioned;
    w, mx := FreeWeights(d, freeCount, mines);
    z, e := Normaliser(d, w);
    WeightFacts(v, d, w[..], mx, g, mines, z);
  }

  lemma {:induction false} WeightFacts(v: View, d: Dist, w: seq<real>, mx: nat, g: set<nat>, mines: nat, z: real)
    requires v.Valid() && d == v.D() && g !! Mentioned(v.cons)
    requires WeightsFrom(d, w, |g|, mines, mx) && z == Sum(Weigh(d, AsFun(w)), |d|)
    ensures mx == 0 <==> N(g + Mentioned(v.cons), v.cons, mines) == 0
    ensures mx > 0 ==> v.Solvable() && z > 0.0 && forall t: nat :: t < |w| ==> w[t] >= 0.0
  {
    FallbackIff(v, g, mines, w, mx);
    if mx > 0 {
      NormaliserPositive(v, g, mines, w, mx, z);
      WeightsReady(v, g, mines, w, mx);
    }
  }

  ghost predicate FrontierExact(h: set<nat>, cons: seq<Con>, mines: nat, p: seq<real>)
    requires N(h, cons, mines) > 0
  {
    forall x: nat :: x in Mentioned(cons) ==> x < |p| && p[x] == Chance(h, cons, mines, x)
  }

  ghost predicate FreeExactly(h: set<nat>, cons: seq<Con>, mines: nat, g: set<nat>, p: real)
    requires N(h, cons, mines) > 0
  {
    forall x: nat :: x in g ==> p == Chance(h, cons, mines, x)
  }

  method Exactly(v: View, n: nat, prefix: seq<Dist>, suffix: seq<Dist>, w: array<real>, z: real, e: real,
                 freeCount: nat, mines: nat, ofs: seq<nat>, compCells: seq<nat>, ghost mx: nat, ghost g: set<nat>)
      returns (pCell: array<real>, pFree: real)
    requires v.Valid() && v.Solvable() && Slots(v, ofs, compCells, n) && g !! Mentioned(v.cons) && freeCount == |g|
    requires mx > 0 && WeightsFrom(v.D(), w[..], |g|, mines, mx)
    requires forall t: nat :: t < w.Length ==> w[t] >= 0.0
    requires |prefix| == |suffix| == |v.comps| + 1
    requires forall i: nat :: i <= |v.comps| ==> prefix[i] == Prefix(v.Dists(), i) && suffix[i] == Suffix(v.Dists(), i)
    requires z == Sum(Weigh(v.D(), AsFun(w[..])), |v.D()|) && z > 0.0
    requires e == Sum(Expect(Weigh(v.D(), AsFun(w[..]))), |v.D()|)
    requires N(g + Mentioned(v.cons), v.cons, mines) > 0
    ensures fresh(pCell) && pCell.Length == n
    ensures OwnSlots(v, ofs, compCells, n) ==> FrontierExact(g + Mentioned(v.cons), v.cons, mines, pCell[..])
    ensures FreeExactly(g + Mentioned(v.cons), v.cons, mines, g, pFree)
  {
    pFree := FreeProbability(mines, freeCount, z, e, v, g, w[..], mx);
    pCell := FrontierCells(v, n, prefix, suffix, w, z, ofs, compCells, g, mines, mx);
    if OwnSlots(v, ofs, compCells, n) { CellsAllDone(v, g + Mentioned(v.cons), mines, pCell[..]); }
  }

  method Probabilities(v: View, n: nat, freeCount: nat, mines: nat, ofs: seq<nat>, compCells: seq<nat>,
                       ghost g: set<nat>) returns (fallback: bool, pCell: array<real>, pFree: real)
    requires v.Valid() && Slots(v, ofs, compCells, n) && g !! Mentioned(v.cons) && freeCount == |g|
    ensures fresh(pCell) && pCell.Length == n
    ensures fallback <==> N(g + Mentioned(v.cons), v.cons, mines) == 0
    ensures !fallback ==>
      && (OwnSlots(v, ofs, compCells, n) ==> FrontierExact(g + Mentioned(v.cons), v.cons, mines, pCell[..]))
      && FreeExactly(g + Mentioned(v.cons), v.cons, mines, g, pFree)
  {
    var prefix, suffix := Overall(v);
    var w, mx, z, e := Weighted(v, prefix[|v.comps|], freeCount, mines, g);
    if mx == 0 || z <= 0.0 {
      pCell := new real[n](_ => 0.0);
      return true, pCell, 0.0;
    }
    pCell, pFree := Exactly(v, n, prefix, suffix, w, z, e, freeCount, mines, ofs, compCells, mx, g);
    fallback := false;
  }

  // The constraints of the components that the search can afford.
  ghost function SolvedCons(cons: seq<Con>): seq<Con> {
    UsedCons(Parts(cons))
  }

  // Every component is within the budget.
  ghost predicate AllAfforded(cons: seq<Con>) {
    forall i :: 0 <= i < |Parts(cons)| ==> Afforded(Parts(cons))[i]
  }

  /** What a report says, given the constraints that are left: a fallback only if no assignment fits them, and
      otherwise every hidden cell's true posterior under them. */
  ghost predicate ReportIs(h: set<nat>, cons: seq<Con>, mines: nat, r: Report) {
    && (r.Fallback? ==> N(h, cons, mines) == 0)
    && (r.Scenarios? && N(h, cons, mines) > 0 ==> AllExact(h, cons, mines, r.pMine))
  }

  /** The scenario report. The components over the search budget are dropped, and exactly those. The report is the
      true posterior under the remaining constraints whenever no dropped component precedes a solved one; in
      particular, under all constraints whenever every component is within the budget. */
  method ScenarioAnalyze(b: Snapshot) returns (r: Report)
    requires b.Shaped()
    ensures r.NoHidden? <==> b.HiddenSet() == {}
    ensures r.Fallback? ==> N(b.HiddenSet(), SolvedCons(b.Kept()), b.mines) == 0
    ensures DroppedLast(Afforded(Parts(b.Kept()))) ==> ReportIs(b.HiddenSet(), SolvedCons(b.Kept()), b.mines, r)
    ensures AllAfforded(b.Kept()) ==> ReportIs(b.HiddenSet(), b.Kept(), b.mines, r)
  {
    hide ReportIs, SolvedCons, AllAfforded, DroppedLast, Parts, Afforded, N;
    var hidden, flagged, nHidden := Visibility(b);
    ghost var h := b.HiddenSet();
    if nHidden == 0 {
      NothingReported(h, b.Kept(), b.mines);
      NothingReported(h, SolvedCons(b.Kept()), b.mines);
      return NoHidden;
    }
    var cons := BuildConstraints(b, hidden, flagged, h, b.FlagSet());
    b.KeptUsable();
    r := AnalyzeConstraints(cons, b.dim.Cells(), hidden, nHidden, b.mines, h);
  }

  lemma {:induction false} NothingReported(h: set<nat>, cons: seq<Con>, mines: nat)
    ensures ReportIs(h, cons, mines, NoHidden)
  {}

  // Frontier, union-find grouping, and one search per component.
  method SolveFrontier(cons: seq<Con>, n: nat)
      returns (inFrontier: array<bool>, nFrontier: nat, v: View, ofs: seq<nat>, compCells: seq<nat>)
    requires Usable(cons, n)
    ensures fresh(inFrontier) && inFrontier.Length == n && SameSet(inFrontier, Mentioned(v.cons))
    ensures v.cons == SolvedCons(cons) && nFrontier == |Mentioned(v.cons)| && Mentioned(v.cons) <= Mentioned(cons)
    ensures v.Valid() && Slots(v, ofs, compCells, n)
    ensures OwnSlots(v, ofs, compCells, n) <==> DroppedLast(Afforded(Parts(cons)))
    ensures Decomposition(Parts(cons), cons)
  {
    hide SplitContext, SolvedUpto, Parts, Decomposition, View.Valid, Slots, OwnSlots, DroppedLast, SolvedCons;
    FirstCells(cons, n);
    MentionedBelow(cons, n);
    var uf := UniteAll(cons, n);
    var frontier;
    inFrontier, frontier := CollectFrontier(cons, n);
    FrontierBelow(cons, n, frontier);
    assert SameSet(inFrontier, Mentioned(cons)) by {
      assert forall x: nat :: x in frontier <==> x in Elems(frontier);
    }
    var compRoot, rootOf := NumberRoots(frontier, uf);
    NumberedBelow(frontier, uf.Reps(), compRoot, rootOf[..]);
    var starts, sorted := SortByComponent(frontier, rootOf[..], |compRoot|);
    ofs, compCells := starts[..], sorted[..];
    ghost var reps := uf.Reps();
    ContextHolds(cons, frontier, reps, compRoot, rootOf[..]);
    SortedLaid(cons, frontier, reps, compRoot, rootOf[..], ofs, compCells);
    PartsDecompose(cons, frontier, reps, compRoot, rootOf[..]);
    SortedBelow(frontier, rootOf[..], |compRoot|, ofs, compCells, n);
    ghost var numbers, front := rootOf[..], {};
    var comps, results, used, dropped;
    comps, results, used, dropped, front := SolveAll(cons, uf, compRoot, ofs, compCells, inFrontier, frontier, numbers);
    v := View.View(comps, used, results);
    AllSolved(cons, v, ofs, compCells, n, front, dropped);
    nFrontier := |frontier| - dropped;
  }

  lemma {:induction false} ContextHolds(cons: seq<Con>, frontier: seq<nat>, reps: seq<nat>, compRoot: seq<nat>,
                                        rootOf: seq<nat>)
    requires Usable(cons, |reps|) && Distinct(frontier) && Elems(frontier) == Mentioned(cons)
    requires frontier == FirstSeen(cons) && Partition(cons, reps) && Numbered(frontier, reps, compRoot, rootOf)
    requires compRoot == RootsSeen(frontier, reps)
    ensures SplitContext(cons, frontier, reps, compRoot, rootOf)
  {
    FirstCells(cons, |reps|);
  }

  // What the loop over the components leaves.
  lemma {:induction false} AllSolved(cons: seq<Con>, v: View, ofs: seq<nat>, compCells: seq<nat>, n: nat,
                                     front: set<nat>, dropped: nat)
    requires Decomposition(Parts(cons), cons) && Laid(Parts(cons), ofs, compCells)
    requires forall x :: x in compCells ==> x < n
    requires SolvedUpto(cons, |Parts(cons)|, v.comps, v.results, v.cons, front, dropped)
    ensures v.Valid() && v.cons == SolvedCons(cons) && front == Mentioned(v.cons) <= Mentioned(cons)
    ensures |front| == |Mentioned(cons)| - dropped
    ensures Slots(v, ofs, compCells, n)
    ensures OwnSlots(v, ofs, compCells, n) <==> DroppedLast(Afforded(Parts(cons)))
  {
    hide Parts, SolvedOk, Afforded, Picked, Mentioned, Decomposition, DroppedCells, DroppedLast, Laid;
    var parts, flags := Parts(cons), Afforded(Parts(cons));
    assert parts[..|parts|] == parts && flags[..|flags|] == flags;
    PickedDecompose(parts, cons, flags);
    RemainingFrontier(parts, cons, flags);
    SlotsAre(cons, v, ofs, compCells, n);
  }

  lemma {:induction false} SlotsAre(cons: seq<Con>, v: View, ofs: seq<nat>, compCells: seq<nat>, n: nat)
    requires Decomposition(Parts(cons), cons) && Laid(Parts(cons), ofs, compCells)
    requires v.comps == Picked(Parts(cons), Afforded(Parts(cons))) && forall x :: x in compCells ==> x < n
    ensures Slots(v, ofs, compCells, n)
    ensures OwnSlots(v, ofs, compCells, n) <==> DroppedLast(Afforded(Parts(cons)))
  {
    hide Parts, Afforded, Mentioned, DroppedLast;
    var parts, flags := Parts(cons), Afforded(Parts(cons));
    forall i: nat | i < |v.comps| ensures ofs[i] + |v.comps[i].cells| <= |compCells| {
      SlotRoom(parts, ofs, compCells, flags, i);
    }
    LinedUp(parts, ofs, compCells, flags);
    forall i: nat | i < |v.comps|
      ensures Written(parts, ofs, compCells, flags, i) == v.comps[i].cells
         <==> forall li: nat :: li < |v.comps[i].cells| ==> compCells[ofs[i] + li] == v.comps[i].cells[li]
    {
      var out := Written(parts, ofs, compCells, flags, i);
      assert forall li: nat :: li < |out| ==> out[li] == compCells[ofs[i] + li];
    }
  }

  lemma {:induction false} SortedBelow(frontier: seq<nat>, rootOf: seq<nat>, ncomps: nat, ofs: seq<nat>,
                                       compCells: seq<nat>, n: nat)
    requires forall k :: 0 <= k < |frontier| ==> frontier[k] < n && frontier[k] < |rootOf|
    requires Sorted(frontier, rootOf, ncomps, ofs, compCells)
    ensures forall x :: x in compCells ==> x < n
  {
    hide Group;
    SortedFrom(frontier, rootOf, ncomps, ofs, compCells, ncomps);
    forall x | x in compCells ensures x < n {
      var p :| 0 <= p < |compCells| && compCells[p] == x;
      assert compCells[p] in frontier;
    }
  }

  lemma {:induction false} SortedFrom(frontier: seq<nat>, rootOf: seq<nat>, ncomps: nat, ofs: seq<nat>,
                                      compCells: seq<nat>, k: nat)
    requires forall j :: 0 <= j < |frontier| ==> frontier[j] < |rootOf|
    requires Sorted(frontier, rootOf, ncomps, ofs, compCells) && k <= ncomps
    ensures ofs[k] <= |compCells| && forall p :: 0 <= p < ofs[k] ==> compCells[p] in frontier
  {
    hide Group;
    if k > 0 {
      SortedFrom(frontier, rootOf, ncomps, ofs, compCells, k - 1);
      var g := Group(frontier, rootOf, k - 1);
      assert RangeIs(ofs, compCells, k - 1, g);
      GroupElems(frontier, rootOf, k - 1);
      forall p | ofs[k - 1] <= p < ofs[k] ensures compCells[p] in frontier {
        assert compCells[p] == g[p - ofs[k - 1]];
        assert g[p - ofs[k - 1]] in g;
      }
    }
  }

  lemma {:induction false} FrontierBelow(cons: seq<Con>, n: nat, frontier: seq<nat>)
    requires Usable(cons, n) && Distinct(frontier) && Elems(frontier) == Mentioned(cons)
    ensures forall i :: 0 <= i < |frontier| ==> frontier[i] < n
    ensures |frontier| == |Mentioned(cons)|
  {
    MentionedBelow(cons, n);
    ElemsCard(frontier);
    forall i | 0 <= i < |frontier| ensures frontier[i] < n {
      assert frontier[i] in Elems(frontier);
      assert frontier[i] in Mentioned(cons);
    }
  }

  lemma {:induction false} NumberedBelow(frontier: seq<nat>, reps: seq<nat>, compRoot: seq<nat>, rootOf: seq<nat>)
    requires Numbered(frontier, reps, compRoot, rootOf)
    ensures forall i :: 0 <= i < |frontier| ==> frontier[i] < |rootOf| && rootOf[frontier[i]] < |compRoot|
  {
    forall i | 0 <= i < |frontier| ensures frontier[i] < |rootOf| && rootOf[frontier[i]] < |compRoot| {
      assert NumberedAt(reps, compRoot, rootOf, frontier[i]);
    }
  }

  method FromView(v: View, n: nat, hidden: array<bool>, inFrontier: array<bool>, freeCount: nat, mines: nat,
                  ofs: seq<nat>, compCells: seq<nat>, ghost g: set<nat>, ghost h: set<nat>) returns (r: Report)
    requires v.Valid() && Slots(v, ofs, compCells, n) && hidden.Length == inFrontier.Length == n
    requires g !! Mentioned(v.cons) && freeCount == |g| && h == g + Mentioned(v.cons)
    requires SameSet(inFrontier, Mentioned(v.cons))
    requires forall x: nat :: x in h <==> x < n && hidden[x]
    ensures r.Fallback? || r.Scenarios?
    ensures r.Fallback? ==> N(h, v.cons, mines) == 0
    ensures OwnSlots(v, ofs, compCells, n) ==> ReportIs(h, v.cons, mines, r)
  {
    hide View.Valid, Mentioned, N, AllExact, Slots, OwnSlots;
    var fallback, pCell, pFree := Probabilities(v, n, freeCount, mines, ofs, compCells, g);
    if fallback {
      return Fallback;
    }
    var pMine := Assemble(hidden, inFrontier, pCell, pFree);
    if OwnSlots(v, ofs, compCells, n) {
      AssembleExact(h, Mentioned(v.cons), v.cons, mines, hidden[..], inFrontier[..], pCell[..], pFree, pMine);
    }
    r := Scenarios(pMine);
  }

  method AnalyzeConstraints(cons: seq<Con>, n: nat, hidden: array<bool>, nHidden: nat, mines: nat, ghost h: set<nat>)
      returns (r: Report)
    requires Usable(cons, n) && hidden.Length == n && nHidden == |h| > 0 && Mentioned(cons) <= h
    requires forall x: nat :: x in h <==> x < n && hidden[x]
    ensures !r.NoHidden?
    ensures r.Fallback? ==> N(h, SolvedCons(cons), mines) == 0
    ensures DroppedLast(Afforded(Parts(cons))) ==> ReportIs(h, SolvedCons(cons), mines, r)
    ensures AllAfforded(cons) ==> ReportIs(h, cons, mines, r)
  {
    hide Usable, N, View.Valid, Slots, OwnSlots, DroppedLast, Parts, SolvedCons, AllAfforded, Afforded, ReportIs,
      Decomposition;
    var inFrontier, nFrontier, v, ofs, compCells := SolveFrontier(cons, n);
    if v.comps == [] {
      NoneUsed(v);
      var p := UniformPath(hidden, inFrontier, nHidden, mines, h);
      r := Scenarios(p);
      UniformReport(h, mines, r);
    } else {
      ghost var g := h - Mentioned(v.cons);
      assert h == g + Mentioned(v.cons);
      DisjointCard(g, Mentioned(v.cons), h);
      r := FromView(v, n, hidden, inFrontier, nHidden - nFrontier, mines, ofs, compCells, g, h);
    }
    if AllAfforded(cons) { AllRemain(h, cons, mines, r); }
  }

  lemma {:induction false} UniformReport(h: set<nat>, mines: nat, r: Report)
    requires r.Scenarios? && (N(h, [], mines) > 0 ==> AllExact(h, [], mines, r.pMine))
    ensures ReportIs(h, [], mines, r)
  {}

  // Without solved components no constraint is left.
  lemma {:induction false} NoneUsed(v: View)
    requires v.Valid() && v.comps == []
    ensures v.cons == [] && Mentioned(v.cons) == {}
  {
    forall c ensures c !in v.cons {
      assert c in v.cons <==> ConInPiece(v.comps, c);
    }
    NoMember(v.cons);
  }

  lemma {:induction false} NoMember(cons: seq<Con>)
    ensures (forall c :: c !in cons) ==> cons == []
  {
    if cons != [] { assert cons[0] in cons; }
  }

  // ---- nothing dropped ----

  lemma {:induction false} SameSat(cons: seq<Con>, used: seq<Con>, extra: seq<Con>, w: World)
    requires forall c :: c in cons <==> c in used
    ensures Sat(cons + extra, w) <==> Sat(used + extra, w)
  {}

  lemma {:induction false} SameReport(h: set<nat>, cons: seq<Con>, used: seq<Con>, mines: nat, r: Report)
    requires forall c :: c in cons <==> c in used
    requires ReportIs(h, used, mines, r)
    ensures ReportIs(h, cons, mines, r)
  {
    hide Sat;
    assert cons + [] == cons && used + [] == used;
    forall w: World ensures Sat(cons, w) <==> Sat(used, w) { SameSat(cons, used, [], w); }
    assert Worlds(h, cons, mines) == Worlds(h, used, mines);
    forall x: nat ensures Worlds(h, cons + [MineAt(x)], mines) == Worlds(h, used + [MineAt(x)], mines) {
      forall w: World ensures Sat(cons + [MineAt(x)], w) <==> Sat(used + [MineAt(x)], w) {
        SameSat(cons, used, [MineAt(x)], w);
      }
    }
  }

  // When every component is solved, all constraints remain.
  lemma {:induction false} AllRemain(h: set<nat>, cons: seq<Con>, mines: nat, r: Report)
    requires AllAfforded(cons) && Decomposition(Parts(cons), cons)
    requires DroppedLast(Afforded(Parts(cons))) ==> ReportIs(h, SolvedCons(cons), mines, r)
    ensures ReportIs(h, cons, mines, r)
  {
    hide Parts, Afforded, ReportIs;
    var parts, flags := Parts(cons), Afforded(Parts(cons));
    KeptAll(flags, |flags|);
    assert Picked(parts, flags) == parts;
    forall c ensures c in cons <==> c in SolvedCons(cons) {
      JoinedMember(parts, c);
    }
    SameReport(h, cons, SolvedCons(cons), mines, r);
  }

  lemma {:induction false} MentionedBelow(cons: seq<Con>, n: nat)
    requires Usable(cons, n)
    ensures forall x: nat :: x in Mentioned(cons) ==> x < n
  {
    forall x: nat | x in Mentioned(cons) ensures x < n {
      var c :| c in cons && x in c.cells;
    }
  }
}
