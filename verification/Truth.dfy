/** What the analyzer's numbers say about the real board, and about each other. */
module Truth {
  import opened Tallies
  import opened Grid
  import opened Placements
  import opened Posterior
  import opened FreeCells
  import opened Search
  import opened ComponentSolver
  import opened RecursiveSolver
  import opened Constraints
  import opened Analyze
  import opened Boards
  import opened Rules
  import opened Deduce

  // ---- the two component solvers ----

  /** The counts of the explicit-stack search and of the recursive reference are the same numbers,
      whatever order either of them assigns the cells in. */
  lemma {:induction false} SolversAgree(cells: seq<nat>, cons: seq<Con>, s: seq<nat>, t: seq<nat>, s': map<nat, nat>,
                                        t': seq<map<nat, nat>>)
    requires Distinct(cells) && Exact(cells, cons, s, t)
    requires |t'| == |cells| && forall k: nat :: Get(s', k) == N(Elems(cells), cons, k)
    requires forall li: nat, k: nat :: li < |cells| ==> Get(t'[li], k) == N(Elems(cells), cons + [MineAt(cells[li])], k)
    ensures forall k: nat :: Get(s', k) == if k < |s| then s[k] else 0
    ensures forall li: nat, k: nat :: li < |cells| ==>
              Get(t'[li], k) == if k < |s| && At(|cells|, li, k) < |t| then t[At(|cells|, li, k)] else 0
  {
    hide N;
    ElemsCard(cells);
    forall k: nat ensures Get(s', k) == if k < |s| then s[k] else 0 {
      if k >= |s| { NOutside(Elems(cells), cons, k); }
    }
    forall li: nat, k: nat | li < |cells|
      ensures Get(t'[li], k) == if k < |s| && At(|cells|, li, k) < |t| then t[At(|cells|, li, k)] else 0
    {
      if k >= |s| { NOutside(Elems(cells), cons + [MineAt(cells[li])], k); }
    }
  }

  // The entries of T for one total, added up over the cells from li on.
  ghost function ColumnSum(cells: seq<nat>, t: seq<nat>, k: nat, li: nat): nat
    requires li <= |cells| && forall lj: nat :: lj < |cells| ==> At(|cells|, lj, k) < |t|
    decreases |cells| - li
  {
    if li == |cells| then 0 else t[At(|cells|, li, k)] + ColumnSum(cells, t, k, li + 1)
  }

  lemma {:induction false} ColumnIsMass(cells: seq<nat>, cons: seq<Con>, s: seq<nat>, t: seq<nat>, k: nat, li: nat)
    requires Exact(cells, cons, s, t) && k <= |cells| && li <= |cells|
    ensures forall lj: nat :: lj < |cells| ==> At(|cells|, lj, k) < |t|
    ensures ColumnSum(cells, t, k, li) == Mass(cells[li..], Worlds(Elems(cells), cons, k))
    decreases |cells| - li
  {
    hide N, Holding, At;
    if li < |cells| {
      ColumnIsMass(cells, cons, s, t, k, li + 1);
      HoldingIs(Elems(cells), cons, k, cells[li]);
      assert cells[li..][0] == cells[li] && cells[li..][1..] == cells[li + 1..];
    }
  }

  /** The tables balance: over all cells, T adds up to t times S[t] for every total t. */
  lemma {:induction false} TablesBalance(cells: seq<nat>, cons: seq<Con>, s: seq<nat>, t: seq<nat>, k: nat)
    requires Distinct(cells) && Exact(cells, cons, s, t) && k <= |cells|
    ensures forall lj: nat :: lj < |cells| ==> At(|cells|, lj, k) < |t|
    ensures ColumnSum(cells, t, k, 0) == k * s[k]
  {
    hide Mass, ColumnSum, At, Sat;
    var worlds := Worlds(Elems(cells), cons, k);
    ColumnIsMass(cells, cons, s, t, k, 0);
    assert cells[0..] == cells;
    forall w | w in worlds ensures Tally(cells, w) == k { TallyCard(cells, w); }
    MassTotal(cells, worlds, k);
  }

  // ---- the report ----

  /** The reported probabilities lie between 0 and 1 and add up to exactly the number of mines. */
  lemma {:induction false} ReportBalances(h: set<nat>, cons: seq<Con>, mines: nat, p: seq<real>, xs: seq<nat>)
    requires N(h, cons, mines) > 0 && AllExact(h, cons, mines, p)
    requires Distinct(xs) && Elems(xs) == h
    ensures forall x: nat :: x in h ==> x < |p| && 0.0 <= p[x] <= 1.0
    ensures forall i :: 0 <= i < |xs| ==> xs[i] < |p|
    ensures TotalChance(xs, p) == mines as real
  {
    hide N, Chance, TotalChance;
    forall x: nat | x in h ensures x < |p| && 0.0 <= p[x] <= 1.0 { ChanceRange(h, cons, mines, x); }
    forall i | 0 <= i < |xs| ensures xs[i] < |p| && p[xs[i]] == Chance(h, cons, mines, xs[i]) {
      assert xs[i] in Elems(xs);
    }
    MassConserved(xs, p, h, cons, mines);
  }

  /** The report agrees with the deduction pass: a cell deduced safe is reported with probability 0 and a deduced mine
      with probability 1. */
  lemma {:induction false} DeducedReported(h: set<nat>, cons: seq<Con>, mines: nat, p: seq<real>, safes: set<nat>,
                                           full: set<nat>, x: nat)
    requires N(h, cons, mines) > 0 && AllExact(h, cons, mines, p) && Forced(cons, safes, full) && x in h
    ensures x < |p| && (x in safes ==> p[x] == 0.0) && (x in full ==> p[x] == 1.0)
  {
    hide N, Chance, Forced;
    DeducedChance(h, cons, mines, safes, full, x);
  }

  // ---- the real placement ----

  // What the analyzer is given to see of a board.
  ghost function Shown(b: Board): (v: Snapshot)
    requires b.Shaped()
    ensures v.Shaped()
  {
    Snapshot.Snapshot(b.dim, b.mines, b.revealed, b.mine, b.mark, b.adj)
  }

  // Mines on cells that are neither open nor flagged.
  ghost function HiddenMines(b: Board): set<nat>
    requires b.Shaped()
  {
    b.MineSet() * Shown(b).HiddenSet()
  }

  // A mine is either flagged or hidden while the game runs.
  lemma {:induction false} MinesSplit(b: Board)
    requires Running(b) && b.over == 0
    ensures b.MineSet() == (b.MineSet() * Shown(b).FlagSet()) + HiddenMines(b)
    ensures Shown(b).FlagSet() !! HiddenMines(b)
  {
    hide Dim.Around, Dim.Cells, PlacedOn, TrueAt, Board.Counted, Snapshot.HiddenUpto, Snapshot.FlagsUpto;
    var v := Shown(b);
    forall x | x in b.MineSet() ensures x in v.FlagSet() || x in v.HiddenSet() {
      assert !b.revealed[x];
    }
  }

  // Flags that stand on safe cells.
  ghost function WrongFlags(b: Board): set<nat>
    requires b.Shaped()
  {
    Shown(b).FlagSet() - b.MineSet()
  }

  // Cell i shows a number whose constraint the analyzer keeps.
  ghost predicate KeptAt(b: Board, i: nat)
    requires b.Shaped()
  {
    i < b.dim.Cells() && Shown(b).ConAt(i, Shown(b).HiddenSet(), Shown(b).FlagSet()) != []
  }

  // No flag of this set lies beside a number whose constraint is kept.
  ghost predicate AwayFromKept(b: Board, flags: set<nat>)
    requires b.Shaped()
  {
    forall i: nat :: KeptAt(b, i) ==> Elems(b.dim.Around(i)) !! flags
  }

  // The flags around a number count the mines among them and the wrong ones.
  lemma {:induction false} NumberBalance(b: Board, around: seq<nat>)
    requires Running(b) && b.over == 0
    ensures Tally(around, b.MineSet()) - Tally(around, Shown(b).FlagSet())
         == Tally(around, HiddenMines(b)) - Tally(around, WrongFlags(b))
  {
    hide Dim.Around, Dim.Cells, TrueAt, Board.Counted, Board.Judged, Snapshot.HiddenSet, Snapshot.FlagSet, Tally;
    var flags := Shown(b).FlagSet();
    var right, wrong := b.MineSet() * flags, WrongFlags(b);
    MinesSplit(b);
    hide HiddenMines, Running, Board.MineSet;
    assert flags == right + wrong;
    TallyUnion(around, right, wrong);
    TallyUnion(around, right, HiddenMines(b));
  }

  // The hidden mines satisfy a number exactly when no flag beside it is wrong.
  lemma {:induction false} NumberHolds(b: Board, i: nat, con: Con)
    requires Running(b) && b.over == 0
    requires i < b.dim.Cells() && con in Shown(b).ConAt(i, Shown(b).HiddenSet(), Shown(b).FlagSet())
    ensures Tally(con.cells, HiddenMines(b)) == con.need <==> Elems(b.dim.Around(i)) !! WrongFlags(b)
  {
    hide Dim.Around, Dim.Cells, TrueAt, Board.Counted, Board.Judged, Snapshot.HiddenSet, Snapshot.FlagSet, Tally,
      Keep, WrongFlags;
    var around := b.dim.Around(i);
    assert Numbered(b.dim, b.mine, b.adj, i);
    NumberBalance(b, around);
    KeepTally(around, Shown(b).HiddenSet(), HiddenMines(b));
    NoneAround(around, WrongFlags(b));
  }

  lemma {:induction false} NoneAround(xs: seq<nat>, s: set<nat>)
    ensures Tally(xs, s) == 0 <==> Elems(xs) !! s
  {
    hide Tally;
    if Tally(xs, s) == 0 {
      TallyZeroConverse(xs, s);
    } else {
      if Elems(xs) !! s {
        assert forall x :: x in xs ==> x in Elems(xs);
        TallyZero(xs, s);
      }
    }
  }

  /** The real placement satisfies every constraint of the analyzer exactly when no wrong flag lies beside a number
      whose constraint is kept. */
  lemma {:induction false} TruthSatisfies(b: Board)
    requires Running(b) && b.over == 0
    ensures Sat(Shown(b).Kept(), HiddenMines(b)) <==> AwayFromKept(b, WrongFlags(b))
  {
    hide Running, Snapshot.ConAt, HiddenMines, Snapshot.HiddenSet, Snapshot.FlagSet, Snapshot.KeptUpto, Tally,
      WrongFlags, Dim.Cells, Dim.Around;
    RunningSteady(b);
    SteadyShaped(b);
    var v := Shown(b);
    var open, flags := v.HiddenSet(), v.FlagSet();
    if AwayFromKept(b, WrongFlags(b)) {
      forall con | con in v.Kept() ensures Tally(con.cells, HiddenMines(b)) == con.need {
        v.KeptMember(b.dim.Cells(), open, flags, con);
        var i: nat :| i < b.dim.Cells() && con in v.ConAt(i, open, flags);
        assert KeptAt(b, i);
        NumberHolds(b, i, con);
      }
    }
    if Sat(v.Kept(), HiddenMines(b)) {
      forall i: nat | KeptAt(b, i) ensures Elems(b.dim.Around(i)) !! WrongFlags(b) {
        var con := v.ConAt(i, open, flags)[0];
        assert con in v.ConAt(i, open, flags);
        v.KeptMember(b.dim.Cells(), open, flags, con);
        assert con in v.Kept();
        NumberHolds(b, i, con);
      }
    }
  }

  lemma {:induction false} MineCount(b: Board)
    requires Running(b)
    ensures |b.MineSet()| == b.mines
  {
    hide Dim.Around, Dim.Cells;
  }

  /** The analyzer asks for exactly `mines` mines among the hidden, unflagged cells. The real placement is among the
      assignments it counts exactly when no flag stands on a mine and none lies beside a number whose constraint is
      kept. */
  lemma {:induction false} TruthCounted(b: Board)
    requires Running(b) && b.over == 0
    ensures HiddenMines(b) in Worlds(Shown(b).HiddenSet(), Shown(b).Kept(), b.mines) <==>
        Shown(b).FlagSet() !! b.MineSet() && AwayFromKept(b, Shown(b).FlagSet())
  {
    hide Running, Sat, Worlds, Snapshot.HiddenSet, Snapshot.FlagSet, Snapshot.Kept, Board.MineSet, AwayFromKept,
      HiddenMines, WrongFlags;
    RunningSteady(b);
    SteadyShaped(b);
    TruthSatisfies(b);
    HiddenCount(b);
    InWorlds(Shown(b).HiddenSet(), Shown(b).Kept(), b.mines, HiddenMines(b));
  }

  lemma {:induction false} InWorlds(u: set<nat>, cons: seq<Con>, k: int, w: World)
    ensures w in Worlds(u, cons, k) <==> w <= u && Sat(cons, w) && |w| == k
  {}

  // No mine is flagged exactly when all of them are hidden; then every flag is wrong.
  lemma {:induction false} HiddenCount(b: Board)
    requires Running(b) && b.over == 0 && b.Shaped()
    ensures HiddenMines(b) <= Shown(b).HiddenSet()
    ensures |HiddenMines(b)| == b.mines <==> Shown(b).FlagSet() !! b.MineSet()
    ensures Shown(b).FlagSet() !! b.MineSet() ==> WrongFlags(b) == Shown(b).FlagSet()
  {
    hide Running, Snapshot.HiddenSet, Snapshot.FlagSet, Board.MineSet;
    var flags := Shown(b).FlagSet();
    var right := b.MineSet() * flags;
    MinesSplit(b);
    MineCount(b);
    DisjointCard(right, HiddenMines(b), b.MineSet());
    if !(flags !! b.MineSet()) {
      var x :| x in right;
      assert |right| > 0;
    }
  }

  /** It can fail: after a first click, flag one of the mines. */
  lemma {:induction false} FlaggedMineMissed(dim: Dim, mines: nat, marksEnabled: bool, diff: nat, rng: bv64, r: int,
                                             c: int) returns (b: Board)
    requires 0 < mines < dim.Cells() && dim.InB(r, c)
    ensures Running(b) && b.over == 0 && b.dim == dim && b.mines == mines
    ensures HiddenMines(b) !in Worlds(Shown(b).HiddenSet(), Shown(b).Kept(), b.mines)
  {
    hide Running, Dim.Cells, Worlds, HiddenMines, FirstClick, CycleMark, AwayFromKept, Snapshot.HiddenSet,
      Snapshot.Kept;
    BlankSteady(dim, mines, marksEnabled, diff, rng);
    var blank := Blank(dim, mines, marksEnabled, diff, rng);
    FirstClickRunning(blank, r, c);
    var played := FirstClick(blank, r, c);
    RunningSteady(played);
    MineCount(played);
    var x :| x in played.MineSet();
    b := CycleMark(played, x);
    CycleMarkSteady(played, x);
    CycleMarkIs(played, x);
    StillRunning(b);
    TruthCounted(b);
    assert x in Shown(b).FlagSet() && x in b.MineSet();
  }

  lemma {:induction false} StillRunning(b: Board)
    requires Steady(b) && b.started
    ensures Running(b)
  {}

  /** With every flag on a mine that means: exactly when no cell is flagged. */
  lemma {:induction false} RightFlagsCounted(b: Board)
    requires Running(b) && b.over == 0 && Shown(b).FlagSet() <= b.MineSet()
    ensures HiddenMines(b) in Worlds(Shown(b).HiddenSet(), Shown(b).Kept(), b.mines) <==> Shown(b).FlagSet() == {}
  {
    hide Running, Sat, Snapshot.HiddenSet, Snapshot.FlagSet, Snapshot.Kept, Board.MineSet, KeptAt;
    TruthCounted(b);
  }

  /** So on a running board without flags the report is never a fallback, and what it states for a
      hidden cell is the fraction of the placements that fit everything visible. */
  lemma {:induction false} NoFlagsConsistent(b: Board)
    requires Running(b) && b.over == 0 && Shown(b).FlagSet() == {}
    ensures N(Shown(b).HiddenSet(), Shown(b).Kept(), b.mines) > 0
  {
    hide Running, Sat, Snapshot.HiddenSet, Snapshot.FlagSet, Snapshot.Kept, Board.MineSet;
    RightFlagsCounted(b);
    assert HiddenMines(b) in Worlds(Shown(b).HiddenSet(), Shown(b).Kept(), b.mines);
  }

  // ---- what the report says about the visible board ----

  ghost predicate NoFlags(b: Board) {
    forall x: nat :: x < |b.mark| ==> b.mark[x] != 1
  }

  // Mines on exactly the cells of w would look like this board: the right number of them, none on an open cell, and
  // every open cell shows how many of them lie around it.
  ghost predicate Explains(b: Board, w: World)
    requires b.Shaped()
  {
    && |w| == b.mines
    && (forall x: nat :: x in w ==> x < b.Size() && !b.revealed[x])
    && (forall i: nat :: i < b.Size() && b.revealed[i] ==> Tally(b.dim.Around(i), w) == b.adj[i])
  }

  lemma {:induction false} NoFlagsShown(b: Board)
    requires b.Shaped() && NoFlags(b)
    ensures Shown(b).FlagSet() == {}
    ensures forall x: nat :: x in Shown(b).HiddenSet() <==> x < b.Size() && !b.revealed[x]
  {
    hide Snapshot.HiddenUpto, Snapshot.FlagsUpto, Dim.Cells;
  }

  lemma {:induction false} OpenIsNumbered(b: Board, i: nat)
    requires Running(b) && b.over == 0 && i < b.Size() && b.revealed[i]
    ensures i < b.dim.Cells() && !b.mine[i] && b.adj[i] == Tally(b.dim.Around(i), b.MineSet())
    ensures forall x: nat :: x in b.MineSet() ==> x < b.Size() && !b.revealed[x]
  {
    hide Dim.Around, Dim.Cells, Tally, Board.Counted;
    assert Numbered(b.dim, b.mine, b.adj, i);
  }

  ghost predicate SpeaksOn(b: Board, i: nat)
    requires b.Shaped() && i < b.dim.Cells()
  {
    Shown(b).Speaks(i, Shown(b).HiddenSet(), Shown(b).FlagSet())
  }

  // An open number that need not be heeded says nothing that is not so anyway.
  lemma {:induction false} OpenNumber(b: Board, i: nat, w: World)
    requires Running(b) && b.over == 0 && NoFlags(b) && b.Shaped()
    requires i < b.Size() && b.revealed[i] && w <= Shown(b).HiddenSet()
    ensures Tally(b.dim.Around(i), w) == b.adj[i] <==>
              (SpeaksOn(b, i) ==> Tally(b.dim.Around(i), w + Shown(b).FlagSet()) == b.adj[i])
  {
    hide Running, Dim.Around, Dim.Cells, Tally, Snapshot.HiddenSet, Snapshot.FlagSet, Board.MineSet;
    var around, open := b.dim.Around(i), Shown(b).HiddenSet();
    NoFlagsShown(b);
    OpenIsNumbered(b, i);
    assert w + Shown(b).FlagSet() == w;
    TallyMono(around, b.MineSet(), open);
    TallyZero(around, {});
    if forall x :: x in around ==> x !in open {
      TallyZero(around, open);
      TallyMono(around, w, open);
    }
  }

  /** On a running board without flags, the analyzer counts exactly the mine placements that explain everything visible:
      no number is left out. */
  lemma {:induction false} CountsExplanations(b: Board, w: World)
    requires Running(b) && b.over == 0 && NoFlags(b)
    ensures w in Worlds(Shown(b).HiddenSet(), Shown(b).Kept(), b.mines) <==> Explains(b, w)
  {
    hide Running, Dim.Around, Dim.Cells, Tally, Snapshot.HiddenSet, Snapshot.FlagSet, Snapshot.Kept, Snapshot.Speaks,
      Sat, Worlds;
    RunningSteady(b);
    SteadyShaped(b);
    var v := Shown(b);
    NoFlagsShown(b);
    InWorlds(v.HiddenSet(), v.Kept(), b.mines, w);
    if w <= v.HiddenSet() {
      v.KeptComplete(w);
      OnlyOpenSpeak(b);
      forall i: nat | i < b.Size() && b.revealed[i]
        ensures Tally(b.dim.Around(i), w) == b.adj[i] <==>
                  (SpeaksOn(b, i) ==> Tally(b.dim.Around(i), w + v.FlagSet()) == b.adj[i])
      {
        OpenNumber(b, i, w);
      }
    }
  }

  lemma {:induction false} OnlyOpenSpeak(b: Board)
    requires b.Shaped()
    ensures b.Size() == b.dim.Cells()
    ensures forall i: nat :: i < b.dim.Cells() && SpeaksOn(b, i) ==> b.revealed[i]
  {
    hide Dim.Around, Dim.Cells, Tally;
  }

  ghost function Explanations(b: Board): (s: set<World>)
    requires b.Shaped()
  {
    set w: World | w <= Upto(b.Size()) && Explains(b, w)
  }

  lemma {:induction false} WorldsExplained(b: Board)
    requires Running(b) && b.over == 0 && NoFlags(b) && b.Shaped()
    ensures Worlds(Shown(b).HiddenSet(), Shown(b).Kept(), b.mines) == Explanations(b)
  {
    hide Running, Snapshot.HiddenSet, Snapshot.FlagSet, Snapshot.Kept, Sat, Worlds, Explains, Upto;
    forall w: World
      ensures w in Worlds(Shown(b).HiddenSet(), Shown(b).Kept(), b.mines) <==> w in Explanations(b)
    {
      CountsExplanations(b, w);
      ExplainsBelow(b, w);
    }
  }

  lemma {:induction false} TruthExplains(b: Board)
    requires Running(b) && b.over == 0 && NoFlags(b) && b.Shaped()
    ensures b.MineSet() in Explanations(b)
  {
    hide Running, Snapshot.HiddenSet, Snapshot.FlagSet, Snapshot.Kept, Sat, Worlds, Explanations, Board.MineSet;
    WorldsExplained(b);
    NoFlagsShown(b);
    RightFlagsCounted(b);
    MinesHidden(b);
  }

  /** So with every component within the budget the report is fair: a closed cell is reported with the share of the
      placements explaining the visible board that mine it, and the real placement is one of those. */
  lemma {:induction false} ReportFair(b: Board, r: Report, x: nat)
    requires Running(b) && b.over == 0 && NoFlags(b) && x < b.Size() && !b.revealed[x] && b.Shaped()
    requires ReportIs(Shown(b).HiddenSet(), Shown(b).Kept(), b.mines, r)
    ensures b.MineSet() in Explanations(b) && !r.Fallback?
    ensures r.Scenarios? ==>
              (x < |r.pMine| &&
               r.pMine[x] == |Holding(Explanations(b), x)| as real / |Explanations(b)| as real)
  {
    hide Running, Snapshot.HiddenSet, Snapshot.FlagSet, Snapshot.Kept, Sat, Worlds, Holding, Explanations,
      Board.MineSet, Dim.Cells;
    WorldsExplained(b);
    TruthExplains(b);
    NoFlagsShown(b);
    HoldingIs(Shown(b).HiddenSet(), Shown(b).Kept(), b.mines, x);
  }

  lemma {:induction false} ExplainsBelow(b: Board, w: World)
    requires b.Shaped()
    ensures Explains(b, w) ==> w <= Upto(b.Size())
  {
    hide Upto;
  }

  lemma {:induction false} MinesHidden(b: Board)
    requires Running(b) && b.over == 0 && NoFlags(b)
    ensures HiddenMines(b) == b.MineSet()
  {
    hide Snapshot.HiddenSet, Snapshot.FlagSet;
    RunningSteady(b);
    NoFlagsShown(b);
    MinesSplit(b);
  }
}
