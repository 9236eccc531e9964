/** The rules as the simulator words them: every loop over a square skips its centre. */
module SimRules {
  import opened Tallies
  import opened Grid
  import opened Boards
  import opened Placement
  import opened Rules

  // The first k offsets of the square, without the centre (offset 4).
  ghost function OthersUpto(d: Dim, r: int, c: int, k: nat): seq<nat>
    requires k <= 9
  {
    if k == 0 then []
    else
      OthersUpto(d, r, c, k - 1)
      + (var rr, cc := r + (k - 1) / 3 - 1, c + (k - 1) % 3 - 1;
         if k - 1 != 4 && d.InB(rr, cc) then [d.Idx(rr, cc)] else [])
  }

  ghost function Others(d: Dim, i: nat): seq<nat>
    requires d.cols > 0
  {
    OthersUpto(d, d.Row(i), d.Col(i), 9)
  }

  // Leaving out the centre lowers a count by one exactly when the centre counts.
  lemma {:induction false} OthersTally(d: Dim, r: int, c: int, k: nat, s: set<nat>)
    requires k <= 9 && d.InB(r, c)
    ensures Tally(d.SquareUpto(r, c, k), s)
         == Tally(OthersUpto(d, r, c, k), s) + (if k > 4 && d.Idx(r, c) in s then 1 else 0)
  {
    if k > 0 {
      OthersTally(d, r, c, k - 1, s);
      OthersTallyStep(d, r, c, k - 1, s);
    }
  }

  lemma {:induction false} OthersTallyStep(d: Dim, r: int, c: int, k: nat, s: set<nat>)
    requires k < 9
    ensures var rr, cc := r + k / 3 - 1, c + k % 3 - 1;
      var more := if d.InB(rr, cc) && d.Idx(rr, cc) in s then 1 else 0;
      && Tally(d.SquareUpto(r, c, k + 1), s) == Tally(d.SquareUpto(r, c, k), s) + more
      && Tally(OthersUpto(d, r, c, k + 1), s) == Tally(OthersUpto(d, r, c, k), s) + (if k == 4 then 0 else more)
  {
    hide Tally;
    var rr, cc := r + k / 3 - 1, c + k % 3 - 1;
    assert d.SquareUpto(r, c, k) + [] == d.SquareUpto(r, c, k);
    assert OthersUpto(d, r, c, k) + [] == OthersUpto(d, r, c, k);
    if d.InB(rr, cc) {
      TallySnoc(d.SquareUpto(r, c, k), d.Idx(rr, cc), s);
      TallySnoc(OthersUpto(d, r, c, k), d.Idx(rr, cc), s);
    }
  }

  lemma {:induction false} AroundTally(d: Dim, i: nat, s: set<nat>)
    requires i < d.Cells()
    ensures d.cols > 0
    ensures Tally(d.Around(i), s) == Tally(Others(d, i), s) + (if i in s then 1 else 0)
  {
    hide Tally, Dim.SquareUpto, OthersUpto, Dim.Cells;
    d.CellCoords(i);
    OthersTally(d, d.Row(i), d.Col(i), 9, s);
  }

  ghost function SimNumbers(d: Dim, mine: seq<bool>): (adj: seq<nat>)
    requires d.cols > 0
    ensures |adj| == d.Cells()
    ensures forall x: nat :: x < d.Cells() ==> adj[x] == Tally(Others(d, x), TrueAt(mine))
  {
    seq(d.Cells(), x requires 0 <= x < d.Cells() => Tally(Others(d, x), TrueAt(mine)))
  }

  ghost function SimFirstClick(b: Board, r: int, c: int): (e: Board)
    requires b.Shaped() && b.dim.InB(r, c)
    ensures e.Shaped() && e.dim == b.dim
  {
    if b.started then b
    else
      var drawn := DrawnFor(b, r, c);
      b.(started := true, mine := drawn.mine, adj := SimNumbers(b.dim, drawn.mine), rng := drawn.rng)
  }

  ghost function SimClick(b: Board, r: int, c: int): Board
    requires b.Shaped()
  {
    if !b.dim.InB(r, c) then b else SimFirstClick(b, r, c).RevealAt(r, c)
  }

  ghost function RevealOthers(b: Board, r: int, c: int, k: nat): (e: Board)
    requires b.Shaped() && k <= 9
    ensures e.Shaped() && e.dim == b.dim
  {
    if k == 0 then b
    else if k - 1 == 4 then RevealOthers(b, r, c, k - 1)
    else RevealOthers(b, r, c, k - 1).RevealAt(r + (k - 1) / 3 - 1, c + (k - 1) % 3 - 1)
  }

  ghost predicate SimChordReady(b: Board, cell: nat)
    requires b.Shaped() && cell < b.Size() && b.dim.cols > 0
  {
    Tally(Others(b.dim, cell), b.Flagged()) == b.adj[cell]
  }

  ghost function SimChord(b: Board, cell: nat): Board
    requires b.Shaped() && cell < b.Size() && b.dim.cols > 0
  {
    if SimChordReady(b, cell) then RevealOthers(b, b.dim.Row(cell), b.dim.Col(cell), 9) else b
  }

  ghost function SimFlag(b: Board, r: int, c: int): Board
    requires b.Shaped()
  {
    if !b.dim.InB(r, c) then b
    else
      b.dim.IdxRange(r, c);
      CycleMark(b, b.dim.Idx(r, c))
  }

  ghost function SimChordAt(b: Board, r: int, c: int): Board
    requires b.Shaped()
  {
    if !b.dim.InB(r, c) then b
    else
      b.dim.IdxRange(r, c);
      SimChord(b, b.dim.Idx(r, c))
  }

  // ---- the simulator's boards are steady too ----

  lemma {:induction false} SimNumbersPlace(d: Dim, mines: nat, mine: seq<bool>)
    requires |mine| == d.Cells() && |TrueAt(mine)| == mines && d.cols > 0
    ensures PlacedOn(d, mines, mine, SimNumbers(d, mine))
  {
    hide Dim.Around, Dim.Cells, TrueAt, Tally, SimNumbers, Others;
    forall x: nat ensures Numbered(d, mine, SimNumbers(d, mine), x) {
      if x < |mine| && !mine[x] { AroundTally(d, x, TrueAt(mine)); }
    }
  }

  lemma {:induction false} SimFirstClickRunning(b: Board, r: int, c: int)
    requires Steady(b) && b.dim.InB(r, c)
    ensures Running(SimFirstClick(b, r, c))
    ensures b.over == SimFirstClick(b, r, c).over
  {
    hide Dim.Around, Dim.Cells, Dim.SquareUpto, PlacedOn, TrueAt, OpenSafe, FlaggedCells, Iterate, Draw, Pool,
      SimNumbers;
    if !b.started {
      PlacesAll(b.dim, b.mines, r, c, b.mine, b.rng);
      var e := SimFirstClick(b, r, c);
      SimNumbersPlace(b.dim, b.mines, e.mine);
      assert forall x: nat :: x < b.Size() ==> x !in TrueAt(b.revealed);
      assert e.SafeOpened() == {};
    }
  }

  lemma {:induction false} SimClickSteady(b: Board, r: int, c: int)
    requires Steady(b)
    ensures Steady(SimClick(b, r, c))
  {
    hide Running, Rules.Fresh, SimFirstClick;
    if b.dim.InB(r, c) {
      SimFirstClickRunning(b, r, c);
      RevealAtRunning(SimFirstClick(b, r, c), r, c);
      RunningSteady(SimFirstClick(b, r, c).RevealAt(r, c));
    }
  }

  lemma {:induction false} RevealOthersRunning(b: Board, r: int, c: int, k: nat)
    requires Running(b) && k <= 9
    ensures Running(RevealOthers(b, r, c, k)) && b.SameGame(RevealOthers(b, r, c, k))
    ensures b.over != 0 ==> RevealOthers(b, r, c, k) == b
  {
    hide Running, Board.Playing, Board.RevealAt;
    RunningPlaying(b);
    if k > 0 {
      RevealOthersRunning(b, r, c, k - 1);
      RevealAtRunning(RevealOthers(b, r, c, k - 1), r + (k - 1) / 3 - 1, c + (k - 1) % 3 - 1);
    }
  }
}
