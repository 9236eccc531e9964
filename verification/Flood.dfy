/** Correctness of the recursive flood reveal, engine by engine. */
module Flood {
  import opened Tallies
  import opened Grid
  import opened Boards

  lemma {:induction false} CardMono(s: set<nat>, t: set<nat>)
    requires s <= t
    ensures |s| <= |t| && (|s| == |t| <==> s == t)
  {
    assert t == s + (t - s);
  }

  ghost function SafeSet(b: Board): set<nat> {
    Upto(b.Size()) - b.MineSet()
  }

  lemma {:induction false} SafeCard(b: Board)
    requires b.Shaped() && b.Placed()
    ensures |SafeSet(b)| == b.Size() - b.mines
  {
    hide Dim.Around, Numbered, Tally, TrueAt, OpenSafe, ClosedCells, FlaggedCells;
    assert Upto(b.Size()) == SafeSet(b) + b.MineSet();
  }

  // The win test compares a counter; it means that every safe cell is open.
  lemma {:induction false} WinTest(b: Board)
    requires b.Shaped() && b.Placed() && b.openedCount == |b.SafeOpened()|
    ensures b.openedCount <= b.Size() - b.mines
    ensures b.openedCount == b.Size() - b.mines <==> b.AllSafeOpen()
  {
    hide Dim.Around, Numbered, Tally, TrueAt, OpenSafe, ClosedCells, FlaggedCells;
    SafeCard(b);
    CardMono(b.SafeOpened(), SafeSet(b));
    if b.AllSafeOpen() {
      assert b.SafeOpened() == SafeSet(b);
    }
    if b.SafeOpened() == SafeSet(b) {
      forall x: nat | x < b.Size() && !b.mine[x] ensures b.revealed[x] {
        assert x in SafeSet(b);
      }
    }
  }

  lemma {:induction false} LostPlaying(b: Board)
    requires b.Playing()
    ensures b.Lost().Playing() && b.SameGame(b.Lost())
  {
    hide Dim.Around, Numbered, Tally, TrueAt, OpenSafe, ClosedCells, FlaggedCells;
    assert b.Lost().SafeOpened() == b.SafeOpened();
    assert b.Lost().Flagged() == b.Flagged();
  }

  // Winning flags the mines that were not flagged yet.
  lemma {:induction false} WonFlags(mine: seq<bool>, mark: seq<nat>, won: seq<nat>)
    requires |mine| == |mark| == |won|
    requires forall x: nat :: x < |mine| ==> won[x] == if mine[x] then 1 else mark[x]
    ensures FlaggedCells(won) == FlaggedCells(mark) + TrueAt(mine)
    ensures |FlaggedCells(won)| == |FlaggedCells(mark)| + |TrueAt(mine) - FlaggedCells(mark)|
  {
    hide TrueAt, FlaggedCells;
    var flagged, mines := FlaggedCells(mark), TrueAt(mine);
    assert FlaggedCells(won) == flagged + mines;
    assert flagged + mines == flagged + (mines - flagged);
  }

  lemma {:induction false} AllFlagged(mine: seq<bool>, mark: seq<nat>)
    requires |mine| == |mark| && forall x: nat :: x < |mine| && mine[x] ==> mark[x] == 1
    ensures EveryMineFlagged(mine, mark)
  {}

  lemma {:induction false} WonCounted(b: Board)
    requires b.Shaped() && b.Counted() && b.over == 0
    ensures b.Won().Shaped() && b.Won().Counted()
  {
    hide Dim.Cells, TrueAt, OpenSafe, FlaggedCells;
    WonFlags(b.mine, b.mark, b.Won().mark);
  }

  lemma {:induction false} WonJudged(b: Board)
    requires b.Shaped() && b.Judged() && b.over == 0 && b.AllSafeOpen()
    ensures b.Won().Shaped() && b.Won().Judged()
  {
    hide Dim.Cells, TrueAt, FlaggedCells, NoMineOpen, EverySafeOpen, EveryMineFlagged, EveryMineOpen;
    AllFlagged(b.mine, b.Won().mark);
  }

  lemma {:induction false} WonPlaying(b: Board)
    requires b.Playing() && (b.over == 0 ==> b.AllSafeOpen())
    ensures b.Won().Playing() && b.SameGame(b.Won())
  {
    hide Dim.Cells, PlacedOn, Board.Counted, Board.Judged, TrueAt, FlaggedCells;
    if b.over == 0 {
      WonCounted(b);
      WonJudged(b);
    }
  }

  // A flood opens exactly its region and counts it.
  lemma {:induction false} FloodedPlaying(b: Board, i: nat)
    requires b.Playing() && b.over == 0 && i in b.Closed() && !b.mine[i]
    ensures b.Flooded(i).Playing() && b.SameGame(b.Flooded(i))
    ensures b.Flooded(i).openedCount > b.openedCount
  {
    hide Dim.Around, Dim.Cells, PlacedOn, TrueAt, OpenSafe, ClosedCells, FlaggedCells, Board.Region;
    RegionSafe(b, i);
    FloodedCount(b, i, b.Region(i));
  }

  lemma {:induction false} FloodedCount(b: Board, i: nat, region: set<nat>)
    requires b.Shaped() && i < b.Size() && region == b.Region(i) && i in region
    requires forall x :: x in region ==> x in b.Closed() && !b.mine[x]
    ensures |b.Flooded(i).SafeOpened()| == |b.SafeOpened()| + |region| && |region| > 0
  {
    hide Dim.Around, Dim.Cells, TrueAt, OpenSafe, ClosedCells, Board.Region;
    assert b.Flooded(i).SafeOpened() == b.SafeOpened() + region;
    assert b.SafeOpened() !! region;
  }

  /** Every reveal keeps the board consistent. */
  lemma {:induction false} RevealPlaying(b: Board, i: nat)
    requires b.Playing() && i < b.Size()
    ensures b.Reveal(i).Playing() && b.SameGame(b.Reveal(i))
    ensures b.over != 0 ==> b.Reveal(i) == b
  {
    hide Dim.Around, Dim.Cells, PlacedOn, TrueAt, OpenSafe, ClosedCells, FlaggedCells, Board.Won, Board.Region,
      Board.Judged, EverySafeOpen;
    if b.revealed[i] || b.mark[i] == 1 {
    } else if b.mine[i] {
      LostPlaying(b);
    } else if b.over == 0 {
      FloodedPlaying(b, i);
      var c := b.Flooded(i);
      WinTest(c);
      if c.openedCount == c.Size() - c.mines { WonPlaying(c); }
    }
  }

  // ---- what the recursion establishes ----

  /** Newly opened cells are reachable from i, and every newly opened 0 (other
      than `except`) has all its unflagged neighbours open. */
  ghost predicate Extends(b: Board, i: nat, c: Board, except: set<nat>) {
    && b.Shaped() && c.Shaped() && b.SameGame(c) && i < b.Size()
    && c.revealed[i]
    && (forall x: nat :: x < b.Size() && b.revealed[x] ==> c.revealed[x])
    && (forall x: nat :: x < b.Size() && c.revealed[x] && !b.revealed[x] ==> b.Reaches(i, x))
    && (forall x: nat, y: nat :: x < b.Size() && c.revealed[x] && !b.revealed[x] && x !in except && b.Spreads(x, y) ==>
         c.revealed[y])
  }

  // Marks and flags are untouched while playing, and the winning ones afterwards.
  ghost predicate MarksFit(b: Board, c: Board)
    requires b.Shaped()
  {
    if c.over == 0 then c.mark == b.mark && c.flags == b.flags
    else c.mark == b.WinMarks() && c.flags == b.flags + |b.MineSet() - b.Flagged()|
  }

  ghost predicate Opens(b: Board, i: nat, c: Board) {
    && Extends(b, i, c, {}) && c.Playing() && MarksFit(b, c)
    && c.over == if c.openedCount == c.Size() - c.mines then 1 else 0
  }

  // The outcome of revealing a safe closed cell, field by field.
  lemma {:induction false} RevealFields(b: Board, i: nat)
    requires b.Shaped() && b.over == 0 && i in b.Closed() && !b.mine[i]
    ensures var c := b.Reveal(i); c.Shaped() && b.SameGame(c) && MarksFit(b, c)
    ensures b.Reveal(i).over == if b.Reveal(i).openedCount == b.Size() - b.mines then 1 else 0
    ensures forall x: nat :: x < b.Size() ==> (b.Reveal(i).revealed[x] <==> b.revealed[x] || x in b.Region(i))
  {
    hide Dim.Cells, TrueAt, ClosedCells, FlaggedCells, Board.Region;
  }

  lemma {:induction false} RevealOpens(b: Board, i: nat)
    requires b.Playing() && b.over == 0 && i in b.Closed() && !b.mine[i]
    ensures Opens(b, i, b.Reveal(i))
  {
    hide Dim.Around, Dim.Cells, PlacedOn, TrueAt, OpenSafe, ClosedCells, FlaggedCells, Board.Judged, Board.Counted,
      Board.Reveal, Board.Reaches, MarksFit;
    var c := b.Reveal(i);
    RegionSafe(b, i);
    RevealPlaying(b, i);
    RevealFields(b, i);
    forall x: nat, y: nat | x < b.Size() && c.revealed[x] && !b.revealed[x] && b.Spreads(x, y)
      ensures c.revealed[y]
    {
      assert x in b.Region(i);
    }
  }

  // What is opened is exactly the region.
  lemma {:induction false} ExtendsRegion(b: Board, i: nat, c: Board)
    requires Extends(b, i, c, {}) && b.Playing() && i in b.Closed()
    ensures forall x: nat :: x < b.Size() ==> (c.revealed[x] <==> b.revealed[x] || x in b.Region(i))
  {
    hide Dim.Around, Numbered, Tally, TrueAt, OpenSafe, ClosedCells, FlaggedCells;
    var s := TrueAt(c.revealed) - TrueAt(b.revealed);
    forall x, y | x in s && b.Spreads(x, y) ensures y in s {}
    forall x: nat | x < b.Size() && x in b.Region(i) ensures c.revealed[x] {
      var way :| b.Way(way) && way[0] == i && way[|way| - 1] == x;
      WayStays(b, way, s);
    }
  }

  /** A board with these properties is the revealed board: nothing else is possible. */
  lemma {:induction false} OpensIsReveal(b: Board, i: nat, c: Board)
    requires b.Playing() && b.over == 0 && i in b.Closed() && !b.mine[i] && Opens(b, i, c)
    ensures c == b.Reveal(i)
  {
    hide Dim.Around, Numbered, Tally, TrueAt, OpenSafe, ClosedCells, FlaggedCells;
    var d := b.Flooded(i);
    ExtendsRegion(b, i, c);
    FloodedPlaying(b, i);
    RevealPlaying(b, i);
    assert c.revealed == d.revealed;
    assert c.SafeOpened() == d.SafeOpened();
    assert d.Flagged() == b.Flagged();
    assert c == b.Reveal(i);
  }

  // ---- one activation of the recursive procedure ----

  // Cell i has just been opened; offsets below k of its 3x3 square have been revealed.
  ghost predicate Progress(b: Board, i: nat, k: nat, c: Board)
    requires k <= 9
  {
    && b.Playing() && b.over == 0 && i in b.Closed() && !b.mine[i]
    && Extends(b, i, c, {i}) && c.Playing() && MarksFit(b, c)
    && 0 <= c.over && (c.over == 1 ==> c.openedCount == c.Size() - c.mines)
    && c.openedCount > b.openedCount
    && b.dim.cols > 0 && (b.adj[i] == 0 ==> SquareOpen(b, b.dim.Row(i), b.dim.Col(i), k, c.revealed))
  }

  // The first k cells of the square around (r, col) that a reveal may open are open.
  ghost predicate SquareOpen(b: Board, r: int, col: int, k: nat, open: seq<bool>)
    requires b.Shaped() && k <= 9
  {
    forall y :: y in b.dim.SquareUpto(r, col, k) && y in b.Closed() ==> y in TrueAt(open)
  }

  ghost function OpenOne(b: Board, i: nat): Board
    requires i < |b.revealed|
  {
    b.(revealed := b.revealed[i := true], openedCount := b.openedCount + 1)
  }

  lemma {:induction false} OpenOneCount(b: Board, i: nat)
    requires b.Shaped() && b.Counted() && i < b.Size() && !b.revealed[i] && !b.mine[i]
    ensures OpenOne(b, i).Shaped() && OpenOne(b, i).Counted()
  {
    hide Dim.Cells, OpenSafe, FlaggedCells;
    assert OpenOne(b, i).SafeOpened() == b.SafeOpened() + {i};
  }

  lemma {:induction false} OpenOnePlaying(b: Board, i: nat)
    requires b.Playing() && b.over == 0 && i < b.Size() && !b.revealed[i] && !b.mine[i]
    ensures OpenOne(b, i).Playing() && b.SameGame(OpenOne(b, i))
  {
    hide Dim.Cells, PlacedOn, OpenSafe, FlaggedCells;
    OpenOneCount(b, i);
  }

  lemma {:induction false} ProgressStart(b: Board, i: nat)
    requires b.Playing() && b.over == 0 && i in b.Closed() && !b.mine[i]
    ensures b.dim.cols > 0
    ensures Progress(b, i, 0, OpenOne(b, i))
  {
    hide Dim.Around, Dim.Cells, Dim.Row, Dim.Col, PlacedOn, OpenSafe, ClosedCells, Board.Counted, Board.Judged,
      Board.Reaches;
    b.dim.CellCoords(i);
    OpenOnePlaying(b, i);
    ReachesSelf(b, i);
  }

  lemma {:induction false} ProgressGrows(b: Board, i: nat, k: nat, c: Board)
    requires k <= 9 && Progress(b, i, k, c)
    ensures c.Playing() && b.SameGame(c) && b.openedCount < c.openedCount <= c.Size()
  {
    hide Dim.Around, Dim.Cells, PlacedOn, TrueAt, OpenSafe, Board.Judged, MarksFit;
    WinTest(c);
  }

  // Revealing one neighbour j of a 0.
  lemma {:induction false} ProgressReveal(b: Board, i: nat, k: nat, c: Board, j: nat)
    requires k <= 9 && Progress(b, i, k, c) && b.adj[i] == 0 && j in b.dim.Around(i)
    ensures j < b.Size() && c.openedCount <= c.Reveal(j).openedCount
    ensures Progress(b, i, k, c.Reveal(j))
    ensures j in b.Closed() ==> c.Reveal(j).revealed[j]
  {
    hide Dim.Around, Dim.Cells, Dim.Row, Dim.Col, Dim.SquareUpto, PlacedOn, TrueAt, OpenSafe, ClosedCells,
      FlaggedCells, Board.Counted, Board.Flooded;
    ZeroIsSafe(b, i, j);
    if c.over == 1 {
      RevealPlaying(c, j);
    } else if j in c.Closed() {
      assert j in b.Closed();
      ReachesSelf(b, i);
      ReachesStep(b, i, i, j);
      RevealOpens(c, j);
      FloodedPlaying(c, j);
      ExtendsTwice(b, i, c, j, c.Reveal(j));
      assert c.WinMarks() == b.WinMarks() && c.Flagged() == b.Flagged();
    }
  }

  lemma {:induction false} ExtendsTwice(b: Board, i: nat, c: Board, j: nat, d: Board)
    requires Extends(b, i, c, {i}) && Extends(c, j, d, {}) && b.Reaches(i, j)
    requires c.mark == b.mark
    ensures Extends(b, i, d, {i})
  {
    hide Dim.Around, Numbered, Tally, TrueAt, OpenSafe, ClosedCells, FlaggedCells;
    assert c.Closed() <= b.Closed();
    forall x: nat | x < b.Size() && d.revealed[x] && !b.revealed[x] ensures b.Reaches(i, x) {
      if !c.revealed[x] {
        var way :| c.Way(way) && way[0] == j && way[|way| - 1] == x;
        WayLifts(b, c, i, way);
      }
    }
    forall x: nat, y: nat | x < b.Size() && d.revealed[x] && !b.revealed[x] && x != i && b.Spreads(x, y)
      ensures d.revealed[y]
    {
      if !c.revealed[x] && !c.revealed[y] {
        assert c.Spreads(x, y);
      }
    }
  }

  // The square grows by the cell at offset k.
  lemma {:induction false} SquareOpenStep(b: Board, r: int, col: int, dr: int, dc: int, open: seq<bool>)
    requires b.Shaped() && -1 <= dr <= 1 && -1 <= dc <= 1
    requires SquareOpen(b, r, col, 3 * (dr + 1) + (dc + 1), open)
    requires b.dim.InB(r + dr, col + dc) ==>
               var j := b.dim.Idx(r + dr, col + dc); j in b.Closed() ==> j in TrueAt(open)
    ensures SquareOpen(b, r, col, 3 * (dr + 1) + (dc + 1) + 1, open)
  {
    hide Board.Shaped, Board.Closed, TrueAt, Dim.SquareUpto;
    OffsetStep(b.dim, r, col, dr, dc);
  }

  // The cell at offset (dr, dc) of a cell's square is around it.
  lemma {:induction false} OffsetAround(dim: Dim, i: nat, dr: int, dc: int)
    requires i < dim.Cells() && dim.cols > 0 && -1 <= dr <= 1 && -1 <= dc <= 1
    requires dim.InB(dim.Row(i) + dr, dim.Col(i) + dc)
    ensures var j := dim.Idx(dim.Row(i) + dr, dim.Col(i) + dc); j < dim.Cells() && j in dim.Around(i)
  {
    hide Dim.SquareUpto, Dim.Cells;
    var r, c := dim.Row(i), dim.Col(i);
    var k := 3 * (dr + 1) + (dc + 1);
    dim.IdxRange(r + dr, c + dc);
    var j := dim.Idx(r + dr, c + dc);
    dim.SquareMember(r, c, 9, j);
    assert dim.OffsetIs(r, c, k, j) by { assert k / 3 - 1 == dr && k % 3 - 1 == dc; }
  }

  // The loop over the neighbours moves on by one offset.
  lemma {:induction false} ProgressStep(b: Board, i: nat, dr: int, dc: int, c: Board, d: Board)
    requires -1 <= dr <= 1 && -1 <= dc <= 1
    requires Progress(b, i, 3 * (dr + 1) + (dc + 1), c) && b.adj[i] == 0
    requires d == c.RevealAt(b.dim.Row(i) + dr, b.dim.Col(i) + dc)
    ensures Progress(b, i, 3 * (dr + 1) + (dc + 1) + 1, d) && c.openedCount <= d.openedCount
  {
    hide Dim.Around, Dim.Cells, Dim.Row, Dim.Col, Dim.InB, Dim.Idx, PlacedOn, TrueAt, ClosedCells, Board.Counted,
      Board.Judged, MarksFit, Board.Reaches, Board.Spreads, SquareOpen, Board.Reveal;
    var r, col := b.dim.Row(i), b.dim.Col(i);
    var k := 3 * (dr + 1) + (dc + 1);
    if b.dim.InB(r + dr, col + dc) {
      OffsetAround(b.dim, i, dr, dc);
      ProgressReveal(b, i, k, c, b.dim.Idx(r + dr, col + dc));
    }
    SquareOpenStep(b, r, col, dr, dc, d.revealed);
  }

  // The centre is already open, so skipping it changes nothing.
  lemma {:induction false} CentreOpen(b: Board, i: nat, k: nat, c: Board)
    requires k <= 9 && Progress(b, i, k, c)
    ensures b.dim.cols > 0 && c.RevealAt(b.dim.Row(i), b.dim.Col(i)) == c
  {
    hide Dim.Around, Numbered, Tally, TrueAt, OpenSafe, ClosedCells, FlaggedCells;
    b.dim.CellCoords(i);
    b.dim.IdxRange(b.dim.Row(i), b.dim.Col(i));
  }

  // After all nine offsets, the opened cell itself has its neighbours open.
  lemma {:induction false} SquareDone(b: Board, i: nat, c: Board)
    requires Progress(b, i, 9, c) && b.adj[i] == 0
    ensures Extends(b, i, c, {})
  {
    hide Dim.Cells, Dim.SquareUpto, Dim.Row, Dim.Col, PlacedOn, TrueAt, ClosedCells, Board.Counted, Board.Judged,
      MarksFit, Board.Reaches;
    forall y: nat | b.Spreads(i, y) ensures c.revealed[y] {
      assert y in b.dim.SquareUpto(b.dim.Row(i), b.dim.Col(i), 9);
    }
  }

  lemma {:induction false} NumberDone(b: Board, i: nat, c: Board)
    requires Extends(b, i, c, {i}) && b.adj[i] != 0
    ensures Extends(b, i, c, {})
  {
    hide Dim.Around, Dim.Cells, PlacedOn, TrueAt, ClosedCells, Board.Reaches;
  }

  ghost function Finish(c: Board): Board
    requires c.Shaped()
  {
    if c.openedCount == c.Size() - c.mines then c.Won() else c
  }

  lemma {:induction false} FinishPlaying(c: Board)
    requires c.Playing() && 0 <= c.over && (c.over == 1 ==> c.openedCount == c.Size() - c.mines)
    ensures var d := Finish(c); d.Playing() && c.SameGame(d) && d.revealed == c.revealed
    ensures Finish(c).over == if Finish(c).openedCount == c.Size() - c.mines then 1 else 0
    ensures c.over == 1 ==> Finish(c) == c
  {
    hide Dim.Around, Dim.Cells, PlacedOn, TrueAt, OpenSafe, ClosedCells, FlaggedCells, EverySafeOpen, NoMineOpen,
      EveryMineOpen, EveryMineFlagged;
    WinTest(c);
    if c.openedCount == c.Size() - c.mines { WonPlaying(c); }
  }

  // The win test at the end of an activation.
  lemma {:induction false} FinishOpens(b: Board, i: nat, c: Board)
    requires b.Shaped() && Extends(b, i, c, {}) && c.Playing() && MarksFit(b, c) && 0 <= c.over
    requires c.over == 1 ==> c.openedCount == c.Size() - c.mines
    ensures Opens(b, i, Finish(c))
  {
    hide Dim.Around, Dim.Cells, TrueAt, ClosedCells, FlaggedCells, Board.Reaches, Board.Spreads, Board.Placed,
      Board.Counted, Board.Judged;
    FinishPlaying(c);
    if c.over == 0 { assert c.WinMarks() == b.WinMarks(); }
  }

  // After the loop (or without it, for a number) the win test finishes the reveal.
  lemma {:induction false} ProgressDone(b: Board, i: nat, k: nat, c: Board)
    requires k <= 9 && Progress(b, i, k, c) && (b.adj[i] == 0 ==> k == 9)
    ensures Finish(c) == b.Reveal(i)
  {
    hide Extends, MarksFit, Board.Placed, Board.Counted, Board.Judged, Board.Reveal, Finish;
    if b.adj[i] == 0 { SquareDone(b, i, c); } else { NumberDone(b, i, c); }
    FinishOpens(b, i, c);
    OpensIsReveal(b, i, Finish(c));
  }
}
