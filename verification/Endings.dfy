/** How a game ends: exactly when an action wins or loses, and what the board and the pointer are then. */
module Endings {
  import opened Tallies
  import opened Grid
  import opened Boards
  import opened Flood
  import opened Rules
  import opened Play

  // A closed, unflagged mine.
  ghost predicate Trap(b: Board, x: nat)
    requires b.Shaped()
  {
    x < b.Size() && !b.revealed[x] && b.mark[x] != 1 && b.mine[x]
  }

  // What a loss makes of the board: every mine is shown, and nothing else changes.
  ghost predicate LostFrom(b: Board, d: Board)
    requires b.Shaped() && d.Shaped()
  {
    && b.SameGame(d) && d.mark == b.mark && d.flags == b.flags && d.openedCount == b.openedCount
    && forall x: nat :: x < b.Size() ==> (d.revealed[x] <==> b.revealed[x] || b.mine[x])
  }

  // What opening cell i makes of the board: its region is opened; a win flags every mine; no other mark changes.
  ghost predicate OpenedFrom(b: Board, i: nat, d: Board)
    requires b.Shaped() && d.Shaped() && i < b.Size()
  {
    && b.SameGame(d)
    && (forall x: nat :: x < b.Size() ==> (d.revealed[x] <==> b.revealed[x] || b.Reaches(i, x)))
    && (forall x: nat :: x < b.Size() ==> d.mark[x] == if d.over == 1 && b.mine[x] then 1 else b.mark[x])
    && (d.over == 1 <==> forall x: nat :: x < b.Size() && !b.mine[x] ==> d.revealed[x])
  }

  lemma {:induction false} TrapSprings(b: Board, i: nat)
    requires b.Shaped() && Trap(b, i) && b.over == 0
    ensures var d := b.Reveal(i); d.Shaped() && d.over == -1 && LostFrom(b, d)
  {
    hide Dim.Cells, Board.Region;
  }

  lemma {:induction false} SafeOpensUp(b: Board, i: nat)
    requires Running(b) && b.over == 0 && b.Shaped()
    requires i < b.Size() && !b.revealed[i] && b.mark[i] != 1 && !b.mine[i]
    ensures var d := b.Reveal(i); d.Shaped() && d.over != -1 && OpenedFrom(b, i, d)
  {
    hide Dim.Around, Dim.Cells, PlacedOn, TrueAt, OpenSafe, FlaggedCells, Board.Counted, Board.Reaches, Board.Judged,
      Board.Reveal, Running;
    RunningPlaying(b);
    RevealFields(b, i);
    RevealRunning(b, i);
    var d := b.Reveal(i);
    RunningSteady(d);
    SteadyMeans(d);
    RunningStarted(d);
    RegionReached(b, i);
  }

  lemma {:induction false} RunningStarted(b: Board)
    requires Running(b)
    ensures b.started
  {}

  lemma {:induction false} RegionReached(b: Board, i: nat)
    requires b.Shaped() && i < b.Size()
    ensures forall x: nat :: x < b.Size() ==> (x in b.Region(i) <==> b.Reaches(i, x))
  {
    hide Dim.Cells, Board.Reaches, Upto;
  }

  // Reveal by cases, without its own words.
  lemma {:induction false} RevealDoes(b: Board, i: nat)
    requires Running(b) && b.over == 0 && i < b.Size() && b.Shaped()
    ensures var d := b.Reveal(i);
      && d.Shaped() && (d.over == -1 <==> Trap(b, i))
      && (d.over == -1 ==> LostFrom(b, d))
      && (b.revealed[i] || b.mark[i] == 1 ==> d == b)
      && (!b.revealed[i] && b.mark[i] != 1 && !b.mine[i] ==> OpenedFrom(b, i, d))
  {
    hide Running, Board.Reveal, LostFrom, OpenedFrom;
    RevealNothing(b, i);
    if Trap(b, i) {
      TrapSprings(b, i);
    } else if !b.revealed[i] && b.mark[i] != 1 {
      SafeOpensUp(b, i);
    }
  }

  // ---- clicks ----

  lemma {:induction false} ClickReveals(b: Board, r: int, c: int)
    requires Running(b) && b.over == 0 && b.Shaped()
    ensures Click(b, r, c) == ScriptClick(b, r, c)
    ensures b.dim.InB(r, c) ==> (b.dim.Idx(r, c) < b.Size() && Click(b, r, c) == b.Reveal(b.dim.Idx(r, c)))
    ensures !b.dim.InB(r, c) ==> Click(b, r, c) == b
  {
    hide Running, Board.Reveal, Dim.Cells;
    RunningStarted(b);
    if b.dim.InB(r, c) {
      b.dim.IdxRange(r, c);
      RevealNothing(b, b.dim.Idx(r, c));
    }
  }

  /** A click on a running board loses exactly on a closed, unflagged mine, and then shows every mine and changes
      nothing else; on a closed, unflagged, safe cell it opens what is reachable from it, and wins exactly when all safe
      cells are then open; everywhere else it does nothing. */
  lemma {:induction false} ClickEnds(b: Board, r: int, c: int)
    requires Running(b) && b.over == 0 && b.Shaped()
    ensures ScriptClick(b, r, c) == Click(b, r, c) && Click(b, r, c).Shaped()
    ensures b.dim.InB(r, c) ==> b.dim.Idx(r, c) < b.Size()
    ensures Click(b, r, c).over == -1 <==> b.dim.InB(r, c) && Trap(b, b.dim.Idx(r, c))
    ensures Click(b, r, c).over == -1 ==> LostFrom(b, Click(b, r, c))
    ensures if b.dim.InB(r, c) && !b.revealed[b.dim.Idx(r, c)] && b.mark[b.dim.Idx(r, c)] != 1 then
              b.mine[b.dim.Idx(r, c)] || OpenedFrom(b, b.dim.Idx(r, c), Click(b, r, c))
            else Click(b, r, c) == b
  {
    hide Running, Board.Reveal, Dim.Cells, LostFrom, OpenedFrom, Click, ScriptClick;
    ClickReveals(b, r, c);
    if b.dim.InB(r, c) { RevealDoes(b, b.dim.Idx(r, c)); }
  }

  /** The click that starts the game never loses it; on an unflagged cell it opens what is reachable from there on the
      board with its mines placed. */
  lemma {:induction false} FirstNeverLoses(b: Board, r: int, c: int)
    requires Steady(b) && !b.started && b.Shaped()
    ensures Click(b, r, c).over != -1 && ScriptClick(b, r, c).over != -1
    ensures b.dim.InB(r, c) ==>
              var i := b.dim.Idx(r, c);
              && i < b.Size() && b.Size() == FirstClick(b, r, c).Size()
              && (b.mark[i] != 1 ==> Click(b, r, c).Shaped() && OpenedFrom(FirstClick(b, r, c), i, Click(b, r, c)))
  {
    hide Running, Board.Reveal, Dim.Cells, LostFrom, OpenedFrom, FirstClick, Dim.SquareUpto, TrueAt;
    if b.dim.InB(r, c) {
      FirstClickRunning(b, r, c);
      b.dim.IdxRange(r, c);
      var e := FirstClick(b, r, c);
      RunningPlaying(e);
      RevealDoes(e, b.dim.Idx(r, c));
      NothingOpen(b);
    }
  }

  lemma {:induction false} NothingOpen(b: Board)
    requires Steady(b) && !b.started && b.Shaped()
    ensures forall x: nat :: x < b.Size() ==> !b.revealed[x]
  {
    hide Running, FlaggedCells, Dim.Cells;
    forall x: nat | x < b.Size() ensures !b.revealed[x] { assert x !in TrueAt(b.revealed); }
  }

  // ---- chords ----

  // One of the cells is a trap.
  ghost predicate TrapIn(b: Board, cells: seq<nat>)
    requires b.Shaped()
  {
    exists x :: x in cells && Trap(b, x)
  }

  lemma {:induction false} TrapInSnoc(b: Board, cells: seq<nat>, x: nat)
    requires b.Shaped()
    ensures TrapIn(b, cells + [x]) <==> TrapIn(b, cells) || Trap(b, x)
  {
    hide Trap;
    if TrapIn(b, cells) {
      var y :| y in cells && Trap(b, y);
      assert y in cells + [x];
    }
    if Trap(b, x) { assert x in cells + [x]; }
  }

  // Until the game ends, a chord leaves marks and traps as they are.
  ghost predicate StillOn(b: Board, d: Board)
    requires b.Shaped()
  {
    Running(d) && d.over == 0 && b.SameGame(d) && d.mark == b.mark
  }

  lemma {:induction false} SameTraps(b: Board, d: Board, x: nat)
    requires Running(b) && b.over == 0 && b.Shaped() && StillOn(b, d) && d.Shaped()
    ensures Trap(d, x) <==> Trap(b, x)
  {
    hide Dim.Around, Dim.Cells, TrueAt, Board.Counted;
  }

  // What revealing one more cell of the square does.
  ghost predicate OneMore(b: Board, d: Board, e: Board, loses: bool)
    requires b.Shaped()
  {
    && d.Shaped() && e.Shaped() && d.Size() == e.Size() == b.Size()
    && (e.over == -1 <==> loses) && (e.over == -1 ==> e.mark == b.mark) && (e.over == 0 ==> StillOn(b, e))
    && forall y: nat :: y < b.Size() && b.mark[y] == 1 && !b.mine[y] && !d.revealed[y] ==> !e.revealed[y] && e.over != 1
  }

  lemma {:induction false} CellStep(b: Board, d: Board, i: nat)
    requires Running(b) && b.over == 0 && b.Shaped() && StillOn(b, d) && d.Shaped() && i < b.Size()
    ensures OneMore(b, d, d.Reveal(i), Trap(b, i))
  {
    hide Running, Board.Reveal, Trap, Dim.Cells, Board.Reaches;
    var e := d.Reveal(i);
    RevealRunning(d, i);
    RevealDoes(d, i);
    SameTraps(b, d, i);
    if !d.revealed[i] && d.mark[i] != 1 && !d.mine[i] {
      FlaggedStays(d, i);
      RunningRange(e);
      assert e.over != 1 ==> e.mark == d.mark;
    } else if d.revealed[i] || d.mark[i] == 1 {
      RunningRange(d);
    } else {
      assert Trap(d, i) by { TrapHere(d, i); }
    }
  }

  lemma {:induction false} TrapHere(b: Board, i: nat)
    requires b.Shaped() && i < b.Size() && !b.revealed[i] && b.mark[i] != 1 && b.mine[i]
    ensures Trap(b, i)
  {}

  lemma {:induction false} RunningRange(b: Board)
    requires Running(b)
    ensures -1 <= b.over <= 1
  {
    hide Dim.Around, Dim.Cells, PlacedOn, Board.Counted;
  }

  lemma {:induction false} PositionStep(b: Board, d: Board, r: int, c: int)
    requires Running(b) && b.over == 0 && b.Shaped() && StillOn(b, d) && d.Shaped()
    ensures OneMore(b, d, d.RevealAt(r, c), b.dim.InB(r, c) && Trap(b, b.dim.Idx(r, c)))
  {
    hide Running, Board.Reveal, Trap, Dim.Cells;
    if b.dim.InB(r, c) {
      d.dim.IdxRange(r, c);
      CellStep(b, d, d.dim.Idx(r, c));
    }
  }

  // A flagged cell is not reachable from an unflagged one.
  lemma {:induction false} FlaggedStays(b: Board, i: nat)
    requires Running(b) && b.over == 0 && b.Shaped() && i in b.Closed() && !b.mine[i]
    ensures forall y: nat :: y < b.Size() && b.mark[y] == 1 ==> !b.Reaches(i, y)
  {
    hide Running, Dim.Cells, Board.Reaches;
    RunningPlaying(b);
    RegionSafe(b, i);
    RegionReached(b, i);
  }

  // The square grows by one position.
  lemma {:induction false} SquareGrows(b: Board, r: int, c: int, k: nat)
    requires b.Shaped() && k < 9
    ensures var rr, cc := r + k / 3 - 1, c + k % 3 - 1;
      TrapIn(b, b.dim.SquareUpto(r, c, k + 1)) <==>
        TrapIn(b, b.dim.SquareUpto(r, c, k)) || (b.dim.InB(rr, cc) && Trap(b, b.dim.Idx(rr, cc)))
  {
    hide TrapIn, Trap, Board.Shaped, Dim.Idx;
    var rr, cc := r + k / 3 - 1, c + k % 3 - 1;
    if b.dim.InB(rr, cc) {
      TrapInSnoc(b, b.dim.SquareUpto(r, c, k), b.dim.Idx(rr, cc));
    } else {
      assert b.dim.SquareUpto(r, c, k) + [] == b.dim.SquareUpto(r, c, k);
    }
  }

  // With a wrongly flagged cell y on the board a chord cannot win, and loses at the first trap.
  lemma {:induction false} WrongSquare(b: Board, r: int, c: int, k: nat, y: nat)
    requires Running(b) && b.over == 0 && b.Shaped() && k <= 9
    requires y < b.Size() && b.mark[y] == 1 && !b.mine[y] && !b.revealed[y]
    ensures var d := RevealSquare(b, r, c, k);
      && d.Size() == b.Size() && d.mark == b.mark
      && d.over == (if TrapIn(b, b.dim.SquareUpto(r, c, k)) then -1 else 0)
      && (d.over == 0 ==> StillOn(b, d) && !d.revealed[y])
  {
    hide Running, TrapIn, Trap, Board.RevealAt, Dim.SquareUpto, Dim.Cells;
    if k == 0 {
      NoTrapYet(b, r, c);
    } else {
      WrongSquare(b, r, c, k - 1, y);
      var d := RevealSquare(b, r, c, k - 1);
      var rr, cc := r + (k - 1) / 3 - 1, c + (k - 1) % 3 - 1;
      SquareGrows(b, r, c, k - 1);
      RevealSquareRunning(b, r, c, k - 1);
      RevealAtRunning(d, rr, cc);
      RunningRange(d.RevealAt(rr, cc));
      if d.over == 0 { PositionStep(b, d, rr, cc); }
    }
  }

  lemma {:induction false} NoTrapYet(b: Board, r: int, c: int)
    requires b.Shaped()
    ensures !TrapIn(b, b.dim.SquareUpto(r, c, 0))
  {
    hide Trap;
  }

  ghost predicate ReachedFrom(b: Board, cells: seq<nat>, x: nat)
    requires b.Shaped()
  {
    exists s :: s in cells && s in b.Closed() && b.Reaches(s, x)
  }

  // d opens these cells and whatever they spread to, and nothing else.
  ghost predicate Spread(b: Board, cells: seq<nat>, d: Board)
    requires b.Shaped()
  {
    && d.Shaped() && d.Size() == b.Size()
    && (forall x: nat :: x < b.Size() && b.revealed[x] ==> d.revealed[x])
    && (forall x: nat :: x < b.Size() && d.revealed[x] && !b.revealed[x] ==> ReachedFrom(b, cells, x))
    && (forall x: nat, y: nat :: x < b.Size() && d.revealed[x] && !b.revealed[x] && b.Spreads(x, y) ==> d.revealed[y])
    && (forall s :: s in cells && s in b.Closed() ==> d.revealed[s])
  }

  // Whatever is reachable from one of the cells is open.
  lemma {:induction false} SpreadFar(b: Board, cells: seq<nat>, d: Board, s: nat, x: nat)
    requires b.Shaped() && Spread(b, cells, d) && s in cells && s in b.Closed() && b.Reaches(s, x) && x < b.Size()
    ensures d.revealed[x]
  {
    hide Dim.Cells, Board.Way, Board.Reaches, Board.Spreads, ReachedFrom;
    var way := AWay(b, s, x);
    var more := TrueAt(d.revealed) - TrueAt(b.revealed);
    forall v, w | v in more && b.Spreads(v, w) ensures w in more { SpreadsClosed(b, v, w); }
    WayStays(b, way, more);
  }

  lemma {:induction false} SpreadsClosed(b: Board, x: nat, y: nat)
    requires b.Shaped() && b.Spreads(x, y)
    ensures y in b.Closed()
  {
    hide Dim.Around, Dim.Cells, ClosedCells;
  }

  lemma {:induction false} AWay(b: Board, i: nat, x: nat) returns (way: seq<nat>)
    requires b.Shaped() && b.Reaches(i, x)
    ensures b.Way(way) && way[0] == i && way[|way| - 1] == x
  {
    way :| b.Way(way) && way[0] == i && way[|way| - 1] == x;
  }

  // That says which cells are open.
  lemma {:induction false} SpreadIs(b: Board, cells: seq<nat>, d: Board, x: nat)
    requires b.Shaped() && Spread(b, cells, d) && x < b.Size()
    ensures d.revealed[x] <==> b.revealed[x] || ReachedFrom(b, cells, x)
  {
    hide Dim.Cells, Board.Reaches, Board.Spreads;
    if ReachedFrom(b, cells, x) {
      var s :| s in cells && s in b.Closed() && b.Reaches(s, x);
      SpreadFar(b, cells, d, s, x);
    }
  }

  lemma {:induction false} ReachedMore(b: Board, cells: seq<nat>, i: nat, x: nat)
    requires b.Shaped()
    ensures ReachedFrom(b, cells, x) ==> ReachedFrom(b, cells + [i], x)
    ensures i in b.Closed() && b.Reaches(i, x) ==> ReachedFrom(b, cells + [i], x)
  {
    hide Dim.Cells, Board.Reaches;
    if ReachedFrom(b, cells, x) {
      var s :| s in cells && s in b.Closed() && b.Reaches(s, x);
      assert s in cells + [i];
    }
    assert i in cells + [i];
  }

  // Fewer closed cells: whatever is reachable then was reachable before.
  lemma {:induction false} ReachesBefore(b: Board, d: Board, i: nat, x: nat)
    requires b.Shaped() && StillOn(b, d) && d.Shaped() && d.Reaches(i, x)
    requires forall y: nat :: y < b.Size() && b.revealed[y] ==> d.revealed[y]
    ensures b.Reaches(i, x)
  {
    hide Running, Dim.Cells, Board.Reaches, Board.Way;
    var way := AWay(d, i, x);
    ReachesSelf(b, i);
    assert d.Closed() <= b.Closed();
    WayLifts(b, d, i, way);
  }

  lemma {:induction false} SpreadStep(b: Board, cells: seq<nat>, d: Board, i: nat)
    requires Running(b) && b.over == 0 && b.Shaped() && StillOn(b, d) && Spread(b, cells, d)
    requires i < b.Size() && !Trap(b, i)
    ensures Spread(b, cells + [i], d.Reveal(i))
  {
    hide Running, Board.Reveal, Dim.Cells, Dim.Around, Board.Reaches, ReachedFrom, LostFrom, TrueAt;
    var e := d.Reveal(i);
    RevealDoes(d, i);
    RevealRunning(d, i);
    SameTraps(b, d, i);
    forall x: nat | x < b.Size() && e.revealed[x] && !b.revealed[x] ensures ReachedFrom(b, cells + [i], x) {
      ReachedMore(b, cells, i, x);
      if !d.revealed[x] { ReachesBefore(b, d, i, x); }
    }
    forall x: nat, y: nat | x < b.Size() && e.revealed[x] && !b.revealed[x] && b.Spreads(x, y) ensures e.revealed[y] {
      if !d.revealed[x] && !d.revealed[y] {
        assert d.Spreads(x, y);
        ReachesStep(d, i, x, y);
      }
    }
    forall s | s in cells + [i] && s in b.Closed() ensures e.revealed[s] {
      if s == i { ReachesSelf(d, i); }
    }
  }

  // Without a trap in the square a chord cannot lose, and opens what its cells reach.
  lemma {:induction false} SafeSquare(b: Board, r: int, c: int, k: nat)
    requires Running(b) && b.over == 0 && b.Shaped() && k <= 9
    requires !TrapIn(b, b.dim.SquareUpto(r, c, k))
    ensures var d := RevealSquare(b, r, c, k);
      d.over != -1 && (d.over == 0 ==> StillOn(b, d)) && Spread(b, b.dim.SquareUpto(r, c, k), d)
  {
    hide Running, TrapIn, Trap, Board.RevealAt, Dim.SquareUpto, Dim.Cells, Spread;
    if k == 0 {
      NothingSpread(b, r, c);
    } else {
      var d := RevealSquare(b, r, c, k - 1);
      var rr, cc := r + (k - 1) / 3 - 1, c + (k - 1) % 3 - 1;
      SquareGrows(b, r, c, k - 1);
      SafeSquare(b, r, c, k - 1);
      RevealSquareRunning(b, r, c, k - 1);
      RevealAtRunning(d, rr, cc);
      if d.over == 0 { PositionStep(b, d, rr, cc); }
      SpreadPosition(b, r, c, k - 1, d);
    }
  }

  lemma {:induction false} NothingSpread(b: Board, r: int, c: int)
    requires b.Shaped()
    ensures Spread(b, b.dim.SquareUpto(r, c, 0), b)
  {
    hide Dim.Cells, ReachedFrom, Board.Spreads;
  }

  lemma {:induction false} SpreadPosition(b: Board, r: int, c: int, k: nat, d: Board)
    requires Running(b) && b.over == 0 && b.Shaped() && k < 9 && Spread(b, b.dim.SquareUpto(r, c, k), d)
    requires !TrapIn(b, b.dim.SquareUpto(r, c, k + 1)) && b.SameGame(d) && Running(d) && d.over != -1
    requires d.over == 0 ==> StillOn(b, d)
    ensures Spread(b, b.dim.SquareUpto(r, c, k + 1), d.RevealAt(r + k / 3 - 1, c + k % 3 - 1))
  {
    hide Running, TrapIn, Trap, Board.Reveal, Dim.Cells, Spread;
    var rr, cc := r + k / 3 - 1, c + k % 3 - 1;
    var cells := b.dim.SquareUpto(r, c, k);
    SquareGrows(b, r, c, k);
    RunningPlaying(d);
    if b.dim.InB(rr, cc) {
      b.dim.IdxRange(rr, cc);
      var i := b.dim.Idx(rr, cc);
      assert b.dim.SquareUpto(r, c, k + 1) == cells + [i];
      if d.over == 0 {
        SpreadStep(b, cells, d, i);
      } else {
        RevealRunning(d, i);
        SpreadWon(b, cells, d, i);
      }
    } else {
      assert b.dim.SquareUpto(r, c, k + 1) == cells + [] == cells;
    }
  }

  lemma {:induction false} SpreadWon(b: Board, cells: seq<nat>, d: Board, i: nat)
    requires b.Shaped() && Spread(b, cells, d) && i < b.Size() && !Trap(b, i)
    requires Running(d) && d.over != 0 && d.over != -1 && d.mine == b.mine
    ensures Spread(b, cells + [i], d)
  {
    hide Running, Dim.Cells, Dim.Around, Board.Reaches, ReachedFrom, TrueAt, Board.Spreads;
    RunningRange(d);
    RunningSteady(d);
    RunningStarted(d);
    SteadyMeans(d);
    forall x: nat | x < b.Size() && d.revealed[x] && !b.revealed[x] ensures ReachedFrom(b, cells + [i], x) {
      ReachedMore(b, cells, i, x);
    }
  }

  // As many flags as mines around a number, and one of the mines unflagged: then one of the flags is wrong.
  lemma {:induction false} WrongFlagBeside(b: Board, i: nat, x: nat) returns (y: nat)
    requires Running(b) && b.over == 0 && b.Shaped() && i < b.Size() && b.revealed[i]
    requires Tally(b.dim.Around(i), b.Flagged()) == b.adj[i] && x in b.dim.Around(i) && Trap(b, x)
    ensures y < b.Size() && b.mark[y] == 1 && !b.mine[y] && !b.revealed[y]
  {
    hide Dim.Around, Dim.Cells, Tally, TrueAt, FlaggedCells, Board.Counted;
    var around, flagged, mines := b.dim.Around(i), b.Flagged(), b.MineSet();
    var right := flagged * mines;
    assert Numbered(b.dim, b.mine, b.adj, i);
    TallyUnion(around, right, mines - flagged);
    TallyUnion(around, right, flagged - mines);
    assert mines == right + (mines - flagged) && flagged == right + (flagged - mines);
    if Tally(around, mines - flagged) == 0 { TallyZeroConverse(around, mines - flagged); }
    if forall z :: z in around ==> z !in flagged - mines { TallyZero(around, flagged - mines); }
    y :| y in around && y in flagged - mines;
  }

  /** A chord on an open number whose square holds as many flags as the number says loses exactly when its square holds
      a closed, unflagged mine, wherever the square's floods lead before that mine is reached; a loss keeps all marks
      and shows every mine. Otherwise exactly the cells reachable from the square's closed, unflagged cells are opened.
      With another number of flags, or elsewhere, a chord does nothing. */
  lemma {:induction false} ChordEnds(b: Board, r: int, c: int)
    requires Running(b) && b.over == 0 && b.Shaped() && b.dim.InB(r, c)
    ensures b.dim.Idx(r, c) < b.Size()
    ensures var i := b.dim.Idx(r, c); var d := ChordAt(b, r, c);
      if b.revealed[i] && b.adj[i] > 0 && Tally(b.dim.Around(i), b.Flagged()) == b.adj[i] then
        && d.Shaped() && b.SameGame(d) && (d.over == -1 <==> exists x :: x in b.dim.Around(i) && Trap(b, x))
        && (d.over == -1 ==> d.mark == b.mark && d.flags == b.flags && EveryMineOpen(d.mine, d.revealed))
        && (d.over != -1 ==> forall x: nat :: x < b.Size() ==>
              (d.revealed[x] <==> b.revealed[x] || ReachedFrom(b, b.dim.Around(i), x)))
      else d == b
  {
    hide Running, Trap, RevealSquare, Dim.SquareUpto, Dim.Cells, Tally, FlaggedCells, EveryMineOpen;
    b.dim.IdxRange(r, c);
    var i := b.dim.Idx(r, c);
    if b.revealed[i] && b.adj[i] > 0 && Tally(b.dim.Around(i), b.Flagged()) == b.adj[i] {
      var d := RevealSquare(b, r, c, 9);
      assert ChordAt(b, r, c) == d;
      RevealSquareRunning(b, r, c, 9);
      RunningSteady(d);
      SteadyMeans(d);
      SteadyMeans(b);
      if TrapIn(b, b.dim.Around(i)) {
        var x :| x in b.dim.Around(i) && Trap(b, x);
        var y := WrongFlagBeside(b, i, x);
        WrongSquare(b, r, c, 9, y);
      } else {
        SafeSquare(b, r, c, 9);
        forall x: nat | x < b.Size()
          ensures d.revealed[x] <==> b.revealed[x] || ReachedFrom(b, b.dim.Around(i), x)
        {
          SpreadIs(b, b.dim.Around(i), d, x);
        }
      }
    }
  }

  // ---- the pointer ----

  ghost predicate Clear(h: Hand) { h.pressed == -1 && h.anchor == -1 }

  /** The action that ends a game lets go of the pointer: no cell stays pressed and no chord armed. */
  lemma {:induction false} EndLetsGo(s: State, a: Action)
    requires Good(s) && Admissible(s, a) && s.board.over == 0
    ensures Step(s, a).board.over != 0 ==> Clear(Step(s, a).hand)
  {
    hide Steady, Click, ScriptClick, ChordAt, Chord, AnchorFits, Release;
    GoodShape(s);
    match a
    case MarkAt(r, c) => MarkGoesOn(s.board, r, c);
    case Down(onFace, cell, rightButton) =>
      if !onFace && cell >= 0 && rightButton && !s.board.revealed[cell] { CycleMarkIs(s.board, cell); }
    case _ =>
  }

  lemma {:induction false} MarkGoesOn(b: Board, r: int, c: int)
    requires b.Shaped()
    ensures Mark(b, r, c).over == b.over
  {
    hide CycleMark, Dim.Cells;
    if b.dim.InB(r, c) {
      b.dim.IdxRange(r, c);
      CycleMarkIs(b, b.dim.Idx(r, c));
    }
  }

  // A press on the grid that arms the pointer: on an open number, or with the other button down on a closed, unflagged
  // cell.
  ghost predicate Arms(s: State, a: Action)
    requires Good(s) && Admissible(s, a)
  {
    GoodShape(s);
    a.Down? && !a.onFace && a.cell >= 0 &&
    var other := if a.rightButton then s.hand.left else s.hand.right;
    (s.board.revealed[a.cell] && s.board.adj[a.cell] > 0) ||
    (other && !s.board.revealed[a.cell] && s.board.mark[a.cell] != 1)
  }

  /** After the end the pointer can be armed again, by exactly these presses; the board stays as it is all the same. */
  lemma {:induction false} ArmedAfterEnd(s: State, a: Action)
    requires Good(s) && Admissible(s, a) && s.board.over != 0 && Clear(s.hand)
    ensures Clear(Step(s, a).hand) <==> !Arms(s, a)
  {
    hide Steady, Click, ScriptClick, Mark, ChordAt, Chord, CycleMark, AnchorFits, Release;
    GoodShape(s);
    StepGood(s, a);
  }
}
