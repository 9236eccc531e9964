/** The game board as a value, and what one reveal does to it. */
module Boards {
  import opened Tallies
  import opened Grid

  // Closed cells without a flag: what a reveal may open.
  ghost function ClosedCells(revealed: seq<bool>, mark: seq<nat>): (s: set<nat>)
    requires |revealed| == |mark|
    ensures forall x: nat :: x in s <==> x < |mark| && !revealed[x] && mark[x] != 1
  {
    set x: nat | x in Upto(|mark|) && !revealed[x] && mark[x] != 1
  }

  ghost function OpenSafe(revealed: seq<bool>, mine: seq<bool>): (s: set<nat>)
    requires |revealed| == |mine|
    ensures forall x: nat :: x in s <==> x < |mine| && revealed[x] && !mine[x]
  {
    set x: nat | x in Upto(|mine|) && revealed[x] && !mine[x]
  }

  ghost function FlaggedCells(mark: seq<nat>): (s: set<nat>)
    ensures forall x: nat :: x in s <==> x < |mark| && mark[x] == 1
  {
    set x: nat | x in Upto(|mark|) && mark[x] == 1
  }

  // If x is a safe cell, it shows the number of mines around it.
  ghost predicate Numbered(dim: Dim, mine: seq<bool>, adj: seq<nat>, x: nat) {
    x < |mine| == |adj| == dim.Cells() && !mine[x] ==> adj[x] == Tally(dim.Around(x), TrueAt(mine))
  }

  ghost predicate PlacedOn(dim: Dim, mines: nat, mine: seq<bool>, adj: seq<nat>) {
    |TrueAt(mine)| == mines && forall x: nat :: Numbered(dim, mine, adj, x)
  }

  ghost predicate NoMineOpen(mine: seq<bool>, revealed: seq<bool>)
    requires |mine| == |revealed|
  {
    forall x: nat :: x < |mine| && mine[x] ==> !revealed[x]
  }

  ghost predicate EveryMineOpen(mine: seq<bool>, revealed: seq<bool>)
    requires |mine| == |revealed|
  {
    forall x: nat :: x < |mine| && mine[x] ==> revealed[x]
  }

  ghost predicate EverySafeOpen(mine: seq<bool>, revealed: seq<bool>)
    requires |mine| == |revealed|
  {
    forall x: nat :: x < |mine| && !mine[x] ==> revealed[x]
  }

  ghost predicate EveryMineFlagged(mine: seq<bool>, mark: seq<nat>)
    requires |mine| == |mark|
  {
    forall x: nat :: x < |mine| && mine[x] ==> mark[x] == 1
  }

  datatype Board = Board(dim: Dim, mines: nat, mine: seq<bool>, adj: seq<nat>, revealed: seq<bool>, mark: seq<nat>,
                         flags: int, openedCount: int, started: bool, over: int, marksEnabled: bool, diff: nat,
                          rng: bv64) {

    ghost function Size(): nat { |mine| }

    ghost predicate Shaped() {
      |mine| == |adj| == |revealed| == |mark| == dim.Cells()
    }

    ghost function MineSet(): set<nat> { TrueAt(mine) }

    ghost function Closed(): set<nat>
      requires Shaped()
    {
      ClosedCells(revealed, mark)
    }

    ghost function SafeOpened(): set<nat>
      requires Shaped()
    {
      OpenSafe(revealed, mine)
    }

    ghost function Flagged(): set<nat> { FlaggedCells(mark) }

    // Mines are placed and every safe cell shows the number of mines around it.
    ghost predicate Placed() { PlacedOn(dim, mines, mine, adj) }

    ghost predicate Counted()
      requires Shaped()
    {
      openedCount == |SafeOpened()| && flags == |Flagged()|
    }

    ghost predicate AllSafeOpen()
      requires Shaped()
    {
      EverySafeOpen(mine, revealed)
    }

    // What the verdict says about the cells.
    ghost predicate Judged()
      requires Shaped()
    {
      && -1 <= over <= 1
      && (over != -1 ==> NoMineOpen(mine, revealed))
      && (over == 1 ==> AllSafeOpen() && EveryMineFlagged(mine, mark))
      && (over == -1 ==> EveryMineOpen(mine, revealed))
    }

    // Holds at every moment of a started game, also between two steps of a flood.
    ghost predicate Playing() {
      Shaped() && Placed() && Counted() && Judged()
    }

    lemma {:induction false} PlayingShaped()
      requires Playing()
      ensures Shaped()
    {}

    // ---- ending the game ----

    ghost function Lost(): Board
      requires Shaped()
    {
      if over != 0 then this
      else this.(over := -1, revealed := seq(Size(), x requires 0 <= x < Size() => revealed[x] || mine[x]))
    }

    ghost function WinMarks(): seq<nat>
      requires Shaped()
    {
      seq(Size(), x requires 0 <= x < Size() => if mine[x] then 1 else mark[x])
    }

    ghost function Won(): Board
      requires Shaped()
    {
      if over != 0 then this
      else this.(over := 1, mark := WinMarks(), flags := flags + |MineSet() - Flagged()|)
    }

    // ---- flooding ----

    // Opening a cell showing 0 also opens y.
    ghost predicate Spreads(x: nat, y: nat)
      requires Shaped()
    {
      x < Size() && adj[x] == 0 && y in Closed() && y in dim.Around(x)
    }

    ghost predicate Way(way: seq<nat>)
      requires Shaped()
    {
      way != [] && forall k :: 0 <= k < |way| - 1 ==> Spreads(way[k], way[k + 1])
    }

    /** x can be reached from i through closed unflagged cells, all but the last showing 0. */
    ghost predicate Reaches(i: nat, x: nat)
      requires Shaped()
    {
      exists way :: Way(way) && way[0] == i && way[|way| - 1] == x
    }

    ghost function Region(i: nat): (s: set<nat>)
      requires Shaped() && i < Size()
    {
      set x | x in Upto(Size()) && Reaches(i, x)
    }

    ghost function Flooded(i: nat): Board
      requires Shaped() && i < Size()
    {
      this.(revealed := seq(Size(), x requires 0 <= x < Size() => revealed[x] || x in Region(i)),
            openedCount := openedCount + |Region(i)|)
    }

    /** What revealing cell i does. */
    ghost function Reveal(i: nat): Board
      requires Shaped() && i < Size()
    {
      if revealed[i] || mark[i] == 1 then this
      else if mine[i] then Lost()
      else if over != 0 then this
      else
        var b := Flooded(i);
        if b.openedCount == b.Size() - b.mines then b.Won() else b
    }

    // Revealing a position, which may lie outside the board.
    ghost function RevealAt(r: int, c: int): Board
      requires Shaped()
    {
      if !dim.InB(r, c) then this
      else
        dim.IdxRange(r, c);
        Reveal(dim.Idx(r, c))
    }

    // Same mines, numbers and settings.
    ghost predicate SameGame(b: Board) {
      && b.dim == dim && b.mines == mines && b.mine == mine && b.adj == adj
      && b.started == started && b.marksEnabled == marksEnabled && b.diff == diff && b.rng == rng
    }
  }

  // ---- reachability ----

  lemma {:induction false} ReachesSelf(b: Board, i: nat)
    requires b.Shaped()
    ensures b.Reaches(i, i)
  {
    var way := [i];
    assert b.Way(way) && way[0] == i && way[|way| - 1] == i;
  }

  lemma {:induction false} ReachesStep(b: Board, i: nat, x: nat, y: nat)
    requires b.Shaped() && b.Reaches(i, x) && b.Spreads(x, y)
    ensures b.Reaches(i, y)
  {
    var way :| b.Way(way) && way[0] == i && way[|way| - 1] == x;
    var more := way + [y];
    forall k | 0 <= k < |more| - 1 ensures b.Spreads(more[k], more[k + 1]) {
      if k < |way| - 1 { assert more[k] == way[k] && more[k + 1] == way[k + 1]; }
    }
    assert b.Way(more) && more[0] == i && more[|more| - 1] == y;
  }

  // Every way keeps to a set that contains its start and is closed under spreading.
  lemma {:induction false} WayStays(b: Board, way: seq<nat>, s: set<nat>)
    requires b.Shaped() && b.Way(way) && way[0] in s
    requires forall x, y :: x in s && b.Spreads(x, y) ==> y in s
    ensures way[|way| - 1] in s
  {
    if |way| > 1 {
      var init := way[..|way| - 1];
      forall k | 0 <= k < |init| - 1 ensures b.Spreads(init[k], init[k + 1]) {
        assert init[k] == way[k] && init[k + 1] == way[k + 1];
      }
      WayStays(b, init, s);
      assert b.Spreads(way[|way| - 2], way[|way| - 2 + 1]);
    }
  }

  // A way through c's closed cells, joined to i in b, is a way in b.
  lemma {:induction false} WayLifts(b: Board, c: Board, i: nat, way: seq<nat>)
    requires b.Shaped() && c.Shaped() && b.SameGame(c) && c.Closed() <= b.Closed()
    requires c.Way(way) && b.Reaches(i, way[0])
    ensures b.Reaches(i, way[|way| - 1])
  {
    if |way| > 1 {
      var init := way[..|way| - 1];
      forall k | 0 <= k < |init| - 1 ensures c.Spreads(init[k], init[k + 1]) {
        assert init[k] == way[k] && init[k + 1] == way[k + 1];
      }
      WayLifts(b, c, i, init);
      assert c.Spreads(way[|way| - 2], way[|way| - 2 + 1]);
      ReachesStep(b, i, way[|way| - 2], way[|way| - 1]);
    }
  }

  // The neighbours of a 0 are safe.
  lemma {:induction false} ZeroIsSafe(b: Board, x: nat, y: nat)
    requires b.Playing() && x < b.Size() && !b.mine[x] && b.adj[x] == 0 && y in b.dim.Around(x)
    ensures y < b.Size() && !b.mine[y]
  {
    hide Dim.Around;
    assert Numbered(b.dim, b.mine, b.adj, x);
    TallyZeroConverse(b.dim.Around(x), b.MineSet());
    b.dim.AroundDistinct(x);
  }

  // Everything a safe closed cell reaches is closed and safe.
  lemma {:induction false} RegionSafe(b: Board, i: nat)
    requires b.Playing() && i in b.Closed() && !b.mine[i]
    ensures i in b.Region(i)
    ensures forall x :: x in b.Region(i) ==> x in b.Closed() && !b.mine[x]
    ensures forall x, y :: x in b.Region(i) && b.Spreads(x, y) ==> y in b.Region(i)
  {
    hide Dim.Around, Numbered, Tally, TrueAt, OpenSafe, ClosedCells, FlaggedCells;
    var s := b.Closed() - b.MineSet();
    ReachesSelf(b, i);
    forall x, y | x in s && b.Spreads(x, y) ensures y in s {
      ZeroIsSafe(b, x, y);
    }
    forall x | x in b.Region(i) ensures x in s {
      var way :| b.Way(way) && way[0] == i && way[|way| - 1] == x;
      WayStays(b, way, s);
    }
    forall x, y | x in b.Region(i) && b.Spreads(x, y) ensures y in b.Region(i) {
      ReachesStep(b, i, x, y);
    }
  }
}
