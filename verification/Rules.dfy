/** The rules of the game: what each action does to a board, and what every action keeps. */
module Rules {
  import opened Tallies
  import opened Grid
  import opened Boards
  import opened Flood
  import opened Placement

  // ---- actions ----

  ghost function Falses(n: nat): (s: seq<bool>)
    ensures |s| == n && forall x: nat :: x < n ==> !s[x]
  {
    seq(n, _ => false)
  }

  ghost function Zeros(n: nat): (s: seq<nat>)
    ensures |s| == n && forall x: nat :: x < n ==> s[x] == 0
  {
    seq(n, _ => 0)
  }

  ghost function Blank(dim: Dim, mines: nat, marksEnabled: bool, diff: nat, rng: bv64): (b: Board)
    ensures b.Shaped()
  {
    var n := dim.Cells();
    Board.Board(dim, mines, Falses(n), Zeros(n), Falses(n), Zeros(n), 0, 0, false, 0, marksEnabled, diff, rng)
  }

  // Mines drawn for a first click at (r, c).
  ghost function DrawnFor(b: Board, r: int, c: int): (d: Drawn)
    requires b.Shaped() && b.dim.InB(r, c)
    ensures |d.mine| == |b.mine|
  {
    DrawSize(Pool(b.dim, b.mines, r, c), b.mine, b.mines, b.rng);
    Draw(Pool(b.dim, b.mines, r, c), b.mine, b.mines, b.rng)
  }

  lemma {:induction false} DrawSize(pool: seq<nat>, mine: seq<bool>, need: nat, rng: bv64)
    requires forall x :: x in pool ==> x < |mine|
    ensures |Draw(pool, mine, need, rng).mine| == |mine|
    decreases |pool|
  {
    hide Word, Xorshift, Without;
    if need > 0 && pool != [] {
      var s := Xorshift(rng);
      var k := Pick(s, |pool|);
      WithoutIn(pool, k);
      DrawSize(Without(pool, k), mine, need, s);
      DrawSize(Without(pool, k), mine[pool[k] := true], need - 1, s);
    }
  }

  ghost function FirstClick(b: Board, r: int, c: int): (d: Board)
    requires b.Shaped() && b.dim.InB(r, c)
    ensures d.Shaped() && d.dim == b.dim
  {
    if b.started then b
    else
      var drawn := DrawnFor(b, r, c);
      b.(started := true, mine := drawn.mine, adj := Numbers(b.dim, drawn.mine), rng := drawn.rng)
  }

  // A click through the scripting interface.
  ghost function ScriptClick(b: Board, r: int, c: int): Board
    requires b.Shaped()
  {
    if !b.dim.InB(r, c) then b else FirstClick(b, r, c).RevealAt(r, c)
  }

  // A click through the user interface.
  ghost function Click(b: Board, r: int, c: int): Board
    requires b.Shaped()
  {
    if !b.dim.InB(r, c) || b.over != 0 then b
    else
      b.dim.IdxRange(r, c);
      var cell := b.dim.Idx(r, c);
      if b.revealed[cell] || b.mark[cell] == 1 then b else ScriptClick(b, r, c)
  }

  ghost function CycleMark(b: Board, cell: nat): Board
    requires b.Shaped() && cell < b.Size()
  {
    if b.over != 0 then b
    else if b.mark[cell] == 0 then b.(mark := b.mark[cell := 1], flags := b.flags + 1)
    else if b.mark[cell] == 1 then b.(mark := b.mark[cell := if b.marksEnabled then 2 else 0], flags := b.flags - 1)
    else b.(mark := b.mark[cell := 0])
  }

  ghost function Mark(b: Board, r: int, c: int): Board
    requires b.Shaped()
  {
    if !b.dim.InB(r, c) then b
    else
      b.dim.IdxRange(r, c);
      if b.revealed[b.dim.Idx(r, c)] then b else CycleMark(b, b.dim.Idx(r, c))
  }

  // Reveal the first k positions of the square around (r, c), one after the other.
  ghost function RevealSquare(b: Board, r: int, c: int, k: nat): (d: Board)
    requires b.Shaped() && k <= 9
    ensures d.Shaped() && d.dim == b.dim
  {
    if k == 0 then b
    else RevealSquare(b, r, c, k - 1).RevealAt(r + (k - 1) / 3 - 1, c + (k - 1) % 3 - 1)
  }

  ghost predicate ChordReady(b: Board, cell: nat)
    requires b.Shaped() && cell < b.Size()
  {
    Tally(b.dim.Around(cell), b.Flagged()) == b.adj[cell]
  }

  ghost function Chord(b: Board, cell: nat): Board
    requires b.Shaped() && cell < b.Size() && b.dim.cols > 0
  {
    if ChordReady(b, cell) then RevealSquare(b, b.dim.Row(cell), b.dim.Col(cell), 9) else b
  }

  ghost function ChordAt(b: Board, r: int, c: int): Board
    requires b.Shaped()
  {
    if !b.dim.InB(r, c) then b
    else
      b.dim.IdxRange(r, c);
      var cell := b.dim.Idx(r, c);
      if b.revealed[cell] && b.adj[cell] > 0 then Chord(b, cell) else b
  }

  // ---- what every action keeps ----

  // No mines yet, nothing open.
  ghost predicate Fresh(b: Board)
    requires b.Shaped()
  {
    && !b.started && b.over == 0 && b.openedCount == 0 && b.flags == |b.Flagged()|
    && b.MineSet() == {} && TrueAt(b.revealed) == {}
  }

  ghost predicate NoFlagOpen(b: Board)
    requires b.Shaped()
  {
    forall x: nat :: x < b.Size() && b.revealed[x] ==> b.mark[x] != 1
  }

  ghost predicate Running(b: Board) {
    && b.Playing() && b.started && b.mines < b.Size()
    && (b.over == 1 <==> b.openedCount == b.Size() - b.mines)
    && (b.over != -1 ==> NoFlagOpen(b))
  }

  /** The board between two actions. */
  ghost predicate Steady(b: Board) {
    b.Shaped() && b.mines < b.Size() && if b.started then Running(b) else Fresh(b)
  }

  /** What a steady board promises. */
  lemma {:induction false} SteadyMeans(b: Board)
    requires Steady(b)
    ensures b.flags == |b.Flagged()| && b.openedCount == |b.SafeOpened()|
    ensures b.over == 0 ==> b.openedCount < b.Size() - b.mines && NoMineOpen(b.mine, b.revealed)
    ensures b.started ==> (b.over == 1 <==> b.AllSafeOpen())
    ensures b.over == 1 ==> EveryMineFlagged(b.mine, b.mark)
    ensures b.over == -1 ==> EveryMineOpen(b.mine, b.revealed)
  {
    hide Dim.Around, Dim.Cells, PlacedOn, TrueAt, OpenSafe, FlaggedCells;
    if b.started {
      WinTest(b);
    } else {
      assert b.SafeOpened() == {};
    }
  }

  lemma {:induction false} BlankSteady(dim: Dim, mines: nat, marksEnabled: bool, diff: nat, rng: bv64)
    requires mines < dim.Cells()
    ensures Steady(Blank(dim, mines, marksEnabled, diff, rng))
  {
    hide Dim.Cells, TrueAt, FlaggedCells;
    var b := Blank(dim, mines, marksEnabled, diff, rng);
    assert b.MineSet() == {} && TrueAt(b.revealed) == {} && b.Flagged() == {};
  }

  /** A new game: nothing is open, marked, mined or counted. */
  lemma {:induction false} BlankMeans(dim: Dim, mines: nat, marksEnabled: bool, diff: nat, rng: bv64)
    ensures var b := Blank(dim, mines, marksEnabled, diff, rng);
      && b.dim == dim && b.mines == mines && b.marksEnabled == marksEnabled && b.diff == diff && b.rng == rng
      && !b.started && b.over == 0 && b.flags == 0 && b.openedCount == 0 && b.Size() == dim.Cells()
      && forall x: nat :: x < b.Size() ==> !b.revealed[x] && !b.mine[x] && b.mark[x] == 0
  {
    hide Dim.Cells;
  }

  lemma {:induction false} RevealNoFlag(b: Board, i: nat)
    requires b.Playing() && i < b.Size() && b.over == 0 && NoFlagOpen(b) && i in b.Closed() && !b.mine[i]
    ensures NoFlagOpen(b.Reveal(i))
  {
    hide Dim.Around, Dim.Cells, PlacedOn, TrueAt, OpenSafe, FlaggedCells, ClosedCells, Board.Counted, Board.Region,
      Board.Reaches;
    RegionSafe(b, i);
    RevealFields(b, i);
    var c := b.Reveal(i);
    forall x: nat | x < b.Size() && c.revealed[x] ensures c.mark[x] != 1 {
      assert b.revealed[x] || x in b.Region(i);
    }
  }

  lemma {:induction false} RevealRunning(b: Board, i: nat)
    requires Running(b) && i < b.Size()
    ensures Running(b.Reveal(i)) && b.SameGame(b.Reveal(i))
    ensures forall x: nat :: x < b.Size() && b.revealed[x] ==> b.Reveal(i).revealed[x]
    ensures b.over != 0 ==> b.Reveal(i) == b
  {
    hide Dim.Around, Dim.Cells, PlacedOn, TrueAt, OpenSafe, FlaggedCells, Board.Counted, Board.Region, Board.Judged,
      EverySafeOpen;
    RevealPlaying(b, i);
    if b.over == 0 && i in b.Closed() && !b.mine[i] {
      RevealNoFlag(b, i);
      RevealFields(b, i);
    }
  }

  lemma {:induction false} RunningPlaying(b: Board)
    requires Running(b)
    ensures b.Playing() && b.Shaped()
  {}

  lemma {:induction false} RevealAtRunning(b: Board, r: int, c: int)
    requires Running(b)
    ensures Running(b.RevealAt(r, c)) && b.SameGame(b.RevealAt(r, c))
    ensures forall x: nat :: x < b.Size() && b.revealed[x] ==> b.RevealAt(r, c).revealed[x]
    ensures b.over != 0 ==> b.RevealAt(r, c) == b
  {
    hide Running, Board.Playing, Board.Reveal;
    RunningPlaying(b);
    if b.dim.InB(r, c) {
      b.dim.IdxRange(r, c);
      RevealRunning(b, b.dim.Idx(r, c));
    }
  }

  lemma {:induction false} RevealSquareRunning(b: Board, r: int, c: int, k: nat)
    requires Running(b) && k <= 9
    ensures Running(RevealSquare(b, r, c, k)) && b.SameGame(RevealSquare(b, r, c, k))
    ensures forall x: nat :: x < b.Size() && b.revealed[x] ==> RevealSquare(b, r, c, k).revealed[x]
    ensures b.over != 0 ==> RevealSquare(b, r, c, k) == b
  {
    hide Running, Board.Playing, Board.RevealAt;
    RunningPlaying(b);
    if k > 0 {
      RevealSquareRunning(b, r, c, k - 1);
      RevealAtRunning(RevealSquare(b, r, c, k - 1), r + (k - 1) / 3 - 1, c + (k - 1) % 3 - 1);
    }
  }

  // A numbered board.
  lemma {:induction false} NumbersPlace(dim: Dim, mines: nat, mine: seq<bool>)
    requires |mine| == dim.Cells() && |TrueAt(mine)| == mines
    ensures PlacedOn(dim, mines, mine, Numbers(dim, mine))
  {
    hide Dim.Around, Dim.Cells, TrueAt, Tally, Numbers;
    forall x: nat ensures Numbered(dim, mine, Numbers(dim, mine), x) {}
  }

  /** The first click places exactly b.mines mines with b.mines random numbers, and misses them all. */
  lemma {:induction false} FirstClickRunning(b: Board, r: int, c: int)
    requires Steady(b) && !b.started && b.dim.InB(r, c)
    ensures var d := FirstClick(b, r, c);
      && Running(d) && d.started && d.over == 0 && d.revealed == b.revealed && d.mark == b.mark
          && d.dim == b.dim && d.mines == b.mines
      && d.rng == Iterate(b.rng, b.mines) && b.dim.cols > 0
      && b.dim.Idx(r, c) < b.Size() && !d.mine[b.dim.Idx(r, c)]
      && (b.mines + |b.dim.Square(r, c)| <= b.dim.Cells() ==> forall x :: x in b.dim.Square(r, c) ==> x !in d.MineSet())
  {
    hide Dim.Around, Dim.Cells, Dim.SquareUpto, PlacedOn, TrueAt, OpenSafe, FlaggedCells, Iterate, Draw, Pool, Numbers;
    PlacesAll(b.dim, b.mines, r, c, b.mine, b.rng);
    b.dim.IdxRange(r, c);
    var d := FirstClick(b, r, c);
    NumbersPlace(b.dim, b.mines, d.mine);
    assert forall x: nat :: x < b.Size() ==> x !in TrueAt(b.revealed);
    assert d.SafeOpened() == {};
  }

  lemma {:induction false} ScriptClickSteady(b: Board, r: int, c: int)
    requires Steady(b)
    ensures Steady(ScriptClick(b, r, c))
    ensures b.over != 0 ==> ScriptClick(b, r, c) == b
  {
    hide Running, Fresh, FirstClick;
    if b.dim.InB(r, c) {
      if b.started { StartedStays(b, r, c); } else { FirstClickRunning(b, r, c); }
      RevealAtRunning(FirstClick(b, r, c), r, c);
      RunningSteady(FirstClick(b, r, c).RevealAt(r, c));
    }
    if b.over != 0 { OverStarted(b); }
  }

  lemma {:induction false} StartedStays(b: Board, r: int, c: int)
    requires Steady(b) && b.started && b.dim.InB(r, c)
    ensures FirstClick(b, r, c) == b && Running(b)
  {}

  lemma {:induction false} OverStarted(b: Board)
    requires Steady(b) && b.over != 0
    ensures b.started
  {
    hide Running;
  }

  lemma {:induction false} RunningSteady(b: Board)
    requires Running(b)
    ensures Steady(b)
  {}

  lemma {:induction false} ClickSteady(b: Board, r: int, c: int)
    requires Steady(b)
    ensures Steady(Click(b, r, c))
    ensures b.over != 0 ==> Click(b, r, c) == b
  {
    hide Steady, ScriptClick;
    ScriptClickSteady(b, r, c);
  }

  // Changing one mark changes the flag count accordingly.
  lemma {:induction false} FlagsChange(mark: seq<nat>, cell: nat, m: nat)
    requires cell < |mark|
    ensures |FlaggedCells(mark[cell := m])|
         == |FlaggedCells(mark)| + (if m == 1 then 1 else 0) - (if mark[cell] == 1 then 1 else 0)
  {
    hide FlaggedCells;
    var s, t := FlaggedCells(mark), FlaggedCells(mark[cell := m]);
    assert s - {cell} == t - {cell};
    FlaggedWithout(s, cell);
    FlaggedWithout(t, cell);
  }

  lemma {:induction false} FlaggedWithout(s: set<nat>, cell: nat)
    ensures |s| == |s - {cell}| + (if cell in s then 1 else 0)
  {
    if cell in s { assert s == (s - {cell}) + {cell}; } else { assert s == s - {cell}; }
  }

  lemma {:induction false} CycleMarkSteady(b: Board, cell: nat)
    requires Steady(b) && cell < b.Size() && !b.revealed[cell]
    ensures Steady(CycleMark(b, cell)) && b.SameGame(CycleMark(b, cell)) && CycleMark(b, cell).revealed == b.revealed
    ensures b.over != 0 ==> CycleMark(b, cell) == b
  {
    hide Dim.Around, Dim.Cells, PlacedOn, TrueAt, OpenSafe, FlaggedCells;
    if b.over == 0 {
      FlagsChange(b.mark, cell, CycleMark(b, cell).mark[cell]);
    }
  }

  lemma {:induction false} CycleMarkIs(b: Board, cell: nat)
    requires b.Shaped() && cell < b.Size()
    ensures CycleMark(b, cell) == b.(mark := CycleMark(b, cell).mark, flags := CycleMark(b, cell).flags)
    ensures CycleMark(b, cell).flags == if b.over != 0 then b.flags else if b.mark[cell] == 0 then b.flags + 1
                                        else if b.mark[cell] == 1 then b.flags - 1 else b.flags
    ensures CycleMark(b, cell).mark == if b.over != 0 then b.mark else if b.mark[cell] == 0 then b.mark[cell := 1]
                                       else b.mark[cell := if b.mark[cell] == 1 && b.marksEnabled then 2 else 0]
  {
    hide Dim.Cells;
  }

  /** Marks go round: flag, question mark if enabled, none. */
  lemma {:induction false} MarksCycle(b: Board, cell: nat)
    requires b.Shaped() && cell < b.Size() && b.over == 0 && b.mark[cell] <= 2 && (b.mark[cell] == 2 ==> b.marksEnabled)
    ensures var once := CycleMark(b, cell);
      && once.Shaped() && once.Size() == b.Size() && once.mark[cell] != b.mark[cell]
      && var twice := CycleMark(once, cell);
         && twice.Shaped() && twice.Size() == b.Size()
         && (if b.marksEnabled then CycleMark(twice, cell) == b && twice.mark[cell] != b.mark[cell] else twice == b)
  {
    hide CycleMark, Dim.Cells;
    var once := CycleMark(b, cell);
    CycleMarkIs(b, cell);
    var twice := CycleMark(once, cell);
    CycleMarkIs(once, cell);
    CycleMarkIs(twice, cell);
    if b.marksEnabled {
      assert CycleMark(twice, cell).mark == b.mark;
    } else {
      assert twice.mark == b.mark;
    }
  }

  lemma {:induction false} MarkSteady(b: Board, r: int, c: int)
    requires Steady(b)
    ensures Steady(Mark(b, r, c))
    ensures b.over != 0 ==> Mark(b, r, c) == b
  {
    hide Steady, CycleMark;
    if b.dim.InB(r, c) {
      b.dim.IdxRange(r, c);
      SteadyShaped(b);
      if !b.revealed[b.dim.Idx(r, c)] { CycleMarkSteady(b, b.dim.Idx(r, c)); }
    }
  }

  /** Marking a closed cell of a running game moves its mark on by one, from none to flag to question mark (if enabled)
      to none, and the flag count follows; everywhere else, and after the end, marking does nothing. */
  lemma {:induction false} MarkDoes(b: Board, r: int, c: int)
    requires b.Shaped()
    ensures b.dim.InB(r, c) ==> b.dim.Idx(r, c) < b.Size()
    ensures var d := Mark(b, r, c);
      if b.over == 0 && b.dim.InB(r, c) && !b.revealed[b.dim.Idx(r, c)] then
        var cell := b.dim.Idx(r, c);
        && d == b.(mark := d.mark, flags := d.flags) && |d.mark| == |b.mark|
        && (forall x: nat :: x < b.Size() && x != cell ==> d.mark[x] == b.mark[x])
        && match b.mark[cell]
           case 0 => d.mark[cell] == 1 && d.flags == b.flags + 1
           case 1 => d.mark[cell] == (if b.marksEnabled then 2 else 0) && d.flags == b.flags - 1
           case _ => d.mark[cell] == 0 && d.flags == b.flags
      else d == b
  {
    hide CycleMark, Dim.Cells;
    if b.dim.InB(r, c) {
      b.dim.IdxRange(r, c);
      CycleMarkIs(b, b.dim.Idx(r, c));
    }
  }

  lemma {:induction false} SteadyShaped(b: Board)
    requires Steady(b)
    ensures b.Shaped()
  {}

  // A revealed cell means that the game has started.
  lemma {:induction false} OpenStarted(b: Board, cell: nat)
    requires Steady(b) && cell < b.Size() && b.revealed[cell]
    ensures Running(b)
  {
    hide Running, TrueAt;
    assert cell in TrueAt(b.revealed);
  }

  lemma {:induction false} ChordSteady(b: Board, cell: nat)
    requires Steady(b) && cell < b.Size() && b.dim.cols > 0 && b.revealed[cell]
    ensures Steady(Chord(b, cell)) && b.SameGame(Chord(b, cell))
    ensures b.over != 0 ==> Chord(b, cell) == b
  {
    hide Running, Fresh, RevealSquare, ChordReady;
    OpenStarted(b, cell);
    RevealSquareRunning(b, b.dim.Row(cell), b.dim.Col(cell), 9);
    if ChordReady(b, cell) { RunningSteady(RevealSquare(b, b.dim.Row(cell), b.dim.Col(cell), 9)); }
  }

  lemma {:induction false} ChordAtSteady(b: Board, r: int, c: int)
    requires Steady(b)
    ensures Steady(ChordAt(b, r, c))
    ensures b.over != 0 ==> ChordAt(b, r, c) == b
  {
    hide Steady, Chord;
    if b.dim.InB(r, c) {
      b.dim.IdxRange(r, c);
      SteadyShaped(b);
      if b.revealed[b.dim.Idx(r, c)] { ChordSteady(b, b.dim.Idx(r, c)); }
    }
  }

  // Open cells stay open and keep their numbers.
  ghost predicate Grows(b: Board, d: Board) {
    && b.Shaped() && d.Shaped() && d.dim == b.dim
    && forall x: nat :: x < b.Size() && b.revealed[x] ==> d.revealed[x] && d.adj[x] == b.adj[x]
  }

  lemma {:induction false} ScriptClickGrows(b: Board, r: int, c: int)
    requires Steady(b)
    ensures Grows(b, ScriptClick(b, r, c)) && Grows(b, Click(b, r, c))
  {
    hide Running, FirstClick, Board.RevealAt, TrueAt, FlaggedCells;
    if b.dim.InB(r, c) {
      var d := FirstClick(b, r, c);
      if b.started {
        StartedStays(b, r, c);
      } else {
        FirstClickRunning(b, r, c);
        forall x: nat | x < b.Size() ensures !b.revealed[x] { assert x !in TrueAt(b.revealed); }
      }
      RevealAtRunning(d, r, c);
      RunningPlaying(d.RevealAt(r, c));
    }
  }

  lemma {:induction false} MarkGrows(b: Board, r: int, c: int)
    requires Steady(b)
    ensures Grows(b, Mark(b, r, c))
  {
    hide Steady, CycleMark;
    SteadyShaped(b);
    if b.dim.InB(r, c) {
      b.dim.IdxRange(r, c);
      if !b.revealed[b.dim.Idx(r, c)] {
        CycleMarkSteady(b, b.dim.Idx(r, c));
        SteadyShaped(Mark(b, r, c));
      }
    }
  }

  lemma {:induction false} ChordGrows(b: Board, cell: nat)
    requires Steady(b) && cell < b.Size() && b.dim.cols > 0 && b.revealed[cell]
    ensures Grows(b, Chord(b, cell))
  {
    hide Running, RevealSquare, Fresh, ChordReady;
    OpenStarted(b, cell);
    RevealSquareRunning(b, b.dim.Row(cell), b.dim.Col(cell), 9);
  }

  lemma {:induction false} ChordAtGrows(b: Board, r: int, c: int)
    requires Steady(b)
    ensures Grows(b, ChordAt(b, r, c))
  {
    hide Running, Fresh, Chord;
    if b.dim.InB(r, c) {
      b.dim.IdxRange(r, c);
      if b.revealed[b.dim.Idx(r, c)] { ChordGrows(b, b.dim.Idx(r, c)); }
    }
  }

  // ---- the first click ----

  /** An unflagged first click never loses, and opens every unflagged cell of its square
      whenever enough cells remain outside the square. */
  lemma {:induction false} FirstClickSafe(b: Board, r: int, c: int)
    requires Steady(b) && !b.started && b.dim.InB(r, c)
    requires var cell := b.dim.Idx(r, c); cell < b.Size() && b.mark[cell] != 1
    ensures var d := Click(b, r, c);
      && d.Shaped() && d.started && d.over != -1 && d.revealed[b.dim.Idx(r, c)]
      && (b.mines + |b.dim.Square(r, c)| <= b.dim.Cells() ==>
            forall x :: x in b.dim.Square(r, c) ==> x < b.Size() && (b.mark[x] != 1 ==> d.revealed[x]))
  {
    hide Running, Dim.SquareUpto, Dim.Cells, TrueAt, FirstClick, Board.Reveal, Board.Region, Board.Playing;
    var e := FirstClick(b, r, c);
    var cell := b.dim.Idx(r, c);
    FirstClickRunning(b, r, c);
    b.dim.IdxRange(r, c);
    assert !b.revealed[cell] by { assert cell !in TrueAt(b.revealed); }
    RunningPlaying(e);
    assert Click(b, r, c) == e.Reveal(cell);
    SafeOpens(e, cell);
    forall x | b.mines + |b.dim.Square(r, c)| <= b.dim.Cells() && x in b.dim.Square(r, c)
      ensures x < b.Size() && (b.mark[x] != 1 ==> Click(b, r, c).revealed[x])
    {
      SafeSquareOpens(e, cell, x);
    }
  }

  lemma {:induction false} SafeOpens(e: Board, cell: nat)
    requires e.Playing() && e.over == 0 && cell < e.Size() && !e.revealed[cell] && e.mark[cell] != 1 && !e.mine[cell]
    ensures var d := e.Reveal(cell); d.Shaped() && e.SameGame(d) && d.over != -1 && d.revealed[cell]
  {
    hide Dim.Around, Dim.Cells, TrueAt, Board.Reveal, Board.Region, ClosedCells, Board.Placed, Board.Counted,
      Board.Judged;
    RegionSafe(e, cell);
    RevealFields(e, cell);
  }

  lemma {:induction false} SafeSquareOpens(e: Board, cell: nat, x: nat)
    requires e.Playing() && e.over == 0 && cell < e.Size() && !e.revealed[cell] && e.mark[cell] != 1 && !e.mine[cell]
    requires x in e.dim.Around(cell) && forall y :: y in e.dim.Around(cell) ==> y !in e.MineSet()
    ensures x < e.Size() && e.Reveal(cell).Shaped() && |e.Reveal(cell).mine| == e.Size()
    ensures e.mark[x] != 1 ==> e.Reveal(cell).revealed[x]
  {
    hide Dim.Around, Dim.Cells, TrueAt, Board.Reveal, Board.Region, ClosedCells, Board.Placed, Board.Counted,
      Board.Judged;
    RevealFields(e, cell);
    NeighbourOpened(e, cell, x);
  }

  // Cells around a cell without mines around it belong to its region.
  lemma {:induction false} NeighbourOpened(b: Board, i: nat, x: nat)
    requires b.Playing() && i in b.Closed() && !b.mine[i] && i < b.Size() && x in b.dim.Around(i)
    requires forall y :: y in b.dim.Around(i) ==> y !in b.MineSet()
    ensures x < b.Size() && (!b.revealed[x] && b.mark[x] != 1 ==> x in b.Region(i))
  {
    hide Dim.Around, Dim.Cells, TrueAt, Board.Region, ClosedCells;
    TallyZero(b.dim.Around(i), b.MineSet());
    assert Numbered(b.dim, b.mine, b.adj, i);
    b.dim.AroundDistinct(i);
    RegionSafe(b, i);
    if !b.revealed[x] && b.mark[x] != 1 { assert b.Spreads(i, x); }
  }

  lemma {:induction false} ScriptClickSettings(b: Board, r: int, c: int)
    requires Steady(b)
    ensures b.Shaped()
    ensures var d := ScriptClick(b, r, c); d.diff == b.diff && d.marksEnabled == b.marksEnabled
  {
    hide Running, Board.RevealAt;
    if b.dim.InB(r, c) {
      var d := FirstClick(b, r, c);
      if b.started { StartedStays(b, r, c); } else { FirstClickRunning(b, r, c); }
      RevealAtRunning(d, r, c);
    }
  }

  // ---- the two kinds of click ----

  /** The user interface and the scripting interface treat a click alike, except on a flagged
      cell before the game starts, where only the script places the mines. */
  lemma {:induction false} ClicksAgree(b: Board, r: int, c: int)
    requires Steady(b) && b.dim.InB(r, c)
    ensures b.dim.Idx(r, c) < b.Size()
    ensures Click(b, r, c) == ScriptClick(b, r, c) <==> b.started || b.mark[b.dim.Idx(r, c)] != 1
  {
    hide Running, Board.Reveal, Dim.Cells, TrueAt, DrawnFor, Numbers;
    b.dim.IdxRange(r, c);
    var cell := b.dim.Idx(r, c);
    ScriptClickSteady(b, r, c);
    if b.started {
      RevealNothing(b, cell);
    } else {
      assert !b.revealed[cell] by { assert cell !in TrueAt(b.revealed); }
      RevealNothing(FirstClick(b, r, c), cell);
    }
  }

  /** Such a cell exists: flag any cell of a new game. */
  lemma {:induction false} ClicksDiffer(dim: Dim, mines: nat, marksEnabled: bool, diff: nat, rng: bv64, r: int, c: int)
    requires mines < dim.Cells() && dim.InB(r, c)
    ensures dim.Idx(r, c) < dim.Cells()
    ensures var b := CycleMark(Blank(dim, mines, marksEnabled, diff, rng), dim.Idx(r, c));
      Steady(b) && Click(b, r, c) != ScriptClick(b, r, c)
  {
    hide Steady, Click, ScriptClick, CycleMark, Dim.Cells;
    dim.IdxRange(r, c);
    var blank, cell := Blank(dim, mines, marksEnabled, diff, rng), dim.Idx(r, c);
    BlankSteady(dim, mines, marksEnabled, diff, rng);
    CycleMarkSteady(blank, cell);
    CycleMarkIs(blank, cell);
    ClicksAgree(CycleMark(blank, cell), r, c);
  }

  // Open and flagged cells stay as they are.
  lemma {:induction false} RevealNothing(b: Board, cell: nat)
    requires b.Shaped() && cell < b.Size()
    ensures b.revealed[cell] || b.mark[cell] == 1 ==> b.Reveal(cell) == b
  {}
}
