/** The Python simulator's engine: lists replaced in place, squares without their centre. */
module SimEngine {
  import opened Naturals
  import opened Tallies
  import opened Grid
  import opened Boards
  import opened Flood
  import opened Placement
  import opened Rules
  import opened SimRules
  import opened EngineSteps

  const ZERO_SEED_FALLBACK: bv64 := 0x9E3779B97F4A7C15

  function NormaliseSeed(seed: bv64): bv64 {
    if seed != 0 then seed else ZERO_SEED_FALLBACK
  }

  class SimBoard {
    var rows: nat
    var cols: nat
    var mines: nat
    var mine: seq<bool>
    var adj: seq<nat>
    var revealed: seq<bool>
    var mark: seq<nat>
    var flags: int
    var openedCount: int
    var started: bool
    var over: int
    var marksEnabled: bool
    var diff: nat
    var rng: bv64

    ghost predicate Valid()
      reads this
    {
      |mine| == |adj| == |revealed| == |mark| == rows * cols
    }

    ghost function View(): Board
      reads this
    {
      Board.Board(Dim(rows, cols), mines, mine, adj, revealed, mark, flags, openedCount, started, over,
                  marksEnabled, diff, rng)
    }

    predicate InB(r: int, c: int)
      reads this`rows, this`cols
    {
      0 <= r < rows && 0 <= c < cols
    }

    function Idx(r: int, c: int): nat
      requires InB(r, c)
      reads this`rows, this`cols
    {
      r * cols + c
    }

    ghost function Settings(): (nat, nat, nat, bool, nat)
      reads this`rows, this`cols, this`mines, this`marksEnabled, this`diff
    {
      (rows, cols, mines, marksEnabled, diff)
    }

    ghost function Counters(): (int, int, bool, int, bv64)
      reads this`flags, this`openedCount, this`started, this`over, this`rng
    {
      (flags, openedCount, started, over, rng)
    }

    method Configure(rs: nat, cs: nat, mineCount: nat, difficulty: nat)
      modifies this`rows, this`cols, this`mines, this`diff
      ensures rows == rs && cols == cs && Settings() == (rs, cs, mineCount, old(marksEnabled), difficulty)
    {
      rows, cols, mines, diff := rs, cs, mineCount, difficulty;
    }

    method ClearCounters(seed: bv64)
      modifies this`flags, this`openedCount, this`started, this`over, this`rng
      ensures Counters() == (0, 0, false, 0, NormaliseSeed(seed))
    {
      flags, openedCount, started, over, rng := 0, 0, false, 0, NormaliseSeed(seed);
    }

    method ClearCells(n: nat)
      modifies this`mine, this`adj, this`revealed, this`mark
      ensures mine == Falses(n) && adj == Zeros(n) && revealed == Falses(n) && mark == Zeros(n)
    {
      mine, revealed := seq(n, _ => false), seq(n, _ => false);
      adj, mark := seq(n, _ => 0), seq(n, _ => 0);
    }

    method Reset(rs: nat, cs: nat, mineCount: nat, difficulty: nat, seed: bv64)
      modifies this
      ensures Valid() && View() == Blank(Dim(rs, cs), mineCount, old(marksEnabled), difficulty, NormaliseSeed(seed))
    {
      hide Falses, Zeros, NormaliseSeed;
      Configure(rs, cs, mineCount, difficulty);
      ClearCounters(seed);
      assert Counters() == (0, 0, false, 0, NormaliseSeed(seed))
          && Settings() == (rs, cs, mineCount, old(marksEnabled), difficulty);
      ClearCells(rs * cs);
    }

    method MinesAround(r: int, c: int) returns (cnt: nat)
      requires Valid()
      ensures cnt == Tally(OthersUpto(Dim(rows, cols), r, c, 9), TrueAt(mine))
    {
      hide TrueAt, Tally, OthersUpto;
      ghost var d, s := Dim(rows, cols), TrueAt(mine);
      cnt := 0;
      OthersNone(d, r, c, s);
      for dr := -1 to 2
        invariant cnt == Tally(OthersUpto(d, r, c, 3 * (dr + 1)), s)
      {
        for dc := -1 to 2
          invariant cnt == Tally(OthersUpto(d, r, c, 3 * (dr + 1) + (dc + 1)), s)
        {
          OthersStep(d, r, c, dr, dc, s);
          if dr == 0 && dc == 0 { continue; }
          if InB(r + dr, c + dc) {
            d.IdxRange(r + dr, c + dc);
            if mine[Idx(r + dr, c + dc)] { cnt := cnt + 1; }
          }
        }
      }
    }

    method ComputeAdj()
      requires Valid() && cols > 0
      modifies this`adj
      ensures Valid() && adj == SimNumbers(Dim(rows, cols), mine)
    {
      hide TrueAt, Tally, OthersUpto, SimNumbers;
      ghost var d := Dim(rows, cols);
      ghost var want := SimNumbers(d, mine);
      for r := 0 to rows
        invariant Valid()
        invariant forall x: nat :: x < r * cols && x < |adj| ==> adj[x] == want[x]
      {
        MulStep(r, cols);
        for c := 0 to cols
          invariant Valid()
          invariant forall x: nat :: x < r * cols + c && x < |adj| ==> adj[x] == want[x]
        {
          var cnt := MinesAround(r, c);
          d.IdxRange(r, c);
          SimNumberAt(d, mine, r, c);
          adj := adj[Idx(r, c) := cnt];
        }
      }
      assert adj == want;
    }

    method CollectPool(sr: int, sc: int, tiny: bool) returns (pool: seq<nat>)
      requires Valid() && cols > 0
      ensures pool == PoolUpto(Dim(rows, cols), sr, sc, tiny, rows * cols)
    {
      hide PoolUpto, Spared;
      ghost var d := Dim(rows, cols);
      pool := [];
      PoolNone(d, sr, sc, tiny);
      for r := 0 to rows
        invariant pool == PoolUpto(d, sr, sc, tiny, r * cols)
      {
        MulStep(r, cols);
        for c := 0 to cols
          invariant pool == PoolUpto(d, sr, sc, tiny, r * cols + c)
        {
          d.IdxRange(r, c);
          PoolStep(d, sr, sc, tiny, r, c);
          var spared := if tiny then r == sr && c == sc else -1 <= r - sr <= 1 && -1 <= c - sc <= 1;
          if spared { continue; }
          pool := pool + [Idx(r, c)];
        }
      }
    }

    method DrawMines(cells: seq<nat>)
      requires Valid() && forall x :: x in cells ==> x < |mine|
      modifies this`rng, this`mine
      ensures Valid() && Drawn(mine, rng) == Draw(cells, old(mine), mines, old(rng))
    {
      hide Draw, Xorshift, Pick, Without;
      var pool, n, placed := cells, |cells|, 0;
      assert pool[..n] == cells;
      while placed < mines && n > 0
        invariant 0 <= n <= |pool| && placed <= mines && Valid()
        invariant forall x :: x in pool[..n] ==> x < |mine|
        invariant Draw(pool[..n], mine, mines - placed, rng) == Draw(cells, old(mine), mines, old(rng))
        decreases n
      {
        DrawStep(pool[..n], mine, mines - placed, rng);
        rng := Xorshift(rng);
        var k := Pick(rng, n);
        PickBelow(rng, n);
        var idx := pool[k];
        assert idx in pool[..n];
        ghost var before := pool[..n];
        pool := pool[k := pool[n - 1]];
        n := n - 1;
        WithoutIs(before, k, pool[..n]);
        if !mine[idx] {
          mine := mine[idx := true];
          placed := placed + 1;
        }
      }
      DrawEnd(pool[..n], mine, mines - placed, rng);
    }

    method PlaceMines(sr: int, sc: int)
      requires Valid() && InB(sr, sc)
      modifies this`rng, this`mine, this`adj
      ensures Valid() && cols > 0 && View() == SimPlaced(old(View()), sr, sc)
    {
      hide PoolUpto, Draw, SimNumbers;
      PoolBelow(View(), sr, sc);
      var pool := CollectPool(sr, sc, false);
      if |pool| < mines { pool := CollectPool(sr, sc, true); }
      DrawMines(pool);
      ComputeAdj();
    }

    method FirstClick(r: int, c: int)
      requires Valid() && InB(r, c)
      modifies this`started, this`rng, this`mine, this`adj
      ensures Valid() && View() == SimFirstClick(old(View()), r, c)
    {
      hide Draw, Pool, SimNumbers;
      if started { return; }
      started := true;
      PlaceMines(r, c);
    }

    method EndGameLose()
      requires Valid()
      modifies this`over, this`revealed
      ensures Valid() && View() == old(View()).Lost()
      ensures old(over) == 0 ==>
                over == -1 && forall x: nat :: x < |revealed| ==> revealed[x] == (old(revealed)[x] || mine[x])
    {
      if over != 0 { return; }
      ghost var b := View();
      over := -1;
      for i := 0 to rows * cols
        invariant over == -1 && Valid()
        invariant forall x: nat :: x < |revealed| ==> revealed[x] == (b.revealed[x] || (x < i && mine[x]))
      {
        if mine[i] { revealed := revealed[i := true]; }
      }
      assert revealed == b.Lost().revealed;
    }

    method FlagMines()
      requires Valid()
      modifies this`mark, this`flags
      ensures Valid() && View() == Marked(old(View()))
    {
      hide TrueAt, TrueUpto, FlaggedCells, Board.WinMarks;
      ghost var b := View();
      for i := 0 to rows * cols
        invariant Valid()
        invariant forall x: nat :: x < |mark| ==> mark[x] == if x < i && mine[x] then 1 else b.mark[x]
        invariant flags == b.flags + NewFlags(b.mine, b.mark, i)
      {
        if mine[i] && mark[i] != 1 {
          mark := mark[i := 1];
          flags := flags + 1;
        }
      }
      MarkedIs(b, View());
    }

    method EndGameWin()
      requires Valid()
      modifies this`over, this`mark, this`flags
      ensures Valid() && View() == old(View()).Won()
    {
      hide Marked, Board.Won, TrueAt, FlaggedCells;
      WonIs(View());
      if over != 0 { return; }
      over := 1;
      FlagMines();
    }

    /** Recursive reveal that skips the centre; the effect is the same. */
    method RevealCell(r: int, c: int)
      requires Valid() && View().Playing()
      modifies this`flags, this`openedCount, this`over, this`revealed, this`mark
      ensures Valid() && View() == old(View()).RevealAt(r, c) && View().Playing()
      decreases View().Size() - View().openedCount, 0
    {
      hide Board.Playing, Board.Lost, Board.Won, Board.RevealAt, Board.Reveal, Progress, Finish, Dim.Cells, Dim.Row,
        Dim.Col, Dim.InB, Dim.Idx;
      ghost var b := View();
      b.PlayingShaped();
      RevealAtCases(b, r, c);
      if !InB(r, c) { return; }
      var i := Idx(r, c);
      if revealed[i] || mark[i] == 1 { return; }
      if mine[i] {
        EndGameLose();
        return;
      }
      if over != 0 { return; }
      revealed := revealed[i := true];
      openedCount := openedCount + 1;
      ProgressStart(b, i);
      ProgressGrows(b, i, 0, View());
      if adj[i] == 0 { RevealOthersOf(r, c, b, i); }
      ghost var d := View();
      ProgressGrows(b, i, if b.adj[i] == 0 then 9 else 0, d);
      ProgressDone(b, i, if b.adj[i] == 0 then 9 else 0, d);
      FinishIs(d);
      if openedCount == rows * cols - mines { EndGameWin(); }
    }

    method RevealOthersOf(r: int, c: int, ghost b: Board, ghost i: nat)
      requires Valid() && b.dim.cols > 0 && i < |b.adj| && Progress(b, i, 0, View())
      requires b.adj[i] == 0 && b.dim.Row(i) == r && b.dim.Col(i) == c
      modifies this`flags, this`openedCount, this`over, this`revealed, this`mark
      ensures Valid() && Progress(b, i, 9, View())
      decreases View().Size() - View().openedCount, 1
    {
      hide Board.Playing, Board.RevealAt, Board.Reveal, Progress, Dim.Cells, Dim.Row, Dim.Col;
      for dr := -1 to 2
        invariant Valid() && Progress(b, i, 3 * (dr + 1), View()) && openedCount >= old(openedCount)
      {
        for dc := -1 to 2
          invariant Valid() && Progress(b, i, 3 * (dr + 1) + (dc + 1), View()) && openedCount >= old(openedCount)
        {
          ghost var d := View();
          ProgressGrows(b, i, 3 * (dr + 1) + (dc + 1), d);
          if dr == 0 && dc == 0 {
            CentreOpen(b, i, 4, d);
            ProgressStep(b, i, dr, dc, d, d);
            continue;
          }
          RevealCell(r + dr, c + dc);
          ProgressStep(b, i, dr, dc, d, View());
        }
      }
    }

    method Click(r: int, c: int)
      requires Valid() && Steady(View())
      modifies this`started, this`rng, this`flags, this`openedCount, this`over, this`mine, this`adj, this`revealed,
          this`mark
      ensures Valid() && View() == SimClick(old(View()), r, c)
    {
      hide Steady, Running, Board.Playing, Board.RevealAt, SimFirstClick;
      if !InB(r, c) { return; }
      ghost var b := View();
      SimFirstClickRunning(b, r, c);
      RunningPlaying(SimFirstClick(b, r, c));
      if !started { FirstClick(r, c); } else { SimStarted(b, r, c); }
      RevealCell(r, c);
    }

    method CycleMark(cell: nat)
      requires Valid() && cell < rows * cols
      modifies this`flags, this`mark
      ensures Valid() && View() == Rules.CycleMark(old(View()), cell)
    {
      if over != 0 { return; }
      if mark[cell] == 0 {
        mark := mark[cell := 1];
        flags := flags + 1;
      } else if mark[cell] == 1 {
        flags := flags - 1;
        mark := mark[cell := if marksEnabled then 2 else 0];
      } else {
        mark := mark[cell := 0];
      }
    }

    method Flag(r: int, c: int)
      requires Valid()
      modifies this`flags, this`mark
      ensures Valid() && View() == SimFlag(old(View()), r, c)
    {
      hide Rules.CycleMark;
      if InB(r, c) {
        ghost var d := Dim(rows, cols);
        d.IdxRange(r, c);
        CycleMark(Idx(r, c));
      }
    }

    method FlagsAround(r: int, c: int) returns (cnt: nat)
      requires Valid()
      ensures cnt == Tally(OthersUpto(Dim(rows, cols), r, c, 9), FlaggedCells(mark))
    {
      hide FlaggedCells, Tally, OthersUpto;
      ghost var d, s := Dim(rows, cols), FlaggedCells(mark);
      cnt := 0;
      OthersNone(d, r, c, s);
      for dr := -1 to 2
        invariant cnt == Tally(OthersUpto(d, r, c, 3 * (dr + 1)), s)
      {
        for dc := -1 to 2
          invariant cnt == Tally(OthersUpto(d, r, c, 3 * (dr + 1) + (dc + 1)), s)
        {
          OthersStep(d, r, c, dr, dc, s);
          if dr == 0 && dc == 0 { continue; }
          if InB(r + dr, c + dc) {
            d.IdxRange(r + dr, c + dc);
            if mark[Idx(r + dr, c + dc)] == 1 { cnt := cnt + 1; }
          }
        }
      }
    }

    method DoChord(cell: nat)
      requires Valid() && Running(View()) && cell < rows * cols && cols > 0
      modifies this`flags, this`openedCount, this`over, this`revealed, this`mark
      ensures Valid() && View() == SimChord(old(View()), cell)
    {
      hide Running, Board.RevealAt, Board.Playing, RevealOthers, OthersUpto, FlaggedCells, Tally;
      ghost var b := View();
      RunningPlaying(b);
      var r, c := cell / cols, cell % cols;
      var cnt := FlagsAround(r, c);
      if cnt == adj[cell] {
        RevealOthersNone(b, r, c);
        for dr := -1 to 2
          invariant Valid() && View() == RevealOthers(b, r, c, 3 * (dr + 1))
        {
          for dc := -1 to 2
            invariant Valid() && View() == RevealOthers(b, r, c, 3 * (dr + 1) + (dc + 1))
          {
            RevealOthersStep(b, r, c, dr, dc);
            if dr == 0 && dc == 0 { continue; }
            if InB(r + dr, c + dc) { RevealCell(r + dr, c + dc); }
          }
        }
      }
    }

    method Chord(r: int, c: int)
      requires Valid() && Running(View())
      modifies this`flags, this`openedCount, this`over, this`revealed, this`mark
      ensures Valid() && View() == SimChordAt(old(View()), r, c)
    {
      hide Running, SimChord;
      if InB(r, c) {
        ghost var d := Dim(rows, cols);
        d.IdxRange(r, c);
        DoChord(Idx(r, c));
      }
    }
  }

  // ---- one step at a time ----

  lemma {:induction false} OthersNone(d: Dim, r: int, c: int, s: set<nat>)
    ensures Tally(OthersUpto(d, r, c, 0), s) == 0
  {}

  lemma {:induction false} OthersStep(d: Dim, r: int, c: int, dr: int, dc: int, s: set<nat>)
    requires -1 <= dr <= 1 && -1 <= dc <= 1
    ensures var k := 3 * (dr + 1) + (dc + 1);
      Tally(OthersUpto(d, r, c, k + 1), s)
      == Tally(OthersUpto(d, r, c, k), s)
         + (if !(dr == 0 && dc == 0) && d.InB(r + dr, c + dc) && d.Idx(r + dr, c + dc) in s then 1 else 0)
  {
    hide Tally, OthersUpto, Dim.SquareUpto;
    var k := 3 * (dr + 1) + (dc + 1);
    assert k / 3 - 1 == dr && k % 3 - 1 == dc;
    OthersTallyStep(d, r, c, k, s);
  }

  lemma {:induction false} SimNumberAt(d: Dim, mine: seq<bool>, r: int, c: int)
    requires |mine| == d.Cells() && d.InB(r, c)
    ensures d.Idx(r, c) < d.Cells() && d.cols > 0
    ensures SimNumbers(d, mine)[d.Idx(r, c)] == Tally(OthersUpto(d, r, c, 9), TrueAt(mine))
  {
    hide OthersUpto, Tally, TrueAt;
    d.IdxRange(r, c);
  }

  ghost function SimPlaced(b: Board, r: int, c: int): Board
    requires b.Shaped() && b.dim.InB(r, c)
  {
    var drawn := DrawnFor(b, r, c);
    b.(mine := drawn.mine, adj := SimNumbers(b.dim, drawn.mine), rng := drawn.rng)
  }

  lemma {:induction false} SimStarted(b: Board, r: int, c: int)
    requires b.Shaped() && b.dim.InB(r, c) && b.started
    ensures SimFirstClick(b, r, c) == b
  {}

  lemma {:induction false} RevealOthersNone(b: Board, r: int, c: int)
    requires b.Shaped()
    ensures RevealOthers(b, r, c, 0) == b
  {}

  lemma {:induction false} RevealOthersStep(b: Board, r: int, c: int, dr: int, dc: int)
    requires Running(b) && -1 <= dr <= 1 && -1 <= dc <= 1 && b.Shaped()
    ensures var k := 3 * (dr + 1) + (dc + 1); var d := RevealOthers(b, r, c, k);
      && d.Playing() && d.dim == b.dim
      && RevealOthers(b, r, c, k + 1)
         == if !(dr == 0 && dc == 0) && b.dim.InB(r + dr, c + dc) then d.RevealAt(r + dr, c + dc) else d
  {
    hide Running, Board.Playing, Board.RevealAt, RevealOthers;
    var k := 3 * (dr + 1) + (dc + 1);
    assert k / 3 - 1 == dr && k % 3 - 1 == dc && (k == 4 <==> dr == 0 && dc == 0);
    RevealOthersRunning(b, r, c, k);
    var d := RevealOthers(b, r, c, k);
    RunningPlaying(d);
    RevealOthersNext(b, r, c, k);
    if !b.dim.InB(r + dr, c + dc) { OffBoard(d, r + dr, c + dc); }
  }

  lemma {:induction false} RevealOthersNext(b: Board, r: int, c: int, k: nat)
    requires b.Shaped() && k < 9
    ensures var d := RevealOthers(b, r, c, k);
      RevealOthers(b, r, c, k + 1) == if k == 4 then d else d.RevealAt(r + k / 3 - 1, c + k % 3 - 1)
  {
    hide Board.RevealAt;
  }

  lemma {:induction false} OffBoard(b: Board, r: int, c: int)
    requires b.Shaped() && !b.dim.InB(r, c)
    ensures b.RevealAt(r, c) == b
  {}
}
