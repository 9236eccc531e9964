/** The C engine: one board in arrays that are changed in place. */
module GameEngine {
  import opened Naturals
  import opened Tallies
  import opened Grid
  import opened Boards
  import opened Flood
  import opened Placement
  import opened Rules
  import opened Play
  import opened EngineSteps

  // Ending the game releases the pressed cell and the chord anchor; nothing else here touches them.
  ghost predicate LetGo(over: int, p: (int, int), over': int, p': (int, int)) {
    p' == if over' == over then p else (-1, -1)
  }

  lemma {:induction false} LetGoTwice(over: int, p: (int, int), over': int, p': (int, int), over'': int,
                                      p'': (int, int))
    requires LetGo(over, p, over', p') && LetGo(over', p', over'', p'')
    requires over' != over ==> over'' == over'
    ensures LetGo(over, p, over'', p'')
  {}

  lemma {:induction false} LetGoNot(over: int, p: (int, int))
    ensures LetGo(over, p, over, p)
  {}

  lemma {:induction false} OverStays(b: Board, r: int, c: int)
    requires b.Playing()
    ensures b.over != 0 ==> b.RevealAt(r, c) == b
  {
    hide Board.Playing, Board.Reveal;
    b.PlayingShaped();
    if b.dim.InB(r, c) {
      b.dim.IdxRange(r, c);
      RevealPlaying(b, b.dim.Idx(r, c));
    }
  }

  // Zeroed storage.
  method AllocBools(n: nat) returns (a: array<bool>)
    ensures fresh(a) && a.Length == n && a[..] == Falses(n)
  {
    a := new bool[n](_ => false);
  }

  method AllocNats(n: nat) returns (a: array<nat>)
    ensures fresh(a) && a.Length == n && a[..] == Zeros(n)
  {
    a := new nat[n](_ => 0);
  }

  class Game {
    var rows: nat
    var cols: nat
    var mines: nat
    var mine: array<bool>
    var adj: array<nat>
    var revealed: array<bool>
    var mark: array<nat>
    var flags: int
    var openedCount: int
    var started: bool
    var over: int
    var marksEnabled: bool
    var diff: nat
    var rng: bv64
    // Pointer state: pressed and anchored cell (or -1), buttons that are down.
    var pressed: int
    var anchor: int
    var face: bool
    var left: bool
    var right: bool

    ghost predicate Valid()
      reads this`rows, this`cols, this`mine, this`adj, this`revealed, this`mark
    {
      && mine.Length == adj.Length == revealed.Length == mark.Length == rows * cols
      && mine != revealed && adj != mark
    }

    ghost function View(): Board
      reads this`rows, this`cols, this`mines, this`mine, this`adj, this`revealed, this`mark, this`flags
      reads this`openedCount, this`started, this`over, this`marksEnabled, this`diff, this`rng, mine, adj, revealed, mark
    {
      Board.Board(Dim(rows, cols), mines, mine[..], adj[..], revealed[..], mark[..], flags, openedCount, started, over,
                  marksEnabled, diff, rng)
    }

    predicate InB(r: int, c: int)
      reads this`rows, this`cols
    {
      0 <= r < rows && 0 <= c < cols
    }

    function Idx(r: int, c: int): nat
      requires InB(r, c)
      reads this`rows, this`cols
    {
      r * cols + c
    }

    ghost function Pointers(): (int, int)
      reads this`pressed, this`anchor
    {
      (pressed, anchor)
    }

    method EndGameLose()
      requires Valid()
      modifies this`over, this`pressed, this`anchor, revealed
      ensures Valid() && View() == old(View()).Lost() && LetGo(old(over), old(Pointers()), over, Pointers())
      ensures old(over) == 0 ==> over == -1 && Pointers() == (-1, -1)
      ensures old(over) == 0 ==> forall x: nat :: x < revealed.Length ==> revealed[x] == (old(revealed[x]) || mine[x])
    {
      if over != 0 { return; }
      ghost var b := View();
      over := -1;
      for i := 0 to rows * cols
        invariant over == -1 && mine[..] == b.mine && adj[..] == b.adj && mark[..] == b.mark
        invariant forall x: nat :: x < revealed.Length ==> revealed[x] == (b.revealed[x] || (x < i && b.mine[x]))
      {
        if mine[i] { revealed[i] := true; }
      }
      pressed, anchor := -1, -1;
      assert revealed[..] == b.Lost().revealed;
    }

    method FlagMines()
      requires Valid()
      modifies this`flags, mark
      ensures Valid() && View() == Marked(old(View()))
    {
      hide TrueAt, TrueUpto, FlaggedCells, Board.WinMarks;
      ghost var b := View();
      for i := 0 to rows * cols
        invariant mine[..] == b.mine && adj[..] == b.adj && revealed[..] == b.revealed
        invariant forall x: nat :: x < mark.Length ==> mark[x] == if x < i && mine[x] then 1 else b.mark[x]
        invariant flags == b.flags + NewFlags(b.mine, b.mark, i)
      {
        if mine[i] && mark[i] != 1 {
          mark[i] := 1;
          flags := flags + 1;
        }
      }
      MarkedIs(b, View());
    }

    method EndGameWin()
      requires Valid()
      modifies this`over, this`flags, this`pressed, this`anchor, mark
      ensures Valid() && View() == old(View()).Won() && LetGo(old(over), old(Pointers()), over, Pointers())
    {
      hide Marked, Board.Won, TrueAt, FlaggedCells;
      WonIs(View());
      if over != 0 { return; }
      over := 1;
      FlagMines();
      pressed, anchor := -1, -1;
    }

    // The loop over the square of cell i, which has just been opened.
    method RevealAround(r: int, c: int, ghost b: Board, ghost i: nat, ghost p: (int, int))
      requires Valid() && Midway(b, i, 0, View(), p, Pointers())
      requires b.adj[i] == 0 && b.dim.Row(i) == r && b.dim.Col(i) == c
      modifies this`flags, this`openedCount, this`over, this`pressed, this`anchor, revealed, mark
      ensures Valid() && Midway(b, i, 9, View(), p, Pointers())
      decreases View().Size() - View().openedCount, 1
    {
      hide Board.Playing, Board.RevealAt, Board.Reveal, Midway, Dim.Cells, Dim.Row, Dim.Col, LetGo;
      for dr := -1 to 2
        invariant Valid() && Midway(b, i, 3 * (dr + 1), View(), p, Pointers()) && openedCount >= old(openedCount)
      {
        for dc := -1 to 2
          invariant Valid() && Midway(b, i, 3 * (dr + 1) + (dc + 1), View(), p, Pointers())
          invariant openedCount >= old(openedCount)
        {
          ghost var d, q := View(), Pointers();
          MidwayGrows(b, i, 3 * (dr + 1) + (dc + 1), d, p, q);
          RevealCell(r + dr, c + dc);
          MidwayStep(b, i, dr, dc, d, View(), p, q, Pointers());
        }
      }
    }

    /** Recursive reveal: exactly the reachable region is opened, even when the win falls deep in the recursion. */
    method RevealCell(r: int, c: int)
      requires Valid() && View().Playing()
      modifies this`flags, this`openedCount, this`over, this`pressed, this`anchor, revealed, mark
      ensures Valid() && View() == old(View()).RevealAt(r, c) && LetGo(old(over), old(Pointers()), over, Pointers())
      ensures View().Playing()
      decreases View().Size() - View().openedCount, 0
    {
      hide Board.Playing, Board.Lost, Board.Won, Board.RevealAt, Board.Reveal, Midway, Finish, Dim.Cells, Dim.Row,
        Dim.Col, Dim.InB, Dim.Idx, LetGo;
      ghost var b, p := View(), Pointers();
      b.PlayingShaped();
      RevealAtCases(b, r, c);
      LetGoNot(over, p);
      if !InB(r, c) { return; }
      var i := Idx(r, c);
      if revealed[i] || mark[i] == 1 { return; }
      if mine[i] {
        EndGameLose();
        return;
      }
      if over != 0 { return; }
      revealed[i] := true;
      openedCount := openedCount + 1;
      MidwayStart(b, i, p);
      if adj[i] == 0 { RevealAround(r, c, b, i, p); }
      ghost var d, q := View(), Pointers();
      MidwayDone(b, i, if b.adj[i] == 0 then 9 else 0, d, p, q);
      if openedCount == rows * cols - mines {
        EndGameWin();
        MidwayWon(b, i, d, p, q, View(), Pointers());
      }
    }

    // ---- mine placement ----

    method MinesAround(r: int, c: int) returns (cnt: nat)
      requires Valid()
      ensures cnt == Tally(Dim(rows, cols).Square(r, c), TrueAt(mine[..]))
    {
      hide TrueAt, Tally, Dim.SquareUpto;
      ghost var d, s := Dim(rows, cols), TrueAt(mine[..]);
      cnt := 0;
      TallyNone(d, r, c, s);
      for dr := -1 to 2
        invariant cnt == Tally(d.SquareUpto(r, c, 3 * (dr + 1)), s)
      {
        for dc := -1 to 2
          invariant cnt == Tally(d.SquareUpto(r, c, 3 * (dr + 1) + (dc + 1)), s)
        {
          SquareTallyStep(d, r, c, dr, dc, s);
          if InB(r + dr, c + dc) {
            d.IdxRange(r + dr, c + dc);
            if mine[Idx(r + dr, c + dc)] { cnt := cnt + 1; }
          }
        }
      }
    }

    method ComputeAdj()
      requires Valid()
      modifies adj
      ensures Valid() && View() == old(View()).(adj := Numbers(Dim(rows, cols), mine[..]))
    {
      hide TrueAt, Tally, Dim.SquareUpto, Dim.Around, Numbers;
      ghost var b, d := View(), Dim(rows, cols);
      ghost var want := Numbers(d, mine[..]);
      for r := 0 to rows
        invariant mark[..] == b.mark
        invariant forall x: nat :: x < r * cols && x < adj.Length ==> adj[x] == want[x]
      {
        MulStep(r, cols);
        for c := 0 to cols
          invariant mark[..] == b.mark
          invariant forall x: nat :: x < r * cols + c && x < adj.Length ==> adj[x] == want[x]
        {
          var cnt := MinesAround(r, c);
          d.IdxRange(r, c);
          NumberAt(d, mine[..], r, c);
          adj[Idx(r, c)] := cnt;
        }
      }
      assert adj[..] == want;
    }

    // The cells that may receive mines, row by row.
    method CollectPool(sr: int, sc: int, tiny: bool, pool: array<nat>) returns (n: nat)
      requires Valid() && InB(sr, sc) && cols > 0 && pool.Length == rows * cols && pool != adj && pool != mark
      modifies pool
      ensures n <= pool.Length && pool[..n] == PoolUpto(Dim(rows, cols), sr, sc, tiny, rows * cols)
    {
      hide PoolUpto, Spared;
      ghost var d := Dim(rows, cols);
      n := 0;
      PoolNone(d, sr, sc, tiny);
      for r := 0 to rows
        invariant n <= r * cols && n <= pool.Length && pool[..n] == PoolUpto(d, sr, sc, tiny, r * cols)
      {
        MulStep(r, cols);
        for c := 0 to cols
          invariant n <= r * cols + c && n <= pool.Length && pool[..n] == PoolUpto(d, sr, sc, tiny, r * cols + c)
        {
          d.IdxRange(r, c);
          PoolStep(d, sr, sc, tiny, r, c);
          var spared := if tiny then r == sr && c == sc else -1 <= r - sr <= 1 && -1 <= c - sc <= 1;
          if !spared {
            pool[n] := Idx(r, c);
            n := n + 1;
          }
        }
      }
    }

    method Next() returns (x: bv64)
      modifies this`rng
      ensures x == rng == Xorshift(old(rng))
    {
      hide Xorshift;
      x := Xorshift(rng);
      rng := x;
    }

    // Draw from the pool, closing each gap with the last entry.
    method DrawMines(pool: array<nat>, size: nat)
      requires Valid() && size <= pool.Length && pool != adj && pool != mark
      requires forall x :: x in pool[..size] ==> x < mine.Length
      modifies this`rng, mine, pool
      ensures Drawn(mine[..], rng) == Draw(old(pool[..size]), old(mine[..]), mines, old(rng))
    {
      hide Draw, Xorshift, Pick, Without;
      ghost var drawn := Draw(pool[..size], mine[..], mines, rng);
      var placed, n := 0, size;
      while placed < mines && n > 0
        invariant 0 <= n <= pool.Length
        invariant placed <= mines
        invariant forall x :: x in pool[..n] ==> x < mine.Length
        invariant Draw(pool[..n], mine[..], mines - placed, rng) == drawn
        decreases n
      {
        DrawStep(pool[..n], mine[..], mines - placed, rng);
        var x := Next();
        var k := Pick(x, n);
        PickBelow(x, n);
        var idx := pool[k];
        assert idx in pool[..n];
        ghost var before := pool[..n];
        n := n - 1;
        pool[k] := pool[n];
        WithoutIs(before, k, pool[..n]);
        if !mine[idx] {
          mine[idx] := true;
          placed := placed + 1;
        }
      }
      DrawEnd(pool[..n], mine[..], mines - placed, rng);
    }

    method PlaceMines(sr: int, sc: int)
      requires Valid() && InB(sr, sc)
      modifies this`rng, mine, adj
      ensures Valid() && cols > 0 && Placing(old(View()), sr, sc, View())
    {
      hide PoolUpto, Draw, Numbers;
      ghost var b := View();
      PoolBelow(b, sr, sc);
      var pool := new nat[rows * cols];
      var n := CollectPool(sr, sc, false, pool);
      if n < mines { n := CollectPool(sr, sc, true, pool); }
      DrawMines(pool, n);
      ComputeAdj();
    }

    // ---- actions ----

    method FirstClick(r: int, c: int)
      requires Valid() && InB(r, c)
      modifies this`started, this`rng, mine, adj
      ensures Valid() && View() == Rules.FirstClick(old(View()), r, c)
    {
      hide Draw, Pool, Numbers;
      if started { return; }
      started := true;
      PlaceMines(r, c);
    }

    method FlagsAround(r: int, c: int) returns (cnt: nat)
      requires Valid()
      ensures cnt == Tally(Dim(rows, cols).Square(r, c), FlaggedCells(mark[..]))
    {
      hide FlaggedCells, Tally, Dim.SquareUpto;
      ghost var d, s := Dim(rows, cols), FlaggedCells(mark[..]);
      cnt := 0;
      TallyNone(d, r, c, s);
      for dr := -1 to 2
        invariant cnt == Tally(d.SquareUpto(r, c, 3 * (dr + 1)), s)
      {
        for dc := -1 to 2
          invariant cnt == Tally(d.SquareUpto(r, c, 3 * (dr + 1) + (dc + 1)), s)
        {
          SquareTallyStep(d, r, c, dr, dc, s);
          if InB(r + dr, c + dc) {
            d.IdxRange(r + dr, c + dc);
            if mark[Idx(r + dr, c + dc)] == 1 { cnt := cnt + 1; }
          }
        }
      }
    }

    // Reveal the square around a chorded number, position by position.
    method RevealSquareAt(r: int, c: int, ghost b: Board, ghost p: (int, int))
      requires Valid() && Chording(b, r, c, 0, View(), p, Pointers())
      modifies this`flags, this`openedCount, this`over, this`pressed, this`anchor, revealed, mark
      ensures Valid() && Chording(b, r, c, 9, View(), p, Pointers())
    {
      hide Chording, Board.RevealAt, Board.Playing, LetGo;
      for dr := -1 to 2
        invariant Valid() && Chording(b, r, c, 3 * (dr + 1), View(), p, Pointers())
      {
        for dc := -1 to 2
          invariant Valid() && Chording(b, r, c, 3 * (dr + 1) + (dc + 1), View(), p, Pointers())
        {
          ghost var d, q := View(), Pointers();
          ChordingPlays(b, r, c, 3 * (dr + 1) + (dc + 1), d, p, q);
          OutsideStays(d, r + dr, c + dc, q);
          if InB(r + dr, c + dc) { RevealCell(r + dr, c + dc); }
          ChordingStep(b, r, c, dr, dc, d, p, q, View(), Pointers());
        }
      }
    }

    method DoChord(cell: nat)
      requires Valid() && Running(View()) && cell < rows * cols && cols > 0
      modifies this`flags, this`openedCount, this`over, this`pressed, this`anchor, revealed, mark
      ensures Valid() && View() == Chord(old(View()), cell)
      ensures LetGo(old(over), old(Pointers()), over, Pointers())
    {
      hide Running, Board.Playing, RevealSquare, FlaggedCells, Tally, Dim.SquareUpto, Chord;
      ghost var b, p := View(), Pointers();
      ChordCases(b, cell);
      var r, c := cell / cols, cell % cols;
      var cnt := FlagsAround(r, c);
      if cnt == adj[cell] {
        ChordingStart(b, r, c, p);
        RevealSquareAt(r, c, b, p);
      }
    }

    method CycleMark(cell: nat)
      requires Valid() && cell < rows * cols
      modifies this`flags, mark
      ensures Valid() && View() == Rules.CycleMark(old(View()), cell)
    {
      if over != 0 { return; }
      match mark[cell] {
        case 0 =>
          mark[cell] := 1;
          flags := flags + 1;
        case 1 =>
          flags := flags - 1;
          mark[cell] := if marksEnabled then 2 else 0;
        case _ =>
          mark[cell] := 0;
      }
    }

    ghost function Holding(): Hand
      reads this`pressed, this`anchor, this`face, this`left, this`right
    {
      Hand(pressed, anchor, face, left, right)
    }

    ghost function Now(): State
      reads this, mine, adj, revealed, mark
    {
      State(View(), Holding())
    }

    // Place the mines if the game has not started, then reveal.
    method StartAndReveal(r: int, c: int)
      requires Valid() && Steady(View()) && InB(r, c)
      modifies this`started, this`rng, this`flags, this`openedCount, this`over, this`pressed, this`anchor, mine, adj,
          revealed, mark
      ensures Valid() && Now() == Becomes(old(Now()), ScriptClick(old(View()), r, c))
    {
      hide Steady, Board.Playing, Board.RevealAt, Rules.FirstClick;
      ghost var b := View();
      StartedPlays(b, r, c);
      if !started { FirstClick(r, c); }
      RevealCell(r, c);
    }

    method ClickAt(r: int, c: int)
      requires Valid() && Good(Now())
      modifies this`started, this`rng, this`flags, this`openedCount, this`over, this`pressed, this`anchor, mine, adj,
          revealed, mark
      ensures Valid() && Now() == Step(old(Now()), Action.ClickAt(r, c))
    {
      hide Steady, ScriptClick, AnchorFits;
      if !InB(r, c) { return; }
      if over != 0 { return; }
      ghost var d := Dim(rows, cols);
      d.IdxRange(r, c);
      var cell := Idx(r, c);
      if revealed[cell] || mark[cell] == 1 { return; }
      StartAndReveal(r, c);
    }

    method MarkAt(r: int, c: int)
      requires Valid() && Good(Now())
      modifies this`flags, mark
      ensures Valid() && Now() == Step(old(Now()), Action.MarkAt(r, c))
    {
      hide Steady, Rules.CycleMark, AnchorFits;
      if !InB(r, c) { return; }
      ghost var d := Dim(rows, cols);
      d.IdxRange(r, c);
      if revealed[Idx(r, c)] { return; }
      CycleMark(Idx(r, c));
    }

    method ChordCell(r: int, c: int)
      requires Valid() && Good(Now())
      modifies this`flags, this`openedCount, this`over, this`pressed, this`anchor, revealed, mark
      ensures Valid() && Now() == Step(old(Now()), Action.ChordCell(r, c))
    {
      hide Steady, Running, Chord, AnchorFits;
      if !InB(r, c) { return; }
      ghost var b := View();
      b.dim.IdxRange(r, c);
      var cell := Idx(r, c);
      if revealed[cell] && adj[cell] > 0 {
        OpenStarted(b, cell);
        DoChord(cell);
      }
    }

    method ScriptClickAt(r: int, c: int)
      requires Valid() && Good(Now())
      modifies this`started, this`rng, this`flags, this`openedCount, this`over, this`pressed, this`anchor, mine, adj,
          revealed, mark
      ensures Valid() && Now() == Step(old(Now()), Action.ScriptClickAt(r, c))
    {
      hide Steady, AnchorFits, Board.RevealAt, Rules.FirstClick;
      if !InB(r, c) { return; }
      StartAndReveal(r, c);
    }

    // ---- pointer ----

    method ArmChord(cell: nat)
      requires Valid() && cell < rows * cols
      modifies this`pressed, this`anchor
      ensures Now() == old(Now()).(hand := Arm(old(Now()), cell))
    {
      anchor, pressed := -1, -1;
      if revealed[cell] && adj[cell] > 0 {
        anchor := cell;
      } else if !revealed[cell] && mark[cell] != 1 {
        pressed := cell;
      }
    }

    // A press on a cell: start and reveal unless the game is over.
    method OpenCell(cell: nat)
      requires Valid() && Steady(View()) && cell < rows * cols && cols > 0
      modifies this`started, this`rng, this`flags, this`openedCount, this`over, this`pressed, this`anchor, mine, adj,
          revealed, mark
      ensures Valid() && Now() == OpenAt(old(Now()), cell)
    {
      hide Steady, ScriptClick;
      ghost var b := View();
      SteadyShaped(b);
      b.dim.CellCoords(cell);
      var r, c := cell / cols, cell % cols;
      if over == 0 { StartAndReveal(r, c); }
    }

    method LeftButtonDown(cell: nat)
      requires Valid() && Good(Now()) && cell < rows * cols && cols > 0
      modifies this`left, this`started, this`rng, this`flags, this`openedCount, this`over, this`pressed, this`anchor,
        mine, adj, revealed, mark
      ensures Valid() && Now() == LeftDown(old(Now()), cell)
    {
      hide Steady, LeftAlone, AnchorFits, Arm;
      SteadyShaped(View());
      left := true;
      if right {
        ArmChord(cell);
      } else {
        PressAlone(cell);
      }
    }

    method PressAlone(cell: nat)
      requires Valid() && Good(Now()) && cell < rows * cols && cols > 0
      modifies this`started, this`rng, this`flags, this`openedCount, this`over, this`pressed, this`anchor,
        mine, adj, revealed, mark
      ensures Valid() && Now() == LeftAlone(old(Now()), cell)
    {
      hide Steady, OpenAt, AnchorFits;
      SteadyShaped(View());
      if !revealed[cell] && mark[cell] != 1 {
        OpenCell(cell);
        pressed := -1;
      } else if revealed[cell] && adj[cell] > 0 {
        pressed := cell;
      } else {
        pressed := -1;
      }
    }

    method RightButtonDown(cell: nat)
      requires Valid() && cell < rows * cols
      modifies this`right, this`flags, this`pressed, this`anchor, mark
      ensures Valid() && Now() == RightDown(old(Now()), cell)
    {
      hide Rules.CycleMark, Arm;
      right := true;
      if left {
        ArmChord(cell);
        return;
      }
      if !revealed[cell] {
        CycleMark(cell);
      } else if adj[cell] > 0 {
        pressed := cell;
      }
    }

    method PointerDown(onFace: bool, cell: int, rightButton: bool)
      requires Valid() && Good(Now()) && Admissible(Now(), Down(onFace, cell, rightButton))
      modifies this`face, this`left, this`right, this`started, this`rng, this`flags, this`openedCount, this`over,
          this`pressed,
        this`anchor, mine, adj, revealed, mark
      ensures Valid() && Now() == Step(old(Now()), Down(onFace, cell, rightButton))
    {
      hide Steady, LeftDown, RightDown, AnchorFits;
      GoodShape(Now());
      if onFace {
        face := true;
        pressed, anchor := -1, -1;
        return;
      }
      if cell < 0 {
        pressed, anchor := -1, -1;
        return;
      }
      if rightButton { RightButtonDown(cell); } else { LeftButtonDown(cell); }
    }

    // Letting go of one of two buttons completes the chord or the press.
    method CompleteBoth()
      requires Valid() && Good(Now())
      modifies this`started, this`rng, this`flags, this`openedCount, this`over, this`pressed, this`anchor, mine, adj,
          revealed, mark
      ensures Valid() && Now() == Release(old(Now()))
    {
      hide Steady, Running, Chord, OpenAt;
      GoodShape(Now());
      if left && right {
        if anchor != -1 {
          var cell := anchor;
          anchor, pressed := -1, -1;
          OpenStarted(View(), cell);
          DoChord(cell);
        } else if pressed != -1 {
          var cell := pressed;
          pressed := -1;
          OpenCell(cell);
        }
      }
    }

    ghost function Settings(): (nat, nat, nat, bool, nat)
      reads this`rows, this`cols, this`mines, this`marksEnabled, this`diff
    {
      (rows, cols, mines, marksEnabled, diff)
    }

    ghost function Counters(): (int, int, bool, int, bv64)
      reads this`flags, this`openedCount, this`started, this`over, this`rng
    {
      (flags, openedCount, started, over, rng)
    }

    ghost function Arrays(): (seq<bool>, seq<nat>, seq<bool>, seq<nat>)
      reads this`mine, this`adj, this`revealed, this`mark, mine, adj, revealed, mark
    {
      (mine[..], adj[..], revealed[..], mark[..])
    }

    method Configure(rs: nat, cs: nat, mineCount: nat, marks: bool, difficulty: nat)
      modifies this`rows, this`cols, this`mines, this`marksEnabled, this`diff
      ensures rows == rs && cols == cs && Settings() == (rs, cs, mineCount, marks, difficulty)
    {
      rows, cols, mines, marksEnabled, diff := rs, cs, mineCount, marks, difficulty;
    }

    method ClearCounters(seed: bv64)
      modifies this`flags, this`openedCount, this`started, this`over, this`rng
      ensures Counters() == (0, 0, false, 0, seed)
    {
      flags, openedCount, started, over, rng := 0, 0, false, 0, seed;
    }

    method AllocBoard()
      modifies this`mine, this`adj, this`revealed, this`mark
      ensures Valid() && fresh(mine) && fresh(adj) && fresh(revealed) && fresh(mark)
      ensures var n := Dim(rows, cols).Cells(); Arrays() == (Falses(n), Zeros(n), Falses(n), Zeros(n))
    {
      hide Falses, Zeros;
      var n := rows * cols;
      mine := AllocBools(n);
      adj := AllocNats(n);
      revealed := AllocBools(n);
      mark := AllocNats(n);
    }

    lemma {:induction false} FreshNow(dim: Dim, mineCount: nat, marks: bool, difficulty: nat, seed: bv64)
      requires Settings() == (dim.rows, dim.cols, mineCount, marks, difficulty) && Counters() == (0, 0, false, 0, seed)
      requires var n := dim.Cells(); Arrays() == (Falses(n), Zeros(n), Falses(n), Zeros(n))
      requires Holding() == NO_HAND
      ensures Now() == Play.Fresh(dim, mineCount, marks, difficulty, seed)
    {
      hide Falses, Zeros, Dim.Cells;
    }

    method Reset(rs: nat, cs: nat, mineCount: nat, marks: bool, difficulty: nat, seed: bv64)
      modifies this
      ensures Valid() && fresh(mine) && fresh(adj) && fresh(revealed) && fresh(mark)
      ensures Now() == Play.Fresh(Dim(rs, cs), mineCount, marks, difficulty, seed)
    {
      hide Falses, Zeros, Game.View, Game.Counters, Game.Holding, Game.Arrays, Game.Settings, Dim.Cells;
      Configure(rs, cs, mineCount, marks, difficulty);
      ClearCounters(seed);
      AllocBoard();
      ClearPointer();
      FreshNow(Dim(rs, cs), mineCount, marks, difficulty, seed);
    }

    method LiftButton(rightButton: bool)
      modifies this`left, this`right
      ensures Now() == old(Now()).(hand := if rightButton then old(Now()).hand.(right := false)
                                           else old(Now()).hand.(left := false))
    {
      hide Game.View;
      if rightButton { right := false; } else { left := false; }
    }

    method Restart(seed: bv64)
      requires diff < 3
      modifies this
      ensures Valid() && fresh(mine) && fresh(adj) && fresh(revealed) && fresh(mark)
      ensures var p := PresetOf(old(diff)); Now() == Play.Fresh(p.dim, p.mines, old(marksEnabled), old(diff), seed)
    {
      hide Blank, PresetOf, Game.View;
      var p := PresetOf(diff);
      Reset(p.dim.rows, p.dim.cols, p.mines, marksEnabled, diff, seed);
    }

    method ForgetPress()
      modifies this`face, this`pressed, this`anchor
      ensures Now() == old(Now()).(hand := Letting(old(Now()).hand).(face := false))
    {
      hide Game.View;
      face := false;
      pressed, anchor := -1, -1;
    }

    lemma {:induction false} NowFields()
      ensures Now().board.over == over && Now().board.diff == diff && Now().board.marksEnabled == marksEnabled
    {}

    // The button goes up; the face button, let go over itself, restarts a game that is not over.
    method ReleaseButton(wasFace: bool, rightButton: bool, seed: bv64)
      requires Valid() && (wasFace && over == 0 ==> diff < 3)
      modifies this
      ensures Valid()
      ensures !(wasFace && over == 0) || (fresh(mine) && fresh(adj) && fresh(revealed) && fresh(mark))
      ensures Now() == ButtonUp(old(Now()), wasFace, rightButton, seed)
    {
      hide Blank, PresetOf, Game.Now;
      NowFields();
      LiftButton(rightButton);
      if wasFace && over == 0 { Restart(seed); }
      ForgetPress();
    }

    method PointerUp(onFace: bool, rightButton: bool, seed: bv64)
      requires Valid() && Good(Now()) && Admissible(Now(), Up(onFace, rightButton, seed))
      modifies this, mine, adj, revealed, mark
      ensures Valid() && Now() == Step(old(Now()), Up(onFace, rightButton, seed))
    {
      hide Steady, Release, AnchorFits, ButtonUp;
      ReleaseKeeps(Now());
      var wasFace := face && onFace;
      CompleteBoth();
      ReleaseButton(wasFace, rightButton, seed);
    }

    method PointerCancel()
      modifies this`left, this`right, this`face, this`pressed, this`anchor
      ensures Now() == old(Now()).(hand := NO_HAND)
    {
      hide Game.View, Game.Holding;
      ClearPointer();
    }

    method ClearPointer()
      modifies this`left, this`right, this`face, this`pressed, this`anchor
      ensures Holding() == NO_HAND
    {
      left, right := false, false;
      pressed, anchor := -1, -1;
      face := false;
    }

    constructor (rs: nat, cs: nat, mineCount: nat, marks: bool, difficulty: nat, seed: bv64)
      ensures Valid() && fresh(mine) && fresh(adj) && fresh(revealed) && fresh(mark)
      ensures Now() == Play.Fresh(Dim(rs, cs), mineCount, marks, difficulty, seed)
    {
      mine, adj, revealed, mark := new bool[0], new nat[0], new bool[0], new nat[0];
      new;
      Reset(rs, cs, mineCount, marks, difficulty, seed);
    }
  }

  // Midway through the reveal of cell i, after k of the nine offsets.
  ghost predicate Midway(b: Board, i: nat, k: nat, c: Board, p: (int, int), q: (int, int)) {
    k <= 9 && b.dim.cols > 0 && i < |b.adj| && Progress(b, i, k, c) && LetGo(0, p, c.over, q)
  }

  lemma {:induction false} MidwayStart(b: Board, i: nat, p: (int, int))
    requires b.Playing() && b.over == 0 && i in b.Closed() && !b.mine[i]
    ensures b.dim.cols > 0 && i < |b.revealed|
    ensures Midway(b, i, 0, OpenOne(b, i), p, p)
  {
    hide Board.Judged, Progress, Board.Placed, Board.Counted, ClosedCells, Dim.Cells;
    ProgressStart(b, i);
  }

  lemma {:induction false} MidwayGrows(b: Board, i: nat, k: nat, c: Board, p: (int, int), q: (int, int))
    requires Midway(b, i, k, c, p, q)
    ensures c.Playing() && b.SameGame(c) && b.openedCount < c.openedCount <= c.Size()
  {
    hide Board.Playing, Progress;
    ProgressGrows(b, i, k, c);
  }

  lemma {:induction false} MidwayStep(b: Board, i: nat, dr: int, dc: int, c: Board, d: Board, p: (int, int),
                                      q: (int, int), q': (int, int))
    requires -1 <= dr <= 1 && -1 <= dc <= 1
    requires Midway(b, i, 3 * (dr + 1) + (dc + 1), c, p, q) && b.adj[i] == 0
    requires d == c.RevealAt(b.dim.Row(i) + dr, b.dim.Col(i) + dc) && LetGo(c.over, q, d.over, q')
    ensures Midway(b, i, 3 * (dr + 1) + (dc + 1) + 1, d, p, q') && c.openedCount <= d.openedCount
  {
    hide Board.Playing, Extends, MarksFit, SquareOpen, Board.RevealAt, Dim.Row, Dim.Col;
    ProgressGrows(b, i, 3 * (dr + 1) + (dc + 1), c);
    ProgressStep(b, i, dr, dc, c, d);
    OverStays(c, b.dim.Row(i) + dr, b.dim.Col(i) + dc);
    LetGoTwice(0, p, c.over, q, d.over, q');
  }

  lemma {:induction false} MidwayDone(b: Board, i: nat, k: nat, c: Board, p: (int, int), q: (int, int))
    requires Midway(b, i, k, c, p, q) && (b.adj[i] == 0 ==> k == 9)
    ensures b.SameGame(c) && LetGo(0, p, c.over, q)
    ensures b.Reveal(i) == (if c.openedCount == c.Size() - c.mines then c.Won() else c)
  {
    hide Board.Playing, Progress, Board.Reveal;
    ProgressGrows(b, i, k, c);
    ProgressDone(b, i, k, c);
  }

  lemma {:induction false} MidwayWon(b: Board, i: nat, c: Board, p: (int, int), q: (int, int), d: Board, q': (int, int))
    requires c.Shaped() && d == c.Won() && LetGo(0, p, c.over, q) && LetGo(c.over, q, d.over, q')
    ensures LetGo(0, p, d.over, q')
  {}

  // ---- counting and drawing, one step at a time ----

  lemma {:induction false} TallyNone(d: Dim, r: int, c: int, s: set<nat>)
    ensures Tally(d.SquareUpto(r, c, 0), s) == 0
  {}

  lemma {:induction false} SquareTallyStep(d: Dim, r: int, c: int, dr: int, dc: int, s: set<nat>)
    requires -1 <= dr <= 1 && -1 <= dc <= 1
    ensures var k := 3 * (dr + 1) + (dc + 1);
      Tally(d.SquareUpto(r, c, k + 1), s)
      == Tally(d.SquareUpto(r, c, k), s) + (if d.InB(r + dr, c + dc) && d.Idx(r + dr, c + dc) in s then 1 else 0)
  {
    hide Dim.SquareUpto;
    var k := 3 * (dr + 1) + (dc + 1);
    OffsetStep(d, r, c, dr, dc);
    if d.InB(r + dr, c + dc) {
      TallySnoc(d.SquareUpto(r, c, k), d.Idx(r + dr, c + dc), s);
    } else {
      assert d.SquareUpto(r, c, k) + [] == d.SquareUpto(r, c, k);
    }
  }

  lemma {:induction false} NumberAt(d: Dim, mine: seq<bool>, r: int, c: int)
    requires |mine| == d.Cells() && d.InB(r, c)
    ensures d.Idx(r, c) < d.Cells() && Numbers(d, mine)[d.Idx(r, c)] == Tally(d.Square(r, c), TrueAt(mine))
  {
    hide Dim.SquareUpto, Tally, TrueAt;
    d.IdxRange(r, c);
  }

  lemma {:induction false} StartedPlays(b: Board, r: int, c: int)
    requires Steady(b) && b.dim.InB(r, c)
    ensures Rules.FirstClick(b, r, c).Playing() && Rules.FirstClick(b, r, c).over == b.over
    ensures b.started ==> Rules.FirstClick(b, r, c) == b
  {
    hide Running, Rules.FirstClick;
    if b.started {
      StartedStays(b, r, c);
      RunningPlaying(b);
    } else {
      FirstClickRunning(b, r, c);
      RunningPlaying(Rules.FirstClick(b, r, c));
    }
  }

  // ---- chords ----

  lemma {:induction false} ChordCases(b: Board, cell: nat)
    requires Running(b) && cell < b.Size() && b.dim.cols > 0
    ensures b.Shaped()
    ensures var r, c := cell / b.dim.cols, cell % b.dim.cols;
      var ready := Tally(b.dim.Square(r, c), FlaggedCells(b.mark)) == b.adj[cell];
      Chord(b, cell) == if ready then RevealSquare(b, r, c, 9) else b
  {
    hide Board.Playing, RevealSquare, Tally, FlaggedCells, Dim.SquareUpto;
    RunningPlaying(b);
  }

  // After revealing the first k positions of a square on the running board b.
  ghost predicate Chording(b: Board, r: int, c: int, k: nat, d: Board, p: (int, int), q: (int, int)) {
    Running(b) && b.Shaped() && k <= 9 && d == RevealSquare(b, r, c, k) && LetGo(b.over, p, d.over, q)
  }

  lemma {:induction false} OutsideStays(d: Board, r: int, c: int, q: (int, int))
    requires d.Playing()
    ensures d.Shaped() && (d.dim.InB(r, c) || d.RevealAt(r, c) == d) && LetGo(d.over, q, d.over, q)
  {
    hide Board.Placed, Board.Counted, Board.Judged;
  }

  lemma {:induction false} ChordingStart(b: Board, r: int, c: int, p: (int, int))
    requires Running(b)
    ensures Chording(b, r, c, 0, b, p, p)
  {
    hide Board.Playing, Running;
    RunningPlaying(b);
  }

  lemma {:induction false} ChordingPlays(b: Board, r: int, c: int, k: nat, d: Board, p: (int, int), q: (int, int))
    requires Chording(b, r, c, k, d, p, q)
    ensures d.Playing() && d.dim == b.dim
  {
    hide Running, Board.Playing, RevealSquare;
    RevealSquareRunning(b, r, c, k);
    RunningPlaying(d);
  }

  lemma {:induction false} ChordingStep(b: Board, r: int, c: int, dr: int, dc: int, d: Board, p: (int, int),
                                        q: (int, int), e: Board, q': (int, int))
    requires -1 <= dr <= 1 && -1 <= dc <= 1 && Chording(b, r, c, 3 * (dr + 1) + (dc + 1), d, p, q) && d.Shaped()
    requires e == d.RevealAt(r + dr, c + dc) && LetGo(d.over, q, e.over, q')
    ensures Chording(b, r, c, 3 * (dr + 1) + (dc + 1) + 1, e, p, q')
  {
    hide Running, Board.Playing, Board.RevealAt;
    var k := 3 * (dr + 1) + (dc + 1);
    assert k / 3 - 1 == dr && k % 3 - 1 == dc;
    RevealSquareRunning(b, r, c, k);
    RevealAtRunning(d, r + dr, c + dc);
    if b.over != 0 { RevealSquareRunning(b, r, c, k + 1); }
    LetGoTwice(b.over, p, d.over, q, e.over, q');
  }

  // d is b with the mines drawn for a first click at (r, c).
  ghost predicate Placing(b: Board, r: int, c: int, d: Board)
    requires b.Shaped() && b.dim.InB(r, c)
  {
    var drawn := DrawnFor(b, r, c);
    d == b.(mine := drawn.mine, adj := Numbers(b.dim, drawn.mine), rng := drawn.rng)
  }
}
