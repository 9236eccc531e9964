/** The C engine and the simulator agree, move by move, on every guarded script. */
module Parity {
  import opened Tallies
  import opened Grid
  import opened Boards
  import opened Placement
  import opened Rules
  import opened SimRules
  import SimEngine

  // Equal in everything except the numbers stored under mines.
  ghost predicate Agree(b: Board, p: Board) {
    && b.Shaped() && |p.adj| == |b.adj| && p == b.(adj := p.adj)
    && forall x: nat :: x < b.Size() && !b.mine[x] ==> p.adj[x] == b.adj[x]
  }

  lemma {:induction false} AgreeSym(b: Board, p: Board)
    requires Agree(b, p)
    ensures Agree(p, b)
  {
    assert b == p.(adj := b.adj);
  }

  // Only safe cells need correct numbers.
  lemma {:induction false} AgreePlaced(b: Board, p: Board)
    requires Agree(b, p) && b.Placed()
    ensures p.Placed()
  {
    hide Dim.Around, Dim.Cells, TrueAt, Tally;
    forall x: nat ensures Numbered(p.dim, p.mine, p.adj, x) {
      assert Numbered(b.dim, b.mine, b.adj, x);
    }
  }

  lemma {:induction false} AgreeRunning(b: Board, p: Board)
    requires Agree(b, p) && Running(b)
    ensures Running(p)
  {
    hide Dim.Cells, PlacedOn, TrueAt, OpenSafe, FlaggedCells;
    AgreePlaced(b, p);
  }

  lemma {:induction false} AgreeSteady(b: Board, p: Board)
    requires Agree(b, p) && Steady(b)
    ensures Steady(p)
  {
    hide Running, TrueAt, FlaggedCells, Dim.Cells;
    if b.started { AgreeRunning(b, p); }
  }

  // ---- reveal ----

  // On the way from a safe closed cell every cell is safe.
  lemma {:induction false} SafeWay(b: Board, way: seq<nat>, k: nat)
    requires b.Playing() && b.Way(way) && way[0] in b.Closed() && !b.mine[way[0]] && k < |way|
    ensures way[k] < b.Size() && !b.mine[way[k]]
  {
    hide Dim.Around, Dim.Cells, PlacedOn, TrueAt, ClosedCells, Board.Counted, Board.Judged;
    var part := way[..k + 1];
    forall j | 0 <= j < |part| - 1 ensures b.Spreads(part[j], part[j + 1]) {
      assert b.Spreads(way[j], way[j + 1]);
    }
    var s := b.Closed() - b.MineSet();
    forall x, y | x in s && b.Spreads(x, y) ensures y in s { ZeroIsSafe(b, x, y); }
    WayStays(b, part, s);
  }

  lemma {:induction false} WayAgrees(b: Board, p: Board, way: seq<nat>)
    requires Agree(b, p) && b.Playing() && b.Way(way) && way[0] in b.Closed() && !b.mine[way[0]]
    ensures p.Shaped() && p.Way(way)
  {
    hide Dim.Around, Dim.Cells, PlacedOn, ClosedCells, Board.Counted, Board.Judged;
    forall k | 0 <= k < |way| - 1 ensures p.Spreads(way[k], way[k + 1]) {
      SafeWay(b, way, k);
      assert b.Spreads(way[k], way[k + 1]);
    }
  }

  lemma {:induction false} RegionWithin(b: Board, p: Board, i: nat)
    requires Agree(b, p) && b.Playing() && i in b.Closed() && !b.mine[i]
    ensures p.Shaped() && i < p.Size() && b.Region(i) <= p.Region(i)
  {
    hide Dim.Around, Dim.Cells, PlacedOn, ClosedCells, Board.Counted, Board.Judged, Board.Spreads;
    forall x | x in b.Region(i) ensures x in p.Region(i) {
      var way :| b.Way(way) && way[0] == i && way[|way| - 1] == x;
      WayAgrees(b, p, way);
    }
  }

  lemma {:induction false} RegionAgrees(b: Board, p: Board, i: nat)
    requires Agree(b, p) && b.Playing() && p.Playing() && i in b.Closed() && !b.mine[i]
    ensures i < p.Size() && b.Region(i) == p.Region(i)
  {
    hide Board.Region, Board.Placed, Board.Counted, Board.Judged, ClosedCells, Dim.Cells;
    AgreeSym(b, p);
    RegionWithin(b, p, i);
    RegionWithin(p, b, i);
  }

  lemma {:induction false} AgreeReveal(b: Board, p: Board, i: nat)
    requires Agree(b, p) && b.Playing() && p.Playing() && i < b.Size()
    ensures i < p.Size() && Agree(b.Reveal(i), p.Reveal(i))
  {
    hide Board.Region, Board.Placed, Board.Counted, Board.Judged, ClosedCells, Dim.Cells, TrueAt, FlaggedCells;
    if i in b.Closed() && !b.mine[i] {
      RegionAgrees(b, p, i);
      AgreeFlooded(b, p, i);
      AgreeWon(b.Flooded(i), p.Flooded(i));
    }
  }

  lemma {:induction false} AgreeFlooded(b: Board, p: Board, i: nat)
    requires Agree(b, p) && p.Shaped() && i < b.Size() && b.Region(i) == p.Region(i)
    ensures Agree(b.Flooded(i), p.Flooded(i))
  {
    hide Board.Region, Dim.Cells;
    assert b.Flooded(i).revealed == p.Flooded(i).revealed;
  }

  lemma {:induction false} AgreeWon(b: Board, p: Board)
    requires Agree(b, p)
    ensures p.Shaped() && Agree(b.Won(), p.Won())
  {
    hide Dim.Cells, TrueAt, FlaggedCells;
    assert b.WinMarks() == p.WinMarks();
  }

  lemma {:induction false} AgreeRevealAt(b: Board, p: Board, r: int, c: int)
    requires Agree(b, p) && Running(b)
    ensures p.Shaped() && Agree(b.RevealAt(r, c), p.RevealAt(r, c))
  {
    hide Running, Board.Playing, Board.Reveal, Dim.Cells;
    AgreeRunning(b, p);
    RunningPlaying(b);
    RunningPlaying(p);
    if b.dim.InB(r, c) {
      b.dim.IdxRange(r, c);
      AgreeReveal(b, p, b.dim.Idx(r, c));
    }
  }

  // ---- chord ----

  // Revealing an open centre does nothing, so skipping it changes nothing.
  lemma {:induction false} AgreeSquare(b: Board, p: Board, r: int, c: int, k: nat)
    requires Agree(b, p) && Running(b) && k <= 9 && b.dim.InB(r, c)
    requires b.dim.Idx(r, c) < b.Size() && b.revealed[b.dim.Idx(r, c)]
    ensures p.Shaped() && Agree(RevealSquare(b, r, c, k), RevealOthers(p, r, c, k))
  {
    hide Running, Board.Playing, Board.RevealAt, Agree;
    AgreeShape(b, p);
    if k > 0 {
      AgreeSquare(b, p, r, c, k - 1);
      var d := RevealSquare(b, r, c, k - 1);
      RevealSquareRunning(b, r, c, k - 1);
      AgreeRevealAt(d, RevealOthers(p, r, c, k - 1), r + (k - 1) / 3 - 1, c + (k - 1) % 3 - 1);
      if k - 1 == 4 { OpenStays(d, r, c); }
    }
  }

  lemma {:induction false} AgreeShape(b: Board, p: Board)
    requires Agree(b, p)
    ensures b.Shaped() && p.Shaped() && p.dim == b.dim && p.mines == b.mines && p.mine == b.mine && p.rng == b.rng
    ensures p.revealed == b.revealed && p.mark == b.mark && p.over == b.over && p.started == b.started
    ensures p.marksEnabled == b.marksEnabled
  {}

  lemma {:induction false} OpenStays(b: Board, r: int, c: int)
    requires b.Shaped() && b.dim.InB(r, c) && b.dim.Idx(r, c) < b.Size() && b.revealed[b.dim.Idx(r, c)]
    ensures b.RevealAt(r, c) == b
  {
    hide Dim.Cells, Dim.Idx;
  }

  // An open cell of a game in progress is safe and unflagged, so both engines count alike.
  lemma {:induction false} AgreeReady(b: Board, p: Board, cell: nat)
    requires Agree(b, p) && Running(b) && b.over == 0 && cell < b.Size() && b.revealed[cell]
    ensures b.dim.cols > 0 && p.Shaped() && cell < p.Size()
    ensures ChordReady(b, cell) <==> SimChordReady(p, cell)
    ensures b.adj[cell] == p.adj[cell]
  {
    hide Dim.Around, Dim.Cells, Others, PlacedOn, TrueAt, FlaggedCells, Tally, Board.Counted;
    AroundTally(b.dim, cell, b.Flagged());
  }

  lemma {:induction false} AgreeChord(b: Board, p: Board, cell: nat)
    requires Agree(b, p) && Running(b) && b.over == 0 && cell < b.Size() && b.revealed[cell]
    ensures b.dim.cols > 0 && p.Shaped() && cell < p.Size()
    ensures Agree(Rules.Chord(b, cell), SimChord(p, cell))
  {
    hide Running, Board.Playing, RevealSquare, RevealOthers, ChordReady, SimChordReady, Dim.Cells;
    AgreeReady(b, p, cell);
    b.dim.CellCoords(cell);
    AgreeSquare(b, p, b.dim.Row(cell), b.dim.Col(cell), 9);
  }

  // ---- scripts ----

  datatype Command =
    | New(dim: Dim, mines: nat, diff: nat, seed: bv64)
    | Click(r: int, c: int)
    | Flag(r: int, c: int)
    | Chord(r: int, c: int)

  // The Windows engine replaces a zero seed as the simulator does; the Linux engine takes it as it is.
  function EngineSeed(fallback: bool, seed: bv64): bv64 {
    if fallback then SimEngine.NormaliseSeed(seed) else seed
  }

  ghost function EngineStep(fallback: bool, b: Board, cmd: Command): Board
    requires b.Shaped()
  {
    match cmd
    case New(dim, mines, diff, seed) => Blank(dim, mines, b.marksEnabled, diff, EngineSeed(fallback, seed))
    case Click(r, c) => ScriptClick(b, r, c)
    case Flag(r, c) => Mark(b, r, c)
    case Chord(r, c) => ChordAt(b, r, c)
  }

  // A guarded script flags closed cells and chords open numbers only.
  ghost function SimStep(p: Board, cmd: Command): Board
    requires p.Shaped()
  {
    match cmd
    case New(dim, mines, diff, seed) => Blank(dim, mines, p.marksEnabled, diff, SimEngine.NormaliseSeed(seed))
    case Click(r, c) => SimClick(p, r, c)
    case Flag(r, c) => if Shows(p, r, c) then p else SimFlag(p, r, c)
    case Chord(r, c) => if ShowsNumber(p, r, c) then SimChordAt(p, r, c) else p
  }

  ghost predicate Shows(p: Board, r: int, c: int)
    requires p.Shaped()
  {
    p.dim.InB(r, c) && (p.dim.IdxRange(r, c); p.revealed[p.dim.Idx(r, c)])
  }

  ghost predicate ShowsNumber(p: Board, r: int, c: int)
    requires p.Shaped()
  {
    Shows(p, r, c) && (p.dim.IdxRange(r, c); p.adj[p.dim.Idx(r, c)] > 0)
  }

  ghost predicate Playable(fallback: bool, cmd: Command) {
    cmd.New? ==> cmd.mines < cmd.dim.Cells() && (fallback || cmd.seed != 0)
  }

  lemma {:induction false} AgreeSelf(b: Board)
    requires b.Shaped()
    ensures Agree(b, b)
  {}

  /** Without the fallback the engines start alike exactly when the seed is not zero. */
  lemma {:induction false} SeedsAgree(b: Board, p: Board, dim: Dim, mines: nat, diff: nat, seed: bv64)
    requires Agree(b, p)
    ensures p.Shaped()
    ensures Agree(EngineStep(true, b, New(dim, mines, diff, seed)), SimStep(p, New(dim, mines, diff, seed)))
    ensures Agree(EngineStep(false, b, New(dim, mines, diff, seed)), SimStep(p, New(dim, mines, diff, seed)))
       <==> seed != 0
  {
    hide Falses, Zeros, Dim.Cells;
    AgreeSelf(EngineStep(true, b, New(dim, mines, diff, seed)));
  }

  lemma {:induction false} NumbersAgree(d: Dim, mine: seq<bool>, x: nat)
    requires d.cols > 0 && |mine| == d.Cells() && x < |mine| && !mine[x]
    ensures Numbers(d, mine)[x] == SimNumbers(d, mine)[x]
  {
    hide Dim.Around, Dim.Cells, Others, Tally, TrueAt, Numbers, SimNumbers;
    AroundTally(d, x, TrueAt(mine));
  }

  lemma {:induction false} AgreeFirstClick(b: Board, p: Board, r: int, c: int)
    requires Agree(b, p) && b.dim.InB(r, c)
    ensures p.Shaped() && Agree(FirstClick(b, r, c), SimFirstClick(p, r, c))
  {
    hide Dim.Around, Dim.Cells, Draw, Pool, Numbers, SimNumbers;
    if !b.started {
      var e, q := FirstClick(b, r, c), SimFirstClick(p, r, c);
      b.dim.IdxRange(r, c);
      forall x: nat | x < e.Size() && !e.mine[x] ensures q.adj[x] == e.adj[x] {
        NumbersAgree(b.dim, e.mine, x);
      }
    }
  }

  lemma {:induction false} AgreeClick(b: Board, p: Board, r: int, c: int)
    requires Agree(b, p) && Steady(b)
    ensures p.Shaped() && Agree(ScriptClick(b, r, c), SimClick(p, r, c))
  {
    hide Running, Rules.Fresh, Board.RevealAt, FirstClick, SimFirstClick, Dim.Cells;
    if b.dim.InB(r, c) {
      AgreeFirstClick(b, p, r, c);
      if b.started { StartedStays(b, r, c); } else { FirstClickRunning(b, r, c); }
      AgreeRevealAt(FirstClick(b, r, c), SimFirstClick(p, r, c), r, c);
    }
  }

  lemma {:induction false} AgreeCycleMark(b: Board, p: Board, cell: nat)
    requires Agree(b, p) && cell < b.Size()
    ensures p.Shaped() && Agree(CycleMark(b, cell), CycleMark(p, cell))
  {
    hide Dim.Cells, CycleMark;
    CycleMarkIs(b, cell);
    CycleMarkIs(p, cell);
  }

  lemma {:induction false} AgreeFlag(b: Board, p: Board, r: int, c: int)
    requires Agree(b, p)
    ensures p.Shaped() && Agree(EngineStep(true, b, Flag(r, c)), SimStep(p, Flag(r, c)))
  {
    hide Dim.Cells, CycleMark, Agree;
    AgreeShape(b, p);
    if b.dim.InB(r, c) {
      b.dim.IdxRange(r, c);
      AgreeCycleMark(b, p, b.dim.Idx(r, c));
    }
  }

  lemma {:induction false} AgreeChordAt(b: Board, p: Board, r: int, c: int)
    requires Agree(b, p) && Steady(b)
    ensures p.Shaped() && Agree(EngineStep(true, b, Command.Chord(r, c)), SimStep(p, Command.Chord(r, c)))
  {
    hide Steady, Running, Rules.Chord, SimChord, Dim.Cells, Agree;
    AgreeShape(b, p);
    if Shows(b, r, c) {
      b.dim.IdxRange(r, c);
      var cell := b.dim.Idx(r, c);
      OpenStarted(b, cell);
      if b.over == 0 {
        AgreeReady(b, p, cell);
        AgreeChord(b, p, cell);
      } else {
        // A finished game does not change, whatever the number under a shown mine.
        ChordSteady(b, cell);
        AgreeSteady(b, p);
        SimChordOver(p, cell);
      }
    }
  }

  lemma {:induction false} SimChordOver(p: Board, cell: nat)
    requires Steady(p) && p.over != 0 && cell < p.Size()
    ensures p.Shaped() && p.dim.cols > 0 && SimChord(p, cell) == p
  {
    hide RevealOthers, SimChordReady, Board.Playing;
    p.dim.CellCoords(cell);
    RevealOthersRunning(p, p.dim.Row(cell), p.dim.Col(cell), 9);
  }

  /** One command keeps the engines in agreement: same mines, open cells, marks, counts, verdict and
      generator state, and the same numbers on every safe cell. */
  lemma {:induction false} StepsAgree(fallback: bool, b: Board, p: Board, cmd: Command)
    requires Agree(b, p) && Steady(b) && Playable(fallback, cmd)
    ensures b.Shaped() && p.Shaped()
    ensures Agree(EngineStep(fallback, b, cmd), SimStep(p, cmd)) && Steady(EngineStep(fallback, b, cmd))
  {
    hide Steady, ScriptClick, SimClick, Mark, SimFlag, ChordAt, SimChordAt, Agree, Shows, ShowsNumber, Blank;
    AgreeShape(b, p);
    match cmd
    case New(dim, mines, diff, seed) =>
      SeedsAgree(b, p, dim, mines, diff, seed);
      BlankSteady(dim, mines, b.marksEnabled, diff, EngineSeed(fallback, seed));
    case Click(r, c) =>
      AgreeClick(b, p, r, c);
      ScriptClickSteady(b, r, c);
    case Flag(r, c) =>
      AgreeFlag(b, p, r, c);
      MarkSteady(b, r, c);
    case Chord(r, c) =>
      AgreeChordAt(b, p, r, c);
      ChordAtSteady(b, r, c);
  }

  ghost function EngineRun(fallback: bool, b: Board, script: seq<Command>): Board
    requires Steady(b) && forall k :: 0 <= k < |script| ==> Playable(fallback, script[k])
    decreases |script|
  {
    SteadyShaped(b);
    if script == [] then b
    else
      AgreeSelfSteps(fallback, b, script[0]);
      EngineRun(fallback, EngineStep(fallback, b, script[0]), script[1..])
  }

  lemma {:induction false} AgreeSelfSteps(fallback: bool, b: Board, cmd: Command)
    requires Steady(b) && Playable(fallback, cmd)
    ensures b.Shaped() && Steady(EngineStep(fallback, b, cmd))
  {
    hide Steady, EngineStep, SimStep;
    SteadyShaped(b);
    AgreeSelf(b);
    StepsAgree(fallback, b, b, cmd);
  }

  ghost function SimRun(p: Board, script: seq<Command>): (q: Board)
    requires p.Shaped()
    ensures q.Shaped()
    decreases |script|
  {
    if script == [] then p
    else
      SimStepShaped(p, script[0]);
      SimRun(SimStep(p, script[0]), script[1..])
  }

  lemma {:induction false} RevealAtShaped(b: Board, r: int, c: int)
    requires b.Shaped()
    ensures b.RevealAt(r, c).Shaped()
  {
    hide Dim.Cells, Board.Region, TrueAt, FlaggedCells;
    if b.dim.InB(r, c) { b.dim.IdxRange(r, c); }
  }

  lemma {:induction false} SimStepShaped(p: Board, cmd: Command)
    requires p.Shaped()
    ensures SimStep(p, cmd).Shaped()
  {
    hide Dim.Cells, SimFirstClick, Board.RevealAt, RevealOthers, Blank;
    match cmd
    case New(_, _, _, _) =>
    case Click(r, c) =>
      if p.dim.InB(r, c) { RevealAtShaped(SimFirstClick(p, r, c), r, c); }
    case Flag(r, c) =>
      if p.dim.InB(r, c) { p.dim.IdxRange(r, c); }
    case Chord(r, c) =>
      if p.dim.InB(r, c) { p.dim.IdxRange(r, c); }
  }

  /** Every guarded script leaves both engines in agreement after each of its commands. */
  lemma {:induction false} ScriptsAgree(fallback: bool, b: Board, p: Board, script: seq<Command>)
    requires Agree(b, p) && Steady(b) && forall k :: 0 <= k < |script| ==> Playable(fallback, script[k])
    ensures p.Shaped() && Agree(EngineRun(fallback, b, script), SimRun(p, script))
    decreases |script|
  {
    hide Steady, EngineStep, SimStep, Agree, Playable;
    AgreeShape(b, p);
    if script != [] {
      StepsAgree(fallback, b, p, script[0]);
      ScriptsAgree(fallback, EngineStep(fallback, b, script[0]), SimStep(p, script[0]), script[1..]);
    }
  }

  // ---- the simulator on its own ----

  lemma {:induction false} SimStepSteady(p: Board, cmd: Command)
    requires Steady(p) && Playable(true, cmd)
    ensures p.Shaped() && Steady(SimStep(p, cmd))
  {
    hide Steady, SimClick, SimFlag, SimChordAt, Mark, Blank;
    SteadyShaped(p);
    match cmd
    case New(dim, mines, diff, seed) => BlankSteady(dim, mines, p.marksEnabled, diff, SimEngine.NormaliseSeed(seed));
    case Click(r, c) => SimClickSteady(p, r, c);
    case Flag(r, c) =>
      FlagIsMark(p, r, c);
      MarkSteady(p, r, c);
    case Chord(r, c) =>
      if ShowsNumber(p, r, c) { SimChordAtSteady(p, r, c); }
  }

  // On a closed cell the simulator's flag is the engine's.
  lemma {:induction false} FlagIsMark(p: Board, r: int, c: int)
    requires p.Shaped()
    ensures (if Shows(p, r, c) then p else SimFlag(p, r, c)) == Mark(p, r, c)
  {
    hide CycleMark, Dim.Cells;
    if p.dim.InB(r, c) { p.dim.IdxRange(r, c); }
  }

  lemma {:induction false} SimChordAtSteady(p: Board, r: int, c: int)
    requires Steady(p) && p.Shaped() && Shows(p, r, c)
    ensures Steady(SimChordAt(p, r, c))
  {
    hide Steady, Running, RevealOthers, SimChordReady, Dim.Cells;
    p.dim.IdxRange(r, c);
    var cell := p.dim.Idx(r, c);
    OpenStarted(p, cell);
    RevealOthersRunning(p, p.dim.Row(cell), p.dim.Col(cell), 9);
    RunningSteady(p);
    RunningSteady(RevealOthers(p, p.dim.Row(cell), p.dim.Col(cell), 9));
  }

  /** The simulator keeps the invariant of the game by itself, for every guarded script: exact counts, no mine open
      while playing, and a verdict that says what the cells say. */
  lemma {:induction false} SimRunSteady(p: Board, script: seq<Command>)
    requires Steady(p) && forall k :: 0 <= k < |script| ==> Playable(true, script[k])
    ensures p.Shaped() && Steady(SimRun(p, script))
    ensures var q := SimRun(p, script);
      && q.flags == |q.Flagged()| && q.openedCount == |q.SafeOpened()|
      && (q.over == 0 ==> NoMineOpen(q.mine, q.revealed))
      && (q.started ==> (q.over == 1 <==> q.AllSafeOpen()))
      && (q.over == 1 ==> EveryMineFlagged(q.mine, q.mark)) && (q.over == -1 ==> EveryMineOpen(q.mine, q.revealed))
    decreases |script|
  {
    hide Steady, SimStep, Playable, TrueAt, FlaggedCells, OpenSafe, NoMineOpen, EveryMineFlagged, EveryMineOpen;
    SteadyShaped(p);
    if script == [] {
      SteadyMeans(p);
    } else {
      SimStepSteady(p, script[0]);
      SimRunSteady(SimStep(p, script[0]), script[1..]);
    }
  }
}
