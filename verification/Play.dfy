/** The whole game as a state machine: a board, the pointer, and every user action. */
module Play {
  import opened Grid
  import opened Boards
  import opened Rules

  // Pressed cell and chord anchor (-1: none), and the buttons that are down.
  datatype Hand = Hand(pressed: int, anchor: int, face: bool, left: bool, right: bool)

  datatype State = State(board: Board, hand: Hand)

  datatype Action =
    | ClickAt(r: int, c: int)
    | ScriptClickAt(r: int, c: int)
    | MarkAt(r: int, c: int)
    | ChordCell(r: int, c: int)
    | Down(onFace: bool, cell: int, rightButton: bool)
    | Up(onFace: bool, rightButton: bool, seed: bv64)
    | Cancel
    | NewGame(dim: Dim, mines: nat, marksEnabled: bool, diff: nat, seed: bv64)

  const NO_HAND := Hand(-1, -1, false, false, false)

  function Letting(h: Hand): Hand { h.(pressed := -1, anchor := -1) }

  // The board becomes b; if that ends the game, the pointer lets go.
  function Becomes(s: State, b: Board): State {
    State(b, if b.over == s.board.over then s.hand else Letting(s.hand))
  }

  datatype Preset = Preset(dim: Dim, mines: nat)

  function PresetOf(diff: nat): (p: Preset)
    requires diff < 3
    ensures p.mines + 9 <= p.dim.Cells() && p.mines > 0
    ensures diff == 0 ==> p.dim.rows == p.dim.cols == 8 && p.mines == 10
    ensures diff == 1 ==> p.dim.rows == p.dim.cols == 16 && p.mines == 40
    ensures diff == 2 ==> p.dim.rows == 16 && p.dim.cols == 30 && p.mines == 99
  {
    if diff == 0 then Preset(Dim(8, 8), 10) else if diff == 1 then Preset(Dim(16, 16), 40) else Preset(Dim(16, 30), 99)
  }

  ghost function Fresh(dim: Dim, mines: nat, marksEnabled: bool, diff: nat, seed: bv64): State {
    State(Blank(dim, mines, marksEnabled, diff, seed), NO_HAND)
  }

  // Both buttons are down over a cell.
  function Arm(s: State, cell: nat): Hand
    requires cell < |s.board.revealed| == |s.board.adj| == |s.board.mark|
  {
    if s.board.revealed[cell] && s.board.adj[cell] > 0 then s.hand.(anchor := cell, pressed := -1)
    else if !s.board.revealed[cell] && s.board.mark[cell] != 1 then s.hand.(anchor := -1, pressed := cell)
    else Letting(s.hand)
  }

  // Start the game if need be and reveal the cell.
  ghost function OpenAt(s: State, cell: nat): State
    requires s.board.Shaped() && cell < s.board.Size() && s.board.dim.cols > 0
  {
    if s.board.over != 0 then s else Becomes(s, ScriptClick(s.board, s.board.dim.Row(cell), s.board.dim.Col(cell)))
  }

  ghost function LeftDown(s: State, cell: nat): State
    requires s.board.Shaped() && cell < s.board.Size() && s.board.dim.cols > 0
  {
    var t := s.(hand := s.hand.(left := true));
    if s.hand.right then t.(hand := Arm(t, cell)) else LeftAlone(t, cell)
  }

  // The left button alone opens a closed cell and remembers a number.
  ghost function LeftAlone(t: State, cell: nat): State
    requires t.board.Shaped() && cell < t.board.Size() && t.board.dim.cols > 0
  {
    if !t.board.revealed[cell] && t.board.mark[cell] != 1 then
      var u := OpenAt(t, cell);
      u.(hand := u.hand.(pressed := -1))
    else t.(hand := t.hand.(pressed := if t.board.revealed[cell] && t.board.adj[cell] > 0 then cell else -1))
  }

  ghost function RightDown(s: State, cell: nat): State
    requires s.board.Shaped() && cell < s.board.Size()
  {
    var t := s.(hand := s.hand.(right := true));
    if s.hand.left then t.(hand := Arm(t, cell))
    else if !s.board.revealed[cell] then t.(board := CycleMark(s.board, cell))
    else if s.board.adj[cell] > 0 then t.(hand := t.hand.(pressed := cell))
    else t
  }

  // The first of two buttons to be released completes a chord or a press.
  ghost function Release(s: State): State
    requires Good(s)
  {
    GoodShape(s);
    if !(s.hand.left && s.hand.right) then s
    else
      var t := s.(hand := Letting(s.hand));
      if s.hand.anchor != -1 then Becomes(t, Chord(s.board, s.hand.anchor))
      else if s.hand.pressed != -1 then OpenAt(t, s.hand.pressed)
      else s
  }

  // What completing a press leaves alone.
  lemma {:induction false} ReleaseKeeps(s: State)
    requires Good(s)
    ensures var t := Release(s);
      && t.board.diff == s.board.diff && t.board.marksEnabled == s.board.marksEnabled
      && t.hand.face == s.hand.face && (t.board.over == 0 ==> s.board.over == 0)
  {
    hide Steady, Chord, ScriptClick;
    GoodShape(s);
    if s.hand.left && s.hand.right {
      if s.hand.anchor != -1 {
        ChordSteady(s.board, s.hand.anchor);
      } else if s.hand.pressed != -1 {
        ScriptClickSettings(s.board, s.board.dim.Row(s.hand.pressed), s.board.dim.Col(s.hand.pressed));
      }
    }
  }

  // The button goes up; the face button, let go over itself, restarts a game that is not over.
  ghost function ButtonUp(t: State, wasFace: bool, rightButton: bool, seed: bv64): State
    requires wasFace && t.board.over == 0 ==> t.board.diff < 3
  {
    var u := t.(hand := if rightButton then t.hand.(right := false) else t.hand.(left := false));
    if wasFace && t.board.over == 0 then
      var p := PresetOf(t.board.diff);
      Fresh(p.dim, p.mines, t.board.marksEnabled, t.board.diff, seed)
    else u.(hand := Letting(u.hand).(face := false))
  }

  ghost function Released(s: State, onFace: bool, rightButton: bool, seed: bv64): State
    requires Good(s) && Admissible(s, Up(onFace, rightButton, seed))
  {
    hide Steady, Release;
    ReleaseKeeps(s);
    ButtonUp(Release(s), s.hand.face && onFace, rightButton, seed)
  }

  /** What holds between any two actions: a steady board, a pressed cell on the board, and a chord
      anchor only on a revealed number. */
  ghost predicate Good(s: State) {
    && Steady(s.board)
    && (s.hand.pressed == -1 || 0 <= s.hand.pressed < s.board.Size())
    && AnchorFits(s.board, s.hand.anchor)
  }

  ghost predicate AnchorFits(b: Board, anchor: int)
    requires b.Shaped()
  {
    anchor == -1 || (0 <= anchor < b.Size() && b.revealed[anchor] && b.adj[anchor] > 0)
  }

  lemma {:induction false} GoodShape(s: State)
    requires Good(s)
    ensures s.board.Shaped() && s.board.dim.cols > 0
  {
    hide Running, Rules.Fresh;
    s.board.dim.CellCoords(0);
  }

  // Cells named by a pointer event lie on the board; new games have a safe cell; the face button
  // restarts a preset difficulty.
  ghost predicate Admissible(s: State, a: Action) {
    match a
    case Down(onFace, cell, _) => onFace || cell < s.board.Size()
    case Up(onFace, _, _) => s.hand.face && onFace && s.board.over == 0 ==> s.board.diff < 3
    case NewGame(dim, mines, _, _, _) => mines < dim.Cells()
    case _ => true
  }

  ghost function Step(s: State, a: Action): State
    requires Good(s) && Admissible(s, a)
  {
    GoodShape(s);
    match a
    case ClickAt(r, c) => Becomes(s, Click(s.board, r, c))
    case ScriptClickAt(r, c) => Becomes(s, ScriptClick(s.board, r, c))
    case MarkAt(r, c) => s.(board := Mark(s.board, r, c))
    case ChordCell(r, c) => Becomes(s, ChordAt(s.board, r, c))
    case Down(onFace, cell, rightButton) =>
      if onFace then s.(hand := Letting(s.hand).(face := true))
      else if cell < 0 then s.(hand := Letting(s.hand))
      else if rightButton then RightDown(s, cell) else LeftDown(s, cell)
    case Up(onFace, rightButton, seed) => Released(s, onFace, rightButton, seed)
    case Cancel => s.(hand := NO_HAND)
    case NewGame(dim, mines, marksEnabled, diff, seed) => Fresh(dim, mines, marksEnabled, diff, seed)
  }

  // ---- every action keeps the invariant ----

  lemma {:induction false} BecomesGood(s: State, b: Board)
    requires Good(s) && Steady(b) && Grows(s.board, b)
    ensures Good(Becomes(s, b)) && Becomes(s, b).hand.right == s.hand.right && Becomes(s, b).hand.left == s.hand.left
  {
    hide Steady;
    SteadyShaped(s.board);
    SteadyShaped(b);
  }

  lemma {:induction false} OpenAtGood(s: State, cell: nat)
    requires Good(s) && cell < s.board.Size() && s.board.Shaped() && s.board.dim.cols > 0
    ensures Good(OpenAt(s, cell))
    ensures s.board.over != 0 ==> OpenAt(s, cell) == s
  {
    hide Steady, ScriptClick, AnchorFits;
    var r, c := s.board.dim.Row(cell), s.board.dim.Col(cell);
    ScriptClickSteady(s.board, r, c);
    ScriptClickGrows(s.board, r, c);
    BecomesGood(s, ScriptClick(s.board, r, c));
  }

  lemma {:induction false} ArmGood(s: State, t: State, cell: nat)
    requires Good(s) && t.board == s.board && s.board.Shaped() && cell < s.board.Size()
    requires t.hand.anchor == s.hand.anchor && t.hand.pressed == s.hand.pressed
    ensures Good(t.(hand := Arm(t, cell)))
  {
    hide Steady;
  }

  lemma {:induction false} LeftDownGood(s: State, cell: nat)
    requires Good(s) && s.board.Shaped() && cell < s.board.Size() && s.board.dim.cols > 0
    ensures Good(LeftDown(s, cell))
    ensures s.board.over != 0 ==> LeftDown(s, cell).board == s.board
  {
    hide Steady, OpenAt, AnchorFits;
    var t := s.(hand := s.hand.(left := true));
    ArmGood(s, t, cell);
    OpenAtGood(t, cell);
  }

  lemma {:induction false} RightDownGood(s: State, cell: nat)
    requires Good(s) && s.board.Shaped() && cell < s.board.Size()
    ensures Good(RightDown(s, cell))
    ensures s.board.over != 0 ==> RightDown(s, cell).board == s.board
  {
    hide Steady;
    var t := s.(hand := s.hand.(right := true));
    ArmGood(s, t, cell);
    if !s.board.revealed[cell] { CycleMarkSteady(s.board, cell); }
  }

  lemma {:induction false} ReleaseGood(s: State)
    requires Good(s)
    ensures Good(Release(s)) && Release(s).board.Shaped()
    ensures s.board.over != 0 ==> Release(s).board == s.board
  {
    hide Steady, Chord, OpenAt;
    GoodShape(s);
    var t := s.(hand := Letting(s.hand));
    if s.hand.anchor != -1 {
      ChordSteady(s.board, s.hand.anchor);
      ChordGrows(s.board, s.hand.anchor);
      BecomesGood(t, Chord(s.board, s.hand.anchor));
    } else if s.hand.pressed != -1 {
      OpenAtGood(t, s.hand.pressed);
    }
    GoodShape(Release(s));
  }

  lemma {:induction false} FreshGood(dim: Dim, mines: nat, marksEnabled: bool, diff: nat, seed: bv64)
    requires mines < dim.Cells()
    ensures Good(Fresh(dim, mines, marksEnabled, diff, seed))
  {
    hide Steady;
    BlankSteady(dim, mines, marksEnabled, diff, seed);
  }

  lemma {:induction false} ReleasedGood(s: State, onFace: bool, rightButton: bool, seed: bv64)
    requires Good(s) && Admissible(s, Up(onFace, rightButton, seed))
    ensures Good(Released(s, onFace, rightButton, seed))
    ensures s.board.over != 0 ==> Released(s, onFace, rightButton, seed).board == s.board
  {
    hide Steady, Release, Fresh;
    ReleaseGood(s);
    ReleaseKeeps(s);
    var t := Release(s);
    if s.hand.face && onFace && t.board.over == 0 {
      var p := PresetOf(t.board.diff);
      FreshGood(p.dim, p.mines, t.board.marksEnabled, t.board.diff, seed);
    }
  }

  /** Every action keeps the invariant, and a finished game changes only when a new one starts. */
  lemma {:induction false} StepGood(s: State, a: Action)
    requires Good(s) && Admissible(s, a)
    ensures Good(Step(s, a))
    ensures s.board.over != 0 && !a.NewGame? ==> Step(s, a).board == s.board
  {
    hide Steady, Click, ScriptClick, Mark, ChordAt, LeftDown, RightDown, Released, Fresh, AnchorFits;
    GoodShape(s);
    match a
    case ClickAt(r, c) =>
      ClickSteady(s.board, r, c);
      ScriptClickGrows(s.board, r, c);
      BecomesGood(s, Click(s.board, r, c));
    case ScriptClickAt(r, c) =>
      ScriptClickSteady(s.board, r, c);
      ScriptClickGrows(s.board, r, c);
      BecomesGood(s, ScriptClick(s.board, r, c));
    case MarkAt(r, c) =>
      MarkGood(s, r, c);
    case ChordCell(r, c) =>
      ChordAtSteady(s.board, r, c);
      ChordAtGrows(s.board, r, c);
      BecomesGood(s, ChordAt(s.board, r, c));
    case Down(onFace, cell, rightButton) =>
      DownGood(s, onFace, cell, rightButton);
    case Up(onFace, rightButton, seed) =>
      ReleasedGood(s, onFace, rightButton, seed);
    case Cancel =>
      AnchorNone(s.board);
    case NewGame(dim, mines, marksEnabled, diff, seed) =>
      FreshGood(dim, mines, marksEnabled, diff, seed);
  }

  lemma {:induction false} AnchorNone(b: Board)
    requires b.Shaped()
    ensures AnchorFits(b, -1)
  {}

  lemma {:induction false} MarkGood(s: State, r: int, c: int)
    requires Good(s)
    ensures Good(s.(board := Mark(s.board, r, c)))
    ensures s.board.over != 0 ==> Mark(s.board, r, c) == s.board
  {
    hide Steady, Mark;
    MarkSteady(s.board, r, c);
    MarkGrows(s.board, r, c);
    SteadyShaped(s.board);
  }

  lemma {:induction false} DownGood(s: State, onFace: bool, cell: int, rightButton: bool)
    requires Good(s) && Admissible(s, Down(onFace, cell, rightButton))
    ensures var t := Step(s, Down(onFace, cell, rightButton));
      Good(t) && (s.board.over != 0 ==> t.board == s.board)
  {
    hide Steady, LeftDown, RightDown;
    GoodShape(s);
    if !onFace && cell >= 0 {
      RightDownGood(s, cell);
      LeftDownGood(s, cell);
    }
  }

  // ---- whole runs ----

  ghost predicate Runs(s: State, actions: seq<Action>)
    requires Good(s)
    decreases |actions|
  {
    actions == [] || (Admissible(s, actions[0]) && (StepGood(s, actions[0]); Runs(Step(s, actions[0]), actions[1..])))
  }

  ghost function Run(s: State, actions: seq<Action>): State
    requires Good(s) && Runs(s, actions)
    decreases |actions|
  {
    if actions == [] then s
    else
      StepGood(s, actions[0]);
      Run(Step(s, actions[0]), actions[1..])
  }

  lemma {:induction false} RunGood(s: State, actions: seq<Action>)
    requires Good(s) && Runs(s, actions)
    ensures Good(Run(s, actions))
    ensures s.board.over != 0 && (forall k :: 0 <= k < |actions| ==> !actions[k].NewGame?) ==>
              Run(s, actions).board == s.board
    decreases |actions|
  {
    hide Good, Step, Admissible;
    if actions != [] {
      StepGood(s, actions[0]);
      RunGood(Step(s, actions[0]), actions[1..]);
      assert !actions[0].NewGame? ==> s.board.over != 0 ==> Step(s, actions[0]).board == s.board;
    }
  }

  /** After any run of a game with a safe cell: the flag count is the number of flags, the open count the number
      of open safe cells; while the game runs no mine is open and some safe cell is closed; the game is won
      exactly when all safe cells are open, and then every mine is flagged; when it is lost every mine is
      shown; and a pending chord anchor is a revealed cell with a number. */
  lemma {:induction false} WholeRun(dim: Dim, mines: nat, marksEnabled: bool, diff: nat, seed: bv64,
                                    actions: seq<Action>)
    requires mines < dim.Cells()
    requires Good(Fresh(dim, mines, marksEnabled, diff, seed))
    requires Runs(Fresh(dim, mines, marksEnabled, diff, seed), actions)
    ensures var s := Run(Fresh(dim, mines, marksEnabled, diff, seed), actions); var b := s.board;
      && b.Shaped() && b.flags == |b.Flagged()| && b.openedCount == |b.SafeOpened()|
      && (b.over == 0 ==> NoMineOpen(b.mine, b.revealed) && b.openedCount < b.Size() - b.mines)
      && (b.started ==> (b.over == 1 <==> b.AllSafeOpen()))
      && (b.over == 1 ==> EveryMineFlagged(b.mine, b.mark))
      && (b.over == -1 ==> EveryMineOpen(b.mine, b.revealed))
      && (s.hand.anchor != -1 ==>
            0 <= s.hand.anchor < b.Size() && b.revealed[s.hand.anchor] && b.adj[s.hand.anchor] > 0)
  {
    hide Steady, Run, Runs, Fresh;
    RunGood(Fresh(dim, mines, marksEnabled, diff, seed), actions);
    var s := Run(Fresh(dim, mines, marksEnabled, diff, seed), actions);
    GoodShape(s);
    SteadyMeans(s.board);
  }

  // ---- gestures ----

  /** A single-button press does what the click and mark commands do. */
  lemma {:induction false} PressMeans(s: State, cell: nat)
    requires Good(s) && cell < s.board.Size()
    ensures s.board.Shaped() && s.board.dim.cols > 0
    ensures var r, c := s.board.dim.Row(cell), s.board.dim.Col(cell);
      && (!s.hand.right ==> Step(s, Down(false, cell, false)).board == Click(s.board, r, c))
      && (!s.hand.left ==> Step(s, Down(false, cell, true)).board == Mark(s.board, r, c))
  {
    hide Steady, ScriptClick, CycleMark, AnchorFits;
    GoodShape(s);
    s.board.dim.CellCoords(cell);
    s.board.dim.IdxRange(s.board.dim.Row(cell), s.board.dim.Col(cell));
  }

  /** Pressing both buttons over an open number, in either order, and letting one go is a chord there. */
  lemma {:induction false} ChordGesture(s: State, cell: nat, rightFirst: bool, upRight: bool, seed: bv64)
    requires Good(s) && cell < s.board.Size() && !s.hand.left && !s.hand.right && !s.hand.face
    requires s.board.Shaped() && s.board.revealed[cell] && s.board.adj[cell] > 0
    ensures var both := BothDown(s, cell, rightFirst);
      && Good(both) && both.board == s.board && both.hand.anchor == cell && s.board.dim.cols > 0
      && var up := Step(both, Up(false, upRight, seed));
         && up.board == ChordAt(s.board, s.board.dim.Row(cell), s.board.dim.Col(cell))
         && up.hand == NO_HAND.(left := upRight, right := !upRight)
  {
    hide Steady, Chord, OpenAt;
    GoodShape(s);
    s.board.dim.CellCoords(cell);
    s.board.dim.IdxRange(s.board.dim.Row(cell), s.board.dim.Col(cell));
    var both := BothDown(s, cell, rightFirst);
    BothDownIs(s, cell, rightFirst);
    ReleaseGood(both);
    ReleaseChord(both);
  }

  ghost function BothDown(s: State, cell: nat, rightFirst: bool): State
    requires Good(s) && cell < s.board.Size()
  {
    var first := Step(s, Down(false, cell, rightFirst));
    DownGood(s, false, cell, rightFirst);
    if cell < first.board.Size() then Step(first, Down(false, cell, !rightFirst)) else first
  }

  lemma {:induction false} BothDownIs(s: State, cell: nat, rightFirst: bool)
    requires Good(s) && cell < s.board.Size() && !s.hand.left && !s.hand.right
    requires s.board.Shaped() && s.board.revealed[cell] && s.board.adj[cell] > 0
    ensures Good(BothDown(s, cell, rightFirst))
    ensures BothDown(s, cell, rightFirst)
         == s.(hand := s.hand.(left := true, right := true, anchor := cell, pressed := -1))
  {
    hide Steady, OpenAt, CycleMark;
    GoodShape(s);
  }

  lemma {:induction false} ReleaseChord(s: State)
    requires Good(s) && s.hand.left && s.hand.right && s.hand.anchor != -1
    ensures s.board.Shaped() && s.board.dim.cols > 0
    ensures Release(s) == State(Chord(s.board, s.hand.anchor), Letting(s.hand))
  {
    hide Steady, Chord, OpenAt;
    GoodShape(s);
  }

  /** With one button down, pressing the other over a closed, unflagged cell waits; letting either one go is a click
      there. */
  lemma {:induction false} PressGesture(s: State, cell: nat, rightButton: bool, upRight: bool, seed: bv64)
    requires Good(s) && cell < s.board.Size() && !s.hand.face && s.board.Shaped()
    requires if rightButton then s.hand.left else s.hand.right
    requires !s.board.revealed[cell] && s.board.mark[cell] != 1
    ensures var armed := Step(s, Down(false, cell, rightButton));
      && Good(armed) && armed.board == s.board && armed.hand.pressed == cell && s.board.dim.cols > 0
      && var up := Step(armed, Up(false, upRight, seed));
         && up.board == Click(s.board, s.board.dim.Row(cell), s.board.dim.Col(cell))
         && up.hand == NO_HAND.(left := upRight, right := !upRight)
  {
    hide Steady, ScriptClick, CycleMark, Chord, Dim.Cells;
    GoodShape(s);
    s.board.dim.CellCoords(cell);
    DownGood(s, false, cell, rightButton);
    var armed := Step(s, Down(false, cell, rightButton));
    ReleasePress(armed);
    ReleaseKeeps(armed);
  }

  lemma {:induction false} ReleasePress(s: State)
    requires Good(s) && s.hand.left && s.hand.right && s.hand.anchor == -1 && s.hand.pressed != -1
    requires s.board.Shaped() && !s.board.revealed[s.hand.pressed] && s.board.mark[s.hand.pressed] != 1
    ensures s.board.dim.cols > 0 && 0 <= s.hand.pressed < s.board.Size()
    ensures Release(s)
         == State(Click(s.board, s.board.dim.Row(s.hand.pressed), s.board.dim.Col(s.hand.pressed)), Letting(s.hand))
  {
    hide Steady, ScriptClick, CycleMark, Chord, Dim.Cells;
    GoodShape(s);
    s.board.dim.CellCoords(s.hand.pressed);
  }

  /** Pressing the face button and letting go over it starts a new game of the same difficulty with the given seed if
      the game is not over, and otherwise leaves the board alone; letting go elsewhere does nothing to it. */
  lemma {:induction false} FaceGesture(s: State, cell: int, downRight: bool, upOnFace: bool, upRight: bool, seed: bv64)
    requires Good(s) && s.board.diff < 3
    ensures var pressed := Step(s, Down(true, cell, downRight));
      && Good(pressed) && pressed.board == s.board
      && var up := Step(pressed, Up(upOnFace, upRight, seed));
         if upOnFace && s.board.over == 0 then
           && up.hand == NO_HAND
           && up.board == Blank(PresetOf(s.board.diff).dim, PresetOf(s.board.diff).mines, s.board.marksEnabled,
                                s.board.diff, seed)
         else up.board == s.board && up.hand.pressed == up.hand.anchor == -1 && !up.hand.face
  {
    hide Steady, Chord, OpenAt, Blank;
    GoodShape(s);
    var pressed := Step(s, Down(true, cell, downRight));
    AnchorNone(s.board);
    ReleaseKeeps(pressed);
  }
}
