/** The analyzer's prediction of how many cells a move opens. */
module Predictor {
  import opened Tallies
  import opened Grid
  import opened Boards
  import opened Flood

  /** An explicit-stack flood from c: `done` has been counted, `stack` waits, `seen` is both; cells in `open`
      still have neighbours to look at. */
  ghost predicate Flooding(b: Board, c: nat, done: set<nat>, stack: seq<nat>, seen: set<nat>, open: set<nat>) {
    && b.Shaped() && c < b.Size() && c in seen
    && Distinct(stack) && (forall x :: x in stack ==> x !in done) && seen == done + Elems(stack)
    && (forall x :: x in seen ==> x < b.Size() && b.Reaches(c, x))
    && (forall x, y :: x in done && x !in open && b.Spreads(x, y) ==> y in seen)
  }

  lemma {:induction false} FloodStart(b: Board, c: nat)
    requires b.Shaped() && c < b.Size()
    ensures Flooding(b, c, {}, [c], {c}, {})
  {
    hide Board.Way;
    ReachesSelf(b, c);
  }

  // No cell is on the stack twice, so the stack has room for every push.
  lemma {:induction false} FloodRoom(b: Board, c: nat, done: set<nat>, stack: seq<nat>, seen: set<nat>, open: set<nat>)
    requires Flooding(b, c, done, stack, seen, open)
    ensures |done| + |stack| == |seen| <= b.Size()
    ensures forall x :: x in stack ==> x < b.Size()
  {
    hide Board.Reaches, Board.Spreads, Upto;
    ElemsCard(stack);
    assert done !! Elems(stack);
    CardMono(seen, Upto(b.Size()));
  }

  lemma {:induction false} FloodPop(b: Board, c: nat, done: set<nat>, stack: seq<nat>, seen: set<nat>)
    requires Flooding(b, c, done, stack, seen, {}) && stack != []
    ensures var x := stack[|stack| - 1];
      && x !in done && x < b.Size()
      && Flooding(b, c, done + {x}, stack[..|stack| - 1], seen, {x})
  {
    hide Board.Reaches, Board.Spreads, Distinct;
    PopElems(stack);
  }

  lemma {:induction false} PopElems(stack: seq<nat>)
    requires stack != [] && Distinct(stack)
    ensures Distinct(stack[..|stack| - 1]) && stack[|stack| - 1] !in stack[..|stack| - 1]
    ensures Elems(stack) == Elems(stack[..|stack| - 1]) + {stack[|stack| - 1]}
  {
    assert stack == stack[..|stack| - 1] + [stack[|stack| - 1]];
  }

  lemma {:induction false} FloodPush(b: Board, c: nat, done: set<nat>, stack: seq<nat>, seen: set<nat>, x: nat, y: nat)
    requires Flooding(b, c, done, stack, seen, {x}) && x in seen && b.Spreads(x, y) && y !in seen
    ensures Flooding(b, c, done, stack + [y], seen + {y}, {x})
  {
    hide Board.Way, ClosedCells, Dim.Around;
    ReachesStep(b, c, x, y);
  }

  lemma {:induction false} FloodTurn(b: Board, c: nat, done: set<nat>, stack: seq<nat>, seen: set<nat>, x: nat)
    requires Flooding(b, c, done, stack, seen, {x})
    requires x < b.Size() && b.dim.cols > 0
    requires b.adj[x] == 0 ==> SquareSeen(b, b.dim.Row(x), b.dim.Col(x), 9, seen)
    ensures Flooding(b, c, done, stack, seen, {})
  {
    hide Board.Reaches, Dim.SquareUpto, Dim.Row, Dim.Col, ClosedCells, Distinct;
  }

  // The closed cells among the first k of a square have been seen.
  ghost predicate SquareSeen(b: Board, r: int, col: int, k: nat, seen: set<nat>)
    requires b.Shaped() && k <= 9
  {
    forall y :: y in b.dim.SquareUpto(r, col, k) && y in b.Closed() ==> y in seen
  }

  lemma {:induction false} SquareSeenStep(b: Board, r: int, col: int, dr: int, dc: int, seen: set<nat>, more: set<nat>)
    requires b.Shaped() && -1 <= dr <= 1 && -1 <= dc <= 1 && seen <= more
    requires SquareSeen(b, r, col, 3 * (dr + 1) + (dc + 1), seen)
    requires b.dim.InB(r + dr, col + dc) ==>
               var j := b.dim.Idx(r + dr, col + dc); j in b.Closed() ==> j in more
    ensures SquareSeen(b, r, col, 3 * (dr + 1) + (dc + 1) + 1, more)
  {
    hide Board.Closed, Dim.SquareUpto;
    OffsetStep(b.dim, r, col, dr, dc);
  }

  lemma {:induction false} SquareSeenNone(b: Board, r: int, col: int, seen: set<nat>)
    requires b.Shaped()
    ensures SquareSeen(b, r, col, 0, seen)
  {}

  lemma {:induction false} FloodDone(b: Board, c: nat, done: set<nat>, seen: set<nat>)
    requires Flooding(b, c, done, [], seen, {})
    ensures done == b.Region(c)
  {
    hide Board.Spreads, Upto;
    forall x | x in b.Region(c) ensures x in done {
      var way :| b.Way(way) && way[0] == c && way[|way| - 1] == x;
      WayStays(b, way, done);
    }
  }

  // One turn of the loop: look at the square around the popped zero x.
  method LookAround(b: Board, c: nat, x: nat, stack: array<nat>, n: nat, scratch: array<bool>, ghost done: set<nat>,
                    ghost seen: set<nat>) returns (sp: nat, ghost more: set<nat>)
    requires n <= stack.Length == b.Size() && |scratch[..]| == b.Size() && b.Shaped() && x < b.Size()
    requires Flooding(b, c, done, stack[..n], seen, {x}) && x in seen && TrueAt(scratch[..]) == seen
    requires b.adj[x] == 0
    modifies stack, scratch
    ensures sp <= stack.Length && b.dim.cols > 0
    ensures Flooding(b, c, done, stack[..sp], more, {x}) && TrueAt(scratch[..]) == more
    ensures SquareSeen(b, b.dim.Row(x), b.dim.Col(x), 9, more)
  {
    hide Flooding, SquareSeen, TrueAt, ClosedCells, Dim.Cells, Dim.Row, Dim.Col, Dim.SquareUpto;
    b.dim.CellCoords(x);
    var r, cc := x / b.dim.cols, x % b.dim.cols;
    RowCol(b.dim, x);
    sp, more := n, seen;
    SquareSeenNone(b, r, cc, more);
    for dr := -1 to 2
      invariant sp <= stack.Length && Flooding(b, c, done, stack[..sp], more, {x}) && seen <= more
      invariant TrueAt(scratch[..]) == more
      invariant SquareSeen(b, r, cc, 3 * (dr + 1), more)
    {
      for dc := -1 to 2
        invariant sp <= stack.Length && Flooding(b, c, done, stack[..sp], more, {x}) && seen <= more
        invariant TrueAt(scratch[..]) == more
        invariant SquareSeen(b, r, cc, 3 * (dr + 1) + (dc + 1), more)
      {
        ghost var before := more;
        if 0 <= r + dr < b.dim.rows && 0 <= cc + dc < b.dim.cols {
          OffsetAround(b.dim, x, dr, dc);
          var i := (r + dr) * b.dim.cols + (cc + dc);
          if !b.revealed[i] && b.mark[i] != 1 && !scratch[i] {
            sp, more := Push(b, c, x, i, stack, sp, scratch, done, more);
          }
        }
        SquareSeenStep(b, r, cc, dr, dc, before, more);
      }
    }
  }

  lemma {:induction false} RowCol(dim: Dim, x: nat)
    requires dim.cols > 0
    ensures dim.Row(x) == x / dim.cols && dim.Col(x) == x % dim.cols
  {}

  method Push(b: Board, c: nat, x: nat, i: nat, stack: array<nat>, n: nat, scratch: array<bool>, ghost done: set<nat>,
              ghost seen: set<nat>) returns (sp: nat, ghost more: set<nat>)
    requires n <= stack.Length == b.Size() && |scratch[..]| == b.Size() && b.Shaped() && x < b.Size() && i < b.Size()
    requires Flooding(b, c, done, stack[..n], seen, {x}) && x in seen && TrueAt(scratch[..]) == seen
    requires b.adj[x] == 0 && i in b.dim.Around(x) && i in b.Closed() && !scratch[i]
    modifies stack, scratch
    ensures sp <= stack.Length
    ensures Flooding(b, c, done, stack[..sp], more, {x}) && TrueAt(scratch[..]) == more && more == seen + {i}
  {
    hide Flooding, TrueAt, ClosedCells, Dim.Around, Dim.Cells;
    FloodPush(b, c, done, stack[..n], seen, x, i);
    FloodRoom(b, c, done, stack[..n] + [i], seen + {i}, {x});
    ghost var before := stack[..n];
    scratch[i] := true;
    stack[n] := i;
    sp, more := n + 1, seen + {i};
    assert stack[..sp] == before + [i];
    assert TrueAt(scratch[..]) == more;
  }

  /** Counts exactly the cells a reveal of c would open. */
  method FloodReveals(b: Board, c: nat) returns (cnt: nat)
    requires b.Shaped() && c < b.Size()
    ensures cnt == |b.Region(c)|
  {
    hide Flooding, SquareSeen, TrueAt, ClosedCells, Dim.Cells, Dim.Row, Dim.Col, Dim.SquareUpto, Board.Region, Elems;
    var n := |b.mine|;
    b.dim.CellCoords(c);
    var scratch := new bool[n](_ => false);
    var stack := new nat[n](_ => 0);
    scratch[c] := true;
    stack[0] := c;
    var sp := 1;
    cnt := 0;
    ghost var done, seen: set<nat> := {}, {c};
    FloodStart(b, c);
    assert TrueAt(scratch[..]) == seen;
    assert stack[..1] == [c];
    while sp > 0
      invariant sp <= stack.Length && cnt == |done|
      invariant Flooding(b, c, done, stack[..sp], seen, {}) && TrueAt(scratch[..]) == seen
      decreases n - cnt
    {
      FloodRoom(b, c, done, stack[..sp], seen, {});
      FloodPop(b, c, done, stack[..sp], seen);
      ghost var before := stack[..sp];
      sp := sp - 1;
      var x := stack[sp];
      assert stack[..sp] == before[..|before| - 1] && x == before[|before| - 1];
      cnt := cnt + 1;
      done := done + {x};
      assert x in seen by { FloodSeen(b, c, done, stack[..sp], seen, x); }
      if b.adj[x] == 0 {
        sp, seen := LookAround(b, c, x, stack, sp, scratch, done, seen);
      }
      FloodTurn(b, c, done, stack[..sp], seen, x);
    }
    FloodDone(b, c, done, seen);
  }

  lemma {:induction false} FloodSeen(b: Board, c: nat, done: set<nat>, stack: seq<nat>, seen: set<nat>, x: nat)
    requires Flooding(b, c, done, stack, seen, {x}) && x in done
    ensures x in seen
  {}

  /** The prediction equals what the move then does, win or no win. */
  lemma {:induction false} PredictionHolds(b: Board, i: nat)
    requires b.Playing() && b.over == 0 && i < b.Size() && !b.revealed[i] && b.mark[i] != 1 && !b.mine[i]
    ensures b.Reveal(i).openedCount == b.openedCount + |b.Region(i)|
    ensures forall x: nat :: x < b.Size() ==> (b.Reveal(i).revealed[x] <==> b.revealed[x] || x in b.Region(i))
    ensures b.Region(i) !! TrueAt(b.revealed)
  {
    hide Board.Region, Board.Placed, Board.Counted, Board.Judged, TrueAt, Dim.Cells, ClosedCells;
    RegionSafe(b, i);
    RevealFields(b, i);
  }
}
