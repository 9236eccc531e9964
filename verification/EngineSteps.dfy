/** Steps that both engines take: what one turn of each loop does to the board. */
module EngineSteps {
  import opened Tallies
  import opened Grid
  import opened Boards
  import opened Flood
  import opened Placement

  // The branches of a reveal.
  lemma {:induction false} RevealAtCases(b: Board, r: int, c: int)
    requires b.Playing()
    ensures b.RevealAt(r, c).Playing() && b.openedCount <= b.Size()
    ensures !(0 <= r < b.dim.rows && 0 <= c < b.dim.cols) ==> b.RevealAt(r, c) == b
    ensures 0 <= r < b.dim.rows && 0 <= c < b.dim.cols ==>
              var i := r * b.dim.cols + c;
              && i < b.Size() && b.dim.cols > 0 && b.dim.Row(i) == r && b.dim.Col(i) == c
                  && b.RevealAt(r, c) == b.Reveal(i)
              && (b.revealed[i] || b.mark[i] == 1 ==> b.Reveal(i) == b)
              && (!b.revealed[i] && b.mark[i] != 1 && b.mine[i] ==> b.Reveal(i) == b.Lost())
              && (!b.revealed[i] && b.mark[i] != 1 && !b.mine[i] && b.over != 0 ==> b.Reveal(i) == b)
              && (!b.revealed[i] && b.mark[i] != 1 && !b.mine[i] ==> i in b.Closed())
  {
    hide Board.Placed, Board.Judged, Board.Region, TrueAt, OpenSafe, Dim.Cells, EverySafeOpen;
    WinTest(b);
    if b.dim.InB(r, c) {
      b.dim.IdxRange(r, c);
      RevealPlaying(b, b.dim.Idx(r, c));
    }
  }

  lemma {:induction false} PoolNone(d: Dim, sr: int, sc: int, tiny: bool)
    requires d.cols > 0
    ensures PoolUpto(d, sr, sc, tiny, 0) == []
  {}

  // The cells the pool loops pass over.
  predicate Left(sr: int, sc: int, tiny: bool, r: int, c: int) {
    if tiny then r == sr && c == sc else -1 <= r - sr <= 1 && -1 <= c - sc <= 1
  }

  lemma {:induction false} PoolStep(d: Dim, sr: int, sc: int, tiny: bool, r: int, c: int)
    requires d.InB(r, c)
    ensures d.cols > 0
    ensures PoolUpto(d, sr, sc, tiny, d.Idx(r, c) + 1)
         == PoolUpto(d, sr, sc, tiny, d.Idx(r, c))
            + (if Left(sr, sc, tiny, r, c) then [] else [d.Idx(r, c)])
  {
    d.IdxRange(r, c);
  }

  lemma {:induction false} PickBelow(s: bv64, n: nat)
    requires n > 0
    ensures Pick(s, n) < n
  {
    hide Word;
  }

  lemma {:induction false} DrawStep(pool: seq<nat>, mine: seq<bool>, need: nat, rng: bv64)
    requires need > 0 && pool != [] && forall x :: x in pool ==> x < |mine|
    ensures var s := Xorshift(rng); var k := Pick(s, |pool|);
      && k < |pool| && pool[k] < |mine| && (forall x :: x in Without(pool, k) ==> x < |mine|)
      && Draw(pool, mine, need, rng)
         == if mine[pool[k]] then Draw(Without(pool, k), mine, need, s)
            else Draw(Without(pool, k), mine[pool[k] := true], need - 1, s)
  {
    hide Word, Xorshift, Without;
    var s := Xorshift(rng);
    var k := Pick(s, |pool|);
    WithoutIn(pool, k);
  }

  lemma {:induction false} DrawEnd(pool: seq<nat>, mine: seq<bool>, need: nat, rng: bv64)
    requires need == 0 || pool == []
    requires forall x :: x in pool ==> x < |mine|
    ensures Draw(pool, mine, need, rng) == Drawn(mine, rng)
  {}

  lemma {:induction false} PoolBelow(b: Board, r: int, c: int)
    requires b.Shaped() && b.dim.InB(r, c)
    ensures b.dim.cols > 0
    ensures forall tiny: bool, x :: x in PoolUpto(b.dim, r, c, tiny, b.dim.Cells()) ==> x < b.Size()
  {
    hide PoolUpto, Spared, Dim.Cells;
    b.dim.IdxRange(r, c);
    PoolFacts(b.dim, r, c, false, b.dim.Cells());
    PoolFacts(b.dim, r, c, true, b.dim.Cells());
  }

  lemma {:induction false} WithoutIs(pool: seq<nat>, k: nat, rest: seq<nat>)
    requires k < |pool| == |rest| + 1
    requires forall j: nat :: j < |rest| ==> rest[j] == if j == k then pool[|rest|] else pool[j]
    ensures rest == Without(pool, k)
  {}

  // How many mines below k are not flagged.
  ghost function NewFlags(mine: seq<bool>, mark: seq<nat>, k: nat): nat
    requires k <= |mine| == |mark|
  {
    if k == 0 then 0 else NewFlags(mine, mark, k - 1) + (if mine[k - 1] && mark[k - 1] != 1 then 1 else 0)
  }

  lemma {:induction false} NewFlagsCard(mine: seq<bool>, mark: seq<nat>, k: nat)
    requires k <= |mine| == |mark|
    ensures NewFlags(mine, mark, k) == |TrueUpto(mine, k) - FlaggedCells(mark)|
  {
    hide FlaggedCells, TrueUpto;
    if k == 0 {
      assert TrueUpto(mine, 0) == {};
    } else {
      NewFlagsCard(mine, mark, k - 1);
      CardWith(TrueUpto(mine, k - 1) - FlaggedCells(mark), k - 1, mine[k - 1] && mark[k - 1] != 1,
               TrueUpto(mine, k) - FlaggedCells(mark));
    }
  }

  // All mines flagged.
  ghost function Marked(b: Board): Board
    requires b.Shaped()
  {
    b.(mark := b.WinMarks(), flags := b.flags + |b.MineSet() - b.Flagged()|)
  }

  lemma {:induction false} WonIs(b: Board)
    requires b.Shaped()
    ensures b.Won() == if b.over != 0 then b else Marked(b.(over := 1))
  {}

  lemma {:induction false} MarkedIs(b: Board, c: Board)
    requires b.Shaped() && |c.mark| == b.Size()
    requires c == b.(mark := c.mark, flags := b.flags + NewFlags(b.mine, b.mark, b.Size()))
    requires forall x: nat :: x < b.Size() ==> c.mark[x] == if b.mine[x] then 1 else b.mark[x]
    ensures c == Marked(b)
  {
    hide FlaggedCells, TrueUpto, TrueAt, NewFlags;
    assert TrueUpto(b.mine, b.Size()) == TrueAt(b.mine);
    NewFlagsCard(b.mine, b.mark, b.Size());
    assert c.mark == b.WinMarks();
  }

  lemma {:induction false} CardWith(s: set<nat>, x: nat, more: bool, t: set<nat>)
    requires x !in s && t == if more then s + {x} else s
    ensures |t| == |s| + if more then 1 else 0
  {}

  lemma {:induction false} FinishIs(c: Board)
    requires c.Shaped()
    ensures Finish(c) == if c.openedCount == c.Size() - c.mines then c.Won() else c
  {}
}
