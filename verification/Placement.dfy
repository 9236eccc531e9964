/** Random mine placement: a shrinking pool drawn with xorshift64. */
module Placement {
  import opened Naturals
  import opened Tallies
  import opened Grid

  // ---- the generator ----

  function Left13(s: bv64): bv64 { s ^ (s << 13) }

  function Right7(s: bv64): bv64 { s ^ (s >> 7) }

  function Left17(s: bv64): bv64 { s ^ (s << 17) }

  function Xorshift(s: bv64): bv64 { Left17(Right7(Left13(s))) }

  function Iterate(s: bv64, n: nat): bv64
    decreases n
  {
    if n == 0 then s else Iterate(Xorshift(s), n - 1)
  }

  lemma {:induction false} Left13Zero(s: bv64)
    ensures Left13(s) == 0 <==> s == 0
  {}

  lemma {:induction false} Right7Zero(s: bv64)
    ensures Right7(s) == 0 <==> s == 0
  {}

  lemma {:induction false} Left17Zero(s: bv64)
    ensures Left17(s) == 0 <==> s == 0
  {}

  /** Zero is a state the generator can neither leave nor enter. */
  lemma {:induction false} XorshiftZero(s: bv64)
    ensures Xorshift(s) == 0 <==> s == 0
  {
    hide Left13, Right7, Left17;
    Left13Zero(s);
    Right7Zero(Left13(s));
    Left17Zero(Right7(Left13(s)));
  }

  lemma {:induction false} NeverStuck(s: bv64, n: nat)
    ensures Iterate(s, n) == 0 <==> s == 0
    decreases n
  {
    if n > 0 {
      XorshiftZero(s);
      NeverStuck(Xorshift(s), n - 1);
    }
  }

  function Word(s: bv64): nat { s as nat }

  function Mod(a: nat, n: nat): (k: nat)
    requires n > 0
    ensures k < n
  {
    a % n
  }

  // A random index below n.
  function Pick(s: bv64, n: nat): (k: nat)
    requires n > 0
  {
    Mod(Word(s), n)
  }

  // ---- the pool ----

  // Cells that stay free of mines: the 3x3 square, or on a tiny board the clicked cell alone.
  predicate Spared(dim: Dim, sr: int, sc: int, tiny: bool, x: nat)
    requires dim.cols > 0
  {
    if tiny then dim.Row(x) == sr && dim.Col(x) == sc
    else -1 <= dim.Row(x) - sr <= 1 && -1 <= dim.Col(x) - sc <= 1
  }

  function PoolUpto(dim: Dim, sr: int, sc: int, tiny: bool, k: nat): seq<nat>
    requires dim.cols > 0
  {
    if k == 0 then []
    else PoolUpto(dim, sr, sc, tiny, k - 1) + (if Spared(dim, sr, sc, tiny, k - 1) then [] else [k - 1])
  }

  lemma {:induction false} PoolFacts(dim: Dim, sr: int, sc: int, tiny: bool, k: nat)
    requires dim.cols > 0
    ensures Distinct(PoolUpto(dim, sr, sc, tiny, k)) && |PoolUpto(dim, sr, sc, tiny, k)| <= k
    ensures forall x: nat :: x in PoolUpto(dim, sr, sc, tiny, k) <==> x < k && !Spared(dim, sr, sc, tiny, x)
  {
    if k > 0 { PoolFacts(dim, sr, sc, tiny, k - 1); }
  }

  // The cells that are left out, and how many are kept.
  lemma {:induction false} PoolSize(dim: Dim, sr: int, sc: int, tiny: bool)
    requires dim.InB(sr, sc)
    ensures dim.cols > 0
    ensures |PoolUpto(dim, sr, sc, false, dim.Cells())| == dim.Cells() - |dim.Square(sr, sc)|
    ensures |PoolUpto(dim, sr, sc, true, dim.Cells())| == dim.Cells() - 1
  {
    hide Dim.SquareUpto;
    var pool, small := PoolUpto(dim, sr, sc, false, dim.Cells()), PoolUpto(dim, sr, sc, true, dim.Cells());
    var square := dim.Square(sr, sc);
    PoolFacts(dim, sr, sc, false, dim.Cells());
    PoolFacts(dim, sr, sc, true, dim.Cells());
    ElemsCard(pool);
    ElemsCard(small);
    dim.SquareDistinct(sr, sc, 9);
    ElemsCard(square);
    forall x: nat ensures x in square <==> x < dim.Cells() && Spared(dim, sr, sc, false, x) {
      dim.SquareIs(sr, sc, x);
    }
    PoolComplement(Elems(pool), Elems(square), dim.Cells());
    dim.IdxRange(sr, sc);
    var centre := dim.Idx(sr, sc);
    forall x: nat | x < dim.Cells() ensures x == centre <==> Spared(dim, sr, sc, true, x) {
      dim.CellCoords(x);
    }
    PoolComplement(Elems(small), {centre}, dim.Cells());
  }

  lemma {:induction false} PoolComplement(s: set<nat>, t: set<nat>, n: nat)
    requires forall x: nat :: x in s <==> x < n && x !in t
    requires forall x: nat :: x in t ==> x < n
    ensures |s| == n - |t|
  {
    hide Upto;
    assert Upto(n) == s + t;
    assert s !! t;
  }

  function Pool(dim: Dim, mines: nat, sr: int, sc: int): (pool: seq<nat>)
    requires dim.cols > 0
    ensures forall x :: x in pool ==> x < dim.Cells()
  {
    PoolFacts(dim, sr, sc, false, dim.Cells());
    PoolFacts(dim, sr, sc, true, dim.Cells());
    var pool := PoolUpto(dim, sr, sc, false, dim.Cells());
    if |pool| < mines then PoolUpto(dim, sr, sc, true, dim.Cells()) else pool
  }

  /** Whenever mines < cells, all mines are placed, with one random number each, off the clicked
      cell, and off its whole square whenever enough other cells exist. */
  lemma {:induction false} PlacesAll(dim: Dim, mines: nat, r: int, c: int, blank: seq<bool>, rng: bv64)
    requires dim.InB(r, c) && mines < dim.Cells() == |blank| && TrueAt(blank) == {}
    ensures dim.cols > 0
    ensures var d := Draw(Pool(dim, mines, r, c), blank, mines, rng);
      && |d.mine| == |blank| && |TrueAt(d.mine)| == mines && d.rng == Iterate(rng, mines)
      && dim.Idx(r, c) !in TrueAt(d.mine)
      && (mines + |dim.Square(r, c)| <= dim.Cells() ==> forall x :: x in dim.Square(r, c) ==> x !in TrueAt(d.mine))
  {
    hide Dim.SquareUpto, Dim.Cells, Draw, TrueAt, PoolUpto, Iterate;
    PoolSize(dim, r, c, true);
    PoolFacts(dim, r, c, false, dim.Cells());
    PoolFacts(dim, r, c, true, dim.Cells());
    var pool := Pool(dim, mines, r, c);
    DrawFacts(pool, blank, mines, rng);
    dim.IdxRange(r, c);
    forall x | x in dim.Square(r, c) ensures Spared(dim, r, c, false, x) {
      dim.SquareIs(r, c, x);
    }
  }

  // ---- the draw ----

  datatype Drawn = Drawn(mine: seq<bool>, rng: bv64)

  // The pool without entry k; the last entry takes its place.
  function Without(pool: seq<nat>, k: nat): (rest: seq<nat>)
    requires k < |pool|
    ensures |rest| == |pool| - 1
  {
    pool[k := pool[|pool| - 1]][..|pool| - 1]
  }

  function Draw(pool: seq<nat>, mine: seq<bool>, need: nat, rng: bv64): Drawn
    requires forall x :: x in pool ==> x < |mine|
    decreases |pool|
  {
    if need == 0 || pool == [] then Drawn(mine, rng)
    else
      var s := Xorshift(rng);
      var k := Pick(s, |pool|);
      WithoutIn(pool, k);
      if mine[pool[k]] then Draw(Without(pool, k), mine, need, s)
      else Draw(Without(pool, k), mine[pool[k] := true], need - 1, s)
  }

  lemma {:induction false} WithoutIn(pool: seq<nat>, k: nat)
    requires k < |pool|
    ensures pool[k] in pool
    ensures forall x :: x in Without(pool, k) ==> x in pool
  {}

  lemma {:induction false} WithoutFacts(pool: seq<nat>, k: nat)
    requires k < |pool| && Distinct(pool)
    ensures Distinct(Without(pool, k))
    ensures forall x :: x in Without(pool, k) <==> x in pool && x != pool[k]
  {
    var rest := Without(pool, k);
    forall x | x in pool && x != pool[k] ensures x in rest {
      var j :| 0 <= j < |pool| && pool[j] == x;
      assert j < |rest| ==> rest[j] == x;
      assert j == |pool| - 1 ==> rest[k] == x;
    }
  }

  // The drawn entry is gone, the last one stands in its place, and all others stay where they are.
  lemma {:induction false} WithoutEntry(pool: seq<nat>, k: nat, i: nat)
    requires k < |pool| && i < |pool| - 1
    ensures Without(pool, k)[i] == pool[if i == k then |pool| - 1 else i]
  {}

  // What a draw of n cells of the pool does.
  ghost predicate DrewOnly(pool: seq<nat>, mine: seq<bool>, rng: bv64, n: nat, d: Drawn) {
    && |d.mine| == |mine| && TrueAt(mine) <= TrueAt(d.mine) <= TrueAt(mine) + Elems(pool)
    && |TrueAt(d.mine)| == |TrueAt(mine)| + n && d.rng == Iterate(rng, n)
  }

  lemma {:induction false} DrewOneMore(pool: seq<nat>, k: nat, mine: seq<bool>, rng: bv64, n: nat, d: Drawn)
    requires k < |pool| && Distinct(pool) && pool[k] < |mine| && !mine[pool[k]]
    requires DrewOnly(Without(pool, k), mine[pool[k] := true], Xorshift(rng), n, d)
    ensures DrewOnly(pool, mine, rng, n + 1, d)
  {
    hide Xorshift, TrueAt, Without, Distinct;
    var more := mine[pool[k] := true];
    WithoutFacts(pool, k);
    assert TrueAt(more) == TrueAt(mine) + {pool[k]};
  }

  /** Every stream of random numbers draws min(need, |pool|) different cells of the pool,
      one per number. */
  lemma {:induction false} DrawFacts(pool: seq<nat>, mine: seq<bool>, need: nat, rng: bv64)
    requires Distinct(pool) && forall x :: x in pool ==> x < |mine| && !mine[x]
    ensures DrewOnly(pool, mine, rng, Least(need, |pool|), Draw(pool, mine, need, rng))
    decreases |pool|
  {
    hide Word, Xorshift, TrueAt, Without, DrewOnly, Distinct;
    if need == 0 || pool == [] {
      DrewNone(pool, mine, rng);
    } else {
      var s := Xorshift(rng);
      var k := Pick(s, |pool|);
      WithoutIn(pool, k);
      WithoutFacts(pool, k);
      var more := mine[pool[k] := true];
      DrawFacts(Without(pool, k), more, need - 1, s);
      DrewOneMore(pool, k, mine, rng, Least(need - 1, |pool| - 1), Draw(Without(pool, k), more, need - 1, s));
    }
  }

  lemma {:induction false} DrewNone(pool: seq<nat>, mine: seq<bool>, rng: bv64)
    ensures DrewOnly(pool, mine, rng, 0, Drawn(mine, rng))
  {
    hide TrueAt;
  }

  // ---- the numbers ----

  ghost function Numbers(dim: Dim, mine: seq<bool>): (adj: seq<nat>)
    ensures |adj| == dim.Cells()
    ensures forall x: nat :: x < dim.Cells() ==> adj[x] == Tally(dim.Around(x), TrueAt(mine))
  {
    seq(dim.Cells(), x requires 0 <= x < dim.Cells() => Tally(dim.Around(x), TrueAt(mine)))
  }
}
