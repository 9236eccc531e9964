/** What the random numbers decide: the generator's states, and which cells they mine. */
module Randomness {
  import opened Naturals
  import opened Tallies
  import opened Grid
  import opened Placement
  import opened Rules

  // ---- the generator is one-to-one ----

  function Xor(a: bv64, b: bv64): bv64 { a ^ b }

  // One step of the generator: xor with a shifted copy.
  function Stir(shift: bv64 -> bv64, s: bv64): bv64 { Xor(s, shift(s)) }

  ghost predicate Additive(shift: bv64 -> bv64) {
    forall a, b :: shift(Xor(a, b)) == Xor(shift(a), shift(b))
  }

  // twice is shifting by `once` two times.
  ghost predicate Doubles(once: bv64 -> bv64, twice: bv64 -> bv64) {
    Additive(once) && forall a :: once(once(a)) == twice(a)
  }

  lemma {:induction false} XorIs(a: bv64, b: bv64)
    ensures Xor(a, b) == a ^ b
  {}

  lemma {:induction false} XorChain(a: bv64, b: bv64, c: bv64, t: bv64, u: bv64)
    requires t == a ^ b && u == b ^ c
    ensures t ^ u == a ^ c
  {}

  lemma {:induction false} XorTwice(a: bv64, b: bv64, c: bv64)
    ensures Xor(Xor(a, b), Xor(b, c)) == Xor(a, c)
  {
    hide Xor;
    XorIs(a, b);
    XorIs(b, c);
    XorIs(a, c);
    XorIs(Xor(a, b), Xor(b, c));
    XorChain(a, b, c, Xor(a, b), Xor(b, c));
  }

  /** The same step taken twice is the step with the doubled shift. */
  lemma {:induction false} StirTwice(once: bv64 -> bv64, twice: bv64 -> bv64, s: bv64)
    requires Doubles(once, twice)
    ensures Stir(once, Stir(once, s)) == Stir(twice, s)
  {
    hide Xor;
    XorTwice(s, once(s), twice(s));
  }

  function Nothing(s: bv64): bv64 { 0 }

  lemma {:induction false} StirNothing(s: bv64)
    ensures Stir(Nothing, s) == s
  {}

  function Up13(s: bv64): bv64 { s << 13 }

  function Up26(s: bv64): bv64 { s << 26 }

  function Up52(s: bv64): bv64 { s << 52 }

  function Up17(s: bv64): bv64 { s << 17 }

  function Up34(s: bv64): bv64 { s << 34 }

  function Down7(s: bv64): bv64 { s >> 7 }

  function Down14(s: bv64): bv64 { s >> 14 }

  function Down28(s: bv64): bv64 { s >> 28 }

  function Down56(s: bv64): bv64 { s >> 56 }

  lemma {:induction false} Up13Doubles()
    ensures Doubles(Up13, Up26)
  {}

  lemma {:induction false} Up26Doubles()
    ensures Doubles(Up26, Up52)
  {}

  lemma {:induction false} Up52Doubles()
    ensures Doubles(Up52, Nothing)
  {}

  lemma {:induction false} Up17Doubles()
    ensures Doubles(Up17, Up34)
  {}

  lemma {:induction false} Up34Doubles()
    ensures Doubles(Up34, Nothing)
  {}

  lemma {:induction false} Down7Doubles()
    ensures Doubles(Down7, Down14)
  {}

  lemma {:induction false} Down14Doubles()
    ensures Doubles(Down14, Down28)
  {}

  lemma {:induction false} Down28Doubles()
    ensures Doubles(Down28, Down56)
  {}

  lemma {:induction false} Down56Doubles()
    ensures Doubles(Down56, Nothing)
  {}

  // The generator's three steps, and how to undo them.
  lemma {:induction false} Left13Is(s: bv64)
    ensures Left13(s) == Xor(s, s << 13) && Up13(s) == s << 13
  {}

  lemma {:induction false} Right7Is(s: bv64)
    ensures Right7(s) == Xor(s, s >> 7) && Down7(s) == s >> 7
  {}

  lemma {:induction false} Left17Is(s: bv64)
    ensures Left17(s) == Xor(s, s << 17) && Up17(s) == s << 17
  {}

  lemma {:induction false} Steps(s: bv64)
    ensures Left13(s) == Stir(Up13, s) && Right7(s) == Stir(Down7, s) && Left17(s) == Stir(Up17, s)
  {
    hide Xor, Left13, Right7, Left17, Up13, Down7, Up17;
    Left13Is(s);
    Right7Is(s);
    Left17Is(s);
  }

  function UndoLeft13(s: bv64): bv64 { Stir(Up13, Stir(Up26, Stir(Up52, s))) }

  function UndoRight7(s: bv64): bv64 { Stir(Down7, Stir(Down14, Stir(Down28, Stir(Down56, s)))) }

  function UndoLeft17(s: bv64): bv64 { Stir(Up17, Stir(Up34, s)) }

  lemma {:induction false} Left13Onto(s: bv64)
    ensures Left13(UndoLeft13(s)) == s
    ensures Stir(Up52, Stir(Up26, Stir(Up13, Left13(s)))) == s
  {
    hide Stir, Left13, Right7, Left17, Doubles;
    Steps(UndoLeft13(s));
    Steps(s);
    Up13Doubles();
    Up26Doubles();
    Up52Doubles();
    StirTwice(Up13, Up26, Stir(Up26, Stir(Up52, s)));
    StirTwice(Up26, Up52, Stir(Up52, s));
    StirTwice(Up52, Nothing, s);
    StirNothing(s);
    StirTwice(Up13, Up26, s);
    StirTwice(Up26, Up52, s);
  }

  lemma {:induction false} Right7Onto(s: bv64)
    ensures Right7(UndoRight7(s)) == s
    ensures Stir(Down56, Stir(Down28, Stir(Down14, Stir(Down7, Right7(s))))) == s
  {
    hide Stir, Left13, Right7, Left17, Doubles;
    Steps(UndoRight7(s));
    Steps(s);
    Down7Doubles();
    Down14Doubles();
    Down28Doubles();
    Down56Doubles();
    StirTwice(Down7, Down14, Stir(Down14, Stir(Down28, Stir(Down56, s))));
    StirTwice(Down14, Down28, Stir(Down28, Stir(Down56, s)));
    StirTwice(Down28, Down56, Stir(Down56, s));
    StirTwice(Down56, Nothing, s);
    StirNothing(s);
    StirTwice(Down7, Down14, s);
    StirTwice(Down14, Down28, s);
    StirTwice(Down28, Down56, s);
  }

  lemma {:induction false} Left17Onto(s: bv64)
    ensures Left17(UndoLeft17(s)) == s
    ensures Stir(Up34, Stir(Up17, Left17(s))) == s
  {
    hide Stir, Left13, Right7, Left17, Doubles;
    Steps(UndoLeft17(s));
    Steps(s);
    Up17Doubles();
    Up34Doubles();
    StirTwice(Up17, Up34, Stir(Up34, s));
    StirTwice(Up34, Nothing, s);
    StirNothing(s);
    StirTwice(Up17, Up34, s);
  }

  // No two numbers are taken to the same one.
  lemma {:induction false} StepsUndone(s: bv64)
    ensures UndoLeft13(Left13(s)) == s && UndoRight7(Right7(s)) == s && UndoLeft17(Left17(s)) == s
  {
    hide Stir, Left13, Right7, Left17, UndoLeft13, UndoRight7, UndoLeft17;
    Left13Onto(s);
    Left13Onto(Left13(s));
    Left13Onto(UndoLeft13(Left13(s)));
    Right7Onto(s);
    Right7Onto(Right7(s));
    Right7Onto(UndoRight7(Right7(s)));
    Left17Onto(s);
    Left17Onto(Left17(s));
    Left17Onto(UndoLeft17(Left17(s)));
  }

  // The state before s.
  function Before(s: bv64): bv64 { UndoLeft13(UndoRight7(UndoLeft17(s))) }

  /** Every state comes from exactly one state. */
  lemma {:induction false} OneToOne(s: bv64)
    ensures Before(Xorshift(s)) == s && Xorshift(Before(s)) == s
  {
    hide Left13, Right7, Left17, UndoLeft13, UndoRight7, UndoLeft17;
    StepsUndone(s);
    StepsUndone(Left13(s));
    StepsUndone(Right7(Left13(s)));
    Left17Onto(s);
    Right7Onto(UndoLeft17(s));
    Left13Onto(UndoRight7(UndoLeft17(s)));
  }

  /** The first number from seed 1, and the cell it picks from a pool of 60. */
  lemma {:induction false} SeedOne()
    ensures Xorshift(1) == 0x40822041 && Pick(Xorshift(1), 60) == 21
  {
    assert Word(0x40822041) == 0x40822041;
  }

  // ---- words ----

  const STATES := 0x1_0000_0000_0000_0000

  lemma {:induction false} WordZero()
    ensures Word(0) == 0
  {}

  lemma {:induction false} WordSmall(s: bv64)
    requires Word(s) < STATES / 2
    ensures s < 0x8000_0000_0000_0000
  {}

  lemma {:induction false} WordEven(s: bv64)
    requires s < 0x8000_0000_0000_0000
    ensures Word(s << 1) == 2 * Word(s)
  {}

  lemma {:induction false} WordOdd(s: bv64)
    requires s < 0x8000_0000_0000_0000
    ensures Word((s << 1) | 1) == 2 * Word(s) + 1
  {}

  /** Every number below 2^64 is the value of a state. */
  lemma {:induction false} WordOnto(n: nat) returns (s: bv64)
    requires n < STATES
    ensures Word(s) == n
  {
    hide Word;
    if n == 0 {
      s := 0;
      WordZero();
    } else {
      var half := WordOnto(n / 2);
      WordSmall(half);
      WordEven(half);
      WordOdd(half);
      s := if n % 2 == 0 then half << 1 else (half << 1) | 1;
    }
  }

  lemma {:induction false} WordBack(s: bv64)
    ensures Word(s) < STATES && Word(s) as bv64 == s
  {}

  lemma {:induction false} WordUnique(s: bv64, t: bv64)
    ensures Word(s) == Word(t) <==> s == t
  {
    hide Word;
    WordBack(s);
    WordBack(t);
  }

  /** The index picked is the remainder of the random number. */
  lemma {:induction false} PickIsRemainder(s: bv64, n: nat) returns (q: nat)
    requires n > 0
    ensures Word(s) == q * n + Pick(s, n) && Pick(s, n) < n
  {
    hide Word;
    q := Word(s) / n;
  }

  // Some state makes the next pick any index of a pool that is not larger than the number of states.
  lemma {:induction false} PickOnto(n: nat, k: nat) returns (rng: bv64)
    requires k < n <= STATES
    ensures Pick(Xorshift(rng), n) == k
  {
    hide Word, Xorshift, Before;
    var s := WordOnto(k);
    rng := Before(s);
    OneToOne(s);
    SmallMod(k, n);
  }

  lemma {:induction false} SmallMod(k: nat, n: nat)
    requires k < n
    ensures k % n == k
  {}

  // ---- which cells are mined ----

  /** The first random number mines the pool's cell at its remainder by the pool's size, and later ones leave that mine
      where it is. */
  lemma {:induction false} FirstDrawn(pool: seq<nat>, mine: seq<bool>, need: nat, rng: bv64) returns (q: nat, k: nat)
    requires Distinct(pool) && (forall x :: x in pool ==> x < |mine| && !mine[x]) && pool != [] && need > 0
    ensures k < |pool| && Word(Xorshift(rng)) == q * |pool| + k && pool[k] in pool
    ensures Draw(pool, mine, 1, rng).mine == mine[pool[k] := true]
    ensures pool[k] in TrueAt(Draw(pool, mine, need, rng).mine)
  {
    hide Word, Xorshift, TrueAt, Without, Distinct;
    var s := Xorshift(rng);
    q := PickIsRemainder(s, |pool|);
    k := Pick(s, |pool|);
    WithoutIn(pool, k);
    WithoutFacts(pool, k);
    var rest, more := Without(pool, k), mine[pool[k] := true];
    DrawFacts(rest, more, need - 1, s);
    DrawnNone(rest, more, s);
  }

  lemma {:induction false} DrawnNone(pool: seq<nat>, mine: seq<bool>, rng: bv64)
    requires forall x :: x in pool ==> x < |mine|
    ensures Draw(pool, mine, 0, rng) == Drawn(mine, rng)
  {}

  /** Every cell of a pool that is not larger than the number of states is drawn first from some state. */
  lemma {:induction false} EveryCellDrawn(pool: seq<nat>, mine: seq<bool>, need: nat, x: nat) returns (rng: bv64)
    requires Distinct(pool) && (forall y :: y in pool ==> y < |mine| && !mine[y])
    requires x in pool && |pool| <= STATES && need > 0
    ensures Draw(pool, mine, 1, rng).mine == mine[x := true]
    ensures x in TrueAt(Draw(pool, mine, need, rng).mine)
  {
    hide Word, Xorshift, TrueAt, Draw, Distinct, Pick;
    var k :| 0 <= k < |pool| && pool[k] == x;
    rng := PickOnto(|pool|, k);
    var q, j := FirstDrawn(pool, mine, need, rng);
    PickSame(Xorshift(rng), |pool|, q, j);
  }

  lemma {:induction false} PickSame(s: bv64, n: nat, q: nat, k: nat)
    requires k < n && Word(s) == q * n + k
    ensures Pick(s, n) == k
  {
    hide Word;
    DivMod(q, n, k);
  }

  ghost predicate Ascending(xs: seq<nat>) {
    forall i, j :: 0 <= i < j < |xs| ==> xs[i] < xs[j]
  }

  lemma {:induction false} AscendingNone()
    ensures Ascending([])
  {}

  lemma {:induction false} AscendingSnoc(xs: seq<nat>, x: nat)
    requires Ascending(xs) && forall y :: y in xs ==> y < x
    ensures Ascending(xs + [x])
  {
    assert forall i :: 0 <= i < |xs| ==> xs[i] in xs;
  }

  /** The pool lists its cells in board order. */
  lemma {:induction false} PoolInOrder(dim: Dim, sr: int, sc: int, tiny: bool, k: nat)
    requires dim.cols > 0
    ensures Ascending(PoolUpto(dim, sr, sc, tiny, k))
  {
    hide Spared, Ascending;
    AscendingNone();
    if k > 0 {
      PoolInOrder(dim, sr, sc, tiny, k - 1);
      PoolFacts(dim, sr, sc, tiny, k - 1);
      var pool := PoolUpto(dim, sr, sc, tiny, k - 1);
      AscendingSnoc(pool, k - 1);
      assert pool + [] == pool;
    }
  }

  // Off the clicked square, or, when too few cells lie off it, any but the clicked cell.
  ghost predicate Exposed(dim: Dim, mines: nat, r: int, c: int, x: nat)
    requires dim.InB(r, c)
  {
    && x < dim.Cells()
    && if mines + |dim.Square(r, c)| <= dim.Cells() then x !in dim.Square(r, c) else x != dim.Idx(r, c)
  }

  // The cells of the pool, without the pool.
  lemma {:induction false} PoolIs(dim: Dim, mines: nat, r: int, c: int)
    requires dim.InB(r, c)
    ensures dim.cols > 0
    ensures forall x: nat :: x in Pool(dim, mines, r, c) <==> Exposed(dim, mines, r, c, x)
    ensures Distinct(Pool(dim, mines, r, c)) && |Pool(dim, mines, r, c)| <= dim.Cells()
  {
    hide Dim.SquareUpto, PoolUpto, Dim.Cells;
    PoolSize(dim, r, c, true);
    PoolFacts(dim, r, c, false, dim.Cells());
    PoolFacts(dim, r, c, true, dim.Cells());
    dim.IdxRange(r, c);
    forall x: nat
      ensures x in Pool(dim, mines, r, c) <==> Exposed(dim, mines, r, c, x)
    {
      dim.SquareIs(r, c, x);
      if x < dim.Cells() { dim.CellCoords(x); }
    }
  }

  // The mines of a new game's first click at (r, c).
  ghost function MinesFor(dim: Dim, mines: nat, marksEnabled: bool, diff: nat, seed: bv64, r: int, c: int): set<nat>
    requires dim.InB(r, c)
  {
    FirstClick(Blank(dim, mines, marksEnabled, diff, seed), r, c).MineSet()
  }

  lemma {:induction false} MinesDrawn(dim: Dim, mines: nat, marksEnabled: bool, diff: nat, seed: bv64, r: int, c: int)
    requires dim.InB(r, c)
    ensures dim.cols > 0
    ensures MinesFor(dim, mines, marksEnabled, diff, seed, r, c)
         == TrueAt(Draw(Pool(dim, mines, r, c), Falses(dim.Cells()), mines, seed).mine)
  {
    hide Pool, Draw, Numbers, Dim.Cells;
  }

  /** What a player can meet: after a first click, some seed mines a cell exactly when it lies off the clicked square,
      or, when too few other cells exist for that, is not the clicked cell itself. */
  lemma {:induction false} AnyCellMayBeMined(dim: Dim, mines: nat, marksEnabled: bool, diff: nat, r: int, c: int,
                                             x: nat)
    requires dim.InB(r, c) && 0 < mines && dim.Cells() <= STATES && x < dim.Cells()
    ensures (exists seed :: x in MinesFor(dim, mines, marksEnabled, diff, seed, r, c)) <==> Exposed(dim, mines, r, c, x)
  {
    hide Pool, Draw, MinesFor, TrueAt, Dim.Cells, Exposed;
    PoolIs(dim, mines, r, c);
    var pool, blank := Pool(dim, mines, r, c), Falses(dim.Cells());
    if x in pool {
      var seed := EveryCellDrawn(pool, blank, mines, x);
      MinesDrawn(dim, mines, marksEnabled, diff, seed, r, c);
      assert x in MinesFor(dim, mines, marksEnabled, diff, seed, r, c);
    } else {
      forall seed ensures x !in MinesFor(dim, mines, marksEnabled, diff, seed, r, c) {
        MinesDrawn(dim, mines, marksEnabled, diff, seed, r, c);
        DrawFacts(pool, blank, mines, seed);
        NoneTrue(blank);
      }
    }
  }

  lemma {:induction false} NoneTrue(s: seq<bool>)
    requires forall x: nat :: x < |s| ==> !s[x]
    ensures TrueAt(s) == {}
  {}

  // ---- one game worked out ----

  // The pool of an 8x8 board after a click in the corner: it leaves out cells 0, 1, 8 and 9.
  lemma {:induction false} CornerPool(k: nat)
    requires k <= 64
    ensures |PoolUpto(Dim(8, 8), 0, 0, false, k)|
         == k - (if k < 2 then k else if k < 9 then 2 else if k == 9 then 3 else 4)
    ensures k > 25 ==> PoolUpto(Dim(8, 8), 0, 0, false, k)[21] == 25
  {
    if k > 0 { CornerPool(k - 1); }
  }

  /** Seed 1, a new game of 10 mines on 8x8, a first click in the corner: cell 25 is mined. */
  lemma {:induction false} SeedOneMines(marksEnabled: bool, diff: nat)
    ensures 25 in MinesFor(Dim(8, 8), 10, marksEnabled, diff, 1, 0, 0)
  {
    hide Pool, PoolUpto, Draw, MinesFor, TrueAt, Word, Xorshift, Exposed, Distinct;
    CornerPool(64);
    PoolThere();
    var pool, blank := Pool(Dim(8, 8), 10, 0, 0), Falses(64);
    PoolIs(Dim(8, 8), 10, 0, 0);
    MinesDrawn(Dim(8, 8), 10, marksEnabled, diff, 1, 0, 0);
    var q, k := FirstDrawn(pool, blank, 10, 1);
    SeedOne();
    PickSame(Xorshift(1), 60, q, k);
  }

  lemma {:induction false} PoolThere()
    ensures Pool(Dim(8, 8), 10, 0, 0) == PoolUpto(Dim(8, 8), 0, 0, false, 64)
  {
    hide PoolUpto;
    CornerPool(64);
    assert Dim(8, 8).Cells() == 64;
  }
}
