/** The deterministic deduction pass: cells forced safe or forced to be mines. */
module Deduce {
  import opened Tallies
  import opened Placements
  import opened Posterior
  import opened FreeCells
  import opened Components

  ghost function Cells(c: Con): set<nat> {
    Elems(c.cells)
  }

  ghost predicate Regular(cons: seq<Con>) {
    forall c :: c in cons ==> Distinct(c.cells)
  }

  // Every satisfying assignment leaves these cells empty (full).
  ghost predicate AlwaysSafe(cons: seq<Con>, cells: set<nat>) {
    forall w: World :: Sat(cons, w) ==> cells !! w
  }

  ghost predicate AlwaysMine(cons: seq<Con>, cells: set<nat>) {
    forall w: World :: Sat(cons, w) ==> cells <= w
  }

  lemma {:induction false} TallyIsCard(xs: seq<nat>, w: World)
    requires Distinct(xs)
    ensures Tally(xs, w) == |Elems(xs) * w|
  {
    TallySame(xs, w, Elems(xs) * w);
    TallyCard(xs, Elems(xs) * w);
  }

  // A constraint that needs none (all) of its cells forces them.
  lemma {:induction false} Single(cons: seq<Con>, c: Con)
    requires Regular(cons) && c in cons
    ensures c.need == 0 ==> AlwaysSafe(cons, Cells(c))
    ensures c.need == |Cells(c)| ==> AlwaysMine(cons, Cells(c))
  {
    forall w: World | Sat(cons, w)
      ensures c.need == 0 ==> Cells(c) !! w
      ensures c.need == |Cells(c)| ==> Cells(c) <= w
    {
      TallyIsCard(c.cells, w);
      CardFull(Cells(c), w);
    }
  }

  lemma {:induction false} CardFull(s: set<nat>, w: World)
    ensures |s * w| == 0 ==> s !! w
    ensures |s * w| == |s| ==> s <= w
  {
    if |s * w| == 0 {
      forall x | x in s ensures x !in w {
        assert x !in s * w;
      }
    }
    if |s * w| == |s| { SubsetFull(s * w, s); }
  }

  // A constraint inside another one decides the cells in between.
  lemma {:induction false} SubsetRule(cons: seq<Con>, a: Con, b: Con)
    requires Regular(cons) && a in cons && b in cons && Cells(a) <= Cells(b)
    ensures b.need == a.need ==> AlwaysSafe(cons, Cells(b) - Cells(a))
    ensures b.need - a.need == |Cells(b) - Cells(a)| ==> AlwaysMine(cons, Cells(b) - Cells(a))
  {
    var d := Cells(b) - Cells(a);
    forall w: World | Sat(cons, w)
      ensures b.need == a.need ==> d !! w
      ensures b.need - a.need == |d| ==> d <= w
    {
      TallyIsCard(a.cells, w);
      TallyIsCard(b.cells, w);
      DisjointCard(Cells(a) * w, d * w, Cells(b) * w);
      CardFull(d, w);
    }
  }

  ghost predicate Forced(cons: seq<Con>, safes: set<nat>, mines: set<nat>) {
    && AlwaysSafe(cons, safes) && AlwaysMine(cons, mines)
    && safes <= Mentioned(cons) && mines <= Mentioned(cons)
  }

  lemma {:induction false} CellsMentioned(cons: seq<Con>, c: Con)
    requires c in cons
    ensures Cells(c) <= Mentioned(cons)
  {
    forall x | x in Cells(c) ensures x in Mentioned(cons) {
      assert x in c.cells;
    }
  }

  function CellSet(xs: seq<nat>): (s: set<nat>)
    ensures s == Elems(xs)
  {
    set x | x in xs
  }

  // Nothing more follows from c alone.
  ghost predicate SingleClosed(c: Con, safes: set<nat>, mines: set<nat>) {
    && (c.need == 0 ==> Cells(c) <= safes)
    && (c.need == |Cells(c)| && c.need != 0 ==> Cells(c) <= mines)
  }

  ghost predicate Singles(cons: seq<Con>, safes: set<nat>, mines: set<nat>) {
    forall i :: 0 <= i < |cons| ==> SingleClosed(cons[i], safes, mines)
  }

  // Nothing more follows from a being inside b.
  ghost predicate PairClosed(a: Con, b: Con, safes: set<nat>, mines: set<nat>) {
    var diff := Cells(b) - Cells(a);
    Cells(a) < Cells(b) ==>
      && (b.need == a.need ==> diff <= safes)
      && (b.need - a.need == |diff| ==> diff <= mines)
  }

  // A constraint that needs none (all) of its cells decides x, or one inside another whose need is the same (as much
  // less as it has fewer cells).
  ghost predicate YieldsSafe(cons: seq<Con>, x: nat) {
    || (exists c :: c in cons && c.need == 0 && x in Cells(c))
    || (exists a, b :: a in cons && b in cons && Cells(a) < Cells(b) && b.need == a.need && x in Cells(b) - Cells(a))
  }

  ghost predicate YieldsMine(cons: seq<Con>, x: nat) {
    || (exists c :: c in cons && c.need == |Cells(c)| && x in Cells(c))
    || (exists a, b :: a in cons && b in cons && Cells(a) < Cells(b) && b.need - a.need == |Cells(b) - Cells(a)| &&
          x in Cells(b) - Cells(a))
  }

  ghost predicate Justified(cons: seq<Con>, safes: set<nat>, mines: set<nat>) {
    (forall x :: x in safes ==> YieldsSafe(cons, x)) && (forall x :: x in mines ==> YieldsMine(cons, x))
  }

  lemma {:induction false} Unjustified(cons: seq<Con>)
    ensures Justified(cons, {}, {})
  {}

  lemma {:induction false} SingleYields(cons: seq<Con>, c: Con)
    requires c in cons
    ensures forall x :: x in Cells(c) ==>
              (c.need == 0 ==> YieldsSafe(cons, x)) && (c.need == |Cells(c)| ==> YieldsMine(cons, x))
  {}

  lemma {:induction false} PairYields(cons: seq<Con>, a: Con, b: Con)
    requires a in cons && b in cons && Cells(a) < Cells(b)
    ensures forall x :: x in Cells(b) - Cells(a) ==>
              && (b.need == a.need ==> YieldsSafe(cons, x))
              && (b.need - a.need == |Cells(b) - Cells(a)| ==> YieldsMine(cons, x))
  {}

  // One constraint on its own.
  method Simple(cons: seq<Con>) returns (safes: set<nat>, mines: set<nat>)
    requires Regular(cons)
    ensures Forced(cons, safes, mines) && Singles(cons, safes, mines) && Justified(cons, safes, mines)
  {
    hide Justified;
    safes, mines := {}, {};
    Unjustified(cons);
    for i := 0 to |cons|
      invariant Forced(cons, safes, mines) && Justified(cons, safes, mines)
      invariant forall k :: 0 <= k < i ==> SingleClosed(cons[k], safes, mines)
    {
      var c := cons[i];
      var cells := CellSet(c.cells);
      Single(cons, c);
      CellsMentioned(cons, c);
      SingleJustified(cons, c, safes, mines);
      if c.need == 0 {
        safes := safes + cells;
      } else if c.need == |cells| {
        mines := mines + cells;
      }
    }
  }

  lemma {:induction false} SingleJustified(cons: seq<Con>, c: Con, safes: set<nat>, mines: set<nat>)
    requires c in cons && Justified(cons, safes, mines)
    ensures c.need == 0 ==> Justified(cons, safes + Cells(c), mines)
    ensures c.need == |Cells(c)| ==> Justified(cons, safes, mines + Cells(c))
  {
    hide YieldsSafe, YieldsMine;
    SingleYields(cons, c);
  }

  lemma {:induction false} PairJustified(cons: seq<Con>, a: Con, b: Con, safes: set<nat>, mines: set<nat>)
    requires a in cons && b in cons && Cells(a) < Cells(b) && Justified(cons, safes, mines)
    ensures b.need == a.need ==> Justified(cons, safes + (Cells(b) - Cells(a)), mines)
    ensures b.need - a.need == |Cells(b) - Cells(a)| ==> Justified(cons, safes, mines + (Cells(b) - Cells(a)))
  {
    hide YieldsSafe, YieldsMine;
    PairYields(cons, a, b);
  }

  // One pair of constraints: returns the enlarged sets and whether anything was new.
  method Pair(cons: seq<Con>, a: Con, b: Con, safes0: set<nat>, mines0: set<nat>)
      returns (safes: set<nat>, mines: set<nat>, changed: bool)
    requires Regular(cons) && a in cons && b in cons && Forced(cons, safes0, mines0) && Justified(cons, safes0, mines0)
    ensures Forced(cons, safes, mines) && safes0 <= safes && mines0 <= mines && Justified(cons, safes, mines)
    ensures changed <==> safes != safes0 || mines != mines0
    ensures PairClosed(a, b, safes, mines)
  {
    hide Justified;
    safes, mines, changed := safes0, mines0, false;
    var ca, cb := CellSet(a.cells), CellSet(b.cells);
    if ca == cb || !(ca <= cb) {
      return;
    }
    SubsetRule(cons, a, b);
    CellsMentioned(cons, b);
    PairJustified(cons, a, b, safes, mines);
    var diff := cb - ca;
    var need := b.need - a.need;
    if need == 0 && diff != {} {
      if !(diff <= safes) {
        safes := safes + diff;
        changed := true;
      }
    } else if need == |diff| && diff != {} {
      if !(diff <= mines) {
        mines := mines + diff;
        changed := true;
      }
    }
  }

  lemma {:induction false} Shrinks(u: set<nat>, s: set<nat>, s': set<nat>)
    requires s <= s' <= u
    ensures |u - s'| <= |u - s|
    ensures s != s' ==> |u - s'| < |u - s|
  {
    assert u - s == (u - s') + (s' - s);
    if s != s' { assert s' - s != {}; }
  }

  // The sets grew from (safes0, mines0), and `changed` says whether they did.
  ghost predicate Grown(cons: seq<Con>, safes0: set<nat>, mines0: set<nat>, safes: set<nat>, mines: set<nat>,
                        changed: bool) {
    && Forced(cons, safes, mines) && Justified(cons, safes, mines) && safes0 <= safes && mines0 <= mines
    && (changed <==> safes != safes0 || mines != mines0)
  }

  ghost predicate RowClosed(cons: seq<Con>, a: Con, k: nat, safes: set<nat>, mines: set<nat>)
    requires k <= |cons|
  {
    forall j: nat :: j < k ==> PairClosed(a, cons[j], safes, mines)
  }

  lemma {:induction false} RowGrows(cons: seq<Con>, a: Con, k: nat, safes: set<nat>, mines: set<nat>,
                                    safes': set<nat>, mines': set<nat>)
    requires k <= |cons| && RowClosed(cons, a, k, safes, mines) && safes <= safes' && mines <= mines'
    ensures RowClosed(cons, a, k, safes', mines')
  {
    forall j: nat | j < k ensures PairClosed(a, cons[j], safes', mines') {
      assert PairClosed(a, cons[j], safes, mines);
    }
  }

  // All pairs with a fixed first constraint.
  method Row(cons: seq<Con>, a: Con, safes0: set<nat>, mines0: set<nat>)
      returns (safes: set<nat>, mines: set<nat>, changed: bool)
    requires Regular(cons) && Forced(cons, safes0, mines0) && Justified(cons, safes0, mines0) && a in cons
    ensures Grown(cons, safes0, mines0, safes, mines, changed)
    ensures RowClosed(cons, a, |cons|, safes, mines)
  {
    safes, mines, changed := safes0, mines0, false;
    for j := 0 to |cons|
      invariant Grown(cons, safes0, mines0, safes, mines, changed)
      invariant RowClosed(cons, a, j, safes, mines)
    {
      var safes', mines', more := Pair(cons, a, cons[j], safes, mines);
      RowGrows(cons, a, j, safes, mines, safes', mines');
      safes, mines, changed := safes', mines', changed || more;
    }
  }

  ghost predicate SweepClosed(cons: seq<Con>, k: nat, safes: set<nat>, mines: set<nat>)
    requires k <= |cons|
  {
    forall i: nat :: i < k ==> RowClosed(cons, cons[i], |cons|, safes, mines)
  }

  lemma {:induction false} SweepGrows(cons: seq<Con>, i: nat, safes: set<nat>, mines: set<nat>, safes': set<nat>,
                                      mines': set<nat>)
    requires i < |cons| && SweepClosed(cons, i, safes, mines) && safes <= safes' && mines <= mines'
    requires RowClosed(cons, cons[i], |cons|, safes', mines')
    ensures SweepClosed(cons, i + 1, safes', mines')
  {
    forall k: nat | k < i ensures RowClosed(cons, cons[k], |cons|, safes', mines') {
      RowGrows(cons, cons[k], |cons|, safes, mines, safes', mines');
    }
  }

  lemma {:induction false} GrownTrans(cons: seq<Con>, safes0: set<nat>, mines0: set<nat>, safes: set<nat>,
                                      mines: set<nat>, changed: bool, safes': set<nat>, mines': set<nat>, more: bool)
    requires Grown(cons, safes0, mines0, safes, mines, changed)
    requires Grown(cons, safes, mines, safes', mines', more)
    ensures Grown(cons, safes0, mines0, safes', mines', changed || more)
  {}

  // One sweep over all ordered pairs.
  method Sweep(cons: seq<Con>, safes0: set<nat>, mines0: set<nat>)
      returns (safes: set<nat>, mines: set<nat>, changed: bool)
    requires Regular(cons) && Forced(cons, safes0, mines0) && Justified(cons, safes0, mines0)
    ensures Grown(cons, safes0, mines0, safes, mines, changed)
    ensures SweepClosed(cons, |cons|, safes, mines)
  {
    safes, mines, changed := safes0, mines0, false;
    for i := 0 to |cons|
      invariant Grown(cons, safes0, mines0, safes, mines, changed)
      invariant SweepClosed(cons, i, safes, mines)
    {
      var safes', mines', more := Row(cons, cons[i], safes, mines);
      SweepGrows(cons, i, safes, mines, safes', mines');
      GrownTrans(cons, safes0, mines0, safes, mines, changed, safes', mines', more);
      safes, mines, changed := safes', mines', changed || more;
    }
  }

  // Cells that are still undecided.
  ghost function Undecided(cons: seq<Con>, safes: set<nat>, mines: set<nat>): nat {
    |Mentioned(cons) - safes| + |Mentioned(cons) - mines|
  }

  lemma {:induction false} SweepStep(cons: seq<Con>, safes: set<nat>, mines: set<nat>, safes': set<nat>,
                                     mines': set<nat>, more: bool)
    requires Forced(cons, safes, mines) && Singles(cons, safes, mines)
    requires Grown(cons, safes, mines, safes', mines', more)
    ensures Forced(cons, safes', mines') && Singles(cons, safes', mines') && Justified(cons, safes', mines')
    ensures Undecided(cons, safes', mines') <= Undecided(cons, safes, mines)
    ensures more ==> Undecided(cons, safes', mines') < Undecided(cons, safes, mines)
  {
    hide Mentioned, AlwaysSafe, AlwaysMine;
    Shrinks(Mentioned(cons), safes, safes');
    Shrinks(Mentioned(cons), mines, mines');
  }

  // Closed under both rules: everything that they yield is there.
  lemma {:induction false} ClosedHasAll(cons: seq<Con>, safes: set<nat>, mines: set<nat>, x: nat)
    requires Singles(cons, safes, mines) && SweepClosed(cons, |cons|, safes, mines)
    ensures YieldsSafe(cons, x) ==> x in safes
    ensures YieldsMine(cons, x) ==> x in mines
  {
    hide Cells;
    forall c | c in cons ensures SingleClosed(c, safes, mines) {
      var i :| 0 <= i < |cons| && cons[i] == c;
    }
    forall a, b | a in cons && b in cons ensures PairClosed(a, b, safes, mines) {
      var i: nat :| i < |cons| && cons[i] == a;
      var j: nat :| j < |cons| && cons[j] == b;
      assert RowClosed(cons, cons[i], |cons|, safes, mines);
    }
    NoNeed(x);
  }

  lemma {:induction false} NoNeed(x: nat)
    ensures forall c: Con :: |Cells(c)| == 0 ==> x !in Cells(c)
  {}

  /** The fixpoint: every reported cell is forced by the constraints alone, and exactly those are reported that some
      constraint by itself or some pair of constraints decides. */
  method DeduceAll(cons: seq<Con>) returns (safes: set<nat>, mines: set<nat>)
    requires Regular(cons)
    ensures Forced(cons, safes, mines) && Singles(cons, safes, mines)
    ensures SweepClosed(cons, |cons|, safes, mines)
    ensures forall x :: (x in safes <==> YieldsSafe(cons, x)) && (x in mines <==> YieldsMine(cons, x))
  {
    hide Forced, Singles, SweepClosed, Grown, Undecided, YieldsSafe, YieldsMine;
    safes, mines := Simple(cons);
    var changed := true;
    while changed
      invariant Forced(cons, safes, mines) && Singles(cons, safes, mines) && Justified(cons, safes, mines)
      invariant !changed ==> SweepClosed(cons, |cons|, safes, mines)
      decreases Undecided(cons, safes, mines), if changed then 1 else 0
    {
      var safes', mines', more := Sweep(cons, safes, mines);
      SweepStep(cons, safes, mines, safes', mines', more);
      safes, mines, changed := safes', mines', more;
    }
    forall x ensures (x in safes <==> YieldsSafe(cons, x)) && (x in mines <==> YieldsMine(cons, x)) {
      ClosedHasAll(cons, safes, mines, x);
    }
  }

  /** Deduction agrees with the probability pass: on a consistent board a cell
      deduced safe has probability exactly 0 and a deduced mine exactly 1. */
  lemma {:induction false} DeducedChance(h: set<nat>, cons: seq<Con>, mineCount: int, safes: set<nat>,
                                         mines: set<nat>, x: nat)
    requires Forced(cons, safes, mines) && N(h, cons, mineCount) > 0
    ensures x in safes ==> Chance(h, cons, mineCount, x) == 0.0
    ensures x in mines ==> Chance(h, cons, mineCount, x) == 1.0
    ensures safes !! mines
  {
    ChanceRange(h, cons, mineCount, x);
    forall w | w in Worlds(h, cons, mineCount)
      ensures safes !! w && mines <= w
    {
      assert Sat(cons, w);
    }
    var w :| w in Worlds(h, cons, mineCount);
  }
}
