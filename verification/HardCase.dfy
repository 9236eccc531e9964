/** A component that the recursion can afford and the explicit-stack search cannot. */
module HardCase {
  import opened Tallies
  import opened Placements
  import opened SearchSpec
  import opened Search
  import opened Effort
  import opened ComponentSolver
  import opened RecursiveSolver
  import opened UnionFind
  import opened Components
  import opened Classes
  import opened Compaction

  // ---- counting by what is left of each constraint ----

  // Mines still needed and cells still open, by constraint.
  type Profile = seq<(int, int)>

  ghost function ProfileOf(cons: seq<Con>, xs: seq<nat>, path: seq<int>): (p: Profile)
    requires |path| <= |xs|
    ensures |p| == |cons|
  {
    seq(|cons|, k requires 0 <= k < |cons| =>
      (cons[k].need - Tally(cons[k].cells, Ones(xs, path)), Tally(cons[k].cells, Open(xs, path))))
  }

  ghost predicate AllFit(p: Profile) {
    forall k :: 0 <= k < |p| ==> 0 <= p[k].0 <= p[k].1
  }

  lemma {:induction false} FitIsRoom(cons: seq<Con>, xs: seq<nat>, path: seq<int>)
    requires |path| <= |xs|
    ensures AllFit(ProfileOf(cons, xs, path)) <==> Room(cons, xs, path)
  {
    var p := ProfileOf(cons, xs, path);
    forall k | 0 <= k < |cons| ensures cons[k] in cons {}
    if AllFit(p) {
      forall c | c in cons ensures 0 <= c.need - Tally(c.cells, Ones(xs, path)) <= Tally(c.cells, Open(xs, path)) {
        var k :| 0 <= k < |cons| && cons[k] == c;
        assert 0 <= p[k].0 <= p[k].1;
      }
    }
  }

  // Nodes below a position when every later cell lies in one constraint only, its owner.
  ghost function Grow(p: Profile, owners: seq<nat>, leaf: nat): nat
    requires forall k :: 0 <= k < |owners| ==> owners[k] < |p|
    decreases |owners|, 1
  {
    if owners == [] then leaf else Try(p, owners, 0, leaf) + Try(p, owners, 1, leaf)
  }

  ghost function Try(p: Profile, owners: seq<nat>, v: int, leaf: nat): nat
    requires owners != [] && forall k :: 0 <= k < |owners| ==> owners[k] < |p|
    decreases |owners|, 0
  {
    var q := Spend(p, owners[0], v);
    if AllFit(q) then 1 + Grow(q, owners[1..], leaf) else 0
  }

  function Spend(p: Profile, i: nat, v: int): Profile
    requires i < |p|
  {
    p[i := (p[i].0 - v, p[i].1 - 1)]
  }

  // Cell l lies in constraint k exactly when k is its owner.
  ghost predicate Owned(cons: seq<Con>, xs: seq<nat>, start: nat, owners: seq<nat>) {
    && start + |owners| == |xs|
    && forall j :: 0 <= j < |owners| ==>
         owners[j] < |cons| && OwnedBy(cons, xs[start + j], owners[j])
  }

  ghost predicate OwnedBy(cons: seq<Con>, x: nat, i: nat) {
    forall k: nat :: k < |cons| ==> (x in cons[k].cells <==> k == i)
  }

  lemma {:induction false} SpendIs(cons: seq<Con>, xs: seq<nat>, path: seq<int>, v: int, i: nat)
    requires Distinct(xs) && (forall c :: c in cons ==> Distinct(c.cells)) && IsPath(xs, path) && |path| < |xs|
    requires (v == 0 || v == 1) && i < |cons| && OwnedBy(cons, xs[|path|], i)
    ensures ProfileOf(cons, xs, path + [v]) == Spend(ProfileOf(cons, xs, path), i, v)
  {
    var p, q := ProfileOf(cons, xs, path), ProfileOf(cons, xs, path + [v]);
    forall k: nat | k < |cons| ensures q[k] == Spend(p, i, v)[k] {
      assert cons[k] in cons;
      CountersSnoc(cons[k], xs, path, v);
    }
  }

  lemma {:induction false} GrowIsNodes(cons: seq<Con>, xs: seq<nat>, path: seq<int>, owners: seq<nat>)
    requires Distinct(xs) && (forall c :: c in cons ==> Distinct(c.cells)) && IsPath(xs, path)
    requires Owned(cons, xs, |path|, owners)
    ensures Nodes(cons, xs, path) == Grow(ProfileOf(cons, xs, path), owners, 1)
    ensures Calls(cons, xs, path) == 1 + Grow(ProfileOf(cons, xs, path), owners, 0)
    decreases |owners|, 1
  {
    hide Room, AllFit, ProfileOf;
    if owners != [] {
      TryIsBranch(cons, xs, path, owners, 0);
      TryIsBranch(cons, xs, path, owners, 1);
    }
  }

  lemma {:induction false} TryIsBranch(cons: seq<Con>, xs: seq<nat>, path: seq<int>, owners: seq<nat>, v: int)
    requires Distinct(xs) && (forall c :: c in cons ==> Distinct(c.cells)) && IsPath(xs, path)
    requires owners != [] && Owned(cons, xs, |path|, owners) && (v == 0 || v == 1)
    ensures |path| < |xs|
    ensures Branch(cons, xs, path, v) == Try(ProfileOf(cons, xs, path), owners, v, 1)
    ensures CallsOf(cons, xs, path, v) == Try(ProfileOf(cons, xs, path), owners, v, 0)
    decreases |owners|, 0
  {
    hide Room, AllFit, ProfileOf, Nodes, Calls;
    var more := path + [v];
    assert xs[|path| + 0] == xs[|path|];
    SpendIs(cons, xs, path, v, owners[0]);
    FitIsRoom(cons, xs, more);
    forall j | 0 <= j < |owners| - 1
      ensures owners[1..][j] < |cons| && OwnedBy(cons, xs[|more| + j], owners[1..][j])
    {
      assert xs[|path| + (j + 1)] == xs[|more| + j];
    }
    GrowIsNodes(cons, xs, more, owners[1..]);
  }

  // ---- one constraint after the other ----

  // Feasible values below a constraint that needs n of its r open cells, and its solutions.
  function Tries(n: int, r: nat): nat {
    if r == 0 then 0
    else
      (if 0 <= n < r then 1 + Tries(n, r - 1) else 0) + (if 1 <= n <= r then 1 + Tries(n - 1, r - 1) else 0)
  }

  function Ways(n: int, r: nat): nat {
    if r == 0 then 1
    else (if 0 <= n < r then Ways(n, r - 1) else 0) + (if 1 <= n <= r then Ways(n - 1, r - 1) else 0)
  }

  function Rep(i: nat, r: nat): seq<nat> { seq(r, _ => i) }

  // Assigning all the cells of one constraint first.
  lemma {:induction false} BlockGrow(p: Profile, i: nat, n: int, r: nat, rest: seq<nat>, leaf: nat)
    requires i < |p| && p[i] == (n, r) && AllFit(p) && forall k :: 0 <= k < |rest| ==> rest[k] < |p|
    ensures forall k :: 0 <= k < |Rep(i, r) + rest| ==> (Rep(i, r) + rest)[k] < |p|
    ensures Grow(p, Rep(i, r) + rest, leaf) == Tries(n, r) + Ways(n, r) * Grow(p[i := (0, 0)], rest, leaf)
    decreases r, 1
  {
    hide AllFit, Spend;
    var after := Grow(p[i := (0, 0)], rest, leaf);
    if r == 0 {
      NothingOpen(p, i);
      assert Rep(i, 0) + rest == rest;
    } else {
      var owners := Rep(i, r) + rest;
      assert owners[0] == i && owners[1..] == Rep(i, r - 1) + rest;
      BlockTry(p, i, n, r, rest, 0, leaf);
      BlockTry(p, i, n, r, rest, 1, leaf);
      Distribute(if 0 <= n < r then Ways(n, r - 1) else 0, if 1 <= n <= r then Ways(n - 1, r - 1) else 0, after);
    }
  }

  lemma {:induction false} NothingOpen(p: Profile, i: nat)
    requires i < |p| && AllFit(p) && p[i].1 == 0
    ensures p[i := (0, 0)] == p
  {}

  lemma {:induction false} Distribute(a: nat, b: nat, c: nat)
    ensures (a + b) * c == a * c + b * c
  {}

  lemma {:induction false} SpendFits(p: Profile, i: nat, n: int, r: nat, v: int)
    requires i < |p| && p[i] == (n, r) && AllFit(p)
    ensures AllFit(Spend(p, i, v)) <==> 0 <= n - v <= r - 1
    ensures Spend(p, i, v)[i] == (n - v, r - 1) && |Spend(p, i, v)| == |p|
    ensures Spend(p, i, v)[i := (0, 0)] == p[i := (0, 0)]
  {
    var q := Spend(p, i, v);
    if AllFit(q) { assert 0 <= q[i].0 <= q[i].1; }
  }

  lemma {:induction false} BlockTry(p: Profile, i: nat, n: int, r: nat, rest: seq<nat>, v: int, leaf: nat)
    requires i < |p| && p[i] == (n, r) && r > 0 && AllFit(p) && forall k :: 0 <= k < |rest| ==> rest[k] < |p|
    requires v == 0 || v == 1
    ensures forall k :: 0 <= k < |Rep(i, r) + rest| ==> (Rep(i, r) + rest)[k] < |p|
    ensures Try(p, Rep(i, r) + rest, v, leaf)
         == if 0 <= n - v <= r - 1
            then 1 + Tries(n - v, r - 1) + Ways(n - v, r - 1) * Grow(p[i := (0, 0)], rest, leaf)
            else 0
    decreases r, 0
  {
    hide AllFit, Spend;
    var owners := Rep(i, r) + rest;
    assert owners[0] == i && owners[1..] == Rep(i, r - 1) + rest;
    SpendFits(p, i, n, r, v);
    if 0 <= n - v <= r - 1 { BlockGrow(Spend(p, i, v), i, n - v, r - 1, rest, leaf); }
  }

  // ---- the component ----

  // Cells lo, lo + 1, ...
  function Run(lo: nat, n: nat): seq<nat> { seq(n, i requires 0 <= i < n => lo + i) }

  // Four numbers that share cell 0; the first has five hidden neighbours, the others eight.
  function Hard(): seq<Con> {
    [Con([0] + Run(1, 4), 2), Con([0] + Run(5, 7), 4), Con([0] + Run(12, 7), 4), Con([0] + Run(19, 7), 4)]
  }

  function First(k: nat): nat { if k == 0 then 1 else 7 * k - 2 }

  function Size(k: nat): nat { if k == 0 then 4 else 7 }

  lemma {:induction false} InRun(lo: nat, n: nat, x: nat)
    ensures x in Run(lo, n) <==> lo <= x < lo + n
    ensures Distinct([0] + Run(lo + 1, n))
  {
    if lo <= x < lo + n { assert Run(lo, n)[x - lo] == x; }
  }

  lemma {:induction false} InHard(k: nat, x: nat)
    requires k < 4
    ensures x in Hard()[k].cells <==> x == 0 || First(k) <= x < First(k) + Size(k)
    ensures Distinct(Hard()[k].cells) && |Hard()[k].cells| == 1 + Size(k) <= 8
    ensures Hard()[k].cells != [] && Hard()[k].cells[0] == 0 && 0 <= Hard()[k].need <= |Hard()[k].cells|
  {
    InRun(First(k), Size(k), x);
    InRun(First(k) - 1, Size(k), x);
    assert Hard()[k].cells == [0] + Run(First(k), Size(k));
  }

  // Its cells in the order in which the component gets them, and the order of the search.
  function HardCells(): seq<nat> { seq(26, i requires 0 <= i < 26 => 25 - i) }

  function HardOrder(): seq<nat> { [25] + seq(25, i requires 0 <= i < 25 => i) }

  function HardSearch(): seq<nat> { [0] + seq(25, i requires 0 <= i < 25 => 25 - i) }

  function HardOwners(): seq<nat> { Rep(3, 7) + (Rep(2, 7) + (Rep(1, 7) + (Rep(0, 4) + []))) }

  lemma {:induction false} OwnerOf(x: nat)
    requires 1 <= x < 26
    ensures OwnedBy(Hard(), x, if x < 5 then 0 else (x + 2) / 7)
  {
    forall k: nat | k < 4 ensures x in Hard()[k].cells <==> k == if x < 5 then 0 else (x + 2) / 7 {
      InHard(k, x);
    }
  }

  lemma {:induction false} HardDegree(x: nat)
    requires x < 26
    ensures Degree(Hard(), x) == if x == 0 then 4 else 1
  {
    hide Hard;
    HardFour();
    var hits := set ci: nat | ci < |Hard()| && x in Hard()[ci].cells;
    if x == 0 {
      forall ci: nat | ci < 4 ensures 0 in Hard()[ci].cells { InHard(ci, 0); }
      assert hits == {0, 1, 2, 3};
    } else {
      OwnerOf(x);
      assert hits == {if x < 5 then 0 else (x + 2) / 7};
    }
  }

  lemma {:induction false} HardFour()
    ensures |Hard()| == 4
  {}

  lemma {:induction false} HardOrdered()
    ensures SearchCells(HardCells(), Hard()) == HardSearch()
  {
    hide Hard, Degree;
    var cells, order, len := HardCells(), HardOrder(), Degrees(HardCells(), Hard());
    forall i | 0 <= i < 26 ensures len[i] == if i == 25 then 4 else 1 {
      HardDegree(cells[i]);
    }
    assert Arrangement(order, 26);
    assert Leading(len, order, 26);
    SearchOrderIs(cells, Hard(), order);
    assert Ordered(cells, order) == HardSearch();
  }

  lemma {:induction false} HardWellFormed()
    ensures WellFormed(HardCells(), Hard())
    ensures forall c :: c in Hard() ==> Distinct(c.cells)
  {
    hide Hard;
    HardFour();
    forall c | c in Hard()
      ensures c.cells != [] && Distinct(c.cells) && Elems(c.cells) <= Elems(HardCells()) && 0 <= c.need <= |c.cells|
    {
      var k :| 0 <= k < 4 && Hard()[k] == c;
      InHard(k, 0);
      forall x | x in Elems(c.cells) ensures x in Elems(HardCells()) {
        InHard(k, x);
        assert HardCells()[25 - x] == x;
      }
    }
  }

  // ---- its cost ----

  lemma {:induction false} Four()
    ensures Tries(0, 4) == 4 && Tries(1, 4) == 13 && Tries(2, 4) == 18 && Tries(3, 4) == 13 && Tries(4, 4) == 4
    ensures Ways(0, 4) == 1 && Ways(1, 4) == 4 && Ways(2, 4) == 6 && Ways(3, 4) == 4 && Ways(4, 4) == 1
  {
    assert Tries(0, 2) == 2 && Tries(1, 2) == 4 && Tries(2, 2) == 2;
    assert Ways(0, 2) == 1 && Ways(1, 2) == 2 && Ways(2, 2) == 1;
  }

  lemma {:induction false} Seven()
    ensures Tries(4, 7) == Tries(3, 7) == 124 && Ways(4, 7) == Ways(3, 7) == 35
  {
    Four();
    assert Tries(1, 5) == 19 && Tries(2, 5) == 33 && Tries(3, 5) == 33 && Tries(4, 5) == 19;
    assert Ways(1, 5) == 5 && Ways(2, 5) == 10 && Ways(3, 5) == 10 && Ways(4, 5) == 5;
    assert Tries(2, 6) == 54 && Tries(3, 6) == 68 && Tries(4, 6) == 54;
    assert Ways(2, 6) == 15 && Ways(3, 6) == 20 && Ways(4, 6) == 15;
  }

  // After the shared cell the constraints are independent.
  lemma {:induction false} ChainGrow(p: Profile, a: int, b: int, leaf: nat)
    requires p == [(a, 4), (b, 7), (b, 7), (b, 7)] && 0 <= a <= 4 && 0 <= b <= 7
    ensures var e0 := Tries(a, 4) + Ways(a, 4) * leaf;
      var e1 := Tries(b, 7) + Ways(b, 7) * e0;
      var e2 := Tries(b, 7) + Ways(b, 7) * e1;
      Grow(p, HardOwners(), leaf) == Tries(b, 7) + Ways(b, 7) * e2
  {
    hide Tries, Ways, Grow;
    var p3 := p[3 := (0, 0)];
    var p2 := p3[2 := (0, 0)];
    var p1 := p2[1 := (0, 0)];
    var r0 := Rep(0, 4) + [];
    var r1 := Rep(1, 7) + r0;
    var r2 := Rep(2, 7) + r1;
    BlockGrow(p1, 0, a, 4, [], leaf);
    GrowLeaf(p1[0 := (0, 0)], leaf);
    BlockGrow(p2, 1, b, 7, r0, leaf);
    BlockGrow(p3, 2, b, 7, r1, leaf);
    BlockGrow(p, 3, b, 7, r2, leaf);
  }

  lemma {:induction false} GrowLeaf(p: Profile, leaf: nat)
    ensures Grow(p, [], leaf) == leaf
  {}

  // What the shared cell leaves.
  lemma {:induction false} AfterShared(v: int)
    requires v == 0 || v == 1
    ensures ProfileOf(Hard(), HardSearch(), [v]) == [(2 - v, 4), (4 - v, 7), (4 - v, 7), (4 - v, 7)]
  {
    hide Tally, Hard;
    HardFour();
    Needs();
    var p := ProfileOf(Hard(), HardSearch(), [v]);
    forall k: nat | k < 4 ensures p[k] == (Hard()[k].need - v, Size(k)) {
      SharedCounts(k, v);
    }
  }

  lemma {:induction false} Needs()
    ensures Hard()[0].need == 2 && Hard()[1].need == Hard()[2].need == Hard()[3].need == 4
  {}

  lemma {:induction false} SharedCounts(k: nat, v: int)
    requires k < 4 && (v == 0 || v == 1)
    ensures |Hard()| == 4
    ensures Tally(Hard()[k].cells, Ones(HardSearch(), [v])) == v
    ensures Tally(Hard()[k].cells, Open(HardSearch(), [v])) == Size(k)
  {
    hide Tally, Hard;
    HardFour();
    var cells, xs := Hard()[k].cells, HardSearch();
    InHard(k, 0);
    assert Ones(xs, []) == {} && [] + [v] == [v];
    TallyZero(cells, {});
    CountersSnoc(Hard()[k], xs, [], v);
    forall x | x in cells ensures x in Elems(xs) {
      InHard(k, x);
      if x > 0 { assert xs[1 + (25 - x)] == x; }
    }
    assert xs[0..] == xs;
    TallyFull(cells, Elems(xs));
  }

  lemma {:induction false} HardOwned()
    ensures Owned(Hard(), HardSearch(), 1, HardOwners())
  {
    hide Hard;
    HardFour();
    forall j | 0 <= j < 25 ensures HardOwners()[j] < 4 && OwnedBy(Hard(), HardSearch()[1 + j], HardOwners()[j]) {
      OwnerOf(25 - j);
    }
  }

  lemma {:induction false} AfterNodes(v: int)
    requires v == 0 || v == 1
    ensures Branch(Hard(), HardSearch(), [], v) == if v == 0 then 1185365 else 885240
    ensures CallsOf(Hard(), HardSearch(), [], v) == if v == 0 then 928115 else 713740
  {
    hide Hard, Tries, Ways, Grow, Room, Nodes, Calls, Owned;
    var xs := HardSearch();
    var p := ProfileOf(Hard(), xs, [v]);
    assert [] + [v] == [v];
    AfterShared(v);
    FitIsRoom(Hard(), xs, [v]);
    HardWellFormed();
    HardOwned();
    GrowIsNodes(Hard(), xs, [v], HardOwners());
    ChainGrow(p, 2 - v, 4 - v, 0);
    ChainGrow(p, 2 - v, 4 - v, 1);
    Four();
    Seven();
  }

  /** With this component the budgets part: the recursion makes 1641856 calls, the explicit stack counts 2070605. */
  lemma {:induction false} BudgetsPart()
    ensures WellFormed(HardCells(), Hard()) && forall c :: c in Hard() ==> |c.cells| <= 8
    ensures NodeCost(HardCells(), Hard()) == 2070605 > NODE_BUDGET
    ensures CallCost(HardCells(), Hard()) == 1641856 <= NODE_BUDGET
  {
    hide Hard, WellFormed;
    HardFour();
    HardWellFormed();
    HardOrdered();
    AfterNodes(0);
    AfterNodes(1);
    forall c | c in Hard() ensures |c.cells| <= 8 {
      var k :| 0 <= k < 4 && Hard()[k] == c;
      InHard(k, 0);
    }
  }

  // ---- beside a component that is within the budget ----

  // The hard component first, then a number with a single hidden neighbour.
  function Both(): seq<Con> { Hard() + [Con([26], 1)] }

  lemma {:induction false} AddedRun(m: nat, n: nat)
    requires m > 0
    ensures Added(Run(0, m), [0] + Run(m, n)) == Run(0, m + n)
  {
    var cells := [0] + Run(m, n);
    if n == 0 {
      assert cells == [0] && cells[..0] == [];
      assert Run(0, m)[0] == 0;
    } else {
      assert cells[..n] == [0] + Run(m, n - 1);
      AddedRun(m, n - 1);
      InRun(0, m + n - 1, m + n - 1);
      assert Run(0, m + n - 1) + [m + n - 1] == Run(0, m + n);
    }
  }

  lemma {:induction false} SeenBoth()
    ensures FirstSeen(Both()) == Run(0, 27)
  {
    hide Added, FirstSeen;
    var c := Hard();
    SeenMore([], c[0]);
    SeenMore([c[0]], c[1]);
    SeenMore([c[0], c[1]], c[2]);
    SeenMore([c[0], c[1], c[2]], c[3]);
    SeenMore(c, Con([26], 1));
    assert [] + [c[0]] == [c[0]] && [c[0]] + [c[1]] == [c[0], c[1]];
    assert [c[0], c[1]] + [c[2]] == [c[0], c[1], c[2]] && [c[0], c[1], c[2]] + [c[3]] == c;
    AddedFirst();
    AddedRun(5, 7);
    AddedRun(12, 7);
    AddedRun(19, 7);
    AddedLast();
  }

  lemma {:induction false} SeenMore(cons: seq<Con>, c: Con)
    ensures FirstSeen([]) == []
    ensures FirstSeen(cons + [c]) == Added(FirstSeen(cons), c.cells)
  {
    assert (cons + [c])[..|cons|] == cons;
  }

  lemma {:induction false} AddedFirst()
    ensures Added([], [0] + Run(1, 4)) == Run(0, 5)
  {
    var cells := [0] + Run(1, 4);
    AddedRun(1, 4);
    StartsSame([], Run(0, 1), cells);
  }

  // Adding from nothing and from the first cell alone is the same.
  lemma {:induction false} StartsSame(a: seq<nat>, b: seq<nat>, cells: seq<nat>)
    requires a == [] && cells != [] && b == [cells[0]]
    ensures Added(a, cells) == Added(b, cells)
  {
    if |cells| > 1 {
      StartsSame(a, b, cells[..|cells| - 1]);
    } else {
      assert cells[..0] == [];
    }
  }

  lemma {:induction false} AddedLast()
    ensures Added(Run(0, 26), [26]) == Run(0, 27)
  {
    InRun(0, 26, 26);
    assert [26][..0] == [];
    assert Run(0, 26) + [26] == Run(0, 27);
  }

  lemma {:induction false} InBoth(c: Con, x: nat)
    requires c in Both() && x in c.cells
    ensures c in Hard() ==> x < 26
    ensures c !in Hard() ==> c == Con([26], 1) && x == 26
  {
    hide Hard;
    HardFour();
    if c in Hard() {
      var k :| 0 <= k < 4 && Hard()[k] == c;
      InHard(k, x);
    }
  }

  lemma {:induction false} ShareSide(x: nat, y: nat)
    requires Share(Both(), x, y)
    ensures x < 26 <==> y < 26
  {
    hide Hard;
    var c :| c in Both() && x in c.cells && y in c.cells;
    InBoth(c, x);
    InBoth(c, y);
  }

  lemma {:induction false} ChainSide(chain: seq<nat>, i: nat)
    requires IsChain(Both(), chain) && i < |chain|
    ensures chain[0] < 26 <==> chain[i] < 26
  {
    hide Both;
    if i > 0 {
      ChainSide(chain, i - 1);
      assert Share(Both(), chain[i - 1], chain[i - 1 + 1]);
      ShareSide(chain[i - 1], chain[i]);
    }
  }

  lemma {:induction false} LinkedBoth(x: nat, y: nat)
    requires x < 27 && y < 27
    ensures Linked(Both(), x, y) <==> (x < 26 <==> y < 26)
  {
    hide Both;
    if Linked(Both(), x, y) {
      var chain :| IsChain(Both(), chain) && chain[0] == x && chain[|chain| - 1] == y;
      ChainSide(chain, |chain| - 1);
    }
    if x < 26 && y < 26 {
      WithShared(x);
      WithShared(y);
      LinkedSym(Both(), 0, x);
      LinkedTrans(Both(), x, 0, y);
    }
    if x == 26 && y == 26 { LinkedSelf(Both(), 26); }
  }

  lemma {:induction false} WithShared(x: nat)
    requires x < 26
    ensures Linked(Both(), 0, x)
  {
    hide Hard;
    HardFour();
    var k := if x < 5 then 0 else (x + 2) / 7;
    InHard(k, x);
    InHard(k, 0);
    assert Hard()[k] in Both();
    LinkedShare(Both(), 0, x);
  }

  lemma {:induction false} MentionedBoth(x: nat)
    ensures x in Mentioned(Both()) <==> x < 27
  {
    hide Hard;
    HardFour();
    if x < 26 {
      var k := if x < 5 then 0 else (x + 2) / 7;
      InHard(k, x);
      assert Hard()[k] in Both();
    }
    if x == 26 { assert Con([26], 1) in Both() && 26 in Con([26], 1).cells; }
    if x in Mentioned(Both()) {
      var c :| c in Both() && x in c.cells;
      InBoth(c, x);
    }
  }

  lemma {:induction false} ClassesBoth()
    ensures Class(Both(), 0) == Upto(26) && Class(Both(), 26) == {26}
  {
    hide Both, Linked, Mentioned;
    forall y: nat
      ensures y in Class(Both(), 0) <==> y < 26
      ensures y in Class(Both(), 26) <==> y == 26
    {
      MentionedBoth(y);
      if y < 27 {
        LinkedBoth(0, y);
        LinkedBoth(26, y);
      }
    }
  }

  lemma {:induction false} HeadsBelow(k: nat)
    requires 1 <= k <= 26
    ensures Heads(Both(), Run(0, k)) == [0]
  {
    hide Both, Linked;
    var f := Run(0, k);
    assert f[..k - 1] == Run(0, k - 1);
    if k > 1 {
      HeadsBelow(k - 1);
      LinkedBoth(0, k - 1);
      assert f[..k - 1][0] == 0;
    } else {
      assert Heads(Both(), []) == [];
    }
  }

  lemma {:induction false} HeadsBoth()
    ensures Heads(Both(), Run(0, 27)) == [0, 26]
  {
    hide Both, Linked;
    HeadsBelow(26);
    var f := Run(0, 27);
    assert f[..26] == Run(0, 26) && f[26] == 26;
    forall y | y in Run(0, 26) ensures !Linked(Both(), y, 26) {
      InRun(0, 26, y);
      LinkedBoth(y, 26);
    }
  }

  lemma {:induction false} BackwardsRun(k: nat, s: set<nat>)
    requires k <= 26 && forall x: nat :: x < k ==> x in s
    ensures Backwards(Run(0, k), s) == seq(k, i requires 0 <= i < k => k - 1 - i)
  {
    if k > 0 {
      assert Run(0, k)[..k - 1] == Run(0, k - 1);
      BackwardsRun(k - 1, s);
    }
  }

  lemma {:induction false} BackwardsNone(xs: seq<nat>, s: set<nat>)
    requires forall x :: x in xs ==> x !in s
    ensures Backwards(xs, s) == []
  {
    if xs != [] {
      assert xs[|xs| - 1] in xs;
      BackwardsNone(xs[..|xs| - 1], s);
    }
  }

  lemma {:induction false} ClassConsAll(cons: seq<Con>, s: set<nat>)
    requires forall c :: c in cons ==> c.cells != [] && c.cells[0] in s
    ensures ClassCons(cons, s) == cons
  {
    if cons != [] {
      var init, last := cons[..|cons| - 1], cons[|cons| - 1];
      assert last in cons && init + [last] == cons;
      ClassConsAll(init, s);
    }
  }

  lemma {:induction false} ClassConsNone(cons: seq<Con>, s: set<nat>)
    requires forall c :: c in cons ==> c.cells == [] || c.cells[0] !in s
    ensures ClassCons(cons, s) == []
  {
    if cons != [] {
      assert cons[|cons| - 1] in cons;
      ClassConsNone(cons[..|cons| - 1], s);
    }
  }

  lemma {:induction false} ClassConsMore(cons: seq<Con>, c: Con, s: set<nat>)
    ensures ClassCons(cons + [c], s) == ClassCons(cons, s) + (if c.cells != [] && c.cells[0] in s then [c] else [])
  {
    assert (cons + [c])[..|cons|] == cons;
  }

  lemma {:induction false} ClassConsBoth()
    ensures ClassCons(Both(), Upto(26)) == Hard()
    ensures ClassCons(Both(), {26}) == [Con([26], 1)]
  {
    hide Hard, ClassCons, Upto;
    HardFour();
    var last := Con([26], 1);
    forall c | c in Hard() ensures c.cells != [] && c.cells[0] == 0 {
      var k :| 0 <= k < 4 && Hard()[k] == c;
      InHard(k, 0);
    }
    ClassConsAll(Hard(), Upto(26));
    ClassConsNone(Hard(), {26});
    ClassConsMore(Hard(), last, Upto(26));
    ClassConsMore(Hard(), last, {26});
    assert Hard() + [] == Hard() && [] + [last] == [last];
  }

  lemma {:induction false} LowPart()
    ensures Backwards(Run(0, 27), Upto(26)) == HardCells()
  {
    hide Backwards, Upto;
    assert Run(0, 27)[..26] == Run(0, 26) && Run(0, 27)[26] == 26;
    BackwardsRun(26, Upto(26));
    BackwardsStep(Run(0, 27), Upto(26));
    assert [] + HardCells() == HardCells();
  }

  lemma {:induction false} HighPart()
    ensures Backwards(Run(0, 27), {26}) == [26]
  {
    hide Backwards;
    assert Run(0, 27)[..26] == Run(0, 26) && Run(0, 27)[26] == 26;
    forall x | x in Run(0, 26) ensures x !in {26} { InRun(0, 26, x); }
    BackwardsNone(Run(0, 26), {26});
    BackwardsStep(Run(0, 27), {26});
  }

  lemma {:induction false} PartsBoth()
    ensures Parts(Both()) == [Component(HardCells(), Hard()), Component([26], [Con([26], 1)])]
  {
    hide Hard, HardCells, Both, Run, Class, ClassCons, Heads, Backwards, FirstSeen, Upto;
    SeenBoth();
    ClassesBoth();
    HeadsBoth();
    ClassConsBoth();
    LowPart();
    HighPart();
  }

  lemma {:induction false} BackwardsStep(xs: seq<nat>, s: set<nat>)
    requires xs != []
    ensures Backwards(xs, s)
         == (if xs[|xs| - 1] in s then [xs[|xs| - 1]] else []) + Backwards(xs[..|xs| - 1], s)
  {}

  lemma {:induction false} BothUsable()
    ensures Usable(Both(), 27) && forall c :: c in Both() ==> |c.cells| <= 8
  {
    hide Hard;
    HardFour();
    forall c | c in Hard() ensures c.cells != [] && Distinct(c.cells) && 0 <= c.need <= |c.cells| <= 8 {
      var k :| 0 <= k < 4 && Hard()[k] == c;
      InHard(k, 0);
    }
    forall c, x | c in Both() && x in c.cells ensures x < 27 { InBoth(c, x); }
  }

  /** A component over the budget can precede one that is within it: of these two, numbered in this order, the first is
      dropped and the second solved, and then the result of the second is written to other cells. */
  lemma {:induction false} DropHappens(ofs: seq<nat>, cells: seq<nat>)
    requires Laid(Parts(Both()), ofs, cells)
    ensures Usable(Both(), 27) && forall c :: c in Both() ==> |c.cells| <= 8
    ensures Afforded(Parts(Both())) == [false, true] && !DroppedLast(Afforded(Parts(Both())))
    ensures !InPlace(Parts(Both()), ofs, cells, Afforded(Parts(Both())))
  {
    hide Hard, HardCells, Both, NodeCost, WellFormed, Laid, InPlace, Parts, PiecesWellFormed, PiecesApart, Usable;
    BothUsable();
    PartsBoth();
    BudgetsPart();
    CostBound([26], [Con([26], 1)]);
    assert MostNodes(1) == 4;
    var flags := Afforded(Parts(Both()));
    assert flags[1] && !flags[0];
    TwoParts();
    LinedUp(Parts(Both()), ofs, cells, flags);
  }

  lemma {:induction false} TwoParts()
    ensures PiecesWellFormed(Parts(Both())) && PiecesApart(Parts(Both()))
  {
    hide Hard, Both, Parts, WellFormed;
    PartsBoth();
    HardWellFormed();
    SmallWellFormed();
    forall x ensures !(x in HardCells() && x in [26]) {}
  }

  lemma {:induction false} SmallWellFormed()
    ensures WellFormed([26], [Con([26], 1)])
  {}
}
