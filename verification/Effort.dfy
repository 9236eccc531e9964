/** How many nodes the search of one component counts. */
module Effort {
  import opened Naturals
  import opened Tallies
  import opened Placements
  import opened SearchSpec
  import opened Search

  // Nodes counted below a fresh frame: one for each feasible value on the way and one for each leaf.
  ghost function Nodes(cons: seq<Con>, xs: seq<nat>, path: seq<int>): nat
    requires |path| <= |xs|
    decreases |xs| - |path|, 1
  {
    if |path| == |xs| then 1 else Branch(cons, xs, path, 0) + Branch(cons, xs, path, 1)
  }

  ghost function Branch(cons: seq<Con>, xs: seq<nat>, path: seq<int>, v: int): nat
    requires |path| < |xs|
    decreases |xs| - |path|, 0
  {
    if Room(cons, xs, path + [v]) then 1 + Nodes(cons, xs, path + [v]) else 0
  }

  // Nodes of the values from `next` on.
  ghost function From(cons: seq<Con>, xs: seq<nat>, path: seq<int>, next: int): nat
    requires |path| < |xs|
  {
    (if next <= 0 then Branch(cons, xs, path, 0) else 0) + (if next <= 1 then Branch(cons, xs, path, 1) else 0)
  }

  // Nodes of the later values of the levels already entered.
  ghost function Owed(cons: seq<Con>, xs: seq<nat>, path: seq<int>): nat
    requires |path| <= |xs|
  {
    if path == [] then 0
    else
      var l := |path| - 1;
      Owed(cons, xs, path[..l]) + From(cons, xs, path[..l], path[l] + 1)
  }

  /** Nodes still to be counted at a search position. */
  ghost function Remaining(cons: seq<Con>, xs: seq<nat>, path: seq<int>, next: int): nat
    requires |path| <= |xs|
  {
    Owed(cons, xs, path) + if |path| == |xs| then 1 else From(cons, xs, path, next)
  }

  // Descending counts one node.
  lemma {:induction false} RemainingPush(cons: seq<Con>, xs: seq<nat>, path: seq<int>, v: int)
    requires |path| < |xs| && (v == 0 || v == 1) && Room(cons, xs, path + [v])
    ensures Remaining(cons, xs, path, v) == 1 + Remaining(cons, xs, path + [v], 0)
  {
    hide Room;
    var more := path + [v];
    assert more[..|path|] == path;
    assert Nodes(cons, xs, more) == if |more| == |xs| then 1 else From(cons, xs, more, 0);
  }

  // A pruned value counts none.
  lemma {:induction false} RemainingSkip(cons: seq<Con>, xs: seq<nat>, path: seq<int>, v: int)
    requires |path| < |xs| && (v == 0 || v == 1) && !Room(cons, xs, path + [v])
    ensures Remaining(cons, xs, path, v) == Remaining(cons, xs, path, v + 1)
  {}

  lemma {:induction false} RemainingPop(cons: seq<Con>, xs: seq<nat>, path: seq<int>, v: int)
    requires |path| + 1 < |xs|
    ensures Remaining(cons, xs, path + [v], 2) == Remaining(cons, xs, path, v + 1)
  {
    assert (path + [v])[..|path|] == path;
  }

  // A leaf counts one.
  lemma {:induction false} RemainingLeaf(cons: seq<Con>, xs: seq<nat>, path: seq<int>, v: int)
    requires |path| + 1 == |xs|
    ensures Remaining(cons, xs, path + [v], 0) == 1 + Remaining(cons, xs, path, v + 1)
  {
    assert (path + [v])[..|path|] == path;
  }

  lemma {:induction false} RemainingStart(cons: seq<Con>, xs: seq<nat>)
    requires xs != []
    ensures Remaining(cons, xs, [], 0) == Nodes(cons, xs, [])
    ensures Remaining(cons, xs, [], 2) == 0
  {}

  // ---- the same number without a search ----

  /** The placements of the first d cells, in search order, that leave every constraint satisfiable on its own. */
  ghost function Partial(cons: seq<Con>, xs: seq<nat>, d: nat): set<World>
    requires d <= |xs|
  {
    set w: World | w <= Elems(xs[..d]) && Fits(cons, w, Elems(xs[d..]))
  }

  // Mines w on the assigned cells and the open cells still leave every constraint room.
  ghost predicate Fits(cons: seq<Con>, w: World, open: set<nat>) {
    forall c :: c in cons ==> 0 <= c.need - Tally(c.cells, w) <= Tally(c.cells, open)
  }

  ghost function PartialsFrom(cons: seq<Con>, xs: seq<nat>, d: nat): nat
    requires d <= |xs| + 1
    decreases |xs| + 1 - d
  {
    if d == |xs| + 1 then 0 else |Partial(cons, xs, d)| + PartialsFrom(cons, xs, d + 1)
  }

  // Those that follow a path.
  ghost function Following(cons: seq<Con>, xs: seq<nat>, path: seq<int>, d: nat): set<World>
    requires |path| <= d <= |xs|
  {
    set w: World | w <= Elems(xs[..d]) && Fits(cons, w, Elems(xs[d..])) && Agree(xs, path, w)
  }

  ghost function BelowFrom(cons: seq<Con>, xs: seq<nat>, path: seq<int>, d: nat): nat
    requires |path| <= d <= |xs| + 1
    decreases |xs| + 1 - d
  {
    if d == |xs| + 1 then 0 else |Following(cons, xs, path, d)| + BelowFrom(cons, xs, path, d + 1)
  }

  // The next cell is empty or a mine.
  lemma {:induction false} BelowSplit(cons: seq<Con>, xs: seq<nat>, path: seq<int>, d: nat)
    requires |path| < d <= |xs|
    ensures |Following(cons, xs, path, d)|
         == |Following(cons, xs, path + [0], d)| + |Following(cons, xs, path + [1], d)|
  {
    hide Fits, Agree;
    var all := Following(cons, xs, path, d);
    var zero, one := Following(cons, xs, path + [0], d), Following(cons, xs, path + [1], d);
    forall w: World
      ensures w in all <==> w in zero || w in one
      ensures !(w in zero && w in one)
    {
      AgreeSnoc(xs, path, 0, w);
      AgreeSnoc(xs, path, 1, w);
    }
    assert all == zero + one && zero !! one;
  }

  lemma {:induction false} BelowFromSplit(cons: seq<Con>, xs: seq<nat>, path: seq<int>, d: nat)
    requires |path| < |xs| && |path| < d <= |xs| + 1
    ensures BelowFrom(cons, xs, path, d)
         == BelowFrom(cons, xs, path + [0], d) + BelowFrom(cons, xs, path + [1], d)
    decreases |xs| + 1 - d
  {
    hide Following;
    if d <= |xs| {
      BelowSplit(cons, xs, path, d);
      BelowFromSplit(cons, xs, path, d + 1);
    }
  }

  lemma {:induction false} TakeDrop(xs: seq<nat>, d: nat)
    requires Distinct(xs) && d <= |xs|
    ensures Elems(xs) == Elems(xs[..d]) + Elems(xs[d..]) && Elems(xs[..d]) !! Elems(xs[d..])
  {
    assert xs == xs[..d] + xs[d..];
    forall x | x in xs[..d] ensures x !in xs[d..] {
      var i :| 0 <= i < d && xs[..d][i] == x;
      assert forall j :: 0 <= j < |xs| - d ==> xs[d..][j] == xs[d + j];
    }
  }

  // A placement that fits keeps room for every constraint on the way to it.
  lemma {:induction false} FitsRoom(cons: seq<Con>, xs: seq<nat>, path: seq<int>, d: nat, w: World)
    requires IsPath(xs, path) && Distinct(xs) && |path| <= d <= |xs| && w in Following(cons, xs, path, d)
    ensures Room(cons, xs, path)
  {
    var ones, open, later := Ones(xs, path), Open(xs, path), Elems(xs[d..]);
    TakeDrop(xs, d);
    AgreeBounds(xs, path, w);
    forall x | x in later ensures x in open {
      var j :| 0 <= j < |xs| - d && xs[d..][j] == x;
      assert xs[|path|..][d - |path| + j] == x;
    }
    forall c | c in cons ensures 0 <= c.need - Tally(c.cells, ones) <= Tally(c.cells, open) {
      TallyMono(c.cells, ones, w);
      TallyMono(c.cells, w + later, ones + open);
      TallyUnion(c.cells, w, later);
      TallyUnion(c.cells, ones, open);
    }
  }

  lemma {:induction false} NoneBelow(cons: seq<Con>, xs: seq<nat>, path: seq<int>, d: nat)
    requires IsPath(xs, path) && Distinct(xs) && |path| <= d <= |xs| + 1 && !Room(cons, xs, path)
    ensures BelowFrom(cons, xs, path, d) == 0
    ensures |Following(cons, xs, path, |xs|)| == 0
    decreases |xs| + 1 - d
  {
    hide Room, Following;
    if w :| w in Following(cons, xs, path, |xs|) { FitsRoom(cons, xs, path, |xs|, w); }
    if d <= |xs| {
      if w :| w in Following(cons, xs, path, d) { FitsRoom(cons, xs, path, d, w); }
      NoneBelow(cons, xs, path, d + 1);
    }
  }

  // With every level so far assigned, the path itself is the only one.
  lemma {:induction false} OneBelow(cons: seq<Con>, xs: seq<nat>, path: seq<int>)
    requires IsPath(xs, path) && Distinct(xs) && Room(cons, xs, path)
    ensures |Following(cons, xs, path, |path|)| == 1
  {
    var d, ones := |path|, Ones(xs, path);
    assert xs[..d] + xs[d..] == xs;
    TakeDrop(xs, d);
    forall x | x in ones ensures x in Elems(xs[..d]) {
      var l :| 0 <= l < d && path[l] == 1 && xs[l] == x;
      assert xs[..d][l] == x;
    }
    forall l | 0 <= l < d ensures Val(ones, xs[l]) == path[l] {
      if xs[l] in ones {
        var l' :| 0 <= l' < d && path[l'] == 1 && xs[l'] == xs[l];
        assert l' == l;
      }
    }
    forall w | w in Following(cons, xs, path, d) ensures w == ones {
      AgreeBounds(xs, path, w);
    }
    assert ones in Following(cons, xs, path, d);
    assert Following(cons, xs, path, d) == {ones};
  }

  lemma {:induction false} NodesBelow(cons: seq<Con>, xs: seq<nat>, path: seq<int>)
    requires IsPath(xs, path) && Distinct(xs) && (|path| < |xs| || Room(cons, xs, path))
    ensures Nodes(cons, xs, path) == BelowFrom(cons, xs, path, |path| + 1) + |Following(cons, xs, path, |xs|)|
    decreases |xs| - |path|, 1
  {
    hide Room, Following;
    if |path| == |xs| {
      OneBelow(cons, xs, path);
    } else {
      BranchBelow(cons, xs, path, 0);
      BranchBelow(cons, xs, path, 1);
      BelowFromSplit(cons, xs, path, |path| + 1);
      BelowSplit(cons, xs, path, |xs|);
    }
  }

  lemma {:induction false} BranchBelow(cons: seq<Con>, xs: seq<nat>, path: seq<int>, v: int)
    requires IsPath(xs, path) && Distinct(xs) && |path| < |xs| && (v == 0 || v == 1)
    ensures Branch(cons, xs, path, v)
         == BelowFrom(cons, xs, path + [v], |path| + 1) + |Following(cons, xs, path + [v], |xs|)|
    decreases |xs| - |path|, 0
  {
    hide Room, Following;
    var more := path + [v];
    if Room(cons, xs, more) {
      NodesBelow(cons, xs, more);
      OneBelow(cons, xs, more);
    } else {
      NoneBelow(cons, xs, more, |more|);
    }
  }

  lemma {:induction false} AllBelow(cons: seq<Con>, xs: seq<nat>, d: nat)
    requires d <= |xs| + 1
    ensures BelowFrom(cons, xs, [], d) == PartialsFrom(cons, xs, d)
    ensures Following(cons, xs, [], |xs|) == Partial(cons, xs, |xs|)
    decreases |xs| + 1 - d
  {
    if d <= |xs| {
      assert Following(cons, xs, [], d) == Partial(cons, xs, d);
      AllBelow(cons, xs, d + 1);
    }
  }

  /** The nodes of a whole search: the partial placements of one, two, ... cells that leave every constraint
      satisfiable on its own, and once more the solutions. */
  lemma {:induction false} NodesAre(cons: seq<Con>, xs: seq<nat>)
    requires Distinct(xs) && xs != []
    ensures Nodes(cons, xs, []) == PartialsFrom(cons, xs, 1) + |Solutions(cons, Elems(xs))|
  {
    NodesBelow(cons, xs, []);
    AllBelow(cons, xs, 1);
    assert xs[..|xs|] == xs && Elems(xs[|xs|..]) == {};
    forall c: seq<nat> ensures Tally(c, {}) == 0 { TallyZero(c, {}); }
    assert Partial(cons, xs, |xs|) == Solutions(cons, Elems(xs));
  }

  ghost function Solutions(cons: seq<Con>, u: set<nat>): set<World> {
    set w: World | w <= u && Sat(cons, w)
  }

  // ---- calls of the recursive reference ----

  // One call for the path itself and those of its feasible extensions.
  ghost function Calls(cons: seq<Con>, xs: seq<nat>, path: seq<int>): nat
    requires |path| <= |xs|
    decreases |xs| - |path|, 1
  {
    if |path| == |xs| then 1 else 1 + CallsOf(cons, xs, path, 0) + CallsOf(cons, xs, path, 1)
  }

  ghost function CallsOf(cons: seq<Con>, xs: seq<nat>, path: seq<int>, v: int): nat
    requires |path| < |xs|
    decreases |xs| - |path|, 0
  {
    if Room(cons, xs, path + [v]) then Calls(cons, xs, path + [v]) else 0
  }

  lemma {:induction false} NodesCalls(cons: seq<Con>, xs: seq<nat>, path: seq<int>)
    requires IsPath(xs, path) && Distinct(xs) && (|path| < |xs| || Room(cons, xs, path))
    ensures Nodes(cons, xs, path) + 1 == Calls(cons, xs, path) + |Following(cons, xs, path, |xs|)|
    decreases |xs| - |path|, 1
  {
    hide Room, Following;
    if |path| == |xs| {
      OneBelow(cons, xs, path);
    } else {
      BranchCalls(cons, xs, path, 0);
      BranchCalls(cons, xs, path, 1);
      BelowSplit(cons, xs, path, |xs|);
    }
  }

  lemma {:induction false} BranchCalls(cons: seq<Con>, xs: seq<nat>, path: seq<int>, v: int)
    requires IsPath(xs, path) && Distinct(xs) && |path| < |xs| && (v == 0 || v == 1)
    ensures Branch(cons, xs, path, v) == CallsOf(cons, xs, path, v) + |Following(cons, xs, path + [v], |xs|)|
    decreases |xs| - |path|, 0
  {
    hide Room, Following;
    var more := path + [v];
    if Room(cons, xs, more) {
      NodesCalls(cons, xs, more);
    } else {
      NoneBelow(cons, xs, more, |more|);
    }
  }

  /** The explicit-stack search counts every solution once more than the recursion does, which in turn counts its
      first call. */
  lemma {:induction false} CallsAre(cons: seq<Con>, xs: seq<nat>)
    requires Distinct(xs) && xs != []
    ensures Nodes(cons, xs, []) + 1 == Calls(cons, xs, []) + |Solutions(cons, Elems(xs))|
  {
    NodesCalls(cons, xs, []);
    NodesBelow(cons, xs, []);
    NodesAre(cons, xs);
    AllBelow(cons, xs, 1);
  }

  // ---- the largest possible number ----

  // As many as when no value is ever pruned.
  function MostNodes(d: nat): (n: nat)
    ensures n == 3 * Pow2(d) - 2
  {
    if d == 0 then 1 else 2 + 2 * MostNodes(d - 1)
  }

  lemma {:induction false} NodesBound(cons: seq<Con>, xs: seq<nat>, path: seq<int>)
    requires |path| <= |xs|
    ensures Nodes(cons, xs, path) <= MostNodes(|xs| - |path|)
    decreases |xs| - |path|
  {
    hide Room;
    if |path| < |xs| {
      NodesBound(cons, xs, path + [0]);
      NodesBound(cons, xs, path + [1]);
    }
  }

  lemma {:induction false} MostNodesMono(a: nat, b: nat)
    requires a <= b
    ensures MostNodes(a) <= MostNodes(b)
  {
    if a < b { MostNodesMono(a, b - 1); }
  }

  /** Every component of nineteen cells fits the budget. */
  lemma {:induction false} NineteenFit(m: nat)
    ensures MostNodes(m) <= NODE_BUDGET <==> m <= 19
  {
    assert MostNodes(5) == 94;
    assert MostNodes(10) == 3070;
    assert MostNodes(15) == 98302;
    assert MostNodes(19) == 1572862;
    assert MostNodes(20) == 3145726;
    if m <= 19 { MostNodesMono(m, 19); } else { MostNodesMono(20, m); }
  }
}
