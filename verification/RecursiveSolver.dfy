/** solve_component: the recursive reference search, with sparse count tables. */
module RecursiveSolver {
  import opened Tallies
  import opened Placements
  import opened SearchSpec
  import opened Search
  import opened Effort
  import opened ComponentSolver

  function Get(m: map<nat, nat>, k: nat): nat {
    if k in m then m[k] else 0
  }

  function Bump(m: map<nat, nat>, k: nat): map<nat, nat> {
    m[k := Get(m, k) + 1]
  }

  // The counter after some calls: exact while it is within the budget.
  ghost predicate Spent(before: nat, calls: nat, budget: nat, after: nat) {
    if before + calls <= budget then after == before + calls else after > budget
  }

  // The solutions that follow a path.
  ghost function Subtree(cons: seq<Con>, xs: seq<nat>, path: seq<int>): set<World>
    requires |path| <= |xs|
  {
    set w: World | w <= Elems(xs) && Sat(cons, w) && Agree(xs, path, w)
  }

  ghost predicate Sparse(cells: seq<nat>, s: map<nat, nat>, t: seq<map<nat, nat>>, seen: set<World>) {
    && |t| == |cells|
    && (forall k: nat :: Get(s, k) == |OfSize(seen, k)|)
    && forall li: nat, k: nat :: li < |cells| ==> Get(t[li], k) == |OfSizeWith(seen, cells[li], k)|
  }

  // Branching on the next cell splits the solutions in two.
  lemma {:induction false} SubtreeSplit(cons: seq<Con>, xs: seq<nat>, path: seq<int>)
    requires |path| < |xs|
    ensures Subtree(cons, xs, path) == Subtree(cons, xs, path + [0]) + Subtree(cons, xs, path + [1])
    ensures Subtree(cons, xs, path + [0]) !! Subtree(cons, xs, path + [1])
  {
    forall w: World
      ensures Agree(xs, path + [0], w) <==> Agree(xs, path, w) && xs[|path|] !in w
      ensures Agree(xs, path + [1], w) <==> Agree(xs, path, w) && xs[|path|] in w
    {
      AgreeSnoc(xs, path, 0, w);
      AgreeSnoc(xs, path, 1, w);
    }
  }

  lemma {:induction false} SubtreeLeaf(cons: seq<Con>, xs: seq<nat>, path: seq<int>)
    requires IsPath(xs, path) && |path| == |xs| && Distinct(xs) && Room(cons, xs, path)
    ensures Subtree(cons, xs, path) == {Ones(xs, path)}
  {
    Leaf(cons, xs, path);
  }

  lemma {:induction false} SubtreePruned(cells: seq<nat>, cons: seq<Con>, xs: seq<nat>, path: seq<int>, v: int,
                                         li: nat, members: seq<nat>, mines: seq<int>, left: seq<int>, bad: nat)
    requires WellFormed(cells, cons) && Distinct(xs) && IsPath(xs, path) && |path| < |xs|
    requires v == 0 || v == 1
    requires li < |cells| && cells[li] == xs[|path|] && MemberOf(cells, cons, li, members)
    requires Counters(cons, xs, path, mines, left)
    requires bad in members && !(0 <= cons[bad].need - (mines[bad] + v) <= left[bad] - 1)
    ensures Subtree(cons, xs, path + [v]) == {}
  {
    assert cons[bad] in cons;
    CountersSnoc(cons[bad], xs, path, v);
    forall w | w in Subtree(cons, xs, path + [v]) ensures false {
      Pruned(cons[bad], xs, path + [v], w);
    }
  }

  lemma {:induction false} SparseAdd(cells: seq<nat>, s: map<nat, nat>, t: seq<map<nat, nat>>, seen: set<World>,
                                     ones: World, s': map<nat, nat>, t': seq<map<nat, nat>>)
    requires Sparse(cells, s, t, seen) && ones !in seen && |t'| == |t|
    requires s' == Bump(s, |ones|)
    requires forall li: nat :: li < |t| ==>
      t'[li] == if cells[li] in ones then Bump(t[li], |ones|) else t[li]
    ensures Sparse(cells, s', t', seen + {ones})
  {
    forall k: nat ensures Get(s', k) == |OfSize(seen + {ones}, k)| {
      TablesAdd(seen, ones, k, 0);
    }
    forall li: nat, k: nat | li < |cells| ensures Get(t'[li], k) == |OfSizeWith(seen + {ones}, cells[li], k)| {
      TablesAdd(seen, ones, k, cells[li]);
    }
  }

  // What the recursion relies on at depth |path|.
  ghost predicate Ready(pb: Problem, path: seq<int>, value: seq<int>, mines: seq<int>, left: seq<int>) {
    && pb.Valid() && IsPath(pb.Xs(), path)
    && Counters(pb.cons, pb.Xs(), path, mines, left) && Room(pb.cons, pb.Xs(), path)
    && Values(pb.order, path, value)
  }

  lemma {:induction false} ReadyApply(pb: Problem, path: seq<int>, v: int, value: seq<int>, mines: seq<int>,
                                      left: seq<int>, mines': seq<int>, left': seq<int>)
    requires Ready(pb, path, value, mines, left) && |path| < |pb.cells| && (v == 0 || v == 1)
    requires |mines'| == |left'| == |pb.cons|
    requires var members := pb.member[pb.order[|path|]];
      && (forall ci :: ci in members ==> ci < |pb.cons| && 0 <= pb.cons[ci].need - (mines[ci] + v) <= left[ci] - 1)
      && (forall ci: nat :: ci < |pb.cons| ==>
           mines'[ci] == mines[ci] + (if ci in members then v else 0)
           && left'[ci] == left[ci] + (if ci in members then -1 else 0))
    ensures Ready(pb, path + [v], value[pb.order[|path|] := v], mines', left')
  {
    var li := pb.order[|path|];
    pb.XsFacts();
    CountersApply(pb.cells, pb.cons, pb.Xs(), path, v, li, pb.member[li], mines, left, mines', left');
    RoomApply(pb.cells, pb.cons, pb.Xs(), path, v, li, pb.member[li], mines, left);
    ApplyValues(pb.order, path, v, value);
  }

  class Recursion {
    const cells: seq<nat>
    const cons: seq<Con>
    const member: seq<seq<nat>>
    const order: seq<nat>
    const value: array<int>
    const mines: array<int>
    const left: array<int>
    var s: map<nat, nat>
    var t: seq<map<nat, nat>>
    var nodes: nat

    ghost function Fixed(): Problem {
      Problem.Problem(cells, cons, member, order)
    }

    ghost predicate At(path: seq<int>)
      reads value, mines, left
    {
      value != mines && value != left && mines != left && Ready(Fixed(), path, value[..], mines[..], left[..])
    }

    constructor (cells: seq<nat>, cons: seq<Con>, member: seq<seq<nat>>, order: seq<nat>)
      requires Problem.Problem(cells, cons, member, order).Valid()
      ensures this.cells == cells && this.cons == cons && this.member == member && this.order == order
      ensures fresh(value) && fresh(mines) && fresh(left)
      ensures At([]) && Sparse(cells, s, t, {}) && nodes == 0
    {
      this.cells := cells;
      this.cons := cons;
      this.member := member;
      this.order := order;
      value := new int[|cells|](_ => -1);
      mines := new int[|cons|](_ => 0);
      left := new int[|cons|](ci requires 0 <= ci < |cons| => |cons[ci].cells|);
      s := map[];
      t := seq(|cells|, _ => map[]);
      nodes := 0;
      new;
      StartReady(Fixed(), value[..], mines[..], left[..]);
      forall k: nat ensures OfSize({}, k) == {} {}
      forall x: nat, k: nat ensures OfSizeWith({}, x, k) == {} {}
    }

    // S[total] and every T[li][total] of a mine cell go up by one.
    method CountLeaf(ghost path: seq<int>, ghost seen: set<World>)
      requires At(path) && |path| == |cells| && Sparse(cells, s, t, seen)
      requires seen !! Subtree(cons, Fixed().Xs(), path)
      modifies this
      ensures Sparse(cells, s, t, seen + Subtree(cons, Fixed().Xs(), path)) && nodes == old(nodes)
    {
      ghost var pb := Fixed();
      ghost var ones := Ones(pb.Xs(), path);
      pb.XsFacts();
      SubtreeLeaf(cons, pb.Xs(), path);
      Leaf(cons, pb.Xs(), path);
      LeafValues(pb, path, value[..]);
      var total := CountOnes(cells, value[..], ones);
      ghost var s0, t0 := s, t;
      s := Bump(s, total);
      for li := 0 to |cells|
        invariant |t| == |cells| && s == Bump(s0, total) && nodes == old(nodes)
        invariant forall lj: nat :: lj < |cells| ==>
          t[lj] == if lj < li && cells[lj] in ones then Bump(t0[lj], total) else t0[lj]
      {
        if value[li] == 1 {
          t := t[li := Bump(t[li], total)];
        }
      }
      SparseAdd(cells, s0, t0, seen, ones, s, t);
    }

    method TryValue(p: nat, v: int, ghost path: seq<int>, ghost seen: set<World>, budget: nat)
      requires At(path) && |path| == p < |cells| && (v == 0 || v == 1)
      requires nodes <= budget ==> Sparse(cells, s, t, seen)
      requires seen !! Subtree(cons, Fixed().Xs(), path + [v])
      modifies this, value, mines, left
      ensures At(path) && old(nodes) <= nodes
      ensures Spent(old(nodes), CallsOf(cons, Fixed().Xs(), path, v), budget, nodes)
      ensures nodes <= budget ==> Sparse(cells, s, t, seen + Subtree(cons, Fixed().Xs(), path + [v]))
      decreases |cells| - p, 1
    {
      hide Subtree, Sparse, Ready, Calls;
      Within(Fixed(), path, value[..], mines[..], left[..]);
      var li := order[p];
      var ok, bad := Feasible(member[li], cons, mines, left, v);
      if ok {
        Enter(p, v, path, seen, budget);
      } else {
        NothingBelow(Fixed(), path, v, value[..], mines[..], left[..], bad);
        assert seen + {} == seen;
      }
    }

    // Apply a feasible value, recurse, and undo it.
    method Enter(p: nat, v: int, ghost path: seq<int>, ghost seen: set<World>, budget: nat)
      requires At(path) && |path| == p < |cells| && (v == 0 || v == 1)
      requires mines.Length == left.Length == |cons| && order[p] < |member|
      requires forall ci :: ci in member[order[p]] ==>
        ci < |cons| && 0 <= cons[ci].need - (mines[ci] + v) <= left[ci] - 1
      requires nodes <= budget ==> Sparse(cells, s, t, seen)
      requires seen !! Subtree(cons, Fixed().Xs(), path + [v])
      modifies this, value, mines, left
      ensures At(path) && old(nodes) <= nodes
      ensures Spent(old(nodes), CallsOf(cons, Fixed().Xs(), path, v), budget, nodes)
      ensures nodes <= budget ==> Sparse(cells, s, t, seen + Subtree(cons, Fixed().Xs(), path + [v]))
      decreases |cells| - p, 0
    {
      hide Subtree, Sparse, Ready, Calls;
      ghost var pb := Fixed();
      ghost var value0, mines0, left0 := value[..], mines[..], left[..];
      Within(pb, path, value0, mines0, left0);
      var li := order[p];
      value[li] := v;
      Adjust(member[li], mines, left, v, -1);
      ReadyApply(pb, path, v, value0, mines0, left0, mines[..], left[..]);
      assert value[..] == value0[li := v];
      HasRoom(pb, path + [v], value[..], mines[..], left[..]);
      Rec(p + 1, path + [v], seen, budget);
      ghost var value1, mines1, left1 := value[..], mines[..], left[..];
      Within(pb, path + [v], value1, mines1, left1);
      Adjust(member[li], mines, left, -v, 1);
      value[li] := -1;
      assert value[..] == value1[li := -1];
      Restored(pb, path, v, value0, mines0, left0, value1, mines1, left1, mines[..], left[..]);
    }

    method Rec(p: nat, ghost path: seq<int>, ghost seen: set<World>, budget: nat)
      requires At(path) && |path| == p <= |cells|
      requires nodes <= budget ==> Sparse(cells, s, t, seen)
      requires seen !! Subtree(cons, Fixed().Xs(), path)
      modifies this, value, mines, left
      ensures At(path) && old(nodes) < nodes
      ensures Spent(old(nodes), Calls(cons, Fixed().Xs(), path), budget, nodes)
      ensures nodes <= budget ==> Sparse(cells, s, t, seen + Subtree(cons, Fixed().Xs(), path))
      decreases |cells| - p, 2
    {
      nodes := nodes + 1;
      if nodes > budget {
        return;
      }
      if p == |cells| {
        CountLeaf(path, seen);
        return;
      }
      ghost var xs := Fixed().Xs();
      SubtreeSplit(cons, xs, path);
      assert Calls(cons, xs, path) == 1 + CallsOf(cons, xs, path, 0) + CallsOf(cons, xs, path, 1);
      TryValue(p, 0, path, seen, budget);
      TryValue(p, 1, path, seen + Subtree(cons, xs, path + [0]), budget);
      assert seen + Subtree(cons, xs, path)
          == seen + Subtree(cons, xs, path + [0]) + Subtree(cons, xs, path + [1]);
    }
  }

  method CountOnes(cells: seq<nat>, value: seq<int>, ghost ones: World) returns (total: nat)
    requires Distinct(cells) && |value| == |cells| && ones <= Elems(cells)
    requires forall li :: 0 <= li < |cells| ==> (value[li] == 1 <==> cells[li] in ones)
    ensures total == |ones|
  {
    total := 0;
    for li := 0 to |cells|
      invariant total == Tally(cells[..li], ones)
    {
      assert cells[..li + 1] == cells[..li] + [cells[li]];
      TallySnoc(cells[..li], cells[li], ones);
      if value[li] == 1 { total := total + 1; }
    }
    assert cells[..|cells|] == cells;
    OnesTotal(cells, ones, total);
  }

  lemma {:induction false} StartReady(pb: Problem, value: seq<int>, mines: seq<int>, left: seq<int>)
    requires pb.Valid() && value == seq(|pb.cells|, _ => -1)
    requires |mines| == |left| == |pb.cons|
    requires forall ci :: 0 <= ci < |pb.cons| ==> mines[ci] == 0 && left[ci] == |pb.cons[ci].cells|
    ensures Ready(pb, [], value, mines, left)
  {
    var xs := pb.Xs();
    pb.XsFacts();
    assert Open(xs, []) == Elems(xs) && Ones(xs, []) == {};
    forall c | c in pb.cons ensures Tally(c.cells, {}) == 0 && Tally(c.cells, Elems(xs)) == |c.cells| {
      TallyZero(c.cells, {});
      TallyFull(c.cells, Elems(xs));
    }
    forall ci | 0 <= ci < |pb.cons|
      ensures mines[ci] == Tally(pb.cons[ci].cells, {}) && left[ci] == Tally(pb.cons[ci].cells, Elems(xs))
    {
      assert pb.cons[ci] in pb.cons;
    }
  }

  // Undoing the value brings back every counter.
  lemma {:induction false} Restored(pb: Problem, path: seq<int>, v: int, value: seq<int>, mines: seq<int>,
                                    left: seq<int>, value1: seq<int>, mines1: seq<int>, left1: seq<int>,
                                    mines': seq<int>, left': seq<int>)
    requires Ready(pb, path, value, mines, left) && |path| < |pb.cells| && (v == 0 || v == 1)
    requires Ready(pb, path + [v], value1, mines1, left1)
    requires |mines'| == |left'| == |pb.cons|
    requires var members := pb.member[pb.order[|path|]];
      forall ci: nat :: ci < |pb.cons| ==>
        mines'[ci] == mines1[ci] + (if ci in members then -v else 0)
        && left'[ci] == left1[ci] + (if ci in members then 1 else 0)
    ensures Ready(pb, path, value1[pb.order[|path|] := -1], mines', left')
  {
    hide Room;
    var li := pb.order[|path|];
    pb.XsFacts();
    CountersApply(pb.cells, pb.cons, pb.Xs(), path, v, li, pb.member[li], mines', left', mines1, left1);
  }

  lemma {:induction false} Within(pb: Problem, path: seq<int>, value: seq<int>, mines: seq<int>, left: seq<int>)
    requires Ready(pb, path, value, mines, left)
    ensures |value| == |pb.order| == |pb.member| == |pb.cells| && |mines| == |left| == |pb.cons|
    ensures forall l :: 0 <= l < |pb.cells| ==> pb.order[l] < |pb.cells|
    ensures forall li :: 0 <= li < |pb.cells| ==>
      Distinct(pb.member[li]) && forall j :: 0 <= j < |pb.member[li]| ==> pb.member[li][j] < |pb.cons|
    ensures forall li :: 0 <= li < |pb.cells| ==> forall ci :: ci in pb.member[li] ==> ci < |pb.cons|
  {
    forall li | 0 <= li < |pb.cells|
      ensures Distinct(pb.member[li]) && forall j :: 0 <= j < |pb.member[li]| ==> pb.member[li][j] < |pb.cons|
    {
      MembersInRange(pb, li);
    }
  }

  lemma {:induction false} HasRoom(pb: Problem, path: seq<int>, value: seq<int>, mines: seq<int>, left: seq<int>)
    requires Ready(pb, path, value, mines, left)
    ensures pb.Valid() && |path| <= |pb.cells| && Room(pb.cons, pb.Xs(), path)
  {}

  // An infeasible value costs no call and has no solution.
  lemma {:induction false} NothingBelow(pb: Problem, path: seq<int>, v: int, value: seq<int>, mines: seq<int>,
                                        left: seq<int>, bad: nat)
    requires Ready(pb, path, value, mines, left) && |path| < |pb.cells| && (v == 0 || v == 1)
    requires bad in pb.member[pb.order[|path|]] && bad < |pb.cons|
    requires !(0 <= pb.cons[bad].need - (mines[bad] + v) <= left[bad] - 1)
    ensures Subtree(pb.cons, pb.Xs(), path + [v]) == {} && CallsOf(pb.cons, pb.Xs(), path, v) == 0
  {
    hide Subtree, Room, Calls;
    var li := pb.order[|path|];
    pb.XsFacts();
    SubtreePruned(pb.cells, pb.cons, pb.Xs(), path, v, li, pb.member[li], mines, left, bad);
    BranchFull(pb.cells, pb.cons, pb.Xs(), path, v, li, pb.member[li], mines, left, bad);
  }

  // The number of calls that solving a component takes.
  ghost function CallCost(cells: seq<nat>, cons: seq<Con>): nat {
    Calls(cons, SearchCells(cells, cons), [])
  }

  /** The explicit-stack search also counts every solution, and not the first call. */
  lemma {:induction false} NodesAndCalls(cells: seq<nat>, cons: seq<Con>)
    requires Distinct(cells) && cells != []
    ensures NodeCost(cells, cons) + 1 == CallCost(cells, cons) + |Solutions(cons, Elems(cells))|
  {
    OrderedFacts(cells, SearchOrderOf(cells, cons));
    CallsAre(cons, SearchCells(cells, cons));
  }

  /** Same counts as the explicit-stack search, missing entries counting as zero; it succeeds exactly when the calls
      it takes are within the budget. */
  method SolveComponent(cells: seq<nat>, cons: seq<Con>, budget: nat)
      returns (solved: bool, s: map<nat, nat>, t: seq<map<nat, nat>>)
    requires WellFormed(cells, cons)
    ensures cells == [] ==> solved
    ensures cells != [] ==> (solved <==> CallCost(cells, cons) <= budget)
    ensures solved ==> |t| == |cells|
    ensures solved ==> forall k: nat :: Get(s, k) == N(Elems(cells), cons, k)
    ensures solved ==> forall li: nat, k: nat :: li < |cells| ==>
        Get(t[li], k) == N(Elems(cells), cons + [MineAt(cells[li])], k)
  {
    if cells == [] {
      s, t := map[0 := 1], [];
      EmptyExact(cells, cons);
      forall k: nat ensures Get(s, k) == N(Elems(cells), cons, k) {
        assert Elems(cells) == {};
        if k > 0 { NOutside({}, cons, k); }
      }
      return true, s, t;
    }
    var member := MemberLists(cells, cons);
    var len := seq(|cells|, li requires 0 <= li < |cells| => |member[li]|);
    DegreesAre(cells, cons, member, len);
    var order := OrderCells(len);
    var run := new Recursion(cells, cons, member, order[..]);
    ghost var pb := run.Fixed();
    SearchOrderIs(cells, cons, order[..]);
    run.Rec(0, [], {}, budget);
    solved, s, t := run.nodes <= budget, run.s, run.t;
    if solved {
      SubtreeAll(pb, s, t);
    }
  }

  lemma {:induction false} SubtreeAll(pb: Problem, s: map<nat, nat>, t: seq<map<nat, nat>>)
    requires pb.Valid() && Sparse(pb.cells, s, t, {} + Subtree(pb.cons, pb.Xs(), []))
    ensures forall k: nat :: Get(s, k) == N(Elems(pb.cells), pb.cons, k)
    ensures forall li: nat, k: nat :: li < |pb.cells| ==>
      Get(t[li], k) == N(Elems(pb.cells), pb.cons + [MineAt(pb.cells[li])], k)
  {
    var all := Subtree(pb.cons, pb.Xs(), []);
    pb.XsFacts();
    assert {} + all == all;
    forall k: nat ensures OfSize(all, k) == Worlds(Elems(pb.cells), pb.cons, k) {}
    forall x: nat, k: nat ensures OfSizeWith(all, x, k) == Worlds(Elems(pb.cells), pb.cons + [MineAt(x)], k) {
      forall w: World ensures Sat(pb.cons + [MineAt(x)], w) <==> Sat(pb.cons, w) && x in w {
        MineAtSat(pb.cons, x, w);
      }
    }
  }
}
