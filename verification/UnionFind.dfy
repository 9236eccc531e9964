/** Union-find with path halving over board cells. */
module UnionFind {
  import opened Placements

  // Parent pointers strictly lower the rank, so every cell climbs to a root.
  ghost predicate Ranked(p: seq<nat>, rank: seq<nat>) {
    |p| == |rank|
    && forall x :: 0 <= x < |p| ==> p[x] < |p| && (p[x] != x ==> rank[p[x]] < rank[x])
  }

  ghost function Root(p: seq<nat>, rank: seq<nat>, x: nat): (r: nat)
    requires Ranked(p, rank) && x < |p|
    ensures r < |p| && p[r] == r
    decreases rank[x]
  {
    if p[x] == x then x else Root(p, rank, p[x])
  }

  // The partition: every cell with the root of its tree.
  ghost function Roots(p: seq<nat>, rank: seq<nat>): seq<nat>
    requires Ranked(p, rank)
  {
    seq(|p|, x requires 0 <= x < |p| => Root(p, rank, x))
  }

  lemma {:induction false} HalvingKeepsRoot(p: seq<nat>, rank: seq<nat>, x: nat, y: nat)
    requires Ranked(p, rank) && x < |p| && y < |p|
    ensures Ranked(p[x := p[p[x]]], rank)
    ensures Root(p[x := p[p[x]]], rank, y) == Root(p, rank, y)
    decreases rank[y]
  {
    var q := p[x := p[p[x]]];
    if q[y] != y {
      HalvingKeepsRoot(p, rank, x, q[y]);
      if y == x {
        assert Root(p, rank, x) == Root(p, rank, p[x]);
      }
    } else if y == x && p[x] != x {
      assert false;
    }
  }

  ghost function Lifted(p: seq<nat>, rank: seq<nat>, a: nat, b: nat): seq<nat>
    requires Ranked(p, rank) && a < |p| && b < |p|
  {
    seq(|p|, x requires 0 <= x < |p| => if Root(p, rank, x) == a then rank[x] + rank[b] + 1 else rank[x])
  }

  lemma {:induction false} LinkRanked(p: seq<nat>, rank: seq<nat>, a: nat, b: nat)
    requires Ranked(p, rank) && a < |p| && b < |p| && p[a] == a && p[b] == b && a != b
    ensures Ranked(p[a := b], Lifted(p, rank, a, b))
  {
    var q, lifted := p[a := b], Lifted(p, rank, a, b);
    forall x | 0 <= x < |q| && q[x] != x ensures lifted[q[x]] < lifted[x] {
      if x != a {
        assert Root(p, rank, x) == Root(p, rank, p[x]);
      }
    }
  }

  lemma {:induction false} LinkRoot(p: seq<nat>, rank: seq<nat>, a: nat, b: nat, y: nat)
    requires Ranked(p, rank) && a < |p| && b < |p| && p[a] == a && p[b] == b && a != b && y < |p|
    requires Ranked(p[a := b], Lifted(p, rank, a, b))
    ensures Root(p[a := b], Lifted(p, rank, a, b), y)
         == if Root(p, rank, y) == a then b else Root(p, rank, y)
    decreases rank[y]
  {
    if p[y] != y {
      LinkRoot(p, rank, a, b, p[y]);
    } else if y == a {
      assert Root(p[a := b], Lifted(p, rank, a, b), b) == b;
    }
  }

  // The class of a joins the class of b.
  ghost function Merged(reps: seq<nat>, a: nat, b: nat): seq<nat>
    requires a < |reps| && b < |reps|
  {
    seq(|reps|, y requires 0 <= y < |reps| => if reps[y] == reps[a] then reps[b] else reps[y])
  }

  class Forest {
    const parent: array<nat>
    ghost var rank: seq<nat>

    ghost predicate Valid()
      reads this, parent
    {
      Ranked(parent[..], rank)
    }

    // The abstract value: root of every cell.
    ghost function Reps(): (reps: seq<nat>)
      reads this, parent
      requires Valid()
      ensures |reps| == parent.Length
    {
      Roots(parent[..], rank)
    }

    constructor (n: nat)
      ensures Valid() && fresh(parent) && parent.Length == n
      ensures Reps() == seq(n, x => x)
    {
      parent := new nat[n](x => x);
      rank := seq(n, _ => 0);
    }

    method Find(x0: nat) returns (x: nat)
      requires Valid() && x0 < parent.Length
      modifies parent
      ensures Valid() && Reps() == old(Reps()) && rank == old(rank)
      ensures x == old(Reps())[x0]
    {
      x := x0;
      while parent[x] != x
        invariant Valid() && rank == old(rank) && x < parent.Length
        invariant Reps() == old(Reps()) && Reps()[x] == Reps()[x0]
        decreases rank[x]
      {
        ghost var p: seq<nat> := parent[..];
        assert Root(p, rank, x) == Root(p, rank, p[x]) && p[p[x]] < |p|;
        assert p[p[x]] != p[x] ==> rank[p[p[x]]] < rank[p[x]];
        parent[x] := parent[parent[x]];
        assert parent[..] == p[x := p[p[x]]];
        forall y | 0 <= y < parent.Length
          ensures Ranked(parent[..], rank) && Root(parent[..], rank, y) == Root(p, rank, y)
        {
          HalvingKeepsRoot(p, rank, x, y);
        }
        x := parent[x];
      }
    }

    method Union(a0: nat, b0: nat)
      requires Valid() && a0 < parent.Length && b0 < parent.Length
      modifies this, parent
      ensures Valid()
      ensures Reps() == Merged(old(Reps()), a0, b0)
    {
      var a: nat := Find(a0);
      var b: nat := Find(b0);
      if a != b {
        ghost var p: seq<nat> := parent[..];
        LinkRanked(p, rank, a, b);
        forall y | 0 <= y < |p|
          ensures Root(p[a := b], Lifted(p, rank, a, b), y) == if Root(p, rank, y) == a then b else Root(p, rank, y)
        {
          LinkRoot(p, rank, a, b, y);
        }
        rank := Lifted(p, rank, a, b);
        parent[a] := b;
        assert parent[..] == p[a := b];
      }
    }
  }

  // ---- chains of constraints ----

  // A constraint mentions both cells.
  ghost predicate Share(cons: seq<Con>, x: nat, y: nat) {
    exists c :: c in cons && x in c.cells && y in c.cells
  }

  ghost predicate IsChain(cons: seq<Con>, chain: seq<nat>) {
    chain != [] && forall i :: 0 <= i < |chain| - 1 ==> Share(cons, chain[i], chain[i + 1])
  }

  ghost predicate Linked(cons: seq<Con>, x: nat, y: nat) {
    exists chain :: IsChain(cons, chain) && chain[0] == x && chain[|chain| - 1] == y
  }

  lemma {:induction false} LinkedSelf(cons: seq<Con>, x: nat)
    ensures Linked(cons, x, x)
  {
    assert IsChain(cons, [x]);
  }

  lemma {:induction false} LinkedShare(cons: seq<Con>, x: nat, y: nat)
    requires Share(cons, x, y)
    ensures Linked(cons, x, y)
  {
    var chain := [x, y];
    assert IsChain(cons, chain) && chain[0] == x && chain[|chain| - 1] == y;
  }

  lemma {:induction false} LinkedTrans(cons: seq<Con>, x: nat, y: nat, z: nat)
    requires Linked(cons, x, y) && Linked(cons, y, z)
    ensures Linked(cons, x, z)
  {
    var p :| IsChain(cons, p) && p[0] == x && p[|p| - 1] == y;
    var q :| IsChain(cons, q) && q[0] == y && q[|q| - 1] == z;
    var r := p + q[1..];
    forall i | 0 <= i < |r| - 1 ensures Share(cons, r[i], r[i + 1]) {
      if i < |p| - 1 {
        assert r[i] == p[i] && r[i + 1] == p[i + 1];
      } else {
        assert r[i] == q[i - (|p| - 1)] && r[i + 1] == q[i + 1 - (|p| - 1)];
      }
    }
    assert IsChain(cons, r) && r[0] == x && r[|r| - 1] == z;
  }

  lemma {:induction false} LinkedSym(cons: seq<Con>, x: nat, y: nat)
    requires Linked(cons, x, y)
    ensures Linked(cons, y, x)
  {
    var p :| IsChain(cons, p) && p[0] == x && p[|p| - 1] == y;
    var n := |p|;
    var r := seq(n, i requires 0 <= i < n => p[n - 1 - i]);
    forall i | 0 <= i < n - 1 ensures Share(cons, r[i], r[i + 1]) {
      assert Share(cons, p[n - 2 - i], p[n - 2 - i + 1]);
    }
    assert IsChain(cons, r) && r[0] == y && r[n - 1] == x;
  }

  // Cells in the same class of the partition so far.
  ghost predicate Sound(cons: seq<Con>, reps: seq<nat>) {
    forall x, y :: 0 <= x < |reps| && 0 <= y < |reps| && reps[x] == reps[y] ==> Linked(cons, x, y)
  }

  lemma {:induction false} MergeSound(cons: seq<Con>, reps: seq<nat>, a: nat, b: nat)
    requires a < |reps| && b < |reps| && Sound(cons, reps) && Share(cons, a, b)
    ensures Sound(cons, Merged(reps, a, b))
  {
    LinkedShare(cons, a, b);
    LinkedSym(cons, a, b);
    forall x, y | 0 <= x < |reps| && 0 <= y < |reps| && Merged(reps, a, b)[x] == Merged(reps, a, b)[y]
      ensures Linked(cons, x, y)
    {
      if reps[x] != reps[y] {
        if reps[x] == reps[a] {
          LinkedTrans(cons, x, a, b);
          LinkedTrans(cons, x, b, y);
        } else {
          LinkedTrans(cons, x, b, a);
          LinkedTrans(cons, x, a, y);
        }
      }
    }
  }

  // All cells of one constraint are in one class.
  ghost predicate Together(reps: seq<nat>, cells: seq<nat>) {
    forall i, j :: 0 <= i < |cells| && 0 <= j < |cells| && cells[i] < |reps| && cells[j] < |reps|
      ==> reps[cells[i]] == reps[cells[j]]
  }

  lemma {:induction false} ChainTogether(cons: seq<Con>, reps: seq<nat>, chain: seq<nat>)
    requires forall c :: c in cons ==> Together(reps, c.cells)
    requires forall c, x :: c in cons && x in c.cells ==> x < |reps|
    requires IsChain(cons, chain) && chain[0] < |reps|
    ensures chain[|chain| - 1] < |reps| && reps[chain[|chain| - 1]] == reps[chain[0]]
  {
    if |chain| > 1 {
      assert Share(cons, chain[0], chain[0 + 1]);
      var c :| c in cons && chain[0] in c.cells && chain[1] in c.cells;
      forall i | 0 <= i < |chain[1..]| - 1 ensures Share(cons, chain[1..][i], chain[1..][i + 1]) {
        assert Share(cons, chain[i + 1], chain[i + 1 + 1]);
      }
      ChainTogether(cons, reps, chain[1..]);
    }
  }

  /** The partition is exactly reachability through shared constraints. */
  ghost predicate Partition(cons: seq<Con>, reps: seq<nat>) {
    forall x, y :: 0 <= x < |reps| && 0 <= y < |reps| ==> (reps[x] == reps[y] <==> Linked(cons, x, y))
  }

  lemma {:induction false} PartitionDone(cons: seq<Con>, reps: seq<nat>)
    requires Sound(cons, reps)
    requires forall c :: c in cons ==> Together(reps, c.cells)
    requires forall c, x :: c in cons && x in c.cells ==> x < |reps|
    ensures Partition(cons, reps)
  {
    forall x, y | 0 <= x < |reps| && 0 <= y < |reps| && Linked(cons, x, y) ensures reps[x] == reps[y] {
      var p :| IsChain(cons, p) && p[0] == x && p[|p| - 1] == y;
      ChainTogether(cons, reps, p);
    }
  }

  ghost predicate Coarser(reps: seq<nat>, reps': seq<nat>) {
    |reps'| == |reps|
    && forall x, y :: 0 <= x < |reps| && 0 <= y < |reps| && reps[x] == reps[y] ==> reps'[x] == reps'[y]
  }

  lemma {:induction false} TogetherCoarser(reps: seq<nat>, reps': seq<nat>, cells: seq<nat>)
    requires Together(reps, cells) && Coarser(reps, reps')
    ensures Together(reps', cells)
  {}

  ghost predicate Joined(cons: seq<Con>, reps0: seq<nat>, reps: seq<nat>, cells: seq<nat>, j: nat)
    requires j <= |cells| && cells != []
    requires forall k :: 0 <= k < |cells| ==> cells[k] < |reps|
  {
    && Sound(cons, reps) && Coarser(reps0, reps)
    && forall k :: 0 <= k < j ==> reps[cells[k]] == reps[cells[0]]
  }

  lemma {:induction false} JoinNext(cons: seq<Con>, reps0: seq<nat>, reps: seq<nat>, cells: seq<nat>, j: nat)
    requires 1 <= j < |cells| && forall k :: 0 <= k < |cells| ==> cells[k] < |reps|
    requires Joined(cons, reps0, reps, cells, j)
    requires Share(cons, cells[0], cells[j])
    ensures Joined(cons, reps0, Merged(reps, cells[0], cells[j]), cells, j + 1)
  {
    MergeSound(cons, reps, cells[0], cells[j]);
  }

  // Join every cell of one constraint with its first cell.
  method UniteOne(uf: Forest, ghost cons: seq<Con>, cells: seq<nat>)
    requires uf.Valid() && cells != [] && forall j :: 0 <= j < |cells| ==> cells[j] < uf.parent.Length
    requires Sound(cons, uf.Reps())
    requires forall j :: 0 <= j < |cells| ==> Share(cons, cells[0], cells[j])
    modifies uf, uf.parent
    ensures uf.Valid() && Sound(cons, uf.Reps())
    ensures Together(uf.Reps(), cells) && Coarser(old(uf.Reps()), uf.Reps())
  {
    ghost var reps0 := uf.Reps();
    ghost var reps := reps0;
    for j := 1 to |cells|
      invariant uf.Valid() && uf.Reps() == reps && |reps| == uf.parent.Length
      invariant Joined(cons, reps0, reps, cells, j)
    {
      uf.Union(cells[0], cells[j]);
      JoinNext(cons, reps0, reps, cells, j);
      reps := uf.Reps();
    }
  }

  // After the first i constraints: cells joined are linked, and each constraint's cells are joined.
  ghost predicate Swept(cons: seq<Con>, i: nat, reps: seq<nat>)
    requires i <= |cons|
  {
    Sound(cons, reps) && forall k :: 0 <= k < i ==> Together(reps, cons[k].cells)
  }

  lemma {:induction false} SweptStep(cons: seq<Con>, i: nat, reps: seq<nat>, reps': seq<nat>)
    requires i < |cons| && Swept(cons, i, reps) && Coarser(reps, reps')
    requires Sound(cons, reps') && Together(reps', cons[i].cells)
    ensures Swept(cons, i + 1, reps')
  {
    hide Sound, Together, Coarser;
    forall k | 0 <= k < i ensures Together(reps', cons[k].cells) {
      TogetherCoarser(reps, reps', cons[k].cells);
    }
  }

  lemma {:induction false} FirstShares(cons: seq<Con>, i: nat)
    requires i < |cons| && cons[i].cells != []
    ensures forall j :: 0 <= j < |cons[i].cells| ==> Share(cons, cons[i].cells[0], cons[i].cells[j])
  {
    assert cons[i] in cons;
    forall j | 0 <= j < |cons[i].cells| ensures Share(cons, cons[i].cells[0], cons[i].cells[j]) {
      assert cons[i].cells[0] in cons[i].cells && cons[i].cells[j] in cons[i].cells;
    }
  }

  method UniteAll(cons: seq<Con>, n: nat) returns (uf: Forest)
    requires forall c :: c in cons ==> c.cells != [] && forall x :: x in c.cells ==> x < n
    ensures fresh(uf) && fresh(uf.parent) && uf.Valid() && uf.parent.Length == n
    ensures Partition(cons, uf.Reps())
  {
    hide Linked, Together, Coarser, Share;
    uf := new Forest(n);
    forall x | 0 <= x < n ensures Linked(cons, x, x) { LinkedSelf(cons, x); }
    for i := 0 to |cons|
      invariant uf.Valid() && Swept(cons, i, uf.Reps())
    {
      assert cons[i] in cons;
      assert forall j :: 0 <= j < |cons[i].cells| ==> cons[i].cells[j] in cons[i].cells;
      FirstShares(cons, i);
      ghost var reps := uf.Reps();
      UniteOne(uf, cons, cons[i].cells);
      SweptStep(cons, i, reps, uf.Reps());
    }
    PartitionDone(cons, uf.Reps());
  }
}
