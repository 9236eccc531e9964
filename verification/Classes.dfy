/** The components of a constraint list, described without union-find. */
module Classes {
  import opened Tallies
  import opened Placements
  import opened UnionFind
  import opened Components

  // The cells that a chain of constraints links to x.
  ghost function Class(cons: seq<Con>, x: nat): set<nat> {
    set y | y in Mentioned(cons) && Linked(cons, x, y)
  }

  // The listed cells of s, last one first.
  ghost function Backwards(xs: seq<nat>, s: set<nat>): seq<nat> {
    if xs == [] then []
    else
      var x := xs[|xs| - 1];
      (if x in s then [x] else []) + Backwards(xs[..|xs| - 1], s)
  }

  // The constraints whose first cell is in s.
  ghost function ClassCons(cons: seq<Con>, s: set<nat>): seq<Con> {
    if cons == [] then []
    else
      var last := cons[|cons| - 1];
      ClassCons(cons[..|cons| - 1], s) + (if last.cells != [] && last.cells[0] in s then [last] else [])
  }

  /** The component of cell x, as the search gets it. */
  ghost function ComponentOf(cons: seq<Con>, x: nat): Component {
    Component(Backwards(FirstSeen(cons), Class(cons, x)), ClassCons(cons, Class(cons, x)))
  }

  // The first cell of every class, in the order of f.
  ghost function Heads(cons: seq<Con>, f: seq<nat>): seq<nat> {
    if f == [] then []
    else
      var init, x := f[..|f| - 1], f[|f| - 1];
      Heads(cons, init) + (if exists y :: y in init && Linked(cons, y, x) then [] else [x])
  }

  /** All components, in the order in which they are numbered. */
  ghost function Parts(cons: seq<Con>): seq<Component> {
    var heads := Heads(cons, FirstSeen(cons));
    seq(|heads|, i requires 0 <= i < |heads| => ComponentOf(cons, heads[i]))
  }

  // ---- what union-find and the counting sort compute ----

  ghost predicate SplitContext(cons: seq<Con>, frontier: seq<nat>, reps: seq<nat>, compRoot: seq<nat>,
                               rootOf: seq<nat>) {
    && Usable(cons, |reps|) && Distinct(frontier) && Elems(frontier) == Mentioned(cons) && frontier == FirstSeen(cons)
    && Partition(cons, reps) && Numbered(frontier, reps, compRoot, rootOf) && compRoot == RootsSeen(frontier, reps)
    && (forall c :: c in cons ==> c.cells != [] && c.cells[0] < |reps|)
  }

  ghost function PieceAt(cons: seq<Con>, frontier: seq<nat>, reps: seq<nat>, compRoot: seq<nat>, rootOf: seq<nat>,
                         i: nat): Component
    requires SplitContext(cons, frontier, reps, compRoot, rootOf) && i < |compRoot|
  {
    Component(Group(frontier, rootOf, i), LocalCons(cons, reps, compRoot[i]))
  }

  lemma {:induction false} GroupIsBackwards(xs: seq<nat>, rootOf: seq<nat>, i: nat, s: set<nat>)
    requires forall k :: 0 <= k < |xs| ==> xs[k] < |rootOf| && (rootOf[xs[k]] == i <==> xs[k] in s)
    ensures Group(xs, rootOf, i) == Backwards(xs, s)
  {
    if xs != [] { GroupIsBackwards(xs[..|xs| - 1], rootOf, i, s); }
  }

  lemma {:induction false} LocalIsClass(cons: seq<Con>, reps: seq<nat>, root: nat, s: set<nat>)
    requires forall c :: c in cons ==> c.cells != [] && c.cells[0] < |reps|
    requires forall c :: c in cons ==> (reps[c.cells[0]] == root <==> c.cells[0] in s)
    ensures LocalCons(cons, reps, root) == ClassCons(cons, s)
  {
    if cons != [] {
      var init, last := cons[..|cons| - 1], cons[|cons| - 1];
      assert last in cons && forall c :: c in init ==> c in cons;
      LocalIsClass(init, reps, root, s);
    }
  }

  lemma {:induction false} RootSeen(f: seq<nat>, reps: seq<nat>, rt: nat)
    requires forall i :: 0 <= i < |f| ==> f[i] < |reps|
    ensures rt in RootsSeen(f, reps) <==> exists y :: y in f && y < |reps| && reps[y] == rt
  {
    if f != [] {
      var init, x := f[..|f| - 1], f[|f| - 1];
      assert f == init + [x];
      RootSeen(init, reps, rt);
      RootSeen(init, reps, reps[x]);
      assert x in f;
    }
  }

  // The roots appear in the order of the heads.
  lemma {:induction false} RootsAreHeads(cons: seq<Con>, f: seq<nat>, reps: seq<nat>)
    requires Partition(cons, reps) && forall i :: 0 <= i < |f| ==> f[i] < |reps|
    ensures |RootsSeen(f, reps)| == |Heads(cons, f)|
    ensures forall j :: 0 <= j < |Heads(cons, f)| ==>
      Heads(cons, f)[j] in f && Heads(cons, f)[j] < |reps| && RootsSeen(f, reps)[j] == reps[Heads(cons, f)[j]]
  {
    if f != [] {
      hide Linked;
      var init, x := f[..|f| - 1], f[|f| - 1];
      assert f == init + [x];
      RootsAreHeads(cons, init, reps);
      RootSeen(init, reps, reps[x]);
      assert (exists y :: y in init && Linked(cons, y, x)) <==> reps[x] in RootsSeen(init, reps);
    }
  }

  /** Piece i of the analyzer is component i. */
  lemma {:induction false} PieceIsPart(cons: seq<Con>, frontier: seq<nat>, reps: seq<nat>, compRoot: seq<nat>,
                                       rootOf: seq<nat>, i: nat)
    requires SplitContext(cons, frontier, reps, compRoot, rootOf) && i < |compRoot|
    ensures i < |Parts(cons)| && PieceAt(cons, frontier, reps, compRoot, rootOf, i) == Parts(cons)[i]
  {
    hide Linked, FirstSeen, Mentioned;
    RootsAreHeads(cons, frontier, reps);
    var head := Heads(cons, frontier)[i];
    var mates := Class(cons, head);
    forall x | x in frontier
      ensures x < |reps| && (rootOf[x] == i <==> x in mates) && (reps[x] == compRoot[i] <==> x in mates)
    {
      InClass(cons, frontier, reps, compRoot, rootOf, i, head, x);
    }
    GroupIsBackwards(frontier, rootOf, i, mates);
    forall c | c in cons ensures reps[c.cells[0]] == compRoot[i] <==> c.cells[0] in mates {
      FirstOnFrontier(cons, frontier, c);
    }
    LocalIsClass(cons, reps, compRoot[i], mates);
  }

  lemma {:induction false} FirstOnFrontier(cons: seq<Con>, frontier: seq<nat>, c: Con)
    requires c in cons && c.cells != [] && Elems(frontier) == Mentioned(cons)
    ensures c.cells[0] in frontier
  {
    assert c.cells[0] in c.cells;
    assert c.cells[0] in Mentioned(cons);
    assert c.cells[0] in Elems(frontier);
  }

  lemma {:induction false} InClass(cons: seq<Con>, frontier: seq<nat>, reps: seq<nat>, compRoot: seq<nat>,
                                   rootOf: seq<nat>, i: nat, head: nat, x: nat)
    requires SplitContext(cons, frontier, reps, compRoot, rootOf) && i < |compRoot|
    requires head in frontier && head < |reps| && reps[head] == compRoot[i] && x in frontier
    ensures x < |reps| && |rootOf| == |reps|
    ensures rootOf[x] == i <==> x in Class(cons, head)
    ensures reps[x] == compRoot[i] <==> x in Class(cons, head)
  {
    hide Linked, FirstSeen;
    var k :| 0 <= k < |frontier| && frontier[k] == x;
    assert NumberedAt(reps, compRoot, rootOf, x);
    assert x in Elems(frontier);
  }

  lemma {:induction false} PartsCount(cons: seq<Con>, frontier: seq<nat>, reps: seq<nat>, compRoot: seq<nat>,
                                      rootOf: seq<nat>)
    requires SplitContext(cons, frontier, reps, compRoot, rootOf)
    ensures |Parts(cons)| == |compRoot|
  {
    RootsAreHeads(cons, frontier, reps);
  }

  /** The components decompose the constraints. */
  lemma {:induction false} PartsDecompose(cons: seq<Con>, frontier: seq<nat>, reps: seq<nat>, compRoot: seq<nat>,
                                          rootOf: seq<nat>)
    requires SplitContext(cons, frontier, reps, compRoot, rootOf)
    ensures Decomposition(Parts(cons), cons)
  {
    hide Parts, Decomposition, SplitContext;
    var comps := Parts(cons);
    PartsCount(cons, frontier, reps, compRoot, rootOf);
    forall i: nat | i < |comps|
      ensures comps[i] == PieceAt(cons, frontier, reps, compRoot, rootOf, i)
    {
      PieceIsPart(cons, frontier, reps, compRoot, rootOf, i);
    }
    FromParts(comps, cons, frontier, reps, compRoot, rootOf);
  }

  lemma {:induction false} FromParts(comps: seq<Component>, cons: seq<Con>, frontier: seq<nat>, reps: seq<nat>,
                                     compRoot: seq<nat>, rootOf: seq<nat>)
    requires SplitContext(cons, frontier, reps, compRoot, rootOf) && |comps| == |compRoot|
    requires forall i: nat :: i < |comps| ==> comps[i] == PieceAt(cons, frontier, reps, compRoot, rootOf, i)
    ensures Decomposition(comps, cons)
  {
    hide Decomposition, FirstSeen, Mentioned;
    SplitCorrect(comps, cons, frontier, reps, compRoot, rootOf);
  }
}
