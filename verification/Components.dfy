/** Splitting the frontier into independent components. */
module Components {
  import opened Tallies
  import opened Placements
  import opened UnionFind
  import opened Search

  ghost function Mentioned(cons: seq<Con>): set<nat> {
    set c, x | c in cons && x in c.cells :: x
  }

  ghost predicate Usable(cons: seq<Con>, n: nat) {
    forall c :: c in cons ==>
      c.cells != [] && Distinct(c.cells) && 0 <= c.need <= |c.cells| && forall x :: x in c.cells ==> x < n
  }

  // ---- the frontier ----

  // The cells in order of first appearance after those of `front`.
  ghost function Added(front: seq<nat>, cells: seq<nat>): seq<nat> {
    if cells == [] then front
    else
      var more, x := Added(front, cells[..|cells| - 1]), cells[|cells| - 1];
      if x in more then more else more + [x]
  }

  /** The cells of the constraints in order of first appearance. */
  ghost function FirstSeen(cons: seq<Con>): seq<nat> {
    if cons == [] then [] else Added(FirstSeen(cons[..|cons| - 1]), cons[|cons| - 1].cells)
  }

  method AddToFrontier(cells: seq<nat>, inFrontier: array<bool>, frontier0: seq<nat>) returns (frontier: seq<nat>)
    requires forall x :: x in cells ==> x < inFrontier.Length
    requires Distinct(frontier0)
    requires forall x :: 0 <= x < inFrontier.Length ==> (inFrontier[x] <==> x in frontier0)
    requires forall x :: x in frontier0 ==> x < inFrontier.Length
    modifies inFrontier
    ensures Distinct(frontier) && Elems(frontier) == Elems(frontier0) + Elems(cells)
    ensures frontier == Added(frontier0, cells)
    ensures forall x :: 0 <= x < inFrontier.Length ==> (inFrontier[x] <==> x in frontier)
  {
    frontier := frontier0;
    for j := 0 to |cells|
      invariant Distinct(frontier) && Elems(frontier) == Elems(frontier0) + Elems(cells[..j])
      invariant frontier == Added(frontier0, cells[..j])
      invariant forall x :: 0 <= x < inFrontier.Length ==> (inFrontier[x] <==> x in frontier)
    {
      var x := cells[j];
      assert x in cells && cells[..j + 1] == cells[..j] + [x] && cells[..j + 1][..j] == cells[..j];
      ghost var was := frontier;
      if !inFrontier[x] {
        inFrontier[x] := true;
        frontier := frontier + [x];
      }
      forall y ensures y in Elems(frontier) <==> y in Elems(was) || y == x {
        assert y in Elems(frontier) <==> y in frontier;
      }
    }
    assert cells[..|cells|] == cells;
  }

  method CollectFrontier(cons: seq<Con>, n: nat) returns (inFrontier: array<bool>, frontier: seq<nat>)
    requires Usable(cons, n)
    ensures fresh(inFrontier) && inFrontier.Length == n
    ensures Distinct(frontier) && Elems(frontier) == Mentioned(cons) && frontier == FirstSeen(cons)
    ensures forall x :: 0 <= x < n ==> (inFrontier[x] <==> x in frontier)
  {
    inFrontier := new bool[n](_ => false);
    frontier := [];
    for i := 0 to |cons|
      invariant Distinct(frontier) && Elems(frontier) == Mentioned(cons[..i]) && frontier == FirstSeen(cons[..i])
      invariant forall x :: 0 <= x < n ==> (inFrontier[x] <==> x in frontier)
    {
      assert cons[i] in cons;
      forall x | x in frontier ensures x < n {
        assert x in Elems(frontier);
        var c :| c in cons[..i] && x in c.cells;
        assert c in cons;
      }
      assert cons[..i + 1][..i] == cons[..i];
      frontier := AddToFrontier(cons[i].cells, inFrontier, frontier);
      MentionedSnoc(cons, i);
    }
    assert cons[..|cons|] == cons;
  }

  lemma {:induction false} MentionedSnoc(cons: seq<Con>, i: nat)
    requires i < |cons|
    ensures Mentioned(cons[..i + 1]) == Mentioned(cons[..i]) + Elems(cons[i].cells)
  {
    assert cons[..i + 1] == cons[..i] + [cons[i]];
    assert cons[i] in cons[..i + 1];
    assert forall c :: c in cons[..i] ==> c in cons[..i + 1];
    assert forall x :: x in cons[i].cells ==> x in Mentioned(cons[..i + 1]);
  }

  // ---- numbering the components by root ----

  ghost predicate HasMember(frontier: seq<nat>, reps: seq<nat>, root: nat)
    requires forall i :: 0 <= i < |frontier| ==> frontier[i] < |reps|
  {
    exists i :: 0 <= i < |frontier| && reps[frontier[i]] == root
  }

  ghost predicate NumberedAt(reps: seq<nat>, compRoot: seq<nat>, rootOf: seq<nat>, x: nat)
    requires x < |reps| && |rootOf| == |reps|
  {
    rootOf[x] < |compRoot| && compRoot[rootOf[x]] == reps[x]
  }

  ghost predicate Numbered(frontier: seq<nat>, reps: seq<nat>, compRoot: seq<nat>, rootOf: seq<nat>) {
    && |rootOf| == |reps| && Distinct(compRoot)
    && (forall i :: 0 <= i < |frontier| ==> frontier[i] < |reps|)
    && (forall i :: 0 <= i < |frontier| ==> NumberedAt(reps, compRoot, rootOf, frontier[i]))
    && (forall j :: 0 <= j < |compRoot| ==> HasMember(frontier, reps, compRoot[j]))
  }

  lemma {:induction false} HasMemberSnoc(f: seq<nat>, x: nat, reps: seq<nat>, root: nat)
    requires x < |reps| && forall i :: 0 <= i < |f| ==> f[i] < |reps|
    requires HasMember(f, reps, root) || root == reps[x]
    ensures HasMember(f + [x], reps, root)
  {
    if HasMember(f, reps, root) {
      var k :| 0 <= k < |f| && reps[f[k]] == root;
      assert (f + [x])[k] == f[k];
    } else {
      assert (f + [x])[|f|] == x;
    }
  }

  lemma {:induction false} NumberedSnoc(f: seq<nat>, x: nat, reps: seq<nat>, compRoot: seq<nat>, rootOf: seq<nat>,
                                        compRoot': seq<nat>, found: nat)
    requires x !in f && x < |reps|
    requires Numbered(f, reps, compRoot, rootOf)
    requires compRoot' == compRoot || (compRoot' == compRoot + [reps[x]] && reps[x] !in compRoot)
    requires found < |compRoot'| && compRoot'[found] == reps[x]
    ensures Numbered(f + [x], reps, compRoot', rootOf[x := found])
  {
    forall j | 0 <= j < |compRoot'| ensures HasMember(f + [x], reps, compRoot'[j]) {
      HasMemberSnoc(f, x, reps, compRoot'[j]);
    }
    forall i | 0 <= i < |f| ensures NumberedAt(reps, compRoot', rootOf[x := found], f[i]) {
      assert f[i] in f;
      assert NumberedAt(reps, compRoot, rootOf, f[i]);
    }
  }

  // The number a root already has, or the next free one.
  method RootNumber(compRoot: seq<nat>, rt: nat) returns (found: nat)
    ensures found <= |compRoot|
    ensures if found < |compRoot| then compRoot[found] == rt else rt !in compRoot
  {
    found := 0;
    while found < |compRoot| && compRoot[found] != rt
      invariant found <= |compRoot| && rt !in compRoot[..found]
    {
      found := found + 1;
    }
    assert compRoot[..|compRoot|] == compRoot;
  }

  lemma {:induction false} NumberedNone(reps: seq<nat>, rootOf: seq<nat>)
    requires |rootOf| == |reps|
    ensures Numbered([], reps, [], rootOf)
  {}

  // The roots in order of first appearance.
  ghost function RootsSeen(frontier: seq<nat>, reps: seq<nat>): seq<nat>
    requires forall i :: 0 <= i < |frontier| ==> frontier[i] < |reps|
  {
    if frontier == [] then []
    else
      var roots, rt := RootsSeen(frontier[..|frontier| - 1], reps), reps[frontier[|frontier| - 1]];
      if rt in roots then roots else roots + [rt]
  }

  method NumberRoots(frontier: seq<nat>, uf: Forest) returns (compRoot: seq<nat>, rootOf: array<nat>)
    requires uf.Valid() && Distinct(frontier) && forall i :: 0 <= i < |frontier| ==> frontier[i] < uf.parent.Length
    modifies uf.parent
    ensures uf.Valid() && uf.Reps() == old(uf.Reps()) && uf.rank == old(uf.rank)
    ensures fresh(rootOf) && Numbered(frontier, uf.Reps(), compRoot, rootOf[..])
    ensures compRoot == RootsSeen(frontier, uf.Reps())
  {
    hide Numbered, Forest.Valid, Forest.Reps;
    ghost var reps := uf.Reps();
    rootOf := new nat[uf.parent.Length](_ => 0);
    compRoot := [];
    NumberedNone(reps, rootOf[..]);
    for i := 0 to |frontier|
      invariant uf.Valid() && uf.Reps() == reps && uf.rank == old(uf.rank)
      invariant Numbered(frontier[..i], reps, compRoot, rootOf[..]) && compRoot == RootsSeen(frontier[..i], reps)
    {
      var rt := uf.Find(frontier[i]);
      ghost var compRoot0, rootOf0 := compRoot, rootOf[..];
      var found := RootNumber(compRoot, rt);
      if found == |compRoot| {
        compRoot := compRoot + [rt];
      }
      rootOf[frontier[i]] := found;
      assert frontier[..i + 1] == frontier[..i] + [frontier[i]] && frontier[..i + 1][..i] == frontier[..i];
      NumberedSnoc(frontier[..i], frontier[i], reps, compRoot0, rootOf0, compRoot, found);
    }
    assert frontier[..|frontier|] == frontier;
  }

  // ---- counting sort of the frontier by component ----

  // The cells of xs numbered ci, last one first.
  ghost function Group(xs: seq<nat>, rootOf: seq<nat>, ci: nat): (g: seq<nat>)
    requires forall i :: 0 <= i < |xs| ==> xs[i] < |rootOf|
    ensures |g| <= |xs|
  {
    if xs == [] then []
    else
      var x := xs[|xs| - 1];
      (if rootOf[x] == ci then [x] else []) + Group(xs[..|xs| - 1], rootOf, ci)
  }

  lemma {:induction false} GroupSnoc(xs: seq<nat>, i: nat, rootOf: seq<nat>, ci: nat)
    requires i < |xs| && forall k :: 0 <= k < |xs| ==> xs[k] < |rootOf|
    ensures Group(xs[..i + 1], rootOf, ci)
         == (if rootOf[xs[i]] == ci then [xs[i]] else []) + Group(xs[..i], rootOf, ci)
  {
    assert xs[..i + 1][..i] == xs[..i];
  }

  lemma {:induction false} GroupGrows(xs: seq<nat>, i: nat, rootOf: seq<nat>, ci: nat)
    requires i <= |xs| && forall k :: 0 <= k < |xs| ==> xs[k] < |rootOf|
    ensures |Group(xs[..i], rootOf, ci)| <= |Group(xs, rootOf, ci)|
    decreases |xs| - i
  {
    if i < |xs| {
      GroupSnoc(xs, i, rootOf, ci);
      GroupGrows(xs, i + 1, rootOf, ci);
    } else {
      assert xs[..i] == xs;
    }
  }

  lemma {:induction false} GroupElems(xs: seq<nat>, rootOf: seq<nat>, ci: nat)
    requires forall k :: 0 <= k < |xs| ==> xs[k] < |rootOf|
    ensures forall x :: x in Group(xs, rootOf, ci) <==> x in xs && rootOf[x] == ci
    ensures Distinct(xs) ==> Distinct(Group(xs, rootOf, ci))
  {
    if xs != [] {
      var init, last := xs[..|xs| - 1], xs[|xs| - 1];
      GroupElems(init, rootOf, ci);
      assert xs == init + [last];
      assert Distinct(xs) ==> last !in init;
    }
  }

  // Where component ci starts in the sorted list.
  ghost function Start(xs: seq<nat>, rootOf: seq<nat>, ci: nat): nat
    requires forall i :: 0 <= i < |xs| ==> xs[i] < |rootOf|
  {
    if ci == 0 then 0 else Start(xs, rootOf, ci - 1) + |Group(xs, rootOf, ci - 1)|
  }

  lemma {:induction false} StartMono(xs: seq<nat>, rootOf: seq<nat>, ci: nat, cj: nat)
    requires forall i :: 0 <= i < |xs| ==> xs[i] < |rootOf|
    requires ci < cj
    ensures Start(xs, rootOf, ci) + |Group(xs, rootOf, ci)| <= Start(xs, rootOf, cj)
    decreases cj
  {
    if ci + 1 < cj { StartMono(xs, rootOf, ci, cj - 1); }
  }

  lemma {:induction false} StartSnoc(xs: seq<nat>, rootOf: seq<nat>, cj: nat)
    requires xs != [] && forall i :: 0 <= i < |xs| ==> xs[i] < |rootOf|
    ensures Start(xs, rootOf, cj) == Start(xs[..|xs| - 1], rootOf, cj) + (if rootOf[xs[|xs| - 1]] < cj then 1 else 0)
  {
    hide Group;
    if cj > 0 {
      StartSnoc(xs, rootOf, cj - 1);
      GroupSnoc(xs, |xs| - 1, rootOf, cj - 1);
      assert xs[..|xs|] == xs;
    }
  }

  // All the groups together are as long as the frontier.
  lemma {:induction false} StartTotal(xs: seq<nat>, rootOf: seq<nat>, ncomps: nat)
    requires forall i :: 0 <= i < |xs| ==> xs[i] < |rootOf| && rootOf[xs[i]] < ncomps
    ensures Start(xs, rootOf, ncomps) == |xs|
  {
    if xs == [] {
      StartEmpty(rootOf, ncomps);
    } else {
      StartSnoc(xs, rootOf, ncomps);
      StartTotal(xs[..|xs| - 1], rootOf, ncomps);
    }
  }

  lemma {:induction false} StartEmpty(rootOf: seq<nat>, ci: nat)
    ensures Start([], rootOf, ci) == 0
  {
    if ci > 0 { StartEmpty(rootOf, ci - 1); }
  }

  method Sizes(frontier: seq<nat>, rootOf: seq<nat>, ncomps: nat) returns (sizes: array<nat>)
    requires forall i :: 0 <= i < |frontier| ==> frontier[i] < |rootOf| && rootOf[frontier[i]] < ncomps
    ensures fresh(sizes) && sizes.Length == ncomps
    ensures forall ci :: 0 <= ci < ncomps ==> sizes[ci] == |Group(frontier, rootOf, ci)|
  {
    sizes := new nat[ncomps](_ => 0);
    for i := 0 to |frontier|
      invariant forall ci :: 0 <= ci < ncomps ==> sizes[ci] == |Group(frontier[..i], rootOf, ci)|
    {
      var c := rootOf[frontier[i]];
      forall ci: nat { GroupSnoc(frontier, i, rootOf, ci); }
      sizes[c] := sizes[c] + 1;
    }
    assert frontier[..|frontier|] == frontier;
  }

  ghost function PrefixSum(sizes: seq<nat>, i: nat): nat
    requires i <= |sizes|
  {
    if i == 0 then 0 else PrefixSum(sizes, i - 1) + sizes[i - 1]
  }

  lemma {:induction false} PrefixSumIsStart(frontier: seq<nat>, rootOf: seq<nat>, sizes: seq<nat>, i: nat)
    requires forall i :: 0 <= i < |frontier| ==> frontier[i] < |rootOf|
    requires forall ci :: 0 <= ci < |sizes| ==> sizes[ci] == |Group(frontier, rootOf, ci)|
    requires i <= |sizes|
    ensures PrefixSum(sizes, i) == Start(frontier, rootOf, i)
  {
    hide Group;
    if i > 0 { PrefixSumIsStart(frontier, rootOf, sizes, i - 1); }
  }

  lemma {:induction false} PrefixSumStep(sizes: seq<nat>, i: nat)
    requires i <= |sizes|
    ensures PrefixSum(sizes, i) == if i == 0 then 0 else PrefixSum(sizes, i - 1) + sizes[i - 1]
  {}

  method Offsets(sizes: seq<nat>) returns (ofs: array<nat>)
    ensures fresh(ofs) && ofs.Length == |sizes| + 1
    ensures forall ci :: 0 <= ci <= |sizes| ==> ofs[ci] == PrefixSum(sizes, ci)
  {
    hide PrefixSum;
    ofs := new nat[|sizes| + 1](_ => 0);
    PrefixSumStep(sizes, 0);
    for i := 1 to |sizes| + 1
      invariant forall ci :: 0 <= ci < i ==> ofs[ci] == PrefixSum(sizes, ci)
    {
      PrefixSumStep(sizes, i);
      ofs[i] := ofs[i - 1] + sizes[i - 1];
    }
  }

  // After i cells, the end of every component's range holds its cells so far.
  ghost predicate Filled(frontier: seq<nat>, i: nat, rootOf: seq<nat>, ncomps: nat, sizes: seq<nat>, cells: seq<nat>)
    requires i <= |frontier|
    requires forall k :: 0 <= k < |frontier| ==> frontier[k] < |rootOf| && rootOf[frontier[k]] < ncomps
  {
    && |sizes| == ncomps && |cells| == |frontier|
    && forall ci: nat :: ci < ncomps ==> FilledOne(frontier, i, rootOf, ci, sizes[ci], cells)
  }

  ghost predicate FilledOne(frontier: seq<nat>, i: nat, rootOf: seq<nat>, ci: nat, size: nat, cells: seq<nat>)
    requires i <= |frontier|
    requires forall k :: 0 <= k < |frontier| ==> frontier[k] < |rootOf|
  {
    var g := Group(frontier[..i], rootOf, ci);
    var end := Start(frontier, rootOf, ci) + |Group(frontier, rootOf, ci)|;
    && size + |g| == |Group(frontier, rootOf, ci)|
    && end <= |cells|
    && cells[end - |g|..end] == g
  }

  lemma {:induction false} FillOneStep(frontier: seq<nat>, i: nat, rootOf: seq<nat>, ci: nat, size: nat,
                                       cells: seq<nat>, c: nat, pos: nat, x: nat)
    requires i < |frontier| && forall k :: 0 <= k < |frontier| ==> frontier[k] < |rootOf|
    requires FilledOne(frontier, i, rootOf, ci, size, cells)
    requires x == frontier[i] && c == rootOf[x] && pos < |cells|
    requires ci == c ==> size > 0 && pos == Start(frontier, rootOf, c) + size - 1
    requires ci != c ==>
      pos < Start(frontier, rootOf, ci) || pos >= Start(frontier, rootOf, ci) + |Group(frontier, rootOf, ci)|
    ensures FilledOne(frontier, i + 1, rootOf, ci, if ci == c then size - 1 else size, cells[pos := x])
  {
    hide Start;
    GroupSnoc(frontier, i, rootOf, ci);
    var g := Group(frontier[..i], rootOf, ci);
    var end := Start(frontier, rootOf, ci) + |Group(frontier, rootOf, ci)|;
    if ci == c {
      assert cells[pos := x][pos..end] == [x] + cells[pos + 1..end];
    } else {
      assert cells[pos := x][end - |g|..end] == cells[end - |g|..end];
    }
  }

  lemma {:induction false} FillStep(frontier: seq<nat>, i: nat, rootOf: seq<nat>, ncomps: nat, sizes: seq<nat>,
                                    cells: seq<nat>)
    requires i < |frontier|
    requires forall k :: 0 <= k < |frontier| ==> frontier[k] < |rootOf| && rootOf[frontier[k]] < ncomps
    requires Filled(frontier, i, rootOf, ncomps, sizes, cells)
    ensures var c := rootOf[frontier[i]];
      && sizes[c] > 0 && Start(frontier, rootOf, c) + sizes[c] - 1 < |cells|
      && Filled(frontier, i + 1, rootOf, ncomps, sizes[c := sizes[c] - 1],
                cells[Start(frontier, rootOf, c) + sizes[c] - 1 := frontier[i]])
  {
    var x := frontier[i];
    var c := rootOf[x];
    assert FilledOne(frontier, i, rootOf, c, sizes[c], cells);
    GroupSnoc(frontier, i, rootOf, c);
    GroupGrows(frontier, i + 1, rootOf, c);
    var pos := Start(frontier, rootOf, c) + sizes[c] - 1;
    var sizes' := sizes[c := sizes[c] - 1];
    forall ci: nat | ci < ncomps
      ensures FilledOne(frontier, i + 1, rootOf, ci, sizes'[ci], cells[pos := x])
    {
      assert FilledOne(frontier, i, rootOf, ci, sizes[ci], cells);
      if ci < c { StartMono(frontier, rootOf, ci, c); }
      if c < ci { StartMono(frontier, rootOf, c, ci); }
      FillOneStep(frontier, i, rootOf, ci, sizes[ci], cells, c, pos, x);
    }
  }

  // The frontier grouped by component: range ofs[ci]..ofs[ci+1] is component ci.
  ghost predicate Sorted(frontier: seq<nat>, rootOf: seq<nat>, ncomps: nat, ofs: seq<nat>, cells: seq<nat>)
    requires forall k :: 0 <= k < |frontier| ==> frontier[k] < |rootOf|
  {
    && |ofs| == ncomps + 1 && |cells| == |frontier| && ofs[0] == 0 && ofs[ncomps] == |cells|
    && forall ci: nat :: ci < ncomps ==> RangeIs(ofs, cells, ci, Group(frontier, rootOf, ci))
  }

  ghost predicate RangeIs(ofs: seq<nat>, cells: seq<nat>, ci: nat, g: seq<nat>)
    requires ci + 1 < |ofs|
  {
    ofs[ci] <= ofs[ci + 1] <= |cells| && cells[ofs[ci]..ofs[ci + 1]] == g
  }

  lemma {:induction false} FilledSorted(frontier: seq<nat>, rootOf: seq<nat>, ncomps: nat, sizes: seq<nat>,
                                        ofs: seq<nat>, cells: seq<nat>)
    requires forall k :: 0 <= k < |frontier| ==> frontier[k] < |rootOf| && rootOf[frontier[k]] < ncomps
    requires Filled(frontier, |frontier|, rootOf, ncomps, sizes, cells)
    requires |ofs| == ncomps + 1 && forall ci :: 0 <= ci <= ncomps ==> ofs[ci] == Start(frontier, rootOf, ci)
    ensures Sorted(frontier, rootOf, ncomps, ofs, cells)
  {
    StartTotal(frontier, rootOf, ncomps);
    forall ci: nat | ci < ncomps ensures RangeIs(ofs, cells, ci, Group(frontier, rootOf, ci)) {
      assert FilledOne(frontier, |frontier|, rootOf, ci, sizes[ci], cells);
      assert frontier[..|frontier|] == frontier;
    }
  }

  lemma {:induction false} FilledStart(frontier: seq<nat>, rootOf: seq<nat>, ncomps: nat, sizes: seq<nat>,
                                       cells: seq<nat>)
    requires forall k :: 0 <= k < |frontier| ==> frontier[k] < |rootOf| && rootOf[frontier[k]] < ncomps
    requires |sizes| == ncomps && |cells| == |frontier|
    requires forall ci :: 0 <= ci < ncomps ==> sizes[ci] == |Group(frontier, rootOf, ci)|
    ensures Filled(frontier, 0, rootOf, ncomps, sizes, cells)
  {
    forall ci: nat | ci < ncomps ensures FilledOne(frontier, 0, rootOf, ci, sizes[ci], cells) {
      StartMono(frontier, rootOf, ci, ncomps);
      StartTotal(frontier, rootOf, ncomps);
    }
  }

  // comp_cells[ofs[ci] + (--sizes[ci])] = x
  method PlaceOne(x: nat, ci: nat, sizes: array<nat>, ofs: array<nat>, compCells: array<nat>)
    requires sizes != ofs && sizes != compCells && ofs != compCells
    requires ci < sizes.Length && ci < ofs.Length && sizes[ci] > 0 && ofs[ci] + sizes[ci] - 1 < compCells.Length
    modifies sizes, compCells
    ensures sizes[..] == old(sizes[..])[ci := old(sizes[ci]) - 1]
    ensures compCells[..] == old(compCells[..])[old(ofs[ci] + sizes[ci] - 1) := x]
  {
    sizes[ci] := sizes[ci] - 1;
    compCells[ofs[ci] + sizes[ci]] := x;
  }

  ghost predicate StartsAt(frontier: seq<nat>, rootOf: seq<nat>, ncomps: nat, ofs: seq<nat>)
    requires forall k :: 0 <= k < |frontier| ==> frontier[k] < |rootOf|
  {
    |ofs| == ncomps + 1 && forall ci :: 0 <= ci <= ncomps ==> ofs[ci] == Start(frontier, rootOf, ci)
  }

  method PlaceNext(frontier: seq<nat>, i: nat, rootOf: seq<nat>, ghost ncomps: nat, sizes: array<nat>,
                   ofs: array<nat>, compCells: array<nat>)
    requires sizes != ofs && sizes != compCells && ofs != compCells
    requires i < |frontier|
    requires forall k :: 0 <= k < |frontier| ==> frontier[k] < |rootOf| && rootOf[frontier[k]] < ncomps
    requires Filled(frontier, i, rootOf, ncomps, sizes[..], compCells[..])
    requires StartsAt(frontier, rootOf, ncomps, ofs[..])
    modifies sizes, compCells
    ensures Filled(frontier, i + 1, rootOf, ncomps, sizes[..], compCells[..])
  {
    FillStep(frontier, i, rootOf, ncomps, sizes[..], compCells[..]);
    PlaceOne(frontier[i], rootOf[frontier[i]], sizes, ofs, compCells);
  }

  method SortByComponent(frontier: seq<nat>, rootOf: seq<nat>, ncomps: nat)
      returns (ofs: array<nat>, compCells: array<nat>)
    requires forall i :: 0 <= i < |frontier| ==> frontier[i] < |rootOf| && rootOf[frontier[i]] < ncomps
    ensures fresh(ofs) && fresh(compCells)
    ensures Sorted(frontier, rootOf, ncomps, ofs[..], compCells[..])
  {
    var sizes := Sizes(frontier, rootOf, ncomps);
    ofs := Offsets(sizes[..]);
    ghost var starts := ofs[..];
    forall ci: nat | ci <= ncomps ensures starts[ci] == Start(frontier, rootOf, ci) {
      PrefixSumIsStart(frontier, rootOf, sizes[..], ci);
    }
    compCells := new nat[|frontier|](_ => 0);
    FilledStart(frontier, rootOf, ncomps, sizes[..], compCells[..]);
    for i := 0 to |frontier|
      invariant ofs[..] == starts && StartsAt(frontier, rootOf, ncomps, starts)
      invariant Filled(frontier, i, rootOf, ncomps, sizes[..], compCells[..])
    {
      PlaceNext(frontier, i, rootOf, ncomps, sizes, ofs, compCells);
    }
    FilledSorted(frontier, rootOf, ncomps, sizes[..], starts, compCells[..]);
  }

  // ---- the constraints of one component ----

  ghost function LocalCons(cons: seq<Con>, reps: seq<nat>, root: nat): seq<Con>
    requires forall c :: c in cons ==> c.cells != [] && c.cells[0] < |reps|
  {
    if cons == [] then []
    else
      var last := cons[|cons| - 1];
      assert last in cons;
      assert forall c :: c in cons[..|cons| - 1] ==> c in cons;
      LocalCons(cons[..|cons| - 1], reps, root) + (if reps[last.cells[0]] == root then [last] else [])
  }

  lemma {:induction false} LocalConsMember(cons: seq<Con>, reps: seq<nat>, root: nat)
    requires forall c :: c in cons ==> c.cells != [] && c.cells[0] < |reps|
    ensures forall c :: c in LocalCons(cons, reps, root) <==> c in cons && reps[c.cells[0]] == root
  {
    if cons != [] {
      var init, last := cons[..|cons| - 1], cons[|cons| - 1];
      assert cons == init + [last];
      LocalConsMember(init, reps, root);
    }
  }

  method SelectCons(cons: seq<Con>, uf: Forest, root: nat) returns (local: seq<Con>)
    requires uf.Valid()
    requires forall c :: c in cons ==> c.cells != [] && c.cells[0] < uf.parent.Length
    modifies uf.parent
    ensures uf.Valid() && uf.Reps() == old(uf.Reps()) && uf.rank == old(uf.rank)
    ensures local == LocalCons(cons, uf.Reps(), root)
  {
    ghost var reps := uf.Reps();
    local := [];
    for k := 0 to |cons|
      invariant uf.Valid() && uf.Reps() == reps && uf.rank == old(uf.rank)
      invariant forall c :: c in cons[..k] ==> c in cons
      invariant local == LocalCons(cons[..k], reps, root)
    {
      assert cons[k] in cons;
      assert cons[..k + 1] == cons[..k] + [cons[k]] && cons[..k + 1][..k] == cons[..k];
      var rt := uf.Find(cons[k].cells[0]);
      if rt == root { local := local + [cons[k]]; }
    }
    assert cons[..|cons|] == cons;
  }

  // ---- the decomposition ----

  datatype Component = Component(cells: seq<nat>, cons: seq<Con>)

  ghost predicate PiecesWellFormed(comps: seq<Component>) {
    forall i: nat :: i < |comps| ==> comps[i].cells != [] && WellFormed(comps[i].cells, comps[i].cons)
  }

  ghost predicate PiecesApart(comps: seq<Component>) {
    forall i: nat, j: nat :: i < j < |comps| ==> Elems(comps[i].cells) !! Elems(comps[j].cells)
  }

  ghost predicate CellInPiece(comps: seq<Component>, x: nat) {
    exists i: nat :: i < |comps| && x in comps[i].cells
  }

  ghost predicate ConInPiece(comps: seq<Component>, c: Con) {
    exists i: nat :: i < |comps| && c in comps[i].cons
  }

  /** Disjoint groups of cells, each with its own constraints, that together are
      the frontier and all of its constraints. */
  ghost predicate Decomposition(comps: seq<Component>, cons: seq<Con>) {
    && PiecesWellFormed(comps) && PiecesApart(comps)
    && (forall x: nat :: x in Mentioned(cons) <==> CellInPiece(comps, x))
    && (forall c :: c in cons <==> ConInPiece(comps, c))
  }

  ghost predicate FromSplit(comps: seq<Component>, cons: seq<Con>, frontier: seq<nat>, reps: seq<nat>,
                            compRoot: seq<nat>, rootOf: seq<nat>)
    requires Numbered(frontier, reps, compRoot, rootOf)
    requires forall c :: c in cons ==> c.cells != [] && c.cells[0] < |reps|
  {
    |comps| == |compRoot|
    && forall i: nat :: i < |comps| ==>
         comps[i] == Component(Group(frontier, rootOf, i), LocalCons(cons, reps, compRoot[i]))
  }

  // Cell x of the frontier is in group i exactly when i is the number of its root.
  lemma {:induction false} GroupIs(frontier: seq<nat>, reps: seq<nat>, compRoot: seq<nat>, rootOf: seq<nat>, i: nat,
                                   x: nat)
    requires Numbered(frontier, reps, compRoot, rootOf) && i < |compRoot|
    ensures x in Group(frontier, rootOf, i) <==> x in frontier && reps[x] == compRoot[i]
  {
    GroupElems(frontier, rootOf, i);
    if x in frontier {
      var k :| 0 <= k < |frontier| && frontier[k] == x;
      assert NumberedAt(reps, compRoot, rootOf, x);
    }
  }

  lemma {:induction false} PieceWellFormed(cons: seq<Con>, frontier: seq<nat>, reps: seq<nat>, compRoot: seq<nat>,
                                           rootOf: seq<nat>, i: nat)
    requires Usable(cons, |reps|) && Distinct(frontier) && Elems(frontier) == Mentioned(cons)
    requires Partition(cons, reps) && Numbered(frontier, reps, compRoot, rootOf) && i < |compRoot|
    ensures Group(frontier, rootOf, i) != []
    ensures forall c :: c in cons ==> c.cells != [] && c.cells[0] in c.cells && c.cells[0] < |reps|
    ensures WellFormed(Group(frontier, rootOf, i), LocalCons(cons, reps, compRoot[i]))
  {
    var g := Group(frontier, rootOf, i);
    GroupElems(frontier, rootOf, i);
    assert HasMember(frontier, reps, compRoot[i]);
    var k :| 0 <= k < |frontier| && reps[frontier[k]] == compRoot[i];
    GroupIs(frontier, reps, compRoot, rootOf, i, frontier[k]);
    assert frontier[k] in g;
    assert forall c :: c in cons ==> c.cells != [] && c.cells[0] in c.cells;
    LocalConsMember(cons, reps, compRoot[i]);
    forall c, x | c in LocalCons(cons, reps, compRoot[i]) && x in c.cells ensures x in g {
      assert Share(cons, c.cells[0], x);
      LinkedShare(cons, c.cells[0], x);
      assert x in Mentioned(cons);
      assert x in Elems(frontier);
      GroupIs(frontier, reps, compRoot, rootOf, i, x);
    }
  }

  lemma {:induction false} PiecesDisjoint(frontier: seq<nat>, reps: seq<nat>, compRoot: seq<nat>, rootOf: seq<nat>,
                                          i: nat, j: nat)
    requires Numbered(frontier, reps, compRoot, rootOf) && i < j < |compRoot|
    ensures Elems(Group(frontier, rootOf, i)) !! Elems(Group(frontier, rootOf, j))
  {
    forall x ensures !(x in Group(frontier, rootOf, i) && x in Group(frontier, rootOf, j)) {
      GroupIs(frontier, reps, compRoot, rootOf, i, x);
      GroupIs(frontier, reps, compRoot, rootOf, j, x);
    }
  }

  lemma {:induction false} PieceOfCell(comps: seq<Component>, cons: seq<Con>, frontier: seq<nat>, reps: seq<nat>,
                                       compRoot: seq<nat>, rootOf: seq<nat>, x: nat)
    requires Numbered(frontier, reps, compRoot, rootOf)
    requires forall c :: c in cons ==> c.cells != [] && c.cells[0] < |reps|
    requires FromSplit(comps, cons, frontier, reps, compRoot, rootOf)
    ensures x in frontier <==> CellInPiece(comps, x)
  {
    if x in frontier {
      var k :| 0 <= k < |frontier| && frontier[k] == x;
      assert NumberedAt(reps, compRoot, rootOf, x);
      GroupIs(frontier, reps, compRoot, rootOf, rootOf[x], x);
      assert x in comps[rootOf[x]].cells;
    }
    if CellInPiece(comps, x) {
      var i: nat :| i < |comps| && x in comps[i].cells;
      GroupIs(frontier, reps, compRoot, rootOf, i, x);
    }
  }

  lemma {:induction false} PieceOfCon(comps: seq<Component>, cons: seq<Con>, frontier: seq<nat>, reps: seq<nat>,
                                      compRoot: seq<nat>, rootOf: seq<nat>, c: Con)
    requires Usable(cons, |reps|) && Elems(frontier) == Mentioned(cons)
    requires Numbered(frontier, reps, compRoot, rootOf)
    requires forall c :: c in cons ==> c.cells != [] && c.cells[0] < |reps|
    requires FromSplit(comps, cons, frontier, reps, compRoot, rootOf)
    ensures c in cons <==> ConInPiece(comps, c)
  {
    if c in cons {
      var x := c.cells[0];
      assert x in c.cells;
      assert x in Mentioned(cons);
      assert x in Elems(frontier);
      var k :| 0 <= k < |frontier| && frontier[k] == x;
      assert NumberedAt(reps, compRoot, rootOf, x);
      LocalConsMember(cons, reps, compRoot[rootOf[x]]);
      assert c in comps[rootOf[x]].cons;
    }
    if ConInPiece(comps, c) {
      var i: nat :| i < |comps| && c in comps[i].cons;
      LocalConsMember(cons, reps, compRoot[i]);
    }
  }

  lemma {:induction false} PieceLinked(cons: seq<Con>, frontier: seq<nat>, reps: seq<nat>, compRoot: seq<nat>,
                                       rootOf: seq<nat>, i: nat, x: nat, y: nat)
    requires Partition(cons, reps) && Numbered(frontier, reps, compRoot, rootOf) && i < |compRoot|
    requires x in Group(frontier, rootOf, i) && y in frontier
    ensures y in Group(frontier, rootOf, i) <==> Linked(cons, x, y)
  {
    GroupIs(frontier, reps, compRoot, rootOf, i, x);
    GroupIs(frontier, reps, compRoot, rootOf, i, y);
  }

  lemma {:induction false} PiecesShaped(comps: seq<Component>, cons: seq<Con>, frontier: seq<nat>, reps: seq<nat>,
                                        compRoot: seq<nat>, rootOf: seq<nat>)
    requires Usable(cons, |reps|) && Distinct(frontier) && Elems(frontier) == Mentioned(cons)
    requires Partition(cons, reps) && Numbered(frontier, reps, compRoot, rootOf)
    requires forall c :: c in cons ==> c.cells != [] && c.cells[0] < |reps|
    requires FromSplit(comps, cons, frontier, reps, compRoot, rootOf)
    ensures PiecesWellFormed(comps) && PiecesApart(comps)
  {
    forall i: nat | i < |comps|
      ensures comps[i].cells != [] && WellFormed(comps[i].cells, comps[i].cons)
    {
      PieceWellFormed(cons, frontier, reps, compRoot, rootOf, i);
    }
    forall i: nat, j: nat | i < j < |comps| ensures Elems(comps[i].cells) !! Elems(comps[j].cells) {
      PiecesDisjoint(frontier, reps, compRoot, rootOf, i, j);
    }
  }

  /** The pieces found by the analyzer are a decomposition, and two frontier cells
      share a piece exactly when a chain of constraints links them. */
  lemma {:induction false} SplitCorrect(comps: seq<Component>, cons: seq<Con>, frontier: seq<nat>, reps: seq<nat>,
                                        compRoot: seq<nat>, rootOf: seq<nat>)
    requires Usable(cons, |reps|) && Distinct(frontier) && Elems(frontier) == Mentioned(cons)
    requires Partition(cons, reps) && Numbered(frontier, reps, compRoot, rootOf)
    requires forall c :: c in cons ==> c.cells != [] && c.cells[0] < |reps|
    requires FromSplit(comps, cons, frontier, reps, compRoot, rootOf)
    ensures Decomposition(comps, cons)
    ensures forall i: nat, x, y :: i < |comps| && x in comps[i].cells && y in frontier ==>
      (y in comps[i].cells <==> Linked(cons, x, y))
  {
    PiecesShaped(comps, cons, frontier, reps, compRoot, rootOf);
    forall x: nat ensures x in Mentioned(cons) <==> CellInPiece(comps, x) {
      assert x in Mentioned(cons) <==> x in Elems(frontier);
      PieceOfCell(comps, cons, frontier, reps, compRoot, rootOf, x);
    }
    forall c ensures c in cons <==> ConInPiece(comps, c) {
      PieceOfCon(comps, cons, frontier, reps, compRoot, rootOf, c);
    }
    forall i: nat, x, y | i < |comps| && x in comps[i].cells && y in frontier
      ensures y in comps[i].cells <==> Linked(cons, x, y)
    {
      PieceLinked(cons, frontier, reps, compRoot, rootOf, i, x, y);
    }
  }
}
