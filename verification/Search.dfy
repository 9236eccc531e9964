/** The explicit-stack search over one frontier component. */
module Search {
  import opened Tallies
  import opened Placements
  import opened SearchSpec

  const NODE_BUDGET: nat := 2000000

  // ---- the member lists: which constraints mention a cell ----

  ghost predicate WellFormed(cells: seq<nat>, cons: seq<Con>) {
    && Distinct(cells)
    && forall c :: c in cons ==>
         c.cells != [] && Distinct(c.cells) && Elems(c.cells) <= Elems(cells) && 0 <= c.need <= |c.cells|
  }

  ghost predicate MemberOf(cells: seq<nat>, cons: seq<Con>, li: nat, members: seq<nat>)
    requires li < |cells|
  {
    && Distinct(members)
    && forall ci: nat :: ci in members <==> ci < |cons| && cells[li] in cons[ci].cells
  }

  lemma {:induction false} MemberStep(cells: seq<nat>, cons: seq<Con>, ci: nat, li: nat, before: seq<nat>,
                                      after: seq<nat>)
    requires ci < |cons| && li < |cells| && MemberOf(cells, cons[..ci], li, before)
    requires after == before + if cells[li] in cons[ci].cells then [ci] else []
    ensures MemberOf(cells, cons[..ci + 1], li, after)
  {
    assert ci !in before;
    forall k: nat ensures k in after <==> k < ci + 1 && cells[li] in cons[..ci + 1][k].cells {
      if k < ci { assert cons[..ci + 1][k] == cons[..ci][k]; }
      assert k in after <==> k in before || (k == ci && cells[li] in cons[ci].cells);
    }
  }

  method MemberLists(cells: seq<nat>, cons: seq<Con>) returns (member: seq<seq<nat>>)
    requires WellFormed(cells, cons)
    ensures |member| == |cells|
    ensures forall li :: 0 <= li < |cells| ==> MemberOf(cells, cons, li, member[li])
  {
    var pos: map<nat, nat> := map[];
    for li := 0 to |cells|
      invariant forall x :: x in pos <==> x in cells[..li]
      invariant forall x :: x in pos ==> pos[x] < li && cells[pos[x]] == x
    {
      pos := pos[cells[li] := li];
    }
    member := seq(|cells|, _ => []);
    for ci := 0 to |cons|
      invariant |member| == |cells|
      invariant forall li :: 0 <= li < |cells| ==> MemberOf(cells, cons[..ci], li, member[li])
    {
      var cs := cons[ci].cells;
      assert cons[ci] in cons;
      ghost var before := member;
      for p := 0 to |cs|
        invariant |member| == |cells|
        invariant forall li :: 0 <= li < |cells| ==>
          member[li] == before[li] + if cells[li] in cs[..p] then [ci] else []
      {
        assert cs[p] in Elems(cs);
        var li := pos[cs[p]];
        assert cells[li] == cs[p] && cells[li] !in cs[..p];
        member := member[li := member[li] + [ci]];
        forall k | 0 <= k < |cells|
          ensures member[k] == before[k] + if cells[k] in cs[..p + 1] then [ci] else []
        {
          assert cs[..p + 1] == cs[..p] + [cs[p]];
        }
      }
      assert cs[..|cs|] == cs;
      forall li | 0 <= li < |cells| ensures MemberOf(cells, cons[..ci + 1], li, member[li]) {
        MemberStep(cells, cons, ci, li, before[li], member[li]);
      }
    }
    assert cons[..|cons|] == cons;
  }

  // ---- search order: most constrained cell first ----

  predicate Ahead(len: seq<nat>, a: nat, b: nat)
    requires a < |len| && b < |len|
  {
    len[a] > len[b] || (len[a] == len[b] && a < b)
  }

  ghost predicate Arrangement(order: seq<nat>, m: nat) {
    |order| == m && Distinct(order) && forall i :: 0 <= i < m ==> order[i] < m
  }

  lemma {:induction false} ArrangementCovers(order: seq<nat>, m: nat)
    requires Arrangement(order, m)
    ensures forall i: nat :: i < m ==> i in order
  {
    ElemsCard(order);
    SubsetFull(Elems(order), Upto(m));
    forall i: nat | i < m ensures i in order {
      assert i in Elems(order);
    }
  }

  // The cells in a given order.
  ghost function Ordered(cells: seq<nat>, order: seq<nat>): seq<nat>
    requires Arrangement(order, |cells|)
  {
    seq(|cells|, l requires 0 <= l < |cells| => cells[order[l]])
  }

  lemma {:induction false} OrderedFacts(cells: seq<nat>, order: seq<nat>)
    requires Distinct(cells) && Arrangement(order, |cells|)
    ensures Distinct(Ordered(cells, order)) && Elems(Ordered(cells, order)) == Elems(cells)
  {
    var xs := Ordered(cells, order);
    ArrangementCovers(order, |cells|);
    forall x | x in cells ensures x in xs {
      var li :| 0 <= li < |cells| && cells[li] == x;
      assert li in order;
      var l :| 0 <= l < |order| && order[l] == li;
      assert xs[l] == x;
    }
    forall x | x in xs ensures x in cells {
      var l :| 0 <= l < |cells| && xs[l] == x;
      assert cells[order[l]] == x;
    }
  }

  // The first p positions are final.
  ghost predicate Leading(len: seq<nat>, order: seq<nat>, p: nat)
    requires Arrangement(order, |len|)
  {
    forall i, j :: 0 <= i < p && i < j < |len| ==> Ahead(len, order[i], order[j])
  }

  // Position p holds the best cell of those before q.
  ghost predicate Best(len: seq<nat>, order: seq<nat>, p: nat, q: nat)
    requires Arrangement(order, |len|) && q <= |len|
  {
    forall j :: p < j < q ==> Ahead(len, order[p], order[j])
  }

  lemma {:induction false} ExchangeStep(len: seq<nat>, order: seq<nat>, p: nat, q: nat, after: seq<nat>)
    requires Arrangement(order, |len|) && p < q < |len| && Leading(len, order, p) && Best(len, order, p, q)
    requires after == if Ahead(len, order[q], order[p]) then order[p := order[q]][q := order[p]] else order
    ensures Arrangement(after, |len|) && Leading(len, after, p) && Best(len, after, p, q + 1)
  {}

  lemma {:induction false} ExchangeDone(len: seq<nat>, order: seq<nat>, p: nat)
    requires Arrangement(order, |len|) && p < |len| && Leading(len, order, p) && Best(len, order, p, |len|)
    ensures Leading(len, order, p + 1)
  {}

  method OrderCells(len: seq<nat>) returns (order: array<nat>)
    ensures fresh(order) && Arrangement(order[..], |len|) && Leading(len, order[..], |len|)
  {
    var m := |len|;
    order := new nat[m];
    for li := 0 to m
      invariant forall i :: 0 <= i < li ==> order[i] == i
    {
      order[li] := li;
    }
    for p := 0 to m
      invariant Arrangement(order[..], m) && Leading(len, order[..], p)
    {
      for q := p + 1 to m
        invariant Arrangement(order[..], m) && Leading(len, order[..], p) && Best(len, order[..], p, q)
      {
        hide Leading, Best, Arrangement;
        ghost var before := order[..];
        assert forall i :: 0 <= i < m ==> before[i] < m by { EntriesBelow(before, m); }
        var a, b := order[p], order[q];
        if Ahead(len, b, a) {
          order[p], order[q] := b, a;
        }
        ExchangeStep(len, before, p, q, order[..]);
      }
      ExchangeDone(len, order[..], p);
    }
  }

  lemma {:induction false} EntriesBelow(order: seq<nat>, m: nat)
    requires Arrangement(order, m)
    ensures |order| == m && forall i :: 0 <= i < m ==> order[i] < m
  {}

  /** There is only one such order. */
  lemma {:induction false} OrderUnique(len: seq<nat>, a: seq<nat>, b: seq<nat>, k: nat)
    requires Arrangement(a, |len|) && Arrangement(b, |len|) && k <= |len|
    requires Leading(len, a, |len|) && Leading(len, b, |len|)
    ensures a[..k] == b[..k]
  {
    if k > 0 {
      OrderUnique(len, a, b, k - 1);
      ArrangementCovers(a, |len|);
      ArrangementCovers(b, |len|);
      assert a[k - 1] in b && b[k - 1] in a;
      var i :| 0 <= i < |len| && b[i] == a[k - 1];
      var j :| 0 <= j < |len| && a[j] == b[k - 1];
      assert forall l :: 0 <= l < k - 1 ==> a[l] == a[..k - 1][l] && b[l] == b[..k - 1][l];
      assert a[..k] == a[..k - 1] + [a[k - 1]] && b[..k] == b[..k - 1] + [b[k - 1]];
    }
  }

  // How many constraints name a cell.
  ghost function Degree(cons: seq<Con>, x: nat): nat {
    |set ci: nat | ci < |cons| && x in cons[ci].cells|
  }

  lemma {:induction false} MemberDegree(cells: seq<nat>, cons: seq<Con>, li: nat, members: seq<nat>)
    requires li < |cells| && MemberOf(cells, cons, li, members)
    ensures |members| == Degree(cons, cells[li])
  {
    assert Elems(members) == set ci: nat | ci < |cons| && cells[li] in cons[ci].cells;
    ElemsCard(members);
  }

  ghost function Degrees(cells: seq<nat>, cons: seq<Con>): seq<nat> {
    seq(|cells|, li requires 0 <= li < |cells| => Degree(cons, cells[li]))
  }

  /** The search order: most constrained cells first, ties by position. */
  ghost predicate SearchOrder(cells: seq<nat>, cons: seq<Con>, order: seq<nat>) {
    Arrangement(order, |cells|) && Leading(Degrees(cells, cons), order, |cells|)
  }

  ghost predicate Ranking(len: seq<nat>, s: seq<nat>) {
    && Distinct(s) && (forall i :: 0 <= i < |s| ==> s[i] < |len|)
    && forall i, j :: 0 <= i < j < |s| ==> Ahead(len, s[i], s[j])
  }

  lemma {:induction false} RankOne(len: seq<nat>, s: seq<nat>, x: nat) returns (t: seq<nat>)
    requires Ranking(len, s) && x < |len| && x !in s
    ensures Ranking(len, t) && Elems(t) == Elems(s) + {x} && |t| == |s| + 1
  {
    if s == [] || Ahead(len, x, s[0]) {
      t := [x] + s;
    } else {
      var rest := s[1..];
      var u := RankOne(len, rest, x);
      t := [s[0]] + u;
      assert s == [s[0]] + rest;
      forall i | 0 <= i < |u| ensures Ahead(len, s[0], u[i]) && s[0] != u[i] {
        assert u[i] in Elems(u);
        if u[i] != x { assert u[i] in rest; }
      }
    }
    forall y ensures y in Elems(t) <==> y in Elems(s) || y == x {
      assert y in Elems(t) <==> y in t;
    }
  }

  lemma {:induction false} RankAll(len: seq<nat>, k: nat) returns (t: seq<nat>)
    requires k <= |len|
    ensures Ranking(len, t) && |t| == k && forall y :: y in t ==> y < k
  {
    if k == 0 {
      t := [];
    } else {
      var s := RankAll(len, k - 1);
      assert k - 1 !in s;
      t := RankOne(len, s, k - 1);
      forall y | y in t ensures y < k {
        assert y in Elems(t);
      }
    }
  }

  /** There is exactly one search order. */
  ghost function SearchOrderOf(cells: seq<nat>, cons: seq<Con>): (order: seq<nat>)
    ensures SearchOrder(cells, cons, order)
  {
    OrderExists(cells, cons);
    var order :| SearchOrder(cells, cons, order);
    order
  }

  lemma {:induction false} OrderExists(cells: seq<nat>, cons: seq<Con>)
    ensures exists order :: SearchOrder(cells, cons, order)
  {
    var order := RankAll(Degrees(cells, cons), |cells|);
    assert SearchOrder(cells, cons, order) by {
      assert forall i :: 0 <= i < |order| ==> order[i] in order;
    }
  }

  lemma {:induction false} SearchOrderIs(cells: seq<nat>, cons: seq<Con>, order: seq<nat>)
    requires SearchOrder(cells, cons, order)
    ensures order == SearchOrderOf(cells, cons)
  {
    OrderUnique(Degrees(cells, cons), order, SearchOrderOf(cells, cons), |cells|);
    assert order[..|cells|] == order && SearchOrderOf(cells, cons)[..|cells|] == SearchOrderOf(cells, cons);
  }

  // The cells of a component in the order in which the search assigns them.
  ghost function SearchCells(cells: seq<nat>, cons: seq<Con>): (xs: seq<nat>)
    ensures |xs| == |cells|
  {
    Ordered(cells, SearchOrderOf(cells, cons))
  }

  // ---- counters of the applied values ----

  ghost predicate Counters(cons: seq<Con>, xs: seq<nat>, path: seq<int>, mines: seq<int>, left: seq<int>)
    requires |path| <= |xs|
  {
    && |mines| == |cons| && |left| == |cons|
    && forall ci :: 0 <= ci < |cons| ==>
         mines[ci] == Tally(cons[ci].cells, Ones(xs, path)) && left[ci] == Tally(cons[ci].cells, Open(xs, path))
  }

  method Feasible(members: seq<nat>, cons: seq<Con>, mines: array<int>, left: array<int>, v: int)
      returns (ok: bool, ghost bad: nat)
    requires mines.Length == left.Length == |cons|
    requires forall j :: 0 <= j < |members| ==> members[j] < |cons|
    ensures ok ==> forall ci :: ci in members ==>
      0 <= cons[ci].need - (mines[ci] + v) <= left[ci] - 1
    ensures !ok ==> bad in members && !(0 <= cons[bad].need - (mines[bad] + v) <= left[bad] - 1)
  {
    bad := 0;
    for i := 0 to |members|
      invariant forall j :: 0 <= j < i ==>
        0 <= cons[members[j]].need - (mines[members[j]] + v) <= left[members[j]] - 1
    {
      var ci := members[i];
      var need := cons[ci].need;
      var nm := mines[ci] + v;
      if nm > need {
        return false, ci;
      }
      var nl := left[ci] - 1;
      if need - nm > nl {
        return false, ci;
      }
    }
    ok := true;
  }

  // Apply (dv, -1) or undo (-v, +1) one value on the counters of every listed constraint.
  method Adjust(members: seq<nat>, mines: array<int>, left: array<int>, dv: int, dl: int)
    requires mines != left && mines.Length == left.Length
    requires Distinct(members) && forall j :: 0 <= j < |members| ==> members[j] < mines.Length
    modifies mines, left
    ensures forall ci: nat :: ci < mines.Length ==>
      mines[ci] == old(mines[ci]) + (if ci in members then dv else 0)
      && left[ci] == old(left[ci]) + (if ci in members then dl else 0)
  {
    for i := 0 to |members|
      invariant forall ci: nat :: ci < mines.Length ==>
        mines[ci] == old(mines[ci]) + (if ci in members[..i] then dv else 0)
        && left[ci] == old(left[ci]) + (if ci in members[..i] then dl else 0)
    {
      var ci := members[i];
      assert ci !in members[..i];
      mines[ci] := mines[ci] + dv;
      left[ci] := left[ci] + dl;
      assert members[..i + 1] == members[..i] + [ci];
    }
    assert members[..|members|] == members;
  }

  lemma {:induction false} CountersApply(cells: seq<nat>, cons: seq<Con>, xs: seq<nat>, path: seq<int>, v: int,
                                         li: nat, members: seq<nat>, mines: seq<int>, left: seq<int>,
                                         mines': seq<int>, left': seq<int>)
    requires WellFormed(cells, cons) && Distinct(xs) && IsPath(xs, path) && |path| < |xs|
    requires v == 0 || v == 1
    requires li < |cells| && cells[li] == xs[|path|] && MemberOf(cells, cons, li, members)
    requires |mines| == |left| == |mines'| == |left'| == |cons|
    requires forall ci: nat :: ci < |cons| ==>
      mines'[ci] == mines[ci] + (if ci in members then v else 0)
      && left'[ci] == left[ci] + (if ci in members then -1 else 0)
    ensures Counters(cons, xs, path, mines, left) <==> Counters(cons, xs, path + [v], mines', left')
  {
    forall ci: nat | ci < |cons|
      ensures Tally(cons[ci].cells, Ones(xs, path + [v])) - Tally(cons[ci].cells, Ones(xs, path))
           == mines'[ci] - mines[ci]
      ensures Tally(cons[ci].cells, Open(xs, path + [v])) - Tally(cons[ci].cells, Open(xs, path))
           == left'[ci] - left[ci]
    {
      assert cons[ci] in cons;
      CountersSnoc(cons[ci], xs, path, v);
    }
  }

  lemma {:induction false} RoomApply(cells: seq<nat>, cons: seq<Con>, xs: seq<nat>, path: seq<int>, v: int, li: nat,
                                     members: seq<nat>, mines: seq<int>, left: seq<int>)
    requires WellFormed(cells, cons) && Distinct(xs) && IsPath(xs, path) && |path| < |xs|
    requires v == 0 || v == 1
    requires li < |cells| && cells[li] == xs[|path|] && MemberOf(cells, cons, li, members)
    requires Counters(cons, xs, path, mines, left) && Room(cons, xs, path)
    requires forall ci :: ci in members ==> 0 <= cons[ci].need - (mines[ci] + v) <= left[ci] - 1
    ensures Room(cons, xs, path + [v])
  {
    forall c | c in cons
      ensures 0 <= c.need - Tally(c.cells, Ones(xs, path + [v])) <= Tally(c.cells, Open(xs, path + [v]))
    {
      var ci :| 0 <= ci < |cons| && cons[ci] == c;
      CountersSnoc(c, xs, path, v);
    }
  }

  // The violated constraint found by Feasible rules the branch out.
  lemma {:induction false} BranchPruned(cells: seq<nat>, cons: seq<Con>, xs: seq<nat>, path: seq<int>, v: int,
                                        li: nat, members: seq<nat>, mines: seq<int>, left: seq<int>, bad: nat)
    requires WellFormed(cells, cons) && Distinct(xs) && IsPath(xs, path) && |path| < |xs|
    requires v == 0 || v == 1
    requires li < |cells| && cells[li] == xs[|path|] && MemberOf(cells, cons, li, members)
    requires Counters(cons, xs, path, mines, left)
    requires bad in members && !(0 <= cons[bad].need - (mines[bad] + v) <= left[bad] - 1)
    ensures Seen(cons, xs, path, v + 1) == Seen(cons, xs, path, v)
  {
    assert cons[bad] in cons;
    CountersSnoc(cons[bad], xs, path, v);
    SeenPruned(cons, xs, path, v, cons[bad]);
  }

  // It has no room left after this value.
  lemma {:induction false} BranchFull(cells: seq<nat>, cons: seq<Con>, xs: seq<nat>, path: seq<int>, v: int, li: nat,
                                      members: seq<nat>, mines: seq<int>, left: seq<int>, bad: nat)
    requires WellFormed(cells, cons) && Distinct(xs) && IsPath(xs, path) && |path| < |xs|
    requires v == 0 || v == 1
    requires li < |cells| && cells[li] == xs[|path|] && MemberOf(cells, cons, li, members)
    requires Counters(cons, xs, path, mines, left)
    requires bad in members && !(0 <= cons[bad].need - (mines[bad] + v) <= left[bad] - 1)
    ensures !Room(cons, xs, path + [v])
  {
    assert cons[bad] in cons;
    CountersSnoc(cons[bad], xs, path, v);
  }

  // ---- the result tables ----

  function At(m: nat, li: nat, t: nat): nat {
    li * (m + 1) + t
  }

  lemma {:induction false} AtRange(m: nat, li: nat, t: nat)
    requires li < m && t <= m
    ensures At(m, li, t) < m * (m + 1)
  {
    TimesMono(li + 1, m, m + 1);
    OneTimes(li, m + 1);
  }

  lemma {:induction false} TimesMono(a: nat, b: nat, c: nat)
    requires a <= b
    ensures a * c <= b * c
  {}

  lemma {:induction false} AtMono(m: nat, li: nat, t: nat, li': nat, t': nat)
    requires t <= m && li < li'
    ensures At(m, li, t) < At(m, li', t')
  {
    TimesMono(li + 1, li', m + 1);
    OneTimes(li, m + 1);
  }

  lemma {:induction false} AtInjective(m: nat, li: nat, t: nat, li': nat, t': nat)
    requires t <= m && t' <= m && At(m, li, t) == At(m, li', t')
    ensures li == li' && t == t'
  {
    if li < li' {
      AtMono(m, li, t, li', t');
    } else if li' < li {
      AtMono(m, li', t', li, t);
    }
  }

  // S and T are the solution counts of the placements in `seen`.
  ghost predicate TableS(m: nat, s: seq<nat>, seen: set<World>) {
    |s| == m + 1 && forall k: nat :: k <= m ==> s[k] == |OfSize(seen, k)|
  }

  ghost predicate RowT(m: nat, t: seq<nat>, li: nat, x: nat, seen: set<World>)
    requires li < m && |t| == m * (m + 1)
  {
    forall k: nat :: k <= m ==> At(m, li, k) < |t| && t[At(m, li, k)] == |OfSizeWith(seen, x, k)|
  }

  ghost predicate Tables(cells: seq<nat>, s: seq<nat>, t: seq<nat>, seen: set<World>) {
    var m := |cells|;
    && TableS(m, s, seen)
    && |t| == m * (m + 1)
    && forall li: nat :: li < m ==> RowT(m, t, li, cells[li], seen)
  }

  lemma {:induction false} OnesTotal(cells: seq<nat>, ones: World, total: nat)
    requires Distinct(cells) && ones <= Elems(cells)
    requires total == Tally(cells, ones)
    ensures total == |ones| <= |cells|
  {
    TallyCard(cells, ones);
    TallyBound(cells, ones);
  }

  lemma {:induction false} RowUntouched(m: nat, t: seq<nat>, t': seq<nat>, li: nat, x: nat, total: nat, lj: nat,
                                        seen: set<World>)
    requires li < m && lj < m && total <= m && lj != li
    requires |t| == m * (m + 1) && At(m, li, total) < |t|
    requires t' == t[At(m, li, total) := t[At(m, li, total)] + 1]
    ensures RowT(m, t', lj, x, seen) == RowT(m, t, lj, x, seen)
  {
    forall k: nat | k <= m ensures At(m, lj, k) != At(m, li, total) {
      if At(m, lj, k) == At(m, li, total) { AtInjective(m, lj, k, li, total); }
    }
  }

  lemma {:induction false} RowBump(m: nat, t: seq<nat>, t': seq<nat>, li: nat, x: nat, ones: World, seen: set<World>)
    requires li < m && |ones| <= m && ones !in seen
    requires |t| == m * (m + 1) && RowT(m, t, li, x, seen) && At(m, li, |ones|) < |t|
    requires t' == if x in ones then t[At(m, li, |ones|) := t[At(m, li, |ones|)] + 1] else t
    ensures RowT(m, t', li, x, seen + {ones})
  {
    forall k: nat | k <= m ensures t'[At(m, li, k)] == |OfSizeWith(seen + {ones}, x, k)| {
      TablesAdd(seen, ones, k, x);
      if At(m, li, k) == At(m, li, |ones|) { AtInjective(m, li, k, li, |ones|); }
    }
  }

  lemma {:induction false} TableBump(m: nat, s: seq<nat>, s': seq<nat>, ones: World, seen: set<World>)
    requires |ones| <= m && ones !in seen && TableS(m, s, seen)
    requires s' == s[|ones| := s[|ones|] + 1]
    ensures TableS(m, s', seen + {ones})
  {
    forall k: nat | k <= m ensures s'[k] == |OfSize(seen + {ones}, k)| {
      TablesAdd(seen, ones, k, 0);
    }
  }

  method CountLeaf(cells: seq<nat>, value: seq<int>, s: array<nat>, t: array<nat>, ghost ones: World,
                   ghost seen: set<World>)
    requires Distinct(cells) && |value| == |cells| && s != t
    requires ones <= Elems(cells) && ones !in seen
    requires forall li :: 0 <= li < |cells| ==> (value[li] == 1 <==> cells[li] in ones)
    requires Tables(cells, s[..], t[..], seen)
    modifies s, t
    ensures Tables(cells, s[..], t[..], seen + {ones})
  {
    var m := |cells|;
    var total := 0;
    ghost var s0, t0 := s[..], t[..];
    assert Tables(cells, s0, t0, seen);
    for li := 0 to m
      invariant total == Tally(cells[..li], ones)
      invariant s[..] == s0 && t[..] == t0
    {
      assert cells[..li + 1] == cells[..li] + [cells[li]];
      TallySnoc(cells[..li], cells[li], ones);
      if value[li] == 1 { total := total + 1; }
    }
    assert cells[..m] == cells;
    OnesTotal(cells, ones, total);
    ghost var seen' := seen + {ones};
    s[total] := s[total] + 1;
    assert s[..] == s0[total := s0[total] + 1] && t[..] == t0;
    TableBump(m, s0, s[..], ones, seen);
    assert TableS(m, s[..], seen');
    for li := 0 to m
      invariant TableS(m, s[..], seen')
      invariant t.Length == m * (m + 1)
      invariant forall lj: nat :: lj < m ==>
        RowT(m, t[..], lj, cells[lj], if lj < li then seen' else seen)
    {
      AtRange(m, li, total);
      ghost var was := t[..];
      if value[li] == 1 {
        t[At(m, li, total)] := t[At(m, li, total)] + 1;
        assert t[..] == was[At(m, li, total) := was[At(m, li, total)] + 1];
        forall lj: nat | lj < m && lj != li
          ensures RowT(m, t[..], lj, cells[lj], if lj < li then seen' else seen)
        {
          RowUntouched(m, was, t[..], li, cells[lj], total, lj, if lj < li then seen' else seen);
        }
      }
      RowBump(m, was, t[..], li, cells[li], ones, seen);
    }
  }
}
