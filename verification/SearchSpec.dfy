/** What the backtracking search of one component has counted so far. */
module SearchSpec {
  import opened Tallies
  import opened Placements

  // Value (0 or 1) of cell x in placement w.
  ghost function Val(w: World, x: nat): int {
    if x in w then 1 else 0
  }

  // xs lists the cells in search order; path holds the values applied to the first levels.
  ghost predicate Agree(xs: seq<nat>, path: seq<int>, w: World)
    requires |path| <= |xs|
  {
    forall l :: 0 <= l < |path| ==> Val(w, xs[l]) == path[l]
  }

  lemma {:induction false} AgreeSnoc(xs: seq<nat>, path: seq<int>, v: int, w: World)
    requires |path| < |xs|
    ensures Agree(xs, path + [v], w) <==> Agree(xs, path, w) && Val(w, xs[|path|]) == v
  {
    var more := path + [v];
    assert more[|path|] == v;
    assert forall l :: 0 <= l < |path| ==> more[l] == path[l];
  }

  /** w comes before the search position: at the first level where w leaves the
      path it has a smaller value, or it follows the whole path and then takes a
      value below `next`. */
  ghost predicate Before(xs: seq<nat>, path: seq<int>, next: int, w: World)
    requires |path| <= |xs|
  {
    if path == [] then
      xs != [] && Val(w, xs[0]) < next
    else
      Val(w, xs[0]) < path[0] || (Val(w, xs[0]) == path[0] && Before(xs[1..], path[1..], next, w))
  }

  // Entering a fresh level does not move the position.
  lemma {:induction false} BeforePush(xs: seq<nat>, path: seq<int>, v: int, w: World)
    requires |path| < |xs|
    ensures Before(xs, path + [v], 0, w) == Before(xs, path, v, w)
  {
    if path == [] {
      assert [v][1..] == [];
    } else {
      assert (path + [v])[1..] == path[1..] + [v];
      BeforePush(xs[1..], path[1..], v, w);
    }
  }

  // Exhausting both values of a level finishes the value above it.
  lemma {:induction false} BeforePop(xs: seq<nat>, path: seq<int>, v: int, w: World)
    requires |path| + 1 < |xs|
    ensures Before(xs, path + [v], 2, w) == Before(xs, path, v + 1, w)
  {
    if path == [] {
      assert [v][1..] == [];
    } else {
      assert (path + [v])[1..] == path[1..] + [v];
      BeforePop(xs[1..], path[1..], v, w);
    }
  }

  // Moving to the next value passes exactly the placements below that branch.
  lemma {:induction false} BeforeNext(xs: seq<nat>, path: seq<int>, v: int, w: World)
    requires |path| < |xs|
    ensures Before(xs, path, v + 1, w)
       <==> Before(xs, path, v, w) || (Agree(xs, path, w) && Val(w, xs[|path|]) == v)
    ensures !(Before(xs, path, v, w) && Agree(xs, path, w) && Val(w, xs[|path|]) == v)
  {
    if path != [] {
      BeforeNext(xs[1..], path[1..], v, w);
      assert Agree(xs, path, w) <==> Val(w, xs[0]) == path[0] && Agree(xs[1..], path[1..], w) by {
        if Val(w, xs[0]) == path[0] && Agree(xs[1..], path[1..], w) {
          forall l | 0 <= l < |path| ensures Val(w, xs[l]) == path[l] {
            if l > 0 { assert xs[l] == xs[1..][l - 1] && path[l] == path[1..][l - 1]; }
          }
        }
        if Agree(xs, path, w) {
          forall l | 0 <= l < |path[1..]| ensures Val(w, xs[1..][l]) == path[1..][l] {
            assert xs[1..][l] == xs[l + 1] && path[1..][l] == path[l + 1];
          }
        }
      }
    }
  }

  // ---- the partial placement described by a path ----

  ghost predicate IsPath(xs: seq<nat>, path: seq<int>) {
    |path| <= |xs| && forall l :: 0 <= l < |path| ==> path[l] == 0 || path[l] == 1
  }

  ghost function Ones(xs: seq<nat>, path: seq<int>): set<nat>
    requires |path| <= |xs|
  {
    set l | 0 <= l < |path| && path[l] == 1 :: xs[l]
  }

  ghost function Open(xs: seq<nat>, path: seq<int>): set<nat>
    requires |path| <= |xs|
  {
    Elems(xs[|path|..])
  }

  lemma {:induction false} OnesSnoc(xs: seq<nat>, path: seq<int>, v: int)
    requires |path| < |xs| && IsPath(xs, path) && (v == 0 || v == 1)
    ensures Ones(xs, path + [v]) == Ones(xs, path) + (if v == 1 then {xs[|path|]} else {})
  {
    var more := path + [v];
    forall x | x in Ones(xs, more)
      ensures x in Ones(xs, path) + (if v == 1 then {xs[|path|]} else {})
    {
      var l :| 0 <= l < |more| && more[l] == 1 && xs[l] == x;
      if l < |path| { assert path[l] == 1; }
    }
    forall x | x in Ones(xs, path) ensures x in Ones(xs, more) {
      var l :| 0 <= l < |path| && path[l] == 1 && xs[l] == x;
      assert more[l] == 1;
    }
    assert more[|path|] == v;
  }

  lemma {:induction false} OpenSnoc(xs: seq<nat>, path: seq<int>, v: int)
    requires |path| < |xs| && Distinct(xs)
    ensures Open(xs, path) == Open(xs, path + [v]) + {xs[|path|]}
    ensures xs[|path|] !in Open(xs, path + [v])
    ensures xs[|path|] !in Ones(xs, path)
  {
    var k := |path|;
    assert xs[k..] == [xs[k]] + xs[k + 1..];
    assert xs[k] !in xs[k + 1..];
  }

  // Every counter still leaves room for its constraint.
  ghost predicate Room(cons: seq<Con>, xs: seq<nat>, path: seq<int>)
    requires |path| <= |xs|
  {
    forall c :: c in cons ==>
      0 <= c.need - Tally(c.cells, Ones(xs, path)) <= Tally(c.cells, Open(xs, path))
  }

  // Effect of one more applied value on the counters of a constraint.
  lemma {:induction false} CountersSnoc(c: Con, xs: seq<nat>, path: seq<int>, v: int)
    requires |path| < |xs| && Distinct(xs) && IsPath(xs, path) && (v == 0 || v == 1)
    requires Distinct(c.cells)
    ensures var hit := xs[|path|] in c.cells;
      Tally(c.cells, Ones(xs, path + [v])) == Tally(c.cells, Ones(xs, path)) + (if hit then v else 0)
      && Tally(c.cells, Open(xs, path)) == Tally(c.cells, Open(xs, path + [v])) + (if hit then 1 else 0)
  {
    OnesSnoc(xs, path, v);
    OpenSnoc(xs, path, v);
    TallyAdd(c.cells, Open(xs, path + [v]), xs[|path|]);
    if v == 1 {
      TallyAdd(c.cells, Ones(xs, path), xs[|path|]);
    } else {
      assert Ones(xs, path) + {} == Ones(xs, path);
    }
  }

  lemma {:induction false} RoomUndo(cons: seq<Con>, xs: seq<nat>, path: seq<int>, v: int)
    requires |path| < |xs| && Distinct(xs) && IsPath(xs, path) && (v == 0 || v == 1)
    requires forall c :: c in cons ==> Distinct(c.cells)
    requires Room(cons, xs, path + [v])
    ensures Room(cons, xs, path)
  {
    forall c | c in cons
      ensures 0 <= c.need - Tally(c.cells, Ones(xs, path)) <= Tally(c.cells, Open(xs, path))
    {
      CountersSnoc(c, xs, path, v);
    }
  }

  // A placement that follows the path lies between the applied mines and the applied mines plus the open cells.
  lemma {:induction false} AgreeBounds(xs: seq<nat>, path: seq<int>, w: World)
    requires IsPath(xs, path) && Distinct(xs) && w <= Elems(xs) && Agree(xs, path, w)
    ensures Ones(xs, path) <= w <= Ones(xs, path) + Open(xs, path)
    ensures Ones(xs, path) !! Open(xs, path)
  {
    forall x | x in w ensures x in Ones(xs, path) + Open(xs, path) {
      var l :| 0 <= l < |xs| && xs[l] == x;
      if l < |path| {
        assert Val(w, xs[l]) == path[l];
      } else {
        assert xs[|path|..][l - |path|] == x;
      }
    }
    forall x | x in Ones(xs, path) ensures x in w && x !in Open(xs, path) {
      var l :| 0 <= l < |path| && path[l] == 1 && xs[l] == x;
      assert Val(w, xs[l]) == path[l];
      assert x !in xs[|path|..];
    }
  }

  /** Pruning is sound: when one constraint can no longer be met, no placement
      that follows the path satisfies it. */
  lemma {:induction false} Pruned(c: Con, xs: seq<nat>, path: seq<int>, w: World)
    requires IsPath(xs, path) && Distinct(xs) && w <= Elems(xs) && Agree(xs, path, w)
    requires !(0 <= c.need - Tally(c.cells, Ones(xs, path)) <= Tally(c.cells, Open(xs, path)))
    ensures Tally(c.cells, w) != c.need
  {
    AgreeBounds(xs, path, w);
    TallyMono(c.cells, Ones(xs, path), w);
    TallyMono(c.cells, w, Ones(xs, path) + Open(xs, path));
    TallyUnion(c.cells, Ones(xs, path), Open(xs, path));
  }

  // At a leaf the applied mines are the one placement that follows the path.
  lemma {:induction false} Leaf(cons: seq<Con>, xs: seq<nat>, path: seq<int>)
    requires IsPath(xs, path) && |path| == |xs| && Distinct(xs) && Room(cons, xs, path)
    ensures Ones(xs, path) <= Elems(xs)
    ensures Sat(cons, Ones(xs, path)) && Agree(xs, path, Ones(xs, path))
    ensures forall w: World :: w <= Elems(xs) && Agree(xs, path, w) ==> w == Ones(xs, path)
  {
    var ones := Ones(xs, path);
    assert Open(xs, path) == {};
    forall c | c in cons ensures Tally(c.cells, ones) == c.need {
      TallyZero(c.cells, {});
    }
    forall l | 0 <= l < |path| ensures Val(ones, xs[l]) == path[l] {
      if xs[l] in ones {
        var l' :| 0 <= l' < |path| && path[l'] == 1 && xs[l'] == xs[l];
        assert l' == l;
      }
    }
    forall w: World | w <= Elems(xs) && Agree(xs, path, w) ensures w == ones {
      AgreeBounds(xs, path, w);
    }
  }

  // ---- the placements counted so far ----

  ghost function Seen(cons: seq<Con>, xs: seq<nat>, path: seq<int>, next: int): set<World>
    requires |path| <= |xs|
  {
    set w: World | w <= Elems(xs) && Sat(cons, w) && Before(xs, path, next, w)
  }

  ghost function OfSize(seen: set<World>, t: int): set<World> {
    set w | w in seen && |w| == t
  }

  ghost function OfSizeWith(seen: set<World>, x: nat, t: int): set<World> {
    set w | w in seen && |w| == t && x in w
  }

  lemma {:induction false} SeenPush(cons: seq<Con>, xs: seq<nat>, path: seq<int>, v: int)
    requires |path| < |xs|
    ensures Seen(cons, xs, path + [v], 0) == Seen(cons, xs, path, v)
  {
    forall w: World ensures Before(xs, path + [v], 0, w) == Before(xs, path, v, w) {
      BeforePush(xs, path, v, w);
    }
  }

  lemma {:induction false} SeenPop(cons: seq<Con>, xs: seq<nat>, path: seq<int>, v: int)
    requires |path| + 1 < |xs|
    ensures Seen(cons, xs, path + [v], 2) == Seen(cons, xs, path, v + 1)
  {
    forall w: World ensures Before(xs, path + [v], 2, w) == Before(xs, path, v + 1, w) {
      BeforePop(xs, path, v, w);
    }
  }

  // A pruned branch holds no placement.
  lemma {:induction false} SeenPruned(cons: seq<Con>, xs: seq<nat>, path: seq<int>, v: int, c: Con)
    requires |path| < |xs| && IsPath(xs, path) && Distinct(xs) && (v == 0 || v == 1)
    requires c in cons
    requires !(0 <= c.need - Tally(c.cells, Ones(xs, path + [v])) <= Tally(c.cells, Open(xs, path + [v])))
    ensures Seen(cons, xs, path, v + 1) == Seen(cons, xs, path, v)
  {
    forall w: World | w <= Elems(xs) && Sat(cons, w)
      ensures Before(xs, path, v + 1, w) == Before(xs, path, v, w)
    {
      BeforeNext(xs, path, v, w);
      if Agree(xs, path, w) && Val(w, xs[|path|]) == v {
        assert Agree(xs, path + [v], w);
        Pruned(c, xs, path + [v], w);
      }
    }
  }

  // A leaf adds exactly one new placement.
  lemma {:induction false} SeenLeaf(cons: seq<Con>, xs: seq<nat>, path: seq<int>, v: int)
    requires |path| + 1 == |xs| && IsPath(xs, path + [v]) && Distinct(xs)
    requires Room(cons, xs, path + [v])
    ensures Seen(cons, xs, path, v + 1) == Seen(cons, xs, path, v) + {Ones(xs, path + [v])}
    ensures Ones(xs, path + [v]) !in Seen(cons, xs, path, v)
  {
    var more, ones := path + [v], Ones(xs, path + [v]);
    Leaf(cons, xs, more);
    forall w: World | w <= Elems(xs)
      ensures Agree(xs, path, w) && Val(w, xs[|path|]) == v <==> w == ones
    {
      assert Agree(xs, more, w) <==> Agree(xs, path, w) && Val(w, xs[|path|]) == v by {
        assert more[|path|] == v;
        assert forall l :: 0 <= l < |path| ==> more[l] == path[l];
      }
    }
    forall w: World ensures w in Seen(cons, xs, path, v + 1) <==> w in Seen(cons, xs, path, v) + {ones} {
      BeforeNext(xs, path, v, w);
    }
    BeforeNext(xs, path, v, ones);
  }

  lemma {:induction false} SeenStart(cons: seq<Con>, xs: seq<nat>)
    requires xs != []
    ensures Seen(cons, xs, [], 0) == {}
  {}

  // When the first level is exhausted every placement has been counted.
  lemma {:induction false} SeenAll(cons: seq<Con>, xs: seq<nat>, t: int)
    requires xs != []
    ensures |OfSize(Seen(cons, xs, [], 2), t)| == N(Elems(xs), cons, t)
    ensures forall x :: |OfSizeWith(Seen(cons, xs, [], 2), x, t)| == N(Elems(xs), cons + [MineAt(x)], t)
  {
    var all := Seen(cons, xs, [], 2);
    assert OfSize(all, t) == Worlds(Elems(xs), cons, t);
    forall x ensures |OfSizeWith(all, x, t)| == N(Elems(xs), cons + [MineAt(x)], t) {
      forall w: World ensures Sat(cons + [MineAt(x)], w) <==> Sat(cons, w) && x in w {
        MineAtSat(cons, x, w);
      }
      assert OfSizeWith(all, x, t) == Worlds(Elems(xs), cons + [MineAt(x)], t);
    }
  }

  // Adding one placement moves one counter of each table.
  lemma {:induction false} TablesAdd(seen: set<World>, w: World, t: int, x: nat)
    requires w !in seen
    ensures |OfSize(seen + {w}, t)| == |OfSize(seen, t)| + (if |w| == t then 1 else 0)
    ensures |OfSizeWith(seen + {w}, x, t)| == |OfSizeWith(seen, x, t)| + (if |w| == t && x in w then 1 else 0)
  {
    if |w| == t {
      assert OfSize(seen + {w}, t) == OfSize(seen, t) + {w};
    } else {
      assert OfSize(seen + {w}, t) == OfSize(seen, t);
    }
    if |w| == t && x in w {
      assert OfSizeWith(seen + {w}, x, t) == OfSizeWith(seen, x, t) + {w};
    } else {
      assert OfSizeWith(seen + {w}, x, t) == OfSizeWith(seen, x, t);
    }
  }

  // ---- how much work is left ----

  // Steps of the loop that a fresh frame can still cause, d levels above the leaves.
  function Steps(d: nat): nat {
    if d == 0 then 1 else 6 + 2 * Steps(d - 1)
  }

  // Steps left in the frames below the top: frame l still has to undo its value and try the later ones.
  function Waiting(path: seq<int>, m: nat): int
    requires |path| <= m
  {
    if path == [] then 0
    else
      var l := |path| - 1;
      Waiting(path[..l], m) + 2 + (1 - path[l]) * (2 + Steps(m - l - 1))
  }
}
