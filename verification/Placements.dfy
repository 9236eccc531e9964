/** Mine placements: the 0/1 assignments that the analyzer counts. */
module Placements {
  import opened Tallies
  import opened Sums

  // A revealed number: exactly `need` of the listed hidden cells are mines.
  datatype Con = Con(cells: seq<nat>, need: int)

  // An assignment is represented by the set of cells that hold a mine.
  type World = set<nat>

  ghost predicate Sat(cons: seq<Con>, w: World) {
    forall c :: c in cons ==> Tally(c.cells, w) == c.need
  }

  // All constraints talk about cells of u only.
  ghost predicate Over(cons: seq<Con>, u: set<nat>) {
    forall c :: c in cons ==> Elems(c.cells) <= u
  }

  // The assignments to u that satisfy every constraint and have k mines.
  ghost function Worlds(u: set<nat>, cons: seq<Con>, k: int): set<World> {
    set w: World | w <= u && Sat(cons, w) && |w| == k
  }

  ghost function N(u: set<nat>, cons: seq<Con>, k: int): nat {
    |Worlds(u, cons, k)|
  }

  // The solution counts of u by number of mines, as an exact real distribution.
  ghost function Poly(u: set<nat>, cons: seq<Con>): seq<real> {
    seq(|u| + 1, t => N(u, cons, t) as real)
  }

  // "Cell x is a mine" is itself a constraint.
  function MineAt(x: nat): Con {
    Con([x], 1)
  }

  lemma {:induction false} MineAtSat(cons: seq<Con>, x: nat, w: World)
    ensures Sat(cons + [MineAt(x)], w) <==> Sat(cons, w) && x in w
  {
    assert Tally([x], w) == if x in w then 1 else 0;
    assert MineAt(x) in cons + [MineAt(x)];
    assert forall c :: c in cons ==> c in cons + [MineAt(x)];
  }

  lemma {:induction false} SatConcat(a: seq<Con>, b: seq<Con>, w: World)
    ensures Sat(a + b, w) <==> Sat(a, w) && Sat(b, w)
  {
    assert forall c :: c in a + b <==> c in a || c in b;
  }

  lemma {:induction false} SubsetCard(w: World, u: set<nat>)
    requires w <= u
    ensures |w| <= |u|
  {
    assert u == w + (u - w);
  }

  // Outside the possible range of mine counts there is no assignment.
  lemma {:induction false} NOutside(u: set<nat>, cons: seq<Con>, k: int)
    requires k < 0 || k > |u|
    ensures N(u, cons, k) == 0
  {
    forall w | w in Worlds(u, cons, k) ensures false {
      SubsetCard(w, u);
    }
    assert Worlds(u, cons, k) == {};
  }

  // Only the set of constraints matters, not their order or repetition.
  lemma {:induction false} NSameCons(u: set<nat>, a: seq<Con>, b: seq<Con>, k: int)
    requires forall c :: c in a <==> c in b
    ensures N(u, a, k) == N(u, b, k)
  {
    assert Worlds(u, a, k) == Worlds(u, b, k);
  }

  // The assignments of a + b whose parts come from p and from q.
  ghost function Joins(a: set<nat>, b: set<nat>, p: set<World>, q: set<World>): set<World> {
    set w: World | w <= a + b && w * a in p && w * b in q
  }

  lemma {:induction false} DisjointCard<T>(s: set<T>, t: set<T>, u: set<T>)
    requires u == s + t && s !! t
    ensures |u| == |s| + |t|
  {}

  lemma {:induction false} JoinOneCard(a: set<nat>, b: set<nat>, x: World, q: set<World>)
    requires a !! b && x <= a
    requires forall y :: y in q ==> y <= b
    ensures |Joins(a, b, {x}, q)| == |q|
    decreases |q|
  {
    if q == {} {
      assert Joins(a, b, {x}, q) == {};
    } else {
      var y :| y in q;
      var r := q - {y};
      JoinOneCard(a, b, x, r);
      assert (x + y) * a == x && (x + y) * b == y;
      forall w: World | w <= a + b && w * a == x && w * b == y ensures w == x + y {
        assert w == w * a + w * b;
      }
      DisjointCard(Joins(a, b, {x}, r), {x + y}, Joins(a, b, {x}, q));
    }
  }

  lemma {:induction false} JoinNone(a: set<nat>, b: set<nat>, q: set<World>)
    ensures Joins(a, b, {}, q) == {}
  {}

  lemma {:induction false} JoinSplit(a: set<nat>, b: set<nat>, r: set<World>, x: World, q: set<World>)
    requires x !in r
    ensures Joins(a, b, r + {x}, q) == Joins(a, b, r, q) + Joins(a, b, {x}, q)
    ensures Joins(a, b, r, q) !! Joins(a, b, {x}, q)
  {}

  lemma {:induction false} OneTimes(n: nat, m: nat)
    ensures (n + 1) * m == n * m + m
  {}

  // Independent choices multiply.
  lemma {:induction false} JoinCard(a: set<nat>, b: set<nat>, p: set<World>, q: set<World>)
    requires a !! b
    requires forall x :: x in p ==> x <= a
    requires forall y :: y in q ==> y <= b
    ensures |Joins(a, b, p, q)| == |p| * |q|
    decreases |p|
  {
    hide Joins;
    JoinNone(a, b, q);
    if p != {} {
      var x :| x in p;
      var r := p - {x};
      JoinCard(a, b, r, q);
      JoinOneCard(a, b, x, q);
      JoinSplit(a, b, r, x, q);
      assert r + {x} == p;
      DisjointCard(Joins(a, b, r, q), Joins(a, b, {x}, q), Joins(a, b, p, q));
      OneTimes(|r|, |q|);
    }
  }

  // The assignments of a + b with k mines of which j lie in b.
  ghost function Slice(a: set<nat>, b: set<nat>, cons: seq<Con>, k: int, j: int): set<World> {
    set w: World | w <= a + b && Sat(cons, w) && |w| == k && |w * b| == j
  }

  ghost function Below(a: set<nat>, b: set<nat>, cons: seq<Con>, k: int, j: int): set<World> {
    set w: World | w <= a + b && Sat(cons, w) && |w| == k && |w * b| < j
  }

  lemma {:induction false} SatRestrict(cons: seq<Con>, u: set<nat>, w: World)
    requires Over(cons, u)
    ensures Sat(cons, w) <==> Sat(cons, w * u)
  {
    forall c | c in cons ensures Tally(c.cells, w) == Tally(c.cells, w * u) {
      assert Elems(c.cells) <= u;
      forall x | x in c.cells ensures x in w <==> x in w * u {
        assert x in Elems(c.cells);
      }
      TallySame(c.cells, w, w * u);
    }
  }

  lemma {:induction false} PartCard(a: set<nat>, b: set<nat>, w: World)
    requires a !! b && w <= a + b
    ensures |w| == |w * a| + |w * b| && w * a <= a && w * b <= b
  {
    DisjointCard(w * a, w * b, w);
  }

  lemma {:induction false} SliceMember(a: set<nat>, b: set<nat>, ca: seq<Con>, cb: seq<Con>, k: int, j: int, w: World)
    requires a !! b && Over(ca, a) && Over(cb, b) && w <= a + b
    ensures w in Slice(a, b, ca + cb, k, j)
       <==> w * a in Worlds(a, ca, k - j) && w * b in Worlds(b, cb, j)
  {
    hide Sat, Over;
    SatConcat(ca, cb, w);
    SatRestrict(ca, a, w);
    SatRestrict(cb, b, w);
    PartCard(a, b, w);
  }

  lemma {:induction false} SliceCard(a: set<nat>, b: set<nat>, ca: seq<Con>, cb: seq<Con>, k: int, j: int)
    requires a !! b && Over(ca, a) && Over(cb, b)
    ensures |Slice(a, b, ca + cb, k, j)| == N(a, ca, k - j) * N(b, cb, j)
  {
    var p, q := Worlds(a, ca, k - j), Worlds(b, cb, j);
    forall w: World | w <= a + b
      ensures w in Slice(a, b, ca + cb, k, j) <==> w in Joins(a, b, p, q)
    {
      SliceMember(a, b, ca, cb, k, j, w);
    }
    assert Slice(a, b, ca + cb, k, j) == Joins(a, b, p, q);
    JoinCard(a, b, p, q);
  }

  ghost function NProduct(a: set<nat>, b: set<nat>, ca: seq<Con>, cb: seq<Con>, k: int): int -> real {
    j => (N(a, ca, k - j) as real) * (N(b, cb, j) as real)
  }

  lemma {:induction false} BelowStep(a: set<nat>, b: set<nat>, cons: seq<Con>, k: int, j: int)
    ensures |Below(a, b, cons, k, j + 1)| == |Below(a, b, cons, k, j)| + |Slice(a, b, cons, k, j)|
  {
    DisjointCard(Below(a, b, cons, k, j), Slice(a, b, cons, k, j), Below(a, b, cons, k, j + 1));
  }

  lemma {:induction false} SliceReal(a: set<nat>, b: set<nat>, ca: seq<Con>, cb: seq<Con>, k: int, j: int)
    requires a !! b && Over(ca, a) && Over(cb, b)
    ensures |Slice(a, b, ca + cb, k, j)| as real == NProduct(a, b, ca, cb, k)(j)
  {
    hide N, Slice;
    SliceCard(a, b, ca, cb, k, j);
    MulReal(N(a, ca, k - j), N(b, cb, j));
  }

  lemma {:induction false} BelowCard(a: set<nat>, b: set<nat>, ca: seq<Con>, cb: seq<Con>, k: int, j: nat)
    requires a !! b && Over(ca, a) && Over(cb, b)
    ensures |Below(a, b, ca + cb, k, j)| as real == Sum(NProduct(a, b, ca, cb, k), j)
  {
    if j == 0 {
      assert Below(a, b, ca + cb, k, 0) == {};
    } else {
      BelowCard(a, b, ca, cb, k, j - 1);
      SliceReal(a, b, ca, cb, k, j - 1);
      BelowStep(a, b, ca + cb, k, j - 1);
    }
  }

  lemma {:induction false} MulReal(x: nat, y: nat)
    ensures (x * y) as real == (x as real) * (y as real)
  {}

  /** Independent groups of cells: the solution counts of the union are the
      convolution of the solution counts of the parts. */
  lemma {:induction false} Split(a: set<nat>, b: set<nat>, ca: seq<Con>, cb: seq<Con>, k: int)
    requires a !! b && Over(ca, a) && Over(cb, b)
    ensures N(a + b, ca + cb, k) as real == Sum(NProduct(a, b, ca, cb, k), |b| + 1)
  {
    BelowCard(a, b, ca, cb, k, |b| + 1);
    forall w: World | w <= a + b ensures |w * b| < |b| + 1 {
      SubsetCard(w * b, b);
    }
    assert Worlds(a + b, ca + cb, k) == Below(a, b, ca + cb, k, |b| + 1);
  }

  lemma {:induction false} NoMines(u: set<nat>)
    ensures N(u, [], 0) == 1
  {
    forall w: World | w in Worlds(u, [], 0) ensures w == {} {}
    assert {} in Worlds(u, [], 0);
    assert Worlds(u, [], 0) == {{}};
  }
}
