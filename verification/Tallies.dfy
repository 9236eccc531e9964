/** Counting how many entries of a list of cells lie in a set of cells. */
module Tallies {

  ghost predicate Distinct<T>(xs: seq<T>) {
    forall i, j :: 0 <= i < j < |xs| ==> xs[i] != xs[j]
  }

  ghost function Elems<T>(xs: seq<T>): set<T> {
    set x | x in xs
  }

  function Tally(xs: seq<nat>, s: set<nat>): nat {
    if xs == [] then 0
    else (if xs[0] in s then 1 else 0) + Tally(xs[1..], s)
  }

  lemma {:induction false} TallyConcat(xs: seq<nat>, ys: seq<nat>, s: set<nat>)
    ensures Tally(xs + ys, s) == Tally(xs, s) + Tally(ys, s)
  {
    if xs == [] {
      assert xs + ys == ys;
    } else {
      assert (xs + ys)[1..] == xs[1..] + ys;
      TallyConcat(xs[1..], ys, s);
    }
  }

  lemma {:induction false} TallySnoc(xs: seq<nat>, x: nat, s: set<nat>)
    ensures Tally(xs + [x], s) == Tally(xs, s) + (if x in s then 1 else 0)
  {
    TallyConcat(xs, [x], s);
  }

  lemma {:induction false} TallyBound(xs: seq<nat>, s: set<nat>)
    ensures Tally(xs, s) <= |xs|
  {
    if xs != [] { TallyBound(xs[1..], s); }
  }

  // Only membership of the listed cells matters.
  lemma {:induction false} TallySame(xs: seq<nat>, s: set<nat>, t: set<nat>)
    requires forall x :: x in xs ==> (x in s <==> x in t)
    ensures Tally(xs, s) == Tally(xs, t)
  {
    if xs != [] {
      assert xs[0] in xs;
      TallySame(xs[1..], s, t);
    }
  }

  lemma {:induction false} TallyMono(xs: seq<nat>, s: set<nat>, t: set<nat>)
    requires s <= t
    ensures Tally(xs, s) <= Tally(xs, t)
  {
    if xs != [] { TallyMono(xs[1..], s, t); }
  }

  lemma {:induction false} TallyUnion(xs: seq<nat>, s: set<nat>, t: set<nat>)
    requires s !! t
    ensures Tally(xs, s + t) == Tally(xs, s) + Tally(xs, t)
  {
    if xs != [] { TallyUnion(xs[1..], s, t); }
  }

  // A list without repetitions counts a fresh element at most once.
  lemma {:induction false} TallyAdd(xs: seq<nat>, s: set<nat>, x: nat)
    requires Distinct(xs) && x !in s
    ensures Tally(xs, s + {x}) == Tally(xs, s) + (if x in xs then 1 else 0)
  {
    if xs != [] {
      TallyAdd(xs[1..], s, x);
      if xs[0] == x {
        assert x !in xs[1..];
      } else {
        assert x in xs <==> x in xs[1..];
      }
    }
  }

  lemma {:induction false} TallyZero(xs: seq<nat>, s: set<nat>)
    requires forall x :: x in xs ==> x !in s
    ensures Tally(xs, s) == 0
  {
    if xs != [] {
      assert xs[0] in xs;
      TallyZero(xs[1..], s);
    }
  }

  lemma {:induction false} TallyZeroConverse(xs: seq<nat>, s: set<nat>)
    requires Tally(xs, s) == 0
    ensures forall x :: x in xs ==> x !in s
  {
    if xs != [] { TallyZeroConverse(xs[1..], s); }
  }

  // A list without repetitions whose cells cover s counts all of s.
  lemma {:induction false} TallyCard(xs: seq<nat>, s: set<nat>)
    requires Distinct(xs) && s <= Elems(xs)
    ensures Tally(xs, s) == |s|
  {
    if xs == [] {
      assert s == {};
    } else {
      TallySame(xs[1..], s, s - {xs[0]});
      TallyCard(xs[1..], s - {xs[0]});
      if xs[0] in s {
        assert s == (s - {xs[0]}) + {xs[0]};
      } else {
        assert s == s - {xs[0]};
      }
    }
  }

  lemma {:induction false} ElemsCard<T>(xs: seq<T>)
    requires Distinct(xs)
    ensures |Elems(xs)| == |xs|
  {
    if xs == [] {
      assert Elems(xs) == {};
    } else {
      assert Elems(xs) == Elems(xs[1..]) + {xs[0]};
      ElemsCard(xs[1..]);
    }
  }

  // The first m naturals.
  ghost function Upto(m: nat): (s: set<nat>)
    ensures |s| == m
    ensures forall i: nat :: i in s <==> i < m
  {
    if m == 0 then {} else Upto(m - 1) + {m - 1}
  }

  lemma {:induction false} SubsetFull<T>(s: set<T>, t: set<T>)
    requires s <= t && |s| == |t|
    ensures s == t
  {
    assert t == s + (t - s);
  }

  // The entries of xs that lie in s, in order.
  ghost function Keep(xs: seq<nat>, s: set<nat>): seq<nat> {
    if xs == [] then []
    else
      var x := xs[|xs| - 1];
      Keep(xs[..|xs| - 1], s) + (if x in s then [x] else [])
  }

  lemma {:induction false} KeepSnoc(xs: seq<nat>, x: nat, s: set<nat>)
    ensures Keep(xs + [x], s) == Keep(xs, s) + (if x in s then [x] else [])
  {
    assert (xs + [x])[..|xs|] == xs;
  }

  lemma {:induction false} KeepFacts(xs: seq<nat>, s: set<nat>)
    ensures forall x :: x in Keep(xs, s) <==> x in xs && x in s
    ensures Distinct(xs) ==> Distinct(Keep(xs, s))
  {
    if xs != [] {
      var init, last := xs[..|xs| - 1], xs[|xs| - 1];
      KeepFacts(init, s);
      assert xs == init + [last];
      assert Distinct(xs) ==> last !in init;
    }
  }

  // Dropping entries outside s does not change how many lie in a subset of s.
  lemma {:induction false} KeepTally(xs: seq<nat>, s: set<nat>, t: set<nat>)
    requires t <= s
    ensures Tally(Keep(xs, s), t) == Tally(xs, t)
  {
    if xs != [] {
      var init, last := xs[..|xs| - 1], xs[|xs| - 1];
      KeepTally(init, s, t);
      assert xs == init + [last];
      TallySnoc(init, last, t);
      TallySnoc(Keep(init, s), last, t);
      if last !in s { assert Keep(xs, s) == Keep(init, s); }
    }
  }

  lemma {:induction false} KeepLength(xs: seq<nat>, s: set<nat>)
    ensures |Keep(xs, s)| == Tally(xs, s)
  {
    if xs != [] {
      var init, last := xs[..|xs| - 1], xs[|xs| - 1];
      KeepLength(init, s);
      assert xs == init + [last];
      TallySnoc(init, last, s);
    }
  }

  // The indices below k where s is true.
  ghost function TrueUpto(s: seq<bool>, k: nat): (t: set<nat>)
    requires k <= |s|
    ensures forall i: nat :: i in t <==> i < k && s[i]
  {
    if k == 0 then {} else TrueUpto(s, k - 1) + (if s[k - 1] then {k - 1} else {})
  }

  ghost function TrueAt(s: seq<bool>): (t: set<nat>)
    ensures forall i: nat :: i in t <==> i < |s| && s[i]
  {
    set i: nat | i in Upto(|s|) && s[i]
  }
}
