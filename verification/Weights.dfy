/** The numeric loops between the component counts and the probabilities. */
module Weights {
  import opened Sums
  import opened Placements
  import opened Convolution
  import opened Binomial
  import opened Posterior
  import opened FreeCells

  // ---- one component's distribution ----

  ghost function SumTo(s: seq<nat>, k: nat): nat
    requires k <= |s|
  {
    if k == 0 then 0 else SumTo(s, k - 1) + s[k - 1]
  }

  method Normalise(s: seq<nat>) returns (tot: nat, dist: seq<real>)
    ensures tot == SumTo(s, |s|) && |dist| == |s|
    ensures forall j :: 0 <= j < |s| ==> dist[j] == if tot > 0 then (s[j] as real) / (tot as real) else 0.0
  {
    tot := 0;
    for j := 0 to |s|
      invariant tot == SumTo(s, j)
    {
      tot := tot + s[j];
    }
    dist := [];
    for j := 0 to |s|
      invariant |dist| == j
      invariant forall k :: 0 <= k < j ==> dist[k] == if tot > 0 then (s[k] as real) / (tot as real) else 0.0
    {
      dist := dist + [if tot > 0 then (s[j] as real) / (tot as real) else 0.0];
    }
  }

  lemma {:induction false} SumToPositive(s: seq<nat>, k: nat, j: nat)
    requires j < k <= |s| && s[j] > 0
    ensures SumTo(s, k) > 0
  {
    if j < k - 1 { SumToPositive(s, k - 1, j); }
  }

  lemma {:induction false} DivAsScale(x: real, y: real)
    requires y > 0.0
    ensures x / y == (1.0 / y) * x
  {}

  // Dividing the exact counts by their total normalises the piece.
  lemma {:induction false} DistIsPoly(u: set<nat>, cons: seq<Con>, row: seq<nat>, tot: nat, dist: seq<real>)
    requires tot > 0 && |row| == |u| + 1 && |dist| == |row|
    requires forall k: nat :: k < |row| ==> row[k] == N(u, cons, k)
    requires forall k: nat :: k < |row| ==> dist[k] == (row[k] as real) / (tot as real)
    ensures dist == Scaled(1.0 / (tot as real), Poly(u, cons))
  {
    var e := Scaled(1.0 / (tot as real), Poly(u, cons));
    forall k: nat | k < |dist| ensures dist[k] == e[k] {
      DivAsScale(row[k] as real, tot as real);
    }
  }

  // ---- binomial weights over the free cells ----

  // Exact value of exp(log weight) before normalising: impossible totals keep log weight 0.
  function RawWeight(d: real, free: nat, mines: nat, t: nat): nat {
    if d <= 0.0 then 1 else Choose(free, mines - t)
  }

  method MaxWeight(d: seq<real>, free: nat, mines: nat) returns (w: array<nat>, mx: nat)
    ensures fresh(w) && w.Length == |d|
    ensures forall t: nat :: t < |d| ==> w[t] == RawWeight(d[t], free, mines, t)
    ensures forall t: nat :: t < |d| && d[t] > 0.0 ==> w[t] <= mx
    ensures mx > 0 ==> exists t: nat :: t < |d| && d[t] > 0.0 && w[t] == mx
  {
    w := new nat[|d|](_ => 0);
    mx := 0;
    for i := 0 to |d|
      invariant forall t: nat :: t < i ==> w[t] == RawWeight(d[t], free, mines, t)
      invariant forall t: nat :: t < i && d[t] > 0.0 ==> w[t] <= mx
      invariant mx > 0 ==> exists t: nat :: t < i && d[t] > 0.0 && w[t] == mx
    {
      if d[i] <= 0.0 {
        w[i] := 1;
      } else {
        w[i] := Choose(free, mines - i);
        if w[i] > mx { mx := w[i]; }
      }
    }
  }

  method FreeWeights(d: seq<real>, free: nat, mines: nat) returns (w: array<real>, mx: nat)
    ensures fresh(w) && w.Length == |d|
    ensures forall t: nat :: t < |d| ==>
      w[t] == if mx == 0 then 1.0 else (RawWeight(d[t], free, mines, t) as real) / (mx as real)
    ensures forall t: nat :: t < |d| && d[t] > 0.0 ==> Choose(free, mines - t) <= mx
    ensures mx > 0 ==> exists t: nat :: t < |d| && d[t] > 0.0 && Choose(free, mines - t) == mx
  {
    var raw;
    raw, mx := MaxWeight(d, free, mines);
    w := new real[|d|](_ => 0.0);
    for i := 0 to |d|
      invariant forall t: nat :: t < |d| ==> raw[t] == RawWeight(d[t], free, mines, t)
      invariant forall t: nat :: t < i ==>
        w[t] == if mx == 0 then 1.0 else (RawWeight(d[t], free, mines, t) as real) / (mx as real)
    {
      if mx == 0 {
        w[i] := 1.0;
      } else {
        w[i] := (raw[i] as real) / (mx as real);
      }
    }
  }

  lemma {:induction false} DivNonneg(x: real, y: real)
    requires x >= 0.0 && y > 0.0
    ensures x / y >= 0.0
  {}

  lemma {:induction false} WeightsFitFrom(d: seq<real>, w: seq<real>, free: nat, mines: nat, mx: nat)
    requires |w| == |d| && mx > 0
    requires forall t: nat :: t < |d| ==> d[t] >= 0.0
    requires forall t: nat :: t < |d| ==> w[t] == (RawWeight(d[t], free, mines, t) as real) / (mx as real)
    ensures WeightsFit(d, w, free, mines, 1.0 / (mx as real))
    ensures forall t: nat :: t < |w| ==> w[t] >= 0.0
  {
    var inv := 1.0 / (mx as real);
    forall t: nat | t < |d|
      ensures w[t] >= 0.0
      ensures d[t] != 0.0 ==> w[t] == FreeWeight(free, mines, inv)(t)
    {
      DivNonneg(RawWeight(d[t], free, mines, t) as real, mx as real);
      DivAsScale(RawWeight(d[t], free, mines, t) as real, mx as real);
    }
  }

  // ---- normaliser and expected frontier mines ----

  method Normaliser(d: seq<real>, w: array<real>) returns (z: real, e: real)
    requires w.Length == |d|
    ensures z == Sum(Weigh(d, AsFun(w[..])), |d|)
    ensures e == Sum(Expect(Weigh(d, AsFun(w[..]))), |d|)
  {
    z, e := 0.0, 0.0;
    ghost var h := Weigh(d, AsFun(w[..]));
    for i := 0 to |d|
      invariant z == Sum(h, i) && e == Sum(Expect(h), i)
    {
      assert Coef(d, i) == d[i] && AsFun(w[..])(i) == w[i];
      assert h(i) == d[i] * w[i];
      z := z + d[i] * w[i];
      e := e + (i as real) * d[i] * w[i];
      ExpectProduct(i as real, d[i], w[i]);
    }
  }

  lemma {:induction false} ExpectProduct(i: real, x: real, y: real)
    ensures i * x * y == i * (x * y)
  {}

  // ---- the numerator of one frontier cell ----

  method InnerSum(b: seq<real>, w: array<real>, t: nat) returns (u: real)
    requires forall s: nat :: s < w.Length ==> w[s] >= 0.0
    ensures u == Sum(Weigh(b, Shifted(AsFun(w[..]), t)), |b|)
  {
    ghost var h := Weigh(b, Shifted(AsFun(w[..]), t));
    u := 0.0;
    for o := 0 to |b|
      invariant u == Sum(h, o)
    {
      var tt := t + o;
      assert h(o) == Coef(b, o) * Coef(w[..], tt);
      if tt < w.Length && w[tt] > 0.0 {
        u := u + b[o] * w[tt];
      } else {
        MulZero(Coef(b, o), Coef(w[..], tt));
      }
    }
  }

  method CellNumerator(row: seq<nat>, tot: nat, b: seq<real>, w: array<real>, ghost a: seq<real>) returns (num: real)
    requires tot > 0 && |a| == |row|
    requires forall t: nat :: t < |a| ==> a[t] == (row[t] as real) / (tot as real)
    requires forall s: nat :: s < w.Length ==> w[s] >= 0.0
    ensures num == Sum(NumeratorTerm(a, b, AsFun(w[..])), |a|)
  {
    ghost var f := AsFun(w[..]);
    ghost var h := NumeratorTerm(a, b, f);
    num := 0.0;
    for t := 0 to |row|
      invariant num == Sum(h, t)
    {
      assert Coef(a, t) == (row[t] as real) / (tot as real);
      if row[t] == 0 {
        MulZero(Coef(a, t), Sum(Weigh(b, Shifted(f, t)), |b|));
      } else {
        var u := InnerSum(b, w, t);
        num := num + (row[t] as real) / (tot as real) * u;
      }
    }
  }

  // ---- the products of the components' distributions ----

  method PrefixProducts(ds: seq<Dist>) returns (prefix: array<Dist>)
    ensures fresh(prefix) && prefix.Length == |ds| + 1
    ensures forall i: nat :: i <= |ds| ==> prefix[i] == Prefix(ds, i)
  {
    hide Conv;
    prefix := new Dist[|ds| + 1](_ => [1.0]);
    for i := 0 to |ds|
      invariant forall j: nat :: j <= i ==> prefix[j] == Prefix(ds, j)
    {
      var out := new real[|prefix[i]| + |ds[i]| - 1](_ => 0.0);
      ConvInto(prefix[i], ds[i], out);
      assert out[..] == out[..|prefix[i]| + |ds[i]| - 1];
      prefix[i + 1] := out[..];
    }
  }

  method SuffixProducts(ds: seq<Dist>) returns (suffix: array<Dist>)
    ensures fresh(suffix) && suffix.Length == |ds| + 1
    ensures forall i: nat :: i <= |ds| ==> suffix[i] == Suffix(ds, i)
  {
    suffix := new Dist[|ds| + 1](_ => [1.0]);
    for i := |ds| downto 0
      invariant forall j: nat :: i <= j <= |ds| ==> suffix[j] == Suffix(ds, j)
    {
      var out := new real[|ds[i]| + |suffix[i + 1]| - 1](_ => 0.0);
      ConvInto(ds[i], suffix[i + 1], out);
      assert out[..] == out[..|ds[i]| + |suffix[i + 1]| - 1];
      suffix[i] := out[..];
    }
  }
}
