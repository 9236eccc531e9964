/** Distributions by number of mines, and their convolution. */
module Convolution {
  import opened Sums

  type Dist = s: seq<real> | |s| > 0 witness [1.0]

  ghost function Coef(a: seq<real>, i: int): real {
    if 0 <= i < |a| then a[i] else 0.0
  }

  ghost function Term(a: seq<real>, b: seq<real>, i: int): int -> real {
    j => Coef(a, i - j) * Coef(b, j)
  }

  // The mathematical convolution.
  ghost function Conv(a: Dist, b: Dist): Dist {
    seq(|a| + |b| - 1, i => Sum(Term(a, b, i), |b|))
  }

  lemma {:induction false} TermZero(a: Dist, b: Dist, i: int, j: int)
    requires !(0 <= i - j < |a|) || !(0 <= j < |b|)
    ensures Term(a, b, i)(j) == 0.0
  {
    MulZero(Coef(a, i - j), Coef(b, j));
  }

  lemma {:induction false} MulZero(x: real, y: real)
    requires x == 0.0 || y == 0.0
    ensures x * y == 0.0
  {}

  lemma {:induction false} ConvCoef(a: Dist, b: Dist, i: int)
    ensures Coef(Conv(a, b), i) == Sum(Term(a, b, i), |b|)
  {
    if !(0 <= i < |a| + |b| - 1) {
      forall j | 0 <= j < |b| ensures Term(a, b, i)(j) == 0.0 {
        TermZero(a, b, i, j);
      }
      SumZero(Term(a, b, i), |b|);
    }
  }

  lemma {:induction false} CoefEqual(a: seq<real>, b: seq<real>)
    requires |a| == |b|
    requires forall i :: 0 <= i < |a| ==> Coef(a, i) == Coef(b, i)
    ensures a == b
  {
    forall i | 0 <= i < |a| ensures a[i] == b[i] {
      assert Coef(a, i) == Coef(b, i);
    }
  }

  method ConvInto(a: Dist, b: Dist, out: array<real>)
    requires out.Length >= |a| + |b| - 1
    modifies out
    ensures out[..|a| + |b| - 1] == Conv(a, b)
    ensures out[|a| + |b| - 1..] == old(out[|a| + |b| - 1..])
  {
    var la, lb := |a|, |b|;
    for i := 0 to la + lb - 1
      invariant forall x :: 0 <= x < i ==> out[x] == 0.0
      invariant out[la + lb - 1..] == old(out[la + lb - 1..])
    {
      out[i] := 0.0;
    }
    for j := 0 to lb
      invariant forall x :: 0 <= x < la + lb - 1 ==> out[x] == Sum(Term(a, b, x), j)
      invariant out[la + lb - 1..] == old(out[la + lb - 1..])
    {
      if b[j] != 0.0 {
        for i := 0 to la
          invariant forall x :: 0 <= x < la + lb - 1 ==>
            out[x] == Sum(Term(a, b, x), j) + if j <= x < j + i then Term(a, b, x)(j) else 0.0
          invariant out[la + lb - 1..] == old(out[la + lb - 1..])
        {
          out[i + j] := out[i + j] + a[i] * b[j];
        }
      }
      forall x | 0 <= x < la + lb - 1 ensures out[x] == Sum(Term(a, b, x), j + 1) {
        if b[j] == 0.0 {
          MulZero(Coef(a, x - j), Coef(b, j));
        } else if !(j <= x < j + la) {
          TermZero(a, b, x, j);
        }
      }
    }
  }

  ghost function Times(x: real, f: int -> real): int -> real {
    j => x * f(j)
  }

  lemma {:induction false} SumTimes(x: real, f: int -> real, n: nat)
    ensures Sum(Times(x, f), n) == x * Sum(f, n)
  {
    SumScale(f, x, Times(x, f), n);
  }

  ghost function Left(a: Dist, b: Dist, c: Dist, i: int, k: int): int -> real {
    Times(Coef(c, k), Term(a, b, i - k))
  }

  ghost function Right(a: Dist, b: Dist, c: Dist, i: int, l: int): int -> real {
    Times(Coef(a, i - l), Term(b, c, l))
  }

  lemma {:induction false} Row(x: real, f: int -> real, n: nat, s: real)
    requires s == Sum(f, n)
    ensures s * x == x * s == Sum(Times(x, f), n)
  {
    SumTimes(x, f, n);
  }

  lemma {:induction false} LeftRow(a: Dist, b: Dist, c: Dist, i: int, k: int, r: real)
    requires r == Sum(Left(a, b, c, i, k), |b|)
    ensures Term(Conv(a, b), c, i)(k) == r
  {
    var s := Coef(Conv(a, b), i - k);
    assert s == Sum(Term(a, b, i - k), |b|) by { ConvCoef(a, b, i - k); }
    Row(Coef(c, k), Term(a, b, i - k), |b|, s);
  }

  lemma {:induction false} RightRow(a: Dist, b: Dist, c: Dist, i: int, l: int, r: real)
    requires r == Sum(Right(a, b, c, i, l), |c|)
    ensures Term(a, Conv(b, c), i)(l) == r
  {
    var s := Coef(Conv(b, c), l);
    assert s == Sum(Term(b, c, l), |c|) by { ConvCoef(b, c, l); }
    Row(Coef(a, i - l), Term(b, c, l), |c|, s);
  }

  lemma {:induction false} MulRotate(x: real, y: real, z: real)
    ensures x * (y * z) == z * (x * y)
  {}

  ghost function Column(a: Dist, b: Dist, c: Dist, i: int, k: int): int -> real {
    l => Right(a, b, c, i, l)(k)
  }

  lemma {:induction false} RightZero(a: Dist, b: Dist, c: Dist, i: int, l: int, k: int)
    requires !(k <= l < k + |b|)
    ensures Right(a, b, c, i, l)(k) == 0.0
  {
    TermZero(b, c, l, k);
    MulZero(Coef(a, i - l), Term(b, c, l)(k));
  }

  lemma {:induction false} LeftRight(a: Dist, b: Dist, c: Dist, i: int, j: int, k: int)
    ensures Right(a, b, c, i, j + k)(k) == Left(a, b, c, i, k)(j)
  {
    assert i - (j + k) == i - k - j && (j + k) - k == j;
    MulRotate(Coef(a, i - (j + k)), Coef(b, j), Coef(c, k));
  }

  // For a fixed entry of c, the two inner sums are shifted windows of each other.
  lemma {:induction false} ShiftInner(a: Dist, b: Dist, c: Dist, i: int, k: nat)
    requires k < |c|
    ensures Sum(Column(a, b, c, i, k), |b| + |c| - 1) == Sum(Left(a, b, c, i, k), |b|)
  {
    var f, g := Column(a, b, c, i, k), Left(a, b, c, i, k);
    forall l | !(k <= l < k + |b|) ensures f(l) == 0.0 {
      RightZero(a, b, c, i, l, k);
    }
    SumShift(f, k, |b|, |b| + |c| - 1);
    forall j ensures f(j + k) == g(j) {
      LeftRight(a, b, c, i, j, k);
    }
    SumSame(j => f(j + k), g, |b|);
  }

  lemma {:induction false} AssocCoef(a: Dist, b: Dist, c: Dist, i: int)
    ensures Coef(Conv(Conv(a, b), c), i) == Coef(Conv(a, Conv(b, c)), i)
  {
    var m, n := |b| + |c| - 1, |c|;
    var h := (l, k) => Right(a, b, c, i, l)(k);
    ConvCoef(Conv(a, b), c, i);
    ConvCoef(a, Conv(b, c), i);
    forall l ensures Term(a, Conv(b, c), i)(l) == (l => Sum(k => h(l, k), n))(l) {
      RightRow(a, b, c, i, l, Sum(Right(a, b, c, i, l), n));
      SumSame(k => h(l, k), Right(a, b, c, i, l), n);
    }
    SumSame(Term(a, Conv(b, c), i), l => Sum(k => h(l, k), n), m);
    SumSwap(h, m, n);
    forall k | 0 <= k < n ensures Term(Conv(a, b), c, i)(k) == (k => Sum(l => h(l, k), m))(k) {
      LeftRow(a, b, c, i, k, Sum(Left(a, b, c, i, k), |b|));
      ShiftInner(a, b, c, i, k);
      SumSame(l => h(l, k), Column(a, b, c, i, k), m);
    }
    SumSame(Term(Conv(a, b), c, i), k => Sum(l => h(l, k), m), n);
  }

  lemma {:induction false} ConvAssoc(a: Dist, b: Dist, c: Dist)
    ensures Conv(Conv(a, b), c) == Conv(a, Conv(b, c))
  {
    forall i ensures Coef(Conv(Conv(a, b), c), i) == Coef(Conv(a, Conv(b, c)), i) {
      AssocCoef(a, b, c, i);
    }
    CoefEqual(Conv(Conv(a, b), c), Conv(a, Conv(b, c)));
  }

  lemma {:induction false} SumExtend(f: int -> real, n: nat, m: nat)
    requires n <= m && forall j :: n <= j < m ==> f(j) == 0.0
    ensures Sum(f, m) == Sum(f, n)
  {
    if n < m { SumExtend(f, n, m - 1); }
  }

  lemma {:induction false} TermOutside(a: Dist, b: Dist, i: int, j: int)
    requires j > i || j >= |b|
    ensures Term(a, b, i)(j) == 0.0
  {
    assert Coef(a, i - j) == 0.0 || Coef(b, j) == 0.0;
  }

  // Any window that reaches the support gives the same coefficient.
  lemma {:induction false} TermWindow(a: Dist, b: Dist, i: nat)
    ensures Sum(Term(a, b, i), |b|) == Sum(Term(a, b, i), i + 1)
  {
    var f := Term(a, b, i);
    forall j | i < j ensures f(j) == 0.0 { TermOutside(a, b, i, j); }
    forall j | |b| <= j ensures f(j) == 0.0 { TermOutside(a, b, i, j); }
    if i + 1 <= |b| {
      SumExtend(f, i + 1, |b|);
    } else {
      SumExtend(f, |b|, i + 1);
    }
  }

  lemma {:induction false} ConvComm(a: Dist, b: Dist)
    ensures Conv(a, b) == Conv(b, a)
  {
    forall i | 0 <= i < |Conv(a, b)| ensures Coef(Conv(a, b), i) == Coef(Conv(b, a), i) {
      TermWindow(a, b, i);
      TermWindow(b, a, i);
      SumReverse(Term(a, b, i), i + 1);
      SumSame(j => Term(a, b, i)(i + 1 - 1 - j), Term(b, a, i), i + 1);
    }
    CoefEqual(Conv(a, b), Conv(b, a));
  }

  lemma {:induction false} ConvUnit(a: Dist)
    ensures Conv(a, [1.0]) == a && Conv([1.0], a) == a
  {
    forall i | 0 <= i < |a| ensures Coef(Conv(a, [1.0]), i) == Coef(a, i) {
      assert Sum(Term(a, [1.0], i), 1) == Sum(Term(a, [1.0], i), 0) + Term(a, [1.0], i)(0);
    }
    CoefEqual(Conv(a, [1.0]), a);
    ConvComm(a, [1.0]);
  }

  ghost function Scaled(x: real, a: Dist): Dist {
    seq(|a|, i requires 0 <= i < |a| => x * a[i])
  }

  lemma {:induction false} TermScaled(x: real, a: Dist, y: real, b: Dist, i: int, j: int)
    ensures Term(Scaled(x, a), Scaled(y, b), i)(j) == x * y * Term(a, b, i)(j)
  {
    ScaledCoef(x, a, i - j);
    ScaledCoef(y, b, j);
    ProductScale(x, Coef(a, i - j), y, Coef(b, j));
  }

  lemma {:induction false} ConvScaledCoef(x: real, a: Dist, y: real, b: Dist, i: int)
    ensures Coef(Conv(Scaled(x, a), Scaled(y, b)), i) == Coef(Scaled(x * y, Conv(a, b)), i)
  {
    var f, g := Term(a, b, i), Term(Scaled(x, a), Scaled(y, b), i);
    forall j ensures g(j) == x * y * f(j) {
      TermScaled(x, a, y, b, i, j);
    }
    SumScale(f, x * y, g, |b|);
    ConvCoef(a, b, i);
    ConvCoef(Scaled(x, a), Scaled(y, b), i);
    ScaledCoef(x * y, Conv(a, b), i);
  }

  lemma {:induction false} ConvScaled(x: real, a: Dist, y: real, b: Dist)
    ensures Conv(Scaled(x, a), Scaled(y, b)) == Scaled(x * y, Conv(a, b))
  {
    forall i ensures Coef(Conv(Scaled(x, a), Scaled(y, b)), i) == Coef(Scaled(x * y, Conv(a, b)), i) {
      ConvScaledCoef(x, a, y, b, i);
    }
    CoefEqual(Conv(Scaled(x, a), Scaled(y, b)), Scaled(x * y, Conv(a, b)));
  }

  lemma {:induction false} ConvScaledBy(x: real, a: Dist, y: real, b: Dist, z: real)
    requires z == x * y
    ensures Conv(Scaled(x, a), Scaled(y, b)) == Scaled(z, Conv(a, b))
  {
    ConvScaled(x, a, y, b);
  }

  lemma {:induction false} ScaledCoef(x: real, a: Dist, i: int)
    ensures Coef(Scaled(x, a), i) == x * Coef(a, i)
  {
    if !(0 <= i < |a|) { MulZero(x, Coef(a, i)); }
  }

  lemma {:induction false} ProductScale(x: real, p: real, y: real, q: real)
    ensures (x * p) * (y * q) == x * y * (p * q)
  {}

  // ---- prefix and suffix products over the components ----

  ghost function Prefix(ds: seq<Dist>, i: nat): Dist
    requires i <= |ds|
  {
    if i == 0 then [1.0] else Conv(Prefix(ds, i - 1), ds[i - 1])
  }

  ghost function Suffix(ds: seq<Dist>, i: nat): Dist
    requires i <= |ds|
    decreases |ds| - i
  {
    if i == |ds| then [1.0] else Conv(ds[i], Suffix(ds, i + 1))
  }

  // Every cut of the component list gives back the overall distribution.
  lemma {:induction false} CutAnywhere(ds: seq<Dist>, i: nat)
    requires i <= |ds|
    ensures Conv(Prefix(ds, i), Suffix(ds, i)) == Prefix(ds, |ds|)
    decreases |ds| - i
  {
    if i == |ds| {
      ConvUnit(Prefix(ds, i));
    } else {
      ConvAssoc(Prefix(ds, i), ds[i], Suffix(ds, i + 1));
      CutAnywhere(ds, i + 1);
    }
  }

  ghost function Without(ds: seq<Dist>, i: nat): seq<Dist>
    requires i < |ds|
  {
    ds[..i] + ds[i + 1..]
  }

  lemma {:induction false} PrefixSame(ds: seq<Dist>, es: seq<Dist>, i: nat)
    requires i <= |ds| && i <= |es| && ds[..i] == es[..i]
    ensures Prefix(ds, i) == Prefix(es, i)
  {
    if i > 0 {
      assert ds[i - 1] == ds[..i][i - 1] == es[..i][i - 1] == es[i - 1];
      assert ds[..i - 1] == ds[..i][..i - 1] == es[..i][..i - 1] == es[..i - 1];
      PrefixSame(ds, es, i - 1);
    }
  }

  lemma {:induction false} SuffixSame(ds: seq<Dist>, i: nat, es: seq<Dist>, j: nat)
    requires i <= |ds| && j <= |es| && ds[i..] == es[j..]
    ensures Suffix(ds, i) == Suffix(es, j)
    decreases |ds| - i
  {
    assert |ds| - i == |es| - j;
    if i < |ds| {
      assert ds[i] == ds[i..][0] == es[j..][0] == es[j];
      assert ds[i + 1..] == ds[i..][1..] == es[j..][1..] == es[j + 1..];
      SuffixSame(ds, i + 1, es, j + 1);
    }
  }

  /** Leave-one-out: for every component, prefix times suffix is the
      distribution of all the other components, and putting the component back
      between them gives the overall distribution. */
  lemma {:induction false} LeaveOneOut(ds: seq<Dist>, i: nat)
    requires i < |ds|
    ensures Conv(Prefix(ds, i), Suffix(ds, i + 1)) == Prefix(Without(ds, i), |ds| - 1)
    ensures Conv(Conv(Prefix(ds, i), ds[i]), Suffix(ds, i + 1)) == Prefix(ds, |ds|)
    ensures Conv(ds[i], Conv(Prefix(ds, i), Suffix(ds, i + 1))) == Prefix(ds, |ds|)
  {
    var es := Without(ds, i);
    assert ds[..i] == es[..i];
    PrefixSame(ds, es, i);
    assert ds[i + 1..] == es[i..];
    SuffixSame(ds, i + 1, es, i);
    CutAnywhere(es, i);
    CutAnywhere(ds, i + 1);
    ConvComm(Prefix(ds, i), ds[i]);
    ConvAssoc(ds[i], Prefix(ds, i), Suffix(ds, i + 1));
  }

  // Replacing one component's distribution only needs the leave-one-out product.
  lemma {:induction false} ReplaceOne(ds: seq<Dist>, i: nat, a: Dist)
    requires i < |ds|
    ensures Conv(Conv(Prefix(ds, i), Suffix(ds, i + 1)), a) == Prefix(ds[i := a], |ds|)
  {
    var es := ds[i := a];
    assert ds[..i] == es[..i];
    PrefixSame(ds, es, i);
    assert ds[i + 1..] == es[i + 1..];
    SuffixSame(ds, i + 1, es, i + 1);
    LeaveOneOut(es, i);
    ConvComm(Conv(Prefix(ds, i), Suffix(ds, i + 1)), a);
  }
}
