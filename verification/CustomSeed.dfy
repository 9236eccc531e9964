/** Custom seeds: exact decimal arithmetic on digit buffers. */
module CustomSeed {
  import opened Naturals

  const TARGET_DIGITS := 19
  const MAX_STEPS := 32
  const MAX_BUF := 160

  function Pow10(n: nat): (p: nat)
    ensures p > 0
  {
    if n == 0 then 1 else 10 * Pow10(n - 1)
  }

  // 1 + 2 + ... + k: after k steps the numeral has been doubled so many times.
  function Tri(k: nat): nat {
    if k == 0 then 0 else Tri(k - 1) + k
  }

  ghost predicate Digits(ds: seq<nat>) {
    forall i :: 0 <= i < |ds| ==> ds[i] < 10
  }

  // The value of a numeral, most significant digit first.
  ghost function Num(ds: seq<nat>): nat {
    if ds == [] then 0 else 10 * Num(ds[..|ds| - 1]) + ds[|ds| - 1]
  }

  // The value of a numeral, least significant digit first.
  ghost function Lsf(ds: seq<nat>): nat {
    if ds == [] then 0 else ds[0] + 10 * Lsf(ds[1..])
  }

  lemma {:induction false} Pow10Add(a: nat, b: nat)
    ensures Pow10(a + b) == Pow10(a) * Pow10(b)
  {
    if a == 0 {
    } else {
      Pow10Add(a - 1, b);
      assert 10 * (Pow10(a - 1) * Pow10(b)) == (10 * Pow10(a - 1)) * Pow10(b);
    }
  }

  lemma {:induction false} Pow2Add(a: nat, b: nat)
    ensures Pow2(a + b) == Pow2(a) * Pow2(b)
  {
    if a == 0 {
    } else {
      Pow2Add(a - 1, b);
      assert 2 * (Pow2(a - 1) * Pow2(b)) == (2 * Pow2(a - 1)) * Pow2(b);
    }
  }

  lemma {:induction false} Pow10Mono(a: nat, b: nat)
    requires a <= b
    ensures Pow10(a) <= Pow10(b)
  {
    if a < b { Pow10Mono(a, b - 1); }
  }

  lemma {:induction false} NumSplit(a: seq<nat>, b: seq<nat>)
    ensures Num(a + b) == Num(a) * Pow10(|b|) + Num(b)
  {
    if b == [] {
      assert a + b == a;
    } else {
      var init, last := b[..|b| - 1], b[|b| - 1];
      NumSplit(a, init);
      assert (a + b)[..|a + b| - 1] == a + init;
      SplitArith(Num(a), Pow10(|init|), Num(init), last);
    }
  }

  lemma {:induction false} SplitArith(x: nat, p: nat, y: nat, d: nat)
    ensures 10 * (x * p + y) + d == x * (10 * p) + (10 * y + d)
  {
    assert 10 * (x * p) == x * (10 * p);
  }

  lemma {:induction false} NumBelow(ds: seq<nat>)
    requires Digits(ds)
    ensures Num(ds) < Pow10(|ds|)
  {
    if ds != [] { NumBelow(ds[..|ds| - 1]); }
  }

  // Without a leading zero the number of digits is determined by the value.
  lemma {:induction false} NumRange(ds: seq<nat>)
    requires Digits(ds) && ds != [] && ds[0] != 0
    ensures Pow10(|ds| - 1) <= Num(ds) < Pow10(|ds|)
  {
    NumBelow(ds);
    NumSplit(ds[..1], ds[1..]);
    assert ds[..1] + ds[1..] == ds;
    assert Num(ds[..1]) == ds[0] by { assert ds[..1][..0] == []; }
    MulAtLeast(ds[0], Pow10(|ds| - 1));
  }

  lemma {:induction false} MulAtLeast(x: nat, p: nat)
    requires x >= 1
    ensures x * p >= p
  {
    assert x * p == p + (x - 1) * p;
  }

  lemma {:induction false} LeadingZero(ds: seq<nat>)
    requires ds != [] && ds[0] == 0
    ensures Num(ds[1..]) == Num(ds)
  {
    NumSplit(ds[..1], ds[1..]);
    assert ds[..1] + ds[1..] == ds;
    assert Num(ds[..1]) == 0 by { assert ds[..1][..0] == []; }
    assert 0 * Pow10(|ds[1..]|) == 0;
  }

  /** Cutting off the last digits divides by a power of ten. */
  lemma {:induction false} CutDigits(ds: seq<nat>, n: nat)
    requires Digits(ds) && n <= |ds|
    ensures Num(ds[..n]) == Num(ds) / Pow10(|ds| - n)
  {
    NumSplit(ds[..n], ds[n..]);
    assert ds[..n] + ds[n..] == ds;
    NumBelow(ds[n..]);
    DivMod(Num(ds[..n]), Pow10(|ds| - n), Num(ds[n..]));
  }

  lemma {:induction false} LsfSnoc(ds: seq<nat>, d: nat)
    ensures Lsf(ds + [d]) == Lsf(ds) + d * Pow10(|ds|)
  {
    if ds == [] {
      assert Lsf([d]) == d + 10 * Lsf([]);
    } else {
      assert (ds + [d])[1..] == ds[1..] + [d];
      LsfSnoc(ds[1..], d);
      assert 10 * (d * Pow10(|ds| - 1)) == d * (10 * Pow10(|ds| - 1));
    }
  }

  // Reading the digits in the other direction.
  lemma {:induction false} ReadBackwards(t: seq<nat>, r: seq<nat>)
    requires |r| == |t| && forall i :: 0 <= i < |t| ==> r[i] == t[|t| - 1 - i]
    ensures Num(r) == Lsf(t)
  {
    if t != [] { ReadBackwards(t[1..], r[..|r| - 1]); }
  }

  // ---- multiplication in place ----

  // One digit position of the schoolbook multiplication.
  lemma {:induction false} MulDigit(low: nat, carry: nat, p: nat, rest: nat, d: nat, m: nat, q: nat, c: nat)
    requires low + carry * p == rest * m && d * m + carry == 10 * c + q
    ensures low + q * p + c * (10 * p) == (d * p + rest) * m
  {
    assert (d * p + rest) * m == (d * m) * p + rest * m;
    assert (10 * c + q) * p == c * (10 * p) + q * p;
    assert (d * m + carry) * p == (d * m) * p + carry * p;
  }

  lemma {:induction false} CarryDigit(low: nat, carry: nat, p: nat, total: nat)
    requires low + carry * p == total
    ensures low + (carry % 10) * p + (carry / 10) * (10 * p) == total
  {
    var q, c := carry % 10, carry / 10;
    assert carry == 10 * c + q;
    assert (10 * c + q) * p == c * (10 * p) + q * p;
  }

  lemma {:induction false} CarryBelow(d: nat, m: nat, carry: nat)
    requires d < 10 && carry < m
    ensures d * m + carry < 10 * m && (d * m + carry) / 10 < m
  {
    assert d * m <= 9 * m;
  }

  // The digits from i on have been multiplied: low holds the low digits of the product.
  ghost predicate Multiplied(was: seq<nat>, i: nat, low: seq<nat>, carry: nat, m: nat) {
    && i <= |was| && |low| == |was| - i && carry < m && Digits(low)
    && Lsf(low) + carry * Pow10(|low|) == Num(was[i..]) * m
  }

  // Multiply digit by digit from the right into tmp, least significant digit first.
  method MulDigits(buf: array<nat>, len: nat, m: nat, tmp: array<nat>) returns (carry: nat)
    requires len <= buf.Length && Digits(buf[..len]) && m > 0 && len <= tmp.Length && tmp != buf
    modifies tmp
    ensures Multiplied(buf[..len], 0, tmp[..len], carry, m)
  {
    hide Multiplied, Digits;
    ghost var was := buf[..len];
    carry := 0;
    MulStart(was, m);
    assert tmp[..0] == [];
    var i := len;
    while i > 0
      invariant i <= len && buf[..len] == was && Multiplied(was, i, tmp[..len - i], carry, m)
    {
      i := i - 1;
      var k := len - i - 1;
      ghost var before := tmp[..k];
      MulTurn(was, i, before, carry, m);
      var v := buf[i] * m + carry;
      tmp[k] := v % 10;
      assert tmp[..k + 1] == before + [v % 10];
      carry := v / 10;
    }
  }

  // Write the digits of the carry behind the len digits of tmp.
  method CarryOut(tmp: array<nat>, len: nat, start: nat, ghost total: nat) returns (k: nat)
    requires len + 10 <= tmp.Length && start < Pow10(10) && Digits(tmp[..len])
    requires Lsf(tmp[..len]) + start * Pow10(len) == total
    modifies tmp
    ensures len <= k <= len + 10 && Digits(tmp[..k]) && Lsf(tmp[..k]) == total
    ensures k > len ==> tmp[k - 1] != 0
  {
    hide Lsf, Pow10;
    k := len;
    var carry: nat := start;
    ghost var left: nat := 10;
    while carry > 0
      invariant k == len + 10 - left && 0 <= left <= 10 && carry < Pow10(left)
      invariant Digits(tmp[..k]) && Lsf(tmp[..k]) + carry * Pow10(k) == total
      invariant carry == 0 && k > len ==> tmp[k - 1] != 0
      decreases left
    {
      CarryTurn(tmp[..k], carry, total, left);
      ghost var before := tmp[..k];
      tmp[k] := carry % 10;
      assert tmp[..k + 1] == before + [carry % 10];
      k := k + 1;
      carry := carry / 10;
      left := left - 1;
    }
    assert carry * Pow10(k) == 0;
  }

  /** buf[..len] times m, in place. */
  method StrMul(buf: array<nat>, len: nat, m: nat) returns (k: nat)
    requires 0 < len && len + 12 <= buf.Length == MAX_BUF && Digits(buf[..len]) && buf[0] != 0
    requires 0 < m <= 0x1_0000_0000
    modifies buf
    ensures 0 < k <= len + 10 && Digits(buf[..k]) && buf[0] != 0
    ensures Num(buf[..k]) == old(Num(buf[..len])) * m
  {
    hide Num, Lsf, Pow10;
    ghost var was := buf[..len];
    var tmp := new nat[MAX_BUF](_ => 0);
    var carry := MulDigits(buf, len, m, tmp);
    assert was[0..] == was;
    TenDigits(carry, m);
    k := CarryOut(tmp, len, carry, Num(was) * m);
    ghost var digits := tmp[..k];
    for j := 0 to k
      invariant tmp[..k] == digits && forall x :: 0 <= x < j ==> buf[x] == tmp[k - 1 - x]
    {
      buf[j] := tmp[k - 1 - j];
    }
    ReadBackwards(tmp[..k], buf[..k]);
    if k == len { ProductLeads(was, m, buf[..k]); }
  }

  lemma {:induction false} MulStart(was: seq<nat>, m: nat)
    requires m > 0
    ensures Multiplied(was, |was|, [], 0, m)
  {}

  lemma {:induction false} DigitsSnoc(low: seq<nat>, d: nat)
    requires Digits(low) && d < 10
    ensures Digits(low + [d])
  {}

  lemma {:induction false} MulTurn(was: seq<nat>, i: nat, low: seq<nat>, carry: nat, m: nat)
    requires Multiplied(was, i + 1, low, carry, m) && Digits(was)
    ensures var v := was[i] * m + carry; Multiplied(was, i, low + [v % 10], v / 10, m)
  {
    hide Num, Lsf, Pow10;
    var v := was[i] * m + carry;
    CarryBelow(was[i], m, carry);
    LsfSnoc(low, v % 10);
    NumSplit([was[i]], was[i + 1..]);
    assert [was[i]] + was[i + 1..] == was[i..];
    OneDigitValue(was[i]);
    NextPow10(|low|);
    DigitsSnoc(low, v % 10);
    hide Digits;
    MulDigit(Lsf(low), carry, Pow10(|low|), Num(was[i + 1..]), was[i], m, v % 10, v / 10);
  }

  lemma {:induction false} OneDigitValue(d: nat)
    ensures Num([d]) == d
  {
    assert [d][..0] == [];
  }

  lemma {:induction false} NextPow10(n: nat)
    ensures Pow10(n + 1) == 10 * Pow10(n)
  {}

  lemma {:induction false} CarryTurn(tmp: seq<nat>, carry: nat, total: nat, left: nat)
    requires 0 < carry < Pow10(left) && Lsf(tmp) + carry * Pow10(|tmp|) == total
    ensures left > 0 && carry / 10 < Pow10(left - 1)
    ensures Lsf(tmp + [carry % 10]) + (carry / 10) * Pow10(|tmp| + 1) == total
  {
    LsfSnoc(tmp, carry % 10);
    CarryDigit(Lsf(tmp), carry, Pow10(|tmp|), total);
  }

  lemma {:induction false} TenDigits(carry: nat, m: nat)
    requires carry < m <= 0x1_0000_0000
    ensures carry < Pow10(10)
  {
    assert Pow10(10) == 10_000_000_000;
  }

  // A product that needs no more digits than the factor has no leading zero either.
  lemma {:induction false} ProductLeads(was: seq<nat>, m: nat, now: seq<nat>)
    requires Digits(was) && was != [] && was[0] != 0 && m > 0
    requires Digits(now) && |now| == |was| && Num(now) == Num(was) * m
    ensures now[0] != 0
  {
    hide Num, Pow10;
    NumRange(was);
    MulAtLeast(m, Num(was));
    if now[0] == 0 {
      LeadingZero(now);
      NumBelow(now[1..]);
      assert false;
    }
  }

  // ---- generation ----

  // The smallest 19-digit number, and the smallest that needs more digits.
  const LOW := 1_000_000_000_000_000_000
  const HIGH := 10_000_000_000_000_000_000

  lemma {:induction false} Bounds()
    ensures Pow10(18) == LOW && Pow10(19) == HIGH && HIGH < 0x1_0000_0000_0000_0000
  {
    Pow10Add(9, 9);
    assert Pow10(9) == 1_000_000_000;
  }

  datatype Seeded = Failed | Seeded(value: nat, steps: nat, truncated: bool)

  /** What a seed made from a numeral of value v is: v times 2^(1 + 2 + ... + steps), with e digits cut off, to
      exactly 19 digits, where `steps` is the least number of steps that reaches 19 digits. */
  ghost predicate Describes(v: nat, s: Seeded, e: nat) {
    s.Seeded?
    && if v == 0 then s == Seeded(0, 0, false) && e == 0
       else
         && s.value == v * Pow2(Tri(s.steps)) / Pow10(e) && LOW <= s.value < HIGH
         && LOW <= v * Pow2(Tri(s.steps)) && (s.truncated <==> e > 0)
         && (s.steps > 0 ==> v * Pow2(Tri(s.steps - 1)) < LOW)
  }

  lemma {:induction false} Pow2Ten()
    ensures Pow2(10) == 1024
  {}

  lemma {:induction false} Pow2Thirty()
    ensures Pow2(30) == 1_073_741_824
  {
    hide Pow2;
    Pow2Ten();
    Pow2Add(10, 10);
    Pow2Add(20, 10);
  }

  lemma {:induction false} Tri11()
    ensures Pow2(Tri(11)) >= LOW
  {
    assert Tri(11) == 66;
    hide Pow2, Tri;
    Pow2Thirty();
    Pow2Add(30, 30);
    Pow2Add(60, 6);
    MulAtLeast(Pow2(6), Pow2(60));
  }

  lemma {:induction false} TriMono(a: nat, b: nat)
    requires a <= b
    ensures Pow2(Tri(a)) <= Pow2(Tri(b))
    decreases b
  {
    hide Pow2;
    if a < b {
      TriMono(a, b - 1);
      Pow2Add(Tri(b - 1), b);
      MulAtLeast(Pow2(b), Pow2(Tri(b - 1)));
    }
  }

  lemma {:induction false} MulMono(v: nat, x: nat, y: nat)
    requires x <= y
    ensures v * x <= v * y
  {}

  /** Eleven steps always suffice: the cap of 32 is never reached. */
  lemma {:induction false} FewSteps(v: nat, k: nat)
    requires v > 0 && (k > 0 ==> v * Pow2(Tri(k - 1)) < LOW)
    ensures k <= 11
  {
    if k > 11 {
      Tri11();
      TriMono(11, k - 1);
      MulAtLeast(v, Pow2(Tri(k - 1)));
    }
  }

  /** The seed always fits 64 bits, takes at most eleven steps, and is determined by the value of the numeral. */
  lemma {:induction false} SeedFits(v: nat, s: Seeded, e: nat)
    requires Describes(v, s, e)
    ensures s.value < 0x1_0000_0000_0000_0000 && s.steps <= 11
  {
    Bounds();
    if v > 0 { FewSteps(v, s.steps); }
  }

  lemma {:induction false} StepsUnique(v: nat, j: nat, k: nat)
    requires v > 0 && j < k && LOW <= v * Pow2(Tri(j))
    ensures LOW <= v * Pow2(Tri(k - 1))
  {
    TriMono(j, k - 1);
    MulMono(v, Pow2(Tri(j)), Pow2(Tri(k - 1)));
  }

  lemma {:induction false} CutUnique(n: nat, a: nat, b: nat)
    requires a < b && LOW <= n / Pow10(b)
    ensures n / Pow10(a) >= HIGH
  {
    hide Pow10;
    Pow10Add(a, b - a);
    CutOnce(n, Pow10(b), Pow10(a), b - a);
  }

  lemma {:induction false} TenIs()
    ensures Pow10(1) == 10
  {}

  // q = n / (p * 10^d) and d > 0 make n / p at least 10 q.
  lemma {:induction false} CutOnce(n: nat, big: nat, small: nat, d: nat)
    requires d > 0 && big > 0 && small > 0 && big == small * Pow10(d) && LOW <= n / big
    ensures n / small >= HIGH
  {
    var q, t := n / big, Pow10(d);
    assert t >= 10 by { Pow10Mono(1, d); TenIs(); }
    assert q * big <= n;
    assert q * (small * t) == (q * t) * small;
    assert q * t >= LOW * 10 by { MulBoth(q, t, LOW, 10); }
    QuotientAtLeast(n, small, q * t);
  }

  lemma {:induction false} MulBoth(a: nat, b: nat, c: nat, d: nat)
    requires a >= c && b >= d
    ensures a * b >= c * d
  {
    assert a * b >= c * b && c * b >= c * d;
  }

  lemma {:induction false} QuotientAtLeast(n: nat, p: nat, x: nat)
    requires p > 0 && x * p <= n
    ensures n / p >= x
  {
    var a := n / p;
    assert n < (a + 1) * p;
    if a < x { MulLe(a + 1, x, p); }
  }

  lemma {:induction false} SeedUnique(v: nat, s: Seeded, e: nat, s': Seeded, e': nat)
    requires Describes(v, s, e) && Describes(v, s', e')
    ensures s == s' && e == e'
  {
    hide Pow2, Tri, Pow10;
    if v > 0 {
      if s.steps < s'.steps { StepsUnique(v, s.steps, s'.steps); }
      if s'.steps < s.steps { StepsUnique(v, s'.steps, s.steps); }
      var n := v * Pow2(Tri(s.steps));
      if e < e' { CutUnique(n, e, e'); }
      if e' < e { CutUnique(n, e', e); }
    }
  }

  /** A seed is its own seed: generating again from the printed result takes no step and cuts nothing. */
  lemma {:induction false} SeedStable(v: nat, s: Seeded, e: nat, s': Seeded, e': nat)
    requires Describes(v, s, e) && Describes(s.value, s', e')
    ensures s' == Seeded(s.value, 0, false)
  {
    if v > 0 {
      assert Describes(s.value, Seeded(s.value, 0, false), 0) by { assert Pow2(Tri(0)) == 1 && Pow10(0) == 1; }
      SeedUnique(s.value, Seeded(s.value, 0, false), 0, s', e');
    }
  }

  predicate AllDigits(input: string) {
    input != "" && forall i :: 0 <= i < |input| ==> '0' <= input[i] <= '9'
  }

  function DigitsOf(input: string): (ds: seq<nat>)
    requires forall i :: 0 <= i < |input| ==> '0' <= input[i] <= '9'
    ensures |ds| == |input| && forall i :: 0 <= i < |ds| ==> ds[i] == input[i] as nat - '0' as nat && ds[i] < 10
  {
    seq(|input|, i requires 0 <= i < |input| => (input[i] as nat - '0' as nat) as nat)
  }

  // The numeral a seed is made from: the first 159 digits of the input.
  function Numeral(input: string): (ds: seq<nat>)
    requires AllDigits(input)
    ensures 0 < |ds| < MAX_BUF && Digits(ds)
    ensures |ds| == Least(|input|, 159) && forall i :: 0 <= i < |ds| ==> ds[i] == input[i] as nat - '0' as nat
  {
    DigitsOf(if |input| >= MAX_BUF then input[..MAX_BUF - 1] else input)
  }

  // Strip leading zeros, keeping one digit.
  method Strip(buf: array<nat>, start: nat) returns (len: nat)
    requires 0 < start <= buf.Length && Digits(buf[..start])
    modifies buf
    ensures 0 < len <= start && Digits(buf[..len]) && Num(buf[..len]) == old(Num(buf[..start]))
    ensures buf[0] != 0 || len == 1
  {
    hide Num;
    ghost var was := buf[..start];
    var i := 0;
    assert was[0..] == was;
    while i < start - 1 && buf[i] == 0
      invariant i <= start - 1 && buf[..start] == was && Num(was[i..]) == Num(was)
    {
      LeadingZero(was[i..]);
      assert was[i..][1..] == was[i + 1..];
      i := i + 1;
    }
    len := start - i;
    if i > 0 {
      for j := 0 to len
        invariant forall x :: 0 <= x < j ==> buf[x] == was[i + x]
        invariant forall x :: j <= x < start ==> buf[x] == was[x]
      {
        buf[j] := buf[j + i];
      }
    }
    assert buf[..len] == was[i..];
  }

  method Read(buf: array<nat>, len: nat) returns (v: nat)
    requires len <= buf.Length
    ensures v == Num(buf[..len])
  {
    v := 0;
    for i := 0 to len
      invariant v == Num(buf[..i])
    {
      assert buf[..i + 1][..i] == buf[..i];
      v := v * 10 + buf[i];
    }
  }

  // One step: multiply by the next power of two.
  lemma {:induction false} StepValue(v: nat, k: nat, n: nat)
    requires n == v * Pow2(Tri(k)) * Pow2(k + 1)
    ensures n == v * Pow2(Tri(k + 1))
  {
    Pow2Add(Tri(k), k + 1);
    assert v * Pow2(Tri(k)) * Pow2(k + 1) == v * (Pow2(Tri(k)) * Pow2(k + 1));
  }

  lemma {:induction false} Pow2Small(k: nat)
    requires k <= 30
    ensures Pow2(k) <= 0x1_0000_0000
  {
    hide Pow2;
    Pow2Thirty();
    Pow2Add(k, 30 - k);
    MulAtLeast(Pow2(30 - k), Pow2(k));
  }

  lemma {:induction false} TooShort(ds: seq<nat>)
    requires Digits(ds) && ds != [] && ds[0] != 0
    ensures |ds| < TARGET_DIGITS <==> Num(ds) < LOW
    ensures |ds| == TARGET_DIGITS ==> Num(ds) < HIGH
  {
    hide Num, Pow10;
    Bounds();
    NumRange(ds);
    if |ds| < TARGET_DIGITS { Pow10Mono(|ds|, 18); } else { Pow10Mono(18, |ds| - 1); }
  }

  // Grow the numeral step by step to at least 19 digits.
  method Grow(buf: array<nat>, start: nat, ghost v: nat) returns (len: nat, steps: nat)
    requires 0 < start < MAX_BUF == buf.Length && Digits(buf[..start]) && buf[0] != 0 && v == Num(buf[..start]) > 0
    modifies buf
    ensures TARGET_DIGITS <= len <= buf.Length && Digits(buf[..len]) && buf[0] != 0 && steps <= 11
    ensures Num(buf[..len]) == v * Pow2(Tri(steps)) && (steps > 0 ==> v * Pow2(Tri(steps - 1)) < LOW)
  {
    hide Num, Pow10, Tri, Pow2;
    len, steps := start, 0;
    NoStep(v);
    TooShort(buf[..len]);
    while len < TARGET_DIGITS && steps < MAX_STEPS
      invariant 0 < len <= buf.Length && Digits(buf[..len]) && buf[0] != 0
      invariant Num(buf[..len]) == v * Pow2(Tri(steps)) && (steps > 0 ==> v * Pow2(Tri(steps - 1)) < LOW)
      decreases MAX_STEPS - steps
    {
      TooShort(buf[..len]);
      FewSteps(v, steps + 1);
      Pow2Small(steps + 1);
      len := StrMul(buf, len, Pow2(steps + 1));
      StepValue(v, steps, Num(buf[..len]));
      steps := steps + 1;
    }
    FewSteps(v, steps);
  }

  lemma {:induction false} NoStep(v: nat)
    ensures v * Pow2(Tri(0)) == v
  {}

  // Cut a numeral of at least 19 digits down to 19.
  lemma {:induction false} CutTo19(ds: seq<nat>)
    requires Digits(ds) && |ds| >= TARGET_DIGITS && ds[0] != 0
    ensures Digits(ds[..TARGET_DIGITS]) && LOW <= Num(ds[..TARGET_DIGITS]) < HIGH
    ensures Num(ds[..TARGET_DIGITS]) == Num(ds) / Pow10(|ds| - TARGET_DIGITS)
    ensures LOW <= Num(ds)
  {
    hide Num, Pow10;
    CutDigits(ds, TARGET_DIGITS);
    TooShort(ds[..TARGET_DIGITS]);
    TooShort(ds);
  }

  /** The generator. A numeral gives the seed that its first 159 digits describe; any other text is hashed
      first, and the decimal form of the hash takes the numeral's place. */
  method Generate(input: string, hash: nat, hashDigits: seq<nat>) returns (s: Seeded, ghost e: nat)
    requires 0 < |hashDigits| <= 20 && Digits(hashDigits) && Num(hashDigits) == hash
    ensures s.Failed? <==> input == ""
    ensures input != "" ==> Describes(if AllDigits(input) then Num(Numeral(input)) else hash, s, e)
  {
    hide Num, Pow10, Pow2, Tri;
    e := 0;
    if input == "" { return Failed, 0; }
    var ds := if AllDigits(input) then Numeral(input) else hashDigits;
    var buf := new nat[MAX_BUF](_ => 0);
    var len := |ds|;
    for i := 0 to len
      invariant forall x :: 0 <= x < i ==> buf[x] == ds[x]
    {
      buf[i] := ds[i];
    }
    assert buf[..len] == ds;
    ghost var v := Num(ds);
    len := Strip(buf, len);
    OneDigit(buf[..len]);
    if len == 1 && buf[0] == 0 { return Seeded(0, 0, false), 0; }
    var steps;
    len, steps := Grow(buf, len, v);
    CutTo19(buf[..len]);
    assert buf[..len][..TARGET_DIGITS] == buf[..TARGET_DIGITS];
    e := len - TARGET_DIGITS;
    var value := Read(buf, TARGET_DIGITS);
    s := Seeded(value, steps, len > TARGET_DIGITS);
  }

  lemma {:induction false} OneDigit(ds: seq<nat>)
    requires Digits(ds) && ds != [] && (ds[0] != 0 || |ds| == 1)
    ensures Num(ds) == 0 <==> |ds| == 1 && ds[0] == 0
  {
    if ds[0] != 0 {
      NumRange(ds);
    } else {
      assert ds[..0] == [];
    }
  }
}
