/** The linear congruential generator that walks over an address range, whose size is a power of two
    (ipscanner/iterator/iterator.go:14-87, 156-169). */
module Lcg {
  import opened Arith

  function Pow2(k: nat): (p: nat)
    ensures p > 0
  {
    if k == 0 then 1 else 2 * Pow2(k - 1)
  }

  /** ipRangeSize */
  function IpRangeSize(is4: bool, prefixBits: nat): nat
    requires prefixBits <= if is4 then 32 else 128
  {
    Pow2((if is4 then 32 else 128) - prefixBits)
  }

  function Gcd(x: nat, y: nat): nat
    decreases y
  {
    if y == 0 then x else Gcd(y, x % y)
  }

  /** checkHullDobell */
  predicate CheckHullDobell(modulus: nat, multiplier: nat, increment: nat) {
    Gcd(increment, modulus) == 1 && (modulus % 4 == 0 ==> (multiplier - 1) % 4 == 0)
  }

  // ---------- arithmetic modulo powers of two ----------

  lemma {:induction false} OddFactor(k: nat, odd: int, x: int)
    requires odd % 2 == 1 && (odd * x) % Pow2(k) == 0
    ensures x % Pow2(k) == 0
  {
    if k > 0 {
      var p := Pow2(k - 1);
      var q := (odd * x) / (2 * p);
      assert odd * x == 2 * p * q;
      HalfProduct(odd, x, p * q);
      var y := x / 2;
      assert odd * y == p * q by {
        assert x == 2 * y;
        assert odd * (2 * y) == 2 * (odd * y);
        MulAssoc(2, p, q);
      }
      Divides(p, q, odd * y);
      OddFactor(k - 1, odd, y);
      DoubleDivides(p, y);
    }
  }

  lemma MulAssoc(a: int, b: int, c: int)
    ensures a * b * c == a * (b * c)
  {
  }

  lemma HalfProduct(odd: int, x: int, h: int)
    requires odd % 2 == 1 && odd * x == 2 * h
    ensures x % 2 == 0
  {
    var o := odd / 2;
    assert odd * x == 2 * (o * x) + x;
  }

  lemma Divides(p: int, q: int, n: int)
    requires p > 0 && n == p * q
    ensures n % p == 0
  {
    ModMultiple(q, p);
  }

  lemma DoubleDivides(p: int, y: int)
    requires p > 0
    ensures (2 * y) % (2 * p) == 0 <==> y % p == 0
  {
    if y % p == 0 {
      var q := y / p;
      assert 2 * y == (2 * p) * q;
      Divides(2 * p, q, 2 * y);
    }
    if (2 * y) % (2 * p) == 0 {
      var q := (2 * y) / (2 * p);
      assert 2 * y == (2 * p) * q == 2 * (p * q);
      Divides(p, q, y);
    }
  }

  lemma Shrink(x: int, m: int, d: int)
    requires d > 0 && m > 0 && m % d == 0
    ensures (x % m) % d == x % d
  {
    var q, r := x / m, m / d;
    DivMod(x, m);
    DivMod(m, d);
    assert x == x % m + (q * r) * d by {
      MulAssoc(q, r, d);
    }
    ModAddMultiple(x % m, q * r, d);
  }

  // ---------- the coprimality test ----------

  lemma {:induction false} GcdDivides(x: nat, y: nat)
    requires x > 0 || y > 0
    ensures Gcd(x, y) > 0 && x % Gcd(x, y) == 0 && y % Gcd(x, y) == 0
    decreases y
  {
    if y > 0 {
      GcdDivides(y, x % y);
      var g := Gcd(y, x % y);
      DivMod(x, y);
      DivMod(y, g);
      DivMod(x % y, g);
      var q, u, v := x / y, y / g, (x % y) / g;
      assert x == (q * u + v) * g by {
        MulAssoc(q, u, g);
      }
      ModMultiple(q * u + v, g);
    } else {
      ModMultiple(1, x);
      assert Gcd(x, y) == x;
    }
  }

  lemma {:induction false} GcdEven(x: nat, y: nat)
    requires x % 2 == 0 && y % 2 == 0
    ensures Gcd(x, y) % 2 == 0
    decreases y
  {
    if y > 0 {
      Shrink(x, y, 2);
      GcdEven(y, x % y);
    }
  }

  lemma {:induction false} OddDivisor(k: nat, d: nat, q: nat)
    requires d % 2 == 1 && d * q == Pow2(k)
    ensures d == 1
  {
    if k == 0 {
      if d > 1 {
        MulMonotone(2, d, q);
      }
    } else {
      HalfProduct(d, q, Pow2(k - 1));
      assert d * (2 * (q / 2)) == 2 * (d * (q / 2));
      OddDivisor(k - 1, d, q / 2);
    }
  }

  /** The increment is coprime to a power of two exactly when it is odd, or the power is 1. */
  lemma CoprimeIsOdd(k: nat, c: nat)
    ensures Gcd(c, Pow2(k)) == 1 <==> k == 0 || c % 2 == 1
  {
    var m := Pow2(k);
    var g := Gcd(c, m);
    GcdDivides(c, m);
    if k == 0 {
      SmallDivisor(g);
    } else if c % 2 == 0 {
      GcdEven(c, m);
    } else {
      DivMod(c, g);
      DivMod(m, g);
      if g % 2 == 0 {
        EvenProduct(c / g, g);
      } else {
        OddDivisor(k, g, m / g);
      }
    }
  }

  lemma SmallDivisor(g: nat)
    requires g > 0 && 1 % g == 0
    ensures g == 1
  {
    if g > 1 {
      DivModUnique(1, 0, 1, g);
    }
  }

  lemma EvenProduct(x: int, y: int)
    requires y % 2 == 0
    ensures (x * y) % 2 == 0
  {
    assert x * y == 2 * (x * (y / 2));
  }

  // ---------- powers and geometric sums ----------

  function Power(a: nat, n: nat): nat {
    if n == 0 then 1 else a * Power(a, n - 1)
  }

  /** 1 + a + ... + a^(n-1) */
  function Sum(a: nat, n: nat): nat {
    if n == 0 then 0 else a * Sum(a, n - 1) + 1
  }

  lemma SplitStep(a: nat, p: nat, s: nat, t: nat, u: nat)
    requires u == p * s + t
    ensures a * u + 1 == (a * p) * s + (a * t + 1)
  {
    assert a * (p * s + t) == a * (p * s) + a * t;
    MulAssoc(a, p, s);
  }

  lemma {:induction false} SumSplits(a: nat, d: nat, i: nat)
    ensures Sum(a, d + i) == Power(a, i) * Sum(a, d) + Sum(a, i)
  {
    if i > 0 {
      SumSplits(a, d, i - 1);
      SplitStep(a, Power(a, i - 1), Sum(a, d), Sum(a, i - 1), Sum(a, d + i - 1));
    }
  }

  /** Powers of a number that is 1 modulo `d` are 1 modulo `d`. */
  lemma {:induction false} PowerResidue(a: nat, n: nat, d: nat)
    requires d > 1 && a % d == 1
    ensures Power(a, n) % d == 1
  {
    if n == 0 {
      DivModUnique(1, 0, 1, d);
    } else {
      PowerResidue(a, n - 1, d);
      var p := Power(a, n - 1);
      DivMod(a, d);
      DivMod(p, d);
      assert a * p == (a / d * p) * d + p by {
        assert (a / d * d) * p == (a / d * p) * d;
      }
      ModAddMultiple(p, a / d * p, d);
    }
  }

  lemma OddTimes(a: int, s: int)
    requires a % 2 == 1
    ensures (a * s) % 2 == s % 2
  {
    var h := a / 2;
    assert a * s == (2 * h + 1) * s == 2 * (h * s) + s;
  }

  lemma ParityStep(a: int, s: int, t: int)
    requires a % 2 == 1 && t == a * s + 1
    ensures t % 2 != s % 2
  {
    OddTimes(a, s);
  }

  lemma Alternates(n: nat)
    requires n > 0
    ensures n % 2 != (n - 1) % 2
  {
  }

  lemma SumStep(a: nat, n: nat)
    requires n > 0
    ensures Sum(a, n) == a * Sum(a, n - 1) + 1
  {
  }

  lemma {:induction false} SumParity(a: nat, n: nat)
    requires a % 2 == 1
    ensures Sum(a, n) % 2 == n % 2
  {
    if n > 0 {
      hide Sum;
      SumParity(a, n - 1);
      SumStep(a, n);
      ParityStep(a, Sum(a, n - 1), Sum(a, n));
      Alternates(n);
    }
  }

  lemma HalfOfNext(p: nat) returns (odd: nat)
    requires p % 4 == 1
    ensures odd % 2 == 1 && p + 1 == 2 * odd
  {
    var q := p / 4;
    DivMod(p, 4);
    odd := 2 * q + 1;
    DivModUnique(odd, q, 1, 2);
  }

  lemma NextTimes(p: nat, s: nat, odd: nat)
    requires p + 1 == 2 * odd
    ensures p * s + s == 2 * (odd * s)
  {
    assert p * s + s == (p + 1) * s;
    MulAssoc(2, odd, s);
  }

  /** Twice the length doubles the sum, up to an odd factor. */
  lemma SumDouble(a: nat, h: nat) returns (odd: nat)
    requires a % 4 == 1
    ensures odd % 2 == 1 && Sum(a, h + h) == 2 * (odd * Sum(a, h))
  {
    hide Sum, Power;
    SumSplits(a, h, h);
    PowerResidue(a, h, 4);
    odd := HalfOfNext(Power(a, h));
    NextTimes(Power(a, h), Sum(a, h), odd);
  }

  lemma HalfSum(k: nat, a: nat, h: nat)
    requires a % 4 == 1 && Sum(a, h + h) % (2 * Pow2(k)) == 0
    ensures Sum(a, h) % Pow2(k) == 0
  {
    hide Sum, Pow2;
    var odd := SumDouble(a, h);
    DoubleDivides(Pow2(k), odd * Sum(a, h));
    OddFactor(k, odd, Sum(a, h));
  }

  /** The 2-adic valuation of the sum is that of its length: 2^k divides the sum of n terms only if it
      divides n. */
  lemma {:induction false} SumValuation(k: nat, a: nat, n: nat)
    requires k > 1 ==> a % 4 == 1
    requires k == 1 ==> a % 2 == 1
    requires Sum(a, n) % Pow2(k) == 0
    ensures n % Pow2(k) == 0
  {
    hide Sum;
    if k > 0 {
      SumParity(a, n);
      var p, h := Pow2(k - 1), n / 2;
      Shrink(Sum(a, n), 2 * p, 2);
      if k > 1 {
        assert n == h + h;
        HalfSum(k - 1, a, h);
        SumValuation(k - 1, a, h);
        DoubleDivides(p, h);
      }
    }
  }

  lemma {:induction false} PowerOdd(a: nat, n: nat)
    requires a % 2 == 1
    ensures Power(a, n) % 2 == 1
  {
    PowerResidue(a, n, 2);
  }

  // ---------- the orbit of 0 ----------

  function Affine(m: nat, a: nat, c: nat, x: nat): (y: nat)
    requires m > 0
    ensures y < m
  {
    (a * x + c) % m
  }

  /** The value of `current` after `n` calls of Next. */
  function Orbit(m: nat, a: nat, c: nat, n: nat): nat
    requires m > 0
  {
    if n == 0 then 0 else Affine(m, a, c, Orbit(m, a, c, n - 1))
  }

  lemma OrbitBound(m: nat, a: nat, c: nat, n: nat)
    requires m > 0
    ensures Orbit(m, a, c, n) < m
  {
    hide Affine;
  }

  lemma StepResidue(m: nat, a: nat, c: nat, y: nat)
    requires m > 0
    ensures (a * (y % m) + c) % m == (a * y + c) % m
  {
    var q, r := y / m, y % m;
    DivMod(y, m);
    assert a * y == a * (q * m + r) == (a * q) * m + a * r;
    ModAddMultiple(a * r + c, a * q, m);
  }

  lemma SumResidue(m: nat, a: nat, c: nat, s: nat, t: nat)
    requires m > 0 && t == a * s + 1
    ensures (a * ((c * s) % m) + c) % m == (c * t) % m
  {
    StepResidue(m, a, c, c * s);
    assert c * (a * s + 1) == a * (c * s) + c;
  }

  lemma OrbitStart(m: nat, a: nat, c: nat)
    requires m > 0
    ensures Orbit(m, a, c, 0) == 0
  {
  }

  lemma OrbitStep(m: nat, a: nat, c: nat, n: nat)
    requires m > 0 && n > 0
    ensures Orbit(m, a, c, n) == (a * Orbit(m, a, c, n - 1) + c) % m
  {
    hide Affine, Orbit;
    OrbitUnfolds(m, a, c, n);
    AffineUnfolds(m, a, c, Orbit(m, a, c, n - 1));
  }

  lemma OrbitUnfolds(m: nat, a: nat, c: nat, n: nat)
    requires m > 0 && n > 0
    ensures Orbit(m, a, c, n) == Affine(m, a, c, Orbit(m, a, c, n - 1))
  {
    hide Affine;
  }

  lemma AffineUnfolds(m: nat, a: nat, c: nat, x: nat)
    requires m > 0
    ensures Affine(m, a, c, x) == (a * x + c) % m
  {
  }

  lemma {:induction false} OrbitIsSum(m: nat, a: nat, c: nat, n: nat)
    requires m > 0
    ensures Orbit(m, a, c, n) == (c * Sum(a, n)) % m
  {
    if n == 0 {
      assert c * Sum(a, 0) == 0;
    } else {
      hide Orbit, Sum;
      OrbitIsSum(m, a, c, n - 1);
      OrbitStep(m, a, c, n);
      SumStep(a, n);
      SumResidue(m, a, c, Sum(a, n - 1), Sum(a, n));
    }
  }

  lemma SameResidue(x: int, y: int, m: int)
    requires m > 0 && x % m == y % m
    ensures (y - x) % m == 0
  {
    DivMod(x, m);
    DivMod(y, m);
    assert y - x == (y / m - x / m) * m;
    ModMultiple(y / m - x / m, m);
  }

  /** Equal values of the orbit make the sum over the steps between them a multiple of the modulus, up to
      the increment and a power of the multiplier. */
  lemma OrbitMeets(m: nat, a: nat, c: nat, i: nat, d: nat)
    requires m > 0 && Orbit(m, a, c, i) == Orbit(m, a, c, d + i)
    ensures (c * (Power(a, i) * Sum(a, d))) % m == 0
  {
    hide Orbit, Sum, Power;
    OrbitIsSum(m, a, c, i);
    OrbitIsSum(m, a, c, d + i);
    SumSplits(a, d, i);
    var x, y := Power(a, i) * Sum(a, d), Sum(a, i);
    assert c * (x + y) == c * x + c * y;
    SameResidue(c * y, c * (x + y), m);
  }

  /** Two steps of the orbit less than 2^k apart differ. */
  lemma OrbitApart(k: nat, a: nat, c: nat, i: nat, j: nat)
    requires CheckHullDobell(Pow2(k), a, c) && (k == 1 ==> a % 2 == 1)
    requires i < j < i + Pow2(k)
    ensures Orbit(Pow2(k), a, c, i) != Orbit(Pow2(k), a, c, j)
  {
    hide Orbit, Sum, Power, Gcd;
    var m, d := Pow2(k), j - i;
    if k > 0 && Orbit(m, a, c, i) == Orbit(m, a, c, j) {
      CoprimeIsOdd(k, c);
      CheckedMultiplier(k, a, c);
      OrbitMeets(m, a, c, i, d);
      OddFactor(k, c, Power(a, i) * Sum(a, d));
      PowerOdd(a, i);
      OddFactor(k, Power(a, i), Sum(a, d));
      SumValuation(k, a, d);
      DivModUnique(d, 0, d, m);
    }
  }

  lemma PowStep(k: nat)
    ensures Pow2(k + 1) == 2 * Pow2(k) && Pow2(0) == 1
  {
  }

  lemma FourDivides(k: nat)
    ensures k > 0 ==> Pow2(k) % 2 == 0
    ensures k > 1 <==> Pow2(k) % 4 == 0
  {
    hide Pow2;
    if k > 0 {
      PowStep(k - 1);
    }
    if k > 1 {
      PowStep(k - 2);
      assert Pow2(k) == 4 * Pow2(k - 2);
    } else {
      PowStep(0);
    }
  }

  lemma OneMod4(a: int)
    requires (a - 1) % 4 == 0
    ensures a % 4 == 1 && a % 2 == 1
  {
    DivMod(a - 1, 4);
  }

  lemma CheckedMultiplier(k: nat, a: nat, c: nat)
    requires CheckHullDobell(Pow2(k), a, c) && (k == 1 ==> a % 2 == 1)
    ensures (k > 1 ==> a % 4 == 1) && (k > 0 ==> a % 2 == 1)
  {
    hide Gcd, Pow2;
    FourDivides(k);
    if k > 1 {
      OneMod4(a);
    }
  }

  // ---------- a permutation of the range ----------

  /** Each of 0 .. m - 1 exactly once. */
  ghost predicate IsPermutation(outs: seq<nat>, m: nat) {
    && |outs| == m
    && (forall i, j :: 0 <= i < j < m ==> outs[i] != outs[j])
    && (forall v: nat :: v < m ==> v in outs)
  }

  /** The first `m` results of Next. */
  function Outputs(m: nat, a: nat, c: nat): seq<nat>
    requires m > 0
  {
    seq(m, n requires n >= 0 => Orbit(m, a, c, n + 1))
  }

  /** 2^k different values below 2^k are all of them. */
  lemma {:induction false} Pigeonhole(s: set<nat>, m: nat)
    requires forall v :: v in s ==> v < m
    ensures |s| <= m
    ensures |s| == m ==> forall v: nat :: v < m ==> v in s
    decreases m
  {
    if m > 0 {
      var t := s - {m - 1};
      Pigeonhole(t, m - 1);
      assert s == if m - 1 in s then t + {m - 1} else t;
    } else {
      assert s == {};
    }
  }

  function ToSet(outs: seq<nat>): set<nat> {
    set v | v in outs
  }

  lemma {:induction false} Elements(outs: seq<nat>)
    requires forall i, j :: 0 <= i < j < |outs| ==> outs[i] != outs[j]
    ensures |ToSet(outs)| == |outs|
    decreases |outs|
  {
    if outs == [] {
      assert ToSet(outs) == {};
    } else {
      var k := |outs| - 1;
      Elements(outs[..k]);
      assert outs[k] !in outs[..k];
      assert outs == outs[..k] + [outs[k]];
      assert ToSet(outs) == ToSet(outs[..k]) + {outs[k]};
    }
  }

  /** The multiplier and increment for which the generator visits the whole range of 2^k addresses. */
  predicate FullPeriodParameters(k: nat, a: nat, c: nat) {
    CheckHullDobell(Pow2(k), a, c) && (k == 1 ==> a % 2 == 1)
  }

  lemma OutputsPermute(k: nat, a: nat, c: nat)
    requires FullPeriodParameters(k, a, c)
    ensures IsPermutation(Outputs(Pow2(k), a, c), Pow2(k))
  {
    hide Orbit, Pow2, CheckHullDobell;
    var m := Pow2(k);
    var outs := Outputs(m, a, c);
    forall i, j | 0 <= i < j < m ensures outs[i] != outs[j] {
      OrbitApart(k, a, c, i + 1, j + 1);
    }
    forall i | 0 <= i < m ensures outs[i] < m {
      OrbitBound(m, a, c, i + 1);
    }
    Elements(outs);
    var s := ToSet(outs);
    Pigeonhole(s, m);
    forall v: nat | v < m ensures v in outs {
      assert v in s;
    }
  }

  lemma AffineParity(m: nat, a: nat, c: nat, x: nat)
    requires m > 0 && m % 2 == 0 && (a % 2 == 0 || x % 2 == 0)
    ensures ((a * x + c) % m) % 2 == c % 2
  {
    var p := a * x;
    assert p % 2 == 0 by {
      if a % 2 == 0 {
        EvenProduct(x, a);
      } else {
        EvenProduct(a, x);
      }
    }
    Shrink(p + c, m, 2);
  }

  lemma StepParity(m: nat, a: nat, c: nat, n: nat)
    requires m > 0 && m % 2 == 0 && n > 0 && (a % 2 == 0 || Orbit(m, a, c, n - 1) % 2 == 0)
    ensures Orbit(m, a, c, n) % 2 == c % 2
  {
    hide Orbit;
    OrbitStep(m, a, c, n);
    AffineParity(m, a, c, Orbit(m, a, c, n - 1));
  }

  /** An even increment, or an even multiplier, keeps all outputs to one parity. */
  lemma {:induction false} OneParity(m: nat, a: nat, c: nat, n: nat)
    requires m > 0 && m % 2 == 0 && (a % 2 == 0 || c % 2 == 0) && n > 0
    ensures Orbit(m, a, c, n) % 2 == c % 2
  {
    hide Orbit;
    OrbitStart(m, a, c);
    if n > 1 {
      OneParity(m, a, c, n - 1);
    }
    StepParity(m, a, c, n);
  }

  lemma StepResidue4(m: nat, a: nat, c: nat, n: nat)
    requires m > 0 && m % 4 == 0 && a % 4 == 3 && n > 0
    ensures Orbit(m, a, c, n) % 4 == (3 * Orbit(m, a, c, n - 1) + c) % 4
  {
    hide Orbit;
    OrbitStep(m, a, c, n);
    ThreeTimes(m, a, c, Orbit(m, a, c, n - 1));
  }

  /** Taking 3x + c twice comes back to the start modulo 4. */
  lemma ThirdTurn(x: nat, c: nat)
    ensures x % 4 == 0 ==> (3 * x + c) % 4 == c % 4
    ensures x % 4 == c % 4 ==> (3 * x + c) % 4 == 0
  {
    var p, q := x / 4, c / 4;
    DivMod(x, 4);
    DivMod(c, 4);
    if x % 4 == 0 {
      assert 3 * x + c == c + (3 * p) * 4;
      ModAddMultiple(c, 3 * p, 4);
    }
    if x % 4 == c % 4 {
      assert 3 * x + c == (3 * p + q + c % 4) * 4;
      ModMultiple(3 * p + q + c % 4, 4);
    }
  }

  /** A multiplier of 3 modulo 4 keeps all outputs to two residues modulo 4. */
  lemma {:induction false} TwoResidues(m: nat, a: nat, c: nat, n: nat)
    requires m > 0 && m % 4 == 0 && a % 4 == 3
    ensures Orbit(m, a, c, n) % 4 == if n % 2 == 0 then 0 else c % 4
  {
    hide Orbit;
    OrbitStart(m, a, c);
    if n > 0 {
      TwoResidues(m, a, c, n - 1);
      StepResidue4(m, a, c, n);
      ThirdTurn(Orbit(m, a, c, n - 1), c);
    }
  }

  lemma ThreeTimes(m: nat, a: nat, c: nat, x: nat)
    requires m > 0 && m % 4 == 0 && a % 4 == 3
    ensures ((a * x + c) % m) % 4 == (3 * x + c) % 4
  {
    Shrink(a * x + c, m, 4);
    var h := a / 4;
    assert a * x == (4 * h + 3) * x == 3 * x + (h * x) * 4;
    ModAddMultiple(3 * x + c, h * x, 4);
  }

  lemma Appears(m: nat, a: nat, c: nat, v: nat) returns (n: nat)
    requires m > 0 && v < m && IsPermutation(Outputs(m, a, c), m)
    ensures 0 < n && Orbit(m, a, c, n) == v
  {
    hide Orbit;
    var outs := Outputs(m, a, c);
    assert v in outs;
    var i :| 0 <= i < m && outs[i] == v;
    n := i + 1;
  }

  lemma NeedsOdd(m: nat, a: nat, c: nat)
    requires m > 0 && m % 2 == 0 && IsPermutation(Outputs(m, a, c), m)
    ensures a % 2 == 1 && c % 2 == 1
  {
    hide Orbit, Outputs, IsPermutation;
    if a % 2 == 0 || c % 2 == 0 {
      var n := Appears(m, a, c, 1 - c % 2);
      OneParity(m, a, c, n);
    }
  }

  lemma NeedsOneMod4(m: nat, a: nat, c: nat)
    requires m > 0 && m % 4 == 0 && IsPermutation(Outputs(m, a, c), m)
    ensures a % 4 != 3
  {
    hide Orbit, Outputs, IsPermutation;
    if a % 4 == 3 {
      var n := Appears(m, a, c, if c % 4 == 2 then 1 else 2);
      TwoResidues(m, a, c, n);
    }
  }

  lemma PermutationNeeds(k: nat, a: nat, c: nat)
    requires IsPermutation(Outputs(Pow2(k), a, c), Pow2(k))
    ensures FullPeriodParameters(k, a, c)
  {
    hide Orbit, Gcd, Outputs, IsPermutation, Pow2;
    CoprimeIsOdd(k, c);
    FourDivides(k);
    if k > 0 {
      NeedsOdd(Pow2(k), a, c);
    }
    if k > 1 {
      NeedsOneMod4(Pow2(k), a, c);
      ThreeOrOne(a);
    }
  }

  lemma ThreeOrOne(a: nat)
    requires a % 2 == 1 && a % 4 != 3
    ensures (a - 1) % 4 == 0
  {
    var h := a / 2;
    DivMod(a, 2);
    DivMod(h, 2);
    if h % 2 == 0 {
      DivModUnique(a - 1, h / 2, 0, 4);
    } else {
      DivModUnique(a, h / 2, 3, 4);
    }
  }

  /** The generator over a range of 2^k addresses visits every address exactly once in its first 2^k
      outputs if and only if the parameters pass the check, and for two addresses the multiplier is odd. */
  lemma HullDobell(k: nat, a: nat, c: nat)
    ensures IsPermutation(Outputs(Pow2(k), a, c), Pow2(k)) <==> FullPeriodParameters(k, a, c)
  {
    if FullPeriodParameters(k, a, c) {
      OutputsPermute(k, a, c);
    } else if IsPermutation(Outputs(Pow2(k), a, c), Pow2(k)) {
      PermutationNeeds(k, a, c);
    }
  }

  /** For a range of two addresses the check lets a multiplier through that visits only one of them. */
  lemma TwoAddresses()
    ensures CheckHullDobell(Pow2(1), 0, 1) && !IsPermutation(Outputs(Pow2(1), 0, 1), Pow2(1))
  {
    hide Orbit, Outputs, IsPermutation, Gcd, Pow2;
    PowStep(0);
    CoprimeIsOdd(1, 1);
    if IsPermutation(Outputs(Pow2(1), 0, 1), Pow2(1)) {
      PermutationNeeds(1, 0, 1);
    }
  }

  // ---------- the generator ----------

  class LCG {
    const modulus: nat
    const multiplier: nat
    const increment: nat
    var current: nat
    ghost var calls: nat

    ghost predicate Valid()
      reads this
    {
      && modulus > 0 && CheckHullDobell(modulus, multiplier, increment)
      && current == Orbit(modulus, multiplier, increment, calls)
    }

    constructor (modulus: nat, multiplier: nat, increment: nat)
      requires modulus > 0 && CheckHullDobell(modulus, multiplier, increment)
      ensures Valid() && calls == 0 && this.modulus == modulus && this.multiplier == multiplier && this.increment == increment
    {
      this.modulus, this.multiplier, this.increment := modulus, multiplier, increment;
      current, calls := 0, 0;
    }

    /** -1 stands for nil, which is never returned. */
    method Next() returns (next: int)
      requires Valid()
      modifies this
      ensures Valid() && calls == old(calls) + 1 && next == Orbit(modulus, multiplier, increment, calls)
      ensures next == (multiplier * old(current) + increment) % modulus
    {
      hide Gcd, CheckHullDobell, Orbit;
      OrbitStep(modulus, multiplier, increment, calls + 1);
      OrbitBound(modulus, multiplier, increment, calls);
      if current == modulus {
        return -1;
      }
      next := multiplier * current;
      next := next + increment;
      next := next % modulus;
      current := next;
      calls := calls + 1;
    }
  }

  /** NewLCG: draw parameters until a pair passes; `draws` are the random pairs, one of which passes. */
  method NewLCG(size: nat, draws: seq<(nat, nat)>) returns (lcg: LCG)
    requires size > 0 && exists d :: d in draws && CheckHullDobell(size, d.0, d.1)
    ensures fresh(lcg) && lcg.Valid() && lcg.calls == 0 && lcg.modulus == size
    ensures exists i :: 0 <= i < |draws| && draws[i] == (lcg.multiplier, lcg.increment)
                        && forall j :: 0 <= j < i ==> !CheckHullDobell(size, draws[j].0, draws[j].1)
  {
    var i := 0;
    while !CheckHullDobell(size, draws[i].0, draws[i].1)
      invariant 0 <= i < |draws|
      invariant forall j :: 0 <= j < i ==> !CheckHullDobell(size, draws[j].0, draws[j].1)
      invariant exists k :: i <= k < |draws| && CheckHullDobell(size, draws[k].0, draws[k].1)
      decreases |draws| - i
    {
      i := i + 1;
    }
    lcg := new LCG(size, draws[i].0, draws[i].1);
    assert draws[i] == (lcg.multiplier, lcg.increment);
  }

  /** A generator over a range of at least four addresses (or one) yields every offset exactly once. */
  method WalkRange(is4: bool, prefixBits: nat, draws: seq<(nat, nat)>) returns (outs: seq<nat>)
    requires prefixBits <= if is4 then 32 else 128
    requires exists d :: d in draws && CheckHullDobell(IpRangeSize(is4, prefixBits), d.0, d.1)
    ensures prefixBits != (if is4 then 31 else 127) ==> IsPermutation(outs, IpRangeSize(is4, prefixBits))
  {
    var size := IpRangeSize(is4, prefixBits);
    var lcg := NewLCG(size, draws);
    outs := [];
    for n := 0 to size
      invariant lcg.Valid() && lcg.calls == n && lcg.modulus == size && |outs| == n
      invariant forall i :: 0 <= i < n ==> outs[i] == Orbit(size, lcg.multiplier, lcg.increment, i + 1)
    {
      var next := lcg.Next();
      outs := outs + [next];
    }
    assert outs == Outputs(size, lcg.multiplier, lcg.increment);
    HullDobell((if is4 then 32 else 128) - prefixBits, lcg.multiplier, lcg.increment);
  }
}
