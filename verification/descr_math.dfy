/**
 * The small integer helpers of `numpy/core/_internal.py`: `_gcd`, `_lcm`
 * and `_prod`, used for field alignment when a PEP 3118 buffer format is
 * turned into a dtype.
 */
module DescrMath {

  /** `d` divides `n`. */
  predicate Divides(d: nat, n: nat) {
    d > 0 && n % d == 0
  }

  /** A multiple of `d` minus or plus a multiple of `d` is one too. */
  lemma DividesLinear(d: nat, x: nat, y: nat, q: int)
    requires Divides(d, x) && Divides(d, y) && x + q * y >= 0
    ensures Divides(d, x + q * y)
  {
    var a, b := x / d, y / d;
    assert x == d * a;
    assert y == d * b;
    assert x + q * y == d * (a + q * b) by {
      assert q * y == q * (d * b) == d * (q * b);
    }
    MultipleMod(d, a + q * b);
  }

  lemma MultipleMod(d: nat, k: int)
    requires d > 0 && d * k >= 0
    ensures (d * k) % d == 0 && (d * k) / d == k
  {
    DivModUnique(d * k, d, k, 0);
  }

  /** Division and remainder are the only quotient and remainder. */
  lemma DivModUnique(x: int, d: int, q: int, r: int)
    requires d > 0 && 0 <= r < d && x == d * q + r
    ensures x / d == q && x % d == r
  {
    var q0, r0 := x / d, x % d;
    assert d * (q - q0) == r0 - r by {
      assert d * (q - q0) == d * q - d * q0;
    }
    assert d * (q0 - q) == r - r0 by {
      assert d * (q0 - q) == d * q0 - d * q;
    }
    if q - q0 >= 1 {
      MulAtLeast(d, q - q0);
      assert false;
    } else if q0 - q >= 1 {
      MulAtLeast(d, q0 - q);
      assert false;
    }
  }

  lemma MulAtLeast(d: int, m: int)
    requires d > 0 && m >= 1
    ensures d * m >= d
  {
    assert d * m == d * (m - 1) + d;
  }

  /** Euclid's step keeps the common divisors. */
  lemma EuclidStep(a: nat, b: nat, d: nat)
    requires b > 0
    ensures Divides(d, a) && Divides(d, b) <==> Divides(d, b) && Divides(d, a % b)
  {
    var q, r := a / b, a % b;
    assert a == r + q * b;
    if Divides(d, a) && Divides(d, b) {
      EuclidDown(a, b, d, q, r);
    }
    if Divides(d, b) && Divides(d, r) {
      DividesLinear(d, r, b, q);
    }
  }

  lemma EuclidDown(a: nat, b: nat, d: nat, q: int, r: nat)
    requires a == r + q * b && Divides(d, a) && Divides(d, b)
    ensures Divides(d, r)
  {
    assert r == a + (-q) * b;
    DividesLinear(d, a, b, -q);
  }

  /** `_gcd`: Euclid's algorithm. Alignments are positive, so the
      operands are natural numbers. */
  method Gcd(a: nat, b: nat) returns (g: nat)
    ensures g == 0 <==> a == 0 && b == 0
    // a common divisor, and every common divisor divides it
    ensures g > 0 ==> Divides(g, a) && Divides(g, b)
    ensures forall d: nat :: Divides(d, a) && Divides(d, b) ==> Divides(d, g) || g == 0
    ensures forall d: nat :: Divides(d, a) && Divides(d, b) ==> d <= g || g == 0
    ensures g == GcdOf(a, b)
  {
    var x, y := a, b;
    while y != 0
      invariant x == 0 && y == 0 <==> a == 0 && b == 0
      invariant forall d: nat :: Divides(d, x) && Divides(d, y) <==> Divides(d, a) && Divides(d, b)
      invariant GcdOf(x, y) == GcdOf(a, b)
      decreases y
    {
      forall d: nat ensures Divides(d, x) && Divides(d, y) <==> Divides(d, y) && Divides(d, x % y) {
        EuclidStep(x, y, d);
      }
      assert GcdOf(x, y) == GcdOf(y, x % y);
      x, y := y, x % y;
    }
    g := x;
    GcdIsGreatest(a, b, g);
  }

  /** What the loop leaves: the common divisors of `a` and `b` are those
      of `g`, so `g` is the greatest of them. */
  lemma GcdIsGreatest(a: nat, b: nat, g: nat)
    requires forall d: nat :: Divides(d, g) && Divides(d, 0) <==> Divides(d, a) && Divides(d, b)
    ensures g > 0 ==> Divides(g, a) && Divides(g, b)
    ensures forall d: nat :: Divides(d, a) && Divides(d, b) ==> Divides(d, g) || g == 0
    ensures forall d: nat :: Divides(d, a) && Divides(d, b) ==> d <= g || g == 0
  {
    if g > 0 {
      assert Divides(g, g) && Divides(g, 0);
      forall d: nat | Divides(d, a) && Divides(d, b) ensures d <= g {
        assert Divides(d, g);
      }
    }
  }

  function GcdOf(a: nat, b: nat): nat
    decreases b
  {
    if b == 0 then a else GcdOf(b, a % b)
  }

  /** The common divisors of `a` and `b` are the divisors of their gcd. */
  lemma {:induction false} GcdOfDivisors(a: nat, b: nat, d: nat)
    ensures Divides(d, a) && Divides(d, b) <==> Divides(d, GcdOf(a, b))
    decreases b
  {
    if b > 0 {
      EuclidStep(a, b, d);
      GcdOfDivisors(b, a % b, d);
    }
  }

  /** Scaling both operands scales the gcd. */
  lemma {:induction false} GcdOfScaled(a: nat, b: nat, x: nat)
    requires x > 0
    ensures GcdOf(a * x, b * x) == GcdOf(a, b) * x
    decreases b
  {
    if b > 0 {
      ModScaled(a, b, x);
      GcdOfScaled(b, a % b, x);
    }
  }

  lemma ModScaled(a: nat, b: nat, x: nat)
    requires b > 0 && x > 0
    ensures b * x > 0 && (a * x) % (b * x) == (a % b) * x
  {
    var q, r := a / b, a % b;
    assert a * x == (b * x) * q + r * x by {
      assert a == b * q + r;
      assert a * x == (b * q + r) * x == (b * q) * x + r * x;
      assert (b * q) * x == (b * x) * q;
    }
    assert r * x < b * x by {
      assert (b - r) * x > 0 by {
        MulAtLeast(x, b - r);
      }
      assert b * x - r * x == (b - r) * x;
    }
    DivModUnique(a * x, b * x, q, r * x);
  }

  /** Euclid's lemma: a divisor of `k * x` that shares nothing with `k`
      divides `x`. */
  lemma Coprime(k: nat, n: nat, x: nat)
    requires x > 0 && GcdOf(k, n) == 1 && Divides(n, k * x)
    ensures Divides(n, x)
  {
    MultipleMod(n, x);
    assert n * x == x * n;
    GcdOfDivisors(k * x, n * x, n);
    GcdOfScaled(k, n, x);
  }

  /** `_lcm(a, b) = a / gcd(a, b) * b`. The source divides with true
      division; the quotient is exact because the gcd divides `a`. */
  method Lcm(a: nat, b: nat) returns (l: nat)
    requires a > 0 && b > 0
    ensures Divides(a, l) && Divides(b, l)
    ensures 0 < l <= a * b
    // the least common multiple: it divides every common multiple
    ensures forall m: nat :: Divides(a, m) && Divides(b, m) ==> Divides(l, m)
    ensures l * GcdOf(a, b) == a * b
  {
    var g := Gcd(a, b);
    LcmFacts(a, b, g);
    LcmLeast(a, b, g);
    l := a / g * b;
  }

  lemma LcmLeast(a: nat, b: nat, g: nat)
    requires a > 0 && b > 0 && Divides(g, a) && Divides(g, b) && g == GcdOf(a, b)
    ensures var l := a / g * b; l * g == a * b
    ensures var l := a / g * b; forall m: nat :: Divides(a, m) && Divides(b, m) ==> Divides(l, m)
  {
    var k := ExactQuotient(a, g);
    var n := ExactQuotient(b, g);
    Swap3(k, b, g);
    CoprimeCofactors(a, b, g, k, n);
    forall m: nat | Divides(a, m) && Divides(b, m) ensures Divides(k * b, m) {
      LeastMultiple(k, n, g, m);
    }
  }

  lemma Swap3(k: nat, b: nat, g: nat)
    ensures (k * b) * g == (g * k) * b
  {
  }

  /** Dividing out the gcd leaves coprime cofactors. */
  lemma CoprimeCofactors(a: nat, b: nat, g: nat, k: nat, n: nat)
    requires g > 0 && a == g * k && b == g * n && g == GcdOf(a, b)
    ensures GcdOf(k, n) == 1
  {
    var h := GcdOf(k, n);
    assert k * g == a && n * g == b;
    GcdOfScaled(k, n, g);
    assert h * g == g;
    assert g * h == g * 1;
    Cancel(g, h, 1);
  }

  /** With `a = g * k` and `b = g * n` for coprime `k` and `n`, every
      common multiple of `a` and `b` is a multiple of `k * (g * n)`. */
  lemma LeastMultiple(k: nat, n: nat, g: nat, m: nat)
    requires k > 0 && n > 0 && g > 0 && GcdOf(k, n) == 1
    requires Divides(g * k, m) && Divides(g * n, m)
    ensures Divides(k * (g * n), m)
  {
    MulAtLeast(g, n);
    MulAtLeast(k, g * n);
    var z := 0;
    if m > 0 {
      z := CommonCofactor(k, n, g, m);
    }
    DividesMultiple(k * (g * n), m, z);
  }

  lemma DividesMultiple(d: nat, m: nat, z: nat)
    requires d > 0 && m == d * z
    ensures Divides(d, m)
  {
    MultipleMod(d, z);
  }

  /** The cofactor of a positive common multiple over `k * (g * n)`. */
  lemma CommonCofactor(k: nat, n: nat, g: nat, m: nat) returns (z: nat)
    requires k > 0 && n > 0 && g > 0 && GcdOf(k, n) == 1
    requires m > 0 && Divides(g * k, m) && Divides(g * n, m)
    ensures m == (k * (g * n)) * z
  {
    var x := ExactQuotient(m, g * k);
    CofactorDivides(k, n, g, m, x);
    z := ExactQuotient(x, n);
    Regroup3(g, k, n, z, x, m);
  }

  /** The cofactor of `m` over `g * k` is a multiple of `n`. */
  lemma CofactorDivides(k: nat, n: nat, g: nat, m: nat, x: nat)
    requires k > 0 && n > 0 && g > 0 && GcdOf(k, n) == 1
    requires m > 0 && m == (g * k) * x && Divides(g * n, m)
    ensures x > 0 && Divides(n, x)
  {
    var y := ExactQuotient(m, g * n);
    Regroup2(g, k, x, n, y, m);
    Cancel(g, k * x, n * y);
    MultipleMod(n, y);
    Coprime(k, n, x);
  }

  lemma Regroup2(g: nat, k: nat, x: nat, n: nat, y: nat, m: nat)
    requires m == (g * k) * x && m == (g * n) * y
    ensures g * (k * x) == g * (n * y)
  {
  }

  lemma Regroup3(g: nat, k: nat, n: nat, z: nat, x: nat, m: nat)
    requires m == (g * k) * x && x == n * z
    ensures m == (k * (g * n)) * z
  {
  }

  lemma Cancel(g: nat, u: nat, v: nat)
    requires g > 0 && g * u == g * v
    ensures u == v
  {
    if u < v {
      Distribute(g, v, u);
      MulAtLeast(g, v - u);
      assert false;
    } else if v < u {
      Distribute(g, u, v);
      MulAtLeast(g, u - v);
      assert false;
    }
  }

  lemma Distribute(g: nat, u: nat, v: nat)
    requires v <= u
    ensures g * u - g * v == g * (u - v)
  {
  }

  lemma LcmFacts(a: nat, b: nat, g: nat)
    requires a > 0 && b > 0 && Divides(g, a) && Divides(g, b)
    ensures var l := a / g * b; Divides(a, l) && Divides(b, l) && 0 < l <= a * b
  {
    var k := ExactQuotient(a, g);
    var m := ExactQuotient(b, g);
    var l := k * b;
    MultipleMod(b, k);
    Regroup(g, k, m);
    MultipleMod(a, m);
    MulAtLeast(b, k);
    MulMono(k, a, b);
  }

  /** The quotient of an exact division, with the product it undoes. */
  lemma ExactQuotient(n: nat, d: nat) returns (k: nat)
    requires n > 0 && Divides(d, n)
    ensures k == n / d && n == d * k && 1 <= k <= n
  {
    k := n / d;
    MulAtLeast(d, k);
    MulAtLeast(k, d);
  }

  lemma Regroup(g: nat, k: nat, m: nat)
    ensures k * (g * m) == (g * k) * m
  {
  }

  lemma MulMono(k: nat, a: nat, b: nat)
    requires k <= a
    ensures k * b <= a * b
  {
    assert a * b - k * b == (a - k) * b;
  }

  /** The product of a shape's extents, the reference for `_prod`. */
  function Product(s: seq<nat>): nat {
    if s == [] then 1 else Product(s[..|s| - 1]) * s[|s| - 1]
  }

  lemma {:induction false} ProductAppend(a: seq<nat>, b: seq<nat>)
    ensures Product(a + b) == Product(a) * Product(b)
  {
    if b == [] {
      assert a + b == a;
    } else {
      var c := b[..|b| - 1];
      assert (a + b)[..|a + b| - 1] == a + c;
      ProductAppend(a, c);
      calc {
        Product(a + b);
        Product(a + c) * b[|b| - 1];
        (Product(a) * Product(c)) * b[|b| - 1];
        Product(a) * (Product(c) * b[|b| - 1]);
      }
    }
  }

  lemma {:induction false} ProductOfOnes(ones: seq<nat>)
    requires forall i :: 0 <= i < |ones| ==> ones[i] == 1
    ensures Product(ones) == 1
  {
    if ones != [] {
      ProductOfOnes(ones[..|ones| - 1]);
    }
  }

  /** `_prod`: the running product over the extents. */
  method Prod(a: seq<nat>) returns (p: nat)
    ensures p == Product(a)
    ensures (forall i :: 0 <= i < |a| ==> a[i] > 0) <==> p > 0
  {
    p := 1;
    var i := 0;
    while i < |a|
      invariant 0 <= i <= |a|
      invariant p == Product(a[..i])
    {
      assert a[..i + 1][..i] == a[..i];
      p := p * a[i];
      i := i + 1;
    }
    assert a[..i] == a;
    ProductPositive(a);
  }

  lemma {:induction false} ProductPositive(a: seq<nat>)
    ensures (forall i :: 0 <= i < |a| ==> a[i] > 0) <==> Product(a) > 0
  {
    if a != [] {
      var init := a[..|a| - 1];
      ProductPositive(init);
      assert forall i :: 0 <= i < |init| ==> init[i] == a[i];
    }
  }
}
