/** Greatest common divisors and least common multiples (resample.cpp:43-73). */
module Divisors {
  import opened Arithmetic

  ghost predicate Divides(d: nat, m: nat) {
    d > 0 && exists k: nat :: m == k * d
  }

  ghost predicate IsGcd(g: nat, m: nat, n: nat) {
    Divides(g, m) && Divides(g, n) && forall d: nat :: Divides(d, m) && Divides(d, n) ==> Divides(d, g)
  }

  lemma {:induction false} DividesSum(d: nat, a: nat, b: nat)
    requires Divides(d, a)
    ensures Divides(d, a + b) <==> Divides(d, b)
  {
    var k: nat :| a == k * d;
    if Divides(d, b) {
      var l: nat :| b == l * d;
      Distribute(k, l, d);
      assert a + b == (k + l) * d;
    }
    if Divides(d, a + b) {
      var l: nat :| a + b == l * d;
      assert l >= k by { if l < k { MulMono(l + 1, k, d); Distribute(l, 1, d); } }
      Distribute(k, l - k, d);
      assert b == (l - k) * d;
    }
  }

  lemma {:induction false} DividesProduct(d: nat, n: nat, q: nat)
    requires Divides(d, n)
    ensures Divides(d, q * n)
  {
    var k: nat :| n == k * d;
    assert q * (k * d) == (q * k) * d;
  }

  /** Taking a remainder keeps the common divisors. */
  lemma {:induction false} DividesMod(d: nat, m: nat, n: nat)
    requires n > 0
    ensures Divides(d, m) && Divides(d, n) <==> Divides(d, m % n) && Divides(d, n)
  {
    if Divides(d, n) {
      DividesProduct(d, n, m / n);
      DividesSum(d, m / n * n, m % n);
      assert m == m / n * n + m % n;
    }
  }

  lemma {:induction false} DividesZero(d: nat)
    requires d > 0
    ensures Divides(d, 0) && Divides(d, d)
  {
    assert 0 == 0 * d;
    assert d == 1 * d;
  }

  lemma {:induction false} DividesBoth(a: nat, b: nat)
    requires Divides(a, b) && Divides(b, a)
    ensures a == b
  {
    var k: nat :| b == k * a;
    var l: nat :| a == l * b;
    assert k > 0 by { assert 0 * a == 0; }
    assert l > 0 by { assert 0 * b == 0; }
    MulMono(1, k, a);
    MulMono(1, l, b);
  }

  lemma {:induction false} OneGcd(g: nat, h: nat, m: nat, n: nat)
    requires IsGcd(g, m, n) && IsGcd(h, m, n)
    ensures g == h
  {
    DividesBoth(g, h);
  }

  lemma {:induction false} Exact(m: nat, g: nat)
    requires Divides(g, m)
    ensures m == m / g * g && (m > 0 ==> m / g > 0)
  {
    var k: nat :| m == k * g;
    var (q, rest) := (m / g, m % g);
    assert m == q * g + rest;
    Distribute(k - q, q, g);
    if k > q { MulMono(1, k - q, g); }
    if k < q { MulMono(k - q, -1, g); }
    assert 0 * g == 0;
  }

  lemma {:induction false} UnitsOk(rin: nat, rout: nat, g: nat)
    requires rin > 0 && rout > 0 && IsGcd(g, rin, rout)
    ensures g > 0 && rin / g > 0 && rout / g > 0 && rin * (rout / g) == rout * (rin / g)
    ensures g * (rin / g) * (rout / g) == rin * (rout / g)
  {
    Exact(rin, g);
    Exact(rout, g);
    var (a, b) := (rin / g, rout / g);
    assert a * g * b == b * g * a;
    assert g * a == a * g;
  }

  // ---------- negative numbers ----------

  function Abs(m: int): nat {
    if m >= 0 then m else -m
  }

  /** The remainder of a division that truncates toward zero. */
  function TruncMod(m: int, n: int): int
    requires n != 0
  {
    if m >= 0 then m % Abs(n) else -((-m) % Abs(n))
  }

  lemma AbsMod(m: int, n: int)
    requires n != 0
    ensures Abs(TruncMod(m, n)) == Abs(m) % Abs(n)
  {
  }

  /** The divisor is that of the absolute values. */
  method Gcd(m0: int, n0: int) returns (g: int)
    requires m0 != 0 || n0 != 0
    ensures g >= 0 && IsGcd(g, Abs(m0), Abs(n0))
  {
    hide Divides, IsGcd, TruncMod;
    var m, n := m0, n0;
    if m == 0 || n == 0 {
      g := if m == 0 then (if n > 0 then n else -n) else (if m > 0 then m else -m);
      GcdOfZero(g);
      SameGcd(g, Abs(m), Abs(n));
      return;
    }
    while true
      invariant m != 0 && n != 0
      invariant forall d: nat :: IsGcd(d, Abs(m), Abs(n)) ==> IsGcd(d, Abs(m0), Abs(n0))
      decreases Abs(n)
    {
      AbsMod(m, n);
      ModGcd(Abs(m), Abs(n));
      m := TruncMod(m, n);
      if m == 0 {
        GcdOfZero(Abs(n));
        return if n > 0 then n else -n;
      }
      AbsMod(n, m);
      ModGcd(Abs(n), Abs(m));
      SwapGcd(Abs(n), Abs(m));
      n := TruncMod(n, m);
      if n == 0 {
        GcdOfZero(Abs(m));
        return if m > 0 then m else -m;
      }
    }
  }

  lemma {:induction false} GcdOfZero(g: nat)
    requires g > 0
    ensures IsGcd(g, 0, g) && IsGcd(g, g, 0)
  {
    DividesZero(g);
    forall d: nat
      ensures Divides(d, g) ==> Divides(d, 0)
    {
      if d > 0 { DividesZero(d); }
    }
  }

  lemma {:induction false} SameGcd(g: nat, m: nat, n: nat)
    requires IsGcd(g, 0, g) && IsGcd(g, g, 0)
    ensures (m == 0 && n == g) || (n == 0 && m == g) ==> IsGcd(g, m, n)
  {
  }

  lemma {:induction false} SwapGcd(m: nat, n: nat)
    ensures forall d: nat :: IsGcd(d, m, n) <==> IsGcd(d, n, m)
  {
    hide Divides;
  }

  /** Taking a remainder keeps the greatest common divisor. */
  lemma {:induction false} ModGcd(m: nat, n: nat)
    requires n > 0
    ensures forall d: nat :: (IsGcd(d, m, n) <==> IsGcd(d, m % n, n)) && (IsGcd(d, m, n) <==> IsGcd(d, n, m % n))
  {
    hide Divides;
    forall d: nat
      ensures Divides(d, m) && Divides(d, n) <==> Divides(d, m % n) && Divides(d, n)
    {
      DividesMod(d, m, n);
    }
  }

  lemma {:induction false} GcdExists(m: nat, n: nat) returns (g: nat)
    requires m > 0
    ensures IsGcd(g, m, n)
    decreases n
  {
    hide IsGcd;
    if n == 0 {
      g := m;
      GcdOfZero(g);
    } else {
      ModGcd(m, n);
      g := GcdExists(n, m % n);
    }
  }

  // ---------- least common multiples ----------

  ghost predicate IsLcm(l: nat, m: nat, n: nat) {
    Divides(m, l) && Divides(n, l) && forall d: nat :: Divides(m, d) && Divides(n, d) ==> Divides(l, d)
  }

  /** A common multiple that divides the product over the divisor is that quotient. */
  lemma {:induction false} NoSmaller(h: nat, g: nat, m: nat, n: nat, b: nat)
    requires m > 0 && n > 0 && IsGcd(g, m, n) && n == b * g
    requires Divides(m, h) && Divides(n, h) && Divides(h, m * b)
    ensures h == m * b
  {
    var s: nat :| m * b == s * h;
    var t: nat :| h == t * m;
    var u: nat :| h == u * n;
    var sg := s * g;
    Positives(m, b, g, n, s, h);
    assert n * m == t * sg * m by { Shuffle(m, b, g, n, s, h, t); }
    assert m * n == u * sg * n by { Shuffle'(m, b, g, n, s, h, u); }
    CancelNat(n, t * sg, m);
    CancelNat(m, u * sg, n);
    assert Divides(sg, n) && Divides(sg, m);
    assert Divides(sg, g);
    var v: nat :| g == v * sg;
    One(v, s, g);
  }

  lemma Positives(m: nat, b: nat, g: nat, n: nat, s: nat, h: nat)
    requires m > 0 && n > 0 && n == b * g && m * b == s * h
    ensures s > 0 && g > 0 && s * g > 0
  {
    assert b == 0 || g == 0 ==> b * g == 0;
    assert s == 0 ==> s * h == 0;
    assert b > 0 ==> m * b > 0;
  }

  lemma Shuffle(m: nat, b: nat, g: nat, n: nat, s: nat, h: nat, t: nat)
    requires n == b * g && m * b == s * h && h == t * m
    ensures n * m == t * (s * g) * m
  {
    calc {
      n * m;
      (m * b) * g;
      (s * (t * m)) * g;
      t * (s * g) * m;
    }
  }

  lemma Shuffle'(m: nat, b: nat, g: nat, n: nat, s: nat, h: nat, u: nat)
    requires n == b * g && m * b == s * h && h == u * n
    ensures m * n == u * (s * g) * n
  {
    calc {
      m * n;
      (m * b) * g;
      (s * (u * n)) * g;
      u * (s * g) * n;
    }
  }

  lemma CancelNat(a: int, b: int, c: nat)
    requires c > 0 && a * c == b * c
    ensures a == b
  {
    if a < b { MulMono(a + 1, b, c); Distribute(a, 1, c); }
    if b < a { MulMono(b + 1, a, c); Distribute(b, 1, c); }
  }

  lemma One(v: nat, s: nat, g: nat)
    requires g > 0 && g == v * (s * g)
    ensures s == 1
  {
    assert 1 * g == (v * s) * g;
    CancelNat(1, v * s, g);
    assert v == 0 ==> v * s == 0;
    if s > 1 { MulMono(1, v, s); }
  }

  lemma {:induction false} QuotientIsLcm(g: nat, m: nat, n: nat)
    requires m > 0 && n > 0 && IsGcd(g, m, n)
    ensures g > 0 && IsLcm(m * (n / g), m, n)
  {
    UnitsOk(m, n, g);
    Exact(n, g);
    var l := m * (n / g);
    assert m * (n / g) == (n / g) * m && n * (m / g) == (m / g) * n;
    assert Divides(m, l) && Divides(n, l);
    assert l > 0 by { MulMono(1, n / g, m); }
    forall d: nat | Divides(m, d) && Divides(n, d)
      ensures Divides(l, d)
    {
      var h := GcdExists(l, d);
      assert Divides(h, l) && Divides(h, d) && Divides(m, h) && Divides(n, h);
      NoSmaller(h, g, m, n, n / g);
    }
  }

  method Lcm(m: nat, n: nat) returns (l: nat)
    requires m > 0 && n > 0
    ensures IsLcm(l, m, n)
    ensures exists g: nat :: IsGcd(g, m, n) && g > 0 && l == m * (n / g) == n * (m / g)
  {
    hide IsGcd, IsLcm;
    var gcd := Gcd(m, n);
    UnitsOk(m, n, gcd);
    QuotientIsLcm(gcd, m, n);
    l := gcd * (m / gcd) * (n / gcd);
  }
}
