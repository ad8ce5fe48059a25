/** Residues, powers and primes: Euclid's lemma, Fermat's little theorem and the infinitude of primes. */
module Congruences {
  import opened Graphs

  predicate Divides(d: int, n: int)
    requires d > 0
  {
    n % d == 0
  }

  ghost predicate Prime(p: int) {
    p >= 2 && forall d | 2 <= d < p :: !Divides(d, p)
  }

  function Pow(b: int, e: nat): int {
    if e == 0 then 1 else b * Pow(b, e - 1)
  }

  // ----- remainders -----

  /** `t` and the product of `x` and `y` have the same remainder. */
  ghost predicate SameAsProduct(t: int, x: int, y: int, m: int)
    requires m > 0
  {
    t % m == (x * y) % m
  }

  /** Not divisible by `p`. */
  ghost predicate Unit(p: int, a: int)
    requires p > 0
  {
    a % p != 0
  }

  lemma RemainderIs(x: int, m: int, q: int, r: int)
    requires m > 0 && x == m * q + r && 0 <= r < m
    ensures x % m == r && x / m == q
  {
    var k := q - x / m;
    assert m * k == x % m - r by {
      assert m * k == m * q - m * (x / m);
    }
    TimesAtLeast(m, k);
  }

  lemma TimesAtLeast(m: int, k: int)
    requires m > 0
    ensures k >= 1 ==> m * k >= m
    ensures k <= -1 ==> m * k <= -m
  {
  }

  /** Adding a multiple does not change a remainder. */
  lemma AddMultiple(x: int, m: int, k: int)
    requires m > 0
    ensures (x + m * k) % m == x % m
  {
    assert x + m * k == m * (x / m + k) + x % m by {
      assert m * (x / m + k) == m * (x / m) + m * k;
    }
    RemainderIs(x + m * k, m, x / m + k, x % m);
  }

  lemma MulRemainder(x: int, y: int, m: int)
    requires m > 0
    ensures (x * y) % m == (x % m * y) % m
  {
    var q, r := x / m, x % m;
    assert x * y == r * y + m * (q * y) by {
      assert x == m * q + r;
      assert x * y == (m * q + r) * y == m * q * y + r * y;
      assert m * q * y == m * (q * y);
    }
    AddMultiple(r * y, m, q * y);
  }

  lemma MulRemainders(x: int, y: int, m: int)
    requires m > 0
    ensures (x * y) % m == (x % m * (y % m)) % m
  {
    MulRemainder(x, y, m);
    assert x % m * y == y * (x % m) && y % m * (x % m) == x % m * (y % m);
    MulRemainder(y, x % m, m);
  }

  lemma SubRemainders(x: int, y: int, m: int)
    requires m > 0
    ensures (x - y) % m == 0 <==> x % m == y % m
  {
    var k := x / m - y / m;
    assert x - y == (x % m - y % m) + m * k by {
      assert m * k == m * (x / m) - m * (y / m);
    }
    AddMultiple(x % m - y % m, m, k);
    var d := x % m - y % m;
    if d < 0 {
      RemainderIs(d, m, -1, d + m);
    } else {
      RemainderIs(d, m, 0, d);
    }
  }

  lemma MultipleDivides(x: int, k: int, m: int)
    requires m > 0 && x % m == 0
    ensures (x * k) % m == 0
  {
    MulRemainder(x, k, m);
  }

  // ----- powers -----

  lemma {:induction false} PowAdd(b: int, d: nat, e: nat)
    ensures Pow(b, d + e) == Pow(b, d) * Pow(b, e)
  {
    if d > 0 {
      PowAdd(b, d - 1, e);
      assert b * (Pow(b, d - 1) * Pow(b, e)) == (b * Pow(b, d - 1)) * Pow(b, e);
    }
  }

  lemma {:induction false} PowRemainder(b: int, e: nat, m: int)
    requires m > 0
    ensures Pow(b % m, e) % m == Pow(b, e) % m
  {
    if e > 0 {
      PowRemainder(b, e - 1, m);
      MulRemainders(b, Pow(b, e - 1), m);
      MulRemainders(b % m, Pow(b % m, e - 1), m);
      RemainderIs(b % m, m, 0, b % m);
    }
  }

  // ----- Euclid's lemma -----

  lemma {:induction false} EuclidBelow(p: int, a: int, b: int)
    requires Prime(p) && 0 < a < p && (a * b) % p == 0
    ensures b % p == 0
    decreases a
  {
    if a > 1 {
      var q, r := p / a, p % a;
      assert r * b == p * b - q * (a * b) by {
        assert p == a * q + r;
        assert p * b == (a * q + r) * b == a * q * b + r * b;
        assert a * q * b == q * (a * b);
      }
      MultipleDivides(a * b, -q, p);
      assert (a * b) * -q == -(q * (a * b));
      AddMultiple(-(q * (a * b)), p, b);
      assert !Divides(a, p);
      EuclidBelow(p, r, b);
    }
  }

  /** A prime that divides a product divides one of its factors. */
  lemma Euclid(p: int, a: int, b: int)
    requires Prime(p) && (a * b) % p == 0 && a % p != 0
    ensures b % p == 0
  {
    MulRemainder(a, b, p);
    EuclidBelow(p, a % p, b);
  }

  /** Modulo a prime, 1 has no square roots but 1 and -1. */
  lemma RootsOfOne(p: int, x: int)
    requires Prime(p) && (x * x) % p == 1
    ensures x % p == 1 || x % p == p - 1
  {
    RemainderIs(1, p, 0, 1);
    SubRemainders(x * x, 1, p);
    assert x * x - 1 == (x - 1) * (x + 1);
    SubRemainders(x, 1, p);
    SubRemainders(x, -1, p);
    RemainderIs(-1, p, -1, p - 1);
    if (x - 1) % p != 0 {
      Euclid(p, x - 1, x + 1);
    }
  }

  // ----- Fermat's little theorem -----

  ghost function Product(s: set<int>): int
    decreases |s|
  {
    if s == {} then 1 else Least(s) * Product(s - {Least(s)})
  }

  lemma {:induction false} ProductWithout(s: set<int>, x: int)
    requires x in s
    ensures Product(s) == x * Product(s - {x})
    decreases |s|
  {
    var y := Least(s);
    assert Product(s) == y * Product(s - {y});
    if y != x {
      var rest := s - {x} - {y};
      assert s - {y} - {x} == rest;
      ProductWithout(s - {y}, x);
      ProductWithout(s - {x}, y);
      Exchange(x, y, Product(rest));
    }
    hide *;
  }

  lemma Exchange(x: int, y: int, z: int)
    ensures x * (y * z) == y * (x * z)
  {
  }

  lemma {:induction false} ProductNotDivisible(p: int, s: set<int>)
    requires Prime(p) && forall x | x in s :: 0 < x < p
    ensures Unit(p, Product(s))
    decreases |s|
  {
    if s == {} {
      RemainderIs(1, p, 0, 1);
    } else {
      var x := Least(s);
      ProductNotDivisible(p, s - {x});
      if (x * Product(s - {x})) % p == 0 {
        RemainderIs(x, p, 0, x);
        Euclid(p, x, Product(s - {x}));
      }
    }
  }

  ghost function Scaled(a: int, x: int, p: int): int
    requires p > 0
  {
    (a * x) % p
  }

  ghost function Times(a: int, s: set<int>, p: int): set<int>
    requires p > 0
  {
    set x | x in s :: Scaled(a, x, p)
  }

  /** Multiplication by a unit keeps nonzero residues apart. */
  lemma TimesInjective(a: int, p: int, x: int, y: int)
    requires Prime(p) && Unit(p, a) && 0 < x < p && 0 < y < p && (a * x) % p == (a * y) % p
    ensures x == y
  {
    SubRemainders(a * x, a * y, p);
    assert a * x - a * y == a * (x - y);
    Euclid(p, a, x - y);
    SubRemainders(x, y, p);
    RemainderIs(x, p, 0, x);
    RemainderIs(y, p, 0, y);
  }

  lemma {:induction false} TimesProduct(a: int, s: set<int>, p: int)
    requires Prime(p) && Unit(p, a) && forall x | x in s :: 0 < x < p
    ensures |Times(a, s, p)| == |s|
    ensures SameAsProduct(Product(Times(a, s, p)), Pow(a, |s|), Product(s), p)
    decreases |s|
  {
    if s == {} {
      assert Times(a, s, p) == {};
    } else {
      var x := Least(s);
      var rest, y := s - {x}, Scaled(a, x, p);
      TimesProduct(a, rest, p);
      TimesWithout(a, s, p, x);
      ProductWithout(Times(a, s, p), y);
      ProductWithout(s, x);
      hide Unit, SameAsProduct, Prime, Times, Product, Scaled;
      TimesStep(a, x, p, Product(Times(a, rest, p)), Pow(a, |rest|), Product(rest));
      assert |s| == |rest| + 1;
    }
  }

  lemma TimesWithout(a: int, s: set<int>, p: int, x: int)
    requires Prime(p) && Unit(p, a) && x in s && forall z | z in s :: 0 < z < p
    ensures Scaled(a, x, p) in Times(a, s, p) && Times(a, s, p) - {Scaled(a, x, p)} == Times(a, s - {x}, p)
  {
    forall z | z in s && z != x
      ensures Scaled(a, z, p) != Scaled(a, x, p)
    {
      if Scaled(a, z, p) == Scaled(a, x, p) {
        TimesInjective(a, p, x, z);
      }
    }
    hide Scaled;
  }

  lemma TimesStep(a: int, x: int, p: int, t: int, power: int, product: int)
    requires p > 0 && SameAsProduct(t, power, product, p)
    ensures SameAsProduct(Scaled(a, x, p) * t, a * power, x * product, p)
  {
    MulRemainders(a * x, t, p);
    MulRemainders(a * x, power * product, p);
    MulRemainder(a * x, t, p);
    assert (a * x) * (power * product) == (a * power) * (x * product);
  }

  /** The nonzero residues. */
  ghost function Residues(p: nat): (s: set<int>)
    requires p > 0
    ensures |s| == p - 1 && forall x :: x in s <==> 0 < x < p
  {
    if p == 1 then {} else Residues(p - 1) + {p - 1}
  }

  /** Fermat: a number not divisible by a prime p has (p-1)-st power 1 modulo p. */
  lemma Fermat(p: int, a: int)
    requires Prime(p) && Unit(p, a)
    ensures Pow(a, p - 1) % p == 1
  {
    ProductTwice(p, a, Residues(p));
    hide *;
    CancelProduct(p, Pow(a, p - 1), Product(Residues(p)));
  }

  /** The product of the nonzero residues, and that product after each is multiplied by `a`, agree. */
  lemma ProductTwice(p: int, a: int, s: set<int>)
    requires Prime(p) && Unit(p, a) && s == Residues(p)
    ensures Unit(p, Product(s)) && SameAsProduct(Product(s), Pow(a, |s|), Product(s), p)
  {
    hide *;
    TimesProduct(a, s, p);
    UnitsPermute(p, a);
    ProductNotDivisible(p, s);
  }

  /** Multiplication by a unit permutes the nonzero residues. */
  lemma UnitsPermute(p: int, a: int)
    requires Prime(p) && Unit(p, a)
    ensures Times(a, Residues(p), p) == Residues(p)
  {
    var s := Residues(p);
    TimesProduct(a, s, p);
    forall x | x in s
      ensures Scaled(a, x, p) in s
    {
      RemainderIs(x, p, 0, x);
      if (a * x) % p == 0 {
        Euclid(p, a, x);
      }
    }
    hide Residues, Product, Pow, Prime, Scaled;
    assert Times(a, s, p) <= s;
    SubsetSize(Times(a, s, p), s);
  }

  lemma CancelProduct(p: int, power: int, product: int)
    requires Prime(p) && Unit(p, product) && SameAsProduct(product, power, product, p)
    ensures power % p == 1
  {
    SubRemainders(power * product, product, p);
    assert power * product - product == product * (power - 1);
    Euclid(p, product, power - 1);
    SubRemainders(power, 1, p);
    RemainderIs(1, p, 0, 1);
  }

  // ----- there is always another prime -----

  lemma {:induction false} PrimeDivisor(n: int) returns (p: int)
    requires n >= 2
    ensures Prime(p) && p <= n && n % p == 0
    decreases n
  {
    if Prime(n) {
      p := n;
      RemainderIs(n, n, 1, 0);
    } else {
      var d :| 2 <= d < n && Divides(d, n);
      p := PrimeDivisor(d);
      assert n == d * (n / d);
      MultipleDivides(d, n / d, p);
    }
  }

  function Factorial(n: nat): (f: int)
    ensures f >= 1
  {
    if n == 0 then 1 else n * Factorial(n - 1)
  }

  lemma {:induction false} FactorialDivisible(n: nat, d: int)
    requires 1 <= d <= n
    ensures Factorial(n) % d == 0
  {
    if d == n {
      RemainderIs(n, n, 1, 0);
      MultipleDivides(n, Factorial(n - 1), n);
    } else {
      FactorialDivisible(n - 1, d);
      MultipleDivides(Factorial(n - 1), n, d);
      assert Factorial(n - 1) * n == n * Factorial(n - 1);
    }
  }

  /** Euclid: beyond every number there is a prime. */
  lemma PrimeBeyond(n: int) returns (p: int)
    ensures Prime(p) && p > n
  {
    var m: nat := if n < 1 then 1 else n;
    p := PrimeDivisor(Factorial(m) + 1);
    if p <= m {
      FactorialDivisible(m, p);
      SubRemainders(Factorial(m) + 1, 1, p);
      RemainderIs(1, p, 0, 1);
      assert false;
    }
  }
}
