/** The primality test and next-prime search behind the n-gram table sizes. */
module Primes {
  import opened Congruences

  const SMALL: seq<int> := [2, 3, 5, 7, 11, 13, 17, 19, 23, 29, 31, 37]

  const BASES: seq<int> := [2, 325, 9375, 28178, 450775, 9780504, 1795265022]

  function PowMod(base: int, exponent: nat, m: int): int
    requires m > 0
  {
    Pow(base, exponent) % m
  }

  // ----- strong probable primes -----

  /** How often 2 divides a positive number, and what remains. */
  function Twos(n: int): nat
    decreases n
  {
    if n <= 0 || n % 2 == 1 then 0 else 1 + Twos(n / 2)
  }

  function OddPart(n: int): int
    decreases n
  {
    if n <= 0 || n % 2 == 1 then n else OddPart(n / 2)
  }

  lemma {:induction false} OddPartTimesTwos(n: int)
    requires n > 0
    ensures OddPart(n) > 0 && OddPart(n) % 2 == 1 && n == OddPart(n) * Pow(2, Twos(n))
    decreases n
  {
    if n % 2 == 0 {
      OddPartTimesTwos(n / 2);
      var d, power := OddPart(n), Pow(2, Twos(n / 2));
      assert d * (2 * power) == 2 * (d * power);
    }
  }

  lemma {:induction false} PowOfTwoPositive(i: nat)
    ensures Pow(2, i) >= 1
  {
    if i > 0 {
      PowOfTwoPositive(i - 1);
    }
  }

  function Doubled(exponent: nat, i: nat): nat {
    if i == 0 then exponent else 2 * Doubled(exponent, i - 1)
  }

  lemma {:induction false} DoubledIs(exponent: nat, i: nat)
    ensures Doubled(exponent, i) == exponent * Pow(2, i)
  {
    if i > 0 {
      DoubledIs(exponent, i - 1);
      assert exponent * (2 * Pow(2, i - 1)) == 2 * (exponent * Pow(2, i - 1));
    }
  }

  /** The `i`-th of the successive squares of the base's power to the odd part of v - 1. */
  function Witness(v: int, base: int, i: nat): int
    requires v >= 2
  {
    PowMod(base, if OddPart(v - 1) > 0 then Doubled(OddPart(v - 1), i) else 0, v)
  }

  /** The first witness is 1, or some witness before the last squaring is -1. */
  ghost predicate Passes(v: int, base: int)
    requires v >= 2
  {
    || base % v == 0
    || Witness(v, base, 0) == 1
    || exists i :: 0 <= i && (i == 0 || i < Twos(v - 1)) && Witness(v, base, i) == v - 1
  }

  ghost predicate HasSmallDivisor(v: int) {
    exists k | 0 <= k < |SMALL| :: v % SMALL[k] == 0
  }

  /** What the test accepts: the small primes, and numbers free of them that pass for every base. */
  ghost predicate ProbablePrime(v: int) {
    && v >= 2
    && (v in SMALL || (!HasSmallDivisor(v) && forall k | 0 <= k < |BASES| :: Passes(v, BASES[k])))
  }

  // ----- primes always pass -----

  function SquareMod(x: int, m: int): int
    requires m > 0
  {
    (x * x) % m
  }

  lemma WitnessSquared(v: int, base: int, i: nat)
    requires v >= 2
    ensures Witness(v, base, i + 1) == SquareMod(Witness(v, base, i), v)
  {
    if OddPart(v - 1) > 0 {
      var e := Doubled(OddPart(v - 1), i);
      PowAdd(base, e, e);
      MulRemainders(Pow(base, e), Pow(base, e), v);
      assert Doubled(OddPart(v - 1), i + 1) == e + e;
    } else {
      OddPartTimesTwos(v - 1);
    }
  }

  lemma LastWitness(v: int, base: int)
    requires Prime(v) && base % v != 0
    ensures Witness(v, base, Twos(v - 1)) == 1
  {
    OddPartTimesTwos(v - 1);
    DoubledIs(OddPart(v - 1), Twos(v - 1));
    Fermat(v, base);
  }

  /** If no witness is -1, all of them are 1, back to the first. */
  lemma {:induction false} WitnessesAreOne(v: int, base: int, i: nat)
    requires Prime(v) && base % v != 0 && i <= Twos(v - 1)
    requires forall j | 0 <= j < Twos(v - 1) :: Witness(v, base, j) != v - 1
    ensures Witness(v, base, i) == 1
    decreases Twos(v - 1) - i
  {
    if i == Twos(v - 1) {
      LastWitness(v, base);
    } else {
      WitnessesAreOne(v, base, i + 1);
      WitnessSquared(v, base, i);
      var w := Witness(v, base, i);
      RootsOfOne(v, w);
      RemainderIs(w, v, 0, w);
    }
  }

  lemma PrimePasses(v: int, base: int)
    requires Prime(v)
    ensures Passes(v, base)
  {
    if base % v != 0 && forall j | 0 <= j < Twos(v - 1) :: Witness(v, base, j) != v - 1 {
      WitnessesAreOne(v, base, 0);
    }
  }

  lemma PrimeDivisorIsItself(p: int, d: int)
    requires Prime(p) && 2 <= d && p % d == 0
    ensures d == p
  {
    if d < p {
      assert Divides(d, p);
    } else if d > p {
      RemainderIs(p, d, 0, p);
    }
  }

  /** The test never rejects a prime. */
  lemma PrimesPass(v: int)
    requires Prime(v)
    ensures ProbablePrime(v)
  {
    if HasSmallDivisor(v) {
      var k :| 0 <= k < |SMALL| && v % SMALL[k] == 0;
      PrimeDivisorIsItself(v, SMALL[k]);
      assert v in SMALL;
    }
    forall k | 0 <= k < |BASES|
      ensures Passes(v, BASES[k])
    {
      PrimePasses(v, BASES[k]);
    }
  }

  // ----- the test -----

  /** The first witness is not 1 and none of the first `i` is -1. */
  ghost predicate NotYet(v: int, base: int, i: nat)
    requires v >= 2
  {
    Witness(v, base, 0) != 1 && forall j | 0 <= j < i :: Witness(v, base, j) != v - 1
  }

  lemma NotYetStep(v: int, base: int, i: nat)
    requires v >= 2 && NotYet(v, base, i) && Witness(v, base, i) != v - 1
    ensures NotYet(v, base, i + 1)
  {
    hide Witness;
  }

  lemma WitnessFound(v: int, base: int, i: nat)
    requires v >= 2 && Witness(v, base, i) == v - 1 && (i == 0 || i < Twos(v - 1))
    ensures Passes(v, base)
  {
    hide Witness, Twos;
  }

  lemma WitnessMissing(v: int, base: int, i: nat)
    requires v >= 2 && base % v != 0 && NotYet(v, base, i) && i >= 1 && i >= Twos(v - 1)
    ensures !Passes(v, base)
  {
    hide Witness, Twos;
  }

  /** One base's turn: a power, then up to `shifts - 1` squarings. */
  method TryBase(v: int, base: int, exponent: int, shifts: nat) returns (ok: bool)
    requires v > 2 && exponent == OddPart(v - 1) > 0 && shifts == Twos(v - 1)
    ensures ok <==> Passes(v, base)
  {
    if base % v == 0 {
      return true;
    }
    var power := PowMod(base, exponent, v);
    assert Witness(v, base, 0) == power;
    if power == 1 || power == v - 1 {
      return true;
    }
    assert NotYet(v, base, 1);
    hide *;
    var i := 1;
    while i < shifts
      invariant 1 <= i && power == Witness(v, base, i - 1) && NotYet(v, base, i)
    {
      WitnessSquared(v, base, i - 1);
      power := SquareMod(power, v);
      if power == v - 1 {
        WitnessFound(v, base, i);
        return true;
      }
      NotYetStep(v, base, i);
      i := i + 1;
    }
    WitnessMissing(v, base, i);
    return false;
  }

  /** Divide out the twos of a positive number. */
  method SplitTwos(n: int) returns (exponent: int, shifts: nat)
    requires n > 0
    ensures exponent == OddPart(n) > 0 && shifts == Twos(n)
  {
    exponent, shifts := n, 0;
    while exponent % 2 == 0
      invariant exponent > 0 && OddPart(exponent) == OddPart(n) && shifts + Twos(exponent) == Twos(n)
      decreases exponent
    {
      exponent := exponent / 2;
      shifts := shifts + 1;
    }
  }

  method IsPrime64(v: int) returns (ok: bool)
    ensures ok <==> ProbablePrime(v)
  {
    if v < 2 {
      return false;
    }
    for k := 0 to |SMALL|
      invariant forall j | 0 <= j < k :: v % SMALL[j] != 0
      invariant v !in SMALL[..k]
    {
      if v % SMALL[k] == 0 {
        FirstDivisor(v, k);
        return v == SMALL[k];
      }
    }
    assert SMALL[..|SMALL|] == SMALL && SMALL[0] == 2;
    var exponent, shifts := SplitTwos(v - 1);
    hide Passes, OddPart, Twos;
    for k := 0 to |BASES|
      invariant forall j | 0 <= j < k :: Passes(v, BASES[j])
    {
      var ok := TryBase(v, BASES[k], exponent, shifts);
      if !ok {
        return false;
      }
    }
    return true;
  }

  /** When a small prime divides, the number is accepted only if it is that prime. */
  lemma FirstDivisor(v: int, k: nat)
    requires k < |SMALL| && v % SMALL[k] == 0 && forall j | 0 <= j < k :: v % SMALL[j] != 0
    ensures ProbablePrime(v) <==> v == SMALL[k]
  {
    if v in SMALL {
      var i :| 0 <= i < |SMALL| && SMALL[i] == v;
      assert v % SMALL[i] == 0;
      SmallPrimesDiffer(i, k);
    }
  }

  lemma SmallPrimesDiffer(i: nat, k: nat)
    requires i < |SMALL| && k < |SMALL| && SMALL[i] % SMALL[k] == 0
    ensures i == k
  {
  }

  // ----- the next primes -----

  /** None of the numbers strictly between is accepted. */
  ghost predicate NoneBetween(p: int, n: int) {
    forall m | p < m < n :: !ProbablePrime(m)
  }

  /** `q` is the least number above `p` that the test accepts. */
  ghost predicate NextAccepted(p: int, q: int) {
    q > p && ProbablePrime(q) && NoneBetween(p, q)
  }

  lemma {:induction false} SearchFrom(p: int, n: int, bound: int) returns (q: int)
    requires p < n <= bound && ProbablePrime(bound) && forall m | p < m < n :: !ProbablePrime(m)
    ensures NextAccepted(p, q)
    decreases bound - n
  {
    hide ProbablePrime;
    if ProbablePrime(n) {
      q := n;
    } else {
      q := SearchFrom(p, n + 1, bound);
    }
  }

  lemma NextExists(p: int)
    ensures exists q :: NextAccepted(p, q)
  {
    var bound := PrimeBeyond(p);
    PrimesPass(bound);
    var q := SearchFrom(p, p + 1, bound);
  }

  /** The `count`-th number above `start` that the test accepts. */
  ghost function NthAfter(start: int, count: nat): int {
    if count == 0 then start
    else
      var before := NthAfter(start, count - 1);
      NextExists(before);
      var q :| NextAccepted(before, q);
      q
  }

  lemma NextIsUnique(p: int, q: int, r: int)
    requires NextAccepted(p, q) && NextAccepted(p, r)
    ensures q == r
  {
    hide ProbablePrime;
  }

  lemma NthStep(start: int, count: nat)
    ensures NextAccepted(NthAfter(start, count), NthAfter(start, count + 1))
    ensures NthAfter(start, count) < NthAfter(start, count + 1)
  {
  }

  lemma NthStarts(start: int)
    ensures NthAfter(start, 0) == start
  {
  }

  lemma EvenRejected(v: int)
    requires v > 2 && v % 2 == 0
    ensures !ProbablePrime(v)
  {
    assert SMALL[0] == 2 && v % SMALL[0] == 0;
    FirstDivisor(v, 0);
  }

  predicate Odd(n: int) {
    n % 2 == 1
  }

  /** An accepted number an even distance ahead. */
  lemma AcceptedAhead(n: int) returns (gap: nat)
    requires n > 2 && Odd(n)
    ensures ProbablePrime(n + 2 * gap)
  {
    var bound := PrimeBeyond(n);
    PrimesPass(bound);
    if bound % 2 == 0 {
      EvenRejected(bound);
    }
    gap := (bound - n) / 2;
    assert n + 2 * gap == bound;
  }

  /** An odd candidate that is rejected rules out the even number after it too. */
  lemma TwoFurther(p: int, n: int)
    requires p < n && NoneBetween(p, n) && !ProbablePrime(n) && n > 2 && Odd(n)
    ensures NoneBetween(p, n + 2) && Odd(n + 2)
  {
    EvenRejected(n + 1);
    hide ProbablePrime;
  }

  /** Odd candidates in turn; there is always an accepted one ahead, so the search ends. */
  method OddAfter(prime: int, start: int) returns (candidate: int)
    requires prime < start && start > 2 && Odd(start) && NoneBetween(prime, start)
    ensures NextAccepted(prime, candidate)
  {
    hide *;
    candidate := start;
    ghost var gap := AcceptedAhead(start);
    var accepted := IsPrime64(candidate);
    while !accepted
      invariant accepted <==> ProbablePrime(candidate)
      invariant 2 < candidate && prime < candidate && Odd(candidate) && NoneBetween(prime, candidate)
      invariant ProbablePrime(candidate + 2 * gap)
      decreases gap
    {
      TwoFurther(prime, candidate);
      candidate := candidate + 2;
      gap := gap - 1;
      accepted := IsPrime64(candidate);
    }
    IsNext(prime, candidate);
  }

  lemma IsNext(p: int, q: int)
    requires p < q && ProbablePrime(q) && NoneBetween(p, q)
    ensures NextAccepted(p, q)
  {
  }

  lemma TwoIsNext(p: int)
    requires p < 2
    ensures NextAccepted(p, 2)
  {
    assert SMALL[0] == 2;
    assert 2 in SMALL;
    assert forall n | n < 2 :: !ProbablePrime(n);
  }

  lemma FirstOdd(p: int)
    requires p >= 2
    ensures p % 2 == 0 ==> Odd(p + 1) && NoneBetween(p, p + 1)
    ensures p % 2 == 1 ==> Odd(p + 2) && NoneBetween(p, p + 2)
  {
    if p % 2 == 1 {
      EvenRejected(p + 1);
    }
    hide ProbablePrime;
  }

  /** From one accepted number to the next: odd candidates in turn, and 2 by itself. */
  method NextAfter(prime: int) returns (next: int)
    ensures NextAccepted(prime, next)
  {
    var candidate := prime + 1;
    if candidate <= 2 {
      TwoIsNext(prime);
      return 2;
    }
    if candidate % 2 == 0 {
      candidate := candidate + 1;
    }
    FirstOdd(prime);
    hide *;
    next := OddAfter(prime, candidate);
  }

  method NthPrimeAfter(start: int, count: nat) returns (prime: int)
    ensures prime == NthAfter(start, count)
  {
    prime := start;
    for k := 0 to count
      invariant prime == NthAfter(start, k)
    {
      var next := NextAfter(prime);
      NthStep(start, k);
      NextIsUnique(prime, next, NthAfter(start, k + 1));
      prime := next;
    }
  }

  // ----- what the search promises -----

  lemma {:induction false} NthIncreases(start: int, j: nat, k: nat)
    requires j < k
    ensures NthAfter(start, j) < NthAfter(start, k)
    decreases k
  {
    hide *;
    NthStep(start, k - 1);
    if j < k - 1 {
      NthIncreases(start, j, k - 1);
    }
  }

  /** No prime between the start and a result is skipped: each is itself an earlier result. */
  lemma {:induction false} NoPrimeSkipped(start: int, count: nat, q: int) returns (k: nat)
    requires Prime(q) && start < q <= NthAfter(start, count)
    ensures 1 <= k <= count && q == NthAfter(start, k)
    decreases count
  {
    hide NthAfter, ProbablePrime, Prime;
    NthStarts(start);
    NthStep(start, count - 1);
    if q <= NthAfter(start, count - 1) {
      k := NoPrimeSkipped(start, count - 1, q);
    } else {
      PrimesPass(q);
      k := count;
    }
  }

  lemma SmallPrime(p: int)
    requires Prime(p) && p < 41
    ensures p in SMALL
  {
    assert p in SMALL || (p > 2 && Divides(2, p)) || (p > 3 && Divides(3, p)) || (p > 5 && Divides(5, p));
  }

  /** Below the square of 41 the test is exact. */
  lemma ExactBelow1681(v: int)
    requires v < 1681
    ensures ProbablePrime(v) <==> Prime(v)
  {
    if Prime(v) {
      PrimesPass(v);
    } else if v >= 2 && v !in SMALL {
      var p := PrimeDivisor(v);
      var rest := v / p;
      assert v == p * rest;
      if p >= 41 {
        SmallCofactor(v, p, rest);
        var q := PrimeDivisor(rest);
        MultipleDivides(rest, p, q);
        p := q;
      }
      SmallPrime(p);
      assert HasSmallDivisor(v);
    } else if v in SMALL {
      SmallArePrime(v);
    }
  }

  lemma SmallCofactor(v: int, p: int, rest: int)
    requires 2 <= v < 1681 && p >= 41 && v == p * rest && !Prime(v) && Prime(p)
    ensures 2 <= rest < 41
  {
    TimesAtLeast(p, rest);
    ProductAtLeast(p, rest, 41);
  }

  lemma ProductAtLeast(a: int, b: int, m: nat)
    ensures a >= m && b >= m ==> a * b >= m * m
  {
  }

  lemma SmallArePrime(v: int)
    requires v in SMALL
    ensures Prime(v)
  {
    forall d | 2 <= d < v
      ensures !Divides(d, v)
    {
      if v < 20 {
        NoDivisorBelow20(v, d);
      } else {
        NoDivisorAbove20(v, d);
      }
    }
  }

  lemma NoDivisorBelow20(v: int, d: int)
    requires v in [2, 3, 5, 7, 11, 13, 17, 19] && 2 <= d < v
    ensures !Divides(d, v)
  {
  }

  lemma NoDivisorAbove20(v: int, d: int)
    requires v in [23, 29, 31, 37] && 2 <= d < v
    ensures !Divides(d, v)
  {
  }

  // ----- the test, written out -----

  /** To this base, `v` is a strong probable prime, where v - 1 is `odd` times two to the power of `twos`. */
  ghost predicate Strong(v: int, base: int, odd: nat, twos: nat)
    requires v >= 2
  {
    || Pow(base, odd) % v == 1
    || exists r: nat :: r < twos && Pow(base, Shifted(odd, r)) % v == v - 1
  }

  /** `odd` times two to the power of `r`. */
  function Shifted(odd: nat, r: nat): (e: nat)
    ensures e == odd * Pow(2, r)
  {
    PowOfTwoPositive(r);
    odd * Pow(2, r)
  }

  lemma {:induction false} SplitIsUnique(n: int, odd: nat, twos: nat)
    requires n > 0 && odd % 2 == 1 && n == odd * Pow(2, twos)
    ensures odd == OddPart(n) && twos == Twos(n)
    decreases twos
  {
    if twos > 0 {
      var power := Pow(2, twos - 1);
      assert odd * (2 * power) == 2 * (odd * power);
      SplitIsUnique(n / 2, odd, twos - 1);
    }
  }

  lemma WitnessIs(v: int, base: int, i: nat)
    requires v >= 2
    ensures OddPart(v - 1) > 0 && Witness(v, base, i) == Pow(base, Shifted(OddPart(v - 1), i)) % v
  {
    OddPartTimesTwos(v - 1);
    DoubledIs(OddPart(v - 1), i);
    hide Pow, OddPart, Doubled;
  }

  lemma PassesIs(v: int, base: int, odd: nat, twos: nat)
    requires v > 2 && twos > 0 && odd % 2 == 1 && v - 1 == odd * Pow(2, twos)
    ensures Passes(v, base) <==> base % v == 0 || Strong(v, base, odd, twos)
  {
    SplitIsUnique(v - 1, odd, twos);
    WitnessIs(v, base, 0);
    assert Shifted(odd, 0) == odd;
    hide Pow, Witness, OddPart, Twos;
    forall i: nat
      ensures Witness(v, base, i) == Pow(base, Shifted(odd, i)) % v
    {
      WitnessIs(v, base, i);
    }
  }

  /** An odd number splits with at least one two. */
  lemma OddHasTwos(v: int, odd: nat, twos: nat)
    requires v > 2 && v % 2 == 1 && odd % 2 == 1 && v - 1 == odd * Pow(2, twos)
    ensures twos > 0
  {
  }

  /**
   * The numbers accepted: the twelve small primes, and those that none of these divides and that are
   * strong probable primes, or divisors, of all seven bases.
   */
  lemma AcceptedIs(v: int, odd: nat, twos: nat)
    requires v >= 2 && odd % 2 == 1 && v - 1 == odd * Pow(2, twos)
    ensures ProbablePrime(v)
       <==> v in {2, 3, 5, 7, 11, 13, 17, 19, 23, 29, 31, 37}
            || (&& (forall p | p in {2, 3, 5, 7, 11, 13, 17, 19, 23, 29, 31, 37} :: v % p != 0)
                && forall b | b in {2, 325, 9375, 28178, 450775, 9780504, 1795265022} ::
                     b % v == 0 || Strong(v, b, odd, twos))
  {
    hide SMALL, BASES, Passes, Strong, Pow, HasSmallDivisor;
    SmallAre(v);
    BasesAre();
    if v % 2 != 0 {
      OddHasTwos(v, odd, twos);
      forall b
        ensures Passes(v, b) <==> b % v == 0 || Strong(v, b, odd, twos)
      {
        PassesIs(v, b, odd, twos);
      }
    }
    BasesPass(v);
  }

  lemma SmallAre(v: int)
    ensures v in SMALL <==> v in {2, 3, 5, 7, 11, 13, 17, 19, 23, 29, 31, 37}
    ensures HasSmallDivisor(v) <==> exists p :: p in {2, 3, 5, 7, 11, 13, 17, 19, 23, 29, 31, 37} && v % p == 0
  {
    assert forall k | 0 <= k < |SMALL| :: SMALL[k] in {2, 3, 5, 7, 11, 13, 17, 19, 23, 29, 31, 37};
    SmallIn();
    if p :| p in {2, 3, 5, 7, 11, 13, 17, 19, 23, 29, 31, 37} && v % p == 0 {
      assert p in SMALL;
      var k :| 0 <= k < |SMALL| && SMALL[k] == p;
    }
    hide SMALL;
  }

  lemma SmallIn()
    ensures forall p | p in {2, 3, 5, 7, 11, 13, 17, 19, 23, 29, 31, 37} :: p in SMALL
  {
    forall p | p in {2, 3, 5, 7, 11, 13, 17, 19, 23, 29, 31, 37}
      ensures p in SMALL
    {
      assert p == SMALL[0] || p == SMALL[1] || p == SMALL[2] || p == SMALL[3] || p == SMALL[4] || p == SMALL[5]
          || p == SMALL[6] || p == SMALL[7] || p == SMALL[8] || p == SMALL[9] || p == SMALL[10] || p == SMALL[11];
    }
  }

  lemma BasesPass(v: int)
    requires v >= 2
    ensures (forall k | 0 <= k < |BASES| :: Passes(v, BASES[k])) <==> forall b | b in BASES :: Passes(v, b)
  {
    hide BASES, Passes;
  }

  lemma BasesAre()
    ensures forall b :: b in BASES <==> b in {2, 325, 9375, 28178, 450775, 9780504, 1795265022}
  {
    forall b | b in {2, 325, 9375, 28178, 450775, 9780504, 1795265022}
      ensures b in BASES
    {
      assert b == BASES[0] || b == BASES[1] || b == BASES[2] || b == BASES[3] || b == BASES[4] || b == BASES[5]
          || b == BASES[6];
    }
  }
}
