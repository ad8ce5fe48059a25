/** The ids of a token, bit by bit, from the tokens its request has had. */
module NGramBits {
  import opened Congruences
  import opened HashTables
  import opened NGrams
  import opened NGramBatches

  // ----- bits of an exclusive or -----

  lemma HalfThenPower(x: nat, k: nat)
    requires k > 0
    ensures Pow(2, k) > 0 && Pow(2, k - 1) > 0 && x / Pow(2, k) == x / 2 / Pow(2, k - 1)
  {
    PowerPositive(k - 1);
    var p := Pow(2, k - 1);
    assert Pow(2, k) == 2 * p;
    hide Pow;
    DivDiv(x, 2, p);
  }

  lemma {:induction false} PowerPositive(k: nat)
    ensures Pow(2, k) > 0
  {
    if k > 0 {
      PowerPositive(k - 1);
    }
  }

  lemma DivDiv(x: nat, a: nat, b: nat)
    requires a > 0 && b > 0
    ensures a * b > 0 && x / (a * b) == x / a / b
  {
    hide *;
    Product(a, b);
    var q, i := x / a, x % a;
    var s, j := q / b, q % b;
    Parts(x, a);
    Parts(q, b);
    assert a * q == a * (b * s) + a * j by {
      Distribute(a, b * s, j);
    }
    Regroup(a, b, s);
    SmallRest(a, b, j, i);
    Quotient(x, a * b, s, a * j + i);
  }

  lemma Parts(x: nat, a: nat)
    requires a > 0
    ensures x == a * (x / a) + x % a && 0 <= x % a < a && x / a >= 0
  {
  }

  lemma Distribute(a: nat, x: nat, y: nat)
    ensures a * (x + y) == a * x + a * y
  {
  }

  lemma Product(a: nat, b: nat)
    requires a > 0 && b > 0
    ensures a * b > 0
  {
  }

  lemma Regroup(a: nat, b: nat, s: nat)
    ensures a * (b * s) == (a * b) * s
  {
  }

  lemma SmallRest(a: nat, b: nat, i: nat, j: nat)
    requires i < b && j < a
    ensures 0 <= a * i + j < a * b
  {
    Grows(a, i + 1, b);
    assert a * (i + 1) == a * i + a;
  }

  lemma Grows(a: nat, i: nat, b: nat)
    requires i <= b
    ensures a * i <= a * b
  {
  }

  lemma Quotient(x: nat, n: nat, s: nat, rest: nat)
    requires n > 0 && x == n * s + rest && rest < n
    ensures x / n == s
  {
    RemainderIs(x, n, s, rest);
    assert n * (x / n) == n * s;
    Cancel(n, x / n, s);
  }

  lemma Cancel(n: nat, a: nat, b: nat)
    requires n > 0 && n * a == n * b
    ensures a == b
  {
  }

  /** A bit of an exclusive or is set if it is set in just one of the two. */
  lemma {:induction false} XorBit(a: nat, b: nat, k: nat)
    ensures Pow(2, k) > 0
    ensures Xor(a, b) / Pow(2, k) % 2 == (a / Pow(2, k) % 2 + b / Pow(2, k) % 2) % 2
  {
    PowerPositive(k);
    if k == 0 {
      XorEnds(a, b);
    } else {
      XorBit(a / 2, b / 2, k - 1);
      XorEnds(a, b);
      HalfThenPower(a, k);
      HalfThenPower(b, k);
      HalfThenPower(Xor(a, b), k);
    }
  }

  lemma XorEnds(a: nat, b: nat)
    ensures Xor(a, b) % 2 == (a % 2 + b % 2) % 2 && Xor(a, b) / 2 == Xor(a / 2, b / 2)
  {
  }

  // ----- the mix, bit by bit -----

  /** The places before `n` whose product of token and multiplier has this bit set. */
  ghost function OddProducts(tokens: seq<int>, multipliers: seq<int>, n: nat, k: nat): (odd: set<nat>)
    requires n <= |tokens| && n <= |multipliers| && Pow(2, k) > 0
    ensures forall j | j in odd :: j < n
  {
    set j: nat | j < n && tokens[j] * multipliers[j] / Pow(2, k) % 2 == 1
  }

  lemma OneMoreProduct(tokens: seq<int>, multipliers: seq<int>, n: nat, k: nat)
    requires n < |tokens| && n < |multipliers| && Pow(2, k) > 0
    ensures |OddProducts(tokens, multipliers, n + 1, k)|
         == |OddProducts(tokens, multipliers, n, k)| + tokens[n] * multipliers[n] / Pow(2, k) % 2
  {
    var before, after := OddProducts(tokens, multipliers, n, k), OddProducts(tokens, multipliers, n + 1, k);
    if tokens[n] * multipliers[n] / Pow(2, k) % 2 == 1 {
      assert after == before + {n};
    } else {
      assert after == before;
    }
  }

  lemma MixedUnfolds(h: Hashing, shifted: seq<int>, n: nat)
    requires h.Valid() && h.AreTokens(shifted) && 0 < n <= |shifted| && n <= |h.multipliers|
    ensures 0 <= shifted[n - 1] * h.multipliers[n - 1]
    ensures Mixed(h, shifted, n)
         == if n == 1 then shifted[0] * h.multipliers[0]
            else Xor(Mixed(h, shifted, n - 1), shifted[n - 1] * h.multipliers[n - 1])
  {
    ProductFits(h, shifted, n - 1);
    hide Hashing.Valid, Hashing.AreTokens;
  }

  lemma NoProducts(tokens: seq<int>, multipliers: seq<int>, k: nat)
    requires Pow(2, k) > 0
    ensures OddProducts(tokens, multipliers, 0, k) == {}
  {
  }

  lemma ParityAdds(count: nat, bit: int)
    ensures (count % 2 + bit) % 2 == (count + bit) % 2
  {
  }

  /** A bit of the mix is set if an odd number of the products have it. */
  lemma {:induction false} MixedBit(h: Hashing, shifted: seq<int>, n: nat, k: nat)
    requires h.Valid() && h.AreTokens(shifted) && 0 < n <= |shifted| && n <= |h.multipliers|
    ensures Pow(2, k) > 0
    ensures Mixed(h, shifted, n) / Pow(2, k) % 2 == |OddProducts(shifted, h.multipliers, n, k)| % 2
  {
    hide *;
    PowerPositive(k);
    MixedUnfolds(h, shifted, n);
    OneMoreProduct(shifted, h.multipliers, n - 1, k);
    if n == 1 {
      NoProducts(shifted, h.multipliers, k);
    } else {
      MixedBit(h, shifted, n - 1, k);
      var before, last := Mixed(h, shifted, n - 1), shifted[n - 1] * h.multipliers[n - 1];
      XorBit(before, last, k);
      ParityAdds(|OddProducts(shifted, h.multipliers, n - 1, k)|, last / Pow(2, k) % 2);
    }
  }

  /** Each bit of `m` is the parity of that bit in the first `n` products. */
  ghost predicate MixesBits(tokens: seq<int>, multipliers: seq<int>, n: nat, m: nat)
    requires n <= |tokens| && n <= |multipliers|
  {
    forall k: nat :: Pow(2, k) > 0 && m / Pow(2, k) % 2 == |OddProducts(tokens, multipliers, n, k)| % 2
  }

  /** `back[j]` is the token `j` places before the last, or end-of-sequence where the sequence began or ended since. */
  ghost predicate LooksBack(back: seq<int>, tokens: seq<int>, eos: int) {
    forall j: nat | j < |back| ::
      back[j]
      == if j < |tokens| && eos !in tokens[|tokens| - 1 - j..|tokens| - 1] then tokens[|tokens| - 1 - j] else eos
  }

  lemma ShiftsLookBack(h: Hashing, tokens: seq<int>)
    requires tokens != []
    ensures LooksBack(DirectShifts(h, tokens), tokens, h.eos)
  {
    var back, p := DirectShifts(h, tokens), |tokens| - 1;
    forall j: nat | j < |back|
      ensures back[j] == if j < |tokens| && h.eos !in tokens[p - j..p] then tokens[p - j] else h.eos
    {
      if j <= p {
        EosInWindow(tokens, p, h.eos, j, tokens[p - j..p + 1]);
        if i :| p - j <= i < p && tokens[i] == h.eos {
          assert tokens[p - j..p][i - (p - j)] == h.eos;
        }
      }
    }
  }

  /**
   * The ids of a token in the source's own arithmetic: every head of an n-gram length mixes the
   * current token and that many less one before it, each times its own multiplier; a bit of the
   * mix is set if an odd number of those products have it.
   */
  lemma IdsByBits(h: Hashing, tokens: seq<int>, g: nat) returns (back: seq<int>, n: nat, m: nat)
    requires h.Valid() && h.AreTokens(tokens) && tokens != [] && g < |h.sizes|
    ensures h.headsPerNgram > 0 && n == 2 + g / h.headsPerNgram
    ensures n <= |back| == |h.multipliers| && LooksBack(back, tokens, h.eos)
    ensures m < TWO63 && MixesBits(back, h.multipliers, n, m)
    ensures h.sizes[g] > 0 && |h.offsets| == |h.sizes| == |DirectIds(h, tokens)|
    ensures DirectIds(h, tokens)[g] == m % h.sizes[g] + h.offsets[g]
  {
    back := DirectShifts(h, tokens);
    BlockExists(h, g);
    n := 2 + g / h.headsPerNgram;
    m := Mixed(h, back, n);
    ShiftsLookBack(h, tokens);
    hide Mixed, LooksBack, MixesBits;
    MixedMixesBits(h, back, n);
  }

  lemma MixedMixesBits(h: Hashing, shifted: seq<int>, n: nat)
    requires h.Valid() && h.AreTokens(shifted) && 0 < n <= |shifted| && n <= |h.multipliers|
    ensures MixesBits(shifted, h.multipliers, n, Mixed(h, shifted, n))
  {
    hide Mixed, Hashing.Valid, OddProducts, Pow;
    forall k: nat
      ensures Pow(2, k) > 0
      ensures Mixed(h, shifted, n) / Pow(2, k) % 2 == |OddProducts(shifted, h.multipliers, n, k)| % 2
    {
      MixedBit(h, shifted, n, k);
    }
  }

  // ----- the mixed seeds, bit by bit -----

  /** Bit `k` of a number. */
  function Bit(x: nat, k: nat): int {
    PowerPositive(k);
    x / Pow(2, k) % 2
  }

  /** `y` is `x` with each bit flipped where the bit `n` places above it is set. */
  ghost predicate FoldsDown(x: nat, n: nat, y: nat) {
    forall k: nat :: Bit(y, k) == (Bit(x, k) + Bit(x, k + n)) % 2
  }

  lemma XorFoldsDown(x: nat, n: nat, power: nat)
    requires power == Pow(2, n) && power > 0
    ensures FoldsDown(x, n, Xor(x, x / power))
  {
    hide Pow, Xor, Bit;
    forall k: nat
      ensures Bit(Xor(x, x / power), k) == (Bit(x, k) + Bit(x, k + n)) % 2
    {
      BitOfXor(x, x / power, k);
      BitAbove(x, n, power, k);
    }
  }

  lemma BitOfXor(a: nat, b: nat, k: nat)
    ensures Bit(Xor(a, b), k) == (Bit(a, k) + Bit(b, k)) % 2
  {
    hide Pow, Xor;
    XorBit(a, b, k);
  }

  lemma BitAbove(x: nat, n: nat, power: nat, k: nat)
    requires power == Pow(2, n) && power > 0
    ensures Bit(x / power, k) == Bit(x, k + n)
  {
    hide Pow;
    PowerPositive(k);
    PowerPositive(n + k);
    PowAdd(2, n, k);
    DivDiv(x, power, Pow(2, k));
    assert n + k == k + n;
  }

  lemma Powers()
    ensures Pow(2, 27) == 0x800_0000 && Pow(2, 30) == 0x4000_0000 && Pow(2, 31) == 0x8000_0000
  {
    hide Pow;
    Eight();
    PowAdd(2, 3, 3);
    PowAdd(2, 6, 6);
    PowAdd(2, 12, 12);
    PowAdd(2, 24, 3);
    PowAdd(2, 27, 3);
    PowAdd(2, 30, 1);
    One();
  }

  lemma One()
    ensures Pow(2, 1) == 2
  {
    assert Pow(2, 1) == 2 * Pow(2, 0);
  }

  /** The finalizer of splitmix64: fold, multiply, fold, multiply, fold, all in 64 bits. */
  lemma SplitMixIs(value: int) returns (a: nat, x: nat, b: nat, y: nat, c: nat)
    ensures a == (value + 0x9E37_79B9_7F4A_7C15) % 0x1_0000_0000_0000_0000
    ensures FoldsDown(a, 30, x) && b == x * 0xBF58_476D_1CE4_E5B9 % 0x1_0000_0000_0000_0000
    ensures FoldsDown(b, 27, y) && c == y * 0x94D0_49BB_1331_11EB % 0x1_0000_0000_0000_0000
    ensures FoldsDown(c, 31, SplitMix64(value))
  {
    hide FoldsDown, Pow, Xor;
    Powers();
    a := (value + GAMMA) % TWO64;
    x := Xor(a, a / 0x4000_0000);
    b := x * M1 % TWO64;
    y := Xor(b, b / 0x800_0000);
    c := y * M2 % TWO64;
    XorFoldsDown(a, 30, 0x4000_0000);
    XorFoldsDown(b, 27, 0x800_0000);
    XorFoldsDown(c, 31, 0x8000_0000);
    FitsWord(c, c / 0x8000_0000);
    Modulo(Xor(c, c / 0x8000_0000));
  }

  lemma FitsWord(a: nat, b: nat)
    requires a < TWO64 && b < TWO64
    ensures Xor(a, b) < TWO64
  {
    hide Pow;
    PowerOfTwo63();
    One();
    PowAdd(2, 63, 1);
    XorFits(a, b, 64);
  }

  lemma Modulo(x: nat)
    requires x < TWO64
    ensures x % TWO64 == x
  {
  }

  /** A multiplier is one of the odd numbers whose products fit, picked by the mixed value of seed, layer and shift. */
  lemma DrawnIsOdd(vocabulary: int, seed: int, layer: nat, index: nat) returns (half: int)
    requires vocabulary > 0
    ensures half == (if (TWO63 - 1) / vocabulary / 2 < 1 then 1 else (TWO63 - 1) / vocabulary / 2)
    ensures var value := seed + 10007 * layer + 0x9E37_79B9_7F4A_7C15 * (index + 1);
            Drawn(vocabulary, DrawValue(seed, layer, index)) == 2 * (SplitMix64(value) % half) + 1
  {
    hide SplitMix64;
    half := HalfBound(vocabulary);
  }
}
