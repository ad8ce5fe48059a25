/** Multipliers, table sizes and offsets of the n-gram hash heads. */
module HashTables {
  import opened Results
  import opened Congruences
  import opened Primes

  const TWO63: int := 0x8000_0000_0000_0000

  const TWO64: int := 0x1_0000_0000_0000_0000

  const GAMMA: int := 0x9E37_79B9_7F4A_7C15

  const M1: int := 0xBF58_476D_1CE4_E5B9

  const M2: int := 0x94D0_49BB_1331_11EB

  const LAYER_PRIME: int := 10007

  // ----- bits -----

  /** Exclusive or of two natural numbers, bit by bit. */
  function Xor(a: nat, b: nat): nat {
    if a == 0 && b == 0 then 0 else 2 * Xor(a / 2, b / 2) + (a % 2 + b % 2) % 2
  }

  /** Numbers of at most `k` bits have an exclusive or of at most `k` bits. */
  lemma {:induction false} XorFits(a: nat, b: nat, k: nat)
    requires a < Pow(2, k) && b < Pow(2, k)
    ensures Xor(a, b) < Pow(2, k)
  {
    if k > 0 && (a > 0 || b > 0) {
      XorFits(a / 2, b / 2, k - 1);
    }
  }

  /** The splitmix64 finalizer on the low 64 bits of an integer. */
  function SplitMix64(value: int): (r: nat)
    ensures r < TWO64
  {
    var a := (value + GAMMA) % TWO64;
    var b := Xor(a, a / 0x4000_0000) * M1 % TWO64;
    var c := Xor(b, b / 0x800_0000) * M2 % TWO64;
    Xor(c, c / 0x8000_0000) % TWO64
  }

  // ----- multipliers -----

  function HalfBound(vocabulary: int): (h: int)
    requires vocabulary > 0
    ensures h >= 1
  {
    var half := (TWO63 - 1) / vocabulary / 2;
    if half < 1 then 1 else half
  }

  /** An odd multiplier drawn from a 64-bit value. */
  function Drawn(vocabulary: int, value: int): int
    requires vocabulary > 0
  {
    2 * (SplitMix64(value) % HalfBound(vocabulary)) + 1
  }

  /** The value a multiplier is drawn from, by seed, layer and shift. */
  function DrawValue(seed: int, layer: nat, index: nat): int {
    seed + LAYER_PRIME * layer + GAMMA * (index + 1)
  }

  method BuildMultipliers(vocabulary: int, seed: int, layer: nat, size: nat) returns (multipliers: seq<int>)
    requires vocabulary > 0
    ensures |multipliers| == size
    ensures forall i | 0 <= i < size :: multipliers[i] == Drawn(vocabulary, DrawValue(seed, layer, i))
  {
    hide Drawn, DrawValue;
    multipliers := [];
    for i := 0 to size
      invariant |multipliers| == i
      invariant forall j | 0 <= j < i :: multipliers[j] == Drawn(vocabulary, DrawValue(seed, layer, j))
    {
      multipliers := multipliers + [Drawn(vocabulary, DrawValue(seed, layer, i))];
    }
  }

  lemma DrawnBounds(vocabulary: int, value: int)
    requires 0 < vocabulary
    ensures var m, quotient := Drawn(vocabulary, value), (TWO63 - 1) / vocabulary;
            m % 2 == 1 && 1 <= m && (m <= quotient || m == 1)
  {
    var half, r := HalfBound(vocabulary), SplitMix64(value);
    hide SplitMix64, Drawn;
    assert Drawn(vocabulary, value) == 2 * (r % half) + 1 by {
      DrawnIs(vocabulary, value);
    }
    DrawnFits(half, (TWO63 - 1) / vocabulary, r);
  }

  lemma DrawnIs(vocabulary: int, value: int)
    requires 0 < vocabulary
    ensures Drawn(vocabulary, value) == 2 * (SplitMix64(value) % HalfBound(vocabulary)) + 1
  {
  }

  lemma DrawnFits(half: int, quotient: int, r: nat)
    requires half == (if quotient / 2 < 1 then 1 else quotient / 2)
    ensures var m := 2 * (r % half) + 1; m % 2 == 1 && 1 <= m && (m <= quotient || m == 1)
  {
  }

  lemma ProductBelow(token: int, vocabulary: int, multiplier: int, quotient: int)
    requires 0 <= token < vocabulary < TWO63 && vocabulary * quotient < TWO63
    requires multiplier == 1 || 1 <= multiplier <= quotient
    ensures 0 <= token * multiplier < TWO63
  {
    if multiplier == 1 {
      return;
    }
    assert token * multiplier <= vocabulary * multiplier by {
      assert (vocabulary - token) * multiplier >= 0;
    }
    assert vocabulary * multiplier <= vocabulary * quotient by {
      assert vocabulary * (quotient - multiplier) >= 0;
    }
  }

  /** For every vocabulary that fits a signed 64-bit integer, a token times a multiplier does too. */
  lemma TokenProductsFit(vocabulary: int, value: int, token: int)
    requires 0 < vocabulary < TWO63 && 0 <= token < vocabulary
    ensures var m := Drawn(vocabulary, value); m % 2 == 1 && m >= 1 && 0 <= token * m < TWO63
  {
    var m, quotient := Drawn(vocabulary, value), (TWO63 - 1) / vocabulary;
    DrawnBounds(vocabulary, value);
    QuotientFits(vocabulary, quotient);
    hide *;
    ProductBelow(token, vocabulary, m, quotient);
  }

  lemma QuotientFits(vocabulary: int, quotient: int)
    requires 0 < vocabulary && quotient == (TWO63 - 1) / vocabulary
    ensures vocabulary * quotient < TWO63
  {
  }

  // ----- table sizes and offsets -----

  /** The size of a head's table: the accepted number with the head's global position, from the base up. */
  ghost function HeadSize(base: int, heads: nat, layer: nat, head: nat): int {
    NthAfter(base - 1, GlobalHead(heads, layer, head) + 1)
  }

  function GlobalHead(heads: nat, layer: nat, head: nat): nat {
    layer * heads + head
  }

  function Sum(sizes: seq<int>): int {
    if sizes == [] then 0 else Sum(sizes[..|sizes| - 1]) + sizes[|sizes| - 1]
  }

  /** Tables laid end to end: each starts where the ones before it end. */
  ghost predicate LaidOut(sizes: seq<int>, offsets: seq<int>) {
    && |offsets| == |sizes|
    && forall h | 0 <= h < |sizes| :: sizes[h] >= 2 && offsets[h] == Sum(sizes[..h])
  }

  lemma {:induction false} HeadSizeIsAccepted(start: int, count: nat)
    requires count > 0
    ensures ProbablePrime(NthAfter(start, count)) && NthAfter(start, count) >= 2 && NthAfter(start, count) > start
  {
    NthStep(start, count - 1);
    if count > 1 {
      HeadSizeIsAccepted(start, count - 1);
    }
  }

  method BuildTables(base: int, heads: nat, layer: nat) returns (sizes: seq<int>, offsets: seq<int>, total: int)
    ensures |sizes| == heads && LaidOut(sizes, offsets) && total == Sum(sizes)
    ensures forall h | 0 <= h < heads :: sizes[h] == HeadSize(base, heads, layer, h)
  {
    sizes, offsets, total := [], [], 0;
    assert LaidOut([], []) && Sum([]) == 0;
    hide ProbablePrime, NthAfter, GlobalHead, LaidOut, Sum;
    for head := 0 to heads
      invariant |sizes| == head && LaidOut(sizes, offsets) && total == Sum(sizes)
      invariant forall h | 0 <= h < head :: sizes[h] == HeadSize(base, heads, layer, h)
    {
      var size := NthPrimeAfter(base - 1, GlobalHead(heads, layer, head) + 1);
      HeadSizeIsAccepted(base - 1, GlobalHead(heads, layer, head) + 1);
      OneMoreTable(sizes, offsets, size);
      sizes := sizes + [size];
      offsets := offsets + [total];
      total := total + size;
    }
  }

  lemma OneMoreTable(sizes: seq<int>, offsets: seq<int>, size: int)
    requires LaidOut(sizes, offsets) && size >= 2
    ensures LaidOut(sizes + [size], offsets + [Sum(sizes)]) && Sum(sizes + [size]) == Sum(sizes) + size
  {
    var more := sizes + [size];
    assert more[..|sizes|] == sizes;
    forall h | 0 <= h < |more|
      ensures more[h] >= 2 && (offsets + [Sum(sizes)])[h] == Sum(more[..h])
    {
      assert more[..h] == sizes[..h];
    }
  }

  /** No two heads anywhere, in this layer or another, have tables of the same size. */
  lemma HeadSizesDiffer(base: int, heads: nat, layer: nat, head: nat, layer': nat, head': nat)
    requires head < heads && head' < heads && (layer != layer' || head != head')
    ensures HeadSize(base, heads, layer, head) != HeadSize(base, heads, layer', head')
  {
    hide NthAfter, GlobalHead;
    var g, g' := GlobalHead(heads, layer, head), GlobalHead(heads, layer', head');
    GlobalHeadsDiffer(heads, layer, head, layer', head');
    if g < g' {
      NthIncreases(base - 1, g + 1, g' + 1);
    } else {
      NthIncreases(base - 1, g' + 1, g + 1);
    }
  }

  lemma GlobalHeadsDiffer(heads: nat, layer: nat, head: nat, layer': nat, head': nat)
    requires head < heads && head' < heads && (layer != layer' || head != head')
    ensures GlobalHead(heads, layer, head) != GlobalHead(heads, layer', head')
  {
    TimesAtLeast(heads, layer' - layer);
    assert heads * (layer' - layer) == layer' * heads - layer * heads;
  }

  /**
   * Sizes run on through heads and layers: the first is the first accepted number from the base up,
   * and each next one is the next accepted number.
   */
  lemma SizesRunOn(base: int, heads: nat, layer: nat, head: nat)
    requires head < heads
    ensures HeadSize(base, heads, 0, 0) >= base && NextAccepted(base - 1, HeadSize(base, heads, 0, 0))
    ensures head + 1 < heads ==>
              NextAccepted(HeadSize(base, heads, layer, head), HeadSize(base, heads, layer, head + 1))
    ensures head + 1 == heads ==>
              NextAccepted(HeadSize(base, heads, layer, head), HeadSize(base, heads, layer + 1, 0))
  {
    hide NthAfter, ProbablePrime;
    NthStarts(base - 1);
    NthStep(base - 1, 0);
    NthStep(base - 1, layer * heads + head + 1);
    if head + 1 == heads {
      assert (layer + 1) * heads == layer * heads + heads;
    }
  }

  function Padded(total: int, divisor: int): int
    requires divisor > 0
  {
    (total + divisor - 1) / divisor * divisor
  }

  lemma PaddedCovers(total: int, divisor: int)
    requires divisor > 0
    ensures total <= Padded(total, divisor) < total + divisor && Padded(total, divisor) % divisor == 0
  {
    var n := total + divisor - 1;
    assert n == divisor * (n / divisor) + n % divisor;
    assert n / divisor * divisor == divisor * (n / divisor);
    RemainderIs(divisor * (n / divisor), divisor, n / divisor, 0);
  }

  lemma {:induction false} SumGrows(sizes: seq<int>, g: nat, h: nat)
    requires g < h <= |sizes| && forall k | 0 <= k < |sizes| :: sizes[k] >= 2
    ensures Sum(sizes[..g]) + sizes[g] <= Sum(sizes[..h])
    decreases h
  {
    assert sizes[..h][..h - 1] == sizes[..h - 1];
    if g < h - 1 {
      SumGrows(sizes, g, h - 1);
    }
  }

  lemma {:induction false} SumNotNegative(sizes: seq<int>, h: nat)
    requires h <= |sizes| && forall k | 0 <= k < |sizes| :: sizes[k] >= 2
    ensures Sum(sizes[..h]) >= 0
  {
    if h > 0 {
      SumNotNegative(sizes, h - 1);
      assert sizes[..h][..h - 1] == sizes[..h - 1];
    }
  }

  /** A head's table index for a mixed hash value. */
  function HeadId(mixed: int, size: int, offset: int): int
    requires size > 0
  {
    mixed % size + offset
  }

  /**
   * Every id lies in its own head's range; ranges of different heads do not meet; and all of
   * them are rows of the padded table.
   */
  lemma IdsStayInRange(sizes: seq<int>, offsets: seq<int>, divisor: int, g: nat, h: nat, x: int, y: int)
    requires LaidOut(sizes, offsets) && g < |sizes| && h < |sizes| && divisor > 0
    ensures offsets[h] <= HeadId(x, sizes[h], offsets[h]) < offsets[h] + sizes[h]
    ensures 0 <= HeadId(x, sizes[h], offsets[h]) < Sum(sizes) <= Padded(Sum(sizes), divisor)
    ensures g != h ==> HeadId(x, sizes[g], offsets[g]) != HeadId(y, sizes[h], offsets[h])
  {
    assert sizes[..|sizes|] == sizes;
    SumNotNegative(sizes, h);
    SumGrows(sizes, h, |sizes|);
    PaddedCovers(Sum(sizes), divisor);
    if g < h {
      SumGrows(sizes, g, h);
    } else if h < g {
      SumGrows(sizes, h, g);
    }
  }
}
