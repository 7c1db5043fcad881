/** Money arithmetic.

    A balance is stored as a decimal string with four places. The service parses it into a
    binary64 number, adds, subtracts or compares, and prints the result with `toFixed(4)`.
    Here a stored amount is the integer number of ten-thousandths, a binary64 number is the real
    it denotes, and `Fl` is the rounding of a real to 53 significant bits, ties to even
    (section 4.3.1 of IEEE 754-2019), without limits on the exponent. */
module Money {
  const P52: real := 4503599627370496.0
  const P53: real := 9007199254740992.0

  /** The largest rounding error of a number of magnitude `x`: 2^-53 of it. */
  function Eps(x: real): real { x / 9007199254740992.0 }

  /** 2^38 currency units: up to here the binary64 path is exact on four-decimal amounts. */
  const BOUND: int := 2_748_779_069_440_000

  function RoundEven(x: real): (n: int)
    ensures -0.5 <= n as real - x <= 0.5
    ensures n as real - x == 0.5 || n as real - x == -0.5 ==> n % 2 == 0
  {
    var n := x.Floor;
    var d := x - n as real;
    if d < 0.5 then n
    else if d > 0.5 then n + 1
    else if n % 2 == 0 then n else n + 1
  }

  /** How many binades `x` is away from [2^52, 2^53), over-approximated. */
  ghost function Distance(x: real): nat
    requires x > 0.0
  {
    if x >= P53 then x.Floor
    else if x < P52 then (P53 / x).Floor
    else 0
  }

  lemma HalvingIsCloser(x: real)
    requires x >= P53
    ensures Distance(x / 2.0) < Distance(x)
  {
  }

  lemma DoublingIsCloser(x: real)
    requires 0.0 < x < P52
    ensures Distance(2.0 * x) < Distance(x)
  {
    var y := P53 / x;
    assert y > 2.0 by {
      assert y * x == P53;
      assert (y - 2.0) * x > 0.0;
    }
    if 2.0 * x < P52 {
      assert P53 / (2.0 * x) == y / 2.0 by {
        assert (y / 2.0) * (2.0 * x) == y * x;
      }
    }
  }

  /** Rounding of a positive real: scale it to an integer part of 53 bits, round that. */
  function FlPos(x: real): real
    requires x > 0.0
    decreases Distance(x)
  {
    if x >= P53 then
      HalvingIsCloser(x);
      2.0 * FlPos(x / 2.0)
    else if x < P52 then
      DoublingIsCloser(x);
      FlPos(2.0 * x) / 2.0
    else
      RoundEven(x) as real
  }

  function Fl(x: real): real {
    if x == 0.0 then 0.0
    else if x > 0.0 then FlPos(x)
    else -FlPos(-x)
  }

  lemma {:induction false} FlPosError(x: real)
    requires x > 0.0
    ensures -Eps(x) <= FlPos(x) - x <= Eps(x)
    decreases Distance(x)
  {
    if x >= P53 {
      HalvingIsCloser(x);
      FlPosError(x / 2.0);
    } else if x < P52 {
      DoublingIsCloser(x);
      FlPosError(2.0 * x);
    }
  }

  lemma {:induction false} FlPosAbove(x: real)
    requires x >= P52
    ensures FlPos(x) >= P52
    ensures x >= P53 ==> FlPos(x) >= P53
    decreases Distance(x)
  {
    if x >= P53 {
      HalvingIsCloser(x);
      FlPosAbove(x / 2.0);
    }
  }

  lemma {:induction false} FlPosBelow(x: real)
    requires 0.0 < x < P53
    ensures FlPos(x) <= P53
    ensures x < P52 ==> FlPos(x) <= P52
    decreases Distance(x)
  {
    if x < P52 {
      DoublingIsCloser(x);
      FlPosBelow(2.0 * x);
    }
  }

  lemma FlPosDouble(x: real)
    requires x > 0.0
    ensures FlPos(2.0 * x) == 2.0 * FlPos(x)
  {
  }

  lemma RoundEvenMonotone(x: real, y: real)
    requires x <= y
    ensures RoundEven(x) <= RoundEven(y)
  {
  }

  lemma {:induction false} FlPosMonotone(x: real, y: real)
    requires 0.0 < x <= y
    ensures FlPos(x) <= FlPos(y)
    decreases Distance(x)
  {
    if x >= P53 {
      HalvingIsCloser(x);
      FlPosMonotone(x / 2.0, y / 2.0);
    } else if y < P52 {
      DoublingIsCloser(x);
      FlPosMonotone(2.0 * x, 2.0 * y);
    } else {
      FlPosBelow(x);
      FlPosAbove(y);
      RoundEvenMonotone(x, y);
    }
  }

  /** Rounding to nearest: monotone, within half a unit in the last place, sign-preserving. */
  lemma FlRounds(x: real, y: real)
    ensures x <= y ==> Fl(x) <= Fl(y)
    ensures x >= 0.0 ==> -Eps(x) <= Fl(x) - x <= Eps(x) && Fl(x) >= 0.0
  {
    if x > 0.0 {
      FlPosError(x);
    }
    if 0.0 < x <= y {
      FlPosMonotone(x, y);
    }
    if x <= y < 0.0 {
      FlPosMonotone(-y, -x);
    }
    if x < 0.0 {
      FlPosError(-x);
    }
    if y > 0.0 {
      FlPosError(y);
    }
  }

  /** `toFixed`: the nearest multiple of 1/scale as an integer, the larger one on a tie
      (section 21.1.3.3 of ECMA-262); a negative number is printed as minus its magnitude. */
  function ToFixed(x: real, scale: real): int
    requires scale > 0.0
  {
    if x < 0.0 then -((-x * scale + 0.5).Floor) else (x * scale + 0.5).Floor
  }

  /** `parseFloat` of a stored four-decimal string. */
  function Parse(n: int): real { Fl(n as real / 10000.0) }

  /** `amount.toFixed(4)`. */
  function Fixed4(x: real): int { ToFixed(x, 10000.0) }

  /** `rate.toFixed(8)`. */
  function Fixed8(x: real): int { ToFixed(x, 100000000.0) }

  /** `(parseFloat(a) + parseFloat(b)).toFixed(4)`. */
  function Add(a: int, b: int): int { Fixed4(Fl(Parse(a) + Parse(b))) }

  /** `(parseFloat(a) - parseFloat(b)).toFixed(4)`. */
  function Sub(a: int, b: int): int { Fixed4(Fl(Parse(a) - Parse(b))) }

  /** `parseFloat(a) < parseFloat(b)`. */
  predicate Less(a: int, b: int) { Parse(a) < Parse(b) }

  /** `(amount * rate).toFixed(4)`: what a conversion credits. */
  function Credited(amount: real, rate: real): int { Fixed4(Fl(amount * rate)) }

  /** A stored amount in currency units. */
  function Value(n: int): real { n as real / 10000.0 }

  /** A stored eight-decimal rate. */
  function Rate(n: int): real { n as real / 100000000.0 }

  lemma FixedNear(x: real, n: int)
    requires n >= 0 && -0.00005 < x - Value(n) < 0.00005 && x >= 0.0
    ensures Fixed4(x) == n
  {
  }

  lemma Fixed4Error(x: real)
    requires x >= 0.0
    ensures Fixed4(x) >= 0 && -0.00005 <= Value(Fixed4(x)) - x <= 0.00005
  {
  }

  lemma Fixed8Error(x: real)
    requires x >= 0.0
    ensures Fixed8(x) >= 0 && -0.000000005 <= Rate(Fixed8(x)) - x <= 0.000000005
  {
  }

  lemma ParseError(n: int)
    requires n >= 0
    ensures Parse(n) >= 0.0 && -Eps(Value(n)) <= Parse(n) - Value(n) <= Eps(Value(n))
  {
    FlRounds(Value(n), Value(n));
  }

  /** At every magnitude: sums stay non-negative, and so do differences after the check passed. */
  lemma NeverNegative(a: int, b: int)
    requires a >= 0 && b >= 0
    ensures Add(a, b) >= 0
    ensures !Less(a, b) ==> Sub(a, b) >= 0
  {
    ParseError(a);
    ParseError(b);
    var s, d := Parse(a) + Parse(b), Parse(a) - Parse(b);
    FlRounds(s, s);
    FlRounds(d, d);
  }

  /** A binary64 number: rounding leaves it alone. */
  predicate IsDouble(d: real) { d > 0.0 && FlPos(d) == d }

  /** In [2^52, 2^53] exactly the integers are binary64 numbers. */
  lemma RoundedIsNearest(x: real, d: real)
    requires P52 <= x < P53 && IsDouble(d)
    ensures -Gap(d, x) <= FlPos(x) - x <= Gap(d, x)
  {
    if P52 <= d < P53 {
      assert d == RoundEven(d) as real;
      NearestInteger(x, RoundEven(d));
    } else if d < P52 {
      NearestInteger(x, 4503599627370496);
    } else {
      NearestInteger(x, 9007199254740992);
    }
  }

  /** Halfway between two integers, the even one. */
  lemma TiesGoToEven(n: int)
    ensures RoundEven(n as real + 0.5) == if n % 2 == 0 then n else n + 1
  {
    assert (n as real + 0.5).Floor == n;
  }

  function Gap(x: real, y: real): real { if x < y then y - x else x - y }

  lemma NearestInteger(x: real, n: int)
    ensures -Gap(n as real, x) <= RoundEven(x) as real - x <= Gap(n as real, x)
  {
    if n < RoundEven(x) {
      assert n as real <= RoundEven(x) as real - 1.0;
    } else if n > RoundEven(x) {
      assert n as real >= RoundEven(x) as real + 1.0;
    }
  }

  /** What a positive number is rounded to is a binary64 number, and none is nearer. */
  lemma {:induction false} FlPosIsNearest(x: real, d: real)
    requires x > 0.0 && IsDouble(d)
    ensures FlPos(x) > 0.0 && IsDouble(FlPos(x))
    ensures Gap(FlPos(x), x) <= Gap(d, x)
    decreases Distance(x)
  {
    hide FlPos, Distance, RoundEven;
    if x >= P53 {
      HalvingIsCloser(x);
      FlPosDouble(x / 2.0);
      FlPosDouble(d / 2.0);
      FlPosIsNearest(x / 2.0, d / 2.0);
      FlPosDouble(FlPos(x / 2.0));
    } else if x < P52 {
      DoublingIsCloser(x);
      FlPosDouble(x);
      FlPosDouble(d);
      FlPosIsNearest(2.0 * x, 2.0 * d);
      FlPosDouble(FlPos(x));
    } else {
      RoundedIsNearest(x, d);
      FlPosOnGrid(x);
      IntegersStay(RoundEven(x));
    }
  }

  lemma IntegersStay(n: int)
    requires P52 <= n as real <= P53
    ensures FlPos(n as real) == n as real
  {
    if n as real == P53 {
      assert FlPos(P53) == 2.0 * FlPos(P52);
    }
  }

  /** `toFixed`: no integer is nearer to the scaled magnitude, and of two as near the larger one. */
  lemma ToFixedIsNearest(x: real, scale: real, n: int)
    requires x >= 0.0 && scale > 0.0
    ensures Gap(ToFixed(x, scale) as real, x * scale) <= Gap(n as real, x * scale)
    ensures Gap(ToFixed(x, scale) as real, x * scale) == Gap(n as real, x * scale) ==> n <= ToFixed(x, scale)
    ensures ToFixed(-x, scale) == -ToFixed(x, scale)
  {
    NearestOrLarger(x * scale, n);
    assert x * scale >= 0.0;
    assert -(-x) * scale == x * scale;
  }

  lemma NearestOrLarger(y: real, n: int)
    ensures var f := (y + 0.5).Floor;
            Gap(f as real, y) <= Gap(n as real, y) && (Gap(f as real, y) == Gap(n as real, y) ==> n <= f)
  {
    var f := (y + 0.5).Floor;
    if n < f {
      assert n as real <= f as real - 1.0;
    } else if n > f {
      assert n as real >= f as real + 1.0;
    }
  }

  // ---------- where the path is exact ----------

  const P37: real := 137438953472.0
  const P38: real := 274877906944.0
  const P39: real := 549755813888.0

  /** Below 2^53 rounding moves a number by at most 1/2, below 2^52 by at most 1/4. */
  lemma {:induction false} FlPosHalf(x: real)
    requires 0.0 < x <= P53
    ensures -0.5 <= FlPos(x) - x <= 0.5
    ensures x <= P52 ==> -0.25 <= FlPos(x) - x <= 0.25
    decreases Distance(x)
  {
    if x >= P53 {
      HalvingIsCloser(x);
      FlPosHalf(x / 2.0);
    } else if x < P52 {
      DoublingIsCloser(x);
      FlPosHalf(2.0 * x);
    }
  }

  /** `x` doubled `k` times. */
  function Doubled(x: real, k: nat): real
    decreases k
  {
    if k == 0 then x else Doubled(2.0 * x, k - 1)
  }

  lemma {:induction false} FlPosScaled(x: real, k: nat)
    requires x > 0.0
    ensures Doubled(x, k) > 0.0
    ensures FlPos(Doubled(x, k)) == Doubled(FlPos(x), k)
    decreases k
  {
    if k > 0 {
      FlPosScaled(2.0 * x, k - 1);
      FlPosDouble(x);
    }
  }

  lemma FlPosTimes(x: real)
    requires x > 0.0
    ensures FlPos(8192.0 * x) == 8192.0 * FlPos(x)
    ensures FlPos(16384.0 * x) == 16384.0 * FlPos(x)
    ensures FlPos(32768.0 * x) == 32768.0 * FlPos(x)
  {
    hide FlPos;
    FlPosScaled(x, 13);
    assert Doubled(x, 13) == 8192.0 * x && Doubled(FlPos(x), 13) == 8192.0 * FlPos(x);
    FlPosDouble(8192.0 * x);
    FlPosDouble(16384.0 * x);
  }

  /** The rounding error by magnitude: half the spacing of the numbers below. */
  lemma FlNear(x: real)
    requires 0.0 <= x <= P39
    ensures -0.5 <= 16384.0 * (Fl(x) - x) <= 0.5
    ensures x <= P38 ==> -0.5 <= 32768.0 * (Fl(x) - x) <= 0.5
    ensures x <= P37 ==> -0.25 <= 32768.0 * (Fl(x) - x) <= 0.25
  {
    if x > 0.0 {
      FlPosTimes(x);
      hide FlPos;
      FlPosHalf(16384.0 * x);
      if x <= P38 {
        FlPosHalf(32768.0 * x);
      }
    }
  }

  /** In [2^38, 2^39) the numbers are 2^-14 apart, in [2^39, 2^40) 2^-13. */
  lemma FlOnGrid(x: real)
    requires P38 <= x < 2.0 * P39
    ensures x < P39 ==> 16384.0 * Fl(x) == RoundEven(16384.0 * x) as real
    ensures x >= P39 ==> 8192.0 * Fl(x) == RoundEven(8192.0 * x) as real
  {
    hide FlPos;
    FlPosTimes(x);
    if x < P39 {
      FlPosOnGrid(16384.0 * x);
    } else {
      FlPosOnGrid(8192.0 * x);
    }
  }

  lemma FlPosOnGrid(x: real)
    requires P52 <= x < P53
    ensures FlPos(x) == RoundEven(x) as real
  {
  }

  /** The binary64 sum, printed, is the exact sum. */
  lemma AddExact(a: int, b: int)
    requires a >= 0 && b >= 0 && a + b <= BOUND
    ensures Add(a, b) == a + b
  {
    hide Fl, RoundEven;
    FlNear(Value(a));
    FlNear(Value(b));
    var s := Parse(a) + Parse(b);
    FlRounds(Value(a), Value(a));
    FlRounds(Value(b), Value(b));
    if s <= P38 {
      FlNear(s);
    } else {
      assert a + b == BOUND;
      SumJustAbove(s);
    }
    FlRounds(s, s);
    FixedNear(Fl(s), a + b);
  }

  lemma SumJustAbove(s: real)
    requires P38 <= s && 32768.0 * (s - P38) < 1.0
    ensures Fl(s) == P38
  {
    FlOnGrid(s);
  }

  /** The binary64 difference, printed, is the exact difference. */
  lemma SubExact(a: int, b: int)
    requires 0 <= b <= a <= BOUND
    ensures Sub(a, b) == a - b
  {
    hide Fl;
    FlNear(Value(a));
    FlNear(Value(b));
    FlRounds(Value(b), Value(a));
    FlRounds(Value(a), P38);
    FlNear(P38);
    FlOnGridAt38();
    FlRounds(Value(b), Value(b));
    var d := Parse(a) - Parse(b);
    FlNear(d);
    FlRounds(d, d);
    FixedNear(Fl(d), a - b);
  }

  lemma FlOnGridAt38()
    ensures Fl(P38) == P38
  {
    FlOnGrid(P38);
  }

  /** The binary64 comparison is the exact comparison, twice as far: one of the amounts may even be
      any larger one. */
  lemma LessExact(a: int, b: int)
    requires a >= 0 && b >= 0 && (a <= 2 * BOUND || b <= 2 * BOUND)
    ensures Less(a, b) <==> a < b
  {
    hide Fl;
    if b <= a {
      FlRounds(Value(b), Value(a));
    } else {
      FlNear(Value(a));
      if b <= 2 * BOUND {
        FlNear(Value(b));
        assert Value(a) + 0.0001 <= Value(b);
      } else {
        FlRounds(Value(a), P39);
        ParsedAbove39();
        FlRounds(Value(2 * BOUND + 1), Value(b));
      }
    }
  }

  lemma ParsedAbove39()
    ensures Parse(2 * BOUND) == P39 < Parse(2 * BOUND + 1)
  {
    hide Fl;
    FlOnGrid(Value(2 * BOUND));
    FlOnGrid(Value(2 * BOUND + 1));
  }

  /** And so far a stored amount survives being parsed and printed. */
  lemma PrintedParsed(n: int)
    requires 0 <= n <= 2 * BOUND
    ensures Fixed4(Parse(n)) == n
  {
    hide Fl;
    FlNear(Value(n));
    FlRounds(Value(n), Value(n));
    FixedNear(Parse(n), n);
  }

  // ---------- and where it is not ----------

  function Pow2(k: nat): int { if k == 0 then 1 else 2 * Pow2(k - 1) }

  lemma {:induction false} Pow2Monotone(j: nat, k: nat)
    requires j <= k
    ensures 0 < Pow2(j) <= Pow2(k)
    decreases k
  {
    if j < k {
      Pow2Monotone(j, k - 1);
    } else if k > 0 {
      Pow2Monotone(j - 1, k - 1);
    }
  }

  lemma Thresholds(k: nat)
    ensures 10000 * Pow2(k) <= BOUND <==> k <= 38
    ensures 10000 * Pow2(k) <= 2 * BOUND <==> k <= 39
    ensures k >= 39 ==> 10000 * Pow2(k) >= 2 * BOUND
    ensures k >= 40 ==> 10000 * Pow2(k) >= 4 * BOUND
  {
    assert Pow2(10) == 1024;
    assert Pow2(20) == 1048576;
    assert Pow2(30) == 1073741824;
    assert Pow2(38) == 274877906944;
    Pow2Monotone(if k <= 38 then k else 39, if k <= 38 then 38 else k);
    if k >= 40 {
      Pow2Monotone(40, k);
    }
  }

  /** Just above 2^38 units a sum and a difference come out one ten-thousandth off. */
  lemma InexactAbove38()
    ensures Add(BOUND + 4, 4) == BOUND + 9
    ensures Sub(BOUND + 7, 1) == BOUND + 5
  {
    hide Fl, FlPos;
    var a, b := Parse(BOUND + 4), Parse(BOUND + 7);
    FlOnGrid(Value(BOUND + 4));
    FlOnGrid(Value(BOUND + 7));
    assert 16384.0 * a == P52 + 7.0 && 16384.0 * b == P52 + 11.0;
    ParseError(4);
    ParseError(1);
    FlOnGrid(a + Parse(4));
    FlOnGrid(b - Parse(1));
    assert 16384.0 * Fl(a + Parse(4)) == P52 + 14.0;
    assert 16384.0 * Fl(b - Parse(1)) == P52 + 9.0;
  }

  /** Just above 2^39 units two amounts parse alike, and one is printed differently. */
  lemma InexactAbove39()
    ensures !Less(2 * BOUND + 2, 2 * BOUND + 3)
    ensures Fixed4(Parse(2 * BOUND + 3)) == 2 * BOUND + 2
  {
    hide Fl, FlPos;
    FlOnGrid(Value(2 * BOUND + 2));
    FlOnGrid(Value(2 * BOUND + 3));
    assert 8192.0 * Parse(2 * BOUND + 2) == P52 + 2.0;
    assert 8192.0 * Parse(2 * BOUND + 3) == P52 + 2.0;
  }

  /** Sums up to a power of two are all exact exactly up to 2^38 units. */
  lemma SumsExactUpTo(k: nat)
    ensures (forall a, b | a >= 0 && b >= 0 && a + b <= 10000 * Pow2(k) :: Add(a, b) == a + b) <==> k <= 38
  {
    hide Add, Pow2;
    Thresholds(k);
    InexactAbove38();
    forall a, b | a >= 0 && b >= 0 && a + b <= 10000 * Pow2(k) && k <= 38 ensures Add(a, b) == a + b {
      AddExact(a, b);
    }
  }

  /** So are differences of such amounts. */
  lemma DifferencesExactUpTo(k: nat)
    ensures (forall a, b | 0 <= b <= a <= 10000 * Pow2(k) :: Sub(a, b) == a - b) <==> k <= 38
  {
    hide Sub, Pow2;
    Thresholds(k);
    InexactAbove38();
    forall a, b | 0 <= b <= a <= 10000 * Pow2(k) && k <= 38 ensures Sub(a, b) == a - b {
      SubExact(a, b);
    }
  }

  /** Comparisons, and printing what was parsed, are exact exactly up to 2^39 units. */
  lemma ComparisonsExactUpTo(k: nat)
    ensures (forall a, b | 0 <= a <= 10000 * Pow2(k) && 0 <= b <= 10000 * Pow2(k) :: Less(a, b) <==> a < b) <==> k <= 39
    ensures (forall n | 0 <= n <= 10000 * Pow2(k) :: Fixed4(Parse(n)) == n) <==> k <= 39
  {
    hide Less, Parse, Fixed4, Pow2;
    Thresholds(k);
    InexactAbove39();
    forall a, b | 0 <= a <= 10000 * Pow2(k) && 0 <= b <= 10000 * Pow2(k) && k <= 39 ensures Less(a, b) <==> a < b {
      LessExact(a, b);
    }
    forall n | 0 <= n <= 10000 * Pow2(k) && k <= 39 ensures Fixed4(Parse(n)) == n {
      PrintedParsed(n);
    }
  }
}
