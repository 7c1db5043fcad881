/** Rounding in currency conversion: one conversion, its ledger row, and chains of conversions. */
module Conversion {
  import opened Money

  lemma MulMonotone(a: real, b: real, c: real)
    requires a <= b && c >= 0.0
    ensures a * c <= b * c
  {
    assert (b - a) * c >= 0.0;
  }

  lemma MulNonNegative(a: real, c: real)
    requires a >= 0.0 && c >= 0.0
    ensures a * c >= 0.0
  {
  }

  /** A factor that is off by at most `e` moves the product by at most `e` times the other one. */
  lemma MulNear(a: real, b: real, e: real, c: real)
    requires -e <= a - b <= e && c >= 0.0
    ensures -(e * c) <= a * c - b * c <= e * c
  {
    MulMonotone(a, b + e, c);
    MulMonotone(b, a + e, c);
    assert (b + e) * c == b * c + e * c;
    assert (a + e) * c == a * c + e * c;
  }

  lemma EpsMonotone(x: real, y: real)
    requires x <= y
    ensures Eps(x) <= Eps(y)
  {
  }

  lemma CombineErrors(c: real, d: real, a: real, r: real, h: real, rounding: real)
    requires r >= 0.0
    requires -h <= d - a <= h
    requires -(h + rounding) <= c - a * r <= h + rounding
    ensures -(h + h * r + rounding) <= c - d * r <= h + h * r + rounding
  {
    MulNear(d, a, h, r);
  }

  lemma CombineRateError(c: real, d: real, r: real, s: real, h: real, error: real)
    requires d >= 0.0 && -h <= r - s <= h
    requires -error <= c - d * r <= error
    ensures -(error + h * d) <= c - d * s <= error + h * d
  {
    MulNear(r, s, h, d);
  }

  /** From the error in terms of the true amount and rate to one in terms of the stored ones. */
  lemma ErrorFromStored(c: real, d: real, s: real, a: real, r: real, h: real, h': real)
    requires d >= 0.0 && a >= 0.0 && r >= 0.0 && h >= 0.0
    requires -h <= d - a <= h && -h' <= r - s <= h'
    requires var error := h + h * r + Eps(a * r); -error <= c - d * r <= error
    ensures var error := h + h * (s + h') + h' * d + Eps((d + h) * (s + h'));
            -error <= c - d * s <= error
  {
    hide Eps;
    CombineRateError(c, d, r, s, h', h + h * r + Eps(a * r));
    ProductAtMost(a, d + h, r, s + h');
    EpsMonotone(a * r, (d + h) * (s + h'));
    MulMonotone(r, s + h', h);
    assert h * r <= h * (s + h');
  }

  lemma ProductAtMost(a: real, b: real, r: real, s: real)
    requires 0.0 <= a <= b && 0.0 <= r <= s
    ensures a * r <= b * s
  {
    MulMonotone(a, b, r);
    MulMonotone(r, s, b);
  }

  lemma PrintedNear(exact: real)
    requires exact >= 0.0
    ensures Fixed4(Fl(exact)) >= 0
    ensures -(0.00005 + Eps(exact)) <= Value(Fixed4(Fl(exact))) - exact <= 0.00005 + Eps(exact)
  {
    FlRounds(exact, exact);
    Fixed4Error(Fl(exact));
  }

  /** The credit is the product of the unrounded amount and the rate, rounded once and printed. */
  lemma CreditIsTheProduct(amount: real, rate: real)
    requires amount >= 0.0 && rate >= 0.0
    ensures var bound := 0.00005 + Eps(amount * rate);
            -bound <= Value(Credited(amount, rate)) - amount * rate <= bound
  {
    MulNonNegative(amount, rate);
    PrintedNear(amount * rate);
  }

  /** The credit uses the unrounded amount and the debit the rounded one; the two differ from an
      exact conversion of the debit by at most half a place on each side and one rounding. */
  lemma ConversionError(amount: real, rate: real)
    requires amount >= 0.0 && rate >= 0.0
    ensures Credited(amount, rate) >= 0
    ensures var error := Value(Credited(amount, rate)) - Value(Fixed4(amount)) * rate;
            var bound := 0.00005 + 0.00005 * rate + Eps(amount * rate);
            -bound <= error <= bound
  {
    Fixed4Error(amount);
    MulNonNegative(amount, rate);
    PrintedNear(amount * rate);
    CombineErrors(Value(Credited(amount, rate)), Value(Fixed4(amount)), amount, rate, 0.00005, Eps(amount * rate));
  }

  /** What a ledger row (debited amount, eight-decimal rate) leaves open about the credit. */
  function Slack(debit: int, rate8: int): real {
    var rateAtMost := Rate(rate8) + 0.000000005;
    0.00005 + 0.00005 * rateAtMost + 0.000000005 * Value(debit) + Eps((Value(debit) + 0.00005) * rateAtMost)
  }

  /** The credit a ledger row suggests, in currency units. */
  function Suggested(debit: int, rate8: int): real { Value(debit) * Rate(rate8) }

  /** The stored row determines the credited amount up to its slack. */
  lemma RowDeterminesCredit(amount: real, rate: real)
    requires amount >= 0.0 && rate >= 0.0
    ensures var d, r := Fixed4(amount), Fixed8(rate);
            -Slack(d, r) <= Value(Credited(amount, rate)) - Suggested(d, r) <= Slack(d, r)
  {
    hide Credited, Fixed4, Fixed8;
    Fixed4Error(amount);
    Fixed8Error(rate);
    ConversionError(amount, rate);
    ErrorFromStored(Value(Credited(amount, rate)), Value(Fixed4(amount)), Rate(Fixed8(rate)),
                    amount, rate, 0.00005, 0.000000005);
  }

  /** Converting a stored amount: its string is parsed, multiplied and printed again. */
  function Convert(n: int, rate: real): int { Credited(Parse(n), rate) }

  /** `x` with two roundings to the double above. */
  function Grown(x: real): real { x + Eps(x) + Eps(x + Eps(x)) }

  lemma GrownScales(x: real, y: real)
    ensures Grown(x * y) == x * Grown(y)
  {
    var z := x * y;
    assert x * Eps(y) == Eps(z);
    assert x * (y + Eps(y)) == z + Eps(z);
    assert x * Eps(y + Eps(y)) == Eps(x * (y + Eps(y)));
    assert x * (y + Eps(y) + Eps(y + Eps(y))) == x * (y + Eps(y)) + x * Eps(y + Eps(y));
  }

  /** The most that `v` units can have become after conversions with these products. */
  function AtMost(v: real, product: real, suffixes: real): real { v * product + 0.00005 * suffixes }

  lemma GrownCovers(v: real, p: real, rate: real, printed: real)
    requires v >= 0.0 && 0.0 <= p <= v + Eps(v) && rate >= 0.0
    requires printed <= p * rate + Eps(p * rate) + 0.00005
    ensures printed <= AtMost(v, Grown(rate), 1.0)
  {
    MulMonotone(p, v + Eps(v), rate);
    var w := v * rate;
    assert (v + Eps(v)) * rate == w + Eps(w);
    EpsMonotone(p * rate, w + Eps(w));
    GrownScales(v, rate);
  }

  lemma ConvertAtMost(n: int, rate: real)
    requires n >= 0 && rate >= 0.0
    ensures 0 <= Convert(n, rate)
    ensures Value(Convert(n, rate)) <= AtMost(Value(n), Grown(rate), 1.0)
  {
    ParseError(n);
    MulNonNegative(Parse(n), rate);
    PrintedNear(Parse(n) * rate);
    GrownCovers(Value(n), Parse(n), rate, Value(Convert(n, rate)));
  }

  predicate NonNegative(rates: seq<real>) {
    forall i | 0 <= i < |rates| :: rates[i] >= 0.0
  }

  /** A chain of conversions, each of the amount the previous one credited. */
  function Chain(n: int, rates: seq<real>): int
    decreases |rates|
  {
    if rates == [] then n else Chain(Convert(n, rates[0]), rates[1..])
  }

  function Product(rates: seq<real>): real {
    if rates == [] then 1.0 else Grown(rates[0]) * Product(rates[1..])
  }

  /** The sum of the products of all proper suffixes. */
  function SuffixProducts(rates: seq<real>): real {
    if rates == [] then 0.0 else Product(rates[1..]) + SuffixProducts(rates[1..])
  }

  lemma {:induction false} ProductNonNegative(rates: seq<real>)
    requires NonNegative(rates)
    ensures Product(rates) >= 0.0
  {
    if rates != [] {
      ProductNonNegative(rates[1..]);
      MulNonNegative(Grown(rates[0]), Product(rates[1..]));
    }
  }

  lemma StepAlgebra(c: real, v: real, g: real, p: real, s: real, product: real, suffixes: real)
    requires c <= AtMost(v, g, 1.0) && p >= 0.0
    requires product == g * p && suffixes == p + s
    ensures AtMost(c, p, s) <= AtMost(v, product, suffixes)
  {
    MulMonotone(c, v * g + 0.00005, p);
    assert (v * g + 0.00005) * p == v * (g * p) + 0.00005 * p;
  }

  lemma ChainStep(c: real, v: real, rates: seq<real>)
    requires rates != [] && NonNegative(rates)
    requires c <= AtMost(v, Grown(rates[0]), 1.0)
    ensures AtMost(c, Product(rates[1..]), SuffixProducts(rates[1..]))
         <= AtMost(v, Product(rates), SuffixProducts(rates))
  {
    hide AtMost, Grown;
    ProductNonNegative(rates[1..]);
    StepAlgebra(c, v, Grown(rates[0]), Product(rates[1..]), SuffixProducts(rates[1..]),
                Product(rates), SuffixProducts(rates));
  }

  /** A chain of conversions gains no more than half a ten-thousandth per step, carried along. */
  lemma {:induction false} ChainAtMost(n: int, rates: seq<real>)
    requires n >= 0 && NonNegative(rates)
    ensures 0 <= Chain(n, rates)
    ensures Value(Chain(n, rates)) <= AtMost(Value(n), Product(rates), SuffixProducts(rates))
    decreases |rates|
  {
    if rates != [] {
      hide AtMost, Convert, Grown, Value, Product, SuffixProducts;
      var c := Convert(n, rates[0]);
      ConvertAtMost(n, rates[0]);
      ChainAtMost(c, rates[1..]);
      ChainStep(Value(c), Value(n), rates);
    }
  }

  lemma ProductOfTwo(there: real, back: real)
    ensures Product([there, back]) == Grown(Grown(there * back))
    ensures SuffixProducts([there, back]) == Grown(back) + 1.0
  {
    var rates := [there, back];
    assert rates[1..] == [back] && [back][1..] == [];
    assert Product([back]) == Grown(back) * 1.0 && SuffixProducts([back]) == 1.0;
    GrownScales(Grown(there), back);
    GrownScales(back, there);
    assert back * there == there * back && back * Grown(there) == Grown(there) * back;
  }

  lemma GrownMonotone(x: real, y: real)
    requires x <= y
    ensures Grown(x) <= Grown(y)
  {
  }

  /** There and back at rates that do not favour the customer gains at most one rounding step. */
  lemma RoundTripGain(n: int, there: real, back: real)
    requires n >= 0 && there >= 0.0 && back >= 0.0 && there * back <= 1.0
    ensures Value(Chain(n, [there, back])) <= AtMost(Value(n), Grown(Grown(1.0)), Grown(back) + 1.0)
  {
    ChainAtMost(n, [there, back]);
    ProductOfTwo(there, back);
    GrownMonotone(there * back, 1.0);
    GrownMonotone(Grown(there * back), Grown(1.0));
    RoundTripStep(Value(n), Product([there, back]), Grown(Grown(1.0)), Grown(back) + 1.0);
  }

  lemma RoundTripStep(v: real, p: real, q: real, s: real)
    requires v >= 0.0 && p <= q
    ensures AtMost(v, p, s) <= AtMost(v, q, s)
  {
    MulMonotone(p, q, v);
    assert v * p == p * v && v * q == q * v;
  }
}
