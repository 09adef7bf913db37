/** Token amounts held by a liquidity position, from square-root prices in Q96. */
module LiquidityAmounts {
  import opened Arith
  import opened TickMath
  import opened Wrappers

  datatype AmountError = DivisionByZero
  datatype Amounts = Amounts(amount0: nat, amount1: nat)

  function Amount0(sqrtA: nat, sqrtB: nat, liquidity: nat): nat
    requires sqrtA > 0 && sqrtB > 0
  {
    var (low, high) := if sqrtA > sqrtB then (sqrtB, sqrtA) else (sqrtA, sqrtB);
    Product(liquidity * Q96, high - low) / high / low
  }

  function Amount1(sqrtA: nat, sqrtB: nat, liquidity: nat): nat {
    var (low, high) := if sqrtA > sqrtB then (sqrtB, sqrtA) else (sqrtA, sqrtB);
    Product(liquidity, high - low) / Q96
  }

  function Clamp(price: nat, low: nat, high: nat): nat
    requires low <= high
  {
    if price <= low then low else if price < high then price else high
  }

  /** The definition without branches: token 0 covers the part of [low, high] above the price,
      token 1 the part below it. */
  function Holdings(price: nat, low: nat, high: nat, liquidity: nat): Amounts
    requires 0 < low <= high
  {
    var at := Clamp(price, low, high);
    Amounts(Amount0(at, high, liquidity), Amount1(low, at, liquidity))
  }

  method GetAmountsForLiquidity(sqrtPrice: nat, sqrtRatioA: nat, sqrtRatioB: nat, liquidity: nat)
      returns (r: Result<Amounts, AmountError>)
    ensures r.Failure? <==> sqrtPrice == 0 && (sqrtRatioA == 0 || sqrtRatioB == 0)
    ensures 0 < sqrtRatioA && 0 < sqrtRatioB ==>
              r == Success(if sqrtRatioA <= sqrtRatioB then Holdings(sqrtPrice, sqrtRatioA, sqrtRatioB, liquidity)
                           else Holdings(sqrtPrice, sqrtRatioB, sqrtRatioA, liquidity))
  {
    var a, b := sqrtRatioA, sqrtRatioB;
    if a > b { a, b := b, a; }
    if a > 0 { NothingBetween(a, liquidity); NothingBetween(b, liquidity); }

    var amount0, amount1 := 0, 0;
    if sqrtPrice <= a {
      if a == 0 { return Failure(DivisionByZero); }
      amount0 := Amount0(a, b, liquidity);
    } else if sqrtPrice < b {
      amount0 := Amount0(sqrtPrice, b, liquidity);
      amount1 := Amount1(a, sqrtPrice, liquidity);
    } else {
      amount1 := Amount1(a, b, liquidity);
    }
    r := Success(Amounts(amount0, amount1));
  }

  lemma NothingBetween(a: nat, liquidity: nat)
    requires a > 0
    ensures Amount0(a, a, liquidity) == 0 && Amount1(a, a, liquidity) == 0
  {
    assert 0 / a == 0 by { DivExact(0, a); }
  }

  // ---- floor arithmetic ----

  /** The two divisions in a row lose no more than one floor of the exact quotient. */
  lemma Amount0IsOneFloor(a: nat, b: nat, liquidity: nat)
    requires 0 < a <= b
    ensures a * b > 0 && Amount0(a, b, liquidity) == Product(liquidity * Q96, b - a) / (a * b)
  {
    DivDiv(Product(liquidity * Q96, b - a), a, b);
  }

  /** Token 0 between two prices: the largest number of units whose exact value is at most liquidity / a - liquidity / b
      in Q96, multiplied out. */
  lemma Amount0IsFloor(a: nat, b: nat, liquidity: nat)
    requires 0 < a <= b
    ensures var amount := Amount0(a, b, liquidity);
            && amount == Amount0(b, a, liquidity)
            && amount * (a * b) <= liquidity * 0x1_0000_0000_0000_0000_0000_0000 * (b - a) < (amount + 1) * (a * b)
  {
    Amount0IsOneFloor(a, b, liquidity);
    FloorOf(Product(liquidity * Q96, b - a), a * b);
  }

  /** Token 1: the largest number of units that is at most liquidity * (b - a) in Q96. */
  lemma Amount1IsFloor(a: nat, b: nat, liquidity: nat)
    requires a <= b
    ensures var amount := Amount1(a, b, liquidity);
            && amount == Amount1(b, a, liquidity)
            && amount * 0x1_0000_0000_0000_0000_0000_0000 <= liquidity * (b - a)
            && liquidity * (b - a) < (amount + 1) * 0x1_0000_0000_0000_0000_0000_0000
  {
    FloorOf(Product(liquidity, b - a), Q96);
  }

  lemma FloorOf(x: nat, d: nat)
    requires d > 0
    ensures x / d * d <= x < (x / d + 1) * d
  {
    assert x == d * (x / d) + x % d;
  }

  /** Splitting a range loses at most one unit of token 0. */
  lemma Amount0Split(a: nat, b: nat, c: nat, liquidity: nat)
    requires 0 < a <= b <= c
    ensures 0 <= Amount0(a, c, liquidity) - Amount0(a, b, liquidity) - Amount0(b, c, liquidity) <= 1
  {
    var x: nat := liquidity * Q96;
    Amount0IsOneFloor(a, b, liquidity);
    Amount0IsOneFloor(b, c, liquidity);
    Amount0IsOneFloor(a, c, liquidity);
    var ab: nat, bc: nat, ac: nat := Product(x, b - a), Product(x, c - b), Product(x, c - a);
    DivCancel(ab, a * b, c);
    DivCancel(bc, b * c, a);
    DivCancel(ac, a * c, b);
    CommonDenominator(x, a, b, c);
    DivSum(ab * c, bc * a, a * b * c);
  }

  lemma CommonDenominator(x: nat, a: nat, b: nat, c: nat)
    requires 0 < a <= b <= c
    ensures Product(x, b - a) * c + Product(x, c - b) * a == Product(x, c - a) * b
    ensures a * b * c == b * c * a == a * c * b
  {
    assert x * (b - a) * c == x * ((b - a) * c);
    assert x * (c - b) * a == x * ((c - b) * a);
    assert x * (c - a) * b == x * ((c - a) * b);
    assert (b - a) * c + (c - b) * a == (c - a) * b;
  }

  /** Splitting a range loses at most one unit of token 1. */
  lemma Amount1Split(a: nat, b: nat, c: nat, liquidity: nat)
    requires a <= b <= c
    ensures 0 <= Amount1(a, c, liquidity) - Amount1(a, b, liquidity) - Amount1(b, c, liquidity) <= 1
  {
    assert liquidity * (c - a) == liquidity * (b - a) + liquidity * (c - b);
    DivSum(Product(liquidity, b - a), Product(liquidity, c - b), Q96);
  }

  // ---- positions ----

  /** One position over [a, c] and two positions over [a, b] and [b, c] hold the same up to one unit
      of each token, at every price. */
  lemma PositionSplit(price: nat, a: nat, b: nat, c: nat, liquidity: nat)
    requires 0 < a <= b <= c
    ensures var whole := Holdings(price, a, c, liquidity);
            var left, right := Holdings(price, a, b, liquidity), Holdings(price, b, c, liquidity);
            && 0 <= whole.amount0 - left.amount0 - right.amount0 <= 1
            && 0 <= whole.amount1 - left.amount1 - right.amount1 <= 1
  {
    NothingBetween(b, liquidity);
    NothingBetween(a, liquidity);
    NothingBetween(c, liquidity);
    var at := Clamp(price, a, c);
    if at <= b {
      assert Clamp(price, a, b) == at && Clamp(price, b, c) == b;
      Amount0Split(at, b, c, liquidity);
    } else {
      assert Clamp(price, a, b) == b && Clamp(price, b, c) == at;
      Amount1Split(a, b, at, liquidity);
    }
  }

  /** A rising price turns token 0 into token 1, across all three branches. */
  lemma PriceMovesHoldings(p: nat, q: nat, low: nat, high: nat, liquidity: nat)
    requires p <= q && 0 < low <= high
    ensures Holdings(q, low, high, liquidity).amount0 <= Holdings(p, low, high, liquidity).amount0
    ensures Holdings(p, low, high, liquidity).amount1 <= Holdings(q, low, high, liquidity).amount1
  {
    var at, at' := Clamp(p, low, high), Clamp(q, low, high);
    Amount0Split(at, at', high, liquidity);
    Amount1Split(low, at, at', liquidity);
  }

  /** A wider range never holds less of either token. */
  lemma WideningKeepsHoldings(price: nat, low: nat, high: nat, low': nat, high': nat, liquidity: nat)
    requires 0 < low' <= low <= high <= high'
    ensures Holdings(price, low, high, liquidity).amount0 <= Holdings(price, low', high', liquidity).amount0
    ensures Holdings(price, low, high, liquidity).amount1 <= Holdings(price, low', high', liquidity).amount1
  {
    PositionSplit(price, low', low, high', liquidity);
    PositionSplit(price, low, high, high', liquidity);
  }

  /** At and outside the ends of the range one token is gone; the branches agree where they meet. */
  lemma OutOfRangeHoldsOneToken(price: nat, low: nat, high: nat, liquidity: nat)
    requires 0 < low <= high
    ensures price <= low ==> Holdings(price, low, high, liquidity) == Amounts(Amount0(low, high, liquidity), 0)
    ensures high <= price ==> Holdings(price, low, high, liquidity) == Amounts(0, Amount1(low, high, liquidity))
  {
    NothingBetween(low, liquidity);
    NothingBetween(high, liquidity);
  }

  /** With enough liquidity a range of positive width holds some of both tokens. */
  lemma EnoughLiquidity(a: nat, b: nat, liquidity: nat)
    requires 0 < a < b && Product(a, b) <= liquidity && Q96 <= liquidity
    ensures Amount0(a, b, liquidity) > 0 && Amount1(a, b, liquidity) > 0
  {
    AtLeastOne(liquidity, b - a, Q96);
    Amount0IsOneFloor(a, b, liquidity);
    MulMono(1, Q96, liquidity);
    AtLeastOne(liquidity * Q96, b - a, a * b);
  }

  lemma AtLeastOne(x: nat, width: nat, d: nat)
    requires 0 < d <= x && 0 < width
    ensures Product(x, width) / d >= 1
  {
    MulMono(1, width, x);
    DivMono(d, Product(x, width), d);
    DivExact(1, d);
  }
}
