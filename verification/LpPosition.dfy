/** A liquidity position read off the chain: integer amounts and the in-range flag. */
module LpPosition {
  import opened Arith
  import opened LiquidityAmounts
  import opened TickMath
  import opened Wrappers

  /** The fields of the raw read that the amounts and the flag depend on. */
  datatype LpRawRead = LpRawRead(tickLower: int, tickUpper: int, liquidity: nat, sqrtPrice: nat, currentTick: int)
  datatype ValuedPosition = ValuedPosition(amounts: Amounts, inRange: bool)

  /** The current tick is one whose price interval, both ends included, holds the pool's price. A pool that
      stops exactly on the price of a tick while the price falls stores the tick below. */
  ghost predicate PoolSlot0(r: LpRawRead) {
    && InRange(r.currentTick) && InRange(r.currentTick + 1)
    && Price(r.currentTick) <= r.sqrtPrice <= Price(r.currentTick + 1)
  }

  /** The price is not the upper end of the current tick's interval. */
  ghost predicate ConsistentSlot0(r: LpRawRead) {
    PoolSlot0(r) && r.sqrtPrice < Price(r.currentTick + 1)
  }

  ghost function Position(r: LpRawRead): ValuedPosition
    requires InRange(r.tickLower) && InRange(r.tickUpper)
  {
    PriceRange(r.tickLower);
    PriceRange(r.tickUpper);
    var lower, upper := Price(r.tickLower), Price(r.tickUpper);
    ValuedPosition(
      if lower <= upper then Holdings(r.sqrtPrice, lower, upper, r.liquidity)
      else Holdings(r.sqrtPrice, upper, lower, r.liquidity),
      r.tickLower <= r.currentTick < r.tickUpper)
  }

  method BuildLpPosition(r: LpRawRead) returns (position: Result<ValuedPosition, TickError>)
    ensures position ==
            if InRange(r.tickLower) && InRange(r.tickUpper) then Success(Position(r)) else Failure(TickOutOfRange)
  {
    var sqrtLower :- SqrtRatioAtTick(r.tickLower);
    var sqrtUpper :- SqrtRatioAtTick(r.tickUpper);
    PriceRange(r.tickLower);
    PriceRange(r.tickUpper);
    var amounts := GetAmountsForLiquidity(r.sqrtPrice, sqrtLower, sqrtUpper, r.liquidity);
    var inRange := r.tickLower <= r.currentTick && r.currentTick < r.tickUpper;
    position := Success(ValuedPosition(amounts.value, inRange));
  }

  /** The flag is computed from ticks and the amounts from prices; they tell the same story. */
  lemma InRangeAgreesWithPrices(r: LpRawRead)
    requires InRange(r.tickLower) && InRange(r.tickUpper) && ConsistentSlot0(r)
    ensures Position(r).inRange <==> Price(r.tickLower) <= r.sqrtPrice < Price(r.tickUpper)
  {
    InRangeAgreesExactly(r);
  }

  /** On the upper end of the current tick's interval they disagree exactly if the range starts or ends there. */
  lemma InRangeAgreesExactly(r: LpRawRead)
    requires InRange(r.tickLower) && InRange(r.tickUpper) && PoolSlot0(r)
    ensures (Position(r).inRange <==> Price(r.tickLower) <= r.sqrtPrice < Price(r.tickUpper)) <==>
            !(r.sqrtPrice == Price(r.currentTick + 1)
              && (r.tickLower == r.currentTick + 1 < r.tickUpper || r.tickLower < r.currentTick + 1 == r.tickUpper))
  {
    PriceOrder(r.tickLower, r.currentTick);
    PriceOrder(r.tickLower, r.currentTick + 1);
    PriceOrder(r.currentTick + 1, r.tickLower);
    PriceOrder(r.tickUpper, r.currentTick);
    PriceOrder(r.tickUpper, r.currentTick + 1);
    PriceOrder(r.currentTick + 1, r.tickUpper);
  }

  lemma OutOfRangeHasOneToken(r: LpRawRead)
    requires InRange(r.tickLower) && InRange(r.tickUpper) && PoolSlot0(r) && r.tickLower <= r.tickUpper
    ensures !Position(r).inRange ==>
              if r.currentTick < r.tickLower then Position(r).amounts.amount1 == 0 else Position(r).amounts.amount0 == 0
  {
    PriceOrder(r.tickLower, r.tickUpper);
    PriceOrder(r.currentTick + 1, r.tickLower);
    PriceOrder(r.tickUpper, r.currentTick);
    PriceRange(r.tickLower);
    OutOfRangeHoldsOneToken(r.sqrtPrice, Price(r.tickLower), Price(r.tickUpper), r.liquidity);
  }

  ghost predicate OneTokenWhenOutOfRange(r: LpRawRead)
    requires InRange(r.tickLower) && InRange(r.tickUpper)
  {
    Position(r).inRange || Position(r).amounts.amount0 == 0 || Position(r).amounts.amount1 == 0
  }

  /** Unordered ticks break the claim, since the amounts swap the ends back and the flag does not.
      It holds whatever the liquidity exactly if the ticks are ordered or the price is outside the swapped range. */
  lemma OneTokenExactly(r: LpRawRead)
    requires InRange(r.tickLower) && InRange(r.tickUpper) && PoolSlot0(r)
    ensures (forall liquidity: nat :: OneTokenWhenOutOfRange(r.(liquidity := liquidity)))
            <==> r.tickLower <= r.tickUpper || r.sqrtPrice <= Price(r.tickUpper) || Price(r.tickLower) <= r.sqrtPrice
  {
    PriceOrder(r.tickLower, r.tickUpper);
    PriceRange(r.tickLower);
    PriceRange(r.tickUpper);
    if r.tickLower <= r.tickUpper {
      forall liquidity: nat ensures OneTokenWhenOutOfRange(r.(liquidity := liquidity)) {
        OutOfRangeHasOneToken(r.(liquidity := liquidity));
      }
    } else if r.sqrtPrice <= Price(r.tickUpper) || Price(r.tickLower) <= r.sqrtPrice {
      forall liquidity: nat ensures OneTokenWhenOutOfRange(r.(liquidity := liquidity)) {
        OutOfRangeHoldsOneToken(r.sqrtPrice, Price(r.tickUpper), Price(r.tickLower), liquidity);
      }
    } else {
      var low, high := Price(r.tickUpper), Price(r.tickLower);
      var liquidity := Product(r.sqrtPrice, high) + Q96;
      MulMono(low, high, r.sqrtPrice);
      EnoughLiquidity(r.sqrtPrice, high, liquidity);
      EnoughLiquidity(low, r.sqrtPrice, liquidity);
      assert !OneTokenWhenOutOfRange(r.(liquidity := liquidity));
    }
  }

  /** For one position: it also holds if the liquidity is too small for a unit of one of the tokens. */
  lemma OneTokenDecided(r: LpRawRead)
    requires InRange(r.tickLower) && InRange(r.tickUpper) && PoolSlot0(r)
    ensures OneTokenWhenOutOfRange(r) <==>
            || r.tickLower <= r.tickUpper || r.sqrtPrice <= Price(r.tickUpper) || Price(r.tickLower) <= r.sqrtPrice
            || Product(r.liquidity * Q96, Price(r.tickLower) - r.sqrtPrice) < Product(r.sqrtPrice, Price(r.tickLower))
            || Product(r.liquidity, r.sqrtPrice - Price(r.tickUpper)) < Q96
  {
    PriceOrder(r.tickLower, r.tickUpper);
    PriceRange(r.tickLower);
    PriceRange(r.tickUpper);
    if r.tickLower <= r.tickUpper {
      OutOfRangeHasOneToken(r);
    } else if r.sqrtPrice <= Price(r.tickUpper) || Price(r.tickLower) <= r.sqrtPrice {
      OutOfRangeHoldsOneToken(r.sqrtPrice, Price(r.tickUpper), Price(r.tickLower), r.liquidity);
    } else {
      var low, high := Price(r.tickUpper), Price(r.tickLower);
      Amount0IsOneFloor(r.sqrtPrice, high, r.liquidity);
      BelowOne(Product(r.liquidity * Q96, high - r.sqrtPrice), r.sqrtPrice * high);
      BelowOne(Product(r.liquidity, r.sqrtPrice - low), Q96);
    }
  }

  lemma BelowOne(x: nat, d: nat)
    requires d > 0
    ensures x / d == 0 <==> x < d
  {
    assert x == d * (x / d) + x % d;
  }

  lemma SwappedTicksHoldBothTokens()
    ensures exists liquidity: nat :: !OneTokenWhenOutOfRange(LpRawRead(1, -1, liquidity, Price(0), 0))
  {
    var r := LpRawRead(1, -1, 0, Price(0), 0);
    PriceStrictlyMonotone(0, 1);
    PriceStrictlyMonotone(-1, 0);
    OneTokenExactly(r);
    var liquidity: nat :| !OneTokenWhenOutOfRange(r.(liquidity := liquidity));
    assert r.(liquidity := liquidity) == LpRawRead(1, -1, liquidity, Price(0), 0);
  }

  /** Raising the upper tick or lowering the lower tick never lowers either amount. */
  lemma WideningTicksKeepsAmounts(r: LpRawRead, lower: int, upper: int)
    requires InRange(lower) && InRange(upper) && lower <= r.tickLower <= r.tickUpper <= upper
    ensures Position(r).amounts.amount0 <= Position(r.(tickLower := lower, tickUpper := upper)).amounts.amount0
    ensures Position(r).amounts.amount1 <= Position(r.(tickLower := lower, tickUpper := upper)).amounts.amount1
  {
    PriceOrder(lower, r.tickLower);
    PriceOrder(r.tickLower, r.tickUpper);
    PriceOrder(r.tickUpper, upper);
    PriceRange(lower);
    WideningKeepsHoldings(r.sqrtPrice, Price(r.tickLower), Price(r.tickUpper), Price(lower), Price(upper), r.liquidity);
  }

  /** A consistent pool price determines the current tick. */
  lemma CurrentTickUnique(r: LpRawRead, s: LpRawRead)
    requires ConsistentSlot0(r) && ConsistentSlot0(s) && r.sqrtPrice == s.sqrtPrice
    ensures r.currentTick == s.currentTick
  {
    PriceOrder(r.currentTick + 1, s.currentTick);
    PriceOrder(s.currentTick + 1, r.currentTick);
  }
}
