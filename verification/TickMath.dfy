/** Tick to square-root price: `getSqrtRatioAtTick` of the cockpit's liquidity maths.
    Big integers are unbounded here as in the source; `n >> k` on a natural is `n / 2^k`. */
module TickMath {
  import opened Arith
  import opened BitProduct
  import opened Wrappers

  const MIN_TICK := -887272
  const MAX_TICK := 887272
  const Q32: nat := 0x1_0000_0000
  const Q96: nat := 0x1_0000_0000_0000_0000_0000_0000
  const Q160: nat := 0x1_0000_0000_0000_0000_0000_0000_0000_0000_0000_0000
  const MAX_UINT256: nat := Q128 * Q128 - 1
  const MIN_PRICE: nat := 4295128739
  const MAX_PRICE: nat := 1461446703485210103287273052203988822378723970342

  datatype TickError = TickOutOfRange

  /** Bit k scales the ratio by the k-th entry, about 1.0001^(-2^k / 2) in Q128. */
  const MULTIPLIERS: seq<nat> := [
    0xfffcb933bd6fad37aa2d162d1a594001, 0xfff97272373d413259a46990580e213a,
    0xfff2e50f5f656932ef12357cf3c7fdcc, 0xffe5caca7e10e4e61c3624eaa0941cd0,
    0xffcb9843d60f6159c9db58835c926644, 0xff973b41fa98c081472e6896dfb254c0,
    0xff2ea16466c96a3843ec78b326b52861, 0xfe5dee046a99a2a811c461f1969c3053,
    0xfcbe86c7900a88aedcffc83b479aa3a4, 0xf987a7253ac413176f2b074cf7815e54,
    0xf3392b0822b70005940c7a398e4b70f3, 0xe7159475a2c29b7443b29c7fa6e889d9,
    0xd097f3bdfd2022b8845ad8f792aa5825, 0xa9f746462d870fdf8a65dc1f90e061e5,
    0x70d869a156d2a1b890bb3df62baf32f7, 0x31be135f97d08fd981231505542fcfa6,
    0x9aa508b5b7a84e1c677de54f3e99bc9, 0x5d6af8dedb81196699c329225ee604,
    0x2216e584f5fa1ea926041bedfe98, 0x48a170391f7dc42444e8fa2
  ]

  function CeilShift32(ratio: nat): nat {
    ratio / Q32 + (if ratio % Q32 == 0 then 0 else 1)
  }

  predicate InRange(tick: int) { MIN_TICK <= tick <= MAX_TICK }

  function Abs(tick: int): nat { if tick < 0 then -tick else tick }

  ghost function Ratio(absTick: nat): (r: nat)
    requires absTick <= MAX_TICK
    ensures 0 < r <= Q128
  {
    TwentyBits();
    RatioBounds(absTick);
    Fold(MULTIPLIERS, absTick, 20)
  }

  /** The price `SqrtRatioAtTick` returns for a tick in range; negative ticks invert positive ones. */
  ghost function Price(tick: int): nat
    requires InRange(tick)
  {
    CeilShift32(if tick > 0 then MAX_UINT256 / Ratio(tick) else Ratio(Abs(tick)))
  }

  /** `ratio` is what the bits below k of `absTick` make of 2^128. */
  ghost predicate Applied(absTick: nat, k: nat, ratio: nat)
    requires k <= 20
  {
    absTick % Pow2(k) < Pow2(k) && ratio == Fold(MULTIPLIERS, absTick % Pow2(k), k)
  }

  /** One conditional assignment of the source: `if (absTick & mask) ratio = (ratio * multiplier) >> 128`. */
  method ApplyBit(absTick: nat, mask: nat, ghost k: nat, ratio: nat, multiplier: nat) returns (r: nat)
    requires k < 20 && mask == Pow2(k) && multiplier == MULTIPLIERS[k] && Applied(absTick, k, ratio)
    ensures Applied(absTick, k + 1, r)
  {
    FoldBit(MULTIPLIERS, absTick, k);
    r := ratio;
    if absTick / mask % 2 != 0 { r := Scale(ratio, multiplier); }
  }

  method SqrtRatioAtTick(tick: int) returns (r: Result<nat, TickError>)
    ensures r == if InRange(tick) then Success(Price(tick)) else Failure(TickOutOfRange)
  {
    var absTick := Abs(tick);
    if absTick > MAX_TICK { return Failure(TickOutOfRange); }
    NoBitsApplied(absTick);
    var ratio := ApplyBits0To4(absTick, Q128);
    ratio := ApplyBits5To9(absTick, ratio);
    ratio := ApplyBits10To14(absTick, ratio);
    ratio := ApplyBits15To19(absTick, ratio);
    AllBitsApplied(absTick, ratio);
    if tick > 0 { ratio := MAX_UINT256 / ratio; }
    r := Success(CeilShift32(ratio));
  }

  method ApplyBits0To4(absTick: nat, before: nat) returns (ratio: nat)
    requires Applied(absTick, 0, before)
    ensures Applied(absTick, 5, ratio)
  {
    TwentyBits();
    hide Applied, Pow2;
    ratio := before;
    ratio := ApplyBit(absTick, 0x1, 0, ratio, 0xfffcb933bd6fad37aa2d162d1a594001);
    ratio := ApplyBit(absTick, 0x2, 1, ratio, 0xfff97272373d413259a46990580e213a);
    ratio := ApplyBit(absTick, 0x4, 2, ratio, 0xfff2e50f5f656932ef12357cf3c7fdcc);
    ratio := ApplyBit(absTick, 0x8, 3, ratio, 0xffe5caca7e10e4e61c3624eaa0941cd0);
    ratio := ApplyBit(absTick, 0x10, 4, ratio, 0xffcb9843d60f6159c9db58835c926644);
  }

  method ApplyBits5To9(absTick: nat, before: nat) returns (ratio: nat)
    requires Applied(absTick, 5, before)
    ensures Applied(absTick, 10, ratio)
  {
    TwentyBits();
    hide Applied, Pow2;
    ratio := before;
    ratio := ApplyBit(absTick, 0x20, 5, ratio, 0xff973b41fa98c081472e6896dfb254c0);
    ratio := ApplyBit(absTick, 0x40, 6, ratio, 0xff2ea16466c96a3843ec78b326b52861);
    ratio := ApplyBit(absTick, 0x80, 7, ratio, 0xfe5dee046a99a2a811c461f1969c3053);
    ratio := ApplyBit(absTick, 0x100, 8, ratio, 0xfcbe86c7900a88aedcffc83b479aa3a4);
    ratio := ApplyBit(absTick, 0x200, 9, ratio, 0xf987a7253ac413176f2b074cf7815e54);
  }

  method ApplyBits10To14(absTick: nat, before: nat) returns (ratio: nat)
    requires Applied(absTick, 10, before)
    ensures Applied(absTick, 15, ratio)
  {
    TwentyBits();
    hide Applied, Pow2;
    ratio := before;
    ratio := ApplyBit(absTick, 0x400, 10, ratio, 0xf3392b0822b70005940c7a398e4b70f3);
    ratio := ApplyBit(absTick, 0x800, 11, ratio, 0xe7159475a2c29b7443b29c7fa6e889d9);
    ratio := ApplyBit(absTick, 0x1000, 12, ratio, 0xd097f3bdfd2022b8845ad8f792aa5825);
    ratio := ApplyBit(absTick, 0x2000, 13, ratio, 0xa9f746462d870fdf8a65dc1f90e061e5);
    ratio := ApplyBit(absTick, 0x4000, 14, ratio, 0x70d869a156d2a1b890bb3df62baf32f7);
  }

  method ApplyBits15To19(absTick: nat, before: nat) returns (ratio: nat)
    requires Applied(absTick, 15, before)
    ensures Applied(absTick, 20, ratio)
  {
    TwentyBits();
    hide Applied, Pow2;
    ratio := before;
    ratio := ApplyBit(absTick, 0x8000, 15, ratio, 0x31be135f97d08fd981231505542fcfa6);
    ratio := ApplyBit(absTick, 0x10000, 16, ratio, 0x9aa508b5b7a84e1c677de54f3e99bc9);
    ratio := ApplyBit(absTick, 0x20000, 17, ratio, 0x5d6af8dedb81196699c329225ee604);
    ratio := ApplyBit(absTick, 0x40000, 18, ratio, 0x2216e584f5fa1ea926041bedfe98);
    ratio := ApplyBit(absTick, 0x80000, 19, ratio, 0x48a170391f7dc42444e8fa2);
  }

  lemma NoBitsApplied(absTick: nat)
    ensures Applied(absTick, 0, Q128)
  {
  }

  lemma AllBitsApplied(absTick: nat, ratio: nat)
    requires absTick <= MAX_TICK && Applied(absTick, 20, ratio)
    ensures ratio == Ratio(absTick)
  {
    TwentyBits();
    assert absTick % 0x100000 == absTick;
  }

  lemma TwentyBits()
    ensures Pow2(0) == 1 && Pow2(1) == 2 && Pow2(2) == 4 && Pow2(3) == 8 && Pow2(4) == 0x10
    ensures Pow2(5) == 0x20 && Pow2(6) == 0x40 && Pow2(7) == 0x80 && Pow2(8) == 0x100 && Pow2(9) == 0x200
    ensures Pow2(10) == 0x400 && Pow2(11) == 0x800 && Pow2(12) == 0x1000 && Pow2(13) == 0x2000 && Pow2(14) == 0x4000
    ensures Pow2(15) == 0x8000 && Pow2(16) == 0x10000 && Pow2(17) == 0x20000 && Pow2(18) == 0x40000
    ensures Pow2(19) == 0x80000 && Pow2(20) == 0x100000
  {
    assert Pow2(4) == 0x10;
    assert Pow2(8) == 0x100;
    assert Pow2(12) == 0x1000;
    assert Pow2(16) == 0x10000;
  }

  // ---- the twenty constant facts ----

  /** Entry k is the ratio of the tick 2^k - 1, whose k bits are all ones. */
  const ALL_ONES: seq<nat> := [
    0x100000000000000000000000000000000, 0xfffcb933bd6fad37aa2d162d1a594001,
    0xfff62bbb6d458ec3c792106391dc463e, 0xffe9114b9cf28d394c3203dbd44eb085,
    0xffcede6f1d8be90b88f350424e84e5b7, 0xff9a80c1ada7480b1daa871d7c4d9b36,
    0xff31e58d5a53c84fc142023ec1b1dfd7, 0xfe612f8183b1ea21b72fb71b03542ae4,
    0xfcc1c2f380536bc67ee1ff564d1080b2, 0xf98ad8c8d7ecc0a3f8a42c9724cffb6a,
    0xf33c480189b415235ad119427d89a1f6, 0xe71889a85903fd03cb7cc40bdf371a9c,
    0xd09a9f3e93db5812d4820c2fc67a3e3a, 0xa9f973345b9e647c4163af91d00b255f,
    0x70d9db6485f04ddd567e07c7b89f8e7c, 0x31beb65d91af63ae717a760be3b374dc,
    0x9aa7036fd2355429c4030b032e1cf71, 0x5d6c2af97aaa8de0e5a6bf23f5e547,
    0x221755388a6658e120f4a3c503cf, 0x48a25e36942a4fc0c1f899f,
    0x149b7873d84d48
  ]

  /** Entry k is the least distance between the ratios of two k-bit ticks that the bits below k leave. */
  const GAPS: seq<nat> := [
    0x100000000000000000000000000000000, 0x346cc429052c855d2e9d2e5a6bfff,
    0x346b6c9f7b26e9212592cc631dafb, 0x3468bda6c86cd4bdf2b0ba5a1990a,
    0x3463601ee1eff3c3de4171582f834, 0x3458a6b4de6de36a7b3260cbbf634,
    0x34433a766a6a7a548ab33e686efc6, 0x34187c433c4a65ee220816da387fc,
    0x33c3689f83d8927336aae4d914b57, 0x331ae1454ef6ea07f0cf6ba0a0d52,
    0x31d039a72ceccecc790cc51b7ef34, 0x2f53c67614cfee4dd0e9618c8f55e,
    0x2ab8956602944ae6d2fc591cf181c, 0x22cf54efeb97eb9a300e064a96e7a,
    0x171c7eab921f3d8f93c9cfd4117f2, 0xa3000ff316794a798bcd54c4f602,
    0x1fac096f3c96b033bf75329dcfdc, 0x1321e8a2dacba5f7e2614c32cf2,
    0x6fb5026fe17bccc51380f07d, 0xee00808016887b440f4,
    0x43863aca2a
  ]

  lemma RowsOfBits0To9()
    ensures forall k :: 0 <= k < 10 ==> Row(MULTIPLIERS[k], ALL_ONES[k], GAPS[k], ALL_ONES[k + 1], GAPS[k + 1])
  {
    assert Row(0xfffcb933bd6fad37aa2d162d1a594001, 0x100000000000000000000000000000000,
        0x100000000000000000000000000000000,
               0xfffcb933bd6fad37aa2d162d1a594001, 0x346cc429052c855d2e9d2e5a6bfff);
    assert Row(0xfff97272373d413259a46990580e213a, 0xfffcb933bd6fad37aa2d162d1a594001, 0x346cc429052c855d2e9d2e5a6bfff,
               0xfff62bbb6d458ec3c792106391dc463e, 0x346b6c9f7b26e9212592cc631dafb);
    assert Row(0xfff2e50f5f656932ef12357cf3c7fdcc, 0xfff62bbb6d458ec3c792106391dc463e, 0x346b6c9f7b26e9212592cc631dafb,
               0xffe9114b9cf28d394c3203dbd44eb085, 0x3468bda6c86cd4bdf2b0ba5a1990a);
    assert Row(0xffe5caca7e10e4e61c3624eaa0941cd0, 0xffe9114b9cf28d394c3203dbd44eb085, 0x3468bda6c86cd4bdf2b0ba5a1990a,
               0xffcede6f1d8be90b88f350424e84e5b7, 0x3463601ee1eff3c3de4171582f834);
    assert Row(0xffcb9843d60f6159c9db58835c926644, 0xffcede6f1d8be90b88f350424e84e5b7, 0x3463601ee1eff3c3de4171582f834,
               0xff9a80c1ada7480b1daa871d7c4d9b36, 0x3458a6b4de6de36a7b3260cbbf634);
    assert Row(0xff973b41fa98c081472e6896dfb254c0, 0xff9a80c1ada7480b1daa871d7c4d9b36, 0x3458a6b4de6de36a7b3260cbbf634,
               0xff31e58d5a53c84fc142023ec1b1dfd7, 0x34433a766a6a7a548ab33e686efc6);
    assert Row(0xff2ea16466c96a3843ec78b326b52861, 0xff31e58d5a53c84fc142023ec1b1dfd7, 0x34433a766a6a7a548ab33e686efc6,
               0xfe612f8183b1ea21b72fb71b03542ae4, 0x34187c433c4a65ee220816da387fc);
    assert Row(0xfe5dee046a99a2a811c461f1969c3053, 0xfe612f8183b1ea21b72fb71b03542ae4, 0x34187c433c4a65ee220816da387fc,
               0xfcc1c2f380536bc67ee1ff564d1080b2, 0x33c3689f83d8927336aae4d914b57);
    assert Row(0xfcbe86c7900a88aedcffc83b479aa3a4, 0xfcc1c2f380536bc67ee1ff564d1080b2, 0x33c3689f83d8927336aae4d914b57,
               0xf98ad8c8d7ecc0a3f8a42c9724cffb6a, 0x331ae1454ef6ea07f0cf6ba0a0d52);
    assert Row(0xf987a7253ac413176f2b074cf7815e54, 0xf98ad8c8d7ecc0a3f8a42c9724cffb6a, 0x331ae1454ef6ea07f0cf6ba0a0d52,
               0xf33c480189b415235ad119427d89a1f6, 0x31d039a72ceccecc790cc51b7ef34);
  }

  lemma RowsOfBits10To19()
    ensures forall k :: 10 <= k < 20 ==> Row(MULTIPLIERS[k], ALL_ONES[k], GAPS[k], ALL_ONES[k + 1], GAPS[k + 1])
  {
    assert Row(0xf3392b0822b70005940c7a398e4b70f3, 0xf33c480189b415235ad119427d89a1f6, 0x31d039a72ceccecc790cc51b7ef34,
               0xe71889a85903fd03cb7cc40bdf371a9c, 0x2f53c67614cfee4dd0e9618c8f55e);
    assert Row(0xe7159475a2c29b7443b29c7fa6e889d9, 0xe71889a85903fd03cb7cc40bdf371a9c, 0x2f53c67614cfee4dd0e9618c8f55e,
               0xd09a9f3e93db5812d4820c2fc67a3e3a, 0x2ab8956602944ae6d2fc591cf181c);
    assert Row(0xd097f3bdfd2022b8845ad8f792aa5825, 0xd09a9f3e93db5812d4820c2fc67a3e3a, 0x2ab8956602944ae6d2fc591cf181c,
               0xa9f973345b9e647c4163af91d00b255f, 0x22cf54efeb97eb9a300e064a96e7a);
    assert Row(0xa9f746462d870fdf8a65dc1f90e061e5, 0xa9f973345b9e647c4163af91d00b255f, 0x22cf54efeb97eb9a300e064a96e7a,
               0x70d9db6485f04ddd567e07c7b89f8e7c, 0x171c7eab921f3d8f93c9cfd4117f2);
    assert Row(0x70d869a156d2a1b890bb3df62baf32f7, 0x70d9db6485f04ddd567e07c7b89f8e7c, 0x171c7eab921f3d8f93c9cfd4117f2,
               0x31beb65d91af63ae717a760be3b374dc, 0xa3000ff316794a798bcd54c4f602);
    assert Row(0x31be135f97d08fd981231505542fcfa6, 0x31beb65d91af63ae717a760be3b374dc, 0xa3000ff316794a798bcd54c4f602,
               0x9aa7036fd2355429c4030b032e1cf71, 0x1fac096f3c96b033bf75329dcfdc);
    assert Row(0x9aa508b5b7a84e1c677de54f3e99bc9, 0x9aa7036fd2355429c4030b032e1cf71, 0x1fac096f3c96b033bf75329dcfdc,
               0x5d6c2af97aaa8de0e5a6bf23f5e547, 0x1321e8a2dacba5f7e2614c32cf2);
    assert Row(0x5d6af8dedb81196699c329225ee604, 0x5d6c2af97aaa8de0e5a6bf23f5e547, 0x1321e8a2dacba5f7e2614c32cf2,
               0x221755388a6658e120f4a3c503cf, 0x6fb5026fe17bccc51380f07d);
    assert Row(0x2216e584f5fa1ea926041bedfe98, 0x221755388a6658e120f4a3c503cf, 0x6fb5026fe17bccc51380f07d,
               0x48a25e36942a4fc0c1f899f, 0xee00808016887b440f4);
    assert Row(0x48a170391f7dc42444e8fa2, 0x48a25e36942a4fc0c1f899f, 0xee00808016887b440f4,
               0x149b7873d84d48, 0x43863aca2a);
  }

  /** The twenty constant facts, read off the tables. */
  lemma TableHolds()
    ensures Carries(MULTIPLIERS, 20) && Ones(MULTIPLIERS, 20) == ALL_ONES[20] && GAPS[20] <= Gap(MULTIPLIERS, 20)
  {
    RowsOfBits0To9();
    RowsOfBits10To19();
    TableRows(MULTIPLIERS, ALL_ONES, GAPS, 20);
  }

  lemma RatioBounds(absTick: nat)
    requires absTick < Pow2(20)
    ensures 0 < Fold(MULTIPLIERS, absTick, 20) <= Q128
  {
    TableHolds();
    FoldBounds(MULTIPLIERS, absTick, 20);
  }

  /** Two different absolute ticks have ratios more than 64 * 2^32 apart. */
  lemma RatioGap(t: nat, u: nat)
    requires t < u <= MAX_TICK
    ensures Ratio(u) + 64 * Q32 <= Ratio(t)
  {
    TwentyBits();
    TableHolds();
    FoldGap(MULTIPLIERS, t, u, 20);
  }

  lemma LargestTickRatio()
    ensures Ratio(MAX_TICK) == 0x1000276a221a17501
  {
    TwentyBits();
    assert Fold(MULTIPLIERS, 0x0, 1) == 0x100000000000000000000000000000000;
    assert Fold(MULTIPLIERS, 0x0, 2) == 0x100000000000000000000000000000000;
    assert Fold(MULTIPLIERS, 0x0, 3) == 0x100000000000000000000000000000000;
    assert Fold(MULTIPLIERS, 0x8, 4) == 0xffe5caca7e10e4e61c3624eaa0941cd0;
    assert Fold(MULTIPLIERS, 0x8, 5) == 0xffe5caca7e10e4e61c3624eaa0941cd0;
    assert Fold(MULTIPLIERS, 0x28, 6) == 0xff7d10c63a977157da4140deb6f31a7b;
    assert Fold(MULTIPLIERS, 0x68, 7) == 0xfeac1d4052f7714818b490c1138ea058;
    assert Fold(MULTIPLIERS, 0xe8, 8) == 0xfd0c3654da9e033741d1a9f93707f6f6;
    assert Fold(MULTIPLIERS, 0x1e8, 9) == 0xf9d459c5817dbafa9e376ae84dcfeb8b;
    assert Fold(MULTIPLIERS, 0x1e8, 10) == 0xf9d459c5817dbafa9e376ae84dcfeb8b;
    assert Fold(MULTIPLIERS, 0x1e8, 11) == 0xf9d459c5817dbafa9e376ae84dcfeb8b;
    assert Fold(MULTIPLIERS, 0x9e8, 12) == 0xe183ac4e25d5949966242a64e9c80e2f;
    assert Fold(MULTIPLIERS, 0x9e8, 13) == 0xe183ac4e25d5949966242a64e9c80e2f;
    assert Fold(MULTIPLIERS, 0x9e8, 14) == 0xe183ac4e25d5949966242a64e9c80e2f;
    assert Fold(MULTIPLIERS, 0x9e8, 15) == 0xe183ac4e25d5949966242a64e9c80e2f;
    assert Fold(MULTIPLIERS, 0x89e8, 16) == 0x2bd1a4c5d2a1181aca1ef15e64c2e3cf;
    assert Fold(MULTIPLIERS, 0x189e8, 17) == 0x1a785cbbdc050483e3be5812760be73;
    assert Fold(MULTIPLIERS, 0x189e8, 18) == 0x1a785cbbdc050483e3be5812760be73;
    assert Fold(MULTIPLIERS, 0x589e8, 19) == 0x3865a6455d07d2bc87c5956d2e;
    assert Fold(MULTIPLIERS, 0xd89e8, 20) == 0x1000276a221a17501;
  }

  // ---- prices ----

  lemma CeilStrict(low: nat, high: nat)
    requires low + Q32 <= high
    ensures CeilShift32(low) < CeilShift32(high)
  {
  }

  /** Dividing 2^256 - 1 by ratios that are apart keeps the quotients apart, the other way round. */
  lemma InverseGap(low: nat, high: nat)
    requires 0 < low && low + 64 * Q32 <= high <= Q128
    ensures MAX_UINT256 / high + Q32 <= MAX_UINT256 / low
  {
    var q := MAX_UINT256 / high;
    assert q * high <= MAX_UINT256;
    assert q >= Q128 - 1 by {
      DivMonoDivisor(MAX_UINT256, high, Q128);
    }
    assert (q + Q32) * low <= MAX_UINT256 by {
      MulMono(low + 64 * Q32, high, q + Q32);
      assert (low + 64 * Q32) * (q + Q32) == (q + Q32) * low + 64 * Q32 * (q + Q32);
      assert high * (q + Q32) == q * high + high * Q32;
      assert high * Q32 <= Q128 * Q32;
      assert 64 * Q32 * (q + Q32) >= 64 * Q32 * (Q128 - 1);
    }
    DivMono((q + Q32) * low, MAX_UINT256, low);
    DivExact(q + Q32, low);
  }

  lemma DivMonoDivisor(x: nat, small: nat, large: nat)
    requires 0 < small <= large
    ensures x / large <= x / small
  {
    var q := x / large;
    MulMono(small, large, q);
    DivMono(q * small, x, small);
    DivExact(q, small);
  }

  lemma PriceOfZero()
    ensures Price(0) == Q96
  {
    TwentyBits();
    ZeroPattern(MULTIPLIERS, 20);
  }

  /** Ticks up to 0 are priced at most 2^96, positive ticks above it. */
  lemma PriceSigns(tick: int)
    requires InRange(tick)
    ensures Price(tick) <= Q96 <==> tick <= 0
  {
    if tick > 0 {
      RatioGap(0, tick);
      InverseAboveOne(Ratio(tick));
    }
  }

  lemma InverseAboveOne(ratio: nat)
    requires 0 < ratio && ratio + 64 * Q32 <= Q128
    ensures Q96 < CeilShift32(MAX_UINT256 / ratio)
  {
    InverseGap(ratio, Q128);
    DivModUnique(MAX_UINT256, Q128, Q128 - 1, Q128 - 1);
    CeilAbove(MAX_UINT256 / ratio);
  }

  lemma CeilAbove(x: nat)
    requires Q128 < x
    ensures Q96 < CeilShift32(x)
  {
  }

  /** Every tick has its own price, and prices are ordered as ticks are. */
  lemma PriceStrictlyMonotone(t: int, u: int)
    requires InRange(t) && InRange(u) && t < u
    ensures Price(t) < Price(u)
  {
    if u <= 0 {
      RatioGap(-u, -t);
      CeilStrict(Ratio(-t), Ratio(-u));
    } else if 0 < t {
      RatioGap(t, u);
      InverseGap(Ratio(u), Ratio(t));
      CeilStrict(MAX_UINT256 / Ratio(t), MAX_UINT256 / Ratio(u));
    } else {
      PriceSigns(t);
      PriceSigns(u);
    }
  }

  lemma PriceOrder(t: int, u: int)
    requires InRange(t) && InRange(u)
    ensures t <= u <==> Price(t) <= Price(u)
    ensures t == u <==> Price(t) == Price(u)
  {
    if t < u { PriceStrictlyMonotone(t, u); }
    if u < t { PriceStrictlyMonotone(u, t); }
  }

  /** All prices are positive 160-bit numbers between the two endpoint prices, which are the documented ones. */
  lemma PriceRange(tick: int)
    requires InRange(tick)
    ensures Price(MIN_TICK) == MIN_PRICE && Price(MAX_TICK) == MAX_PRICE
    ensures 0 < MIN_PRICE <= Price(tick) <= MAX_PRICE < Q160
  {
    LargestTickRatio();
    PriceOrder(MIN_TICK, tick);
    PriceOrder(tick, MAX_TICK);
  }
}
