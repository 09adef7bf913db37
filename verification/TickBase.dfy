/** What the multipliers and the prices of TickMath are: powers of 1.0001, as exact as their precision allows. */
module TickBase {
  import opened Arith
  import opened BitProduct
  import opened TickMath

  const FALL: real := 10000.0 / 10001.0
  const RISE: real := 1.0001

  function Power(b: real, n: nat): (p: real)
    requires b > 0.0
    ensures p > 0.0
  {
    if n == 0 then 1.0 else b * Power(b, n - 1)
  }

  function Square(x: real): (y: real)
    ensures y >= 0.0
  {
    x * x
  }

  function Frac(x: nat, q: nat): (y: real)
    requires q > 0
    ensures y >= 0.0
  {
    x as real / q as real
  }

  lemma {:induction false} PowerAdd(b: real, m: nat, n: nat)
    requires b > 0.0
    ensures Power(b, m + n) == Power(b, m) * Power(b, n)
    decreases n
  {
    if n > 0 {
      PowerAdd(b, m, n - 1);
      assert Power(b, m) * (b * Power(b, n - 1)) == b * (Power(b, m) * Power(b, n - 1));
    }
  }

  lemma RealMulMono(a: real, b: real, c: real, d: real)
    requires 0.0 <= a <= b && 0.0 <= c <= d
    ensures a * c <= b * d
  {
    assert (b - a) * c >= 0.0 && b * (d - c) >= 0.0;
  }

  lemma RealCancel(a: real, b: real, d: real)
    requires d > 0.0
    ensures a * d <= b * d <==> a <= b
  {
    if a <= b { assert (b - a) * d >= 0.0; } else { assert (a - b) * d > 0.0; }
  }

  // ---- the multipliers ----

  const FINE: nat := 0x1_0000_0000_0000_0000
  const FINE_Q128: nat := Q128 * FINE

  /** `low` and `low + width`, in units of 2^-192, enclose 1.0001^(-2^k / 2). */
  ghost predicate Encloses(k: nat, low: nat, width: nat) {
    Square(Frac(low, FINE_Q128)) <= Power(FALL, Pow2(k)) <= Square(Frac(low + width, FINE_Q128))
  }

  /** The second enclosure contains the squares of the first. */
  predicate Squares(low: nat, width: nat, low': nat, width': nat) {
    && low' * FINE_Q128 <= low * low
    && (low + width) * (low + width) <= (low' + width') * FINE_Q128
  }

  /** The enclosure lies within half a unit of the multiplier. */
  predicate Rounds(multiplier: nat, low: nat, width: nat) {
    && 0 < multiplier
    && (2 * multiplier - 1) * FINE <= 2 * low && 2 * (low + width) <= (2 * multiplier + 1) * FINE
  }

  const LOWS: seq<nat> := [
    0xfffcb933bd6fad37aa2d162d1a594001733071ca63262237, 0xfff97272373d413259a46990580e2139b8e3eb6b6eb57c60,
    0xfff2e50f5f656932ef12357cf3c7fdcb98a5078da53efa25, 0xffe5caca7e10e4e61c3624eaa0941ccff04a8a212009f024,
    0xffcb9843d60f6159c9db58835c926643ad7c09ed8821ecf5, 0xff973b41fa98c081472e6896dfb254bf81ef047c569db3a2,
    0xff2ea16466c96a3843ec78b326b5286097e9315c35bffb3b, 0xfe5dee046a99a2a811c461f1969c3052f544235f4d64fd85,
    0xfcbe86c7900a88aedcffc83b479aa3a3dc268667328f4b13, 0xf987a7253ac413176f2b074cf7815e53facbf1906fa659ad,
    0xf3392b0822b70005940c7a398e4b70f2ca02c578b1d41f50, 0xe7159475a2c29b7443b29c7fa6e889d89a78853263da3752,
    0xd097f3bdfd2022b8845ad8f792aa58256a3df3fc12a5ba57, 0xa9f746462d870fdf8a65dc1f90e061e4fa160424952d4740,
    0x70d869a156d2a1b890bb3df62baf32f6c49744d5020b4d6e, 0x31be135f97d08fd981231505542fcfa586c1e84cfea49fad,
    0x9aa508b5b7a84e1c677de54f3e99bc8fdac1d580d2e9b01, 0x5d6af8dedb81196699c329225ee6044e0e6dc91bb283db,
    0x2216e584f5fa1ea926041bedfe97b74dcb4ff36b9c96, 0x48a170391f7dc42444e8fa23b8ad7d66987e9cb
  ]

  lemma LowsSquare()
    ensures forall k :: 0 <= k < 19 ==> Squares(LOWS[k], Pow2(k + 1) - 1, LOWS[k + 1], Pow2(k + 2) - 1)
  {
    TwentyBits();
    hide Pow2, Squares;
    LowsSquare0To9();
    LowsSquare10To18();
  }

  lemma LowsSquare0To9()
    ensures forall k :: 0 <= k < 10 ==> Squares(LOWS[k], Pow2(k + 1) - 1, LOWS[k + 1], Pow2(k + 2) - 1)
  {
    TwentyBits();
    hide Pow2;
    assert Squares(0xfffcb933bd6fad37aa2d162d1a594001733071ca63262237, 0x1,
                   0xfff97272373d413259a46990580e2139b8e3eb6b6eb57c60, 0x3);
    assert Squares(0xfff97272373d413259a46990580e2139b8e3eb6b6eb57c60, 0x3,
                   0xfff2e50f5f656932ef12357cf3c7fdcb98a5078da53efa25, 0x7);
    assert Squares(0xfff2e50f5f656932ef12357cf3c7fdcb98a5078da53efa25, 0x7,
                   0xffe5caca7e10e4e61c3624eaa0941ccff04a8a212009f024, 0xf);
    assert Squares(0xffe5caca7e10e4e61c3624eaa0941ccff04a8a212009f024, 0xf,
                   0xffcb9843d60f6159c9db58835c926643ad7c09ed8821ecf5, 0x1f);
    assert Squares(0xffcb9843d60f6159c9db58835c926643ad7c09ed8821ecf5, 0x1f,
                   0xff973b41fa98c081472e6896dfb254bf81ef047c569db3a2, 0x3f);
    assert Squares(0xff973b41fa98c081472e6896dfb254bf81ef047c569db3a2, 0x3f,
                   0xff2ea16466c96a3843ec78b326b5286097e9315c35bffb3b, 0x7f);
    assert Squares(0xff2ea16466c96a3843ec78b326b5286097e9315c35bffb3b, 0x7f,
                   0xfe5dee046a99a2a811c461f1969c3052f544235f4d64fd85, 0xff);
    assert Squares(0xfe5dee046a99a2a811c461f1969c3052f544235f4d64fd85, 0xff,
                   0xfcbe86c7900a88aedcffc83b479aa3a3dc268667328f4b13, 0x1ff);
    assert Squares(0xfcbe86c7900a88aedcffc83b479aa3a3dc268667328f4b13, 0x1ff,
                   0xf987a7253ac413176f2b074cf7815e53facbf1906fa659ad, 0x3ff);
    assert Squares(0xf987a7253ac413176f2b074cf7815e53facbf1906fa659ad, 0x3ff,
                   0xf3392b0822b70005940c7a398e4b70f2ca02c578b1d41f50, 0x7ff);
  }

  lemma LowsSquare10To18()
    ensures forall k :: 10 <= k < 19 ==> Squares(LOWS[k], Pow2(k + 1) - 1, LOWS[k + 1], Pow2(k + 2) - 1)
  {
    TwentyBits();
    hide Pow2;
    assert Squares(0xf3392b0822b70005940c7a398e4b70f2ca02c578b1d41f50, 0x7ff,
                   0xe7159475a2c29b7443b29c7fa6e889d89a78853263da3752, 0xfff);
    assert Squares(0xe7159475a2c29b7443b29c7fa6e889d89a78853263da3752, 0xfff,
                   0xd097f3bdfd2022b8845ad8f792aa58256a3df3fc12a5ba57, 0x1fff);
    assert Squares(0xd097f3bdfd2022b8845ad8f792aa58256a3df3fc12a5ba57, 0x1fff,
                   0xa9f746462d870fdf8a65dc1f90e061e4fa160424952d4740, 0x3fff);
    assert Squares(0xa9f746462d870fdf8a65dc1f90e061e4fa160424952d4740, 0x3fff,
                   0x70d869a156d2a1b890bb3df62baf32f6c49744d5020b4d6e, 0x7fff);
    assert Squares(0x70d869a156d2a1b890bb3df62baf32f6c49744d5020b4d6e, 0x7fff,
                   0x31be135f97d08fd981231505542fcfa586c1e84cfea49fad, 0xffff);
    assert Squares(0x31be135f97d08fd981231505542fcfa586c1e84cfea49fad, 0xffff,
                   0x9aa508b5b7a84e1c677de54f3e99bc8fdac1d580d2e9b01, 0x1ffff);
    assert Squares(0x9aa508b5b7a84e1c677de54f3e99bc8fdac1d580d2e9b01, 0x1ffff,
                   0x5d6af8dedb81196699c329225ee6044e0e6dc91bb283db, 0x3ffff);
    assert Squares(0x5d6af8dedb81196699c329225ee6044e0e6dc91bb283db, 0x3ffff,
                   0x2216e584f5fa1ea926041bedfe97b74dcb4ff36b9c96, 0x7ffff);
    assert Squares(0x2216e584f5fa1ea926041bedfe97b74dcb4ff36b9c96, 0x7ffff,
                   0x48a170391f7dc42444e8fa23b8ad7d66987e9cb, 0xfffff);
  }

  lemma LowsRound()
    ensures forall k :: 0 <= k < 20 ==> Rounds(MULTIPLIERS[k], LOWS[k], Pow2(k + 1) - 1)
  {
    hide Pow2, Rounds;
    LowsRound0To9();
    LowsRound10To19();
  }

  lemma LowsRound0To9()
    ensures forall k :: 0 <= k < 10 ==> Rounds(MULTIPLIERS[k], LOWS[k], Pow2(k + 1) - 1)
  {
    TwentyBits();
    hide Pow2;
    assert Rounds(0xfffcb933bd6fad37aa2d162d1a594001, 0xfffcb933bd6fad37aa2d162d1a594001733071ca63262237, 0x1);
    assert Rounds(0xfff97272373d413259a46990580e213a, 0xfff97272373d413259a46990580e2139b8e3eb6b6eb57c60, 0x3);
    assert Rounds(0xfff2e50f5f656932ef12357cf3c7fdcc, 0xfff2e50f5f656932ef12357cf3c7fdcb98a5078da53efa25, 0x7);
    assert Rounds(0xffe5caca7e10e4e61c3624eaa0941cd0, 0xffe5caca7e10e4e61c3624eaa0941ccff04a8a212009f024, 0xf);
    assert Rounds(0xffcb9843d60f6159c9db58835c926644, 0xffcb9843d60f6159c9db58835c926643ad7c09ed8821ecf5, 0x1f);
    assert Rounds(0xff973b41fa98c081472e6896dfb254c0, 0xff973b41fa98c081472e6896dfb254bf81ef047c569db3a2, 0x3f);
    assert Rounds(0xff2ea16466c96a3843ec78b326b52861, 0xff2ea16466c96a3843ec78b326b5286097e9315c35bffb3b, 0x7f);
    assert Rounds(0xfe5dee046a99a2a811c461f1969c3053, 0xfe5dee046a99a2a811c461f1969c3052f544235f4d64fd85, 0xff);
    assert Rounds(0xfcbe86c7900a88aedcffc83b479aa3a4, 0xfcbe86c7900a88aedcffc83b479aa3a3dc268667328f4b13, 0x1ff);
    assert Rounds(0xf987a7253ac413176f2b074cf7815e54, 0xf987a7253ac413176f2b074cf7815e53facbf1906fa659ad, 0x3ff);
  }

  lemma LowsRound10To19()
    ensures forall k :: 10 <= k < 20 ==> Rounds(MULTIPLIERS[k], LOWS[k], Pow2(k + 1) - 1)
  {
    TwentyBits();
    hide Pow2;
    assert Rounds(0xf3392b0822b70005940c7a398e4b70f3, 0xf3392b0822b70005940c7a398e4b70f2ca02c578b1d41f50, 0x7ff);
    assert Rounds(0xe7159475a2c29b7443b29c7fa6e889d9, 0xe7159475a2c29b7443b29c7fa6e889d89a78853263da3752, 0xfff);
    assert Rounds(0xd097f3bdfd2022b8845ad8f792aa5825, 0xd097f3bdfd2022b8845ad8f792aa58256a3df3fc12a5ba57, 0x1fff);
    assert Rounds(0xa9f746462d870fdf8a65dc1f90e061e5, 0xa9f746462d870fdf8a65dc1f90e061e4fa160424952d4740, 0x3fff);
    assert Rounds(0x70d869a156d2a1b890bb3df62baf32f7, 0x70d869a156d2a1b890bb3df62baf32f6c49744d5020b4d6e, 0x7fff);
    assert Rounds(0x31be135f97d08fd981231505542fcfa6, 0x31be135f97d08fd981231505542fcfa586c1e84cfea49fad, 0xffff);
    assert Rounds(0x9aa508b5b7a84e1c677de54f3e99bc9, 0x9aa508b5b7a84e1c677de54f3e99bc8fdac1d580d2e9b01, 0x1ffff);
    assert Rounds(0x5d6af8dedb81196699c329225ee604, 0x5d6af8dedb81196699c329225ee6044e0e6dc91bb283db, 0x3ffff);
    assert Rounds(0x2216e584f5fa1ea926041bedfe98, 0x2216e584f5fa1ea926041bedfe97b74dcb4ff36b9c96, 0x7ffff);
    assert Rounds(0x48a170391f7dc42444e8fa2, 0x48a170391f7dc42444e8fa23b8ad7d66987e9cb, 0xfffff);
  }

  lemma FracMono(x: nat, y: nat, q: nat)
    requires q > 0 && x <= y
    ensures Frac(x, q) <= Frac(y, q)
  {
    var a, b := Frac(x, q), Frac(y, q);
    assert a * q as real == x as real && b * q as real == y as real;
    RealCancel(a, b, q as real);
  }

  /** Squares of fractions, compared as naturals. */
  lemma FracSquare(x: nat, y: nat, q: nat)
    requires q > 0
    ensures y * q <= x * x ==> Frac(y, q) <= Square(Frac(x, q))
    ensures x * x <= y * q ==> Square(Frac(x, q)) <= Frac(y, q)
  {
    var d := q as real;
    var a, b := Frac(x, q), Frac(y, q);
    assert a * d == x as real && b * d == y as real;
    assert (x * x) as real == Square(a) * (d * d) by { assert (a * d) * (a * d) == a * a * (d * d); }
    assert (y * q) as real == b * (d * d);
    RealCancel(b, Square(a), d * d);
    RealCancel(Square(a), b, d * d);
  }

  lemma SquareMono(x: real, y: real)
    requires 0.0 <= x <= y
    ensures Square(x) <= Square(y)
  {
    RealMulMono(x, y, x, y);
  }

  lemma EnclosesNext(k: nat, low: nat, width: nat, low': nat, width': nat)
    requires Encloses(k, low, width) && Squares(low, width, low', width')
    ensures Encloses(k + 1, low', width')
  {
    var p := Power(FALL, Pow2(k));
    PowerAdd(FALL, Pow2(k), Pow2(k));
    assert Power(FALL, Pow2(k + 1)) == Square(p);
    hide Power, Pow2, Frac;
    var a, b := Square(Frac(low, FINE_Q128)), Square(Frac(low + width, FINE_Q128));
    FracSquare(low, low', FINE_Q128);
    FracSquare(low + width, low' + width', FINE_Q128);
    SquareMono(a, p);
    SquareMono(p, b);
    SquareMono(Frac(low', FINE_Q128), a);
    SquareMono(b, Frac(low' + width', FINE_Q128));
  }

  lemma EnclosesFirst()
    ensures Encloses(0, LOWS[0], 1)
  {
    var low: nat := 0xfffcb933bd6fad37aa2d162d1a594001733071ca63262237;
    BelowFall(low);
    AboveFall(low + 1);
    assert Power(FALL, 1) == FALL * Power(FALL, 0);
  }

  lemma BelowFall(x: nat)
    requires x * x * 10001 <= FINE_Q128 * FINE_Q128 * 10000
    ensures Square(Frac(x, FINE_Q128)) <= FALL
  {
    var d := FINE_Q128 as real;
    var a := Frac(x, FINE_Q128);
    assert a * d == x as real;
    assert (x * x) as real == Square(a) * (d * d) by { assert (a * d) * (a * d) == a * a * (d * d); }
    RealCancel(Square(a), FALL, d * d);
  }

  lemma AboveFall(x: nat)
    requires FINE_Q128 * FINE_Q128 * 10000 <= x * x * 10001
    ensures FALL <= Square(Frac(x, FINE_Q128))
  {
    var d := FINE_Q128 as real;
    var a := Frac(x, FINE_Q128);
    assert a * d == x as real;
    assert (x * x) as real == Square(a) * (d * d) by { assert (a * d) * (a * d) == a * a * (d * d); }
    RealCancel(FALL, Square(a), d * d);
  }

  lemma {:induction false} LowsEnclose(k: nat)
    requires k < 20
    ensures Encloses(k, LOWS[k], Pow2(k + 1) - 1)
  {
    if k == 0 {
      EnclosesFirst();
    } else {
      LowsEnclose(k - 1);
      LowsSquare();
      hide Squares, Encloses, Pow2;
      EnclosesNext(k - 1, LOWS[k - 1], Pow2(k) - 1, LOWS[k], Pow2(k + 1) - 1);
    }
  }

  /** Twice the k-th multiplier, one less and one more, with the ideal in between. */
  lemma MultiplierIsNearest(k: nat)
    requires k < 20
    ensures MULTIPLIERS[k] > 0
    ensures Square(Frac(2 * MULTIPLIERS[k] - 1, 2 * Q128)) <= Power(FALL, Pow2(k))
    ensures Power(FALL, Pow2(k)) <= Square(Frac(2 * MULTIPLIERS[k] + 1, 2 * Q128))
  {
    hide Pow2, Power, Square, Frac, Rounds;
    LowsEnclose(k);
    LowsRound();
    NearestOf(MULTIPLIERS[k], LOWS[k], Pow2(k + 1) - 1, Power(FALL, Pow2(k)));
  }

  lemma NearestOf(m: nat, low: nat, width: nat, p: real)
    requires Rounds(m, low, width)
    requires Square(Frac(low, FINE_Q128)) <= p <= Square(Frac(low + width, FINE_Q128))
    ensures m > 0 && Square(Frac(2 * m - 1, 2 * Q128)) <= p <= Square(Frac(2 * m + 1, 2 * Q128))
  {
    WithinHalf(m, low, width);
    hide Rounds, Frac, Square;
    SquareMono(Frac(2 * m - 1, 2 * Q128), Frac(low, FINE_Q128));
    SquareMono(Frac(low + width, FINE_Q128), Frac(2 * m + 1, 2 * Q128));
  }

  lemma WithinHalf(m: nat, low: nat, width: nat)
    requires Rounds(m, low, width)
    ensures m > 0 && Frac(2 * m - 1, 2 * Q128) <= Frac(low, FINE_Q128)
    ensures Frac(low + width, FINE_Q128) <= Frac(2 * m + 1, 2 * Q128)
  {
    HalfUnits(2 * m - 1, low);
    HalfUnits(2 * m + 1, low + width);
  }

  lemma HalfUnits(x: nat, y: nat)
    ensures x * FINE <= 2 * y ==> Frac(x, 2 * Q128) <= Frac(y, FINE_Q128)
    ensures 2 * y <= x * FINE ==> Frac(y, FINE_Q128) <= Frac(x, 2 * Q128)
  {
    assert Frac(x, 2 * Q128) == Frac(x * FINE, 2 * FINE_Q128);
    assert Frac(y, FINE_Q128) == Frac(2 * y, 2 * FINE_Q128);
    if x * FINE <= 2 * y { FracMono(x * FINE, 2 * y, 2 * FINE_Q128); }
    if 2 * y <= x * FINE { FracMono(2 * y, x * FINE, 2 * FINE_Q128); }
  }

  // ---- relative errors ----

  /** x and y differ by at most the share e of either. */
  predicate Near(x: real, y: real, e: real) { 0.0 <= x && 0.0 <= y && x * (1.0 - e) <= y && y * (1.0 - e) <= x }

  lemma Loses(x: real, a: real, b: real, p: real)
    requires 0.0 <= x && 0.0 <= a && 0.0 <= b && p == x * (1.0 - a)
    ensures x * (1.0 - (a + b)) <= p * (1.0 - b)
  {
    RealMulMono(0.0, x, 0.0, a);
    RealMulMono(0.0, x * a, 0.0, b);
    assert p == x - x * a;
    assert p * (1.0 - b) == p - p * b;
    assert p * b == x * b - x * a * b;
    assert x * (1.0 - (a + b)) == x - x * a - x * b;
  }

  lemma NearThrough(x: real, y: real, z: real, a: real, b: real)
    requires Near(x, y, a) && Near(y, z, b) && 0.0 <= a && 0.0 <= b && a + b <= 1.0
    ensures Near(x, z, a + b)
  {
    OneSideThrough(x, y, z, a, b);
    OneSideThrough(z, y, x, b, a);
  }

  lemma OneSideThrough(x: real, y: real, z: real, a: real, b: real)
    requires 0.0 <= x && x * (1.0 - a) <= y && y * (1.0 - b) <= z && 0.0 <= a <= 1.0 && 0.0 <= b <= 1.0
    ensures x * (1.0 - (a + b)) <= z
  {
    var p, q := x * (1.0 - a), 1.0 - b;
    Loses(x, a, b, p);
    RealMulMono(0.0, x, 0.0, 1.0 - a);
    RealMulMono(p, y, q, q);
    assert x * (1.0 - (a + b)) <= p * q <= y * q <= z;
  }

  lemma NearProduct(x: real, y: real, u: real, v: real, xu: real, yv: real, a: real, b: real)
    requires xu == x * u && yv == y * v
    requires Near(x, y, a) && Near(u, v, b) && 0.0 <= a && 0.0 <= b && a + b <= 1.0
    ensures Near(xu, yv, a + b)
  {
    OneSide(x, y, u, v, a, b);
    OneSide(y, x, v, u, a, b);
    RealMulMono(0.0, x, 0.0, u);
    RealMulMono(0.0, y, 0.0, v);
  }

  lemma OneSide(x: real, y: real, u: real, v: real, a: real, b: real)
    requires 0.0 <= x && 0.0 <= u && x * (1.0 - a) <= y && u * (1.0 - b) <= v && 0.0 <= a <= 1.0 && 0.0 <= b <= 1.0
    ensures x * u * (1.0 - (a + b)) <= y * v
  {
    RealMulMono(0.0, x, 0.0, u);
    var p, q := x * (1.0 - a), u * (1.0 - b);
    var w := x * u * (1.0 - a);
    Loses(x * u, a, b, w);
    RealMulMono(0.0, x, 0.0, 1.0 - a);
    RealMulMono(0.0, u, 0.0, 1.0 - b);
    RealMulMono(p, y, q, v);
    Regroup(x, 1.0 - a, u, 1.0 - b);
  }

  lemma Regroup(x: real, a: real, u: real, b: real)
    ensures x * u * a * b == x * a * (u * b)
  {
    assert x * u * a == x * a * u;
  }

  /** A value rounded down by the share e / 2 of the result at most. */
  lemma NearFloor(s: real, v: real, e: real)
    requires 0.0 <= e <= 1.0 && 0.0 <= s <= v && v <= s * (1.0 + e / 2.0)
    ensures Near(Square(s), Square(v), e)
  {
    var h := 1.0 + e / 2.0;
    SquareMono(s, v);
    SquareMono(v, s * h);
    assert Square(s * h) == Square(s) * Square(h);
    var c := Square(h) * (1.0 - e);
    assert c == 1.0 - e * e * 0.75 - e * e * e * 0.25;
    RealMulMono(0.0, e, 0.0, e);
    RealMulMono(0.0, e * e, 0.0, e);
    assert c <= 1.0;
    RealMulMono(Square(v), Square(s) * Square(h), 1.0 - e, 1.0 - e);
    RealMulMono(0.0, Square(s), 0.0, e);
    assert Square(s) * Square(h) * (1.0 - e) == Square(s) * c;
    assert Square(s) * (1.0 - c) >= 0.0 by { RealMulMono(0.0, Square(s), 0.0, 1.0 - c); }
    assert Square(s) * (1.0 - e) == Square(s) - Square(s) * e;
    assert Square(v) * (1.0 - e) <= Square(s);
  }

  lemma NearWeaken(x: real, y: real, a: real, b: real)
    requires Near(x, y, a) && a <= b
    ensures Near(x, y, b)
  {
    RealMulMono(0.0, x, 0.0, b - a);
    RealMulMono(0.0, y, 0.0, b - a);
    assert x * (1.0 - b) == x * (1.0 - a) - x * (b - a);
    assert y * (1.0 - b) == y * (1.0 - a) - y * (b - a);
  }

  // ---- ratios ----

  const P64: nat := 0x1_0000_0000_0000_0000

  /** The error of one factor: 2^-62. */
  const UNIT: real := 4.0 / P64 as real

  /** A multiplier is half a unit off at most, and has more than 64 bits. */
  lemma MultiplierNear(k: nat)
    requires k < 20
    ensures Near(Square(Frac(MULTIPLIERS[k], Q128)), Power(FALL, Pow2(k)), UNIT / 2.0)
  {
    MultiplierIsNearest(k);
    MultipliersAreLarge();
    HalfUnitNear(MULTIPLIERS[k], Power(FALL, Pow2(k)));
  }

  lemma MultipliersAreLarge()
    ensures forall k :: 0 <= k < 20 ==> P64 < MULTIPLIERS[k]
  {
  }

  lemma HalfUnitNear(m: nat, p: real)
    requires P64 < m && 0.0 <= p
    requires Square(Frac(2 * m - 1, 2 * Q128)) <= p <= Square(Frac(2 * m + 1, 2 * Q128))
    ensures Near(Square(Frac(m, Q128)), p, UNIT / 2.0)
  {
    hide Frac, Square, Near;
    var e := UNIT / 2.0;
    var a, x, c := Frac(2 * m - 1, 2 * Q128), Frac(2 * m, 2 * Q128), Frac(2 * m + 1, 2 * Q128);
    UnitIsSmall(2 * m - 1);
    UnitIsSmall(2 * m);
    FracStep(2 * m - 1, 2 * m, 2 * Q128, e / 2.0);
    FracStep(2 * m, 2 * m + 1, 2 * Q128, e / 2.0);
    DoubleFrac(m, Q128);
    NearFloor(a, x, e);
    NearFloor(x, c, e);
    Between(Square(a), Square(x), Square(c), p, e);
  }

  lemma UnitIsSmall(n: nat)
    requires P64 <= n
    ensures 1.0 <= n as real * (UNIT / 2.0 / 2.0)
  {
  }

  lemma DoubleFrac(m: nat, q: nat)
    requires q > 0
    ensures Frac(2 * m, 2 * q) == Frac(m, q)
  {
    var f := Frac(m, q);
    assert f * q as real == m as real;
  }

  lemma Between(a: real, x: real, c: real, p: real, e: real)
    requires Near(a, x, e) && Near(x, c, e) && a <= p <= c && 0.0 <= p && 0.0 <= e <= 1.0
    ensures Near(x, p, e)
  {
    RealMulMono(p, c, 1.0 - e, 1.0 - e);
  }

  /** One unit more is a small share more. */
  lemma FracStep(x: nat, y: nat, q: nat, e: real)
    requires q > 0 && x <= y <= x + 1 && 0.0 <= e && 1.0 <= x as real * e
    ensures Frac(x, q) <= Frac(y, q) <= Frac(x, q) * (1.0 + e)
  {
    var d := q as real;
    FracMono(x, y, q);
    assert Frac(x, q) * (1.0 + e) * d == x as real * (1.0 + e);
    assert Frac(y, q) * d == y as real;
    RealCancel(Frac(y, q), Frac(x, q) * (1.0 + e), d);
  }

  /** Rounding a product down costs the share of half a unit in it, twice for the square. */
  lemma ScaleNear(r: nat, m: nat, rm: real, d: real)
    requires rm == Square(Frac(r, Q128)) * Square(Frac(m, Q128))
    requires 0.0 <= d <= 1.0 && 1.0 <= Scale(r, m) as real * (d / 2.0)
    ensures Near(Square(Frac(Scale(r, m), Q128)), rm, d)
  {
    hide Frac, Scale, Near, Square;
    var s, v := Frac(Scale(r, m), Q128), Frac(r, Q128) * Frac(m, Q128);
    ScaleRoundsDown(r, m, d / 2.0);
    NearFloor(s, v, d);
    SquareOfProduct(Frac(r, Q128), Frac(m, Q128), v, rm);
  }

  lemma SquareOfProduct(x: real, y: real, xy: real, squares: real)
    requires xy == x * y && squares == Square(x) * Square(y)
    ensures Square(xy) == squares
  {
    Regroup(x, y, x, y);
    assert x * y * (x * y) == x * x * y * y;
  }

  lemma ScaleRoundsDown(r: nat, m: nat, e: real)
    requires 0.0 <= e && 1.0 <= Scale(r, m) as real * e
    ensures Frac(Scale(r, m), Q128) <= Frac(r, Q128) * Frac(m, Q128) <= Frac(Scale(r, m), Q128) * (1.0 + e)
  {
    var q := Q128 as real;
    var s, n := Scale(r, m), Product(r, m);
    assert n == s * Q128 + n % Q128;
    var v := Frac(r, Q128) * Frac(m, Q128);
    assert Frac(r, Q128) * q == r as real && Frac(m, Q128) * q == m as real && Frac(s, Q128) * q == s as real;
    assert v * (q * q) == r as real * m as real;
    assert n as real == r as real * m as real;
    assert Frac(s, Q128) * (q * q) == (s * Q128) as real;
    RealCancel(Frac(s, Q128), v, q * q);
    assert Frac(s, Q128) * (1.0 + e) * (q * q) == s as real * (1.0 + e) * q;
    assert n as real <= (s as real + 1.0) * q;
    RealMulMono(s as real + 1.0, s as real * (1.0 + e), q, q);
    RealCancel(v, Frac(s, Q128) * (1.0 + e), q * q);
  }

  /** The k-th entry is the ideal of bit k, but for the error of its rounding. */
  ghost predicate IsFactor(m: nat, k: nat) {
    m <= Q128 && Near(Square(Frac(m, Q128)), Power(FALL, Pow2(k)), UNIT / 2.0)
  }

  ghost predicate AreFactors(c: seq<nat>, n: nat) { n <= |c| && forall k: nat :: k < n ==> IsFactor(c[k], k) }

  lemma MultipliersAreFactors()
    ensures AreFactors(MULTIPLIERS, 20)
  {
    TableHolds();
    forall k: nat | k < 20 ensures IsFactor(MULTIPLIERS[k], k) { MultiplierNear(k); }
  }

  /** The error of n factors. */
  function Errors(n: nat): (e: real)
    ensures 0.0 <= e
  {
    if n == 0 then 0.0 else Errors(n - 1) + UNIT
  }

  lemma NextErrors(n: nat)
    ensures Errors(n + 1) == Errors(n) + UNIT
  {
  }

  lemma {:induction false} FewErrors(n: nat)
    ensures Errors(n) == n as real * UNIT
  {
    if n > 0 { FewErrors(n - 1); }
  }

  lemma {:induction false} SmallErrors(n: nat)
    requires n <= 20
    ensures Errors(n) <= 20.0 * UNIT < 0.5
    decreases 20 - n
  {
    if n == 20 {
      FewErrors(20);
    } else {
      SmallErrors(n + 1);
      NextErrors(n);
    }
  }

  ghost predicate IsFold(ratio: nat, t: nat, k: nat) {
    Near(Square(Frac(ratio, Q128)), Power(FALL, t), Errors(k))
  }

  lemma NoFactor()
    ensures IsFold(Q128, 0, 0)
  {
    assert Frac(Q128, Q128) == 1.0;
  }

  lemma OnlyZero(c: seq<nat>, t: nat)
    requires t < Pow2(0)
    ensures t == 0 && Fold(c, t, 0) == Q128
  {
  }

  lemma TopBit(c: seq<nat>, t: nat, k: nat)
    requires 0 < k <= |c| && t < Pow2(k)
    ensures t < Pow2(k - 1) ==> Fold(c, t, k) == Fold(c, t, k - 1)
    ensures t >= Pow2(k - 1) ==>
              t - Pow2(k - 1) < Pow2(k - 1) && Fold(c, t, k) == Scale(Fold(c, t - Pow2(k - 1), k - 1), c[k - 1])
  {
  }

  /** Multiplier and rounding together cost one unit per factor, as long as 64 bits are left. */
  lemma {:induction false} FoldNear(c: seq<nat>, t: nat, k: nat)
    requires k <= 20 && AreFactors(c, k) && t < Pow2(k) && P64 <= Fold(c, t, k)
    ensures IsFold(Fold(c, t, k), t, k)
    decreases k
  {
    hide Near, Square, Frac, Power, Scale, Fold, Pow2, Errors;
    if k == 0 {
      OnlyZero(c, t);
      NoFactor();
    } else {
      TopBit(c, t, k);
      if t < Pow2(k - 1) {
        FoldNear(c, t, k - 1);
        NextErrors(k - 1);
        NearWeaken(Square(Frac(Fold(c, t, k), Q128)), Power(FALL, t), Errors(k - 1), Errors(k));
      } else {
        var rest, p := t - Pow2(k - 1), Pow2(k - 1);
        ScaleBounds(Fold(c, rest, k - 1), c[k - 1]);
        FoldNear(c, rest, k - 1);
        PowerAdd(FALL, rest, p);
        UnitIsSmall(Fold(c, t, k));
        NextErrors(k - 1);
        SmallErrors(k - 1);
        var r, m := Square(Frac(Fold(c, rest, k - 1), Q128)), Square(Frac(c[k - 1], Q128));
        var rm, s, x := r * m, Square(Frac(Fold(c, t, k), Q128)), Power(FALL, t);
        ScaleNear(Fold(c, rest, k - 1), c[k - 1], rm, UNIT / 2.0);
        NearProduct(r, Power(FALL, rest), m, Power(FALL, p), rm, x, Errors(k - 1), UNIT / 2.0);
        NearThrough(s, rm, x, UNIT / 2.0, Errors(k - 1) + UNIT / 2.0);
        NearWeaken(s, x, UNIT / 2.0 + (Errors(k - 1) + UNIT / 2.0), Errors(k));
      }
    }
  }

  /** 2^-57, more than the error of twenty factors, and 2^-56. */
  const E57: real := 32.0 * UNIT
  const E56: real := E57 + E57

  /** The ratio of a tick is 1.0001^(-t / 2), to one part in 2^57 of its square. */
  lemma RatioFollowsBase(t: nat)
    requires t <= MAX_TICK
    ensures Near(Square(Frac(Ratio(t), Q128)), Power(FALL, t), E57)
  {
    hide Near, Square, Frac, Power, Fold, Errors;
    TwentyBits();
    MultipliersAreFactors();
    RatioIsLarge(t);
    FoldNear(MULTIPLIERS, t, 20);
    SmallErrors(20);
    NearWeaken(Square(Frac(Ratio(t), Q128)), Power(FALL, t), Errors(20), E57);
  }

  lemma RatioIsLarge(t: nat)
    requires t <= MAX_TICK
    ensures P64 <= Ratio(t)
  {
    LargestTickRatio();
    if t < MAX_TICK { RatioGap(t, MAX_TICK); }
  }

  // ---- prices ----

  /** 1.0001 to the power of the tick. */
  function Base(tick: int): (b: real)
    ensures b > 0.0
  {
    if tick >= 0 then Power(RISE, tick) else 1.0 / Power(RISE, -tick)
  }

  lemma {:induction false} FallInvertsRise(n: nat)
    ensures Power(FALL, n) * Power(RISE, n) == 1.0
  {
    if n > 0 {
      FallInvertsRise(n - 1);
      var a, b := Power(FALL, n - 1), Power(RISE, n - 1);
      Regroup(FALL, a, RISE, b);
      assert FALL * a * (RISE * b) == FALL * RISE * (a * b) by { assert FALL * RISE == 1.0; }
    }
  }

  lemma Inverts(x: real, y: real, e: real)
    requires 0.0 < x && 0.0 < y && 0.0 <= e && Near(x, y, e)
    ensures Near(1.0 / x, 1.0 / y, e)
  {
    InvertsOneSide(x, y, e);
    InvertsOneSide(y, x, e);
  }

  lemma InvertsOneSide(x: real, y: real, e: real)
    requires 0.0 < x && 0.0 < y && y * (1.0 - e) <= x
    ensures 1.0 / x * (1.0 - e) <= 1.0 / y
  {
    var u, v := 1.0 / x, 1.0 / y;
    assert u * x == 1.0 && v * y == 1.0;
    RealMulMono(0.0, x, 0.0, y);
    assert u * (1.0 - e) * (x * y) == y * (1.0 - e) by { assert u * (1.0 - e) * (x * y) == u * x * (y * (1.0 - e)); }
    assert v * (x * y) == x by { assert v * (x * y) == v * y * x; }
    RealCancel(u * (1.0 - e), v, x * y);
  }

  lemma InverseNear(t: nat)
    requires 0 < t <= MAX_TICK
    ensures Near(Square(Frac(MAX_UINT256 / Ratio(t), Q128)), Power(RISE, t), E56)
  {
    hide Near, Power, Frac, Square;
    RatioFollowsBase(t);
    FallInvertsRise(t);
    InverseRoundsDown(Ratio(t));
    var r, x := Frac(Ratio(t), Q128), Frac(MAX_UINT256 / Ratio(t), Q128);
    SquareOfInverse(r);
    InverseOf(Power(FALL, t), Power(RISE, t));
    NearFloor(x, 1.0 / r, E57);
    Inverts(Square(r), Power(FALL, t), E57);
    NearThrough(Square(x), Square(1.0 / r), Power(RISE, t), E57, E57);
  }

  lemma InverseOf(x: real, y: real)
    requires 0.0 < x && x * y == 1.0
    ensures y == 1.0 / x
  {
  }

  lemma SquareOfInverse(r: real)
    requires r > 0.0
    ensures Square(r) > 0.0 && Square(1.0 / r) == 1.0 / Square(r)
  {
    var u := 1.0 / r;
    assert u * r == 1.0;
    assert u * u * (r * r) == 1.0 by { assert u * u * (r * r) == u * r * (u * r); }
  }

  lemma InverseRoundsDown(ratio: nat)
    requires 0 < ratio <= Q128
    ensures 0.0 < Frac(ratio, Q128)
    ensures var x, v := Frac(MAX_UINT256 / ratio, Q128), 1.0 / Frac(ratio, Q128);
            x <= v <= x * (1.0 + E57 / 2.0)
  {
    var n := MAX_UINT256 / ratio;
    assert MAX_UINT256 == ratio * n + MAX_UINT256 % ratio;
    assert n >= Q128 - 1 by { DivMonoDivisor(MAX_UINT256, ratio, Q128); }
    assert Product(n, ratio) <= Q128 * Q128 <= Product(n + 1, ratio);
    FracOfQuotient(n, ratio, E57 / 2.0);
  }

  lemma FracOfQuotient(n: nat, d: nat, e: real)
    requires 0 < d && 0.0 <= e && 1.0 <= n as real * e
    requires Product(n, d) <= Q128 * Q128 <= Product(n + 1, d)
    ensures 0.0 < Frac(d, Q128) && Frac(n, Q128) <= 1.0 / Frac(d, Q128) <= Frac(n, Q128) * (1.0 + e)
  {
    var x, c, q := n as real, d as real, Q128 as real;
    assert Product(n, d) as real == x * c && Product(n + 1, d) as real == (x + 1.0) * c;
    Quotient(c, q);
    Compare(x, c, q, e);
  }

  lemma Quotient(c: real, q: real)
    requires 0.0 < c && 0.0 < q
    ensures 0.0 < c / q && 1.0 / (c / q) == q / c
  {
    var w, v := c / q, q / c;
    assert w * q == c && v * c == q;
    RealCancel(w, 0.0, q);
    Associate(v, w, q);
    assert v * w * q == v * c;
    RealCancel(v * w, 1.0, q);
    RealCancel(1.0, v * w, q);
  }

  lemma Associate(a: real, b: real, c: real)
    ensures a * b * c == a * (b * c)
  {
  }

  lemma ProductOver(f: real, q: real, x: real, c: real)
    requires f * q == x
    ensures f * (q * c) == x * c
  {
    Associate(f, q, c);
  }

  lemma Compare(x: real, c: real, q: real, e: real)
    requires 0.0 <= x && 0.0 < c && 0.0 < q && 0.0 <= e && 1.0 <= x * e && x * c <= q * q <= (x + 1.0) * c
    ensures x / q <= q / c <= x / q * (1.0 + e)
  {
    var f, v, d := x / q, q / c, q * c;
    RealMulMono(0.0, q, 0.0, c);
    ProductOver(f, q, x, c);
    ProductOver(v, c, q, q);
    RealCancel(f, v, d);
    CompareAbove(f, v, x, c, q, e);
  }

  lemma CompareAbove(f: real, v: real, x: real, c: real, q: real, e: real)
    requires f * q == x && v * (q * c) == q * q && 0.0 < q * c && 0.0 <= x && 0.0 <= c
    requires 1.0 <= x * e && q * q <= (x + 1.0) * c
    ensures v <= f * (1.0 + e)
  {
    var g, y := f * (1.0 + e), x + x * e;
    Associate(f, 1.0 + e, q);
    assert g * q == y;
    ProductOver(g, q, y, c);
    RealMulMono(x + 1.0, y, c, c);
    RealCancel(v, g, q * c);
  }

  lemma CeilFrac(x: nat)
    requires x > 0
    ensures CeilShift32(x) > 0
    ensures Frac(CeilShift32(x) - 1, Q96) <= Frac(x, Q128) <= Frac(CeilShift32(x), Q96)
  {
    var p := CeilShift32(x);
    assert (p - 1) * Q32 < x <= p * Q32;
    SameFrac(p - 1);
    SameFrac(p);
    FracMono((p - 1) * Q32, x, Q128);
    FracMono(x, p * Q32, Q128);
  }

  lemma SameFrac(p: nat)
    ensures Frac(p, Q96) == Frac(p * Q32, Q128)
  {
    assert (p * Q32) as real == p as real * Q32 as real;
  }

  /** The price of a tick is the root of 1.0001^tick in Q96, rounded up, to one part in 2^56 of the square. */
  lemma PriceFollowsBase(tick: int)
    requires InRange(tick)
    ensures Base(tick) * (1.0 - E56) <= Square(Frac(Price(tick), Q96))
    ensures Price(tick) > 0 && Square(Frac(Price(tick) - 1, Q96)) * (1.0 - E56) <= Base(tick)
  {
    hide Near, Frac, Square, Power, CeilShift32;
    if tick > 0 {
      InverseNear(tick);
      InversePositive(Ratio(tick));
      CeilNear(MAX_UINT256 / Ratio(tick), Base(tick));
    } else {
      var t := -tick;
      RatioFollowsBase(t);
      BaseOfNegative(t);
      NearWeaken(Square(Frac(Ratio(t), Q128)), Power(FALL, t), E57, E56);
      CeilNear(Ratio(t), Base(tick));
    }
  }

  lemma BaseOfNegative(t: nat)
    ensures Base(0 - t) == Power(FALL, t)
  {
    FallInvertsRise(t);
  }

  lemma InversePositive(ratio: nat)
    requires 0 < ratio <= Q128
    ensures MAX_UINT256 / ratio > 0
  {
    DivMonoDivisor(MAX_UINT256, ratio, Q128);
  }

  lemma CeilNear(x: nat, b: real)
    requires x > 0 && Near(Square(Frac(x, Q128)), b, E56)
    ensures CeilShift32(x) > 0 && b * (1.0 - E56) <= Square(Frac(CeilShift32(x), Q96))
    ensures Square(Frac(CeilShift32(x) - 1, Q96)) * (1.0 - E56) <= b
  {
    hide Frac, Square, CeilShift32;
    CeilFrac(x);
    var p := CeilShift32(x);
    SquareMono(Frac(p - 1, Q96), Frac(x, Q128));
    SquareMono(Frac(x, Q128), Frac(p, Q96));
    RealMulMono(Square(Frac(p - 1, Q96)), Square(Frac(x, Q128)), 1.0 - E56, 1.0 - E56);
  }
}
