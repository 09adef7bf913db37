/** The product a bit pattern selects from a table of Q128 multipliers, floored after every factor.
    Everything here holds for any table; TickMath supplies the real one. */
module BitProduct {
  import opened Arith

  const Q128: nat := 0x1_0000_0000_0000_0000_0000_0000_0000_0000

  function Pow2(k: nat): (p: nat)
    ensures p > 0
  {
    if k == 0 then 1 else 2 * Pow2(k - 1)
  }

  function Scale(ratio: nat, multiplier: nat): nat {
    ratio * multiplier / Q128
  }

  /** The ratio after the bits 0 .. k-1 of `t` were applied, lowest bit first. */
  function Fold(c: seq<nat>, t: nat, k: nat): nat
    requires k <= |c| && t < Pow2(k)
  {
    if k == 0 then Q128
    else if t < Pow2(k - 1) then Fold(c, t, k - 1)
    else Scale(Fold(c, t - Pow2(k - 1), k - 1), c[k - 1])
  }

  /** The ratio of the pattern of k ones. */
  function Ones(c: seq<nat>, k: nat): nat
    requires k <= |c|
  {
    if k == 0 then Q128 else Scale(Ones(c, k - 1), c[k - 1])
  }

  /** A lower bound for the distance between the ratios of two different k-bit patterns. */
  function Gap(c: seq<nat>, k: nat): nat
    requires k <= |c|
  {
    if k == 0 then Q128
    else
      var scaled := Scale(Gap(c, k - 1), c[k - 1]);
      if scaled + c[k - 1] <= Ones(c, k - 1) then scaled
      else if c[k - 1] <= Ones(c, k - 1) then Ones(c, k - 1) - c[k - 1]
      else 0
  }

  /** Each multiplier shrinks, and lies below the product of all the smaller ones. */
  ghost predicate Carries(c: seq<nat>, n: nat)
    requires n <= |c|
  {
    forall k :: 0 <= k < n ==> c[k] <= Q128 && c[k] <= Ones(c, k)
  }

  /** One row of a precomputed table of `Ones` and lower bounds for `Gap`. */
  predicate Row(multiplier: nat, ones: nat, gap: nat, ones': nat, gap': nat) {
    && multiplier <= Q128 && multiplier <= ones
    && ones' == Scale(ones, multiplier)
    && gap' <= Scale(gap, multiplier) && gap' + multiplier <= ones
  }

  lemma {:induction false} TableRows(c: seq<nat>, ones: seq<nat>, gaps: seq<nat>, n: nat)
    requires n <= |c| && n < |ones| && n < |gaps| && ones[0] == Q128 && gaps[0] == Q128
    requires forall k :: 0 <= k < n ==> Row(c[k], ones[k], gaps[k], ones[k + 1], gaps[k + 1])
    ensures Carries(c, n) && Ones(c, n) == ones[n] && gaps[n] <= Gap(c, n)
  {
    if n > 0 {
      TableRows(c, ones, gaps, n - 1);
      assert Row(c[n - 1], ones[n - 1], gaps[n - 1], ones[n], gaps[n]);
      ScaleMono(gaps[n - 1], Gap(c, n - 1), c[n - 1]);
    }
  }

  // ---- the map r -> (r * c) >> 128 ----

  /** Scaling a sum keeps at least the sum of the scaled parts. */
  lemma ScaleGap(low: nat, gap: nat, multiplier: nat)
    ensures Scale(low, multiplier) + Scale(gap, multiplier) <= Scale(low + gap, multiplier)
  {
    assert (low + gap) * multiplier == low * multiplier + gap * multiplier;
    DivSum(low * multiplier, gap * multiplier, Q128);
  }

  lemma ScaleMono(low: nat, high: nat, multiplier: nat)
    requires low <= high
    ensures Scale(low, multiplier) <= Scale(high, multiplier)
  {
    ScaleGap(low, high - low, multiplier);
  }

  lemma ScaleBounds(ratio: nat, multiplier: nat)
    requires multiplier <= Q128
    ensures Scale(ratio, multiplier) <= ratio
    ensures ratio <= Q128 ==> Scale(ratio, multiplier) <= multiplier
  {
    MulMono(multiplier, Q128, ratio);
    DivMono(ratio * multiplier, ratio * Q128, Q128);
    if ratio <= Q128 {
      MulMono(ratio, Q128, multiplier);
      DivMono(ratio * multiplier, multiplier * Q128, Q128);
    }
  }

  // ---- one bit at a time ----

  /** One line of the loop-free source: bit k alone decides whether the ratio is scaled. */
  lemma FoldBit(c: seq<nat>, t: nat, k: nat)
    requires k < |c|
    ensures t % Pow2(k) < Pow2(k) && t % Pow2(k + 1) < Pow2(k + 1)
    ensures Fold(c, t % Pow2(k + 1), k + 1) ==
            if t / Pow2(k) % 2 != 0 then Scale(Fold(c, t % Pow2(k), k), c[k]) else Fold(c, t % Pow2(k), k)
  {
    SplitBit(t, Pow2(k));
  }

  lemma SplitBit(t: nat, p: nat)
    requires p > 0
    ensures t % (2 * p) == t % p + (if t / p % 2 != 0 then p else 0)
  {
    var q := t / p;
    assert t == p * q + t % p;
    if q % 2 != 0 {
      assert p * q == q / 2 * (2 * p) + p by { assert q == 2 * (q / 2) + 1; }
      DivModUnique(t, 2 * p, q / 2, p + t % p);
    } else {
      assert p * q == q / 2 * (2 * p) by { assert q == 2 * (q / 2); }
      DivModUnique(t, 2 * p, q / 2, t % p);
    }
  }

  // ---- all patterns ----

  lemma {:induction false} FoldBounds(c: seq<nat>, t: nat, k: nat)
    requires k <= |c| && t < Pow2(k) && Carries(c, k)
    ensures Ones(c, k) <= Fold(c, t, k) <= Q128
  {
    if k > 0 {
      var p := Pow2(k - 1);
      if t < p {
        FoldBounds(c, t, k - 1);
        ScaleBounds(Ones(c, k - 1), c[k - 1]);
      } else {
        var rest := Fold(c, t - p, k - 1);
        FoldBounds(c, t - p, k - 1);
        ScaleMono(Ones(c, k - 1), rest, c[k - 1]);
        ScaleBounds(rest, c[k - 1]);
      }
    }
  }

  /** A larger pattern has a smaller ratio, by the gap: two patterns that first differ, from the
      top, in bit j are pushed through the same maps above j. */
  lemma {:induction false} FoldGap(c: seq<nat>, t: nat, u: nat, k: nat)
    requires k <= |c| && t < u < Pow2(k) && Carries(c, k)
    ensures Fold(c, u, k) + Gap(c, k) <= Fold(c, t, k)
  {
    var j := k - 1;
    var p := Pow2(j);
    GapShrinks(c, k);
    if u < p {
      FoldGap(c, t, u, j);
    } else if p <= t {
      FoldGap(c, t - p, u - p, j);
      ScaleGap(Fold(c, u - p, j), Gap(c, j), c[j]);
      ScaleMono(Fold(c, u - p, j) + Gap(c, j), Fold(c, t - p, j), c[j]);
    } else {
      FoldBounds(c, u - p, j);
      ScaleBounds(Fold(c, u - p, j), c[j]);
      FoldBounds(c, t, j);
    }
  }

  lemma GapShrinks(c: seq<nat>, k: nat)
    requires 0 < k <= |c| && Carries(c, k)
    ensures Gap(c, k) <= Gap(c, k - 1)
    ensures Gap(c, k) <= Scale(Gap(c, k - 1), c[k - 1])
    ensures c[k - 1] + Gap(c, k) <= Ones(c, k - 1)
  {
    ScaleBounds(Gap(c, k - 1), c[k - 1]);
  }

  lemma {:induction false} ZeroPattern(c: seq<nat>, k: nat)
    requires k <= |c|
    ensures Fold(c, 0, k) == Q128
  {
    if k > 0 { ZeroPattern(c, k - 1); }
  }
}
