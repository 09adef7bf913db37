/** Thinning a value history to at most `maxPoints`, with the step as an exact rational. */
module Downsample {
  import opened Arith

  predicate Thins(n: nat, m: int) { 2 <= m < n }

  /** `Math.round(i * step)` for `step = (n - 1) / (m - 1)`: the nearest integer, halves rounded up. */
  function Pick(n: nat, m: int, i: nat): nat
    requires Thins(n, m)
  {
    (2 * Product(i, n - 1) + (m - 1)) / (2 * (m - 1))
  }

  /** The picked index is the one nearest to the ideal position. */
  lemma PickIsNearest(n: nat, m: int, i: nat)
    requires Thins(n, m)
    ensures -(m - 1) < 2 * (Pick(n, m, i) * (m - 1) - i * (n - 1)) <= m - 1
  {
    var x, y := 2 * Product(i, n - 1) + (m - 1), 2 * (m - 1);
    assert x == y * (x / y) + x % y;
    assert y * (x / y) == 2 * (Pick(n, m, i) * (m - 1));
  }

  /** An index within half a step of the ideal position is the picked one. */
  lemma NearestIsPick(n: nat, m: int, i: nat, k: int)
    requires Thins(n, m) && -(m - 1) < 2 * (k * (m - 1) - i * (n - 1)) <= m - 1
    ensures Pick(n, m, i) == k
  {
    var x, y := 2 * Product(i, n - 1) + (m - 1), 2 * (m - 1);
    assert y * k == 2 * (k * (m - 1));
    DivModUnique(x, y, k, x - y * k);
  }

  lemma EndsAreKept(n: nat, m: int)
    requires Thins(n, m)
    ensures Pick(n, m, 0) == 0 && Pick(n, m, m - 1) == n - 1
  {
    NearestIsPick(n, m, 0, 0);
    assert (n - 1) * (m - 1) == (m - 1) * (n - 1);
    NearestIsPick(n, m, m - 1, n - 1);
  }

  /** Neighbours are the rounded-down or the rounded-up step apart, so the picks are even and never repeat. */
  lemma StepsAreEven(n: nat, m: int, i: nat)
    requires Thins(n, m)
    ensures var step := (n - 1) / (m - 1);
            && 1 <= step <= Pick(n, m, i + 1) - Pick(n, m, i) <= step + 1
            && ((n - 1) % (m - 1) == 0 ==> Pick(n, m, i + 1) - Pick(n, m, i) == step)
  {
    var d, a, b := m - 1, Pick(n, m, i), Pick(n, m, i + 1);
    PickIsNearest(n, m, i);
    PickIsNearest(n, m, i + 1);
    hide Pick;
    GapIsNearStep(a, b, d, i, n - 1);
  }

  lemma GapIsNearStep(a: int, b: int, d: nat, i: nat, n: nat)
    requires 1 <= d <= n && 0 - d < 2 * (a * d - i * n) <= d && 0 - d < 2 * (b * d - (i + 1) * n) <= d
    ensures 1 <= n / d <= b - a <= n / d + 1 && (n % d == 0 ==> b - a == n / d)
  {
    assert n == d * (n / d) + n % d;
    assert (i + 1) * n == i * n + n && (b - a) * d == b * d - a * d;
    Sandwiched(b - a, d, n / d, n, 2 * ((b - a) * d - n));
    DivModUnique(d, d, 1, 0);
    DivMono(d, n, d);
  }

  /** gap * d lies strictly within d of n, which lies in [d * s, d * s + d). */
  lemma Sandwiched(gap: int, d: nat, s: int, n: nat, twice: int)
    requires d >= 1 && n == d * s + n % d && twice == 2 * (gap * d - n) && -2 * d < twice < 2 * d
    ensures s <= gap <= s + 1 && (n % d == 0 ==> gap == s)
  {
    assert s * d == d * s && (s + 1) * d == d * s + d && (s + 2) * d == d * s + 2 * d && (gap + 1) * d == gap * d + d;
    if gap < s {
      MulMono(gap + 1, s, d);
    } else if gap > s + 1 {
      MulMono(s + 2, gap, d);
    }
  }

  /** The picks are strictly increasing. */
  lemma {:induction false} PicksIncrease(n: nat, m: int, i: nat, j: nat)
    requires Thins(n, m) && i < j
    ensures Pick(n, m, i) < Pick(n, m, j)
    decreases j
  {
    StepsAreEven(n, m, j - 1);
    if i < j - 1 { PicksIncrease(n, m, i, j - 1); }
  }

  lemma PickInside(n: nat, m: int, i: nat)
    requires Thins(n, m) && i < m
    ensures Pick(n, m, i) < n
  {
    EndsAreKept(n, m);
    if i < m - 1 { PicksIncrease(n, m, i, m - 1); }
  }

  /** `out` are the points at the given indices, in order, none twice. */
  ghost predicate Samples<T>(points: seq<T>, out: seq<T>, at: seq<nat>) {
    && |at| == |out|
    && (forall i :: 0 <= i < |at| ==> at[i] < |points| && out[i] == points[at[i]])
    && (forall i, j :: 0 <= i < j < |at| ==> at[i] < at[j])
  }

  method Thin<T>(points: seq<T>, maxPoints: int) returns (out: seq<T>, ghost at: seq<nat>)
    ensures Samples(points, out, at)
    ensures !Thins(|points|, maxPoints) ==> out == points
    ensures Thins(|points|, maxPoints) ==>
              && |out| == maxPoints && at[0] == 0 && at[maxPoints - 1] == |points| - 1
              && forall i: nat :: i < maxPoints ==> at[i] == Pick(|points|, maxPoints, i)
  {
    var n := |points|;
    if maxPoints < 2 || n <= maxPoints {
      at := seq(n, i requires 0 <= i => i);
      return points, at;
    }
    out, at := [], [];
    for i := 0 to maxPoints
      invariant Samples(points, out, at) && |at| == i
      invariant forall k: nat :: k < i ==> at[k] == Pick(n, maxPoints, k)
    {
      PickInside(n, maxPoints, i);
      forall k: nat | k < i ensures at[k] < Pick(n, maxPoints, i) { PicksIncrease(n, maxPoints, k, i); }
      out, at := out + [points[Pick(n, maxPoints, i)]], at + [Pick(n, maxPoints, i)];
    }
    EndsAreKept(n, maxPoints);
  }
}
