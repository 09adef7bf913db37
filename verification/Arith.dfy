/** Facts about products and floor division of naturals, each small enough for the solver. */
module Arith {
  lemma MulMono(a: int, b: int, c: nat)
    requires a <= b
    ensures a * c <= b * c
  {
    assert (b - a) * c >= 0;
  }

  /** The product of naturals, as a natural. */
  function Product(x: nat, y: nat): (p: nat)
    ensures p == x * y
  {
    MulMono(0, x, y);
    x * y
  }

  lemma MulStrict(a: int, b: int, c: nat)
    requires a < b && c > 0
    ensures a * c + c <= b * c
  {
    MulMono(a + 1, b, c);
  }

  /** Quotient and remainder are the only pair with these bounds. */
  lemma DivModUnique(t: int, d: nat, q: int, m: nat)
    requires t == q * d + m && m < d
    ensures t / d == q && t % d == m
  {
    var q', m' := t / d, t % d;
    assert t == q' * d + m' by { assert t == d * q' + m'; }
    if q < q' { MulStrict(q, q', d); }
    if q' < q { MulStrict(q', q, d); }
  }

  lemma DivMono(a: nat, b: nat, d: nat)
    requires a <= b && d > 0
    ensures a / d <= b / d
  {
    assert a == d * (a / d) + a % d && b == d * (b / d) + b % d;
    if b / d < a / d { MulStrict(b / d, a / d, d); }
  }

  /** The quotient of a sum is the sum of the quotients or one more. */
  lemma DivSum(a: nat, b: nat, d: nat)
    requires d > 0
    ensures 0 <= (a + b) / d - a / d - b / d <= 1
  {
    var qa, ra, qb, rb := a / d, a % d, b / d, b % d;
    assert a == d * qa + ra && b == d * qb + rb;
    assert a + b == (qa + qb) * d + (ra + rb);
    if ra + rb < d {
      DivModUnique(a + b, d, qa + qb, ra + rb);
    } else {
      assert a + b == (qa + qb + 1) * d + (ra + rb - d);
      DivModUnique(a + b, d, qa + qb + 1, ra + rb - d);
    }
  }

  lemma DivExact(q: nat, d: nat)
    requires d > 0
    ensures q * d / d == q
  {
    DivModUnique(q * d, d, q, 0);
  }

  /** Two divisions in a row are one division by the product. */
  lemma DivDiv(x: nat, a: nat, b: nat)
    requires a > 0 && b > 0
    ensures b * a == a * b > 0 && x / b / a == x / (b * a) == x / (a * b)
  {
    var q := x / b;
    var q' := q / a;
    assert x == b * q + x % b && q == a * q' + q % a;
    var m := b * (q % a) + x % b;
    assert x == q' * (b * a) + m by {
      assert b * (a * q' + q % a) == q' * (b * a) + b * (q % a);
    }
    assert m < b * a by {
      MulMono(q % a + 1, a, b);
      assert (q % a + 1) * b == b * (q % a) + b;
    }
    assert m >= 0 && b * a > 0;
    DivModUnique(x, b * a, q', m);
  }

  /** A common factor cancels. */
  lemma DivCancel(x: nat, d: nat, k: nat)
    requires d > 0 && k > 0
    ensures d * k > 0 && x * k / (d * k) == x / d
  {
    DivDiv(x * k, d, k);
    DivExact(x, k);
    assert k * d == d * k;
  }
}
