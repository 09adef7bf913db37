/** Token amounts as typed by a person and as base units, `toBaseUnits` and `fromBaseUnits`. */
module Amount {
  import opened Arith
  import opened Numerals
  import opened Wrappers

  datatype AmountError = BadDecimals | InvalidAmount | TooPrecise | NotAnInteger

  /** The position of the first dot, or the length when there is none. */
  function Dot(s: string): (i: nat)
    ensures i <= |s|
    ensures i < |s| ==> s[i] == '.'
    ensures forall j :: 0 <= j < i ==> s[j] != '.'
  {
    if s == "" || s[0] == '.' then 0 else 1 + Dot(s[1..])
  }

  function Whole(s: string): string { s[..Dot(s)] }

  function Fraction(s: string): string { if Dot(s) < |s| then s[Dot(s) + 1..] else "" }

  /** `/^\d+(\.\d+)?$/` */
  predicate IsAmount(s: string) {
    && AllDigits(Whole(s)) && Whole(s) != ""
    && AllDigits(Fraction(s)) && (Dot(s) < |s| ==> Fraction(s) != "")
  }

  /** An amount is digits, or digits on both sides of one dot. */
  lemma AmountExactly(s: string)
    ensures IsAmount(s) <==>
            || (s != "" && AllDigits(s))
            || exists whole, frac :: IsDotted(s, whole, frac)
  {
    hide Dot;
    if IsAmount(s) && Dot(s) < |s| {
      assert s == s[..Dot(s)] + [s[Dot(s)]] + s[Dot(s) + 1..];
      assert IsDotted(s, Whole(s), Fraction(s));
    }
    forall whole, frac | IsDotted(s, whole, frac) ensures IsAmount(s) {
      assert s[|whole|] == '.' && Dot(s) == |whole|;
      assert Whole(s) == whole && Fraction(s) == frac;
    }
  }

  predicate IsDotted(s: string, whole: string, frac: string) {
    s == whole + "." + frac && whole != "" && AllDigits(whole) && frac != "" && AllDigits(frac)
  }

  function ToBaseUnits(value: string, decimals: int): Result<string, AmountError> {
    var trimmed := Trim(value);
    if decimals < 0 then Failure(BadDecimals)
    else if !IsAmount(trimmed) then Failure(InvalidAmount)
    else if |Fraction(trimmed)| > decimals then Failure(TooPrecise)
    else
      var stripped := StripLeadingZeros(Whole(trimmed) + PadEnd(Fraction(trimmed), decimals));
      PaddedValue(trimmed, decimals);
      Success(Digits(NatOf(if stripped == "" then "0" else stripped)))
  }

  function FromBaseUnits(base: string, decimals: int): Result<string, AmountError> {
    if decimals < 0 then Failure(BadDecimals)
    else
      var n := ParseBigInt(base);
      if n.None? then Failure(NotAnInteger) else Success(PlaceDot(IntToString(n.value), decimals))
  }

  /** The printed integer with a dot before its last `decimals` digits and no zeros at the end. */
  function PlaceDot(printed: string, decimals: nat): string {
    if decimals == 0 then printed
    else DotBefore(PadStart(printed, decimals + 1), decimals)
  }

  function DotBefore(digits: string, decimals: nat): string
    requires decimals < |digits|
  {
    var whole, frac := digits[..|digits| - decimals], StripTrailingZeros(digits[|digits| - decimals..]);
    if frac != "" then whole + "." + frac else whole
  }

  // ---- what an amount denotes: Unscaled / 10^Places ----

  function Places(s: string): nat { |Fraction(s)| }

  function Unscaled(s: string): nat
    requires IsAmount(s)
  {
    NatOf(Whole(s) + Fraction(s))
  }

  predicate SameNumber(s: string, t: string)
    requires IsAmount(s) && IsAmount(t)
  {
    Unscaled(s) * Pow10(Places(t)) == Unscaled(t) * Pow10(Places(s))
  }

  predicate AtMost(s: string, t: string)
    requires IsAmount(s) && IsAmount(t)
  {
    Unscaled(s) * Pow10(Places(t)) <= Unscaled(t) * Pow10(Places(s))
  }

  /** The shortest way to write a number: no superfluous zero in front or at the end. */
  predicate Canonical(s: string) {
    && IsAmount(s)
    && (Whole(s)[0] == '0' ==> |Whole(s)| == 1)
    && (Fraction(s) != "" ==> Fraction(s)[|Fraction(s)| - 1] != '0')
  }

  predicate Accepted(value: string, decimals: int) {
    decimals >= 0 && IsAmount(Trim(value)) && Places(Trim(value)) <= decimals
  }

  /** The base units of an accepted amount. */
  function Units(value: string, decimals: nat): nat
    requires Accepted(value, decimals)
  {
    Unscaled(Trim(value)) * Pow10(decimals - Places(Trim(value)))
  }

  lemma PaddedValue(s: string, decimals: nat)
    requires IsAmount(s) && Places(s) <= decimals
    ensures var combined := Whole(s) + PadEnd(Fraction(s), decimals);
            && AllDigits(combined) && NatOf(combined) == Unscaled(s) * Pow10(decimals - Places(s))
            && AllDigits(StripLeadingZeros(combined)) && NatOf(StripLeadingZeros(combined)) == NatOf(combined)
  {
    var pad := decimals - Places(s);
    ValueAppend(Whole(s), Fraction(s));
    ValueAppend(Whole(s) + Fraction(s), Zeros(pad));
    ValueOfZeros(pad);
    var combined := Whole(s) + PadEnd(Fraction(s), decimals);
    assert combined == Whole(s) + Fraction(s) + Zeros(pad);
    ValueSkipsLeadingZeros(combined);
  }

  lemma ValueOfZero()
    ensures NatOf("") == NatOf("0") == 0
  {
    assert "0"[..0] == "";
  }

  /** Exactly the amounts within the precision convert, and they convert to the number they denote. */
  lemma ToBaseUnitsExact(value: string, decimals: int)
    ensures ToBaseUnits(value, decimals).Success? <==> Accepted(value, decimals)
    ensures Accepted(value, decimals) ==> ToBaseUnits(value, decimals) == Success(Digits(Units(value, decimals)))
  {
    hide AllDigits, Trim, Dot, StripLeadingZeros, PadEnd, Digits, Whole;
    if Accepted(value, decimals) {
      PaddedValue(Trim(value), decimals);
      ValueOfZero();
      hide NatOf, Fraction;
    }
  }

  // ---- printing ----

  /** Cutting the digits of n before the last d of them. */
  lemma SplitDigits(digits: string, d: nat)
    requires AllDigits(digits) && d < |digits|
    ensures var whole, frac := digits[..|digits| - d], digits[|digits| - d..];
            AllDigits(whole) && AllDigits(frac) && NatOf(digits) == NatOf(whole) * Pow10(d) + NatOf(frac)
  {
    var whole, frac := digits[..|digits| - d], digits[|digits| - d..];
    ValueAppend(whole, frac);
    assert whole + frac == digits;
  }

  lemma DotBetween(whole: string, frac: string)
    requires AllDigits(whole)
    ensures Whole(whole) == whole && Fraction(whole) == ""
    ensures Whole(whole + "." + frac) == whole && Fraction(whole + "." + frac) == frac
  {
    var s := whole + "." + frac;
    assert s[|whole|] == '.';
    assert Dot(s) == |whole|;
    assert Dot(whole) == |whole|;
  }

  lemma PaddedDigits(n: nat, d: nat)
    ensures var digits := PadStart(Digits(n), d + 1);
            && |digits| > d && AllDigits(digits) && NatOf(digits) == n
            && (digits[0] == '0' ==> |digits| == d + 1)
  {
    var pad := if |Digits(n)| >= d + 1 then 0 else d + 1 - |Digits(n)|;
    ValueAppend(Zeros(pad), Digits(n));
    ValueOfZeros(pad);
    assert Zeros(0) + Digits(n) == Digits(n);
  }

  /** `t` is the canonical amount of n base units. */
  ghost predicate Prints(n: nat, d: nat, t: string) {
    Canonical(t) && Trim(t) == t && Accepted(t, d) && Units(t, d) == n
  }

  lemma PrintsFrom(n: nat, d: nat, t: string)
    requires Canonical(t) && Places(t) <= d && Unscaled(t) * Pow10(d - Places(t)) == n
    ensures Prints(n, d, t)
  {
    assert !IsSpace(t[|t| - 1]);
    TrimDigits(t);
  }

  /** Putting a dot before the last d digits and dropping zeros behind it. */
  lemma DottedDigits(digits: string, d: nat)
    requires AllDigits(digits) && 0 < d < |digits| && (digits[0] == '0' ==> |digits| == d + 1)
    ensures var t := DotBefore(digits, d);
            && Canonical(t) && Places(t) <= d
            && Unscaled(t) * Pow10(d - Places(t)) == NatOf(digits)
  {
    SplitDigits(digits, d);
    var whole, frac := digits[..|digits| - d], digits[|digits| - d..];
    var kept := StripTrailingZeros(frac);
    StrippedZeros(frac);
    DotBetween(whole, kept);
    var t := DotBefore(digits, d);
    assert Whole(t) == whole && Fraction(t) == kept;
    DroppedZeros(whole, kept, d - |kept|);
    assert frac == kept + Zeros(d - |kept|);
  }

  lemma DroppedZeros(whole: string, kept: string, zeros: nat)
    requires AllDigits(whole) && AllDigits(kept)
    ensures AllDigits(whole + kept) && AllDigits(kept + Zeros(zeros))
    ensures NatOf(whole + kept) * Pow10(zeros) == NatOf(whole) * Pow10(|kept| + zeros) + NatOf(kept + Zeros(zeros))
  {
    ValueAppend(whole, kept);
    ValueAppend(kept, Zeros(zeros));
    ValueOfZeros(zeros);
    Pow10Add(|kept|, zeros);
    Distribute(NatOf(whole), Pow10(|kept|), NatOf(kept), Pow10(zeros));
  }

  lemma Distribute(w: nat, p: nat, k: nat, z: nat)
    ensures (w * p + k) * z == w * (p * z) + k * z
  {
  }

  lemma PlacedDot(n: nat, d: nat)
    ensures Prints(n, d, PlaceDot(Digits(n), d))
  {
    if d == 0 {
      NothingPlaced(n);
    } else {
      var digits := PadStart(Digits(n), d + 1);
      PaddedDigits(n, d);
      DottedDigits(digits, d);
      PrintsFrom(n, d, DotBefore(digits, d));
    }
  }

  lemma NothingPlaced(n: nat)
    ensures Prints(n, 0, Digits(n))
  {
    var t := Digits(n);
    DotBetween(t, "");
    assert t + "" == t;
    PrintsFrom(n, 0, t);
  }

  lemma FromBaseUnitsPrints(n: nat, d: nat)
    ensures FromBaseUnits(Digits(n), d).Success? && Prints(n, d, FromBaseUnits(Digits(n), d).value)
  {
    ParsePrinted(n);
    PlacedDot(n, d);
  }

  // ---- one canonical form per number ----

  lemma ScaleCommutes(s: string, t: string, d: nat)
    requires IsAmount(s) && IsAmount(t) && Places(s) <= d && Places(t) <= d
    ensures var us, ut := Unscaled(s) * Pow10(d - Places(s)), Unscaled(t) * Pow10(d - Places(t));
            (us <= ut <==> AtMost(s, t)) && (us == ut <==> SameNumber(s, t))
  {
    var ps, pt := Places(s), Places(t);
    Pow10Add(ps, d - ps);
    Pow10Add(pt, d - pt);
    CrossMultiply(Unscaled(s), Unscaled(t), Pow10(ps), Pow10(pt), Pow10(d - ps), Pow10(d - pt));
  }

  lemma CrossMultiply(x: nat, y: nat, p: nat, q: nat, p': nat, q': nat)
    requires p > 0 && q > 0 && p' > 0 && q' > 0 && p * p' == q * q'
    ensures (x * p' <= y * q' <==> x * q <= y * p) && (x * p' == y * q' <==> x * q == y * p)
  {
    var k := p * p';
    assert x * p' * (p * q) == x * q * k by { assert x * p' * (p * q) == x * q * (p * p'); }
    assert y * q' * (p * q) == y * p * k by { assert y * q' * (p * q) == y * p * (q * q'); }
    assert p * q > 0 && k > 0;
    Compare(x * p', y * q', p * q);
    Compare(x * q, y * p, k);
  }

  lemma Compare(a: int, b: int, c: nat)
    requires c > 0
    ensures (a * c <= b * c <==> a <= b) && (a * c == b * c <==> a == b)
  {
    if a < b { MulStrict(a, b, c); }
    if b < a { MulStrict(b, a, c); }
  }

  lemma CanonicalUnique(s: string, t: string)
    requires Canonical(s) && Canonical(t) && SameNumber(s, t)
    ensures s == t
  {
    if Places(s) < Places(t) {
      LastDigitNotZero(s, t);
    } else if Places(t) < Places(s) {
      LastDigitNotZero(t, s);
    } else {
      Compare(Unscaled(s), Unscaled(t), Pow10(Places(s)));
      SamePlaces(s, t);
    }
  }

  /** A number with fewer places has a zero in the last place of the longer form. */
  lemma LastDigitNotZero(s: string, t: string)
    requires IsAmount(s) && Canonical(t) && Places(s) < Places(t)
    ensures !SameNumber(s, t)
  {
    var k := Places(t) - Places(s) - 1;
    CanonicalLastDigit(t);
    Pow10Add(Places(s), k + 1);
    MultipleOfTen(Unscaled(s), Unscaled(t), Pow10(Places(s)), Pow10(k));
  }

  lemma MultipleOfTen(x: nat, y: nat, p: nat, q: nat)
    requires p > 0 && y % 10 != 0
    ensures x * (p * (10 * q)) != y * p
  {
    assert x * (p * (10 * q)) == 10 * Product(x, q) * p;
    Compare(10 * Product(x, q), y, p);
  }

  lemma CanonicalLastDigit(t: string)
    requires Canonical(t) && Fraction(t) != ""
    ensures Unscaled(t) % 10 != 0
  {
    var all := Whole(t) + Fraction(t);
    assert all[|all| - 1] == Fraction(t)[|Fraction(t)| - 1];
  }

  lemma SamePlaces(s: string, t: string)
    requires Canonical(s) && Canonical(t) && Places(s) == Places(t) && Unscaled(s) == Unscaled(t)
    ensures s == t
  {
    ValueAppend(Whole(s), Fraction(s));
    ValueAppend(Whole(t), Fraction(t));
    ValueBound(Fraction(s));
    ValueBound(Fraction(t));
    DivModUnique(Unscaled(s), Pow10(Places(s)), NatOf(Whole(s)), NatOf(Fraction(s)));
    DivModUnique(Unscaled(t), Pow10(Places(t)), NatOf(Whole(t)), NatOf(Fraction(t)));
    DigitsOfValue(Whole(s));
    DigitsOfValue(Whole(t));
    ValueInjective(Fraction(s), Fraction(t));
    Reassemble(s);
    Reassemble(t);
  }

  lemma Reassemble(s: string)
    requires IsAmount(s)
    ensures s == if Fraction(s) == "" then Whole(s) else Whole(s) + "." + Fraction(s)
  {
  }

  // ---- the round trips ----

  lemma BaseUnitsRoundTrip(n: nat, d: nat)
    ensures FromBaseUnits(Digits(n), d).Success?
    ensures ToBaseUnits(FromBaseUnits(Digits(n), d).value, d) == Success(Digits(n))
  {
    FromBaseUnitsPrints(n, d);
    ToBaseUnitsExact(FromBaseUnits(Digits(n), d).value, d);
  }

  /** Converting and printing gives the one canonical form of what was typed. */
  lemma TypedRoundTrip(value: string, d: nat)
    requires Accepted(value, d)
    ensures ToBaseUnits(value, d).Success?
    ensures FromBaseUnits(ToBaseUnits(value, d).value, d).Success?
    ensures IsCanonicalFormOf(FromBaseUnits(ToBaseUnits(value, d).value, d).value, Trim(value))
  {
    ToBaseUnitsExact(value, d);
    FromBaseUnitsPrints(Units(value, d), d);
    PrintsSameNumber(value, FromBaseUnits(Digits(Units(value, d)), d).value, d);
  }

  ghost predicate IsCanonicalFormOf(t: string, s: string) {
    && IsAmount(s) && Canonical(t) && SameNumber(t, s)
    && forall u :: Canonical(u) && SameNumber(u, s) ==> u == t
  }

  lemma PrintsSameNumber(value: string, t: string, d: nat)
    requires Accepted(value, d) && Prints(Units(value, d), d, t)
    ensures IsCanonicalFormOf(t, Trim(value))
  {
    ScaleCommutes(t, Trim(value), d);
    OnlyCanonicalForm(t, Trim(value));
  }

  lemma OnlyCanonicalForm(t: string, s: string)
    requires IsAmount(s) && Canonical(t) && SameNumber(t, s)
    ensures IsCanonicalFormOf(t, s)
  {
    hide IsAmount, SameNumber;
    forall u | Canonical(u) && SameNumber(u, s) ensures u == t {
      CanonicalFormUnique(u, s, t);
    }
  }

  /** Printing and converting again changes nothing. */
  lemma TypedRoundTripIdempotent(value: string, d: nat)
    requires Accepted(value, d)
    ensures ToBaseUnits(value, d).Success? && FromBaseUnits(ToBaseUnits(value, d).value, d).Success?
    ensures ToBaseUnits(FromBaseUnits(ToBaseUnits(value, d).value, d).value, d) == ToBaseUnits(value, d)
  {
    ToBaseUnitsExact(value, d);
    BaseUnitsRoundTrip(Units(value, d), d);
  }

  lemma CanonicalFormUnique(s: string, t: string, u: string)
    requires Canonical(s) && IsAmount(t) && Canonical(u) && SameNumber(s, t) && SameNumber(u, t)
    ensures s == u
  {
    SameNumberTransitive(s, t, u);
    CanonicalUnique(s, u);
  }

  lemma SameNumberTransitive(s: string, t: string, u: string)
    requires IsAmount(s) && IsAmount(t) && IsAmount(u) && SameNumber(s, t) && SameNumber(u, t)
    ensures SameNumber(s, u)
  {
    var d := Places(s) + Places(t) + Places(u);
    ScaleCommutes(s, t, d);
    ScaleCommutes(u, t, d);
    ScaleCommutes(s, u, d);
  }

  /** Base units are ordered as the amounts they come from. */
  lemma BaseUnitsOrder(s: string, t: string, d: nat)
    requires Accepted(s, d) && Accepted(t, d)
    ensures Units(s, d) <= Units(t, d) <==> AtMost(Trim(s), Trim(t))
    ensures ToBaseUnits(s, d) == ToBaseUnits(t, d) <==> SameNumber(Trim(s), Trim(t))
  {
    ToBaseUnitsExact(s, d);
    ToBaseUnitsExact(t, d);
    ScaleCommutes(Trim(s), Trim(t), d);
    assert NatOf(Digits(Units(s, d))) == Units(s, d) && NatOf(Digits(Units(t, d))) == Units(t, d);
  }
}
