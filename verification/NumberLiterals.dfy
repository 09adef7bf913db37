/** What `Number(s)` and `parseInt(s, 10)` read from a string, as exact values. */
module NumberLiterals {
  import opened Amount
  import opened Arith
  import opened Numerals
  import opened Wrappers

  /** mantissa * 10^exponent */
  datatype Decimal = Decimal(mantissa: int, exponent: int)

  function DropSign(s: string): string { if s != "" && s[0] in {'+', '-'} then s[1..] else s }

  function SignOf(s: string): int { if s != "" && s[0] == '-' then -1 else 1 }

  /** The digits a string starts with. */
  function DigitPrefix(s: string): (p: string)
    ensures AllDigits(p) && p <= s
    ensures |p| < |s| ==> !IsDigit(s[|p|])
  {
    if s != "" && IsDigit(s[0]) then [s[0]] + DigitPrefix(s[1..]) else ""
  }

  /** `parseInt(s, 10)`; None for NaN. */
  function ParseInt(s: string): Option<int> {
    var t := TrimStart(s);
    var digits := DigitPrefix(DropSign(t));
    if digits == "" then None else Some(SignOf(t) * NatOf(digits))
  }

  /** An exponent part, or nothing. */
  function ParseExponent(s: string): Option<int> {
    if s == "" then Some(0)
    else if s[0] in {'e', 'E'} && DropSign(s[1..]) != "" && AllDigits(DropSign(s[1..]))
      then Some(SignOf(s[1..]) * NatOf(DropSign(s[1..])))
    else None
  }

  /** A decimal literal: an optional sign, digits with at most one dot among or around them, an optional exponent. */
  function ParseDecimal(s: string): Option<Decimal> {
    var t := Trim(s);
    ParseUnsigned(SignOf(t), DropSign(t))
  }

  function ParseUnsigned(sign: int, s: string): Option<Decimal> {
    var whole := DigitPrefix(s);
    var rest := s[|whole|..];
    if rest != "" && rest[0] == '.' then
      var frac := DigitPrefix(rest[1..]);
      Scaled(sign, whole, frac, ParseExponent(rest[1..][|frac|..]))
    else Scaled(sign, whole, "", ParseExponent(rest))
  }

  function Scaled(sign: int, whole: string, frac: string, exponent: Option<int>): Option<Decimal>
    requires AllDigits(whole) && AllDigits(frac)
  {
    if whole + frac == "" || exponent.None? then None
    else Some(Decimal(sign * NatOf(whole + frac), exponent.value - |frac|))
  }

  /** `!Number.isNaN(Number(s))` */
  predicate IsNumeric(s: string) {
    ParseBigInt(s).Some? || ParseDecimal(s).Some? || DropSign(Trim(s)) == "Infinity"
  }

  /** The integer a decimal is, if it is one. */
  function WholeValue(d: Decimal): Option<int> {
    if d.exponent >= 0 then Some(d.mantissa * Pow10(d.exponent))
    else
      var unit := Pow10(-d.exponent);
      if d.mantissa % unit == 0 then Some(d.mantissa / unit) else None
  }

  /** `Number(s)` where `Number.isInteger` holds of it. */
  function WholeNumberOf(s: string): Option<int> {
    if ParseBigInt(s).Some? then ParseBigInt(s)
    else
      var d := ParseDecimal(s);
      if d.Some? then WholeValue(d.value) else None
  }

  // ---- leading integers ----

  predicate IsSign(sign: string) { sign == "" || sign == "+" || sign == "-" }

  /** Spaces, a sign, digits, and something that is no digit. */
  predicate Splits(s: string, space: string, sign: string, digits: string, rest: string) {
    && s == space + sign + digits + rest
    && (forall i :: 0 <= i < |space| ==> IsSpace(space[i])) && IsSign(sign)
    && digits != "" && AllDigits(digits) && (rest == "" || !IsDigit(rest[0]))
  }

  /** The text starts, after spaces, with the integer n. */
  ghost predicate StartsWith(s: string, n: int) {
    exists space, sign, digits, rest :: Splits(s, space, sign, digits, rest) && n == Signed(sign, NatOf(digits))
  }

  function Signed(sign: string, n: int): int { if sign == "-" then -n else n }

  lemma {:induction false} TrimStartSplits(s: string) returns (space: string)
    ensures s == space + TrimStart(s) && forall i :: 0 <= i < |space| ==> IsSpace(space[i])
  {
    hide IsSpace;
    if s != "" && IsSpace(s[0]) {
      var inner := TrimStartSplits(s[1..]);
      space := [s[0]] + inner;
      assert s == [s[0]] + s[1..];
    } else {
      space := "";
    }
  }

  lemma {:induction false} TrimStartDrops(space: string, s: string)
    requires (forall i :: 0 <= i < |space| ==> IsSpace(space[i])) && s != "" && !IsSpace(s[0])
    ensures TrimStart(space + s) == s
  {
    if space != "" {
      assert (space + s)[1..] == space[1..] + s;
      TrimStartDrops(space[1..], s);
    } else {
      assert space + s == s;
    }
  }

  lemma ParseIntReads(s: string, space: string, sign: string, digits: string, rest: string)
    requires Splits(s, space, sign, digits, rest)
    ensures ParseInt(s) == Some(Signed(sign, NatOf(digits)))
  {
    hide TrimStart, DigitPrefix, NatOf;
    var t := sign + digits + rest;
    assert s == space + t;
    assert t[0] == (if sign == "" then digits[0] else sign[0]);
    TrimStartDrops(space, t);
    PrefixOf(digits, rest);
    assert DropSign(t) == digits + rest;
  }

  /** `parseInt` reads the integer a text starts with, and nothing from any other text. */
  lemma ParseIntExactly(s: string)
    ensures forall n: int :: ParseInt(s) == Some(n) <==> StartsWith(s, n)
  {
    hide ParseInt, IsSpace, NatOf, DigitPrefix;
    forall n: int | StartsWith(s, n) ensures ParseInt(s) == Some(n) {
      var space, sign, digits, rest :| Splits(s, space, sign, digits, rest) && n == Signed(sign, NatOf(digits));
      ParseIntReads(s, space, sign, digits, rest);
    }
    if ParseInt(s).Some? {
      var space, sign, digits, rest := ParseIntSplits(s);
      ParseIntReads(s, space, sign, digits, rest);
      assert StartsWith(s, Signed(sign, NatOf(digits)));
    }
  }

  lemma ParseIntSplits(s: string) returns (space: string, sign: string, digits: string, rest: string)
    requires ParseInt(s).Some?
    ensures Splits(s, space, sign, digits, rest)
  {
    hide TrimStart, NatOf, IsSpace, DropSign, DigitPrefix;
    var t, u := TrimStart(s), DropSign(TrimStart(s));
    space := TrimStartSplits(s);
    sign := SignOfText(t);
    digits := DigitPrefix(u);
    rest := u[|digits|..];
    assert u == digits + rest;
    Joined(space, sign, digits, rest);
  }

  lemma SignOfText(t: string) returns (sign: string)
    ensures IsSign(sign) && t == sign + DropSign(t)
  {
    sign := if t != "" && t[0] in {'+', '-'} then t[..1] else "";
  }

  lemma Joined(a: string, b: string, c: string, d: string)
    ensures a + b + c + d == a + (b + (c + d))
  {
  }

  // ---- plain amounts ----

  lemma {:induction false} PrefixOf(digits: string, rest: string)
    requires AllDigits(digits) && (rest == "" || !IsDigit(rest[0]))
    ensures DigitPrefix(digits + rest) == digits
  {
    if digits != "" {
      assert (digits + rest)[1..] == digits[1..] + rest;
      PrefixOf(digits[1..], rest);
    }
  }

  lemma CutAtDot(s: string, i: nat)
    requires i < |s| && s[i] == '.'
    ensures s == s[..i] + "." + s[i + 1..]
  {
    assert s == s[..i] + [s[i]] + s[i + 1..];
  }

  /** A plain amount is digits, or digits on both sides of a dot. */
  lemma AmountText(s: string)
    requires IsAmount(s)
    ensures if Dot(s) < |s| then s == Whole(s) + "." + Fraction(s) && Fraction(s) != ""
            else s == Whole(s) && Fraction(s) == ""
  {
    hide Dot, AllDigits;
    if Dot(s) < |s| { CutAtDot(s, Dot(s)); }
  }

  lemma NoOuterSpace(s: string)
    requires s != "" && IsDigit(s[0]) && IsDigit(s[|s| - 1])
    ensures Trim(s) == s
  {
    TrimDigits(s);
  }

  lemma DottedText(whole: string, frac: string)
    requires AllDigits(whole) && whole != "" && AllDigits(frac) && frac != ""
    ensures Trim(whole + "." + frac) == whole + "." + frac
    ensures DropSign(whole + "." + frac) == whole + "." + frac && SignOf(whole + "." + frac) == 1
    ensures ParseBigInt(whole + "." + frac) == None
  {
    hide NatOf, Trim, IsSpace, RadixValue;
    var s := whole + "." + frac;
    assert s[0] == whole[0] && IsDigit(whole[0]);
    assert s[|s| - 1] == frac[|frac| - 1] && IsDigit(frac[|frac| - 1]);
    NoOuterSpace(s);
    assert s[|whole|] == '.';
    if |whole| > 1 { assert s[1] == whole[1] && IsDigit(whole[1]); }
  }

  lemma DottedDecimal(whole: string, frac: string)
    requires AllDigits(whole) && whole != "" && AllDigits(frac) && frac != ""
    ensures ParseDecimal(whole + "." + frac) == Some(Decimal(NatOf(whole + frac), 0 - |frac|))
  {
    hide NatOf, Trim, SignOf, DropSign, ParseUnsigned;
    DottedText(whole, frac);
    assert whole + "." + frac == whole + ("." + frac);
    ReadsDotted(whole, frac, "." + frac);
  }

  lemma ReadsDotted(whole: string, frac: string, rest: string)
    requires AllDigits(whole) && whole != "" && AllDigits(frac) && rest == "." + frac
    ensures ParseUnsigned(1, whole + rest) == Some(Decimal(NatOf(whole + frac), 0 - |frac|))
  {
    hide NatOf, DigitPrefix, AllDigits;
    PrefixOf(whole, rest);
    PrefixOf(frac, "");
    assert (whole + rest)[|whole|..] == rest && rest[1..] == frac;
    assert frac + "" == frac && frac[|frac|..] == "";
  }

  lemma QuotientIs(x: nat, unit: nat, k: int)
    requires unit > 0
    ensures x % unit == 0 && x / unit == k <==> k * unit == x
  {
    assert x == unit * (x / unit) + x % unit;
    if k * unit == x { DivModUnique(x, unit, k, 0); }
  }

  /** The amount is the integer k. */
  predicate Denotes(s: string, k: int)
    requires IsAmount(s)
  {
    k * Pow10(Places(s)) == Unscaled(s)
  }

  /** A plain amount is taken for the integer k exactly if k is the number it denotes. */
  lemma WholeAmounts(s: string, k: int)
    requires IsAmount(s)
    ensures WholeNumberOf(s) == Some(k) <==> Denotes(s, k)
  {
    hide Dot, NatOf, Trim, ParseBigInt, ParseDecimal;
    AmountText(s);
    if Dot(s) < |s| {
      DottedDecimal(Whole(s), Fraction(s));
      DottedText(Whole(s), Fraction(s));
      QuotientIs(Unscaled(s), Pow10(Places(s)), k);
    } else {
      WholeText(s);
      assert Whole(s) + Fraction(s) == s;
    }
  }

  lemma WholeText(s: string)
    requires AllDigits(s) && s != ""
    ensures ParseBigInt(s) == Some(NatOf(s))
  {
    hide NatOf, Trim, IsSpace;
    NoOuterSpace(s);
    assert |s| > 1 ==> IsDigit(s[1]);
  }

  // ---- what is a number, and what is a name ----

  predicate IsLetter(c: char) { 'a' <= c <= 'z' || 'A' <= c <= 'Z' || c == '_' }

  lemma {:induction false} TrimEndKeepsFirst(s: string)
    requires s != "" && !IsSpace(s[0])
    ensures TrimEnd(s) != "" && TrimEnd(s)[0] == s[0]
  {
    if IsSpace(s[|s| - 1]) { TrimEndKeepsFirst(s[..|s| - 1]); }
  }

  /** A text that starts with a letter is no number, but for "Infinity" with spaces after it. */
  lemma WordsAreNoNumbers(s: string)
    requires s != "" && IsLetter(s[0])
    ensures IsNumeric(s) <==> Trim(s) == "Infinity"
  {
    TrimEndKeepsFirst(s);
    assert Trim(s) == TrimEnd(s);
  }

  /** Printed integers are numbers. */
  lemma IntegersAreNumbers(n: int)
    ensures IsNumeric(IntToString(n))
  {
    hide NatOf;
    var s := IntToString(n);
    TrimDigits(s);
    if n < 0 { assert s[1..] == Digits(-n); }
  }

  /** Plain decimals are numbers. */
  lemma AmountsAreNumbers(s: string)
    requires IsAmount(s)
    ensures IsNumeric(s)
  {
    hide NatOf, ParseDecimal, ParseBigInt, Trim;
    AmountText(s);
    if Dot(s) < |s| {
      DottedDecimal(Whole(s), Fraction(s));
    } else {
      WholeText(s);
    }
  }

  // ---- literals with exponents ----

  lemma ExponentLiteral(e: char, sign: string, digits: string)
    requires e in {'e', 'E'} && IsSign(sign) && digits != "" && AllDigits(digits)
    ensures ParseExponent([e] + (sign + digits)) == Some(Signed(sign, NatOf(digits)))
  {
    hide NatOf;
    assert ([e] + (sign + digits))[1..] == sign + digits;
    assert DropSign(sign + digits) == digits;
  }

  lemma UnsignedLiteral(sign: int, whole: string, frac: string, exponent: string)
    requires AllDigits(whole) && AllDigits(frac) && exponent != "" && !IsDigit(exponent[0])
    ensures ParseUnsigned(sign, whole + ("." + (frac + exponent))) ==
            Scaled(sign, whole, frac, ParseExponent(exponent))
  {
    hide NatOf, DigitPrefix, ParseExponent, Scaled;
    var rest := "." + (frac + exponent);
    PrefixOf(whole, rest);
    assert (whole + rest)[|whole|..] == rest && rest[1..] == frac + exponent;
    PrefixOf(frac, exponent);
    assert (frac + exponent)[|frac|..] == exponent;
  }

  lemma SignedText(sign: string, unsigned: string)
    requires IsSign(sign) && unsigned != "" && (unsigned[0] == '.' || IsDigit(unsigned[0]))
    requires IsDigit(unsigned[|unsigned| - 1])
    ensures Trim(sign + unsigned) == sign + unsigned
    ensures DropSign(sign + unsigned) == unsigned && SignOf(sign + unsigned) == if sign == "-" then -1 else 1
  {
    TrimDigits(sign + unsigned);
  }

  lemma FirstOf(whole: string, rest: string)
    requires AllDigits(whole)
    ensures var s := whole + ("." + rest); s != "" && (s[0] == '.' || IsDigit(s[0]))
  {
  }

  /** A literal with sign, dot and exponent denotes its digits, shifted by the exponent. */
  lemma DecimalLiteral(sign: string, unsigned: string, whole: string, frac: string, exponent: string, n: int)
    requires IsSign(sign) && unsigned == whole + ("." + (frac + exponent))
    requires AllDigits(whole) && AllDigits(frac) && whole + frac != ""
    requires exponent != "" && !IsDigit(exponent[0]) && ParseExponent(exponent) == Some(n)
    requires IsDigit(unsigned[|unsigned| - 1])
    ensures ParseDecimal(sign + unsigned) ==
            Some(Decimal(Signed(sign, NatOf(whole + frac)), n - |frac|))
  {
    hide NatOf, ParseExponent, ParseUnsigned, ParseDecimal, Scaled, AllDigits;
    var factor := if sign == "-" then -1 else 1;
    FirstOf(whole, frac + exponent);
    SignedLiteral(sign, unsigned);
    UnsignedLiteral(factor, whole, frac, exponent);
    ScaledBySign(sign, whole, frac, n);
  }

  lemma SignedLiteral(sign: string, unsigned: string)
    requires IsSign(sign) && unsigned != "" && (unsigned[0] == '.' || IsDigit(unsigned[0]))
    requires IsDigit(unsigned[|unsigned| - 1])
    ensures ParseDecimal(sign + unsigned) == ParseUnsigned(if sign == "-" then -1 else 1, unsigned)
  {
    hide ParseUnsigned, Trim, DropSign, SignOf;
    SignedText(sign, unsigned);
  }

  lemma ScaledBySign(sign: string, whole: string, frac: string, n: int)
    requires IsSign(sign) && AllDigits(whole) && AllDigits(frac) && whole + frac != ""
    ensures AllDigits(whole + frac)
    ensures Scaled(if sign == "-" then -1 else 1, whole, frac, Some(n)) ==
            Some(Decimal(Signed(sign, NatOf(whole + frac)), n - |frac|))
  {
    hide NatOf;
  }

  /** The decimal is the integer k. */
  predicate IsWhole(d: Decimal, k: int) {
    if d.exponent >= 0 then k == d.mantissa * Pow10(d.exponent) else k * Pow10(-d.exponent) == d.mantissa
  }

  lemma WholeValueExactly(d: Decimal, k: int)
    ensures WholeValue(d) == Some(k) <==> IsWhole(d, k)
  {
    if d.exponent < 0 {
      var unit := Pow10(-d.exponent);
      assert d.mantissa == unit * (d.mantissa / unit) + d.mantissa % unit;
      if k * unit == d.mantissa { DivModUnique(d.mantissa, unit, k, 0); }
    }
  }
}
