/** Decimal strings: what `BigInt(s)`, `n.toString()`, `trim`, `padStart` and the zero-stripping
    regular expressions do to the digit strings of the amount code. */
module Numerals {
  import opened Arith
  import opened Wrappers

  predicate IsDigit(c: char) { '0' <= c <= '9' }

  predicate AllDigits(s: string) { forall i :: 0 <= i < |s| ==> IsDigit(s[i]) }

  function DigitOf(c: char): (d: nat)
    requires IsDigit(c)
    ensures d < 10
  {
    c as int - '0' as int
  }

  function DigitChar(d: nat): (c: char)
    requires d < 10
    ensures IsDigit(c) && DigitOf(c) == d
  {
    (d + '0' as int) as char
  }

  function Pow10(k: nat): (p: nat)
    ensures p > 0
  {
    if k == 0 then 1 else 10 * Pow10(k - 1)
  }

  /** The number a digit string denotes; the empty string denotes 0. */
  function NatOf(s: string): nat
    requires AllDigits(s)
  {
    if s == "" then 0 else 10 * NatOf(s[..|s| - 1]) + DigitOf(s[|s| - 1])
  }

  /** `n.toString()` for a natural. */
  function Digits(n: nat): (s: string)
    ensures AllDigits(s) && |s| > 0 && NatOf(s) == n
    ensures s[0] == '0' ==> s == "0"
  {
    if n < 10 then
      assert [DigitChar(n)][..0] == "";
      [DigitChar(n)]
    else
      var front := Digits(n / 10);
      assert (front + [DigitChar(n % 10)])[..|front|] == front;
      front + [DigitChar(n % 10)]
  }

  /** `n.toString()` for any integer. */
  function IntToString(n: int): string {
    if n < 0 then "-" + Digits(-n) else Digits(n)
  }

  function Zeros(k: nat): (s: string)
    ensures |s| == k && AllDigits(s)
  {
    seq(k, _ => '0')
  }

  function PadEnd(s: string, width: nat): string {
    if |s| >= width then s else s + Zeros(width - |s|)
  }

  function PadStart(s: string, width: nat): string {
    if |s| >= width then s else Zeros(width - |s|) + s
  }

  /** `replace(/^0+/, '')` */
  function StripLeadingZeros(s: string): string {
    if s != "" && s[0] == '0' then StripLeadingZeros(s[1..]) else s
  }

  /** `replace(/0+$/, '')` */
  function StripTrailingZeros(s: string): string {
    if s != "" && s[|s| - 1] == '0' then StripTrailingZeros(s[..|s| - 1]) else s
  }

  predicate IsSpace(c: char) {
    || c in {' ', '\t', '\n', '\r', '\U{0B}', '\U{0C}', '\U{A0}', '\U{1680}'}
    || c in {'\U{2028}', '\U{2029}', '\U{202F}', '\U{205F}', '\U{3000}', '\U{FEFF}'}
    || '\U{2000}' <= c <= '\U{200A}'
  }

  function TrimStart(s: string): string {
    if s != "" && IsSpace(s[0]) then TrimStart(s[1..]) else s
  }

  function TrimEnd(s: string): string {
    if s != "" && IsSpace(s[|s| - 1]) then TrimEnd(s[..|s| - 1]) else s
  }

  /** `s.trim()` */
  function Trim(s: string): string { TrimEnd(TrimStart(s)) }

  /** The value of a character in the given radix, None if it is no digit of it. */
  function RadixDigit(c: char, radix: nat): Option<nat> {
    var d := if IsDigit(c) then DigitOf(c)
             else if 'a' <= c <= 'f' then c as int - 'a' as int + 10
             else if 'A' <= c <= 'F' then c as int - 'A' as int + 10
             else radix;
    if d < radix then Some(d) else None
  }

  function RadixValue(s: string, radix: nat): Option<nat> {
    if s == "" then Some(0)
    else
      var front, last := RadixValue(s[..|s| - 1], radix), RadixDigit(s[|s| - 1], radix);
      if front.Some? && last.Some? then Some(front.value * radix + last.value) else None
  }

  /** `BigInt(s)`: None where it throws a SyntaxError. Only decimal literals may carry a sign. */
  function ParseBigInt(s: string): Option<int> {
    var t := Trim(s);
    if t == "" then Some(0)
    else if |t| > 2 && t[0] == '0' && !IsDigit(t[1]) then
      if t[1] in {'x', 'X'} then RadixValue(t[2..], 16)
      else if t[1] in {'o', 'O'} then RadixValue(t[2..], 8)
      else if t[1] in {'b', 'B'} then RadixValue(t[2..], 2)
      else None
    else if AllDigits(t) then Some(NatOf(t))
    else if |t| > 1 && t[0] in {'+', '-'} && AllDigits(t[1..]) then
      var n: int := NatOf(t[1..]);
      Some(if t[0] == '-' then -n else n)
    else None
  }

  // ---- lemmas ----

  lemma {:induction false} Pow10Add(a: nat, b: nat)
    ensures Pow10(a + b) == Pow10(a) * Pow10(b)
  {
    if b > 0 {
      Pow10Add(a, b - 1);
      assert Pow10(a) * (10 * Pow10(b - 1)) == 10 * (Pow10(a) * Pow10(b - 1));
    }
  }

  lemma {:induction false} ValueAppend(a: string, b: string)
    requires AllDigits(a) && AllDigits(b)
    ensures AllDigits(a + b) && NatOf(a + b) == NatOf(a) * Pow10(|b|) + NatOf(b)
  {
    if b == "" {
      assert a + b == a;
    } else {
      var front, last := b[..|b| - 1], b[|b| - 1];
      ValueAppend(a, front);
      assert (a + b)[..|a + b| - 1] == a + front;
      assert NatOf(a) * (10 * Pow10(|front|)) == 10 * (NatOf(a) * Pow10(|front|));
    }
  }

  lemma {:induction false} ValueOfZeros(k: nat)
    ensures NatOf(Zeros(k)) == 0
  {
    if k > 0 {
      assert Zeros(k)[..k - 1] == Zeros(k - 1);
      ValueOfZeros(k - 1);
    }
  }

  lemma {:induction false} ValueBound(s: string)
    requires AllDigits(s)
    ensures NatOf(s) < Pow10(|s|)
  {
    if s != "" { ValueBound(s[..|s| - 1]); }
  }

  /** Digit strings of one length that denote the same number are the same. */
  lemma {:induction false} ValueInjective(s: string, t: string)
    requires AllDigits(s) && AllDigits(t) && |s| == |t| && NatOf(s) == NatOf(t)
    ensures s == t
  {
    if s != "" {
      var n := |s| - 1;
      assert DigitOf(s[n]) == DigitOf(t[n]) && NatOf(s[..n]) == NatOf(t[..n]);
      ValueInjective(s[..n], t[..n]);
      assert s == s[..n] + [s[n]] && t == t[..n] + [t[n]];
    }
  }

  lemma {:induction false} ValueSkipsLeadingZeros(s: string)
    requires AllDigits(s)
    ensures AllDigits(StripLeadingZeros(s)) && NatOf(StripLeadingZeros(s)) == NatOf(s)
    ensures StripLeadingZeros(s) != "" ==> StripLeadingZeros(s)[0] != '0'
  {
    if s != "" && s[0] == '0' {
      ValueSkipsLeadingZeros(s[1..]);
      ValueAppend("0", s[1..]);
      assert "0" + s[1..] == s;
      assert NatOf("0") == 0 by { assert "0"[..0] == ""; }
    }
  }

  lemma {:induction false} StrippedZeros(s: string)
    requires AllDigits(s)
    ensures var t := StripTrailingZeros(s);
            t <= s && AllDigits(t) && s == t + Zeros(|s| - |t|) && (t != "" ==> t[|t| - 1] != '0')
  {
    if s != "" && s[|s| - 1] == '0' {
      StrippedZeros(s[..|s| - 1]);
      var t := StripTrailingZeros(s);
      assert Zeros(|s| - |t|) == Zeros(|s| - 1 - |t|) + "0";
      assert s == s[..|s| - 1] + "0";
    }
  }

  /** A digit string without a superfluous leading zero is the print of its value. */
  lemma DigitsOfValue(s: string)
    requires AllDigits(s) && s != "" && (s[0] == '0' ==> |s| == 1)
    ensures Digits(NatOf(s)) == s
  {
    var t := Digits(NatOf(s));
    if |t| < |s| { ShorterIsSmaller(t, s); }
    if |s| < |t| { ShorterIsSmaller(s, t); }
    ValueInjective(s, t);
  }

  lemma ShorterIsSmaller(s: string, t: string)
    requires AllDigits(s) && AllDigits(t) && 0 < |s| < |t| && t[0] != '0'
    ensures NatOf(s) < NatOf(t)
  {
    ValueBound(s);
    LeadingDigitBound(t);
    Pow10Mono(|s|, |t| - 1);
  }

  lemma {:induction false} LeadingDigitBound(t: string)
    requires AllDigits(t) && t != "" && t[0] != '0'
    ensures Pow10(|t| - 1) <= NatOf(t)
  {
    if |t| > 1 { LeadingDigitBound(t[..|t| - 1]); }
  }

  lemma {:induction false} Pow10Mono(a: nat, b: nat)
    requires a <= b
    ensures Pow10(a) <= Pow10(b)
  {
    if a < b { Pow10Mono(a, b - 1); }
  }

  lemma TrimDigits(s: string)
    requires s != "" && !IsSpace(s[0]) && !IsSpace(s[|s| - 1])
    ensures Trim(s) == s
  {
  }

  /** `BigInt` reads back what `toString` printed. */
  lemma ParsePrinted(n: nat)
    ensures ParseBigInt(Digits(n)) == Some(n)
  {
    TrimDigits(Digits(n));
  }

  lemma ParseSigned(n: int)
    ensures ParseBigInt(IntToString(n)) == Some(n)
  {
    if n < 0 {
      var s := IntToString(n);
      TrimDigits(s);
      assert s[1..] == Digits(-n);
    } else {
      ParsePrinted(n);
    }
  }

  /** White space and line terminators, by code point. */
  predicate IsWhiteSpace(code: int) {
    || 0x09 <= code <= 0x0d || code == 0x20 || code == 0xa0 || code == 0x1680 || 0x2000 <= code <= 0x200a
    || code == 0x2028 || code == 0x2029 || code == 0x202f || code == 0x205f || code == 0x3000 || code == 0xfeff
  }

  predicate AllWhiteSpace(s: string) { forall i :: 0 <= i < |s| ==> IsWhiteSpace(s[i] as int) }

  lemma SpaceExactly(c: char)
    ensures IsSpace(c) <==> IsWhiteSpace(c as int)
  {
    var code := c as int;
    assert code as char == c;
  }

  lemma {:induction false} TrimStartTakes(space: string, s: string)
    requires AllWhiteSpace(space) && s != "" && !IsWhiteSpace(s[0] as int)
    ensures TrimStart(space + s) == s
  {
    SpaceExactly((space + s)[0]);
    if space != "" {
      assert (space + s)[1..] == space[1..] + s;
      TrimStartTakes(space[1..], s);
    } else {
      assert space + s == s;
    }
  }

  lemma {:induction false} TrimEndTakes(s: string, space: string)
    requires AllWhiteSpace(space) && s != "" && !IsWhiteSpace(s[|s| - 1] as int)
    ensures TrimEnd(s + space) == s
  {
    SpaceExactly((s + space)[|s + space| - 1]);
    if space != "" {
      assert (s + space)[..|s + space| - 1] == s + space[..|space| - 1];
      TrimEndTakes(s, space[..|space| - 1]);
    } else {
      assert s + space == s;
    }
  }

  /** Trimming takes the white space around a text and nothing of the text. */
  lemma TrimExactly(before: string, s: string, after: string)
    requires AllWhiteSpace(before) && AllWhiteSpace(after)
    requires s != "" ==> !IsWhiteSpace(s[0] as int) && !IsWhiteSpace(s[|s| - 1] as int)
    ensures Trim(before + s + after) == s
  {
    if s == "" {
      assert before + s + after == before + after;
      OnlySpaces(before + after);
    } else {
      assert before + s + after == before + (s + after);
      TrimStartTakes(before, s + after);
      TrimEndTakes(s, after);
    }
  }

  lemma {:induction false} OnlySpaces(s: string)
    requires AllWhiteSpace(s)
    ensures TrimStart(s) == ""
  {
    if s != "" {
      SpaceExactly(s[0]);
      OnlySpaces(s[1..]);
    }
  }

  // ---- other radices ----

  function RadixChar(d: nat, capital: bool): (c: char)
    requires d < 16
  {
    if d < 10 then DigitChar(d) else ((if capital then 'A' else 'a') as int + (d - 10)) as char
  }

  /** A natural printed in a radix up to 16. */
  function InRadix(n: nat, radix: nat, capital: bool): (s: string)
    requires 2 <= radix <= 16
    ensures s != ""
  {
    if n < radix then [RadixChar(n, capital)] else InRadix(n / radix, radix, capital) + [RadixChar(n % radix, capital)]
  }

  lemma RadixDigitReads(d: nat, radix: nat, capital: bool)
    requires d < radix <= 16
    ensures RadixDigit(RadixChar(d, capital), radix) == Some(d)
  {
  }

  lemma {:induction false} RadixReads(n: nat, radix: nat, capital: bool)
    requires 2 <= radix <= 16
    ensures RadixValue(InRadix(n, radix, capital), radix) == Some(n)
  {
    hide RadixDigit, RadixChar;
    if n < radix {
      RadixDigitReads(n, radix, capital);
      assert [RadixChar(n, capital)][..0] == "";
    } else {
      RadixReads(n / radix, radix, capital);
      RadixDigitReads(n % radix, radix, capital);
      QuotientAndRest(n, radix);
      hide InRadix;
      AppendedDigit(InRadix(n / radix, radix, capital), RadixChar(n % radix, capital), n / radix, n % radix, radix);
    }
  }

  lemma QuotientAndRest(n: nat, radix: nat)
    requires radix > 0
    ensures n / radix * radix + n % radix == n
  {
  }

  lemma AppendedDigit(front: string, c: char, n: nat, d: nat, radix: nat)
    requires RadixValue(front, radix) == Some(n) && RadixDigit(c, radix) == Some(d)
    ensures RadixValue(front + [c], radix) == Some(n * radix + d)
  {
    hide RadixDigit;
    assert (front + [c])[..|front|] == front;
  }

  predicate IsPrefix(c: char, radix: nat) {
    || (c in {'x', 'X'} && radix == 16) || (c in {'o', 'O'} && radix == 8) || (c in {'b', 'B'} && radix == 2)
  }

  /** `BigInt` reads hex, octal and binary literals, in either case. */
  lemma PrefixedLiteral(c: char, radix: nat, n: nat, capital: bool)
    requires IsPrefix(c, radix)
    ensures ParseBigInt("0" + [c] + InRadix(n, radix, capital)) == Some(n)
  {
    var digits := InRadix(n, radix, capital);
    RadixReads(n, radix, capital);
    LastIsNoSpace(n, radix, capital);
    hide RadixValue, InRadix, Trim, IsSpace;
    Prefixed(c, digits);
  }

  lemma LastIsNoSpace(n: nat, radix: nat, capital: bool)
    requires 2 <= radix <= 16
    ensures var s := InRadix(n, radix, capital); s != "" && !IsSpace(s[|s| - 1])
  {
  }

  lemma Prefixed(c: char, s: string)
    requires s != "" && !IsSpace(s[|s| - 1])
    ensures Trim("0" + [c] + s) == "0" + [c] + s && ("0" + [c] + s)[2..] == s
  {
    TrimDigits("0" + [c] + s);
  }
}
