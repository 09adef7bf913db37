/** Schema-driven validation in its two modes: friendly values before, raw values after the encode boundary. */
module Validation {
  import opened Amount
  import opened NumberLiterals
  import opened Numerals
  import opened Schema
  import opened Wrappers

  datatype Mode = Friendly(tokenDecimals: map<string, nat>) | Raw

  datatype Complaint =
    | IsRequired | NotWholeUnits | Negative | TooLarge | NotAnAmount | MustBePositive | OverPrecise
    | NotADuration | BadUnit | NotWholeSeconds | OtherRule(rule: string)

  datatype ValidationError = ValidationError(field: string, complaint: Complaint)

  const UINT256_LIMIT: nat := 0x1_0000000000000000_0000000000000000_0000000000000000_0000000000000000
  const DURATION_UNITS := ["minutes", "hours", "days", "weeks"]

  /** The rules of the widgets that are not modelled, as a function of what the source passes to them. */
  type OtherRules = (Property, Value, Mode, Params) -> seq<ValidationError>

  /** `/^0+(\.0+)?$/` */
  predicate IsZeroAmount(s: string) {
    IsAmount(s) && Whole(s) == Zeros(|Whole(s)|) && Fraction(s) == Zeros(|Fraction(s)|)
  }

  function TokenAmountErrors(p: Property, value: Value, mode: Mode, params: Params): seq<ValidationError> {
    match mode
    case Raw =>
      var n := ParseBigInt(ToText(value));
      if n.None? then [ValidationError(p.name, NotWholeUnits)]
      else if n.value < 0 then [ValidationError(p.name, Negative)]
      else if n.value >= UINT256_LIMIT then [ValidationError(p.name, TooLarge)]
      else []
    case Friendly(tokenDecimals) =>
      var text := Trim(ToText(value));
      if ZeroToggleOn(p, params) then []
      else if value.IsEmpty() then [ValidationError(p.name, IsRequired)]
      else if !IsAmount(text) then [ValidationError(p.name, NotAnAmount)]
      else if p.schema.zeroToggle && IsZeroAmount(text) then [ValidationError(p.name, MustBePositive)]
      else
        var decimals := DecimalsFor(p.schema, params, tokenDecimals);
        if decimals.Some? && |Fraction(text)| > decimals.value then [ValidationError(p.name, OverPrecise)] else []
  }

  /** `Number(value)` where `Number.isInteger` holds of it. */
  function WholeNumber(value: Value): Option<int> {
    match value
    case Null => Some(0)
    case Text(s) => WholeNumberOf(s)
    case Number(n) => Some(n)
    case Boolean(b) => Some(if b then 1 else 0)
    case _ => None
  }

  function DurationErrors(p: Property, value: Value, mode: Mode): seq<ValidationError> {
    if mode.Friendly? then
      if !value.Duration? then [ValidationError(p.name, NotADuration)]
      else if value.amount <= 0 then [ValidationError(p.name, MustBePositive)]
      else if value.unit !in DURATION_UNITS then [ValidationError(p.name, BadUnit)]
      else []
    else
      var seconds := WholeNumber(value);
      if seconds.None? then [ValidationError(p.name, NotWholeSeconds)]
      else if seconds.value <= 0 then [ValidationError(p.name, MustBePositive)]
      else []
  }

  /** What the validator reports about one property. */
  function FieldErrors(schema: ParamSchema, p: Property, params: Params, mode: Mode,
      other: OtherRules): seq<ValidationError>
  {
    var value := Get(params, p.name);
    var ownsPresence := p.schema.widget == TOKEN_AMOUNT && p.schema.zeroToggle;
    if p.name in schema.required && p.schema.widget != CONTEXT_SLOT && !ownsPresence && value.IsEmpty()
    then [ValidationError(p.name, IsRequired)]
    else if value.IsEmpty() && !ownsPresence then []
    else if p.schema.widget == DURATION then DurationErrors(p, value, mode)
    else if p.schema.widget == TOKEN_AMOUNT then TokenAmountErrors(p, value, mode, params)
    else other(p, value, mode, params)
  }

  function ErrorsOf(schema: ParamSchema, ps: seq<Property>, params: Params, mode: Mode,
      other: OtherRules): seq<ValidationError>
  {
    if ps == [] then []
    else ErrorsOf(schema, ps[..|ps| - 1], params, mode, other) + FieldErrors(schema, ps[|ps| - 1], params, mode, other)
  }

  method ValidateParams(schema: ParamSchema, params: Params, mode: Mode, other: OtherRules)
      returns (errors: seq<ValidationError>)
    ensures errors == ErrorsOf(schema, schema.properties, params, mode, other)
    ensures errors == [] <==> forall p :: p in schema.properties ==> FieldErrors(schema, p, params, mode, other) == []
  {
    errors := [];
    for i := 0 to |schema.properties|
      invariant errors == ErrorsOf(schema, schema.properties[..i], params, mode, other)
    {
      var p := schema.properties[i];
      var value := Get(params, p.name);
      var isAutoManaged := p.schema.widget == CONTEXT_SLOT;
      var zeroToggled := p.schema.widget == TOKEN_AMOUNT && p.schema.zeroToggle;
      assert schema.properties[..i + 1][..i] == schema.properties[..i];

      if p.name in schema.required && !isAutoManaged && !zeroToggled && value.IsEmpty() {
        errors := errors + [ValidationError(p.name, IsRequired)];
        continue;
      }
      if value.IsEmpty() && !zeroToggled { continue; }

      if p.schema.widget == DURATION {
        errors := errors + DurationErrors(p, value, mode);
      } else if p.schema.widget == TOKEN_AMOUNT {
        errors := errors + TokenAmountErrors(p, value, mode, params);
      } else {
        errors := errors + other(p, value, mode, params);
      }
    }
    assert schema.properties[..|schema.properties|] == schema.properties;
    NoErrorsMeansNone(schema, schema.properties, params, mode, other);
  }

  lemma {:induction false} NoErrorsMeansNone(schema: ParamSchema, ps: seq<Property>, params: Params, mode: Mode,
      other: OtherRules)
    ensures ErrorsOf(schema, ps, params, mode, other) == [] <==>
            forall p :: p in ps ==> FieldErrors(schema, p, params, mode, other) == []
  {
    if ps != [] {
      var front, last := ps[..|ps| - 1], ps[|ps| - 1];
      NoErrorsMeansNone(schema, front, params, mode, other);
      assert ps == front + [last];
    }
  }

  lemma ZeroAmountIsZero(s: string)
    requires IsAmount(s)
    ensures IsZeroAmount(s) <==> Unscaled(s) == 0
  {
    var digits := Whole(s) + Fraction(s);
    ValueOfZeros(|digits|);
    assert IsZeroAmount(s) ==> digits == Zeros(|digits|);
    if Unscaled(s) == 0 {
      ValueInjective(digits, Zeros(|digits|));
      assert Whole(s) == digits[..|Whole(s)|] && Fraction(s) == digits[|Whole(s)|..];
    }
  }

  /** The raw guard on a printed natural is the 256-bit bound. */
  lemma RawGuardOnNatural(p: Property, n: nat, params: Params)
    ensures TokenAmountErrors(p, Text(Digits(n)), Raw, params) == [] <==>
            n <= 0xffffffffffffffff_ffffffffffffffff_ffffffffffffffff_ffffffffffffffff
  {
    ParsePrinted(n);
  }

  /** A typed decimal is accepted as raw seconds exactly if it denotes a positive whole number. */
  lemma RawSecondsAreWhole(p: Property, s: string)
    requires IsAmount(s)
    ensures DurationErrors(p, Text(s), Raw) == [] <==> exists k: int :: k > 0 && Denotes(s, k)
  {
    hide WholeNumberOf, Denotes, IsAmount;
    forall k: int ensures WholeNumberOf(s) == Some(k) <==> Denotes(s, k) { WholeAmounts(s, k); }
  }

  lemma RawGuardOnSeconds(p: Property, n: nat)
    ensures WholeNumber(Text(Digits(n))) == Some(n)
    ensures DurationErrors(p, Text(Digits(n)), Raw) == [] <==> n > 0
  {
    ParsePrinted(n);
  }

  // ---- what is accepted ----

  /** A required field that is unset is reported, but for slot fields and amounts with a zero toggle; an optional one
      never is. */
  lemma MissingIsReported(schema: ParamSchema, p: Property, params: Params, mode: Mode, other: OtherRules)
    requires p.name !in params || params[p.name] in {Undefined, Null, Text("")}
    requires !(p.schema.widget == "token-amount" && p.schema.zeroToggle)
    ensures FieldErrors(schema, p, params, mode, other) ==
            if p.name in schema.required && p.schema.widget != "context-slot" then [ValidationError(p.name, IsRequired)]
            else []
  {
  }

  /** A typed amount is accepted exactly if it is a decimal, positive where zero has a toggle of its own, and of no more
      places than its token, where that is known; or if its zero toggle is on. */
  lemma FriendlyAmountAcceptedExactly(p: Property, value: Value, tokenDecimals: map<string, nat>, params: Params)
    ensures TokenAmountErrors(p, value, Friendly(tokenDecimals), params) == [] <==>
            || (p.schema.zeroToggle && Get(params, p.name + "_useZero") == Boolean(true))
            || var text, decimals := Trim(ToText(value)), DecimalsFor(p.schema, params, tokenDecimals);
               && value !in {Undefined, Null, Text("")} && IsAmount(text)
               && (p.schema.zeroToggle ==> Unscaled(text) > 0)
               && (decimals.Some? ==> Places(text) <= decimals.value)
  {
    hide Trim, IsAmount, Unscaled;
    var text := Trim(ToText(value));
    if IsAmount(text) { ZeroAmountIsZero(text); }
  }

  /** Raw base units are accepted exactly if `BigInt` reads them as a number of at most 256 bits. */
  lemma RawAmountAcceptedExactly(p: Property, value: Value, params: Params)
    ensures TokenAmountErrors(p, value, Raw, params) == [] <==>
            exists n: nat :: ParseBigInt(ToText(value)) == Some(n) &&
              n <= 0xffffffffffffffff_ffffffffffffffff_ffffffffffffffff_ffffffffffffffff
  {
    hide ParseBigInt;
  }

  /** A typed duration is accepted exactly if it is positive and in one of the four units. */
  lemma FriendlyDurationAcceptedExactly(p: Property, value: Value, tokenDecimals: map<string, nat>)
    ensures DurationErrors(p, value, Friendly(tokenDecimals)) == [] <==>
            value.Duration? && value.amount > 0 && value.unit in {"minutes", "hours", "days", "weeks"}
  {
    var us := DURATION_UNITS;
    assert us[0] == "minutes" && us[1] == "hours" && us[2] == "days" && us[3] == "weeks";
  }

  /** Set amounts and durations are judged by the rule of their widget, and so are unset amounts with a zero toggle. */
  lemma JudgedByWidget(schema: ParamSchema, p: Property, params: Params, mode: Mode, other: OtherRules)
    requires Get(params, p.name) in {Undefined, Null, Text("")} ==>
               p.schema.widget == "token-amount" && p.schema.zeroToggle
    ensures FieldErrors(schema, p, params, mode, other) ==
            if p.schema.widget == "duration" then DurationErrors(p, Get(params, p.name), mode)
            else if p.schema.widget == "token-amount" then TokenAmountErrors(p, Get(params, p.name), mode, params)
            else other(p, Get(params, p.name), mode, params)
  {
  }

  /** The text is a number with the whole value k: a literal of `BigInt`, or a decimal literal. */
  predicate ReadsAs(s: string, k: int) {
    ParseBigInt(s) == Some(k) || (ParseBigInt(s).None? && ParseDecimal(s).Some? && IsWhole(ParseDecimal(s).value, k))
  }

  /** Raw seconds are accepted exactly if they are a positive whole number, a text with such a value, or true. */
  lemma RawSecondsAcceptedExactly(p: Property, value: Value)
    ensures DurationErrors(p, value, Raw) == [] <==>
            || (value.Number? && value.number > 0)
            || (value.Text? && exists k: int :: k > 0 && ReadsAs(value.text, k))
            || value == Boolean(true)
  {
    hide WholeNumberOf, ReadsAs;
    if value.Text? {
      forall k: int ensures WholeNumberOf(value.text) == Some(k) <==> ReadsAs(value.text, k) {
        ReadsExactly(value.text, k);
      }
    }
  }

  lemma ReadsExactly(s: string, k: int)
    ensures WholeNumberOf(s) == Some(k) <==> ReadsAs(s, k)
  {
    hide ParseBigInt, ParseDecimal, IsWhole, WholeValue;
    if ParseDecimal(s).Some? { WholeValueExactly(ParseDecimal(s).value, k); }
  }
}
