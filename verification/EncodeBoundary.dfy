/** The friendly-to-raw step right before encoding. */
module EncodeBoundary {
  import opened Amount
  import opened Arith
  import opened Numerals
  import opened Schema
  import opened Validation
  import opened Wrappers

  datatype MapError = UnknownDecimals | UnknownUnit | BadAmount(cause: AmountError)

  function SecondsPer(unit: string): Option<nat> {
    if unit == "minutes" then Some(60)
    else if unit == "hours" then Some(60 * 60)
    else if unit == "days" then Some(60 * 60 * 24)
    else if unit == "weeks" then Some(60 * 60 * 24 * 7)
    else None
  }

  function ToUnitsText(text: string, decimals: nat): Result<Value, MapError> {
    match ToBaseUnits(text, decimals)
    case Success(units) => Success(Text(units))
    case Failure(e) => Failure(BadAmount(e))
  }

  function MapFieldToRaw(field: Option<Property>, value: Value, params: Params,
      tokenDecimals: map<string, nat>): Result<Value, MapError>
  {
    if field.None? then Success(value)
    else
      var p := field.value;
      if p.schema.widget == DURATION then
        if value.Duration? then
          var perUnit := SecondsPer(value.unit);
          if perUnit.None? then Failure(UnknownUnit) else Success(Text(IntToString(value.amount * perUnit.value)))
        else Success(value)
      else if p.schema.widget == HEALTH_FACTOR then
        ToUnitsText(if value.IsEmpty() then "0" else ToText(value), 18)
      else if p.schema.widget == TOKEN_AMOUNT then
        if ZeroToggleOn(p, params) then Success(Text("0"))
        else
          var decimals := DecimalsFor(p.schema, params, tokenDecimals);
          if decimals.None? then Failure(UnknownDecimals) else ToUnitsText(ToText(value), decimals.value)
      else Success(value)
  }

  function PropertyNamed(schema: StepSchema, name: string): Option<Property> {
    var field := FieldOf(schema.params.properties, name);
    if field.Some? then Some(Property(name, field.value)) else None
  }

  /** An unset field is dropped, unless its zero toggle gives it the value 0. */
  predicate Skipped(schema: StepSchema, name: string, params: Params) {
    var p := PropertyNamed(schema, name);
    Get(params, name).Undefined? && !(p.Some? && p.value.schema.widget == TOKEN_AMOUNT && ZeroToggleOn(p.value, params))
  }

  function RawField(schema: StepSchema, name: string, params: Params,
      tokenDecimals: map<string, nat>): Result<Value, MapError>
  {
    MapFieldToRaw(PropertyNamed(schema, name), Get(params, name), params, tokenDecimals)
  }

  predicate Maps(schema: StepSchema, name: string, params: Params, tokenDecimals: map<string, nat>) {
    Skipped(schema, name, params) || RawField(schema, name, params, tokenDecimals).Success?
  }

  ghost predicate HasComponent(schema: StepSchema, name: string) {
    exists c :: c in schema.components && c.name == name
  }

  /** `raw` carries exactly the components that are set, each with its mapped value. */
  ghost predicate IsRawImage(schema: StepSchema, cs: seq<Component>, params: Params,
      tokenDecimals: map<string, nat>, raw: Params)
  {
    && (forall name :: name in raw <==> exists c :: c in cs && c.name == name && !Skipped(schema, name, params))
    && (forall name :: name in raw ==> RawField(schema, name, params, tokenDecimals) == Success(raw[name]))
  }

  method MapParamsToRaw(params: Params, schema: StepSchema, tokenDecimals: map<string, nat>)
      returns (r: Result<Params, MapError>)
    ensures r.Success? <==> forall c :: c in schema.components ==> Maps(schema, c.name, params, tokenDecimals)
    ensures r.Success? ==> IsRawImage(schema, schema.components, params, tokenDecimals, r.value)
  {
    var raw: Params := map[];
    for i := 0 to |schema.components|
      invariant forall c :: c in schema.components[..i] ==> Maps(schema, c.name, params, tokenDecimals)
      invariant IsRawImage(schema, schema.components[..i], params, tokenDecimals, raw)
    {
      var name := schema.components[i].name;
      assert schema.components[..i + 1] == schema.components[..i] + [schema.components[i]];
      assert schema.components[i] in schema.components;
      if Skipped(schema, name, params) { continue; }
      var value := RawField(schema, name, params, tokenDecimals);
      if value.Failure? { return Failure(value.error); }
      raw := raw[name := value.value];
    }
    assert schema.components[..|schema.components|] == schema.components;
    r := Success(raw);
  }

  // ---- friendly acceptance against the raw guard ----

  /** A non-empty token amount with known decimals that friendly mode accepts always maps, and the raw
      guard accepts the image exactly below 2^256; with the zero toggle on, always. */
  lemma FriendlyAmountIsRawAmount(p: Property, params: Params, tokenDecimals: map<string, nat>)
    requires p.schema.widget == TOKEN_AMOUNT && !Get(params, p.name).IsEmpty()
    requires DecimalsFor(p.schema, params, tokenDecimals).Some?
    requires TokenAmountErrors(p, Get(params, p.name), Friendly(tokenDecimals), params) == []
    ensures var raw := MapFieldToRaw(Some(p), Get(params, p.name), params, tokenDecimals);
            && raw.Success?
            && (ZeroToggleOn(p, params) ==> TokenAmountErrors(p, raw.value, Raw, params) == [])
            && (!ZeroToggleOn(p, params) ==>
                  var decimals := DecimalsFor(p.schema, params, tokenDecimals).value;
                  && Accepted(ToText(Get(params, p.name)), decimals)
                  && (TokenAmountErrors(p, raw.value, Raw, params) == [] <==>
                        Units(ToText(Get(params, p.name)), decimals)
                        <= 0xffffffffffffffff_ffffffffffffffff_ffffffffffffffff_ffffffffffffffff))
  {
    if ZeroToggleOn(p, params) {
      RawGuardOnNatural(p, 0, params);
      assert Digits(0) == "0";
    } else {
      var text, decimals := ToText(Get(params, p.name)), DecimalsFor(p.schema, params, tokenDecimals).value;
      ToBaseUnitsExact(text, decimals);
      RawGuardOnNatural(p, Units(text, decimals), params);
    }
  }

  /** What a friendly value must be to survive the mapper, whether or not it was accepted. */
  predicate Convertible(p: Property, params: Params, tokenDecimals: map<string, nat>) {
    var value := Get(params, p.name);
    if p.schema.widget == TOKEN_AMOUNT then
      || value.Undefined? || ZeroToggleOn(p, params)
      || (value !in {Null, Text("")} && DecimalsFor(p.schema, params, tokenDecimals).Some?)
    else if p.schema.widget == HEALTH_FACTOR then
      value.IsEmpty() || Accepted(ToText(value), 18)
    else true
  }

  /** Friendly acceptance of an amount guarantees that it maps exactly if it is unset, toggled to zero,
      or neither empty nor in a token of unknown decimals. */
  lemma FriendlyAmountMapsExactly(schema: StepSchema, p: Property, params: Params,
      tokenDecimals: map<string, nat>, other: OtherRules)
    requires p in schema.params.properties && p.schema.widget == TOKEN_AMOUNT
    requires FieldErrors(schema.params, p, params, Friendly(tokenDecimals), other) == []
    ensures Maps(schema, p.name, params, tokenDecimals) <==>
            || Get(params, p.name).Undefined? || ZeroToggleOn(p, params)
            || (Get(params, p.name) !in {Null, Text("")} && DecimalsFor(p.schema, params, tokenDecimals).Some?)
  {
    hide DecimalsFor, IsAmount, Trim, IsZeroAmount, ToBaseUnits, Accepted, Places;
    FieldOfProperty(schema.params.properties, p);
    var value, decimals := Get(params, p.name), DecimalsFor(p.schema, params, tokenDecimals);
    if decimals.Some? {
      if value.IsEmpty() {
        NothingTypedIsNoAmount(decimals.value);
      } else {
        FriendlyAmountIsRawAmount(p, params, tokenDecimals);
      }
    }
  }

  lemma NothingTypedIsNoAmount(decimals: nat)
    ensures ToBaseUnits("", decimals).Failure? && ToBaseUnits("null", decimals).Failure?
  {
    assert "null"[0] == 'n' && Trim("null")[0] == 'n' by { TrimDigits("null"); }
  }

  lemma FriendlyFieldMapsExactly(schema: StepSchema, p: Property, params: Params,
      tokenDecimals: map<string, nat>, other: OtherRules)
    requires p in schema.params.properties
    requires FieldErrors(schema.params, p, params, Friendly(tokenDecimals), other) == []
    ensures Maps(schema, p.name, params, tokenDecimals) <==> Convertible(p, params, tokenDecimals)
  {
    FieldOfProperty(schema.params.properties, p);
    var value := Get(params, p.name);
    if p.schema.widget == TOKEN_AMOUNT {
      FriendlyAmountMapsExactly(schema, p, params, tokenDecimals, other);
    } else if p.schema.widget == HEALTH_FACTOR {
      ToBaseUnitsExact(ToText(value), 18);
      ZeroConverts();
    } else if p.schema.widget == DURATION && value.Duration? {
      KnownUnit(value.unit);
    }
  }

  lemma ZeroConverts()
    ensures Accepted("0", 18)
  {
    assert "0"[1..] == "" && "0"[..1] == "0";
    TrimDigits("0");
    assert Dot("0") == 1;
  }

  /** Once friendly mode accepts a step, the mapper succeeds exactly if every field it maps is convertible. */
  lemma FriendlyStepMapsExactly(schema: StepSchema, params: Params, tokenDecimals: map<string, nat>, other: OtherRules)
    requires forall p ::
               p in schema.params.properties ==>
                 FieldErrors(schema.params, p, params, Friendly(tokenDecimals), other) == []
    ensures (forall c :: c in schema.components ==> Maps(schema, c.name, params, tokenDecimals)) <==>
            forall p ::
                p in schema.params.properties && HasComponent(schema, p.name) ==>
                  Convertible(p, params, tokenDecimals)
  {
    hide Maps, Convertible, FieldErrors;
    forall p | p in schema.params.properties
      ensures Maps(schema, p.name, params, tokenDecimals) <==> Convertible(p, params, tokenDecimals)
    {
      FriendlyFieldMapsExactly(schema, p, params, tokenDecimals, other);
    }
    forall c | c in schema.components && FieldOf(schema.params.properties, c.name).None?
      ensures Maps(schema, c.name, params, tokenDecimals)
    {
      UnknownFieldMaps(schema, c.name, params, tokenDecimals);
    }
    forall c | c in schema.components && FieldOf(schema.params.properties, c.name).Some?
      ensures exists p :: p in schema.params.properties && p.name == c.name && HasComponent(schema, p.name)
    {
      var p := Property(c.name, FieldOf(schema.params.properties, c.name).value);
      assert p in schema.params.properties && HasComponent(schema, p.name);
    }
  }

  lemma UnknownFieldMaps(schema: StepSchema, name: string, params: Params, tokenDecimals: map<string, nat>)
    requires FieldOf(schema.params.properties, name).None?
    ensures Maps(schema, name, params, tokenDecimals)
  {
  }

  /** A step with a token and an optional amount, as the Aave steps of the catalogue have them. */
  function TokenStep(amountWidget: string): StepSchema {
    var asset := Property("asset", FieldSchema(TOKEN_SELECTOR, None, Undefined, false, ""));
    var amount := Property("amount", FieldSchema(amountWidget, None, Text("0"), false, "asset"));
    StepSchema(ParamSchema([asset, amount], ["asset"]), [Component("asset", "address"), Component("amount", "uint256")])
  }

  /** Friendly mode accepts the step, whatever the rules for the token and for health factors let through, and the
      mapper throws. */
  ghost predicate AcceptedButUnmappable(schema: StepSchema, params: Params, tokenDecimals: map<string, nat>) {
    && (forall other: OtherRules, p :: p in schema.params.properties && NoObjection(other, p, params, tokenDecimals) ==>
          FieldErrors(schema.params, p, params, Friendly(tokenDecimals), other) == [])
    && exists c :: c in schema.components && !Maps(schema, c.name, params, tokenDecimals)
  }

  ghost predicate NoObjection(other: OtherRules, p: Property, params: Params, tokenDecimals: map<string, nat>) {
    p.schema.widget in {TOKEN_SELECTOR, HEALTH_FACTOR} ==>
        other(p, Get(params, p.name), Friendly(tokenDecimals), params) == []
  }

  /** An optional amount left as "" is accepted and makes the mapper throw. */
  lemma EmptyAmountDoesNotMap()
    ensures var params := map["asset" := Text("0xa"), "amount" := Text("")];
            AcceptedButUnmappable(TokenStep(TOKEN_AMOUNT), params, map["0xa" := 18])
  {
    var schema, params := TokenStep(TOKEN_AMOUNT), map["asset" := Text("0xa"), "amount" := Text("")];
    hide Maps;
    EmptyFails(schema, params);
    assert Component("amount", "uint256") in schema.components;
  }

  lemma EmptyFails(schema: StepSchema, params: Params)
    requires schema == TokenStep(TOKEN_AMOUNT) && params == map["asset" := Text("0xa"), "amount" := Text("")]
    ensures !Maps(schema, "amount", params, map["0xa" := 18])
  {
    hide ToBaseUnits;
    LowerCaseAddress('a');
    FieldOfProperty(schema.params.properties, schema.params.properties[1]);
    NothingTypedIsNoAmount(18);
  }

  lemma LowerCaseAddress(c: char)
    requires 'a' <= c <= 'f'
    ensures ToLower("0x" + [c]) == "0x" + [c]
  {
  }

  /** An amount in a token of unknown decimals is accepted and makes the mapper throw. */
  lemma UnknownTokenDoesNotMap()
    ensures var params := map["asset" := Text("0xb"), "amount" := Text("1")];
            AcceptedButUnmappable(TokenStep(TOKEN_AMOUNT), params, map["0xa" := 18])
  {
    var schema, params := TokenStep(TOKEN_AMOUNT), map["asset" := Text("0xb"), "amount" := Text("1")];
    var amount := schema.params.properties[1];
    LowerCaseAddress('b');
    assert "0x" + ['b'] == "0xb" && "0xb"[2] != "0xa"[2];
    FieldOfProperty(schema.params.properties, amount);
    assert Component("amount", "uint256") in schema.components;
    DigitIsAmount();
    assert !Maps(schema, "amount", params, map["0xa" := 18]);
  }

  lemma DigitIsAmount()
    ensures Trim("1") == "1" && IsAmount("1")
  {
    assert "1"[1..] == "" && "1"[..1] == "1";
    TrimDigits("1");
    assert Dot("1") == 1;
  }

  /** Whole durations accepted in friendly mode are accepted raw, as their number of seconds. */
  lemma FriendlyDurationIsRawDuration(p: Property, value: Value, params: Params, tokenDecimals: map<string, nat>)
    requires p.schema.widget == DURATION && DurationErrors(p, value, Friendly(tokenDecimals)) == []
    ensures var raw := MapFieldToRaw(Some(p), value, params, tokenDecimals);
            raw.Success? && DurationErrors(p, raw.value, Raw) == []
            && exists k :: IsUnit(value.unit, k) && WholeNumber(raw.value) == Some(value.amount * k)
  {
    KnownUnit(value.unit);
    var k := SecondsPer(value.unit).value;
    var seconds := Product(value.amount, k);
    MulMono(1, value.amount, k);
    RawGuardOnSeconds(p, seconds);
    DurationMapsExactly(p, value.amount, value.unit, params, tokenDecimals);
  }

  /** The unit has k seconds. */
  predicate IsUnit(unit: string, k: nat) {
    || (unit == "minutes" && k == 60)
    || (unit == "hours" && k == 3600)
    || (unit == "days" && k == 86400)
    || (unit == "weeks" && k == 604800)
  }

  /** A duration field maps to its whole seconds, in the unit's own number of seconds, and fails for any other unit. */
  lemma DurationMapsExactly(p: Property, amount: int, unit: string, params: Params, tokenDecimals: map<string, nat>)
    requires p.schema.widget == "duration"
    ensures var raw := MapFieldToRaw(Some(p), Duration(amount, unit), params, tokenDecimals);
            && (forall k :: IsUnit(unit, k) ==> raw == Success(Text(IntToString(amount * k))))
            && ((forall k :: !IsUnit(unit, k)) ==> raw == Failure(UnknownUnit))
  {
    hide IntToString;
    assert SecondsPer(unit).Some? ==> IsUnit(unit, SecondsPer(unit).value);
  }

  /** Any other value is handed over as it is: of another widget, without a property, or a duration in raw form. */
  lemma OthersMapToThemselves(field: Option<Property>, value: Value, params: Params, tokenDecimals: map<string, nat>)
    requires field.Some? ==> field.value.schema.widget !in {"token-amount", "health-factor"}
    requires field.Some? && field.value.schema.widget == "duration" ==> !value.Duration?
    ensures MapFieldToRaw(field, value, params, tokenDecimals) == Success(value)
  {
  }

  /** A health factor maps to its number of 10^-18, an empty one to zero, and only a decimal of at most 18 places
      maps. */
  lemma HealthFactorMapsExactly(p: Property, value: Value, params: Params, tokenDecimals: map<string, nat>)
    requires p.schema.widget == "health-factor"
    ensures var raw, text := MapFieldToRaw(Some(p), value, params, tokenDecimals), ToText(value);
            if value.IsEmpty() then raw == Success(Text("0"))
            else
              && (raw.Success? <==> Accepted(text, 18))
              && (raw.Success? ==> raw.value == Text(Digits(Units(text, 18))))
  {
    if value.IsEmpty() {
      ZeroConverts();
      ToBaseUnitsExact("0", 18);
      ZeroUnits();
    } else {
      ToBaseUnitsExact(ToText(value), 18);
    }
  }

  lemma ZeroUnits()
    ensures Accepted("0", 18) && Digits(Units("0", 18)) == "0"
  {
    ZeroConverts();
    assert "0"[1..] == "" && "0"[..1] == "0" && "0"[..0] == "";
    TrimDigits("0");
    assert Dot("0") == 1;
    assert NatOf("0") == 0;
  }

  /** A typed amount maps to "0" with its zero toggle on, and else to its base units, if the decimals are known and
      it has no more places than that. */
  lemma AmountMapsExactly(p: Property, value: Value, params: Params, tokenDecimals: map<string, nat>)
    requires p.schema.widget == "token-amount"
    ensures var raw, text := MapFieldToRaw(Some(p), value, params, tokenDecimals), ToText(value);
            if p.schema.zeroToggle && Get(params, p.name + "_useZero") == Boolean(true) then raw == Success(Text("0"))
            else
              var decimals := DecimalsFor(p.schema, params, tokenDecimals);
              && (raw.Success? <==> decimals.Some? && Accepted(text, decimals.value))
              && (raw.Success? ==> raw.value == Text(Digits(Units(text, decimals.value))))
  {
    var decimals := DecimalsFor(p.schema, params, tokenDecimals);
    if decimals.Some? { ToBaseUnitsExact(ToText(value), decimals.value); }
  }

  lemma KnownUnit(unit: string)
    ensures unit in DURATION_UNITS <==> SecondsPer(unit).Some?
    ensures SecondsPer(unit).Some? ==> SecondsPer(unit).value > 0
  {
    var us := DURATION_UNITS;
    assert us[0] == "minutes" && us[1] == "hours" && us[2] == "days" && us[3] == "weeks";
  }
}
