/** Parameter values and the schema metadata that drives validation, mapping and decoding. */
module Schema {
  import opened Numerals
  import opened Wrappers

  /** The values `node.data.params` holds. Numbers are whole; the only object is a friendly duration. */
  datatype Value =
    | Undefined
    | Null
    | Text(text: string)
    | Number(number: int)
    | Boolean(flag: bool)
    | Duration(amount: int, unit: string)
  {
    predicate IsEmpty() { Undefined? || Null? || this == Text("") }
  }

  type Params = map<string, Value>

  function Get(params: Params, key: string): Value {
    if key in params then params[key] else Undefined
  }

  /** `String(value)` */
  function ToText(value: Value): string {
    match value
    case Undefined => "undefined"
    case Null => "null"
    case Text(s) => s
    case Number(n) => IntToString(n)
    case Boolean(b) => if b then "true" else "false"
    case Duration(_, _) => "[object Object]"
  }

  function ToLower(s: string): (t: string)
    ensures |t| == |s|
  {
    seq(|s|, i requires 0 <= i < |s| => if 'A' <= s[i] <= 'Z' then (s[i] as int + 32) as char else s[i])
  }

  /** The same text but for the case of its ASCII letters. */
  predicate SameLetters(s: string, t: string) {
    |s| == |t| && forall i :: 0 <= i < |s| ==> SameLetter(s[i], t[i])
  }

  predicate SameLetter(c: char, d: char) {
    || c == d
    || ('A' <= c <= 'Z' && d as int == c as int + 32)
    || ('A' <= d <= 'Z' && c as int == d as int + 32)
  }

  predicate NoCapitals(s: string) { forall i :: 0 <= i < |s| ==> !('A' <= s[i] <= 'Z') }

  /** The lower-case form is the one way to write the text without capitals. */
  lemma LowerExactly(s: string, t: string)
    ensures ToLower(s) == t <==> SameLetters(s, t) && NoCapitals(t)
  {
    if SameLetters(s, t) && NoCapitals(t) {
      assert forall i :: 0 <= i < |s| ==> ToLower(s)[i] == t[i];
    }
  }

  datatype Role = TokenRole | AmountRole | RecipientRole | DirectionRole

  const DURATION := "duration"
  const TOKEN_AMOUNT := "token-amount"
  const TOKEN_SELECTOR := "token-selector"
  const HEALTH_FACTOR := "health-factor"
  const CONTEXT_SLOT := "context-slot"
  const AAVE_AMOUNT_MODE := "aave-amount-mode"

  /** The annotations the model reads; an absent string is "". */
  datatype FieldSchema = FieldSchema(
    widget: string,
    explicitRole: Option<Role>,
    fallback: Value,
    zeroToggle: bool,
    amountTokenField: string)
  {
    /** `resolveFieldRole`: the explicit role, else the one its widget implies. */
    function Role(): Option<Role> {
      if explicitRole.Some? then explicitRole
      else if widget == TOKEN_SELECTOR then Some(TokenRole)
      else if widget == TOKEN_AMOUNT then Some(AmountRole)
      else if widget == AAVE_AMOUNT_MODE then Some(DirectionRole)
      else None
    }
  }

  /** The role a field plays: the one it is given, else that of its widget. */
  lemma RoleExactly(field: FieldSchema)
    ensures field.Role() ==
            if field.explicitRole.Some? then field.explicitRole
            else match field.widget
              case "token-selector" => Some(TokenRole)
              case "token-amount" => Some(AmountRole)
              case "aave-amount-mode" => Some(DirectionRole)
              case _ => None
  {
  }

  datatype Property = Property(name: string, schema: FieldSchema)

  predicate UniqueNames(ps: seq<Property>) {
    forall i, j :: 0 <= i < j < |ps| ==> ps[i].name != ps[j].name
  }

  /** `Object.entries(properties)`: an object's keys are distinct. */
  type Properties = ps: seq<Property> | UniqueNames(ps) witness []

  datatype ParamSchema = ParamSchema(properties: Properties, required: seq<string>)

  /** `properties[name]` */
  function FieldOf(ps: seq<Property>, name: string): (field: Option<FieldSchema>)
    ensures field.None? ==> forall p :: p in ps ==> p.name != name
    ensures field.Some? ==> Property(name, field.value) in ps
  {
    if ps == [] then None
    else if ps[0].name == name then Some(ps[0].schema)
    else FieldOf(ps[1..], name)
  }

  lemma FieldOfProperty(ps: Properties, p: Property)
    requires p in ps
    ensures FieldOf(ps, p.name) == Some(p.schema)
  {
  }

  datatype Component = Component(name: string, kind: string)

  datatype StepSchema = StepSchema(params: ParamSchema, components: seq<Component>)

  /** The key of the friendly-only boolean of a field with a zero toggle. */
  function ZeroToggleField(field: string): string { field + "_useZero" }

  predicate ZeroToggleOn(p: Property, params: Params) {
    p.schema.zeroToggle && Get(params, ZeroToggleField(p.name)) == Boolean(true)
  }

  /** The decimals of the token an amount field refers to, when both are known. */
  function DecimalsFor(schema: FieldSchema, params: Params, tokenDecimals: map<string, nat>): Option<nat> {
    var token := if schema.amountTokenField != "" then Get(params, schema.amountTokenField) else Undefined;
    if token.Text? && ToLower(token.text) in tokenDecimals then Some(tokenDecimals[ToLower(token.text)]) else None
  }
}
