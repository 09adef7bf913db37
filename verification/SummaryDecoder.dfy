/** The human-readable summary reconstructed from a raw graph, and what it says about the typed amounts. */
module SummaryDecoder {
  import opened Amount
  import opened EncodeBoundary
  import opened Numerals
  import opened Schema
  import opened Validation
  import opened Wrappers

  datatype RawNode = RawNode(stepTypeId: string, isCondition: bool, params: Params)
  datatype CatalogStep = CatalogStep(name: string, schema: StepSchema)
  type Catalog = map<string, CatalogStep>

  datatype DecodedStep = DecodedStep(
    stepType: string,
    isCondition: bool,
    token: Option<string>,
    amount: Option<string>,
    amountRaw: Option<string>,
    recipient: Option<string>,
    direction: Option<Value>)

  datatype Warning =
    | UnknownStepType(id: string)
    | UndecodableAmount(step: string)
    | UnmarkedRecipient(step: string, field: string)

  datatype Summary = Summary(steps: seq<DecodedStep>, warnings: seq<Warning>)

  /** The locals of the loop over a step's properties. */
  datatype Scan = Scan(
    amountField: Option<Property>, firstToken: Option<string>, recipient: Option<string>, direction: Option<Value>)

  const NOTHING_SEEN := Scan(None, None, None, None)

  function ScanProperty(scan: Scan, p: Property, params: Params): Scan {
    var raw := Get(params, p.name);
    match p.schema.Role()
    case Some(TokenRole) =>
      if scan.firstToken.None? && !raw.Undefined? then scan.(firstToken := Some(ToText(raw))) else scan
    case Some(RecipientRole) => if !raw.Undefined? then scan.(recipient := Some(ToText(raw))) else scan
    case Some(DirectionRole) => if !raw.Undefined? then scan.(direction := Some(raw)) else scan
    case Some(AmountRole) => scan.(amountField := Some(p))
    case None => scan
  }

  function ScanAll(ps: seq<Property>, params: Params): Scan {
    if ps == [] then NOTHING_SEEN else ScanProperty(ScanAll(ps[..|ps| - 1], params), ps[|ps| - 1], params)
  }

  /** The token value the amount's decimals come from: its annotated token field, else the first token seen. */
  function TokenOf(scan: Scan, params: Params): Value
    requires scan.amountField.Some?
  {
    var tokenField := scan.amountField.value.schema.amountTokenField;
    if tokenField != "" then Get(params, tokenField)
    else if scan.firstToken.Some? then Text(scan.firstToken.value) else Undefined
  }

  /** The decoded step with the warnings it adds; fails where reading the base units throws. */
  function DecodeNode(step: CatalogStep, node: RawNode,
      tokenDecimals: map<string, nat>): Result<(DecodedStep, seq<Warning>), AmountError>
  {
    var scan := ScanAll(step.schema.params.properties, node.params);
    var decoded :=
      DecodedStep(step.name, node.isCondition, scan.firstToken, None, None, scan.recipient, scan.direction);
    if scan.amountField.None? then Success((decoded, []))
    else
      var token := TokenOf(scan, node.params);
      var named := if token.Undefined? then decoded else decoded.(token := Some(ToText(token)));
      var rawAmount := Get(node.params, scan.amountField.value.name);
      if rawAmount.Undefined? then Success((named, []))
      else
        var shown := named.(amountRaw := Some(ToText(rawAmount)));
        if token.Text? && ToLower(token.text) in tokenDecimals then
          match FromBaseUnits(ToText(rawAmount), tokenDecimals[ToLower(token.text)])
          case Success(amount) => Success((shown.(amount := Some(amount)), []))
          case Failure(e) => Failure(e)
        else Success((shown, [UndecodableAmount(step.name)]))
  }

  const RECIPIENT_NAMES := ["recipient", "to", "receiver", "destination"]

  predicate IsGap(step: CatalogStep, c: Component) {
    var field := FieldOf(step.schema.params.properties, c.name);
    c.kind == "address" && ToLower(c.name) in RECIPIENT_NAMES
      && !(field.Some? && field.value.Role() == Some(RecipientRole))
  }

  /** The address components that look like a money target but are not marked as recipient. */
  function UnmarkedRecipients(step: CatalogStep, cs: seq<Component>): seq<Warning> {
    if cs == [] then []
    else
      var c := cs[|cs| - 1];
      UnmarkedRecipients(step, cs[..|cs| - 1]) + (if IsGap(step, c) then [UnmarkedRecipient(step.name, c.name)] else [])
  }

  function DecodeNodes(nodes: seq<RawNode>, catalog: Catalog,
      tokenDecimals: map<string, nat>): Result<Summary, AmountError>
  {
    if nodes == [] then Success(Summary([], []))
    else
      var front := DecodeNodes(nodes[..|nodes| - 1], catalog, tokenDecimals);
      var node := nodes[|nodes| - 1];
      if front.Failure? then front
      else if node.stepTypeId !in catalog then
        Success(front.value.(warnings := front.value.warnings + [UnknownStepType(node.stepTypeId)]))
      else
        match DecodeNode(catalog[node.stepTypeId], node, tokenDecimals)
        case Failure(e) => Failure(e)
        case Success(d) => Success(Summary(front.value.steps + [d.0], front.value.warnings + d.1))
  }

  function RecipientGaps(nodes: seq<RawNode>, catalog: Catalog): seq<Warning> {
    if nodes == [] then []
    else
      var node := nodes[|nodes| - 1];
      var front := RecipientGaps(nodes[..|nodes| - 1], catalog);
      if node.stepTypeId !in catalog then front
      else front + UnmarkedRecipients(catalog[node.stepTypeId], catalog[node.stepTypeId].schema.components)
  }

  // ---- what a summary says ----

  predicate IsKnown(n: RawNode, catalog: Catalog) { n.stepTypeId in catalog }

  /** The nodes of known step types, in order. */
  function Known(nodes: seq<RawNode>, catalog: Catalog): (known: seq<RawNode>)
    ensures forall n :: n in known <==> n in nodes && IsKnown(n, catalog)
  {
    if nodes == [] then []
    else
      assert nodes == nodes[..|nodes| - 1] + [nodes[|nodes| - 1]];
      Known(nodes[..|nodes| - 1], catalog) + (if IsKnown(nodes[|nodes| - 1], catalog) then [nodes[|nodes| - 1]] else [])
  }

  function Decoded(n: RawNode, catalog: Catalog,
      tokenDecimals: map<string, nat>): Result<(DecodedStep, seq<Warning>), AmountError>
    requires IsKnown(n, catalog)
  {
    DecodeNode(catalog[n.stepTypeId], n, tokenDecimals)
  }

  /** A node that makes the decoder throw. */
  predicate Unreadable(n: RawNode, catalog: Catalog, tokenDecimals: map<string, nat>) {
    IsKnown(n, catalog) && Decoded(n, catalog, tokenDecimals).Failure?
  }

  /** A node that gives rise to the warning. */
  ghost predicate Warns(n: RawNode, catalog: Catalog, tokenDecimals: map<string, nat>, w: Warning) {
    match w
    case UnknownStepType(id) => n.stepTypeId == id && id !in catalog
    case UndecodableAmount(name) =>
      IsKnown(n, catalog) && Decoded(n, catalog, tokenDecimals).Success?
        && w in Decoded(n, catalog, tokenDecimals).value.1
    case UnmarkedRecipient(name, field) => IsKnown(n, catalog) && HasGap(catalog[n.stepTypeId], name, field)
  }

  ghost predicate HasGap(step: CatalogStep, name: string, field: string) {
    step.name == name && exists c :: c in step.schema.components && c.name == field && IsGap(step, c)
  }

  /** One step for each known node, in order; a warning for each unknown node, undecodable amount and unmarked
      recipient, and no other. */
  ghost predicate IsSummary(nodes: seq<RawNode>, catalog: Catalog, tokenDecimals: map<string, nat>, s: Summary) {
    && HasSteps(nodes, catalog, tokenDecimals, s.steps)
    && forall w :: w in s.warnings <==> SomeWarns(nodes, catalog, tokenDecimals, w)
  }

  ghost predicate HasSteps(nodes: seq<RawNode>, catalog: Catalog, tokenDecimals: map<string, nat>,
      steps: seq<DecodedStep>)
  {
    var known := Known(nodes, catalog);
    && |steps| == |known|
    && forall k :: 0 <= k < |known| ==>
         Decoded(known[k], catalog, tokenDecimals).Success?
           && Decoded(known[k], catalog, tokenDecimals).value.0 == steps[k]
  }

  /** Some node has the property. */
  ghost predicate SomeUnreadable(nodes: seq<RawNode>, catalog: Catalog, tokenDecimals: map<string, nat>) {
    exists n :: n in nodes && Unreadable(n, catalog, tokenDecimals)
  }

  ghost predicate SomeWarns(nodes: seq<RawNode>, catalog: Catalog, tokenDecimals: map<string, nat>, w: Warning) {
    exists n :: n in nodes && Warns(n, catalog, tokenDecimals, w)
  }

  lemma OneMoreNode(front: seq<RawNode>, last: RawNode, catalog: Catalog, tokenDecimals: map<string, nat>, w: Warning)
    ensures SomeUnreadable(front + [last], catalog, tokenDecimals) <==>
              SomeUnreadable(front, catalog, tokenDecimals) || Unreadable(last, catalog, tokenDecimals)
    ensures SomeWarns(front + [last], catalog, tokenDecimals, w) <==>
              SomeWarns(front, catalog, tokenDecimals, w) || Warns(last, catalog, tokenDecimals, w)
  {
    hide Unreadable, Warns;
    var nodes := front + [last];
    assert last in nodes && forall n :: n in nodes <==> n in front || n == last;
  }

  lemma OneMoreStep(front: seq<RawNode>, last: RawNode, catalog: Catalog, tokenDecimals: map<string, nat>,
      steps: seq<DecodedStep>)
    requires HasSteps(front, catalog, tokenDecimals, steps)
    ensures !IsKnown(last, catalog) ==> HasSteps(front + [last], catalog, tokenDecimals, steps)
    ensures IsKnown(last, catalog) && Decoded(last, catalog, tokenDecimals).Success? ==>
              HasSteps(front + [last], catalog, tokenDecimals, steps + [Decoded(last, catalog, tokenDecimals).value.0])
  {
    hide DecodeNode;
    assert (front + [last])[..|front|] == front;
  }

  lemma {:induction false} StepsDecoded(nodes: seq<RawNode>, catalog: Catalog, tokenDecimals: map<string, nat>)
    ensures var d := DecodeNodes(nodes, catalog, tokenDecimals);
            && (d.Failure? <==> SomeUnreadable(nodes, catalog, tokenDecimals))
            && (d.Success? ==> HasSteps(nodes, catalog, tokenDecimals, d.value.steps))
  {
    hide DecodeNode, SomeUnreadable, HasSteps, Warns;
    if nodes == [] {
      NoNodes(catalog, tokenDecimals, UnknownStepType(""));
    } else {
      var front, last := nodes[..|nodes| - 1], nodes[|nodes| - 1];
      StepsDecoded(front, catalog, tokenDecimals);
      assert nodes == front + [last];
      OneMoreNode(front, last, catalog, tokenDecimals, UnknownStepType(""));
      var before := DecodeNodes(front, catalog, tokenDecimals);
      if before.Success? { OneMoreStep(front, last, catalog, tokenDecimals, before.value.steps); }
    }
  }

  lemma NoNodes(catalog: Catalog, tokenDecimals: map<string, nat>, w: Warning)
    ensures !SomeUnreadable([], catalog, tokenDecimals) && !SomeWarns([], catalog, tokenDecimals, w)
    ensures HasSteps([], catalog, tokenDecimals, [])
  {
  }

  lemma NodeWarnings(step: CatalogStep, node: RawNode, tokenDecimals: map<string, nat>)
    requires DecodeNode(step, node, tokenDecimals).Success?
    ensures forall w :: w in DecodeNode(step, node, tokenDecimals).value.1 ==> w == UndecodableAmount(step.name)
  {
  }

  ghost predicate FromSteps(w: Warning) { !w.UnmarkedRecipient? }

  lemma {:induction false} WarningsDecoded(nodes: seq<RawNode>, catalog: Catalog,
      tokenDecimals: map<string, nat>, w: Warning)
    requires DecodeNodes(nodes, catalog, tokenDecimals).Success?
    ensures w in DecodeNodes(nodes, catalog, tokenDecimals).value.warnings <==>
            FromSteps(w) && SomeWarns(nodes, catalog, tokenDecimals, w)
  {
    hide DecodeNode, HasGap, SomeWarns;
    if nodes == [] {
      NoNodes(catalog, tokenDecimals, w);
    } else {
      var front, last := nodes[..|nodes| - 1], nodes[|nodes| - 1];
      WarningsDecoded(front, catalog, tokenDecimals, w);
      assert nodes == front + [last];
      OneMoreNode(front, last, catalog, tokenDecimals, w);
      if IsKnown(last, catalog) { NodeWarnings(catalog[last.stepTypeId], last, tokenDecimals); }
    }
  }

  predicate IsRecipientName(s: string) {
    SameLetters(s, "recipient") || SameLetters(s, "to") || SameLetters(s, "receiver") || SameLetters(s, "destination")
  }

  lemma RecipientNames(s: string)
    ensures ToLower(s) in RECIPIENT_NAMES <==> IsRecipientName(s)
  {
    hide ToLower, SameLetters;
    var names := RECIPIENT_NAMES;
    assert names[0] == "recipient" && names[1] == "to" && names[2] == "receiver" && names[3] == "destination";
    LowerExactly(s, "recipient");
    LowerExactly(s, "to");
    LowerExactly(s, "receiver");
    LowerExactly(s, "destination");
  }

  /** A gap is an address component with one of four names, in any case, whose property is not marked as recipient. */
  lemma GapExactly(step: CatalogStep, c: Component)
    ensures IsGap(step, c) <==>
            && c.kind == "address" && IsRecipientName(c.name)
            && forall p :: p in step.schema.params.properties && p.name == c.name ==>
                 p.schema.Role() != Some(RecipientRole)
  {
    hide ToLower, IsRecipientName;
    RecipientNames(c.name);
    var ps := step.schema.params.properties;
    forall p | p in ps && p.name == c.name ensures FieldOf(ps, c.name) == Some(p.schema) {
      FieldOfProperty(ps, p);
    }
    assert FieldOf(ps, c.name).Some? ==> Property(c.name, FieldOf(ps, c.name).value) in ps;
  }

  lemma {:induction false} GapsFound(step: CatalogStep, cs: seq<Component>, w: Warning)
    ensures w in UnmarkedRecipients(step, cs) <==>
            w.UnmarkedRecipient? && w.step == step.name && exists c :: c in cs && c.name == w.field && IsGap(step, c)
  {
    hide IsGap;
    if cs != [] {
      GapsFound(step, cs[..|cs| - 1], w);
      assert cs == cs[..|cs| - 1] + [cs[|cs| - 1]];
    }
  }

  lemma {:induction false} RecipientGapsFound(nodes: seq<RawNode>, catalog: Catalog,
      tokenDecimals: map<string, nat>, w: Warning)
    ensures w in RecipientGaps(nodes, catalog) <==> !FromSteps(w) && SomeWarns(nodes, catalog, tokenDecimals, w)
  {
    hide IsGap, DecodeNode, SomeWarns;
    if nodes == [] {
      NoNodes(catalog, tokenDecimals, w);
    } else {
      var front, last := nodes[..|nodes| - 1], nodes[|nodes| - 1];
      RecipientGapsFound(front, catalog, tokenDecimals, w);
      assert nodes == front + [last];
      OneMoreNode(front, last, catalog, tokenDecimals, w);
      if IsKnown(last, catalog) {
        GapsFound(catalog[last.stepTypeId], catalog[last.stepTypeId].schema.components, w);
      }
    }
  }

  lemma Summarized(nodes: seq<RawNode>, catalog: Catalog, tokenDecimals: map<string, nat>, s: Summary)
    requires DecodeNodes(nodes, catalog, tokenDecimals) == Success(s)
    ensures IsSummary(nodes, catalog, tokenDecimals, s.(warnings := s.warnings + RecipientGaps(nodes, catalog)))
  {
    hide DecodeNodes, RecipientGaps, SomeWarns, HasSteps;
    StepsDecoded(nodes, catalog, tokenDecimals);
    var full := s.(warnings := s.warnings + RecipientGaps(nodes, catalog));
    forall w ensures w in full.warnings <==> SomeWarns(nodes, catalog, tokenDecimals, w) {
      WarningsDecoded(nodes, catalog, tokenDecimals, w);
      RecipientGapsFound(nodes, catalog, tokenDecimals, w);
    }
  }

  // ---- what a step's summary leaves out ----

  predicate IsAmountField(p: Property) { p.schema.Role() == Some(AmountRole) }

  /** The amount field the decoder ends up with. */
  ghost predicate IsLastAmount(ps: seq<Property>, i: nat) {
    i < |ps| && IsAmountField(ps[i]) && forall j :: i < j < |ps| ==> !IsAmountField(ps[j])
  }

  /** An amount field with another one after it. */
  ghost predicate IsEarlierAmount(ps: seq<Property>, i: nat) {
    i < |ps| && IsAmountField(ps[i]) && exists j :: i < j < |ps| && IsAmountField(ps[j])
  }

  lemma {:induction false} ScanFindsLastAmount(ps: seq<Property>, i: nat, params: Params)
    requires IsLastAmount(ps, i)
    ensures ScanAll(ps, params).amountField == Some(ps[i])
  {
    if i < |ps| - 1 { ScanFindsLastAmount(ps[..|ps| - 1], i, params); }
  }

  lemma SomeLastAmount(ps: seq<Property>, i: nat) returns (last: nat)
    requires i < |ps| && IsAmountField(ps[i])
    ensures IsLastAmount(ps, last) && i <= last
  {
    last := |ps| - 1;
    while !IsAmountField(ps[last])
      invariant i <= last < |ps| && forall j :: last < j < |ps| ==> !IsAmountField(ps[j])
      decreases last
    {
      last := last - 1;
    }
  }

  /** The summary of the step is about field i: it shows the field's base units, with an amount or a warning
      beside them. */
  ghost predicate TellsOf(step: CatalogStep, node: RawNode, tokenDecimals: map<string, nat>, i: nat)
    requires i < |step.schema.params.properties| && DecodeNode(step, node, tokenDecimals).Success?
  {
    var ps, (d, warnings) := step.schema.params.properties, DecodeNode(step, node, tokenDecimals).value;
    && ScanAll(ps, node.params).amountField == Some(ps[i])
    && d.amountRaw == Some(ToText(Get(node.params, ps[i].name)))
    && (d.amount.Some? <==> UndecodableAmount(step.name) !in warnings)
  }

  /** The base units of the last amount field are shown with an amount or a warning, never both and never neither;
      without base units there is nothing of either. */
  lemma LastAmountShownOrWarned(step: CatalogStep, node: RawNode, tokenDecimals: map<string, nat>, i: nat)
    requires DecodeNode(step, node, tokenDecimals).Success? && IsLastAmount(step.schema.params.properties, i)
    ensures var p, (d, warnings) := step.schema.params.properties[i], DecodeNode(step, node, tokenDecimals).value;
            if Get(node.params, p.name).Undefined?
            then d.amountRaw.None? && d.amount.None? && warnings == []
            else TellsOf(step, node, tokenDecimals, i)
  {
    ScanFindsLastAmount(step.schema.params.properties, i, node.params);
  }

  /** No amount is dropped in silence exactly if every amount field before the last one is unset. */
  lemma NoAmountDroppedExactly(step: CatalogStep, node: RawNode, tokenDecimals: map<string, nat>)
    requires DecodeNode(step, node, tokenDecimals).Success?
    ensures var ps := step.schema.params.properties;
            (forall i: nat :: i < |ps| && IsAmountField(ps[i]) && !Get(node.params, ps[i].name).Undefined? ==>
               TellsOf(step, node, tokenDecimals, i))
            <==> forall i: nat :: IsEarlierAmount(ps, i) ==> Get(node.params, ps[i].name).Undefined?
  {
    hide DecodeNode, TellsOf;
    var ps := step.schema.params.properties;
    forall i: nat | i < |ps| && IsAmountField(ps[i]) && !Get(node.params, ps[i].name).Undefined?
      ensures TellsOf(step, node, tokenDecimals, i) <==> !IsEarlierAmount(ps, i)
    {
      var last := SomeLastAmount(ps, i);
      LastAmountShownOrWarned(step, node, tokenDecimals, last);
      if i < last {
        OnlyOneIsTold(step, node, tokenDecimals, i, last);
      }
    }
  }

  lemma OnlyOneIsTold(step: CatalogStep, node: RawNode, tokenDecimals: map<string, nat>, i: nat, last: nat)
    requires DecodeNode(step, node, tokenDecimals).Success?
    requires IsLastAmount(step.schema.params.properties, last) && i < last
    ensures !TellsOf(step, node, tokenDecimals, i)
  {
    ScanFindsLastAmount(step.schema.params.properties, last, node.params);
  }

  /** Two scans that differ in nothing but the values of amount fields. */
  lemma {:induction false} ScanIgnoresAmounts(ps: seq<Property>, params: Params, params': Params)
    requires forall p :: p in ps && !IsAmountField(p) ==> Get(params', p.name) == Get(params, p.name)
    ensures ScanAll(ps, params') == ScanAll(ps, params)
  {
    if ps != [] {
      var front, last := ps[..|ps| - 1], ps[|ps| - 1];
      assert ps == front + [last];
      ScanIgnoresAmounts(front, params, params');
    }
  }

  /** Whatever an earlier amount field holds, the step's summary and warnings are the same. */
  lemma EarlierAmountIsInvisible(step: CatalogStep, node: RawNode, tokenDecimals: map<string, nat>, i: nat,
      value: Value)
    requires IsEarlierAmount(step.schema.params.properties, i)
    requires forall k: nat :: IsLastAmount(step.schema.params.properties, k) ==>
               step.schema.params.properties[k].schema.amountTokenField != step.schema.params.properties[i].name
    ensures var node' := node.(params := node.params[step.schema.params.properties[i].name := value]);
            DecodeNode(step, node', tokenDecimals) == DecodeNode(step, node, tokenDecimals)
  {
    hide ScanAll, FromBaseUnits, ToLower;
    var ps := step.schema.params.properties;
    var params' := node.params[ps[i].name := value];
    forall p | p in ps && !IsAmountField(p) ensures Get(params', p.name) == Get(node.params, p.name) {
      var k :| 0 <= k < |ps| && ps[k] == p;
      assert k != i;
    }
    ScanIgnoresAmounts(ps, node.params, params');
    var last := SomeLastAmount(ps, i);
    ScanFindsLastAmount(ps, last, node.params);
    assert i < last;
  }

  /** The two tokens and the two amounts of a step that adds liquidity. */
  function LiquidityStep(): CatalogStep {
    var tokenA := Property("tokenA", FieldSchema(TOKEN_SELECTOR, None, Undefined, false, ""));
    var tokenB := Property("tokenB", FieldSchema(TOKEN_SELECTOR, None, Undefined, false, ""));
    var amountA := Property("amountADesired", FieldSchema(TOKEN_AMOUNT, None, Undefined, true, "tokenA"));
    var amountB := Property("amountBDesired", FieldSchema(TOKEN_AMOUNT, None, Undefined, true, "tokenB"));
    assert UniqueNames([tokenA, tokenB, amountA, amountB]) by {
      assert "tokenA"[5] != "tokenB"[5] && "amountADesired"[6] != "amountBDesired"[6];
    }
    CatalogStep("Mint", StepSchema(ParamSchema([tokenA, tokenB, amountA, amountB], ["tokenA", "tokenB"]),
      [Component("tokenA", "address"), Component("tokenB", "address"),
       Component("amountADesired", "uint256"), Component("amountBDesired", "uint256")]))
  }

  /** An amount of token A beside a zero of token B: only the zero is shown. With B unset nothing is shown at all.
      There is no warning either time. */
  lemma SecondAmountHidesFirst()
    ensures var decimals := map["0xa" := 18, "0xb" := 18];
            var both := map["tokenA" := Text("0xa"), "tokenB" := Text("0xb"),
                            "amountADesired" := Text("5"), "amountBDesired" := Text("0")];
            var first := map["tokenA" := Text("0xa"), "tokenB" := Text("0xb"), "amountADesired" := Text("5")];
            && DecodeNode(LiquidityStep(), RawNode("mint", false, both), decimals)
               == Success((DecodedStep("Mint", false, Some("0xb"), Some("0"), Some("0"), None, None), []))
            && DecodeNode(LiquidityStep(), RawNode("mint", false, first), decimals)
               == Success((DecodedStep("Mint", false, Some("0xb"), None, None, None, None), []))
  {
    var both := map["tokenA" := Text("0xa"), "tokenB" := Text("0xb"),
                    "amountADesired" := Text("5"), "amountBDesired" := Text("0")];
    var first := map["tokenA" := Text("0xa"), "tokenB" := Text("0xb"), "amountADesired" := Text("5")];
    LiquidityScan(both);
    LiquidityScan(first);
    LowerCaseAddress('b');
    assert "0x" + ['b'] == "0xb";
    ZeroShown(18);
    hide FromBaseUnits, ScanAll;
  }

  lemma LiquidityScan(params: Params)
    requires Get(params, "tokenA") == Text("0xa")
    ensures ScanAll(LiquidityStep().schema.params.properties, params)
            == Scan(Some(LiquidityStep().schema.params.properties[3]), Some("0xa"), None, None)
  {
    var ps := LiquidityStep().schema.params.properties;
    assert ps[..3][..2] == ps[..2] && ps[..2][..1] == ps[..1] && ps[..1][..0] == [] && ps[..4] == ps;
    assert ScanAll(ps[..1], params) == NOTHING_SEEN.(firstToken := Some("0xa"));
    assert ScanAll(ps[..2], params) == NOTHING_SEEN.(firstToken := Some("0xa"));
    assert ScanAll(ps[..3], params).firstToken == Some("0xa");
  }

  ghost predicate NamesRecipient(p: Property, params: Params) {
    p.schema.Role() == Some(RecipientRole) && !Get(params, p.name).Undefined?
  }

  lemma {:induction false} ScanFindsRecipient(ps: seq<Property>, params: Params)
    ensures var found := ScanAll(ps, params).recipient;
            if found.Some?
            then exists p :: p in ps && NamesRecipient(p, params) && found.value == ToText(Get(params, p.name))
            else forall p :: p in ps ==> !NamesRecipient(p, params)
  {
    if ps != [] {
      var front, last := ps[..|ps| - 1], ps[|ps| - 1];
      assert ps == front + [last];
      ScanFindsRecipient(front, params);
    }
  }

  /** Every recipient of a step is shown exactly if all its recipient fields that are set name the same one. */
  lemma EveryRecipientShownExactly(step: CatalogStep, node: RawNode, tokenDecimals: map<string, nat>)
    requires DecodeNode(step, node, tokenDecimals).Success?
    ensures var ps, d := step.schema.params.properties, DecodeNode(step, node, tokenDecimals).value.0;
            (forall p :: p in ps && NamesRecipient(p, node.params) ==>
               d.recipient == Some(ToText(Get(node.params, p.name))))
            <==>
            (forall p, q :: p in ps && q in ps && NamesRecipient(p, node.params) && NamesRecipient(q, node.params) ==>
               ToText(Get(node.params, p.name)) == ToText(Get(node.params, q.name)))
  {
    ScanFindsRecipient(step.schema.params.properties, node.params);
    assert DecodeNode(step, node, tokenDecimals).value.0.recipient
           == ScanAll(step.schema.params.properties, node.params).recipient;
    hide DecodeNode, NamesRecipient;
  }

  method DecodeRawGraph(nodes: seq<RawNode>, catalog: Catalog, tokenDecimals: map<string, nat>)
      returns (r: Result<Summary, AmountError>)
    ensures r.Failure? <==> SomeUnreadable(nodes, catalog, tokenDecimals)
    ensures r.Success? ==> IsSummary(nodes, catalog, tokenDecimals, r.value)
  {
    hide SomeUnreadable, IsSummary;
    StepsDecoded(nodes, catalog, tokenDecimals);
    var summary :- DecodeSteps(nodes, catalog, tokenDecimals);
    var warnings := summary.warnings;
    for i := 0 to |nodes|
      invariant warnings == summary.warnings + RecipientGaps(nodes[..i], catalog)
    {
      assert nodes[..i + 1][..i] == nodes[..i];
      if nodes[i].stepTypeId in catalog {
        var step := catalog[nodes[i].stepTypeId];
        warnings := warnings + UnmarkedRecipients(step, step.schema.components);
      }
    }
    assert nodes[..|nodes|] == nodes;
    Summarized(nodes, catalog, tokenDecimals, summary);
    r := Success(Summary(summary.steps, warnings));
  }

  method DecodeSteps(nodes: seq<RawNode>, catalog: Catalog, tokenDecimals: map<string, nat>)
      returns (r: Result<Summary, AmountError>)
    ensures r == DecodeNodes(nodes, catalog, tokenDecimals)
  {
    var steps, warnings := [], [];
    for i := 0 to |nodes|
      invariant DecodeNodes(nodes[..i], catalog, tokenDecimals) == Success(Summary(steps, warnings))
    {
      var node := nodes[i];
      DecodeOneMore(nodes, i, catalog, tokenDecimals);
      if node.stepTypeId !in catalog {
        warnings := warnings + [UnknownStepType(node.stepTypeId)];
        continue;
      }
      var decoded := DecodeStep(catalog[node.stepTypeId], node, tokenDecimals);
      if decoded.Failure? {
        FailureStays(nodes, i + 1, catalog, tokenDecimals);
        return Failure(decoded.error);
      }
      steps, warnings := steps + [decoded.value.0], warnings + decoded.value.1;
    }
    assert nodes[..|nodes|] == nodes;
    r := Success(Summary(steps, warnings));
  }

  lemma DecodeOneMore(nodes: seq<RawNode>, i: nat, catalog: Catalog, tokenDecimals: map<string, nat>)
    requires i < |nodes| && DecodeNodes(nodes[..i], catalog, tokenDecimals).Success?
    ensures var front, node := DecodeNodes(nodes[..i], catalog, tokenDecimals).value, nodes[i];
            DecodeNodes(nodes[..i + 1], catalog, tokenDecimals) ==
            if node.stepTypeId !in catalog then
              Success(front.(warnings := front.warnings + [UnknownStepType(node.stepTypeId)]))
            else match DecodeNode(catalog[node.stepTypeId], node, tokenDecimals)
              case Failure(e) => Failure(e)
              case Success(d) => Success(Summary(front.steps + [d.0], front.warnings + d.1))
  {
    assert nodes[..i + 1][..i] == nodes[..i];
  }

  method DecodeStep(step: CatalogStep, node: RawNode, tokenDecimals: map<string, nat>)
      returns (r: Result<(DecodedStep, seq<Warning>), AmountError>)
    ensures r == DecodeNode(step, node, tokenDecimals)
  {
    var warnings := [];
    var scan := ScanFields(step.schema.params.properties, node.params);
    var decoded := DecodedStep(step.name, node.isCondition, None, None, None, scan.recipient, scan.direction);
    if scan.amountField.Some? {
      var rawAmount := Get(node.params, scan.amountField.value.name);
      var token := TokenOf(scan, node.params);
      decoded := decoded.(token := if !token.Undefined? then Some(ToText(token)) else scan.firstToken);
      if !rawAmount.Undefined? {
        decoded := decoded.(amountRaw := Some(ToText(rawAmount)));
        if token.Text? && ToLower(token.text) in tokenDecimals {
          var amount := FromBaseUnits(ToText(rawAmount), tokenDecimals[ToLower(token.text)]);
          if amount.Failure? { return Failure(amount.error); }
          decoded := decoded.(amount := Some(amount.value));
        } else {
          warnings := [UndecodableAmount(step.name)];
        }
      }
    }
    if decoded.token.None? { decoded := decoded.(token := scan.firstToken); }
    r := Success((decoded, warnings));
  }

  method ScanFields(ps: seq<Property>, params: Params) returns (scan: Scan)
    ensures scan == ScanAll(ps, params)
  {
    var amountField, firstToken: Option<string>, recipient, direction := None, None, None, None;
    for i := 0 to |ps|
      invariant Scan(amountField, firstToken, recipient, direction) == ScanAll(ps[..i], params)
    {
      assert ps[..i + 1][..i] == ps[..i];
      var role := ps[i].schema.Role();
      var raw := Get(params, ps[i].name);
      if role == Some(TokenRole) && firstToken.None? && !raw.Undefined? {
        firstToken := Some(ToText(raw));
      } else if role == Some(RecipientRole) && !raw.Undefined? {
        recipient := Some(ToText(raw));
      } else if role == Some(DirectionRole) && !raw.Undefined? {
        direction := Some(raw);
      } else if role == Some(AmountRole) {
        amountField := Some(ps[i]);
      }
    }
    assert ps[..|ps|] == ps;
    scan := Scan(amountField, firstToken, recipient, direction);
  }

  lemma {:induction false} FailureStays(nodes: seq<RawNode>, k: nat, catalog: Catalog, tokenDecimals: map<string, nat>)
    requires k <= |nodes| && DecodeNodes(nodes[..k], catalog, tokenDecimals).Failure?
    ensures DecodeNodes(nodes, catalog, tokenDecimals) == DecodeNodes(nodes[..k], catalog, tokenDecimals)
  {
    if k == |nodes| {
      assert nodes[..k] == nodes;
    } else {
      var front := nodes[..|nodes| - 1];
      assert front[..k] == nodes[..k];
      FailureStays(front, k, catalog, tokenDecimals);
    }
  }

  // ---- what is confirmed is what was typed ----

  /** `p` is the step's last amount field, the one a summary is about: a token amount whose token field is a component
      that passes through. */
  ghost predicate IsConfirmed(step: CatalogStep, p: Property) {
    && (exists i: nat :: IsLastAmount(step.schema.params.properties, i) && step.schema.params.properties[i] == p)
    && p.schema.widget == TOKEN_AMOUNT && HasComponent(step.schema, p.name)
    && p.schema.amountTokenField != "" && HasComponent(step.schema, p.schema.amountTokenField)
    && (var token := FieldOf(step.schema.params.properties, p.schema.amountTokenField);
        token.Some? ==> token.value.widget !in {TOKEN_AMOUNT, HEALTH_FACTOR})
  }

  /** The image of a text in a field that is not converted is the text itself. */
  lemma TextPassesThrough(schema: StepSchema, name: string, params: Params, tokenDecimals: map<string, nat>,
      raw: Params)
    requires IsRawImage(schema, schema.components, params, tokenDecimals, raw) && HasComponent(schema, name)
    requires Get(params, name).Text?
    requires var field := FieldOf(schema.params.properties, name);
             field.Some? ==> field.value.widget !in {TOKEN_AMOUNT, HEALTH_FACTOR}
    ensures Get(raw, name) == Get(params, name)
  {
    assert !Skipped(schema, name, params);
    assert name in raw;
  }

  /** The amount a person typed, or chose with the zero toggle. */
  function Typed(p: Property, params: Params): string {
    if ZeroToggleOn(p, params) then "0" else Trim(ToText(Get(params, p.name)))
  }

  /** A step filled in with `params`, of which p is the last amount field, and its raw image. */
  datatype TypedStep = TypedStep(step: CatalogStep, p: Property, params: Params, raw: Params)

  ghost predicate IsTypedStep(t: TypedStep, tokenDecimals: map<string, nat>) {
    && IsConfirmed(t.step, t.p) && IsRawImage(t.step.schema, t.step.schema.components, t.params, tokenDecimals, t.raw)
    && DecimalsFor(t.p.schema, t.params, tokenDecimals).Some?
    && (!Get(t.params, t.p.name).Undefined? || ZeroToggleOn(t.p, t.params))
  }

  /** Mapping the typed amount of the last amount field to raw and decoding it shows its canonical form,
      "0" with the toggle on. */
  lemma ConfirmedIsTyped(t: TypedStep, node: RawNode, tokenDecimals: map<string, nat>)
    requires IsTypedStep(t, tokenDecimals) && node.params == t.raw
    ensures var d := DecodeNode(t.step, node, tokenDecimals);
            && d.Success? && d.value.1 == [] && d.value.0.amount.Some?
            && IsCanonicalFormOf(d.value.0.amount.value, Typed(t.p, t.params))
            && (ZeroToggleOn(t.p, t.params) ==> d.value.0.amount == Some("0"))
  {
    var p, params, raw := t.p, t.params, t.raw;
    var i: nat :| IsLastAmount(t.step.schema.params.properties, i) && t.step.schema.params.properties[i] == p;
    ScanFindsLastAmount(t.step.schema.params.properties, i, raw);
    FieldOfProperty(t.step.schema.params.properties, p);
    TextPassesThrough(t.step.schema, p.schema.amountTokenField, params, tokenDecimals, raw);
    var decimals := DecimalsFor(p.schema, params, tokenDecimals).value;
    assert !Skipped(t.step.schema, p.name, params) && p.name in raw;
    assert RawField(t.step.schema, p.name, params, tokenDecimals) == Success(raw[p.name]);
    hide IsCanonicalFormOf, Accepted, ToBaseUnits, FromBaseUnits;
    if ZeroToggleOn(p, params) {
      ZeroShown(decimals);
    } else {
      AmountShown(ToText(Get(params, p.name)), decimals);
    }
  }

  lemma AmountShown(text: string, decimals: nat)
    requires ToBaseUnits(text, decimals).Success?
    ensures FromBaseUnits(ToBaseUnits(text, decimals).value, decimals).Success?
    ensures IsCanonicalFormOf(FromBaseUnits(ToBaseUnits(text, decimals).value, decimals).value, Trim(text))
  {
    hide ToBaseUnits, FromBaseUnits, IsCanonicalFormOf;
    ToBaseUnitsExact(text, decimals);
    TypedRoundTrip(text, decimals);
  }

  lemma ZeroShown(decimals: nat)
    ensures FromBaseUnits("0", decimals) == Success("0") && IsCanonicalFormOf("0", "0")
  {
    hide IsCanonicalFormOf, FromBaseUnits, ToBaseUnits, Accepted;
    ZeroIsCanonical();
    OnlyCanonicalForm("0", "0");
    PrintsFrom(0, decimals, "0");
    FromBaseUnitsPrints(0, decimals);
    PrintedZero(FromBaseUnits(Digits(0), decimals).value, decimals);
  }

  lemma ZeroIsCanonical()
    ensures Digits(0) == "0" && Canonical("0") && SameNumber("0", "0") && Places("0") == 0 && Unscaled("0") == 0
  {
    assert "0"[..1] == "0" && "0"[1..] == "" && Dot("0") == 1;
    assert "0" + "" == "0" && "0"[..0] == "";
  }

  /** Two amounts that print the same number of base units are the same text. */
  lemma PrintedZero(t: string, decimals: nat)
    requires Prints(0, decimals, t) && Prints(0, decimals, "0")
    ensures t == "0"
  {
    hide Canonical, Accepted, Unscaled;
    SameUnits(t, "0", decimals);
    CanonicalUnique(t, "0");
  }

  lemma SameUnits(s: string, t: string, d: nat)
    requires Prints(0, d, s) && Prints(0, d, t)
    ensures Canonical(s) && Canonical(t) && SameNumber(s, t)
  {
    ScaleCommutes(s, t, d);
  }

  /** The place of node j among the known ones. */
  function Rank(nodes: seq<RawNode>, catalog: Catalog, j: nat): nat
    requires j < |nodes|
  {
    |Known(nodes[..j], catalog)|
  }

  lemma {:induction false} RankOf(nodes: seq<RawNode>, catalog: Catalog, j: nat)
    requires j < |nodes| && IsKnown(nodes[j], catalog)
    ensures Rank(nodes, catalog, j) < |Known(nodes, catalog)|
    ensures Known(nodes, catalog)[Rank(nodes, catalog, j)] == nodes[j]
  {
    var front := nodes[..|nodes| - 1];
    if j < |nodes| - 1 {
      assert front[..j] == nodes[..j];
      RankOf(front, catalog, j);
    }
  }

  /** In the summary of a whole graph, the step of a typed node shows the canonical form of what was typed. */
  lemma SummaryShowsTyped(nodes: seq<RawNode>, catalog: Catalog, tokenDecimals: map<string, nat>, s: Summary,
      j: nat, t: TypedStep)
    requires IsSummary(nodes, catalog, tokenDecimals, s) && j < |nodes| && IsKnown(nodes[j], catalog)
    requires t.step == catalog[nodes[j].stepTypeId] && t.raw == nodes[j].params && IsTypedStep(t, tokenDecimals)
    ensures Rank(nodes, catalog, j) < |s.steps|
    ensures s.steps[Rank(nodes, catalog, j)].amount.Some?
    ensures IsCanonicalFormOf(s.steps[Rank(nodes, catalog, j)].amount.value, Typed(t.p, t.params))
  {
    hide DecodeNode, IsCanonicalFormOf, IsTypedStep, Typed, Warns, Known;
    RankOf(nodes, catalog, j);
    ConfirmedIsTyped(t, nodes[j], tokenDecimals);
    assert Decoded(Known(nodes, catalog)[Rank(nodes, catalog, j)], catalog, tokenDecimals).value.0
      == s.steps[Rank(nodes, catalog, j)];
  }

  lemma SameCanonicalForm(s: string, t: string, shownS: string, shownT: string)
    requires IsCanonicalFormOf(shownS, s) && IsCanonicalFormOf(shownT, t)
    ensures shownS == shownT <==> SameNumber(s, t)
  {
    if shownS == shownT {
      SameNumberSymmetric(shownS, s);
      SameNumberSymmetric(shownT, t);
      SameNumberTransitive(s, shownS, t);
    } else if SameNumber(s, t) {
      SameNumberTransitive(shownT, t, s);
    }
  }

  lemma SameNumberSymmetric(s: string, t: string)
    requires IsAmount(s) && IsAmount(t)
    ensures SameNumber(s, t) <==> SameNumber(t, s)
  {
  }

  /** Two typed amounts, in one graph or two, are shown alike exactly if they are the same number. */
  lemma ShownAlikeIffSameNumber(t: TypedStep, node: RawNode, u: TypedStep, node': RawNode,
      tokenDecimals: map<string, nat>)
    requires IsTypedStep(t, tokenDecimals) && node.params == t.raw && IsTypedStep(u, tokenDecimals)
    requires node'.params == u.raw
    ensures DecodeNode(t.step, node, tokenDecimals).Success? && DecodeNode(u.step, node', tokenDecimals).Success?
    ensures IsAmount(Typed(t.p, t.params)) && IsAmount(Typed(u.p, u.params))
    ensures var shownT, shownU := DecodeNode(t.step, node, tokenDecimals), DecodeNode(u.step, node', tokenDecimals);
            shownT.value.0.amount == shownU.value.0.amount <==> SameNumber(Typed(t.p, t.params), Typed(u.p, u.params))
  {
    hide DecodeNode, IsTypedStep, Typed, IsAmount, SameNumber, Canonical;
    ConfirmedIsTyped(t, node, tokenDecimals);
    ConfirmedIsTyped(u, node', tokenDecimals);
    var shownT := DecodeNode(t.step, node, tokenDecimals).value.0.amount.value;
    var shownU := DecodeNode(u.step, node', tokenDecimals).value.0.amount.value;
    SameCanonicalForm(Typed(t.p, t.params), Typed(u.p, u.params), shownT, shownU);
  }

  // ---- the other fields of a decoded step ----

  ghost predicate SetsRole(p: Property, params: Params, role: Role) {
    p.schema.Role() == Some(role) && p.name in params && params[p.name] != Undefined
  }

  /** Position i is the last field with the role that is set. */
  ghost predicate IsLastSet(ps: seq<Property>, params: Params, role: Role, i: nat) {
    i < |ps| && SetsRole(ps[i], params, role) && forall j :: i < j < |ps| ==> !SetsRole(ps[j], params, role)
  }

  ghost predicate IsFirstSet(ps: seq<Property>, params: Params, role: Role, i: nat) {
    i < |ps| && SetsRole(ps[i], params, role) && forall j :: 0 <= j < i ==> !SetsRole(ps[j], params, role)
  }

  ghost predicate NoneSet(ps: seq<Property>, params: Params, role: Role) {
    forall p :: p in ps ==> !SetsRole(p, params, role)
  }

  lemma LastOfFront(ps: seq<Property>, params: Params, role: Role, i: nat)
    requires ps != [] && IsLastSet(ps, params, role, i)
    ensures if SetsRole(ps[|ps| - 1], params, role) then i == |ps| - 1
            else i < |ps| - 1 && IsLastSet(ps[..|ps| - 1], params, role, i)
  {
    hide SetsRole;
  }

  lemma {:induction false} LastDirection(ps: seq<Property>, params: Params, i: nat)
    requires IsLastSet(ps, params, DirectionRole, i)
    ensures ScanAll(ps, params).direction == Some(params[ps[i].name])
  {
    LastOfFront(ps, params, DirectionRole, i);
    if i < |ps| - 1 { LastDirection(ps[..|ps| - 1], params, i); }
  }

  lemma {:induction false} LastRecipient(ps: seq<Property>, params: Params, i: nat)
    requires IsLastSet(ps, params, RecipientRole, i)
    ensures ScanAll(ps, params).recipient == Some(ToText(params[ps[i].name]))
  {
    LastOfFront(ps, params, RecipientRole, i);
    if i < |ps| - 1 { LastRecipient(ps[..|ps| - 1], params, i); }
  }

  lemma {:induction false} FirstToken(ps: seq<Property>, params: Params, i: nat)
    requires IsFirstSet(ps, params, TokenRole, i)
    ensures ScanAll(ps, params).firstToken == Some(ToText(params[ps[i].name]))
  {
    var front := ps[..|ps| - 1];
    if i < |ps| - 1 {
      FirstToken(front, params, i);
    } else {
      NothingScanned(front, params);
    }
  }

  lemma {:induction false} NothingScanned(ps: seq<Property>, params: Params)
    ensures NoneSet(ps, params, DirectionRole) ==> ScanAll(ps, params).direction == None
    ensures NoneSet(ps, params, RecipientRole) ==> ScanAll(ps, params).recipient == None
    ensures NoneSet(ps, params, TokenRole) ==> ScanAll(ps, params).firstToken == None
  {
    if ps != [] {
      var front, last := ps[..|ps| - 1], ps[|ps| - 1];
      NothingScanned(front, params);
      NoneInFront(ps, params, DirectionRole);
      NoneInFront(ps, params, RecipientRole);
      NoneInFront(ps, params, TokenRole);
      hide NoneSet;
      match last.schema.Role()
      case Some(TokenRole) =>
      case Some(RecipientRole) =>
      case Some(DirectionRole) =>
      case Some(AmountRole) =>
      case None =>
    }
  }

  lemma NoneInFront(ps: seq<Property>, params: Params, role: Role)
    requires ps != []
    ensures NoneSet(ps, params, role) <==>
            NoneSet(ps[..|ps| - 1], params, role) && !SetsRole(ps[|ps| - 1], params, role)
  {
    hide SetsRole;
    assert ps == ps[..|ps| - 1] + [ps[|ps| - 1]];
  }

  /** Kind and name are the node's and its step's; direction and recipient are those of the last field that sets
      them. */
  lemma DecodedFields(step: CatalogStep, node: RawNode, tokenDecimals: map<string, nat>)
    requires DecodeNode(step, node, tokenDecimals).Success?
    ensures var ps, d := step.schema.params.properties, DecodeNode(step, node, tokenDecimals).value.0;
            && d.stepType == step.name && d.isCondition == node.isCondition
            && (forall i: nat :: IsLastSet(ps, node.params, DirectionRole, i) ==>
                  d.direction == Some(node.params[ps[i].name]))
            && (NoneSet(ps, node.params, DirectionRole) ==> d.direction == None)
            && (forall i: nat :: IsLastSet(ps, node.params, RecipientRole, i) ==>
                  d.recipient == Some(ToText(node.params[ps[i].name])))
            && (NoneSet(ps, node.params, RecipientRole) ==> d.recipient == None)
  {
    var ps, d := step.schema.params.properties, DecodeNode(step, node, tokenDecimals).value.0;
    hide ScanAll, NoneSet, IsLastSet, FromBaseUnits, ToText;
    NothingScanned(ps, node.params);
    forall i: nat | IsLastSet(ps, node.params, DirectionRole, i)
      ensures ScanAll(ps, node.params).direction == Some(Get(node.params, ps[i].name))
    {
      LastDirection(ps, node.params, i);
    }
    forall i: nat | IsLastSet(ps, node.params, RecipientRole, i)
      ensures ScanAll(ps, node.params).recipient == Some(ToText(Get(node.params, ps[i].name)))
    {
      LastRecipient(ps, node.params, i);
    }
  }

  /** The step's token is that of its last amount field, if it names one that is set, else the first token set. */
  ghost predicate IsToken(step: CatalogStep, params: Params, token: Option<string>) {
    var ps := step.schema.params.properties;
    if NamesToken(ps, params) then
      exists i: nat :: IsLastAmount(ps, i) && token == Some(ToText(Get(params, ps[i].schema.amountTokenField)))
    else
      && (forall i: nat :: IsFirstSet(ps, params, TokenRole, i) ==> token == Some(ToText(params[ps[i].name])))
      && (NoneSet(ps, params, TokenRole) ==> token == None)
  }

  /** The last amount field names a token field that is set. */
  ghost predicate NamesToken(ps: seq<Property>, params: Params) {
    exists i: nat ::
      IsLastAmount(ps, i) && ps[i].schema.amountTokenField != ""
      && !Get(params, ps[i].schema.amountTokenField).Undefined?
  }

  lemma TokenDecoded(step: CatalogStep, node: RawNode, tokenDecimals: map<string, nat>)
    requires DecodeNode(step, node, tokenDecimals).Success?
    ensures IsToken(step, node.params, DecodeNode(step, node, tokenDecimals).value.0.token)
  {
    var ps, scan := step.schema.params.properties, ScanAll(step.schema.params.properties, node.params);
    NothingScanned(ps, node.params);
    AmountFieldIsLast(ps, node.params);
    forall i: nat | IsFirstSet(ps, node.params, TokenRole, i)
      ensures scan.firstToken == Some(ToText(node.params[ps[i].name]))
    {
      FirstToken(ps, node.params, i);
    }
    hide ScanAll, IsFirstSet, NoneSet, FromBaseUnits, ToLower, IsLastAmount;
  }

  lemma AmountFieldIsLast(ps: seq<Property>, params: Params)
    ensures forall i: nat :: IsLastAmount(ps, i) ==> ScanAll(ps, params).amountField == Some(ps[i])
    ensures ScanAll(ps, params).amountField.Some? ==> exists i: nat :: IsLastAmount(ps, i)
  {
    forall i: nat | IsLastAmount(ps, i) ensures ScanAll(ps, params).amountField == Some(ps[i]) {
      ScanFindsLastAmount(ps, i, params);
    }
    if i: nat :| i < |ps| && IsAmountField(ps[i]) {
      var last := SomeLastAmount(ps, i);
    } else {
      NoAmountScanned(ps, params);
    }
  }

  lemma {:induction false} NoAmountScanned(ps: seq<Property>, params: Params)
    requires forall i :: 0 <= i < |ps| ==> !IsAmountField(ps[i])
    ensures ScanAll(ps, params).amountField == None
  {
    if ps != [] { NoAmountScanned(ps[..|ps| - 1], params); }
  }

  /** The amount shown is the base units of the last amount field in the decimals of its token, whatever the case of
      the token's address. */
  lemma AmountDecoded(step: CatalogStep, node: RawNode, tokenDecimals: map<string, nat>, i: nat, key: string)
    requires DecodeNode(step, node, tokenDecimals).Success? && IsLastAmount(step.schema.params.properties, i)
    requires var p := step.schema.params.properties[i];
             && p.name in node.params && node.params[p.name] != Undefined
             && p.schema.amountTokenField in node.params && node.params[p.schema.amountTokenField].Text?
             && SameLetters(node.params[p.schema.amountTokenField].text, key) && NoCapitals(key)
    ensures var p, d := step.schema.params.properties[i], DecodeNode(step, node, tokenDecimals).value.0;
            p.schema.amountTokenField != "" ==>
              if key in tokenDecimals then
                && d.amount.Some?
                && FromBaseUnits(ToText(node.params[p.name]), tokenDecimals[key]) == Success(d.amount.value)
              else d.amount == None
  {
    hide FromBaseUnits, ToLower;
    ScanFindsLastAmount(step.schema.params.properties, i, node.params);
    LowerExactly(node.params[step.schema.params.properties[i].schema.amountTokenField].text, key);
  }
}
