/** The encoder: `encode` for a new automation and `encodeUpdate` for an existing one. */
module Encoding {
  import opened Amount
  import opened Compilation
  import opened ContextSlots
  import opened ContextVector
  import opened EditorGraph
  import opened NumberLiterals
  import opened Numerals
  import opened Schema
  import opened StepTable
  import opened Validation
  import opened Wrappers

  datatype EncodeResult = EncodeResult(functionName: string, steps: seq<Step>, ownerOnly: bool, context: ContextPlan)

  // ---- slot names ----

  /** A slot field holds a variable name, not a number, a hex literal or nothing. */
  predicate IsSlotName(v: Value) {
    v.Text? && v.text != "" && !("0x" <= v.text) && !IsNumeric(v.text)
  }

  /** The variable a property of a node names, if it is a slot field holding one. */
  function Variable(p: Property, params: Params): Option<string> {
    var v := Get(params, p.name);
    if p.schema.widget == CONTEXT_SLOT && IsSlotName(v) then Some(v.text) else None
  }

  function AddName(names: seq<string>, variable: Option<string>): seq<string> {
    if variable.Some? && variable.value !in names then names + [variable.value] else names
  }

  function AddNames(names: seq<string>, ps: seq<Property>, params: Params): seq<string> {
    if ps == [] then names else AddName(AddNames(names, ps[..|ps| - 1], params), Variable(ps[|ps| - 1], params))
  }

  function PropertiesOf(n: Node, catalogue: Catalogue): Properties {
    if n.stepTypeId in catalogue then catalogue[n.stepTypeId].schema.params.properties else []
  }

  function SlotNames(nodes: seq<Node>, catalogue: Catalogue): seq<string> {
    if nodes == [] then []
    else
      var n := nodes[|nodes| - 1];
      AddNames(SlotNames(nodes[..|nodes| - 1], catalogue), PropertiesOf(n, catalogue), n.params)
  }

  method ExtractSlotNames(g: Graph, catalogue: Catalogue) returns (names: seq<string>)
    ensures names == SlotNames(g.nodes, catalogue)
  {
    names := [];
    for i := 0 to |g.nodes|
      invariant names == SlotNames(g.nodes[..i], catalogue)
    {
      assert g.nodes[..i + 1][..i] == g.nodes[..i];
      names := CollectNames(names, PropertiesOf(g.nodes[i], catalogue), g.nodes[i].params);
    }
    assert g.nodes[..|g.nodes|] == g.nodes;
  }

  method CollectNames(before: seq<string>, ps: seq<Property>, params: Params) returns (names: seq<string>)
    ensures names == AddNames(before, ps, params)
  {
    names := before;
    for i := 0 to |ps|
      invariant names == AddNames(before, ps[..i], params)
    {
      assert ps[..i + 1][..i] == ps[..i];
      if ps[i].schema.widget != CONTEXT_SLOT { continue; }
      var v := Get(params, ps[i].name);
      if IsSlotName(v) {
        if v.text !in names { names := names + [v.text]; }
      }
    }
    assert ps[..|ps|] == ps;
  }

  // ---- what is a name ----

  /** A slot field never names a variable by a number, a hex literal or nothing. */
  lemma NumbersAreNoNames(p: Property, params: Params, s: string)
    requires p.name in params && params[p.name] == Text(s)
    requires s == "" || "0x" <= s || IsAmount(s) || exists n: int :: s == IntToString(n)
    ensures Variable(p, params) == None
  {
    hide IsNumeric, IsAmount;
    if IsAmount(s) {
      AmountsAreNumbers(s);
    } else if n: int :| s == IntToString(n) {
      IntegersAreNumbers(n);
    }
  }

  /** A text that starts with a letter names a variable exactly in a slot field, unless it spells infinity. */
  lemma WordsAreNames(p: Property, params: Params, s: string)
    requires p.name in params && params[p.name] == Text(s) && s != "" && IsLetter(s[0])
    ensures Variable(p, params) == Some(s) <==> p.schema.widget == "context-slot" && Trim(s) != "Infinity"
    ensures Variable(p, params) != Some(s) ==> Variable(p, params) == None
  {
    hide IsNumeric;
    WordsAreNoNumbers(s);

  }

  // ---- the raw guard ----

  ghost predicate ParamsValid(nodes: seq<Node>, catalogue: Catalogue, other: OtherRules) {
    forall n :: n in nodes && n.stepTypeId in catalogue ==>
      var schema := catalogue[n.stepTypeId].schema.params;
      forall p :: p in schema.properties ==> FieldErrors(schema, p, n.params, Raw, other) == []
  }

  method ValidateRawParams(g: Graph, catalogue: Catalogue, other: OtherRules) returns (valid: bool)
    ensures valid <==> ParamsValid(g.nodes, catalogue, other)
  {
    var violations: seq<ValidationError> := [];
    for i := 0 to |g.nodes|
      invariant violations == [] <==> ParamsValid(g.nodes[..i], catalogue, other)
    {
      var n := g.nodes[i];
      assert g.nodes[..i + 1] == g.nodes[..i] + [n];
      if n.stepTypeId !in catalogue { continue; }
      var errors := ValidateParams(catalogue[n.stepTypeId].schema.params, n.params, Raw, other);
      violations := violations + errors;
    }
    assert g.nodes[..|g.nodes|] == g.nodes;
    valid := violations == [];
  }

  // ---- the service ----

  ghost predicate Encodable(g: Graph, catalogue: Catalogue, other: OtherRules) {
    SizeAccepted(g) && ParamsValid(g.nodes, catalogue, other)
  }

  /** What both encoders return for the slots they found, apart from the context plan. */
  ghost predicate IsEncoding(r: Result<EncodeResult, EncodeError>, g: Graph, catalogue: Catalogue,
      other: OtherRules, before: Slots, automationId: string)
  {
    var slots := Mapping(before, SlotNames(g.nodes, catalogue), automationId);
    && (r.Success? <==> Encodable(g, catalogue, other) && Compile(g, catalogue, slots).Success?)
    && (r.Success? ==> r.value.steps == Compile(g, catalogue, slots).value && r.value.ownerOnly == OwnerOnly(g))
  }

  class EncodingService {
    const catalogue: Catalogue
    const other: OtherRules

    constructor (catalogue: Catalogue, other: OtherRules)
      ensures this.catalogue == catalogue && this.other == other
    {
      this.catalogue, this.other := catalogue, other;
    }

    /** The part both encoders repeat up to the step table; the slots stay allocated even if the table fails. */
    method CompileWithSlots(row: VaultRow, automationId: string, g: Graph)
        returns (r: Result<(seq<Step>, seq<string>, SlotMapping), EncodeError>)
      modifies row
      ensures row.slots ==
              if Encodable(g, catalogue, other)
              then Assigned(old(row.slots), SlotNames(g.nodes, catalogue), automationId)
              else old(row.slots)
      ensures var slots := Mapping(old(row.slots), SlotNames(g.nodes, catalogue), automationId);
              && (r.Success? <==> Encodable(g, catalogue, other) && Compile(g, catalogue, slots).Success?)
              && (r.Success? ==> r.value == (Compile(g, catalogue, slots).value, SlotNames(g.nodes, catalogue), slots))
    {
      if |g.nodes| == 0 { return Failure(EmptyGraph); }
      if |g.nodes| > 256 { return Failure(TooManySteps); }
      var valid := ValidateRawParams(g, catalogue, other);
      if !valid { return Failure(InvalidParams); }

      var names := ExtractSlotNames(g, catalogue);
      var slots: SlotMapping := map[];
      if |names| > 0 { slots := row.AllocateSlots(names, automationId); }

      var order := BreadthFirst(g);
      if order.None? { return Failure(NoStartNode); }
      var steps :- StepsOf(g, order.value, order.value, catalogue, slots);
      r := Success((steps, names, slots));
    }

    method Encode(row: VaultRow, automationId: string, g: Graph, overrides: seq<Override>,
        read: Option<seq<Bytes>>)
        returns (r: Result<EncodeResult, EncodeError>)
      modifies row
      ensures row.slots ==
              if Encodable(g, catalogue, other)
              then Assigned(old(row.slots), SlotNames(g.nodes, catalogue), automationId)
              else old(row.slots)
      ensures IsEncoding(r, g, catalogue, other, old(row.slots), automationId)
      ensures r.Success? ==>
                r.value.functionName == if OwnerOnly(g) then "createOwnerAutomation" else "createAutomation"
      ensures r.Success? ==>
                var names := SlotNames(g.nodes, catalogue);
                var slots := Mapping(old(row.slots), names, automationId);
                && Walks(names, slots)
                && IsPlan(r.value.context, read.GetOr([]), 0, names, slots, overrides)
    {
      var ownerOnly := InferOwnerOnly(g);
      var compiled :- CompileWithSlots(row, automationId, g);
      var (steps, names, slots) := compiled;
      var functionName := if ownerOnly then "createOwnerAutomation" else "createAutomation";
      SlotNamesDistinct(g.nodes, catalogue);
      MappingOfNames(old(row.slots), names, automationId);
      var context := PlanForCreate(names, slots, overrides, read);
      r := Success(EncodeResult(functionName, steps, ownerOnly, context));
    }

    method EncodeUpdate(row: VaultRow, automationId: string, g: Graph, overrides: seq<Override>,
        read: Option<seq<Bytes>>)
        returns (r: Result<EncodeResult, EncodeError>)
      modifies row
      ensures row.slots ==
              if Encodable(g, catalogue, other)
              then Assigned(old(row.slots), SlotNames(g.nodes, catalogue), automationId)
              else old(row.slots)
      ensures IsEncoding(r, g, catalogue, other, old(row.slots), automationId)
      ensures r.Success? ==> r.value.functionName == "updateAutomationSteps"
      ensures r.Success? ==>
                var names := SlotNames(g.nodes, catalogue);
                var slots := Mapping(old(row.slots), names, automationId);
                && Walks(names, slots)
                && IsPlan(r.value.context, read.GetOr([]), |read.GetOr([])|, names, slots, overrides)
    {
      var ownerOnly := InferOwnerOnly(g);
      var compiled :- CompileWithSlots(row, automationId, g);
      var (steps, names, slots) := compiled;
      SlotNamesDistinct(g.nodes, catalogue);
      MappingOfNames(old(row.slots), names, automationId);
      var context := PlanForUpdate(names, slots, overrides, read);
      r := Success(EncodeResult("updateAutomationSteps", steps, ownerOnly, context));
    }
  }

  // ---- lemmas ----

  lemma {:induction false} AddNamesKeeps(names: seq<string>, ps: seq<Property>, params: Params)
    requires Distinct(names)
    ensures names <= AddNames(names, ps, params) && Distinct(AddNames(names, ps, params))
    ensures forall p ::
              p in ps && Variable(p, params).Some? ==> Variable(p, params).value in AddNames(names, ps, params)
  {
    if ps != [] {
      var front, last := ps[..|ps| - 1], ps[|ps| - 1];
      AddNamesKeeps(names, front, params);
      assert ps == front + [last];
    }
  }

  lemma {:induction false} SlotNamesDistinct(nodes: seq<Node>, catalogue: Catalogue)
    ensures Distinct(SlotNames(nodes, catalogue))
  {
    if nodes != [] {
      SlotNamesDistinct(nodes[..|nodes| - 1], catalogue);
      var n := nodes[|nodes| - 1];
      AddNamesKeeps(SlotNames(nodes[..|nodes| - 1], catalogue), PropertiesOf(n, catalogue), n.params);
    }
  }

  /** The variable in every slot field of every node is allocated. */
  lemma {:induction false} SlotNamesComplete(nodes: seq<Node>, catalogue: Catalogue, n: Node, p: Property)
    requires n in nodes && p in PropertiesOf(n, catalogue) && Variable(p, n.params).Some?
    ensures Variable(p, n.params).value in SlotNames(nodes, catalogue)
  {
    hide AddNames, Variable;
    var front, last := nodes[..|nodes| - 1], nodes[|nodes| - 1];
    SlotNamesDistinct(front, catalogue);
    AddNamesKeeps(SlotNames(front, catalogue), PropertiesOf(last, catalogue), last.params);
    assert nodes == front + [last];
    if n != last { SlotNamesComplete(front, catalogue, n, p); }
  }

  lemma {:induction false} AddedNames(names: seq<string>, ps: seq<Property>, params: Params, name: string)
    ensures name in AddNames(names, ps, params) <==>
            name in names || exists p :: p in ps && Variable(p, params) == Some(name)
  {
    hide Variable;
    if ps != [] {
      var front, last := ps[..|ps| - 1], ps[|ps| - 1];
      assert ps == front + [last];
      AddedNames(names, front, params, name);
    }
  }

  /** The names are the variables of the nodes' slot fields, each once. */
  lemma {:induction false} SlotNamesExactly(nodes: seq<Node>, catalogue: Catalogue, name: string)
    ensures Distinct(SlotNames(nodes, catalogue))
    ensures name in SlotNames(nodes, catalogue) <==>
            exists n, p :: n in nodes && p in PropertiesOf(n, catalogue) && Variable(p, n.params) == Some(name)
  {
    hide Variable, PropertiesOf, AddNames;
    SlotNamesDistinct(nodes, catalogue);
    if nodes != [] {
      var front, last := nodes[..|nodes| - 1], nodes[|nodes| - 1];
      assert nodes == front + [last];
      SlotNamesExactly(front, catalogue, name);
      AddedNames(SlotNames(front, catalogue), PropertiesOf(last, catalogue), last.params, name);
    }
  }

  lemma {:induction false} MappingOfNames(slots: Slots, names: seq<string>, creator: string)
    ensures forall name :: name in Mapping(slots, names, creator) <==> name in names
  {
    if names != [] {
      MappingOfNames(slots, names[..|names| - 1], creator);
      assert names == names[..|names| - 1] + [names[|names| - 1]];
    }
  }

  lemma MappingIsInjective(slots: Slots, names: seq<string>, creator: string)
    requires Dense(slots)
    ensures Injective(Mapping(slots, names, creator))
  {
    var mapping := Mapping(slots, names, creator);
    forall a, b | a in mapping && b in mapping && mapping[a] == mapping[b] ensures a == b {
      MappingInjective(slots, names, creator, a, b);
    }
  }

  /** Names that have their slots keep them: a later allocation of the same names gives the same mapping. */
  lemma MappingIsStable(before: Slots, later: Slots, names: seq<string>, creator: string, creator': string)
    requires Dense(before) && Dense(later) && Keeps(Assigned(before, names, creator), later)
    ensures Mapping(later, names, creator') == Mapping(before, names, creator)
  {
    hide Mapping, Assigned, Lookup, Dense, Keeps;
    var first, second := Mapping(before, names, creator), Mapping(later, names, creator');
    var given := Assigned(before, names, creator);
    AllocationSound(before, names, creator);
    AllocationSound(later, names, creator');
    forall name | name in names ensures first[name] == second[name] {
      KeptLookup(given, later, name);
      KeptLookup(later, Assigned(later, names, creator'), name);
    }
    assert first.Keys == second.Keys;
  }

  /** `encode` and `encodeUpdate` emit the same table for the same graph, even if other automations
      allocated slots in between. */
  lemma EncodersAgree(r: Result<EncodeResult, EncodeError>, s: Result<EncodeResult, EncodeError>, g: Graph,
      catalogue: Catalogue, other: OtherRules, before: Slots, id: string, later: Slots, id': string)
    requires Dense(before) && Dense(later) && Keeps(Assigned(before, SlotNames(g.nodes, catalogue), id), later)
    requires IsEncoding(r, g, catalogue, other, before, id) && IsEncoding(s, g, catalogue, other, later, id')
    ensures r.Success? <==> s.Success?
    ensures r.Success? ==> r.value.steps == s.value.steps && r.value.ownerOnly == s.value.ownerOnly
  {
    MappingIsStable(before, later, SlotNames(g.nodes, catalogue), id, id');
  }

  /** The plan either encoder makes of the context it read. */
  ghost predicate IsContextPlan(plan: ContextPlan, read: seq<Bytes>, names: seq<string>, slots: SlotMapping,
      overrides: seq<Override>)
    requires Walks(names, slots)
  {
    IsPlan(plan, read, 0, names, slots, overrides) || IsPlan(plan, read, |read|, names, slots, overrides)
  }

  /** Whichever encoder made the plan, whatever it read and whatever the vault holds by then: an allocated index belongs
      to its name, and lies inside the context afterwards exactly if a transaction is asked for or it did before. */
  lemma SlotsAreInside(plan: ContextPlan, read: seq<Bytes>, actual: seq<Bytes>, before: Slots,
      names: seq<string>, creator: string, overrides: seq<Override>, name: string)
    requires Dense(before) && Walks(names, Mapping(before, names, creator)) && name in Mapping(before, names, creator)
    requires IsContextPlan(plan, read, names, Mapping(before, names, creator), overrides)
    ensures var slots := Mapping(before, names, creator);
            && (slots[name] < |After(plan, actual)| <==> plan.calldata.Some? || slots[name] < |actual|)
            && (|read| <= |actual| ==> slots[name] < |After(plan, actual)|)
            && Lookup(Assigned(before, names, creator), name) == Some(slots[name])
  {
    hide IsPlan, Lookup, Walks;
    var slots := Mapping(before, names, creator);
    AllocationSound(before, names, creator);
    if IsPlan(plan, read, 0, names, slots, overrides) {
      InsideExactly(plan, read, actual, 0, names, slots, overrides, name);
    } else {
      InsideExactly(plan, read, actual, |read|, names, slots, overrides, name);
    }
  }

  /** The name of the variable a component of a node refers to. */
  function Reference(c: Component, params: Params, slots: SlotMapping): Option<string> {
    var v := Get(params, c.name);
    if c.kind == "uint32" && v.Text? && v.text in slots then Some(v.text) else None
  }

  lemma ReferenceEncoded(c: Component, params: Params, slots: SlotMapping, schema: ParamSchema)
    requires Reference(c, params, slots).Some?
    ensures EncodeParam(c, params, slots, schema) == Success(Number(slots[Reference(c, params, slots).value]))
  {
  }

  /** The data of a payload are the encoded parameters of its node. */
  lemma PayloadData(g: Graph, id: string, catalogue: Catalogue, slots: SlotMapping)
    requires PayloadOf(g, id, catalogue, slots).Success?
    ensures NodeOf(g.nodes, id).Some? && NodeOf(g.nodes, id).value.stepTypeId in catalogue
    ensures var node := NodeOf(g.nodes, id).value;
            var schema := catalogue[node.stepTypeId].schema;
            EncodeParams(schema.components, node.params, slots, schema.params)
              == Success(PayloadOf(g, id, catalogue, slots).value.data)
  {
  }

  /** Every reference to a slot, in any row of the table, is emitted as the slot's index. */
  lemma ReferencesAreIndices(g: Graph, catalogue: Catalogue, slots: SlotMapping, order: seq<string>,
      steps: seq<Step>, row: nat, k: nat)
    requires IsTable(g, catalogue, slots, order, steps) && row < |steps|
    ensures NodeOf(g.nodes, order[row]).Some? && NodeOf(g.nodes, order[row]).value.stepTypeId in catalogue
    ensures var node := NodeOf(g.nodes, order[row]).value;
            var cs, data := catalogue[node.stepTypeId].schema.components, steps[row].payload.data;
            && |data| == |cs|
            && (k < |cs| && Reference(cs[k], node.params, slots).Some? ==>
                  data[k] == Number(slots[Reference(cs[k], node.params, slots).value]))
  {
    assert IsRow(g, catalogue, slots, order, order[row], steps[row]);
    PayloadData(g, order[row], catalogue, slots);
    var node := NodeOf(g.nodes, order[row]).value;
    var schema := catalogue[node.stepTypeId].schema;
    if k < |schema.components| && Reference(schema.components[k], node.params, slots).Some? {
      ReferenceEncoded(schema.components[k], node.params, slots, schema.params);
    }
  }

  /** In the result of either encoder, whatever row: a parameter that names a variable of the graph is emitted as the
      index the variable owns, which is inside the context afterwards if a transaction is asked for or the context has
      not become shorter than what was read. */
  lemma EncodedIndexIsInside(r: Result<EncodeResult, EncodeError>, g: Graph, catalogue: Catalogue,
      other: OtherRules, before: Slots, id: string, read: seq<Bytes>, actual: seq<Bytes>,
      overrides: seq<Override>, row: nat, k: nat)
    requires Dense(before) && IsEncoding(r, g, catalogue, other, before, id) && r.Success? && row < |r.value.steps|
    requires Walks(SlotNames(g.nodes, catalogue), Mapping(before, SlotNames(g.nodes, catalogue), id))
    requires IsContextPlan(r.value.context, read, SlotNames(g.nodes, catalogue),
        Mapping(before, SlotNames(g.nodes, catalogue), id), overrides)
    ensures Order(g).Some? && row < |Order(g).value| && NodeOf(g.nodes, Order(g).value[row]).Some?
    ensures NodeOf(g.nodes, Order(g).value[row]).value.stepTypeId in catalogue
    ensures var node, names := NodeOf(g.nodes, Order(g).value[row]).value, SlotNames(g.nodes, catalogue);
            var cs, data := catalogue[node.stepTypeId].schema.components, r.value.steps[row].payload.data;
            |data| == |cs|
            && (k < |cs| && IsVariable(cs[k], node.params, names) ==>
                  && data[k].Number?
                  && Lookup(Assigned(before, names, id), Get(node.params, cs[k].name).text) == Some(data[k].number)
                  && (r.value.context.calldata.Some? || |read| <= |actual| ==>
                        0 <= data[k].number < |After(r.value.context, actual)|))
  {
    hide Compile, Mapping, Assigned, IsPlan, Lookup, ParamsValid, SizeAccepted, SlotNames, Order, Walks, IsTable;
    var names := SlotNames(g.nodes, catalogue);
    var slots := Mapping(before, names, id);
    CompiledTable(g, catalogue, slots);
    CompiledHasOrder(g, catalogue, slots);
    TableIsForOrder(g, catalogue, slots, Order(g).value, r.value.steps);
    ReferencesAreIndices(g, catalogue, slots, Order(g).value, r.value.steps, row, k);
    MappingOfNames(before, names, id);
    var node := NodeOf(g.nodes, Order(g).value[row]).value;
    var cs := catalogue[node.stepTypeId].schema.components;
    if k < |cs| && IsVariable(cs[k], node.params, names) {
      SlotsAreInside(r.value.context, read, actual, before, names, id, overrides, Get(node.params, cs[k].name).text);
    }
  }

  lemma CompiledHasOrder(g: Graph, catalogue: Catalogue, slots: SlotMapping)
    requires Compile(g, catalogue, slots).Success?
    ensures Order(g).Some?
  {
  }

  lemma TableIsForOrder(g: Graph, catalogue: Catalogue, slots: SlotMapping, order: seq<string>, steps: seq<Step>)
    requires IsTable(g, catalogue, slots, order, steps)
    ensures Order(g) == Some(order) && |steps| == |order|
  {
  }

  /** The parameter is a slot field's index type and holds one of the names. */
  predicate IsVariable(c: Component, params: Params, names: seq<string>) {
    var v := Get(params, c.name);
    c.kind == "uint32" && v.Text? && v.text in names
  }

  /** A variable named in a slot field always has an allocated index, so it is never read as a number. */
  lemma SlotFieldsAreAllocated(g: Graph, catalogue: Catalogue, before: Slots, automationId: string, n: Node,
      p: Property)
    requires n in g.nodes && p in PropertiesOf(n, catalogue) && Variable(p, n.params).Some?
    ensures Variable(p, n.params).value in Mapping(before, SlotNames(g.nodes, catalogue), automationId)
  {
    SlotNamesComplete(g.nodes, catalogue, n, p);
    MappingOfNames(before, SlotNames(g.nodes, catalogue), automationId);
  }
}
