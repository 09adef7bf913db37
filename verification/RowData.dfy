/** What the vault receives for a step's parameters, and which graphs compile. */
module RowData {
  import opened Compilation
  import opened ContextSlots
  import opened EditorGraph
  import opened Encoding
  import opened NumberLiterals
  import opened Numerals
  import opened Schema
  import opened StepTable
  import opened Validation
  import opened Wrappers

  /** What a set value is emitted as; nothing where the step fails. */
  ghost predicate EmitsSet(kind: string, v: Value, out: Value) {
    if kind == "uint32" && v.Text? then out.Number? && StartsWith(v.text, out.number)
    else if kind == "uint32" then v.Number? && out == v
    else if kind == "bool" && v.Text? then out == Boolean(v.text == "true")
    else out == v
  }

  /** What an unset value without a default is emitted as. */
  predicate EmitsZero(kind: string, v: Value, out: Value) {
    if kind == "address" then out == Text("0x0000000000000000000000000000000000000000")
    else if kind == "uint256" then out == Text("0")
    else if kind == "uint32" then out == Number(0)
    else if kind == "bool" then out == Boolean(false)
    else out == v
  }

  /** The default of the property of that name; undefined without one. */
  ghost predicate IsDefault(ps: seq<Property>, name: string, fallback: Value) {
    && (forall p :: p in ps && p.name == name ==> fallback == p.schema.fallback)
    && ((forall p :: p in ps ==> p.name != name) ==> fallback == Undefined)
  }

  /** A parameter of the given type: a slot's name gives its index, a set value itself, an unset one the default or
      the zero of the type. */
  ghost predicate Emits(c: Component, params: Params, slots: SlotMapping, ps: seq<Property>, out: Value) {
    var v := if c.name in params then params[c.name] else Undefined;
    if c.kind == "uint32" && v.Text? && v.text in slots then out == Number(slots[v.text])
    else if v != Undefined && v != Null && v != Text("") then EmitsSet(c.kind, v, out)
    else if !IsDefault(ps, c.name, Undefined) then
      exists fallback :: IsDefault(ps, c.name, fallback) && EmitsSet(c.kind, fallback, out)
    else EmitsZero(c.kind, v, out)
  }

  lemma DefaultIs(ps: Properties, name: string, fallback: Value)
    ensures IsDefault(ps, name, fallback) <==>
            var field := FieldOf(ps, name); fallback == if field.Some? then field.value.fallback else Undefined
  {
    if FieldOf(ps, name).Some? {
      var p := Property(name, FieldOf(ps, name).value);
      assert p in ps;
    }
  }

  /** Words have no leading integer. */
  lemma NoInteger(v: Value)
    requires v.Undefined? || v.Null? || v.Boolean? || v.Duration?
    ensures ParseInt(ToText(v)) == None
  {
    var s := ToText(v);
    assert s[0] in {'u', 'n', 't', 'f', '['};
    assert TrimStart(s) == s && DropSign(s) == s && DigitPrefix(s) == "";
  }

  lemma SetExactly(c: Component, v: Value, out: Value)
    ensures EmitsSet(c.kind, v, out) <==>
            if c.kind == "uint32" && !v.Number? then out.Number? && ParseInt(ToText(v)) == Some(out.number)
            else if c.kind == "bool" && v.Text? then out == Boolean(v.text == "true")
            else out == v
  {
    if v.Text? { ParseIntExactly(v.text); }
    if !v.Text? && !v.Number? { NoInteger(v); }
  }

  /** A parameter is encoded as what its type, its value, the slots and its default say, and fails otherwise. */
  lemma EncodeParamExactly(c: Component, params: Params, slots: SlotMapping, schema: ParamSchema, out: Value)
    ensures EncodeParam(c, params, slots, schema) == Success(out) <==>
            Emits(c, params, slots, schema.properties, out)
  {
    hide ParseInt, StartsWith, EmitsSet, IsDefault, FieldOf;
    var v, fallback := Get(params, c.name), SchemaDefault(schema, c.name);
    forall d: Value ensures IsDefault(schema.properties, c.name, d) <==> d == fallback {
      DefaultIs(schema.properties, c.name, d);
    }
    SetExactly(c, v, out);
    SetExactly(c, fallback, out);
  }

  // ---- rows ----

  /** The data of the node's row: every component as its parameter says. */
  ghost predicate IsData(n: Node, catalogue: Catalogue, slots: SlotMapping, data: seq<Value>) {
    && n.stepTypeId in catalogue
    && var schema := catalogue[n.stepTypeId].schema;
       && |data| == |schema.components|
       && forall k :: 0 <= k < |data| ==>
            Emits(schema.components[k], n.params, slots, schema.params.properties, data[k])
  }

  /** Every row of the table carries its node's parameters. */
  lemma RowDataExactly(g: Graph, catalogue: Catalogue, slots: SlotMapping, row: nat)
    requires SizeAccepted(g) && Compile(g, catalogue, slots).Success? && row < |Compile(g, catalogue, slots).value|
    ensures Order(g).Some? && row < |Order(g).value|
    ensures exists n :: n in g.nodes && n.id == Order(g).value[row]
                        && IsData(n, catalogue, slots, Compile(g, catalogue, slots).value[row].payload.data)
  {
    hide Jump, EncodeParam, EncodeParams, Order, Compile, Emits;
    CompiledTable(g, catalogue, slots);
    var id, step := Order(g).value[row], Compile(g, catalogue, slots).value[row];
    assert IsRow(g, catalogue, slots, Order(g).value, id, step);
    var n := NodeOf(g.nodes, id).value;
    var schema := catalogue[n.stepTypeId].schema;
    forall k | 0 <= k < |schema.components|
      ensures Emits(schema.components[k], n.params, slots, schema.params.properties, step.payload.data[k])
    {
      EncodeParamExactly(schema.components[k], n.params, slots, schema.params, step.payload.data[k]);
    }
    assert IsData(n, catalogue, slots, step.payload.data);
  }

  // ---- what compiles ----

  lemma {:induction false} EncodeParamsSucceeds(cs: seq<Component>, params: Params, slots: SlotMapping,
      schema: ParamSchema)
    ensures EncodeParams(cs, params, slots, schema).Success? <==>
            forall c :: c in cs ==> EncodeParam(c, params, slots, schema).Success?
  {
    hide EncodeParam;
    if cs != [] {
      var front, last := cs[..|cs| - 1], cs[|cs| - 1];
      assert cs == front + [last];
      EncodeParamsSucceeds(front, params, slots, schema);
    }
  }

  lemma {:induction false} StepsOfSucceeds(g: Graph, order: seq<string>, ids: seq<string>, catalogue: Catalogue,
      slots: SlotMapping)
    ensures StepsOf(g, order, ids, catalogue, slots).Success? <==>
            forall id :: id in ids ==> PayloadOf(g, id, catalogue, slots).Success?
  {
    hide PayloadOf, Jump;
    if ids != [] {
      var front, last := ids[..|ids| - 1], ids[|ids| - 1];
      assert ids == front + [last];
      StepsOfSucceeds(g, order, front, catalogue, slots);
    }
  }

  /** The node's type is known and each of its parameters can be emitted. */
  ghost predicate HasData(n: Node, catalogue: Catalogue, slots: SlotMapping) {
    && n.stepTypeId in catalogue
    && var schema := catalogue[n.stepTypeId].schema;
       forall c :: c in schema.components ==> exists out :: Emits(c, n.params, slots, schema.params.properties, out)
  }

  lemma PayloadSucceeds(g: Graph, n: Node, catalogue: Catalogue, slots: SlotMapping)
    requires NodeOf(g.nodes, n.id) == Some(n)
    ensures PayloadOf(g, n.id, catalogue, slots).Success? <==> HasData(n, catalogue, slots)
  {
    hide EncodeParam, EncodeParams, Emits;
    if n.stepTypeId in catalogue {
      var schema := catalogue[n.stepTypeId].schema;
      EncodeParamsSucceeds(schema.components, n.params, slots, schema.params);
      forall c, out
        ensures EncodeParam(c, n.params, slots, schema.params) == Success(out) <==>
                Emits(c, n.params, slots, schema.params.properties, out)
      {
        EncodeParamExactly(c, n.params, slots, schema.params, out);
      }
    }
  }

  lemma {:induction false} ReachedIsNode(g: Graph, start: string, id: string, n: nat)
    requires WellFormed(g) && start in Ids(g) && Reaches(g, start, id, n)
    ensures id in Ids(g)
  {
    if n > 0 { var e :| e in g.edges && e.target == id && Reaches(g, start, e.source, n - 1); }
  }

  /** A graph compiles exactly if it has a start node and the data of every node reachable from it can be emitted. */
  lemma CompilesExactly(g: Graph, catalogue: Catalogue, slots: SlotMapping)
    requires WellFormed(g)
    ensures Compile(g, catalogue, slots).Success? <==>
            && StartId(g).Some?
            && forall n :: n in g.nodes && Reachable(g, StartId(g).value, n.id) ==> HasData(n, catalogue, slots)
  {
    hide PayloadOf, HasData, StepsOf, Bfs, StartNodes;
    if StartId(g).Some? {
      var start, order := StartId(g).value, Order(g).value;
      OrderIsReachableSet(g);
      StepsOfSucceeds(g, order, order, catalogue, slots);
      forall n | n in g.nodes
        ensures PayloadOf(g, n.id, catalogue, slots).Success? <==> HasData(n, catalogue, slots)
      {
        NodeOfUnique(g.nodes, n);
        PayloadSucceeds(g, n, catalogue, slots);
      }
      forall id | id in order ensures exists n :: n in g.nodes && n.id == id {
        var k: nat :| Reaches(g, start, id, k);
        StartIsNode(g);
        ReachedIsNode(g, start, id, k);
      }
    }
  }

  lemma StartIsNode(g: Graph)
    requires StartId(g).Some?
    ensures StartId(g).value in Ids(g)
  {
    FirstStart(g, g.nodes);
  }

  // ---- what the encoders return ----

  /** Either encoder succeeds exactly for a graph of 1 to 256 nodes with valid parameters, a start node, and data for
      every node reachable from it. */
  lemma EncodesExactly(r: Result<EncodeResult, EncodeError>, g: Graph, catalogue: Catalogue, other: OtherRules,
      before: Slots, id: string)
    requires WellFormed(g) && IsEncoding(r, g, catalogue, other, before, id)
    ensures r.Success? <==>
            && 0 < |g.nodes| <= 256 && ParamsValid(g.nodes, catalogue, other) && StartId(g).Some?
            && forall n :: n in g.nodes && Reachable(g, StartId(g).value, n.id) ==>
                 HasData(n, catalogue, Mapping(before, SlotNames(g.nodes, catalogue), id))
  {
    hide Compile, Mapping, ParamsValid, SlotNames, HasData, StartId;
    CompilesExactly(g, catalogue, Mapping(before, SlotNames(g.nodes, catalogue), id));
  }

  /** A row of either encoder's table carries its node's parameters and leads along its node's edges. */
  lemma EncodedRow(r: Result<EncodeResult, EncodeError>, g: Graph, catalogue: Catalogue, other: OtherRules,
      before: Slots, id: string, row: nat)
    requires WellFormed(g) && IsEncoding(r, g, catalogue, other, before, id)
    requires r.Success? && row < |r.value.steps|
    ensures Order(g).Some? && row < |Order(g).value|
    ensures var order, step := Order(g).value, r.value.steps[row];
            exists n :: n in g.nodes && n.id == order[row]
              && RowOfNode(g, catalogue, order, n, step)
              && IsData(n, catalogue, Mapping(before, SlotNames(g.nodes, catalogue), id), step.payload.data)
  {
    hide Compile, Mapping, ParamsValid, SlotNames, IsData, RowOfNode, Order;
    var slots := Mapping(before, SlotNames(g.nodes, catalogue), id);
    RowDataExactly(g, catalogue, slots, row);
    RowsFollowEdges(g, catalogue, slots, row);
  }
}
