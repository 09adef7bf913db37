/** From the numbered graph to the vault's step table. */
module StepTable {
  import opened ContextSlots
  import opened EditorGraph
  import opened NumberLiterals
  import opened Schema
  import opened Wrappers

  const DONE: nat := 0xffff_ffff
  const ZERO_ADDRESS := "0x0000000000000000000000000000000000000000"

  /** A catalogue entry: where the step runs and how its parameters are laid out. */
  datatype StepType = StepType(contractAddress: string, selector: string, schema: StepSchema)
  type Catalogue = map<string, StepType>

  /** `data` holds the values handed to the ABI coder, context slots already resolved to their index. */
  datatype Payload = Payload(target: string, selector: string, data: seq<Value>)
  datatype Step = Step(kind: NodeKind, payload: Payload, nextOnTrue: nat, nextOnFalse: nat)

  datatype EncodeError =
    | EmptyGraph | TooManySteps | InvalidParams | NoStartNode
    | UnknownStepType(id: string) | NotANode(id: string) | UnknownVariable(field: string)

  function SchemaDefault(schema: ParamSchema, name: string): Value {
    var field := FieldOf(schema.properties, name);
    if field.Some? then field.value.fallback else Undefined
  }

  function KindDefault(kind: string): Value {
    if kind == "address" then Text(ZERO_ADDRESS)
    else if kind == "uint256" then Text("0")
    else if kind == "uint32" then Number(0)
    else if kind == "bool" then Boolean(false)
    else Undefined
  }

  /** A uint32 field that holds the name of a context slot stands for the slot's index. */
  function ResolveSlot(c: Component, value: Value, slots: SlotMapping): Value {
    if c.kind == "uint32" && value.Text? && value.text in slots then Number(slots[value.text]) else value
  }

  function EncodeParam(c: Component, params: Params, slots: SlotMapping,
      schema: ParamSchema): Result<Value, EncodeError>
  {
    var resolved := ResolveSlot(c, Get(params, c.name), slots);
    var fallback := SchemaDefault(schema, c.name);
    var useKindDefault := resolved.IsEmpty() && fallback.Undefined? && !KindDefault(c.kind).Undefined?;
    var value := if resolved.IsEmpty() && !fallback.Undefined? then fallback else resolved;
    if useKindDefault then Success(KindDefault(c.kind))
    else if c.kind == "uint32" && !value.Number? then
      var n := ParseInt(ToText(value));
      if n.None? then Failure(UnknownVariable(c.name)) else Success(Number(n.value))
    else if c.kind == "bool" && value.Text? then Success(Boolean(value.text == "true"))
    else Success(value)
  }

  function EncodeParams(cs: seq<Component>, params: Params, slots: SlotMapping,
      schema: ParamSchema): (r: Result<seq<Value>, EncodeError>)
    ensures r.Success? ==> |r.value| == |cs|
    ensures r.Success? ==>
              forall i :: 0 <= i < |cs| ==> EncodeParam(cs[i], params, slots, schema) == Success(r.value[i])
  {
    if cs == [] then Success([])
    else
      var front :- EncodeParams(cs[..|cs| - 1], params, slots, schema);
      var last :- EncodeParam(cs[|cs| - 1], params, slots, schema);
      Success(front + [last])
  }

  /** `new Map(nodes.map(n => [n.id, n])).get(id)`: the last node of that id. */
  function NodeOf(nodes: seq<Node>, id: string): (n: Option<Node>)
    ensures n.Some? ==> n.value in nodes && n.value.id == id
  {
    if nodes == [] then None
    else if nodes[|nodes| - 1].id == id then Some(nodes[|nodes| - 1])
    else NodeOf(nodes[..|nodes| - 1], id)
  }

  function IndexOf(order: seq<string>, id: string): (i: Option<nat>)
    ensures i.None? <==> id !in order
    ensures i.Some? ==> i.value < |order| && order[i.value] == id
  {
    if order == [] then None
    else if order[|order| - 1] == id then Some(|order| - 1)
    else
      assert order == order[..|order| - 1] + [order[|order| - 1]];
      IndexOf(order[..|order| - 1], id)
  }



  /** The first outgoing edge with the handle. */
  function FindEdge(es: seq<Edge>, handle: Handle): (e: Option<Edge>)
    ensures e.Some? ==> e.value in es && e.value.handle == handle
  {
    if es == [] then None
    else if es[0].handle == handle then Some(es[0])
    else FindEdge(es[1..], handle)
  }

  function Successor(g: Graph, id: string, handle: Handle): Option<string> {
    var edge := FindEdge(OutEdges(g.edges, id), handle);
    if edge.Some? then Some(edge.value.target) else None
  }

  /** The jump of a step: DONE without an edge, and the `?? DONE` fallback for an unnumbered target. */
  function Jump(g: Graph, order: seq<string>, id: string, handle: Handle): nat {
    var next := Successor(g, id, handle);
    if next.None? then DONE else IndexOf(order, next.value).GetOr(DONE)
  }

  /** What a node does, wherever it ends up in the table. */
  function PayloadOf(g: Graph, id: string, catalogue: Catalogue, slots: SlotMapping): Result<Payload, EncodeError> {
    var node := NodeOf(g.nodes, id);
    if node.None? then Failure(NotANode(id))
    else if node.value.stepTypeId !in catalogue then Failure(UnknownStepType(node.value.stepTypeId))
    else
      var t := catalogue[node.value.stepTypeId];
      var data :- EncodeParams(t.schema.components, node.value.params, slots, t.schema.params);
      Success(Payload(t.contractAddress, t.selector, data))
  }

  function StepOf(g: Graph, order: seq<string>, id: string, catalogue: Catalogue,
      slots: SlotMapping): Result<Step, EncodeError>
  {
    var payload :- PayloadOf(g, id, catalogue, slots);
    var kind := NodeOf(g.nodes, id).value.kind;
    Success(if kind == Condition then Step(kind, payload, Jump(g, order, id, OnTrue), Jump(g, order, id, OnFalse))
            else Step(kind, payload, Jump(g, order, id, Out), DONE))
  }

  /** `ids.map(...)`, failing at the first step that throws. */
  function StepsOf(g: Graph, order: seq<string>, ids: seq<string>, catalogue: Catalogue,
      slots: SlotMapping): (r: Result<seq<Step>, EncodeError>)
    ensures r.Success? ==> |r.value| == |ids|
    ensures r.Success? ==>
              forall i :: 0 <= i < |ids| ==> StepOf(g, order, ids[i], catalogue, slots) == Success(r.value[i])
  {
    if ids == [] then Success([])
    else
      var front :- StepsOf(g, order, ids[..|ids| - 1], catalogue, slots);
      var last :- StepOf(g, order, ids[|ids| - 1], catalogue, slots);
      Success(front + [last])
  }

  /** The step table of a graph. */
  function Compile(g: Graph, catalogue: Catalogue, slots: SlotMapping): Result<seq<Step>, EncodeError> {
    var order := Order(g);
    if order.None? then Failure(NoStartNode) else StepsOf(g, order.value, order.value, catalogue, slots)
  }

  /** The size limits checked before anything else. */
  predicate SizeAccepted(g: Graph) { 0 < |g.nodes| <= 256 }

  // ---- shape of the table ----

  lemma DistinctFit(s: seq<string>, bound: seq<Node>)
    requires Distinct(s) && forall id :: id in s ==> NodeOf(bound, id).Some?
    ensures |s| <= |bound|
  {
    var ids := set n | n in bound :: n.id;
    forall id | id in s ensures id in ids {
      var n := NodeOf(bound, id).value;
      assert n in bound && n.id == id;
    }
    DistinctSize(s);
    IdCount(bound);
    Smaller((set id | id in s), ids);
  }

  lemma {:induction false} DistinctSize(s: seq<string>)
    requires Distinct(s)
    ensures |set id | id in s| == |s|
  {
    if s != [] {
      var front, last := s[..|s| - 1], s[|s| - 1];
      DistinctSize(front);
      assert s == front + [last];
      assert (set id | id in s) == (set id | id in front) + {last};
    }
  }

  lemma {:induction false} IdCount(nodes: seq<Node>)
    ensures |set n | n in nodes :: n.id| <= |nodes|
  {
    if nodes != [] {
      var front, last := nodes[..|nodes| - 1], nodes[|nodes| - 1];
      IdCount(front);
      assert nodes == front + [last];
      assert (set n | n in nodes :: n.id) == (set n | n in front :: n.id) + {last.id};
    }
  }

  /** `steps` is a table for `g`: row i belongs to the i-th node of the order. */
  ghost predicate IsTable(g: Graph, catalogue: Catalogue, slots: SlotMapping, order: seq<string>, steps: seq<Step>) {
    && Order(g) == Some(order) && 0 < |steps| == |order| <= 256
    && forall i :: 0 <= i < |order| ==> IsRow(g, catalogue, slots, order, order[i], steps[i])
  }

  /** What a row says about its node. */
  ghost predicate IsRow(g: Graph, catalogue: Catalogue, slots: SlotMapping, order: seq<string>, id: string,
      step: Step)
  {
    && PayloadOf(g, id, catalogue, slots) == Success(step.payload)
    && NodeOf(g.nodes, id).Some? && NodeOf(g.nodes, id).value.kind == step.kind
    && step.nextOnTrue == Jump(g, order, id, if step.kind == Condition then OnTrue else Out)
    && step.nextOnFalse == if step.kind == Condition then Jump(g, order, id, OnFalse) else DONE
  }

  /** There are no more rows than nodes, so no row number is DONE. */
  lemma CompiledTable(g: Graph, catalogue: Catalogue, slots: SlotMapping)
    requires SizeAccepted(g) && Compile(g, catalogue, slots).Success?
    ensures IsTable(g, catalogue, slots, Order(g).value, Compile(g, catalogue, slots).value)
  {
    hide Jump, Order, EncodeParams, OutEdges;
    var order := Order(g).value;
    OrderIsReachableSet(g);
    forall i | 0 <= i < |order|
      ensures IsRow(g, catalogue, slots, order, order[i], Compile(g, catalogue, slots).value[i])
    {
      assert StepOf(g, order, order[i], catalogue, slots) == Success(Compile(g, catalogue, slots).value[i]);
    }
    forall id | id in order ensures NodeOf(g.nodes, id).Some? {
      var i :| 0 <= i < |order| && order[i] == id;
      assert IsRow(g, catalogue, slots, order, order[i], Compile(g, catalogue, slots).value[i]);
    }
    DistinctFit(order, g.nodes);
  }

  /** A jump is DONE exactly where the node has no such edge; otherwise it is the number of the edge's target.
      The `?? DONE` fallback therefore never fires. */
  lemma JumpsAreNumbers(g: Graph, id: string, handle: Handle)
    requires Order(g).Some? && id in Order(g).value && |Order(g).value| <= 256
    ensures var order, next := Order(g).value, Successor(g, id, handle);
            && (Jump(g, order, id, handle) == DONE <==> next.None?)
            && (next.Some? ==> Jump(g, order, id, handle) < |order| && order[Jump(g, order, id, handle)] == next.value)
  {
    OrderIsReachableSet(g);
  }

  // ---- the table, read off the graph ----

  /** Edge k is the node's first edge with the handle. */
  ghost predicate IsBranch(g: Graph, id: string, handle: Handle, k: nat) {
    && k < |g.edges| && g.edges[k].source == id && g.edges[k].handle == handle
    && forall j :: 0 <= j < k ==> g.edges[j].source != id || g.edges[j].handle != handle
  }

  /** `next` is the row of the target of the node's first edge with the handle, or uint32 max if it has none. */
  ghost predicate LeadsTo(g: Graph, order: seq<string>, id: string, handle: Handle, next: nat) {
    && (next == 0xffff_ffff <==> forall e :: e in g.edges ==> e.source != id || e.handle != handle)
    && forall k: nat :: IsBranch(g, id, handle, k) ==> next < |order| && order[next] == g.edges[k].target
  }

  lemma {:induction false} BranchIsFound(es: seq<Edge>, id: string, handle: Handle, k: nat)
    requires k < |es| && es[k].source == id && es[k].handle == handle
    requires forall j :: 0 <= j < k ==> es[j].source != id || es[j].handle != handle
    ensures FindEdge(OutEdges(es, id), handle) == Some(es[k])
  {
    var front, last := es[..|es| - 1], es[|es| - 1];
    if k < |es| - 1 {
      BranchIsFound(front, id, handle, k);
      FirstStays(OutEdges(front, id), OutEdges(es, id), handle);
    } else {
      assert OutEdges(es, id) == OutEdges(front, id) + [last];
      forall e | e in OutEdges(front, id) ensures e.handle != handle {
        var j :| 0 <= j < |front| && front[j] == e;
      }
      FoundLast(OutEdges(front, id), last);
    }
  }

  lemma {:induction false} FindsSome(es: seq<Edge>, e: Edge)
    requires e in es
    ensures FindEdge(es, e.handle).Some?
  {
    if es[0].handle != e.handle { FindsSome(es[1..], e); }
  }

  lemma {:induction false} FirstStays(a: seq<Edge>, b: seq<Edge>, handle: Handle)
    requires a <= b && FindEdge(a, handle).Some?
    ensures FindEdge(b, handle) == FindEdge(a, handle)
  {
    if a[0].handle != handle { FirstStays(a[1..], b[1..], handle); }
  }

  lemma {:induction false} FoundLast(front: seq<Edge>, last: Edge)
    requires forall e :: e in front ==> e.handle != last.handle
    ensures FindEdge(front + [last], last.handle) == Some(last)
  {
    if front != [] {
      assert (front + [last])[1..] == front[1..] + [last];
      FoundLast(front[1..], last);
    }
  }

  /** The walk goes on along the node's first edge with the handle, and ends if it has none. */
  lemma SuccessorIsBranch(g: Graph, id: string, handle: Handle)
    ensures Successor(g, id, handle).None? <==> forall e :: e in g.edges ==> e.source != id || e.handle != handle
    ensures forall k: nat :: IsBranch(g, id, handle, k) ==> Successor(g, id, handle) == Some(g.edges[k].target)
  {
    forall k: nat | IsBranch(g, id, handle, k)
      ensures FindEdge(OutEdges(g.edges, id), handle) == Some(g.edges[k])
    {
      BranchIsFound(g.edges, id, handle, k);
    }
    if e :| e in g.edges && e.source == id && e.handle == handle {
      FindsSome(OutEdges(g.edges, id), e);
    }
  }

  lemma JumpLeads(g: Graph, id: string, handle: Handle)
    requires Order(g).Some? && id in Order(g).value && |Order(g).value| <= 256
    ensures LeadsTo(g, Order(g).value, id, handle, Jump(g, Order(g).value, id, handle))
  {
    JumpsAreNumbers(g, id, handle);
    SuccessorIsBranch(g, id, handle);
  }

  /** The row has the node's kind, its type's contract and selector, and leads along the node's edges. */
  ghost predicate RowOfNode(g: Graph, catalogue: Catalogue, order: seq<string>, n: Node, step: Step) {
    && n.stepTypeId in catalogue && step.kind == n.kind
    && step.payload.target == catalogue[n.stepTypeId].contractAddress
    && step.payload.selector == catalogue[n.stepTypeId].selector
    && if n.kind == Condition
       then LeadsTo(g, order, n.id, OnTrue, step.nextOnTrue) && LeadsTo(g, order, n.id, OnFalse, step.nextOnFalse)
       else LeadsTo(g, order, n.id, Out, step.nextOnTrue) && step.nextOnFalse == 0xffff_ffff
  }

  /** Every row is that of its node. */
  lemma RowsFollowEdges(g: Graph, catalogue: Catalogue, slots: SlotMapping, row: nat)
    requires SizeAccepted(g) && Compile(g, catalogue, slots).Success? && row < |Compile(g, catalogue, slots).value|
    ensures Order(g).Some? && row < |Order(g).value|
    ensures var order, step := Order(g).value, Compile(g, catalogue, slots).value[row];
            exists n :: n in g.nodes && n.id == order[row] && RowOfNode(g, catalogue, order, n, step)
  {
    hide Jump, LeadsTo, EncodeParams, Order, Compile;
    CompiledTable(g, catalogue, slots);
    var order := Order(g).value;
    var step := Compile(g, catalogue, slots).value[row];
    assert IsRow(g, catalogue, slots, order, order[row], step);
    var n := NodeOf(g.nodes, order[row]).value;
    JumpLeads(g, n.id, OnTrue);
    JumpLeads(g, n.id, OnFalse);
    JumpLeads(g, n.id, Out);
  }
}
