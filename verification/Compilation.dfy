/** The step table means what the graph means. */
module Compilation {
  import opened ContextSlots
  import opened EditorGraph
  import opened Schema
  import opened StepTable
  import opened VaultInterpreter
  import opened Wrappers

  // ---- the reference meaning: walking the graph along its edges ----

  function Follow<C>(next: Option<string>, ctx: C): Config<string, C> {
    if next.None? then Finished(ctx) else At(next.value, ctx)
  }

  function GraphStep<C>(m: Machine<C>, g: Graph, catalogue: Catalogue, slots: SlotMapping,
      c: Config<string, C>): Config<string, C>
  {
    if !c.At? then c
    else
      var payload := PayloadOf(g, c.location, catalogue, slots);
      if payload.Failure? then Reverted
      else
        match NodeOf(g.nodes, c.location).value.kind
        case Condition =>
          (match m.check(payload.value, c.ctx)
           case None => Reverted
           case Some(met) => Follow(Successor(g, c.location, if met then OnTrue else OnFalse), c.ctx))
        case Action =>
          match m.act(payload.value, c.ctx)
          case None => Reverted
          case Some(ctx) => Follow(Successor(g, c.location, Out), ctx)
  }

  function GraphRun<C>(m: Machine<C>, g: Graph, catalogue: Catalogue, slots: SlotMapping, c: Config<string, C>,
      n: nat): Config<string, C>
    decreases n
  {
    if n == 0 then c else GraphRun(m, g, catalogue, slots, GraphStep(m, g, catalogue, slots, c), n - 1)
  }

  /** Running the graph as an automation: its start node is the trigger. */
  ghost function GraphOutcome<C>(m: Machine<C>, g: Graph, catalogue: Catalogue, slots: SlotMapping,
      active: bool, ownerOnly: bool, byOwner: bool, ctx: C): Outcome<C>
    requires StartId(g).Some? && PayloadOf(g, StartId(g).value, catalogue, slots).Success?
  {
    var start, refusal := StartId(g).value, Refusal(active, ownerOnly, byOwner);
    if refusal.Some? then Failed(refusal.value)
    else
      var end := GraphRun(m, g, catalogue, slots, At(start, ctx), 256);
      var kind, trigger := NodeOf(g.nodes, start).value.kind, PayloadOf(g, start, catalogue, slots).value;
      Concluded(m, kind, trigger, ownerOnly, byOwner, ctx, end)
  }

  // ---- simulation ----

  /** The table is at the number of the node the walk is at, with the same context. */
  ghost predicate Matches<C>(order: seq<string>, walk: Config<string, C>, table: Config<nat, C>) {
    match walk
    case At(id, ctx) => table.At? && table.location < |order| && order[table.location] == id && table.ctx == ctx
    case Finished(ctx) => table == Finished(ctx)
    case Reverted => table == Reverted
  }

  lemma GotoMatchesFollow<C>(g: Graph, id: string, handle: Handle, ctx: C)
    requires Order(g).Some? && id in Order(g).value && |Order(g).value| <= 256
    ensures Matches(Order(g).value,
                    Follow(Successor(g, id, handle), ctx),
                    Goto(Jump(g, Order(g).value, id, handle), ctx))
  {
    JumpsAreNumbers(g, id, handle);
  }

  lemma StepSimulates<C>(m: Machine<C>, g: Graph, catalogue: Catalogue, slots: SlotMapping, order: seq<string>,
      steps: seq<Step>, walk: Config<string, C>, table: Config<nat, C>)
    requires IsTable(g, catalogue, slots, order, steps) && Matches(order, walk, table)
    ensures Matches(order, GraphStep(m, g, catalogue, slots, walk), TableStep(m, steps, table))
  {
    if walk.At? {
      var id, step := walk.location, steps[table.location];
      assert IsRow(g, catalogue, slots, order, order[table.location], step);
      if step.kind == Condition {
        GotoMatchesFollow(g, id, OnTrue, walk.ctx);
        GotoMatchesFollow(g, id, OnFalse, walk.ctx);
      } else if m.act(step.payload, walk.ctx).Some? {
        GotoMatchesFollow(g, id, Out, m.act(step.payload, walk.ctx).value);
      }
    }
  }

  lemma {:induction false} RunSimulates<C>(m: Machine<C>, g: Graph, catalogue: Catalogue, slots: SlotMapping,
      order: seq<string>, steps: seq<Step>, walk: Config<string, C>, table: Config<nat, C>, n: nat)
    requires IsTable(g, catalogue, slots, order, steps) && Matches(order, walk, table)
    ensures Matches(order, GraphRun(m, g, catalogue, slots, walk, n), TableRun(m, steps, table, n))
    decreases n
  {
    if n > 0 {
      StepSimulates(m, g, catalogue, slots, order, steps, walk, table);
      var walk', table' := GraphStep(m, g, catalogue, slots, walk), TableStep(m, steps, table);
      RunSimulates(m, g, catalogue, slots, order, steps, walk', table', n - 1);
    }
  }

  /** After any number of steps, cycles included, the table is where the walk from the start node is. */
  lemma CompilationPreservesMeaning<C>(m: Machine<C>, g: Graph, catalogue: Catalogue, slots: SlotMapping,
      ctx: C, n: nat)
    requires SizeAccepted(g) && Compile(g, catalogue, slots).Success?
    ensures Matches(Order(g).value,
                    GraphRun(m, g, catalogue, slots, At(StartId(g).value, ctx), n),
                    TableRun(m, Compile(g, catalogue, slots).value, At(0, ctx), n))
  {
    CompiledTable(g, catalogue, slots);
    OrderIsReachableSet(g);
    var order, steps := Order(g).value, Compile(g, catalogue, slots).value;
    RunSimulates(m, g, catalogue, slots, order, steps, At(StartId(g).value, ctx), At(0, ctx), n);
  }

  lemma StartRow(g: Graph, catalogue: Catalogue, slots: SlotMapping)
    requires SizeAccepted(g) && Compile(g, catalogue, slots).Success?
    ensures StartId(g).Some? && Compile(g, catalogue, slots).value != []
    ensures IsRow(g, catalogue, slots, Order(g).value, StartId(g).value, Compile(g, catalogue, slots).value[0])
  {
    CompiledTable(g, catalogue, slots);
    OrderIsReachableSet(g);
    assert IsRow(g, catalogue, slots, Order(g).value, Order(g).value[0], Compile(g, catalogue, slots).value[0]);
  }

  /** The vault's execution of the table ends as the walk does, whoever calls and whatever flags are stored:
      same context with the trigger's update, same reason to revert. */
  lemma ExecutionIsGraphWalk<C>(m: Machine<C>, g: Graph, catalogue: Catalogue, slots: SlotMapping, active: bool,
      ownerOnly: bool, byOwner: bool, ctx: C)
    requires SizeAccepted(g) && Compile(g, catalogue, slots).Success?
    ensures StartId(g).Some? && PayloadOf(g, StartId(g).value, catalogue, slots).Success?
    ensures TableOutcome(m, Automation(active, ownerOnly, Compile(g, catalogue, slots).value), byOwner, ctx)
            == GraphOutcome(m, g, catalogue, slots, active, ownerOnly, byOwner, ctx)
  {
    StartRow(g, catalogue, slots);
    CompilationPreservesMeaning(m, g, catalogue, slots, ctx, MAX_STEPS);
    SameVerdict(Order(g).value,
                GraphRun(m, g, catalogue, slots, At(StartId(g).value, ctx), MAX_STEPS),
                TableRun(m, Compile(g, catalogue, slots).value, At(0, ctx), MAX_STEPS));
  }

  lemma SameVerdict<C>(order: seq<string>, walk: Config<string, C>, table: Config<nat, C>)
    requires Matches(order, walk, table)
    ensures Verdict(walk) == Verdict(table)
  {
  }

  // ---- acceptance by the vault ----

  lemma {:induction false} FirstStart(g: Graph, nodes: seq<Node>)
    requires StartNodes(g, nodes) != []
    ensures StartNodes(g, nodes)[0] in nodes
  {
    var front, last := nodes[..|nodes| - 1], nodes[|nodes| - 1];
    if StartNodes(g, front) != [] { FirstStart(g, front); }
  }

  lemma {:induction false} NodeOfUnique(nodes: seq<Node>, n: Node)
    requires n in nodes && forall i, j :: 0 <= i < j < |nodes| ==> nodes[i].id != nodes[j].id
    ensures NodeOf(nodes, n.id) == Some(n)
  {
    var front, last := nodes[..|nodes| - 1], nodes[|nodes| - 1];
    assert nodes == front + [last];
    if last.id != n.id {
      NodeOfUnique(front, n);
    } else {
      var i :| 0 <= i < |nodes| && nodes[i] == n;
    }
  }

  /** Step 0 is the first start node. */
  lemma FirstStepIsStart(g: Graph, catalogue: Catalogue, slots: SlotMapping)
    requires WellFormed(g) && SizeAccepted(g) && Compile(g, catalogue, slots).Success?
    ensures StartNodes(g, g.nodes) != [] && Compile(g, catalogue, slots).value[0].kind == StartNodes(g, g.nodes)[0].kind
  {
    StartRow(g, catalogue, slots);
    FirstStart(g, g.nodes);
    NodeOfUnique(g.nodes, StartNodes(g, g.nodes)[0]);
  }

  /** An owner-only automation starts with an action; with a single start node that is what owner-only means. */
  lemma OwnerOnlyStartsWithAction(g: Graph, catalogue: Catalogue, slots: SlotMapping)
    requires WellFormed(g) && SizeAccepted(g) && Compile(g, catalogue, slots).Success?
    ensures OwnerOnly(g) ==> Compile(g, catalogue, slots).value[0].kind == Action
    ensures |StartNodes(g, g.nodes)| == 1 ==> (OwnerOnly(g) <==> Compile(g, catalogue, slots).value[0].kind == Action)
  {
    FirstStepIsStart(g, catalogue, slots);
  }

  ghost predicate Callable(steps: seq<Step>) {
    forall i :: 0 <= i < |steps| ==> CallableStep(steps[i])
  }

  /** A contract and a selector that are not zero. */
  predicate CallableStep(step: Step) {
    && step.payload.target != "0x0000000000000000000000000000000000000000"
    && step.payload.selector != "0x00000000"
  }

  /** Whatever flag the vault validates with, it accepts the emitted table exactly if all steps are callable
      and the flag is owner-only or the first start node is a condition. */
  lemma VaultAcceptsUnder(g: Graph, catalogue: Catalogue, slots: SlotMapping, flag: bool)
    requires WellFormed(g) && SizeAccepted(g) && Compile(g, catalogue, slots).Success?
    ensures var steps, starts := Compile(g, catalogue, slots).value, StartNodes(g, g.nodes);
            && starts != []
            && (ValidSteps(steps, flag) <==> Callable(steps) && (flag || starts[0].kind == Condition))
  {
    hide Compile, WellFormed;
    CompiledTable(g, catalogue, slots);
    FirstStepIsStart(g, catalogue, slots);
    RowsAreValid(g, catalogue, slots, Order(g).value, Compile(g, catalogue, slots).value);
  }

  /** A creation carries the encoder's own flag: accepted exactly if all steps are callable and the graph has
      one start node or its first start node is a condition. */
  lemma VaultAcceptsExactly(g: Graph, catalogue: Catalogue, slots: SlotMapping)
    requires WellFormed(g) && SizeAccepted(g) && Compile(g, catalogue, slots).Success?
    ensures var steps, starts := Compile(g, catalogue, slots).value, StartNodes(g, g.nodes);
            && starts != []
            && (ValidSteps(steps, OwnerOnly(g)) <==> Callable(steps) && (|starts| == 1 || starts[0].kind == Condition))
  {
    hide Compile, WellFormed, ValidSteps, Callable;
    VaultAcceptsUnder(g, catalogue, slots, OwnerOnly(g));
  }

  /** An update carries no flag and is validated with the stored one: accepted exactly if all steps are callable
      and the automation is owner-only or the first start node is a condition. */
  lemma VaultAcceptsUpdateExactly(g: Graph, catalogue: Catalogue, slots: SlotMapping, stored: Automation)
    requires WellFormed(g) && SizeAccepted(g) && Compile(g, catalogue, slots).Success?
    ensures var steps, starts := Compile(g, catalogue, slots).value, StartNodes(g, g.nodes);
            && starts != []
            && (UpdateSteps(stored, steps).Success? <==>
                  Callable(steps) && (stored.ownerOnly || starts[0].kind == Condition))
            && (UpdateSteps(stored, steps).Success? ==> UpdateSteps(stored, steps).value == stored.(steps := steps))
  {
    hide Compile, WellFormed, Callable;
    VaultAcceptsUnder(g, catalogue, slots, stored.ownerOnly);
  }

  lemma RowsAreValid(g: Graph, catalogue: Catalogue, slots: SlotMapping, order: seq<string>, steps: seq<Step>)
    requires IsTable(g, catalogue, slots, order, steps)
    ensures (forall i :: 0 <= i < |steps| ==> ValidStep(steps[i], |steps|)) <==> Callable(steps)
  {
    forall i | 0 <= i < |steps|
      ensures ValidStep(steps[i], |steps|) <==> CallableStep(steps[i])
    {
      assert IsRow(g, catalogue, slots, order, order[i], steps[i]);
      JumpsAreNumbers(g, order[i], OnTrue);
      JumpsAreNumbers(g, order[i], OnFalse);
      JumpsAreNumbers(g, order[i], Out);
    }
  }

  /** The table of a graph of unconnected, parameterless actions: a single row. */
  lemma LoneAction(g: Graph, catalogue: Catalogue)
    requires "swap" in catalogue && catalogue["swap"].schema.components == []
    requires g.edges == [] && g.nodes != [] && g.nodes[0] == Node("a", Action, "swap", map[])
    requires forall i :: 0 < i < |g.nodes| ==> g.nodes[i].id != "a"
    ensures Compile(g, catalogue, map[]).Success? && StartNodes(g, g.nodes) != []
    ensures StartNodes(g, g.nodes)[0] == g.nodes[0]
    ensures |g.nodes| == 1 ==> StartNodes(g, g.nodes) == g.nodes
    ensures |g.nodes| > 1 ==> |StartNodes(g, g.nodes)| > 1
  {
    AllStart(g, g.nodes);
    FirstNodeOf(g.nodes);
    var order := Order(g).value;
    assert order == ["a"] by {
      assert Bfs(g, ["a"], {"a"}) == ["a"] + Bfs(g, [], {"a"}) by { assert ["a"][1..] == []; }
    }
    assert StepsOf(g, order, [], catalogue, map[]) == Success([]);
    assert ["a"][..0] == [];
    assert PayloadOf(g, "a", catalogue, map[]).Success?;
    assert StepsOf(g, order, ["a"], catalogue, map[]).Success?;
  }

  lemma {:induction false} AllStart(g: Graph, nodes: seq<Node>)
    requires g.edges == []
    ensures StartNodes(g, nodes) == nodes
  {
    if nodes != [] { AllStart(g, nodes[..|nodes| - 1]); }
  }

  lemma {:induction false} FirstNodeOf(nodes: seq<Node>)
    requires nodes != [] && forall i :: 0 < i < |nodes| ==> nodes[i].id != nodes[0].id
    ensures NodeOf(nodes, nodes[0].id) == Some(nodes[0])
  {
    if |nodes| > 1 { FirstNodeOf(nodes[..|nodes| - 1]); }
  }

  /** Two unconnected actions compile, but not to a table the vault accepts for a new automation. */
  lemma TwoActionsAreRejected(catalogue: Catalogue)
    requires "swap" in catalogue && catalogue["swap"].schema.components == []
    ensures var g := Graph([Node("a", Action, "swap", map[]), Node("b", Action, "swap", map[])], []);
            && WellFormed(g) && SizeAccepted(g)
            && Compile(g, catalogue, map[]).Success?
            && !ValidSteps(Compile(g, catalogue, map[]).value, OwnerOnly(g))
  {
    hide Compile;
    var g := Graph([Node("a", Action, "swap", map[]), Node("b", Action, "swap", map[])], []);
    LoneAction(g, catalogue);
    VaultAcceptsExactly(g, catalogue, map[]);
  }

  /** A single action compiles with the owner-only flag and is accepted as a new automation, but not as an update
      of an automation that anybody may run. */
  lemma ActionUpdateIsRejected(catalogue: Catalogue, stored: Automation)
    requires "swap" in catalogue && catalogue["swap"].schema.components == [] && !stored.ownerOnly
    ensures var g := Graph([Node("a", Action, "swap", map[])], []);
            && WellFormed(g) && SizeAccepted(g)
            && Compile(g, catalogue, map[]).Success? && OwnerOnly(g)
            && var steps := Compile(g, catalogue, map[]).value;
               && (ValidSteps(steps, OwnerOnly(g)) <==> Callable(steps))
               && UpdateSteps(stored, steps).Failure?
  {
    hide Compile, ValidSteps, Callable, UpdateSteps, StartNodes;
    var g := Graph([Node("a", Action, "swap", map[])], []);
    LoneAction(g, catalogue);
    VaultAcceptsExactly(g, catalogue, map[]);
    VaultAcceptsUpdateExactly(g, catalogue, map[], stored);
  }
}
