/** The vault contract's side: which tables it accepts and how it runs them. */
module VaultInterpreter {
  import opened EditorGraph
  import opened StepTable
  import opened Wrappers

  const MAX_STEPS: nat := 256
  const ZERO_SELECTOR := "0x00000000"

  /** The called contracts: a condition answers or reverts, an action maps the context or reverts; `after` is what a
      fired trigger makes of the context, unchanged where its answer is refused. */
  datatype Machine<!C> = Machine(
    check: (Payload, C) -> Option<bool>, act: (Payload, C) -> Option<C>, after: (Payload, C) -> C)

  datatype Automation = Automation(active: bool, ownerOnly: bool, steps: seq<Step>)

  /** Where a run is: at a location, past the last step, or reverted. */
  datatype Config<L, C> = At(location: L, ctx: C) | Finished(ctx: C) | Reverted

  datatype Outcome<C> = Completed(ctx: C) | Failed(reason: Reason)
  datatype Reason = NotActive | CallerNotOwner | TriggerNotMet | StepReverted | MaxStepsExceeded

  /** `_validateSteps` */
  predicate ValidStep(step: Step, len: nat) {
    && step.payload.target != ZERO_ADDRESS && step.payload.selector != ZERO_SELECTOR
    && (step.nextOnTrue != DONE ==> step.nextOnTrue < len)
    && (step.nextOnFalse != DONE ==> step.kind == Condition && step.nextOnFalse < len)
  }

  predicate ValidSteps(steps: seq<Step>, ownerOnly: bool) {
    && steps != [] && (!ownerOnly ==> steps[0].kind == Condition)
    && forall i :: 0 <= i < |steps| ==> ValidStep(steps[i], |steps|)
  }

  datatype StepsFault =
    | NoSteps | FirstStepMustBeCondition | ZeroTargetAddress(index: nat) | ZeroSelector(index: nat)
    | InvalidStepReference(index: nat)

  /** What the check of a table objects to at step i. */
  predicate IsFault(steps: seq<Step>, i: nat, fault: StepsFault)
    requires i < |steps|
  {
    var step := steps[i];
    if step.payload.target == ZERO_ADDRESS then fault == ZeroTargetAddress(i)
    else if step.payload.selector == ZERO_SELECTOR then fault == ZeroSelector(i)
    else fault == InvalidStepReference(i)
  }

  /** The check of a creation or an update: it accepts exactly the valid tables, and names the first invalid step. */
  method ValidateSteps(steps: seq<Step>, ownerOnly: bool) returns (fault: Option<StepsFault>)
    ensures fault.None? <==> ValidSteps(steps, ownerOnly)
    ensures fault == Some(NoSteps) <==> steps == []
    ensures fault == Some(FirstStepMustBeCondition) <==> steps != [] && !ownerOnly && steps[0].kind == Action
    ensures fault.Some? && fault.value !in {NoSteps, FirstStepMustBeCondition} ==>
              exists i: nat :: i < |steps| && !ValidStep(steps[i], |steps|) && IsFault(steps, i, fault.value)
                && forall j :: 0 <= j < i ==> ValidStep(steps[j], |steps|)
  {
    if |steps| == 0 { return Some(NoSteps); }
    if !ownerOnly && steps[0].kind != Condition { return Some(FirstStepMustBeCondition); }
    var len := |steps|;
    for i := 0 to len
      invariant forall j :: 0 <= j < i ==> ValidStep(steps[j], len)
    {
      var step := steps[i];
      if step.payload.target == ZERO_ADDRESS { return Some(ZeroTargetAddress(i)); }
      if step.payload.selector == ZERO_SELECTOR { return Some(ZeroSelector(i)); }
      if step.nextOnTrue != DONE && step.nextOnTrue >= len { return Some(InvalidStepReference(i)); }
      if step.kind == Condition {
        if step.nextOnFalse != DONE && step.nextOnFalse >= len { return Some(InvalidStepReference(i)); }
      } else {
        if step.nextOnFalse != DONE { return Some(InvalidStepReference(i)); }
      }
    }
    fault := None;
  }

  datatype StepsError = InvalidSteps

  /** `updateAutomationSteps`: the stored flag decides, and stays. */
  function UpdateSteps(stored: Automation, steps: seq<Step>): Result<Automation, StepsError> {
    if ValidSteps(steps, stored.ownerOnly) then Success(stored.(steps := steps)) else Failure(InvalidSteps)
  }

  function Goto<C>(next: nat, ctx: C): Config<nat, C> {
    if next == DONE then Finished(ctx) else At(next, ctx)
  }

  /** One turn of the execution loop. */
  function TableStep<C>(m: Machine<C>, steps: seq<Step>, c: Config<nat, C>): Config<nat, C> {
    if !c.At? then c
    else if c.location >= |steps| then Reverted
    else
      var step := steps[c.location];
      match step.kind
      case Condition =>
        (match m.check(step.payload, c.ctx)
         case None => Reverted
         case Some(met) => Goto(if met then step.nextOnTrue else step.nextOnFalse, c.ctx))
      case Action =>
        match m.act(step.payload, c.ctx)
        case None => Reverted
        case Some(ctx) => Goto(step.nextOnTrue, ctx)
  }

  function TableRun<C>(m: Machine<C>, steps: seq<Step>, c: Config<nat, C>, n: nat): Config<nat, C>
    decreases n
  {
    if n == 0 then c else TableRun(m, steps, TableStep(m, steps, c), n - 1)
  }

  /** The verdict on a run that has used up its steps. */
  function Verdict<L, C>(end: Config<L, C>): Outcome<C> {
    match end
    case Finished(ctx) => Completed(ctx)
    case Reverted => Failed(StepReverted)
    case At(_, _) => Failed(MaxStepsExceeded)
  }

  /** A run started by somebody else than the owner needs its trigger condition to hold. */
  predicate TriggerBlocks<C>(m: Machine<C>, kind: NodeKind, trigger: Payload, byOwner: bool, ctx: C) {
    !byOwner && kind == Condition && m.check(trigger, ctx) == Some(false)
  }

  /** The trigger fires if its condition holds at the start, or if it is the action of an owner-only automation. */
  predicate TriggerFires<C>(m: Machine<C>, kind: NodeKind, trigger: Payload, ownerOnly: bool, ctx: C) {
    if kind == Condition then m.check(trigger, ctx) == Some(true) else ownerOnly
  }

  /** The outcome of a run, given its first step and where it ended. */
  function Concluded<L, C>(m: Machine<C>, kind: NodeKind, trigger: Payload, ownerOnly: bool, byOwner: bool,
      ctx: C, end: Config<L, C>): Outcome<C>
  {
    if TriggerBlocks(m, kind, trigger, byOwner, ctx) then Failed(TriggerNotMet)
    else
      match Verdict(end)
      case Failed(reason) => Failed(reason)
      case Completed(last) =>
        Completed(if TriggerFires(m, kind, trigger, ownerOnly, ctx) then m.after(trigger, last) else last)
  }

  /** Who may run an automation. */
  function Refusal(active: bool, ownerOnly: bool, byOwner: bool): Option<Reason> {
    if !active then Some(NotActive) else if ownerOnly && !byOwner then Some(CallerNotOwner) else None
  }

  ghost function TableOutcome<C>(m: Machine<C>, a: Automation, byOwner: bool, ctx: C): Outcome<C> {
    var refusal := Refusal(a.active, a.ownerOnly, byOwner);
    if refusal.Some? then Failed(refusal.value)
    else if a.steps == [] then Failed(StepReverted)
    else
      var end := TableRun(m, a.steps, At(0, ctx), MAX_STEPS);
      Concluded(m, a.steps[0].kind, a.steps[0].payload, a.ownerOnly, byOwner, ctx, end)
  }

  method ExecuteAutomation<C>(m: Machine<C>, a: Automation, byOwner: bool, start: C) returns (o: Outcome<C>)
    ensures o == TableOutcome(m, a, byOwner, start)
  {
    if !a.active { return Failed(NotActive); }
    if a.ownerOnly && !byOwner { return Failed(CallerNotOwner); }
    var steps := a.steps;
    if steps == [] { return Failed(StepReverted); }

    var ctx := start;
    var current: nat, stepCount: nat := 0, 0;
    var triggerFired := a.ownerOnly && steps[0].kind == Action;
    while current != DONE
      invariant stepCount <= MAX_STEPS
      invariant stepCount == 0 ==>
                  current == 0 && ctx == start && triggerFired == (a.ownerOnly && steps[0].kind == Action)
      invariant stepCount > 0 ==>
                  && !TriggerBlocks(m, steps[0].kind, steps[0].payload, byOwner, start)
                  && triggerFired == TriggerFires(m, steps[0].kind, steps[0].payload, a.ownerOnly, start)
      invariant TableRun(m, steps, At(0, start), MAX_STEPS)
                == TableRun(m, steps, Goto(current, ctx), MAX_STEPS - stepCount)
      decreases MAX_STEPS - stepCount
    {
      if stepCount >= MAX_STEPS { return Failed(MaxStepsExceeded); }
      RunReverted(m, steps, MAX_STEPS - stepCount - 1);
      if current >= |steps| { return Failed(StepReverted); }
      var step := steps[current];
      if step.kind == Condition {
        var met := m.check(step.payload, ctx);
        if met.None? { return Failed(StepReverted); }
        if current == 0 && stepCount == 0 {
          triggerFired := met.value;
          if !met.value && !byOwner { return Failed(TriggerNotMet); }
        }
        current := if met.value then step.nextOnTrue else step.nextOnFalse;
      } else {
        var updated := m.act(step.payload, ctx);
        if updated.None? { return Failed(StepReverted); }
        ctx, current := updated.value, step.nextOnTrue;
      }
      stepCount := stepCount + 1;
    }
    RunFinished(m, steps, ctx, MAX_STEPS - stepCount);
    if triggerFired { ctx := m.after(steps[0].payload, ctx); }
    o := Completed(ctx);
  }

  lemma {:induction false} RunReverted<C>(m: Machine<C>, steps: seq<Step>, n: nat)
    ensures TableRun(m, steps, Reverted, n) == Reverted
  {
    if n > 0 { RunReverted(m, steps, n - 1); }
  }

  lemma {:induction false} RunFinished<C>(m: Machine<C>, steps: seq<Step>, ctx: C, n: nat)
    ensures TableRun(m, steps, Finished(ctx), n) == Finished(ctx)
  {
    if n > 0 { RunFinished(m, steps, ctx, n - 1); }
  }

  // ---- accepted tables ----

  /** No call reverts. */
  ghost predicate NeverReverts<C(!new)>(m: Machine<C>) {
    forall p, ctx :: m.check(p, ctx).Some? && m.act(p, ctx).Some?
  }

  ghost predicate Inside<C>(steps: seq<Step>, c: Config<nat, C>) { c.At? ==> c.location < |steps| }

  /** A run of an accepted table never leaves it, and reverts only if a call does. */
  lemma {:induction false} AcceptedStaysInside<C(!new)>(m: Machine<C>, steps: seq<Step>, ownerOnly: bool,
      c: Config<nat, C>, n: nat)
    requires ValidSteps(steps, ownerOnly) && Inside(steps, c)
    ensures Inside(steps, TableRun(m, steps, c, n))
    ensures !c.Reverted? && NeverReverts(m) ==> !TableRun(m, steps, c, n).Reverted?
    decreases n
  {
    if n > 0 {
      var next := TableStep(m, steps, c);
      assert c.At? ==> ValidStep(steps[c.location], |steps|);
      AcceptedStaysInside(m, steps, ownerOnly, next, n - 1);
    }
  }
}
