/** The context vector a deployment writes, and what the encoder reports about it. */
module ContextVector {
  import opened ContextSlots
  import opened Wrappers

  type Bytes = string
  const EMPTY: Bytes := "0x"

  /** One entry of the name-keyed `contextOverrides`, in the object's order. */
  datatype Override = Override(name: string, value: Bytes)
  datatype NewSlot = NewSlot(index: nat, initialValue: Bytes)
  datatype ContextChange = ContextChange(
    slotIndex: nat, slotName: string, isNew: bool, currentValue: Option<Bytes>, newValue: Bytes)

  /** What an encode call says about the context: the vector to set, if any, and the changes it reports. */
  datatype ContextPlan = ContextPlan(calldata: Option<seq<Bytes>>, changes: seq<ContextChange>)

  /** `contextOverrides?.[name]` */
  function Overriding(overrides: seq<Override>, name: string): Option<Bytes> {
    if overrides == [] then None
    else if overrides[|overrides| - 1].name == name then Some(overrides[|overrides| - 1].value)
    else Overriding(overrides[..|overrides| - 1], name)
  }

  function IndexOverrides(overrides: seq<Override>, slots: SlotMapping): map<nat, Bytes> {
    if overrides == [] then map[]
    else
      var front, last := IndexOverrides(overrides[..|overrides| - 1], slots), overrides[|overrides| - 1];
      if last.name in slots then front[slots[last.name] := last.value] else front
  }

  /** The initial value of the first new slot with the index. */
  function InitialAt(newSlots: seq<NewSlot>, i: nat): Bytes {
    if newSlots == [] then EMPTY
    else if newSlots[0].index == i then newSlots[0].initialValue
    else InitialAt(newSlots[1..], i)
  }

  /** One past the largest index the current context, the new slots and the overrides mention. */
  ghost predicate IsLength(n: nat, current: seq<Bytes>, newSlots: seq<NewSlot>, byIndex: map<nat, Bytes>) {
    && |current| <= n
    && (forall s :: s in newSlots ==> s.index < n)
    && (forall i :: i in byIndex ==> i < n)
    && (n == |current| || (exists s :: s in newSlots && s.index == n - 1) || n - 1 in byIndex)
  }

  function Entry(i: nat, current: seq<Bytes>, newSlots: seq<NewSlot>, byIndex: map<nat, Bytes>): Bytes {
    if i in byIndex then byIndex[i] else if i < |current| then current[i] else InitialAt(newSlots, i)
  }

  method BuildExpandedContext(current: seq<Bytes>, newSlots: seq<NewSlot>, overrides: seq<Override>,
      slots: SlotMapping)
      returns (expanded: seq<Bytes>)
    ensures IsLength(|expanded|, current, newSlots, IndexOverrides(overrides, slots))
    ensures forall i ::
              0 <= i < |expanded| ==> expanded[i] == Entry(i, current, newSlots, IndexOverrides(overrides, slots))
  {
    var byIndex: map<nat, Bytes> := map[];
    for k := 0 to |overrides|
      invariant byIndex == IndexOverrides(overrides[..k], slots)
    {
      assert overrides[..k + 1][..k] == overrides[..k];
      var o := overrides[k];
      if o.name in slots { byIndex := byIndex[slots[o.name] := o.value]; }
    }
    assert overrides[..|overrides|] == overrides;

    var length := ContextLength(current, newSlots, byIndex);
    expanded := [];
    for i := 0 to length
      invariant |expanded| == i
      invariant forall j :: 0 <= j < i ==> expanded[j] == Entry(j, current, newSlots, byIndex)
    {
      expanded := expanded + [Entry(i, current, newSlots, byIndex)];
    }
  }

  /** `Math.max(...) + 1` */
  method ContextLength(current: seq<Bytes>, newSlots: seq<NewSlot>, byIndex: map<nat, Bytes>) returns (n: nat)
    ensures IsLength(n, current, newSlots, byIndex)
  {
    n := |current|;
    for k := 0 to |newSlots|
      invariant |current| <= n && forall s :: s in newSlots[..k] ==> s.index < n
      invariant n == |current| || exists s :: s in newSlots && s.index == n - 1
    {
      if n <= newSlots[k].index { n := newSlots[k].index + 1; }
    }
    assert newSlots[..|newSlots|] == newSlots;
    var rest := byIndex.Keys;
    while rest != {}
      invariant rest <= byIndex.Keys && |current| <= n && forall s :: s in newSlots ==> s.index < n
      invariant forall i :: i in byIndex ==> i in rest || i < n
      invariant n == |current| || (exists s :: s in newSlots && s.index == n - 1) || n - 1 in byIndex
    {
      var i :| i in rest;
      if n <= i { n := i + 1; }
      rest := rest - {i};
    }
  }

  // ---- the two encoders ----

  /** The slot mapping as the encoders walk it: the distinct names in order, each with its index. */
  ghost predicate Walks(names: seq<string>, slots: SlotMapping) {
    && (forall i, j :: 0 <= i < j < |names| ==> names[i] != names[j])
    && (forall name :: name in names <==> name in slots)
  }

  ghost predicate Injective(slots: SlotMapping) {
    forall a, b :: a in slots && b in slots && slots[a] == slots[b] ==> a == b
  }

  function NewSlots(names: seq<string>, slots: SlotMapping, overrides: seq<Override>, from: nat): (r: seq<NewSlot>)
    requires forall name :: name in names ==> name in slots
  {
    if names == [] then []
    else
      var s := NewSlot(slots[names[0]], Overriding(overrides, names[0]).GetOr(EMPTY));
      (if s.index >= from then [s] else []) + NewSlots(names[1..], slots, overrides, from)
  }

  function Change(name: string, index: nat, overrides: seq<Override>, onChain: seq<Bytes>): ContextChange {
    var isNew := index >= |onChain|;
    ContextChange(index, name, isNew, if isNew then None else Some(onChain[index]),
                  Overriding(overrides, name).GetOr(if isNew then EMPTY else onChain[index]))
  }

  method Changes(names: seq<string>, slots: SlotMapping, overrides: seq<Override>, onChain: seq<Bytes>)
      returns (changes: seq<ContextChange>)
    requires Walks(names, slots)
    ensures |changes| == |names|
    ensures forall k :: 0 <= k < |names| ==> changes[k] == Change(names[k], slots[names[k]], overrides, onChain)
  {
    changes := [];
    for k := 0 to |names|
      invariant |changes| == k
      invariant forall j :: 0 <= j < k ==> changes[j] == Change(names[j], slots[names[j]], overrides, onChain)
    {
      changes := changes + [Change(names[k], slots[names[k]], overrides, onChain)];
    }
  }

  /** The plan of an encode call, given the context it read; `firstNew` separates the slots it passes as new. */
  ghost predicate IsPlan(plan: ContextPlan, onChain: seq<Bytes>, firstNew: nat, names: seq<string>,
      slots: SlotMapping, overrides: seq<Override>)
    requires Walks(names, slots)
  {
    var newSlots, byIndex := NewSlots(names, slots, overrides, firstNew), IndexOverrides(overrides, slots);
    && (plan.calldata.Some? <==> newSlots != [] || overrides != [])
    && (plan.calldata.Some? ==>
          && IsLength(|plan.calldata.value|, onChain, newSlots, byIndex)
          && forall i ::
               0 <= i < |plan.calldata.value| ==> plan.calldata.value[i] == Entry(i, onChain, newSlots, byIndex))
    && |plan.changes| == |names|
    && forall k :: 0 <= k < |names| ==> plan.changes[k] == Change(names[k], slots[names[k]], overrides, onChain)
  }

  /** `encode`: every slot of the mapping is passed as new, whatever the chain holds; a failed read counts as empty. */
  method PlanForCreate(names: seq<string>, slots: SlotMapping, overrides: seq<Override>,
      read: Option<seq<Bytes>>)
      returns (plan: ContextPlan)
    requires Walks(names, slots)
    ensures IsPlan(plan, read.GetOr([]), 0, names, slots, overrides)
  {
    var newSlots := NewSlots(names, slots, overrides, 0);
    AllNew(names, slots, overrides);
    if newSlots == [] && overrides == [] { return ContextPlan(None, []); }
    var onChain := read.GetOr([]);
    var expanded := BuildExpandedContext(onChain, newSlots, overrides, slots);
    var changes := Changes(names, slots, overrides, onChain);
    plan := ContextPlan(Some(expanded), changes);
  }

  /** `encodeUpdate`: only slots beyond the chain's context are new. */
  method PlanForUpdate(names: seq<string>, slots: SlotMapping, overrides: seq<Override>,
      read: Option<seq<Bytes>>)
      returns (plan: ContextPlan)
    requires Walks(names, slots)
    ensures IsPlan(plan, read.GetOr([]), |read.GetOr([])|, names, slots, overrides)
  {
    if names == [] && overrides == [] { return ContextPlan(None, []); }
    var onChain := read.GetOr([]);
    var newSlots := NewSlots(names, slots, overrides, |onChain|);
    var calldata := None;
    if newSlots != [] || overrides != [] {
      var expanded := BuildExpandedContext(onChain, newSlots, overrides, slots);
      calldata := Some(expanded);
    }
    var changes := Changes(names, slots, overrides, onChain);
    plan := ContextPlan(calldata, changes);
  }

  lemma AllNew(names: seq<string>, slots: SlotMapping, overrides: seq<Override>)
    requires forall name :: name in names ==> name in slots
    ensures NewSlots(names, slots, overrides, 0) == [] <==> names == []
  {
  }

  // ---- soundness ----

  /** The vault's context once the transaction the plan asks for, if any, is mined. */
  function After(plan: ContextPlan, actual: seq<Bytes>): seq<Bytes> {
    plan.calldata.GetOr(actual)
  }

  ghost predicate Overridden(i: nat, slots: SlotMapping, overrides: seq<Override>) {
    exists o :: o in overrides && o.name in slots && slots[o.name] == i
  }

  ghost predicate Untouched(actual: seq<Bytes>, after: seq<Bytes>, slots: SlotMapping, overrides: seq<Override>) {
    forall i :: 0 <= i < |actual| && !Overridden(i, slots, overrides) ==> i < |after| && after[i] == actual[i]
  }

  lemma {:induction false} NewSlotsHave(names: seq<string>, slots: SlotMapping, overrides: seq<Override>, from: nat)
    requires forall name :: name in names ==> name in slots
    ensures forall s :: s in NewSlots(names, slots, overrides, from) <==>
              exists name ::
                  name in names && s == NewSlot(slots[name], Overriding(overrides, name).GetOr(EMPTY))
                  && s.index >= from
  {
    if names != [] {
      NewSlotsHave(names[1..], slots, overrides, from);
      assert names == [names[0]] + names[1..];
    }
  }

  lemma {:induction false} InitialFound(newSlots: seq<NewSlot>, s: NewSlot)
    requires s in newSlots && forall t :: t in newSlots && t.index == s.index ==> t == s
    ensures InitialAt(newSlots, s.index) == s.initialValue
  {
    if newSlots[0] != s { InitialFound(newSlots[1..], s); }
  }

  lemma {:induction false} IndexOverridesHave(overrides: seq<Override>, slots: SlotMapping)
    requires Injective(slots)
    ensures forall i :: i in IndexOverrides(overrides, slots) <==> Overridden(i, slots, overrides)
    ensures forall name :: name in slots && Overriding(overrides, name).Some? ==>
              slots[name] in IndexOverrides(overrides, slots)
              && IndexOverrides(overrides, slots)[slots[name]] == Overriding(overrides, name).value
  {
    if overrides != [] {
      var front, last := overrides[..|overrides| - 1], overrides[|overrides| - 1];
      IndexOverridesHave(front, slots);
      assert overrides == front + [last];
    }
  }

  lemma {:induction false} OverridingSome(overrides: seq<Override>, name: string)
    ensures Overriding(overrides, name).Some? <==> exists o :: o in overrides && o.name == name
  {
    if overrides != [] {
      var front, last := overrides[..|overrides| - 1], overrides[|overrides| - 1];
      assert overrides == front + [last];
      OverridingSome(front, name);
    }
  }

  /** The value of a slot of the mapping in the expanded vector is the value reported for it. */
  lemma ReportedIsWritten(name: string, onChain: seq<Bytes>, firstNew: nat, names: seq<string>,
      slots: SlotMapping, overrides: seq<Override>)
    requires Walks(names, slots) && Injective(slots) && name in slots && firstNew <= |onChain|
    ensures Entry(slots[name], onChain, NewSlots(names, slots, overrides, firstNew), IndexOverrides(overrides, slots))
            == Change(name, slots[name], overrides, onChain).newValue
  {
    var index, newSlots := slots[name], NewSlots(names, slots, overrides, firstNew);
    IndexOverridesHave(overrides, slots);
    OverridingSome(overrides, name);
    if index !in IndexOverrides(overrides, slots) && index >= |onChain| {
      NewSlotsHave(names, slots, overrides, firstNew);
      InitialFound(newSlots, NewSlot(index, EMPTY));
    }
  }

  // What the vault holds when the transaction is mined, `actual`, need not be what the encoder read, `read`:
  // another transaction or an execution may come between, and a failed read counts as an empty context.

  /** One past the largest index of the mapping. */
  ghost predicate IsSlotCount(n: nat, slots: SlotMapping) {
    && (forall name :: name in slots ==> slots[name] < n)
    && (n > 0 ==> exists name :: name in slots && slots[name] == n - 1)
  }

  /** The plan asks for no transaction: no slot is passed as new and nothing is overridden. */
  ghost predicate AsksForNothing(firstNew: nat, slots: SlotMapping, overrides: seq<Override>) {
    overrides == [] && forall name :: name in slots ==> slots[name] < firstNew
  }

  lemma CalldataExactly(plan: ContextPlan, read: seq<Bytes>, firstNew: nat, names: seq<string>,
      slots: SlotMapping, overrides: seq<Override>)
    requires Walks(names, slots) && IsPlan(plan, read, firstNew, names, slots, overrides)
    ensures plan.calldata.None? <==> AsksForNothing(firstNew, slots, overrides)
  {
    NewSlotsHave(names, slots, overrides, firstNew);
    var newSlots := NewSlots(names, slots, overrides, firstNew);
    if newSlots != [] {
      assert newSlots[0] in newSlots;
    }
    forall name | name in slots && slots[name] >= firstNew ensures newSlots != [] {
      assert NewSlot(slots[name], Overriding(overrides, name).GetOr(EMPTY)) in newSlots;
    }
  }

  /** The vector to set is as long as the read context or the mapping needs. */
  lemma CalldataLength(plan: ContextPlan, read: seq<Bytes>, firstNew: nat, names: seq<string>,
      slots: SlotMapping, overrides: seq<Override>, n: nat)
    requires Walks(names, slots) && Injective(slots) && IsSlotCount(n, slots) && firstNew <= |read|
    requires IsPlan(plan, read, firstNew, names, slots, overrides) && plan.calldata.Some?
    ensures |plan.calldata.value| == if n > |read| then n else |read|
  {
    IndexOverridesHave(overrides, slots);
    NewSlotsHave(names, slots, overrides, firstNew);
    if n > |read| {
      var name :| name in slots && slots[name] == n - 1;
      var newSlots := NewSlots(names, slots, overrides, firstNew);
      assert NewSlot(slots[name], Overriding(overrides, name).GetOr(EMPTY)) in newSlots;
    }
  }

  /** An entry nobody overrides is written back as read, and empty beyond the read context. */
  lemma EntryAsRead(i: nat, read: seq<Bytes>, firstNew: nat, names: seq<string>, slots: SlotMapping,
      overrides: seq<Override>)
    requires Walks(names, slots) && Injective(slots) && !Overridden(i, slots, overrides)
    ensures Entry(i, read, NewSlots(names, slots, overrides, firstNew), IndexOverrides(overrides, slots))
            == if i < |read| then read[i] else EMPTY
  {
    IndexOverridesHave(overrides, slots);
    NewSlotsHave(names, slots, overrides, firstNew);
    InitialEmpty(NewSlots(names, slots, overrides, firstNew), i);
  }

  lemma {:induction false} InitialEmpty(newSlots: seq<NewSlot>, i: nat)
    requires forall s :: s in newSlots && s.index == i ==> s.initialValue == EMPTY
    ensures InitialAt(newSlots, i) == EMPTY
  {
    if newSlots != [] && newSlots[0].index != i { InitialEmpty(newSlots[1..], i); }
  }

  /** Entry i is still as read; beyond what was read, it is empty and among the mapping's n slots. */
  predicate Unmoved(actual: seq<Bytes>, read: seq<Bytes>, i: nat, n: nat)
    requires i < |actual|
  {
    if i < |read| then actual[i] == read[i] else i < n && actual[i] == "0x"
  }

  /** Entries without an override survive the transaction exactly if none is asked for, or all of them are still as
      read. */
  lemma ContextSurvivesExactly(plan: ContextPlan, read: seq<Bytes>, actual: seq<Bytes>, firstNew: nat,
      names: seq<string>, slots: SlotMapping, overrides: seq<Override>, n: nat)
    requires Walks(names, slots) && Injective(slots) && IsSlotCount(n, slots) && firstNew <= |read|
    requires IsPlan(plan, read, firstNew, names, slots, overrides)
    ensures Untouched(actual, After(plan, actual), slots, overrides) <==>
            AsksForNothing(firstNew, slots, overrides)
            || forall i: nat :: i < |actual| && !Overridden(i, slots, overrides) ==> Unmoved(actual, read, i, n)
  {
    CalldataExactly(plan, read, firstNew, names, slots, overrides);
    if plan.calldata.Some? {
      var after := plan.calldata.value;
      CalldataLength(plan, read, firstNew, names, slots, overrides, n);
      forall i: nat | i < |actual| && !Overridden(i, slots, overrides)
        ensures (i < |after| && after[i] == actual[i]) <==> Unmoved(actual, read, i, n)
      {
        EntryAsRead(i, read, firstNew, names, slots, overrides);
      }
    }
  }

  /** The reported values are those of the read context with the overrides applied, one for each slot of the mapping. */
  lemma ChangesReported(plan: ContextPlan, read: seq<Bytes>, firstNew: nat, names: seq<string>,
      slots: SlotMapping, overrides: seq<Override>)
    requires Walks(names, slots) && IsPlan(plan, read, firstNew, names, slots, overrides)
    ensures forall name :: name in slots <==> exists c :: c in plan.changes && c.slotName == name
    ensures forall c :: c in plan.changes ==>
              && c.slotName in slots && slots[c.slotName] == c.slotIndex
              && c == Change(c.slotName, c.slotIndex, overrides, read)
              && c.currentValue == (if c.slotIndex < |read| then Some(read[c.slotIndex]) else None)
  {
    forall c | c in plan.changes
      ensures c.slotName in slots && slots[c.slotName] == c.slotIndex
      ensures c == Change(c.slotName, c.slotIndex, overrides, read)
    {
      var k :| 0 <= k < |plan.changes| && plan.changes[k] == c;
      assert names[k] in names;
    }
    forall name | name in slots ensures exists c :: c in plan.changes && c.slotName == name {
      var k :| 0 <= k < |names| && names[k] == name;
      assert plan.changes[k] in plan.changes && plan.changes[k].slotName == name;
    }
  }

  /** After the transaction, or without one, slot `name` is inside the context and holds its reported value. */
  ghost predicate HoldsReported(plan: ContextPlan, after: seq<Bytes>, name: string, slots: SlotMapping)
    requires name in slots
  {
    slots[name] < |after| && forall c :: c in plan.changes && c.slotName == name ==> c.newValue == after[slots[name]]
  }

  /** Every slot holds its reported value exactly if a transaction is asked for, or its entry is still as read. */
  lemma ReportedHoldsExactly(plan: ContextPlan, read: seq<Bytes>, actual: seq<Bytes>, firstNew: nat,
      names: seq<string>, slots: SlotMapping, overrides: seq<Override>, name: string)
    requires Walks(names, slots) && Injective(slots) && firstNew <= |read|
    requires IsPlan(plan, read, firstNew, names, slots, overrides)
    requires name in slots
    ensures HoldsReported(plan, After(plan, actual), name, slots) <==>
            !AsksForNothing(firstNew, slots, overrides)
              || (slots[name] < |actual| && actual[slots[name]] == read[slots[name]])
  {
    CalldataExactly(plan, read, firstNew, names, slots, overrides);
    ChangesReported(plan, read, firstNew, names, slots, overrides);
    ReportedIsWritten(name, read, firstNew, names, slots, overrides);
    if plan.calldata.Some? {
      SlotIsInside(plan, read, firstNew, names, slots, overrides, name);
    } else {
      var c :| c in plan.changes && c.slotName == name;
    }
  }

  lemma SlotIsInside(plan: ContextPlan, read: seq<Bytes>, firstNew: nat, names: seq<string>, slots: SlotMapping,
      overrides: seq<Override>, name: string)
    requires Walks(names, slots) && firstNew <= |read| && IsPlan(plan, read, firstNew, names, slots, overrides)
    requires name in slots
    ensures slots[name] < |After(plan, read)|
  {
    NewSlotsHave(names, slots, overrides, firstNew);
    var s := NewSlot(slots[name], Overriding(overrides, name).GetOr(EMPTY));
    if slots[name] >= firstNew { assert s in NewSlots(names, slots, overrides, firstNew); }
  }

  /** Slot `name` is inside the context afterwards exactly if a transaction is asked for or it is inside already, as it
      is when the context has not become shorter than what was read. */
  lemma InsideExactly(plan: ContextPlan, read: seq<Bytes>, actual: seq<Bytes>, firstNew: nat,
      names: seq<string>, slots: SlotMapping, overrides: seq<Override>, name: string)
    requires Walks(names, slots) && firstNew <= |read| && IsPlan(plan, read, firstNew, names, slots, overrides)
    requires name in slots
    ensures slots[name] < |After(plan, actual)| <==> plan.calldata.Some? || slots[name] < |actual|
    ensures |read| <= |actual| ==> slots[name] < |After(plan, actual)|
  {
    SlotIsInside(plan, read, firstNew, names, slots, overrides, name);
  }

  /** With nothing between a successful read and the transaction: every slot index is inside the context, every
      reported value is the one stored, and no other entry changed. */
  lemma PlanSound(plan: ContextPlan, actual: seq<Bytes>, firstNew: nat, names: seq<string>, slots: SlotMapping,
      overrides: seq<Override>)
    requires Walks(names, slots) && Injective(slots) && firstNew <= |actual|
    requires IsPlan(plan, actual, firstNew, names, slots, overrides)
    ensures forall name :: name in slots ==> slots[name] < |After(plan, actual)|
    ensures forall c :: c in plan.changes ==>
              c.slotIndex < |After(plan, actual)| && c.newValue == After(plan, actual)[c.slotIndex]
              && c.slotName in slots && slots[c.slotName] == c.slotIndex
              && c.currentValue == (if c.slotIndex < |actual| then Some(actual[c.slotIndex]) else None)
    ensures forall name :: name in slots ==> exists c :: c in plan.changes && c.slotName == name
    ensures Untouched(actual, After(plan, actual), slots, overrides)
    ensures |actual| <= |After(plan, actual)|
  {
    hide IsPlan;
    var n := SlotCount(slots);
    ContextSurvivesExactly(plan, actual, actual, firstNew, names, slots, overrides, n);
    ChangesReported(plan, actual, firstNew, names, slots, overrides);
    forall name | name in slots ensures HoldsReported(plan, After(plan, actual), name, slots) {
      SlotIsInside(plan, actual, firstNew, names, slots, overrides, name);
      ReportedHoldsExactly(plan, actual, actual, firstNew, names, slots, overrides, name);
      CalldataExactly(plan, actual, firstNew, names, slots, overrides);
    }
    if plan.calldata.Some? { CalldataLength(plan, actual, firstNew, names, slots, overrides, n); }
  }

  lemma SlotCount(slots: SlotMapping) returns (n: nat)
    ensures IsSlotCount(n, slots)
  {
    n := 0;
    var rest := slots.Keys;
    while rest != {}
      invariant rest <= slots.Keys
      invariant forall name :: name in slots && name !in rest ==> slots[name] < n
      invariant n > 0 ==> exists name :: name in slots && slots[name] == n - 1
    {
      var name :| name in rest;
      if n <= slots[name] { n := slots[name] + 1; }
      rest := rest - {name};
    }
  }

  /** A context that could not be read is taken for empty: the other entries survive exactly if no transaction
      is asked for, or all of them are empty and lie below the mapping's largest index. */
  lemma UnreadContextSurvivesExactly(plan: ContextPlan, actual: seq<Bytes>, names: seq<string>,
      slots: SlotMapping, overrides: seq<Override>, n: nat)
    requires Walks(names, slots) && Injective(slots) && IsSlotCount(n, slots)
    requires IsPlan(plan, [], 0, names, slots, overrides)
    ensures Untouched(actual, After(plan, actual), slots, overrides) <==>
            (names == [] && overrides == [])
            || forall i: nat :: i < |actual| && !Overridden(i, slots, overrides) ==> i < n && actual[i] == "0x"
  {
    ContextSurvivesExactly(plan, [], actual, 0, names, slots, overrides, n);
    if names != [] { assert names[0] in slots; }
  }

  /** One stored timestamp, one new automation on the same slot, one failed read: the timestamp is lost. */
  lemma FailedReadLosesEntry(plan: ContextPlan)
    requires IsPlan(plan, [], 0, ["start"], map["start" := 0], [])
    ensures !Untouched(["0x01"], After(plan, ["0x01"]), map["start" := 0], [])
  {
    UnreadContextSurvivesExactly(plan, ["0x01"], ["start"], map["start" := 0], [], 1);
    assert !Overridden(0, map["start" := 0], []);
    assert ["0x01"][0] != EMPTY;
  }

  /** A successful read, an execution that moves the timestamp on, then the transaction: the old timestamp is back. */
  lemma StaleReadLosesEntry(plan: ContextPlan)
    requires IsPlan(plan, ["0x01"], 1, ["start", "other"], map["start" := 0, "other" := 1], [])
    ensures !Untouched(["0x02"], After(plan, ["0x02"]), map["start" := 0, "other" := 1], [])
  {
    var slots := map["start" := 0, "other" := 1];
    assert slots["other"] == 1 && slots["start"] == 0;
    ContextSurvivesExactly(plan, ["0x01"], ["0x02"], 1, ["start", "other"], slots, [], 2);
    assert !Overridden(0, slots, []);
    assert "0x01"[3] != "0x02"[3];
  }

  // ---- what is written and what is reported, entry by entry ----

  /** Override k is the one that counts for its name. */
  ghost predicate Counts(overrides: seq<Override>, k: nat) {
    k < |overrides| && forall j :: k < j < |overrides| ==> overrides[j].name != overrides[k].name
  }

  lemma {:induction false} OverridingIs(overrides: seq<Override>, k: nat)
    requires Counts(overrides, k)
    ensures Overriding(overrides, overrides[k].name) == Some(overrides[k].value)
  {
    if k < |overrides| - 1 { OverridingIs(overrides[..|overrides| - 1], k); }
  }

  lemma {:induction false} NotOverriding(overrides: seq<Override>, name: string)
    requires forall o :: o in overrides ==> o.name != name
    ensures Overriding(overrides, name) == None
  {
    if overrides != [] { NotOverriding(overrides[..|overrides| - 1], name); }
  }

  lemma {:induction false} OverrideIsIndexed(overrides: seq<Override>, slots: SlotMapping, k: nat)
    requires Injective(slots) && Counts(overrides, k) && overrides[k].name in slots
    ensures slots[overrides[k].name] in IndexOverrides(overrides, slots)
    ensures IndexOverrides(overrides, slots)[slots[overrides[k].name]] == overrides[k].value
  {
    if k < |overrides| - 1 { OverrideIsIndexed(overrides[..|overrides| - 1], slots, k); }
  }

  /** The vector holds each override at its name's slot; every other entry is as it was read, or empty beyond that. */
  lemma VectorExactly(plan: ContextPlan, read: seq<Bytes>, firstNew: nat, names: seq<string>,
      slots: SlotMapping, overrides: seq<Override>, i: nat)
    requires Walks(names, slots) && Injective(slots) && firstNew <= |read|
    requires IsPlan(plan, read, firstNew, names, slots, overrides)
    requires plan.calldata.Some? && i < |plan.calldata.value|
    ensures forall k: nat :: Counts(overrides, k) && overrides[k].name in slots && slots[overrides[k].name] == i ==>
              plan.calldata.value[i] == overrides[k].value
    ensures !Overridden(i, slots, overrides) ==> plan.calldata.value[i] == if i < |read| then read[i] else "0x"
  {
    forall k: nat | Counts(overrides, k) && overrides[k].name in slots && slots[overrides[k].name] == i
      ensures plan.calldata.value[i] == overrides[k].value
    {
      OverrideIsIndexed(overrides, slots, k);
    }
    if !Overridden(i, slots, overrides) {
      EntryAsRead(i, read, firstNew, names, slots, overrides);
    }
  }

  /** The change reported for the j-th name: its slot, whether that is beyond what was read, the entry read, and the
      override's value, or else the entry as it is, or empty. */
  lemma ChangeExactly(plan: ContextPlan, read: seq<Bytes>, firstNew: nat, names: seq<string>,
      slots: SlotMapping, overrides: seq<Override>, j: nat)
    requires Walks(names, slots) && IsPlan(plan, read, firstNew, names, slots, overrides) && j < |names|
    ensures |plan.changes| == |names|
    ensures var c, i := plan.changes[j], slots[names[j]];
            && c.slotName == names[j] && c.slotIndex == i && (c.isNew <==> |read| <= i)
            && c.currentValue == (if i < |read| then Some(read[i]) else None)
            && (forall k: nat :: Counts(overrides, k) && overrides[k].name == names[j] ==>
                  c.newValue == overrides[k].value)
            && ((forall o :: o in overrides ==> o.name != names[j]) ==>
                  c.newValue == if i < |read| then read[i] else "0x")
  {
    forall k: nat | Counts(overrides, k) && overrides[k].name == names[j]
      ensures Overriding(overrides, names[j]) == Some(overrides[k].value)
    {
      OverridingIs(overrides, k);
    }
    if forall o :: o in overrides ==> o.name != names[j] { NotOverriding(overrides, names[j]); }
  }
}
