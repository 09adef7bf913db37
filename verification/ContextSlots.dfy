/** Named context slots of a vault: which name owns which index. */
module ContextSlots {
  import opened Wrappers

  datatype SlotMeta = SlotMeta(name: string, createdBy: string)
  type Slots = map<nat, SlotMeta>
  type SlotMapping = map<string, nat>

  /** What a sequence of allocations leaves behind: indices 0 .. n-1, one name each. */
  ghost predicate Dense(slots: Slots) {
    && (forall i: nat :: i in slots <==> i < |slots|)
    && (forall i, j :: i in slots && j in slots && slots[i].name == slots[j].name ==> i == j)
  }

  function Indices(slots: Slots, name: string): set<nat> {
    set i | i in slots && slots[i].name == name
  }

  lemma HasMax(s: set<nat>) returns (m: nat)
    requires s != {}
    ensures m in s && forall i :: i in s ==> i <= m
  {
    var first :| first in s;
    var others := s - {first};
    assert s == others + {first};
    m := first;
    if others != {} {
      var rest := HasMax(others);
      m := if first < rest then rest else first;
    }
  }

  ghost function Max(s: set<nat>): (m: nat)
    requires s != {}
    ensures m in s && forall i :: i in s ==> i <= m
  {
    assert exists m: nat :: m in s && forall i :: i in s ==> i <= m by { var m := HasMax(s); }
    var m: nat :| m in s && forall i :: i in s ==> i <= m;
    m
  }

  lemma MaxIs(s: set<nat>, m: nat)
    requires m in s && forall i :: i in s ==> i <= m
    ensures Max(s) == m
  {
  }

  /** The index a name is found under; were a name stored twice, the later entry would win. */
  ghost function Lookup(slots: Slots, name: string): Option<nat> {
    if Indices(slots, name) == {} then None else Some(Max(Indices(slots, name)))
  }

  ghost function NextIndex(slots: Slots): nat {
    if slots == map[] then 0 else Max(slots.Keys) + 1
  }

  /** Giving one name its slot. */
  ghost function Assign(slots: Slots, name: string, creator: string): Slots {
    if Lookup(slots, name).Some? then slots else slots[NextIndex(slots) := SlotMeta(name, creator)]
  }

  ghost function Assigned(slots: Slots, names: seq<string>, creator: string): Slots {
    if names == [] then slots else Assign(Assigned(slots, names[..|names| - 1], creator), names[|names| - 1], creator)
  }

  /** The mapping of an allocation: the names asked for, each with its index afterwards. */
  ghost function Mapping(slots: Slots, names: seq<string>, creator: string): SlotMapping {
    if names == [] then map[]
    else
      var front, last := names[..|names| - 1], names[|names| - 1];
      var before := Assigned(slots, front, creator);
      Mapping(slots, front, creator)[last := Lookup(before, last).GetOr(NextIndex(before))]
  }

  /** The vault row whose slots `allocateSlots` reads and writes. */
  class VaultRow {
    var slots: Slots

    constructor ()
      ensures slots == map[]
    {
      slots := map[];
    }

    method AllocateSlots(names: seq<string>, creator: string) returns (mapping: SlotMapping)
      modifies this
      ensures slots == Assigned(old(slots), names, creator)
      ensures mapping == Mapping(old(slots), names, creator)
    {
      var existingByName := IndexByName(slots);
      var nextIndex := NextFree(slots);
      mapping := map[];
      for k := 0 to |names|
        invariant slots == Assigned(old(slots), names[..k], creator)
        invariant mapping == Mapping(old(slots), names[..k], creator)
        invariant nextIndex == NextIndex(slots)
        invariant IsIndex(existingByName, slots)
      {
        var name := names[k];
        assert names[..k + 1][..k] == names[..k];
        if name in existingByName {
          mapping := mapping[name := existingByName[name]];
        } else {
          AddedSlot(slots, existingByName, nextIndex, SlotMeta(name, creator));
          slots := slots[nextIndex := SlotMeta(name, creator)];
          existingByName := existingByName[name := nextIndex];
          mapping := mapping[name := nextIndex];
          nextIndex := nextIndex + 1;
        }
      }
      assert names[..|names|] == names;
    }
  }

  ghost predicate IsIndex(byName: map<string, nat>, slots: Slots) {
    forall name :: Lookup(slots, name) == if name in byName then Some(byName[name]) else None
  }

  method IndexByName(slots: Slots) returns (byName: map<string, nat>)
    ensures IsIndex(byName, slots)
  {
    byName := map[];
    var rest := slots.Keys;
    while rest != {}
      invariant rest <= slots.Keys
      invariant forall i, j :: i in slots && i !in rest && j in rest ==> i < j
      invariant forall name :: name in byName ==> byName[name] in Indices(slots, name) - rest
      invariant forall name, i :: i in Indices(slots, name) - rest ==> name in byName && i <= byName[name]
    {
      var idx := Least(rest);
      var name := slots[idx].name;
      forall i | i in Indices(slots, name) - (rest - {idx}) ensures i <= idx {
        assert i == idx || i !in rest;
      }
      assert forall n, i :: n != name && i in Indices(slots, n) - (rest - {idx}) ==> i in Indices(slots, n) - rest;
      byName := byName[name := idx];
      rest := rest - {idx};
    }
    assert forall name :: Indices(slots, name) - rest == Indices(slots, name);
    forall name ensures Lookup(slots, name) == if name in byName then Some(byName[name]) else None {
      if name in byName { MaxIs(Indices(slots, name), byName[name]); }
    }
  }

  /** `Object.entries` of integer keys runs upwards. */
  method Least(s: set<nat>) returns (m: nat)
    requires s != {}
    ensures m in s && forall i :: i in s ==> m <= i
  {
    m :| m in s;
    var rest := s - {m};
    while rest != {}
      invariant m in s && rest <= s && forall i :: i in s ==> i in rest || m <= i
    {
      var i :| i in rest;
      m, rest := if i < m then i else m, rest - {i};
    }
  }

  method NextFree(slots: Slots) returns (next: nat)
    ensures next == NextIndex(slots)
  {
    next := 0;
    var rest := slots.Keys;
    while rest != {}
      invariant rest <= slots.Keys
      invariant next > 0 ==> next - 1 in slots && next - 1 !in rest
      invariant forall i :: i in slots && i !in rest ==> i < next
    {
      var i :| i in rest;
      next, rest := if next <= i then i + 1 else next, rest - {i};
    }
    if slots != map[] {
      assert slots.Keys != {} by { assert forall m: Slots :: m.Keys == {} ==> m == map[]; }
      var i :| i in slots.Keys;
      MaxIs(slots.Keys, next - 1);
    }
  }

  lemma NewIndexIsFree(slots: Slots)
    ensures NextIndex(slots) !in slots && forall i :: i in slots ==> i < NextIndex(slots)
  {
  }

  lemma AddedSlot(slots: Slots, byName: map<string, nat>, next: nat, meta: SlotMeta)
    requires next == NextIndex(slots) && IsIndex(byName, slots) && meta.name !in byName
    ensures NextIndex(slots[next := meta]) == next + 1
    ensures IsIndex(byName[meta.name := next], slots[next := meta])
  {
    NewIndexIsFree(slots);
    var slots' := slots[next := meta];
    MaxIs(slots'.Keys, next);
    forall name ensures Lookup(slots', name) == if name == meta.name then Some(next) else Lookup(slots, name) {
      if name == meta.name {
        assert Lookup(slots, name) == None;
        assert Indices(slots', name) == {next};
      } else {
        assert Indices(slots', name) == Indices(slots, name);
      }
    }
  }

  // ---- any history of allocations ----

  /** Every slot of `a` is in `b` under the same index. */
  ghost predicate Keeps(a: Slots, b: Slots) { forall i :: i in a ==> i in b && b[i] == a[i] }

  lemma AssignKeepsDense(slots: Slots, name: string, creator: string)
    requires Dense(slots)
    ensures Dense(Assign(slots, name, creator)) && Keeps(slots, Assign(slots, name, creator))
    ensures Lookup(Assign(slots, name, creator), name) == Some(Lookup(slots, name).GetOr(NextIndex(slots)))
  {
    DenseNext(slots);
    if Lookup(slots, name).None? { AddedAtEnd(slots, SlotMeta(name, creator)); }
  }

  lemma AddedAtEnd(slots: Slots, meta: SlotMeta)
    requires Dense(slots) && Lookup(slots, meta.name).None?
    ensures Dense(slots[|slots| := meta]) && Keeps(slots, slots[|slots| := meta])
    ensures Lookup(slots[|slots| := meta], meta.name) == Some(|slots|)
  {
    var n, slots' := |slots|, slots[|slots| := meta];
    NameIsNew(slots, meta.name);
    assert n !in slots && |slots'| == n + 1;
    assert forall i: nat :: i in slots' <==> i < n + 1;
    MaxIs({n}, n);
    assert Indices(slots', meta.name) == {n} by {
      forall i ensures i in Indices(slots', meta.name) <==> i == n { }
    }
  }

  lemma NameIsNew(slots: Slots, name: string)
    requires Lookup(slots, name).None?
    ensures forall i :: i in slots ==> slots[i].name != name
  {
    forall i | i in slots ensures slots[i].name != name {
      assert i !in Indices(slots, name);
    }
  }

  lemma DenseNext(slots: Slots)
    requires Dense(slots)
    ensures NextIndex(slots) == |slots|
  {
    NewIndexIsFree(slots);
    if |slots| > 0 {
      assert |slots| - 1 in slots;
      MaxIs(slots.Keys, |slots| - 1);
    }
  }

  lemma KeptLookup(a: Slots, b: Slots, name: string)
    requires Dense(a) && Dense(b) && Keeps(a, b) && Lookup(a, name).Some?
    ensures Lookup(b, name) == Lookup(a, name)
  {
    var i := Lookup(a, name).value;
    assert i in Indices(b, name);
  }

  /** `mapping` gives each of the names the slot it has in `slots`. */
  ghost predicate Maps(slots: Slots, names: seq<string>, mapping: SlotMapping) {
    && (forall name :: name in mapping <==> name in names)
    && (forall name :: name in mapping ==> Lookup(slots, name) == Some(mapping[name]))
  }

  /** One allocation: the names get distinct slots that hold them, and nothing already allocated moves. */
  lemma {:induction false} AllocationSound(slots: Slots, names: seq<string>, creator: string)
    requires Dense(slots)
    ensures Dense(Assigned(slots, names, creator)) && Keeps(slots, Assigned(slots, names, creator))
    ensures Maps(Assigned(slots, names, creator), names, Mapping(slots, names, creator))
  {
    hide Dense, Lookup, Assign;
    if names != [] {
      var front, last := names[..|names| - 1], names[|names| - 1];
      AllocationSound(slots, front, creator);
      var before := Assigned(slots, front, creator);
      AssignKeepsDense(before, last, creator);
      assert names == front + [last];
      OneMoreMapped(before, Assign(before, last, creator), front, last, Mapping(slots, front, creator));
    }
  }

  lemma OneMoreMapped(before: Slots, after: Slots, names: seq<string>, last: string, mapping: SlotMapping)
    requires Dense(before) && Dense(after) && Keeps(before, after) && Maps(before, names, mapping)
    requires Lookup(after, last).Some?
    ensures Maps(after, names + [last], mapping[last := Lookup(after, last).value])
  {
    forall name | name in mapping && name != last ensures Lookup(after, name) == Some(mapping[name]) {
      KeptLookup(before, after, name);
    }
  }

  lemma MappingInjective(slots: Slots, names: seq<string>, creator: string, a: string, b: string)
    requires Dense(slots) && a in Mapping(slots, names, creator) && b in Mapping(slots, names, creator)
    requires Mapping(slots, names, creator)[a] == Mapping(slots, names, creator)[b]
    ensures a == b
  {
    AllocationSound(slots, names, creator);
    var after := Assigned(slots, names, creator);
    var i := Mapping(slots, names, creator)[a];
    assert i in Indices(after, a) && i in Indices(after, b);
  }

  /** Asking again, for the same names or some of them, by whichever automation, changes nothing. */
  lemma {:induction false} RepeatIsNoop(slots: Slots, names: seq<string>, creator: string, again: seq<string>,
      creator': string)
    requires Dense(slots) && forall name :: name in again ==> name in names
    ensures Assigned(Assigned(slots, names, creator), again, creator') == Assigned(slots, names, creator)
    ensures Maps(Assigned(slots, names, creator), again, Mapping(Assigned(slots, names, creator), again, creator'))
    ensures forall name :: name in again ==>
              name in Mapping(slots, names, creator)
                && name in Mapping(Assigned(slots, names, creator), again, creator')
              && Mapping(Assigned(slots, names, creator), again, creator')[name] == Mapping(slots, names, creator)[name]
  {
    AllocationSound(slots, names, creator);
    NoNewNames(Assigned(slots, names, creator), again, creator');
    AllocationSound(Assigned(slots, names, creator), again, creator');
  }

  lemma {:induction false} NoNewNames(slots: Slots, names: seq<string>, creator: string)
    requires forall name :: name in names ==> Lookup(slots, name).Some?
    ensures Assigned(slots, names, creator) == slots
  {
    if names != [] { NoNewNames(slots, names[..|names| - 1], creator); }
  }

  datatype Call = Call(names: seq<string>, creator: string)

  /** The slots after a history of calls on a fresh vault. */
  ghost function Replay(calls: seq<Call>): Slots {
    if calls == [] then map[]
    else Assigned(Replay(calls[..|calls| - 1]), calls[|calls| - 1].names, calls[|calls| - 1].creator)
  }

  lemma {:induction false} HistoryIsDense(calls: seq<Call>)
    ensures Dense(Replay(calls))
  {
    if calls != [] {
      HistoryIsDense(calls[..|calls| - 1]);
      AllocationSound(Replay(calls[..|calls| - 1]), calls[|calls| - 1].names, calls[|calls| - 1].creator);
    }
  }

  /** A name keeps the index it got, whatever is allocated later. */
  lemma {:induction false} IndexIsForever(calls: seq<Call>, k: nat, name: string)
    requires k <= |calls| && Lookup(Replay(calls[..k]), name).Some?
    ensures Keeps(Replay(calls[..k]), Replay(calls))
    ensures Lookup(Replay(calls), name) == Lookup(Replay(calls[..k]), name)
  {
    if k == |calls| {
      assert calls[..k] == calls;
    } else {
      var front := calls[..|calls| - 1];
      assert front[..k] == calls[..k];
      IndexIsForever(front, k, name);
      HistoryIsDense(front);
      HistoryIsDense(calls);
      AllocationSound(Replay(front), calls[|calls| - 1].names, calls[|calls| - 1].creator);
      KeptLookup(Replay(front), Replay(calls), name);
    }
  }

  /** After any history every slot is owned by exactly one name, and every name by at most one slot. */
  lemma SlotsAreOwned(calls: seq<Call>, i: nat, name: string)
    requires i < |Replay(calls)|
    ensures i in Replay(calls) && (Lookup(Replay(calls), name) == Some(i) <==> Replay(calls)[i].name == name)
  {
    HistoryIsDense(calls);
    assert Replay(calls)[i].name == name ==> i in Indices(Replay(calls), name);
  }
}
