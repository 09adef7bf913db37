/** Slot allocations that overlap: each call reads the row, and later writes it back without a lock. */
module SlotRaces {
  import opened ContextSlots
  import opened Wrappers

  /** A call between its read and its write. */
  datatype Open = Open(call: Call, read: Slots)

  /** The stored row, the calls under way, and for every finished call the mapping it returned. */
  datatype Row = Row(slots: Slots, open: seq<Open>, returned: seq<(Call, SlotMapping)>)

  datatype Event = Read(call: Call) | Write(index: nat)

  ghost predicate Enabled(r: Row, e: Event) { e.Write? ==> e.index < |r.open| }

  ghost function Apply(r: Row, e: Event): Row
    requires Enabled(r, e)
  {
    match e
    case Read(call) => r.(open := r.open + [Open(call, r.slots)])
    case Write(i) =>
      var o := r.open[i];
      Row(Assigned(o.read, o.call.names, o.call.creator), r.open[..i] + r.open[i + 1..],
          r.returned + [(o.call, Mapping(o.read, o.call.names, o.call.creator))])
  }

  /** Any interleaving of reads and writes, from an empty row. */
  ghost predicate IsRun(run: seq<Row>) {
    && run != [] && run[0] == Row(map[], [], [])
    && forall k: nat :: k + 1 < |run| ==> Steps(run[k], run[k + 1])
  }

  ghost predicate Steps(r: Row, r': Row) { exists e :: Enabled(r, e) && r' == Apply(r, e) }

  ghost predicate DenseEverywhere(r: Row) {
    Dense(r.slots) && forall i :: 0 <= i < |r.open| ==> Dense(r.open[i].read)
  }

  lemma StepKeepsDense(r: Row, r': Row)
    requires DenseEverywhere(r) && Steps(r, r')
    ensures DenseEverywhere(r')
  {
    hide Dense, Mapping, Assigned;
    var e :| Enabled(r, e) && r' == Apply(r, e);
    if e.Write? {
      var o := r.open[e.index];
      AllocationSound(o.read, o.call.names, o.call.creator);
    }
  }

  /** However calls overlap, the stored indices are 0 to n-1 and the stored names are unique. */
  lemma {:induction false} AlwaysDense(run: seq<Row>, k: nat)
    requires IsRun(run) && k < |run|
    ensures DenseEverywhere(run[k])
    decreases k
  {
    if k > 0 {
      AlwaysDense(run, k - 1);
      assert Steps(run[k - 1], run[k - 1 + 1]);
      StepKeepsDense(run[k - 1], run[k]);
    }
  }

  // ---- what a stale write loses ----

  /** The stored names by index. */
  ghost function NameList(slots: Slots): seq<string>
    requires Dense(slots)
  {
    seq(|slots|, i requires 0 <= i < |slots| => slots[i].name)
  }

  /** The names of a call that the row it read does not hold, each once, in order. */
  ghost function NewNames(read: Slots, names: seq<string>): seq<string> {
    if names == [] then []
    else
      var front, last := NewNames(read, names[..|names| - 1]), names[|names| - 1];
      if Lookup(read, last).Some? || last in front then front else front + [last]
  }

  lemma NameListHas(slots: Slots, name: string)
    requires Dense(slots)
    ensures name in NameList(slots) <==> Lookup(slots, name).Some?
    ensures Lookup(slots, name).Some? ==> NameList(slots)[Lookup(slots, name).value] == name
  {
    if Lookup(slots, name).Some? {
      assert Lookup(slots, name).value in Indices(slots, name);
      assert NameList(slots)[Lookup(slots, name).value] == name;
    } else {
      NameIsNew(slots, name);
    }
  }

  /** What a call writes: the names it read, then its new ones. */
  lemma {:induction false} WrittenNames(read: Slots, names: seq<string>, creator: string)
    requires Dense(read)
    ensures Dense(Assigned(read, names, creator))
    ensures NameList(Assigned(read, names, creator)) == NameList(read) + NewNames(read, names)
  {
    hide Dense, Lookup;
    AllocationSound(read, names, creator);
    if names != [] {
      var front, last := names[..|names| - 1], names[|names| - 1];
      WrittenNames(read, front, creator);
      var before := Assigned(read, front, creator);
      NameListHas(before, last);
      NameListHas(read, last);
      OneMoreName(before, last, creator);
    }
  }

  lemma OneMoreName(slots: Slots, name: string, creator: string)
    requires Dense(slots) && Dense(Assign(slots, name, creator))
    ensures NameList(Assign(slots, name, creator)) == NameList(slots) + if Lookup(slots, name).Some? then [] else [name]
  {
    DenseNext(slots);
  }

  /** Every name stored in `stored` has the same index in `written`. */
  ghost predicate KeepsIndices(stored: Slots, written: Slots) {
    forall name :: Lookup(stored, name).Some? ==> Lookup(written, name) == Lookup(stored, name)
  }

  lemma IndicesArePrefix(stored: Slots, written: Slots)
    requires Dense(stored) && Dense(written)
    ensures KeepsIndices(stored, written) <==> NameList(stored) <= NameList(written)
  {
    if KeepsIndices(stored, written) {
      if |stored| > 0 { NameStays(stored, written, |stored| - 1); }
      forall i: nat | i < |stored| ensures i < |written| && written[i].name == stored[i].name {
        NameStays(stored, written, i);
      }
      assert NameList(stored) == NameList(written)[..|stored|];
    }
    if NameList(stored) <= NameList(written) {
      forall name | Lookup(stored, name).Some? ensures Lookup(written, name) == Lookup(stored, name) {
        SameIndex(stored, written, name);
      }
    }
  }

  lemma NameStays(stored: Slots, written: Slots, i: nat)
    requires Dense(stored) && Dense(written) && KeepsIndices(stored, written) && i < |stored|
    ensures i < |written| && written[i].name == stored[i].name
  {
    assert i in Indices(stored, stored[i].name);
    assert Lookup(stored, stored[i].name) == Some(i);
    assert i in Indices(written, stored[i].name);
  }

  lemma SameIndex(stored: Slots, written: Slots, name: string)
    requires Dense(stored) && Dense(written) && NameList(stored) <= NameList(written) && Lookup(stored, name).Some?
    ensures Lookup(written, name) == Lookup(stored, name)
  {
    var i := Lookup(stored, name).value;
    assert i in Indices(stored, name);
    assert NameList(written)[i] == NameList(stored)[i] == name;
    assert i in Indices(written, name);
  }

  /** A call that read `read` writes over `stored`, whatever both hold: every stored name keeps its index exactly if the
      stored names are a beginning of the names it read followed by its new ones. */
  lemma WriteKeepsExactly(read: Slots, stored: Slots, names: seq<string>, creator: string)
    requires Dense(read) && Dense(stored)
    ensures KeepsIndices(stored, Assigned(read, names, creator)) <==>
            NameList(stored) <= NameList(read) + NewNames(read, names)
  {
    hide KeepsIndices, Dense, NameList, NewNames;
    WrittenNames(read, names, creator);
    IndicesArePrefix(stored, Assigned(read, names, creator));
  }

  // ---- mappings over a run ----

  ghost predicate Holds(slots: Slots, returned: (Call, SlotMapping)) { Maps(slots, returned.0.names, returned.1) }

  /** Every finished call's mapping is still what the row says. */
  ghost predicate AllHold(r: Row) {
    forall i :: 0 <= i < |r.returned| ==> Holds(r.slots, r.returned[i])
  }

  /** The write would keep the index of every stored name. */
  ghost predicate Harmless(r: Row, e: Event)
    requires DenseEverywhere(r)
  {
    e.Write? && e.index < |r.open| ==>
      var o := r.open[e.index];
      NameList(r.slots) <= NameList(o.read) + NewNames(o.read, o.call.names)
  }

  /** Some finished call asked for the name. */
  ghost predicate AskedFor(r: Row, name: string) {
    exists i :: 0 <= i < |r.returned| && name in r.returned[i].0.names
  }

  ghost predicate AllAskedFor(r: Row, slots: Slots) {
    forall name :: Lookup(slots, name).Some? ==> AskedFor(r, name)
  }

  /** Every stored name, and every name a call under way has read, was asked for by a finished call. */
  ghost predicate Accounted(r: Row) {
    AllAskedFor(r, r.slots) && forall i :: 0 <= i < |r.open| ==> AllAskedFor(r, r.open[i].read)
  }

  lemma AskedForStays(r: Row, r': Row, name: string)
    requires AskedFor(r, name) && r.returned <= r'.returned
    ensures AskedFor(r', name)
  {
    var i :| 0 <= i < |r.returned| && name in r.returned[i].0.names;
    assert r'.returned[i] == r.returned[i];
  }

  lemma WrittenAreAskedFor(r: Row, e: Event, name: string)
    requires DenseEverywhere(r) && Accounted(r) && Enabled(r, e) && e.Write? && Lookup(Apply(r, e).slots, name).Some?
    ensures AskedFor(Apply(r, e), name)
  {
    hide Dense, Lookup, Assigned, Mapping, NameList;
    var o, r' := r.open[e.index], Apply(r, e);
    WrittenNames(o.read, o.call.names, o.call.creator);
    NameListHas(r'.slots, name);
    NameListHas(o.read, name);
    if Lookup(o.read, name).Some? {
      AskedForStays(r, r', name);
    } else {
      NewNamesAreAsked(o.read, o.call.names, name);
      assert r'.returned[|r.returned|].0 == o.call;
    }
  }

  lemma {:induction false} NewNamesAreAsked(read: Slots, names: seq<string>, name: string)
    requires name in NewNames(read, names)
    ensures name in names
  {
    hide Lookup;
    var front, last := names[..|names| - 1], names[|names| - 1];
    assert names == front + [last];
    if name != last { NewNamesAreAsked(read, front, name); }
  }

  lemma StepKeepsAccounted(r: Row, e: Event)
    requires DenseEverywhere(r) && Accounted(r) && Enabled(r, e)
    ensures Accounted(Apply(r, e))
  {
    hide Dense, Lookup, Assigned, Mapping, AskedFor;
    var r' := Apply(r, e);
    if e.Write? {
      forall name | Lookup(r'.slots, name).Some? ensures AskedFor(r', name) { WrittenAreAskedFor(r, e, name); }
    }
    forall i, name | 0 <= i < |r'.open| && Lookup(r'.open[i].read, name).Some? ensures AskedFor(r', name) {
      AskedForStays(r, r', name);
    }
    if e.Read? {
      forall name | Lookup(r'.slots, name).Some? ensures AskedFor(r', name) { AskedForStays(r, r', name); }
    }
  }

  lemma {:induction false} AlwaysAccounted(run: seq<Row>, k: nat)
    requires IsRun(run) && k < |run|
    ensures Accounted(run[k])
    decreases k
  {
    if k == 0 {
      NotFoundInEmpty();
    } else {
      AlwaysAccounted(run, k - 1);
      AlwaysDense(run, k - 1);
      assert Steps(run[k - 1], run[k - 1 + 1]);
      var e :| Enabled(run[k - 1], e) && run[k] == Apply(run[k - 1], e);
      hide Accounted, DenseEverywhere, Apply;
      StepKeepsAccounted(run[k - 1], e);
    }
  }

  lemma NotFoundInEmpty()
    ensures forall name :: Lookup(map[], name) == None
  {
    forall name ensures Lookup(map[], name) == None { NotFound(map[], name); }
  }

  /** While all mappings handed out hold, a step keeps them exactly if it is harmless. */
  lemma StepKeepsMappingsExactly(r: Row, e: Event)
    requires DenseEverywhere(r) && Accounted(r) && AllHold(r) && Enabled(r, e)
    ensures AllHold(Apply(r, e)) <==> Harmless(r, e)
  {
    hide Dense, Lookup, Assigned, Mapping, Maps, NameList, NewNames, AskedFor;
    if e.Write? {
      var o, r' := r.open[e.index], Apply(r, e);
      AllocationSound(o.read, o.call.names, o.call.creator);
      WriteKeepsExactly(o.read, r.slots, o.call.names, o.call.creator);
      if KeepsIndices(r.slots, r'.slots) {
        forall i | 0 <= i < |r'.returned| ensures Holds(r'.slots, r'.returned[i]) {
          if i < |r.returned| { MappingStays(r.slots, r'.slots, r.returned[i]); }
        }
      }
      if AllHold(r') {
        forall name | Lookup(r.slots, name).Some? ensures Lookup(r'.slots, name) == Lookup(r.slots, name) {
          IndexStays(r, r', name);
        }
      }
    }
  }

  lemma MappingStays(a: Slots, b: Slots, returned: (Call, SlotMapping))
    requires KeepsIndices(a, b) && Holds(a, returned)
    ensures Holds(b, returned)
  {
    hide Lookup;
  }

  lemma IndexStays(r: Row, r': Row, name: string)
    requires AllHold(r) && AllHold(r') && r.returned <= r'.returned && AskedFor(r, name)
    ensures Lookup(r'.slots, name) == Lookup(r.slots, name)
  {
    hide Lookup;
    var i :| 0 <= i < |r.returned| && name in r.returned[i].0.names;
    assert Holds(r.slots, r.returned[i]) && Holds(r'.slots, r'.returned[i]);
  }

  ghost predicate HarmlessStep(r: Row, r': Row) {
    DenseEverywhere(r) && exists e :: Enabled(r, e) && Harmless(r, e) && r' == Apply(r, e)
  }

  /** Everything handed out so far holds, in every state up to k. */
  ghost predicate HoldsUpTo(run: seq<Row>, k: nat)
    requires k < |run|
  {
    forall j: nat :: j <= k ==> AllHold(run[j])
  }

  ghost predicate HarmlessUpTo(run: seq<Row>, k: nat)
    requires k < |run|
  {
    forall j: nat :: j < k ==> HarmlessStep(run[j], run[j + 1])
  }

  lemma RunStepExactly(run: seq<Row>, k: nat)
    requires IsRun(run) && k + 1 < |run| && AllHold(run[k])
    ensures AllHold(run[k + 1]) <==> HarmlessStep(run[k], run[k + 1])
  {
    AlwaysDense(run, k);
    AlwaysAccounted(run, k);
    assert Steps(run[k], run[k + 1]);
    var e :| Enabled(run[k], e) && run[k + 1] == Apply(run[k], e);
    hide DenseEverywhere, Accounted, AllHold, Harmless, Apply;
    StepKeepsMappingsExactly(run[k], e);
    if HarmlessStep(run[k], run[k + 1]) {
      var d :| Enabled(run[k], d) && Harmless(run[k], d) && run[k + 1] == Apply(run[k], d);
      StepKeepsMappingsExactly(run[k], d);
    }
  }

  /** However calls overlap, every mapping handed out stays right exactly as long as every write is harmless. */
  lemma {:induction false} MappingsStayRightExactly(run: seq<Row>, k: nat)
    requires IsRun(run) && k < |run|
    ensures HoldsUpTo(run, k) <==> HarmlessUpTo(run, k)
    decreases k
  {
    hide AllHold, HarmlessStep, Steps;
    if k == 0 {
      NothingReturned(run[0]);
    } else {
      MappingsStayRightExactly(run, k - 1);
      if AllHold(run[k - 1]) { RunStepExactly(run, k - 1); }
      UpToOneMore(run, k);
    }
  }

  lemma NothingReturned(r: Row)
    requires r.returned == []
    ensures AllHold(r)
  {
  }

  lemma UpToOneMore(run: seq<Row>, k: nat)
    requires 0 < k < |run|
    ensures HoldsUpTo(run, k) <==> HoldsUpTo(run, k - 1) && AllHold(run[k])
    ensures HarmlessUpTo(run, k) <==> HarmlessUpTo(run, k - 1) && HarmlessStep(run[k - 1], run[k])
  {
    hide AllHold, HarmlessStep;
    if HarmlessUpTo(run, k) { assert HarmlessStep(run[k - 1], run[k - 1 + 1]); }
  }

  /** A write over the row it read is harmless. */
  lemma UpToDateIsHarmless(r: Row, e: Event)
    requires DenseEverywhere(r) && Enabled(r, e) && (e.Write? ==> r.open[e.index].read == r.slots)
    ensures Harmless(r, e)
  {
  }

  /** So is the second of two overlapping calls for the same names. */
  lemma RepeatIsHarmless(read: Slots, names: seq<string>, creator: string)
    requires Dense(read)
    ensures Dense(Assigned(read, names, creator))
    ensures NameList(Assigned(read, names, creator)) <= NameList(read) + NewNames(read, names)
  {
    WrittenNames(read, names, creator);
  }

  /** Two first allocations that overlap: both return slot 0, and only the later one is stored. */
  lemma OverlappingCallsShareASlot()
    ensures var a, b := Call(["a"], "A"), Call(["b"], "B");
            var start := Row(map[], [], []);
            var end := Apply(Apply(Apply(Apply(start, Read(a)), Read(b)), Write(0)), Write(0));
            && end.returned == [(a, map["a" := 0]), (b, map["b" := 0])]
            && end.slots == map[0 := SlotMeta("b", "B")] && !AllHold(end)
  {
    var a, b := Call(["a"], "A"), Call(["b"], "B");
    FirstSlot("a", "A");
    FirstSlot("b", "B");
    hide Assigned, Mapping, Lookup;
    var second := Apply(Apply(Row(map[], [], []), Read(a)), Read(b));
    assert second.open == [Open(a, map[]), Open(b, map[])];
    var third := Apply(second, Write(0));
    assert third.open == [Open(b, map[])];
    var end := Apply(third, Write(0));
    NotFound(end.slots, "a");
    assert !Holds(end.slots, end.returned[0]);
  }

  lemma NotFound(slots: Slots, name: string)
    requires forall i :: i in slots ==> slots[i].name != name
    ensures Lookup(slots, name) == None
  {
    assert Indices(slots, name) == {};
  }

  lemma FirstSlot(name: string, creator: string)
    ensures Assigned(map[], [name], creator) == map[0 := SlotMeta(name, creator)]
    ensures Mapping(map[], [name], creator) == map[name := 0]
  {
    assert [name][..0] == [];
    assert Assigned(map[], [], creator) == map[] && Mapping(map[], [], creator) == map[];
    assert Indices(map[], name) == {};
  }
}
