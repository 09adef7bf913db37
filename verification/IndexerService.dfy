/** The indexer service itself: one poll after another, over a world that moves at every `await`. */
module IndexerService {
  import opened Chain
  import opened EventMapper
  import opened FailureLedger
  import opened IndexerCoverage
  import opened IndexerInvariant
  import opened IndexerProtocol
  import opened IndexerSteps
  import opened IndexerTheorems
  import opened RangePlanner
  import opened WindowRows
  import opened Wrappers

  /** What a poll cannot control. At the n-th await: what the other processes have made of the world meanwhile,
      whether this process dies there, whether the RPC answers, the fee rate it reports, and the time. */
  datatype Surroundings = Surroundings(
    others: (nat, World) -> World, dies: nat -> bool, answers: nat -> bool, feeBps: nat -> nat, now: nat -> nat)

  datatype Stop = Died | Threw

  ghost predicate OtherStep(cfg: Settings, v: World, a: Action, w': World) {
    IsOther(a) && Enabled(cfg, State(v, Idle), a) && w' == Apply(cfg, State(v, Idle), a).w
  }

  ghost predicate OtherMove(cfg: Settings, v: World, w': World) { exists a :: OtherStep(cfg, v, a, w') }

  /** The others only do what other processes can do. */
  ghost predicate Honest(cfg: Settings, around: Surroundings) {
    forall n, w :: OnlyOthers(cfg, w, around.others(n, w))
  }

  ghost predicate OnlyOthers(cfg: Settings, w: World, w': World) { exists path :: OthersPath(cfg, w, path, w') }

  ghost predicate OthersPath(cfg: Settings, w: World, path: seq<World>, w': World) {
    && path != [] && path[0] == w && path[|path| - 1] == w'
    && forall k: nat :: k + 1 < |path| ==> OtherMoveAt(cfg, path, k)
  }

  ghost predicate OtherMoveAt(cfg: Settings, path: seq<World>, k: nat) {
    k + 1 < |path| && OtherMove(cfg, path[k], path[k + 1])
  }

  /** The others leave the indexer's own tables alone. */
  ghost predicate Interferes(cfg: Settings, w: World, w': World) {
    && Grows(cfg, w, w')
    && w'.executions == w.executions && w'.vaultEvents == w.vaultEvents && w'.cursor == w.cursor
  }

  /** A reachable state that serves what was known when the poll began. */
  ghost predicate OnTrack(cfg: Settings, start: World, s: State) { Reachable(cfg, s) && Serves(start, s) }

  lemma StepOnTrack(cfg: Settings, start: World, s: State, a: Action)
    requires OnTrack(cfg, start, s) && Enabled(cfg, s, a)
    ensures OnTrack(cfg, start, Apply(cfg, s, a)) && Grows(cfg, s.w, Apply(cfg, s, a).w)
  {
    hide Reachable, Inv, Serves, Grows, Enabled, Apply;
    ReachableInv(cfg, s);
    StepGrows(cfg, s, a);
    StepServes(cfg, start, s, a);
    ReachableStep(cfg, s, a);
  }

  lemma OtherStepIsAStep(cfg: Settings, start: World, v: World, pc: Process, a: Action, w': World)
    requires OnTrack(cfg, start, State(v, pc)) && OtherStep(cfg, v, a, w')
    ensures OnTrack(cfg, start, State(w', pc)) && Interferes(cfg, v, w')
  {
    hide OnTrack, Grows, WellFormed, Extends, Look;
    assert Apply(cfg, State(v, pc), a) == State(w', pc);
    StepOnTrack(cfg, start, State(v, pc), a);
  }

  lemma OtherMoveIsAStep(cfg: Settings, start: World, v: World, pc: Process, w': World)
    requires OnTrack(cfg, start, State(v, pc)) && OtherMove(cfg, v, w')
    ensures OnTrack(cfg, start, State(w', pc)) && Interferes(cfg, v, w')
  {
    var a :| OtherStep(cfg, v, a, w');
    OtherStepIsAStep(cfg, start, v, pc, a, w');
  }

  lemma OtherMoveOfPath(cfg: Settings, start: World, w: World, pc: Process, path: seq<World>, k: nat)
    requires OtherMoveAt(cfg, path, k) && OnTrack(cfg, start, State(path[k], pc)) && Interferes(cfg, w, path[k])
    ensures OnTrack(cfg, start, State(path[k + 1], pc)) && Interferes(cfg, w, path[k + 1])
  {
    OtherMoveIsAStep(cfg, start, path[k], pc, path[k + 1]);
    GrowsFurther(cfg, w, path[k], path[k + 1]);
  }

  lemma {:induction false} PathKeeps<A(!new)>(path: seq<A>, good: A -> bool, k: nat)
    requires k < |path| && good(path[0]) && forall i: nat :: i < |path| - 1 && good(path[i]) ==> good(path[i + 1])
    ensures good(path[k])
    decreases k
  {
    if k > 0 {
      PathKeeps(path, good, k - 1);
    }
  }

  lemma OthersAreSteps(cfg: Settings, start: World, w: World, pc: Process, path: seq<World>, w': World)
    requires OnTrack(cfg, start, State(w, pc)) && OthersPath(cfg, w, path, w')
    ensures OnTrack(cfg, start, State(w', pc)) && Interferes(cfg, w, w')
  {
    hide OnTrack;
    var good := (v: World) => OnTrack(cfg, start, State(v, pc)) && Interferes(cfg, w, v);
    assert good(path[0]);
    forall i: nat | i < |path| - 1 && good(path[i]) ensures good(path[i + 1]) {
      assert OtherMoveAt(cfg, path, i);
      OtherMoveOfPath(cfg, start, w, pc, path, i);
    }
    PathKeeps(path, good, |path| - 1);
  }

  lemma ChainHasHead(cfg: Settings, s: State)
    requires Reachable(cfg, s)
    ensures s.w.chain != []
  {
    ReachableInv(cfg, s);
  }

  lemma FirstTile(todo: seq<BlockRange>, start: int, end: int)
    requires todo != [] && Tiles(todo, start, end)
    ensures todo[0].from == start <= todo[0].to <= end
  {
  }

  /** The window being fetched is confirmed. */
  lemma WindowInChain(cfg: Settings, s: State)
    requires Reachable(cfg, s) && s.pc.Fetching?
    ensures s.pc.todo != []
    ensures 0 <= s.pc.todo[0].from <= s.pc.todo[0].to <= Safe(s.w.chain, cfg.confirmations) < |s.w.chain|
  {
    hide Reachable, WorldOk, WellFormed, LogsIn;
    ReachableInv(cfg, s);
    FirstTile(s.pc.todo, s.pc.todo[0].from, s.pc.t.ranges[0].to);
  }

  lemma InterferesFurther(cfg: Settings, u: World, v: World, w: World)
    requires Interferes(cfg, u, v) && Interferes(cfg, v, w)
    ensures Interferes(cfg, u, w)
  {
    GrowsFurther(cfg, u, v, w);
  }

  /** The logs of the first half are still those of the chain when the second half arrives. */
  lemma HalvesFetched(cfg: Settings, asked: World, u: World, v: World, range: BlockRange)
    requires Interferes(cfg, asked, u) && Interferes(cfg, u, v)
    requires 0 <= range.from < range.to <= Safe(asked.chain, cfg.confirmations)
    ensures var mid := Halve(range)[0].to;
            && range.from <= mid < range.to < |u.chain| <= |v.chain| && Halve(range)[1].from == mid + 1
            && LogsIn(u.chain, range.from, mid + 1) + LogsIn(v.chain, mid + 1, range.to + 1)
               == LogsIn(v.chain, range.from, range.to + 1)
  {
    var mid := Halve(range)[0].to;
    LogsUnchanged(u.chain, v.chain, range.from, mid + 1);
    LogsSplit(v.chain, range.from, mid + 1, range.to + 1);
  }

  /** The cursor has not moved and the confirmed blocks are the same. */
  ghost predicate Follows(cfg: Settings, w: World, w': World) {
    Extends(w.chain, w'.chain, cfg.confirmations) && w'.cursor == w.cursor
  }

  lemma InterferesFollows(cfg: Settings, u: World, v: World, w: World)
    requires Interferes(cfg, v, w)
    ensures u == v ==> Follows(cfg, u, w)
    ensures Follows(cfg, u, v) ==> Follows(cfg, u, w)
  {
  }

  lemma FollowsFurther(cfg: Settings, u: World, v: World, w: World)
    requires Follows(cfg, u, v) && Follows(cfg, v, w)
    ensures Follows(cfg, u, w)
  {
  }

  lemma SameChainFollows(cfg: Settings, u: World, v: World, w: World)
    requires Follows(cfg, u, v) && w.chain == v.chain && w.cursor == v.cursor
    ensures Follows(cfg, u, w)
  {
  }

  lemma FollowsItself(cfg: Settings, w: World)
    ensures Follows(cfg, w, w)
  {
  }

  lemma GrowsChain(cfg: Settings, w: World, w': World)
    requires Grows(cfg, w, w')
    ensures |w.chain| <= |w'.chain|
  {
  }

  /** A plan ends at the confirmed head, or the cursor is there already. */
  lemma PlanReaches(head: nat, cursor: nat, cfg: Settings)
    requires cfg.maxRange >= 1
    ensures var ranges := PlanFrom(cursor + 1, head - cfg.confirmations, cfg.maxRange);
            if ranges == [] then head - cfg.confirmations <= cursor
            else ranges[|ranges| - 1].to == head - cfg.confirmations
  {
    var start, end := cursor + 1, head - cfg.confirmations;
    if start <= end {
      PlanTiles(start, end, cfg.maxRange);
      TilesEnd(PlanFrom(start, end, cfg.maxRange), start, end);
    }
  }

  // ---- timestamps ----

  lemma ParsedIsStamped(cfg: Settings, s: State)
    requires Reachable(cfg, s) && s.pc.Stamping?
    ensures Stamped(s.pc.parsed, ChainTimes(s.w.chain))
  {
    ReachableInv(cfg, s);
    ParsedInBlocks(s.w.chain, s.pc.t.gate.Keys, Lo(s.pc.t), Hi(s.pc.t));
  }

  /** The timestamps read for a window stay those of the chain, and so do the rows made with them. */
  lemma TimesStay(cfg: Settings, s: State, w: World, bps: nat)
    requires Reachable(cfg, s) && s.pc.Stamping? && Follows(cfg, s.w, w)
    ensures Stamped(s.pc.parsed, ChainTimes(s.w.chain)) && Stamped(s.pc.parsed, ChainTimes(w.chain))
    ensures VaultEventRows(s.pc.parsed, ChainTimes(w.chain), bps)
            == VaultEventRows(s.pc.parsed, ChainTimes(s.w.chain), bps)
  {
    ReachableInv(cfg, s);
    var parsed := s.pc.parsed;
    ParsedInBlocks(s.w.chain, s.pc.t.gate.Keys, Lo(s.pc.t), Hi(s.pc.t));
    SameStamps(parsed, parsed, ChainTimes(s.w.chain), ChainTimes(w.chain), bps);
  }

  /** A finished window is confirmed. */
  lemma WindowIsPassed(cfg: Settings, s: State)
    requires Reachable(cfg, s) && s.pc.Advancing?
    ensures s.pc.t.ranges != [] && 0 <= s.pc.t.ranges[0].to
  {
    ReachableInv(cfg, s);
  }

  // ---- overlapping polls ----

  datatype Poll = Ticking | Over

  /** The polls started so far and the service's guard. */
  datatype Polls = Polls(inFlight: bool, polls: seq<Poll>)

  /** A poll is started, at any time, or a ticking one ends, well or with an error. */
  datatype PollEvent = Start | End(poll: nat)

  predicate Possible(s: Polls, e: PollEvent) { e.End? ==> e.poll < |s.polls| && s.polls[e.poll] == Ticking }

  /** `runOnce` up to its `await`, and from there to its end. */
  function Polled(s: Polls, e: PollEvent): Polls
    requires Possible(s, e)
  {
    match e
    case Start => if s.inFlight then s.(polls := s.polls + [Over]) else Polls(true, s.polls + [Ticking])
    case End(k) => Polls(false, s.polls[k := Over])
  }

  function PollsAfter(events: seq<PollEvent>): Option<Polls> {
    if events == [] then Some(Polls(false, []))
    else
      var before, e := PollsAfter(events[..|events| - 1]), events[|events| - 1];
      if before.Some? && Possible(before.value, e) then Some(Polled(before.value, e)) else None
  }

  /** However polls are started and end, at most one ticks, exactly while the guard is set. */
  lemma {:induction false} OneTickAtATime(events: seq<PollEvent>)
    requires PollsAfter(events).Some?
    ensures var s := PollsAfter(events).value;
            && (forall i, j :: 0 <= i < j < |s.polls| ==> s.polls[i] != Ticking || s.polls[j] != Ticking)
            && (s.inFlight <==> Ticking in s.polls)
  {
    if events != [] {
      var before, e := PollsAfter(events[..|events| - 1]).value, events[|events| - 1];
      OneTickAtATime(events[..|events| - 1]);
      if e.Start? && !before.inFlight {
        assert PollsAfter(events).value.polls[|before.polls|] == Ticking;
      }
    }
  }

  // ---- lists of rows ----

  /** The gate before the decode, then the decode. */
  method GateLogs(logs: seq<Log>, vaults: set<Address>) returns (parsed: seq<Parsed>)
    ensures parsed == Gated(logs, vaults)
  {
    parsed := [];
    for i := 0 to |logs|
      invariant parsed == Gated(logs[..i], vaults)
    {
      var l := logs[i];
      assert logs[..i + 1][..i] == logs[..i];
      if l.address.Some? && l.address.value in vaults && !l.event.Undecodable? {
        parsed := parsed + [Parsed(l.address.value, l.txHash, l.blockNumber, l.index, l.event)];
      }
    }
    assert logs[..|logs|] == logs;
  }

  method NewExecutions(rows: seq<ExecutionRow>, stored: set<Key>) returns (newRows: seq<ExecutionRow>)
    ensures newRows == FreshExecutions(rows, stored)
  {
    newRows := [];
    for i := 0 to |rows|
      invariant newRows == FreshExecutions(rows[..i], stored)
    {
      assert rows[..i + 1][..i] == rows[..i];
      if rows[i].key !in stored { newRows := newRows + [rows[i]]; }
    }
    assert rows[..|rows|] == rows;
  }

  method NewVaultEvents(rows: seq<VaultEventRow>, stored: set<Key>) returns (newRows: seq<VaultEventRow>)
    ensures newRows == FreshEvents(rows, stored)
  {
    newRows := [];
    for i := 0 to |rows|
      invariant newRows == FreshEvents(rows[..i], stored)
    {
      assert rows[..i + 1][..i] == rows[..i];
      if rows[i].key !in stored { newRows := newRows + [rows[i]]; }
    }
    assert rows[..|rows|] == rows;
  }

  /** `resolvePairs`: the pairs of the rows, each once. */
  method DistinctPairs(gate: Gate, rows: seq<ExecutionRow>) returns (pairs: seq<Pair>)
    requires Gates(gate, rows)
    ensures (set p | p in pairs) == PairsOf(gate, rows)
    ensures forall i, j :: 0 <= i < j < |pairs| ==> pairs[i] != pairs[j]
  {
    pairs := [];
    for i := 0 to |rows|
      invariant forall p ::
                  p in pairs <==>
                    exists k :: 0 <= k < i && p == Pair(gate[rows[k].vaultAddress], rows[k].automationId)
      invariant forall i, j :: 0 <= i < j < |pairs| ==> pairs[i] != pairs[j]
    {
      var p := Pair(gate[rows[i].vaultAddress], rows[i].automationId);
      if p !in pairs { pairs := pairs + [p]; }
    }
    forall p ensures p in pairs <==> p in PairsOf(gate, rows) {
    }
  }

  ghost predicate Injective(gate: Gate) {
    forall a, b :: a in gate && b in gate && gate[a] == gate[b] ==> a == b
  }

  /** `[...entries()].find(([, id]) => id === vaultId)` */
  method FindAddress(gate: Gate, vault: VaultId) returns (address: Option<Address>)
    ensures address.Some? ==> address.value in gate && gate[address.value] == vault
    ensures address.None? ==> !HasAddress(gate, vault)
  {
    var rest := gate.Keys;
    while rest != {}
      invariant rest <= gate.Keys && forall a :: a in gate && a !in rest ==> gate[a] != vault
    {
      var a :| a in rest;
      if gate[a] == vault { return Some(a); }
      rest := rest - {a};
    }
    address := None;
  }

  method EmitNewExecutions(gate: Gate, created: seq<ExecutionRecord>) returns (emissions: seq<Emission>)
    requires Injective(gate)
    ensures emissions == Emissions(gate, created)
  {
    emissions := [];
    for i := 0 to |created|
      invariant emissions == Emissions(gate, created[..i])
    {
      assert created[..i + 1][..i] == created[..i];
      var address := FindAddress(gate, created[i].vault);
      if address.Some? { emissions := emissions + [Emission(address.value, created[i])]; }
    }
    assert created[..|created|] == created;
  }

  lemma CommitIsEnabled(cfg: Settings, s: State, at: nat)
    requires Reachable(cfg, s) && s.pc.Committing?
    ensures Enabled(cfg, s, CommitExecutions(at)) && Gates(s.pc.t.gate, s.pc.newRows)
  {
    ReachableInv(cfg, s);
    CommitKeeps(cfg, s, at);
  }

  lemma StoreIsEnabled(cfg: Settings, s: State)
    requires Reachable(cfg, s) && s.pc.InsertingEvents?
    ensures Enabled(cfg, s, StoreEvents) && GatesEvents(s.pc.t.gate, s.pc.newEvents)
  {
    ReachableInv(cfg, s);
    StoreEventsKeeps(cfg, s);
  }

  lemma GateIsInjective(cfg: Settings, s: State)
    requires Reachable(cfg, s) && s.pc.ReadingBack?
    ensures Injective(s.pc.t.gate)
  {
    ReachableInv(cfg, s);
  }

  /** Every execution, deposit and withdrawal of a vault of `u` in a block passed since has exactly one row. */
  ghost predicate AllIndexed(u: World, w: World) {
    forall b: nat :: PassedSince(u, w, b) ==>
      && b < |w.chain|
      && forall l :: l in w.chain[b].logs && l.address.Some? && l.address.value in u.vaults ==> IsIndexed(w, l)
  }

  lemma ServedAreIndexed(cfg: Settings, u: World, s: State)
    requires OnTrack(cfg, u, s)
    ensures AllIndexed(u, s.w)
  {
    ReachableInv(cfg, s);
    hide OnTrack, Inv, IsIndexed;
    forall b: nat | PassedSince(u, s.w, b)
      ensures b < |s.w.chain|
      ensures forall l :: l in s.w.chain[b].logs && l.address.Some? && l.address.value in u.vaults ==> IsIndexed(s.w, l)
    {
      ServedIsIndexed(cfg, u, s, b);
    }
  }

  /** Where a fetch leads once `got` is all of it, or there are windows left. */
  function Fetched(t: Tick, todo: seq<BlockRange>, got: seq<Log>): Process {
    if todo == [] then AfterFetch(t, got) else Fetching(t, todo, got)
  }

  class Indexer {
    const cfg: Settings
    const around: Surroundings

    var w: World
    var awaits: nat
    var inFlight: bool
    ghost var pc: Process     // where the protocol stands
    ghost var start: World    // the world when the poll began

    ghost predicate Valid()
      reads this
    {
      Honest(cfg, around) && Reachable(cfg, State(w, pc)) && Grows(cfg, start, w) && Serves(start, State(w, pc))
    }

    constructor (cfg: Settings, around: Surroundings, w: World)
      requires Honest(cfg, around) && Initial(State(w, Idle))
      ensures Valid() && pc.Idle? && !inFlight && this.w == w && this.cfg == cfg && this.around == around
    {
      this.cfg, this.around, this.w := cfg, around, w;
      awaits, inFlight, pc, start := 0, false, Idle, w;
      ReachableInitially(cfg, State(w, Idle));
      ServesItself(w, Idle);
    }

    /** The step just taken was an action of the protocol. */
    ghost method Step(before: State, a: Action)
      requires Honest(cfg, around) && OnTrack(cfg, start, before) && Grows(cfg, start, before.w)
      requires Enabled(cfg, before, a) && w == Apply(cfg, before, a).w
      modifies this`pc
      ensures Valid() && pc == Apply(cfg, before, a).pc
    {
      StepOnTrack(cfg, start, before, a);
      GrowsFurther(cfg, start, before.w, w);
      pc := Apply(cfg, before, a).pc;
    }

    /** Other processes run, and this one may die. */
    method Await() returns (r: Result<(), Stop>)
      requires Valid()
      modifies this`w, this`awaits, this`pc
      ensures Valid() && Interferes(cfg, old(w), w)
      ensures pc == if r.Success? then old(pc) else Idle
      ensures r.Failure? <==> around.dies(old(awaits))
      ensures r.Failure? ==> r.error.Died?
    {
      ghost var u := w;
      w := around.others(awaits, w);
      assert OnlyOthers(cfg, u, w);
      ghost var path :| OthersPath(cfg, u, path, w);
      OthersAreSteps(cfg, start, u, pc, path, w);
      GrowsFurther(cfg, start, u, w);
      var dies := around.dies(awaits);
      awaits := awaits + 1;
      if dies {
        Step(State(w, pc), Crash);
        return Failure(Died);
      }
      r := Success(());
    }

    // ---- ensureCursorSeeded ----

    /** `aggregate({ _min: { createdAtBlock } })` */
    method FirstVaultBlock() returns (first: Option<nat>)
      ensures if first.Some? then IsFirstBlock(w.vaults, first.value) else w.vaults == map[]
    {
      var rest := w.vaults.Keys;
      first := None;
      while rest != {}
        invariant rest <= w.vaults.Keys
        invariant first.None? ==> rest == w.vaults.Keys
        invariant first.Some? ==>
                    && (exists a :: a in w.vaults && w.vaults[a].createdAtBlock == first.value)
                    && (forall a :: a in w.vaults && a !in rest ==> first.value <= w.vaults[a].createdAtBlock)
      {
        var a :| a in rest;
        var block := w.vaults[a].createdAtBlock;
        if first.None? || block < first.value { first := Some(block); }
        rest := rest - {a};
      }
    }

    /** Without a configured start block: the first vault's block, or the head. */
    method QuerySeedBlock() returns (r: Result<nat, Stop>)
      requires Valid() && pc.SeedQuery?
      modifies this`w, this`awaits, this`pc
      ensures Valid() && pc == if r.Success? then SeedWrite(r.value) else Idle
    {
      hide Reachable, Serves, Honest, Grows;
      var _ :- Await();
      var first := FirstVaultBlock();
      Step(State(w, pc), QuerySeed(first));
      if first.Some? { return Success(Before(first.value)); }
      var _ :- Await();
      ChainHasHead(cfg, State(w, pc));
      r := Success(|w.chain| - 1);
      Step(State(w, pc), ReadSeedHead);
    }

    method EnsureCursorSeeded() returns (r: Result<(), Stop>)
      requires Valid() && pc.SeedCheck?
      modifies this`w, this`awaits, this`pc
      ensures Valid() && pc.Idle?
      ensures r.Success? ==> w.cursor.Some?
    {
      hide Reachable, Serves, Honest, Grows;
      var _ :- Await();
      Step(State(w, pc), CheckSeed);
      if w.cursor.Some? { return Success(()); }
      var seed: nat;
      if cfg.startBlock.Some? {
        seed := Before(cfg.startBlock.value);
      } else {
        seed :- QuerySeedBlock();
      }
      var _ :- Await();
      ghost var before := State(w, pc);
      w := SeedStored(w, seed);
      Step(before, StoreSeed);
      r := Success(());
    }

    // ---- fetchLogs ----

    /** getLogs, halving a window the RPC rejects. Whatever it rejects, success returns the logs of one query over
        the window; an error is the RPC's last answer. */
    method FetchLogs(range: BlockRange) returns (r: Result<seq<Log>, Stop>)
      requires Valid() && pc.Fetching? && pc.todo != [] && pc.todo[0] == range
      modifies this`w, this`awaits, this`pc
      ensures Valid() && Interferes(cfg, old(w), w)
      ensures r.Failure? ==> pc.Idle? && (r.error.Threw? ==> !around.answers(awaits))
      ensures r.Success? ==> && 0 <= range.from <= range.to < |w.chain|
                             && r.value == LogsIn(w.chain, range.from, range.to + 1)
                             && pc == Fetched(old(pc).t, old(pc).todo[1..], old(pc).got + r.value)
      decreases range.to - range.from, 1
    {
      hide Reachable, Serves, Honest, Grows, LogsIn, Interferes, Gated, AfterFetch;
      ghost var u := w;
      var _ :- Await();
      WindowInChain(cfg, State(w, pc));
      if around.answers(awaits) {
        r := Success(LogsIn(w.chain, range.from, range.to + 1));
        Step(State(w, pc), AnswerQuery);
        return r;
      }
      ghost var rest := pc.todo[1..];
      Step(State(w, pc), RejectQuery);
      if range.to <= range.from { return Failure(Threw); }
      assert pc.todo == Halve(range) + rest;
      ghost var v := w;
      r := FetchHalves(range, rest);
      InterferesFurther(cfg, u, v, w);
    }

    /** Both halves of a rejected window, one after the other. */
    method FetchHalves(range: BlockRange, ghost rest: seq<BlockRange>) returns (r: Result<seq<Log>, Stop>)
      requires Valid() && 0 <= range.from < range.to <= Safe(w.chain, cfg.confirmations)
      requires pc.Fetching? && pc.todo == Halve(range) + rest
      modifies this`w, this`awaits, this`pc
      ensures Valid() && Interferes(cfg, old(w), w)
      ensures r.Failure? ==> pc.Idle? && (r.error.Threw? ==> !around.answers(awaits))
      ensures r.Success? ==> && range.to < |w.chain|
                             && r.value == LogsIn(w.chain, range.from, range.to + 1)
                             && pc == Fetched(old(pc).t, rest, old(pc).got + r.value)
      decreases range.to - range.from, 0
    {
      hide Reachable, Serves, Honest, Grows, LogsIn, Interferes, Gated, AfterFetch;
      var halves := Halve(range);
      ghost var u, got := w, pc.got;
      assert pc.todo[1..] == [halves[1]] + rest && ([halves[1]] + rest)[1..] == rest;
      r := FetchLogs(halves[0]);
      if r.Failure? { return r; }
      var first := r.value;
      ghost var v := w;
      r := FetchLogs(halves[1]);
      InterferesFurther(cfg, u, v, w);
      if r.Failure? { return r; }
      assert got + first + r.value == got + (first + r.value);
      HalvesFetched(cfg, u, v, w, range);
      r := Success(first + r.value);
    }

    // ---- persist ----

    /** Stores the new executions and emits them; rows whose key is stored already are left alone. */
    method Persist(rows: seq<ExecutionRow>, gate: Gate) returns (r: Result<(), Stop>)
      requires Valid() && pc.FindingExecutions? && pc.rows == rows && pc.t.gate == gate
      modifies this`w, this`awaits, this`pc
      ensures Valid() && Follows(cfg, old(w), w)
      ensures pc == if r.Success? then ReadingFee(old(pc).t, old(pc).parsed) else Idle
    {
      hide Reachable, Serves, Honest, Grows, Interferes, Follows, Gates;
      ghost var u := w;
      r := Await();
      InterferesFollows(cfg, u, u, w);
      if r.Failure? { return r; }
      var newRows := NewExecutions(rows, ExecutionKeys(w.executions));
      Step(State(w, pc), FindExecutions);
      if newRows == [] { return Success(()); }
      ghost var v := w;
      r := CommitNew(newRows, gate);
      FollowsFurther(cfg, u, v, w);
      if r.Failure? { return r; }
      v := w;
      r := EmitNew(newRows, gate);
      FollowsFurther(cfg, u, v, w);
    }

    /** One transaction: insert the rows and resolve the open failures of their pairs. */
    method CommitNew(newRows: seq<ExecutionRow>, gate: Gate) returns (r: Result<(), Stop>)
      requires Valid() && pc.Committing? && pc.newRows == newRows && pc.t.gate == gate
      modifies this`w, this`awaits, this`pc
      ensures Valid() && Follows(cfg, old(w), w)
      ensures pc == if r.Success? then ReadingBack(old(pc).t, old(pc).parsed, newRows) else Idle
    {
      hide Reachable, Serves, Honest, Grows, Interferes, Follows, Gates;
      ghost var u := w;
      r := Await();
      InterferesFollows(cfg, u, u, w);
      if r.Failure? { return r; }
      var at := around.now(awaits);
      CommitIsEnabled(cfg, State(w, pc), at);
      var pairs := DistinctPairs(gate, newRows);
      var resolved := ResolveAll(w.failures, pairs, at);
      ghost var before := State(w, pc);
      w := w.(executions := InsertExecutions(w.executions, ExecutionRecords(gate, newRows)), failures := resolved);
      SameChainFollows(cfg, u, before.w, w);
      Step(before, CommitExecutions(at));
    }

    /** Reads the committed rows back and hands them out. */
    method EmitNew(newRows: seq<ExecutionRow>, gate: Gate) returns (r: Result<(), Stop>)
      requires Valid() && pc.ReadingBack? && pc.newRows == newRows && pc.t.gate == gate
      modifies this`w, this`awaits, this`pc
      ensures Valid() && Follows(cfg, old(w), w)
      ensures pc == if r.Success? then ReadingFee(old(pc).t, old(pc).parsed) else Idle
    {
      hide Reachable, Serves, Honest, Grows, Interferes, Follows;
      ghost var u := w;
      r := Await();
      InterferesFollows(cfg, u, u, w);
      if r.Failure? { return r; }
      GateIsInjective(cfg, State(w, pc));
      var emissions := EmitNewExecutions(gate, Created(w.executions, RowKeys(newRows)));
      ghost var before := State(w, pc);
      w := w.(history := w.history.(emitted := w.history.emitted + emissions));
      SameChainFollows(cfg, u, before.w, w);
      Step(before, EmitCreated);
    }

    /** Stores the new deposits and withdrawals. */
    method PersistVaultEvents(rows: seq<VaultEventRow>, gate: Gate) returns (r: Result<(), Stop>)
      requires Valid() && (if rows == [] then pc.Advancing? else pc.FindingEvents? && pc.eventRows == rows)
      requires pc.t.gate == gate
      modifies this`w, this`awaits, this`pc
      ensures Valid() && Follows(cfg, old(w), w)
      ensures pc == if r.Success? then Advancing(old(pc).t) else Idle
    {
      hide Reachable, Serves, Honest, Grows, Interferes, Follows, GatesEvents;
      ghost var u, v := w, w;
      if rows == [] {
        FollowsItself(cfg, w);
        return Success(());
      }
      r := Await();
      InterferesFollows(cfg, u, v, w);
      if r.Failure? { return r; }
      var newRows := NewVaultEvents(rows, EventKeys(w.vaultEvents));
      Step(State(w, pc), FindEvents);
      if newRows == [] { return Success(()); }

      v := w;
      r := Await();
      InterferesFollows(cfg, u, v, w);
      if r.Failure? { return r; }
      StoreIsEnabled(cfg, State(w, pc));
      ghost var before := State(w, pc);
      w := w.(vaultEvents := InsertEvents(w.vaultEvents, VaultEventRecords(gate, newRows)));
      SameChainFollows(cfg, u, before.w, w);
      Step(before, StoreEvents);
    }

    // ---- tick ----

    /** One window: fetch, gate, map, store, then move the cursor past it. */
    method IndexWindow(t: Tick) returns (r: Result<(), Stop>)
      requires Valid() && t.ranges != [] && pc == StartWindow(t)
      modifies this`w, this`awaits, this`pc
      ensures Valid()
      ensures r.Failure? ==> pc.Idle?
      ensures r.Success? ==> pc == NextWindow(t) && 0 <= t.ranges[0].to && w.cursor == Some(t.ranges[0].to)
    {
      hide Reachable, Serves, Honest, Grows, Interferes, Follows, LogsIn, Gated;
      var range := t.ranges[0];
      var logs :- FetchLogs(range);
      var parsed := GateLogs(logs, t.gate.Keys);
      assert [] + logs == logs;
      if parsed != [] {
        r := IndexParsed(t, parsed);
        if r.Failure? { return r; }
      }
      var _ :- Await();
      WindowIsPassed(cfg, State(w, pc));
      ghost var before := State(w, pc);
      w := CursorAdvanced(w, t);
      Step(before, AdvanceCursor);
      r := Success(());
    }

    method IndexParsed(t: Tick, parsed: seq<Parsed>) returns (r: Result<(), Stop>)
      requires Valid() && pc == Stamping(t, parsed)
      modifies this`w, this`awaits, this`pc
      ensures Valid()
      ensures pc == if r.Success? then Advancing(t) else Idle
    {
      hide Reachable, Serves, Honest, Grows, Interferes, Follows;
      hide ExecutionRows, VaultEventRows, Stamped, ChainTimes, HasDeposit;
      var _ :- Await();
      var times := ChainTimes(w.chain);
      ParsedIsStamped(cfg, State(w, pc));
      ghost var stamped := State(w, pc);
      Step(stamped, ReadTimestamps);
      var built := BuildExecutionRows(parsed, times);
      var _ :- Persist(built.value, t.gate);

      var hasDeposit := HasDeposit(parsed);
      var feeBps: nat := 0;
      if hasDeposit {
        ghost var v := w;
        var _ :- Await();
        InterferesFollows(cfg, stamped.w, v, w);
        feeBps := around.feeBps(awaits);
      }
      var builtEvents := BuildVaultEventRows(parsed, times, feeBps);
      TimesStay(cfg, stamped, w, feeBps);
      Step(State(w, pc), ReadFee(feeBps));
      r := PersistVaultEvents(builtEvents.value, t.gate);
    }

    /** Loads the known vaults, then goes through the windows. */
    method IndexRanges(ranges: seq<BlockRange>) returns (r: Result<(), Stop>)
      requires Valid() && ranges != [] && pc == Planned(ranges)
      modifies this`w, this`awaits, this`pc
      ensures Valid() && pc.Idle?
      ensures r.Success? ==> w.cursor.Some? && w.cursor.value == ranges[|ranges| - 1].to
    {
      hide Reachable, Serves, Honest, Grows, Interferes;
      var _ :- Await();
      var gate := GateOf(w.vaults);
      Step(State(w, pc), LoadVaults);
      for i := 0 to |ranges|
        invariant Valid()
        invariant pc == if i == |ranges| then Idle else StartWindow(IndexerProtocol.Tick(ranges[i..], gate))
        invariant i > 0 ==> w.cursor.Some? && w.cursor.value == ranges[i - 1].to
      {
        assert ranges[i..][1..] == ranges[i + 1..];
        var _ :- IndexWindow(IndexerProtocol.Tick(ranges[i..], gate));
      }
      r := Success(());
    }

    /** Plans the windows after the cursor and goes through them. */
    method IndexUpTo(head: nat, cursor: nat) returns (r: Result<(), Stop>)
      requires Valid() && pc == PlanTick(cfg, head, cursor) && w.cursor == Some(cursor)
      modifies this`w, this`awaits, this`pc
      ensures Valid() && pc.Idle?
      ensures r.Success? ==> w.cursor.Some? && head - cfg.confirmations <= w.cursor.value
    {
      hide Reachable, Serves, Honest, Grows, PlanFrom;
      var plan := PlanRanges(head, cursor, cfg.maxRange, cfg.confirmations);
      if plan.Failure? { return Failure(Threw); }
      PlanReaches(head, cursor, cfg);
      if plan.value == [] { return Success(()); }
      r := IndexRanges(plan.value);
    }

    /** One indexing pass. If it ends well, every block confirmed when it began is behind the cursor. However it ends,
        the vaults known when it began are indexed in every block it passed. */
    method Tick() returns (r: Result<(), Stop>)
      requires Valid() && pc.Idle?
      modifies this`w, this`awaits, this`pc, this`start
      ensures Valid() && pc.Idle? && Grows(cfg, old(w), w)
      ensures r.Success? ==> w.cursor.Some?
      ensures r.Success? && old(w.cursor).Some? ==> Safe(old(w.chain), cfg.confirmations) <= w.cursor.value
      ensures AllIndexed(old(w), w)
    {
      hide Reachable, Serves, Honest, Grows, AllIndexed;
      GrowsItself(cfg, w);
      ServesItself(w, pc);
      start := w;
      r := IndexNewBlocks();
      ServedAreIndexed(cfg, start, State(w, pc));
    }

    method IndexNewBlocks() returns (r: Result<(), Stop>)
      requires Valid() && pc.Idle? && start == w
      modifies this`w, this`awaits, this`pc
      ensures Valid() && pc.Idle?
      ensures r.Success? ==> w.cursor.Some?
      ensures r.Success? && old(w.cursor).Some? ==> Safe(old(w.chain), cfg.confirmations) <= w.cursor.value
    {
      hide Reachable, Serves, Honest, Grows, PlanTick;
      var _ :- Await();
      ChainHasHead(cfg, State(w, pc));
      GrowsChain(cfg, start, w);
      var head := |w.chain| - 1;
      Step(State(w, pc), ReadHead);
      var _ :- Await();
      var cursor := w.cursor;
      Step(State(w, pc), ReadCursor);
      if cursor.None? {
        r := EnsureCursorSeeded();
        return r;
      }

      r := IndexUpTo(head, cursor.value);
    }

    /** One poll of the loop: never two at once, and an error ends the tick, not the loop. */
    method RunOnce()
      requires Valid() && (!inFlight ==> pc.Idle?)
      modifies this
      ensures Valid() && inFlight == old(inFlight) && Grows(cfg, old(w), w)
      ensures old(inFlight) ==> w == old(w) && awaits == old(awaits) && pc == old(pc)
      ensures !old(inFlight) ==> pc.Idle? && AllIndexed(old(w), w)
    {
      hide AllIndexed, Serves, Reachable;
      if inFlight {
        GrowsItself(cfg, w);
        return;
      }
      inFlight := true;
      var _ := Tick();
      inFlight := false;
    }
  }
}
