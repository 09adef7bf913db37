/** Which vaults and blocks a run covers: every vault from the moment it is known, from the seed on. */
module IndexerCoverage {
  import opened Chain
  import opened EventMapper
  import opened FailureLedger
  import opened IndexerInvariant
  import opened IndexerProtocol
  import opened IndexerSteps
  import opened IndexerTheorems
  import opened RangePlanner
  import opened WindowRows
  import opened Wrappers

  // ---- known vaults ----

  /** The tick has loaded its vault set. */
  predicate HasGate(pc: Process) { HasTick(pc) || pc.Fetching? || pc.FindingEvents? || pc.InsertingEvents? }

  ghost predicate LetsThrough(gate: Gate, vaults: map<Address, Vault>) {
    forall a :: a in vaults ==> a in gate && gate[a] == vaults[a].id
  }

  /** Behind the cursor of `w`, and not yet behind it when the world was `u`. */
  ghost predicate PassedSince(u: World, w: World, b: nat) {
    && w.cursor.Some? && w.history.seed.Some? && w.history.seed.value < b <= w.cursor.value
    && (u.cursor.Some? ==> u.cursor.value < b)
  }

  /** The vaults of `u` are still known, and every block passed since was passed by a tick that had loaded them. */
  ghost predicate Serves(u: World, s: State) {
    && (forall a :: a in u.vaults ==> a in s.w.vaults && s.w.vaults[a] == u.vaults[a])
    && (HasGate(s.pc) ==> LetsThrough(s.pc.t.gate, u.vaults))
    && forall b: nat :: PassedSince(u, s.w, b) ==>
         b in s.w.history.passed && LetsThrough(s.w.history.passed[b], u.vaults)
  }

  lemma ServesItself(u: World, pc: Process)
    requires !HasGate(pc)
    ensures Serves(u, State(u, pc))
  {
  }

  lemma AdvanceServes(cfg: Settings, u: World, s: State)
    requires Inv(cfg, s) && Enabled(cfg, s, AdvanceCursor) && Serves(u, s)
    ensures Serves(u, Apply(cfg, s, AdvanceCursor))
  {
    WindowFollowsCursor(cfg, s);
    hide Inv, LetsThrough;
    var w' := CursorAdvanced(s.w, s.pc.t);
    forall b: nat | PassedSince(u, w', b)
      ensures b in w'.history.passed && LetsThrough(w'.history.passed[b], u.vaults)
    {
      if b > s.w.cursor.value {
        assert Covers(s.pc.t.ranges[0], b);
      } else {
        assert PassedSince(u, s.w, b);
      }
    }
  }

  lemma WindowFollowsCursor(cfg: Settings, s: State)
    requires Inv(cfg, s) && s.pc.Advancing?
    ensures s.w.cursor.Some? && s.pc.t.ranges != [] && s.pc.t.ranges[0].from == s.w.cursor.value + 1
  {
  }

  /** The step passes no block and forgets neither a vault nor the vault set that was loaded. */
  ghost predicate Remembers(s: State, s': State) {
    && s'.w.cursor == s.w.cursor && s'.w.history.seed == s.w.history.seed && s'.w.history.passed == s.w.history.passed
    && (forall a :: a in s.w.vaults ==> a in s'.w.vaults && s'.w.vaults[a] == s.w.vaults[a])
    && (HasGate(s'.pc) ==> HasGate(s.pc) && s'.pc.t.gate == s.pc.t.gate)
  }

  lemma RememberingServes(u: World, s: State, s': State)
    requires Serves(u, s) && Remembers(s, s')
    ensures Serves(u, s')
  {
  }

  lemma OtherRemembers(cfg: Settings, s: State, a: Action)
    requires Enabled(cfg, s, a) && IsOther(a)
    ensures Remembers(s, Apply(cfg, s, a))
  {
    hide WellFormed, Extends, Look;
  }

  lemma StepRemembers(cfg: Settings, s: State, a: Action)
    requires Inv(cfg, s) && Enabled(cfg, s, a)
    requires !IsOther(a) && !a.StoreSeed? && !a.LoadVaults? && !a.AdvanceCursor?
    ensures Remembers(s, Apply(cfg, s, a))
  {
    hide Inv, WellFormed, Extends, InsertExecutions, InsertEvents, Resolved, PairsOf, Emissions, Gated, PlanFrom;
  }

  lemma StepServes(cfg: Settings, u: World, s: State, a: Action)
    requires Inv(cfg, s) && Enabled(cfg, s, a) && Serves(u, s)
    ensures Serves(u, Apply(cfg, s, a))
  {
    if a.AdvanceCursor? {
      AdvanceServes(cfg, u, s);
    } else if a.StoreSeed? || a.LoadVaults? {
      hide Inv, Remembers;
    } else {
      if IsOther(a) { OtherRemembers(cfg, s, a); } else { StepRemembers(cfg, s, a); }
      hide Inv, Enabled, Apply, Remembers, Serves;
      RememberingServes(u, s, Apply(cfg, s, a));
    }
  }

  lemma {:induction false} RunServes(cfg: Settings, trace: seq<State>, k: nat, i: nat)
    requires IsRun(cfg, trace) && k <= i < |trace| && !HasGate(trace[k].pc)
    ensures Serves(trace[k].w, trace[i])
    decreases i
  {
    hide IsRun, Serves, Inv;
    if k == i {
      ServesItself(trace[k].w, trace[k].pc);
    } else {
      RunServes(cfg, trace, k, i - 1);
      RunServesNext(cfg, trace, trace[k].w, i - 1);
    }
  }

  lemma RunServesNext(cfg: Settings, trace: seq<State>, u: World, i: nat)
    requires IsRun(cfg, trace) && i + 1 < |trace| && Serves(u, trace[i])
    ensures Serves(u, trace[i + 1])
  {
    hide Inv, Serves, Enabled, Apply;
    RunKeeps(cfg, trace, i);
    assert Next(cfg, trace[i], trace[i + 1]);
    var a :| Enabled(cfg, trace[i], a) && trace[i + 1] == Apply(cfg, trace[i], a);
    StepServes(cfg, u, trace[i], a);
  }

  /** A vault known before a tick loads its vault set is in the set of every tick that passes a block from then on,
      with the id it has, whatever crashes and whoever else writes. */
  lemma KnownVaultsAreLoaded(cfg: Settings, trace: seq<State>, k: nat, i: nat, a: Address, b: nat)
    requires IsRun(cfg, trace) && k <= i < |trace| && !HasGate(trace[k].pc)
    requires a in trace[k].w.vaults && PassedSince(trace[k].w, trace[i].w, b)
    ensures b in trace[i].w.history.passed && a in trace[i].w.history.passed[b]
    ensures trace[i].w.history.passed[b][a] == trace[k].w.vaults[a].id
  {
    hide IsRun;
    RunServes(cfg, trace, k, i);
  }

  /** The row of the log is in its table, exactly once, if the log is an execution, a deposit or a withdrawal. */
  ghost predicate IsIndexed(w: World, l: Log) {
    && (l.event.AutomationExecuted? ==> IndexedExecution(w, l))
    && (l.event.Deposited? || l.event.Withdrawn? ==> IndexedEvent(w, l))
  }

  lemma ServedIsIndexed(cfg: Settings, u: World, s: State, b: nat)
    requires Inv(cfg, s) && Serves(u, s) && PassedSince(u, s.w, b)
    ensures b < |s.w.chain|
    ensures forall l :: l in s.w.chain[b].logs && l.address.Some? && l.address.value in u.vaults ==> IsIndexed(s.w, l)
  {
    hide IndexedExecution, IndexedEvent, WellFormed, ExecutionsDone, EventsDone, TablesOk;
    assert BlockDone(s.w, b);
    DoneIsInChain(s.w, b);
    forall l | l in s.w.chain[b].logs && l.address.Some? && l.address.value in u.vaults ensures IsIndexed(s.w, l) {
      if l.event.AutomationExecuted? {
        ExecutionIndexed(cfg, s.w, s.w.history.passed[b], b, l);
      } else if l.event.Deposited? || l.event.Withdrawn? {
        EventIndexed(cfg, s.w, s.w.history.passed[b], b, l);
      }
    }
  }

  lemma DoneIsInChain(w: World, b: nat)
    requires BlockDone(w, b)
    ensures b < |w.chain|
  {
  }

  /** Every execution, deposit and withdrawal of a vault known before a tick loads its vault set has exactly one row,
      as the log says, once its block is behind the cursor. */
  lemma KnownVaultsAreIndexed(cfg: Settings, trace: seq<State>, k: nat, i: nat, b: nat)
    requires IsRun(cfg, trace) && k <= i < |trace| && !HasGate(trace[k].pc)
    requires PassedSince(trace[k].w, trace[i].w, b)
    ensures b < |trace[i].w.chain|
    ensures forall l :: l in trace[i].w.chain[b].logs && l.address.Some? && l.address.value in trace[k].w.vaults ==>
              && l.address.value in trace[i].w.vaults
              && trace[i].w.vaults[l.address.value] == trace[k].w.vaults[l.address.value]
              && IsIndexed(trace[i].w, l)
  {
    hide IsRun;
    RunServes(cfg, trace, k, i);
    RunKeeps(cfg, trace, i);
    hide Inv, IsIndexed;
    ServedIsIndexed(cfg, trace[k].w, trace[i], b);
  }

  // ---- the seed ----

  /** The seed is one block before `block`, and never negative. */
  predicate OneBefore(seed: nat, block: int) { if block > 0 then seed == block - 1 else seed == 0 }

  /** One block before the first block of the vaults known at j, or the head at some time since if there were none. */
  ghost predicate SeedAt(trace: seq<State>, i: nat, j: nat, seed: nat)
    requires j <= i < |trace|
  {
    if trace[j].w.vaults == map[] then HeadSince(trace, i, j, seed)
    else exists block: nat :: IsFirstBlock(trace[j].w.vaults, block) && OneBefore(seed, block)
  }

  ghost predicate HeadSince(trace: seq<State>, i: nat, j: nat, seed: nat)
    requires j <= i < |trace|
  {
    exists h: nat :: j <= h <= i && seed == |trace[h].w.chain| - 1
  }

  /** Where the indexer may start, as far as states up to i tell. */
  ghost predicate SeedOf(cfg: Settings, trace: seq<State>, i: nat, seed: nat)
    requires i < |trace|
  {
    if cfg.startBlock.Some? then OneBefore(seed, cfg.startBlock.value)
    else exists j: nat :: j <= i && SeedAt(trace, i, j, seed)
  }

  ghost predicate NoVaultsYet(trace: seq<State>, i: nat)
    requires i < |trace|
  {
    exists j: nat :: j <= i && trace[j].w.vaults == map[]
  }

  /** What the process knows on its way to the seed. */
  ghost predicate Seeding(cfg: Settings, trace: seq<State>, i: nat)
    requires i < |trace|
  {
    && (trace[i].pc.SeedQuery? ==> cfg.startBlock.None?)
    && (trace[i].pc.SeedHead? ==> cfg.startBlock.None? && NoVaultsYet(trace, i))
    && (trace[i].pc.SeedWrite? ==> SeedOf(cfg, trace, i, trace[i].pc.block))
  }

  lemma SeedOfStays(cfg: Settings, trace: seq<State>, i: nat, seed: nat)
    requires i + 1 < |trace| && SeedOf(cfg, trace, i, seed)
    ensures SeedOf(cfg, trace, i + 1, seed)
  {
    if cfg.startBlock.None? {
      var j: nat :| j <= i && SeedAt(trace, i, j, seed);
      assert SeedAt(trace, i + 1, j, seed);
    }
  }

  lemma SeedingStep(cfg: Settings, trace: seq<State>, i: nat, a: Action)
    requires i + 1 < |trace| && Seeding(cfg, trace, i) && WellFormed(trace[i].w.chain)
    requires Enabled(cfg, trace[i], a) && trace[i + 1] == Apply(cfg, trace[i], a)
    ensures Seeding(cfg, trace, i + 1)
  {
    hide WellFormed, Extends, Look;
    if a.CheckSeed? {
      assert !trace[i + 1].pc.SeedHead?;
    } else if a.QuerySeed? {
      if a.firstBlock.Some? {
        assert SeedAt(trace, i + 1, i, trace[i + 1].pc.block);
      }
    } else if a.ReadSeedHead? {
      var j: nat :| j <= i && trace[j].w.vaults == map[];
      assert trace[i + 1].pc.block == |trace[i].w.chain| - 1;
      assert SeedAt(trace, i + 1, j, trace[i + 1].pc.block);
    } else if trace[i + 1].pc.SeedWrite? {
      SeedOfStays(cfg, trace, i, trace[i].pc.block);
    }
  }

  lemma {:induction false} RunSeeds(cfg: Settings, trace: seq<State>, i: nat)
    requires IsRun(cfg, trace) && i < |trace|
    ensures Seeding(cfg, trace, i)
    decreases i
  {
    if i > 0 {
      RunSeeds(cfg, trace, i - 1);
      hide Seeding;
      RunKeeps(cfg, trace, i - 1);
      assert Next(cfg, trace[i - 1], trace[i - 1 + 1]);
      hide IsRun, Enabled, Apply;
      var a :| Enabled(cfg, trace[i - 1], a) && trace[i] == Apply(cfg, trace[i - 1], a);
      SeedingStep(cfg, trace, i - 1, a);
    }
  }

  /** The first cursor is one block before the configured start or, without one, one block before the first block of
      the vaults then known, or the head if there were none. */
  lemma CursorStartsAtSeed(cfg: Settings, trace: seq<State>, i: nat)
    requires IsRun(cfg, trace) && i + 1 < |trace| && trace[i].w.cursor.None? && trace[i + 1].w.cursor.Some?
    ensures SeedOf(cfg, trace, i, trace[i + 1].w.cursor.value)
    ensures trace[i + 1].w.history.seed == trace[i + 1].w.cursor
  {
    RunSeeds(cfg, trace, i);
    RunKeeps(cfg, trace, i);
    assert Next(cfg, trace[i], trace[i + 1]);
    var a :| Enabled(cfg, trace[i], a) && trace[i + 1] == Apply(cfg, trace[i], a);
    hide SeedOf;
    SeededByStore(cfg, trace[i], a);
  }

  lemma SeededByStore(cfg: Settings, s: State, a: Action)
    requires Inv(cfg, s) && Enabled(cfg, s, a) && s.w.cursor.None? && Apply(cfg, s, a).w.cursor.Some?
    ensures s.pc.SeedWrite? && Apply(cfg, s, a).w.cursor == Some(s.pc.block)
    ensures Apply(cfg, s, a).w.history.seed == Some(s.pc.block)
  {
    if IsOther(a) { OtherRemembers(cfg, s, a); }
    hide WellFormed, Extends, Look, TablesOk, CursorOk;
  }

  // ---- fees ----

  /** Where the process holds new deposits and withdrawals, each deposit's fee is the share that was read last. */
  lemma FeeReadIsUsed(cfg: Settings, s: State, bps: nat)
    requires Enabled(cfg, s, ReadFee(bps))
    ensures var pc := Apply(cfg, s, ReadFee(bps)).pc;
            pc.FindingEvents? ==> forall r :: r in pc.eventRows && r.kind == Deposit ==>
              r.feeBps == bps && r.feeAmount == r.amount * bps / 10_000
  {
    var parsed, times := s.pc.parsed, ChainTimes(s.w.chain);
    forall r | r in VaultEventRows(parsed, times, if HasDeposit(parsed) then bps else 0) && r.kind == Deposit
      ensures HasDeposit(parsed) && r.feeBps == bps && r.feeAmount == r.amount * bps / 10_000
    {
      VaultEventRowFrom(parsed, times, if HasDeposit(parsed) then bps else 0, r);
    }
  }
}
