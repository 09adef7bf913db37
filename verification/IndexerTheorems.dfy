/** What the invariant means for a reader of the tables, over every run with crashes, rejections and other writers. */
module IndexerTheorems {
  import opened Chain
  import opened EventMapper
  import opened FailureLedger
  import opened IndexerInvariant
  import opened IndexerProtocol
  import opened IndexerSteps
  import opened WindowRows
  import opened Wrappers

  // ---- exactly once ----

  /** The log is one the gate lets through, at block b. */
  predicate Passes(l: Log, gate: Gate) { l.address.Some? && l.address.value in gate }

  function KeyOf(l: Log): Key { Key(l.txHash, l.index) }

  /** The record says what the log says. */
  predicate RecordsExecution(c: Blocks, vaults: map<Address, Vault>, l: Log, e: ExecutionRecord) {
    && l.event.AutomationExecuted? && l.address.Some? && l.address.value in vaults
    && e.vault == vaults[l.address.value].id
    && e.automationId == l.event.automationId && e.executor == l.event.executor && e.key == KeyOf(l)
    && e.blockNumber == l.blockNumber < |c| && e.timestamp == c[l.blockNumber].timestamp
  }

  /** A deposit's fee is a share of it; a withdrawal's fee is the log's own. */
  predicate RecordsEvent(c: Blocks, vaults: map<Address, Vault>, l: Log, e: VaultEventRecord) {
    && MovesFunds(l.event) && l.address.Some? && l.address.value in vaults && e.vault == vaults[l.address.value].id
    && e.kind == (if l.event.Deposited? then Deposit else Withdraw)
    && e.token == l.event.token && e.amount == l.event.amount && e.key == KeyOf(l)
    && (if l.event.Deposited? then e.feeAmount == e.amount * e.feeBps / 10_000
        else e.feeAmount == l.event.fee && e.feeBps == if e.amount > 0 then e.feeAmount * 10_000 / e.amount else 0)
    && e.blockNumber == l.blockNumber < |c| && e.timestamp == c[l.blockNumber].timestamp
  }

  /** Exactly one row holds the log's key, and it records the log. */
  ghost predicate IndexedExecution(w: World, l: Log) {
    exists i :: 0 <= i < |w.executions| && RecordsExecution(w.chain, w.vaults, l, w.executions[i])
                && forall j :: 0 <= j < |w.executions| && w.executions[j].key == KeyOf(l) ==> j == i
  }

  ghost predicate IndexedEvent(w: World, l: Log) {
    exists i :: 0 <= i < |w.vaultEvents| && RecordsEvent(w.chain, w.vaults, l, w.vaultEvents[i])
                && forall j :: 0 <= j < |w.vaultEvents| && w.vaultEvents[j].key == KeyOf(l) ==> j == i
  }

  lemma LogsHaveKeys(c: Blocks, m: nat, n: nat, k: Log, l: Log)
    requires WellFormed(c) && m < |c| && n < |c| && k in c[m].logs && l in c[n].logs && KeyOf(k) == KeyOf(l)
    ensures m == n && k == l
  {
    assert m == n;
    var i :| 0 <= i < |c[m].logs| && c[m].logs[i] == k;
    var j :| 0 <= j < |c[n].logs| && c[n].logs[j] == l;
    assert WellFormedBlock(c[m], m);
  }

  lemma LogIsParsed(c: Blocks, gate: Gate, b: nat, l: Log)
    requires b < |c| && WellFormed(c) && l in c[b].logs && Passes(l, gate) && !l.event.Undecodable?
    ensures l.blockNumber == b
    ensures Parsed(l.address.value, l.txHash, b, l.index, l.event) in ParsedIn(c, gate.Keys, b, b + 1)
  {
    assert WellFormedBlock(c[b], b);
    LogsInBlocks(c, b, b + 1, l);
    GatedFrom(LogsIn(c, b, b + 1), gate.Keys, Parsed(l.address.value, l.txHash, b, l.index, l.event));
  }

  /** A stored execution has a log, at a confirmed block, and records it. */
  lemma ExecutionHasLog(c: Blocks, vaults: map<Address, Vault>, safe: int, e: ExecutionRecord) returns (l: Log)
    requires WellFormed(c) && GenuineExecution(c, vaults, safe, e)
    ensures e.blockNumber < |c| && e.blockNumber <= safe && l in c[e.blockNumber].logs
    ensures RecordsExecution(c, vaults, l, e)
  {
    var gate, row :| SubGate(gate, vaults) && ExecutionFrom(c, gate, row, e);
    var b := row.blockNumber;
    var parsed := ParsedIn(c, gate.Keys, b, b + 1);
    ParsedInBlocks(c, gate.Keys, b, b + 1);
    ExecutionRowFrom(parsed, parsed, ChainTimes(c), row);
    var p :|
      p in parsed && p.event.AutomationExecuted? && row == ExecutionRowOf(p, parsed, ChainTimes(c)[p.blockNumber]);
    ParsedHasLog(c, gate.Keys, b, b + 1, p);
    l := Log(Some(p.address), p.txHash, p.blockNumber, p.logIndex, p.event);
  }

  lemma EventHasLog(c: Blocks, vaults: map<Address, Vault>, safe: int, e: VaultEventRecord) returns (l: Log)
    requires WellFormed(c) && GenuineEvent(c, vaults, safe, e)
    ensures e.blockNumber < |c| && e.blockNumber <= safe && l in c[e.blockNumber].logs && RecordsEvent(c, vaults, l, e)
  {
    var gate, row, bps :| SubGate(gate, vaults) && EventFrom(c, gate, row, bps, e);
    var b := row.blockNumber;
    var parsed := ParsedIn(c, gate.Keys, b, b + 1);
    ParsedInBlocks(c, gate.Keys, b, b + 1);
    VaultEventRowFrom(parsed, ChainTimes(c), bps, row);
    var p :| p in parsed && MovesFunds(p.event) && row == VaultEventRowOf(p, ChainTimes(c)[p.blockNumber], bps);
    ParsedHasLog(c, gate.Keys, b, b + 1, p);
    l := Log(Some(p.address), p.txHash, p.blockNumber, p.logIndex, p.event);
  }

  lemma ExecutionIndexed(cfg: Settings, w: World, gate: Gate, b: nat, l: Log)
    requires WellFormed(w.chain) && TablesOk(cfg, w) && ExecutionsDone(w.chain, w.executions, gate, b, b + 1)
    requires l in w.chain[b].logs && Passes(l, gate) && l.event.AutomationExecuted?
    ensures IndexedExecution(w, l)
  {
    hide WellFormed, ParsedIn, GenuineExecution, GenuineEvent, LogsIn;
    var parsed := ParsedIn(w.chain, gate.Keys, b, b + 1);
    var p := Parsed(l.address.value, l.txHash, b, l.index, l.event);
    LogIsParsed(w.chain, gate, b, l);
    ParsedInBlocks(w.chain, gate.Keys, b, b + 1);
    var row := ExecutionRowOf(p, parsed, w.chain[b].timestamp);
    ExecutionRowFrom(parsed, parsed, ChainTimes(w.chain), row);
    assert row in ExecutionsIn(w.chain, gate.Keys, b, b + 1);
    var e :| e in w.executions && e.key == row.key;
    var k := ExecutionHasLog(w.chain, w.vaults, Safe(w.chain, cfg.confirmations), e);
    LogsHaveKeys(w.chain, e.blockNumber, b, k, l);
    var i :| 0 <= i < |w.executions| && w.executions[i] == e;
  }

  lemma EventIndexed(cfg: Settings, w: World, gate: Gate, b: nat, l: Log)
    requires WellFormed(w.chain) && TablesOk(cfg, w) && EventsDone(w.chain, w.vaultEvents, gate, b, b + 1)
    requires l in w.chain[b].logs && Passes(l, gate) && MovesFunds(l.event)
    ensures IndexedEvent(w, l)
  {
    hide WellFormed, ParsedIn, GenuineExecution, GenuineEvent, LogsIn;
    var parsed := ParsedIn(w.chain, gate.Keys, b, b + 1);
    var p := Parsed(l.address.value, l.txHash, b, l.index, l.event);
    LogIsParsed(w.chain, gate, b, l);
    ParsedInBlocks(w.chain, gate.Keys, b, b + 1);
    var row := VaultEventRowOf(p, w.chain[b].timestamp, 0);
    VaultEventRowFrom(parsed, ChainTimes(w.chain), 0, row);
    assert row in VaultEventsIn(w.chain, gate.Keys, b, b + 1, 0);
    var e :| e in w.vaultEvents && e.key == row.key;
    var k := EventHasLog(w.chain, w.vaults, Safe(w.chain, cfg.confirmations), e);
    LogsHaveKeys(w.chain, e.blockNumber, b, k, l);
    var i :| 0 <= i < |w.vaultEvents| && w.vaultEvents[i] == e;
  }

  /** In every state of every run: each log of a passed block, from a vault the passing tick had loaded,
      is in its table exactly once and as the log says. */
  lemma ExactlyOnce(cfg: Settings, trace: seq<State>, i: nat, b: nat)
    requires IsRun(cfg, trace) && i < |trace|
    requires trace[i].w.cursor.Some? && trace[i].w.history.seed.Some?
    requires trace[i].w.history.seed.value < b <= trace[i].w.cursor.value
    ensures var w := trace[i].w;
            && b in w.history.passed && b < |w.chain|
            && forall l :: l in w.chain[b].logs && Passes(l, w.history.passed[b]) ==>
                 && (l.event.AutomationExecuted? ==> IndexedExecution(w, l))
                 && (MovesFunds(l.event) ==> IndexedEvent(w, l))
  {
    RunKeeps(cfg, trace, i);
    var w := trace[i].w;
    assert BlockDone(w, b);
    forall l | l in w.chain[b].logs && Passes(l, w.history.passed[b])
      ensures l.event.AutomationExecuted? ==> IndexedExecution(w, l)
      ensures MovesFunds(l.event) ==> IndexedEvent(w, l)
    {
      if l.event.AutomationExecuted? {
        ExecutionIndexed(cfg, w, w.history.passed[b], b, l);
      } else if MovesFunds(l.event) {
        EventIndexed(cfg, w, w.history.passed[b], b, l);
      }
    }
  }

  /** No row without its log, and none beyond the confirmed head. */
  lemma NothingInvented(cfg: Settings, trace: seq<State>, i: nat)
    requires IsRun(cfg, trace) && i < |trace|
    ensures var w := trace[i].w;
            && (forall e :: e in w.executions ==>
                  && e.blockNumber <= Safe(w.chain, cfg.confirmations)
                  && exists l :: l in w.chain[e.blockNumber].logs && RecordsExecution(w.chain, w.vaults, l, e))
            && (forall e :: e in w.vaultEvents ==>
                  && e.blockNumber <= Safe(w.chain, cfg.confirmations)
                  && exists l :: l in w.chain[e.blockNumber].logs && RecordsEvent(w.chain, w.vaults, l, e))
  {
    RunKeeps(cfg, trace, i);
    var w := trace[i].w;
    var safe := Safe(w.chain, cfg.confirmations);
    forall e | e in w.executions
      ensures e.blockNumber <= safe
      ensures exists l :: l in w.chain[e.blockNumber].logs && RecordsExecution(w.chain, w.vaults, l, e)
    {
      var l := ExecutionHasLog(w.chain, w.vaults, safe, e);
    }
    forall e | e in w.vaultEvents
      ensures e.blockNumber <= safe
      ensures exists l :: l in w.chain[e.blockNumber].logs && RecordsEvent(w.chain, w.vaults, l, e)
    {
      var l := EventHasLog(w.chain, w.vaults, safe, e);
    }
  }

  // ---- gas compensation ----

  predicate SettlesFor(g: Log, e: ExecutionRecord) {
    g.event.GasCompSettled? && g.txHash == e.key.txHash && g.event.automationId == e.automationId
      && g.event.executor == e.executor
  }

  lemma {:induction false} FindGasCompFinds(parsed: seq<Parsed>, txHash: TxHash, automationId: nat, executor: Address)
    ensures var found := FindGasComp(parsed, txHash, automationId, executor);
            if found.Some?
            then exists p :: p in parsed && Settles(p, txHash, automationId, executor) && p.event == found.value
            else forall p :: p in parsed ==> !Settles(p, txHash, automationId, executor)
  {
    if parsed != [] && !Settles(parsed[0], txHash, automationId, executor) {
      FindGasCompFinds(parsed[1..], txHash, automationId, executor);
    }
  }

  lemma GatedSettlement(c: Blocks, gate: Gate, b: nat, g: Log, e: ExecutionRecord)
    requires b < |c| && WellFormed(c) && g in c[b].logs && Passes(g, gate) && SettlesFor(g, e)
    ensures exists p ::
              && p in ParsedIn(c, gate.Keys, b, b + 1) && Settles(p, e.key.txHash, e.automationId, e.executor)
              && p.event == g.event
  {
    LogIsParsed(c, gate, b, g);
    var p := Parsed(g.address.value, g.txHash, b, g.index, g.event);
    assert Settles(p, e.key.txHash, e.automationId, e.executor);
  }

  /** The compensation a record was joined with: the first settlement the gate let through. */
  lemma JoinOf(c: Blocks, vaults: map<Address, Vault>, safe: int, e: ExecutionRecord)
      returns (gate: Gate, address: Address)
    requires WellFormed(c) && GenuineExecution(c, vaults, safe, e)
    ensures e.blockNumber < |c| && address in gate
    ensures exists event ::
              Log(Some(address), e.key.txHash, e.blockNumber, e.key.logIndex, event) in c[e.blockNumber].logs
    ensures var parsed := ParsedIn(c, gate.Keys, e.blockNumber, e.blockNumber + 1);
            var gas := FindGasComp(parsed, e.key.txHash, e.automationId, e.executor);
            && e.gasCompAmount == (if gas.Some? then Some(gas.value.amount) else None)
            && e.gasCompToken == (if gas.Some? then Some(gas.value.token) else None)
  {
    var row;
    gate, row :| SubGate(gate, vaults) && ExecutionFrom(c, gate, row, e);
    var b := row.blockNumber;
    var parsed := ParsedIn(c, gate.Keys, b, b + 1);
    ParsedInBlocks(c, gate.Keys, b, b + 1);
    ExecutionRowFrom(parsed, parsed, ChainTimes(c), row);
    var p :|
      p in parsed && p.event.AutomationExecuted? && row == ExecutionRowOf(p, parsed, ChainTimes(c)[p.blockNumber]);
    ParsedHasLog(c, gate.Keys, b, b + 1, p);
    address := p.address;
  }

  lemma FoundSettlement(c: Blocks, gate: Gate, b: nat, e: ExecutionRecord)
    requires b < |c| && WellFormed(c)
    ensures var gas := FindGasComp(ParsedIn(c, gate.Keys, b, b + 1), e.key.txHash, e.automationId, e.executor);
            if gas.Some? then exists g :: g in c[b].logs && SettlesFor(g, e) && g.event == gas.value
            else forall g :: g in c[b].logs && Passes(g, gate) ==> !SettlesFor(g, e)
  {
    hide ParsedIn, WellFormed, FindGasComp;
    var parsed := ParsedIn(c, gate.Keys, b, b + 1);
    FindGasCompFinds(parsed, e.key.txHash, e.automationId, e.executor);
    var gas := FindGasComp(parsed, e.key.txHash, e.automationId, e.executor);
    if gas.Some? {
      var q :| q in parsed && Settles(q, e.key.txHash, e.automationId, e.executor) && q.event == gas.value;
      ParsedHasLog(c, gate.Keys, b, b + 1, q);
      assert SettlesFor(Log(Some(q.address), q.txHash, q.blockNumber, q.logIndex, q.event), e);
    } else {
      forall g | g in c[b].logs && Passes(g, gate) ensures !SettlesFor(g, e) {
        if SettlesFor(g, e) { GatedSettlement(c, gate, b, g, e); }
      }
    }
  }

  /** A log of the record's block with the record's own compensation. */
  predicate IsSettlement(c: Blocks, e: ExecutionRecord, g: Log) {
    && e.blockNumber < |c| && g in c[e.blockNumber].logs && SettlesFor(g, e)
    && e.gasCompAmount == Some(g.event.amount) && e.gasCompToken == Some(g.event.token)
  }

  /** Where a vault settles its own executions, a row carries the settlement of its transaction, if there is one,
      whichever tick stored it. */
  lemma GasCompIsTheSettlement(cfg: Settings, trace: seq<State>, i: nat, e: ExecutionRecord, l: Log)
    requires IsRun(cfg, trace) && i < |trace| && e in trace[i].w.executions
    requires e.blockNumber < |trace[i].w.chain| && l in trace[i].w.chain[e.blockNumber].logs && KeyOf(l) == e.key
    requires forall g :: g in trace[i].w.chain[e.blockNumber].logs && SettlesFor(g, e) ==> g.address == l.address
    ensures var c := trace[i].w.chain;
            if exists g :: g in c[e.blockNumber].logs && SettlesFor(g, e)
            then exists g :: IsSettlement(c, e, g)
            else e.gasCompAmount == None && e.gasCompToken == None
  {
    RunKeeps(cfg, trace, i);
    SettlementOf(cfg, trace[i].w, e, l);
  }

  lemma SettlementOf(cfg: Settings, w: World, e: ExecutionRecord, l: Log)
    requires WellFormed(w.chain) && TablesOk(cfg, w) && e in w.executions
    requires e.blockNumber < |w.chain| && l in w.chain[e.blockNumber].logs && KeyOf(l) == e.key
    requires forall g :: g in w.chain[e.blockNumber].logs && SettlesFor(g, e) ==> g.address == l.address
    ensures if exists g :: g in w.chain[e.blockNumber].logs && SettlesFor(g, e)
            then exists g :: IsSettlement(w.chain, e, g)
            else e.gasCompAmount == None && e.gasCompToken == None
  {
    var c, b := w.chain, e.blockNumber;
    var gate, address := JoinOf(c, w.vaults, Safe(c, cfg.confirmations), e);
    var event :| Log(Some(address), e.key.txHash, b, e.key.logIndex, event) in c[b].logs;
    LogsHaveKeys(c, b, b, l, Log(Some(address), e.key.txHash, b, e.key.logIndex, event));
    FoundSettlement(c, gate, b, e);
    var gas := FindGasComp(ParsedIn(c, gate.Keys, b, b + 1), e.key.txHash, e.automationId, e.executor);
    if gas.Some? {
      var g :| g in c[b].logs && SettlesFor(g, e) && g.event == gas.value;
      assert IsSettlement(c, e, g);
    } else {
      assert forall g :: g in c[b].logs && SettlesFor(g, e) ==> Passes(g, gate);
    }
  }

  // ---- along a run ----

  /** A failure row keeps its pair and its first failure, never loses an attempt and is never reopened. */
  predicate Descends(row: FailureRow, row': FailureRow) {
    && row'.pair == row.pair && row'.firstFailedAt == row.firstFailedAt && row.attemptCount <= row'.attemptCount
    && (row.resolvedAt.Some? ==> row'.resolvedAt == row.resolvedAt)
  }

  predicate FailuresKept(rows: Ledger, rows': Ledger) {
    |rows| <= |rows'| && forall i :: 0 <= i < |rows| ==> Descends(rows[i], rows'[i])
  }

  /** What no step takes back. */
  ghost predicate Grows(cfg: Settings, w: World, w': World) {
    && w.executions <= w'.executions && w.vaultEvents <= w'.vaultEvents && w.history.emitted <= w'.history.emitted
    && w.history.accepted <= w'.history.accepted && FailuresKept(w.failures, w'.failures)
    && Extends(w.chain, w'.chain, cfg.confirmations)
    && (w.cursor.Some? ==> w'.cursor.Some? && w.cursor.value <= w'.cursor.value && w'.history.seed == w.history.seed)
  }

  lemma {:induction false} InsertsAppend(db: seq<ExecutionRecord>, records: seq<ExecutionRecord>)
    ensures db <= InsertExecutions(db, records)
  {
    if records != [] { InsertsAppend(db, records[..|records| - 1]); }
  }

  lemma {:induction false} EventInsertsAppend(db: seq<VaultEventRecord>, records: seq<VaultEventRecord>)
    ensures db <= InsertEvents(db, records)
  {
    if records != [] { EventInsertsAppend(db, records[..|records| - 1]); }
  }

  lemma OtherGrows(cfg: Settings, s: State, a: Action)
    requires Enabled(cfg, s, a) && IsOther(a)
    ensures Grows(cfg, s.w, Apply(cfg, s, a).w)
  {
    hide WellFormed, Look;
  }

  lemma CommitGrows(cfg: Settings, s: State, at: nat)
    requires Enabled(cfg, s, CommitExecutions(at))
    ensures Grows(cfg, s.w, Apply(cfg, s, CommitExecutions(at)).w)
  {
    hide InsertExecutions, PairsOf;
    InsertsAppend(s.w.executions, ExecutionRecords(s.pc.t.gate, s.pc.newRows));
  }

  lemma StoreGrows(cfg: Settings, s: State)
    requires Enabled(cfg, s, StoreEvents)
    ensures Grows(cfg, s.w, Apply(cfg, s, StoreEvents).w)
  {
    hide InsertEvents;
    EventInsertsAppend(s.w.vaultEvents, VaultEventRecords(s.pc.t.gate, s.pc.newEvents));
  }

  lemma AdvanceGrows(cfg: Settings, s: State)
    requires Enabled(cfg, s, AdvanceCursor) && Inv(cfg, s)
    ensures Grows(cfg, s.w, Apply(cfg, s, AdvanceCursor).w)
  {
    hide WorldOk, ExecutionsDone, EventsDone;
  }

  lemma StepGrows(cfg: Settings, s: State, a: Action)
    requires Inv(cfg, s) && Enabled(cfg, s, a)
    ensures Grows(cfg, s.w, Apply(cfg, s, a).w)
  {
    if IsOther(a) {
      OtherGrows(cfg, s, a);
    } else if a.CommitExecutions? {
      CommitGrows(cfg, s, a.at);
    } else if a.StoreEvents? {
      StoreGrows(cfg, s);
    } else if a.AdvanceCursor? {
      AdvanceGrows(cfg, s);
    } else {
      hide Inv, WellFormed;
    }
  }

  lemma GrowsItself(cfg: Settings, w: World)
    ensures Grows(cfg, w, w)
  {
  }

  lemma GrowsFurther(cfg: Settings, u: World, v: World, w: World)
    requires Grows(cfg, u, v) && Grows(cfg, v, w)
    ensures Grows(cfg, u, w)
  {
  }

  lemma RunGrowsAt(cfg: Settings, trace: seq<State>, k: nat)
    requires IsRun(cfg, trace) && k + 1 < |trace|
    ensures Grows(cfg, trace[k].w, trace[k + 1].w)
  {
    RunKeeps(cfg, trace, k);
    assert Next(cfg, trace[k], trace[k + 1]);
    var a :| Enabled(cfg, trace[k], a) && trace[k + 1] == Apply(cfg, trace[k], a);
    StepGrows(cfg, trace[k], a);
  }

  /** The cursor never moves back, its first value is never replaced, no stored or emitted row is ever lost, and no
      failure row loses an attempt or is reopened. */
  lemma {:induction false} NothingTakenBack(cfg: Settings, trace: seq<State>, i: nat, j: nat)
    requires IsRun(cfg, trace) && i <= j < |trace|
    ensures Grows(cfg, trace[i].w, trace[j].w)
    decreases j
  {
    hide IsRun, Grows;
    if i == j {
      GrowsItself(cfg, trace[i].w);
    } else {
      NothingTakenBack(cfg, trace, i, j - 1);
      RunGrowsAt(cfg, trace, j - 1);
      GrowsFurther(cfg, trace[i].w, trace[j - 1].w, trace[j].w);
    }
  }

  // ---- emission ----

  /** Every execution row is handed out at most once, after it was stored, with the address of the vault that owns it.
      */
  lemma EmittedAtMostOnce(cfg: Settings, trace: seq<State>, i: nat)
    requires IsRun(cfg, trace) && i < |trace|
    ensures var w := trace[i].w; var emitted := w.history.emitted;
            && (forall m, n :: 0 <= m < n < |emitted| ==> emitted[m].record.key != emitted[n].record.key)
            && (forall m :: m in emitted ==>
                  && m.record in w.executions
                  && m.address in w.vaults && w.vaults[m.address].id == m.record.vault
                  && forall a :: a in w.vaults && w.vaults[a].id == m.record.vault ==> a == m.address)
  {
    RunKeeps(cfg, trace, i);
  }

  /** The batch that waits between its commit and its emission. */
  ghost predicate AwaitsEmission(s: State, key: Key) { s.pc.ReadingBack? && key in RowKeys(s.pc.newRows) }

  /** The process died in between. */
  ghost predicate LostAt(trace: seq<State>, k: nat, key: Key) {
    k + 1 < |trace| && AwaitsEmission(trace[k], key) && trace[k + 1] == State(trace[k].w, Idle)
  }

  lemma {:induction false} EmissionsCover(gate: Gate, created: seq<ExecutionRecord>, e: ExecutionRecord)
    requires e in created && HasAddress(gate, e.vault)
    ensures e.key in EmittedKeys(Emissions(gate, created))
  {
    var front, last := created[..|created| - 1], created[|created| - 1];
    assert created == front + [last];
    var rest := Emissions(gate, front);
    if e == last {
      assert Emission(AddressOf(gate, e.vault), e) in Emissions(gate, created);
    } else {
      EmissionsCover(gate, front, e);
      var m :| m in rest && m.record.key == e.key;
      assert m in Emissions(gate, created);
    }
  }

  lemma EmitCovers(cfg: Settings, s: State, e: ExecutionRecord)
    requires Inv(cfg, s) && Enabled(cfg, s, EmitCreated) && e in s.w.executions
    ensures var w' := Apply(cfg, s, EmitCreated).w;
            && (AwaitsEmission(s, e.key) ==> e.key in EmittedKeys(w'.history.emitted))
            && EmittedKeys(s.w.history.emitted) <= EmittedKeys(w'.history.emitted)
  {
    hide WorldOk, ExecutionsDone, Emissions, IsParsed, WindowOk;
    var t, keys := s.pc.t, RowKeys(s.pc.newRows);
    var batch := Emissions(t.gate, Created(s.w.executions, keys));
    forall k | k in EmittedKeys(s.w.history.emitted) + EmittedKeys(batch)
      ensures k in EmittedKeys(s.w.history.emitted + batch)
    {
      var m :| (m in s.w.history.emitted || m in batch) && m.record.key == k;
      assert m in s.w.history.emitted + batch;
    }
    if AwaitsEmission(s, e.key) { EmissionsCover(t.gate, Created(s.w.executions, keys), e); }
  }

  lemma CommitAwaits(cfg: Settings, s: State, at: nat, e: ExecutionRecord)
    requires Inv(cfg, s) && Enabled(cfg, s, CommitExecutions(at))
    requires e in Apply(cfg, s, CommitExecutions(at)).w.executions
    ensures e in s.w.executions || AwaitsEmission(Apply(cfg, s, CommitExecutions(at)), e.key)
  {
    hide PairsOf, InsertExecutions, WellFormed, EmittedOk, CursorOk, LedgerOk, GenuineExecution, GenuineEvent;
    var records := ExecutionRecords(s.pc.t.gate, s.pc.newRows);
    InsertExecutionsFacts(s.w.executions, records);
    if e !in s.w.executions {
      var i :| 0 <= i < |records| && records[i] == e;
      assert s.pc.newRows[i] in s.pc.newRows && s.pc.newRows[i].key == e.key;
    }
  }

  /** What a step leaves stored, not emitted and not waiting was so before, unless it waited and the process died. */
  lemma StepEmits(cfg: Settings, s: State, a: Action, e: ExecutionRecord)
    requires Inv(cfg, s) && Enabled(cfg, s, a)
    requires var s' := Apply(cfg, s, a);
             e in s'.w.executions && e.key !in EmittedKeys(s'.w.history.emitted) && !AwaitsEmission(s', e.key)
    ensures e in s.w.executions && e.key !in EmittedKeys(s.w.history.emitted)
    ensures AwaitsEmission(s, e.key) ==> Apply(cfg, s, a) == State(s.w, Idle)
  {
    if a.CommitExecutions? {
      CommitAwaits(cfg, s, a.at, e);
    } else if a.EmitCreated? {
      EmitCovers(cfg, s, e);
    } else {
      hide Inv, AwaitsEmission, EmittedKeys;
      SameBatch(cfg, s, a, e.key);
    }
  }

  lemma SameBatch(cfg: Settings, s: State, a: Action, key: Key)
    requires Enabled(cfg, s, a) && !a.CommitExecutions? && !a.EmitCreated?
    ensures Apply(cfg, s, a).w.executions == s.w.executions && Apply(cfg, s, a).w.history.emitted == s.w.history.emitted
    ensures AwaitsEmission(s, key) ==> AwaitsEmission(Apply(cfg, s, a), key) || Apply(cfg, s, a) == State(s.w, Idle)
  {
    hide WellFormed, Extends, Look;
  }

  lemma NextEmits(cfg: Settings, trace: seq<State>, k: nat, e: ExecutionRecord)
    requires IsRun(cfg, trace) && k + 1 < |trace|
    requires e in trace[k + 1].w.executions && e.key !in EmittedKeys(trace[k + 1].w.history.emitted)
    requires !AwaitsEmission(trace[k + 1], e.key)
    ensures e in trace[k].w.executions && e.key !in EmittedKeys(trace[k].w.history.emitted)
    ensures AwaitsEmission(trace[k], e.key) ==> LostAt(trace, k, e.key)
  {
    RunKeeps(cfg, trace, k);
    assert Next(cfg, trace[k], trace[k + 1]);
    var a :| Enabled(cfg, trace[k], a) && trace[k + 1] == Apply(cfg, trace[k], a);
    StepEmits(cfg, trace[k], a, e);
  }

  lemma {:induction false} EmittedOrLost(cfg: Settings, trace: seq<State>, i: nat, e: ExecutionRecord)
    requires IsRun(cfg, trace) && i < |trace| && e in trace[i].w.executions
    ensures e.key in EmittedKeys(trace[i].w.history.emitted) || AwaitsEmission(trace[i], e.key)
            || exists k: nat :: k < i && LostAt(trace, k, e.key)
    decreases i
  {
    if e.key !in EmittedKeys(trace[i].w.history.emitted) && !AwaitsEmission(trace[i], e.key) {
      if i > 0 {
        NextEmits(cfg, trace, i - 1, e);
        hide IsRun, LostAt, AwaitsEmission, EmittedKeys;
        EmittedOrLost(cfg, trace, i - 1, e);
      }
    }
  }

  /** Stored, never handed out, and in no batch that will be. */
  ghost predicate Stranded(s: State, key: Key) {
    key in ExecutionKeys(s.w.executions) && key !in EmittedKeys(s.w.history.emitted) && !AwaitsEmission(s, key)
  }

  lemma {:induction false} EmissionsOnlyOf(gate: Gate, created: seq<ExecutionRecord>, keys: set<Key>)
    requires forall e :: e in created ==> e.key in keys
    ensures EmittedKeys(Emissions(gate, created)) <= keys
  {
    if created != [] {
      var front, last := created[..|created| - 1], created[|created| - 1];
      assert created == front + [last];
      EmissionsOnlyOf(gate, front, keys);
      forall m | m in Emissions(gate, created) ensures m.record.key in keys {
        if m in Emissions(gate, front) { assert m.record.key in EmittedKeys(Emissions(gate, front)); }
      }
    }
  }

  lemma EmitLeavesStranded(cfg: Settings, s: State, key: Key)
    requires Inv(cfg, s) && Enabled(cfg, s, EmitCreated) && Stranded(s, key)
    ensures Stranded(Apply(cfg, s, EmitCreated), key)
  {
    hide WorldOk, ProcessOk, Emissions;
    var keys := RowKeys(s.pc.newRows);
    var batch := Emissions(s.pc.t.gate, Created(s.w.executions, keys));
    EmissionsOnlyOf(s.pc.t.gate, Created(s.w.executions, keys), keys);
    forall m | m in s.w.history.emitted + batch ensures m.record.key != key {
      if m in batch { assert m.record.key in EmittedKeys(batch); }
    }
  }

  lemma CommitLeavesStranded(cfg: Settings, s: State, at: nat, key: Key)
    requires Inv(cfg, s) && Enabled(cfg, s, CommitExecutions(at)) && Stranded(s, key)
    ensures Stranded(Apply(cfg, s, CommitExecutions(at)), key)
  {
    hide PairsOf, InsertExecutions, WellFormed, EmittedOk, CursorOk, LedgerOk, GenuineExecution, GenuineEvent;
    InsertExecutionsFacts(s.w.executions, ExecutionRecords(s.pc.t.gate, s.pc.newRows));
    var e :| e in s.w.executions && e.key == key;
  }

  lemma NoOtherBatch(cfg: Settings, s: State, a: Action, key: Key)
    requires Enabled(cfg, s, a) && !a.CommitExecutions? && !AwaitsEmission(s, key)
    ensures !AwaitsEmission(Apply(cfg, s, a), key)
  {
    hide WellFormed, Extends, Look;
  }

  lemma StepLeavesStranded(cfg: Settings, s: State, a: Action, key: Key)
    requires Inv(cfg, s) && Enabled(cfg, s, a) && Stranded(s, key)
    ensures Stranded(Apply(cfg, s, a), key)
  {
    if a.CommitExecutions? {
      CommitLeavesStranded(cfg, s, a.at, key);
    } else if a.EmitCreated? {
      EmitLeavesStranded(cfg, s, key);
    } else {
      hide Inv, AwaitsEmission, EmittedKeys, ExecutionKeys;
      SameBatch(cfg, s, a, key);
      NoOtherBatch(cfg, s, a, key);
    }
  }

  lemma NextLeavesStranded(cfg: Settings, trace: seq<State>, k: nat, key: Key)
    requires IsRun(cfg, trace) && k + 1 < |trace| && Stranded(trace[k], key)
    ensures Stranded(trace[k + 1], key)
  {
    RunKeeps(cfg, trace, k);
    assert Next(cfg, trace[k], trace[k + 1]);
    var a :| Enabled(cfg, trace[k], a) && trace[k + 1] == Apply(cfg, trace[k], a);
    StepLeavesStranded(cfg, trace[k], a, key);
  }

  lemma LostIsStranded(cfg: Settings, trace: seq<State>, k: nat, key: Key)
    requires IsRun(cfg, trace) && LostAt(trace, k, key)
    ensures Stranded(trace[k + 1], key)
  {
    RunKeeps(cfg, trace, k);
    hide IsRun, WorldOk, ExecutionKeys, EmittedKeys, RowKeys, ExecutionsDone, WindowOk, IsParsed;
  }

  lemma {:induction false} LostIsNeverEmitted(cfg: Settings, trace: seq<State>, k: nat, i: nat, key: Key)
    requires IsRun(cfg, trace) && LostAt(trace, k, key) && k < i < |trace|
    ensures Stranded(trace[i], key)
    decreases i
  {
    hide IsRun, LostAt, Stranded;
    if i == k + 1 {
      LostIsStranded(cfg, trace, k, key);
    } else {
      LostIsNeverEmitted(cfg, trace, k, i - 1, key);
      NextLeavesStranded(cfg, trace, i - 1, key);
    }
  }

  /** A stored execution has been handed out exactly if it is not in the batch being read back and the process did not
      die between its commit and its emission. */
  lemma EmittedExactly(cfg: Settings, trace: seq<State>, i: nat, e: ExecutionRecord)
    requires IsRun(cfg, trace) && i < |trace| && e in trace[i].w.executions
    ensures (exists m :: m in trace[i].w.history.emitted && m.record == e) <==>
            !AwaitsEmission(trace[i], e.key) && !exists k: nat :: k < i && LostAt(trace, k, e.key)
  {
    EmittedOrLost(cfg, trace, i, e);
    RunKeeps(cfg, trace, i);
    EmittedByKey(trace[i].w, e);
    if AwaitsEmission(trace[i], e.key) { BatchIsNotEmitted(cfg, trace[i], e.key); }
    hide IsRun, LostAt, AwaitsEmission, Inv, EmittedKeys;
    if k: nat :| k < i && LostAt(trace, k, e.key) {
      LostIsNeverEmitted(cfg, trace, k, i, e.key);
    }
  }

  lemma EmittedByKey(w: World, e: ExecutionRecord)
    requires UniqueExecutions(w.executions) && EmittedOk(w) && e in w.executions
    ensures (exists m :: m in w.history.emitted && m.record == e) <==> e.key in EmittedKeys(w.history.emitted)
  {
    if e.key in EmittedKeys(w.history.emitted) {
      var m :| m in w.history.emitted && m.record.key == e.key;
      SameKeySameRow(w.executions, m.record, e);
    }
  }

  lemma BatchIsNotEmitted(cfg: Settings, s: State, key: Key)
    requires Inv(cfg, s) && AwaitsEmission(s, key)
    ensures key !in EmittedKeys(s.w.history.emitted)
  {
    hide WorldOk, EmittedKeys, RowKeys, ExecutionsDone, WindowOk, IsParsed;
  }

  lemma SameKeySameRow(db: seq<ExecutionRecord>, d: ExecutionRecord, e: ExecutionRecord)
    requires UniqueExecutions(db) && d in db && e in db && d.key == e.key
    ensures d == e
  {
    var i :| 0 <= i < |db| && db[i] == d;
    var j :| 0 <= j < |db| && db[j] == e;
  }

  // ---- failures ----

  /** At most one open failure per vault and automation, and every accepted report is counted in exactly one row. */
  lemma FailuresAreCounted(cfg: Settings, trace: seq<State>, i: nat)
    requires IsRun(cfg, trace) && i < |trace|
    ensures OneOpen(trace[i].w.failures) && Attempts(trace[i].w.failures) == trace[i].w.history.accepted
  {
    RunKeeps(cfg, trace, i);
  }

  /** The commit of a success leaves no open failure for its vault and automation, and touches no closed one. */
  lemma SuccessClosesFailures(cfg: Settings, s: State, at: nat, row: ExecutionRow)
    requires Inv(cfg, s) && Enabled(cfg, s, CommitExecutions(at)) && row in s.pc.newRows
    ensures var w' := Apply(cfg, s, CommitExecutions(at)).w;
            && row.key in ExecutionKeys(w'.executions)
            && FindOpen(w'.failures, Pair(s.pc.t.gate[row.vaultAddress], row.automationId)).None?
            && forall k :: 0 <= k < |s.w.failures| && !s.w.failures[k].Open() ==> w'.failures[k] == s.w.failures[k]
  {
    ResolveKeeps(s.w.failures, PairsOf(s.pc.t.gate, s.pc.newRows), at);
    var records := ExecutionRecords(s.pc.t.gate, s.pc.newRows);
    InsertExecutionsFacts(s.w.executions, records);
    var i :| 0 <= i < |s.pc.newRows| && s.pc.newRows[i] == row;
    assert records[i] in records && records[i].key == row.key;
    assert Pair(s.pc.t.gate[row.vaultAddress], row.automationId) in PairsOf(s.pc.t.gate, s.pc.newRows);
  }

  /** A report about to be written over the row it read. */
  predicate Overwrites(w: World, a: Action, id: nat) {
    a.WriteReport? && a.index < |w.pending| && w.pending[a.index].seen.Some? && w.pending[a.index].seen.value.id == id
  }

  /** A closed failure changes exactly when a report that read it while it was open is written after it was closed. */
  lemma ClosedFailureChanges(cfg: Settings, s: State, a: Action, id: nat)
    requires Inv(cfg, s) && Enabled(cfg, s, a) && id < |s.w.failures| && !s.w.failures[id].Open()
    ensures id < |Apply(cfg, s, a).w.failures|
    ensures Apply(cfg, s, a).w.failures[id] != s.w.failures[id] <==> Overwrites(s.w, a, id)
    ensures !Apply(cfg, s, a).w.failures[id].Open()
  {
    StepGrows(cfg, s, a);
    hide WellFormed, TablesOk, CursorOk, EmittedOk, ProcessOk, Extends;
    if a.CommitExecutions? {
      ResolveKeeps(s.w.failures, PairsOf(s.pc.t.gate, s.pc.newRows), a.at);
    }
  }

  /** For any report at all: read, let a success close the row, write. The attempt lands on the closed row
      and the pair is left without an open failure. */
  lemma RacingReportIsLost(r: Report, at: nat)
    ensures var open := Ingested([], r);
            var closed := Resolved(open, {r.pair}, at);
            var after := Write(closed, Look(open, r), r);
            && after.Success? && |after.value| == 1
            && after.value[0] != closed[0] && after.value[0].attemptCount == 2 && !closed[0].Open()
            && FindOpen(after.value, r.pair).None?
            && FindOpen(Ingested(closed, r), r.pair).Some?
  {
    var open := Ingested([], r);
    assert open == [NewFailure(r)];
    assert open[..0] == [] && FindOpen(open, r.pair) == Some(0);
    var closed := Resolved(open, {r.pair}, at);
    assert closed[..0] == [] && FindOpen(closed, r.pair).None?;
    assert Ingested(closed, r) == closed + [NewFailure(r)];
  }

  /** Reports are written against what they read: nothing came between the two halves of the call. */
  ghost predicate AtomicNext(cfg: Settings, s: State, s': State) {
    exists a :: Enabled(cfg, s, a) && s' == Apply(cfg, s, a)
                && (a.WriteReport? ==> s.w.pending[a.index].seen == Look(s.w.failures, s.w.pending[a.index].report))
  }

  lemma AtomicStepKeepsClosed(cfg: Settings, s: State, s': State, id: nat)
    requires Inv(cfg, s) && AtomicNext(cfg, s, s') && id < |s.w.failures| && !s.w.failures[id].Open()
    ensures id < |s'.w.failures| && s'.w.failures[id] == s.w.failures[id]
  {
    var a :| Enabled(cfg, s, a) && s' == Apply(cfg, s, a)
             && (a.WriteReport? ==> s.w.pending[a.index].seen == Look(s.w.failures, s.w.pending[a.index].report));
    ClosedFailureChanges(cfg, s, a, id);
  }

  ghost predicate AtomicAt(cfg: Settings, trace: seq<State>, k: nat) {
    k + 1 < |trace| && AtomicNext(cfg, trace[k], trace[k + 1])
  }

  ghost predicate ClosedAt(trace: seq<State>, k: nat, id: nat, row: FailureRow) {
    k < |trace| && id < |trace[k].w.failures| && trace[k].w.failures[id] == row && !row.Open()
  }

  lemma AtomicStepOfRun(cfg: Settings, trace: seq<State>, k: nat, id: nat, row: FailureRow)
    requires IsRun(cfg, trace) && AtomicAt(cfg, trace, k) && ClosedAt(trace, k, id, row)
    ensures ClosedAt(trace, k + 1, id, row)
  {
    RunKeeps(cfg, trace, k);
    AtomicStepKeepsClosed(cfg, trace[k], trace[k + 1], id);
  }

  /** With atomic reports a closed failure never changes again. */
  lemma {:induction false} ClosedFailuresAreFinal(cfg: Settings, trace: seq<State>, i: nat, j: nat, id: nat,
      row: FailureRow)
    requires IsRun(cfg, trace) && i <= j < |trace| && ClosedAt(trace, i, id, row)
    requires forall k: nat :: i <= k < j ==> AtomicAt(cfg, trace, k)
    ensures ClosedAt(trace, j, id, row)
    decreases j
  {
    hide IsRun, AtomicAt, ClosedAt;
    if i < j {
      ClosedFailuresAreFinal(cfg, trace, i, j - 1, id, row);
      assert AtomicAt(cfg, trace, j - 1);
      AtomicStepOfRun(cfg, trace, j - 1, id, row);
    }
  }

  // ---- reachable states ----

  ghost predicate Reachable(cfg: Settings, s: State) {
    exists trace :: IsRun(cfg, trace) && trace[|trace| - 1] == s
  }

  lemma ReachableInitially(cfg: Settings, s: State)
    requires Initial(s)
    ensures Reachable(cfg, s)
  {
    assert IsRun(cfg, [s]) && [s][|[s]| - 1] == s;
  }

  lemma ReachableStep(cfg: Settings, s: State, a: Action)
    requires Reachable(cfg, s) && Enabled(cfg, s, a)
    ensures Reachable(cfg, Apply(cfg, s, a))
  {
    var s' := Apply(cfg, s, a);
    assert Next(cfg, s, s');
    var trace :| IsRun(cfg, trace) && trace[|trace| - 1] == s;
    var longer := trace + [s'];
    forall i | 0 <= i < |longer| - 1 ensures Next(cfg, longer[i], longer[i + 1]) {
      if i < |trace| - 1 { assert longer[i] == trace[i] && longer[i + 1] == trace[i + 1]; }
    }
    assert longer[|longer| - 1] == s';
  }

  lemma ReachableInv(cfg: Settings, s: State)
    requires Reachable(cfg, s)
    ensures Inv(cfg, s)
  {
    var trace :| IsRun(cfg, trace) && trace[|trace| - 1] == s;
    RunKeeps(cfg, trace, |trace| - 1);
  }
}
