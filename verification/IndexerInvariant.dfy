/** The invariant of the indexer and its preservation by every step. */
module IndexerInvariant {
  import opened Chain
  import opened EventMapper
  import opened FailureLedger
  import opened IndexerProtocol
  import opened RangePlanner
  import opened WindowRows
  import opened Wrappers

  // ---- the invariant ----

  /** A vault set loaded at some time: vaults are never removed. */
  ghost predicate SubGate(gate: Gate, vaults: map<Address, Vault>) {
    forall a :: a in gate ==> a in vaults && vaults[a].id == gate[a]
  }

  ghost predicate VaultsOk(vaults: map<Address, Vault>) {
    forall a, b :: a in vaults && b in vaults && vaults[a].id == vaults[b].id ==> a == b
  }

  ghost predicate ExecutionsDone(c: Blocks, db: seq<ExecutionRecord>, gate: Gate, lo: nat, hi: nat) {
    lo <= hi <= |c| && WellFormed(c)
      && forall r :: r in ExecutionsIn(c, gate.Keys, lo, hi) ==> r.key in ExecutionKeys(db)
  }

  ghost predicate EventsDone(c: Blocks, db: seq<VaultEventRecord>, gate: Gate, lo: nat, hi: nat) {
    lo <= hi <= |c| && WellFormed(c)
      && forall r :: r in VaultEventsIn(c, gate.Keys, lo, hi, 0) ==> r.key in EventKeys(db)
  }

  /** The record of the row, made from the log's own block under some loaded vault set. */
  ghost predicate ExecutionFrom(c: Blocks, gate: Gate, row: ExecutionRow, e: ExecutionRecord) {
    && WellFormed(c) && row.blockNumber < |c| && row.vaultAddress in gate
    && row in ExecutionsIn(c, gate.Keys, row.blockNumber, row.blockNumber + 1)
    && e == ExecutionRecordOf(gate, row)
  }

  ghost predicate GenuineExecution(c: Blocks, vaults: map<Address, Vault>, safe: int, e: ExecutionRecord) {
    e.blockNumber <= safe && exists gate, row :: SubGate(gate, vaults) && ExecutionFrom(c, gate, row, e)
  }

  ghost predicate EventFrom(c: Blocks, gate: Gate, row: VaultEventRow, bps: nat, e: VaultEventRecord) {
    && WellFormed(c) && row.blockNumber < |c| && row.vaultAddress in gate
    && row in VaultEventsIn(c, gate.Keys, row.blockNumber, row.blockNumber + 1, bps)
    && e == VaultEventRecordOf(gate, row)
  }

  ghost predicate GenuineEvent(c: Blocks, vaults: map<Address, Vault>, safe: int, e: VaultEventRecord) {
    e.blockNumber <= safe && exists gate, row, bps :: SubGate(gate, vaults) && EventFrom(c, gate, row, bps, e)
  }

  ghost predicate UniqueExecutions(db: seq<ExecutionRecord>) {
    forall i, j :: 0 <= i < j < |db| ==> db[i].key != db[j].key
  }

  ghost predicate UniqueEvents(db: seq<VaultEventRecord>) {
    forall i, j :: 0 <= i < j < |db| ==> db[i].key != db[j].key
  }

  ghost predicate TablesOk(cfg: Settings, w: World) {
    && UniqueExecutions(w.executions) && UniqueEvents(w.vaultEvents)
    && (forall e :: e in w.executions ==> GenuineExecution(w.chain, w.vaults, Safe(w.chain, cfg.confirmations), e))
    && (forall e :: e in w.vaultEvents ==> GenuineEvent(w.chain, w.vaults, Safe(w.chain, cfg.confirmations), e))
  }

  /** The block was passed under a recorded vault set, and everything it asks for is stored. */
  ghost predicate BlockDone(w: World, b: nat) {
    && b in w.history.passed && SubGate(w.history.passed[b], w.vaults)
    && ExecutionsDone(w.chain, w.executions, w.history.passed[b], b, b + 1)
    && EventsDone(w.chain, w.vaultEvents, w.history.passed[b], b, b + 1)
  }

  ghost predicate CursorOk(cfg: Settings, w: World) {
    && (w.cursor.Some? <==> w.history.seed.Some?)
    && (w.cursor.Some? ==>
          && w.history.seed.value <= w.cursor.value
          && (w.cursor == w.history.seed || w.cursor.value <= Safe(w.chain, cfg.confirmations))
          && forall b: nat :: w.history.seed.value < b <= w.cursor.value ==> BlockDone(w, b))
  }

  ghost predicate LedgerOk(w: World) {
    && OneOpen(w.failures) && Attempts(w.failures) == w.history.accepted
    && forall i :: 0 <= i < |w.pending| && w.pending[i].seen.Some? ==> w.pending[i].seen.value.id < |w.failures|
  }

  ghost predicate EmittedOk(w: World) {
    && (forall i, j :: 0 <= i < j < |w.history.emitted| ==>
          w.history.emitted[i].record.key != w.history.emitted[j].record.key)
    && (forall m :: m in w.history.emitted ==>
          m.record in w.executions && m.address in w.vaults && w.vaults[m.address].id == m.record.vault)
  }

  function EmittedKeys(emitted: seq<Emission>): set<Key> { set m | m in emitted :: m.record.key }

  /** The windows of a tick lead from the cursor to a confirmed block. */
  ghost predicate TickOk(cfg: Settings, w: World, t: Tick) {
    && w.cursor.Some? && t.ranges != [] && SubGate(t.gate, w.vaults)
    && RangesOk(cfg, w, t.ranges)
  }

  ghost predicate RangesOk(cfg: Settings, w: World, ranges: seq<BlockRange>) {
    && w.cursor.Some? && ranges != []
    && ranges[|ranges| - 1].to <= Safe(w.chain, cfg.confirmations)
    && Tiles(ranges, w.cursor.value + 1, ranges[|ranges| - 1].to)
  }

  ghost function Lo(t: Tick): int requires t.ranges != [] { t.ranges[0].from }
  ghost function Hi(t: Tick): int requires t.ranges != [] { t.ranges[0].to + 1 }

  ghost predicate WindowOk(cfg: Settings, w: World, t: Tick) {
    TickOk(cfg, w, t) && 0 <= Lo(t) < Hi(t) <= Safe(w.chain, cfg.confirmations) + 1
  }

  ghost predicate IsParsed(w: World, t: Tick, parsed: seq<Parsed>)
    requires t.ranges != [] && 0 <= Lo(t) < Hi(t) <= |w.chain|
  {
    parsed == ParsedIn(w.chain, t.gate.Keys, Lo(t), Hi(t))
  }

  /** The rows still to insert, and nothing but them, is missing from the window. */
  ghost predicate MissingExecutions(w: World, t: Tick, newRows: seq<ExecutionRow>)
    requires t.ranges != [] && 0 <= Lo(t) < Hi(t) <= |w.chain| && WellFormed(w.chain)
  {
    && (forall r :: r in newRows ==>
          r in ExecutionsIn(w.chain, t.gate.Keys, Lo(t), Hi(t)) && r.key !in ExecutionKeys(w.executions))
    && (forall r :: r in ExecutionsIn(w.chain, t.gate.Keys, Lo(t), Hi(t)) ==>
          r in newRows || r.key in ExecutionKeys(w.executions))
  }

  ghost predicate MissingEvents(w: World, t: Tick, newRows: seq<VaultEventRow>, bps: nat)
    requires t.ranges != [] && 0 <= Lo(t) < Hi(t) <= |w.chain| && WellFormed(w.chain)
  {
    && (forall r :: r in newRows ==> r in VaultEventsIn(w.chain, t.gate.Keys, Lo(t), Hi(t), bps))
    && (forall r :: r in VaultEventsIn(w.chain, t.gate.Keys, Lo(t), Hi(t), bps) ==>
          r in newRows || r.key in EventKeys(w.vaultEvents))
  }

  /** The rows just inserted are stored, have never been emitted and belong to vaults of the gate. */
  ghost predicate ReadyToEmit(w: World, t: Tick, newRows: seq<ExecutionRow>) {
    && RowKeys(newRows) <= ExecutionKeys(w.executions) && RowKeys(newRows) !! EmittedKeys(w.history.emitted)
    && forall e :: e in w.executions && e.key in RowKeys(newRows) ==> HasAddress(t.gate, e.vault)
  }

  ghost predicate FetchOk(w: World, t: Tick, todo: seq<BlockRange>, got: seq<Log>)
    requires t.ranges != []
  {
    && todo != [] && 0 <= Lo(t) <= todo[0].from <= |w.chain|
    && Tiles(todo, todo[0].from, t.ranges[0].to)
    && got == LogsIn(w.chain, Lo(t), todo[0].from)
  }

  ghost predicate ProcessOk(cfg: Settings, w: World, pc: Process)
    requires WellFormed(w.chain)
  {
    match pc
    case Idle => true
    case HaveHead(head) => 0 <= head < |w.chain|
    case SeedCheck => true
    case SeedQuery => true
    case SeedHead => true
    case SeedWrite(_) => true
    case Planned(ranges) => RangesOk(cfg, w, ranges)
    case Fetching(t, todo, got) => WindowOk(cfg, w, t) && FetchOk(w, t, todo, got)
    case Stamping(t, parsed) => WindowOk(cfg, w, t) && IsParsed(w, t, parsed)
    case FindingExecutions(t, parsed, rows) =>
      WindowOk(cfg, w, t) && IsParsed(w, t, parsed) && rows == ExecutionsIn(w.chain, t.gate.Keys, Lo(t), Hi(t))
    case Committing(t, parsed, newRows) =>
      WindowOk(cfg, w, t) && IsParsed(w, t, parsed) && MissingExecutions(w, t, newRows)
    case ReadingBack(t, parsed, newRows) =>
      && WindowOk(cfg, w, t) && IsParsed(w, t, parsed) && ExecutionsDone(w.chain, w.executions, t.gate, Lo(t), Hi(t))
      && ReadyToEmit(w, t, newRows)
    case ReadingFee(t, parsed) =>
      WindowOk(cfg, w, t) && IsParsed(w, t, parsed) && ExecutionsDone(w.chain, w.executions, t.gate, Lo(t), Hi(t))
    case FindingEvents(t, rows) =>
      && WindowOk(cfg, w, t) && ExecutionsDone(w.chain, w.executions, t.gate, Lo(t), Hi(t))
      && exists bps :: rows == VaultEventsIn(w.chain, t.gate.Keys, Lo(t), Hi(t), bps)
    case InsertingEvents(t, newEvents) =>
      && WindowOk(cfg, w, t) && ExecutionsDone(w.chain, w.executions, t.gate, Lo(t), Hi(t))
      && exists bps :: MissingEvents(w, t, newEvents, bps)
    case Advancing(t) =>
      && WindowOk(cfg, w, t) && ExecutionsDone(w.chain, w.executions, t.gate, Lo(t), Hi(t))
      && EventsDone(w.chain, w.vaultEvents, t.gate, Lo(t), Hi(t))
  }

  ghost predicate WorldOk(cfg: Settings, w: World) {
    WellFormed(w.chain) && VaultsOk(w.vaults) && TablesOk(cfg, w) && CursorOk(cfg, w) && LedgerOk(w) && EmittedOk(w)
  }

  ghost predicate Inv(cfg: Settings, s: State) { WorldOk(cfg, s.w) && ProcessOk(cfg, s.w, s.pc) }

  // ---- rows of immutable blocks ----

  lemma {:induction false} SameStamps(logs: seq<Parsed>, all: seq<Parsed>, ts: Timestamps, ts': Timestamps, bps: nat)
    requires Stamped(logs, ts) && Stamped(logs, ts')
    requires forall l :: l in logs ==> ts'[l.blockNumber] == ts[l.blockNumber]
    ensures ExecutionRows(logs, all, ts') == ExecutionRows(logs, all, ts)
    ensures VaultEventRows(logs, ts', bps) == VaultEventRows(logs, ts, bps)
  {
    if logs != [] {
      assert logs == logs[..|logs| - 1] + [logs[|logs| - 1]];
      SameStamps(logs[..|logs| - 1], all, ts, ts', bps);
    }
  }

  lemma RowsUnchanged(c: Blocks, c': Blocks, vaults: set<Address>, lo: nat, hi: nat, bps: nat)
    requires lo <= hi <= |c| <= |c'| && WellFormed(c) && WellFormed(c') && forall n :: lo <= n < hi ==> c'[n] == c[n]
    ensures ParsedIn(c', vaults, lo, hi) == ParsedIn(c, vaults, lo, hi)
    ensures ExecutionsIn(c', vaults, lo, hi) == ExecutionsIn(c, vaults, lo, hi)
    ensures VaultEventsIn(c', vaults, lo, hi, bps) == VaultEventsIn(c, vaults, lo, hi, bps)
  {
    LogsUnchanged(c, c', lo, hi);
    ParsedInBlocks(c, vaults, lo, hi);
    ParsedInBlocks(c', vaults, lo, hi);
    var parsed := ParsedIn(c, vaults, lo, hi);
    SameStamps(parsed, parsed, ChainTimes(c), ChainTimes(c'), bps);
  }

  lemma RowsOfBlock(c: Blocks, vaults: set<Address>, lo: nat, b: nat, hi: nat, bps: nat)
    requires lo <= b < hi <= |c| && WellFormed(c)
    ensures forall r :: r in ExecutionsIn(c, vaults, b, b + 1) ==> r in ExecutionsIn(c, vaults, lo, hi)
    ensures forall r :: r in VaultEventsIn(c, vaults, b, b + 1, bps) ==> r in VaultEventsIn(c, vaults, lo, hi, bps)
  {
    WindowsConcatenate(c, vaults, lo, b, hi, bps);
    WindowsConcatenate(c, vaults, b, b + 1, hi, bps);
  }

  lemma ExecutionOfBlock(c: Blocks, vaults: set<Address>, b: nat, r: ExecutionRow)
    requires b < |c| && WellFormed(c) && r in ExecutionsIn(c, vaults, b, b + 1)
    ensures r.blockNumber == b && r.vaultAddress in vaults
  {
    ParsedInBlocks(c, vaults, b, b + 1);
    var parsed := ParsedIn(c, vaults, b, b + 1);
    ExecutionRowFrom(parsed, parsed, ChainTimes(c), r);
    var p :| p in parsed && p.event.AutomationExecuted? && r == ExecutionRowOf(p, parsed, ChainTimes(c)[p.blockNumber]);
    ParsedHasLog(c, vaults, b, b + 1, p);
  }

  /** A row of a window is a row of its own block. */
  lemma {:induction false} ExecutionInItsBlock(c: Blocks, vaults: set<Address>, lo: nat, hi: nat, r: ExecutionRow)
    requires lo <= hi <= |c| && WellFormed(c) && r in ExecutionsIn(c, vaults, lo, hi)
    ensures lo <= r.blockNumber < hi && r.vaultAddress in vaults
    ensures r in ExecutionsIn(c, vaults, r.blockNumber, r.blockNumber + 1)
    decreases hi
  {
    if lo == hi {
      ParsedInBlocks(c, vaults, lo, hi);
    } else {
      var last := hi - 1;
      WindowsConcatenate(c, vaults, lo, last, hi, 0);
      if r in ExecutionsIn(c, vaults, lo, last) {
        ExecutionInItsBlock(c, vaults, lo, last, r);
      } else {
        ExecutionOfBlock(c, vaults, last, r);
      }
    }
  }

  lemma EventOfBlock(c: Blocks, vaults: set<Address>, b: nat, bps: nat, r: VaultEventRow)
    requires b < |c| && WellFormed(c) && r in VaultEventsIn(c, vaults, b, b + 1, bps)
    ensures r.blockNumber == b && r.vaultAddress in vaults
  {
    ParsedInBlocks(c, vaults, b, b + 1);
    var parsed := ParsedIn(c, vaults, b, b + 1);
    VaultEventRowFrom(parsed, ChainTimes(c), bps, r);
    var p :| p in parsed && MovesFunds(p.event) && r == VaultEventRowOf(p, ChainTimes(c)[p.blockNumber], bps);
    ParsedHasLog(c, vaults, b, b + 1, p);
  }

  lemma {:induction false} EventInItsBlock(c: Blocks, vaults: set<Address>, lo: nat, hi: nat, bps: nat,
      r: VaultEventRow)
    requires lo <= hi <= |c| && WellFormed(c) && r in VaultEventsIn(c, vaults, lo, hi, bps)
    ensures lo <= r.blockNumber < hi && r.vaultAddress in vaults
    ensures r in VaultEventsIn(c, vaults, r.blockNumber, r.blockNumber + 1, bps)
    decreases hi
  {
    if lo == hi {
      ParsedInBlocks(c, vaults, lo, hi);
    } else {
      var last := hi - 1;
      WindowsConcatenate(c, vaults, lo, last, hi, bps);
      if r in VaultEventsIn(c, vaults, lo, last, bps) {
        EventInItsBlock(c, vaults, lo, last, bps, r);
      } else {
        EventOfBlock(c, vaults, last, bps, r);
      }
    }
  }

  /** The fee rate does not enter a row's key. */
  lemma EventKeysIgnoreFee(c: Blocks, vaults: set<Address>, lo: nat, hi: nat, bps: nat, bps': nat, r: VaultEventRow)
    requires lo <= hi <= |c| && WellFormed(c) && r in VaultEventsIn(c, vaults, lo, hi, bps)
    ensures exists r' :: r' in VaultEventsIn(c, vaults, lo, hi, bps') && r'.key == r.key
  {
    ParsedInBlocks(c, vaults, lo, hi);
    var parsed, ts := ParsedIn(c, vaults, lo, hi), ChainTimes(c);
    VaultEventRowFrom(parsed, ts, bps, r);
    var p :| p in parsed && MovesFunds(p.event) && r == VaultEventRowOf(p, ts[p.blockNumber], bps);
    var r' := VaultEventRowOf(p, ts[p.blockNumber], bps');
    VaultEventRowFrom(parsed, ts, bps', r');
    assert r'.key == r.key;
  }

  // ---- steps of other processes ----

  /** What the other processes may do to the world: nothing the indexer writes. */
  ghost predicate Environment(cfg: Settings, w: World, w': World) {
    && WellFormed(w'.chain) && Extends(w.chain, w'.chain, cfg.confirmations)
    && (forall a :: a in w.vaults ==> a in w'.vaults && w'.vaults[a] == w.vaults[a])
    && w'.executions == w.executions && w'.vaultEvents == w.vaultEvents && w'.cursor == w.cursor
    && w'.history.seed == w.history.seed && w'.history.passed == w.history.passed
    && w'.history.emitted == w.history.emitted
  }

  lemma GenuineStays(cfg: Settings, w: World, w': World)
    requires WellFormed(w.chain) && TablesOk(cfg, w) && Environment(cfg, w, w')
    ensures TablesOk(cfg, w')
  {
    forall e | e in w.executions ensures GenuineExecution(w'.chain, w'.vaults, Safe(w'.chain, cfg.confirmations), e) {
      GenuineExecutionStays(cfg, w, w', e);
    }
    forall e | e in w.vaultEvents ensures GenuineEvent(w'.chain, w'.vaults, Safe(w'.chain, cfg.confirmations), e) {
      GenuineEventStays(cfg, w, w', e);
    }
  }

  lemma GenuineExecutionStays(cfg: Settings, w: World, w': World, e: ExecutionRecord)
    requires WellFormed(w.chain) && Environment(cfg, w, w')
    requires GenuineExecution(w.chain, w.vaults, Safe(w.chain, cfg.confirmations), e)
    ensures GenuineExecution(w'.chain, w'.vaults, Safe(w'.chain, cfg.confirmations), e)
  {
    hide ExecutionsIn, VaultEventsIn, ParsedIn;
    var gate, row :| SubGate(gate, w.vaults) && ExecutionFrom(w.chain, gate, row, e);
    RowsUnchanged(w.chain, w'.chain, gate.Keys, e.blockNumber, e.blockNumber + 1, 0);
    assert SubGate(gate, w'.vaults) && ExecutionFrom(w'.chain, gate, row, e);
  }

  lemma GenuineEventStays(cfg: Settings, w: World, w': World, e: VaultEventRecord)
    requires WellFormed(w.chain) && Environment(cfg, w, w')
    requires GenuineEvent(w.chain, w.vaults, Safe(w.chain, cfg.confirmations), e)
    ensures GenuineEvent(w'.chain, w'.vaults, Safe(w'.chain, cfg.confirmations), e)
  {
    hide ExecutionsIn, VaultEventsIn, ParsedIn;
    var gate, row, bps :| SubGate(gate, w.vaults) && EventFrom(w.chain, gate, row, bps, e);
    RowsUnchanged(w.chain, w'.chain, gate.Keys, e.blockNumber, e.blockNumber + 1, bps);
    assert SubGate(gate, w'.vaults) && EventFrom(w'.chain, gate, row, bps, e);
  }

  lemma CursorStays(cfg: Settings, w: World, w': World)
    requires WellFormed(w.chain) && CursorOk(cfg, w) && Environment(cfg, w, w')
    ensures CursorOk(cfg, w')
  {
    if w.cursor.Some? {
      forall b: nat | w.history.seed.value < b <= w.cursor.value ensures BlockDone(w', b) {
        assert BlockDone(w, b);
        RowsUnchanged(w.chain, w'.chain, w.history.passed[b].Keys, b, b + 1, 0);
      }
    }
  }

  lemma WindowStays(cfg: Settings, w: World, w': World, t: Tick)
    requires WellFormed(w.chain) && WindowOk(cfg, w, t) && Environment(cfg, w, w')
    ensures WindowOk(cfg, w', t)
    ensures forall n :: Lo(t) <= n < Hi(t) ==> w'.chain[n] == w.chain[n]
  {
    hide WellFormed;
  }

  lemma RowsOfWindowStay(cfg: Settings, w: World, w': World, t: Tick, bps: nat)
    requires WellFormed(w.chain) && WindowOk(cfg, w, t) && Environment(cfg, w, w')
    ensures WindowOk(cfg, w', t)
    ensures ParsedIn(w'.chain, t.gate.Keys, Lo(t), Hi(t)) == ParsedIn(w.chain, t.gate.Keys, Lo(t), Hi(t))
    ensures ExecutionsIn(w'.chain, t.gate.Keys, Lo(t), Hi(t)) == ExecutionsIn(w.chain, t.gate.Keys, Lo(t), Hi(t))
    ensures VaultEventsIn(w'.chain, t.gate.Keys, Lo(t), Hi(t), bps)
            == VaultEventsIn(w.chain, t.gate.Keys, Lo(t), Hi(t), bps)
  {
    hide WellFormed;
    WindowStays(cfg, w, w', t);
    RowsUnchanged(w.chain, w'.chain, t.gate.Keys, Lo(t), Hi(t), bps);
  }

  lemma FetchStays(cfg: Settings, w: World, w': World, pc: Process)
    requires WellFormed(w.chain) && ProcessOk(cfg, w, pc) && Environment(cfg, w, w') && pc.Fetching?
    ensures ProcessOk(cfg, w', pc)
  {
    hide WellFormed, LogsIn;
    WindowStays(cfg, w, w', pc.t);
    LogsUnchanged(w.chain, w'.chain, Lo(pc.t), pc.todo[0].from);
  }

  lemma EventProcessStays(cfg: Settings, w: World, w': World, pc: Process)
    requires WellFormed(w.chain) && ProcessOk(cfg, w, pc) && Environment(cfg, w, w')
    requires (pc.FindingEvents? || pc.InsertingEvents?)
    ensures ProcessOk(cfg, w', pc)
  {
    hide WellFormed, VaultEventsIn, ExecutionsIn;
    RowsOfWindowStay(cfg, w, w', pc.t, 0);
    if pc.FindingEvents? {
      var bps :| pc.eventRows == VaultEventsIn(w.chain, pc.t.gate.Keys, Lo(pc.t), Hi(pc.t), bps);
      RowsOfWindowStay(cfg, w, w', pc.t, bps);
    } else {
      var bps :| MissingEvents(w, pc.t, pc.newEvents, bps);
      RowsOfWindowStay(cfg, w, w', pc.t, bps);
      assert MissingEvents(w', pc.t, pc.newEvents, bps);
    }
  }

  predicate HasTick(pc: Process) {
    pc.Stamping? || pc.FindingExecutions? || pc.Committing? || pc.ReadingBack? || pc.ReadingFee? || pc.Advancing?
  }

  lemma TickProcessStays(cfg: Settings, w: World, w': World, pc: Process)
    requires WellFormed(w.chain) && ProcessOk(cfg, w, pc) && Environment(cfg, w, w') && HasTick(pc)
    ensures ProcessOk(cfg, w', pc)
  {
    hide WellFormed, VaultEventsIn, ExecutionsIn, ParsedIn, WindowOk;
    RowsOfWindowStay(cfg, w, w', pc.t, 0);
  }

  lemma ProcessStays(cfg: Settings, w: World, w': World, pc: Process)
    requires WellFormed(w.chain) && ProcessOk(cfg, w, pc) && Environment(cfg, w, w')
    ensures ProcessOk(cfg, w', pc)
  {
    if pc.Fetching? {
      FetchStays(cfg, w, w', pc);
    } else if pc.FindingEvents? || pc.InsertingEvents? {
      EventProcessStays(cfg, w, w', pc);
    } else if HasTick(pc) {
      TickProcessStays(cfg, w, w', pc);
    }
  }

  lemma EnvironmentKeeps(cfg: Settings, s: State, w': World)
    requires Inv(cfg, s) && Environment(cfg, s.w, w') && VaultsOk(w'.vaults) && LedgerOk(w')
    ensures Inv(cfg, State(w', s.pc))
  {
    GenuineStays(cfg, s.w, w');
    CursorStays(cfg, s.w, w');
    ProcessStays(cfg, s.w, w', s.pc);
  }

  lemma ReportReadKeeps(cfg: Settings, s: State, r: Report)
    requires Inv(cfg, s)
    ensures Inv(cfg, Apply(cfg, s, ReadReport(r)))
  {
    EnvironmentKeeps(cfg, s, Apply(cfg, s, ReadReport(r)).w);
  }

  lemma ReportWrittenKeeps(cfg: Settings, s: State, i: nat)
    requires Inv(cfg, s) && i < |s.w.pending|
    ensures Enabled(cfg, s, WriteReport(i)) && Inv(cfg, Apply(cfg, s, WriteReport(i)))
  {
    hide WellFormed, TablesOk, CursorOk, EmittedOk, ProcessOk, OneOpen, Attempts;
    WriteKeeps(s.w.failures, s.w.pending[i].seen, s.w.pending[i].report);
    var w' := ReportWritten(s.w, i);
    assert forall j :: 0 <= j < |w'.pending| ==> w'.pending[j] == s.w.pending[if j < i then j else j + 1];
    EnvironmentKeeps(cfg, s, w');
  }

  lemma GrowKeeps(cfg: Settings, s: State, a: Action)
    requires Inv(cfg, s) && Enabled(cfg, s, a) && (a.Grow? || a.AddVault?)
    ensures Inv(cfg, Apply(cfg, s, a))
  {
    EnvironmentKeeps(cfg, s, Apply(cfg, s, a).w);
  }
}
