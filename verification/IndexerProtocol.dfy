/** The execution indexer as a state machine. Every `await` of the service is a step boundary, at which
    the process may die, the chain may grow or rewrite its tip, vaults may appear and failures be reported. */
module IndexerProtocol {
  import opened Chain
  import opened EventMapper
  import opened FailureLedger
  import opened RangePlanner
  import opened WindowRows
  import opened Wrappers

  datatype Settings = Settings(maxRange: int, confirmations: nat, startBlock: Option<int>)

  datatype Vault = Vault(id: VaultId, createdAtBlock: nat)
  /** A tick's `vaultByAddress`. */
  type Gate = map<Address, VaultId>

  datatype ExecutionRecord = ExecutionRecord(
    vault: VaultId, automationId: nat, executor: Address, key: Key, blockNumber: nat, timestamp: nat,
    gasCompAmount: Option<nat>, gasCompToken: Option<Address>)
  datatype VaultEventRecord = VaultEventRecord(
    vault: VaultId, kind: EventKind, token: Address, amount: nat, feeAmount: nat, feeBps: nat,
    key: Key, blockNumber: nat, timestamp: nat)

  datatype Emission = Emission(address: Address, record: ExecutionRecord)

  /** A failure report between the read and the write of its ingest call. */
  datatype PendingReport = PendingReport(report: Report, seen: Option<Seen>)

  /** What the theorems speak about and the service does not store. */
  datatype History = History(
    seed: Option<nat>,          // the cursor's first value
    passed: map<nat, Gate>,     // the vault set of the tick that moved the cursor past a block
    emitted: seq<Emission>,     // everything handed to `emitNewExecutions`
    accepted: nat)              // ingest calls that succeeded

  /** The durable world: chain, database, and the reports other processes are about to write. */
  datatype World = World(
    chain: Blocks,
    vaults: map<Address, Vault>,
    executions: seq<ExecutionRecord>,
    vaultEvents: seq<VaultEventRecord>,
    failures: Ledger,
    cursor: Option<nat>,
    pending: seq<PendingReport>,
    history: History)

  /** A tick past its planning: the windows still to do, the current one first, and the vault set it loaded. */
  datatype Tick = Tick(ranges: seq<BlockRange>, gate: Gate)

  /** Where the indexer process stands; named after what it waits for. Lost when the process dies. */
  datatype Process =
    | Idle
    | HaveHead(head: nat)
    | SeedCheck
    | SeedQuery
    | SeedHead
    | SeedWrite(block: nat)
    | Planned(ranges: seq<BlockRange>)
    | Fetching(t: Tick, todo: seq<BlockRange>, got: seq<Log>)
    | Stamping(t: Tick, parsed: seq<Parsed>)
    | FindingExecutions(t: Tick, parsed: seq<Parsed>, rows: seq<ExecutionRow>)
    | Committing(t: Tick, parsed: seq<Parsed>, newRows: seq<ExecutionRow>)
    | ReadingBack(t: Tick, parsed: seq<Parsed>, newRows: seq<ExecutionRow>)
    | ReadingFee(t: Tick, parsed: seq<Parsed>)
    | FindingEvents(t: Tick, eventRows: seq<VaultEventRow>)
    | InsertingEvents(t: Tick, newEvents: seq<VaultEventRow>)
    | Advancing(t: Tick)

  datatype State = State(w: World, pc: Process)

  // ---- tables ----

  function ExecutionKeys(db: seq<ExecutionRecord>): set<Key> { set e | e in db :: e.key }
  function EventKeys(db: seq<VaultEventRecord>): set<Key> { set e | e in db :: e.key }

  /** `createMany({ skipDuplicates: true })` under the unique index on (txHash, logIndex). */
  function InsertExecutions(db: seq<ExecutionRecord>, records: seq<ExecutionRecord>): seq<ExecutionRecord> {
    if records == [] then db
    else
      var before := InsertExecutions(db, records[..|records| - 1]);
      var last := records[|records| - 1];
      if last.key in ExecutionKeys(before) then before else before + [last]
  }

  function InsertEvents(db: seq<VaultEventRecord>, records: seq<VaultEventRecord>): seq<VaultEventRecord> {
    if records == [] then db
    else
      var before := InsertEvents(db, records[..|records| - 1]);
      var last := records[|records| - 1];
      if last.key in EventKeys(before) then before else before + [last]
  }

  predicate Gates(gate: Gate, rows: seq<ExecutionRow>) { forall r :: r in rows ==> r.vaultAddress in gate }
  predicate GatesEvents(gate: Gate, rows: seq<VaultEventRow>) { forall r :: r in rows ==> r.vaultAddress in gate }

  function ExecutionRecordOf(gate: Gate, r: ExecutionRow): ExecutionRecord
    requires r.vaultAddress in gate
  {
    ExecutionRecord(gate[r.vaultAddress], r.automationId, r.executor, r.key, r.blockNumber, r.timestamp,
        r.gasCompAmount, r.gasCompToken)
  }

  function VaultEventRecordOf(gate: Gate, r: VaultEventRow): VaultEventRecord
    requires r.vaultAddress in gate
  {
    VaultEventRecord(gate[r.vaultAddress], r.kind, r.token, r.amount, r.feeAmount, r.feeBps, r.key, r.blockNumber,
        r.timestamp)
  }

  function ExecutionRecords(gate: Gate, rows: seq<ExecutionRow>): (records: seq<ExecutionRecord>)
    requires Gates(gate, rows)
    ensures |records| == |rows| && forall i :: 0 <= i < |rows| ==> records[i] == ExecutionRecordOf(gate, rows[i])
  {
    seq(|rows|, i requires 0 <= i < |rows| && Gates(gate, rows) => ExecutionRecordOf(gate, rows[i]))
  }

  function VaultEventRecords(gate: Gate, rows: seq<VaultEventRow>): (records: seq<VaultEventRecord>)
    requires GatesEvents(gate, rows)
    ensures |records| == |rows| && forall i :: 0 <= i < |rows| ==> records[i] == VaultEventRecordOf(gate, rows[i])
  {
    seq(|rows|, i requires 0 <= i < |rows| && GatesEvents(gate, rows) => VaultEventRecordOf(gate, rows[i]))
  }

  /** The rows whose key is not stored yet. */
  function FreshExecutions(rows: seq<ExecutionRow>, stored: set<Key>): (newRows: seq<ExecutionRow>)
    ensures forall r :: r in newRows <==> r in rows && r.key !in stored
  {
    if rows == [] then []
    else
      assert rows == rows[..|rows| - 1] + [rows[|rows| - 1]];
      FreshExecutions(rows[..|rows| - 1], stored) + (if rows[|rows| - 1].key in stored then [] else [rows[|rows| - 1]])
  }

  function FreshEvents(rows: seq<VaultEventRow>, stored: set<Key>): (newRows: seq<VaultEventRow>)
    ensures forall r :: r in newRows <==> r in rows && r.key !in stored
  {
    if rows == [] then []
    else
      assert rows == rows[..|rows| - 1] + [rows[|rows| - 1]];
      FreshEvents(rows[..|rows| - 1], stored) + (if rows[|rows| - 1].key in stored then [] else [rows[|rows| - 1]])
  }

  /** The pairs a batch of successes resolves. */
  function PairsOf(gate: Gate, rows: seq<ExecutionRow>): set<Pair>
    requires Gates(gate, rows)
  {
    set r | r in rows :: Pair(gate[r.vaultAddress], r.automationId)
  }

  /** The stored rows among `db` whose key belongs to one of `rows`. */
  function Created(db: seq<ExecutionRecord>, keys: set<Key>): (created: seq<ExecutionRecord>)
    ensures forall e :: e in created <==> e in db && e.key in keys
  {
    if db == [] then []
    else
      assert db == db[..|db| - 1] + [db[|db| - 1]];
      Created(db[..|db| - 1], keys) + (if db[|db| - 1].key in keys then [db[|db| - 1]] else [])
  }

  predicate HasAddress(gate: Gate, vault: VaultId) { exists a :: a in gate && gate[a] == vault }

  ghost function AddressOf(gate: Gate, vault: VaultId): Address
    requires HasAddress(gate, vault)
  {
    var a :| a in gate && gate[a] == vault;
    a
  }

  /** Each created row with the address of its vault; a row of a vault the gate does not know is not emitted. */
  ghost function Emissions(gate: Gate, created: seq<ExecutionRecord>): seq<Emission> {
    if created == [] then []
    else
      var e := created[|created| - 1];
      Emissions(gate, created[..|created| - 1])
        + (if HasAddress(gate, e.vault) then [Emission(AddressOf(gate, e.vault), e)] else [])
  }

  function RowKeys(rows: seq<ExecutionRow>): set<Key> { set r | r in rows :: r.key }

  function GateOf(vaults: map<Address, Vault>): Gate { map a | a in vaults :: vaults[a].id }

  predicate HasDeposit(parsed: seq<Parsed>) { exists l :: l in parsed && l.event.Deposited? }

  // ---- steps of the indexer process ----

  /** `maxRange`, `confirmations` and the chain decide the windows; a planning error fails the tick. */
  function PlanTick(cfg: Settings, head: nat, cursor: nat): Process {
    match Plan(head, cursor, cfg.maxRange, cfg.confirmations)
    case Failure(_) => Idle
    case Success(ranges) => if ranges == [] then Idle else Planned(ranges)
  }

  function StartWindow(t: Tick): Process
    requires t.ranges != []
  {
    Fetching(t, [t.ranges[0]], [])
  }

  function AfterFetch(t: Tick, logs: seq<Log>): Process {
    var parsed := Gated(logs, t.gate.Keys);
    if parsed == [] then Advancing(t) else Stamping(t, parsed)
  }

  /** The block to seed the cursor with, one before the given one. */
  function Before(block: int): nat { if block >= 1 then block - 1 else 0 }

  ghost predicate IsFirstBlock(vaults: map<Address, Vault>, block: nat) {
    && (exists a :: a in vaults && vaults[a].createdAtBlock == block)
    && (forall a :: a in vaults ==> block <= vaults[a].createdAtBlock)
  }

  predicate Covers(r: BlockRange, block: int) { r.from <= block <= r.to }

  /** The blocks of a window with the vault set that passed them. */
  function Passing(t: Tick): map<nat, Gate>
    requires t.ranges != []
  {
    map b: nat | b <= t.ranges[0].to && Covers(t.ranges[0], b) :: t.gate
  }

  datatype Action =
    // other processes
    | Grow(chain: Blocks)
    | AddVault(address: Address, vault: Vault)
    | ReadReport(report: Report)
    | WriteReport(index: nat)
    // the indexer
    | Crash
    | Boot
    | ReadHead
    | ReadCursor
    | CheckSeed
    | QuerySeed(firstBlock: Option<nat>)
    | ReadSeedHead
    | StoreSeed
    | LoadVaults
    | AnswerQuery
    | RejectQuery
    | ReadTimestamps
    | FindExecutions
    | CommitExecutions(at: nat)
    | EmitCreated
    | ReadFee(bps: nat)
    | FindEvents
    | StoreEvents
    | AdvanceCursor

  ghost predicate Enabled(cfg: Settings, s: State, a: Action) {
    match a
    case Grow(chain) => WellFormed(chain) && Extends(s.w.chain, chain, cfg.confirmations)
    case AddVault(address, vault) => address !in s.w.vaults
      && forall b :: b in s.w.vaults ==> s.w.vaults[b].id != vault.id
    case ReadReport(_) => true
    case WriteReport(i) => i < |s.w.pending|
      && (s.w.pending[i].seen.Some? ==> s.w.pending[i].seen.value.id < |s.w.failures|)
    case Crash => true
    case Boot => s.pc.Idle?
    case ReadHead => s.pc.Idle? && s.w.chain != []
    case ReadCursor => s.pc.HaveHead?
    case CheckSeed => s.pc.SeedCheck?
    case QuerySeed(first) =>
      && s.pc.SeedQuery?
      && (if first.Some? then IsFirstBlock(s.w.vaults, first.value) else s.w.vaults == map[])
    case ReadSeedHead => s.pc.SeedHead? && s.w.chain != []
    case StoreSeed => s.pc.SeedWrite?
    case LoadVaults => s.pc.Planned? && s.pc.ranges != []
    case AnswerQuery => s.pc.Fetching? && s.pc.todo != [] && InChain(s.w.chain, s.pc.todo[0])
    case RejectQuery => s.pc.Fetching? && s.pc.todo != []
    case ReadTimestamps => s.pc.Stamping? && Stamped(s.pc.parsed, ChainTimes(s.w.chain))
    case FindExecutions => s.pc.FindingExecutions?
    case CommitExecutions(_) => s.pc.Committing? && Gates(s.pc.t.gate, s.pc.newRows)
    case EmitCreated => s.pc.ReadingBack?
    case ReadFee(_) => s.pc.ReadingFee? && Stamped(s.pc.parsed, ChainTimes(s.w.chain))
    case FindEvents => s.pc.FindingEvents?
    case StoreEvents => s.pc.InsertingEvents? && GatesEvents(s.pc.t.gate, s.pc.newEvents)
    case AdvanceCursor => s.pc.Advancing? && s.pc.t.ranges != [] && 0 <= s.pc.t.ranges[0].to
  }

  ghost function Apply(cfg: Settings, s: State, a: Action): State
    requires Enabled(cfg, s, a)
  {
    var w, pc := s.w, s.pc;
    match a
    case Grow(chain) => State(w.(chain := chain), pc)
    case AddVault(address, vault) => State(w.(vaults := w.vaults[address := vault]), pc)
    case ReadReport(r) => State(w.(pending := w.pending + [PendingReport(r, Look(w.failures, r))]), pc)
    case WriteReport(i) => State(ReportWritten(w, i), pc)
    case Crash => State(w, Idle)
    case Boot => State(w, SeedCheck)
    case ReadHead => State(w, HaveHead(|w.chain| - 1))
    case ReadCursor => State(w, if w.cursor.None? then SeedCheck else PlanTick(cfg, pc.head, w.cursor.value))
    case CheckSeed =>
      State(w, if w.cursor.Some? then Idle
               else if cfg.startBlock.Some? then SeedWrite(Before(cfg.startBlock.value))
               else SeedQuery)
    case QuerySeed(first) => State(w, if first.Some? then SeedWrite(Before(first.value)) else SeedHead)
    case ReadSeedHead => State(w, SeedWrite(|w.chain| - 1))
    case StoreSeed => State(SeedStored(w, pc.block), Idle)
    case LoadVaults => State(w, StartWindow(Tick(pc.ranges, GateOf(w.vaults))))
    case AnswerQuery => State(w, Answered(pc, LogsIn(w.chain, pc.todo[0].from, pc.todo[0].to + 1)))
    case RejectQuery =>
      State(w, if pc.todo[0].to == pc.todo[0].from then Idle
               else Fetching(pc.t, Halve(pc.todo[0]) + pc.todo[1..], pc.got))
    case ReadTimestamps =>
      State(w, FindingExecutions(pc.t, pc.parsed, ExecutionRows(pc.parsed, pc.parsed, ChainTimes(w.chain))))
    case FindExecutions =>
      var newRows := FreshExecutions(pc.rows, ExecutionKeys(w.executions));
      State(w, if newRows == [] then ReadingFee(pc.t, pc.parsed) else Committing(pc.t, pc.parsed, newRows))
    case CommitExecutions(at) =>
      State(ExecutionsCommitted(w, pc.t.gate, pc.newRows, at), ReadingBack(pc.t, pc.parsed, pc.newRows))
    case EmitCreated => State(CreatedEmitted(w, pc.t.gate, pc.newRows), ReadingFee(pc.t, pc.parsed))
    case ReadFee(bps) =>
      var rows := VaultEventRows(pc.parsed, ChainTimes(w.chain), if HasDeposit(pc.parsed) then bps else 0);
      State(w, if rows == [] then Advancing(pc.t) else FindingEvents(pc.t, rows))
    case FindEvents =>
      var newRows := FreshEvents(pc.eventRows, EventKeys(w.vaultEvents));
      State(w, if newRows == [] then Advancing(pc.t) else InsertingEvents(pc.t, newRows))
    case StoreEvents => State(EventsStored(w, pc.t.gate, pc.newEvents), Advancing(pc.t))
    case AdvanceCursor => State(CursorAdvanced(w, pc.t), NextWindow(pc.t))
  }

  function ReportWritten(w: World, i: nat): World
    requires i < |w.pending| && (w.pending[i].seen.Some? ==> w.pending[i].seen.value.id < |w.failures|)
  {
    var p := w.pending[i];
    var rest := w.(pending := w.pending[..i] + w.pending[i + 1..]);
    match Write(w.failures, p.seen, p.report)
    case Failure(_) => rest
    case Success(rows) => rest.(failures := rows, history := w.history.(accepted := w.history.accepted + 1))
  }

  function SeedStored(w: World, block: nat): World {
    if w.cursor.Some? then w else w.(cursor := Some(block), history := w.history.(seed := Some(block)))
  }

  function Answered(pc: Process, logs: seq<Log>): Process
    requires pc.Fetching? && pc.todo != []
  {
    if |pc.todo| == 1 then AfterFetch(pc.t, pc.got + logs) else Fetching(pc.t, pc.todo[1..], pc.got + logs)
  }

  /** The transaction: insert the successes and resolve the failures of their pairs. */
  function ExecutionsCommitted(w: World, gate: Gate, newRows: seq<ExecutionRow>, at: nat): World
    requires Gates(gate, newRows)
  {
    w.(executions := InsertExecutions(w.executions, ExecutionRecords(gate, newRows)),
       failures := Resolved(w.failures, PairsOf(gate, newRows), at))
  }

  ghost function CreatedEmitted(w: World, gate: Gate, newRows: seq<ExecutionRow>): World {
    w.(history := w.history.(emitted := w.history.emitted + Emissions(gate, Created(w.executions, RowKeys(newRows)))))
  }

  function EventsStored(w: World, gate: Gate, newRows: seq<VaultEventRow>): World
    requires GatesEvents(gate, newRows)
  {
    w.(vaultEvents := InsertEvents(w.vaultEvents, VaultEventRecords(gate, newRows)))
  }

  function CursorAdvanced(w: World, t: Tick): World
    requires t.ranges != [] && 0 <= t.ranges[0].to
  {
    w.(cursor := Some(t.ranges[0].to), history := w.history.(passed := w.history.passed + Passing(t)))
  }

  function NextWindow(t: Tick): Process
    requires t.ranges != []
  {
    if |t.ranges| == 1 then Idle else StartWindow(Tick(t.ranges[1..], t.gate))
  }

  /** A new deployment: a chain, no rows, no cursor, no process running. */
  ghost predicate Initial(s: State) {
    && WellFormed(s.w.chain) && s.w.vaults == map[] && s.w.executions == [] && s.w.vaultEvents == []
    && s.w.failures == []
    && s.w.cursor == None && s.w.pending == [] && s.w.history == History(None, map[], [], 0) && s.pc == Idle
  }

  /** `trace` is a run: every state follows from the one before by some enabled action. */
  ghost predicate IsRun(cfg: Settings, trace: seq<State>) {
    && trace != [] && Initial(trace[0])
    && forall i :: 0 <= i < |trace| - 1 ==> Next(cfg, trace[i], trace[i + 1])
  }

  ghost predicate Next(cfg: Settings, s: State, s': State) {
    exists a :: Enabled(cfg, s, a) && s' == Apply(cfg, s, a)
  }
}
