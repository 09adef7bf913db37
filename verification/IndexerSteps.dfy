/** Every step of the indexer process preserves the invariant. */
module IndexerSteps {
  import opened Chain
  import opened EventMapper
  import opened FailureLedger
  import opened IndexerInvariant
  import opened IndexerProtocol
  import opened RangePlanner
  import opened WindowRows
  import opened Wrappers

  // ---- windows ----

  lemma {:induction false} TilesEnd(ranges: seq<BlockRange>, start: int, end: int)
    requires Tiles(ranges, start, end)
    ensures ranges == [] ==> start == end + 1
    ensures ranges != [] ==> ranges[|ranges| - 1].to == end && start <= end
    decreases |ranges|
  {
    if ranges != [] { TilesEnd(ranges[1..], ranges[0].to + 1, end); }
  }

  lemma OneTile(r: BlockRange)
    requires r.from <= r.to
    ensures Tiles([r], r.from, r.to)
  {
    assert [r][1..] == [];
  }

  lemma {:induction false} TilesAppend(a: seq<BlockRange>, b: seq<BlockRange>, start: int, mid: int, end: int)
    requires Tiles(a, start, mid) && Tiles(b, mid + 1, end) && mid <= end
    ensures Tiles(a + b, start, end)
    decreases |a|
  {
    if a == [] {
      assert a + b == b;
    } else {
      assert (a + b)[1..] == a[1..] + b;
      TilesAppend(a[1..], b, a[0].to + 1, mid, end);
    }
  }

  lemma WindowStarts(cfg: Settings, w: World, t: Tick)
    requires WellFormed(w.chain) && TickOk(cfg, w, t)
    ensures ProcessOk(cfg, w, StartWindow(t))
  {
    TilesEnd(t.ranges, w.cursor.value + 1, t.ranges[|t.ranges| - 1].to);
    OneTile(t.ranges[0]);
  }

  lemma ReadCursorKeeps(cfg: Settings, s: State)
    requires Inv(cfg, s) && Enabled(cfg, s, ReadCursor)
    ensures Inv(cfg, Apply(cfg, s, ReadCursor))
  {
    if s.w.cursor.Some? && cfg.maxRange >= 1 {
      var start, safeHead := s.w.cursor.value + 1, s.pc.head - cfg.confirmations;
      var ranges := PlanFrom(start, safeHead, cfg.maxRange);
      if ranges != [] {
        PlanTiles(start, safeHead, cfg.maxRange);
        TilesEnd(ranges, start, safeHead);
      }
    }
  }

  lemma LoadVaultsKeeps(cfg: Settings, s: State)
    requires Inv(cfg, s) && Enabled(cfg, s, LoadVaults)
    ensures Inv(cfg, Apply(cfg, s, LoadVaults))
  {
    WindowStarts(cfg, s.w, Tick(s.pc.ranges, GateOf(s.w.vaults)));
  }

  lemma AnswerQueryKeeps(cfg: Settings, s: State)
    requires Inv(cfg, s) && Enabled(cfg, s, AnswerQuery)
    ensures Inv(cfg, Apply(cfg, s, AnswerQuery))
  {
    hide WellFormed, GenuineExecution, GenuineEvent, OneOpen, Gated, EmittedOk, CursorOk;
    var c, t, todo := s.w.chain, s.pc.t, s.pc.todo;
    var logs := LogsIn(c, todo[0].from, todo[0].to + 1);
    LogsSplit(c, Lo(t), todo[0].from, todo[0].to + 1);
    assert s.pc.got + logs == LogsIn(c, Lo(t), todo[0].to + 1);
    TilesEnd(todo[1..], todo[0].to + 1, t.ranges[0].to);
    if |todo| == 1 {
      assert todo[1..] == [];
      WindowFetched(cfg, s.w, t, s.pc.got + logs);
    }
  }

  lemma WindowFetched(cfg: Settings, w: World, t: Tick, logs: seq<Log>)
    requires WorldOk(cfg, w) && WindowOk(cfg, w, t) && logs == LogsIn(w.chain, Lo(t), Hi(t))
    ensures ProcessOk(cfg, w, AfterFetch(t, logs))
  {
    ParsedInBlocks(w.chain, t.gate.Keys, Lo(t), Hi(t));
  }

  lemma RejectQueryKeeps(cfg: Settings, s: State)
    requires Inv(cfg, s) && Enabled(cfg, s, RejectQuery)
    ensures Inv(cfg, Apply(cfg, s, RejectQuery))
  {
    var todo, end := s.pc.todo, s.pc.t.ranges[0].to;
    if todo[0].to > todo[0].from {
      HalvesTile(todo[0]);
      TilesAppend(Halve(todo[0]), todo[1..], todo[0].from, todo[0].to, end);
    }
  }

  // ---- executions ----

  lemma FindExecutionsKeeps(cfg: Settings, s: State)
    requires Inv(cfg, s) && Enabled(cfg, s, FindExecutions)
    ensures Inv(cfg, Apply(cfg, s, FindExecutions))
  {
  }

  lemma {:induction false} InsertExecutionsFacts(db: seq<ExecutionRecord>, records: seq<ExecutionRecord>)
    requires UniqueExecutions(db)
    ensures var after := InsertExecutions(db, records);
            && db <= after && UniqueExecutions(after)
            && (forall e :: e in after ==> e in db || e in records)
            && (forall e :: e in records ==> e.key in ExecutionKeys(after))
            && (forall e :: e in db ==> e.key in ExecutionKeys(after))
  {
    if records != [] {
      var front, last := records[..|records| - 1], records[|records| - 1];
      InsertExecutionsFacts(db, front);
      assert records == front + [last];
      var before, after := InsertExecutions(db, front), InsertExecutions(db, records);
      if last.key !in ExecutionKeys(before) {
        AppendedExecution(before, last);
      }
    }
  }

  lemma AppendedExecution(db: seq<ExecutionRecord>, e: ExecutionRecord)
    requires UniqueExecutions(db) && e.key !in ExecutionKeys(db)
    ensures UniqueExecutions(db + [e]) && ExecutionKeys(db + [e]) == ExecutionKeys(db) + {e.key}
  {
    forall i | 0 <= i < |db| ensures db[i].key != e.key {
      assert db[i] in db;
    }
  }

  lemma {:induction false} InsertEventsFacts(db: seq<VaultEventRecord>, records: seq<VaultEventRecord>)
    requires UniqueEvents(db)
    ensures var after := InsertEvents(db, records);
            && db <= after && UniqueEvents(after)
            && (forall e :: e in after ==> e in db || e in records)
            && (forall e :: e in records ==> e.key in EventKeys(after))
            && (forall e :: e in db ==> e.key in EventKeys(after))
  {
    if records != [] {
      var front, last := records[..|records| - 1], records[|records| - 1];
      InsertEventsFacts(db, front);
      assert records == front + [last];
      var before := InsertEvents(db, front);
      if last.key !in EventKeys(before) {
        AppendedEvent(before, last);
      }
    }
  }

  lemma AppendedEvent(db: seq<VaultEventRecord>, e: VaultEventRecord)
    requires UniqueEvents(db) && e.key !in EventKeys(db)
    ensures UniqueEvents(db + [e]) && EventKeys(db + [e]) == EventKeys(db) + {e.key}
  {
    forall i | 0 <= i < |db| ensures db[i].key != e.key {
      assert db[i] in db;
    }
  }

  /** Rows of the window that were missing are gated, so they have a vault to belong to. */
  lemma MissingAreGated(cfg: Settings, w: World, t: Tick, newRows: seq<ExecutionRow>)
    requires WellFormed(w.chain) && WindowOk(cfg, w, t) && MissingExecutions(w, t, newRows)
    ensures Gates(t.gate, newRows)
    ensures forall r :: r in newRows ==>
              GenuineExecution(w.chain, w.vaults, Safe(w.chain, cfg.confirmations), ExecutionRecordOf(t.gate, r))
  {
    forall r | r in newRows
      ensures r.vaultAddress in t.gate
      ensures GenuineExecution(w.chain, w.vaults, Safe(w.chain, cfg.confirmations), ExecutionRecordOf(t.gate, r))
    {
      ExecutionInItsBlock(w.chain, t.gate.Keys, Lo(t), Hi(t), r);
      assert ExecutionFrom(w.chain, t.gate, r, ExecutionRecordOf(t.gate, r));
    }
  }

  lemma CommitTablesOk(cfg: Settings, w: World, t: Tick, newRows: seq<ExecutionRow>, at: nat)
    requires WorldOk(cfg, w) && WindowOk(cfg, w, t) && MissingExecutions(w, t, newRows) && Gates(t.gate, newRows)
    ensures TablesOk(cfg, ExecutionsCommitted(w, t.gate, newRows, at))
    ensures w.executions <= ExecutionsCommitted(w, t.gate, newRows, at).executions
  {
    var records := ExecutionRecords(t.gate, newRows);
    InsertExecutionsFacts(w.executions, records);
    MissingAreGated(cfg, w, t, newRows);
    var after := InsertExecutions(w.executions, records);
    forall e | e in after ensures GenuineExecution(w.chain, w.vaults, Safe(w.chain, cfg.confirmations), e) {
      if e !in w.executions {
        var i :| 0 <= i < |records| && records[i] == e;
        assert newRows[i] in newRows;
      }
    }
  }

  /** More executions stored: what was done stays done. */
  lemma MoreExecutions(cfg: Settings, w: World, w': World)
    requires WellFormed(w.chain) && w.executions <= w'.executions
    requires w' == w.(executions := w'.executions, failures := w'.failures)
    ensures CursorOk(cfg, w) ==> CursorOk(cfg, w')
    ensures EmittedOk(w) ==> EmittedOk(w')
  {
    assert forall e :: e in w.executions ==> e in w'.executions;
    if CursorOk(cfg, w) && w.cursor.Some? {
      forall b: nat | w.history.seed.value < b <= w.cursor.value ensures BlockDone(w', b) {
        assert BlockDone(w, b);
      }
    }
  }

  lemma CommitReady(cfg: Settings, w: World, t: Tick, newRows: seq<ExecutionRow>, at: nat)
    requires WorldOk(cfg, w) && WindowOk(cfg, w, t) && MissingExecutions(w, t, newRows) && Gates(t.gate, newRows)
    ensures var w' := ExecutionsCommitted(w, t.gate, newRows, at);
            ReadyToEmit(w', t, newRows) && ExecutionsDone(w'.chain, w'.executions, t.gate, Lo(t), Hi(t))
  {
    var records := ExecutionRecords(t.gate, newRows);
    InsertExecutionsFacts(w.executions, records);
    var after := InsertExecutions(w.executions, records);
    forall e | e in after && e.key in RowKeys(newRows) ensures HasAddress(t.gate, e.vault) {
      assert e !in w.executions;
      var i :| 0 <= i < |records| && records[i] == e;
      assert t.gate[newRows[i].vaultAddress] == e.vault;
    }
    forall k | k in RowKeys(newRows) ensures k !in EmittedKeys(w.history.emitted) && k in ExecutionKeys(after) {
      var r :| r in newRows && r.key == k;
      var i :| 0 <= i < |newRows| && newRows[i] == r;
      assert records[i] in records && records[i].key == k;
    }
    forall r | r in ExecutionsIn(w.chain, t.gate.Keys, Lo(t), Hi(t)) ensures r.key in ExecutionKeys(after) {
      if r in newRows {
        var i :| 0 <= i < |newRows| && newRows[i] == r;
        assert records[i] in records && records[i].key == r.key;
      } else {
        var e :| e in w.executions && e.key == r.key;
      }
    }
  }

  lemma CommitKeeps(cfg: Settings, s: State, at: nat)
    requires Inv(cfg, s) && s.pc.Committing?
    ensures Enabled(cfg, s, CommitExecutions(at)) && Inv(cfg, Apply(cfg, s, CommitExecutions(at)))
  {
    var w, t, newRows := s.w, s.pc.t, s.pc.newRows;
    MissingAreGated(cfg, w, t, newRows);
    var w' := ExecutionsCommitted(w, t.gate, newRows, at);
    CommitTablesOk(cfg, w, t, newRows, at);
    MoreExecutions(cfg, w, w');
    ResolveKeeps(w.failures, PairsOf(t.gate, newRows), at);
    CommitReady(cfg, w, t, newRows, at);
  }

  // ---- emission ----

  lemma {:induction false} EmissionsFacts(gate: Gate, created: seq<ExecutionRecord>)
    ensures forall m ::
              m in Emissions(gate, created) ==>
                m.record in created && m.address in gate && gate[m.address] == m.record.vault
    ensures UniqueExecutions(created) ==>
              forall i, j :: 0 <= i < j < |Emissions(gate, created)| ==>
                Emissions(gate, created)[i].record.key != Emissions(gate, created)[j].record.key
  {
    if created != [] {
      var front, last := created[..|created| - 1], created[|created| - 1];
      EmissionsFacts(gate, front);
      assert created == front + [last];
      if UniqueExecutions(created) {
        forall m | m in Emissions(gate, front) ensures m.record.key != last.key {
          var i :| 0 <= i < |front| && front[i] == m.record;
          assert created[i].key != created[|created| - 1].key;
        }
      }
    }
  }

  lemma {:induction false} CreatedUnique(db: seq<ExecutionRecord>, keys: set<Key>)
    requires UniqueExecutions(db)
    ensures UniqueExecutions(Created(db, keys))
  {
    if db != [] {
      var front, last := db[..|db| - 1], db[|db| - 1];
      CreatedUnique(front, keys);
      assert db == front + [last];
      var before := Created(front, keys);
      forall i | 0 <= i < |before| ensures before[i].key != last.key {
        assert before[i] in front;
        var k :| 0 <= k < |front| && front[k] == before[i];
        assert db[k].key != db[|db| - 1].key;
      }
    }
  }

  lemma EmissionOk(cfg: Settings, w: World, t: Tick, newRows: seq<ExecutionRow>)
    requires VaultsOk(w.vaults) && EmittedOk(w) && UniqueExecutions(w.executions)
    requires SubGate(t.gate, w.vaults) && ReadyToEmit(w, t, newRows)
    ensures EmittedOk(CreatedEmitted(w, t.gate, newRows))
  {
    var created := Created(w.executions, RowKeys(newRows));
    CreatedUnique(w.executions, RowKeys(newRows));
    EmissionsFacts(t.gate, created);
    EmittedStaysUnique(w.history.emitted, Emissions(t.gate, created), RowKeys(newRows));
  }

  lemma EmitKeeps(cfg: Settings, s: State)
    requires Inv(cfg, s) && Enabled(cfg, s, EmitCreated)
    ensures Inv(cfg, Apply(cfg, s, EmitCreated))
  {
    EmissionOk(cfg, s.w, s.pc.t, s.pc.newRows);
    EmissionKeepsBlocks(s.w, s.pc.t.gate, s.pc.newRows);
    hide EmittedOk, ReadyToEmit, GenuineExecution, GenuineEvent, ExecutionsDone, EventsDone, BlockDone;
  }

  lemma EmissionKeepsBlocks(w: World, gate: Gate, newRows: seq<ExecutionRow>)
    requires WellFormed(w.chain)
    ensures forall b: nat :: BlockDone(w, b) ==> BlockDone(CreatedEmitted(w, gate, newRows), b)
  {
    hide WellFormed, ExecutionsDone, EventsDone;
  }

  lemma EmittedStaysUnique(earlier: seq<Emission>, batch: seq<Emission>, keys: set<Key>)
    requires forall i, j :: 0 <= i < j < |earlier| ==> earlier[i].record.key != earlier[j].record.key
    requires forall i, j :: 0 <= i < j < |batch| ==> batch[i].record.key != batch[j].record.key
    requires keys !! EmittedKeys(earlier) && forall m :: m in batch ==> m.record.key in keys
    ensures forall i, j ::
              0 <= i < j < |earlier + batch| ==> (earlier + batch)[i].record.key != (earlier + batch)[j].record.key
  {
    forall i, j | 0 <= i < |earlier| && 0 <= j < |batch| ensures earlier[i].record.key != batch[j].record.key {
      assert earlier[i] in earlier && batch[j] in batch;
      assert earlier[i].record.key in EmittedKeys(earlier);
    }
  }

  // ---- deposits and withdrawals ----

  lemma EventsDoneByAnyFee(c: Blocks, db: seq<VaultEventRecord>, gate: Gate, lo: nat, hi: nat, bps: nat)
    requires lo <= hi <= |c| && WellFormed(c)
    requires forall r :: r in VaultEventsIn(c, gate.Keys, lo, hi, bps) ==> r.key in EventKeys(db)
    ensures EventsDone(c, db, gate, lo, hi)
  {
    forall r | r in VaultEventsIn(c, gate.Keys, lo, hi, 0) ensures r.key in EventKeys(db) {
      EventKeysIgnoreFee(c, gate.Keys, lo, hi, 0, bps, r);
    }
  }

  lemma ReadFeeKeeps(cfg: Settings, s: State, bps: nat)
    requires Inv(cfg, s) && Enabled(cfg, s, ReadFee(bps))
    ensures Inv(cfg, Apply(cfg, s, ReadFee(bps)))
  {
    var w, t := s.w, s.pc.t;
    var rate := if HasDeposit(s.pc.parsed) then bps else 0;
    var rows := VaultEventRows(s.pc.parsed, ChainTimes(w.chain), rate);
    assert rows == VaultEventsIn(w.chain, t.gate.Keys, Lo(t), Hi(t), rate);
    if rows == [] { EventsDoneByAnyFee(w.chain, w.vaultEvents, t.gate, Lo(t), Hi(t), rate); }
  }

  lemma FindEventsKeeps(cfg: Settings, s: State)
    requires Inv(cfg, s) && Enabled(cfg, s, FindEvents)
    ensures Inv(cfg, Apply(cfg, s, FindEvents))
  {
    var w, t := s.w, s.pc.t;
    var bps :| s.pc.eventRows == VaultEventsIn(w.chain, t.gate.Keys, Lo(t), Hi(t), bps);
    var newRows := FreshEvents(s.pc.eventRows, EventKeys(w.vaultEvents));
    if newRows == [] {
      EventsDoneByAnyFee(w.chain, w.vaultEvents, t.gate, Lo(t), Hi(t), bps);
    } else {
      assert MissingEvents(w, t, newRows, bps);
    }
  }

  lemma MissingEventsAreGated(cfg: Settings, w: World, t: Tick, newRows: seq<VaultEventRow>, bps: nat)
    requires WellFormed(w.chain) && WindowOk(cfg, w, t) && MissingEvents(w, t, newRows, bps)
    ensures GatesEvents(t.gate, newRows)
    ensures forall r :: r in newRows ==>
              GenuineEvent(w.chain, w.vaults, Safe(w.chain, cfg.confirmations), VaultEventRecordOf(t.gate, r))
  {
    forall r | r in newRows
      ensures r.vaultAddress in t.gate
      ensures GenuineEvent(w.chain, w.vaults, Safe(w.chain, cfg.confirmations), VaultEventRecordOf(t.gate, r))
    {
      EventInItsBlock(w.chain, t.gate.Keys, Lo(t), Hi(t), bps, r);
      assert EventFrom(w.chain, t.gate, r, bps, VaultEventRecordOf(t.gate, r));
    }
  }

  lemma StoredAreGenuine(cfg: Settings, w: World, t: Tick, newRows: seq<VaultEventRow>, bps: nat)
    requires WorldOk(cfg, w) && WindowOk(cfg, w, t) && MissingEvents(w, t, newRows, bps) && GatesEvents(t.gate, newRows)
    ensures TablesOk(cfg, EventsStored(w, t.gate, newRows))
  {
    hide CursorOk, EmittedOk, LedgerOk, InsertEvents, VaultEventsIn;
    var records := VaultEventRecords(t.gate, newRows);
    InsertEventsFacts(w.vaultEvents, records);
    MissingEventsAreGated(cfg, w, t, newRows, bps);
    hide MissingEvents, WindowOk, WellFormed, GenuineEvent, GenuineExecution;
    forall e | e in InsertEvents(w.vaultEvents, records)
      ensures GenuineEvent(w.chain, w.vaults, Safe(w.chain, cfg.confirmations), e)
    {
      if e !in w.vaultEvents {
        var i :| 0 <= i < |records| && records[i] == e;
        assert newRows[i] in newRows;
      }
    }
  }

  lemma StoredAreKept(w: World, t: Tick, newRows: seq<VaultEventRow>)
    requires UniqueEvents(w.vaultEvents) && GatesEvents(t.gate, newRows)
    ensures forall e :: e in w.vaultEvents ==> e in EventsStored(w, t.gate, newRows).vaultEvents
  {
    hide InsertEvents;
    InsertEventsFacts(w.vaultEvents, VaultEventRecords(t.gate, newRows));
  }

  lemma WindowIsStored(cfg: Settings, w: World, t: Tick, newRows: seq<VaultEventRow>, bps: nat)
    requires WellFormed(w.chain) && UniqueEvents(w.vaultEvents) && WindowOk(cfg, w, t)
    requires MissingEvents(w, t, newRows, bps) && GatesEvents(t.gate, newRows)
    ensures EventsDone(w.chain, EventsStored(w, t.gate, newRows).vaultEvents, t.gate, Lo(t), Hi(t))
  {
    hide InsertEvents, VaultEventsIn, UniqueEvents;
    var records := VaultEventRecords(t.gate, newRows);
    InsertEventsFacts(w.vaultEvents, records);
    var after := InsertEvents(w.vaultEvents, records);
    forall r | r in VaultEventsIn(w.chain, t.gate.Keys, Lo(t), Hi(t), bps) ensures r.key in EventKeys(after) {
      if r in newRows {
        var i :| 0 <= i < |newRows| && newRows[i] == r;
        assert records[i] in records && records[i].key == r.key;
      } else {
        var e :| e in w.vaultEvents && e.key == r.key;
      }
    }
    EventsDoneByAnyFee(w.chain, after, t.gate, Lo(t), Hi(t), bps);
  }

  lemma StoreKeepsCursor(cfg: Settings, w: World, t: Tick, newRows: seq<VaultEventRow>)
    requires CursorOk(cfg, w) && GatesEvents(t.gate, newRows)
    requires forall e :: e in w.vaultEvents ==> e in EventsStored(w, t.gate, newRows).vaultEvents
    ensures CursorOk(cfg, EventsStored(w, t.gate, newRows))
  {
    hide InsertEvents, WellFormed, ExecutionsDone;
    var w' := EventsStored(w, t.gate, newRows);
    if w.cursor.Some? {
      forall b: nat | w.history.seed.value < b <= w.cursor.value ensures BlockDone(w', b) {
        assert BlockDone(w, b);
      }
    }
  }

  lemma StoreEventsKeeps(cfg: Settings, s: State)
    requires Inv(cfg, s) && s.pc.InsertingEvents?
    ensures Enabled(cfg, s, StoreEvents) && Inv(cfg, Apply(cfg, s, StoreEvents))
  {
    hide WellFormed, TablesOk, CursorOk, LedgerOk, EmittedOk, ExecutionsDone, EventsDone, InsertEvents;
    var w, t := s.w, s.pc.t;
    var bps :| MissingEvents(w, t, s.pc.newEvents, bps);
    MissingEventsAreGated(cfg, w, t, s.pc.newEvents, bps);
    StoredAreGenuine(cfg, w, t, s.pc.newEvents, bps);
    TablesAreUnique(cfg, w);
    StoredAreKept(w, t, s.pc.newEvents);
    WindowIsStored(cfg, w, t, s.pc.newEvents, bps);
    StoreKeepsCursor(cfg, w, t, s.pc.newEvents);
    StoreKeepsRest(cfg, w, t, s.pc.newEvents);
  }

  lemma TablesAreUnique(cfg: Settings, w: World)
    requires TablesOk(cfg, w)
    ensures UniqueExecutions(w.executions) && UniqueEvents(w.vaultEvents)
  {
  }

  lemma StoreKeepsRest(cfg: Settings, w: World, t: Tick, newRows: seq<VaultEventRow>)
    requires LedgerOk(w) && EmittedOk(w) && GatesEvents(t.gate, newRows)
    ensures LedgerOk(EventsStored(w, t.gate, newRows)) && EmittedOk(EventsStored(w, t.gate, newRows))
    ensures forall lo, hi :: ExecutionsDone(w.chain, w.executions, t.gate, lo, hi) ==>
              ExecutionsDone(w.chain, EventsStored(w, t.gate, newRows).executions, t.gate, lo, hi)
  {
  }

  // ---- the cursor ----

  lemma SeedKeeps(cfg: Settings, s: State)
    requires Inv(cfg, s) && Enabled(cfg, s, StoreSeed)
    ensures Inv(cfg, Apply(cfg, s, StoreSeed))
  {
  }

  /** A finished window marks every one of its blocks done. */
  lemma WindowBlocksDone(cfg: Settings, w: World, t: Tick, b: nat)
    requires WellFormed(w.chain) && ProcessOk(cfg, w, Advancing(t)) && Lo(t) <= b < Hi(t)
    ensures BlockDone(CursorAdvanced(w, t), b)
  {
    RowsOfBlock(w.chain, t.gate.Keys, Lo(t), b, Hi(t), 0);
    assert Covers(t.ranges[0], b);
    assert CursorAdvanced(w, t).history.passed[b] == t.gate;
  }

  lemma EarlierBlocksDone(cfg: Settings, w: World, t: Tick, b: nat)
    requires WellFormed(w.chain) && WindowOk(cfg, w, t) && BlockDone(w, b) && b < Lo(t)
    ensures BlockDone(CursorAdvanced(w, t), b)
  {
    assert !Covers(t.ranges[0], b);
  }

  lemma AdvanceKeeps(cfg: Settings, s: State)
    requires Inv(cfg, s) && Enabled(cfg, s, AdvanceCursor)
    ensures Inv(cfg, Apply(cfg, s, AdvanceCursor))
  {
    var w, t := s.w, s.pc.t;
    var w' := CursorAdvanced(w, t);
    forall b: nat | w.history.seed.value < b <= w'.cursor.value ensures BlockDone(w', b) {
      if b <= w.cursor.value {
        assert BlockDone(w, b);
        EarlierBlocksDone(cfg, w, t, b);
      } else {
        WindowBlocksDone(cfg, w, t, b);
      }
    }
    assert CursorOk(cfg, w');
    if |t.ranges| > 1 {
      var rest := Tick(t.ranges[1..], t.gate);
      assert rest.ranges[|rest.ranges| - 1] == t.ranges[|t.ranges| - 1];
      WindowStarts(cfg, w', rest);
    }
  }

  // ---- all steps ----

  /** The steps that only move the process. */
  lemma MoveKeeps(cfg: Settings, s: State, a: Action)
    requires Inv(cfg, s) && Enabled(cfg, s, a)
    requires IsMove(a)
    ensures Inv(cfg, Apply(cfg, s, a))
  {
  }

  predicate IsOther(a: Action) { a.Grow? || a.AddVault? || a.ReadReport? || a.WriteReport? }
  predicate IsMove(a: Action) {
    a.Crash? || a.Boot? || a.ReadHead? || a.CheckSeed? || a.QuerySeed? || a.ReadSeedHead? || a.ReadTimestamps?
  }
  predicate IsPlanning(a: Action) { a.ReadCursor? || a.StoreSeed? || a.LoadVaults? || a.AnswerQuery? || a.RejectQuery? }
  predicate IsExecution(a: Action) { a.FindExecutions? || a.CommitExecutions? || a.EmitCreated? }

  lemma OtherKeeps(cfg: Settings, s: State, a: Action)
    requires Inv(cfg, s) && Enabled(cfg, s, a) && IsOther(a)
    ensures Inv(cfg, Apply(cfg, s, a))
  {
    if a.ReadReport? {
      ReportReadKeeps(cfg, s, a.report);
    } else if a.WriteReport? {
      ReportWrittenKeeps(cfg, s, a.index);
    } else {
      GrowKeeps(cfg, s, a);
    }
  }

  lemma PlanningKeeps(cfg: Settings, s: State, a: Action)
    requires Inv(cfg, s) && Enabled(cfg, s, a) && IsPlanning(a)
    ensures Inv(cfg, Apply(cfg, s, a))
  {
    if a.ReadCursor? {
      ReadCursorKeeps(cfg, s);
    } else if a.StoreSeed? {
      SeedKeeps(cfg, s);
    } else if a.LoadVaults? {
      LoadVaultsKeeps(cfg, s);
    } else if a.AnswerQuery? {
      AnswerQueryKeeps(cfg, s);
    } else {
      RejectQueryKeeps(cfg, s);
    }
  }

  lemma ExecutionStepsKeep(cfg: Settings, s: State, a: Action)
    requires Inv(cfg, s) && Enabled(cfg, s, a) && IsExecution(a)
    ensures Inv(cfg, Apply(cfg, s, a))
  {
    if a.FindExecutions? {
      FindExecutionsKeeps(cfg, s);
    } else if a.CommitExecutions? {
      CommitKeeps(cfg, s, a.at);
    } else {
      EmitKeeps(cfg, s);
    }
  }

  lemma EventStepsKeep(cfg: Settings, s: State, a: Action)
    requires Inv(cfg, s) && Enabled(cfg, s, a) && (a.ReadFee? || a.FindEvents? || a.StoreEvents? || a.AdvanceCursor?)
    ensures Inv(cfg, Apply(cfg, s, a))
  {
    if a.ReadFee? {
      ReadFeeKeeps(cfg, s, a.bps);
    } else if a.FindEvents? {
      FindEventsKeeps(cfg, s);
    } else if a.StoreEvents? {
      StoreEventsKeeps(cfg, s);
    } else {
      AdvanceKeeps(cfg, s);
    }
  }

  lemma StepKeeps(cfg: Settings, s: State, a: Action)
    requires Inv(cfg, s) && Enabled(cfg, s, a)
    ensures Inv(cfg, Apply(cfg, s, a))
  {
    if IsOther(a) {
      OtherKeeps(cfg, s, a);
    } else if IsMove(a) {
      MoveKeeps(cfg, s, a);
    } else if IsPlanning(a) {
      PlanningKeeps(cfg, s, a);
    } else if IsExecution(a) {
      ExecutionStepsKeep(cfg, s, a);
    } else {
      EventStepsKeep(cfg, s, a);
    }
  }

  lemma InitialKeeps(cfg: Settings, s: State)
    requires Initial(s)
    ensures Inv(cfg, s)
  {
  }

  lemma {:induction false} RunKeeps(cfg: Settings, trace: seq<State>, i: nat)
    requires IsRun(cfg, trace) && i < |trace|
    ensures Inv(cfg, trace[i])
  {
    if i == 0 {
      InitialKeeps(cfg, trace[0]);
    } else {
      RunKeeps(cfg, trace, i - 1);
      assert Next(cfg, trace[i - 1], trace[i]);
      var a :| Enabled(cfg, trace[i - 1], a) && trace[i] == Apply(cfg, trace[i - 1], a);
      StepKeeps(cfg, trace[i - 1], a);
    }
  }
}
