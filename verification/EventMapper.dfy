/** From decoded vault logs to the rows the indexer stores. */
module EventMapper {
  import opened Chain
  import opened Wrappers

  datatype Parsed = Parsed(address: Address, txHash: TxHash, blockNumber: nat, logIndex: nat, event: Event)
  datatype MapError = MissingTimestamp(blockNumber: nat)

  datatype ExecutionRow = ExecutionRow(
    vaultAddress: Address, automationId: nat, executor: Address, key: Key, blockNumber: nat, timestamp: nat,
    gasCompAmount: Option<nat>, gasCompToken: Option<Address>)

  datatype EventKind = Deposit | Withdraw
  datatype VaultEventRow = VaultEventRow(
    vaultAddress: Address, kind: EventKind, token: Address, amount: nat, feeAmount: nat, feeBps: nat,
    key: Key, blockNumber: nat, timestamp: nat)

  type Timestamps = map<nat, nat>
  const BPS: nat := 10_000

  /** The gate, then the decode: logs of known vaults that decode, in order. */
  function Gated(logs: seq<Log>, vaults: set<Address>): seq<Parsed> {
    if logs == [] then []
    else
      var l := logs[|logs| - 1];
      Gated(logs[..|logs| - 1], vaults)
      + (if l.address.Some? && l.address.value in vaults && !l.event.Undecodable?
         then [Parsed(l.address.value, l.txHash, l.blockNumber, l.index, l.event)] else [])
  }

  predicate Settles(l: Parsed, txHash: TxHash, automationId: nat, executor: Address) {
    l.event.GasCompSettled? && l.txHash == txHash && l.event.automationId == automationId
      && l.event.executor == executor
  }

  /** `parsedLogs.find(...)`: the first matching gas compensation. */
  function FindGasComp(parsed: seq<Parsed>, txHash: TxHash, automationId: nat, executor: Address): (e: Option<Event>)
    ensures e.Some? ==> e.value.GasCompSettled?
  {
    if parsed == [] then None
    else if Settles(parsed[0], txHash, automationId, executor) then Some(parsed[0].event)
    else FindGasComp(parsed[1..], txHash, automationId, executor)
  }

  function ExecutionRowOf(l: Parsed, all: seq<Parsed>, timestamp: nat): ExecutionRow
    requires l.event.AutomationExecuted?
  {
    var gas := FindGasComp(all, l.txHash, l.event.automationId, l.event.executor);
    ExecutionRow(l.address, l.event.automationId, l.event.executor, Key(l.txHash, l.logIndex), l.blockNumber, timestamp,
                 if gas.Some? then Some(gas.value.amount) else None, if gas.Some? then Some(gas.value.token) else None)
  }

  predicate Stamped(logs: seq<Parsed>, timestamps: Timestamps) {
    forall l :: l in logs ==> l.blockNumber in timestamps
  }

  predicate ExecutionsStamped(logs: seq<Parsed>, timestamps: Timestamps) {
    forall l :: l in logs && l.event.AutomationExecuted? ==> l.blockNumber in timestamps
  }

  predicate MovesStamped(logs: seq<Parsed>, timestamps: Timestamps) {
    forall l :: l in logs && MovesFunds(l.event) ==> l.blockNumber in timestamps
  }

  /** One row per executed automation among `logs`, joined with the gas compensations in `all`. */
  function ExecutionRows(logs: seq<Parsed>, all: seq<Parsed>, timestamps: Timestamps): seq<ExecutionRow>
    requires ExecutionsStamped(logs, timestamps)
  {
    if logs == [] then []
    else
      var l := logs[|logs| - 1];
      ExecutionRows(logs[..|logs| - 1], all, timestamps)
      + (if l.event.AutomationExecuted? then [ExecutionRowOf(l, all, timestamps[l.blockNumber])] else [])
  }

  method BuildExecutionRows(parsed: seq<Parsed>, timestamps: Timestamps)
      returns (r: Result<seq<ExecutionRow>, MapError>)
    ensures r.Success? <==> ExecutionsStamped(parsed, timestamps)
    ensures r.Success? ==> r.value == ExecutionRows(parsed, parsed, timestamps)
    ensures r.Failure? ==> r.error.blockNumber !in timestamps
                           && exists l ::
                                l in parsed && l.event.AutomationExecuted? && l.blockNumber == r.error.blockNumber
  {
    var rows: seq<ExecutionRow> := [];
    for i := 0 to |parsed|
      invariant ExecutionsStamped(parsed[..i], timestamps) && rows == ExecutionRows(parsed[..i], parsed, timestamps)
    {
      var l := parsed[i];
      assert parsed[..i + 1][..i] == parsed[..i] && parsed[..i + 1] == parsed[..i] + [l];
      if !l.event.AutomationExecuted? { continue; }
      if l.blockNumber !in timestamps { return Failure(MissingTimestamp(l.blockNumber)); }
      rows := rows + [ExecutionRowOf(l, parsed, timestamps[l.blockNumber])];
    }
    assert parsed[..|parsed|] == parsed;
    r := Success(rows);
  }

  function VaultEventRowOf(l: Parsed, timestamp: nat, depositFeeBps: nat): VaultEventRow
    requires l.event.Deposited? || l.event.Withdrawn?
  {
    match l.event
    case Deposited(token, amount) =>
      VaultEventRow(l.address, Deposit, token, amount, amount * depositFeeBps / BPS, depositFeeBps,
                    Key(l.txHash, l.logIndex), l.blockNumber, timestamp)
    case Withdrawn(token, amount, fee, _) =>
      VaultEventRow(l.address, Withdraw, token, amount, fee, if amount > 0 then fee * BPS / amount else 0,
                    Key(l.txHash, l.logIndex), l.blockNumber, timestamp)
  }

  predicate MovesFunds(e: Event) { e.Deposited? || e.Withdrawn? }

  function VaultEventRows(logs: seq<Parsed>, timestamps: Timestamps, depositFeeBps: nat): seq<VaultEventRow>
    requires MovesStamped(logs, timestamps)
  {
    if logs == [] then []
    else
      var l := logs[|logs| - 1];
      VaultEventRows(logs[..|logs| - 1], timestamps, depositFeeBps)
      + (if MovesFunds(l.event) then [VaultEventRowOf(l, timestamps[l.blockNumber], depositFeeBps)] else [])
  }

  method BuildVaultEventRows(parsed: seq<Parsed>, timestamps: Timestamps, depositFeeBps: nat)
      returns (r: Result<seq<VaultEventRow>, MapError>)
    ensures r.Success? <==> MovesStamped(parsed, timestamps)
    ensures r.Success? ==> r.value == VaultEventRows(parsed, timestamps, depositFeeBps)
    ensures r.Failure? ==> r.error.blockNumber !in timestamps
                           && exists l :: l in parsed && MovesFunds(l.event) && l.blockNumber == r.error.blockNumber
  {
    var rows: seq<VaultEventRow> := [];
    for i := 0 to |parsed|
      invariant MovesStamped(parsed[..i], timestamps) && rows == VaultEventRows(parsed[..i], timestamps, depositFeeBps)
    {
      var l := parsed[i];
      assert parsed[..i + 1][..i] == parsed[..i] && parsed[..i + 1] == parsed[..i] + [l];
      if !l.event.Deposited? && !l.event.Withdrawn? { continue; }
      if l.blockNumber !in timestamps { return Failure(MissingTimestamp(l.blockNumber)); }
      rows := rows + [VaultEventRowOf(l, timestamps[l.blockNumber], depositFeeBps)];
    }
    assert parsed[..|parsed|] == parsed;
    r := Success(rows);
  }
}
