/** Keeper-reported failures: at most one open row per vault and automation. */
module FailureLedger {
  import opened Chain
  import opened Wrappers

  datatype FailurePath = ExecutionPath | TriggerCheckPath
  datatype Pair = Pair(vault: VaultId, automationId: nat)

  /** A report once its vault is known; `executor` is None when the address cannot be checksummed. */
  datatype Report = Report(
    pair: Pair, executor: Option<Address>, rawExecutor: string, txHash: Option<TxHash>,
    message: string, path: FailurePath, at: nat)

  datatype FailureRow = FailureRow(
    pair: Pair, executor: string, lastTxHash: Option<TxHash>, message: string, path: FailurePath,
    attemptCount: nat, firstFailedAt: nat, lastFailedAt: nat, resolvedAt: Option<nat>)
  {
    predicate Open() { resolvedAt.None? }
  }

  /** The table; a row's id is its index. */
  type Ledger = seq<FailureRow>

  datatype IngestError = InvalidVaultAddress | VaultNotFound | UniqueViolation

  /** `findFirst({ vaultId, automationId, resolvedAt: null })` */
  function FindOpen(rows: Ledger, pair: Pair): (i: Option<nat>)
    ensures i.Some? ==> i.value < |rows| && rows[i.value].Open() && rows[i.value].pair == pair
    ensures i.None? ==> forall j :: 0 <= j < |rows| && rows[j].pair == pair ==> !rows[j].Open()
  {
    if rows == [] then None
    else
      var front := FindOpen(rows[..|rows| - 1], pair);
      var last := rows[|rows| - 1];
      if front.Some? then front
      else if last.Open() && last.pair == pair then Some(|rows| - 1)
      else None
  }

  /** The update of an open row as it was read: the count grows in the table, the rest comes from the report. */
  function Bumped(row: FailureRow, read: FailureRow, r: Report): FailureRow {
    row.(attemptCount := row.attemptCount + 1, lastFailedAt := r.at, message := r.message, path := r.path,
         lastTxHash := if r.txHash.Some? then r.txHash else read.lastTxHash,
         executor := r.executor.GetOr(read.executor))
  }

  function NewFailure(r: Report): FailureRow {
    FailureRow(r.pair, r.executor.GetOr(r.rawExecutor), r.txHash, r.message, r.path, 1, r.at, r.at, None)
  }

  /** What an ingest call has read before it writes: the open row and its id, if there was one. */
  datatype Seen = Seen(id: nat, row: FailureRow)

  function Look(rows: Ledger, r: Report): Option<Seen> {
    var open := FindOpen(rows, r.pair);
    if open.Some? then Some(Seen(open.value, rows[open.value])) else None
  }

  /** The write half of an ingest call; the partial unique index refuses a second open row. */
  function Write(rows: Ledger, seen: Option<Seen>, r: Report): Result<Ledger, IngestError>
    requires seen.Some? ==> seen.value.id < |rows|
  {
    if seen.Some? then Success(rows[seen.value.id := Bumped(rows[seen.value.id], seen.value.row, r)])
    else if FindOpen(rows, r.pair).Some? then Failure(UniqueViolation)
    else Success(rows + [NewFailure(r)])
  }

  /** An ingest call nobody interferes with. */
  function Ingested(rows: Ledger, r: Report): (after: Ledger) {
    Write(rows, Look(rows, r), r).value
  }

  /** `updateMany({ vaultId, automationId, resolvedAt: null }, { resolvedAt })` for each of the pairs. */
  function Resolved(rows: Ledger, pairs: set<Pair>, at: nat): (after: Ledger)
    ensures |after| == |rows|
    ensures forall i :: 0 <= i < |rows| ==>
              after[i] == if rows[i].Open() && rows[i].pair in pairs then rows[i].(resolvedAt := Some(at)) else rows[i]
  {
    seq(|rows|, i requires 0 <= i < |rows| =>
      if rows[i].Open() && rows[i].pair in pairs then rows[i].(resolvedAt := Some(at)) else rows[i])
  }

  /** The stored table and the two services that write it. */
  class FailureStore {
    var rows: Ledger

    method FindFirstOpen(pair: Pair) returns (open: Option<nat>)
      ensures open == FindOpen(rows, pair)
    {
      for i := 0 to |rows|
        invariant FindOpen(rows[..i], pair) == None
      {
        assert rows[..i + 1][..i] == rows[..i];
        if rows[i].Open() && rows[i].pair == pair {
          FirstStays(rows, i + 1, pair);
          return Some(i);
        }
      }
      assert rows[..|rows|] == rows;
      open := None;
    }

    /** `vaults` maps the known addresses; a malformed address arrives as None. */
    method Ingest(address: Option<Address>, vaults: map<Address, VaultId>, r: Report)
        returns (result: Result<(nat, nat), IngestError>)
      requires address.Some? && address.value in vaults ==> r.pair.vault == vaults[address.value]
      modifies this
      ensures result.Failure? <==> address.None? || address.value !in vaults
      ensures rows == if result.Success? then Ingested(old(rows), r) else old(rows)
      ensures result.Success? ==>
                result.value.0 < |rows| && rows[result.value.0].pair == r.pair && rows[result.value.0].Open()
                                  && rows[result.value.0].attemptCount == result.value.1
    {
      if address.None? { return Failure(InvalidVaultAddress); }
      if address.value !in vaults { return Failure(VaultNotFound); }
      var open := FindFirstOpen(r.pair);
      if open.Some? {
        var updated := Bumped(rows[open.value], rows[open.value], r);
        rows := rows[open.value := updated];
        return Success((open.value, updated.attemptCount));
      }
      rows := rows + [NewFailure(r)];
      result := Success((|rows| - 1, 1));
    }
  }

  /** One `updateMany` for each pair. */
  method ResolveAll(rows: Ledger, pairs: seq<Pair>, at: nat) returns (after: Ledger)
    ensures after == Resolved(rows, (set p | p in pairs), at)
  {
    after := rows;
    for i := 0 to |pairs|
      invariant after == Resolved(rows, (set p | p in pairs[..i]), at)
    {
      assert pairs[..i + 1] == pairs[..i] + [pairs[i]];
      after := Resolved(after, {pairs[i]}, at);
    }
    assert pairs[..|pairs|] == pairs;
  }

  lemma {:induction false} FirstStays(rows: Ledger, k: nat, pair: Pair)
    requires k <= |rows| && FindOpen(rows[..k], pair).Some?
    ensures FindOpen(rows, pair) == FindOpen(rows[..k], pair)
    decreases |rows|
  {
    if k == |rows| {
      assert rows[..k] == rows;
    } else {
      var front := rows[..|rows| - 1];
      assert front[..k] == rows[..k];
      FirstStays(front, k, pair);
    }
  }

  // ---- invariants ----

  ghost predicate OneOpen(rows: Ledger) {
    forall i, j :: 0 <= i < j < |rows| && rows[i].Open() && rows[j].Open() ==> rows[i].pair != rows[j].pair
  }

  function Attempts(rows: Ledger): nat {
    if rows == [] then 0 else Attempts(rows[..|rows| - 1]) + rows[|rows| - 1].attemptCount
  }

  lemma {:induction false} AttemptsOfUpdate(rows: Ledger, i: nat, row: FailureRow)
    requires i < |rows|
    ensures Attempts(rows[i := row]) == Attempts(rows) - rows[i].attemptCount + row.attemptCount
  {
    var n := |rows| - 1;
    if i == n {
      assert rows[i := row][..n] == rows[..n];
    } else {
      assert rows[i := row][..n] == rows[..n][i := row];
      AttemptsOfUpdate(rows[..n], i, row);
    }
  }

  /** A write counts one attempt and never makes a second open row, even if the row it read was resolved since. */
  lemma WriteKeeps(rows: Ledger, seen: Option<Seen>, r: Report)
    requires OneOpen(rows) && (seen.Some? ==> seen.value.id < |rows|)
    ensures var after := Write(rows, seen, r);
            after.Success? ==>
              && OneOpen(after.value) && Attempts(after.value) == Attempts(rows) + 1
              && |rows| <= |after.value|
              && (forall i :: 0 <= i < |rows| ==>
                    && after.value[i].pair == rows[i].pair
                    && after.value[i].resolvedAt == rows[i].resolvedAt)
  {
    if seen.Some? {
      AttemptsOfUpdate(rows, seen.value.id, Bumped(rows[seen.value.id], seen.value.row, r));
    } else if FindOpen(rows, r.pair).None? {
      assert (rows + [NewFailure(r)])[..|rows|] == rows;
    }
  }

  lemma {:induction false} AttemptsOfResolved(rows: Ledger, pairs: set<Pair>, at: nat)
    ensures Attempts(Resolved(rows, pairs, at)) == Attempts(rows)
  {
    if rows != [] {
      var n := |rows| - 1;
      assert Resolved(rows, pairs, at)[..n] == Resolved(rows[..n], pairs, at);
      AttemptsOfResolved(rows[..n], pairs, at);
    }
  }

  /** Resolving closes the open rows of the pairs and touches no resolved row. */
  lemma ResolveKeeps(rows: Ledger, pairs: set<Pair>, at: nat)
    requires OneOpen(rows)
    ensures var after := Resolved(rows, pairs, at);
            && OneOpen(after) && Attempts(after) == Attempts(rows)
            && (forall pair :: pair in pairs ==> FindOpen(after, pair).None?)
            && (forall i :: 0 <= i < |rows| && !rows[i].Open() ==> after[i] == rows[i])
  {
    AttemptsOfResolved(rows, pairs, at);
    hide Attempts;
  }

  /** Pairs that are not resolved keep their open row. */
  lemma ResolveLeavesOthers(rows: Ledger, pairs: set<Pair>, at: nat, pair: Pair)
    requires OneOpen(rows) && pair !in pairs
    ensures FindOpen(Resolved(rows, pairs, at), pair) == FindOpen(rows, pair)
  {
    var before, after := FindOpen(rows, pair), FindOpen(Resolved(rows, pairs, at), pair);
    if before.Some? && after.Some? {
      assert rows[after.value].Open() && rows[after.value].pair == pair;
    }
  }

  // ---- what a report leaves in the table ----

  /** The first open failure of the pair is at position i. */
  ghost predicate IsOpenAt(rows: Ledger, pair: Pair, i: nat) {
    && i < |rows| && rows[i].pair == pair && rows[i].resolvedAt == None
    && forall j :: 0 <= j < i ==> rows[j].pair != pair || rows[j].resolvedAt != None
  }

  lemma {:induction false} OpenIsFound(rows: Ledger, pair: Pair, i: nat)
    requires IsOpenAt(rows, pair, i)
    ensures FindOpen(rows, pair) == Some(i)
  {
    if i < |rows| - 1 { OpenIsFound(rows[..|rows| - 1], pair, i); }
  }

  /** An uninterrupted report on an open failure: one attempt more, and the time, message and path of the report. The
      transaction and the executor are the report's where it has them, and stay otherwise. All other rows stay. */
  lemma RepeatedFailure(rows: Ledger, r: Report, i: nat)
    requires IsOpenAt(rows, r.pair, i)
    ensures var row := rows[i];
            Ingested(rows, r) == rows[i := FailureRow(
              r.pair, if r.executor.Some? then r.executor.value else row.executor,
              if r.txHash.Some? then r.txHash else row.lastTxHash, r.message, r.path,
              row.attemptCount + 1, row.firstFailedAt, r.at, None)]
  {
    OpenIsFound(rows, r.pair, i);
  }

  /** Without an open failure of its pair, the report opens one: a first attempt, with the executor's address as given
      if it cannot be checksummed. */
  lemma FirstFailure(rows: Ledger, r: Report)
    requires forall i: nat :: !IsOpenAt(rows, r.pair, i)
    ensures Ingested(rows, r) == rows + [FailureRow(
              r.pair, if r.executor.Some? then r.executor.value else r.rawExecutor, r.txHash, r.message, r.path,
              1, r.at, r.at, None)]
  {
    if FindOpen(rows, r.pair).Some? { FoundIsFirst(rows, r.pair); }
  }

  lemma {:induction false} FoundIsFirst(rows: Ledger, pair: Pair)
    requires FindOpen(rows, pair).Some?
    ensures IsOpenAt(rows, pair, FindOpen(rows, pair).value)
  {
    var front := rows[..|rows| - 1];
    if FindOpen(front, pair).Some? { FoundIsFirst(front, pair); }
  }
}
