/** The rows of a window of blocks, and why it does not matter how a range is cut into windows. */
module WindowRows {
  import opened Chain
  import opened EventMapper
  import opened RangePlanner
  import opened Wrappers

  function ChainTimes(c: Blocks): Timestamps {
    map n: nat | n < |c| :: c[n].timestamp
  }

  /** The decoded logs of known vaults in the blocks lo .. hi-1. */
  function ParsedIn(c: Blocks, vaults: set<Address>, lo: nat, hi: nat): seq<Parsed>
    requires lo <= hi <= |c|
  {
    Gated(LogsIn(c, lo, hi), vaults)
  }

  ghost predicate InBlocks(parsed: seq<Parsed>, lo: nat, hi: nat) {
    forall l :: l in parsed ==> lo <= l.blockNumber < hi
  }

  ghost function ExecutionsIn(c: Blocks, vaults: set<Address>, lo: nat, hi: nat): seq<ExecutionRow>
    requires lo <= hi <= |c| && WellFormed(c)
  {
    ParsedInBlocks(c, vaults, lo, hi);
    var parsed := ParsedIn(c, vaults, lo, hi);
    ExecutionRows(parsed, parsed, ChainTimes(c))
  }

  ghost function VaultEventsIn(c: Blocks, vaults: set<Address>, lo: nat, hi: nat,
      depositFeeBps: nat): seq<VaultEventRow>
    requires lo <= hi <= |c| && WellFormed(c)
  {
    ParsedInBlocks(c, vaults, lo, hi);
    VaultEventRows(ParsedIn(c, vaults, lo, hi), ChainTimes(c), depositFeeBps)
  }

  // ---- lists ----

  lemma {:induction false} GatedAppend(a: seq<Log>, b: seq<Log>, vaults: set<Address>)
    ensures Gated(a + b, vaults) == Gated(a, vaults) + Gated(b, vaults)
  {
    if b == [] {
      assert a + b == a;
    } else {
      assert (a + b)[..|a + b| - 1] == a + b[..|b| - 1];
      GatedAppend(a, b[..|b| - 1], vaults);
    }
  }

  lemma {:induction false} GatedFrom(logs: seq<Log>, vaults: set<Address>, p: Parsed)
    ensures p in Gated(logs, vaults) <==>
            exists l :: l in logs && l.address == Some(p.address) && p.address in vaults && !l.event.Undecodable?
                        && p == Parsed(p.address, l.txHash, l.blockNumber, l.index, l.event)
  {
    if logs != [] {
      GatedFrom(logs[..|logs| - 1], vaults, p);
      assert logs == logs[..|logs| - 1] + [logs[|logs| - 1]];
    }
  }

  lemma {:induction false} ExecutionRowsAppend(a: seq<Parsed>, b: seq<Parsed>, all: seq<Parsed>, ts: Timestamps)
    requires Stamped(a, ts) && Stamped(b, ts)
    ensures ExecutionRows(a + b, all, ts) == ExecutionRows(a, all, ts) + ExecutionRows(b, all, ts)
  {
    if b == [] {
      assert a + b == a;
    } else {
      assert (a + b)[..|a + b| - 1] == a + b[..|b| - 1];
      ExecutionRowsAppend(a, b[..|b| - 1], all, ts);
    }
  }

  lemma {:induction false} VaultEventRowsAppend(a: seq<Parsed>, b: seq<Parsed>, ts: Timestamps, bps: nat)
    requires Stamped(a, ts) && Stamped(b, ts)
    ensures VaultEventRows(a + b, ts, bps) == VaultEventRows(a, ts, bps) + VaultEventRows(b, ts, bps)
  {
    if b == [] {
      assert a + b == a;
    } else {
      assert (a + b)[..|a + b| - 1] == a + b[..|b| - 1];
      VaultEventRowsAppend(a, b[..|b| - 1], ts, bps);
    }
  }

  lemma {:induction false} GasCompOutside(a: seq<Parsed>, b: seq<Parsed>, txHash: TxHash, automationId: nat,
      executor: Address)
    ensures (forall l :: l in a ==> l.txHash != txHash) ==>
              FindGasComp(a + b, txHash, automationId, executor) == FindGasComp(b, txHash, automationId, executor)
    ensures (forall l :: l in b ==> l.txHash != txHash) ==>
              FindGasComp(a + b, txHash, automationId, executor) == FindGasComp(a, txHash, automationId, executor)
  {
    if a == [] {
      assert a + b == b;
      if forall l :: l in b ==> l.txHash != txHash { NoGasComp(b, txHash, automationId, executor); }
    } else {
      assert (a + b)[1..] == a[1..] + b;
      GasCompOutside(a[1..], b, txHash, automationId, executor);
    }
  }

  lemma {:induction false} NoGasComp(b: seq<Parsed>, txHash: TxHash, automationId: nat, executor: Address)
    requires forall l :: l in b ==> l.txHash != txHash
    ensures FindGasComp(b, txHash, automationId, executor) == None
  {
    if b != [] { NoGasComp(b[1..], txHash, automationId, executor); }
  }

  /** The join only looks at the transaction of a log. */
  lemma {:induction false} SameJoin(logs: seq<Parsed>, all: seq<Parsed>, all': seq<Parsed>, ts: Timestamps)
    requires Stamped(logs, ts)
    requires forall l, id, executor ::
               l in logs ==> FindGasComp(all, l.txHash, id, executor) == FindGasComp(all', l.txHash, id, executor)
    ensures ExecutionRows(logs, all, ts) == ExecutionRows(logs, all', ts)
  {
    if logs != [] {
      assert logs[|logs| - 1] in logs;
      assert forall l :: l in logs[..|logs| - 1] ==> l in logs;
      SameJoin(logs[..|logs| - 1], all, all', ts);
    }
  }

  // ---- windows ----

  lemma {:induction false} LogsInBlocks(c: Blocks, lo: nat, hi: nat, l: Log)
    requires lo <= hi <= |c|
    ensures l in LogsIn(c, lo, hi) <==> exists n :: lo <= n < hi && l in c[n].logs
    decreases hi
  {
    if lo < hi { LogsInBlocks(c, lo, hi - 1, l); }
  }

  lemma ParsedInBlocks(c: Blocks, vaults: set<Address>, lo: nat, hi: nat)
    requires lo <= hi <= |c| && WellFormed(c)
    ensures InBlocks(ParsedIn(c, vaults, lo, hi), lo, hi) && Stamped(ParsedIn(c, vaults, lo, hi), ChainTimes(c))
  {
    forall p | p in ParsedIn(c, vaults, lo, hi) ensures lo <= p.blockNumber < hi {
      ParsedHasLog(c, vaults, lo, hi, p);
    }
  }

  lemma ParsedHasLog(c: Blocks, vaults: set<Address>, lo: nat, hi: nat, p: Parsed)
    requires lo <= hi <= |c| && WellFormed(c) && p in ParsedIn(c, vaults, lo, hi)
    ensures lo <= p.blockNumber < hi && p.address in vaults
    ensures Log(Some(p.address), p.txHash, p.blockNumber, p.logIndex, p.event) in c[p.blockNumber].logs
  {
    GatedFrom(LogsIn(c, lo, hi), vaults, p);
    var l := Log(Some(p.address), p.txHash, p.blockNumber, p.logIndex, p.event);
    assert l in LogsIn(c, lo, hi);
    LogsInBlocks(c, lo, hi, l);
    var n :| lo <= n < hi && l in c[n].logs;
    assert WellFormedBlock(c[n], n);
  }

  lemma DifferentTransactions(c: Blocks, vaults: set<Address>, lo: nat, mid: nat, hi: nat, p: Parsed, q: Parsed)
    requires lo <= mid <= hi <= |c| && WellFormed(c)
    requires p in ParsedIn(c, vaults, lo, mid) && q in ParsedIn(c, vaults, mid, hi)
    ensures p.txHash != q.txHash
  {
    ParsedHasLog(c, vaults, lo, mid, p);
    ParsedHasLog(c, vaults, mid, hi, q);
  }

  lemma ParsedSplit(c: Blocks, vaults: set<Address>, lo: nat, mid: nat, hi: nat)
    requires lo <= mid <= hi <= |c|
    ensures ParsedIn(c, vaults, lo, hi) == ParsedIn(c, vaults, lo, mid) + ParsedIn(c, vaults, mid, hi)
  {
    LogsSplit(c, lo, mid, hi);
    GatedAppend(LogsIn(c, lo, mid), LogsIn(c, mid, hi), vaults);
  }

  /** Mapping two neighbouring windows gives the rows of mapping both at once, gas compensation included. */
  lemma WindowsConcatenate(c: Blocks, vaults: set<Address>, lo: nat, mid: nat, hi: nat, bps: nat)
    requires lo <= mid <= hi <= |c| && WellFormed(c)
    ensures ExecutionsIn(c, vaults, lo, hi) == ExecutionsIn(c, vaults, lo, mid) + ExecutionsIn(c, vaults, mid, hi)
    ensures VaultEventsIn(c, vaults, lo, hi, bps)
            == VaultEventsIn(c, vaults, lo, mid, bps) + VaultEventsIn(c, vaults, mid, hi, bps)
  {
    ParsedSplit(c, vaults, lo, mid, hi);
    ParsedInBlocks(c, vaults, lo, mid);
    ParsedInBlocks(c, vaults, mid, hi);
    ParsedInBlocks(c, vaults, lo, hi);
    var a, b, ts := ParsedIn(c, vaults, lo, mid), ParsedIn(c, vaults, mid, hi), ChainTimes(c);
    ExecutionRowsAppend(a, b, a + b, ts);
    VaultEventRowsAppend(a, b, ts, bps);
    forall l, id, executor | l in a
      ensures FindGasComp(a + b, l.txHash, id, executor) == FindGasComp(a, l.txHash, id, executor)
    {
      forall q | q in b ensures q.txHash != l.txHash { DifferentTransactions(c, vaults, lo, mid, hi, l, q); }
      GasCompOutside(a, b, l.txHash, id, executor);
    }
    forall l, id, executor | l in b
      ensures FindGasComp(a + b, l.txHash, id, executor) == FindGasComp(b, l.txHash, id, executor)
    {
      forall q | q in a ensures q.txHash != l.txHash { DifferentTransactions(c, vaults, lo, mid, hi, q, l); }
      GasCompOutside(a, b, l.txHash, id, executor);
    }
    SameJoin(a, a + b, a, ts);
    SameJoin(b, a + b, b, ts);
  }

  // ---- windows of logs ----

  predicate InChain(c: Blocks, range: BlockRange) { 0 <= range.from <= range.to < |c| }

  /** What the queries for consecutive windows return. */
  function LogsOfWindows(c: Blocks, ranges: seq<BlockRange>): seq<Log>
    requires forall r :: r in ranges ==> InChain(c, r)
  {
    if ranges == [] then []
    else
      assert InChain(c, ranges[0]);
      LogsIn(c, ranges[0].from, ranges[0].to + 1) + LogsOfWindows(c, ranges[1..])
  }

  /** However an interval is tiled, its windows return the logs of one query over all of it. */
  lemma {:induction false} TilingDoesNotMatter(c: Blocks, ranges: seq<BlockRange>, start: nat, end: int)
    requires Tiles(ranges, start, end) && end < |c|
    ensures start <= end + 1
    ensures forall r :: r in ranges ==> InChain(c, r)
    ensures LogsOfWindows(c, ranges) == LogsIn(c, start, end + 1)
    decreases |ranges|
  {
    if ranges != [] {
      TilingDoesNotMatter(c, ranges[1..], ranges[0].to + 1, end);
      assert ranges == [ranges[0]] + ranges[1..];
      LogsSplit(c, start, ranges[0].to + 1, end + 1);
    }
  }

  /** The rows of consecutive windows. */
  ghost function ExecutionsOfWindows(c: Blocks, vaults: set<Address>, ranges: seq<BlockRange>): seq<ExecutionRow>
    requires WellFormed(c) && forall r :: r in ranges ==> 0 <= r.from <= r.to < |c|
  {
    if ranges == [] then []
    else ExecutionsIn(c, vaults, ranges[0].from, ranges[0].to + 1) + ExecutionsOfWindows(c, vaults, ranges[1..])
  }

  /** Whatever the windows, the rows are those of mapping the whole range at once. */
  lemma {:induction false} ChunkingDoesNotMatter(c: Blocks, vaults: set<Address>, ranges: seq<BlockRange>,
      start: nat, end: int)
    requires WellFormed(c) && Tiles(ranges, start, end) && end < |c|
    ensures start <= end + 1 && forall r :: r in ranges ==> 0 <= r.from <= r.to < |c|
    ensures ExecutionsOfWindows(c, vaults, ranges) == ExecutionsIn(c, vaults, start, end + 1)
    decreases |ranges|
  {
    hide WellFormed, ExecutionsIn, ExecutionsOfWindows;
    if ranges == [] {
      NoWindows(c, vaults, start);
    } else {
      var rest, mid := ranges[1..], ranges[0].to + 1;
      ChunkingDoesNotMatter(c, vaults, rest, mid, end);
      FirstWindow(c, vaults, ranges);
      WindowsConcatenate(c, vaults, start, mid, end + 1, 0);
    }
  }

  lemma NoWindows(c: Blocks, vaults: set<Address>, lo: nat)
    requires WellFormed(c) && lo <= |c|
    ensures ExecutionsIn(c, vaults, lo, lo) == ExecutionsOfWindows(c, vaults, [])
  {
    ParsedInBlocks(c, vaults, lo, lo);
  }

  lemma FirstWindow(c: Blocks, vaults: set<Address>, ranges: seq<BlockRange>)
    requires WellFormed(c) && ranges != [] && 0 <= ranges[0].from <= ranges[0].to < |c|
    requires forall r :: r in ranges[1..] ==> 0 <= r.from <= r.to < |c|
    ensures forall r :: r in ranges ==> 0 <= r.from <= r.to < |c|
    ensures ExecutionsOfWindows(c, vaults, ranges) ==
            ExecutionsIn(c, vaults, ranges[0].from, ranges[0].to + 1) + ExecutionsOfWindows(c, vaults, ranges[1..])
  {
    assert ranges == [ranges[0]] + ranges[1..];
  }

  // ---- a row belongs to exactly one log ----

  lemma {:induction false} ExecutionRowFrom(logs: seq<Parsed>, all: seq<Parsed>, ts: Timestamps, row: ExecutionRow)
    requires Stamped(logs, ts)
    ensures row in ExecutionRows(logs, all, ts) <==>
            exists l :: l in logs && l.event.AutomationExecuted? && row == ExecutionRowOf(l, all, ts[l.blockNumber])
  {
    if logs != [] {
      ExecutionRowFrom(logs[..|logs| - 1], all, ts, row);
      assert logs == logs[..|logs| - 1] + [logs[|logs| - 1]];
    }
  }

  lemma {:induction false} VaultEventRowFrom(logs: seq<Parsed>, ts: Timestamps, bps: nat, row: VaultEventRow)
    requires Stamped(logs, ts)
    ensures row in VaultEventRows(logs, ts, bps) <==>
            exists l :: l in logs && MovesFunds(l.event) && row == VaultEventRowOf(l, ts[l.blockNumber], bps)
  {
    if logs != [] {
      VaultEventRowFrom(logs[..|logs| - 1], ts, bps, row);
      assert logs == logs[..|logs| - 1] + [logs[|logs| - 1]];
    }
  }

  /** What the row of a deposit or a withdrawal says: a deposit's fee is the given share of it, a withdrawal's share is
      that of its fee. */
  predicate IsEventRow(l: Parsed, timestamp: nat, bps: nat, row: VaultEventRow) {
    && row.vaultAddress == l.address && row.key == Key(l.txHash, l.logIndex)
    && row.blockNumber == l.blockNumber && row.timestamp == timestamp
    && match l.event
       case Deposited(token, amount) =>
         && row.kind == Deposit && row.token == token && row.amount == amount
         && row.feeBps == bps && row.feeAmount == amount * bps / 10_000
       case Withdrawn(token, amount, fee, _) =>
         && row.kind == Withdraw && row.token == token && row.amount == amount
         && row.feeAmount == fee && row.feeBps == if amount > 0 then fee * 10_000 / amount else 0
       case _ => false
  }

  /** The rows are those of the deposits and withdrawals. */
  lemma EventRowsExactly(logs: seq<Parsed>, ts: Timestamps, bps: nat, row: VaultEventRow)
    requires Stamped(logs, ts)
    ensures row in VaultEventRows(logs, ts, bps) <==>
            exists l :: l in logs && IsEventRow(l, ts[l.blockNumber], bps, row)
  {
    hide VaultEventRows;
    VaultEventRowFrom(logs, ts, bps, row);
    forall l | l in logs
      ensures IsEventRow(l, ts[l.blockNumber], bps, row) <==>
              MovesFunds(l.event) && row == VaultEventRowOf(l, ts[l.blockNumber], bps)
    {
    }
  }
}
