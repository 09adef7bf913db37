/** The chain as the indexer sees it: blocks of logs, immutable at confirmation depth. */
module Chain {
  import opened Wrappers

  type Address = string
  type VaultId = string
  type TxHash = string

  /** The vault events of the shared topic filter; Undecodable is a log whose topic collides with one of them. */
  datatype Event =
    | AutomationExecuted(automationId: nat, executor: Address)
    | GasCompSettled(automationId: nat, executor: Address, token: Address, amount: nat)
    | Deposited(token: Address, amount: nat)
    | Withdrawn(token: Address, amount: nat, fee: nat, recipient: Address)
    | Undecodable

  /** A log that matches the topic filter; its address is None when it cannot be checksummed. */
  datatype Log = Log(address: Option<Address>, txHash: TxHash, blockNumber: nat, index: nat, event: Event)
  datatype Block = Block(timestamp: nat, logs: seq<Log>)
  type Blocks = seq<Block>

  /** Identifies a log, and a row made from it: `(txHash, logIndex)`. */
  datatype Key = Key(txHash: TxHash, logIndex: nat)

  ghost predicate WellFormedBlock(b: Block, number: nat) {
    && (forall i :: 0 <= i < |b.logs| ==> b.logs[i].blockNumber == number)
    && (forall i, j :: 0 <= i < j < |b.logs| ==> b.logs[i].index != b.logs[j].index)
  }

  /** A log knows its block, its index is unique there, and a transaction sits in one block. */
  ghost predicate WellFormed(c: Blocks) {
    && c != []
    && (forall n :: 0 <= n < |c| ==> WellFormedBlock(c[n], n))
    && (forall m, n, k, l ::
          0 <= m < |c| && 0 <= n < |c| && k in c[m].logs && l in c[n].logs && k.txHash == l.txHash ==> m == n)
  }

  /** The last block the indexer may read. */
  function Safe(c: Blocks, confirmations: nat): int { |c| - 1 - confirmations }

  /** A later chain: no shorter, and the blocks at confirmation depth are the same; the tip may be rewritten. */
  ghost predicate Extends(c: Blocks, c': Blocks, confirmations: nat) {
    && |c| <= |c'|
    && forall n :: 0 <= n <= Safe(c, confirmations) ==> c'[n] == c[n]
  }

  /** The logs of the blocks lo .. hi-1, in chain order. */
  function LogsIn(c: Blocks, lo: nat, hi: nat): seq<Log>
    requires lo <= hi <= |c|
  {
    if lo == hi then [] else LogsIn(c, lo, hi - 1) + c[hi - 1].logs
  }

  lemma {:induction false} LogsSplit(c: Blocks, lo: nat, mid: nat, hi: nat)
    requires lo <= mid <= hi <= |c|
    ensures LogsIn(c, lo, hi) == LogsIn(c, lo, mid) + LogsIn(c, mid, hi)
    decreases hi
  {
    if mid < hi { LogsSplit(c, lo, mid, hi - 1); }
  }

  lemma {:induction false} LogsUnchanged(c: Blocks, c': Blocks, lo: nat, hi: nat)
    requires lo <= hi <= |c| && hi <= |c'| && forall n :: lo <= n < hi ==> c'[n] == c[n]
    ensures LogsIn(c', lo, hi) == LogsIn(c, lo, hi)
    decreases hi
  {
    if lo < hi { LogsUnchanged(c, c', lo, hi - 1); }
  }
}
