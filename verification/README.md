# Verification of the strategy vault backend

A Dafny model of four parts of the repository and of two small helpers, with proofs of what they promise.

1. **Execution indexer** (`Chain`, `RangePlanner`, `EventMapper`, `WindowRows`, `FailureLedger`, `IndexerProtocol`,
   `IndexerInvariant`, `IndexerSteps`, `IndexerTheorems`, `IndexerCoverage`, `IndexerService`). A state machine whose
   steps lie between two `await`s. Between any two of them the process may die, the head may grow, the unconfirmed tip
   may be rewritten, vaults may appear, and failure reports may be read and written. `IndexerInvariant` and
   `IndexerSteps` prove one invariant for every step; `IndexerTheorems` says what it means for the tables, and
   `IndexerCoverage` which vaults and blocks are covered. `IndexerService` is the service itself, with its fields,
   loops and recursion: whatever its surroundings do at each `await`, every state it passes is one the state machine
   reaches, so the theorems speak about it.
2. **Automation compiler** (`EditorGraph`, `StepTable`, `VaultInterpreter`, `Compilation`, `ContextSlots`,
   `SlotRaces`, `ContextVector`, `Encoding`, `RowData`). The graph is numbered breadth first and emitted as a jump
   table; the vault contract's loop runs the table. The proofs relate that loop to a walk along the graph's edges, for
   any contracts behind the steps, and every row to the edges and parameters of its node.
3. **Concentrated-liquidity arithmetic** (`Arith`, `BitProduct`, `TickMath`, `TickBase`, `LiquidityAmounts`,
   `LpPosition`). Exact integers. Monotonicity of the tick price comes from twenty facts about the multipliers: what
   bit k does to a value is more than all lower bits together do. That the multipliers are the right ones comes from
   enclosing the powers of 1.0001 they round, each by squaring the one before.
4. **Amount boundary** (`Numerals`, `Amount`, `NumberLiterals`, `Schema`, `TokenUtils`, `Validation`,
   `EncodeBoundary`, `SummaryDecoder`). Typed decimals, their base units, the two validation modes, the mapper between
   them and the summary read back.
5. **Helpers** (`WorkerPool`, `Downsample`): the bounded worker pool as interleaved steps, and history thinning.

Check everything with `dafny verify dfyconfig.toml`.

## Promises that do not hold, and exactly when they do

- A position out of range should hold one token only. Amounts swap unordered bounds back and the flag does not, so with
  `tickLower > tickUpper` both amounts can be positive (`SwappedTicksHoldBothTokens`; `OneTokenExactly` has the condition
  for all liquidities, `OneTokenDecided` the one for a single position). Positions read from a pool's position manager have
  ordered ticks, since minting refuses others; only another caller of `buildLpPosition` can pass swapped ones.
- The flag and the amounts of a position should tell the same story. A pool that stops exactly on the price of a tick while
  the price falls stores the tick below; for a range that starts or ends there they differ (`InRangeAgreesExactly`).
- The summary a human confirms should show what was typed. It is about the last amount field of a step only: what an
  earlier one holds is neither shown nor warned about (`SecondAmountHidesFirst`, `EarlierAmountIsInvisible`;
  `NoAmountDroppedExactly` has the condition). The seeded PancakeSwap steps that mint a position or increase its liquidity
  have two amounts (`packages/backend/prisma/seed/catalog/pancakeswap.ts:163-180` and `238-262`). Of several recipient
  fields the last one set is shown (`EveryRecipientShownExactly`).
- What friendly validation accepts should map. The mapper throws on an amount left as `""` or `null`
  (`EmptyAmountDoesNotMap`), on an amount in a token of unknown decimals (`UnknownTokenDoesNotMap`), and on a health
  factor that is no decimal of at most 18 places. `FriendlyStepMapsExactly` says that there is nothing else.
- What compiles should be accepted by the vault. A creation carries the encoder's flag: with several start nodes of which
  the first is an action, the flag says that anybody may run a table that starts with an action, and the vault rejects it
  (`TwoActionsAreRejected`; `VaultAcceptsExactly` has the condition). An update carries no flag: a graph that starts with
  an action is rejected for an automation stored as public, even if its own flag would be owner-only
  (`ActionUpdateIsRejected`; `VaultAcceptsUpdateExactly` has the condition).
- Context entries without an override should survive. The transaction writes back the whole vector as it was read. A failed
  read counts as an empty context (`FailedReadLosesEntry`), and what an execution or another transaction stores between a
  successful read and the transaction is set back (`StaleReadLosesEntry`). `ContextSurvivesExactly` has the condition for
  every read and every context at mining, `ReportedHoldsExactly` the one for the reported values.
- Distinct names should never share a slot. The row is read and written without a lock, so two overlapping calls can hand
  out the same slot (`OverlappingCallsShareASlot`). The row itself stays dense however calls overlap (`AlwaysDense`).
  `WriteKeepsExactly` says of any single write when it moves no stored name, and `MappingsStayRightExactly` that the
  mappings of a run stay right exactly as long as every write is of that kind. A write over the row its call read
  is (`UpToDateIsHarmless`), and so is one by a second call with the same read and names (`RepeatIsHarmless`).
- Every stored execution should be emitted. The commit and the emission are separate, so a process that dies between them
  loses the emission for good; `EmittedExactly` says that nothing else is lost.
- A resolved failure should not change again. The report's read and write are two database calls; a success committed
  between them leaves the attempt on the closed row and no open failure (`RacingReportIsLost`; `ClosedFailureChanges` has
  the condition, `ClosedFailuresAreFinal` what holds when reports are atomic).

## What the indexer's runs take for granted

The chain never gets shorter (a rewritten tip is at least as long as the old one), blocks at confirmation depth are
immutable, a log's index is unique in its block, a transaction sits in one block, vaults are never removed and their ids
and addresses are unique, one indexer process runs at a time, and the database transaction is atomic. A thrown error and
a crash are the same event: the in-memory state is gone.

## Model

| member | source | states |
|---|---|---|
| IndexerTheorems.ExactlyOnce | packages/backend/src/indexer/indexer.service.ts:175-241 | In every state of every run, each log of a block in (seed, cursor] from a vault in the set loaded by the tick that passed the block has exactly one row under its key, and that row says what the log says |
| IndexerCoverage.KnownVaultsAreLoaded | packages/backend/src/indexer/indexer.service.ts:191-196 | A vault known in some state before a tick has loaded its vault set is, with its id, in the set of every tick that passes a block from then on, over all crashes and other writers |
| IndexerCoverage.KnownVaultsAreIndexed | packages/backend/src/indexer/indexer.service.ts:175-241 | Every execution, deposit and withdrawal of a vault known before a tick loads its set has exactly one row, as the log says, once its block is behind the cursor, whichever tick passed it |
| IndexerCoverage.CursorStartsAtSeed | packages/backend/src/indexer/indexer.service.ts:131-150 | The first cursor of a run is one block before the configured start, never negative; without one, one block before the first block of the vaults then known, or the head if there were none |
| IndexerCoverage.FeeReadIsUsed | packages/backend/src/indexer/indexer.service.ts:220-236 | Wherever the process holds new deposits, each carries the rate read in this window and the fee at that rate |
| IndexerTheorems.NothingInvented | packages/backend/src/indexer/indexer.service.ts:190-239 | In every state of every run each stored execution, deposit and withdrawal has its log in the chain, and none lies beyond head minus confirmations |
| IndexerTheorems.NothingTakenBack | packages/backend/src/indexer/indexer-cursor.store.ts:17-47 | Along any run the cursor never moves back, its seed is never replaced, and stored rows and emissions are never removed, and a failure row keeps its pair and first failure, never loses an attempt and is never reopened |
| IndexerTheorems.EmittedAtMostOnce | packages/backend/src/indexer/indexer.service.ts:504-522 | Over any run with crashes and replays each execution is emitted at most once, only when stored, with the address of the one vault that owns it |
| IndexerTheorems.EmittedExactly | packages/backend/src/indexer/indexer.service.ts:479-521 | In every state of every run a stored execution has been emitted if and only if it is not in the batch being read back and no process died between the commit and the emission of its batch |
| IndexerTheorems.LostIsNeverEmitted | packages/backend/src/indexer/indexer.service.ts:479-521 | An execution whose process died between its commit and its emission is not emitted in any later state of the run, replays of its window included |
| IndexerTheorems.GasCompIsTheSettlement | packages/backend/src/indexer/event-mapper.ts:119-160 | Where vaults settle their own executions, a stored row carries the settlement of its transaction, automation and executor if the block has one, and none otherwise, whichever tick stored it |
| IndexerTheorems.FailuresAreCounted | packages/backend/src/indexer/failure-ingest.service.ts:48-80 | In every state of every run there is at most one open failure per vault and automation, and the attempt counts add up to the accepted reports |
| IndexerTheorems.SuccessClosesFailures | packages/backend/src/indexer/indexer.service.ts:479-502 | The commit of a success stores it, leaves no open failure for its vault and automation, and changes no closed failure |
| IndexerTheorems.ClosedFailureChanges | packages/backend/src/indexer/failure-ingest.service.ts:48-66 | A step changes a closed failure if and only if it is the write of a report that read the row while it was open; it never reopens it |
| IndexerTheorems.RacingReportIsLost | packages/backend/src/indexer/failure-ingest.service.ts:48-66 | For any report: read, a success closes the row, write. The attempt lands on the closed row and no failure is open afterwards, unlike the uninterrupted call |
| IndexerTheorems.ClosedFailuresAreFinal | packages/backend/src/indexer/failure-ingest.service.ts:48-80 | If every report is written against what the table holds at that moment, a closed failure never changes again |
| IndexerSteps.RunKeeps | packages/backend/src/indexer/indexer.service.ts:131-241 | Every state of every run satisfies the invariant that ties tables, cursor, emissions, failure table and process state to the chain |
| IndexerSteps.StepKeeps | packages/backend/src/indexer/indexer.service.ts:175-522 | Each single step of the indexer, of a crash, of the chain and of the failure channel preserves that invariant |
| IndexerSteps.InsertExecutionsFacts | packages/backend/src/indexer/indexer.service.ts:483-499 | Inserting under the unique key keeps what was there, in place, never stores a key twice, and leaves every key of the batch stored |
| IndexerSteps.AdvanceKeeps | packages/backend/src/indexer/indexer.service.ts:237-240 | Moving the cursor to the end of a finished window keeps every block up to it done |
| IndexerService.Indexer.Tick | packages/backend/src/indexer/indexer.service.ts:175-241 | A poll written as the source writes it is a run of the protocol whatever happens at its awaits; if it ends well, every block confirmed when it began is behind the cursor; however it ends, every execution, deposit and withdrawal of a vault known when it began has exactly one row if the poll passed its block |
| IndexerService.Indexer.IndexWindow | packages/backend/src/indexer/indexer.service.ts:192-240 | One window ends with the cursor at its last block, or the process is back at rest |
| IndexerService.Indexer.FetchLogs | packages/backend/src/indexer/indexer.service.ts:340-360 | Whatever the RPC rejects, success returns the logs of one query over the window, at the chain as it is then; an error is the RPC's last answer. The recursion ends on window width |
| IndexerService.Indexer.Persist | packages/backend/src/indexer/indexer.service.ts:447-522 | Filtering, the transaction and the emission are steps of the protocol; the confirmed chain and the cursor are as before |
| IndexerService.Indexer.PersistVaultEvents | packages/backend/src/indexer/indexer.service.ts:408-444 | Storing new deposits and withdrawals is a run of the protocol's steps |
| IndexerService.Indexer.EnsureCursorSeeded | packages/backend/src/indexer/indexer.service.ts:131-150 | Seeding is a run of the protocol's steps and ends with a cursor unless the process dies |
| IndexerService.Indexer.RunOnce | packages/backend/src/indexer/indexer.service.ts:159-169 | Whatever ends a tick, well, by an error or by a crash, leaves the service at rest and ready for the next; a call while one ticks does nothing |
| IndexerService.OneTickAtATime | packages/backend/src/indexer/indexer.service.ts:152-169 | However polls are started and end, also while another one awaits, at most one ticks, exactly while the guard is set |
| IndexerService.Indexer.FirstVaultBlock | packages/backend/src/indexer/indexer.service.ts:139-144 | The least creation block of the known vaults, none exactly if there is no vault |
| IndexerService.DistinctPairs | packages/backend/src/indexer/indexer.service.ts:466-475 | The vault and automation pairs of the new rows, each once |
| IndexerService.EmitNewExecutions | packages/backend/src/indexer/indexer.service.ts:510-521 | The created rows with the address of their vault, rows of unknown vaults left out |
| RangePlanner.PlanRanges | packages/backend/src/indexer/range-planner.ts:24-45 | The loop computes the plan, and refuses a non-positive range or negative confirmations |
| RangePlanner.PlanExactly | packages/backend/src/indexer/range-planner.ts:24-45 | The plan is refused for a width below one or negative confirmations, empty without a confirmed block after the cursor, and else tiles those blocks in windows of exactly the allowed width, the last one at most that |
| RangePlanner.PlanTiles | packages/backend/src/indexer/range-planner.ts:24-45 | The planned windows cover the blocks after the cursor up to the confirmed head without gap or overlap, none wider than the limit |
| RangePlanner.HalvesTile | packages/backend/src/indexer/range-planner.ts:53-60 | The halves of a wide window tile it, are strictly narrower, and differ in width by at most one block |
| WindowRows.TilingDoesNotMatter | packages/backend/src/indexer/indexer.service.ts:340-360 | However a range is cut, its windows return the log sequence of one query over it |
| WindowRows.WindowsConcatenate | packages/backend/src/indexer/event-mapper.ts:119-160 | Mapping two neighbouring windows gives the rows of mapping both at once, gas compensation join included |
| WindowRows.ChunkingDoesNotMatter | packages/backend/src/indexer/event-mapper.ts:119-160 | Whatever the windows, the execution rows are those of mapping the whole range at once |
| EventMapper.BuildExecutionRows | packages/backend/src/indexer/event-mapper.ts:119-160 | One row per executed automation joined with the first matching settlement; it fails exactly if such a log has no timestamp, whatever the other logs, and names its block |
| EventMapper.BuildVaultEventRows | packages/backend/src/indexer/event-mapper.ts:184-231 | One row per deposit or withdrawal with its fee; it fails exactly if such a log has no timestamp, whatever the other logs, and names its block |
| WindowRows.EventRowsExactly | packages/backend/src/indexer/event-mapper.ts:184-231 | A row is among those of a list of logs exactly if a deposit or withdrawal among them has its fields; a deposit's fee is its share at the rate handed in, a withdrawal's rate is derived from its fee |
| WindowRows.ParsedHasLog | packages/backend/src/indexer/indexer.service.ts:204-216 | What passes the gate and the decode is a log of a known vault in its own block |
| FailureLedger.FailureStore.Ingest | packages/backend/src/indexer/failure-ingest.service.ts:33-81 | An uninterrupted report adds one attempt to the open failure of its pair or opens one; a malformed or unknown vault changes nothing |
| FailureLedger.RepeatedFailure | packages/backend/src/indexer/failure-ingest.service.ts:52-66 | An uninterrupted report on an open failure changes its row and no other: one attempt more; time, message and path of the report; its transaction and executor where it has them |
| FailureLedger.FirstFailure | packages/backend/src/indexer/failure-ingest.service.ts:67-80 | Without an open failure of its pair the report appends a row with a first attempt, the given executor text where it cannot be checksummed |
| FailureLedger.WriteKeeps | packages/backend/src/indexer/failure-ingest.service.ts:48-80 | The write half of a report, even of a stale read, counts one attempt and never makes a second open failure |
| FailureLedger.ResolveKeeps | packages/backend/src/indexer/indexer.service.ts:494-499 | Resolving closes the open failures of its pairs, keeps all attempts and touches no closed row |
| FailureLedger.ResolveLeavesOthers | packages/backend/src/indexer/indexer.service.ts:494-499 | Pairs that are not resolved keep their open failure |
| FailureLedger.ResolveAll | packages/backend/src/indexer/indexer.service.ts:494-499 | The update per pair closes exactly the open failures of the pairs |
| EditorGraph.BreadthFirst | packages/backend/src/automation/encoding.service.ts:321-353 | The queue loop computes the numbering, none exactly if there is no start node |
| EditorGraph.StartIsFirst | packages/backend/src/automation/encoding.service.ts:322-327 | The start node is the first node no edge ends in; there is none exactly if edges end in all nodes |
| EditorGraph.OrderIsReachableSet | packages/backend/src/automation/encoding.service.ts:321-353 | The numbering starts with the start node and lists exactly the nodes reachable from it, each once |
| EditorGraph.OrderIsByDistance | packages/backend/src/automation/encoding.service.ts:341-350 | The numbering is by distance: whatever number of edges reaches a node from the start, that many or fewer reach every node numbered before it |
| EditorGraph.InferOwnerOnly | packages/backend/src/automation/encoding.service.ts:312-319 | Owner-only means exactly one start node, and that an action |
| EditorGraph.OwnerOnlyExactly | packages/backend/src/automation/encoding.service.ts:312-319 | Owner-only exactly if there is a single node no edge ends in and it is an action |
| EditorGraph.CountIncoming | packages/backend/src/automation/encoding.service.ts:312-319 | The in-degree map counts the edges into each node |
| StepTable.CompiledTable | packages/backend/src/automation/encoding.service.ts:100-149 | Row i belongs to the i-th node of the numbering, with its payload, kind and jumps; there are at most 256 rows |
| StepTable.JumpsAreNumbers | packages/backend/src/automation/encoding.service.ts:119-132 | A jump is DONE exactly where the node has no such edge and otherwise the row number of the edge's target, so the DONE fallback never fires |
| StepTable.RowsFollowEdges | packages/backend/src/automation/encoding.service.ts:112-149 | Read off the graph alone: every row has its node's kind and its type's contract and selector, and each jump is the row of the target of the node's first edge with the handle, uint32 max exactly if it has none; an action's false jump is always that |
| StepTable.SuccessorIsBranch | packages/backend/src/automation/encoding.service.ts:123-131 | The reference walk goes on along the node's first edge with the handle, and ends exactly if it has none |
| RowData.EncodeParamExactly | packages/backend/src/automation/encoding.service.ts:231-270 | A parameter is encoded as a value exactly if that is what its type, its value, the slots and the default say: a slot's name its index, a set value itself (a uint32 text the integer it starts with, a bool text whether it is true), an unset one the default or the zero of its type; otherwise the step fails |
| RowData.RowDataExactly | packages/backend/src/automation/encoding.service.ts:134-148 | The data of every row of a compiled table are its node's parameters, component by component, emitted like that |
| RowData.CompilesExactly | packages/backend/src/automation/encoding.service.ts:99-149 | A well-formed graph compiles if and only if it has a start node and every node reachable from it has a known type and parameters that can be emitted |
| RowData.EncodesExactly | packages/backend/src/automation/encoding.service.ts:79-149 | Either encoder succeeds if and only if the graph has 1 to 256 nodes, valid raw parameters, a start node, and data for every node reachable from it |
| RowData.EncodedRow | packages/backend/src/automation/encoding.service.ts:112-149 | Each row either encoder returns belongs to a node of the graph: kind, contract, selector and jumps as its edges say, data as its parameters say |
| NumberLiterals.ParseIntExactly | packages/backend/src/automation/encoding.service.ts:258-266 | parseInt reads exactly the integer a text starts with after white space and a sign, and nothing from any other text |
| VaultInterpreter.ExecuteAutomation | packages/contracts/contracts/StrategyBuilderVault.sol:313-378 | The vault's loop ends as running the table for at most 256 steps does, with the guards on activity and ownership before it and the trigger's update after it: same context, same reason to revert |
| VaultInterpreter.ValidateSteps | packages/contracts/contracts/StrategyBuilderVault.sol:454-478 | The loop accepts exactly the valid tables; else it reports an empty table, a wrong first step, or the first invalid step with what is wrong with it |
| VaultInterpreter.AcceptedStaysInside | packages/contracts/contracts/StrategyBuilderVault.sol:454-478 | A run of an accepted table, from any of its rows and for any number of steps, never leaves it, and reverts only if a called contract does |
| Compilation.CompilationPreservesMeaning | packages/backend/src/automation/encoding.service.ts:100-149 | After any number of steps, cycles included and for every behaviour of the called contracts, the table is at the row of the node the graph walk is at, with the same context |
| Compilation.ExecutionIsGraphWalk | packages/contracts/contracts/StrategyBuilderVault.sol:313-378 | Whoever calls and whatever flags are stored, the vault's execution of the emitted table ends exactly as the walk from the start node does, guards and trigger update included |
| Compilation.OwnerOnlyStartsWithAction | packages/backend/src/automation/encoding.service.ts:312-319 | Owner-only implies that step 0 is an action; with exactly one start node it is equivalent |
| Compilation.VaultAcceptsUnder | packages/contracts/contracts/StrategyBuilderVault.sol:454-478 | Whatever flag the vault validates with, it accepts the emitted table if and only if every step is callable and the flag is owner-only or the first start node is a condition |
| Compilation.VaultAcceptsExactly | packages/contracts/contracts/StrategyBuilderVault.sol:230-242 | A creation, which carries the encoder's flag, is accepted if and only if every step is callable and the graph has one start node or its first start node is a condition |
| Compilation.VaultAcceptsUpdateExactly | packages/contracts/contracts/StrategyBuilderVault.sol:244-271 | An update, validated with the stored flag, is accepted if and only if every step is callable and the automation is owner-only or the first start node is a condition; it replaces the steps and nothing else |
| Compilation.TwoActionsAreRejected | packages/contracts/contracts/StrategyBuilderVault.sol:454-478 | A concrete graph that compiles to a table the vault refuses to create |
| Compilation.ActionUpdateIsRejected | packages/contracts/contracts/StrategyBuilderVault.sol:244-249 | A concrete graph that the vault creates and refuses as an update of an automation anybody may run |
| Encoding.EncodersAgree | packages/backend/src/automation/encoding.service.ts:413-448 | encode and encodeUpdate emit the same table and flag for the same graph, even if other automations allocated slots in between |
| Encoding.ExtractSlotNames | packages/backend/src/automation/encoding.service.ts:355-389 | The names in slot fields that are neither numbers nor hex literals, each once, in order |
| Encoding.SlotNamesComplete | packages/backend/src/automation/encoding.service.ts:355-389 | The variable of every slot field of every node is among the extracted names |
| Encoding.SlotNamesExactly | packages/backend/src/automation/encoding.service.ts:355-389 | The extracted names are exactly the variables of the nodes' slot fields, each once |
| Encoding.NumbersAreNoNames | packages/backend/src/automation/encoding.service.ts:371-379 | A decimal, a printed integer, a hex literal or an empty text in a slot field is no name |
| Encoding.WordsAreNames | packages/backend/src/automation/encoding.service.ts:371-379 | A text starting with a letter is a name exactly in a slot field, unless it spells infinity |
| Encoding.ValidateRawParams | packages/backend/src/automation/encoding.service.ts:291-310 | Accepts exactly if no parameter of a known step violates the raw rules |
| Encoding.EncodingService.Encode | packages/backend/src/automation/encoding.service.ts:79-222 | Succeeds exactly if the graph is acceptable and compiles with the allocated slots; the result is that table, the flag, the function name and a plan of the context |
| Encoding.EncodingService.EncodeUpdate | packages/backend/src/automation/encoding.service.ts:391-497 | The same for an update, where only slots beyond the chain's context are new |
| Encoding.SlotsAreInside | packages/backend/src/automation/encoding.service.ts:165-210 | Whichever encoder made the plan, whatever it read and whatever the vault holds at mining, an allocated index belongs to its name and is inside the context afterwards if and only if a transaction is asked for or it is inside already |
| Encoding.ReferencesAreIndices | packages/backend/src/automation/encoding.service.ts:224-273 | Every reference to a slot in any row of the table is emitted as the slot's index |
| Encoding.EncodedIndexIsInside | packages/backend/src/automation/encoding.service.ts:165-210 | In any row of the result of either encoder a parameter naming a variable of the graph is emitted as the index the variable owns, which is inside the context afterwards unless no transaction is asked for and the context became shorter than it was read |
| Encoding.SlotFieldsAreAllocated | packages/backend/src/automation/encoding.service.ts:224-273 | A variable named in a slot field has an allocated index, so it is never parsed as a number |
| ContextSlots.VaultRow.AllocateSlots | packages/backend/src/automation/context.service.ts:26-72 | The loop stores the slots of the history-defined allocation and returns its mapping |
| ContextSlots.AllocationSound | packages/backend/src/automation/context.service.ts:26-72 | From dense slots the result is dense, nothing allocated moves, and the mapping gives each name the slot that holds it |
| ContextSlots.MappingInjective | packages/backend/src/automation/context.service.ts:26-72 | Distinct names never share a slot |
| ContextSlots.RepeatIsNoop | packages/backend/src/automation/context.service.ts:26-72 | Asking again for some of the names, by any automation, changes nothing and returns the same indices |
| ContextSlots.HistoryIsDense | packages/backend/src/automation/context.service.ts:26-72 | After any history from an empty vault the indices are exactly 0 to n-1 and names are unique |
| ContextSlots.IndexIsForever | packages/backend/src/automation/context.service.ts:26-72 | A name keeps its index whatever is allocated later |
| ContextSlots.SlotsAreOwned | packages/backend/src/automation/context.service.ts:26-72 | After any history slot i is found under exactly the name stored in it |
| SlotRaces.AlwaysDense | packages/backend/src/automation/context.service.ts:32-69 | However calls overlap, each reading the row and writing it back later, the stored indices are exactly 0 to n-1 and stored names are unique |
| SlotRaces.WriteKeepsExactly | packages/backend/src/automation/context.service.ts:32-69 | For any row read and any row stored meanwhile, a call's write keeps the index of every stored name if and only if the stored names in index order are a beginning of the names it read followed by its own new ones |
| SlotRaces.StepKeepsMappingsExactly | packages/backend/src/automation/context.service.ts:32-69 | Where all mappings handed out so far hold, they all hold after a step, the new one included, if and only if the step is no write or one that meets this condition |
| SlotRaces.MappingsStayRightExactly | packages/backend/src/automation/context.service.ts:32-69 | In a run of overlapping calls every mapping handed out is right in every state so far if and only if every write so far met this condition |
| SlotRaces.UpToDateIsHarmless | packages/backend/src/automation/context.service.ts:32-69 | A write over the very row that its call read meets the condition |
| SlotRaces.RepeatIsHarmless | packages/backend/src/automation/context.service.ts:32-69 | A write over what a call with the same read and the same names has just stored meets the condition |
| SlotRaces.OverlappingCallsShareASlot | packages/backend/src/automation/context.service.ts:32-69 | Two concrete overlapping calls that both return slot 0 for different names |
| ContextVector.BuildExpandedContext | packages/backend/src/automation/context.service.ts:74-110 | The vector is as long as its sources need, and each entry is the override, else the current entry, else the initial value |
| ContextVector.VectorExactly | packages/backend/src/automation/context.service.ts:74-110 | In the vector to set, the entry at the slot of an overridden name is the override, any other entry is as it was read, and empty beyond what was read |
| ContextVector.ChangeExactly | packages/backend/src/automation/encoding.service.ts:199-209 | The change reported for each name of the mapping: its slot, whether it lies beyond what was read, the entry read there, and the override's value or else the entry, or empty |
| ContextVector.PlanForCreate | packages/backend/src/automation/encoding.service.ts:165-210 | The plan of encode, with every slot passed as new and a failed read taken for an empty context |
| ContextVector.PlanForUpdate | packages/backend/src/automation/encoding.service.ts:453-485 | The plan of encodeUpdate, with only slots beyond the read context passed as new |
| ContextVector.ContextSurvivesExactly | packages/backend/src/automation/encoding.service.ts:165-210 | For any context read and any context the vault holds when the transaction is mined, entries without an override survive if and only if no transaction is asked for, or each of them is as read, and empty and below the mapping's end where nothing was read |
| ContextVector.ReportedHoldsExactly | packages/backend/src/automation/encoding.service.ts:199-209 | For any context read and any context at mining, a slot holds its reported value afterwards if and only if a transaction is asked for or its entry is as read |
| ContextVector.InsideExactly | packages/backend/src/automation/encoding.service.ts:165-210 | For any context read and any context at mining, a slot of the mapping is inside the context afterwards if and only if a transaction is asked for or it is inside already |
| ContextVector.ChangesReported | packages/backend/src/automation/encoding.service.ts:199-209 | One change is reported for each slot of the mapping, with the read value and the override applied to it |
| ContextVector.PlanSound | packages/backend/src/automation/encoding.service.ts:165-210 | With nothing between a successful read and the transaction, every slot is inside the context, every reported value is the one stored, and every entry without an override is unchanged |
| ContextVector.UnreadContextSurvivesExactly | packages/backend/src/automation/encoding.service.ts:176-195 | After a failed read the other entries survive if and only if no transaction is asked for, or they are all empty and below the mapping's largest index |
| ContextVector.FailedReadLosesEntry | packages/backend/src/automation/encoding.service.ts:176-195 | A concrete stored entry that a failed read erases |
| ContextVector.StaleReadLosesEntry | packages/contracts/contracts/StrategyBuilderVault.sol:284-300 | A concrete entry that an execution moves on after a successful read and the transaction sets back |
| TickMath.SqrtRatioAtTick | packages/backend/src/cockpit/pancakeswap/lp-math.ts:17-49 | The twenty conditional multiplications compute the price of the tick and refuse exactly the ticks out of range |
| TickBase.MultiplierIsNearest | packages/backend/src/cockpit/pancakeswap/lp-math.ts:20-43 | Each of the twenty multipliers is 2^128 * 1.0001^(-2^k / 2) rounded to the nearest integer |
| TickBase.RatioFollowsBase | packages/backend/src/cockpit/pancakeswap/lp-math.ts:20-43 | Before inversion, the square of a tick's ratio is 1.0001^-t up to one part in 2^57, for every tick in range |
| TickBase.PriceFollowsBase | packages/backend/src/cockpit/pancakeswap/lp-math.ts:17-49 | Every price is the square root of 1.0001^tick in Q96, rounded up: the squares of the price and of the price less one enclose it up to one part in 2^56 |
| TickMath.PriceStrictlyMonotone | packages/backend/src/cockpit/pancakeswap/lp-math.ts:17-49 | Over the whole range a higher tick has a strictly higher price |
| TickMath.PriceOrder | packages/backend/src/cockpit/pancakeswap/lp-math.ts:17-49 | Prices are ordered exactly as ticks are, and no two ticks share a price |
| TickMath.PriceRange | packages/backend/src/cockpit/pancakeswap/lp-math.ts:17-49 | Every price is positive, below 2^160 and between the two documented endpoint prices, which the endpoints have |
| TickMath.PriceOfZero | packages/backend/src/cockpit/pancakeswap/lp-math.ts:17-49 | Tick 0 is priced 2^96 |
| TickMath.PriceSigns | packages/backend/src/cockpit/pancakeswap/lp-math.ts:17-49 | Exactly the ticks up to 0 are priced at most 2^96 |
| TickMath.RatioGap | packages/backend/src/cockpit/pancakeswap/lp-math.ts:17-49 | Different absolute ticks have ratios at least 64 * 2^32 apart before the final shift |
| BitProduct.FoldGap | packages/backend/src/cockpit/pancakeswap/lp-math.ts:22-44 | For any multipliers whose carries drop the value, a larger bit pattern has a product smaller by at least the table's gap |
| LiquidityAmounts.GetAmountsForLiquidity | packages/backend/src/cockpit/pancakeswap/lp-math.ts:65-86 | The three branches compute the branch-free definition, whichever order the bounds come in; division by zero happens exactly at price and bound 0 |
| LiquidityAmounts.Amount0IsOneFloor | packages/backend/src/cockpit/pancakeswap/lp-math.ts:51-59 | The two chained divisions equal one floor of the exact quotient |
| LiquidityAmounts.Amount0IsFloor | packages/backend/src/cockpit/pancakeswap/lp-math.ts:51-54 | For prices in either order, token 0 is the largest number of units whose product with both prices is at most liquidity * 2^96 times their distance |
| LiquidityAmounts.Amount1IsFloor | packages/backend/src/cockpit/pancakeswap/lp-math.ts:56-59 | For prices in either order, token 1 is the largest number of units whose product with 2^96 is at most liquidity times their distance |
| LiquidityAmounts.Amount0Split | packages/backend/src/cockpit/pancakeswap/lp-math.ts:51-59 | Splitting a range loses 0 or 1 unit of token 0 |
| LiquidityAmounts.Amount1Split | packages/backend/src/cockpit/pancakeswap/lp-math.ts:51-59 | Splitting a range loses 0 or 1 unit of token 1 |
| LiquidityAmounts.PositionSplit | packages/backend/src/cockpit/pancakeswap/lp-math.ts:65-86 | At every price a position and its two parts hold the same up to one unit of each token |
| LiquidityAmounts.PriceMovesHoldings | packages/backend/src/cockpit/pancakeswap/lp-math.ts:65-86 | A rising price never raises token 0 and never lowers token 1, across all branches |
| LiquidityAmounts.WideningKeepsHoldings | packages/backend/src/cockpit/pancakeswap/lp-math.ts:65-86 | A wider range never holds less of either token |
| LiquidityAmounts.OutOfRangeHoldsOneToken | packages/backend/src/cockpit/pancakeswap/lp-math.ts:65-86 | At and beyond an end of the range one token is zero and the other is the whole range's amount, so neighbouring branches agree |
| LpPosition.BuildLpPosition | packages/backend/src/cockpit/pancakeswap/lp-position.ts:38-62 | The amounts and the flag of the read, refused exactly if a tick is out of range |
| LpPosition.InRangeAgreesWithPrices | packages/backend/src/cockpit/pancakeswap/lp-position.ts:38-48 | With the price below the upper end of the current tick's interval, the tick-based flag holds exactly if the price is between the two bounds' prices |
| LpPosition.InRangeAgreesExactly | packages/backend/src/cockpit/pancakeswap/lp-position.ts:38-48 | Where the price is in the current tick's interval, both ends included, flag and prices agree if and only if not both the price is the upper end of the current tick's interval and the range, not empty, starts or ends at the next tick |
| LpPosition.OutOfRangeHasOneToken | packages/backend/src/cockpit/pancakeswap/lp-position.ts:38-48 | With ordered ticks, out of range the right one of the two amounts is 0 |
| LpPosition.OneTokenExactly | packages/backend/src/cockpit/pancakeswap/lp-position.ts:38-48 | Out of range implies a zero amount for every liquidity if and only if the ticks are ordered or the price is outside the swapped range |
| LpPosition.OneTokenDecided | packages/backend/src/cockpit/pancakeswap/lp-position.ts:38-48 | For one position it holds if and only if that condition does or one of the two exact quotients is below one unit |
| LpPosition.SwappedTicksHoldBothTokens | packages/backend/src/cockpit/pancakeswap/lp-position.ts:38-48 | Concrete swapped ticks that hold both tokens out of range |
| LpPosition.WideningTicksKeepsAmounts | packages/backend/src/cockpit/pancakeswap/lp-position.ts:38-48 | Raising the upper tick or lowering the lower never lowers either amount |
| LpPosition.CurrentTickUnique | packages/backend/src/cockpit/pancakeswap/lp-position.ts:38-48 | A consistent price determines the current tick |
| Amount.ToBaseUnitsExact | packages/shared/src/amount.ts:14-32 | Exactly the amounts within the token's precision convert, to the digits of the number they denote |
| Amount.AmountExactly | packages/shared/src/amount.ts:12-21 | An amount is a non-empty digit string, or two of them around one dot, and nothing else |
| Amount.FromBaseUnitsPrints | packages/shared/src/amount.ts:34-46 | Printing any natural number of base units gives its canonical decimal |
| Amount.BaseUnitsRoundTrip | packages/shared/src/amount.ts:14-46 | toBaseUnits after fromBaseUnits is the identity, for all naturals and all decimals |
| Amount.TypedRoundTrip | packages/shared/src/amount.ts:14-46 | fromBaseUnits after toBaseUnits gives the one canonical form of the typed amount |
| Amount.TypedRoundTripIdempotent | packages/shared/src/amount.ts:14-46 | Converting the canonical form again changes nothing |
| Amount.CanonicalUnique | packages/shared/src/amount.ts:34-46 | Two canonical decimals of the same number are the same text |
| Amount.BaseUnitsOrder | packages/shared/src/amount.ts:14-32 | Base units are ordered and equal exactly as the typed numbers are |
| TokenUtils.CheckMaxDecidesDecimals | packages/mcp/src/token-utils.ts:18-31 | The check accepts if and only if the token has no limit or the decimal amount is convertible and at most the limit |
| TokenUtils.AnyCaseMeetsItsLimit | packages/mcp/src/token-utils.ts:18-31 | However the token's address is capitalised, the check is that of the limit configured under its lower-case form |
| Validation.ValidateParams | packages/shared/src/validation.ts:328-389 | The loop reports the errors of every property in order, none exactly if every property is fine |
| Validation.MissingIsReported | packages/shared/src/validation.ts:337-354 | An unset field is reported exactly if it is required and no slot field; amounts with a zero toggle are left to their own rule |
| Validation.FriendlyAmountAcceptedExactly | packages/shared/src/validation.ts:117-163 | A typed amount is accepted if and only if its zero toggle is on, or it is a decimal, positive where zero has a toggle, with no more places than its token's known decimals |
| Validation.RawAmountAcceptedExactly | packages/shared/src/validation.ts:103-115 | Raw base units are accepted if and only if BigInt reads them as a natural of at most 256 bits |
| Validation.FriendlyDurationAcceptedExactly | packages/shared/src/validation.ts:300-315 | A typed duration is accepted if and only if it is positive and in minutes, hours, days or weeks |
| Validation.RawSecondsAcceptedExactly | packages/shared/src/validation.ts:317-326 | Raw seconds are accepted if and only if they are a positive whole number, a text that BigInt or a decimal literal reads as one, or true |
| Validation.ZeroAmountIsZero | packages/shared/src/validation.ts:93-159 | The all-zeros pattern recognises exactly the amounts that denote zero |
| Validation.RawGuardOnNatural | packages/shared/src/validation.ts:93-159 | The raw guard accepts a printed natural exactly below 2^256 |
| Validation.RawSecondsAreWhole | packages/shared/src/validation.ts:317-325 | A decimal text is accepted as raw seconds if and only if it denotes a positive whole number |
| EncodeBoundary.MapParamsToRaw | packages/shared/src/encode-boundary.ts:113-137 | Succeeds exactly if every set component maps; the result has exactly the set components, each mapped |
| EncodeBoundary.AmountMapsExactly | packages/shared/src/encode-boundary.ts:78-101 | An amount maps to 0 with its zero toggle on, and else to the base units of the typed text in the decimals of its token, exactly if those are known and the text is a decimal of no more places |
| EncodeBoundary.HealthFactorMapsExactly | packages/shared/src/encode-boundary.ts:72-76 | A health factor maps to its number of 10^-18, exactly if it is a decimal of at most 18 places; an empty one to 0 |
| EncodeBoundary.DurationMapsExactly | packages/shared/src/encode-boundary.ts:66-70 | A duration maps to 60, 3600, 86400 or 604800 seconds per minute, hour, day or week, and fails for any other unit |
| EncodeBoundary.FriendlyAmountIsRawAmount | packages/shared/src/encode-boundary.ts:58-103 | A non-empty amount with known decimals that friendly mode accepts always maps, and the raw guard accepts the image exactly below 2^256, always with the zero toggle on |
| EncodeBoundary.FriendlyAmountMapsExactly | packages/shared/src/encode-boundary.ts:58-103 | A friendly-accepted amount field maps if and only if it is unset, or its zero toggle is on, or it is neither empty nor null and its token's decimals are known |
| EncodeBoundary.FriendlyStepMapsExactly | packages/shared/src/encode-boundary.ts:113-137 | A friendly-accepted step maps if and only if each amount field it maps meets that condition and each health factor it maps is unset, empty or a decimal of at most 18 places; all other fields always map |
| EncodeBoundary.EmptyAmountDoesNotMap | packages/shared/src/encode-boundary.ts:78-99 | A concrete step with an optional amount left empty that friendly mode accepts and the mapper rejects |
| EncodeBoundary.UnknownTokenDoesNotMap | packages/shared/src/encode-boundary.ts:88-98 | A concrete step with an amount in a token of unknown decimals that friendly mode accepts and the mapper rejects |
| EncodeBoundary.FriendlyDurationIsRawDuration | packages/shared/src/validation.ts:292-326 | Whole durations accepted in friendly mode are accepted raw, as 60, 3600, 86400 or 604800 times the amount |
| SummaryDecoder.DecodeRawGraph | packages/mcp/src/summary-decoder.ts:42-119 | Fails exactly if some known node has unreadable base units; else the summary has one step per known node, in order, as decoded from that node, and warns of exactly the unknown nodes, the amounts without decimals and the unmarked recipients |
| SummaryDecoder.StepsDecoded | packages/mcp/src/summary-decoder.ts:51-106 | The loop over the nodes decodes each known node once, in order, and stops exactly for an unreadable one |
| SummaryDecoder.RecipientGapsFound | packages/shared/src/step-roles.ts:61-75 | The recipient warnings name exactly the address components with a recipient's name that no node's step marks as recipient |
| SummaryDecoder.GapExactly | packages/shared/src/step-roles.ts:29-75 | A component is such a gap exactly if it is an address named recipient, to, receiver or destination, in any case, whose property is not marked as recipient |
| SummaryDecoder.DecodedFields | packages/mcp/src/summary-decoder.ts:59-80 | A decoded step has its node's kind and its type's name; its direction and recipient are those of the last field that sets them, none exactly without such a field |
| SummaryDecoder.TokenDecoded | packages/mcp/src/summary-decoder.ts:82-104 | Its token is that of the last amount's own token field where that is set, and else the first token set |
| SummaryDecoder.AmountDecoded | packages/mcp/src/summary-decoder.ts:82-100 | Where the last amount names its token, the amount shown is its base units in that token's decimals, whatever the capitals of the address, and nothing if they are unknown |
| SummaryDecoder.LastAmountShownOrWarned | packages/mcp/src/summary-decoder.ts:76-100 | Base units in the last amount field of a step are shown with an amount or raise a warning, never both and never neither; where they are unset there is none of it |
| SummaryDecoder.NoAmountDroppedExactly | packages/mcp/src/summary-decoder.ts:76-100 | Every amount of a step that is set is shown or warned about if and only if every amount field that has a later one is unset |
| SummaryDecoder.EarlierAmountIsInvisible | packages/mcp/src/summary-decoder.ts:76-100 | Step and warnings are the same whatever an amount field with a later one holds, unless the last amount names it as its token field |
| SummaryDecoder.SecondAmountHidesFirst | packages/mcp/src/summary-decoder.ts:76-100 | A concrete step with two token amounts whose first amount is neither shown nor warned about, with the second zero and with the second unset |
| SummaryDecoder.EveryRecipientShownExactly | packages/mcp/src/summary-decoder.ts:72-73 | Every recipient of a step is shown if and only if all its recipient fields that are set have the same text |
| SummaryDecoder.DecodeStep | packages/mcp/src/summary-decoder.ts:51-106 | The locals of the field loop give the decoded step: token, amount, recipient, direction |
| SummaryDecoder.ConfirmedIsTyped | packages/mcp/src/summary-decoder.ts:82-100 | Mapping what was typed in a step's last amount field to raw and decoding it shows its canonical decimal, 0 with the zero toggle on |
| SummaryDecoder.SummaryShowsTyped | packages/mcp/src/summary-decoder.ts:51-106 | In the summary of a whole graph the step of a typed node, at its place among the known ones, shows the canonical decimal of what was typed in its last amount field |
| SummaryDecoder.ShownAlikeIffSameNumber | packages/mcp/src/summary-decoder.ts:82-100 | Two amounts typed in the last amount fields of whichever steps are decoded alike if and only if they denote the same number |
| WorkerPool.Workers.Run | packages/backend/src/cockpit/concurrency.ts:12-18 | A worker's code between two awaits is one step of the pool |
| WorkerPool.Workers.MapAll | packages/backend/src/cockpit/concurrency.ts:5-22 | Whichever worker runs next, the pool ends with every index started once, in order, and finished |
| WorkerPool.BoundedAndOnce | packages/backend/src/cockpit/concurrency.ts:5-22 | In every interleaving no index is started twice and never more than limit calls are in flight, one for a limit below two; there are as many workers as that or as items, and none returns before every index is started |
| WorkerPool.OverWhenAllFinished | packages/backend/src/cockpit/concurrency.ts:10-21 | The pool is over exactly after items plus workers steps, in every interleaving, when every call has ended; until then some worker can run |
| Downsample.Thin | packages/backend/src/cockpit/history.ts:32-41 | Returns the points at strictly increasing indices: all of them within the limit, else exactly the limit, first and last included |
| Downsample.PickIsNearest | packages/backend/src/cockpit/history.ts:37-39 | Each picked index is the one nearest to the ideal position, halves rounded up |
| Downsample.EndsAreKept | packages/backend/src/cockpit/history.ts:37-39 | The first pick is the first point and the last pick the last |
| Downsample.StepsAreEven | packages/backend/src/cockpit/history.ts:37-39 | Neighbouring picks are the rounded-down or rounded-up step apart, the step itself if it is whole |
| Downsample.PicksIncrease | packages/backend/src/cockpit/history.ts:37-39 | Picks are strictly increasing |

## Left out

- Network and database clients, NestJS wiring, Socket.IO, authentication, frontend, deploy scripts and generated code.
- USD prices, token decimals lookup, profit and portfolio valuation: floating point fed from outside.
- Protocol-flow indexing: a guarded side branch that does not touch the modelled tables.
- IndexerService.Indexer.Tick: the timestamps of a window's blocks are read in one step, emission is not grouped by vault, and the timestamp stored beside the cursor is dropped; the timer, `onModuleInit` and `onModuleDestroy` are not modelled.
- IndexerTheorems.GasCompIsTheSettlement: speaks of a settlement by the row's own vault; when one transaction runs the same automation by the same executor twice the join cannot tell the two settlements apart, and the lemma promises one of them.
- EventMapper.BuildVaultEventRows: decoding of topics and data is abstract; a log carries its decoded event or is undecodable.
- IndexerProtocol: the deposit fee rate is an arbitrary number at each reading; nothing is said about which rate is right.
- FailureLedger.FailureStore.Ingest: revert decoding and the default of a missing timestamp happen before the report exists; a foreign vault address is None if it cannot be checksummed.
- Encoding.EncodingService.Encode: ABI bytes, checksums and the listing of active automations per slot; a step's data is the list of values handed to the coder. encodeParams runs the same value rules without the coder's range errors.
- ContextSlots.VaultRow.AllocateSlots: slot names that are property names of every JavaScript object, and the type and description kept beside a name; overlapping calls are in SlotRaces.
- VaultInterpreter.ExecuteAutomation: gas settlement and the reentrancy guard are outside; the condition, action and trigger-update calls are any functions of payload and context, the first two of which may revert, and an unknown automation id is no call at all.
- Validation.ValidateParams: rules of the other widgets (percentages, health factors, tick ranges, fee tiers, token selectors, Aave modes) are a function parameter; numeric values and friendly durations are whole, and a numeric text counts as its exact value, without the rounding of double precision above 2^53 or its overflow.
- Schema.ToLower: lower-cases ASCII letters only.
- SummaryDecoder.DecodeRawGraph: warnings carry the fields they are built from, not their wording, and the contract says which are raised but not their order; the `execution` field is passed through and dropped.
- EncodeBoundary.MapParamsToRaw: `mapGraphToRaw` applies it to every node and is not modelled, nor is `buildContextOverrides`; a health factor given as a fractional number is modelled as its text.
- WorkerPool.Workers.MapAll: `fn` never rejects; after a rejection the other workers go on while the caller has already failed.
- Downsample.Thin: the step is an exact rational; the source computes it in double precision.
- LpPosition.BuildLpPosition: fees, symbols, prices in USD and the share of the range are not modelled.
- `getContextSlots`, `encodeToggle`, `encodeExecute`, `isHistoryRange`, `rangeToCutoff`, the policy gate, drafts, confirmation tokens and catalogue checks: short single functions that would only add easy members.
