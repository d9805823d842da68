# PlatON-Go core, modelled in Dafny

This project models five state-heavy parts of the PlatON-Go node and proves what they promise, for
every input and every run:

1. **The parallel block executor** (`core/parallel_*.go`, `core/dag`): a block's transactions become a
   dependency graph, run in batches of independent transfers with each contract call as a barrier,
   and the results are folded back. The batched run, whatever the interleaving of its workers, is
   shown to end where running the same rules one by one ends; what a packer packed, a validator
   reproduces.
2. **The transaction pool** (`core/tx_pool.go`, `core/tx_list.go`, `core/tx_noncer.go`): pending and
   queued lists, lookup table, price index and virtual nonces stay consistent through every sequence
   of operations; the per-account lists refine a plain sorted sequence; `truncatePending` fills up to
   a common water level; the background scheduler coalesces requests without losing one.
3. **Canonical chain maintenance** (`core/blockchain.go`, `core/headerchain.go`): reorganisations keep
   the canonical map the ancestor path of the head, if it has one, and the transaction lookup exact.
4. **Two concurrent protocols** (`event/feed.go`, `core/chain_indexer.go`), as state machines over
   their atomic steps.
5. **Gas arithmetic** (`core/state_transition.go`, `core/gaspool.go`, `core/block_validator.go`).

`dafny verify dfyconfig.toml` covers the whole project.

## Layout

| files | what they hold |
|---|---|
| `Types` | transactions and shared values |
| `Dag`, `TxDag` | the layered graph and the dependency graph of a block |
| `Rules` | the per-transaction rules, the one-by-one run, and why independent steps commute |
| `Workers`, `Merge`, `Batch`, `Receipts` | workers in any interleaving, the merge of a batch, the records |
| `GasCoverage`, `Executor`, `Processor`, `Packing`, `Conservation` | when the pool is ample, the executor object, validation, packing, what is conserved |
| `IntrinsicGas`, `StateTransition`, `GasLimit` | gas arithmetic |
| `HeaderChain`, `BlockChain` | canonical chain |
| `Feed`, `ChainIndexer`, `Scheduler` | the protocols |
| `Heap`, `NonceOrder`, `TxSortedMap`, `TxList`, `PricedList` | the pool's lists (modules `SortedMap`, `AccountList` for the two in the middle) |
| `PoolBooks`, `PoolNonces`, `WaterFill`, `TxPool` | the pool's books, nonces, water level, and the pool object (module `TransactionPool`) |

## How to read the model

- Ledgers are maps from addresses to balance and nonce; accounts that are empty are absent. A contract
  call is an arbitrary deterministic function of the transaction, the ledger and its position.
- Workers, goroutines and timers are nondeterministic choice: a method that picks "any unfinished
  worker" is proved for every pick, a protocol is a set of atomic steps and a claim holds for every
  sequence of them. The block deadline may pass at any moment while a block is packed.
- Hashes identify what they are hashes of. The pool's table is keyed by the transaction itself; in the
  chain indexer a hash carries the parent and number of its header.
- The pool's fields are updated in place by the methods of a class; the account lists inside are
  values, and the class `TxList` is proved to compute the same functions on its heap, map and cache.
- Integers are unbounded except where the source's width matters: intrinsic gas, the gas pool, the
  gas-limit controller, section numbers and nonce bounds are written with their 64-bit limits.

## Where the code does not do what one might expect

- The gas-limit controller does not come into its range from every start (`GasLimit.SettlesIff`, for
  limits and ceilings up to 2^63 - 1). From 1024 on it does exactly if it starts in the range, or at 2048
  or more with a ceiling of at least 2047; otherwise an idle chain keeps it out (`GasLimit.StuckBetween`,
  `GasLimit.Stuck`). Below 1024 the decay wraps around, so that what should fall rises and what should
  rise falls (`GasLimit.Wrapped`): from below the range it falls to zero and is then set to the floor
  (`GasLimit.FallsIn`), and it comes into the range for good exactly if the ceiling is at least 1024.
- The running totals that `sortReceipts` writes are prefix sums exactly when no transaction with a
  receipt is listed twice, because a receipt is a shared object (`Receipts.PrefixSumsIffDistinct`;
  `Receipts.RepeatedReceipt` is a case where they are not).
- The fast path accepts transfers that `TransitionDb` refuses: it asks for the gas used rather than the
  gas limit (`StateTransition.FastPathAcceptsMore`); `StateTransition.FastPathRefines` says exactly when
  the two agree.
- A packed block can classify a transaction otherwise than the packer did, if it calls a contract whose
  creation was left out (`Packing.KindsMatchIff`). `Packing.ValidatedOtherwise` is a case in which
  validation then uses other gas than packing did; `Packing.ReplaysIffSelfContained` gives the exact
  condition on the candidates: none is a call only because another creates its target.
- The chain indexer rolls its stored sections back without its lock when the backend refuses a section.
  If a reorg's roll-back overlaps that one, sections can be counted that have no head
  (`ChainIndexer.OverlapLosesHeads`) or heads stay that are not counted (`ChainIndexer.OverlapBreaks`);
  any run that comes to such a refusal with two or more sections stored can go on to that
  (`ChainIndexer.RunBreaks`), and only with one stored is the overlap harmless
  (`ChainIndexer.OverlapHarmlessIff`). The links hold in every run without overlap, and in those in which
  every overlap begins with one section at most and a reorg down to nothing.
- `GetAncestor` takes the zero hash at a number above the head for a canonical block and answers with a
  block that is not its ancestor. It is asked so directly (`HeaderChain.MisledAbove`), or it comes to that
  itself, because a cached header is found whatever the number asked for: from a wrong number it can walk
  on below genesis (`HeaderChain.MisledByCache`). `HeaderChain.Misled` are exactly the inputs on which it
  errs. The callers in the repository, eth/handler.go:406 and 422, ask only for headers they hold, with
  their numbers.
- `reorg` followed by the insertion of the new head leaves stale numbers above it exactly when the new
  head is below the old one and its parent is canonical already (`BlockChain.ForkSettlesIff`).
  `WriteBlockWithState` ignores blocks that are not above the head, so it never comes to that.
- `WriteBlockWithState` does not compare a block's number with its parent's: a block that names the head
  as its parent and skips a number leaves a gap in the canonical map. So does one whose ancestors the
  reorganisation finds only because they are cached, since a cached block is found whatever the number
  asked for (`BlockChain.GapThroughCache`). A block that becomes the head keeps the map an ancestor path
  exactly if it has one; which blocks without one are accepted is `BlockChain.Reachable`, a condition on
  store, cache and head; and there is none where the children of cached and of canonical blocks have the
  right numbers (`BlockChain.NumberedReach`).
- In the pool the virtual nonce of an account may lie below its state nonce: where state nonces never
  fall, exactly from a reset on in which one of its transactions below the new state nonce was pending and
  was removed before it was demoted
  (`TransactionPool.TxPool.RunReset`, `TransactionPool.TxPool.Perform`). Until the next reset it has nothing
  pending then, and nothing it queues is promoted, although it could be executed (`PoolNonces.NoneReady`;
  `PoolNonces.FallsBehind` is a case).
- The price index may hold a transaction twice, once it was removed and came back soon
  (`PricedList.TxPricedList.Relist`), and discarding counts the slots of both entries: a pool that is to
  free two slots may free one and keep a remote transaction (`PricedList.CountsTwice`). The slots counted
  are freed if and only if no entry is discarded twice (`PricedList.CountedOnceIff`), and discarding frees
  the slots wanted, whatever their number, exactly if no remote transaction that is in the index twice is
  worse than another, or as bad (`PricedList.FreesIff`).

## Model

| member | source | states |
|---|---|---|
| DagGraph.Dag.AddEdge | core/dag/dag.go:41-45 | for any two vertices the in-degree of the target grows by one for every call, duplicates included, so in-degrees stay the number of edges in; edges to higher vertices keep the graph acyclic |
| DagGraph.Dag.Next | core/dag/dag.go:59-81 | hands out exactly the vertices not handed out yet whose predecessors all were, each once, and a non-empty layer while vertices are left |
| DagGraph.LayerProgress | core/dag/dag.go:55-81 | in a graph whose edges go upwards the next layer is never empty while a vertex is left, so walking the graph terminates |
| TxDependencies.TxDag.MakeDagGraph | core/parallel_tx_dag.go:24-86 | every edge joins two conflicting transactions; with resolved senders every two conflicting transactions are joined by a path; the contract set holds exactly the calls |
| TxDependencies.TxDag.IsContractCall | core/parallel_executor.go:254-266 | a transaction is a call when it creates a contract or goes to code known before the block or created earlier in it, and creations are remembered |
| TxDependencies.CallOrdered | core/parallel_tx_dag.go:37-52 | after a call is linked, every earlier transaction has a path to it |
| TxDependencies.TransferOrdered | core/parallel_tx_dag.go:53-71 | after a transfer is linked, every earlier transaction it shares an address with, or that is a call, has a path to it |
| TxDependencies.LayerIndependent | core/parallel_executor.go:106-115 | in a layer no two members conflict, a call is alone, and whatever conflicts with a member and is earlier was emitted before |
| Rules.StepsCommute | core/parallel_executor.go:173-231 | two transactions that do not conflict can be run in either order with the same ledger, gas, earnings and outcomes |
| Rules.OrderIrrelevant | core/parallel_executor.go:94-161 | every order of a block that keeps conflicting transactions in block order gives the totals of the block-order run |
| Workers.RunWorkers | core/parallel_executor.go:116-147 | workers on disjoint accounts, moved step by step in any interleaving, each end with what they would have done alone |
| Workers.AdvanceTracks | core/parallel_executor.go:173-231 | each step of a worker (check, debit, credit, finish) keeps it on the course of the one-shot transfer |
| Merge.MergedTransfer | core/state/statedb.go:1163-1191 | merging the two objects of a finished transfer into the state gives the ledger after that transfer, self-transfers and emptied accounts included |
| Merge.MergeStep | core/parallel_context.go:206-248 | merging the next member brings its accounts to where the one-by-one run has them and leaves the accounts of members still waiting as they were |
| Batch.MergedBatch | core/parallel_context.go:206-248 | merging a whole batch brings ledger, gas, earnings, receipts and packed list to where running its decided members one by one brings them |
| Batch.BatchDone | core/parallel_executor.go:116-148 | from any end of the workers, folding the batch keeps the context equal to the one-by-one run, with the gas of workers that gave up accounted for |
| Batch.CallDone | core/parallel_executor.go:233-252 | applying a call keeps the context equal to the one-by-one run that includes it |
| Executor.ParallelContext.BatchMerge | core/parallel_context.go:206-248 | folds the results of a batch member by member into the context, as the recursive specification does |
| Executor.ParallelContext.Dispatch | core/parallel_executor.go:116-145 | each member gets a worker with its intrinsic gas reserved, or a failure; reserved gas leaves the pool; with the batch's gas in the pool none is turned away for want of gas |
| Executor.ParallelContext.ExecuteBatch | core/parallel_executor.go:115-149 | running a batch appends its decided members to the run the context agrees with; outside packing that is the whole batch unless the pool was too small |
| Executor.ParallelContext.ExecuteContract | core/parallel_executor.go:233-252 | a call whose gas limit is in the pool is appended to the run; one that is not, or past the deadline, changes nothing |
| Executor.ParallelContext.RunBlock | core/parallel_executor.go:94-151 | the layers are run to the end or the deadline; the context is that of a run in an order that keeps conflicts; in validation it is the block-order run unless gas ran out, and with an ample pool it does not |
| Executor.ParallelContext.ExecuteTransactions | core/parallel_executor.go:94-161 | as RunBlock, and the producer is credited once with the fees of all transfers |
| Executor.ParallelContext.GasAccounted | core/parallel_context.go:206-248 | between batches, pool plus gas used plus gas burnt by given-up calls plus gas lost with workers is what the block started with |
| GasCoverage.BatchCovered | core/parallel_executor.go:131-145 | when the pool is ample, it holds the gas that a batch reserves for all its members at once |
| GasCoverage.CallCovered | core/parallel_executor.go:233-252 | when the pool is ample, a call finds its whole gas limit in it, in whatever order the batches came |
| GasCoverage.CoveringPoolIsEnough | core/parallel_executor.go:131-145 | a pool that covers the gas of all transactions is ample |
| GasCoverage.BoundedAgrees | core/parallel_executor.go:131-145 | with an ample pool the one-by-one run with gas checks is the one without |
| Receipts.SortReceipts | core/parallel_state_processor.go:97-116 | lists the receipts in block order, each showing the running total of its last place in the list |
| Receipts.PrefixSumsIffDistinct | core/parallel_state_processor.go:97-116 | the totals written are the prefix sums in block order if and only if no hash is listed twice |
| Receipts.RepeatedReceipt | core/parallel_state_processor.go:97-116 | a hash listed twice: both places show the total of the second |
| Processor.Process | core/parallel_state_processor.go:29-95 | for every interleaving, with an ample pool, ledger and gas used are those of the one-by-one run with deferred fees, and so are the sorted receipts if no hash is listed twice |
| Processor.SortedIsBlockOrder | core/parallel_state_processor.go:97-116 | sorting the records of any conflict-keeping run gives the receipts of the block-order run |
| Packing.WinnersReplay | core/parallel_executor.go:106-161 | replaying in block order only the transactions that succeeded makes each succeed again, with the same ledger, gas and earnings |
| Packing.PackThenValidate | core/parallel_executor.go:94-161 | the packed list is the successes of a conflict-keeping run with any timeouts, failures and popped senders; validating it from the same state gives that run's ledger and gas, with a receipt for every packed transaction, whenever each is classified as it was while packing; candidates of which none relies on another always are |
| Packing.KindsMatchIff | core/parallel_executor.go:254-266 | a packed transaction is classified as it was while packing if and only if it does not call an address created only by a transaction that was left out |
| Packing.CreationsPacked | core/parallel_executor.go:254-266 | it is enough that every creation a packed transaction relies on is packed too |
| Packing.SelfContainedIff | core/parallel_executor.go:254-266 | whatever is packed of the candidates keeps its classification if and only if none of them is a call only because another creates its target |
| Packing.ReplaysIffSelfContained | core/parallel_executor.go:94-161 | exactly under that condition on the candidates does everything that can be packed of them replay, for every machine, ledger and order |
| Packing.ValidatedOtherwise | core/parallel_executor.go:94-161 | a refused creation and a transfer to its address: packed for 29000 gas, validated for 21000 |
| Conservation.GasConserved | core/parallel_context.go:206-248 | over any run, pool plus gas used plus gas bought by calls that then failed is constant |
| Conservation.CoinsConserved | core/parallel_executor.go:197-229 | over any run of transfers, the balances plus the deferred fees are constant |
| Conservation.CoinsPaidOut | core/parallel_executor.go:154-157 | once the fees are credited the ledger holds as much as before the block |
| Conservation.NoncesCount | core/parallel_executor.go:197-229 | over any run of transfers, an account's nonce grows by the number of its successful transactions |
| IntrinsicGas.Compute | core/state_transition.go:116-156 | the result is the exact sum, and an error is returned exactly when that sum exceeds 64 bits |
| StateTransition.GasPool.AddGas | core/gaspool.go:29-35 | adds the amount, or refuses exactly when 64 bits would overflow |
| StateTransition.GasPool.SubGas | core/gaspool.go:39-45 | takes the amount out, or refuses exactly when there is less and changes nothing |
| StateTransition.Transition.BuyGas | core/state_transition.go:190-203 | succeeds exactly when balance and pool cover the gas limit, and otherwise changes nothing |
| StateTransition.Transition.PreCheck | core/state_transition.go:205-218 | succeeds exactly when the nonce fits and gas can be bought |
| StateTransition.Transition.RefundGas | core/state_transition.go:307-322 | refunds the counter capped at half of the gas used, pays the rest back to the sender and returns it to the pool |
| StateTransition.Transition.TransitionDb | core/state_transition.go:227-305 | of the gas bought exactly the gas used stays out of the pool; a rejection before buying changes nothing, a later one keeps the whole limit; for a plain recipient the ledger is the closed form |
| StateTransition.FastPathRefines | core/parallel_executor.go:173-231 | the general way accepts exactly what the fast path accepts from senders who can pay value plus the whole gas limit, and then both have the same net effect and gas, self-transfers included |
| StateTransition.FastPathAcceptsMore | core/parallel_executor.go:173-231 | a transfer that the fast path accepts and the general way refuses |
| GasLimit.Absorbing | core/block_validator.go:109-152 | once the limit is between the lesser of floor and ceiling and the ceiling it stays there, whatever the blocks use, if the ceiling is at least the bound divisor |
| GasLimit.AbsorbingIff | core/block_validator.go:109-152 | exactly with such a ceiling is the range never left |
| GasLimit.Wrapped | core/block_validator.go:109-152 | below the bound divisor the decay wraps around to minus one: above the ceiling the limit rises, below the floor it falls, and from zero it is set to the floor |
| GasLimit.Approaches | core/block_validator.go:109-152 | from twice the bound divisor on, outside that range every block brings the limit strictly closer |
| GasLimit.Reached | core/block_validator.go:109-152 | from there, with a ceiling of at least one less, the limit is in the range after as many blocks as the distance |
| GasLimit.FallsIn | core/block_validator.go:109-152 | from below the bound divisor and the range it is in the range one block after as many as the limit, by way of zero |
| GasLimit.SettlesIff | core/block_validator.go:109-152 | from every start it settles in the range, whatever the blocks use, if and only if: below the bound divisor, the ceiling is at least that; from there on, it starts in the range, or at twice the bound divisor or more with a ceiling of at least one less |
| GasLimit.Stuck | core/block_validator.go:109-152 | with a lower ceiling a limit from there on never comes into the range |
| GasLimit.StuckBetween | core/block_validator.go:109-152 | between the bound divisor and its double an idle chain keeps a limit that is out of the range |
| HeaderChain.HeaderChain.WriteHeader | core/headerchain.go:132-189 | keeps the canonical map the ancestor path of the current header with nothing above it; the header becomes current exactly when it is higher, or as high and chosen |
| HeaderChain.HeaderChain.RewriteAncestors | core/headerchain.go:159-171 | walking back from a new head terminates and makes its ancestors canonical |
| HeaderChain.PathUnique | core/headerchain.go:159-173 | there is only one ancestor path to a head |
| HeaderChain.HeaderChain.GetAncestor | core/headerchain.go:319-371 | returns nothing, or exactly what following parent hashes that many times gives, if and only if the input is not the zero hash at a number that is not canonical with an ancestor number that is, nor leads there by a wrong number through cached headers and below genesis; for a known block nothing is returned only beyond genesis or when the budget is used up |
| HeaderChain.MisledAbove | core/headerchain.go:331-337 | above every head there are inputs of the first kind, and what they get is not an ancestor |
| HeaderChain.MisledByCache | core/headerchain.go:353-371 | genesis, cached and asked for at number two, is one of the second |
| BlockChain.BlockChain.Insert | core/blockchain.go:712-731 | numbers the block and moves the head; header and fast head follow exactly when the block was not canonical |
| BlockChain.BlockChain.GetBlock | core/blockchain.go:811-823 | a cached block is found whatever the number, another one only at its own; what is found is cached |
| BlockChain.BlockChain.FindFork | core/blockchain.go:1816-1860 | for heads of any numbers finds the block at which the walks down from both meet, and both branches down to it, if and only if every block on the way is on file at the number asked for or cached, unless the cache loses blocks meanwhile; and always, whatever it loses, if an ancestor path leads to the new head, and then the branches are those of the paths |
| BlockChain.StuckFails | core/blockchain.go:1818-1860 | a walk that misses a block or comes to the end of the other one cannot meet it in any other way |
| BlockChain.BlockChain.Reorg | core/blockchain.go:1760-1904 | moves canonical map, lookup entries and heads from one branch to the other, up to the new head's parent, and removes the numbers above up to the first gap; a failing reorganisation changes nothing but the cache |
| BlockChain.ForkSettlesIff | core/blockchain.go:1876-1904 | with the new head inserted too, the canonical map is its ancestor path if and only if it is not below the old head or its parent was inserted before it |
| BlockChain.BlockChain.WriteBlockWithState | core/blockchain.go:1403-1592 | a block that is not higher is ignored; one to which an ancestor path leads becomes the head, and the canonical map is that path with nothing above it; one without a path becomes the head if it names the head as its parent or the walks of a reorganisation meet, unless the cache loses blocks meanwhile, and then the canonical map is no ancestor path; any other is stored and refused; on a path the lookup holds exactly its transactions if and only if it repeats none |
| BlockChain.NumberedReach | core/blockchain.go:1403-1592 | where every child of a cached or of a canonical block has the number after it, whatever is accepted has a path |
| BlockChain.GapThroughCache | core/blockchain.go:1403-1592 | a block written before its parent, looked up, and then extended by one that skips a number: this becomes the head and the canonical map has a gap |
| BlockChain.ForkIndex | core/blockchain.go:1876-1894 | deleting the old branch's transactions that are not in the new one and writing the new one's leaves the lookup exact for the new path |
| BlockChain.ForkPath | core/blockchain.go:1876-1904 | inserting the new branch onto the old path and removing what lies above gives the ancestor path of each of its blocks |
| Feed.FindCase | event/feed.go:213-220 | the first index of a channel, or -1 |
| Feed.DeleteInPlace | event/feed.go:223-225 | the slice without the case, the others in order |
| Feed.DeactivateInPlace | event/feed.go:228-232 | swaps a case with the last active one, in every slice of the same array |
| Feed.RunKeeps | event/feed.go:72-190 | in every interleaving each subscribed channel is in exactly one list once, and every subscription of a send is open, delivered once, or removed |
| Feed.SendDelivers | event/feed.go:128-190 | a returning Send has delivered exactly once to every subscription it drained that was not removed meanwhile, at most once to each, to no other, and returns the count |
| Feed.NeverAfterUnsubscribe | event/feed.go:103-190 | nothing is delivered to a subscription whose Unsubscribe has completed, even if the channel is subscribed again |
| Feed.RemovalNeverMisses | event/feed.go:103-124 | a removal always finds its channel among the cases |
| ChainIndexer.ProcessSection | core/chain_indexer.go:385-415 | succeeds exactly when the backend does and the headers read, each from whatever the database held at that moment, form one parent-linked run on the previous head |
| ChainIndexer.SectionsLinked | core/chain_indexer.go:242-468 | in every interleaving of reorgs with unlocked builds in which roll-backs overlap at most where one section is left and all of it is to go, each stored head leads by parent hashes through its section to the currently stored head before it, and while no roll-back is on heads are stored for exactly the sections below the count; without overlaps, in the middle of one also for the section being removed |
| ChainIndexer.OverlapLosesHeads | core/chain_indexer.go:390-391 | a reorg's roll-back to any section that overlaps the unlocked one can end with that many sections counted and no head left |
| ChainIndexer.OverlapBreaks | core/chain_indexer.go:390-391 | with two or more sections stored and any reorg, it can end with a head left that is not counted |
| ChainIndexer.OverlapHarmlessIff | core/chain_indexer.go:456-468 | every schedule of the two roll-backs ends with the heads exact if and only if one section was stored |
| ChainIndexer.RunBreaks | core/chain_indexer.go:242-468 | every such run that comes to where the backend may refuse, with two or more sections stored, goes on to one that ends with wrong heads |
| ChainIndexer.TwoStored | core/chain_indexer.go:316-366 | there are such runs from a new indexer |
| ChainIndexer.RecordedIffUndisturbed | core/chain_indexer.go:346-366 | in such a run a build is recorded exactly when it succeeded and nothing stored before it was rolled back during it |
| ChainIndexer.CommitsIff | core/chain_indexer.go:348-349 | comparing the previous head, with the wrapped key for section zero, detects exactly a rollback |
| ChainIndexer.Indexer.SetValidSections | core/chain_indexer.go:456-468 | sets the count and removes exactly the heads above it |
| ChainIndexer.Indexer.NewHead | core/chain_indexer.go:242-299 | by itself a notification has the effect of the protocol's steps and cascades exactly when the cascaded head falls |
| ChainIndexer.ReorgSteps | core/chain_indexer.go:248-275 | a reorg's steps, when nothing interferes, come to that effect |
| ChainIndexer.Indexer.StartUpdate | core/chain_indexer.go:316-335 | notes the section after the stored ones and the head before it |
| ChainIndexer.Indexer.ResetFailed | core/chain_indexer.go:390-392 | when nothing interferes, a refused section leaves nothing stored |
| ChainIndexer.Indexer.FinishUpdate | core/chain_indexer.go:346-366 | performs the protocol's step for the end of a build and cascades exactly when it records it |
| Scheduler.OneAtATime | core/tx_pool.go:1193-1260 | at no moment of any history are two background runs in flight |
| Scheduler.PromotionServed | core/tx_pool.go:1171-1303 | when a promotion request's channel closes before shutdown, a run that began after the request has promoted its accounts as far as they had anything queued |
| Scheduler.ResetServed | core/tx_pool.go:1160-1303 | when a reset request's channel closes before shutdown, a run that began after it has reset from the first old head of its round to the last new one and promoted everything queued |
| Scheduler.LaunchIsDue | core/tx_pool.go:1193-1237 | a launch is due exactly while the coming round has an unserved request |
| Scheduler.HistoryKeeps | core/tx_pool.go:1193-1260 | what is pending is exactly the merge of the round's requests, and each run was launched with its round's |
| Scheduler.Loop.LaunchIfDue | core/tx_pool.go:1204-1216 | launches the next run with the merged requests exactly when one is due and none is active |
| Scheduler.Loop.OnReset | core/tx_pool.go:1219-1227 | merges a reset into the coming round and answers with its channel |
| Scheduler.Loop.OnPromote | core/tx_pool.go:1229-1237 | merges accounts into the coming round and answers with its channel |
| Scheduler.Loop.OnDone | core/tx_pool.go:1248-1249 | a run that has returned makes way for the next |
| Heap.Push | core/tx_list.go:39-41 | keeps heap order and adds exactly the entry |
| Heap.Pop | core/tx_list.go:43-49 | takes out an entry of least rank, keeps heap order and the other entries |
| Heap.Remove | core/tx_list.go:177-183 | takes out the entry at an index, keeps heap order and the other entries |
| Heap.Init | core/tx_list.go:115-121 | makes a heap of the same entries |
| SortedMap.TxSortedMap.Put | core/tx_list.go:74-80 | the map with the transaction at its nonce; index stays a heap of exactly the nonces |
| SortedMap.TxSortedMap.Forward | core/tx_list.go:85-99 | cuts the front of the sorted sequence at the threshold and returns it in order; a cache is cut with it |
| SortedMap.TxSortedMap.Filter | core/tx_list.go:106-142 | removes exactly what the predicate selects and lists each once |
| SortedMap.TxSortedMap.Cap | core/tx_list.go:146-167 | cuts the sorted sequence to its first `threshold` and returns the rest from the back; a cache is cut with it |
| SortedMap.TxSortedMap.Remove | core/tx_list.go:171-188 | removes the nonce, reports whether it was there |
| SortedMap.TxSortedMap.Ready | core/tx_list.go:197-212 | takes out the run of consecutive nonces from the first, if that is at most `start`, in order |
| SortedMap.TxSortedMap.Flatten | core/tx_list.go:219-240 | the sorted sequence, from the cache if there is one |
| SortedMap.TxSortedMap.LastElement | core/tx_list.go:244-247 | the transaction with the highest nonce |
| NonceOrder.FlatUnique | core/tx_list.go:219-229 | any listing of the contents in increasing order is the sorted sequence |
| NonceOrder.FlatSplit | core/tx_list.go:85-99 | splitting the contents at a nonce splits the sorted sequence there |
| AccountList.TxList.Add | core/tx_list.go:282-307 | inserts unless a transaction with the nonce is not outbid by the price bump, returns the one replaced, keeps the caps |
| AccountList.TxList.Filter | core/tx_list.go:325-354 | the result of a full filter, also when the caps let it be skipped: dropped and invalidated transactions each listed once |
| AccountList.TxList.Remove | core/tx_list.go:365-376 | removes the nonce and, in a strict list, whatever comes after, each listed once |
| AccountList.SkippingIsExact | core/tx_list.go:325-332 | a filter skipped for the caps would have removed nothing, and caps keep bounding every transaction |
| AccountList.StrictKeepsBelow | core/tx_list.go:341-352 | a strict filter keeps exactly the nonces below the lowest it removed for cost or gas |
| PricedList.TxPricedList.Removed | core/tx_list.go:468-483 | counts removals until they exceed a quarter of the heap, and then rebuilds it to hold every pooled transaction once and nothing else; every live transaction stays in the heap either way |
| PricedList.TxPricedList.Underpriced | core/tx_list.go:518-540 | true exactly for a remote transaction no dearer than the minimum price over the whole non-empty pool |
| PricedList.TxPricedList.Discard | core/tx_list.go:544-588 | drops only remote entries of the heap, in order, none better than a remote one it keeps, until they make up the slots wanted or none is left, and none too many; dropping them frees these slots, or no remote one is left, if no remote transaction is in the heap twice while another is no worse; the slots wanted are capped by the number of remote entries exactly when there are locals; everything kept stays in the heap |
| PricedList.CountedOnceIff | core/tx_list.go:568-577 | the slots counted for the entries dropped are those the pool gets back if and only if no transaction is dropped twice, and otherwise more |
| PricedList.FreesIff | core/tx_list.go:544-588 | whatever the number wanted and the order among equals, the transactions dropped free the slots wanted or no remote one is left, if and only if no remote transaction is in the heap twice while another one is no worse |
| PricedList.CountsTwice | core/tx_list.go:544-588 | two entries of one transaction and one of a better: for two slots both entries are dropped, one slot is freed and the better one stays |
| PricedList.TxPricedList.Relist | core/tx_list.go:460-483 | a transaction removed while few are stale and put back has two entries |
| PricedList.TxPricedList.Cap | core/tx_list.go:487-514 | drops exactly the remote transactions below the price; everything kept stays in the heap |
| PricedList.RankIsPrice | core/tx_list.go:419-429 | the heap's rank orders by price and then by falling nonce |
| PoolBooks.EnqueueKeeps | core/tx_pool.go:851-881 | queueing a transaction whose nonce is not pending keeps the table the disjoint union of the lists |
| PoolBooks.EnqueueFree | core/tx_pool.go:851-881 | a demoted transaction is always accepted by the queue and replaces nothing |
| PoolBooks.PromoteFree | core/tx_pool.go:899-931 | a promoted transaction is always accepted by the pending list and replaces nothing |
| PoolBooks.CutPending | core/tx_pool.go:1126-1137 | removing a pending transaction leaves exactly those after it to be queued again |
| PoolNonces.CutKeeps | core/tx_pool.go:1126-1140 | cutting the pending list at a nonce and lowering the virtual nonce to it keeps the interval |
| PoolNonces.CutFalls | core/tx_pool.go:1126-1140 | after it, too, the virtual nonce is below the state nonce exactly if it was when the reset began or a pending transaction below the state nonce was removed since |
| PoolNonces.NoneReady | core/tx_list.go:197-212 | while the virtual nonce is below the state nonce nothing queued is ready, although the transaction at the state nonce would be |
| PoolNonces.FallsBehind | core/tx_pool.go:1126-1140 | state nonce 5, pending nonce 3 removed in a reset: the virtual nonce is 3 and a queued 5 is not ready |
| PoolNonces.ExtendKeeps | core/tx_pool.go:899-926 | promoting the transaction at the virtual nonce keeps the interval |
| PoolNonces.ResetFrom | core/tx_pool.go:1417-1419 | moving to a state with no lower nonces leaves what is pending above it a run from the new state nonce |
| PoolNonces.DemoteSettles | core/tx_pool.go:1675-1721 | demotion leaves a run from the state nonce that can be paid for, so there is no gap in front |
| PoolNonces.FinishSettles | core/tx_pool.go:1305-1310 | setting the virtual nonce after the last pending transaction restores the interval |
| TransactionPool.TxPool.LookupRemove | core/tx_pool.go:1891-1899 | takes a transaction that is in the table out of it and out of the slot count |
| TransactionPool.TxPool.SetNonceIfLower | core/tx_noncer.go:68-79 | the virtual nonce becomes the lesser of the two, for that account only |
| TransactionPool.TxPool.EnqueueTx | core/tx_pool.go:851-881 | inserts into the queue unless not outbid; table, slots and price index follow |
| TransactionPool.TxPool.PromoteTx | core/tx_pool.go:899-931 | inserts into the pending list and moves the virtual nonce, or drops the transaction if it does not outbid |
| TransactionPool.TxPool.RemoveTx | core/tx_pool.go:1109-1154 | takes exactly this transaction off the table; a pending one is cut out with those after it queued again and the virtual nonce lowered to it, a queued one leaves its queue only, an unknown one changes nothing; all invariants are kept |
| TransactionPool.TxPool.MakeRoom | core/tx_pool.go:772-798 | refuses exactly a remote transaction no dearer than all of a full pool; otherwise the worst remote entries of the price index go, none better than a remote one that stays, until they make up the slots needed, or no remote one is left, or (with local accounts) as many slots as there were remote ones; that many slots become free if the index has no remote transaction twice that another is no worse than |
| TransactionPool.TxPool.Place | core/tx_pool.go:800-843 | replaces the pending transaction with the nonce if it is outbid, otherwise queues unless the queued one is not outbid; the books after are exactly those, and the sender becomes local only on queueing |
| TransactionPool.TxPool.Add | core/tx_pool.go:753-846 | says exactly when a transaction is known, invalid or too cheap, which change nothing; otherwise, once there is room, made as above, it is placed as above; a pool that is not full loses nothing else, a full one only remote transactions no better than the remote ones it keeps; all invariants are kept |
| TransactionPool.TxPool.AddTxs | core/tx_pool.go:1070-1082 | the accounts reported as dirty are exactly the senders of the transactions added without replacing one |
| TransactionPool.TxPool.PromoteReady | core/tx_pool.go:1481-1496 | exactly the run that starts at or below the virtual nonce becomes pending, all of it, the virtual nonce ends past it, the table does not change |
| TransactionPool.TxPool.PromoteAccount | core/tx_pool.go:1454-1529 | of what is queued and neither too old nor unaffordable the ready run is pending and the rest queued, cut to the limit if the account is remote; other accounts are untouched; all invariants are kept |
| TransactionPool.TxPool.PromoteExecutables | core/tx_pool.go:1448-1529 | so for every account listed, in any order, and no other account changes |
| TransactionPool.TxPool.DemoteAccount | core/tx_pool.go:1675-1729 | the account keeps of its pending transactions what is neither too old nor after an unaffordable one; what was invalidated, or all if the one at the state nonce is missing, is queued; other accounts are untouched |
| TransactionPool.TxPool.DemoteUnexecutables | core/tx_pool.go:1675-1729 | so for every account; and after a reset to no lower nonces every account's pending nonces run from its state nonce |
| WaterFill.Truncate | core/tx_pool.go:1534-1623 | which accounts lose a transaction, in order: local ones none, every other ends with the lesser of what it had and a common level, the highest that fits if anything is dropped |
| WaterFill.Equalize | core/tx_pool.go:1560-1591 | evening out the offenders before the last stays at a common level and stops at the last one's length or at the limit |
| WaterFill.LastPhase | core/tx_pool.go:1594-1621 | lowering all offenders together ends at the limit or at the allowance |
| TransactionPool.TxPool.TruncatePending | core/tx_pool.go:1534-1623 | local accounts keep theirs, every other the lowest nonces, as many as the lesser of its own number and the level, the highest level that fits if anything is dropped; the limit is met or no remote account has more than its allowance; invariants kept |
| TransactionPool.TxPool.TruncateQueue | core/tx_pool.go:1626-1670 | the queue meets its limit exactly if it exceeded it, or only local accounts have any; every account keeps its lowest nonces, local queues all; invariants kept |
| TransactionPool.TxPool.SetGasPrice | core/tx_pool.go:572-581 | removes exactly the remote transactions below the price; invariants kept |
| TransactionPool.TxPool.FinishReset | core/tx_pool.go:1305-1310 | the virtual nonce of every account with pending transactions is right after its last one, no other is set, and the interval from state nonce to virtual nonce is restored for every account |
| TransactionPool.TxPool.Rebuild | core/tx_pool.go:1290-1299 | the accounts to promote are promoted, then every account is demoted as the new state demands |
| TransactionPool.TxPool.RunReset | core/tx_pool.go:1263-1310 | a reset keeps the partition always, and the interval if no state nonce fell; then the accounts with a virtual nonce below the state nonce are exactly those of which a pending transaction below the new state nonce was removed before demotion, and if the head stays those that were so before; the pool ends within its limits, with virtual nonces past the last pending ones |
| TransactionPool.TxPool.Perform | core/tx_pool.go:486-1729 | any operation does, and only a reset changes which accounts these are |
| TransactionPool.SettledIntervals | core/tx_noncer.go:47-79 | in a settled pool pending nonces run from state nonce to virtual nonce, which is below the state nonce for exactly these accounts |
| TransactionPool.TxPool.RunPromotion | core/tx_pool.go:1263-1303 | a run without a reset keeps partition and interval and ends within the limits |
| TransactionPool.TxPool.Run | core/tx_pool.go:486-1729 | over any sequence of operations, forks and resets included: the table is the disjoint union of pending and queued, no nonce is in both, slots are the sum, every transaction is in the price index; if state nonces never fall, pending nonces are exactly those from state nonce to virtual nonce |

## Left out

- Consensus, the EVM and WASM machines, tries, the snapshot database and the built-in contracts: a call is one deterministic function.
- Signatures, hashing and encoding: senders are given and resolvable, hashes are identities.
- Addresses that gain code by creations inside a contract call of the same block: the classification of a block's transactions is fixed.
- A nonce of 2^64 - 1 in the executor: nonces there are unbounded.
- The logs and bloom filters of receipts, and the block hash they carry: only hash, gas used and running total are kept.
- Fast sync, the ancient store, rewinding (`SetHead`) and background pruning of the transaction index.
- A channel subscribed to a feed twice at the same time.
- `InsertHeaderChain` and batches of blocks: they repeat the single write.
- Total difficulty: the code orders blocks by number.
- Which blocks and headers a cache drops when it is full: any, at any addition. Hashes are ordered so that parents come first, as no block can hold its own hash, and no block is the parent of genesis.
- Checkpoints of the chain indexer, its event loop and its children: a child is another indexer with arbitrary notifications. In a roll-back, testing the count, lowering it, removing the head it names and assigning it are one step each, seen by all in one order.
- The pool's journal, heartbeats, the `knowns` filter, metrics, events, the promotion cache of `addTxs` and the signer switch; which account goes first in `truncateQueue` is left open.
- The checks of a transaction that only look at the transaction (`validateTx`: signature, intrinsic gas, payload of built-in contracts) are one Boolean.
- TransactionPool.TxPool.Run: the pool holds its account lists as values, so sharing of list objects between maps is not modelled; `AccountList.TxList` shows that the list object computes the same functions.
- WaterFill.Truncate: decides on the lengths of the lists and lists the drops in order, which the pool then carries out one by one; the source does both in one loop.
- Heap.Push: the heap operations belong to Go's container/heap; they are modelled here on sequences, by its algorithm.
- The capacity hints of `Discard` and the counting of `stales`: the counter has no meaning beyond the moment of a rebuild.
- The tables of queued announcement events in the scheduler, and shutdown of a run in flight.
