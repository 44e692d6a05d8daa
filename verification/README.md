# Verification of the MeshBox core

A Dafny model of the stateful core of the MeshBox node, a Go fork of
go-ethereum, with proofs of what that code keeps.  Seven components are
modelled:

- **Binary Merkle tree hasher** (`Bmt*.dfy`).  The concurrent hasher of
  `bmt/bmt.go`, with its goroutines as interleaved steps on a shared node tree,
  is proved equal to the recursive reference of `bmt/bmt_r.go`.  The base hash
  is an arbitrary function.
- **Transaction pool** (`Heap`, `TxSpec`, `TxLists`, `PriceHeap`, `Pool*`,
  `TxPool`).  `TxLists` proves the in-place lists of `core/tx_list.go` against
  plain maps; the pool of `core/tx_pool.go` is built on the same specification
  functions, and its invariants are proved over every run of its operations.
- **Canonical chain** (`ChainTree`, `HeaderChain`, `Reorg`, `TxLookup`,
  `BlockChain`).  Fork choice by total difficulty, reorganisations, the
  number-to-hash index, caches and the transaction lookup index.  A hash
  identifies a block with all its ancestors, so a block holds its parent and a
  store is a set of blocks; a block's number is its distance from genesis.
- **Weighted random selection and request distribution** (`SelectTree`,
  `RandSelect`, `Distributor`).
- **Event feed** (`Feed`): in-place partitioning of one array by a send that
  removals interrupt.
- **Chain indexer** (`ChainIndexer`, `IndexerRace`).
- **Gas and balances** (`Ledger`, `StateTransition`, `StateProcessor`).  The
  virtual machine is any step that conserves the sum of balances and returns no
  more gas than it was given.

Random numbers, map iteration order, goroutine and event order, channel
readiness, cache eviction, clock-driven events and what a backend answers are
nondeterministic choices or parameters, so each theorem covers all of them.
Hashes are injective identifiers, and senders are fields of transactions.

`dafny verify dfyconfig.toml` checks the whole project.

## Findings

Where the code does not meet a natural reading of what it promises, the model
keeps the code, gives an input and proves the exact condition.

- `TxDifference` leaves out chief updates (`core/types/transaction.go:362-366`).
  A reorganisation therefore keeps the lookup entry of a chief update that only
  the abandoned branch had: `BlockChain.StaleEntryRun` is such a run.  Over every
  sequence of writes the lookup index is exact if and only if every chief update
  that was ever on a head's chain is on the current one (`TxLookup.ExactIff`,
  `BlockChain.Run`).  For the same reason a pool reset does not reinject such a
  transaction (`Reorg.ChiefNotReinjected`, `Reorg.ReinjectsAllIff`).
- `processSection` drops all sections without the lock when the backend's reset
  fails (`core/chain_indexer.go:343-345`).  Run against reorganisation notices,
  statement by statement, this can leave the field and the database apart
  (`IndexerRace.TornSchedule`) or the head of a dropped section behind
  (`IndexerRace.StaleHeadSchedule`).  The field is unsigned and can wrap to
  2^64 - 1, for every section a notice reverts to (`IndexerRace.Wraps`) and also
  with the lock free (`IndexerRace.WrapsUnlocked`).  The next notice then passes
  its guard, and the run can end with sections that have no heads
  (`IndexerRace.SecondNotice`).  With any number of notices the call is harmless
  in every schedule if and only if no section is stored
  (`IndexerRace.HarmlessIff`); under the lock it would always be
  (`IndexerRace.ConsistentIfSerial`).
- `removeTx` requeues the transactions above a removed pending one only if
  something stays pending (`core/tx_pool.go:1024-1033`).  Otherwise they stay known
  but in no list, and adding one again is refused as known
  (`TxPool.StrandedInput`).  Removal keeps every known transaction listed if and
  only if the nonce is not the lowest of several pending ones
  (`PoolMoves.KeepsListedIff`).
- A pool reset dereferences a head whose block is no longer stored
  (`core/tx_pool.go:465-469`) if and only if the heads are at most 64 apart and the
  new one does not extend the old one: `Reorg.Reinject`.
- `HeaderChain.SetHead` leaves side headers whose parents it deletes.  Writing a
  header on top of one dereferences a missing header
  (`core/headerchain.go:170-176`) exactly if the new header wins fork choice:
  `HeaderChain.OrphanRun` and `HeaderChain.WriteHeader`.
- Before SIP001 `buyGas` does not charge the gas pool but `refundGas` credits it
  (`core/state_transition.go:194-198`, `core/state_transition.go:342`), so the
  pool grows: `StateProcessor.GrowingPool`.  The pool and the used gas exceed the
  gas limit by exactly the gas bought: `StateProcessor.Process`.
- The comment on `Sum` says that it appends to its argument; the code ignores it
  (`bmt/bmt.go:289-318`).  The model follows the code.

## Model

| member | source | states |
|---|---|---|
| BmtReference.RefHasher.Hash | bmt/bmt_r.go:59-65 | the reference hash is the digest of the chunk cut to the capacity, for every chunk |
| BmtReference.RefHasher.HashSpan | bmt/bmt_r.go:67-85 | the recursion, entered with any sufficient span, computes the digest: the halving loop always finds the right split |
| BmtReference.DigestSplit | bmt/bmt_r.go:67-85 | a chunk longer than two segments is the hash of its part up to the largest span below its length and of the rest, which is hashed only if longer than a segment |
| BmtReference.DigestSmall | bmt/bmt_r.go:67-85 | a chunk of at most two segments is hashed as it is |
| BmtReference.DigestIsSubtree | bmt/bmt_r.go:67-85 | any tree tall enough gives the same digest: empty levels on top change nothing |
| BmtSteps.HashStepKeeps | bmt/bmt.go:441-460 | hashing a double segment keeps the invariant of the node tree |
| BmtSteps.StoreStepKeeps | bmt/bmt.go:462-493 | writing a child value into its parent keeps it, whatever the other goroutines have done |
| BmtSteps.ToggleStepKeeps | bmt/bmt.go:462-493 | the toggle keeps it: of two arrivals exactly the second goes on, at an unbalanced node the only one |
| BmtSteps.CombineStepKeeps | bmt/bmt.go:462-493 | hashing a complete node, or passing a lone left value up, keeps it |
| BmtSteps.StepKeeps | bmt/bmt.go:441-493 | every step of every goroutine is possible and keeps the invariant, in every interleaving |
| BmtSteps.ToggleFacts | bmt/bmt.go:462-493 | a goroutine goes on past a node exactly when its arrival completes the node |
| BmtChunk.FreshChunk | bmt/bmt.go:406-409 | a clean tree meets the invariant for an empty chunk, whatever old contents its nodes hold |
| BmtChunk.SpawnKeeps | bmt/bmt.go:441-460 | starting the goroutine of the next double segment keeps the invariant while earlier ones are at any point of their climb |
| BmtChunk.MarkKeeps | bmt/bmt.go:529-546 | marking a node unbalanced or root disturbs no running goroutine |
| BmtChunk.MarkedIsClosed | bmt/bmt.go:529-546 | once the path of the last segment is marked, the flags are exactly those of the finished chunk |
| BmtChunk.NeverStuck | bmt/bmt.go:462-493 | while the result is outstanding some goroutine can move |
| BmtChunk.StepProgress | bmt/bmt.go:462-493 | every step makes progress, so the result is delivered after finitely many steps |
| BmtChunk.ResultMeansQuiet | bmt/bmt.go:462-493 | when the result is delivered no goroutine is left and every toggle is even |
| BmtValue.ValIsSubtree | bmt/bmt.go:462-493 | the value carried at any live node is the reference value of the data below it |
| BmtValue.RootValue | bmt/bmt.go:462-493 | the value at the root of a finished chunk is the reference digest of the chunk |
| BmtHasher.Depth | bmt/bmt.go:520-525 | the tree has a data node for every double segment of the capacity |
| BmtHasher.NewTree | bmt/bmt.go:253-275 | a new tree has exactly the nodes of its outline, even toggles, no unbalanced flag and the root flag on top only |
| BmtHasher.Hasher.Interfere | bmt/bmt.go:441-493 | any number of goroutine steps in any order keeps the invariant and the flags |
| BmtHasher.Hasher.WriteSegment | bmt/bmt.go:441-460 | a pushed double segment becomes part of the chunk in the tree |
| BmtHasher.Hasher.Write | bmt/bmt.go:333-372 | the chunk grows by exactly the bytes written, however it is split into calls, with goroutines running in between |
| BmtHasher.Hasher.Push | bmt/bmt.go:356-367 | one full double segment is pushed and appended to the data |
| BmtHasher.Hasher.Finalise | bmt/bmt.go:529-546 | the whole path of the last segment is marked up to the first node that covers the chunk, which is marked root |
| BmtHasher.Hasher.FinishChunk | bmt/bmt.go:292-305 | the tree then holds exactly the bytes written, as a finished chunk |
| BmtHasher.Hasher.Await | bmt/bmt.go:305-306 | the receive ends, and what it receives is the result of the tree |
| BmtHasher.Hasher.ReleaseTree | bmt/bmt.go:424-439 | the released tree has even toggles, no unbalanced flag and only the top root, so the next chunk does not depend on this one |
| BmtHasher.Hasher.Sum | bmt/bmt.go:292-318 | Sum is the reference digest of the bytes written, hashed behind the length if one is set, and leaves a clean tree |
| BmtHasher.MatchesReference | bmt/bmt.go:292-372 | for every segment size and count, chunk within capacity, split into writes and interleaving, the fast hash equals the reference hash |
| Heap.RemoveAt | core/tx_list.go:165-184 | removal from the middle keeps order and takes out that element only |
| Heap.Init | core/tx_list.go:432-446 | any sequence is brought into heap order, elements unchanged |
| Heap.LeastFirst | core/tx_list.go:34-50 | the first element of a heap is a least one |
| TxLists.SortedMap.Put | core/tx_list.go:78-86 | put updates the plain map; the heap keeps exactly the keys, and no stale cache survives |
| TxLists.SortedMap.Forward | core/tx_list.go:91-107 | keeps exactly the nonces from the threshold on and returns the others sorted; the cache stays the sorted contents |
| TxLists.SortedMap.Filter | core/tx_list.go:111-134 | keeps exactly what fails the test and returns the rest; the heap is rebuilt |
| TxLists.SortedMap.Cap | core/tx_list.go:138-161 | keeps the lowest nonces up to the threshold and returns the others, highest first |
| TxLists.SortedMap.Remove | core/tx_list.go:165-184 | removes one nonce and reports whether it was there |
| TxLists.SortedMap.Ready | core/tx_list.go:193-210 | takes out and returns, sorted, the consecutive run from the lowest nonce, or nothing if that is above start |
| TxLists.SortedMap.Flatten | core/tx_list.go:222-237 | the sorted contents, from the cache or not |
| TxSpec.SortedUnique | core/tx_list.go:222-237 | the sorted contents are unique, so a cached sort is as good as a new one |
| TxSpec.LowerKeeps | core/tx_list.go:138-161 | what Cap keeps is a part of the right size below everything dropped |
| TxSpec.LowerIs | core/tx_list.go:138-161 | and it is the only such part |
| TxSpec.ReadyIsRun | core/tx_list.go:193-210 | what Ready hands out is consecutive from the lowest nonce and maximal, and empty exactly if that nonce is above start |
| TxLists.AccountList.Add | core/tx_list.go:273-294 | a held nonce is replaced only by a sufficiently better price; the caps grow |
| TxLists.AccountList.Filter | core/tx_list.go:312-336 | drops what is too costly, and from a strict list everything above the lowest dropped nonce; the caps come down |
| TxLists.AccountList.Remove | core/tx_list.go:347-358 | removes a nonce, and from a strict list everything above it |
| TxSpec.FilterShortCircuit | core/tx_list.go:312-336 | with caps that bound the contents the short circuit drops what the full scan would |
| TxSpec.ApplyKeeps | core/tx_list.go:273-358 | every list operation keeps the caps bounding |
| TxSpec.CapsBoundAlways | core/tx_list.go:273-358 | over every sequence of operations the caps bound every held transaction, and the short circuit is right |
| TxSpec.StaysContiguous | core/tx_list.go:299-358 | a strict list without a gap has none after Forward, Filter, Cap and Remove |
| TxSpec.AddContiguous | core/tx_list.go:273-294 | and after Add exactly if the nonce is held or adjacent, or the list was empty |
| TxSpec.ReplacesIff | core/tx_list.go:273-284 | a transaction is replaced exactly by a dearer one that reaches the bump; a dearer one below the bump is refused |
| PriceHeap.Removed | core/tx_list.go:432-446 | stale entries are counted, and the rebuilt heap covers the pool |
| PriceHeap.Underpriced | core/tx_list.go:481-503 | for a remote transaction and a non-empty pool the answer is exactly whether the cheapest known transaction costs at least as much, despite stale and duplicate entries; the stale counter falls by the entries dropped |
| PriceHeap.Cap | core/tx_list.go:450-477 | takes out exactly the remote transactions below the price; the stale counter falls by the stale entries met |
| PriceHeap.Discard | core/tx_list.go:507-530 | takes out at most the number asked for of remote transactions, none dearer than one that stays, and all of them if fewer; the stale counter falls by the stale entries met |
| PoolMoves.EnqueueTx | core/tx_pool.go:807-828 | a transaction enters the queue at its nonce unless the list refuses it; lists, known set and price heap stay consistent |
| PoolMoves.PromoteTx | core/tx_pool.go:846-878 | a transaction enters the pending list, in place of a sufficiently cheaper one with its nonce, and moves the next nonce behind it; if the list refuses it the pool forgets it |
| PoolMoves.EnqueueAll | core/tx_pool.go:1008-1048 | invalidated transactions return to the queue, and none meets another with its nonce there |
| PoolMoves.RemoveTx | core/tx_pool.go:1008-1048 | exactly this transaction is forgotten; a pending list is cut at its nonce, the later ones return to the queue unless nothing stays pending, and the next nonce goes back |
| PoolMoves.StrandedAre | core/tx_pool.go:1022-1033 | after a removal the known transactions in no list are exactly those that were pending above the removed one, and only if that was the lowest of several |
| PoolMoves.KeepsListedIff | core/tx_pool.go:1022-1033 | removal keeps every known transaction in a list if and only if its nonce is not the lowest of several pending ones |
| PoolPromote.DropUnexecutable | core/tx_pool.go:1067-1082 | the queue keeps exactly what is not below the nonce on the chain, affordable and within the block gas limit |
| PoolPromote.PromoteReady | core/tx_pool.go:1083-1088 | what Ready handed out is promoted in order, and none meets another with its nonce |
| PoolPromote.RunStartsAtNext | core/tx_pool.go:1084-1088 | with the pending nonces in order the executable run begins exactly at the next nonce |
| PoolPromote.PromoteAccount | core/tx_pool.go:1062-1103 | the executable run of affordable transactions moves behind the pending ones, the queue keeps the rest, of a remote account the lowest up to its limit; the pool forgets exactly what leaves the lists |
| PoolLimits.Count | core/tx_pool.go:1104-1109 | the counting loop gives the true number of transactions |
| PoolLimits.CapOne | core/tx_pool.go:1143-1154 | an account loses its highest pending transaction and its next nonce goes back to it, and the pool forgets exactly it |
| PoolLimits.CapRound | core/tx_pool.go:1140-1157 | a round takes exactly one from each offender, and the counter stays the true sum |
| PoolLimits.NextOffender | core/tx_pool.go:1123-1160 | the next largest account joins the offenders, who come down to it and not below the guaranteed slots |
| PoolLimits.Equalise | core/tx_pool.go:1104-1160 | the first pass never cuts below the guaranteed slots, never touches local accounts and keeps the counter exact |
| PoolLimits.LowerTogether | core/tx_pool.go:1161-1183 | the second pass lowers all offenders to the limit or to the guaranteed slots |
| PoolLimits.CapPending | core/tx_pool.go:1104-1185 | afterwards pending is within the limit or every remote account within its slots; accounts keep their lowest nonces and their next nonce goes back to the first one cut; nothing is cut below the limit but for the round that crosses it; the pool forgets exactly what is cut |
| PoolLimits.CapQueue | core/tx_pool.go:1186-1225 | afterwards queued is within the limit or only local accounts are queued; local queues are untouched, remote ones lose the highest nonces, the account with the latest heartbeat first, and no more than needed; the pool forgets exactly what is cut |
| PoolLimits.PromoteExecutables | core/tx_pool.go:1053-1226 | the given accounts are promoted and the whole is brought within both limits, latest heartbeat first; the next nonce of an account is its promoted one, lowered to the first nonce cut; the pool forgets exactly what leaves the lists |
| PoolState.TidyKeepsListed | core/tx_pool.go:1053-1226 | promotion, the limits, demotion and eviction leave no transaction known and unlisted that was not so before |
| PoolDemote.DemoteAccount | core/tx_pool.go:1231-1281 | of the transactions not yet on the chain those before the first unaffordable one stay pending, the affordable ones behind it return to the queue, and everything returns if the first nonce is missing; the pool forgets exactly what leaves the lists |
| PoolDemote.DemotedIsExecutable | core/tx_pool.go:1231-1281 | after demotion every pending transaction is due and affordable |
| PoolDemote.StaysPendingIff | core/tx_pool.go:1231-1281 | a transaction stays pending exactly if the chain nonce is pending and everything from there up to it is affordable |
| PoolDemote.DemoteUnexecutables | core/tx_pool.go:1231-1281 | this holds for every account, in whatever order they are visited |
| PoolDemote.RebuildNonces | core/tx_pool.go:510-525 | every next nonce is behind the last pending transaction, so pending is the interval from the chain nonce to the next nonce |
| TxPool.RemoveAll | core/tx_pool.go:743-748 | bulk removal is one removal after the other and forgets exactly the dropped transactions |
| TxPool.OthersKept | core/tx_pool.go:743-748 | accounts that lose no transaction are untouched by it |
| TxPool.MakeRoom | core/tx_pool.go:734-749 | a full pool refuses a remote transaction exactly if nothing known is cheaper, else removes its cheapest remote ones, as many as are too many with one more |
| TxPool.RoomIsMade | core/tx_pool.go:734-749 | something goes unless everything known is local, and a pool that was just full then has room |
| TxPool.ReplacePending | core/tx_pool.go:752-777 | a pending nonce is replaced exactly if the price bump is met |
| TxPool.Add | core/tx_pool.go:714-802 | the checks, the room, and the list that takes the transaction, with every error case; an accepted one is new, admissible, due, affordable, within the block gas limit and paid for |
| TxPool.PrecheckIff | core/tx_pool.go:660-733 | the checks pass exactly for a new transaction that is protected, no chief update, at most 32 KB, of no negative value, not below the chain nonce, affordable, within the block gas limit, covering its intrinsic gas and at the pool price unless local |
| TxPool.RefusedForDefect | core/tx_pool.go:660-733 | a refusal names a defect the transaction has |
| TxPool.PlacedKnownOk | core/tx_pool.go:752-802 | the new transaction pays the pool price or its sender is local, also when a local one replaces a pending one |
| TxPool.AddBounded | core/tx_pool.go:714-802 | with the room made, an addition keeps a pool without local accounts within its capacity |
| TxPool.AddedIsListed | core/tx_pool.go:714-802 | an accepted transaction is known and listed at its nonce |
| TxPool.StrandedInput | core/tx_pool.go:1022-1033 | a pool in order in which removing the first of two pending transactions leaves the second known, in no list and impossible to add |
| TxPool.AddTx | core/tx_pool.go:919-938 | addition, followed by promotion of the sender if nothing was replaced |
| TxPool.AddTxs | core/tx_pool.go:950-973 | one addition after the other, then one promotion for exactly the touched senders |
| TxPool.Reset | core/tx_pool.go:439-529 | reinjection, demotion, rebuilt nonces and promotion; both limits hold; if nothing is reinjected pending is again the interval from chain nonce to next nonce, for any new nonces and balances; no transaction becomes known and unlisted then |
| TxPool.SetGasPrice | core/tx_pool.go:562-571 | exactly the remote transactions below the price are removed, one after the other |
| TxPool.Evict | core/tx_pool.go:396-411 | idle remote accounts lose their queues, nothing else changes, and the pool forgets exactly what they lose |
| TxPool.Pooled.Step | core/tx_pool.go:714-973 | every step keeps the invariants and does what its operation does |
| TxPool.Pooled.Run | core/tx_pool.go:439-973 | over every run of steps pending and queued nonces are disjoint, every listed transaction is under its sender and nonce and known, and every known one is in the price heap; a pool that never sees a local transaction never exceeds its capacity; without reinjection pending nonces are the interval up to the next nonce; every known transaction is admissible and, unless its sender is local, pays the pool price; the pools in between are those of the steps |
| ChainTree.ForkIs | core/database_util.go:608-632 | two chains agree exactly up to their fork height |
| ChainTree.ForkIsHighest | core/database_util.go:608-632 | every common ancestor is an ancestor of the block at the fork |
| ChainTree.WeightDifference | core/blockchain.go:811-813 | total difficulties of two blocks differ exactly as the difficulties added up on their branches above the fork |
| ChainTree.SiblingWeights | core/blockchain.go:811-813 | siblings differ by exactly their own difficulties |
| ChainTree.HeaviestByBranch | core/blockchain.go:832-838 | no stored block is heavier than the head if and only if no branch outweighs the head's branch beside it |
| ChainTree.FindCommonAncestor | core/database_util.go:608-632 | the highest common ancestor, or nothing exactly if a header on the way is missing |
| HeaderChain.HeaderChain.GetBlockNumber | core/headerchain.go:111-120 | the number in the store, cached or not, under any eviction |
| HeaderChain.HeaderChain.GetTd | core/headerchain.go:312-324 | the total difficulty of the store, cached or not |
| HeaderChain.HeaderChain.GetHeader | core/headerchain.go:344-356 | the header of the store, cached or not |
| HeaderChain.HeaderChain.GetBlockHashesFromHash | core/headerchain.go:289-308 | the ancestors nearest first, ending at the maximum, at genesis or at a missing parent |
| HeaderChain.HeaderChain.DropAbove | core/headerchain.go:156-163 | the first loop ends and removes exactly the numbers above the new header |
| HeaderChain.HeaderChain.Reroute | core/headerchain.go:164-176 | the second loop ends at or above genesis; it fails on a missing header exactly if an ancestor of the new header is missing, and otherwise the index is the new header's ancestry |
| HeaderChain.HeaderChain.WriteHeader | core/headerchain.go:131-195 | fails exactly if the header wins and an ancestor of its known parent is missing; otherwise the store grows by the header, the head moves exactly by fork choice, the index holds exactly heights 0 to head, parent-linked, no header outweighs the head, and caches agree with the store; fork choice is by the weights of the two branches |
| HeaderChain.WinsByBranch | core/headerchain.go:141-155 | a header wins exactly if its branch is heavier, or as heavy and the coin says so |
| HeaderChain.HeaderChain.SetHead | core/headerchain.go:404-437 | the index is the old one cut at the height, the head the old head's ancestor there, and exactly the deleted part of the chain leaves the store |
| HeaderChain.HeaderChain.OrphanRun | core/headerchain.go:164-176 | a run with SetHead after which writing a header fails |
| HeaderChain.HeaderChain.Run | core/headerchain.go:131-195 | all of this over every sequence of header writes, and none of them fails; headers and head are those that fork choice makes of the writes |
| HeaderChain.HeaderChain.HeavyRun | core/headerchain.go:131-195 | a run in which a heavy header stays the head beside a longer, lighter branch, for any such difficulties |
| Reorg.PathIs | core/blockchain.go:1128-1168 | the path above a height is one ancestor for each height, highest first |
| Reorg.Walk | core/blockchain.go:1128-1168 | reorg's old and new chains are exactly the two paths strictly above the last common ancestor, and it fails exactly if a block is missing |
| Reorg.TxDifference | core/types/transaction.go:353-371 | the transactions of the first list that are not in the second, without chief updates, in order |
| Reorg.DifferenceIs | core/types/transaction.go:353-371 | it is what stands at exactly the positions of transactions that are neither in the second list nor chief updates, in order and number |
| Reorg.Reinject | core/tx_pool.go:454-484 | nothing for a first reset, a direct extension or heads more than 64 apart; else a crash exactly if a head is not stored, an abandoned reset exactly if a block further down is missing, and otherwise the difference of the two paths |
| Reorg.DroppedIs | core/tx_pool.go:454-484 | reinjected is exactly what is on the old path, not on the new one, and no chief update |
| Reorg.ReinjectsAllIff | core/tx_pool.go:454-484 | the reinject set is all of the old path's missing transactions if and only if none of them is a chief update |
| Reorg.ChiefNotReinjected | core/tx_pool.go:454-484 | an abandoned block whose chief update is not reinjected |
| TxLookup.WriteTxLookupEntries | core/database_util.go:463-480 | each transaction of the block is mapped to block, number and position; other entries stay |
| TxLookup.PlaceIsTheOccurrence | core/database_util.go:463-480 | if no transaction repeats along a chain, its place is its only occurrence |
| TxLookup.MovedCovers | core/blockchain.go:1180-1198 | after a reorganisation of any depth every transaction of the new chain is mapped to its place |
| TxLookup.MovedExactIff | core/blockchain.go:1180-1198 | a reorganisation keeps an exact index exact if and only if the abandoned branch has no chief update that the new branch lacks |
| TxLookup.MovedKeys | core/blockchain.go:1180-1198 | after any history of heads the index maps the head's chain and, besides, exactly the chief updates that were on the chain of some head |
| TxLookup.ExactIff | core/blockchain.go:1180-1198 | so it is exact if and only if all of these are on the current chain |
| BlockChain.BlockChain.InsertBranch | core/blockchain.go:1180-1190 | the new branch replaces the index above the fork and its transactions are mapped |
| BlockChain.BlockChain.Reorganise | core/blockchain.go:1105-1211 | afterwards the index up to the new block is its ancestry and the lookup index has moved; it fails exactly if a block is missing |
| BlockChain.BlockChain.WriteBlockAndState | core/blockchain.go:797-868 | the head moves exactly by fork choice; heights up to the head hold its ancestors; head total difficulty never falls and is maximal; if no transaction repeats along a chain the lookup index covers it, and stays exact exactly when the condition above holds; an unknown parent changes nothing; fork choice is by the weights of the two branches |
| BlockChain.PrefersByBranch | core/blockchain.go:832-838 | a block wins exactly if its branch is heavier, or as heavy and shorter, or as heavy and as long and the coin says so |
| BlockChain.ChoiceIsSettled | core/blockchain.go:832-838 | unless weights and heights are equal, fork choice depends neither on the coin nor on which block came first |
| BlockChain.HeadsOrder | core/blockchain.go:832-838 | over every sequence of writes the weight of the head never falls, and while it stays equal its height never rises |
| BlockChain.BlockChain.Run | core/blockchain.go:797-868 | all of this over every sequence of block writes; the heads are those of fork choice, and if no transaction repeats along a chain the lookup index is exact if and only if every chief update ever on a head's chain is on the current one |
| BlockChain.BlockChain.HeavyRun | core/blockchain.go:797-868 | a run in which a heavy block stays the head beside a longer, lighter branch, for any such difficulties |
| BlockChain.BlockChain.StaleEntryRun | core/blockchain.go:797-868 | a run of three writes after which an abandoned chief update is still looked up |
| SelectTree.ReplaceKeeps | les/randselect.go:136-157 | a change of one slot with adjusted totals keeps every node's weight and count equal to its subtree's |
| SelectTree.AddLevelKeeps | les/randselect.go:63-69 | a new level keeps all totals exact |
| SelectTree.AddLevelFlat | les/randselect.go:63-69 | and every slot keeps its index |
| RandSelect.FindRoom | les/randselect.go:107-115 | in a node that is not full the search for a branch never reaches the panic |
| RandSelect.Insert | les/randselect.go:107-132 | the item goes into the lowest free slot, whose index is returned; all totals stay exact |
| RandSelect.SetNodeWeight | les/randselect.go:136-157 | exactly one slot changes, zero empties it, the returned change is the weight difference, totals stay exact |
| RandSelect.FindBranch | les/randselect.go:160-173 | the loop over branch weights never reaches the panic |
| RandSelect.ChooseIn | les/randselect.go:160-173 | the draw selects the slot whose interval of cumulative weight contains it |
| RandSelect.DrawnOnce | les/randselect.go:160-173 | a draw falls on one slot only |
| RandSelect.ExactlyWeightDraws | les/randselect.go:160-173 | of the draws in [0, sum) exactly w select a slot of weight w |
| RandSelect.WeightedRandomSelect.SetWeight | les/randselect.go:54-73 | one item is added, changed or removed; all others keep weight and index |
| RandSelect.WeightedRandomSelect.Choose | les/randselect.go:79-94 | the retry loop ends, since every rejected draw lowers the root sum; nothing is returned only for an empty set; afterwards every item has the weight it last reported, or its old one if it was not drawn |
| RandSelect.WeightedRandomSelect.ExactlyStoredDraws | les/randselect.go:79-94 | exactly as many draws select an item as its stored weight |
| Distributor.TryPeers | les/distributor.go:192-213 | each peer is considered once, with the first request it can serve, in any order of peers |
| Distributor.NoneEarlier | les/distributor.go:178-227 | an offered request is the earliest created one that the peer can serve |
| Distributor.RequestDistributor.Enqueue | les/distributor.go:233-260 | the queue stays strictly sorted by creation order; new requests go to the back, resent ones to their old place |
| Distributor.RequestDistributor.Remove | les/distributor.go:279-285 | exactly this request leaves the queue |
| Distributor.RequestDistributor.Cancel | les/distributor.go:265-276 | removes a waiting request, and reports whether it was waiting |
| Distributor.RequestDistributor.Visit | les/distributor.go:191-220 | a request is dropped only at the front, when no available peer can serve it |
| Distributor.RequestDistributor.NextRequest | les/distributor.go:178-227 | drops exactly the unservable requests at the front; offers a peer the first request it can serve, at the least wait of all such pairs, the earliest such request if it has to wait |
| Distributor.RequestDistributor.SendNext | les/distributor.go:130-140 | a sent request leaves the queue, every other servable one stays |
| Feed.AtMostOnce | event/feed.go:129-187 | no channel is sent to twice or after its removal |
| Feed.CountsReceivers | event/feed.go:129-187 | the number of sends is the number of channels that received |
| Feed.Delivered | event/feed.go:129-187 | every channel not removed has received, and the channels left are exactly those not removed |
| Feed.Find | event/feed.go:210-217 | the index of the channel's case, or -1 exactly if there is none |
| Feed.Delete | event/feed.go:220-222 | the later cases move down in place |
| Feed.Deactivate | event/feed.go:225-229 | the case is swapped behind the active prefix in place |
| Feed.Feed.Remove | event/feed.go:104-125 | the channel leaves, from inbox or cases |
| Feed.Feed.Prepare | event/feed.go:135-149 | the inbox joins the cases and every case holds the value |
| Feed.Feed.TrySendAll | event/feed.go:154-163 | the fast path is a run of single deliveries, swapping within the aliased prefix |
| Feed.Feed.Select | event/feed.go:167-178 | either one waiting channel takes the value or one channel is removed, wherever in the array it is |
| Feed.Feed.Send | event/feed.go:129-187 | the send is a run that serves each channel at most once and never after removal, ends with none waiting, returns the number of deliveries and leaves exactly the channels not removed |
| ChainIndexer.HeadsAreLinked | core/chain_indexer.go:338-367 | any two stored heads are on one chain, whole sections apart |
| ChainIndexer.CommitKeeps | core/chain_indexer.go:300-303 | a section read as a chain on top of the last head keeps heads exact and linked |
| ChainIndexer.ChainIndexer.SetValidSections | core/chain_indexer.go:402-414 | count, field and stored heads agree afterwards |
| ChainIndexer.ChainIndexer.NewHead | core/chain_indexer.go:218-257 | a reorganisation notice reverts stored and known sections and the cascaded head to the reorganisation point; a head notice makes known exactly the sections whose last block has its confirmations |
| ChainIndexer.HeardIs | core/chain_indexer.go:218-257 | section by section, what a notice makes known and what it keeps, for every notice |
| ChainIndexer.ChainIndexer.Notices | core/chain_indexer.go:218-257 | notices in any number keep what the worker relies on and leave exactly the counts that follow from them |
| ChainIndexer.NewsKeepIff | core/chain_indexer.go:218-257 | no section is lost to the notices of a round if and only if each of them spares it |
| ChainIndexer.ChainIndexer.ProcessSection | core/chain_indexer.go:338-367 | with notices around the reset, between all reads and after the last one made: a head is returned exactly if the backend succeeds and the blocks read are one chain on the last head, and the sections left are those the notices and the reset leave |
| ChainIndexer.ChainIndexer.Update | core/chain_indexer.go:261-332 | a section is committed exactly if every backend call and read went well and no notice reverted a section before it; else exactly the sections the notices and the reset leave stay; count, field, heads and links stay consistent and the heads before it are kept |
| ChainIndexer.ChainIndexer.Run | core/chain_indexer.go:218-332 | this holds over every interleaving of updates and notices in which the dropping of all sections after a failing reset does not overlap a notice; the counts and heads are those that follow from the actions, and no section is known or stored before a head notice has confirmed its last block |
| ChainIndexer.LeftConfirmed | core/chain_indexer.go:261-332 | everything known or stored after a round has been confirmed if it was before and the notices of the round are counted |
| IndexerRace.ConsistentNeedsWorkerLast | core/chain_indexer.go:402-414 | when the unlocked call overlaps one notice the outcome is consistent only if the notice reverts everything or the worker writes count and field after the notice, in every schedule of their statements |
| IndexerRace.ConsistentIfApart | core/chain_indexer.go:402-414 | if the two calls are never both between lowering the field and deleting a head, it is consistent if and only if that holds |
| IndexerRace.StaleHeadSchedule | core/chain_indexer.go:402-414 | with two or more sections and both calls there, the head of the last section stays stored |
| IndexerRace.TornSchedule | core/chain_indexer.go:402-414 | a schedule that leaves the notice's sections in the field and none in the database |
| IndexerRace.CrossedYetConsistent | core/chain_indexer.go:402-414 | a schedule in which both calls are there and the outcome is consistent nevertheless |
| IndexerRace.HarmlessOnceIff | core/chain_indexer.go:338-345 | special case of one notice, judged when both calls have finished: consistent in every schedule if and only if a single section is stored |
| IndexerRace.Wraps | core/chain_indexer.go:409-412 | for every section a notice reverts to, a schedule in which the field is lowered below zero |
| IndexerRace.ConsistentIffEmpty | core/chain_indexer.go:402-414 | with any number of notices the head of section 0 is always gone at the end, so a finished run is consistent if and only if field, count and heads are all empty |
| IndexerRace.ConsistentIfSerial | core/chain_indexer.go:402-414 | with any number of notices, if the unlocked call overlaps none of them every finished run is consistent and the field never grows |
| IndexerRace.WrapsUnlocked | core/chain_indexer.go:338-345 | for every positive count, a run with one notice after which the lock is free and the field is 2^64 - 1 |
| IndexerRace.SecondNotice | core/chain_indexer.go:229-232 | a second notice then passes its guard for any section, and both calls end with that many sections and no head |
| IndexerRace.HarmlessIff | core/chain_indexer.go:338-345 | over every schedule and any number of notices: every finished run is consistent if and only if no section is stored, and the field only falls if and only if no section is stored |
| Ledger.TotalUpdate | core/state_transition.go:179-214 | changing one balance changes the sum of balances by as much |
| Ledger.TransfersConserve | core/state_transition.go:265-276 | payments between accounts leave the sum of balances unchanged |
| StateTransition.IntrinsicGas | core/state_transition.go:82-104 | the counting loop charges the base and each byte its price |
| StateTransition.IntrinsicIs | core/state_transition.go:82-104 | 21000 gas, or 53000 for a contract since Homestead, 4 for each byte and 64 more for each byte that is not zero |
| StateTransition.ExemptOnlyChiefs | core/state_transition.go:179-183 | a message buys no gas exactly if under SIP001 it calls a chief with the update selector; any other buys all its gas |
| StateTransition.StateTransition.BuyGas | core/state_transition.go:179-214 | succeeds exactly under the source's conditions, with the chief exemptions; sender and pool are charged alike |
| StateTransition.StateTransition.PreCheck | core/state_transition.go:216-231 | goes on exactly if the nonce fits and the gas can be bought, and says which of the nonce errors applies |
| StateTransition.StateTransition.RefundGas | core/state_transition.go:303-343 | the refund is the counter or half of the gas used, whichever is less, and sender and pool get all that is left |
| StateTransition.StateTransition.Settle | core/state_transition.go:289-299 | refund and reward together return what the sender paid, to the accounts the source names |
| StateTransition.StateTransition.TransitionDb | core/state_transition.go:236-301 | accepts exactly if nonce, gas purchase, intrinsic gas and transfer allow; an accepted message leaves the sum of balances unchanged; under SIP001 the pool loses exactly the gas used, before SIP001 it gains the unused gas; it failed exactly if the virtual machine ended in an error; required and used gas, balances and nonces are exact |
| StateTransition.StateTransition.SettledAt | core/state_transition.go:236-301 | besides the payments of the virtual machine an accepted message moves the price of the gas used from its sender to the coinbase, and nothing if it calls a chief |
| StateProcessor.ApplyTransaction | core/state_processor.go:93-142 | pool and cumulative gas keep their sum under SIP001; the receipt records cumulative and own gas; the receipt says failed exactly if the virtual machine ended in an error |
| StateProcessor.Process | core/state_processor.go:59-87 | in every accepted block under SIP001 pool plus used gas is the gas limit; the sum of balances is unchanged before Finalize; before SIP001 the pool ends above the limit by the unused gas; every receipt says failed exactly if its step ended in an error |
| StateProcessor.GrowingPool | core/state_processor.go:93-142 | a message before SIP001 after which pool and used gas exceed the limit |
| StateProcessor.SetReceiptsData | core/blockchain.go:674-694 | each receipt's gas is the difference of cumulative values |
| StateProcessor.Recomputed | core/blockchain.go:674-694 | it gives back the gas ApplyTransaction recorded for every transaction that is not a chief update, and zero for those |

## Left out

- Consensus engine, virtual machine, state trie, RLP, signatures and key derivation: abstract steps or uninterpreted values.
- Locks, timers, metrics, logs, events and the journal of the pool and the chain: no effect on what is proved.
- Machine integer widths of nonces, block numbers, weights and gas sums: unbounded here, except where the source checks a bit length.
- The price-ordered queue of the pool's equalising pass compares 32-bit floats of list lengths, exact only below 2^24: the model takes the largest list.
- TxPool.Pooled.Step: the pool's fields are one record that each operation replaces, so its lists are values and their aliasing is not modelled; the in-place form of the lists is proved in `TxLists`.
- Aliasing of the caller's buffer by segments that the Merkle hasher keeps between writes.
- Tree pool blocking, `ReadFrom`, `Draw`, and writes beyond the capacity of the Merkle hasher.
- PoolLimits.PromoteExecutables: heartbeats are a parameter, not kept in the pool.
- BlockChain.BlockChain.WriteBlockAndState: nothing is claimed about index entries above the head block or about the header and fast-sync heads, which the source leaves behind in reorganisations.
- BlockChain `SetHead`, `Rollback`, fast-sync receipts and state commits.
- SelectTree and RandSelect: nodes of the selection tree are values, so update in place and sharing of nodes are not modelled.
- RandSelect.WeightedRandomSelect.Choose: what items report is arbitrary, so no probability is claimed.
- Distributor.RequestDistributor.NextRequest: what peers answer is fixed during one pass, and the ready offer is any one, not a weighted choice.
- Feed.Feed.Send: type checks, and subscriptions arriving during a send, which only touch the inbox.
- ChainIndexer.ChainIndexer.Run: notices come before or after a failing reset drops all sections; a notice that overlaps the dropping, for which the property is false and `IndexerRace` gives the condition; child indexers, `AddKnownSectionHead`, and whether the latest section is still canonical.
- IndexerRace.HarmlessIff: each statement, loop test and guard is one step; torn reads and writes of the field are not modelled.  The number of notices and the wrap of the field are.
- IndexerRace.HarmlessOnceIff: leaves out further notices and runs that have not finished; `IndexerRace.HarmlessIff` covers the former and, by the field, the latter.
- HeaderChain.HeaderChain.WriteHeader: nothing is claimed about the index after a failed write.
- StateTransition.StateTransition.TransitionDb: account creation and the value transfer are inside the virtual machine step.
- StateProcessor.SetReceiptsData: hashes, contract addresses and log fields of receipts.
