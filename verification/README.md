# Verified model of the chain, feed, batcher and gas code

This project models the parts of the repository whose correctness rests on invariants over loops, batches,
interleavings or modular arithmetic, and proves those invariants with Dafny 4.11. `dafny verify dfyconfig.toml`
checks everything.

- **Canonical chain** (`Chain.dfy`, `HeaderChain.dfy`, `BlockChain.dfy`, `Rewind.dfy`, `LeftOvers.dfy`). The database is
  a set of maps: headers by hash, canonical hashes by number, transaction lookup entries, head markers. A header carries
  its own hash, and distinct headers never share one; genesis has the zero hash as its parent. A batch is a map of pending
  writes and becomes visible only when it is flushed, so the loops that collect it read the old index.
  - `HeaderChains.HeaderChain.Consistent`: the store is closed under parent, the head is stored, and every entry of the
    canonical index is a stored header of its number. Every method of the header chain starts from it, keeps it, and says
    what index it leaves, so no run leaves it. `Headed`: the index also has no gap and is linked up to the head. `Valid`: it
    is exactly the parent-linked path from genesis to the head; every run of header inserts and rewinds keeps it.
  - `BlockChains.BlockChain.Usable`: the header chain is consistent and head block and snap block are stored. Every block
    writer, rewind and header insert starts from it and keeps it, whatever the lookup holds. `Aligned`: the index is linked
    up to the head header and the head block lies on that path; every run of block imports and rewinds keeps it.
  - Block imports do not keep the index exact over every run: a rewind can leave the head block below the head header, and
    a block on that head block then leaves entries above itself. Nor do header inserts between block imports keep it
    linked or without gaps; core/headerchain.go:241-245 asks for separate phases, which no method checks. The contracts say
    exactly when the index is exact and when it gets a gap, and `LeftOvers.dfy` holds runs from genesis that end badly.
  - The lookup is exact wherever it was exact before and no transaction repeats on the new chain; a rewind leaves lookup
    entries where they are, so afterwards none is missing, but there may be others.
- **Chain indexer** (`ChainIndexer.dfy`). Every locked region and every unlocked database read is one atomic step, each
  seeing an arbitrary chain database; runs are arbitrary sequences of steps. The class implements the steps.
- **Event feed** (`Feed.dfy`). A step protocol over subscribers, waiting removals and one Send, and a class that
  carries the steps out in place on an array. A removal waits between the inbox search and the select.
- **Transaction batcher** (`Batcher.dfy`, `ParallelExecution.dfy`). First-fit grouping over storage keys, the colouring
  bound it meets, and why a group may run in any order or in parallel.
- **Gas and balances** (`Balances.dfy`, `Gas.dfy`, `StateTransition.dfy`, `StateProcessor.dfy`). 64-bit gas and 256-bit
  money with explicit wrap-around, following the sections "Specification" of EIP-1559, EIP-3529, EIP-4844 and EIP-7623.
  The EVM call is an oracle that returns at most the gas it was given and keeps the total of all balances.
- **Smaller refinements** (`HashFn.dfy`, `DerivationPath.dfy`, `TxIndexer.dfy`, `GasLimit.dfy`, `Decimal.dfy`,
  `Format.dfy`). Hardened markers follow the section "Extended keys" of BIP-32, the layout the section "Path levels" of
  BIP-44. The derivation path module spells out what Go's `strings.TrimSpace`, `strings.Split` and
  `big.Int.SetString` with base 0 accept.

Some properties hold only under a condition that the code does not check. Each is stated as an equivalence, with a
failing input beside it:

- the index is exact after a block becomes the head: `BlockChains.BlockChain.SetCanonical`, `BlockChains.TrueHead`, with
  the run `LeftOvers.SiblingAfterRewind`; and it gets no gap: the same contract, with `LeftOvers.GapBelowHead`;
- the index is exact after headers are inserted: `HeaderChains.HeaderChain.Reorg`, with `LeftOvers.HeaderOnLeftOver`;
- the gas purchase is covered by the balance that was checked: `StateTransitions.RequiredSuffices`, with
  `StateTransitions.NoBaseFeeUnderflows`; it fails only with base fee checks disabled and a zero blob fee cap, which
  internal/ethapi/simulate.go:195 can combine with a blob base fee;
- a group stays safe when a transaction comes again: `Batchers.ListChanged`, with the run `Batchers.ComesAgain`;
- an indexing task leaves exactly the wanted range: `TxIndexers.TxIndexer.RunTask`, and what makes it stale,
  `TxIndexers.TxIndexer.NewBlock`, with the runs `TxIndexers.StaleAfterStart` and `TxIndexers.StaleAfterRewind`;
- an indexing task brings the tail where it belongs: `TxIndexers.TaskBeyond`, and zero remaining is reported:
  `TxIndexers.ReportDone`, both with the run `TxIndexers.StuckAfterRewind`, in which a task does nothing and nothing is
  reported as remaining although no wanted block is indexed.

Ancestors are read from the index, which is right whenever it is linked for the number asked for
(`HeaderChains.HeaderChain.GetAncestor`). Across an entry that is not linked, the query for the second ancestor of any
stored child of that entry is answered wrongly (`HeaderChains.ShortcutWrong`); `LeftOvers.WrongAncestor` is a run with a
wrong answer.

Two equivalences bound arithmetic that never fails on inputs the node can have: intrinsic gas wraps only for lists
beyond any memory (`Gas.CostsExact`, `Gas.IntrinsicGas`, `Gas.IntrinsicWraps`), and the gas limit only above the highest
limit that headers are accepted with (`GasLimits.ValidParentHones`, `GasLimits.StepHones`, `GasLimits.StepWraps`).
`HeaderChains.HeaderChain.GetAncestor` states its answer for the zero hash, which no stored header has, apart.

## Model

| member | source | states |
|---|---|---|
| Chain.PathsAgree | parallelizable-client-go-ethereum/core/headerchain.go:155-165 | Two parent-linked paths that share one entry share all lower ones: why the backward walk may stop at the first agreeing entry. |
| Chain.CanonicalUnique | parallelizable-client-go-ethereum/core/headerchain.go:122-186 | The head alone determines the canonical index. |
| Chain.ReroutedExact | parallelizable-client-go-ethereum/core/headerchain.go:137-181 | An index whose entries above a number are replaced by a path's, and whose entries above a cut are deleted up to the first gap, is exactly the path if and only if it was linked and agreed with the path at that number and nothing above survives; its entries are stored headers of their numbers in any case. |
| HeaderChains.HeaderChain.OverwriteStale | parallelizable-client-go-ethereum/core/headerchain.go:148-167 | From any consistent chain, walking back from the first header, reading the old index while collecting new assignments, corrects exactly the numbers above the highest one at which the old index agrees with the new path; the missing-parent exit and the break at number 0 are never reached. |
| HeaderChains.HeaderChain.SwitchTo | parallelizable-client-go-ethereum/core/headerchain.go:137-167 | From any consistent chain, after the deletions and corrections of a reorg every number outside the inserted headers has what the rerouted index has: the path's entries above the highest agreement, and above the last header what lies beyond a gap, or everything if the headers extend the head. |
| HeaderChains.HeaderChain.ExtendWith | parallelizable-client-go-ethereum/core/headerchain.go:169-181 | The assignments of the new headers, taken from the parent hashes of their successors, are those of the headers themselves. |
| HeaderChains.HeaderChain.Reorg | parallelizable-client-go-ethereum/core/headerchain.go:122-186 | From any consistent chain the old index is rerouted to the path of the last header, from the head when the headers extend it, else from its highest agreement with that path; the result is exactly the path if and only if the old index was linked and on the path there and nothing above survives. So it always is from a valid chain, and from a headed one unless the agreement is above the head or entries are left over above headers that extend it. It never fails, and bodies, lookup and block markers are untouched. |
| HeaderChains.CollectUnknown | parallelizable-client-go-ethereum/core/headerchain.go:205-225 | The shortcut that stops looking headers up after the first unknown one still stores exactly the missing headers, and the count returned is that of a suffix. |
| HeaderChains.HeaderChain.WriteHeaders | parallelizable-client-go-ethereum/core/headerchain.go:192-237 | On any closed store, headers on a known parent are all stored and the store stays closed under parent; it fails if and only if the first parent is unknown, and then changes nothing; the state of the index is kept. |
| HeaderChains.HeaderChain.WriteHeadersAndSetHead | parallelizable-client-go-ethereum/core/headerchain.go:246-273 | From any consistent chain the last header is canonical afterwards; the head moves if and only if it was not canonical, or above the head, before; the index is then what a reorg leaves, and exact under the same condition. |
| LeftOvers.HeaderOnLeftOver | parallelizable-client-go-ethereum/core/headerchain.go:148-167 | A run after which a header insert stops its backward walk at a left-over entry and leaves the index unlinked below the new head. |
| HeaderChains.HeaderChain.GetAncestor | parallelizable-client-go-ethereum/core/headerchain.go:350-382 | Whenever the index is linked for the number asked for, the canonical shortcut returns exactly what following parent links one by one returns. On any consistent chain it succeeds if and only if the walk is short enough or meets the canonical index within the budget, and its answer is the ancestor or what the index holds below the first canonical header on the way; the links followed are charged to the budget. A zero hash above the index is the one input for which the shortcut answers without a header. |
| HeaderChains.WalkBackOnPath | parallelizable-client-go-ethereum/core/headerchain.go:365-371 | Below a canonical header, walking parents reads the canonical index. |
| HeaderChains.HeaderChain.LinkedForAll | parallelizable-client-go-ethereum/core/headerchain.go:350-382 | An index linked up to its head is linked for every number up to the head, and for all numbers when nothing is left over. |
| HeaderChains.ShortcutWrong | parallelizable-client-go-ethereum/core/headerchain.go:365-371 | Across an entry that is not linked, the shortcut taken for the second ancestor of any stored child does not return what the parent links lead to. |
| LeftOvers.WrongAncestor | parallelizable-client-go-ethereum/core/headerchain.go:350-382 | A run after which a query above the head gets a sibling instead of the ancestor. |
| HeaderChains.LeftoverNumbers | parallelizable-client-go-ethereum/core/headerchain.go:570-578 | The scan upwards for leftover headers finds every number above the head that still has one. |
| HeaderChains.NoneAbove | parallelizable-client-go-ethereum/core/headerchain.go:570-578 | In a store closed under parent, a number without headers has none above it, so the scan may stop there. |
| HeaderChains.DeleteNumbers | parallelizable-client-go-ethereum/core/headerchain.go:582-599 | The batch removes every header of the numbers, side chains included, and their index entries, and nothing else. |
| HeaderChains.HeaderChain.RewindOne | parallelizable-client-go-ethereum/core/headerchain.go:537-600 | One rewind step moves the head to its parent; the pending batch then holds exactly what lies above the new head, although nothing has been flushed. |
| HeaderChains.HeaderChain.SetHead | parallelizable-client-go-ethereum/core/headerchain.go:513-607 | From any consistent chain a rewind not refused leaves a head whose time, if a time was asked for, else whose number is at or below the target, while every header of the path it has passed is above it; it cuts the index there, and, if it moved at all, leaves no stored header of any chain and no left-over entry above the new head; it terminates and refuses a time before genesis. The chain is then valid if and only if the old index was linked up to the new head, so always from a headed chain. |
| HeaderChains.CutChain | parallelizable-client-go-ethereum/core/headerchain.go:513-607 | Cutting store and index at a header, whatever was above, leaves exactly its path if and only if the index was linked up to it. |
| BlockChains.BlockChain.WriteHeadBlock | parallelizable-client-go-ethereum/core/blockchain.go:1056-1077 | The whole new state; and whenever the index was linked up to the parent it is linked up to the block, as after each intermediate block of a reorg. |
| BlockChains.TrueHead | parallelizable-client-go-ethereum/core/blockchain.go:1050-1060 | Without a reorg, writing a head leaves exactly its path if and only if the index was linked up to its parent and empty above it: what the source assumes of a true head. |
| BlockChains.BlockChain.Descend | parallelizable-client-go-ethereum/core/blockchain.go:2173-2184 | The longer chain is walked down to the other number, collecting its blocks in order. |
| BlockChains.BlockChain.Meet | parallelizable-client-go-ethereum/core/blockchain.go:2192-2215 | Stepping both chains back together ends at their highest common block; neither chain runs out. |
| BlockChains.BlockChain.FindFork | parallelizable-client-go-ethereum/core/blockchain.go:2167-2215 | The two collected chains are exactly the blocks above the highest common block of the old and the new path, whatever the index holds. |
| BlockChains.BlockChain.ApplyNewChain | parallelizable-client-go-ethereum/core/blockchain.go:2290-2310 | After the new blocks have been written in forward order the index has the path's entries from the common block up to the last of them and the old ones elsewhere, is linked up to it whenever it was linked up to the common block, and the reborn transactions are exactly theirs. |
| BlockChains.BlockChain.DeleteUseless | parallelizable-client-go-ethereum/core/blockchain.go:2314-2335 | Deleting the transactions that were not reborn and the entries above the new tip up to the first gap leaves the rerouted index cut at the tip, and the lookup of the path to the tip, complete or exact as it was for the old path. |
| BlockChains.ReorgTxs | parallelizable-client-go-ethereum/core/blockchain.go:2273-2319 | Why deleting old minus reborn transactions is right, although the new head's own are not counted as reborn. |
| BlockChains.BlockChain.Reorg | parallelizable-client-go-ethereum/core/blockchain.go:2167-2344 | From every usable state, in the longer, shorter, sibling and ancestor cases alike, the index keeps its entries up to the highest common block, then follows the chain up to the parent of the new head, or up to the new head if it was on the old one, and loses the entries above up to the first gap, left-over ones included; from an aligned state it is exactly that chain. No error exit is taken, and a complete or exact lookup is so again for that chain. |
| BlockChains.BlockChain.SetCanonical | parallelizable-client-go-ethereum/core/blockchain.go:2364-2384 | From every usable state: the whole new index; it is exactly the path to the head if and only if the old one followed that path as far as it is left as it is, and nothing above survived; it gets a gap if and only if it ended below that. From an aligned state it is the path up to the head, and exact if and only if there was a reorg or nothing was left over above the head; from an exact index, if and only if there was a reorg or the head header was not above the new head. A complete or exact lookup stays so. The known-block writer at lines 1438-1447 has the same two steps. |
| BlockChains.BlockChain.WriteBlockAndSetHead | parallelizable-client-go-ethereum/core/blockchain.go:1533-1547 | The same for storing a new block on a known parent and making it the head, so usable states are kept over every run, and aligned ones over every run of extensions, reorgs and rewinds. |
| LeftOvers.SiblingAfterRewind | parallelizable-client-go-ethereum/core/blockchain.go:1533-1547 | A run from genesis that ends with a stale entry above the head: import, rewind to a block without state, then a sibling whose parent is the head block. |
| LeftOvers.GapBelowHead | parallelizable-client-go-ethereum/core/blockchain.go:1533-1547 | A run that ends with numbers without an entry: a header insert below the head block, then a block on that head block. |
| BlockChains.HeadDetermines | parallelizable-client-go-ethereum/core/blockchain.go:2167-2344 | Two states with the same head have the same index and lookup: switching away and back restores both. |
| Rewind.RewindHashHead | parallelizable-client-go-ethereum/core/blockchain.go:636-709 | Terminates at the first header back, not more than 90000 blocks below the start without a pivot and not below the pivot with one, that has state and lies at or beyond the requested root; at genesis only when there is none. The returned number is that of the first header with the root. |
| Rewind.RewindPathHead | parallelizable-client-go-ethereum/core/blockchain.go:712-784 | The same for the path scheme, with recoverable states, the pivot, and roots that exist nowhere; the state of the result is available afterwards, or the result is genesis. |
| Rewind.RewoundFirst | parallelizable-client-go-ethereum/core/blockchain.go:636-784 | The result is unique: the first header meeting the goal whenever there is one. |
| BlockChains.BlockChain.RewindHead | parallelizable-client-go-ethereum/core/blockchain.go:794-799 | In both schemes the result is the one described by the goal, and has state or is genesis; without a requested root it is, for the hash scheme, the first header back with state within 90000 blocks, or from the pivot on, whenever there is one. |
| BlockChains.BlockChain.UpdateHeads | parallelizable-client-go-ethereum/core/blockchain.go:828-879 | The head block follows the rewind down to a block with state or to genesis, so the stateless exit at line 851 is unreachable. |
| BlockChains.BlockChain.SetHeadBeyondRoot | parallelizable-client-go-ethereum/core/blockchain.go:813-922 | Header chain, head block and snap block markers rewind together, from every usable state. If the head header moved, index and store are cut exactly there, and the index is exact if and only if it was linked up to there; the head block is unchanged while below the new head header, else what the state search from a header of the old path found; no stateless exit. The rewind ends at the highest header of the old path whose time, if one is given, else whose number is at or below the target, or, when the freezer forces it on, at the number of a block that was head block meanwhile; afterwards the head block is not below the freezer limit, unless the rewind has come down to it or was asked for a time that it meets. The lookup is not touched, so a complete one stays complete when the head block was on the path. |
| LeftOvers.RewindToTime | parallelizable-client-go-ethereum/core/blockchain.go:813-922 | A run in which a rewind by time keeps exactly the blocks up to that time. |
| ChainIndexers.RunKeeps | parallelizable-client-go-ethereum/core/chain_indexer.go:304-429 | In every interleaving of section processing, reorg notices and chain changes, also between two reads of one verification, exactly the stored sections have heads and each is the section-size-th ancestor of the next. |
| ChainIndexers.StepKeeps | parallelizable-client-go-ethereum/core/chain_indexer.go:243-429 | Each atomic step keeps that chain, including the commit after the lock was released. |
| ChainIndexers.RunConfirmed | parallelizable-client-go-ethereum/core/chain_indexer.go:243-300 | In every run each known or stored section, and the one worked on, ended with all its confirmations at or below some head that was noticed. |
| ChainIndexers.VerifyExact | parallelizable-client-go-ethereum/core/chain_indexer.go:422-429 | When all its reads find one linked path, verifying the last head alone keeps exactly the sections whose head is canonical. |
| ChainIndexers.SectionsCanonical | parallelizable-client-go-ethereum/core/chain_indexer.go:434-440 | In any run, every answered section head is canonical in the linked path found by the last read, whatever earlier reads found; and no canonical section is missing when all reads found that path. |
| ChainIndexers.CanonicalBelow | parallelizable-client-go-ethereum/core/chain_indexer.go:419-429 | When one section head is canonical, so are all earlier ones. |
| ChainIndexers.QuietUpdate | parallelizable-client-go-ethereum/core/chain_indexer.go:304-417 | An update that no reorg disturbs stores one more section, headed by the canonical hash at its end, and keeps the earlier ones. |
| ChainIndexers.ChainIndexer.SetValid | parallelizable-client-go-ethereum/core/chain_indexer.go:479-491 | The loop removes exactly the heads of the dropped sections. |
| ChainIndexers.ChainIndexer.VerifyLast | parallelizable-client-go-ethereum/core/chain_indexer.go:422-429 | Drops exactly the last sections whose head does not match, each in its own read, and stops at the first that does; it is the verification step the run theorems speak of. |
| ChainIndexers.ChainIndexer.HandleNewHead | parallelizable-client-go-ethereum/core/chain_indexer.go:243-300 | A reorg leaves, among the stored and among the known sections, exactly those that end at or below the head, and their heads; a new head adds exactly the known sections that end with their confirmations at or below it. |
| ChainIndexers.ChainIndexer.BeginUpdate | parallelizable-client-go-ethereum/core/chain_indexer.go:317-336 | With nothing in work, picks the section after the verified ones if and only if more is known than stored, and remembers the head before it. |
| ChainIndexers.ChainIndexer.ProcessStep | parallelizable-client-go-ethereum/core/chain_indexer.go:388-417 | Without the lock: a failed reset drops all sections; a block is taken if and only if it is canonical, stored, a child of the last one and accepted by the backend; after the last block the section is finished. |
| ChainIndexers.ChainIndexer.FinishUpdate | parallelizable-client-go-ethereum/core/chain_indexer.go:348-367 | Stores the section if and only if processing succeeded and its predecessor still has the head it began with; else verifies, and forgets what was known beyond. |
| ChainIndexers.ChainIndexer.Sections | parallelizable-client-go-ethereum/core/chain_indexer.go:434-440 | Answers the number of sections, the last block and the last head after verification. |
| Feeds.RunKeeps | parallelizable-client-go-ethereum/event/feed.go:73-180 | In every interleaving each subscription has exactly one entry, in the inbox or among the cases, and a running Send accounts for all channels it took. |
| Feeds.StepKeeps | parallelizable-client-go-ethereum/event/feed.go:73-180 | Each atomic step of Subscribe, remove and Send keeps this. |
| Feeds.LookupHits | parallelizable-client-go-ethereum/event/feed.go:108-114 | The lookup of a waiting removal always finds its channel, and never the removal case itself; the same holds at line 162. |
| Feeds.OnePlace | parallelizable-client-go-ethereum/event/feed.go:73-116 | With distinct channels a live subscription is in exactly one of the two lists and a waiting removal only among the cases. |
| Feeds.SendDelivers | parallelizable-client-go-ethereum/event/feed.go:120-180 | When Send ends it has sent to exactly the channels taken at its start less those removed before delivery, and returns their number; channels may be subscribed repeatedly. |
| Feeds.DeliversOnce | parallelizable-client-go-ethereum/event/feed.go:120-180 | With distinct channels each of these is sent to exactly once. |
| Feeds.SendTerminates | parallelizable-client-go-ethereum/event/feed.go:144-172 | Every step of Send decreases the two list lengths or its position, and no other goroutine's step increases them. |
| Feeds.SendGoesOn | parallelizable-client-go-ethereum/event/feed.go:144-176 | A waiting Send waits for its receivers only: any active channel may take the value next, a waiting removal is received or takes the lock, and in every other phase the next step is open. |
| Feeds.RemovalExact | parallelizable-client-go-ethereum/event/feed.go:160-168 | A removal inside Send takes one case of the channel away, counts it as dropped and shrinks the prefix exactly when the prefix holds that channel, and starts over with the first case. |
| Feeds.Feed.DeleteCase | parallelizable-client-go-ethereum/event/feed.go:213-215 | Shifting the array deletes exactly the case at the index. |
| Feeds.Feed.DeactivateCase | parallelizable-client-go-ethereum/event/feed.go:218-222 | The swap moves the case out of the prefix and permutes the array. |
| Feeds.Feed.FastLoop | parallelizable-client-go-ethereum/event/feed.go:149-155 | The non-blocking loop, which swaps and revisits places, ends with no ready channel in the prefix, only ready ones moved out, the array permuted, and one count per move. |
| Feeds.Feed.DoSelectRemove | parallelizable-client-go-ethereum/event/feed.go:160-168 | Computes the removal step inside Send in place: RemovalExact says what it is. |
| Feeds.Feed.DoSelectSend | parallelizable-client-go-ethereum/event/feed.go:169-172 | The chosen channel moves out of the prefix and is counted, and the non-blocking loop starts over with the first case. |
| Feeds.Feed.DoTrySend | parallelizable-client-go-ethereum/event/feed.go:149-155 | A delivery moves the channel out of the prefix, counts it and stays at its place; else the next case is tried. |
| Feeds.Feed.DoBeginSend | parallelizable-client-go-ethereum/event/feed.go:128-143 | The inbox moves to the end of the cases, all become active, nothing is counted, and the first case after the removal case is tried. |
| Feeds.Feed.DoUnsubscribe | parallelizable-client-go-ethereum/event/feed.go:95-107 | Takes one entry of the channel out of the inbox, or, if and only if there is none, leaves a waiting removal. |
| Feeds.Feed.DoRemoveDirect | parallelizable-client-go-ethereum/event/feed.go:111-115 | Takes one case of the channel away, and its waiting removal with it, while no Send runs. |
| Batchers.Batcher.HasCollision | AVS/parallel-exec-helper/index.js:180-204 | True if and only if an entry of the transaction's list and an entry of the list of some member of the group name the same key. |
| Batchers.SlotsNamed | AVS/parallel-exec-helper/index.js:184-200 | The slots of a transaction are exactly the keys that some entry of its access list names. |
| Batchers.Batcher.Assign | AVS/parallel-exec-helper/index.js:141-162 | A transaction goes to the first group it does not collide with, else to a new one, else to the sequential list; the batch invariant is kept: at most five non-empty groups, pairwise disjoint members, arrivals conserved as a multiset, first-fit order. |
| Batchers.Batcher.ProcessTransactionQueue | AVS/parallel-exec-helper/index.js:130-178 | The whole queue is assigned in order and cleared. |
| Batchers.Batcher.AddTransaction | AVS/parallel-exec-helper/index.js:101-128 | Recording a transaction with any list, known or not, overwrites its list and assigns the queue by first-fit; the groups of both epochs stay valid when the transaction is new or comes again with its list. |
| Batchers.Batcher.CleanGroups | AVS/parallel-exec-helper/index.js:207-213 | The epoch's groups become the historical ones, still valid. |
| Batchers.Batcher.Blocks | AVS/parallel-exec-helper/index.js:51-94 | While all groups are independent every parallel block is; there are at most five, current groups come before historical ones, and the sequential block is the current one if there is one. They are as many as there are groups, up to five. |
| Batchers.SequentialNeedsRivals | AVS/parallel-exec-helper/index.js:152-161 | A transaction in the sequential list collides with at least five others of its epoch. |
| Batchers.GroupsBound | AVS/parallel-exec-helper/index.js:139-162 | Greedy colouring: if no transaction collides with more than d others, d + 1 groups suffice, and with d at most four nothing is sequential. |
| Batchers.ListReplaced | AVS/parallel-exec-helper/index.js:116 | When a transaction's access list is replaced, an independent group stays so if and only if it does not hold the transaction or the new list avoids the keys of its other members. |
| Batchers.ListChanged | AVS/parallel-exec-helper/index.js:116-162 | The groups after adding a transaction with a list are independent if and only if the list fits every group that already held the transaction: first-fit itself neither makes nor breaks independence. |
| Batchers.ComesAgain | AVS/parallel-exec-helper/index.js:116-162 | A run that makes a group dependent: a transaction comes again with a list that names the key of another member. |
| ParallelExecution.ExecIsParallel | AVS/parallel-exec-helper/index.js:139-162 | If transactions touch only their listed keys, executing an independent group in order is the same as running all members side by side on the starting state. |
| ParallelExecution.AnyOrderSameState | README.md:59 | Every order of such a group gives the same final state from any starting state. |
| ParallelExecution.ParallelUnique | README.md:43 | Side-by-side execution has exactly one result. |
| Gas.GasPool.AddGas | parallelizable-client-go-ethereum/core/gaspool.go:29-35 | Overflows, which the source panics on, exactly when the sum exceeds 64 bits. |
| Gas.GasPool.SubGas | parallelizable-client-go-ethereum/core/gaspool.go:39-45 | Takes the gas or leaves the pool alone. |
| Gas.IntrinsicGas | parallelizable-client-go-ethereum/core/state_transition.go:71-117 | An overflow is reported if and only if the data part exceeds 64 bits, and the result is the exact cost, 21000 or 53000, 4 for each zero byte, 16 or 68 for each other, 2 for each word of init code, 2400 for each address, 1900 for each key and 25000 for each authorization, if and only if the whole cost fits. |
| Gas.CostsExact | parallelizable-client-go-ethereum/core/state_transition.go:71-132 | For every transaction that fits in memory intrinsic gas and floor are exact: no guard is taken and no addition wraps. |
| Gas.IntrinsicWraps | parallelizable-client-go-ethereum/core/state_transition.go:109-115 | The bound is needed: an access list beyond any memory would wrap the unchecked part around to less than the base cost. |
| Gas.FloorExact | parallelizable-client-go-ethereum/core/state_transition.go:120-132 | The floor is exact for data that fits in memory, and an overflow exactly when it exceeds 64 bits. |
| Gas.FloorDataGas | parallelizable-client-go-ethereum/core/state_transition.go:120-132 | On 64-bit words the floor is 21000 plus 10 for each token, of which a byte is four unless it is zero, or an overflow. |
| Gas.ChargedGas | parallelizable-client-go-ethereum/core/state_transition.go:512-525 | The gas paid for is at least the floor and at least half of the gas spent, and never more than both. |
| StateTransitions.MessagePriced | parallelizable-client-go-ethereum/core/state_transition.go:187-193 | Every message of a block is priced at the effective gas price, says otherwise what its transaction says, and skips no check. |
| StateTransitions.FeesSplit | parallelizable-client-go-ethereum/core/state_transition.go:527-549 | After the fee checks the price is what is burnt plus what the coinbase gets, which is within the tip cap and never negative; the tip computed is negative exactly when it is skipped under a base fee. |
| StateTransitions.FeeChecksFirst | parallelizable-client-go-ethereum/core/state_transition.go:304-396 | The checks before the purchase report the first of their fourteen errors, in the source's order, that applies, and nothing if none does; each error is stated by its own condition. |
| StateTransitions.RequiredSuffices | parallelizable-client-go-ethereum/core/state_transition.go:260-302 | The balance required pays for purchase and value if and only if the blob fee is covered; a blob fee cap not below the blob base fee covers it, and only disabled base fee checks with a zero blob fee cap let a message pass without. |
| StateTransitions.PurchaseExact | parallelizable-client-go-ethereum/core/state_transition.go:260-302 | The gas purchase takes exactly its price, without underflow, if and only if the sender has it; with a covered blob fee the sender also keeps enough for the value, and with no more than the required balance only then. |
| StateTransitions.NoBaseFeeUnderflows | parallelizable-client-go-ethereum/core/state_transition.go:365-380 | A message with disabled base fee checks and a zero blob fee cap whose purchase exceeds the checked balance. |
| StateTransitions.StateTransition.BuyGas | parallelizable-client-go-ethereum/core/state_transition.go:260-302 | Which of the two errors occurs and when; on an error neither pool nor balances change. |
| StateTransitions.StateTransition.PreCheck | parallelizable-client-go-ethereum/core/state_transition.go:304-396 | Reports the first of all errors up to the purchase that applies, and buys gas if and only if none does; on an error nothing has changed. |
| StateTransitions.StateTransition.ChargeGas | parallelizable-client-go-ethereum/core/state_transition.go:510-525 | On wrapping 64-bit words the gas charged is the spent gas less the capped refund, at least the floor. |
| StateTransitions.StateTransition.CalcRefund | parallelizable-client-go-ethereum/core/state_transition.go:618-634 | The refund is the most that exceeds neither the counter nor, taken twice before London and five times from then on, the gas used. |
| StateTransitions.StateTransition.ReturnGas | parallelizable-client-go-ethereum/core/state_transition.go:638-650 | The remaining gas goes back to sender and pool. |
| StateTransitions.PriceFits | parallelizable-client-go-ethereum/core/state_transition.go:638-650 | Once gas has been bought its price fits in 256 bits, so the conversion when it is returned does not panic. |
| StateTransitions.SettledBalances | parallelizable-client-go-ethereum/core/state_transition.go:526-549 | After settling, the sender has the unused gas back at the price paid, the coinbase has exactly what the used gas was paid above the burnt part, also when both are one account, and no other balance has changed. |
| StateTransitions.StateTransition.CheckAndBuy | parallelizable-client-go-ethereum/core/state_transition.go:408-475 | The later transfer-funds check never fails for messages of a block, nor for any other priced message whose blob fee is covered. |
| StateTransitions.StateTransition.RunEvm | parallelizable-client-go-ethereum/core/state_transition.go:477-491 | The EVM gets the remaining gas and a world that differs from the present one in one nonce: the sender's is one higher for a plain call, none for a creation. |
| StateTransitions.SettleTotal | parallelizable-client-go-ethereum/core/state_transition.go:526-549 | Refund, return and tip give back all of the purchase but the burnt part. |
| StateTransitions.StateTransition.Execute | parallelizable-client-go-ethereum/core/state_transition.go:408-557 | A message is rejected with the first of the twenty-one errors that applies, and applied if and only if none does. Then the EVM has got the gas above the intrinsic cost and the bought balances with the sender's nonce raised by one for a plain call; the gas charged is the gas spent less the most that may be refunded, taken five times, or twice before London, at least the floor, and the pool loses exactly it; nonces and code are those the EVM left, and the failure reported is the EVM's. Conservation, for messages of a block and any other payable one: the total of all balances falls by exactly gas used times what is burnt per gas plus the blob fee; the pool's overflow panic is unreachable. |
| StateProcessors.Process | parallelizable-client-go-ethereum/core/state_processor.go:57-130 | Over a whole block each transaction meets the world and the gas the earlier ones left, is applied with no error applying to it, and its receipt holds its charge, the running total and whether its call failed; the one the block stops at is rejected with the first error that applies to it. Pool plus cumulative gas is the gas limit, so gas used never exceeds it; cumulative gas strictly increases; the total balance falls by exactly the destroyed fees; and with an EVM that lowers no nonce no plain call is accepted twice. |
| StateProcessors.AppliedOnce | parallelizable-client-go-ethereum/core/state_transition.go:304-320 | Why no plain call is accepted twice: an accepted one has its sender's nonce and raises it, and no nonce falls. |
| StateProcessors.ChargedPositive | parallelizable-client-go-ethereum/core/state_processor.go:151-156 | Each transaction that fits in memory pays for at least half of its intrinsic cost and at most its gas limit. |
| StateProcessors.BlockIncreasing | parallelizable-client-go-ethereum/core/state_processor.go:93-106 | The receipts of any block whose transactions fit in memory have strictly increasing cumulative gas. |
| StateProcessors.StrictlyIncreasing | parallelizable-client-go-ethereum/core/state_processor.go:156-165 | Cumulative gas strictly increases over the receipts. |
| Balances.TotalUpdate | parallelizable-client-go-ethereum/core/state_transition.go:526-549 | The sum over all accounts changes by exactly what one account changes. |
| HashFns.HashFn.Get | parallelizable-client-go-ethereum/core/evm.go:98-134 | For any sequence of calls on a growing chain: the hash found by following parents down to the number, or zero; the cache stays exact and is never filled past the number. |
| DerivationPaths.Parse | parallelizable-client-go-ethereum/accounts/hd.go:68-118 | The loop parses all components in order and stops at the first bad one. |
| DerivationPaths.Print | parallelizable-client-go-ethereum/accounts/hd.go:122-136 | The loop prints every component with its hardened marker. |
| DerivationPaths.ParsePrinted | parallelizable-client-go-ethereum/accounts/hd.go:68-136 | Parsing a printed path gives it back if and only if it is not empty. |
| DerivationPaths.PrintedAgain | parallelizable-client-go-ethereum/accounts/hd.go:68-136 | Whatever is accepted prints to something that parses to the same path. |
| DerivationPaths.RelativePath | parallelizable-client-go-ethereum/accounts/hd.go:72-87 | What is printed after the "m/" parses as a path below 44'/60'/0'/0. |
| DerivationPaths.PrefixedNumbers | parallelizable-client-go-ethereum/accounts/hd.go:104-107 | Components may be written in base 2, 8 or 16 with their prefixes, in digits of either case; a leading zero means base 8. |
| DerivationPaths.NumbersExact | parallelizable-client-go-ethereum/accounts/hd.go:104-107 | Exactly which texts are numbers: digits of base 2, 8 or 16 after their prefix, else of base ten, with single underscores between digits or after a prefix. |
| DerivationPaths.UnderscoresIgnored | parallelizable-client-go-ethereum/accounts/hd.go:104-107 | A number has the value of its digits alone. |
| DerivationPaths.SpacesAround | parallelizable-client-go-ethereum/accounts/hd.go:75-99 | Spaces around a text do not count, and nothing else is cut off. |
| DerivationPaths.ComponentRange | parallelizable-client-go-ethereum/accounts/hd.go:94-114 | With any spaces around, exactly the numbers of 32 bits are components; higher and negative ones are out of range. |
| DerivationPaths.HardenedRange | parallelizable-client-go-ethereum/accounts/hd.go:94-114 | Exactly the numbers of 31 bits are hardened components, with any spaces around number and marker. |
| DerivationPaths.ComponentsExact | parallelizable-client-go-ethereum/accounts/hd.go:92-116 | Components are accepted exactly when each is, with their values in order; else the first bad one decides the error. |
| DerivationPaths.NoStart | parallelizable-client-go-ethereum/accounts/hd.go:72-91 | Nothing but spaces before the first slash is ambiguous, and "m" alone is empty. |
| TxIndexers.TxIndexer.RunTask | parallelizable-client-go-ethereum/core/txindexer.go:79-121 | Whenever everything from the tail to the head is indexed: uninterrupted, the wanted blocks are added and the unwanted ones above the tail removed, which leaves exactly the wanted range if and only if nothing unwanted was indexed below the tail or above the head; interrupted anywhere, everything from the tail to the head is still indexed. With the tail above the block after the head, the whole chain is indexed up to the head if it is wanted; else the blocks up to the tail are, if the highest of them has its body, and nothing changes if it has none. |
| TxIndexers.TaskOutcome | parallelizable-client-go-ethereum/core/txindexer.go:79-121 | Why: what each branch leaves, and the condition for exactly the wanted range. |
| TxIndexers.TaskBeyond | parallelizable-client-go-ethereum/core/txindexer.go:89-120 | An uninterrupted task brings the tail to the target if and only if there was no tail, the whole chain is wanted, or the highest block below the tail still has its body; what happens to a tail above the block after the head. |
| TxIndexers.StaleAfterStart | parallelizable-client-go-ethereum/core/txindexer.go:89-96 | A run that leaves a block indexed that is no longer wanted: two blocks imported before the first task. |
| TxIndexers.StaleAfterRewind | parallelizable-client-go-ethereum/core/txindexer.go:99-111 | A run that leaves blocks above the head indexed after a rewind. |
| TxIndexers.StuckAfterRewind | parallelizable-client-go-ethereum/core/txindexer.go:114-117 | A run in which a task after a rewind does nothing although no wanted block is indexed, and nothing remaining is reported. |
| TxIndexers.TxIndexer.NewBlock | parallelizable-client-go-ethereum/core/blockchain.go:1056-1063 | A new head block is indexed at once; before the next task it leaves something stale exactly when a block indexed below the tail stops being wanted. |
| TxIndexers.TxIndexer.IndexTransactions | parallelizable-client-go-ethereum/core/rawdb/chain_iterator.go:181-253 | Indexes from the top down, not at all when the highest body is missing; the tail written is where it stopped. |
| TxIndexers.TxIndexer.UnindexTransactions | parallelizable-client-go-ethereum/core/rawdb/chain_iterator.go:277-349 | Unindexes from the bottom up to the first missing body; the tail written is where it stopped. |
| TxIndexers.ReportDone | parallelizable-client-go-ethereum/core/txindexer.go:178-197 | Zero remaining is reported if and only if the tail is at or below the target or, because the count wraps around, beyond the block after the head. |
| TxIndexers.ReportCounts | parallelizable-client-go-ethereum/core/txindexer.go:178-197 | In between the report counts exactly the indexed and the missing blocks. |
| GasLimits.StepHones | parallelizable-client-go-ethereum/core/block_validator.go:170-191 | A step moves towards the goal, the desired limit or 5000, never past it, by less than a 1024th, and by the most this allows unless it reaches the goal, if and only if it does not climb over the 64-bit range. |
| GasLimits.ValidParentHones | parallelizable-client-go-ethereum/core/block_validator.go:170-191 | So every step does from the limit of a valid header, which consensus/beacon/consensus.go:244 and the other engines hold below 2^63. |
| GasLimits.StepWraps | parallelizable-client-go-ethereum/core/block_validator.go:170-191 | Above every valid limit there is a parent from which the limit wraps around. |
| GasLimits.Converges | parallelizable-client-go-ethereum/core/block_validator.go:170-191 | Iterated, the limit moves monotonically to the goal, reaches it within as many blocks as the distance, and stays. |
| Formats.AppendUint64 | parallelizable-client-go-ethereum/log/format.go:186-218 | The backwards loop over the 26-byte buffer never leaves it and writes the separated form. |
| Formats.AppendInt64 | parallelizable-client-go-ethereum/log/format.go:178-183 | The same for every signed number, the smallest included. |
| Formats.AppendBigInt | parallelizable-client-go-ethereum/log/format.go:226-257 | The same for integers of any size, in a buffer sized by the text. |
| Formats.FormattedNumeral | parallelizable-client-go-ethereum/log/format.go:178-257 | Removing the commas gives the decimal numeral. |
| Formats.FormattedPlaces | parallelizable-client-go-ethereum/log/format.go:186-257 | From 100000 on there is a comma at exactly every fourth place from the right, none leading. |
| Formats.FormattedSmall | parallelizable-client-go-ethereum/log/format.go:187-196 | Below 100000 there is none. |

## Left out

- Storage: the freezer, caches, bodies, receipts and logs; a block is its header together with its transaction hashes. The
  freezer appears only as an arbitrary limit in SetHeadBeyondRoot, and repair mode, which rewinds without the callback, is
  not modelled.
- Loading a chain from an existing database: chains are opened at genesis.
- Error exits of reorg and interrupted imports: with a store closed under parent they are proved unreachable.
- BlockChains.BlockChain.SetCanonical: does not recover missing states first, because execution is not part of this model.
- BlockChains.BlockChain.SetHeadBeyondRoot: does not say which root number is returned when several state searches follow one another; RewindHead says it of each search.
- Rewind.RewindPathHead: recovery rolls the state database back to the one recovered root; that it succeeds for a recoverable root is taken as given.
- Checkpoints, child indexers and throttling of the chain indexer, and restarts from a half-written index database.
- ChainIndexers.SectionsCanonical: speaks of moments at which the canonical index is one linked path, not of those between two batches of one reorg.
- Typed channels, panics on wrong element types and the lock and channel primitives of the feed; blocking is the disabledness of a step.
- Feeds.SendTerminates: a select may still block for ever on a channel nobody reads.
- The mempool subscription, timers and HTTP parts of the batcher; balance and nonce conflicts, which it does not look at.
- The parallel transaction pool of the client: parallelpool.go is not part of this model.
- EVM execution, nonces raised inside a contract creation, authorization lists beyond their cost, Verkle access events, system calls, withdrawals and block rewards; signature recovery, and code other than whether the sender has some that is not a delegation.
- StateTransitions.StateTransition.ReturnGas: does not model the panic on a price beyond 256 bits, which PriceFits shows cannot follow a purchase of some gas while all balances together fit in 256 bits.
- StateTransitions.StateTransition.Execute: on an error the gas already bought is not given back, as in the source, where the caller discards the state.
- TxIndexers.TxIndexer.RunTask: counts whole blocks, by number, and bodies are missing only above some number; the concurrent iterator behind it and the scheduling loop are not modelled.
- HashFns.HashFn.Get: the chain may grow between calls but does not lose headers.
- Formatting of 256-bit integers by the external library, escaping, and all other log formatting.
