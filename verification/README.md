# hcexplorer: a Dafny model of its stateful cores

hcexplorer serves block data of the Hcash chain. Most of it passes data through; this project models the parts
that hold state of their own, and proves what they keep.

* **Block summary cache** (`CachedBlocks`, `HeapOrder`, `BlockQueue`, `QueueRuns`, `TopHeights`, `HeightBracket`,
  `QueueEviction`, `QueueOffers`, `CacheRuns`, `ApiCache`, `CacheClients`). A map of blocks by hash, an index of hashes by
  height, and a bounded priority queue with back-pointers that decides what is evicted. Go's `container/heap` is written out over the queue's own Less, Swap, Push and Pop.
* **Reorganisation and the stake database** (`StakeChain`, `StakeDb`, `StakeStore`, `StakeMonitor`, `StakeRuns`).
  The node is a tree of blocks with a main chain that may change between calls. A stake node is told as the calls of
  ConnectNode that made it, so that equal stake nodes mean equal results of the library, whatever it computes.
  `StakeDb` gives the operations as functions on the state, `StakeStore` and `StakeMonitor` the methods that follow
  them, `StakeRuns` what holds after any stream of notices.
* **SQLite tables** (`SqlTables`, `SqlMonitors`, `SqlRuns`, `Resync`). The rows that the monitors write, the rewrite
  after a reorganisation, and the resync at start-up that brings three stores to the node's height. `Resync` ends in
  the state that the run theorem of `SqlRuns` starts from.
* **Handshake** (`Handshake`). Callers and handler of a chain monitor as a state machine over all interleavings of
  their channel and mutex steps; one proof covers the three monitors, which differ in the buffer of a channel and
  in the ways handling can end.
* **Batch pool values** (`StakeTree`). The one-pass computation against the values kept block by block.
* **PostgreSQL array text** (`ArrayText`, `UInt64Array`). The parser with its gotos, against a grammar for the format
  of PostgreSQL's "Array Input and Output Syntax", and the printer it inverts.
* **Address tables** (`AddressTable`, `AddressRuns`, `AddressHistory`, `AddressOutputs`, `AddressStore`, `BalanceCache`,
  `AddressPages`). Marking spent outputs as blocks are stored against the bulk rebuild, what rows and marks stand for,
  and the balance cache against the full query.
* **Mempool ticket fees** (`MempoolFees`). Sorting, the mineable index, and the top-N getters.

`Options`, `SeqMultisets` and `Subsequences` hold what several modules share. `dafny verify dfyconfig.toml` checks everything.

Block hashes are modelled by the blocks they stand for: a header commits to its parent, so with injective hashing a
hash determines a block and its whole ancestry. Where the code does not do what one would expect of it, the project
says exactly when it does, or shows an input for which it does not: `DefaultComparatorCycles`, `ReplacingExact`,
`FirstStay`, `LookupsAreRightExactly` and `StoredAgain`, `RemoveCachedBlock`, `ConnectExact`, `ConnectOld` and `SwitchExact`,
`BlockNoteExact`, `HeadCheckExact`, `OfferedAgain`, `BatchRefinesReplay`, `ResyncAfterKill`, `HistoryExact` and `CrossTreeSpendIsMissed`,
`BalanceCache.HistoryExact` and `LaterPageMisleads`, `Collect`.

## Model

| member | source | states |
|---|---|---|
| ArrayText.ScanLinearArray | db/dbtypes/internal/arrays.go:122-131 | With delimiter ',' it succeeds on exactly the texts of the grammar `LinearText` (braces nested around nothing, or one brace level of bare or quoted elements) and returns the elements such a text denotes; it fails on every other byte string. |
| ArrayText.ParseArray | db/dbtypes/internal/arrays.go:17-120 | For any source and any non-empty delimiter it ends, never indexes out of range and never divides by zero; every error names its offset; without an error each dimension counter divides the element count; with ',' and a single dimension the counter is the element count. |
| ArrayText.ParseBody | db/dbtypes/internal/arrays.go:37-98 | The loop of jumps back to the Element label ends by the measure (bytes left, whether a jump is due) and with one dimension reads what the functional reader reads. |
| ArrayText.ParseRound | db/dbtypes/internal/arrays.go:39-98 | One pass from the Element label to the next jump: the position advances past a delimiter, counters at or beyond the open depth stay positive, and the elements read so far match the text before the position. |
| ArrayText.ScanElement | db/dbtypes/internal/arrays.go:39-84 | Descends through braces and adds at most one element, the one the functional reader finds there. |
| ArrayText.ScanQuoted | db/dbtypes/internal/arrays.go:49-68 | Reads a quoted element with its escapes to the closing quote, or consumes everything when there is none. |
| ArrayText.ScanBare | db/dbtypes/internal/arrays.go:69-82 | Stops at the first delimiter or closing brace and nowhere before. |
| ArrayText.CloseElement | db/dbtypes/internal/arrays.go:86-98 | Counts and closes behind an element; a jump back leaves a positive depth and a larger position. |
| ArrayText.CloseBraces | db/dbtypes/internal/arrays.go:100-108 | Accepts nothing but closing braces, at most one for each open level. |
| ArrayText.CheckDimensions | db/dbtypes/internal/arrays.go:112-118 | Fails if and only if some counter does not divide the element count. |
| ArrayText.ReadLinearIffLinearText | db/dbtypes/internal/arrays.go:17-131 | The functional reader and the independent grammar agree in both directions, for every byte string and element list. |
| ArrayText.ItemsComplete | db/dbtypes/internal/arrays.go:39-98 | Every text the grammar builds from well-formed items is read back as the values of these items. |
| ArrayText.ElemsAreItems | db/dbtypes/internal/arrays.go:39-98 | Every text that is read comes from well-formed items of the grammar with those values. |
| ArrayText.EveryListHasText | db/dbtypes/internal/arrays.go:39-98 | Every list of elements, whatever bytes they hold, has a text that is read back as it. |
| UInt64Array.Value | db/dbtypes/types.go:119-140 | Prints nil as NULL and a slice as its decimal numbers, comma by comma, between braces; the rows below say what text that is. |
| UInt64Array.Destination.Scan | db/dbtypes/types.go:85-97 | NULL gives nil, a text gives a slice that is not nil or an error, any failure leaves the destination as it was, and it fails exactly on texts that stand for no list of numbers, naming the reason. |
| UInt64Array.Destination.ScanBytes | db/dbtypes/types.go:99-116 | The same for texts, whatever the destination held before; the error names the first element that is no number. |
| UInt64Array.DecimalInverse | db/dbtypes/types.go:130-133 | Reading back the decimal digits of a number gives the number. |
| UInt64Array.DecimalDigits | db/dbtypes/types.go:130-133 | The digit at place k from the end is the number divided by ten k times, modulo ten, and there are just as many digits as it takes. |
| UInt64Array.ParseUintExact | db/dbtypes/types.go:108-112 | Exactly the decimal digits of a number, zeros allowed in front, are read as the number. |
| UInt64Array.ParseNumbersAre | db/dbtypes/types.go:107-113 | A list is read when each element is the text of its number; otherwise the first that is none is named. |
| UInt64Array.PrintedScansTo | db/dbtypes/types.go:85-140 | A printed slice is read back as that slice and as no other, for every list of 64-bit numbers. |
| UInt64Array.PrintedIsShortest | db/dbtypes/types.go:119-140 | Of all texts read back as a slice the printed one is the shortest, and the only one of that length: no quotes, no escapes, no zeros in front. |
| UInt64Array.ScansToOnce | db/dbtypes/types.go:99-116 | A text stands for at most one list of numbers. |
| UInt64Array.RoundTrip | db/dbtypes/types.go:85-140 | Value then Scan restores every slice, keeping nil apart from empty, whatever the destination held. |
| CachedBlocks.ComparatorsAreStrictWeakOrders | hcdataapi/apicache.go:362-387 | The four comparators by height, access count, access time, and access count then height are strict weak orders. |
| CachedBlocks.DefaultComparatorCycles | hcdataapi/apicache.go:392-403 | The default comparator is no order at any resolution: three blocks precede one another in a circle. |
| CachedBlocks.BinnedOrder | hcdataapi/apicache.go:392-403 | Accesses at least the resolution apart are told by their times, others by the counts. |
| CachedBlocks.CachedBlock.Access | hcdataapi/apicache.go:284-288 | Counts one access, notes its time, and returns the summary. |
| HeapOrder.RootIsMinimum | hcdataapi/apicache.go:337-347 | No entry of a heap precedes its root. |
| HeapOrder.SinkRound | hcdataapi/apicache.go:337-347 | One round of the sinking loop of container/heap keeps the order around the sinking position, or settles it. |
| HeapOrder.RiseRound | hcdataapi/apicache.go:337-347 | The same for the rising loop. |
| BlockQueue.BlockPriorityQueue.Swap | hcdataapi/apicache.go:342-346 | Exchanges two blocks and keeps every block's own position right. |
| BlockQueue.BlockPriorityQueue.Init | hcdataapi/apicache.go:456-462 | heap.Init over Less and Swap: the same blocks, in heap order for every strict weak order, positions right. |
| BlockQueue.BlockPriorityQueue.Fix | hcdataapi/apicache.go:523-523 | heap.Fix restores heap order after one entry changed. |
| BlockQueue.BlockPriorityQueue.Remove | hcdataapi/apicache.go:612-612 | heap.Remove takes out exactly the entry at the index, marks it as out of the queue, and keeps heap order and positions. |
| BlockQueue.BlockPriorityQueue.Insert | hcdataapi/apicache.go:470-513 | What is added and what is evicted, the contents otherwise conserved, capacity kept, heap order and positions kept. |
| BlockQueue.BlockPriorityQueue.UpdateBlock | hcdataapi/apicache.go:517-527 | The block stands for the new summary with one access, everything else is conserved, heap order, positions and bracket kept. |
| BlockQueue.BlockPriorityQueue.RemoveIndex | hcdataapi/apicache.go:610-614 | Exactly the entry at the index leaves; heap order and positions are kept. |
| BlockQueue.BlockPriorityQueue.RemoveBlock | hcdataapi/apicache.go:593-606 | Removes the block if it knows a position other than 0 in the queue and its hash is the one found there, and otherwise changes nothing; so never the root. |
| BlockQueue.BlockPriorityQueue.Reheap | hcdataapi/apicache.go:456-462 | Reorders only, into heap order under the present comparator. |
| BlockQueue.BlockPriorityQueue.ResetHeap | hcdataapi/apicache.go:434-453 | The queue holds the given blocks, each accessed once, in heap order; positions are right if the blocks are distinct; the bracket is made anew. |
| BlockQueue.BlockPriorityQueue.constructor | hcdataapi/apicache.go:314-325 | An empty queue with the empty bracket and the default comparator. The code bins access times by 1 ms, where its comment says one day. |
| QueueRuns.InsertEvictsMinimum | hcdataapi/apicache.go:470-513 | Insert evicts only a minimum of the queue, strictly below the newcomer, conserves all other entries and never exceeds the capacity; it turns a newcomer away only if some minimum is not below it. |
| QueueRuns.InsertRunHoldsTop | hcdataapi/apicache.go:470-513 | By height, a run of calls that each keep heap order and do what Insert promises ends with exactly the `capacity` greatest heights offered, or all of them if fewer. |
| QueueOffers.OfferAll | hcdataapi/apicache.go:470-513 | The same for the queue itself, and for each comparator that is an order: a new queue, after any sequence of Insert calls, is in heap order with positions right, and holds the greatest heights offered, the last offers or the first offers, as the rows below say. |
| QueueEviction.LatestStay | hcdataapi/apicache.go:374-376 | By access time, with a clock that moves on, the queue holds exactly the last `capacity` offers, each with one access at its own time: what comes in pushes out the oldest. |
| QueueEviction.FirstStay | hcdataapi/apicache.go:368-370 | By access count it holds exactly the first `capacity` offers: the queue has its own objects, which lookups never access, so that nothing is ever pushed out. |
| QueueEviction.HighestStay | hcdataapi/apicache.go:381-386 | By access count and then height it holds the greatest heights offered. |
| TopHeights.TopIsUnique | hcdataapi/apicache.go:470-513 | The multiset of the k greatest heights is determined. |
| TopHeights.RunHoldsTop | hcdataapi/apicache.go:470-513 | Replacing the least height by a greater newcomer, over any run, keeps exactly the k greatest. |
| QueueRuns.RunEncloses | hcdataapi/apicache.go:563-636 | After any run of inserts, updates, removals, reorderings and resets the bracket encloses every queued height. |
| QueueRuns.GrowingRunIsExact | hcdataapi/apicache.go:406-453 | After creation or a reset followed only by growing inserts both ends of the bracket are heights of the queue. |
| QueueRuns.ReplacingExact | hcdataapi/apicache.go:580-589 | A replacement keeps an exact bracket exact if and only if the height that left still lies within the heights of the queue. |
| HeightBracket.WidenAllIs | hcdataapi/apicache.go:618-636 | A rescan takes in every height it sees, never narrows, and only ever moves an end to a height it saw. |
| HeightBracket.RemovingBracket | hcdataapi/apicache.go:571-575 | Removing a block never moves an enclosing bracket. |
| HeightBracket.RescanCatchesUp | hcdataapi/apicache.go:563-589 | A removal at an end of the bracket, or a replacement that moves away from one, looks at all heights, so that whatever bracket there was encloses them afterwards. |
| ApiCache.APICache.StoreBlockSummary | hcdataapi/apicache.go:123-176 | Index, map and queue are updated together: the keys of the map are exactly the hashes in the queue, without repeats and at most `capacity`, whatever the comparator. The index notes every store, but a summary whose hash is cached already is dropped. Objects made are new. |
| ApiCache.APICache.constructor | hcdataapi/apicache.go:72-84 | An empty cache of its own objects, in agreement with its empty queue. |
| ApiCache.InsertKeepsAgreement | hcdataapi/apicache.go:146-175 | Following what Insert reports keeps the keys of the map equal to the hashes in the queue, with no hash twice. |
| ApiCache.APICache.GetBlockSummary | hcdataapi/apicache.go:193-200 | Finds what the map holds for the hash last stored at that height, exactly when that hash is still queued; the summary found has that hash, but need not be the one last stored. |
| ApiCache.APICache.GetCachedBlockByHash | hcdataapi/apicache.go:242-257 | A hit counts an access of the object in the map, the queue's contents are untouched, hits and misses are counted. |
| ApiCache.APICache.GetCachedBlockByHeight | hcdataapi/apicache.go:203-213 | Finds the block of the hash in the index, if that is in the map. |
| ApiCache.APICache.RemoveCachedBlock | hcdataapi/apicache.go:180-189 | For a block the cache handed out nothing changes, as its object knows no position in the queue. For a block that does know one its entry leaves the queue and, the map being touched only when a hash does not parse, its hash stays in the map: map and queue then disagree. |
| ApiCache.DropDisagrees | hcdataapi/apicache.go:180-189 | An entry that leaves the queue alone leaves its hash behind in the map. |
| ApiCache.APICache.Watch | hcdataapi/apicache.go:36-68 | A quiet queue that needs it is brought into heap order, without changing its contents. |
| CacheRuns.StoredHere | hcdataapi/apicache.go:153-175 | Right after a store a lookup at its height finds nothing or the summary stored if and only if the hash was not cached before, or was cached for that very summary; else it finds the summary that was cached. |
| CacheRuns.RunIsRightExactly | hcdataapi/apicache.go:123-257 | Throughout any run of stores and lookups every lookup finds nothing or the summary last stored at its height if and only if every store is harmless: it offers no other data for a cached hash, brings in no hash noted at another height, and pads the index with no cached hash. |
| CacheRuns.LookupsAreRightExactly | hcdataapi/apicache.go:123-257 | When a hash belongs to blocks of one height, that is so if and only if no block is stored again with other data while it is cached. |
| CacheRuns.LookupFindsFirst | hcdataapi/apicache.go:153-172 | Whatever a lookup finds was the first to be stored under its hash since the hash was last absent from the cache. |
| CacheClients.Serve | hcdataapi/apicache.go:123-257 | Any stores and lookups on a new cache make such a run, so that the exact condition holds of the cache itself. |
| CacheClients.StoredAgain | hcdataapi/apicache.go:153-158 | A block stored twice with different data: the lookup answers with the first. |
| StakeChain.TicketsInBlock | txhelpers/staketree.go:141-153 | The hashes of the ticket purchases of a block, each once and in the order of the block, and nothing else. |
| StakeChain.TicketsSpentInBlock | txhelpers/staketree.go:171-181 | The same for the tickets that the votes of a block spend. |
| StakeChain.RevokedTicketsInBlock | txhelpers/staketree.go:197-206 | The same for the tickets that the revocations of a block revoke. |
| StakeChain.TicketsInMembers | txhelpers/staketree.go:141-206 | Each of the three picks out exactly the transactions of its kind. |
| StakeChain.TicketsCounted | txhelpers/staketree.go:141-206 | Each transaction of the block counts exactly once. |
| StakeChain.TicketsPicked | txhelpers/staketree.go:141-153 | The purchases stand at ascending places of the block, and no purchase is at another place. |
| StakeChain.SpentPicked | txhelpers/staketree.go:171-181 | The same for votes. |
| StakeChain.RevokedPicked | txhelpers/staketree.go:197-206 | The same for revocations. |
| StakeChain.SumJoined | stakedb/stakedb.go:415-433 | The pool value is additive over the live tickets, |
| StakeChain.SumOfSame | stakedb/stakedb.go:415-433 | and does not depend on their order. |
| StakeChain.PoolInfoIs | stakedb/stakedb.go:400-443 | The size counts the live tickets, value times 1e8 is the sum of their prices, average times size is the value, and an empty pool has average 0. |
| StakeStore.StakeDatabase.BlockAt | stakedb/stakedb.go:171-185 | The cached block of the height, else the node's main chain block, else none. |
| StakeStore.StakeDatabase.ConnectBlock | stakedb/stakedb.go:209-237 | State and outcome are those of `StakeDb.Connect`, including the cache entry made before a block is refused. |
| StakeStore.StakeDatabase.ConnectNode | stakedb/stakedb.go:239-276 | The new stake node, its tip, the pool info of the new node kept under the block, spent and revoked tickets gone from the price cache and the other live ones in it. |
| StakeStore.StakeDatabase.PoolInfoBest | stakedb/stakedb.go:400-443 | Whatever right prices are cached, size, value and average are those of fetching every price. |
| StakeStore.StakeDatabase.DisconnectBlock | stakedb/stakedb.go:288-319 | State and outcome are those of `StakeDb.Disconnect`. |
| StakeStore.StakeDatabase.DisconnectBlocks | stakedb/stakedb.go:322-333 | The loop stops at the first failure and does nothing for a negative count. |
| StakeDb.ConnectExact | stakedb/stakedb.go:209-276 | Connecting a child of the tip gives the replay of its chain if and only if the block served for the maturing height holds the tickets of the chain's own block there. |
| StakeDb.ConnectChild | stakedb/stakedb.go:209-276 | It does when cached blocks up to the tip are the chain's and the node serves the rest; and that stays so, stale entries above the tip included. |
| StakeDb.ConnectOld | stakedb/stakedb.go:209-237 | A block offered at or below the tip is refused but cached: the state stays in order if and only if the block is on the chain. |
| StakeDb.DisconnectBack | stakedb/stakedb.go:288-333 | Disconnecting undoes connecting: the node and tip of the ancestor, every cache entry kept; asked for more blocks than there are it fails at genesis. |
| StakeDb.ConnectFromCache | stakedb/stakedb.go:209-237 | While the cache holds exactly the last `maturity` blocks the process has connected it goes on doing so, and the node is asked only for blocks from before that: for others it makes no difference what chain the node serves. |
| StakeDb.ConnectAllJoined | stakedb/chainmonitor.go:188-200 | Connecting a branch stops at the first block that does not connect. |
| StakeDb.ConnectBranch | stakedb/chainmonitor.go:188-200 | Connecting a branch on the tip gives the replay of its last block. |
| StakeMonitor.ChainMonitor.OnBlock | stakedb/chainmonitor.go:90-136 | One round of the block handler follows `HandleBlock`: buffering, switching at the announced head, the panics. |
| StakeMonitor.ChainMonitor.SwitchToSideChain | stakedb/chainmonitor.go:151-208 | Follows `Switch`: common ancestor, roll back, replay, and each failure in between. |
| StakeMonitor.ChainMonitor.OnReorg | stakedb/chainmonitor.go:218-243 | A notice starts a reorganisation unless one is in progress. |
| StakeRuns.TicketStateEqualsReplay | stakedb/chainmonitor.go:69-252 | From genesis, after any stream of notices a node may send: no panic, the stake node is the replay of the announced chain, every pool info entry is that of its own block's ancestry, and the buffer is empty outside a reorganisation. |
| StakeRuns.RunFollows | stakedb/chainmonitor.go:69-252 | The same from any state in order. |
| StakeRuns.ReorgEndsOnBranch | stakedb/chainmonitor.go:90-208 | If the blocks after an accepted notice form a branch from a block of the chain to the announced head, the database ends on that branch. |
| StakeRuns.OverlapChangesNothing | stakedb/chainmonitor.go:227-234 | A notice during a reorganisation, whatever it says, changes nothing in the rest of the run. |
| StakeRuns.SwitchOver | stakedb/chainmonitor.go:151-208 | Rolling back to the root of a branch and connecting it succeeds with the announced head and height. |
| StakeRuns.SwitchExact | stakedb/chainmonitor.go:151-208 | The switch always reports the head of its branch, but leaves the replay of that head if and only if the branch starts on the chain: the code compares heights only. |
| StakeRuns.HeadHeightExact | stakedb/chainmonitor.go:114-128 | At the announced head the handler panics if and only if the height in the notice is not that of the head. |
| StakeRuns.GapPanics | stakedb/chainmonitor.go:172-186 | A branch that starts above the tip is not connected at all, and the handler panics. |
| StakeRuns.ExtendsFromCache | stakedb/stakedb.go:209-237 | Over any run of blocks that extend the chain, each with whatever chain the node serves at the time, the stake node stays the replay once the process has connected `maturity` blocks itself. |
| StakeTree.BuildStakeTree | txhelpers/staketree.go:28-136 | Fails without a genesis block, dereferences nil exactly when a block it needs is missing, and else leaves for every required height the total price of the tickets live before that block, and 0 below. |
| StakeTree.PoolValue | txhelpers/staketree.go:78-97 | The cache of prices never changes the sum. |
| StakeTree.ChainIsComplete | txhelpers/staketree.go:103-107 | On a whole chain the pass gets through if and only if no height at or above StakeEnabledHeight lies below the maturity. |
| StakeTree.BatchStep | txhelpers/staketree.go:103-119 | One block keeps the batch and the stake database together if and only if it has no tickets too early to mature. |
| StakeTree.BatchRefinesReplay | txhelpers/staketree.go:103-119 | The batch passes through the stake database's node at height i if and only if no block up to there is too early to mature its tickets at StakeEnabledHeight. |
| StakeTree.BatchRefinesIncremental | txhelpers/staketree.go:64-133 | poolValues[i] is the value the stake database keeps for block i-1, from the cache or at the tip. |
| SqlTables.SqlDb.StoreBlockSummary | db/hcsqlite/sqlite.go:202-228 | Replaces the row of the height and raises the cached height if need be; the cached height is always that of the highest row. |
| SqlTables.SqlDb.StoreStakeInfoExtended | db/hcsqlite/sqlite.go:601-627 | The same for the stake info table. |
| SqlTables.SqlDb.GetBlockSummaryHeight | db/hcsqlite/sqlite.go:247-259 | The height of the highest row, or -1, whether cached or queried. |
| SqlTables.SqlDb.GetStakeInfoHeight | db/hcsqlite/sqlite.go:263-275 | The same for the stake info table. |
| SqlTables.SqlDb.constructor | db/hcsqlite/sqlite.go:66-122 | The cached heights are found from the tables in the file. |
| SqlTables.SqlDb.GetBestBlockSummary | db/hcsqlite/apisource.go:542-551 | The highest row, or none if there is no row. |
| SqlMonitors.CollectBlockInfo | blockdata/blockdata.go:139-202 | The row of a block carries the pool info kept for it, or else that of the best stake node. |
| SqlMonitors.BlockDataMonitor.OnBlock | blockdata/chainmonitor.go:102-190 | Follows `StoreBlock`. During a reorganisation no row changes; otherwise, when the node has moved on, the rows of the block announced are stored at its height and no other summary changes, and when it has not, those of the node's best block. |
| SqlMonitors.SqlMonitor.SwitchToSideChain | db/hcsqlite/chainmonitor.go:147-210 | Rewrites the rows of every buffered block, then returns the highest row. |
| SqlMonitors.SqlMonitor.OnBlock | db/hcsqlite/chainmonitor.go:92-133 | Follows `Rewrite`: buffering, the rewrite at the announced head, the head check and its panic. |
| SqlMonitors.SqlMonitor.OnReorg | db/hcsqlite/chainmonitor.go:220-248 | A notice starts a reorganisation unless one is in progress. |
| SqlRuns.CollectionQueue.ProcessBlock | ntfnhandlers.go:94-97 | Every block goes to the three monitors in the order set up in main.go: stakedb, blockdata, hcsqlite, while the node's chain may move on in between. |
| SqlRuns.CollectionQueue.ProcessBlocks | ntfnhandlers.go:86-116 | The queue is worked off one block at a time, whatever the node's chain is each time. |
| SqlRuns.TablesFollow | db/hcsqlite/chainmonitor.go:69-210 | After any stream of notices, the node having moved on or not, in which new heads are at least as high as the chain, blocks offered again are the tip or were connected by this process, and a best block of the announced height is the block announced: no monitor panics, and both tables hold exactly one row for every block of the announced chain, each with the pool info found by replaying its ancestry. |
| SqlRuns.OfferedAgain | blockdata/blockdata.go:160-168 | A block of the chain offered again after a restart gets the pool info of the tip; the tables stay right if and only if that equals its own. |
| SqlRuns.BlockNote | main.go:348-352 | Outside a reorganisation the row stored has its own block's pool info, as the stake database has handled the block first. |
| SqlRuns.BlockNoteExact | blockdata/chainmonitor.go:158-172 | For a child of the tip the last of these conditions is exact: with another best block of the same height the row of that one is stored. |
| SqlRuns.HeadCheckExact | db/hcsqlite/chainmonitor.go:118-123 | After the rewrite the head check panics if and only if some row was stored above the new head. |
| SqlRuns.CollectedIsOwn | blockdata/blockdata.go:158-168 | A block whose pool info is kept, or the tip, gets its own row. |
| SqlRuns.FaithfulAfterBranch | db/hcsqlite/chainmonitor.go:177-196 | Rewriting a branch leaves one own row for every height up to the new tip. |
| Resync.WiredDb.ResyncDBWithPoolValue | db/hcsqlite/sync.go:132-327 | It demands a new stake database exactly for the heights where the code says so, neither panic can fire, a successful run leaves the stake node at the returned height and each table at the greater of that and its old height, with no gaps; from a node at or above all stores all three end at the node's height; an uninterrupted run is successful; and rows of the node's chain stay so. Rows that a table had are left as they were; and it is cancelled if and only if the quit channel closes before the last check, at the height that the number of checks tells. |
| Resync.WiredDb.StartHeight | db/hcsqlite/sync.go:161-199 | The start is the lowest of the three heights, with the refusal and the rewind that go with it. |
| Resync.RefusesExactly | db/hcsqlite/sync.go:167-179 | Refused are exactly an empty table under a stake database that has blocks, and a roll back of more than half of its blocks. |
| Resync.WiredDb.Rewind | db/hcsqlite/sync.go:182-198 | Ends exactly at the start height, or is cancelled after as many blocks as the quit channel stayed open for, with the store in order. |
| Resync.WiredDb.CatchUp | db/hcsqlite/sync.go:229-322 | One round connects block i if the stake node lacks it and stores it in the tables that lack it. |
| Resync.WiredDb.CatchUpLoop | db/hcsqlite/sync.go:220-322 | Ends although the height moves, as that is bounded and never drops, with every height dealt with. |
| Resync.WiredDb.ResyncAfterKill | db/hcsqlite/sync.go:161-327 | A run killed between connecting a block and storing its rows is repaired by the next one, unless a table lacked the first block after genesis, when it is refused. |
| Resync.SyncedStoresAgree | db/hcsqlite/sync.go:161-327 | A resync that brought the stores level leaves what the monitors' run theorem starts from. |
| Handshake.HandshakeIsSafe | stakedb/chainmonitor.go:56-136 | In every interleaving of callers with the handler: at most one block in flight, the token is always found, releases and returns follow the finished blocks in order and one each, and a call about to return had its own block finished, last. |
| Handshake.InvStep | blockdata/chainmonitor.go:68-196 | Every step of every goroutine keeps the invariant. |
| Handshake.InvRun | db/hcsqlite/chainmonitor.go:58-141 | So does every run. |
| Handshake.NeverStuck | stakedb/chainmonitor.go:56-136 | While a call is under way and the process lives, some goroutine can take a step. |
| Handshake.StepsRunOut | stakedb/chainmonitor.go:56-136 | With no new calls the steps come to an end under every schedule. |
| Handshake.EveryCallReturns | stakedb/chainmonitor.go:56-136 | Where they end every call has returned, unless the process died in a panic. |
| Handshake.NoPanicPaths | blockdata/chainmonitor.go:81-200 | A monitor all of whose paths release, as blockdata's, stays alive. |
| Handshake.MonitorsDie | stakedb/chainmonitor.go:118-128 | How the three die: blockdata never; stakedb with the caller of the block at hand waiting for a release that never comes; hcsqlite only after every finished block was released. |
| AddressTable.SetSpending | db/hcpg/internal/addrstmts.go:61-63 | The UPDATE changes the spending columns of exactly the rows of the outpoint. |
| AddressTable.MarksAreUnique | db/hcpg/pgblockchain.go:767-836 | Without double spends the spending columns are determined, but for the spending row id. |
| AddressTable.MarkedIffInTime | db/hcpg/pgblockchain.go:755-833 | Any order of inserts and marks ends with every row marked rightly if and only if each row is inserted before the mark of the input that spends it. |
| AddressRuns.TreeInOrder | db/hcpg/pgblockchain.go:711-833 | The statements of one transaction tree are in such an order by themselves. |
| AddressRuns.MergeInOrder | db/hcpg/pgblockchain.go:607-622 | So is every interleaving of two trees that do not spend each other's rows. |
| AddressRuns.BlockKeepsMarks | db/hcpg/pgblockchain.go:596-640 | Storing a block keeps every row marked rightly, however its two trees interleave, if neither spends a row of the other and no earlier input spends a row of the block. |
| AddressRuns.BulkMarksAll | db/hcpg/pgblockchain.go:845-916 | A rebuild over all inputs, in whatever order they are read, marks every row rightly. |
| AddressRuns.BulkMarkOfOne | db/hcpg/queries.go:30-110 | For one id there is one mark, of that input, with row id 0, or none if it is a coinbase input. |
| AddressRuns.BulkEqualsIncremental | db/hcpg/pgblockchain.go:741-916 | For any list of statements that marks inputs after inserting them, leaving the marks out and rebuilding gives the same rows, in everything but the spending row id, if and only if rows came before the marks. |
| AddressHistory.HistoryExact | db/hcpg/pgblockchain.go:596-916 | The same for any history of stored blocks, each an interleaving of its two trees, with nothing asked of the statements: the rebuild is always right, and marking block by block agrees with it if and only if rows came before the marks. |
| AddressHistory.HistoryRebuilds | db/hcpg/pgblockchain.go:596-916 | They agree, and both are right, when no tree spends a row of the other tree of its block and no input stored earlier spends a row of a later block. |
| AddressHistory.HistoryDisciplined | db/hcpg/pgblockchain.go:711-833 | Every history of stored blocks marks each input that spends something after inserting it, and nothing else, with the right ids. |
| AddressHistory.CrossTreeSpendIsMissed | db/hcpg/pgblockchain.go:607-622 | A block whose stake tree spends an output of its regular tree and is stored first: marking leaves the output unspent. |
| AddressRuns.StoreOpsAreNoMarks | db/hcpg/pgblockchain.go:763-765 | Storing a tree without spending info is storing it with, less the marks. |
| AddressRuns.InOrderTwice | db/hcpg/pgblockchain.go:596-687 | Two lists of statements in order, the second on what the first leaves, are in order one after the other. |
| AddressStore.ChainDB.SetSpendingForFundingOP | db/hcpg/queries.go:157-168 | Marks the rows of the outpoint and reports how many places of the table there are for it. |
| AddressStore.ChainDB.InsertVouts | db/hcpg/queries.go:1245-1293 | Consecutive ids for the outputs, and one unspent address row for every address of every output, as told by the next two rows. |
| AddressOutputs.RowsOfTxAre | db/hcpg/queries.go:1275-1281 | A row is among them if and only if it has an address, the place, the id and the value of one and the same output. |
| AddressOutputs.RowsOfTxInOrder | db/hcpg/queries.go:1245-1293 | They come output by output and address by address, each once. |
| AddressStore.ChainDB.InsertVins | db/hcpg/queries.go:1197-1231 | The inputs are added in order, and the ids returned are theirs. |
| AddressOutputs.VinsAre | db/hcpg/queries.go:1197-1231 | The vins of a tree are the inputs of its transactions, with their places, |
| AddressOutputs.VinsInOrder | db/hcpg/queries.go:1197-1231 | transaction by transaction and input by input, each once. |
| AddressStore.ChainDB.StoreTxns | db/hcpg/pgblockchain.go:700-836 | The tables change by the statements of one tree, with the ids the database gave out: the inputs, one unspent row for every address of every output, then a mark for every input that spends something, or no marks; the counts returned are those of the statements. |
| AddressOutputs.TreeRowsAre | db/hcpg/pgblockchain.go:741-760 | The rows of a tree are the outputs of its transactions, each with the ids of its own transaction and output. |
| AddressOutputs.TreeMarksAre | db/hcpg/pgblockchain.go:767-833 | The marks of a tree are for its inputs that spend something, each with the row ids of its own transaction and input. |
| AddressOutputs.HistoryStandsFor | db/hcpg/pgblockchain.go:596-836 | After any history of stored blocks the vins are exactly the inputs of the stored transactions, every row stands for an output of one, and every address of every output has its row. |
| AddressOutputs.HistoryTellsSpending | db/hcpg/pgblockchain.go:596-916 | And a row is marked spent exactly when an input of a stored transaction names its outpoint, with the hash and place of such an input: after a rebuild always, after marking block by block if no tree spends the other and no input came before its output. |
| AddressStore.ChainDB.SetSpendingForVinDbIDs | db/hcpg/queries.go:30-110 | Marks for each listed input, coinbase inputs skipped, row id 0, with the number of rows affected; an unknown id rolls everything back. |
| AddressStore.ChainDB.UpdateSpendingInfoInAllAddresses | db/hcpg/pgblockchain.go:845-916 | The chunks of 1000 come to the marks of all ids, and every row ends up marked rightly if none was wrong before. |
| BalanceCache.ReduceAddressHistory | explorer/explorertypes.go:171-216 | Nothing for an empty page; else the counts and totals of all its rows, whatever their addresses, and its transactions, as told by the next rows. |
| AddressPages.TransactionsAre | explorer/explorertypes.go:183-204 | A transaction is listed if and only if it is the funding transaction of a row or the spending transaction of a spent one, with the value of that row. |
| AddressPages.TransactionsInOrder | explorer/explorertypes.go:177-205 | They come in the order of the rows, one for each and one more, behind it, if it is spent. |
| AddressPages.SpendsShown | explorer/explorertypes.go:193-204 | Where rows are marked rightly, every spend shown is by a transaction with an input that spends an outpoint of the page, and every row that an input spends is shown so. |
| AddressPages.TransactionsCounted | explorer/explorertypes.go:177-205 | There are as many as rows and spent rows together. |
| AddressPages.ReducedIs | explorer/explorertypes.go:176-215 | On a page of one address every row counts as funding and is received, the spent ones count as spending and are sent, and the rest is unspent. |
| BalanceCache.HistoryDb.AddressHistory | db/hcpg/pgblockchain.go:207-287 | Answer and cache are those of `History` at the best height of the blocks table: one step of the runs below. |
| BalanceCache.HistoryDb.HeightDB | db/hcpg/pgblockchain.go:134-137 | The greatest stored height, or none if there is no block. |
| BalanceCache.HistoryDb.RetrieveAddressSpentUnspent | db/hcpg/queries.go:241-275 | The full aggregates over all rows of the address. |
| BalanceCache.HistoryDb.StoreBlock | db/hcpg/pgblockchain.go:596-687 | Both trees are stored, the height noted, the cache emptied and made valid for that height: one step of the runs below, and one block of the histories above. |
| BalanceCache.TotalsOfAddress | db/hcpg/internal/addrstmts.go:46-51 | The rows selected for an address have the totals of the whole table. |
| AddressPages.RowsAreNewestFirst | db/hcpg/internal/addrstmts.go:46-51 | The rows selected for an address are exactly its rows, by descending place in the table. |
| AddressPages.PageIs | db/hcpg/internal/addrstmts.go:49-51 | A page is the part of these from the offset on, as far as N rows and the list reach. |
| AddressPages.PageIsOfTable | db/hcpg/internal/addrstmts.go:49-51 | So it shows rows of the table, all of that address. |
| AddressPages.TotalsCounted | db/hcpg/internal/addrstmts.go:47-48 | The counts are the numbers of places with spent or unspent rows of the address. |
| AddressPages.TotalsOfOne | db/hcpg/internal/addrstmts.go:47-48 | One row counts once and adds its own value, where it is spent or unspent as asked, |
| BalanceCache.TotalsOfJoin | db/hcpg/internal/addrstmts.go:47-48 | and counts and sums are additive over rows, |
| AddressPages.PageTotalsJoined | explorer/explorertypes.go:176-205 | on pages as well. |
| AddressPages.FullBalanceTells | db/hcpg/queries.go:241-275 | Where rows are marked rightly, they count the outputs to the address that some input spends, and those that none does. |
| AddressPages.BalanceSums | db/hcpg/queries.go:241-275 | With no spent row nothing is spent and all that was received is unspent, and the other way round. |
| BalanceCache.ShortPageExact | db/hcpg/pgblockchain.go:253-260 | A short page that is not empty has the totals of the whole table if and only if it starts at the first row. |
| BalanceCache.HistoryExact | db/hcpg/pgblockchain.go:207-287 | On a right cache the answer agrees with the full query if and only if the balance is cached, the offset is 0, or the address has at least offset + N rows; and the cache stays right under the same condition whenever a balance is computed. Which answers are errors, and which rows are shown, is told too. |
| BalanceCache.HistoryRemembers | db/hcpg/pgblockchain.go:224-287 | A balance found is kept and found again until the next block, and the others kept at that height stay. |
| BalanceCache.RunIsRightExactly | db/hcpg/pgblockchain.go:207-287 | The cache stays right throughout a run if and only if no request computes a balance from a later page that is not full. |
| BalanceCache.PageTotalsOfAddress | explorer/explorertypes.go:176-205 | On rows of one address the totals of a page are the aggregates of that address, and they count every row. |
| BalanceCache.CacheAgreesWithFullQuery | db/hcpg/pgblockchain.go:207-287 | Over any run of stored blocks and requests from offset 0 every answer agrees with the full query. |
| BalanceCache.LaterPageMisleads | db/hcpg/pgblockchain.go:253-283 | Otherwise a short later page always leaves a wrong balance for the next request. |
| BalanceCache.ReceivedIsSpentPlusUnspent | db/hcpg/internal/addrstmts.go:47-51 | Counts and values received are those spent plus those unspent. |
| MempoolFees.Collect | mempool/mempool.go:348-430 | The tickets by fee rate, fees and rates ascending; it indexes out of range exactly when the limit per block is zero. |
| MempoolFees.TicketsAre | mempool/mempool.go:350-363 | Every ticket of the mempool becomes one, and none besides, with its own hash, fee, size and height, and a rate that times its size is 1000 times its fee. |
| MempoolFees.Mineable | mempool/mempool.go:378-410 | Exactly min(count, limit) tickets lie at or above the mineable index, none of them below its fee, and the window of fees reaches five to either side as far as there are any. |
| MempoolFees.WindowReachesFive | mempool/mempool.go:394-410 | The window is the rates at most five places from the mineable index. |
| MempoolFees.AscendingIsUnique | mempool/mempool.go:351-376 | The order of the mempool map and the ties of the sort leave no trace in the fees. |
| MempoolFees.MempoolDataCache.GetFees | mempool/mempoolcache.go:77-100 | The N largest fees in ascending order, all of them when N is negative or too big. |
| MempoolFees.MempoolDataCache.GetFeeRates | mempool/mempoolcache.go:104-127 | The same for fee rates. |
| MempoolFees.MempoolDataCache.GetTicketsDetails | mempool/mempoolcache.go:131-153 | The last N tickets by fee rate, which have the N largest rates and line up with GetFeeRates entry by entry. |

## Left out

- HTTP, web sockets, templates, logging, configuration, charts and statistics queries: they hold none of this state.
- Failures of the node's RPC, of SQL and of ffldb: operations succeed, except where a run is cancelled, killed or rolled back above. A failed ticket price lookup, which the code skips over, is not modelled either.
- Mutexes inside one operation, including the lock that StoreBlockSummary and connectBlock keep on some error returns: operations are atomic. `Handshake` models the one protocol whose point is locking.
- StakeStore.StakeDatabase.ConnectNode: does not model an error of the library's ConnectNode, after which the code keeps a nil stake node and a held lock, because the library is taken to accept what it is given.
- BalanceCache.HistoryDb.StoreBlock: stores the two trees one after the other, which is one of the interleavings of the two goroutines; `AddressHistory` covers all of them.
- Closing of channels and the quit signal of the monitors; the quit signal of the resync is modelled.
- Dropping of a reorganisation notice when its channel, with room for two, is full: the run theorems take notices as delivered, to all three monitors at the same point of the block stream.
- Internals of the stake node (lottery, undo data, header checks), of hashing, scripts and difficulty: the library is a function of the calls made to it and accepts what it is given.
- Parsing and printing of hash strings: hashes are values, and a hash that does not parse does not occur.
- Integer widths other than those of heights in the queue and of the array elements: heights, amounts and counts do not overflow. Amounts in coins and fee rates are real numbers, without rounding.
- The field lastAccess of the queue and the clock of WatchPriorityQueue: a tick says whether the queue was quiet, and clock readings are parameters.
- Pre-population of the live ticket cache by NewStakeDatabase: a new process starts with empty caches. Any cache of right prices gives the same sums.
- Sharing of the backing array by `(*a)[:0]` in scanBytes and by the slices the mempool cache stores: slices are values, so the model does not capture writes through an alias.
- Multi-dimensional shapes in parseArray beyond termination, bounds and divisibility: ScanLinearArray rejects them.
- The fields of rows and block summaries that are computed from the block alone, such as sizes, difficulties and fee statistics: a row is its block and its pool info. The web page savers of blockdata and its collection for watched addresses are not modelled.
- resyncDB, the variant of the resync without pool values: main.go does not call it.
- The blocks, transactions and vouts tables of PostgreSQL beyond the ids they hand out, and checks for duplicates on insert.
- SetSpendingForVinDbID, SetSpendingByVinID and the paths commented out in the source.
- MempoolFees.Sort: sort.Sort is replaced by an insertion sort with the contract of any sort, as the library's algorithm is not part of this repository.
