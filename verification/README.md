# Verified models of dcrlibwallet

A Dafny 4.11 model of the parts of dcrlibwallet in which the order of steps, shared state or an encoding
decides correctness. `dafny verify dfyconfig.toml` checks everything.

* **SPV block scan** (`Scan`, `ChainScan`, `SpvSyncer`, `ScanTheorems`). `scanChain` and `Rescan` download
  only blocks whose compact filters hit the wallet's data, and after a block grows the watch set they test
  only the new data, from the next block on. `Scan` says what scanning a transaction, a block or a stretch of
  transactions means, both step by step and declaratively. `ChainScan` gives two references: rescan each block
  whose filter hits *all* data watched so far, and rescan every block. The class `SpvSyncer.Syncer` holds the
  two parallel watch structures and the scans as the source writes them, with filter workers reporting in
  any order; its methods are proved to follow the first reference with no assumption on filters, and
  `ScanTheorems` relates the result to the second when filters have no false negatives.
* **badgerdb buckets** (`Lex`, `Buckets`, `BucketCursor`, `BucketTree`). A tree of buckets is stored as flat
  keys: the names on the way down concatenated, and the length of the parent's prefix in the first value
  byte. `Buckets.Transaction` and `BucketCursor.Cursor` are the operations on the flat store; `BucketTree`
  proves that store a faithful encoding of the tree over every run of operations in an explicit domain.
* **Transaction index** (`TxIndex`, `TxIndexRuns`). The class `TxIndex.DB` has the methods of the index;
  `TxIndexRuns` interleaves their steps with growth and reorganisation of the chain at any moment.
* **Concurrency of the syncer** (`CatchUp`, `PeerBound`). Interleaved atomic steps of any number of
  goroutines: the catch-up try-lock, compare-and-swap notifications and discovery channels; and the
  semaphore that bounds connections to peer candidates.
* **Smaller algorithms** (`SliceRemoval`, `GetData`, `TxInvs`, `TopTransactions`, `Progress`): removal from a
  slice that is being ranged over, in-place compaction of two aligned slices, the merge of limited pages across
  wallets, and the two estimates of sync progress (over reals).

Filters, peers, the block a hash stands for, the wallet's own lookups, the clock, failures and scheduling are
parameters over which everything is universally quantified.

Some properties one might expect are false of the code. The model keeps the code, gives an input and proves
for all inputs when the property holds:

| expected | holds exactly | fails for |
|---|---|---|
| scanning by filters is exhaustive | `ChainScan.ExactlyWhenNothingIsMissed` | `ChainScan.MissedPayment` |
| a put is enumerated | `BucketTree.PutIsListedExactly` | `BucketTree.LongPrefixHides` |
| a lookup finds what its bucket holds | `BucketTree.GetIsLookupExactly` | `BucketTree.CollidingKeys` |
| a nested or top-level handle means the bucket exists | `BucketTree.OpenNestedExactly`, `BucketTree.OpenTopExactly` | `BucketTree.CollidingKeys` |
| a put leaves other buckets alone | `BucketTree.PutSparesOthersExactly` | `BucketTree.CollidingKeys` |
| the index stays up to date when reindexing fails | `TxIndexRuns.FailedResetExactly` | `TxIndexRuns.FailedResetLosesTransactions` |
| every connected peer is in the peer table | `PeerBound.RunListsExactly`, `PeerBound.CanHideExactly`, `PeerBound.SpawnSafeExactly` | `PeerBound.DuplicateHidesPeer` |
| every getdata request is answered | `GetData.GetTransactionsByHashes` | `GetData.TwoRequests` |
| header progress reports stay in [0, 53] | `Progress.HeadersReportExactly` | `Progress.ClocksThatDisagree` |
| discovery progress starts at 53 | `Progress.DiscoveryAtLeast53Exactly` | `Progress.ClocksThatDisagree` |

Where code and documentation disagree the code is modelled. `ForEach` is documented to visit every pair of a
bucket (badgerdb/db.go:241), but the length byte wraps, so a bucket whose prefix is longer than 255 bytes shows
none. `newBucket` (badgerdb/bucket.go:58-60) builds an error for a key that is not a bucket and drops it. A
cursor asked to seek an empty key on a top-level bucket reports the bucket's own record (badgerdb/db.go:521).
`GetTransactions` announces descending order (transactions.go:107) and sorts ascending unless newest first, and
answers a failing wallet with an empty string and no error (transactions.go:100-102). `ClearSavedTransactions`
can drop the records and leave the endpoint (txindex/save.go:44-51).

## Model

The main results come first, in the order of the components above; then the operations and the lemmas they
rest on, component by component.

| member | source | states |
|---|---|---|
| SpvSyncer.Syncer.ScanChain | spv/sync.go:860-969 | with no assumption on filters: a block is rescanned if and only if it was supplied in `bmap`, or its filter is non-empty and hits a script or outpoint watched by then; each rescanned block is in the result with its matches, and the watch set grows by these blocks alone; it only fails if the network does or the context ends, and surely does if the context is done throughout |
| SpvSyncer.RunIsScanTrace | spv/sync.go:878-968 | the reference run the restart loop follows is the scan said on the chain's own filters, supplied blocks and watched scripts and outpoints |
| ScanTheorems.ScanChainIsExhaustive | spv/sync.go:860-969 | if every filter of the chain is non-empty and hits whatever its block carries, a finished `scanChain` gives each block exactly the exhaustive matches over the blocks of the hashes (a missing entry being none) and ends with the same watch set |
| SpvSyncer.Syncer.Rescan | spv/backend.go:148-295 | `save` calls, rescanned blocks and final watch set are, up to some block, those of rescanning exactly the blocks whose saved filter hits something watched by then; that block is the last on success, which is certain if no request, save or context fails; it stops at the first failing save or done context; nothing happens for an unknown wallet or a missing filter |
| SpvSyncer.RunIsRescanTrace | spv/backend.go:176-294 | the reference run the rescan follows is the rescan said on the saved filters, the blocks and what is watched |
| ScanTheorems.RescanIsExhaustive | spv/backend.go:165-294 | if every saved filter hits whatever its block carries, the saves up to any block are exactly the non-empty exhaustive results over the blocks of the hashes, at strictly increasing indices, and no block is rescanned twice |
| ScanTheorems.CutShortIsPrefix | spv/backend.go:271-280 | an early error leaves a prefix of the saves of the complete rescan |
| ScanTheorems.RestartTestsCoincide | spv/backend.go:275-289 | the restart tests of `Rescan` and of `scanChain` (spv/sync.go:960) decide alike |
| ChainScan.ExhaustiveMeaning | spv/rescan.go:22-96 | declarative meaning of rescanning every block of a list: its matches, and what is watched at the end |
| ChainScan.CompleteWithoutFalseNegatives | spv/sync.go:860-969 | without false negatives the filtered scan has the matches of the exhaustive one on every block and the same final watch set |
| ChainScan.ExactlyWhenNothingIsMissed | spv/sync.go:878-968 | with no assumption on filters, the filtered scan agrees with the exhaustive one on every block if and only if no filter misses a block with a transaction that pays a watched address or spends an outpoint known by then |
| ChainScan.MissedPayment | spv/sync.go:893 | a concrete chain whose filter misses a payment, on which the two scans disagree |
| Scan.MatchesAreRelevant | spv/rescan.go:22-85 | the matches of a scan are exactly the transactions that have an output paying a watched address, or an input that counts and is an outpoint known before them, each position once, in scan order; an input counts unless it is in a coinbase place, the first of a tree and no stake transaction, or the first input of a vote |
| Scan.CheckedInputsMean | spv/rescan.go:36-42 | an outpoint is a checked input if and only if some input is that outpoint and counts: none of a transaction that is the first of its tree and no stake transaction, and not the first of a vote |
| Scan.PaysMeans | spv/rescan.go:55-65 | a transaction pays a watched address if and only if one of its outputs has a readable script with such an address |
| Scan.BlockItemsMean | spv/rescan.go:90-96 | a block is scanned stake tree first, each transaction at its own position of its own tree |
| BucketTree.BuildThenWalk | badgerdb/bucket.go:43-271 | round trip: however a tree is built in the domain, walking the store gives it back |
| BucketTree.OtherBucketsUnchanged | badgerdb/bucket.go:203-235 | an operation changes what enumeration shows of its own bucket only |
| BucketTree.GetIsLookupExactly | badgerdb/bucket.go:183-201 | a lookup finds what the bucket holds if and only if no other place of the tree has the same flat key |
| BucketTree.OpenNestedExactly | badgerdb/db.go:161-185 | a nested lookup gives a handle exactly for a bucket of the tree if and only if no other path to a bucket has the same flat key |
| BucketTree.OpenTopExactly | badgerdb/db.go:57-72 | a top-level lookup gives a handle exactly for a bucket of the tree, under the same condition |
| BucketTree.HandleMeansBucket | badgerdb/db.go:161-185 | where no other place of the tree has the flat key, a nested lookup gives a handle if and only if the tree has that bucket |
| BucketTree.PutSparesOthersExactly | badgerdb/bucket.go:203-219 | a put leaves every other place of the tree its entry if and only if no other place has the same flat key |
| BucketTree.PutIsListedExactly | badgerdb/bucket.go:64-70 | enumeration shows what was just put if and only if the bucket's prefix has at most 255 bytes |
| BucketCursor.Cursor.Collect | badgerdb/db.go:355-468 | `First` and then `Next` until nothing is left gives the whole listing and terminates |
| BucketCursor.CursorAgreesWithForEach | badgerdb/db.go:432-468 | what a cursor collects is what enumeration reports |
| BucketCursor.Cursor.Seek | badgerdb/db.go:521-557 | a non-empty key finds the least own entry at or above it, or nothing if all are below; no key finds the first entry; an empty key finds the first entry, or the own record of a top-level bucket |
| TxIndexRuns.AlwaysUpToDate | txindex.go:9-89 | over every run, all wallet transactions below the next pass's start are recorded with their timestamps, under their current heights |
| TxIndexRuns.FinishedPassCovers | txindex.go:58-79 | over every run, a finished pass has recorded every transaction of the chain it read with its timestamp and height, and of the current chain below a reorganisation's reach, or all of it if the chain stood still |
| TxIndexRuns.FailedResetExactly | txindex/save.go:44-51 | after a reset that fails once the records are dropped, the index is up to date if and only if no block below the next start has wallet transactions |
| TxIndexRuns.FailedResetLosesTransactions | txindex/save.go:44-51 | a concrete run in which a transaction stays unindexed after a later pass finishes |
| CatchUp.MutualExclusion | spv/sync.go:1281-1346 | over every interleaving at most one goroutine is inside the catch-up region |
| CatchUp.NotificationsAlternate | spv/sync.go:149-165 | over every interleaving each wallet's `Synced` callbacks are true, false, true, starting with true, though the swap and the callback are separate steps |
| CatchUp.ChannelLifecycle | syncnotification.go:349-357 | over every interleaving, also when discovery fails, the open discovery channel is the current one, none is closed twice, and none is open after the sync data is reset |
| CatchUp.UnsyncedWhileRescanning | spv/sync.go:1305-1340 | over every interleaving, the wallet whose addresses a goroutine discovers or which it rescans is not flagged synced meanwhile, whatever the others do |
| CatchUp.DoneMeansSynced | spv/sync.go:1305-1346 | over every interleaving, a goroutine that leaves a wallet without a failure leaves its flag set and its last callback true |
| CatchUp.CompleteTurn | spv/sync.go:1281-1346 | an undisturbed turn on an unsynced wallet that needs a rescan, in which nothing fails, makes one discovery channel and closes it, sets the flag and calls back true, once |
| CatchUp.WithoutLockChannelsLeak | spv/sync.go:1281 | without the try-lock a concrete run leaves an overwritten channel open |
| PeerBound.AtMostMaxPeers | spv/sync.go:446-530 | over every interleaving, with duplicate candidates too, both tables together hold at most 8 keys, each of a connecting or connected worker, and none once the function has returned |
| PeerBound.RunListsExactly | spv/sync.go:446-530 | over every run, every connected peer is always in `remotes` if and only if no step ends such a worker |
| PeerBound.CanHideExactly | spv/sync.go:446-530 | where every connected peer is listed, the workers can go on to hide one if and only if two live workers have the same candidate |
| PeerBound.SpawnSafeExactly | spv/sync.go:457-473 | a candidate is safe for a new worker, nothing the workers do afterwards hiding a peer, if and only if no live worker has it |
| PeerBound.DuplicateHidesPeer | spv/sync.go:499-526 | a concrete run with a duplicate candidate in which a connected peer is in neither table |
| GetData.GetTransactionsByHashes | spv/sync.go:559-597 | for any request and any number of wallets: found and not-found entries make up the request with multiplicity, each found one from its first holder, not-found ones in order and held by no wallet, failing only by a wallet still asked for something, if and only if at no wallet's turn the last hash still requested is known to it and requested more than once; otherwise the lookup panics. Distinct requests are always answered |
| GetData.TwoRequests | spv/sync.go:559-597 | a request of one known hash twice panics; followed by another hash it does not |
| SliceRemoval.RemovingKnownExactly | spv/sync.go:579-586 | the loops for all found transactions, in request order, panic if and only if the last element is known and occurs before; otherwise they leave exactly the unknown elements in order |
| TxInvs.TxRelay.HandleTxInvs | spv/sync.go:754-811 | the received transactions are passed on in order and exactly their hashes are marked seen; otherwise nothing changes |
| SpvSyncer.Syncer.FilterRelevant | spv/rescan.go:100-129 | in-place compaction leaves at the front exactly the transactions of the original slice with an input that is a watched outpoint or an output whose readable script has a watched address, in order, and the rest of the slice as it was |
| SpvSyncer.TouchesMeans | spv/rescan.go:106-125 | a transaction is kept if and only if it has such an input or output |
| TopTransactions.GetTransactions | transactions.go:96-125 | timestamps never rise if newest first and never fall otherwise; at most limit long, only matching transactions of the wallets and none twice; with offset at most 0 exactly `limit` of them, or all if there are fewer or no limit, no transaction left out being newer (older) than one listed, and with the timestamps of the first `limit` of any sorting of all; the empty reply exactly if some wallet fails |
| TopTransactions.TopLeavesLater | transactions.go:96-117 | having the timestamps of the first entries of a sorting means leaving out nothing newer (older) than what is listed |
| TopTransactions.AllMatchingCount | txindex/read.go:29-35 | what the wallets' queries range over is exactly the matching transactions, each as often as recorded |
| TopTransactions.TopOfPagesIsTopOfAll | transactions.go:96-117 | truncating the sorted union of limited pages gives the timestamps of truncating the sorted union of everything |
| Progress.NeverFallsBack | syncnotification.go:113-302 | stage one is in [0, 53] and stage two in [53, 100] and rising, for all inputs with headers in (0, total] and non-negative elapsed time |
| Progress.HeadersReportExactly | syncnotification.go:113-159 | whatever the clocks, stage one reports within [0, 53] if and only if the fetched and the expected headers are in proportion (6033 times the one below 6099 times the other), also with nothing fetched or a negative number expected |
| Progress.HeadersReportIs | syncnotification.go:119-159 | stage one reports the integer nearest to 100 times the fetched headers over 2.85 times the expected less 0.95 times the fetched ones, and 0 with nothing fetched |
| Progress.DiscoveryAtLeast53Exactly | syncnotification.go:275-295 | stage two reports at least 53 if and only if its start is not in the future by more than a 400th of the header time |
| Progress.DiscoveryReportIs | syncnotification.go:275-295 | stage two reports the integer nearest to the part that header time and elapsed time make up of the estimated total, before and after the switch of the estimate |
| Scan.AddedByMeans | spv/rescan.go:55-76 | an outpoint is added exactly if its output pays a watched address and it was not watched, and is added once |
| Scan.AddedIsGrowth | spv/rescan.go:62-76 | scanning never forgets or changes addresses; `fadded` is exactly the growth of the watched outpoints, without repetition |
| Scan.WatchMeans | spv/rescan.go:67-76 | after any prefix the watched outpoints are the initial ones and those created for a watched address so far |
| Scan.BlockMatchesAreRelevant | spv/rescan.go:87-96 | the matches of a block are exactly its relevant transactions, those of the stake tree before those of the regular tree |
| Scan.AddedImpliesMatched | spv/rescan.go:67-81 | whatever grows the watch set comes with a match |
| Scan.ScanConcat | spv/rescan.go:90-96 | scanning two stretches in a row, carrying the watch set over, is scanning their concatenation |
| ChainScan.ExhaustiveIsOneScan | spv/rescan.go:22-96 | rescanning every block in order is one scan of all transactions of the chain |
| ChainScan.SkippedIsQuiet | spv/sync.go:893-898 | a block skipped by a filter without false negatives matches nothing and adds nothing |
| ChainScan.ExactlyWhenSkipsAreQuiet | spv/sync.go:878-968 | with no assumption on filters, the filtered scan agrees with the exhaustive one on every block if and only if no skipped block would have matched |
| ChainScan.ScriptedThroughout | spv/backend.go:114-117 | watched addresses keep a script to be matched by, over the whole scan |
| ChainScan.SavesOfMeaning | spv/backend.go:275-280 | saves come at strictly increasing indices, exactly for blocks with something to save, with that |
| ChainScan.PositionsMeaning | spv/backend.go:264-289 | rescanned indices are strictly increasing and exactly the visited ones |
| SpvSyncer.Syncer.constructor | spv/sync.go:111-133 | both watch structures start empty for each wallet and agree |
| SpvSyncer.Syncer.LoadTxFilter | spv/backend.go:101-126 | one wallet's filter gains exactly the addresses that have a script and the outpoints, starting from nothing on reload or first use; filter data keeps agreeing with every filter |
| SpvSyncer.Syncer.CheckInputs | spv/rescan.go:33-52 | the transaction is appended once exactly if some input that counts is a watched outpoint; no input of a transaction that is the first of its tree and no stake transaction, and not the first of a vote, counts |
| SpvSyncer.Syncer.CheckOutput | spv/rescan.go:55-83 | an output paying a watched address puts its outpoint in both structures and `fadded`, once, however many of its addresses are watched |
| SpvSyncer.Syncer.CheckTransaction | spv/rescan.go:23-84 | one transaction: its growth in both structures, and one match if it matches |
| SpvSyncer.Syncer.RescanCheckTransactions | spv/rescan.go:22-85 | a tree of transactions appends to matches and to `fadded` what the specification scan gives |
| SpvSyncer.Syncer.RescanBlock | spv/rescan.go:90-96 | a block leaves the specified watch set for its wallet and no other, keeps both structures in agreement, and returns the specified matches and new data |
| SpvSyncer.RescanGrowth | spv/rescan.go:72-76 | filter data of the grown watch set is the old data and `fadded`; no new data means no growth, and new data comes with a match |
| SpvSyncer.RescanKeepsAgreement | spv/rescan.go:72-76 | appending `fadded` to agreeing filter data agrees with the grown watch set |
| SpvSyncer.CollectHits | spv/sync.go:885-919 | whatever order workers report in, the hits are exactly the unfetched indices whose filter hits, once each |
| SpvSyncer.FetchBlocks | spv/sync.go:921-947 | a request fills exactly the hit positions with their blocks, or fails leaving each position old or rightly filled |
| SpvSyncer.SuppliedBlocks | spv/sync.go:869-876 | exactly the blocks supplied by `bmap` are at hand at first |
| SpvSyncer.RoundFetches | spv/sync.go:893-904 | testing only the new data leaves fetched exactly the blocks that testing all data so far would |
| SpvSyncer.FetchRound | spv/sync.go:880-947 | a successful round fetches, from the restart index on, exactly the blocks whose filter is non-empty and hits the tested data, and keeps those at hand |
| SpvSyncer.VisitStep | spv/sync.go:953-958 | at the restart index, being fetched is the same as being visited by the reference scan |
| SpvSyncer.Syncer.RescanFetched | spv/sync.go:953-966 | fetched blocks are rescanned in order up to the first growth; results, watch set and new data are those of the reference run at that index |
| SpvSyncer.Syncer.ScanRounds | spv/sync.go:878-968 | the restart loop terminates and keeps results, fetched blocks and tested data in step with the reference run; an error stops at a prefix of it |
| SpvSyncer.LoadFilters | spv/backend.go:156-163 | all filters are read, or the first missing one ends the rescan |
| SpvSyncer.FetchWithRetries | spv/backend.go:176-262 | retries over peers end with exactly the blocks fetched that were there or whose filter hits the tested data, as they do when the next attempt delivers, or with nothing claimed when no attempt is left |
| SpvSyncer.Syncer.RescanOne | spv/backend.go:275-280 | a visited block extends the trace of saves and rescans by exactly its own step, calls `save` only with something to save, and stops at a failing save or done context |
| SpvSyncer.Syncer.RescanAndSave | spv/backend.go:264-290 | blocks are rescanned and saved in order up to the first growth, a done context or a failing save, and the trace is the reference's up to there |
| SpvSyncer.Syncer.RescanRounds | spv/backend.go:174-294 | the outer loop terminates and its trace is always a prefix of the reference's, the whole of it on success |
| Buckets.OwnSplits | badgerdb/bucket.go:257-268 | a key that passes the ownership test is the prefix followed by a non-empty key, and records that prefix's length |
| Buckets.PickHolds | badgerdb/bucket.go:245-268 | what enumeration picks from some keys is exactly the bucket's own entries among them |
| Buckets.PickAscends | badgerdb/bucket.go:245-268 | picked entries come in strictly ascending key order |
| Buckets.ListingUnique | badgerdb/bucket.go:237-271 | a bucket has only one listing |
| Buckets.NothingBefore | badgerdb/bucket.go:245 | before the seek position there is nothing of the bucket |
| Buckets.NothingAfter | badgerdb/bucket.go:245 | from the first key without the prefix on there is nothing of the bucket |
| Buckets.SeekPosition | badgerdb/bucket.go:245 | the iterator lands on the first key at or above the sought one |
| Buckets.OperationsKeepWellFormed | badgerdb/bucket.go:64-77 | every operation keeps the store decodable: each value has a length byte that fits in its key |
| Buckets.Transaction.CreateTopLevelBucket | badgerdb/bucket.go:43-62 | a new record with its own length, or the existing key opened whatever it holds |
| Buckets.Transaction.ReadWriteBucket | badgerdb/db.go:57-72 | a top-level handle exactly if the key is in the store with the value that records its own length as a prefix |
| Buckets.Transaction.CreateBucket | badgerdb/bucket.go:106-140 | the new store and the result in every case: empty or long key, new bucket, existing bucket, key holding a value; a refused creation leaves the store alone |
| Buckets.Transaction.NestedReadWriteBucket | badgerdb/db.go:161-185 | a nested handle exactly if the key fits, and prefix and key are in the store together with a value that is a bucket record and nothing else |
| Buckets.Transaction.Get | badgerdb/bucket.go:183-201 | the value without its length byte, or nothing for an empty, long or absent key |
| Buckets.Transaction.Put | badgerdb/bucket.go:203-219 | the entry with the prefix's length byte, or an error and no change |
| Buckets.Transaction.Delete | badgerdb/bucket.go:221-235 | exactly that entry is gone; an empty key changes nothing and a long one is an error |
| Buckets.Transaction.ForEach | badgerdb/bucket.go:237-271 | the callback sees the bucket's listing in order, up to and including the entry at which it fails |
| Buckets.WalkKeys | badgerdb/bucket.go:245-269 | the loop from the seek position picks the bucket's own entries and skips foreign ones, stopping at the callback's failure or the first key without the prefix |
| Buckets.Enumerate | badgerdb/bucket.go:237-271 | enumeration is the bucket's listing, or its front when the callback fails |
| BucketCursor.Cursor.constructor | badgerdb/bucket.go:94-103 | a cursor starts unpositioned over a snapshot |
| BucketCursor.SeekLands | badgerdb/db.go:361-364 | seeking a bucket's record lands on it, or on the first key above if it is gone, with nothing of the bucket passed and everything after it above |
| BucketCursor.SettleNext | badgerdb/db.go:370-387 | a key above the record that carries the prefix is the bucket's next entry if it passes the test, and is skipped without loss otherwise |
| BucketCursor.SettleEnd | badgerdb/db.go:366-368 | past the bucket nothing of it is left to report |
| BucketCursor.Cursor.Settle | badgerdb/db.go:446-467 | having passed n entries, the cursor reports entry n of the listing, skipping foreign keys, and terminates |
| BucketCursor.Cursor.First | badgerdb/db.go:355-388 | the first entry of the listing, if any |
| BucketCursor.Cursor.Next | badgerdb/db.go:432-468 | the next entry of the listing, or the first from an unpositioned cursor; past the last entry nothing, however often asked |
| BucketCursor.SeekFindsLeast | badgerdb/db.go:530-557 | the first entry from the seek position on is the least own entry at or above the sought key |
| BucketCursor.Cursor.SeekRecord | badgerdb/db.go:530-557 | an empty key reports the bucket's own record if that passes the ownership test, and else the first entry |
| BucketTree.CollidingKeys | badgerdb/bucket.go:183-219 | a concrete tree and store in which a put overwrites another bucket's record, a lookup finds it, and a nested lookup gives a handle for a bucket that is not there |
| BucketTree.LongPrefixHides | badgerdb/bucket.go:64-70 | under a prefix of 256 bytes what is put is not listed |
| BucketTree.EncodedIsWellFormed | badgerdb/bucket.go:64-77 | the encoding of a tree can be decoded |
| BucketTree.OwnEntryDecodes | badgerdb/bucket.go:248-268 | each entry of a bucket of the tree is listed under its key with its value, or as a bucket |
| BucketTree.OwnTestIsExact | badgerdb/bucket.go:257-258 | an entry that passes the ownership test for a bucket's prefix is an entry of that bucket, also among buckets whose prefixes extend one another |
| BucketTree.EnumerationGivesContents | badgerdb/bucket.go:237-271 | enumerating a bucket of an encoded tree gives exactly its contents |
| BucketTree.WalkFindsBuckets | badgerdb/db.go:161-185 | a path can be walked by enumeration and nested lookup exactly if the tree has a bucket there |
| BucketTree.WalkGivesTree | badgerdb/bucket.go:237-271 | walking an encoded tree meets exactly its buckets with exactly their contents |
| BucketTree.PutSimulates | badgerdb/bucket.go:203-219 | a put in the domain is the tree's put |
| BucketTree.CreateSimulates | badgerdb/bucket.go:106-140 | nested bucket creation in the domain is the tree's |
| BucketTree.CreateTopSimulates | badgerdb/bucket.go:43-62 | top-level bucket creation in the domain is the tree's |
| BucketTree.DeleteSimulates | badgerdb/bucket.go:221-235 | a delete in the domain is the tree's |
| BucketTree.StepSimulates | badgerdb/bucket.go:106-235 | every operation in the domain keeps the encoding and the absence of collisions |
| BucketTree.RunEncodes | badgerdb/bucket.go:106-235 | over every run of operations in the domain the store encodes the tree |
| TxIndex.StartOf | txindex/read.go:12-24 | the start is exactly six blocks below the stored endpoint, or zero for an endpoint of at most six |
| TxIndex.DB.ReadIndexingStartBlock | txindex/read.go:15-24 | the start computed from the stored endpoint, or from zero if there is none |
| TxIndex.DB.SaveOrUpdate | txindex/save.go:15-34 | one record replaced on success; what is left after each failure |
| TxIndex.DB.SaveLastIndexPoint | txindex/save.go:36-42 | the endpoint moves exactly on success |
| TxIndex.DB.ClearSavedTransactions | txindex/save.go:44-51 | records and endpoint after success and after either failure |
| TxIndex.DB.IndexBlock | txindex.go:14-56 | succeeds exactly if nothing fails on the block; then every transaction of it is recorded with its timestamp and the height of the block, or -1 for the unmined ones, and the endpoint is there; on any failure only that block's records may differ and the endpoint has not moved |
| TxIndex.DB.IndexTransactions | txindex.go:58-79 | however a pass ends, it has covered the blocks from its start to some k with their timestamps and heights, spoilt nothing below, kept every record but those of transactions from its start to the end height, and the endpoint is below k or unmoved; it finishes, having reached the end height, exactly if no block on the way fails or is followed by a cancellation |
| TxIndex.DB.ReindexTransactions | txindex.go:82-89 | a reindexing succeeds exactly if clearing and every block of the pass do, and then the index covers the whole chain up to the end height and holds records of that chain alone; if clearing fails, what it had done stands |
| TxIndex.BlockKeepsCoverage | txindex/save.go:15-34 | indexing a block keeps the coverage of all lower blocks |
| TxIndexRuns.StepKeeps | txindex.go:9-89 | every step of growth, reorganisation, indexing, failure, cancellation and reindexing keeps the invariant |
| TxIndexRuns.CallbackIsStep | txindex.go:14-56 | whatever the range callback may do by its contract is a step of the runs: the next block indexed, or the pass over |
| TxIndexRuns.ClearingIsSteps | txindex/save.go:44-51 | every outcome of clearing the index is steps of the runs, the last failing one the excluded reset |
| TxIndexRuns.AnyPassKeepsUpToDate | txindex/read.go:12-24 | what `IndexTransactions` promises is enough for the next pass, however this one ended |
| CatchUp.StepKeepsInv | spv/sync.go:1281-1350 | every atomic step of goroutines, ticker and application keeps exclusion, notification and channel invariants |
| PeerBound.StepKeepsInv | spv/sync.go:446-530 | every step keeps one semaphore slot per worker and per waiting loop, and each table entry owned by a live worker |
| PeerBound.StepListsExactly | spv/sync.go:499-526 | while every connected peer is in `remotes`, a step keeps that if and only if it does not end a worker whose key another connected worker has |
| PeerBound.StepEntersExactly | spv/sync.go:486-526 | while every connecting worker's key is in `connecting`, a step keeps that if and only if it does not take out a key that another connecting worker has |
| PeerBound.StepSharesExactly | spv/sync.go:473-492 | live workers come to share a candidate only by starting one with the candidate of a live one |
| PeerBound.UnsharedRunLists | spv/sync.go:446-530 | in a run in which no two live workers share a candidate, every connected peer is in `remotes` and every connecting one in `connecting` at all times |
| SliceRemoval.SweepIsWalk | spv/sync.go:579-585 | ranging over a slice while removing from its array reads each original element, skips the one after each removal, and ends by re-reading the stale last element |
| SliceRemoval.SweepExactly | spv/sync.go:579-585 | one removal loop succeeds and removes a hash, keeping all else in order, if and only if the hash never follows itself and a last one is the only one |
| SliceRemoval.SweepOutcome | spv/sync.go:579-585 | one removal loop panics if and only if its hash is last and not only last; otherwise it keeps all else in order and removes the hash at least once if it is there |
| SliceRemoval.RemovingDistinct | spv/sync.go:579-586 | without duplicates the loops, in any order, leave exactly what was not found |
| SliceRemoval.TwoDuplicates | spv/sync.go:579-586 | two hashes that are equal panic; before another hash, the copy that the first loop skips is removed by the second |
| GetData.RemoveFound | spv/sync.go:580-584 | the in-place loop is that removal |
| GetData.RemoveAnswered | spv/sync.go:579-586 | the in-place loops are those removals, one after another |
| GetData.AskWallet | spv/sync.go:568-571 | a wallet answers each requested transaction it has, once per request of it and, where hashes repeat, in request order, or fails |
| GetData.TurnExactly | spv/sync.go:568-586 | a wallet's turn panics if and only if it knows the last hash still requested and that one is requested more than once; otherwise exactly its answers are removed |
| GetData.FoundAndLeft | spv/sync.go:573-586 | found and remaining hashes make up any request with multiplicity |
| GetData.AskWallets | spv/sync.go:567-590 | wallets are asked in turn until nothing is left, one fails or a turn panics; what is found and what is left always make up the request |
| GetData.DistinctNeverTrapped | spv/sync.go:567-590 | a request without duplicates makes no turn panic |
| TxInvs.ObtainedCount | spv/sync.go:775-803 | an announced hash is obtained as often as announced exactly if it is unseen and the peer has it |
| TxInvs.NeverObtainedTwice | spv/sync.go:775-811 | a hash obtained once is never requested again |
| TxInvs.KeepFront | spv/sync.go:775-780 | the unseen hashes end up in order at the front of the announced slice |
| TxInvs.DropMissing | spv/sync.go:786-798 | in-place removal of not-found entries keeps transactions and hashes index-aligned and keeps exactly the hashes the peer had, in order |
| TxInvs.Obtain | spv/sync.go:785-799 | request and removal together give exactly the peer's transactions, aligned with their hashes |
| TxInvs.FindReady | spv/sync.go:757-771 | announcements are processed exactly if some wallet has no rescan point and none before it failed |
| TopTransactions.MergeOfFirst | transactions.go:98-117 | the first k of a merge need only the first k of either side |
| TopTransactions.PagesSuffice | transactions.go:98-117 | limiting each of any number of sorted lists to k keeps the first k keys of their merge |
| TopTransactions.SortingKeys | transactions.go:107-113 | sorting several sorted lists together gives the keys of their merge, whatever the order of ties |
| TopTransactions.Read | txindex/read.go:29-48 | the positions from offset to offset and limit of a sorting of exactly the matching transactions, or an error |
| TopTransactions.ReadAll | transactions.go:97-105 | all wallets' pages, or failure exactly if some wallet fails |
| Progress.ClocksThatDisagree | syncnotification.go:113-302 | concrete counts and times that put either stage outside its range |
| Progress.HeadersTotalShare | syncnotification.go:119-150 | the header stage's total depends on the part p of headers fetched alone; the elapsed time cancels, for every p but 0 and 3 |
| Progress.HeadersAtMost53Exactly | syncnotification.go:119-159 | for every p but 0 and 3, also negative or above one, stage one reports within [0, 53] if and only if p lies between -57/3981 and 6099/6033 |
| Progress.HeadersOrdered | syncnotification.go:119-159 | more headers never report less, whatever time they took, on either side of the pole at 3 |
| Progress.DiscoveryAtMost100 | syncnotification.go:275-295 | stage two never reports more than 100 |
| Progress.DiscoveryOrdered | syncnotification.go:279-288 | stage two is monotone in elapsed time, across the switch of its estimate |
| Progress.ActiveSyncData.FetchHeadersStarted | syncnotification.go:55-82 | the first call starts the stage and later ones change nothing |
| Progress.ActiveSyncData.FetchHeadersProgress | syncnotification.go:86-159 | the report is the part's, independent of the elapsed time, within [0, 53] if and only if the part is in range, as it is whenever the header's time is not in the future and its height above the start; reported inactivity moves the start once; nothing after the stage has ended |
| Progress.ActiveSyncData.FetchHeadersFinished | syncnotification.go:187-209 | the header time is the elapsed time less inactivity, and 150 seconds if that is below it |
| Progress.ActiveSyncData.UpdateAddressDiscoveryProgress | syncnotification.go:252-302 | a tick reports the discovery total for the shifted start, never above 100, and at least 53 exactly under the condition above |

## Left out

- Libraries: compact filters, script parsing, `DetermineTxType`, Merkle and DCP0005 validation, badger, bolt, storm, p2p and dcrwallet are functions, maps or outcomes given from outside.
- Blocks: a peer answers a request for a hash with the block of that hash (`blockOf`), or the request fails.
- SpvSyncer.Syncer.ScanChain: assumes, as the code does, distinct block hashes, supplied blocks that belong to their hashes, and no `LoadTxFilter` between its rounds.
- SpvSyncer.Syncer.Rescan: assumes that `save` does not change the filters; attempts stand for peers until none is left or the context is done.
- Scan.MatchesAreRelevant: a vote without inputs, on which the code would panic but which `DetermineTxType` excludes, counts as having no checked inputs.
- SpvSyncer.Syncer.FilterRelevant: one call only; called for several wallets on one slice (spv/sync.go:814) the second call sees what the first left.
- Buckets.Transaction: one transaction over immutable byte sequences; badger's snapshots, errors other than a missing key, slice aliasing in `addPrefix` and the registry of open buckets are not modelled.
- Buckets.Transaction.CreateTopLevelBucket: an empty key is an error, as badger refuses it; badger's own limits on keys are not modelled.
- `dropBucket` and `DeleteTopLevelBucket`: the first compares recorded prefixes with the parent's prefix and the second removes only direct entries, so neither removes all that lies below the bucket.
- `Cursor.Last`, `Cursor.Prev` and `Cursor.Delete`: `Last` tests a stale key and `Prev` stops at a foreign one, so neither mirrors enumeration.
- BucketCursor.Cursor.First: requires some key of the store at or above the bucket's record, as the code reads the iterator's item without checking that there is one; `Next` on an unpositioned cursor likewise.
- BucketCursor.Cursor.Next: not called once the iterator has passed the last key of the whole store, where badger has no item to move on from.
- TxIndex.DB.SaveOrUpdate: a `TicketSpentHash` that another record has is a failing save like any other; a failing delete of the old record, which the code ignores, is not modelled, the save replacing the record under its hash all the same.
- TxIndex.DB.IndexTransactions: reads one view of the chain in height order; the unmined transactions handed over at the end are covered by `IndexBlock` only.
- TxIndexRuns.AlwaysUpToDate: one pass or reindexing at a time, no writes by the transaction listener, reorganisations at most six blocks deep that do not lower the tip, and no failing reset.
- TxIndexRuns.FinishedPassCovers: coverage with right heights, not equality; records of orphaned transactions are never deleted.
- CatchUp.ChannelLifecycle: the channel field and its closing; the ticker goroutine that may still read the field afterwards is modelled only by its effect on the start time.
- CatchUp.MutualExclusion: one syncer; header fetching, rescan progress and log output are not steps.
- PeerBound.AtMostMaxPeers: candidate connections; persistent peers use another function and no semaphore.
- GetData.GetTransactionsByHashes: where a request repeats hashes, wallets are taken to answer in request order; for distinct hashes any order is allowed.
- TxInvs.NeverObtainedTwice: `seenTxs` is a set; the least recently used of more than 2000 hashes would be forgotten.
- TopTransactions.GetTransactions: offset above zero is applied per wallet, so only membership, order and length are claimed; JSON encoding is not modelled.
- Progress.HeadersOrdered: floating point is real arithmetic up to the final rounding, and 32-bit overflow is not modelled.
- Progress.ActiveSyncData.FetchHeadersProgress: where no headers are expected at all or exactly a third of those fetched, the code divides by zero and converts what is no number; what it then reports is left open (`undefined`).
- Progress.NeverFallsBack: one wallet's first and second stage; the rescan stage and the second wallet's discovery start again.
- Wallet files, creation, passphrases, address and message handling, ticket purchase, Politeia, configuration, the loader, transaction decoding, `TxAuthor` and listener delivery: input and output or thin wrappers.
