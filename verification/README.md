# Verified models of the ledger's core

This project models the parts of the chain software in which several
representations, or several threads, must agree, and proves what they are for.
Hash functions, account digests and the positions of the Bloom filter are
uninterpreted function parameters; threads are interleavings of atomic steps.
`dafny verify dfyconfig.toml` checks everything.

| part | files |
|---|---|
| Merkle Patricia trie | `TrieModel` (the value a trie stands for and what each operation makes of it), `TrieShape`, `TrieTheory` (map refinement, canonical shape, hash cache), `TrieNodes`, `TrieHashing`, `TrieHeap` (the node objects, their child tables and flags, changed in place), `TriePersist` (change log, stores, loading), `TrieRecords` (which records there are), `TrieLazy` (nodes loaded when an operation comes to them), `Uint256`, `Options` |
| Lock-free queue and semaphore | `FreeList`, `DequeueProtocol`, `BlockIndex`, `Semaphore`; `Binary` (powers of two and masks) |
| Merkle tree and proofs | `MerkleTree` |
| Timer wheel | `TimerWheel` |
| Thread pool | `ThreadPool` |
| Ledger step | `Ledger`, `LedgerStep`, `LedgerCheck` (which bodies pass the check), `LedgerSupply`, `LedgerFunds` (which checked blocks apply), `LedgerUndo` (what a refused block leaves), `LedgerHistory` (accepted and refused blocks together), `LedgerNonces`, `Receipts`, `BloomFilter` |
| Binary serializer | `Serializer` |

How the parts are proved:

- **Trie.** `TrieHeap.Trie` is a class over a graph of node objects. Its ghost
  map says which tree each node stands for; every method is proved to turn the
  tree of the root into the result of a function of `TrieModel`, and the theorems
  of `TrieTheory` are about these functions. So the heap structure with its
  cached hashes refines a map, whatever the run.
- **Concurrent protocols.** A state, a step for each atomic access, an invariant
  that every step keeps, and theorems over every run. Auxiliary data (the list
  behind the links, the fate of every reservation, the status of every block) is
  never part of the state: it is what the invariant says exists.
- **Sequential algorithms.** Methods with the loops of the code, proved against a
  function or a reference definition that does not look like the loop.
- **What an operation achieves.** Beside the invariants each protocol has theorems on
  what a call does when it runs alone and on when, in any interleaving, it may come
  back with nothing; sums, roots, proofs and encodings have laws that do not mention
  their definitions.

Where a property that one would expect does not hold, the model keeps the code's
behaviour, a lemma gives the input that shows it, and a theorem says exactly when
the property holds:

- The root hash sums the hashes of the children of a branch, so it does not say under
  which keys the accounts are (`TrieTheory.RootIgnoresKeys`); without collisions it does
  change with the value of every account (`TrieTheory.UpdateChangesRoot`).
- A Merkle root adds up pairs too, and repeats the last element up to a power of two, so
  it does not always fix that element (`MerkleTree.LastOfThree` says when it does among
  three); it fixes all others, and the last if it is not repeated
  (`MerkleTree.RootBinds`).
- The check of a block body has three gaps. It does not sum the outputs of a sender
  that is not yet in the trie (`LedgerSupply.CheckLetsMintingThrough`); it sums the
  outputs of the others in 64 bits, so that outputs of 2^64 + 1 units pass as one
  (`LedgerSupply.CheckLetsWrappingThrough`); and it sums what a sender spends in 64
  bits (`LedgerFunds.CheckLetsOverspendingThrough`). `LedgerSupply.BlockSupply` says
  for every block that applies, and `LedgerSupply.ChainSupply` for every chain of
  accepted blocks, by how much a total is off and hence exactly when it is right;
  `LedgerSupply.SupplyConserved` says that it is right if the first two are not used.
  `LedgerCheck.CheckExact` says exactly which bodies pass.
- A body that passes the check need not apply. `LedgerFunds.CheckedExact` says exactly
  when it does; `LedgerFunds.CheckedTidyApplies` gives four simple conditions, and
  `NothingFromNoEntry`, `CheckLetsOverspendingThrough`, `WrappedBalance` and
  `SpentTooEarly` a block that breaks each of them alone.
- A block that is refused after the check is undone record by record, from the first
  to the last, with the record of a transaction that failed among them. So a block
  that fails can mint (`LedgerUndo.RefusedBlockMints`) or stop half undone
  (`LedgerUndo.UndoingCanThrow`), and a block refused only for its root can leave
  units of an asset that nobody has established (`LedgerUndo.MismatchCanMint`).
  `LedgerUndo.UndoExact` says exactly how far undoing gets and what it leaves in every
  account; `LedgerUndo.MismatchExact` and `LedgerUndo.FailureExact` say what that is in
  terms of the block, `LedgerNonces.UndoneNonce` and `LedgerNonces.FailedNonce` what
  becomes of nonces, and `LedgerHistory.HistorySupply` when a total is right after
  accepted and refused blocks in any order.
- A nonce can be used in two blocks (`LedgerNonces.NonceUsedTwice`);
  `LedgerNonces.NoncesNeverRepeat` says exactly along which chains it is not.
- A class whose tag was found and whose field cannot be read leaves the position
  moved (`Serializer.FailedClassReadMoves`); `Serializer.FailedReadExact` says that
  this is the only thrown read that does. The space check of a string counts from
  its tag (`Serializer.CutStringStrays`); `Serializer.TextStraysExact` says which
  strings are read past the end.
- Erasing a leaf below a branch with three or more children logs nothing for the
  branch, and hashing refreshes only the hash of a record that is in the log
  already, so that the record goes on listing the leaf
  (`TriePersist.RunLosesTrie`); and the leaf of the zero address has the name of
  the root. `TriePersist.RecordedExact` says that, from a trie the stores describe,
  these are exactly the operations after which it cannot be loaded again;
  `TriePersist.ReloadExact` says after which runs it can.
- A close that waits for all tasks can leave behind a task of a commit that it
  overlaps (`ThreadPool.OverlapCanLeaveATask`); `ThreadPool.WaitingCloseExact` says
  which tasks are finished.
- An Append that throws can drop an entry of zero
  (`LedgerFunds.CheckLetsOverspendingThrough`); `LedgerFunds.FailedAppendRestores`
  says that this is all it can do.
- At a distance of exactly half the word range `circular_less_than` gives the
  wrong answer; `DequeueProtocol.CircularLessExact` says it is the only distance
  up to half the range where it does.

## Model

| member | source | states |
|---|---|---|
| `TrieTheory.RunRefinesMap` | include/db/merkle_patricia_trie.hpp:312-649 | after every run of insert, marked update, erase and get_hash from the empty trie, the path invariant and the hash-cache invariant hold, and every search answers as the map does on which the same operations were made, where inserting a present key does nothing |
| `TrieTheory.HistoryIndependence` | include/db/merkle_patricia_trie.hpp:226-296 | any two runs that end with the same map have the same shape and return the same root hash, wherever get_hash was called in between |
| `TrieTheory.Canonical` | include/db/merkle_patricia_trie.hpp:360-458 | the shape is a function of the contents: two well-formed tries with the same searches are equal up to cached hashes and flags |
| `TrieTheory.GetHashCorrect` | include/db/merkle_patricia_trie.hpp:226-296 | from a coherent cache, hashing returns the hash of a full recomputation, changes nothing else, and leaves every branch unmarked |
| `TrieTheory.UpdateChangesRoot` | include/db/merkle_patricia_trie.hpp:278-284 | without collisions of the hash and of account digests, giving a present key another value changes the root hash, however deep it lies |
| `TrieTheory.SumAdds` | include/db/merkle_patricia_trie.hpp:278-284 | a child in a free slot adds its hash to the sum of the branch and nothing else |
| `TrieTheory.OneLeafHash` | include/db/merkle_patricia_trie.hpp:278-284 | the root hash of a trie of one account, written out |
| `TrieTheory.RootIgnoresKeys` | include/db/merkle_patricia_trie.hpp:278-284 | the root hash does not say under which keys the accounts are: tries of one account each have the same root hash if and only if they have the same value |
| `TrieTheory.StepKeepsShape` | include/db/merkle_patricia_trie.hpp:360-649 | every operation keeps the path invariant: sub_keys spell the key, slots name first nibbles, leaves lie at depth 64, non-root branches have two children |
| `TrieTheory.StepKeepsCoherence` | include/db/merkle_patricia_trie.hpp:408-457 | every operation keeps the cache invariant: an unmarked branch stores its full hash and has no marked branch below it |
| `TrieTheory.StepAnswers` | include/db/merkle_patricia_trie.hpp:360-649 | each operation changes the answer for its own key only, and to what the map operation gives |
| `TrieShape.InsertBranchOk` | include/db/merkle_patricia_trie.hpp:527-649 | inserting an absent key keeps the shape below every branch |
| `TrieShape.InsertBranchLookup` | include/db/merkle_patricia_trie.hpp:527-649 | it changes the answer for that key alone |
| `TrieShape.SplitLookup` | include/db/merkle_patricia_trie.hpp:595-630 | cutting a prefix and hanging the old node and a new leaf below it adds one key and keeps all others |
| `TrieShape.UpdateBranchLookup` | include/db/merkle_patricia_trie.hpp:135-188 | writing through the pointer of search_and_mark changes one key alone |
| `TrieShape.EraseBranchOk` | include/db/merkle_patricia_trie.hpp:360-458 | erasing a present key, with the merge of a branch left with one child, keeps the shape |
| `TrieShape.EraseBranchLookup` | include/db/merkle_patricia_trie.hpp:360-458 | it removes that key alone |
| `TrieHeap.Trie.constructor` | include/db/merkle_patricia_trie.hpp:658-663 | a new trie stands for the empty tree with its hash computed |
| `TrieHeap.Trie.FindLeaf` | include/db/merkle_patricia_trie.hpp:312-357 | find and search return the leaf whose value the tree has for the key, and nothing exactly if the tree has none |
| `TrieHeap.Trie.Walk` | include/db/merkle_patricia_trie.hpp:461-506 | the loop over two indices ends at the slot, the mismatch or the leaf where the key's path ends, with the nodes passed on the way |
| `TrieHeap.Trie.SearchAndMark` | include/db/merkle_patricia_trie.hpp:135-188 | marks exactly the branches above a present leaf, and nothing if the key is absent |
| `TrieHeap.Trie.Update` | include/db/merkle_patricia_trie.hpp:135-188 | marking followed by a write through the returned pointer is the tree's update |
| `TrieHeap.Trie.AddLeaf` | include/db/merkle_patricia_trie.hpp:546-569 | a free slot gets a new leaf and the path is marked |
| `TrieHeap.Trie.SplitAt` | include/db/merkle_patricia_trie.hpp:595-642 | a mismatch inside a prefix puts a new branch in place of the node, with the node and a new leaf below it |
| `TrieHeap.Trie.Insert` | include/db/merkle_patricia_trie.hpp:527-649 | the node graph afterwards stands for the tree after insertion; the invariant of the graph is kept |
| `TrieHeap.Trie.EraseLeaf` | include/db/merkle_patricia_trie.hpp:408-420 | the leaf leaves its table and the path is marked |
| `TrieHeap.Trie.EraseAndMerge` | include/db/merkle_patricia_trie.hpp:419-457 | the last brother takes its parent's place with the joined prefix |
| `TrieHeap.Trie.Erase` | include/db/merkle_patricia_trie.hpp:360-458 | the node graph afterwards stands for the tree after erasure; the result says whether the key was present |
| `TrieHeap.Trie.GetHash` | include/db/merkle_patricia_trie.hpp:226-296 | the two-stack algorithm computes the recursive rehashing of the tree and returns its root hash |
| `TrieHashing.Collect` | include/db/merkle_patricia_trie.hpp:231-257 | the first loop collects exactly the marked branches reachable over marked branches, parents before children |
| `TrieHashing.HashAll` | include/db/merkle_patricia_trie.hpp:258-293 | the second loop hashes every collected branch after all branches below it |
| `TrieNodes.Node.InsertChild` | include/db/node_table.hpp:36-47 | fills a free slot and counts it, refuses a used one |
| `TrieNodes.Node.EraseChild` | include/db/node_table.hpp:49-62 | frees a used slot and counts it |
| `TrieNodes.Node.ReplaceChild` | include/db/node_table.hpp:65-75 | exchanges the node of a used slot and returns the old one |
| `TrieNodes.Node.FirstChild` | include/db/node_table.hpp:84-91 | returns the first used slot |
| `Uint256.PlusCommutes` | include/db/uint256.hpp:188-194 | the byte-wise sum is commutative |
| `Uint256.PlusBytes` | include/db/uint256.hpp:188-194 | every byte of the sum is the sum of the bytes, or 256 less |
| `Uint256.PlusAssociates` | include/db/uint256.hpp:188-194 | the sum is associative |
| `Uint256.PlusZero` | include/db/uint256.hpp:188-194 | zero is its unit |
| `Uint256.PlusCancels` | include/db/uint256.hpp:188-194 | sums with the same left side are equal only if the right sides are |
| `TriePersist.PersistAndReload` | include/db/merkle_patricia_trie.hpp:93-132 | after every recorded run of insertions, marked updates, erasures and hashing from a trie the stores describe, writing the change log to the extension store and the accounts to the account store and loading gives a trie with the same map and root hash, which the stores again describe |
| `TriePersist.RecordedExact` | include/db/merkle_patricia_trie.hpp:408-457 | one more operation can be loaded again, with the same map and root hash, if and only if it does not insert the zero address and does not erase a leaf whose parent stays, is not the root and has an entry in the log |
| `TriePersist.ReloadExact` | include/db/merkle_patricia_trie.hpp:285-292 | after every run of insertions other than of the zero address, updates, erasures and hashing, the trie comes back if and only if no branch with an entry in the log has an erased child listed there; otherwise nothing can be loaded |
| `TriePersist.SoundComesBack` | include/db/connector_account.cpp:738-771 | once the log is written, deletions included, the stores describe the trie in memory and the one loaded from them alike |
| `TriePersist.EraseKept` | include/db/merkle_patricia_trie.hpp:408-457 | what an erasure logs describes the new trie if and only if the parent of the leaf is the root, or is merged away, or has no entry in the log; otherwise all that is wrong is that the parent's record lists the leaf |
| `TriePersist.EraseLosesTrie` | include/db/merkle_patricia_trie.hpp:449-451 | otherwise nothing can be loaded after the next hashing and writing: the record still lists the leaf, whose record is deleted |
| `TriePersist.RunLosesTrie` | include/db/merkle_patricia_trie.hpp:449-451 | three accounts inserted into a new store, the third erased: nothing can be loaded |
| `TriePersist.ZeroAddressEmpties` | include/db/merkle_patricia_trie.hpp:557-561 | after the zero address is inserted into any described trie an empty trie is loaded |
| `TriePersist.HashGrows` | include/db/merkle_patricia_trie.hpp:268-293 | hashing never removes a log entry, never revives a deleted one and changes only the hash of a record that is there |
| `TrieLazy.ReopenAndRun` | include/db/merkle_patricia_trie.hpp:666-686 | after a recorded run, the trie opened from the stores with its root alone goes through any further run, loading nodes as it comes to them, without a failed load, and then has every answer and the root hash that the trie in memory would have; the stores stay as they are during that run |
| `TrieLazy.LazyRunsInStep` | include/db/merkle_patricia_trie.hpp:93-132 | with the log written at any points in between, every recorded operation on a partly loaded trie succeeds, writes to the log what the session of the whole trie writes, and leaves the part in memory of its trie over the stores as they then are, so that every search answers alike |
| `TrieLazy.OpensInStep` | include/db/merkle_patricia_trie.hpp:666-686 | a trie opened from the stores is in that relation to the trie that was stored |
| `TrieLazy.SameRecord` | include/db/mpt_node.hpp:61-80 | the record made of a loaded branch is that of the whole one, whether its children are loaded or not |
| `TrieLazy.InsertLogAlike` | include/db/merkle_patricia_trie.hpp:557-635 | what insertion into a partly loaded trie logs is what insertion into the whole one logs, up to the cached hash in the record of a leaf |
| `TrieLazy.EraseLogAlike` | include/db/merkle_patricia_trie.hpp:408-457 | the same for erasing, with the last brother loaded |
| `TrieLazy.HashLogAlike` | include/db/merkle_patricia_trie.hpp:268-293 | the same for hashing |
| `TrieLazy.RunShows` | include/db/merkle_patricia_trie.hpp:93-132 | every run on a partly loaded trie succeeds and leaves the part in memory of the trie that the run leaves on the whole |
| `TrieLazy.FetchShows` | include/db/merkle_patricia_trie.hpp:93-132 | loading one node makes no difference to the trie |
| `TrieLazy.FindShows` | include/db/merkle_patricia_trie.hpp:461-506 | searching with loading answers as the whole trie does and only loads |
| `TrieLazy.FindLoadsItsPath` | include/db/merkle_patricia_trie.hpp:93-132 | a search loads what it passes: the same search afterwards needs no store, answers alike and loads nothing |
| `TrieLazy.InsertShows` | include/db/merkle_patricia_trie.hpp:527-649 | insertion with loading is insertion into the whole trie |
| `TrieLazy.EraseShows` | include/db/merkle_patricia_trie.hpp:360-458 | erasing with loading, of the last brother too, is erasing from the whole trie |
| `TrieLazy.HashShows` | include/db/merkle_patricia_trie.hpp:226-296 | hashing with loading is hashing the whole trie, and leaves no child of a hashed branch unloaded; cached hashes of leaves do not matter |
| `TriePersist.InsertKept` | include/db/merkle_patricia_trie.hpp:557-635 | the records an insertion logs, over those there were, describe the new trie |
| `TriePersist.UpdateKept` | include/db/merkle_patricia_trie.hpp:135-188 | a marked update needs no new record, only the account |
| `TriePersist.HashBranchKept` | include/db/merkle_patricia_trie.hpp:268-293 | hashing logs or refreshes every hashed branch, so that the records carry the new hashes |
| `TriePersist.LoadNodeOk` | include/db/mpt_node.hpp:159-179 | a node built from its record has the children, slots and hash of the node that was stored |
| `TriePersist.DigitIndex` | include/encryption/hash_handler.cpp:17-26 | the hex digit written for a nibble is read back as its slot |
| `TriePersist.NewStoreIsSound` | include/db/merkle_patricia_trie.hpp:666-686 | the store the constructor creates describes the empty trie |
| `TrieRecords.StoreHoldsTheTrie` | include/db/connector_account.cpp:738-771 | after any run from a new store every record is that of a node, so erasing leaves nothing behind; after any recorded run, once the log is written, the store holds the nodes of the trie, all of them and nothing else |
| `TrieRecords.WrittenForgetsTheLog` | include/db/connector_account.cpp:850-866 | writing the log keeps every record and takes the log away, so that after the next erasure, whatever it is, the trie can be loaded again |
| `TrieRecords.EraseLogs` | include/db/merkle_patricia_trie.hpp:408-457 | what erasing leaves under a name is a node of the new trie, or was there and belongs to no node |
| `TrieRecords.InsertLogsNodes` | include/db/merkle_patricia_trie.hpp:557-635 | what insertion logs are nodes of the new trie |
| `TrieRecords.LeafHashesLogged` | include/db/merkle_patricia_trie.hpp:268-293 | hashing writes the digest of its value into the logged record of every leaf below marked branches, and logs no other leaf |
| `FreeList.RunsAreSafe` | dependency/concurrent_queue/concurrentqueue.h:1459-1538 | over every interleaving of any number of threads (below 2^31 - 1), each block has exactly one status (listed, owned, being handed out, waiting, being pushed), its reference word is the list or provisional reference plus its holders plus the flag, and the links from the head form a finite chain without repetition |
| `FreeList.StepSafe` | dependency/concurrent_queue/concurrentqueue.h:1459-1538 | every atomic access keeps that invariant, although threads act on values read long ago |
| `FreeList.AccessHoldOk` | dependency/concurrent_queue/concurrentqueue.h:1489-1506 | what an access of try_get may do to the block it holds a reference to, and to the list |
| `FreeList.AccessPushOk` | dependency/concurrent_queue/concurrentqueue.h:1516-1538 | what an access of add_knowing_refcount_is_zero may do |
| `FreeList.AccessAddOk` | dependency/concurrent_queue/concurrentqueue.h:1459-1471 | what the first access of add does |
| `FreeList.OwnersAreExclusive` | dependency/concurrent_queue/concurrentqueue.h:1473-1510 | no block is owned by two callers, or owned and on the list, being pushed or being handed out |
| `FreeList.HandOutIsExclusive` | dependency/concurrent_queue/concurrentqueue.h:1490-1499 | the assertion in try_get: a block taken off the list has its flag clear, and nobody else has it |
| `FreeList.NothingIsLost` | dependency/concurrent_queue/concurrentqueue.h:1502-1507 | when all threads are outside, every block is on the list with count one or owned with count zero |
| `FreeList.StepRefinesPool` | dependency/concurrent_queue/concurrentqueue.h:1459-1510 | the list behaves as a set changed atomically: add puts its block in with its first access, a successful swap in try_get removes one element, nothing else changes it |
| `FreeList.LoneGetIsExact` | dependency/concurrent_queue/concurrentqueue.h:1473-1510 | from every state the invariant allows, a try_get that runs alone gets the first block of the list, whose count becomes zero, and leaves the rest; from the empty list it gets nothing and changes nothing |
| `FreeList.LoneAddIsExact` | dependency/concurrent_queue/concurrentqueue.h:1459-1538 | an add that runs alone puts its block in front of the list |
| `FreeList.NothingOnlyFromNull` | dependency/concurrent_queue/concurrentqueue.h:1475-1510 | in every interleaving a try_get that returns without a block has read a null head since it was called |
| `FreeList.NullWasRead` | dependency/concurrent_queue/concurrentqueue.h:1475-1510 | whoever is about to return nothing has read a null head during its call |
| `FreeList.AddsAndTakesAlternate` | dependency/concurrent_queue/concurrentqueue.h:1459-1510 | over every run, a block is handed out at most once after each time it was added |
| `DequeueProtocol.EachIndexOnce` | dependency/concurrent_queue/concurrentqueue.h:1954-2052 | in every interleaving of one producer and any number of single and bulk consumers, the indices given out are 0, 1, 2, ... up to the head, each once and in order, and the head never passes the tail |
| `DequeueProtocol.TakesBelowTail` | dependency/concurrent_queue/concurrentqueue.h:2247-2271 | the whole range a consumer is about to take lies below the tail, although its tail and overcommit may be stale |
| `DequeueProtocol.StepSafe` | dependency/concurrent_queue/concurrentqueue.h:1954-2052 | every access keeps the invariant on the fate of every unit of the optimistic count |
| `DequeueProtocol.RoomBound` | dependency/concurrent_queue/concurrentqueue.h:1978-1995 | reservations that were each decided on old values together stay below the tail |
| `DequeueProtocol.SettledCount` | dependency/concurrent_queue/concurrentqueue.h:2045-2048 | with nobody dequeuing, the optimistic count corrected by the overcommit is the head |
| `DequeueProtocol.LoneDequeueIsExact` | dependency/concurrent_queue/concurrentqueue.h:2247-2338 | a consumer that runs alone gets the smaller of its limit and what is left, nothing only from an empty queue |
| `DequeueProtocol.FirstLook` | dependency/concurrent_queue/concurrentqueue.h:1955-1960 | in any interleaving, a consumer that finds nothing unreserved gives up, and otherwise reserves what it wants of what it finds |
| `DequeueProtocol.SecondLook` | dependency/concurrent_queue/concurrentqueue.h:1978-1990 | after reserving it takes what it reserved, or what is left by now, and gives back the others |
| `DequeueProtocol.NothingOnlyFromEmpty` | dependency/concurrent_queue/concurrentqueue.h:2045-2052 | a consumer goes away with nothing only where one of its two looks found nothing, and has then given back all it reserved |
| `DequeueProtocol.TailCounts` | dependency/concurrent_queue/concurrentqueue.h:1849-1951 | over every run the indices given out and those still there are together the indices of the elements enqueued |
| `DequeueProtocol.CircularLessExact` | dependency/concurrent_queue/concurrentqueue.h:476-483 | for counters at most half the range apart, the comparison of their words is right if and only if the distance is not exactly minus half |
| `BlockIndex.FindsTheBlock` | dependency/concurrent_queue/concurrentqueue.h:2006-2017 | the circular lookup of any live index finds the block of the ring that holds it |
| `BlockIndex.MaskIsAnd` | dependency/concurrent_queue/concurrentqueue.h:2017-2017 | for an index of 2^k entries, masking with size - 1 is the remainder by the size, for negative differences too |
| `BlockIndex.DequeueOk` | dependency/concurrent_queue/concurrentqueue.h:2006-2040 | the element found is the oldest one, and the structure stays in order |
| `BlockIndex.ReusedOk` | dependency/concurrent_queue/concurrentqueue.h:1857-1868 | an empty block ahead becomes the newest block of the ring and of the index |
| `BlockIndex.ExtendedOk` | dependency/concurrent_queue/concurrentqueue.h:1895-1913 | a spare block is linked in and entered into the index |
| `BlockIndex.DoubledOk` | dependency/concurrent_queue/concurrentqueue.h:2356-2393 | the index of double size describes the same ring |
| `BlockIndex.StoredOk` | dependency/concurrent_queue/concurrentqueue.h:1945-1951 | storing an element appends it to the queue |
| `BlockIndex.Producer.NewBlockIndex` | dependency/concurrent_queue/concurrentqueue.h:2356-2393 | the index of double size describes the same ring, from an empty, a partly used and a full table |
| `BlockIndex.CopyEntries` | dependency/concurrent_queue/concurrentqueue.h:2371-2379 | the copying loop takes the entries in use from the oldest on |
| `BlockIndex.Producer.Enqueue` | dependency/concurrent_queue/concurrentqueue.h:1849-1951 | appends to the contents, across block reuse and table growth, or refuses and changes nothing, exactly if a new block is needed and the leeway or the size limit forbids it; the contents never exceed the limit |
| `BlockIndex.FullExact` | dependency/concurrent_queue/concurrentqueue.h:1869-1884 | an element is refused if and only if the last block is full, every block of the ring still holds elements, and another block of elements would exceed the limit; never without a limit |
| `BlockIndex.RefusedExact` | dependency/concurrent_queue/concurrentqueue.h:1876-1877 | a new block is refused if and only if there is a limit and the elements and another block exceed it |
| `BlockIndex.Producer.Dequeue` | dependency/concurrent_queue/concurrentqueue.h:1955-2052 | removes and returns the first element, or nothing from an empty queue |
| `Semaphore.RunsConserve` | dependency/concurrent_queue/lightweightsemaphore.h:278-418 | in every interleaving with timeouts: waiters = max(0, -count) + kernel permits + posts to come, and acquired + max(0, count) + kernel permits + posts to come = initial + signalled; so acquired never exceeds what was given |
| `Semaphore.StepConserves` | dependency/concurrent_queue/lightweightsemaphore.h:278-418 | every access keeps both equations, with the narrowing of the release count to 32 bits |
| `Semaphore.NoLostWakeUp` | dependency/concurrent_queue/lightweightsemaphore.h:299-311 | a thread asleep while the count owes nobody has a kernel permit ready or a post on its way |
| `Semaphore.NothingLost` | dependency/concurrent_queue/lightweightsemaphore.h:409-418 | with everybody outside, the count is exactly what was given and not acquired |
| `Semaphore.StepKeepsCalls` | dependency/concurrent_queue/lightweightsemaphore.h:314-348 | no call acquires more than it asked for, and a wait returns empty-handed only by undoing its subtraction |
| `Semaphore.LoneTryWait` | dependency/concurrent_queue/lightweightsemaphore.h:357-391 | a tryWait or tryWaitMany that runs alone acquires the smaller of what it asks for and what there is |
| `Semaphore.TryFailsOnlyOnNothing` | dependency/concurrent_queue/lightweightsemaphore.h:357-391 | in every interleaving, a try that ends with nothing ends at a moment when the count has nothing to give |
| `Semaphore.TrySeesWhatThereIs` | dependency/concurrent_queue/lightweightsemaphore.h:357-391 | while the count has something, a try gets some of it or goes on with the count it has just seen |
| `Semaphore.LoneWaitMany` | dependency/concurrent_queue/lightweightsemaphore.h:393-400 | a waitMany that runs alone takes the smaller of what it asks for and a positive count |
| `Semaphore.SpinnerTakes` | dependency/concurrent_queue/lightweightsemaphore.h:278-288 | a thread that spins takes, left alone, the smaller of what it asks for and a positive count |
| `Semaphore.LateWaiterTakes` | dependency/concurrent_queue/lightweightsemaphore.h:304-311 | a wait whose time is over takes, left alone, a kernel permit that is ready while the count owes nobody |
| `Semaphore.LateWaiterLeaves` | dependency/concurrent_queue/lightweightsemaphore.h:304-311 | otherwise it takes its subtraction back |
| `Semaphore.LoneWaitGivesUp` | dependency/concurrent_queue/lightweightsemaphore.h:278-311 | a wait without time that runs alone on a count with nothing to give leaves everything as it was |
| `Semaphore.LoneWaitSleeps` | dependency/concurrent_queue/lightweightsemaphore.h:278-297 | a wait with time goes to sleep with the count lowered by one |
| `Semaphore.SleeperWakes` | dependency/concurrent_queue/lightweightsemaphore.h:314-348 | a sleeper with a kernel permit ready takes it and tries for the rest |
| `Semaphore.LoneSignal` | dependency/concurrent_queue/lightweightsemaphore.h:409-418 | a signal that runs alone adds its permits to the count and posts one for every sleeper it owed, up to their number |
| `MerkleTree.DistanceToPow2` | include/db/merkle_tree.cpp:9-23 | for every 32-bit n, the distance to the least power of two that is at least n; -1 for 0 |
| `Binary.BitTestIsPow2` | include/db/merkle_tree.cpp:14-16 | n & (n - 1) is zero exactly for the powers of two |
| `MerkleTree.RootWorker` | include/db/merkle_tree.cpp:25-43 | pairs levels until one element is left |
| `MerkleTree.ShrinkIsFold` | include/db/merkle_tree.cpp:25-43 | on a power of two, pairing level by level computes the root of the perfect binary tree |
| `MerkleTree.RootOfVector` | include/db/merkle_tree.cpp:45-66 | the root of the perfect tree over the padded list, for every list shorter than 2^32; the caller's vector is left padded |
| `MerkleTree.RootOfQueue` | include/db/merkle_tree.cpp:68-98 | the same root; no level is odd and no front is empty when it is read |
| `MerkleTree.MakeProof` | include/db/merkle_tree.cpp:100-150 | for every hash function: a proof is accepted against the list's root if and only if what it is for occurs in the tree, so every element has an accepted proof; empty and one-element lists and wrong indices as in the code |
| `MerkleTree.ProveLevel` | include/db/merkle_tree.cpp:125-146 | the proof leads from the element to the tracked value, which stands in the next level, even if it moves more than once |
| `MerkleTree.VerifyProof` | include/db/merkle_tree.cpp:184-195 | accepts exactly the proofs whose last entry is the root and whose entries lead to it |
| `MerkleTree.AcceptsExactly` | include/db/merkle_tree.cpp:184-195 | a proof of two entries or more is accepted if and only if its last entry is the root and there are values from the element to the root, each the hash of the one before added to the next entry |
| `MerkleTree.ProofBinds` | include/db/merkle_tree.cpp:184-195 | without collisions, a proof is accepted against a root for one value only |
| `MerkleTree.RootBinds` | include/db/merkle_tree.cpp:25-66 | without collisions, changing one element changes the root, unless it is the last and padding repeats it |
| `MerkleTree.LastOfThree` | include/db/merkle_tree.cpp:25-66 | the root of three elements does not fix the last of them: it stays if and only if the element added to itself does |
| `TimerWheel.RunsOnTime` | include/timer/timer_wheel.cpp:36-65 | with an ideal clock, a task set at tick t with delay of G ticks runs exactly once, at t + G if G is at most 255, at t + G or one tick earlier if G is at most 16128, for every t, whatever other tasks are set with any delay or cancelled, and wherever the higher levels drop theirs |
| `TimerWheel.RunsExactlyOnce` | include/timer/timer_wheel.cpp:213-276 | a scheduled task that is not cancelled runs at its tick and never again |
| `TimerWheel.SetSchedules` | include/timer/timer_wheel.cpp:33-65 | placing a task schedules it for one of these ticks |
| `TimerWheel.AdvanceScheduled` | include/timer/timer_wheel.cpp:213-278 | one iteration runs a scheduled task if its tick has come and keeps it scheduled otherwise |
| `TimerWheel.DropKeepsScheduled` | include/timer/timer_wheel.cpp:182-211 | a task that comes down into a bucket of level two leaves every other task scheduled |
| `TimerWheel.PlaceIndices` | include/timer/timer_wheel.cpp:108-112 | the indices and the turn of level two do not notice the wrap of the 32-bit tick |
| `TimerWheel.MasksAreIndices` | include/timer/timer_wheel.hpp:85-86 | the masks and shifts of the code, with which the methods compute, are these indices |
| `TimerWheel.Timer.SetTimeout` | include/timer/timer_wheel.cpp:33-65 | places the task as the model says |
| `TimerWheel.Timer.ClearTimeout` | include/timer/timer_wheel.cpp:292-294 | cancels the task, which for every other task is the event the theorems allow |
| `TimerWheel.CancelStops` | include/timer/timer_wheel.cpp:292-294 | over every run, once a task has been cancelled it does not run, wherever in the wheel it is, and whatever is set or dropped later |
| `TimerWheel.CancelledNeverRuns` | include/timer/timer_wheel.cpp:245-278 | no run from a wheel in which the task is cancelled has a tick for it |
| `TimerWheel.CancelledDoesNotRun` | include/timer/timer_wheel.cpp:245-278 | one iteration does not run it |
| `TimerWheel.RanIs` | include/timer/timer_wheel.cpp:245-278 | an iteration runs the tasks of its bucket that are not cancelled, all of them, in the order of the bucket |
| `TimerWheel.DistributeDrops` | include/timer/timer_wheel.cpp:215-240 | a cancelled task is not moved down |
| `TimerWheel.Timer.MoveDown` | include/timer/timer_wheel.cpp:215-240 | distributes the bucket over level one and empties it |
| `TimerWheel.Timer.Iterate` | include/timer/timer_wheel.cpp:104-278 | cascades, runs the due bucket in order and advances the tick |
| `ThreadPool.RunsKeepInvariant` | include/thread_pool/pool.cpp:10-382 | the invariant holds over every interleaving of commits, core and dynamic workers, manager and close |
| `ThreadPool.TasksAreConserved` | include/thread_pool/pool.cpp:10-83 | every accepted task is in one place (queue, one worker, finished, dropped, returned), tasks leave in the order of acceptance, the queue keeps its bound, vacant count plus busy workers is the number of cores |
| `ThreadPool.WaitingCloseExact` | include/thread_pool/pool.cpp:326-382 | when a close that waits for all tasks is done, an accepted task is finished if and only if it has left the queue, and the queue is empty unless a commit was past its check when close began |
| `ThreadPool.OverlapCanLeaveATask` | include/thread_pool/pool.cpp:236-260 | a run of twelve steps in which such a commit's task stays in the queue of the closed pool |
| `ThreadPool.CommitAccepts` | include/thread_pool/pool.cpp:236-318 | a commit past its check accepts its tasks from the first on, all of them unless the queue gets full; no other step changes the accepted tasks, and none gets past its check once close has begun |
| `ThreadPool.WaitingCloseFinishesAll` | include/thread_pool/pool.cpp:326-382 | if no commit was past its check when close began and close waits for all tasks, every accepted task has finished when it is done |
| `ThreadPool.ClosedHoldsNothing` | include/thread_pool/pool.cpp:354-382 | under every policy a closed pool holds no task half done |
| `ThreadPool.ManagerKeeps` | include/thread_pool/pool.cpp:107-159 | loading the vacant count and acting on the loaded value later, which adds or kills dynamic workers, keep the invariant; a slot is reused only after its worker has exited |
| `ThreadPool.WorkerServes` | include/thread_pool/pool.cpp:10-83 | a worker at the lock of a running pool takes the first task, finishes it, and is back at the lock, with the vacant count as it was |
| `ThreadPool.WorkerComesBack` | include/thread_pool/pool.cpp:66-82 | whoever runs a task finishes it and comes back to the lock |
| `ThreadPool.WorkerAtLock` | include/thread_pool/pool.cpp:10-64 | a worker leaves if and only if the pool has stopped or it is a dynamic worker that is not wanted |
| `ThreadPool.ManagerActs` | include/thread_pool/pool.cpp:107-225 | with at most one vacant a dynamic worker is started in the first free slot, with more than two the first one is stopped and waited for, in both cases within the count of dynamic workers; otherwise nothing changes |
| `ThreadPool.ManagerGoesOn` | include/thread_pool/pool.cpp:203-225 | the manager looks at the switch, loads the count and acts, and stops once close has begun |
| `ThreadPool.LoneCommit` | include/thread_pool/pool.cpp:236-318 | a commit to an open pool queues as many of its tasks as there is room for, behind those there |
| `ThreadPool.CommitChecks` | include/thread_pool/pool.cpp:240-243 | a commit gets past its check if and only if close has not begun |
| `ThreadPool.CloseSettlesAll` | include/thread_pool/pool.cpp:326-382 | if no commit was past its check when close began, the closed pool has an empty queue and every accepted task has finished, or has met the fate of the strategy |
| `ThreadPool.CommitKeeps` | include/thread_pool/pool.cpp:236-318 | every step of a commit keeps the invariant |
| `Receipts.Receipt.CheckNonce` | include/db/receipt.cpp:9-27 | accepts if and only if the nonces are a permutation of the n values after the start, in whatever order they came |
| `Receipts.ConsecutiveMeaning` | include/db/receipt.cpp:9-27 | without wrap-around these are start + 1 to start + n, each once |
| `Receipts.SortedUnique` | include/db/receipt.cpp:14-14 | there is one sorted order, so the sort used does not matter |
| `Receipts.Receipt.Check` | include/db/receipt.cpp:29-34 | the nonces are right and nothing is overspent |
| `BloomFilter.NoFalseNegative` | include/db/bloom_filter.cpp:62-95 | an added value tests positive from then on |
| `BloomFilter.PositiveExact` | include/db/bloom_filter.cpp:91-95 | a value tests positive if and only if none of its positions is unset |
| `BloomFilter.WithIsLeast` | include/db/bloom_filter.cpp:62-77 | adding gives the least filter above the old one in which the value is positive, and changes nothing if it is |
| `BloomFilter.PositiveAfter` | include/db/bloom_filter.cpp:62-95 | false positives, exactly: a value tests positive if and only if each of its positions is one of some added value |
| `BloomFilter.EachPlaceCounts` | include/db/bloom_filter.cpp:91-95 | each of the eight positions alone can tell a value from those added |
| `BloomFilter.BitsOfByte` | include/db/bloom_filter.cpp:112-117 | the bits of a stored byte are those of its binary form, the first the least |
| `BloomFilter.Filter.Insert` | include/db/bloom_filter.cpp:62-77 | sets exactly the positions of the value and says whether it was new |
| `BloomFilter.Filter.Test` | include/db/bloom_filter.cpp:91-95 | all eight positions are set |
| `BloomFilter.Filter.ToStore` | include/db/bloom_filter.cpp:109-125 | the byte string holds exactly the bits of the filter |
| `BloomFilter.Reload` | include/db/bloom_filter.cpp:155-165 | storing and loading gives back every bit |
| `LedgerSupply.SupplyConserved` | include/db/connector_account.cpp:427-529 | along every chain of accepted blocks in which output sums fit in 64 bits and senders new in a block pay out what they take, an asset's total is 0 before it is established and exactly 2^36 after, and no balance exceeds that |
| `LedgerSupply.BlockSupply` | include/db/connector_account.cpp:427-529 | for every block that applies, an asset's total grows by what is established, plus what Append transactions pay out beyond what they take in, less 2^64 for every addition that wraps; so it is right if and only if the last two are equal |
| `LedgerSupply.ChainSupply` | include/db/connector_account.cpp:427-529 | along every chain of accepted blocks, whoever sends, an asset is established at most once, and its total is right if and only if the excess of all its blocks is what wrapped |
| `LedgerSupply.TxSupplyExact` | include/db/connector_account.cpp:431-525 | for every transaction that applies, by how much each total changes, wrapping additions included |
| `LedgerSupply.RoomMeansNoLoss` | include/db/connector_account.cpp:427-529 | nothing wraps in a block whose outputs and totals together stay below 2^64 |
| `LedgerSupply.TxSound` | include/db/connector_account.cpp:431-525 | a balanced transaction keeps every established asset at its supply and in the filter, and gives nobody an entry of any other |
| `LedgerSupply.CheckedIsBalanced` | include/db/connector_account.cpp:331-338 | what the body check and the sender's honesty about the rest guarantee |
| `LedgerSupply.CheckLetsMintingThrough` | include/db/connector_account.cpp:314-329 | a block that establishes an asset and spends it takes one unit, pays out a hundred, and passes |
| `LedgerSupply.CheckLetsWrappingThrough` | include/db/connector_account.cpp:331-338 | a block of a known sender takes one unit, pays out 2^63, 2^63 and 1, and passes; the total grows by 2^64 |
| `LedgerFunds.AppliesExact` | include/db/connector_account.cpp:431-525 | transactions all apply if and only if each Append finds an entry and, adding up what the account had, was given and spent before it modulo 2^64, at least its count, and each Establish finds its asset new |
| `LedgerFunds.CheckedExact` | include/db/connector_account.cpp:410-529 | a body that passes the check applies if and only if every Append is payable in that sense |
| `LedgerFunds.CheckedTidyApplies` | include/db/connector_account.cpp:303-408 | it applies if every Append takes something or finds an entry, what its sender spends of the asset and what it then holds fit in 64 bits, and the sender does not establish the asset later in the block |
| `LedgerFunds.RunningBalances` | include/db/connector_account.cpp:431-525 | after transactions that apply every account holds, modulo 2^64, what it had and was given less what was taken, and has an entry exactly if it was paid since it last spent all it had |
| `LedgerFunds.CheckedSpending` | include/db/receipt.cpp:29-34 | what the receipts of a checked body guarantee: the sum spent, modulo 2^64, is at most what the sender had and establishes |
| `LedgerFunds.CheckLetsOverspendingThrough` | include/db/connector_account.cpp:355-355 | from books that a checked block reaches, an account that holds nothing passes the check with two payments of 2^63; the block fails at the first, and putting the sender back drops its entry of zero |
| `LedgerFunds.NothingSentReached` | include/db/connector_account.cpp:314-329 | a checked block that establishes an asset and sends nothing of it leads to these books |
| `LedgerFunds.NothingFromNoEntry` | include/db/account.cpp:34-50 | a checked block with an Append of nothing by an account without an entry, which fails |
| `LedgerFunds.SpentTooEarly` | include/db/connector_account.cpp:376-376 | a checked block that spends an asset before the same sender establishes it, which fails |
| `LedgerFunds.WrappedBalance` | include/db/account.cpp:52-58 | a checked block in which a balance wraps to zero before it is spent, which fails |
| `LedgerFunds.FailedAppendRestores` | include/db/connector_account.cpp:489-491 | an Append whose reduction throws leaves the sender as it was if and only if it had no entry of zero for the asset; no balance changes in any case |
| `LedgerUndo.FailureExact` | include/db/connector_account.cpp:570-582 | after a block that fails and whose records run, an account that was there has what it had, or, if it establishes the asset in the block, what was taken from it since less what it was given, with an Append that failed made backwards on top, modulo 2^64; without an Establish its balance is what it was if and only if that Append gives it and takes from it the same |
| `LedgerUndo.UndoExact` | include/db/connector_account.cpp:678-736 | for any accounts and records: undoing gets to its end if and only if no record is to take back more than running those before it over that one account and asset leaves, and in any case every account holds of every asset what running the records up to there over it gives |
| `LedgerUndo.UndoingEnds` | include/db/connector_account.cpp:570-582 | what that means for the two ways a block is refused |
| `LedgerUndo.OwedSince` | include/db/connector_account.cpp:702-710 | what an account is owed since it last established an asset is what it spent of it after that less what it received |
| `LedgerUndo.MismatchCanMint` | include/db/connector_account.cpp:692-710 | a checked block that applies, in which a known account establishes an asset and spends five units, leaves it five units of it when it is refused for its root |
| `LedgerUndo.MismatchExact` | include/db/connector_account.cpp:678-736 | after a block that is refused for its root and whose records run, an account that was there has its balance back, unless it establishes the asset in the block; then it has what was taken from it since less what it was given, modulo 2^64, whatever it had before |
| `LedgerUndo.NewAccountsGo` | include/db/connector_account.cpp:615-676 | accounts that are new in a refused block are gone when its records have run |
| `LedgerUndo.PaymentsRun` | include/db/connector_account.cpp:711-717 | a case in which no record stops: a checked block of payments refused for its root, if outputs are positive and what each account spends, and has and receives, fits in 64 bits |
| `LedgerUndo.RefusedBlockMints` | include/db/connector_account.cpp:443-493 | a block that passes the check and fails leaves its sender 2^63 units it never had |
| `LedgerUndo.UndoingCanThrow` | include/db/connector_account.cpp:711-717 | a block whose undoing stops at an account that holds less than is to be taken back |
| `LedgerHistory.HistorySupply` | include/db/connector_account.cpp:410-596 | through accepted and refused blocks in any order an asset is established at most once, and its total is what that makes it if and only if what accepted blocks paid out beyond what they took in, less what wrapped, and what refused blocks changed add up to nothing |
| `LedgerHistory.MismatchKeepsTotal` | include/db/connector_account.cpp:678-736 | a block refused for its root, whose records run and in which no account that was there establishes the asset, changes nothing |
| `LedgerHistory.FailureChangesTotal` | include/db/connector_account.cpp:443-493 | a block that fails at an Append of the asset changes, under the same conditions and if nothing wraps, the total by the count less what the Append would have paid to accounts that were there: what it would have paid to new ones is minted |
| `LedgerNonces.NoncesNeverRepeat` | include/db/connector_account.cpp:437-547 | along every chain of accepted blocks whose nonces stay below the wrap, no two blocks use the same nonce of an account if and only if every block that uses some, and is not the last to do so, leaves a nonce that is not below any it used |
| `LedgerNonces.AdvancesExact` | include/db/connector_account.cpp:444-444 | a block does that if and only if its transactions, of which an Append sets the nonce past its own and an Establish leaves it, leave at least their number more than there was |
| `LedgerNonces.CheckedUses` | include/db/receipt.cpp:9-27 | a checked block uses, in some order, the nonces after the account's own |
| `LedgerCheck.CheckExact` | include/db/connector_account.cpp:303-408 | a body passes the check if and only if every transaction may stand where it does, every sender uses the nonces after its own, and no sender spends of an asset, modulo 2^64, more than is available to it: its balance, if it spends before it establishes, and what it establishes |
| `LedgerCheck.TxsPass` | include/db/connector_account.cpp:307-382 | the transactions pass if and only if none is of another kind, every asset established is new, an Append of a known sender pays out what it takes modulo 2^64, and one of an unknown sender comes after its Establish of the asset |
| `LedgerCheck.ReceiptsGood` | include/db/connector_account.cpp:384-408 | then the receipts are good if and only if nonces and spending are as said, for every sender and asset |
| `LedgerNonces.NonceUsedTwice` | include/db/connector_account.cpp:514-517 | two accepted blocks in a row in which a known sender establishes assets with the same nonce |
| `LedgerNonces.UndoneNonce` | include/db/connector_account.cpp:695-730 | the nonce after a block undone for its root, and that it is what it was if and only if the transactions left exactly their number more |
| `LedgerNonces.FailedNonce` | include/db/connector_account.cpp:695-730 | the nonce after a block that failed: the one the transactions before left, less their number, and one less for the sender of the Append that failed |
| `LedgerNonces.NonceShared` | include/db/connector_account.cpp:303-408 | whatever happened between them, two checked blocks both use some nonce of an account if and only if the ranges after the nonces they find overlap |
| `LedgerStep.Connector.CheckBlockBody` | include/db/connector_account.cpp:303-408 | accepts exactly if every transaction passes its check and every receipt that results is good, whatever order the receipts are checked in |
| `LedgerStep.SumOuts` | include/db/connector_account.cpp:331-335 | the loop over 64-bit words gives the sum of the outputs reduced once modulo 2^64 |
| `LedgerStep.CheckTransaction` | include/db/connector_account.cpp:307-382 | one transaction of the check, with the 64-bit sum of its outputs, is the function the supply theorems use |
| `LedgerStep.Connector.InsertBlock` | include/db/connector_account.cpp:410-596 | accepts exactly the checked blocks that extend the top, apply without exception and match the announced root, and the books are then those after the block; they are unchanged if the check or the header refuses it, and what running the records leaves if it fails while it is applied or has another root |
| `LedgerStep.ExecuteBlock` | include/db/connector_account.cpp:427-549 | applies the block and keeps exactly the records the undo theorems are about |
| `LedgerStep.RunRecords` | include/db/connector_account.cpp:678-736 | runs the records in their order until one throws |
| `LedgerStep.ExecuteTx` | include/db/connector_account.cpp:427-525 | equals the step function the theorems are about, with the payout loop; the one statement that can throw in an Append comes before the first output, so none is half paid |
| `LedgerSupply.AppendSupply` | include/db/account.cpp:34-58 | reducing one balance and adding to others moves the total by the difference, when nothing wraps |
| `Serializer.RoundTrip` | include/serializer/binarySerializer.h:121-281 | whatever precedes and follows it, the encoding of any nested value within the limits reads back as that value, and the reader stops exactly at its end |
| `Serializer.DecodesUniquely` | include/serializer/binarySerializer.h:707-731 | a stream starts with the encoding of at most one value of a type |
| `Serializer.FailedReadIsNeutral` | include/serializer/binarySerializer.h:311-362 | for every stream and every type without strings that is not itself a class, whatever it holds, a read succeeds or throws with the position where it was |
| `Serializer.FailedReadExact` | include/serializer/binarySerializer.h:707-731 | for every type and stream, a read that throws leaves the position where it was if and only if it is not the read of a class whose tag was found |
| `Serializer.TextStraysExact` | include/serializer/binarySerializer.cpp:336-374 | a string read runs past the end if and only if the length written fits what is left from the tag on and not what is left after the length |
| `Serializer.OutExact` | include/serializer/binarySerializer.h:121-281 | a writer returns if and only if every part of the value is within its limit, and has then written the encoding |
| `Serializer.RefusedNeverReads` | include/serializer/binarySerializer.h:121-281 | what a writer that throws has written cannot be read back as a value of the type |
| `Serializer.RefusedAtOnce` | include/serializer/binarySerializer.h:121-281 | a string over its limit leaves nothing behind, a container or tuple its tag |
| `Serializer.ReadIsTyped` | include/serializer/binarySerializer.h:311-570 | whatever is read is a value of the type, within every limit, sets and maps in order |
| `Serializer.ReadWasWritten` | include/serializer/binarySerializer.h:311-731 | without flags, sets and maps, a read gives the value whose encoding it has gone over: nothing but encodings can be read |
| `Serializer.InsertOrders` | include/serializer/binarySerializer.h:496-562 | inserting into a set or map that is being read keeps it in order |
| `Serializer.InsertDuplicate` | include/serializer/binarySerializer.h:496-562 | an element that is there already is dropped from a set; in a map the key that is there gets the new value |
| `Serializer.OtherTypeThrows` | include/serializer/binarySerializer.h:311-362 | what was written as one type is not read as a type with another tag: the read throws and stays |
| `Serializer.ReadNeedsTag` | include/serializer/binarySerializer.h:311-362 | away from its tag, and at the end of the stream, no value is read |
| `Serializer.TagNumbers` | include/serializer/util.h:49-72 | the tag of every type |
| `Serializer.Layout` | include/serializer/binarySerializer.cpp:105-166 | numbers and strings byte by byte, the least significant first |
| `Serializer.LayoutOfOne` | include/serializer/binarySerializer.h:121-281 | containers, tuples and classes of one flag byte by byte |
| `Serializer.FailedClassReadMoves` | include/serializer/binarySerializer.h:707-731 | a class read that fails in a field leaves the tag consumed |
| `Serializer.CutStringStrays` | include/serializer/binarySerializer.cpp:363-373 | the space check counts from the tag, so a cut string is read past the end |
| `Serializer.ScalarRoundTrip` | include/serializer/binarySerializer.cpp:105-166 | every scalar comes back from its little-endian bytes, signed ones too |
| `Serializer.BinarySerializer.Input` | include/serializer/binarySerializer.h:121-281 | appends what the writers write before they return or throw; it returns exactly for values within the limits |
| `Serializer.BinarySerializer.Output` | include/serializer/binarySerializer.h:311-362 | reads as the model says and moves or restores the position accordingly |
| `Serializer.BinarySerializer.OutputContainer` | include/serializer/binarySerializer.h:416-570 | the element loop, with the position put back on failure |
| `Serializer.BinarySerializer.OutputTuple` | include/serializer/binarySerializer.h:636-683 | the tuple reader, with its two count checks |
| `Serializer.WriteThenRead` | include/serializer/binarySerializer.cpp:105-374 | writing a value within the limits and reading it at the place it was written gives it back; others are refused |

## Left out

- Trie: the objects of `TrieHeap` are all in memory; the change log and lazy loading are modelled on values, in `TriePersist` and `TrieLazy`.
- TrieLazy.ReopenAndRun: the stores stay as they are during the further run; `TrieLazy.LazyRunsInStep` is about runs in which the log is written.
- Trie: move operations, `trie_free` and pool allocation. The child table is a field of the node, and the five walks of the code (search, find, insert, erase, search_and_mark) share one `Walk`.
- Rollback of accepted blocks (`rollback`), which runs the same records later.
- LedgerSupply.SupplyConserved: asks that no sender uses the first two gaps of the check, and that no refused block comes between; `LedgerSupply.ChainSupply` does not ask the first, `LedgerHistory.HistorySupply` neither.
- `package_next_block_body`: some of its branches do not advance, so there is no termination to claim.
- The balance of an account is a map entry; account hashing, signatures, expiry and the header beyond height, previous hash and root are parameters or absent.
- Queue: implicit producers, tokens, the thread-id hash, exceptions thrown by element constructors, allocation failure and weak memory ordering. In `BlockIndex` operations are atomic and indices do not wrap; blocks are numbers with their fields in maps, so aliasing of blocks is not modelled.
- `DequeueProtocol`: runs in which two compared counters drift half the 64-bit range apart are excluded, since the comparison is wrong there.
- Semaphore: wrap-around of the 64-bit count; the kernel semaphore is a counter whose waits may give up at any time.
- Merkle tree: the list form of the root is line for line the queue form and has no method of its own.
- TimerWheel.RunsOnTime: the clock is ideal; where the 32-bit tick wraps, the time to sleep until drops to the start of the timer and the code goes on without sleeping (include/timer/timer_wheel.cpp:280).
- Timer: when levels three to five run their own tasks; their placement reuses the mask of level two (include/timer/timer_wheel.cpp:67, 78, 88); repeating tasks; clock drift; tasks set during an iteration.
- Thread pool: a second caller of `close`, lazy initialisation, and the same task committed twice.
- Serializer: floating point, raw byte arrays, `std::array`, unordered maps, big-endian hosts, and strings of 2^32 characters or more. `std::set` and `std::map` are sequences in ascending order of a parameter.
- Networking, RPC, routing, configuration, logging, LevelDB itself (a map from key to record here) and all cryptography.
