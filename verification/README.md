# Redis 3.0.7: verified models

This project models the parts of Redis 3.0.7 whose correctness rests on more than one function, and
proves what the source, its comments and its tests promise about them. `dafny verify dfyconfig.toml`
checks everything. Nothing here executes the original program.

| modules | part of Redis |
|---|---|
| `DictTable`, `Dictionary` | the incremental hash table: two tables while buckets migrate |
| `ReverseBits`, `ScanCursor`, `DictScan`, `ScanRuns`, `ScanExact`, `ScanFixed` | SCAN: the reverse-binary cursor over resizing tables |
| `DictIterator`, `IterationRuns` | safe iterators while the dictionary changes |
| `ClusterEpochs`, `ClusterProtocol` | Redis Cluster epochs, votes and failover elections |
| `ClusterReach`, `ClusterFailover`, `ClusterEarlyAck` | runs of elections: the ordinary failover, and two winners |
| `ClusterCollision` | configEpoch collisions |
| `ClusterSlots`, `ClusterSlotRuns`, `ClusterSlotCrashes` | slot ownership, its bitmaps, handshakes and roles; runs of a node; when the code aborts |
| `HllDense`, `HllSparse`, `HyperLogLog`, `HllMerge` | HyperLogLog in both encodings, PFADD, PFMERGE |
| `AofFormat`, `AofRoundTrip`, `AofDamage` | the append only file as text: printer, loader, cut and damaged files |
| `AofReplay`, `AofRewrite` | what a log does to a data set; the snapshot of a rewrite |
| `AofDiff`, `AofProtocol` | the background rewrite: blocks, pipes, handshake, final file |
| `IntsetBytes`, `Intset` | sorted integer sets with in-place widening |
| `Popcount`, `Bitpos`, `Bitop` | word-parallel bit operations |
| `Lzf` | LZF decompression |
| `SlotIndex`, `Keyspace` | databases, expire times and the slot-to-keys index |
| `Basics`, `Buffers`, `Words` | options, byte buffers, machine words as numbers |

Conventions. A machine word of w bits is a number below 2^w with bitwise operators defined on its
bits, and wrap-around is written out. Time, randomness, sockets, system calls that may fail and
partial reads and writes are parameters. Objects that the source updates in place are classes; every
method keeps `Valid()`, so an invariant holds in every state that any sequence of calls reaches.
Message passing systems are transition systems over values, and their results are about every state
of every run.

Results that go against the documentation or the naive expectation:

- SCAN is complete whatever happens between calls, provided that every bucket of the larger table
  which a call made during a rehash passes without reaching it has already been emptied by the
  rehash. The condition concerns only the table sizes, rehashidx and the cursor. `CursorFitsExactly`
  shows that it is exact: where it fails, a dictionary of that very shape loses a key in that call.
  A cursor whose bits between the two masks are a run of ones, in particular one with no bit there,
  always meets it, and so does growth; `ShrinkingScanLosesKey` is a full scan over a shrinking table
  that never returns a key which is present throughout.
- At most one node wins an election for an epoch if no vote is counted between the reset of the tally
  and the start of the next election. The tally is not reset when the epoch is assigned, and votes
  counted in that gap make up for missing ones. `VotesDecideExactly`: two wins of one epoch are
  bound to be by the same node if and only if their real votes together exceed the number of voters;
  `EarlyAckBreaksSafety` gives the run for every set of voters, of which a minority may be down.
- CLUSTER ADDSLOTS does not look at roles, so a slave can own slots. When its master then loses all of
  its slots to another node, `clusterSetMaster` asserts that this node has none
  (redis-3.0.7/src/cluster.c:3597), and the server aborts: `SlaveOwnsSlotsRun`. CLUSTER REPLICATE on
  such a slave aborts as well. `FailsAssertionExactly` says in exactly which tables some claim does it.
- A slave that does not know its master makes `clusterUpdateSlotsConfigWith` compare the owners of
  slots with a NULL `curmaster`: an unassigned slot that is claimed counts as taken from the master,
  and the code then dereferences the NULL pointer (redis-3.0.7/src/cluster.c:1505).
  `UsesNullExactly` says in exactly which tables some claim does it, and `MissingMasterRun` gets there
  with CLUSTER MEET, CLUSTER REPLICATE of the node in handshake, the timeout of that handshake and a
  PING. A slave loses its master in exactly three ways: the master is a node in handshake that times
  out, or one that turns out to be known under another name, or the node is a master that hears its
  own earlier packet as a slave of a node it does not know. `Run` shows that both crashes have these
  causes only.
- Deleting the entry that a safe iterator has saved as next leaves it with a dangling pointer, although
  the header (redis-3.0.7/src/dict.h:92-93) allows other functions to be called; `UnlinkKeepsPlaceExactly` says that no other
  deletion does. `CarefulIteration` is for callers that delete only what was returned.
- A node bumps its configEpoch through collisions at most once per node with a larger name.
- A log loads back exactly when no command in it is without arguments: `LoadStopsAtEmpty` says what
  happens otherwise.

## Model

| member | source | states |
|---|---|---|
| `ReverseBits.Rev` | redis-3.0.7/src/dict.c:818-826 | the swap loop returns the bits of any word whose width is a power of two in opposite order |
| `Words.BitRevInvolution` | redis-3.0.7/src/dict.c:818-826 | reversing twice gives the word back |
| `Dictionary.NextPower` | redis-3.0.7/src/dict.c:1014-1024 | the least power of two that is at least the initial size and at least the request |
| `Dictionary.Dict.Expand` | redis-3.0.7/src/dict.c:220-253 | succeeds exactly when no rehash runs, the elements fit and the next power of two differs from the table size; then a fresh table of that size becomes the table or the rehash target; the represented map never changes |
| `Dictionary.Dict.Resize` | redis-3.0.7/src/dict.c:207-216 | goes to the least table that holds the elements, exactly when resizing is enabled, no rehash runs and the size differs; the map never changes |
| `Dictionary.Dict.Rehash` | redis-3.0.7/src/dict.c:265-314 | keeps the map, every key in the bucket of its masked hash in exactly one table and the buckets below rehashidx empty; a call of n steps moves exactly n chains, or fewer after passing 10n empty buckets or when none is left |
| `Dictionary.RemainingBucket` | redis-3.0.7/src/dict.c:269-280 | while entries remain in the first table, a filled bucket lies at or after rehashidx, so the bound assertion cannot fail |
| `Dictionary.MoveBucketKeeps` | redis-3.0.7/src/dict.c:282-299 | moving one bucket between the tables keeps the represented map, the use counters and the shape |
| `Dictionary.FinishKeeps` | redis-3.0.7/src/dict.c:302-310 | replacing the emptied table by the second keeps the represented map |
| `Dictionary.InstallKeeps` | redis-3.0.7/src/dict.c:234-252 | starting a rehash keeps the represented map |
| `Dictionary.LinkKeeps` | redis-3.0.7/src/dict.c:392-402 | linking a new entry in the active table adds exactly its key to the map |
| `Dictionary.UnlinkKeeps` | redis-3.0.7/src/dict.c:461-475 | unlinking an entry of either table removes exactly its key from the map |
| `Dictionary.Dict.RehashStep` | redis-3.0.7/src/dict.c:347-349 | keeps the map, and changes nothing while a safe iterator is open; otherwise moves one chain or passes ten empty buckets |
| `Dictionary.Dict.ExpandIfNeeded` | redis-3.0.7/src/dict.c:990-1011 | never fails; a first table, or a target of twice the elements, is installed exactly when there is no table or the load calls for it, a load above five even with resizing disabled; the map never changes |
| `Dictionary.Dict.KeyIndex` | redis-3.0.7/src/dict.c:1034-1056 | -1 exactly for present keys, otherwise the bucket of the active table |
| `Dictionary.Dict.Add` | redis-3.0.7/src/dict.c:353-403 | succeeds exactly for absent keys and then extends the map by that key; otherwise the map is unchanged |
| `Dictionary.Dict.Search` | redis-3.0.7/src/dict.c:539-551 | finds an entry in one of the two tables exactly when the key is in the map, with its value |
| `Dictionary.Dict.Find` | redis-3.0.7/src/dict.c:532-552 | agrees with map lookup, also while rehashing |
| `Dictionary.Dict.Replace` | redis-3.0.7/src/dict.c:410-429 | the map is updated at the key whether or not it existed; reports whether it was added |
| `Dictionary.Dict.Delete` | redis-3.0.7/src/dict.c:446-482 | removes exactly the key from the map; reports whether it existed |
| `ScanCursor.AdvanceMeaning` | redis-3.0.7/src/dict.c:974-983 | the next cursor is the successor in reversed order under the mask; 0 exactly at the end; no bit above the mask |
| `ScanCursor.ExpandStepMeaning` | redis-3.0.7/src/dict.c:967-971 | the inner loop keeps the low bits and increments the bits between the masks cyclically |
| `ScanCursor.SingleTableCoverage` | redis-3.0.7/src/dict.c:925-934 | one call on one table passes exactly the hashes of its bucket |
| `ScanCursor.TwoTableCoverage` | redis-3.0.7/src/dict.c:936-983 | one call on two tables passes only hashes it visits or passed before, if and only if the cursor bits between the masks are a run of ones |
| `DictScan.Scan` | redis-3.0.7/src/dict.c:914-984 | emits exactly the entries of the visited buckets of both tables, no key twice, and returns the advanced cursor |
| `ScanRuns.ScanComplete` | redis-3.0.7/src/dict.c:837-984 | in every scan from 0 back to 0, interleaved with arbitrary changes, every key present at each call is emitted, if at each call the buckets passed unreached are emptied ones |
| `ScanRuns.FittingVisits` | redis-3.0.7/src/dict.c:944-971 | under the guard a call visits every present key that it moves the position past |
| `ScanRuns.RunOfOnesFits` | redis-3.0.7/src/dict.c:957-971 | cursor bits between the masks that are a run of ones meet the guard, however far the rehash is |
| `ScanExact.CursorFitsExactly` | redis-3.0.7/src/dict.c:944-980 | for all table sizes, rehashidx and cursors: no dictionary of that shape loses a passed key in the call if and only if the guard of completeness holds |
| `ScanExact.EmptiedBucketsFit` | redis-3.0.7/src/dict.c:959-971 | for a table of 16 that shrinks to 4, cursor 8 is harmless exactly once the rehash has passed bucket 4 |
| `ScanCursor.PassedUnreached` | redis-3.0.7/src/dict.c:944-983 | exactly which hashes a call passes for the first time without reaching them |
| `ScanRuns.ScanCompleteWhenGrowing` | redis-3.0.7/src/dict.c:837-984 | completeness without condition when the smaller mask never shrinks between calls |
| `ScanRuns.ShrinkingScanLosesKey` | redis-3.0.7/src/dict.c:959-971 | a full scan across the start of a rehash from 16 to 4 buckets that never returns a present key |
| `ScanFixed.FixedScanExactlyOnce` | redis-3.0.7/src/dict.c:914-984 | on a table of fixed size a scan takes exactly one call per bucket and visits each bucket once, at the position of its reversed number |
| `ScanFixed.FixedScanIs` | redis-3.0.7/src/dict.c:974-983 | a scan of 2^k unchanging buckets returns to 0 after 2^k calls, and its cursors are the bucket numbers in bit-reversed order |
| `ScanFixed.StillScanExactlyOnce` | redis-3.0.7/src/dict.c:914-984 | scanning a dictionary that does not change emits every element exactly once |
| `DictIterator.SafeIterator.Next` | redis-3.0.7/src/dict.c:627-664 | returns one of the remaining entries and strikes off exactly that one; None only when nothing remains; the saved next entry is not the returned one; the first call blocks rehash steps |
| `DictIterator.InstallKeepsRemaining` | redis-3.0.7/src/dict.c:627-664 | a rehash started by an add does not change what an open iterator still returns |
| `DictIterator.LinkKeepsRemaining` | redis-3.0.7/src/dict.c:627-664 | adding a key does not change which other keys remain |
| `DictIterator.UnlinkKeepsRemaining` | redis-3.0.7/src/dict.c:654-661 | deleting any key but the saved next one does not change which other keys remain |
| `DictIterator.UnlinkKeepsPlaceExactly` | redis-3.0.7/src/dict.c:654-661 | a deletion leaves the saved pointer valid exactly when it is not of the saved entry |
| `DictIterator.SetValKeepsRemaining` | redis-3.0.7/src/dict.c:627-664 | overwriting a value does not change what remains |
| `IterationRuns.ReturnedExactlyOnce` | redis-3.0.7/src/dict.c:606-675 | over any interleaving of next calls with adds, overwritten values and deletions that spare the saved next entry, an entry present throughout is returned exactly once |
| `IterationRuns.ReturnedMayBeDeleted` | redis-3.0.7/src/dict.c:654-661 | a caller that deletes only entries already returned never deletes the saved next one |
| `IterationRuns.CarefulIteration` | redis-3.0.7/src/dict.c:606-675 | for such a caller, an entry present throughout is returned exactly once |
| `ClusterEpochs.Cluster.ProcessHeader` | redis-3.0.7/src/cluster.c:1593-1606 | keeps domination (currentEpoch is at least every known configEpoch, vote and election epoch); both epochs become the maximum of the known and the received one for a known sender; nothing else changes |
| `ClusterEpochs.Cluster.HandleConfigEpochCollision` | redis-3.0.7/src/cluster.c:1034-1049 | keeps domination; no collision remains that this node, having the smaller name, has to resolve; a new epoch exceeds all known ones and is taken only for a collision |
| `ClusterEpochs.Cluster.ProcessPing` | redis-3.0.7/src/cluster.c:1863-1870 | keeps domination and growth; exactly when a collision makes this node take a new epoch; an up-to-date ping of a master with a larger name leaves no collision with it |
| `ClusterEpochs.Cluster.SendFailoverAuthIfNeeded` | redis-3.0.7/src/cluster.c:2457-2557 | a vote is granted exactly to a known sender whose request is not older than this node's epoch and newer than its last vote, if no known owner of a claimed slot has a greater configEpoch than the request; a vote is for a later epoch than any before; a refusal leaves the record |
| `ClusterEpochs.Cluster.ProcessAuthAck` | redis-3.0.7/src/cluster.c:1919-1931 | the tally rises, by one, exactly for an ACK of a voter that is not of an epoch before the election; domination and all other election fields are kept |
| `ClusterEpochs.Cluster.ProcessUpdate` | redis-3.0.7/src/cluster.c:1944-1965 | keeps domination and growth; the subject's configEpoch becomes the maximum of the known and the reported one; only sender and subject can change |
| `ClusterEpochs.Cluster.HandleSlaveFailover` | redis-3.0.7/src/cluster.c:2695-2856 | an election is held in the next epoch, above every one known, voted in or asked for; exactly a counted majority wins, and a winner takes the epoch that it won unless its own is greater; the tally is reset only by a retry |
| `ClusterEpochs.Cluster.GetMaxEpoch` | redis-3.0.7/src/cluster.c:925-938 | the greatest of currentEpoch and all known configEpochs |
| `ClusterEpochs.Cluster.BumpConfigEpochWithoutConsensus` | redis-3.0.7/src/cluster.c:969-986 | afterwards no known configEpoch exceeds this node's own; a new one exceeds all known before; domination is kept |
| `ClusterEpochs.Cluster.SetEpoch` | redis-3.0.7/src/cluster.c:4275-4310 | only a node that knows no other and has no epoch takes one; domination and growth are kept |
| `ClusterProtocol.EpochDomination` | redis-3.0.7/src/cluster.c:1593-1606 | in every reachable state every currentEpoch is at least every known configEpoch, and every message's at least those it carries |
| `ClusterProtocol.NewElectionEpochIsNewest` | redis-3.0.7/src/cluster.c:2827-2831 | a new election epoch exceeds every configEpoch the candidate knows |
| `ClusterProtocol.ElectionInvariant` | redis-3.0.7/src/cluster.c:2457-2557 | in every run each voter votes at most once per epoch, each ACK stands for a vote, and tallies count distinct votes for the epoch asked for, plus the votes counted early |
| `ClusterProtocol.WinsAreUnique` | redis-3.0.7/src/cluster.c:2840-2856 | two wins of one epoch whose real votes together exceed the number of voters are by the same node, however many votes were counted early |
| `ClusterProtocol.ElectionSafety` | redis-3.0.7/src/cluster.c:2826-2856 | if no vote is counted before its election starts, at most one node reaches the quorum branch per epoch, in every run |
| `ClusterProtocol.WinnersDiffer` | redis-3.0.7/src/cluster.c:2840-2856 | as long as configEpochs come from elections only, no two nodes hold the same one |
| `ClusterFailover.FailoverSucceeds` | redis-3.0.7/src/cluster.c:2457-2557 | for every set of voters with a majority alive and every configEpoch of the failed master, a run without early votes in which a slave that claims its master's slots gets all live votes, wins and takes the new epoch |
| `ClusterEarlyAck.EarlyAckBreaksSafety` | redis-3.0.7/src/cluster.c:2768-2856 | for every set of voters with a majority alive, and all numbers of votes that two candidates can share, a run with two winners of one epoch |
| `ClusterEarlyAck.VotesDecideExactly` | redis-3.0.7/src/cluster.c:2768-2856 | wins of one epoch with given numbers of real votes are always by the same node if and only if those votes together exceed the number of voters |
| `ClusterCollision.HistoryInvariant` | redis-3.0.7/src/cluster.c:1034-1049 | in every run an epoch that a node gave up was held by a node with a larger name |
| `ClusterCollision.BumpsAreBounded` | redis-3.0.7/src/cluster.c:1034-1049 | in every run, with stale and repeated messages, a node bumps at most once per node with a larger name |
| `ClusterCollision.SettledExactlyWhenDistinct` | redis-3.0.7/src/cluster.c:1863-1870 | when all know each other, no current ping causes a bump if and only if all configEpochs differ |
| `ClusterSlots.SetBitMeaning` | redis-3.0.7/src/cluster.c:3337-3341 | setting a bit sets that position and no other |
| `ClusterSlots.ClearBitMeaning` | redis-3.0.7/src/cluster.c:3344-3348 | clearing a bit clears that position and no other |
| `ClusterSlots.TestBitDigit` | redis-3.0.7/src/cluster.c:3330-3334 | slot j is binary digit j mod 8 of byte j div 8 |
| `ClusterSlots.SlotTable.constructor` | redis-3.0.7/src/cluster.c:398-436 | the initial table meets the invariant: owners, bitmaps and counters agree, masters and imports are known nodes, and this node is a master or a slave |
| `ClusterSlots.SlotTable.AddNode` | redis-3.0.7/src/cluster.c:843-849 | a new node owns nothing; a known name is refused; the invariant is kept |
| `ClusterSlots.SlotTable.DelNode` | redis-3.0.7/src/cluster.c:862-889 | unbinds exactly the slots of the node and the imports from it, makes its slaves masterless, and keeps everything else; this node loses its master exactly when it is the deleted one |
| `ClusterSlots.SlotTable.HandshakeTimeout` | redis-3.0.7/src/cluster.c:3079-3086 | deletes exactly nodes in handshake; a slave loses its master exactly when it is the deleted one |
| `ClusterSlots.SlotTable.CompleteHandshake` | redis-3.0.7/src/cluster.c:906-917 | a node in handshake gets its name, and all references to it follow; the invariant is kept |
| `ClusterSlots.SlotTable.EndHandshake` | redis-3.0.7/src/cluster.c:1686-1711 | the answer on the link of a node in handshake names it, or deletes it when the name is known; exactly when that takes a slave's master away |
| `ClusterSlots.SlotTable.Forget` | redis-3.0.7/src/cluster.c:4130-4148 | refuses unknown nodes, the node itself and its own master, so a slave keeps knowing its master |
| `ClusterSlots.SlotTable.Replicate` | redis-3.0.7/src/cluster.c:4149-4185 | exactly when the command is accepted, and exactly when it ends in the assertion on the slots of a slave |
| `ClusterSlots.SlotTable.ChangeSlots` | redis-3.0.7/src/cluster.c:3879-3923 | ADDSLOTS and DELSLOTS accept exactly lists without repetition of slots that are all free or all assigned, change exactly those, and their own assertion holds |
| `ClusterSlots.SlotTable.SetSlotNode` | redis-3.0.7/src/cluster.c:3937-4018 | on masters only, the slot goes to the named node, whatever its role, unless this node would lose keys |
| `ClusterSlots.SlotTable.SetSlotImporting` | redis-3.0.7/src/cluster.c:3937-3966 | on masters only, a slot of another owner is imported from a known node |
| `ClusterSlots.SlotTable.SetSlotStable` | redis-3.0.7/src/cluster.c:3937-3970 | on masters only, the import of the slot ends |
| `ClusterSlots.SlotTable.SwitchRole` | redis-3.0.7/src/cluster.c:1757-1791 | a master that became a slave loses exactly its slots, a slave keeps those it has; exactly when this node loses its master |
| `ClusterSlots.SlotTable.ReceivePing` | redis-3.0.7/src/cluster.c:1593-1817 | the whole effect of a packet on nodes, owners and imports: a master's claim, also that of a slave just promoted, a demotion, the end of a handshake; unless it ends a handshake or demotes a master, every assigned slot stays assigned, to the same owner or to one with a strictly greater configEpoch; exactly when this node loses its master |
| `ClusterSlots.SlotTable.ReceiveUpdate` | redis-3.0.7/src/cluster.c:1944-1965 | news about a known node makes it a master with the reported epoch and applies its claims, anything else changes only the sender's epoch; every assigned slot stays assigned, to the same owner or to one with a strictly greater configEpoch; no slave loses its master |
| `ClusterSlots.SlotTable.AddSlot` | redis-3.0.7/src/cluster.c:3375-3380 | binds an unassigned slot, keeping owners, bitmaps and counters in agreement |
| `ClusterSlots.SlotTable.DelSlot` | redis-3.0.7/src/cluster.c:3385-3393 | unbinds a slot, keeping the agreement |
| `ClusterSlots.SlotTable.DelNodeSlots` | redis-3.0.7/src/cluster.c:3396-3404 | unbinds exactly the slots of one node; the result is the number of all slots |
| `ClusterSlots.SlotTable.UpdateSlotsConfigWith` | redis-3.0.7/src/cluster.c:1436-1524 | takes exactly the claimed slots whose owner has a smaller epoch and that are not being imported; exactly when this node follows the sender, which slots become dirty, exactly when the NULL master is used and exactly when the assertion on the slots of a slave fails |
| `ClusterSlots.SlotTable.SetMaster` | redis-3.0.7/src/cluster.c:3595-3611 | this node, owning no slot, becomes a slave of another |
| `ClusterSlots.SlotTable.SetNodeAsMaster` | redis-3.0.7/src/cluster.c:1409-1423 | a node becomes a master and keeps its slots |
| `ClusterSlots.SlotTable.FailoverReplaceYourMaster` | redis-3.0.7/src/cluster.c:2657-2673 | promotion moves exactly the old master's slots and keeps those the slave had |
| `ClusterSlotRuns.Handle` | redis-3.0.7/src/cluster.c:1593-1965 | for every message, command and timeout its whole effect on the table; a slave loses its master, and comes to own a slot, exactly through the events named; until then the code does not crash |
| `ClusterSlotRuns.Run` | redis-3.0.7/src/cluster.c:1593-1965 | over any sequence of events, a NULL master is used only after an event that took the master away, the assertion fails only after ADDSLOTS on a slave, and as long as nothing releases slots every assigned slot stays assigned under a configEpoch that never drops and grows strictly with a new owner |
| `ClusterSlotCrashes.UsesNullExactly` | redis-3.0.7/src/cluster.c:1452-1505 | some claim of another node uses the NULL master if and only if the slave knows no master and some slot is neither assigned nor imported |
| `ClusterSlotCrashes.FailsAssertionExactly` | redis-3.0.7/src/cluster.c:1505-1509 | some claim of a node fails the assertion of clusterSetMaster if and only if the slave owns a slot and its master, a third node, owns slots none of which is being imported |
| `ClusterSlotCrashes.MissingMasterRun` | redis-3.0.7/src/cluster.c:3079-3086 | from the initial table through MEET, REPLICATE, a handshake timeout and a PING to the use of a NULL master |
| `ClusterSlotCrashes.SlaveOwnsSlotsRun` | redis-3.0.7/src/cluster.c:3595-3597 | from the initial table through MEET, SETSLOT, REPLICATE, ADDSLOTS and a PING to the failing assertion |
| `ClusterSlots.NoSlots` | redis-3.0.7/src/cluster.c:3351-3370 | the counter is zero exactly when the node owns no slot |
| `HllDense.GetAfterSet` | redis-3.0.7/src/hyperloglog.c:337-358 | setting one packed six-bit register changes it and no other, across byte boundaries |
| `HllDense.SetRegisterMeaning` | redis-3.0.7/src/hyperloglog.c:349-358 | the packed bytes stand for the registers updated at one place |
| `HyperLogLog.PatLen` | redis-3.0.7/src/hyperloglog.c:444-470 | the index is the hash modulo 16384; the count is one more than the number of zero bits from bit 14 up to the first set bit, or 50 |
| `HllSparse.ParsesAppend` | redis-3.0.7/src/hyperloglog.c:360-386 | opcode strings concatenate like the registers they stand for |
| `HllSparse.SplitMeaning` | redis-3.0.7/src/hyperloglog.c:764-808 | the written opcode sequence stands for the old run with one register replaced |
| `HllSparse.MergeOps` | redis-3.0.7/src/hyperloglog.c:841-859 | joining two adjacent VAL opcodes keeps the registers |
| `HyperLogLog.Hll.SparseToDense` | redis-3.0.7/src/hyperloglog.c:568-620 | the dense registers equal the sparse ones; fails exactly when the runs do not add up to 16384 |
| `HyperLogLog.Hll.DenseAdd` | redis-3.0.7/src/hyperloglog.c:485-498 | takes the maximum of one register; 1 exactly when it changed |
| `HyperLogLog.Hll.Promote` | redis-3.0.7/src/hyperloglog.c:868-882 | promotion keeps all registers but the updated one, and the assertion after it holds |
| `HyperLogLog.Hll.SparseAdd` | redis-3.0.7/src/hyperloglog.c:638-882 | on every well-formed string: the registers with one entry replaced by the maximum, 1 exactly when it changed, still well formed; promoted exactly when the value exceeds 32 or the string would outgrow the limit; mergeable neighbours are merged within five opcodes |
| `HyperLogLog.Hll.MergeFrom` | redis-3.0.7/src/hyperloglog.c:825-862 | keeps the registers; each of five opcodes is merged with its right neighbour or cannot be |
| `HllSparse.Opcodes` | redis-3.0.7/src/hyperloglog.c:363-386 | the bytes of the shortest and longest run of each opcode |
| `HllSparse.SplitSize` | redis-3.0.7/src/hyperloglog.c:764-816 | by how many bytes setting a register makes the string grow |
| `HyperLogLog.Hll.AddElement` | redis-3.0.7/src/hyperloglog.c:1027-1034 | the same update in either encoding; reports exactly whether a register changed |
| `HyperLogLog.Hll.MergeInto` | redis-3.0.7/src/hyperloglog.c:1044-1083 | raises an array to the register-wise maximum in either encoding; fails exactly for runs that do not cover the registers |
| `HllMerge.MergeIsHomomorphism` | redis-3.0.7/src/hyperloglog.c:1285-1335 | spreading elements over several objects and merging equals adding all to one, for any order and repetition |
| `HllMerge.PfAdd` | redis-3.0.7/src/hyperloglog.c:1171-1191 | the element loop adds all elements; the update count is positive exactly when a register changed |
| `HllMerge.PfMerge` | redis-3.0.7/src/hyperloglog.c:1285-1335 | the destination becomes the dense maximum of all sources and itself; nothing changes when a source is refused |
| `AofFormat.CatCommand` | redis-3.0.7/src/aof.c:435-458 | appends the text of the command |
| `AofFormat.LoadAppendOnlyFile` | redis-3.0.7/src/aof.c:599-748 | on every byte string: the executed commands, the length the file is left with, the zero-length error and the fatal exits |
| `AofFormat.StrToLDecimal` | redis-3.0.7/src/util.c:268-320 | printed numbers read back |
| `AofDamage.NegativeNumber` | redis-3.0.7/src/aof.c:661-661 | a sign before the digits |
| `AofDamage.SpacesAndSigns` | redis-3.0.7/src/aof.c:661-661 | leading spaces, and what follows the digits |
| `AofDamage.ThirtyTwoBits` | redis-3.0.7/src/aof.c:647-647 | the number of arguments is cut down to 32 bits |
| `AofRoundTrip.CommandReadBack` | redis-3.0.7/src/aof.c:639-675 | a printed command is read back exactly, whatever follows and whatever bytes its arguments hold; one without arguments is a format error |
| `AofRoundTrip.CommandCut` | redis-3.0.7/src/aof.c:639-675 | a command cut after any byte is an unexpected end of file, never another command or a format error |
| `AofRoundTrip.LoadRoundTrip` | redis-3.0.7/src/aof.c:599-748 | loading the printed commands gives exactly them if and only if none is without arguments |
| `AofRoundTrip.LoadStopsAtEmpty` | redis-3.0.7/src/aof.c:647-648 | a command without arguments stops loading after those before it |
| `AofRoundTrip.TruncatedLoad` | redis-3.0.7/src/aof.c:695-741 | for every cut, loading with aof-load-truncated executes exactly the complete commands and cuts the file at their end; without it only a cut between commands loads |
| `AofRoundTrip.CompleteExists` | redis-3.0.7/src/aof.c:717-722 | every cut leaves a determined number of complete commands |
| `AofDamage.JunkIsFatal` | redis-3.0.7/src/aof.c:645-745 | after any commands, something that does not start with '*' makes loading exit with a format error under either setting of aof-load-truncated |
| `AofDamage.JunkArgumentIsFatal` | redis-3.0.7/src/aof.c:660-745 | so does an argument that does not start with '$', after any arguments |
| `AofDamage.TruncationHeals` | redis-3.0.7/src/aof.c:711-741 | whatever bytes a file holds: if it loads and is cut back, only something that starts with '*' is cut off, and the rest loads with the same commands under either setting |
| `AofDamage.SmallBytes` | redis-3.0.7/src/aof.c:435-458 | lines and arguments byte by byte |
| `AofDamage.SetBytes` | redis-3.0.7/src/aof.c:435-458 | SET k v byte by byte |
| `AofDamage.Names` | redis-3.0.7/src/aof.c:770-997 | the names of the commands that a snapshot uses |
| `AofReplay.ExecAddCommand` | redis-3.0.7/src/aof.c:1017-1020 | a variadic command adds its items one by one |
| `AofRewrite.WriteItems` | redis-3.0.7/src/aof.c:770-997 | the chunk loop writes exactly the commands of the chunks, the declared counts matching what follows |
| `AofRewrite.ChunkSizes` | redis-3.0.7/src/aof.c:1014-1020 | every command carries one to K whole items |
| `AofRewrite.FullChunks` | redis-3.0.7/src/aof.c:1014-1020 | every command but the last carries exactly K items |
| `AofRewrite.RowOrder` | redis-3.0.7/src/aof.c:770-997 | the arguments of one item of each type in order |
| `AofRewrite.ReplayChunks` | redis-3.0.7/src/aof.c:770-997 | for every chunk size, replaying the commands adds all items in order |
| `AofRewrite.ItemsMeaning` | redis-3.0.7/src/aof.c:770-997 | adding all items to an empty key rebuilds the list, set, sorted set or hash |
| `AofRewrite.WriteSnapshot` | redis-3.0.7/src/aof.c:1045-1109 | writes the text of the snapshot of all databases that hold keys |
| `AofRewrite.SnapshotRebuilds` | redis-3.0.7/src/aof.c:1014-1109 | replaying the snapshot on an empty server rebuilds the data set, whatever the chunk size and the order of the dictionaries |
| `AofDiff.DiffReplay` | redis-3.0.7/src/aof.c:497-545 | replaying what was fed since the fork does to any reader's data what the parent did, whatever database the reader had selected |
| `AofDiff.DiffStartsWithSelect` | redis-3.0.7/src/aof.c:1312-1316 | the diff starts with SELECT |
| `AofProtocol.Server.StartRewrite` | redis-3.0.7/src/aof.c:1269-1321 | a rewrite starts with empty pipes, no command fed and no database selected, exactly when none runs and the calls succeed |
| `AofProtocol.Server.StartAppendOnly` | redis-3.0.7/src/aof.c:235-251 | switching the AOF on starts a rewrite and waits for it, or changes nothing |
| `AofProtocol.Server.StopAppendOnly` | redis-3.0.7/src/aof.c:206-231 | switching the AOF off gives up a running rewrite |
| `AofProtocol.Server.Flush` | redis-3.0.7/src/aof.c:273-412 | bytes move from the buffer to the file in order |
| `AofProtocol.Server.BufferAppend` | redis-3.0.7/src/aof.c:123-168 | the bytes held by the blocks grow by exactly the data, also after blocks were partly sent |
| `AofProtocol.Server.Feed` | redis-3.0.7/src/aof.c:497-545 | a command is executed and logged, with SELECT when needed, in the AOF buffer and in the rewrite buffer; file and buffer still replay to the data set, and conservation is kept |
| `AofProtocol.Server.SendDiff` | redis-3.0.7/src/aof.c:94-120 | for any sizes that the pipe accepts, bytes move from the blocks to the pipe in order, at least one if the first write takes some, and all if the pipe takes whole blocks; nothing moves after the stop request |
| `AofProtocol.Server.OnChildRequest` | redis-3.0.7/src/aof.c:1186-1207 | the parent stops sending on '!' and answers |
| `AofProtocol.Server.ChildRead` | redis-3.0.7/src/aof.c:1002-1012 | bytes move from the pipe to the child's diff in order |
| `AofProtocol.Server.ChildAsk` | redis-3.0.7/src/aof.c:1135-1136 | the child's request goes to the parent |
| `AofProtocol.Server.ChildAwait` | redis-3.0.7/src/aof.c:1135-1143 | the child goes on only with the parent's answer |
| `AofProtocol.Server.ChildFinish` | redis-3.0.7/src/aof.c:1146-1159 | the child's file is the snapshot followed by its diff, with nothing left in the pipe |
| `AofProtocol.Server.RewriteDone` | redis-3.0.7/src/aof.c:1364-1505 | success exactly when the child, the open, every write of a filled block and the rename succeed; then the file is the snapshot followed by everything fed since the fork and the buffer is empty; otherwise file and buffer stay; either way they replay to the data set |
| `AofProtocol.Server.BufferWrite` | redis-3.0.7/src/aof.c:172-192 | the blocks are written in order, failing exactly when a write of a filled block fails |
| `AofProtocol.Server.Recovers` | redis-3.0.7/src/aof.c:1364-1505 | in every state that calls can reach with the AOF on, loading the file and the buffer gives back the logged commands, and replaying them on an empty server gives the data set |
| `AofProtocol.NewFileReplays` | redis-3.0.7/src/aof.c:1021-1169 | loading and replaying that file on an empty server gives the parent's current data set |
| `IntsetBytes.DecodeEncode` | redis-3.0.7/src/intset.c:57-98 | values read back from their bytes in every encoding that fits |
| `IntsetBytes.EncodingBytes` | redis-3.0.7/src/intset.c:57-98 | the bytes of a value, lowest first, the highest bit being the sign |
| `IntsetBytes.GetSetOther` | redis-3.0.7/src/intset.c:57-98 | writing a value leaves all values in other bytes alone, across encodings |
| `Intset.Set64.Search` | redis-3.0.7/src/intset.c:123-165 | membership, and the position of the value or where it belongs |
| `Intset.Set64.Widen` | redis-3.0.7/src/intset.c:181-187 | the back-to-front loop converts every value in place and overwrites none before it is read |
| `Intset.Set64.UpgradeAndAdd` | redis-3.0.7/src/intset.c:171-197 | all values kept in the wider encoding, the new one at the end where it belongs |
| `Intset.Set64.Add` | redis-3.0.7/src/intset.c:222-251 | set insertion for every int64; sorted, no duplicates, in an encoding that fits every member |
| `Intset.Set64.Remove` | redis-3.0.7/src/intset.c:255-274 | set removal |
| `Intset.Set64.Find` | redis-3.0.7/src/intset.c:278-281 | set membership |
| `Intset.SortedSize` | redis-3.0.7/src/intset.c:302-304 | the length is the number of members |
| `Popcount.WordCountsMeaning` | redis-3.0.7/src/bitops.c:94-114 | the parallel steps leave in each byte of a word the number of its one bits |
| `Popcount.TopByte` | redis-3.0.7/src/bitops.c:108-114 | seven words sum to at most 224, so the multiplication adds the bytes without overflow |
| `Popcount.Popcount` | redis-3.0.7/src/bitops.c:64-120 | the number of one bits of every string at every alignment |
| `Popcount.OnesInIsCount` | redis-3.0.7/src/bitops.c:60-62 | that number is the number of set bit positions |
| `Popcount.StringBitDigit` | redis-3.0.7/src/bitops.c:285-287 | position 0 is the digit 128 of the first byte |
| `Bitpos.Bitpos` | redis-3.0.7/src/bitops.c:130-212 | the first position with the given bit, zero padded on the right; -1 exactly when a one is sought and there is none |
| `Bitpos.ScanWord` | redis-3.0.7/src/bitops.c:194-211 | the panic after the bit scan is unreachable |
| `Bitop.CombineWords` | redis-3.0.7/src/bitops.c:384-434 | a word operation is the byte operation on its bytes |
| `Bitop.Compute` | redis-3.0.7/src/bitops.c:359-451 | fast and slow path together give the operation on zero-extended operands, with the length of the longest |
| `Bitop.FoldMeaning` | redis-3.0.7/src/bitops.c:437-450 | every bit of the result follows the bitwise definition of AND, OR, XOR or NOT |
| `Lzf.CopyIsPeriodic` | redis-3.0.7/src/lzf_d.c:133-143 | an overlapping copy repeats with the period of its distance |
| `Lzf.ControlBytes` | redis-3.0.7/src/lzf_d.c:66-120 | what the control bytes at the ends of each range stand for |
| `Lzf.Decompress` | redis-3.0.7/src/lzf_d.c:55-149 | all reads and writes in bounds; zero exactly when decoding fails; otherwise length and contents of the decoding |
| `Lzf.DecodeEncoded` | redis-3.0.7/src/lzf_d.c:64-146 | the encoding of a token list decodes to its expansion, or fails if that does not exist or does not fit |
| `Lzf.DecodedTokens` | redis-3.0.7/src/lzf_d.c:64-146 | every input that decodes is the encoding of a token list |
| `Lzf.DecodeMeaning` | redis-3.0.7/src/lzf_d.c:55-149 | decoding gives r if and only if the input encodes a token list that expands to r and r fits |
| `Lzf.EncodeInjective` | redis-3.0.7/src/lzf_c.c:89-96 | an input encodes at most one token list |
| `SlotIndex.RangeSize` | redis-3.0.7/src/db.c:1226-1245 | the items of a slot are those from the first to the last position |
| `SlotIndex.RankAt` | redis-3.0.7/src/db.c:1233-1243 | ranks are positions counted from one |
| `Keyspace.Keyspace.Add` | redis-3.0.7/src/db.c:93-100 | adds the key to the database and to the slot index |
| `Keyspace.Keyspace.Overwrite` | redis-3.0.7/src/db.c:107-112 | replaces the value and keeps expire time and index |
| `Keyspace.Keyspace.SetKey` | redis-3.0.7/src/db.c:120-129 | whether the key was absent, present or due, it has the value and no expire time afterwards |
| `Keyspace.Keyspace.Delete` | redis-3.0.7/src/db.c:162-172 | removes the key from dictionary, expires and index |
| `Keyspace.Keyspace.EmptyDb` | redis-3.0.7/src/db.c:212-223 | empties all databases and the index; returns the number of keys |
| `Keyspace.Keyspace.SetExpire` | redis-3.0.7/src/db.c:779-787 | sets the expire time of an existing key |
| `Keyspace.Keyspace.RemoveExpire` | redis-3.0.7/src/db.c:772-777 | makes an existing key persistent |
| `Keyspace.Keyspace.GetExpire` | redis-3.0.7/src/db.c:791-802 | the expire time or -1; a key with an expire time exists |
| `Keyspace.Keyspace.ExpireIfNeeded` | redis-3.0.7/src/db.c:828-862 | reports whether the key is due, never while loading; a master then deletes it, a slave keeps it |
| `Keyspace.Keyspace.Rename` | redis-3.0.7/src/db.c:667-703 | all replies and the resulting database: value and expire time move to the target, the old target is gone |
| `Keyspace.Keyspace.CountKeysInSlot` | redis-3.0.7/src/db.c:1220-1247 | the rank arithmetic gives the number of keys of the slot |
| `Keyspace.Keyspace.DelKeysInSlot` | redis-3.0.7/src/db.c:1200-1218 | deletes exactly the keys of the slot and their expire times; returns their number |

## Left out

- Dictionary.NextPower: sizes beyond 2^31, the limit of the C int that holds a bucket index, and the LONG_MAX branch are not modelled.
- Dictionary.Dict.Expand: the same bound on the requested size.
- Dictionary.Dict.Resize: the same bound on the number of elements.
- Dictionary.Dict.ExpandIfNeeded: the same bound on the doubled number of keys.
- Dictionary.Dict.KeyIndex: the same bound on the doubled number of keys.
- Dictionary.Dict.Add: tables have at most 2^31 buckets and therefore half as many keys, because bucket indexes are C ints.
- Dictionary.Dict.Replace: the same bound on the number of keys as for additions.
- Dictionary: chains are sequences; allocation, value destructors, dictRehashMilliseconds, random keys and the fingerprint of unsafe iterators are not modelled.
- ReverseBits.Rev: the word width is a parameter that is a power of two, 64 in the source.
- ClusterProtocol.ElectionSafety: assumes a fixed set of voters whose number every candidate uses, no restarts, no reset of epochs; votes are not persisted before they are sent, so a restart can repeat one. The converse, that any early vote produces a second winner, is false: VotesDecideExactly gives the exact bound on the votes.
- ClusterEpochs.Cluster.ProcessHeader: received messages are assumed to dominate, that is, to carry no configEpoch above their currentEpoch; EpochDomination proves this of every message of a run. The same holds for the other message handlers.
- ClusterEpochs: guards that are not about epochs (link state, flags, delays, ranks, manual failover) are boolean inputs; handshakes, gossip, nodes.conf and 64-bit epoch overflow are not modelled there.
- ClusterSlots: random names are new; a header names at most the roles master and slave; the list of slaves that a node keeps is read off the slaveof fields. Configuration files, CLUSTER RESET and FLUSHSLOTS, migrating slots, MIGRATE, failure flags, replication links and the cluster state flag are not modelled.
- HyperLogLog.Hll.SparseAdd: strings whose runs do not cover the registers are outside; the conversion to dense refuses them.
- HyperLogLog.Hll.SparseToDense: strings whose runs add up to more than 16384 are outside: there the source writes beyond its registers.
- HyperLogLog.Hll.MergeInto: the same restriction.
- HllMerge.PfMerge: the same restriction on the sources.
- HyperLogLog.PatLen: MurmurHash is given, the hash is the input. The header with its cached cardinality and the floating-point estimate are not modelled.
- AofFormat.LoadAppendOnlyFile: command lookup, MULTI and read errors other than the end of the file are not modelled; a length beyond memory is treated as longer than the file.
- AofProtocol.Server.Feed: translation of EXPIRE, SETEX and their relatives is not modelled; commands arrive as they are logged.
- AofRewrite.WriteSnapshot: expire times and PEXPIREAT are not modelled; write errors of the child are the child's failure.
- AofReplay: commands other than those of a snapshot are an arbitrary function of the data set; scores go through a printing and a parsing function of which only the round trip is assumed.
- AofProtocol: fsync policy, the old file's descriptor and exits on write errors are not modelled; what a flush wrote and did not undo is an input. The law about replaying is stated for commands within the length limits, SELECT excepted, which the server does not log.
- Intset.Set64.UpgradeAndAdd: the same bound on the length as for additions.
- Intset.Set64.Add: lengths with (length+1)*8 below 2^32, beyond which the 32-bit size wraps. New bytes after a resize are zero in the model; nothing depends on them. Big-endian hosts are not modelled.
- Popcount.Popcount: words are loaded little endian; the byte table is the bit count of a byte.
- Bitop.Compute: a missing key is the empty string, as in the source; type errors and storing the result are not modelled.
- Lzf: compression is not modelled; only the format that decompression accepts.
- SlotIndex: the skip list is a sorted sequence; keyHashSlot is a given function.
- Keyspace: MOVE, getKeysInSlot, random keys, notifications and propagation of expiry would only add easy members.
- Event loop, networking, replication, scripting, sorted-set skip lists, ziplists and RDB are not part of this model.
