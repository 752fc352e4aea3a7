# Verified models for the XBridge hub

This project models the parts of the XBridge hub whose correctness is hardest to see from the
code, and proves what they are for. It covers four groups.

**Distributed hash table** (`src/dht/dht.cpp`). Buckets are a linked list sorted by first id; the
depth of a bucket is not stored but read off trailing one-bits. `DhtBuckets` shows that this works:
every list reachable by splitting partitions the 160-bit id space, and the depth so computed is the
length of the common prefix. `DhtTable` says what `new_node`, `pinged`, `blacklist_node` and
`expire_buckets` do to the table as a value, with an invariant over all histories and the reason
why the recursion of `new_node` ends; `DhtAdmission` says over the nodes in the table when a message
is turned away, when a bucket is split and what becomes of each entry. `DhtTableHeap` carries the
same operations out on linked objects and is proved to compute the same tables. `DhtClosest`,
`DhtSearch` and `DhtReply` treat the two lists of nearest nodes, one an array of structures and one a byte buffer, as refinements of
one notion of "the k nearest ids offered". `DhtStorage` and `DhtLists` treat stored peers, the list
of hashes and the list of searches, `DhtBlacklist` the ring of refused addresses and the flushing of
a banned node from all searches.

**Script machine** (`src/script.cpp`, `src/script.h`, `src/bignum.h`). `ScriptMachine` is the whole
interpreter with all opcodes, limits and failure states; `ScriptTree` proves that its flag vector
gives every script the meaning of its nested IF/ELSE/ENDIF reading. `Multisig` treats the signature
matcher, `ScriptSigops` static against dynamic signature counts up to whole spends with script
hashes, `ScriptBytes` instruction decoding and the in-place deleter, `ScriptPush` what evaluating
freshly written scripts gives, `ScriptOperators` what single operators mean to later ones,
`ScriptSpends` what is checked and when the scripts in daily use are satisfied, `SigHash` what a
signature commits to.

**Codecs.** `Serialize` and `Transaction` treat the stream buffer and the transaction formats,
`WireForms` the very bytes of these and of other formats, `Radix` and `Base58` the text form of keys,
`JsonEscape`, `JsonTree` and `JsonText` the JSON reader and writer.

**Hub and key memory.** `SwapPhases` says which sequences of confirmations bring a swap to which
phase, `SwapMessages` what the messages behind them leave in the hub; `OrderBook` proves the
invariant of the order book in every interleaving of the separately locked sections of
`createTransaction`, and exactly when a waiting order survives, `OrderKeys` that different orders
have different keys; `PageLocks` proves that page-lock counters agree with the ranges still locked,
and for which ranges locking ends at all.

Code that updates state in place is modelled by classes and methods with loops, each proved against
a function of its inputs or of the old state; the theorems are about those functions. Verify
all files together with `dafny verify dfyconfig.toml`.

## Parameters and conventions

- `CheckSig`, the hash functions, `iswprint`, the reading of decimals as doubles, the blacklist of the
  application, random bytes and the clock are parameters. Nothing is assumed about them, with two
  exceptions: the theorems of `OrderKeys` are about hashes without
  collisions, and `JsonText.DoublesComeBack` is about readers that round to nearest.
- Integers are unbounded unless the width matters; then it is written out (32-bit push lengths,
  64-bit amounts and vector sizes, 32-bit size sums and stream positions, the wrapping page counter,
  signed fields in two's complement). Subset types give fields their C range.
- An exception or a `false` result that callers can see is an `Option`, an `Outcome` or a flag, and
  the state left behind by a failing script is kept.
- `sigChecks` in the script machine counts calls of `CheckSig`; `joins` and `windows` in the order
  book record history. The program does not have them.

## Where the code and its description differ

- The comment at `src/dht/dht.cpp:1068` says that search nodes are sorted by decreasing distance. The code
  sorts them nearest first, and so does the model.
- The comment at `src/dht/dht.cpp:969-970` calls eager splitting of a single bucket incorrect for a small
  network. The code splits whenever a full bucket covers the own id and no node in it is dubious or it is
  the only bucket; the model does the same, and such a split is always possible.
- Two parties that use the same address can never complete the phase in which it is the designated
  one, because the first branch takes every confirmation (`SwapPhases.SameAddressIsStuck`).
- An order filed between two locked sections of another call can be dropped with the order it
  replaced (`OrderBook.WindowCanLoseAnOrder`). `OrderBook.WaitingSurvives`, `WaitingRun` and
  `CloseDropsWaiting` say exactly which steps and runs an order survives.
- The JSON writer puts out reals with eight digits, so reading what was written gives back the value
  exactly when every real in it is the double its eight digits are read as (`JsonText.ReadWritten`,
  `JsonText.DoublesComeBack`, `JsonText.TinyRealIsLost`).
- A refund signed by the other party is overwritten by a creation message that comes late, in any phase
  (`SwapMessages.SignedSurvives`, `SwapMessages.LateCreatedOverwrites`).
- Locking a range that touches the last page of the address space does not end, because the page
  counter wraps (`PageLocks.LeavesIffLockable`, `PageLocks.NeverBeyondLast`).
- A read whose size takes the 32-bit position of the stream past its range does not consume what it
  hands out, or leaves the buffer (`Serialize.DataStream.Read`).
- Nothing in the hash of an order marks where a currency ends, so orders whose currencies have different
  lengths can share a key (`OrderKeys.LengthsMislead`); with one length they do not (`OrderKeys.KeysTell`).
- A push of 4 GiB or more does not read back, because its length field has 32 bits; everything
  shorter does (`ScriptBytes.GetOpAfterPush`).

## Model

| member | source | states |
|---|---|---|
| `DhtId.IdCmpIsOrder` | src/dht/dht.cpp:479-483 | comparing 20 bytes is the lexicographic order on the 160 bits, and gives 0 only for equal ids |
| `DhtId.LowBit` | src/dht/dht.cpp:488-504 | the loop finds the position of the last one-bit, or -1 for the zero id |
| `DhtId.XorCmp` | src/dht/dht.cpp:536-553 | the byte loop computes the distance comparison: which id has the smaller XOR with the reference at the first byte where they differ |
| `DhtId.NearerIsStrictTotalOrder` | src/dht/dht.cpp:536-553 | that comparison is a strict total order on ids for every reference point, with 0 for equal ids only |
| `DhtBuckets.DepthIsPrefixLength` | src/dht/dht.cpp:649-654 | in every list of buckets that covers the id space by prefixes, the larger of the two low bits plus one is the length of the bucket's prefix, and the prefix read back is the one it was built from |
| `DhtBuckets.RepresentationUnique` | src/dht/dht.cpp:649-654 | a list of first ids determines its prefixes: nothing is lost by storing `first` only |
| `DhtBuckets.InBucketIffPrefix` | src/dht/dht.cpp:559-564 | the range test of a bucket holds exactly for the ids that carry the bucket's prefix |
| `DhtBuckets.FindBucketIsUnique` | src/dht/dht.cpp:568-583 | the buckets partition the id space: an id is in bucket `i` exactly when `find_bucket` returns `i` |
| `DhtBuckets.SplitKeepsWellFormed` | src/dht/dht.cpp:835-870 | splitting keeps the list a partition and replaces one prefix by its two one-bit extensions |
| `DhtBuckets.InitialListWellFormed` | src/dht/dht.cpp:1845-1870 | the one bucket at the zero id that `dht_init` makes is such a list, with the empty prefix |
| `DhtBuckets.EveryRunPartitions` | src/dht/dht.cpp:555-583 | after any run of splits from the initial list each id lies in exactly one bucket, the one `find_bucket` returns, and that bucket is the set of ids with its prefix |
| `DhtBuckets.BucketMiddle` | src/dht/dht.cpp:649-662 | fails exactly for a bucket of one id; otherwise sets the first bit behind the prefix |
| `DhtBuckets.MiddleIsMidpoint` | src/dht/dht.cpp:649-662 | the middle id separates the ids of the bucket by their next bit, so the halves are equal |
| `DhtBuckets.BucketRandom` | src/dht/dht.cpp:667-686 | bit by bit: the prefix of the bucket, then the random bits |
| `DhtBuckets.RandomIdInBucket` | src/dht/dht.cpp:667-686 | whatever the random bytes, the id lies in its bucket, and every id of the bucket is a possible outcome |
| `DhtTable.FullBucketCanSplit` | src/dht/dht.cpp:963-985 | a bucket that holds a node and also covers the own id covers two different ids, so it is not at full depth; every full bucket that `new_node` splits is such a one |
| `DhtTable.SplitMakesProgress` | src/dht/dht.cpp:978-983 | the recursive call of `new_node` is made on a sound table in which the bucket of the new id is one level deeper: the reason the recursion ends |
| `DhtTable.SplitConserves` | src/dht/dht.cpp:835-870 | a split keeps the representation invariant, moves the nodes of the bucket into its two halves without losing or adding any, and leaves all other buckets alone |
| `DhtTable.SplitKeepsLookup` | src/dht/dht.cpp:835-870 | no lookup by id changes through a split |
| `DhtTable.OnePassKeepsInv` | src/dht/dht.cpp:876-1006 | one pass of `new_node` over a bucket keeps the invariant and the bucket boundaries |
| `DhtTable.LookupIff` | src/dht/dht.cpp:607-623 | a node is found by its id exactly when it hangs in the bucket of that id, where it occurs once |
| `DhtTable.NewNodeEffect` | src/dht/dht.cpp:876-1006 | `new_node`, with all its splits: the invariant holds again; the id is learned or refreshed exactly when a node is returned; every other node is unchanged, pinged once because it was dubious, or dropped because it was bad |
| `DhtTable.NewNodeEvictsAtMostOne` | src/dht/dht.cpp:876-1006 | one call evicts at most one node, however many splits it takes |
| `DhtTable.ExpireLookup` | src/dht/dht.cpp:1014-1047 | expiry forgets exactly the nodes with four unanswered pings; all other lookups are as before |
| `DhtTable.ExpireKeepsInv` | src/dht/dht.cpp:1014-1047 | expiry keeps the invariant and the boundaries |
| `DhtTable.PingedKeepsInv` | src/dht/dht.cpp:768-776 | counting an unanswered ping keeps the invariant |
| `DhtTable.BlacklistKeepsInv` | src/dht/dht.cpp:781-793 | so does the part of a ban that concerns the table, marking the node as bad |
| `DhtTable.StepKeepsInv` | src/dht/dht.cpp:768-1047 | every operation keeps the invariant: nodes in range of their bucket, ids distinct and never the own id, count equal to list length and at most 8, buckets a partition |
| `DhtTable.After` | src/dht/dht.cpp:768-1047 | the table after any history of messages, pings, bans and purges satisfies the invariant |
| `DhtAdmission.RefusedWhen` | src/dht/dht.cpp:876-1006 | a message that is neither rejected nor from the own id is turned away exactly when in the resulting table its id is unknown, its bucket holds 8 nodes, none of them with three unanswered pings older than 15 seconds, and the bucket does not cover the own id, or has a node not in good standing and is not the only one; however many splits that takes |
| `DhtAdmission.SplitsWhen` | src/dht/dht.cpp:963-983 | a bucket is split exactly when it is crowded so, covers the own id, and all its nodes are in good standing or it is the only one; otherwise the message is taken exactly when the bucket is not crowded, and the boundaries stay |
| `DhtAdmission.WhichPass` | src/dht/dht.cpp:887-1006 | the same conditions decide what one pass comes to |
| `DhtAdmission.PassOnNodes` | src/dht/dht.cpp:898-1005 | the nodes of the bucket after a pass, entry by entry with their fields: refreshed, first lost one replaced, newcomer in front, first doubted one pinged, or untouched |
| `DhtAdmission.PassOnBucket` | src/dht/dht.cpp:893-990 | time and candidate of the bucket after a pass, and when our own bucket counts as grown |
| `DhtAdmission.EntriesAfter` | src/dht/dht.cpp:876-1006 | after the whole call: the record stored under the id, field by field, and of any other node that it is as before, has one ping more, or was lost and is gone |
| `DhtAdmission.HalvesKeep` | src/dht/dht.cpp:849-870 | both halves of a split have the time of the bucket and no candidate |
| `DhtAdmission.PingCounts` | src/dht/dht.cpp:768-776 | one unanswered ping more, now; from three on the candidate is used up |
| `DhtAdmission.BanMarks` | src/dht/dht.cpp:781-793 | a banned node has four unanswered pings and goes with the next purge; no other lookup changes |
| `DhtAdmission.PurgeTakes` | src/dht/dht.cpp:1014-1047 | a purge takes out the nodes with four unanswered pings, and with them the candidate of their bucket |
| `DhtAdmission.InitialBucket` | src/dht/dht.cpp:1845-1870 | the table at the start: one bucket at the zero id with nothing in it |
| `DhtTableHeap.RoutingTable.FindBucketCell` | src/dht/dht.cpp:568-583 | walking the linked list of buckets finds the bucket of the abstract table |
| `DhtTableHeap.RoutingTable.PreviousBucket` | src/dht/dht.cpp:587-601 | the predecessor in the list, or null |
| `DhtTableHeap.RoutingTable.FindNode` | src/dht/dht.cpp:607-623 | the node found by walking is the abstract lookup |
| `DhtTableHeap.RoutingTable.InsertNodeCell` | src/dht/dht.cpp:691-703 | linking a node in at the head of its bucket refines the abstract insertion |
| `DhtTableHeap.RoutingTable.SplitBucket` | src/dht/dht.cpp:835-870 | relinking buckets and nodes in place refines the abstract split; null exactly when the bucket holds one id only |
| `DhtTableHeap.BucketCell.Learn` | src/dht/dht.cpp:900-1005 | the bucket's share of `new_node` on linked nodes refines the abstract step |
| `DhtTableHeap.RoutingTable.NewNode` | src/dht/dht.cpp:876-1006 | the recursive method on linked buckets ends, keeps the heap structure and computes the abstract table; a node is returned exactly when the abstract one says so |
| `DhtTableHeap.BucketCell.ExpireCell` | src/dht/dht.cpp:1018-1042 | the two unlinking loops keep exactly the live nodes of a bucket in order, and empty the candidate slot if any was dropped |
| `DhtTableHeap.RoutingTable.ExpireBuckets` | src/dht/dht.cpp:1014-1047 | the purge of the whole list refines the abstract one |
| `DhtTableHeap.RoutingTable.PingedCell` | src/dht/dht.cpp:768-776 | refines the abstract ping |
| `DhtTableHeap.RoutingTable.BlacklistNode` | src/dht/dht.cpp:781-793 | refines that part of a ban |
| `DhtBlacklist.FlushId` | src/dht/dht.cpp:795-803 | the loop over the entries of one search, which goes on behind an entry that has moved up, takes out exactly the entry with the banned id and keeps the order |
| `DhtBlacklist.FlushFromSearches` | src/dht/dht.cpp:795-804 | the loop over all searches does so in each of them and changes nothing else |
| `DhtBlacklist.BlacklistNode` | src/dht/dht.cpp:781-809 | the whole of a ban: the node is marked in the table, gone from every search, and its address refused from then on |
| `DhtBlacklist.Blacklist.Refuses` | src/dht/dht.cpp:813-831 | refuses exactly what the application refuses, or an address that matches the front of a slot of the ring |
| `DhtBlacklist.BannedForTen` | src/dht/dht.cpp:806-831 | a banned address is refused until at least ten more have been banned, whatever their lengths |
| `DhtBlacklist.ListedIffRecent` | src/dht/dht.cpp:806-831 | with addresses of one length the refused ones are exactly the last ten banned, and the all-zero address while the ring is not full |
| `DhtClosest.SlotSeparates` | src/dht/dht.cpp:1086-1094 | in a sorted list the search stops at the id itself if it is there, and otherwise between nearer and farther entries |
| `DhtClosest.PlaceKeepsClosest` | src/dht/dht.cpp:1095-1112 | one shifting insertion keeps a list the sorted list of the nearest distinct ids offered, for any capacity |
| `DhtClosest.OfferHoldsClosest` | src/dht/dht.cpp:1072-1130 | after any run of offers to an empty list it is strictly sorted and holds exactly the nearest distinct ids ever offered |
| `DhtClosest.ClosestIffFewNearer` | src/dht/dht.cpp:1072-1130 | an id is held exactly when it was offered and fewer than the capacity of the offers are nearer |
| `DhtClosest.RemoveKeepsSorted` | src/dht/dht.cpp:1134-1141 | a flush keeps order and distinctness and drops that one id only |
| `DhtSearch.SightKeepsClosest` | src/dht/dht.cpp:1072-1130 | one call of `insert_search_node` keeps the list the 14 nearest ids seen |
| `DhtSearch.SearchHoldsClosest` | src/dht/dht.cpp:1072-1130 | after any sequence of calls without a flush the array holds exactly the 14 nearest distinct ids seen, nearest first |
| `DhtSearch.Search.InsertSearchNode` | src/dht/dht.cpp:1072-1130 | the array with its shifting loop carries out that step; the result is false exactly for a wrong family or an id beyond a full array |
| `DhtSearch.SightedEntry` | src/dht/dht.cpp:1086-1128 | the entry a sighting leaves, field by field: tokens under 40 bytes and the signs of an answer are taken over; every other entry stays, moved up behind a new one |
| `DhtSearch.Search.FlushSearchNode` | src/dht/dht.cpp:1134-1141 | the shifting loop removes the one entry |
| `DhtSearch.Search.Restart` | src/dht/dht.cpp:1395-1409 | the loop that starts over after each flush ends, and equals dropping the doubtful entries and resetting the others |
| `DhtSearch.RestartKeepsSorted` | src/dht/dht.cpp:1395-1409 | what a restart leaves is sorted and holds ids that were there before and were not doubtful |
| `DhtSearch.RestartKeeps` | src/dht/dht.cpp:1395-1409 | a restart keeps exactly the entries with fewer than three unanswered requests and an answer within two hours, with token, answer and acknowledgement cleared |
| `DhtReply.InsertClosestNode` | src/dht/dht.cpp:3052-3096 | moving records about in the byte buffer carries out the insertion with room for 8; a record is the id, then the address and then the port out of the bytes of the socket address |
| `DhtReply.CompactIs` | src/dht/dht.cpp:3079-3090 | the compact form is bytes 4 to 7, or 8 to 23, of the socket address and then bytes 2 and 3 |
| `DhtReply.BufferClosestNodes` | src/dht/dht.cpp:3101-3112 | offers exactly the good nodes of a bucket, in list order |
| `DhtReply.GatherClosest` | src/dht/dht.cpp:3116-3150 | the buffer of a reply holds the 8 good nodes nearest to the target out of its bucket and the two neighbouring ones, nearest first, and every record in it, address and port included, is that of one of these nodes |
| `DhtReply.PlaceAllKeepsClosest` | src/dht/dht.cpp:3101-3113 | a run of insertions into the buffer keeps it the nearest of all records offered |
| `DhtStorage.SwapOutKeepsFresh` | src/dht/dht.cpp:1551-1557 | moving the last peer into the place of a stale one loses no fresh peer |
| `DhtStorage.FreshPeersAre` | src/dht/dht.cpp:1551 | fresh are the peers announced within 32 minutes, each as often as it was there |
| `DhtStorage.Storage.ExpirePeers` | src/dht/dht.cpp:1549-1557 | of one hash exactly the fresh peers survive, as a multiset |
| `DhtStorage.Storage.StorePeer` | src/dht/dht.cpp:1496-1530 | refreshes a known endpoint, else appends it, growing the array up to 2048; endpoints stay distinct |
| `DhtLists.LinkedList.Unlink` | src/dht/dht.cpp:1152-1158 | unlinking behind the trailing pointer takes exactly one cell out of the list |
| `DhtLists.Searches.ExpireSearches` | src/dht/dht.cpp:1145-1164 | an order-preserving filter: keeps exactly the searches stepped within the last 62 minutes, and the counter is the length of the list |
| `DhtLists.StorageTable.FindStorage` | src/dht/dht.cpp:1447-1460 | finds the first cell with the hash, or null if there is none |
| `DhtLists.StorageTable.StorageStore` | src/dht/dht.cpp:1464-1530 | updates the peers of the one hash, or puts a new hash in front unless 16384 are stored; all other hashes keep their peers, hashes stay distinct, the counter is the length of the list |
| `DhtLists.StorageTable.ExpireStorage` | src/dht/dht.cpp:1544-1582 | keeps of every hash the fresh peers as a multiset, unlinks exactly the hashes left without peers, in order, with the counter equal to the length |
| `DhtLists.KeepItems` | src/dht/dht.cpp:1559-1577 | the hashes kept still hold what they held |
| `BigNum.SetGetVch` | src/bignum.h:255-280 | reading back the sign-magnitude bytes of any integer gives the integer |
| `BigNum.GetSetVch` | src/bignum.h:255-280 | re-encoding gives the same bytes exactly for byte strings in minimal form |
| `WireForms.NumbersAre` | src/bignum.h:255-280 | the bytes of numbers of either sign up to 32767 |
| `WireForms.NumbersRead` | src/bignum.h:255-280 | what one and two bytes read as, negative zero and longer forms included |
| `BigNum.FourByteNumbers` | src/script.cpp:32-38 | an integer of at most 31 bits and sign takes at most the four bytes the operators accept |
| `BigNum.SetInt64` | src/bignum.h:126-167 | the digit loop with its sign handling delivers every 64-bit integer unchanged, the smallest one included |
| `ScriptBytes.GetOpLocal` | src/script.h:416-467 | reading an instruction does not depend on what follows it |
| `ScriptBytes.InstructionsSound` | src/script.h:416-467 | a script is the concatenation of its instructions and a tail that cannot be read |
| `ScriptBytes.FlattenDecodes` | src/script.h:416-467 | instructions laid end to end decode to themselves |
| `ScriptBytes.GetOpAfterPush` | src/script.h:353-378 | reading undoes a push, whatever follows, for all four length forms, exactly when the data is shorter than 4 GiB (the length field has 32 bits) |
| `WireForms.PushesAre` | src/script.h:353-378 | the bytes of the four ways to push data |
| `ScriptBytes.DeleteIsFilter` | src/script.h:485-502 | for a pattern that is one instruction the byte loop filters the instruction list, keeps a malformed tail, and counts what it removed |
| `ScriptBytes.DeleteOnceIsEnough` | src/script.h:485-502 | the result decodes to the filtered list and a second call removes nothing |
| `ScriptBytes.CScript.PushData` | src/script.h:353-378 | appends the encoded push |
| `ScriptBytes.CScript.PushInt64` | src/script.h:239-251 | appends a one-byte opcode for -1 and 1 to 16, else the pushed bytes of the number |
| `ScriptBytes.CScript.FindAndDelete` | src/script.h:485-502 | the in-place loop ends and leaves what the specification says, with the count |
| `ScriptBytes.CScript.IsPushOnly` | src/script.h:527-539 | true exactly when every instruction can be read and none is beyond OP_16 |
| `Multisig.MatchFindsEmbedding` | src/script.cpp:998-1017 | a successful pass yields an order-preserving assignment of signatures to keys that all verify |
| `Multisig.GreedyIsComplete` | src/script.cpp:998-1017 | if any such assignment exists the greedy pass succeeds |
| `Multisig.MatchIffMatchable` | src/script.cpp:998-1017 | the pass succeeds exactly when an order-preserving injection of signatures into keys exists under which every pair verifies |
| `Multisig.CallsMade` | src/script.cpp:998-1017 | the number of checks made where none succeeds and where all do |
| `Multisig.MatchSignatures` | src/script.cpp:998-1017 | the two-pointer loop computes this |
| `ScriptMachine.TrueIffNonzero` | src/script.cpp:40-53 | an operand counts as true exactly when the number it spells is not zero (negative zero is false) |
| `ScriptMachine.CastToBoolLoop` | src/script.cpp:40-53 | the byte loop computes truth |
| `ScriptMachine.EvalScript` | src/script.cpp:254-1053 | the interpreter loop over bytes, with its vectors, computes the run of the flat machine; on failure too the stack is the one the machine had |
| `ScriptTree.FlatIsBlock` | src/script.cpp:271-376 | running the flat loop over the instructions of a nested block, from any machine and any enclosing conditionals, is evaluating the block |
| `ScriptTree.SkippedBlockOnlyCounts` | src/script.cpp:273-305 | a block that is not executed changes neither stack nor code separator and makes no signature check; it counts its operators and is subject to the static checks |
| `ScriptTree.UnbalancedFails` | src/script.cpp:1048-1049 | a script that succeeds has properly nested conditionals |
| `ScriptTree.TreeIffBalanced` | src/script.cpp:343-376 | the instruction lists with a nested reading are those whose conditionals open and close properly |
| `ScriptTree.EvalIsNested` | src/script.cpp:254-1053 | for every script and stack the flat execution gives verdict and stacks of the nested reading; a script without a nested reading, or of more than 10000 bytes, is rejected |
| `ScriptPush.PushAllEvaluates` | src/script.cpp:1672-1678 | evaluating the script that pushes a list of values succeeds exactly within the limits of 520, 1000 and 10000, and then leaves exactly the values |
| `ScriptPush.PushAll` | src/script.cpp:1672-1678 | the loop writes that script |
| `ScriptPush.PushNumberEvaluates` | src/script.h:239-251 | a pushed 64-bit integer evaluates to its byte form, which decodes to the integer |
| `ScriptPush.MultisigAnswers` | src/script.cpp:960-1031 | with its operands in order (two counts of at most four bytes within 20 and each other, as many elements as they announce and one more, and room under the operation limit) the opcode removes exactly the keys, the signatures, both counts and one element more, and pushes whether the signatures match; the VERIFY form goes on exactly then |
| `ScriptPush.MultisigRefuses` | src/script.cpp:960-986 | it stops with the stack untouched exactly when there are no counts for which that order holds, and then it has checked no signature |
| `ScriptOperators.PickAndRoll` | src/script.cpp:548-564 | OP_PICK and OP_ROLL take a depth from the stack, work exactly for depths inside the rest, and copy or move that element |
| `ScriptOperators.ShufflesExpand` | src/script.cpp:420-597 | every fixed stack instruction from 2DROP to TUCK can be replaced, on every stack, by a script of picks, rolls and drops: same success, same machine |
| `ScriptOperators.ComparisonsBranch` | src/script.cpp:777-864 | an IF, NOTIF or VERIFY behind a comparison or connective branches, or goes on, exactly by the relation between the numbers its operands spell, the deeper one on the left, and leaves nothing of it on the stack |
| `ScriptOperators.ArithmeticSpells` | src/script.cpp:777-855 | sum, difference, minimum and maximum spell the right number, even where the result no longer fits an operand |
| `ScriptOperators.UnarySpells` | src/script.cpp:747-775 | increment, decrement, negation and the two truth tests of one number |
| `ScriptOperators.AbsSpells` | src/script.cpp:747-775 | the one of a number and its negation that is not negative |
| `ScriptOperators.WithinDecides` | src/script.cpp:866-884 | decides membership in the half-open interval |
| `ScriptOperators.LongOperandsStop` | src/script.cpp:32-38 | wherever an operator reads a number, the counts of a multisig and the depth of PICK and ROLL included, more than four bytes stop the script with both stacks as they were |
| `ScriptOperators.EqualDecides` | src/script.cpp:715-739 | byte equality, and the VERIFY form that goes on exactly then |
| `ScriptOperators.SizeAndDepthSpell` | src/script.cpp:502-664 | SIZE and DEPTH push numbers that spell the length of the top element and the height of the stack |
| `ScriptSpends.CheckSigAsks` | src/script.cpp:925-958 | with signature and key on top, the key above, the check is asked about that signature, that key and the script behind the last separator without the instructions that push the signature; the answer replaces both, and the VERIFY form goes on exactly when it is good |
| `ScriptSpends.NeedsOne` | src/script.cpp:379-775 | without an element on the stack the operators on one stop the script with everything as it is |
| `ScriptSpends.CheckSigNeedsTwo` | src/script.cpp:925-931 | so does the signature check with fewer than two |
| `ScriptSpends.HashReplaces` | src/script.cpp:886-914 | each of the five hash operators replaces the top element by its digest |
| `ScriptSpends.TruthDecides` | src/script.cpp:379-393 | VERIFY and IFDUP act on the number the top element spells being zero or not |
| `ScriptSpends.AltMoves` | src/script.cpp:402-418 | one element moves to the other stack or back; without one the script stops |
| `ScriptSpends.PlainOperators` | src/script.cpp:302-341 | what the small numbers push, what the operators without effect do, and where a separator moves the start of the signed code |
| `ScriptSpends.StopsTheScript` | src/script.cpp:393-397 | executing RETURN, a reserved or an undefined opcode stops the script with the stacks as they are |
| `ScriptSpends.ComparisonsLeave` | src/script.cpp:777-864 | each comparison leaves [1] or [] for the relation between the numbers spelled |
| `ScriptSpends.SkippedTurn` | src/script.cpp:271-305 | an instruction in a branch not taken stops the script exactly if it pushes more than 520 bytes, is operation 202, is one of the fifteen refused everywhere, or meets more than 1000 elements |
| `ScriptSpends.ExecutedTurn` | src/script.cpp:271-1041 | one that is executed goes on exactly if it passes the same checks, does so itself and leaves at most 1000 elements |
| `ScriptSpends.ControlStops` | src/script.cpp:343-376 | VERIF and VERNOTIF stop the script wherever they stand, ELSE and ENDIF without an IF, IF without a condition |
| `ScriptSpends.PayToKeyHashRuns` | src/script.cpp:254-1053 | DUP HASH160 h EQUALVERIFY CHECKSIG on a signature and a key runs to its end exactly if the key has the hash, and leaves whether the signature is good for the whole script (without the hash, should the signature be that) |
| `ScriptSigops.GetSigOpCount` | src/script.cpp:1794-1816 | the counting loop computes the static count up to the first malformed byte, modulo 2^32 |
| `ScriptSigops.SigOpsAre` | src/script.cpp:1794-1816 | instruction by instruction: one for a signature, for a multisig the number pushed right before it if asked for, else 20 |
| `ScriptSigops.CountFits` | src/script.cpp:1794-1816 | an instruction counts for at most 20 per byte, so the 32-bit counter does not wrap for scripts below 200 MB |
| `ScriptSigops.AccurateIsTighter` | src/script.cpp:1804-1812 | the accurate count is never above the plain one |
| `ScriptSigops.MultisigCost` | src/script.cpp:960-1017 | a multisig makes at most as many checks as the number pushed in front of it, or 20, and every one is paid for by a counted operation |
| `ScriptSigops.CountBoundsChecks` | src/script.cpp:1794-1816 | on any stack, whether the script succeeds or fails, it makes at most as many signature checks as either static count, and at most 201 |
| `ScriptSigops.GetSpendSigOpCount` | src/script.cpp:1818-1840 | the count for spending an output looks into the script last pushed when the output is a script hash and the spender only pushes |
| `ScriptSigops.NonemptyStack` | src/script.cpp:1597-1599 | the stack copied before the second script is never empty where its top is read |
| `ScriptSigops.VerifyScript` | src/script.cpp:1575-1610 | accepts exactly the stated combination of runs, and the signature checks of all runs together stay within the count of the spender's script plus the spending count |
| `ScriptSpends.KeyHashSpends` | src/script.cpp:1575-1610 | pushing a signature and a key spends such an output exactly if both fit 520 bytes, the key has the hash and the signature is good |
| `ScriptSpends.ScriptHashSpends` | src/script.cpp:1592-1606 | pushing values and a script spends a script hash exactly if all is within the limits, the script has the hash, and, where script hashes are looked into, the script ends on the values with a number other than zero |
| `ScriptSpends.OnlyPushesSpend` | src/script.cpp:1594-1596 | a spender of a script hash who does more than push is turned away |
| `ScriptSpends.OrdinarySpends` | src/script.cpp:1577-1610 | any other output is spent exactly if the owner's script ends well on what the spender's leaves |
| `ScriptSpends.ScriptHashShape` | src/script.cpp:1842-1851 | the test for a script hash holds exactly for HASH160, 20 bytes, EQUAL |
| `ScriptSpends.ScriptHashCounts` | src/script.cpp:1818-1840 | what counts for spending a script hash: the checks of the script pushed last, or none if there is more than pushes |
| `Serialize.GetPutSize` | src/serialize.h:181-244 | a compact size reads back exactly when it is within the limit of the reader; otherwise the reader throws behind it |
| `Serialize.SizeOfSizeIsWritten` | src/serialize.h:173-179 | the announced width is the number of bytes written |
| `Serialize.GetPutVector` | src/serialize.h:417-470 | vectors read back when their elements do |
| `Serialize.DataStream.Write` | src/serialize.h:977-983 | appends to the unread bytes |
| `Serialize.DataStream.Read` | src/serialize.h:934-955 | as long as position plus size fits 32 bits, takes from the front of the unread bytes; a short read throws and changes nothing, or fills up with zeros if exceptions are masked: with `Write`, a FIFO queue of bytes. When the sum wraps, the right bytes come out but are not consumed, or the read leaves the buffer |
| `Serialize.DataStream.Compact` | src/serialize.h:892-896 | does not change the unread bytes |
| `Serialize.DataStream.Rewind` | src/serialize.h:898-905 | gives back bytes already read, in front of the others, or refuses |
| `Serialize.DataStream.WriteCompactSize` | src/serialize.h:181-211 | writes the format |
| `Serialize.DataStream.ReadCompactSize` | src/serialize.h:213-244 | reads the format, with the limit of 0x02000000, and leaves the stream where the format says, after an exception and with masked ones too, provided no read takes the position beyond 32 bits |
| `Serialize.FollowingFits` | src/serialize.h:934-955 | that proviso cannot be done without: a stream that has read a value of any format and stands where the format says has not gone beyond 32 bits |
| `Serialize.DataStream.ReadBytes` | src/serialize.h:440-454 | reading in blocks of 5,000,000 is the same as reading in one go, except that it throws at the start of the block that falls short; same proviso |
| `Serialize.ShortBlocks` | src/serialize.h:440-454 | the block that falls short is the first not complete one of 5,000,000 bytes |
| `WireForms.SizesAre` | src/serialize.h:173-211 | the bytes of a compact size: one up to 252, else a mark of 253, 254 or 255 and two, four or eight bytes |
| `WireForms.LittleEndian` | src/serialize.h:181-211 | byte i of a field counts 256 to the power i |
| `WireForms.SignedFieldsAre` | src/ctransaction.h:519-523 | negative fields are written as the number 2^32 or 2^64 higher |
| `WireForms.TransactionIs` | src/ctransaction.h:517-525 | the bytes of a transaction with one input and one output, part by part, with and without the time stamp |
| `WireForms.EmptyTransactionIs` | src/ctransaction.h:226-234 | those of one with neither |
| `Transaction.RoundTrip` | src/ctransaction.h:226-234 | for both transaction classes, with exceptions masked or not: reading back gives the transaction and leaves what follows unread, exactly when no vector in it is longer than MAX_SIZE; the time stamp survives only where it is written |
| `Transaction.PutTxInjective` | src/ctransaction.h:517-525 | different transactions have different forms, even when other bytes follow; this is about the form, whose vectors can have any 64-bit length, though the stream writes no script of 2 GiB or more |
| `Transaction.DeliveredIsStorable` | src/serialize.h:241-244 | whatever a reader delivers is within its limits |
| `Transaction.GetSerializeSize` | src/serialize.h:59-72 | the announced size is the number of bytes written, modulo 2^32 |
| `Transaction.WriteTx` | src/ctransaction.h:517-525 | writes the fields in order, with or without the time stamp, for all scripts the stream can write in one piece |
| `Transaction.ReadTx` | src/ctransaction.h:517-525 | reads them back, refining the format, and leaves the stream at the bytes the format names, after an exception too (an outpoint is one read of 36 bytes, so a short one takes nothing); same proviso, for the whole transaction |
| `Transaction.ReadInputs` | src/serialize.h:456-470 | reading inputs in batches refines reading them one after the other, exceptions included; same proviso |
| `Transaction.ReadOutputs` | src/serialize.h:456-470 | the same for outputs |
| `Transaction.IsNewerThan` | src/ctransaction.h:273-299 | the loop decides: same outputs spent, and of the sequence numbers that differ the lowest belongs to the older transaction alone |
| `Transaction.NewerMeans` | src/ctransaction.h:273-299 | the same over the inputs: all outpoints equal, and some place with differing sequence numbers where the older one is below every differing one of the newer |
| `Transaction.OneInputNewer` | src/ctransaction.h:273-299 | with one input each, the same output and the higher sequence number |
| `Transaction.NewerIsStrictOrder` | src/ctransaction.h:273-299 | replacement is asymmetric and transitive |
| `SigHash.SignatureHash` | src/script.cpp:1062-1122 | editing a copy step by step gives the hash of the specified message, or the number 1 where an index is out of range |
| `SigHash.MessageReads` | src/script.cpp:1071-1121 | read as a transaction the message has: other inputs with empty scripts, and sequence 0 under NONE and SINGLE; the own input with the code without separators; no other inputs under ANYONECANPAY; no outputs under NONE, and under SINGLE value -1 and an empty script before the own one; all else as it was; then the four bytes of the hash type |
| `SigHash.OneIsAnswered` | src/script.cpp:1064-1100 | there is no message exactly for an index without input, or without output under SINGLE, and the answer then is the byte 1 and 31 zeros |
| `SigHash.MessageCommits` | src/script.cpp:1062-1122 | for one input, script code and hash type, two transactions have the same message exactly when they agree on version, time, lock time and the inputs and outputs that hash type commits to |
| `SigHash.MessageFixesCode` | src/script.cpp:1071-1078 | for one transaction the message fixes the instructions of the script code other than code separators, and its malformed tail, and nothing else of it |
| `SigHash.MessageFixesType` | src/script.cpp:1117-1121 | messages for different hash types differ |
| `SigHash.ScriptSigsDoNotMatter` | src/script.cpp:1075-1078 | no input script influences the message or whether there is one |
| `Radix.ConvertBack` | src/base58.h:29-121 | rewriting a numeral in another base with its leading zeros kept, and back, changes nothing |
| `Base58.EncodeBase58` | src/base58.h:29-66 | division loop, zero padding and reversal compute the conversion from base 256 to base 58 |
| `Base58.DecodeBase58` | src/base58.h:77-121 | the multiply-accumulate loop, sign-byte trim and zero padding compute the conversion back, or failure |
| `WireForms.OneByteText` | src/base58.h:29-66 | the text of one byte, digit by digit, and of zero bytes in front |
| `Base58.DecodeIff` | src/base58.h:84-103 | decoding succeeds exactly on digits with white space around them, up to the first NUL, and depends on the digits only |
| `Base58.DigitValues` | src/base58.h:26 | the value of every character of the alphabet, and which characters are none |
| `Base58.SpacesAre` | src/base58.h:84-103 | white space is the blank and the codes 9 to 13 |
| `Base58.DecodeEncode` | src/base58.h:29-121 | decoding undoes encoding for every byte string, with leading zeros and top bits of any kind |
| `Base58.EncodeDecode` | src/base58.h:29-121 | encoding what was decoded gives the text without the white space |
| `Base58.TrimmedIsMagnitude` | src/base58.h:105-110 | trimming the sign byte leaves the plain magnitude |
| `Base58.EncodeInjective` | src/base58.h:29-66 | two byte strings never share a text |
| `WireForms.ChecksumIs` | src/base58.h:134-143 | a text with checksum holds the value and the first four bytes of its hash |
| `Base58.CheckDecodeIff` | src/base58.h:134-170 | a text with checksum is accepted with a value exactly when its digits are that value's encoding with its checksum |
| `Base58.CheckRoundTrip` | src/base58.h:134-170 | in particular every such encoding is accepted |
| `JsonEscape.AddEscChars` | src/json/json_spirit_writer_template.h:63-91 | the loop writes the escapes |
| `JsonEscape.SubstituteEscChars` | src/json/json_spirit_reader_template.h:122-156 | the loop that copies the stretches between escapes computes the substitution; a backslash in last place is kept |
| `JsonEscape.SubstituteEscape` | src/json/json_spirit_reader_template.h:122-156 | substitution undoes escaping for every byte string, whatever counts as printable (RFC 4627 section 2.5) |
| `JsonEscape.CharsWritten` | src/json/json_spirit_writer_template.h:21-91 | how each character is written: seven short escapes, itself if it can be printed, else u00 and two upper-case digits |
| `JsonEscape.EscapesStandFor` | src/json/json_spirit_reader_template.h:86-119 | what each escape stands for; of four hexadecimal digits the lower two count |
| `JsonEscape.BrokenEscapes` | src/json/json_spirit_reader_template.h:86-119 | an escape without its digits, or with an unknown letter, stands for nothing |
| `JsonEscape.HexDigitsRead` | src/json/json_spirit_reader_template.h:52-59 | hexadecimal digits in either case |
| `JsonEscape.GetStrQuoted` | src/json/json_spirit_reader_template.h:158-170 | so does taking the value of a written literal |
| `JsonEscape.LiteralEndsAtItsQuote` | src/json/json_spirit_writer_template.h:45-91 | no quote inside a written literal stands without its backslash |
| `JsonTree.SemanticActions.BeginCompound` | src/json/json_spirit_reader_template.h:302-317 | a new compound is appended to the current one, which goes on the stack |
| `JsonTree.SemanticActions.EndCompound` | src/json/json_spirit_reader_template.h:319-327 | back to the compound on top of the stack, unless at the root |
| `JsonTree.SemanticActions.AddToCurrent` | src/json/json_spirit_reader_template.h:329-344 | appends a value where the current pointer stands |
| `JsonTree.FeedValue` | src/json/json_spirit_reader_template.h:293-344 | inside any compound, the callbacks for a value append exactly that value and come back to the compound, with the stack as it was |
| `JsonTree.EventsRebuild` | src/json/json_spirit_reader_template.h:195-344 | from a fresh state the callbacks for any value, in the writer's order, rebuild exactly the value, fail no assertion and leave the stack empty |
| `JsonTree.StepKeepsNested` | src/json/json_spirit_reader_template.h:302-344 | no callback invalidates a stacked pointer: each leads to a compound above the current one, in vectors that stay as long as they are |
| `JsonTree.RunKeepsNested` | src/json/json_spirit_reader_template.h:302-344 | so from the start of a parse the pointers are good in every state on the way, whatever the callbacks, those of a malformed text included |
| `JsonText.Generator.Output` | src/json/json_spirit_writer_template.h:118-200 | the writer puts out the tokens of the value; indentation returns to its level; pretty printing only adds white space |
| `JsonText.WriteValue` | src/json/json_spirit_writer_template.h:229-246 | pretty or not, the text has the same tokens, and compact text has nothing else |
| `JsonText.ReadTokens` | src/json/json_spirit_reader_template.h:446-502 | reading the tokens of a value fires its callbacks in order and stops right behind it |
| `JsonText.ReadWritten` | src/json/json_spirit_reader_template.h:517-534 | reading what was written gives the value with its reals rounded to eight digits and from there to doubles, by whatever rounding the reader has; it equals the original in the sense of the value class, which ignores the unsigned flag of an integer, exactly when every real in it is the double its eight digits are read as |
| `JsonText.SameIffExact` | src/json/json_spirit_writer_template.h:129-130 | what comes back differs exactly when some real in the value does not come back |
| `JsonText.DoublesComeBack` | src/json/json_spirit_writer_template.h:129-130 | with a reader that rounds to nearest, a double comes back if eight digits are enough for it, or if the other doubles are farther than one unit of the eighth digit, and only if none is nearer to its eight digits |
| `JsonText.Round8Exact` | src/json/json_spirit_writer_template.h:129-130 | a real is written exactly when it is a multiple of 0.00000001, and otherwise is off by at most half a unit of the eighth digit |
| `JsonText.NearestIs` | src/json/json_spirit_writer_template.h:129-130 | ties go to the even digit |
| `JsonText.TinyRealIsLost` | src/json/json_spirit_writer_template.h:129-130 | the concrete failure: 0.000000001 comes back as 0 with any reader that reads 0 as 0 |
| `JsonText.ReadText` | src/json/json_spirit_reader_template.h:517-534 | the grammar drives the callback object through these states |
| `SwapMessages.XBridgeTransaction.IncreaseStateCounter` | src/xbridgetransaction.cpp:70-181 | the six branches carry out the one confirmation step, and the result is the state reached or `trInvalid` |
| `SwapMessages.MessagesConfirm` | src/xbridgeexchange.cpp:254-361 | which state each of the six messages confirms |
| `SwapMessages.Hub.Receive` | src/xbridgeexchange.cpp:254-361 | each of the six entry points files the papers the message brings, turns away unknown senders where papers come along, and reports progress exactly when the message ends its phase |
| `SwapMessages.StrangersChangeNothing` | src/xbridgeexchange.cpp:254-361 | a message from an address that is neither party's designated one changes nothing at all, no paper and no map |
| `SwapMessages.PhasesFollowCalls` | src/xbridgeexchange.cpp:254-361 | for the phases, any run of messages is the run of their confirmations: papers hold nothing up and move nothing on |
| `SwapMessages.PapersAreTheirOwn` | src/xbridgetransaction.cpp:485-538 | the payment or payment hash that the papers hold of a party that has sent some, that party has sent itself; of refunds this is not true |
| `SwapMessages.RefundIsLastWritten` | src/xbridgetransaction.cpp:485-515 | after any run a refund is what its last writer sent: its owner from the source, or the other party from the destination, in whatever phase |
| `SwapMessages.SignedSurvives` | src/xbridgetransaction.cpp:485-515 | a refund that the other party has signed is still the one filed exactly if since then its owner has sent no creation message and the other party has not signed again |
| `SwapMessages.LateCreatedOverwrites` | src/xbridgeexchange.cpp:283-306 | a creation message outside its phase replaces payment and refund of its sender all the same, and neither state nor flags show it |
| `SwapMessages.PhasesHavePapers` | src/xbridgetransaction.cpp:485-538 | past the creation phase the swap holds a payment that each party has sent itself, past the commitment phase a payment hash of each |
| `SwapPhases.OneStepAtATime` | src/xbridgetransaction.cpp:70-181 | no phase is skipped or revisited, a phase starts with both flags clear, and any other state is final |
| `SwapPhases.Stretch` | src/xbridgetransaction.cpp:70-181 | calls that do not complete a phase only set the flags of the parties heard |
| `SwapPhases.ReachesIffWalks` | src/xbridgetransaction.cpp:70-181 | a run gets to a phase exactly when the calls, in order, contain both parties' confirmations for each phase before it |
| `SwapPhases.FinishesIff` | src/xbridgetransaction.cpp:70-181 | a joined swap finishes exactly when all six phases are confirmed by both parties, one phase after the other, from sources and destinations in turn |
| `SwapPhases.StateByState` | src/xbridgetransaction.cpp:70-181 | in trJoined, trInitialized and trSigned the two sources confirm, in trHold, trCreated and trCommited the two destinations: both, in either order, lead to the named next state with clear flags, one sets its flag, anyone else changes nothing |
| `SwapPhases.OtherStates` | src/xbridgetransaction.cpp:70-181 | in any other state confirmations change nothing |
| `SwapPhases.TwelveFinish` | src/xbridgetransaction.cpp:70-181 | the twelve confirmations in turn from sources and destinations finish a swap whose parties differ |
| `SwapPhases.OrderDoesNotMatter` | src/xbridgetransaction.cpp:70-181 | calls that differ in order and repetition only, with none for the next phase among them, leave the very same state: the next phase with both flags clear if both parties were heard, else this one with the flags of those heard |
| `SwapPhases.PhaseOutcome` | src/xbridgetransaction.cpp:70-181 | that state is determined by the set of confirmations heard |
| `SwapPhases.SameAddressIsStuck` | src/xbridgetransaction.cpp:76-91 | two parties with the same source never leave the first phase, with the same destination never the second; with different ones some run finishes |
| `OrderBook.FileOrJoinKeepsInv` | src/xbridgeexchange.cpp:163-206 | the first locked section keeps the invariant of the book |
| `OrderBook.StepKeepsInv` | src/xbridgeexchange.cpp:145-252 | every locked section, deletion and phase change keeps it: orders under their own hash, waiting ones unmatched, pairs mirrored, no order joined twice, active ones under their own id |
| `OrderBook.After` | src/xbridgeexchange.cpp:145-252 | the book after any interleaving of such steps satisfies the invariant |
| `OrderBook.JoinsIff` | src/xbridgeexchange.cpp:163-206 | a request is joined exactly when a new, unexpired mirror image of it is waiting |
| `OrderBook.QuietBook` | src/xbridgeexchange.cpp:163-206 | with no call under way every pending order is new and under its own hash, and no two different ones are mirror images |
| `OrderBook.ActivePairs` | src/xbridgetransaction.cpp:414-454 | an active transaction stands under its own id, made from the ids of two requests with exactly mirrored currencies and amounts |
| `OrderBook.NoOrderJoinedTwice` | src/xbridgeexchange.cpp:145-225 | in every interleaving no order is part of two pairs |
| `OrderBook.MirrorsMeet` | src/xbridgetransaction.cpp:282-298 | the first hash of an order is the second hash of its mirror image |
| `OrderKeys.KeysTell` | src/xbridgetransaction.cpp:282-298 | for a hash without collisions and currencies of one length, requests share a key exactly when all four terms agree, and the key looked under is that of the opposite terms |
| `OrderKeys.HashTells` | src/xbridgetransaction.cpp:282-298 | the same for the hash itself |
| `OrderKeys.LengthsMislead` | src/xbridgetransaction.cpp:282-298 | with currencies of different lengths it fails: two different orders with the same hash |
| `OrderKeys.RequestMeetsOrder` | src/xbridgeexchange.cpp:163-206 | a request on opposite terms within 150 seconds is joined with the waiting order, a later one drops it, one on the same terms replaces it, and any other leaves it waiting as it was |
| `OrderKeys.FiledAsMade` | src/xbridgeexchange.cpp:163-206 | a request that joins nothing is filed as a new order with its own terms, parties and time |
| `OrderBook.JoiningIsFinal` | src/xbridgetransaction.cpp:414-454 | joining is mutual and happens once: two orders can be joined in both directions or in neither, the result pairs them under the key as before, and no order joins with it again in either direction |
| `OrderBook.WindowCanLoseAnOrder` | src/xbridgeexchange.cpp:208-223 | a schedule in which an order filed between two sections of another call is dropped with the order it replaced |
| `OrderBook.WaitingSurvives` | src/xbridgeexchange.cpp:145-252 | one step: a waiting order goes on waiting exactly when the step is no request that joins it, replaces it or finds it expired, no last section of a call that joined one under its key, and no deletion of its key |
| `OrderBook.WaitingRun` | src/xbridgeexchange.cpp:145-252 | after any run an order waits under a key exactly when one waited at the start and every step spared it, or one was filed and every step since spared it |
| `OrderBook.JoinOpensWindow` | src/xbridgeexchange.cpp:163-206 | a call that joins opens a window for the key of the order it joined, under which none waits from then on |
| `OrderBook.CloseDropsWaiting` | src/xbridgeexchange.cpp:208-223 | at the end of that window a waiting order is dropped exactly when one was filed under the key since and spared; never when no request with that hash came in between; other keys keep theirs |
| `OrderBook.XBridgeExchange.CreateTransaction` | src/xbridgeexchange.cpp:124-226 | one call by itself: joins and activates the pair under its new id, or files the request under its hash, keeping the invariant |
| `OrderBook.XBridgeExchange.FileOrJoinSection` | src/xbridgeexchange.cpp:163-206 | the first locked section as code |
| `PageLocks.LockedPageManager.LockRange` | src/allocators.h:56-77 | the histogram is again the number of live ranges on every page, the range now among them, and the locked pages are its keys; for all ranges on which the loop ends |
| `PageLocks.LeavesIffLockable` | src/allocators.h:60-64 | with the page counter wrapping as in the code the loops end exactly for ranges that do not touch the last page of the address space, or whose end wraps to before their start |
| `PageLocks.NeverBeyondLast` | src/allocators.h:60-64 | for a range in the last page no number of turns takes the counter beyond it: the loop does not end |
| `PageLocks.LockedPageManager.UnlockRange` | src/allocators.h:79-101 | the same with one occurrence of the range gone; for a live range the assertion never fails |
| `PageLocks.LockedPageManager.LockedIffTouched` | src/allocators.h:56-103 | a page is locked with the operating system exactly while a live range touches it |
| `PageLocks.LockedPageManager.GetLockedPageCount` | src/allocators.h:103-107 | the number of pages locked |
| `PageLocks.HistogramIsDetermined` | src/allocators.h:56-103 | the multiset of live ranges determines the histogram |
| `PageLocks.LockAndUnlock` | src/allocators.h:56-103 | locking and unlocking a range restores the map |
| `PageLocks.TouchesIffShares` | src/allocators.h:60-64 | the pages from the first to the last masked address are those that share a byte with the range |
| `PageLocks.CountOfMultiset` | src/allocators.h:56-103 | the count of a page does not depend on the order in which ranges were locked |

## Left out

- Serialize.DataStream.Read: requires sizes below 2^31, the range of the argument in the code; what a read that leaves the buffer copies is not modelled.
- Serialize.DataStream.ReadBytes: states which bytes are read only if no read takes the position beyond 32 bits (`Fits`, met by every buffer of up to 2^32 - 5,000,001 bytes); the same holds for the other methods that read a format. A value can be read only where the condition holds; after an exception, or with masked exceptions at the end of the buffer, it allows for a whole block where the last read may have been shorter.
- Serialize.DataStream.Write: requires fewer than 2^31 bytes, as the code asserts; so writing a transaction, or hashing it for a signature, requires scripts below that size.
- Transaction.ReadTx: does not state what a half-read object holds after an exception.
- Serialize.GetPutSize: requires sizes below 2^64, which is the range of the argument in the code.
- PageLocks.LockedPageManager.LockRange: requires that its loop end, which `LeavesIffLockable` characterises; counters are unbounded, and the mask for a power-of-two page size is a remainder.
- DhtReply.GatherClosest: one address family at a time; sending the buffer is not modelled.
- JsonText.ReadWritten: starts from tokens; the lexing of numbers is left out. A real is a token with its rounded value, and how the reader turns that into a double is a parameter.
- DhtReply.InsertClosestNode: takes the layout of a socket address (family, port, address; in IPv6 a flow label between the last two) from the platform.
- JsonTree.EventsRebuild: objects are vectors of pairs, the configuration in use; the map configuration would merge equal names.
- Sockets, message parsing and printing, timers, threads, RPC, the user interface and the exception handler: input and output without a deep property.
- One routing table per address family: an instance of the model is one family's. Whether a sender is martian or blacklisted is a parameter, and the pings that are sent show only in the counters of nodes.
- ECDSA, AES, key storage, OpenSSL: foreign calls. Big numbers are exact integers, and `CheckSig` is a fixed predicate for the transaction at hand.
- `Solver` and what rests on it: its body is a failing assertion.
- Allocation failure and the freeing of memory: allocation always succeeds, and objects taken out of a list are no longer reachable from it.
- The JSON tree under construction is a value, and pointers into it are paths from its root; orders behind shared pointers in the order book are records named by number.
- Serialization of maps, sets, tuples and strings, and the stream classes over files: more of the same.
- White space in Base58 texts is that of the C locale; the address classes on top of the codec are left out.
- `updateTransaction`, and `confirm`, `cancel`, `drop` and `finish` of a transaction, which set its state directly, are no part of the phase machine. The order book lets a joined order change state and time stamp arbitrarily, which covers them.
- Wallet lists, addresses in packets and logging of the hub.
- `push_uint64`, the unsigned twin of `push_int64`.
