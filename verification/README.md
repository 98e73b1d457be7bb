# Verified models of pocl's remote daemon and of its intrusive data structures

This project models, in Dafny, the parts of pocl on which the remote driver leans most: the hash
table and list macros of `include/`, the option scanner of `pocld`, and the protocol of the `pocld`
daemon. Each model follows the source branch by branch and keeps its constants; the properties are
about every input, every run or every reachable state.

`dafny verify dfyconfig.toml` checks everything.

## What is proved

* **Hash table** (`Uthash`, `HashRuns`, over `HashIndex`, `HashChains`, `AppOrder`, `HashMembers`,
  `HashMath`, `Bloom`, `HashCheck`). The table is a heap of nodes with two linked structures: bucket
  chains and the application order list. Every operation keeps the invariant that `HASH_FSCK` checks,
  including bucket doubling, the Bloom filter and the recovery from failed allocations; `HashRuns.Run`
  states this for all sequences of operations, together with what they do to the elements, and
  `HashRuns.RunIsDictionary` that this is what they would do to a dictionary.
* **In-place sorts** (`IntrusiveSort` over `StableMerge`). `LL_SORT`, `DL_SORT`, `CDL_SORT` and
  `HASH_SRT` are one algorithm with four ways of tying up the ends. It refines a merge sort on
  sequences, which is a stable sort, and the only one.
* **Lock-free append** (`AtomicAppend`). Interleaved steps of any number of threads: on a non-empty
  list nothing is lost, links are written once and every run ends. On an empty list nodes can be lost;
  the exact condition is proved.
* **Option scanning** (`Getopt`, `GetoptOutcomes`). The scanner permutes `argv` while it reads; a whole scan
  reports the events of a simple left-to-right reading and leaves options and operands separated, each in
  order. What that reading makes of each way to write an option is proved for every option table.
* **Wire format** (`Messages`, `Layout`, `Wire`, `Reader`, `Writer`). What a request looks like in bytes, from
  the members of its structures in the order of their declaration, that reading undoes writing, and that the re-entrant reader gives the same result however the stream is
  cut up. `Migration` builds on it: a buffer migrated between two servers arrives unchanged and is
  answered once.
* **Scheduling** (`Scheduler`) and **reply delivery** (`ReplyQueue`): invariants over all
  interleavings of the daemon's critical sections, with arbitrary losses of connections.
* **RDMA chunks** (`Rdma`) and **connection bookkeeping** (`Daemon`).

Two notes on style. A predicate that is handed from call to call is written with a trigger on
`Veils.Veil`, which keeps the verifier from unfolding it everywhere; the trigger has no meaning of its
own. Chains, orders and positions are passed to methods as ghost parameters, so that contracts can
name them.

## Where a promise does not hold

* A request whose waitlist names an id twice that was not registered when the request was pushed never
  runs (`Scheduler.RanHadDistinct`), and stays pending however the run goes on
  (`Scheduler.StuckForGood`, with a run in `Scheduler.RepeatedIdSticks`). `Scheduler.SettledRuns` gives
  the exact condition: once all its ids are settled, a request has run if and only if the ids missing at
  the push are pairwise different.
* `LL_APPEND_ATOMIC` on an empty list loses a node when two threads both find the head empty
  (`AtomicAppend.EmptyLoses`). `AtomicAppend.KeepsIff`: every run keeps every node if and only if the
  list is not empty or at most one thread appends.
* The RDMA chunk loop never ends for sizes above 2^64 - 2^31, because its 64-bit product wraps around
  (`Rdma.LoopEnds`, an equivalence).
* The comment at `pocld/cmdline.c:636-638` has a single dash introduce an abbreviated long option; in
  the code only a double dash does. `Getopt.SingleDashIsShort` gives an input: with a long option
  `fubar`, `-fu` is read as a short option and `--fu` as the long one. `Getopt.LongTableCounts` gives the
  exact condition: how an option element is read depends on the long options if and only if it begins
  with two dashes.
* The loop that calls the scanner takes the code -1 for the end, so that an option with that value ends
  the scan early (`Getopt.MinusOneEndsLoop`). `Getopt.HeardIff` gives the exact condition on the table:
  every argument list is read to the end if and only if no abbreviation of an option's name makes it
  report -1. pocld's own table has no option with that value.

## Model

| member | source | states |
|---|---|---|
| `Uthash.HashTable.MakeTable` | include/uthash.h:258-297 | 32 empty buckets, an all-zero filter, zero counters; with a failed allocation no part of the table changes, and the element's table pointer is the caller's to clear |
| `Uthash.HashTable.Add` | include/uthash.h:515-542 | the element becomes last in application order and the invariant holds; without memory to grow, order, chains, buckets, numbers and filter are what they were |
| `Uthash.HashTable.AddInorder` | include/uthash.h:447-494 | as Add, but in front of the first element that compares greater |
| `Uthash.HashTable.AddAt` | include/uthash.h:447-542 | the part common to both adds: exactly when an add fails, what it then restores, and what it does to chains and numbers otherwise |
| `Uthash.HashTable.AddToTable` | include/uthash.h:399-428 | indexing of a listed element, or the complete retreat, filter included, when the bucket cannot be expanded |
| `Uthash.HashTable.AddToBkt` | include/uthash.h:1010-1031 | links in front of the chain; expands iff the bucket reaches (mult+1)*10 and expansion is on; fails iff memory is then short, and unlinks again |
| `Uthash.HashTable.Retract` | include/uthash.h:159-169 | rollback and deletion, although they run the bucket removal twice, restore chains, counts, item count, order list and tail |
| `Uthash.HashTable.ExpandBuckets` | include/uthash.h:1083-1153 | twice the buckets, every element rehomed, the order list untouched, ideal length, multipliers in closed form, non-ideal count; expansion is off iff it was, or this expansion and the one before were ineffective |
| `Uthash.HashTable.DeleteHH` | include/uthash.h:582-624 | the element leaves order list and chain, also when it was counted but never linked; the last element takes the table with it |
| `Uthash.HashTable.Delete` | include/uthash.h:580-624 | deletion of any element keeps the invariant and removes just that element |
| `Uthash.HashTable.Find` | include/uthash.h:178-207 | NULL iff no element has the key; else the first such element of its chain; the Bloom filter never changes the answer |
| `Uthash.HashTable.Replace` | include/uthash.h:315-339 | the element with the same key, if any, which may be the new one itself, makes room for the new one, which becomes last; the add fails iff memory is short, expansion is on and the new element fills its bucket, counted without the one that left |
| `Uthash.HashTable.Sort` | include/uthash.h:1159-1276 | the application order becomes the stable sort of itself; buckets, chains and numbers are not written |
| `Uthash.HashTable.Fsck` | include/uthash.h:678-739 | the self-check succeeds iff all backward links and all counts agree with the forward links |
| `Uthash.HashTable.ValidPasses` | include/uthash.h:678-739 | every table that the operations maintain passes the self-check |
| `HashRuns.Run` | include/uthash.h:178-624 | every sequence of adds, ordered adds, replacements, deletes and sorts, whichever allocations fail, keeps the invariant and unique keys, and has the effect on the elements that the operations describe |
| `HashRuns.RunIsDictionary` | include/uthash.h:178-624 | the elements after any run, by key, are what the operations make of a dictionary; keys stay unique |
| `HashRuns.PlaceOf` | include/uthash.h:362-371 | the place of an ordered add always exists |
| `HashIndex.PlacedSorted` | include/uthash.h:362-371 | ordered adds keep a sorted order sorted and put equal elements in order of arrival |
| `HashIndex.ReplacedUnique` | include/uthash.h:315-339 | replacing keeps keys unique |
| `HashIndex.DoubledBuckets` | include/uthash.h:1083-1153 | the new buckets index exactly the same elements |
| `HashIndex.IndexAdd` | include/uthash.h:1010-1021 | after linking, the buckets index the order list with the new element |
| `HashIndex.IndexDel` | include/uthash.h:1034-1052 | after unlinking, the buckets index the order list without the element |
| `HashIndex.LinkUnlessOom` | include/uthash.h:1010-1031 | linking followed by unlinking restores the buckets |
| `HashIndex.Rollback` | include/uthash.h:159-169 | counting an unlinked element makes it deletable |
| `HashIndex.FirstGreater` | include/uthash.h:362-371 | the loop stops at the first greater element |
| `HashIndex.FindInBkt` | include/uthash.h:976-1007 | the chain walk returns the first element with the key, or NULL iff the table has none |
| `HashIndex.ReorderedTable` | include/uthash.h:1159-1276 | nothing but the order list depends on the order |
| `HashChains.AddToBucket` | include/uthash.h:1010-1021 | the element heads its chain, other chains are untouched |
| `HashChains.DelInBucket` | include/uthash.h:1034-1052 | the element leaves its chain, or only its count goes; other chains are untouched |
| `HashChains.Redistribute` | include/uthash.h:1107-1135 | all elements are moved, bucket by bucket, to the front of their new chains, with exact counts, and each multiplier that of its chain's length |
| `HashChains.Rehome` | include/uthash.h:1112-1132 | one element moved; count and multiplier stay right, and the running non-ideal count is the sum of what chains have beyond the ideal length |
| `HashChains.DistHomed` | include/uthash.h:1107-1135 | every element ends up in bucket hashv mod the new size, and the chains hold exactly the elements |
| `HashMath.MaskIsMod` | include/uthash.h:561-566 | masking with a power of two less one is reduction modulo that power |
| `HashMath.IdealLength` | include/uthash.h:1100-1105 | shift and mask compute the rounded-up mean chain length |
| `HashMath.MultNext` | include/uthash.h:1116-1125 | the multiplier is 0 up to the ideal length and from there the length in multiples of it, rounded up, but for the first element too many; the loop's test and increment keep it so |
| `HashMath.MultUnique` | include/uthash.h:1116-1125 | length and ideal length determine the multiplier |
| `HashMath.ExcessCounts` | include/uthash.h:1116-1118 | the non-ideal count is the number of places in chains at or beyond the ideal length |
| `Bloom.Add` | include/uthash.h:236-247 | from then on the filter passes what it passed before and the values equal modulo its number of bits, and nothing else |
| `Bloom.NothingPasses` | include/uthash.h:213-227 | a new filter passes nothing |
| `AppOrderList.AppendList` | include/uthash.h:352-360 | the order list, extended at its tail |
| `AppOrderList.InsertBefore` | include/uthash.h:471-485 | the order list with an element put in front of another |
| `AppOrderList.RemoveFromList` | include/uthash.h:597-617 | the order list without an element, head and tail kept right |
| `HashCheck.CheckBuckets` | include/uthash.h:684-713 | accepts iff every chain's backward links and count are right |
| `HashCheck.CheckOrder` | include/uthash.h:715-733 | accepts iff every backward link of the order list is right, and counts it |
| `HashCheck.FineMeans` | include/uthash.h:684-713 | what is accepted of a bucket: its count is its chain's length and every backward link leads to the element before |
| `HashCheck.ReturnsMeans` | include/uthash.h:715-733 | the same of the order list |
| `IntrusiveSort.ListSort` | include/utlist.h:104-286 | each macro leaves its list linked in its own shape, holding the merge sort of what it held |
| `IntrusiveSort.ShapeMeans` | include/utlist.h:104-286 | the four shapes, link by link: where the last element and the head's backward link lead |
| `IntrusiveSort.Pass` | include/utlist.h:110-155 | a pass merges neighbouring runs, and counts its merges |
| `IntrusiveSort.MergesIsCeiling` | include/utlist.h:110-155 | a pass leaves the rounded-up half of the runs, so that the sort ends after the pass that makes one merge |
| `IntrusiveSort.MergeRuns` | include/utlist.h:123-146 | two runs are merged, the left one first among equals |
| `StableMerge.SortIsStableSort` | include/utlist.h:100-158 | for a comparison that orders the elements, each element of the result is at most equal to every later one, and ties keep their order |
| `StableMerge.SortPermutes` | include/utlist.h:104-158 | for any comparison, nothing is lost or duplicated |
| `StableMerge.StableSortIsUnique` | include/utlist.h:100-158 | sorted, a permutation and stable determine the result |
| `AtomicAppend.KeepsIff` | include/utlist_addon.h:56-74 | every run keeps all nodes iff the list is not empty or at most one thread appends |
| `AtomicAppend.RunInv` | include/utlist_addon.h:61-68 | on a non-empty list, in every interleaving: the list stays linked, only grows, and links are written once |
| `AtomicAppend.NonEmptyKeeps` | include/utlist_addon.h:61-68 | a finished run leaves the initial list followed by each new node once |
| `AtomicAppend.RunsEnd` | include/utlist_addon.h:64-67 | no run is longer than a bound on its starting state: every appender terminates |
| `AtomicAppend.CanFinish` | include/utlist_addon.h:61-68 | no thread can be blocked for good |
| `AtomicAppend.EmptyLoses` | include/utlist_addon.h:69-72 | on an empty list, for any number of threads from two on, a run after which the links in memory lead through every node of the list but not to the node of a finished thread |
| `Getopt.Scanner.ScanAll` | pocld/cmdline.c:921-954 | a whole scan reports the events of the reference reading up to one with code -1, if there is one; without one argv is then the program name, the options with their arguments, and the operands, and optind points at the operands; otherwise the scanner stands behind that event; either way argv is a permutation of what it was |
| `Getopt.HeardIff` | pocld/cmdline.c:1148-1174 | every scan is heard to its end iff no abbreviation of a long option reports -1; in particular if no option has that value |
| `Getopt.MinusOneEndsLoop` | pocld/cmdline.c:1148-1174 | an argument list with two events of which the loop hears none |
| `Getopt.Scanner.Getopt` | pocld/cmdline.c:921-954 | each call reports the next event, or -1 with argv separated; argv is a permutation of what it was |
| `Getopt.Scanner.ShuffleArgv` | pocld/cmdline.c:558-631 | the scan is over iff the reading has no more events; otherwise an option element is next |
| `Getopt.Scanner.CheckLong` | pocld/cmdline.c:643-778 | exact match, unique abbreviation, ambiguity, missing and superfluous arguments as in the reference |
| `Getopt.Scanner.TakeLong` | pocld/cmdline.c:695-752 | an option that has been found: its argument, its flag, its position in the table |
| `Getopt.SingleDashIsShort` | pocld/cmdline.c:950-953 | an input on which a single dash does not introduce an abbreviated long option |
| `Getopt.LongTableCounts` | pocld/cmdline.c:950-953 | the reading of an option element is the same for all tables of long options iff it does not begin with two dashes |
| `Getopt.Scanner.CheckShort` | pocld/cmdline.c:780-849 | one character of a cluster, with its attached, detached or missing argument |
| `GetoptOutcomes.Detached` | pocld/cmdline.c:812-847 | `-c v`: the option is reported with the next element as its argument, which is no operand |
| `GetoptOutcomes.Attached` | pocld/cmdline.c:800-823 | `-cv`: the rest of the element is the argument, required or optional |
| `GetoptOutcomes.Missing` | pocld/cmdline.c:824-836 | `-c` at the end: `:` or `?` as optstring begins, with c in optopt |
| `GetoptOutcomes.OptionalAbsent` | pocld/cmdline.c:800-811 | `-c` with an optional argument: none, and the next element is left alone |
| `GetoptOutcomes.BareInCluster` | pocld/cmdline.c:780-799 | an option without argument is reported and the rest of the cluster read as if alone |
| `GetoptOutcomes.UnknownInCluster` | pocld/cmdline.c:780-799 | a character that is no option is reported as `?`, and the cluster goes on |
| `GetoptOutcomes.Alone` | pocld/cmdline.c:780-799 | either of them as a whole element |
| `GetoptOutcomes.Kinds` | pocld/cmdline.c:797-812 | no, one or two colons behind a character's first place in optstring |
| `GetoptOutcomes.LookUpIs` | pocld/cmdline.c:659-693 | an exact name wins; otherwise a name stands for the first option it abbreviates if all those do the same; ambiguous or absent in exactly the other cases |
| `GetoptOutcomes.NameValue` | pocld/cmdline.c:695-726 | `--name=v`: the argument is v, or `?` if the option takes none |
| `GetoptOutcomes.NameThenValue` | pocld/cmdline.c:727-730 | `--name v` for a required argument |
| `GetoptOutcomes.NameMissing` | pocld/cmdline.c:727-741 | `--name` at the end, with its argument missing |
| `GetoptOutcomes.NameAlone` | pocld/cmdline.c:742-752 | `--name` otherwise: the value is returned, or written to the flag and 0 returned |
| `GetoptOutcomes.NoSuchName` | pocld/cmdline.c:683-693 | an absent or ambiguous name is reported as `?` |
| `GetoptOutcomes.Operand` | pocld/cmdline.c:577-591 | what does not begin with a dash, and a dash alone, is an operand |
| `GetoptOutcomes.Terminator` | pocld/cmdline.c:586-606 | `--` makes all that follows operands |
| `Getopt.Scanner.FindLong` | pocld/cmdline.c:659-682 | the search loop computes the reference look-up |
| `Getopt.Scanner.Initialize` | pocld/cmdline.c:541-552 | a fresh scanner is at the start of the reading |
| `Getopt.Scanner.Exchange` | pocld/cmdline.c:486-538 | the skipped operands rotate behind the options, and the range follows them |
| `Getopt.ExchangeBlocks` | pocld/cmdline.c:486-538 | repeated swaps of unequal blocks are a rotation that touches nothing outside |
| `Getopt.RotatedBlocks` | pocld/cmdline.c:486-538 | the rotation is the exchange of the two blocks, if and only if |
| `Getopt.ScanPartitions` | pocld/cmdline.c:371-378 | options and operands together are the argument list |
| `Getopt.ScanKeepsOrder` | pocld/cmdline.c:371-378 | both keep the original order; an operand looks like one or follows `--`; what looks like one and is none follows an option |
| `Messages.RequestSize` | include/messages.h:868-979 | every message's size is the common part and the widths of its structure's members, rounded up to 8, and fits RequestMsg_t |
| `Messages.TrimDecides` | include/messages.h:868-979 | each size is large enough for every field that decides how a message is read on |
| `Layout.CommonFields` | include/messages.h:705-722 | pid, waitlist size and message type, from the common part in declaration order |
| `Layout.WriteBuffer` | include/messages.h:471-481 | the payload is as long as `size` says |
| `Layout.WriteBufferRect` | include/messages.h:518-528 | as long as `host_bytes` says |
| `Layout.WriteImageRect` | include/messages.h:619-626 | as long as `host_bytes` says |
| `Layout.FillBuffer` | include/messages.h:494-500 | as long as `pattern_size` says, asserted to be at most 128 |
| `Layout.RunKernel` | include/messages.h:664-676 | nine bytes per argument and then `pod_arg_size`, if there are new arguments |
| `Layout.BuildProgram` | include/messages.h:636-649 | `payload_size` and, but for built-in kernels, `options_len` |
| `Layout.CreateKernel` | include/messages.h:651-656 | as long as `name_len` says |
| `Layout.CreateCommandBuffer` | include/messages.h:686-693 | four bytes per queue and `commands_size`, modulo 2^64 |
| `Layout.MigrateD2D` | include/messages.h:397-412 | `size` if external; and the members that decide what a migration does |
| `Layout.Others` | pocld/request.cc:244-280 | 16 bytes for filling an image, none for all other types |
| `Layout.Digit` | include/messages.h:705-722 | numbers are little-endian |
| `Wire.RoundTrip` | pocld/peer.cc:96-130 | the bytes written for a request are one complete message and read back as that request |
| `Wire.WireLayout` | pocld/peer.cc:96-130 | where size, body, waitlist and payloads are in the bytes written |
| `Wire.ReadsParts` | pocld/request.cc:208-322 | a size, so much body, and the waitlist and payloads it announces are read as just these, payloads null-terminated |
| `Wire.PrefixFree` | pocld/request.cc:184-337 | no message is a proper beginning of another |
| `Wire.RequestsDelivered` | pocld/peer.cc:88-134 | whoever receives the messages of a stream receives the requests that were written, in order |
| `Reader.Source.ReadReentrant` | pocld/connection.cc:114-131 | bytes go behind those already there; done exactly when the destination is full |
| `Reader.Source.CopyOut` | pocld/request.cc:169-174 | the memory reader copies what there is, up to the size asked for |
| `Reader.Request.Read` | pocld/request.cc:184-337 | whatever arrives and whatever fails, what has been read is kept, no byte of the next message is taken, and the request is finished iff its whole message has come, being then that message; from memory one call suffices |
| `Reader.Request.ReadBody` | pocld/request.cc:208-281 | the first half: size and body, and the payload sizes that the body announces |
| `Reader.Request.ReadWaitlistAndExtra` | pocld/request.cc:284-309 | waitlist and first payload, null-terminated; reading on after an interruption loses nothing |
| `Reader.Request.ReadExtra2` | pocld/request.cc:312-322 | second payload, null-terminated |
| `Reader.ReceiveOne` | pocld/request_th.cc:107-120 | one request taken from a stream is the one sent there, or a proper part of it has come; unless a read fails it goes on, through any waits, until the request is whole or nothing more arrives |
| `Reader.ReceiveAll` | pocld/request_th.cc:62-120 | for every schedule of short reads and waits the requests received are the first ones sent, in order, and none read to its last byte is missing; unless a read fails they are all of them, or nothing more arrives; surely all if as many reads deliver as there are bytes |
| `Writer.Connection.WriteFull` | pocld/connection.cc:60-86 | all bytes are written however few are taken at a time and however often a call is interrupted; it fails iff a call fails, at that call, and leaves a proper part |
| `Writer.Connection.WriteRequest` | pocld/peer.cc:96-130 | the pieces of a request add up to its encoding; it fails only with a call of write |
| `Writer.WriterThread` | pocld/peer.cc:88-134 | requests go out whole and in queue order; all of them unless a call of write fails; then n of them and part of the next |
| `Writer.GuardedQueue.Push` | pocld/guarded_queue.hh:47-53 | the item is last in line |
| `Writer.GuardedQueue.Pop` | pocld/guarded_queue.hh:54-63 | the oldest item, or nothing |
| `Migration.MigrateBetween` | pocld/cmd_queue.cc:265-405 | export, wire and import together, behind any other queued requests: byte by byte, the destination's buffer has the source's first `size` bytes, or only those that the size buffer calls valid, and is otherwise unchanged; the source is unchanged, one reply in all, sent by the destination, which alone learns that the last write is complete; it comes about whenever no write fails, no read fails and enough reads deliver |
| `Migration.Server.MigrateHere` | pocld/cmd_queue.cc:295-405 | the same between two platforms of one server, byte by byte |
| `Migration.Server.Submit` | pocld/virtual_cl_context.cc:1171-1215 | routing: exported requests are submitted again, imported ones answered, others handed to the peer; the last write's event is completed iff the content has come from another server and there was a write |
| `Migration.Server.Export` | pocld/cmd_queue.cc:326-376 | the request carries the first `size` bytes, or those that the size buffer calls valid if fewer, their number, and an empty waitlist |
| `Migration.Server.Import` | pocld/cmd_queue.cc:379-405 | the content replaces the beginning of the destination's buffer |
| `Migration.ExportedMigrates` | pocld/cmd_queue.cc:326-376 | an exported request is well-formed for the reader and has nothing to wait for |
| `Migration.ArrivedMigrates` | pocld/request.cc:235-239 | what the import needs survives the journey |
| `Scheduler.CommandQueue.Push` | pocld/cmd_queue.cc:56-67 | runs at once iff as many events as ids are known, else waits |
| `Scheduler.CommandQueue.Notify` | pocld/cmd_queue.cc:69-102 | erasing while iterating is: add the event where it is missing, then separate by readiness, keeping both orders |
| `Scheduler.RemapWaitlist` | pocld/shared_cl_context.cc:608-625 | the events of the registered ids, in order |
| `Scheduler.Note` | pocld/cmd_queue.cc:74-90 | the event is added once, if it is waited for and missing |
| `Scheduler.NotifyRefines` | pocld/cmd_queue.cc:69-102 | the step of the protocol is the loop of the queue |
| `Scheduler.RunInv` | pocld/cmd_queue.cc:56-120 | the invariant holds in every interleaving of pushes, registrations and notifications |
| `Scheduler.RunsWhenRegistered` | pocld/cmd_queue.cc:104-120 | a request runs only after all its ids are registered, repeated or not |
| `Scheduler.RanWaitsFor` | pocld/cmd_queue.cc:56-120 | a request that has run waited for the events of its ids, no more, no fewer and no others |
| `Scheduler.RemappedAll` | pocld/shared_cl_context.cc:608-625 | with all ids registered, remapping gives their events in order |
| `Scheduler.SelectKeepsOrder` | pocld/cmd_queue.cc:69-102 | separating by readiness keeps the order of both sides |
| `Scheduler.SelectKeepsAll` | pocld/cmd_queue.cc:69-102 | and puts every request on its side |
| `Scheduler.SettledRuns` | pocld/cmd_queue.cc:56-120 | once its ids are registered and notified, a request has run iff those missing at the push are pairwise different |
| `Scheduler.DistinctNeverStuck` | pocld/cmd_queue.cc:56-120 | without repeated ids no wakeup is lost |
| `Scheduler.NeverCountedTwice` | pocld/cmd_queue.cc:74-90 | no event is counted twice for different ids |
| `Scheduler.RepeatedIdSticks` | pocld/cmd_queue.cc:74-90 | a run after which a settled request with a repeated id is pending, and pending after every continuation |
| `Scheduler.RanHadDistinct` | pocld/cmd_queue.cc:104-120 | in every run, what has run missed no id twice at its push |
| `Scheduler.StuckForGood` | pocld/cmd_queue.cc:69-102 | a pending request that missed an id twice is pending after every continuation |
| `Scheduler.RunConserves` | pocld/cmd_queue.cc:56-102 | every pushed request is pending or has run: one of the two, once |
| `ReplyQueue.Delivery` | pocld/reply_th.cc:146-308 | in every run: first in, first out; streams are whole replies and at most one part at the end; each connection resumes with the first reply not yet whole; events are notified in order, once, after the reply has been written |
| `ReplyQueue.WrittenOnce` | pocld/reply_th.cc:241-308 | a reply that has left the queue is whole on exactly one connection |
| `ReplyQueue.PoppedOnWire` | pocld/reply_th.cc:241-308 | every reply that has left the queue stands on some connection: its header and right behind it its whole payload |
| `ReplyQueue.NotifiedInTurn` | pocld/reply_th.cc:276-308 | its event has been notified, in its turn, and no other but perhaps the next |
| `ReplyQueue.RunInv` | pocld/reply_th.cc:146-308 | the invariant behind both, kept by every critical section |
| `ReplyQueue.CanDrain` | pocld/reply_th.cc:162-308 | from every state that satisfies the invariant a run leads to one in which everything pushed has been popped, in order |
| `ReplyQueue.EveryRunCanDrain` | pocld/reply_th.cc:162-308 | so it does from the end of every run: no reply is stuck for good |
| `ReplyQueue.WriteReply` | pocld/reply_th.cc:257-275 | the header and then all of the payload are written unless a call of write fails; then the connection fails before their end |
| `ReplyQueue.ReplyQueueThread.PushReply` | pocld/reply_th.cc:146-153 | a step of the protocol |
| `ReplyQueue.ReplyQueueThread.SetConnection` | pocld/reply_th.cc:155-160 | a step of the protocol: writing resumes on the new connection |
| `ReplyQueue.ReplyQueueThread.Pass` | pocld/reply_th.cc:162-308 | one pass of the writing thread is a sequence of steps of the protocol; the reply leaves the queue iff it was written whole, which it is unless a call of write fails |
| `Rdma.BuildChain` | pocld/peer.cc:198-212 | the chain is the pieces in order and then the command |
| `Rdma.PiecesTile` | pocld/peer.cc:198-211 | the pieces tile the data, each starting where the one before ends, on both sides, and none longer than 2^31; no data is one request without entries |
| `Rdma.AllTransferred` | pocld/peer.cc:198-211 | the pieces together are exactly the data, of any size |
| `Rdma.LoopEnds` | pocld/peer.cc:204 | the loop ends iff the size is at most 2^64 - 2^31 |
| `Rdma.ChainAppends` | pocld/rdma.cc:359-366 | chaining appends at the end |
| `Rdma.AllEntriesCount` | pocld/rdma.cc:335-357 | no entry is dropped, since a length of zero stands for 2^31 |
| `Rdma.LengthField` | pocld/peer.cc:198-207 | the 32-bit field decodes to the length of the piece |
| `Daemon.Reap` | pocld/daemon.cc:984-1009 | swap-and-pop removes exactly the dropped connections; every other one keeps its own request, none is added, and the listening sockets stay in place |

## Left out

- HASH_SELECT, HASH_CLEAR, iteration and counting macros of `include/uthash.h`: easy members, or a second hash handle in the same element.
- Hash functions of `include/uthash.h`: the hash is an arbitrary function of the key; the 32-bit width of counters is not modelled.
- The head pointer and the UT_hash_table it leads to are one object; hho offsets and signatures are not modelled.
- The build of `include/uthash.h` in which a failed allocation is fatal, and the freeing of memory: allocation outcomes are parameters of the recoverable build.
- HashRuns.Run: an element is added only if its key is not there, since unique keys are the application's duty; adds of a repeated key are covered by the operations one by one.
- List macros of `include/utlist.h` other than the sorts: easy members.
- LL_CONCAT_ATOMIC of `include/utlist_addon.h`: a variant of the append that is modelled.
- The option loop of `pocld/cmdline.c` beyond the codes it receives, and the environment variable that turns permutation off.
- Reader.Request.Read: covers bodies that fit RequestMsg_t and fill patterns within the asserted bound, and memory that holds a whole message; the layout is that of a little-endian build without RDMA, and payload sizes of 2^64 - 1 bytes are not considered.
- Reader.Request.ReadBody: covers bodies that fit RequestMsg_t, as above.
- The loop of Request::readFull: its result is that of the first call when the memory holds a whole message.
- Timestamps, logging, tracing, traffic metering, sockets, polling, session setup and peer handshakes.
- Migration.Server.Export: buffers only; images, failed exports and the RDMA and SVM builds are left out, and the buffer's content is read at one point in time.
- Migration.Server.Import: buffers only; images are left out.
- Per-command dispatch in `pocld/cmd_queue.cc`: thin calls into OpenCL.
- Scheduler.RunInv: the event map gives different ids different events, as cl_event handles do; one queue is modelled.
- ReplyQueue.Delivery: the RDMA reply thread, exit requests and the notice of an event to the other servers are left out; the header of a reply is any function of the reply and the time of writing.
- Rdma.BuildChain: remote addresses are natural numbers; posting and completion are left out.
- Daemon.Reap: accepting and polling are left out; connections are known by number.
