# Models and proofs for the algorithm-training repository

Four parts, each a model of one group of source files together with proofs about it.

**The hash database** (`database/db.c`). An index file holds a free-list head, 137 chain heads and
variable-length records; a data file holds the values. The model is built in layers:

* `DbFormat` - the byte format of pointers and index records, and the reader that parses them back;
* `DbDisk` - files of bytes as the exact encoding of pointer cells, records and data;
* `DbIndex` - the chains and the free list as a structure over the records: every record on exactly
  one list or held by one handle, every list ending in 0, live keys unique, data of different records
  apart; and what each single write does to that structure;
* `DbSteps`, `DbScan`, `Db` - the class `Handle` with the fields of `DB` and the two files; every
  operation is a method over those bytes, proved against a map from strings to strings, for every key
  and value and up to the point at which it stops its program;
* `DbLocks`, `DbLocksInv`, `DbLocksProof`, `DbLocksWrites`, `DbLocksRuns` - any number of handles, one
  system call at a time, under the chain, free-list and append locks, and the invariant every run keeps;
* `DbLocksHistory` - every run is as if the operations had been made one at a time, each exactly once;
* `DbLocksAnswers` - what each operation of a run answers, told from the stores and deletions before it;
* `DbLocksFiles` - the bytes the moves of a run write, and that they encode records, pointers and data
  at every moment.

**The red-black tree** (`rbtree/rbtree.c`). `RbModel` has trees and contexts as values, `RbShape` the
heap of nodes that holds them, `RbInsert`, `RbDelete` and `RbSplice` one lemma for each case of the two
fix-ups and of taking a node out, and `RbTree` the class whose methods rewrite the nodes, shared
sentinel included.

**The thread pool** (`thread_pool/thread_pool.hpp`). `ThreadPool` is a state machine of any number of
appending and working threads, with waits that may fail.

**Algorithms** (`leetcode/*.cpp`). `CycleStart`, `MinWindow`, `Median`, `Rotated`, `Stabbing`,
`QueueOrder` and `Quickselect`, each a method with the source's loops against an independent statement
of what it finds. `Sorting` says what the library sort does.

Places where the code does something else than one would expect:

* `test4` adds the two middle elements as 32-bit numbers, so its result is the median exactly when the
  count is odd or that sum fits (`Median.FindMedian`). For two vectors that each hold 2147483647 the
  result is -1 (`Median.SumOverflows`).
* `Append` of the thread pool lets the queue grow to one request more than its maximum
  (`ThreadPool.Refused`, `ThreadPool.OneTooMany`). Since the result of `Wait` is not looked at, a failed
  wait can make a later worker find an empty queue, whatever the maximum (`ThreadPool.TokenForNothing`);
  without failed waits that cannot happen (`ThreadPool.TokenFindsWork`).
* `test406` puts two equal people into an order in which a count is wrong (`QueueOrder.EqualPeople`);
  then no order is right (`QueueOrder.Reconstruct`, `QueueOrder.Rebuildable`).
* `db_store` accepts a key that holds the separator `:`. From then on every fetch, store and deletion on
  that key's chain stops its program, for innocent keys too, and on no other chain
  (`Db.SeparatorStops`, `Db.Handle.Store`, `DbSteps.JamsOnly`, `DbSteps.JammedForever`).
* `db_store` deletes a value before it appends one of another length. If the append stops the program,
  because the record does not fit or the index file has grown too long, the key has lost its value
  (`Db.ReplaceLoses`, `Db.Handle.Store`). In the second case the new record is in the file, where only a
  scan finds it (`DbScan.ScanComplete`).

## Model

| member | source | states |
|---|---|---|
| DbFormat.Hash | database/db.c:252-260 | the chain of a key is one of 137 |
| DbFormat.HashIsSum | database/db.c:252-260 | the hash is the full sum of signed bytes times their indices, wrapped once to 64 bits, modulo 137: wrapping at every step changes nothing |
| DbFormat.HashValues | database/db.c:252-260 | `ab` hashes to 98, and a key whose second byte is 200, a negative char, to 4 |
| DbFormat.AtolOfPadded | database/db.c:276-276 | a number written right-aligned with spaces into a field is read back from it |
| DbFormat.PointerRoundTrip | database/db.c:496-507 | every pointer up to 999999 fills its seven bytes exactly and is read back as it was |
| DbFormat.FormatSize | database/db.c:463-468 | the formatted record is as long as its length field and body say |
| DbFormat.RoundTrip | database/db.c:286-335 | what the writer formats, the reader parses back to the same pointer, key, data offset and length, wherever it lies in the file, if and only if the key holds no separator; otherwise the reader stops the program |
| DbFormat.RecordBytes | database/db.c:463-468 | the bytes of the record of `beta` with pointer 967, data offset 6 and data length 14, and of a pointer 0 |
| DbDisk.ReadCellBack | database/db.c:269-277 | reading any chain head, the free-list head or a record's pointer field yields the pointer stored there |
| DbDisk.ReadRecBack | database/db.c:286-335 | reading the index file at any record yields that record and the offset behind it, or stops the program if its key holds a separator |
| DbDisk.ReadEnd | database/db.c:301-304 | at the end of the index file, and at no record, the reader reports the end |
| DbDisk.ReadExtBack | database/db.c:343-352 | at a record's data offset lie its value and a newline |
| DbDisk.WriteRecBack | database/db.c:455-487 | a record appended, or written over one of the same length, leaves the index file a gap-free run of well-formed records with just that one changed |
| DbDisk.WriteCellBack | database/db.c:496-507 | writing a pointer changes that pointer and nothing else the file holds |
| DbDisk.WriteExtBack | database/db.c:421-444 | data appended, or written over data of the same length, leaves all other values in place |
| DbDisk.SameSize | database/db.c:402-402 | a record with a key of the same length and the same data offset and length takes as many bytes |
| DbDisk.EmptyHolds | database/db.c:120-130 | the initial header is the encoding of 138 empty lists and no record |
| DbIndex.LiveOnChain | database/db.c:234-242 | a key is live exactly when a member of its hash's chain has it, and that member is its record |
| DbIndex.CellsDistinct | database/db.c:377-411 | no two links of any lists are kept in the same cell, so a write to one changes no other |
| DbIndex.TakeFree | database/db.c:595-609 | letting the cell before a free record point past it takes exactly that record off the free list and keeps the whole structure |
| DbIndex.PutFirst | database/db.c:539-544 | a private record whose pointer is the old head becomes first of a list by one write of the head |
| DbIndex.Detach | database/db.c:399-402 | blanking a live record breaks exactly the link at its place and leaves all other lists intact |
| DbIndex.Relink | database/db.c:407-408 | writing the saved pointer into the cell before it mends that link |
| DbIndex.WriteHeld | database/db.c:542-543 | writing a private record anew leaves the structure intact |
| DbIndex.WriteData | database/db.c:565-565 | writing data of the same length leaves the structure intact |
| DbSteps.DeleteSteps | database/db.c:377-411 | the four writes of a deletion, in order, are each possible, and together remove exactly the record's key from the map and make the record the first free one |
| DbSteps.UnlinkStep | database/db.c:603-609 | taking a free record changes neither the map nor any chain head |
| DbSteps.StoreSteps | database/db.c:536-544 | data, record and chain head written in this order add exactly the key with its value, for new records and for reused ones; a key with a separator comes first on its chain |
| DbSteps.StrandSteps | database/db.c:536-539 | data and record written without the chain head change no list and not the map; the record is on no list |
| DbSteps.OverwriteStep | database/db.c:564-567 | data of the same length written over a live record's gives its key the new value and changes no other |
| DbSteps.FrontStops | database/db.c:233-241 | a walk along a chain is stopped at its first record, exactly when a key with a separator is live on that chain, and at no later one |
| DbSteps.JamsOnly | database/db.c:509-575 | storing a key with a separator jams exactly its own chain; other stores, and deletions, jam none |
| DbSteps.JammedForever | database/db.c:216-243 | over any number of operations a jammed chain stays jammed, and its keys and values stay what they are |
| DbSteps.LineLength | database/db.c:463-466 | the limits on a record and the bytes it takes, from the lengths of key and decimal numbers |
| DbSteps.FreedRecord | database/db.c:402-405 | the deleted record is the first of the free list and has key and data as long as before |
| DbScan.EntriesUnfold | database/db.c:635-648 | reading on from a record meets its entry, unless its key is blank, and then the rest |
| DbScan.ScanComplete | database/db.c:617-655 | the records in file order give every live key that is not all spaces, with its value, the records that are on no list, and nothing else; each key once if all records are on lists |
| DbScan.VisibleShown | database/db.c:641-644 | every live key with a character other than a space is among the entries, and every entry has such a character |
| Db.Handle.constructor | database/db.c:114-135 | a new database holds the empty map in an index file that is just the header and an empty data file, and the handle stands at the first record |
| Db.Handle.Open | database/db.c:97-135 | a handle opened on the files another one left, stopped or not, has the same map and stands at the first record |
| Db.Handle.ReadPtr | database/db.c:269-277 | the pointer stored at the offset |
| Db.Handle.ReadIdx | database/db.c:286-335 | all fields of the handle describe the record read; offset 0 reads on from the current position and reports the end; a key with a separator, and nothing else, stops the program |
| Db.Handle.ReadDat | database/db.c:343-352 | the record's value |
| Db.Handle.WriteDat | database/db.c:421-444 | in place or at the end of the file, exactly one datum changes, and the handle knows its place and length |
| Db.Handle.WriteIdx | database/db.c:455-487 | in place or at the end of the file, exactly one record changes, and the handle knows its place; a pointer too large or a line of unfit length stops the program with nothing written |
| Db.Handle.WritePtr | database/db.c:496-507 | exactly one pointer changes, and no length; a pointer too large stops the program with nothing written |
| Db.Handle.FindAndLock | database/db.c:216-243 | the walk starts at offset 7 + 7 times the hash and ends: stopped exactly if the chain has a live key with a separator; otherwise 0 exactly for a live key, with its record in the handle's fields and the cell that points to it, and -1 for the others |
| Db.Handle.FindFree | database/db.c:585-614 | 0 exactly if a free record has a key and data as long as wanted; the record found has, and it is off the free list and nothing else has changed; never stopped |
| Db.StoreCases | database/db.c:509-575 | the codes 0, 1 and -1 and the new map, case by case over flag and presence of the key |
| Db.Handle.HaltsWhen | database/db.c:509-575 | a store is stopped exactly for a valid flag and data shorter than 1 or longer than 1023, a live key with a separator of the same hash, or an append with the index file past 999999 or a line outside 6 to 1024 |
| Db.Handle.Fetch | database/db.c:192-206 | the key's value, or nothing for a key that is not live; stopped exactly on a jammed chain |
| Db.Handle.Erase | database/db.c:382-402 | value and key are overwritten with spaces, the record points to the old first free record, and neither file changes its length |
| Db.Handle.DoDelete | database/db.c:377-411 | the key leaves the map, no other key does, and neither file changes its length |
| Db.Handle.Delete | database/db.c:361-375 | 0 and the key is gone, with a free record of its lengths left behind, or -1 and nothing has changed; stopped, with nothing changed, exactly on a jammed chain |
| Db.Handle.Append | database/db.c:536-539 | a key that was not live gets its value by data and record at the ends of the files, which grow by just these; stopped, with the same map, exactly if the index file has grown too long or the record does not fit |
| Db.Handle.Reuse | database/db.c:542-544 | a key that was not live gets its value in a record taken off the free list; no file grows |
| Db.Handle.StoreNew | database/db.c:534-550 | a key that was not live is stored exactly if a free record fits or an append has room; otherwise the map is as before |
| Db.Handle.StoreAnew | database/db.c:557-563 | a live key gets a value of another length exactly if an append has room; otherwise the key is gone |
| Db.Handle.Store | database/db.c:509-575 | for every key, value and flag: stopped exactly for a value of unfit length, on a jammed chain, or when it has to append without room; otherwise a live key under replace or store, and a missing one under insert or store, gets exactly the new value and the call returns 0; an insert of a live key returns 1, a replacement of a missing one and any other flag -1, and the map stays; a store that stops changes the map only where it had to append, and then only by losing the key; both files grow by exactly what an append writes, not at all if a free record fits a new key, and all invariants hold again |
| Db.SeparatorStops | database/db.c:509-575 | the key `:b` is stored with 0, and then fetching it, or the key `ab` of the same chain, stops the program |
| Db.ReplaceLoses | database/db.c:557-563 | a key of 1019 characters is stored with one character, replacing that by nine stops the program, and then the key is not found |
| Db.Handle.Rewind | database/db.c:617-625 | the handle stands at the first record |
| Db.Handle.NextRec | database/db.c:627-655 | the first of the entries still to come, whose key has a character other than a space, all records passed over having spaces only; nothing when there is none; stopped exactly if that entry's key holds a separator |
| Db.Handle.ReadAll | database/test.c:5-12 | rewinding and reading on gives the entries in file order, or is stopped exactly if one of them has a key with a separator |
| Db.Handle.ScanAll | database/test.c:5-12 | ends; it is stopped exactly if a live key, or one of a record on no list, holds a separator; otherwise it gives every live key that has a character other than a space, with its value, and no key without one; besides these only records on no list, and if there are none each key once |
| Db.StoreThenFetch | database/db.c:509-575 | after a store that returned 0 a fetch of the key gives the data stored, and a fetch of any other key gives what it gave before |
| Db.Recycle | database/db.c:585-614 | deleting a key and storing a new one with a value, both as long as the old ones, succeeds and leaves both files as long as they were |
| DbLocksInv.LocalStable | database/db.c:216-243 | what a handle knows about records, pointers and its place stays true while the records, lists and keys its locks cover are left alone |
| DbLocksInv.FrameUndisturbed | database/db.c:216-243 | a move of another handle, whose locks exclude this one's, leaves them alone |
| DbLocksProof.MissGood | database/db.c:234-242 | a walk that ends without a hit, its chain locked, has shown that the key is not in the map |
| DbLocksWrites.BlankGood | database/db.c:394-394 | overwriting a record's data with spaces, its chain and the free list locked, keeps the shared structure and disturbs nobody |
| DbLocksWrites.EraseGood | database/db.c:402-402 | so does blanking the record while its chain still points to it |
| DbLocksWrites.FreeGood | database/db.c:405-405 | so does making it the first free record |
| DbLocksWrites.CloseGood | database/db.c:408-408 | so does closing the chain behind it |
| DbLocksWrites.TakeGood | database/db.c:606-606 | so does taking a fitting record off the free list |
| DbLocksWrites.RedataGood | database/db.c:542-542 | so does writing the data of a private record |
| DbLocksWrites.RerecGood | database/db.c:543-543 | so does writing a private record anew, and the new record takes exactly the bytes of the old one |
| DbLocksWrites.AppendDataGood | database/db.c:430-439 | so does appending data with the data file locked |
| DbLocksWrites.AppendRecGood | database/db.c:474-482 | so does appending a record with the record area locked; that the bytes join the run without a gap is `DbLocksFiles.FilesKept` |
| DbLocksWrites.LinkGood | database/db.c:544-544 | so does making the record first of its chain, the moment a plain store takes effect |
| DbLocksRuns.LockFindsOrder | database/db.c:223-230 | when a chain's lock can be taken, nobody has that chain broken or the key half stored |
| DbLocksRuns.RunKeeps | database/db.c:509-575 | every state of every run keeps the invariant of chains, free list, data, locks and all handles; the bytes follow in `DbLocksFiles.FilesKept` |
| DbLocksHistory.Linearizable | database/db.c:509-575 | in every run the map is the one that the log of effects builds up, and every outcome is the one that map calls for; for each handle the log has exactly the operations it began, each once and in order, but for the last while that is still to take effect; each takes effect between its beginning and its end; nothing else is in the log; no handle is stopped by an unreadable record or pointer |
| DbLocksAnswers.SpecCases | database/db.c:509-575 | answer and new map of one operation, with literal codes and flags |
| DbLocksAnswers.Answers | database/db.c:192-206 | in every run each answer follows from the entries before it: a fetch gives exactly the data of the last store of its key that returned 0 and was not followed by a deletion or store that returned 0, and nothing if there is none; a deletion returns 0 exactly if there is one, an insertion 1 and a replacement -1 exactly when they must; the map is what fetches would give now |
| DbLocksAnswers.LogKept | database/db.c:509-575 | answers once given stay as they are, in their order |
| DbLocksAnswers.TakesEffectInside | database/db.c:223-230 | an operation that has taken effect has its entry, with the right answer, behind everything logged when it began |
| DbLocksRuns.AtWorkAlone | database/db.c:223-230 | on one chain only fetches are at work together; one handle at a time changes the free list or appends data |
| DbLocksRuns.TogetherAtWork | database/db.c:223-230 | handles on different chains, and fetches on the same one, do hold their locks at the same time in some run |
| DbLocksRuns.TakesFirstFit | database/db.c:595-609 | in every run a store takes the first free record that has a key and data as long as its own, and goes on to append exactly if there is none |
| DbLocksRuns.FetchReadsCurrent | database/db.c:192-206 | a fetch that holds its chain's read lock reads the value its key has in the map at that moment, and gives back that value |
| DbLocksRuns.RecordsAccounted | database/db.c:377-411 | at every moment each record is on its key's chain, on the free list, or private to one handle, and on no two of these; only a handle with both locks has a list whose pointers do not spell out its members |
| DbLocksFiles.FilesKept | database/db.c:455-487 | in every run, while no append has stopped its program, the bytes the moves have written are at every moment exactly the encoding of all pointers, records and data: no write overruns its neighbour, and both files end where the next append begins |
| DbLocksFiles.ReadsBytes | database/db.c:269-335 | so at every moment of a run every record, pointer and datum reads back from those bytes as stored |
| DbLocksFiles.QuietIsSettled | database/db.c:572-574 | when no operation is under way, structure, map and - while no append has stopped its program - both files to the byte are in a state one handle alone could leave |
| RbModel.Node.Create | rbtree/rbtree.c:24-34 | a new node is linked to the sentinel on all sides |
| RbModel.HeightBound | rbtree/rbtree.c:310-322 | height and size of a red-black tree in terms of its black height |
| RbModel.BalancedHeight | rbtree/rbtree.c:310-322 | a red-black tree of height h has at least 2^(h/2) - 1 nodes |
| RbModel.PlugRB | rbtree/rbtree.c:186-229 | a subtree that is in order, in a context that asks for its black height, makes a tree that is in order |
| RbModel.NarrowDown | rbtree/rbtree.c:313-317 | a step down by comparison leaves the key nowhere but below |
| RbModel.PutInMap | rbtree/rbtree.c:248-255 | a pair put where its key belongs extends the sorted sequence and the map by just that key |
| RbModel.DropFromMap | rbtree/rbtree.c:340-352 | a pair taken out leaves a sorted sequence and the map without just that key |
| RbShape.Rotate | rbtree/rbtree.c:59-105 | the pointer writes of a rotation, in either direction, turn the tree at that place, keep all parent links, and leave the sentinel as it was |
| RbShape.LinksInside | rbtree/rbtree.c:59-105 | links of the tree's nodes lead to nodes of the tree or the sentinel, and children know their parents |
| RbShape.HangIn | rbtree/rbtree.c:248-255 | a new node hung in at an empty place becomes part of the tree there |
| RbInsert.RedUncle | rbtree/rbtree.c:190-196 | red uncle: the recolouring moves the one possible fault to the grandparent |
| RbInsert.InnerChild | rbtree/rbtree.c:199-202 | inner grandchild: the rotation makes it an outer one and leaves the sequence as it is |
| RbInsert.OuterChild | rbtree/rbtree.c:204-206 | outer grandchild: recolouring and one rotation leave nothing broken |
| RbDelete.RedSibling | rbtree/rbtree.c:119-125 | red sibling: afterwards the sibling is black, the parent red, and the place as short as before |
| RbDelete.PassUp | rbtree/rbtree.c:127-130 | two black nephews: the sibling turns red and the parent's subtree is the short one |
| RbDelete.InnerNephew | rbtree/rbtree.c:132-137 | black outer nephew: afterwards the outer nephew is red |
| RbDelete.OuterNephew | rbtree/rbtree.c:139-144 | red outer nephew: afterwards the whole tree is in order |
| RbDelete.Blacken | rbtree/rbtree.c:176-176 | blackening the node where the loop ends leaves a red-black tree with a black root |
| RbSplice.SpliceOut | rbtree/rbtree.c:334-347 | linking the only child, or the sentinel, in the node's place keeps the tree without that node |
| RbSplice.SplicedRB | rbtree/rbtree.c:354-356 | taking out a red node breaks nothing; taking out a black one leaves its place one black node short |
| RbSplice.SuccessorDrop | rbtree/rbtree.c:349-352 | with the minimum of the right subtree taken out and its pair put in the upper node, exactly the upper node's old pair is gone; the minimum has the least key above it |
| RbTree.RbTree.constructor | rbtree/rbtree.c:44-50 | an empty tree whose root is the sentinel |
| RbTree.RbTree.Closed | rbtree/rbtree.c:59-105 | in a valid tree every link of a node stays in the tree and parent and child links agree, so a node that has left it is not reachable |
| RbTree.RbTree.Balanced | rbtree/rbtree.c:310-322 | a way down of d nodes means at least 2^(d/2) - 1 keys |
| RbTree.RbTree.Reached | rbtree/rbtree.c:310-322 | every place in the tree lies no deeper than its height, and d steps down mean at least 2^(d/2) - 1 keys |
| RbTree.RbTree.RotateLeft | rbtree/rbtree.c:59-77 | exactly the pointers of a left rotation change, and one rotation is counted |
| RbTree.RbTree.RotateRight | rbtree/rbtree.c:86-105 | exactly the pointers of a right rotation change, and one rotation is counted |
| RbTree.RbTree.InsertFixup | rbtree/rbtree.c:186-229 | the loop ends after at most two calls of the rotations with a red-black tree of the same sequence and the same nodes |
| RbTree.RbTree.Search | rbtree/rbtree.c:310-322 | the key's node, or the sentinel exactly when there is none; the nodes passed form the way from the root, each left for the child on the key's side; d nodes passed mean at least 2^(d/2) - 1 keys, fewer than 1023 keys fewer than 20 nodes |
| RbTree.RbTree.Insert | rbtree/rbtree.c:232-258 | a new key joins the map with its value, wrapped to 32 signed bits and unchanged below 2^31, in at most two rotations; a present one keeps its old value, no node changes and nothing is rotated; all invariants hold again |
| RbTree.RbTree.Mini | rbtree/rbtree.c:267-272 | the node of the subtree that has no left child, reached by left steps only |
| RbTree.RbTree.Victim | rbtree/rbtree.c:325-338 | the node with the key and the node to take out, itself or the minimum of its right subtree, which has the least greater key |
| RbTree.RbTree.DeleteFixup | rbtree/rbtree.c:114-177 | the loop ends after at most three calls of the rotations with a red-black tree of the same sequence and the same nodes, also when it starts at the sentinel |
| RbTree.RbTree.Delete | rbtree/rbtree.c:325-360 | exactly the key leaves the map in at most three rotations, all invariants hold again, and the node returned has left the tree; it still holds key and value of the removed entry, or of the next greater key |
| ThreadPool.RunKeeps | thread_pool/thread_pool.hpp:93-127 | every state of every run keeps the accounts of requests and tokens and the lock |
| ThreadPool.Conserved | thread_pool/thread_pool.hpp:93-104 | popped and queued requests together are the accepted ones in their order, and at most one more than the maximum is queued |
| ThreadPool.HandledOnce | thread_pool/thread_pool.hpp:119-125 | a popped request that is not null was processed or is in the hands of exactly one worker; null ones are never processed |
| ThreadPool.MutualExclusion | thread_pool/locker.h:55-61 | two threads are never both between lock and unlock |
| ThreadPool.Refused | thread_pool/thread_pool.hpp:94-98 | a request is turned away exactly when one more than the maximum is queued |
| ThreadPool.TokensPaid | thread_pool/thread_pool.hpp:114-121 | in every run, failing waits included: queue length and pops without a token balance semaphore, tokens on the way, tokens spent on nothing and lost posts; tokens are spent on nothing no more often than waits failed and a pop followed |
| ThreadPool.TokenFindsWork | thread_pool/thread_pool.hpp:114-118 | while waits succeed no worker finds the queue empty, and in a pool smaller than the semaphore's limit no post is lost |
| ThreadPool.NoDeadlock | thread_pool/thread_pool.hpp:112-127 | while a request is queued, a worker is alive and no post was lost, some thread can move |
| ThreadPool.InOrder | thread_pool/thread_pool.hpp:100-120 | requests are accepted only by a push at the back, popped only from the front, and neither record is ever rewritten |
| ThreadPool.LooksAtStop | thread_pool/thread_pool.hpp:113-113 | at the top of its loop a worker leaves if the pool is stopped, and waits if not |
| ThreadPool.NeverWaitsAgain | thread_pool/thread_pool.hpp:113-113 | in every run, once the pool is stopped a worker back at the top never waits again, and who has left stays away |
| ThreadPool.LeavesOnlyStopped | thread_pool/thread_pool.hpp:113-113 | in every run no worker has left unless the pool was stopped |
| ThreadPool.OneTooMany | thread_pool/thread_pool.hpp:95-95 | for every maximum there is a run that queues one request more |
| ThreadPool.Served | thread_pool/thread_pool.hpp:93-125 | whatever the maximum, there is a run in which a request handed in is popped and processed |
| ThreadPool.TokenForNothing | thread_pool/thread_pool.hpp:114-118 | for every maximum there is a run in which one wait fails and a worker with a token then finds the queue empty |
| CycleStart.Meeting | leetcode/double_pointer.cpp:58-63 | on every list the two pointers meet, or both are past the end, after some number of rounds |
| CycleStart.SameRound | leetcode/double_pointer.cpp:64-68 | the distance walked when the pointers met brings every node of the cycle back to itself |
| CycleStart.DetectCycle | leetcode/double_pointer.cpp:56-70 | ends on every list; null exactly if the list ends, otherwise the first node of the walk that lies on the cycle |
| MinWindow.MatchedAll | leetcode/double_pointer.cpp:89-89 | the matched count reaches the length of t exactly when the window covers t |
| MinWindow.TakeIn | leetcode/double_pointer.cpp:86-88 | taking a character in keeps table and count true to the window |
| MinWindow.GiveUp | leetcode/double_pointer.cpp:94-96 | so does giving one up |
| MinWindow.Shrink | leetcode/double_pointer.cpp:89-97 | the inner loop ends at a window that does not cover and misses no shorter covering stretch |
| MinWindow.Shortest | leetcode/double_pointer.cpp:77-101 | the shortest stretch of s that holds every character of t as often as t does, the leftmost of that length; "" exactly for an empty t or when no stretch does |
| Median.CutMiddle | leetcode/dichotomy.cpp:145-165 | at a cut that neither test rejects, the greatest element on the left and the smallest on the right are the middle of all elements sorted |
| Median.FindMedian | leetcode/dichotomy.cpp:137-173 | for an odd count the middle element, for an even one half the 32-bit sum of the middle two: the median if and only if the count is odd or that sum fits into 32 bits; the last return is not reached and all indices are in range |
| Median.MedianOfAll | leetcode/dichotomy.cpp:137-173 | the median of all elements is, in any ascending arrangement of them, the middle one or halfway between the middle two |
| Median.MedianIff | leetcode/dichotomy.cpp:169-169 | half the wrapped sum of the middle two is the median if and only if the sum fits into 32 bits |
| Median.CutMedian | leetcode/dichotomy.cpp:157-169 | the median of an odd count is the greatest element left of the cut, and of an even one both neighbours of the cut are the middle two |
| Median.SumOverflows | leetcode/dichotomy.cpp:169-169 | for [2147483647] and [2147483647] the formula gives -1 where the median is 2147483647 |
| Rotated.RotationsHavePivots | leetcode/dichotomy.cpp:87-113 | the vectors the two searches are for are exactly the rotations of sorted ones |
| Rotated.Minimum | leetcode/dichotomy.cpp:87-113 | the minimum of every rotated vector, duplicates included; the early return is not reached |
| Rotated.Contains | leetcode/dichotomy.cpp:64-85 | true exactly if the target occurs |
| Sorting.SortSorts | leetcode/greedy_algorithm.cpp:26-31 | sorting by a total order yields the same elements in order |
| Sorting.SortIs | leetcode/greedy_algorithm.cpp:26-31 | and is the only such arrangement |
| Stabbing.OnePointEach | leetcode/greedy_algorithm.cpp:35-38 | intervals that lie apart need a point each |
| Stabbing.StabsMeans | leetcode/greedy_algorithm.cpp:22-45 | a set of points hits the intervals exactly if each has a point between its ends, the ends included |
| Stabbing.FewestPoints | leetcode/greedy_algorithm.cpp:22-45 | so many points hit every interval, and no fewer do |
| QueueOrder.InsertQueue | leetcode/greedy_algorithm.cpp:89-91 | an insertion gives its person the right count and spoils nobody's |
| QueueOrder.TallCounts | leetcode/greedy_algorithm.cpp:79-93 | the count of a person's height is the number of positions with people at least that tall |
| QueueOrder.RebuildQueue | leetcode/greedy_algorithm.cpp:79-93 | people who differ and fit end in an order in which every count is right |
| QueueOrder.OnlyQueue | leetcode/greedy_algorithm.cpp:79-93 | an order in which every count is right is the rebuilt one, and shows that the people differ and fit |
| QueueOrder.Rebuildable | leetcode/greedy_algorithm.cpp:79-93 | an order with right counts exists if and only if the people differ and no count exceeds the sorted position |
| QueueOrder.Reconstruct | leetcode/greedy_algorithm.cpp:79-93 | a permutation in which all counts are right if and only if the people differ; no other order has all counts right |
| QueueOrder.EqualPeople | leetcode/greedy_algorithm.cpp:79-93 | two people of the same height with nobody in front fit, and are put into an order in which a count is wrong |
| Quickselect.Pass | leetcode/sort.cpp:14-21 | one pass moves the hole right and back, keeps the elements, and brings the ends closer |
| Quickselect.Partition | leetcode/sort.cpp:9-24 | for every random pivot: smaller elements before the returned index, no smaller ones behind it, the same elements as before and nothing outside the range touched |
| Quickselect.Select | leetcode/sort.cpp:26-38 | for every sequence of pivots the element that sorting would put at n - k |

## Left out

- System calls, errno, memory allocation, file modes and the success counters of `database/db.c`; the files are byte strings.
- Db.Handle.Store: a stopped program is an outcome of the call, and what its files then hold is what the next opened handle finds; that the operating system drops the program's locks is not part of the single-handle model.
- DbLocksHistory.Linearizable: speaks of records, not of bytes, and so of no length limits; it is for handles that lock each other out, as handles of different processes do, and for keys without a separator, since the first search of a chain that holds such a key stops its program.
- DbLocksFiles.FilesKept: is for runs in which every append so far met the limits on lengths and file size, because an append that does not stops its program in the middle of an operation.
- DbLocksRuns.RunKeeps: says nothing about progress, because the unlock after appending a record names a region behind the end of the file (`database/db.c:485`) and may leave the record area locked; the model allows both outcomes.
- Db.Handle.DoDelete: writes spaces for the key in a record it blanks, which is what the source means by passing its own buffer to `sprintf` (`database/db.c:402`, `database/db.c:463`); what overlapping buffers really do is undefined.
- Db.Handle.ScanAll: does not model other handles writing during a scan, and skips live keys that consist of spaces only, because the source takes them for deleted ones.
- Strings hold no terminator character, and keys are compared character by character; numbers too large for `atol` do not occur in files the model writes.
- RbModel.Node.Sentinel: the source leaves the sentinel's links unset; the model gives them a value, on which nothing relies.
- RbTree.RbTree.Delete: is for keys that are present; the source then frees nothing and does not define deleting an absent key, where it would take the sentinel for a node.
- The upward branch of `rbtree_successor`, which deletion does not use, `rbtree_maxi` and printing.
- ThreadPool.NoDeadlock: takes locking and unlocking as never failing, and says that some thread can move, not that the scheduler lets it; threads are created before the run begins, and destroying the pool is only its stop flag.
- CycleStart.DetectCycle: the list's nodes are a finite set given as a ghost parameter; null exactly when the walk ends holds for every such list.
- MinWindow.Shortest: is for characters below 128, the size of the source's table, and lengths below 2^31 - 1.
- Stabbing.FewestPoints: is for intervals whose start is not behind their end; that the source leaves its argument sorted is not modelled.
- QueueOrder.Reconstruct: takes the people as a value and is for counts that do not exceed the sorted position, beyond which the source inserts behind the end of its vector.
- The other functions of `leetcode`, `sort/sort.c`, `thread_pool/http_conn.cpp`, `process_pool`, `http` and `send_fd`. `FindIndex` of `sort/sort.c`, `test633` and the direction table of `leetcode/dfs.cpp` do not do what they are for; the merging, planting, partition and palindrome exercises would only add easier members.
