# Verified models of the CS 238P projects

Dafny models of five programs and proofs about them. Each file models one source
file; code that updates state in place is a class or a method over arrays, and is
proved against functions whose properties are proved beside it.

| file | models |
|---|---|
| `ring.dfy`, `ringsync.dfy` | the 32-slot write ring of `project-4/logfs.c` and its worker thread; its mutex and condition variables |
| `logfs.dfy` | the append-only log of `project-4/logfs.c` over that ring, a 256-line read cache and a current block |
| `kvraw.dfy` | the back-linked records of `project-4/kvraw.c` |
| `index.dfy` | the growing hash table of `project-4/index.c` |
| `kvdb.dfy`, `history.dfy` | the key/value store of `project-4/kvdb.c`, one call and whole sequences of calls |
| `avltree.dfy`, `avl.dfy` | the AVL multiset of `project-3/avl.c`, on values and in place |
| `scm.dfy` | the allocator of `project-3/scm.c` over one byte region |
| `parser.dfy`, `codegen.dfy` | the parser of `project-1/parser.c` and the translator of `project-1/main.c` |
| `scheduler.dfy` | the round-robin scheduler of `project-2/scheduler.c` |
| `bytes.dfy`, `arith.dfy`, `options.dfy` | bytes, little-endian words, division facts, optional values |

`dafny verify dfyconfig.toml` checks everything.

## Main results

- **Storage stack, a tower of refinements.** The log is one growing byte sequence for
  every interleaving with the worker (`LogFs.Log.Append`, `LogFs.Log.Read`); it is a
  sequence of records (`Kvraw`); the table is a map from hash values to chain heads
  (`Index`); following back-links visits exactly the records of one hash value, newest
  first (`Kvdb.FollowIsChain`); and the store is a plain map from keys to non-empty
  values, for any hash function, over any sequence of calls, exactly up to the first
  EXIT of the index, if there is one, or the call in which a push overtakes the worker
  (`History.Session`; from opening the device, `History.OpenAndServe`). A lookup in that
  map is answered by the last call that changed its key (`History.LastWriteWins`).
- **The ring, as written and as intended.** The worker gives its slot back
  (`project-4/logfs.c:99-101`) before it reads the slot's tag
  (`project-4/logfs.c:108-111`). The model keeps that order. If a push goes into the
  slot before the worker has read the tag, the block in its hands is gone for good; if
  it has, the block is late until its device write. Exactly these blocks cannot be read
  (`Ring.FetchableIffNotLost`, on a device that does not hold the data by accident;
  `Ring.GoneForGood`, `Ring.LateReturns`), and every byte of a block that is neither, and
  was not cached while it was, is always read right (`LogFs.Log.Read`). Over whole runs, reads
  are right in every state exactly if no push is made while 32 blocks are queued or in
  the worker's hands (`Ring.FetchableIffNeverOvertakes`; the direction from right reads
  to no such push assumes a device that does not hold the data already), such a push is
  reachable (`Ring.OvertakingHappens`), and runs of at most n pushes are all safe exactly
  if n is at most 32 (`Ring.SafePushes`). With `releasesLast` the producer counts the
  block in the worker's hands as still queued, which is a worker that gives its slot back
  after the device write; then no push overtakes it. `overtaken` records whether one
  has: `trace` keeps every step of producer and worker since opening, it is a run of the
  ring machine to the state the log is in, and `overtaken` holds exactly if that run makes
  such a push (`LogFs.Log.OvertakenExact`, `History.OpenAndServe`). Without one,
  `History.Session` tells the whole history for either worker.
- **Locks.** With lock, condition variables and program counters erased, every run of
  the two threads is a run of the ring machine (`RingSync.SyncRefinesRing`); the threads
  never both sleep.
- **AVL.** The in-place insertion and deletion compute functions that keep search
  order, balance and exact depths and change exactly one occurrence of one item; the
  choice of rotation by comparing with the child's item is always right
  (`AvlTree.RotationChoice`); the order is that of a dictionary (`AvlTree.LessLexical`);
  a search takes logarithmically many steps
  (`AvlTree.Logarithmic`).
- **Allocator.** The headers in the bytes determine one chunk list, the walk lands on
  the end of the used region, live payloads never change except by a client's write
  into them, and closing and opening again gives the same list.
- **Translator, end to end.** The parser accepts exactly its grammar, prints of trees
  parse back, and the emitted code passes the value of the expression to the callback
  (`CodeGen.Translate`).
- **Scheduler.** Between two turns of a job every other live job has exactly one
  (`Scheduler.FairWithin`), and `scheduler_execute` ends with an empty list after exactly
  the dispatches that the jobs need, and those they create while it runs, every one of
  these by itself (`Scheduler.Scheduler.Execute`).

## Where the code falls short of what it is for

- `project-4/logfs.c:99-111`: the order above. A block can be unreadable after an
  overtaking push (`Ring.OverrunLoses`).
- `project-4/logfs.c:182,187`: the tag 3 means "no block". If the block size divides 3,
  the scan takes a never filled slot for a block, and otherwise it never does
  (`Ring.TagClash`); an opened log is valid exactly in the second case.
- `project-4/index.c:83`: `key + i` wraps at 2^64, which need not be a multiple of the
  capacity, so probing can miss free slots and reach the EXIT of line 95. A table with a
  free slot never turns a key away if and only if key + capacity is at most 2^64 or the
  capacity divides 2^64 (`Index.NeverFullExact`); with at most u slots used it can if and
  only if the key's probing visits at most u slots (`Index.ExitExact`). It happens in a
  table filled from empty (`Index.WrapHappens`) and in a store (`History.StoreExits`), and
  it does not happen in a history whose hash values keep away from 2^64 by the largest
  capacity reached (`History.AllServed`).
- `project-4/kvraw.c:36,46`: sums of an offset near 2^64 wrap and pass the tests. The
  lookup then has a result of its own in the model. It has it if and only if the header
  reaches past 2^64, or lies inside the log and gives lengths that do (`Kvraw.AstrayExact`);
  in every log of less than 2^64 minus a key and a value only the first happens
  (`Kvraw.AstrayNearWrap`), and it does (`Kvraw.AstrayHappens`).
- `project-4/kvdb.c:247`: the assertion has `!!` where line 330 has `!`. The model takes
  the form of line 330, a buffer of any size including none.
- `project-3/avl.c:280`: the count is cut to an `int`. `Avl.Avl.AvlDelete` states
  exactly when `unique` is still right afterwards, and needs what line 286 asserts;
  `Avl.CutCountMisleads` has the tree on which it is not.
- `project-3/scm.c:140-143`: reuse does not add to `user_bytes`, though freeing subtracts.
  `lost` is the running difference, and `scm_utilized` gives the bytes in use if and only
  if `lost` is a multiple of 2^64 (`Scm.Scm.UtilizedExact`). Allocating, freeing and
  allocating one size leaves it in use and `scm_utilized` at 0 (`Scm.Drift`).
- `project-3/scm.c:147`: the check ignores the 24 bytes in front and can wrap.
  `Scm.CheckGap` gives exactly the sizes it lets through wrongly and `Scm.CheckFails` one;
  `Scm.CheckSound` says that it lets everything through that fits;
  `scm_strdup` has no check at all. A chunk that would reach past the region is the
  result `Beyond`, where the model stops.
- `project-2/scheduler.c:27-30`: `curr` is never set. The model starts from NULL.

## Model

| member | source | states |
|---|---|---|
| Ring.FindFrom | project-4/logfs.c:304-319 | the scan finds the first slot with the tag, or no slot has it |
| Ring.OpenedInv | project-4/logfs.c:170-189 | the ring as opened satisfies the protocol's invariant |
| Ring.TagClash | project-4/logfs.c:181-189 | in the opened ring no block is found, if and only if the block size does not divide 3 |
| Ring.PushKeeps | project-4/logfs.c:132-137 | a push keeps the invariant: head, tail and count are pushes, pops and their difference modulo 32, slot i holds the newest block congruent to i |
| Ring.TakeKeeps | project-4/logfs.c:94-101 | taking a block keeps it: the private copy is the oldest queued block |
| Ring.ReadTagKeeps | project-4/logfs.c:108-111 | reading the tag from the released slot keeps the invariant: it is the block's own, or that of the block 32 later exactly if a push took the slot |
| Ring.StoreKeeps | project-4/logfs.c:108-114 | the k-th device write has the contents of block k and, unless k is gone, goes to its own offset; every other place keeps what it had or gets a block gone astray |
| Ring.WorkerKeeps | project-4/logfs.c:67-116 | no worker step is out of bounds and each keeps the invariant |
| Ring.GrowKeeps | project-4/logfs.c:279-299 | appending leaves the blocks already pushed as they are |
| Ring.FindExact | project-4/logfs.c:304-319 | the ring search finds exactly the 32 newest blocks, each in its slot |
| Ring.FetchExact | project-4/logfs.c:345-353 | every complete block that is not lost is read back exactly, from ring or device |
| Ring.FetchableIffNotLost | project-4/logfs.c:345-353 | a complete block is read back if and only if it is neither gone nor late, unless the device or the block 32 earlier holds the same |
| Ring.OverrunLoses | project-4/logfs.c:99-111 | the first overtaking push leaves the block in the worker's hands findable nowhere |
| Ring.GoneForGood | project-4/logfs.c:99-114 | over every run what is gone stays gone, and whenever the worker holds nothing these are all the blocks that cannot be read |
| Ring.LateReturns | project-4/logfs.c:108-114 | a block overtaken after its tag was read can be read again after the worker's next step |
| Ring.OvertakingBreaks | project-4/logfs.c:99-137 | after such a push some block cannot be fetched |
| Ring.FetchableIffNeverOvertakes | project-4/logfs.c:67-144 | for every run: all blocks fetchable in every state if and only if no push is made with 32 blocks queued or in flight |
| Ring.OvertakingHappens | project-4/logfs.c:67-144 | from every state with an idle worker and room for the blocks, some run makes an overtaking push |
| Ring.FewPushes | project-4/logfs.c:67-144 | a run that ends with at most 32 blocks pushed never overtakes the worker |
| Ring.SafePushes | project-4/logfs.c:67-144 | from opening on, all runs of at most n pushes serve every read, if and only if n is at most 32 |
| Ring.TracedStep | project-4/logfs.c:67-144 | a recorded run goes on by any step that is possible, and then overtakes if it did or this step is an overtaking push |
| Ring.TracedGrows | project-4/logfs.c:279-299 | appending leaves the steps made so far a run, with the same overtaking pushes |
| Ring.TracedPush | project-4/logfs.c:132-137 | a push keeps the invariant and the record, and marks the run as overtaking exactly when it leaves a block unreadable that no push did before |
| RingSync.InvAlways | project-4/logfs.c:72-106 | mutual exclusion, bounds of the count and pending signals hold in every reachable state of both threads |
| RingSync.NeverBothAsleep | project-4/logfs.c:76-138 | a waiting producer means a full ring and a waiting worker an empty one once signals are delivered; never both wait |
| RingSync.NoDeadlock | project-4/logfs.c:72-140 | whenever there is work some thread can move without a spurious wakeup |
| RingSync.ProducerIsWoken | project-4/logfs.c:94-138 | a waiting producer is signalled within seven worker steps, all of them enabled |
| RingSync.StepAgrees | project-4/logfs.c:94-138 | every step of the two threads is one step of the ring machine or none, and the machine's guard holds |
| RingSync.ErasedIsRun | project-4/logfs.c:67-144 | every run with program counters and lock erased is a run of the ring machine with as many blocks queued at the end |
| RingSync.SyncRefinesRing | project-4/logfs.c:67-144 | the same from the opened ring |
| LogFs.ImageSlice | project-4/logfs.c:357-359 | a stretch of the log inside a block is that part of the block's image, whether complete or current |
| LogFs.StoreLine | project-4/logfs.c:273-277 | filling or dropping a cache line keeps the cache true to the log |
| LogFs.GrowCached | project-4/logfs.c:267-292 | once the current block's line is dropped, appending and completing blocks keep the cache true |
| LogFs.Log.constructor | project-4/logfs.c:154-189 | an opened log is empty, and valid if and only if the block size does not divide 3 |
| LogFs.Log.OvertakenExact | project-4/logfs.c:67-144 | the steps recorded since opening are a run of the ring machine from the opened ring to the present state, and `overtaken` holds if and only if that run makes an overtaking push |
| LogFs.Log.WorkerStep | project-4/logfs.c:67-116 | one worker step on the shared arrays is the ring machine's step |
| LogFs.Log.TakeSlot | project-4/logfs.c:94-106 | the worker's critical section on the shared arrays is the machine's |
| LogFs.Log.StoreBlock | project-4/logfs.c:108-114 | so is its device write |
| LogFs.Log.Interfere | project-4/logfs.c:146-152 | any number of worker steps keeps the ring valid, queues nothing and loses no block |
| LogFs.Log.Enqueue | project-4/logfs.c:132-137 | the critical section is the ring machine's push of the current block, one step more in the record |
| LogFs.Log.WriteToQueue | project-4/logfs.c:118-144 | waits for space, with the worker going on at will before the lock is held again, and pushes exactly one block, going on from the steps recorded before; it sets `overtaken` only if the push leaves a block unreadable, and then slots are released first and more than 32 blocks are complete |
| LogFs.Log.CheckInWcache | project-4/logfs.c:304-319 | returns the buffer of the first slot with the tag, or reports none |
| LogFs.Log.FetchBlock | project-4/logfs.c:345-353 | the bytes of a complete block that is not lost, from ring or device |
| LogFs.Log.Load | project-4/logfs.c:335-355 | afterwards the block's line holds its image, unless the block could not be read now or when it was cached |
| LogFs.Log.ReadMem | project-4/logfs.c:321-361 | returns the log's bytes of a stretch inside one block |
| LogFs.Log.Append | project-4/logfs.c:258-302 | the log grows by exactly the bytes given, over every interleaving with the worker; a push overtakes only if slots are released first and the log has reached 33 blocks |
| LogFs.Log.Invalidate | project-4/logfs.c:273-277 | the current block is not cached afterwards |
| LogFs.Log.Fill | project-4/logfs.c:280-284 | bytes copied into the current block extend the log |
| LogFs.Log.Flush | project-4/logfs.c:286-291 | a full block is pushed once and an empty one starts |
| LogFs.Log.Read | project-4/logfs.c:363-402 | every byte of a block that is not gone, late or cached while so is the one appended at its position; if no push has overtaken the worker, exactly bytes o to o+len of everything appended |
| Kvraw.MetaRoundTrip | project-4/kvraw.c:23-30 | a packed header decodes to its mark, link and lengths |
| Bytes.LeDigit | project-4/kvraw.c:23-30 | byte i of a packed number is its i-th digit to base 256, the lowest first |
| Kvraw.FoundExact | project-4/kvraw.c:32-52 | in terms of the log's bytes: exactly what is taken for a record, and the link, lengths, key and value then given |
| Kvraw.LookupOfRecord | project-4/kvraw.c:90-121 | a record read where it lies gives key and value cut to the buffers, full lengths and back-link |
| Kvraw.AstrayExact | project-4/kvraw.c:36-46 | a wrapped sum passes a test if and only if the header reaches past 2^64, or lies inside the log and gives lengths that do |
| Kvraw.AstrayNearWrap | project-4/kvraw.c:36-46 | in a log a key and a value away from 2^64, exactly the offsets whose header reaches past 2^64 |
| Kvraw.AstrayHappens | project-4/kvraw.c:36 | the offset 2^64 - 16 passes in every log |
| Kvraw.LayoutGrows | project-4/kvraw.c:145-152 | appending keeps the log a sequence of records end to end |
| Kvraw.OffsetsGrow | project-4/kvraw.c:139-152 | record offsets strictly increase and every real one is non-zero |
| Kvraw.RecordAt | project-4/kvraw.c:90-154 | every record ever appended decodes at its offset |
| Kvraw.Raw.constructor | project-4/kvraw.c:71-72 | opening writes the one-byte dummy record at offset 0 |
| Kvraw.Raw.Append | project-4/kvraw.c:123-154 | adds exactly one record with the link given, returns its offset, and size is the log's length |
| Kvraw.Raw.ReadMeta | project-4/kvraw.c:32-51 | succeeds exactly on a header with the mark whose record lies inside the log; both tests in 64-bit arithmetic |
| Kvraw.Raw.Lookup | project-4/kvraw.c:90-121 | the lookup function on the log's bytes, corrupt data and wrapped offsets included |
| Index.NotFoundNotStored | project-4/index.c:172-181 | a key is found if and only if it is stored somewhere |
| Index.InsertKeeps | project-4/index.c:84-88 | filling the free slot the probe ends in adds that key to the map and changes no other |
| Index.SetKeeps | project-4/index.c:114-115 | storing through the returned reference changes that key's offset only |
| Index.FullExact | project-4/index.c:82-96 | the probing loop runs out exactly if every slot it tries holds another key |
| Index.SlotUnwrapped | project-4/index.c:83 | without a wrap, or if the capacity divides 2^64, the i-th slot is (key + i) modulo the capacity |
| Index.SlotWrapped | project-4/index.c:83 | where the i-th slot lies when key + i wraps |
| Index.FullIffVisitedTaken | project-4/index.c:82-96 | a table turns a key away if and only if the slots below Low and from High on hold other keys |
| Index.FullNeeds | project-4/index.c:82-96 | turning a key away takes as many used slots as its probing visits |
| Index.ExitExact | project-4/index.c:82-96 | some valid table with at most u used slots turns the key away, if and only if its probing visits at most u slots |
| Index.NeverFullExact | project-4/index.c:82-96 | no valid table with a free slot turns the key away, if and only if key + capacity is at most 2^64 or the capacity divides 2^64 |
| Index.WrapFails | project-4/index.c:83-95 | an instance: a valid table of 363 with 214 keys, below the load that makes it grow, turns a key away |
| Index.PutKeeps | project-4/index.c:77-97 | an update keeps the table valid and adds exactly its key; EXIT needs as many used slots as are visited |
| Index.RebuildKeeps | project-4/index.c:112-117 | the rebuilt table is valid and holds exactly the stored keys; EXIT needs a stored key whose probing visits no more slots than are used |
| Index.EnteredKeeps | project-4/index.c:147-161 | the new capacity, used slots and keys of index_update, and which key is to blame for EXIT |
| Index.RebuildNone | project-4/index.c:99-122 | rebuilding exits if and only if, after the entries before it, some stored key finds every slot it visits taken |
| Index.EnteredNone | project-4/index.c:72-161 | an update exits if and only if that happens while rebuilding, or the key's own probing is full |
| Index.NoExit | project-4/index.c:147-161 | no EXIT if the key and the stored ones are at least the new capacity away from 2^64 |
| Index.ReachGrows | project-4/index.c:106-108 | how far growing can go while a given number of slots gets used |
| Index.WrapHappens | project-4/index.c:77-161 | 214 updates of an empty table lead to the crowded one, and the next exits |
| Index.MovedAll | project-4/index.c:112-117 | the rebuilt table gives every key the same offset |
| Index.Table.Update | project-4/index.c:77-97 | the slot of a present key, the first free probed slot taken for a new one, or EXIT with nothing changed |
| Index.Table.IndexUpdate | project-4/index.c:147-161 | returns the key's slot with its offset, 0 if new, and changes no other key's offset; EXIT exactly when the update on keys alone exits, and otherwise the slots are taken as it says |
| Index.Table.IndexLookup | project-4/index.c:163-182 | finds the slot of the key's hash exactly if the probe does |
| Index.Table.Grow | project-4/index.c:99-122 | keeps the map and the size, leaves a free slot, has the new capacity in numbers, and takes slots or exits exactly as rebuilding on keys alone does |
| Index.Table.Refill | project-4/index.c:112-117 | moves every entry once, or exits exactly when rebuilding on keys alone does |
| Kvdb.ReplayNewest | project-4/kvdb.c:136-200 | a key's value in the map the log stands for is that of its newest record, none if that is a tombstone |
| Kvdb.FollowIsChain | project-4/kvdb.c:38-101 | back-links from a hash value's head visit exactly its records, newest first |
| Kvdb.ChainMembers | project-4/kvdb.c:38-101 | the chain has exactly the offsets of the records with this hash value |
| Kvdb.ChainFalls | project-4/kvdb.c:38-101 | the chain's offsets strictly fall, newest first |
| Kvdb.LinkedGrows | project-4/kvdb.c:118-132 | appending with the old head as link and the new offset as head keeps every chain |
| Kvdb.ChainStep | project-4/kvdb.c:54-99 | one link down skips no record of the key, at a strictly smaller offset |
| Kvdb.OnMapLaws | project-4/kvdb.c:105-202 | when each mutator returns 0 and when 1, that 1 changes nothing, that 0 stores the value given or removes the key, and that no other key is touched |
| Kvdb.Db.constructor | project-4/kvdb.c:205-224 | a new store is the empty map |
| Kvdb.Db.Matches | project-4/kvdb.c:43-99 | the 8-byte check and the second read decide equality of the whole key |
| Kvdb.Db.ChainLookup | project-4/kvdb.c:26-103 | ends at the key's newest record, or at 0 if there is none, for any hash function |
| Kvdb.Db.Find | project-4/kvdb.c:115-132 | the key's entry, and whether the map has the key, with its value |
| Kvdb.Db.Put | project-4/kvdb.c:136-200 | one more record and its offset in the entry: the map with the key set or removed |
| Kvdb.Db.KvdbRemove | project-4/kvdb.c:237-250 | code, value given back, new map and waste are those of removal from a plain map |
| Kvdb.Db.KvdbInsert | project-4/kvdb.c:252-271 | code and new map of insertion into a plain map |
| Kvdb.Db.KvdbUpdate | project-4/kvdb.c:273-292 | new map of an update; waste grows exactly if the key was there |
| Kvdb.Db.KvdbReplace | project-4/kvdb.c:294-313 | code and new map of a replacement |
| Kvdb.Db.KvdbLookup | project-4/kvdb.c:315-355 | code and full length of a plain map's lookup; the whole value if the buffer takes it, else its first bytes; nothing changes |
| History.One | project-4/kvdb.c:237-355 | any one call answers as a plain map does, or exits exactly when the index does |
| History.Session | project-4/kvdb.c:237-355 | any sequence of calls: all replies and the contents are a plain map's, exactly up to the first EXIT, which is at a mutation that finds no slot, or the first call in which a push overtakes the worker, which is when the recorded run of the ring makes such a push; all calls are served if none does and no hash value is within the largest capacity of 2^64 |
| History.StopsAtExit | project-4/index.c:95 | a history that is not served to its end stops at a mutation for which the table left by the calls before it has no slot |
| History.AllServed | project-4/index.c:82-96 | a history is served to its end if no hash value, stored or entered, is within the largest capacity reached of 2^64 |
| History.LastWriteWins | project-4/kvdb.c:237-355 | after any calls a lookup of a key is answered by the last one that changed it: its value, whole or cut to the buffer, or absence after a removal |
| History.UntouchedStays | project-4/kvdb.c:237-355 | a key that no call changed is answered as before them |
| History.StoreExits | project-4/index.c:95 | a hash function and 215 legal updates of an empty store that are not all served |
| History.KvrawOpen | project-4/kvraw.c:53-78 | an opened log with its dummy record |
| History.KvdbOpen | project-4/kvdb.c:205-224 | on it, an empty valid store |
| History.OpenAndServe | project-4/kvdb.c:205-355 | from opening a device to the last reply, a plain map's replies up to the first EXIT or an overtaking push, with a run of the ring from the opened device to the final one that makes such a push if and only if one is reported; that takes a worker that releases its slots first and more than 32 blocks |
| AvlTree.CmpOrder | project-3/avl.c:106-121 | strcmp decides equality and is antisymmetric |
| AvlTree.LessTrans | project-3/avl.c:106-121 | its order is transitive |
| AvlTree.LessLexical | project-3/avl.c:106-121 | the order is that of strcmp: a proper prefix is less, else the first byte that differs decides |
| AvlTree.DepthIsHeight | project-3/avl.c:28-44 | stored depths are exact heights |
| AvlTree.RightFixes | project-3/avl.c:197-204 | the right rotations repair a balance of +2, with exact depths and height |
| AvlTree.LeftFixes | project-3/avl.c:206-213 | the left rotations repair a balance of -2 |
| AvlTree.Insert | project-3/avl.c:86-134 | insertion keeps balance and exact depths and raises the height by at most one |
| AvlTree.Delete | project-3/avl.c:153-216 | deletion keeps balance and exact depths and lowers the height by at most one |
| AvlTree.RebalanceContent | project-3/avl.c:194-215 | rebalancing keeps search order, counts and nodes |
| AvlTree.InsertContent | project-3/avl.c:86-134 | insertion keeps search order and adds exactly one occurrence of the item |
| AvlTree.DeleteContent | project-3/avl.c:153-216 | deletion keeps search order and removes exactly one occurrence, if there is one |
| AvlTree.MinLeast | project-3/avl.c:146-151 | the leftmost node holds the least item and its count |
| AvlTree.DeleteSuccessor | project-3/avl.c:185-191 | replacing by the successor with its full count removes exactly the one occurrence |
| AvlTree.RotationChoice | project-3/avl.c:112-129 | comparing the new item with the child's item chooses the rotation the child's balance calls for |
| AvlTree.ManyNodes | project-3/avl.c:40-44 | depth d needs at least Fib(d+3)-1 nodes |
| AvlTree.PathShort | project-3/avl.c:306-313 | a search of p steps means at least Fib(p+2)-1 distinct items |
| AvlTree.Logarithmic | project-3/avl.c:306-313 | half the steps of a search are at most the binary logarithm of the distinct items plus one |
| AvlTree.InOrderCounts | project-3/avl.c:136-144 | the traversal reports each item with its count |
| AvlTree.InOrderSorted | project-3/avl.c:136-144 | the traversal's items are strictly increasing |
| AvlTree.InOrderLexical | project-3/avl.c:136-144 | the items come in dictionary order, in terms of their bytes |
| AvlTree.InOrderLength | project-3/avl.c:136-144 | the traversal visits as many items as there are nodes |
| Avl.RotateRight | project-3/avl.c:46-57 | in place, on the same nodes, the rotation of the tree |
| Avl.RotateLeft | project-3/avl.c:59-70 | the same to the left |
| Avl.RotateLeftRight | project-3/avl.c:72-77 | the double rotation in place |
| Avl.RotateRightLeft | project-3/avl.c:79-84 | the other double rotation in place |
| Avl.Rebalance | project-3/avl.c:194-215 | the end of delete in place |
| Avl.FindMin | project-3/avl.c:146-151 | the loop reaches the leftmost node |
| Avl.CountOne | project-3/avl.c:190 | setting that node's count to 1 changes nothing else |
| Avl.Avl.Update | project-3/avl.c:86-134 | in place, the insertion on trees; items and unique count it |
| Avl.Avl.Delete | project-3/avl.c:153-216 | in place, the deletion on trees, on no new nodes |
| Avl.Avl.Succeed | project-3/avl.c:185-191 | the successor's item and full count move up and its node is deleted below |
| Avl.Avl.AvlInsert | project-3/avl.c:261-275 | adds one occurrence and keeps the tree and both counters right |
| Avl.Avl.AvlExists | project-3/avl.c:297-314 | returns the item's count, in as many steps as its path |
| Avl.Avl.AvlDelete | project-3/avl.c:277-295 | removes one occurrence; items is right, and the whole state is if and only if cutting the count to an int did not make it 1 |
| Avl.Low32 | project-3/avl.c:280 | the cut count is below 2^32 and differs from the count by a multiple of it |
| Avl.CutCountMisleads | project-3/avl.c:280-290 | 2^32 + 1 insertions of one item give a tree whose cut count is 1 though its count is not |
| Avl.Avl.AvlTraverse | project-3/avl.c:341-348 | the callback sees the in-order sequence |
| Scm.Apart | project-3/scm.c:139-144 | chunks and their headers are pairwise disjoint |
| Scm.Inside | project-3/scm.c:137-145 | every chunk lies inside the used region |
| Scm.WalkUnique | project-3/scm.c:193-206 | the bytes determine the chunk list: two readings of the headers agree |
| Scm.FirstFit | project-3/scm.c:138-145 | the first free chunk that is large enough, if any |
| Scm.ExtendGood | project-3/scm.c:152-161 | a new chunk at the end keeps all invariants and payloads |
| Scm.ReuseGood | project-3/scm.c:140-143 | reusing a chunk keeps them, and user_bytes falls short by its size |
| Scm.ReleaseGood | project-3/scm.c:226-229 | freeing keeps them |
| Scm.StoreGood | project-3/scm.c:161-162 | a client's write inside a payload changes that payload only |
| Scm.CheckGap | project-3/scm.c:147 | exactly which requests the check lets through although they do not fit |
| Scm.CheckSound | project-3/scm.c:147 | the check lets every request through that fits |
| Scm.CheckFails | project-3/scm.c:147 | in an empty region of any size, a request for all but the header is let through and does not fit |
| Scm.Scm.constructor | project-3/scm.c:111-129 | opening without truncation a region that was closed takes its chunk list and both counters and changes nothing; otherwise there are none |
| Scm.Scm.Close | project-3/scm.c:165-172 | the closed region holds the mark, both counters and the chunk list, and no payload changes |
| Scm.Reopen | project-3/scm.c:111-172 | closing and opening again gives the same chunks, counters and payloads |
| Scm.Scm.UtilizedExact | project-3/scm.c:233-235 | scm_utilized gives the bytes in use if and only if what reuse and double frees have taken off is a multiple of 2^64 |
| Scm.AgreesExact | project-3/scm.c:228 | the same on the counters |
| Scm.LiveAtMost | project-3/scm.c:156-157 | the bytes in use are at most the used bytes |
| Scm.Drift | project-3/scm.c:140-143 | allocate, free, allocate the same: in use, and scm_utilized gives 0 |
| Scm.Scm.AllocatedAddr | project-3/scm.c:193-206 | true exactly for chunk starts |
| Scm.Scm.Malloc | project-3/scm.c:132-163 | first fit, else a new chunk, else EXIT, or a chunk past the region in the gap of the check, with the whole new state, and no payload changes |
| Scm.Scm.Free | project-3/scm.c:219-231 | frees exactly the chunk that starts there, takes its size off the counter also when it was free, and ignores any other address |
| Scm.Scm.Store | project-3/scm.c:161-162 | a client's write into its chunk changes those bytes and no other payload, and the walk stays intact |
| Scm.Scm.Strdup | project-3/scm.c:174-191 | always a new chunk at the end, holding the string and its NUL, if it fits the region |
| Parser.CompleteUnary | project-1/parser.c:88-144 | every unary expression is parsed to its tree |
| Parser.CompleteMultiplicative | project-1/parser.c:146-200 | every product is parsed to its left-associated tree, whatever follows |
| Parser.CompleteAdditive | project-1/parser.c:202-256 | every sum is parsed to its left-associated tree |
| Parser.ParseMulRest | project-1/parser.c:153-189 | the recursive call returns in front of no further operator, so the loop goes round once |
| Parser.ParseAddRest | project-1/parser.c:209-245 | the same for sums |
| Parser.AcceptsExactly | project-1/parser.c:262-286 | the parser gives a tree if and only if a derivation of the tokens has it |
| Parser.AcceptsSentences | project-1/parser.c:81-286 | exactly the sentences of the grammar are accepted |
| Parser.Unambiguous | project-1/parser.c:81-286 | all derivations of a sentence have the same tree |
| Parser.ShowDerives | project-1/parser.c:81-286 | the print of a tree is a sentence that means it |
| Parser.PrintParse | project-1/parser.c:272-286 | parsing the print of any tree gives it back |
| Parser.ShowIsMinimal | project-1/parser.c:81-286 | no sentence for the tree has fewer parentheses than its print |
| Parser.FewestParens | project-1/parser.c:81-286 | the same counted in the OPEN tokens of the sentences |
| Parser.Parser.ExprPrimary | project-1/parser.c:88-112 | the cursor method is the parsing function |
| Parser.Parser.ExprUnary | project-1/parser.c:119-144 | the same |
| Parser.Parser.ExprMultiplicative_ | project-1/parser.c:153-189 | the loop with recursion inside builds each node over the result of the one before |
| Parser.Parser.ExprAdditive_ | project-1/parser.c:209-245 | the same for sums |
| Parser.Parser.Top | project-1/parser.c:272-286 | the whole token sequence or nothing |
| Parser.ParserOpen | project-1/parser.c:288-310 | a tree exactly for the sentences of the grammar, and that sentence's tree |
| CodeGen.BodyIds | project-1/main.c:20-52 | the statements assign exactly the next node-count variables, once each, in order |
| CodeGen.BodyComputes | project-1/main.c:20-52 | from any environment the emitted statements use nothing unassigned, disturb nothing earlier and leave the tree's value in the last variable |
| CodeGen.Generator.GenFuncBodyFromDag | project-1/main.c:20-52 | writes that code and returns its variable |
| CodeGen.Quot | project-1/main.c:38 | the generated division is exact, and 0 by 0 |
| CodeGen.TreeMeans | project-1/main.c:29-46 | the tree's value is the expression's, division by zero being 0 |
| CodeGen.ProgramPasses | project-1/main.c:54-63 | the generated function passes the tree's value to its callback |
| CodeGen.Translate | project-1/main.c:88-101 | from tokens to code: translated exactly if a sentence, and the code passes the sentence's meaning to the callback |
| Scheduler.Fair | project-2/scheduler.c:85-92 | between two turns of a job every other job live throughout has exactly one, whoever finishes or arrives |
| Scheduler.FairWithin | project-2/scheduler.c:85-92 | the same between any two turns of a job inside a run, so also in the run of scheduler_execute |
| Scheduler.CreatedLate | project-2/scheduler.c:62-69 | jobs created by the running one take their places in the queue of turns |
| Scheduler.RoundEvents | project-2/scheduler.c:83-122 | one round is these arrivals and one turn |
| Scheduler.OneLess | project-2/scheduler.c:99-122 | each dispatch leaves exactly one less to be done, the jobs it creates counted |
| Scheduler.MakesLess | project-2/scheduler.c:99-107 | each dispatch creates exactly what is then no longer to be created |
| Scheduler.FamilyIsMakes | project-2/scheduler.c:32-70 | a list's jobs with all they create are the list and what it is to create |
| Scheduler.WaitsForJ | project-2/scheduler.c:85-92 | a job behind another has no turn before it |
| Scheduler.MoveOn | project-2/scheduler.c:87-92 | stepping to the next job, or round to the head, is a turn of the queue |
| Scheduler.DropMembers | project-2/scheduler.c:109-114 | dropping one position removes exactly that job |
| Scheduler.Scheduler.Create | project-2/scheduler.c:55-69 | a new job goes to the end of the list, at its place in the queue of turns |
| Scheduler.Scheduler.Dispatch | project-2/scheduler.c:85-97 | the next job of the queue becomes curr; prev is NULL exactly if it is the head and links to it otherwise |
| Scheduler.Scheduler.Unlink | project-2/scheduler.c:109-118 | removes exactly curr from the list, at head, middle or end, and nobody loses a turn |
| Scheduler.Scheduler.CreateAll | project-2/scheduler.c:32-70 | the running job's new jobs go to the end of the list and curr and prev stay linked |
| Scheduler.Scheduler.RunJob | project-2/scheduler.c:99-107 | a job is started only from status 0, and runs to its next yield or return |
| Scheduler.Scheduler.Resume | project-2/scheduler.c:99-122 | a job leaves the list exactly when its function returns, and those it created stay |
| Scheduler.Scheduler.Step | project-2/scheduler.c:83-122 | one round of scheduler_execute is one turn of the queue, after the arrivals it makes |
| Scheduler.Scheduler.Round | project-2/scheduler.c:83-122 | keeps the account of turns had and to come for every job there has been, created ones with the functions they run |
| Scheduler.Scheduler.Execute | project-2/scheduler.c:72-123 | ends with an empty list; the jobs there have been are the first ones and, as a multiset of functions, exactly all they create and these create; each is started once and dispatched as often as its function needs, and no other dispatch happens |

## Left out

- Opening, closing and failing: `logfs_close` drops queued blocks and sets `done` without
  the lock, so there is nothing to prove about durability; I/O and `malloc` failures,
  including the cache tag left set after a failed device read, are not modelled.
- The device is an array of blocks; the log is assumed to fit it, and its length to fit
  64 bits.
- The data a device block or buffer holds before use: `malloc`ed cache buffers are zero
  blocks, which nothing depends on.
- Reads and lookups return sequences: that they write into the caller's buffer, also when
  the key turns out not to match, is not captured.
- The mixing in `hash` (`project-4/index.c:23-51`): the hash function is an arbitrary parameter.
- The load factor 0.70 is compared exactly, not in doubles.
- `mutate` (`project-4/kvdb.c:105-202`) is written out once for each of its four modes.
- Index.ExitExact: is about capacities below 2^63; from 2^60 on the byte count of `project-4/index.c:67` wraps and there is no such table.
- Index.NeverFullExact: the same.
- LogFs.Log.Read: promises nothing about a block that was cached while it could not be read, until its line is loaded anew.
- History.Session: tells nothing of the calls after one in which a push has overtaken the worker, because they may read anything.
- Kvraw.Raw.Lookup: does not capture that it writes into the caller's buffers, because it returns what they hold.
- The memory of AVL nodes: nodes and item strings come from an abstract allocator, `scm_free` on them is left out, and pointers stored across runs are too.
- `mmap`, `msync`, file modes and alignment in `scm.c`; addresses are offsets into the region.
- `parser_dag` nodes are values; leaks on failure, error messages and their tables, and the
  lexer are left out. A token sequence is the input, and may be empty.
- Doubles are reals, and how a constant is printed with `%f` and read back is a parameter.
- `PARSER_DAG_` nodes, which the parser never builds; `sigmoid`; compiling and loading the emitted file.
- `setjmp`, `longjmp`, stacks and signals inside scheduler code: a dispatch, a yield and a return are atomic steps.
- Shells, terminals, `system.c`, and all of project 5: user interface and parsing of /proc.
