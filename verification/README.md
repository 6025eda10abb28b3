# A verified model of libtbm's buffer management

libtbm hands graphics buffers between a producer and a consumer. This project models its four
stateful parts and proves what they keep, over every run:

- **The surface queue** (`src/tbm_surface_queue.c`). `QueueSpec` is the queue as a state machine on
  values, one function per API call, for the default first-in-first-out queue and for the sequence
  queue, which holds surfaces back until every surface dequeued earlier has been enqueued.
  `QueueInvariants`, `QueueCapacity`, `QueueOutcomes`, `QueueHistory` and `QueueRefs` prove its
  laws. `SurfaceQueues` is the queue as the C code runs it: nodes linked into two circular lists at
  once, SAFE iterations that delete while they walk, fields updated in place. Every method is
  proved against the function of the same call, on top of `Rings` (the lists of `src/list.h`) and
  `QueueWiring` (how the rings carry a queue). `QueueRace` splits a dequeue in two where the
  allocation callback runs unlocked.
- **Lifetimes** (`src/tbm_bufmgr.c`, `src/tbm_surface_internal.c`). `LifetimeSpec` is one state
  machine for the global manager, buffer objects, surfaces and queues; `Lifetime` proves its
  invariant over every run, which ties each count to its owners, `Ownership` who owns what after
  each call, and `HandleData` what the handles then show; `Managers` is the imperative form.
  `BoLocks` and `SurfaceMaps` account for locks and maps, `UserDataSpec` and `UserDataLists` for
  keyed user data.
- **The plane layout** of a new surface (`PlanePartition`), with its 32-bit sums.
- **The dump ring** (`DumpSpec`, `DumpRings`): the most recent frames, copied byte by byte.

Objects get new addresses; the backend, the allocation callbacks and the clock are parameters. A
call of the queue API is one step, as both mutexes are held for it, except where `QueueRace` says
otherwise. `list_head` pointers live in an explicit memory (`Rings.Links`), which the list
operations assign pointer by pointer.

## Where the code differs from what one would expect

- `_queue_node_delete` deletes a queue link that `_queue_node_pop` already deleted and left stale.
  When a held node is detached on release, the rings survive if and only if the two neighbours it
  remembers are still adjacent (`QueueWiring.DetachLooseExactly`, `SurfaceQueue.Release`), that is,
  when its remembered successor is first in the queue it was popped from
  (`QueueWiring.AdjacentMeansFirst`). `QueueWiring.AcquireEnqueueDetachLoses` is a run that loses a
  queued frame.
- `need_attach` compares with `==`. Above the queue size it no longer stops anything: every dequeue
  on an empty free queue attaches one more surface (`QueueCapacity.DequeueAboveCapacity`).
  `QueueCapacity.CapacityExactly` says which single call can get there.
- `need_attach` drops both locks around `alloc_cb` and does not look at its guard again. The queue
  stays well formed, but any number of threads can pass the guard together and all their surfaces
  are attached (`QueueRace.RaceOvershoots`); `QueueRace.RoomExactly` says which step breaks the
  bound.
- The sequence queue answers UNKNOWN_SURFACE to an out-of-order enqueue on an empty dirty queue and
  keeps the surface all the same (`QueueCapacity.UnknownSurfaceExactly`,
  `QueueHistory.SequenceLosesNothing`). It may answer NONE to the enqueue of a surface that the
  consumer holds, and never delivers it (`QueueHistory.SequenceIgnoresAcquired`).
- Releasing a surface that still waits in `dequeue_list` links its node into two rings
  (`QueueWiring.ReleasePendingBreaks`), so runs of the sequence queue release acquired surfaces only.
- Under `LOCK_TRY_ONCE` a bo is unlocked by the first unmap although it can be mapped several times
  (`BoLocks.OnceExactly`, `BoLocks.OnceUnlocksWhileMapped`).
- `bo_cnt` misses the bos made through `surface_bo_alloc`, and a failed creation on that path leaves
  it short for good (`Lifetime.BoCntExactly`, `Lifetime.FailedUncountedCreate`).
- A plane whose bo index is negative belongs to no bo, so the bo sizes add up to the surface size
  exactly when all such planes are empty (`PlanePartition.NothingLostExactly`).
- A dump that fails to map its bo, or has an unsupported format, spoils the slot that is next in
  turn, without advancing (`DumpSpec.LastDumps`).

## Model

| member | source | states |
|---|---|---|
| Rings.AddRing | src/list.h:47-53 | on a well-formed ring holding s, list_add gives the ring of [item] + s |
| Rings.AddTailRing | src/list.h:55-61 | list_addtail gives the ring of s + [item] |
| Rings.DelRing | src/list.h:71-75 | list_del of element k removes just it; the item keeps its links and its two old neighbours are adjacent |
| Rings.DelInitRing | src/list.h:77-83 | list_delinit removes just the item |
| Rings.DelInitIdempotent | src/list.h:77-83 | afterwards the item is an empty ring, and a second list_delinit changes no pointer |
| Rings.DelAgainExactly | src/list.h:71-75 | a second list_del leaves every pointer of the memory alone iff the stale prev and next point at each other |
| Rings.DelAgainRing | src/list.h:71-75 | seen from a ring that holds the stale predecessor, a second list_del keeps that ring iff it changes nothing |
| Rings.AddTailApart | src/list.h:55-61 | appending to a ring leaves every disjoint ring a ring of the same sequence |
| Rings.AddApart | src/list.h:47-53 | so does inserting at the front |
| Rings.DelApart | src/list.h:71-75 | so does deleting |
| Rings.Memory.ListInitHead | src/list.h:41-45 | assigns exactly the pointers of InitHead |
| Rings.Memory.ListAdd | src/list.h:47-53 | the four assignments in order equal Add, also when cells coincide |
| Rings.Memory.ListAddTail | src/list.h:55-61 | the four assignments in order equal AddTail |
| Rings.Memory.ListDel | src/list.h:71-75 | the two assignments in order equal Del, for stale items too |
| Rings.Memory.ListDelInit | src/list.h:77-83 | the four assignments in order equal DelInit |
| QueueWiring.PushWired | src/tbm_surface_queue.c:276-281 | pushing a node that is in no queue keeps all rings and appends it to the one |
| QueueWiring.PopWired | src/tbm_surface_queue.c:290-310 | popping the first node keeps all rings, and the head's next was that node |
| QueueWiring.AttachWired | src/tbm_surface_queue.c:521-536 | linking a new node into `list` and the free queue keeps all rings, its two links in different ones |
| QueueWiring.DetachQueuedWired | src/tbm_surface_queue.c:259-265 | deleting a queued node takes it out of its queue and of `list`, and nothing else |
| QueueWiring.DetachLooseExactly | src/tbm_surface_queue.c:259-310 | deleting a node that is in no queue keeps the rings iff its stale neighbours are adjacent |
| QueueWiring.AdjacentMeansFirst | src/tbm_surface_queue.c:290-310 | they are adjacent iff the remembered successor is now first in the queue it was popped from, or that queue is empty and the successor is its head |
| QueueWiring.AcquireEnqueueDetachLoses | src/tbm_surface_queue.c:259-310 | acquire, enqueue, detaching release: the dirty ring reads as empty though a frame is queued |
| QueueWiring.ReleasePendingBreaks | src/tbm_surface_queue.c:1272-1275 | recycling a pending node breaks the pending ring, always |
| QueueWiring.ClearWired | src/tbm_surface_queue.c:1453-1461 | reinitialising the heads gives an empty, well-formed queue, however stale the queue links were |
| QueueInvariants.CreateValid | src/tbm_surface_queue.c:605-645 | a created queue satisfies the invariant and has nothing attached |
| QueueInvariants.StepValid | src/tbm_surface_queue.c:1067-1605 | every call keeps the partition of `list` into free, dirty, pending and held nodes, the counters, the order of pending nodes and, in the default queue, the node types |
| QueueInvariants.RunValid | src/tbm_surface_queue.c:1067-1605 | hence every run does |
| QueueInvariants.DefaultRunAdmissible | src/tbm_surface_queue.c:1681-1691 | in the default queue no cooperation of the client is needed beyond distinct allocations |
| QueueInvariants.DefaultPartition | src/tbm_surface_queue.c:507-550 | default queue, any client, any run: a node is free iff its type is NONE or RELEASE, dirty iff ENQUEUE, held iff DEQUEUE or ACQUIRE |
| QueueInvariants.DeliverEffect | src/tbm_surface_queue.c:1798-1804 | the inner loop moves a prefix of pending to the end of dirty, stops at the first marked node, and changes nothing else |
| QueueInvariants.DetachFreeEffect | src/tbm_surface_queue.c:1536-1551 | a shrink detaches exactly the first min(d, free) free nodes |
| QueueCapacity.RefusedExactly | src/tbm_surface_queue.c:1088-1096 | enqueue and release refuse a surface iff it is not attached or is carried by a free or dirty node, and then change nothing |
| QueueCapacity.UnknownSurfaceExactly | src/tbm_surface_queue.c:1098-1111 | UNKNOWN_SURFACE iff the sequence queue has nothing dirty and the surface is not the oldest pending one |
| QueueCapacity.DefaultCounts | src/tbm_surface_queue.c:507-519 | num_attached = size of list = free + dirty + count(DEQUEUE) + count(ACQUIRE) |
| QueueCapacity.HeldCard | src/tbm_surface_queue.c:521-550 | list = free + dirty + held, for both queues |
| QueueCapacity.CapacityExactly | src/tbm_surface_queue.c:1536-1560 | from within capacity, a call leaves it iff it is a non-flush shrink below what it can detach at once |
| QueueCapacity.RunCapacity | src/tbm_surface_queue.c:1648-1679 | num_attached stays within queue_size over every run without such a shrink |
| QueueCapacity.DequeueFailsExactly | src/tbm_surface_queue.c:562-580 | with a working allocator, dequeue fails iff dirty + held = queue_size |
| QueueCapacity.DequeueAboveCapacity | src/tbm_surface_queue.c:1654-1655 | above capacity a dequeue on an empty free queue attaches one more surface |
| QueueCapacity.ShrinkEndsDrained | src/tbm_surface_queue.c:1536-1560 | a non-flush shrink ends within the new size or with an empty free queue, and touches no dirty, pending or held node |
| QueueCapacity.DrainLaw | src/tbm_surface_queue.c:1258-1275 | until the next dequeue, accepted releases first reduce num_attached - queue_size to 0, one each, and only then recycle |
| QueueCapacity.ClearIsNew | src/tbm_surface_queue.c:1426-1473 | a flush, reset or flushing resize leaves the newly created queue of the new parameters and old callbacks, so every later run agrees; each attached surface was destroyed once, in attach order |
| QueueCapacity.NoClearKeepsQueues | src/tbm_surface_queue.c:1441-1445 | when a guard makes such a call a no-op, nothing at all changes |
| QueueOutcomes.CreateExactly | src/tbm_surface_queue.c:1693-1733 | a queue is made iff size, width, height and format are positive, with these parameters and nothing attached |
| QueueOutcomes.NullRefused | src/tbm_surface_queue.c:1076-1079 | enqueue and release of a null surface answer INVALID_SURFACE and change nothing |
| QueueOutcomes.AcquireExactly | src/tbm_surface_queue.c:1299-1344 | INVALID_QUEUE iff nothing is dirty, and then nothing changes; else the oldest dirty surface is handed out |
| QueueOutcomes.DequeueExactly | src/tbm_surface_queue.c:562-580 | INVALID_QUEUE iff nothing is free and the queue is full or allocation fails, and then nothing changes; else the oldest free surface is handed out, or the one attached for it |
| QueueOutcomes.CanDequeueExactly | src/tbm_surface_queue.c:1189-1205 | yes iff a free surface is there after the refill, iff one was there or can be attached, and iff the dequeue of the same state and allocation succeeds |
| QueueOutcomes.SetSizeExactly | src/tbm_surface_queue.c:1490-1561 | a positive size is installed on every path; growing changes nothing else; any other size is INVALID_PARAMETER and changes nothing |
| QueueOutcomes.ShrinkExactly | src/tbm_surface_queue.c:1536-1554 | a shrink gives up exactly min(old size - new size, free) surfaces, the oldest free ones, in that order |
| QueueOutcomes.SetAllocCbExactly | src/tbm_surface_queue.c:922-946 | installs each callback in its place and nothing else |
| QueueOutcomes.SurfaceAsked | src/tbm_surface_queue.c:1088-1113 | an accepted enqueue or release is about a node carrying that surface |
| QueueOutcomes.TypeIsLastUse | src/tbm_surface_queue.c:1067-1344 | over every run, both queues: a node's type is what the last accepted call did with it since it was attached, NONE before the first |
| QueueOutcomes.StepBalanced | src/tbm_surface_queue.c:363-377 | per call: old attached + obtained = new attached + destroyed; the allocation callback is used iff set; the free callback is told of each destroyed surface right before, iff set |
| QueueOutcomes.MadeOrDestroyed | src/tbm_surface_queue.c:521-550 | over every run each surface obtained was destroyed exactly once or is attached |
| QueueOutcomes.FreeFifo | src/tbm_surface_queue.c:562-603 | over every run since the last clear: free surfaces are dequeued, or given up by a shrink, in the order in which they were attached or recycled |
| QueueHistory.DefaultFifo | src/tbm_surface_queue.c:552-593 | default queue, any client, any run: enqueue history = acquire history ++ dirty, since the last clear |
| QueueHistory.SequenceOrder | src/tbm_surface_queue.c:1790-1821 | sequence queue: dequeue history = acquired ++ dirty ++ pending in every run, whatever the enqueue order, and the first pending node is marked |
| QueueHistory.SequenceLosesNothing | src/tbm_surface_queue.c:1790-1805 | enqueuing all marked pending surfaces, in any order and with repetitions, leaves pending empty and dirty = old dirty ++ pending |
| QueueHistory.SequenceAnyPermutation | src/tbm_surface_queue.c:1098-1111 | in particular for any permutation of them, the calls answered UNKNOWN_SURFACE included |
| QueueHistory.SequenceIgnoresAcquired | src/tbm_surface_queue.c:1790-1805 | enqueuing a surface the consumer holds delivers nothing, and answers NONE iff dirty is not empty |
| QueueHistory.SequenceRefinesDefault | src/tbm_surface_queue.c:1681-1833 | when the producer enqueues its oldest surface first, both queues give equal codes, surfaces, lists, types and surface calls, call by call |
| QueueRefs.StepConserved | src/tbm_surface_queue.c:363-377 | each call keeps: a surface's count = outside references + nodes carrying it |
| QueueRefs.ReferencesConserved | src/tbm_surface_queue.c:521-550 | over every run of queue calls and client calls, internal allocation or callbacks; attached surfaces are alive, and a surface is alive iff somebody holds it |
| QueueRefs.DestroyConserved | src/tbm_surface_queue.c:1400-1401 | destroying the queue gives back every reference it holds and no other |
| QueueRace.AskAnswerIsDequeue | src/tbm_surface_queue.c:1657-1672 | with nothing between its two steps, a dequeue or can_dequeue is the atomic call |
| QueueRace.RaceKeeps | src/tbm_surface_queue.c:1648-1679 | under any interleaving the queue stays well formed, and within capacity while no thread asks when those asking fill it |
| QueueRace.RoomExactly | src/tbm_surface_queue.c:1654-1672 | room for attached plus in-flight surfaces is lost by a step iff the guard passes while in-flight ones fill the queue, or a resize goes below them |
| QueueRace.RaceOvershoots | src/tbm_surface_queue.c:1654-1672 | if the guard passes once, any k threads pass it together and all k surfaces are attached; capacity holds iff k fit |
| SurfaceQueues.SurfaceQueue.constructor | src/tbm_surface_queue.c:605-645 | the rings of a new queue stand for the new queue |
| SurfaceQueues.SurfaceQueue.PushBack | src/tbm_surface_queue.c:276-281 | appends the node to that queue only |
| SurfaceQueues.SurfaceQueue.PopFront | src/tbm_surface_queue.c:290-301 | returns and removes the first node of that queue only |
| SurfaceQueues.SurfaceQueue.Pop | src/tbm_surface_queue.c:303-310 | removes the given first node |
| SurfaceQueues.SurfaceQueue.GetNode | src/tbm_surface_queue.c:312-361 | the three walks find the first carrier, free before dirty before list |
| SurfaceQueues.SurfaceQueue.CountNodes | src/tbm_surface_queue.c:507-519 | the walk counts the attached nodes of the type |
| SurfaceQueues.SurfaceQueue.GetSurfaces | src/tbm_surface_queue.c:1607-1636 | returns the attached surfaces in attach order |
| SurfaceQueues.SurfaceQueue.Attach | src/tbm_surface_queue.c:521-536 | one reference taken, the node at the end of list and of free, num_attached up by one |
| SurfaceQueues.SurfaceQueue.NeedAttach | src/tbm_surface_queue.c:1648-1679 | guard, allocation by either way and references, in that order |
| SurfaceQueues.SurfaceQueue.DeleteNode | src/tbm_surface_queue.c:363-377 | callback, destroy, both links deleted, node freed |
| SurfaceQueues.SurfaceQueue.Detach | src/tbm_surface_queue.c:538-550 | the looked-up node is deleted and num_attached goes down by one |
| SurfaceQueues.SurfaceQueue.Dequeue | src/tbm_surface_queue.c:1125-1168 | code, surface, surface calls and whole new state are those of the call, for both queues |
| SurfaceQueues.SurfaceQueue.CanDequeue | src/tbm_surface_queue.c:1171-1228 | the whole new state is that of the refill; yes iff a surface is then free, iff one was free or could be attached; blocks iff none is free and it is asked to wait while a surface is acquired |
| SurfaceQueues.SurfaceQueue.CanAcquire | src/tbm_surface_queue.c:1347-1385 | yes iff something is dirty; blocks iff asked to wait while a surface is dequeued |
| SurfaceQueues.SurfaceQueue.Acquire | src/tbm_surface_queue.c:1299-1344 | code, surface and whole new state are those of the call |
| SurfaceQueues.SurfaceQueue.DeliverPending | src/tbm_surface_queue.c:1798-1804 | the SAFE iteration, moving nodes between rings as it walks, delivers the unmarked prefix |
| SurfaceQueues.SurfaceQueue.Enqueue | src/tbm_surface_queue.c:1067-1123 | code and whole new state are those of the call, for both queues |
| SurfaceQueues.SurfaceQueue.Release | src/tbm_surface_queue.c:1230-1296 | code, surface calls and abstract state are those of the call; the rings still carry it iff the stale neighbours of a detached node were adjacent |
| SurfaceQueues.SurfaceQueue.DetachFreeNodes | src/tbm_surface_queue.c:1536-1551 | the SAFE iteration over the free queue detaches the first need_del nodes |
| SurfaceQueues.SurfaceQueue.DeleteAllNodes | src/tbm_surface_queue.c:1449-1451 | the SAFE iteration over list deletes each node once, in attach order, though queue links go stale on the way |
| SurfaceQueues.SurfaceQueue.SetSize | src/tbm_surface_queue.c:1490-1561 | code, surface calls and whole new state are those of the call; the size is installed iff positive, and a growing resize changes nothing else |
| SurfaceQueues.SurfaceQueue.Reset | src/tbm_surface_queue.c:1426-1473 | likewise |
| SurfaceQueues.SurfaceQueue.Flush | src/tbm_surface_queue.c:1564-1605 | likewise |
| SurfaceQueues.SurfaceQueue.SetAllocCb | src/tbm_surface_queue.c:922-946 | installs both callbacks and changes nothing else |
| SurfaceQueues.SurfaceQueue.Destroy | src/tbm_surface_queue.c:1387-1424 | every attached surface is given back once, in attach order |
| Lifetime.StepKeeps | src/tbm_bufmgr.c:581-1055 | every call keeps: manager count = clients + the two global pointers; bo count = client references + surface slots; surface count = references clients and queues own; lists = live objects; backend data distinct; bo_cnt = list length less uncounted bos, modulo 2^32 |
| Lifetime.RunKeeps | src/tbm_surface_internal.c:257-271 | hence every run does, so that bos and surfaces are listed iff somebody holds them and no surface or queue outlives the manager |
| Lifetime.LifeKeeps | src/tbm_bufmgr.c:581-854 | in every run from the start of the process: manager count = owners, no surface or queue without its manager, each bo's count = client references + surface slots, each surface's count = its owners, both listed iff owned, backend data distinct |
| Lifetime.EnterSurfaceKeeps | src/tbm_surface_internal.c:630-634 | initialising the surface side never drops a surface: the list it reinitialises is empty |
| Lifetime.LeaveSurfaceKeeps | src/tbm_surface_internal.c:352-367 | the surface side lets the manager go only with no surface left |
| Lifetime.DropBoKeeps | src/tbm_bufmgr.c:807-854 | after an unref the bo is listed iff an owner remains |
| Lifetime.CreateSurfaceKeeps | src/tbm_surface_internal.c:611-766 | creation adds its surface in front, or leaves both lists as they were |
| Lifetime.CreateWithBosKeeps | src/tbm_surface_internal.c:768-878 | likewise, with one reference per slot on bos given by the caller |
| Lifetime.DestroySurfaceKeeps | src/tbm_surface_internal.c:324-368 | one reference per slot goes back, and the manager with the last surface |
| Lifetime.UnrefListed | src/tbm_surface_internal.c:917-938 | an unref takes one reference; the surface stays listed iff another one was owned, and no other surface is touched |
| Ownership.StepOwners | src/tbm_bufmgr.c:581-1055 | for every call: which references clients, queues and the two global pointers own afterwards, so the invariant fixes every count and what is alive; the surface side lets go with its last surface, the queue side with its last queue |
| HandleData.StepData | src/tbm_bufmgr.c:856-1243 | for every call: live bos keep their backend data, except that a swap of equal sizes exchanges two; live surfaces keep their slots; new ones have what they were made with, slot by slot |
| Ownership.CreateExactly | src/tbm_surface_internal.c:611-766 | creation succeeds iff every allocation does; only then a reference is owned; the globals end as they must in both cases |
| Ownership.CreateWithBosExactly | src/tbm_surface_internal.c:768-878 | likewise iff no given bo is null |
| Ownership.QueueSideExactly | src/tbm_surface_queue.c:605-645 | over every run the queue side owns the manager exactly while a queue lives |
| Lifetime.FailedCreateRestores | src/tbm_surface_internal.c:741-766 | a failed allocation restores bos, counts, lists, manager and globals |
| Lifetime.FailedCreateWithBosRestores | src/tbm_surface_internal.c:835-864 | so does a null bo, though the same bo may fill several slots |
| Lifetime.FailedUncountedCreate | src/tbm_surface_internal.c:690-717 | through surface_bo_alloc all is restored but bo_cnt, which stays short by the bos freed |
| Lifetime.BoCntExactly | src/tbm_surface_internal.c:711-717 | bo_cnt = length of bo_list iff no bo was ever made through surface_bo_alloc, below 2^32 |
| Lifetime.ImportResolves | src/tbm_bufmgr.c:945-958 | importing the data of a live bo returns that bo with one more reference and makes none |
| Lifetime.SwapRedirects | src/tbm_bufmgr.c:1213-1243 | after a swap each old handle resolves to the other bo |
| Managers.Manager.InitManager | src/tbm_bufmgr.c:581-708 | creates the manager with empty lists, or counts one more owner |
| Managers.Manager.DeinitManager | src/tbm_bufmgr.c:710-768 | counts one owner less, and with the last frees the bos left and the manager |
| Managers.Manager.ClientInit | src/tbm_bufmgr.c:581-640 | keeps the lifetime invariant |
| Managers.Manager.ClientDeinit | src/tbm_bufmgr.c:710-768 | keeps it, for a client that initialised |
| Managers.Manager.BoIsValid | src/tbm_bufmgr.c:427-451 | the walk answers whether the bo is listed |
| Managers.Manager.FindByPriv | src/tbm_bufmgr.c:945-958 | finds the first listed bo with the backend data |
| Managers.Manager.BoAlloc | src/tbm_bufmgr.c:856-907 | a new bo with one reference, or nothing changed |
| Managers.Manager.BoImport | src/tbm_bufmgr.c:909-1055 | the one bo with that backend data, with one more reference, or a new one if there is none |
| Managers.Manager.BoRef | src/tbm_bufmgr.c:790-805 | one more reference on a listed bo, keeping the invariant |
| Managers.Manager.BoUnref | src/tbm_bufmgr.c:807-854 | one reference less, the bo gone with the last, keeping the invariant |
| Managers.Manager.BoSwap | src/tbm_bufmgr.c:1213-1243 | exchanges backend data iff both are listed and of one size |
| Managers.Manager.SurfaceCreate | src/tbm_surface_internal.c:611-766 | keeps the invariant; success iff every allocation succeeds, and else all is undone |
| Managers.Manager.SurfaceCreateWithBos | src/tbm_surface_internal.c:768-878 | keeps the invariant; success iff no given bo is null, and else all is undone |
| Managers.Manager.SurfaceRef | src/tbm_surface_internal.c:903-915 | one more reference on a listed surface |
| Managers.Manager.SurfaceUnref | src/tbm_surface_internal.c:917-938 | one reference less, keeping the invariant; the surface stays listed iff more than one was owned |
| Managers.Manager.SurfaceDestroy | src/tbm_surface_internal.c:324-368 | bos, surface and, when it was the last, the manager go in this order |
| Managers.Manager.SurfaceQueryFormats | src/tbm_surface_internal.c:390-433 | a failed query leaves the manager exactly if it had entered it |
| Managers.Manager.QueueCreate | src/tbm_surface_queue.c:605-645 | the first queue owns the manager; the invariant is kept |
| Managers.Manager.QueueDestroy | src/tbm_surface_queue.c:1387-1424 | its surfaces are given back and the last queue lets the manager go; the invariant is kept |
| BoLocks.LockAccounting | src/tbm_bufmgr.c:310-425 | over every run of maps and unmaps, failures included: backend locks - unlocks = lock_cnt; ONCE: at most 1; NEVER: none; ALWAYS: lock_cnt = map_cnt iff unmaps without a map and counter turns cancel |
| BoLocks.MapExactly | src/tbm_bufmgr.c:1145-1180 | a map succeeds iff the backend maps and the lock is granted: NEVER always, ALWAYS iff the backend locks, ONCE iff it locks or the bo is locked; the backend is locked and unlocked as often as that says |
| BoLocks.UnmapExactly | src/tbm_bufmgr.c:1182-1211 | a successful unmap takes one map away and unlocks the backend iff the bo was locked |
| BoLocks.CountsExactly | src/tbm_bufmgr.c:331-425 | over every run, map count, backend locks and, under ALWAYS, lock count are what the backend's answers make them |
| BoLocks.DrainSettles | src/tbm_bufmgr.c:837-841 | the loop of the last unref gives every backend lock back |
| BoLocks.LifeSettles | src/tbm_bufmgr.c:837-841 | so over a whole life, in every mode, locks = unlocks |
| BoLocks.OnceExactly | src/tbm_bufmgr.c:331-425 | under ONCE the bo is locked iff its last call that was not a failed unmap was a successful map |
| BoLocks.OnceUnlocksWhileMapped | src/tbm_bufmgr.c:384-425 | two maps and one unmap leave it mapped and unlocked |
| BoLocks.Bo.TakeLock | src/tbm_bufmgr.c:331-382 | the mode's lock; granted as NEVER, ALWAYS and ONCE say |
| BoLocks.Bo.ReleaseLock | src/tbm_bufmgr.c:384-425 | the mode's unlock, never below zero |
| BoLocks.Bo.Map | src/tbm_bufmgr.c:1145-1180 | succeeds iff the backend maps and the lock is granted; one map and, under ALWAYS, one lock more on success, none on failure |
| BoLocks.Bo.Unmap | src/tbm_bufmgr.c:1182-1211 | one map less and the lock given up as the mode says, or nothing when the backend fails |
| BoLocks.Bo.LastUnref | src/tbm_bufmgr.c:837-841 | ends unlocked with locks = unlocks |
| SurfaceMaps.GetInfoMapped | src/tbm_surface_internal.c:1061-1075 | succeeds iff every slot can be mapped, and stops at the first that cannot; success maps each bo once per slot it fills; failure leaves every map count, and under ALWAYS every lock count, as it was |
| SurfaceMaps.UnmapPrefix | src/tbm_surface_internal.c:1115-1116 | unmaps each bo once per slot |
| SurfaceMaps.MapThenUnmap | src/tbm_surface_internal.c:1104-1122 | succeeds iff every slot can be mapped; either way map then unmap restores every map_cnt and, under ALWAYS, every lock_cnt |
| UserDataSpec.StepRefinesMap | src/tbm_bufmgr.c:1273-1405 | add, set and delete act on, and answer as, a finite map with unique keys |
| UserDataSpec.FreedExactlyOnce | src/tbm_bufmgr.c:299-308 | over every run, for each value: times given under a key that frees = times freed + keys the map has it under, counted in the map |
| UserDataSpec.StepFrees | src/tbm_bufmgr.c:299-308 | set and delete free exactly the old value of the key, iff it is not null and the map says its entry frees; add frees nothing |
| UserDataSpec.StoredCounts | src/tbm_bufmgr.c:266-308 | the stored values to be freed, as a multiset of the list, are those of the map |
| UserDataSpec.DestroyFreesAll | src/tbm_bufmgr.c:825-835 | destroying the owner frees each value as often as the map has it to be freed, and leaves no entry |
| UserDataSpec.LifeFreesAll | src/tbm_bufmgr.c:825-835 | over the owner's life each value given is freed exactly once |
| UserDataLists.UserDataList.AddData | src/tbm_bufmgr.c:1273-1306 | refuses a present key, and else adds a null entry |
| UserDataLists.UserDataList.SetData | src/tbm_bufmgr.c:1308-1340 | stores the new value and frees exactly the old one, iff it is not null and its entry frees |
| UserDataLists.UserDataList.GetData | src/tbm_bufmgr.c:1342-1373 | the value the map has for the key |
| UserDataLists.UserDataList.DeleteData | src/tbm_bufmgr.c:1375-1405 | removes the entry and frees exactly its value, under the same condition |
| UserDataLists.UserDataList.Destroy | src/tbm_surface_internal.c:332-338 | the deletion loop leaves no entry and frees each value as often as the map had it to be freed |
| PlanePartition.NumBos | src/tbm_surface_internal.c:668-675 | every plane's index is below it, and it is 1 or one more than some index |
| PlanePartition.Partition | src/tbm_surface_internal.c:679-685 | the sizes of all bos add up to the planes that have an index |
| PlanePartition.NothingLostExactly | src/tbm_surface_internal.c:656-686 | they add up to the surface size iff every plane with a negative index is empty |
| PlanePartition.LayOut | src/tbm_surface_internal.c:656-686 | the two passes compute size, number of bos and bo sizes, all modulo 2^32, and the bo sizes add up to the size modulo 2^32 |
| PlanePartition.FitsExactly | src/tbm_surface_internal.c:671-672 | below 2^32 the computed size is the exact sum |
| DumpSpec.RoundTrip | src/tbm_surface_internal.c:1816-1868 | for every supported format, stride and height that fit, ending the dump reads from the slot exactly the planes that were copied in |
| DumpSpec.ImageExactly | src/tbm_surface_internal.c:1500-1582 | an image is as high as told, as wide as whole pixels fit the stride, and holds the first bytes in order |
| DumpSpec.RoundTripExactly | src/tbm_surface_internal.c:1714-1753 | the same format by format, in plane bytes, strides and heights alone |
| DumpSpec.FateExactly | src/tbm_surface_internal.c:1784-1923 | a picture is made iff the surface is mapped, fits and is of a supported format and the bo maps; a fitting surface failing on the last two spoils the slot; all else is skipped |
| DumpSpec.ShmRoundTrip | src/tbm_surface_internal.c:1925-1935 | likewise for shared memory |
| DumpSpec.SlotKept | src/tbm_surface_internal.c:1795-1881 | oversize and unmapped dumps change nothing; a given-up dump leaves the flags alone; a made one shows its picture |
| DumpSpec.WindowStep | src/tbm_surface_internal.c:1774-1881 | one dump shifts the window of the last k pictures by one, spoils its oldest place, or changes nothing |
| DumpSpec.LastDumps | src/tbm_surface_internal.c:1784-1943 | after any run of n dumps the first min(n, k) slots are dirty and, in ring order, show the last k pictures; only the place next in turn can be spoilt; the counter is n modulo 1000 |
| DumpSpec.EndWritesLast | src/tbm_surface_internal.c:1697-1760 | ending an unspoilt run writes exactly the last min(n, k) pictures, rotated to where the ring stands, but for slots that cannot be mapped |
| DumpRings.BufInfo.CopyPlanes | src/tbm_surface_internal.c:1820-1868 | the copies, offset by offset, put the planes back to back in the cleared bo |
| DumpRings.BufInfo.MakeFile | src/tbm_surface_internal.c:1714-1753 | the file of a slot: dirty before dirty_shm, ranges per format |
| DumpRings.DumpInfo.NextLink | src/tbm_surface_internal.c:1784-1792 | the slot after the last one, passing over the list head |
| DumpRings.DumpInfo.DumpStart | src/tbm_surface_internal.c:1585-1679 | starts with n clean slots iff none runs, n is positive and every bo is there |
| DumpRings.DumpInfo.DumpBuffer | src/tbm_surface_internal.c:1768-1884 | the whole ring afterwards is that of one dump step |
| DumpRings.DumpInfo.DumpShmBuffer | src/tbm_surface_internal.c:1886-1946 | likewise |
| DumpRings.DumpInfo.DumpEnd | src/tbm_surface_internal.c:1681-1766 | writes the files of all slots in slot order and unreferences every bo once |

## Left out

- Mutexes, condition variables and wakeups: a call is one step, so nothing is said about the answer of `can_dequeue` and `can_acquire` after a wait.
- SurfaceQueues.SurfaceQueue.Release: requires that a surface waiting in `dequeue_list` is not released while the queue is within its size, since the code then breaks its own rings.
- QueueHistory.SequenceOrder: requires that consumers release acquired surfaces only, for the same reason.
- QueueWiring.DetachLooseExactly: the abstract state after a harmful detach is the intended one; what a walk over the broken rings then finds is shown for one run only.
- SurfaceQueues.SurfaceQueue.Attach: the allocation of `queue_node` always succeeds, as does every other small `calloc`.
- SurfaceQueues.SurfaceQueue.NeedAttach: the allocation callback is an argument and runs in one step here; `QueueRace` models the interleaving on values.
- `queue.count`, which no decision of the code reads, and the push-front variants, which no code path uses.
- Notify and trace lists, and callbacks that call back into the queue.
- `list_replace`, which nothing calls.
- SurfaceMaps.GetInfoMapped: backend unmaps of mapped bos succeed, and the calls of one surface do not interleave.
- BoLocks.Bo.TakeLock: the backend lock is an answer given in advance; `_tbm_bo_lock` drops the mutex around it, so the accounting is for calls that do not interleave. `lock_cnt` does not run over.
- Managers.Manager.InitManager: loading the backend always succeeds; module search, environment variables and file descriptors are not modelled.
- Managers.Manager.BoImport: what the backend maps a key or fd to is an argument; export and the two backend calls themselves are not modelled, nor the bo's flags and size.
- Managers.Manager.QueueDestroy: the attached surfaces are an argument; that they are those of the queue's nodes is what `SurfaceQueues.SurfaceQueue.Destroy` and `QueueRefs` state.
- `tbm_surface_internal_get_info` without mapping, which reads handles and changes nothing.
- The pointer from a bo back to its surface, and the debug pid, keys and values.
- User data of bos and of surfaces is one model, as both use the same functions.
- `tbm_surface_create` with plane data from the backend: the planes are an argument of `PlanePartition.LayOut`; formats, bpp and getters are lookups.
- DumpRings.DumpInfo.DumpStart: the slot size and the outcome of the probing surface and of each bo allocation are arguments.
- DumpRings.DumpInfo.DumpBuffer: file names, time stamps and the files themselves are not modelled; a picture stands for the bytes written. Requires that the planes lie within the size the backend reports, which the code does not compare.
- PNG encoding and the capture functions.
- DRM and Wayland helpers, sync fences, logging and debug listings.
