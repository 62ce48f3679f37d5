# A verified model of the rubble IP pool

Rubble's daemon hands Neutron ports to pods. Three layers carry the logic, and
all three are modelled here.

* **The pool** (`pkg/pool/pool.go`) moves ports between an idle queue, an in-use
  map, creates and disposes in flight and a channel of tokens. `Acquire`,
  `checkIdle` and `checkInsufficient` give the lock back in the middle of the
  operation. `PoolSteps` is the pool as a step system: each locked section, each
  send or receive on `tokenCh`, each return of `Create` or `Dispose` and each read
  of a size outside the lock is one step, for any number of callers and the one ticker goroutine. `PoolInvariant`,
  `PoolSafety` and `PoolTheorems` prove what every interleaving keeps.
  `ObjectPools.SimpleObjectPool` is the same code as a class; every method
  returns, as a ghost, the run of the step system that the call is, with any
  other callers standing anywhere, so the theorems about runs are theorems about
  the class.
* **The queue under it** (`pkg/pool/queue.go`). `PriorityQueues.PriorityQueue` is
  the growing array heap, proved slot by slot against the functions of `Heap`,
  whose laws are proved there, in `RobHeap` and in `HeapCost`.
* **Ownership above it** (`pkg/ipam/port.go`, `pkg/daemon/daemon.go`,
  `pkg/storage/store.go`). `Ownership` is the daemon as a step system: any number
  of `AllocateIP` and `ReleaseIP` calls in flight, failed database writes and
  restarts. `ReleaseIP` takes no lock of the daemon, so reading the record, each
  turn of its loop and deleting the record are separate steps.
  `Daemons.DaemonServer`, `PortManagers.PortResourceManager` and
  `Storages.DiskStorage` are the classes; `AllocateIP`, `ReleaseIP` and the
  restart are proved to be runs of that system.

Neutron and the clock are the class `Environments.Environment`: a create fails
or returns a new, non-empty id and the address asked for; a dispose fails or
removes the port; time never goes back. The listing of a node's ports is the map
`cloud`.

## Main results

* **Conservation.** Over every interleaving, tokens + idle + in use + creates and
  disposes in flight = max(capacity, ports loaded at startup) + static creations.
  The comment at `pkg/pool/pool.go:63` promises capacity instead; that is right
  exactly without an overfull start and static creations, and then Neutron never
  lists more ports than the capacity.
* **Who can block.** A pool started with `loaded` ports has a run with k static
  creations in which a send on `tokenCh` waits if and only if
  max(0, loaded - capacity) + k > max(0, min(maxIdle, capacity / 2)), the
  capacity halved and rounded down. Half, because `tooManyIdle` adds up two sizes
  that it reads at two moments without the lock, and can count a port twice.
* **One place for every port.** Every listed port is idle, in use, in one caller's
  hands or in the ticker's, and in only one of these.
* **No two pods share a port**, over every run with overlapping calls and
  restarts, if no other call for a pod overlaps its release and a pod is released
  only while it holds a port. The guards of the single steps are exact. Without
  either rule there are runs from the first start that hand one port to two pods
  (`OverlapShares`, `TwiceAllocatedShares`, `StaleReleaseShares`), and whenever a turn of ReleaseIP
  frees a port that somebody else owns or has won, some run from there does
  (`UnclearReleaseShares`).
* **Nothing leaks** if allocate and release alternate, every write succeeds and
  there is no restart. Recording leaks in exactly the other cases, and a restart
  exactly if some listed port on record is no pod's.
* **Heap order.** `Push` and `Pop` refine a bag with least-first removal. `Rob`
  keeps heap order exactly when the last item fits under the parent of the
  vacated slot, whatever the items exactly for slots whose parent is an ancestor
  of the last slot, and for whole heaps exactly up to five items. Among all steps
  of the pool only an Acquire by name can break heap order.
* **The tick is a fixpoint**, and `checkIdle` alone leaves exactly
  min(idle, max(0, min(maxIdle, capacity - inuse))) ports, the latest reserved ones.

* **What each call answers.** The methods of the classes are runs of the step
  systems and also say, on the fields alone, which port they return, up to when a
  released port is reserved, which error is given for which reason, and what a
  failure of Neutron or of the database leaves behind. A pod without an address
  gets the port on its record if that is idle.

What the proofs found out about the code:

* `checkIdle` leaves its loop at `pkg/pool/pool.go:193-200` with the lock held,
  and then no port ever moves again (`WedgedForever`). Every pool that can hold a
  port has a run that ends there, whatever its limits (`LockLostExactly`): the
  sizes are read outside the lock, so Acquire calls in between make the test pass
  and then leave the queue empty, and the branch commented as impossible is taken.
* `PortFactory.Dispose` keeps the factory's lock when Neutron fails
  (`pkg/ipam/port.go:92-97`). From then on no Dispose returns and no Create
  returns a port (`JammedForever`); every pool that can hold a port can get there
  (`JamsExactly`).
* `ReleaseIP` deletes the record in a step of its own. An AllocateIP for the same
  pod in between, before or after the port is freed, leaves the pod with a port
  and no record, and the next restart gives the port away.
* A restart ends sticky reservations: a port kept for a released pod comes back
  as in use, and leaks (`RestartLosesSticky`).
* A second AllocateIP for a pod that already holds a port, and a failed database
  write, each leave a port in use for nobody (`RecordKeepsNoLeakExactly`).
* `getPortsMapping` reads through the PodInfo of every record and the first
  resource of a record of a pod that is gone (`pkg/daemon/daemon.go:339-344`), so a
  record without PodInfo, or without resources of such a pod, stops the daemon
  from starting. AllocateIP writes neither, so such a record comes from elsewhere
  (`RecordsStayLoggable`).
* A negative capacity passes the argument checks and panics at the channel
  allocation (`pkg/pool/pool.go:93-116`).

## How steps map to the source

| step of `PoolSteps.Next` | source |
|---|---|
| AcqLock | pkg/pool/pool.go:318-334 |
| AcqToken, AcqCancel | pkg/pool/pool.go:336-350 |
| AcqCreate, AcqRefund, AcqAdd | pkg/pool/pool.go:339-346 |
| StaticMade, StaticPut | pkg/ipam/port.go:322-329 |
| Release | pkg/pool/pool.go:379-397 |
| TickCheck, TickAny, TickSumIdle, TickSumInuse, TickSum | pkg/pool/pool.go:182-185, one read of a size each |
| TickLock, TickDispose, TickSend, TickPutBack | pkg/pool/pool.go:191-212 |
| TickNeed, TickCollect, TickCreate, TickReturn, TickAdd | pkg/pool/pool.go:215-256 |

In `Ownership.NextSys`, Alloc is `pkg/daemon/daemon.go:81-100`, Record the write
at `:114`, Fail the error at `:101-103`, RelRead `:158`, RelPool a turn of
`:163-168`, RelDelete `:169-174` and Restart `:192-250` with the initializer of
`pkg/ipam/port.go:188-223`.

## Model

| member | source | states |
|---|---|---|
| Heap.SiftUpRestores | pkg/pool/queue.go:100-109 | bubbleUp from a slot repairs a heap whose only wrong edge is above that slot |
| Heap.SiftDownRestores | pkg/pool/queue.go:117-143 | bubbleDown from a slot repairs every edge but the one above it, says exactly when that one stays wrong, and touches no earlier slot |
| Heap.RootIsLeastMember | pkg/pool/queue.go:145-150 | on a heap, what Peek shows has the least reservation time of all items |
| Heap.PushKeepsHeap | pkg/pool/queue.go:175-185 | Push keeps heap order |
| Heap.PopTakesLeast | pkg/pool/queue.go:89-98 | Pop keeps heap order and removes exactly one item, of least reservation time |
| Heap.RunRefinesBag | pkg/pool/queue.go:81-185 | every run of Push and Pop from the empty queue keeps heap order and is a run of a bag from which each Pop takes a least item |
| Heap.DrainSorts | pkg/pool/queue.go:89-98 | popping a heap until empty gives a sorted permutation of what it held |
| Heap.IndexOf | pkg/pool/queue.go:166-173 | the first slot with the id: no earlier slot has it, and the length stands for absence |
| HeapCost.UpSwapsLogarithmic | pkg/pool/queue.go:100-109 | 2 to the number of swaps of bubbleUp from slot i is at most i + 1 |
| HeapCost.DownSwapsLogarithmic | pkg/pool/queue.go:117-143 | 2 to the number of swaps of bubbleDown from slot i, times i + 1, is at most the size |
| RobHeap.RobOnHeap | pkg/pool/queue.go:152-164 | Rob on a heap removes exactly that item, keeps every edge but the one above the slot, and keeps heap order if and only if the last item fits under the slot's parent |
| RobHeap.RobKeepsLeast | pkg/pool/queue.go:152-164 | after Rob on a heap slot 0 still holds a least item |
| RobHeap.OneSiftUpRepairs | pkg/pool/queue.go:152-164 | the bubbleUp that Rob leaves out would restore heap order |
| RobHeap.SafeSlotExactly | pkg/pool/queue.go:152-164 | robbing slot i keeps heap order in every heap of n items if and only if the parent of i is an ancestor of the last slot |
| RobHeap.SafeSizeExactly | pkg/pool/queue.go:152-164 | every Rob keeps heap order in every heap of n items if and only if n is at most 5 |
| PriorityQueues.PriorityQueue.constructor | pkg/pool/queue.go:81-87 | an empty queue with a free slot |
| PriorityQueues.PriorityQueue.Pop | pkg/pool/queue.go:89-98 | gives the root, or nothing when empty; the contents become Heap.Pop of the old ones |
| PriorityQueues.PriorityQueue.BubbleUp | pkg/pool/queue.go:100-109 | the in-place loop is Heap.SiftUp and makes exactly the counted swaps |
| PriorityQueues.PriorityQueue.BubbleDown | pkg/pool/queue.go:117-143 | the in-place loop is Heap.SiftDown and makes exactly the counted swaps |
| PriorityQueues.PriorityQueue.Peek | pkg/pool/queue.go:145-150 | the root or nothing, contents unchanged |
| PriorityQueues.PriorityQueue.Rob | pkg/pool/queue.go:152-164 | takes the first item with the id out of its slot, or leaves everything as it was |
| PriorityQueues.PriorityQueue.Find | pkg/pool/queue.go:166-173 | the first item with the id, or nothing |
| PriorityQueues.PriorityQueue.Push | pkg/pool/queue.go:175-185 | the contents become Heap.Push of the old ones, a free slot remains |
| PriorityQueues.PriorityQueue.Grow | pkg/pool/queue.go:179-184 | doubling copies the slots and changes no content |
| PoolSafety.InvStep | pkg/pool/pool.go:189-412 | each step keeps: every listed port in exactly one place, only listed ports anywhere, tokens plus places conserved |
| PoolSafety.InvRun | pkg/pool/pool.go:189-412 | the invariant holds along every run of every interleaving |
| PoolTheorems.StartedInv | pkg/pool/pool.go:92-139 | a pool that has just started satisfies the invariant |
| PoolTheorems.RunHistory | pkg/ipam/port.go:322-329 | limits and startup load never change, time never goes back, statics counts the static creations of the run |
| PoolTheorems.Conservation | pkg/pool/pool.go:63-64 | in every reachable state tokens + live ports = max(capacity, loaded) + static creations so far |
| Limits.SendWaitsExactly | pkg/pool/pool.go:202-211 | a started pool has a run with k static creations that ends with a send waiting if and only if max(0, loaded - capacity) + k > max(0, min(maxIdle, capacity / 2)) |
| Limits.WaitingNeedsExcess | pkg/pool/pool.go:182-213 | whenever a send waits, that much was loaded or created in excess, because even with its unlocked reads checkIdle never thins the pool out below max(0, min(maxIdle, capacity / 2)) |
| Limits.LookPasses | pkg/pool/pool.go:182-185 | the test of checkIdle can be made to pass with no port in use if the idle ports exceed maxIdle or half the capacity |
| Limits.CloudBound | pkg/pool/pool.go:317-351 | in every reachable state tokens + the ports Neutron lists are at most max(capacity, loaded) + the ports made statically so far |
| Limits.CapacityBound | pkg/pool/pool.go:116-116 | loaded within capacity: Neutron lists at most capacity ports before the first static one is made, and up to max(0, min(maxIdle, capacity / 2)) static creations every pending send has room |
| Limits.LockLostExactly | pkg/pool/pool.go:182-200 | a started pool has a run with k static creations that loses the lock if and only if max(capacity, loaded) + k > 0 or maxIdle is negative |
| FactoryLock.JammedForever | pkg/ipam/port.go:80-98 | after one failed Dispose, over every run, no port is made or deleted, a Dispose under way never returns, and no running Create returns a port |
| FactoryLock.JamsExactly | pkg/ipam/port.go:87-98 | without static creations a started pool can get there if and only if max(capacity, loaded) > 0 |
| FactoryLock.IsRunOfPool | pkg/ipam/port.go:80-98 | the factory's lock only takes runs away, so what holds over every run of the pool still holds |
| PoolTheorems.EveryPortInOnePlace | pkg/pool/pool.go:317-370 | idle ids are distinct, not in use and in nobody's hands; two callers never hold one port; any other listed port is in exactly one pair of hands |
| PoolTheorems.CallerPortAlone | pkg/pool/pool.go:339-346 | a port a caller is about to add is nowhere else |
| PoolTheorems.StickyStays | pkg/pool/pool.go:379-397 | a reserved port stays idle along every run until its reservation ends or an Acquire takes that very item, with no heap order assumed |
| PoolTheorems.NoEarlyDisposal | pkg/pool/pool.go:191-205 | an idle port deleted from Neutron had its reservation over, unless an Acquire took it first |
| PoolTheorems.NamedAcquireGetsIt | pkg/pool/pool.go:307-326 | an Acquire naming an idle port returns that port and puts it in use, whatever the heap order |
| PoolTheorems.StickyReuse | pkg/pool/pool.go:307-397 | released with a stick time and not taken since, the port goes back to the Acquire that names it in time |
| PoolTheorems.ReservedOnlyIfAllReserved | pkg/pool/pool.go:307-325 | on a heap-ordered queue an Acquire whose named port is not idle takes a reserved port if and only if all idle ports are reserved |
| PoolTheorems.StepKeepsHeapExactly | pkg/pool/pool.go:307-315 | from a heap-ordered queue a step breaks heap order if and only if it is an Acquire by name whose Rob does not fit |
| PoolTheorems.HeapOverRuns | pkg/pool/pool.go:307-315 | heap order holds along every run whose Acquires by name all fit |
| PoolTheorems.OnlyTickLockWedges | pkg/pool/pool.go:191-200 | the lock is lost at no step but checkIdle's locked section, and there exactly if the queue is empty or its root reserved |
| PoolTheorems.WedgesExactly | pkg/pool/pool.go:191-200 | on a heap-ordered queue the lock is lost there if and only if every idle port is reserved |
| PoolTheorems.WedgedForever | pkg/pool/pool.go:191-200 | after that no run changes the idle or in-use ports, and no waiting Acquire gets anywhere |
| PoolTheorems.LockAllDrains | pkg/pool/pool.go:317-326 | n callers locking in turn take n ports out of the queue |
| PoolTheorems.EmptyQueueWedges | pkg/pool/pool.go:190-196 | the exit marked impossible is reachable whenever checkIdle found too many idle ports |
| Maintenance.LoopSizeTarget | pkg/pool/pool.go:182-213 | checkIdle leaves exactly min(idle, max(0, min(maxIdle, capacity - inuse))) if the buffer has room, else blocks on the first send without; it finishes if and only if maxIdle is not negative |
| Maintenance.TurnOnCourse | pkg/pool/pool.go:190-212 | each undisturbed turn stays on the way to that target, taking earliest reservations only |
| Maintenance.TakingEarliestComposes | pkg/pool/pool.go:190-212 | taking earliest reservations turn after turn is taking the earliest of all |
| Maintenance.TickTargetIsFixpoint | pkg/pool/pool.go:189-256 | the size after a whole tick, and that at this size neither loop has anything to do |
| Maintenance.TickReachesTarget | pkg/pool/pool.go:189-256 | with enough tokens checkIdle finishes and checkInsufficient ends at the fixpoint |
| SequentialRuns.QuietTick | pkg/pool/pool.go:189-220 | from the size a tick leaves behind, the next tick looks twice and changes nothing |
| Startup.PlacedStarts | pkg/pool/pool.go:280-284 | everything placed and max(0, capacity - size) tokens put in is a started pool |
| Startup.SplitWhole | pkg/ipam/port.go:203-220 | after the whole listing, in use are exactly the named ports and idle exactly the others, each once |
| ObjectPools.SimpleObjectPool.NewSimpleObjectPool | pkg/pool/pool.go:92-139 | argument errors, the panic on a negative capacity, the defaults 20 and 50; it succeeds exactly on sane limits unless a call to Neutron fails; the result is a started pool that recovered the listed ports, none reserved |
| Startup.PreloadRecovers | pkg/pool/pool.go:258-287 | after the Initializer and preload: named ports in use, others idle in heap order and reserved for nobody, idle at max(listed - in use, min(minIdle, capacity - in use)), the tokens left |
| ObjectPools.SimpleObjectPool.Initialize | pkg/ipam/port.go:203-220 | the loop splits the listed ports into in use and idle by the mapping, idle in heap order and reserved for nobody |
| ObjectPools.SimpleObjectPool.Preload | pkg/pool/pool.go:258-287 | idle ends at max(idle, min(minIdle, capacity - inuse)) with max(0, capacity - size) tokens, nothing lost; it fails only if a create failed |
| ObjectPools.SimpleObjectPool.Acquire | pkg/pool/pool.go:317-351 | an idle port by name or from the root; without one, no resource if and only if the pool is at its capacity, else with a token and a live context one new port for one token unless the create fails; out of time only if the context is done or there is no token; an error changes nothing; the call is a run of the steps |
| ObjectPools.SimpleObjectPool.GetOneLocked | pkg/pool/pool.go:307-315 | the named item if idle, else the root, and the queue without it |
| ObjectPools.SimpleObjectPool.ReleaseWithReverse | pkg/pool/pool.go:379-397 | the port goes from in use to the queue, reserved for the stick time from the instant read, or up to that instant without one: one Release step; an id not in use is an error that changes nothing |
| ObjectPools.SimpleObjectPool.Stat | pkg/pool/pool.go:357-370 | succeeds if and only if the id is in use or idle |
| ObjectPools.SimpleObjectPool.AddIdle | pkg/pool/pool.go:402-406 | pushes the port with the current instant and keeps heap order |
| ObjectPools.SimpleObjectPool.DisposeOne | pkg/pool/pool.go:190-212 | one turn of checkIdle, faults or not: the lock kept with the queue as it was, exactly if it is empty or its root reserved, else the root popped and disposed of for a token, or put back, reserved for nobody, if the dispose failed |
| ObjectPools.SimpleObjectPool.CheckIdle | pkg/pool/pool.go:189-213 | faults and reservations or not, a finish is at the target size with a token for each port that went; with a Neutron that does not fail and no reservation pending it terminates there, or blocks on a send without room, with the earliest reservations gone |
| ObjectPools.SimpleObjectPool.CollectTokens | pkg/pool/pool.go:221-230 | takes min(addition, tokens) tokens and never blocks |
| ObjectPools.SimpleObjectPool.CheckInsufficient | pkg/pool/pool.go:215-256 | is a run of the ticker's steps that conserves idle plus tokens, loses no idle port and adds exactly what was asked for and had tokens, less the creates that failed |
| ObjectPools.SimpleObjectPool.Tick | pkg/pool/pool.go:141-154 | whatever fails, a finished tick is short of its target by failed creates alone; a ready pool reaches the target size in one tick and is ready again; a tick that starts at the target leaves ports, tokens and cloud as they are |
| Recovery.GetPortsMapping | pkg/daemon/daemon.go:325-354 | the exact inverse of the records' pod-to-ports relation; it fails if and only if some record has no PodInfo, or is of a pod that is gone and has no resources |
| Recovery.NamersCount | pkg/daemon/daemon.go:346-351 | a port lists each pod exactly as often as that pod's records name the port |
| Recovery.NamedExactly | pkg/daemon/daemon.go:346-351 | a port is in the mapping if and only if some record names it |
| Storages.OpKeepsCoherence | pkg/storage/store.go:107-121 | a Put or Delete, committed or not, keeps the memory map equal to the decoded bucket |
| Storages.RunKeepsCoherence | pkg/storage/store.go:107-166 | over every serial run the decoded bucket is the memory map, so a load rebuilds it |
| Storages.RoundTripIsNeeded | pkg/storage/store.go:107-121 | storing one value keeps coherence if and only if that value survives encoding |
| Storages.MemoryStorage.List | pkg/storage/store.go:50-58 | every value once, none left out |
| Storages.DiskStorage.Load | pkg/storage/store.go:124-147 | rebuilds the map from the bucket; it fails only if an entry does not decode or a transaction fails |
| Storages.DiskStorage.NewDiskStorage | pkg/storage/store.go:78-105 | a storage whose memory is the decoded bucket |
| Storages.DiskStorage.Put | pkg/storage/store.go:107-121 | puts the encoded value into the bucket and the value into memory; it fails, changing neither, only if the value cannot be encoded or the transaction does not commit; the maps stay coherent |
| Storages.DiskStorage.Delete | pkg/storage/store.go:157-166 | takes the key out of both maps; it fails, changing neither, only if the transaction does not commit; the maps stay coherent |
| Ownership.InternalKeepsOwn | pkg/pool/pool.go:317-351 | whatever the pool does inside, every owner keeps its port and won ports stay with their request |
| Ownership.RecordKeepsOwn | pkg/daemon/daemon.go:104-117 | the database write makes the pod the one owner of the port it won, or changes nothing |
| Ownership.RestartKeepsOwn | pkg/daemon/daemon.go:222-250 | a restart leaves every pod the port it had, in use again |
| Ownership.RelPoolKeepsOwnExactly | pkg/daemon/daemon.go:163-168 | a turn of the release loop, which ends the pod's ownership of the port it frees and of no other, keeps everybody's ports safe if and only if nobody but the pod owns that port and no request has won it |
| Ownership.RelDeleteKeepsOwnExactly | pkg/daemon/daemon.go:169-174 | deleting the record keeps them safe if and only if the pod owns no port, as after a second AllocateIP it does |
| Ownership.OrderlyStep | pkg/daemon/daemon.go:69-174 | if releases overlap no other call for the pod and are for holders, every step meets those guards and keeps the invariants |
| Ownership.OwnRun | pkg/daemon/daemon.go:69-250 | the ownership invariant holds along every run whose steps meet the exact guards, with any requests and releases in flight and restarts |
| Ownership.NoTwoPodsShareAPort | pkg/daemon/daemon.go:69-250 | over every run from a first start, with calls for different pods overlapping at will, no two pods hold one port, and each holder's record names its port, in use and never idle |
| Ownership.SafeRunsShareNoPort | pkg/daemon/daemon.go:69-250 | the same under the exact guards of the single steps |
| SharedPorts.UnclearReleaseShares | pkg/daemon/daemon.go:163-168 | whenever a turn of the loop is about to free a port that another pod owns, or a request has won, some run hands it to two pods |
| SharedPorts.LostRecord | pkg/daemon/daemon.go:158-174 | a reachable state in which a pod holds a port without a record, after an AllocateIP between the two last steps of its release |
| SharedPorts.OverlapShares | pkg/daemon/daemon.go:158-174 | from there a restart gives the port to a second pod |
| SharedPorts.DeletesNewRecord | pkg/daemon/daemon.go:158-174 | a second AllocateIP between the read of a release and its turn gives the pod another port, whose record the release then deletes; only that deletion is outside its guard |
| SharedPorts.TwiceAllocatedShares | pkg/daemon/daemon.go:158-174 | from there a restart gives that other port to a second pod |
| SharedPorts.StaleRecord | pkg/daemon/daemon.go:158-174 | a reachable state in which the record kept for one pod names the port of another |
| SharedPorts.StaleReleaseShares | pkg/daemon/daemon.go:158-174 | from there releasing the first pod again and allocating for it gives it the other's port |
| OwnershipResults.RecordKeepsNoLeakExactly | pkg/daemon/daemon.go:104-117 | recording leaves no port in use for nobody if and only if the write succeeds and the pod held none |
| OwnershipResults.TidyRunKeeps | pkg/daemon/daemon.go:48-174 | over tidy runs every port in use is some pod's or about to be recorded |
| OwnershipResults.InUseAreTheOwners | pkg/daemon/daemon.go:48-174 | with no request in flight the ports in use are then one to one with the pods that hold one |
| OwnershipResults.ProjectRuns | pkg/daemon/daemon.go:48-174 | a run of the daemon without restart is a run of its pool |
| OwnershipResults.PodGetsItsPortBack | pkg/daemon/daemon.go:48-62 | a pod released with a stick time gets its port back in time, unless a restart or another Acquire took it |
| OwnershipResults.RestartLeaksExactly | pkg/ipam/port.go:203-214 | a restart leaves no port in use for nobody if and only if every listed port on record was some pod's |
| OwnershipResults.RestartLosesSticky | pkg/ipam/port.go:203-214 | so the kept port of a released pod comes back in use for nobody and is not idle |
| OwnershipResults.RecordsStayLoggable | pkg/daemon/daemon.go:104-117 | along every run from records as AllocateIP writes them, no record can stop a restart |
| PortManagers.PortResourceManager.AcquireIdleAddress | pkg/ipam/port.go:303-316 | the idle port at the index found is the one acquired, by id, and put in use |
| PortManagers.PortResourceManager.CreateAddress | pkg/ipam/port.go:321-330 | a new port with the address, listed by nobody before, goes through the queue into use; it fails only if the create does, and then changes nothing |
| PortManagers.PortResourceManager.AcquireStaticAddress | pkg/ipam/port.go:271-335 | a success is a port with exactly the annotated address, in use: the first idle one if the address is listed, else a new one; without faults it succeeds if and only if the address parses and is idle here or on no listed port; which error in which case |
| Recovery.OfKindFilters | pkg/ipam/resource_manager.go:29-39 | the selected resources are those of the kind, each as often as it occurs |
| Recovery.OfKindInOrder | pkg/ipam/resource_manager.go:29-39 | and in their order |
| Recovery.OldIdIsOnlyPort | pkg/daemon/daemon.go:48-62 | the id allocatePortIP passes on is that of the only resource of the kind on a record with PodInfo, and none exactly where there is no such resource or it has no id |
| Recovery.GetResourceItemByType | pkg/ipam/resource_manager.go:29-39 | the loop selects exactly those |
| Daemons.DaemonServer.NewDaemonServer | pkg/daemon/daemon.go:222-250 | the restart is one Restart step from the system before it; the pool has the configured limits or the defaults 20 and 50, the listed ports on record in use, all others idle and reserved for nobody, preloaded up to minIdle, and the tokens left; it comes up if and only if the bucket decodes, every record can be logged and the limits are sane, but for faults |
| Daemons.MappedAreRecorded | pkg/daemon/daemon.go:325-354 | the mapping has exactly the ports that pods have on record |
| Daemons.IdlePort | pkg/daemon/daemon.go:48-62 | the item taken for the id that allocatePortIP passes on is the only port on the pod's record if that is idle; where the record names no idle port it is the root, on a heap one of least reservation time |
| Daemons.DaemonServer.AllocatePortIP | pkg/daemon/daemon.go:48-67 | without address annotations the idle port on the pod's record, without a record one of least reservation time, without idle ports a new one; with an address the first idle port that has it or a new one; which error in which case; the answer is a run of the daemon's steps |
| Daemons.DaemonServer.AllocateIP | pkg/daemon/daemon.go:69-138 | a run of the daemon's steps that keeps the ownership invariant; every success returns the port the pool should answer with (the recorded one if idle, one of least reservation time without a record, the annotated address), owned by the pod alone, recorded and in use; it succeeds whenever the pool has a port to give and the record can be written; an error leaves owners and records as they were, unless the write had gone through |
| Daemons.DaemonServer.RecordPort | pkg/daemon/daemon.go:104-117 | the pod owns the port and has its record if the write succeeds, else nothing is owned or recorded; the write fails only if the record cannot be encoded or the transaction does not commit |
| Daemons.DaemonServer.ReleaseIP | pkg/daemon/daemon.go:140-186 | the port on the pod's record goes to the queue, reserved for the stick time from the present instant, and nothing else moves; for a record with any resources each port freed is idle and reserved likewise; it succeeds exactly if all were in use, but for a failed deletion; the record goes only then and without a stick time; the invariant holds afterwards if and only if nobody else held a port the loop released |
| Daemons.DaemonServer.ReleasePorts | pkg/daemon/daemon.go:163-168 | the loop releases in order up to the first resource that is not in use, which is its error |
| Daemons.FreedOne | pkg/daemon/daemon.go:163-168 | the loop of ReleaseIP moves one port after the other to the queue, each reserved for the stick time from its own instant |

## Left out

- Neutron and Kubernetes clients, CNI binary, netlink, gRPC, logging: I/O through libraries; only a factory, a listing and inputs remain.
- The lock inside `PortFactory` in the classes: their creates and disposes return even after a failed Dispose; `FactoryLock` says what happens in the code. A port that a Create made but cannot return is on no list of the model until a restart.
- `PortFactory.Create` that makes a port and then cannot tag it: the port exists but no listing of the node shows it, so here the create just failed.
- Ports deleted or tagged by Neutron calls still running when the daemon dies: a restart sees at least the ports listed before.
- The plain `Queue` and the unused `dispose` of the pool: they would only add easy members.
- `AcquireAny`, `Release`, `GarbageCollection`, getters: one call to a modelled operation.
- Delivery of `notify`, the ticker's period and fairness: the ticker may begin at any time, so there are no liveness results beyond single calls.
- Interleavings inside `DiskStorage.Put` and `Delete`: both maps change in one step. (Calls for one pod overlap in the step system all the same.)
- Races between `GetIdle` and `Acquire` in static allocation: the class states it without interference; in the step system the Acquire that follows may lose the port to another caller.
- Memory effects of unlocked reads (`tooManyIdle`, `GetIdle`): each read of one size is one step. Go leaves the order of the two reads of the sum open, so both orders are steps; that also covers reads in the middle of a locked section, which changes each size once.
- Queue slots as shared pointers: slots hold values, since items are never changed after they are pushed.
- bolt and JSON: an abstract bucket, transactions that commit or not, and an encoding assumed to be undone by decoding.
- `NetConfFromPort` and the final context check: one input that says whether they succeed after the write; on failure the pod keeps its port, as in the code.
- ObjectPools.SimpleObjectPool.CheckIdle: does not model the wait for the factory's lock after a failed Dispose, see above; its loop goes on, and ends because the environment has finitely many faults left.
