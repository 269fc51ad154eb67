# GPU-over-IP: a verified model of its stateful core

This project models the parts of GPU-over-IP that hold state, run concurrently or
compute: the server's datagram queue and its function cache, the launcher's cooling
service, dispatcher, fake-pointer protocol and pointer table, the RDMA transport, and
the encodings that cross the wire. `dafny verify dfyconfig.toml` checks everything.

Code that updates objects is modelled as classes whose methods are proved against
functions of their state; code in which threads or replies interleave is modelled as a
transition system whose steps are the lock boundaries, RPC legs and library calls of the
source, with theorems about every run.

| file | models |
|---|---|
| `Ring.dfy`, `DataPlane.dfy` | the 1024-slot ring, and receiver, four workers, mutex, condition variable and buffer pool around it |
| `FunctionCache.dfy` | `getCudaFunction` with any number of concurrent callers |
| `Cooling.dfy` | the access table, its heat, and the cooling pass |
| `Dispatcher.dfy` | scoring, selection, the placement decision, lookup by id, configuration reloads |
| `AllocationProtocol.dfy` | asynchronous allocation and free through fake pointers |
| `LittleEndian.dfy`, `Marshalling.dfy`, `Routing.dfy` | kernel parameters, the message header, local and remote memory effects |
| `Server.dfy` | the data plane and the processing of its messages together |
| `NumaAddress.dfy`, `GlobalMemory.dfy` | decimal printing and parsing, the pointer table and its snapshot |
| `Rdma.dfy` | region registration, transfers and teardown against a replay of the verbs contract |
| `NodeStatus.dfy` | the server's choice of the node with the most memory |

Library answers (sockets, driver, network, kernel, `exp`, clocks, iteration order of hash
tables) are parameters or nondeterministic choices, so each statement holds for all of them.
Floating-point numbers are real numbers.

## What turned out not to hold, and exactly when it does

Each entry names the input or run that breaks the property and the condition under which it holds.

- The server survives every datagram: a local copy of 0 bytes panics on `&payload[0]`, nothing
  recovers, and the process ends. `ZeroCopyPanics` is the datagram, thirty-two bytes long, for
  each address; `ZeroCopyEndsTheServer` says that each one whose address is local ends some run.
  `ProcessMessage` says that this is the only panic, `CrashPossibleIff` that a run can end so
  exactly if such a message fits a buffer.
- A queued message is always taken: no later event helps exactly once the server has crashed,
  or while all four workers hold messages that panic; otherwise six steps are enough
  (`CanBeTakenIff`). `MessageBehindPanicsLost` reaches a state of either kind, and
  `MessageBehindZeroCopyLost` says so of any message accepted behind the datagram above.
  If nothing taken so far panics, no message is stuck (`NeverStuckWithoutPanic`). On no schedule
  do the workers make more than sixteen steps without a take (`WorkersMustTake`).
- A local copy or set reaches its address: the source asks for an anonymous mapping and passes
  the address as a file offset, so the bytes go to a private region that is unmapped again.
  `AsWrittenNothingArrives` says of every local copy or set of at least one byte that it is
  reported done and changes nothing; `ReachesMemoryIff` that a write arrives exactly if the
  mapping shows the destination. What is said about memory elsewhere holds for either mapping.
- The workers' schedule does not show in memory: with mappings of the destination, exactly if
  the messages' writes agree wherever they meet (`ScheduleFreeIff`). `TwoCopiesRace` is a pair
  of messages for which it shows.
- A module is loaded at most once: false for concurrent first callers, because the module
  map is not re-checked under the write lock. `ConcurrentFirstCallersLoadTwice` is a run;
  `ReloadPossibleIff` says from which states a further load can happen, and
  `MostReloadsIsStaleCallers` how many there can be.
- Stability lies in [0, 0.5]: the upper bound always holds. The lower one fails when a pass
  read its clock a second or more before an access that got the lock first, because the
  reading is taken before the lock. `LatePassGoesNegative` is a run; `NegativeStabilityIff`
  and `NeverNegativeIff` are the exact conditions for one record and for a whole run.
- A placement decision sees one state of the cooling service: its getters lock one by one.
  `MixedAnswers` is a run in which they report hot data without a NUMA node, which the table
  never shows. `DeadBranches` holds however the getters and the service interleave.
- VRAM is chosen only with room for twice the size: the product wraps, so this holds exactly
  below 2^63 bytes (`RoomForTwiceIff`); `WrapChoosesVram` is a node on which it fails.
- `PickNode` returns the node that won: exactly when the winner is the first record under its
  id (`PickSoundIffWinnerIsFirst`); `ChangedRecordPicksTooSmall` is a list on which it fails.
- Every mapping names its own live allocation: exactly until a node has carried out the free
  whose reply is still on its way (`PlanTargetsOwnAllocationIff`). The launcher cannot see
  that moment; from the moment its owner asks for the free a stale plan is possible, and never
  before (`StaleOnlyOnceFreeRequested`). `FreedButStillMapped` is a run.
- No pointer is deleted twice: exactly while a pointer has at most one free under way
  (`WildDeleteIffSecondFree`); `FreedButStillMapped` ends in a state from which a second
  request can delete twice. The hook's `g_api_mutex` (client/hook/hook_cuda.cpp:58, 71) is
  what keeps it so.
- The parameters reach the device: exactly when `paramBytes` is their total size and not 0
  (`BufferIsConcatenationIff`). The client never sets it, and then every launch fails
  (`UnsetSizeAlwaysFails`).
- Initializing an RDMA transport keeps its record exact: not a second time, except as
  `InitializeSoundIff` says; `SecondInitializeLosesDevice` is a pair of calls.
- Tearing a transport down gives everything back: exactly if no transfer was ever given a
  completion queue (`WholeLifeIsCleanIff`), since no code destroys one and a device with
  queues cannot be closed. `OneTransferBlocksTeardown` is a run with a single successful
  transfer. Regions and the domain are always given back (`DomainAlwaysReleased`).
- The comment at client/launcher/services/cooling_service.cpp:126 speaks of a half-life of one
  hour; the code uses exp(-t/3600), and the model follows the code.

## Model

| member | source | states |
|---|---|---|
| Ring.EnqueueRefinesQueue | cmd/capnpserver/main.go:292-303 | the receiver's section appends to a bounded queue of 1023 messages, or leaves it alone when full; no undelivered slot is overwritten |
| Ring.DequeueRefinesQueue | cmd/capnpserver/main.go:253-255 | a worker's section hands out the oldest message and keeps the rest in order |
| Ring.EmptyIffCursorsMeet | cmd/capnpserver/main.go:250-252 | the workers' loop test is emptiness of the queue |
| Ring.RingBuffer.TryEnqueue | cmd/capnpserver/main.go:292-303 | the in-place update of array and head is the specified section |
| Ring.RingBuffer.Take | cmd/capnpserver/main.go:253-255 | the in-place read and advance of tail is the specified section |
| DataPlane.StepKeepsInv | cmd/capnpserver/main.go:235-305 | every step of every thread keeps mutual exclusion, wake-ups, ownership, FIFO, integrity, delivery counts and accounting |
| DataPlane.WakeupNeverLost | cmd/capnpserver/main.go:249-255 | in every reachable state, while a worker is parked there are as many workers on the way to the loop test, plus the Signal still owed, as messages queued, though Signal follows Unlock; a queued message never has all workers parked and no Signal owed |
| DataPlane.CanBeTakenIff | cmd/capnpserver/main.go:248-304 | from a reachable state with a queued message some run, of whatever length and with whatever datagrams, takes one exactly if the server has not crashed and some worker does not hold a panicking message; then six steps without a receive take the oldest |
| DataPlane.NeverStuckWithoutPanic | cmd/capnpserver/main.go:248-304 | if no message taken so far panics, a reachable state with a queued message is at most six steps, none of them a receive, from its being taken |
| DataPlane.MessageBehindPanicsLost | cmd/capnpserver/main.go:244-305 | for any panicking message and any other behind it, a run to a crash with the other still queued, and a run to four stuck workers with it still queued, neither of which any continuation takes it from |
| DataPlane.WorkersMustTake | cmd/capnpserver/main.go:248-262 | on every schedule, while a message stays queued the four workers make at most sixteen steps without a take |
| DataPlane.OnlyAPanicCrashes | cmd/capnpserver/main.go:253-262 | a reachable crash has an accepted message that panics, taken and never delivered |
| DataPlane.CrashPossibleIff | cmd/capnpserver/main.go:244-305 | some run crashes exactly if some message of at most 4096 bytes panics |
| DataPlane.BufferHasOneHolder | cmd/capnpserver/main.go:253-262 | every buffer is held once, by the pool, the receiver, the live window or one worker, despite stale slots; pooled buffers are full size, so the re-allocation at 271-273 never happens |
| DataPlane.HeldArrayUntouched | cmd/capnpserver/main.go:284-301 | no step writes to a backing array the queue or a worker refers to |
| DataPlane.NothingUnaccounted | cmd/capnpserver/main.go:267-305 | received = taken + queued + dropped as too large + dropped as full + in hand, over every run |
| DataPlane.TakenExactlyOnceIntact | cmd/capnpserver/main.go:253-262 | each taken message is with one worker or was processed once, with the bytes that were accepted |
| DataPlane.QuiescentMeansAllProcessed | cmd/capnpserver/main.go:248-262 | with nothing queued or held and no crash, every accepted message has been processed exactly once, none of them panics, and nothing else has been processed |
| DataPlane.AnyoneCanBeLast | cmd/capnpserver/main.go:244-262 | for any list of messages that fit and do not panic, and any one of them, a run that accepts them in order and finishes that one last |
| DataPlane.QueueIsUntakenHistory | cmd/capnpserver/main.go:290-303 | the queue is the accepted history without its taken prefix, byte for byte |
| DataPlane.TooLargeIffOverCapacity | cmd/capnpserver/main.go:285-290 | a message is dropped as too large exactly above 4096 bytes, and otherwise copied whole, while the server runs |
| FunctionCache.CacheStore.LoadUnderLock | cmd/capnpserver/main.go:479-510 | the write-locked section: a loaded module is remembered and the module map changes in no other way; a failed load changes nothing; function and name maps grow together, with the name asked for |
| FunctionCache.CacheStore.GetFunction | cmd/capnpserver/main.go:456-511 | an uninterrupted call: exactly when it succeeds and with which function, either error, the module it leaves cached; success is remembered, old entries stay, the recorded name wins over the request's |
| FunctionCache.EntriesArePermanent | cmd/capnpserver/main.go:483-508 | no step changes or removes a cached function or its name |
| FunctionCache.SnapshotsDecide | cmd/capnpserver/main.go:459-477 | what a caller knows after each read-locked snapshot |
| FunctionCache.CallReturns | cmd/capnpserver/main.go:479-510 | what a caller answers after its write-locked section: the cached function, either error, or what the driver found for its name in its module |
| FunctionCache.CallersAgree | cmd/capnpserver/main.go:456-511 | in every interleaving two successes for one handle are the same function |
| FunctionCache.CacheMatchesMetadata | cmd/capnpserver/main.go:500-508 | function and name maps have equal domains, and each cached function was found under the recorded name in a loaded module |
| FunctionCache.LoadedModuleIsRemembered | cmd/capnpserver/main.go:489-497 | over every run a module is cached exactly once one has been loaded, and it is the one that the latest load returned |
| FunctionCache.OneLoadEndsLoading | cmd/capnpserver/main.go:459-497 | after any load of any run, no caller that starts later loads, and the stale callers bound the further loads |
| FunctionCache.OnlyStaleCallersReload | cmd/capnpserver/main.go:459-497 | once a module is cached, every later load is by a caller that had already looked, seen none, and asks for an uncached handle |
| FunctionCache.LaterCallersNeverLoad | cmd/capnpserver/main.go:459-497 | no caller that starts after the module is cached loads it |
| FunctionCache.EachCallerLoadsOnce | cmd/capnpserver/main.go:456-511 | over every run no caller loads the module twice |
| FunctionCache.MostReloadsIsStaleCallers | cmd/capnpserver/main.go:459-497 | once a module is cached, the number of callers with an empty snapshot and an uncached handle bounds the further loads of every run, and some run reaches it |
| FunctionCache.ReloadPossibleIff | cmd/capnpserver/main.go:489-497 | a further load is possible exactly while some caller holds an empty snapshot for an uncached handle |
| FunctionCache.ConcurrentFirstCallersLoadTwice | cmd/capnpserver/main.go:489-497 | a run in which two first callers load the module twice |
| Cooling.CoolingService.RecordAccess | client/launcher/services/cooling_service.cpp:33-52 | one access updates one record and leaves it hot |
| Cooling.CoolingService.CoolingPass | client/launcher/services/cooling_service.cpp:101-140 | erasing while iterating, in any order, equals the pointwise transform of the table |
| Cooling.CoolingService.CoolRecord | client/launcher/services/cooling_service.cpp:110-137 | one round of the loop: dropped exactly when idle for six seconds or more with count at most 1, otherwise every field of what is kept; the count stays at least 1 and the temperature does not rise |
| Cooling.NegativeStabilityIff | client/launcher/services/cooling_service.cpp:105-129 | a pass scores a record below zero exactly when its clock reading is a second or more older than the access |
| Cooling.PassNonNegativeIff | client/launcher/services/cooling_service.cpp:105-129 | a pass leaves no negative score exactly if its clock reading is less than a second older than every access in the table |
| Cooling.RunKeepsTableOk | client/launcher/services/cooling_service.cpp:33-140 | over every run: count at least 1, stability at most 0.5, temperature in [0,1], mobility 0 |
| Cooling.NeverNegativeIff | client/launcher/services/cooling_service.cpp:105-129 | a whole run shows no negative score exactly if no pass read the clock a second or more before the latest access of a pointer with a positive balance, a condition on the events alone |
| Cooling.LatePassGoesNegative | client/launcher/services/cooling_service.cpp:103-129 | one access and one late pass that lead to a negative score |
| Cooling.StabilityGrows | client/launcher/services/cooling_service.cpp:125-129 | stability never falls with more uses or longer idleness, and uses saturate at one hundred |
| Cooling.CountIsBalance | client/launcher/services/cooling_service.cpp:37-121 | a record exists exactly while accesses exceed stale passes, and its count is the difference, by a ledger that knows no table |
| Cooling.RecordIsLedger | client/launcher/services/cooling_service.cpp:33-140 | over every run each field of each record, by ledgers over the events that know no table: the temperature is the product of the factors of the passes since the last access, the score what the latest pass made of uses and idleness |
| Cooling.GettersAnswer | client/launcher/services/cooling_service.cpp:54-99 | what the five getters answer after any run, by the same ledgers; hot exactly above 0.8 |
| Cooling.PassOverRecord | client/launcher/services/cooling_service.cpp:110-137 | what one pass drops and makes of the rest, with the constants of the source written out |
| Cooling.ColdAfterPass | client/launcher/services/cooling_service.cpp:132-135 | a pass whose factor is at most 0.8 leaves nothing hot |
| Cooling.ColdFromFarPassOn | client/launcher/services/cooling_service.cpp:54-135 | an untouched pointer is cold from the first such pass on, in every run |
| Cooling.ErasedAtCthStalePass | client/launcher/services/cooling_service.cpp:111-121 | a record with count c left alone is erased at exactly its c-th stale pass |
| Cooling.EmptiesAfterLargestCount | client/launcher/services/cooling_service.cpp:109-121 | without accesses the table is empty after exactly as many stale passes as its largest count |
| Cooling.AccessMakesHot | client/launcher/services/cooling_service.cpp:38-63 | an accessed pointer is hot, at temperature 1 |
| Cooling.UntouchedNeverWarms | client/launcher/services/cooling_service.cpp:54-63 | between accesses the temperature never rises, and once cold or erased a pointer stays cold |
| Cooling.HotOnlyAfterAccess | client/launcher/services/cooling_service.cpp:54-63 | a hot pointer has been accessed |
| Dispatcher.ScoreBounds | client/launcher/dispatcher.cpp:13-46 | for well-reported eligible nodes the unsigned subtraction does not wrap and the score lies in (0.1, 1.0] |
| Dispatcher.WorthOfNuma | client/launcher/dispatcher.cpp:37-45 | a NUMA match is worth exactly 0.1 |
| Dispatcher.WorthOfPriority | client/launcher/dispatcher.cpp:34-44 | each point of priority is worth 0.001 |
| Dispatcher.WorthOfLoad | client/launcher/dispatcher.cpp:31-43 | each point less of summed load is worth 0.001 |
| Dispatcher.WorthOfLatency | client/launcher/dispatcher.cpp:28-42 | a latency is worth 0.2 / (1 + latency) |
| Dispatcher.WorthOfMemory | client/launcher/dispatcher.cpp:21-41 | free memory after the request is worth 0.3 times its share of the total, and nothing if the total is unknown |
| Dispatcher.ScoreOfIdleNode | client/launcher/dispatcher.cpp:13-46 | the whole score of an idle node, which anchors the differences |
| Dispatcher.SelectNode | client/launcher/dispatcher.cpp:105-118 | the first maximal eligible node above the sentinel; none exactly when there is none, which for well-reported nodes means nobody has the memory |
| Dispatcher.WinnerIsUnique | client/launcher/dispatcher.cpp:109-118 | the selection's specification has one answer |
| Dispatcher.ImprovementRaisesScore | client/launcher/dispatcher.cpp:13-46 | more memory, less latency or load, or higher priority never lowers a score |
| Dispatcher.ChoiceStableUnderImprovement | client/launcher/dispatcher.cpp:105-118 | a chosen node that only improves is still chosen |
| Dispatcher.AffinityDecides | client/launcher/dispatcher.cpp:105-118 | of two nodes alike but for id and NUMA node the one elsewhere never wins |
| Dispatcher.LoneNodeChosenIff | client/launcher/dispatcher.cpp:102-118 | a lone idle node is chosen for all its memory exactly above priority -1600: the sentinel is -1 and negative scores do win |
| Dispatcher.Dispatcher.MakeAllocationDecision | client/launcher/dispatcher.cpp:99-229 | out of memory exactly when no node qualifies, else a plan for the winner with every field decided as specified from the getters' answers |
| Dispatcher.Dispatcher.Place | client/launcher/dispatcher.cpp:127-228 | each field of the plan, in both directions, from the node and the four answers, whatever they are |
| Dispatcher.PlanAtThresholds | client/launcher/dispatcher.cpp:134-226 | on which side each threshold itself lies |
| Dispatcher.DeadBranches | client/launcher/dispatcher.cpp:128-226 | with the four getters reading at any four successive points of any run of the cooling service: never LOCAL, never GDR, never HOST through mobility; transport follows heat and RDMA support alone |
| Dispatcher.MixedAnswers | client/launcher/dispatcher.cpp:128-131 | a run in which the getters answer what no single state of the table would |
| Dispatcher.RoomForTwiceIff | client/launcher/dispatcher.cpp:143 | the wrapped guard means room for twice the size exactly below 2^63 bytes |
| Dispatcher.WrapChoosesVram | client/launcher/dispatcher.cpp:134-147 | a node with 2^63 bytes free, asked for all of them, gets the data placed in VRAM |
| Dispatcher.Dispatcher.LoadConfig | client/launcher/dispatcher.cpp:64-96 | appends the readable records up to the first bad one, and succeeds exactly when there is none |
| Dispatcher.ReadableIsPrefix | client/launcher/dispatcher.cpp:64-96 | the readable records are exactly those before the first bad one |
| Dispatcher.Dispatcher.GetNodeById | client/launcher/dispatcher.cpp:242-248 | the first record with the id, or none exactly when there is none |
| Dispatcher.Dispatcher.PickNode | client/launcher/dispatcher.cpp:231-240 | the first record under the winner's id |
| Dispatcher.PickSoundIffWinnerIsFirst | client/launcher/dispatcher.cpp:231-248 | that record has the memory and the best score exactly when no earlier record shares the winner's id |
| Dispatcher.ConsistentIdsPickSoundly | client/launcher/dispatcher.cpp:231-248 | if records sharing an id are equal, the pick is the winner |
| Dispatcher.ReloadAppends | client/launcher/dispatcher.cpp:64-91 | each reload appends the records once more |
| Dispatcher.ReloadsKeepIdsConsistent | client/launcher/dispatcher.cpp:64-91 | any number of reloads of unchanged records keeps ids consistent |
| Dispatcher.ChangedRecordPicksTooSmall | client/launcher/dispatcher.cpp:231-248 | a reload after a change can return a node without the memory |
| AllocationProtocol.RootService.AllocationRequested | client/launcher/main.cpp:34-46 | the out-of-memory error exactly if the dispatcher picked no node |
| AllocationProtocol.RootService.AllocationReplied | client/launcher/main.cpp:47-68 | an error changes nothing and returns 0; a success maps a new pointer |
| AllocationProtocol.RootService.Resolve | client/launcher/main.cpp:71-118 | where a free or a memcpy plan is directed, or the invalid-value error |
| AllocationProtocol.RootService.FreeReplied | client/launcher/main.cpp:87-91 | the mapping and the pointer go, whatever the node answered |
| AllocationProtocol.TablesAndFreesKept | client/launcher/main.cpp:34-92 | every serialised step keeps table, heap and frees in flight in agreement |
| AllocationProtocol.TableIsHeap | client/launcher/main.cpp:56-91 | the table's keys are exactly the undeleted pointers, nothing else was deleted, and every mapped pointer has a node to go to |
| AllocationProtocol.FreesHitLiveAllocations | client/launcher/main.cpp:74-86 | a free on its way always targets the live allocation its mapping claims |
| AllocationProtocol.LiveAllocationsAccounted | client/launcher/main.cpp:46-91 | live remote allocations are the disjoint union of mapped, replied-but-unmapped and leaked ones |
| AllocationProtocol.NoAllocationNamedTwice | client/launcher/main.cpp:46-91 | two current mappings, or two replies on their way, never name one allocation |
| AllocationProtocol.PlanTargetsOwnAllocationIff | client/launcher/main.cpp:94-118 | a plan's handle is the pointer's own live allocation exactly until a node has freed it |
| AllocationProtocol.StalePlanPossibleIff | client/launcher/main.cpp:71-118 | some continuation without a further free request leads to a stale plan exactly while a free of the pointer is under way that its node has not refused |
| AllocationProtocol.StaleOnlyOnceFreeRequested | client/launcher/main.cpp:71-118 | for a mapped pointer with no free under way a stale plan becomes possible exactly by asking for its free |
| AllocationProtocol.FreedButStillMapped | client/launcher/main.cpp:71-118 | a run to a state with a stale plan, from which a second free can delete twice |
| AllocationProtocol.WildDeleteIffSecondFree | client/launcher/main.cpp:71-92 | a free request makes a double delete possible exactly when one for the same pointer is already under way |
| LittleEndian.FromToLE | cmd/capnpserver/main.go:323 | decoding inverts encoding for every value that fits |
| LittleEndian.ToFromLE | cmd/capnpserver/main.go:323 | encoding inverts decoding for every byte string |
| LittleEndian.LeastByteFirst | cmd/capnpserver/main.go:323 | byte i is the value shifted right by i bytes, modulo 256 |
| Marshalling.ConvertToKernelLaunch | client/launcher/protocol_adapter.cpp:130-165 | the count is the first null index or the maximum, and each parameter is its packed word |
| Marshalling.PackedParameter | client/launcher/protocol_adapter.cpp:141-165 | kind, value, location, alignment and offset of a packed parameter, pointer exactly if its location is known |
| Marshalling.PrepareParamBuffer | cmd/capnpserver/main.go:413-439 | the buffer is the values laid over the recycled bytes, with both faults characterised |
| Marshalling.BytesOfBuffer | cmd/capnpserver/main.go:413-433 | each byte of the buffer: of the values, then of the recycled array, or zero if that was too short |
| Marshalling.FaultIff | cmd/capnpserver/main.go:414-444 | exactly when either fault comes |
| Marshalling.BufferIsConcatenationIff | cmd/capnpserver/main.go:413-433 | it is exactly the concatenation, with no recycled byte, iff the announced size is the sum and not 0 |
| Marshalling.WordsAtMultiples | cmd/capnpserver/main.go:428-433 | the i-th eight-byte value lies at bytes 8i to 8i + 8 |
| Marshalling.ParametersArrive | client/launcher/protocol_adapter.cpp:141-160 | with the size set, the server's buffer decodes to the client's words in order |
| Marshalling.UnsetSizeAlwaysFails | cmd/capnpserver/main.go:414-444 | with the size left at 0, one parameter faults on the empty buffer, if the driver allocates 0 bytes, and several on the slice |
| Routing.ParseInvertsLayout | cmd/capnpserver/main.go:316-326 | parsing inverts the 1+8+4+19-byte layout for all field values |
| Routing.LayoutInvertsParse | cmd/capnpserver/main.go:316-326 | every 32-byte string is the layout of what it parses to |
| Routing.Node.ProcessMessage | cmd/capnpserver/main.go:308-350 | accepted exactly when long enough; payload of exactly DataSize bytes; the length error is unreachable; the panic happens exactly for a local copy of 0 bytes; effects on memory, for each kind of mapping, and on commands sent |
| Routing.Node.RouteMemoryAccess | pkg/numa/routing.go:51-62 | local access on the same node, otherwise one command to the target and no local write |
| Routing.Node.AccessViaXBus | pkg/numa/routing.go:73-127 | every error case; copy and set write the requested range if the mapping shows the destination, and no memory at all through the anonymous mapping of the source |
| Routing.ReachesMemoryIff | pkg/numa/routing.go:83-96 | an access that is reported done has reached memory exactly if the mapping shows the destination |
| Routing.AsWrittenNothingArrives | pkg/numa/routing.go:83-96 | with the mapping the source asks for, exactly the local copies and sets of at least one byte are reported done, and no message changes memory |
| Routing.ZeroCopyPanics | pkg/numa/routing.go:91-96 | for every address a datagram of thirty-two bytes that panics exactly where the address is local |
| Routing.WriteChangesExactlyItsRange | pkg/numa/routing.go:95-121 | a write changes the bytes from addr to addr + size and no others |
| Routing.ByteAfterAll | cmd/capnpserver/main.go:257-258 | after any series of writes each byte is what one of the writes covering it says, or as before if none does |
| Routing.LastWriteWins | cmd/capnpserver/main.go:257-258 | the last write decides the bytes it covers, and no others |
| Routing.AnyOrderSameMemory | cmd/capnpserver/main.go:257-258 | the same writes leave the same memory in whatever order, if they agree wherever they meet |
| Server.CrashPossibleIff | cmd/capnpserver/main.go:244-350 | a run of the server can crash exactly if a message that fits a buffer is a local copy of 0 bytes |
| Server.ZeroCopyEndsTheServer | cmd/capnpserver/main.go:244-350 | for every address, the thirty-two byte datagram ends some run of any server to which it is local |
| Server.MessageBehindZeroCopyLost | cmd/capnpserver/main.go:244-350 | any message accepted behind that datagram can be lost |
| Server.MemoryAsInArrivalOrder | cmd/capnpserver/main.go:244-350 | a quiescent state has seen no panic, and in every quiescent state of every run four workers finishing in any order have left the memory that handling the accepted messages in order of arrival would leave, if their writes agree wherever they meet |
| Server.ScheduleFreeIff | cmd/capnpserver/main.go:244-350 | for messages that can all be handled, every run that accepts them and comes to rest leaves the memory of arrival order exactly if their writes agree wherever they meet |
| Server.TwoCopiesRace | cmd/capnpserver/main.go:244-350 | two copies of different bytes to one address for which the schedule shows |
| Routing.CopyMessageArrives | cmd/capnpserver/main.go:316-342 | a well-formed copy message writes its payload at its address, if the mapping shows the destination |
| Routing.CopiedBytes | cmd/capnpserver/main.go:316-342 | a local copy by its bytes alone: each byte of the range is the byte that many places after the header, no other changes |
| Routing.SetMessageArrives | pkg/numa/routing.go:99-121 | a local set by its bytes alone: each byte of the range is the first byte after the header, no other changes |
| Routing.LocalErrors | pkg/numa/routing.go:73-127 | exactly when each error, the panic and success come |
| NumaAddress.PrintParse | client/launcher/memory/numa_address.h:11-24 | parsing inverts printing for all pairs of 32-bit ids |
| NumaAddress.StoiReadsSigned | client/launcher/memory/numa_address.h:20-21 | stoi reads back a printed integer exactly in the 32-bit range and reports the range error outside it |
| NumaAddress.IndeterminateIffNoColon | client/launcher/memory/numa_address.h:16-24 | the fields are left unset exactly for a string without a colon |
| NumaAddress.DecimalInjective | client/launcher/memory/global_memory.cpp:35 | distinct pointers have distinct decimal keys |
| NumaAddress.DigitsOfDecimal | client/launcher/memory/global_memory.cpp:35 | the digits themselves, least significant last |
| NumaAddress.ServerComesFirst | client/launcher/memory/numa_address.h:11-22 | the server id comes first in print and in parsing |
| NumaAddress.StoiSkipsSpaces | client/launcher/memory/numa_address.h:20-21 | the six kinds of space before a number are ignored |
| NumaAddress.StoiStops | client/launcher/memory/numa_address.h:20-21 | whatever follows the digits is ignored |
| NumaAddress.FirstBadPartThrows | client/launcher/memory/numa_address.h:19-22 | either part may throw, the server's first |
| GlobalMemory.GlobalMemoryService.AddMapping | client/launcher/memory/global_memory.cpp:8-13 | inserts with a cleared counter |
| GlobalMemory.GlobalMemoryService.GetMapping | client/launcher/memory/global_memory.cpp:15-24 | counts the read and returns the counted entry, or changes nothing |
| GlobalMemory.GlobalMemoryService.RemoveMapping | client/launcher/memory/global_memory.cpp:26-29 | erases one pointer |
| GlobalMemory.GlobalMemoryService.SaveSnapshot | client/launcher/memory/global_memory.cpp:31-40 | one entry per mapped pointer under its decimal key, in any iteration order |
| GlobalMemory.SnapshotDeterminesTable | client/launcher/memory/global_memory.cpp:31-40 | a snapshot determines the table up to access bookkeeping |
| GlobalMemory.CounterIsReads | client/launcher/memory/global_memory.cpp:8-29 | over every run the 32-bit counter is the number of reads since the pointer was last added |
| GlobalMemory.EntryIsLatestAdd | client/launcher/memory/global_memory.cpp:8-29 | over every run an entry holds the node, size and handle its pointer was last added with, and the time of its latest use |
| GlobalMemory.SnapshotShowsLatestAdds | client/launcher/memory/global_memory.cpp:31-40 | a snapshot after any run shows exactly those under the decimal keys |
| Rdma.RdmaTransport.Initialize | client/launcher/transport/rdma_transport.cpp:16-47 | the first device that opens and its domain, with what a failure leaves behind |
| Rdma.FirstOpenIsFirst | client/launcher/transport/rdma_transport.cpp:25-28 | the device is the first that opens, and there is none exactly if none opens |
| Rdma.InitializeSoundIff | client/launcher/transport/rdma_transport.cpp:16-47 | initializing keeps the fields exact unless it overwrites a device or domain in use |
| Rdma.SecondInitializeLosesDevice | client/launcher/transport/rdma_transport.cpp:16-47 | two initializations after which teardown leaves the first device and its domain |
| Rdma.RdmaTransport.RegisterMemory | client/launcher/transport/rdma_transport.cpp:49-69 | registers once per pointer |
| Rdma.RdmaTransport.Transfer | client/launcher/transport/rdma_transport.cpp:71-145 | registers if needed, destroys the queue pair on every path that made it, and reports success exactly if the buffer is registered, the pair made, GDR not asked for or enabled, the send posted and the completion good |
| Rdma.CompletionIff | client/launcher/transport/rdma_transport.cpp:71-145 | a good completion is among the calls of a transfer exactly under those conditions |
| Rdma.RdmaTransport.Cleanup | client/launcher/transport/rdma_transport.cpp:164-179 | each region once in any order, then the domain, then the device |
| Rdma.RunSound | client/launcher/transport/rdma_transport.cpp:49-145 | every sequence of registrations and transfers is legal under the verbs contract and matches the fields, whichever calls the library refuses |
| Rdma.TableIsExact | client/launcher/transport/rdma_transport.cpp:49-145 | table entries and live regions are in bijection, no queue pair outlives its transfer, and every completion queue ever given does |
| Rdma.DomainAlwaysReleased | client/launcher/transport/rdma_transport.cpp:164-173 | teardown in any table order legally gives back every region and then the domain |
| Rdma.CleanupLegalIff | client/launcher/transport/rdma_transport.cpp:164-179 | teardown in any table order is legal, and then leaves nothing, exactly if the transport was never given a completion queue |
| Rdma.WholeLifeIsCleanIff | client/launcher/transport/rdma_transport.cpp:10-179 | from construction through any use to destruction everything is given back exactly if no transfer of the run was given a completion queue |
| Rdma.OneTransferBlocksTeardown | client/launcher/transport/rdma_transport.cpp:71-179 | one successful transfer after which the device cannot be closed |
| NodeStatus.SelectOptimalNode | cmd/capnpserver/main.go:593-608 | the answer has room for the request exactly when some node has, in any iteration order |

## Left out

- Cooling.CoolingService.RecordAccess: does not model the wrap of the 64-bit access counter.
- Rdma.RdmaTransport.Transfer: does not model that the source takes its mutex again inside `RegisterMemory`, nor a poll that never completes.
- Rdma.RunSound: takes the library to refuse a queue pair for which a completion queue is missing; the source asks for it all the same.
- GlobalMemory.GlobalMemoryService.GetMapping: is atomic, although the source counts under a shared lock.
- Dispatcher.Dispatcher.PickNode: looks the id up without taking the mutex a second time, as the source does.
- AllocationProtocol.RootService.AllocationReplied: takes the node id from the reply's allocation; that a reload may move the node record the source still points to is not modelled.
- Marshalling.PrepareParamBuffer: ends at the joined host buffer; the device allocation and copy are library calls.
- DataPlane.TakenExactlyOnceIntact: processing a message is one step; two workers writing at the same time are interleaved message by message.
- Server.CrashPossibleIff: which node serves an address is fixed for a run.
- Dispatcher.Dispatcher.Place: the fifth getter, for the temperature, only feeds the log and is not read.
- Floating-point rounding, and wall-clock time: reals, and clock readings as parameters.
- The generated Cap'n Proto accessors, RPC clients and RPC failures other than error replies.
- The CUDA hooks, DLL entry points and EasyHook: foreign calls.
- ZMQ and UDP sockets, the plank transport and its checksums: thin wrappers.
- The command-line tools, topology discovery and OpenCAPI access: input and output.
- `AdviseService`, `TransportService`, `MemoryService`: pass-through wrappers.
- `StartStatusMonitor`, `negotiateTransferParams`, `PrefetchData`: helpers that are missing or only talk to the network.
- `rdmaMemcpy` and `convertToRemoteAllocInfo`: a fixed sequence of acquisitions and releases, and a record copy, which would add only easy members.
- `PerformHealthCheck` is not part of this model: its body is not in the repository.
