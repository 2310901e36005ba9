# A verified model of the runtime's core

This project models the parts of the runtime whose correctness is a property of whole runs, and proves those
properties. `dafny verify dfyconfig.toml` checks everything.

Where the program changes things step by step, the model is a class with methods that do the same, and each method is
proved against a function that says what it should compute. What the program promises is then proved about those
functions, over every input, every run, and every reachable state.

**Rollback netcode** (`Rollback.dfy`). The specification is the plain in-order run: step every frame with the local
input given and the last remote input known at or before it. The session predicts, snapshots, rewinds and replays; its
invariant says that it always sits exactly where that run would. The simulation may fail at any step or load.

**R3000A processor and PS1 bus** (`Words`, `MipsDecoder`, `MipsAssembler`, `R3000a*`, `MemoryBus*`). The specification
of one step is a function over any bus. The imperative executor is proved to compute it, its field arithmetic is proved to be the program's masks and shifts
(`R3000aMasks`), and precise exceptions, the branch
and load delays and the exactness of the arithmetic are proved about it. The bus is proved to be a flat byte store, and
the unaligned load and store pairs are proved through the executor and the bus together.

**Boot runtime and exploration** (`HleBios`, `BootRuntime*`, `Exploration`, `ExplorerSearch`). The run loop need not
end, and it is proved when it does. Bounded histories are proved to be the ends of complete logs. Splitting a run in
two is harmless except for one note of the last diagnostic probe: `SegmentsCompose` says exactly when that note is lost,
and `SplitCanLoseProbeNote` shows that it can be. The depth-first search is proved over any machine that keeps its
budget; `BootMachineIsOk` shows that the boot runtime is one. Nothing is claimed about what deduplication misses: it
ignores depth.

**Mod resolver** (`Ids`, `Semver`, `ModResolver`). Success is characterised exactly, and the result is the dependency
closure in its lexicographically least load order. The list of dependents that the program sorts is built in ascending
order already, so the model has no sort.

**Network** (`PacketCodec`, `ReliableQueue`, `SessionProtocol`, `SessionNetwork`, `SessionDevice`). The datagram format
is proved a bijection between packets and accepted byte strings. A session is a state machine whose actions are what
one poll, connect, send or disconnect does; the object is proved to perform exactly such actions. Two of them, with
strangers, over a network that loses, repeats and reorders, keep an invariant over all runs. Sequence numbers wrap as
they do in the program. What a connection means is proved for as long as the client's numbers last
(`ConnectedMeansAccepted`), and `OldAcceptConnects` shows that it is lost when they wrap. A poll that fails has lost what it received
before, and a second accept of the same hello stays unacknowledged; neither is claimed otherwise.

**SHA-256** (`Sha256.dfy`). FIPS 180-4 is written out as functions (sections 3.2, 4.1.2, 5.1.1, 5.3.3 and 6.2.2); the
buffered hasher is proved to compute it for any split of a message into updates.

**Installation** (`Installation`, `InstallationDevice`). Every change of the disk is one step, a crash leaves any state
between two of them, and histories of any number of calls and crashes are proved safe.

**Disc images** (`DiscMedia`, `Iso9660`, `Iso9660Writing`). Guards are proved exact against unbounded integers, and the
directory reader is proved to end, to stay inside the data track on any bytes, and to read back the directories that
ECMA-119 lays out, versions stripped. A path is proved to lead to exactly the entry on the disc.

Words are bounded integers; wrap-around, sign and truncation are written out. System calls, the transport and the
simulation may fail at any point where the program allows for it. A rename is one step.

## Model

| member | source | states |
|---|---|---|
| Rollback.LastKnownIsFloor | src/core/rollback.cpp:27-31 | The remote input used for a frame is the one delivered for the greatest frame at or before it |
| Rollback.LastKnownDefault | src/core/rollback.cpp:27-30 | Before the first delivered frame the neutral input is used |
| Rollback.LastKnownAfterUpdate | src/core/rollback.cpp:67-87 | A delivery for a frame never changes earlier frames, and changes nothing at all when it repeats the prediction |
| Rollback.RemotesOfUnambiguous | src/core/rollback.cpp:67-71 | When no frame is delivered with two different inputs, what is known is exactly the set of deliveries |
| Rollback.DeliveryOrderDoesNotMatter | src/core/rollback.cpp:43-140 | Any accepted order of the same local inputs and the same remote deliveries, early, late or repeated, reaches the same state |
| Rollback.Run.AgreementReaches | src/core/rollback.cpp:43-65 | Two runs that agree on their first frames are in the same state there |
| Rollback.StepExtends | src/core/rollback.cpp:58-61 | One simulated frame adds exactly its snapshot record and its hash |
| Rollback.DeliveryKeeps | src/core/rollback.cpp:67-87 | A delivery ahead of time or equal to the prediction keeps every record and hash true of the in-order run |
| Rollback.DeliveryRewinds | src/core/rollback.cpp:89-97 | A contradicting delivery leaves records and hashes before that frame true, and only those |
| Rollback.ReplayExtends | src/core/rollback.cpp:104-133 | One replayed frame makes its record and hash true again; its record is retained |
| Rollback.PruneKeeps | src/core/rollback.cpp:161-169 | Forgetting frames before the window keeps the rest |
| Rollback.RollbackSession.constructor | src/core/rollback.cpp:22-25 | A new session is where the empty in-order run is |
| Rollback.RollbackSession.RemoteForFrame | src/core/rollback.cpp:27-31 | The lookup equals the last known input |
| Rollback.RollbackSession.Advance | src/core/rollback.cpp:43-65 | Success extends the accepted history by this frame and keeps the refinement; failure changes nothing, and the simulation only if the restoring load fails too |
| Rollback.RollbackSession.SubmitRemoteInput | src/core/rollback.cpp:67-140 | Rejected exactly below the window; otherwise the session afterwards is where the in-order run on everything accepted is; the two history failures are unreachable; side effects are not repeated |
| Rollback.RollbackSession.RewindAndReplay | src/core/rollback.cpp:89-140 | Restore, replay and commit, or put everything back |
| Rollback.RollbackSession.ReplayFrom | src/core/rollback.cpp:104-133 | The replay loop brings state, records and hashes to the corrected in-order run, without side effects |
| Rollback.RollbackSession.SubmitRemoteHash | src/core/rollback.cpp:142-151 | Accepted exactly when 64 hexadecimal characters |
| Rollback.RollbackSession.StateHash | src/core/rollback.cpp:153-159 | The stored hash of a frame is the hash of the in-order state after it; none for the future |
| Rollback.RollbackSession.PruneRollbackHistory | src/core/rollback.cpp:161-169 | Exactly the frames inside the window are retained |
| Rollback.RollbackSession.RecomputeDesync | src/core/rollback.cpp:171-180 | The desync frame is the least frame whose submitted hash differs from the local one |
| Semver.CompareIsTotalOrder | src/core/semver.cpp:77-93 | Comparison is a total order and a compatible-major requirement is upward closed within the major |
| ModResolver.LeastLoadOrderIsUnique | src/core/mod_resolver.cpp:104-122 | The lexicographically least load order is unique, so it depends neither on request order nor on repeated entries |
| ModResolver.RequestedIsNeeded | src/core/mod_resolver.cpp:73-76 | Whatever is requested is in the closure |
| ModResolver.DependencyIsNeeded | src/core/mod_resolver.cpp:53-68 | Whatever a mod of the closure depends on is in the closure |
| ModResolver.FinishedSearchIsClosure | src/core/mod_resolver.cpp:27-76 | What a successful depth-first search finished is exactly the dependency closure, sound and free of cycles |
| ModResolver.VisitedMeans | src/core/mod_resolver.cpp:34-39 | Meeting a mod under visit refutes acyclicity; meeting a finished one is success |
| ModResolver.MeetingTheTrailIsACycle | src/core/mod_resolver.cpp:34-37 | A mod met again on the current path lies on a dependency cycle |
| ModResolver.Resolver.IncludeMod | src/core/mod_resolver.cpp:27-71 | Success finishes the mod and its closure; every failure branch refutes resolvability; the recursion ends |
| ModResolver.BuildGraph | src/core/mod_resolver.cpp:89-102 | In-degrees count dependency entries with repetition, and dependents mirror them |
| ModResolver.CountZeroIsReady | src/core/mod_resolver.cpp:104-107 | A zero count means every dependency is loaded |
| ModResolver.NothingReadyMeansAllLoaded | src/core/mod_resolver.cpp:124-126 | With an acyclic closure the ready set only empties when all is loaded: the final cycle check cannot fire |
| ModResolver.GreedyIsLeast | src/core/mod_resolver.cpp:109-122 | Taking the least ready mod each time gives the lexicographically least topological order |
| ModResolver.Release | src/core/mod_resolver.cpp:115-121 | Releasing dependents keeps counts and ready set exact |
| ModResolver.LoadOrder | src/core/mod_resolver.cpp:89-127 | The Kahn loop computes the least load order |
| ModResolver.CheckConflicts | src/core/mod_resolver.cpp:78-87 | True exactly when no two enabled mods conflict |
| ModResolver.IndexCatalog | src/core/mod_resolver.cpp:14-21 | The index, or a failure exactly on duplicate identifiers |
| ModResolver.ResolveModSet | src/core/mod_resolver.cpp:11-128 | Succeeds exactly when identifiers are unique and the closure is present, compatible, conflict-free and acyclic; the result is the closure in least load order |
| MipsAssembler.SpecialDecodes | src/core/mips_decoder.cpp:6-38 | Every register operation and its fields survive assembling and decoding |
| MipsAssembler.PrimaryDecodes | src/core/mips_decoder.cpp:71-119 | Immediate operations, loads, stores and two-register branches survive assembling and decoding with their fields |
| MipsAssembler.JumpDecodes | src/core/mips_decoder.cpp:71-119 | Jumps survive it with their 26-bit target |
| MipsAssembler.SelectedDecodes | src/core/mips_decoder.cpp:40-48 | The branches of opcode 1, selected by a register field, survive it with their register and offset |
| MipsAssembler.CoprocessorDecodes | src/core/mips_decoder.cpp:50-69 | The moves of both coprocessors survive it with their registers, whatever the bits below |
| MipsAssembler.CommandDecodes | src/core/mips_decoder.cpp:50-69 | Every word of opcode 0x12 with bit 25 is a coprocessor 2 command; RFE is one word |
| MipsAssembler.DecodedIsAssembled | src/core/mips_decoder.cpp:6-119 | A word decodes to an operation only if it carries the codes of that operation, for every operation there is |
| MipsAssembler.KindsAreAll | src/core/mips_decoder.h:7-75 | Every operation is of one of the kinds these lemmas speak of, or reserved |
| R3000aMasks.PushedStatusIsMasked | src/core/r3000a_reference_executor.cpp:119-121 | Exception entry pushes the mode stack as the source masks and shifts do |
| R3000aMasks.PoppedStatusIsMasked | src/core/r3000a_reference_executor.cpp:515-520 | RFE pops it as the source masks and shifts do |
| R3000aMasks.ClearedCauseIsMasked | src/core/r3000a_reference_executor.cpp:100 | The bits of Cause that an exception clears are those of the complemented mask |
| R3000aMasks.ExceptionCauseIsOred | src/core/r3000a_reference_executor.cpp:101-109 | Code, coprocessor, BD and BT fall on clear bits, so that adding them is the ors of the source |
| R3000aMasks.SampledCauseIsMasked | src/core/r3000a_reference_executor.cpp:149-150 | The interrupt lines replace exactly bits 10 to 15 of Cause |
| R3000aMasks.CauseWrittenIsMasked | src/core/r3000a_reference_executor.cpp:503-505 | MTC0 replaces exactly the bits of the software interrupt mask |
| R3000aMasks.ExceptionVectorIsMasked | src/core/r3000a_reference_executor.cpp:123-125 | The vector is chosen by Status bit 22 |
| R3000aMasks.JumpTargetIsMasked | src/core/r3000a_reference_executor.cpp:338 | The jump target joins the high bits of the next address with the shifted field |
| R3000aMasks.AlignedIsMasked | src/core/r3000a_reference_executor.cpp:422-432 | The aligned address and the lane are the two halves of one mask |
| R3000aMasks.MergeLeftIsMasked | src/core/r3000a_reference_executor.cpp:433-439 | The four lanes of LWL as masks and shifts |
| R3000aMasks.MergeRightIsMasked | src/core/r3000a_reference_executor.cpp:440-447 | The four lanes of LWR as masks and shifts |
| R3000aMasks.InsertLeftIsMasked | src/core/r3000a_reference_executor.cpp:461-467 | The four lanes of SWL as masks and shifts |
| R3000aMasks.InsertRightIsMasked | src/core/r3000a_reference_executor.cpp:468-475 | The four lanes of SWR as masks and shifts |
| R3000aArithmetic.AddTrapsExactly | src/core/r3000a_reference_executor.cpp:46-48 | The overflow test holds exactly when the signed sum leaves 32 bits |
| R3000aArithmetic.SubTrapsExactly | src/core/r3000a_reference_executor.cpp:50-52 | The overflow test of SUB holds exactly when the signed difference leaves 32 bits |
| R3000aArithmetic.ProductIsExact | src/core/r3000a_reference_executor.cpp:310-322 | HI:LO is the exact 64-bit product, signed and unsigned |
| R3000aArithmetic.DivisionIdentity | src/core/r3000a_reference_executor.cpp:323-336 | LO times divisor plus HI is congruent to the dividend, for all operands, zero and INT_MIN / -1 included |
| R3000aArithmetic.DivisionTruncates | src/core/r3000a_reference_executor.cpp:323-332 | Otherwise DIV truncates toward zero and the remainder has the sign of the dividend |
| R3000aArithmetic.ShiftIsFloorDivision | src/core/r3000a_reference_executor.cpp:38-44 | The arithmetic shift is floor division by a power of two |
| R3000aArithmetic.ReturnRestoresStatus | src/core/r3000a_reference_executor.cpp:515-520 | RFE after exception entry restores status bits 0-3 |
| R3000aPipeline.InitialIsOk | src/core/r3000a_reference_executor.cpp:565-577 | The initial state satisfies the pipeline invariant |
| R3000aPipeline.RaiseIsPrecise | src/core/r3000a_reference_executor.cpp:90-142 | Exception entry: EPC, BD, code, pending bits, vector and status as the architecture has them |
| R3000aPipeline.StepIsPrecise | src/core/r3000a_reference_executor.cpp:144-563 | Every step keeps the pipeline invariant; an instruction that retires goes to the next address; EPC is the faulting address, or the branch before it exactly when BD is set; interrupts never split a delay slot |
| R3000aPipeline.EveryRunIsPrecise | src/core/r3000a_reference_executor.cpp:144-563 | From a consistent state every step of every run is precise in this sense, on any bus and under any interrupt lines |
| R3000aPipeline.LoadArrivesAfterOneInstruction | src/core/r3000a_reference_executor.cpp:192-211 | A loaded value is in its register after one more instruction, faulting or not, unless that one writes the register directly |
| R3000aPipeline.DelaySlotDoesNotSeeLoad | src/core/r3000a_reference_executor.cpp:192-203 | The instruction in the load delay slot behaves the same whatever is being loaded, LWL and LWR into that register excepted |
| R3000aUnaligned.MergedLoad | src/core/r3000a_reference_executor.cpp:422-450 | LWL then LWR assemble the four bytes from any offset into two words |
| R3000aUnaligned.InsertedPair | src/core/r3000a_reference_executor.cpp:451-479 | SWL then SWR rewrite exactly four bytes |
| R3000aUnaligned.UnalignedLoad | src/core/r3000a_reference_executor.cpp:422-450 | LWL and LWR as a pair leave the little-endian word at any address in flight to the destination, through the load delay |
| R3000aUnaligned.UnalignedStore | src/core/r3000a_reference_executor.cpp:451-479 | SWL and SWR as a pair change exactly the four bytes at any address |
| R3000aExecutor.R3000aState.constructor | src/core/r3000a_reference_executor.cpp:565-577 | The object starts in the initial state |
| R3000aExecutor.R3000aState.EnterException | src/core/r3000a_reference_executor.cpp:90-142 | In-place exception entry equals the specification |
| R3000aExecutor.R3000aState.ExecuteInstruction | src/core/r3000a_reference_executor.cpp:192-563 | In-place execution of one decoded instruction equals the specification |
| R3000aExecutor.R3000aState.StepR3000a | src/core/r3000a_reference_executor.cpp:144-563 | In-place stepping equals the specification, on any bus |
| MemoryBus.OperationIsFlat | src/core/ps1_memory_bus.cpp:116-269 | Any access, at any width and through any alias, acts on one flat byte store; registers and probe shadow never disturb it |
| MemoryBus.ReadIsFlat | src/core/ps1_memory_bus.cpp:116-183 | A read of backed bytes returns the little-endian word the store holds |
| MemoryBus.BusRefinesFlatMemory | src/core/ps1_memory_bus.cpp:24-269 | After any traffic, reads return what the flat byte store holds |
| MemoryBus.RegistersStayOk | src/core/ps1_memory_bus.cpp:74-82 | In every reachable state no interrupt is pending, the mask is within its bits, the DMA flags are clear and visible bit 31 equals bit 15 |
| MemoryBusDevice.Ps1MemoryBus.Read32 | src/core/ps1_memory_bus.cpp:159-183 | A 32-bit read of the byte arrays and registers equals the specification |
| MemoryBusDevice.Ps1MemoryBus.Read8 | src/core/ps1_memory_bus.cpp:116-134 | An 8-bit read of the byte arrays equals the specification |
| MemoryBusDevice.Ps1MemoryBus.Read16 | src/core/ps1_memory_bus.cpp:136-157 | A 16-bit read of the byte arrays and registers equals the specification |
| MemoryBusDevice.Ps1MemoryBus.Write8 | src/core/ps1_memory_bus.cpp:185-204 | An 8-bit write in place has exactly the specified effect |
| MemoryBusDevice.Ps1MemoryBus.Write16 | src/core/ps1_memory_bus.cpp:206-233 | A 16-bit write in place has exactly the specified effect on bytes and registers |
| MemoryBusDevice.Ps1MemoryBus.Write32 | src/core/ps1_memory_bus.cpp:235-269 | A 32-bit write in place has exactly the specified effect on bytes and registers |
| MemoryBusDevice.Ps1MemoryBus.LoadMainRam | src/core/ps1_memory_bus.cpp:271-283 | Copies exactly the given bytes, or refuses and changes nothing |
| MemoryBusDevice.Ps1MemoryBus.SetDiagnosticMmioProbeEnabled | src/core/ps1_memory_bus.cpp:316-322 | Switching the probe on clears its shadow once |
| HleBios.OneTablePerSelector | src/core/ps1_hle_bios.cpp:56-98 | A selector is implemented in one table only |
| HleBios.HandledCallRepeats | src/core/ps1_hle_bios.cpp:20-25 | A handled call returns to r31 and leaves everything needed to be made again |
| HleBios.Ps1HleBios.DispatchCall | src/core/ps1_hle_bios.cpp:56-98 | In-place dispatch; an unimplemented call changes neither BIOS nor processor |
| BootRuntime.TrapNeverEnds | src/core/ps1_boot_runtime.cpp:119-143 | A handled call that returns to an alias of its table repeats for ever |
| BootRuntime.HaltsExactlyWhenNeverTrapped | src/core/ps1_boot_runtime.cpp:119-217 | The run loop ends if and only if it never meets such a call, and then within three turns per budgeted instruction |
| BootRuntime.RunKeeps | src/core/ps1_boot_runtime.cpp:109-217 | Over every run: consistent pipeline, retired within budget, a frontier after a BIOS stop, and with stall limit L at most (dependencies + 1) times L retired |
| BootRuntime.LargerBudgetFollows | src/core/ps1_boot_runtime.cpp:119-217 | A larger budget takes the same turns as long as the smaller one lasts |
| BootRuntime.SegmentsCompose | src/core/ps1_boot_runtime.cpp:109-217 | Running m and then n instructions against m + n at once, without a stall limit: the same machine up to the last probe note, and the same machine outright exactly when no note was pending at the split or the second run steps |
| BootRuntime.SplitCanLoseProbeNote | src/core/ps1_memory_bus.cpp:316-322 | The exception is real: a family of runs, ended at an unimplemented call after the probe, in which the split run and the single one end alike but for the note that only the latter keeps |
| BootRuntimeDevice.RecordRecent | src/core/ps1_boot_runtime.cpp:59-88 | A bounded history is always the end of the full event log |
| BootRuntimeDevice.Ps1BootRuntime.RunBiosCall | src/core/ps1_boot_runtime.cpp:122-147 | One turn at a BIOS table, in place |
| BootRuntimeDevice.Ps1BootRuntime.RunInstruction | src/core/ps1_boot_runtime.cpp:149-213 | One stepped instruction with its bookkeeping, in place |
| BootRuntimeDevice.Ps1BootRuntime.Run | src/core/ps1_boot_runtime.cpp:109-217 | The loop ends in the final state of the specification, with the bounded view of the full logs as report |
| BootRuntimeDevice.Ps1BootRuntime.ApplyDiagnosticBiosFallback | src/core/ps1_boot_runtime.cpp:219-246 | Accepted exactly at a pending frontier, which it consumes |
| BootRuntimeDevice.FinishedRun | src/core/ps1_boot_runtime.cpp:219-246 | After a stop at an unimplemented call all four fallbacks are accepted, once, and return to the caller |
| Exploration.OutranksIsStrictWeakOrder | src/core/ps1_max3_explorer.cpp:95-112 | Ranking is a strict weak order with ties exactly between equal ranks |
| Exploration.BestIsFirstUnoutranked | src/core/ps1_max3_explorer.cpp:239-244 | The kept node is the first that no other outranks |
| Exploration.EntryAt | src/core/ps1_max3_explorer.cpp:200-219 | Every node: index, depth within the limit, parent before it one level up, cumulative count and path from the parent |
| Exploration.NodeSumsItsChain | src/core/ps1_max3_explorer.cpp:138-219 | Path, cumulative count and dependency count of a node are those of its chain of parents |
| Exploration.SubtreesAreRuns | src/core/ps1_max3_explorer.cpp:138-264 | Preorder: the descendants of a node are exactly the entries after it until one is no deeper |
| Exploration.ExpandedOnce | src/core/ps1_max3_explorer.cpp:223-232 | A frontier above the depth limit is expanded exactly when none before it with its key was |
| Exploration.DiscoveredIsUnion | src/core/ps1_max3_explorer.cpp:72-81 | The reported dependencies are the duplicate-free union over all paths |
| Exploration.CompleteTreeCounts | src/core/ps1_max3_explorer.cpp:252-264 | The complete four-way tree of height d has (4^(d+1) - 1) / 3 nodes |
| ExplorerSearch.BestGrows | src/core/ps1_max3_explorer.cpp:234-240 | Comparing each new node with the best keeps the first unoutranked one |
| ExplorerSearch.AnswerSettles | src/core/ps1_max3_explorer.cpp:252-264 | One more answer adds one child in policy order and leaves all other nodes settled |
| ExplorerSearch.Explorer.AddProbes | src/core/ps1_max3_explorer.cpp:165-176 | Speculative accesses are noted in order, each once |
| ExplorerSearch.Explorer.PushNode | src/core/ps1_max3_explorer.cpp:219-232 | The first node with a frontier key claims it; later ones are marked |
| ExplorerSearch.Explorer.RecordRun | src/core/ps1_max3_explorer.cpp:150-244 | One run within the remaining total becomes one well-formed node |
| ExplorerSearch.Explorer.Visit | src/core/ps1_max3_explorer.cpp:138-265 | The recursion ends; it adds one subtree no larger than the complete tree of the remaining height, settled unless a limit cut it short |
| ExplorerSearch.Explorer.Run | src/core/ps1_max3_explorer.cpp:120-135 | The report tells only of real runs; their segments sum to the total, within every limit; when completed, every undeduplicated frontier above the depth limit has exactly its four children in policy order |
| ExplorerSearch.BootMachineIsOk | src/core/ps1_boot_runtime.cpp:219-246 | The boot runtime is such a machine: within budget, and every fallback accepted at a frontier |
| PacketCodec.SerializedParses | src/core/network_protocol.cpp:87-169 | Parsing a serialized packet gives the packet back |
| PacketCodec.ParsedSerializes | src/core/network_protocol.cpp:113-169 | Whatever is accepted is exactly what its packet serializes to |
| PacketCodec.BytesOfFieldsSurvive | src/core/network_protocol.cpp:30-77 | Fields read from any bytes are in range and write the same bytes |
| PacketCodec.AppendLittleEndian | src/core/network_protocol.cpp:30-45 | Appends the little-endian bytes |
| PacketCodec.ReadLittleEndian | src/core/network_protocol.cpp:47-77 | Reads the field at the offset, or fails exactly when it is cut short |
| PacketCodec.SerializeNetworkPacket | src/core/network_protocol.cpp:87-111 | The encoded bytes, or a failure exactly for an unlisted kind or a payload above 1024 bytes |
| PacketCodec.ReadField | src/core/network_protocol.cpp:126-145 | No header field of a long enough datagram is ever cut short |
| PacketCodec.ParseNetworkPacket | src/core/network_protocol.cpp:113-169 | The packet the bytes mean, or a failure; the truncated-field branch is unreachable |
| ReliableQueue.OutstandingIsTrackedNotAcknowledged | src/core/network_protocol.cpp:171-196 | The queue holds exactly the packets tracked and not acknowledged since |
| ReliableQueue.SendsAreSpaced | src/core/network_protocol.cpp:186-196 | Between two sends of one packet lies at least the retry interval, whatever the clock does |
| ReliableQueue.ControlReliabilityQueue.Track | src/core/network_protocol.cpp:171-180 | Accepted exactly for control packets with a free sequence |
| ReliableQueue.ControlReliabilityQueue.Acknowledge | src/core/network_protocol.cpp:182-184 | Removes that sequence only |
| ReliableQueue.ControlReliabilityQueue.DueRetransmits | src/core/network_protocol.cpp:186-196 | Returns exactly the due packets in ascending order and renews exactly their times |
| SessionProtocol.ActKeepsLink | src/core/network_transport.h:608-654 | Every action keeps telemetry in step with the state, and a peer wherever the state needs one |
| SessionProtocol.HostKeepsPeer | src/core/network_transport.h:448-456 | A host that left idle keeps its peer, and a disconnected one stays disconnected |
| SessionProtocol.ClientStaysDisconnected | src/core/network_transport.h:385-412 | A client leaves disconnected only by connecting |
| SessionProtocol.ClientConnectsByAccept | src/core/network_transport.h:492-512 | A client becomes connected only by its peer's accept of its latest hello |
| SessionProtocol.HelloTakesNumber | src/core/network_transport.h:628-646 | An action uses up at most one number; a hello takes the next one, and while engaged the hello number is that of the latest hello |
| SessionProtocol.DeliveredAreInputs | src/core/network_transport.h:514-540 | Only input packets are delivered, only while connected, and only from the peer |
| SessionProtocol.PendingComesFrom | src/core/network_transport.h:468-490 | Whatever awaits acknowledgement was waiting before, is a hello, or answers the hello just received |
| SessionProtocol.PendingHelloIsIssued | src/core/network_transport.h:628-646 | Whatever a client waits to have acknowledged was waiting before or is the hello it has just issued |
| SessionProtocol.OutgoingComesFrom | src/core/network_transport.h:667-676 | Everything sent goes to the peer; accepts only answer its hellos |
| SessionNetwork.HostKeepsAccepts | src/core/network_transport.h:448-490 | Whatever the network does, accepts in the air go to the host's peer and answer its hellos |
| SessionNetwork.RunKeepsWorld | src/core/network_transport.h:385-654 | The two-party invariant holds over every run under loss, duplication, reordering and strangers |
| SessionNetwork.ConnectedMeansAccepted | src/core/network_transport.h:468-512 | In any run in which the client's numbers do not run out, a connected client implies that the host answered the very hello this client issued last, and pinned it |
| SessionNetwork.RunRaisesNumbers | src/core/network_transport.h:628-646 | Until the numbers run out, each hello carries a larger number than all before it |
| SessionNetwork.WaitingClientConnectsExactly | src/core/network_transport.h:492-512 | From any reachable world, wrapped numbers or not, a waiting client can connect next if and only if an accept of its hello number is in the air |
| SessionNetwork.OldAcceptConnects | src/core/network_transport.h:492-498 | Once the numbers have wrapped, a client can be connected by an old accept to a host that never answered its latest hello: such a world is reachable |
| SessionNetwork.PeerIsForEver | src/core/network_transport.h:448-456 | Over a whole run the host never changes peer after idle and never leaves disconnected |
| SessionNetwork.TelemetryMirrorsState | src/core/network_transport.h:608-654 | Telemetry always mirrors the session state, of both parties |
| SessionNetwork.DeliveriesAreGenuine | src/core/network_transport.h:448-540 | A delivered packet is an input that the pinned peer really sent here |
| SessionNetwork.HandshakeConnects | src/core/network_transport.h:385-512 | A reachable world in which a hello and its accept have connected both parties |
| SessionDevice.DirectUdpSession.Connect | src/core/network_transport.h:385-412 | In place, for any answer of the transport, what the specification says |
| SessionDevice.DirectUdpSession.BeginReconnect | src/core/network_transport.h:639-654 | Marks the loss and the time; a client sends a new hello |
| SessionDevice.DirectUdpSession.SendNewHello | src/core/network_transport.h:628-637 | A new number, remembered and tracked; a refused hello stays tracked |
| SessionDevice.DirectUdpSession.AnswerHello | src/core/network_transport.h:468-490 | Tracks and sends an accept of that hello and connects; a refused accept is forgotten and nothing connects |
| SessionDevice.DirectUdpSession.TakeAccept | src/core/network_transport.h:492-512 | Connects exactly on the accept of the latest hello, and acknowledges it with a ping |
| SessionDevice.DirectUdpSession.HandlePeerPacket | src/core/network_transport.h:514-540 | Refreshes liveness, answers a ping with its time stamp, and delivers only what is no control packet |
| SessionDevice.DirectUdpSession.ReceivePacket | src/core/network_transport.h:446-540 | One arrived packet has exactly the specified effect, whatever the transport then refuses |
| SessionDevice.DirectUdpSession.ResendDue | src/core/network_transport.h:427-436 | Due packets go out again until the transport refuses one |
| SessionDevice.DirectUdpSession.CheckClock | src/core/network_transport.h:542-562 | Reconnecting, heartbeat and giving up, by the clock |
| SessionDevice.DirectUdpSession.Poll | src/core/network_transport.h:414-565 | A poll performs exactly these actions, in this order, on what arrived, and stops at the first failure |
| SessionDevice.DirectUdpSession.Send | src/core/network_transport.h:567-582 | Gameplay packets only, and only while connected |
| SessionDevice.DirectUdpSession.Disconnect | src/core/network_transport.h:584-598 | Leaves exactly when the transport took the packet |
| Sha256.ZeroBytesIsLeast | src/core/sha256.cpp:52-60 | Section 5.1.1 of FIPS 180-4: the zeros are the least number that leaves room for the length |
| Sha256.BytesJoin | src/core/sha256.cpp:77-83 | Shifting and or-ing four bytes gives the big-endian word |
| Sha256.NextWord | src/core/sha256.cpp:84-88 | One word of the message schedule of section 6.2.2 |
| Sha256.NextRound | src/core/sha256.cpp:99-115 | One round of section 6.2.2 |
| Sha256.OneMoreBlock | src/core/sha256.cpp:29-45 | Hashing one block more |
| Sha256.PaddingLengths | src/core/sha256.cpp:52-58 | Both ways of padding in the buffer come to the zeros of the standard |
| Sha256.Sha256Hasher.Transform | src/core/sha256.cpp:75-124 | In place, the compression of section 6.2.2 |
| Sha256.Sha256Hasher.Update | src/core/sha256.cpp:29-45 | After any updates the hasher holds the hash of the whole blocks of everything seen and the rest in its buffer; a finalized one refuses |
| Sha256.Sha256Hasher.PadZeros | src/core/sha256.cpp:52-58 | The mark and the zeros, over one or two blocks |
| Sha256.Sha256Hasher.PutLength | src/core/sha256.cpp:59-61 | The length in bits, most significant byte first |
| Sha256.Sha256Hasher.WriteDigest | src/core/sha256.cpp:64-71 | The digest is the state, word by word, most significant byte first |
| Sha256.Sha256Hasher.Finalize | src/core/sha256.cpp:47-73 | The digest of FIPS 180-4 of everything the updates gave, once |
| Sha256.Sha256Bytes | src/core/sha256.cpp:126-131 | The one-shot hash is the digest of FIPS 180-4 |
| Installation.IdRoundTrip | src/core/ps1_installation.cpp:26-48 | Generation identities and their numbers correspond one to one |
| Installation.WrittenPointerReads | src/core/ps1_installation.cpp:178-218 | What a commit writes is read back as written |
| Installation.ManifestComponents | src/core/ps1_installation.cpp:380-396 | The manifest path a commit writes does not escape the root |
| Installation.WrittenPointerResolves | src/core/ps1_installation.cpp:368-411 | A whole pointer to a complete generation resolves to it |
| Installation.StepKeepsCommitted | src/core/ps1_installation.cpp:309-366 | No step touches a committed generation |
| Installation.StepKeepsResolving | src/core/ps1_installation.cpp:309-366 | A pointer that resolves keeps resolving, to the same generation until an activation |
| Installation.CommittedNeverChanges | src/core/ps1_installation.cpp:263-366 | Over any history of calls and crashes committed generations never change |
| Installation.AlwaysResolves | src/core/ps1_installation.cpp:263-411 | Over any history, once the pointer resolves it always does, to its generation or one activated since, and that one is complete |
| Installation.LaterNumbersAreLarger | src/core/ps1_installation.cpp:131-163 | Identities are never reused: later generations have larger numbers |
| InstallationDevice.InstallRoot.HighestIn | src/core/ps1_installation.cpp:151-161 | The greatest number among the names in a directory |
| InstallationDevice.InstallRoot.HighestGenerationNumber | src/core/ps1_installation.cpp:131-163 | No directory, committed or staged, has a higher number |
| InstallationDevice.InstallRoot.BeginInstallGeneration | src/core/ps1_installation.cpp:263-307 | A new empty staging directory with a number above all used ones; the already-exists check cannot fire by itself |
| InstallationDevice.InstallRoot.CommitInstallGeneration | src/core/ps1_installation.cpp:309-366 | At every intermediate state the pointer resolves as before or to the new generation; on success to the new one, on failure always as before |
| InstallationDevice.InstallRoot.ActivateGeneration | src/core/ps1_installation.cpp:341-365 | The pointer is replaced only by a whole one |
| InstallationDevice.InstallRoot.WritePointer | src/core/ps1_installation.cpp:341-357 | The pointer is written beside the old one, and nothing resolves differently however far the writing goes |
| InstallationDevice.InstallRoot.StageFiles | src/core/conversion.cpp:744-796 | Filling the staging directory changes nothing that resolves |
| InstallationDevice.InstallRoot.Install | src/core/conversion.cpp:739-806 | Begin, fill and commit: on success the fresh generation resolves with exactly the files given; on failure, and until then, whatever resolved before |
| InstallationDevice.InstallRoot.ReadActivePointer | src/core/ps1_installation.cpp:178-218 | The reading loop equals its specification |
| InstallationDevice.InstallRoot.ResolveActiveInstallGeneration | src/core/ps1_installation.cpp:368-411 | Resolves exactly as specified |
| DiscMedia.AddMulFitsIsExact | src/core/disc_media.cpp:23-30 | The guard holds exactly when the unbounded sum fits |
| DiscMedia.CandidateSectorsFit | src/core/disc_media.cpp:32-57 | Every sector a candidate counts lies inside its file and passes the guard |
| DiscMedia.CandidateCountsAll | src/core/disc_media.cpp:46-52 | One sector more would not fit |
| DiscMedia.CandidateIsSound | src/core/disc_media.cpp:32-57 | All sectors of a candidate lie inside the file it was made for, so the refusal of a sector outside the file is unreachable |
| DiscMedia.ReadSector | src/core/disc_media.cpp:228-246 | One sector, or the guard's refusal, or a short read |
| DiscMedia.ReadLogicalSectors | src/core/disc_media.cpp:203-250 | The sectors asked for, in order; for a candidate made for this file only a request outside the track, or the system, can refuse |
| DiscMedia.RawReadsLikeCooked | src/core/disc_media.cpp:65-80 | A raw image built from a cooked one has the same sectors, all of them identical |
| DiscMedia.RawShowsSameVolume | src/core/disc_media.cpp:59-80 | A volume is recognised in the raw image exactly when it is in the cooked one |
| DiscMedia.OpenBin | src/core/disc_media.cpp:252-264 | Cooked, then MODE1, then MODE2: the first layout that shows a volume, and a failure exactly when none does |
| Iso9660.BoundedExtentIsExact | src/core/iso9660.cpp:19-26 | An extent is accepted exactly when its sectors end within the track |
| Iso9660.ReadExtent | src/core/iso9660.cpp:28-42 | Exactly the bytes of a bounded extent; on a candidate that the system delivers every bounded extent is read |
| Iso9660.BoundedExtentIsReadable | src/core/iso9660.cpp:19-42 | On a sound source an extent has bytes on the disc exactly when it is bounded |
| Iso9660.EntriesAreInBounds | src/core/iso9660.cpp:51-101 | Whatever the bytes are, every entry has a name, the path of its directory, and an in-bounds extent |
| Iso9660.ReadRecord | src/core/iso9660.cpp:61-97 | One directory record, checked in the order of the code |
| Iso9660.ParseRecords | src/core/iso9660.cpp:58-101 | The cursor loop ends on any bytes and returns the specified entries |
| Iso9660.ParseDirectory | src/core/iso9660.cpp:51-101 | Exactly the directory on the disc: its entries, or a refusal exactly when there is none on a sound source that the system delivers |
| Iso9660.PartsArePlain | src/core/iso9660.cpp:108-126 | Path components are never empty, ".", ".." and hold no slash |
| Iso9660.SplitVirtualPath | src/core/iso9660.cpp:108-126 | The scanning loop computes exactly these components, and refuses a path with a parent component |
| Iso9660.FindEntry | src/core/iso9660.cpp:128-162 | Exactly what the path leads to on the disc, taking at each step the first entry of that name in the directory read from the extent of the entry before; on a sound source that the system delivers every failure is that of the disc |
| Iso9660.FindInDirectory | src/core/iso9660.cpp:142-149 | The first entry whose name matches, without regard to case |
| Iso9660.LookupIsInBounds | src/core/iso9660.cpp:128-162 | What a path leads to carries the name asked for and lies in the data track |
| Iso9660Writing.RecordIsRead | src/core/iso9660.cpp:61-97 | A record laid out as section 9.1 of ECMA-119 has it is read back under its name without version, and refused exactly when that name is empty or its extent leaves the track |
| Iso9660Writing.DirectoryIsRead | src/core/iso9660.cpp:51-101 | A whole directory laid out that way is read exactly when every item can be, and then gives the items in order, without the two special records |
| Iso9660Writing.VersionIsDropped | src/core/iso9660.cpp:44-49 | A version suffix, and a dot before it, are no part of the name |

## Left out

- The diagnostic text that travels with an error, and the diagnostic fields of a processor stop other than its kind, code and address.
- Rollback: restoring a saved state after a failed step may fail as well; the program then leaves the simulation where it is, and so the session's promises are made for a simulation that could be restored. Frame counters do not wrap.
- StepFrame: a step that fails is taken to have emitted none of its side effects; the simulation's interface does not promise it.
- State hashes: the FNV hashes of the boot runtime and the explorer are any function of the state; nothing is claimed about collisions. The rollback state hash is any function as well.
- RunKeeps: counters are unbounded; 64-bit wrap-around of a retirement count is not modelled.
- BootMachineIsOk: a run of the boot runtime that never ends is given an arbitrary harmless result, because the exploration of such a machine does not end either.
- Loading an executable into the bus, and the counters of the boot report that the run loop never changes.
- The graphics, sound, DMA and disc devices and the geometry coprocessor: the processor stops at them, and that stop is modelled.
- UdpNetworkTransport: sockets and datagram sizes; the transport is a sequence of arrivals and a refusal of any packet sent.
- The timing checks when a session is bound, and telemetry beyond its state and packet counts (round-trip time, jitter and loss are floating point).
- PacketCodec.Parsed: all refusals carry one error code in the program, and are one case here.
- The online session controller, a view over the session.
- Mod discovery, manifests and native loading; version text.
- Reading a file for its hash, and the hexadecimal form of a digest.
- ResolveActiveInstallGeneration: paths are compared component by component after dropping empty ones and "."; drive letters and other root names are not modelled. When resolving, a path through ".." is refused before the comparison.
- CommitInstallGeneration: a staging or final path that goes through ".." and back is refused here, but accepted by the program, which collapses it; BeginInstallGeneration makes no such path.
- Disk contents other than the two generation containers, the pointer and its temporary file; free space and write probes.
- CUE sheets, and offsets beyond the signed 64-bit range of a stream position.
- OpenBin: the program reads the volume descriptor through the sector reader; the model looks at the same bytes of the file.
- FindEntry: what happens when the system does not deliver a sector is any failure. Upper-casing is that of ASCII.
- Training timeline, presentation, input bindings, menus, random numbers and report formatting: they would only add easy members.
