# Verified model of the xvram evidence engine

The repository's C++ residency runtime is judged by evidence programs in `python/xvram` and
`scripts`: they replay recorded CUDA activity and accept or reject it. This project models the hard
part of those programs in Dafny and proves what an accepted record really says. A raised
`ValueError` is a rejection value, a Python `KeyError` is a separate result that is proved
unreachable, and numeric caps are rejection branches. Code that mutates objects or loops over rows
is imperative here too: each class method and loop is proved against a pure step function, and the
theorems are about every run of that function.

| files | what they model |
|---|---|
| `OrderModel`, `OrderProofs`, `OrderHistory`, `OrderAcceptance`, `DeviceOrderObject` | the vector-clock model of streams, events and host synchronization, proved equal to reachability in a happens-before graph that mentions no clock; which calls it accepts, from the answers to the calls before |
| `OrderTrace`, `OrderTraceProofs`, `OrderScript`, `OrderRows`, `OrderReplay` | the API callback trace that drives that model: nesting, disjoint mutations, submission order, the calls and nodes that rows make and which rows are accepted |
| `StreamK`, `StreamKMemory`, `StreamKFixup`, `ScratchSizing`, `FastDiv` | the stream-K schedule, the two stages over scratch memory, the separate fixup function, scratch sizing and the division descriptor |
| `KernelRanges`, `Intervals`, `Unions`, `Chunks`, `Envelopes` | strided copies, the transposed quantizer layout, the matvec shortcut, and every interval sweep, merge and union |
| `MemoryWitness`, `MemoryWitnessProofs`, `MemoryWitnessCatalog`, `MemoryWitnessReplay` | allocations, physical handles, mappings and compound unmaps rebuilt row by row, with the exact condition of each row |
| `WddmLifetime`, `WddmProofs`, `WddmMeaning`, `WddmRegistry` | generation-tagged lifetimes of processes, devices, contexts and queues, the exact condition of each event and what the report counts |
| `LaunchCensus`, `CensusProofs`, `CensusMeaning`, `CensusReplay` | the API call forest, kernel attribution, what the counts mean and report reconciliation |
| `CompressionTrace` | causal chains of compressed transfers |
| `FxModel`, `FxPlanner` | the next-use planner: exact liveness of an FX graph |
| `Options`, `Arithmetic`, `Cardinality`, `Sorting` | what the models share: a result type, facts about division and set sizes, a verified sort |

Proofs hide the definitions they do not need with `hide` statements, which keeps every obligation
small; verify the whole project with `dafny verify dfyconfig.toml`.

## Model

| member | source | states |
|---|---|---|
| OrderProofs.PrecedesIsReachability | python/xvram/compat_audit_proof.py:191-193 | after any calls whatever, refused ones included, the clock comparison of two nodes answers exactly whether the second is the first or is reachable from it in the happens-before graph (stream order, record-to-wait and host-inherit edges) |
| OrderProofs.PrecedesIsPartialOrder | python/xvram/compat_audit_proof.py:191-193 | precedence is reflexive, antisymmetric and transitive in every reachable state |
| OrderProofs.PrecedesIsFinal | python/xvram/compat_audit_proof.py:141-151 | no later call, a re-record or event destruction in particular, changes an answer already given |
| OrderProofs.StepKeepsInv | python/xvram/compat_audit_proof.py:116-251 | every operation keeps each stream, node, record and completed clock equal to a consistent cut of the graph |
| OrderProofs.RetiredIsWitnessed | python/xvram/compat_audit_proof.py:195-197 | a node is retired exactly when the model is not poisoned and the host has witnessed a node reachable from it |
| OrderProofs.RetiredByOwnComponent | python/xvram/compat_audit_proof.py:195-197 | the whole-clock retirement test agrees with the node's own stream component alone |
| OrderProofs.RetirementPersists | python/xvram/compat_audit_proof.py:195-197 | retirement is undone by nothing but poisoning |
| OrderProofs.DestroyStreamExact | python/xvram/compat_audit_proof.py:240-247 | on a live stream of an open model, destruction is accepted exactly when every node ever submitted on it is retired |
| OrderProofs.StreamOrder | python/xvram/compat_audit_proof.py:126-139 | of two nodes of one stream the earlier precedes the later, whatever happened between them |
| OrderProofs.StreamSyncRetires | python/xvram/compat_audit_proof.py:212-220 | a successful stream synchronization retires every node of that stream |
| OrderProofs.ContextSyncRetiresAll | python/xvram/compat_audit_proof.py:231-238 | a successful context synchronization retires every node ever submitted, those of destroyed streams included |
| OrderProofs.EventSuccessRetires | python/xvram/compat_audit_proof.py:175-183 | a queried current record has a recording node, and success retires all that precedes that node |
| OrderProofs.RetiredPrecedesLater | python/xvram/compat_audit_proof.py:222-229 | a node retired now precedes whatever any stream submits later after inheriting host retirements |
| OrderHistory.LedgerAgrees | python/xvram/compat_audit_proof.py:88-251 | after any calls the state holds what the answers alone tell: live streams and events, creations, current records, the stream of every node and the node of every record |
| OrderAcceptance.AcceptedExactly | python/xvram/compat_audit_proof.py:100-251 | every one of the twelve calls is accepted exactly under a condition on the earlier answers and the graph (the million-entry clock budget included, stated without clocks), and is then answered with the next node, the next record or done |
| OrderAcceptance.PoisonExact | python/xvram/compat_audit_proof.py:100-103 | exactly four calls break an unbroken model: extending a sealed one, a failed query of a current record, a failed or misplaced stream synchronization, a failed context synchronization |
| OrderAcceptance.LivesExact | python/xvram/compat_audit_proof.py:116-124 | a stream or event is live exactly while its accepted creation has no accepted destruction after it |
| OrderAcceptance.CurrentIsLast | python/xvram/compat_audit_proof.py:153-160 | an event's current record is the token that answered its last accepted record, with no accepted destruction since |
| OrderAcceptance.QueryExact | python/xvram/compat_audit_proof.py:175-183 | a query is accepted exactly on an unbroken model, with a report other than failure, for a well-formed token that answered the last accepted record of its event, not destroyed since |
| OrderAcceptance.WaitExact | python/xvram/compat_audit_proof.py:162-173 | a wait is accepted exactly for a live stream and the last record of a live event within the state limit and clock budget; the new node follows the stream's frontier and the recording node |
| OrderAcceptance.SubmitExact | python/xvram/compat_audit_proof.py:126-139 | a submission is accepted exactly on a live stream within the limits, and adds one node of that stream after its frontier |
| OrderAcceptance.RecordExact | python/xvram/compat_audit_proof.py:141-151 | a record is accepted exactly on a live event and stream within the limits; its number is one more than the accepted records of the event, and its node is the new one |
| OrderAcceptance.KeptEntries | python/xvram/compat_audit_proof.py:131-139 | in every reachable state the clock entries kept count, for every node, the streams with a node from which it is reachable |
| DeviceOrderObject.WaitCostIsSubmitCost | python/xvram/compat_audit_proof.py:162-173 | the cost that wait tests before merging is the cost its inner submission tests after it, so a refused wait leaves no merge behind |
| DeviceOrderObject.Raise | python/xvram/compat_audit_proof.py:171-172 | the entrywise maximum loop computes the join of two clocks in any iteration order |
| DeviceOrderObject.DeviceOrder.constructor | python/xvram/compat_audit_proof.py:88-98 | a new object is the state of the empty history |
| DeviceOrderObject.DeviceOrder.Admit | python/xvram/compat_audit_proof.py:100-106 | sealed submissions poison, poison refuses, and the state limit applies to submissions only |
| DeviceOrderObject.DeviceOrder.CreateStream | python/xvram/compat_audit_proof.py:116-120 | the object's whole state and answer are those of the step function on its history |
| DeviceOrderObject.DeviceOrder.CreateEvent | python/xvram/compat_audit_proof.py:122-124 | likewise for event creation |
| DeviceOrderObject.DeviceOrder.AddNode | python/xvram/compat_audit_proof.py:126-139 | what submission answers and leaves, on success and on every refusal |
| DeviceOrderObject.DeviceOrder.Submit | python/xvram/compat_audit_proof.py:126-139 | likewise for submission as a public call |
| DeviceOrderObject.DeviceOrder.RecordNode | python/xvram/compat_audit_proof.py:141-151 | an event record is a submission plus a snapshot under the next record number |
| DeviceOrderObject.DeviceOrder.Record | python/xvram/compat_audit_proof.py:141-151 | likewise as a public call |
| DeviceOrderObject.DeviceOrder.WaitNode | python/xvram/compat_audit_proof.py:162-173 | merge then submit is one atomic step of the model, whose condition and effect OrderAcceptance.WaitExact gives: either both happen or the state is unchanged but for poison |
| DeviceOrderObject.DeviceOrder.Wait | python/xvram/compat_audit_proof.py:162-173 | the object's whole state and answer follow its history, and the wait is accepted exactly when the answers before admit it, for the last record of the event and a live stream |
| DeviceOrderObject.DeviceOrder.Query | python/xvram/compat_audit_proof.py:175-183 | likewise for event queries, accepted exactly on the last record of an event not destroyed since, unless poisoned or the device failed |
| DeviceOrderObject.DeviceOrder.DestroyEvent | python/xvram/compat_audit_proof.py:205-210 | likewise for event destruction |
| DeviceOrderObject.DeviceOrder.Complete | python/xvram/compat_audit_proof.py:212-220 | completing one stream joins its clock into the completed cut, or poisons |
| DeviceOrderObject.DeviceOrder.SynchronizeStream | python/xvram/compat_audit_proof.py:212-220 | likewise as a public call |
| DeviceOrderObject.DeviceOrder.InheritHostRetirements | python/xvram/compat_audit_proof.py:222-229 | likewise for the host edge |
| DeviceOrderObject.DeviceOrder.CompleteAll | python/xvram/compat_audit_proof.py:231-238 | the loop over streams never refuses part way: it joins every stream or nothing |
| DeviceOrderObject.DeviceOrder.SynchronizeContext | python/xvram/compat_audit_proof.py:231-238 | likewise as a public call |
| DeviceOrderObject.DeviceOrder.DestroyStream | python/xvram/compat_audit_proof.py:240-247 | likewise for stream destruction |
| DeviceOrderObject.DeviceOrder.SealSubmissions | python/xvram/compat_audit_proof.py:249-251 | likewise for sealing |
| DeviceOrderObject.DeviceOrder.Precedes | python/xvram/compat_audit_proof.py:191-193 | the object's answer is reachability in the graph of its own history, None for an unknown node |
| DeviceOrderObject.DeviceOrder.IsRetired | python/xvram/compat_audit_proof.py:195-197 | the object's answer is host witness of a reachable node |
| DeviceOrderObject.DeviceOrder.RequireRetired | python/xvram/compat_audit_proof.py:199-203 | accepted exactly for a non-empty bounded list of known nodes that are all retired |
| DeviceOrderObject.DeviceOrder.Terminal | python/xvram/compat_audit_proof.py:253-265 | true exactly when sealed, clean, not empty and every node is witnessed complete |
| OrderTraceProofs.TraceNests | python/xvram/compat_audit_order.py:63-203 | in every accepted trace callback spans are nested or disjoint, mutating spans are pairwise disjoint, the order model refused nothing, and no run reads an absent event |
| OrderTraceProofs.StepKeeps | python/xvram/compat_audit_order.py:115-203 | one row keeps the spans, the accepted history and the match between event tables |
| OrderTraceProofs.LaterNodesFollow | python/xvram/compat_audit_order.py:171-203 | a node retired in an accepted history precedes every node that any accepted continuation submits |
| OrderTraceProofs.StreamSyncOrders | python/xvram/compat_audit_order.py:177-178 | a submission on a stream precedes everything submitted on any stream by rows after a successful synchronization of that stream |
| OrderTraceProofs.ContextSyncOrders | python/xvram/compat_audit_order.py:179-180 | every submission precedes everything submitted by rows after a context synchronization |
| OrderTraceProofs.EventSuccessOrders | python/xvram/compat_audit_order.py:193-197 | an event found complete has a current record, and every submission that record followed on its stream precedes everything submitted by later rows |
| OrderScript.ScriptExact | python/xvram/compat_audit_order.py:115-203 | in every accepted trace the calls made on the order model, the stream and event tables and both counters are those that the rows spell out |
| OrderScript.SubmissionsExact | python/xvram/compat_audit_order.py:169-203 | in every accepted trace the nodes are one for each finished launch, copy, set, record and stream wait, each owned by the open generation of that row's stream, and the counters count such rows |
| OrderScript.RowAddsNode | python/xvram/compat_audit_order.py:169-203 | a submitting row adds exactly one node, owned by its stream's open generation, and any other row adds none |
| OrderScript.WaitRowFollows | python/xvram/compat_audit_order.py:198-203 | the node that recorded the awaited event's current record precedes the node of the wait row |
| OrderScript.DestroyRowRetired | python/xvram/compat_audit_order.py:166-168 | a stream is destroyed only when every node that rows submitted on its generation is retired |
| OrderScript.DeviceAccepted | python/xvram/compat_audit_order.py:160-203 | in the retained context a finished device call is accepted exactly when it names streams and events that fit and the order model accepts each call it makes |
| OrderRows.RowAcceptedExactly | python/xvram/compat_audit_order.py:63-203 | a row is accepted exactly under a condition on the rows before: ranges, one thread and context, nesting, disjoint mutations, the exit repeating the enter, the retained context, seal and terminal tests |
| OrderRows.TraceAcceptedExactly | python/xvram/compat_audit_order.py:63-203 | a trace is accepted exactly when each of its rows meets that condition |
| OrderReplay.Witness.Target | python/xvram/compat_audit_order.py:41-55 | the stream lookup with implicit per-thread creation is the trace model's, faults included |
| OrderReplay.Witness.DeviceEffect | python/xvram/compat_audit_order.py:160-203 | every device call drives the owned DeviceOrder as the trace model says, whose calls OrderScript.ScriptExact and whose acceptance OrderScript.DeviceAccepted give from the rows |
| OrderReplay.Witness.ExitCall | python/xvram/compat_audit_order.py:127-159 | stack, pairing, query and context tests of an exit row |
| OrderReplay.Witness.Close | python/xvram/compat_audit_order.py:81-89 | the terminal row is accepted exactly when all is sealed, closed and retired |
| OrderTraceProofs.TerminalIsClosed | python/xvram/compat_audit_order.py:81-89 | a trace that ended with the terminal row left no call open, no event alive and no submission unretired |
| OrderReplay.AnalyzeRows | python/xvram/compat_audit_order.py:29-206 | the row loop succeeds exactly on traces whose every row fits the rows before and that end with the terminal row; then every call has returned, callbacks nest, mutating calls are disjoint, every launch, copy, set, record and wait row has its node and every node is retired; otherwise it reports the first fault, which is never a missing key |
| StreamK.BlockSegments | python/xvram/compat_audit_kernel_ranges.py:697-722 | the inner walk of one block yields its segments |
| StreamK.MainStage | python/xvram/compat_audit_kernel_ranges.py:696-722 | the block loop yields the segments of all blocks in order |
| StreamK.StartExact | python/xvram/compat_audit_kernel_ranges.py:672-672 | block boundaries are the whole parts of equal shares: they begin at 0, end at the total, and two shares differ by at most one unit |
| StreamK.EachUnitOnce | python/xvram/compat_audit_kernel_ranges.py:696-722 | for every tile count, K length and block count, each (tile, k) unit lies in exactly one segment |
| StreamK.OneCompleter | python/xvram/compat_audit_kernel_ranges.py:718-721 | each tile has exactly one completing segment |
| StreamK.CollectSlots | python/xvram/compat_audit_kernel_ranges.py:724-743 | the backward walk collects the tile's slots and can reach neither the unwritten-slot nor the predecessor rejection |
| StreamK.SlotsOfExact | python/xvram/compat_audit_kernel_ranges.py:728-741 | a walk collects exactly the partial slots left for its tile |
| StreamK.SlotsOfDescend | python/xvram/compat_audit_kernel_ranges.py:728-741 | no walk reads a slot twice |
| StreamK.CollectsExact | python/xvram/compat_audit_kernel_ranges.py:672-673 | what a fixup block reads is what the main stage left for its tile |
| StreamK.EachSlotReadOnce | python/xvram/compat_audit_kernel_ranges.py:724-743 | every slot the main stage writes is read by exactly one fixup block |
| StreamKMemory.MainSlots | python/xvram/compat_audit_kernel_ranges.py:718-719 | after the main stage slot p exists exactly for a partial block and holds its last units |
| StreamKMemory.MainDst | python/xvram/compat_audit_kernel_ranges.py:720-721 | a destination tile holds the units of its last block |
| StreamKMemory.GatherUnits | python/xvram/compat_audit_kernel_ranges.py:728-741 | the slots a walk gathers hold exactly the tile's units below the finishing block, in order |
| StreamKMemory.StreamKComplete | python/xvram/compat_audit_kernel_ranges.py:672-745 | for every grid the two stages leave in each tile of the destination each of its units exactly once, in order, and write no other tile |
| StreamKFixup.FixupStage | python/xvram/compat_audit_kernel_ranges.py:724-745 | the fixup stage visits exactly the finishing blocks and never rejects; lines 799-816 repeat this walk |
| StreamKFixup.CoordinatesBijective | python/xvram/compat_audit_kernel_ranges.py:678-687 | tile numbers and (row tile, column tile, channel, sample) coordinates correspond one to one, so no scheduled tile fails the shape check |
| StreamKFixup.RangesExact | python/xvram/compat_audit_kernel_ranges.py:678-694 | the 128-element ranges of a tile hold exactly the output elements (row, column, channel, sample) whose row block, sample, channel and column block give that tile number, each at its strides from the start |
| StreamKFixup.FitsExact | python/xvram/compat_audit_kernel_ranges.py:689-694 | the test of a tile's last column holds exactly when every element of the tile keeps a signed 32-bit offset, with one further element in the main function |
| StreamKFixup.LaunchExact | python/xvram/compat_audit_kernel_ranges.py:724-831 | a launch is accepted exactly when every element of every finished tile is addressable, and has one effect for each finishing block, touching exactly the elements of its tile |
| StreamKFixup.MainOutput | python/xvram/compat_audit_kernel_ranges.py:689-694 | the main function's destination ranges: accepted exactly when every element of the tile and one more are addressable, and holding exactly the elements of that tile |
| StreamKFixup.FixupOutput | python/xvram/compat_audit_kernel_ranges.py:823-831 | the separately written function: accepted exactly when every element of the tile is addressable, and holding exactly those elements |
| StreamKFixup.OutputsAgree | python/xvram/compat_audit_kernel_ranges.py:823-831 | what the main function's output check accepts the fixup function accepts, and they differ exactly when a tile's last 128 elements end one below the signed limit |
| StreamKFixup.OutputsDiffer | python/xvram/compat_audit_kernel_ranges.py:689-694 | a destination at that limit which the fixup function accepts and the main function refuses |
| StreamKFixup.MainFixupLaunch | python/xvram/compat_audit_kernel_ranges.py:724-745 | the fixup stage of the main function over all blocks: one effect for each finishing block, on exactly the elements of its tile, refused exactly when some element of a finished tile or its successor is not addressable |
| StreamKFixup.SeparateFixupLaunch | python/xvram/compat_audit_kernel_ranges.py:796-831 | the separately written fixup over all blocks: the same effects, refused exactly when some element of a finished tile is not addressable |
| StreamKFixup.LaunchesAgree | python/xvram/compat_audit_kernel_ranges.py:724-831 | for every grid and destination the two launches read the same slots and touch the same ranges wherever the main one accepts, and where the fixup one accepts the main one refuses exactly when some finished tile ends at the limit |
| FastDiv.DescriptorExact | python/xvram/compat_audit_kernel_ranges.py:182-187 | for every divisor up to 2^31-1 the mask drops nothing, the formula is integer division on every 32-bit operand, and the inner sum fits a word on signed operands |
| ScratchSizing.SlotsWrittenExactly | python/xvram/compat_audit_memory.py:184-209 | the main stage writes a slot exactly when a tile has two units or more and the blocks do not divide the tiles |
| ScratchSizing.AcceptExact | python/xvram/compat_audit_memory.py:159-210 | a request is accepted with a plan exactly when the plan counts the tiles that cover the output, has the launcher's blocks, reserves one tile of floats a block if the blocks do not divide the tiles, and the word limits hold |
| ScratchSizing.BlockCountExact | python/xvram/compat_audit_memory.py:190-197 | the launcher starts one block a tile exactly when the waves of tiles fill nine tenths of the multiprocessors' places |
| ScratchSizing.ScratchAdequate | python/xvram/compat_audit_memory.py:159-210 | an accepted plan reports a fixup whenever a slot is written, and every slot's bytes lie inside the payload; single-unit tiles are the only case where it reserves without need |
| ScratchSizing.ReservedButUnused | python/xvram/compat_audit_memory.py:201-210 | the converse fails: a request of single-unit tiles that reserves scratch no block writes |
| KernelRanges.CopyRuns | python/xvram/compat_audit_kernel_ranges.py:847-875 | the segment walk ends, refuses exactly when some element overflows, and its runs are the per-element copy for any two shapes of equal product |
| KernelRanges.AddressExact | python/xvram/compat_audit_kernel_ranges.py:859-870 | element i0 of row i1 of plane i2 of volume i3 lies at its strides from the start of the tensor |
| KernelRanges.UnravelExact | python/xvram/compat_audit_kernel_ranges.py:859-870 | every element number belongs to one such place inside the tensor |
| KernelRanges.BlockLayout | python/xvram/compat_audit_kernel_ranges.py:468-492 | the quantized blocks of neighbouring rows are adjacent, then come the 128-value columns, the channels a pitch apart and the samples |
| KernelRanges.PitchExact | python/xvram/compat_audit_kernel_ranges.py:468-492 | a channel's pitch holds 128 values for each row of the launched columns, the fewest whole thread blocks that cover the padded ones |
| KernelRanges.MatvecBytes | python/xvram/compat_audit_kernel_ranges.py:602-618 | the rows read exactly the weight bytes and 288 vector bytes a block, and write four bytes a row |
| KernelRanges.BlockIndexInjective | python/xvram/compat_audit_kernel_ranges.py:468-492 | block indices of an accepted geometry are distinct and inside the padded output, so the 144-byte writes never overlap |
| KernelRanges.RowByRow | python/xvram/compat_audit_kernel_ranges.py:602-618 | the row loop records each row's ranges or meets a 32-bit overflow |
| KernelRanges.Analytic | python/xvram/compat_audit_kernel_ranges.py:586-600 | the shortcut records one range per operand or refuses at the last row |
| KernelRanges.ShortcutExact | python/xvram/compat_audit_kernel_ranges.py:586-618 | for every row and column count both refuse the same inputs and merge to the same ranges for all three operands |
| Intervals.Merge | python/xvram/compat_audit_kernel_ranges.py:226-238 | the merge loop refuses exactly overlapping writes and otherwise returns gap-separated ranges of the same bytes |
| Intervals.CanonicalUnique | python/xvram/compat_audit_kernel_ranges.py:226-238 | a byte set has only one gap-separated form, so the result does not depend on the order of accesses |
| Intervals.UnionBelowTotal | python/xvram/compat_audit_analysis.py:56-64 | a union counts fewer bytes than the lengths add up to exactly when two intervals share one |
| Unions.Accesses.Add | python/xvram/compat_audit_kernel_ranges.py:216-224 | integer, overflow and count faults, and which accesses are kept |
| Unions.Accesses.Result | python/xvram/compat_audit_kernel_ranges.py:226-238 | refused exactly when two non-empty writes of one operand intersect; else every operand gets its canonical ranges |
| Unions.RangeUnionBytes | python/xvram/compat_audit_analysis.py:56-64 | the sweep returns the number of distinct bytes, in any input order, and its own overflow test never fires |
| Unions.ExtentTestExact | python/xvram/compat_audit_analysis.py:360-370 | comparing the union with the sum of sizes finds exactly the files in which two tensor extents overlap |
| Unions.OverlappingWrite | python/xvram/compat_audit_proof.py:69-77 | the one-pass sweep with two running ends finds exactly a conflicting pair |
| Envelopes.MemoryEnvelopes | python/xvram/compat_audit_proof.py:39-78 | once the bounds checks pass, the overlap error is raised exactly when two non-empty accesses of one allocation intersect and one writes; else the union refuses exactly when declarations disagree or the total overflows, and otherwise counts the touched chunks |
| Envelopes.SomeGroupConflicts | python/xvram/compat_audit_proof.py:66-77 | a conflict anywhere in the list is a conflict inside one allocation's group |
| Envelopes.BoundedExact | python/xvram/compat_audit_proof.py:51-63 | the per-range checks pass exactly when the words fit, the allocation holds the tensor and the tensor holds the access |
| Envelopes.HazardExact | python/xvram/compat_audit_proof.py:64-75 | two accesses conflict exactly when a byte of one allocation is touched by both and written by one |
| Envelopes.ReachedExact | python/xvram/compat_audit_proof.py:64-78 | a chunk is counted exactly when some access touches a byte that lies in it after the base shift |
| Chunks.ChunkSpanExact | python/xvram/compat_audit_memory.py:286-289 | after the base shift the span of a range is exactly the chunks that one of its bytes touches |
| Chunks.TouchedExact | python/xvram/compat_audit_memory.py:286-304 | a pair is counted exactly when some byte of some range of that allocation lies in the chunk |
| Chunks.GroupRanges | python/xvram/compat_audit_memory.py:264-289 | the checks accept exactly one generation and layout per allocation, and group the spans |
| Chunks.ChunkUnion | python/xvram/compat_audit_memory.py:254-308 | the procedure counts exactly the distinct (allocation, chunk) pairs touched, in any order |
| MemoryWitnessProofs.RunKeeps | python/xvram/compat_audit_memory_witness.py:147-338 | in every accepted run each mapping lies in a live reservation of its generation, mappings share no byte, every mapping has its physical entry and each entry is retained or mapped, owed segments tile their extent; no run reads a missing key |
| MemoryWitnessProofs.NoIdentityReused | python/xvram/compat_audit_memory_witness.py:103-108 | the identities of allocations, handles and mappings form one strictly increasing sequence |
| MemoryWitnessProofs.PhysicalIffHeldOrMapped | python/xvram/compat_audit_memory_witness.py:143-145 | a physical entry exists exactly while its handle is created and not released, or still mapped |
| MemoryWitnessProofs.MappedBytesFit | python/xvram/compat_audit_memory_witness.py:293-305 | the mappings of a reservation never add up to more than its bytes |
| MemoryWitnessProofs.CompoundUnmapExact | python/xvram/compat_audit_memory_witness.py:270-289 | a compound unmap is accepted exactly when the intersecting mappings tile its extent and are as many as it says |
| MemoryWitnessProofs.UnmapTestExact | python/xvram/compat_audit_memory_witness.py:277-286 | the gap, generation and tail tests succeed exactly on tiled extents |
| MemoryWitnessProofs.CommitUnmapsExactly | python/xvram/compat_audit_memory_witness.py:167-184 | when the last segment row arrives exactly the bytes of the extent stop being mapped |
| MemoryWitnessProofs.RemoveAllExact | python/xvram/compat_audit_memory_witness.py:178-180 | the commit loop never misses a key, removes exactly its segments and keeps the physical table consistent |
| MemoryWitnessReplay.IsCovered | python/xvram/compat_audit_memory_witness.py:117-128 | the sweep answers true exactly when every byte of the extent is mapped |
| MemoryWitnessReplay.WalkSegments | python/xvram/compat_audit_memory_witness.py:280-286 | the cursor walk finds the first gap or partial segment, or where the segments end |
| MemoryWitnessReplay.Commit | python/xvram/compat_audit_memory_witness.py:178-181 | the loop removes the segments one after another |
| MemoryWitnessProofs.MapExact | python/xvram/compat_audit_memory_witness.py:290-305 | in every reachable state a map is accepted exactly when its extent lies in a live reservation, its identity is new, its handle is retained and large enough and no byte of the extent is mapped; then exactly those bytes become mapped |
| MemoryWitnessProofs.UnmapExact | python/xvram/compat_audit_memory_witness.py:306-311 | an unmap is accepted exactly when the table holds that very mapping, and then exactly its bytes stop being mapped |
| MemoryWitnessProofs.MapThenUnmap | python/xvram/compat_audit_memory_witness.py:290-312 | unmapping what was just mapped is accepted and gives back every table as it was |
| MemoryWitnessCatalog.CatalogExact | python/xvram/compat_audit_memory_witness.py:147-338 | in every reachable state the allocations, held handles, mappings, revision, last call and last identity are those that the rows made and did not undo, and the rows still owed are those of the last operation |
| MemoryWitnessCatalog.OperationExact | python/xvram/compat_audit_memory_witness.py:230-338 | with nothing owed an operation is accepted exactly when its call is later, it states the revision it brings, and it is legal for what is live: a transfer needs each side live with its generation and size, known, mapped and in a reservation mapped in every byte; so do access changes; a free needs no mapping left, a release a held handle |
| MemoryWitnessCatalog.RowExact | python/xvram/compat_audit_memory_witness.py:147-338 | any row is accepted exactly when it fits what the rows before left: with segments owed, the first remaining mapping that meets the extent; with descriptors owed, another device with flags 0, 1 or 3 |
| MemoryWitnessCatalog.RunExact | python/xvram/compat_audit_memory_witness.py:147-338 | a run is accepted exactly when each of its rows fits |
| MemoryWitnessReplay.UnmapMany | python/xvram/compat_audit_memory_witness.py:270-289 | the checks and the effect of a compound unmap |
| MemoryWitnessReplay.AnalyzeRows | python/xvram/compat_audit_memory_witness.py:90-341 | the row loop computes the step machine's result and keeps its invariant; it accepts exactly when every row fits the rows before and none is owed, and the tables are then those the rows describe |
| WddmProofs.RunKeeps | python/xvram/compat_audit_wddm_lifetime.py:139-222 | every accepted event keeps the registries consistent and every lifetime inside what holds it so far; no run reads a missing key |
| WddmProofs.BalancedRunNests | python/xvram/compat_audit_wddm_lifetime.py:139-226 | in every accepted balanced run generations of an identity are 1 to n and strictly disjoint, contexts lie within devices, queues within contexts, children within parents of the same owner, and every resource began while its process was live |
| WddmProofs.ParentsAcyclic | python/xvram/compat_audit_wddm_lifetime.py:157-216 | no process, context or queue is its own ancestor over any number of parent links |
| WddmProofs.ProcessNestingExact | python/xvram/compat_audit_wddm_lifetime.py:227-228 | in every accepted balanced run all devices, contexts and queues lie within the processes that own them exactly when no device stop in the input comes later than the stop of its process, and exactly when the report's count of late stops is zero |
| WddmProofs.DeviceMayOutliveProcess | python/xvram/compat_audit_wddm_lifetime.py:227-228 | that condition can fail: an accepted balanced run in which a device outlives its process |
| WddmMeaning.ChartExact | python/xvram/compat_audit_wddm_lifetime.py:139-222 | the tables of an accepted run hold the lifetimes that its events start and stop, a context owned by the process of its device and a queue by that of its context |
| WddmMeaning.EventExact | python/xvram/compat_audit_wddm_lifetime.py:139-222 | an event is accepted exactly when it fits the lifetimes made before: times, key ranges, the next generation strictly after the last, live holders, parents and processes, and stops with nothing live beneath |
| WddmMeaning.RunExact | python/xvram/compat_audit_wddm_lifetime.py:139-222 | a run is accepted exactly when each of its events fits |
| WddmMeaning.ReportExact | python/xvram/compat_audit_wddm_lifetime.py:227-237 | the report counts the events, the starts of each kind, the resource stops later than the stop of their process and those after the reap |
| WddmRegistry.Registry.Start | python/xvram/compat_audit_wddm_lifetime.py:70-84 | a generation starts exactly when it is the next one of its identity and begins strictly after the previous one ended; only its own entries change, and the registry invariant is kept |
| WddmRegistry.Registry.Stop | python/xvram/compat_audit_wddm_lifetime.py:92-96 | a lifetime ends exactly when it is live and gets a positive length; only its stop changes, and the registry invariant is kept |
| WddmRegistry.Graph.StartContext | python/xvram/compat_audit_wddm_lifetime.py:185-196 | a context start changes its registry as the lifetime graph says, or faults |
| WddmRegistry.Graph.StopContext | python/xvram/compat_audit_wddm_lifetime.py:197-203 | a context stop, with its identity and live-children tests |
| WddmRegistry.AnalyzeLifetimes | python/xvram/compat_audit_wddm_lifetime.py:116-237 | the analysis succeeds exactly on a clean capture whose events all fit and that ends with a lifetime of every kind and none live; then generations are disjoint, contexts and queues nest, and the report counts the starts and stops of the events, with no late stop exactly when no device stop comes after the stop of its process; it never fails on a missing key |
| CensusProofs.CallsFormForest | python/xvram/compat_launch_census.py:84-113 | in every accepted trace a child call is entered after and left before its parent, and an open call's parent is open |
| CensusProofs.LeavesExist | python/xvram/compat_launch_census.py:146-158 | a kernel with a candidate launch always has a leaf |
| CensusProofs.AttributedExactly | python/xvram/compat_launch_census.py:158-166 | a kernel is attributed exactly when no leaf failed and all leaves carry one marker, which is the one it is marked with |
| CensusProofs.AnalysisReconciles | python/xvram/compat_launch_census.py:134-178 | whatever the trace, an analysis that succeeds passes the report validator |
| CensusMeaning.CensusExact | python/xvram/compat_launch_census.py:60-131 | the tables of an accepted trace hold the calls, the finished and failed calls and the kernels of its records |
| CensusMeaning.RecordExact | python/xvram/compat_launch_census.py:84-128 | a record is accepted exactly when it fits the records before: numbering, an open parent, fewer than 64 calls above, an exit that repeats its enter after all its children, kernel bounds |
| CensusMeaning.TraceExact | python/xvram/compat_launch_census.py:60-131 | a trace is accepted exactly when each of its records fits |
| CensusMeaning.AnalysisExact | python/xvram/compat_launch_census.py:132-178 | the analysis succeeds exactly on a complete accepted trace in which no leaf launch of a kernel failed, the leaves of each kernel carry one marker, and origins and groups stay within their limits; then a category counts the kernels with no finished launch, with a leaf of non-zero marker, or the rest, the observed markers are those of leaves, and each group counts the kernels of its name, origin and category |
| CensusReplay.ReadTrace | python/xvram/compat_launch_census.py:60-131 | the record loop computes the step machine's result and keeps its invariant |
| CensusReplay.WalkAncestors | python/xvram/compat_launch_census.py:150-157 | the walk finds exactly the proper ancestors of a call, and its depth rejection is unreachable |
| CensusReplay.FindLeaves | python/xvram/compat_launch_census.py:147-158 | the leaves are exactly the candidates with no candidate proper descendant |
| CensusReplay.BuildLaunches | python/xvram/compat_launch_census.py:142-145 | the table holds, for every correlation, its finished launch calls |
| CensusReplay.ValidateReport | python/xvram/compat_launch_census.py:212-228 | the validator accepts exactly reconciled counts, distinct groups and matching totals |
| CensusReplay.Analyze | python/xvram/compat_launch_census.py:47-178 | the whole analysis succeeds exactly on those traces, its counts, observed markers and groups mean what CensusMeaning.AnalysisExact says of the records, and every success reconciles |
| CompressionTrace.ValidateCausalTrace | scripts/validate_phase5_compression_trace.py:148-286 | the validator passes exactly the traces of whole chains, or of whole chains and begun ones when completeness is not asked for, with its counters, on every record sequence |
| CompressionTrace.InterleavingIrrelevant | scripts/validate_phase5_compression_trace.py:182-270 | a trace is accepted exactly when every identity's own records are, so interleaving does not matter |
| CompressionTrace.CompleteIffChains | scripts/validate_phase5_compression_trace.py:148-286 | a trace passes with completeness exactly when each identity's records are whole chains of the four kinds, with constant bytes and flag and a sticky target generation |
| CompressionTrace.AcceptedIffBegun | scripts/validate_phase5_compression_trace.py:148-270 | without completeness a trace passes exactly when each identity's records are whole chains and then at most the proper beginning of one |
| CompressionTrace.CountChains | scripts/validate_phase5_compression_trace.py:282-286 | per identity the counters equal the numbers of encode and decode chains |
| CompressionTrace.CountersAddUp | scripts/validate_phase5_compression_trace.py:160-161 | the counters are the sums of those numbers over the identities |
| CompressionTrace.CountersCountChains | scripts/validate_phase5_compression_trace.py:282-286 | on every complete trace the two counters are the total numbers of encode and decode chains over all identities |
| FxModel.ReleasedExactlyOnce | python/xvram/fx.py:157-193 | for every topologically ordered graph each computed value that stays in the graph is released at exactly one step, its last use or its own step if unused, and no other value is |
| FxModel.NothingAfterRelease | python/xvram/fx.py:157-193 | no step after a release reads the value and neither that step nor a later one prefetches it |
| FxPlanner.NextUseAfter | python/xvram/fx.py:26-32 | the first use strictly after a step, or none exactly when no use is later |
| FxPlanner.ReleaseTestsExact | python/xvram/fx.py:212-225 | the two release predicates together say exactly when a value dies |
| FxPlanner.NextUseExact | python/xvram/fx.py:164-171 | the hint of a read is the next step that reads the value, or that this is the last |
| FxPlanner.CheckNodes | python/xvram/fx.py:103-114 | accepted exactly when names are distinct and names and operations are not empty |
| FxPlanner.ScanGraph | python/xvram/fx.py:116-136 | accepted exactly when every input is an earlier node, with the sorted distinct inputs and the ascending users |
| FxPlanner.PrefetchNames | python/xvram/fx.py:175-182 | the names of exactly the values produced before the step, read within the window and not by the step, ordered by first use and then name |
| FxPlanner.AddFuture | python/xvram/fx.py:240-245 | one future step adds exactly its earlier-produced sources that were not yet candidates |
| FxPlanner.MakeReleases | python/xvram/fx.py:160-173 | the sorted names of exactly the values that die at the step |
| Sorting.StringLeExact | python/xvram/fx.py:190-190 | names are ordered by their first difference, a beginning of a name before the name |
| FxPlanner.AnalyzeNextUses | python/xvram/fx.py:77-200 | a graph is planned exactly when it is well named and topologically ordered and the distance is at most eight, and the plan is the right one in every step |

## Left out

- JSON, JSONL and SQLite reading, hashing, framing (sequence numbers, session rows, schema versions), field-name and type validation: single-record checks before the modelled machines start.
- The C++ residency runtime, the CUDA front ends and all GPU arithmetic: a (tile, k) unit is an abstract contribution.
- Operand ranges of x and y in the stream-K rules, shared-memory and launch-geometry checks: each is one branch over constants.
- StreamKFixup.MainOutput: the two functions disagree on one boundary, since the main function demands 128 further elements and the fixup function 127; each contract states its own bound and the accepted ranges agree.
- FastDiv.DescriptorExact: the device-side formula is not in the repository; the model takes the usual high-word multiply, add and shift that such a descriptor feeds.
- KernelRanges.RowByRow: the enumeration cap of the row loop and the recorder's interval cap are dropped, because the shortcut exists to avoid them.
- Unions.Accesses.Result: the sorted order of the operands in the result is not stated, only each operand's ranges.
- KernelRanges.CopyRuns: the recorder's interval cap and its refusal of overlapping destinations are not composed with the walk; Unions.Accesses states them for any accesses.
- The order in which the census report lists its groups: their contents and counts are stated, the final sort by name is not.
- MemoryWitnessReplay.AnalyzeRows: the reconciliation of the summary row's totals with the tables is not modelled, nor are error rows.
- OrderReplay.AnalyzeRows: the session row, the counters other than submissions and kernels, and the returned table of calls are not modelled.
- WddmRegistry.AnalyzeLifetimes: the capture tests are one fault, and the report's fixed text is not modelled.
- LaunchCensus takes the launch-name pattern and the rendering of origins as arbitrary functions, so its theorems hold for any of them.
- FxPlanner.AnalyzeNextUses: Python object identity of nodes is replaced by positions in the node list, with a position past the end for a foreign node.
- The kernel rules other than stream-K, strided copy, matvec and the Q8_1 quantizer, and the accumulating issue counters of the correlation and main analysis programs: they would only add easy members.
