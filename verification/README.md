# Verification of the engine core

A Dafny model of the parts of the engine whose correctness rests on control and data alone, with proofs of
what they promise. `dafny verify dfyconfig.toml` checks everything.

- **Render graph** (`PassOrder`, `GraphModel`, `Culling`, `Lifetimes`, `Attachments`, `Barriers`, `BarrierReplay`,
  `BarrierSync`, `RenderGraph`; `PassContents`, `AttachmentContents`, `BarrierContents`, `AccessRules`).
  Compilation validates declarations, builds ordering edges, runs Kahn's algorithm, culls dead passes in one
  reverse sweep and emits lifetimes, attachments and barriers. Culling preserves what the
  frame computes for every graph. A frame finds its images in the right layouts exactly when execution agrees with
  the declarations (`RecordsCleanlyWhen`), reads an image that starts undefined only behind a write exactly when
  the first pass to use it does not read it (`RecordsInitialisedWhen`), and has the chain of barriers between two
  uses in force exactly when the uses between them run as declared (`ImageChainInForceWhen`). All three hold in a
  *pass-ordered* graph (uses declared by increasing pass id). Edges join consecutive uses only, and
  `UnorderedUsesCanMisread` is a graph that compiles into a frame whose first pass reads an image in the wrong
  layout and before anything has written it.
- **Marshal codec** (`MarshalTypes`, `StringTable`, `ZeroRuns`, `PackedFields`, `MarshalEncoding`,
  `MarshalDecoding`, `MarshalEncoder`, `MarshalDecoder`, `MarshalRoundTrip`, `MarshalStreams`; `WireForms`,
  `WireContainers`, `WireSaves`, `WireRows`, `EncodedForms`). `EncodedValue`
  and `DecodeValue` specify the two recursive programs; the classes `Writer` and `Decoder` are the programs with
  their growing buffer, offset and save table, proved against them. The round trip is stated for every value the
  encoder accepts: what comes back is `Canon(v)`, the value with negative zero replaced by zero and the integers
  of packed rows wrapped to their columns, and `CanonKeeps` says exactly when that is the value itself. The `Wire`
  modules say in bytes and numbers how every form reads at any offset, the ones the encoder never writes included.
- **Frame handoff** (`PacketChannel`, `ChannelRuns`, `FrameSlots`, `SlotLeases`, `SlotAnswers`, `Handoff`,
  `HandoffSafety`, `HandoffProgress`). The ring refines a queue, leases and slots agree over all runs of all
  clients, no token is granted twice, and the producer and the consumer are two programs stepping by lock regions, with sleeping,
  notification and spurious wake-ups.
- **Runtime supervisor** (`Supervisor`, `SupervisorRuns`, `SupervisorProgress`, `SupervisorStops`). Waiters, failure
  reporters, submitters and drainers interleave by lock regions; a drainer sleeps until the last consumer wakes it,
  nothing is accepted after a stop and no error is lost.
- **ECS world** (`EcsWorld`, `EcsSchedule`, `StateHash`). Journals, the validated merge and
  what it leaves behind when it fails, independence of the worker schedule, and the state hash.
- **Frame decoder** (`Framing`). Incremental length-prefixed parsing.

The programs are proved against functions that follow their branches; the modules named after a semicolon above,
and `ChannelRuns`, `SlotAnswers` and `SupervisorStops`, say what those functions give without naming their parts:
by declared uses, by bytes, or by the calls made before.

`Bytes` and `Options` hold what several of them share. Where a body hides definitions (`hide F`), that only
keeps the solver from unfolding them.

Where comments and code disagree the model follows the code. The comment at
`src/trinityal-vulkan/Tr2RenderGraphALVulkan.h:99` speaks of execution order indices where the code stores pass
ids; the one at `src/trinityal-vulkan/Tr2RenderGraphALVulkan.cpp:542-547` says the recorder supplies the old
layout of the first barrier, but the recorder uses the one the compiler emitted.
`docs/protocol/machonet.md:120` has the variable integer form for some 64-bit integers; the encoder never writes
it (`IntegerTakes`), while the decoder reads it as described there (`VarIntegerReads`).

## Model

| member | source | states |
|---|---|---|
| `PassOrder.CountEdges` | src/trinityal-vulkan/Tr2RenderGraphALVulkan.cpp:382-395 | the counter of a pass is the number of edges into it from passes not yet run, and its list holds one entry for each edge out of it |
| `PassOrder.PopLeast` | src/trinityal-vulkan/Tr2RenderGraphALVulkan.cpp:397-412 | the pass taken next is the lowest of the ready ones, and the others stay ready |
| `PassOrder.LowerSuccessors` | src/trinityal-vulkan/Tr2RenderGraphALVulkan.cpp:414-421 | lowering the counters along the edges of one pass makes ready exactly those passes whose counter reaches zero |
| `PassOrder.OrderPasses` | src/trinityal-vulkan/Tr2RenderGraphALVulkan.cpp:381-422 | with counters and a heap the program produces a greedy order: at each place the lowest pass all of whose predecessors have run, until none is available |
| `PassOrder.CompleteIffAcyclic` | src/trinityal-vulkan/Tr2RenderGraphALVulkan.cpp:407-427 | the order is complete, and then a permutation of the passes that respects every edge, exactly when no closed walk of edges exists |
| `PassOrder.GreedyIsLeast` | src/trinityal-vulkan/Tr2RenderGraphALVulkan.cpp:397-422 | no order that respects the edges comes lexicographically before the one produced |
| `PassOrder.UpwardEdgesKeepIdOrder` | src/trinityal-vulkan/Tr2RenderGraphALVulkan.cpp:397-422 | when every edge goes from a lower to a higher id, the order is the ids themselves |
| `RenderGraph.Validate` | src/trinityal-vulkan/Tr2RenderGraphALVulkan.cpp:325-346 | reports the first resource with an unusable declaration; nothing is reported exactly when presented images have uses and images that start undefined are first written |
| `PassContents.FirstErrorNames` | src/trinityal-vulkan/Tr2RenderGraphALVulkan.cpp:325-346 | the error and its name say what is wrong with the resource that is reported, and nothing is wrong with the ones before it |
| `RenderGraph.BuildUseEdges` | src/trinityal-vulkan/Tr2RenderGraphALVulkan.cpp:355-377 | the edges of one resource join consecutive uses unless both read |
| `RenderGraph.BuildEdges` | src/trinityal-vulkan/Tr2RenderGraphALVulkan.cpp:348-379 | the edges of the graph are those of its resources, in declaration order |
| `RenderGraph.EdgesAreHazards` | src/trinityal-vulkan/Tr2RenderGraphALVulkan.cpp:348-379 | there is an edge from a to b exactly when they are consecutive users of some resource and one of them writes |
| `RenderGraph.FindSelfEdge` | src/trinityal-vulkan/Tr2RenderGraphALVulkan.cpp:385-392 | the first self-edge is found, and none exactly when there is none |
| `RenderGraph.NumberPasses` | src/trinityal-vulkan/Tr2RenderGraphALVulkan.cpp:441-451 | entries are stored by pass id; survivors are numbered 0, 1, 2, ... along the order and culled passes carry the invalid index |
| `RenderGraph.PassOrderedRecordsCleanly` | src/stage5_milestone_scene.cpp:869-880 | in a pass-ordered graph recording by pass id is the compiled order, every barrier finds the layout it names, every image a pass uses is in the layout the use needs, and presented images end presentable |
| `RenderGraph.PassOrderedRecordsInitialised` | src/trinityal-vulkan/Tr2RenderGraphALVulkan.cpp:325-346 | in a pass-ordered graph every recorded pass that reads an image which starts undefined comes behind one that writes it |
| `RenderGraph.UnorderedUsesCanMisread` | src/trinityal-vulkan/Tr2RenderGraphALVulkan.cpp:348-379 | a concrete graph, declared out of pass order, compiles into a frame that is recorded neither cleanly nor initialised: its first pass finds an image in the wrong layout, and reads it although it starts undefined and no surviving write runs before |
| `RenderGraph.RecordsCleanlyWhen` | src/stage5_milestone_scene.cpp:869-880 | for every compiled graph: the frame recorded by pass id is clean exactly when, in id order, the surviving uses of each pass agree with the layouts left by the uses that ran before, and likewise the end of each presented image |
| `RenderGraph.RecordsInitialisedWhen` | src/stage5_milestone_scene.cpp:869-880 | for every compiled graph: no pass of the recorded frame reads an image that starts undefined before an earlier recorded pass writes it, exactly when, in id order, the first surviving pass to use such an image does not read it |
| `RenderGraph.RenderGraphAL.AddResource` | src/trinityal-vulkan/Tr2RenderGraphALVulkan.cpp:125-151 | a new resource gets the next id, or the invalid id at the limit and nothing changes |
| `RenderGraph.RenderGraphAL.AddPass` | src/trinityal-vulkan/Tr2RenderGraphALVulkan.cpp:153-164 | a new pass gets the next id and is not cullable, or the invalid id at the limit |
| `RenderGraph.RenderGraphAL.DeclareImageUse` | src/trinityal-vulkan/Tr2RenderGraphALVulkan.cpp:166-186 | accepted exactly for an existing pass and image; appends the use and changes nothing else |
| `RenderGraph.RenderGraphAL.DeclareBufferUse` | src/trinityal-vulkan/Tr2RenderGraphALVulkan.cpp:188-208 | accepted exactly for an existing pass and buffer; appends the use and changes nothing else |
| `RenderGraph.RenderGraphAL.MarkPassCullable` | src/trinityal-vulkan/Tr2RenderGraphALVulkan.cpp:210-216 | marks an existing pass, ignores any other id |
| `RenderGraph.RenderGraphAL.SetAttachmentClear` | src/trinityal-vulkan/Tr2RenderGraphALVulkan.cpp:218-242 | sets the operations of the first attachment write of the image by the pass and nothing else; refused for a missing pass, image or write |
| `RenderGraph.RenderGraphAL.MarkPresented` | src/trinityal-vulkan/Tr2RenderGraphALVulkan.cpp:244-252 | accepted exactly for an existing image, which becomes presented |
| `RenderGraph.RenderGraphAL.Compile` | src/trinityal-vulkan/Tr2RenderGraphALVulkan.cpp:310-650 | succeeds exactly for graphs with passes, resources, usable declarations and no cycle, and otherwise names the first check that fails and the first resource or edge that fails it; the order is the least that respects the edges, survivors are those of the sweep, lifetimes, attachments and barriers those of the surviving uses; in a pass-ordered graph the order is the identity and recording is clean and initialised; in every graph recording is clean exactly when the layouts agree in id order, and initialised exactly when first users do not read |
| `Culling.FeedsSurvivor` | src/trinityal-vulkan/Tr2RenderGraphALVulkan.cpp:263-302 | the nested scan of one resource finds a write by the pass and a read by another surviving pass exactly when both exist |
| `Culling.HasReasonToSurvive` | src/trinityal-vulkan/Tr2RenderGraphALVulkan.cpp:254-308 | true exactly for a pass that is not cullable, writes a presented image, or writes a resource that a different surviving pass reads |
| `Culling.CullPasses` | src/trinityal-vulkan/Tr2RenderGraphALVulkan.cpp:429-440 | one sweep against the order leaves each pass judged by the survivors behind it |
| `Culling.SurvivesIffChain` | src/trinityal-vulkan/Tr2RenderGraphALVulkan.cpp:429-440 | a pass survives exactly when a chain of writes read by later survivors leads from it to a pass that must stay: the sweep computes the least such set |
| `PassContents.SurvivesExactly` | src/trinityal-vulkan/Tr2RenderGraphALVulkan.cpp:254-308 | over the declared uses alone: a pass survives exactly when it may not be culled, writes a presented image, or writes what a survivor behind it reads |
| `Culling.TaintIsUnseen` | src/trinityal-vulkan/Tr2RenderGraphALVulkan.cpp:276-302 | a resource written by a culled pass is not presented and no later survivor reads it |
| `Culling.RunsAgree` | src/trinityal-vulkan/Tr2RenderGraphALVulkan.cpp:429-451 | after any number of passes, the full run and the culled run agree on every resource no culled pass has written |
| `Culling.CullingPreservesMeaning` | src/trinityal-vulkan/Tr2RenderGraphALVulkan.cpp:429-451 | for every graph, order and effect of the passes, removing culled passes changes nothing a surviving pass reads and no presented image |
| `Barriers.EmitImageBarriers` | src/trinityal-vulkan/Tr2RenderGraphALVulkan.cpp:548-604 | the image barriers of one resource are one step for each surviving use that changes layout or has a hazard, with the scopes of the two uses, and the present transition last |
| `Barriers.EmitBufferBarriers` | src/trinityal-vulkan/Tr2RenderGraphALVulkan.cpp:610-646 | the buffer barriers of one resource are one step for each surviving use after the first with a hazard or another scope |
| `Barriers.EmitBarriers` | src/trinityal-vulkan/Tr2RenderGraphALVulkan.cpp:542-646 | the barriers of the graph are those of its resources, in resource order |
| `BarrierContents.ImageBarriersAre` | src/trinityal-vulkan/Tr2RenderGraphALVulkan.cpp:548-604 | over the declared uses alone: exactly which image barriers there are, with the scopes and layouts of each |
| `BarrierContents.PresentTransition` | src/trinityal-vulkan/Tr2RenderGraphALVulkan.cpp:590-603 | a presented image has exactly one closing barrier; if a use survives it waits for the scope of the last one, makes it visible to all commands and leaves the present layout |
| `BarrierContents.WriteReachesPresent` | src/trinityal-vulkan/Tr2RenderGraphALVulkan.cpp:590-603 | every surviving write of a presented image is linked, barrier by barrier, to the last surviving use and that to the present transition |
| `BarrierContents.BufferBarriersAre` | src/trinityal-vulkan/Tr2RenderGraphALVulkan.cpp:606-646 | over the declared uses alone: exactly which buffer barriers there are |
| `AccessRules.ImageScopesFollowRules` | src/trinityal-vulkan/Tr2RenderGraphALVulkan.cpp:40-79 | the scope of an image use covers exactly the accesses its layout permits, in stages that support them (sections 7.1.3 and 12.4 of the Vulkan 1.3 specification) |
| `AccessRules.BufferScopesFollowRules` | src/trinityal-vulkan/Tr2RenderGraphALVulkan.cpp:81-114 | the scope of a buffer use is supported by its stages and holds the accesses of its kind |
| `Lifetimes.FindLifetimes` | src/trinityal-vulkan/Tr2RenderGraphALVulkan.cpp:453-493 | the lifetime of a resource holds the passes of its first and last surviving use, in declaration order |
| `Lifetimes.LifetimeIsInterval` | src/trinityal-vulkan/Tr2RenderGraphALVulkan.cpp:453-493 | in a pass-ordered graph a lifetime is the smallest interval of pass ids that holds every surviving use, and a resource is unused exactly when it has none |
| `Lifetimes.LifetimeCovers` | src/trinityal-vulkan/Tr2RenderGraphALVulkan.cpp:453-493 | in any order in which uses run as declared no surviving use runs before the first pass of its lifetime or after the last |
| `PassContents.LifetimesAre` | src/trinityal-vulkan/Tr2RenderGraphALVulkan.cpp:453-493 | in any graph: a lifetime names its resource and kind, is used exactly when a surviving pass uses it, and holds the passes of the first and the last such use |
| `Attachments.FindAttachments` | src/trinityal-vulkan/Tr2RenderGraphALVulkan.cpp:495-540 | the attachments of the surviving passes, by pass id: depth fills its own slot, colors the next of four, further colors none |
| `Attachments.SlotsAreDistinctWhen` | src/trinityal-vulkan/Tr2RenderGraphALVulkan.cpp:495-540 | no two attachments of a pass share a slot exactly when it writes depth at most once, and four colors at most are attached |
| `AttachmentContents.AttachmentsAre` | src/trinityal-vulkan/Tr2RenderGraphALVulkan.cpp:494-540 | over the declared uses alone: an attachment is there exactly for each depth write of a surviving pass, in slot 4, and for each color write of one with fewer than four color writes of that pass before it, in the slot of that number, with the operations of the use |
| `AttachmentContents.AttachmentsByPassId` | src/trinityal-vulkan/Tr2RenderGraphALVulkan.cpp:497-503 | attachments are listed by pass id |
| `BarrierReplay.PassOrderedIsUseOrdered` | src/trinityal-vulkan/Tr2RenderGraphALVulkan.cpp:348-379 | in a pass-ordered graph run by id, the uses of every resource run in the order they were declared |
| `BarrierReplay.ApplyBeforePass` | src/trinityal-vulkan/Tr2RenderContextVulkan.cpp:1423-1459 | where execution and declaration agree, the barriers before one pass all find their old layout and leave the layouts that its uses need |
| `BarrierReplay.DisagreementShows` | src/trinityal-vulkan/Tr2RenderContextVulkan.cpp:1423-1459 | where they do not agree, a barrier before the pass does not find its old layout or the pass finds an image in another layout than it needs |
| `BarrierReplay.AgreesWhenCarried` | src/trinityal-vulkan/Tr2RenderGraphALVulkan.cpp:560-589 | the barriers of one image before one pass fit and take it to the one layout the uses of the pass need exactly if these uses agree with the layout found: they need one layout, the first of them with a barrier is declared behind a use that leaves the layout found, the later ones behind uses that leave the layout needed, and without a barrier the image is already in it |
| `BarrierReplay.AgreesOnce` | src/trinityal-vulkan/Tr2RenderGraphALVulkan.cpp:560-589 | a pass that uses an image once, whatever the other passes do, agrees exactly if the use declared before it leaves the layout found |
| `BarrierReplay.ReplaysCleanlyWhen` | src/trinityal-vulkan/Tr2RenderContextVulkan.cpp:1423-1459 | for every graph and passes run in any order: all barriers fit, all surviving uses find their layouts and presented images end presentable exactly when the surviving uses of each pass agree with the layouts left by the uses that ran before, and for each presented image the last use run and the last use declared leave the same layout |
| `BarrierReplay.ReplayIsConsistent` | src/trinityal-vulkan/Tr2RenderContextVulkan.cpp:1423-1459 | in any order in which uses run as declared this is so: no barrier finds another layout than it names, every surviving use finds the layout its access needs, presented images end in the present layout |
| `BarrierSync.WriteBeforeReadSurvives` | src/trinityal-vulkan/Tr2RenderGraphALVulkan.cpp:276-302 | a write that a surviving pass reads later is not culled and runs before it |
| `BarrierSync.ImageWriteReachesUse` | src/trinityal-vulkan/Tr2RenderGraphALVulkan.cpp:560-589 | a surviving write of an image and any later surviving use are linked by a chain of barriers with the exact scopes of the uses, or of reads with equal scopes (section 7.1 of the Vulkan 1.3 specification) |
| `BarrierSync.BufferWriteReachesUse` | src/trinityal-vulkan/Tr2RenderGraphALVulkan.cpp:606-646 | the same for buffers |
| `BarrierSync.ImageChainInForceWhen` | src/trinityal-vulkan/Tr2RenderGraphALVulkan.cpp:560-589 | in whatever order passes run: each surviving use between two of an image is linked to the next, and has run when the barrier of the next is recorded, exactly when these uses run in the order of declaration |
| `BarrierSync.BufferChainInForceWhen` | src/trinityal-vulkan/Tr2RenderGraphALVulkan.cpp:606-646 | the same for buffers |
| `BarrierSync.ReadsAreInitialised` | src/trinityal-vulkan/Tr2RenderGraphALVulkan.cpp:325-346 | culling never exposes an uninitialised read: a surviving read of an image that starts undefined has a surviving write before it |
| `BarrierSync.ReadsAreInitialisedWhen` | src/trinityal-vulkan/Tr2RenderGraphALVulkan.cpp:325-346 | in whatever order passes run: every surviving read of an image is behind a surviving write exactly when the first surviving pass to use the image does not read it |
| `BarrierSync.NoUndefinedBeforeRead` | src/trinityal-vulkan/Tr2RenderGraphALVulkan.cpp:567-582 | no barrier before a reading use starts from the undefined layout |
| `PacketChannel.FramePacketChannel.constructor` | src/threading/frame_packet_channel.cpp:5-19 | a channel of an accepted capacity starts empty and open |
| `PacketChannel.FramePacketChannel.TryPublish` | src/threading/frame_packet_channel.cpp:47-60 | the ring does to its contents what the FIFO queue does: appends, or refuses when closed or full |
| `PacketChannel.FramePacketChannel.Publish` | src/threading/frame_packet_channel.cpp:62-77 | one attempt of the blocking call: appends, refuses when closed, or blocks when full with nothing but the registration changed |
| `PacketChannel.FramePacketChannel.TryConsume` | src/threading/frame_packet_channel.cpp:79-92 | takes the oldest packet, or nothing |
| `PacketChannel.FramePacketChannel.Consume` | src/threading/frame_packet_channel.cpp:94-110 | one attempt of the blocking call: the oldest packet, the end of a closed channel, or a wait |
| `PacketChannel.FramePacketChannel.Close` | src/threading/frame_packet_channel.cpp:112-119 | closes the channel and keeps its packets |
| `ChannelRuns.ReceivedInOrder` | src/threading/frame_packet_channel.cpp:47-119 | over every sequence of calls by any threads: what has been received and what is queued is what was accepted, in order, and the queue is within the capacity |
| `ChannelRuns.SendAnswers` | src/threading/frame_packet_channel.cpp:47-77 | by the calls made before: the first publishing thread alone is admitted, and it is refused only when the channel was closed or is full; the blocking call throws and waits instead |
| `ChannelRuns.ReceiveAnswers` | src/threading/frame_packet_channel.cpp:79-110 | the first consuming thread alone gets the oldest packet not yet received; without one the blocking call waits until the channel is closed |
| `ChannelRuns.NothingAfterClose` | src/threading/frame_packet_channel.cpp:112-119 | once closed, nothing more is accepted, whatever is called |
| `FrameSlots.FrameSlotPool.constructor` | src/threading/frame_slot.cpp:150-167 | all slots start free at generation zero |
| `FrameSlots.FrameSlotPool.FindFreeSlot` | src/threading/frame_slot.cpp:343-350 | the first free slot, or the number of slots if there is none |
| `FrameSlots.FrameSlotPool.TryAcquireWriteLocked` | src/threading/frame_slot.cpp:186-206 | opens the first free slot with a new generation, or reports none free, closed or the wrong thread |
| `FrameSlots.FrameSlotPool.AcquireWrite` | src/threading/frame_slot.cpp:208-228 | the first attempt of the blocking acquire, which counts itself as active while it waits |
| `FrameSlots.FrameSlotPool.AcquireWriteResumed` | src/threading/frame_slot.cpp:219-244 | what a waiting acquire does when it is woken: opens a slot, gives up when closed, or waits on |
| `FrameSlots.FrameSlotPool.AcquireRead` | src/threading/frame_slot.cpp:301-341 | the first attempt to read a slot |
| `FrameSlots.FrameSlotPool.AcquireReadResumed` | src/threading/frame_slot.cpp:312-341 | a token of the current generation reads a published slot, waits on one being written if the call blocks, and is otherwise refused |
| `FrameSlots.FrameSlotPool.SetSize` | src/threading/frame_slot.cpp:444-456 | sets the payload size of the slot being written, within its capacity |
| `FrameSlots.FrameSlotPool.SlotForToken` | src/threading/frame_slot.cpp:398-422 | a token is honoured exactly for this pool, an existing slot and its current, nonzero generation |
| `FrameSlots.FrameSlotPool.Payload` | src/threading/frame_slot.cpp:485-494 | the reader of a slot sees as many of its bytes as its payload size; anyone else is refused |
| `FrameSlots.FrameSlotPool.Publish` | src/threading/frame_slot.cpp:458-470 | a slot being written under the current generation becomes published |
| `FrameSlots.FrameSlotPool.Cancel` | src/threading/frame_slot.cpp:472-483 | a slot being written becomes free again |
| `FrameSlots.FrameSlotPool.Release` | src/threading/frame_slot.cpp:506-517 | a slot being read becomes free again |
| `FrameSlots.FrameSlotPool.Discard` | src/threading/frame_slot.cpp:264-275 | a published slot becomes free without being read |
| `FrameSlots.FrameSlotPool.Quiescent` | src/threading/frame_slot.cpp:282-293 | true exactly when no operation is active and every slot is free |
| `SlotLeases.StepKeeps` | src/threading/frame_slot.cpp:186-517 | every step of every client keeps slots and active leases in one-to-one agreement, counting occurrences: one write lease of the current generation while a slot is being written, one read lease while it is read, none otherwise |
| `SlotLeases.AtMostOneLease` | src/threading/frame_slot.cpp:186-341 | in every reachable state a slot has at most one active lease, counting repeated grants of one token, and only on its current generation |
| `SlotLeases.ReadGrantsAreExclusive` | src/threading/frame_slot.cpp:301-341 | a read lease is granted only for a token issued before, and only while no lease of its slot is active |
| `SlotLeases.TokensAreFresh` | src/threading/frame_slot.cpp:186-244 | whatever acquire grants a write lease, its token was never granted before and no lease of its slot is active |
| `SlotLeases.NoTokenTwice` | src/threading/frame_slot.cpp:186-244 | over any run of any clients the write acquires never hand out one token twice |
| `SlotLeases.StaleForever` | src/threading/frame_slot.cpp:398-422 | once the generation of a slot has passed a token, no step of any later run honours it |
| `SlotLeases.ReaderSeesPublished` | src/threading/frame_slot.cpp:485-504 | a reader sees exactly the size the slot held when it was published, and exactly its bytes unless a client has written through a span it kept beyond its lease |
| `SlotLeases.StrayFillShows` | src/threading/frame_slot.cpp:424-432 | such a write changes what the reader sees exactly if it differs from what was there |
| `SlotLeases.StrayedOnlyByFill` | src/threading/frame_slot.cpp:424-432 | and nothing but such a write marks a slot |
| `SlotLeases.SealedAtPublish` | src/threading/frame_slot.cpp:458-470 | publishing seals what the writer left in the slot, and a seal never changes |
| `SlotAnswers.WriteAnswers` | src/threading/frame_slot.cpp:186-244 | for every pool and caller: who is refused, that a closed pool grants nothing, that else the first free slot opens under the next generation, and what a full pool says |
| `SlotAnswers.ReadAnswers` | src/threading/frame_slot.cpp:246-254 | which tokens and callers are refused, and what is granted, waited for or refused by the state of the slot |
| `SlotAnswers.WriterAnswers` | src/threading/frame_slot.cpp:57-96 | an active write lease is never refused for its token or the state of its slot; the producer sizes, publishes while the pool is open, and cancels |
| `SlotAnswers.ReaderAnswers` | src/threading/frame_slot.cpp:124-148 | an active read lease shows the consumer the published bytes, and its release frees the slot |
| `SlotAnswers.DiscardAnswers` | src/threading/frame_slot.cpp:264-275 | discarding frees a published slot of a closed pool, for the consumer only, and is refused otherwise |
| `SlotAnswers.NothingAfterClose` | src/threading/frame_slot.cpp:256-262 | over every continuation of a closed pool: no write lease is granted, no wait for one begins, and nothing is published |
| `HandoffSafety.ActKeeps` | src/stage3_tsan.cpp:52-112 | every lock region of either thread, and every spurious wake-up, keeps packets, slots, leases, sleepers and deliveries in agreement |
| `HandoffProgress.NeverStuck` | src/stage3_tsan.cpp:52-112 | until both threads have finished, one of them can take a step without a spurious wake-up |
| `HandoffProgress.ActShrinks` | src/stage3_tsan.cpp:52-112 | every step of a thread lowers a measure that a spurious wake-up raises by one |
| `HandoffProgress.EveryScheduleIsSafe` | src/stage3_tsan.cpp:52-112 | for every number of ticks, slot count and capacity and every interleaving: nobody throws, ticks arrive in order, each with its own payload, and the schedule is bounded |
| `HandoffProgress.EveryCompleteScheduleDelivers` | src/stage3_tsan.cpp:114-120 | when neither thread can move, every tick has been delivered, the channel is closed and empty and the pool quiescent |
| `HandoffProgress.RunSpscStress` | src/stage3_tsan.cpp:46-121 | under an arbitrary scheduler the run ends and its closing check holds |
| `Supervisor.JobRuntime.Submit` | src/jobs/job_runtime.cpp:54-65 | accepted exactly while running |
| `Supervisor.JobRuntime.RequestStop` | src/jobs/job_runtime.cpp:80-85 | moves a running runtime to stop-requested and leaves any other state |
| `Supervisor.JobRuntime.BeginDrain` | src/jobs/job_runtime.cpp:87-97 | a stopped runtime stays so; any other is draining |
| `Supervisor.JobRuntime.EndDrain` | src/jobs/job_runtime.cpp:99-103 | the runtime is stopped |
| `Supervisor.RuntimeSupervisor.constructor` | src/runtime/runtime_supervisor.cpp:11-15 | starting, no failure, nothing pending, the first task id is 1 |
| `Supervisor.RuntimeSupervisor.StartRegion` | src/runtime/runtime_supervisor.cpp:25-35 | starting becomes running once |
| `Supervisor.RuntimeSupervisor.SubmitRegion` | src/runtime/runtime_supervisor.cpp:37-54 | a task is accepted with the next id only while running, below the bounds and with running jobs; every refusal changes nothing |
| `Supervisor.RuntimeSupervisor.TakeRegion` | src/runtime/runtime_supervisor.cpp:75-94 | the waiter takes the task out of the pending list and becomes a consumer, or nothing changes |
| `Supervisor.RuntimeSupervisor.RecordFailureRegion` | src/runtime/runtime_supervisor.cpp:215-231 | the first failure is kept, later ones change only the lifecycle; refused once stopped |
| `Supervisor.RuntimeSupervisor.RequestStopRegion` | src/runtime/runtime_supervisor.cpp:123-134 | starting or running becomes stop-requested; the jobs are stopped unless the supervisor is |
| `Supervisor.RuntimeSupervisor.ReleaseRegion` | src/runtime/runtime_supervisor.cpp:233-242 | one consumer fewer, with a notification exactly when none is left, or an underflow error |
| `Supervisor.RuntimeSupervisor.BeginDrainRegion` | src/runtime/runtime_supervisor.cpp:142-158 | takes every pending task unless stopped |
| `Supervisor.RuntimeSupervisor.EndDrainRegion` | src/runtime/runtime_supervisor.cpp:169-173 | with consumers left nothing changes and the caller sleeps; without, failed if a failure is recorded and stopped otherwise |
| `SupervisorRuns.HandlesAccounted` | src/runtime/runtime_supervisor.cpp:37-111 | conservation of handles: pending, held by a waiter, held by the drainer or waited on, each id handed out is in exactly one place, after every event |
| `SupervisorRuns.EventKeeps` | src/runtime/runtime_supervisor.cpp:37-242 | every lock region of every interleaving keeps that and what each lifecycle state says about tasks, consumers, failures and the drainer; no internal call throws |
| `SupervisorRuns.RunsNeverGoBack` | src/runtime/runtime_supervisor.cpp:25-174 | between any two points of any run the lifecycle rank does not fall, a terminal state stays, the first failure is never overwritten |
| `SupervisorRuns.WaitedAtMostOnce` | src/runtime/runtime_supervisor.cpp:75-111 | in every reachable state no handle has been waited on twice |
| `SupervisorRuns.TerminalStates` | src/runtime/runtime_supervisor.cpp:142-174 | in a terminal state every submitted handle has been waited on exactly once, nothing is pending, no consumer is active, and the state is failed exactly when a failure was recorded |
| `SupervisorRuns.FailureDecidesTheEnd` | src/runtime/runtime_supervisor.cpp:215-231 | a failure recorded at any time is what the terminal state reports |
| `SupervisorRuns.DrainNeverStuck` | src/runtime/runtime_supervisor.cpp:142-174 | while a drain is under way some region can run, also while the drainer sleeps on the condition variable and without counting on a wake-up for no reason |
| `SupervisorRuns.LastConsumerWakes` | src/runtime/runtime_supervisor.cpp:233-242 | the region in which the last consumer leaves wakes a sleeping drainer, which then ends: the wake-up is not lost |
| `SupervisorProgress.DrainShrinks` | src/runtime/runtime_supervisor.cpp:142-242 | during a drain every region of the drainer and of the waiters lowers the work left, a wake-up for no reason raises it by one, and no other call changes it |
| `SupervisorProgress.DrainIsBounded` | src/runtime/runtime_supervisor.cpp:142-242 | however calls interleave, a drain takes at most as many regions as there is work when it begins, and one more for each wake-up for no reason |
| `SupervisorStops.RunningExactly` | src/runtime/runtime_supervisor.cpp:25-35 | over every history of calls: the supervisor runs exactly when it was started and no stop, drain or failure has come, and its stop is requested exactly when one has come but no drain |
| `SupervisorStops.JobsExactly` | src/runtime/runtime_supervisor.cpp:123-134 | the jobs run exactly until the first stop or drain, drain from when a drain begins with them, and have stopped exactly when a drain has finished them without an error |
| `SupervisorStops.NothingAfterStop` | src/runtime/runtime_supervisor.cpp:123-134 | after any stop request, drain or failure, in every continuation: the supervisor is past running, the jobs are not running unless only failures came, every submission throws and no id is handed out |
| `SupervisorStops.SubmissionsAnswered` | src/runtime/runtime_supervisor.cpp:37-54 | by the calls made before: a submission is accepted exactly while the supervisor runs, fewer than 4096 tasks are pending and ids are left, with the next id and behind all pending tasks; else the first reason is thrown |
| `SupervisorStops.SubmissionOrder` | src/runtime/runtime_supervisor.cpp:50-53 | pending tasks, and those a drain has taken, are in the order of submission, and at most 4096 are pending |
| `SupervisorStops.WaitsAnswered` | src/runtime/runtime_supervisor.cpp:75-94 | a wait takes a task exactly when it is pending, leaves the others in order and counts its caller; else it throws and changes nothing |
| `SupervisorStops.DrainTakesAll` | src/runtime/runtime_supervisor.cpp:142-158 | a drain takes every pending task, in order, and only a stopped supervisor ignores it |
| `SupervisorStops.FailureRecorded` | src/runtime/runtime_supervisor.cpp:215-231 | the first failure reported before the end is recorded, and nothing else changes what is recorded |
| `SupervisorStops.NoErrorIsLost` | src/runtime/runtime_supervisor.cpp:160-174 | a supervisor that has ended is failed exactly when a task or the jobs ended with an error or a failure was reported before its end |
| `EcsWorld.PartitionsTile` | src/ecs/ecs_world.cpp:12-25 | the partitions are contiguous, tile the range, and have one entity more than the quotient exactly for the indexes below the remainder, so the larger ones come first |
| `EcsWorld.CheckedAdd` | src/ecs/ecs_world.cpp:27-36 | the exact sum, or an overflow exactly when the sum leaves the 64-bit range |
| `EcsWorld.BuildTransformJournal` | src/ecs/ecs_world.cpp:104-129 | the advanced states of the partition, numbered from zero; an error for a worker out of bounds or an overflow in the partition |
| `EcsWorld.World.CreateEntities` | src/ecs/ecs_world.cpp:55-72 | appends the entities with transforms counting on from the number there were and velocity one, or refuses beyond the bound and changes nothing |
| `EcsWorld.World.CopySnapshot` | src/ecs/ecs_world.cpp:81-92 | the component values of the entities, in their stable order |
| `EcsWorld.World.MergeJournals` | src/ecs/ecs_world.cpp:131-181 | succeeds exactly when the sorted journals are contiguous, numbered and cover the world entity by entity, and then every transform is the update at its position; succeeding or failing, it has written the longest run of updates that fit, none if the counts are wrong |
| `EcsWorld.World.MergeSorted` | src/ecs/ecs_world.cpp:158-180 | the pass that validates and writes: accepts exactly such journals, and has written all updates up to the first that does not fit |
| `EcsWorld.FittingIsLongest` | src/ecs/ecs_world.cpp:158-180 | there is one place where that pass stops, what it writes is everything before it, and it reaches the end exactly for acceptable journals |
| `EcsWorld.MergeLeaves` | src/ecs/ecs_world.cpp:131-181 | after any merge the entities whose updates fit have their new transforms and the others are as they were; nothing has changed exactly when every update that fits repeats the value that was there |
| `EcsWorld.FailedMergeWrites` | src/ecs/ecs_world.cpp:158-180 | concrete journals with which a merge fails and has changed a transform: a failed merge is not atomic |
| `EcsSchedule.ScheduleDoesNotMatter` | src/ecs/ecs_world.cpp:104-181 | journals built from a snapshot by any number of workers and handed over in any order are accepted, and the merge is the sequential update |
| `EcsSchedule.WorkersSucceed` | src/ecs/ecs_world.cpp:104-129 | every worker builds its journal exactly when no entity overflows |
| `EcsSchedule.SortingIsUnique` | src/ecs/ecs_world.cpp:137-141 | sorting journals of distinct contiguous workers has one possible result |
| `EcsSchedule.Tick` | src/ecs/ecs_world.cpp:81-181 | one tick of the world object, with the journals handed over in any order: succeeds exactly for a lawful worker count and no overflow, and is then the sequential update; otherwise the world is unchanged |
| `EcsSchedule.RunTicks` | src/ecs/ecs_world.cpp:81-181 | any number of ticks of the world object, each with its own worker count: the outcome is that of as many sequential updates |
| `EcsSchedule.TicksInOneGo` | src/ecs/ecs_world.cpp:104-129 | after any number of ticks each entity has moved by as many times its velocity and is otherwise unchanged; the ticks succeed exactly when every entity ends in the 64-bit range |
| `EcsSchedule.RunsAgree` | src/ecs/ecs_world.cpp:131-181 | two sequences of snapshots that start equal and go on by accepted merges of worker journals stay equal, whatever the worker counts and orders |
| `StateHash.HashOf` | src/ecs/ecs_world.cpp:188-197 | the hash mixes entity, transform and velocity of every state in order |
| `StateHash.MixInjective` | src/ecs/ecs_world.cpp:38-41 | each mixing step is injective in either argument modulo 2^64 |
| `StateHash.OneChangeShows` | src/ecs/ecs_world.cpp:188-197 | snapshots whose hashed words differ in one place have different hashes |
| `StateHash.TwoChangesCanHide` | src/ecs/ecs_world.cpp:188-197 | two changed words can hide: whatever transform the last entity is given, some velocity leaves the hash as it was |
| `StateHash.WordsTellAll` | src/ecs/ecs_world.cpp:190-195 | equal hashed words come from equal snapshots |
| `StateHash.HashSpelled` | src/ecs/ecs_world.cpp:188-197 | the hash of an empty world is the FNV-1a offset; each further entity mixes in its identifier, its transform and its velocity, in this order and in two's complement |
| `StateHash.XorBit` | src/ecs/ecs_world.cpp:38-41 | the exclusive or of the mixing step works bit by bit |
| `Framing.EncodeFrame` | src/network/framing.cpp:26-36 | length prefix and payload, or an error beyond the limit |
| `Framing.FrameDecoder.Push` | src/network/framing.cpp:38-43 | appends the bytes in any case and reports whether the buffer is within its bound |
| `Framing.FrameDecoder.TryPopFrame` | src/network/framing.cpp:45-65 | takes the first whole frame; nothing and no change if it is incomplete or its length is too large |
| `Framing.PopsFrame` | src/network/framing.cpp:26-65 | a frame at the head of the buffer is popped whole, whatever follows |
| `Framing.NothingLost` | src/network/framing.cpp:38-65 | at all times the re-encoded popped frames and the buffer are the bytes pushed, also after errors |
| `Framing.PopsInOrder` | src/network/framing.cpp:38-65 | for any chunking of a stream of frames interleaved with attempts to pop: no attempt fails and the popped payloads are a prefix of those sent |
| `Framing.ChunkingDoesNotMatter` | src/network/framing.cpp:38-65 | once the whole stream is in, an attempt yields nothing exactly when all payloads have been popped, in order, and then the buffer is empty |
| `Framing.StreamsDiffer` | src/network/framing.cpp:26-36 | streams of different payload lists differ |
| `Framing.FrameBytes` | src/network/framing.cpp:26-36 | a frame is the length of the payload in four bytes, least significant first, and the payload |
| `Framing.PopAnswers` | src/network/framing.cpp:45-65 | in bytes and numbers: nothing before four bytes are in, an error at once for a length beyond a mebibyte, nothing before the whole frame is in, and then exactly its payload |
| `Bytes.AppendUnsigned` | src/network/marshal/marshal.cpp:58-86 | the loops that append 32-bit and 64-bit integers write them least significant byte first |
| `Bytes.ReadUnsigned` | src/network/marshal/marshal.cpp:150-172 | the loops that read them back |
| `Bytes.DecodeLittleEndian` | src/network/marshal/marshal.cpp:150-172 | reading back an integer written in n bytes gives its value modulo 256^n |
| `Bytes.LittleEndianDigits` | src/network/framing.cpp:18-22 | byte k of an integer is its k-th digit in base 256 |
| `StringTable.Djb2Hash` | src/network/marshal/string_table.cpp:212-218 | the loop computes the 32-bit hash |
| `StringTable.LookupStringIndex` | src/network/marshal/string_table.cpp:220-228 | the first index, from 1, of an equal entry; comparing hashes first changes nothing |
| `StringTable.LookupUndone` | src/network/marshal/string_table.cpp:220-235 | a string found in the table is the string its index stands for |
| `StringTable.FirstIsFound` | src/network/marshal/string_table.cpp:220-228 | of several equal entries the first is found, counted from one, and none exactly when there is none |
| `ZeroRuns.ZeroCompress` | src/network/marshal/marshal.cpp:645-685 | the in-place nibble loops compute the compressed form |
| `ZeroRuns.ZeroDecompress` | src/network/marshal/marshal.cpp:1220-1249 | the loop expands at least the expected number of bytes or reports a truncation |
| `ZeroRuns.ExpandCompressed` | src/network/marshal/marshal.cpp:1204-1249 | decompression restores every input when the expected length is its length, also with an unused high nibble |
| `ZeroRuns.CompressedLength` | src/network/marshal/marshal.cpp:645-685 | n bytes compress to at most n + (n + 8) / 9 |
| `WireRows.SixteenZerosToAByte` | src/network/marshal/marshal.cpp:646-685 | zeros are compressed sixteen to a byte |
| `PackedFields.SizeOrderIsSorted` | src/network/marshal/marshal.cpp:478-485 | the order holds every column once, widest first and otherwise in column order |
| `PackedFields.StableSortIsUnique` | src/network/marshal/marshal.cpp:482-485 | any arrangement a stable sort by width may leave is this one |
| `PackedFields.SortColumns` | src/network/marshal/marshal.cpp:1027-1030 | the sort that encoder and decoder share leaves it |
| `PackedFields.ExpectedIsPacked` | src/network/marshal/marshal.cpp:1207-1219 | the length the decoder computes from the columns is the length of every row packed with them |
| `PackedFields.UnpackPacked` | src/network/marshal/marshal.cpp:487-520 | packing and unpacking restore every field with a width at its own column: null bits, bool bits and integers do not disturb each other |
| `PackedFields.WrapKeepsInRange` | src/network/marshal/marshal.cpp:551-608 | an integer field comes back unchanged exactly when it is in the range of its column |
| `MarshalTypes.CodeIsOpcode` | src/network/marshal/marshal.h:23-66 | the code of an opcode is read back as that opcode |
| `MarshalTypes.OpcodeIsCode` | src/network/marshal/marshal.h:23-66 | and a byte that is read as an opcode is its code |
| `MarshalEncoder.Writer.PutSizeEx` | src/network/marshal/marshal.cpp:99-106 | one byte below 255, otherwise an escape and four bytes |
| `MarshalEncoder.Writer.EncodeInteger` | src/network/marshal/marshal.cpp:292-315 | the shortest of the integer forms |
| `MarshalEncoder.Writer.EncodeReal` | src/network/marshal/marshal.cpp:317-324 | both zeros are written as the zero form |
| `MarshalEncoder.Writer.EncodeString` | src/network/marshal/marshal.cpp:326-344 | empty, one character, table index or sized bytes |
| `MarshalEncoder.Writer.EncodeValue` | src/network/marshal/marshal.cpp:227-290 | appends the encoding of the value or stops with its error |
| `MarshalEncoder.Writer.EncodeTuple` | src/network/marshal/marshal.cpp:370-388 | the loop writes the items in order after the form for their count |
| `MarshalEncoder.Writer.EncodeDict` | src/network/marshal/marshal.cpp:408-419 | each value before its key |
| `MarshalEncoder.Writer.EncodeObjectEx` | src/network/marshal/marshal.cpp:428-443 | header, items and pairs, each list ended by the terminator |
| `MarshalEncoder.PackFields` | src/network/marshal/marshal.cpp:487-520 | the loop with its byte buffer and bit data computes the packed row, or fails on the first field it cannot hold |
| `MarshalEncoder.AppendPackedScalar` | src/network/marshal/marshal.cpp:551-608 | an integer or null in the width of the column; a real number that is not null is refused because it is first read as an integer |
| `MarshalEncoder.Writer.EncodePackedRow` | src/network/marshal/marshal.cpp:466-531 | row header, compressed fields, and the values without a width in size order |
| `MarshalEncoder.Encode` | src/network/marshal/marshal.cpp:218-224 | header byte, empty save table and the value |
| `EncodedForms.EncodesWhenItFits` | src/network/marshal/marshal.cpp:227-290 | the encoder accepts exactly the values of at most 65 levels whose containers, rows and columns hold what they can |
| `EncodedForms.IntegerTakes` | src/network/marshal/marshal.cpp:292-315 | an integer takes the shortest of the fixed forms that can hold it, and never the variable one |
| `EncodedForms.LeavesTake` | src/network/marshal/marshal.cpp:317-356 | how many bytes a real and a string take: the one-byte forms, the string table, or size and bytes |
| `EncodedForms.HeadsTake` | src/network/marshal/marshal.cpp:370-414 | tuples of up to two parts and lists of up to one have an opcode of their own |
| `MarshalDecoding.DecodeValue` | src/network/marshal/marshal.cpp:719-743 | reads at least one byte, stays within the stream, begins no more values than it reads bytes, and on failure at most one more |
| `MarshalDecoding.DecodeNested` | src/network/marshal/marshal.cpp:796-828 | the same for containers, objects and rows, whose parts are one level deeper |
| `MarshalDecoding.UnpackedFits` | src/network/marshal/marshal.cpp:1038-1075 | every index into the unpacked data of a row is in range, whatever the stream says |
| `MarshalDecoding.DecodeIsTotal` | src/network/marshal/marshal.cpp:693-716 | on any bytes decoding returns a value or a marshal error, having begun fewer values than the stream has bytes |
| `WireForms.NothingBegins` | src/network/marshal/marshal.cpp:719-744 | what cannot begin a value, and its error: too deep a nesting, the end of the stream, the unknown flag, the save flag without a save table or room for an index |
| `WireForms.NoOpcode` | src/network/marshal/marshal.cpp:830-835 | a byte that is no opcode, or the terminator, begins no value |
| `WireForms.ConstantReads` | src/network/marshal/marshal.cpp:746-776 | the opcodes that are whole values, by their bytes |
| `WireForms.SignedReads` | src/network/marshal/marshal.cpp:761-768 | at any offset: the integers of one, two, four and eight bytes are those whose two's complement the bytes are |
| `WireForms.VarIntegerReads` | src/network/marshal/marshal.cpp:837-851 | at any offset: fewer than eight bytes are a non-negative integer whatever the topmost bit, eight a signed one, none zero, more are refused |
| `WireForms.RealReads` | src/network/marshal/marshal.cpp:771-772 | at any offset: a real number is its eight bytes |
| `WireForms.ShortReads` | src/network/marshal/marshal.cpp:776-786 | at any offset: one character, a string with a size of one byte and no escape, and an entry of the string table or its error |
| `WireForms.SizedReads` | src/network/marshal/marshal.cpp:886-909 | at any offset: the values that are a size, of at most a mebibyte, and as many bytes |
| `WireForms.WideReads` | src/network/marshal/marshal.cpp:868-884 | at any offset: a wide string of 16-bit units, one or as many as its size says, comes out unit by unit in UTF-8 |
| `WireForms.SavedElementReads` | src/network/marshal/marshal.cpp:989-999 | at any offset: a saved element is what is saved under its index, or an error |
| `WireSaves.ValueStays` | src/network/marshal/marshal.cpp:719-744 | reading a value leaves what is saved under an index alone unless one of its bytes begins a value saved there |
| `WireSaves.LastSavedComesBack` | src/network/marshal/marshal.cpp:737-742 | a saved element is the value last saved under its index, whatever values come between |
| `WireContainers.RowReads` | src/network/marshal/marshal.cpp:797-811 | at any offset: a tuple or a list is its parts, in order, read one level deeper; the first part that fails fails the whole |
| `WireContainers.DictReads` | src/network/marshal/marshal.cpp:927-936 | at any offset: a dict is its entries, each value before its key |
| `WireContainers.ObjectReads` | src/network/marshal/marshal.cpp:938-945 | at any offset: an object is a string and its arguments, and any other type is refused |
| `WireContainers.ObjectExReads` | src/network/marshal/marshal.cpp:947-975 | at any offset: an extended object is its header, values up to a terminator, and entries, keys first, up to another |
| `WireContainers.ObjectExUnterminated` | src/network/marshal/marshal.cpp:950-953 | one whose values end before a terminator is refused as truncated |
| `WireContainers.WrappedReads` | src/network/marshal/marshal.cpp:983-987 | at any offset: a checksummed value keeps its four bytes unchecked; a substructure is one value |
| `WireContainers.DescriptorReads` | src/network/marshal/marshal.cpp:1089-1117 | the columns of a row are exactly what its descriptor describes, at most 1024, with the low byte of each type; else the error |
| `WireContainers.StreamReads` | src/network/marshal/marshal.cpp:690-716 | in bytes: header, number of saved values, where the values end, the one value, and the exact end where it is asked for, with every error |
| `WireContainers.FourBytesStayPositive` | src/network/marshal/marshal.cpp:845-850 | a concrete stream: four bytes with the topmost bit set decode to 3000000000 |
| `WireRows.DecompressionReadsRuns` | src/network/marshal/marshal.cpp:1220-1248 | decompression reads the runs nibble by nibble, low nibble first, until it has as many bytes as expected |
| `WireRows.FieldsRead` | src/network/marshal/marshal.cpp:1021-1075 | for any compressed data: where each column lies, widest first, where its null bit and its bool bit lie, and that it comes back at its own index |
| `WireRows.FieldsFail` | src/network/marshal/marshal.cpp:1207-1219 | decoding the fields fails only for want of bytes, as many as the columns and their bits take |
| `WireRows.TypeWidths` | src/network/marshal/marshal.cpp:19-47 | the widths of the column types |
| `WireRows.IntegerColumnReads` | src/network/marshal/marshal.cpp:1119-1152 | an integer column is its bytes, as they are for UI1, UI2 and UI4 and in two's complement for all others, UI8 among them |
| `WireRows.RealColumnReads` | src/network/marshal/marshal.cpp:1131-1144 | a double column is its eight bytes, a float column what its four bytes widen to |
| `WireRows.WidenedFloatIsExact` | src/network/marshal/marshal.cpp:1131-1137 | a finite float, normal or subnormal, widens to the double of the same sign and magnitude |
| `MarshalDecoder.Decoder.ReadSize` | src/network/marshal/marshal.cpp:193-199 | one byte, or four after the escape |
| `MarshalDecoder.Decoder.ReadSaveTableIndex` | src/network/marshal/marshal.cpp:1280-1288 | refused without a save table and behind the end of the values |
| `MarshalDecoder.Decoder.ReadValue` | src/network/marshal/marshal.cpp:719-743 | moves offset and save table as the specification says, flags included |
| `MarshalDecoder.Decoder.ReadOpcode` | src/network/marshal/marshal.cpp:745-835 | the dispatch over all opcodes |
| `MarshalDecoder.Decoder.ReadItems` | src/network/marshal/marshal.cpp:909-925 | the loop over the items |
| `MarshalDecoder.Decoder.ReadEntries` | src/network/marshal/marshal.cpp:927-936 | the loop over the entries of a dict |
| `MarshalDecoder.Decoder.ReadUntil` | src/network/marshal/marshal.cpp:950-960 | the loop up to the terminator |
| `MarshalDecoder.Decoder.ReadPairs` | src/network/marshal/marshal.cpp:961-973 | the loop over keys and values up to the terminator |
| `MarshalDecoder.Decoder.ReadRow` | src/network/marshal/marshal.cpp:1008-1087 | header, columns, fields and trailing values of a row |
| `MarshalDecoder.ColumnsOfHeader` | src/network/marshal/marshal.cpp:1089-1117 | the columns of a row descriptor, or the error of the first malformed part |
| `MarshalDecoder.UnpackFields` | src/network/marshal/marshal.cpp:1047-1075 | the loop over offsets and bits reads each field at its column |
| `MarshalDecoder.Decode` | src/network/marshal/marshal.cpp:1546-1553 | the outcome of decoding a stream, limits and exact end included |
| `MarshalRoundTrip.ValueReads` | src/network/marshal/marshal.cpp:719-975 | wherever an encoding lies in a stream, whatever surrounds it, the decoder reads the value back and stops right behind it |
| `MarshalRoundTrip.EncodingBegins` | src/network/marshal/marshal.cpp:950-973 | no encoding begins with the terminator, so terminator-delimited lists are unambiguous |
| `MarshalRoundTrip.HeaderRestored` | src/network/marshal/marshal.cpp:533-549 | the header of a row comes back as it was and yields its columns |
| `MarshalRoundTrip.RowReads` | src/network/marshal/marshal.cpp:1008-1087 | a row comes back with every field at its column: fixed-width fields, bools, nulls and trailing values |
| `MarshalRoundTrip.CanonKeeps` | src/network/marshal/marshal.cpp:317-320 | a value comes back unchanged exactly when it holds no negative zero and no packed integer out of range |
| `MarshalStreams.RoundTrip` | src/network/marshal/marshal.cpp:1541-1553 | for every value the encoder accepts, decoding gives it back, up to negative zero and the width of packed columns, exactly when the encoding is within the stream limit |
| `MarshalStreams.ExactRoundTrip` | src/network/marshal/marshal.cpp:1541-1553 | the same value comes back exactly when it is plain |
| `MarshalStreams.StreamReads` | src/network/marshal/marshal.cpp:693-716 | bytes behind an encoding do not change what is read |
| `MarshalStreams.SameBytesAgain` | src/network/marshal/marshal.cpp:218-290 | encoding what was decoded gives the same bytes |
| `MarshalStreams.SameEncoding` | src/network/marshal/marshal.cpp:218-290 | two values share an encoding exactly when they come back as the same value |
| `MarshalStreams.SelfDelimiting` | src/network/marshal/marshal.cpp:693-716 | no encoding is the beginning of another |

## Left out

- Image and buffer descriptions beyond the initial layout, queues, store operations (always to store), clear values (a number stands for each) and error texts of the render graph.
- `std::priority_queue` is a set from which the least element is taken, and `std::stable_sort` and `std::sort` are what their contracts promise.
- Vulkan calls: textures, command buffers, the registration of resources and what the device does with a barrier.
- The entries of the string table: the theorems hold for every table of 195 strings.
- Null pointers inside values, and sharing of saved values: a value is a tree.
- Save slots in the round trip: the encoder never writes them; what the decoder makes of them is in `WireForms` and `WireSaves`, where the condition that nothing is saved in between is on bytes, so it also excludes some harmless streams.
- Floating-point arithmetic: a real number is its 64-bit pattern, with a test for zero and the magnitudes of finite floats and doubles; widening a signalling not-a-number keeps its payload as it is.
- MarshalDecoding.DecodeRow: has no separate limit on the packed bytes, because that limit equals the one on any sized bytes and cannot fail.
- MarshalEncoder.AppendPackedScalar: has no conversion of a double to a float, because the integer test before it refuses every real number.
- The list and tuple loops of the codec share one method, as do the branches that differ in the opcode only.
- Threads that wait in the handoff and in the drain sleep and are woken explicitly; the memory model below the mutex is not modelled.
- SlotLeases.ReaderSeesPublished: writing through a span is one step that replaces the first bytes of a slot; torn concurrent writes are not modelled.
- Lease destructors and moves, the error handlers of the two handoff threads (which the proofs show are never entered), and the paths that terminate the process.
- Tasks of the executor finish with success or failure; submission failing inside the executor changes nothing and is not an event of its own.
- SupervisorProgress.DrainIsBounded: bounds the regions of a drain; that each task finishes is assumed of the executor.
- EcsWorld.World.MergeJournals: leaves open in which order journals with equal worker indexes are sorted, as the program does; the sorted list is a result.
- EcsWorld.World.CreateEntities: takes the identifiers the registry hands out as a parameter; thread ownership checks are left out.
- Framing.FrameDecoder.Push: the decoder does not undo a push it refuses, as in the code, so `NothingLost` covers refused pushes too.
- Sockets, reconnects, the handshake, session encryption, thread budgets, scratch allocation and measurement programs.
