# Verified model of the vhost-user device framework

This project models the vhost-user backend framework and its two devices, the GPU and the console, and
proves what its protocols and bookkeeping keep. Each module follows one part of the program:

- `EventToken`: packing of nested enums into 64-bit epoll tokens. A Rust type is a recursive datatype; the
  compile-time bit budget is a function that returns nothing where the compilation stops.
- `Fence`, `FenceProtocol`: the GPU fence rule (section 5.7.6.7 of VIRTIO v1.2). `Fence` has the shared
  `FenceState` with the in-place loop of the fence handler. `FenceProtocol` interleaves the handler with every
  step of the worker thread, so a signal may land between `create_fence` and `process_fence`.
- `VirtQueue`, `GpuWorker`: a queue whose driver adds chains between any two looks at the ring, and the worker's
  service loops over it, with and without EVENT_IDX (section 2.7.10 of VIRTIO v1.2).
- `Scanout`: the 16-entry scanout table, the bitmask of scanouts per resource, and what the frontend was told.
- `DirtyLog`: the dirty-page log, an array of bytes shared by the bitmaps of all regions, through slices, in
  sequence and under concurrent marks.
- `MemoryMap`: the handler's guest memory, held twice, and the translation of frontend addresses.
- `VringKick`: registration of a ring's kick descriptor in epoll instances, and what closing a replaced kick does.
- `SharedRings`: the rings of one handler, which share the epoll instances of their workers.
- `Activation`, `HandlerRuns`: when the handler activates its device, and runs in which that or a kick goes wrong.
- `Logging`: which regions of guest memory log their writes.
- `ConsoleEvents`, `ConsoleTx`, `ConsoleRx`: the console's byte pumps with partial writes and reads, retries and
  put-back.
- `GpuProtocol`, `GpuLayout`: decoding of GPU commands from their little-endian layout (section 5.7.6 of VIRTIO
  v1.2), and that layout in numbers: the place of every field, and the bytes each command needs.
- `Bits`, `Wrappers`: bitwise operations on natural numbers with their laws, optional values, sequences.

Objects that the program updates in place are classes. Their methods are proved against functions on values,
and the lemmas are about those functions. What the outside world decides is a parameter: the outcomes of calls
into the renderer and the frontend, the results of reads and writes, when a driver adds chains, which events
arrive, whether a lock is obtained. Every statement holds for all of them.

## Findings

Where the code does not keep an intended property, the exact condition under which it does is proved, together
with a concrete input or run that shows the failure.

- The fence handler gives descriptors back on the control queue only (device/virtio-gpu/src/virtio_gpu.rs:390).
  A fenced command from the cursor queue that has to wait is answered on the wrong queue: `HandlerReturnsHomeIff`,
  `RunReturnsHomeIff`; run: `CursorFenceGoesAstray`.
- A released descriptor is dropped if the queue is not ready (device/virtio-gpu/src/virtio_gpu.rs:342-345):
  `NothingDroppedIffLocked`; run: `LockFailureDropsAChain`.
- A signal below the recorded id moves the record back and strands chains: `SignalKeepsDecision`,
  `EveryRunDecidesRightlyIff`; run: `OutOfOrderLosesAChain`.
- Without EVENT_IDX the worker never signals the used ring (device/virtio-gpu/src/worker.rs:129-132), although
  the comment there says that a single call is enough: `GpuWorker.HandleQueueEvent`; run: `UnsignalledAnswer`.
- `set_scanout` with a missing resource on an occupied scanout, and `unref_resource` of a shown resource, leave
  table and bitmasks in disagreement; a refused or failed unref also makes the resource id unusable:
  `SetScanoutCoherence`, `UnrefCoherence`, `UnrefFreesIdIff`; runs: `MissingResourceBreaksCoherence`,
  `RefusedUnrefBreaksCoherence`. The comment at device/virtio-gpu/src/virtio_gpu.rs:579-581 promises the opposite.
- A region that is not page-aligned may log a page other than the one written, and a partial last page is not
  tracked: `MarkedPageIsGuestPage`, `EveryByteTrackedIff`; regions: `UnalignedWriteMarksAnotherPage`,
  `PartialPageIsNeverMarked`.
- `set_kick` lets go of the old kick before it updates the registrations (vhost-user/src/vring.rs:176-181). On a
  started ring that a worker listens to, a new kick therefore fails, and the message panics, unless something else
  in the process holds the old descriptor open: `SetKickKeepsRegistration`, `SetVringKickPanicsIff`,
  `RunsKeepRegistrationIff`; run: `SecondKickPanics`.
- A reset stops a ring but keeps its kick. If an epoll instance in the ring's list outlives the reset of the
  device, the next reset, or a request for the ring base, panics: `ResetPanicsIff`, `MessagePanicsIff`,
  `HarmlessIff`; run: `SecondResetPanics`. A device that ends its workers on reset, as the GPU device does
  (device/virtio-gpu/src/device.rs:217-222), is safe from this.
- A worker may register with a ring too early. Activation hands all rings to the device
  (vhost-user/src/handler.rs:162-167), whose worker registers their kicks whether or not they are started
  (device/virtio-gpu/src/worker.rs:64-65). A reset before activation leaves a ring stopped with its kick; once a
  worker watches that kick, the next call descriptor for the ring panics: `SetVringCallPanicsIff`,
  `RegisteredTooEarly`; run: `EarlyResetPanics`.
- These three are the only ways in which a ring message panics: without them no run of messages to any of the
  rings panics (`VringKick.HandlerNeverPanics`, `SharedRings.HandlerNeverPanics`), and a message that is one of them panics
  or lets some message right after it panic (`HarmlessIff`).
- Only an accepted memory table lets the start of a ring activate the device. A frontend that announces its memory
  region by region never gets it activated: `ActivatedIff`; run: `AddedMemoryDoesNotActivate`.
- The device is activated at most once, because the flag is never cleared. `reset_device` ends it for good,
  although a supported reset means that the device can be activated again (vhost-user/src/handler.rs:222,
  virtio/src/lib.rs:123-130): `ActivatesAtFirst`, `ActivatedOnce`; run: `ResetEndsTheDevice`.
- A log is installed only in the regions present when it arrives (vhost-user/src/handler.rs:744-757). A region made
  later, by a new table or one by one, never logs its writes until the next log: `LogsIff`, `AllLogIff`; run:
  `LateRegionIsNotLogged`.
- An empty descriptor ends a transmitted chain, and a chain that begins with one blocks the transmit queue for good:
  `SentWholeIff`, `ConsoleTx.ProcessTx`; runs: `TruncatedChain`, `BlockedQueue`.
- A write that takes part of a descriptor and then nothing makes an assertion of the transmit pump fail
  (device/virtio-console/src/process_tx.rs:73); a write error skips the descriptor, whose bytes already written are
  not counted: `PanicsIff`, `ChainAccount`; runs: `PartThenNothing`, `FailedDescIsSkipped`. Reading skips such a
  descriptor likewise: `CountedIsTaken`; run: `FailedReadIsSkipped`.
- A zero-length writable descriptor is taken for the end of the console's input, so the port is closed although
  more bytes would come: `EndIsTruthfulIff`, `AlwaysTruthfulIff`, `RunIsTruthfulIff`; run: `FalseEndOfInput`.
- When a chain is returned with the input taken to be at its end, the port is closed and used entries stay
  unsignalled; at any other wait they are all signalled: `ConsoleRx.ProcessRx`; run: `FalseEndOfInput`.

## Model

| member | source | states |
|---|---|---|
| EventToken.VariantBitsIsLeast | event_token_derive/src/lib.rs:36-43 | the tag width is the least k with 2^k at least the number of variants |
| EventToken.Maximum | event_token_derive/src/lib.rs:82-92 | the const function's loop returns the greatest of the numbers, and 0 if there are none |
| EventToken.InnerBits | event_token_derive/src/lib.rs:65-78 | the inner widths exist exactly if every variant keeps to the allowed maximum, and none is skipped |
| EventToken.BudgetBoundsWidths | event_token_derive/src/lib.rs:58-96 | an accepted enum's width is at most 64 and at least its tag plus any inner width |
| EventToken.AcceptedIff | event_token_derive/src/lib.rs:58-96 | an enum of 1 to 2^30 variants whose data types are accepted is accepted exactly if no data width and the tag width together exceed 64; it is then as wide as its tag and its widest data |
| EventToken.AcceptedParts | event_manager/src/lib.rs:46-107 | an integer is accepted up to 64 bits and keeps its width; an enum of more than 2^30 variants is refused |
| EventToken.PackedFields | event_token_derive/src/lib.rs:116-126 | tag and shifted data share no bit: the OR is a sum below 2^(tag + data), and mask and shift read both back |
| EventToken.PackingIsAddition | event_token_derive/src/lib.rs:99-136 | for every value of an accepted enum the left shift loses no bit and the OR adds |
| EventToken.RoundTrip | event_token_derive/src/lib.rs:99-171 | for every accepted type, however nested, and every value: token below 2^USED_BITS, USED_BITS at most 64, unpacking returns the value |
| EventToken.PlainTokens | event_token_derive/src/lib.rs:99-136 | the four events of the GPU worker are the tokens 0 to 3 in two bits, and back |
| EventToken.DataAboveTag | event_token_derive/src/lib.rs:99-171 | a byte n carried by the second of four variants is the token 1 + 4n in ten bits, and back |
| EventToken.DecodesLowBits | event_token_derive/src/lib.rs:139-171 | whatever any word decodes to has the type, and its own token is the lowest bits of that word |
| EventToken.DecodeFailsIff | event_token_derive/src/lib.rs:139-171 | decoding fails exactly on an N-bit integer that does not fit and on lowest bits that name no variant, at any level of nesting |
| EventToken.TokensAreDistinct | event_manager/src/lib.rs:25-38 | two values of an accepted type have the same token exactly if they are equal, down to the primitive and N-bit instances |
| EventToken.BudgetIsExact | event_token_derive/src/lib.rs:183-210 | for every type without empty enums the compile-time check, at all levels of nesting, refuses it exactly if two of its values would share a token; what it accepts, in numbers, is AcceptedIff |
| EventToken.Collision | event_token_derive/src/lib.rs:71-77 | every refused type has two different values with the same token |
| EventToken.TopBit | event_token_derive/src/lib.rs:80-94 | an accepted type without empty enums uses all of USED_BITS: two of its tokens differ in just the top bit, so the budget is never larger than needed |
| Fence.FenceState.ProcessFence | device/virtio-gpu/src/virtio_gpu.rs:818-840 | parks the chain exactly if its id is above the last completed one of its ring |
| Fence.SameRingIff | device/virtio-gpu/src/virtio_gpu.rs:322-328 | two fences share a ring exactly if bit 1 is clear in the flags of both, or set in both with equal context and equal ring index |
| Fence.FencedIff | device/virtio-gpu/src/worker.rs:232 | a chain is fenced exactly if it has a header in whose flags bit 0 is set |
| Fence.SplitInOrder | device/virtio-gpu/src/virtio_gpu.rs:331-359 | released and kept descriptors stay in the order in which they were parked |
| Fence.FenceState.HandleFence | device/virtio-gpu/src/virtio_gpu.rs:313-364 | the index-stepping removal loop splits the descriptors into matching ones, returned on the queue in order, and others, kept in order; one signal per used entry, none left unsignalled; the id is recorded |
| Fence.FenceState.ReturnDescriptor | device/virtio-gpu/src/virtio_gpu.rs:342-354 | a released descriptor makes one used entry and one signal, or nothing if the queue cannot be locked |
| FenceProtocol.StepConserves | device/virtio-gpu/src/worker.rs:141-153 | every step of worker or handler keeps popped = in flight + parked + answered + dropped, as multisets |
| FenceProtocol.SignalsAtAnyTime | device/virtio-gpu/src/virtio_gpu.rs:313-364 | the renderer may signal any fence in any state of the worker, with any outcomes of the lock attempts |
| FenceProtocol.WorkerGoesOn | device/virtio-gpu/src/worker.rs:160-250 | a worker that has not failed has a next step, which the room for a response and the fence flag decide |
| FenceProtocol.KeptAndMatched | device/virtio-gpu/src/virtio_gpu.rs:333-358 | the handler's split loses and duplicates no parked chain |
| FenceProtocol.StepIsNotEarly | device/virtio-gpu/src/virtio_gpu.rs:828-839 | every step keeps: parked ids are above the recorded completion, and answered fenced chains were signalled on their own ring at or above their id |
| FenceProtocol.SignalReachesItsRing | device/virtio-gpu/src/virtio_gpu.rs:322-358 | in every reachable state a signal leaves a chain parked exactly if flags, context and ring index name another ring or the id is below that of the chain |
| FenceProtocol.OtherRingStaysParked | device/virtio-gpu/src/virtio_gpu.rs:322-328 | a reachable state in which a signal on ring 1 of a context left a chain of ring 2 of that context parked |
| FenceProtocol.StepIsFaithful | device/virtio-gpu/src/worker.rs:226-248 | every step keeps: what is parked or returned for a chain has the length of the response prepared for it |
| FenceProtocol.EveryRunIsSafe | device/virtio-gpu/src/worker.rs:160-250 | the recorded completions and all three invariants above hold along every interleaving, for any signalled ids and any lock failures |
| FenceProtocol.ReachableIsSafe | device/virtio-gpu/src/virtio_gpu.rs:313-364 | the same for every state reachable from the start |
| FenceProtocol.ExactlyOnePlace | device/virtio-gpu/src/worker.rs:190-249 | a chain popped once is in exactly one of in flight, parked, answered, dropped |
| FenceProtocol.NothingDroppedIffLocked | device/virtio-gpu/src/virtio_gpu.rs:342-345 | a signal drops no chain exactly if the queue could be locked for every released one |
| FenceProtocol.LockFailureDropsAChain | device/virtio-gpu/src/virtio_gpu.rs:342-345 | a reachable state in which a chain whose fence is done is neither parked nor answered but dropped |
| FenceProtocol.HandlerStep | device/virtio-gpu/src/virtio_gpu.rs:313-364 | the handler run on the shared objects does what the protocol's signal step does |
| FenceProtocol.DecideStep | device/virtio-gpu/src/worker.rs:232-241 | `process_fence` on the shared object does what the protocol's decision step does |
| FenceProtocol.SignalKeepsDecision | device/virtio-gpu/src/virtio_gpu.rs:360-363 | after a signal the recorded id still separates open from done fences exactly if the signal did not go back behind it |
| FenceProtocol.OrderedDecidesRightly | device/virtio-gpu/src/virtio_gpu.rs:825-828 | with ordered signals `process_fence` parks exactly the chains whose fence is open |
| FenceProtocol.DecidesRightlyIffOrdered | device/virtio-gpu/src/virtio_gpu.rs:360-363 | from any state in order, `process_fence` would decide rightly in every state of a run exactly if its signals are in order |
| FenceProtocol.EveryRunDecidesRightlyIff | device/virtio-gpu/src/virtio_gpu.rs:360-363 | the same for runs from the start |
| FenceProtocol.LatestIsGreatest | device/virtio-gpu/src/virtio_gpu.rs:360-363 | with ordered signals an id is done exactly if it is at most the last one recorded for its ring |
| FenceProtocol.NoLostFence | device/virtio-gpu/src/virtio_gpu.rs:825-840 | with ordered signals no reachable state has a chain parked on a done fence, including signals that land before `process_fence` |
| FenceProtocol.EveryChainIsAnswered | device/virtio-gpu/src/worker.rs:203-248 | when the worker rests and all fences are signalled in order and no lock failed, each popped chain has been answered exactly once |
| FenceProtocol.OutOfOrderLosesAChain | device/virtio-gpu/src/virtio_gpu.rs:360-363 | a reachable state in which signals out of order left a chain parked on a done fence |
| FenceProtocol.HandlerReturnsHomeIff | device/virtio-gpu/src/virtio_gpu.rs:347-349 | the handler's used entries are on the right queue exactly if every descriptor it returns came from the control queue |
| FenceProtocol.RunReturnsHomeIff | device/virtio-gpu/src/device.rs:194-200 | over any run every used entry is on its chain's own queue exactly if the handler never gave back a parked chain of the cursor queue |
| FenceProtocol.EveryReplyReturnsHome | device/virtio-gpu/src/device.rs:194-200 | if no command from the cursor queue is fenced, every used entry of every reachable state is on the queue its chain came from |
| FenceProtocol.CursorFenceGoesAstray | device/virtio-gpu/src/virtio_gpu.rs:384-394 | a reachable state in which a cursor-queue command was answered on the control queue |
| GpuWorker.ProcessQueueChain | device/virtio-gpu/src/worker.rs:160-250 | when a chain is answered, with which length, when it is parked and with what, and when the worker fails |
| GpuWorker.FailsIff | device/virtio-gpu/src/worker.rs:160-250 | without room for a response a chain fails exactly if the used ring refuses it; with room, if there is no response, or it is refused and does not wait for an open fence |
| GpuWorker.ProcessQueue | device/virtio-gpu/src/worker.rs:138-158 | pops until the ring is empty, failing exactly if a chain fails; exactly one used entry per chain not parked, in pop order; the flag says whether there was one; on failure the last popped chain is the one that fails and those before it have their entries |
| GpuWorker.DrainWithEventIdx | device/virtio-gpu/src/worker.rs:114-128 | unless a chain fails, every chain visible at the last enable_notification was popped and every used entry was followed by a signal, with a signal only if there was one; no pop happens while the driver is asked to kick; on failure exactly the chains before the failing one are accounted for |
| GpuWorker.HandleQueueEvent | device/virtio-gpu/src/worker.rs:101-135 | a kick of a disabled or unlockable queue leaves queue and fence state as they are; after any other all used entries are signalled exactly if EVENT_IDX is in use or none was made, without EVENT_IDX no signal is sent and the driver's notifications stay as they were; a failing kick accounts for exactly the chains before the failing one |
| GpuWorker.AnswersJoin | device/virtio-gpu/src/worker.rs:119-128 | the used entries of consecutive batches are those of the whole stretch of chains |
| GpuWorker.UnsignalledAnswer | device/virtio-gpu/src/worker.rs:129-132 | a kick without EVENT_IDX that answers one chain and leaves its used entry unsignalled |
| GpuWorker.ParkedThenReleased | device/virtio-gpu/src/virtio_gpu.rs:331-359 | a chain that the worker parks is later returned by the handler on the same used ring, behind those released before it, with its response's length, and signalled |
| GpuWorker.TurnFollowsProtocol | device/virtio-gpu/src/worker.rs:160-250 | serving one chain, with any handler signals before and after the fence decision, is a run of the interleaved protocol in which the worker makes the same used entry |
| GpuWorker.EveryChainFits | device/virtio-gpu/src/worker.rs:160-250 | every chain, with any response and any signals before its fence decision, is such a turn |
| GpuWorker.ServiceFollowsProtocol | device/virtio-gpu/src/worker.rs:138-158 | a whole service of the queue in which no chain fails, with handler signals between its steps, is a run of the protocol with exactly the worker's used entries that `ProcessQueue` promises |
| GpuWorker.FailureFollowsProtocol | device/virtio-gpu/src/worker.rs:160-250 | a turn whose chain fails, at whichever point, is a run of the protocol that ends with the worker's failure and makes no used entry |
| GpuWorker.FailedServiceFollowsProtocol | device/virtio-gpu/src/worker.rs:138-158 | a service ended by a failing chain is a run of the protocol with the used entries of the chains before it; from a reachable state the invariants hold at its end |
| GpuWorker.ServiceIsSafe | device/virtio-gpu/src/worker.rs:138-158 | hence no early reply, conservation and faithful lengths after any service that starts in a reachable state |
| VirtQueue.Queue.PopDescriptorChain | device/virtio-gpu/src/worker.rs:141 | returns the next chain of the driver's stream, after whatever the driver just added |
| VirtQueue.Queue.EnableNotification | device/virtio-gpu/src/worker.rs:125 | asks for kicks and says whether chains are left that were not popped |
| Scanout.DisableOnlyClears | device/virtio-gpu/src/virtio_gpu.rs:239-241 | in a coherent state the XOR clears a bit that is set, and no other |
| Scanout.SetScanoutCoherence | device/virtio-gpu/src/virtio_gpu.rs:485-549 | `set_scanout` keeps table and bitmasks mutual inverses exactly if it names a live resource, 0, or a free or invalid scanout |
| Scanout.SetScanoutOutcome | device/virtio-gpu/src/virtio_gpu.rs:485-549 | when it succeeds, and that it then changes one table entry and no resource but for its bits |
| Scanout.SetScanoutErrors | device/virtio-gpu/src/virtio_gpu.rs:485-549 | which error it answers: invalid scanout from 16 on, unspecified if the frontend was needed and refused, invalid resource otherwise |
| Scanout.SetScanoutSends | device/virtio-gpu/src/virtio_gpu.rs:485-549 | what reaches the frontend: an empty announcement when a scanout is switched off, one with the requested size when it was free, even if the resource is missing, and nothing when it showed something |
| Scanout.SetScanoutAgreement | device/virtio-gpu/src/virtio_gpu.rs:507-548 | it keeps table, bitmasks and the frontend's last announcements together exactly if the call is disciplined |
| Scanout.CreateCoherence | device/virtio-gpu/src/virtio_gpu.rs:551-573 | creating a resource keeps coherence; the renderer's refusal of duplicate ids is what protects shown resources |
| Scanout.CreateOutcome | device/virtio-gpu/src/virtio_gpu.rs:551-573 | creation succeeds exactly if the renderer agrees and does not hold the id; it adds the resource with its size, shown nowhere, and changes nothing otherwise |
| Scanout.UnrefCoherence | device/virtio-gpu/src/virtio_gpu.rs:575-593 | unref keeps coherence exactly if no scanout shows the resource, which is exactly when it is not refused |
| Scanout.UnrefOutcome | device/virtio-gpu/src/virtio_gpu.rs:575-593 | success exactly if the resource exists, nothing shows it and the renderer agrees, and which error otherwise; the device forgets this resource alone whatever the answer, the renderer only on success |
| Scanout.UnrefFreesIdIff | device/virtio-gpu/src/virtio_gpu.rs:575-593 | after unref the resource can be neither flushed nor shown; its id can be created again exactly if nothing showed it and the renderer let it go |
| Scanout.EnabledAreShowing | device/virtio-gpu/src/virtio_gpu.rs:247-249 | the enabled bits of a resource are, ascending, the scanouts whose entry holds it |
| Scanout.FlushReachesExactlyTheShowing | device/virtio-gpu/src/virtio_gpu.rs:596-647 | a flush sends one whole-resource update to each scanout showing the resource, ascending, and to no other |
| Scanout.FlushOutcome | device/virtio-gpu/src/virtio_gpu.rs:596-647 | for any failing reads and sends: one whole-resource update, ascending, for each showing scanout that can be read and comes before the first failing send; success exactly if there is none such; nothing is sent of a resource too large |
| Scanout.SizeFitsIff | device/virtio-gpu/src/virtio_gpu.rs:264-274 | a resource can be read back exactly if its four bytes per pixel are fewer than 2^64 |
| Scanout.FlushChangesNoBooks | device/virtio-gpu/src/virtio_gpu.rs:596-647 | a flush, failed or not, changes neither coherence nor agreement with the frontend |
| Scanout.StepKeepsOrder | device/virtio-gpu/src/virtio_gpu.rs:485-647 | any command keeps coherence and agreement exactly if it is disciplined |
| Scanout.RunsStayInOrder | device/virtio-gpu/src/virtio_gpu.rs:485-647 | a whole run stays coherent and in agreement exactly if each of its commands is disciplined |
| Scanout.EveryDisciplinedRun | device/virtio-gpu/src/virtio_gpu.rs:293-299 | the same for runs from the initial device |
| Scanout.CreateSetFlush | device/virtio-gpu/src/virtio_gpu.rs:485-647 | create, show and flush reach the frontend as one announcement of the requested size and one update of the resource's size |
| Scanout.MissingResourceBreaksCoherence | device/virtio-gpu/src/virtio_gpu.rs:498-544 | a two-step run into a state with a cleared bit under a kept entry, and on to a set bit without one |
| Scanout.RefusedUnrefBreaksCoherence | device/virtio-gpu/src/virtio_gpu.rs:576-588 | a two-step run into a state whose table holds a forgotten resource |
| Scanout.RutabagaVirtioGpu.SetScanoutCommand | device/virtio-gpu/src/virtio_gpu.rs:485-549 | the in-place command has the effect and response that the coherence lemmas are about |
| Scanout.RutabagaVirtioGpu.CreateResourceCommand | device/virtio-gpu/src/virtio_gpu.rs:551-573 | likewise for resource creation |
| Scanout.RutabagaVirtioGpu.UnrefResourceCommand | device/virtio-gpu/src/virtio_gpu.rs:575-593 | likewise for unref, with the entry removed before the check |
| Scanout.RutabagaVirtioGpu.FlushResourceCommand | device/virtio-gpu/src/virtio_gpu.rs:596-647 | likewise for flush |
| Scanout.RutabagaVirtioGpu.FlushEnabled | device/virtio-gpu/src/virtio_gpu.rs:606-644 | the loop over enabled scanouts sends the updates up to the first failing one, skipping failed reads |
| DirtyLog.FetchOrSetsOnePage | vhost-user/src/bitmap.rs:187-189 | one OR sets its page and no other; page 8b + k is bit k of byte b (PageIsBit) |
| DirtyLog.PageIsBit | vhost-user/src/bitmap.rs:187-188 | page 8b + k is dirty exactly if bit k, from the lowest, of byte b is set |
| DirtyLog.OrPageSetsOneBit | vhost-user/src/bitmap.rs:187-188 | the OR sets bit page % 8 of the byte and no other |
| DirtyLog.FirstAndLastBit | vhost-user/src/bitmap.rs:187-188 | page 0 is 0x01 of byte 0, page 7 is 0x80, page 8 is 0x01 of byte 1 |
| DirtyLog.NewBitmapIff | vhost-user/src/bitmap.rs:140-168 | a bitmap is made exactly if the region is not empty and each of its bytes is a 64-bit address whose page of 0x1000 bytes has a bit in the log; a partial last page is not counted |
| DirtyLog.MarksIff | vhost-user/src/bitmap.rs:175-191 | which pages a range marks, in numbers: those of 0x1000 bytes from its first to its last byte, up to the last 64-bit offset, inside the bitmap |
| DirtyLog.AcceptedBitmapFits | vhost-user/src/bitmap.rs:140-168 | every page of an accepted bitmap has its byte inside the log |
| DirtyLog.TopPageIsOutside | vhost-user/src/bitmap.rs:140-168 | the page a saturated offset falls on is in no accepted bitmap |
| DirtyLog.DirtyAtReadsItsPage | vhost-user/src/bitmap.rs:196-206 | the masked byte tells whether the page of the offset is in the set of pages |
| DirtyLog.DirtyAtReadsItsBit | vhost-user/src/bitmap.rs:196-206 | the bit that is read is bit page % 8 of byte page / 8, for the page offset / 0x1000 of the region |
| DirtyLog.MarkDirtyPages | vhost-user/src/bitmap.rs:175-191 | the page set afterwards is the old one and exactly the pages of the marked range inside the bitmap; as bytes, bit k of byte b is set exactly if it was or page 8b + k is marked |
| DirtyLog.BitmapMmapRegion.MarkDirty | vhost-user/src/bitmap.rs:74-81 | marks through a slice at the checked sum of base and offset, or nothing if it overflows |
| DirtyLog.BitmapCell.Replace | vhost-user/src/bitmap.rs:101-104 | installs the new log and bitmap for all slices of the region |
| DirtyLog.SliceChain | vhost-user/src/bitmap.rs:90-95 | any chain of slices shares one bitmap and starts at the saturated sum of its offsets |
| DirtyLog.MarkingIsExact | vhost-user/src/bitmap.rs:74-81 | checked and saturating addition mark the pages that unbounded addition would, in every overflow case |
| DirtyLog.ReadingIsExact | vhost-user/src/bitmap.rs:83-88 | saturating addition answers what unbounded addition would |
| DirtyLog.MarkAll | vhost-user/src/bitmap.rs:73-96 | after any sequence of marks through any slices, a page is dirty exactly if it was or lies in a marked range, as read through every slice |
| DirtyLog.RegionsOwnDifferentPages | vhost-user/src/bitmap.rs:160-167 | regions that do not overlap own different pages, aligned or not |
| DirtyLog.MarksStayInTheirRegion | vhost-user/src/bitmap.rs:175-206 | marking one region changes no answer about another, even in a shared byte |
| DirtyLog.MarkedPageIsGuestPage | vhost-user/src/bitmap.rs:160-188 | the marked page is the written guest page exactly if the in-page offsets of region and write do not carry |
| DirtyLog.EveryByteTrackedIff | vhost-user/src/bitmap.rs:160-186 | every byte of a region is tracked exactly if its length is a multiple of the page size |
| DirtyLog.UnalignedWriteMarksAnotherPage | vhost-user/src/bitmap.rs:160-188 | a region at 0x800 in which a write to guest page 1 marks page 0 and no other |
| DirtyLog.PartialPageIsNeverMarked | vhost-user/src/bitmap.rs:160-186 | a region of one and a half pages in which writing the second half-page marks nothing |
| DirtyLog.OrNextMovesOnePage | vhost-user/src/bitmap.rs:182-190 | one OR of any thread moves its page from pending to set and clears nothing |
| DirtyLog.ConcurrentMarks | vhost-user/src/bitmap.rs:182-190 | under every interleaving no page is cleared, and at the end the log holds its old pages and all marked ones |
| DirtyLog.CallsPending | vhost-user/src/bitmap.rs:175-191 | what concurrent calls have pending at the start is exactly what each of them marks, all inside the log |
| DirtyLog.RegionsAreIsolated | vhost-user/src/bitmap.rs:175-206 | however concurrent calls on any of the disjoint regions interleave, a region's page is dirty in the end exactly if it was before or one of the calls on that region marks it |
| MemoryMap.VhostUserHandler.SetMemTableMessage | vhost-user/src/handler.rs:265-314 | builds both tables in step and installs them, or leaves everything unchanged |
| MemoryMap.VhostUserHandler.AddMemRegionMessage | vhost-user/src/handler.rs:571-613 | extends both tables, or neither |
| MemoryMap.VhostUserHandler.RemoveMemRegionMessage | vhost-user/src/handler.rs:615-636 | shrinks both tables, or neither |
| MemoryMap.VhostUserHandler.Translate | vhost-user/src/handler.rs:134-142 | the search loop returns the first mapping's translation |
| MemoryMap.SetMemTableAcceptedIff | vhost-user/src/handler.rs:276-298 | a table is accepted exactly if some region has a file and those that do can be mapped, are sorted and do not overlap |
| MemoryMap.NewRegionIff | vhost-user/src/handler.rs:276-290 | a region can be made exactly if its file can be mapped, it is not empty and its end is a 64-bit address |
| MemoryMap.AddMemRegionAcceptedIff | vhost-user/src/handler.rs:576-600 | a region is accepted exactly if it can be mapped and overlaps no present one |
| MemoryMap.RemoveMemRegionAcceptedIff | vhost-user/src/handler.rs:616-622 | a removal succeeds exactly for a region of the memory |
| MemoryMap.SetMemTableAgrees | vhost-user/src/handler.rs:276-311 | the mapping list and the guest regions hold the same (base, size) pairs afterwards |
| MemoryMap.AddMemRegionAgrees | vhost-user/src/handler.rs:586-610 | adding a region keeps that agreement |
| MemoryMap.RemoveMemRegionAgrees | vhost-user/src/handler.rs:616-633 | dropping all mappings of a base drops the one region with that base |
| MemoryMap.OneRegionComesOrGoes | vhost-user/src/handler.rs:571-636 | adding adds the one region, removing takes the one region, and all others stay |
| MemoryMap.HandleAgrees | vhost-user/src/handler.rs:265-636 | every message keeps the agreement, and a refused one changes nothing |
| MemoryMap.TablesAlwaysAgree | vhost-user/src/handler.rs:265-636 | the tables agree after every sequence of messages, refused ones included |
| MemoryMap.TranslatesIff | vhost-user/src/handler.rs:134-142 | an address translates exactly if some mapping whose end does not wrap holds it |
| MemoryMap.TranslationLands | vhost-user/src/handler.rs:134-142 | a translated address lies in a guest region |
| MemoryMap.TranslationIsInjective | vhost-user/src/handler.rs:134-142 | different addresses have different translations, even if the frontend's ranges overlap |
| MemoryMap.GuestAddressIsReachedIff | vhost-user/src/handler.rs:134-142 | a guest address is some address's translation exactly if its mapping does not wrap and no earlier non-wrapping mapping covers the one candidate |
| MemoryMap.EveryGuestAddressIsReached | vhost-user/src/handler.rs:134-142 | if the frontend's ranges neither wrap nor overlap, every guest address is some address's translation |
| MemoryMap.TableEntries | vhost-user/src/handler.rs:276-292 | an accepted table has one mapping and one region per announced region with a file, in order |
| MemoryMap.AnnouncedRegionTranslates | vhost-user/src/handler.rs:276-311 | after `set_mem_table` the first announced range that holds an address decides, byte by byte |
| MemoryMap.AddedRegionTranslates | vhost-user/src/handler.rs:586-610 | after `add_mem_region` the new range translates unless an earlier mapping holds the address |
| MemoryMap.RemovedRegionIsGone | vhost-user/src/handler.rs:615-636 | after `remove_mem_region` nothing translates into the region, and every other translation stays |
| VringKick.StopKeepsRegistration | vhost-user/src/vring.rs:119-128 | stopping keeps the invariant, and fails exactly on a stopped ring with a kick and a live instance |
| VringKick.UpdateEpollsSucceedsIff | vhost-user/src/vring.rs:149-172 | whatever is registered, the loop succeeds exactly if every live instance in the list can be updated: the old kick is open and watched there, the new one not yet |
| VringKick.StopSucceedsIff | vhost-user/src/vring.rs:119-128 | whatever is registered, stopping fails exactly if a live instance in the list does not watch the kick |
| VringKick.StartSucceedsIff | vhost-user/src/vring.rs:131-137 | whatever is registered, starting fails exactly if a live instance in the list watches the kick already |
| VringKick.SetKickSucceedsIff | vhost-user/src/vring.rs:174-184 | whatever is registered, replacing the kick of a started ring fails exactly if the old one is not held open and an instance is alive, or a live instance does not watch it |
| VringKick.StartKeepsRegistration | vhost-user/src/vring.rs:131-137 | starting keeps the invariant, and fails exactly on a started ring with a kick and a live instance |
| VringKick.SetKickKeepsRegistration | vhost-user/src/vring.rs:174-184 | replacing the kick of a started ring with a live instance fails exactly if nothing else holds the old one open; a success moves every live instance, a failure loses the invariant unless the old kick is closed everywhere and there is no new one |
| VringKick.RegisterKeepsRegistration | vhost-user/src/vring.rs:220-226 | registering an instance keeps the invariant exactly if a present kick implies a started ring |
| VringKick.RegisterEffect | vhost-user/src/vring.rs:196-226 | whether or not there is a kick, the list is then the live instances listed before, in order, followed by the new one, which watches a present kick; it fails without effect exactly if the kick is watched there already |
| VringKick.UnregisterEffect | vhost-user/src/vring.rs:205-234 | the list keeps all other live instances in order; a present kick is no longer watched, and it fails exactly if it was not |
| VringKick.OperationsKeepTheList | vhost-user/src/vring.rs:119-184 | start, stop and a new kick keep the list of instances; a failed stop leaves the ring ready |
| VringKick.UnregisterKeepsRegistration | vhost-user/src/vring.rs:228-234 | unregistering leaves the instance watching nothing of the ring, and fails exactly on a stopped ring with a kick |
| VringKick.UpdateEpollsEffect | vhost-user/src/vring.rs:149-172 | if every live instance can be updated, each is, and nothing else changes |
| VringKick.UpdateEpollsRefused | vhost-user/src/vring.rs:149-172 | if none can be updated and there is one, the loop fails without an effect, as it does on a closed old kick |
| VringKick.PerformKeepsRegistration | vhost-user/src/vring.rs:119-235 | an operation, failed or not, keeps the invariant exactly if it is disciplined: no watched kick is replaced after it was closed, and an instance is added only while a present kick means a started ring |
| VringKick.RunsKeepRegistrationIff | vhost-user/src/vring.rs:119-235 | the invariant holds throughout a run exactly if each of its operations is disciplined |
| VringKick.EveryRunKeepsRegistration | vhost-user/src/vring.rs:119-235 | after every disciplined run from a new ring, each live listed instance watches exactly the current kick of a started ring, under its own token |
| VringKick.ListedIff | vhost-user/src/vring.rs:119-235 | after any run an instance is alive and listed under a token exactly if it was registered so, or listed at the start, and neither unregistered nor dropped since |
| VringKick.RegisteredIsWoken | vhost-user/src/vring.rs:119-235 | after every disciplined run each instance still registered watches exactly the present kick of the started ring, under its token, also if the kick came after the registration |
| VringKick.SetVringKickPanicsIff | vhost-user/src/handler.rs:422-438 | the message panics exactly if it replaces a kick that a live instance watches and nothing else holds open; otherwise a new kick starts a stopped ring |
| VringKick.SetVringCallStarts | vhost-user/src/handler.rs:440-451 | as long as the registrations are right, a new call descriptor starts a stopped ring that kept its kick, and does not panic |
| VringKick.SetVringCallPanicsIff | vhost-user/src/handler.rs:440-451 | whatever is registered, the message panics exactly on a stopped ring with a kick that a live listed instance already watches |
| VringKick.RegisteredTooEarly | vhost-user/src/handler.rs:149-171 | after a worker registered with a ring, a new call descriptor panics exactly if the ring was stopped and had a kick; the worker then watches that kick |
| VringKick.GetVringBasePanicsIff | vhost-user/src/handler.rs:400-420 | while the registrations are right, the message panics exactly on a stopped ring with a kick and a live listed instance; otherwise the ring ends stopped and without a kick |
| VringKick.ResetPanicsIff | vhost-user/src/handler.rs:211-224 | while the registrations are right, a reset panics exactly on a stopped ring with a kick and a live listed instance; it keeps the kick, so it leaves a ring in that state exactly if the ring has a kick and a listed instance outlives the reset of the device |
| VringKick.MessagePanicsIff | vhost-user/src/handler.rs:149-451 | whatever is registered, a message panics exactly if it is a request for the ring base or a reset and a live listed instance misses the kick, a new kick for a started ring whose old kick is not held open while an instance is alive, or is missed by one, or a call descriptor for a stopped ring whose kick is watched already |
| VringKick.MessageKeepsRegistrationIff | vhost-user/src/handler.rs:149-451 | of the messages that do not panic only a worker's registration with a stopped ring that has a kick spoils the registrations, and only a reset that a listed instance outlives leaves a stopped ring whose next stop fails |
| VringKick.HandlerNeverPanics | vhost-user/src/handler.rs:149-451 | no run of messages panics in which watched kicks are replaced only while held open elsewhere, every device reset ends the workers of rings with a kick, and workers register with a ring that has a kick only while it is started |
| VringKick.HarmlessIff | vhost-user/src/handler.rs:149-451 | that condition on a message is exact: from right registrations it holds if and only if the message does not panic and no request for the ring base, reset or call descriptor right after it would |
| VringKick.WorkerIsListedIff | vhost-user/src/handler.rs:149-451 | after any messages an instance is alive and listed exactly if its worker registered, or was listed at the start, and no reset or drop ended it since |
| VringKick.WorkersAreWoken | vhost-user/src/handler.rs:149-451 | no kick is lost: after harmless messages every worker that registered and has not ended watches exactly the kick of the started ring, under its own token |
| VringKick.LateKickIsWatched | vhost-user/src/handler.rs:149-171 | a worker that registers before the ring has a kick is woken by the kick that starts it |
| VringKick.SecondResetPanics | vhost-user/src/handler.rs:211-217 | a run from a new ring in which an instance outlives a reset and the next reset, or request for the ring base, panics |
| VringKick.SecondKickPanics | vhost-user/src/vring.rs:174-184 | a run from a new ring without any reset in which the second kick panics and leaves the instance watching the old one or nothing |
| VringKick.Vring.UpdateEpollsLoop | vhost-user/src/vring.rs:149-172 | the loop over registrations, up to the first failing call, has the effect the lemmas are about |
| VringKick.Vring.StopRing | vhost-user/src/vring.rs:119-128 | unregisters, then marks the ring as not ready, unless unregistering fails |
| VringKick.Vring.StartRing | vhost-user/src/vring.rs:131-137 | marks the ring as ready, then registers |
| VringKick.Vring.SetKickFd | vhost-user/src/vring.rs:174-184 | swaps the kick, lets go of the old one and then updates the registrations of a started ring |
| VringKick.Vring.Register | vhost-user/src/vring.rs:196-226 | registers a present kick, prunes dead instances and lists the new one, kick or not |
| VringKick.Vring.Unregister | vhost-user/src/vring.rs:205-234 | takes the instance off the list, then unregisters the present kick |
| SharedRings.PerformKeepsAllIff | vhost-user/src/vring.rs:119-235 | rings that share epoll instances: an operation on one of them keeps the registrations of all exactly if it is disciplined on its own ring |
| SharedRings.RunsKeepAllIff | vhost-user/src/vring.rs:119-235 | the registrations of all rings are right throughout a run, in which the rings take turns, exactly if each operation is disciplined on its ring |
| SharedRings.ResetIsSafe | vhost-user/src/handler.rs:211-224 | a reset, which stops one ring after the other, does not panic and leaves all rings right if it ends the workers of rings with a kick |
| SharedRings.HandlePanicsIff | vhost-user/src/handler.rs:211-224 | whatever is registered, a reset panics exactly if some ring's kick is missed by a live instance in its list, and any other message exactly if it does on its own ring |
| SharedRings.HandlerNeverPanics | vhost-user/src/handler.rs:149-451 | no run of messages to any of the rings panics if each is harmless in the sense above, a reset for all of them |
| Activation.StartsIff | vhost-user/src/handler.rs:149-160 | a message starts a ring exactly if the ring is stopped and the message brings a kick, or a call descriptor to a ring that has one |
| Activation.ActivatedIff | vhost-user/src/handler.rs:162-171 | over any run of messages the device has been activated, by the end, exactly if a ring was started after a memory table had been accepted |
| Activation.ActivatesAtFirst | vhost-user/src/handler.rs:162-171 | a message activates the device exactly if it is the first to start a ring after a memory table was accepted |
| Activation.ActivatedOnce | vhost-user/src/handler.rs:162-171 | no run activates the device twice, whatever resets it contains |
| HandlerRuns.AddedMemoryDoesNotActivate | vhost-user/src/handler.rs:571-613 | a run with memory, a started ring and a late table in which the device is not activated |
| HandlerRuns.ResetEndsTheDevice | vhost-user/src/handler.rs:211-224 | a run with memory and a ring that is started again after a reset, whose worker is gone and whose device no further message activates |
| HandlerRuns.EarlyResetPanics | vhost-user/src/handler.rs:149-171 | a run from a new handler in which a ring stopped before activation is registered with and the next call descriptor panics; no kick is replaced and no instance outlives a reset |
| Logging.LogsIff | vhost-user/src/handler.rs:733-758 | over any run of messages, a present region logs its writes exactly if a log was accepted after the region was last made, by a table or by being added |
| Logging.AcceptsLogIff | vhost-user/src/handler.rs:733-752 | a log is accepted exactly if it can be mapped and has a bit for every byte of guest memory |
| Logging.AllLogIff | vhost-user/src/handler.rs:733-758 | hence all of guest memory is logged exactly if for each present region some log was accepted since it was last made |
| Logging.LateRegionIsNotLogged | vhost-user/src/handler.rs:571-613 | a run in which a region added after the log, which would cover it, does not log its writes |
| ConsoleTx.WriteWhenReady | device/virtio-console/src/process_tx.rs:109-122 | for any outcomes the retry loop ends with the first write that did not block, and emits what it reports |
| ConsoleTx.WriteDescToOutput | device/virtio-console/src/process_tx.rs:97-124 | the descriptor's writes are those the lemmas speak about; without faults it is written whole across partial writes |
| ConsoleTx.DescIsWritten | device/virtio-console/src/process_tx.rs:97-124 | for any outcomes a descriptor that is not empty is emitted up to the first error or the first write that takes nothing, and reports the error or the bytes taken |
| ConsoleTx.ProcessTxChain | device/virtio-console/src/process_tx.rs:64-81 | for any outcomes a chain is sent descriptor by descriptor as in the lemmas; without faults its readable bytes are emitted in order up to its first empty descriptor, with the exact count, and no assertion fails |
| ConsoleTx.ChainAccount | device/virtio-console/src/process_tx.rs:64-81 | without hard errors a chain is emitted from its start without gaps, and exactly the emitted bytes are counted unless the assertion fails |
| ConsoleTx.PanicsIff | device/virtio-console/src/process_tx.rs:73 | the assertion fails exactly if a descriptor that is reached is taken in part before a write takes nothing |
| ConsoleTx.PartThenNothing | device/virtio-console/src/process_tx.rs:73 | a write that takes one of two bytes and then nothing makes the assertion fail |
| ConsoleTx.FailedDescIsSkipped | device/virtio-console/src/process_tx.rs:77-79 | after an error in a descriptor its emitted byte is not counted, the rest of it is lost, and the next descriptor is sent |
| ConsoleTx.DrainTx | device/virtio-console/src/process_tx.rs:61-93 | chains are returned in pop order, one used entry each, until none is left, one has nothing to send, which is put back, or the assertion fails; without faults each is emitted and reported with its length |
| ConsoleTx.ProcessTx | device/virtio-console/src/process_tx.rs:37-95 | over all events and whatever the output does each passed chain is returned once, in order; events that find the queue disabled or unlockable, and those behind a stop, change nothing; without faults the output is the concatenation in pop order of the returned chains' bytes, each returned with its length; no chain with nothing to send is ever passed; at a wait all used entries are signalled and the ring is drained exactly if it has no such chain |
| ConsoleTx.SentWholeIff | device/virtio-console/src/process_tx.rs:65-70 | a chain is sent whole exactly if nothing follows its first empty descriptor |
| ConsoleTx.DrainedToTheEndIff | device/virtio-console/src/process_tx.rs:83-86 | a pump that has sent what it could has reached the end of the ring exactly if every chain has something to send |
| ConsoleTx.BlockedQueue | device/virtio-console/src/process_tx.rs:83-86 | a ring whose first chain begins with an empty descriptor: nothing is sent or returned, whatever events arrive, not even the chain behind it |
| ConsoleTx.TruncatedChain | device/virtio-console/src/process_tx.rs:65-70 | a chain with an empty descriptor in the middle is returned as complete without its last byte |
| ConsoleTx.ChainsJoin | device/virtio-console/src/process_tx.rs:61-93 | output and used entries of consecutive stretches of chains are those of the whole |
| ConsoleTx.ReportedLength | device/virtio-console/src/process_tx.rs:88-92 | every returned chain is reported with its head and, below 2^32 bytes, with its length |
| ConsoleRx.ReadToDesc | device/virtio-console/src/process_rx.rs:110-134 | the reads for one descriptor are those the lemmas speak about, and the flag is raised by the end of the input or a read into an empty buffer, and by nothing else |
| ConsoleRx.DescIsFilled | device/virtio-console/src/process_rx.rs:119-133 | a descriptor receives the arriving bytes up to its length, and fails exactly if an error comes before it is full |
| ConsoleRx.DescProbes | device/virtio-console/src/process_rx.rs:123-127 | reading for a descriptor meets the end of the input exactly if it comes before the descriptor is full, and reads into an empty buffer exactly if its length is 0 |
| ConsoleRx.ProcessRxChain | device/virtio-console/src/process_rx.rs:67-82 | the loop over a chain's descriptors reads and counts as in the lemmas |
| ConsoleRx.ChainIsCounted | device/virtio-console/src/process_rx.rs:67-82 | without errors the count of a chain is what was taken from the input for it, and at most its capacity |
| ConsoleRx.CountedIsTaken | device/virtio-console/src/process_rx.rs:67-82 | whatever errors occur, nothing is counted for a chain that was not taken from the input for it |
| ConsoleRx.FailedReadIsSkipped | device/virtio-console/src/process_rx.rs:67-82 | after an error in a descriptor its bytes are not counted and the next descriptor is filled |
| ConsoleRx.PutBackIff | device/virtio-console/src/process_rx.rs:86-89 | without errors a chain is put back exactly if no byte arrives, or it has no writable descriptor or an empty one first |
| ConsoleRx.EndIsTruthfulIff | device/virtio-console/src/process_rx.rs:122-127 | after a chain the end-of-input flag is truthful exactly if the input has ended or no zero-length descriptor was reached |
| ConsoleRx.AlwaysTruthfulIff | device/virtio-console/src/process_rx.rs:122-127 | a chain leaves the flag truthful on every input exactly if none of its writable descriptors is empty |
| ConsoleRx.FalseReport | device/virtio-console/src/process_rx.rs:122-127 | for every chain with a zero-length descriptor, an input that still has bytes and is reported as ended |
| ConsoleRx.DrainRx | device/virtio-console/src/process_rx.rs:66-102 | a run of visits, each of the next chain not yet returned and each but the last returned with the input not at its end; it stops with an empty ring, a chain put back that received nothing, or a chain returned with the input taken to be at its end |
| ConsoleRx.ProcessRx | device/virtio-console/src/process_rx.rs:40-108 | over all events: every visit is of the next chain not yet returned, also after one was put back; one used entry per chain returned, in order, with the bytes it received; events that find the queue disabled or unlockable, and those behind a stop, change nothing; the port is closed, and used entries stay unsignalled, exactly if a chain was returned with the input taken to be at its end; at a wait the ring is empty or its next chain received nothing |
| ConsoleRx.RunsJoin | device/virtio-console/src/process_rx.rs:66-102 | the visits, returned chains and used entries of consecutive drains are those of the whole run |
| ConsoleRx.ReportedLength | device/virtio-console/src/process_rx.rs:91-96 | the used entries are those of the returned chains in order, and below 2^32 each reports the bytes its chain received |
| ConsoleRx.BytesAreReported | device/virtio-console/src/process_rx.rs:66-102 | over any run without read errors the bytes taken equal the sum of the lengths on the used ring, and no used entry is empty |
| ConsoleRx.RunIsTruthfulIff | device/virtio-console/src/process_rx.rs:66-102 | over any run the flag is truthful exactly if the input has ended or no visit reached a zero-length descriptor |
| ConsoleRx.ClosedOnlyAtTheEnd | device/virtio-console/src/process_rx.rs:97-101 | without zero-length descriptors a run closes the port only at the end of the input |
| ConsoleRx.FalseEndOfInput | device/virtio-console/src/process_rx.rs:97-101 | on a chain of five bytes and an empty descriptor the port is closed and the used entry stays unsignalled, although nine more bytes would come |
| GpuProtocol.ReadEncoded | device/virtio-gpu/src/protocol.rs:765-767 | reading a structure's little-endian bytes gives its fields and leaves what follows |
| GpuProtocol.EncodeRead | device/virtio-gpu/src/protocol.rs:765-767 | whatever is read as a structure is its encoding, with every field in range |
| GpuProtocol.DecodeInvertsEncode | device/virtio-gpu/src/protocol.rs:761-886 | decoding the layout of any header and command returns them and consumes exactly those bytes |
| GpuProtocol.EncodeInvertsDecode | device/virtio-gpu/src/protocol.rs:761-886 | whatever decodes starts with the layout of its result |
| GpuProtocol.PrefixesAreRejected | device/virtio-gpu/src/protocol.rs:761-886 | every strict prefix of a layout fails with DescriptorReadFailed |
| GpuProtocol.InvalidTypeStays | device/virtio-gpu/src/protocol.rs:772-886 | an unknown type is reported as such whatever follows the header |
| GpuLayout.DecodesIff | device/virtio-gpu/src/protocol.rs:761-886 | which byte strings decode: at least 24 bytes, a known type, and as many bytes as that type, and its count, needs; which error the others give; a command takes exactly those bytes |
| GpuLayout.FieldsOfType | device/virtio-gpu/src/protocol.rs:149-641 | the field widths of every command type, by its number |
| GpuLayout.LengthOfType | device/virtio-gpu/src/protocol.rs:772-883 | the types with a structure of fixed length, and its bytes |
| GpuLayout.FieldAt | device/virtio-gpu/src/protocol.rs:765-767 | field i of a structure lies directly behind the fields before it |
| GpuLayout.ByteOfNumber | device/virtio-gpu/src/protocol.rs:765-767 | byte i of a field is the digit of 256^i: little-endian |
| GpuLayout.HeaderAt | device/virtio-gpu/src/protocol.rs:118-127 | the header is 24 bytes: type, flags, fence id, context and ring index at their offsets |
| GpuLayout.AttachBackingAt | device/virtio-gpu/src/protocol.rs:795-809 | resource, count and the address and length of each 16-byte entry at their offsets |
| GpuLayout.Submit3dAt | device/virtio-gpu/src/protocol.rs:840-863 | size, count, each 8-byte fence id and the data behind them at their offsets |
| GpuProtocol.Reader.ReadExact | device/virtio-gpu/src/protocol.rs:855-857 | takes exactly the bytes asked for, or fails without taking any |
| GpuProtocol.Reader.ReadObj | device/virtio-gpu/src/protocol.rs:765-767 | the field-wise reader is the structure reader of the lemmas |
| GpuProtocol.Reader.ReadObjs | device/virtio-gpu/src/protocol.rs:848-853 | the loop reads as many structures as announced, in order, or fails |
| GpuProtocol.Reader.DecodeCommand | device/virtio-gpu/src/protocol.rs:761-886 | the reader-consuming decoder is the decoder of the lemmas, and leaves the reader behind the command |

The functions these members speak about follow the code line by line: `UsedBits`, `AsRawToken`, `FromRawToken`
(event_token_derive/src/lib.rs:58-171), `DecideFence`, `HandleSignal`, `SetScanout`, `CreateResource`,
`UnrefResource`, `FlushResource`, `NewBitmap`, `DirtyAt`, `SetMemTable`, `AddMemRegion`, `RemoveMemRegion`,
`VmmVaToGpa`, `Stop`, `Start`, `SetKick`, `RegisterSelf`, `UnregisterSelf`, `Decode`.

## Left out

- Deadlock freedom of the GPU device: worker and fence handler take the queue and the fence lock in opposite
  orders. A handler run and a `process_fence` call are atomic steps here, and only safety is claimed.
- Failure of fence creation: the protocol has the step, and the chain is then treated like any other, but nothing
  is claimed about when such a fence is signalled.
- The renderer, the GPU frontend connection, the queue library, guest memory, epoll and mmap are contracts. The
  renderer refuses duplicate resource ids; epoll refuses to add a present and to delete an absent descriptor;
  `try_access` repeats its callback until the count is reached or it returns 0.
- Infinite runs: arrivals, events and outcomes of reads and writes are finite lists of any length.
- The wrap-around of 16-bit ring indices, the suppression arithmetic of EVENT_IDX, and used-ring writes that
  fail in the console and are only logged; descriptors are assumed to lie in guest memory.
- Failures to unwrap in the fence handler (used ring, notification), a failing read of a kick, and panics in general except where a
  lemma is about them.
- GpuWorker.HandleQueueEvent: what the fence handler does to the shared fence state while the loop runs enters as
  a parameter per chain; used entries the handler makes meanwhile are not part of its account. FenceProtocol
  has both threads; ServiceFollowsProtocol and FailedServiceFollowsProtocol relate the two.
- VringKick.SecondResetPanics: whether an epoll instance outlives the reset of a device is a parameter. The GPU
  device joins its worker and leaves none; the console's reset does not return, because its worker's stop event
  leaves only the inner loop (device/virtio-console/src/console_control.rs:238-248). Joining is not modelled.
- ConsoleTx.ProcessTx: after a hard write error the bytes written before it in the same descriptor are not
  counted by the program, so for runs with such errors only the used entries and their order are stated; what one
  chain does is exact for any errors.
- ConsoleRx.ProcessRx: claims lengths, not byte contents: after a partly filled descriptor the next bytes go to
  the next descriptor of the chain. A read of no bytes is taken to return 0 without any other effect, as `read` on
  the descriptors of device/virtio-console/src/port_io.rs:129-156 does.
- ConsoleRx.BytesAreReported: after a hard read error the bytes read before it in the same descriptor are not
  counted by the program; chains of 2^32 bytes or more are excluded, whose length a used entry truncates.
- EventToken.BudgetIsExact: enums without variants are excluded, because a variant carrying one has no value and
  the check counts it all the same; so are enums of more than 2^30 variants, for which the macro's own i32 mask
  overflows. Generic and named-field syntax of the derive macro is not modelled.
- MemoryMap.TranslatesIff: the end of a mapping is computed with wrapping addition, as in a release build; a
  debug build panics instead.
- Scanout.CreateCoherence: the debug assertion against duplicate ids is not modelled; the 32-bit stride
  computation of the renderer read and allocation failures are not either.
- Reuse of descriptor numbers: descriptors are names, and a new one is watched by nobody. What becomes of a replaced
  kick (held open elsewhere, closed here, closed everywhere) is a parameter.
- A failing reset of the device, which `reset_device` unwraps; an activation that fails; the worker threads that an
  activation starts. Their registrations are messages of their own, for any ring in whatever state it is, at
  activation or later.
- The enabled flag, the call and error descriptors themselves, postcopy memory, and device state transfer.
- The console's control queues, whose transmit side uses a constant head index and whose receive side drops
  partial writes.
- Encoding of responses, in particular plane info and capsets; cursor updates, transfers, blobs and contexts.
- GpuProtocol.DecodeInvertsEncode: little-endian hosts only; in-fence ids and memory are read in the host's order.
- GpuProtocol.Reader.ReadExact: says nothing of what a failed read leaves in the reader, which is not used any
  further.
- Configuration space, capability sets, features, daemon and socket code, command line and logging.
