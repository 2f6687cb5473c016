# ozz-land stereo renderer: frame-slot pool, frame lifecycle, session events, Vulkan helpers and meshes

This project models the core of the ozz-land OpenXR/Vulkan stereo renderer.

**Recording-slot pool.** Each frame records its secondary command buffers into a *slot*, a `FrameCommandBufferCache`. A slot holds:
- three ordered lists of buffers, for LEFT, RIGHT and BOTH;
- one fence per eye;
- an `Available` flag.

The renderer keeps a pool of slots. `BeginFrame` claims the first Available slot, or appends a new one. `RenderFrame` first polls every slot and recycles each slot whose two fences are both signaled. It then renders the left eye and the right eye. Each eye replays its own list, then the BOTH list, and submits with its own fence. `EndFrame` only drops the reference to the current slot.

**Session events.** `processXREvents` maps one polled OpenXR event to a new value of the session-initialised flag and to a "stop the loop" answer.

**Teardown.** `Cleanup` destroys every live handle in a fixed order and sets it back to the null handle.

**Vulkan helpers.** `vk_utils.h` selects the swapchain and depth formats and fills the layout-transition barrier.

**Meshes.** `shapes.h` holds the cube and pyramid index tables and the integer half of `GenerateSphere`.

## How the model is built

Each operation is modelled twice:
- as a value-level specification function (modules `CacheSpec`, `PoolSpec`, `FrameSpec`, `Lifecycle`, `Session`, `Teardown`), which the lemmas are about;
- as imperative Dafny, proved to follow that function.

The imperative side consists of:
- the class `FrameCache.FrameCommandBufferCache`, whose lists live in a map that always has all three keys;
- the class `RendererModel.Renderer`. Its pool is a `seq` of slot objects, and the current slot is an `Option<nat>` index into it.

Foreign calls and their results are treated as follows:
- The results of the foreign calls are parameters. These are xrWaitFrame, xrBeginFrame, image acquire and wait, begin and end of the command buffer, vkQueueSubmit, xrLocateViews, xrBeginSession and the command-buffer allocation.
- The calls a frame makes are returned as a trace of `Step`s.
- The device's format-properties query is a function parameter.
- A handle is a number, and 0 is the null handle.

A fence has three states: `Unsignaled`, `Pending` and `Signaled`.
- A successful vkQueueSubmit makes it Pending.
- The environment action "the GPU completes the fence" (`GpuCompletes`, `Lifecycle.GpuCompletesOp`) makes it Signaled.
- The reset in `CheckAndClearCaches` makes it Unsignaled again.

With three states the model can tell a fence that was never submitted from one whose work is still running.

**Main result: a slot leak.** A slot is *stranded* when three things hold:
- it is claimed;
- it is not the current slot;
- one of its fences is Unsignaled.

A stranded slot stays stranded for ever, whatever the application, the runtime and the GPU do next (`Lifecycle.StrandedForever`). Two ordinary situations strand a slot:
- **An idle frame.** One iteration of the application loop calls Update, BeginFrame, RequestCommandBuffer(BOTH), RenderFrame and EndFrame (`app/src/application.cpp:37-80`). `BeginFrame` claims a slot even while the session is not initialised. The loop then records its BOTH buffer into that slot, and nothing is ever submitted for it. So while the session stays uninitialised, each iteration adds one more slot to the pool, and none is ever reused (`Lifecycle.IdleLoopGrowsPool`).
- **A failed eye.** A frame whose left eye fails before its submit also strands its slot (`Lifecycle.FailedEyeStrandsSlot`).

**The leak, corrected.** `Lifecycle.FlushedEndFrameState` is EndFrame as evidently intended. Before it drops the current slot, it gives each fence of that slot that nothing was submitted with an empty submission. The operations `ApplyFlushed` and `RunFlushed` are the lifecycle with that EndFrame. With it, no run of the application loop from start-up leaves a stranded slot (`Lifecycle.FlushedLoopStrandsNothing`). The as-written lifecycle (`Apply`, `Run`) stays the model of the source. The corrected one sits beside it, and the "## Findings" table below records the discrepancy.

**Behaviour of the code worth noting.**
- `LOSS_PENDING`, `EXITING` and `INSTANCE_LOSS_PENDING` only log. They neither stop the loop nor change the flag (`Session.LossAndExitOnlyLog`).
- A reclaimed slot has both fences reset to Unsignaled before it is offered again.
- `Cleanup` destroys in this order:
  - it waits for the device, unconditionally;
  - the command pool, if set;
  - every swapchain, null or not;
  - the reference space, the session, the allocator, the device, the debug messenger and the Vulkan instance, each if set;
  - it clears the system id;
  - the OpenXR instance, if set.
- More than one slot can be claimed at a time. A claimed slot that is not current is either in flight, with both fences submitted, or stranded as above. An in-flight slot is freed by the first reclaim after the GPU signals both fences.
- `renderer.h` and `renderer.cpp` come from different revisions. `RenderFrame` calls `CheckAndClearCaches()` without arguments, while the header's definition takes a device, a pool and a timeout. The model treats the device and pool as abstract and the wait as a poll (timeout 0).

## Model

Paths are relative to the repository root.

| member | source | states |
|---|---|---|
| Common.EyeOf | ozz_vulkanxr/src/renderer.cpp:91-97 | iteration 0 of the eye loop is LEFT and iteration 1 is RIGHT; never BOTH |
| CacheSpec.FenceFor | ozz_vulkanxr/include/ozz_vulkan/internal/frame_command_buffer_cache.h:54-60 | the left fence exactly for LEFT; RIGHT and BOTH get the right fence |
| CacheSpec.Claimed | ozz_vulkanxr/include/ozz_vulkan/internal/frame_command_buffer_cache.h:28-30 | Claim clears Available and keeps every list and both fences |
| CacheSpec.Pushed | ozz_vulkanxr/include/ozz_vulkan/internal/frame_command_buffer_cache.h:66-68 | the buffer is appended to the end of the target's list; the other two lists, the fences and the flag are unchanged |
| CacheSpec.CheckAndClear | ozz_vulkanxr/include/ozz_vulkan/internal/frame_command_buffer_cache.h:32-52 | it reclaims exactly when both fences are signaled. Then the freed buffers are LEFT ++ RIGHT ++ BOTH as held before, the lists end empty, both fences are reset and the slot is Available. Otherwise the slot is unchanged |
| CacheSpec.Submitted | ozz_vulkanxr/src/renderer.cpp:267-272 | the fence named by a successful submit becomes pending |
| CacheSpec.Completed | ozz_vulkanxr/include/ozz_vulkan/internal/frame_command_buffer_cache.h:35-36 | the GPU signals only a pending fence; any other fence state is left alone |
| CacheSpec.FreshIsQuiescent | ozz_vulkanxr/include/ozz_vulkan/internal/frame_command_buffer_cache.h:15-26 | a new slot satisfies the slot invariant (Available implies empty and reset) |
| CacheSpec.CheckAndClearKeepsQuiescent | ozz_vulkanxr/include/ozz_vulkan/internal/frame_command_buffer_cache.h:32-52 | reclaiming keeps the slot invariant; afterwards the slot is Available iff it was, or both fences were signaled |
| CacheSpec.ClaimedOperationsKeepQuiescent | ozz_vulkanxr/include/ozz_vulkan/internal/frame_command_buffer_cache.h:66-68 | pushing into or submitting a claimed slot keeps the invariant, and the slot stays claimed |
| CacheSpec.CompletedKeepsQuiescent | ozz_vulkanxr/include/ozz_vulkan/internal/frame_command_buffer_cache.h:35-36 | GPU completion keeps the invariant and the flag |
| CacheSpec.PushedBufferIsFreed | ozz_vulkanxr/include/ozz_vulkan/internal/frame_command_buffer_cache.h:32-68 | a pushed buffer adds one to the slot's buffers, and a reclaim of a slot whose fences are both signaled frees it |
| FrameCache.FrameCommandBufferCache.constructor | ozz_vulkanxr/include/ozz_vulkan/internal/frame_command_buffer_cache.h:15-26 | the object's value is the fresh slot: the map holds empty LEFT, RIGHT and BOTH lists |
| FrameCache.FrameCommandBufferCache.Claim | ozz_vulkanxr/include/ozz_vulkan/internal/frame_command_buffer_cache.h:28-30 | the new value is `Claimed` of the old one |
| FrameCache.FrameCommandBufferCache.CheckAndClearCaches | ozz_vulkanxr/include/ozz_vulkan/internal/frame_command_buffer_cache.h:32-52 | the new value and the outcome (freed buffers or still pending) are those of `CheckAndClear` on the old value |
| FrameCache.FrameCommandBufferCache.GetFence | ozz_vulkanxr/include/ozz_vulkan/internal/frame_command_buffer_cache.h:54-60 | the fence is `FenceFor(target)`: left for LEFT, right for RIGHT and BOTH |
| FrameCache.FrameCommandBufferCache.GetCommandBuffers | ozz_vulkanxr/include/ozz_vulkan/internal/frame_command_buffer_cache.h:62-64 | it returns the list kept for the target; it is defined for all three targets |
| FrameCache.FrameCommandBufferCache.Available | ozz_vulkanxr/include/ozz_vulkan/internal/frame_command_buffer_cache.h:70 | it returns the slot's Available flag |
| FrameCache.FrameCommandBufferCache.PushCommandBuffer | ozz_vulkanxr/include/ozz_vulkan/internal/frame_command_buffer_cache.h:66-68 | the new value is `Pushed` of the old one: an append to the target's list only |
| FrameCache.FrameCommandBufferCache.MarkSubmitted | ozz_vulkanxr/src/renderer.cpp:267-272 | the submitted fence becomes pending and nothing else changes |
| FrameCache.FrameCommandBufferCache.GpuCompletes | ozz_vulkanxr/include/ozz_vulkan/internal/frame_command_buffer_cache.h:35-36 | environment action: a pending fence becomes signaled, any other state is kept |
| PoolSpec.FirstAvailableFrom | ozz_vulkanxr/include/ozz_vulkan/renderer.h:106-111 | the lowest Available index at or after the start, or none when no slot from there on is Available |
| PoolSpec.FirstAvailable | ozz_vulkanxr/include/ozz_vulkan/renderer.h:106-111 | the lowest Available index, with every earlier slot claimed; none iff no slot is Available |
| PoolSpec.Acquire | ozz_vulkanxr/include/ozz_vulkan/renderer.h:105-122 | the returned index is a claimed slot of the new pool; the pool grows by at most one; every other old slot is unchanged |
| PoolSpec.AcquireSpec | ozz_vulkanxr/include/ozz_vulkan/renderer.h:105-122 | see the note after this table |
| PoolSpec.ConsecutiveClaimsDiffer | ozz_vulkanxr/include/ozz_vulkan/renderer.h:105-122 | two claims with no reclaim in between return different slots |
| PoolSpec.AcquireMany | ozz_vulkanxr/include/ozz_vulkan/renderer.h:105-122 | n claims in a row hand out n indices and never shrink the pool |
| PoolSpec.AcquireManyKeepsClaims | ozz_vulkanxr/include/ozz_vulkan/renderer.h:108-116 | claimed slots stay claimed, and every index handed out points at a claimed slot |
| PoolSpec.AcquireManyDistinct | ozz_vulkanxr/include/ozz_vulkan/renderer.h:105-122 | any run of claims without reclaim hands out pairwise distinct slots |
| PoolSpec.AcquireManyHandsOutAvailable | ozz_vulkanxr/include/ozz_vulkan/renderer.h:106-111 | a slot that is already claimed is never handed out by later claims |
| PoolSpec.AcquireManyFromFullPool | ozz_vulkanxr/include/ozz_vulkan/renderer.h:115-121 | with no slot Available, n claims append n slots, handed out in order at the old pool size and after |
| PoolSpec.SixthClaimWarns | ozz_vulkanxr/include/ozz_vulkan/renderer.h:118-120 | from an empty pool with no reclaim, the sixth claim creates slot 5 and logs the growth warning |
| PoolSpec.ReclaimAll | ozz_vulkanxr/src/renderer.cpp:77-79 | every slot of the pool goes through CheckAndClearCaches and the pool keeps its size |
| PoolSpec.AcquireKeepsQuiescent | ozz_vulkanxr/include/ozz_vulkan/renderer.h:105-122 | claiming keeps the pool invariant; the claimed slot is empty with both fences unsignaled |
| PoolSpec.ReclaimAllKeepsQuiescent | ozz_vulkanxr/src/renderer.cpp:77-79 | the reclaim pass keeps the pool invariant while the current slot is not ready to be reclaimed |
| PoolSpec.ReclaimThenReuse | ozz_vulkanxr/src/renderer.cpp:77-79 | a slot freed by the reclaim pass, with no Available or reclaimable slot before it, is the next one claimed, and its lists are empty |
| FrameSpec.BeginFrameInfo | ozz_vulkanxr/src/renderer.cpp:42-61 | frame info is returned iff the session is initialised, xrWaitFrame succeeded and shouldRender is set; it carries the predicted display time |
| FrameSpec.BeginFrameSteps | ozz_vulkanxr/src/renderer.cpp:42-47 | xrWaitFrame is called iff the session is initialised |
| FrameSpec.Opening | ozz_vulkanxr/src/renderer.cpp:163-187 | the opening is acquire, wait and begin of the eye's primary buffer: three calls of that eye, none an execute or a submit |
| FrameSpec.Recording | ozz_vulkanxr/src/renderer.cpp:231-253 | recording starts with begin rendering, and every execute replays a non-empty list: the eye's own or the BOTH list |
| FrameSpec.Closing | ozz_vulkanxr/src/renderer.cpp:250-280 | the submit, with the eye's own fence of slot k, is made iff vkEndCommandBuffer succeeded; the image is released iff the submit succeeded too; no execute |
| FrameSpec.EyeSteps | ozz_vulkanxr/src/renderer.cpp:157-281 | renderEye starts by acquiring the image, and releases it iff all five checks pass |
| FrameSpec.RecordingSteps | ozz_vulkanxr/src/renderer.cpp:231-253 | the recording part of an eye makes only that eye's rendering, execute and end calls, and ends the command buffer |
| FrameSpec.SlotAfterEye | ozz_vulkanxr/src/renderer.cpp:267-272 | after an eye only that eye's fence can change, and it is pending iff all five checks passed; lists and flag are kept |
| FrameSpec.EyeStepsBelongToEye | ozz_vulkanxr/src/renderer.cpp:157-281 | every call renderEye makes is tagged with its own eye |
| FrameSpec.EyeEarlyReturn | ozz_vulkanxr/src/renderer.cpp:163-280 | the checked call of each stage (acquire, wait, begin, end, submit) is made iff all earlier checks passed; the image is released iff all five passed |
| FrameSpec.EyeSubmitFence | ozz_vulkanxr/src/renderer.cpp:267-272 | each submit names the eye's own fence of the current slot, and a submit is made iff acquire, wait, begin and end succeeded |
| FrameSpec.EyeStepsShape | ozz_vulkanxr/src/renderer.cpp:185-253 | after a successful begin the eye runs opening, begin rendering, its own list, the BOTH list, then end and close; no execute outside the two replays |
| FrameSpec.EyeReplayedBuffers | ozz_vulkanxr/src/renderer.cpp:238-246 | the buffers executed for an eye are its own list followed by the BOTH list |
| FrameSpec.ExecutedOfReplay | ozz_vulkanxr/src/renderer.cpp:238-246 | the two replays between steps that execute nothing execute exactly the two lists, in order |
| FrameSpec.EyeReplaySkipsEmpty | ozz_vulkanxr/src/renderer.cpp:238-246 | an empty list is never executed, and every execute replays the eye's list or the BOTH list |
| FrameSpec.EyeReplayOrder | ozz_vulkanxr/src/renderer.cpp:238-246 | of two executes within an eye, the earlier replays the eye's list and the later the BOTH list |
| FrameSpec.ReplayOrderOfParts | ozz_vulkanxr/src/renderer.cpp:238-246 | between steps that execute nothing, of two executes the earlier replays the first list and the later the second |
| FrameSpec.EyeStepsReadOnlyLists | ozz_vulkanxr/src/renderer.cpp:157-281 | renderEye depends on the slot's lists only, not on its fences or flag |
| FrameSpec.EyeStepsIgnoreSlot | ozz_vulkanxr/src/renderer.cpp:157-237 | an eye that stops before reading the slot makes the same calls whatever the slot and index, at most three of them, and leaves the slot unchanged |
| FrameSpec.ReclaimSteps | ozz_vulkanxr/src/renderer.cpp:77-79 | one poll per slot, in pool order, with that slot's outcome |
| FrameSpec.FrameSlots | ozz_vulkanxr/src/renderer.cpp:75-98 | RenderFrame keeps the size of the pool |
| FrameSpec.PoolAfterEye | ozz_vulkanxr/src/renderer.cpp:91-98 | an eye keeps the size of the pool |
| FrameSpec.LeftSteps | ozz_vulkanxr/src/renderer.cpp:91-98 | the left part of a frame holds only left-eye calls |
| FrameSpec.RightSteps | ozz_vulkanxr/src/renderer.cpp:91-98 | the right part of a frame holds only right-eye calls |
| FrameSpec.CloseSteps | ozz_vulkanxr/src/renderer.cpp:100-147 | the close starts by locating the views at the predicted time, and calls xrEndFrame with that time iff the views were located; nothing else |
| FrameSpec.RenderSteps | ozz_vulkanxr/src/renderer.cpp:81-150 | past the reclaim pass RenderFrame makes no call iff the session is not initialised; otherwise it starts with xrBeginFrame and stops there when that fails |
| FrameSpec.FrameSteps | ozz_vulkanxr/src/renderer.cpp:75-150 | RenderFrame's calls start with one poll per slot; it goes on, with xrBeginFrame, iff the session is initialised |
| FrameSpec.RenderStepsKinds | ozz_vulkanxr/src/renderer.cpp:81-98 | after the reclaim pass no slot is polled again; eye calls appear only past both gates, and xrBeginFrame iff the session is initialised |
| FrameSpec.ReclaimComesFirst | ozz_vulkanxr/src/renderer.cpp:77-81 | the first steps poll every slot in pool order, before the session gate; on an uninitialised session that is all RenderFrame does |
| FrameSpec.FrameStepsShape | ozz_vulkanxr/src/renderer.cpp:75-102 | a rendered frame is reclaim, xrBeginFrame, left eye, right eye, close, with eye calls only in the two eye parts |
| FrameSpec.FrameEyeParts | ozz_vulkanxr/src/renderer.cpp:91-98 | each eye's calls in a frame are its renderEye protocol on the reclaimed current slot |
| FrameSpec.EyeIsolation | ozz_vulkanxr/src/renderer.cpp:91-98 | the right eye's calls do not depend on how the left eye went, and the right eye starts even when the left eye fails at once |
| FrameSpec.EyesInOrder | ozz_vulkanxr/src/renderer.cpp:91-98 | every left-eye call comes before every right-eye call |
| FrameSpec.FrameSubmitFences | ozz_vulkanxr/src/renderer.cpp:267-272 | every submit in a frame names its eye's own fence of the current slot, and the two eyes' fences differ |
| FrameSpec.NoEyeNoSubmit | ozz_vulkanxr/src/renderer.cpp:81-89 | a frame stopped by the session gate or a failed xrBeginFrame submits nothing |
| FrameSpec.SlotlessFrame | ozz_vulkanxr/src/renderer.cpp:75-237 | with no current slot and neither eye reading it, each eye runs its early-return protocol, nothing is submitted, the views are located and the pool is only reclaimed |
| FrameSpec.SubmitsOfShape | ozz_vulkanxr/src/renderer.cpp:91-98 | in a frame made of reclaim, left part, right part and close, every submit names its eye's own fence |
| FrameSpec.NoSubmitOfShape | ozz_vulkanxr/src/renderer.cpp:81-98 | when neither eye part submits, the frame submits nothing |
| FrameSpec.EndFrameUsesPredictedTime | ozz_vulkanxr/src/renderer.cpp:102-147 | xrEndFrame uses the predicted display time; it is called iff both gates passed and the views were located |
| FrameSpec.FrameSlotsSpec | ozz_vulkanxr/src/renderer.cpp:75-98 | every slot but the current one is just reclaimed; the current slot keeps its reclaimed lists, and each fence is pending iff that eye's submit went through |
| Lifecycle.BeginFrameState | ozz_vulkanxr/src/renderer.cpp:39-42 | BeginFrame always claims a slot and makes it current, whatever the session state |
| Lifecycle.RequestPool | ozz_vulkanxr/src/renderer.cpp:64-73 | with no current slot the pool is unchanged; otherwise the handle, null or not, is appended to the current slot's target list and every other slot is unchanged |
| Lifecycle.RequestResult | ozz_vulkanxr/src/renderer.cpp:64-73 | null with no current slot, the allocated handle otherwise |
| Lifecycle.EventState | ozz_vulkanxr/src/renderer.cpp:944-1030 | Update changes only the session flag: the pool and the current slot are kept, and so is well-formedness |
| Lifecycle.RenderFrameState | ozz_vulkanxr/src/renderer.cpp:75-150 | RenderFrame keeps the current slot and the session flag |
| Lifecycle.EndFrameState | ozz_vulkanxr/src/renderer.cpp:152-155 | EndFrame only drops the current slot; the pool, and so every Available flag, is untouched |
| Lifecycle.GpuState | ozz_vulkanxr/include/ozz_vulkan/internal/frame_command_buffer_cache.h:35-36 | a GPU completion changes one fence of one slot only |
| Lifecycle.Apply | ozz_vulkanxr/src/renderer.cpp:35-281 | each operation keeps the state well formed; it is undefined exactly for a RenderFrame that reaches the eye loop without a current slot while an eye gets past vkBeginCommandBuffer and so dereferences the null slot |
| Lifecycle.Run | ozz_vulkanxr/src/renderer.cpp:35-155 | any sequence of operations keeps the state well formed |
| Lifecycle.ApplyKeepsStranded | ozz_vulkanxr/src/renderer.cpp:35-155 | no single operation or GPU completion gives back a stranded slot, and no operation shrinks the pool |
| Lifecycle.StrandedForever | ozz_vulkanxr/src/renderer.cpp:35-155 | a stranded slot stays stranded after any sequence of operations |
| Lifecycle.RunAppend | ozz_vulkanxr/src/renderer.cpp:35-155 | running a + b is running a, then b |
| Lifecycle.RunCons | ozz_vulkanxr/src/renderer.cpp:35-155 | running op then the rest is running the rest from op's result |
| Lifecycle.IdleRenderFrame | ozz_vulkanxr/src/renderer.cpp:75-82 | on an uninitialised session RenderFrame is the reclaim pass alone |
| Lifecycle.BeginRequestRun | ozz_vulkanxr/src/renderer.cpp:39-73 | BeginFrame then RequestCommandBuffer(BOTH) claims a slot and appends the handle to its BOTH list |
| Lifecycle.IdleRenderEndRun | ozz_vulkanxr/src/renderer.cpp:75-155 | on an uninitialised session RenderFrame then EndFrame reclaims the pool and drops the current slot |
| Lifecycle.LoopIteration | app/src/application.cpp:37-80 | one iteration is Update (one event), then BeginFrame, RequestCommandBuffer(BOTH), RenderFrame and EndFrame: five operations, the event first and EndFrame last |
| Lifecycle.LoopIterations | app/src/application.cpp:36-81 | n iterations are 5n operations |
| Lifecycle.LoopIterationsAt | app/src/application.cpp:36-81 | iteration m is operations 5m to 5m+4, built from the m-th input |
| Lifecycle.IdleIterationRun | app/src/application.cpp:37-80 | one loop iteration that keeps the session uninitialised claims a slot, records the BOTH buffer into it, reclaims the pool and drops the slot |
| Lifecycle.IdleIterationStrandsSlot | app/src/application.cpp:37-80 | such an iteration leaves the claimed slot stranded, holding only its BOTH buffer, and every other slot just reclaimed |
| Lifecycle.IdleLoopStep | app/src/application.cpp:37-80 | one more such iteration appends one stranded slot and keeps the earlier ones |
| Lifecycle.IdleLoopInvariant | app/src/application.cpp:36-81 | after n such iterations from start-up the pool holds exactly n stranded slots, slot k holding the buffer of iteration k |
| Lifecycle.IdleLoopGrowsPool | app/src/application.cpp:36-81 | after n loop iterations from start-up whose events keep the session uninitialised, the pool holds n slots, all stranded with both fences unsignaled, each holding the BOTH buffer of its iteration |
| Lifecycle.FailedEyeStrandsSlot | ozz_vulkanxr/src/renderer.cpp:157-281 | when the left eye does not submit, the slot claimed for the frame is stranded once the frame has ended |
| Lifecycle.Flushed | ozz_vulkanxr/src/renderer.cpp:152-155 | corrected EndFrame, per slot: no fence is left unsubmitted, submitted fences keep their state, lists and flag are kept |
| Lifecycle.FlushedEndFrameState | ozz_vulkanxr/src/renderer.cpp:152-155 | corrected EndFrame flushes the current slot only and drops it; everything else is kept |
| Lifecycle.ApplyFlushed | ozz_vulkanxr/src/renderer.cpp:35-155 | with the corrected EndFrame every operation keeps the state well formed and is undefined in the same cases as before |
| Lifecycle.RunFlushed | ozz_vulkanxr/src/renderer.cpp:35-155 | any sequence of operations with the corrected EndFrame keeps the state well formed |
| Lifecycle.ApplyFlushedStrandsNothing | ozz_vulkanxr/src/renderer.cpp:35-155 | with the corrected EndFrame no operation strands a slot |
| Lifecycle.FlushedIterationStrandsNothing | app/src/application.cpp:37-80 | with the corrected EndFrame, a loop iteration from between frames is always defined, strands nothing and ends with no current slot |
| Lifecycle.FlushedLoopStrandsNothing | app/src/application.cpp:36-81 | with the corrected EndFrame, every run of the loop from start-up is defined, leaves no stranded slot and ends between frames |
| Lifecycle.FlushedSlotComesBack | ozz_vulkanxr/src/renderer.cpp:75-79 | with the corrected EndFrame and no stranded slot, a slot outside the frame is Available after the GPU completes both of its fences and the next RenderFrame's reclaim pass |
| Session.ProcessEvent | ozz_vulkanxr/src/renderer.cpp:944-1030 | see the note after this table |
| Session.LossAndExitOnlyLog | ozz_vulkanxr/src/renderer.cpp:944-1030 | INSTANCE_LOSS_PENDING, LOSS_PENDING and EXITING change nothing and do not stop the loop |
| Session.NewFlagForgetsOldFlag | ozz_vulkanxr/src/renderer.cpp:944-1030 | after IDLE, a successful READY or a running state, the flag does not depend on its old value |
| Session.ProcessEventIdempotent | ozz_vulkanxr/src/renderer.cpp:944-1030 | handling the same event twice leaves the flag as handling it once |
| Session.StopKeepsFlag | ozz_vulkanxr/src/renderer.cpp:944-1030 | when the loop is told to stop, the flag is unchanged |
| Teardown.SwapchainCalls | ozz_vulkanxr/src/renderer.cpp:306-311 | one destroy per swapchain, in order, null handles included |
| Teardown.TeardownCalls | ozz_vulkanxr/src/renderer.cpp:289-389 | Cleanup first waits for the device, and makes at least one call per swapchain besides |
| Teardown.OrderedAppend | ozz_vulkanxr/src/renderer.cpp:289-389 | two ordered call lists, all of the first ranked at most r and all of the second at least r, concatenate to an ordered list |
| Teardown.TeardownOrdered | ozz_vulkanxr/src/renderer.cpp:289-389 | the calls follow the fixed order: wait, command pool, swapchains, space, session, allocator, device, messenger, Vulkan instance, OpenXR instance |
| Teardown.TeardownDestroysExactlyLive | ozz_vulkanxr/src/renderer.cpp:289-389 | apart from the swapchains, only set handles are destroyed and every set handle is destroyed; every swapchain is destroyed |
| Teardown.TeardownCallCount | ozz_vulkanxr/src/renderer.cpp:289-389 | one wait, one call per swapchain and one per set handle |
| Teardown.TeardownIdempotent | ozz_vulkanxr/src/renderer.cpp:289-389 | a second Cleanup only waits on the null device and destroys nothing |
| RendererModel.Renderer.constructor | ozz_vulkanxr/include/ozz_vulkan/renderer.h:79-103 | an empty pool, no current slot, the session not initialised |
| RendererModel.Renderer.GetAvailableFrameBufferCache | ozz_vulkanxr/include/ozz_vulkan/renderer.h:105-122 | see the note after this table |
| RendererModel.Renderer.BeginFrame | ozz_vulkanxr/src/renderer.cpp:39-62 | the state follows `BeginFrameState`; the info and the calls made follow `BeginFrameInfo` and `BeginFrameSteps` |
| RendererModel.Renderer.GetCommandBufferForSubmission | ozz_vulkanxr/src/renderer.cpp:1032-1048 | a failed allocation yields the null handle, a successful one the allocated buffer |
| RendererModel.Renderer.RequestCommandBuffer | ozz_vulkanxr/src/renderer.cpp:64-73 | the pool follows `RequestPool` and the result `RequestResult`; a failed allocation still pushes the null handle |
| RendererModel.Renderer.RenderEye | ozz_vulkanxr/src/renderer.cpp:157-281 | callable with no current slot as long as the eye returns before reading it; the calls made are `EyeSteps` on the current slot (or a fresh one when there is none), and only the current slot changes, to `SlotAfterEye` |
| RendererModel.Renderer.RecordEye | ozz_vulkanxr/src/renderer.cpp:231-253 | the recording calls are `Recording` of the slot: the eye's list, then BOTH, empty lists skipped |
| RendererModel.Renderer.SubmitFence | ozz_vulkanxr/src/renderer.cpp:267-272 | only the given fence of slot k becomes pending |
| RendererModel.Renderer.RenderFrame | ozz_vulkanxr/src/renderer.cpp:75-150 | callable whenever `Lifecycle.Apply` is defined, including the early returns with no current slot; the new state is `RenderFrameState`, and the calls made are `FrameSteps` of the old pool |
| RendererModel.Renderer.RenderEyes | ozz_vulkanxr/src/renderer.cpp:91-98 | the calls are the left eye's protocol then the right eye's; the current slot gets both eyes' fence updates |
| RendererModel.Renderer.ReclaimSlots | ozz_vulkanxr/src/renderer.cpp:77-79 | the pool becomes `ReclaimAll` of the old pool, with one poll per slot in order |
| RendererModel.Renderer.EndFrame | ozz_vulkanxr/src/renderer.cpp:152-155 | the state follows `EndFrameState`; the pool objects and the handles are unchanged |
| RendererModel.Renderer.ProcessXREvents | ozz_vulkanxr/src/renderer.cpp:944-1030 | the flag, the stop value and the session calls follow `Session.ProcessEvent`; nothing else changes |
| RendererModel.Renderer.Update | ozz_vulkanxr/src/renderer.cpp:35-37 | Update returns what processXREvents returns, with the same state change |
| RendererModel.Renderer.GpuCompletesFence | ozz_vulkanxr/include/ozz_vulkan/internal/frame_command_buffer_cache.h:35-36 | environment action: the state follows `GpuState` |
| RendererModel.Renderer.Cleanup | ozz_vulkanxr/src/renderer.cpp:289-389 | the calls made are `TeardownCalls` of the old handles; afterwards every handle is null, there are no swapchains, the pool is empty and there is no current slot |
| RendererModel.Renderer.ReleaseSessionHandles | ozz_vulkanxr/src/renderer.cpp:316-341 | space, session and allocator are each destroyed if set, then nulled; all other fields are kept |
| RendererModel.Renderer.ReleaseInstanceHandles | ozz_vulkanxr/src/renderer.cpp:347-388 | device, messenger and Vulkan instance are each destroyed if set, the system id is cleared, then the OpenXR instance is destroyed if set; all are null afterwards |
| VkUtils.FindFirstOf | ozz_vulkanxr/include/ozz_vulkan/internal/vk_utils.h:30-33 | the lowest position of the first list whose element is in the second list, or none iff no element is |
| VkUtils.SelectColorSwapchainFormat | ozz_vulkanxr/include/ozz_vulkan/internal/vk_utils.h:25-39 | see the note after this table |
| VkUtils.RuntimeOrderWins | ozz_vulkanxr/include/ozz_vulkan/internal/vk_utils.h:27-38 | the first supported runtime format is chosen, whatever the order of the supported list |
| VkUtils.FirstSupportedSpec | ozz_vulkanxr/include/ozz_vulkan/internal/vk_utils.h:151-166 | UNDEFINED iff no candidate has every required feature bit for the tiling; otherwise the first candidate that does |
| VkUtils.FirstSupported | ozz_vulkanxr/include/ozz_vulkan/internal/vk_utils.h:151-166 | the result is UNDEFINED or one of the candidates |
| VkUtils.UnknownTilingFindsNothing | ozz_vulkanxr/include/ozz_vulkan/internal/vk_utils.h:157-161 | a tiling that is neither LINEAR nor OPTIMAL finds no format |
| VkUtils.FindSupportedFormat | ozz_vulkanxr/include/ozz_vulkan/internal/vk_utils.h:151-166 | the loop's result is `FirstSupported` of the candidates |
| VkUtils.FindDepthFormat | ozz_vulkanxr/include/ozz_vulkan/internal/vk_utils.h:168-173 | see the note after this table |
| VkUtils.ListedPairs | ozz_vulkanxr/include/ozz_vulkan/internal/vk_utils.h:111-130 | exactly three transitions are supported: UNDEFINED to TRANSFER_DST, TRANSFER_DST to SHADER_READ_ONLY, and UNDEFINED to DEPTH_STENCIL_ATTACHMENT |
| VkUtils.TransitionTableIsFunctional | ozz_vulkanxr/include/ozz_vulkan/internal/vk_utils.h:111-130 | no two table rows share a layout pair |
| VkUtils.UploadTransitionsChain | ozz_vulkanxr/include/ozz_vulkan/internal/vk_utils.h:111-122 | the upload transition ends where the sampling transition starts: layout, stage and access agree |
| VkUtils.TransitionImageLayout | ozz_vulkanxr/include/ozz_vulkan/internal/vk_utils.h:87-140 | see the note after this table |
| Shapes.ReverseTriples | ozz_vulkanxr/include/ozz_vulkan/brushes/shapes.h:57-76 | reversing each triangle's winding keeps the length |
| Shapes.ReverseTriplesInvolution | ozz_vulkanxr/include/ozz_vulkan/brushes/shapes.h:57-76 | reversing twice gives back the original triangles |
| Shapes.ReverseTriplesAt | ozz_vulkanxr/include/ozz_vulkan/brushes/shapes.h:57-76 | entry i of the reversed list is the mirror entry of the same triangle |
| Shapes.ReverseTriplesAppend | ozz_vulkanxr/include/ozz_vulkan/brushes/shapes.h:57-76 | reversal distributes over concatenation at a triangle boundary |
| Shapes.ReverseTriplesOfBlocks | ozz_vulkanxr/include/ozz_vulkan/brushes/shapes.h:57-76 | a table cut into blocks of whole triangles reverses block by block |
| Shapes.CubeIndicesStayOnTheirFace | ozz_vulkanxr/include/ozz_vulkan/brushes/shapes.h:36-55 | 36 indices, each below the 24 cube vertices, and face f uses only vertices 4f to 4f+3 |
| Shapes.FrontBackFlipped | ozz_vulkanxr/include/ozz_vulkan/brushes/shapes.h:58-63 | the inverted front and back faces are the cube's with each triangle reversed |
| Shapes.LeftRightFlipped | ozz_vulkanxr/include/ozz_vulkan/brushes/shapes.h:64-69 | the same for the left and right faces |
| Shapes.TopBottomFlipped | ozz_vulkanxr/include/ozz_vulkan/brushes/shapes.h:70-75 | the same for the top and bottom faces |
| Shapes.InvertedCubeIsReversedCube | ozz_vulkanxr/include/ozz_vulkan/brushes/shapes.h:57-76 | `invertedCubeIndices` is `cubeIndices` with every triangle reversed |
| Shapes.FlipBack | ozz_vulkanxr/include/ozz_vulkan/brushes/shapes.h:57-76 | if ys is xs with triangles reversed, then xs is ys with triangles reversed |
| Shapes.CubeIsReversedInvertedCube | ozz_vulkanxr/include/ozz_vulkan/brushes/shapes.h:36-55 | `cubeIndices` is `invertedCubeIndices` with every triangle reversed |
| Shapes.PyramidIndicesInRange | ozz_vulkanxr/include/ozz_vulkan/brushes/shapes.h:216-230 | 18 indices, each below the 16 pyramid vertices |
| Shapes.SectorTriangles | ozz_vulkanxr/include/ozz_vulkan/brushes/shapes.h:376-389 | a sector adds its first triangle except on the first stack, and its second except on the last stack |
| Shapes.GenerateSphere | ozz_vulkanxr/include/ozz_vulkan/brushes/shapes.h:318-394 | (stacks+1)(sectors+1) vertices, vertex v at stack v/(sectors+1) and sector v%(sectors+1); the indices are `SphereIndices` |
| Shapes.DefaultSphere | ozz_vulkanxr/include/ozz_vulkan/brushes/shapes.h:318 | the default 50 sectors and 50 stacks give 2601 vertices and 14700 indices, within the 32-bit bounds |
| Shapes.SphereRings | ozz_vulkanxr/include/ozz_vulkan/brushes/shapes.h:330-365 | the vertex loop emits (stacks+1)(sectors+1) vertices, vertex v at stack v/(sectors+1) and sector v%(sectors+1) |
| Shapes.SphereRing | ozz_vulkanxr/include/ozz_vulkan/brushes/shapes.h:340-364 | the inner vertex loop emits sectors+1 vertices of one stack, in sector order |
| Shapes.RingsAppend | ozz_vulkanxr/include/ozz_vulkan/brushes/shapes.h:330-365 | appending the next stack's ring keeps every vertex at its grid position |
| Shapes.SphereTriangles | ozz_vulkanxr/include/ozz_vulkan/brushes/shapes.h:367-391 | the index loop, with its k1/k2 counters, emits exactly `SphereIndices` |
| Shapes.StackIndicesStep | ozz_vulkanxr/include/ozz_vulkan/brushes/shapes.h:372-390 | one more sector of a stack appends that sector's triangles |
| Shapes.GridPosition | ozz_vulkanxr/include/ozz_vulkan/brushes/shapes.h:330-365 | the grid index of stack i and sector j determines i and j |
| Shapes.StackIndicesCount | ozz_vulkanxr/include/ozz_vulkan/brushes/shapes.h:372-390 | the number of indices of the first n sectors of a stack |
| Shapes.SphereIndicesUpToCount | ozz_vulkanxr/include/ozz_vulkan/brushes/shapes.h:367-391 | the number of indices of the first m stacks |
| Shapes.StackIndicesTriples | ozz_vulkanxr/include/ozz_vulkan/brushes/shapes.h:376-389 | a stack contributes whole triangles only |
| Shapes.SphereIndicesUpToTriples | ozz_vulkanxr/include/ozz_vulkan/brushes/shapes.h:367-391 | the first m stacks contribute whole triangles only |
| Shapes.SphereIndexCount | ozz_vulkanxr/include/ozz_vulkan/brushes/shapes.h:367-391 | 6·sectors·(stacks−1) indices for stacks ≥ 1 (none for 0), a multiple of 3 |
| Shapes.StackIndicesBound | ozz_vulkanxr/include/ozz_vulkan/brushes/shapes.h:369-389 | the indices of stack i stay below the first vertex of stack i+2 |
| Shapes.SphereIndicesUpToBound | ozz_vulkanxr/include/ozz_vulkan/brushes/shapes.h:369-389 | the indices of the first m stacks stay below (m+1)(sectors+1) |
| Shapes.SphereIndicesInRange | ozz_vulkanxr/include/ozz_vulkan/brushes/shapes.h:369-389 | every generated index is below the vertex count (stacks+1)(sectors+1) |

Notes on the rows marked "see the note after this table":

- **PoolSpec.AcquireSpec**
  - When some slot is Available: the lowest such index is claimed, the pool keeps its size and no warning is logged.
  - Otherwise: exactly one claimed fresh slot is appended at the old size, and the warning is logged iff the pool now exceeds 5.
  - Every other slot is unchanged.
  - The claimed slot keeps its lists and fences; no fence is touched.
- **Session.ProcessEvent**
  - The loop stops exactly on STOPPING and on a READY whose begin failed.
  - IDLE clears the flag.
  - The flag is set by a successful begin and by SYNCHRONIZED, VISIBLE and FOCUSED.
  - Everything else leaves the flag as it was.
  - xrBeginSession is called only on READY, and xrEndSession only on STOPPING.
- **RendererModel.Renderer.GetAvailableFrameBufferCache**: the pool becomes `Acquire` of the old pool, and the returned index and warning follow it. The old slot objects stay in place, and the current slot, the flag and the handles are unchanged.
- **VkUtils.SelectColorSwapchainFormat**: the result is the first runtime format that is one of B8G8R8A8_SRGB, R8G8B8A8_SRGB, B8G8R8A8_UNORM and R8G8B8A8_UNORM. It is none iff there is no such format.
- **VkUtils.FindDepthFormat**: it prefers D32_SFLOAT, then D32_SFLOAT_S8_UINT, then D24_UNORM_S8_UINT. It uses optimal tiling and the depth-stencil-attachment feature, and returns UNDEFINED iff none of the three qualifies.
- **VkUtils.TransitionImageLayout**
  - The layouts and the image are copied, and both queue families are ignored.
  - The aspect is DEPTH iff the new layout is DEPTH_STENCIL_ATTACHMENT_OPTIMAL, and COLOR otherwise.
  - The mip range is 0/1 and the layer range is 0/1.
  - Stages are set iff the pair is supported, with that row's access and stage masks.
  - For an unsupported pair the access masks stay 0.

## Left out

- Vulkan and OpenXR bootstrap (`Init`, `initXrInstance` … `createFrameData`) is not modelled. It is a sequence of foreign create calls with log-only error handling.
- Composition-layer assembly, the poses and fields of view, `GetEyePoseInfo` and `GetHeadPosition` are not modelled. They are floating point and field copying. Only the outcome of xrLocateViews is modelled, as `FrameEnv.viewsLocated`. When it fails, `.value()` at `ozz_vulkanxr/src/renderer.cpp:102` throws std::bad_optional_access; the model's trace of that frame stops after `XrLocateViews`, and xrEndFrame is not called.
- Lifecycle.Apply: continues the lifecycle after a frame whose xrLocateViews failed. The program ends there instead: nothing in `Application::Run` catches the exception (`app/src/application.cpp:34-84`), and Run executes on a plain std::thread (`app/src/main.cpp:13-16`), so std::terminate ends the process. Every run of the program is therefore a prefix of a run of the model ending with that frame. So the properties proved for all runs (`StrandedForever`, `IdleLoopGrowsPool`, the corrected loop lemmas) hold for the program's runs as well.
- Lifecycle.LoopIteration: the early exit taken when Update reports that the loop must stop (`app/src/application.cpp:37-40`) is not modelled as a step. In the model, an iteration whose event stops the loop still runs BeginFrame through EndFrame, where the program leaves the loop. `IdleLoopGrowsPool` only takes events that do not stop the loop, and the corrected loop lemmas hold for every event, so both cover the program's own iterations.
- Lifecycle.LoopIterations: the loop in `app/src/application.cpp` is written against the older renderer interface (`ozz_vulkanxr/include/ozz_vulkan/renderer.h:29-34`). It ignores BeginFrame's result and calls RenderFrame without frame information. The model runs it against the newer `renderer.cpp`. The `info` argument of `RendererModel.Renderer.RenderFrame` is a free parameter, not tied to BeginFrame's result; in the lifecycle only the frame outcomes (`FrameEnv`) matter.
- `_pauseValidation`, the debug callback and all logging are not modelled. In particular, the flag staying set after a failed xrEndFrame is not modelled.
- The detached thread and one-second sleep that destroy the OpenXR instance are not modelled. The model destroys it synchronously, at the same point in the order.
- `WaitIdle` and the swapchain-image wrappers (`wrappedSwapchainImages`) are not modelled. They are a guarded foreign call and a container cleared during teardown.
- Command-buffer recording inside the foreign calls is not modelled: the render-pass attachment structs, the swapchain image index and the clear values. Only the order of the calls is tracked.
- `vkFreeCommandBuffers` and the per-buffer destructor are not modelled. A reclaim returns the freed list instead. The fences themselves are never destroyed in the source, so their destruction is not modelled either.
- Device, queue, render-pass and command-pool arguments are abstract. Two further choices follow the newer `.cpp`, which the header does not match:
  - the wait in `CheckAndClearCaches` is a poll with timeout 0;
  - the `cache->` call on a vector of values is read as a call on each slot.
- The second `transitionImageLayout` overload, the single-time command helpers, `vkEndCommandBuffer` at the end of the barrier helper, `createShaderModule` and the debug-messenger trampolines are not modelled. They only call into Vulkan.
- The positions, normals and texture coordinates of the meshes are not modelled; they are floating point. A sphere vertex is identified by its stack and sector. The unused `k1`/`k2` counters of the vertex loop are not modelled.
- Pointer aliasing is not modelled. The source holds the current slot as a pointer into a vector, and `emplace_back` may reallocate that vector. The model holds an index instead. The vector grows only inside `getAvailableFrameBufferCache` (`ozz_vulkanxr/include/ozz_vulkan/renderer.h:115`). BeginFrame at once overwrites the pointer with that call's result (`ozz_vulkanxr/src/renderer.cpp:41`), so no stale pointer is ever read.
- RendererModel.Renderer.RenderFrame: requires a current slot only for an eye that gets past vkBeginCommandBuffer. Such an eye dereferences the null slot pointer (`ozz_vulkanxr/src/renderer.cpp:238`), which is undefined behaviour. Every other path, including the early returns, is modelled for a missing slot too; `Lifecycle.Apply` returns none on the excluded case.
- RendererModel.Renderer.RenderEye: requires a current slot only when acquire, wait and begin succeed, for the same reason. The source logs when the slot is null and goes on.
- Shapes.GenerateSphere: the default radius of 1 is not modelled, because the radius only scales floating-point positions. The default sector and stack counts are modelled (`Shapes.DefaultSphere`).
- Shapes.GenerateSphere: requires sectors and stacks below 2^32−1 and a vertex count of at most 2^32. The source's `uint32_t` loop counters and indices would wrap otherwise, and the wrap-around is not modelled.
- VkUtils.SelectColorSwapchainFormat: returns none when no runtime format is supported. The source dereferences the end iterator there, which is undefined behaviour.
- VkUtils.TransitionImageLayout: for an unsupported pair the stage masks are none. In the source they are left uninitialised and passed to vkCmdPipelineBarrier.
- A failed vkBeginCommandBuffer, vkEndCommandBuffer or vkQueueSubmit returns without releasing the acquired swapchain image. The model reproduces this (no `ReleaseImage` step) but proves nothing about the runtime's image state.
- A failed vkCreateFence in the slot constructor is not modelled. The source only logs it, and the model assumes both fences exist.

## Findings

| source | as written | input that shows it | evidently intended | confidence | as-written member | corrected member |
|---|---|---|---|---|---|---|
| ozz_vulkanxr/src/renderer.cpp:39-42 | BeginFrame claims a slot before it checks the session flag, and EndFrame drops the slot without submitting anything for it. A fence that was never submitted is never signaled, and the reclaim in `CheckAndClearCaches` (`ozz_vulkanxr/include/ozz_vulkan/internal/frame_command_buffer_cache.h:35`) waits for both fences, so the slot is never reclaimed | any loop iteration while the session is not initialised (before READY, or after IDLE); also a frame whose eye fails before vkQueueSubmit | a slot returns to the pool once the GPU has finished with it (`Lifecycle.FlushedSlotComesBack`), so the pool stays bounded | not executed | Lifecycle.IdleLoopGrowsPool | Lifecycle.FlushedLoopStrandsNothing |
