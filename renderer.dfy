/** The renderer object: the pool of recording slots, the current slot, the
    session flag and the handles Cleanup releases. Each method is proved to
    follow the value-level functions of PoolSpec, FrameSpec, Session,
    Teardown and Lifecycle. */
module RendererModel {
  import opened Common
  import opened CacheSpec
  import opened FrameCache
  import opened PoolSpec
  import opened FrameSpec
  import Session
  import Teardown
  import Lifecycle

  class Renderer {
    var xrSessionInitialized: bool
    var frameCommandBufferCache: seq<FrameCommandBufferCache>
    var currentFrameBufferCache: Option<nat>

    var vkDevice: nat
    var commandPool: nat
    var swapchains: seq<nat>
    var xrApplicationSpace: nat
    var xrSession: nat
    var vmaAllocator: nat
    var vkDebugMessenger: nat
    var vkInstance: nat
    var xrSystemId: nat
    var xrInstance: nat

    /** The pool holds distinct slot objects and the current slot is one of them. */
    ghost predicate Valid()
      reads this
    {
      && (forall i, j :: 0 <= i < j < |frameCommandBufferCache| ==>
            frameCommandBufferCache[i] != frameCommandBufferCache[j])
      && (currentFrameBufferCache.Some? ==> currentFrameBufferCache.value < |frameCommandBufferCache|)
    }

    /** The abstract value of the pool. */
    ghost function Slots(): (r: seq<Slot>)
      reads this, frameCommandBufferCache
      ensures |r| == |frameCommandBufferCache|
    {
      seq(|frameCommandBufferCache|, i reads this, frameCommandBufferCache
            requires 0 <= i < |frameCommandBufferCache| => frameCommandBufferCache[i].Value())
    }

    ghost function State(): Lifecycle.RendererState
      reads this, frameCommandBufferCache
    {
      Lifecycle.RendererState(Slots(), currentFrameBufferCache, xrSessionInitialized)
    }

    ghost function Handles(): Teardown.Handles
      reads this
    {
      Teardown.Handles(vkDevice, commandPool, swapchains, xrApplicationSpace, xrSession,
                       vmaAllocator, vkDebugMessenger, vkInstance, xrSystemId, xrInstance)
    }

    /** The renderer after bootstrap: the handles it created, an empty pool,
        no current slot and no session yet. */
    constructor (h: Teardown.Handles)
      ensures Valid()
      ensures State() == Lifecycle.Initial
      ensures Handles() == h
    {
      xrSessionInitialized := false;
      frameCommandBufferCache := [];
      currentFrameBufferCache := None;
      vkDevice := h.device;
      commandPool := h.commandPool;
      swapchains := h.swapchains;
      xrApplicationSpace := h.space;
      xrSession := h.session;
      vmaAllocator := h.allocator;
      vkDebugMessenger := h.debugMessenger;
      vkInstance := h.instance;
      xrSystemId := h.xrSystemId;
      xrInstance := h.xrInstance;
    }

    /** getAvailableFrameBufferCache: the first Available slot is claimed, or
        a new slot is appended and claimed; `warned` says whether the growth
        warning was logged. */
    method GetAvailableFrameBufferCache() returns (k: nat, warned: bool)
      requires Valid()
      modifies this, frameCommandBufferCache
      ensures Valid()
      ensures Slots() == Acquire(old(Slots())).pool
      ensures k == Acquire(old(Slots())).index && warned == Acquire(old(Slots())).warned
      ensures k < |frameCommandBufferCache|
      ensures frameCommandBufferCache[..|old(frameCommandBufferCache)|] == old(frameCommandBufferCache)
      ensures currentFrameBufferCache == old(currentFrameBufferCache)
      ensures xrSessionInitialized == old(xrSessionInitialized) && Handles() == old(Handles())
    {
      ghost var p := Slots();
      var i := 0;
      while i < |frameCommandBufferCache|
        invariant 0 <= i <= |frameCommandBufferCache|
        invariant Slots() == p
        invariant forall j :: 0 <= j < i ==> !p[j].available
      {
        if frameCommandBufferCache[i].available {
          assert p[i] == frameCommandBufferCache[i].Value();
          assert FirstAvailable(p) == Some(i);
          frameCommandBufferCache[i].Claim();
          assert Slots() == p[i := Claimed(p[i])] by {
            forall j | 0 <= j < |p| ensures Slots()[j] == p[i := Claimed(p[i])][j] {
              if j != i {
                assert frameCommandBufferCache[j] != frameCommandBufferCache[i];
              }
            }
          }
          return i, false;
        }
        i := i + 1;
      }
      assert FirstAvailable(p) == None;
      var cache := new FrameCommandBufferCache();
      frameCommandBufferCache := frameCommandBufferCache + [cache];
      cache.Claim();
      k := |frameCommandBufferCache| - 1;
      warned := |frameCommandBufferCache| > GrowthWarningThreshold;
      assert Slots() == p + [Claimed(Fresh)] by {
        forall j | 0 <= j < |p| ensures Slots()[j] == p[j] {
          assert frameCommandBufferCache[j] != cache;
        }
      }
    }

    /** BeginFrame: claims a slot and makes it current first, then, on an
        initialised session, waits for the frame. */
    method BeginFrame(wait: WaitFrameResult) returns (info: Option<FrameInfo>, steps: seq<Step>)
      requires Valid()
      modifies this, frameCommandBufferCache
      ensures Valid()
      ensures State() == Lifecycle.BeginFrameState(old(State()))
      ensures info == BeginFrameInfo(xrSessionInitialized, wait)
      ensures steps == BeginFrameSteps(xrSessionInitialized)
      ensures Handles() == old(Handles())
    {
      var k, warned := GetAvailableFrameBufferCache();
      currentFrameBufferCache := Some(k);
      if !xrSessionInitialized {
        return None, [];
      }
      steps := [XrWaitFrame];
      match wait
      case WaitFrameFailed =>
        info := None;
      case FrameState(shouldRender, t) =>
        info := if shouldRender then Some(FrameInfo(t)) else None;
    }

    /** getCommandBufferForSubmission: the allocated handle, or null when the
        allocation failed; the outcome of the allocation is the parameter. */
    function GetCommandBufferForSubmission(allocation: Option<CommandBuffer>): (b: CommandBuffer)
      ensures allocation.None? ==> b == NullHandle
      ensures allocation.Some? ==> b == allocation.value
    {
      match allocation
      case None => NullHandle
      case Some(h) => h
    }

    /** RequestCommandBuffer: with no current slot, null and no change;
        otherwise a new secondary buffer (null if the allocation failed) is
        appended to the current slot's list for `target` and returned. */
    method RequestCommandBuffer(target: EyeTarget, allocation: Option<CommandBuffer>) returns (b: CommandBuffer)
      requires Valid()
      modifies frameCommandBufferCache
      ensures Valid()
      ensures Slots() == Lifecycle.RequestPool(old(State()), GetCommandBufferForSubmission(allocation), target)
      ensures b == Lifecycle.RequestResult(old(State()), GetCommandBufferForSubmission(allocation))
    {
      if currentFrameBufferCache.None? {
        return NullHandle;
      }
      ghost var p := Slots();
      var k := currentFrameBufferCache.value;
      b := GetCommandBufferForSubmission(allocation);
      frameCommandBufferCache[k].PushCommandBuffer(b, target);
      assert Slots() == p[k := Pushed(p[k], b, target)] by {
        forall j | 0 <= j < |p| ensures Slots()[j] == p[k := Pushed(p[k], b, target)][j] {
          if j != k {
            assert frameCommandBufferCache[j] != frameCommandBufferCache[k];
          }
        }
      }
    }

    /** renderEye for `eye` on the current slot: the eye's image is
        acquired and waited for, the primary buffer replays the eye's list
        and then the BOTH list, and is submitted with the eye's fence; the
        first failing call ends the eye. The slot is read only once the
        primary buffer was begun, so with no current slot the eye is defined
        as long as it returns before that. */
    method RenderEye(eye: EyeTarget, o: EyeOracle) returns (es: seq<Step>)
      requires Valid() && (currentFrameBufferCache.Some? || !ReadsSlot(o))
      modifies if currentFrameBufferCache.Some? then {frameCommandBufferCache[currentFrameBufferCache.value]} else {}
      ensures Valid()
      ensures es == EyeSteps(eye, EyeIndex(currentFrameBufferCache), EyeSlot(old(Slots()), currentFrameBufferCache), o)
      ensures Slots() == PoolAfterEye(old(Slots()), currentFrameBufferCache, eye, o)
    {
      ghost var p := Slots();
      if !o.acquireOk {
        return [Eye(eye, AcquireImage)];
      }
      if !o.waitOk {
        return [Eye(eye, AcquireImage), Eye(eye, WaitImage)];
      }
      var opening := [Eye(eye, AcquireImage), Eye(eye, WaitImage), Eye(eye, BeginCommandBuffer)];
      if !o.beginOk {
        return opening;
      }
      var k := currentFrameBufferCache.value;
      var recording := RecordEye(frameCommandBufferCache[k], eye);
      if !o.endOk {
        return opening + recording;
      }
      var fence := frameCommandBufferCache[k].GetFence(eye);
      var submit := Eye(eye, QueueSubmit(FenceRef(k, fence)));
      if !o.submitOk {
        return opening + recording + [submit];
      }
      SubmitFence(k, fence);
      es := opening + recording + [submit, Eye(eye, ReleaseImage)];
    }

    /** Dynamic rendering into the eye's image: the eye's secondary
        buffers, then the BOTH buffers, each only when there are any. */
    method RecordEye(cache: FrameCommandBufferCache, eye: EyeTarget) returns (recording: seq<Step>)
      ensures recording == Recording(eye, cache.Value())
    {
      recording := [Eye(eye, BeginRendering)];
      var eyeBuffers := cache.GetCommandBuffers(eye);
      if eyeBuffers != [] {
        recording := recording + [Eye(eye, ExecuteCommands(eyeBuffers))];
      }
      var bothBuffers := cache.GetCommandBuffers(Both);
      if bothBuffers != [] {
        recording := recording + [Eye(eye, ExecuteCommands(bothBuffers))];
      }
      recording := recording + [Eye(eye, EndRendering), Eye(eye, EndCommandBuffer)];
    }

    /** The submit of slot `k` made with fence `side`: that fence becomes
        pending and no other slot changes. */
    method SubmitFence(k: nat, side: FenceSide)
      requires Valid() && k < |frameCommandBufferCache|
      modifies frameCommandBufferCache[k]
      ensures Valid()
      ensures Slots() == old(Slots())[k := Submitted(old(Slots())[k], side)]
    {
      ghost var p := Slots();
      frameCommandBufferCache[k].MarkSubmitted(side);
      assert Slots() == p[k := Submitted(p[k], side)] by {
        forall j | 0 <= j < |p| ensures Slots()[j] == p[k := Submitted(p[k], side)][j] {
          if j != k {
            assert frameCommandBufferCache[j] != frameCommandBufferCache[k];
          }
        }
      }
    }

    /** RenderFrame: reclaim every slot, then stop unless the session is
        initialised and xrBeginFrame succeeds, then render eye 0 and eye 1,
        locate the views and end the frame at the predicted display time. */
    method RenderFrame(info: FrameInfo, env: FrameEnv) returns (steps: seq<Step>)
      requires Valid() && Lifecycle.CanRender(State(), env)
      modifies frameCommandBufferCache
      ensures Valid()
      ensures State() == Lifecycle.RenderFrameState(old(State()), env)
      ensures steps == FrameSteps(old(Slots()), currentFrameBufferCache, xrSessionInitialized, info, env)
    {
      ghost var p := Slots();
      steps := ReclaimSlots();
      if !xrSessionInitialized {
        assert steps + [] == steps;
        return;
      }
      if !env.beginFrameOk {
        steps := steps + [XrBeginFrame];
        return;
      }
      var eyes := RenderEyes(env);
      var render := [XrBeginFrame] + eyes;
      assert render == [XrBeginFrame] + LeftSteps(ReclaimAll(p), currentFrameBufferCache, env) +
                       RightSteps(ReclaimAll(p), currentFrameBufferCache, env);
      var close := [XrLocateViews(info.predictedDisplayTime)];
      if env.viewsLocated {
        close := close + [XrEndFrame(info.predictedDisplayTime)];
      }
      assert close == CloseSteps(info, env);
      steps := steps + (render + close);
    }

    /** The eye loop of RenderFrame: eye 0 and then eye 1 on the current slot. */
    method RenderEyes(env: FrameEnv) returns (steps: seq<Step>)
      requires Valid()
      requires currentFrameBufferCache.Some? || (!ReadsSlot(env.leftEye) && !ReadsSlot(env.rightEye))
      modifies frameCommandBufferCache
      ensures Valid()
      ensures steps == LeftSteps(old(Slots()), currentFrameBufferCache, env) +
                       RightSteps(old(Slots()), currentFrameBufferCache, env)
      ensures Slots() == PoolAfterEye(PoolAfterEye(old(Slots()), currentFrameBufferCache, Left, env.leftEye),
                                      currentFrameBufferCache, Right, env.rightEye)
    {
      ghost var q := Slots();
      ghost var c := currentFrameBufferCache;
      steps := [];
      for eye := 0 to EyeCount
        invariant Valid() && |Slots()| == |q| && currentFrameBufferCache == c
        invariant eye == 0 ==> steps == [] && Slots() == q
        invariant eye == 1 ==> steps == LeftSteps(q, c, env) && Slots() == PoolAfterEye(q, c, Left, env.leftEye)
        invariant eye == 2 ==> steps == LeftSteps(q, c, env) + RightSteps(q, c, env) &&
                               Slots() == PoolAfterEye(PoolAfterEye(q, c, Left, env.leftEye), c, Right, env.rightEye)
      {
        ghost var before := Slots();
        var es := RenderEye(EyeOf(eye), if eye == 0 then env.leftEye else env.rightEye);
        if eye == 1 {
          assert EyeSlot(before, c) == SlotAfterEye(EyeSlot(q, c), Left, env.leftEye);
        }
        steps := steps + es;
      }
    }

    /** The reclaim pass of RenderFrame: every slot is polled in pool order. */
    method ReclaimSlots() returns (steps: seq<Step>)
      requires Valid()
      modifies frameCommandBufferCache
      ensures Valid()
      ensures Slots() == ReclaimAll(old(Slots()))
      ensures steps == ReclaimSteps(old(Slots()))
    {
      ghost var p := Slots();
      steps := [];
      for i := 0 to |frameCommandBufferCache|
        invariant Valid()
        invariant |steps| == i
        invariant forall j :: 0 <= j < i ==> steps[j] == CheckSlot(j, CheckAndClear(p[j]).outcome)
        invariant forall j :: 0 <= j < i ==> frameCommandBufferCache[j].Value() == CheckAndClear(p[j]).slot
        invariant forall j :: i <= j < |p| ==> frameCommandBufferCache[j].Value() == p[j]
      {
        var outcome := frameCommandBufferCache[i].CheckAndClearCaches();
        steps := steps + [CheckSlot(i, outcome)];
      }
    }

    /** EndFrame drops the reference to the current slot, nothing else. */
    method EndFrame()
      modifies this
      ensures State() == Lifecycle.EndFrameState(old(State()))
      ensures frameCommandBufferCache == old(frameCommandBufferCache) && Handles() == old(Handles())
    {
      currentFrameBufferCache := None;
    }

    /** processXREvents: one event updates the session flag; the result
        tells the loop whether to stop. */
    method ProcessXREvents(poll: Session.PollResult, beginOk: bool) returns (stop: bool, calls: seq<Session.SessionCall>)
      modifies this
      ensures State() == Lifecycle.EventState(old(State()), poll, beginOk)
      ensures stop == Session.ProcessEvent(poll, beginOk, old(xrSessionInitialized)).stop
      ensures calls == Session.ProcessEvent(poll, beginOk, old(xrSessionInitialized)).calls
      ensures frameCommandBufferCache == old(frameCommandBufferCache) && Handles() == old(Handles())
    {
      var outcome := Session.ProcessEvent(poll, beginOk, xrSessionInitialized);
      xrSessionInitialized := outcome.initialized;
      return outcome.stop, outcome.calls;
    }

    /** Update handles one OpenXR event. */
    method Update(poll: Session.PollResult, beginOk: bool) returns (stop: bool)
      modifies this
      ensures State() == Lifecycle.EventState(old(State()), poll, beginOk)
      ensures stop == Session.ProcessEvent(poll, beginOk, old(xrSessionInitialized)).stop
      ensures frameCommandBufferCache == old(frameCommandBufferCache) && Handles() == old(Handles())
    {
      var calls;
      stop, calls := ProcessXREvents(poll, beginOk);
    }

    /** Environment action: the GPU completes the work guarded by fence
        `side` of slot `k`. */
    method GpuCompletesFence(k: nat, side: FenceSide)
      requires Valid()
      modifies frameCommandBufferCache
      ensures Valid()
      ensures State() == Lifecycle.GpuState(old(State()), k, side)
    {
      if k < |frameCommandBufferCache| {
        ghost var p := Slots();
        frameCommandBufferCache[k].GpuCompletes(side);
        assert Slots() == p[k := Completed(p[k], side)] by {
          forall j | 0 <= j < |p| ensures Slots()[j] == p[k := Completed(p[k], side)][j] {
            if j != k {
              assert frameCommandBufferCache[j] != frameCommandBufferCache[k];
            }
          }
        }
      }
    }

    /** Cleanup: drops the pool and the current slot, then releases every
        handle in the teardown order and resets it to null. */
    method Cleanup() returns (calls: seq<Teardown.TeardownCall>)
      modifies this
      ensures Valid()
      ensures calls == Teardown.TeardownCalls(old(Handles()))
      ensures Handles() == Teardown.Released
      ensures frameCommandBufferCache == [] && currentFrameBufferCache.None?
      ensures xrSessionInitialized == old(xrSessionInitialized)
    {
      ghost var h := Handles();
      calls := [Teardown.DeviceWaitIdle(vkDevice)];
      currentFrameBufferCache := None;
      frameCommandBufferCache := [];
      if commandPool != NullHandle {
        calls := calls + [Teardown.DestroyCommandPool(commandPool)];
        commandPool := NullHandle;
      }
      ghost var prefix := calls;
      assert prefix == [Teardown.DeviceWaitIdle(h.device)] +
                       Teardown.IfLive(h.commandPool, Teardown.DestroyCommandPool(h.commandPool));
      for i := 0 to |swapchains|
        invariant calls == prefix + Teardown.SwapchainCalls(swapchains[..i])
      {
        calls := calls + [Teardown.DestroySwapchain(swapchains[i])];
        assert swapchains[..i + 1] == swapchains[..i] + [swapchains[i]];
      }
      assert swapchains[..|swapchains|] == swapchains;
      swapchains := [];
      ghost var released := calls;
      assert released == [Teardown.DeviceWaitIdle(h.device)] +
                         Teardown.IfLive(h.commandPool, Teardown.DestroyCommandPool(h.commandPool)) +
                         Teardown.SwapchainCalls(h.swapchains);
      calls := ReleaseSessionHandles(calls);
      assert calls == released +
        Teardown.IfLive(h.space, Teardown.DestroySpace(h.space)) +
        Teardown.IfLive(h.session, Teardown.DestroySession(h.session)) +
        Teardown.IfLive(h.allocator, Teardown.DestroyAllocator(h.allocator));
      calls := ReleaseInstanceHandles(calls);
    }

    /** The part of Cleanup after the swapchains, from the reference space
        to the allocator: each handle that is set is destroyed, after the
        calls `pre` already made, and reset to null. */
    method ReleaseSessionHandles(pre: seq<Teardown.TeardownCall>) returns (calls: seq<Teardown.TeardownCall>)
      modifies this
      ensures calls == pre +
        Teardown.IfLive(old(xrApplicationSpace), Teardown.DestroySpace(old(xrApplicationSpace))) +
        Teardown.IfLive(old(xrSession), Teardown.DestroySession(old(xrSession))) +
        Teardown.IfLive(old(vmaAllocator), Teardown.DestroyAllocator(old(vmaAllocator)))
      ensures xrApplicationSpace == NullHandle && xrSession == NullHandle && vmaAllocator == NullHandle
      ensures vkDevice == old(vkDevice) && vkDebugMessenger == old(vkDebugMessenger)
      ensures vkInstance == old(vkInstance) && xrSystemId == old(xrSystemId) && xrInstance == old(xrInstance)
      ensures commandPool == old(commandPool) && swapchains == old(swapchains)
      ensures frameCommandBufferCache == old(frameCommandBufferCache)
      ensures currentFrameBufferCache == old(currentFrameBufferCache)
      ensures xrSessionInitialized == old(xrSessionInitialized)
    {
      calls := pre;
      if xrApplicationSpace != NullHandle {
        calls := calls + [Teardown.DestroySpace(xrApplicationSpace)];
        xrApplicationSpace := NullHandle;
      }
      assert calls == pre + Teardown.IfLive(old(xrApplicationSpace), Teardown.DestroySpace(old(xrApplicationSpace)));
      ghost var c1 := calls;
      if xrSession != NullHandle {
        calls := calls + [Teardown.DestroySession(xrSession)];
        xrSession := NullHandle;
      }
      assert calls == c1 + Teardown.IfLive(old(xrSession), Teardown.DestroySession(old(xrSession)));
      ghost var c2 := calls;
      if vmaAllocator != NullHandle {
        calls := calls + [Teardown.DestroyAllocator(vmaAllocator)];
        vmaAllocator := NullHandle;
      }
      assert calls == c2 + Teardown.IfLive(old(vmaAllocator), Teardown.DestroyAllocator(old(vmaAllocator)));
    }

    /** The rest of Cleanup: device, debug messenger, Vulkan instance, the
        system id and the OpenXR instance, in that order. */
    method ReleaseInstanceHandles(pre: seq<Teardown.TeardownCall>) returns (calls: seq<Teardown.TeardownCall>)
      modifies this
      ensures calls == pre +
        Teardown.IfLive(old(vkDevice), Teardown.DestroyDevice(old(vkDevice))) +
        Teardown.IfLive(old(vkDebugMessenger), Teardown.DestroyDebugMessenger(old(vkDebugMessenger))) +
        Teardown.IfLive(old(vkInstance), Teardown.DestroyInstance(old(vkInstance))) +
        Teardown.IfLive(old(xrInstance), Teardown.DestroyXrInstance(old(xrInstance)))
      ensures vkDevice == NullHandle && vkDebugMessenger == NullHandle && vkInstance == NullHandle
      ensures xrSystemId == NullHandle && xrInstance == NullHandle
      ensures xrApplicationSpace == old(xrApplicationSpace) && xrSession == old(xrSession)
      ensures vmaAllocator == old(vmaAllocator)
      ensures commandPool == old(commandPool) && swapchains == old(swapchains)
      ensures frameCommandBufferCache == old(frameCommandBufferCache)
      ensures currentFrameBufferCache == old(currentFrameBufferCache)
      ensures xrSessionInitialized == old(xrSessionInitialized)
    {
      calls := pre;
      if vkDevice != NullHandle {
        calls := calls + [Teardown.DestroyDevice(vkDevice)];
        vkDevice := NullHandle;
      }
      assert calls == pre + Teardown.IfLive(old(vkDevice), Teardown.DestroyDevice(old(vkDevice)));
      ghost var c1 := calls;
      if vkDebugMessenger != NullHandle {
        calls := calls + [Teardown.DestroyDebugMessenger(vkDebugMessenger)];
        vkDebugMessenger := NullHandle;
      }
      assert calls == c1 + Teardown.IfLive(old(vkDebugMessenger), Teardown.DestroyDebugMessenger(old(vkDebugMessenger)));
      ghost var c2 := calls;
      if vkInstance != NullHandle {
        calls := calls + [Teardown.DestroyInstance(vkInstance)];
        vkInstance := NullHandle;
      }
      assert calls == c2 + Teardown.IfLive(old(vkInstance), Teardown.DestroyInstance(old(vkInstance)));
      xrSystemId := NullHandle;
      ghost var c3 := calls;
      if xrInstance != NullHandle {
        calls := calls + [Teardown.DestroyXrInstance(xrInstance)];
        xrInstance := NullHandle;
      }
      assert calls == c3 + Teardown.IfLive(old(xrInstance), Teardown.DestroyXrInstance(old(xrInstance)));
    }
  }
}
