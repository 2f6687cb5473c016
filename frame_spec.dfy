/** The frame lifecycle at the level of values: the calls a frame makes into
    OpenXR and Vulkan (as a trace of steps), the per-eye submission protocol,
    and what BeginFrame, RenderFrame and the eye protocol promise. The
    outcomes of the foreign calls are parameters (oracles). */
module FrameSpec {
  import opened Common
  import opened CacheSpec
  import opened PoolSpec

  /** A fence of the pool: the slot that owns it and which of its two fences. */
  datatype FenceRef = FenceRef(slot: nat, side: FenceSide)

  /** The calls renderEye makes for one eye. */
  datatype EyeCall =
    | AcquireImage
    | WaitImage
    | BeginCommandBuffer
    | BeginRendering
    | ExecuteCommands(buffers: seq<CommandBuffer>)
    | EndRendering
    | EndCommandBuffer
    | QueueSubmit(fence: FenceRef)
    | ReleaseImage

  /** The foreign calls of a frame, in the order they are made. */
  datatype Step =
    | XrWaitFrame
    | CheckSlot(slot: nat, outcome: ReclaimOutcome)
    | XrBeginFrame
    | Eye(eye: EyeTarget, call: EyeCall)
    | XrLocateViews(displayTime: int)
    | XrEndFrame(displayTime: int)

  predicate IsExecute(st: Step)
  {
    st.Eye? && st.call.ExecuteCommands?
  }

  predicate IsSubmit(st: Step)
  {
    st.Eye? && st.call.QueueSubmit?
  }

  // ---------------------------------------------------------------- BeginFrame

  /** What xrWaitFrame reports. */
  datatype WaitFrameResult = WaitFrameFailed | FrameState(shouldRender: bool, predictedDisplayTime: int)

  datatype FrameInfo = FrameInfo(predictedDisplayTime: int)

  /** The value BeginFrame returns once it has claimed a slot. */
  function BeginFrameInfo(initialized: bool, wait: WaitFrameResult): (r: Option<FrameInfo>)
    ensures r.Some? <==> initialized && wait.FrameState? && wait.shouldRender
    ensures r.Some? ==> r.value.predictedDisplayTime == wait.predictedDisplayTime
  {
    if !initialized then None
    else match wait
      case WaitFrameFailed => None
      case FrameState(shouldRender, t) => if shouldRender then Some(FrameInfo(t)) else None
  }

  /** The foreign calls of BeginFrame: xrWaitFrame only on an initialised session. */
  function BeginFrameSteps(initialized: bool): (r: seq<Step>)
    ensures XrWaitFrame in r <==> initialized
  {
    if initialized then [XrWaitFrame] else []
  }

  // ------------------------------------------------------ eye submission protocol

  /** The results of the checked calls of one renderEye run: image acquire,
      image wait, vkBeginCommandBuffer, vkEndCommandBuffer and vkQueueSubmit.
      The result of the final image release is only logged. */
  datatype EyeOracle = EyeOracle(acquireOk: bool, waitOk: bool, beginOk: bool, endOk: bool, submitOk: bool)

  function ExecuteIfAny(eye: EyeTarget, bufs: seq<CommandBuffer>): seq<Step>
  {
    if bufs == [] then [] else [Eye(eye, ExecuteCommands(bufs))]
  }

  /** Acquire the swapchain image, wait for it, begin the primary buffer. */
  function Opening(eye: EyeTarget): (r: seq<Step>)
    ensures |r| == 3 && r[0] == Eye(eye, AcquireImage)
    ensures forall st :: st in r ==> st.Eye? && st.eye == eye && !IsExecute(st) && !IsSubmit(st)
  {
    [Eye(eye, AcquireImage), Eye(eye, WaitImage), Eye(eye, BeginCommandBuffer)]
  }

  /** Dynamic rendering into the eye's image: the eye's own secondary
      buffers, then the BOTH buffers, each list only when it is non-empty. */
  function Recording(eye: EyeTarget, s: Slot): (r: seq<Step>)
    ensures |r| > 0 && r[0] == Eye(eye, BeginRendering)
    ensures forall st :: st in r && IsExecute(st) ==>
              st.call.buffers != [] && (st.call.buffers == Lists(s, eye) || st.call.buffers == Lists(s, Both))
  {
    [Eye(eye, BeginRendering)] + ExecuteIfAny(eye, Lists(s, eye)) + ExecuteIfAny(eye, Lists(s, Both)) +
    [Eye(eye, EndRendering), Eye(eye, EndCommandBuffer)]
  }

  /** Submit with the eye's fence of slot `k`, then release the image. */
  function Closing(eye: EyeTarget, k: nat, o: EyeOracle): (r: seq<Step>)
    ensures Eye(eye, QueueSubmit(FenceRef(k, FenceFor(eye)))) in r <==> o.endOk
    ensures Eye(eye, ReleaseImage) in r <==> o.endOk && o.submitOk
    ensures forall st :: st in r ==> st.Eye? && st.eye == eye && !IsExecute(st)
  {
    if !o.endOk then []
    else if !o.submitOk then [Eye(eye, QueueSubmit(FenceRef(k, FenceFor(eye))))]
    else [Eye(eye, QueueSubmit(FenceRef(k, FenceFor(eye)))), Eye(eye, ReleaseImage)]
  }

  /** renderEye for slot `k` holding `s`: each failing check returns at once. */
  function EyeSteps(eye: EyeTarget, k: nat, s: Slot, o: EyeOracle): (r: seq<Step>)
    ensures |r| > 0 && r[0] == Eye(eye, AcquireImage)
    ensures Eye(eye, ReleaseImage) in r <==> Submits(o)
  {
    if !o.acquireOk then [Eye(eye, AcquireImage)]
    else if !o.waitOk then [Eye(eye, AcquireImage), Eye(eye, WaitImage)]
    else if !o.beginOk then Opening(eye)
    else RecordingSteps(eye, s); Opening(eye) + Recording(eye, s) + Closing(eye, k, o)
  }

  lemma RecordingSteps(eye: EyeTarget, s: Slot)
    ensures forall st :: st in Recording(eye, s) ==>
              st.Eye? && st.eye == eye && !st.call.AcquireImage? && !st.call.WaitImage? &&
              !st.call.BeginCommandBuffer? && !st.call.QueueSubmit? && !st.call.ReleaseImage?
    ensures Eye(eye, EndCommandBuffer) in Recording(eye, s)
  {
    var r := Recording(eye, s);
    assert r[|r| - 1] == Eye(eye, EndCommandBuffer);
  }

  predicate Submits(o: EyeOracle)
  {
    o.acquireOk && o.waitOk && o.beginOk && o.endOk && o.submitOk
  }

  /** Whether renderEye gets as far as reading the current slot: it reads
      it only once the image was acquired and waited for and the primary
      buffer was begun. */
  predicate ReadsSlot(o: EyeOracle)
  {
    o.acquireOk && o.waitOk && o.beginOk
  }

  /** The slot after renderEye: the eye's fence is pending iff the submit happened. */
  function SlotAfterEye(s: Slot, eye: EyeTarget, o: EyeOracle): (r: Slot)
    ensures forall t :: Lists(r, t) == Lists(s, t)
    ensures r.available == s.available
    ensures Fence(r, FenceFor(eye)) == (if Submits(o) then Pending else Fence(s, FenceFor(eye)))
    ensures forall side :: side != FenceFor(eye) ==> Fence(r, side) == Fence(s, side)
  {
    if Submits(o) then Submitted(s, FenceFor(eye)) else s
  }

  /** The checked call that ends stage `n` of the protocol. */
  function CheckedCall(eye: EyeTarget, k: nat, n: nat): Step
    requires n < 5
  {
    match n
    case 0 => Eye(eye, AcquireImage)
    case 1 => Eye(eye, WaitImage)
    case 2 => Eye(eye, BeginCommandBuffer)
    case 3 => Eye(eye, EndCommandBuffer)
    case 4 => Eye(eye, QueueSubmit(FenceRef(k, FenceFor(eye))))
  }

  /** The first `n` checked calls of the protocol succeeded. */
  predicate Passed(o: EyeOracle, n: nat)
  {
    && (n > 0 ==> o.acquireOk)
    && (n > 1 ==> o.waitOk)
    && (n > 2 ==> o.beginOk)
    && (n > 3 ==> o.endOk)
    && (n > 4 ==> o.submitOk)
  }

  /** Every step of renderEye is a step of that eye. */
  lemma EyeStepsBelongToEye(eye: EyeTarget, k: nat, s: Slot, o: EyeOracle)
    ensures forall st :: st in EyeSteps(eye, k, s, o) ==> st.Eye? && st.eye == eye
  {
    RecordingSteps(eye, s);
  }

  /** Early return: the checked call of stage `n` is made exactly when the
      checks of all earlier stages succeeded, and the image is released
      exactly when all five succeeded. */
  lemma EyeEarlyReturn(eye: EyeTarget, k: nat, s: Slot, o: EyeOracle)
    ensures forall n :: 0 <= n < 5 ==> (CheckedCall(eye, k, n) in EyeSteps(eye, k, s, o) <==> Passed(o, n))
    ensures Eye(eye, ReleaseImage) in EyeSteps(eye, k, s, o) <==> Passed(o, 5)
  {
    RecordingSteps(eye, s);
    var steps := EyeSteps(eye, k, s, o);
    if o.acquireOk && o.waitOk && o.beginOk {
      assert steps == Opening(eye) + Recording(eye, s) + Closing(eye, k, o);
    }
  }

  /** The submit of an eye always signals that eye's own fence of the current
      slot, and it is made exactly when the four checks before it succeeded. */
  lemma EyeSubmitFence(eye: EyeTarget, k: nat, s: Slot, o: EyeOracle)
    ensures forall st :: st in EyeSteps(eye, k, s, o) && IsSubmit(st) ==>
              st.call.fence == FenceRef(k, FenceFor(eye))
    ensures (exists st :: st in EyeSteps(eye, k, s, o) && IsSubmit(st)) <==>
              o.acquireOk && o.waitOk && o.beginOk && o.endOk
  {
    RecordingSteps(eye, s);
    var steps := EyeSteps(eye, k, s, o);
    if o.acquireOk && o.waitOk && o.beginOk && o.endOk {
      assert Eye(eye, QueueSubmit(FenceRef(k, FenceFor(eye)))) in Closing(eye, k, o);
      assert Eye(eye, QueueSubmit(FenceRef(k, FenceFor(eye)))) in steps;
    }
  }

  /** The buffers replayed by the ExecuteCommands steps, in order. */
  function Executed(steps: seq<Step>): seq<CommandBuffer>
  {
    if steps == [] then []
    else (if IsExecute(steps[0]) then steps[0].call.buffers else []) + Executed(steps[1..])
  }

  lemma {:induction false} ExecutedAppend(a: seq<Step>, b: seq<Step>)
    ensures Executed(a + b) == Executed(a) + Executed(b)
  {
    if a == [] {
      assert a + b == b;
    } else {
      assert (a + b)[1..] == a[1..] + b;
      ExecutedAppend(a[1..], b);
    }
  }

  /** The body of renderEye between a successful vkBeginCommandBuffer and its end. */
  lemma EyeStepsShape(eye: EyeTarget, k: nat, s: Slot, o: EyeOracle)
    requires o.acquireOk && o.waitOk && o.beginOk
    ensures EyeSteps(eye, k, s, o) ==
            (Opening(eye) + [Eye(eye, BeginRendering)]) + ExecuteIfAny(eye, Lists(s, eye)) +
            ExecuteIfAny(eye, Lists(s, Both)) + ([Eye(eye, EndRendering), Eye(eye, EndCommandBuffer)] + Closing(eye, k, o))
    ensures forall st :: st in Opening(eye) + [Eye(eye, BeginRendering)] ==> !IsExecute(st)
    ensures forall st :: st in [Eye(eye, EndRendering), Eye(eye, EndCommandBuffer)] + Closing(eye, k, o) ==> !IsExecute(st)
  {
    var ex1 := ExecuteIfAny(eye, Lists(s, eye));
    var ex2 := ExecuteIfAny(eye, Lists(s, Both));
    var tail: seq<Step> := [Eye(eye, EndRendering), Eye(eye, EndCommandBuffer)];
    assert Recording(eye, s) == [Eye(eye, BeginRendering)] + ex1 + ex2 + tail;
    assert EyeSteps(eye, k, s, o) == Opening(eye) + ([Eye(eye, BeginRendering)] + ex1 + ex2 + tail) + Closing(eye, k, o);
  }

  /** The buffers replayed for an eye, once acquire, wait and begin succeed:
      the eye's own list followed by the BOTH list. */
  lemma EyeReplayedBuffers(eye: EyeTarget, k: nat, s: Slot, o: EyeOracle)
    requires o.acquireOk && o.waitOk && o.beginOk
    ensures Executed(EyeSteps(eye, k, s, o)) == Lists(s, eye) + Lists(s, Both)
  {
    EyeStepsShape(eye, k, s, o);
    ExecutedOfReplay(Opening(eye) + [Eye(eye, BeginRendering)], eye, Lists(s, eye), Lists(s, Both),
                     [Eye(eye, EndRendering), Eye(eye, EndCommandBuffer)] + Closing(eye, k, o));
  }

  /** The buffers a single replay step executes. */
  lemma ExecutedOfExecuteIfAny(eye: EyeTarget, bufs: seq<CommandBuffer>)
    ensures Executed(ExecuteIfAny(eye, bufs)) == bufs
  {
    var ex := ExecuteIfAny(eye, bufs);
    if ex != [] {
      assert ex[1..] == [];
    }
  }

  /** Two replays between steps that execute nothing execute their two lists. */
  lemma ExecutedOfReplay(head: seq<Step>, eye: EyeTarget, l1: seq<CommandBuffer>, l2: seq<CommandBuffer>, tail: seq<Step>)
    requires forall st :: st in head ==> !IsExecute(st)
    requires forall st :: st in tail ==> !IsExecute(st)
    ensures Executed(head + ExecuteIfAny(eye, l1) + ExecuteIfAny(eye, l2) + tail) == l1 + l2
  {
    var ex1 := ExecuteIfAny(eye, l1);
    var ex2 := ExecuteIfAny(eye, l2);
    NoExecuteNoneReplayed(head);
    NoExecuteNoneReplayed(tail);
    ExecutedOfExecuteIfAny(eye, l1);
    ExecutedOfExecuteIfAny(eye, l2);
    ExecutedAppend(head, ex1);
    assert Executed(head + ex1) == l1;
    ExecutedAppend(head + ex1, ex2);
    assert Executed(head + ex1 + ex2) == l1 + l2;
    ExecutedAppend(head + ex1 + ex2, tail);
    assert Executed(tail) == [];
  }

  /** An empty list is not replayed at all. */
  lemma EyeReplaySkipsEmpty(eye: EyeTarget, k: nat, s: Slot, o: EyeOracle)
    ensures forall st :: st in EyeSteps(eye, k, s, o) && IsExecute(st) ==>
              st.call.buffers != [] && (st.call.buffers == Lists(s, eye) || st.call.buffers == Lists(s, Both))
  {
    if o.acquireOk && o.waitOk && o.beginOk {
      EyeStepsShape(eye, k, s, o);
    }
  }

  /** Of two replays between steps that execute nothing, the earlier
      executes the first list and the later the second. */
  lemma ReplayOrderOfParts(head: seq<Step>, eye: EyeTarget, l1: seq<CommandBuffer>, l2: seq<CommandBuffer>, tail: seq<Step>)
    requires forall st :: st in head ==> !IsExecute(st)
    requires forall st :: st in tail ==> !IsExecute(st)
    ensures var steps := head + ExecuteIfAny(eye, l1) + ExecuteIfAny(eye, l2) + tail;
      forall i, j :: (0 <= i < j < |steps| && IsExecute(steps[i]) && IsExecute(steps[j])) ==>
        steps[i].call.buffers == l1 && steps[j].call.buffers == l2
  {
    var ex1 := ExecuteIfAny(eye, l1);
    var ex2 := ExecuteIfAny(eye, l2);
    var steps := head + ex1 + ex2 + tail;
    var mid := |head| + |ex1|;
    var end := mid + |ex2|;
    assert forall m :: 0 <= m < |head| ==> !IsExecute(steps[m]) by {
      forall m | 0 <= m < |head| ensures !IsExecute(steps[m]) {
        assert steps[m] == head[m];
        assert head[m] in head;
      }
    }
    assert forall m :: end <= m < |steps| ==> !IsExecute(steps[m]) by {
      forall m | end <= m < |steps| ensures !IsExecute(steps[m]) {
        assert steps[m] == tail[m - end];
        assert tail[m - end] in tail;
      }
    }
    assert forall m :: |head| <= m < mid ==> steps[m].call.buffers == l1 by {
      forall m | |head| <= m < mid ensures steps[m].call.buffers == l1 {
        assert steps[m] == ex1[m - |head|];
      }
    }
    assert forall m :: mid <= m < end ==> steps[m].call.buffers == l2 by {
      forall m | mid <= m < end ensures steps[m].call.buffers == l2 {
        assert steps[m] == ex2[m - mid];
      }
    }
  }

  /** Replay order within an eye: of two replays, the earlier is the eye's
      own list and the later is the BOTH list. */
  lemma EyeReplayOrder(eye: EyeTarget, k: nat, s: Slot, o: EyeOracle)
    ensures var steps := EyeSteps(eye, k, s, o);
      forall i, j :: (0 <= i < j < |steps| && IsExecute(steps[i]) && IsExecute(steps[j])) ==>
        steps[i].call.buffers == Lists(s, eye) && steps[j].call.buffers == Lists(s, Both)
  {
    var steps := EyeSteps(eye, k, s, o);
    if o.acquireOk && o.waitOk && o.beginOk {
      EyeStepsShape(eye, k, s, o);
      ReplayOrderOfParts(Opening(eye) + [Eye(eye, BeginRendering)], eye, Lists(s, eye), Lists(s, Both),
                         [Eye(eye, EndRendering), Eye(eye, EndCommandBuffer)] + Closing(eye, k, o));
    } else {
      assert forall i :: 0 <= i < |steps| ==> !IsExecute(steps[i]);
    }
  }

  lemma {:induction false} NoExecuteNoneReplayed(steps: seq<Step>)
    requires forall st :: st in steps ==> !IsExecute(st)
    ensures Executed(steps) == []
  {
    if steps != [] {
      assert steps[0] in steps;
      assert forall st :: st in steps[1..] ==> st in steps;
      NoExecuteNoneReplayed(steps[1..]);
    }
  }

  /** renderEye only looks at the slot's lists, not at its fences or flag. */
  lemma EyeStepsReadOnlyLists(eye: EyeTarget, k: nat, s: Slot, s': Slot, o: EyeOracle)
    requires forall t :: Lists(s, t) == Lists(s', t)
    ensures EyeSteps(eye, k, s, o) == EyeSteps(eye, k, s', o)
  {
    assert Lists(s, eye) == Lists(s', eye) && Lists(s, Both) == Lists(s', Both);
  }

  /** An eye that returns before it reads the slot makes the same calls
      whatever slot it was given, and leaves that slot alone. */
  lemma EyeStepsIgnoreSlot(eye: EyeTarget, k: nat, s: Slot, k': nat, s': Slot, o: EyeOracle)
    requires !ReadsSlot(o)
    ensures EyeSteps(eye, k, s, o) == EyeSteps(eye, k', s', o)
    ensures |EyeSteps(eye, k, s, o)| <= 3
    ensures SlotAfterEye(s, eye, o) == s
  {
  }

  // ------------------------------------------------------------- RenderFrame

  /** The outcomes of the foreign calls of one RenderFrame: xrBeginFrame,
      the two eyes' protocols and xrLocateViews (a failure of the last makes
      the source's optional access throw before xrEndFrame). */
  datatype FrameEnv = FrameEnv(beginFrameOk: bool, leftEye: EyeOracle, rightEye: EyeOracle, viewsLocated: bool)

  /** The reclaim pass: one poll per slot, in pool order. */
  function ReclaimSteps(p: seq<Slot>): (r: seq<Step>)
    ensures |r| == |p|
    ensures forall k :: 0 <= k < |p| ==> r[k] == CheckSlot(k, CheckAndClear(p[k]).outcome)
    ensures forall st :: st in r ==> st.CheckSlot?
  {
    seq(|p|, k requires 0 <= k < |p| => CheckSlot(k, CheckAndClear(p[k]).outcome))
  }

  /** Whether RenderFrame reaches the eye loop. */
  predicate ReachesEyes(initialized: bool, env: FrameEnv)
  {
    initialized && env.beginFrameOk
  }

  /** Whether RenderFrame on a pool of `n` slots is defined: once it reaches
      the eye loop, the current slot is a slot of the pool, or, when there is
      none, neither eye gets as far as reading it (the source dereferences
      the null slot pointer there). */
  predicate FrameDefined(n: nat, current: Option<nat>, initialized: bool, env: FrameEnv)
  {
    ReachesEyes(initialized, env) ==>
      if current.Some? then current.value < n
      else !ReadsSlot(env.leftEye) && !ReadsSlot(env.rightEye)
  }

  /** The index renderEye passes to the fence it submits with, and the slot
      it reads. With no current slot a defined frame's eyes return before
      either is used, so any value serves (EyeStepsIgnoreSlot). */
  function EyeIndex(current: Option<nat>): nat
  {
    if current.Some? then current.value else 0
  }

  function EyeSlot(q: seq<Slot>, current: Option<nat>): Slot
    requires current.Some? ==> current.value < |q|
  {
    if current.Some? then q[current.value] else Fresh
  }

  /** The pool after `eye` ran its protocol on the current slot. */
  function PoolAfterEye(q: seq<Slot>, current: Option<nat>, eye: EyeTarget, o: EyeOracle): (r: seq<Slot>)
    requires current.Some? ==> current.value < |q|
    ensures |r| == |q|
  {
    if current.Some? then q[current.value := SlotAfterEye(q[current.value], eye, o)] else q
  }

  /** The left eye's protocol on the reclaimed current slot. */
  function LeftSteps(q: seq<Slot>, current: Option<nat>, env: FrameEnv): (r: seq<Step>)
    requires current.Some? ==> current.value < |q|
    ensures forall st :: st in r ==> st.Eye? && st.eye == Left
  {
    EyeStepsBelongToEye(Left, EyeIndex(current), EyeSlot(q, current), env.leftEye);
    EyeSteps(Left, EyeIndex(current), EyeSlot(q, current), env.leftEye)
  }

  /** The right eye's protocol, on the slot as the left eye left it. */
  function RightSteps(q: seq<Slot>, current: Option<nat>, env: FrameEnv): (r: seq<Step>)
    requires current.Some? ==> current.value < |q|
    ensures forall st :: st in r ==> st.Eye? && st.eye == Right
  {
    EyeStepsBelongToEye(Right, EyeIndex(current), SlotAfterEye(EyeSlot(q, current), Left, env.leftEye), env.rightEye);
    EyeSteps(Right, EyeIndex(current), SlotAfterEye(EyeSlot(q, current), Left, env.leftEye), env.rightEye)
  }

  /** xrLocateViews, then xrEndFrame when the views were located. */
  function CloseSteps(info: FrameInfo, env: FrameEnv): (r: seq<Step>)
    ensures |r| > 0 && r[0] == XrLocateViews(info.predictedDisplayTime)
    ensures XrEndFrame(info.predictedDisplayTime) in r <==> env.viewsLocated
    ensures forall st :: st in r ==> st.XrLocateViews? || st.XrEndFrame?
  {
    [XrLocateViews(info.predictedDisplayTime)] +
    (if env.viewsLocated then [XrEndFrame(info.predictedDisplayTime)] else [])
  }

  /** The steps RenderFrame makes after the reclaim pass, given the reclaimed pool `q`. */
  function RenderSteps(q: seq<Slot>, current: Option<nat>, initialized: bool, info: FrameInfo, env: FrameEnv): (r: seq<Step>)
    requires FrameDefined(|q|, current, initialized, env)
    ensures r == [] <==> !initialized
    ensures initialized ==> r[0] == XrBeginFrame
    ensures !env.beginFrameOk ==> |r| <= 1
  {
    if !initialized then []
    else if !env.beginFrameOk then [XrBeginFrame]
    else [XrBeginFrame] + LeftSteps(q, current, env) + RightSteps(q, current, env) + CloseSteps(info, env)
  }

  /** RenderFrame's calls: the reclaim pass over the old pool, then the rest. */
  function FrameSteps(p: seq<Slot>, current: Option<nat>, initialized: bool, info: FrameInfo, env: FrameEnv): (r: seq<Step>)
    requires FrameDefined(|p|, current, initialized, env)
    ensures |r| >= |p|
    ensures |r| > |p| <==> initialized
    ensures initialized ==> r[|p|] == XrBeginFrame
  {
    ReclaimSteps(p) + RenderSteps(ReclaimAll(p), current, initialized, info, env)
  }

  /** The pool after RenderFrame. */
  function FrameSlots(p: seq<Slot>, current: Option<nat>, initialized: bool, env: FrameEnv): (r: seq<Slot>)
    requires FrameDefined(|p|, current, initialized, env)
    ensures |r| == |p|
  {
    var q := ReclaimAll(p);
    if !ReachesEyes(initialized, env) then q
    else PoolAfterEye(PoolAfterEye(q, current, Left, env.leftEye), current, Right, env.rightEye)
  }

  /** After the reclaim pass, no slot is polled again, and the steps are
      xrBeginFrame, the eyes and the frame end, each present exactly when the
      gates allow. */
  lemma RenderStepsKinds(q: seq<Slot>, current: Option<nat>, initialized: bool, info: FrameInfo, env: FrameEnv)
    requires FrameDefined(|q|, current, initialized, env)
    ensures forall st :: st in RenderSteps(q, current, initialized, info, env) ==>
              st.XrBeginFrame? || st.XrLocateViews? || st.XrEndFrame? ||
              (st.Eye? && ReachesEyes(initialized, env))
    ensures XrBeginFrame in RenderSteps(q, current, initialized, info, env) <==> initialized
  {
    if ReachesEyes(initialized, env) {
    }
  }

  /** Reclaim first: the first steps of RenderFrame poll every slot in pool
      order, before the session gate, and no slot is polled afterwards; on a
      session that is not initialised the reclaim pass is all RenderFrame does. */
  lemma ReclaimComesFirst(p: seq<Slot>, current: Option<nat>, initialized: bool, info: FrameInfo, env: FrameEnv)
    requires FrameDefined(|p|, current, initialized, env)
    ensures var steps := FrameSteps(p, current, initialized, info, env);
      && |steps| >= |p|
      && (forall k :: 0 <= k < |p| ==> steps[k] == CheckSlot(k, CheckAndClear(p[k]).outcome))
      && (forall i :: |p| <= i < |steps| ==> !steps[i].CheckSlot?)
      && (!initialized ==> steps == ReclaimSteps(p))
  {
    var steps := FrameSteps(p, current, initialized, info, env);
    var rest := RenderSteps(ReclaimAll(p), current, initialized, info, env);
    RenderStepsKinds(ReclaimAll(p), current, initialized, info, env);
    forall i | |p| <= i < |steps| ensures !steps[i].CheckSlot? {
      assert steps[i] == rest[i - |p|];
      assert rest[i - |p|] in rest;
    }
  }

  /** The steps of `steps` that belong to `eye`. */
  function EyePart(steps: seq<Step>, eye: EyeTarget): seq<Step>
  {
    if steps == [] then []
    else (if steps[0].Eye? && steps[0].eye == eye then [steps[0]] else []) + EyePart(steps[1..], eye)
  }

  lemma {:induction false} EyePartAppend(a: seq<Step>, b: seq<Step>, eye: EyeTarget)
    ensures EyePart(a + b, eye) == EyePart(a, eye) + EyePart(b, eye)
  {
    if a == [] {
      assert a + b == b;
    } else {
      assert (a + b)[1..] == a[1..] + b;
      EyePartAppend(a[1..], b, eye);
    }
  }

  lemma {:induction false} EyePartOfOneEye(steps: seq<Step>, eye: EyeTarget, other: EyeTarget)
    requires forall st :: st in steps ==> st.Eye? && st.eye == eye
    ensures EyePart(steps, eye) == steps
    ensures other != eye ==> EyePart(steps, other) == []
  {
    if steps != [] {
      assert steps[0] in steps;
      assert forall st :: st in steps[1..] ==> st in steps;
      EyePartOfOneEye(steps[1..], eye, other);
      assert steps == [steps[0]] + steps[1..];
    }
  }

  lemma {:induction false} EyePartOfNoEye(steps: seq<Step>, eye: EyeTarget)
    requires forall st :: st in steps ==> !st.Eye?
    ensures EyePart(steps, eye) == []
  {
    if steps != [] {
      assert steps[0] in steps;
      assert forall st :: st in steps[1..] ==> st in steps;
      EyePartOfNoEye(steps[1..], eye);
    }
  }

  /** A frame is a prefix without eye steps, the left eye's steps, the right
      eye's steps and a suffix without eye steps. */
  predicate FrameShaped(pre: seq<Step>, l: seq<Step>, r: seq<Step>, post: seq<Step>)
  {
    && (forall st :: st in pre ==> !st.Eye?)
    && (forall st :: st in l ==> st.Eye? && st.eye == Left)
    && (forall st :: st in r ==> st.Eye? && st.eye == Right)
    && (forall st :: st in post ==> !st.Eye?)
  }

  lemma EyePartOfParts(pre: seq<Step>, l: seq<Step>, r: seq<Step>, post: seq<Step>, eye: EyeTarget)
    requires forall st :: st in pre ==> !st.Eye?
    requires forall st :: st in post ==> !st.Eye?
    ensures EyePart(pre + l + r + post, eye) == EyePart(l, eye) + EyePart(r, eye)
  {
    EyePartOfNoEye(pre, eye);
    EyePartOfNoEye(post, eye);
    EyePartAppend(pre, l, eye);
    assert EyePart(pre + l, eye) == EyePart(l, eye);
    EyePartAppend(pre + l, r, eye);
    assert EyePart(pre + l + r, eye) == EyePart(l, eye) + EyePart(r, eye);
    EyePartAppend(pre + l + r, post, eye);
    assert EyePart(post, eye) == [];
  }

  lemma EyePartOfShape(pre: seq<Step>, l: seq<Step>, r: seq<Step>, post: seq<Step>)
    requires FrameShaped(pre, l, r, post)
    ensures EyePart(pre + l + r + post, Left) == l
    ensures EyePart(pre + l + r + post, Right) == r
  {
    EyePartOfParts(pre, l, r, post, Left);
    EyePartOfParts(pre, l, r, post, Right);
    EyePartOfOneEye(l, Left, Right);
    EyePartOfOneEye(r, Right, Left);
  }

  lemma OrderOfShape(pre: seq<Step>, l: seq<Step>, r: seq<Step>, post: seq<Step>)
    requires FrameShaped(pre, l, r, post)
    ensures var steps := pre + l + r + post;
      forall i, j :: 0 <= i < j < |steps| && steps[i].Eye? && steps[j].Eye? ==>
        !(steps[i].eye == Right && steps[j].eye == Left)
  {
    var steps := pre + l + r + post;
    var a := |pre| + |l|;
    assert forall m :: 0 <= m < |pre| ==> !steps[m].Eye? by {
      forall m | 0 <= m < |pre| ensures !steps[m].Eye? {
        assert steps[m] == pre[m];
        assert pre[m] in pre;
      }
    }
    assert forall m :: |pre| <= m < a ==> steps[m].eye == Left by {
      forall m | |pre| <= m < a ensures steps[m].eye == Left {
        assert steps[m] == l[m - |pre|];
        assert l[m - |pre|] in l;
      }
    }
    assert forall m :: a <= m < a + |r| ==> steps[m].eye == Right by {
      forall m | a <= m < a + |r| ensures steps[m].eye == Right {
        assert steps[m] == r[m - a];
        assert r[m - a] in r;
      }
    }
    assert forall m :: a + |r| <= m < |steps| ==> !steps[m].Eye? by {
      forall m | a + |r| <= m < |steps| ensures !steps[m].Eye? {
        assert steps[m] == post[m - a - |r|];
        assert post[m - a - |r|] in post;
      }
    }
  }

  /** The frame, when it reaches the eye loop, has that shape. */
  lemma FrameStepsShape(p: seq<Slot>, current: Option<nat>, info: FrameInfo, env: FrameEnv)
    requires env.beginFrameOk && FrameDefined(|p|, current, true, env)
    ensures FrameSteps(p, current, true, info, env) ==
            (ReclaimSteps(p) + [XrBeginFrame]) + LeftSteps(ReclaimAll(p), current, env) +
            RightSteps(ReclaimAll(p), current, env) + CloseSteps(info, env)
    ensures FrameShaped(ReclaimSteps(p) + [XrBeginFrame], LeftSteps(ReclaimAll(p), current, env),
                        RightSteps(ReclaimAll(p), current, env), CloseSteps(info, env))
  {
    var q := ReclaimAll(p);
    var pre := ReclaimSteps(p) + [XrBeginFrame];
    var l := LeftSteps(q, current, env);
    var r := RightSteps(q, current, env);
    var c := CloseSteps(info, env);
    assert RenderSteps(q, current, true, info, env) == [XrBeginFrame] + l + r + c;
    assert FrameSteps(p, current, true, info, env) == ReclaimSteps(p) + ([XrBeginFrame] + l + r + c);
    assert ReclaimSteps(p) + ([XrBeginFrame] + l + r + c) == pre + l + r + c;
    assert forall st :: st in pre ==> !st.Eye? by {
      forall st | st in pre ensures !st.Eye? {
        if st !in ReclaimSteps(p) {
          assert st == XrBeginFrame;
        }
      }
    }
  }

  /** The eye part of a whole frame: each eye runs its protocol on the
      reclaimed current slot (the right eye sees the lists exactly as the
      left eye saw them). */
  lemma FrameEyeParts(p: seq<Slot>, current: Option<nat>, info: FrameInfo, env: FrameEnv)
    requires ReachesEyes(true, env) && current.Some? && current.value < |p|
    ensures var steps := FrameSteps(p, current, true, info, env);
      && EyePart(steps, Left) == EyeSteps(Left, current.value, CheckAndClear(p[current.value]).slot, env.leftEye)
      && EyePart(steps, Right) == EyeSteps(Right, current.value, CheckAndClear(p[current.value]).slot, env.rightEye)
  {
    var k := current.value;
    var q := ReclaimAll(p);
    FrameStepsShape(p, current, info, env);
    EyePartOfShape(ReclaimSteps(p) + [XrBeginFrame], LeftSteps(q, current, env), RightSteps(q, current, env), CloseSteps(info, env));
    EyeStepsReadOnlyLists(Right, k, SlotAfterEye(q[k], Left, env.leftEye), q[k], env.rightEye);
  }

  /** Eye isolation: the right eye's protocol does not depend on how the
      left eye's protocol went, and it starts even if the left eye failed
      at its very first call. */
  lemma EyeIsolation(p: seq<Slot>, current: Option<nat>, info: FrameInfo, env: FrameEnv, left': EyeOracle)
    requires ReachesEyes(true, env) && current.Some? && current.value < |p|
    ensures EyePart(FrameSteps(p, current, true, info, env), Right) ==
            EyePart(FrameSteps(p, current, true, info, env.(leftEye := left')), Right)
    ensures Eye(Right, AcquireImage) in EyePart(FrameSteps(p, current, true, info, env), Right)
  {
    FrameEyeParts(p, current, info, env);
    FrameEyeParts(p, current, info, env.(leftEye := left'));
  }

  /** A frame with no current slot that is still defined: both eyes return
      before they read the slot, so the frame makes their early calls, locates
      the views and ends, and submits nothing. */
  lemma SlotlessFrame(p: seq<Slot>, info: FrameInfo, env: FrameEnv)
    requires ReachesEyes(true, env) && FrameDefined(|p|, None, true, env)
    ensures var steps := FrameSteps(p, None, true, info, env);
      && EyePart(steps, Left) == EyeSteps(Left, 0, Fresh, env.leftEye)
      && EyePart(steps, Right) == EyeSteps(Right, 0, Fresh, env.rightEye)
      && (forall st :: st in steps ==> !IsSubmit(st))
      && XrLocateViews(info.predictedDisplayTime) in steps
      && FrameSlots(p, None, true, env) == ReclaimAll(p)
  {
    var q := ReclaimAll(p);
    var l := LeftSteps(q, None, env);
    var r := RightSteps(q, None, env);
    FrameStepsShape(p, None, info, env);
    EyePartOfShape(ReclaimSteps(p) + [XrBeginFrame], l, r, CloseSteps(info, env));
    EyeSubmitFence(Left, 0, Fresh, env.leftEye);
    EyeSubmitFence(Right, 0, Fresh, env.rightEye);
    NoSubmitOfShape(ReclaimSteps(p) + [XrBeginFrame], l, r, CloseSteps(info, env));
    assert XrLocateViews(info.predictedDisplayTime) in CloseSteps(info, env);
  }

  /** Eye order: within a frame, every step of the left eye comes before
      every step of the right eye. */
  lemma EyesInOrder(p: seq<Slot>, current: Option<nat>, initialized: bool, info: FrameInfo, env: FrameEnv)
    requires FrameDefined(|p|, current, initialized, env)
    ensures var steps := FrameSteps(p, current, initialized, info, env);
      forall i, j :: 0 <= i < j < |steps| && steps[i].Eye? && steps[j].Eye? ==>
        !(steps[i].eye == Right && steps[j].eye == Left)
  {
    var q := ReclaimAll(p);
    if ReachesEyes(initialized, env) {
      FrameStepsShape(p, current, info, env);
      OrderOfShape(ReclaimSteps(p) + [XrBeginFrame], LeftSteps(q, current, env), RightSteps(q, current, env), CloseSteps(info, env));
    } else {
      var steps := FrameSteps(p, current, initialized, info, env);
      RenderStepsKinds(q, current, initialized, info, env);
      forall i | 0 <= i < |steps| ensures !steps[i].Eye? {
        if i >= |p| {
          assert steps[i] in RenderSteps(q, current, initialized, info, env);
        }
      }
    }
  }

  /** Each eye submits with its own fence of the current slot, and the two
      fences differ. */
  lemma FrameSubmitFences(p: seq<Slot>, current: Option<nat>, initialized: bool, info: FrameInfo, env: FrameEnv)
    requires FrameDefined(|p|, current, initialized, env)
    ensures forall st :: st in FrameSteps(p, current, initialized, info, env) && IsSubmit(st) ==>
              current.Some? && st.call.fence == FenceRef(current.value, FenceFor(st.eye)) && st.eye != Both
    ensures FenceFor(Left) != FenceFor(Right)
  {
    if !ReachesEyes(initialized, env) {
      NoEyeNoSubmit(p, current, initialized, info, env);
    } else if current.None? {
      SlotlessFrame(p, info, env);
    } else {
      var k := current.value;
      var q := ReclaimAll(p);
      FrameStepsShape(p, current, info, env);
      EyeSubmitFence(Left, k, q[k], env.leftEye);
      EyeSubmitFence(Right, k, SlotAfterEye(q[k], Left, env.leftEye), env.rightEye);
      SubmitsOfShape(ReclaimSteps(p) + [XrBeginFrame], LeftSteps(q, current, env), RightSteps(q, current, env),
                     CloseSteps(info, env), k);
    }
  }

  /** In a frame-shaped trace whose eye parts submit with their own fence of
      slot k, every submit does. */
  lemma SubmitsOfShape(pre: seq<Step>, l: seq<Step>, r: seq<Step>, post: seq<Step>, k: nat)
    requires FrameShaped(pre, l, r, post)
    requires forall st :: st in l && IsSubmit(st) ==> st.call.fence == FenceRef(k, FenceFor(Left))
    requires forall st :: st in r && IsSubmit(st) ==> st.call.fence == FenceRef(k, FenceFor(Right))
    ensures forall st :: st in pre + l + r + post && IsSubmit(st) ==>
              st.call.fence == FenceRef(k, FenceFor(st.eye)) && st.eye != Both
  {
  }

  /** In a frame-shaped trace whose eye parts do not submit, nothing does. */
  lemma NoSubmitOfShape(pre: seq<Step>, l: seq<Step>, r: seq<Step>, post: seq<Step>)
    requires FrameShaped(pre, l, r, post)
    requires !(exists st :: st in l && IsSubmit(st))
    requires !(exists st :: st in r && IsSubmit(st))
    ensures forall st :: st in pre + l + r + post ==> !IsSubmit(st)
  {
  }

  /** A frame that does not reach the eye loop submits nothing. */
  lemma NoEyeNoSubmit(p: seq<Slot>, current: Option<nat>, initialized: bool, info: FrameInfo, env: FrameEnv)
    requires !ReachesEyes(initialized, env)
    ensures forall st :: st in FrameSteps(p, current, initialized, info, env) ==> !IsSubmit(st)
  {
    RenderStepsKinds(ReclaimAll(p), current, initialized, info, env);
  }

  /** The frame is closed with the display time BeginFrame predicted, and it
      is closed exactly when the eye loop was reached and the views were
      located. */
  lemma EndFrameUsesPredictedTime(p: seq<Slot>, current: Option<nat>, initialized: bool, info: FrameInfo, env: FrameEnv)
    requires FrameDefined(|p|, current, initialized, env)
    ensures forall st :: st in FrameSteps(p, current, initialized, info, env) && st.XrEndFrame? ==>
              st.displayTime == info.predictedDisplayTime
    ensures (exists st :: st in FrameSteps(p, current, initialized, info, env) && st.XrEndFrame?) <==>
              ReachesEyes(initialized, env) && env.viewsLocated
  {
    var q := ReclaimAll(p);
    var steps := FrameSteps(p, current, initialized, info, env);
    var rest := RenderSteps(q, current, initialized, info, env);
    assert steps == ReclaimSteps(p) + rest;
    if ReachesEyes(initialized, env) {
      var b: seq<Step> := [XrBeginFrame];
      var l := LeftSteps(q, current, env);
      var r := RightSteps(q, current, env);
      var c := CloseSteps(info, env);
      assert rest == b + l + r + c;
      assert forall st :: st in c && st.XrEndFrame? ==> st == XrEndFrame(info.predictedDisplayTime);
      assert (exists st :: st in c && st.XrEndFrame?) <==> env.viewsLocated by {
        if env.viewsLocated {
          assert c[1] == XrEndFrame(info.predictedDisplayTime);
        }
      }
    } else if initialized {
      assert rest == [XrBeginFrame];
    }
  }

  /** The pool after RenderFrame: every slot went through the reclaim pass,
      and only the current slot's fences changed afterwards, each becoming
      pending exactly when its eye's submit went through. */
  lemma FrameSlotsSpec(p: seq<Slot>, current: Option<nat>, initialized: bool, env: FrameEnv)
    requires FrameDefined(|p|, current, initialized, env)
    ensures var r := FrameSlots(p, current, initialized, env);
      && (forall k :: 0 <= k < |p| && (!ReachesEyes(initialized, env) || current != Some(k)) ==>
            r[k] == CheckAndClear(p[k]).slot)
      && (ReachesEyes(initialized, env) && current.Some? ==>
            var k := current.value;
            var q := CheckAndClear(p[k]).slot;
            && (forall t :: Lists(r[k], t) == Lists(q, t))
            && r[k].available == q.available
            && r[k].leftFence == (if Submits(env.leftEye) then Pending else q.leftFence)
            && r[k].rightFence == (if Submits(env.rightEye) then Pending else q.rightFence))
  {
  }
}
