/** The renderer's frame-facing state as a value, the effect of each public
    operation on it, and what holds over any sequence of operations. The
    Renderer class in RendererModel is proved to follow these functions. */
module Lifecycle {
  import opened Common
  import opened CacheSpec
  import opened PoolSpec
  import opened FrameSpec
  import Session

  /** The pool of slots, the current slot and the session-initialised flag. */
  datatype RendererState = RendererState(pool: seq<Slot>, current: Option<nat>, initialized: bool)

  predicate WellFormed(st: RendererState)
  {
    st.current.Some? ==> st.current.value < |st.pool|
  }

  const Initial: RendererState := RendererState([], None, false)

  /** BeginFrame: a slot is claimed and becomes current whatever the session
      state; the frame information is computed by FrameSpec.BeginFrameInfo. */
  function BeginFrameState(st: RendererState): (r: RendererState)
    ensures WellFormed(r)
    ensures r.initialized == st.initialized
    ensures r.current == Some(Acquire(st.pool).index) && r.pool == Acquire(st.pool).pool
  {
    var a := Acquire(st.pool);
    AcquireSpec(st.pool);
    RendererState(a.pool, Some(a.index), st.initialized)
  }

  /** RequestCommandBuffer with the handle `handle` (null when the
      allocation failed): with no current slot nothing changes and null is
      returned; otherwise the handle, null or not, is appended to the
      current slot's list for `target` and returned. */
  function RequestPool(st: RendererState, handle: CommandBuffer, target: EyeTarget): (r: seq<Slot>)
    requires WellFormed(st)
    ensures |r| == |st.pool|
    ensures st.current.None? ==> r == st.pool
    ensures st.current.Some? ==>
              && Lists(r[st.current.value], target) == Lists(st.pool[st.current.value], target) + [handle]
              && forall j :: 0 <= j < |r| && j != st.current.value ==> r[j] == st.pool[j]
  {
    match st.current
    case None => st.pool
    case Some(k) => st.pool[k := Pushed(st.pool[k], handle, target)]
  }

  function RequestResult(st: RendererState, handle: CommandBuffer): (b: CommandBuffer)
    ensures st.current.None? ==> b == NullHandle
    ensures st.current.Some? ==> b == handle
  {
    if st.current.None? then NullHandle else handle
  }

  /** RenderFrame is defined unless an eye gets as far as reading the
      current slot when there is none. */
  predicate CanRender(st: RendererState, env: FrameEnv)
  {
    WellFormed(st) && FrameDefined(|st.pool|, st.current, st.initialized, env)
  }

  function RenderFrameState(st: RendererState, env: FrameEnv): (r: RendererState)
    requires CanRender(st, env)
    ensures WellFormed(r) && r.current == st.current && r.initialized == st.initialized
  {
    st.(pool := FrameSlots(st.pool, st.current, st.initialized, env))
  }

  /** EndFrame only drops the reference to the current slot. */
  function EndFrameState(st: RendererState): (r: RendererState)
    ensures r.pool == st.pool && r.current.None? && r.initialized == st.initialized
  {
    st.(current := None)
  }

  /** Update: only the session flag can change. */
  function EventState(st: RendererState, poll: Session.PollResult, beginOk: bool): (r: RendererState)
    ensures r.pool == st.pool && r.current == st.current
    ensures WellFormed(st) ==> WellFormed(r)
  {
    st.(initialized := Session.ProcessEvent(poll, beginOk, st.initialized).initialized)
  }

  /** The environment action "the GPU completes the work guarded by fence
      `side` of slot `k`". */
  function GpuState(st: RendererState, k: nat, side: FenceSide): (r: RendererState)
    ensures |r.pool| == |st.pool| && r.current == st.current && r.initialized == st.initialized
    ensures k < |st.pool| ==> r.pool[k] == Completed(st.pool[k], side)
    ensures forall j :: 0 <= j < |r.pool| && j != k ==> r.pool[j] == st.pool[j]
  {
    if k < |st.pool| then st.(pool := st.pool[k := Completed(st.pool[k], side)]) else st
  }

  /** One public operation of the renderer, or one GPU completion. */
  datatype Op =
    | BeginFrameOp
    | RequestOp(handle: CommandBuffer, target: EyeTarget)
    | RenderFrameOp(env: FrameEnv)
    | EndFrameOp
    | EventOp(poll: Session.PollResult, beginOk: bool)
    | GpuCompletesOp(slot: nat, side: FenceSide)

  /** The state after `op`; None when RenderFrame has no current slot and
      one of its eyes gets as far as reading it (the source dereferences the
      null slot pointer there). */
  function Apply(st: RendererState, op: Op): (r: Option<RendererState>)
    requires WellFormed(st)
    ensures r.Some? ==> WellFormed(r.value)
    ensures r.None? <==> op.RenderFrameOp? && !CanRender(st, op.env)
  {
    match op
    case BeginFrameOp => Some(BeginFrameState(st))
    case RequestOp(b, t) => Some(st.(pool := RequestPool(st, b, t)))
    case RenderFrameOp(env) => if CanRender(st, env) then Some(RenderFrameState(st, env)) else None
    case EndFrameOp => Some(EndFrameState(st))
    case EventOp(poll, ok) => Some(EventState(st, poll, ok))
    case GpuCompletesOp(k, side) => Some(GpuState(st, k, side))
  }

  function Run(st: RendererState, ops: seq<Op>): (r: Option<RendererState>)
    requires WellFormed(st)
    ensures r.Some? ==> WellFormed(r.value)
    decreases |ops|
  {
    if ops == [] then Some(st)
    else match Apply(st, ops[0])
      case None => None
      case Some(next) => Run(next, ops[1..])
  }

  lemma RunCons(st: RendererState, op: Op, rest: seq<Op>)
    requires WellFormed(st) && Apply(st, op).Some?
    ensures Run(st, [op] + rest) == Run(Apply(st, op).value, rest)
  {
    assert ([op] + rest)[1..] == rest;
  }

  /** A slot that is claimed, is not the current slot and has a fence that
      was never submitted since its last reset. */
  predicate Stranded(st: RendererState, k: nat)
  {
    k < |st.pool| && !st.pool[k].available && HasUnsubmittedFence(st.pool[k]) && st.current != Some(k)
  }

  /** No single operation gives a stranded slot back: BeginFrame only claims
      Available slots, only the current slot is recorded into or submitted,
      a GPU completion needs a pending fence and reclaiming needs both
      fences signaled. */
  lemma ApplyKeepsStranded(st: RendererState, op: Op, k: nat)
    requires WellFormed(st) && Stranded(st, k)
    requires Apply(st, op).Some?
    ensures Stranded(Apply(st, op).value, k)
    ensures |Apply(st, op).value.pool| >= |st.pool|
  {
    match op
    case BeginFrameOp =>
      AcquireSpec(st.pool);
    case RequestOp(b, t) =>
    case RenderFrameOp(env) =>
      FrameSlotsSpec(st.pool, st.current, st.initialized, env);
    case EndFrameOp =>
    case EventOp(poll, ok) =>
    case GpuCompletesOp(j, side) =>
  }

  /** The slot leak: a stranded slot stays stranded forever, whatever the
      application, the runtime and the GPU do next, so it is never reused
      and its buffers are never freed. */
  lemma {:induction false} StrandedForever(st: RendererState, ops: seq<Op>, k: nat)
    requires WellFormed(st) && Stranded(st, k)
    requires Run(st, ops).Some?
    ensures Stranded(Run(st, ops).value, k)
    ensures k < |Run(st, ops).value.pool|
    decreases |ops|
  {
    if ops != [] {
      ApplyKeepsStranded(st, ops[0], k);
      StrandedForever(Apply(st, ops[0]).value, ops[1..], k);
    }
  }

  /** The inputs of one iteration of the application loop: the event
      Update polls and the result of xrBeginSession, the handle that
      RequestCommandBuffer(BOTH) allocates (null when the allocation failed)
      and the outcomes of RenderFrame's calls. */
  datatype LoopInput = LoopInput(poll: Session.PollResult, beginOk: bool, handle: CommandBuffer, env: FrameEnv)

  /** One iteration of the application loop that Update does not stop:
      Update, BeginFrame, RequestCommandBuffer(BOTH), RenderFrame, EndFrame. */
  function LoopIteration(x: LoopInput): (r: seq<Op>)
    ensures |r| == 5 && r[0] == EventOp(x.poll, x.beginOk) && r[4] == EndFrameOp
  {
    [EventOp(x.poll, x.beginOk), BeginFrameOp, RequestOp(x.handle, Both), RenderFrameOp(x.env), EndFrameOp]
  }

  /** The iterations of the loop, one per input, in order. */
  function LoopIterations(xs: seq<LoopInput>): (r: seq<Op>)
    ensures |r| == 5 * |xs|
    decreases |xs|
  {
    if xs == [] then [] else LoopIterations(xs[..|xs| - 1]) + LoopIteration(xs[|xs| - 1])
  }

  /** Iteration m of the loop is operations 5m to 5m+4, in input order. */
  lemma {:induction false} LoopIterationsAt(xs: seq<LoopInput>, m: nat)
    requires m < |xs|
    ensures LoopIterations(xs)[5 * m..5 * m + 5] == LoopIteration(xs[m])
    decreases |xs|
  {
    var n := |xs| - 1;
    var init := xs[..n];
    var a := LoopIterations(init);
    var b := LoopIteration(xs[n]);
    assert LoopIterations(xs) == a + b;
    if m < n {
      LoopIterationsAt(init, m);
      assert init[m] == xs[m];
      assert (a + b)[5 * m..5 * m + 5] == a[5 * m..5 * m + 5];
    } else {
      assert (a + b)[5 * m..5 * m + 5] == b;
    }
  }

  /** An event that neither stops the loop nor initialises a session that
      is not initialised (no event at all, a failed poll, IDLE, and every
      event that only logs). */
  predicate KeepsIdle(poll: Session.PollResult, beginOk: bool)
  {
    var e := Session.ProcessEvent(poll, beginOk, false);
    !e.stop && !e.initialized
  }

  /** RenderFrame on an uninitialised session is the reclaim pass alone. */
  lemma IdleRenderFrame(st: RendererState, env: FrameEnv)
    requires WellFormed(st) && !st.initialized
    ensures Apply(st, RenderFrameOp(env)) == Some(st.(pool := ReclaimAll(st.pool)))
  {
  }

  /** BeginFrame then RequestCommandBuffer(BOTH), followed by any operations. */
  lemma BeginRequestRun(st: RendererState, handle: CommandBuffer, rest: seq<Op>)
    requires WellFormed(st)
    ensures var s1 := BeginFrameState(st);
      Run(st, [BeginFrameOp, RequestOp(handle, Both)] + rest) == Run(s1.(pool := RequestPool(s1, handle, Both)), rest)
  {
    var s1 := BeginFrameState(st);
    var t2 := [RequestOp(handle, Both)] + rest;
    RunCons(s1, RequestOp(handle, Both), rest);
    RunCons(st, BeginFrameOp, t2);
    assert [BeginFrameOp, RequestOp(handle, Both)] + rest == [BeginFrameOp] + t2;
  }

  /** RenderFrame then EndFrame on an uninitialised session. */
  lemma IdleRenderEndRun(st: RendererState, env: FrameEnv)
    requires WellFormed(st) && !st.initialized
    ensures Run(st, [RenderFrameOp(env), EndFrameOp]) == Some(RendererState(ReclaimAll(st.pool), None, false))
  {
    var s3 := st.(pool := ReclaimAll(st.pool));
    RunCons(s3, EndFrameOp, []);
    IdleRenderFrame(st, env);
    RunCons(st, RenderFrameOp(env), [EndFrameOp]);
    assert [RenderFrameOp(env), EndFrameOp] == [RenderFrameOp(env)] + [EndFrameOp];
    assert [EndFrameOp] == [EndFrameOp] + [];
  }

  /** The state after an iteration while the session is not initialised:
      the flag stays cleared, a slot is claimed and the BOTH buffer is
      recorded into it, the pool is reclaimed and the slot is dropped. */
  lemma IdleIterationRun(st: RendererState, x: LoopInput)
    requires WellFormed(st) && !st.initialized
    requires KeepsIdle(x.poll, x.beginOk)
    ensures Run(st, LoopIteration(x)) ==
            Some(RendererState(ReclaimAll(RequestPool(BeginFrameState(st), x.handle, Both)), None, false))
  {
    var s1 := BeginFrameState(st);
    var s2 := s1.(pool := RequestPool(s1, x.handle, Both));
    var rest: seq<Op> := [RenderFrameOp(x.env), EndFrameOp];
    var mid := [BeginFrameOp, RequestOp(x.handle, Both)] + rest;
    var t0 := LoopIteration(x);
    assert t0 == [EventOp(x.poll, x.beginOk)] + mid;
    assert Apply(st, EventOp(x.poll, x.beginOk)) == Some(st);
    RunCons(st, EventOp(x.poll, x.beginOk), mid);
    BeginRequestRun(st, x.handle, rest);
    IdleRenderEndRun(s2, x.env);
    assert Run(st, t0) == Run(s2, rest);
  }

  /** An iteration while the session is not initialised strands the slot
      BeginFrame claimed for it: the BOTH buffer recorded into it stays
      there, both its fences are still unsignaled and nothing was submitted;
      every other slot only went through the reclaim pass. */
  lemma IdleIterationStrandsSlot(st: RendererState, x: LoopInput)
    requires WellFormed(st) && PoolQuiescent(st.pool, st.current) && !st.initialized
    requires KeepsIdle(x.poll, x.beginOk)
    ensures Run(st, LoopIteration(x)).Some?
    ensures var r := Run(st, LoopIteration(x)).value;
      var k := Acquire(st.pool).index;
      && |r.pool| == |Acquire(st.pool).pool| && r.current.None? && !r.initialized
      && Stranded(r, k) && HoldsOnlyBoth(r.pool[k], x.handle)
      && (forall j :: 0 <= j < |st.pool| && j != k ==> r.pool[j] == CheckAndClear(st.pool[j]).slot)
  {
    var a := Acquire(st.pool);
    var k := a.index;
    AcquireSpec(st.pool);
    AcquireKeepsQuiescent(st.pool, st.current);
    IdleIterationRun(st, x);
    var pushed := RequestPool(BeginFrameState(st), x.handle, Both);
    assert pushed[k] == Pushed(a.pool[k], x.handle, Both);
    assert forall j :: 0 <= j < |st.pool| && j != k ==> pushed[j] == st.pool[j];
  }

  lemma {:induction false} RunAppend(st: RendererState, a: seq<Op>, b: seq<Op>)
    requires WellFormed(st) && Run(st, a).Some?
    ensures Run(st, a + b) == Run(Run(st, a).value, b)
    decreases |a|
  {
    if a == [] {
      assert a + b == b;
    } else {
      assert (a + b)[1..] == a[1..] + b;
      RunAppend(Apply(st, a[0]).value, a[1..], b);
    }
  }

  /** A slot of the idle loop: both fences unsignaled, and only the BOTH
      buffer `h` recorded. */
  predicate HoldsOnlyBoth(s: Slot, h: CommandBuffer)
  {
    && s.leftFence == Unsignaled && s.rightFence == Unsignaled
    && Lists(s, Both) == [h] && Lists(s, Left) == [] && Lists(s, Right) == []
  }

  /** The state after the idle iterations `xs`: one slot per iteration, each
      stranded and holding the BOTH buffer recorded in its iteration. */
  predicate IdleLoopState(r: RendererState, xs: seq<LoopInput>)
  {
    && |r.pool| == |xs| && r.current.None? && !r.initialized
    && forall k :: 0 <= k < |xs| ==> Stranded(r, k) && HoldsOnlyBoth(r.pool[k], xs[k].handle)
  }

  /** One more idle iteration appends one stranded slot and leaves the
      earlier ones exactly as they were. */
  lemma IdleLoopStep(prev: RendererState, init: seq<LoopInput>, x: LoopInput)
    requires IdleLoopState(prev, init) && KeepsIdle(x.poll, x.beginOk)
    ensures Run(prev, LoopIteration(x)).Some?
    ensures IdleLoopState(Run(prev, LoopIteration(x)).value, init + [x])
  {
    var xs := init + [x];
    assert PoolQuiescent(prev.pool, prev.current) by {
      forall k | 0 <= k < |prev.pool| ensures Quiescent(prev.pool[k]) {
        assert Stranded(prev, k);
      }
    }
    assert forall j :: 0 <= j < |prev.pool| ==> !prev.pool[j].available by {
      forall j | 0 <= j < |prev.pool| ensures !prev.pool[j].available {
        assert Stranded(prev, j);
      }
    }
    AcquireSpec(prev.pool);
    IdleIterationStrandsSlot(prev, x);
    var r := Run(prev, LoopIteration(x)).value;
    forall k | 0 <= k < |xs| ensures Stranded(r, k) && HoldsOnlyBoth(r.pool[k], xs[k].handle) {
      if k < |init| {
        assert Stranded(prev, k);
        assert r.pool[k] == CheckAndClear(prev.pool[k]).slot;
        assert xs[k] == init[k];
      }
    }
  }

  /** Pool growth while the session is not initialised: after one loop
      iteration per input from start-up, the pool holds one slot per
      iteration, every one of them stranded and still holding the BOTH
      buffer recorded in its iteration, so no slot is ever reused, no
      recorded buffer is ever freed and one slot is added per iteration. */
  lemma {:induction false} IdleLoopGrowsPool(xs: seq<LoopInput>)
    requires forall m :: 0 <= m < |xs| ==> KeepsIdle(xs[m].poll, xs[m].beginOk)
    ensures Run(Initial, LoopIterations(xs)).Some?
    ensures var r := Run(Initial, LoopIterations(xs)).value;
      && |r.pool| == |xs| && r.current.None? && !r.initialized
      && (forall k :: 0 <= k < |xs| ==> Stranded(r, k))
      && (forall k :: 0 <= k < |xs| ==> r.pool[k].leftFence == Unsignaled && r.pool[k].rightFence == Unsignaled)
      && (forall k :: 0 <= k < |xs| ==>
            Lists(r.pool[k], Both) == [xs[k].handle] && Lists(r.pool[k], Left) == [] && Lists(r.pool[k], Right) == [])
    decreases |xs|
  {
    IdleLoopInvariant(xs);
    var r := Run(Initial, LoopIterations(xs)).value;
    assert forall k :: 0 <= k < |xs| ==> Stranded(r, k) && HoldsOnlyBoth(r.pool[k], xs[k].handle);
  }

  lemma {:induction false} IdleLoopInvariant(xs: seq<LoopInput>)
    requires forall m :: 0 <= m < |xs| ==> KeepsIdle(xs[m].poll, xs[m].beginOk)
    ensures Run(Initial, LoopIterations(xs)).Some?
    ensures IdleLoopState(Run(Initial, LoopIterations(xs)).value, xs)
    decreases |xs|
  {
    if xs == [] {
      assert Run(Initial, LoopIterations(xs)) == Some(Initial);
    } else {
      var init := xs[..|xs| - 1];
      var x := xs[|xs| - 1];
      assert forall m :: 0 <= m < |init| ==> init[m] == xs[m];
      assert xs == init + [x];
      IdleLoopInvariant(init);
      var prev := Run(Initial, LoopIterations(init)).value;
      IdleLoopStep(prev, init, x);
      RunAppend(Initial, LoopIterations(init), LoopIteration(x));
    }
  }

  /** The slot leak also follows an eye that fails before its submit: the
      slot claimed for a frame whose left eye did not submit is stranded once
      the frame has ended, even though the right eye's fence completes. */
  lemma FailedEyeStrandsSlot(st: RendererState, env: FrameEnv)
    requires WellFormed(st) && PoolQuiescent(st.pool, st.current) && ReachesEyes(st.initialized, env)
    requires !Submits(env.leftEye)
    ensures CanRender(BeginFrameState(st), env)
    ensures Stranded(EndFrameState(RenderFrameState(BeginFrameState(st), env)), Acquire(st.pool).index)
  {
    var s1 := BeginFrameState(st);
    AcquireKeepsQuiescent(st.pool, st.current);
    FrameSlotsSpec(s1.pool, s1.current, s1.initialized, env);
  }

  // ------------------------------------------------------ the leak, corrected

  /** Each fence of the slot that nothing was submitted with gets an empty
      submission (vkQueueSubmit with no batches signals its fence once the
      work queued before it is done), so it becomes pending. */
  function Flushed(s: Slot): (r: Slot)
    ensures !HasUnsubmittedFence(r)
    ensures forall side :: Fence(s, side) != Unsignaled ==> Fence(r, side) == Fence(s, side)
    ensures forall t :: Lists(r, t) == Lists(s, t)
    ensures r.available == s.available
  {
    s.(leftFence := if s.leftFence == Unsignaled then Pending else s.leftFence,
       rightFence := if s.rightFence == Unsignaled then Pending else s.rightFence)
  }

  /** EndFrame as evidently intended: the current slot's unsubmitted fences
      are flushed before the reference to it is dropped, so the slot comes
      back once the GPU has caught up. */
  function FlushedEndFrameState(st: RendererState): (r: RendererState)
    requires WellFormed(st)
    ensures WellFormed(r) && r.current.None? && r.initialized == st.initialized && |r.pool| == |st.pool|
    ensures forall j :: 0 <= j < |st.pool| && st.current != Some(j) ==> r.pool[j] == st.pool[j]
    ensures st.current.Some? ==> r.pool[st.current.value] == Flushed(st.pool[st.current.value])
  {
    match st.current
    case None => st
    case Some(k) => RendererState(st.pool[k := Flushed(st.pool[k])], None, st.initialized)
  }

  /** The operations with the corrected EndFrame. */
  function ApplyFlushed(st: RendererState, op: Op): (r: Option<RendererState>)
    requires WellFormed(st)
    ensures r.Some? ==> WellFormed(r.value)
    ensures r.None? <==> op.RenderFrameOp? && !CanRender(st, op.env)
  {
    if op.EndFrameOp? then Some(FlushedEndFrameState(st)) else Apply(st, op)
  }

  function RunFlushed(st: RendererState, ops: seq<Op>): (r: Option<RendererState>)
    requires WellFormed(st)
    ensures r.Some? ==> WellFormed(r.value)
    decreases |ops|
  {
    if ops == [] then Some(st)
    else match ApplyFlushed(st, ops[0])
      case None => None
      case Some(next) => RunFlushed(next, ops[1..])
  }

  lemma {:induction false} RunFlushedAppend(st: RendererState, a: seq<Op>, b: seq<Op>)
    requires WellFormed(st) && RunFlushed(st, a).Some?
    ensures RunFlushed(st, a + b) == RunFlushed(RunFlushed(st, a).value, b)
    decreases |a|
  {
    if a == [] {
      assert a + b == b;
    } else {
      assert (a + b)[1..] == a[1..] + b;
      RunFlushedAppend(ApplyFlushed(st, a[0]).value, a[1..], b);
    }
  }

  predicate NoneStranded(st: RendererState)
  {
    forall k :: 0 <= k < |st.pool| ==> !Stranded(st, k)
  }

  /** With the corrected EndFrame no operation strands a slot, provided
      BeginFrame is only called between frames (as the application loop
      does). */
  lemma ApplyFlushedStrandsNothing(st: RendererState, op: Op)
    requires WellFormed(st) && NoneStranded(st)
    requires op.BeginFrameOp? ==> st.current.None?
    requires ApplyFlushed(st, op).Some?
    ensures NoneStranded(ApplyFlushed(st, op).value)
  {
    var r := ApplyFlushed(st, op).value;
    match op
    case BeginFrameOp =>
      AcquireSpec(st.pool);
      forall k | 0 <= k < |r.pool| ensures !Stranded(r, k) {
        if k != Acquire(st.pool).index {
          assert !Stranded(st, k);
        }
      }
    case RequestOp(b, t) =>
      forall k | 0 <= k < |r.pool| ensures !Stranded(r, k) {
        assert !Stranded(st, k);
      }
    case RenderFrameOp(env) =>
      FrameSlotsSpec(st.pool, st.current, st.initialized, env);
      forall k | 0 <= k < |r.pool| ensures !Stranded(r, k) {
        assert !Stranded(st, k);
      }
    case EndFrameOp =>
      forall k | 0 <= k < |r.pool| ensures !Stranded(r, k) {
        assert !Stranded(st, k);
      }
    case EventOp(poll, ok) =>
      forall k | 0 <= k < |r.pool| ensures !Stranded(r, k) {
        assert !Stranded(st, k);
      }
    case GpuCompletesOp(j, side) =>
      forall k | 0 <= k < |r.pool| ensures !Stranded(r, k) {
        assert !Stranded(st, k);
      }
  }

  /** A run whose first operation is defined goes on from that operation's state. */
  lemma RunFlushedCons(st: RendererState, ops: seq<Op>)
    requires WellFormed(st) && ops != [] && ApplyFlushed(st, ops[0]).Some?
    ensures RunFlushed(st, ops) == RunFlushed(ApplyFlushed(st, ops[0]).value, ops[1..])
  {
  }

  /** One loop iteration with the corrected EndFrame is defined, ends
      between frames and strands nothing, whatever the event, allocation
      and frame outcomes. */
  lemma FlushedIterationStrandsNothing(st: RendererState, x: LoopInput)
    requires WellFormed(st) && NoneStranded(st) && st.current.None?
    ensures RunFlushed(st, LoopIteration(x)).Some?
    ensures NoneStranded(RunFlushed(st, LoopIteration(x)).value)
    ensures RunFlushed(st, LoopIteration(x)).value.current.None?
  {
    var t0 := LoopIteration(x);
    var s1 := ApplyFlushed(st, t0[0]).value;
    ApplyFlushedStrandsNothing(st, t0[0]);
    RunFlushedCons(st, t0);
    var t1 := t0[1..];
    assert s1.current.None?;
    var s2 := ApplyFlushed(s1, t1[0]).value;
    ApplyFlushedStrandsNothing(s1, t1[0]);
    RunFlushedCons(s1, t1);
    var t2 := t1[1..];
    var s3 := ApplyFlushed(s2, t2[0]).value;
    ApplyFlushedStrandsNothing(s2, t2[0]);
    RunFlushedCons(s2, t2);
    var t3 := t2[1..];
    assert s3.current == s2.current && s3.current.Some?;
    assert CanRender(s3, x.env);
    var s4 := ApplyFlushed(s3, t3[0]).value;
    ApplyFlushedStrandsNothing(s3, t3[0]);
    RunFlushedCons(s3, t3);
    var t4 := t3[1..];
    var s5 := ApplyFlushed(s4, t4[0]).value;
    ApplyFlushedStrandsNothing(s4, t4[0]);
    RunFlushedCons(s4, t4);
    assert t4[1..] == [];
    assert RunFlushed(s5, t4[1..]) == Some(s5);
  }

  /** The corrected loop never strands a slot: after any iterations from
      start-up, every claimed slot that is not current has both fences
      submitted, so it is reclaimed once the GPU is done with it. */
  lemma {:induction false} FlushedLoopStrandsNothing(xs: seq<LoopInput>)
    ensures RunFlushed(Initial, LoopIterations(xs)).Some?
    ensures NoneStranded(RunFlushed(Initial, LoopIterations(xs)).value)
    ensures RunFlushed(Initial, LoopIterations(xs)).value.current.None?
    decreases |xs|
  {
    if xs == [] {
      assert RunFlushed(Initial, LoopIterations(xs)) == Some(Initial);
    } else {
      var init := xs[..|xs| - 1];
      var x := xs[|xs| - 1];
      FlushedLoopStrandsNothing(init);
      RunFlushedAppend(Initial, LoopIterations(init), LoopIteration(x));
      FlushedIterationStrandsNothing(RunFlushed(Initial, LoopIterations(init)).value, x);
    }
  }

  /** In the corrected lifecycle a slot outside the frame comes back: once
      the GPU completes both of its fences, the next RenderFrame leaves it
      Available. */
  lemma FlushedSlotComesBack(st: RendererState, k: nat, env: FrameEnv)
    requires WellFormed(st) && NoneStranded(st) && CanRender(st, env)
    requires k < |st.pool| && st.current != Some(k)
    ensures RunFlushed(st, [GpuCompletesOp(k, LeftEyeFence), GpuCompletesOp(k, RightEyeFence), RenderFrameOp(env)]).Some?
    ensures |RunFlushed(st, [GpuCompletesOp(k, LeftEyeFence), GpuCompletesOp(k, RightEyeFence), RenderFrameOp(env)]).value.pool| == |st.pool|
    ensures RunFlushed(st, [GpuCompletesOp(k, LeftEyeFence), GpuCompletesOp(k, RightEyeFence), RenderFrameOp(env)]).value.pool[k].available
  {
    var ops := [GpuCompletesOp(k, LeftEyeFence), GpuCompletesOp(k, RightEyeFence), RenderFrameOp(env)];
    var s1 := GpuState(st, k, LeftEyeFence);
    var s2 := GpuState(s1, k, RightEyeFence);
    assert !Stranded(st, k);
    assert s2.pool[k].available || BothSignaled(s2.pool[k]);
    assert CanRender(s2, env);
    FrameSlotsSpec(s2.pool, s2.current, s2.initialized, env);
    RunFlushedCons(st, ops);
    RunFlushedCons(s1, ops[1..]);
    RunFlushedCons(s2, ops[2..]);
    assert ops[3..] == [];
  }
}
