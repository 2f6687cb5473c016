/** One recording slot of the renderer: the secondary command buffers
    recorded for the current frame, keyed by eye target, the two fences the
    per-eye submissions signal, and the Available flag that says whether the
    slot may be handed out again. */
module FrameCache {
  import opened Common
  import CacheSpec

  /** The map of lists always holds a list for each of the three targets
      (LEFT, RIGHT and BOTH are inserted by the constructor and never
      erased), so looking a target up never fails. */
  type BufferLists = m: map<EyeTarget, seq<CommandBuffer>> | Left in m && Right in m && Both in m
    witness map[Left := [], Right := [], Both := []]

  class FrameCommandBufferCache {
    var available: bool
    var commandBuffers: BufferLists
    var leftEyeFence: FenceState
    var rightEyeFence: FenceState

    /** The abstract value of the slot. */
    function Value(): CacheSpec.Slot
      reads this
    {
      CacheSpec.Slot(commandBuffers[Left], commandBuffers[Right], commandBuffers[Both],
                     leftEyeFence, rightEyeFence, available)
    }

    /** Both fences are created unsignaled and the three lists empty. */
    constructor ()
      ensures Value() == CacheSpec.Fresh
      ensures available && commandBuffers == map[Left := [], Right := [], Both := []]
    {
      leftEyeFence := Unsignaled;
      rightEyeFence := Unsignaled;
      commandBuffers := map[Left := [], Right := [], Both := []];
      available := true;
    }

    method Claim()
      modifies this
      ensures Value() == CacheSpec.Claimed(old(Value()))
    {
      available := false;
    }

    /** Polls both fences (wait-all, zero timeout). When both are signaled
        every buffer is freed, the lists are cleared, the fences are reset
        and the slot becomes Available; otherwise nothing changes. */
    method CheckAndClearCaches() returns (outcome: CacheSpec.ReclaimOutcome)
      modifies this
      ensures Value() == CacheSpec.CheckAndClear(old(Value())).slot
      ensures outcome == CacheSpec.CheckAndClear(old(Value())).outcome
    {
      if leftEyeFence == Signaled && rightEyeFence == Signaled {
        var freed := commandBuffers[Left] + commandBuffers[Right] + commandBuffers[Both];
        commandBuffers := commandBuffers[Left := []];
        commandBuffers := commandBuffers[Right := []];
        commandBuffers := commandBuffers[Both := []];
        leftEyeFence, rightEyeFence := Unsignaled, Unsignaled;
        available := true;
        outcome := CacheSpec.Reclaimed(freed);
      } else {
        outcome := CacheSpec.StillPending;
      }
    }

    /** The fence a submission for `target` signals. */
    function GetFence(target: EyeTarget): (side: FenceSide)
      ensures side == CacheSpec.FenceFor(target)
    {
      if target == Left then LeftEyeFence else RightEyeFence
    }

    function GetCommandBuffers(target: EyeTarget): (bufs: seq<CommandBuffer>)
      reads this
      ensures bufs == CacheSpec.Lists(Value(), target)
    {
      commandBuffers[target]
    }

    /** Whether the slot may be handed out for a new frame. */
    function Available(): (b: bool)
      reads this
      ensures b == Value().available
    {
      available
    }

    method PushCommandBuffer(commandBuffer: CommandBuffer, target: EyeTarget)
      modifies this
      ensures Value() == CacheSpec.Pushed(old(Value()), commandBuffer, target)
    {
      commandBuffers := commandBuffers[target := commandBuffers[target] + [commandBuffer]];
    }

    /** What vkQueueSubmit does to the fence it is given: the fence becomes
        pending until the GPU has run the submitted work. */
    method MarkSubmitted(side: FenceSide)
      modifies this
      ensures Value() == CacheSpec.Submitted(old(Value()), side)
    {
      if side == LeftEyeFence {
        leftEyeFence := Pending;
      } else {
        rightEyeFence := Pending;
      }
    }

    /** Environment action: the GPU completes the work guarded by `side`. */
    method GpuCompletes(side: FenceSide)
      modifies this
      ensures Value() == CacheSpec.Completed(old(Value()), side)
    {
      if side == LeftEyeFence && leftEyeFence == Pending {
        leftEyeFence := Signaled;
      } else if side == RightEyeFence && rightEyeFence == Pending {
        rightEyeFence := Signaled;
      }
    }
  }
}
