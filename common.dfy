/** Shared vocabulary of the stereo renderer model: optional values, the
    eye targets a recorded command buffer can be meant for, command-buffer
    handles and the abstract state of a GPU fence. */
module Common {

  datatype Option<+T> = None | Some(value: T)

  /** A Vulkan handle is modelled by a number; 0 stands for VK_NULL_HANDLE. */
  const NullHandle: nat := 0

  /** A secondary command buffer handle (0 when allocation failed). */
  type CommandBuffer = nat

  /** Which view a secondary command buffer is recorded for. The eye loop of
      RenderFrame casts 0 to LEFT and 1 to RIGHT. */
  datatype EyeTarget = Left | Right | Both

  /** The number of views rendered per frame (EYE_COUNT). */
  const EyeCount: nat := 2

  /** The eye rendered in iteration `i` of the eye loop. */
  function EyeOf(i: nat): (t: EyeTarget)
    requires i < EyeCount
    ensures t != Both
    ensures (t == Left) <==> (i == 0)
  {
    if i == 0 then Left else Right
  }

  /** A fence is created unsignaled, becomes pending when a queue
      submission names it, is signaled by the GPU once that work is done and
      returns to unsignaled when it is reset. */
  datatype FenceState = Unsignaled | Pending | Signaled

  /** The two fences every cache slot owns. */
  datatype FenceSide = LeftEyeFence | RightEyeFence
}
