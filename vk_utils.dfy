/** The Vulkan helpers the renderer relies on to pick formats and image
    layout barriers. Enumerants carry their Vulkan values; flag masks are
    32-bit words. The physical-device format query is a function
    parameter. */
module VkUtils {
  import opened Common

  // VkFormat values used here.
  const FORMAT_UNDEFINED: int := 0
  const FORMAT_R8G8B8A8_UNORM: int := 37
  const FORMAT_R8G8B8A8_SRGB: int := 43
  const FORMAT_B8G8R8A8_UNORM: int := 44
  const FORMAT_B8G8R8A8_SRGB: int := 50
  const FORMAT_D32_SFLOAT: int := 126
  const FORMAT_D24_UNORM_S8_UINT: int := 129
  const FORMAT_D32_SFLOAT_S8_UINT: int := 130

  // VkImageTiling values.
  const TILING_OPTIMAL: int := 0
  const TILING_LINEAR: int := 1

  const FORMAT_FEATURE_DEPTH_STENCIL_ATTACHMENT_BIT: bv32 := 0x200

  // VkImageLayout values used here.
  const LAYOUT_UNDEFINED: int := 0
  const LAYOUT_DEPTH_STENCIL_ATTACHMENT_OPTIMAL: int := 3
  const LAYOUT_SHADER_READ_ONLY_OPTIMAL: int := 5
  const LAYOUT_TRANSFER_DST_OPTIMAL: int := 7

  const ACCESS_SHADER_READ_BIT: bv32 := 0x20
  const ACCESS_DEPTH_STENCIL_ATTACHMENT_READ_BIT: bv32 := 0x200
  const ACCESS_DEPTH_STENCIL_ATTACHMENT_WRITE_BIT: bv32 := 0x400
  const ACCESS_TRANSFER_WRITE_BIT: bv32 := 0x1000

  const PIPELINE_STAGE_TOP_OF_PIPE_BIT: bv32 := 0x1
  const PIPELINE_STAGE_FRAGMENT_SHADER_BIT: bv32 := 0x80
  const PIPELINE_STAGE_EARLY_FRAGMENT_TESTS_BIT: bv32 := 0x100
  const PIPELINE_STAGE_LATE_FRAGMENT_TESTS_BIT: bv32 := 0x200
  const PIPELINE_STAGE_TRANSFER_BIT: bv32 := 0x1000

  const IMAGE_ASPECT_COLOR_BIT: bv32 := 0x1
  const IMAGE_ASPECT_DEPTH_BIT: bv32 := 0x2

  const QUEUE_FAMILY_IGNORED: nat := 0xFFFF_FFFF

  /** The colour swapchain formats the renderer can use, in the order the
      table lists them. */
  const SupportedColorSwapchainFormats: seq<int> :=
    [FORMAT_B8G8R8A8_SRGB, FORMAT_R8G8B8A8_SRGB, FORMAT_B8G8R8A8_UNORM, FORMAT_R8G8B8A8_UNORM]

  /** The position of the first element of `xs` that occurs in `ys`
      (std::find_first_of). */
  function FindFirstOf(xs: seq<int>, ys: seq<int>): (r: Option<nat>)
    ensures r.Some? ==> r.value < |xs| && xs[r.value] in ys &&
                        forall i :: 0 <= i < r.value ==> xs[i] !in ys
    ensures r.None? <==> forall i :: 0 <= i < |xs| ==> xs[i] !in ys
  {
    if xs == [] then None
    else if xs[0] in ys then Some(0)
    else match FindFirstOf(xs[1..], ys)
      case None => None
      case Some(i) => Some(i + 1)
  }

  /** SelectColorSwapchainFormat: the runtime's earliest format that the
      renderer supports, so the runtime's order of preference wins; None
      where the source would dereference the end iterator. */
  function SelectColorSwapchainFormat(runtimeFormats: seq<int>): (r: Option<int>)
    ensures r.Some? ==> r.value in SupportedColorSwapchainFormats &&
                        exists i :: 0 <= i < |runtimeFormats| && runtimeFormats[i] == r.value &&
                          forall j :: 0 <= j < i ==> runtimeFormats[j] !in SupportedColorSwapchainFormats
    ensures r.None? <==> forall i :: 0 <= i < |runtimeFormats| ==> runtimeFormats[i] !in SupportedColorSwapchainFormats
  {
    match FindFirstOf(runtimeFormats, SupportedColorSwapchainFormats)
    case None => None
    case Some(i) => Some(runtimeFormats[i])
  }

  /** The runtime's order decides, not the table's: a runtime that lists
      R8G8B8A8_UNORM before B8G8R8A8_SRGB gets R8G8B8A8_UNORM. */
  lemma RuntimeOrderWins(runtimeFormats: seq<int>, i: nat)
    requires i < |runtimeFormats| && runtimeFormats[i] in SupportedColorSwapchainFormats
    requires forall j :: 0 <= j < i ==> runtimeFormats[j] !in SupportedColorSwapchainFormats
    ensures SelectColorSwapchainFormat(runtimeFormats) == Some(runtimeFormats[i])
  {
  }

  /** What vkGetPhysicalDeviceFormatProperties reports for one format. */
  datatype FormatProperties = FormatProperties(linearTilingFeatures: bv32, optimalTilingFeatures: bv32)

  /** Whether `p` offers every bit of `features` for `tiling`; a tiling that
      is neither LINEAR nor OPTIMAL offers nothing. */
  predicate Supports(p: FormatProperties, tiling: int, features: bv32)
  {
    (tiling == TILING_LINEAR && HasFeatures(p.linearTilingFeatures, features)) ||
    (tiling == TILING_OPTIMAL && HasFeatures(p.optimalTilingFeatures, features))
  }

  /** Every bit of `features` is set in `mask`. */
  predicate HasFeatures(mask: bv32, features: bv32)
  {
    mask & features == features
  }

  /** The reference for findSupportedFormat: the first candidate the device
      supports, or UNDEFINED. */
  function FirstSupported(props: int -> FormatProperties, candidates: seq<int>, tiling: int, features: bv32): (r: int)
    ensures r == FORMAT_UNDEFINED || r in candidates
  {
    if candidates == [] then FORMAT_UNDEFINED
    else if Supports(props(candidates[0]), tiling, features) then candidates[0]
    else FirstSupported(props, candidates[1..], tiling, features)
  }

  /** The first supported candidate is chosen, earlier candidates are
      unsupported, and UNDEFINED comes back exactly when nothing fits. */
  lemma {:induction false} FirstSupportedSpec(props: int -> FormatProperties, candidates: seq<int>, tiling: int, features: bv32)
    ensures var r := FirstSupported(props, candidates, tiling, features);
      && ((forall i :: 0 <= i < |candidates| ==> !Supports(props(candidates[i]), tiling, features)) ==>
            r == FORMAT_UNDEFINED)
      && ((exists i :: 0 <= i < |candidates| && Supports(props(candidates[i]), tiling, features)) ==>
            exists i :: 0 <= i < |candidates| && r == candidates[i] &&
              Supports(props(candidates[i]), tiling, features) &&
              forall j :: 0 <= j < i ==> !Supports(props(candidates[j]), tiling, features))
    decreases |candidates|
  {
    if candidates != [] && !Supports(props(candidates[0]), tiling, features) {
      var rest := candidates[1..];
      FirstSupportedSpec(props, rest, tiling, features);
      if exists i :: 0 <= i < |candidates| && Supports(props(candidates[i]), tiling, features) {
        var i :| 0 <= i < |candidates| && Supports(props(candidates[i]), tiling, features);
        assert Supports(props(rest[i - 1]), tiling, features);
        var i' :| 0 <= i' < |rest| && FirstSupported(props, rest, tiling, features) == rest[i'] &&
                  Supports(props(rest[i']), tiling, features) &&
                  forall j :: 0 <= j < i' ==> !Supports(props(rest[j]), tiling, features);
        assert forall j :: 0 <= j < i' + 1 ==> !Supports(props(candidates[j]), tiling, features) by {
          forall j | 0 <= j < i' + 1 ensures !Supports(props(candidates[j]), tiling, features) {
            if j > 0 {
              assert candidates[j] == rest[j - 1];
            }
          }
        }
        assert candidates[i' + 1] == rest[i'];
      }
    }
  }

  /** A tiling other than LINEAR and OPTIMAL never finds a format. */
  lemma {:induction false} UnknownTilingFindsNothing(props: int -> FormatProperties, candidates: seq<int>, tiling: int, features: bv32)
    requires tiling != TILING_LINEAR && tiling != TILING_OPTIMAL
    ensures FirstSupported(props, candidates, tiling, features) == FORMAT_UNDEFINED
    decreases |candidates|
  {
    if candidates != [] {
      UnknownTilingFindsNothing(props, candidates[1..], tiling, features);
    }
  }

  /** findSupportedFormat: query each candidate in order and return the
      first whose features for `tiling` include `features`. */
  method FindSupportedFormat(props: int -> FormatProperties, candidates: seq<int>, tiling: int, features: bv32)
    returns (format: int)
    ensures format == FirstSupported(props, candidates, tiling, features)
  {
    for i := 0 to |candidates|
      invariant FirstSupported(props, candidates, tiling, features) ==
                FirstSupported(props, candidates[i..], tiling, features)
    {
      var p := props(candidates[i]);
      ghost var rest := candidates[i..];
      assert rest[0] == candidates[i] && rest[1..] == candidates[i + 1..];
      if tiling == TILING_LINEAR && HasFeatures(p.linearTilingFeatures, features) {
        return candidates[i];
      } else if tiling == TILING_OPTIMAL && HasFeatures(p.optimalTilingFeatures, features) {
        return candidates[i];
      }
    }
    assert candidates[|candidates|..] == [];
    format := FORMAT_UNDEFINED;
  }

  /** The depth formats findDepthFormat asks for, most preferred first. */
  const DepthCandidates: seq<int> := [FORMAT_D32_SFLOAT, FORMAT_D32_SFLOAT_S8_UINT, FORMAT_D24_UNORM_S8_UINT]

  predicate DepthCapable(props: int -> FormatProperties, format: int)
  {
    Supports(props(format), TILING_OPTIMAL, FORMAT_FEATURE_DEPTH_STENCIL_ATTACHMENT_BIT)
  }

  /** findDepthFormat: D32_SFLOAT if the device can use it as an optimally
      tiled depth-stencil attachment, else D32_SFLOAT_S8_UINT, else
      D24_UNORM_S8_UINT, else UNDEFINED. */
  method FindDepthFormat(props: int -> FormatProperties) returns (format: int)
    ensures DepthCapable(props, FORMAT_D32_SFLOAT) ==> format == FORMAT_D32_SFLOAT
    ensures !DepthCapable(props, FORMAT_D32_SFLOAT) && DepthCapable(props, FORMAT_D32_SFLOAT_S8_UINT) ==>
              format == FORMAT_D32_SFLOAT_S8_UINT
    ensures (!DepthCapable(props, FORMAT_D32_SFLOAT) && !DepthCapable(props, FORMAT_D32_SFLOAT_S8_UINT) &&
             DepthCapable(props, FORMAT_D24_UNORM_S8_UINT)) ==> format == FORMAT_D24_UNORM_S8_UINT
    ensures format == FORMAT_UNDEFINED <==>
              !DepthCapable(props, FORMAT_D32_SFLOAT) && !DepthCapable(props, FORMAT_D32_SFLOAT_S8_UINT) &&
              !DepthCapable(props, FORMAT_D24_UNORM_S8_UINT)
  {
    format := FindSupportedFormat(props, DepthCandidates, TILING_OPTIMAL, FORMAT_FEATURE_DEPTH_STENCIL_ATTACHMENT_BIT);
    var features := FORMAT_FEATURE_DEPTH_STENCIL_ATTACHMENT_BIT;
    var tail := [FORMAT_D24_UNORM_S8_UINT];
    assert tail[1..] == [];
    assert FirstSupported(props, tail, TILING_OPTIMAL, features) ==
           if DepthCapable(props, FORMAT_D24_UNORM_S8_UINT) then FORMAT_D24_UNORM_S8_UINT else FORMAT_UNDEFINED;
    var middle := [FORMAT_D32_SFLOAT_S8_UINT, FORMAT_D24_UNORM_S8_UINT];
    assert middle[1..] == tail;
    assert DepthCandidates[1..] == middle;
  }

  /** One row of the transition table of transitionImageLayout. */
  datatype Transition = Transition(oldLayout: int, newLayout: int,
                                   srcAccessMask: bv32, dstAccessMask: bv32,
                                   srcStage: bv32, dstStage: bv32)

  /** The three layout transitions with defined masks: texture upload
      (undefined to transfer destination, then transfer destination to
      shader read) and depth attachment set-up. */
  const SupportedTransitions: seq<Transition> := [
    Transition(LAYOUT_UNDEFINED, LAYOUT_TRANSFER_DST_OPTIMAL,
               0, ACCESS_TRANSFER_WRITE_BIT,
               PIPELINE_STAGE_TOP_OF_PIPE_BIT, PIPELINE_STAGE_TRANSFER_BIT),
    Transition(LAYOUT_TRANSFER_DST_OPTIMAL, LAYOUT_SHADER_READ_ONLY_OPTIMAL,
               ACCESS_TRANSFER_WRITE_BIT, ACCESS_SHADER_READ_BIT,
               PIPELINE_STAGE_TRANSFER_BIT, PIPELINE_STAGE_FRAGMENT_SHADER_BIT),
    Transition(LAYOUT_UNDEFINED, LAYOUT_DEPTH_STENCIL_ATTACHMENT_OPTIMAL,
               0, ACCESS_DEPTH_STENCIL_ATTACHMENT_READ_BIT | ACCESS_DEPTH_STENCIL_ATTACHMENT_WRITE_BIT,
               PIPELINE_STAGE_TOP_OF_PIPE_BIT,
               PIPELINE_STAGE_EARLY_FRAGMENT_TESTS_BIT | PIPELINE_STAGE_LATE_FRAGMENT_TESTS_BIT)
  ]

  predicate Listed(oldLayout: int, newLayout: int)
  {
    exists i :: 0 <= i < |SupportedTransitions| &&
      SupportedTransitions[i].oldLayout == oldLayout && SupportedTransitions[i].newLayout == newLayout
  }

  /** The listed pairs, written out. */
  lemma ListedPairs(oldLayout: int, newLayout: int)
    ensures Listed(oldLayout, newLayout) <==>
      (oldLayout == LAYOUT_UNDEFINED && newLayout == LAYOUT_TRANSFER_DST_OPTIMAL) ||
      (oldLayout == LAYOUT_TRANSFER_DST_OPTIMAL && newLayout == LAYOUT_SHADER_READ_ONLY_OPTIMAL) ||
      (oldLayout == LAYOUT_UNDEFINED && newLayout == LAYOUT_DEPTH_STENCIL_ATTACHMENT_OPTIMAL)
  {
    var t := SupportedTransitions;
    if oldLayout == LAYOUT_UNDEFINED && newLayout == LAYOUT_TRANSFER_DST_OPTIMAL {
      assert t[0].oldLayout == oldLayout && t[0].newLayout == newLayout;
    } else if oldLayout == LAYOUT_TRANSFER_DST_OPTIMAL && newLayout == LAYOUT_SHADER_READ_ONLY_OPTIMAL {
      assert t[1].oldLayout == oldLayout && t[1].newLayout == newLayout;
    } else if oldLayout == LAYOUT_UNDEFINED && newLayout == LAYOUT_DEPTH_STENCIL_ATTACHMENT_OPTIMAL {
      assert t[2].oldLayout == oldLayout && t[2].newLayout == newLayout;
    }
  }

  /** No pair of layouts has two rows, so the table determines the masks. */
  lemma TransitionTableIsFunctional()
    ensures forall i, j :: 0 <= i < j < |SupportedTransitions| ==>
              (SupportedTransitions[i].oldLayout, SupportedTransitions[i].newLayout) !=
              (SupportedTransitions[j].oldLayout, SupportedTransitions[j].newLayout)
  {
  }

  /** The two upload transitions chain: the second waits on exactly the
      stage and the access that the first one makes visible. */
  lemma UploadTransitionsChain()
    ensures SupportedTransitions[0].newLayout == SupportedTransitions[1].oldLayout
    ensures SupportedTransitions[0].dstStage == SupportedTransitions[1].srcStage
    ensures SupportedTransitions[0].dstAccessMask == SupportedTransitions[1].srcAccessMask
  {
  }

  datatype SubresourceRange = SubresourceRange(aspectMask: bv32, baseMipLevel: nat, levelCount: nat,
                                               baseArrayLayer: nat, layerCount: nat)

  datatype ImageMemoryBarrier = ImageMemoryBarrier(
    oldLayout: int, newLayout: int,
    srcQueueFamilyIndex: nat, dstQueueFamilyIndex: nat,
    image: nat, subresourceRange: SubresourceRange,
    srcAccessMask: bv32, dstAccessMask: bv32)

  /** The vkCmdPipelineBarrier that transitionImageLayout records; a stage
      mask is None where the source leaves the variable uninitialised. */
  datatype PipelineBarrier = PipelineBarrier(srcStage: Option<bv32>, dstStage: Option<bv32>,
                                             barrier: ImageMemoryBarrier)

  /** transitionImageLayout: fills the barrier for one whole-image, single
      mip, single layer transition of `image`; its masks come from the
      table, and an unlisted pair keeps zero access masks and unset stages. */
  method TransitionImageLayout(image: nat, oldLayout: int, newLayout: int) returns (call: PipelineBarrier)
    ensures call.barrier.oldLayout == oldLayout && call.barrier.newLayout == newLayout
    ensures call.barrier.image == image
    ensures call.barrier.srcQueueFamilyIndex == QUEUE_FAMILY_IGNORED == call.barrier.dstQueueFamilyIndex
    ensures call.barrier.subresourceRange.aspectMask ==
              (if newLayout == LAYOUT_DEPTH_STENCIL_ATTACHMENT_OPTIMAL then IMAGE_ASPECT_DEPTH_BIT
               else IMAGE_ASPECT_COLOR_BIT)
    ensures call.barrier.subresourceRange.baseMipLevel == 0 && call.barrier.subresourceRange.levelCount == 1
    ensures call.barrier.subresourceRange.baseArrayLayer == 0 && call.barrier.subresourceRange.layerCount == 1
    ensures call.srcStage.Some? <==> Listed(oldLayout, newLayout)
    ensures call.dstStage.Some? <==> Listed(oldLayout, newLayout)
    ensures forall i :: 0 <= i < |SupportedTransitions| && SupportedTransitions[i].oldLayout == oldLayout &&
                        SupportedTransitions[i].newLayout == newLayout ==>
              call.barrier.srcAccessMask == SupportedTransitions[i].srcAccessMask &&
              call.barrier.dstAccessMask == SupportedTransitions[i].dstAccessMask &&
              call.srcStage == Some(SupportedTransitions[i].srcStage) &&
              call.dstStage == Some(SupportedTransitions[i].dstStage)
    ensures !Listed(oldLayout, newLayout) ==> call.barrier.srcAccessMask == 0 == call.barrier.dstAccessMask
  {
    var aspectMask: bv32;
    if newLayout == LAYOUT_DEPTH_STENCIL_ATTACHMENT_OPTIMAL {
      aspectMask := IMAGE_ASPECT_DEPTH_BIT;
    } else {
      aspectMask := IMAGE_ASPECT_COLOR_BIT;
    }
    var range := SubresourceRange(aspectMask, 0, 1, 0, 1);
    var srcAccessMask: bv32, dstAccessMask: bv32 := 0, 0;
    var sourceStage: Option<bv32>, destinationStage: Option<bv32> := None, None;
    if oldLayout == LAYOUT_UNDEFINED && newLayout == LAYOUT_TRANSFER_DST_OPTIMAL {
      srcAccessMask := 0;
      dstAccessMask := ACCESS_TRANSFER_WRITE_BIT;
      sourceStage := Some(PIPELINE_STAGE_TOP_OF_PIPE_BIT);
      destinationStage := Some(PIPELINE_STAGE_TRANSFER_BIT);
    } else if oldLayout == LAYOUT_TRANSFER_DST_OPTIMAL && newLayout == LAYOUT_SHADER_READ_ONLY_OPTIMAL {
      srcAccessMask := ACCESS_TRANSFER_WRITE_BIT;
      dstAccessMask := ACCESS_SHADER_READ_BIT;
      sourceStage := Some(PIPELINE_STAGE_TRANSFER_BIT);
      destinationStage := Some(PIPELINE_STAGE_FRAGMENT_SHADER_BIT);
    } else if oldLayout == LAYOUT_UNDEFINED && newLayout == LAYOUT_DEPTH_STENCIL_ATTACHMENT_OPTIMAL {
      srcAccessMask := 0;
      dstAccessMask := ACCESS_DEPTH_STENCIL_ATTACHMENT_READ_BIT | ACCESS_DEPTH_STENCIL_ATTACHMENT_WRITE_BIT;
      sourceStage := Some(PIPELINE_STAGE_TOP_OF_PIPE_BIT);
      destinationStage := Some(PIPELINE_STAGE_EARLY_FRAGMENT_TESTS_BIT | PIPELINE_STAGE_LATE_FRAGMENT_TESTS_BIT);
    }
    var barrier := ImageMemoryBarrier(oldLayout, newLayout, QUEUE_FAMILY_IGNORED, QUEUE_FAMILY_IGNORED,
                                      image, range, srcAccessMask, dstAccessMask);
    call := PipelineBarrier(sourceStage, destinationStage, barrier);
    ListedPairs(oldLayout, newLayout);
  }
}
