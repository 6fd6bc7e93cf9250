/** The parameter choices of CreateSwapChain (src/vulkan_window.cpp):
    surface format, presentation mode, image count, extent and sharing mode. */
module SwapchainSettings {
  import opened VkTypes
  import opened QueueFamilies

  const PREFERRED_SURFACE_FORMAT: SurfaceFormat := SurfaceFormat(B8G8R8A8Unorm, SrgbNonlinear)

  /** The format loop: every entry equal to the preferred format overwrites
      `chosen`; nothing is written otherwise. */
  function ScanFormats(formats: seq<SurfaceFormat>, chosen: Option<SurfaceFormat>): (r: Option<SurfaceFormat>)
    ensures PREFERRED_SURFACE_FORMAT in formats ==> r == Some(PREFERRED_SURFACE_FORMAT)
    ensures PREFERRED_SURFACE_FORMAT !in formats ==> r == chosen
    decreases |formats|
  {
    if |formats| == 0 then chosen
    else
      var format := formats[0];
      var chosen' :=
        if format.format == B8G8R8A8Unorm && format.colorSpace == SrgbNonlinear then Some(format) else chosen;
      assert formats == [format] + formats[1..];
      ScanFormats(formats[1..], chosen')
  }

  /** Surface-format choice. `None` stands for the value the source leaves
      uninitialised: more than one format without the preferred one, or an
      empty list (where the source reads the front of an empty vector). */
  function ChooseSurfaceFormat(formats: seq<SurfaceFormat>): (r: Option<SurfaceFormat>)
    ensures |formats| == 1 ==> r == Some(formats[0])
    ensures |formats| > 1 ==> (r.Some? <==> PREFERRED_SURFACE_FORMAT in formats)
    ensures |formats| > 1 && r.Some? ==> r.value == PREFERRED_SURFACE_FORMAT
    ensures |formats| == 0 ==> r.None?
    ensures r.Some? ==> r.value in formats
  {
    if |formats| > 1 then ScanFormats(formats, None)
    else if |formats| == 1 then Some(formats[0])
    else None
  }

  /** Presentation-mode choice: the loop stops at IMMEDIATE; when it is not
      found the mode is MAILBOX, listed or not. */
  function ChoosePresentMode(modes: seq<PresentMode>): (mode: PresentMode)
    ensures mode == Immediate <==> Immediate in modes
    ensures mode != Immediate ==> mode == Mailbox
    decreases |modes|
  {
    if |modes| == 0 then Mailbox
    else if modes[0] == Immediate then Immediate
    else
      assert modes == [modes[0]] + modes[1..];
      ChoosePresentMode(modes[1..])
  }

  /** The fallback is not checked against the supported list: a surface that
      offers FIFO only is given MAILBOX. */
  lemma MailboxFallbackIsUnchecked()
    ensures ChoosePresentMode([Fifo]) == Mailbox
    ensures Mailbox !in [Fifo]
    ensures ChoosePresentMode([Fifo, Mailbox]) == Mailbox
  {
  }

  /** Image count: minImageCount + 1 in 32-bit unsigned arithmetic, lowered
      to maxImageCount when a maximum exists and is exceeded. */
  function ChooseImageCount(caps: SurfaceCapabilities): (count: uint32)
    ensures caps.minImageCount < UINT32_MAX && caps.maxImageCount == 0 ==> count == caps.minImageCount + 1
    ensures caps.maxImageCount > 0 ==> count <= caps.maxImageCount
    ensures caps.minImageCount < UINT32_MAX && caps.maxImageCount > 0 ==>
              (count == caps.minImageCount + 1 <==> caps.minImageCount + 1 <= caps.maxImageCount)
    ensures caps.minImageCount < UINT32_MAX && caps.maxImageCount > 0 && caps.minImageCount + 1 > caps.maxImageCount ==>
              count == caps.maxImageCount
    ensures caps.minImageCount == UINT32_MAX ==> count == 0
  {
    var requested: uint32 := (caps.minImageCount + 1) % (UINT32_MAX + 1);
    if caps.maxImageCount > 0 && requested > caps.maxImageCount then caps.maxImageCount else requested
  }

  /** With consistent capabilities (no maximum, or minimum <= maximum) and no
      wrap-around, the count lies in [minImageCount, maxImageCount]; the
      examples are min 2 / max 0 giving 3 and min 2 / max 2 giving 2. */
  lemma ImageCountWithinSupportedRange(caps: SurfaceCapabilities)
    requires caps.minImageCount < UINT32_MAX
    requires caps.maxImageCount == 0 || caps.minImageCount <= caps.maxImageCount
    ensures caps.minImageCount <= ChooseImageCount(caps)
    ensures caps.maxImageCount > 0 ==> ChooseImageCount(caps) <= caps.maxImageCount
    ensures ChooseImageCount(SurfaceCapabilities(2, 0, caps.minImageExtent, caps.maxImageExtent)) == 3
    ensures ChooseImageCount(SurfaceCapabilities(2, 2, caps.minImageExtent, caps.maxImageExtent)) == 2
  {
  }

  /** std::clamp, which requires low <= high. */
  function Clamp(v: uint32, low: uint32, high: uint32): (r: uint32)
    requires low <= high
    ensures low <= r <= high
    ensures low <= v <= high ==> r == v
  {
    if v < low then low else if high < v then high else v
  }

  function Distance(a: int, b: int): nat {
    if a < b then b - a else a - b
  }

  /** The clamped value is the point of [low, high] nearest to `v`, and
      clamping twice changes nothing. */
  lemma ClampIsNearestPoint(v: uint32, low: uint32, high: uint32, x: uint32)
    requires low <= high
    requires low <= x <= high
    ensures Distance(Clamp(v, low, high), v) <= Distance(x, v)
    ensures Clamp(Clamp(v, low, high), low, high) == Clamp(v, low, high)
  {
  }

  /** The device's extent bounds are ordered, as std::clamp demands. */
  predicate ExtentBoundsOrdered(caps: SurfaceCapabilities) {
    && caps.minImageExtent.width <= caps.maxImageExtent.width
    && caps.minImageExtent.height <= caps.maxImageExtent.height
  }

  predicate ExtentWithin(e: Extent, caps: SurfaceCapabilities) {
    && caps.minImageExtent.width <= e.width <= caps.maxImageExtent.width
    && caps.minImageExtent.height <= e.height <= caps.maxImageExtent.height
  }

  /** The window's client size clamped component-wise into the device bounds. */
  function ChooseExtent(window: Extent, caps: SurfaceCapabilities): (extent: Extent)
    requires ExtentBoundsOrdered(caps)
    ensures ExtentWithin(extent, caps)
    ensures ExtentWithin(window, caps) ==> extent == window
  {
    Extent(Clamp(window.width, caps.minImageExtent.width, caps.maxImageExtent.width),
           Clamp(window.height, caps.minImageExtent.height, caps.maxImageExtent.height))
  }

  /** Choosing the extent again from its own result gives the same extent, so
      recreating at an unchanged size reproduces the viewport. */
  lemma ExtentChoiceIsStable(window: Extent, caps: SurfaceCapabilities)
    requires ExtentBoundsOrdered(caps)
    ensures ChooseExtent(ChooseExtent(window, caps), caps) == ChooseExtent(window, caps)
  {
  }

  /** Exclusive sharing carries no family list; concurrent sharing carries the
      graphics and presentation indices, in that order. */
  datatype SharingMode = Exclusive | Concurrent(familyIndices: seq<nat>)

  function ChooseSharingMode(ix: QueueFamilyIndices): (mode: SharingMode)
    ensures mode.Exclusive? <==> ix.graphics == ix.present
    ensures mode.Concurrent? ==> |mode.familyIndices| == NUMBER_OF_QUEUE_INDICES
    ensures mode.Concurrent? ==> mode.familyIndices[0] != mode.familyIndices[1]
    ensures mode.Concurrent? ==> mode.familyIndices == [ix.graphics, ix.present]
  {
    if ix.graphics == ix.present then Exclusive
    else Concurrent([ix.graphics, ix.present])
  }

  /** The swapchain's sharing mode agrees with the queue requests of device
      creation: exclusive exactly when one queue family was requested, and
      otherwise concurrent over exactly the requested families. */
  lemma SharingAgreesWithQueueRequests(ix: QueueFamilyIndices)
    ensures ChooseSharingMode(ix).Exclusive? <==> |QueueCreateInfos(ix)| == 1
    ensures ChooseSharingMode(ix).Concurrent? ==>
              (set i | 0 <= i < |ChooseSharingMode(ix).familyIndices| :: ChooseSharingMode(ix).familyIndices[i])
              == (set i | 0 <= i < |QueueCreateInfos(ix)| :: QueueCreateInfos(ix)[i].familyIndex)
  {
    FetchedQueuesWereRequested(ix);
    var mode := ChooseSharingMode(ix);
    if mode.Concurrent? {
      assert (set i | 0 <= i < |mode.familyIndices| :: mode.familyIndices[i]) == UniqueFamilies(ix) by {
        assert mode.familyIndices[0] == ix.graphics && mode.familyIndices[1] == ix.present;
      }
    }
  }

  /** The fields of VkSwapchainCreateInfoKHR that the code chooses. */
  datatype SwapchainCreateInfo = SwapchainCreateInfo(
    minImageCount: uint32,
    surfaceFormat: Option<SurfaceFormat>,
    extent: Extent,
    presentMode: PresentMode,
    sharing: SharingMode)

  /** The create info CreateSwapChain builds for a device, its resolved
      queue families, the surface capabilities and the window's client size. */
  function SwapchainCreateInfoFor(device: PhysicalDevice, ix: QueueFamilyIndices,
                                  caps: SurfaceCapabilities, window: Extent): (info: SwapchainCreateInfo)
    requires ExtentBoundsOrdered(caps)
    ensures info.surfaceFormat.Some? ==> info.surfaceFormat.value in device.surfaceFormats
    ensures info.presentMode == Immediate <==> Immediate in device.presentModes
    ensures ExtentWithin(info.extent, caps)
    ensures caps.maxImageCount > 0 ==> info.minImageCount <= caps.maxImageCount
    ensures info.sharing.Exclusive? <==> ix.graphics == ix.present
  {
    SwapchainCreateInfo(
      ChooseImageCount(caps),
      ChooseSurfaceFormat(device.surfaceFormats),
      ChooseExtent(window, caps),
      ChoosePresentMode(device.presentModes),
      ChooseSharingMode(ix))
  }
}
