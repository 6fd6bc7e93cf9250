/** The earlier revision of the window (vulkan_window.cpp at the repository
    root). It picks the adapter by score alone, without any suitability
    check; looks for one graphics-capable queue family and falls back to
    family 0 when there is none; creates the logical device with a single
    one-queue request and the instance extension list; and fetches queue 0 of
    that family. Failures are logged and the function returns instead of
    throwing; each becomes an `Error` here. */
module LegacyWindow {
  import opened VkTypes
  import opened DeviceSelection
  import opened QueueFamilies

  /** The extension list the instance is created with, and the one this
      revision also hands to vkCreateDevice. */
  const INSTANCE_EXTENSIONS: seq<string> := ["VK_KHR_surface", "VK_KHR_win32_surface"]

  predicate AllIntegrated(devices: seq<PhysicalDevice>) {
    forall j :: 0 <= j < |devices| ==> devices[j].deviceType == IntegratedGpu
  }

  /** `k` is the first adapter that is not an integrated GPU. */
  predicate IsFirstNonIntegrated(devices: seq<PhysicalDevice>, k: nat) {
    && k < |devices|
    && devices[k].deviceType != IntegratedGpu
    && forall j :: 0 <= j < k ==> devices[j].deviceType == IntegratedGpu
  }

  /** Reference definition: `k` holds the highest score, and no earlier
      adapter reaches it. */
  predicate IsFirstHighestScore(devices: seq<PhysicalDevice>, k: nat) {
    && k < |devices|
    && (forall j :: 0 <= j < |devices| ==> Score(devices[j]) <= Score(devices[k]))
    && (forall j :: 0 <= j < k ==> Score(devices[j]) < Score(devices[k]))
  }

  /** What the loop knows after scoring devices[..i]: either nothing better
      than 0 was seen and the index is still 0, or the first non-integrated
      adapter was seen and holds the score 1. */
  predicate LegacyScanInvariant(devices: seq<PhysicalDevice>, i: nat, highest: nat, best: nat) {
    && i <= |devices|
    && ((highest == 0 && best == 0 && forall j :: 0 <= j < i ==> devices[j].deviceType == IntegratedGpu)
        || (highest == 1 && best < i && IsFirstNonIntegrated(devices, best)))
  }

  /** The scoring loop from device `i` on: the index moves only when a score
      strictly beats the best so far, which starts at 0 with index 0. */
  function LegacyScan(devices: seq<PhysicalDevice>, i: nat, highest: nat, best: nat): (chosen: nat)
    requires LegacyScanInvariant(devices, i, highest, best)
    ensures IsFirstNonIntegrated(devices, chosen) || (chosen == 0 && AllIntegrated(devices))
    decreases |devices| - i
  {
    if i == |devices| then best
    else
      var score := Score(devices[i]);
      if score > highest then LegacyScan(devices, i + 1, score, i)
      else LegacyScan(devices, i + 1, highest, best)
  }

  /** EnumeratePhysicalDevices of the legacy revision: `devices` is what the
      count query reports, `enumeration` the status of the call that fills
      the handle list. */
  function EnumeratePhysicalDevices(devices: seq<PhysicalDevice>, enumeration: VkResult): (r: Result<nat>)
    ensures r == Err(NoDeviceDetected) <==> |devices| == 0
    ensures |devices| > 0 && enumeration != Success ==> r == Err(EnumerationFailed(enumeration))
    ensures r.Ok? <==> |devices| > 0 && enumeration == Success
    ensures r.Ok? ==> IsFirstNonIntegrated(devices, r.value) || (r.value == 0 && AllIntegrated(devices))
  {
    if |devices| == 0 then Err(NoDeviceDetected)
    else if enumeration != Success then Err(EnumerationFailed(enumeration))
    else Ok(LegacyScan(devices, 0, 0, 0))
  }

  /** The legacy choice is the first adapter of highest score: it is always
      in range, no adapter scores more, and every earlier one scores less. */
  lemma LegacyChoiceIsFirstHighestScore(devices: seq<PhysicalDevice>, enumeration: VkResult)
    requires EnumeratePhysicalDevices(devices, enumeration).Ok?
    ensures IsFirstHighestScore(devices, EnumeratePhysicalDevices(devices, enumeration).value)
  {
  }

  /** Where the two revisions part: with integrated adapters only the legacy
      revision takes adapter 0, the current one reports that no adapter is
      suitable. */
  lemma LegacyAcceptsIntegratedOnly(devices: seq<PhysicalDevice>, required: seq<string>)
    requires |devices| > 0 && AllIntegrated(devices)
    ensures EnumeratePhysicalDevices(devices, Success) == Ok(0)
    ensures SelectPhysicalDevice(devices, Success, required) == Err(NoSuitableDevice)
  {
    IntegratedOnlyIsAnError(devices, required);
  }

  /** The legacy revision ignores extensions, surface formats and
      presentation modes: a discrete adapter offering none of them is chosen,
      where the current revision rejects it. */
  lemma LegacyIgnoresSuitability(bare: PhysicalDevice)
    requires bare.deviceType == DiscreteGpu
    requires bare.extensions == [] && bare.surfaceFormats == [] && bare.presentModes == []
    ensures EnumeratePhysicalDevices([bare], Success) == Ok(0)
    ensures SelectPhysicalDevice([bare], Success, REQUIRED_DEVICE_EXTENSIONS) == Err(NoSuitableDevice)
  {
    assert !Eligible(bare, REQUIRED_DEVICE_EXTENSIONS) by {
      assert REQUIRED_DEVICE_EXTENSIONS[0] !in bare.extensions;
    }
  }

  /** The queue-family loop from index `i` on; it breaks at the first family
      with a queue and the graphics bit and otherwise leaves the index at 0. */
  function FirstGraphicsFrom(families: seq<QueueFamily>, i: nat): (index: nat)
    requires i <= |families|
    requires forall j :: 0 <= j < i ==> !GraphicsCapable(families[j])
    ensures (exists j :: i <= j < |families| && GraphicsCapable(families[j])) ==>
              index < |families| && GraphicsCapable(families[index])
              && forall j :: 0 <= j < index ==> !GraphicsCapable(families[j])
    ensures (forall j :: i <= j < |families| ==> !GraphicsCapable(families[j])) ==> index == 0
    decreases |families| - i
  {
    if i == |families| then 0
    else if GraphicsCapable(families[i]) then i
    else FirstGraphicsFrom(families, i + 1)
  }

  /** The family CreateLogicalDevice asks a queue from. */
  function GraphicsFamilyIndex(families: seq<QueueFamily>): (index: nat)
    ensures (exists j :: 0 <= j < |families| && GraphicsCapable(families[j])) ==>
              && index < |families|
              && GraphicsCapable(families[index])
              && forall j :: 0 <= j < index ==> !GraphicsCapable(families[j])
    ensures (forall j :: 0 <= j < |families| ==> !GraphicsCapable(families[j])) ==> index == 0
  {
    FirstGraphicsFrom(families, 0)
  }

  /** The fallback to family 0 is not checked: a device whose only family
      has no graphics bit is still asked for a queue of family 0, and an empty
      family table yields index 0 although no family 0 exists. */
  lemma GraphicsFallbackIsUnchecked(presentOnly: QueueFamily)
    requires !presentOnly.graphics
    ensures GraphicsFamilyIndex([presentOnly]) == 0
    ensures !GraphicsCapable([presentOnly][0])
    ensures GraphicsFamilyIndex([]) == 0
  {
  }

  /** The fields of VkDeviceCreateInfo this revision fills in. */
  datatype DeviceCreateInfo = DeviceCreateInfo(queueRequests: seq<QueueCreateInfo>, enabledExtensions: seq<string>)

  /** A created logical device and the queue fetched from it. */
  datatype LegacyDevice = LegacyDevice(info: DeviceCreateInfo, graphicsQueue: QueueRef)

  /** CreateLogicalDevice of the legacy revision; `creation` is the status of
      vkCreateDevice. */
  function CreateLogicalDevice(families: seq<QueueFamily>, creation: VkResult): (r: Result<LegacyDevice>)
    ensures r.Err? <==> creation != Success
    ensures r.Err? ==> r.error == DeviceCreationFailed(creation)
    ensures r.Ok? ==> r.value.info.queueRequests == [QueueCreateInfo(GraphicsFamilyIndex(families), 1)]
    ensures r.Ok? ==> r.value.info.enabledExtensions == INSTANCE_EXTENSIONS
    ensures r.Ok? ==> r.value.graphicsQueue == QueueRef(GraphicsFamilyIndex(families), 0)
  {
    var family := GraphicsFamilyIndex(families);
    var info := DeviceCreateInfo([QueueCreateInfo(family, 1)], INSTANCE_EXTENSIONS);
    if creation != Success then Err(DeviceCreationFailed(creation))
    else Ok(LegacyDevice(info, QueueRef(family, 0)))
  }

  /** The fetched queue is one the device was created with, and it belongs to
      a graphics-capable family whenever the device has one. */
  lemma LegacyQueueWasRequested(families: seq<QueueFamily>)
    requires CreateLogicalDevice(families, Success).Ok?
    ensures var d := CreateLogicalDevice(families, Success).value;
            && Requested(d.info.queueRequests, d.graphicsQueue)
            && ((exists j :: 0 <= j < |families| && GraphicsCapable(families[j])) ==>
                  d.graphicsQueue.familyIndex < |families| && GraphicsCapable(families[d.graphicsQueue.familyIndex]))
  {
    var d := CreateLogicalDevice(families, Success).value;
    assert d.info.queueRequests[0].familyIndex == d.graphicsQueue.familyIndex;
  }

  /** The device is created with the instance extensions, so the swapchain
      extension the current revision requires is never enabled on it. */
  lemma LegacyDeviceLacksSwapchainExtension(families: seq<QueueFamily>)
    requires CreateLogicalDevice(families, Success).Ok?
    ensures SWAPCHAIN_EXTENSION !in CreateLogicalDevice(families, Success).value.info.enabledExtensions
    ensures SWAPCHAIN_EXTENSION in REQUIRED_DEVICE_EXTENSIONS
  {
    var exts := CreateLogicalDevice(families, Success).value.info.enabledExtensions;
    assert exts[0] != SWAPCHAIN_EXTENSION && exts[1] != SWAPCHAIN_EXTENSION;
  }

  /** The constructor's adapter choice followed by device creation on the
      chosen adapter; the first failure ends it. */
  function OpenLegacy(devices: seq<PhysicalDevice>, enumeration: VkResult, creation: VkResult): (r: Result<LegacyDevice>)
    ensures |devices| == 0 ==> r == Err(NoDeviceDetected)
    ensures |devices| > 0 && enumeration != Success ==> r == Err(EnumerationFailed(enumeration))
    ensures |devices| > 0 && enumeration == Success && creation != Success ==> r == Err(DeviceCreationFailed(creation))
    ensures r.Ok? ==>
              && EnumeratePhysicalDevices(devices, enumeration).Ok?
              && r == CreateLogicalDevice(devices[EnumeratePhysicalDevices(devices, enumeration).value].queueFamilies,
                                          creation)
  {
    match EnumeratePhysicalDevices(devices, enumeration)
    case Err(e) => Err(e)
    case Ok(k) => CreateLogicalDevice(devices[k].queueFamilies, creation)
  }
}
