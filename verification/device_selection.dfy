/** Choice of the physical device (SelectPhysicalDevice in
    src/vulkan_window.cpp). Every enumerated adapter is checked for the
    required device extensions, at least one surface format and at least one
    presentation mode, and scored 0 if it is an integrated GPU and 1
    otherwise. An adapter replaces the current choice only when it passes the
    checks and its score beats the best score so far, which starts at 0 — so an
    integrated adapter can never be chosen, and the first passing
    non-integrated adapter wins. */
module DeviceSelection {
  import opened VkTypes

  const REQUIRED_DEVICE_EXTENSIONS: seq<string> := [SWAPCHAIN_EXTENSION]

  /** Exact-name linear search of the inner extension loop (the strcmp test). */
  function FindExtension(name: string, available: seq<string>): (found: bool)
    ensures found <==> name in available
    decreases |available|
  {
    if |available| == 0 then false
    else if available[0] == name then true
    else FindExtension(name, available[1..])
  }

  /** The outer extension loop: stops at the first required name not found. */
  function ExtensionsSupported(required: seq<string>, available: seq<string>): (supported: bool)
    ensures supported <==> forall i :: 0 <= i < |required| ==> required[i] in available
    decreases |required|
  {
    if |required| == 0 then true
    else if !FindExtension(required[0], available) then false
    else
      var rest := ExtensionsSupported(required[1..], available);
      assert forall i :: 1 <= i < |required| ==> required[i] == required[1..][i - 1];
      rest
  }

  /** The device's binary score. */
  function Score(device: PhysicalDevice): nat {
    if device.deviceType == IntegratedGpu then 0 else 1
  }

  /** Reference definition of a device the selection may choose: it offers
      every required extension, some surface format and some presentation mode,
      and it is not an integrated GPU. */
  predicate Eligible(device: PhysicalDevice, required: seq<string>) {
    && (forall i :: 0 <= i < |required| ==> required[i] in device.extensions)
    && |device.surfaceFormats| > 0
    && |device.presentModes| > 0
    && device.deviceType != IntegratedGpu
  }

  /** `k` is the first eligible device in enumeration order. */
  predicate IsFirstEligible(devices: seq<PhysicalDevice>, required: seq<string>, k: nat) {
    && k < |devices|
    && Eligible(devices[k], required)
    && forall j :: 0 <= j < k ==> !Eligible(devices[j], required)
  }

  /** What the scoring loop knows after inspecting devices[..i]. */
  predicate ScanInvariant(devices: seq<PhysicalDevice>, required: seq<string>, i: nat,
                          highest: nat, best: Option<nat>) {
    && i <= |devices|
    && match best
       case None => highest == 0 && forall j :: 0 <= j < i ==> !Eligible(devices[j], required)
       case Some(k) => highest == 1 && k < i && IsFirstEligible(devices, required, k)
  }

  /** The scoring loop from device `i` on: `highest` and `best` are the
      loop's highestDeviceScore and highestDeviceScoreIndex. */
  function ScoreScan(devices: seq<PhysicalDevice>, required: seq<string>, i: nat,
                     highest: nat, best: Option<nat>): (chosen: Option<nat>)
    requires ScanInvariant(devices, required, i, highest, best)
    ensures chosen.Some? ==> IsFirstEligible(devices, required, chosen.value)
    ensures chosen.None? ==> forall k :: 0 <= k < |devices| ==> !Eligible(devices[k], required)
    decreases |devices| - i
  {
    if i == |devices| then best
    else
      var device := devices[i];
      var capable := ExtensionsSupported(required, device.extensions)
                     && |device.surfaceFormats| != 0
                     && |device.presentModes| != 0;
      var score := Score(device);
      if capable && score > highest then
        ScoreScan(devices, required, i + 1, score, Some(i))
      else
        ScoreScan(devices, required, i + 1, highest, best)
  }

  /** SelectPhysicalDevice: `enumeration` is the status of the second
      vkEnumeratePhysicalDevices call, the one that fills the handle list. */
  function SelectPhysicalDevice(devices: seq<PhysicalDevice>, enumeration: VkResult,
                                required: seq<string>): (r: Result<nat>)
    ensures |devices| == 0 ==> r == Err(NoDeviceDetected)
    ensures |devices| > 0 && enumeration != Success ==> r == Err(EnumerationFailed(enumeration))
    ensures r.Ok? ==> IsFirstEligible(devices, required, r.value)
    ensures r.Ok? ==> devices[r.value].deviceType != IntegratedGpu
    ensures |devices| > 0 && enumeration == Success && r.Err? ==>
              && r.error == NoSuitableDevice
              && forall k :: 0 <= k < |devices| ==> !Eligible(devices[k], required)
  {
    if |devices| == 0 then Err(NoDeviceDetected)
    else if enumeration != Success then Err(EnumerationFailed(enumeration))
    else
      match ScoreScan(devices, required, 0, 0, None)
      case None => Err(NoSuitableDevice)
      case Some(k) => Ok(k)
  }

  /** Adding adapters after the chosen one never changes the choice. */
  lemma SelectionIgnoresLaterDevices(devices: seq<PhysicalDevice>, more: seq<PhysicalDevice>,
                                     required: seq<string>)
    requires SelectPhysicalDevice(devices, Success, required).Ok?
    ensures SelectPhysicalDevice(devices + more, Success, required)
            == SelectPhysicalDevice(devices, Success, required)
  {
    var k := SelectPhysicalDevice(devices, Success, required).value;
    var all := devices + more;
    assert IsFirstEligible(all, required, k) by {
      assert all[k] == devices[k];
      forall j | 0 <= j < k ensures !Eligible(all[j], required) {
        assert all[j] == devices[j];
      }
    }
    var r := SelectPhysicalDevice(all, Success, required);
    assert r.Ok? by {
      assert Eligible(all[k], required);
    }
    FirstEligibleUnique(all, required, k, r.value);
  }

  lemma FirstEligibleUnique(devices: seq<PhysicalDevice>, required: seq<string>, a: nat, b: nat)
    requires IsFirstEligible(devices, required, a)
    requires IsFirstEligible(devices, required, b)
    ensures a == b
  {
  }

  /** An integrated adapter is never selected, however capable: a list of
      integrated adapters only is an error. */
  lemma IntegratedOnlyIsAnError(devices: seq<PhysicalDevice>, required: seq<string>)
    requires |devices| > 0
    requires forall k :: 0 <= k < |devices| ==> devices[k].deviceType == IntegratedGpu
    ensures SelectPhysicalDevice(devices, Success, required) == Err(NoSuitableDevice)
  {
  }

  /** [integrated, discrete], both capable: the discrete one (index 1) is chosen;
      [discrete, discrete], both capable: the first one wins the tie. */
  lemma SelectionExamples(integrated: PhysicalDevice, discrete: PhysicalDevice, other: PhysicalDevice)
    requires integrated.deviceType == IntegratedGpu
    requires discrete.deviceType == DiscreteGpu && other.deviceType == DiscreteGpu
    requires Eligible(discrete, REQUIRED_DEVICE_EXTENSIONS)
    requires Eligible(other, REQUIRED_DEVICE_EXTENSIONS)
    ensures SelectPhysicalDevice([integrated, discrete], Success, REQUIRED_DEVICE_EXTENSIONS) == Ok(1)
    ensures SelectPhysicalDevice([discrete, other], Success, REQUIRED_DEVICE_EXTENSIONS) == Ok(0)
  {
    var r1 := SelectPhysicalDevice([integrated, discrete], Success, REQUIRED_DEVICE_EXTENSIONS);
    assert Eligible([integrated, discrete][1], REQUIRED_DEVICE_EXTENSIONS);
    FirstEligibleUnique([integrated, discrete], REQUIRED_DEVICE_EXTENSIONS, r1.value, 1);
    var r2 := SelectPhysicalDevice([discrete, other], Success, REQUIRED_DEVICE_EXTENSIONS);
    assert Eligible([discrete, other][0], REQUIRED_DEVICE_EXTENSIONS);
    FirstEligibleUnique([discrete, other], REQUIRED_DEVICE_EXTENSIONS, r2.value, 0);
  }
}
