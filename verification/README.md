# Vulkan bootstrap of the voxelfield window, modelled in Dafny

The game's window class `VulkanWindow` brings up Vulkan: it picks a physical
device, resolves the graphics and presentation queue families, creates the
logical device, builds a swapchain generation, and then draws frames with two
frames in flight. When presentation reports the swapchain out of date, it
rebuilds the generation. It tears everything down on release. The
repository holds two revisions. The current one is in `src/vulkan_window.cpp`;
an older, smaller one is at the root, `vulkan_window.cpp`. This project models
the decision rules of both as pure functions over immutable records, and
proves what those rules guarantee.

The files:

- `vk_types.dfy` (module `VkTypes`) holds the vocabulary: device types, formats, present modes, extents, capability records, `VkResult` codes, the errors the code reports, `Option` and `Result`. It also holds the constants `MAX_FRAMES_IN_FLIGHT = 2` and `NUMBER_OF_QUEUE_INDICES = 2`. `uint32` is a subset of `int` and is used where the source's 32-bit arithmetic matters.
- `device_selection.dfy` (`DeviceSelection`) models `SelectPhysicalDevice`: the extension check, the format and present-mode checks, the binary score, and the strict `>` replacement.
- `queue_families.dfy` (`QueueFamilies`) models the family loop of `CreateLogicalDevice`. It also covers the set of unique family indices, one queue request per index, and the two queues that are fetched.
- `swapchain_settings.dfy` (`SwapchainSettings`) models the parameters `CreateSwapChain` chooses: surface format, present mode, image count (with 32-bit wrap-around), the clamped extent, and the sharing mode.
- `resources.dfy` (`Resources`) defines Vulkan objects as handles and every create or destroy call as an event. It also holds the rule of which object kinds depend on which, and the construction and teardown predicates (`Constructed`, `Dismantled`) that say a block of calls creates or destroys its handles in dependency order.
- `lifecycle.dfy` (`Lifecycle`) models the session's lifecycle:
  - `Open` with its creation steps;
  - `ReleaseSwapChain`;
  - `RecreateSwapChain`;
  - `Release`;
  - the session invariant `Valid`.

  Among other things, `Valid` requires that every owned handle is accounted for by the trace of calls.
- `frame_loop.dfy` (`FrameLoop`) models `DrawFrame`. The fence wait and reset, acquire, submit and present each get a driver result as input. It covers the out-of-date rebuild and the slot advance, and ends with a run of frames.
- `legacy_window.dfy` (`LegacyWindow`) models the root-level revision:
  - adapter choice by score alone;
  - a graphics-family search that falls back to family 0;
  - one one-queue request;
  - a device created with the instance extension list;
  - the queue fetch.

Driver answers are parameters: the adapters and their queue families, the
status of `vkEnumeratePhysicalDevices`, the surface capabilities, the window's
client size, the number of images the swapchain hands back, and the results
of acquire, submit and present.

## Behaviour of the code worth knowing

- The present-mode fallback is MAILBOX, even when the device does not offer it (`MailboxFallbackIsUnchecked`).
- When several surface formats are offered and none is B8G8R8A8_UNORM with SRGB_NONLINEAR, the chosen format is left unset. The model writes this as `None`.
- An integrated GPU scores 0 and the best score starts at 0, so the current revision never selects an integrated GPU, even when it is the only adapter (`IntegratedOnlyIsAnError`).
- Any acquire result other than `VK_SUCCESS` is fatal in `DrawFrame`, including `VK_SUBOPTIMAL_KHR` and `VK_ERROR_OUT_OF_DATE_KHR`. Only the present result triggers a rebuild.
- `ReleaseSwapChain` also frees the command buffers and destroys the pipeline layout.
- `RecreateSwapChain` idles the device itself and then again inside `ReleaseSwapChain`.
- A frame that fails at acquire or submit has already reset its fence, and nothing will signal it. The session invariant no longer holds (`FrameLoop.FailedFrameLeavesFenceReset`). Nothing catches the thrown error (`src/game.cpp`), so it ends the program.
- The legacy revision hands the instance extensions to `vkCreateDevice`, so the swapchain extension is never enabled. Without a graphics-capable family it asks for a queue of family 0.

## Model

| member | source | states |
|---|---|---|
| DeviceSelection.FindExtension | src/vulkan_window.cpp:200-210 | the inner extension loop finds a required name exactly when that name is in the device's extension list |
| DeviceSelection.ExtensionsSupported | src/vulkan_window.cpp:200-218 | the outer loop passes exactly when every required extension is available |
| DeviceSelection.ScoreScan | src/vulkan_window.cpp:186-254 | the scoring loop ends on the first eligible adapter (extensions, a format, a present mode, not integrated), or on none exactly when no adapter is eligible |
| DeviceSelection.SelectPhysicalDevice | src/vulkan_window.cpp:174-261 | no adapters gives "no graphics card"; a failed enumeration gives its error code; otherwise the first eligible non-integrated adapter, or "no suitable card" exactly when none is eligible |
| DeviceSelection.SelectionIgnoresLaterDevices | src/vulkan_window.cpp:250-253 | because replacement needs a strictly higher score, adapters appended after the chosen one never change the choice |
| DeviceSelection.FirstEligibleUnique | src/vulkan_window.cpp:250-253 | the first eligible adapter is unique, so the selection is determined by the adapter list |
| DeviceSelection.IntegratedOnlyIsAnError | src/vulkan_window.cpp:241-257 | when every adapter is an integrated GPU, selection fails with "no suitable card" |
| DeviceSelection.SelectionExamples | src/vulkan_window.cpp:241-253 | an eligible discrete GPU after an integrated one is chosen; of two eligible discrete GPUs the first is chosen |
| QueueFamilies.ScanFamilies | src/vulkan_window.cpp:270-288 | the family loop from any point stops at the first index by which both kinds have been seen, holding the last capable family of each kind up to it; it fails only if one kind never appears |
| QueueFamilies.ResolveQueueFamilies | src/vulkan_window.cpp:268-289 | resolution succeeds with a graphics-capable and a presentation-capable family (each with a queue) exactly when both kinds exist, and fails with "no collection of queue families" otherwise |
| QueueFamilies.ResolvedAtUnique | src/vulkan_window.cpp:270-285 | the characterisation of a resolution admits exactly one answer per family table |
| QueueFamilies.ResolutionDependsOnlyOnCapabilities | src/vulkan_window.cpp:273-279 | only each family's graphics bit, surface support and queue count matter: tables that agree on them resolve alike |
| QueueFamilies.EmptyFamilyIgnored | src/vulkan_window.cpp:273 | a family with no queues is skipped whatever its flags |
| QueueFamilies.LaterFamiliesNeverInspected | src/vulkan_window.cpp:281-284 | the loop breaks once both are found: replacing the families after the stopping index changes nothing |
| QueueFamilies.DistinctFamiliesMeanNoSharedFamily | src/vulkan_window.cpp:270-285 | when the two resolved families differ, no earlier family could serve both purposes |
| QueueFamilies.ResolutionExamples | src/vulkan_window.cpp:270-285 | a first family that can do both gives (0, 0); a graphics-only family followed by a presentation-only one gives (0, 1) |
| QueueFamilies.QueueCreateInfos | src/vulkan_window.cpp:290-303 | one request per distinct family index, each for one queue, in ascending index order, covering exactly the unique family set |
| QueueFamilies.FetchedQueuesWereRequested | src/vulkan_window.cpp:290-326 | queue 0 of the graphics family and of the presentation family both belong to a request made at device creation; there is one request exactly when the families coincide |
| SwapchainSettings.ScanFormats | src/vulkan_window.cpp:343-346 | the format loop ends on the preferred format whenever it is offered, and leaves the previous value otherwise |
| SwapchainSettings.ChooseSurfaceFormat | src/vulkan_window.cpp:341-349 | a single offered format is taken as is; among several, the preferred format is chosen exactly when offered and nothing is chosen otherwise; a chosen format is always an offered one |
| SwapchainSettings.ChoosePresentMode | src/vulkan_window.cpp:350-361 | IMMEDIATE exactly when offered, MAILBOX in every other case |
| SwapchainSettings.MailboxFallbackIsUnchecked | src/vulkan_window.cpp:361 | a device offering FIFO only is still given MAILBOX |
| SwapchainSettings.ChooseImageCount | src/vulkan_window.cpp:367-369 | one more than the minimum when no nonzero maximum is exceeded, and exactly the maximum when it is; the 32-bit sum wraps to 0 when the minimum is the largest uint32 |
| SwapchainSettings.ImageCountWithinSupportedRange | src/vulkan_window.cpp:367-369 | for consistent capabilities the count lies between the minimum and a nonzero maximum; minimum 2 gives 3 unbounded and 2 when the maximum is 2 |
| SwapchainSettings.Clamp | src/vulkan_window.cpp:378-379 | std::clamp returns a value inside the bounds, and the value itself when it is already inside |
| SwapchainSettings.ClampIsNearestPoint | src/vulkan_window.cpp:378-379 | the clamped value is the point of the range nearest the input, and clamping twice equals clamping once |
| SwapchainSettings.ChooseExtent | src/vulkan_window.cpp:374-380 | the extent lies within the surface's extent bounds and is the window's client size whenever that size already fits |
| SwapchainSettings.ExtentChoiceIsStable | src/vulkan_window.cpp:374-380 | choosing the extent again from a chosen extent changes nothing |
| SwapchainSettings.ChooseSharingMode | src/vulkan_window.cpp:370-404 | EXCLUSIVE exactly when the graphics and presentation families coincide; otherwise CONCURRENT over two distinct indices, the graphics family first and the presentation family second |
| SwapchainSettings.SharingAgreesWithQueueRequests | src/vulkan_window.cpp:400-405 | the swapchain is shared exactly when the device was created with two queue requests, and it names exactly the requested families |
| SwapchainSettings.SwapchainCreateInfoFor | src/vulkan_window.cpp:340-405 | the create info uses an offered format, IMMEDIATE exactly when offered, an extent within bounds, an image count within a nonzero maximum, and exclusive sharing exactly for one family |
| Lifecycle.PresentationShape | src/vulkan_window.cpp:340-637 | swapchain, one view per granted image, render pass, two shader modules, pipeline layout and pipeline (shader modules destroyed again), one framebuffer per view, each from fresh consecutive handles |
| Lifecycle.PresentationBuilt | src/vulkan_window.cpp:81-85 | the calls up to the framebuffers create every object after the objects it depends on, and own exactly the generation's handles |
| Lifecycle.CommandBuffersRecorded | src/vulkan_window.cpp:709-737 | every command buffer i is recorded against framebuffer i with the pipeline |
| Lifecycle.BuildChainFacts | src/vulkan_window.cpp:332-337 | the rebuild yields a generation sized one to one (419, 619, 697), created in dependency order from fresh handles, with the swapchain parameters of the current surface and a viewport equal to the swapchain extent |
| Lifecycle.ReleaseSwapChainFacts | src/vulkan_window.cpp:44-56 | releasing a generation idles the device first, then only destroys, dependents before what they depend on, each of the generation's handles exactly once |
| Lifecycle.ChainDestroysDismantles | src/vulkan_window.cpp:46-55 | the destroy calls of a generation, in the source's order, are a valid teardown of exactly its handles |
| Lifecycle.IdleThenDismantled | src/vulkan_window.cpp:45 | a device idle followed by a teardown creates nothing and destroys exactly the torn-down handles |
| Lifecycle.Drain | src/vulkan_window.cpp:330 | after vkDeviceWaitIdle no fence is pending, and a reset fence stays reset |
| Lifecycle.RecreateSwapChain | src/vulkan_window.cpp:329-338 | recreation keeps the session invariant, everything created once and the frame index; it leaves all fences signalled, one image per granted image, and a viewport within the surface bounds that equals the client size when it fits |
| Lifecycle.RecreationIsTeardownThenRebuild | src/vulkan_window.cpp:329-338 | the recreation trace extends the old trace with an idle wait, the complete teardown of the old generation and the construction of the new one, whose handles are all fresh |
| Lifecycle.RecreationIsRepeatable | src/vulkan_window.cpp:340-416 | recreating twice on the same surface gives the same swapchain parameters, image count and viewport |
| Lifecycle.Open | src/vulkan_window.cpp:76-89 | Open fails only with a selection or queue-family error; a session it opens satisfies the invariant, starts at frame 0 and has both fences signalled (752) |
| Lifecycle.OpenWith | src/vulkan_window.cpp:78-88 | the session built on a chosen device and families keeps them, satisfies the invariant and starts with both fences signalled |
| Lifecycle.OpenFailsAsSelectionAndResolution | src/vulkan_window.cpp:79-80 | Open fails with the selection error when selection fails; otherwise it fails exactly when the chosen device's families do not resolve, and it runs on the chosen device |
| Lifecycle.OpenedSession | src/vulkan_window.cpp:76-89 | once a device is selected and its families resolve, Open succeeds; the session runs on an eligible device with resolved families whose queues were requested, has one image per granted image, and its trace created every owned object in dependency order |
| Lifecycle.Release | src/vulkan_window.cpp:58-74 | release idles the device, then only destroys: the generation, each slot's semaphores and fence, the pool, the device, the surface and the instance, dependents first, each owned handle exactly once |
| Lifecycle.NothingLeaks | src/vulkan_window.cpp:58-74 | over any valid session followed by release, every handle created is destroyed |
| FrameLoop.DrawFrame | src/vulkan_window.cpp:782-825 | a frame never touches what Open created once, and the frame index stays below MAX_FRAMES_IN_FLIGHT |
| FrameLoop.DrawFrameErrors | src/vulkan_window.cpp:786-822 | the error is the acquire result exactly when acquire fails, the submit result exactly when submit fails after it, the present result exactly when present gives neither success, suboptimal nor out of date; there is no error otherwise |
| FrameLoop.DrawFrameKeepsValid | src/vulkan_window.cpp:782-825 | a frame that reports no error keeps the session invariant |
| FrameLoop.ShownFrameAdvances | src/vulkan_window.cpp:816-824 | a presented or suboptimal frame advances to the next slot and keeps the generation |
| FrameLoop.OutOfDateFrameRebuilds | src/vulkan_window.cpp:817-819 | an out-of-date present rebuilds the generation with the newly granted image count and does not advance the slot |
| FrameLoop.FailedFrameStays | src/vulkan_window.cpp:788-821 | a frame that reports an error never advances the slot |
| FrameLoop.FailedAcquireCalls | src/vulkan_window.cpp:783-790 | a failed acquire leaves exactly the fence wait, the reset and the acquire call with its failing result in the trace; nothing is submitted or presented |
| FrameLoop.FailedSubmitCalls | src/vulkan_window.cpp:783-805 | a failed submit leaves exactly the wait, the reset, the successful acquire and the submission of the acquired image's command buffer with its failing result; nothing is presented |
| FrameLoop.SubmittedFrameCalls | src/vulkan_window.cpp:783-822 | a submitted frame not out of date makes exactly: wait, reset, acquire, submit of the acquired image's command buffer with the slot's fence, present of that image with the result the presentation returned |
| FrameLoop.OutOfDateFrameCalls | src/vulkan_window.cpp:816-819 | an out-of-date frame makes the same calls, then idles the device to rebuild |
| FrameLoop.FailedFrameLeavesFenceReset | src/vulkan_window.cpp:784-805 | after an acquire or submit failure the slot's fence stays reset with no submission to signal it, so the session invariant is broken |
| FrameLoop.Advanced | src/vulkan_window.cpp:824 | the slot moves to the next one; the fences, the handle counter, the fixed objects, the generation and the trace are unchanged |
| FrameLoop.SlotsAlternate | src/vulkan_window.hpp:4 | with two frames in flight the slots alternate 0, 1, 0 |
| FrameLoop.SlotAfterIsModulo | src/vulkan_window.cpp:824 | n successive advances land on slot (current + n) mod MAX_FRAMES_IN_FLIGHT |
| FrameLoop.DrawFrames | src/window.cpp:86-88 | a run of frames that all present keeps the invariant and the generation, and advances the slot once per frame |
| FrameLoop.ThreeFrames | src/vulkan_window.cpp:817-824 | a shown frame, an out-of-date one and a shown one move the slot 0, 1, 1, 0 |
| FrameLoop.ShownFrameArmsFence | src/vulkan_window.cpp:783-824 | a shown frame waits on its slot's fence as it finds it, leaves that fence held by its submission, keeps the other fence and moves to the next slot, with the invariant kept |
| FrameLoop.ShownFrame | src/vulkan_window.cpp:782-825 | the session after a frame that presents, built directly from the frame's five calls: invariant kept, same generation, next slot, its own fence held by the submission, and its first call the wait on that fence |
| FrameLoop.ShownFrameIsDrawFrame | src/vulkan_window.cpp:782-825 | DrawFrame on a steady frame raises no error and yields exactly the session ShownFrame writes out call by call |
| FrameLoop.ThirdFrameWaitsOnFirst | src/vulkan_window.cpp:783-824 | of three shown frames in a row, the first two wait on the two different slots' fences as found, and the third waits on the first frame's fence while that frame's submission still holds it |
| FrameLoop.FreshSessionWaitsOnThirdFrame | src/vulkan_window.cpp:749-824 | from the two fences created signalled, the first two frames find their fences signalled and the third is the first to find its fence still held by a submission |
| LegacyWindow.LegacyScan | vulkan_window.cpp:63-85 | the scoring loop ends on the first non-integrated adapter, or on 0 when all are integrated |
| LegacyWindow.EnumeratePhysicalDevices | vulkan_window.cpp:45-89 | no adapters and a failed enumeration are errors (and exactly those); otherwise the first non-integrated adapter, or adapter 0 when all are integrated |
| LegacyWindow.LegacyChoiceIsFirstHighestScore | vulkan_window.cpp:63-85 | the legacy choice is the first adapter with the highest score |
| LegacyWindow.LegacyAcceptsIntegratedOnly | vulkan_window.cpp:63-86 | with integrated adapters only, the legacy revision takes adapter 0 where the current one reports no suitable card |
| LegacyWindow.LegacyIgnoresSuitability | vulkan_window.cpp:64-85 | a discrete adapter with no extensions, formats or present modes is chosen by the legacy revision and rejected by the current one |
| LegacyWindow.FirstGraphicsFrom | vulkan_window.cpp:97-103 | the loop stops at the first family with a queue and the graphics bit, and stays at 0 when none follows |
| LegacyWindow.GraphicsFamilyIndex | vulkan_window.cpp:96-103 | the first graphics-capable family when there is one, and 0 otherwise |
| LegacyWindow.GraphicsFallbackIsUnchecked | vulkan_window.cpp:96 | a device whose only family lacks graphics is still asked for family 0, as is a device with no families |
| LegacyWindow.CreateLogicalDevice | vulkan_window.cpp:91-134 | device creation fails exactly when vkCreateDevice does, with its code; otherwise one request for one queue of the graphics family, the instance extension list, and queue 0 of that family |
| LegacyWindow.LegacyQueueWasRequested | vulkan_window.cpp:104-133 | the fetched queue was requested, and lies in a graphics-capable family whenever one exists |
| LegacyWindow.LegacyDeviceLacksSwapchainExtension | vulkan_window.cpp:4 | the legacy device never enables the swapchain extension that the current revision requires |
| LegacyWindow.OpenLegacy | vulkan_window.cpp:6-10 | the constructor's adapter choice and device creation: each failure is reported with its own code, and on success the device is the one built from the chosen adapter's families |

## Left out

- QueueFamilies.QueueCreateInfos, SwapchainSettings.ChooseSharingMode and SwapchainSettings.SharingAgreesWithQueueRequests describe the values the code means to pass. They do not model that the program passes two values through pointers whose targets have gone out of scope. The address of the queue priority (1.0, not a field of the model) is kept in the queue requests, but its block ends (src/vulkan_window.cpp:293-304) before vkCreateDevice reads it. The family index array's `data()` is kept for the swapchain, but its block ends (src/vulkan_window.cpp:402-405) before vkCreateSwapchainKHR reads it at line 406. So the program itself does not guarantee that the driver sees these values.
- Window creation, the Win32 message loop, logging and message boxes are not modelled. They are I/O with no decision in them.
- Instance creation, the validation layers and the debug messenger are left out. Their only outcome is success or an error message.
- The surface is treated as created. `CreateSurface` has no decision beyond its error.
- The failure codes of the individual create calls in the current revision are not modelled: logical device, surface-capabilities query, swapchain, image views, render pass, shader modules, pipeline, framebuffers, command pool, command buffers, semaphores and fences. Each only throws, and the model assumes success.
- Reading the shader files and the contents of the pipeline, render-pass and command-recording structures are left out. Only the handles and the order of calls are modelled.
- `CreateVertexBuffer` is left out. `Open` never calls it.
- The result of `vkWaitForFences` is ignored by the code. Its `ULONG_MAX` timeout is not modelled either. The wait is an event recording the fence state it found.
- `ExtentBoundsOrdered` is required by `SwapchainSettings.ChooseExtent`, `SwapchainSettings.SwapchainCreateInfoFor`, `Lifecycle.Open`, `Lifecycle.RecreateSwapChain` and `FrameLoop.DrawFrame`. It asks that the surface's minimum extent is at most its maximum. The driver guarantees this, and std::clamp needs it at src/vulkan_window.cpp:378-379. The model does not say what happens when a driver breaks it.
- FrameLoop.DrawFrame: the driver is trusted to return an acquired image index below the image count. `AcquireInRange` states this, as Vulkan guarantees it.
- LegacyWindow.OpenLegacy: this stops at the first failure. The legacy constructor logs a failure and then still calls the next step on uninitialised state, which has no defined meaning.
- The legacy revision's instance creation is left out, as in the current revision.
- Lifecycle.Release: stated for a session with equal-length semaphore and fence vectors. The destroy calls on a session whose construction failed part-way are not modelled.
