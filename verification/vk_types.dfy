/** Vocabulary shared by every part of the model: the Vulkan enumerations the
    bootstrap code branches on, the records it reads back from the driver, the
    handle type that stands for every opaque Vulkan object, and the errors the
    code reports (each `throw std::runtime_error` of the current revision, and
    each logged failure of the legacy one, becomes an `Error` value). */
module VkTypes {

  /** Largest value of a 32-bit unsigned integer, the width of Vulkan's counts. */
  const UINT32_MAX: nat := 0xFFFF_FFFF

  type uint32 = x: nat | x <= UINT32_MAX

  /** Number of frame slots cycled by the frame loop (src/vulkan_window.hpp:4). */
  const MAX_FRAMES_IN_FLIGHT: nat := 2

  /** Number of family indices handed to a concurrent swapchain (src/vulkan_window.hpp:3). */
  const NUMBER_OF_QUEUE_INDICES: nat := 2

  /** Name of VK_KHR_SWAPCHAIN_EXTENSION_NAME. */
  const SWAPCHAIN_EXTENSION: string := "VK_KHR_swapchain"

  /** Every Vulkan object is an opaque value; the model draws them from a counter. */
  type Handle = nat

  datatype Option<+T> = None | Some(value: T)

  datatype DeviceType = OtherDevice | IntegratedGpu | DiscreteGpu | VirtualGpu | CpuDevice

  datatype Format = B8G8R8A8Unorm | B8G8R8A8Srgb | R8G8B8A8Unorm | OtherFormat(code: nat)

  datatype ColorSpace = SrgbNonlinear | OtherColorSpace(code: nat)

  datatype SurfaceFormat = SurfaceFormat(format: Format, colorSpace: ColorSpace)

  datatype PresentMode = Immediate | Mailbox | Fifo | FifoRelaxed

  datatype Extent = Extent(width: uint32, height: uint32)

  /** What vkGetPhysicalDeviceSurfaceCapabilitiesKHR reports; a maximum
      image count of 0 means "no maximum". */
  datatype SurfaceCapabilities = SurfaceCapabilities(
    minImageCount: uint32,
    maxImageCount: uint32,
    minImageExtent: Extent,
    maxImageExtent: Extent)

  /** One row of the queue-family table: its queue count, whether it has the
      graphics bit, and what the per-family surface-support query answers. */
  datatype QueueFamily = QueueFamily(queueCount: uint32, graphics: bool, presentSupport: bool)

  /** Everything the bootstrap code asks the driver about one adapter. */
  datatype PhysicalDevice = PhysicalDevice(
    name: string,
    deviceType: DeviceType,
    extensions: seq<string>,
    surfaceFormats: seq<SurfaceFormat>,
    presentModes: seq<PresentMode>,
    queueFamilies: seq<QueueFamily>)

  datatype VkResult =
    | Success
    | NotReady
    | Timeout
    | Suboptimal
    | ErrorOutOfDate
    | ErrorSurfaceLost
    | ErrorDeviceLost
    | ErrorOutOfHostMemory
    | ErrorOther(code: int)

  /** The failures the bootstrap code reports: the current revision throws
      them, the legacy revision logs them and returns. */
  datatype Error =
    | NoDeviceDetected
    | EnumerationFailed(status: VkResult)
    | NoSuitableDevice
    | NoSuitableQueueFamilies
    | AcquireFailed(status: VkResult)
    | SubmitFailed(status: VkResult)
    | PresentFailed(status: VkResult)
    | DeviceCreationFailed(status: VkResult)

  datatype Result<+T> = Ok(value: T) | Err(error: Error)

  function Max(a: nat, b: nat): nat {
    if a < b then b else a
  }
}
