/** Data model of the Vulkan bootstrap: the abstract snapshots that stand in
    for the driver queries made by the application, and the small optional
    and result wrappers the operations return. */
module VulkanTypes {

  /** A value that may be absent, as `std::optional` in the application. */
  datatype Option<+T> = None | Some(value: T)

  /** The `std::runtime_error`s the bootstrap can throw, one per message. */
  datatype Error =
    | GlfwInitFailed              // "failed to initialize GLFW!"
    | WindowCreationFailed        // "failed to create window!"
    | ValidationLayersUnavailable // "validation layers requested, but not available!"
    | InstanceCreationFailed      // "failed to create instance!"
    | DebugMessengerSetupFailed   // "failed to set up debug messenger!"
    | SurfaceCreationFailed       // "failed to create window surface!"
    | NoVulkanGpus                // "failed to find GPUs with Vulkan support!"

  /** Either a value or the error that was thrown instead. */
  datatype Result<+T> = Ok(value: T) | Err(error: Error)

  /** `VkPhysicalDeviceType`, with its enumerant values in the comments. */
  datatype DeviceType =
    | OtherGpu       // VK_PHYSICAL_DEVICE_TYPE_OTHER = 0
    | IntegratedGpu  // VK_PHYSICAL_DEVICE_TYPE_INTEGRATED_GPU = 1
    | DiscreteGpu    // VK_PHYSICAL_DEVICE_TYPE_DISCRETE_GPU = 2
    | VirtualGpu     // VK_PHYSICAL_DEVICE_TYPE_VIRTUAL_GPU = 3
    | CpuDevice      // VK_PHYSICAL_DEVICE_TYPE_CPU = 4

  /** `VK_QUEUE_GRAPHICS_BIT` of `VkQueueFlagBits`. */
  const QUEUE_GRAPHICS_BIT: bv32 := 0x1

  /** One row of the queue-family table of a device: the `queueFlags` of its
      `VkQueueFamilyProperties`, and the answer `vkGetPhysicalDeviceSurfaceSupportKHR`
      gives for this family index and the application's window surface. */
  datatype QueueFamily = QueueFamily(queueFlags: bv32, presentSupport: bool)

  /** Everything the application asks the driver about one physical device:
      its type, whether the `geometryShader` feature is supported, and its
      queue-family table, indexed by family index. */
  datatype PhysicalDevice = PhysicalDevice(
    deviceType: DeviceType,
    geometryShader: bool,
    queueFamilies: seq<QueueFamily>)

  /** `QueueFamilyIndices`: the family chosen for graphics work and the family
      chosen for presentation, each possibly absent. */
  datatype QueueFamilyIndices = QueueFamilyIndices(
    graphicsFamily: Option<nat>,
    presentFamily: Option<nat>)

  /** The two roles a queue family is searched for. */
  datatype QueueRole = Graphics | Present

  /** True when family `q` can serve `role`: the graphics bit of its flags is
      set, or the surface reports present support for it. */
  predicate Supports(q: QueueFamily, role: QueueRole)
  {
    match role
    case Graphics => q.queueFlags & QUEUE_GRAPHICS_BIT != 0
    case Present => q.presentSupport
  }
}
