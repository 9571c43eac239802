/** Logical-device creation (`createLogicalDevice`): one queue-create-info per
    distinct queue family among the graphics and present families, the
    `VkDeviceCreateInfo` built around them, and the two queues fetched back
    with `vkGetDeviceQueue`. */
module LogicalDevice {
  import opened VulkanTypes
  import opened QueueFamilies
  import InstanceSetup

  /** `queuePriority`. */
  const QUEUE_PRIORITY: real := 1.0

  /** `VkDeviceQueueCreateInfo`: one family, how many queues, their priority. */
  datatype QueueCreateInfo = QueueCreateInfo(queueFamilyIndex: nat, queueCount: nat, queuePriority: real)

  /** The parts of `VkDeviceCreateInfo` the bootstrap decides. No device
      extension and no device feature is enabled in this increment. */
  datatype DeviceCreateInfo = DeviceCreateInfo(
    queueCreateInfos: seq<QueueCreateInfo>,
    enabledLayers: seq<string>,
    enabledExtensions: seq<string>)

  /** A queue fetched with `vkGetDeviceQueue`: family index and queue index. */
  datatype QueueRef = QueueRef(family: nat, index: nat)

  /** What `createLogicalDevice` leaves behind when `vkCreateDevice` succeeds:
      the create info it passed, and the graphics and present queues. */
  datatype LogicalDeviceContext = LogicalDeviceContext(
    createInfo: DeviceCreateInfo,
    graphicsQueue: QueueRef,
    presentQueue: QueueRef)

  /** `std::set<uint32_t> uniqueQueueFamilies = {graphics, present}`, in the
      set's iteration order: ascending and without duplicates. */
  function UniqueQueueFamilies(graphics: nat, present: nat): (families: seq<nat>)
    ensures forall x :: x in families <==> x == graphics || x == present
    ensures forall i, j :: 0 <= i < j < |families| ==> families[i] < families[j]
    ensures |families| == if graphics == present then 1 else 2
  {
    if graphics == present then [graphics]
    else if graphics < present then [graphics, present]
    else [present, graphics]
  }

  /** The queue-create-info loop: one entry per distinct family, each asking
      for a single queue at priority 1.0. */
  function QueueCreateInfos(indices: QueueFamilyIndices): (infos: seq<QueueCreateInfo>)
    requires IsComplete(indices)
    ensures |infos| == if indices.graphicsFamily.value == indices.presentFamily.value then 1 else 2
    ensures forall i :: 0 <= i < |infos| ==>
              infos[i].queueCount == 1 && infos[i].queuePriority == QUEUE_PRIORITY
    ensures forall i :: 0 <= i < |infos| ==>
              infos[i].queueFamilyIndex == indices.graphicsFamily.value ||
              infos[i].queueFamilyIndex == indices.presentFamily.value
    ensures CreatesQueue(infos, indices.graphicsFamily.value, 0)
    ensures CreatesQueue(infos, indices.presentFamily.value, 0)
    ensures forall i, j :: 0 <= i < j < |infos| ==> infos[i].queueFamilyIndex < infos[j].queueFamilyIndex
  {
    var families := UniqueQueueFamilies(indices.graphicsFamily.value, indices.presentFamily.value);
    var infos := seq(|families|, i requires 0 <= i < |families| => QueueCreateInfo(families[i], 1, QUEUE_PRIORITY));
    assert forall i :: 0 <= i < |infos| ==> infos[i].queueFamilyIndex == families[i];
    var g := indices.graphicsFamily.value;
    var p := indices.presentFamily.value;
    assert g in families && p in families;
    ghost var gi :| 0 <= gi < |families| && families[gi] == g;
    ghost var pi :| 0 <= pi < |families| && families[pi] == p;
    assert infos[gi].queueFamilyIndex == g && infos[pi].queueFamilyIndex == p;
    infos
  }

  /** The info list creates a queue with index `q` in family `f`. */
  ghost predicate CreatesQueue(infos: seq<QueueCreateInfo>, f: nat, q: nat)
  {
    exists i :: 0 <= i < |infos| && infos[i].queueFamilyIndex == f && q < infos[i].queueCount
  }

  /** `createLogicalDevice` on a suitable device whose `vkCreateDevice`
      succeeds. The queues it fetches are queue 0 of the discovered graphics
      and present families; both exist in the device it created, and each
      family can serve its role. Validation layers are passed on to the
      device when validation is enabled. */
  function CreateLogicalDevice(d: PhysicalDevice, validation: bool): (ctx: LogicalDeviceContext)
    requires IsDeviceSuitable(d)
    ensures CreatesQueue(ctx.createInfo.queueCreateInfos, ctx.graphicsQueue.family, ctx.graphicsQueue.index)
    ensures CreatesQueue(ctx.createInfo.queueCreateInfos, ctx.presentQueue.family, ctx.presentQueue.index)
    ensures ctx.graphicsQueue.family < |d.queueFamilies| && Supports(d.queueFamilies[ctx.graphicsQueue.family], Graphics)
    ensures ctx.presentQueue.family < |d.queueFamilies| && Supports(d.queueFamilies[ctx.presentQueue.family], Present)
    ensures ctx.createInfo.enabledLayers == if validation then InstanceSetup.VALIDATION_LAYERS else []
    ensures ctx.createInfo.enabledExtensions == []
    ensures ctx.createInfo.queueCreateInfos == QueueCreateInfos(FindQueueFamilies(d))
    ensures ctx.graphicsQueue == QueueRef(FindQueueFamilies(d).graphicsFamily.value, 0)
    ensures ctx.presentQueue == QueueRef(FindQueueFamilies(d).presentFamily.value, 0)
  {
    var indices := FindQueueFamilies(d);
    var infos := QueueCreateInfos(indices);
    var graphics := indices.graphicsFamily.value;
    var present := indices.presentFamily.value;
    var layers := if validation then InstanceSetup.VALIDATION_LAYERS else [];
    var ctx := LogicalDeviceContext(DeviceCreateInfo(infos, layers, []), QueueRef(graphics, 0), QueueRef(present, 0));
    ctx
  }

  /** A family that does both graphics and presentation gets a single
      queue-create-info; distinct families get one each, in ascending order. */
  lemma QueueCreateInfoExamples()
    ensures QueueCreateInfos(QueueFamilyIndices(Some(0), Some(0))) == [QueueCreateInfo(0, 1, 1.0)]
    ensures QueueCreateInfos(QueueFamilyIndices(Some(2), Some(0))) ==
            [QueueCreateInfo(0, 1, 1.0), QueueCreateInfo(2, 1, 1.0)]
  {
    var one := QueueCreateInfos(QueueFamilyIndices(Some(0), Some(0)));
    assert one[0].queueFamilyIndex == 0;
    var two := QueueCreateInfos(QueueFamilyIndices(Some(2), Some(0)));
    assert two[0].queueFamilyIndex < two[1].queueFamilyIndex;
    assert CreatesQueue(two, 0, 0) && CreatesQueue(two, 2, 0);
  }
}
