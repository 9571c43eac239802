/** Queue-family discovery (`findQueueFamilies`), completeness of the result
    (`QueueFamilyIndices::isComplete`) and the suitability test built on them
    (`isDeviceSuitable`). */
module QueueFamilies {
  import opened VulkanTypes

  /** Some family in the table can serve `role`. */
  ghost predicate HasFamily(fams: seq<QueueFamily>, role: QueueRole)
  {
    exists j :: 0 <= j < |fams| && Supports(fams[j], role)
  }

  /** `k` is the largest index of a family that can serve `role`. */
  ghost predicate IsLastFamily(fams: seq<QueueFamily>, role: QueueRole, k: nat)
  {
    && k < |fams|
    && Supports(fams[k], role)
    && forall j :: k < j < |fams| ==> !Supports(fams[j], role)
  }

  /** One pass of the loops in `findQueueFamilies`: families are visited in
      index order from `i`, and every match overwrites the index found so far
      (`acc`). The result is the last match at or after `i`, or `acc` when
      there is none. */
  function ScanFamilies(fams: seq<QueueFamily>, role: QueueRole, i: nat, acc: Option<nat>): (r: Option<nat>)
    requires i <= |fams|
    ensures (exists j :: i <= j < |fams| && Supports(fams[j], role)) ==>
              r.Some? && i <= r.value && IsLastFamily(fams, role, r.value)
    ensures (forall j :: i <= j < |fams| ==> !Supports(fams[j], role)) ==> r == acc
    decreases |fams| - i
  {
    if i == |fams| then acc
    else ScanFamilies(fams, role, i + 1, if Supports(fams[i], role) then Some(i) else acc)
  }

  /** `findQueueFamilies`: each field is present exactly when some family can
      serve the role, and then it is the LAST such family index, because the
      application's loops overwrite earlier matches. */
  function FindQueueFamilies(d: PhysicalDevice): (indices: QueueFamilyIndices)
    ensures indices.graphicsFamily.Some? <==> HasFamily(d.queueFamilies, Graphics)
    ensures indices.graphicsFamily.Some? ==> IsLastFamily(d.queueFamilies, Graphics, indices.graphicsFamily.value)
    ensures indices.presentFamily.Some? <==> HasFamily(d.queueFamilies, Present)
    ensures indices.presentFamily.Some? ==> IsLastFamily(d.queueFamilies, Present, indices.presentFamily.value)
  {
    QueueFamilyIndices(
      ScanFamilies(d.queueFamilies, Graphics, 0, None),
      ScanFamilies(d.queueFamilies, Present, 0, None))
  }

  /** `QueueFamilyIndices::isComplete`. */
  predicate IsComplete(indices: QueueFamilyIndices)
  {
    indices.graphicsFamily.Some? && indices.presentFamily.Some?
  }

  /** `isDeviceSuitable`: only the completeness of the discovered indices is
      checked. A device is suitable exactly when it has some graphics-capable
      family and some present-capable family, not necessarily the same one. */
  function IsDeviceSuitable(d: PhysicalDevice): (suitable: bool)
    ensures suitable <==> HasFamily(d.queueFamilies, Graphics) && HasFamily(d.queueFamilies, Present)
  {
    IsComplete(FindQueueFamilies(d))
  }

  /** The indices of a suitable device are complete and both point at families
      that can serve their role. */
  lemma SuitableIndicesAreValid(d: PhysicalDevice)
    requires IsDeviceSuitable(d)
    ensures IsComplete(FindQueueFamilies(d))
    ensures FindQueueFamilies(d).graphicsFamily.value < |d.queueFamilies|
    ensures Supports(d.queueFamilies[FindQueueFamilies(d).graphicsFamily.value], Graphics)
    ensures FindQueueFamilies(d).presentFamily.value < |d.queueFamilies|
    ensures Supports(d.queueFamilies[FindQueueFamilies(d).presentFamily.value], Present)
  {
  }

  /** A later family that can serve a role replaces an earlier one: a device
      whose families 0 and 1 both do graphics and presentation reports
      family 1 for both. */
  lemma LaterFamilyWins()
    ensures var d := PhysicalDevice(IntegratedGpu, true,
                       [QueueFamily(0x1, true), QueueFamily(0x3, true)]);
            FindQueueFamilies(d) == QueueFamilyIndices(Some(1), Some(1))
  {
  }
}
