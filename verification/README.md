# LearnVulkan bootstrap, modelled in Dafny

This project models the part of `HelloTriangleApplication` that brings up a Vulkan context:

- `initWindow`, then `initVulkan`: instance, debug messenger, window surface, physical device, logical device.
- The main loop and `cleanup`.
- `main` catching the exception a failed step throws.

Every driver and window-system call is replaced by an input that gives its answer:

- whether a creation call returned `VK_SUCCESS`;
- the layer names the instance reports;
- the extensions GLFW asks for;
- what each physical device reports about itself;
- the number of device groups, which `pickPhysicalDevice` takes as its device count.

A physical device is modelled as its type, its `geometryShader` feature and its queue-family table. Each family holds its `queueFlags` and the surface-support answer for that family index. A device handle is its position in the enumeration.

Modules, one per component:

- `VulkanTypes` (`types.dfy`): the device snapshot, `QueueFamilyIndices`, `Option`, `Result`, and the error thrown at each failure point.
- `QueueFamilies` (`queue_families.dfy`): `findQueueFamilies`, `QueueFamilyIndices::isComplete`, `isDeviceSuitable`.
- `DeviceSelection` (`device_selection.dfy`): `rateDeviceSuitability` and `pickPhysicalDevice`. The `std::multimap<int, VkPhysicalDevice>` is a sequence kept in ascending score order; a new entry goes after all entries of equal score. Both the selection as written and a corrected selection are modelled (see Findings).
- `InstanceSetup` (`instance_setup.dfy`): `checkValidationLayerSupport`, `getRequiredExtensions`, and the create info `createInstance` builds.
- `LogicalDevice` (`logical_device.dfy`): the unique-family queue create infos of `createLogicalDevice` and the queues fetched afterwards.
- `DebugMessenger` (`debug_messenger.dfy`): the severity mask of the messenger, and the severity-to-log-level switch of `debugCallback`.
- `Bootstrap` (`bootstrap.dfy`): `run`/`main` as a trace of created and destroyed handles. The trace is replayed against the ownership rules: a handle is created only after the handles it is made from, and destroyed only while nothing alive depends on it.

## Model

| member | source | states |
|---|---|---|
| QueueFamilies.ScanFamilies | source/src/Main.cpp:279-299 | Walks the families in index order, each match overwriting the previous one. The result is the last matching family at or after the start index; with no match the prior value is kept. |
| QueueFamilies.FindQueueFamilies | source/src/Main.cpp:266-302 | Each index is present exactly when some family serves that role. It is then the largest such family index (last match wins), not the first. |
| QueueFamilies.IsComplete | source/src/Main.cpp:26-29 | Both indices are present. `IsDeviceSuitable`'s contract ties this to the family table, and `SuitableIndicesAreValid` shows that complete indices are in range and serve their roles. |
| QueueFamilies.IsDeviceSuitable | source/src/Main.cpp:362-367 | A device is suitable iff it has a graphics-capable family and a present-capable family, not necessarily the same one. Nothing else (score, features, extensions) is checked. |
| QueueFamilies.SuitableIndicesAreValid | source/src/Main.cpp:26-29 | For a suitable device the discovered indices are complete, in range, and each names a family that serves its role. |
| QueueFamilies.LaterFamilyWins | source/src/Main.cpp:280-298 | With two families that both do graphics and presentation, family 1 is reported for both roles. |
| DeviceSelection.RateDeviceSuitability | source/src/Main.cpp:370-392 | No geometry shader gives 0 whatever the type. Otherwise a discrete GPU gets 1000 and any other type 0, so every score is 0 or 1000. |
| DeviceSelection.Scores | source/src/Main.cpp:235-237 | One score per enumerated device, in enumeration order, each the device's `rateDeviceSuitability`. |
| DeviceSelection.ScoredInOrder | source/src/Main.cpp:235-239 | The entries inserted by the scoring loop, in enumeration order: entry i pairs device i with its score. |
| DeviceSelection.InsertCandidate | source/src/Main.cpp:238 | `multimap::insert` grows the multimap by one entry. Its partner lemmas state the rest: `InsertAddsEntry` (exactly the new entry is added), `InsertKeepsSorted` (key order kept) and `InsertKeepsRangeOrder` (the entry goes to the end of its equal range). |
| DeviceSelection.InsertAddsEntry | source/src/Main.cpp:238 | `multimap::insert` adds exactly the new entry and loses none (multiset equality). |
| DeviceSelection.InsertKeepsSorted | source/src/Main.cpp:238 | Insertion keeps the multimap in ascending key order. |
| DeviceSelection.InsertKeepsRangeOrder | source/src/Main.cpp:238 | The new entry joins the end of its key's equal range; every other key's range is unchanged. |
| DeviceSelection.BuildCandidates | source/src/Main.cpp:234-239 | After the scoring loop the multimap is sorted by score and is a permutation of the enumerated (score, device) pairs. |
| DeviceSelection.CandidatesAreScored | source/src/Main.cpp:234-239 | Every multimap entry names an enumerated device and carries that device's own score. |
| DeviceSelection.EveryDeviceIsCandidate | source/src/Main.cpp:234-239 | Every enumerated device has an entry in the multimap. |
| DeviceSelection.CandidatesStable | source/src/Main.cpp:234-239 | For every score, the entries with that score appear in enumeration order (equal keys keep insertion order). |
| DeviceSelection.CandidateOrder | source/src/Main.cpp:234-249 | The multimap holds every 0-scoring device in enumeration order, then every 1000-scoring device in enumeration order. This is the order the selection loop walks. |
| DeviceSelection.FindFirstSuitable | source/src/Main.cpp:249-256 | The selection loop stops at the first suitable candidate in multimap order. It finds nothing exactly when no candidate is suitable. |
| DeviceSelection.CandidatesOf | source/src/Main.cpp:230-239 | The multimap built from the enumerated devices has as many entries as devices, every handle in it is in range, and every device has an entry: exactly one entry per device. |
| DeviceSelection.PickPhysicalDeviceAsWritten | source/src/Main.cpp:218-263 | As written: zero groups throw `NoVulkanGpus`. Otherwise the picked handle is the first suitable candidate in ascending score order among the first `deviceGroupCount` devices. No pick (null handle, only logged) happens iff none of those devices is suitable. |
| DeviceSelection.NoneSuitableAmongCandidates | source/src/Main.cpp:249-262 | No multimap entry is suitable iff no enumerated device is suitable, so the null handle means no suitable device. |
| DeviceSelection.ScanBestSuitable | source/src/Main.cpp:248-256 | Corrected selection loop: the result is the best suitable device. No suitable device scores higher, and no earlier one scores the same; with no suitable device the result is none. |
| DeviceSelection.ScanStepKeepsBest | source/src/Main.cpp:248-256 | One scan step keeps "best so far": a device replaces the current best only when it is suitable and scores strictly higher. |
| DeviceSelection.PickPhysicalDevice | source/src/Main.cpp:218-263 | Corrected selection: no devices throws `NoVulkanGpus`. A pick is the highest-scoring suitable device, first enumerated among equals. No pick happens iff no device is suitable. |
| DeviceSelection.PickSucceedsTogether | source/src/Main.cpp:221-262 | When every device is its own group, the as-written and corrected selections agree on throwing and on finding nothing. |
| DeviceSelection.UnsuitableTopScorerIsSkipped | source/src/Main.cpp:249-256 | A 1000-scoring discrete GPU without a present queue is skipped, and the suitable integrated GPU is picked by both selections. |
| DeviceSelection.AscendingWalkPrefersLowScore | source/src/Main.cpp:248-256 | Devices: suitable discrete GPU (1000) enumerated first, suitable integrated GPU (0) second. The code as written picks the integrated GPU; the corrected selection picks the discrete one. |
| DeviceSelection.GroupCountHidesDevice | source/src/Main.cpp:221-231 | Two devices in one group: the count is 1, so only the unsuitable first device is enumerated and nothing is picked. The suitable second device is picked by the corrected selection. |
| InstanceSetup.CheckValidationLayerSupport | source/src/Main.cpp:408-439 | True iff every requested layer name equals some available layer name. An empty request is always supported. |
| InstanceSetup.GetRequiredExtensions | source/src/Main.cpp:442-457 | The GLFW extensions in order, followed by `VK_EXT_debug_utils` exactly when validation is enabled. |
| InstanceSetup.DebugUtilsRequested | source/src/Main.cpp:448-454 | Debug-utils is in the list iff validation is on or GLFW already asks for it. |
| InstanceSetup.CreateInstance | source/src/Main.cpp:130-206 | With validation on and a layer missing, it throws the layer error before the driver is asked. A driver refusal throws the instance error. It succeeds iff the layer check (when validation is on) passes and the driver accepts. Success: layers are the validation list iff validation is on, extensions are `getRequiredExtensions`, and the messenger info is chained through `pNext` iff validation is on. |
| InstanceSetup.InstanceDiagnosticsConsistent | source/src/Main.cpp:184-197 | In a created instance, enabled layers, the debug-utils extension and the chained messenger info go together (when GLFW does not request debug-utils itself). |
| LogicalDevice.UniqueQueueFamilies | source/src/Main.cpp:310 | `std::set{graphics, present}` iterated: exactly the two indices, ascending, one element when they are equal. |
| LogicalDevice.QueueCreateInfos | source/src/Main.cpp:309-323 | One create info per distinct family, each with one queue at priority 1.0, in ascending family order, covering both the graphics and the present family. |
| LogicalDevice.CreateLogicalDevice | source/src/Main.cpp:305-356 | On a suitable device, the create info holds exactly the queue create infos of the discovered (last-match) graphics and present families. The queues fetched are queue 0 of those two families; each is asked for by the create info and serves its role. Validation layers are passed iff validation is on; no device extension is enabled. |
| LogicalDevice.QueueCreateInfoExamples | source/src/Main.cpp:310-323 | Shared family 0 gives one create info. Graphics family 2 and present family 0 give two, ordered 0 then 2. |
| DebugMessenger.SeverityLevel | source/src/Main.cpp:468-484 | Each of the four severity bits maps to its own level (verbose to trace, info, warning, error). Any other value, a combination of bits included, maps to nothing. |
| DebugMessenger.SeverityRoundTrip | source/src/Main.cpp:468-484 | Each level's severity bit maps back to that level. |
| DebugMessenger.DebugCallback | source/src/Main.cpp:460-487 | Never asks the driver to abort. Logs iff the severity is one of the four bits, then at the matching level with the text "validation layer: " followed by the message. |
| DebugMessenger.InfoNeverLogged | source/src/Main.cpp:494-501 | For severities in the messenger's registered mask (verbose, warning, error), the callback never logs at info level. |
| Bootstrap.VulkanInitTrace | source/src/Main.cpp:60-71 | The events of a fully successful `initVulkan`: instance, the messenger when validation is on, surface, device pick, logical device. `InitTraceOrders` and `CreationFollowsDependencies` state its creation order and that it obeys the ownership rules. |
| Bootstrap.InitTrace | source/src/Main.cpp:35-71 | GLFW and the window (`initWindow`), then `VulkanInitTrace`. `InitTraceOrders` gives its creation order; `CreationFollowsDependencies` shows every handle is created after its parents; `InitPrefixLeaks` and `RunFailureCreations` cover its cut-off prefixes. |
| Bootstrap.CleanupTrace | source/src/Main.cpp:81-101 | The destructions of `cleanup`: the messenger first when validation is on, then device, surface, instance, window, GLFW. `CleanupTraceOrders` gives the order; `TeardownFollowsDependencies` shows every handle is destroyed while alive and after its children. |
| Bootstrap.InitVulkan | source/src/Main.cpp:60-71 | Creation steps run in order. The first failure throws and ends the sequence right before the event its call would have made (the creation, or the device pick for a missing GPU). Success means every step succeeded; it makes all creations and a logical device on the device `pickPhysicalDevice` picks: the first suitable one of the ascending-score walk over the first `deviceGroupCount` devices. |
| Bootstrap.Progress | source/src/Main.cpp:35-58 | `run` up to the main loop: it gets through all creations exactly when GLFW, the window and every `initVulkan` step succeed. It stops short of them exactly when something throws, and then right before the event the throwing call would have made. Its device is the one the as-written selection picks. |
| Bootstrap.Run | source/src/Main.cpp:539-557 | `main` returns success iff every call succeeds, and then the trace is the full create/loop/cleanup trace. A failure trace is the prefix of the creations that ends right before the event the throwing call would have made. A successful run's device is built on the device the as-written selection picks. |
| Bootstrap.RunUsesAscendingWalk | source/src/Main.cpp:218-263 | Devices: a suitable discrete GPU first, then a suitable integrated GPU, all calls succeeding. A successful run builds its logical device on the integrated GPU, which the ascending walk picks. |
| Bootstrap.RunFailureCause | source/src/Main.cpp:35-71 | The error `main` reports names the first failing step: GLFW init, window, layers (only with validation), instance, messenger (only with validation), surface, then no GPUs. Each is stated as an iff over the inputs. |
| Bootstrap.RunFailureLeaks | source/src/Main.cpp:546-554 | A failed run never reaches the main loop and destroys nothing. It obeys the creation rules, and every handle it created stays alive, because the exception bypasses `cleanup`. |
| Bootstrap.RunFailureCreations | source/src/Main.cpp:35-71 | The handles a failed run leaves created, error by error. GLFW init: none. Window: GLFW. Missing layers or a refused instance: GLFW and the window. Messenger: GLFW, the window and the instance. Surface: those, plus the messenger with validation. No GPUs: all of that, plus the surface. |
| Bootstrap.InitPrefixLeaks | source/src/Main.cpp:60-71 | Any cut of the creation sequence has no main loop and no destruction, obeys the creation rules, and leaves everything it created alive. |
| Bootstrap.CreationFollowsDependencies | source/src/Main.cpp:60-71 | The full creation sequence obeys the rules: every handle is created after the handles it is made from. |
| Bootstrap.TeardownFollowsDependencies | source/src/Main.cpp:81-101 | `cleanup` obeys the rules: every handle is destroyed while alive and after everything made from it. Afterwards nothing is alive. |
| Bootstrap.FullTraceReplays | source/src/Main.cpp:35-41 | A fully successful run obeys the ownership rules from start to end. |
| Bootstrap.InitTraceOrders | source/src/Main.cpp:60-71 | Creation order: GLFW, window, instance, the messenger (only with validation), surface, device. Nothing is destroyed during creation. |
| Bootstrap.CleanupTraceOrders | source/src/Main.cpp:81-101 | Destruction order: the messenger (only with validation), device, surface, instance, window, GLFW. Nothing is created during cleanup. |
| Bootstrap.FullTraceOrders | source/src/Main.cpp:35-41 | The creation and destruction orders of a whole successful run. |
| Bootstrap.FullTraceProperties | source/src/Main.cpp:81-101 | A successful run obeys the ownership rules and ends with nothing alive. Teardown is the exact reverse of creation iff validation is off. With validation on, the messenger is destroyed first, although it was created before the surface and device. |

## Left out

- GLFW's window wrapper (`VkGlfwWindow`) and `fileUtils` are not part of this model. Window creation and window-surface creation are inputs.
- Driver calls are inputs, not modelled: enumerations, property and feature queries, the surface-support query, `vkCreate*`, `vkGetDeviceQueue`, and the `vkGetInstanceProcAddr` lookups behind `CreateDebugUtilsMessengerEXT`.
- A missing `vkCreateDebugUtilsMessengerEXT` entry point returns `VK_ERROR_EXTENSION_NOT_PRESENT`. It is folded into the messenger-creation input.
- Logging is not modelled: the extension listing in `createInstance`, the score listing in `pickPhysicalDevice`, and the error logs. `DebugCallback` only reports the level and text it would log.
- Bootstrap.Run: the silent `return` after a failed `vkCreateDevice` is not modelled; device creation is assumed to succeed.
- Bootstrap.Run: requires `SomeDeviceUsable`. When every call up to `pickPhysicalDevice` succeeds, some device among the first `deviceGroupCount` must be suitable, so the null physical device is never handed to `createLogicalDevice`. The code would go on with a null handle in that case; that behaviour is undefined in Vulkan. Runs that throw earlier are not constrained. The same requires records that the driver's counts agree: there are no more groups than devices, and no groups only when there are no devices.
- Bootstrap.Run: builds its device on the selection as written (`PickPhysicalDeviceAsWritten`). The corrected selection `PickPhysicalDevice` stands beside it in `DeviceSelection` and is not wired into the run.
- The main loop's event polling and the close request are not modelled. The loop is one `RanMainLoop` event.
- Swap-chain, image-view and pipeline code is not modelled; this increment of the source creates none of them.
- InstanceSetup.CheckValidationLayerSupport compares names as whole strings. `strcmp` on NUL-terminated buffers agrees for names without an embedded NUL.
- QueueFamilies.FindQueueFamilies: the surface-support answer is one boolean per family. When a query fails, the code reuses the previous iteration's `presentSupport`; that is not modelled.
- 32-bit widths: family indices and counts are unbounded `nat`. No count in the source comes near the 32-bit limit.
- Teardown after a partial failure is not modelled, because the code has none: an exception out of `initWindow` or `initVulkan` skips `cleanup` and leaks every handle created so far. The model follows the code (`RunFailureLeaks`), not the intent that a failed bootstrap release what it created.

## Findings

| source | as written | input that shows it | evidently intended | confidence | as-written member | corrected member |
|---|---|---|---|---|---|---|
| source/src/Main.cpp:248-256 | The selection loop walks the multimap from its smallest key up, so the lowest-scoring suitable device is taken. The comment says the highest-scoring device is checked. | A suitable discrete GPU (score 1000) and a suitable integrated GPU (score 0): the integrated GPU is picked | Pick the highest-scoring suitable device, first enumerated among equals | not executed | DeviceSelection.AscendingWalkPrefersLowScore | DeviceSelection.PickPhysicalDevice |
| source/src/Main.cpp:221-231 | The device count comes from `vkEnumeratePhysicalDeviceGroups`, which counts groups. Only that many devices are enumerated. | Two devices in one group, only the second suitable: one device is enumerated and no device is picked | Count and enumerate with `vkEnumeratePhysicalDevices` | not executed | DeviceSelection.GroupCountHidesDevice | DeviceSelection.PickPhysicalDevice |
