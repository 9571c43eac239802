/** Instance creation: the validation-layer check
    (`checkValidationLayerSupport`), the instance extension list
    (`getRequiredExtensions`) and the layers, extensions and debug-messenger
    chaining that `createInstance` hands to `vkCreateInstance`. */
module InstanceSetup {
  import opened VulkanTypes

  /** `m_validationLayers`. */
  const VALIDATION_LAYERS: seq<string> := ["VK_LAYER_KHRONOS_validation"]

  /** `VK_EXT_DEBUG_UTILS_EXTENSION_NAME`. */
  const DEBUG_UTILS_EXTENSION_NAME: string := "VK_EXT_debug_utils"

  /** Every requested layer name equals some available layer name. */
  predicate LayersAvailable(requested: seq<string>, available: seq<string>)
  {
    forall i :: 0 <= i < |requested| ==> requested[i] in available
  }

  /** `checkValidationLayerSupport`, with the layer names reported by
      `vkEnumerateInstanceLayerProperties` as `available`: for each requested
      name the available names are searched until one matches, and the first
      requested name without a match makes the answer false. */
  method CheckValidationLayerSupport(requested: seq<string>, available: seq<string>) returns (supported: bool)
    ensures supported <==> LayersAvailable(requested, available)
    ensures |requested| == 0 ==> supported
  {
    var i := 0;
    while i < |requested|
      invariant 0 <= i <= |requested|
      invariant forall k :: 0 <= k < i ==> requested[k] in available
    {
      var layerName := requested[i];
      var layerFound := false;
      var j := 0;
      while j < |available|
        invariant 0 <= j <= |available|
        invariant layerFound ==> layerName in available
        invariant !layerFound ==> forall l :: 0 <= l < j ==> available[l] != layerName
      {
        if layerName == available[j] {
          layerFound := true;
          break;
        }
        j := j + 1;
      }
      if !layerFound {
        assert layerName !in available;
        return false;
      }
      i := i + 1;
    }
    return true;
  }

  /** `getRequiredExtensions`: the window system's instance extensions in
      their original order, followed by the debug-utils extension exactly when
      validation is enabled. */
  function GetRequiredExtensions(windowExtensions: seq<string>, validation: bool): (extensions: seq<string>)
    ensures |extensions| == |windowExtensions| + (if validation then 1 else 0)
    ensures extensions[..|windowExtensions|] == windowExtensions
    ensures validation ==> extensions[|windowExtensions|] == DEBUG_UTILS_EXTENSION_NAME
  {
    if validation then windowExtensions + [DEBUG_UTILS_EXTENSION_NAME] else windowExtensions
  }

  /** The debug-utils extension is requested exactly when validation is on
      or the window system already asks for it. */
  lemma DebugUtilsRequested(windowExtensions: seq<string>, validation: bool)
    ensures DEBUG_UTILS_EXTENSION_NAME in GetRequiredExtensions(windowExtensions, validation) <==>
            validation || DEBUG_UTILS_EXTENSION_NAME in windowExtensions
  {
    var extensions := GetRequiredExtensions(windowExtensions, validation);
    if validation {
      assert extensions[|windowExtensions|] == DEBUG_UTILS_EXTENSION_NAME;
    }
  }

  /** The parts of `VkInstanceCreateInfo` the bootstrap decides: the enabled
      layers, the enabled extensions, and whether a
      `VkDebugUtilsMessengerCreateInfoEXT` is chained through `pNext` so that
      instance creation itself is covered by the debug callback. */
  datatype InstanceCreateInfo = InstanceCreateInfo(
    enabledLayers: seq<string>,
    enabledExtensions: seq<string>,
    debugMessengerChained: bool)

  /** `createInstance`. The validation-layer check runs only when validation
      is enabled; `driverAccepts` stands for `vkCreateInstance` returning
      `VK_SUCCESS`, which is never asked when the check fails. */
  function CreateInstance(validation: bool, availableLayers: seq<string>, windowExtensions: seq<string>,
                          driverAccepts: bool): (r: Result<InstanceCreateInfo>)
    ensures r == Err(ValidationLayersUnavailable) <==>
              validation && !LayersAvailable(VALIDATION_LAYERS, availableLayers)
    ensures r == Err(InstanceCreationFailed) <==>
              (!validation || LayersAvailable(VALIDATION_LAYERS, availableLayers)) && !driverAccepts
    ensures r.Ok? <==> (!validation || LayersAvailable(VALIDATION_LAYERS, availableLayers)) && driverAccepts
    ensures r.Ok? ==>
              && r.value.enabledLayers == (if validation then VALIDATION_LAYERS else [])
              && r.value.enabledExtensions == GetRequiredExtensions(windowExtensions, validation)
              && r.value.debugMessengerChained == validation
  {
    if validation && !LayersAvailable(VALIDATION_LAYERS, availableLayers) then Err(ValidationLayersUnavailable)
    else if !driverAccepts then Err(InstanceCreationFailed)
    else
      Ok(InstanceCreateInfo(
        if validation then VALIDATION_LAYERS else [],
        GetRequiredExtensions(windowExtensions, validation),
        validation))
  }

  /** A created instance has its diagnostics all on or all off: layers
      enabled, the debug-utils extension requested and the messenger chained
      go together, provided the window system does not ask for debug-utils
      itself. */
  lemma InstanceDiagnosticsConsistent(validation: bool, availableLayers: seq<string>,
                                      windowExtensions: seq<string>, driverAccepts: bool)
    requires DEBUG_UTILS_EXTENSION_NAME !in windowExtensions
    requires CreateInstance(validation, availableLayers, windowExtensions, driverAccepts).Ok?
    ensures var info := CreateInstance(validation, availableLayers, windowExtensions, driverAccepts).value;
            && (|info.enabledLayers| > 0 <==> info.debugMessengerChained)
            && (DEBUG_UTILS_EXTENSION_NAME in info.enabledExtensions <==> info.debugMessengerChained)
  {
    DebugUtilsRequested(windowExtensions, validation);
  }
}
