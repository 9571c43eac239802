/** The bootstrap sequence of `HelloTriangleApplication::run`: window
    creation, `initVulkan` (instance, debug messenger, surface, physical
    device, logical device), the main loop and `cleanup`, as a trace of the
    resources it creates and destroys. Every driver and window-system call is
    an input that says whether it succeeded. */
module Bootstrap {
  import opened VulkanTypes
  import opened QueueFamilies
  import DeviceSelection
  import InstanceSetup
  import LogicalDevice

  /** The handles the application owns. */
  datatype Resource = GlfwLibrary | Window | Instance | DebugMessenger | Surface | Device

  /** One observable step of the bootstrap. */
  datatype Event = Created(resource: Resource) | Destroyed(resource: Resource) | PickedDevice | RanMainLoop

  /** `child` is made from `parent`, so it must be created after it and
      destroyed before it. */
  predicate DependsOn(child: Resource, parent: Resource)
  {
    match child
    case Window => parent == GlfwLibrary
    case DebugMessenger => parent == Instance
    case Surface => parent == Instance || parent == Window
    case Device => parent == Instance
    case _ => false
  }

  /** The answers of every external call the bootstrap makes. */
  datatype Environment = Environment(
    glfwInitialized: bool,         // glfwInit
    windowCreated: bool,           // glfwCreateWindow
    availableLayers: seq<string>,  // vkEnumerateInstanceLayerProperties
    windowExtensions: seq<string>, // glfwGetRequiredInstanceExtensions
    instanceCreated: bool,         // vkCreateInstance
    messengerCreated: bool,        // CreateDebugUtilsMessengerEXT
    surfaceCreated: bool,          // glfwCreateWindowSurface
    deviceGroupCount: nat,         // vkEnumeratePhysicalDeviceGroups
    devices: seq<PhysicalDevice>)  // vkEnumeratePhysicalDevices and the per-device queries

  /** How `main` ends: `EXIT_SUCCESS`, or `EXIT_FAILURE` after catching the
      exception thrown for `error`. */
  datatype Exit = ExitSuccess | ExitFailure(error: Error)

  /** The trace of one run, how it ended, and the logical device it made. */
  datatype RunOutcome = RunOutcome(trace: seq<Event>, exit: Exit, device: Option<LogicalDevice.LogicalDeviceContext>)

  /** The creations of `initVulkan` when every call succeeds. */
  function VulkanInitTrace(validation: bool): seq<Event>
  {
    [Created(Instance)] + (if validation then [Created(DebugMessenger)] else [])
    + [Created(Surface), PickedDevice, Created(Device)]
  }

  /** The creation steps of a run in which every call succeeds. */
  function InitTrace(validation: bool): seq<Event>
  {
    [Created(GlfwLibrary), Created(Window)] + VulkanInitTrace(validation)
  }

  /** `cleanup`: the messenger first when validation is on, then device,
      surface, instance, window and the GLFW library. */
  function CleanupTrace(validation: bool): seq<Event>
  {
    (if validation then [Destroyed(DebugMessenger)] else [])
    + [Destroyed(Device), Destroyed(Surface), Destroyed(Instance), Destroyed(Window), Destroyed(GlfwLibrary)]
  }

  /** A run in which every call succeeds. */
  function FullTrace(validation: bool): seq<Event>
  {
    InitTrace(validation) + [RanMainLoop] + CleanupTrace(validation)
  }

  /** The driver's two counts agree as the Vulkan API has them: every device
      is in exactly one non-empty group, so there are no more groups than
      devices, and no groups only when there are no devices. */
  predicate CountsAgree(env: Environment)
  {
    && env.deviceGroupCount <= |env.devices|
    && (env.deviceGroupCount == 0 <==> |env.devices| == 0)
  }

  /** Some device among the ones `pickPhysicalDevice` enumerates is
      suitable. */
  predicate SuitableEnumerated(env: Environment)
    requires CountsAgree(env)
  {
    exists h :: 0 <= h < env.deviceGroupCount && IsDeviceSuitable(env.devices[h])
  }

  /** The inputs a run is modelled on: the counts agree, and a run whose
      calls all succeed finds a suitable device, because `createLogicalDevice`
      is not modelled on a null physical device. A run that throws earlier is
      not constrained. */
  predicate SomeDeviceUsable(env: Environment, validation: bool)
  {
    CountsAgree(env) && (AllCallsSucceed(env, validation) ==> SuitableEnumerated(env))
  }

  /** Device `h` is the one `pickPhysicalDevice` picks: this is
      `DeviceSelection.PickedAsWritten` on the first `deviceGroupCount`
      devices, the ones the application enumerates. */
  ghost predicate Picked(env: Environment, h: nat)
    requires CountsAgree(env)
    ensures Picked(env, h) ==> h < |env.devices| && IsDeviceSuitable(env.devices[h])
  {
    && h < env.deviceGroupCount
    && DeviceSelection.PickedAsWritten(env.devices[..env.deviceGroupCount], h)
  }

  /** The checks and calls of `initVulkan` all succeed. */
  predicate VulkanCallsSucceed(env: Environment, validation: bool)
  {
    && (validation ==> InstanceSetup.LayersAvailable(InstanceSetup.VALIDATION_LAYERS, env.availableLayers))
    && env.instanceCreated
    && (validation ==> env.messengerCreated)
    && env.surfaceCreated
    && env.deviceGroupCount > 0
  }

  /** Every external call the bootstrap makes succeeds, and the checks it
      performs pass. */
  predicate AllCallsSucceed(env: Environment, validation: bool)
  {
    env.glfwInitialized && env.windowCreated && VulkanCallsSucceed(env, validation)
  }

  /** `createInstance` returns instead of throwing. */
  predicate InstanceCreated(env: Environment, validation: bool)
    ensures InstanceCreated(env, validation) <==>
              (validation ==> InstanceSetup.LayersAvailable(InstanceSetup.VALIDATION_LAYERS, env.availableLayers)) &&
              env.instanceCreated
  {
    InstanceSetup.CreateInstance(validation, env.availableLayers, env.windowExtensions, env.instanceCreated).Ok?
  }

  /** The exception `createInstance` throws when it does not return. */
  function InstanceError(env: Environment, validation: bool): (e: Error)
    requires !InstanceCreated(env, validation)
    ensures e == ValidationLayersUnavailable <==>
              validation && !InstanceSetup.LayersAvailable(InstanceSetup.VALIDATION_LAYERS, env.availableLayers)
    ensures e == ValidationLayersUnavailable || e == InstanceCreationFailed
  {
    InstanceSetup.CreateInstance(validation, env.availableLayers, env.windowExtensions, env.instanceCreated).error
  }

  /** `pickPhysicalDevice` in an environment where it finds a device. */
  function ChosenDevice(env: Environment): (h: nat)
    requires CountsAgree(env) && SuitableEnumerated(env)
    ensures Picked(env, h)
  {
    var r := DeviceSelection.PickPhysicalDeviceAsWritten(env.deviceGroupCount, env.devices);
    assert r != Ok(None);
    r.value.value
  }

  /** The event a throwing call prevents: the creation it was making, or the
      device pick. */
  function FailedEvent(e: Error): Event
  {
    match e
    case GlfwInitFailed => Created(GlfwLibrary)
    case WindowCreationFailed => Created(Window)
    case ValidationLayersUnavailable => Created(Instance)
    case InstanceCreationFailed => Created(Instance)
    case DebugMessengerSetupFailed => Created(DebugMessenger)
    case SurfaceCreationFailed => Created(Surface)
    case NoVulkanGpus => PickedDevice
  }

  /** `initVulkan` after the window exists: how many of its creations
      happen, the error it throws, if any, and the logical device it makes.
      A throw ends the sequence at once, so a failed call leaves a proper
      prefix of the creations; success leaves all of them and a logical
      device on the physical device `pickPhysicalDevice` picks. */
  function InitVulkan(env: Environment, validation: bool): (r: (nat, Option<Error>, Option<LogicalDevice.LogicalDeviceContext>))
    requires CountsAgree(env) && (VulkanCallsSucceed(env, validation) ==> SuitableEnumerated(env))
    ensures r.0 <= |VulkanInitTrace(validation)|
    ensures r.1.None? <==> VulkanCallsSucceed(env, validation)
    ensures r.1.None? <==> r.0 == |VulkanInitTrace(validation)|
    ensures r.1.Some? ==> VulkanInitTrace(validation)[r.0] == FailedEvent(r.1.value)
    ensures r.1.None? <==> r.2.Some?
    ensures r.2.Some? ==>
              exists h: nat :: Picked(env, h) && r.2.value == LogicalDevice.CreateLogicalDevice(env.devices[h], validation)
  {
    var m := if validation then 1 else 0;
    assert |VulkanInitTrace(validation)| == 4 + m;
    if !InstanceCreated(env, validation) then (0, Some(InstanceError(env, validation)), None)
    else if validation && !env.messengerCreated then (1, Some(DebugMessengerSetupFailed), None)
    else if !env.surfaceCreated then (1 + m, Some(SurfaceCreationFailed), None)
    else if env.deviceGroupCount == 0 then (2 + m, Some(NoVulkanGpus), None)
    else
      var h := ChosenDevice(env);
      (4 + m, None, Some(LogicalDevice.CreateLogicalDevice(env.devices[h], validation)))
  }

  /** How far `run` gets: the number of creations that happen, the error
      thrown, if any, and the logical device made. */
  function Progress(env: Environment, validation: bool): (r: (nat, Option<Error>, Option<LogicalDevice.LogicalDeviceContext>))
    requires SomeDeviceUsable(env, validation)
    ensures r.0 <= |InitTrace(validation)|
    ensures r.1.None? <==> AllCallsSucceed(env, validation)
    ensures r.1.None? <==> r.0 == |InitTrace(validation)|
    ensures r.1.Some? ==> InitTrace(validation)[r.0] == FailedEvent(r.1.value)
    ensures r.1.None? <==> r.2.Some?
    ensures r.2.Some? ==>
              exists h: nat :: Picked(env, h) && r.2.value == LogicalDevice.CreateLogicalDevice(env.devices[h], validation)
  {
    assert |InitTrace(validation)| == 2 + |VulkanInitTrace(validation)|;
    if !env.glfwInitialized then (0, Some(GlfwInitFailed), None)
    else if !env.windowCreated then (1, Some(WindowCreationFailed), None)
    else
      var (done, error, device) := InitVulkan(env, validation);
      (2 + done, error, device)
  }

  /** `main` calling `run`: `initWindow`, `initVulkan`, `mainLoop`,
      `cleanup`. An exception skips everything after it, `cleanup` included,
      and `main` returns `EXIT_FAILURE`; otherwise the main loop runs and
      `cleanup` destroys everything. */
  function Run(env: Environment, validation: bool): (r: RunOutcome)
    requires SomeDeviceUsable(env, validation)
    ensures r.exit.ExitSuccess? <==> r.device.Some?
    ensures r.exit.ExitSuccess? <==> AllCallsSucceed(env, validation)
    ensures r.exit.ExitSuccess? ==> r.trace == FullTrace(validation)
    ensures r.exit.ExitFailure? ==> |r.trace| < |InitTrace(validation)| && r.trace == InitTrace(validation)[..|r.trace|]
    ensures r.exit.ExitFailure? ==> InitTrace(validation)[|r.trace|] == FailedEvent(r.exit.error)
    ensures r.device.Some? ==>
              exists h: nat :: Picked(env, h) && r.device.value == LogicalDevice.CreateLogicalDevice(env.devices[h], validation)
  {
    var (done, error, device) := Progress(env, validation);
    match error
    case Some(e) => RunOutcome(InitTrace(validation)[..done], ExitFailure(e), None)
    case None => RunOutcome(InitTrace(validation) + [RanMainLoop] + CleanupTrace(validation), ExitSuccess, device)
  }

  /** Where a resource is in its life. */
  datatype Status = Unborn | Alive | Gone

  /** The status of every resource. */
  datatype Lifetimes = Lifetimes(
    glfw: Status, window: Status, instance: Status, messenger: Status, surface: Status, device: Status)

  const NOTHING_YET: Lifetimes := Lifetimes(Unborn, Unborn, Unborn, Unborn, Unborn, Unborn)

  function StatusOf(state: Lifetimes, r: Resource): Status
  {
    match r
    case GlfwLibrary => state.glfw
    case Window => state.window
    case Instance => state.instance
    case DebugMessenger => state.messenger
    case Surface => state.surface
    case Device => state.device
  }

  function WithStatus(state: Lifetimes, r: Resource, st: Status): (next: Lifetimes)
    ensures StatusOf(next, r) == st
    ensures forall q :: q != r ==> StatusOf(next, q) == StatusOf(state, q)
  {
    match r
    case GlfwLibrary => state.(glfw := st)
    case Window => state.(window := st)
    case Instance => state.(instance := st)
    case DebugMessenger => state.(messenger := st)
    case Surface => state.(surface := st)
    case Device => state.(device := st)
  }

  /** The resources `r` depends on. */
  function Parents(r: Resource): (ps: set<Resource>)
    ensures forall p :: p in ps <==> DependsOn(r, p)
  {
    match r
    case Window => {GlfwLibrary}
    case DebugMessenger => {Instance}
    case Surface => {Instance, Window}
    case Device => {Instance}
    case _ => {}
  }

  /** The resources that depend on `r`. */
  function Children(r: Resource): (cs: set<Resource>)
    ensures forall c :: c in cs <==> DependsOn(c, r)
  {
    match r
    case GlfwLibrary => {Window}
    case Window => {Surface}
    case Instance => {DebugMessenger, Surface, Device}
    case _ => {}
  }

  /** Everything `r` depends on is alive. */
  predicate ParentsAlive(state: Lifetimes, r: Resource)
  {
    forall p :: p in Parents(r) ==> StatusOf(state, p) == Alive
  }

  /** Nothing alive depends on `r`. */
  predicate NoLiveChild(state: Lifetimes, r: Resource)
  {
    forall c :: c in Children(r) ==> StatusOf(state, c) != Alive
  }

  /** The ownership rules applied to one event: a resource is created once,
      and only while everything it depends on is alive; it is destroyed once,
      only while alive, and only when nothing alive depends on it. `None`
      marks a violation. */
  function Step(state: Lifetimes, e: Event): (next: Option<Lifetimes>)
    ensures next.Some? && e.Created? ==>
              && StatusOf(state, e.resource) == Unborn
              && StatusOf(next.value, e.resource) == Alive
              && forall p :: DependsOn(e.resource, p) ==> StatusOf(state, p) == Alive
    ensures next.Some? && e.Destroyed? ==>
              && StatusOf(state, e.resource) == Alive
              && StatusOf(next.value, e.resource) == Gone
              && forall c :: DependsOn(c, e.resource) ==> StatusOf(state, c) != Alive
  {
    match e
    case Created(r) =>
      if StatusOf(state, r) != Unborn || !ParentsAlive(state, r) then None
      else Some(WithStatus(state, r, Alive))
    case Destroyed(r) =>
      if StatusOf(state, r) != Alive || !NoLiveChild(state, r) then None
      else Some(WithStatus(state, r, Gone))
    case _ => Some(state)
  }

  /** Replays a trace from `state`; `None` when some event breaks the rules. */
  function Replay(state: Lifetimes, t: seq<Event>): Option<Lifetimes>
    decreases |t|
  {
    if |t| == 0 then Some(state)
    else match Step(state, t[0])
      case None => None
      case Some(next) => Replay(next, t[1..])
  }

  /** The resources a trace creates, in creation order. */
  function CreationOrder(t: seq<Event>): seq<Resource>
  {
    if |t| == 0 then []
    else (if t[0].Created? then [t[0].resource] else []) + CreationOrder(t[1..])
  }

  /** The resources a trace destroys, in destruction order. */
  function DestructionOrder(t: seq<Event>): seq<Resource>
  {
    if |t| == 0 then []
    else (if t[0].Destroyed? then [t[0].resource] else []) + DestructionOrder(t[1..])
  }

  /** `later` lists the elements of `earlier` back to front. */
  predicate Mirrors(later: seq<Resource>, earlier: seq<Resource>)
  {
    |later| == |earlier| && forall i :: 0 <= i < |earlier| ==> later[i] == earlier[|earlier| - 1 - i]
  }

  /** A run in which every call succeeds obeys the ownership rules and ends
      with nothing alive. Its teardown is the exact reverse of its creation
      order precisely when validation is off: with validation on, `cleanup`
      destroys the messenger first although it was created after the window
      and instance and before the surface and device. */
  lemma FullTraceProperties(validation: bool)
    ensures Replay(NOTHING_YET, FullTrace(validation)) == Some(CleanedUp(validation))
    ensures forall r :: StatusOf(CleanedUp(validation), r) != Alive
    ensures Mirrors(DestructionOrder(FullTrace(validation)), CreationOrder(FullTrace(validation))) <==> !validation
    ensures validation ==> [DebugMessenger] <= DestructionOrder(FullTrace(validation))
  {
    FullTraceReplays(validation);
    FullTraceOrders(validation);
    if validation {
      var c := [GlfwLibrary, Window, Instance, DebugMessenger, Surface, Device];
      var d := [DebugMessenger, Device, Surface, Instance, Window, GlfwLibrary];
      assert CreationOrder(FullTrace(validation)) == c;
      assert DestructionOrder(FullTrace(validation)) == d;
      assert d[0] != c[|c| - 1];
    } else {
      var c := [GlfwLibrary, Window, Instance, Surface, Device];
      var d := [Device, Surface, Instance, Window, GlfwLibrary];
      assert CreationOrder(FullTrace(validation)) == c;
      assert DestructionOrder(FullTrace(validation)) == d;
      TeardownMirrorsCreation();
    }
  }

  /** Replaying a concatenation replays the first part, then the second
      from where the first left off. */
  lemma {:induction false} ReplayConcat(state: Lifetimes, a: seq<Event>, b: seq<Event>)
    ensures Replay(state, a + b) ==
            match Replay(state, a)
            case None => None
            case Some(mid) => Replay(mid, b)
    decreases |a|
  {
    if |a| == 0 {
      assert a + b == b;
    } else {
      assert (a + b)[0] == a[0];
      assert (a + b)[1..] == a[1..] + b;
      match Step(state, a[0])
      case None =>
      case Some(next) => ReplayConcat(next, a[1..], b);
    }
  }

  /** What every resource looks like once `initVulkan` has finished. */
  function Initialized(validation: bool): Lifetimes
  {
    Lifetimes(Alive, Alive, Alive, if validation then Alive else Unborn, Alive, Alive)
  }

  /** What every resource looks like once `cleanup` has finished. */
  function CleanedUp(validation: bool): Lifetimes
  {
    Lifetimes(Gone, Gone, Gone, if validation then Gone else Unborn, Gone, Gone)
  }

  lemma CreationFollowsDependencies(validation: bool)
    ensures Replay(NOTHING_YET, InitTrace(validation)) == Some(Initialized(validation))
  {
    var t := InitTrace(validation);
    var m := if validation then Alive else Unborn;
    var s1 := Lifetimes(Alive, Unborn, Unborn, Unborn, Unborn, Unborn);
    var s2 := Lifetimes(Alive, Alive, Unborn, Unborn, Unborn, Unborn);
    var s3 := Lifetimes(Alive, Alive, Alive, Unborn, Unborn, Unborn);
    var s4 := Lifetimes(Alive, Alive, Alive, m, Unborn, Unborn);
    var s5 := Lifetimes(Alive, Alive, Alive, m, Alive, Unborn);
    var tail := [Created(Surface), PickedDevice, Created(Device)];
    assert Replay(s5, tail[2..]) == Some(Initialized(validation));
    assert Replay(s5, tail[1..]) == Some(Initialized(validation));
    assert Replay(s4, tail) == Some(Initialized(validation));
    var middle := if validation then [Created(DebugMessenger)] else [];
    ReplayConcat(s3, middle, tail);
    assert Replay(s3, middle + tail) == Some(Initialized(validation));
    assert t == [Created(GlfwLibrary), Created(Window), Created(Instance)] + (middle + tail);
    assert Replay(s2, t[2..]) == Some(Initialized(validation));
    assert Replay(s1, t[1..]) == Some(Initialized(validation));
  }

  lemma TeardownFollowsDependencies(validation: bool)
    ensures Replay(Initialized(validation), [RanMainLoop] + CleanupTrace(validation)) == Some(CleanedUp(validation))
  {
    var m := if validation then Gone else Unborn;
    var first := [RanMainLoop] + (if validation then [Destroyed(DebugMessenger)] else []);
    var rest := [Destroyed(Device), Destroyed(Surface), Destroyed(Instance), Destroyed(Window), Destroyed(GlfwLibrary)];
    var s0 := Lifetimes(Alive, Alive, Alive, m, Alive, Alive);
    if validation {
      assert Replay(Initialized(validation), first[1..]) == Some(s0);
    } else {
      assert first == [RanMainLoop];
    }
    var s1 := Lifetimes(Alive, Alive, Alive, m, Alive, Gone);
    var s2 := Lifetimes(Alive, Alive, Alive, m, Gone, Gone);
    var s3 := Lifetimes(Alive, Alive, Gone, m, Gone, Gone);
    var s4 := Lifetimes(Alive, Gone, Gone, m, Gone, Gone);
    assert Replay(s4, rest[4..]) == Some(CleanedUp(validation));
    assert Replay(s3, rest[3..]) == Some(CleanedUp(validation));
    assert Replay(s2, rest[2..]) == Some(CleanedUp(validation));
    assert Replay(s1, rest[1..]) == Some(CleanedUp(validation));
    assert Replay(s0, rest) == Some(CleanedUp(validation));
    ReplayConcat(Initialized(validation), first, rest);
    assert [RanMainLoop] + CleanupTrace(validation) == first + rest;
  }

  /** The creations and destructions of a concatenation are those of its
      parts, in order. */
  lemma OrdersConcat(a: seq<Event>, b: seq<Event>)
    ensures CreationOrder(a + b) == CreationOrder(a) + CreationOrder(b)
    ensures DestructionOrder(a + b) == DestructionOrder(a) + DestructionOrder(b)
  {
    CreationOrderConcat(a, b);
    DestructionOrderConcat(a, b);
  }

  lemma {:induction false} CreationOrderConcat(a: seq<Event>, b: seq<Event>)
    ensures CreationOrder(a + b) == CreationOrder(a) + CreationOrder(b)
    decreases |a|
  {
    if |a| == 0 {
      assert a + b == b;
    } else {
      var ab := a + b;
      var head := if a[0].Created? then [a[0].resource] else [];
      assert ab[0] == a[0];
      assert ab[1..] == a[1..] + b;
      CreationOrderConcat(a[1..], b);
      assert CreationOrder(ab) == head + (CreationOrder(a[1..]) + CreationOrder(b));
    }
  }

  lemma {:induction false} DestructionOrderConcat(a: seq<Event>, b: seq<Event>)
    ensures DestructionOrder(a + b) == DestructionOrder(a) + DestructionOrder(b)
    decreases |a|
  {
    if |a| == 0 {
      assert a + b == b;
    } else {
      var ab := a + b;
      var head := if a[0].Destroyed? then [a[0].resource] else [];
      assert ab[0] == a[0];
      assert ab[1..] == a[1..] + b;
      DestructionOrderConcat(a[1..], b);
      assert DestructionOrder(ab) == head + (DestructionOrder(a[1..]) + DestructionOrder(b));
    }
  }

  lemma InitTraceOrders(validation: bool)
    ensures CreationOrder(InitTrace(validation)) ==
            [GlfwLibrary, Window, Instance] + (if validation then [DebugMessenger] else []) + [Surface, Device]
    ensures DestructionOrder(InitTrace(validation)) == []
  {
    var a := [Created(GlfwLibrary), Created(Window), Created(Instance)];
    var m := if validation then [Created(DebugMessenger)] else [];
    var c := [Created(Surface), PickedDevice, Created(Device)];
    OrdersConcat(a, m);
    OrdersConcat(a + m, c);
    assert InitTrace(validation) == a + m + c;
    assert CreationOrder(c) == [Surface, Device] by {
      assert CreationOrder(c[2..]) == [Device];
    }
  }

  lemma CleanupTraceOrders(validation: bool)
    ensures CreationOrder([RanMainLoop] + CleanupTrace(validation)) == []
    ensures DestructionOrder([RanMainLoop] + CleanupTrace(validation)) ==
            (if validation then [DebugMessenger] else []) + [Device, Surface, Instance, Window, GlfwLibrary]
  {
    var md := if validation then [Destroyed(DebugMessenger)] else [];
    var e := [Destroyed(Device), Destroyed(Surface), Destroyed(Instance), Destroyed(Window), Destroyed(GlfwLibrary)];
    OrdersConcat(md, e);
    assert ([RanMainLoop] + CleanupTrace(validation))[1..] == md + e;
    assert CreationOrder(e) == [];
    assert DestructionOrder(e) == [Device, Surface, Instance, Window, GlfwLibrary];
  }

  lemma FullTraceOrders(validation: bool)
    ensures CreationOrder(FullTrace(validation)) ==
            [GlfwLibrary, Window, Instance] + (if validation then [DebugMessenger] else []) + [Surface, Device]
    ensures DestructionOrder(FullTrace(validation)) ==
            (if validation then [DebugMessenger] else []) + [Device, Surface, Instance, Window, GlfwLibrary]
  {
    InitTraceOrders(validation);
    CleanupTraceOrders(validation);
    OrdersConcat(InitTrace(validation), [RanMainLoop] + CleanupTrace(validation));
    assert FullTrace(validation) == InitTrace(validation) + ([RanMainLoop] + CleanupTrace(validation));
  }

  lemma TeardownMirrorsCreation()
    ensures Mirrors([Device, Surface, Instance, Window, GlfwLibrary], [GlfwLibrary, Window, Instance, Surface, Device])
  {
    var c := [GlfwLibrary, Window, Instance, Surface, Device];
    var d := [Device, Surface, Instance, Window, GlfwLibrary];
    forall i | 0 <= i < |c|
      ensures d[i] == c[|c| - 1 - i]
    {
      if i == 0 {} else if i == 1 {} else if i == 2 {} else if i == 3 {} else {}
    }
  }

  lemma FullTraceReplays(validation: bool)
    ensures Replay(NOTHING_YET, FullTrace(validation)) == Some(CleanedUp(validation))
  {
    CreationFollowsDependencies(validation);
    TeardownFollowsDependencies(validation);
    ReplayConcat(NOTHING_YET, InitTrace(validation), [RanMainLoop] + CleanupTrace(validation));
    assert FullTrace(validation) == InitTrace(validation) + ([RanMainLoop] + CleanupTrace(validation));
  }

  /** The exception a failed run ends with names the first call that
      failed, in the order `run` makes them. */
  lemma RunFailureCause(env: Environment, validation: bool)
    requires SomeDeviceUsable(env, validation)
    ensures var exit := Run(env, validation).exit;
            && (exit == ExitFailure(GlfwInitFailed) <==> !env.glfwInitialized)
            && (exit == ExitFailure(WindowCreationFailed) <==> env.glfwInitialized && !env.windowCreated)
            && (exit == ExitFailure(ValidationLayersUnavailable) <==>
                  env.glfwInitialized && env.windowCreated && validation &&
                  !InstanceSetup.LayersAvailable(InstanceSetup.VALIDATION_LAYERS, env.availableLayers))
            && (exit == ExitFailure(InstanceCreationFailed) <==>
                  env.glfwInitialized && env.windowCreated &&
                  (validation ==> InstanceSetup.LayersAvailable(InstanceSetup.VALIDATION_LAYERS, env.availableLayers)) &&
                  !env.instanceCreated)
            && (exit == ExitFailure(DebugMessengerSetupFailed) <==>
                  env.glfwInitialized && env.windowCreated && validation &&
                  InstanceSetup.LayersAvailable(InstanceSetup.VALIDATION_LAYERS, env.availableLayers) &&
                  env.instanceCreated && !env.messengerCreated)
            && (exit == ExitFailure(SurfaceCreationFailed) <==>
                  env.glfwInitialized && env.windowCreated &&
                  (validation ==> InstanceSetup.LayersAvailable(InstanceSetup.VALIDATION_LAYERS, env.availableLayers)) &&
                  env.instanceCreated && (validation ==> env.messengerCreated) && !env.surfaceCreated)
            && (exit == ExitFailure(NoVulkanGpus) <==>
                  env.glfwInitialized && env.windowCreated &&
                  (validation ==> InstanceSetup.LayersAvailable(InstanceSetup.VALIDATION_LAYERS, env.availableLayers)) &&
                  env.instanceCreated && (validation ==> env.messengerCreated) && env.surfaceCreated &&
                  env.deviceGroupCount == 0)
  {
  }

  /** A successful run builds its logical device on the device the ascending
      walk picks, not on the best-scoring one: with a suitable discrete GPU
      enumerated before a suitable integrated GPU, the device is made from
      the integrated GPU. */
  lemma RunUsesAscendingWalk()
    ensures var ds := [DeviceSelection.OneFamilyDevice(DiscreteGpu, true),
                       DeviceSelection.OneFamilyDevice(IntegratedGpu, true)];
            var env := Environment(true, true, [], [], true, true, true, 2, ds);
            && IsDeviceSuitable(env.devices[0])
            && Run(env, false).device == Some(LogicalDevice.CreateLogicalDevice(ds[1], false))
  {
    var ds := [DeviceSelection.OneFamilyDevice(DiscreteGpu, true),
               DeviceSelection.OneFamilyDevice(IntegratedGpu, true)];
    var env := Environment(true, true, [], [], true, true, true, 2, ds);
    DeviceSelection.AscendingWalkPrefersLowScore();
    assert ChosenDevice(env) == 1;
    assert InitVulkan(env, false).2 == Some(LogicalDevice.CreateLogicalDevice(ds[1], false));
    assert Progress(env, false).2 == InitVulkan(env, false).2;
  }

  /** A trace without destructions keeps alive everything that was alive
      before it and everything it creates. */
  lemma {:induction false} CreatedStayAlive(state: Lifetimes, t: seq<Event>)
    requires DestructionOrder(t) == []
    requires Replay(state, t).Some?
    ensures forall r :: StatusOf(state, r) == Alive || r in CreationOrder(t) ==>
              StatusOf(Replay(state, t).value, r) == Alive
    decreases |t|
  {
    if |t| > 0 {
      var next := Step(state, t[0]).value;
      assert !t[0].Destroyed?;
      assert DestructionOrder(t[1..]) == [];
      CreatedStayAlive(next, t[1..]);
      forall r | StatusOf(state, r) == Alive || r in CreationOrder(t)
        ensures StatusOf(next, r) == Alive || r in CreationOrder(t[1..])
      {
        if t[0].Created? && r == t[0].resource {
        } else {
          assert StatusOf(next, r) == StatusOf(state, r);
        }
      }
    }
  }

  /** A prefix of a trace that obeys the ownership rules obeys them too. */
  lemma ReplayPrefix(state: Lifetimes, t: seq<Event>, k: nat)
    requires k <= |t|
    requires Replay(state, t).Some?
    ensures Replay(state, t[..k]).Some?
  {
    ReplayConcat(state, t[..k], t[k..]);
    assert t[..k] + t[k..] == t;
  }

  /** A failed run stops part-way through `initVulkan`'s creations: it never
      reaches the main loop, destroys nothing, and leaves every resource it
      created alive, since the exception bypasses `cleanup`. */
  lemma RunFailureLeaks(env: Environment, validation: bool)
    requires SomeDeviceUsable(env, validation)
    requires Run(env, validation).exit.ExitFailure?
    ensures var t := Run(env, validation).trace;
            && |t| < |InitTrace(validation)| && t == InitTrace(validation)[..|t|]
            && RanMainLoop !in t
            && DestructionOrder(t) == []
            && Replay(NOTHING_YET, t).Some?
            && forall r :: r in CreationOrder(t) ==> StatusOf(Replay(NOTHING_YET, t).value, r) == Alive
  {
    InitPrefixLeaks(validation, |Run(env, validation).trace|);
  }

  /** Any part of the creations, cut off where a call fails. */
  lemma InitPrefixLeaks(validation: bool, k: nat)
    requires k <= |InitTrace(validation)|
    ensures var t := InitTrace(validation)[..k];
            && RanMainLoop !in t
            && DestructionOrder(t) == []
            && Replay(NOTHING_YET, t).Some?
            && forall r :: r in CreationOrder(t) ==> StatusOf(Replay(NOTHING_YET, t).value, r) == Alive
  {
    var init := InitTrace(validation);
    var t := init[..k];
    assert init == t + init[k..];
    assert RanMainLoop !in init by {
      assert init == [Created(GlfwLibrary), Created(Window), Created(Instance)]
        + (if validation then [Created(DebugMessenger)] else []) + [Created(Surface), PickedDevice, Created(Device)];
    }
    InitTraceOrders(validation);
    OrdersConcat(t, init[k..]);
    CreationFollowsDependencies(validation);
    ReplayPrefix(NOTHING_YET, init, k);
    CreatedStayAlive(NOTHING_YET, t);
  }

  /** A trace of creations only creates its resources in trace order. */
  lemma {:induction false} AllCreatedOrder(t: seq<Event>)
    requires forall i :: 0 <= i < |t| ==> t[i].Created?
    ensures |CreationOrder(t)| == |t|
    ensures forall i :: 0 <= i < |t| ==> CreationOrder(t)[i] == t[i].resource
    decreases |t|
  {
    if |t| > 0 {
      AllCreatedOrder(t[1..]);
      assert CreationOrder(t) == [t[0].resource] + CreationOrder(t[1..]);
    }
  }

  /** The creations before the device pick, in order. */
  function EarlyCreations(validation: bool): seq<Resource>
  {
    [GlfwLibrary, Window, Instance] + (if validation then [DebugMessenger] else []) + [Surface]
  }

  /** Cut anywhere up to the device pick, the creation trace has created
      exactly the first `k` of the early creations. */
  lemma InitPrefixCreations(validation: bool, k: nat)
    requires k <= |EarlyCreations(validation)|
    ensures CreationOrder(InitTrace(validation)[..k]) == EarlyCreations(validation)[..k]
  {
    var early := EarlyCreations(validation);
    var t := InitTrace(validation)[..k];
    assert forall i :: 0 <= i < |early| ==> InitTrace(validation)[i] == Created(early[i]) by {
      if validation {
        assert InitTrace(validation) == [Created(GlfwLibrary), Created(Window), Created(Instance),
          Created(DebugMessenger), Created(Surface), PickedDevice, Created(Device)];
      } else {
        assert InitTrace(validation) == [Created(GlfwLibrary), Created(Window), Created(Instance),
          Created(Surface), PickedDevice, Created(Device)];
      }
    }
    assert forall i :: 0 <= i < k ==> t[i] == Created(early[i]);
    AllCreatedOrder(t);
  }

  /** Where a failed run stops: the error decides how far the creation
      sequence got. */
  lemma FailureIndex(validation: bool, k: nat, e: Error)
    requires k < |InitTrace(validation)|
    requires InitTrace(validation)[k] == FailedEvent(e)
    ensures var m := if validation then 1 else 0;
            && (e == GlfwInitFailed ==> k == 0)
            && (e == WindowCreationFailed ==> k == 1)
            && (e == ValidationLayersUnavailable || e == InstanceCreationFailed ==> k == 2)
            && (e == DebugMessengerSetupFailed ==> validation && k == 3)
            && (e == SurfaceCreationFailed ==> k == 3 + m)
            && (e == NoVulkanGpus ==> k == 4 + m)
  {
    if validation {
      assert InitTrace(validation) == [Created(GlfwLibrary), Created(Window), Created(Instance),
        Created(DebugMessenger), Created(Surface), PickedDevice, Created(Device)];
    } else {
      assert InitTrace(validation) == [Created(GlfwLibrary), Created(Window), Created(Instance),
        Created(Surface), PickedDevice, Created(Device)];
    }
  }

  /** The handles a failed run leaves created (and, by `RunFailureLeaks`,
      alive), error by error: everything made before the call that threw. */
  lemma RunFailureCreations(env: Environment, validation: bool)
    requires SomeDeviceUsable(env, validation)
    ensures var r := Run(env, validation);
            var messenger := if validation then [DebugMessenger] else [];
            && (r.exit == ExitFailure(GlfwInitFailed) ==> CreationOrder(r.trace) == [])
            && (r.exit == ExitFailure(WindowCreationFailed) ==> CreationOrder(r.trace) == [GlfwLibrary])
            && (r.exit == ExitFailure(ValidationLayersUnavailable) ==>
                  CreationOrder(r.trace) == [GlfwLibrary, Window])
            && (r.exit == ExitFailure(InstanceCreationFailed) ==> CreationOrder(r.trace) == [GlfwLibrary, Window])
            && (r.exit == ExitFailure(DebugMessengerSetupFailed) ==>
                  CreationOrder(r.trace) == [GlfwLibrary, Window, Instance])
            && (r.exit == ExitFailure(SurfaceCreationFailed) ==>
                  CreationOrder(r.trace) == [GlfwLibrary, Window, Instance] + messenger)
            && (r.exit == ExitFailure(NoVulkanGpus) ==>
                  CreationOrder(r.trace) == [GlfwLibrary, Window, Instance] + messenger + [Surface])
  {
    var r := Run(env, validation);
    if r.exit.ExitFailure? {
      var k := |r.trace|;
      var e := r.exit.error;
      FailureIndex(validation, k, e);
      assert k <= |EarlyCreations(validation)|;
      InitPrefixCreations(validation, k);
      var early := EarlyCreations(validation);
      assert CreationOrder(r.trace) == early[..k];
      if validation {
        assert early == [GlfwLibrary, Window, Instance, DebugMessenger, Surface];
      } else {
        assert early == [GlfwLibrary, Window, Instance, Surface];
      }
    }
  }
}
