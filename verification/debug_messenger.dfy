/** The debug messenger: the severity mask it is registered with
    (`populateDebugMessengerCreateInfo`, `setupDebugMessenger`) and the
    severity-to-log-level mapping of `debugCallback`. */
module DebugMessenger {
  import VulkanTypes

  /** `VkDebugUtilsMessageSeverityFlagBitsEXT`. */
  const SEVERITY_VERBOSE: bv32 := 0x0000_0001
  const SEVERITY_INFO: bv32 := 0x0000_0010
  const SEVERITY_WARNING: bv32 := 0x0000_0100
  const SEVERITY_ERROR: bv32 := 0x0000_1000

  /** The severities the messenger is registered for: verbose, warning and
      error. Info is not among them. */
  const MESSENGER_SEVERITIES: bv32 := SEVERITY_VERBOSE | SEVERITY_WARNING | SEVERITY_ERROR

  /** The levels of the logging sink (`LOG_TRACE` ... `LOG_ERROR`). */
  datatype LogLevel = Trace | Info | Warn | Error

  /** The severity bit each log level answers to. */
  function SeverityBit(level: LogLevel): bv32
  {
    match level
    case Trace => SEVERITY_VERBOSE
    case Info => SEVERITY_INFO
    case Warn => SEVERITY_WARNING
    case Error => SEVERITY_ERROR
  }

  /** The `switch` of `debugCallback`: each of the four severity bits picks
      its own level, and every other value (a combination of bits, an
      unknown bit, zero) falls to `default` and logs nothing. */
  function SeverityLevel(severity: bv32): (level: VulkanTypes.Option<LogLevel>)
    ensures level.Some? ==> SeverityBit(level.value) == severity
    ensures level.None? <==>
              severity != SEVERITY_VERBOSE && severity != SEVERITY_INFO &&
              severity != SEVERITY_WARNING && severity != SEVERITY_ERROR
  {
    if severity == SEVERITY_VERBOSE then VulkanTypes.Some(Trace)
    else if severity == SEVERITY_INFO then VulkanTypes.Some(Info)
    else if severity == SEVERITY_WARNING then VulkanTypes.Some(Warn)
    else if severity == SEVERITY_ERROR then VulkanTypes.Some(Error)
    else VulkanTypes.None
  }

  /** The mapping is one-to-one: a level's own severity bit maps back to it. */
  lemma SeverityRoundTrip(level: LogLevel)
    ensures SeverityLevel(SeverityBit(level)) == VulkanTypes.Some(level)
  {
  }

  /** The text `debugCallback` logs for a message. */
  const MESSAGE_PREFIX: string := "validation layer: "

  /** What one invocation of `debugCallback` does: the line it would log, if
      any, and the `VkBool32` it returns, which tells the driver whether to
      abort the call that triggered the message. */
  datatype CallbackOutcome = CallbackOutcome(logged: VulkanTypes.Option<(LogLevel, string)>, abortCall: bool)

  /** `debugCallback`: logs the prefixed message at the level its severity
      maps to, or nothing for an unmapped severity, and never asks the driver
      to abort the call. */
  function DebugCallback(severity: bv32, message: string): (r: CallbackOutcome)
    ensures !r.abortCall
    ensures r.logged.Some? <==> SeverityLevel(severity).Some?
    ensures r.logged.Some? ==>
              && SeverityBit(r.logged.value.0) == severity
              && r.logged.value.1 == MESSAGE_PREFIX + message
  {
    var line := MESSAGE_PREFIX + message;
    match SeverityLevel(severity)
    case Some(level) => CallbackOutcome(VulkanTypes.Some((level, line)), false)
    case None => CallbackOutcome(VulkanTypes.None, false)
  }

  /** The driver only calls the messenger for severities it is registered
      for, so the callback never logs at info level in this application. */
  lemma InfoNeverLogged(severity: bv32, message: string)
    requires severity & MESSENGER_SEVERITIES != 0
    ensures DebugCallback(severity, message).logged.Some? ==>
              DebugCallback(severity, message).logged.value.0 != Info
  {
  }
}
