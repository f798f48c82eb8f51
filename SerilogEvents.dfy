/** Stand-in for the Serilog event the logging sink receives. */
module SerilogEvents {
  import opened Common
  import opened ExceptionExtensions

  /** Serilog's LogEventLevel. */
  datatype LogEventLevel = Verbose | Debug | Information | Warning | Error | Fatal

  /** level.ToString(): the enumeration member's name. */
  function LevelName(level: LogEventLevel): (name: string)
    ensures |name| > 0 && '|' !in name
  {
    match level
    case Verbose => "Verbose"
    case Debug => "Debug"
    case Information => "Information"
    case Warning => "Warning"
    case Error => "Error"
    case Fatal => "Fatal"
  }

  /** Distinct levels have distinct names. */
  lemma LevelNameInjective(a: LogEventLevel, b: LogEventLevel)
    ensures LevelName(a) == LevelName(b) ==> a == b
  {
  }

  /** A log event: its level, the text of its message template, its
      properties as the text each value renders to (a string property renders
      with its double quotes), and the attached exception if any. */
  datatype LogEvent = LogEvent(
    level: LogEventLevel,
    messageTemplate: string,
    properties: map<string, string>,
    exception: Option<Exception>)
}
