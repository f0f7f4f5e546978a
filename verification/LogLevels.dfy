/** Which messages are logged, and how, under a configured level (master/logger.c:5-15, 57-76,
    master/config.c:106-110). */
module LogLevels {
  import opened Options
  import opened CText
  import opened ConfigTokens
  import opened ConfigTree
  import opened LogRedaction
  import opened RedactionLaws

  /** The syslog priorities of the core, and any other one. */
  datatype Severity = Debug | Info | Warning | Err | OtherPriority

  function MessageLevel(severity: Severity): int {
    match severity
    case Debug => 0
    case Info => 1
    case Warning => 2
    case Err => 3
    case OtherPriority => 3
  }

  /** `should_log` */
  predicate ShouldLog(g: Config, severity: Severity) {
    MessageLevel(severity) >= g.logLevelValue
  }

  /** What `log_message` writes: the message as far as the buffer of 4096 bytes holds it, and
      redacted unless everything is logged. */
  function Logged(g: Config, severity: Severity, message: string): Option<string> {
    if !ShouldLog(g, severity) then None
    else
      var text := Truncated(message, LOG_BUFFER);
      Some(if g.logLevelValue > 0 then Redacted(text) else text)
  }

  /** The configured level, as a document sets it last. */
  ghost predicate LevelIs(g: Config, leaves: seq<Leaf>, level: Option<string>) {
    g == Meaning(DEFAULTS, leaves) && LastValue(leaves, Log, "level") == level
  }

  /** Each level lets its own messages and the graver ones through; without a level, or with a
      text that is none, it is "info". */
  lemma LevelsInOrder(g: Config, leaves: seq<Leaf>, level: Option<string>)
    requires LevelIs(g, leaves, level)
    ensures level == Some("debug") ==> forall s :: ShouldLog(g, s)
    ensures level == Some("warn") ==> forall s :: ShouldLog(g, s) <==> s != Debug && s != Info
    ensures level == Some("error") ==> forall s :: ShouldLog(g, s) <==> s != Debug && s != Info && s != Warning
    ensures level !in [Some("debug"), Some("warn"), Some("error")] ==> forall s :: ShouldLog(g, s) <==> s != Debug
  {
  }

  /** Messages are logged as far as the first 4095 bytes, and redacted at every level but
      "debug". */
  lemma LoggedMessagesAreRedacted(g: Config, leaves: seq<Leaf>, level: Option<string>, severity: Severity, message: string)
    requires LevelIs(g, leaves, level) && ShouldLog(g, severity)
    ensures var text := if |message| <= 4095 then message else message[..4095];
      Logged(g, severity, message) == Some(if level == Some("debug") then text else Redacted(text))
  {
  }
}
