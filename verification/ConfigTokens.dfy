/** The configuration reader (master/config.c:8-12, 30-210): a loop over YAML tokens that
    keeps its place in the document in five variables.

    A scalar is the text before its first NUL, as C reads it. */
module ConfigTokens {
  import opened Options
  import opened CText
  import opened Decimal

  datatype Section = NoSection | Database | Log | Openvpn | Pki

  datatype Token =
    | KeyToken | ValueToken | ScalarToken(value: string)
    | BlockMappingStart | FlowMappingStart | BlockEnd | FlowMappingEnd
    | StreamEnd
    | OtherToken

  datatype Config = Config(
    dbHost: string, dbPort: int, dbName: string, dbUser: string, dbPassword: string,
    masterKeyFile: string, encryptionKey: string,
    logLevel: string, logFile: string, logLevelValue: int,
    binary: string, configDir: string, managementSocket: string,
    caKey: string, listenPort: int, listenHost: string)

  const DEFAULTS: Config := Config(
    "", 5432, "", "", "", "", "", "info", "/var/log/vpn-manager/core.log", 1,
    "", "", "", "", 0, "0.0.0.0")

  // --- copying into fixed buffers ---

  /** `safe_strcpy`: `strncpy` pads with NULs, and the last cell is always one. */
  method SafeStrcpy(dest: array<char>, src: string)
    requires IsText(src)
    modifies dest
    ensures dest.Length > 0 ==> CString(dest[..]) == Truncated(src, dest.Length)
  {
    if dest.Length == 0 {
      return;
    }
    for i := 0 to dest.Length - 1
      invariant forall k | 0 <= k < i :: dest[k] == if k < |src| then src[k] else NUL
    {
      dest[i] := if i < |src| then src[i] else NUL;
    }
    dest[dest.Length - 1] := NUL;
    CStringIs(dest[..], Truncated(src, dest.Length));
  }

  // --- storing one value ---

  function LevelValue(level: string): int {
    if level == "debug" then 0
    else if level == "info" then 1
    else if level == "warn" then 2
    else if level == "error" then 3
    else 1
  }

  function Taken(was: string, hit: bool, v: string, capacity: nat): string
    requires capacity > 0
  {
    if hit then Truncated(v, capacity) else was
  }

  /** The configuration after a value for `key` in `section`: the setting of that name, if there
      is one, has the value, and every other setting is as before. */
  function Assign(g: Config, section: Section, key: string, v: string): Config {
    Config(
      Taken(g.dbHost, section == Database && key == "host", v, 256),
      if section == Database && key == "port" then Atoi(v) else g.dbPort,
      Taken(g.dbName, section == Database && key == "name", v, 256),
      Taken(g.dbUser, section == Database && key == "user", v, 256),
      Taken(g.dbPassword, section == Database && key == "password", v, 256),
      Taken(g.masterKeyFile, section == NoSection && key == "master_key_file", v, 256),
      Taken(g.encryptionKey, section == NoSection && key == "encryption_key", v, 64),
      Taken(g.logLevel, section == Log && key == "level", v, 16),
      Taken(g.logFile, section == Log && key == "file", v, 256),
      if section == Log && key == "level" then LevelValue(v) else g.logLevelValue,
      Taken(g.binary, section == Openvpn && key == "binary", v, 256),
      Taken(g.configDir, section == Openvpn && key == "config_dir", v, 256),
      Taken(g.managementSocket, section == Openvpn && key == "management_socket", v, 256),
      Taken(g.caKey, section == Pki && key == "ca_key", v, 256),
      if section == NoSection && key == "listen_port" then Atoi(v) else g.listenPort,
      Taken(g.listenHost, section == NoSection && key == "listen_host", v, 64))
  }

  // The settings one by one.

  lemma AssignAddress(g: Config, v: string)
    ensures Assign(g, Database, "host", v) == g.(dbHost := Truncated(v, 256))
    ensures Assign(g, Database, "port", v) == g.(dbPort := Atoi(v))
  {
  }

  lemma AssignAccount(g: Config, v: string)
    ensures Assign(g, Database, "name", v) == g.(dbName := Truncated(v, 256))
    ensures Assign(g, Database, "user", v) == g.(dbUser := Truncated(v, 256))
    ensures Assign(g, Database, "password", v) == g.(dbPassword := Truncated(v, 256))
  {
  }

  lemma AssignInLog(g: Config, v: string)
    ensures Assign(g, Log, "level", v) == g.(logLevel := Truncated(v, 16), logLevelValue := LevelValue(v))
    ensures Assign(g, Log, "file", v) == g.(logFile := Truncated(v, 256))
  {
  }

  lemma AssignInOpenvpn(g: Config, v: string)
    ensures Assign(g, Openvpn, "binary", v) == g.(binary := Truncated(v, 256))
    ensures Assign(g, Openvpn, "config_dir", v) == g.(configDir := Truncated(v, 256))
    ensures Assign(g, Openvpn, "management_socket", v) == g.(managementSocket := Truncated(v, 256))
  {
  }

  lemma AssignAtTop(g: Config, v: string)
    ensures Assign(g, NoSection, "master_key_file", v) == g.(masterKeyFile := Truncated(v, 256))
    ensures Assign(g, NoSection, "encryption_key", v) == g.(encryptionKey := Truncated(v, 64))
    ensures Assign(g, NoSection, "listen_port", v) == g.(listenPort := Atoi(v))
    ensures Assign(g, NoSection, "listen_host", v) == g.(listenHost := Truncated(v, 64))
  {
  }

  function SectionOf(name: string): Section {
    if name == "database" then Database
    else if name == "log" then Log
    else if name == "openvpn" then Openvpn
    else if name == "pki" then Pki
    else NoSection
  }

  // --- the token machine ---

  datatype Reader = Reader(
    depth: int, section: Section, target: int, expectKey: bool,
    key: string, name: string, config: Config)

  const INITIAL: Reader := Reader(0, NoSection, 0, false, "", "", DEFAULTS)

  function Step(r: Reader, t: Token): Reader {
    match t
    case KeyToken => r.(expectKey := true)
    case ValueToken => r.(expectKey := false)
    case ScalarToken(v) =>
      if r.expectKey then
        if r.section.NoSection? then r.(name := Truncated(v, 64)) else r.(key := Truncated(v, 256))
      else r.(config := Assign(r.config, r.section, Current(r), v))
    case BlockMappingStart => Opened(r)
    case FlowMappingStart => Opened(r)
    case BlockEnd => Closed(r)
    case FlowMappingEnd => Closed(r)
    case StreamEnd => r
    case OtherToken => r
  }

  /** The name that a value belongs to. */
  function Current(r: Reader): string {
    if r.section.NoSection? then r.name else r.key
  }

  function Opened(r: Reader): Reader {
    if r.section.NoSection? && !SectionOf(r.name).NoSection?
    then r.(depth := r.depth + 1, section := SectionOf(r.name), target := r.depth + 1)
    else r.(depth := r.depth + 1)
  }

  function Closed(r: Reader): Reader {
    r.(depth := r.depth - 1, section := if r.depth == r.target then NoSection else r.section)
  }

  function Fold(r: Reader, ts: seq<Token>): Reader
    decreases ts
  {
    if ts == [] then r else Fold(Step(r, ts[0]), ts[1..])
  }

  /** Reading up to the end of the stream; a scanner that stops before it has failed. */
  function Scanned(r: Reader, ts: seq<Token>): Option<Reader>
    decreases ts
  {
    if ts == [] then None
    else if ts[0].StreamEnd? then Some(r)
    else Scanned(Step(r, ts[0]), ts[1..])
  }
}
