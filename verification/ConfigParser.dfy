/** `parse_config` (master/config.c:30-210) as it runs: the loop over the tokens and the
    variables that keep its place. */
module ConfigParser {
  import opened Options
  import opened CText
  import opened Decimal
  import opened ConfigTokens
  import opened ConfigTree
  import opened ConfigReading

  class Parser {
    var depth: int
    var inSection: Section
    var targetDepth: int
    var expectKey: bool
    var currentKey: string
    var currentSection: string
    var config: Config

    ghost function State(): Reader
      reads this
    {
      Reader(depth, inSection, targetDepth, expectKey, currentKey, currentSection, config)
    }

    constructor ()
      ensures State() == INITIAL
    {
      depth, inSection, targetDepth, expectKey := 0, NoSection, 0, false;
      currentKey, currentSection, config := "", "", DEFAULTS;
    }

    /** The comparisons for a value: the setting of its section and name is set, if there is
        one, and every other setting stays as it is. */
    method Store(value: string)
      modifies this`config
      ensures config == Assign(old(config), inSection, Current(old(State())), value)
    {
      match inSection {
        case Database =>
          StoreDatabase(value);
        case Log =>
          AssignInLog(config, value);
          if currentKey == "level" {
            config := config.(logLevel := Truncated(value, 16), logLevelValue := LevelValue(value));
          } else if currentKey == "file" {
            config := config.(logFile := Truncated(value, 256));
          }
        case Openvpn =>
          AssignInOpenvpn(config, value);
          if currentKey == "binary" {
            config := config.(binary := Truncated(value, 256));
          } else if currentKey == "config_dir" {
            config := config.(configDir := Truncated(value, 256));
          } else if currentKey == "management_socket" {
            config := config.(managementSocket := Truncated(value, 256));
          }
        case Pki =>
          if currentKey == "ca_key" {
            config := config.(caKey := Truncated(value, 256));
          }
        case NoSection =>
          AssignAtTop(config, value);
          if currentSection == "master_key_file" {
            config := config.(masterKeyFile := Truncated(value, 256));
          } else if currentSection == "encryption_key" {
            config := config.(encryptionKey := Truncated(value, 64));
          } else if currentSection == "listen_port" {
            config := config.(listenPort := Atoi(value));
          } else if currentSection == "listen_host" {
            config := config.(listenHost := Truncated(value, 64));
          }
      }
    }

    method StoreDatabase(value: string)
      modifies this`config
      ensures config == Assign(old(config), Database, currentKey, value)
    {
      AssignAddress(config, value);
      AssignAccount(config, value);
      if currentKey == "host" {
        config := config.(dbHost := Truncated(value, 256));
      } else if currentKey == "port" {
        config := config.(dbPort := Atoi(value));
      } else if currentKey == "name" {
        config := config.(dbName := Truncated(value, 256));
      } else if currentKey == "user" {
        config := config.(dbUser := Truncated(value, 256));
      } else if currentKey == "password" {
        config := config.(dbPassword := Truncated(value, 256));
      }
    }

    method Consume(t: Token)
      modifies this
      ensures State() == Step(old(State()), t)
    {
      match t {
        case KeyToken =>
          expectKey := true;
        case ValueToken =>
          expectKey := false;
        case ScalarToken(value) =>
          if !expectKey {
            Store(value);
          } else if inSection != NoSection {
            currentKey := Truncated(value, 256);
          } else {
            currentSection := Truncated(value, 64);
          }
        case BlockMappingStart =>
          Open();
        case FlowMappingStart =>
          Open();
        case BlockEnd =>
          Close();
        case FlowMappingEnd =>
          Close();
        case _ =>
      }
    }

    method Open()
      modifies this`depth, this`inSection, this`targetDepth
      ensures State() == Opened(old(State()))
    {
      depth := depth + 1;
      if inSection == NoSection && SectionOf(currentSection) != NoSection {
        inSection := SectionOf(currentSection);
        targetDepth := depth;
      }
    }

    method Close()
      modifies this`depth, this`inSection
      ensures State() == Closed(old(State()))
    {
      if inSection != NoSection && depth == targetDepth {
        inSection := NoSection;
      }
      depth := depth - 1;
    }

    /** `parse_config` on the tokens that the scanner delivers. It succeeds exactly when the
        stream ends and the required settings are there; and on the tokens of a document tree
        the configuration is the meaning of the tree. */
    method Parse(tokens: seq<Token>) returns (code: int)
      requires State() == INITIAL
      modifies this
      ensures code == 0 || code == -1
      ensures match Scanned(INITIAL, tokens)
        case None => code == -1
        case Some(r) => State() == r && (code == 0 <==> (
          r.config.dbHost != "" && r.config.dbName != "" && r.config.dbUser != "" && r.config.dbPassword != ""
          && r.config.binary != ""))
      ensures forall root | Significant(tokens) == Tokens(root) + [StreamEnd] ::
        SettingsHold(config, LeavesAt(root, START))
    {
      forall root | Significant(tokens) == Tokens(root) + [StreamEnd]
        ensures Scanned(INITIAL, tokens).Some?
        ensures SettingsHold(Scanned(INITIAL, tokens).value.config, LeavesAt(root, START))
      {
        DocumentIsRead(root, tokens);
        MeaningHolds(LeavesAt(root, START));
      }
      ghost var result := Scanned(INITIAL, tokens);
      var i, done := 0, false;
      while !done
        invariant i <= |tokens|
        invariant if done then result == Some(State()) else result == Scanned(State(), tokens[i..])
        decreases |tokens| - i, !done
      {
        if i == |tokens| {
          return -1;
        }
        if tokens[i].StreamEnd? {
          done := true;
        } else {
          assert tokens[i..][1..] == tokens[i + 1..];
          Consume(tokens[i]);
          i := i + 1;
        }
      }
      if config.dbHost == "" || config.dbName == "" || config.dbUser == "" || config.dbPassword == "" {
        return -1;
      }
      if config.binary == "" {
        return -1;
      }
      return 0;
    }
  }
}
