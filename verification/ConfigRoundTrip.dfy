/** A configuration written out as a document is read back as far as the buffers keep it. */
module ConfigRoundTrip {
  import opened Options
  import opened CText
  import opened Decimal
  import opened ConfigTokens
  import opened ConfigTree
  import opened ConfigReading

  /** Configurations that the fixed buffers can hold, with the level that their text means. */
  predicate Fits(g: Config) {
    && |g.dbHost| < 256 && |g.dbName| < 256 && |g.dbUser| < 256 && |g.dbPassword| < 256
    && |g.masterKeyFile| < 256 && |g.encryptionKey| < 64 && |g.listenHost| < 64
    && |g.logLevel| < 16 && |g.logFile| < 256 && g.logLevelValue == LevelValue(g.logLevel)
    && |g.binary| < 256 && |g.configDir| < 256 && |g.managementSocket| < 256 && |g.caKey| < 256
  }

  /** What the buffers keep of one. */
  function Cut(g: Config): Config {
    Config(Truncated(g.dbHost, 256), g.dbPort, Truncated(g.dbName, 256), Truncated(g.dbUser, 256),
      Truncated(g.dbPassword, 256), Truncated(g.masterKeyFile, 256), Truncated(g.encryptionKey, 64),
      Truncated(g.logLevel, 16), Truncated(g.logFile, 256), LevelValue(g.logLevel),
      Truncated(g.binary, 256), Truncated(g.configDir, 256), Truncated(g.managementSocket, 256),
      Truncated(g.caKey, 256), g.listenPort, Truncated(g.listenHost, 64))
  }

  function AccountPart(g: Config): Entries {
    Entry("name", Scalar(g.dbName), Entry("user", Scalar(g.dbUser), Entry("password", Scalar(g.dbPassword), NoEntries)))
  }

  function DatabasePart(g: Config): Entries
  {
    Entry("host", Scalar(g.dbHost), Entry("port", Scalar(SignedText(g.dbPort)), AccountPart(g)))
  }

  function LogPart(g: Config): Entries {
    Entry("level", Scalar(g.logLevel), Entry("file", Scalar(g.logFile), NoEntries))
  }

  function OpenvpnPart(g: Config): Entries {
    Entry("binary", Scalar(g.binary), Entry("config_dir", Scalar(g.configDir),
      Entry("management_socket", Scalar(g.managementSocket), NoEntries)))
  }

  function TopPart(g: Config): Entries
  {
    Entry("master_key_file", Scalar(g.masterKeyFile), Entry("encryption_key", Scalar(g.encryptionKey),
      Entry("listen_port", Scalar(SignedText(g.listenPort)), Entry("listen_host", Scalar(g.listenHost), NoEntries))))
  }

  function Document(g: Config): Node
  {
    Mapping(false,
      Entry("database", Mapping(false, DatabasePart(g)),
      Entry("log", Mapping(false, LogPart(g)),
      Entry("openvpn", Mapping(false, OpenvpnPart(g)),
      Entry("pki", Mapping(false, Entry("ca_key", Scalar(g.caKey), NoEntries)),
      TopPart(g))))))
  }

  lemma OneSetting(s: Config, key: string, v: string, rest: Entries, section: Section, t: Config)
    requires Assign(s, section, key, v) == t
    ensures Stored(s, EntryLeaves(Entry(key, Scalar(v), rest), section)) == Stored(t, EntryLeaves(rest, section))
    ensures rest.NoEntries? ==> Stored(s, EntryLeaves(Entry(key, Scalar(v), rest), section)) == t
  {
    StoredConcat(s, [Leaf(section, key, v)], EntryLeaves(rest, section));
    assert [Leaf(section, key, v)][1..] == [];
    assert Stored(s, [Leaf(section, key, v)]) == t;
  }

  lemma OneSection(s: Config, key: string, part: Entries, rest: Entries)
    requires !SectionOf(key).NoSection?
    ensures Stored(s, EntryLeaves(Entry(key, Mapping(false, part), rest), NoSection))
      == Stored(Stored(s, EntryLeaves(part, SectionOf(key))), EntryLeaves(rest, NoSection))
  {
    StoredConcat(s, EntryLeaves(part, SectionOf(key)), EntryLeaves(rest, NoSection));
  }

  lemma AccountIsStored(s: Config, g: Config)
    ensures Stored(s, EntryLeaves(AccountPart(g), Database))
      == s.(dbName := Cut(g).dbName, dbUser := Cut(g).dbUser, dbPassword := Cut(g).dbPassword)
  {
    var e5 := Entry("password", Scalar(g.dbPassword), NoEntries);
    var e4 := Entry("user", Scalar(g.dbUser), e5);
    var s3 := s.(dbName := Cut(g).dbName);
    var s4 := s3.(dbUser := Cut(g).dbUser);
    OneSetting(s, "name", g.dbName, e4, Database, s3) by { AssignAccount(s, g.dbName); }
    OneSetting(s3, "user", g.dbUser, e5, Database, s4) by { AssignAccount(s3, g.dbUser); }
    OneSetting(s4, "password", g.dbPassword, NoEntries, Database, s4.(dbPassword := Cut(g).dbPassword)) by {
      AssignAccount(s4, g.dbPassword);
    }
  }

  lemma DatabaseIsStored(s: Config, g: Config)
    ensures Stored(s, EntryLeaves(DatabasePart(g), Database))
      == s.(dbHost := Cut(g).dbHost, dbPort := Cut(g).dbPort, dbName := Cut(g).dbName, dbUser := Cut(g).dbUser, dbPassword := Cut(g).dbPassword)
  {
    AtoiOfSigned(g.dbPort);
    var e2 := Entry("port", Scalar(SignedText(g.dbPort)), AccountPart(g));
    var s1 := s.(dbHost := Cut(g).dbHost);
    var s2 := s1.(dbPort := Cut(g).dbPort);
    OneSetting(s, "host", g.dbHost, e2, Database, s1) by { AssignAddress(s, g.dbHost); }
    OneSetting(s1, "port", SignedText(g.dbPort), AccountPart(g), Database, s2) by { AssignAddress(s1, SignedText(g.dbPort)); }
    AccountIsStored(s2, g);
  }

  lemma TopIsStored(s: Config, g: Config)
    ensures Stored(s, EntryLeaves(TopPart(g), NoSection))
      == s.(masterKeyFile := Cut(g).masterKeyFile, encryptionKey := Cut(g).encryptionKey,
            listenPort := Cut(g).listenPort, listenHost := Cut(g).listenHost)
  {
    AtoiOfSigned(g.listenPort);
    var e4 := Entry("listen_host", Scalar(g.listenHost), NoEntries);
    var e3 := Entry("listen_port", Scalar(SignedText(g.listenPort)), e4);
    var e2 := Entry("encryption_key", Scalar(g.encryptionKey), e3);
    var s1 := s.(masterKeyFile := Cut(g).masterKeyFile);
    var s2 := s1.(encryptionKey := Cut(g).encryptionKey);
    var s3 := s2.(listenPort := Cut(g).listenPort);
    OneSetting(s, "master_key_file", g.masterKeyFile, e2, NoSection, s1) by { AssignAtTop(s, g.masterKeyFile); }
    OneSetting(s1, "encryption_key", g.encryptionKey, e3, NoSection, s2) by { AssignAtTop(s1, g.encryptionKey); }
    OneSetting(s2, "listen_port", SignedText(g.listenPort), e4, NoSection, s3) by { AssignAtTop(s2, SignedText(g.listenPort)); }
    OneSetting(s3, "listen_host", g.listenHost, NoEntries, NoSection, s3.(listenHost := Cut(g).listenHost)) by {
      AssignAtTop(s3, g.listenHost);
    }
  }

  lemma LogIsStored(s: Config, g: Config)
    ensures Stored(s, EntryLeaves(LogPart(g), Log))
      == s.(logLevel := Cut(g).logLevel, logLevelValue := Cut(g).logLevelValue, logFile := Cut(g).logFile)
  {
    var s1 := s.(logLevel := Cut(g).logLevel, logLevelValue := Cut(g).logLevelValue);
    var e2 := Entry("file", Scalar(g.logFile), NoEntries);
    OneSetting(s, "level", g.logLevel, e2, Log, s1) by { AssignInLog(s, g.logLevel); }
    OneSetting(s1, "file", g.logFile, NoEntries, Log, s1.(logFile := Cut(g).logFile)) by { AssignInLog(s1, g.logFile); }
  }

  lemma OpenvpnIsStored(s: Config, g: Config)
    ensures Stored(s, EntryLeaves(OpenvpnPart(g), Openvpn))
      == s.(binary := Cut(g).binary, configDir := Cut(g).configDir, managementSocket := Cut(g).managementSocket)
  {
    var e3 := Entry("management_socket", Scalar(g.managementSocket), NoEntries);
    var e2 := Entry("config_dir", Scalar(g.configDir), e3);
    var s1 := s.(binary := Cut(g).binary);
    var s2 := s1.(configDir := Cut(g).configDir);
    OneSetting(s, "binary", g.binary, e2, Openvpn, s1) by { AssignInOpenvpn(s, g.binary); }
    OneSetting(s1, "config_dir", g.configDir, e3, Openvpn, s2) by { AssignInOpenvpn(s1, g.configDir); }
    OneSetting(s2, "management_socket", g.managementSocket, NoEntries, Openvpn,
               s2.(managementSocket := Cut(g).managementSocket)) by { AssignInOpenvpn(s2, g.managementSocket); }
  }

  lemma DocumentIsStored(g: Config)
    ensures Stored(DEFAULTS, Leaves(Document(g), NoSection, "")) == Cut(g)
  {
    var pki := Entry("ca_key", Scalar(g.caKey), NoEntries);
    var r4 := TopPart(g);
    var r3 := Entry("pki", Mapping(false, pki), r4);
    var r2 := Entry("openvpn", Mapping(false, OpenvpnPart(g)), r3);
    var r1 := Entry("log", Mapping(false, LogPart(g)), r2);
    OneSection(DEFAULTS, "database", DatabasePart(g), r1);
    DatabaseIsStored(DEFAULTS, g);
    var s1 := Stored(DEFAULTS, EntryLeaves(DatabasePart(g), Database));
    OneSection(s1, "log", LogPart(g), r2);
    LogIsStored(s1, g);
    var s2 := Stored(s1, EntryLeaves(LogPart(g), Log));
    OneSection(s2, "openvpn", OpenvpnPart(g), r3);
    OpenvpnIsStored(s2, g);
    var s3 := Stored(s2, EntryLeaves(OpenvpnPart(g), Openvpn));
    OneSection(s3, "pki", pki, r4);
    OneSetting(s3, "ca_key", g.caKey, NoEntries, Pki, s3.(caKey := Cut(g).caKey));
    TopIsStored(s3.(caKey := Cut(g).caKey), g);
  }

  lemma OneScalar(key: string, v: string, rest: Entries)
    ensures IndentedEntries(Entry(key, Scalar(v), rest)) == IndentedEntries(rest)
    ensures CalmEntries(Entry(key, Scalar(v), rest)) <==> CalmEntries(rest)
  {
  }

  lemma PartsAreCalm(g: Config)
    ensures IndentedEntries(DatabasePart(g)) == IndentedEntries(LogPart(g)) == IndentedEntries(OpenvpnPart(g)) == 0
    ensures CalmEntries(TopPart(g))
  {
    OneScalar("password", g.dbPassword, NoEntries);
    OneScalar("user", g.dbUser, AccountPart(g).rest.rest);
    OneScalar("name", g.dbName, AccountPart(g).rest);
    OneScalar("port", SignedText(g.dbPort), AccountPart(g));
    OneScalar("host", g.dbHost, DatabasePart(g).rest);
    OneScalar("file", g.logFile, NoEntries);
    OneScalar("level", g.logLevel, LogPart(g).rest);
    OneScalar("management_socket", g.managementSocket, NoEntries);
    OneScalar("config_dir", g.configDir, OpenvpnPart(g).rest.rest);
    OneScalar("binary", g.binary, OpenvpnPart(g).rest);
    OneScalar("listen_host", g.listenHost, NoEntries);
    OneScalar("listen_port", SignedText(g.listenPort), TopPart(g).rest.rest.rest);
    OneScalar("encryption_key", g.encryptionKey, TopPart(g).rest.rest);
    OneScalar("master_key_file", g.masterKeyFile, TopPart(g).rest);
  }

  lemma DocumentIsCalm(g: Config)
    ensures Calm(Document(g), "")
  {
    PartsAreCalm(g);
    var pki := Entry("ca_key", Scalar(g.caKey), NoEntries);
    OneScalar("ca_key", g.caKey, NoEntries);
    var r3 := Entry("pki", Mapping(false, pki), TopPart(g));
    var r2 := Entry("openvpn", Mapping(false, OpenvpnPart(g)), r3);
    var r1 := Entry("log", Mapping(false, LogPart(g)), r2);
    assert CalmEntries(r3);
    assert CalmEntries(r2);
    assert CalmEntries(r1);
  }

  lemma CutWhenFits(g: Config)
    ensures Cut(g) == g <==> Fits(g)
  {
    CutTexts(g.dbHost, 256);
    CutTexts(g.dbName, 256);
    CutTexts(g.dbUser, 256);
    CutTexts(g.dbPassword, 256);
    CutTexts(g.masterKeyFile, 256);
    CutTexts(g.encryptionKey, 64);
    CutTexts(g.listenHost, 64);
    CutTexts(g.logLevel, 16);
    CutTexts(g.logFile, 256);
    CutTexts(g.binary, 256);
    CutTexts(g.configDir, 256);
    CutTexts(g.managementSocket, 256);
    CutTexts(g.caKey, 256);
  }

  lemma CutTexts(s: string, capacity: nat)
    requires capacity > 0
    ensures Truncated(s, capacity) == s <==> |s| < capacity
  {
  }

  /** Reading the tokens of the written document gives the configuration back exactly when it
      fits the buffers, and else what they keep of it. */
  lemma ConfigReadsBack(g: Config, ts: seq<Token>)
    requires Significant(ts) == Tokens(Document(g)) + [StreamEnd]
    ensures Scanned(INITIAL, ts).Some? && Scanned(INITIAL, ts).value.config == Cut(g)
    ensures Scanned(INITIAL, ts).value.config == g <==> Fits(g)
  {
    DocumentIsCalm(g);
    CalmDocumentIsRead(Document(g), ts);
    LastValuesAreStored(DEFAULTS, Leaves(Document(g), NoSection, ""));
    DocumentIsStored(g);
    CutWhenFits(g);
  }
}
