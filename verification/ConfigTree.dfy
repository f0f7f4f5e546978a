/** What the token machine of the configuration reader computes on the tokens of a
    configuration tree (master/config.c:69-188). */
module ConfigTree {
  import opened Options
  import opened CText
  import opened Decimal
  import opened ConfigTokens

  /** Documents whose keys are scalars. `Absent` is an empty value or an alias. A block sequence
      that is indented under its key ends with a token that counts; flow sequences, and block
      sequences in the column of their key, have no such token. */
  datatype Node =
    | Scalar(value: string)
    | Absent
    | Mapping(flow: bool, entries: Entries)
    | Sequence(indented: bool, items: Items)

  datatype Entries = NoEntries | Entry(key: string, value: Node, rest: Entries)

  datatype Items = NoItems | Item(node: Node, others: Items)

  // --- the tokens of a tree ---

  function Tokens(n: Node): seq<Token> {
    match n
    case Scalar(v) => [ScalarToken(v)]
    case Absent => []
    case Mapping(flow, es) =>
      [if flow then FlowMappingStart else BlockMappingStart] + EntryTokens(es)
      + [if flow then FlowMappingEnd else BlockEnd]
    case Sequence(indented, items) => ItemTokens(items) + if indented then [BlockEnd] else []
  }

  function EntryTokens(es: Entries): seq<Token> {
    match es
    case NoEntries => []
    case Entry(k, v, rest) => [KeyToken, ScalarToken(k), ValueToken] + Tokens(v) + EntryTokens(rest)
  }

  function ItemTokens(items: Items): seq<Token> {
    match items
    case NoItems => []
    case Item(n, others) => Tokens(n) + ItemTokens(others)
  }

  /** The tokens that move the machine: stream and document marks, separators, brackets of
      sequences, anchors, aliases and tags are dropped. */
  function Significant(ts: seq<Token>): seq<Token> {
    if ts == [] then []
    else if ts[0].OtherToken? then Significant(ts[1..])
    else [ts[0]] + Significant(ts[1..])
  }

  // --- the meaning of a tree ---

  /** A scalar value, the section it is read in and the name it is read under. */
  datatype Leaf = Leaf(section: Section, key: string, value: string)

  /** The scalar values below a node that stands under `name`. Inside a recognised section
      the name is the nearest key, at any depth; outside, a mapping under the name of a
      section opens it, and any other mapping is looked into as if it were at the top. */
  function Leaves(n: Node, section: Section, name: string): seq<Leaf> {
    match n
    case Scalar(v) => [Leaf(section, name, v)]
    case Absent => []
    case Mapping(_, es) => EntryLeaves(es, Inner(section, name))
    case Sequence(_, items) => ItemLeaves(items, section, name)
  }

  function Inner(section: Section, name: string): Section {
    if section.NoSection? then SectionOf(name) else section
  }

  function EntryLeaves(es: Entries, section: Section): seq<Leaf> {
    match es
    case NoEntries => []
    case Entry(k, v, rest) => Leaves(v, section, k) + EntryLeaves(rest, section)
  }

  function ItemLeaves(items: Items, section: Section, name: string): seq<Leaf> {
    match items
    case NoItems => []
    case Item(n, others) => Leaves(n, section, name) + ItemLeaves(others, section, NameAfter(n, section, name))
  }

  /** The name in force after a node: a mapping leaves its last key behind, unless it was
      the mapping of a section. */
  function NameAfter(n: Node, section: Section, name: string): string {
    match n
    case Scalar(_) => name
    case Absent => name
    case Mapping(_, es) =>
      if section.NoSection? && !SectionOf(name).NoSection? then name else NameAfterEntries(es, section, name)
    case Sequence(_, items) => NameAfterItems(items, section, name)
  }

  function NameAfterEntries(es: Entries, section: Section, name: string): string {
    match es
    case NoEntries => name
    case Entry(k, v, rest) => NameAfterEntries(rest, section, NameAfter(v, section, k))
  }

  function NameAfterItems(items: Items, section: Section, name: string): string {
    match items
    case NoItems => name
    case Item(n, others) => NameAfterItems(others, section, NameAfter(n, section, name))
  }

  function Stored(g: Config, leaves: seq<Leaf>): Config
    decreases leaves
  {
    if leaves == [] then g
    else Stored(Assign(g, leaves[0].section, leaves[0].key, leaves[0].value), leaves[1..])
  }

  lemma {:induction false} StoredConcat(g: Config, xs: seq<Leaf>, ys: seq<Leaf>)
    ensures Stored(g, xs + ys) == Stored(Stored(g, xs), ys)
    decreases xs
  {
    if xs == [] {
      assert xs + ys == ys;
    } else {
      assert (xs + ys)[0] == xs[0] && (xs + ys)[1..] == xs[1..] + ys;
      StoredConcat(Assign(g, xs[0].section, xs[0].key, xs[0].value), xs[1..], ys);
    }
  }

  // --- last value wins ---

  function LastValue(leaves: seq<Leaf>, section: Section, key: string): Option<string> {
    if leaves == [] then None
    else
      var n := |leaves| - 1;
      if leaves[n].section == section && leaves[n].key == key then Some(leaves[n].value)
      else LastValue(leaves[..n], section, key)
  }

  ghost predicate Stands(leaf: Leaf, section: Section, key: string) {
    leaf.section == section && leaf.key == key
  }

  lemma {:induction false} LastValueIsLast(leaves: seq<Leaf>, section: Section, key: string)
    ensures match LastValue(leaves, section, key)
      case None => forall i | 0 <= i < |leaves| :: !Stands(leaves[i], section, key)
      case Some(v) => exists i | 0 <= i < |leaves| :: IsLast(leaves, section, key, i) && leaves[i].value == v
  {
    if leaves != [] {
      var n := |leaves| - 1;
      if Stands(leaves[n], section, key) {
        assert IsLast(leaves, section, key, n);
      } else {
        var front := leaves[..n];
        LastValueIsLast(front, section, key);
        assert forall j | 0 <= j < n :: front[j] == leaves[j];
        if LastValue(front, section, key).Some? {
          var i :| 0 <= i < n && IsLast(front, section, key, i) && Some(front[i].value) == LastValue(front, section, key);
          assert IsLast(leaves, section, key, i);
        }
      }
    }
  }

  ghost predicate IsLast(leaves: seq<Leaf>, section: Section, key: string, i: nat) {
    && i < |leaves| && Stands(leaves[i], section, key)
    && forall j | i < j < |leaves| :: !Stands(leaves[j], section, key)
  }

  function TextOf(leaves: seq<Leaf>, section: Section, key: string, capacity: nat, default: string): string
    requires capacity > 0
  {
    match LastValue(leaves, section, key)
    case None => default
    case Some(v) => Truncated(v, capacity)
  }

  function NumberOf(leaves: seq<Leaf>, section: Section, key: string, default: int): int {
    match LastValue(leaves, section, key)
    case None => default
    case Some(v) => Atoi(v)
  }

  /** Every setting has its last value, cut to its buffer, or else what it had before. */
  function Meaning(g: Config, leaves: seq<Leaf>): Config {
    Config(
      TextOf(leaves, Database, "host", 256, g.dbHost),
      NumberOf(leaves, Database, "port", g.dbPort),
      TextOf(leaves, Database, "name", 256, g.dbName),
      TextOf(leaves, Database, "user", 256, g.dbUser),
      TextOf(leaves, Database, "password", 256, g.dbPassword),
      TextOf(leaves, NoSection, "master_key_file", 256, g.masterKeyFile),
      TextOf(leaves, NoSection, "encryption_key", 64, g.encryptionKey),
      TextOf(leaves, Log, "level", 16, g.logLevel),
      TextOf(leaves, Log, "file", 256, g.logFile),
      match LastValue(leaves, Log, "level") case None => g.logLevelValue case Some(v) => LevelValue(v),
      TextOf(leaves, Openvpn, "binary", 256, g.binary),
      TextOf(leaves, Openvpn, "config_dir", 256, g.configDir),
      TextOf(leaves, Openvpn, "management_socket", 256, g.managementSocket),
      TextOf(leaves, Pki, "ca_key", 256, g.caKey),
      NumberOf(leaves, NoSection, "listen_port", g.listenPort),
      TextOf(leaves, NoSection, "listen_host", 64, g.listenHost))
  }

  lemma LastOfOneMore(leaves: seq<Leaf>, leaf: Leaf, section: Section, key: string)
    ensures LastValue(leaves + [leaf], section, key)
      == if leaf.section == section && leaf.key == key then Some(leaf.value) else LastValue(leaves, section, key)
  {
    assert (leaves + [leaf])[..|leaves|] == leaves;
  }

  lemma OneMoreText(leaves: seq<Leaf>, leaf: Leaf, section: Section, key: string, capacity: nat, default: string)
    requires capacity > 0
    ensures TextOf(leaves + [leaf], section, key, capacity, default)
      == Taken(TextOf(leaves, section, key, capacity, default),
               leaf.section == section && leaf.key == key, leaf.value, capacity)
  {
    LastOfOneMore(leaves, leaf, section, key);
  }

  lemma OneMoreValue(g: Config, leaves: seq<Leaf>, leaf: Leaf)
    ensures Meaning(g, leaves + [leaf]) == Assign(Meaning(g, leaves), leaf.section, leaf.key, leaf.value)
  {
    OneMoreText(leaves, leaf, Database, "host", 256, g.dbHost);
    LastOfOneMore(leaves, leaf, Database, "port");
    OneMoreText(leaves, leaf, Database, "name", 256, g.dbName);
    OneMoreText(leaves, leaf, Database, "user", 256, g.dbUser);
    OneMoreText(leaves, leaf, Database, "password", 256, g.dbPassword);
    OneMoreText(leaves, leaf, NoSection, "master_key_file", 256, g.masterKeyFile);
    OneMoreText(leaves, leaf, NoSection, "encryption_key", 64, g.encryptionKey);
    LastOfOneMore(leaves, leaf, Log, "level");
    OneMoreText(leaves, leaf, Log, "file", 256, g.logFile);
    OneMoreText(leaves, leaf, Openvpn, "binary", 256, g.binary);
    OneMoreText(leaves, leaf, Openvpn, "config_dir", 256, g.configDir);
    OneMoreText(leaves, leaf, Openvpn, "management_socket", 256, g.managementSocket);
    OneMoreText(leaves, leaf, Pki, "ca_key", 256, g.caKey);
    LastOfOneMore(leaves, leaf, NoSection, "listen_port");
    OneMoreText(leaves, leaf, NoSection, "listen_host", 64, g.listenHost);
  }

  lemma {:induction false} LastValuesAreStored(g: Config, leaves: seq<Leaf>)
    ensures Stored(g, leaves) == Meaning(g, leaves)
    decreases |leaves|
  {
    if leaves != [] {
      var n := |leaves| - 1;
      var front, last := leaves[..n], leaves[n];
      assert leaves == front + [last];
      LastValuesAreStored(g, front);
      StoredConcat(g, front, [last]);
      assert [last][1..] == [];
      assert Stored(Stored(g, front), [last]) == Assign(Stored(g, front), last.section, last.key, last.value);
      OneMoreValue(g, front, last);
    }
  }

  // --- the settings in plain terms ---

  /** A text setting: the value, of which at most so many characters are held, or the default. */
  ghost predicate Holds(field: string, value: Option<string>, most: nat, default: string) {
    match value
    case None => field == default
    case Some(v) => (|v| <= most ==> field == v) && (|v| > most ==> field == v[..most])
  }

  ghost predicate HoldsNumber(field: int, value: Option<string>, default: int) {
    match value
    case None => field == default
    case Some(v) => field == Atoi(v)
  }

  /** The four levels in their order, and "info" for any other text. */
  ghost predicate HoldsLevel(field: int, value: Option<string>) {
    && (value == Some("debug") ==> field == 0)
    && (value == Some("info") ==> field == 1)
    && (value == Some("warn") ==> field == 2)
    && (value == Some("error") ==> field == 3)
    && (value !in [Some("debug"), Some("info"), Some("warn"), Some("error")] ==> field == 1)
  }

  ghost predicate DatabaseHolds(g: Config, leaves: seq<Leaf>) {
    && Holds(g.dbHost, LastValue(leaves, Database, "host"), 255, "")
    && HoldsNumber(g.dbPort, LastValue(leaves, Database, "port"), 5432)
    && Holds(g.dbName, LastValue(leaves, Database, "name"), 255, "")
    && Holds(g.dbUser, LastValue(leaves, Database, "user"), 255, "")
    && Holds(g.dbPassword, LastValue(leaves, Database, "password"), 255, "")
  }

  ghost predicate TopHolds(g: Config, leaves: seq<Leaf>) {
    && Holds(g.masterKeyFile, LastValue(leaves, NoSection, "master_key_file"), 255, "")
    && Holds(g.encryptionKey, LastValue(leaves, NoSection, "encryption_key"), 63, "")
    && HoldsNumber(g.listenPort, LastValue(leaves, NoSection, "listen_port"), 0)
    && Holds(g.listenHost, LastValue(leaves, NoSection, "listen_host"), 63, "0.0.0.0")
  }

  ghost predicate OthersHold(g: Config, leaves: seq<Leaf>) {
    && Holds(g.logLevel, LastValue(leaves, Log, "level"), 15, "info")
    && HoldsLevel(g.logLevelValue, LastValue(leaves, Log, "level"))
    && Holds(g.logFile, LastValue(leaves, Log, "file"), 255, "/var/log/vpn-manager/core.log")
    && Holds(g.binary, LastValue(leaves, Openvpn, "binary"), 255, "")
    && Holds(g.configDir, LastValue(leaves, Openvpn, "config_dir"), 255, "")
    && Holds(g.managementSocket, LastValue(leaves, Openvpn, "management_socket"), 255, "")
    && Holds(g.caKey, LastValue(leaves, Pki, "ca_key"), 255, "")
  }

  /** Every setting has its last value, as far as its buffer holds it, or its default. */
  ghost predicate SettingsHold(g: Config, leaves: seq<Leaf>) {
    DatabaseHolds(g, leaves) && TopHolds(g, leaves) && OthersHold(g, leaves)
  }

  lemma TextHolds(leaves: seq<Leaf>, section: Section, key: string, capacity: nat, most: nat, default: string)
    requires capacity == most + 1
    ensures Holds(TextOf(leaves, section, key, capacity, default), LastValue(leaves, section, key), most, default)
  {
  }

  lemma MeaningHolds(leaves: seq<Leaf>)
    ensures SettingsHold(Meaning(DEFAULTS, leaves), leaves)
  {
    TextHolds(leaves, Database, "host", 256, 255, "");
    TextHolds(leaves, Database, "name", 256, 255, "");
    TextHolds(leaves, Database, "user", 256, 255, "");
    TextHolds(leaves, Database, "password", 256, 255, "");
    TextHolds(leaves, NoSection, "master_key_file", 256, 255, "");
    TextHolds(leaves, NoSection, "encryption_key", 64, 63, "");
    TextHolds(leaves, NoSection, "listen_host", 64, 63, "0.0.0.0");
    TextHolds(leaves, Log, "level", 16, 15, "info");
    TextHolds(leaves, Log, "file", 256, 255, "/var/log/vpn-manager/core.log");
    TextHolds(leaves, Openvpn, "binary", 256, 255, "");
    TextHolds(leaves, Openvpn, "config_dir", 256, 255, "");
    TextHolds(leaves, Openvpn, "management_socket", 256, 255, "");
    TextHolds(leaves, Pki, "ca_key", 256, 255, "");
  }

  // --- settings ---

  /** The settings: the names that mean something, each in its section. */
  predicate IsSetting(section: Section, key: string) {
    match section
    case Database => key == "host" || key == "port" || key == "name" || key == "user" || key == "password"
    case Log => key == "level" || key == "file"
    case Openvpn => key == "binary" || key == "config_dir" || key == "management_socket"
    case Pki => key == "ca_key"
    case NoSection =>
      key == "master_key_file" || key == "encryption_key" || key == "listen_port" || key == "listen_host"
  }

  ghost predicate NoSettings(leaves: seq<Leaf>) {
    forall i | 0 <= i < |leaves| :: !IsSetting(leaves[i].section, leaves[i].key)
  }

  /** A setting that has a value has it whatever it was before: two configurations that
      differ in every setting cannot both be left as they are. */
  const BLANK: Config := Config("", 0, "", "", "", "", "", "", "", 0, "", "", "", "", 0, "")
  const FULL: Config := Config("x", 1, "x", "x", "x", "x", "x", "x", "x", 1, "x", "x", "x", "x", 1, "x")

  ghost predicate KeepsBoth(leaves: seq<Leaf>) {
    Meaning(BLANK, leaves) == BLANK && Meaning(FULL, leaves) == FULL
  }

  lemma TextShowsWhetherItIsSet(leaves: seq<Leaf>, section: Section, key: string, capacity: nat)
    requires capacity > 0
    requires TextOf(leaves, section, key, capacity, "") == ""
    requires TextOf(leaves, section, key, capacity, "x") == "x"
    ensures LastValue(leaves, section, key).None?
  {
  }

  lemma NumberShowsWhetherItIsSet(leaves: seq<Leaf>, section: Section, key: string)
    requires NumberOf(leaves, section, key, 0) == 0 && NumberOf(leaves, section, key, 1) == 1
    ensures LastValue(leaves, section, key).None?
  {
  }

  lemma KeptSettingsAreUnset(leaves: seq<Leaf>, section: Section, key: string)
    requires KeepsBoth(leaves) && IsSetting(section, key)
    ensures LastValue(leaves, section, key).None?
  {
    match section
    case Database =>
      TextShowsWhetherItIsSet(leaves, Database, "host", 256);
      NumberShowsWhetherItIsSet(leaves, Database, "port");
      TextShowsWhetherItIsSet(leaves, Database, "name", 256);
      TextShowsWhetherItIsSet(leaves, Database, "user", 256);
      TextShowsWhetherItIsSet(leaves, Database, "password", 256);
    case Log =>
      TextShowsWhetherItIsSet(leaves, Log, "level", 16);
      TextShowsWhetherItIsSet(leaves, Log, "file", 256);
    case Openvpn =>
      TextShowsWhetherItIsSet(leaves, Openvpn, "binary", 256);
      TextShowsWhetherItIsSet(leaves, Openvpn, "config_dir", 256);
      TextShowsWhetherItIsSet(leaves, Openvpn, "management_socket", 256);
    case Pki =>
      TextShowsWhetherItIsSet(leaves, Pki, "ca_key", 256);
    case NoSection =>
      TextShowsWhetherItIsSet(leaves, NoSection, "master_key_file", 256);
      TextShowsWhetherItIsSet(leaves, NoSection, "encryption_key", 64);
      NumberShowsWhetherItIsSet(leaves, NoSection, "listen_port");
      TextShowsWhetherItIsSet(leaves, NoSection, "listen_host", 64);
  }

  lemma OtherNamesAreNotStored(g: Config, section: Section, key: string, v: string)
    requires !IsSetting(section, key)
    ensures Assign(g, section, key, v) == g
  {
  }

  lemma {:induction false} NoSettingsStored(g: Config, leaves: seq<Leaf>)
    requires NoSettings(leaves)
    ensures Stored(g, leaves) == g
    decreases leaves
  {
    if leaves != [] {
      var first := leaves[0];
      OtherNamesAreNotStored(g, first.section, first.key, first.value);
      NoSettingsStored(g, leaves[1..]);
    }
  }

  ghost predicate ChangesNothing(leaves: seq<Leaf>) {
    forall g :: Stored(g, leaves) == g
  }

  /** A part of a document changes nothing, whatever the configuration was, exactly when no
      value in it stands under the name of a setting in its section. */
  lemma ChangesNothingIff(leaves: seq<Leaf>)
    ensures ChangesNothing(leaves) <==> NoSettings(leaves)
  {
    if NoSettings(leaves) {
      forall g
        ensures Stored(g, leaves) == g
      {
        NoSettingsStored(g, leaves);
      }
    } else {
      var i :| 0 <= i < |leaves| && IsSetting(leaves[i].section, leaves[i].key);
      SettingChanges(leaves, i);
    }
  }

  lemma SettingChanges(leaves: seq<Leaf>, i: nat)
    requires i < |leaves| && IsSetting(leaves[i].section, leaves[i].key)
    ensures Stored(BLANK, leaves) != BLANK || Stored(FULL, leaves) != FULL
  {
    var section, key := leaves[i].section, leaves[i].key;
    LastValueIsLast(leaves, section, key);
    assert Stands(leaves[i], section, key);
    LastValuesAreStored(BLANK, leaves);
    LastValuesAreStored(FULL, leaves);
    if KeepsBoth(leaves) {
      KeptSettingsAreUnset(leaves, section, key);
    }
  }

  // --- sequences that count ---

  /** The indented block sequences in a node. */
  function Indented(n: Node): nat {
    match n
    case Scalar(_) => 0
    case Absent => 0
    case Mapping(_, es) => IndentedEntries(es)
    case Sequence(indented, items) => IndentedItems(items) + if indented then 1 else 0
  }

  function IndentedEntries(es: Entries): nat {
    match es
    case NoEntries => 0
    case Entry(_, v, rest) => Indented(v) + IndentedEntries(rest)
  }

  function IndentedItems(items: Items): nat {
    match items
    case NoItems => 0
    case Item(n, others) => Indented(n) + IndentedItems(others)
  }

  /** Outside of the sections, no mapping that opens one has an indented sequence in it; so no
      section ends before its mapping. */
  predicate Calm(n: Node, name: string) {
    match n
    case Scalar(_) => true
    case Absent => true
    case Mapping(_, es) => if SectionOf(name).NoSection? then CalmEntries(es) else IndentedEntries(es) == 0
    case Sequence(_, items) => CalmItems(items, name)
  }

  predicate CalmEntries(es: Entries) {
    es.Entry? ==> Calm(es.value, es.key) && CalmEntries(es.rest)
  }

  predicate CalmItems(items: Items, name: string) {
    items.Item? ==> Calm(items.node, name) && CalmItems(items.others, NameAfter(items.node, NoSection, name))
  }

  // --- unknown sections ---

  predicate Recognised(name: string) {
    !SectionOf(name).NoSection? || IsSetting(NoSection, name)
  }

  /** No key below the node is a name with a meaning at the top. */
  predicate Foreign(n: Node) {
    match n
    case Scalar(_) => true
    case Absent => true
    case Mapping(_, es) => ForeignEntries(es)
    case Sequence(_, items) => ForeignItems(items)
  }

  predicate ForeignEntries(es: Entries) {
    es.Entry? ==> !Recognised(es.key) && Foreign(es.value) && ForeignEntries(es.rest)
  }

  predicate ForeignItems(items: Items) {
    items.Item? ==> Foreign(items.node) && ForeignItems(items.others)
  }

  /** All keys below a node. */
  ghost function KeysIn(n: Node): set<string> {
    match n
    case Scalar(_) => {}
    case Absent => {}
    case Mapping(_, es) => KeysOfEntries(es)
    case Sequence(_, items) => KeysOfItems(items)
  }

  ghost function KeysOfEntries(es: Entries): set<string> {
    match es
    case NoEntries => {}
    case Entry(k, v, rest) => {k} + KeysIn(v) + KeysOfEntries(rest)
  }

  ghost function KeysOfItems(items: Items): set<string> {
    match items
    case NoItems => {}
    case Item(n, others) => KeysIn(n) + KeysOfItems(others)
  }

  lemma {:induction false} ForeignIff(n: Node)
    ensures Foreign(n) <==> forall k | k in KeysIn(n) :: !Recognised(k)
    decreases n, 1
  {
    match n
    case Scalar(_) =>
    case Absent =>
    case Mapping(_, es) => ForeignEntriesIff(es);
    case Sequence(_, items) => ForeignItemsIff(items);
  }

  lemma {:induction false} ForeignEntriesIff(es: Entries)
    ensures ForeignEntries(es) <==> forall k | k in KeysOfEntries(es) :: !Recognised(k)
    decreases es, 0
  {
    match es
    case NoEntries =>
    case Entry(_, v, rest) =>
      ForeignIff(v);
      ForeignEntriesIff(rest);
  }

  lemma {:induction false} ForeignItemsIff(items: Items)
    ensures ForeignItems(items) <==> forall k | k in KeysOfItems(items) :: !Recognised(k)
    decreases items, 0
  {
    match items
    case NoItems =>
    case Item(n, others) =>
      ForeignIff(n);
      ForeignItemsIff(others);
  }

  /** Unknown entries that reuse no recognised name hold no setting, and may hold indented
      sequences. */
  lemma {:induction false} ForeignHasNoSettings(n: Node, name: string)
    requires Foreign(n) && !Recognised(name)
    ensures NoSettings(Leaves(n, NoSection, name)) && Calm(n, name)
    ensures !Recognised(NameAfter(n, NoSection, name))
    decreases n, 1
  {
    match n
    case Scalar(v) =>
    case Absent =>
    case Mapping(_, es) => ForeignEntriesHaveNoSettings(es, name);
    case Sequence(_, items) => ForeignItemsHaveNoSettings(items, name);
  }

  lemma {:induction false} ForeignEntriesHaveNoSettings(es: Entries, name: string)
    requires ForeignEntries(es) && !Recognised(name)
    ensures NoSettings(EntryLeaves(es, NoSection)) && CalmEntries(es)
    ensures !Recognised(NameAfterEntries(es, NoSection, name))
    decreases es, 0
  {
    match es
    case NoEntries =>
    case Entry(k, v, rest) =>
      ForeignHasNoSettings(v, k);
      ForeignEntriesHaveNoSettings(rest, NameAfter(v, NoSection, k));
  }

  lemma {:induction false} ForeignItemsHaveNoSettings(items: Items, name: string)
    requires ForeignItems(items) && !Recognised(name)
    ensures NoSettings(ItemLeaves(items, NoSection, name)) && CalmItems(items, name)
    ensures !Recognised(NameAfterItems(items, NoSection, name))
    decreases items, 0
  {
    match items
    case NoItems =>
    case Item(n, others) =>
      ForeignHasNoSettings(n, name);
      ForeignItemsHaveNoSettings(others, NameAfter(n, NoSection, name));
  }

  /** The entries with a recognised key. */
  function Known(es: Entries): Entries {
    match es
    case NoEntries => NoEntries
    case Entry(k, v, rest) => if Recognised(k) then Entry(k, v, Known(rest)) else Known(rest)
  }

  ghost predicate UnknownHoldNoSettings(es: Entries) {
    es.Entry? ==> (Recognised(es.key) || NoSettings(Leaves(es.value, NoSection, es.key))) && UnknownHoldNoSettings(es.rest)
  }

  /** Unknown top-level entries that hold no setting can be struck out. */
  lemma {:induction false} UnknownSectionsAreIgnored(g: Config, es: Entries)
    requires UnknownHoldNoSettings(es)
    ensures Meaning(g, EntryLeaves(es, NoSection)) == Meaning(g, EntryLeaves(Known(es), NoSection))
    decreases es
  {
    LastValuesAreStored(g, EntryLeaves(es, NoSection));
    LastValuesAreStored(g, EntryLeaves(Known(es), NoSection));
    StruckOut(g, es);
  }

  lemma {:induction false} StruckOut(g: Config, es: Entries)
    requires UnknownHoldNoSettings(es)
    ensures Stored(g, EntryLeaves(es, NoSection)) == Stored(g, EntryLeaves(Known(es), NoSection))
    decreases es
  {
    match es
    case NoEntries =>
    case Entry(k, v, rest) =>
      var first := Leaves(v, NoSection, k);
      StoredConcat(g, first, EntryLeaves(rest, NoSection));
      StruckOut(Stored(g, first), rest);
      if Recognised(k) {
        StoredConcat(g, first, EntryLeaves(Known(rest), NoSection));
      } else {
        NoSettingsStored(g, first);
      }
  }

  /** Without the restriction they cannot: a recognised name is taken wherever it stands
      under an unknown section. */
  lemma ReusedNamesAreTaken(v: string)
    ensures var es := Entry("web", Mapping(false, Entry("listen_host", Scalar(v), NoEntries)), NoEntries);
      && Known(es) == NoEntries
      && Meaning(DEFAULTS, EntryLeaves(es, NoSection)).listenHost == Truncated(v, 64)
  {
    var inner := Entry("listen_host", Scalar(v), NoEntries);
    var es := Entry("web", Mapping(false, inner), NoEntries);
    assert EntryLeaves(inner, NoSection) == [Leaf(NoSection, "listen_host", v)];
    assert EntryLeaves(es, NoSection) == [Leaf(NoSection, "listen_host", v)];
  }
}
