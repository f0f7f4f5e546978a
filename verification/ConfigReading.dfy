/** How the token machine of the configuration reader reads a document, whatever its tree
    (master/config.c:69-188). */
module ConfigReading {
  import opened Options
  import opened CText
  import opened ConfigTokens
  import opened ConfigTree

  // --- folding over pieces ---

  lemma {:induction false} FoldConcat(r: Reader, xs: seq<Token>, ys: seq<Token>)
    ensures Fold(r, xs + ys) == Fold(Fold(r, xs), ys)
    decreases xs
  {
    if xs == [] {
      assert xs + ys == ys;
    } else {
      assert (xs + ys)[0] == xs[0] && (xs + ys)[1..] == xs[1..] + ys;
      FoldConcat(Step(r, xs[0]), xs[1..], ys);
    }
  }

  lemma FoldOne(r: Reader, t: Token)
    ensures Fold(r, [t]) == Step(r, t)
  {
    assert [t][1..] == [];
  }

  lemma FoldBracketed(r: Reader, open: Token, ts: seq<Token>, close: Token)
    ensures Fold(r, [open] + ts + [close]) == Step(Fold(Step(r, open), ts), close)
  {
    var s := Step(r, open);
    assert ([open] + ts + [close])[1..] == ts + [close];
    FoldConcat(s, ts, [close]);
    FoldOne(Fold(s, ts), close);
  }

  lemma HeadSteps(r: Reader, k: string) returns (s: Reader)
    ensures s == Fold(r, [KeyToken, ScalarToken(k), ValueToken])
    ensures s == Step(Step(Step(r, KeyToken), ScalarToken(k)), ValueToken)
  {
    var head := [KeyToken, ScalarToken(k), ValueToken];
    var a := Step(r, KeyToken);
    var b := Step(a, ScalarToken(k));
    s := Step(b, ValueToken);
    assert head[1..] == [ScalarToken(k), ValueToken] && head[1..][1..] == [ValueToken] && head[1..][1..][1..] == [];
    assert Fold(b, [ValueToken]) == Fold(s, []);
    assert Fold(a, head[1..]) == Fold(b, [ValueToken]);
  }

  // --- the place in the document ---

  /** Starts of mappings less end tokens. */
  function Net(ts: seq<Token>): int {
    if ts == [] then 0
    else Net(ts[1..]) + match ts[0]
      case BlockMappingStart => 1
      case FlowMappingStart => 1
      case BlockEnd => -1
      case FlowMappingEnd => -1
      case _ => 0
  }

  /** On any tokens, those of no document included, the depth counts starts and ends. */
  lemma {:induction false} DepthIsNet(r: Reader, ts: seq<Token>)
    ensures Fold(r, ts).depth == r.depth + Net(ts)
    decreases ts
  {
    if ts != [] {
      DepthIsNet(Step(r, ts[0]), ts[1..]);
    }
  }

  /** Where the reader is after `drop` indented sequences: that many levels up, outside of any
      section if it was outside, and still in its section exactly if that was opened at least
      as many levels above. */
  ghost predicate Dropped(r: Reader, t: Reader, drop: nat) {
    && t.depth == r.depth - drop
    && (r.section.NoSection? ==> t.section.NoSection?)
    && (!r.section.NoSection? && drop <= r.depth - r.target ==> t.section == r.section && t.target == r.target)
    && (!r.section.NoSection? && drop > r.depth - r.target ==> t.section.NoSection?)
  }

  ghost predicate Placed(r: Reader) {
    !r.section.NoSection? ==> r.target <= r.depth
  }

  lemma DroppedTwice(r: Reader, s: Reader, t: Reader, a: nat, b: nat)
    requires Placed(r) && Dropped(r, s, a) && Dropped(s, t, b)
    ensures Placed(s) && Dropped(r, t, a + b)
  {
  }

  /** From any state at all, every node moves the depth by the number of its indented
      sequences, and nothing else about it moves the place. */
  lemma {:induction false} PlaceAfter(r: Reader, n: Node)
    requires Placed(r)
    ensures Dropped(r, Fold(r, Tokens(n)), Indented(n))
    decreases n, 1
  {
    match n
    case Scalar(v) =>
      assert [ScalarToken(v)][1..] == [];
      assert Fold(r, [ScalarToken(v)]) == Step(r, ScalarToken(v));
    case Absent =>
    case Mapping(flow, es) =>
      PlaceAfterEntries(Opened(r), es);
      PlaceAfterMapping(r, flow, es);
    case Sequence(indented, items) =>
      PlaceAfterItems(r, items);
      if indented {
        FoldConcat(r, ItemTokens(items), [BlockEnd]);
        FoldOne(Fold(r, ItemTokens(items)), BlockEnd);
      } else {
        assert Tokens(n) == ItemTokens(items);
      }
  }

  lemma PlaceAfterMapping(r: Reader, flow: bool, es: Entries)
    requires Placed(r) && Dropped(Opened(r), Fold(Opened(r), EntryTokens(es)), IndentedEntries(es))
    ensures Dropped(r, Fold(r, Tokens(Mapping(flow, es))), IndentedEntries(es))
  {
    var open, close := if flow then FlowMappingStart else BlockMappingStart, if flow then FlowMappingEnd else BlockEnd;
    FoldBracketed(r, open, EntryTokens(es), close);
    assert Step(r, open) == Opened(r);
    var t := Fold(Opened(r), EntryTokens(es));
    assert Step(t, close) == Closed(t);
  }

  lemma HeadKeepsPlace(r: Reader, k: string)
    ensures var s := Fold(r, [KeyToken, ScalarToken(k), ValueToken]);
      s.depth == r.depth && s.section == r.section && s.target == r.target
  {
    var s := HeadSteps(r, k);
  }

  lemma {:induction false} PlaceAfterEntries(r: Reader, es: Entries)
    requires Placed(r)
    ensures Dropped(r, Fold(r, EntryTokens(es)), IndentedEntries(es))
    decreases es, 0
  {
    match es
    case NoEntries =>
    case Entry(k, v, rest) =>
      var head := [KeyToken, ScalarToken(k), ValueToken];
      var s := Fold(r, head);
      HeadKeepsPlace(r, k);
      PlaceAfter(s, v);
      var t := Fold(s, Tokens(v));
      DroppedTwice(r, s, t, 0, Indented(v));
      PlaceAfterEntries(t, rest);
      FoldConcat(s, Tokens(v), EntryTokens(rest));
      FoldConcat(r, head, Tokens(v) + EntryTokens(rest));
      assert EntryTokens(es) == head + (Tokens(v) + EntryTokens(rest));
      DroppedTwice(r, t, Fold(t, EntryTokens(rest)), Indented(v), IndentedEntries(rest));
  }

  lemma {:induction false} PlaceAfterItems(r: Reader, items: Items)
    requires Placed(r)
    ensures Dropped(r, Fold(r, ItemTokens(items)), IndentedItems(items))
    decreases items, 0
  {
    match items
    case NoItems =>
    case Item(n, others) =>
      PlaceAfter(r, n);
      var s := Fold(r, Tokens(n));
      DroppedTwice(r, r, s, 0, Indented(n));
      PlaceAfterItems(s, others);
      FoldConcat(r, Tokens(n), ItemTokens(others));
      DroppedTwice(r, s, Fold(s, ItemTokens(others)), Indented(n), IndentedItems(others));
  }

  /** Depth and section are what they were before a node exactly when: the depth, if the node
      has no indented sequence; the section, if there was none, or it was opened so many levels
      above as the node has indented sequences, or more. */
  lemma PlaceComesBackIff(r: Reader, n: Node)
    requires Placed(r)
    ensures var t := Fold(r, Tokens(n));
      && (t.depth == r.depth <==> Indented(n) == 0)
      && (t.section == r.section <==> r.section.NoSection? || Indented(n) <= r.depth - r.target)
  {
    PlaceAfter(r, n);
  }

  /** A mapping that opens a section holds it open up to its own end exactly when it has no
      indented sequence in it; and once it is read, the reader is outside in any case. */
  lemma SectionIsHeldIff(r: Reader, flow: bool, es: Entries)
    requires r.section.NoSection? && !SectionOf(r.name).NoSection?
    ensures Fold(Opened(r), EntryTokens(es)).section == SectionOf(r.name) <==> IndentedEntries(es) == 0
    ensures Fold(r, Tokens(Mapping(flow, es))).section.NoSection?
  {
    PlaceAfterEntries(Opened(r), es);
    PlaceAfter(r, Mapping(flow, es));
  }

  // --- what every tree means ---

  /** A place in a tree: the open section, the levels below the mapping that opened it, the last
      key inside a section and the last name outside. */
  datatype Spot = Spot(section: Section, levels: nat, key: string, name: string)

  const START: Spot := Spot(NoSection, 0, "", "")

  /** The name a value stands under. */
  function NameAt(p: Spot): string {
    if p.section.NoSection? then p.name else p.key
  }

  function Keyed(p: Spot, k: string): Spot {
    if p.section.NoSection? then p.(name := k) else p.(key := k)
  }

  /** Into a mapping, which opens a section if its name is that of one. */
  function Enter(p: Spot): Spot {
    if p.section.NoSection? then p.(section := SectionOf(p.name), levels := 0) else p.(levels := p.levels + 1)
  }

  /** Out of a mapping, or past an indented sequence: a section with no level left is ended. */
  function Leave(p: Spot): Spot {
    if p.section.NoSection? then p
    else if p.levels == 0 then p.(section := NoSection) else p.(levels := p.levels - 1)
  }

  /** The scalar values of a node, each with the section it is read in and the name it is read
      under, as far as sections have not been ended before. */
  function LeavesAt(n: Node, p: Spot): seq<Leaf> {
    match n
    case Scalar(v) => [Leaf(p.section, NameAt(p), v)]
    case Absent => []
    case Mapping(_, es) => EntryLeavesAt(es, Enter(p))
    case Sequence(_, items) => ItemLeavesAt(items, p)
  }

  function EntryLeavesAt(es: Entries, p: Spot): seq<Leaf> {
    match es
    case NoEntries => []
    case Entry(k, v, rest) => LeavesAt(v, Keyed(p, k)) + EntryLeavesAt(rest, After(v, Keyed(p, k)))
  }

  function ItemLeavesAt(items: Items, p: Spot): seq<Leaf> {
    match items
    case NoItems => []
    case Item(n, others) => LeavesAt(n, p) + ItemLeavesAt(others, After(n, p))
  }

  /** The place after a node. */
  function After(n: Node, p: Spot): Spot {
    match n
    case Scalar(_) => p
    case Absent => p
    case Mapping(_, es) => Leave(AfterEntries(es, Enter(p)))
    case Sequence(indented, items) => if indented then Leave(AfterItems(items, p)) else AfterItems(items, p)
  }

  function AfterEntries(es: Entries, p: Spot): Spot {
    match es
    case NoEntries => p
    case Entry(k, v, rest) => AfterEntries(rest, After(v, Keyed(p, k)))
  }

  function AfterItems(items: Items, p: Spot): Spot {
    match items
    case NoItems => p
    case Item(n, others) => AfterItems(others, After(n, p))
  }

  // --- the machine follows the tree ---

  /** The machine is at the spot, and a value or a key may come. */
  ghost predicate At(r: Reader, p: Spot) {
    && !r.expectKey
    && r.section == p.section
    && r.key == Truncated(p.key, 256) && r.name == Truncated(p.name, 64)
    && (!p.section.NoSection? ==> r.depth - r.target == p.levels)
  }

  lemma CutNamesMeanTheSame(g: Config, section: Section, name: string, v: string)
    ensures Assign(g, section, Truncated(name, if section.NoSection? then 64 else 256), v) == Assign(g, section, name, v)
    ensures SectionOf(Truncated(name, 64)) == SectionOf(name)
  {
  }

  /** From one spot to another, what lay between has been stored. */
  ghost predicate Reads(r: Reader, t: Reader, leaves: seq<Leaf>, p: Spot) {
    At(t, p) && t.config == Stored(r.config, leaves)
  }

  lemma ReadsTwice(r: Reader, s: Reader, t: Reader, xs: seq<Leaf>, ys: seq<Leaf>, p: Spot, q: Spot)
    requires Reads(r, s, xs, p) && Reads(s, t, ys, q)
    ensures Reads(r, t, xs + ys, q)
  {
    StoredConcat(r.config, xs, ys);
  }

  /** The tokens of any node store its values in order, each under the section and name of its
      place, and leave the machine at the place after the node. */
  lemma {:induction false} NodeIsRead(r: Reader, n: Node, p: Spot)
    requires At(r, p)
    ensures Reads(r, Fold(r, Tokens(n)), LeavesAt(n, p), After(n, p))
    decreases n, 1
  {
    match n
    case Scalar(v) =>
      ScalarIsRead(r, v, p);
    case Absent =>
    case Mapping(flow, es) =>
      MappingEnters(r, p);
      EntriesAreRead(Opened(r), es, Enter(p));
      MappingIsRead(r, flow, es, p);
    case Sequence(indented, items) =>
      ItemsAreRead(r, items, p);
      var t := Fold(r, ItemTokens(items));
      if indented {
        FoldConcat(r, ItemTokens(items), [BlockEnd]);
        FoldOne(t, BlockEnd);
        EndLeaves(t, AfterItems(items, p));
      } else {
        assert ItemTokens(items) + [] == ItemTokens(items);
      }
  }

  lemma ScalarIsRead(r: Reader, v: string, p: Spot)
    requires At(r, p)
    ensures Reads(r, Fold(r, [ScalarToken(v)]), [Leaf(p.section, NameAt(p), v)], p)
  {
    CutNamesMeanTheSame(r.config, p.section, NameAt(p), v);
    FoldOne(r, ScalarToken(v));
    assert [Leaf(p.section, NameAt(p), v)][1..] == [];
  }

  lemma MappingEnters(r: Reader, p: Spot)
    requires At(r, p)
    ensures At(Opened(r), Enter(p)) && Opened(r).config == r.config
  {
    CutNamesMeanTheSame(r.config, p.section, p.name, "");
  }

  lemma EndLeaves(r: Reader, p: Spot)
    requires At(r, p)
    ensures At(Closed(r), Leave(p)) && Closed(r).config == r.config
  {
  }

  lemma MappingIsRead(r: Reader, flow: bool, es: Entries, p: Spot)
    requires At(r, p) && Opened(r).config == r.config
    requires Reads(Opened(r), Fold(Opened(r), EntryTokens(es)), EntryLeavesAt(es, Enter(p)), AfterEntries(es, Enter(p)))
    ensures var n := Mapping(flow, es); Reads(r, Fold(r, Tokens(n)), LeavesAt(n, p), After(n, p))
  {
    var open, close := if flow then FlowMappingStart else BlockMappingStart, if flow then FlowMappingEnd else BlockEnd;
    FoldBracketed(r, open, EntryTokens(es), close);
    assert Step(r, open) == Opened(r);
    var t := Fold(Opened(r), EntryTokens(es));
    assert Step(t, close) == Closed(t);
    EndLeaves(t, AfterEntries(es, Enter(p)));
  }

  lemma KeyIsRead(r: Reader, k: string, p: Spot) returns (s: Reader)
    requires At(r, p)
    ensures s == Fold(r, [KeyToken, ScalarToken(k), ValueToken])
    ensures At(s, Keyed(p, k)) && s.config == r.config
  {
    s := HeadSteps(r, k);
  }

  lemma {:induction false} EntriesAreRead(r: Reader, es: Entries, p: Spot)
    requires At(r, p)
    ensures Reads(r, Fold(r, EntryTokens(es)), EntryLeavesAt(es, p), AfterEntries(es, p))
    decreases es, 0
  {
    match es
    case NoEntries =>
    case Entry(k, v, rest) =>
      var head, q := [KeyToken, ScalarToken(k), ValueToken], Keyed(p, k);
      var s := KeyIsRead(r, k, p);
      NodeIsRead(s, v, q);
      var t := Fold(s, Tokens(v));
      EntriesAreRead(t, rest, After(v, q));
      FoldConcat(s, Tokens(v), EntryTokens(rest));
      FoldConcat(r, head, Tokens(v) + EntryTokens(rest));
      assert EntryTokens(es) == head + (Tokens(v) + EntryTokens(rest));
      ReadsTwice(s, t, Fold(t, EntryTokens(rest)), LeavesAt(v, q), EntryLeavesAt(rest, After(v, q)),
                 After(v, q), AfterEntries(rest, After(v, q)));
  }

  lemma {:induction false} ItemsAreRead(r: Reader, items: Items, p: Spot)
    requires At(r, p)
    ensures Reads(r, Fold(r, ItemTokens(items)), ItemLeavesAt(items, p), AfterItems(items, p))
    decreases items, 0
  {
    match items
    case NoItems =>
    case Item(n, others) =>
      NodeIsRead(r, n, p);
      var s, q := Fold(r, Tokens(n)), After(n, p);
      ItemsAreRead(s, others, q);
      FoldConcat(r, Tokens(n), ItemTokens(others));
      ReadsTwice(r, s, Fold(s, ItemTokens(others)), LeavesAt(n, p), ItemLeavesAt(others, q), q, AfterItems(others, q));
  }

  // --- trees whose sections are not ended early ---

  /** The open section is not ended within the node, nor is one that the node opens. */
  predicate Held(n: Node, p: Spot) {
    if p.section.NoSection? then Calm(n, p.name) else Indented(n) <= p.levels
  }

  /** The place has only moved up by some levels of the section, if one is open. */
  ghost predicate Moved(p: Spot, q: Spot, drop: nat, name: string) {
    && q.section == p.section && NameAt(q) == name
    && (!p.section.NoSection? ==> q.name == p.name && p.levels == q.levels + drop)
  }

  /** Then its values are those of the simple meaning. */
  lemma {:induction false} HeldLeaves(n: Node, p: Spot)
    requires Held(n, p)
    ensures LeavesAt(n, p) == Leaves(n, p.section, NameAt(p))
    ensures Moved(p, After(n, p), Indented(n), NameAfter(n, p.section, NameAt(p)))
    decreases n, 1
  {
    match n
    case Scalar(_) =>
    case Absent =>
    case Mapping(_, es) => HeldEntryLeaves(es, Enter(p));
    case Sequence(_, items) => HeldItemLeaves(items, p);
  }

  lemma {:induction false} HeldEntryLeaves(es: Entries, p: Spot)
    requires if p.section.NoSection? then CalmEntries(es) else IndentedEntries(es) <= p.levels
    ensures EntryLeavesAt(es, p) == EntryLeaves(es, p.section)
    ensures Moved(p, AfterEntries(es, p), IndentedEntries(es), NameAfterEntries(es, p.section, NameAt(p)))
    decreases es, 0
  {
    match es
    case NoEntries =>
    case Entry(k, v, rest) =>
      HeldLeaves(v, Keyed(p, k));
      HeldEntryLeaves(rest, After(v, Keyed(p, k)));
  }

  lemma {:induction false} HeldItemLeaves(items: Items, p: Spot)
    requires if p.section.NoSection? then CalmItems(items, p.name) else IndentedItems(items) <= p.levels
    ensures ItemLeavesAt(items, p) == ItemLeaves(items, p.section, NameAt(p))
    ensures Moved(p, AfterItems(items, p), IndentedItems(items), NameAfterItems(items, p.section, NameAt(p)))
    decreases items, 0
  {
    match items
    case NoItems =>
    case Item(n, others) =>
      HeldLeaves(n, p);
      HeldItemLeaves(others, After(n, p));
  }

  /** A section is ended by a node with more indented sequences than it has levels left. */
  lemma SectionIsEnded(n: Node, p: Spot)
    ensures !p.section.NoSection? && Indented(n) > p.levels ==> After(n, p).section.NoSection?
    ensures p.section.NoSection? ==> After(n, p).section.NoSection?
  {
    var r := Reader(p.levels, p.section, 0, false, Truncated(p.key, 256), Truncated(p.name, 64), DEFAULTS);
    NodeIsRead(r, n, p);
    PlaceAfter(r, n);
  }

  /** A setting that follows such a node in its section is read outside, and lost unless its
      name means something there. */
  lemma SettingAfterSequenceIsLost(p: Spot, key: string, node: Node, setting: string, v: string, g: Config)
    requires !p.section.NoSection? && Indented(node) > p.levels && !IsSetting(NoSection, setting)
    ensures Stored(g, EntryLeavesAt(Entry(key, node, Entry(setting, Scalar(v), NoEntries)), p))
      == Stored(g, EntryLeavesAt(Entry(key, node, NoEntries), p))
  {
    var q, after := Keyed(p, key), Entry(setting, Scalar(v), NoEntries);
    SectionIsEnded(node, q);
    var s := After(node, q);
    assert EntryLeavesAt(NoEntries, After(Scalar(v), Keyed(s, setting))) == [];
    assert EntryLeavesAt(after, s) == [Leaf(NoSection, setting, v)];
    StoredConcat(g, LeavesAt(node, q), EntryLeavesAt(after, s));
    NoSettingsStored(Stored(g, LeavesAt(node, q)), EntryLeavesAt(after, s));
    assert EntryLeavesAt(NoEntries, s) == [];
    assert EntryLeavesAt(Entry(key, node, NoEntries), p) == LeavesAt(node, q);
  }

  // --- whole documents ---

  ghost predicate Goes(ts: seq<Token>) {
    forall k | 0 <= k < |ts| :: !ts[k].StreamEnd?
  }

  lemma {:induction false} TreesHaveNoEnd(n: Node)
    ensures Goes(Tokens(n))
    decreases n, 1
  {
    match n
    case Scalar(_) =>
    case Absent =>
    case Mapping(_, es) => EntriesHaveNoEnd(es);
    case Sequence(_, items) => ItemsHaveNoEnd(items);
  }

  lemma {:induction false} EntriesHaveNoEnd(es: Entries)
    ensures Goes(EntryTokens(es))
    decreases es, 0
  {
    match es
    case NoEntries =>
    case Entry(_, v, rest) =>
      TreesHaveNoEnd(v);
      EntriesHaveNoEnd(rest);
  }

  lemma {:induction false} ItemsHaveNoEnd(items: Items)
    ensures Goes(ItemTokens(items))
    decreases items, 0
  {
    match items
    case NoItems =>
    case Item(n, others) =>
      TreesHaveNoEnd(n);
      ItemsHaveNoEnd(others);
  }

  lemma {:induction false} ScannedToEnd(r: Reader, xs: seq<Token>, rest: seq<Token>)
    requires Goes(xs)
    ensures Scanned(r, xs + [StreamEnd] + rest) == Some(Fold(r, xs))
    decreases xs
  {
    var ts := xs + [StreamEnd] + rest;
    if xs != [] {
      assert !xs[0].StreamEnd? && ts[0] == xs[0];
      assert ts[1..] == xs[1..] + [StreamEnd] + rest;
      ScannedToEnd(Step(r, xs[0]), xs[1..], rest);
    }
  }

  lemma {:induction false} OtherTokensDoNotMatter(r: Reader, ts: seq<Token>)
    ensures Scanned(r, ts) == Scanned(r, Significant(ts))
    decreases ts
  {
    if ts != [] {
      if ts[0].StreamEnd? {
      } else if ts[0].OtherToken? {
        OtherTokensDoNotMatter(r, ts[1..]);
      } else {
        OtherTokensDoNotMatter(Step(r, ts[0]), ts[1..]);
        assert Significant(ts)[1..] == Significant(ts[1..]);
      }
    }
  }

  /** Reading any document stores the values of its tree over the defaults, and ends outside of
      all sections, and of all mappings if it has no indented sequence. */
  lemma DocumentIsRead(root: Node, ts: seq<Token>)
    requires Significant(ts) == Tokens(root) + [StreamEnd]
    ensures var read := Scanned(INITIAL, ts);
      && read.Some?
      && read.value.config == Meaning(DEFAULTS, LeavesAt(root, START))
      && read.value.depth == 0 - Indented(root)
      && read.value.section == NoSection
  {
    OtherTokensDoNotMatter(INITIAL, ts);
    TreesHaveNoEnd(root);
    ScannedToEnd(INITIAL, Tokens(root), []);
    assert Tokens(root) + [StreamEnd] + [] == Tokens(root) + [StreamEnd];
    NodeIsRead(INITIAL, root, START);
    PlaceAfter(INITIAL, root);
    LastValuesAreStored(DEFAULTS, LeavesAt(root, START));
  }

  /** If no section is ended early, these are the values of the simple meaning. */
  lemma CalmDocumentIsRead(root: Node, ts: seq<Token>)
    requires Significant(ts) == Tokens(root) + [StreamEnd] && Calm(root, "")
    ensures Scanned(INITIAL, ts).Some?
    ensures Scanned(INITIAL, ts).value.config == Meaning(DEFAULTS, Leaves(root, NoSection, ""))
  {
    DocumentIsRead(root, ts);
    HeldLeaves(root, START);
  }
}
