/** Adding, editing and deleting a configuration from the web side
    (web/routes/configs.py:45-165, 189-265). Every statement is committed on its own
    (web/db.py:41-64), so a configuration and its extension row are kept together only by
    compensating deletes. */
module ConfigPairing {
  import opened Options
  import opened Netmask
  import opened MaskText

  /** A field of the JSON body: absent, null, a string, or a value of another type. */
  datatype Json = Missing | Null | Str(text: string) | Other(isTrue: bool)

  predicate Truthy(v: Json) {
    match v
    case Missing => false
    case Null => false
    case Str(s) => s != ""
    case Other(b) => b
  }

  /** `x or None` */
  function OrNone(v: Json): Json {
    if Truthy(v) then v else Null
  }

  datatype Row = Row(name: Json, mode: string)

  datatype Extension = Extension(server: Json, mask: Json)

  /** The three tables; the extension tables have the configuration id as primary key. */
  datatype Db = Db(configs: map<int, Row>, tun: map<int, Extension>, tap: map<int, Extension>, nextId: int)

  const EMPTY_DB: Db := Db(map[], map[], map[], 0)

  /** The body of an add request, and what the statements answer: whether the name is taken,
      whether the two inserts succeed, and whether a compensating delete would. */
  datatype Add = Add(
    name: Json, mode: Json, remote: Json, server: Json, mask: Json, pushDns: Json, pushRoutes: Json,
    taken: bool, inserted: bool, extended: bool, undone: bool)

  datatype Edit = Edit(name: Json, mode: Json, server: Json, mask: Json, pushDns: Json, pushRoutes: Json,
    updated: bool, extended: bool)

  datatype Response = Created(id: int) | Done | Refused

  /** `x.split(',') if x else []` */
  predicate Splits(v: Json) {
    v.Str? || !Truthy(v)
  }

  /** The row of the configuration itself is inserted; the mode is checked by the schema
      (schema.sql:38). */
  predicate Inserts(r: Add) {
    && Truthy(r.name) && Truthy(r.mode) && Truthy(r.remote) && !r.taken
    && (r.mode == Str("tun") || r.mode == Str("tap")) && r.inserted
  }

  // --- what a request asks for ---

  /** The text is not taken for a mask. */
  predicate NoMask(text: string) {
    !IsDotted(text) && !IsCidr(text)
  }

  /** An add request, once its configuration row is in, is refused: an address or mask is
      missing, the mask is no mask, a list is no string, or the second insert fails. */
  predicate Refusable(r: Add) {
    if r.mode == Str("tun") then
      || !Truthy(r.server) || !Truthy(r.mask) || (r.mask.Str? && NoMask(r.mask.text))
      || !Splits(r.pushDns) || !Splits(r.pushRoutes) || !r.extended
    else !r.extended
  }

  /** The mask is true but not a string; the type error is caught by the outer handler only. */
  predicate Mistyped(r: Add) {
    r.mode == Str("tun") && Truthy(r.server) && r.mask == Other(true)
  }

  /** The requests that leave a configuration without its extension row: a mistyped mask, or a
      refusal whose compensating delete fails. */
  predicate Orphans(r: Add) {
    Inserts(r) && (Mistyped(r) || (Refusable(r) && !r.undone))
  }

  predicate Accepts(r: Add) {
    Inserts(r) && !Mistyped(r) && !Refusable(r)
  }

  function ServerText(server: Json): string {
    if server.Str? then server.text else ""
  }

  /** The way a request takes once its configuration row is in: its extension row follows, the
      compensating delete is tried, or an exception leaves the handler. */
  datatype Way = Extended | TakenBack | Escaped

  function WayOf(r: Add): Way {
    if r.mode == Str("tun") then
      if !Truthy(r.server) || !Truthy(r.mask) then TakenBack
      else if !r.mask.Str? then Escaped
      else if AddedMask(ServerText(r.server), r.mask.text).None? then TakenBack
      else if Splits(r.pushDns) && Splits(r.pushRoutes) && r.extended then Extended
      else TakenBack
    else if r.extended then Extended else TakenBack
  }

  function TunRow(r: Add): Extension
    requires r.mode == Str("tun") && WayOf(r).Extended?
  {
    Extension(r.server, Str(AddedMask(ServerText(r.server), r.mask.text).value))
  }

  function TapRow(server: Json, mask: Json): Extension {
    Extension(OrNone(server), OrNone(mask))
  }

  /** `DELETE FROM vpn_config`, with its cascades (schema.sql:68, 91). */
  function Removed(db: Db, id: int): Db {
    db.(configs := db.configs - {id}, tun := db.tun - {id}, tap := db.tap - {id})
  }

  /** An add request: the configuration goes in first, and what follows depends on the way. */
  function Added(db: Db, r: Add): (Response, Db) {
    if !Inserts(r) then (Refused, db)
    else
      var id := db.nextId;
      var with := db.(configs := db.configs[id := Row(r.name, r.mode.text)], nextId := id + 1);
      match WayOf(r)
      case Extended =>
        (Created(id),
         if r.mode == Str("tun") then with.(tun := db.tun[id := TunRow(r)])
         else with.(tap := db.tap[id := TapRow(r.server, r.mask)]))
      case TakenBack => (Refused, if r.undone then Removed(with, id) else with)
      case Escaped => (Refused, with)
  }

  /** An edit changes an extension row. */
  predicate Changes(r: Edit) {
    && r.updated && r.extended
    && (r.mode == Str("tap")
        || (r.mode == Str("tun") && !r.mask.Other? && !r.mask.Null? && Splits(r.pushDns) && Splits(r.pushRoutes)
            && (Truthy(r.mask) ==> !NoMask(r.mask.text))))
  }

  function EditedText(r: Edit): string
    requires r.mode == Str("tun") && Changes(r)
  {
    EditedMask(ServerText(r.server), if r.mask.Str? then r.mask.text else "").value
  }

  /** What an edit comes to: the name, once the first statement succeeds; the row in the table
      of the requested mode, if there is one; and never a row more or less. */
  function Edited(db: Db, id: int, r: Edit): (Response, Db) {
    (if Changes(r) || (r.updated && r.mode != Str("tun") && r.mode != Str("tap")) then Done else Refused,
     db.(configs := if r.updated && id in db.configs then db.configs[id := db.configs[id].(name := r.name)] else db.configs,
         tun := if Changes(r) && r.mode == Str("tun") && id in db.tun
                then db.tun[id := Extension(r.server, Str(EditedText(r)))] else db.tun,
         tap := if Changes(r) && r.mode == Str("tap") && id in db.tap
                then db.tap[id := TapRow(r.server, r.mask)] else db.tap))
  }

  // --- pairing ---

  /** Every configuration has exactly one extension row, in the table of its mode, and there
      are no other extension rows. */
  ghost predicate Paired(db: Db) {
    && (forall c | c in db.configs :: db.configs[c].mode == "tun" || db.configs[c].mode == "tap")
    && (forall c :: c in db.tun <==> c in db.configs && db.configs[c].mode == "tun")
    && (forall c :: c in db.tap <==> c in db.configs && db.configs[c].mode == "tap")
    && (forall c | c in db.configs :: c < db.nextId)
  }

  /** The conditions on a request are what the handler's order of tests comes to. */
  lemma OrphansByWay(r: Add)
    ensures Orphans(r) <==> Inserts(r) && (WayOf(r).Escaped? || (WayOf(r).TakenBack? && !r.undone))
    ensures Accepts(r) <==> Inserts(r) && WayOf(r).Extended?
  {
  }

  /** An add request keeps the tables paired exactly when it is not an orphaning one. */
  lemma AddKeepsPairingIff(db: Db, r: Add)
    requires Paired(db)
    ensures Paired(Added(db, r).1) <==> !Orphans(r)
  {
    var id, t := db.nextId, Added(db, r).1;
    OrphansByWay(r);
    if Orphans(r) {
      assert id in t.configs && id !in t.tun && id !in t.tap;
    } else if Inserts(r) {
      TakingBackRestores(db, id, Row(r.name, r.mode.text));
    }
  }

  /** There are orphaning requests: a list for a mask is enough, in any state. */
  lemma ListForAMaskOrphans(db: Db, r: Add)
    requires Paired(db) && Inserts(r) && r.mode == Str("tun") && r.server == Str("10.8.0.1") && r.mask == Other(true)
    ensures !Paired(Added(db, r).1)
  {
    AddKeepsPairingIff(db, r);
  }

  /** Deleting what was just added gives the tables back. */
  lemma TakingBackRestores(db: Db, id: int, row: Row)
    requires Paired(db) && db.nextId <= id
    ensures var with := db.(configs := db.configs[id := row], nextId := id + 1);
      Removed(with, id) == db.(nextId := id + 1)
  {
    assert id !in db.configs && id !in db.tun && id !in db.tap;
    assert db.configs[id := row] - {id} == db.configs;
    assert db.tun - {id} == db.tun && db.tap - {id} == db.tap;
  }

  /** A field that is there and not empty. */
  ghost predicate Given(v: Json) {
    (v.Str? && v.text != "") || v == Other(true)
  }

  /** An add request is accepted exactly when its name, mode and remote are given, the name is
      free, the statements succeed, and in tun mode an address, a mask of one of the two forms,
      and lists that are text, if they are given. */
  lemma AddIsAcceptedWhen(db: Db, r: Add)
    ensures Added(db, r).0.Created? <==>
      && Given(r.name) && Given(r.remote) && !r.taken && r.inserted && r.extended
      && (r.mode == Str("tap") ||
          (r.mode == Str("tun") && Given(r.server) && r.mask.Str? && (IsDotted(r.mask.text) || IsCidr(r.mask.text))
           && r.pushDns != Other(true) && r.pushRoutes != Other(true)))
  {
    CreatedMeansAccepted(db, r);
    EmptyIsNoMask();
  }

  lemma CreatedMeansAccepted(db: Db, r: Add)
    ensures Added(db, r).0.Created? <==> Accepts(r)
  {
    OrphansByWay(r);
  }

  /** An edit is completed exactly when its statements succeed and in tun mode the mask is
      missing, empty, or of one of the two forms, and the lists are text, if they are given. */
  lemma EditIsDoneWhen(db: Db, id: int, r: Edit)
    ensures Edited(db, id, r).0.Done? <==>
      && r.updated
      && (r.mode == Str("tap") || r.mode == Str("tun") ==> r.extended)
      && (r.mode == Str("tun") ==>
            && (r.mask == Missing ||
                (r.mask.Str? && (r.mask.text == "" || IsDotted(r.mask.text) || IsCidr(r.mask.text))))
            && r.pushDns != Other(true) && r.pushRoutes != Other(true))
  {
  }

  /** A refused request that does not orphan leaves the tables as they were, and a request
      that is answered with an id has added that configuration and its row, and nothing else. */
  lemma AddIsAllOrNothing(db: Db, r: Add)
    requires Paired(db) && !Orphans(r)
    ensures var (response, t) := Added(db, r);
      match response
      case Refused => t.configs == db.configs && t.tun == db.tun && t.tap == db.tap
      case Created(id) => id !in db.configs && t.configs.Keys == db.configs.Keys + {id}
        && t.tun.Keys + t.tap.Keys == db.tun.Keys + db.tap.Keys + {id}
        && r.mode.Str? && t.configs[id] == Row(r.name, r.mode.text)
        && forall c | c in db.configs ::
          && t.configs[c] == db.configs[c]
          && (c in db.tun ==> t.tun[c] == db.tun[c]) && (c in db.tap ==> t.tap[c] == db.tap[c])
      case Done => false
  {
    var id := db.nextId;
    OrphansByWay(r);
    assert id !in db.configs && id !in db.tun && id !in db.tap;
    if Inserts(r) {
      TakingBackRestores(db, id, Row(r.name, r.mode.text));
    }
  }

  /** The mask of an accepted tun request, entered as dotted text, is what the core later
      writes into the configuration file. */
  lemma AddedMaskReachesCore(db: Db, r: Add, server: string, n: nat)
    requires n <= 32 && '/' !in server && |server| < 64
    ensures var mask := Dotted(ShiftForm(n, 32));
      var (response, t) := Added(db, r.(mode := Str("tun"), server := Str(server), mask := Str(mask)));
      response.Created? ==>
        && response.id in t.tun && t.tun[response.id].server == Str(server)
        && t.tun[response.id].mask.Str?
        && Expanded(t.tun[response.id].mask.text, 64, 64) == (server, mask)
  {
    MaskRoundTrip(server, n);
  }

  /** A mask entered as address and length is stored as entered, beside the server address. */
  lemma AddedTunRow(db: Db, r: Add)
    requires r.mode == Str("tun") && Added(db, r).0.Created?
    ensures var (response, t) := Added(db, r);
      && response.id in t.tun && t.tun[response.id].server == r.server && t.tun[response.id].mask.Str?
      && r.mask.Str? && (IsCidr(r.mask.text) ==> t.tun[response.id].mask == r.mask)
  {
    if r.mask.Str? && IsCidr(r.mask.text) {
      CidrIsNotDotted(r.mask.text);
    }
  }

  /** An accepted tap request stores the address and mask it names, and NULL for what is empty
      or missing. */
  lemma AddedTapRow(db: Db, r: Add)
    requires r.mode == Str("tap") && Added(db, r).0.Created?
    ensures var (response, t) := Added(db, r);
      && response.id in t.tap
      && t.tap[response.id].server == (if Given(r.server) then r.server else Null)
      && t.tap[response.id].mask == (if Given(r.mask) then r.mask else Null)
      && t.configs[response.id] == Row(r.name, "tap")
  {
  }

  /** What a completed edit stores: the name; for tun, the address, and the mask with the length
      that the edit form computes, or as it is entered; for tap, as above. */
  lemma EditedRow(db: Db, id: int, r: Edit)
    requires Paired(db) && id in db.configs && Edited(db, id, r).0.Done?
    ensures var t := Edited(db, id, r).1;
      && t.configs[id] == Row(r.name, db.configs[id].mode)
      && (r.mode == Str("tap") && id in db.tap ==>
            t.tap[id] == Extension(if Given(r.server) then r.server else Null, if Given(r.mask) then r.mask else Null))
      && (r.mode == Str("tun") && id in db.tun && r.mask.Str? && (r.mask.text == "" || IsCidr(r.mask.text)) ==>
            t.tun[id] == Extension(r.server, r.mask))
      && forall c | c in db.configs && c != id ::
           && t.configs[c] == db.configs[c]
           && (c in db.tun ==> t.tun[c] == db.tun[c]) && (c in db.tap ==> t.tap[c] == db.tap[c])
  {
    if r.mask.Str? && IsCidr(r.mask.text) {
      CidrIsNotDotted(r.mask.text);
    }
  }

  /** A dotted mask that is edited reaches the core one bit shorter, unless it is zero. */
  lemma EditedMaskReachesCore(db: Db, id: int, r: Edit, server: string, n: nat)
    requires n <= 32 && '/' !in server && |server| < 64 && id in db.tun
    ensures var mask := Dotted(ShiftForm(n, 32));
      var (response, t) := Edited(db, id, r.(mode := Str("tun"), server := Str(server), mask := Str(mask)));
      response.Done? ==>
        && t.tun[id].server == Str(server) && t.tun[id].mask.Str?
        && Expanded(t.tun[id].mask.text, 64, 64) == (server, Dotted(ShiftForm(if n == 0 then 0 else n - 1, 32)))
  {
    MaskRoundTrip(server, n);
  }

  /** Whatever happens to an edit, no row appears, disappears or changes its mode. */
  lemma EditKeepsRows(db: Db, id: int, r: Edit)
    ensures var t := Edited(db, id, r).1;
      && t.configs.Keys == db.configs.Keys && t.tun.Keys == db.tun.Keys && t.tap.Keys == db.tap.Keys
      && t.nextId == db.nextId
      && forall c | c in db.configs :: t.configs[c].mode == db.configs[c].mode
  {
  }

  lemma EditKeepsPairing(db: Db, id: int, r: Edit)
    requires Paired(db)
    ensures Paired(Edited(db, id, r).1)
  {
    var t := Edited(db, id, r).1;
    EditKeepsRows(db, id, r);
    SameRowsArePaired(db, t);
  }

  lemma SameRowsArePaired(db: Db, t: Db)
    requires Paired(db)
    requires t.configs.Keys == db.configs.Keys && t.tun.Keys == db.tun.Keys && t.tap.Keys == db.tap.Keys
    requires t.nextId == db.nextId && forall c | c in db.configs :: t.configs[c].mode == db.configs[c].mode
    ensures Paired(t)
  {
    forall c
      ensures c in t.configs <==> c in db.configs
      ensures c in t.tun <==> c in db.tun
      ensures c in t.tap <==> c in db.tap
    {
      assert c in t.configs.Keys <==> c in db.configs.Keys;
      assert c in t.tun.Keys <==> c in db.tun.Keys;
      assert c in t.tap.Keys <==> c in db.tap.Keys;
    }
  }

  /** A deletion takes the configuration and its row, and no other. */
  lemma DeleteKeepsPairing(db: Db, id: int)
    requires Paired(db)
    ensures var t := Apply(db, DeleteRequest(id, true));
      && Paired(t) && t.configs.Keys == db.configs.Keys - {id}
      && t.tun.Keys + t.tap.Keys == db.tun.Keys + db.tap.Keys - {id}
      && forall c | c in db.configs && c != id ::
        && t.configs[c] == db.configs[c]
        && (c in db.tun ==> t.tun[c] == db.tun[c]) && (c in db.tap ==> t.tap[c] == db.tap[c])
  {
  }

  datatype Request = AddRequest(add: Add) | EditRequest(id: int, edit: Edit) | DeleteRequest(id: int, deleted: bool)

  function Apply(db: Db, r: Request): Db {
    match r
    case AddRequest(a) => Added(db, a).1
    case EditRequest(id, e) => Edited(db, id, e).1
    case DeleteRequest(id, deleted) => if deleted then Removed(db, id) else db
  }

  ghost predicate PairedThroughout(db: Db, rs: seq<Request>)
    decreases rs
  {
    Paired(db) && (rs == [] || PairedThroughout(Apply(db, rs[0]), rs[1..]))
  }

  ghost predicate NoneOrphans(rs: seq<Request>) {
    forall i | 0 <= i < |rs| :: rs[i].AddRequest? ==> !Orphans(rs[i].add)
  }

  /** Over any requests the tables are paired all the time exactly when none of them orphans. */
  lemma {:induction false} PairedThroughoutIff(db: Db, rs: seq<Request>)
    requires Paired(db)
    ensures PairedThroughout(db, rs) <==> NoneOrphans(rs)
    decreases rs
  {
    if rs != [] {
      var r, next := rs[0], Apply(db, rs[0]);
      match r {
        case AddRequest(a) => AddKeepsPairingIff(db, a);
        case EditRequest(id, e) => EditKeepsPairing(db, id, e);
        case DeleteRequest(id, _) => DeleteKeepsPairing(db, id);
      }
      assert Paired(next) <==> !(r.AddRequest? && Orphans(r.add));
      if Paired(next) {
        PairedThroughoutIff(next, rs[1..]);
        assert NoneOrphans(rs) <==> NoneOrphans(rs[1..]) by {
          assert rs == [r] + rs[1..];
        }
      }
    }
  }

  /** With masks that are strings, or missing, and compensating deletes that succeed. */
  lemma StringRequestsStayPaired(db: Db, rs: seq<Request>)
    requires Paired(db)
    requires forall i | 0 <= i < |rs| && rs[i].AddRequest? :: !rs[i].add.mask.Other? && rs[i].add.undone
    ensures PairedThroughout(db, rs)
  {
    PairedThroughoutIff(db, rs);
  }

  // --- the handlers ---

  class Tables {
    var configs: map<int, Row>
    var tun: map<int, Extension>
    var tap: map<int, Extension>
    var nextId: int

    ghost function State(): Db
      reads this
    {
      Db(configs, tun, tap, nextId)
    }

    constructor ()
      ensures State() == EMPTY_DB
    {
      configs, tun, tap, nextId := map[], map[], map[], 0;
    }

    method DeleteRow(id: int)
      modifies this`configs, this`tun, this`tap
      ensures State() == Removed(old(State()), id)
    {
      configs, tun, tap := configs - {id}, tun - {id}, tap - {id};
    }

    /** `add_config`: the row of the configuration goes in first and is taken back when the
        rest is refused. An accepted request adds the configuration and its row; a refused one
        leaves the tables as they were, unless it orphans; and the tables stay paired exactly
        when it does not. */
    method AddConfig(r: Add) returns (response: Response)
      requires Paired(State())
      modifies this
      ensures (response, State()) == Added(old(State()), r)
      ensures Paired(State()) <==> !Orphans(r)
      ensures response.Refused? && !Orphans(r) ==> configs == old(configs) && tun == old(tun) && tap == old(tap)
      ensures response.Created? ==> response.id !in old(configs) && response.id in configs
    {
      AddKeepsPairingIff(State(), r);
      if !Truthy(r.name) || !Truthy(r.mode) || !Truthy(r.remote) {
        return Refused;
      }
      if r.taken {
        return Refused;
      }
      if !r.inserted || (r.mode != Str("tun") && r.mode != Str("tap")) {
        return Refused;
      }
      var id := nextId;
      ghost var before := State();
      configs, nextId := configs[id := Row(r.name, r.mode.text)], id + 1;
      OrphansByWay(r);
      if r.mode == Str("tun") {
        response := AddTun(r, id);
      } else if !r.extended {
        TakeBack(id, r.undone);
        response := Refused;
      } else {
        tap := tap[id := TapRow(r.server, r.mask)];
        response := Created(id);
      }
      TakingBackRestores(before, id, Row(r.name, r.mode.text));
    }

    /** The compensating delete, which may fail itself. */
    method TakeBack(id: int, succeeds: bool)
      modifies this`configs, this`tun, this`tap
      ensures State() == if succeeds then Removed(old(State()), id) else old(State())
    {
      if succeeds {
        DeleteRow(id);
      }
    }

    method AddTun(r: Add, id: int) returns (response: Response)
      requires Inserts(r) && r.mode == Str("tun")
      modifies this`configs, this`tun, this`tap
      ensures match WayOf(r)
        case Extended => Accepts(r) && response == Created(id) && State() == old(State()).(tun := old(tun)[id := TunRow(r)])
        case TakenBack => response == Refused && State() == if r.undone then Removed(old(State()), id) else old(State())
        case Escaped => response == Refused && State() == old(State())
    {
      OrphansByWay(r);
      response := Refused;
      if !Truthy(r.server) || !Truthy(r.mask) {
        TakeBack(id, r.undone);
        return;
      }
      if !r.mask.Str? {
        return;
      }
      var mask := AddedMask(ServerText(r.server), r.mask.text);
      if mask.None? || !Splits(r.pushDns) || !Splits(r.pushRoutes) || !r.extended {
        TakeBack(id, r.undone);
        return;
      }
      tun := tun[id := Extension(r.server, Str(mask.value))];
      response := Created(id);
    }

    /** `edit_config`: whatever fails on the way, the tables stay paired, with the same rows in
        the same modes. */
    method EditConfig(id: int, r: Edit) returns (response: Response)
      requires Paired(State())
      modifies this`configs, this`tun, this`tap
      ensures (response, State()) == Edited(old(State()), id, r)
      ensures Paired(State())
      ensures configs.Keys == old(configs).Keys && tun.Keys == old(tun).Keys && tap.Keys == old(tap).Keys
    {
      EditKeepsRows(State(), id, r);
      EditKeepsPairing(State(), id, r);
      if !r.updated {
        return Refused;
      }
      if id in configs {
        configs := configs[id := configs[id].(name := r.name)];
      }
      if r.mode == Str("tun") {
        if r.mask.Other? || r.mask.Null? {
          return Refused;
        }
        var mask := EditedMask(ServerText(r.server), if r.mask.Str? then r.mask.text else "");
        if mask.None? || !Splits(r.pushDns) || !Splits(r.pushRoutes) || !r.extended {
          return Refused;
        }
        if id in tun {
          tun := tun[id := Extension(r.server, Str(mask.value))];
        }
      } else if r.mode == Str("tap") {
        if !r.extended {
          return Refused;
        }
        if id in tap {
          tap := tap[id := TapRow(r.server, r.mask)];
        }
      }
      return Done;
    }

    /** `delete_config` */
    method DeleteConfig(id: int, deleted: bool) returns (response: Response)
      requires Paired(State())
      modifies this`configs, this`tun, this`tap
      ensures response == if deleted then Done else Refused
      ensures State() == if deleted then Removed(old(State()), id) else old(State())
      ensures Paired(State())
    {
      DeleteKeepsPairing(State(), id);
      if !deleted {
        return Refused;
      }
      DeleteRow(id);
      response := Done;
    }
  }
}
