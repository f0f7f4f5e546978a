/** The session reconciler, `update_sessions` of master/monitor.c: each tick turns a status
    dump into inserts, counter updates and closings of the rows of vpn_sessions. */
module Sessions {
  import opened CText
  import opened Options
  import opened LineSplit
  import opened StatusDump
  import opened IdList

  // ----- the tables -----

  datatype Profile = Profile(user: nat, config: nat)

  /** vpn_users and vpn_client_profiles. User names are unique, and so is the pair of user and
      config in a profile. */
  datatype Directory = Directory(users: map<nat, string>, profiles: map<nat, Profile>) {
    ghost predicate Valid() {
      && (forall u, v | u in users && v in users && users[u] == users[v] :: u == v)
      && (forall p, q | p in profiles && q in profiles && profiles[p] == profiles[q] :: p == q)
    }
  }

  datatype Hit = Hit(user: nat, profile: nat)

  predicate Matches(d: Directory, config: nat, name: string, p: nat) {
    && p in d.profiles && d.profiles[p].config == config
    && d.profiles[p].user in d.users && d.users[d.profiles[p].user] == name
  }

  /** The profile of a common name in this config; the keys leave at most one. */
  function Resolve(d: Directory, config: nat, name: string): (r: Option<Hit>)
    requires d.Valid()
    ensures r.Some? ==> Matches(d, config, name, r.value.profile)
    ensures r.Some? ==> r.value.user == d.profiles[r.value.profile].user
    ensures r.None? ==> forall p :: !Matches(d, config, name, p)
  {
    if exists p | p in d.profiles :: Matches(d, config, name, p) then
      var p :| p in d.profiles && Matches(d, config, name, p);
      Some(Hit(d.profiles[p].user, p))
    else None
  }

  /** A row of vpn_sessions; its id is its index. Deleting a profile or a config sets the
      reference to NULL and keeps the row. */
  datatype Session = Session(profile: Option<nat>, user: nat, config: Option<nat>,
                             virtualIp: string, realIp: string, since: string,
                             sent: nat, received: nat, closedAt: Option<int>)

  predicate IsOpenFor(row: Session, p: nat) {
    row.profile == Some(p) && row.closedAt.None?
  }

  // ----- one tick, on tables -----

  /** The open row of a profile, or the length of the table. */
  function OpenRow(rows: seq<Session>, p: nat): (k: nat)
    ensures k <= |rows|
    ensures k < |rows| ==> IsOpenFor(rows[k], p)
    ensures forall i | 0 <= i < k :: !IsOpenFor(rows[i], p)
  {
    OpenRowFrom(rows, p, 0)
  }

  function OpenRowFrom(rows: seq<Session>, p: nat, i: nat): (k: nat)
    requires i <= |rows|
    ensures i <= k <= |rows|
    ensures k < |rows| ==> IsOpenFor(rows[k], p)
    ensures forall j | i <= j < k :: !IsOpenFor(rows[j], p)
    decreases |rows| - i
  {
    if i == |rows| || IsOpenFor(rows[i], p) then i else OpenRowFrom(rows, p, i + 1)
  }

  function NewSession(config: nat, hit: Hit, r: Report): Session {
    Session(Some(hit.profile), hit.user, Some(config), r.virtualIp, r.realIp, r.since,
            r.sent, r.received, None)
  }

  /** What one resolved client line does: update the counters of the open row, or insert. */
  function Observe(rows: seq<Session>, config: nat, hit: Hit, r: Report): seq<Session> {
    var k := OpenRow(rows, hit.profile);
    if k < |rows| then rows[k := rows[k].(sent := r.sent, received := r.received)]
    else rows + [NewSession(config, hit, r)]
  }

  /** A client line and what the server answers to its statements: the profile that the name
      query finds, if it finds one; whether the query for an open row succeeds, which when it
      fails counts as finding none; and whether the row write succeeds. */
  datatype Line = Line(report: Report, hit: Option<Hit>, looked: bool, written: bool)

  function ObserveLine(rows: seq<Session>, config: nat, line: Line): seq<Session> {
    if line.hit.None? || !line.written then rows
    else if line.looked then Observe(rows, config, line.hit.value, line.report)
    else rows + [NewSession(config, line.hit.value, line.report)]
  }

  function ObserveAll(rows: seq<Session>, config: nat, lines: seq<Line>): seq<Session> {
    if lines == [] then rows else
      var n := |lines| - 1;
      ObserveLine(ObserveAll(rows, config, lines[..n]), config, lines[n])
  }

  /** The resolved profiles of the dump, in order, duplicates included. */
  function Resolved(lines: seq<Line>): seq<nat> {
    if lines == [] then [] else
      var n := |lines| - 1;
      match lines[n].hit
      case None => Resolved(lines[..n])
      case Some(hit) => Resolved(lines[..n]) + [hit.profile]
  }

  const ONLINE_LIMIT := 256

  /** The online list has room for 256 entries. */
  function Online(lines: seq<Line>): seq<nat> {
    Take(Resolved(lines), ONLINE_LIMIT)
  }

  /** `config_id = $1 AND disconnected_at IS NULL AND client_profile_id != ALL($2)`; without
      anyone online the last condition is left out. A NULL never satisfies a comparison. */
  predicate ClosedBy(row: Session, config: nat, online: seq<nat>) {
    && row.config == Some(config) && row.closedAt.None?
    && (online == [] || (row.profile.Some? && row.profile.value !in online))
  }

  function CloseRow(row: Session, config: nat, online: seq<nat>, now: int): Session {
    if ClosedBy(row, config, online) then row.(closedAt := Some(now)) else row
  }

  function CloseMissing(rows: seq<Session>, config: nat, online: seq<nat>, now: int): (t: seq<Session>)
    ensures |t| == |rows|
    ensures forall i | 0 <= i < |rows| :: t[i] == CloseRow(rows[i], config, online, now)
  {
    seq(|rows|, i requires 0 <= i < |rows| => CloseRow(rows[i], config, online, now))
  }

  /** One tick: `lines` are the client lines of the dump, `closing` says whether the server
      accepted the final statement. */
  datatype Input = Input(lines: seq<Line>, now: int, closing: bool)

  function Tick(rows: seq<Session>, config: nat, t: Input): seq<Session> {
    var seen := ObserveAll(rows, config, t.lines);
    if t.closing then CloseMissing(seen, config, Online(t.lines), t.now) else seen
  }

  // ----- consistency -----

  /** Only the last row of a profile can be open; so at most one is. */
  ghost predicate LastOnly(rows: seq<Session>, p: nat) {
    forall i, j | 0 <= i < j < |rows| && rows[i].profile == Some(p) && rows[j].profile == Some(p) ::
      rows[i].closedAt.Some?
  }

  ghost predicate OnlyLastOpen(rows: seq<Session>) {
    forall p :: LastOnly(rows, p)
  }

  /** An open row belongs to the config of its profile. */
  ghost predicate InConfig(rows: seq<Session>, d: Directory) {
    forall i | 0 <= i < |rows| && rows[i].profile.Some? && rows[i].closedAt.None? ::
      rows[i].profile.value in d.profiles && rows[i].config == Some(d.profiles[rows[i].profile.value].config)
  }

  ghost predicate Consistent(rows: seq<Session>, d: Directory) {
    OnlyLastOpen(rows) && InConfig(rows, d)
  }

  /** The name query of a config finds profiles of that config. */
  ghost predicate HitsOf(d: Directory, config: nat, lines: seq<Line>) {
    forall k | 0 <= k < |lines| && lines[k].hit.Some? :: OfConfig(d, config, lines[k].hit.value)
  }

  ghost predicate OfConfig(d: Directory, config: nat, hit: Hit) {
    hit.profile in d.profiles && d.profiles[hit.profile] == Profile(hit.user, config)
  }

  lemma AtMostOneOpen(rows: seq<Session>, p: nat, i: nat, j: nat)
    requires LastOnly(rows, p) && i < |rows| && j < |rows|
    requires IsOpenFor(rows[i], p) && IsOpenFor(rows[j], p)
    ensures i == j
  {
  }

  lemma ObserveLineKeepsInConfig(rows: seq<Session>, d: Directory, config: nat, line: Line)
    requires InConfig(rows, d) && (line.hit.Some? ==> OfConfig(d, config, line.hit.value))
    ensures InConfig(ObserveLine(rows, config, line), d)
  {
  }

  lemma {:induction false} ObserveAllKeepsInConfig(rows: seq<Session>, d: Directory, config: nat, lines: seq<Line>)
    requires InConfig(rows, d) && HitsOf(d, config, lines)
    ensures InConfig(ObserveAll(rows, config, lines), d)
    decreases |lines|
  {
    if lines != [] {
      var n := |lines| - 1;
      ObserveAllKeepsInConfig(rows, d, config, lines[..n]);
      ObserveLineKeepsInConfig(ObserveAll(rows, config, lines[..n]), d, config, lines[n]);
    }
  }

  /** Every tick keeps open rows in the config of their profile, whatever statements fail. */
  lemma TickKeepsInConfig(rows: seq<Session>, d: Directory, config: nat, t: Input)
    requires InConfig(rows, d) && HitsOf(d, config, t.lines)
    ensures InConfig(Tick(rows, config, t), d)
  {
    ObserveAllKeepsInConfig(rows, d, config, t.lines);
  }

  // ----- which profiles are open -----

  ghost predicate HasOpen(rows: seq<Session>, p: nat) {
    exists i :: 0 <= i < |rows| && IsOpenFor(rows[i], p)
  }

  predicate WritesFor(line: Line, p: nat) {
    line.hit.Some? && line.hit.value.profile == p && line.written
  }

  ghost predicate Written(lines: seq<Line>, p: nat) {
    exists j :: 0 <= j < |lines| && WritesFor(lines[j], p)
  }

  lemma HasOpenAt(rows: seq<Session>, p: nat, i: nat)
    requires i < |rows| && IsOpenFor(rows[i], p)
    ensures HasOpen(rows, p)
  {
  }

  lemma ObserveLineOpens(rows: seq<Session>, config: nat, line: Line, p: nat)
    ensures HasOpen(ObserveLine(rows, config, line), p) <==> HasOpen(rows, p) || WritesFor(line, p)
  {
    var t := ObserveLine(rows, config, line);
    if HasOpen(rows, p) {
      var i :| 0 <= i < |rows| && IsOpenFor(rows[i], p);
      HasOpenAt(t, p, i);
    } else if WritesFor(line, p) {
      HasOpenAt(t, p, |rows|);
    } else {
      forall i | 0 <= i < |t|
        ensures !IsOpenFor(t[i], p)
      {
        assert i < |rows| ==> !IsOpenFor(rows[i], p);
      }
    }
  }

  /** After its lines a profile is open exactly when it was before, or a line of it was
      written. */
  lemma {:induction false} ObserveAllOpens(rows: seq<Session>, config: nat, lines: seq<Line>, p: nat)
    ensures HasOpen(ObserveAll(rows, config, lines), p) <==> HasOpen(rows, p) || Written(lines, p)
    decreases |lines|
  {
    if lines != [] {
      var n := |lines| - 1;
      ObserveAllOpens(rows, config, lines[..n], p);
      ObserveLineOpens(ObserveAll(rows, config, lines[..n]), config, lines[n], p);
      WrittenFront(lines, p);
    }
  }

  lemma WrittenFront(lines: seq<Line>, p: nat)
    requires lines != []
    ensures var n := |lines| - 1; Written(lines, p) <==> Written(lines[..n], p) || WritesFor(lines[n], p)
  {
    var n := |lines| - 1;
    if Written(lines[..n], p) {
      var j :| 0 <= j < n && WritesFor(lines[..n][j], p);
      assert WritesFor(lines[j], p);
    }
    if Written(lines, p) {
      var j :| 0 <= j < |lines| && WritesFor(lines[j], p);
      assert j < n ==> WritesFor(lines[..n][j], p);
    }
  }

  // ----- exactly when a second row is opened -----

  /** Line `k` inserts a row for the profile because its lookup failed, although the profile
      has an open row: from before the tick, or from a line before. */
  ghost predicate Doubles(rows: seq<Session>, lines: seq<Line>, k: nat, p: nat) {
    && k < |lines| && WritesFor(lines[k], p) && !lines[k].looked
    && (HasOpen(rows, p) || Written(lines[..k], p))
  }

  ghost predicate Doubled(rows: seq<Session>, lines: seq<Line>, p: nat) {
    exists k: nat :: Doubles(rows, lines, k, p)
  }

  lemma ObserveLineLastOnly(rows: seq<Session>, config: nat, line: Line, p: nat)
    ensures LastOnly(ObserveLine(rows, config, line), p) <==>
      LastOnly(rows, p) && !(WritesFor(line, p) && !line.looked && HasOpen(rows, p))
  {
    var t := ObserveLine(rows, config, line);
    assert forall i | 0 <= i < |rows| :: t[i].profile == rows[i].profile && t[i].closedAt == rows[i].closedAt;
    if LastOnly(rows, p) && WritesFor(line, p) && HasOpen(rows, p) && !line.looked {
      var i :| 0 <= i < |rows| && IsOpenFor(rows[i], p);
      assert t[i].profile == Some(p) && t[|rows|].profile == Some(p);
    } else if LastOnly(rows, p) {
      forall i | 0 <= i < |rows| && IsOpenFor(rows[i], p)
        ensures HasOpen(rows, p)
      {
        HasOpenAt(rows, p, i);
      }
      forall i, j | 0 <= i < j < |t| && t[i].profile == Some(p) && t[j].profile == Some(p)
        ensures t[i].closedAt.Some?
      {
        assert rows[i].profile == Some(p);
      }
    } else {
      var i, j :| 0 <= i < j < |rows| && rows[i].profile == Some(p) && rows[j].profile == Some(p)
        && rows[i].closedAt.None?;
      assert t[i].profile == Some(p) && t[j].profile == Some(p);
    }
  }

  lemma DoubledFront(rows: seq<Session>, lines: seq<Line>, p: nat)
    requires lines != []
    ensures var n := |lines| - 1;
      Doubled(rows, lines, p) <==> Doubled(rows, lines[..n], p) || Doubles(rows, lines, n, p)
  {
    var n := |lines| - 1;
    if Doubled(rows, lines[..n], p) {
      var k: nat :| Doubles(rows, lines[..n], k, p);
      assert lines[..n][..k] == lines[..k];
      assert Doubles(rows, lines, k, p);
    }
    if Doubled(rows, lines, p) {
      var k: nat :| Doubles(rows, lines, k, p);
      if k < n {
        assert lines[..n][..k] == lines[..k];
        assert Doubles(rows, lines[..n], k, p);
      }
    }
  }

  /** The lines of a dump leave at most one open row for a profile exactly when none of them
      doubles it. */
  lemma {:induction false} ObserveAllLastOnly(rows: seq<Session>, config: nat, lines: seq<Line>, p: nat)
    requires LastOnly(rows, p)
    ensures LastOnly(ObserveAll(rows, config, lines), p) <==> !Doubled(rows, lines, p)
    decreases |lines|
  {
    if lines != [] {
      var n := |lines| - 1;
      ObserveAllLastOnly(rows, config, lines[..n], p);
      ObserveAllOpens(rows, config, lines[..n], p);
      ObserveLineLastOnly(ObserveAll(rows, config, lines[..n]), config, lines[n], p);
      DoubledFront(rows, lines, p);
    }
  }

  /** A row that a tick doubles stays so, unless the end of the tick closes all rows of the
      profile because it is not on the online list. */
  ghost predicate LeavesDouble(rows: seq<Session>, t: Input, p: nat) {
    Doubled(rows, t.lines, p) && !(t.closing && p !in Online(t.lines))
  }

  lemma CloseLastOnly(rows: seq<Session>, d: Directory, config: nat, online: seq<nat>, now: int, p: nat)
    requires InConfig(rows, d) && p in d.profiles && d.profiles[p].config == config
    ensures LastOnly(CloseMissing(rows, config, online, now), p) <==> LastOnly(rows, p) || p !in online
  {
    var t := CloseMissing(rows, config, online, now);
    if !LastOnly(rows, p) && p in online {
      var i, j :| 0 <= i < j < |rows| && rows[i].profile == Some(p) && rows[j].profile == Some(p)
        && rows[i].closedAt.None?;
      assert t[i] == rows[i] && t[j].profile == Some(p);
    }
  }

  lemma CloseSparesLastOnly(rows: seq<Session>, config: nat, online: seq<nat>, now: int, p: nat)
    requires LastOnly(rows, p)
    ensures LastOnly(CloseMissing(rows, config, online, now), p)
  {
    var t := CloseMissing(rows, config, online, now);
    forall i, j | 0 <= i < j < |t| && t[i].profile == Some(p) && t[j].profile == Some(p)
      ensures t[i].closedAt.Some?
    {
      assert rows[i].profile == Some(p) && rows[j].profile == Some(p);
    }
  }

  lemma NotDoubledElsewhere(rows: seq<Session>, d: Directory, config: nat, lines: seq<Line>, p: nat)
    requires HitsOf(d, config, lines) && Doubled(rows, lines, p)
    ensures p in d.profiles && d.profiles[p].config == config
  {
    var k: nat :| Doubles(rows, lines, k, p);
    assert OfConfig(d, config, lines[k].hit.value);
  }

  /** For one profile: exactly when a tick keeps it at one open row. */
  lemma TickLastOnly(rows: seq<Session>, d: Directory, config: nat, t: Input, p: nat)
    requires Consistent(rows, d) && HitsOf(d, config, t.lines)
    ensures LastOnly(Tick(rows, config, t), p) <==> !LeavesDouble(rows, t, p)
  {
    var seen := ObserveAll(rows, config, t.lines);
    assert LastOnly(rows, p);
    ObserveAllLastOnly(rows, config, t.lines, p);
    ObserveAllKeepsInConfig(rows, d, config, t.lines);
    if Doubled(rows, t.lines, p) {
      NotDoubledElsewhere(rows, d, config, t.lines, p);
      CloseLastOnly(seen, d, config, Online(t.lines), t.now, p);
    } else {
      CloseSparesLastOnly(seen, config, Online(t.lines), t.now, p);
    }
  }

  /** A tick keeps the table consistent exactly when it leaves no profile doubled: no failed
      lookup of an open profile is followed by an insert that succeeds, unless the profile is
      closed again at the end of the tick. */
  lemma TickKeepsConsistentIff(rows: seq<Session>, d: Directory, config: nat, t: Input)
    requires Consistent(rows, d) && HitsOf(d, config, t.lines)
    ensures Consistent(Tick(rows, config, t), d) <==> forall p :: !LeavesDouble(rows, t, p)
  {
    TickKeepsInConfig(rows, d, config, t);
    forall p
      ensures LastOnly(Tick(rows, config, t), p) <==> !LeavesDouble(rows, t, p)
    {
      TickLastOnly(rows, d, config, t, p);
    }
  }

  ghost predicate AllLooked(lines: seq<Line>) {
    forall k | 0 <= k < |lines| :: lines[k].looked
  }

  /** In particular when every lookup succeeds, whatever else fails. */
  lemma TickKeepsConsistent(rows: seq<Session>, d: Directory, config: nat, t: Input)
    requires Consistent(rows, d) && HitsOf(d, config, t.lines) && AllLooked(t.lines)
    ensures Consistent(Tick(rows, config, t), d)
  {
    TickKeepsConsistentIff(rows, d, config, t);
  }

  /** A lookup that fails for a profile with an open session is enough: the insert after it
      opens a second one. */
  lemma FailedLookupDoubles(rows: seq<Session>, d: Directory, config: nat, hit: Hit, r: Report, now: int, closing: bool)
    requires Consistent(rows, d) && OfConfig(d, config, hit) && HasOpen(rows, hit.profile)
    ensures !Consistent(Tick(rows, config, Input([Line(r, Some(hit), false, true)], now, closing)), d)
  {
    var lines := [Line(r, Some(hit), false, true)];
    var t := Input(lines, now, closing);
    assert lines[..0] == [];
    assert Resolved(lines) == [hit.profile];
    assert Doubles(rows, lines, 0, hit.profile);
    TickKeepsConsistentIff(rows, d, config, t);
    assert LeavesDouble(rows, t, hit.profile);
  }

  // ----- what a tick leaves alone -----

  /** Rows keep their identity, closed rows and rows of other configs do not change at all, and
      new rows are rows of this config. */
  ghost predicate TouchesOnly(rows: seq<Session>, t: seq<Session>, config: nat) {
    && |rows| <= |t|
    && (forall i | 0 <= i < |rows| ::
      && t[i] == rows[i].(sent := t[i].sent, received := t[i].received, closedAt := t[i].closedAt)
      && (rows[i].closedAt.Some? || rows[i].config != Some(config) ==> t[i] == rows[i]))
    && (forall i | |rows| <= i < |t| :: t[i].config == Some(config))
  }

  lemma {:induction false} ObserveAllTouchesOnly(rows: seq<Session>, d: Directory, config: nat, lines: seq<Line>)
    requires InConfig(rows, d) && HitsOf(d, config, lines)
    ensures TouchesOnly(rows, ObserveAll(rows, config, lines), config)
    decreases |lines|
  {
    if lines != [] {
      var n := |lines| - 1;
      ObserveAllTouchesOnly(rows, d, config, lines[..n]);
      ObserveAllKeepsInConfig(rows, d, config, lines[..n]);
    }
  }

  lemma TickTouchesOnly(rows: seq<Session>, d: Directory, config: nat, t: Input)
    requires InConfig(rows, d) && HitsOf(d, config, t.lines)
    ensures TouchesOnly(rows, Tick(rows, config, t), config)
  {
    ObserveAllTouchesOnly(rows, d, config, t.lines);
  }

  /** Closed before, a session keeps its time; closed by a tick, it has the time of the tick. */
  lemma TickClosesNow(rows: seq<Session>, config: nat, t: Input, i: nat)
    requires i < |Tick(rows, config, t)|
    ensures var after := Tick(rows, config, t)[i].closedAt;
      if i < |rows| && rows[i].closedAt.Some? then after == rows[i].closedAt
      else after == None || after == Some(t.now)
  {
    ObserveAllKeepsClosing(rows, config, t.lines, i);
  }

  lemma {:induction false} ObserveAllKeepsClosing(rows: seq<Session>, config: nat, lines: seq<Line>, i: nat)
    ensures |rows| <= |ObserveAll(rows, config, lines)|
    ensures i < |ObserveAll(rows, config, lines)| ==>
      ObserveAll(rows, config, lines)[i].closedAt == if i < |rows| then rows[i].closedAt else None
    decreases |lines|
  {
    if lines != [] {
      ObserveAllKeepsClosing(rows, config, lines[..|lines| - 1], i);
    }
  }

  // ----- a tick is a set assignment -----

  ghost predicate AllWritten(lines: seq<Line>) {
    forall k | 0 <= k < |lines| :: lines[k].written
  }

  lemma {:induction false} WrittenAreResolved(lines: seq<Line>, p: nat)
    requires AllWritten(lines)
    ensures Written(lines, p) <==> p in Resolved(lines)
    decreases |lines|
  {
    if lines != [] {
      WrittenAreResolved(lines[..|lines| - 1], p);
      WrittenFront(lines, p);
    }
  }

  lemma OnlineAreResolved(lines: seq<Line>, p: nat)
    ensures p in Online(lines) ==> p in Resolved(lines)
    ensures |Resolved(lines)| <= 256 ==> Online(lines) == Resolved(lines)
    ensures |Resolved(lines)| > 256 ==> Online(lines) == Resolved(lines)[..256]
  {
  }

  lemma CloseLeavesOpen(rows: seq<Session>, d: Directory, config: nat, online: seq<nat>, now: int, p: nat)
    requires InConfig(rows, d) && p in d.profiles && d.profiles[p].config == config
    ensures HasOpen(CloseMissing(rows, config, online, now), p) <==> HasOpen(rows, p) && p in online
  {
    var t := CloseMissing(rows, config, online, now);
    if HasOpen(rows, p) && p in online {
      var i :| 0 <= i < |rows| && IsOpenFor(rows[i], p);
      assert IsOpenFor(t[i], p);
    }
    if HasOpen(t, p) {
      var i :| 0 <= i < |t| && IsOpenFor(t[i], p);
      assert IsOpenFor(rows[i], p);
    }
  }

  /** One tick is a set assignment: when its writes succeed, the profiles of this config with
      an open session are exactly the online list, whether lookups failed or not; which is
      every resolved profile of the dump, as long as there are at most 256 entries. */
  lemma TickAssignsOnline(rows: seq<Session>, d: Directory, config: nat, t: Input, p: nat)
    requires InConfig(rows, d) && HitsOf(d, config, t.lines) && AllWritten(t.lines) && t.closing
    requires p in d.profiles && d.profiles[p].config == config
    ensures HasOpen(Tick(rows, config, t), p) <==> p in Online(t.lines)
    ensures |Resolved(t.lines)| <= 256 ==>
      (HasOpen(Tick(rows, config, t), p) <==> p in Resolved(t.lines))
  {
    ObserveAllKeepsInConfig(rows, d, config, t.lines);
    ObserveAllOpens(rows, config, t.lines, p);
    WrittenAreResolved(t.lines, p);
    OnlineAreResolved(t.lines, p);
    CloseLeavesOpen(ObserveAll(rows, config, t.lines), d, config, Online(t.lines), t.now, p);
  }

  /** A profile of another config keeps the open session it has, or has none. */
  lemma TickSparesOthers(rows: seq<Session>, d: Directory, config: nat, t: Input, p: nat)
    requires InConfig(rows, d) && HitsOf(d, config, t.lines)
    requires p in d.profiles && d.profiles[p].config != config
    ensures HasOpen(Tick(rows, config, t), p) <==> HasOpen(rows, p)
  {
    TickTouchesOnly(rows, d, config, t);
    TickKeepsInConfig(rows, d, config, t);
    var after := Tick(rows, config, t);
    if HasOpen(rows, p) {
      var i :| 0 <= i < |rows| && IsOpenFor(rows[i], p);
      assert IsOpenFor(after[i], p);
    }
    if HasOpen(after, p) {
      var i :| 0 <= i < |after| && IsOpenFor(after[i], p);
      assert i < |rows|;
      assert IsOpenFor(rows[i], p);
    }
  }

  lemma {:induction false} ObserveAllKeepsOrphans(rows: seq<Session>, config: nat, lines: seq<Line>, i: nat)
    requires i < |rows| && rows[i].profile.None?
    ensures i < |ObserveAll(rows, config, lines)|
    ensures ObserveAll(rows, config, lines)[i] == rows[i]
    decreases |lines|
  {
    if lines != [] {
      ObserveAllKeepsOrphans(rows, config, lines[..|lines| - 1], i);
    }
  }

  /** An open session whose profile was deleted outlives every tick that sees anyone online, and
      is closed by the first that sees nobody. */
  lemma OrphanedSessionIsClosedWhen(rows: seq<Session>, config: nat, t: Input, i: nat)
    requires t.closing
    requires i < |rows| && rows[i].profile.None? && rows[i].closedAt.None? && rows[i].config == Some(config)
    ensures i < |Tick(rows, config, t)|
    ensures Tick(rows, config, t)[i].closedAt.Some? <==> Resolved(t.lines) == []
  {
    ObserveAllKeepsOrphans(rows, config, t.lines, i);
  }

  // ----- the reconciler -----

  /** What the server answers to the statements of one line: whether the two queries and the
      write succeed. A name query that fails counts as finding nobody. */
  datatype Answers = Answers(found: bool, looked: bool, written: bool)

  /** The line of a report: it is looked up by the common name, and found exactly when a profile
      of the config belongs to the user of that name. */
  function LineOf(d: Directory, config: nat, r: Report, a: Answers): (line: Line)
    requires d.Valid()
    ensures line.report == r && line.looked == a.looked && line.written == a.written
    ensures line.hit.Some? <==> a.found && exists p :: Matches(d, config, r.name, p)
    ensures line.hit.Some? ==> Matches(d, config, r.name, line.hit.value.profile)
    ensures line.hit.Some? ==> OfConfig(d, config, line.hit.value)
  {
    Line(r, if a.found then Resolve(d, config, r.name) else None, a.looked, a.written)
  }

  /** The client lines of a dump, each with what its statements meet. */
  function Lines(d: Directory, config: nat, reports: seq<Report>, answers: nat -> Answers): (lines: seq<Line>)
    requires d.Valid()
    ensures |lines| == |reports|
    ensures forall k | 0 <= k < |reports| :: lines[k] == LineOf(d, config, reports[k], answers(k))
  {
    seq(|reports|, k requires 0 <= k < |reports| => LineOf(d, config, reports[k], answers(k)))
  }

  /** A name belongs to one profile of a config at most. */
  lemma MatchIsUnique(d: Directory, config: nat, name: string, p: nat, q: nat)
    requires d.Valid() && Matches(d, config, name, p) && Matches(d, config, name, q)
    ensures p == q
  {
  }

  // ----- a dump and the sessions after it, by names alone -----

  /** Some report of the dump carries the name of the profile's user. */
  ghost predicate Reported(d: Directory, config: nat, reports: seq<Report>, p: nat) {
    exists i :: 0 <= i < |reports| && Matches(d, config, reports[i].name, p)
  }

  ghost predicate IsKnown(d: Directory, config: nat, r: Report) {
    exists p :: Matches(d, config, r.name, p)
  }

  /** How many reports carry the name of somebody with a profile in the config. */
  ghost function Known(d: Directory, config: nat, reports: seq<Report>): nat {
    if reports == [] then 0
    else Known(d, config, reports[..|reports| - 1]) + if IsKnown(d, config, reports[|reports| - 1]) then 1 else 0
  }

  ghost predicate Succeed(reports: seq<Report>, answers: nat -> Answers) {
    forall k | 0 <= k < |reports| :: answers(k) == Answers(true, true, true)
  }

  lemma ReportedFront(d: Directory, config: nat, reports: seq<Report>, p: nat)
    requires reports != []
    ensures var n := |reports| - 1;
      Reported(d, config, reports, p) <==>
        Reported(d, config, reports[..n], p) || Matches(d, config, reports[n].name, p)
  {
    var n := |reports| - 1;
    if Reported(d, config, reports[..n], p) {
      var i :| 0 <= i < n && Matches(d, config, reports[..n][i].name, p);
      assert Matches(d, config, reports[i].name, p);
    }
    if Reported(d, config, reports, p) {
      var i :| 0 <= i < |reports| && Matches(d, config, reports[i].name, p);
      assert i < n ==> Matches(d, config, reports[..n][i].name, p);
    }
  }

  lemma LinesFront(d: Directory, config: nat, reports: seq<Report>, answers: nat -> Answers)
    requires d.Valid() && reports != []
    ensures var n, lines := |reports| - 1, Lines(d, config, reports, answers);
      lines[..n] == Lines(d, config, reports[..n], answers) && lines[n] == LineOf(d, config, reports[n], answers(n))
  {
  }

  lemma {:induction false} ResolvedAreReported(d: Directory, config: nat, reports: seq<Report>, answers: nat -> Answers, p: nat)
    requires d.Valid() && Succeed(reports, answers)
    ensures var lines := Lines(d, config, reports, answers);
      && (p in Resolved(lines) <==> Reported(d, config, reports, p))
      && |Resolved(lines)| == Known(d, config, reports)
      && AllWritten(lines) && AllLooked(lines)
    decreases |reports|
  {
    if reports != [] {
      var n := |reports| - 1;
      LinesFront(d, config, reports, answers);
      assert answers(n) == Answers(true, true, true);
      ResolvedAreReported(d, config, reports[..n], answers, p);
      ReportedFront(d, config, reports, p);
      LastLine(d, config, reports[n], p);
    }
  }

  lemma LastLine(d: Directory, config: nat, r: Report, p: nat)
    requires d.Valid()
    ensures var line := LineOf(d, config, r, Answers(true, true, true));
      && (line.hit.Some? <==> IsKnown(d, config, r))
      && (line.hit.Some? && line.hit.value.profile == p <==> Matches(d, config, r.name, p))
  {
    var line := LineOf(d, config, r, Answers(true, true, true));
    if Matches(d, config, r.name, p) {
      MatchIsUnique(d, config, r.name, p, line.hit.value.profile);
    }
  }

  /** When every statement succeeds and at most 256 reports are known, a profile of the config
      has an open session after the tick exactly when some report carries its user's name. */
  lemma OpenAfterDump(rows: seq<Session>, d: Directory, config: nat, reports: seq<Report>, answers: nat -> Answers,
                      now: int, p: nat)
    requires d.Valid() && InConfig(rows, d) && Succeed(reports, answers) && Known(d, config, reports) <= 256
    requires p in d.profiles && d.profiles[p].config == config
    ensures HasOpen(Tick(rows, config, Input(Lines(d, config, reports, answers), now, true)), p)
      <==> Reported(d, config, reports, p)
  {
    var t := Input(Lines(d, config, reports, answers), now, true);
    LinesHitTheConfig(d, config, reports, answers);
    ResolvedAreReported(d, config, reports, answers, p);
    TickAssignsOnline(rows, d, config, t, p);
  }

  lemma LinesHitTheConfig(d: Directory, config: nat, reports: seq<Report>, answers: nat -> Answers)
    requires d.Valid()
    ensures HitsOf(d, config, Lines(d, config, reports, answers))
  {
    var lines := Lines(d, config, reports, answers);
    forall k | 0 <= k < |lines| && lines[k].hit.Some?
      ensures OfConfig(d, config, lines[k].hit.value)
    {
      assert lines[k] == LineOf(d, config, reports[k], answers(k));
    }
  }

  /** What a tick on the lines of a dump keeps. */
  lemma TickOfDump(rows: seq<Session>, d: Directory, config: nat, reports: seq<Report>, answers: nat -> Answers,
                   now: int, closing: bool)
    requires d.Valid()
    ensures
      var t := Input(Lines(d, config, reports, answers), now, closing);
      && (InConfig(rows, d) ==> InConfig(Tick(rows, config, t), d) && TouchesOnly(rows, Tick(rows, config, t), config))
      && (Consistent(rows, d) ==> (Consistent(Tick(rows, config, t), d) <==> forall p :: !LeavesDouble(rows, t, p)))
    ensures InConfig(rows, d) && Succeed(reports, answers) && closing && Known(d, config, reports) <= 256 ==>
      forall p | p in d.profiles && d.profiles[p].config == config ::
        HasOpen(Tick(rows, config, Input(Lines(d, config, reports, answers), now, closing)), p)
        <==> Reported(d, config, reports, p)
  {
    if InConfig(rows, d) && Succeed(reports, answers) && closing && Known(d, config, reports) <= 256 {
      forall p | p in d.profiles && d.profiles[p].config == config
        ensures HasOpen(Tick(rows, config, Input(Lines(d, config, reports, answers), now, closing)), p)
          <==> Reported(d, config, reports, p)
      {
        OpenAfterDump(rows, d, config, reports, answers, now, p);
      }
    }
    var t := Input(Lines(d, config, reports, answers), now, closing);
    LinesHitTheConfig(d, config, reports, answers);
    if InConfig(rows, d) {
      TickKeepsInConfig(rows, d, config, t);
      TickTouchesOnly(rows, d, config, t);
    }
    if Consistent(rows, d) {
      TickKeepsConsistentIff(rows, d, config, t);
    }
  }

  class SessionTable {
    var rows: seq<Session>

    constructor ()
      ensures rows == []
    {
      rows := [];
    }

    /** `UPDATE vpn_sessions SET disconnected_at = NOW() ...`, row by row. */
    method Disconnect(config: nat, online: seq<nat>, now: int)
      modifies this
      ensures rows == CloseMissing(old(rows), config, online, now)
    {
      ghost var before := rows;
      for i := 0 to |rows|
        invariant |rows| == |before|
        invariant forall k | 0 <= k < i :: rows[k] == CloseRow(before[k], config, online, now)
        invariant forall k | i <= k < |rows| :: rows[k] == before[k]
      {
        rows := rows[i := CloseRow(rows[i], config, online, now)];
      }
    }

    /** The body of the loop for one client line: look the name up, note the profile as online
        while there is room, update its open row or insert one. */
    method HandleReport(line: Line, config: nat, online: seq<nat>) returns (more: seq<nat>)
      modifies this
      ensures rows == ObserveLine(old(rows), config, line)
      ensures more == NoteOnline(line, online)
    {
      more := online;
      if line.hit.Some? {
        var hit, r := line.hit.value, line.report;
        if |online| < ONLINE_LIMIT {
          more := online + [hit.profile];
        }
        var k := OpenRow(rows, hit.profile);
        var hasOnline := line.looked && k < |rows|;
        if hasOnline {
          if line.written {
            rows := rows[k := rows[k].(sent := r.sent, received := r.received)];
          }
        } else if line.written {
          rows := rows + [NewSession(config, hit, r)];
        }
      }
    }

    /** The end of the tick: the online list goes to the database as an array literal. */
    method MarkDisconnected(config: nat, online: seq<nat>, now: int)
      requires |Literal(online)| + 1 <= BUFFER_SIZE
      modifies this
      ensures rows == CloseMissing(old(rows), config, online, now)
    {
      if |online| > 0 {
        var idList := BuildIdList(online);
        LiteralParsesBack(online);
        assert ParseArray(CString(idList[..])) == Some(online);
      }
      Disconnect(config, online, now);
    }

    /** `update_sessions`. `answers(k)` is what the statements of the k-th client line meet,
        `closing` whether the server accepts the final statement; the online list has to fit
        its literal. Closed sessions and those of other configs are not touched, and the table
        stays consistent exactly when no profile is left doubled. When everything succeeds and
        at most 256 reports are known, the open sessions of the config are those of the profiles
        whose users are named in the dump. */
    method UpdateSessions(d: Directory, config: nat, status: string, now: int, answers: nat -> Answers, closing: bool)
      requires d.Valid() && IsText(status)
      requires |Literal(Online(Lines(d, config, Reports(status), answers)))| + 1 <= BUFFER_SIZE
      modifies this
      ensures rows == Tick(old(rows), config, Input(Lines(d, config, Reports(status), answers), now, closing))
      ensures InConfig(old(rows), d) ==> InConfig(rows, d) && TouchesOnly(old(rows), rows, config)
      ensures Consistent(old(rows), d) ==> (Consistent(rows, d) <==>
        forall p :: !LeavesDouble(old(rows), Input(Lines(d, config, Reports(status), answers), now, closing), p))
      ensures (InConfig(old(rows), d) && Succeed(Reports(status), answers) && closing
        && Known(d, config, Reports(status)) <= 256) ==>
        forall p | p in d.profiles && d.profiles[p].config == config ::
          HasOpen(rows, p) <==> Reported(d, config, Reports(status), p)
    {
      TickOfDump(rows, d, config, Reports(status), answers, now, closing);
      Reconcile(d, config, status, now, answers, closing);
    }

    /** The loop over the lines of the dump, and the end of the tick. */
    method Reconcile(d: Directory, config: nat, status: string, now: int, answers: nat -> Answers, closing: bool)
      requires d.Valid() && IsText(status)
      requires |Literal(Online(Lines(d, config, Reports(status), answers)))| + 1 <= BUFFER_SIZE
      modifies this
      ensures rows == Tick(old(rows), config, Input(Lines(d, config, Reports(status), answers), now, closing))
    {
      var online := HandleLines(d, config, status, answers);
      if closing {
        MarkDisconnected(config, online, now);
      }
    }

    method HandleLines(d: Directory, config: nat, status: string, answers: nat -> Answers) returns (online: seq<nat>)
      requires d.Valid() && IsText(status)
      modifies this
      ensures rows == ObserveAll(old(rows), config, Lines(d, config, Reports(status), answers))
      ensures online == Online(Lines(d, config, Reports(status), answers))
    {
      ghost var all := Lines(d, config, Reports(status), answers);
      var p, count := 0, 0;
      online := [];
      assert all[..0] == [];
      while p < |status|
        invariant p <= |status| && count <= |all|
        invariant Reports(status)[count..] == ReportsUpTo(status, p, |status|)
        invariant rows == ObserveAll(old(rows), config, all[..count])
        invariant online == Online(all[..count])
        decreases |status| - p
      {
        var report := ParseLine(LineAt(status, p, IndexOf(status, '\n', p)));
        if report.Some? {
          NextReport(status, p, count);
          OneMoreLine(old(rows), config, all, count);
          online := HandleReport(LineOf(d, config, report.value, answers(count)), config, online);
          count := count + 1;
        }
        p := NextLine(status, p, |status|);
      }
      assert all[..count] == all;
    }
  }

  function NoteOnline(line: Line, online: seq<nat>): seq<nat> {
    if line.hit.Some? && |online| < ONLINE_LIMIT then online + [line.hit.value.profile] else online
  }

  lemma OneMoreLine(rows: seq<Session>, config: nat, all: seq<Line>, n: nat)
    requires n < |all|
    ensures ObserveAll(rows, config, all[..n + 1]) == ObserveLine(ObserveAll(rows, config, all[..n]), config, all[n])
    ensures Online(all[..n + 1]) == NoteOnline(all[n], Online(all[..n]))
  {
    assert all[..n + 1][..n] == all[..n];
  }

  lemma NextReport(status: string, p: nat, n: nat)
    requires p < |status| && n <= |Reports(status)|
    requires Reports(status)[n..] == ReportsUpTo(status, p, |status|)
    requires LineReport(status, p, |status|) != []
    ensures n < |Reports(status)| && [Reports(status)[n]] == LineReport(status, p, |status|)
    ensures Reports(status)[n + 1..] == ReportsUpTo(status, NextLine(status, p, |status|), |status|)
  {
    var all := Reports(status);
    assert all[n..][0] == all[n] && all[n..][1..] == all[n + 1..];
  }
}
