/** Several monitors at work on one vpn_sessions table (master/monitor.c): every SQL statement
    of `update_sessions` is a step of its own, ticks of different configs interleave freely,
    and the web side may change users, profiles and configs in between. */
module SessionInterleaving {
  import opened Options
  import opened StatusDump
  import opened Sessions

  /** Where a monitor stands within its first unread line. */
  datatype Stage = Fetch | Found(hit: Hit) | Ready(hit: Hit, row: Option<nat>)

  /** A client line to come, with what the server will answer to its statements. */
  datatype Task = Task(report: Report, answers: Answers)

  /** The line that a task turns out to be once its name has been looked up. */
  function Met(task: Task, hit: Option<Hit>): Line {
    Line(task.report, hit, task.answers.looked, task.answers.written)
  }

  /** A monitor between ticks, or in one: the lines it has handled and those to come, and its
      online list. */
  datatype Monitor = Idle
    | Busy(done: seq<Line>, rest: seq<Task>, online: seq<nat>, stage: Stage)

  datatype World = World(d: Directory, nextProfile: nat, rows: seq<Session>, monitors: map<nat, Monitor>)

  datatype Event =
    | BeginTick(c: nat, lines: seq<Task>)
    | ResolveName(c: nat)
    | LookUpSession(c: nat)
    | WriteRow(c: nat)
    | FinishTick(c: nat, now: int, closing: bool)
    | ChangeDirectory(d: Directory, nextProfile: nat)
    | DeleteConfig(c: nat)

  predicate InStage(w: World, c: nat) {
    c in w.monitors && w.monitors[c].Busy?
  }

  /** Profile ids are never reused and a profile never moves to another user or config. */
  ghost predicate DirectoryMayBecome(w: World, d: Directory, nextProfile: nat) {
    && d.Valid() && w.nextProfile <= nextProfile
    && forall p | p in d.profiles ::
      if p in w.d.profiles then d.profiles[p] == w.d.profiles[p] else w.nextProfile <= p < nextProfile
  }

  ghost predicate Enabled(w: World, e: Event) {
    match e
    case BeginTick(c, lines) => c in w.monitors && w.monitors[c].Idle?
    case ResolveName(c) => InStage(w, c) && w.monitors[c].stage.Fetch? && w.monitors[c].rest != []
    case LookUpSession(c) => InStage(w, c) && w.monitors[c].stage.Found? && w.monitors[c].rest != []
    case WriteRow(c) => InStage(w, c) && w.monitors[c].stage.Ready? && w.monitors[c].rest != []
    case FinishTick(c, now, closing) => InStage(w, c) && w.monitors[c].stage.Fetch? && w.monitors[c].rest == []
    case ChangeDirectory(d, next) => DirectoryMayBecome(w, d, next)
    case DeleteConfig(c) => forall p | p in w.d.profiles :: w.d.profiles[p].config != c
  }

  function Advance(m: Monitor, hit: Option<Hit>): Monitor
    requires m.Busy? && m.rest != []
  {
    m.(done := m.done + [Met(m.rest[0], hit)], rest := m.rest[1..], stage := Fetch)
  }

  /** What the name query finds now. */
  function NameQuery(d: Directory, c: nat, task: Task): Option<Hit>
    requires d.Valid()
  {
    LineOf(d, c, task.report, task.answers).hit
  }

  /** `ON DELETE SET NULL` */
  function ForgetProfiles(rows: seq<Session>, d: Directory): (t: seq<Session>)
    ensures |t| == |rows|
    ensures forall i | 0 <= i < |rows| ::
      t[i] == if rows[i].profile.Some? && rows[i].profile.value !in d.profiles
              then rows[i].(profile := None) else rows[i]
  {
    seq(|rows|, i requires 0 <= i < |rows| =>
      if rows[i].profile.Some? && rows[i].profile.value !in d.profiles
      then rows[i].(profile := None) else rows[i])
  }

  function ForgetConfig(rows: seq<Session>, c: nat): (t: seq<Session>)
    ensures |t| == |rows|
    ensures forall i | 0 <= i < |rows| ::
      t[i] == if rows[i].config == Some(c) then rows[i].(config := None) else rows[i]
  {
    seq(|rows|, i requires 0 <= i < |rows| =>
      if rows[i].config == Some(c) then rows[i].(config := None) else rows[i])
  }

  /** The third statement for a line: an UPDATE by row id, or an INSERT, which the foreign key
      refuses when the profile is gone. */
  function Write(w: World, c: nat, hit: Hit, row: Option<nat>, line: Task): seq<Session> {
    if !line.answers.written then w.rows
    else if row.Some? then
      if row.value < |w.rows|
      then w.rows[row.value := w.rows[row.value].(sent := line.report.sent, received := line.report.received)]
      else w.rows
    else if hit.profile in w.d.profiles then w.rows + [NewSession(c, hit, line.report)]
    else w.rows
  }

  function Apply(w: World, e: Event): World
    requires w.d.Valid() && Enabled(w, e)
  {
    match e
    case BeginTick(c, lines) =>
      w.(monitors := w.monitors[c := Busy([], lines, [], Fetch)])
    case ResolveName(c) =>
      var m := w.monitors[c];
      var hit := NameQuery(w.d, c, m.rest[0]);
      if hit.None? then w.(monitors := w.monitors[c := Advance(m, None)])
      else w.(monitors := w.monitors[c := m.(online := NoteOnline(Met(m.rest[0], hit), m.online),
                                             stage := Found(hit.value))])
    case LookUpSession(c) =>
      var m := w.monitors[c];
      var k := OpenRow(w.rows, m.stage.hit.profile);
      var row := if m.rest[0].answers.looked && k < |w.rows| then Some(k) else None;
      w.(monitors := w.monitors[c := m.(stage := Ready(m.stage.hit, row))])
    case WriteRow(c) =>
      var m := w.monitors[c];
      w.(rows := Write(w, c, m.stage.hit, m.stage.row, m.rest[0]),
         monitors := w.monitors[c := Advance(m, Some(m.stage.hit))])
    case FinishTick(c, now, closing) =>
      w.(rows := if closing then CloseMissing(w.rows, c, w.monitors[c].online, now) else w.rows,
         monitors := w.monitors[c := Idle])
    case ChangeDirectory(d, next) =>
      w.(d := d, nextProfile := next, rows := ForgetProfiles(w.rows, d))
    case DeleteConfig(c) =>
      w.(rows := ForgetConfig(w.rows, c))
  }

  // ----- what every step keeps -----

  /** A looked up profile still belongs to the config, unless it is gone; what was found in the
      table is still so: the found row is open and nobody else's, and where a lookup that
      succeeded found none there still is none. */
  ghost predicate StageOk(w: World, c: nat, m: Monitor)
    requires m.Busy?
  {
    var stage := m.stage;
    && (!stage.Fetch? ==> m.rest != [] && stage.hit.profile < w.nextProfile)
    && (!stage.Fetch? && stage.hit.profile in w.d.profiles ==> OfConfig(w.d, c, stage.hit))
    && (stage.Ready? && !m.rest[0].answers.looked ==> stage.row.None?)
    && (stage.Ready? && m.rest[0].answers.looked && stage.row.None? && stage.hit.profile in w.d.profiles ==>
          !HasOpen(w.rows, stage.hit.profile))
    && (stage.Ready? && stage.row.Some? ==>
          && stage.row.value < |w.rows|
          && var row := w.rows[stage.row.value];
             && row.closedAt.None? && (row.config == Some(c) || row.config == None)
             && row.profile == if stage.hit.profile in w.d.profiles then Some(stage.hit.profile) else None)
  }

  /** A session of a profile, open or closed, belongs to the config of the profile. */
  ghost predicate AtHome(rows: seq<Session>, d: Directory) {
    forall i | 0 <= i < |rows| && rows[i].profile.Some? ::
      rows[i].profile.value in d.profiles && rows[i].config == Some(d.profiles[rows[i].profile.value].config)
  }

  ghost predicate Inv(w: World) {
    && w.d.Valid() && (forall p | p in w.d.profiles :: p < w.nextProfile)
    && Consistent(w.rows, w.d)
    && AtHome(w.rows, w.d)
    && (forall c | InStage(w, c) :: StageOk(w, c, w.monitors[c]))
  }

  /** The one step that breaks it: a write whose lookup failed, for a profile that has an open
      session by then. */
  ghost predicate Blind(w: World, e: Event)
    requires Enabled(w, e)
  {
    && e.WriteRow?
    && var m := w.monitors[e.c];
       && !m.rest[0].answers.looked && m.rest[0].answers.written
       && m.stage.hit.profile in w.d.profiles && HasOpen(w.rows, m.stage.hit.profile)
  }

  lemma BeginTickKeepsInv(w: World, c: nat, lines: seq<Task>)
    requires Inv(w) && Enabled(w, BeginTick(c, lines))
    ensures Inv(Apply(w, BeginTick(c, lines)))
  {
  }

  lemma ResolveNameKeepsInv(w: World, c: nat)
    requires Inv(w) && Enabled(w, ResolveName(c))
    ensures Inv(Apply(w, ResolveName(c)))
  {
  }

  lemma LookUpSessionKeepsInv(w: World, c: nat)
    requires Inv(w) && Enabled(w, LookUpSession(c))
    ensures Inv(Apply(w, LookUpSession(c)))
  {
    var t := Apply(w, LookUpSession(c));
    var p := w.monitors[c].stage.hit.profile;
    var k := OpenRow(w.rows, p);
    assert StageOk(w, c, w.monitors[c]);
    if k < |w.rows| {
      assert IsOpenFor(w.rows[k], p) && p in w.d.profiles;
      assert w.rows[k].config == Some(w.d.profiles[p].config);
    }
    assert StageOk(t, c, t.monitors[c]);
    forall c' | InStage(t, c')
      ensures StageOk(t, c', t.monitors[c'])
    {
      if c' != c {
        assert StageOk(w, c', w.monitors[c']);
      }
    }
  }

  /** A write lands where the atomic tick would put it, although other monitors and the web side
      may have run since the lookup. */
  lemma WriteIsObserve(w: World, c: nat)
    requires Inv(w) && Enabled(w, WriteRow(c)) && !Blind(w, WriteRow(c))
    requires w.monitors[c].stage.hit.profile in w.d.profiles && w.monitors[c].rest[0].answers.written
    ensures Apply(w, WriteRow(c)).rows
         == Observe(w.rows, c, w.monitors[c].stage.hit, w.monitors[c].rest[0].report)
  {
    var m := w.monitors[c];
    assert StageOk(w, c, m);
    var p, k := m.stage.hit.profile, OpenRow(w.rows, m.stage.hit.profile);
    if m.stage.row.Some? {
      assert IsOpenFor(w.rows[m.stage.row.value], p);
      assert LastOnly(w.rows, p);
      AtMostOneOpen(w.rows, p, m.stage.row.value, k);
    } else if k < |w.rows| {
      HasOpenAt(w.rows, p, k);
    }
  }

  /** The rows after a write: those of the atomic tick, or new counters in an orphaned row of
      this monitor, or no change. */
  lemma WriteCases(w: World, c: nat)
    requires Inv(w) && Enabled(w, WriteRow(c)) && !Blind(w, WriteRow(c))
    ensures
      var m, t := w.monitors[c], Apply(w, WriteRow(c)).rows;
      if m.stage.hit.profile in w.d.profiles && m.rest[0].answers.written
      then t == Observe(w.rows, c, m.stage.hit, m.rest[0].report)
      else |t| == |w.rows| && forall i | 0 <= i < |t| ::
        t[i] == w.rows[i].(sent := t[i].sent, received := t[i].received)
        && (w.rows[i].profile.Some? || w.rows[i].closedAt.Some? ==> t[i] == w.rows[i])
  {
    assert StageOk(w, c, w.monitors[c]);
    if w.monitors[c].stage.hit.profile in w.d.profiles && w.monitors[c].rest[0].answers.written {
      WriteIsObserve(w, c);
    }
  }

  /** Rows that keep their profile or lose it, and stay closed, stay consistent. */
  lemma FadedRowsAreConsistent(rows: seq<Session>, t: seq<Session>, d: Directory, e: Directory)
    requires Consistent(rows, d) && |t| == |rows|
    requires forall i | 0 <= i < |t| :: t[i].profile == rows[i].profile || t[i].profile.None?
    requires forall i | 0 <= i < |t| :: rows[i].closedAt.Some? ==> t[i].closedAt.Some?
    requires InConfig(t, e)
    ensures Consistent(t, e)
  {
    forall p: nat
      ensures LastOnly(t, p)
    {
      assert LastOnly(rows, p);
      forall i, j | 0 <= i < j < |t| && t[i].profile == Some(p) && t[j].profile == Some(p)
        ensures t[i].closedAt.Some?
      {
        assert rows[i].profile == Some(p) && rows[j].profile == Some(p);
      }
    }
  }

  lemma ObserveKeepsConsistent(rows: seq<Session>, d: Directory, c: nat, hit: Hit, r: Report)
    requires Consistent(rows, d) && OfConfig(d, c, hit)
    ensures Consistent(Observe(rows, c, hit, r), d)
  {
    var line := Line(r, Some(hit), true, true);
    assert Observe(rows, c, hit, r) == ObserveLine(rows, c, line);
    ObserveLineKeepsInConfig(rows, d, c, line);
    forall p
      ensures LastOnly(Observe(rows, c, hit, r), p)
    {
      assert LastOnly(rows, p);
      ObserveLineLastOnly(rows, c, line, p);
    }
  }

  lemma WriteKeepsConsistent(w: World, c: nat)
    requires Inv(w) && Enabled(w, WriteRow(c)) && !Blind(w, WriteRow(c))
    ensures Consistent(Apply(w, WriteRow(c)).rows, w.d)
    ensures AtHome(Apply(w, WriteRow(c)).rows, w.d)
  {
    var m, t := w.monitors[c], Apply(w, WriteRow(c)).rows;
    WriteCases(w, c);
    assert StageOk(w, c, m);
    if m.stage.hit.profile in w.d.profiles && m.rest[0].answers.written {
      ObserveKeepsConsistent(w.rows, w.d, c, m.stage.hit, m.rest[0].report);
    } else {
      FadedRowsAreConsistent(w.rows, t, w.d, w.d);
    }
  }

  /** A write does not disturb what another monitor has found. */
  lemma WriteKeepsStage(w: World, c: nat, c': nat)
    requires Inv(w) && Enabled(w, WriteRow(c)) && !Blind(w, WriteRow(c)) && InStage(w, c') && c' != c
    ensures StageOk(Apply(w, WriteRow(c)), c', w.monitors[c'])
  {
    WriteCases(w, c);
    var m, m', t := w.monitors[c], w.monitors[c'], Apply(w, WriteRow(c));
    assert StageOk(w, c, m) && StageOk(w, c', m');
    if !m'.stage.Fetch? && !HasOpen(w.rows, m'.stage.hit.profile) && m'.stage.hit.profile in w.d.profiles {
      forall i | 0 <= i < |t.rows|
        ensures !IsOpenFor(t.rows[i], m'.stage.hit.profile)
      {
        assert i < |w.rows| ==> !IsOpenFor(w.rows[i], m'.stage.hit.profile);
      }
    }
  }

  lemma WriteRowKeepsInv(w: World, c: nat)
    requires Inv(w) && Enabled(w, WriteRow(c)) && !Blind(w, WriteRow(c))
    ensures Inv(Apply(w, WriteRow(c)))
  {
    WriteKeepsConsistent(w, c);
    var t := Apply(w, WriteRow(c));
    forall c' | InStage(t, c')
      ensures StageOk(t, c', t.monitors[c'])
    {
      if c' != c {
        WriteKeepsStage(w, c, c');
      }
    }
  }

  /** A blind write opens a second row. */
  lemma BlindWriteDoubles(w: World, c: nat)
    requires Inv(w) && Enabled(w, WriteRow(c)) && Blind(w, WriteRow(c))
    ensures !Consistent(Apply(w, WriteRow(c)).rows, w.d)
  {
    var m := w.monitors[c];
    var p := m.stage.hit.profile;
    assert StageOk(w, c, m);
    assert Apply(w, WriteRow(c)).rows == ObserveLine(w.rows, c, Met(m.rest[0], Some(m.stage.hit)));
    ObserveLineLastOnly(w.rows, c, Met(m.rest[0], Some(m.stage.hit)), p);
  }

  /** An open row in the table `t` with the profile of an open row in `rows`. */
  lemma StillNoneOpen(rows: seq<Session>, t: seq<Session>, p: nat)
    requires |t| == |rows| && !HasOpen(rows, p)
    requires forall i | 0 <= i < |t| :: IsOpenFor(t[i], p) ==> IsOpenFor(rows[i], p)
    ensures !HasOpen(t, p)
  {
    forall i | 0 <= i < |t|
      ensures !IsOpenFor(t[i], p)
    {
      assert !IsOpenFor(rows[i], p);
    }
  }

  lemma FinishTickKeepsInv(w: World, c: nat, now: int, closing: bool)
    requires Inv(w) && Enabled(w, FinishTick(c, now, closing))
    ensures Inv(Apply(w, FinishTick(c, now, closing)))
  {
    var t := Apply(w, FinishTick(c, now, closing));
    FadedRowsAreConsistent(w.rows, t.rows, w.d, w.d);
    forall c' | InStage(t, c')
      ensures StageOk(t, c', t.monitors[c'])
    {
      var m := w.monitors[c'];
      assert StageOk(w, c', m);
      if !m.stage.Fetch? && !HasOpen(w.rows, m.stage.hit.profile) {
        StillNoneOpen(w.rows, t.rows, m.stage.hit.profile);
      }
    }
  }

  lemma ChangeDirectoryKeepsInv(w: World, d: Directory, next: nat)
    requires Inv(w) && Enabled(w, ChangeDirectory(d, next))
    ensures Inv(Apply(w, ChangeDirectory(d, next)))
  {
    var t := Apply(w, ChangeDirectory(d, next));
    FadedRowsAreConsistent(w.rows, t.rows, w.d, d);
    forall c | InStage(t, c)
      ensures StageOk(t, c, t.monitors[c])
    {
      var m := w.monitors[c];
      assert StageOk(w, c, m);
      if !m.stage.Fetch? && !HasOpen(w.rows, m.stage.hit.profile) {
        StillNoneOpen(w.rows, t.rows, m.stage.hit.profile);
      }
    }
  }

  lemma DeleteConfigKeepsInv(w: World, c: nat)
    requires Inv(w) && Enabled(w, DeleteConfig(c))
    ensures Inv(Apply(w, DeleteConfig(c)))
  {
    var t := Apply(w, DeleteConfig(c));
    FadedRowsAreConsistent(w.rows, t.rows, w.d, w.d);
    forall c' | InStage(t, c')
      ensures StageOk(t, c', t.monitors[c'])
    {
      var m := w.monitors[c'];
      assert StageOk(w, c', m);
      if !m.stage.Fetch? && !HasOpen(w.rows, m.stage.hit.profile) {
        StillNoneOpen(w.rows, t.rows, m.stage.hit.profile);
      }
    }
  }

  /** A step keeps the invariant exactly when it is not a blind write. */
  lemma StepKeepsInvIff(w: World, e: Event)
    requires Inv(w) && Enabled(w, e)
    ensures Inv(Apply(w, e)) <==> !Blind(w, e)
  {
    match e
    case BeginTick(c, lines) => BeginTickKeepsInv(w, c, lines);
    case ResolveName(c) => ResolveNameKeepsInv(w, c);
    case LookUpSession(c) => LookUpSessionKeepsInv(w, c);
    case WriteRow(c) => if Blind(w, e) { BlindWriteDoubles(w, c); } else { WriteRowKeepsInv(w, c); }
    case FinishTick(c, now, closing) => FinishTickKeepsInv(w, c, now, closing);
    case ChangeDirectory(d, next) => ChangeDirectoryKeepsInv(w, d, next);
    case DeleteConfig(c) => DeleteConfigKeepsInv(w, c);
  }

  /** A run: the worlds it goes through, one step apart. */
  ghost predicate IsRun(ws: seq<World>, es: seq<Event>) {
    && |ws| == |es| + 1 && Inv(ws[0])
    && forall i | 0 <= i < |es| ::
      ws[i].d.Valid() && Enabled(ws[i], es[i]) && ws[i + 1] == Apply(ws[i], es[i])
  }

  ghost predicate BlindAt(ws: seq<World>, es: seq<Event>, i: nat)
    requires IsRun(ws, es) && i < |es|
  {
    Enabled(ws[i], es[i]) && Blind(ws[i], es[i])
  }

  /** Over a run the invariant holds up to a moment exactly when no step before was blind. */
  lemma {:induction false} RunKeepsInvIff(ws: seq<World>, es: seq<Event>, n: nat)
    requires IsRun(ws, es) && n < |ws|
    ensures (forall m | 0 <= m <= n :: Inv(ws[m])) <==> (forall i | 0 <= i < n :: !BlindAt(ws, es, i))
    decreases n
  {
    if n > 0 {
      RunKeepsInvIff(ws, es, n - 1);
      if Inv(ws[n - 1]) {
        StepKeepsInvIff(ws[n - 1], es[n - 1]);
        assert Inv(ws[n]) <==> !BlindAt(ws, es, n - 1);
      }
    }
  }

  /** In every state reached without a blind write, under any interleaving of the statements of
      monitors of different configs and of changes by the web side, each profile has at most one
      open session, and that session is in the profile's own config. */
  lemma OneOpenSessionPerProfile(ws: seq<World>, es: seq<Event>, n: nat, p: nat, i: nat, j: nat)
    requires IsRun(ws, es) && n < |ws| && forall k | 0 <= k < n :: !BlindAt(ws, es, k)
    requires i < |ws[n].rows| && j < |ws[n].rows|
    requires IsOpenFor(ws[n].rows[i], p) && IsOpenFor(ws[n].rows[j], p)
    ensures i == j
    ensures p in ws[n].d.profiles && ws[n].rows[i].config == Some(ws[n].d.profiles[p].config)
  {
    RunKeepsInvIff(ws, es, n);
    assert Inv(ws[n]);
    assert LastOnly(ws[n].rows, p);
    AtMostOneOpen(ws[n].rows, p, i, j);
  }

  /** No step changes a closed session, except for references set to NULL by deletions. */
  lemma ClosedSessionsStay(w: World, e: Event, i: nat)
    requires Inv(w) && Enabled(w, e) && i < |w.rows| && w.rows[i].closedAt.Some?
    ensures i < |Apply(w, e).rows|
    ensures
      var row := Apply(w, e).rows[i];
      && row == w.rows[i].(profile := row.profile, config := row.config)
      && (row.profile == w.rows[i].profile || (e.ChangeDirectory? && row.profile.None?))
      && (row.config == w.rows[i].config || (e.DeleteConfig? && row.config.None?))
  {
    if e.WriteRow? {
      assert StageOk(w, e.c, w.monitors[e.c]);
    }
  }
}
