/** Ticks whose statements are interleaved with those of other monitors, and with changes by
    the web side, do to the rows of a profile what whole ticks of its config, one after the
    other, would do (master/monitor.c:66-258). */
module SessionRefinement {
  import opened Options
  import opened Sessions
  import opened SessionHistory
  import opened SessionInterleaving

  /** The ticks of one config that were finished in the first `n` steps. */
  ghost function Ticks(ws: seq<World>, es: seq<Event>, c: nat, n: nat): seq<Input>
    requires IsRun(ws, es) && n <= |es|
  {
    if n == 0 then []
    else if es[n - 1].FinishTick? && es[n - 1].c == c then
      assert Enabled(ws[n - 1], es[n - 1]);
      Ticks(ws, es, c, n - 1) + [Input(ws[n - 1].monitors[c].done, es[n - 1].now, es[n - 1].closing)]
    else Ticks(ws, es, c, n - 1)
  }

  /** The profile belongs to this user and config, or has not been created yet. */
  ghost predicate NotDeleted(w: World, c: nat, hit: Hit) {
    if hit.profile in w.d.profiles then OfConfig(w.d, c, hit) else w.nextProfile <= hit.profile
  }

  /** A profile that is there after a step was there before it, or is new. */
  lemma NotDeletedBefore(w: World, e: Event, c: nat, hit: Hit)
    requires Inv(w) && Enabled(w, e) && NotDeleted(Apply(w, e), c, hit)
    ensures NotDeleted(w, c, hit)
  {
  }

  // --- rows of one profile ---

  lemma {:induction false} RowsOfSame(rows: seq<Session>, t: seq<Session>, p: nat)
    requires |t| == |rows|
    requires forall i | 0 <= i < |rows| :: rows[i].profile == Some(p) || t[i].profile == Some(p) ==> t[i] == rows[i]
    ensures RowsOf(t, p) == RowsOf(rows, p)
    decreases |rows|
  {
    if rows != [] {
      RowsOfSame(rows[..|rows| - 1], t[..|rows| - 1], p);
    }
  }

  lemma {:induction false} RowsOfOther(rows: seq<Session>, config: nat, line: Line, p: nat)
    requires line.hit.Some? ==> line.hit.value.profile != p
    ensures RowsOf(ObserveLine(rows, config, line), p) == RowsOf(rows, p)
  {
    if line.hit.Some? {
      RowsOfObserve(rows, config, line.hit.value, line.report, p);
      RowsOfOneMore(rows, NewSession(config, line.hit.value, line.report), p);
    }
  }

  lemma WriteSparesOthers(w: World, c: nat, p: nat)
    requires Inv(w) && Enabled(w, WriteRow(c)) && !Blind(w, WriteRow(c))
    requires p != w.monitors[c].stage.hit.profile
    ensures RowsOf(Apply(w, WriteRow(c)).rows, p) == RowsOf(w.rows, p)
  {
    var m, t := w.monitors[c], Apply(w, WriteRow(c)).rows;
    WriteCases(w, c);
    if m.stage.hit.profile in w.d.profiles && m.rest[0].answers.written {
      RowsOfObserve(w.rows, c, m.stage.hit, m.rest[0].report, p);
    } else {
      RowsOfSame(w.rows, t, p);
    }
  }

  /** A step that is not one of the profile's own monitor leaves its rows alone. */
  lemma OthersSpare(w: World, e: Event, c: nat, hit: Hit)
    requires Inv(w) && Enabled(w, e) && !Blind(w, e) && (e.ChangeDirectory? || e.DeleteConfig? || e.c != c)
    requires NotDeleted(w, c, hit) && NotDeleted(Apply(w, e), c, hit)
    ensures RowsOf(Apply(w, e).rows, hit.profile) == RowsOf(w.rows, hit.profile)
    ensures c in Apply(w, e).monitors <==> c in w.monitors
    ensures c in w.monitors ==> Apply(w, e).monitors[c] == w.monitors[c]
  {
    if e.WriteRow? {
      assert StageOk(w, e.c, w.monitors[e.c]);
      WriteSparesOthers(w, e.c, hit.profile);
    } else if e.FinishTick? || e.ChangeDirectory? || e.DeleteConfig? {
      RowsOfSame(w.rows, Apply(w, e).rows, hit.profile);
    }
  }

  // --- the simulation ---

  /** The rows of the profile are those of the table `r`, as its monitor's tick has changed it
      so far, and every line that found the profile found it as `hit`. */
  ghost predicate Tracks(w: World, c: nat, hit: Hit, r: seq<Session>) {
    if !InStage(w, c) then RowsOf(w.rows, hit.profile) == RowsOf(r, hit.profile)
    else
      var m := w.monitors[c];
      && RowsOf(w.rows, hit.profile) == RowsOf(ObserveAll(r, c, m.done), hit.profile)
      && NamedAs(m.done, hit)
      && (m.stage.Fetch? ==> m.online == Online(m.done))
      && (!m.stage.Fetch? ==>
            && m.rest != []
            && (m.stage.hit.profile == hit.profile ==> m.stage.hit == hit)
            && m.online == NoteOnline(Met(m.rest[0], Some(m.stage.hit)), Online(m.done)))
  }

  lemma OneMoreDone(r: seq<Session>, c: nat, done: seq<Line>, line: Line)
    ensures ObserveAll(r, c, done + [line]) == ObserveLine(ObserveAll(r, c, done), c, line)
    ensures Online(done + [line]) == NoteOnline(line, Online(done))
  {
    var all, n := done + [line], |done|;
    OneMoreLine(r, c, all, n);
    assert all[..n] == done && all[..n + 1] == all;
  }

  lemma ResolveTracks(w: World, c: nat, hit: Hit, r: seq<Session>)
    requires Inv(w) && Enabled(w, ResolveName(c)) && Tracks(w, c, hit, r) && NotDeleted(w, c, hit)
    ensures Tracks(Apply(w, ResolveName(c)), c, hit, r)
  {
    var m := w.monitors[c];
    var found := NameQuery(w.d, c, m.rest[0]);
    if found.Some? {
      FoundTracks(w, c, hit, r, found.value);
    } else {
      OneMoreDone(r, c, m.done, Met(m.rest[0], None));
    }
  }

  lemma FoundTracks(w: World, c: nat, hit: Hit, r: seq<Session>, found: Hit)
    requires Inv(w) && Enabled(w, ResolveName(c)) && Tracks(w, c, hit, r) && NotDeleted(w, c, hit)
    requires NameQuery(w.d, c, w.monitors[c].rest[0]) == Some(found)
    ensures Tracks(Apply(w, ResolveName(c)), c, hit, r)
  {
    assert OfConfig(w.d, c, found);
  }

  lemma WriteTracks(w: World, c: nat, hit: Hit, r: seq<Session>)
    requires Inv(w) && Enabled(w, WriteRow(c)) && !Blind(w, WriteRow(c))
    requires Tracks(w, c, hit, r) && NotDeleted(w, c, hit)
    ensures Tracks(Apply(w, WriteRow(c)), c, hit, r)
  {
    var m, p := w.monitors[c], hit.profile;
    var line := Met(m.rest[0], Some(m.stage.hit));
    var seen := ObserveAll(r, c, m.done);
    assert StageOk(w, c, m);
    OneMoreDone(r, c, m.done, line);
    if m.stage.hit.profile != p {
      WriteSparesOthers(w, c, p);
      RowsOfOther(seen, c, line, p);
    } else if line.written {
      WriteIsObserve(w, c);
      OwnWriteTracks(w.rows, seen, c, line);
    }
  }

  /** A line does the same to the rows of its profile in two tables that agree on them. */
  lemma OwnWriteTracks(rows: seq<Session>, seen: seq<Session>, c: nat, line: Line)
    requires line.hit.Some? && line.written
    requires RowsOf(rows, line.hit.value.profile) == RowsOf(seen, line.hit.value.profile)
    requires LastOnly(rows, line.hit.value.profile)
    requires line.looked || !HasOpen(rows, line.hit.value.profile)
    ensures RowsOf(Observe(rows, c, line.hit.value, line.report), line.hit.value.profile)
      == RowsOf(ObserveLine(seen, c, line), line.hit.value.profile)
  {
    var hit, report := line.hit.value, line.report;
    var p := hit.profile;
    LastOnlyOfRows(rows, p);
    LastOnlyOfRows(seen, p);
    RowsOfObserve(rows, c, hit, report, p);
    RowsOfObserve(seen, c, hit, report, p);
    if !line.looked && OpenRow(seen, p) < |seen| {
      HasOpenAt(seen, p, OpenRow(seen, p));
    }
  }

  lemma FinishTracks(w: World, c: nat, now: int, closing: bool, hit: Hit, r: seq<Session>)
    requires Inv(w) && Enabled(w, FinishTick(c, now, closing)) && Tracks(w, c, hit, r)
    ensures Tracks(Apply(w, FinishTick(c, now, closing)), c, hit, Tick(r, c, Input(w.monitors[c].done, now, closing)))
  {
    var m := w.monitors[c];
    RowsOfClosed(w.rows, c, m.online, now, hit.profile);
    RowsOfClosed(ObserveAll(r, c, m.done), c, m.online, now, hit.profile);
  }

  lemma StepTracks(w: World, e: Event, c: nat, hit: Hit, r: seq<Session>)
    requires Inv(w) && Enabled(w, e) && !Blind(w, e)
    requires NotDeleted(w, c, hit) && NotDeleted(Apply(w, e), c, hit) && Tracks(w, c, hit, r)
    ensures Tracks(Apply(w, e), c, hit,
      if e.FinishTick? && e.c == c then Tick(r, c, Input(w.monitors[c].done, e.now, e.closing)) else r)
  {
    if e.ChangeDirectory? || e.DeleteConfig? || e.c != c {
      OthersSpare(w, e, c, hit);
    } else {
      match e
      case BeginTick(_, _) =>
      case ResolveName(_) => ResolveTracks(w, c, hit, r);
      case LookUpSession(_) =>
      case WriteRow(_) => WriteTracks(w, c, hit, r);
      case FinishTick(_, now, closing) => FinishTracks(w, c, now, closing, hit, r);
    }
  }

  lemma RunOfOneMore(rows: seq<Session>, c: nat, ticks: seq<Input>, t: Input)
    ensures Run(rows, c, ticks + [t]) == Tick(Run(rows, c, ticks), c, t)
  {
    assert (ticks + [t])[..|ticks|] == ticks;
  }

  lemma {:induction false} RunTracks(ws: seq<World>, es: seq<Event>, c: nat, hit: Hit, n: nat)
    requires IsRun(ws, es) && n <= |es| && !InStage(ws[0], c)
    requires forall k | 0 <= k < n :: !BlindAt(ws, es, k)
    requires NotDeleted(ws[n], c, hit)
    ensures Tracks(ws[n], c, hit, Run(ws[0].rows, c, Ticks(ws, es, c, n)))
    ensures forall k | 0 <= k < |Ticks(ws, es, c, n)| :: NamedAs(Ticks(ws, es, c, n)[k].lines, hit)
    decreases n
  {
    if n > 0 {
      RunKeepsInvIff(ws, es, n - 1);
      var w, e := ws[n - 1], es[n - 1];
      assert Inv(w) && !BlindAt(ws, es, n - 1);
      NotDeletedBefore(w, e, c, hit);
      RunTracks(ws, es, c, hit, n - 1);
      LastStepTracks(ws, es, c, hit, n, Ticks(ws, es, c, n - 1));
    }
  }

  lemma LastStepTracks(ws: seq<World>, es: seq<Event>, c: nat, hit: Hit, n: nat, before: seq<Input>)
    requires IsRun(ws, es) && 0 < n <= |es| && before == Ticks(ws, es, c, n - 1)
    requires Inv(ws[n - 1]) && !BlindAt(ws, es, n - 1)
    requires NotDeleted(ws[n - 1], c, hit) && NotDeleted(ws[n], c, hit)
    requires Tracks(ws[n - 1], c, hit, Run(ws[0].rows, c, before))
    requires forall k | 0 <= k < |before| :: NamedAs(before[k].lines, hit)
    ensures Tracks(ws[n], c, hit, Run(ws[0].rows, c, Ticks(ws, es, c, n)))
    ensures forall k | 0 <= k < |Ticks(ws, es, c, n)| :: NamedAs(Ticks(ws, es, c, n)[k].lines, hit)
  {
    var w, e := ws[n - 1], es[n - 1];
    StepTracks(w, e, c, hit, Run(ws[0].rows, c, before));
    if e.FinishTick? && e.c == c {
      RunOfOneMore(ws[0].rows, c, before, Input(w.monitors[c].done, e.now, e.closing));
    }
  }

  /** However the statements of several monitors interleave, and whatever the web side does in
      between, whenever the monitor of a config is between ticks, the rows of each of its
      profiles are those that its own ticks, run whole and alone from the first table, would
      have left. */
  lemma InterleavedTicksAreSequential(ws: seq<World>, es: seq<Event>, c: nat, p: nat, n: nat)
    requires IsRun(ws, es) && n <= |es| && !InStage(ws[0], c) && !InStage(ws[n], c)
    requires forall k | 0 <= k < n :: !BlindAt(ws, es, k)
    requires p in ws[n].d.profiles && ws[n].d.profiles[p].config == c
    ensures RowsOf(ws[n].rows, p) == RowsOf(Run(ws[0].rows, c, Ticks(ws, es, c, n)), p)
  {
    RunTracks(ws, es, c, Hit(ws[n].d.profiles[p].user, p), n);
  }

  /** So the history of a profile is that of its intervals of presence, interleaved or not. */
  lemma InterleavedRowsAreIntervals(ws: seq<World>, es: seq<Event>, c: nat, p: nat, n: nat)
    requires IsRun(ws, es) && n <= |es| && !InStage(ws[0], c) && !InStage(ws[n], c)
    requires forall k | 0 <= k < n :: !BlindAt(ws, es, k)
    requires p in ws[n].d.profiles && ws[n].d.profiles[p].config == c && !HasOpen(ws[0].rows, p)
    requires forall k | 0 <= k < |Ticks(ws, es, c, n)| :: Succeeds(Ticks(ws, es, c, n)[k])
    ensures var ticks := Ticks(ws, es, c, n);
      Shows(RowsOf(ws[n].rows, p), RowsOf(ws[0].rows, p), Intervals(ticks, p), LeftOnline(ticks, p),
            c, Hit(ws[n].d.profiles[p].user, p))
  {
    var hit, ticks := Hit(ws[n].d.profiles[p].user, p), Ticks(ws, es, c, n);
    RunTracks(ws, es, c, hit, n);
    RowsAreIntervals(ws[0].rows, c, ticks, hit);
  }

  // --- the lines of a tick are those it began with ---

  /** The client lines that the last tick of the config was begun with. */
  ghost function Begun(es: seq<Event>, c: nat, n: nat): seq<Task>
    requires n <= |es|
  {
    if n == 0 then []
    else if es[n - 1].BeginTick? && es[n - 1].c == c then es[n - 1].lines
    else Begun(es, c, n - 1)
  }

  /** A line reports what the task says and meets its answers. */
  predicate IsOf(line: Line, task: Task) {
    line.report == task.report && line.looked == task.answers.looked && line.written == task.answers.written
  }

  /** The monitor has done the first lines, in order, and the others are to come. */
  ghost predicate WorksOn(m: Monitor, lines: seq<Task>) {
    m.Busy? ==>
      && |m.done| + |m.rest| == |lines|
      && (forall k | 0 <= k < |m.done| :: IsOf(m.done[k], lines[k]))
      && (forall k | 0 <= k < |m.rest| :: m.rest[k] == lines[|m.done| + k])
  }

  lemma AdvanceWorksOn(m: Monitor, hit: Option<Hit>, lines: seq<Task>)
    requires m.Busy? && m.rest != [] && WorksOn(m, lines)
    ensures WorksOn(Advance(m, hit), lines)
  {
    var t := Advance(m, hit);
    assert forall k | 0 <= k < |m.done| :: t.done[k] == m.done[k];
    assert t.done[|m.done|] == Met(m.rest[0], hit) && m.rest[0] == lines[|m.done| + 0];
    assert forall k | 0 <= k < |t.rest| :: t.rest[k] == m.rest[k + 1];
  }

  lemma SameWork(m: Monitor, t: Monitor, lines: seq<Task>)
    requires WorksOn(m, lines) && (t.Busy? ==> m.Busy? && t.done == m.done && t.rest == m.rest)
    ensures WorksOn(t, lines)
  {
  }

  lemma ResolveWorksOn(w: World, c: nat, lines: seq<Task>)
    requires w.d.Valid() && Enabled(w, ResolveName(c)) && WorksOn(w.monitors[c], lines)
    ensures WorksOn(Apply(w, ResolveName(c)).monitors[c], lines)
  {
    AdvanceWorksOn(w.monitors[c], None, lines);
    if NameQuery(w.d, c, w.monitors[c].rest[0]).Some? {
      SameWork(w.monitors[c], Apply(w, ResolveName(c)).monitors[c], lines);
    }
  }

  lemma StepWorksOn(w: World, e: Event, c: nat, lines: seq<Task>)
    requires w.d.Valid() && Enabled(w, e)
    requires c in w.monitors ==> WorksOn(w.monitors[c], lines)
    ensures c in Apply(w, e).monitors ==>
      WorksOn(Apply(w, e).monitors[c], if e.BeginTick? && e.c == c then e.lines else lines)
  {
    if e.ChangeDirectory? || e.DeleteConfig? || e.c != c {
      assert c in Apply(w, e).monitors ==> c in w.monitors && Apply(w, e).monitors[c] == w.monitors[c];
    } else {
      match e
      case BeginTick(_, _) =>
      case ResolveName(_) => ResolveWorksOn(w, c, lines);
      case LookUpSession(_) => SameWork(w.monitors[c], Apply(w, e).monitors[c], lines);
      case WriteRow(_) => AdvanceWorksOn(w.monitors[c], Some(w.monitors[c].stage.hit), lines);
      case FinishTick(_, _, _) =>
    }
  }

  lemma {:induction false} RunWorksOn(ws: seq<World>, es: seq<Event>, c: nat, n: nat)
    requires IsRun(ws, es) && n <= |es| && !InStage(ws[0], c)
    ensures c in ws[n].monitors ==> WorksOn(ws[n].monitors[c], Begun(es, c, n))
    decreases n
  {
    if n > 0 {
      RunWorksOn(ws, es, c, n - 1);
      StepWorksOn(ws[n - 1], es[n - 1], c, Begun(es, c, n - 1));
    }
  }

  /** A finished tick has handled exactly the lines that it was begun with, in their order. */
  lemma FinishedTicksAreWhole(ws: seq<World>, es: seq<Event>, c: nat, n: nat)
    requires IsRun(ws, es) && n < |es| && !InStage(ws[0], c) && es[n].FinishTick? && es[n].c == c
    ensures var ticks, lines := Ticks(ws, es, c, n + 1), Begun(es, c, n);
      && ticks != [] && |ticks[|ticks| - 1].lines| == |lines|
      && forall k | 0 <= k < |lines| :: IsOf(ticks[|ticks| - 1].lines[k], lines[k])
  {
    RunWorksOn(ws, es, c, n);
    assert Enabled(ws[n], es[n]);
  }
}
