/** Whole histories of ticks of one monitor (master/monitor.c, `update_sessions`): the rows of a
    profile are exactly its intervals of presence in the status dumps. */
module SessionHistory {
  import opened Options
  import opened StatusDump
  import opened Sessions

  // ----- the rows of one profile -----

  function RowsOf(rows: seq<Session>, p: nat): seq<Session> {
    if rows == [] then [] else
      var n := |rows| - 1;
      if rows[n].profile == Some(p) then RowsOf(rows[..n], p) + [rows[n]] else RowsOf(rows[..n], p)
  }

  lemma RowsOfOneMore(rows: seq<Session>, row: Session, p: nat)
    ensures RowsOf(rows + [row], p)
         == if row.profile == Some(p) then RowsOf(rows, p) + [row] else RowsOf(rows, p)
  {
    assert (rows + [row])[..|rows|] == rows;
  }

  /** Closing works row by row, so it commutes with picking the rows of a profile. */
  lemma {:induction false} RowsOfClosed(rows: seq<Session>, config: nat, online: seq<nat>, now: int, p: nat)
    ensures RowsOf(CloseMissing(rows, config, online, now), p)
         == CloseMissing(RowsOf(rows, p), config, online, now)
    decreases |rows|
  {
    if rows != [] {
      var n := |rows| - 1;
      assert CloseMissing(rows, config, online, now)[..n] == CloseMissing(rows[..n], config, online, now);
      RowsOfClosed(rows[..n], config, online, now, p);
    }
  }

  lemma {:induction false} RowsOfOtherUpdate(rows: seq<Session>, k: nat, row: Session, p: nat)
    requires k < |rows| && row.profile == rows[k].profile != Some(p)
    ensures RowsOf(rows[k := row], p) == RowsOf(rows, p)
    decreases |rows|
  {
    var n := |rows| - 1;
    if k < n {
      assert rows[k := row][..n] == rows[..n][k := row];
      RowsOfOtherUpdate(rows[..n], k, row, p);
    } else {
      assert rows[k := row][..n] == rows[..n];
    }
  }

  lemma {:induction false} RowsOfLastUpdate(rows: seq<Session>, k: nat, row: Session, p: nat)
    requires k < |rows| && row.profile == rows[k].profile == Some(p)
    requires forall j | k < j < |rows| :: rows[j].profile != Some(p)
    ensures
      var r := RowsOf(rows, p);
      r != [] && r[|r| - 1] == rows[k] && RowsOf(rows[k := row], p) == r[|r| - 1 := row]
    decreases |rows|
  {
    var n := |rows| - 1;
    if k < n {
      assert rows[k := row][..n] == rows[..n][k := row];
      RowsOfLastUpdate(rows[..n], k, row, p);
    } else {
      assert rows[k := row][..n] == rows[..n];
    }
  }

  lemma {:induction false} NoneOpen(rows: seq<Session>, p: nat)
    requires forall i | 0 <= i < |rows| :: !IsOpenFor(rows[i], p)
    ensures forall i | 0 <= i < |RowsOf(rows, p)| :: RowsOf(rows, p)[i].closedAt.Some?
    decreases |rows|
  {
    if rows != [] {
      NoneOpen(rows[..|rows| - 1], p);
      assert !IsOpenFor(rows[|rows| - 1], p);
    }
  }

  predicate LastIsOpen(rs: seq<Session>) {
    rs != [] && rs[|rs| - 1].closedAt.None?
  }

  /** One client line, on the rows of its profile alone. */
  function ObserveOne(rs: seq<Session>, config: nat, hit: Hit, r: Report): seq<Session> {
    if LastIsOpen(rs)
    then rs[|rs| - 1 := rs[|rs| - 1].(sent := r.sent, received := r.received)]
    else rs + [NewSession(config, hit, r)]
  }

  /** With no open row but the last, the first open row is the last. */
  lemma RowsOfObserve(rows: seq<Session>, config: nat, hit: Hit, r: Report, p: nat)
    requires p == hit.profile ==> LastOnly(rows, p)
    ensures RowsOf(Observe(rows, config, hit, r), p)
         == if p == hit.profile then ObserveOne(RowsOf(rows, p), config, hit, r) else RowsOf(rows, p)
  {
    var k := OpenRow(rows, hit.profile);
    if k < |rows| {
      var row := rows[k].(sent := r.sent, received := r.received);
      if p == hit.profile {
        RowsOfLastUpdate(rows, k, row, p);
      } else {
        RowsOfOtherUpdate(rows, k, row, p);
      }
    } else {
      RowsOfOneMore(rows, NewSession(config, hit, r), p);
      NoneOpen(rows, hit.profile);
    }
  }

  /** That only the last row can be open shows in the rows of the profile alone. */
  lemma {:induction false} LastOnlyOfRows(rows: seq<Session>, p: nat)
    ensures LastOnly(rows, p) <==> LastOnly(RowsOf(rows, p), p)
    ensures forall i | 0 <= i < |RowsOf(rows, p)| :: RowsOf(rows, p)[i].profile == Some(p)
    ensures HasOpen(rows, p) <==> HasOpen(RowsOf(rows, p), p)
    decreases |rows|
  {
    if rows != [] {
      var n := |rows| - 1;
      var front, last := rows[..n], rows[n];
      LastOnlyOfRows(front, p);
      assert rows == front + [last];
      LastOnlySnoc(front, last, p);
      LastOnlySnoc(RowsOf(front, p), last, p);
    }
  }

  lemma LastOnlySnoc(rows: seq<Session>, row: Session, p: nat)
    ensures LastOnly(rows + [row], p) <==> LastOnly(rows, p) && (row.profile == Some(p) ==> !HasOpen(rows, p))
    ensures HasOpen(rows + [row], p) <==> HasOpen(rows, p) || IsOpenFor(row, p)
  {
    var t := rows + [row];
    if LastOnly(t, p) {
      forall i, j | 0 <= i < j < |rows| && rows[i].profile == Some(p) && rows[j].profile == Some(p)
        ensures rows[i].closedAt.Some?
      {
        assert t[i] == rows[i] && t[j] == rows[j];
      }
      if row.profile == Some(p) {
        forall i | 0 <= i < |rows|
          ensures !IsOpenFor(rows[i], p)
        {
          assert t[i] == rows[i] && t[|rows|] == row;
        }
      }
    }
    if HasOpen(rows, p) {
      var i :| 0 <= i < |rows| && IsOpenFor(rows[i], p);
      assert IsOpenFor(t[i], p);
    }
    if IsOpenFor(row, p) {
      assert IsOpenFor(t[|rows|], p);
    }
    if HasOpen(t, p) && !IsOpenFor(row, p) {
      var i :| 0 <= i < |t| && IsOpenFor(t[i], p);
      assert IsOpenFor(rows[i], p);
    }
  }

  // ----- what the dumps say about one profile -----

  /** The reports of a dump that resolve to the profile, in order. */
  function Observed(lines: seq<Line>, p: nat): seq<Report> {
    if lines == [] then [] else
      var n := |lines| - 1;
      if lines[n].hit.Some? && lines[n].hit.value.profile == p
      then Observed(lines[..n], p) + [lines[n].report]
      else Observed(lines[..n], p)
  }

  lemma {:induction false} ObservedIffResolved(lines: seq<Line>, p: nat)
    ensures Observed(lines, p) != [] <==> p in Resolved(lines)
    decreases |lines|
  {
    if lines != [] {
      ObservedIffResolved(lines[..|lines| - 1], p);
    }
  }

  /** The reports that carry the name of the profile's user. */
  ghost function Named(d: Directory, config: nat, reports: seq<Report>, p: nat): seq<Report> {
    if reports == [] then [] else
      var n := |reports| - 1;
      Named(d, config, reports[..n], p) + if Matches(d, config, reports[n].name, p) then [reports[n]] else []
  }

  /** When every name query succeeds, these are the reports that resolve to it. */
  lemma {:induction false} ObservedAreNamed(d: Directory, config: nat, reports: seq<Report>, answers: nat -> Answers, p: nat)
    requires d.Valid() && forall k | 0 <= k < |reports| :: answers(k).found
    ensures Observed(Lines(d, config, reports, answers), p) == Named(d, config, reports, p)
    decreases |reports|
  {
    if reports != [] {
      var n := |reports| - 1;
      var line := LineOf(d, config, reports[n], answers(n));
      LinesFront(d, config, reports, answers);
      ObservedAreNamed(d, config, reports[..n], answers, p);
      if Matches(d, config, reports[n].name, p) {
        MatchIsUnique(d, config, reports[n].name, p, line.hit.value.profile);
      }
    }
  }

  predicate Seen(t: Input, p: nat) {
    Observed(t.lines, p) != []
  }

  predicate Listed(t: Input, p: nat) {
    p in Online(t.lines)
  }

  /** The lookups, the writes and the closing of the tick succeed; a name query that fails is
      a line that resolves to nobody. */
  ghost predicate Succeeds(t: Input) {
    AllLooked(t.lines) && AllWritten(t.lines) && t.closing
  }

  /** Every line that resolves to the profile resolves to the same user. */
  ghost predicate NamedAs(lines: seq<Line>, hit: Hit) {
    forall k | 0 <= k < |lines| && lines[k].hit.Some? && lines[k].hit.value.profile == hit.profile ::
      lines[k].hit.value == hit
  }

  /** The intervals of presence: a tick that sees the profile continues the last interval when
      the tick before left the profile online, and begins a new one otherwise. */
  function Intervals(ticks: seq<Input>, p: nat): seq<seq<Report>> {
    if ticks == [] then [] else
      var n := |ticks| - 1;
      Extend(Intervals(ticks[..n], p), LeftOnline(ticks[..n], p), Observed(ticks[n].lines, p))
  }

  predicate LeftOnline(ticks: seq<Input>, p: nat) {
    ticks != [] && Listed(ticks[|ticks| - 1], p)
  }

  function Extend(intervals: seq<seq<Report>>, open: bool, obs: seq<Report>): seq<seq<Report>> {
    if obs == [] then intervals
    else if open && intervals != [] then intervals[|intervals| - 1 := intervals[|intervals| - 1] + obs]
    else intervals + [obs]
  }

  /** The profile comes online: a tick sees it, and the one before did not leave it online. */
  predicate Appears(ticks: seq<Input>, p: nat, k: nat)
    requires k < |ticks|
  {
    Seen(ticks[k], p) && !(k > 0 && Listed(ticks[k - 1], p))
  }

  function Appearances(ticks: seq<Input>, p: nat): set<nat> {
    set k: nat | k < |ticks| && Appears(ticks, p, k)
  }

  /** The same, going by what the dumps show alone. */
  predicate AppearsInDumps(ticks: seq<Input>, p: nat, k: nat)
    requires k < |ticks|
  {
    Seen(ticks[k], p) && !(k > 0 && Seen(ticks[k - 1], p))
  }

  // ----- the rows are the intervals -----

  /** The row of an interval: opened with the data of its first report, it carries the counters
      of its last. */
  ghost predicate RowShows(row: Session, obs: seq<Report>, config: nat, hit: Hit) {
    && obs != []
    && row.profile == Some(hit.profile) && row.user == hit.user && row.config == Some(config)
    && row.virtualIp == obs[0].virtualIp && row.realIp == obs[0].realIp && row.since == obs[0].since
    && row.sent == obs[|obs| - 1].sent && row.received == obs[|obs| - 1].received
  }

  /** The rows `rs` are the closed rows `base`, then one row for each interval; only the last of
      them may be open. */
  ghost predicate Shows(rs: seq<Session>, base: seq<Session>, intervals: seq<seq<Report>>,
                        open: bool, config: nat, hit: Hit)
  {
    && |rs| == |base| + |intervals| && (open ==> intervals != [])
    && (forall k | 0 <= k < |base| :: rs[k] == base[k])
    && (forall k | 0 <= k < |intervals| :: RowShows(rs[|base| + k], intervals[k], config, hit))
    && (forall k | 0 <= k < |rs| :: rs[k].closedAt.None? <==> open && k == |rs| - 1)
  }

  lemma ObserveOneShows(rs: seq<Session>, base: seq<Session>, intervals: seq<seq<Report>>,
                        open: bool, config: nat, hit: Hit, r: Report)
    requires Shows(rs, base, intervals, open, config, hit)
    ensures Shows(ObserveOne(rs, config, hit, r), base, Extend(intervals, open, [r]), true, config, hit)
  {
    if open {
      LastRowShows(rs, base, intervals, config, hit, r);
    } else {
      NewRowShows(rs, base, intervals, config, hit, r);
    }
  }

  lemma LastRowShows(rs: seq<Session>, base: seq<Session>, intervals: seq<seq<Report>>,
                     config: nat, hit: Hit, r: Report)
    requires Shows(rs, base, intervals, true, config, hit)
    ensures Shows(ObserveOne(rs, config, hit, r), base, Extend(intervals, true, [r]), true, config, hit)
  {
  }

  lemma NewRowShows(rs: seq<Session>, base: seq<Session>, intervals: seq<seq<Report>>,
                    config: nat, hit: Hit, r: Report)
    requires Shows(rs, base, intervals, false, config, hit)
    ensures Shows(ObserveOne(rs, config, hit, r), base, Extend(intervals, false, [r]), true, config, hit)
  {
  }

  function ObserveEach(rs: seq<Session>, config: nat, hit: Hit, obs: seq<Report>): seq<Session> {
    if obs == [] then rs else
      ObserveOne(ObserveEach(rs, config, hit, obs[..|obs| - 1]), config, hit, obs[|obs| - 1])
  }

  lemma {:induction false} ObserveEachShows(rs: seq<Session>, base: seq<Session>, intervals: seq<seq<Report>>,
                                            open: bool, config: nat, hit: Hit, obs: seq<Report>)
    requires Shows(rs, base, intervals, open, config, hit)
    ensures Shows(ObserveEach(rs, config, hit, obs), base, Extend(intervals, open, obs),
                  open || obs != [], config, hit)
    decreases |obs|
  {
    if obs != [] {
      var n := |obs| - 1;
      ObserveEachShows(rs, base, intervals, open, config, hit, obs[..n]);
      ObserveOneShows(ObserveEach(rs, config, hit, obs[..n]), base, Extend(intervals, open, obs[..n]),
                      open || obs[..n] != [], config, hit, obs[n]);
      assert obs == obs[..n] + [obs[n]];
      ExtendTwice(intervals, open, obs[..n], [obs[n]]);
    }
  }

  lemma ExtendTwice(intervals: seq<seq<Report>>, open: bool, a: seq<Report>, b: seq<Report>)
    ensures Extend(Extend(intervals, open, a), open || a != [], b) == Extend(intervals, open, a + b)
  {
    if a == [] {
      assert a + b == b;
    } else if b == [] {
      assert a + b == a;
    } else if open && intervals != [] {
      var last := intervals[|intervals| - 1];
      assert (last + a) + b == last + (a + b);
    }
  }

  lemma {:induction false} RowsOfObserveAll(rows: seq<Session>, config: nat, lines: seq<Line>, hit: Hit)
    requires LastOnly(rows, hit.profile) && AllLooked(lines) && AllWritten(lines) && NamedAs(lines, hit)
    ensures RowsOf(ObserveAll(rows, config, lines), hit.profile)
         == ObserveEach(RowsOf(rows, hit.profile), config, hit, Observed(lines, hit.profile))
    decreases |lines|
  {
    if lines != [] {
      var n, p := |lines| - 1, hit.profile;
      var seen := ObserveAll(rows, config, lines[..n]);
      RowsOfObserveAll(rows, config, lines[..n], hit);
      ObserveAllLastOnly(rows, config, lines[..n], p);
      assert !Doubled(rows, lines[..n], p);
      if lines[n].hit.Some? {
        RowsOfObserve(seen, config, lines[n].hit.value, lines[n].report, p);
        var obs := Observed(lines[..n], p);
        assert (obs + [lines[n].report])[..|obs|] == obs;
      }
    }
  }

  lemma CloseShows(rs: seq<Session>, base: seq<Session>, intervals: seq<seq<Report>>, open: bool,
                   config: nat, hit: Hit, online: seq<nat>, now: int)
    requires Shows(rs, base, intervals, open, config, hit)
    ensures Shows(CloseMissing(rs, config, online, now), base, intervals,
                  open && hit.profile in online, config, hit)
  {
    if open {
      assert RowShows(rs[|base| + (|intervals| - 1)], intervals[|intervals| - 1], config, hit);
    }
  }

  /** A run of ticks of the monitor of one config. */
  function Run(rows: seq<Session>, config: nat, ticks: seq<Input>): seq<Session> {
    if ticks == [] then rows else
      var n := |ticks| - 1;
      Tick(Run(rows, config, ticks[..n]), config, ticks[n])
  }

  /** Tick `n` of the run leaves a profile with two open rows. */
  ghost predicate Slips(rows: seq<Session>, config: nat, ticks: seq<Input>, n: nat) {
    n < |ticks| && exists p :: LeavesDouble(Run(rows, config, ticks[..n]), ticks[n], p)
  }

  ghost predicate ConsistentAfter(rows: seq<Session>, d: Directory, config: nat, ticks: seq<Input>, n: nat) {
    n <= |ticks| && Consistent(Run(rows, config, ticks[..n]), d)
  }

  lemma ConsistentAfterOneMore(rows: seq<Session>, d: Directory, config: nat, ticks: seq<Input>, n: nat)
    requires n < |ticks| && HitsOf(d, config, ticks[n].lines) && ConsistentAfter(rows, d, config, ticks, n)
    ensures ConsistentAfter(rows, d, config, ticks, n + 1) <==> !Slips(rows, config, ticks, n)
  {
    var before := Run(rows, config, ticks[..n]);
    assert ticks[..n + 1][..n] == ticks[..n];
    assert Run(rows, config, ticks[..n + 1]) == Tick(before, config, ticks[n]);
    TickKeepsConsistentIff(before, d, config, ticks[n]);
  }

  /** The table is consistent after each tick of a run exactly when no tick slips. */
  lemma {:induction false} RunKeepsConsistentIff(rows: seq<Session>, d: Directory, config: nat, ticks: seq<Input>, n: nat)
    requires Consistent(rows, d) && n <= |ticks|
    requires forall k | 0 <= k < |ticks| :: HitsOf(d, config, ticks[k].lines)
    ensures (forall m | 0 <= m <= n :: ConsistentAfter(rows, d, config, ticks, m))
       <==> forall m | 0 <= m < n :: !Slips(rows, config, ticks, m)
    decreases n
  {
    if n == 0 {
      assert ticks[..0] == [];
      assert ConsistentAfter(rows, d, config, ticks, 0);
    } else {
      RunKeepsConsistentIff(rows, d, config, ticks, n - 1);
      if ConsistentAfter(rows, d, config, ticks, n - 1) {
        ConsistentAfterOneMore(rows, d, config, ticks, n - 1);
      }
    }
  }

  lemma TickShows(rows: seq<Session>, config: nat, t: Input, hit: Hit,
                  base: seq<Session>, intervals: seq<seq<Report>>, open: bool)
    requires Succeeds(t) && NamedAs(t.lines, hit)
    requires Shows(RowsOf(rows, hit.profile), base, intervals, open, config, hit)
    ensures Shows(RowsOf(Tick(rows, config, t), hit.profile), base,
                  Extend(intervals, open, Observed(t.lines, hit.profile)),
                  Listed(t, hit.profile), config, hit)
  {
    var p := hit.profile;
    var obs, online := Observed(t.lines, p), Online(t.lines);
    LastOnlyOfRows(rows, p);
    RowsOfObserveAll(rows, config, t.lines, hit);
    ObserveEachShows(RowsOf(rows, p), base, intervals, open, config, hit, obs);
    RowsOfClosed(ObserveAll(rows, config, t.lines), config, online, t.now, p);
    CloseShows(ObserveEach(RowsOf(rows, p), config, hit, obs), base,
               Extend(intervals, open, obs), open || obs != [], config, hit, online, t.now);
    OnlineAreResolved(t.lines, p);
    ObservedIffResolved(t.lines, p);
  }

  /** The history of a profile: after any run of ticks whose statements succeed, its rows are
      the closed rows it had, then one row for each interval of presence, in order, with the data
      of the interval; and the last one is open exactly when the last tick left it online. */
  lemma {:induction false} RowsAreIntervals(rows: seq<Session>, config: nat, ticks: seq<Input>, hit: Hit)
    requires !HasOpen(rows, hit.profile)
    requires forall k | 0 <= k < |ticks| :: Succeeds(ticks[k]) && NamedAs(ticks[k].lines, hit)
    ensures Shows(RowsOf(Run(rows, config, ticks), hit.profile), RowsOf(rows, hit.profile),
                  Intervals(ticks, hit.profile), LeftOnline(ticks, hit.profile), config, hit)
    decreases |ticks|
  {
    var p := hit.profile;
    if ticks == [] {
      forall i | 0 <= i < |rows|
        ensures !IsOpenFor(rows[i], p)
      {
      }
      NoneOpen(rows, p);
    } else {
      var n := |ticks| - 1;
      RowsAreIntervals(rows, config, ticks[..n], hit);
      TickShows(Run(rows, config, ticks[..n]), config, ticks[n], hit, RowsOf(rows, p),
                Intervals(ticks[..n], p), LeftOnline(ticks[..n], p));
    }
  }

  lemma {:induction false} LeftOnlineHasInterval(ticks: seq<Input>, p: nat)
    requires LeftOnline(ticks, p)
    ensures Intervals(ticks, p) != []
  {
    var t := ticks[|ticks| - 1];
    OnlineAreResolved(t.lines, p);
    ObservedIffResolved(t.lines, p);
  }

  lemma AppearancesOfOneMore(ticks: seq<Input>, p: nat)
    requires ticks != []
    ensures
      var n := |ticks| - 1;
      |Appearances(ticks, p)| == |Appearances(ticks[..n], p)| + if Appears(ticks, p, n) then 1 else 0
  {
    var n := |ticks| - 1;
    var before, after := Appearances(ticks[..n], p), Appearances(ticks, p);
    assert forall k: nat | k < n :: Appears(ticks[..n], p, k) == Appears(ticks, p, k);
    assert after == before + (if Appears(ticks, p, n) then {n} else {});
  }

  /** There is one interval for each appearance. */
  lemma {:induction false} IntervalsAreAppearances(ticks: seq<Input>, p: nat)
    ensures |Intervals(ticks, p)| == |Appearances(ticks, p)|
    decreases |ticks|
  {
    if ticks != [] {
      var front := ticks[..|ticks| - 1];
      IntervalsAreAppearances(front, p);
      AppearancesOfOneMore(ticks, p);
      if LeftOnline(front, p) {
        LeftOnlineHasInterval(front, p);
      }
    }
  }

  /** The rows created for a profile over a run are as many as the ticks that see it and follow
      one that did not leave it online. */
  lemma RowsCreated(rows: seq<Session>, config: nat, ticks: seq<Input>, hit: Hit)
    requires !HasOpen(rows, hit.profile)
    requires forall k | 0 <= k < |ticks| :: Succeeds(ticks[k]) && NamedAs(ticks[k].lines, hit)
    ensures |RowsOf(Run(rows, config, ticks), hit.profile)|
         == |RowsOf(rows, hit.profile)| + |Appearances(ticks, hit.profile)|
  {
    RowsAreIntervals(rows, config, ticks, hit);
    IntervalsAreAppearances(ticks, hit.profile);
  }

  /** With at most 256 entries in every dump, being seen and being left online are the same, so
      the count is that of the ticks that see the profile when the tick before did not. */
  lemma AppearancesOfSmallDumps(ticks: seq<Input>, p: nat)
    requires forall k | 0 <= k < |ticks| :: |Resolved(ticks[k].lines)| <= 256
    ensures Appearances(ticks, p) == set k: nat | k < |ticks| && AppearsInDumps(ticks, p, k)
  {
    forall k | 0 <= k < |ticks|
      ensures Seen(ticks[k], p) <==> Listed(ticks[k], p)
    {
      OnlineAreResolved(ticks[k].lines, p);
      ObservedIffResolved(ticks[k].lines, p);
    }
    assert forall k: nat | k < |ticks| :: Appears(ticks, p, k) == AppearsInDumps(ticks, p, k);
  }
}
