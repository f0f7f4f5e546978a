/** The registry calls of several threads, interleaved at the granularity of the two
    mutexes (master/monitor.c:28-44, 366-403). Calls for one configuration are serialised,
    so a configuration has one program counter; calls for different configurations
    interleave freely. */
module RegistryInterleaving {
  import opened MonitorRegistry

  datatype Ctx = Ctx(configId: int, running: bool)

  /** Where the call for a configuration stands; `ctx` is the context that it looked up, held
      as a position in the table, since contexts are only appended. */
  datatype Pc =
    | Idle
    | StartCalled | StartLooked(ctx: nat) | StartFlagged(ctx: nat) | StartCreated(ctx: nat)
    | StopCalled | StopLooked(ctx: nat) | StopUnflagged(ctx: nat) | StopJoined(ctx: nat)

  /** `dropped` records the starts that found the list full. */
  datatype State = State(ctxs: seq<Ctx>, list: seq<int>, pcs: map<int, Pc>, dropped: set<int>)

  /** One atomic step of the call for configuration `c`. */
  datatype Step =
    | CallStart(c: int)
    | CallStop(c: int)
    | Lookup(c: int)
    | Test(c: int)
    | Create(c: int, ok: bool)
    | Append(c: int)
    | Join(c: int)
    | Remove(c: int)

  function PcOf(s: State, c: int): Pc {
    if c in s.pcs then s.pcs[c] else Idle
  }

  function At(s: State, c: int, pc: Pc): State {
    s.(pcs := s.pcs[c := pc])
  }

  function SetRunning(s: State, k: nat, running: bool): State
    requires k < |s.ctxs|
  {
    s.(ctxs := s.ctxs[k := s.ctxs[k].(running := running)])
  }

  /** The loop of `get_monitor_ctx`. */
  function Position(ctxs: seq<Ctx>, c: int): (k: nat)
    ensures k <= |ctxs|
    ensures k < |ctxs| ==> ctxs[k].configId == c
    ensures forall j | 0 <= j < k :: ctxs[j].configId != c
  {
    if |ctxs| == 0 || ctxs[0].configId == c then 0 else 1 + Position(ctxs[1..], c)
  }

  function Found(s: State, c: int): State {
    if Position(s.ctxs, c) < |s.ctxs| then s else s.(ctxs := s.ctxs + [Ctx(c, false)])
  }

  predicate Enabled(s: State, step: Step) {
    var pc := PcOf(s, step.c);
    match step
    case CallStart(_) => pc.Idle?
    case CallStop(_) => pc.Idle?
    case Lookup(_) => pc.StartCalled? || pc.StopCalled?
    case Test(_) => (pc.StartLooked? || pc.StopLooked?) && pc.ctx < |s.ctxs|
    case Create(_, _) => pc.StartFlagged? && pc.ctx < |s.ctxs|
    case Append(_) => pc.StartCreated?
    case Join(_) => pc.StopUnflagged?
    case Remove(_) => pc.StopJoined?
  }

  function Apply(s: State, step: Step): State
    requires Enabled(s, step)
  {
    var c, pc := step.c, PcOf(s, step.c);
    match step
    case CallStart(_) => At(s, c, StartCalled)
    case CallStop(_) => At(s, c, StopCalled)
    case Lookup(_) =>
      var k := Position(s.ctxs, c);
      At(Found(s, c), c, if pc.StartCalled? then StartLooked(k) else StopLooked(k))
    case Test(_) =>
      if pc.StartLooked? then
        if s.ctxs[pc.ctx].running then At(s, c, Idle)
        else At(SetRunning(s, pc.ctx, true), c, StartFlagged(pc.ctx))
      else
        if s.ctxs[pc.ctx].running then At(SetRunning(s, pc.ctx, false), c, StopUnflagged(pc.ctx))
        else At(s, c, Idle)
    case Create(_, ok) =>
      if ok then At(s, c, StartCreated(pc.ctx)) else At(SetRunning(s, pc.ctx, false), c, Idle)
    case Append(_) =>
      if |s.list| < SLOTS then At(s, c, Idle).(list := s.list + [c])
      else At(s, c, Idle).(dropped := s.dropped + {c})
    case Join(_) => At(s, c, StopJoined(pc.ctx))
    case Remove(_) => At(s, c, Idle).(list := SwapRemove(s.list, c), dropped := s.dropped - {c})
  }

  /** `running == 1` in the context of `c`. */
  ghost predicate Flagged(s: State, c: int) {
    exists k :: 0 <= k < |s.ctxs| && s.ctxs[k] == Ctx(c, true)
  }

  /** Calls that have changed the flag and not yet the list. */
  predicate Starting(pc: Pc) {
    pc.StartFlagged? || pc.StartCreated?
  }

  predicate Stopping(pc: Pc) {
    pc.StopUnflagged? || pc.StopJoined?
  }

  ghost predicate ListedOrDropped(s: State, c: int) {
    c in s.list || c in s.dropped
  }

  ghost predicate OnePerConfig(ctxs: seq<Ctx>) {
    forall i, j | 0 <= i < j < |ctxs| :: ctxs[i].configId != ctxs[j].configId
  }

  /** The looked-up context is still the one of the configuration. */
  ghost predicate PcOk(s: State, c: int) {
    var pc := PcOf(s, c);
    pc.Idle? || pc.StartCalled? || pc.StopCalled? || (pc.ctx < |s.ctxs| && s.ctxs[pc.ctx].configId == c)
  }

  /** Flag and list of one configuration agree, up to a call that is between the two. */
  ghost predicate Agrees(s: State, c: int) {
    && (Starting(PcOf(s, c)) ==> Flagged(s, c) && !ListedOrDropped(s, c))
    && (Stopping(PcOf(s, c)) ==> !Flagged(s, c) && ListedOrDropped(s, c))
    && (!Starting(PcOf(s, c)) && !Stopping(PcOf(s, c)) ==> (Flagged(s, c) <==> ListedOrDropped(s, c)))
  }

  ghost predicate Inv(s: State) {
    && OnePerConfig(s.ctxs)
    && Distinct(s.list) && |s.list| <= SLOTS
    && (forall c | c in s.dropped :: c !in s.list)
    && (forall c :: PcOk(s, c))
    && (forall c :: Agrees(s, c))
  }

  const EMPTY: State := State([], [], map[], {})

  /** States reached from the empty registry by a finite run of enabled steps. */
  ghost predicate IsRun(s: State, steps: seq<Step>, t: State)
    decreases |steps|
  {
    if steps == [] then s == t
    else Enabled(s, steps[0]) && IsRun(Apply(s, steps[0]), steps[1..], t)
  }

  // --- what every step keeps ---

  /** The registry as far as a call for another configuration sees it. */
  ghost predicate SameFor(s: State, t: State, d: int) {
    && PcOf(t, d) == PcOf(s, d)
    && (Flagged(t, d) <==> Flagged(s, d))
    && (ListedOrDropped(t, d) <==> ListedOrDropped(s, d))
  }

  ghost predicate Table(s: State) {
    && OnePerConfig(s.ctxs)
    && Distinct(s.list) && |s.list| <= SLOTS
    && (forall c | c in s.dropped :: c !in s.list)
  }

  /** Contexts stay where they are. */
  ghost predicate Stays(s: State, t: State) {
    |s.ctxs| <= |t.ctxs| && forall k | 0 <= k < |s.ctxs| :: t.ctxs[k].configId == s.ctxs[k].configId
  }

  /** With one context per configuration, the flag is the one in that context. */
  lemma FlagAt(s: State, c: int, k: nat)
    requires OnePerConfig(s.ctxs) && k < |s.ctxs| && s.ctxs[k].configId == c
    ensures Flagged(s, c) <==> s.ctxs[k].running
  {
    if Flagged(s, c) {
      var j :| 0 <= j < |s.ctxs| && s.ctxs[j] == Ctx(c, true);
    }
    assert s.ctxs[k].running ==> s.ctxs[k] == Ctx(c, true);
  }

  lemma SetRunningFlags(s: State, k: nat, running: bool)
    requires OnePerConfig(s.ctxs) && k < |s.ctxs|
    ensures var t := SetRunning(s, k, running);
      && OnePerConfig(t.ctxs) && Stays(s, t)
      && (Flagged(t, s.ctxs[k].configId) <==> running)
      && forall d | d != s.ctxs[k].configId :: Flagged(t, d) <==> Flagged(s, d)
  {
    var t, c := SetRunning(s, k, running), s.ctxs[k].configId;
    FlagAt(t, c, k);
    forall d | d != c
      ensures Flagged(t, d) <==> Flagged(s, d)
    {
      if Flagged(s, d) {
        var j :| 0 <= j < |s.ctxs| && s.ctxs[j] == Ctx(d, true);
        assert t.ctxs[j] == Ctx(d, true);
      }
      if Flagged(t, d) {
        var j :| 0 <= j < |t.ctxs| && t.ctxs[j] == Ctx(d, true);
        assert s.ctxs[j] == Ctx(d, true);
      }
    }
  }

  lemma FoundFlags(s: State, c: int)
    requires OnePerConfig(s.ctxs)
    ensures var t := Found(s, c);
      && OnePerConfig(t.ctxs) && Stays(s, t)
      && Position(s.ctxs, c) < |t.ctxs| && t.ctxs[Position(s.ctxs, c)].configId == c
      && forall d :: Flagged(t, d) <==> Flagged(s, d)
  {
    var t := Found(s, c);
    forall d
      ensures Flagged(t, d) <==> Flagged(s, d)
    {
      if Flagged(s, d) {
        var j :| 0 <= j < |s.ctxs| && s.ctxs[j] == Ctx(d, true);
        assert t.ctxs[j] == Ctx(d, true);
      }
      if Flagged(t, d) {
        var j :| 0 <= j < |t.ctxs| && t.ctxs[j] == Ctx(d, true);
        assert s.ctxs[j] == Ctx(d, true);
      }
    }
  }

  /** A step of `c` that leaves the tables alone for everyone else, and itself consistent. */
  lemma LocalStepKeepsInv(s: State, t: State, c: int)
    requires Inv(s) && Table(t) && Stays(s, t)
    requires PcOk(t, c) && Agrees(t, c)
    requires forall d | d != c :: SameFor(s, t, d)
    ensures Inv(t)
  {
    forall d
      ensures PcOk(t, d) && Agrees(t, d)
    {
      assert PcOk(s, d) && Agrees(s, d);
      assert d == c || SameFor(s, t, d);
    }
  }

  lemma LookupKeepsInv(s: State, c: int)
    requires Inv(s) && Enabled(s, Lookup(c))
    ensures Inv(Apply(s, Lookup(c)))
  {
    var t := Apply(s, Lookup(c));
    FoundFlags(s, c);
    forall d
      ensures Flagged(t, d) <==> Flagged(Found(s, c), d)
    {
    }
    assert Agrees(s, c);
    LocalStepKeepsInv(s, t, c);
  }

  lemma TestKeepsInv(s: State, c: int)
    requires Inv(s) && Enabled(s, Test(c))
    ensures Inv(Apply(s, Test(c)))
  {
    var t, pc := Apply(s, Test(c)), PcOf(s, c);
    assert PcOk(s, c) && Agrees(s, c);
    FlagAt(s, c, pc.ctx);
    SetRunningFlags(s, pc.ctx, pc.StartLooked?);
    var u := if pc.StartLooked? == s.ctxs[pc.ctx].running then s else SetRunning(s, pc.ctx, pc.StartLooked?);
    forall d
      ensures Flagged(t, d) <==> Flagged(u, d)
    {
    }
    LocalStepKeepsInv(s, t, c);
  }

  lemma CreateKeepsInv(s: State, c: int, ok: bool)
    requires Inv(s) && Enabled(s, Create(c, ok))
    ensures Inv(Apply(s, Create(c, ok)))
  {
    var t, pc := Apply(s, Create(c, ok)), PcOf(s, c);
    assert PcOk(s, c) && Agrees(s, c);
    SetRunningFlags(s, pc.ctx, false);
    var u := if ok then s else SetRunning(s, pc.ctx, false);
    forall d
      ensures Flagged(t, d) <==> Flagged(u, d)
    {
    }
    LocalStepKeepsInv(s, t, c);
  }

  lemma AppendKeepsInv(s: State, c: int)
    requires Inv(s) && Enabled(s, Append(c))
    ensures Inv(Apply(s, Append(c)))
  {
    var t := Apply(s, Append(c));
    assert PcOk(s, c) && Agrees(s, c);
    forall d
      ensures Flagged(t, d) <==> Flagged(s, d)
    {
    }
    LocalStepKeepsInv(s, t, c);
  }

  lemma RemoveKeepsInv(s: State, c: int)
    requires Inv(s) && Enabled(s, Remove(c))
    ensures Inv(Apply(s, Remove(c)))
  {
    var t := Apply(s, Remove(c));
    assert PcOk(s, c) && Agrees(s, c);
    SwapRemoveTakesOne(s.list, c);
    forall d
      ensures Flagged(t, d) <==> Flagged(s, d)
    {
    }
    LocalStepKeepsInv(s, t, c);
  }

  lemma StepKeepsInv(s: State, step: Step)
    requires Inv(s) && Enabled(s, step)
    ensures Inv(Apply(s, step))
  {
    match step
    case Lookup(c) => LookupKeepsInv(s, c);
    case Test(c) => TestKeepsInv(s, c);
    case Create(c, ok) => CreateKeepsInv(s, c, ok);
    case Append(c) => AppendKeepsInv(s, c);
    case Remove(c) => RemoveKeepsInv(s, c);
    case CallStart(c) => CallKeepsInv(s, step);
    case CallStop(c) => CallKeepsInv(s, step);
    case Join(c) => CallKeepsInv(s, step);
  }

  lemma CallKeepsInv(s: State, step: Step)
    requires Inv(s) && Enabled(s, step) && (step.CallStart? || step.CallStop? || step.Join?)
    ensures Inv(Apply(s, step))
  {
    var t := Apply(s, step);
    assert PcOk(s, step.c) && Agrees(s, step.c);
    forall d
      ensures Flagged(t, d) <==> Flagged(s, d)
    {
    }
    LocalStepKeepsInv(s, t, step.c);
  }

  lemma {:induction false} RunKeepsInv(s: State, steps: seq<Step>, t: State)
    requires Inv(s) && IsRun(s, steps, t)
    ensures Inv(t)
    decreases |steps|
  {
    if steps != [] {
      StepKeepsInv(s, steps[0]);
      RunKeepsInv(Apply(s, steps[0]), steps[1..], t);
    }
  }

  /** In every reachable state the list has no duplicates and at most 32 entries, a
      configuration has at most one context, and outside the calls that are between the
      flag and the list, a configuration is flagged exactly when it is listed, or was
      started while the list was full. */
  lemma RegistryAgrees(steps: seq<Step>, t: State)
    requires IsRun(EMPTY, steps, t)
    ensures Distinct(t.list) && |t.list| <= 32 && OnePerConfig(t.ctxs)
    ensures forall c | !Starting(PcOf(t, c)) && !Stopping(PcOf(t, c)) ::
      Flagged(t, c) <==> c in t.list || c in t.dropped
    ensures forall c | Starting(PcOf(t, c)) :: Flagged(t, c) && c !in t.list
    ensures forall c | Stopping(PcOf(t, c)) :: !Flagged(t, c)
  {
    RunKeepsInv(EMPTY, steps, t);
    forall c
      ensures !Starting(PcOf(t, c)) && !Stopping(PcOf(t, c)) ==> (Flagged(t, c) <==> c in t.list || c in t.dropped)
      ensures Starting(PcOf(t, c)) ==> Flagged(t, c) && c !in t.list
      ensures Stopping(PcOf(t, c)) ==> !Flagged(t, c)
    {
      assert Agrees(t, c);
    }
  }

  /** A stop that returns leaves its configuration unflagged, unlisted and not dropped,
      whatever the other threads do meanwhile. */
  lemma StopCompletes(s: State, step: Step)
    requires Inv(s) && Enabled(s, step)
    requires step.Remove? || (step.Test? && PcOf(s, step.c).StopLooked?)
    requires PcOf(Apply(s, step), step.c).Idle?
    ensures var t := Apply(s, step); !Flagged(t, step.c) && step.c !in t.list && step.c !in t.dropped
  {
    var c, t := step.c, Apply(s, step);
    StepKeepsInv(s, step);
    assert Agrees(s, c) && Agrees(t, c) && PcOk(s, c);
    if step.Remove? {
      SwapRemoveTakesOne(s.list, c);
    } else {
      FlagAt(s, c, PcOf(s, c).ctx);
      FlagAt(t, c, PcOf(s, c).ctx);
    }
  }

  /** A start that returns success leaves its configuration flagged, and listed unless the
      list was full. */
  lemma StartCompletes(s: State, step: Step)
    requires Inv(s) && Enabled(s, step)
    requires step.Append? || (step.Test? && PcOf(s, step.c).StartLooked?)
    requires PcOf(Apply(s, step), step.c).Idle?
    ensures var t := Apply(s, step); Flagged(t, step.c) && (step.c in t.list || step.c in t.dropped)
    ensures step.Append? ==> (step.c in Apply(s, step).list <==> |s.list| < 32)
  {
    var c, t := step.c, Apply(s, step);
    StepKeepsInv(s, step);
    assert Agrees(s, c) && Agrees(t, c) && PcOk(s, c);
    if step.Test? {
      FlagAt(s, c, PcOf(s, c).ctx);
    } else {
      assert t.ctxs == s.ctxs;
      assert Flagged(t, c) <==> Flagged(s, c);
    }
  }

  // --- when no start is dropped ---

  /** The configurations that may take a slot: flagged, or not yet removed by their stop. */
  ghost function Held(s: State): set<int> {
    set k | 0 <= k < |s.ctxs| && (s.ctxs[k].running || Stopping(PcOf(s, s.ctxs[k].configId))) :: s.ctxs[k].configId
  }

  ghost predicate Throughout(s: State, steps: seq<Step>, room: State -> bool)
    decreases |steps|
  {
    room(s) && (steps == [] || (Enabled(s, steps[0]) && Throughout(Apply(s, steps[0]), steps[1..], room)))
  }

  ghost predicate Room(s: State) {
    |Held(s)| <= 32
  }

  lemma AppendFindsRoom(s: State, c: int)
    requires Inv(s) && Enabled(s, Append(c)) && Room(s) && s.dropped == {}
    ensures |s.list| < 32
  {
    assert Agrees(s, c) && PcOk(s, c);
    assert c in Held(s) by {
      FlagAt(s, c, PcOf(s, c).ctx);
    }
    forall i | 0 <= i < |s.list|
      ensures s.list[i] in Held(s) - {c}
    {
      var d := s.list[i];
      assert Agrees(s, d) && PcOk(s, d);
      if Flagged(s, d) {
        var k :| 0 <= k < |s.ctxs| && s.ctxs[k] == Ctx(d, true);
        assert s.ctxs[k].configId in Held(s);
      } else {
        assert Stopping(PcOf(s, d));
        assert s.ctxs[PcOf(s, d).ctx].configId in Held(s);
      }
    }
    DistinctFits(s.list, Held(s) - {c});
  }

  /** No start of the run finds the list full. */
  ghost predicate NeverFull(s: State, steps: seq<Step>)
    decreases |steps|
  {
    steps == [] || (
      && Enabled(s, steps[0]) && !(steps[0].Append? && |s.list| == 32)
      && NeverFull(Apply(s, steps[0]), steps[1..]))
  }

  /** The list is the set of flagged configurations, except those mid-call. */
  ghost predicate ListComplete(s: State) {
    forall c | !Starting(PcOf(s, c)) && !Stopping(PcOf(s, c)) :: Flagged(s, c) <==> c in s.list
  }

  lemma CompleteWithoutDrops(s: State)
    requires Inv(s) && s.dropped == {}
    ensures ListComplete(s)
  {
    forall c | !Starting(PcOf(s, c)) && !Stopping(PcOf(s, c))
      ensures Flagged(s, c) <==> c in s.list
    {
      assert Agrees(s, c);
    }
  }

  lemma FullAppendIsIncomplete(s: State, c: int)
    requires Inv(s) && Enabled(s, Append(c)) && |s.list| == 32
    ensures !ListComplete(Apply(s, Append(c)))
  {
    var t := Apply(s, Append(c));
    assert Agrees(s, c);
    assert t.ctxs == s.ctxs && t.list == s.list;
    assert PcOf(t, c).Idle? && (Flagged(t, c) <==> Flagged(s, c));
  }

  /** Over any run the list is complete at every moment exactly when no start finds it full. */
  lemma {:induction false} ListCompleteIff(s: State, steps: seq<Step>, t: State)
    requires Inv(s) && s.dropped == {} && IsRun(s, steps, t)
    ensures Throughout(s, steps, ListComplete) <==> NeverFull(s, steps)
    ensures NeverFull(s, steps) ==> t.dropped == {}
    decreases |steps|
  {
    CompleteWithoutDrops(s);
    if steps != [] {
      StepKeepsInv(s, steps[0]);
      var u := Apply(s, steps[0]);
      if steps[0].Append? && |s.list| == 32 {
        FullAppendIsIncomplete(s, steps[0].c);
        assert !Throughout(u, steps[1..], ListComplete);
      } else {
        ListCompleteIff(u, steps[1..], t);
      }
    }
  }

  /** At most 32 configurations flagged or being stopped at a time leave room for every start. */
  lemma {:induction false} RoomIsNeverFull(s: State, steps: seq<Step>, t: State)
    requires Inv(s) && s.dropped == {} && IsRun(s, steps, t) && Throughout(s, steps, Room)
    ensures NeverFull(s, steps)
    decreases |steps|
  {
    if steps != [] {
      StepKeepsInv(s, steps[0]);
      if steps[0].Append? {
        AppendFindsRoom(s, steps[0].c);
      }
      RoomIsNeverFull(Apply(s, steps[0]), steps[1..], t);
    }
  }

  lemma EmptyIsSound()
    ensures Inv(EMPTY)
  {
    forall c
      ensures PcOk(EMPTY, c) && Agrees(EMPTY, c)
    {
    }
  }

  /** From the empty registry: the list of running configurations is complete all the time
      exactly when no start finds it full; and so it is if at most 32 are ever flagged or
      being stopped. */
  lemma ListIsRunningSet(steps: seq<Step>, t: State)
    requires IsRun(EMPTY, steps, t)
    ensures Throughout(EMPTY, steps, ListComplete) <==> NeverFull(EMPTY, steps)
    ensures Throughout(EMPTY, steps, Room) ==> NeverFull(EMPTY, steps)
    ensures NeverFull(EMPTY, steps) ==> ListComplete(t)
  {
    EmptyIsSound();
    ListCompleteIff(EMPTY, steps, t);
    RunKeepsInv(EMPTY, steps, t);
    if NeverFull(EMPTY, steps) {
      CompleteWithoutDrops(t);
    }
    if Throughout(EMPTY, steps, Room) {
      RoomIsNeverFull(EMPTY, steps, t);
    }
  }

  // --- counting flags alone is not enough ---

  function Flags(ctxs: seq<Ctx>): nat {
    if ctxs == [] then 0
    else Flags(ctxs[..|ctxs| - 1]) + if ctxs[|ctxs| - 1].running then 1 else 0
  }

  predicate FewFlags(s: State) {
    Flags(s.ctxs) <= 32
  }

  lemma {:induction false} RunsConcat(s: State, xs: seq<Step>, t: State, ys: seq<Step>, u: State)
    requires IsRun(s, xs, t) && Throughout(s, xs, FewFlags)
    requires IsRun(t, ys, u) && Throughout(t, ys, FewFlags)
    ensures IsRun(s, xs + ys, u) && Throughout(s, xs + ys, FewFlags)
    decreases |xs|
  {
    if xs == [] {
      assert xs + ys == ys;
    } else {
      RunsConcat(Apply(s, xs[0]), xs[1..], t, ys, u);
      assert (xs + ys)[0] == xs[0] && (xs + ys)[1..] == xs[1..] + ys;
    }
  }

  lemma OneStep(s: State, step: Step)
    requires Enabled(s, step) && FewFlags(s) && FewFlags(Apply(s, step))
    ensures IsRun(s, [step], Apply(s, step)) && Throughout(s, [step], FewFlags)
  {
    var t := Apply(s, step);
    assert [step][1..] == [];
    assert IsRun(t, [], t) && Throughout(t, [], FewFlags);
  }

  /** The state after a whole start of a configuration that has no context yet. */
  function AfterStart(s: State, c: int): State {
    State(s.ctxs + [Ctx(c, true)],
          if |s.list| < SLOTS then s.list + [c] else s.list,
          s.pcs[c := Idle],
          if |s.list| < SLOTS then s.dropped else s.dropped + {c})
  }

  function StartSteps(c: int): seq<Step> {
    [CallStart(c)] + ([Lookup(c)] + ([Test(c)] + ([Create(c, true)] + [Append(c)])))
  }

  lemma FlagsOfOneMore(ctxs: seq<Ctx>, ctx: Ctx)
    ensures Flags(ctxs + [ctx]) == Flags(ctxs) + if ctx.running then 1 else 0
  {
    assert (ctxs + [ctx])[..|ctxs|] == ctxs;
  }

  /** One more step in front of a run. */
  lemma Prepend(s: State, step: Step, rest: seq<Step>, u: State)
    requires Enabled(s, step) && FewFlags(s)
    requires IsRun(Apply(s, step), rest, u) && Throughout(Apply(s, step), rest, FewFlags)
    ensures IsRun(s, [step] + rest, u) && Throughout(s, [step] + rest, FewFlags)
  {
    assert ([step] + rest)[1..] == rest;
  }

  lemma StartEnds(s: State, c: int, ctx: nat)
    requires PcOf(s, c) == StartFlagged(ctx) && ctx < |s.ctxs| && FewFlags(s)
    ensures var steps := [Create(c, true)] + [Append(c)];
      var u := State(s.ctxs, if |s.list| < SLOTS then s.list + [c] else s.list,
                     s.pcs[c := Idle], if |s.list| < SLOTS then s.dropped else s.dropped + {c});
      IsRun(s, steps, u) && Throughout(s, steps, FewFlags)
  {
    var t := Apply(s, Create(c, true));
    assert t.pcs[c := Idle] == s.pcs[c := Idle];
    OneStep(t, Append(c));
    Prepend(s, Create(c, true), [Append(c)], Apply(t, Append(c)));
  }

  lemma StartContinues(s: State, ctxs: seq<Ctx>, c: int)
    requires s.ctxs == ctxs + [Ctx(c, false)] && PcOf(s, c) == StartLooked(|ctxs|) && Flags(ctxs) < SLOTS
    ensures var steps := [Test(c)] + ([Create(c, true)] + [Append(c)]);
      var u := AfterStart(s.(ctxs := ctxs), c);
      IsRun(s, steps, u) && Throughout(s, steps, FewFlags)
  {
    var k := |ctxs|;
    FlagsOfOneMore(ctxs, Ctx(c, true));
    FlagsOfOneMore(ctxs, Ctx(c, false));
    var t := Apply(s, Test(c));
    assert t.ctxs == ctxs + [Ctx(c, true)];
    assert t.pcs[c := Idle] == s.pcs[c := Idle];
    StartEnds(t, c, k);
    Prepend(s, Test(c), [Create(c, true)] + [Append(c)], AfterStart(s.(ctxs := ctxs), c));
  }

  lemma StartRuns(s: State, c: int)
    requires Position(s.ctxs, c) == |s.ctxs| && PcOf(s, c).Idle? && Flags(s.ctxs) < SLOTS
    ensures IsRun(s, StartSteps(c), AfterStart(s, c)) && Throughout(s, StartSteps(c), FewFlags)
  {
    FlagsOfOneMore(s.ctxs, Ctx(c, false));
    var s1 := Apply(s, CallStart(c));
    var s2 := Apply(s1, Lookup(c));
    assert s2.pcs[c := Idle] == s.pcs[c := Idle];
    StartContinues(s2, s.ctxs, c);
    var u, rest := AfterStart(s, c), [Test(c)] + ([Create(c, true)] + [Append(c)]);
    Prepend(s1, Lookup(c), rest, u);
    Prepend(s, CallStart(c), [Lookup(c)] + rest, u);
  }

  /** Configurations 0 to n-1 started one after the other. */
  ghost predicate Full(s: State, n: nat) {
    && |s.ctxs| == n && (forall k | 0 <= k < n :: s.ctxs[k] == Ctx(k, true))
    && |s.list| == n && (forall k | 0 <= k < n :: s.list[k] == k)
    && Flags(s.ctxs) == n
    && (forall c | c in s.pcs :: s.pcs[c].Idle?)
    && s.dropped == {}
  }

  lemma FullAndOneMore(s: State, n: nat)
    requires Full(s, n) && n < SLOTS
    ensures Position(s.ctxs, n) == n && PcOf(s, n).Idle? && Full(AfterStart(s, n), n + 1)
  {
    FlagsOfOneMore(s.ctxs, Ctx(n, true));
  }

  lemma {:induction false} FullIsReached(n: nat) returns (steps: seq<Step>, s: State)
    requires n <= SLOTS
    ensures IsRun(EMPTY, steps, s) && Throughout(EMPTY, steps, FewFlags) && Full(s, n)
  {
    if n == 0 {
      steps, s := [], EMPTY;
    } else {
      var before, t := FullIsReached(n - 1);
      FullAndOneMore(t, n - 1);
      StartRuns(t, n - 1);
      steps, s := before + StartSteps(n - 1), AfterStart(t, n - 1);
      RunsConcat(EMPTY, before, t, StartSteps(n - 1), s);
    }
  }

  lemma {:induction false} FlagsOfCleared(ctxs: seq<Ctx>, k: nat)
    requires k < |ctxs| && ctxs[k].running
    ensures Flags(ctxs[k := ctxs[k].(running := false)]) == Flags(ctxs) - 1
    decreases |ctxs|
  {
    var n, cleared := |ctxs| - 1, ctxs[k := ctxs[k].(running := false)];
    if k == n {
      assert cleared[..n] == ctxs[..n];
    } else {
      FlagsOfCleared(ctxs[..n], k);
      assert cleared[..n] == ctxs[..n][k := ctxs[k].(running := false)];
    }
  }

  function StopSteps(c: int): seq<Step> {
    [CallStop(c)] + ([Lookup(c)] + [Test(c)])
  }

  /** A stop up to the point where the flag is cleared and the slot still taken. */
  lemma StopBegins(s: State) returns (t: State)
    requires Full(s, SLOTS)
    ensures IsRun(s, StopSteps(0), t) && Throughout(s, StopSteps(0), FewFlags)
    ensures t.ctxs == s.ctxs[0 := Ctx(0, false)] && t.list == s.list && t.dropped == {}
    ensures Flags(t.ctxs) == SLOTS - 1 && PcOf(t, SLOTS).Idle?
  {
    FlagsOfCleared(s.ctxs, 0);
    assert Position(s.ctxs, 0) == 0;
    var s1 := Apply(s, CallStop(0));
    var s2 := Apply(s1, Lookup(0));
    t := Apply(s2, Test(0));
    OneStep(s2, Test(0));
    Prepend(s1, Lookup(0), [Test(0)], t);
    Prepend(s, CallStop(0), [Lookup(0)] + [Test(0)], t);
  }

  /** At most 32 flags at every moment do not make the list complete: a monitor that is
      being stopped keeps its slot until it is joined, and a start in between is dropped,
      so its configuration runs without ever being listed. */
  lemma ThirtyTwoFlagsCanDropAStart() returns (steps: seq<Step>, t: State)
    ensures IsRun(EMPTY, steps, t) && Throughout(EMPTY, steps, FewFlags)
    ensures forall s | FewFlags(s) :: Flags(s.ctxs) <= 32
    ensures PcOf(t, 32).Idle? && Flagged(t, 32) && 32 !in t.list
  {
    var filled, s := FullIsReached(SLOTS);
    var u := StopBegins(s);
    assert Position(u.ctxs, SLOTS) == SLOTS;
    StartRuns(u, SLOTS);
    t := AfterStart(u, SLOTS);
    RunsConcat(s, StopSteps(0), u, StartSteps(SLOTS), t);
    steps := filled + (StopSteps(0) + StartSteps(SLOTS));
    RunsConcat(EMPTY, filled, s, StopSteps(0) + StartSteps(SLOTS), t);
    assert t.ctxs[SLOTS] == Ctx(SLOTS, true);
  }
}
