/** The registry of monitoring threads (master/monitor.c:12-44, 366-421) and the OpenVPN
    start and stop calls around it (master/openvpn.c:158-192, 607-690).

    Two tables are kept apart: the contexts, found or inserted by configuration id and
    never removed, each with its `running` flag, and a list of running ids with 32 slots
    from which entries are removed by moving the last one into the hole. */
module MonitorRegistry {

  const SLOTS: nat := 32

  /** What the two tables say: which contexts are flagged, and the list of running ids. */
  datatype Status = Status(running: set<int>, list: seq<int>)

  ghost predicate Distinct(list: seq<int>) {
    forall i, j | 0 <= i < j < |list| :: list[i] != list[j]
  }

  /** A start that finds the list full flags its context without listing it, so the list
      is only a part of the flagged configurations. */
  ghost predicate Coherent(s: Status) {
    && |s.list| <= SLOTS
    && Distinct(s.list)
    && forall i | 0 <= i < |s.list| :: s.list[i] in s.running
  }

  /** The configurations that run without being listed. */
  ghost function Dropped(s: Status): set<int> {
    set c | c in s.running && c !in s.list
  }

  /** The first position of `c`, or the length of the list. */
  function Find(list: seq<int>, c: int): (i: nat)
    ensures i <= |list|
    ensures i < |list| ==> list[i] == c
    ensures forall k | 0 <= k < i :: list[k] != c
  {
    if |list| == 0 || list[0] == c then 0 else 1 + Find(list[1..], c)
  }

  function SwapRemove(list: seq<int>, c: int): (r: seq<int>) {
    var i := Find(list, c);
    if i == |list| then list
    else seq(|list| - 1, k requires 0 <= k < |list| - 1 => if k == i then list[|list| - 1] else list[k])
  }

  function Started(s: Status, c: int, created: bool): Status {
    if c in s.running || !created then s
    else Status(s.running + {c}, if |s.list| < SLOTS then s.list + [c] else s.list)
  }

  function Stopped(s: Status, c: int): Status {
    if c in s.running then Status(s.running - {c}, SwapRemove(s.list, c)) else s
  }

  lemma FindIs(list: seq<int>, c: int, i: nat)
    requires i <= |list| && forall k | 0 <= k < i :: list[k] != c
    requires i < |list| ==> list[i] == c
    ensures Find(list, c) == i
  {
  }

  /** Swap-removal takes out exactly the one id. */
  lemma SwapRemoveTakesOne(list: seq<int>, c: int)
    requires Distinct(list)
    ensures Distinct(SwapRemove(list, c))
    ensures c !in SwapRemove(list, c)
    ensures forall d :: d != c ==> (d in SwapRemove(list, c) <==> d in list)
    ensures |SwapRemove(list, c)| == if c in list then |list| - 1 else |list|
  {
    var i, r, last := Find(list, c), SwapRemove(list, c), |list| - 1;
    if c in list {
      forall d | d != c && d in list
        ensures d in r
      {
        var k :| 0 <= k < |list| && list[k] == d;
        assert r[if k == last then i else k] == d;
      }
    }
  }

  lemma StartedCoherent(s: Status, c: int, created: bool)
    requires Coherent(s)
    ensures var t := Started(s, c, created);
      && Coherent(t)
      && t.running == (if created then s.running + {c} else s.running)
      && Dropped(t) == Dropped(s) + (if created && c !in s.running && |s.list| == SLOTS then {c} else {})
  {
  }

  lemma StoppedCoherent(s: Status, c: int)
    requires Coherent(s)
    ensures var t := Stopped(s, c);
      && Coherent(t)
      && t.running == s.running - {c}
      && Dropped(t) == Dropped(s) - {c}
      && forall d :: d in t.list <==> d in s.list && d != c
  {
    SwapRemoveTakesOne(s.list, c);
  }

  lemma StopKeepsCoherent(s: Status, c: int)
    requires Coherent(s)
    ensures Coherent(Stopped(s, c))
  {
    StoppedCoherent(s, c);
  }

  lemma {:induction false} DistinctFits(list: seq<int>, all: set<int>)
    requires Distinct(list)
    requires forall i | 0 <= i < |list| :: list[i] in all
    ensures |list| <= |all|
  {
    if list != [] {
      var n := |list| - 1;
      forall i | 0 <= i < n
        ensures list[..n][i] in all - {list[n]}
      {
        assert list[i] != list[n];
      }
      DistinctFits(list[..n], all - {list[n]});
    }
  }

  /** As long as at most 32 configurations run, every one of them is listed. */
  lemma RoomForAll(s: Status, c: int, created: bool)
    requires Coherent(s) && Dropped(s) == {} && |s.running + {c}| <= 32
    ensures Dropped(Started(s, c, created)) == {}
  {
    StartedCoherent(s, c, created);
    if c !in s.running {
      DistinctFits(s.list, s.running);
      assert |s.running + {c}| == |s.running| + 1;
    }
  }

  /** What `stop_openvpn` meets: no pid file, a process that takes the signal (and is
      killed if it does not exit), or a signal that cannot be sent. */
  datatype Fate = NoProcess | Signalled | SignalFailed

  function VpnStopped(s: Status, c: int, fate: Fate): Status {
    if fate.SignalFailed? then s else Stopped(s, c)
  }

  /** What stopping and starting one configuration does to the list. */
  lemma RestartLists(s: Status, c: int, fate: Fate, created: bool)
    requires Coherent(s)
    ensures var t := VpnStopped(s, c, fate);
      && (forall d | d != c :: d in t.list <==> d in s.list)
      && (forall d | d != c :: d in Started(t, c, created).list <==> d in s.list)
      && (c in t.list <==> c in s.list && fate.SignalFailed?)
      && (!created ==> Started(t, c, created) == t)
      && (created ==> (c in Started(t, c, created).list <==>
           c in s.list || (|s.list| < 32 && (c !in s.running || !fate.SignalFailed?))))
  {
    StoppedCoherent(s, c);
    SwapRemoveTakesOne(s.list, c);
  }

  datatype Launch = ForkFailed | Exited | WaitFailed | Alive

  class MonitorCtx {
    const configId: int
    var running: bool

    constructor (c: int)
      ensures configId == c && !running
    {
      configId, running := c, false;
    }
  }

  class MonitorRegistry {
    var monitors: seq<MonitorCtx>
    const slots: array<int>
    var count: nat

    /** One context per configuration, and the two tables agree. */
    ghost predicate Valid()
      reads this, slots, monitors
    {
      && slots.Length == SLOTS && count <= SLOTS
      && OnePerConfig()
      && Coherent(Current())
    }

    ghost predicate OnePerConfig()
      reads this
    {
      forall i, j | 0 <= i < j < |monitors| :: monitors[i].configId != monitors[j].configId
    }

    ghost function Running(): set<int>
      reads this, monitors
    {
      set i | 0 <= i < |monitors| && monitors[i].running :: monitors[i].configId
    }

    ghost function Current(): Status
      requires slots.Length == SLOTS && count <= SLOTS
      reads this, slots, monitors
    {
      Status(Running(), slots[..count])
    }

    constructor ()
      ensures Valid() && Current() == Status({}, []) && monitors == []
      ensures fresh(slots)
    {
      monitors, count := [], 0;
      slots := new int[SLOTS];
    }

    /** Find or insert; contexts are only ever appended, so a context keeps its place. */
    method GetCtx(c: int) returns (ctx: MonitorCtx)
      requires Valid()
      modifies this`monitors
      ensures Valid() && Current() == old(Current())
      ensures old(monitors) <= monitors
      ensures forall i | |old(monitors)| <= i < |monitors| :: fresh(monitors[i])
      ensures ctx in monitors && ctx.configId == c
    {
      for i := 0 to |monitors|
        invariant forall k | 0 <= k < i :: monitors[k].configId != c
      {
        if monitors[i].configId == c {
          return monitors[i];
        }
      }
      ctx := new MonitorCtx(c);
      monitors := monitors + [ctx];
      assert forall i | 0 <= i < |old(monitors)| :: monitors[i] == old(monitors)[i] && monitors[i].running == old(monitors[i].running);
      assert Running() == old(Running());
    }

    lemma Flag(ctx: MonitorCtx)
      requires OnePerConfig() && ctx in monitors
      ensures ctx.configId in Running() <==> ctx.running
    {
    }

    method SetFlag(ctx: MonitorCtx, running: bool)
      requires OnePerConfig() && ctx in monitors
      modifies ctx`running
      ensures Running() == if running then old(Running()) + {ctx.configId} else old(Running()) - {ctx.configId}
      ensures forall m | m in monitors && m != ctx :: m.running == old(m.running)
    {
      ctx.running := running;
    }

    /** `monitor_start`; `created` is the outcome of `pthread_create`. */
    method MonitorStart(c: int, created: bool) returns (ok: bool)
      requires Valid()
      modifies this, slots, monitors
      ensures Valid() && old(monitors) <= monitors
      ensures forall i | |old(monitors)| <= i < |monitors| :: fresh(monitors[i])
      ensures Current() == Started(old(Current()), c, created)
      ensures ok <==> c in Current().running
    {
      StartedCoherent(Current(), c, created);
      var ctx := GetCtx(c);
      Flag(ctx);
      if ctx.running {
        return true;
      }
      ghost var before := Running();
      SetFlag(ctx, true);
      if !created {
        SetFlag(ctx, false);
        assert Running() == before;
        return false;
      }
      AddSlot(c);
      ok := true;
    }

    /** The locked step of `monitor_start`. */
    method AddSlot(c: int)
      requires slots.Length == SLOTS && count <= SLOTS
      modifies this`count, slots
      ensures count <= SLOTS
      ensures slots[..count] == if old(count) < SLOTS then old(slots[..count]) + [c] else old(slots[..count])
    {
      if count < SLOTS {
        slots[count] := c;
        count := count + 1;
      }
    }

    /** `monitor_stop` */
    method MonitorStop(c: int)
      requires Valid()
      modifies this, slots, monitors
      ensures Valid() && old(monitors) <= monitors
      ensures forall i | |old(monitors)| <= i < |monitors| :: fresh(monitors[i])
      ensures Current() == Stopped(old(Current()), c)
    {
      ghost var s := Current();
      StopKeepsCoherent(s, c);
      var ctx := GetCtx(c);
      Flag(ctx);
      if ctx.running {
        SetFlag(ctx, false);
        RemoveSlot(c);
        assert Current() == Stopped(s, c);
      }
    }

    /** The locked loop of `monitor_stop`. */
    method RemoveSlot(c: int)
      requires slots.Length == SLOTS && count <= SLOTS
      modifies this`count, slots
      ensures count <= SLOTS
      ensures slots[..count] == SwapRemove(old(slots[..count]), c)
    {
      ghost var was := slots[..count];
      var i := 0;
      while i < count && slots[i] != c
        invariant i <= count
        invariant forall k | 0 <= k < i :: was[k] != c
      {
        i := i + 1;
      }
      FindIs(was, c, i);
      if i < count {
        count := count - 1;
        slots[i] := slots[count];
      }
    }

    /** `stop_openvpn`: success alone means that the configuration is unmonitored; when the
        signal cannot be sent nothing changes. */
    method StopOpenvpn(c: int, fate: Fate) returns (ok: bool)
      requires Valid()
      modifies this, slots, monitors
      ensures Valid() && old(monitors) <= monitors
      ensures forall i | |old(monitors)| <= i < |monitors| :: fresh(monitors[i])
      ensures Current() == VpnStopped(old(Current()), c, fate)
      ensures ok <==> !fate.SignalFailed?
      ensures ok ==> c !in Current().running && c !in Current().list
    {
      if fate.SignalFailed? {
        return false;
      }
      StoppedCoherent(Current(), c);
      MonitorStop(c);
      ok := true;
    }

    /** `start_openvpn`. It reports success whether or not the monitor could be started, and
        a monitor that was not stopped is kept. The clauses say exactly when the configuration
        is monitored and when it is listed afterwards; other configurations are not touched. */
    method StartOpenvpn(c: int, executable: bool, fate: Fate, generated: bool, launch: Launch, created: bool)
        returns (ok: bool)
      requires Valid()
      modifies this, slots, monitors
      ensures Valid() && old(monitors) <= monitors
      ensures ok <==> executable && generated && launch.Alive?
      ensures c in Current().running <==>
        || (executable && generated && launch.Alive? && created)
        || (c in old(Current()).running && (!executable || fate.SignalFailed?))
      ensures forall d | d != c :: d in Current().running <==> d in old(Current()).running
      ensures executable && generated && launch.Alive? && created ==>
        (c in Current().list <==>
          c in old(Current()).list
          || (|old(Current()).list| < 32 && (c !in old(Current()).running || !fate.SignalFailed?)))
      ensures executable && !(generated && launch.Alive? && created) ==>
        (c in Current().list <==> c in old(Current()).list && fate.SignalFailed?)
      ensures !executable ==> Current() == old(Current())
      ensures forall d | d != c :: d in Current().list <==> d in old(Current()).list
    {
      ghost var was := Current();
      if !executable {
        return false;
      }
      StoppedCoherent(was, c);
      RestartLists(was, c, fate, created);
      var stopped := StopOpenvpn(c, fate);
      ghost var between := Current();
      if !generated || launch.ForkFailed? {
        return false;
      }
      if launch.Exited? || launch.WaitFailed? {
        return false;
      }
      StartedCoherent(between, c, created);
      var started := MonitorStart(c, created);
      ok := true;
    }

    /** `monitor_stop_all`: both loops go over a copy, while the calls inside them remove
        entries from the live list. Whatever the calls to `stop_openvpn` return, every listed
        configuration is stopped and the list is empty; what is left running is what was
        never listed. */
    method MonitorStopAll(fates: seq<Fate>)
      requires Valid() && |fates| == count
      modifies this, slots, monitors
      ensures Valid() && count == 0
      ensures Current() == Status(Dropped(old(Current())), [])
    {
      ghost var was := Current();
      var configs: seq<int> := slots[..count];
      StopProcesses(was, configs, fates);
      StopMonitors(was, configs);
      NothingRemains(was, Current());
    }

    /** The first loop of `monitor_stop_all`. */
    method StopProcesses(ghost was: Status, configs: seq<int>, fates: seq<Fate>)
      requires Valid() && |fates| == |configs|
      requires configs == was.list && Remains(was, Current(), 0)
      modifies this, slots, monitors
      ensures Valid() && old(monitors) <= monitors
      ensures forall i | |old(monitors)| <= i < |monitors| :: fresh(monitors[i])
      ensures Remains(was, Current(), 0)
    {
      for n := 0 to |configs|
        invariant Valid() && old(monitors) <= monitors
        invariant forall i | |old(monitors)| <= i < |monitors| :: fresh(monitors[i])
        invariant Remains(was, Current(), 0)
      {
        StillRemains(was, Current(), 0, configs[n]);
        var ok := StopOpenvpn(configs[n], fates[n]);
      }
    }

    /** The second loop. */
    method StopMonitors(ghost was: Status, configs: seq<int>)
      requires Valid() && configs == was.list && Remains(was, Current(), 0)
      modifies this, slots, monitors
      ensures Valid() && old(monitors) <= monitors
      ensures forall i | |old(monitors)| <= i < |monitors| :: fresh(monitors[i])
      ensures Remains(was, Current(), |configs|)
    {
      for n := 0 to |configs|
        invariant Valid() && old(monitors) <= monitors
        invariant forall i | |old(monitors)| <= i < |monitors| :: fresh(monitors[i])
        invariant Remains(was, Current(), n)
      {
        OneMoreGone(was, Current(), n);
        MonitorStop(configs[n]);
      }
    }
  }

  /** `t` is `s` after stopping some of its listed configurations, the first `n` among them. */
  ghost predicate Remains(s: Status, t: Status, n: nat) {
    && n <= |s.list|
    && (forall c | c in t.running :: c in s.running)
    && (forall c | c in Dropped(s) :: c in t.running)
    && (forall c | c in t.list :: c in s.list)
    && (forall k | 0 <= k < n :: s.list[k] !in t.running && s.list[k] !in t.list)
  }

  lemma StillRemains(s: Status, t: Status, n: nat, c: int)
    requires Coherent(t) && Remains(s, t, n) && c in s.list
    ensures Remains(s, Stopped(t, c), n)
  {
    StoppedCoherent(t, c);
  }

  lemma OneMoreGone(s: Status, t: Status, n: nat)
    requires Coherent(t) && Remains(s, t, n) && n < |s.list|
    ensures Remains(s, Stopped(t, s.list[n]), n + 1)
  {
    StoppedCoherent(t, s.list[n]);
    assert s.list[n] in t.list ==> s.list[n] in t.running;
  }

  lemma NothingRemains(s: Status, t: Status)
    requires Coherent(s) && Coherent(t) && Remains(s, t, |s.list|)
    ensures t == Status(Dropped(s), [])
  {
    forall c | c in s.list
      ensures c !in t.running && c !in t.list
    {
      ListedIsGone(s, t, c);
    }
    forall c
      ensures c in t.running <==> c in Dropped(s)
    {
    }
    assert t.running == Dropped(s);
    Inhabited(t.list);
  }

  lemma Inhabited(list: seq<int>)
    ensures list == [] || exists c :: c in list
  {
    if list != [] {
      var c := list[0];
      assert c in list;
    }
  }

  lemma ListedIsGone(s: Status, t: Status, c: int)
    requires Remains(s, t, |s.list|) && c in s.list
    ensures c !in t.running && c !in t.list
  {
    var k :| 0 <= k < |s.list| && s.list[k] == c;
  }
}
