/** The start-up hook on the registry of apps: threads that call the hooked `populate`, told
    as a state machine over all their interleavings. */
module AppStartup {
  import opened Options

  /** How a call came back: by one of its two early guards, or through the lock. */
  datatype Way = ByReady | ByFlag | ByLock

  datatype Pc =
    | Idle
    | AtReady             // if self.ready
    | AtFlag              // if _all_apps_ready
    | AtPopulate          // the original populate
    | AtLock              // with self._lock
    | AtRecheck           // if _all_apps_ready, under the lock
    | AtHook(next: nat)   // for app_config: all_apps_ready()
    | AtSetFlag           // _all_apps_ready = True
    | AtRelease           // leaving the with block
    | Returned(way: Way)

  /** `hooks` logs the apps whose `all_apps_ready` has run, in order. */
  datatype State = State(ready: bool, allAppsReady: bool, lock: Option<nat>, hooks: seq<nat>, pcs: seq<Pc>)

  function Goto(s: State, t: nat, pc: Pc): State
    requires t < |s.pcs|
  {
    s.(pcs := s.pcs[t := pc])
  }

  /** The next step of thread `t`, or None when it has to wait for the lock. Django's own
      `populate` is one step that needs the lock unless the registry is ready already. */
  function StepOf(apps: nat, s: State, t: nat): Option<State>
    requires t < |s.pcs|
  {
    match s.pcs[t]
    case Idle => Some(Goto(s, t, AtReady))
    case Returned(_) => Some(Goto(s, t, AtReady))
    case AtReady => Some(Goto(s, t, if s.ready then Returned(ByReady) else AtFlag))
    case AtFlag => Some(Goto(s, t, if s.allAppsReady then Returned(ByFlag) else AtPopulate))
    case AtPopulate => if s.ready || s.lock.None? then Some(Goto(s, t, AtLock).(ready := true)) else None
    case AtLock => if s.lock.None? then Some(Goto(s, t, AtRecheck).(lock := Some(t))) else None
    case AtRecheck => Some(Goto(s, t, if s.allAppsReady then AtRelease else AtHook(0)))
    case AtHook(i) =>
      if i < apps then
        Some(Goto(s, t, AtHook(i + 1)).(hooks := s.hooks + [i]))
      else
        Some(Goto(s, t, AtSetFlag))
    case AtSetFlag => Some(Goto(s, t, AtRelease).(allAppsReady := true))
    case AtRelease => Some(Goto(s, t, Returned(ByLock)).(lock := None))
  }

  ghost predicate Init(s: State) {
    !s.ready && !s.allAppsReady && s.lock.None? && s.hooks == [] && forall t :: 0 <= t < |s.pcs| ==> s.pcs[t].Idle?
  }

  /** `trace` is a run in which the threads take steps in the order of `schedule`. */
  ghost predicate IsRun(apps: nat, trace: seq<State>, schedule: seq<nat>) {
    && |trace| == |schedule| + 1
    && Init(trace[0])
    && forall k :: 0 <= k < |schedule| ==>
         && schedule[k] < |trace[k].pcs|
         && StepOf(apps, trace[k], schedule[k]) == Some(trace[k + 1])
  }

  // ------------------------------------------------------------ the invariant

  predicate HoldsLock(pc: Pc) {
    pc.AtRecheck? || pc.AtHook? || pc.AtSetFlag? || pc.AtRelease?
  }

  function UpTo(n: nat): (r: seq<nat>)
    ensures |r| == n && forall i :: 0 <= i < n ==> r[i] == i
  {
    seq(n, i => i)
  }

  /** What the position of a thread says about the shared state. */
  ghost predicate PcInv(apps: nat, s: State, t: nat, pc: Pc) {
    && (HoldsLock(pc) <==> s.lock == Some(t))
    && (pc.AtLock? || HoldsLock(pc) ==> s.ready)
    && (pc.AtHook? ==> !s.allAppsReady && pc.next <= apps && s.hooks == UpTo(pc.next))
    && (pc.AtSetFlag? ==> !s.allAppsReady && s.hooks == UpTo(apps))
    && (pc.AtRelease? || pc == Returned(ByFlag) || pc == Returned(ByLock) ==> s.allAppsReady)
    && (pc == Returned(ByReady) ==> s.ready)
  }

  ghost predicate Inv(apps: nat, s: State) {
    && (forall t :: 0 <= t < |s.pcs| ==> PcInv(apps, s, t, s.pcs[t]))
    && (s.lock.Some? ==> s.lock.value < |s.pcs|)
    && (s.allAppsReady ==> s.ready && s.hooks == UpTo(apps))
    && (s.hooks != [] ==> s.ready)
    && (s.hooks != [] && !s.allAppsReady ==>
        s.lock.Some? && (s.pcs[s.lock.value].AtHook? || s.pcs[s.lock.value].AtSetFlag?))
  }

  lemma StepKeepsInv(apps: nat, s: State, t: nat)
    requires t < |s.pcs| && Inv(apps, s)
    requires StepOf(apps, s, t).Some?
    ensures Inv(apps, StepOf(apps, s, t).value)
  {
    var s' := StepOf(apps, s, t).value;
    assert PcInv(apps, s, t, s.pcs[t]);
    assert UpTo(0) == [];
    if s.pcs[t].AtHook? && s.pcs[t].next < apps {
      assert s'.hooks == UpTo(s.pcs[t].next + 1);
    }
    forall u | 0 <= u < |s'.pcs|
      ensures PcInv(apps, s', u, s'.pcs[u])
    {
      assert PcInv(apps, s, u, s.pcs[u]);
    }
  }

  lemma {:induction false} RunKeepsInv(apps: nat, trace: seq<State>, schedule: seq<nat>, k: nat)
    requires IsRun(apps, trace, schedule) && k < |trace|
    ensures Inv(apps, trace[k]) && |trace[k].pcs| == |trace[0].pcs|
  {
    if k > 0 {
      RunKeepsInv(apps, trace, schedule, k - 1);
      StepKeepsInv(apps, trace[k - 1], schedule[k - 1]);
      assert StepOf(apps, trace[k - 1], schedule[k - 1]) == Some(trace[k - 1 + 1]);
    }
  }

  // ------------------------------------------------------------ safety

  /** In every state of every interleaving: each app's hook has run at most once, in the
      registry's order and only after the original populate; the flag means that they all
      have; and so does the return of a call other than by the `ready` guard. */
  lemma HooksRunOnce(apps: nat, trace: seq<State>, schedule: seq<nat>, k: nat, t: nat)
    requires IsRun(apps, trace, schedule) && k < |trace| && t < |trace[k].pcs|
    ensures |trace[k].hooks| <= apps && trace[k].hooks == UpTo(|trace[k].hooks|)
    ensures trace[k].hooks != [] ==> trace[k].ready
    ensures trace[k].allAppsReady ==> trace[k].hooks == UpTo(apps)
    ensures trace[k].pcs[t] == Returned(ByFlag) || trace[k].pcs[t] == Returned(ByLock) ==> trace[k].hooks == UpTo(apps)
  {
    RunKeepsInv(apps, trace, schedule, k);
    var s := trace[k];
    if s.lock.Some? {
      assert PcInv(apps, s, s.lock.value, s.pcs[s.lock.value]);
    }
    assert PcInv(apps, s, t, s.pcs[t]);
  }

  /** At most one thread is inside the locked block. */
  lemma MutualExclusion(apps: nat, trace: seq<State>, schedule: seq<nat>, k: nat, t: nat, u: nat)
    requires IsRun(apps, trace, schedule) && k < |trace|
    requires t < |trace[k].pcs| && u < |trace[k].pcs|
    requires HoldsLock(trace[k].pcs[t]) && HoldsLock(trace[k].pcs[u])
    ensures t == u
  {
    RunKeepsInv(apps, trace, schedule, k);
    assert PcInv(apps, trace[k], t, trace[k].pcs[t]) && PcInv(apps, trace[k], u, trace[k].pcs[u]);
  }

  /** The first guard decides. A call comes back before all the hooks have run exactly when
      the registry is already ready while hooks are still missing as the call checks it. */
  lemma EarlyReturn(apps: nat, trace: seq<State>, schedule: seq<nat>, k: nat)
    requires IsRun(apps, trace, schedule) && k < |schedule|
    requires trace[k + 1].pcs[schedule[k]].Returned?
    ensures trace[k + 1].hooks != UpTo(apps)
       <==> trace[k].pcs[schedule[k]].AtReady? && trace[k].ready && |trace[k].hooks| < apps
  {
    var t := schedule[k];
    RunKeepsInv(apps, trace, schedule, k);
    HooksRunOnce(apps, trace, schedule, k + 1, t);
    assert StepOf(apps, trace[k], t) == Some(trace[k + 1]);
    HooksRunOnce(apps, trace, schedule, k, t);
  }

  /** It does happen: thread 1 finds the registry ready and returns, while thread 0 has not
      run the only hook yet. */
  lemma EarlyReturnHappens() returns (trace: seq<State>, schedule: seq<nat>)
    ensures IsRun(1, trace, schedule)
    ensures |trace[|schedule|].pcs| == 2 && trace[|schedule|].pcs[1] == Returned(ByReady)
    ensures trace[|schedule|].hooks == []
  {
    var s0 := State(false, false, None, [], [Idle, Idle]);
    var s1 := StepOf(1, s0, 0).value;
    var s2 := StepOf(1, s1, 0).value;
    var s3 := StepOf(1, s2, 0).value;
    var s4 := StepOf(1, s3, 0).value;
    var s5 := StepOf(1, s4, 1).value;
    var s6 := StepOf(1, s5, 1).value;
    trace, schedule := [s0, s1, s2, s3, s4, s5, s6], [0, 0, 0, 0, 1, 1];
  }

  /** A call whose guard holds returns at once and touches nothing. */
  lemma GuardsReturn(apps: nat, trace: seq<State>, schedule: seq<nat>, k: nat)
    requires IsRun(apps, trace, schedule) && k < |schedule|
    requires var pc := trace[k].pcs[schedule[k]];
             (pc.AtReady? && trace[k].ready) || (pc.AtFlag? && trace[k].allAppsReady)
    ensures trace[k + 1].pcs[schedule[k]].Returned?
    ensures trace[k + 1].(pcs := trace[k].pcs) == trace[k]
  {
    assert StepOf(apps, trace[k], schedule[k]) == Some(trace[k + 1]);
  }

  /** The registry becomes ready only while nobody is in the locked block, and stays so. */
  lemma ReadyTurnsOutsideLock(apps: nat, trace: seq<State>, schedule: seq<nat>, k: nat)
    requires IsRun(apps, trace, schedule) && k < |schedule|
    ensures !trace[k].ready && trace[k + 1].ready ==>
              trace[k].lock.None? && forall t :: 0 <= t < |trace[k].pcs| ==> !HoldsLock(trace[k].pcs[t])
    ensures trace[k].ready ==> trace[k + 1].ready
  {
    RunKeepsInv(apps, trace, schedule, k);
    assert StepOf(apps, trace[k], schedule[k]) == Some(trace[k + 1]);
    forall t | 0 <= t < |trace[k].pcs| && trace[k].lock.None?
      ensures !HoldsLock(trace[k].pcs[t])
    {
      assert PcInv(apps, trace[k], t, trace[k].pcs[t]);
    }
  }

  /** A call alone, with one app, step by step: it populates, runs the hook under the lock, sets
      the flag and releases the lock. */
  function LoneState(k: int): (s: State)
    ensures |s.pcs| == 1
  {
    if k <= 0 then State(false, false, None, [], [Idle])
    else if k == 1 then State(false, false, None, [], [AtReady])
    else if k == 2 then State(false, false, None, [], [AtFlag])
    else if k == 3 then State(false, false, None, [], [AtPopulate])
    else if k == 4 then State(true, false, None, [], [AtLock])
    else if k == 5 then State(true, false, Some(0), [], [AtRecheck])
    else if k == 6 then State(true, false, Some(0), [], [AtHook(0)])
    else if k == 7 then State(true, false, Some(0), [0], [AtHook(1)])
    else if k == 8 then State(true, false, Some(0), [0], [AtSetFlag])
    else if k == 9 then State(true, true, Some(0), [0], [AtRelease])
    else State(true, true, None, [0], [Returned(ByLock)])
  }

  lemma LoneStep(k: nat)
    requires k < 10
    ensures StepOf(1, LoneState(k), 0) == Some(LoneState(k + 1))
  {
    assert forall pc: Pc, next: Pc :: [pc][0 := next] == [next];
    assert [] + [0] == [0];
  }

  lemma LoneCall()
    ensures IsRun(1, seq(11, k => LoneState(k)), seq(10, k => 0))
  {
    var trace, schedule := seq(11, k => LoneState(k)), seq(10, k => 0);
    forall k | 0 <= k < 10
      ensures StepOf(1, trace[k], schedule[k]) == Some(trace[k + 1])
    {
      LoneStep(k);
    }
  }

  // ------------------------------------------------------------ progress

  predicate MidCall(pc: Pc) {
    !pc.Idle? && !pc.Returned?
  }

  /** As long as some call is under way, some thread that is in a call can take a step. */
  lemma NoDeadlock(apps: nat, trace: seq<State>, schedule: seq<nat>, k: nat, t: nat) returns (u: nat)
    requires IsRun(apps, trace, schedule) && k < |trace|
    requires t < |trace[k].pcs| && MidCall(trace[k].pcs[t])
    ensures u < |trace[k].pcs| && MidCall(trace[k].pcs[u]) && StepOf(apps, trace[k], u).Some?
  {
    RunKeepsInv(apps, trace, schedule, k);
    var s := trace[k];
    u := if s.lock.Some? then s.lock.value else t;
    assert PcInv(apps, s, u, s.pcs[u]);
  }

  /** An upper bound on the steps a thread has left in its call. */
  function StepsLeft(apps: nat, pc: Pc): nat {
    match pc
    case Idle => 0
    case Returned(_) => 0
    case AtReady => apps + 8
    case AtFlag => apps + 7
    case AtPopulate => apps + 6
    case AtLock => apps + 5
    case AtRecheck => apps + 4
    case AtHook(i) => if i <= apps then apps - i + 3 else 3
    case AtSetFlag => 2
    case AtRelease => 1
  }

  function TotalLeft(apps: nat, pcs: seq<Pc>): nat {
    if pcs == [] then 0 else StepsLeft(apps, pcs[0]) + TotalLeft(apps, pcs[1..])
  }

  lemma {:induction false} TotalLeftUpdate(apps: nat, pcs: seq<Pc>, t: nat, pc: Pc)
    requires t < |pcs|
    ensures TotalLeft(apps, pcs[t := pc]) == TotalLeft(apps, pcs) - StepsLeft(apps, pcs[t]) + StepsLeft(apps, pc)
  {
    if t == 0 {
      assert pcs[0 := pc][1..] == pcs[1..];
    } else {
      assert pcs[t := pc][1..] == pcs[1..][t - 1 := pc];
      TotalLeftUpdate(apps, pcs[1..], t - 1, pc);
    }
  }

  /** Every step inside a call brings all the calls together closer to their return, so that
      without new calls every schedule ends, and ends with all the calls returned. */
  lemma StepsRunOut(apps: nat, s: State, t: nat)
    requires t < |s.pcs| && MidCall(s.pcs[t])
    requires StepOf(apps, s, t).Some?
    ensures TotalLeft(apps, StepOf(apps, s, t).value.pcs) < TotalLeft(apps, s.pcs)
  {
    TotalLeftUpdate(apps, s.pcs, t, StepOf(apps, s, t).value.pcs[t]);
  }
}
