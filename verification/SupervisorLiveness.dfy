/**
  Bounded liveness of the supervisor: with a plan whose dependencies are required or have no port to wait for,
  the startup timeout turns every wait into either a start or a nonzero exit, whatever the processes and the
  ports do.
 */
module SupervisorLiveness {
  import opened Wrappers
  import opened ProductionPlan
  import opened Supervision
  import opened SupervisorSafety

  /** Once started, the service is ready at once, or becomes ready within its timeout or ends the run. */
  ghost predicate Dependable<N>(s: Service<N>) { s.required || s.readyPort.None? }

  /** Every dependency names a service of the plan that can be waited for. */
  ghost predicate DependenciesDependable<N(!new)>(plan: seq<Service<N>>) {
    forall i, d :: 0 <= i < |plan| && d in plan[i].startAfter ==>
      exists j :: 0 <= j < |plan| && plan[j].name == d && Dependable(plan[j])
  }

  /** Pass k happens between ticks[k] and ticks[k+1], which are at most `gap` apart. */
  ghost predicate Paced(trace: seq<PassEnv>, ticks: seq<int>, gap: int) {
    && |ticks| == |trace| + 1
    && forall k :: 0 <= k < |trace| ==> PassWithin(trace[k], ticks[k], ticks[k + 1]) && ticks[k + 1] <= ticks[k] + gap
  }

  ghost predicate PassWithin(env: PassEnv, from: int, to: int) {
    && from <= to
    && (forall i: nat :: from <= env.startClock(i) <= to)
    && (forall i: nat :: from <= env.probeClock(i) <= to)
  }

  /** How long after the first pass a service of the given rank can still be waiting. */
  function Bound(rank: nat, timeout: int, gap: int): int {
    if rank == 0 then 0 else Bound(rank - 1, timeout, gap) + timeout + 3 * gap
  }

  lemma {:induction false} BoundGrows(lo: nat, hi: nat, timeout: int, gap: int)
    requires lo <= hi && timeout >= 0 && gap >= 0
    ensures Bound(lo, timeout, gap) <= Bound(hi, timeout, gap)
    ensures lo < hi ==> Bound(lo, timeout, gap) + timeout + 3 * gap <= Bound(hi, timeout, gap)
    decreases hi - lo
  {
    if lo < hi { BoundGrows(lo, hi - 1, timeout, gap); }
  }

  datatype Setting<!N> = Setting(plan: seq<Service<N>>, rank: N -> nat, base: int, timeout: int, gap: int)

  ghost predicate GoodSetting<N(!new)>(w: Setting<N>) {
    && DistinctNames(w.plan) && DependenciesDependable(w.plan) && Ranked(w.plan, w.rank)
    && w.timeout >= 0 && w.gap >= 0
  }

  ghost predicate WaitsShort<N(!new)>(st: State<N>, w: Setting<N>, now: int) {
    forall s :: s in st.pending ==> now <= w.base + Bound(w.rank(s.name), w.timeout, w.gap)
  }

  ghost predicate StartedEarly<N(!new)>(st: State<N>, w: Setting<N>) {
    forall n :: n in st.startedAt ==> st.startedAt[n] <= w.base + Bound(w.rank(n), w.timeout, w.gap) + w.gap
  }

  /** A required service that is not ready yet was, at the last probe, within its timeout. */
  ghost predicate ProbedInTime<N(!new)>(st: State<N>, w: Setting<N>, prev: int) {
    forall i :: 0 <= i < |st.children| ==>
      var s := st.children[i].service;
      Awaitable(s) && s.name !in st.ready ==> s.name in st.startedAt && prev < st.startedAt[s.name] + w.timeout
  }

  ghost predicate PortlessReady<N(!new)>(st: State<N>) {
    forall i :: 0 <= i < |st.children| && st.children[i].service.readyPort.None? ==>
        st.children[i].service.name in st.ready
  }

  ghost predicate Timely<N(!new)>(st: State<N>, w: Setting<N>, prev: int, now: int) {
    && Invariant(st, w.plan)
    && WaitsShort(st, w, now) && StartedEarly(st, w) && ProbedInTime(st, w, prev) && PortlessReady(st)
    && prev <= now <= prev + w.gap
  }

  // ---------- where the services of the plan are ----------

  lemma NamesApart<N(!new)>(st: State<N>, plan: seq<Service<N>>)
    requires Invariant(st, plan) && DistinctNames(plan)
    ensures DistinctChildren(st) && DistinctNames(st.pending)
    ensures forall s, i :: s in st.pending && 0 <= i < |st.children| ==> s.name != st.children[i].service.name
  {
    var all := st.pending + ServicesOf(st.children);
    assert multiset(all) == multiset(plan);
    PermutationKeepsDistinctNames(plan, all);
    var p := |st.pending|;
    forall i, j | 0 <= i < j < |st.children| ensures st.children[i].service.name != st.children[j].service.name {
      assert all[p + i].name != all[p + j].name;
    }
    forall i, j | 0 <= i < j < p ensures st.pending[i].name != st.pending[j].name {
      assert all[i].name != all[j].name;
    }
    forall s, i | s in st.pending && 0 <= i < |st.children| ensures s.name != st.children[i].service.name {
      var k :| 0 <= k < p && st.pending[k] == s;
      assert all[k].name != all[p + i].name;
    }
  }

  lemma PendingOrStarted<N(!new)>(st: State<N>, plan: seq<Service<N>>, s: Service<N>)
    requires Accounted(st, plan) && s in plan
    ensures s in st.pending || exists i :: 0 <= i < |st.children| && st.children[i].service == s
  {
    assert s in multiset(plan);
    if s in multiset(ServicesOf(st.children)) {
      var i :| 0 <= i < |ServicesOf(st.children)| && ServicesOf(st.children)[i] == s;
      assert st.children[i].service == s;
    }
  }

  lemma PendingFromPlan<N(!new)>(st: State<N>, plan: seq<Service<N>>, s: Service<N>)
    requires Accounted(st, plan) && s in st.pending
    ensures exists i :: 0 <= i < |plan| && plan[i] == s
  {
    assert s in multiset(plan);
  }

  lemma ChildFromPlan<N(!new)>(st: State<N>, plan: seq<Service<N>>, i: nat)
    requires Accounted(st, plan) && i < |st.children|
    ensures st.children[i].service in plan
  {
    assert ServicesOf(st.children)[i] == st.children[i].service;
    assert st.children[i].service in multiset(ServicesOf(st.children));
    assert st.children[i].service in multiset(plan);
  }

  // ---------- the start phase leaves only blocked services ----------

  lemma RemovedIsGone<N(!new)>(xs: seq<Service<N>>, x: Service<N>)
    requires DistinctNames(xs) && x in xs
    ensures x !in Remove(xs, x) && DistinctNames(Remove(xs, x))
    ensures forall y :: y in Remove(xs, x) ==> y in xs
  {
    RemoveMultiset(xs, x);
    OnceInMultiset(xs, x);
    var ys := Remove(xs, x);
    forall y | y in ys ensures y in xs && y != x {
      assert y in multiset(ys);
      assert y in multiset(xs);
    }
    var all := ys + [x];
    assert multiset(all) == multiset(xs);
    PermutationKeepsDistinctNames(xs, all);
    forall i, j | 0 <= i < j < |ys| ensures ys[i].name != ys[j].name { assert all[i].name != all[j].name; }
  }

  lemma StillCannotStart<N(!new)>(s: Service<N>, ready: set<N>, later: set<N>)
    requires ready <= later && !CanStart(s, later)
    ensures !CanStart(s, ready)
  {
  }

  lemma LaunchLeavesOthers<N(!new)>(st: State<N>, s: Service<N>, clock: int)
    requires s in st.pending && DistinctNames(st.pending)
    ensures var next := Launch(st, s, clock);
            && s !in next.pending && DistinctNames(next.pending) && st.ready <= next.ready
            && forall t :: t in next.pending ==> t in st.pending
  {
    RemovedIsGone(st.pending, s);
  }

  /** After a start phase, whatever is still pending waits for something that was unready before it. */
  lemma {:induction false} StartSaturates<N(!new)>(st: State<N>, todo: seq<Service<N>>, env: PassEnv)
    requires multiset(todo) <= multiset(st.pending) && DistinctNames(st.pending)
    ensures var (next, spawned) := StartEach(st, todo, env);
            && (forall s :: s in next.pending ==> s in st.pending)
            && (spawned ==> forall s :: s in next.pending && s in todo ==> !CanStart(s, st.ready))
    decreases |todo|
  {
    if todo != [] {
      assert todo == [todo[0]] + todo[1..];
      if !CanStart(todo[0], st.ready) {
        StartSaturates(st, todo[1..], env);
      } else if env.spawns(|st.children|) {
        var s0 := todo[0];
        var clock := env.startClock(|st.children|);
        assert s0 in multiset(st.pending);
        RemoveMultiset(st.pending, s0);
        LaunchLeavesOthers(st, s0, clock);
        var started := Launch(st, s0, clock);
        StartSaturates(started, todo[1..], env);
        var (next, spawned) := StartEach(started, todo[1..], env);
        forall s | spawned && s in next.pending && s in todo ensures !CanStart(s, st.ready) {
          StillCannotStart(s, st.ready, started.ready);
        }
      }
    }
  }

  lemma {:induction false} StartTimes<N(!new)>(st: State<N>, todo: seq<Service<N>>, env: PassEnv, from: int, to: int)
    requires PassWithin(env, from, to)
    ensures var next := StartEach(st, todo, env).0;
            forall n :: n in next.startedAt ==>
              || (n in st.startedAt && next.startedAt[n] == st.startedAt[n])
              || (next.startedAt[n] <= to && exists s :: s in todo && s.name == n)
    decreases |todo|
  {
    if todo != [] {
      if !CanStart(todo[0], st.ready) {
        StartTimes(st, todo[1..], env, from, to);
      } else if env.spawns(|st.children|) {
        StartTimes(Launch(st, todo[0], env.startClock(|st.children|)), todo[1..], env, from, to);
      }
    }
  }

  lemma {:induction false} StartReadies<N(!new)>(st: State<N>, todo: seq<Service<N>>, env: PassEnv)
    requires PortlessReady(st)
    ensures PortlessReady(StartEach(st, todo, env).0)
    decreases |todo|
  {
    if todo != [] {
      if !CanStart(todo[0], st.ready) {
        StartReadies(st, todo[1..], env);
      } else if env.spawns(|st.children|) {
        StartReadies(Launch(st, todo[0], env.startClock(|st.children|)), todo[1..], env);
      }
    }
  }

  // ---------- the poll phase makes a child ready or finds it in time ----------

  /** A child that is alive, unfailed and accepting is ready after a poll phase that ran to its end. */
  lemma {:induction false} AcceptingBecomesReady<N(!new)>(st: State<N>, i: nat, k: nat, env: PassEnv, timeout: int)
    requires i <= k < |st.children| && Tracked(st) && DistinctChildren(st)
    requires PollFrom(st, i, env, timeout).1.Running?
    requires st.children[k].service.name !in st.failed && PollCode(st.children[k], env.exits(k)).None?
    requires st.children[k].service.readyPort.Some? && env.accepts(k)
    ensures st.children[k].service.name in PollFrom(st, i, env, timeout).0.ready
    decreases k - i
  {
    var next := PollOne(st, i, env, timeout).0;
    if i == k {
      PollExtends(next, i + 1, env, timeout);
    } else {
      PollOneIsLocal(st, i, k, env, timeout);
      AcceptingBecomesReady(next, i + 1, k, env, timeout);
    }
  }

  lemma PollProbes<N(!new)>(st: State<N>, env: PassEnv, w: Setting<N>, from: int, to: int)
    requires Invariant(st, w.plan) && GoodSetting(w) && PassWithin(env, from, to)
    requires PollFrom(st, 0, env, w.timeout).1.Running?
    ensures ProbedInTime(PollFrom(st, 0, env, w.timeout).0, w, from)
  {
    NamesApart(st, w.plan);
    PollReturnsIffFatal(st, 0, env, w.timeout);
    PollExtends(st, 0, env, w.timeout);
    PollKeepsTimes(st, 0, env, w.timeout);
    var next := PollFrom(st, 0, env, w.timeout).0;
    forall i | 0 <= i < |next.children| && Awaitable(next.children[i].service)
        && next.children[i].service.name !in next.ready
      ensures next.children[i].service.name in next.startedAt
      ensures from < next.startedAt[next.children[i].service.name] + w.timeout
    {
      var s := st.children[i].service;
      assert s == next.children[i].service;
      RequiredNotFailed(st, i);
      assert !Fatal(st, i, env, w.timeout);
      if env.accepts(i) {
        AcceptingBecomesReady(st, 0, i, env, w.timeout);
      }
      assert env.probeClock(i) - st.startedAt[s.name] < w.timeout;
    }
  }

  lemma RequiredNotFailed<N(!new)>(st: State<N>, i: nat)
    requires i < |st.children| && Recorded(st) && DistinctChildren(st) && st.children[i].service.required
    ensures st.children[i].service.name !in st.failed
  {
    var n := st.children[i].service.name;
    if n in st.failed {
      var j :| 0 <= j < |st.children| && st.children[j].service.name == n && !st.children[j].service.required;
    }
  }

  lemma {:induction false} PollKeepsTimes<N(!new)>(st: State<N>, i: nat, env: PassEnv, timeout: int)
    requires i <= |st.children| && Tracked(st)
    ensures PollFrom(st, i, env, timeout).0.startedAt == st.startedAt
    ensures PortlessReady(st) ==> PortlessReady(PollFrom(st, i, env, timeout).0)
    decreases |st.children| - i
  {
    if i < |st.children| {
      var (next, outcome) := PollOne(st, i, env, timeout);
      if outcome.Running? { PollKeepsTimes(next, i + 1, env, timeout); }
      PollOneKeepsReady(st, i, env, timeout);
    }
  }

  lemma PollOneKeepsReady<N(!new)>(st: State<N>, i: nat, env: PassEnv, timeout: int)
    requires i < |st.children| && Tracked(st)
    ensures PortlessReady(st) ==> PortlessReady(PollOne(st, i, env, timeout).0)
  {
    var next := PollOne(st, i, env, timeout).0;
    assert forall k :: 0 <= k < |st.children| ==> next.children[k].service == st.children[k].service;
  }

  // ---------- one pass ----------

  /** A service that is still pending after a pass waits for a dependency that was unready before it. */
  lemma StillWaitingIsShort<N(!new)>(st: State<N>, w: Setting<N>, prev: int, now: int, next: int, s: Service<N>, d: N)
    requires GoodSetting(w) && Timely(st, w, prev, now) && now <= next <= now + w.gap
    requires s in st.pending && d in s.startAfter && d !in st.ready
    ensures next <= w.base + Bound(w.rank(s.name), w.timeout, w.gap)
  {
    PendingFromPlan(st, w.plan, s);
    var i :| 0 <= i < |w.plan| && w.plan[i] == s;
    var j :| 0 <= j < |w.plan| && w.plan[j].name == d && Dependable(w.plan[j]);
    var dep := w.plan[j];
    assert w.rank(d) < w.rank(s.name);
    BoundGrows(w.rank(d), w.rank(s.name), w.timeout, w.gap);
    PendingOrStarted(st, w.plan, dep);
    if dep !in st.pending {
      var k :| 0 <= k < |st.children| && st.children[k].service == dep;
      assert d in st.startedAt && prev < st.startedAt[d] + w.timeout;
    }
  }

  lemma PassIsTimely<N(!new)>(st: State<N>, env: PassEnv, w: Setting<N>, prev: int, now: int, next: int)
    requires GoodSetting(w) && Timely(st, w, prev, now) && PassWithin(env, now, next) && next <= now + w.gap
    requires Pass(st, env, w.timeout).1 == InFlight
    ensures Timely(Pass(st, env, w.timeout).0, w, now, next)
  {
    var after := Pass(st, env, w.timeout).0;
    PassKeepsInvariant(st, env, w.timeout, w.plan);
    StartKeepsInvariant(st, st.pending, env, w.plan);
    var started := StartEach(st, st.pending, env).0;
    PollExtends(started, 0, env, w.timeout);
    PollKeepsTimes(started, 0, env, w.timeout);
    StartReadies(st, st.pending, env);
    PollProbes(started, env, w, now, next);
    PassWaitsShort(st, env, w, prev, now, next);
    PassStartsEarly(st, env, w, prev, now, next);
    assert after == PollFrom(started, 0, env, w.timeout).0;
  }

  lemma PassWaitsShort<N(!new)>(st: State<N>, env: PassEnv, w: Setting<N>, prev: int, now: int, next: int)
    requires GoodSetting(w) && Timely(st, w, prev, now) && now <= next <= now + w.gap
    requires StartEach(st, st.pending, env).1
    ensures WaitsShort(StartEach(st, st.pending, env).0, w, next)
  {
    NamesApart(st, w.plan);
    StartSaturates(st, st.pending, env);
    var started := StartEach(st, st.pending, env).0;
    forall s | s in started.pending ensures next <= w.base + Bound(w.rank(s.name), w.timeout, w.gap) {
      var d :| d in s.startAfter && d !in st.ready;
      StillWaitingIsShort(st, w, prev, now, next, s, d);
    }
  }

  lemma PassStartsEarly<N(!new)>(st: State<N>, env: PassEnv, w: Setting<N>, prev: int, now: int, next: int)
    requires GoodSetting(w) && Timely(st, w, prev, now) && PassWithin(env, now, next) && next <= now + w.gap
    ensures StartedEarly(StartEach(st, st.pending, env).0, w)
  {
    StartTimes(st, st.pending, env, now, next);
  }

  // ---------- every run ----------

  lemma PacedTail(trace: seq<PassEnv>, ticks: seq<int>, gap: int)
    requires Paced(trace, ticks, gap) && trace != []
    ensures Paced(trace[1..], ticks[1..], gap)
  {
    var rest, later := trace[1..], ticks[1..];
    forall k | 0 <= k < |rest| ensures PassWithin(rest[k], later[k], later[k + 1]) && later[k + 1] <= later[k] + gap {
      assert PassWithin(trace[k + 1], ticks[k + 1], ticks[k + 2]);
    }
  }

  lemma {:induction false} RunIsTimely<N(!new)>(st: State<N>, trace: seq<PassEnv>, ticks: seq<int>, w: Setting<N>,
                                                prev: int)
    requires GoodSetting(w) && Paced(trace, ticks, w.gap) && Timely(st, w, prev, ticks[0])
    ensures var (last, end) := Run(st, trace, w.timeout);
            end.InFlight? ==> Timely(last, w, if |trace| == 0 then prev else ticks[|trace| - 1], ticks[|trace|])
    decreases |trace|
  {
    if trace != [] && !trace[0].stop {
      var (next, end) := Pass(st, trace[0], w.timeout);
      if end == InFlight {
        PassIsTimely(st, trace[0], w, prev, ticks[0], ticks[1]);
        PacedTail(trace, ticks, w.gap);
        RunIsTimely(next, trace[1..], ticks[1..], w, ticks[0]);
      }
    }
  }

  /**
    If the supervisor is still running more than rank * (timeout + 3 * gap) after its first
    pass, every service of the plan has been started; one more timeout later every required
    service is ready. The processes, the ports and the spawn results are arbitrary.
   */
  lemma StartsInBoundedTime<N(!new)>(w: Setting<N>, trace: seq<PassEnv>, ticks: seq<int>, top: nat)
    requires GoodSetting(w) && Paced(trace, ticks, w.gap) && ticks[0] == w.base
    requires forall i :: 0 <= i < |w.plan| ==> w.rank(w.plan[i].name) <= top
    requires Run(Initial(w.plan), trace, w.timeout).1.InFlight?
    ensures var last := Run(Initial(w.plan), trace, w.timeout).0;
            && (ticks[|trace|] > w.base + Bound(top, w.timeout, w.gap) ==> last.pending == [])
            && (|trace| > 0 && ticks[|trace| - 1] > w.base + Bound(top, w.timeout, w.gap) + w.gap + w.timeout ==>
                forall i :: 0 <= i < |w.plan| && w.plan[i].required ==> w.plan[i].name in last.ready)
  {
    InitialInvariant(w.plan);
    var st := Initial(w.plan);
    forall s | s in st.pending ensures w.base <= w.base + Bound(w.rank(s.name), w.timeout, w.gap) {
      BoundGrows(0, w.rank(s.name), w.timeout, w.gap);
    }
    RunIsTimely(st, trace, ticks, w, ticks[0]);
    var last := Run(st, trace, w.timeout).0;
    if ticks[|trace|] > w.base + Bound(top, w.timeout, w.gap) {
      NothingPending(last, w, ticks[|trace|], top);
      if |trace| > 0 && ticks[|trace| - 1] > w.base + Bound(top, w.timeout, w.gap) + w.gap + w.timeout {
        forall i | 0 <= i < |w.plan| && w.plan[i].required ensures w.plan[i].name in last.ready {
          StartedIsReady(last, w, ticks[|trace| - 1], ticks[|trace|], top, w.plan[i]);
        }
      }
    }
  }

  lemma NothingPending<N(!new)>(st: State<N>, w: Setting<N>, now: int, top: nat)
    requires GoodSetting(w) && Accounted(st, w.plan) && WaitsShort(st, w, now)
    requires forall i :: 0 <= i < |w.plan| ==> w.rank(w.plan[i].name) <= top
    requires now > w.base + Bound(top, w.timeout, w.gap)
    ensures st.pending == []
  {
    if st.pending != [] {
      var s := st.pending[0];
      PendingFromPlan(st, w.plan, s);
      BoundGrows(w.rank(s.name), top, w.timeout, w.gap);
      assert false;
    }
  }

  lemma StartedIsReady<N(!new)>(st: State<N>, w: Setting<N>, prev: int, now: int, top: nat, s: Service<N>)
    requires GoodSetting(w) && Timely(st, w, prev, now) && st.pending == [] && s in w.plan && s.required
    requires forall i :: 0 <= i < |w.plan| ==> w.rank(w.plan[i].name) <= top
    requires prev >= w.base + Bound(top, w.timeout, w.gap) + w.gap + w.timeout
    ensures s.name in st.ready
  {
    PendingOrStarted(st, w.plan, s);
    var k :| 0 <= k < |st.children| && st.children[k].service == s;
    BoundGrows(w.rank(s.name), top, w.timeout, w.gap);
    assert s.name in st.startedAt;
  }

  /** The plans the launcher builds have two levels above the roots. */
  lemma BuiltPlanStartsInBoundedTime(s: Settings, trace: seq<PassEnv>, ticks: seq<int>, timeout: int, gap: int)
    requires BuildServices(s).Success? && timeout >= 0 && gap >= 0 && Paced(trace, ticks, gap)
    requires Run(Initial(BuildServices(s).value), trace, timeout).1.InFlight?
    ensures var plan := BuildServices(s).value;
            var last := Run(Initial(plan), trace, timeout).0;
            && (ticks[|trace|] > ticks[0] + 2 * (timeout + 3 * gap) ==> last.pending == [])
            && (|trace| > 0 && ticks[|trace| - 1] > ticks[0] + 3 * timeout + 7 * gap ==>
                forall i :: 0 <= i < |plan| && plan[i].required ==> plan[i].name in last.ready)
  {
    BuiltPlanIsStartable(s);
    var plan := BuildServices(s).value;
    var w := Setting(plan, Height, ticks[0], timeout, gap);
    EarlierIsDependable(plan);
    assert Bound(2, timeout, gap) == Bound(1, timeout, gap) + timeout + 3 * gap;
    assert Bound(1, timeout, gap) == Bound(0, timeout, gap) + timeout + 3 * gap;
    StartsInBoundedTime(w, trace, ticks, 2);
  }

  lemma EarlierIsDependable<N(!new)>(plan: seq<Service<N>>)
    requires DependenciesEarlier(plan)
    ensures DependenciesDependable(plan)
  {
    forall i, d | 0 <= i < |plan| && d in plan[i].startAfter
      ensures exists j :: 0 <= j < |plan| && plan[j].name == d && Dependable(plan[j])
    {
      var j :| 0 <= j < i && plan[j].name == d && Awaitable(plan[j]);
    }
  }
}
