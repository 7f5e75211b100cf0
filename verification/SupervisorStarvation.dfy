/**
  When the supervisor cannot be relied on to start a plan: a service that waits for something undependable,
  or for itself through others, can be kept waiting for any length of time.
 */
module SupervisorStarvation {
  import opened Wrappers
  import opened ProductionPlan
  import opened Supervision
  import opened SupervisorSafety
  import opened SupervisorLiveness

  // ---------- waiting for something that has failed ----------

  /** A pending service waits for a service that has failed without ever being ready. */
  ghost predicate Blocked<N(!new)>(st: State<N>, s: Service<N>, d: N) {
    s in st.pending && d in s.startAfter && d in st.failed && d !in st.ready
  }

  lemma {:induction false} RemoveKeeps<T>(xs: seq<T>, x: T, y: T)
    requires y in xs && y != x
    ensures y in Remove(xs, x)
  {
    if xs[0] != x && xs[0] != y { RemoveKeeps(xs[1..], x, y); }
  }

  lemma LaunchKeepsBlocked<N(!new)>(st: State<N>, launched: Service<N>, clock: int, plan: seq<Service<N>>,
                                    s: Service<N>, d: N)
    requires Invariant(st, plan) && DistinctNames(plan) && Blocked(st, s, d)
    requires launched in st.pending && CanStart(launched, st.ready)
    ensures Blocked(Launch(st, launched, clock), s, d)
  {
    NamesApart(st, plan);
    assert launched != s;
    RemoveKeeps(st.pending, launched, s);
    assert IsOptional(st.children, d);
    assert launched.name != d;
  }

  lemma {:induction false} StartKeepsBlocked<N(!new)>(st: State<N>, todo: seq<Service<N>>, env: PassEnv,
                                                      plan: seq<Service<N>>, s: Service<N>, d: N)
    requires multiset(todo) <= multiset(st.pending) && Invariant(st, plan) && DistinctNames(plan) && Blocked(st, s, d)
    ensures Blocked(StartEach(st, todo, env).0, s, d)
    decreases |todo|
  {
    if todo != [] {
      assert todo == [todo[0]] + todo[1..];
      if !CanStart(todo[0], st.ready) {
        StartKeepsBlocked(st, todo[1..], env, plan, s, d);
      } else if env.spawns(|st.children|) {
        var clock := env.startClock(|st.children|);
        assert todo[0] in multiset(st.pending);
        LaunchKeepsBlocked(st, todo[0], clock, plan, s, d);
        RemoveMultiset(st.pending, todo[0]);
        LaunchAccounts(st, todo[0], clock, plan);
        LaunchInOrder(st, todo[0], clock);
        LaunchRecords(st, todo[0], clock);
        StartKeepsBlocked(Launch(st, todo[0], clock), todo[1..], env, plan, s, d);
      }
    }
  }

  lemma {:induction false} PollKeepsBlocked<N(!new)>(st: State<N>, i: nat, env: PassEnv, timeout: int,
                                                     s: Service<N>, d: N)
    requires i <= |st.children| && Tracked(st) && Blocked(st, s, d)
    ensures Blocked(PollFrom(st, i, env, timeout).0, s, d)
    decreases |st.children| - i
  {
    if i < |st.children| {
      var (next, outcome) := PollOne(st, i, env, timeout);
      if outcome.Running? { PollKeepsBlocked(next, i + 1, env, timeout, s, d); }
    }
  }

  /** Once a dependency has failed unready, no run whatever starts the service that waits for it. */
  lemma {:induction false} FailedDependencyBlocks<N(!new)>(st: State<N>, trace: seq<PassEnv>, timeout: int,
                                                           plan: seq<Service<N>>, s: Service<N>, d: N)
    requires Invariant(st, plan) && DistinctNames(plan) && Blocked(st, s, d)
    ensures Blocked(Run(st, trace, timeout).0, s, d)
    decreases |trace|
  {
    if trace != [] && !trace[0].stop {
      var started := StartEach(st, st.pending, trace[0]).0;
      StartKeepsBlocked(st, st.pending, trace[0], plan, s, d);
      StartKeepsTracked(st, st.pending, trace[0]);
      PollKeepsBlocked(started, 0, trace[0], timeout, s, d);
      PassKeepsInvariant(st, trace[0], timeout, plan);
      var (next, end) := Pass(st, trace[0], timeout);
      if end == InFlight { FailedDependencyBlocks(next, trace[1..], timeout, plan, s, d); }
    }
  }

  // ---------- answers under which only dependable services become ready ----------

  ghost predicate IsDependable<N(!new)>(services: seq<Service<N>>, n: N) {
    exists j :: 0 <= j < |services| && services[j].name == n && Dependable(services[j])
  }

  ghost predicate OnlyDependableReady<N(!new)>(st: State<N>) {
    forall n :: n in st.ready ==> IsDependable(ServicesOf(st.children), n)
  }

  /** Whatever a service waited for was started before it and dependable. */
  ghost predicate StartedOnDependables<N(!new)>(services: seq<Service<N>>) {
    forall k, d :: 0 <= k < |services| && d in services[k].startAfter ==> IsDependable(services[..k], d)
  }

  /** Nothing has exited, and nothing dependable has failed. */
  ghost predicate Calm<N(!new)>(st: State<N>) {
    forall i :: 0 <= i < |st.children| ==>
      st.children[i].exit.None? && (Dependable(st.children[i].service) ==> st.children[i].service.name !in st.failed)
  }

  ghost predicate Starving<N(!new)>(st: State<N>, plan: seq<Service<N>>) {
    Invariant(st, plan) && Calm(st) && OnlyDependableReady(st) && StartedOnDependables(ServicesOf(st.children))
  }

  /** Every spawn works, nothing exits, and exactly the dependable services accept. */
  ghost function Refusing<N(!new)>(services: seq<Service<N>>, tick: int): PassEnv {
    PassEnv(false, i => true, i => tick, i => None, (i: nat) => i < |services| && Dependable(services[i]), i => tick)
  }

  lemma DependableGrows<N(!new)>(services: seq<Service<N>>, s: Service<N>, n: N)
    ensures IsDependable(services, n) ==> IsDependable(services + [s], n)
    ensures Dependable(s) ==> IsDependable(services + [s], s.name)
  {
    var grown := services + [s];
    assert grown[|services|] == s;
    if IsDependable(services, n) {
      var j :| 0 <= j < |services| && services[j].name == n && Dependable(services[j]);
      assert grown[j] == services[j];
    }
  }

  lemma StartedOnGrows<N(!new)>(services: seq<Service<N>>, s: Service<N>)
    requires StartedOnDependables(services) && forall d :: d in s.startAfter ==> IsDependable(services, d)
    ensures StartedOnDependables(services + [s])
  {
    var grown := services + [s];
    forall k, d | 0 <= k < |grown| && d in grown[k].startAfter
      ensures IsDependable(grown[..k], d)
    {
      if k < |services| {
        assert grown[..k] == services[..k] && grown[k] == services[k];
      } else {
        assert grown[..k] == services;
      }
    }
  }

  lemma LaunchStaysCalm<N(!new)>(st: State<N>, s: Service<N>, clock: int, plan: seq<Service<N>>)
    requires Invariant(st, plan) && DistinctNames(plan) && Calm(st) && s in st.pending
    ensures Calm(Launch(st, s, clock))
  {
    NamesApart(st, plan);
    assert s.name in st.failed ==> IsOptional(st.children, s.name);
  }

  lemma LaunchStarves<N(!new)>(st: State<N>, s: Service<N>, clock: int, plan: seq<Service<N>>)
    requires Starving(st, plan) && DistinctNames(plan) && s in st.pending && CanStart(s, st.ready)
    ensures Starving(Launch(st, s, clock), plan)
  {
    LaunchStaysCalm(st, s, clock, plan);
    LaunchAccounts(st, s, clock, plan);
    LaunchInOrder(st, s, clock);
    LaunchRecords(st, s, clock);
    var services := ServicesOf(st.children);
    StartedOnGrows(services, s);
    forall n | n in Launch(st, s, clock).ready
      ensures IsDependable(services + [s], n)
    {
      DependableGrows(services, s, n);
    }
  }

  lemma {:induction false} StartStarves<N(!new)>(st: State<N>, todo: seq<Service<N>>, env: PassEnv,
                                                 plan: seq<Service<N>>)
    requires multiset(todo) <= multiset(st.pending) && Starving(st, plan) && DistinctNames(plan)
    requires forall i: nat :: env.spawns(i)
    ensures StartEach(st, todo, env).1 && Starving(StartEach(st, todo, env).0, plan)
    decreases |todo|
  {
    if todo != [] {
      assert todo == [todo[0]] + todo[1..];
      if !CanStart(todo[0], st.ready) {
        StartStarves(st, todo[1..], env, plan);
      } else {
        var clock := env.startClock(|st.children|);
        assert todo[0] in multiset(st.pending);
        RemoveMultiset(st.pending, todo[0]);
        LaunchStarves(st, todo[0], clock, plan);
        StartStarves(Launch(st, todo[0], clock), todo[1..], env, plan);
      }
    }
  }

  /** The start phase only looks at the answers about spawns and start times. */
  lemma {:induction false} StartSame<N(!new)>(st: State<N>, todo: seq<Service<N>>, e: PassEnv, f: PassEnv)
    requires forall i: nat :: e.spawns(i) == f.spawns(i) && e.startClock(i) == f.startClock(i)
    ensures StartEach(st, todo, e) == StartEach(st, todo, f)
    decreases |todo|
  {
    if todo != [] {
      if !CanStart(todo[0], st.ready) {
        StartSame(st, todo[1..], e, f);
      } else if e.spawns(|st.children|) {
        StartSame(Launch(st, todo[0], e.startClock(|st.children|)), todo[1..], e, f);
      }
    }
  }

  /** The part of the state that the poll phase relies on. */
  ghost predicate Pollable<N(!new)>(st: State<N>, services: seq<Service<N>>) {
    && Tracked(st) && DistinctChildren(st) && Calm(st) && OnlyDependableReady(st)
    && ServicesOf(st.children) == services
  }

  lemma PollOneStarves<N(!new)>(st: State<N>, i: nat, services: seq<Service<N>>, tick: int, timeout: int)
    requires i < |st.children| && Pollable(st, services)
    ensures PollOne(st, i, Refusing(services, tick), timeout).1.Running?
    ensures Pollable(PollOne(st, i, Refusing(services, tick), timeout).0, services)
  {
    var c := st.children[i];
    var next := PollOne(st, i, Refusing(services, tick), timeout).0;
    assert services[i] == c.service;
    assert next.children == st.children || next.children == st.children[i := next.children[i]];
    assert ServicesOf(next.children) == services;
    assert next.ready == st.ready || (next.ready == st.ready + {c.service.name} && Dependable(services[i]));
    assert next.failed == st.failed || (next.failed == st.failed + {c.service.name} && !Dependable(c.service));
  }

  lemma {:induction false} PollStarves<N(!new)>(st: State<N>, i: nat, services: seq<Service<N>>, tick: int,
                                                timeout: int)
    requires i <= |st.children| && Pollable(st, services)
    ensures PollFrom(st, i, Refusing(services, tick), timeout).1.Running?
    ensures Pollable(PollFrom(st, i, Refusing(services, tick), timeout).0, services)
    decreases |st.children| - i
  {
    if i < |st.children| {
      PollOneStarves(st, i, services, tick, timeout);
      PollStarves(PollOne(st, i, Refusing(services, tick), timeout).0, i + 1, services, tick, timeout);
    }
  }

  lemma PassStarves<N(!new)>(st: State<N>, plan: seq<Service<N>>, tick: int, timeout: int) returns (env: PassEnv)
    requires Starving(st, plan) && DistinctNames(plan)
    ensures !env.stop && PassWithin(env, tick, tick)
    ensures Pass(st, env, timeout).1 == InFlight && Starving(Pass(st, env, timeout).0, plan)
  {
    var spawning := Refusing(plan, tick);
    var started := StartEach(st, st.pending, spawning).0;
    StartStarves(st, st.pending, spawning, plan);
    var services := ServicesOf(started.children);
    env := Refusing(services, tick);
    StartSame(st, st.pending, spawning, env);
    NamesApart(started, plan);
    PollStarves(started, 0, services, tick, timeout);
    PassKeepsInvariant(st, env, timeout, plan);
  }

  /**
    For any length there is a stop-free run, as slow as the pacing allows, in which only dependable services are
    ready.
   */
  lemma {:induction false} StarvingRun<N(!new)>(st: State<N>, plan: seq<Service<N>>, n: nat, tick: int, timeout: int,
                                                gap: int)
    returns (trace: seq<PassEnv>, ticks: seq<int>)
    requires Starving(st, plan) && DistinctNames(plan) && gap >= 0
    ensures |trace| == n && Paced(trace, ticks, gap) && ticks[0] == tick && ticks[n] == tick + n * gap
    ensures forall k :: 0 <= k < n ==> !trace[k].stop
    ensures Run(st, trace, timeout).1.InFlight? && Starving(Run(st, trace, timeout).0, plan)
    decreases n
  {
    if n == 0 {
      trace, ticks := [], [tick];
    } else {
      var env := PassStarves(st, plan, tick, timeout);
      var rest, later := StarvingRun(Pass(st, env, timeout).0, plan, n - 1, tick + gap, timeout, gap);
      trace, ticks := [env] + rest, [tick] + later;
      assert trace[1..] == rest;
      PacedCons(env, rest, later, tick, gap);
      assert tick + gap + (n - 1) * gap == tick + n * gap;
    }
  }

  lemma PacedCons(env: PassEnv, rest: seq<PassEnv>, later: seq<int>, tick: int, gap: int)
    requires Paced(rest, later, gap) && PassWithin(env, tick, tick) && gap >= 0 && later[0] == tick + gap
    ensures Paced([env] + rest, [tick] + later, gap)
  {
    var trace, ticks := [env] + rest, [tick] + later;
    forall k | 0 <= k < |trace|
      ensures PassWithin(trace[k], ticks[k], ticks[k + 1]) && ticks[k + 1] <= ticks[k] + gap
    {
      if k > 0 {
        assert trace[k] == rest[k - 1] && PassWithin(rest[k - 1], later[k - 1], later[k]);
      }
    }
  }

  lemma InitialStarves<N(!new)>(plan: seq<Service<N>>)
    ensures Starving(Initial(plan), plan)
  {
    InitialInvariant(plan);
  }

  lemma StartedWaitedForDependable<N(!new)>(st: State<N>, plan: seq<Service<N>>, s: Service<N>, d: N)
    requires Starving(st, plan) && s in plan && s !in st.pending && d in s.startAfter
    ensures exists j :: 0 <= j < |plan| && plan[j].name == d && Dependable(plan[j])
  {
    PendingOrStarted(st, plan, s);
    var services := ServicesOf(st.children);
    var k :| 0 <= k < |st.children| && st.children[k].service == s;
    assert d in services[k].startAfter;
    var i :| 0 <= i < |services[..k]| && services[..k][i].name == d && Dependable(services[..k][i]);
    ChildFromPlan(st, plan, i);
    var j :| 0 <= j < |plan| && plan[j] == st.children[i].service;
    assert plan[j] == services[..k][i];
  }

  /**
    In every plan: if a service waits for a name that no dependable service has -- an optional service with a
    port, or nothing at all -- then for every length there is a stop-free run that leaves it pending.
   */
  lemma UndependableStarves<N(!new)>(plan: seq<Service<N>>, s: Service<N>, d: N, n: nat, tick: int, timeout: int,
                                     gap: int)
    returns (trace: seq<PassEnv>, ticks: seq<int>)
    requires DistinctNames(plan) && gap >= 0 && s in plan && d in s.startAfter
    requires forall j :: 0 <= j < |plan| && plan[j].name == d ==> !Dependable(plan[j])
    ensures |trace| == n && Paced(trace, ticks, gap) && ticks[0] == tick && ticks[n] == tick + n * gap
    ensures forall k :: 0 <= k < n ==> !trace[k].stop
    ensures Run(Initial(plan), trace, timeout).1.InFlight? && s in Run(Initial(plan), trace, timeout).0.pending
  {
    InitialStarves(plan);
    trace, ticks := StarvingRun(Initial(plan), plan, n, tick, timeout, gap);
    var last := Run(Initial(plan), trace, timeout).0;
    if s !in last.pending {
      StartedWaitedForDependable(last, plan, s, d);
    }
  }

  // ---------- exactly which plans start in bounded time ----------

  ghost predicate StartsWithin<N(!new)>(plan: seq<Service<N>>, timeout: int, gap: int, bound: int) {
    forall trace, ticks :: Paced(trace, ticks, gap) && ticks[|trace|] > ticks[0] + bound
                           && Run(Initial(plan), trace, timeout).1.InFlight?
                           ==> Run(Initial(plan), trace, timeout).0.pending == []
  }

  /** There is a time after which a run that is still going on has started everything, whatever the answers. */
  ghost predicate StartsInTime<N(!new)>(plan: seq<Service<N>>, timeout: int, gap: int) {
    exists bound: int :: StartsWithin(plan, timeout, gap, bound)
  }

  ghost predicate Acyclic<N(!new)>(plan: seq<Service<N>>) {
    exists rank: N -> nat :: Ranked(plan, rank)
  }

  function Top<N>(plan: seq<Service<N>>, rank: N -> nat): (top: nat)
    ensures forall i :: 0 <= i < |plan| ==> rank(plan[i].name) <= top
  {
    if plan == [] then 0
    else
      var rest := Top(plan[1..], rank);
      if rank(plan[0].name) > rest then rank(plan[0].name) else rest
  }

  lemma OrderedStartsInTime<N(!new)>(plan: seq<Service<N>>, rank: N -> nat, timeout: int, gap: int)
    requires DistinctNames(plan) && DependenciesDependable(plan) && Ranked(plan, rank) && timeout >= 0 && gap >= 0
    ensures StartsInTime(plan, timeout, gap)
  {
    var bound := Bound(Top(plan, rank), timeout, gap);
    forall trace, ticks | Paced(trace, ticks, gap) && ticks[|trace|] > ticks[0] + bound
                          && Run(Initial(plan), trace, timeout).1.InFlight?
      ensures Run(Initial(plan), trace, timeout).0.pending == []
    {
      StartsInBoundedTime(Setting(plan, rank, ticks[0], timeout, gap), trace, ticks, Top(plan, rank));
    }
    assert StartsWithin(plan, timeout, gap, bound);
  }

  /** The first place of a name in a list of services. */
  function Place<N(==)>(services: seq<Service<N>>, n: N): (k: nat)
    ensures k <= |services| && forall j :: 0 <= j < k ==> services[j].name != n
    ensures k < |services| ==> services[k].name == n
  {
    if services == [] || services[0].name == n then 0 else 1 + Place(services[1..], n)
  }

  lemma StartOrderRanks<N(!new)>(st: State<N>, plan: seq<Service<N>>)
    requires Starving(st, plan) && DistinctNames(plan) && st.pending == []
    ensures DependenciesDependable(plan) && Acyclic(plan)
  {
    var services := ServicesOf(st.children);
    var rank: N -> nat := n => Place(services, n);
    forall i, d | 0 <= i < |plan| && d in plan[i].startAfter
      ensures rank(d) < rank(plan[i].name)
      ensures exists j :: 0 <= j < |plan| && plan[j].name == d && Dependable(plan[j])
    {
      StartedWaitedForDependable(st, plan, plan[i], d);
      StartedInPlace(st, plan, plan[i], d);
    }
    assert Ranked(plan, rank);
  }

  lemma DistinctServices<N(!new)>(st: State<N>)
    requires DistinctChildren(st)
    ensures DistinctNames(ServicesOf(st.children))
  {
  }

  lemma StartedInPlace<N(!new)>(st: State<N>, plan: seq<Service<N>>, s: Service<N>, d: N)
    requires Starving(st, plan) && DistinctNames(plan) && st.pending == [] && s in plan && d in s.startAfter
    ensures Place(ServicesOf(st.children), d) < Place(ServicesOf(st.children), s.name)
  {
    NamesApart(st, plan);
    DistinctServices(st);
    PendingOrStarted(st, plan, s);
    var k :| 0 <= k < |st.children| && st.children[k].service == s;
    DependencyPlacedBefore(ServicesOf(st.children), k, d);
  }

  lemma DependencyPlacedBefore<N(!new)>(services: seq<Service<N>>, k: nat, d: N)
    requires StartedOnDependables(services) && k < |services| && d in services[k].startAfter && DistinctNames(services)
    ensures Place(services, d) < Place(services, services[k].name)
  {
    var j :| 0 <= j < |services[..k]| && services[..k][j].name == d;
    assert services[j].name == d;
    var own := Place(services, services[k].name);
    assert own == k;
  }

  lemma InTimeMeansOrdered<N(!new)>(plan: seq<Service<N>>, timeout: int, gap: int, bound: int)
    requires DistinctNames(plan) && gap >= 1 && StartsWithin(plan, timeout, gap, bound)
    ensures DependenciesDependable(plan) && Acyclic(plan)
  {
    var n: nat := if bound < 0 then 0 else bound + 1;
    InitialStarves(plan);
    var trace, ticks := StarvingRun(Initial(plan), plan, n, 0, timeout, gap);
    MoreThan(n, gap, bound);
    StartOrderRanks(Run(Initial(plan), trace, timeout).0, plan);
  }

  lemma MoreThan(n: nat, gap: int, bound: int)
    requires gap >= 1 && n > bound
    ensures n * gap > bound
  {
    assert n * gap == n + n * (gap - 1);
  }

  /**
    A plan starts in bounded time, against every behaviour of processes, ports and clock, exactly when each
    dependency is required or portless and the dependencies have no cycle.
   */
  lemma StartsInTimeExactly<N(!new)>(plan: seq<Service<N>>, timeout: int, gap: int)
    requires DistinctNames(plan) && timeout >= 0 && gap >= 1
    ensures StartsInTime(plan, timeout, gap) <==> DependenciesDependable(plan) && Acyclic(plan)
  {
    if StartsInTime(plan, timeout, gap) {
      var bound: int :| StartsWithin(plan, timeout, gap, bound);
      InTimeMeansOrdered(plan, timeout, gap, bound);
    } else if DependenciesDependable(plan) && Acyclic(plan) {
      var rank: N -> nat :| Ranked(plan, rank);
      OrderedStartsInTime(plan, rank, timeout, gap);
    }
  }
}
