/** What a poll records, child by child, and what a service has waited for when it is started. */
module SupervisorReadiness {
  import opened Wrappers
  import opened ProductionPlan
  import opened PlanShape
  import opened Supervision
  import opened SupervisorSafety

  // ---------- one poll ----------

  /** The child is still watched: it has not been given up. */
  ghost predicate Watched<N(!new)>(st: State<N>, i: nat) {
    i < |st.children| && st.children[i].service.name !in st.failed
  }

  /** A watched child that is alive, not ready yet, has a port, and whose port accepts. */
  ghost predicate Accepts<N(!new)>(st: State<N>, i: nat, env: PassEnv) {
    && Watched(st, i)
    && st.children[i].exit.None? && env.exits(i).None?
    && st.children[i].service.name !in st.ready && st.children[i].service.readyPort.Some?
    && env.accepts(i)
  }

  ghost predicate IsDead<N(!new)>(st: State<N>, i: nat, env: PassEnv) {
    Watched(st, i) && (st.children[i].exit.Some? || env.exits(i).Some?)
  }

  /** A watched child that is alive and not ready although its timeout has passed since its start. */
  ghost predicate IsLate<N(!new)>(st: State<N>, i: nat, env: PassEnv, timeout: int) {
    && Watched(st, i)
    && st.children[i].exit.None? && env.exits(i).None?
    && st.children[i].service.name !in st.ready && st.children[i].service.readyPort.Some?
    && !env.accepts(i)
    && st.children[i].service.name in st.startedAt
    && env.probeClock(i) - st.startedAt[st.children[i].service.name] >= timeout
  }

  /** The child as a poll leaves it: a dead one is reaped, a late optional one is told to terminate. */
  ghost predicate PolledChild<N(!new)>(st: State<N>, after: Child<N>, i: nat, env: PassEnv, timeout: int)
    requires i < |st.children|
  {
    var c := st.children[i];
    after == if IsDead(st, i, env) && c.exit.None? then c.(exit := env.exits(i))
             else if IsLate(st, i, env, timeout) && !c.service.required then c.(terminated := true)
             else c
  }

  ghost predicate GivenUp<N(!new)>(st: State<N>, i: nat, env: PassEnv, timeout: int) {
    i < |st.children| && !st.children[i].service.required && (IsDead(st, i, env) || IsLate(st, i, env, timeout))
  }

  /** A poll of the children from position i on that ends nothing has recorded exactly this. */
  ghost predicate PolledFrom<N(!new)>(st: State<N>, next: State<N>, i: nat, env: PassEnv, timeout: int) {
    && next.pending == st.pending && next.startedAt == st.startedAt
    && |next.children| == |st.children|
    && (forall k :: 0 <= k < i <= |st.children| ==> next.children[k] == st.children[k])
    && (forall k :: i <= k < |st.children| ==> PolledChild(st, next.children[k], k, env, timeout))
    && (forall n :: n in next.ready <==> n in st.ready || exists k :: i <= k && Accepts(st, k, env)
                                                                    && st.children[k].service.name == n)
    && (forall n :: n in next.failed <==> n in st.failed || exists k :: i <= k && GivenUp(st, k, env, timeout)
                                                                      && st.children[k].service.name == n)
  }

  /** Polling one child, in the terms above. */
  lemma PollOneExactly<N(!new)>(st: State<N>, i: nat, env: PassEnv, timeout: int)
    requires i < |st.children| && Tracked(st)
    ensures var (next, outcome) := PollOne(st, i, env, timeout);
            outcome.Running? ==>
              && next.pending == st.pending && next.startedAt == st.startedAt
              && |next.children| == |st.children|
              && (forall k :: 0 <= k < |st.children| && k != i ==> next.children[k] == st.children[k])
              && PolledChild(st, next.children[i], i, env, timeout)
              && next.ready == st.ready + (if Accepts(st, i, env) then {st.children[i].service.name} else {})
              && next.failed ==
                 st.failed + (if GivenUp(st, i, env, timeout) then {st.children[i].service.name} else {})
  {
  }

  /** Another child's poll does not change what this child's poll finds. */
  lemma PollsApart<N(!new)>(st: State<N>, next: State<N>, i: nat, k: nat, env: PassEnv, timeout: int)
    requires i < |st.children| == |next.children| && k < |st.children| && k != i && DistinctChildren(st)
    requires next.children[k] == st.children[k] && next.startedAt == st.startedAt
    requires st.ready <= next.ready <= st.ready + {st.children[i].service.name}
    requires st.failed <= next.failed <= st.failed + {st.children[i].service.name}
    ensures Accepts(next, k, env) <==> Accepts(st, k, env)
    ensures GivenUp(next, k, env, timeout) <==> GivenUp(st, k, env, timeout)
    ensures forall after :: PolledChild(next, after, k, env, timeout) <==> PolledChild(st, after, k, env, timeout)
  {
  }

  lemma PolledCons<N(!new)>(st: State<N>, next: State<N>, last: State<N>, i: nat, env: PassEnv, timeout: int)
    requires i < |st.children| && Tracked(st) && DistinctChildren(st)
    requires PollOne(st, i, env, timeout) == (next, Running)
    requires PolledFrom(next, last, i + 1, env, timeout)
    ensures PolledFrom(st, last, i, env, timeout)
  {
    PollOneExactly(st, i, env, timeout);
    forall k | 0 <= k < |st.children| && k != i
      ensures Accepts(next, k, env) <==> Accepts(st, k, env)
      ensures GivenUp(next, k, env, timeout) <==> GivenUp(st, k, env, timeout)
      ensures forall after :: PolledChild(next, after, k, env, timeout) <==> PolledChild(st, after, k, env, timeout)
    {
      PollsApart(st, next, i, k, env, timeout);
    }
    assert last.children[i] == next.children[i];
  }

  /**
    A poll that does not end the run, exactly: a service becomes ready if and only if its process is watched,
    alive and its port accepts; a service is given up if and only if it is optional and dead or late; dead
    processes are reaped with their code and late optional ones are told to terminate; nothing else changes.
   */
  lemma {:induction false} PollRecordsExactly<N(!new)>(st: State<N>, i: nat, env: PassEnv, timeout: int)
    requires i <= |st.children| && Tracked(st) && DistinctChildren(st)
    ensures PollFrom(st, i, env, timeout).1.Running? ==>
            PolledFrom(st, PollFrom(st, i, env, timeout).0, i, env, timeout)
    decreases |st.children| - i
  {
    if i < |st.children| {
      var (next, outcome) := PollOne(st, i, env, timeout);
      if outcome.Running? {
        PollOneIsLocalToAll(st, i, env, timeout);
        PollRecordsExactly(next, i + 1, env, timeout);
        if PollFrom(st, i, env, timeout).1.Running? {
          PolledCons(st, next, PollFrom(st, i, env, timeout).0, i, env, timeout);
        }
      }
    }
  }

  /** However a poll ends, it marks nothing as ready but started services with a port that accepted. */
  lemma {:induction false} ReadyMeansAccepted<N(!new)>(st: State<N>, i: nat, env: PassEnv, timeout: int, n: N)
    requires i <= |st.children| && Tracked(st)
    requires n in PollFrom(st, i, env, timeout).0.ready && n !in st.ready
    ensures exists k :: i <= k < |st.children| && st.children[k].service.name == n
                     && st.children[k].service.readyPort.Some? && env.accepts(k)
    decreases |st.children| - i
  {
    if i < |st.children| {
      var (next, outcome) := PollOne(st, i, env, timeout);
      if n in next.ready {
        assert st.children[i].service.name == n;
      } else {
        ReadyMeansAccepted(next, i + 1, env, timeout, n);
        var k :| i + 1 <= k < |next.children| && next.children[k].service.name == n
              && next.children[k].service.readyPort.Some? && env.accepts(k);
        assert st.children[k].service == next.children[k].service;
      }
    }
  }

  // ---------- whole runs ----------

  /** The run after the first t passes of the trace. */
  ghost function After<N(!new)>(plan: seq<Service<N>>, trace: seq<PassEnv>, t: nat, timeout: int): (State<N>, End)
    requires t <= |trace|
  {
    Run(Initial(plan), trace[..t], timeout)
  }

  /** One more pass after a run that is still in flight; an ended run stays as it is. */
  lemma {:induction false} RunSnoc<N(!new)>(st: State<N>, trace: seq<PassEnv>, e: PassEnv, timeout: int)
    requires Tracked(st)
    ensures var (last, end) := Run(st, trace, timeout);
            && Tracked(last)
            && Run(st, trace + [e], timeout) ==
               if !end.InFlight? then (last, end) else if e.stop then (last, End.Left(0)) else Pass(last, e, timeout)
    decreases |trace|
  {
    var longer := trace + [e];
    if trace == [] {
      assert longer == [e] && longer[1..] == [];
      if !e.stop { var (next, end) := Pass(st, e, timeout); }
    } else {
      assert longer[0] == trace[0] && longer[1..] == trace[1..] + [e];
      if !trace[0].stop {
        PassKeepsTracked(st, trace[0], timeout);
        var (next, end) := Pass(st, trace[0], timeout);
        if end == InFlight { RunSnoc(next, trace[1..], e, timeout); }
      }
    }
  }

  ghost predicate Portless<N(!new)>(children: seq<Child<N>>, from: nat, to: nat, d: N) {
    exists j :: from <= j < to <= |children| && children[j].service.name == d && children[j].service.readyPort.None?
  }

  /** A start phase starts a process only where the spawn works, and raises only at a spawn that fails. */
  lemma {:induction false} SpawnsExactly<N(!new)>(st: State<N>, todo: seq<Service<N>>, env: PassEnv)
    ensures var (last, spawned) := StartEach(st, todo, env);
            && |st.children| <= |last.children|
            && (forall k :: |st.children| <= k < |last.children| ==> env.spawns(k))
            && (!spawned ==> !env.spawns(|last.children|))
    decreases |todo|
  {
    if todo != [] {
      if !CanStart(todo[0], st.ready) {
        SpawnsExactly(st, todo[1..], env);
      } else if env.spawns(|st.children|) {
        SpawnsExactly(Launch(st, todo[0], env.startClock(|st.children|)), todo[1..], env);
      }
    }
  }

  /** Whatever a start phase adds to the ready set are services without a port, started in that phase. */
  lemma {:induction false} StartAddsPortless<N(!new)>(st: State<N>, todo: seq<Service<N>>, env: PassEnv, n: N)
    requires n in StartEach(st, todo, env).0.ready && n !in st.ready
    ensures var children := StartEach(st, todo, env).0.children;
            |st.children| <= |children| && Portless(children, |st.children|, |children|, n)
    decreases |todo|
  {
    if !CanStart(todo[0], st.ready) {
      StartAddsPortless(st, todo[1..], env, n);
    } else {
      var next := Launch(st, todo[0], env.startClock(|st.children|));
      var last := StartEach(next, todo[1..], env).0;
      StartExtends(next, todo[1..], env);
      if n in next.ready {
        assert ServicesOf(next.children)[|st.children|] == todo[0];
        assert last.children[|st.children|].service == ServicesOf(last.children)[|st.children|] == todo[0];
      } else {
        StartAddsPortless(next, todo[1..], env, n);
      }
    }
  }

  /** Whatever a start phase starts waited for names that were ready before it, or that it started without a port. */
  lemma {:induction false} StartWaitedFor<N(!new)>(st: State<N>, todo: seq<Service<N>>, env: PassEnv, k: nat, d: N)
    requires |st.children| <= k < |StartEach(st, todo, env).0.children|
    requires d in StartEach(st, todo, env).0.children[k].service.startAfter
    ensures d in st.ready || Portless(StartEach(st, todo, env).0.children, |st.children|, k, d)
    decreases |todo|
  {
    if !CanStart(todo[0], st.ready) {
      StartWaitedFor(st, todo[1..], env, k, d);
    } else {
      var here := |st.children|;
      var next := Launch(st, todo[0], env.startClock(here));
      var last := StartEach(next, todo[1..], env).0;
      StartExtends(next, todo[1..], env);
      assert ServicesOf(next.children)[here] == todo[0];
      assert last.children[here].service == ServicesOf(last.children)[here] == todo[0];
      if k > here {
        StartWaitedFor(next, todo[1..], env, k, d);
        if d in next.ready && d !in st.ready {
          assert last.children[here].service.name == d && last.children[here].service.readyPort.None?;
        }
      }
    }
  }

  /** Process j was running in one of the first t passes, and its port accepted in that pass. */
  ghost predicate Heard<N(!new)>(plan: seq<Service<N>>, trace: seq<PassEnv>, t: nat, timeout: int, j: nat)
    requires t <= |trace|
  {
    exists u :: 0 <= u < t && j < |After(plan, trace, u + 1, timeout).0.children| && trace[u].accepts(j)
  }

  /** A process before position k has this name; it has no port, or its port accepted within the first t passes. */
  ghost predicate Met<N(!new)>(plan: seq<Service<N>>, trace: seq<PassEnv>, t: nat, timeout: int,
                               services: seq<Service<N>>, k: nat, d: N)
    requires t <= |trace|
  {
    exists j :: 0 <= j < k <= |services| && services[j].name == d
             && (services[j].readyPort.None? || Heard(plan, trace, t, timeout, j))
  }

  ghost function Started<N(!new)>(plan: seq<Service<N>>, trace: seq<PassEnv>, t: nat, timeout: int): seq<Service<N>>
    requires t <= |trace|
  {
    ServicesOf(After(plan, trace, t, timeout).0.children)
  }

  lemma BeforeFirstPass<N(!new)>(plan: seq<Service<N>>, trace: seq<PassEnv>, timeout: int)
    ensures After(plan, trace, 0, timeout) == (Initial(plan), InFlight)
    ensures Started(plan, trace, 0, timeout) == []
  {
    assert trace[..0] == [];
  }

  /** How the run gets from its first t passes to one more. */
  lemma AfterNext<N(!new)>(plan: seq<Service<N>>, trace: seq<PassEnv>, t: nat, timeout: int)
    requires t < |trace|
    ensures var (st, end) := After(plan, trace, t, timeout);
            && Tracked(st)
            && After(plan, trace, t + 1, timeout) ==
               (if !end.InFlight? then (st, end)
                else if trace[t].stop then (st, End.Left(0))
                else Pass(st, trace[t], timeout))
    ensures Started(plan, trace, t, timeout) <= Started(plan, trace, t + 1, timeout)
  {
    assert trace[..t + 1] == trace[..t] + [trace[t]];
    RunSnoc(Initial(plan), trace[..t], trace[t], timeout);
    PassExtends(After(plan, trace, t, timeout).0, trace[t], timeout);
  }

  lemma MetLater<N(!new)>(plan: seq<Service<N>>, trace: seq<PassEnv>, t: nat, t': nat, timeout: int,
                          services: seq<Service<N>>, services': seq<Service<N>>, k: nat, k': nat, d: N)
    requires t <= t' <= |trace| && services <= services' && k <= k' <= |services'|
    requires Met(plan, trace, t, timeout, services, k, d)
    ensures Met(plan, trace, t', timeout, services', k', d)
  {
    var j :| 0 <= j < k <= |services| && services[j].name == d
          && (services[j].readyPort.None? || Heard(plan, trace, t, timeout, j));
    assert services'[j] == services[j];
  }

  /** While the supervisor runs, whoever is ready has no port or was heard in an earlier pass. */
  lemma {:induction false} ReadyWasHeard<N(!new)>(plan: seq<Service<N>>, trace: seq<PassEnv>, t: nat, timeout: int,
                                                  n: N)
    requires t <= |trace| && After(plan, trace, t, timeout).1.InFlight?
    requires n in After(plan, trace, t, timeout).0.ready
    ensures Met(plan, trace, t, timeout, Started(plan, trace, t, timeout), |Started(plan, trace, t, timeout)|, n)
  {
    BeforeFirstPass(plan, trace, timeout);
    if t > 0 {
      AfterNext(plan, trace, t - 1, timeout);
      var before := After(plan, trace, t - 1, timeout).0;
      if n in before.ready {
        ReadyWasHeard(plan, trace, t - 1, timeout, n);
        MetLater(plan, trace, t - 1, t, timeout, Started(plan, trace, t - 1, timeout), Started(plan, trace, t, timeout),
                 |before.children|, |Started(plan, trace, t, timeout)|, n);
      } else {
        PassReadiesHeard(plan, trace, t - 1, timeout, n);
      }
    }
  }

  lemma PassReadiesHeard<N(!new)>(plan: seq<Service<N>>, trace: seq<PassEnv>, t: nat, timeout: int, n: N)
    requires t < |trace| && After(plan, trace, t + 1, timeout).1.InFlight?
    requires n in After(plan, trace, t + 1, timeout).0.ready && n !in After(plan, trace, t, timeout).0.ready
    ensures var services := Started(plan, trace, t + 1, timeout);
            Met(plan, trace, t + 1, timeout, services, |services|, n)
  {
    AfterNext(plan, trace, t, timeout);
    var st, env, services := After(plan, trace, t, timeout).0, trace[t], Started(plan, trace, t + 1, timeout);
    StartKeepsTracked(st, st.pending, env);
    var started := StartEach(st, st.pending, env).0;
    PollExtends(started, 0, env, timeout);
    if n in started.ready {
      StartAddsPortless(st, st.pending, env, n);
      var j :| |st.children| <= j < |started.children| && started.children[j].service.name == n
            && started.children[j].service.readyPort.None?;
      assert services[j] == started.children[j].service;
    } else {
      ReadyMeansAccepted(started, 0, env, timeout, n);
      var j :| 0 <= j < |started.children| && started.children[j].service.name == n
            && started.children[j].service.readyPort.Some? && env.accepts(j);
      assert services[j] == started.children[j].service;
      assert Heard(plan, trace, t + 1, timeout, j);
    }
  }

  /** Process k was started in pass u, and everything it waits for was met before that pass. */
  ghost predicate StartedAfterAll<N(!new)>(plan: seq<Service<N>>, trace: seq<PassEnv>, u: nat, timeout: int,
                                           services: seq<Service<N>>, k: nat) {
    && u < |trace| && k < |services|
    && |Started(plan, trace, u, timeout)| <= k < |Started(plan, trace, u + 1, timeout)|
    && forall d :: d in services[k].startAfter ==> Met(plan, trace, u, timeout, services, k, d)
  }

  lemma PassStartsAfterAll<N(!new)>(plan: seq<Service<N>>, trace: seq<PassEnv>, t: nat, timeout: int, k: nat)
    requires t < |trace| && |Started(plan, trace, t, timeout)| <= k < |Started(plan, trace, t + 1, timeout)|
    ensures StartedAfterAll(plan, trace, t, timeout, Started(plan, trace, t + 1, timeout), k)
  {
    AfterNext(plan, trace, t, timeout);
    var st, env, services := After(plan, trace, t, timeout).0, trace[t], Started(plan, trace, t + 1, timeout);
    StartKeepsTracked(st, st.pending, env);
    var started := StartEach(st, st.pending, env).0;
    PollExtends(started, 0, env, timeout);
    assert services == ServicesOf(started.children);
    forall d | d in services[k].startAfter ensures Met(plan, trace, t, timeout, services, k, d) {
      StartWaitedFor(st, st.pending, env, k, d);
      if d in st.ready {
        ReadyWasHeard(plan, trace, t, timeout, d);
        MetLater(plan, trace, t, t, timeout, Started(plan, trace, t, timeout), services, |st.children|, k, d);
      } else {
        var j :| |st.children| <= j < k && started.children[j].service.name == d
              && started.children[j].service.readyPort.None?;
        assert services[j] == started.children[j].service;
      }
    }
  }

  /**
    In every run of any plan, whatever its end: each process was started in some pass, and everything it waits
    for had been started before it and has no port, or its port had accepted in an earlier pass.
   */
  lemma {:induction false} DependenciesWereHeard<N(!new)>(plan: seq<Service<N>>, trace: seq<PassEnv>, t: nat,
                                                          timeout: int,
                                                          k: nat)
    requires t <= |trace| && k < |Started(plan, trace, t, timeout)|
    ensures exists u: nat :: u < t && StartedAfterAll(plan, trace, u, timeout, Started(plan, trace, t, timeout), k)
  {
    BeforeFirstPass(plan, trace, timeout);
    if t > 0 {
      AfterNext(plan, trace, t - 1, timeout);
      if k < |Started(plan, trace, t - 1, timeout)| {
        DependenciesWereHeard(plan, trace, t - 1, timeout, k);
        var u: nat :| u < t - 1 && StartedAfterAll(plan, trace, u, timeout, Started(plan, trace, t - 1, timeout), k);
        StillAfterAll(plan, trace, u, timeout, Started(plan, trace, t - 1, timeout), Started(plan, trace, t, timeout),
            k);
      } else {
        PassStartsAfterAll(plan, trace, t - 1, timeout, k);
      }
    }
  }

  lemma StillAfterAll<N(!new)>(plan: seq<Service<N>>, trace: seq<PassEnv>, u: nat, timeout: int,
                               services: seq<Service<N>>, services': seq<Service<N>>, k: nat)
    requires StartedAfterAll(plan, trace, u, timeout, services, k) && services <= services'
    ensures StartedAfterAll(plan, trace, u, timeout, services', k)
  {
    assert services'[k] == services[k];
    forall d | d in services'[k].startAfter ensures Met(plan, trace, u, timeout, services', k, d) {
      MetLater(plan, trace, u, u, timeout, services, services', k, k, d);
    }
  }

  lemma StartedFromPlan<N(!new)>(plan: seq<Service<N>>, trace: seq<PassEnv>, t: nat, timeout: int, k: nat)
    requires t <= |trace| && k < |Started(plan, trace, t, timeout)|
    ensures exists i :: 0 <= i < |plan| && plan[i] == Started(plan, trace, t, timeout)[k]
  {
    InitialInvariant(plan);
    RunKeepsInvariant(Initial(plan), trace[..t], timeout, plan);
    var x := Started(plan, trace, t, timeout)[k];
    assert x in multiset(Started(plan, trace, t, timeout));
    assert x in multiset(plan);
  }

  /** Process k was started in pass u, and the port of a process of this component had accepted before that pass. */
  ghost predicate WaitedFor(plan: seq<Service<Component>>, trace: seq<PassEnv>, u: nat, timeout: int,
                            services: seq<Service<Component>>, k: nat, d: Component) {
    && u < |trace| && |Started(plan, trace, u, timeout)| <= k < |Started(plan, trace, u + 1, timeout)|
    && exists j :: 0 <= j < k <= |services| && services[j].name == d && Heard(plan, trace, u, timeout, j)
  }

  /** The two clients have waited for the API, and the API for the data plane where there is one. */
  ghost predicate ClientsWaited(plan: seq<Service<Component>>, trace: seq<PassEnv>, u: nat, timeout: int,
                                services: seq<Service<Component>>, k: nat, dataPlane: bool)
    requires k < |services|
  {
    && (services[k].name == Controller || services[k].name == Activator ==>
          WaitedFor(plan, trace, u, timeout, services, k, Api))
    && (services[k].name == Api && dataPlane ==> WaitedFor(plan, trace, u, timeout, services, k, Rust))
  }

  lemma PortedWasHeard(s: Settings, plan: seq<Service<Component>>, trace: seq<PassEnv>, t: nat, u: nat, timeout: int,
                       k: nat, d: Component)
    requires BuildServices(s) == Success(plan) && t <= |trace| && (d == Api || d == Rust)
    requires StartedAfterAll(plan, trace, u, timeout, Started(plan, trace, t, timeout), k)
    requires d in Started(plan, trace, t, timeout)[k].startAfter
    ensures WaitedFor(plan, trace, u, timeout, Started(plan, trace, t, timeout), k, d)
  {
    var services := Started(plan, trace, t, timeout);
    var j :| 0 <= j < k <= |services| && services[j].name == d
          && (services[j].readyPort.None? || Heard(plan, trace, u, timeout, j));
    StartedFromPlan(plan, trace, t, timeout, j);
    BuiltPlanIsAsWritten(s);
  }

  /**
    In every run of every built plan the controller and the activator are started only after a pass in which the
    API's port accepted, and so is the API after the data plane's port, if that is selected.
   */
  lemma BuiltPlanWaits(s: Settings, trace: seq<PassEnv>, t: nat, timeout: int, k: nat)
    requires BuildServices(s).Success? && t <= |trace| && k < |Started(BuildServices(s).value, trace, t, timeout)|
    ensures SelectedComponents(s.components).Success?
    ensures var plan, services := BuildServices(s).value, Started(BuildServices(s).value, trace, t, timeout);
            exists u: nat :: u < t && ClientsWaited(plan, trace, u, timeout, services, k,
                                                    Rust in SelectedComponents(s.components).value)
  {
    var plan, services := BuildServices(s).value, Started(BuildServices(s).value, trace, t, timeout);
    BuiltPlanIsAsWritten(s);
    StartedFromPlan(plan, trace, t, timeout, k);
    DependenciesWereHeard(plan, trace, t, timeout, k);
    var u: nat :| u < t && StartedAfterAll(plan, trace, u, timeout, services, k);
    if services[k].name == Controller || services[k].name == Activator {
      PortedWasHeard(s, plan, trace, t, u, timeout, k, Api);
    }
    if services[k].name == Api && Rust in SelectedComponents(s.components).value {
      PortedWasHeard(s, plan, trace, t, u, timeout, k, Rust);
    }
    assert ClientsWaited(plan, trace, u, timeout, services, k, Rust in SelectedComponents(s.components).value);
  }
}
