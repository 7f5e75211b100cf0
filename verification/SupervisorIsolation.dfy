/**
  An optional service that nothing waits for is an isolated module: whatever it does, the
  supervisor ends the same way and treats every other service the same way.
 */
module SupervisorIsolation {
  import opened Wrappers
  import opened ProductionPlan
  import opened Supervision
  import opened SupervisorSafety

  /** Two states that differ at most in what became of the optional service `name`. */
  ghost predicate Alike<N(!new)>(x: State<N>, y: State<N>, name: N) {
    && x.pending == y.pending
    && x.startedAt == y.startedAt
    && x.ready - {name} == y.ready - {name}
    && x.failed - {name} == y.failed - {name}
    && |x.children| == |y.children|
    && (forall i :: 0 <= i < |x.children| ==>
          && x.children[i].service == y.children[i].service
          && (x.children[i].service.name == name ==> !x.children[i].service.required)
          && (x.children[i].service.name != name ==> x.children[i] == y.children[i]))
  }

  /** Answers that agree on everything but the child at position p: also its spawn may work or fail. */
  ghost predicate SameAnswersExcept(e: PassEnv, f: PassEnv, p: nat) {
    && e.stop == f.stop
    && (forall i: nat :: e.startClock(i) == f.startClock(i) && (i != p ==> e.spawns(i) == f.spawns(i)))
    && (forall i: nat :: i != p ==>
        e.exits(i) == f.exits(i) && e.accepts(i) == f.accepts(i) && e.probeClock(i) == f.probeClock(i))
  }

  ghost predicate NobodyWaitsFor<N(!new)>(services: seq<Service<N>>, name: N) {
    forall s :: s in services ==> name !in s.startAfter && (s.name == name ==> !s.required)
  }

  lemma LaunchAlike<N(!new)>(x: State<N>, y: State<N>, s: Service<N>, clock: int, name: N)
    requires Alike(x, y, name) && s in x.pending && NobodyWaitsFor(x.pending, name)
    ensures Alike(Launch(x, s, clock), Launch(y, s, clock), name)
    ensures NobodyWaitsFor(Launch(x, s, clock).pending, name)
  {
    RemoveMultiset(x.pending, s);
    var rest := Remove(x.pending, s);
    forall t | t in rest ensures t in x.pending {
      assert t in multiset(rest);
      assert t in multiset(x.pending);
    }
    forall n ensures n in Launch(x, s, clock).ready - {name} <==> n in Launch(y, s, clock).ready - {name} {
      assert n in x.ready - {name} <==> n in y.ready - {name};
    }
  }

  lemma SameStartCondition<N(!new)>(x: State<N>, y: State<N>, s: Service<N>, name: N)
    requires Alike(x, y, name) && name !in s.startAfter
    ensures CanStart(s, x.ready) <==> CanStart(s, y.ready)
  {
    forall d | d in s.startAfter ensures d in x.ready <==> d in y.ready {
      assert d in x.ready - {name} <==> d in y.ready - {name};
    }
  }

  lemma {:induction false} StartAlike<N(!new)>(x: State<N>, y: State<N>, todo: seq<Service<N>>, e: PassEnv, f: PassEnv,
                                               p: nat, name: N)
    requires Alike(x, y, name) && NobodyWaitsFor(x.pending, name) && SameAnswersExcept(e, f, p)
    requires multiset(todo) <= multiset(x.pending) && (|x.children| > p || e.spawns(p) == f.spawns(p))
    ensures StartEach(x, todo, e).1 == StartEach(y, todo, f).1
    ensures Alike(StartEach(x, todo, e).0, StartEach(y, todo, f).0, name)
    ensures NobodyWaitsFor(StartEach(x, todo, e).0.pending, name)
    decreases |todo|
  {
    if todo != [] {
      assert todo == [todo[0]] + todo[1..];
      assert todo[0] in multiset(x.pending);
      SameStartCondition(x, y, todo[0], name);
      if !CanStart(todo[0], x.ready) {
        StartAlike(x, y, todo[1..], e, f, p, name);
      } else if e.spawns(|x.children|) {
        RemoveMultiset(x.pending, todo[0]);
        var clock := e.startClock(|x.children|);
        LaunchAlike(x, y, todo[0], clock, name);
        StartAlike(Launch(x, todo[0], clock), Launch(y, todo[0], clock), todo[1..], e, f, p, name);
      }
    }
  }

  /** Polling the isolated service never ends the run and touches nothing else. */
  lemma PollIsolated<N(!new)>(x: State<N>, i: nat, e: PassEnv, timeout: int, name: N)
    requires i < |x.children| && Tracked(x)
    requires x.children[i].service.name == name && !x.children[i].service.required
    ensures PollOne(x, i, e, timeout).1.Running?
    ensures var next := PollOne(x, i, e, timeout).0;
            && next == x.(children := next.children, ready := next.ready, failed := next.failed)
            && next.children == x.children[i := next.children[i]] && next.children[i].service == x.children[i].service
            && next.ready - {name} == x.ready - {name} && next.failed - {name} == x.failed - {name}
  {
  }

  /** Polling any other child gives the same answer and the same change on both sides. */
  lemma PollOtherAlike<N(!new)>(x: State<N>, y: State<N>, i: nat, e: PassEnv, f: PassEnv, p: nat, timeout: int, name: N)
    requires Alike(x, y, name) && Tracked(x) && Tracked(y) && SameAnswersExcept(e, f, p)
    requires i < |x.children| && i != p && x.children[i].service.name != name
    ensures PollOne(x, i, e, timeout).1 == PollOne(y, i, f, timeout).1
    ensures Alike(PollOne(x, i, e, timeout).0, PollOne(y, i, f, timeout).0, name)
  {
    var n := x.children[i].service.name;
    assert n in x.ready - {name} <==> n in y.ready - {name};
    assert n in x.failed - {name} <==> n in y.failed - {name};
    assert x.ready + {n} - {name} == (x.ready - {name}) + {n};
    assert y.ready + {n} - {name} == (y.ready - {name}) + {n};
    assert x.failed + {n} - {name} == (x.failed - {name}) + {n};
    assert y.failed + {n} - {name} == (y.failed - {name}) + {n};
  }

  lemma {:induction false} PollAlike<N(!new)>(x: State<N>, y: State<N>, i: nat, e: PassEnv, f: PassEnv, p: nat,
                                              timeout: int, name: N)
    requires Alike(x, y, name) && Tracked(x) && Tracked(y) && SameAnswersExcept(e, f, p)
    requires i <= |x.children| && (p < |x.children| ==> x.children[p].service.name == name)
    ensures PollFrom(x, i, e, timeout).1 == PollFrom(y, i, f, timeout).1
    ensures Alike(PollFrom(x, i, e, timeout).0, PollFrom(y, i, f, timeout).0, name)
    decreases |x.children| - i
  {
    if i < |x.children| {
      var nx, ny := PollOne(x, i, e, timeout), PollOne(y, i, f, timeout);
      if x.children[i].service.name == name {
        PollIsolated(x, i, e, timeout, name);
        PollIsolated(y, i, f, timeout, name);
        IsolatedAlike(x, y, nx.0, ny.0, i, name);
      } else {
        PollOtherAlike(x, y, i, e, f, p, timeout, name);
      }
      if nx.1.Running? {
        PollExtends(x, i, e, timeout);
        PollOneServices(x, i, e, timeout);
        PollOneServices(y, i, f, timeout);
        PollAlike(nx.0, ny.0, i + 1, e, f, p, timeout, name);
      }
    }
  }

  lemma PollOneServices<N(!new)>(x: State<N>, i: nat, e: PassEnv, timeout: int)
    requires i < |x.children| && Tracked(x)
    ensures SameServices(x.children, PollOne(x, i, e, timeout).0.children) && Tracked(PollOne(x, i, e, timeout).0)
  {
  }

  lemma IsolatedAlike<N(!new)>(x: State<N>, y: State<N>, nx: State<N>, ny: State<N>, i: nat, name: N)
    requires Alike(x, y, name) && i < |x.children| && x.children[i].service.name == name
    requires nx == x.(children := nx.children, ready := nx.ready, failed := nx.failed)
    requires ny == y.(children := ny.children, ready := ny.ready, failed := ny.failed)
    requires |nx.children| == |x.children| && |ny.children| == |y.children|
    requires nx.children == x.children[i := nx.children[i]] && nx.children[i].service == x.children[i].service
    requires ny.children == y.children[i := ny.children[i]] && ny.children[i].service == y.children[i].service
    requires nx.ready - {name} == x.ready - {name} && nx.failed - {name} == x.failed - {name}
    requires ny.ready - {name} == y.ready - {name} && ny.failed - {name} == y.failed - {name}
    ensures Alike(nx, ny, name)
  {
  }

  /** The isolated service, once started, is the child at position p. */
  ghost predicate PlacedAt<N(!new)>(st: State<N>, p: nat, name: N) {
    p < |st.children| && st.children[p].service.name == name
  }

  lemma PassAlike<N(!new)>(x: State<N>, y: State<N>, e: PassEnv, f: PassEnv, p: nat, timeout: int, name: N)
    requires Alike(x, y, name) && Tracked(x) && Tracked(y) && SameAnswersExcept(e, f, p)
        && NobodyWaitsFor(x.pending, name)
    requires PlacedAt(x, p, name) || e.spawns(p) == f.spawns(p)
    requires StartEach(x, x.pending, e).1 ==> PlacedAt(StartEach(x, x.pending, e).0, p, name)
    ensures Pass(x, e, timeout).1 == Pass(y, f, timeout).1
    ensures Alike(Pass(x, e, timeout).0, Pass(y, f, timeout).0, name)
    ensures Pass(x, e, timeout).1.InFlight? ==>
        PlacedAt(Pass(x, e, timeout).0, p, name) && NobodyWaitsFor(Pass(x, e, timeout).0.pending, name)
  {
    StartAlike(x, y, x.pending, e, f, p, name);
    StartKeepsTracked(x, x.pending, e);
    StartKeepsTracked(y, y.pending, f);
    var sx, sy := StartEach(x, x.pending, e), StartEach(y, y.pending, f);
    if sx.1 {
      PollAlike(sx.0, sy.0, 0, e, f, p, timeout, name);
      PollExtends(sx.0, 0, e, timeout);
    }
  }

  lemma PlacementStays<N(!new)>(st: State<N>, e: PassEnv, p: nat, name: N)
    requires PlacedAt(st, p, name)
    ensures PlacedAt(StartEach(st, st.pending, e).0, p, name)
  {
    StartExtends(st, st.pending, e);
    var next := StartEach(st, st.pending, e).0;
    assert ServicesOf(st.children)[p] == ServicesOf(next.children)[p];
  }

  lemma {:induction false} RunAlike<N(!new)>(x: State<N>, y: State<N>, es: seq<PassEnv>, fs: seq<PassEnv>, p: nat,
                                             timeout: int, name: N)
    requires Alike(x, y, name) && Tracked(x) && Tracked(y) && NobodyWaitsFor(x.pending, name)
    requires |es| == |fs| && forall k :: 0 <= k < |es| ==> SameAnswersExcept(es[k], fs[k], p)
    requires es != [] && !es[0].stop ==> PlacedAt(x, p, name) || es[0].spawns(p) == fs[0].spawns(p)
    requires es != [] && !es[0].stop && StartEach(x, x.pending, es[0]).1 ==>
               PlacedAt(StartEach(x, x.pending, es[0]).0, p, name)
    ensures Run(x, es, timeout).1 == Run(y, fs, timeout).1
    ensures Alike(Run(x, es, timeout).0, Run(y, fs, timeout).0, name)
    decreases |es|
  {
    if es != [] && !es[0].stop {
      PassAlike(x, y, es[0], fs[0], p, timeout, name);
      var nx, ny := Pass(x, es[0], timeout), Pass(y, fs[0], timeout);
      if nx.1.InFlight? {
        PassKeepsTracked(x, es[0], timeout);
        PassKeepsTracked(y, fs[0], timeout);
        if es[1..] != [] { PlacementStays(nx.0, es[1..][0], p, name); }
        RunAlike(nx.0, ny.0, es[1..], fs[1..], p, timeout, name);
      }
    }
  }

  /** A first service without dependencies is the first child. */
  lemma FirstServiceFirst<N(!new)>(plan: seq<Service<N>>, e: PassEnv)
    requires plan != [] && plan[0].startAfter == []
    ensures StartEach(Initial(plan), plan, e).1 ==> PlacedAt(StartEach(Initial(plan), plan, e).0, 0, plan[0].name)
  {
    var st := Initial(plan);
    if e.spawns(0) {
      RemoveMultiset(plan, plan[0]);
      assert plan == [plan[0]] + plan[1..];
      var next := Launch(st, plan[0], e.startClock(0));
      StartExtends(next, plan[1..], e);
      var last := StartEach(next, plan[1..], e).0;
      assert ServicesOf(next.children)[0] == plan[0];
      assert ServicesOf(last.children)[0] == plan[0];
    }
  }

  // ---------- the first service of a plan ----------

  /** The first service is optional, waits for nothing, and nothing waits for it. */
  ghost predicate IsolatedFirst<N(!new)>(plan: seq<Service<N>>, name: N) {
    plan != [] && plan[0].name == name && plan[0].startAfter == [] && NobodyWaitsFor(plan, name)
  }

  /** The very first spawn of the run raises. */
  predicate FirstSpawnFails(es: seq<PassEnv>) {
    es != [] && !es[0].stop && !es[0].spawns(0)
  }

  lemma FailedSpawnEndsRun<N(!new)>(plan: seq<Service<N>>, es: seq<PassEnv>, timeout: int)
    requires plan != [] && plan[0].startAfter == [] && FirstSpawnFails(es)
    ensures Run(Initial(plan), es, timeout) == (Initial(plan), Raised)
  {
    assert CanStart(plan[0], Initial(plan).ready);
    assert StartEach(Initial(plan), plan, es[0]) == (Initial(plan), false);
  }

  lemma SuccessfulSpawnStarts<N(!new)>(plan: seq<Service<N>>, es: seq<PassEnv>, timeout: int)
    requires plan != [] && plan[0].startAfter == [] && es != [] && !es[0].stop && es[0].spawns(0)
    ensures Run(Initial(plan), es, timeout).0.children != []
  {
    var st, e := Initial(plan), es[0];
    var first := Launch(st, plan[0], e.startClock(0));
    StartExtends(first, plan[1..], e);
    assert |ServicesOf(first.children)| == 1;
    assert StartEach(st, plan, e) == StartEach(first, plan[1..], e);
    StartKeepsTracked(st, plan, e);
    PollExtends(StartEach(st, plan, e).0, 0, e, timeout);
    InitialInvariant(plan);
    PassKeepsInvariant(st, e, timeout, plan);
    var (next, end) := Pass(st, e, timeout);
    if end.InFlight? { RunKeepsInvariant(next, es[1..], timeout, plan); }
  }

  lemma SameStart<N(!new)>(plan: seq<Service<N>>, name: N)
    requires NobodyWaitsFor(plan, name)
    ensures Alike(Initial(plan), Initial(plan), name)
  {
  }

  /** Both runs end the same way and treat every other service alike. */
  ghost predicate SameRuns<N(!new)>(plan: seq<Service<N>>, es: seq<PassEnv>, fs: seq<PassEnv>, timeout: int, name: N) {
    && Run(Initial(plan), es, timeout).1 == Run(Initial(plan), fs, timeout).1
    && Alike(Run(Initial(plan), es, timeout).0, Run(Initial(plan), fs, timeout).0, name)
  }

  lemma SpawnedAlike<N(!new)>(plan: seq<Service<N>>, es: seq<PassEnv>, fs: seq<PassEnv>, timeout: int, name: N)
    requires IsolatedFirst(plan, name) && FirstSpawnFails(es) == FirstSpawnFails(fs)
    requires |es| == |fs| && forall k :: 0 <= k < |es| ==> SameAnswersExcept(es[k], fs[k], 0)
    ensures SameRuns(plan, es, fs, timeout, name)
  {
    SameStart(plan, name);
    if es != [] { FirstServiceFirst(plan, es[0]); }
    RunAlike(Initial(plan), Initial(plan), es, fs, 0, timeout, name);
  }

  /** Isolation holds for every behaviour of the service, exactly unless its own spawn fails in one run only. */
  lemma FirstIsIsolatedExactly<N(!new)>(plan: seq<Service<N>>, es: seq<PassEnv>, fs: seq<PassEnv>, timeout: int,
                                        name: N)
    requires IsolatedFirst(plan, name)
    requires |es| == |fs| && forall k :: 0 <= k < |es| ==> SameAnswersExcept(es[k], fs[k], 0)
    ensures SameRuns(plan, es, fs, timeout, name) <==> (FirstSpawnFails(es) <==> FirstSpawnFails(fs))
  {
    if FirstSpawnFails(es) == FirstSpawnFails(fs) {
      SpawnedAlike(plan, es, fs, timeout, name);
    } else if FirstSpawnFails(es) {
      FailedSpawnEndsRun(plan, es, timeout);
      SuccessfulSpawnStarts(plan, fs, timeout);
    } else {
      FailedSpawnEndsRun(plan, fs, timeout);
      SuccessfulSpawnStarts(plan, es, timeout);
    }
  }

  // ---------- the discovery collector ----------

  /**
    In every plan the launcher builds with the discovery collector, two runs whose answers differ only about that
    collector -- whether its spawn works, when it exits, whether its port ever accepts, when it is probed -- end
    the same way, and start, await and time every other service alike, exactly unless its spawn fails in just one.
   */
  lemma DiscoveryIsIsolated(s: Settings, es: seq<PassEnv>, fs: seq<PassEnv>, timeout: int)
    requires BuildServices(s).Success? && Discovery in SelectedComponents(s.components).value
    requires |es| == |fs| && forall k :: 0 <= k < |es| ==> SameAnswersExcept(es[k], fs[k], 0)
    ensures SameRuns(BuildServices(s).value, es, fs, timeout, Discovery)
       <==> (FirstSpawnFails(es) <==> FirstSpawnFails(fs))
  {
    DiscoveryComesFirst(s);
    FirstIsIsolatedExactly(BuildServices(s).value, es, fs, timeout, Discovery);
  }

  /** Isolation fails there: when the collector cannot be spawned, the run raises and no service is ever started. */
  lemma FailedDiscoverySpawnEndsRun(s: Settings, es: seq<PassEnv>, timeout: int)
    requires BuildServices(s).Success? && Discovery in SelectedComponents(s.components).value
    requires FirstSpawnFails(es)
    ensures var plan := BuildServices(s).value; Run(Initial(plan), es, timeout) == (Initial(plan), Raised)
  {
    DiscoveryComesFirst(s);
    FailedSpawnEndsRun(BuildServices(s).value, es, timeout);
  }

  lemma DiscoveryComesFirst(s: Settings)
    requires BuildServices(s).Success? && Discovery in SelectedComponents(s.components).value
    ensures IsolatedFirst(BuildServices(s).value, Discovery)
  {
    var selected := SelectedComponents(s.components).value;
    CheckedDiscoveryFirst(selected, s);
  }

  lemma CheckedDiscoveryFirst(selected: set<Component>, s: Settings)
    requires CheckedServices(selected, s).Success? && Discovery in selected
    ensures IsolatedFirst(CheckedServices(selected, s).value, Discovery)
  {
    ChosenInOrder(selected);
    DiscoveryFirst(Selection(ORDER, selected), selected, s);
  }

  lemma DiscoveryFirst(chosen: seq<Component>, selected: set<Component>, s: Settings)
    requires Ascending(chosen) && Discovery in chosen
    ensures IsolatedFirst(Services(chosen, selected, s), Discovery)
  {
    var i :| 0 <= i < |chosen| && chosen[i] == Discovery;
    assert i > 0 ==> Position(chosen[0]) < Position(chosen[i]);
  }
}
