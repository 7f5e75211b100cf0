/** What every run of the supervisor keeps, whatever the processes, the ports and the clock do. */
module SupervisorSafety {
  import opened Wrappers
  import opened ProductionPlan
  import opened Supervision

  function ServicesOf<N>(children: seq<Child<N>>): (r: seq<Service<N>>)
    ensures |r| == |children| && forall i :: 0 <= i < |r| ==> r[i] == children[i].service
  {
    seq(|children|, i requires 0 <= i < |children| => children[i].service)
  }

  /** Pending and started services together are the plan. */
  ghost predicate Accounted<N(!new)>(st: State<N>, plan: seq<Service<N>>) {
    multiset(st.pending) + multiset(ServicesOf(st.children)) == multiset(plan)
  }

  ghost predicate IsStarted<N(!new)>(children: seq<Child<N>>, name: N) {
    exists j :: 0 <= j < |children| && children[j].service.name == name
  }

  ghost predicate IsOptional<N(!new)>(children: seq<Child<N>>, name: N) {
    exists j :: 0 <= j < |children| && children[j].service.name == name && !children[j].service.required
  }

  /** The start order is a topological order of the dependencies. */
  ghost predicate StartedInOrder<N(!new)>(children: seq<Child<N>>) {
    forall k, d :: 0 <= k < |children| && d in children[k].service.startAfter ==> IsStarted(children[..k], d)
  }

  /** Start times, readiness and failure are recorded for started services only; only optional ones fail. */
  ghost predicate Recorded<N(!new)>(st: State<N>) {
    && Tracked(st)
    && (forall n :: n in st.startedAt ==> IsStarted(st.children, n))
    && st.ready <= st.startedAt.Keys
    && (forall n :: n in st.failed ==> IsOptional(st.children, n))
  }

  /** A child that was reaped or told to stop while the supervisor runs counts as failed. */
  ghost predicate Flagged<N(!new)>(st: State<N>) {
    forall i :: 0 <= i < |st.children| ==>
      && !st.children[i].killed
      && (st.children[i].exit.Some? || st.children[i].terminated ==> st.children[i].service.name in st.failed)
  }

  ghost predicate Invariant<N(!new)>(st: State<N>, plan: seq<Service<N>>) {
    Accounted(st, plan) && StartedInOrder(st.children) && Recorded(st) && Flagged(st)
  }

  lemma InitialInvariant<N(!new)>(plan: seq<Service<N>>)
    ensures Invariant(Initial(plan), plan)
  {
    assert ServicesOf(Initial(plan).children) == [];
  }

  // ----- one launch -----

  lemma LaunchAccounts<N(!new)>(st: State<N>, s: Service<N>, clock: int, plan: seq<Service<N>>)
    requires Accounted(st, plan) && s in st.pending
    ensures Accounted(Launch(st, s, clock), plan)
    ensures ServicesOf(Launch(st, s, clock).children) == ServicesOf(st.children) + [s]
  {
    RemoveMultiset(st.pending, s);
    assert ServicesOf(Launch(st, s, clock).children) == ServicesOf(st.children) + [s];
  }

  lemma LaunchInOrder<N(!new)>(st: State<N>, s: Service<N>, clock: int)
    requires StartedInOrder(st.children) && Recorded(st) && CanStart(s, st.ready)
    ensures StartedInOrder(Launch(st, s, clock).children)
  {
    var children := Launch(st, s, clock).children;
    forall k, d | 0 <= k < |children| && d in children[k].service.startAfter ensures IsStarted(children[..k], d) {
      if k < |st.children| {
        assert children[..k] == st.children[..k];
      } else {
        assert children[..k] == st.children;
        assert d in st.startedAt;
      }
    }
  }

  lemma StartedGrows<N(!new)>(children: seq<Child<N>>, child: Child<N>, name: N)
    ensures IsStarted(children, name) ==> IsStarted(children + [child], name)
    ensures IsOptional(children, name) ==> IsOptional(children + [child], name)
    ensures IsStarted(children + [child], child.service.name)
  {
    var grown := children + [child];
    assert grown[|children|] == child;
    if IsStarted(children, name) {
      var j :| 0 <= j < |children| && children[j].service.name == name;
      assert grown[j].service.name == name;
    }
    if IsOptional(children, name) {
      var j :| 0 <= j < |children| && children[j].service.name == name && !children[j].service.required;
      assert grown[j].service.name == name;
    }
  }

  lemma LaunchRecords<N(!new)>(st: State<N>, s: Service<N>, clock: int)
    requires Recorded(st) && Flagged(st)
    ensures Recorded(Launch(st, s, clock)) && Flagged(Launch(st, s, clock))
  {
    var next := Launch(st, s, clock);
    forall n ensures n in next.startedAt ==> IsStarted(next.children, n)
             ensures n in next.failed ==> IsOptional(next.children, n)
    {
      StartedGrows(st.children, Child(s, None, false, false), n);
    }
  }

  // ----- the start phase -----

  lemma {:induction false} StartKeepsInvariant<N(!new)>(st: State<N>, todo: seq<Service<N>>, env: PassEnv,
                                                        plan: seq<Service<N>>)
    requires multiset(todo) <= multiset(st.pending) && Invariant(st, plan)
    ensures Invariant(StartEach(st, todo, env).0, plan)
    decreases |todo|
  {
    if todo != [] {
      assert todo == [todo[0]] + todo[1..];
      if !CanStart(todo[0], st.ready) {
        StartKeepsInvariant(st, todo[1..], env, plan);
      } else if env.spawns(|st.children|) {
        assert todo[0] in multiset(st.pending);
        RemoveMultiset(st.pending, todo[0]);
        var clock := env.startClock(|st.children|);
        LaunchAccounts(st, todo[0], clock, plan);
        LaunchInOrder(st, todo[0], clock);
        LaunchRecords(st, todo[0], clock);
        StartKeepsInvariant(Launch(st, todo[0], clock), todo[1..], env, plan);
      }
    }
  }

  /** What only ever grows: readiness, failure, and the list of started services. */
  ghost predicate Extends<N(!new)>(later: State<N>, earlier: State<N>) {
    && earlier.ready <= later.ready
    && earlier.failed <= later.failed
    && ServicesOf(earlier.children) <= ServicesOf(later.children)
  }

  lemma {:induction false} StartExtends<N(!new)>(st: State<N>, todo: seq<Service<N>>, env: PassEnv)
    ensures Extends(StartEach(st, todo, env).0, st) && StartEach(st, todo, env).0.failed == st.failed
    decreases |todo|
  {
    if todo != [] {
      if !CanStart(todo[0], st.ready) {
        StartExtends(st, todo[1..], env);
      } else if env.spawns(|st.children|) {
        var next := Launch(st, todo[0], env.startClock(|st.children|));
        assert ServicesOf(next.children) == ServicesOf(st.children) + [todo[0]];
        StartExtends(next, todo[1..], env);
      }
    }
  }

  // ----- the poll phase -----

  /** Two lists of children for the same services. */
  ghost predicate SameServices<N(!new)>(xs: seq<Child<N>>, ys: seq<Child<N>>) {
    |xs| == |ys| && forall k :: 0 <= k < |xs| ==> xs[k].service == ys[k].service
  }

  lemma SameServicesSameNames<N(!new)>(xs: seq<Child<N>>, ys: seq<Child<N>>, name: N)
    requires SameServices(xs, ys)
    ensures IsStarted(xs, name) ==> IsStarted(ys, name)
    ensures IsOptional(xs, name) ==> IsOptional(ys, name)
  {
    if IsStarted(xs, name) {
      var j :| 0 <= j < |xs| && xs[j].service.name == name;
      assert ys[j].service.name == name;
    }
    if IsOptional(xs, name) {
      var j :| 0 <= j < |xs| && xs[j].service.name == name && !xs[j].service.required;
      assert ys[j].service.name == name;
    }
  }

  lemma SameServicesSameOrder<N(!new)>(xs: seq<Child<N>>, ys: seq<Child<N>>)
    requires SameServices(xs, ys) && StartedInOrder(xs)
    ensures StartedInOrder(ys) && ServicesOf(xs) == ServicesOf(ys)
  {
    forall k, d | 0 <= k < |ys| && d in ys[k].service.startAfter ensures IsStarted(ys[..k], d) {
      assert d in xs[k].service.startAfter;
      SameServicesSameNames(xs[..k], ys[..k], d);
    }
  }

  lemma FailureIsRecorded<N(!new)>(st: State<N>, i: nat, child: Child<N>)
    requires i < |st.children| && Recorded(st) && Flagged(st)
    requires child.service == st.children[i].service && !child.service.required && !child.killed
    ensures var next := st.(children := st.children[i := child], failed := st.failed + {child.service.name});
            SameServices(st.children, next.children) && Recorded(next) && Flagged(next)
  {
    var next := st.(children := st.children[i := child], failed := st.failed + {child.service.name});
    forall n ensures n in next.startedAt ==> IsStarted(next.children, n)
             ensures n in next.failed ==> IsOptional(next.children, n)
    {
      SameServicesSameNames(st.children, next.children, n);
      if n == child.service.name {
        assert next.children[i].service.name == n && !next.children[i].service.required;
      }
    }
  }

  lemma PollOneRecords<N(!new)>(st: State<N>, i: nat, env: PassEnv, timeout: int)
    requires i < |st.children| && Recorded(st) && Flagged(st)
    ensures var (next, outcome) := PollOne(st, i, env, timeout);
            && SameServices(st.children, next.children)
            && (outcome.Running? ==> Recorded(next) && Flagged(next))
            && (outcome.Returned? ==> outcome.code != 0)
  {
    var (next, outcome) := PollOne(st, i, env, timeout);
    var c := st.children[i];
    if outcome.Returned? {
      assert next.children == st.children || next.children == st.children[i := next.children[i]];
    } else if next.failed == st.failed {
      ReadinessIsRecorded(st, next);
    } else {
      FailureIsRecorded(st, i, next.children[i]);
      assert next == st.(children := st.children[i := next.children[i]], failed := st.failed + {c.service.name});
    }
  }

  lemma ReadinessIsRecorded<N(!new)>(st: State<N>, next: State<N>)
    requires Recorded(st) && Flagged(st)
    requires next == st.(ready := next.ready) && next.ready <= st.startedAt.Keys
    ensures Recorded(next) && Flagged(next) && SameServices(st.children, next.children)
  {
  }

  lemma {:induction false} PollRecords<N(!new)>(st: State<N>, i: nat, env: PassEnv, timeout: int)
    requires i <= |st.children| && Recorded(st) && Flagged(st)
    ensures var (next, outcome) := PollFrom(st, i, env, timeout);
            && (outcome.Running? ==> Recorded(next) && Flagged(next))
            && (outcome.Returned? ==> outcome.code != 0)
    decreases |st.children| - i
  {
    if i < |st.children| {
      PollOneRecords(st, i, env, timeout);
      var (next, outcome) := PollOne(st, i, env, timeout);
      if outcome.Running? { PollRecords(next, i + 1, env, timeout); }
    }
  }

  lemma {:induction false} PollExtends<N(!new)>(st: State<N>, i: nat, env: PassEnv, timeout: int)
    requires i <= |st.children| && Tracked(st)
    ensures Extends(PollFrom(st, i, env, timeout).0, st)
    ensures PollFrom(st, i, env, timeout).0.pending == st.pending
    ensures SameServices(st.children, PollFrom(st, i, env, timeout).0.children)
    decreases |st.children| - i
  {
    if i < |st.children| {
      var (next, outcome) := PollOne(st, i, env, timeout);
      assert ServicesOf(st.children) == ServicesOf(next.children);
      if outcome.Running? { PollExtends(next, i + 1, env, timeout); }
    }
  }

  lemma PollKeepsInvariant<N(!new)>(st: State<N>, env: PassEnv, timeout: int, plan: seq<Service<N>>)
    requires Invariant(st, plan)
    ensures var (next, outcome) := PollFrom(st, 0, env, timeout);
            && Accounted(next, plan) && StartedInOrder(next.children)
            && (outcome.Running? ==> Invariant(next, plan))
            && (outcome.Returned? ==> outcome.code != 0)
  {
    PollRecords(st, 0, env, timeout);
    PollExtends(st, 0, env, timeout);
    SameServicesSameOrder(st.children, PollFrom(st, 0, env, timeout).0.children);
  }

  lemma PassKeepsInvariant<N(!new)>(st: State<N>, env: PassEnv, timeout: int, plan: seq<Service<N>>)
    requires Invariant(st, plan)
    ensures var (next, end) := Pass(st, env, timeout);
            && Accounted(next, plan) && StartedInOrder(next.children)
            && (end.InFlight? ==> Invariant(next, plan))
            && (end.Left? ==> end.code != 0)
  {
    StartKeepsInvariant(st, st.pending, env, plan);
    var (started, spawned) := StartEach(st, st.pending, env);
    if spawned {
      PollKeepsInvariant(started, env, timeout, plan);
      assert Pass(st, env, timeout).0 == PollFrom(started, 0, env, timeout).0;
    }
  }

  lemma PassExtends<N(!new)>(st: State<N>, env: PassEnv, timeout: int)
    requires Tracked(st)
    ensures Extends(Pass(st, env, timeout).0, st)
  {
    StartExtends(st, st.pending, env);
    StartKeepsTracked(st, st.pending, env);
    var (started, spawned) := StartEach(st, st.pending, env);
    PollExtends(started, 0, env, timeout);
  }

  /**
    Every run, of any plan, under any answers, however it ends: pending and started services
    are exactly the plan, the start order respects the dependencies, and readiness, failure and
    the list of started services only grow; while the supervisor runs, only optional services
    count as failed and every reaped child does.
   */
  lemma {:induction false} RunKeepsInvariant<N(!new)>(st: State<N>, trace: seq<PassEnv>, timeout: int,
                                                      plan: seq<Service<N>>)
    requires Invariant(st, plan)
    ensures var (last, end) := Run(st, trace, timeout);
            && (end.InFlight? ==> Invariant(last, plan))
            && Accounted(last, plan) && StartedInOrder(last.children)
            && Extends(last, st)
    decreases |trace|
  {
    if trace != [] && !trace[0].stop {
      PassKeepsInvariant(st, trace[0], timeout, plan);
      PassExtends(st, trace[0], timeout);
      var (next, end) := Pass(st, trace[0], timeout);
      if end == InFlight {
        RunKeepsInvariant(next, trace[1..], timeout, plan);
      }
    }
  }

  /** With distinct names in the plan, no service is started twice. */
  lemma StartedAtMostOnce<N(!new)>(plan: seq<Service<N>>, trace: seq<PassEnv>, timeout: int)
    requires DistinctNames(plan)
    ensures Tracked(Initial(plan))
    ensures var (last, end) := Run(Initial(plan), trace, timeout);
            DistinctNames(last.pending + ServicesOf(last.children))
  {
    InitialInvariant(plan);
    RunKeepsInvariant(Initial(plan), trace, timeout, plan);
    var (last, end) := Run(Initial(plan), trace, timeout);
    assert multiset(last.pending + ServicesOf(last.children)) == multiset(plan);
    PermutationKeepsDistinctNames(plan, last.pending + ServicesOf(last.children));
  }

  lemma PermutationKeepsDistinctNames<N(!new)>(xs: seq<Service<N>>, ys: seq<Service<N>>)
    requires DistinctNames(xs) && multiset(xs) == multiset(ys)
    ensures DistinctNames(ys)
  {
    forall i, j | 0 <= i < j < |ys| ensures ys[i].name != ys[j].name {
      if ys[i].name == ys[j].name {
        assert ys[i] in multiset(xs) && ys[j] in multiset(xs);
        assert ys[i] == ys[j];
        TwiceInMultiset(ys, i, j);
        OnceInMultiset(xs, ys[i]);
      }
    }
  }

  lemma TwiceInMultiset<T(!new)>(ys: seq<T>, i: nat, j: nat)
    requires i < j < |ys| && ys[i] == ys[j]
    ensures multiset(ys)[ys[i]] >= 2
  {
    assert ys == ys[..i] + [ys[i]] + ys[i + 1..j] + [ys[j]] + ys[j + 1..];
  }

  lemma {:induction false} OnceInMultiset<N(!new)>(xs: seq<Service<N>>, x: Service<N>)
    requires DistinctNames(xs)
    ensures multiset(xs)[x] <= 1
  {
    if xs != [] {
      var rest := xs[1..];
      assert xs == [xs[0]] + rest;
      assert forall k :: 0 <= k < |rest| ==> rest[k] == xs[k + 1];
      OnceInMultiset(rest, x);
      assert x == xs[0] ==> x !in rest;
    }
  }

  // ---------- the exit code ----------

  /** What makes a poll end the run: a required child seen dead, or seen unready past its timeout. */
  ghost predicate Fatal<N(!new)>(st: State<N>, i: nat, env: PassEnv, timeout: int)
    requires i < |st.children| && Tracked(st)
  {
    var c := st.children[i];
    && c.service.required
    && c.service.name !in st.failed
    && (PollCode(c, env.exits(i)).Some?
        || (&& c.service.readyPort.Some? && c.service.name !in st.ready && !env.accepts(i)
            && env.probeClock(i) - st.startedAt[c.service.name] >= timeout))
  }

  ghost predicate DistinctChildren<N(!new)>(st: State<N>) {
    forall i, j :: 0 <= i < j < |st.children| ==> st.children[i].service.name != st.children[j].service.name
  }

  /** Polling one child does not change whether another child is fatal. */
  lemma PollOneIsLocal<N(!new)>(st: State<N>, i: nat, j: nat, env: PassEnv, timeout: int)
    requires i < |st.children| && j < |st.children| && i != j && Tracked(st) && DistinctChildren(st)
    ensures var next := PollOne(st, i, env, timeout).0;
            && |next.children| == |st.children| && Tracked(next) && DistinctChildren(next)
            && (Fatal(next, j, env, timeout) <==> Fatal(st, j, env, timeout))
  {
  }

  /** A required child's own exit code, except that a clean exit and a timeout both become 1. */
  function FatalCode<N>(c: Child<N>, answer: Option<int>): int {
    var code := PollCode(c, answer);
    if code.Some? && code.value != 0 then code.value else 1
  }

  lemma PollOneIsFatal<N(!new)>(st: State<N>, i: nat, env: PassEnv, timeout: int)
    requires i < |st.children| && Tracked(st)
    ensures PollOne(st, i, env, timeout).1 ==
            if Fatal(st, i, env, timeout) then Returned(FatalCode(st.children[i], env.exits(i))) else Running
  {
  }

  lemma PollOneIsLocalToAll<N(!new)>(st: State<N>, i: nat, env: PassEnv, timeout: int)
    requires i < |st.children| && Tracked(st) && DistinctChildren(st)
    ensures var next := PollOne(st, i, env, timeout).0;
            && |next.children| == |st.children| && Tracked(next) && DistinctChildren(next)
            && (forall k :: i < k < |st.children| ==> (Fatal(next, k, env, timeout) <==> Fatal(st, k, env, timeout)))
            && (forall k :: i < k < |st.children| ==> next.children[k] == st.children[k])
  {
    var next := PollOne(st, i, env, timeout).0;
    assert next.children == st.children || next.children == st.children[i := next.children[i]];
    assert Tracked(next) && DistinctChildren(next);
    forall k | i < k < |st.children| ensures Fatal(next, k, env, timeout) <==> Fatal(st, k, env, timeout) {
      PollOneIsLocal(st, i, k, env, timeout);
    }
  }

  /** The first fatal child at or after position i. */
  ghost predicate FirstFatal<N(!new)>(st: State<N>, i: nat, k: nat, env: PassEnv, timeout: int)
    requires Tracked(st)
  {
    i <= k < |st.children| && Fatal(st, k, env, timeout) && forall j :: i <= j < k ==> !Fatal(st, j, env, timeout)
  }

  /**
    The poll phase ends the run exactly when some required child is seen dead or is unready
    past its timeout, and it ends it with the first such child's code.
   */
  lemma {:induction false} PollReturnsIffFatal<N(!new)>(st: State<N>, i: nat, env: PassEnv, timeout: int)
    requires i <= |st.children| && Tracked(st) && DistinctChildren(st)
    ensures var outcome := PollFrom(st, i, env, timeout).1;
            && (outcome.Running? <==> forall k :: i <= k < |st.children| ==> !Fatal(st, k, env, timeout))
            && (outcome.Returned? ==>
                exists k: nat ::
                    FirstFatal(st, i, k, env, timeout) && outcome.code == FatalCode(st.children[k], env.exits(k)))
    decreases |st.children| - i
  {
    if i < |st.children| {
      PollOneIsFatal(st, i, env, timeout);
      if Fatal(st, i, env, timeout) {
        assert FirstFatal(st, i, i, env, timeout);
      } else {
        PollOneIsLocalToAll(st, i, env, timeout);
        var next := PollOne(st, i, env, timeout).0;
        PollReturnsIffFatal(next, i + 1, env, timeout);
        var outcome := PollFrom(st, i, env, timeout).1;
        if outcome.Returned? {
          var k: nat :| FirstFatal(next, i + 1, k, env, timeout)
              && outcome.code == FatalCode(next.children[k], env.exits(k));
          assert FirstFatal(st, i, k, env, timeout);
        }
      }
    }
  }

  /**
    The supervisor leaves with 0 exactly when some pass begins with a stop request and every
    pass before it ran to its end, so no exit or timeout of a required service was seen in them.
   */
  lemma {:induction false} ZeroIffStopRequested<N(!new)>(st: State<N>, trace: seq<PassEnv>, timeout: int,
                                                         plan: seq<Service<N>>)
    requires Invariant(st, plan)
    ensures Run(st, trace, timeout).1 == Left(0) <==>
            exists k :: 0 <= k < |trace| && trace[k].stop && Run(st, trace[..k], timeout).1.InFlight?
    decreases |trace|
  {
    if trace == [] {
    } else if trace[0].stop {
      assert trace[..0] == [];
      assert Run(st, trace[..0], timeout).1.InFlight?;
    } else {
      PassKeepsInvariant(st, trace[0], timeout, plan);
      PassKeepsTracked(st, trace[0], timeout);
      var (next, end) := Pass(st, trace[0], timeout);
      if end == InFlight {
        ZeroIffStopRequested(next, trace[1..], timeout, plan);
        if Run(st, trace, timeout).1 == Left(0) {
          var k :| 0 <= k < |trace[1..]| && trace[1..][k].stop && Run(next, trace[1..][..k], timeout).1.InFlight?;
          PrefixOfRun(st, trace, k + 1, timeout);
          assert trace[k + 1].stop;
        }
      }
      forall k | 0 <= k < |trace| && trace[k].stop && Run(st, trace[..k], timeout).1.InFlight?
        ensures Run(st, trace, timeout).1 == Left(0)
      {
        PrefixOfRun(st, trace, k, timeout);
        assert trace[1..][k - 1].stop;
      }
    }
  }

  lemma PrefixOfRun<N(!new)>(st: State<N>, trace: seq<PassEnv>, k: nat, timeout: int)
    requires Tracked(st) && 0 < k <= |trace| && !trace[0].stop
    ensures Tracked(Pass(st, trace[0], timeout).0)
    ensures Pass(st, trace[0], timeout).1 == InFlight ==>
            Run(st, trace[..k], timeout) == Run(Pass(st, trace[0], timeout).0, trace[1..][..k - 1], timeout)
    ensures Pass(st, trace[0], timeout).1 != InFlight ==> !Run(st, trace[..k], timeout).1.InFlight?
  {
    PassKeepsTracked(st, trace[0], timeout);
    assert trace[..k][0] == trace[0];
    assert trace[..k][1..] == trace[1..][..k - 1];
  }

  // ---------- the teardown ----------

  lemma {:induction false} AwaitSettles<N(!new)>(children: seq<Child<N>>, k: nat, now: int, deadline: int,
                                                 env: ShutdownEnv)
    requires k <= |children|
    ensures var (after, end) := AwaitFrom(children, k, now, deadline, env);
            && |after| == |children|
            && (forall i :: k <= i < |children| ==> after[i] == children[i])
            && (forall i :: 0 <= i < k ==>
                  && (after[i].exit.Some? || after[i].killed)
                  && (children[i].exit.Some? ==> after[i] == children[i])
                  && after[i].service == children[i].service
                  && after[i].terminated == children[i].terminated
                  && (after[i].killed && !children[i].killed ==> children[i].exit.None? && after[i].exit.None?))
            && now <= end <= (if now <= deadline then deadline else now)
    decreases k
  {
    if k > 0 {
      var i := k - 1;
      var remaining := if deadline > now then deadline - now else 0;
      if children[i].exit.Some? {
        AwaitSettles(children, i, now, deadline, env);
      } else if env.delay(i) <= remaining {
        AwaitSettles(children[i := children[i].(exit := Some(env.exitCode(i)))], i, now + env.delay(i), deadline, env);
      } else {
        AwaitSettles(children[i := children[i].(killed := true)], i, now + remaining, deadline, env);
      }
    }
  }

  /**
    Whatever state the run ended in: after the teardown every started process is reaped; the
    last sweep, which has no time limit, only waits for processes that were killed, and only
    processes that were first asked to terminate are killed; processes reaped earlier keep
    their exit code; and the timed waits together take no longer than the shutdown budget.
   */
  lemma TeardownReapsEverything<N(!new)>(children: seq<Child<N>>, now: int, shutdown: int, env: ShutdownEnv)
    requires shutdown >= 0
    requires forall c :: c in children ==> !c.killed
    ensures var (awaited, finish) := AwaitFrom(SignalAll(children, env), |children|, now, now + shutdown, env);
            var after := TornDown(children, now, shutdown, env);
            && |after| == |children| == |awaited|
            && (forall i :: 0 <= i < |after| ==>
                  && after[i].service == children[i].service
                  && after[i].exit.Some?
                  && (children[i].exit.Some? ==> after[i].exit == children[i].exit && !after[i].killed)
                  && (awaited[i].exit.None? ==> awaited[i].killed)
                  && (after[i].killed ==> after[i].terminated))
            && now <= finish <= now + shutdown
  {
    var signalled := SignalAll(children, env);
    forall i | 0 <= i < |children|
      ensures !signalled[i].killed && (signalled[i].exit.Some? || signalled[i].terminated)
      ensures signalled[i].service == children[i].service && (children[i].exit.Some? ==> signalled[i] == children[i])
    {
      assert children[i] in children;
      assert signalled[i] == Signalled(children[i], env.exits(i));
    }
    AwaitSettles(signalled, |children|, now, now + shutdown, env);
  }

  // ---------- leaving ----------

  ghost predicate NobodyKilled<N(!new)>(children: seq<Child<N>>) {
    forall i :: 0 <= i < |children| ==> !children[i].killed
  }

  lemma {:induction false} StartKillsNobody<N(!new)>(st: State<N>, todo: seq<Service<N>>, env: PassEnv)
    requires NobodyKilled(st.children)
    ensures NobodyKilled(StartEach(st, todo, env).0.children)
    decreases |todo|
  {
    if todo != [] {
      if !CanStart(todo[0], st.ready) {
        StartKillsNobody(st, todo[1..], env);
      } else if env.spawns(|st.children|) {
        StartKillsNobody(Launch(st, todo[0], env.startClock(|st.children|)), todo[1..], env);
      }
    }
  }

  lemma {:induction false} PollKillsNobody<N(!new)>(st: State<N>, i: nat, env: PassEnv, timeout: int)
    requires i <= |st.children| && Tracked(st) && NobodyKilled(st.children)
    ensures NobodyKilled(PollFrom(st, i, env, timeout).0.children)
    decreases |st.children| - i
  {
    if i < |st.children| {
      var (next, outcome) := PollOne(st, i, env, timeout);
      assert NobodyKilled(next.children);
      if outcome.Running? { PollKillsNobody(next, i + 1, env, timeout); }
    }
  }

  lemma {:induction false} RunKillsNobody<N(!new)>(st: State<N>, trace: seq<PassEnv>, timeout: int)
    requires Tracked(st) && NobodyKilled(st.children)
    ensures NobodyKilled(Run(st, trace, timeout).0.children)
    decreases |trace|
  {
    if trace != [] && !trace[0].stop {
      StartKillsNobody(st, st.pending, trace[0]);
      StartKeepsTracked(st, st.pending, trace[0]);
      PollKillsNobody(StartEach(st, st.pending, trace[0]).0, 0, trace[0], timeout);
      PassKeepsTracked(st, trace[0], timeout);
      var (next, end) := Pass(st, trace[0], timeout);
      if end == InFlight { RunKillsNobody(next, trace[1..], timeout); }
    }
  }

  /**
    From the start of any plan to the end of the teardown, however the run ends: every service is still unstarted
    or has a reaped process, codes seen during the run are kept, and only processes asked to terminate are killed.
   */
  lemma LeavingReapsEverything<N(!new)>(plan: seq<Service<N>>, trace: seq<PassEnv>, timeout: int,
                                        now: int, shutdown: int, env: ShutdownEnv)
    requires shutdown >= 0
    ensures Tracked(Initial(plan))
    ensures var last := Run(Initial(plan), trace, timeout).0;
            var after := TornDown(last.children, now, shutdown, env);
            && Accounted(last.(children := after), plan)
            && |after| == |last.children|
            && forall i :: 0 <= i < |after| ==>
                 && after[i].exit.Some?
                 && (last.children[i].exit.Some? ==> after[i].exit == last.children[i].exit && !after[i].killed)
                 && (after[i].killed ==> after[i].terminated)
  {
    InitialInvariant(plan);
    RunKeepsInvariant(Initial(plan), trace, timeout, plan);
    RunKillsNobody(Initial(plan), trace, timeout);
    var last := Run(Initial(plan), trace, timeout).0;
    TeardownReapsEverything(last.children, now, shutdown, env);
    assert ServicesOf(TornDown(last.children, now, shutdown, env)) == ServicesOf(last.children);
  }
}
