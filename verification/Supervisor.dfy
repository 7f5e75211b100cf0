/**
  The production supervisor: the start phase, the poll phase, the run loop and the teardown
  (ops/launchd/run-production.py). What the operating system answers -- whether a spawn works,
  whether a child has exited, whether a port accepts, what the clock reads -- is an input.
 */
module Supervision {
  import opened Wrappers
  import opened ProductionPlan

  /** A started process: its exit code once it has been reaped, and the signals it was sent. */
  datatype Child<N> = Child(service: Service<N>, exit: Option<int>, terminated: bool, killed: bool)

  datatype State<N> = State(
    pending: seq<Service<N>>,
    children: seq<Child<N>>,
    ready: set<N>,
    failed: set<N>,
    startedAt: map<N, int>)

  /** The answers of one pass, by position in the list of started processes. */
  datatype PassEnv = PassEnv(
    stop: bool,                     // a stop signal arrived before this pass
    spawns: nat -> bool,
    startClock: nat -> int,
    exits: nat -> Option<int>,
    accepts: nat -> bool,
    probeClock: nat -> int)

  datatype Outcome = Running | Returned(code: int)

  datatype End = InFlight | Left(code: int) | Raised

  function Initial<N>(services: seq<Service<N>>): State<N> {
    State(services, [], {}, {}, map[])
  }

  // ---------- the start phase ----------

  predicate CanStart<N(==)>(s: Service<N>, ready: set<N>) {
    forall d :: d in s.startAfter ==> d in ready
  }

  /** list.remove: drops the first equal element. */
  function Remove<T(==)>(xs: seq<T>, x: T): (r: seq<T>)
    ensures x in xs ==> |r| == |xs| - 1
  {
    if xs == [] then [] else if xs[0] == x then xs[1..] else [xs[0]] + Remove(xs[1..], x)
  }

  function Launch<N(==)>(st: State<N>, s: Service<N>, clock: int): State<N> {
    State(Remove(st.pending, s),
          st.children + [Child(s, None, false, false)],
          if s.readyPort.None? then st.ready + {s.name} else st.ready,
          st.failed,
          st.startedAt[s.name := clock])
  }

  /** Walks a copy of the pending list; the second result is false when a spawn raised. */
  function StartEach<N(==)>(st: State<N>, todo: seq<Service<N>>, env: PassEnv): (State<N>, bool)
    decreases |todo|
  {
    if todo == [] then (st, true)
    else if !CanStart(todo[0], st.ready) then StartEach(st, todo[1..], env)
    else if !env.spawns(|st.children|) then (st, false)
    else StartEach(Launch(st, todo[0], env.startClock(|st.children|)), todo[1..], env)
  }

  lemma {:induction false} RemoveMultiset<T>(xs: seq<T>, x: T)
    requires x in xs
    ensures multiset(Remove(xs, x)) == multiset(xs) - multiset{x}
  {
    assert xs == [xs[0]] + xs[1..];
    if xs[0] != x {
      RemoveMultiset(xs[1..], x);
    }
  }

  // ---------- the poll phase ----------

  /** Popen.poll: the cached code of a reaped child, otherwise what the system answers. */
  function PollCode<N>(c: Child<N>, answer: Option<int>): Option<int> {
    if c.exit.Some? then c.exit else answer
  }

  ghost predicate Tracked<N(!new)>(st: State<N>) {
    forall i :: 0 <= i < |st.children| ==> st.children[i].service.name in st.startedAt
  }

  function PollOne<N(==,!new)>(st: State<N>, i: nat, env: PassEnv, timeout: int): (State<N>, Outcome)
    requires i < |st.children| && Tracked(st)
  {
    var c := st.children[i];
    var s := c.service;
    if s.name in st.failed then (st, Running)
    else
      var code := PollCode(c, env.exits(i));
      if code.Some? then
        var reaped := st.(children := st.children[i := c.(exit := code)]);
        if s.required then (reaped, Returned(if code.value != 0 then code.value else 1))
        else (reaped.(failed := st.failed + {s.name}), Running)
      else if s.name in st.ready || s.readyPort.None? then (st, Running)
      else if env.accepts(i) then (st.(ready := st.ready + {s.name}), Running)
      else if env.probeClock(i) - st.startedAt[s.name] >= timeout then
        if s.required then (st, Returned(1))
        else (st.(children := st.children[i := c.(terminated := true)], failed := st.failed + {s.name}), Running)
      else (st, Running)
  }

  function PollFrom<N(==,!new)>(st: State<N>, i: nat, env: PassEnv, timeout: int): (State<N>, Outcome)
    requires i <= |st.children| && Tracked(st)
    decreases |st.children| - i
  {
    if i == |st.children| then (st, Running)
    else
      var (next, outcome) := PollOne(st, i, env, timeout);
      if outcome.Returned? then (next, outcome) else PollFrom(next, i + 1, env, timeout)
  }

  lemma {:induction false} StartKeepsTracked<N(!new)>(st: State<N>, todo: seq<Service<N>>, env: PassEnv)
    requires Tracked(st)
    ensures Tracked(StartEach(st, todo, env).0)
    decreases |todo|
  {
    if todo != [] {
      if !CanStart(todo[0], st.ready) {
        StartKeepsTracked(st, todo[1..], env);
      } else if env.spawns(|st.children|) {
        StartKeepsTracked(Launch(st, todo[0], env.startClock(|st.children|)), todo[1..], env);
      }
    }
  }

  // ---------- the run ----------

  function Pass<N(==,!new)>(st: State<N>, env: PassEnv, timeout: int): (State<N>, End)
    requires Tracked(st)
  {
    StartKeepsTracked(st, st.pending, env);
    var (started, spawned) := StartEach(st, st.pending, env);
    if !spawned then (started, Raised)
    else
      var (polled, outcome) := PollFrom(started, 0, env, timeout);
      (polled, if outcome.Returned? then Left(outcome.code) else InFlight)
  }

  lemma {:induction false} PollKeepsTracked<N(!new)>(st: State<N>, i: nat, env: PassEnv, timeout: int)
    requires i <= |st.children| && Tracked(st)
    ensures Tracked(PollFrom(st, i, env, timeout).0)
    decreases |st.children| - i
  {
    if i < |st.children| {
      var (next, outcome) := PollOne(st, i, env, timeout);
      if outcome.Running? { PollKeepsTracked(next, i + 1, env, timeout); }
    }
  }

  lemma PassKeepsTracked<N(!new)>(st: State<N>, env: PassEnv, timeout: int)
    requires Tracked(st)
    ensures Tracked(Pass(st, env, timeout).0)
  {
    StartKeepsTracked(st, st.pending, env);
    var (started, spawned) := StartEach(st, st.pending, env);
    PollKeepsTracked(started, 0, env, timeout);
  }

  /** The run loop over the passes whose answers are known; InFlight when they run out first. */
  function Run<N(==,!new)>(st: State<N>, trace: seq<PassEnv>, timeout: int): (State<N>, End)
    requires Tracked(st)
    decreases |trace|
  {
    if trace == [] then (st, InFlight)
    else if trace[0].stop then (st, Left(0))
    else
      var (next, end) := Pass(st, trace[0], timeout);
      if end != InFlight then (next, end)
      else
        PassKeepsTracked(st, trace[0], timeout);
        Run(next, trace[1..], timeout)
  }

  // ---------- the teardown ----------

  /** The answers during the teardown: who is already gone, how long each child takes, with which code. */
  datatype ShutdownEnv = ShutdownEnv(
    exits: nat -> Option<int>,
    delay: nat -> nat,
    exitCode: nat -> int)

  function Signalled<N>(c: Child<N>, answer: Option<int>): Child<N> {
    var code := PollCode(c, answer);
    if code.Some? then c.(exit := code) else c.(terminated := true)
  }

  /** First sweep: every child still running is told to terminate. */
  function SignalAll<N>(children: seq<Child<N>>, env: ShutdownEnv): seq<Child<N>> {
    seq(|children|, i requires 0 <= i < |children| => Signalled(children[i], env.exits(i)))
  }

  /** Second sweep, last child first: wait up to the common deadline, then kill. */
  function AwaitFrom<N>(children: seq<Child<N>>, k: nat, now: int, deadline: int, env: ShutdownEnv)
    : (seq<Child<N>>, int)
    requires k <= |children|
    decreases k
  {
    if k == 0 then (children, now)
    else
      var i := k - 1;
      var remaining := if deadline > now then deadline - now else 0;
      if children[i].exit.Some? then AwaitFrom(children, i, now, deadline, env)
      else if env.delay(i) <= remaining then
        AwaitFrom(children[i := children[i].(exit := Some(env.exitCode(i)))], i, now + env.delay(i), deadline, env)
      else
        AwaitFrom(children[i := children[i].(killed := true)], i, now + remaining, deadline, env)
  }

  /** Third sweep: wait for whoever is left, without a time limit. */
  function ReapAll<N>(children: seq<Child<N>>, env: ShutdownEnv): seq<Child<N>> {
    seq(|children|, i requires 0 <= i < |children| =>
      if children[i].exit.Some? then children[i] else children[i].(exit := Some(env.exitCode(i))))
  }

  function TornDown<N>(children: seq<Child<N>>, now: int, shutdown: int, env: ShutdownEnv): seq<Child<N>> {
    ReapAll(AwaitFrom(SignalAll(children, env), |children|, now, now + shutdown, env).0, env)
  }

  // ---------- the program ----------

  class Supervisor<N(==,!new)> {
    var pending: seq<Service<N>>
    var processes: seq<Child<N>>
    var ready: set<N>
    var failed: set<N>
    var startedAt: map<N, int>
    const startupTimeout: int
    const shutdownSeconds: int

    ghost function View(): State<N>
      reads this
    {
      State(pending, processes, ready, failed, startedAt)
    }

    constructor (services: seq<Service<N>>, startupTimeout: int, shutdownSeconds: int)
      ensures View() == Initial(services)
      ensures this.startupTimeout == startupTimeout && this.shutdownSeconds == shutdownSeconds
    {
      this.startupTimeout, this.shutdownSeconds := startupTimeout, shutdownSeconds;
      pending, processes, ready, failed, startedAt := services, [], {}, {}, map[];
    }

    method StartServices(env: PassEnv) returns (spawned: bool)
      requires Tracked(View())
      modifies this
      ensures (View(), spawned) == StartEach(old(View()), old(pending), env)
    {
      var todo := pending;
      var k := 0;
      while k < |todo|
        invariant 0 <= k <= |todo|
        invariant StartEach(View(), todo[k..], env) == StartEach(old(View()), todo, env)
      {
        var service := todo[k];
        ghost var st := View();
        assert todo[k..][1..] == todo[k + 1..];
        if CanStart(service, ready) {
          if !env.spawns(|processes|) {
            return false;
          }
          var clock := env.startClock(|processes|);
          processes := processes + [Child(service, None, false, false)];
          pending := Remove(pending, service);
          startedAt := startedAt[service.name := clock];
          if service.readyPort.None? {
            ready := ready + {service.name};
          }
          assert View() == Launch(st, service, clock);
        }
        k := k + 1;
      }
      assert todo[k..] == [];
      return true;
    }

    method PollServices(env: PassEnv) returns (outcome: Outcome)
      requires Tracked(View())
      modifies this
      ensures (View(), outcome) == PollFrom(old(View()), 0, env, startupTimeout)
    {
      var i := 0;
      while i < |processes|
        invariant 0 <= i <= |processes| && Tracked(View())
        invariant PollFrom(View(), i, env, startupTimeout) == PollFrom(old(View()), 0, env, startupTimeout)
        decreases |processes| - i
      {
        ghost var st := View();
        var child := processes[i];
        var service := child.service;
        if service.name !in failed {
          var code := PollCode(child, env.exits(i));
          if code.Some? {
            processes := processes[i := child.(exit := code)];
            if service.required {
              outcome := Returned(if code.value != 0 then code.value else 1);
              assert (View(), outcome) == PollOne(st, i, env, startupTimeout);
              return;
            }
            failed := failed + {service.name};
          } else if service.name !in ready && service.readyPort.Some? {
            if env.accepts(i) {
              ready := ready + {service.name};
            } else if env.probeClock(i) - startedAt[service.name] >= startupTimeout {
              if service.required {
                return Returned(1);
              }
              processes := processes[i := child.(terminated := true)];
              failed := failed + {service.name};
            }
          }
        }
        assert View() == PollOne(st, i, env, startupTimeout).0 && PollOne(st, i, env, startupTimeout).1.Running?;
        i := i + 1;
      }
      outcome := Running;
    }

    method TerminateRunning(env: ShutdownEnv)
      modifies this`processes
      ensures processes == SignalAll(old(processes), env)
    {
      ghost var before := processes;
      var k := |processes|;
      while k > 0
        invariant 0 <= k <= |processes| == |before|
        invariant forall i :: 0 <= i < k ==> processes[i] == before[i]
        invariant forall i :: k <= i < |processes| ==> processes[i] == Signalled(before[i], env.exits(i))
      {
        k := k - 1;
        var code := PollCode(processes[k], env.exits(k));
        if code.Some? {
          processes := processes[k := processes[k].(exit := code)];
        } else {
          processes := processes[k := processes[k].(terminated := true)];
        }
      }
    }

    method AwaitOrKill(env: ShutdownEnv, now: int)
      modifies this`processes
      ensures processes == AwaitFrom(old(processes), |old(processes)|, now, now + shutdownSeconds, env).0
    {
      ghost var before := processes;
      var deadline, clock := now + shutdownSeconds, now;
      var k := |processes|;
      while k > 0
        invariant 0 <= k <= |processes| == |before|
        invariant AwaitFrom(processes, k, clock, deadline, env) == AwaitFrom(before, |before|, now, deadline, env)
      {
        k := k - 1;
        var remaining := if deadline > clock then deadline - clock else 0;
        if processes[k].exit.None? {
          if env.delay(k) <= remaining {
            processes := processes[k := processes[k].(exit := Some(env.exitCode(k)))];
            clock := clock + env.delay(k);
          } else {
            processes := processes[k := processes[k].(killed := true)];
            clock := clock + remaining;
          }
        }
      }
    }

    method ReapRest(env: ShutdownEnv)
      modifies this`processes
      ensures processes == ReapAll(old(processes), env)
    {
      ghost var before := processes;
      var k := |processes|;
      while k > 0
        invariant 0 <= k <= |processes| == |before|
        invariant forall i :: 0 <= i < k ==> processes[i] == before[i]
        invariant forall i :: k <= i < |processes| ==> processes[i] == ReapAll(before, env)[i]
      {
        k := k - 1;
        if processes[k].exit.None? {
          processes := processes[k := processes[k].(exit := Some(env.exitCode(k)))];
        }
      }
    }

    method Teardown(env: ShutdownEnv, now: int)
      modifies this`processes
      ensures View() == old(View()).(children := TornDown(old(processes), now, shutdownSeconds, env))
    {
      TerminateRunning(env);
      AwaitOrKill(env, now);
      ReapRest(env);
    }

    /** Runs until a pass ends the run, a stop is requested, or the known answers are used up. */
    method Supervise(trace: seq<PassEnv>, shutdown: ShutdownEnv, now: int) returns (end: End)
      requires Tracked(View())
      modifies this
      ensures end == Run(old(View()), trace, startupTimeout).1
      ensures var last := Run(old(View()), trace, startupTimeout).0;
              View() == if end.InFlight? then last
                  else last.(children := TornDown(last.children, now, shutdownSeconds, shutdown))
    {
      var k := 0;
      end := InFlight;
      while k < |trace| && !trace[k].stop
        invariant 0 <= k <= |trace| && Tracked(View())
        invariant Run(View(), trace[k..], startupTimeout) == Run(old(View()), trace, startupTimeout)
      {
        ghost var st := View();
        PassKeepsTracked(st, trace[k], startupTimeout);
        StartKeepsTracked(st, st.pending, trace[k]);
        assert trace[k..][1..] == trace[k + 1..];
        var spawned := StartServices(trace[k]);
        if !spawned {
          Teardown(shutdown, now);
          return Raised;
        }
        var outcome := PollServices(trace[k]);
        if outcome.Returned? {
          Teardown(shutdown, now);
          return Left(outcome.code);
        }
        k := k + 1;
      }
      if k < |trace| {
        Teardown(shutdown, now);
        end := Left(0);
      }
    }
  }
}
