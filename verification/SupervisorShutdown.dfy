/** Who is killed at the end of a run, and with which exit code every process ends. */
module SupervisorShutdown {
  import opened Wrappers
  import opened ProductionPlan
  import opened Supervision
  import opened SupervisorSafety

  /** Neither reaped during the run nor found dead by the first sweep: this child is told to terminate. */
  predicate Alive<N>(children: seq<Child<N>>, i: nat, env: ShutdownEnv)
    requires i < |children|
  {
    children[i].exit.None? && env.exits(i).None?
  }

  /** How long the living children from position k on take to leave, one after the other. */
  function Wanted<N>(children: seq<Child<N>>, k: nat, env: ShutdownEnv): nat
    requires k <= |children|
    decreases |children| - k
  {
    if k == |children| then 0 else (if Alive(children, k, env) then env.delay(k) else 0) + Wanted(children, k + 1, env)
  }

  /** What the children after position i, which are waited for first, leave of the budget. */
  function Remaining<N>(children: seq<Child<N>>, i: nat, budget: int, env: ShutdownEnv): nat
    requires i < |children|
  {
    var wanted := Wanted(children, i + 1, env);
    if wanted <= budget then budget - wanted else 0
  }

  predicate Overdue<N>(children: seq<Child<N>>, i: nat, budget: int, env: ShutdownEnv)
    requires i < |children|
  {
    Alive(children, i, env) && env.delay(i) > Remaining(children, i, budget, env)
  }

  function Least(a: int, b: int): int { if a <= b then a else b }

  /** The second sweep in the middle: the children from position k on have used up what they want, or the budget. */
  ghost predicate Waiting<N(!new)>(children: seq<Child<N>>, now: seq<Child<N>>, k: nat, spent: int, budget: int,
                                   env: ShutdownEnv) {
    && k <= |children| == |now|
    && now[..k] == SignalAll(children, env)[..k]
    && spent == Least(Wanted(children, k, env), budget)
  }

  /** What the second sweep makes of a child. */
  ghost predicate Waited<N(!new)>(children: seq<Child<N>>, after: seq<Child<N>>, i: nat, budget: int,
                                  env: ShutdownEnv) {
    && i < |children| == |after|
    && var signalled := Signalled(children[i], env.exits(i));
       after[i] == if !Alive(children, i, env) then signalled
                   else if Overdue(children, i, budget, env) then signalled.(killed := true)
                   else signalled.(exit := Some(env.exitCode(i)))
  }

  /** The child before the waiting ones: what the first sweep made of it, and what waiting for it too adds. */
  lemma NextWaiting<N(!new)>(children: seq<Child<N>>, now: seq<Child<N>>, i: nat, spent: int, budget: nat,
                             env: ShutdownEnv)
    requires i < |children| && Waiting(children, now, i + 1, spent, budget, env)
    ensures now[i] == Signalled(children[i], env.exits(i)) && now[..i] == SignalAll(children, env)[..i]
    ensures now[i].exit.None? <==> Alive(children, i, env)
    ensures Wanted(children, i, env) ==
            Wanted(children, i + 1, env) + (if Alive(children, i, env) then env.delay(i) else 0)
  {
    assert now[i] == now[..i + 1][i] == SignalAll(children, env)[i];
    assert SignalAll(children, env)[..i + 1][..i] == SignalAll(children, env)[..i];
    assert now[..i + 1][..i] == now[..i];
  }

  lemma {:induction false} AwaitExactly<N(!new)>(children: seq<Child<N>>, now: seq<Child<N>>, k: nat, start: int,
                                                 spent: int, budget: nat, env: ShutdownEnv)
    requires Waiting(children, now, k, spent, budget, env)
    ensures var (after, end) := AwaitFrom(now, k, start + spent, start + budget, env);
            && |after| == |now|
            && (forall i :: k <= i < |after| ==> after[i] == now[i])
            && (forall i :: 0 <= i < k ==> Waited(children, after, i, budget, env))
            && end == start + Least(Wanted(children, 0, env), budget)
    decreases k
  {
    if k > 0 {
      var i := k - 1;
      NextWaiting(children, now, i, spent, budget, env);
      if now[i].exit.Some? {
        AwaitExactly(children, now, i, start, spent, budget, env);
      } else if env.delay(i) <= budget - spent {
        var next := now[i := now[i].(exit := Some(env.exitCode(i)))];
        assert next[..i] == now[..i];
        AwaitExactly(children, next, i, start, spent + env.delay(i), budget, env);
      } else {
        var next := now[i := now[i].(killed := true)];
        assert next[..i] == now[..i];
        AwaitExactly(children, next, i, start, budget, budget, env);
      }
    }
  }

  /** The exit code of a child after the teardown: the one it had, the one the first sweep saw, or its own. */
  function FinalCode<N>(children: seq<Child<N>>, i: nat, env: ShutdownEnv): int
    requires i < |children|
  {
    match children[i].exit
    case Some(code) => code
    case None => if env.exits(i).Some? then env.exits(i).value else env.exitCode(i)
  }

  /**
    The teardown exactly: a child is told to terminate if it is alive, it is killed if it is alive and takes
    longer than what the children after it leave of the budget, and it ends with its own exit code. The timed
    waits take what the living children want together, or the whole budget if that is less.
   */
  lemma TeardownExactly<N(!new)>(children: seq<Child<N>>, now: int, budget: nat, env: ShutdownEnv)
    ensures var after := TornDown(children, now, budget, env);
            && |after| == |children|
            && forall i :: 0 <= i < |after| ==>
                 after[i] == Child(children[i].service, Some(FinalCode(children, i, env)),
                                   children[i].terminated || Alive(children, i, env),
                                   children[i].killed || Overdue(children, i, budget, env))
    ensures AwaitFrom(SignalAll(children, env), |children|, now, now + budget, env).1 ==
            now + Least(Wanted(children, 0, env), budget)
  {
    var signalled := SignalAll(children, env);
    AwaitExactly(children, signalled, |children|, now, 0, budget, env);
    var awaited := AwaitFrom(signalled, |children|, now, now + budget, env).0;
    forall i | 0 <= i < |children|
      ensures TornDown(children, now, budget, env)[i] ==
              Child(children[i].service, Some(FinalCode(children, i, env)),
                    children[i].terminated || Alive(children, i, env),
                    children[i].killed || Overdue(children, i, budget, env))
    {
      assert Waited(children, awaited, i, budget, env);
    }
  }

  ghost predicate NobodyOverdue<N(!new)>(children: seq<Child<N>>, k: nat, budget: int, env: ShutdownEnv) {
    forall i :: k <= i < |children| ==> !Overdue(children, i, budget, env)
  }

  /** Nobody is overdue exactly if the living children together want no more than the budget. */
  lemma {:induction false} FitsIff<N(!new)>(children: seq<Child<N>>, k: nat, budget: nat, env: ShutdownEnv)
    requires k <= |children|
    ensures NobodyOverdue(children, k, budget, env) <==> Wanted(children, k, env) <= budget
    decreases |children| - k
  {
    if k < |children| {
      FitsIff(children, k + 1, budget, env);
      assert NobodyOverdue(children, k, budget, env) <==>
             !Overdue(children, k, budget, env) && NobodyOverdue(children, k + 1, budget, env);
    }
  }

  /**
    However a run of any plan ends, the teardown kills nobody if and only if the children that are still alive
    together take no longer than the shutdown budget to leave; and every process ends with the code seen during
    the run, or with its own.
   */
  lemma NobodyIsKilledIff<N(!new)>(plan: seq<Service<N>>, trace: seq<PassEnv>, timeout: int, now: int, budget: nat,
                                   env: ShutdownEnv)
    ensures Tracked(Initial(plan))
    ensures var last := Run(Initial(plan), trace, timeout).0;
            var after := TornDown(last.children, now, budget, env);
            && (NobodyKilled(after) <==> Wanted(last.children, 0, env) <= budget)
            && |after| == |last.children|
            && forall i :: 0 <= i < |after| ==> after[i].exit == Some(FinalCode(last.children, i, env))
  {
    RunKillsNobody(Initial(plan), trace, timeout);
    var last := Run(Initial(plan), trace, timeout).0;
    TeardownExactly(last.children, now, budget, env);
    FitsIff(last.children, 0, budget, env);
    var after := TornDown(last.children, now, budget, env);
    assert NobodyKilled(after) <==> NobodyOverdue(last.children, 0, budget, env) by {
      if !NobodyOverdue(last.children, 0, budget, env) {
        var i :| 0 <= i < |last.children| && Overdue(last.children, i, budget, env);
        assert after[i].killed;
      }
    }
  }
}
