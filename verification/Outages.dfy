/**
  The per-route outage tracker of the soak test: it keeps only the start of the current outage and the
  longest outage so far, and closes open outages at the end (scripts/verify_polymarket_shared_events_soak.py).
 */
module Outages {
  import opened Wrappers

  type Route = string

  /** One availability observation; instants are whole ticks of the monotonic clock. */
  datatype Observation = Observation(route: Route, available: bool, at: int)

  datatype Track = Track(since: Option<int>, longest: int)

  function Max(a: int, b: int): int {
    if a >= b then a else b
  }

  function Step(t: Track, available: bool, now: int): Track {
    if available then
      if t.since.Some? then Track(None, Max(t.longest, now - t.since.value)) else t
    else if t.since.None? then t.(since := Some(now))
    else t
  }

  function Close(t: Track, finish: int): Track {
    if t.since.Some? then t.(longest := Max(t.longest, finish - t.since.value)) else t
  }

  function Tracked(history: seq<Observation>): Track {
    if history == [] then Track(None, 0)
    else
      var last := history[|history| - 1];
      Step(Tracked(history[..|history| - 1]), last.available, last.at)
  }

  /** The observations of one route, in order. */
  function OfRoute(log: seq<Observation>, r: Route): seq<Observation> {
    if log == [] then []
    else
      var rest := OfRoute(log[..|log| - 1], r);
      var last := log[|log| - 1];
      if last.route == r then rest + [last] else rest
  }

  lemma OfRouteLast(log: seq<Observation>, o: Observation, r: Route)
    ensures OfRoute(log + [o], r) == OfRoute(log, r) + if o.route == r then [o] else []
  {
    assert (log + [o])[..|log|] == log;
  }

  lemma TrackedLast(history: seq<Observation>, o: Observation)
    ensures Tracked(history + [o]) == Step(Tracked(history), o.available, o.at)
  {
    assert (history + [o])[..|history|] == history;
  }

  lemma TrackedAfter(log: seq<Observation>, o: Observation, r: Route)
    ensures Tracked(OfRoute(log + [o], r)) ==
            if o.route == r then Step(Tracked(OfRoute(log, r)), o.available, o.at) else Tracked(OfRoute(log, r))
  {
    OfRouteLast(log, o, r);
    if o.route == r {
      TrackedLast(OfRoute(log, r), o);
    } else {
      assert OfRoute(log, r) + [] == OfRoute(log, r);
    }
  }

  // ---------- the program ----------

  class OutageTracker {
    const routes: set<Route>
    var since: map<Route, Option<int>>
    var longest: map<Route, int>
    ghost var log: seq<Observation>

    ghost predicate Follows(r: Route)
      reads this
    {
      r in since && r in longest && Track(since[r], longest[r]) == Tracked(OfRoute(log, r))
    }

    /** Each route's two fields are what its own observations lead to; other routes do not interfere. */
    ghost predicate Valid()
      reads this
    {
      forall r :: r in routes ==> Follows(r)
    }

    constructor (routes: set<Route>)
      ensures Valid() && log == [] && this.routes == routes
    {
      this.routes := routes;
      since := map r | r in routes :: None;
      longest := map r | r in routes :: 0;
      log := [];
    }

    /** The program's observation of one route; the other routes keep their fields. */
    method Note(name: Route, available: bool, now: int)
      requires name in since && name in longest
      modifies this`since, this`longest
      ensures var after := Step(Track(old(since)[name], old(longest)[name]), available, now);
              since == old(since)[name := after.since] && longest == old(longest)[name := after.longest]
    {
      if available {
        if since[name].Some? {
          longest := longest[name := Max(longest[name], now - since[name].value)];
          since := since[name := None];
        }
      } else if since[name].None? {
        since := since[name := Some(now)];
      }
    }

    method Observe(name: Route, available: bool, now: int)
      requires Valid() && name in routes
      modifies this
      ensures Valid() && log == old(log) + [Observation(name, available, now)]
    {
      assert Follows(name);
      Note(name, available, now);
      log := log + [Observation(name, available, now)];
      forall r | r in routes
        ensures Follows(r)
      {
        assert old(Follows(r));
        TrackedAfter(old(log), Observation(name, available, now), r);
      }
    }

    /** Closes the outages still open; afterwards every route holds its longest outage. */
    method Finish(finish: map<Route, int>)
      requires Valid() && finish.Keys == routes
      modifies this`longest
      ensures forall r :: r in routes ==> r in longest && IsLongest(OfRoute(log, r), finish[r], longest[r])
    {
      assert forall r :: r in routes ==> Follows(r);
      var open := routes;
      while open != {}
        invariant open <= routes && forall r :: r in routes ==> r in longest
        invariant forall r :: r in open ==> longest[r] == old(longest)[r]
        invariant forall r :: r in routes - open ==> longest[r] == Close(Tracked(OfRoute(log, r)), finish[r]).longest
        decreases |open|
      {
        var r :| r in open;
        assert old(Follows(r));
        if since[r].Some? {
          longest := longest[r := Max(longest[r], finish[r] - since[r].value)];
        }
        open := open - {r};
      }
      forall r | r in routes
        ensures IsLongest(OfRoute(log, r), finish[r], longest[r])
      {
        TrackedIsLongest(OfRoute(log, r), finish[r]);
      }
    }
  }

  // ---------- what an outage is ----------

  /** Observations i..j are a maximal run of failures. */
  ghost predicate Outage(history: seq<Observation>, i: nat, j: nat) {
    && i < j <= |history|
    && (forall k :: i <= k < j ==> !history[k].available)
    && (i == 0 || history[i - 1].available)
    && (j == |history| || history[j].available)
  }

  /** From the first failure to the next success, or to the finish. */
  ghost function Duration(history: seq<Observation>, i: nat, j: nat, finish: int): int
    requires i < j <= |history|
  {
    (if j < |history| then history[j].at else finish) - history[i].at
  }

  ghost predicate IsLongest(history: seq<Observation>, finish: int, longest: int) {
    && longest >= 0
    && (forall i: nat, j: nat :: Outage(history, i, j) ==> Duration(history, i, j, finish) <= longest)
    && (longest > 0 ==> exists i: nat, j: nat :: Outage(history, i, j) && Duration(history, i, j, finish) == longest)
  }

  /** Where the run of failures at the end of the history starts. */
  function OpenStart(history: seq<Observation>): nat {
    if history == [] || history[|history| - 1].available then |history|
    else OpenStart(history[..|history| - 1])
  }

  lemma {:induction false} OpenStartIsOutage(history: seq<Observation>)
    ensures OpenStart(history) <= |history|
    ensures OpenStart(history) < |history| <==> history != [] && !history[|history| - 1].available
    ensures OpenStart(history) < |history| ==> Outage(history, OpenStart(history), |history|)
    ensures forall i: nat :: Outage(history, i, |history|) ==> i == OpenStart(history)
  {
    if history != [] && !history[|history| - 1].available {
      var head := history[..|history| - 1];
      OpenStartIsOutage(head);
      forall i: nat | Outage(history, i, |history|)
        ensures i == OpenStart(history)
      {
        if i < |head| { assert Outage(head, i, |head|); }
      }
    }
  }

  /** What the tracker knows after a history: its closed outages, and the start of the open one. */
  ghost predicate Knows(history: seq<Observation>, t: Track) {
    && t.longest >= 0
    && (t.since.Some? <==> OpenStart(history) < |history|)
    && (t.since.Some? ==> t.since.value == history[OpenStart(history)].at)
    && (forall i: nat, j: nat :: Outage(history, i, j) && j < |history| ==> history[j].at - history[i].at <= t.longest)
    && (t.longest > 0 ==> exists i: nat, j: nat :: Outage(history, i, j) && j < |history|
                                                  && history[j].at - history[i].at == t.longest)
  }

  /** An outage closed before the last observation, in either view. */
  lemma OutageOfHead(history: seq<Observation>, i: nat, j: nat)
    requires history != [] && j < |history|
    ensures j < |history| - 1 ==> (Outage(history, i, j) <==> Outage(history[..|history| - 1], i, j))
    ensures j == |history| - 1 ==>
              (Outage(history, i, j) <==> history[j].available && Outage(history[..|history| - 1], i, j))
  {
  }

  lemma StartOfHead(history: seq<Observation>)
    requires history != []
    ensures !history[|history| - 1].available ==>
              OpenStart(history) == OpenStart(history[..|history| - 1]) < |history|
    ensures history[|history| - 1].available ==> OpenStart(history) == |history|
  {
    OpenStartIsOutage(history[..|history| - 1]);
  }

  lemma KnowsAfterFailure(history: seq<Observation>, t: Track)
    requires history != [] && !history[|history| - 1].available && Knows(history[..|history| - 1], t)
    ensures Knows(history, Step(t, false, history[|history| - 1].at))
  {
    StartOfHead(history);
    forall i: nat, j: nat | j < |history|
      ensures Outage(history, i, j) <==> Outage(history[..|history| - 1], i, j) && j < |history| - 1
    {
      OutageOfHead(history, i, j);
    }
  }

  lemma KnowsAfterSuccess(history: seq<Observation>, t: Track)
    requires history != [] && history[|history| - 1].available && Knows(history[..|history| - 1], t)
    ensures Knows(history, Step(t, true, history[|history| - 1].at))
  {
    var head := history[..|history| - 1];
    StartOfHead(history);
    OpenStartIsOutage(head);
    forall i: nat, j: nat | j < |history|
      ensures Outage(history, i, j) <==> Outage(head, i, j)
    {
      OutageOfHead(history, i, j);
    }
    var after := Step(t, true, history[|head|].at);
    if after.longest > t.longest {
      assert Outage(history, OpenStart(head), |head|);
    } else if after.longest > 0 {
      var i: nat, j: nat :| Outage(head, i, j) && j < |head| && head[j].at - head[i].at == t.longest;
      assert Outage(history, i, j);
    }
  }

  lemma {:induction false} TrackedKnows(history: seq<Observation>)
    ensures Knows(history, Tracked(history))
  {
    if history != [] {
      TrackedKnows(history[..|history| - 1]);
      if history[|history| - 1].available {
        KnowsAfterSuccess(history, Tracked(history[..|history| - 1]));
      } else {
        KnowsAfterFailure(history, Tracked(history[..|history| - 1]));
      }
    }
  }

  /** The closed tracker's value is the longest maximal run of failures: an upper bound, and attained. */
  lemma TrackedIsLongest(history: seq<Observation>, finish: int)
    ensures IsLongest(history, finish, Close(Tracked(history), finish).longest)
  {
    TrackedKnows(history);
    OpenStartIsOutage(history);
    var t := Tracked(history);
    var closed := Close(t, finish).longest;
    if closed > t.longest {
      assert Duration(history, OpenStart(history), |history|, finish) == closed;
    } else if closed > 0 {
      var i: nat, j: nat :| Outage(history, i, j) && j < |history| && history[j].at - history[i].at == t.longest;
      assert Duration(history, i, j, finish) == closed;
    }
  }
}
