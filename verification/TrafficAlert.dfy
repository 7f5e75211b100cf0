/**
  The alert protocol of the traffic monitor: the state file is replaced atomically, the notifier may fail,
  and the process may be killed between any two effects (scripts/u1_external_traffic_monitor.py).
 */
module TrafficAlert {
  import opened Wrappers
  import opened Traffic

  /** The visible effects of a sample: a replaced state file, or a call of the notifier. */
  datatype Act = Saved(state: DailyState) | Called(delivered: bool)

  /** Whether a sample that leads to this state sends an alert. */
  predicate Alerts(state: DailyState, threshold: int) {
    state.Total() >= threshold && !state.notified
  }

  function Attempted(state: DailyState): DailyState {
    state.(attempts := state.attempts + 1)
  }

  /** All effects of one undisturbed sample, in order. */
  function Acts(saved: Option<DailyState>, s: Snapshot, day: string, threshold: int, delivered: bool): seq<Act> {
    match UpdateState(saved, s, day)
    case Failure(_) => []
    case Success(state) =>
      if !Alerts(state, threshold) then [Saved(state)]
      else
        var tried := Attempted(state);
        [Saved(tried), Called(delivered), Saved(if delivered then tried.(notified := true) else tried)]
  }

  /** The state file after some effects. */
  function FileAfter(saved: Option<DailyState>, acts: seq<Act>): Option<DailyState> {
    if acts == [] then saved
    else
      var last := acts[|acts| - 1];
      if last.Saved? then Some(last.state) else FileAfter(saved, acts[..|acts| - 1])
  }

  // ---------- the program ----------

  class Monitor {
    var file: Option<DailyState>
    ghost var log: seq<Act>
    const threshold: int

    constructor (file: Option<DailyState>, threshold: int)
      ensures this.file == file && log == [] && this.threshold == threshold
    {
      this.file, log, this.threshold := file, [], threshold;
    }

    method Save(state: DailyState)
      modifies this
      ensures file == Some(state) && log == old(log) + [Saved(state)]
    {
      file, log := Some(state), log + [Saved(state)];
    }

    /** The outside service accepts the message or the call raises; either way the call is made. */
    method Notify(delivered: bool) returns (ok: bool)
      modifies this`log
      ensures ok == delivered && log == old(log) + [Called(delivered)]
    {
      ok, log := delivered, log + [Called(delivered)];
    }

    /** Takes one sample; None stands for a raised exception. */
    method SampleOnce(s: Snapshot, day: string, delivered: bool) returns (result: Option<DailyState>)
      modifies this
      ensures log == old(log) + Acts(old(file), s, day, threshold, delivered)
      ensures file == FileAfter(old(file), Acts(old(file), s, day, threshold, delivered))
      ensures result.Some? ==> result == file
      ensures result.None? <==>
                || UpdateState(old(file), s, day).Failure?
                || (Alerts(UpdateState(old(file), s, day).value, threshold) && !delivered)
    {
      var updated := UpdateState(file, s, day);
      if updated.Failure? {
        return None;
      }
      var state := updated.value;
      if state.Total() >= threshold && !state.notified {
        state := state.(attempts := state.attempts + 1);
        Save(state);
        var ok := Notify(delivered);
        if !ok {
          Save(state);
          return None;
        }
        state := state.(notified := true);
      }
      Save(state);
      return Some(state);
    }
  }

  /** A sample is refused exactly on a day that is already open, when a counter was or is negative. */
  lemma SampleFailsIff(saved: Option<DailyState>, s: Snapshot, day: string)
    ensures UpdateState(saved, s, day).Failure? <==>
            && saved.Some? && saved.value.day == day
            && exists c: Counter :: Value(s, c) < 0 || Value(saved.value.last, c) < 0
  {
    var last := if saved.Some? then saved.value.last else s;
    assert Value(s, IngressV4) == s.ingressV4 && Value(s, EgressV4) == s.egressV4;
    assert Value(s, IngressV6) == s.ingressV6 && Value(s, EgressV6) == s.egressV6;
    assert Value(last, IngressV4) == last.ingressV4 && Value(last, EgressV4) == last.egressV4;
    assert Value(last, IngressV6) == last.ingressV6 && Value(last, EgressV6) == last.egressV6;
  }

  /**
    A sample calls the notifier exactly if it is taken, the day's two directions together have reached the
    threshold, and no delivery is recorded for the day; the attempt is saved before the call.
   */
  lemma CallsIff(saved: Option<DailyState>, s: Snapshot, day: string, threshold: int, delivered: bool)
    ensures var updated, acts := UpdateState(saved, s, day), Acts(saved, s, day, threshold, delivered);
            && ((exists b :: Called(b) in acts) <==>
                && updated.Success? && updated.value.ingress + updated.value.egress >= threshold
                && !updated.value.notified)
            && (forall b :: Called(b) in acts ==> b == delivered)
            && (forall k :: 0 <= k < |acts| && acts[k].Called? ==>
                  k == 1 && acts[0] == Saved(updated.value.(attempts := updated.value.attempts + 1)))
  {
    var updated, acts := UpdateState(saved, s, day), Acts(saved, s, day, threshold, delivered);
    if updated.Success? && Alerts(updated.value, threshold) { assert acts[1] == Called(delivered); }
  }

  // ---------- runs with failures ----------

  /** A sample that is killed after cut effects, or completes when cut is large. */
  datatype Sampling = Sampling(counters: Snapshot, delivered: bool, cut: nat)

  function Done(saved: Option<DailyState>, x: Sampling, day: string, threshold: int): seq<Act> {
    var acts := Acts(saved, x.counters, day, threshold, x.delivered);
    if x.cut < |acts| then acts[..x.cut] else acts
  }

  function FileRun(saved: Option<DailyState>, xs: seq<Sampling>, day: string, threshold: int): Option<DailyState>
    decreases |xs|
  {
    if xs == [] then saved
    else FileRun(FileAfter(saved, Done(saved, xs[0], day, threshold)), xs[1..], day, threshold)
  }

  function LogRun(saved: Option<DailyState>, xs: seq<Sampling>, day: string, threshold: int): seq<Act>
    decreases |xs|
  {
    if xs == [] then []
    else
      var acts := Done(saved, xs[0], day, threshold);
      acts + LogRun(FileAfter(saved, acts), xs[1..], day, threshold)
  }

  function Calls(log: seq<Act>): nat {
    if log == [] then 0 else (if log[0].Called? then 1 else 0) + Calls(log[1..])
  }

  function Deliveries(log: seq<Act>): nat {
    if log == [] then 0 else (if log[0] == Called(true) then 1 else 0) + Deliveries(log[1..])
  }

  /** Samples killed after the attempt was saved and before the call. */
  function Uncalled(saved: Option<DailyState>, xs: seq<Sampling>, day: string, threshold: int): nat
    decreases |xs|
  {
    if xs == [] then 0
    else
      (if |Acts(saved, xs[0].counters, day, threshold, xs[0].delivered)| == 3 && xs[0].cut == 1 then 1 else 0)
      + Uncalled(FileAfter(saved, Done(saved, xs[0], day, threshold)), xs[1..], day, threshold)
  }

  /** Samples killed after a delivery and before it was recorded. */
  function Unrecorded(saved: Option<DailyState>, xs: seq<Sampling>, day: string, threshold: int): nat
    decreases |xs|
  {
    if xs == [] then 0
    else
      (if |Acts(saved, xs[0].counters, day, threshold, xs[0].delivered)| == 3 && xs[0].cut == 2 && xs[0].delivered
       then 1 else 0)
      + Unrecorded(FileAfter(saved, Done(saved, xs[0], day, threshold)), xs[1..], day, threshold)
  }

  /** What the file says about a day: nothing yet when it belongs to another day. */
  function Attempts(saved: Option<DailyState>, day: string): int {
    if NewDay(saved, day) then 0 else saved.value.attempts
  }

  function Notified(saved: Option<DailyState>, day: string): int {
    if !NewDay(saved, day) && saved.value.notified then 1 else 0
  }

  lemma {:induction false} CallsAdd(a: seq<Act>, b: seq<Act>)
    ensures Calls(a + b) == Calls(a) + Calls(b) && Deliveries(a + b) == Deliveries(a) + Deliveries(b)
  {
    if a == [] {
      assert a + b == b;
    } else {
      CallsAdd(a[1..], b);
      assert (a + b)[1..] == a[1..] + b;
    }
  }

  /** The first effects of an alerting sample, by how many were made. */
  lemma AlertPrefix(saved: Option<DailyState>, x: Sampling, day: string, threshold: int)
    requires |Acts(saved, x.counters, day, threshold, x.delivered)| == 3
    ensures var acts, file := Done(saved, x, day, threshold), FileAfter(saved, Done(saved, x, day, threshold));
            var tried := Attempted(UpdateState(saved, x.counters, day).value);
            && !tried.notified && tried.day == day && tried.attempts == Attempts(saved, day) + 1
                && Notified(saved, day) == 0
            && (x.cut == 0 ==> file == saved && Calls(acts) == 0 && Deliveries(acts) == 0)
            && (x.cut == 1 ==> file == Some(tried) && Calls(acts) == 0 && Deliveries(acts) == 0)
            && (x.cut == 2 ==> file == Some(tried) && Calls(acts) == 1
                               && Deliveries(acts) == if x.delivered then 1 else 0)
            && (x.cut > 2 ==> file == Some(tried.(notified := x.delivered))
                              && Calls(acts) == 1 && Deliveries(acts) == if x.delivered then 1 else 0)
  {
    var acts := Acts(saved, x.counters, day, threshold, x.delivered);
    var a, b, c := acts[0], acts[1], acts[2];
    assert acts == [a, b, c];
    assert acts[..0] == [] && acts[..1] == [a] && acts[..2] == [a, b];
    assert [a, b][..1] == [a] && [a][..0] == [];
    CallsAdd([a], [b]);
    CallsAdd([a, b], [c]);
    assert [a] + [b] == [a, b] && [a, b] + [c] == [a, b, c];
  }

  /** A sample that does not alert calls nobody and leaves the day's alert record alone. */
  lemma QuietPrefix(saved: Option<DailyState>, x: Sampling, day: string, threshold: int)
    requires |Acts(saved, x.counters, day, threshold, x.delivered)| != 3
    ensures var acts, file := Done(saved, x, day, threshold), FileAfter(saved, Done(saved, x, day, threshold));
            && Calls(acts) == 0 && Deliveries(acts) == 0
            && Attempts(file, day) == Attempts(saved, day) && Notified(file, day) == Notified(saved, day)
  {
    var acts := Acts(saved, x.counters, day, threshold, x.delivered);
    if acts != [] {
      assert acts == [acts[0]] && acts[..0] == [] && acts[1..] == [];
    }
  }

  /**
    Attempts recorded for a day are exactly its calls plus the samples killed before calling; deliveries are
    exactly the recorded one plus those killed before recording.
   */
  lemma {:induction false} AlertAccounting(saved: Option<DailyState>, xs: seq<Sampling>, day: string, threshold: int)
    ensures var end, log := FileRun(saved, xs, day, threshold), LogRun(saved, xs, day, threshold);
            && Attempts(end, day) == Attempts(saved, day) + Calls(log) + Uncalled(saved, xs, day, threshold)
            && Notified(saved, day) + Deliveries(log) == Notified(end, day) + Unrecorded(saved, xs, day, threshold)
    decreases |xs|
  {
    if xs != [] {
      var acts := Done(saved, xs[0], day, threshold);
      var mid := FileAfter(saved, acts);
      AlertAccounting(mid, xs[1..], day, threshold);
      CallsAdd(acts, LogRun(mid, xs[1..], day, threshold));
      if |Acts(saved, xs[0].counters, day, threshold, xs[0].delivered)| == 3 {
        AlertPrefix(saved, xs[0], day, threshold);
      } else {
        QuietPrefix(saved, xs[0], day, threshold);
      }
    }
  }

  /** A recorded delivery ends the day's calls, whatever fails later. */
  lemma {:induction false} NoCallAfterNotified(saved: Option<DailyState>, xs: seq<Sampling>, day: string,
                                               threshold: int)
    requires Notified(saved, day) == 1
    ensures Calls(LogRun(saved, xs, day, threshold)) == 0 && Notified(FileRun(saved, xs, day, threshold), day) == 1
    decreases |xs|
  {
    if xs != [] {
      var acts := Done(saved, xs[0], day, threshold);
      var mid := FileAfter(saved, acts);
      assert |Acts(saved, xs[0].counters, day, threshold, xs[0].delivered)| != 3;
      QuietPrefix(saved, xs[0], day, threshold);
      NoCallAfterNotified(mid, xs[1..], day, threshold);
      CallsAdd(acts, LogRun(mid, xs[1..], day, threshold));
    }
  }

  /** A sample that would be killed between a delivery and its record. */
  predicate CutAtRecord(x: Sampling) {
    x.delivered && x.cut == 2
  }

  lemma {:induction false} NothingUncalled(saved: Option<DailyState>, xs: seq<Sampling>, day: string, threshold: int)
    requires forall x :: x in xs ==> x.cut != 1
    ensures Uncalled(saved, xs, day, threshold) == 0
    decreases |xs|
  {
    if xs != [] {
      assert xs[0] in xs && forall x :: x in xs[1..] ==> x in xs;
      NothingUncalled(FileAfter(saved, Done(saved, xs[0], day, threshold)), xs[1..], day, threshold);
    }
  }

  lemma {:induction false} NothingUnrecorded(saved: Option<DailyState>, xs: seq<Sampling>, day: string, threshold: int)
    requires forall x :: x in xs ==> !CutAtRecord(x)
    ensures Unrecorded(saved, xs, day, threshold) == 0
    decreases |xs|
  {
    if xs != [] {
      assert xs[0] in xs && forall x :: x in xs[1..] ==> x in xs;
      NothingUnrecorded(FileAfter(saved, Done(saved, xs[0], day, threshold)), xs[1..], day, threshold);
    }
  }

  /**
    From a new day on, under any kills: attempts are at least calls, and a recorded delivery was really made. If no
    sample is killed between a delivery and its record, the day has at most one delivery, and the record says
    exactly whether there was one; if none is killed between attempt and call, attempts are exactly the calls.
   */
  lemma OneAlertPerDay(saved: Option<DailyState>, xs: seq<Sampling>, day: string, threshold: int)
    requires NewDay(saved, day)
    ensures var end, log := FileRun(saved, xs, day, threshold), LogRun(saved, xs, day, threshold);
            && Calls(log) <= Attempts(end, day)
            && (Notified(end, day) == 1 ==> Deliveries(log) >= 1)
            && ((forall x :: x in xs ==> !CutAtRecord(x)) ==> Deliveries(log) == Notified(end, day) <= 1)
            && ((forall x :: x in xs ==> x.cut != 1) ==> Calls(log) == Attempts(end, day))
  {
    AlertAccounting(saved, xs, day, threshold);
    if forall x :: x in xs ==> !CutAtRecord(x) { NothingUnrecorded(saved, xs, day, threshold); }
    if forall x :: x in xs ==> x.cut != 1 { NothingUncalled(saved, xs, day, threshold); }
  }

  /** A kill between delivery and record makes the next sample deliver the same alert again. */
  lemma KillCanRepeatAlert(day: string)
    ensures var zero := Snapshot(0, 0, 0, 0);
            var xs := [Sampling(zero, true, 2), Sampling(zero, true, 3)];
            Deliveries(LogRun(None, xs, day, 0)) == 2
  {
    var zero := Snapshot(0, 0, 0, 0);
    var x, y := Sampling(zero, true, 2), Sampling(zero, true, 3);
    var xs := [x, y];
    var mid := FileAfter(None, Done(None, x, day, 0));
    AlertPrefix(None, x, day, 0);
    AlertPrefix(mid, y, day, 0);
    assert xs[1..] == [y] && [y][1..] == [];
    var rest := LogRun(mid, [y], day, 0);
    assert LogRun(FileAfter(mid, Done(mid, y, day, 0)), [], day, 0) == [];
    CallsAdd(Done(mid, y, day, 0), []);
    CallsAdd(Done(None, x, day, 0), rest);
  }

  // ---------- retries ----------

  /** A persisted day that has reached the threshold and has no recorded delivery. */
  ghost predicate Due(saved: Option<DailyState>, day: string, threshold: int) {
    && !NewDay(saved, day) && NonNegative(saved.value.last)
    && saved.value.Total() >= threshold && !saved.value.notified
  }

  /** A due day alerts at the next sample, wherever that is killed, and stays due until a delivery is recorded. */
  lemma DueSampleAlerts(saved: Option<DailyState>, x: Sampling, day: string, threshold: int)
    requires Due(saved, day, threshold) && NonNegative(x.counters)
    ensures |Acts(saved, x.counters, day, threshold, x.delivered)| == 3
    ensures var acts, file := Done(saved, x, day, threshold), FileAfter(saved, Done(saved, x, day, threshold));
            && Calls(acts) == (if x.cut >= 2 then 1 else 0)
            && Deliveries(acts) == (if x.cut >= 2 && x.delivered then 1 else 0)
            && (if x.cut > 2 && x.delivered then Notified(file, day) == 1 else Due(file, day, threshold))
  {
    AlertPrefix(saved, x, day, threshold);
  }

  /** An alerting sample without a recorded delivery leaves the day due, or untouched if it was killed at once. */
  lemma AlertLeavesDue(saved: Option<DailyState>, x: Sampling, day: string, threshold: int)
    requires |Acts(saved, x.counters, day, threshold, x.delivered)| == 3 && NonNegative(x.counters)
    ensures var file := FileAfter(saved, Done(saved, x, day, threshold));
            && (x.cut == 0 ==> file == saved)
            && (x.cut >= 1 && !(x.cut > 2 && x.delivered) ==> Due(file, day, threshold))
  {
    AlertPrefix(saved, x, day, threshold);
  }

  /** As long as no delivery is recorded, uninterrupted samples and calls go hand in hand. */
  lemma {:induction false} RetriesUntilDelivered(saved: Option<DailyState>, xs: seq<Sampling>, day: string,
                                                 threshold: int)
    requires Due(saved, day, threshold)
    requires forall x :: x in xs ==> NonNegative(x.counters) && x.cut >= 3
    ensures Notified(FileRun(saved, xs, day, threshold), day) == 1 <==> exists x :: x in xs && x.delivered
    ensures (forall x :: x in xs ==> !x.delivered) ==> Calls(LogRun(saved, xs, day, threshold)) == |xs|
    decreases |xs|
  {
    if xs != [] {
      var x, rest := xs[0], xs[1..];
      assert xs == [x] + rest;
      DueSampleAlerts(saved, x, day, threshold);
      var acts := Done(saved, x, day, threshold);
      var mid := FileAfter(saved, acts);
      CallsAdd(acts, LogRun(mid, rest, day, threshold));
      if x.delivered {
        NoCallAfterNotified(mid, rest, day, threshold);
      } else {
        RetriesUntilDelivered(mid, rest, day, threshold);
      }
    }
  }

  // ---------- exactly when an alert is repeated ----------

  /** The message is accepted if it is sent and the sample lives until then. */
  predicate Heard(x: Sampling) {
    x.delivered && x.cut >= 2
  }

  ghost predicate SomeHeard(xs: seq<Sampling>) {
    exists j :: 0 <= j < |xs| && Heard(xs[j])
  }

  lemma {:induction false} DueDayIsHeard(saved: Option<DailyState>, xs: seq<Sampling>, day: string, threshold: int)
    requires Due(saved, day, threshold) && forall x :: x in xs ==> NonNegative(x.counters)
    ensures Deliveries(LogRun(saved, xs, day, threshold)) >= 1 <==> SomeHeard(xs)
    decreases |xs|
  {
    if xs != [] {
      var x, rest := xs[0], xs[1..];
      assert x in xs && forall y :: y in rest ==> y in xs;
      DueSampleAlerts(saved, x, day, threshold);
      var acts := Done(saved, x, day, threshold);
      var mid := FileAfter(saved, acts);
      CallsAdd(acts, LogRun(mid, rest, day, threshold));
      if !Heard(x) {
        DueDayIsHeard(mid, rest, day, threshold);
        HeardLater(xs);
      }
    }
  }

  lemma HeardLater(xs: seq<Sampling>)
    requires xs != [] && !Heard(xs[0])
    ensures SomeHeard(xs) <==> SomeHeard(xs[1..])
  {
    if SomeHeard(xs) {
      var j :| 0 <= j < |xs| && Heard(xs[j]);
      assert xs[1..][j - 1] == xs[j];
    }
  }

  lemma {:induction false} DeliveriesAreCalls(log: seq<Act>)
    ensures Deliveries(log) <= Calls(log)
  {
    if log != [] { DeliveriesAreCalls(log[1..]); }
  }

  /** At its place in the run, the sample alerts, its message is accepted, and it is killed before the record. */
  ghost predicate LostAt(saved: Option<DailyState>, xs: seq<Sampling>, i: nat, day: string, threshold: int) {
    && i < |xs| && CutAtRecord(xs[i])
    && |Acts(FileRun(saved, xs[..i], day, threshold), xs[i].counters, day, threshold, true)| == 3
  }

  /** Such a sample, followed by one whose message would be accepted. */
  ghost predicate LostThenHeard(saved: Option<DailyState>, xs: seq<Sampling>, day: string, threshold: int) {
    exists i: nat :: LostAt(saved, xs, i, day, threshold) && SomeHeard(xs[i + 1..])
  }

  lemma LostShifts(saved: Option<DailyState>, xs: seq<Sampling>, i: nat, day: string, threshold: int)
    requires xs != []
    ensures var mid := FileAfter(saved, Done(saved, xs[0], day, threshold));
            && (LostAt(saved, xs, i + 1, day, threshold) <==> LostAt(mid, xs[1..], i, day, threshold))
            && (i + 1 < |xs| ==> xs[i + 2..] == xs[1..][i + 1..])
  {
    if i + 1 < |xs| {
      assert xs[..i + 1][0] == xs[0] && xs[..i + 1][1..] == xs[1..][..i];
    }
  }

  /** If the first sample is not lost, what matters happens later. */
  lemma LostLater(saved: Option<DailyState>, xs: seq<Sampling>, day: string, threshold: int)
    requires xs != [] && !LostAt(saved, xs, 0, day, threshold)
    ensures LostThenHeard(saved, xs, day, threshold) <==>
            LostThenHeard(FileAfter(saved, Done(saved, xs[0], day, threshold)), xs[1..], day, threshold)
  {
    var mid := FileAfter(saved, Done(saved, xs[0], day, threshold));
    if LostThenHeard(saved, xs, day, threshold) {
      var i: nat :| LostAt(saved, xs, i, day, threshold) && SomeHeard(xs[i + 1..]);
      LostShifts(saved, xs, i - 1, day, threshold);
      assert LostAt(mid, xs[1..], i - 1, day, threshold);
    }
    if LostThenHeard(mid, xs[1..], day, threshold) {
      var i: nat :| LostAt(mid, xs[1..], i, day, threshold) && SomeHeard(xs[1..][i + 1..]);
      LostShifts(saved, xs, i, day, threshold);
      assert LostAt(saved, xs, i + 1, day, threshold);
    }
  }

  lemma NotLostOnceNotified(saved: Option<DailyState>, xs: seq<Sampling>, day: string, threshold: int)
    requires Notified(saved, day) == 1
    ensures !LostThenHeard(saved, xs, day, threshold)
  {
    forall i: nat
      ensures !LostAt(saved, xs, i, day, threshold)
    {
      if i < |xs| { NoCallAfterNotified(saved, xs[..i], day, threshold); }
    }
  }

  lemma HeardEarlier(xs: seq<Sampling>, i: nat)
    requires i < |xs| && SomeHeard(xs[i + 1..])
    ensures SomeHeard(xs[1..])
  {
    var j :| 0 <= j < |xs[i + 1..]| && Heard(xs[i + 1..][j]);
    assert xs[1..][i + j] == xs[i + 1..][j];
  }

  lemma LostFirst(saved: Option<DailyState>, xs: seq<Sampling>, day: string, threshold: int)
    requires LostAt(saved, xs, 0, day, threshold)
    ensures LostThenHeard(saved, xs, day, threshold) <==> SomeHeard(xs[1..])
  {
    if SomeHeard(xs[1..]) {
      assert LostAt(saved, xs, 0, day, threshold) && SomeHeard(xs[0 + 1..]);
    } else if LostThenHeard(saved, xs, day, threshold) {
      var i: nat :| LostAt(saved, xs, i, day, threshold) && SomeHeard(xs[i + 1..]);
      HeardEarlier(xs, i);
    }
  }

  /**
    An alert is delivered more than once, in any run over any file, exactly when some alerting sample is killed
    between its delivery and the record and a later sample has its message accepted.
   */
  lemma {:induction false} RepeatsExactly(saved: Option<DailyState>, xs: seq<Sampling>, day: string, threshold: int)
    requires forall x :: x in xs ==> NonNegative(x.counters)
    ensures Deliveries(LogRun(saved, xs, day, threshold)) >= 2 <==> LostThenHeard(saved, xs, day, threshold)
    decreases |xs|
  {
    if xs != [] {
      var x, rest := xs[0], xs[1..];
      assert x in xs && (forall y :: y in rest ==> y in xs) && xs[..0] == [];
      var acts := Done(saved, x, day, threshold);
      var mid := FileAfter(saved, acts);
      CallsAdd(acts, LogRun(mid, rest, day, threshold));
      if LostAt(saved, xs, 0, day, threshold) {
        AlertPrefix(saved, x, day, threshold);
        AlertLeavesDue(saved, x, day, threshold);
        DueDayIsHeard(mid, rest, day, threshold);
        LostFirst(saved, xs, day, threshold);
      } else {
        LostLater(saved, xs, day, threshold);
        FirstNotLost(saved, x, rest, day, threshold);
        RepeatsExactly(mid, rest, day, threshold);
      }
    }
  }

  /** A first sample that is not lost is no delivery, or it is recorded and the day is done. */
  lemma FirstNotLost(saved: Option<DailyState>, x: Sampling, rest: seq<Sampling>, day: string, threshold: int)
    requires |Acts(saved, x.counters, day, threshold, x.delivered)| != 3 || !CutAtRecord(x)
    ensures var acts := Done(saved, x, day, threshold);
            var mid := FileAfter(saved, acts);
            || Deliveries(acts) == 0
            || (&& Deliveries(acts) == 1 && Deliveries(LogRun(mid, rest, day, threshold)) == 0
                && !LostThenHeard(mid, rest, day, threshold))
  {
    var acts := Done(saved, x, day, threshold);
    var mid := FileAfter(saved, acts);
    if |Acts(saved, x.counters, day, threshold, x.delivered)| != 3 {
      QuietPrefix(saved, x, day, threshold);
    } else {
      AlertPrefix(saved, x, day, threshold);
      if x.delivered && x.cut > 2 {
        NoCallAfterNotified(mid, rest, day, threshold);
        DeliveriesAreCalls(LogRun(mid, rest, day, threshold));
        NotLostOnceNotified(mid, rest, day, threshold);
      }
    }
  }
}
