/**
  Exactly when the daily byte count is right: a condition on each sampling interval of the day, in terms of the
  flows and resets in it and the reading before it (scripts/u1_external_traffic_monitor.py).
 */
module TrafficLoss {
  import opened Wrappers
  import opened Traffic

  // ---------- one interval ----------

  /** A sampling interval after some events without a sample. */
  function IntervalAfter(i: Interval, events: seq<Event>, c: Counter): Interval
    decreases |events|
  {
    if events == [] then i
    else
      var next := match events[0]
        case Flow(d, n) => if d == c then AfterFlow(i, n) else i
        case Reset(d) => if d == c then AfterReset(i) else i
        case Sample => i;
      IntervalAfter(next, events[1..], c)
  }

  /** What a counter shows after some events. */
  function ValueAfter(value: nat, events: seq<Event>, c: Counter): nat
    decreases |events|
  {
    if events == [] then value
    else
      var next := match events[0]
        case Flow(d, n) => if d == c then value + n else value
        case Reset(d) => if d == c then 0 else value
        case Sample => value;
      ValueAfter(next, events[1..], c)
  }

  lemma {:induction false} IntervalShowsValue(i: Interval, events: seq<Event>, c: Counter, last: nat)
    ensures CounterValue(IntervalAfter(i, events, c), last) == ValueAfter(CounterValue(i, last), events, c)
    decreases |events|
  {
    if events != [] {
      match events[0]
      case Flow(d, n) => IntervalShowsValue(if d == c then AfterFlow(i, n) else i, events[1..], c, last);
      case Reset(d) => IntervalShowsValue(if d == c then AfterReset(i) else i, events[1..], c, last);
      case Sample => IntervalShowsValue(i, events[1..], c, last);
    }
  }

  lemma {:induction false} IntervalTotal(i: Interval, events: seq<Event>, c: Counter)
    ensures var after := IntervalAfter(i, events, c);
            after.erased + after.since == i.erased + i.since + Flowed(events, c)
    decreases |events|
  {
    if events != [] {
      match events[0]
      case Flow(d, n) => IntervalTotal(if d == c then AfterFlow(i, n) else i, events[1..], c);
      case Reset(d) => IntervalTotal(if d == c then AfterReset(i) else i, events[1..], c);
      case Sample => IntervalTotal(i, events[1..], c);
    }
  }

  lemma {:induction false} IntervalSplits(i: Interval, a: seq<Event>, b: seq<Event>, c: Counter)
    ensures IntervalAfter(i, a + b, c) == IntervalAfter(IntervalAfter(i, a, c), b, c)
    decreases |a|
  {
    if a == [] {
      assert a + b == b;
    } else {
      assert (a + b)[1..] == a[1..] + b;
      match a[0]
      case Flow(d, n) => IntervalSplits(if d == c then AfterFlow(i, n) else i, a[1..], b, c);
      case Reset(d) => IntervalSplits(if d == c then AfterReset(i) else i, a[1..], b, c);
      case Sample => IntervalSplits(i, a[1..], b, c);
    }
  }

  ghost predicate NoResetOf(events: seq<Event>, c: Counter) {
    forall k :: 0 <= k < |events| ==> events[k] != Reset(c)
  }

  lemma {:induction false} WithoutReset(i: Interval, events: seq<Event>, c: Counter)
    requires NoResetOf(events, c)
    ensures IntervalAfter(i, events, c) == i.(since := i.since + Flowed(events, c))
    decreases |events|
  {
    if events != [] {
      assert events[0] != Reset(c) && forall k :: 0 <= k < |events[1..]| ==> events[1..][k] == events[k + 1];
      match events[0]
      case Flow(d, n) => WithoutReset(if d == c then AfterFlow(i, n) else i, events[1..], c);
      case Reset(d) => WithoutReset(i, events[1..], c);
      case Sample => WithoutReset(i, events[1..], c);
    }
  }

  /** The last reset of a counter among some events. */
  ghost predicate LastReset(events: seq<Event>, c: Counter, r: nat) {
    r < |events| && events[r] == Reset(c) && NoResetOf(events[r + 1..], c)
  }

  lemma {:induction false} LastResetExists(events: seq<Event>, c: Counter)
    ensures NoResetOf(events, c) || exists r: nat :: LastReset(events, c, r)
    decreases |events|
  {
    if events != [] {
      var n := |events| - 1;
      if events[n] == Reset(c) {
        assert LastReset(events, c, n);
      } else {
        LastResetExists(events[..n], c);
        if r: nat :| LastReset(events[..n], c, r) {
          assert events[r + 1..] == events[..n][r + 1..] + [events[n]];
          assert LastReset(events, c, r);
        }
      }
    }
  }

  const FRESH: Interval := Interval(0, false, 0)

  /** After the last reset the interval holds what passed before it and since it. */
  lemma AfterLastReset(events: seq<Event>, c: Counter, r: nat)
    requires LastReset(events, c, r)
    ensures IntervalAfter(FRESH, events, c) == Interval(Flowed(events[..r], c), true, Flowed(events[r + 1..], c))
  {
    var before, reset, later := events[..r], [Reset(c)], events[r + 1..];
    assert events == (before + reset) + later;
    IntervalSplits(FRESH, before + reset, later, c);
    IntervalSplits(FRESH, before, reset, c);
    IntervalTotal(FRESH, before, c);
    var i := IntervalAfter(FRESH, before, c);
    assert reset[1..] == [];
    assert IntervalAfter(i, reset, c) == IntervalAfter(AfterReset(i), [], c) == AfterReset(i);
    WithoutReset(AfterReset(i), later, c);
  }

  /**
    Nothing passes before the counter's last reset, and after it the counter stays below the reading before the
    interval, unless that is zero.
   */
  predicate HarmlessReset(events: seq<Event>, c: Counter, reading: nat, r: nat)
    requires r < |events|
  {
    Flowed(events[..r], c) == 0 && (reading == 0 || Flowed(events[r + 1..], c) < reading)
  }

  ghost predicate Harmless(events: seq<Event>, c: Counter, reading: nat) {
    forall r: nat :: LastReset(events, c, r) ==> HarmlessReset(events, c, reading, r)
  }

  lemma MissedAtReset(events: seq<Event>, c: Counter, reading: nat, r: nat)
    requires LastReset(events, c, r)
    ensures Missed(IntervalAfter(FRESH, events, c), reading) == 0 <==> HarmlessReset(events, c, reading, r)
  {
    AfterLastReset(events, c, r);
  }

  lemma MissedIff(events: seq<Event>, c: Counter, reading: nat)
    ensures Missed(IntervalAfter(FRESH, events, c), reading) == 0 <==> Harmless(events, c, reading)
  {
    if NoResetOf(events, c) {
      WithoutReset(FRESH, events, c);
    } else {
      LastResetExists(events, c);
      forall r: nat | LastReset(events, c, r)
        ensures Missed(IntervalAfter(FRESH, events, c), reading) == 0 <==> HarmlessReset(events, c, reading, r)
      {
        MissedAtReset(events, c, reading, r);
      }
    }
  }

  // ---------- the day ----------

  ghost predicate NoSample(events: seq<Event>) {
    forall k :: 0 <= k < |events| ==> !events[k].Sample?
  }

  /** The events from a to b, without the sample at b that ends them. */
  ghost predicate Sampled(events: seq<Event>, a: nat, b: nat) {
    && a <= b < |events| && events[b].Sample? && (a == 0 || events[a - 1].Sample?)
    && forall k :: a <= k < b ==> !events[k].Sample?
  }

  /** The interval loses nothing of a counter that showed start before all these events. */
  ghost predicate HarmlessBetween(events: seq<Event>, a: nat, b: nat, c: Counter, start: nat)
    requires a <= b <= |events|
  {
    Harmless(events[a..b], c, ValueAfter(start, events[..a], c))
  }

  ghost predicate AllHarmless(events: seq<Event>, c: Counter, start: nat) {
    forall a: nat, b: nat :: Sampled(events, a, b) ==> HarmlessBetween(events, a, b, c, start)
  }

  lemma {:induction false} LostUpToSample(head: seq<Event>, tail: seq<Event>, c: Counter, i: Interval, last: nat)
    requires NoSample(head)
    ensures Lost(head + [Sample] + tail, c, i, last) ==
            Missed(IntervalAfter(i, head, c), last)
            + Lost(tail, c, FRESH, CounterValue(IntervalAfter(i, head, c), last))
    decreases |head|
  {
    var events := head + [Sample] + tail;
    if head == [] {
      assert events[1..] == tail;
    } else {
      assert events[1..] == head[1..] + [Sample] + tail;
      assert !head[0].Sample? && forall k :: 0 <= k < |head[1..]| ==> head[1..][k] == head[k + 1];
      match head[0]
      case Flow(d, n) => LostUpToSample(head[1..], tail, c, if d == c then AfterFlow(i, n) else i, last);
      case Reset(d) => LostUpToSample(head[1..], tail, c, if d == c then AfterReset(i) else i, last);
    }
  }

  lemma {:induction false} NothingLostUnsampled(events: seq<Event>, c: Counter, i: Interval, last: nat)
    requires NoSample(events)
    ensures Lost(events, c, i, last) == 0
    decreases |events|
  {
    if events != [] {
      assert !events[0].Sample? && forall k :: 0 <= k < |events[1..]| ==> events[1..][k] == events[k + 1];
      match events[0]
      case Flow(d, n) => NothingLostUnsampled(events[1..], c, if d == c then AfterFlow(i, n) else i, last);
      case Reset(d) => NothingLostUnsampled(events[1..], c, if d == c then AfterReset(i) else i, last);
    }
  }

  function FirstSample(events: seq<Event>): (n: nat)
    ensures n <= |events| && (forall k :: 0 <= k < n ==> !events[k].Sample?) && (n < |events| ==> events[n].Sample?)
  {
    if events == [] || events[0].Sample? then 0 else 1 + FirstSample(events[1..])
  }

  lemma {:induction false} ValueSplits(value: nat, a: seq<Event>, b: seq<Event>, c: Counter)
    ensures ValueAfter(value, a + b, c) == ValueAfter(ValueAfter(value, a, c), b, c)
    decreases |a|
  {
    if a == [] {
      assert a + b == b;
    } else {
      assert (a + b)[1..] == a[1..] + b;
      match a[0]
      case Flow(d, n) => ValueSplits(if d == c then value + n else value, a[1..], b, c);
      case Reset(d) => ValueSplits(if d == c then 0 else value, a[1..], b, c);
      case Sample => ValueSplits(value, a[1..], b, c);
    }
  }

  /** The intervals of a day are its first one and those of the events after the first sample. */
  lemma LaterInterval(events: seq<Event>, n: nat, a: nat, b: nat)
    requires n < |events| && events[n].Sample?
    ensures Sampled(events, n + 1 + a, n + 1 + b) <==> Sampled(events[n + 1..], a, b)
  {
    var tail := events[n + 1..];
    assert forall k :: 0 <= k < |tail| ==> tail[k] == events[n + 1 + k];
    if Sampled(tail, a, b) {
      forall k | n + 1 + a <= k < n + 1 + b ensures !events[k].Sample? {
        assert events[k] == tail[k - n - 1];
      }
    }
  }

  lemma LaterHarmless(events: seq<Event>, n: nat, a: nat, b: nat, c: Counter, start: nat)
    requires n < |events| && events[n].Sample? && a <= b <= |events[n + 1..]|
    ensures HarmlessBetween(events, n + 1 + a, n + 1 + b, c, start) <==>
            HarmlessBetween(events[n + 1..], a, b, c, ValueAfter(start, events[..n], c))
  {
    assert events[n + 1 + a..n + 1 + b] == events[n + 1..][a..b];
    ReadingAfterFirst(events, n, a, c, start);
  }

  lemma ReadingAfterFirst(events: seq<Event>, n: nat, a: nat, c: Counter, start: nat)
    requires n < |events| && events[n].Sample? && n + 1 + a <= |events|
    ensures ValueAfter(start, events[..n + 1 + a], c) ==
            ValueAfter(ValueAfter(start, events[..n], c), events[n + 1..][..a], c)
  {
    assert events[..n + 1 + a] == (events[..n] + [events[n]]) + events[n + 1..][..a];
    ValueSplits(start, events[..n] + [events[n]], events[n + 1..][..a], c);
    ValueSplits(start, events[..n], [events[n]], c);
    assert [events[n]][1..] == [];
  }

  lemma FirstHarmless(events: seq<Event>, n: nat, c: Counter, start: nat)
    requires n == FirstSample(events) < |events|
    ensures Sampled(events, 0, n)
    ensures HarmlessBetween(events, 0, n, c, start) <==> Harmless(events[..n], c, start)
    ensures forall a: nat, b: nat :: Sampled(events, a, b) && a <= n ==> a == 0 && b == n
  {
    assert events[0..n] == events[..n] && events[..0] == [];
  }

  lemma HarmlessSplits(events: seq<Event>, n: nat, c: Counter, start: nat)
    requires n == FirstSample(events) < |events|
    ensures AllHarmless(events, c, start) <==>
            && Harmless(events[..n], c, start)
            && AllHarmless(events[n + 1..], c, ValueAfter(start, events[..n], c))
  {
    FirstHarmless(events, n, c, start);
    if AllHarmless(events, c, start) {
      LaterAreHarmless(events, n, c, start);
    } else {
      HarmfulIsFirstOrLater(events, n, c, start);
    }
  }

  lemma LaterAreHarmless(events: seq<Event>, n: nat, c: Counter, start: nat)
    requires n < |events| && events[n].Sample? && AllHarmless(events, c, start)
    ensures AllHarmless(events[n + 1..], c, ValueAfter(start, events[..n], c))
  {
    var tail := events[n + 1..];
    forall a: nat, b: nat | Sampled(tail, a, b)
      ensures HarmlessBetween(tail, a, b, c, ValueAfter(start, events[..n], c))
    {
      LaterInterval(events, n, a, b);
      LaterHarmless(events, n, a, b, c, start);
    }
  }

  lemma HarmfulLater(events: seq<Event>, n: nat, a: nat, b: nat, c: Counter, start: nat)
    requires Sampled(events, a, b) && n < a && events[n].Sample?
    requires !HarmlessBetween(events, a, b, c, start)
    ensures !AllHarmless(events[n + 1..], c, ValueAfter(start, events[..n], c))
  {
    var a': nat, b': nat := a - n - 1, b - n - 1;
    LaterInterval(events, n, a', b');
    LaterHarmless(events, n, a', b', c, start);
    OneIsHarmful(events[n + 1..], a', b', c, ValueAfter(start, events[..n], c));
  }

  lemma OneIsHarmful(events: seq<Event>, a: nat, b: nat, c: Counter, start: nat)
    requires Sampled(events, a, b) && !HarmlessBetween(events, a, b, c, start)
    ensures !AllHarmless(events, c, start)
  {
  }

  lemma HarmfulIsFirstOrLater(events: seq<Event>, n: nat, c: Counter, start: nat)
    requires n == FirstSample(events) < |events| && !AllHarmless(events, c, start)
    ensures Harmless(events[..n], c, start) ==> !AllHarmless(events[n + 1..], c, ValueAfter(start, events[..n], c))
  {
    var a: nat, b: nat :| Sampled(events, a, b) && !HarmlessBetween(events, a, b, c, start);
    FirstHarmless(events, n, c, start);
    if a > n { HarmfulLater(events, n, a, b, c, start); }
  }

  /** A counter's samples miss nothing exactly if each of its sampling intervals is harmless. */
  lemma {:induction false} NothingLostIff(events: seq<Event>, c: Counter, start: nat)
    ensures Lost(events, c, FRESH, start) == 0 <==> AllHarmless(events, c, start)
    decreases |events|
  {
    var n := FirstSample(events);
    if n == |events| {
      NothingLostUnsampled(events, c, FRESH, start);
    } else {
      var head, tail := events[..n], events[n + 1..];
      assert events == head + [Sample] + tail;
      LostUpToSample(head, tail, c, FRESH, start);
      IntervalShowsValue(FRESH, head, c, start);
      MissedIff(head, c, start);
      NothingLostIff(tail, c, ValueAfter(start, head, c));
      HarmlessSplits(events, n, c, start);
    }
  }

  /**
    The day's ingress is all that was sampled exactly if every interval of both its counters is harmless; so is
    the egress.
   */
  lemma CountIsExactIff(saved: Option<DailyState>, s: Snapshot, day: string, events: seq<Event>)
    requires NewDay(saved, day) && NonNegative(s)
    ensures var end := Day(UpdateState(saved, s, day), s, events);
            && end.Success?
            && (end.value.ingress == TrueBytes(events, true) - OpenBytes(events, true) <==>
                AllHarmless(events, IngressV4, s.ingressV4) && AllHarmless(events, IngressV6, s.ingressV6))
            && (end.value.egress == TrueBytes(events, false) - OpenBytes(events, false) <==>
                AllHarmless(events, EgressV4, s.egressV4) && AllHarmless(events, EgressV6, s.egressV6))
  {
    AccountingIsExact(saved, s, day, events);
    NothingLostIff(events, IngressV4, s.ingressV4);
    NothingLostIff(events, IngressV6, s.ingressV6);
    NothingLostIff(events, EgressV4, s.egressV4);
    NothingLostIff(events, EgressV6, s.egressV6);
  }
}
