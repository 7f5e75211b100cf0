/**
  Daily byte accounting over kernel counters that may be reset, and the once-a-day alert protocol
  (scripts/u1_external_traffic_monitor.py).
 */
module Traffic {
  import opened Wrappers

  datatype Counter = IngressV4 | EgressV4 | IngressV6 | EgressV6

  datatype Snapshot = Snapshot(ingressV4: int, egressV4: int, ingressV6: int, egressV6: int)

  datatype DailyState = DailyState(day: string, last: Snapshot, ingress: int, egress: int, notified: bool,
                                   attempts: int)
  {
    function Total(): int { ingress + egress }
  }

  datatype Error = NegativeCounter

  function Value(s: Snapshot, c: Counter): int {
    match c
    case IngressV4 => s.ingressV4
    case EgressV4 => s.egressV4
    case IngressV6 => s.ingressV6
    case EgressV6 => s.egressV6
  }

  function WithValue(s: Snapshot, c: Counter, v: int): Snapshot {
    match c
    case IngressV4 => s.(ingressV4 := v)
    case EgressV4 => s.(egressV4 := v)
    case IngressV6 => s.(ingressV6 := v)
    case EgressV6 => s.(egressV6 := v)
  }

  predicate NonNegative(s: Snapshot) {
    s.ingressV4 >= 0 && s.egressV4 >= 0 && s.ingressV6 >= 0 && s.egressV6 >= 0
  }

  /** The bytes between two readings of one counter; a smaller value means it was reset. */
  function Delta(current: int, previous: int): int {
    if current >= previous then current - previous else current
  }

  function UpdateState(state: Option<DailyState>, s: Snapshot, day: string): Result<DailyState, Error> {
    if state.None? || state.value.day != day then Success(DailyState(day, s, 0, 0, false, 0))
    else if !NonNegative(s) || !NonNegative(state.value.last) then Failure(NegativeCounter)
    else
      var was := state.value;
      Success(was.(last := s,
                   ingress := was.ingress + Delta(s.ingressV4, was.last.ingressV4)
                       + Delta(s.ingressV6, was.last.ingressV6),
                   egress := was.egress + Delta(s.egressV4, was.last.egressV4) + Delta(s.egressV6, was.last.egressV6)))
  }

  // ---------- what happens between samples ----------

  /** Bytes pass a counter, a counter restarts from zero, or the monitor takes a sample. */
  datatype Event = Flow(counter: Counter, bytes: nat) | Reset(counter: Counter) | Sample

  function CountersAfter(s: Snapshot, e: Event): Snapshot {
    match e
    case Flow(c, n) => WithValue(s, c, Value(s, c) + n)
    case Reset(c) => WithValue(s, c, 0)
    case Sample => s
  }

  /** The state after a day's events, all sampled on that day; the counters start from s. */
  function Day(state: Result<DailyState, Error>, s: Snapshot, events: seq<Event>): Result<DailyState, Error>
    decreases |events|
  {
    if events == [] || state.Failure? then state
    else
      var next := if events[0].Sample? then UpdateState(Some(state.value), s, state.value.day) else state;
      Day(next, CountersAfter(s, events[0]), events[1..])
  }

  // ---------- one counter ----------

  /** What the samples add up for one counter that holds value and was last read as last. */
  function Counted(events: seq<Event>, c: Counter, value: nat, last: nat): nat
    decreases |events|
  {
    if events == [] then 0
    else
      var rest := events[1..];
      match events[0]
      case Flow(d, n) => Counted(rest, c, if d == c then value + n else value, last)
      case Reset(d) => Counted(rest, c, if d == c then 0 else value, last)
      case Sample => Delta(value, last) + Counted(rest, c, value, value)
  }

  /** The bytes that really passed one counter. */
  function Flowed(events: seq<Event>, c: Counter): nat {
    if events == [] then 0
    else (if events[0].Flow? && events[0].counter == c then events[0].bytes else 0) + Flowed(events[1..], c)
  }

  /** The bytes that passed after the last sample; open of them had passed before these events. */
  function Unsampled(events: seq<Event>, c: Counter, open: nat): nat {
    if events == [] then open
    else
      match events[0]
      case Flow(d, n) => Unsampled(events[1..], c, if d == c then open + n else open)
      case Reset(_) => Unsampled(events[1..], c, open)
      case Sample => Unsampled(events[1..], c, 0)
  }

  /**
    One sampling interval of a counter: the bytes erased by resets, whether there was a reset, and the bytes
    since the last reset (or since the last sample, if there was none).
   */
  datatype Interval = Interval(erased: nat, reset: bool, since: nat)

  /** What a sample misses: bytes erased by a reset, and the old reading when the counter has passed it again. */
  function Missed(i: Interval, last: nat): nat {
    if !i.reset then 0 else i.erased + if i.since >= last then last else 0
  }

  function CounterValue(i: Interval, last: nat): nat {
    if i.reset then i.since else last + i.since
  }

  /** All that resets make the samples miss. */
  function Lost(events: seq<Event>, c: Counter, i: Interval, last: nat): nat
    decreases |events|
  {
    if events == [] then 0
    else
      var rest := events[1..];
      match events[0]
      case Flow(d, n) => Lost(rest, c, if d == c then i.(since := i.since + n) else i, last)
      case Reset(d) => Lost(rest, c, if d == c then Interval(i.erased + i.since, true, 0) else i, last)
      case Sample => Missed(i, last) + Lost(rest, c, Interval(0, false, 0), CounterValue(i, last))
  }

  lemma DeltaMisses(i: Interval, last: nat)
    ensures Delta(CounterValue(i, last), last) + Missed(i, last) == (if i.reset then i.erased else 0) + i.since
  {
  }

  ghost predicate Balanced(events: seq<Event>, c: Counter, i: Interval, last: nat) {
    Counted(events, c, CounterValue(i, last), last) + Lost(events, c, i, last)
        + Unsampled(events, c, i.erased + i.since)
    == i.erased + i.since + Flowed(events, c)
  }

  function AfterFlow(i: Interval, n: nat): Interval {
    i.(since := i.since + n)
  }

  function AfterReset(i: Interval): Interval {
    Interval(i.erased + i.since, true, 0)
  }

  lemma FlowKeepsBalance(events: seq<Event>, c: Counter, i: Interval, last: nat)
    requires events != [] && events[0].Flow?
    requires Balanced(events[1..], c, if events[0].counter == c then AfterFlow(i, events[0].bytes) else i, last)
    ensures Balanced(events, c, i, last)
  {
  }

  lemma ResetKeepsBalance(events: seq<Event>, c: Counter, i: Interval, last: nat)
    requires events != [] && events[0].Reset?
    requires Balanced(events[1..], c, if events[0].counter == c then AfterReset(i) else i, last)
    ensures Balanced(events, c, i, last)
  {
  }

  lemma SampleKeepsBalance(events: seq<Event>, c: Counter, i: Interval, last: nat)
    requires events != [] && events[0].Sample? && (!i.reset ==> i.erased == 0)
    requires Balanced(events[1..], c, Interval(0, false, 0), CounterValue(i, last))
    ensures Balanced(events, c, i, last)
  {
    DeltaMisses(i, last);
  }

  /** Per counter: counted plus lost plus not yet sampled is exactly what passed. */
  lemma {:induction false} CountedIsExact(events: seq<Event>, c: Counter, i: Interval, last: nat)
    requires !i.reset ==> i.erased == 0
    ensures Balanced(events, c, i, last)
    decreases |events|
  {
    if events == [] {
    } else if events[0].Flow? {
      CountedIsExact(events[1..], c, if events[0].counter == c then AfterFlow(i, events[0].bytes) else i, last);
      FlowKeepsBalance(events, c, i, last);
    } else if events[0].Reset? {
      CountedIsExact(events[1..], c, if events[0].counter == c then AfterReset(i) else i, last);
      ResetKeepsBalance(events, c, i, last);
    } else {
      CountedIsExact(events[1..], c, Interval(0, false, 0), CounterValue(i, last));
      SampleKeepsBalance(events, c, i, last);
    }
  }

  ghost predicate NoReset(events: seq<Event>) {
    forall e :: e in events ==> !e.Reset?
  }

  lemma {:induction false} NothingLostWithoutReset(events: seq<Event>, c: Counter, since: nat, last: nat)
    requires NoReset(events)
    ensures Lost(events, c, Interval(0, false, since), last) == 0
    decreases |events|
  {
    if events != [] {
      assert events[0] in events && forall e :: e in events[1..] ==> e in events;
      match events[0]
      case Flow(d, n) => NothingLostWithoutReset(events[1..], c, if d == c then since + n else since, last);
      case Sample => NothingLostWithoutReset(events[1..], c, 0, last + since);
    }
  }

  // ---------- the whole state ----------

  /** What the day's samples add to the state is what they add up per counter. */
  lemma {:induction false} DayCounts(state: DailyState, s: Snapshot, events: seq<Event>)
    requires NonNegative(s) && NonNegative(state.last)
    ensures var end := Day(Success(state), s, events);
            && end.Success?
            && end.value.day == state.day
            && end.value.ingress == state.ingress
                 + Counted(events, IngressV4, s.ingressV4, state.last.ingressV4)
                 + Counted(events, IngressV6, s.ingressV6, state.last.ingressV6)
            && end.value.egress == state.egress
                 + Counted(events, EgressV4, s.egressV4, state.last.egressV4)
                 + Counted(events, EgressV6, s.egressV6, state.last.egressV6)
    decreases |events|
  {
    if events != [] {
      match events[0]
      case Flow(c, n) => DayCounts(state, WithValue(s, c, Value(s, c) + n), events[1..]);
      case Reset(c) => DayCounts(state, WithValue(s, c, 0), events[1..]);
      case Sample => DayCounts(UpdateState(Some(state), s, state.day).value, s, events[1..]);
    }
  }

  function Sum(f: Counter -> int, ingress: bool): int {
    if ingress then f(IngressV4) + f(IngressV6) else f(EgressV4) + f(EgressV6)
  }

  /** The true bytes of a direction, those lost to resets, and those not sampled yet, since counters s were read. */
  function TrueBytes(events: seq<Event>, ingress: bool): int {
    Sum(c => Flowed(events, c), ingress)
  }

  function LostBytes(s: Snapshot, events: seq<Event>, ingress: bool): int
    requires NonNegative(s)
  {
    Sum(c requires NonNegative(s) => Lost(events, c, Interval(0, false, 0), Value(s, c)), ingress)
  }

  function OpenBytes(events: seq<Event>, ingress: bool): int {
    Sum(c => Unsampled(events, c, 0), ingress)
  }

  predicate NewDay(saved: Option<DailyState>, day: string) {
    saved.None? || saved.value.day != day
  }

  /**
    From a day's first sample on, whatever was saved before, each direction's count falls short of the truth by
    exactly what was lost or is still open.
   */
  lemma AccountingIsExact(saved: Option<DailyState>, s: Snapshot, day: string, events: seq<Event>)
    requires NewDay(saved, day) && NonNegative(s)
    ensures var end := Day(UpdateState(saved, s, day), s, events);
            && end.Success? && end.value.day == day
            && end.value.ingress + LostBytes(s, events, true) + OpenBytes(events, true) == TrueBytes(events, true)
            && end.value.egress + LostBytes(s, events, false) + OpenBytes(events, false) == TrueBytes(events, false)
  {
    var start := UpdateState(saved, s, day).value;
    DayCounts(start, s, events);
    CountedIsExact(events, IngressV4, Interval(0, false, 0), s.ingressV4);
    CountedIsExact(events, IngressV6, Interval(0, false, 0), s.ingressV6);
    CountedIsExact(events, EgressV4, Interval(0, false, 0), s.egressV4);
    CountedIsExact(events, EgressV6, Interval(0, false, 0), s.egressV6);
  }

  /** The count never exceeds the truth, and equals all that was sampled when no counter was reset. */
  lemma NeverOvercounts(saved: Option<DailyState>, s: Snapshot, day: string, events: seq<Event>)
    requires NewDay(saved, day) && NonNegative(s)
    ensures var end := Day(UpdateState(saved, s, day), s, events);
            && end.Success?
            && 0 <= end.value.ingress <= TrueBytes(events, true)
            && 0 <= end.value.egress <= TrueBytes(events, false)
            && (NoReset(events) ==>
                  end.value.Total() == TrueBytes(events, true) - OpenBytes(events, true)
                                       + TrueBytes(events, false) - OpenBytes(events, false))
  {
    AccountingIsExact(saved, s, day, events);
    DayCounts(UpdateState(saved, s, day).value, s, events);
    if NoReset(events) {
      NothingLostWithoutReset(events, IngressV4, 0, s.ingressV4);
      NothingLostWithoutReset(events, IngressV6, 0, s.ingressV6);
      NothingLostWithoutReset(events, EgressV4, 0, s.egressV4);
      NothingLostWithoutReset(events, EgressV6, 0, s.egressV6);
    }
  }

  /** A reset can hide bytes that no later sample recovers: here 5 pass after a reset and none is counted. */
  lemma ResetHidesBytes(day: string)
    ensures var s := Snapshot(5, 0, 0, 0);
            var events := [Reset(IngressV4), Flow(IngressV4, 5), Sample];
            && Day(UpdateState(None, s, day), s, events).value.ingress == 0
            && TrueBytes(events, true) == 5 && OpenBytes(events, true) == 0
  {
    var s := Snapshot(5, 0, 0, 0);
    var events := [Reset(IngressV4), Flow(IngressV4, 5), Sample];
    var after2 := [Sample];
    var after1 := [Flow(IngressV4, 5)] + after2;
    assert events[1..] == after1 && after1[1..] == after2 && after2[1..] == [];
    DayCounts(UpdateState(None, s, day).value, s, events);
  }

  /** Within a day the counts only grow. */
  lemma CountsOnlyGrow(state: DailyState, s: Snapshot, past: seq<Event>, future: seq<Event>)
    requires NonNegative(s) && NonNegative(state.last)
    ensures var mid, end := Day(Success(state), s, past), Day(Success(state), s, past + future);
            && mid.Success? && end.Success?
            && mid.value.ingress <= end.value.ingress && mid.value.egress <= end.value.egress
  {
    DayCounts(state, s, past);
    DayCounts(state, s, past + future);
    CountedGrows(past, future, IngressV4, s.ingressV4, state.last.ingressV4);
    CountedGrows(past, future, IngressV6, s.ingressV6, state.last.ingressV6);
    CountedGrows(past, future, EgressV4, s.egressV4, state.last.egressV4);
    CountedGrows(past, future, EgressV6, s.egressV6, state.last.egressV6);
  }

  lemma {:induction false} CountedGrows(past: seq<Event>, future: seq<Event>, c: Counter, value: nat, last: nat)
    ensures Counted(past, c, value, last) <= Counted(past + future, c, value, last)
    decreases |past|
  {
    if past != [] {
      assert (past + future)[1..] == past[1..] + future;
      match past[0]
      case Flow(d, n) => CountedGrows(past[1..], future, c, if d == c then value + n else value, last);
      case Reset(d) => CountedGrows(past[1..], future, c, if d == c then 0 else value, last);
      case Sample => CountedGrows(past[1..], future, c, value, value);
    }
  }
}
