/** Which frames the stream verifier counts and which runs it finds without failure, frame by frame. */
module StreamAcceptance {
  import opened Wrappers
  import opened StreamVerifier

  // ---------- well-formed frames ----------

  /** An applied event without gap, of one of the two known kinds, with the expected number. */
  predicate GoodEvent(f: Frame, number: int) {
    f.Event? && f.cursor == number && f.applied && !f.gapped && (f.event == FullBook || f.event == AtomicDelta)
  }

  /** A complete control for a named market, with the expected number twice and no full sync. */
  predicate GoodControl(f: Frame, number: int) {
    f.Control? && f.cursor == number && f.market != "" && f.complete && f.globalCursor == number && !f.fullSync
  }

  predicate GoodFrame(f: Frame, number: int) {
    GoodEvent(f, number) || GoodControl(f, number)
  }

  /** A real change from this generation to the next one, which asks for a full sync. */
  predicate GoodSwitch(f: Frame, generation: int) {
    && f.UniverseChanged? && f.oldGeneration == generation && f.newGeneration == generation + 1
    && f.changed && f.fullSyncRequired
  }

  /** How many frames are well formed and numbered number, number + 1, ... before the first that is not. */
  function GoodPrefix(frames: seq<Timed>, number: int): (n: nat)
    ensures n <= |frames|
    ensures forall i :: 0 <= i < n ==> GoodFrame(frames[i].frame, number + i)
    ensures n < |frames| ==> !GoodFrame(frames[n].frame, number + n)
    decreases |frames|
  {
    if frames != [] && GoodFrame(frames[0].frame, number) then 1 + GoodPrefix(frames[1..], number + 1) else 0
  }

  /** The connection was read and subscribed, and all its frames up to the first generation change are well formed. */
  ghost predicate WellFormed(a: Attempt) {
    && a.Connected? && a.subscription.Some? && a.subscription.value >= a.after
    && exists n :: 0 <= n <= |a.frames| && SoundUpTo(a, n)
  }

  ghost predicate SoundUpTo(a: Attempt, n: nat)
    requires a.Connected? && n <= |a.frames|
  {
    && (forall i :: 0 <= i < n ==> GoodFrame(a.frames[i].frame, a.after + 1 + i))
    && (n == |a.frames| || GoodSwitch(a.frames[n].frame, a.generation))
  }

  // ---------- what is counted ----------

  /** The frames of an attempt that are counted. */
  function Taken(a: Attempt): seq<Timed> {
    if Subscribed(a) then a.frames[..GoodPrefix(a.frames, a.after + 1)] else []
  }

  function AllTaken(attempts: seq<Attempt>): seq<Timed> {
    if attempts == [] then [] else Taken(attempts[0]) + AllTaken(attempts[1..])
  }

  datatype Sort = AnyEvent | FullOne | Delta | Quarantine | Start | Recovery | Replacement

  predicate OfSort(f: Frame, sort: Sort) {
    match sort
    case AnyEvent => f.Event?
    case FullOne => f.Event? && f.event == FullBook
    case Delta => f.Event? && f.event == AtomicDelta
    case Quarantine => f.Control? && f.control == Quarantined
    case Start => f.Control? && f.control == RecoveryStarted
    case Recovery => f.Control? && f.control == Recovered
    case Replacement => f.Control? && f.control == Replaced
  }

  function Count(frames: seq<Timed>, sort: Sort): nat {
    if frames == [] then 0 else (if OfSort(frames[0].frame, sort) then 1 else 0) + Count(frames[1..], sort)
  }

  /** From s to r each frame counter has grown by the frames of its own kind. */
  ghost predicate CountsFrames(s: Report, r: Report, frames: seq<Timed>) {
    && r.events == s.events + Count(frames, AnyEvent)
    && r.fullBooks == s.fullBooks + Count(frames, FullOne)
    && r.atomicDeltas == s.atomicDeltas + Count(frames, Delta)
    && r.quarantined == s.quarantined + Count(frames, Quarantine)
    && r.started == s.started + Count(frames, Start)
    && r.recovered == s.recovered + Count(frames, Recovery)
    && r.replaced == s.replaced + Count(frames, Replacement)
  }

  // ---------- what ends a connection ----------

  /** The first frame that is not well formed, and the number it should have. */
  datatype Ending = RanOut | EndsAt(frame: Frame, number: int)

  function EndOf(frames: seq<Timed>, number: int): Ending {
    var n := GoodPrefix(frames, number);
    if n < |frames| then EndsAt(frames[n].frame, number + n) else RanOut
  }

  function EndOfAttempt(a: Attempt): Ending {
    if Subscribed(a) then EndOf(a.frames, a.after + 1) else RanOut
  }

  datatype Reason = Misnumbered | NotApplied | HasGap | AsksResync

  predicate EndsFor(e: Ending, reason: Reason) {
    && e.EndsAt?
    && match reason
       case Misnumbered => (e.frame.Event? || e.frame.Control?) && e.frame.cursor != e.number
       case NotApplied => e.frame.Event? && e.frame.cursor == e.number && !e.frame.applied
       case HasGap => e.frame.Event? && e.frame.cursor == e.number && e.frame.applied && e.frame.gapped
       case AsksResync => e.frame == GlobalResync
  }

  function Endings(attempts: seq<Attempt>): seq<Ending> {
    if attempts == [] then [] else [EndOfAttempt(attempts[0])] + Endings(attempts[1..])
  }

  function CountEndings(endings: seq<Ending>, reason: Reason): nat {
    if endings == [] then 0 else (if EndsFor(endings[0], reason) then 1 else 0) + CountEndings(endings[1..], reason)
  }

  /** From s to r each counter of refused frames has grown by the connections that end for its own reason. */
  ghost predicate CountsEndings(s: Report, r: Report, endings: seq<Ending>) {
    && r.discontinuities == s.discontinuities + CountEndings(endings, Misnumbered)
    && r.unapplied == s.unapplied + CountEndings(endings, NotApplied)
    && r.gapFrames == s.gapFrames + CountEndings(endings, HasGap)
    && r.resyncs == s.resyncs + CountEndings(endings, AsksResync)
  }

  // ---------- one frame ----------

  /** A frame is accepted exactly if it is well formed, and leaves the connection exactly if it is a real change. */
  lemma FrameAccepted(f: Frame, cursor: int, generation: int)
    ensures Judge(f, cursor, generation).Accepted? <==> GoodFrame(f, cursor + 1)
    ensures Judge(f, cursor, generation).Left? <==> GoodSwitch(f, generation)
    ensures Judge(f, cursor, generation).Accepted? ==> NextCursor(f, cursor) == cursor + 1
  {
  }

  /** The counters that frames and endings do not touch. */
  predicate SameOthers(s: Report, r: Report) {
    r.failures == s.failures && r.connections == s.connections
  }

  lemma EventCounted(s: State, f: Timed, cursor: int, generation: int)
    requires GoodEvent(f.frame, cursor + 1)
    ensures var r := Book(s, f.frame, Judge(f.frame, cursor, generation), f.at).report;
            && CountsFrames(s.report, r, [f]) && CountsEndings(s.report, r, [])
            && SameOthers(s.report, r) && r.changes == s.report.changes
  {
  }

  lemma ControlCounted(s: State, f: Timed, cursor: int, generation: int)
    requires GoodControl(f.frame, cursor + 1)
    ensures var r := Book(s, f.frame, Judge(f.frame, cursor, generation), f.at).report;
            && CountsFrames(s.report, r, [f]) && CountsEndings(s.report, r, [])
            && SameOthers(s.report, r) && r.changes == s.report.changes
  {
  }

  lemma LastEventCounted(s: State, f: Timed, cursor: int, generation: int)
    requires f.frame.Event? && !GoodEvent(f.frame, cursor + 1)
    ensures var r := Book(s, f.frame, Judge(f.frame, cursor, generation), f.at).report;
            && CountsFrames(s.report, r, []) && CountsEndings(s.report, r, [EndsAt(f.frame, cursor + 1)])
            && SameOthers(s.report, r) && r.changes == s.report.changes
  {
  }

  lemma LastControlCounted(s: State, f: Timed, cursor: int, generation: int)
    requires f.frame.Control? && !GoodControl(f.frame, cursor + 1)
    ensures var r := Book(s, f.frame, Judge(f.frame, cursor, generation), f.at).report;
            && CountsFrames(s.report, r, []) && CountsEndings(s.report, r, [EndsAt(f.frame, cursor + 1)])
            && SameOthers(s.report, r) && r.changes == s.report.changes
  {
  }

  lemma LastOtherCounted(s: State, f: Timed, cursor: int, generation: int)
    requires !f.frame.Event? && !f.frame.Control?
    ensures var r := Book(s, f.frame, Judge(f.frame, cursor, generation), f.at).report;
            && CountsFrames(s.report, r, []) && CountsEndings(s.report, r, [EndsAt(f.frame, cursor + 1)])
            && SameOthers(s.report, r)
            && r.changes == s.report.changes + (if GoodSwitch(f.frame, generation) then 1 else 0)
  {
  }

  /** What one frame does to the report from s to r. */
  ghost predicate FrameCounts(s: Report, r: Report, f: Timed, number: int, generation: int) {
    && SameOthers(s, r)
    && (if GoodFrame(f.frame, number)
        then CountsFrames(s, r, [f]) && CountsEndings(s, r, []) && r.changes == s.changes
        else
          && CountsFrames(s, r, []) && CountsEndings(s, r, [EndsAt(f.frame, number)])
          && r.changes == s.changes + (if GoodSwitch(f.frame, generation) then 1 else 0))
  }

  lemma FrameCounted(s: State, f: Timed, cursor: int, generation: int)
    ensures FrameCounts(s.report, Book(s, f.frame, Judge(f.frame, cursor, generation), f.at).report, f, cursor + 1,
                        generation)
  {
    if GoodEvent(f.frame, cursor + 1) {
      EventCounted(s, f, cursor, generation);
    } else if GoodControl(f.frame, cursor + 1) {
      ControlCounted(s, f, cursor, generation);
    } else if f.frame.Event? {
      LastEventCounted(s, f, cursor, generation);
    } else if f.frame.Control? {
      LastControlCounted(s, f, cursor, generation);
    } else {
      LastOtherCounted(s, f, cursor, generation);
    }
  }

  lemma PrefixCons(frames: seq<Timed>, number: int)
    requires frames != [] && GoodFrame(frames[0].frame, number)
    ensures GoodPrefix(frames, number) == 1 + GoodPrefix(frames[1..], number + 1)
    ensures EndOf(frames, number) == EndOf(frames[1..], number + 1)
    ensures frames[..GoodPrefix(frames, number)] == [frames[0]] + frames[1..][..GoodPrefix(frames[1..], number + 1)]
  {
  }

  lemma {:induction false} CountAppend(xs: seq<Timed>, ys: seq<Timed>, sort: Sort)
    ensures Count(xs + ys, sort) == Count(xs, sort) + Count(ys, sort)
  {
    if xs == [] {
      assert xs + ys == ys;
    } else {
      CountAppend(xs[1..], ys, sort);
      assert (xs + ys)[1..] == xs[1..] + ys;
    }
  }

  lemma CountsFramesAppend(s: Report, m: Report, r: Report, xs: seq<Timed>, ys: seq<Timed>)
    requires CountsFrames(s, m, xs) && CountsFrames(m, r, ys)
    ensures CountsFrames(s, r, xs + ys)
  {
    forall sort ensures Count(xs + ys, sort) == Count(xs, sort) + Count(ys, sort) { CountAppend(xs, ys, sort); }
  }

  lemma CountCons(e: Ending, rest: seq<Ending>, reason: Reason)
    ensures CountEndings([e] + rest, reason) == CountEndings([e], reason) + CountEndings(rest, reason)
  {
    assert ([e] + rest)[1..] == rest;
  }

  lemma CountsEndingsCons(s: Report, m: Report, r: Report, e: Ending, rest: seq<Ending>)
    requires CountsEndings(s, m, [e]) && CountsEndings(m, r, rest)
    ensures CountsEndings(s, r, [e] + rest)
  {
    forall reason
      ensures CountEndings([e] + rest, reason) == CountEndings([e], reason) + CountEndings(rest, reason)
    {
      CountCons(e, rest, reason);
    }
  }

  // ---------- one connection ----------

  /** What a connection does to the report from s to r: frames that are counted, and the one that ends it. */
  ghost predicate Follows(s: Report, r: Report, frames: seq<Timed>, number: int, generation: int) {
    var e := EndOf(frames, number);
    && CountsFrames(s, r, frames[..GoodPrefix(frames, number)]) && CountsEndings(s, r, [e]) && SameOthers(s, r)
    && r.changes == s.changes + (if e.EndsAt? && GoodSwitch(e.frame, generation) then 1 else 0)
  }

  lemma NoFrames(r: Report, number: int, generation: int)
    ensures Follows(r, r, [], number, generation)
  {
  }

  lemma FollowsCons(s: Report, m: Report, r: Report, frames: seq<Timed>, number: int, generation: int)
    requires frames != [] && GoodFrame(frames[0].frame, number)
    requires FrameCounts(s, m, frames[0], number, generation) && Follows(m, r, frames[1..], number + 1, generation)
    ensures Follows(s, r, frames, number, generation)
  {
    PrefixCons(frames, number);
    CountsFramesAppend(s, m, r, [frames[0]], frames[1..][..GoodPrefix(frames[1..], number + 1)]);
  }

  lemma FollowsLast(s: Report, r: Report, frames: seq<Timed>, number: int, generation: int)
    requires frames != [] && !GoodFrame(frames[0].frame, number)
    requires FrameCounts(s, r, frames[0], number, generation)
    ensures Follows(s, r, frames, number, generation)
  {
    assert frames[..0] == [];
  }

  lemma {:induction false} FollowCounts(s: State, cursor: int, generation: int, frames: seq<Timed>)
    ensures var end, e := Follow(s, cursor, generation, frames), EndOf(frames, cursor + 1);
            && Follows(s.report, end.state.report, frames, cursor + 1, generation)
            && (end.verdict.Rejected? <==> e.EndsAt? && !GoodSwitch(e.frame, generation))
    decreases |frames|
  {
    if frames == [] {
      NoFrames(s.report, cursor + 1, generation);
    } else {
      var f := frames[0];
      FrameAccepted(f.frame, cursor, generation);
      FrameCounted(s, f, cursor, generation);
      var after := Book(s, f.frame, Judge(f.frame, cursor, generation), f.at);
      if GoodFrame(f.frame, cursor + 1) {
        PrefixCons(frames, cursor + 1);
        FollowCounts(after, cursor + 1, generation, frames[1..]);
        FollowsCons(s.report, after.report, Follow(after, cursor + 1, generation, frames[1..]).state.report, frames,
                    cursor + 1, generation);
      } else {
        FollowsLast(s.report, after.report, frames, cursor + 1, generation);
      }
    }
  }

  /** The frame that ends a connection, if it is not the real change of its generation, is a failure. */
  ghost predicate Fails(a: Attempt) {
    !Subscribed(a) || (EndOfAttempt(a).EndsAt? && !GoodSwitch(EndOfAttempt(a).frame, a.generation))
  }

  predicate Switches(a: Attempt) {
    Subscribed(a) && EndOfAttempt(a).EndsAt? && GoodSwitch(EndOfAttempt(a).frame, a.generation)
  }

  /** What one attempt does to the report from s to r. */
  ghost predicate AttemptCounts(s: Report, r: Report, a: Attempt) {
    && CountsFrames(s, r, Taken(a)) && CountsEndings(s, r, [EndOfAttempt(a)])
    && r.failures == s.failures + (if Fails(a) then 1 else 0)
    && r.connections == s.connections + (if a.Connected? then 1 else 0)
    && r.changes == s.changes + (if Switches(a) then 1 else 0)
  }

  /** Opening a connection and recording a failure change no counter of frames or endings. */
  lemma OpenedAndFailed(s: Report, o: Report, m: Report, r: Report, a: Attempt, failed: bool)
    requires Subscribed(a) && o == s.(connections := s.connections + 1)
    requires Follows(o, m, a.frames, a.after + 1, a.generation) && (failed <==> Fails(a))
    requires r == if failed then m.(failures := m.failures + 1) else m
    ensures AttemptCounts(s, r, a)
  {
  }

  lemma TryCounts(s: State, a: Attempt)
    ensures AttemptCounts(s.report, TryOnce(s, a).report, a)
  {
    if Subscribed(a) {
      FollowCounts(Opened(s), a.after, a.generation, a.frames);
      var end := Follow(Opened(s), a.after, a.generation, a.frames);
      OpenedAndFailed(s.report, Opened(s).report, end.state.report, TryOnce(s, a).report, a, end.verdict.Rejected?);
    }
  }

  lemma FailsIff(a: Attempt)
    ensures Fails(a) <==> !WellFormed(a)
  {
    if Subscribed(a) {
      var n := GoodPrefix(a.frames, a.after + 1);
      if !Fails(a) { assert SoundUpTo(a, n); }
      if m :| 0 <= m <= |a.frames| && SoundUpTo(a, m) {
        assert m <= n;
        assert n <= m;
      }
    }
  }

  // ---------- whole runs ----------

  function Tally(attempts: seq<Attempt>, connected: bool): nat {
    if attempts == [] then 0
    else (if (if connected then attempts[0].Connected? else Switches(attempts[0])) then 1 else 0)
         + Tally(attempts[1..], connected)
  }

  ghost function Failing(attempts: seq<Attempt>): nat {
    if attempts == [] then 0 else (if WellFormed(attempts[0]) then 0 else 1) + Failing(attempts[1..])
  }

  /**
    The report of any run, counter by counter, without the verifier's own judgement: each frame counter is the
    number of well-formed frames in sequence of its own kind, each counter of refused frames is the number of
    connections that end for its own reason, and a failure is counted for each attempt that is not well formed.
   */
  lemma {:induction false} ReportIsExact(s: State, attempts: seq<Attempt>)
    ensures var r := TryAll(s, attempts).report;
            && CountsFrames(s.report, r, AllTaken(attempts))
            && CountsEndings(s.report, r, Endings(attempts))
            && r.failures == s.report.failures + Failing(attempts)
            && r.connections == s.report.connections + Tally(attempts, true)
            && r.changes == s.report.changes + Tally(attempts, false)
    decreases |attempts|
  {
    if attempts != [] {
      var a, rest := attempts[0], attempts[1..];
      TryCounts(s, a);
      FailsIff(a);
      ReportIsExact(TryOnce(s, a), rest);
      var m, r := TryOnce(s, a).report, TryAll(s, attempts).report;
      CountsFramesAppend(s.report, m, r, Taken(a), AllTaken(rest));
      CountsEndingsCons(s.report, m, r, EndOfAttempt(a), Endings(rest));
    }
  }

  lemma {:induction false} NoneFailing(attempts: seq<Attempt>)
    ensures Failing(attempts) == 0 <==> forall a :: a in attempts ==> WellFormed(a)
  {
    if attempts != [] {
      NoneFailing(attempts[1..]);
      assert forall a :: a in attempts <==> a == attempts[0] || a in attempts[1..];
    }
  }

  /**
    A run is without failure if and only if every attempt was read and subscribed and all its frames up to the
    first generation change are well formed and numbered without a gap.
   */
  lemma NoFailureIff(attempts: seq<Attempt>)
    ensures TryAll(INITIAL, attempts).report.failures == 0 <==> forall a :: a in attempts ==> WellFormed(a)
  {
    ReportIsExact(INITIAL, attempts);
    NoneFailing(attempts);
  }
}
