/**
  What the stream verifier's report means: consecutive cursors, an exact count of quarantine windows, and a
  maximum that is the longest outage of any single market.
 */
module StreamSafety {
  import opened Wrappers
  import opened StreamVerifier
  import O = Outages

  // ---------- cursors ----------

  /** The cursors of the numbered frames that fitted, in order. */
  function CursorsSeen(cursor: int, generation: int, frames: seq<Timed>): seq<int>
    decreases |frames|
  {
    if frames == [] then []
    else
      var f := frames[0].frame;
      var next := NextCursor(f, cursor);
      var here := if next != cursor then [f.cursor] else [];
      here + if Judge(f, cursor, generation).Accepted? then CursorsSeen(next, generation, frames[1..]) else []
  }

  function Accepts(r: Report): nat {
    r.events + r.quarantined + r.started + r.recovered + r.replaced
  }

  /** A frame whose number was taken although the frame was then refused. */
  predicate RefusedAfterNumber(v: Verdict) {
    v.Rejected? && (v.gate.Unapplied? || v.gate.Gapped? || v.gate.UnknownEvent? || v.gate.BadControl?)
  }

  lemma FrameAdvances(s: State, f: Frame, cursor: int, generation: int, now: int)
    ensures var v := Judge(f, cursor, generation);
            && NextCursor(f, cursor) - cursor ==
               Accepts(Book(s, f, v, now).report) - Accepts(s.report) + (if RefusedAfterNumber(v) then 1 else 0)
            && (NextCursor(f, cursor) != cursor ==> Numbered(f) && f.cursor == cursor + 1 == NextCursor(f, cursor))
  {
  }

  /** Within a connection the numbers taken are exactly start + 1, start + 2, ... up to the final cursor. */
  lemma {:induction false} CursorsAreConsecutive(s: State, cursor: int, generation: int, frames: seq<Timed>)
    ensures var seen, end := CursorsSeen(cursor, generation, frames), Follow(s, cursor, generation, frames);
            && end.cursor == cursor + |seen|
            && forall k :: 0 <= k < |seen| ==> seen[k] == cursor + 1 + k
    decreases |frames|
  {
    if frames != [] {
      var f := frames[0];
      FrameAdvances(s, f.frame, cursor, generation, f.at);
      var v := Judge(f.frame, cursor, generation);
      if v.Accepted? {
        CursorsAreConsecutive(Book(s, f.frame, v, f.at), NextCursor(f.frame, cursor), generation, frames[1..]);
      }
    }
  }

  /** A connection advances by the frames it counted, plus one if its last frame was refused after its number fitted. */
  lemma {:induction false} CursorCountsFrames(s: State, cursor: int, generation: int, frames: seq<Timed>)
    ensures var end := Follow(s, cursor, generation, frames);
            end.cursor - cursor ==
            Accepts(end.state.report) - Accepts(s.report) + (if RefusedAfterNumber(end.verdict) then 1 else 0)
    decreases |frames|
  {
    if frames != [] {
      var f := frames[0];
      FrameAdvances(s, f.frame, cursor, generation, f.at);
      var v := Judge(f.frame, cursor, generation);
      if v.Accepted? {
        CursorCountsFrames(Book(s, f.frame, v, f.at), NextCursor(f.frame, cursor), generation, frames[1..]);
      }
    }
  }

  // ---------- the control log ----------

  /** The availability changes one accepted frame announces. */
  function Announced(f: Frame, verdict: Verdict, at: int): seq<O.Observation> {
    if !verdict.Accepted? || !f.Control? || f.control.RecoveryStarted? then []
    else [O.Observation(f.market, !f.control.Quarantined?, at)]
  }

  /** The log extended by the frames of one connection. */
  function FrameLog(log: seq<O.Observation>, cursor: int, generation: int, frames: seq<Timed>): seq<O.Observation>
    decreases |frames|
  {
    if frames == [] then log
    else
      var f := frames[0];
      var v := Judge(f.frame, cursor, generation);
      var here := log + Announced(f.frame, v, f.at);
      if v.Accepted? then FrameLog(here, NextCursor(f.frame, cursor), generation, frames[1..]) else here
  }

  function AttemptLog(log: seq<O.Observation>, a: Attempt): seq<O.Observation> {
    if Subscribed(a) then FrameLog(log, a.after, a.generation, a.frames) else log
  }

  function LogAll(log: seq<O.Observation>, attempts: seq<Attempt>): seq<O.Observation>
    decreases |attempts|
  {
    if attempts == [] then log else LogAll(AttemptLog(log, attempts[0]), attempts[1..])
  }

  /** Every accepted change of a market's availability, over all connections. */
  function ControlLog(attempts: seq<Attempt>): seq<O.Observation> {
    LogAll([], attempts)
  }

  function Track(log: seq<O.Observation>, market: string): O.Track {
    O.Tracked(O.OfRoute(log, market))
  }

  // ---------- windows ----------

  function Failures(log: seq<O.Observation>): nat {
    if log == [] then 0 else Failures(log[..|log| - 1]) + if log[|log| - 1].available then 0 else 1
  }

  /** Quarantines of a market that was already quarantined. */
  function Repeats(log: seq<O.Observation>): nat {
    if log == [] then 0
    else
      var head, last := log[..|log| - 1], log[|log| - 1];
      Repeats(head) + if !last.available && Track(head, last.route).since.Some? then 1 else 0
  }

  /** One window for each recovery of a quarantined market, from the market's outage start. */
  function Windows(log: seq<O.Observation>): seq<Window> {
    if log == [] then []
    else
      var head, last := log[..|log| - 1], log[|log| - 1];
      var since := Track(head, last.route).since;
      Windows(head) + if last.available && since.Some? then [Window(last.route, last.at - since.value)] else []
  }

  function MaxDuration(windows: seq<Window>): int {
    if windows == [] then 0
    else O.Max(MaxDuration(windows[..|windows| - 1]), windows[|windows| - 1].duration)
  }

  /** One market's open quarantine is the open outage of its own changes. */
  ghost predicate HoldsFor(since: map<string, int>, log: seq<O.Observation>, m: string) {
    Track(log, m).since == if m in since then Some(since[m]) else None
  }

  ghost predicate Tracks(since: map<string, int>, log: seq<O.Observation>) {
    forall m :: HoldsFor(since, log, m)
  }

  ghost predicate Tallies(quarantined: nat, windows: seq<Window>, longest: int, open: nat, log: seq<O.Observation>) {
    && windows == Windows(log)
    && longest == MaxDuration(windows)
    && quarantined == Failures(log) == |windows| + open + Repeats(log)
  }

  /** The state holds what the control log says: its open quarantines, its windows and their maximum. */
  ghost predicate Reflects(s: State, log: seq<O.Observation>) {
    && Tracks(s.since, log)
    && Tallies(s.report.quarantined, s.report.windows, s.report.longest, |s.since|, log)
  }

  function Observed(s: State, o: O.Observation): State {
    if o.available then CloseWindow(s, o.route, o.at)
    else
      var counted := s.(report := CountControl(s.report, Quarantined));
      if o.route in s.since then counted else counted.(since := s.since[o.route := o.at])
  }

  lemma ObservationLast(log: seq<O.Observation>, o: O.Observation)
    ensures Failures(log + [o]) == Failures(log) + if o.available then 0 else 1
    ensures Repeats(log + [o]) == Repeats(log) + if !o.available && Track(log, o.route).since.Some? then 1 else 0
    ensures Windows(log + [o]) == Windows(log) + if o.available && Track(log, o.route).since.Some?
                                                 then [Window(o.route, o.at - Track(log, o.route).since.value)] else []
  {
    assert (log + [o])[..|log|] == log;
  }

  lemma MaxLast(windows: seq<Window>, w: Window)
    ensures MaxDuration(windows + [w]) == O.Max(MaxDuration(windows), w.duration)
  {
    assert (windows + [w])[..|windows|] == windows;
  }

  lemma TrackLast(log: seq<O.Observation>, o: O.Observation, m: string)
    ensures Track(log + [o], m) == if o.route == m then O.Step(Track(log, m), o.available, o.at) else Track(log, m)
  {
    O.TrackedAfter(log, o, m);
  }

  lemma ObservedTracks(s: State, log: seq<O.Observation>, o: O.Observation)
    requires Tracks(s.since, log)
    ensures Tracks(Observed(s, o).since, log + [o])
  {
    forall m
      ensures HoldsFor(Observed(s, o).since, log + [o], m)
    {
      assert HoldsFor(s.since, log, m);
      TrackLast(log, o, m);
    }
  }

  lemma QuarantineTallies(s: State, log: seq<O.Observation>, o: O.Observation)
    requires Reflects(s, log) && !o.available
    ensures var t := Observed(s, o);
            Tallies(t.report.quarantined, t.report.windows, t.report.longest, |t.since|, log + [o])
  {
    assert HoldsFor(s.since, log, o.route);
    ObservationLast(log, o);
    if o.route !in s.since {
      assert s.since[o.route := o.at].Keys == s.since.Keys + {o.route};
    }
  }

  lemma RecoveryTallies(s: State, log: seq<O.Observation>, o: O.Observation)
    requires Reflects(s, log) && o.available
    ensures var t := Observed(s, o);
            Tallies(t.report.quarantined, t.report.windows, t.report.longest, |t.since|, log + [o])
  {
    assert HoldsFor(s.since, log, o.route);
    ObservationLast(log, o);
    if o.route in s.since {
      MapMinusOne(s.since, o.route);
      MaxLast(Windows(log), Window(o.route, o.at - s.since[o.route]));
    }
  }

  lemma MapMinusOne(since: map<string, int>, m: string)
    requires m in since
    ensures |since - {m}| == |since| - 1
  {
    assert (since - {m}).Keys == since.Keys - {m};
  }

  lemma ObservedReflects(s: State, log: seq<O.Observation>, o: O.Observation)
    requires Reflects(s, log)
    ensures Reflects(Observed(s, o), log + [o])
  {
    ObservedTracks(s, log, o);
    if o.available { RecoveryTallies(s, log, o); } else { QuarantineTallies(s, log, o); }
  }

  predicate SameParts(s: State, t: State) {
    && t.since == s.since && t.report.windows == s.report.windows
    && t.report.longest == s.report.longest && t.report.quarantined == s.report.quarantined
  }

  /** Booking a frame changes the tracked parts of the state exactly as its announcement does. */
  lemma BookedAsAnnounced(s: State, f: Frame, cursor: int, generation: int, now: int)
    ensures var v := Judge(f, cursor, generation);
            var announced := Announced(f, v, now);
            SameParts(if announced == [] then s else Observed(s, announced[0]), Book(s, f, v, now))
  {
  }

  lemma FrameReflects(s: State, log: seq<O.Observation>, f: Frame, cursor: int, generation: int, now: int)
    requires Reflects(s, log)
    ensures var v := Judge(f, cursor, generation); Reflects(Book(s, f, v, now), log + Announced(f, v, now))
  {
    BookedAsAnnounced(s, f, cursor, generation, now);
    var announced := Announced(f, Judge(f, cursor, generation), now);
    if announced == [] {
      assert log + announced == log;
    } else {
      assert announced == [announced[0]];
      ObservedReflects(s, log, announced[0]);
    }
  }

  lemma {:induction false} FollowReflects(s: State, log: seq<O.Observation>, cursor: int, generation: int,
                                          frames: seq<Timed>)
    requires Reflects(s, log)
    ensures Reflects(Follow(s, cursor, generation, frames).state, FrameLog(log, cursor, generation, frames))
    decreases |frames|
  {
    if frames != [] {
      var f := frames[0];
      var v := Judge(f.frame, cursor, generation);
      FrameReflects(s, log, f.frame, cursor, generation, f.at);
      if v.Accepted? {
        FollowReflects(Book(s, f.frame, v, f.at), log + Announced(f.frame, v, f.at),
                       NextCursor(f.frame, cursor), generation, frames[1..]);
      }
    }
  }

  lemma TryReflects(s: State, log: seq<O.Observation>, a: Attempt)
    requires Reflects(s, log)
    ensures Reflects(TryOnce(s, a), AttemptLog(log, a))
  {
    if Subscribed(a) {
      FollowReflects(Opened(s), log, a.after, a.generation, a.frames);
    }
  }

  lemma {:induction false} TryAllReflects(s: State, log: seq<O.Observation>, attempts: seq<Attempt>)
    requires Reflects(s, log)
    ensures Reflects(TryAll(s, attempts), LogAll(log, attempts))
    decreases |attempts|
  {
    if attempts != [] {
      TryReflects(s, log, attempts[0]);
      TryAllReflects(TryOnce(s, attempts[0]), AttemptLog(log, attempts[0]), attempts[1..]);
    }
  }

  lemma RunReflects(attempts: seq<Attempt>)
    ensures Reflects(TryAll(INITIAL, attempts), ControlLog(attempts))
  {
    forall m
      ensures HoldsFor(map[], [], m)
    {
    }
    TryAllReflects(INITIAL, [], attempts);
  }

  /** Over all connections every quarantine frame is a closed window, still outstanding, or a repetition. */
  lemma QuarantinesAreConserved(attempts: seq<Attempt>)
    ensures var end := TryAll(INITIAL, attempts);
            && end.report.quarantined == |end.report.windows| + |end.since| + Repeats(ControlLog(attempts))
            && |end.report.windows| + |end.since| <= end.report.quarantined
  {
    RunReflects(attempts);
  }

  // ---------- windows are outages ----------

  /** Between two changes of one market: from the first quarantine since the last recovery to the next recovery. */
  ghost predicate ClosedOutage(log: seq<O.Observation>, m: string, i: nat, j: nat, duration: int) {
    var history := O.OfRoute(log, m);
    O.Outage(history, i, j) && j < |history| && history[j].at - history[i].at == duration
  }

  /** A closed outage of the earlier log is one of the longer log too. */
  lemma OutageStays(log: seq<O.Observation>, m: string, i: nat, j: nat, duration: int)
    requires log != [] && ClosedOutage(log[..|log| - 1], m, i, j, duration)
    ensures ClosedOutage(log, m, i, j, duration)
  {
    if log[|log| - 1].route == m {
      var history := O.OfRoute(log, m);
      assert history[..|history| - 1] == O.OfRoute(log[..|log| - 1], m);
      O.OutageOfHead(history, i, j);
    }
  }

  /** The last change closes the market's open outage. */
  lemma LastCloses(log: seq<O.Observation>)
    requires log != [] && log[|log| - 1].available
    ensures var m, head := log[|log| - 1].route, log[..|log| - 1];
            Track(head, m).since.Some? ==>
              ClosedOutage(log, m, O.OpenStart(O.OfRoute(head, m)), |O.OfRoute(head, m)|,
                           log[|log| - 1].at - Track(head, m).since.value)
  {
    var m, head := log[|log| - 1].route, O.OfRoute(log[..|log| - 1], log[|log| - 1].route);
    var history := O.OfRoute(log, m);
    assert history[..|history| - 1] == head;
    O.TrackedKnows(head);
    O.OpenStartIsOutage(head);
    if O.OpenStart(head) < |head| { O.OutageOfHead(history, O.OpenStart(head), |head|); }
  }

  lemma {:induction false} WindowIsOutage(log: seq<O.Observation>, w: Window)
    requires w in Windows(log)
    ensures exists i: nat, j: nat :: ClosedOutage(log, w.market, i, j, w.duration)
  {
    var head := log[..|log| - 1];
    if w in Windows(head) {
      WindowIsOutage(head, w);
      var i: nat, j: nat :| ClosedOutage(head, w.market, i, j, w.duration);
      OutageStays(log, w.market, i, j, w.duration);
    } else {
      LastCloses(log);
    }
  }

  lemma {:induction false} OutageIsWindow(log: seq<O.Observation>, m: string, i: nat, j: nat, duration: int)
    requires ClosedOutage(log, m, i, j, duration)
    ensures Window(m, duration) in Windows(log)
  {
    var head, last := log[..|log| - 1], log[|log| - 1];
    var history := O.OfRoute(log, m);
    if last.route != m {
      OutageIsWindow(head, m, i, j, duration);
    } else {
      assert history[..|history| - 1] == O.OfRoute(head, m);
      O.OutageOfHead(history, i, j);
      if j < |history| - 1 {
        OutageIsWindow(head, m, i, j, duration);
      } else {
        O.OpenStartIsOutage(O.OfRoute(head, m));
        O.TrackedKnows(O.OfRoute(head, m));
      }
    }
  }

  lemma {:induction false} MaxIsMaximum(windows: seq<Window>)
    ensures MaxDuration(windows) >= 0
    ensures forall w :: w in windows ==> w.duration <= MaxDuration(windows)
    ensures MaxDuration(windows) > 0 ==> exists w :: w in windows && w.duration == MaxDuration(windows)
  {
    if windows != [] {
      var head, last := windows[..|windows| - 1], windows[|windows| - 1];
      MaxIsMaximum(head);
      assert windows == head + [last];
      assert last in windows;
    }
  }

  /** The reported windows are exactly the closed outages of the markets, each from its first quarantine. */
  lemma WindowsAreOutages(attempts: seq<Attempt>, w: Window)
    ensures w in TryAll(INITIAL, attempts).report.windows
       <==> exists i: nat, j: nat :: ClosedOutage(ControlLog(attempts), w.market, i, j, w.duration)
  {
    RunReflects(attempts);
    var log := ControlLog(attempts);
    if w in Windows(log) { WindowIsOutage(log, w); }
    if i: nat, j: nat :| ClosedOutage(log, w.market, i, j, w.duration) {
      OutageIsWindow(log, w.market, i, j, w.duration);
    }
  }

  /** The reported maximum bounds every closed outage of every market, and one of them attains it. */
  lemma LongestIsLongestOutage(attempts: seq<Attempt>)
    ensures var end, log := TryAll(INITIAL, attempts), ControlLog(attempts);
            && end.report.longest >= 0
            && (forall m, i: nat, j: nat, d :: ClosedOutage(log, m, i, j, d) ==> d <= end.report.longest)
            && (end.report.longest > 0 ==> exists m, i: nat, j: nat :: ClosedOutage(log, m, i, j, end.report.longest))
  {
    RunReflects(attempts);
    var end, log := TryAll(INITIAL, attempts), ControlLog(attempts);
    MaxIsMaximum(Windows(log));
    forall m, i: nat, j: nat, d | ClosedOutage(log, m, i, j, d)
      ensures d <= end.report.longest
    {
      OutageIsWindow(log, m, i, j, d);
      assert Window(m, d).duration == d;
    }
    if end.report.longest > 0 {
      var w :| w in Windows(log) && w.duration == end.report.longest;
      WindowIsOutage(log, w);
    }
  }

  // ---------- the verdict ----------

  /** How far one turn's connection advanced the cursor. */
  function Advance(s: State, a: Attempt): int {
    if Subscribed(a) then Follow(Opened(s), a.after, a.generation, a.frames).cursor - a.after else 0
  }

  function TotalAdvance(s: State, attempts: seq<Attempt>): int
    decreases |attempts|
  {
    if attempts == [] then 0 else Advance(s, attempts[0]) + TotalAdvance(TryOnce(s, attempts[0]), attempts[1..])
  }

  function Troubles(r: Report): nat {
    r.unapplied + r.gapFrames + r.discontinuities + r.resyncs
  }

  lemma {:induction false} FollowTroubles(s: State, cursor: int, generation: int, frames: seq<Timed>)
    ensures var end := Follow(s, cursor, generation, frames);
            && end.state.report.failures == s.report.failures
            && Troubles(end.state.report) <= Troubles(s.report) + if end.verdict.Rejected? then 1 else 0
    decreases |frames|
  {
    if frames != [] {
      var f := frames[0];
      var v := Judge(f.frame, cursor, generation);
      BookTroubles(s, f.frame, v, f.at);
      if v.Accepted? {
        FollowTroubles(Book(s, f.frame, v, f.at), NextCursor(f.frame, cursor), generation, frames[1..]);
      }
    }
  }

  lemma BookTroubles(s: State, f: Frame, v: Verdict, now: int)
    ensures Book(s, f, v, now).report.failures == s.report.failures
    ensures Troubles(Book(s, f, v, now).report) <= Troubles(s.report) + if v.Rejected? then 1 else 0
  {
  }

  /** One turn adds a failure for every connection that ends badly, and for nothing else. */
  lemma TryAccounts(s: State, a: Attempt)
    ensures var t := TryOnce(s, a);
            && s.report.failures <= t.report.failures <= s.report.failures + 1
            && Troubles(t.report) - Troubles(s.report) <= t.report.failures - s.report.failures
            && Accepts(s.report) + Advance(s, a) - 1 <= Accepts(t.report) <= Accepts(s.report) + Advance(s, a)
            && (t.report.failures == s.report.failures ==> Accepts(t.report) == Accepts(s.report) + Advance(s, a))
  {
    if Subscribed(a) {
      FollowTroubles(Opened(s), a.after, a.generation, a.frames);
      CursorCountsFrames(Opened(s), a.after, a.generation, a.frames);
    }
  }

  /** The cursors of all connections together advance by the counted frames, up to one frame per failure. */
  lemma {:induction false} AdvanceCountsFrames(s: State, attempts: seq<Attempt>)
    ensures var end := TryAll(s, attempts);
            && s.report.failures <= end.report.failures
            && Troubles(end.report) - Troubles(s.report) <= end.report.failures - s.report.failures
            && 0 <= TotalAdvance(s, attempts) - (Accepts(end.report) - Accepts(s.report))
                 <= end.report.failures - s.report.failures
    decreases |attempts|
  {
    if attempts != [] {
      TryAccounts(s, attempts[0]);
      AdvanceCountsFrames(TryOnce(s, attempts[0]), attempts[1..]);
    }
  }

  // ---------- jumps ----------

  /** The frame at which a connection ends, if it does not simply run out. */
  function LastFrame(cursor: int, generation: int, frames: seq<Timed>): Option<(Frame, int)>
    decreases |frames|
  {
    if frames == [] then None
    else
      var f := frames[0].frame;
      if Judge(f, cursor, generation).Accepted? then LastFrame(NextCursor(f, cursor), generation, frames[1..])
      else Some((f, cursor))
  }

  predicate JumpsAt(last: Option<(Frame, int)>) {
    last.Some? && Numbered(last.value.0) && last.value.0.cursor != last.value.1 + 1
  }

  /** The connection ends at a numbered frame whose number does not follow. */
  predicate EndsAtJump(a: Attempt) {
    Subscribed(a) && JumpsAt(LastFrame(a.after, a.generation, a.frames))
  }

  predicate EndsAtControlJump(a: Attempt) {
    EndsAtJump(a) && LastFrame(a.after, a.generation, a.frames).value.0.Control?
  }

  function Jumps(attempts: seq<Attempt>): nat {
    if attempts == [] then 0 else (if EndsAtJump(attempts[0]) then 1 else 0) + Jumps(attempts[1..])
  }

  ghost predicate FlagsFollow(s: Report, r: Report, jumped: bool, control: bool) {
    && r.discontinuities == s.discontinuities + (if jumped then 1 else 0)
    && r.continuous == (s.continuous && !control)
    && r.events - r.fullBooks - r.atomicDeltas == s.events - s.fullBooks - s.atomicDeltas
  }

  lemma {:induction false} FollowFlags(s: State, cursor: int, generation: int, frames: seq<Timed>)
    ensures var last := LastFrame(cursor, generation, frames);
            FlagsFollow(s.report, Follow(s, cursor, generation, frames).state.report,
                        JumpsAt(last), JumpsAt(last) && last.value.0.Control?)
    decreases |frames|
  {
    if frames != [] {
      var f := frames[0];
      var v := Judge(f.frame, cursor, generation);
      if v.Accepted? {
        FollowFlags(Book(s, f.frame, v, f.at), NextCursor(f.frame, cursor), generation, frames[1..]);
      }
    }
  }

  lemma {:induction false} AllFlags(s: State, attempts: seq<Attempt>)
    ensures var r := TryAll(s, attempts).report;
            && r.discontinuities == s.report.discontinuities + Jumps(attempts)
            && r.continuous == (s.report.continuous && forall a :: a in attempts ==> !EndsAtControlJump(a))
            && r.events - r.fullBooks - r.atomicDeltas == s.report.events - s.report.fullBooks - s.report.atomicDeltas
    decreases |attempts|
  {
    if attempts != [] {
      var a := attempts[0];
      if Subscribed(a) { FollowFlags(Opened(s), a.after, a.generation, a.frames); }
      assert FlagsFollow(s.report, TryOnce(s, a).report, EndsAtJump(a), EndsAtControlJump(a));
      AllFlags(TryOnce(s, a), attempts[1..]);
      assert forall b :: b in attempts <==> b == a || b in attempts[1..];
    }
  }

  /**
    Every connection that ends at a frame out of sequence is counted, at whatever frame, but the continuity flag
    is cleared exactly by those at a control frame; and the event kinds add up.
   */
  lemma FlagMeansControlJump(attempts: seq<Attempt>)
    ensures var r := TryAll(INITIAL, attempts).report;
            && r.discontinuities == Jumps(attempts)
            && (r.continuous <==> forall a :: a in attempts ==> !EndsAtControlJump(a))
            && r.events == r.fullBooks + r.atomicDeltas
  {
    AllFlags(INITIAL, attempts);
  }
}
