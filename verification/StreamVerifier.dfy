/**
  The stream verifier: it follows the market stream over many connections, checks that cursors are
  consecutive, and measures how long single markets stay quarantined
  (scripts/verify_polymarket_stream_recovery_stability.py). Frames are already parsed.
 */
module StreamVerifier {
  import opened Wrappers

  datatype EventKind = FullBook | AtomicDelta | OtherEvent
  datatype ControlKind = Quarantined | RecoveryStarted | Recovered | Replaced

  /**
    A frame of the stream. A control frame is complete when every required field is present; Dropped stands for
    a lost connection.
   */
  datatype Frame =
    | Event(cursor: int, applied: bool, gapped: bool, event: EventKind)
    | Control(cursor: int, control: ControlKind, market: string, complete: bool, globalCursor: int, fullSync: bool)
    | UniverseChanged(oldGeneration: int, newGeneration: int, changed: bool, fullSyncRequired: bool)
    | GlobalResync
    | Unsupported
    | Dropped

  datatype Timed = Timed(frame: Frame, at: int)

  datatype Gate =
    | Discontinuity | Unapplied | Gapped | UnknownEvent | BadControl | BadUniverse | Resync | BadFrame | Lost

  /** What a frame does to the connection: it goes on, is left for a new generation, or fails. */
  datatype Verdict = Accepted | Left | Rejected(gate: Gate)

  datatype Window = Window(market: string, duration: int)

  datatype Report = Report(
    events: nat, fullBooks: nat, atomicDeltas: nat,
    quarantined: nat, started: nat, recovered: nat, replaced: nat,
    windows: seq<Window>, longest: int,
    continuous: bool, discontinuities: nat, unapplied: nat, gapFrames: nat, resyncs: nat,
    changes: nat, connections: nat, failures: nat)

  datatype State = State(report: Report, since: map<string, int>)

  const INITIAL: State :=
    State(Report(0, 0, 0, 0, 0, 0, 0, [], 0, true, 0, 0, 0, 0, 0, 0, 0), map[])

  /** One turn of the outer loop: the boundary could not be read, or a connection was made from it. */
  datatype Attempt =
    | Unreadable
    | Connected(after: int, generation: int, subscription: Option<int>, frames: seq<Timed>)

  // ---------- what the program decides ----------

  function Judge(f: Frame, cursor: int, generation: int): Verdict {
    match f
    case Event(c, applied, gapped, kind) =>
      if c != cursor + 1 then Rejected(Discontinuity)
      else if !applied then Rejected(Unapplied)
      else if gapped then Rejected(Gapped)
      else if kind.OtherEvent? then Rejected(UnknownEvent)
      else Accepted
    case Control(c, _, market, complete, global, fullSync) =>
      if c != cursor + 1 then Rejected(Discontinuity)
      else if market == "" || !complete || global != c || fullSync then Rejected(BadControl)
      else Accepted
    case UniverseChanged(old', new', changed, fullSync) =>
      if old' != generation || new' != generation + 1 || !changed || !fullSync then Rejected(BadUniverse) else Left
    case GlobalResync => Rejected(Resync)
    case Unsupported => Rejected(BadFrame)
    case Dropped => Rejected(Lost)
  }

  predicate Numbered(f: Frame) {
    f.Event? || f.Control?
  }

  /** The cursor moves as soon as the number fits, before the rest of the frame is checked. */
  function NextCursor(f: Frame, cursor: int): int {
    if Numbered(f) && f.cursor == cursor + 1 then cursor + 1 else cursor
  }

  function CloseWindow(s: State, market: string, now: int): State {
    if market !in s.since then s
    else
      var elapsed := now - s.since[market];
      State(s.report.(windows := s.report.windows + [Window(market, elapsed)],
                      longest := if elapsed > s.report.longest then elapsed else s.report.longest),
            s.since - {market})
  }

  function CountControl(r: Report, kind: ControlKind): Report {
    match kind
    case Quarantined => r.(quarantined := r.quarantined + 1)
    case RecoveryStarted => r.(started := r.started + 1)
    case Recovered => r.(recovered := r.recovered + 1)
    case Replaced => r.(replaced := r.replaced + 1)
  }

  function AcceptControl(s: State, kind: ControlKind, market: string, now: int): State {
    var counted := s.(report := CountControl(s.report, kind));
    match kind
    case Quarantined => if market in s.since then counted else counted.(since := s.since[market := now])
    case RecoveryStarted => counted
    case _ => CloseWindow(counted, market, now)
  }

  function AcceptEvent(r: Report, kind: EventKind): Report {
    match kind
    case FullBook => r.(events := r.events + 1, fullBooks := r.fullBooks + 1)
    case AtomicDelta => r.(events := r.events + 1, atomicDeltas := r.atomicDeltas + 1)
    case OtherEvent => r
  }

  function RejectReport(r: Report, f: Frame, gate: Gate): Report {
    match gate
    case Discontinuity =>
      r.(discontinuities := r.discontinuities + 1, continuous := if f.Control? then false else r.continuous)
    case Unapplied => r.(unapplied := r.unapplied + 1)
    case Gapped => r.(gapFrames := r.gapFrames + 1)
    case Resync => r.(resyncs := r.resyncs + 1)
    case _ => r
  }

  function Book(s: State, f: Frame, verdict: Verdict, now: int): State {
    match verdict
    case Rejected(gate) => s.(report := RejectReport(s.report, f, gate))
    case Left => s.(report := s.report.(changes := s.report.changes + 1))
    case Accepted =>
      match f
      case Event(_, _, _, kind) => s.(report := AcceptEvent(s.report, kind))
      case Control(_, kind, market, _, _, _) => AcceptControl(s, kind, market, now)
      case _ => s
  }

  datatype Ended = Ended(state: State, cursor: int, verdict: Verdict)

  function Follow(s: State, cursor: int, generation: int, frames: seq<Timed>): Ended
    decreases |frames|
  {
    if frames == [] then Ended(s, cursor, Accepted)
    else
      var f := frames[0];
      var verdict := Judge(f.frame, cursor, generation);
      var after := Book(s, f.frame, verdict, f.at);
      var next := NextCursor(f.frame, cursor);
      if verdict.Accepted? then Follow(after, next, generation, frames[1..]) else Ended(after, next, verdict)
  }

  function Fail(s: State): State {
    s.(report := s.report.(failures := s.report.failures + 1))
  }

  function Opened(s: State): State {
    s.(report := s.report.(connections := s.report.connections + 1))
  }

  predicate Subscribed(a: Attempt) {
    a.Connected? && a.subscription.Some? && a.subscription.value >= a.after
  }

  function TryOnce(s: State, a: Attempt): State {
    if a.Unreadable? then Fail(s)
    else if !Subscribed(a) then Fail(Opened(s))
    else
      var end := Follow(Opened(s), a.after, a.generation, a.frames);
      if end.verdict.Rejected? then Fail(end.state) else end.state
  }

  function TryAll(s: State, attempts: seq<Attempt>): State
    decreases |attempts|
  {
    if attempts == [] then s else TryAll(TryOnce(s, attempts[0]), attempts[1..])
  }

  // ---------- the program ----------

  class Verifier {
    var report: Report
    var quarantinedSince: map<string, int>

    ghost function View(): State
      reads this
    {
      State(report, quarantinedSince)
    }

    constructor ()
      ensures View() == INITIAL
    {
      report, quarantinedSince := INITIAL.report, map[];
    }

    /** Handles an event frame; a rejection stands for the exception raised. */
    method HandleEvent(f: Frame, cursor: int, ghost generation: int, ghost now: int)
      returns (next: int, verdict: Verdict)
      requires f.Event?
      modifies this
      ensures next == NextCursor(f, cursor) && verdict == Judge(f, cursor, generation)
      ensures View() == Book(old(View()), f, Judge(f, cursor, generation), now)
    {
      if f.cursor != cursor + 1 {
        report := report.(discontinuities := report.discontinuities + 1);
        return cursor, Rejected(Discontinuity);
      }
      next := f.cursor;
      if !f.applied {
        report := report.(unapplied := report.unapplied + 1);
        return next, Rejected(Unapplied);
      }
      if f.gapped {
        report := report.(gapFrames := report.gapFrames + 1);
        return next, Rejected(Gapped);
      }
      if f.event.OtherEvent? {
        return next, Rejected(UnknownEvent);
      }
      if f.event.FullBook? {
        report := report.(fullBooks := report.fullBooks + 1);
      } else {
        report := report.(atomicDeltas := report.atomicDeltas + 1);
      }
      report := report.(events := report.events + 1);
      verdict := Accepted;
    }

    method HandleControl(f: Frame, cursor: int, ghost generation: int, now: int) returns (next: int, verdict: Verdict)
      requires f.Control?
      modifies this
      ensures next == NextCursor(f, cursor) && verdict == Judge(f, cursor, generation)
      ensures View() == Book(old(View()), f, Judge(f, cursor, generation), now)
    {
      if f.cursor != cursor + 1 {
        report := report.(discontinuities := report.discontinuities + 1);
        report := report.(continuous := false);
        return cursor, Rejected(Discontinuity);
      }
      next := f.cursor;
      if f.market == "" || !f.complete || f.globalCursor != f.cursor || f.fullSync {
        return next, Rejected(BadControl);
      }
      verdict := Accepted;
      report := CountControl(report, f.control);
      if f.control.Quarantined? {
        if f.market !in quarantinedSince {
          quarantinedSince := quarantinedSince[f.market := now];
        }
      } else if f.control.Recovered? || f.control.Replaced? {
        if f.market in quarantinedSince {
          var elapsed := now - quarantinedSince[f.market];
          quarantinedSince := quarantinedSince - {f.market};
          report := report.(windows := report.windows + [Window(f.market, elapsed)]);
          if elapsed > report.longest {
            report := report.(longest := elapsed);
          }
        }
      }
    }

    method HandleFrame(f: Frame, cursor: int, generation: int, now: int) returns (next: int, verdict: Verdict)
      modifies this
      ensures verdict == Judge(f, cursor, generation) && next == NextCursor(f, cursor)
      ensures View() == Book(old(View()), f, Judge(f, cursor, generation), now)
    {
      next := cursor;
      match f
      case Event(_, _, _, _) =>
        next, verdict := HandleEvent(f, cursor, generation, now);
      case Control(_, _, _, _, _, _) =>
        next, verdict := HandleControl(f, cursor, generation, now);
      case UniverseChanged(old', new', changed, fullSync) =>
        if old' != generation || new' != generation + 1 || !changed || !fullSync {
          verdict := Rejected(BadUniverse);
        } else {
          report := report.(changes := report.changes + 1);
          verdict := Left;
        }
      case GlobalResync =>
        report := report.(resyncs := report.resyncs + 1);
        verdict := Rejected(Resync);
      case Unsupported =>
        verdict := Rejected(BadFrame);
      case Dropped =>
        verdict := Rejected(Lost);
    }

    method Read(after: int, generation: int, frames: seq<Timed>) returns (cursor: int, failed: bool)
      modifies this
      ensures var end := Follow(old(View()), after, generation, frames);
              View() == end.state && cursor == end.cursor && failed == end.verdict.Rejected?
    {
      cursor, failed := after, false;
      var k := 0;
      while k < |frames|
        invariant 0 <= k <= |frames| && !failed
        invariant Follow(View(), cursor, generation, frames[k..]) == Follow(old(View()), after, generation, frames)
      {
        assert frames[k..][1..] == frames[k + 1..];
        var verdict;
        cursor, verdict := HandleFrame(frames[k].frame, cursor, generation, frames[k].at);
        if !verdict.Accepted? {
          failed := !verdict.Left?;
          return;
        }
        k := k + 1;
      }
    }

    method Observe(attempts: seq<Attempt>)
      modifies this
      ensures View() == TryAll(old(View()), attempts)
    {
      var k := 0;
      while k < |attempts|
        invariant 0 <= k <= |attempts|
        invariant TryAll(View(), attempts[k..]) == TryAll(old(View()), attempts)
      {
        assert attempts[k..][1..] == attempts[k + 1..];
        Try(attempts[k]);
        k := k + 1;
      }
    }

    method Try(a: Attempt)
      modifies this
      ensures View() == TryOnce(old(View()), a)
    {
      var failed := true;
      if a.Connected? {
        report := report.(connections := report.connections + 1);
        if a.subscription.Some? && a.subscription.value >= a.after {
          var cursor;
          cursor, failed := Read(a.after, a.generation, a.frames);
        }
      }
      if failed {
        report := report.(failures := report.failures + 1);
      }
    }
  }
}
