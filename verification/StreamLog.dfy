/** The changes of single markets that the stream verifier measures, frame by frame. */
module StreamLog {
  import opened Wrappers
  import opened StreamVerifier
  import opened StreamSafety
  import opened StreamAcceptance
  import O = Outages

  /** What a well-formed frame says about a market: a quarantine, or the end of one. */
  function ChangeOf(f: Timed): seq<O.Observation> {
    if f.frame.Control? && f.frame.control != RecoveryStarted
    then [O.Observation(f.frame.market, f.frame.control != Quarantined, f.at)]
    else []
  }

  function Changes(frames: seq<Timed>): seq<O.Observation> {
    if frames == [] then [] else ChangeOf(frames[0]) + Changes(frames[1..])
  }

  lemma Associates(log: seq<O.Observation>, here: seq<O.Observation>, rest: seq<O.Observation>)
    ensures (log + here) + rest == log + (here + rest)
  {
  }

  lemma ChangesCons(f: Timed, rest: seq<Timed>)
    ensures Changes([f] + rest) == ChangeOf(f) + Changes(rest)
  {
    assert ([f] + rest)[1..] == rest;
  }

  lemma {:induction false} ChangesAppend(xs: seq<Timed>, ys: seq<Timed>)
    ensures Changes(xs + ys) == Changes(xs) + Changes(ys)
  {
    if xs == [] {
      assert xs + ys == ys && Changes(xs) == [];
    } else {
      ChangesAppendStep(xs[0], xs[1..], ys, xs);
    }
  }

  lemma {:induction false} ChangesAppendStep(f: Timed, tail: seq<Timed>, ys: seq<Timed>, xs: seq<Timed>)
    requires xs == [f] + tail
    ensures Changes(xs + ys) == Changes(xs) + Changes(ys)
    decreases |tail|
  {
    if tail == [] {
      assert tail + ys == ys && Changes(tail) == [];
    } else {
      assert tail == [tail[0]] + tail[1..];
      ChangesAppendStep(tail[0], tail[1..], ys, tail);
    }
    ChangesCons(f, tail);
    ChangesCons(f, tail + ys);
    assert xs + ys == [f] + (tail + ys);
    Associates(ChangeOf(f), Changes(tail), Changes(ys));
  }

  lemma AcceptedAnnounces(f: Timed, v: Verdict)
    requires v.Accepted?
    ensures Announced(f.frame, v, f.at) == ChangeOf(f)
  {
  }

  lemma {:induction false} FrameLogIsChanges(log: seq<O.Observation>, cursor: int, generation: int, frames: seq<Timed>)
    ensures FrameLog(log, cursor, generation, frames) == log + Changes(frames[..GoodPrefix(frames, cursor + 1)])
    decreases |frames|, 1
  {
    if frames == [] {
      assert frames[..0] == [] && log + [] == log;
    } else {
      FrameAccepted(frames[0].frame, cursor, generation);
      if GoodFrame(frames[0].frame, cursor + 1) {
        AcceptedFrameLog(log, cursor, generation, frames[0], frames[1..], frames, log + ChangeOf(frames[0]));
      } else {
        RefusedFrameLog(log, cursor, generation, frames);
      }
    }
  }

  lemma RefusedFrameLog(log: seq<O.Observation>, cursor: int, generation: int, frames: seq<Timed>)
    requires frames != [] && !Judge(frames[0].frame, cursor, generation).Accepted?
    requires !GoodFrame(frames[0].frame, cursor + 1)
    ensures FrameLog(log, cursor, generation, frames) == log + Changes(frames[..GoodPrefix(frames, cursor + 1)])
  {
    assert frames[..0] == [] && log + [] == log;
  }

  lemma {:induction false} AcceptedFrameLog(log: seq<O.Observation>, cursor: int, generation: int, f: Timed,
                                            tail: seq<Timed>, frames: seq<Timed>, next: seq<O.Observation>)
    requires frames == [f] + tail && GoodFrame(f.frame, cursor + 1) && next == log + ChangeOf(f)
    requires Judge(f.frame, cursor, generation).Accepted? && NextCursor(f.frame, cursor) == cursor + 1
    ensures FrameLog(log, cursor, generation, frames) == log + Changes(frames[..GoodPrefix(frames, cursor + 1)])
    decreases |frames|, 0
  {
    var taken := tail[..GoodPrefix(tail, cursor + 2)];
    assert frames[1..] == tail;
    AcceptedAnnounces(f, Judge(f.frame, cursor, generation));
    PrefixCons(frames, cursor + 1);
    FrameLogIsChanges(next, cursor + 1, generation, tail);
    ChangesCons(f, taken);
    Associates(log, ChangeOf(f), Changes(taken));
  }

  lemma {:induction false} LogIsChanges(log: seq<O.Observation>, attempts: seq<Attempt>)
    ensures LogAll(log, attempts) == log + Changes(AllTaken(attempts))
    decreases |attempts|
  {
    if attempts == [] {
      assert AllTaken(attempts) == [] && log + [] == log;
    } else {
      var a, tail := attempts[0], attempts[1..];
      AttemptLogIsChanges(log, a);
      LogIsChanges(AttemptLog(log, a), tail);
      ChangesAppend(Taken(a), AllTaken(tail));
      Associates(log, Changes(Taken(a)), Changes(AllTaken(tail)));
    }
  }

  lemma NoAttemptLog(log: seq<O.Observation>, a: Attempt)
    requires !Subscribed(a)
    ensures AttemptLog(log, a) == log + Changes(Taken(a))
  {
    assert Changes(Taken(a)) == [] && log + [] == log;
  }

  lemma AttemptLogIsChanges(log: seq<O.Observation>, a: Attempt)
    ensures AttemptLog(log, a) == log + Changes(Taken(a))
  {
    if Subscribed(a) {
      var frames, taken := a.frames, Taken(a);
      assert taken == frames[..GoodPrefix(frames, a.after + 1)];
      FrameLogIsChanges(log, a.after, a.generation, frames);
      assert AttemptLog(log, a) == FrameLog(log, a.after, a.generation, frames) == log + Changes(taken);
    } else {
      NoAttemptLog(log, a);
    }
  }

  /** The log whose outages the verifier measures consists of the well-formed control frames, in order. */
  lemma ControlLogIsChanges(attempts: seq<Attempt>)
    ensures ControlLog(attempts) == Changes(AllTaken(attempts))
  {
    LogIsChanges([], attempts);
  }
}
