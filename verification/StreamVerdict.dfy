/** What the stream's part of the final verdict amounts to. */
module StreamVerdict {
  import opened Wrappers
  import opened StreamVerifier
  import opened StreamSafety

  ghost predicate Clean(r: Report) {
    r.unapplied == 0 && r.gapFrames == 0 && r.discontinuities == 0 && r.resyncs == 0
  }

  lemma CleanWithoutFailure(start: State, attempts: seq<Attempt>)
    requires start == INITIAL && TryAll(start, attempts).report.failures == 0
    ensures Clean(TryAll(start, attempts).report)
    ensures TotalAdvance(start, attempts) == Accepts(TryAll(start, attempts).report)
  {
    AdvanceCountsFrames(start, attempts);
  }

  /** A run without failures: the four counters of refused frames are zero, and every number taken was counted. */
  lemma NoFailureMeansCleanStream(attempts: seq<Attempt>)
    requires TryAll(INITIAL, attempts).report.failures == 0
    ensures Clean(TryAll(INITIAL, attempts).report)
    ensures TotalAdvance(INITIAL, attempts) == Accepts(TryAll(INITIAL, attempts).report)
  {
    CleanWithoutFailure(INITIAL, attempts);
  }

  /** The stream's part of the final verdict. */
  ghost predicate StreamGates(r: Report) {
    r.failures == 0 && r.events > 0 && Clean(r)
  }

  lemma GatesAreTwoFrom(start: State, attempts: seq<Attempt>)
    requires start == INITIAL
    ensures var r := TryAll(start, attempts).report; StreamGates(r) <==> r.failures == 0 && r.events > 0
  {
    if TryAll(start, attempts).report.failures == 0 { CleanWithoutFailure(start, attempts); }
  }

  /** Of the six stream gates two decide: no failure, and at least one event. */
  lemma StreamGatesAreTwo(attempts: seq<Attempt>)
    ensures var r := TryAll(INITIAL, attempts).report; StreamGates(r) <==> r.failures == 0 && r.events > 0
  {
    GatesAreTwoFrom(INITIAL, attempts);
  }
}
