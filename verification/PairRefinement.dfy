/**
  The matcher refines a simple specification: one delta for each identity seen on both lanes, from its two first
  arrivals, exactly as long as the history fits the limits.
 */
module PairRefinement {
  import opened Wrappers
  import opened PairMatcher

  /** The first arrival of an identity on a lane. */
  function First<Id(==)>(events: seq<Arrival<Id>>, id: Id, lane: Lane): Option<int> {
    if events == [] then None
    else
      var earlier, last := First(events[..|events| - 1], id, lane), events[|events| - 1];
      if earlier.Some? then earlier else if last.id == id && last.lane == lane then Some(last.at) else None
  }

  /** The last event is the first of its identity on its lane, and the other lane had it before. */
  predicate Completes<Id(==)>(events: seq<Arrival<Id>>)
    requires events != []
  {
    var prefix, last := events[..|events| - 1], events[|events| - 1];
    First(prefix, last.id, last.lane).None? && First(prefix, last.id, Other(last.lane)).Some?
  }

  /** One delta for each identity seen on both lanes, in completion order: first public minus first LAN arrival. */
  function Expected<Id(==)>(events: seq<Arrival<Id>>): seq<int> {
    if events == [] then []
    else
      var rest, id := Expected(events[..|events| - 1]), events[|events| - 1].id;
      if Completes(events) then
        rest + [First(events, id, Public).value - First(events, id, Lan).value]
      else rest
  }

  /** No add raised and nothing was evicted. */
  ghost predicate Lossless<Id(!new)>(h: History<Id>) {
    h.lanRaised == 0 && h.publicRaised == 0 && h.st.lan.evicted == 0 && h.st.public.evicted == 0
  }

  ghost predicate SeenOn<Id(!new)>(events: seq<Arrival<Id>>, id: Id, lane: Lane) {
    First(events, id, lane).Some?
  }

  ghost predicate SeenIsBoth<Id(!new)>(st: State<Id>, events: seq<Arrival<Id>>) {
    forall id :: id in st.seen <==> SeenOn(events, id, Lan) && SeenOn(events, id, Public)
  }

  ghost predicate EntriesAreFirst<Id(!new)>(st: State<Id>, events: seq<Arrival<Id>>) {
    forall k :: 0 <= k < |st.pending| ==>
      var p := st.pending[k];
      First(events, p.id, p.lane) == Some(p.at) && !SeenOn(events, p.id, Other(p.lane))
  }

  ghost predicate PendingIsOne<Id(!new)>(st: State<Id>, events: seq<Arrival<Id>>) {
    forall id :: Holds(st.pending, id) <==> (SeenOn(events, id, Lan) != SeenOn(events, id, Public))
  }

  /** The tables say of each identity exactly on which lanes it has been seen, and when first. */
  ghost predicate Mirrors<Id(!new)>(st: State<Id>, events: seq<Arrival<Id>>) {
    SeenIsBoth(st, events) && EntriesAreFirst(st, events) && PendingIsOne(st, events)
  }

  lemma FirstOfLonger<Id(!new)>(events: seq<Arrival<Id>>, a: Arrival<Id>, id: Id, lane: Lane)
    ensures First(events + [a], id, lane) ==
            if First(events, id, lane).Some? then First(events, id, lane)
            else if a.id == id && a.lane == lane then Some(a.at) else None
  {
    assert (events + [a])[..|events|] == events;
  }

  /** The add neither raises nor evicts. */
  ghost predicate StepFits<Id(!new)>(st: State<Id>, a: Arrival<Id>, limits: Limits) {
    a.id !in st.seen ==>
      if !Holds(st.pending, a.id) then |st.pending| < limits.pending
      else st.pending[IndexOf(st.pending, a.id)].lane != a.lane ==> |st.deltas| < limits.pairs
  }

  /** The effect of one more arrival on what has been seen. */
  lemma SeenOfLonger<Id(!new)>(events: seq<Arrival<Id>>, a: Arrival<Id>)
    ensures forall id, lane :: SeenOn(events + [a], id, lane) <==>
        SeenOn(events, id, lane) || (a.id == id && a.lane == lane)
    ensures forall id, lane :: SeenOn(events, id, lane) ==> First(events + [a], id, lane) == First(events, id, lane)
    ensures !SeenOn(events, a.id, a.lane) ==> First(events + [a], a.id, a.lane) == Some(a.at)
    ensures Completes(events + [a]) <==> !SeenOn(events, a.id, a.lane) && SeenOn(events, a.id, Other(a.lane))
  {
    assert (events + [a])[..|events|] == events;
    forall id, lane
      ensures SeenOn(events + [a], id, lane) <==> SeenOn(events, id, lane) || (a.id == id && a.lane == lane)
      ensures SeenOn(events, id, lane) ==> First(events + [a], id, lane) == First(events, id, lane)
    {
      FirstOfLonger(events, a, id, lane);
    }
    FirstOfLonger(events, a, a.id, a.lane);
  }

  lemma HoldsAppended<Id(!new)>(pending: seq<Arrival<Id>>, a: Arrival<Id>, id: Id)
    ensures Holds(pending + [a], id) <==> Holds(pending, id) || id == a.id
  {
    var longer := pending + [a];
    assert longer[|pending|] == a;
    if Holds(pending, id) {
      var k :| 0 <= k < |pending| && pending[k].id == id;
      assert longer[k].id == id;
    }
  }

  lemma HoldsWithout<Id(!new)>(pending: seq<Arrival<Id>>, k: nat, id: Id)
    requires k < |pending| && DistinctIds(pending)
    ensures Holds(pending[..k] + pending[k + 1..], id) <==> Holds(pending, id) && id != pending[k].id
  {
    var shorter := pending[..k] + pending[k + 1..];
    if Holds(pending, id) && id != pending[k].id {
      var j :| 0 <= j < |pending| && pending[j].id == id;
      assert shorter[if j < k then j else j - 1].id == id;
    }
    if Holds(shorter, id) {
      var j :| 0 <= j < |shorter| && shorter[j].id == id;
      assert pending[if j < k then j else j + 1].id == id;
    }
  }

  lemma NewArrivalMirrors<Id(!new)>(st: State<Id>, events: seq<Arrival<Id>>, a: Arrival<Id>, next: State<Id>)
    requires Mirrors(st, events) && a.id !in st.seen && !Holds(st.pending, a.id)
    requires next.seen == st.seen && next.pending == st.pending + [a]
    ensures Mirrors(next, events + [a]) && !Completes(events + [a])
  {
    SeenOfLonger(events, a);
    assert !SeenOn(events, a.id, Lan) && !SeenOn(events, a.id, Public);
    assert EntriesAreFirst(next, events + [a]) by {
      forall k | 0 <= k < |st.pending| ensures st.pending[k].id != a.id { assert Holds(st.pending, st.pending[k].id); }
    }
    forall id ensures Holds(next.pending, id) <==> (SeenOn(events + [a], id, Lan) != SeenOn(events + [a], id, Public)) {
      HoldsAppended(st.pending, a, id);
    }
  }

  lemma PairMirrors<Id(!new)>(st: State<Id>, events: seq<Arrival<Id>>, a: Arrival<Id>, next: State<Id>, k: nat)
    requires Mirrors(st, events) && DistinctIds(st.pending) && a.id !in st.seen
    requires k < |st.pending| && st.pending[k].id == a.id && st.pending[k].lane != a.lane
    requires next.seen == st.seen + {a.id} && next.pending == st.pending[..k] + st.pending[k + 1..]
    ensures Mirrors(next, events + [a]) && Completes(events + [a])
    ensures PublicMinusLan(a, st.pending[k]) ==
        First(events + [a], a.id, Public).value - First(events + [a], a.id, Lan).value
  {
    SeenOfLonger(events, a);
    assert First(events, a.id, st.pending[k].lane) == Some(st.pending[k].at) && !SeenOn(events, a.id, a.lane);
    assert EntriesAreFirst(next, events + [a]) by {
      forall j | 0 <= j < |next.pending|
        ensures next.pending[j].id != a.id && next.pending[j] == st.pending[if j < k then j else j + 1]
      {
      }
    }
    forall id ensures Holds(next.pending, id) <==> (SeenOn(events + [a], id, Lan) != SeenOn(events + [a], id, Public)) {
      HoldsWithout(st.pending, k, id);
    }
  }

  lemma RepeatMirrors<Id(!new)>(st: State<Id>, events: seq<Arrival<Id>>, a: Arrival<Id>, next: State<Id>)
    requires Mirrors(st, events) && SeenOn(events, a.id, a.lane)
    requires next.seen == st.seen && next.pending == st.pending
    ensures Mirrors(next, events + [a]) && !Completes(events + [a])
  {
    SeenOfLonger(events, a);
    forall id, lane ensures First(events + [a], id, lane) == First(events, id, lane) {
      FirstOfLonger(events, a, id, lane);
    }
  }

  // ----- what an add does to the tables -----

  lemma AddRepeats<Id(!new)>(st: State<Id>, a: Arrival<Id>, limits: Limits)
    requires a.id in st.seen || (Holds(st.pending, a.id) && st.pending[IndexOf(st.pending, a.id)].lane == a.lane)
    ensures var next := Add(st, a, limits).0;
            next.seen == st.seen && next.pending == st.pending && next.deltas == st.deltas
  {
  }

  lemma AddAppends<Id(!new)>(st: State<Id>, a: Arrival<Id>, limits: Limits)
    requires a.id !in st.seen && !Holds(st.pending, a.id) && |st.pending| < limits.pending
    ensures var next := Add(st, a, limits).0;
            next.seen == st.seen && next.pending == st.pending + [a] && next.deltas == st.deltas
  {
  }

  lemma AddPairs<Id(!new)>(st: State<Id>, a: Arrival<Id>, limits: Limits, k: nat)
    requires a.id !in st.seen && Holds(st.pending, a.id) && k == IndexOf(st.pending, a.id)
    requires st.pending[k].lane != a.lane && |st.deltas| < limits.pairs
    ensures var next := Add(st, a, limits).0;
            && next.seen == st.seen + {a.id} && next.pending == st.pending[..k] + st.pending[k + 1..]
            && next.deltas == st.deltas + [PublicMinusLan(a, st.pending[k])]
  {
  }

  // ----- one step -----

  /** The delta that the last event adds to the expected ones, if it completes a pair. */
  ghost function Completion<Id(!new)>(events: seq<Arrival<Id>>): seq<int>
    requires events != []
  {
    var id := events[|events| - 1].id;
    if Completes(events) then [First(events, id, Public).value - First(events, id, Lan).value] else []
  }

  ghost predicate Advances<Id(!new)>(st: State<Id>, events: seq<Arrival<Id>>, a: Arrival<Id>, next: State<Id>) {
    Mirrors(next, events + [a]) && next.deltas == st.deltas + Completion(events + [a])
  }

  lemma RepeatRefines<Id(!new)>(st: State<Id>, events: seq<Arrival<Id>>, a: Arrival<Id>, limits: Limits)
    requires Mirrors(st, events) && SeenOn(events, a.id, a.lane)
    requires a.id in st.seen || (Holds(st.pending, a.id) && st.pending[IndexOf(st.pending, a.id)].lane == a.lane)
    ensures Advances(st, events, a, Add(st, a, limits).0)
  {
    AddRepeats(st, a, limits);
    RepeatMirrors(st, events, a, Add(st, a, limits).0);
  }

  lemma AppendRefines<Id(!new)>(st: State<Id>, events: seq<Arrival<Id>>, a: Arrival<Id>, limits: Limits)
    requires Mirrors(st, events) && a.id !in st.seen && !Holds(st.pending, a.id) && |st.pending| < limits.pending
    ensures Advances(st, events, a, Add(st, a, limits).0)
  {
    AddAppends(st, a, limits);
    NewArrivalMirrors(st, events, a, Add(st, a, limits).0);
  }

  lemma PairRefines<Id(!new)>(st: State<Id>, events: seq<Arrival<Id>>, a: Arrival<Id>, limits: Limits, k: nat)
    requires Mirrors(st, events) && DistinctIds(st.pending) && a.id !in st.seen
    requires Holds(st.pending, a.id) && k == IndexOf(st.pending, a.id)
    requires st.pending[k].lane != a.lane && |st.deltas| < limits.pairs
    ensures Advances(st, events, a, Add(st, a, limits).0)
  {
    AddPairs(st, a, limits, k);
    PairMirrors(st, events, a, Add(st, a, limits).0, k);
  }

  lemma SeenWhenRepeated<Id(!new)>(st: State<Id>, events: seq<Arrival<Id>>, a: Arrival<Id>)
    requires Mirrors(st, events)
    requires a.id in st.seen || (Holds(st.pending, a.id) && st.pending[IndexOf(st.pending, a.id)].lane == a.lane)
    ensures SeenOn(events, a.id, a.lane)
  {
  }

  lemma StepRefines<Id(!new)>(st: State<Id>, events: seq<Arrival<Id>>, a: Arrival<Id>, limits: Limits)
    requires Mirrors(st, events) && DistinctIds(st.pending) && StepFits(st, a, limits)
    ensures Advances(st, events, a, Add(st, a, limits).0)
  {
    if a.id in st.seen || (Holds(st.pending, a.id) && st.pending[IndexOf(st.pending, a.id)].lane == a.lane) {
      SeenWhenRepeated(st, events, a);
      RepeatRefines(st, events, a, limits);
    } else if !Holds(st.pending, a.id) {
      AppendRefines(st, events, a, limits);
    } else {
      PairRefines(st, events, a, limits, IndexOf(st.pending, a.id));
    }
  }

  ghost predicate Refines<Id(!new)>(st: State<Id>, events: seq<Arrival<Id>>) {
    Mirrors(st, events) && st.deltas == Expected(events)
  }

  lemma ExpectedOfLonger<Id(!new)>(events: seq<Arrival<Id>>, a: Arrival<Id>)
    ensures Expected(events + [a]) == Expected(events) + Completion(events + [a])
  {
    assert (events + [a])[..|events|] == events;
  }

  lemma StepKeepsRefines<Id(!new)>(st: State<Id>, events: seq<Arrival<Id>>, a: Arrival<Id>, limits: Limits)
    requires Refines(st, events) && Consistent(st, limits) && StepFits(st, a, limits)
    ensures Refines(Add(st, a, limits).0, events + [a])
  {
    StepRefines(st, events, a, limits);
    ExpectedOfLonger(events, a);
  }

  lemma StepLosslessIffFits<Id(!new)>(st: State<Id>, a: Arrival<Id>, limits: Limits)
    ensures var (next, outcome) := Add(st, a, limits);
            StepFits(st, a, limits) <==>
                outcome == Added && next.lan.evicted + next.public.evicted == st.lan.evicted + st.public.evicted
    ensures var (next, outcome) := Add(st, a, limits);
            next.lan.evicted >= st.lan.evicted && next.public.evicted >= st.public.evicted
  {
  }

  lemma LosslessStep<Id(!new)>(events: seq<Arrival<Id>>, limits: Limits)
    requires events != []
    ensures var prefix := events[..|events| - 1];
            Lossless(Run(events, limits)) <==>
            Lossless(Run(prefix, limits)) && StepFits(Run(prefix, limits).st, events[|events| - 1], limits)
  {
    StepLosslessIffFits(Run(events[..|events| - 1], limits).st, events[|events| - 1], limits);
  }

  /**
    In every run that evicts nothing and raises nothing, the deltas are, in completion order,
    first public arrival minus first LAN arrival of each identity seen on both lanes --
    whichever lane came first, and however often either repeats.
   */
  lemma DeltasAreFirstArrivalDifferences<Id(!new)>(events: seq<Arrival<Id>>, limits: Limits)
    requires Lossless(Run(events, limits))
    ensures Run(events, limits).st.deltas == Expected(events)
    ensures Mirrors(Run(events, limits).st, events)
  {
    LosslessRefines(events, limits);
  }

  lemma EmptyRefines<Id(!new)>()
    ensures Refines<Id>(Empty(), [])
  {
  }

  lemma ConsistentRun<Id(!new)>(events: seq<Arrival<Id>>, limits: Limits)
    ensures Consistent(Run(events, limits).st, limits)
  {
    Conservation(events, limits);
  }

  lemma {:induction false} LosslessRefines<Id(!new)>(events: seq<Arrival<Id>>, limits: Limits)
    requires Lossless(Run(events, limits))
    ensures Refines(Run(events, limits).st, events)
  {
    if events == [] {
      EmptyRefines<Id>();
    } else {
      var prefix, a := events[..|events| - 1], events[|events| - 1];
      LosslessStep(events, limits);
      LosslessRefines(prefix, limits);
      ConsistentRun(prefix, limits);
      LongerRunRefines(prefix, a, Run(prefix, limits).st, Run(events, limits).st, events, limits);
    }
  }

  lemma LongerRunRefines<Id(!new)>(prefix: seq<Arrival<Id>>, a: Arrival<Id>, before: State<Id>, after: State<Id>,
                                   events: seq<Arrival<Id>>, limits: Limits)
    requires events == prefix + [a] && after == Add(before, a, limits).0
    requires Refines(before, prefix) && Consistent(before, limits) && StepFits(before, a, limits)
    ensures Refines(after, events)
  {
    StepKeepsRefines(before, prefix, a, limits);
  }

  // ---------- exactly when a run is lossless ----------

  ghost function Ids<Id(!new)>(events: seq<Arrival<Id>>): set<Id> {
    set a | a in events :: a.id
  }

  ghost function Open<Id(!new)>(events: seq<Arrival<Id>>): set<Id> {
    set id | id in Ids(events) && SeenOn(events, id, Lan) != SeenOn(events, id, Public)
  }

  ghost function Paired<Id(!new)>(events: seq<Arrival<Id>>): set<Id> {
    set id | id in Ids(events) && SeenOn(events, id, Lan) && SeenOn(events, id, Public)
  }

  ghost predicate FitsNow<Id(!new)>(events: seq<Arrival<Id>>, limits: Limits) {
    (|Open(events)| <= limits.pending || Open(events) == {})
        && (|Paired(events)| <= limits.pairs || Paired(events) == {})
  }

  /** At no point in the history are more identities half-seen, or fully seen, than the limits allow. */
  ghost predicate FitsAlways<Id(!new)>(events: seq<Arrival<Id>>, limits: Limits) {
    forall n :: 0 <= n <= |events| ==> FitsNow(events[..n], limits)
  }

  lemma {:induction false} SeenMeansPresent<Id(!new)>(events: seq<Arrival<Id>>, id: Id, lane: Lane)
    requires SeenOn(events, id, lane)
    ensures id in Ids(events)
  {
    var prefix, last := events[..|events| - 1], events[|events| - 1];
    if SeenOn(prefix, id, lane) {
      SeenMeansPresent(prefix, id, lane);
      var a :| a in prefix && a.id == id;
      assert a in events;
    } else {
      assert last in events;
    }
  }

  lemma {:induction false} IdsCount<Id(!new)>(pending: seq<Arrival<Id>>)
    requires DistinctIds(pending)
    ensures |Ids(pending)| == |pending|
  {
    if pending != [] {
      var n := |pending| - 1;
      IdsCount(pending[..n]);
      assert Ids(pending) == Ids(pending[..n]) + {pending[n].id} by {
        assert pending == pending[..n] + [pending[n]];
      }
      assert pending[n].id !in Ids(pending[..n]) by {
        forall a | a in pending[..n] ensures a.id != pending[n].id {
          var i :| 0 <= i < n && pending[..n][i] == a;
        }
      }
    }
  }

  /** While nothing is lost, the tables have exactly as many entries as there are half-seen and paired identities. */
  lemma TablesMeasureHistory<Id(!new)>(st: State<Id>, events: seq<Arrival<Id>>, limits: Limits)
    requires Mirrors(st, events) && Consistent(st, limits)
    ensures |Open(events)| == |st.pending| && |Paired(events)| == |st.deltas|
  {
    IdsCount(st.pending);
    forall id ensures id in Open(events) <==> Holds(st.pending, id)
              ensures id in Paired(events) <==> id in st.seen
              ensures Holds(st.pending, id) <==> id in Ids(st.pending)
    {
      if SeenOn(events, id, Lan) { SeenMeansPresent(events, id, Lan); }
      if SeenOn(events, id, Public) { SeenMeansPresent(events, id, Public); }
      HoldsIffInIds(st.pending, id);
    }
    assert Open(events) == Ids(st.pending);
    assert Paired(events) == st.seen;
  }

  lemma HoldsIffInIds<Id(!new)>(pending: seq<Arrival<Id>>, id: Id)
    ensures Holds(pending, id) <==> id in Ids(pending)
  {
    if id in Ids(pending) {
      var a :| a in pending && a.id == id;
      var k :| 0 <= k < |pending| && pending[k] == a;
    }
    if Holds(pending, id) {
      var k :| 0 <= k < |pending| && pending[k].id == id;
      assert pending[k] in pending;
    }
  }

  lemma NewIdentityOpens<Id(!new)>(events: seq<Arrival<Id>>, a: Arrival<Id>)
    requires !SeenOn(events, a.id, Lan) && !SeenOn(events, a.id, Public)
    ensures |Open(events + [a])| == |Open(events)| + 1
  {
    SeenOfLonger(events, a);
    IdsGrow(events, a);
    forall id ensures id in Open(events + [a]) <==> id in Open(events) || id == a.id {
      assert SeenOn(events + [a], id, Lan) <==> SeenOn(events, id, Lan) || (a.id == id && a.lane == Lan);
      assert SeenOn(events + [a], id, Public) <==> SeenOn(events, id, Public) || (a.id == id && a.lane == Public);
    }
    assert Open(events + [a]) == Open(events) + {a.id};
  }

  lemma CompletionPairs<Id(!new)>(events: seq<Arrival<Id>>, a: Arrival<Id>)
    requires Completes(events + [a])
    ensures |Paired(events + [a])| == |Paired(events)| + 1
  {
    SeenOfLonger(events, a);
    IdsGrow(events, a);
    assert Paired(events + [a]) == Paired(events) + {a.id};
  }

  lemma OverflowShows<Id(!new)>(st: State<Id>, events: seq<Arrival<Id>>, a: Arrival<Id>, limits: Limits)
    requires Mirrors(st, events) && Consistent(st, limits) && !StepFits(st, a, limits)
    ensures !FitsNow(events + [a], limits)
  {
    TablesMeasureHistory(st, events, limits);
    SeenOfLonger(events, a);
    if !Holds(st.pending, a.id) {
      NewIdentityOpens(events, a);
    } else {
      assert !SeenOn(events, a.id, a.lane) && SeenOn(events, a.id, Other(a.lane));
      CompletionPairs(events, a);
    }
  }

  lemma IdsGrow<Id(!new)>(events: seq<Arrival<Id>>, a: Arrival<Id>)
    ensures Ids(events + [a]) == Ids(events) + {a.id}
  {
  }

  /** One more arrival fits the limits exactly when its add loses nothing. */
  lemma FitsNowIffStepFits<Id(!new)>(st: State<Id>, events: seq<Arrival<Id>>, a: Arrival<Id>, limits: Limits)
    requires Refines(st, events) && Consistent(st, limits)
    ensures FitsNow(events + [a], limits) <==> StepFits(st, a, limits)
  {
    if StepFits(st, a, limits) {
      StepKeepsRefines(st, events, a, limits);
      AddKeepsConsistent(st, a, limits);
      var next := Add(st, a, limits).0;
      TablesMeasureHistory(next, events + [a], limits);
    } else {
      OverflowShows(st, events, a, limits);
    }
  }

  lemma FitsAlwaysStep<Id(!new)>(events: seq<Arrival<Id>>, limits: Limits)
    requires events != []
    ensures FitsAlways(events, limits) <==> FitsAlways(events[..|events| - 1], limits) && FitsNow(events, limits)
  {
    var prefix := events[..|events| - 1];
    assert events[..|events|] == events;
    assert forall n :: 0 <= n <= |prefix| ==> prefix[..n] == events[..n];
  }

  lemma EmptyFits<Id(!new)>(limits: Limits)
    ensures FitsAlways<Id>([], limits)
  {
    var none: seq<Arrival<Id>> := [];
    assert none[..0] == none && Ids(none) == {};
    assert Open(none) == {} && Paired(none) == {};
  }

  lemma LosslessIffFitsStep<Id(!new)>(events: seq<Arrival<Id>>, limits: Limits)
    requires events != [] && Lossless(Run(events[..|events| - 1], limits))
    ensures Lossless(Run(events, limits)) <==> FitsNow(events, limits)
  {
    var prefix, a := events[..|events| - 1], events[|events| - 1];
    LosslessStep(events, limits);
    LosslessRefines(prefix, limits);
    Conservation(prefix, limits);
    FitsNowIffStepFits(Run(prefix, limits).st, prefix, a, limits);
    assert events == prefix + [a];
  }

  /**
    A run loses nothing -- no eviction, no capacity error -- exactly when at every point of
    the history the half-seen identities fit the pending limit and the paired ones the pair limit.
   */
  lemma {:induction false} LosslessIffFits<Id(!new)>(events: seq<Arrival<Id>>, limits: Limits)
    ensures Lossless(Run(events, limits)) <==> FitsAlways(events, limits)
  {
    if events == [] {
      EmptyFits<Id>(limits);
    } else {
      LosslessIffFits(events[..|events| - 1], limits);
      LosslessStep(events, limits);
      FitsAlwaysStep(events, limits);
      if Lossless(Run(events[..|events| - 1], limits)) { LosslessIffFitsStep(events, limits); }
    }
  }
}
