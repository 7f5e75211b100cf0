/**
  The bounded two-lane matcher that pairs the arrivals of one event on the public and on the
  LAN lane (scripts/measure_sdk_public_latency.py).
 */
module PairMatcher {
  import opened Wrappers

  datatype Lane = Lan | Public

  function Other(lane: Lane): Lane {
    if lane == Lan then Public else Lan
  }

  datatype Arrival<Id> = Arrival(lane: Lane, id: Id, at: int)

  datatype Counts = Counts(increments: nat, duplicates: nat, evicted: nat)

  /** `pending` is an ordered dictionary: oldest insertion first, one entry for an identity. */
  datatype State<Id> = State(
    pending: seq<Arrival<Id>>,
    seen: set<Id>,
    deltas: seq<int>,
    lan: Counts,
    public: Counts)
  {
    function Of(lane: Lane): Counts {
      if lane == Lan then lan else public
    }

    function Set(lane: Lane, c: Counts): State<Id> {
      if lane == Lan then this.(lan := c) else this.(public := c)
    }
  }

  datatype Outcome = Added | PairCapacity | NothingToEvict

  datatype Limits = Limits(pending: int, pairs: int)

  function Empty<Id>(): State<Id> {
    State([], {}, [], Counts(0, 0, 0), Counts(0, 0, 0))
  }

  predicate Holds<Id(==)>(pending: seq<Arrival<Id>>, id: Id) {
    exists k :: 0 <= k < |pending| && pending[k].id == id
  }

  function IndexOf<Id(==)>(pending: seq<Arrival<Id>>, id: Id): (k: nat)
    requires Holds(pending, id)
    ensures k < |pending| && pending[k].id == id
  {
    if pending[0].id == id then 0 else
      assert exists k :: 0 <= k < |pending[1..]| && pending[1..][k].id == id by {
        var k :| 0 <= k < |pending| && pending[k].id == id;
        assert pending[1..][k - 1].id == id;
      }
      1 + IndexOf(pending[1..], id)
  }

  function Counted<Id>(st: State<Id>, lane: Lane): State<Id> {
    st.Set(lane, st.Of(lane).(increments := st.Of(lane).increments + 1))
  }

  function Repeated<Id>(st: State<Id>, lane: Lane): State<Id> {
    st.Set(lane, st.Of(lane).(duplicates := st.Of(lane).duplicates + 1))
  }

  /** Drops the oldest pending arrival and charges it to the lane it came from. */
  function Evicted<Id>(st: State<Id>): State<Id>
    requires st.pending != []
  {
    var lane := st.pending[0].lane;
    st.Set(lane, st.Of(lane).(evicted := st.Of(lane).evicted + 1)).(pending := st.pending[1..])
  }

  function PublicMinusLan<Id>(a: Arrival<Id>, earlier: Arrival<Id>): int {
    if a.lane == Public then a.at - earlier.at else earlier.at - a.at
  }

  function Add<Id(==)>(st: State<Id>, a: Arrival<Id>, limits: Limits): (State<Id>, Outcome) {
    var counted := Counted(st, a.lane);
    if a.id in st.seen then (Repeated(counted, a.lane), Added)
    else if !Holds(st.pending, a.id) then Enqueue(counted, a, limits.pending)
    else
      var k := IndexOf(st.pending, a.id);
      if st.pending[k].lane == a.lane then (Repeated(counted, a.lane), Added)
      else if |st.deltas| >= limits.pairs then (counted, PairCapacity)
      else (Pair(counted, a, k), Added)
  }

  function Enqueue<Id>(st: State<Id>, a: Arrival<Id>, limit: int): (State<Id>, Outcome) {
    if |st.pending| < limit then (st.(pending := st.pending + [a]), Added)
    else if st.pending == [] then (st, NothingToEvict)
    else (Evicted(st).(pending := st.pending[1..] + [a]), Added)
  }

  function Pair<Id(==)>(st: State<Id>, a: Arrival<Id>, k: nat): State<Id>
    requires k < |st.pending|
  {
    st.(pending := st.pending[..k] + st.pending[k + 1..],
        seen := st.seen + {a.id},
        deltas := st.deltas + [PublicMinusLan(a, st.pending[k])])
  }

  // ---------- the program ----------

  class Matcher<Id(==)> {
    var pending: seq<Arrival<Id>>
    var seen: set<Id>
    var deltas: seq<int>
    var lan: Counts
    var public: Counts
    const limits: Limits

    ghost function View(): State<Id>
      reads this
    {
      State(pending, seen, deltas, lan, public)
    }

    constructor (limits: Limits)
      ensures View() == Empty() && this.limits == limits
    {
      this.limits := limits;
      pending, seen, deltas, lan, public := [], {}, [], Counts(0, 0, 0), Counts(0, 0, 0);
    }

    method Bump(lane: Lane, increments: nat, duplicates: nat, evicted: nat)
      modifies this`lan, this`public
      ensures var c := old(View()).Of(lane);
              View() == old(View()).Set(lane,
                  Counts(c.increments + increments, c.duplicates + duplicates, c.evicted + evicted))
    {
      if lane == Lan {
        lan := Counts(lan.increments + increments, lan.duplicates + duplicates, lan.evicted + evicted);
      } else {
        public := Counts(public.increments + increments, public.duplicates + duplicates, public.evicted + evicted);
      }
    }

    method Observe(lane: Lane, id: Id, at: int) returns (outcome: Outcome)
      modifies this
      ensures (View(), outcome) == Add(old(View()), Arrival(lane, id, at), limits)
    {
      Bump(lane, 1, 0, 0);
      if id in seen {
        Bump(lane, 0, 1, 0);
        return Added;
      }
      if !Holds(pending, id) {
        if |pending| >= limits.pending {
          if pending == [] {
            return NothingToEvict;
          }
          var oldest := pending[0];
          pending := pending[1..];
          Bump(oldest.lane, 0, 0, 1);
        }
        pending := pending + [Arrival(lane, id, at)];
      } else {
        var k := IndexOf(pending, id);
        var previous := pending[k];
        if previous.lane == lane {
          Bump(lane, 0, 1, 0);
        } else {
          if |deltas| >= limits.pairs {
            return PairCapacity;
          }
          pending := pending[..k] + pending[k + 1..];
          seen := seen + {id};
          deltas := deltas + [if lane == Public then at - previous.at else previous.at - at];
        }
      }
      outcome := Added;
    }

    /** The still unmatched arrivals of one lane, as the report counts them. */
    method UnmatchedAtEnd(lane: Lane) returns (n: nat)
      ensures n == OnLane(pending, lane)
    {
      n := 0;
      var k := 0;
      while k < |pending|
        invariant 0 <= k <= |pending| && n == OnLane(pending[..k], lane)
      {
        assert pending[..k + 1] == pending[..k] + [pending[k]];
        if pending[k].lane == lane {
          n := n + 1;
        }
        k := k + 1;
      }
      assert pending[..k] == pending;
    }
  }

  function OnLane<Id>(pending: seq<Arrival<Id>>, lane: Lane): nat {
    if pending == [] then 0
    else OnLane(pending[..|pending| - 1], lane) + if pending[|pending| - 1].lane == lane then 1 else 0
  }

  // ---------- runs ----------

  /** A run over a history of arrivals, with the adds that raised, per lane. */
  datatype History<Id> = History(st: State<Id>, lanRaised: nat, publicRaised: nat) {
    function Raised(lane: Lane): nat {
      if lane == Lan then lanRaised else publicRaised
    }
  }

  function Run<Id(==)>(events: seq<Arrival<Id>>, limits: Limits): History<Id> {
    if events == [] then History(Empty(), 0, 0)
    else
      var before, a := Run(events[..|events| - 1], limits), events[|events| - 1];
      var (st, outcome) := Add(before.st, a, limits);
      if outcome == Added then before.(st := st)
      else if a.lane == Lan then History(st, before.lanRaised + 1, before.publicRaised)
      else History(st, before.lanRaised, before.publicRaised + 1)
  }

  // ---------- conservation ----------

  ghost predicate DistinctIds<Id(!new)>(pending: seq<Arrival<Id>>) {
    forall i, j :: 0 <= i < j < |pending| ==> pending[i].id != pending[j].id
  }

  /** How many arrivals of a lane are accounted for. */
  function Accounted<Id>(st: State<Id>, lane: Lane): nat {
    st.Of(lane).duplicates + st.Of(lane).evicted + OnLane(st.pending, lane) + |st.deltas|
  }

  ghost predicate Balanced<Id(!new)>(h: History<Id>, lane: Lane) {
    h.st.Of(lane).increments == Accounted(h.st, lane) + h.Raised(lane)
  }

  ghost predicate Consistent<Id(!new)>(st: State<Id>, limits: Limits) {
    && DistinctIds(st.pending)
    && (forall a :: a in st.pending ==> a.id !in st.seen)
    && |st.seen| == |st.deltas|
    && (|st.pending| <= limits.pending || st.pending == [])
    && (|st.deltas| <= limits.pairs || st.deltas == [])
  }

  lemma {:induction false} OnLaneConcat<Id>(xs: seq<Arrival<Id>>, ys: seq<Arrival<Id>>, lane: Lane)
    ensures OnLane(xs + ys, lane) == OnLane(xs, lane) + OnLane(ys, lane)
  {
    if ys == [] {
      assert xs + ys == xs;
    } else {
      var n := |ys| - 1;
      OnLaneConcat(xs, ys[..n], lane);
      assert (xs + ys)[..|xs + ys| - 1] == xs + ys[..n];
    }
  }

  lemma OnLaneOne<Id>(a: Arrival<Id>, lane: Lane)
    ensures OnLane([a], lane) == if a.lane == lane then 1 else 0
  {
    assert [a][..0] == [];
  }

  lemma OnLaneWithout<Id>(pending: seq<Arrival<Id>>, k: nat, lane: Lane)
    requires k < |pending|
    ensures OnLane(pending, lane) ==
            OnLane(pending[..k] + pending[k + 1..], lane) + if pending[k].lane == lane then 1 else 0
  {
    assert pending == pending[..k] + [pending[k]] + pending[k + 1..];
    OnLaneConcat(pending[..k] + [pending[k]], pending[k + 1..], lane);
    OnLaneConcat(pending[..k], [pending[k]], lane);
    OnLaneConcat(pending[..k], pending[k + 1..], lane);
    OnLaneOne(pending[k], lane);
  }

  lemma OnLaneAppend<Id>(pending: seq<Arrival<Id>>, a: Arrival<Id>, lane: Lane)
    ensures OnLane(pending + [a], lane) == OnLane(pending, lane) + if a.lane == lane then 1 else 0
  {
    OnLaneConcat(pending, [a], lane);
    OnLaneOne(a, lane);
  }

  lemma EnqueueKeepsConsistent<Id(!new)>(st: State<Id>, a: Arrival<Id>, limits: Limits)
    requires Consistent(st, limits) && a.id !in st.seen && !Holds(st.pending, a.id)
    ensures Consistent(Enqueue(st, a, limits.pending).0, limits)
  {
    if st.pending != [] {
      DistinctAppend(st.pending, a);
      assert !Holds(st.pending[1..], a.id) by {
        assert forall k :: 0 <= k < |st.pending[1..]| ==> st.pending[1..][k] == st.pending[k + 1];
      }
      DistinctAppend(st.pending[1..], a);
    }
  }

  lemma DistinctAppend<Id(!new)>(pending: seq<Arrival<Id>>, a: Arrival<Id>)
    requires DistinctIds(pending) && !Holds(pending, a.id)
    ensures DistinctIds(pending + [a])
  {
  }

  lemma PairKeepsConsistent<Id(!new)>(st: State<Id>, a: Arrival<Id>, k: nat, limits: Limits)
    requires Consistent(st, limits) && a.id !in st.seen && k < |st.pending| && st.pending[k].id == a.id
    requires |st.deltas| < limits.pairs
    ensures Consistent(Pair(st, a, k), limits)
  {
    var next := Pair(st, a, k);
    forall j | 0 <= j < |next.pending|
      ensures next.pending[j] == st.pending[if j < k then j else j + 1] && next.pending[j].id != a.id
    {
    }
  }

  lemma AddKeepsConsistent<Id(!new)>(st: State<Id>, a: Arrival<Id>, limits: Limits)
    requires Consistent(st, limits)
    ensures Consistent(Add(st, a, limits).0, limits)
  {
    var counted := Counted(st, a.lane);
    if a.id !in st.seen {
      if !Holds(st.pending, a.id) {
        EnqueueKeepsConsistent(counted, a, limits);
      } else if |st.deltas| < limits.pairs {
        PairKeepsConsistent(counted, a, IndexOf(st.pending, a.id), limits);
      }
    }
  }

  lemma PairAccounts<Id(!new)>(st: State<Id>, a: Arrival<Id>, limits: Limits, lane: Lane)
    requires a.id !in st.seen && Holds(st.pending, a.id)
    ensures var (next, outcome) := Add(st, a, limits);
            Accounted(next, lane) == Accounted(st, lane) + (if outcome == Added && a.lane == lane then 1 else 0)
  {
    OnLaneWithout(st.pending, IndexOf(st.pending, a.id), lane);
  }

  lemma CountedAccounts<Id(!new)>(st: State<Id>, on: Lane, lane: Lane)
    ensures Accounted(Counted(st, on), lane) == Accounted(st, lane)
  {
  }

  /** An eviction moves one arrival of the oldest entry's lane from pending to evicted. */
  lemma EvictionAccounts<Id(!new)>(st: State<Id>, lane: Lane)
    requires st.pending != []
    ensures Accounted(Evicted(st), lane) == Accounted(st, lane)
  {
    OnLaneWithout(st.pending, 0, lane);
    assert st.pending[..0] + st.pending[1..] == st.pending[1..];
  }

  lemma AppendAccounts<Id(!new)>(st: State<Id>, a: Arrival<Id>, lane: Lane)
    ensures Accounted(st.(pending := st.pending + [a]), lane) == Accounted(st, lane) + if a.lane == lane then 1 else 0
  {
    OnLaneAppend(st.pending, a, lane);
  }

  lemma EnqueueAccounts<Id(!new)>(st: State<Id>, a: Arrival<Id>, limit: int, lane: Lane)
    ensures var (next, outcome) := Enqueue(st, a, limit);
            Accounted(next, lane) == Accounted(st, lane) + (if outcome == Added && a.lane == lane then 1 else 0)
  {
    if |st.pending| < limit {
      AppendAccounts(st, a, lane);
    } else if st.pending != [] {
      EvictionAccounts(st, lane);
      AppendAccounts(Evicted(st), a, lane);
    }
  }

  lemma NewArrivalAccounts<Id(!new)>(st: State<Id>, a: Arrival<Id>, limits: Limits, lane: Lane)
    requires a.id !in st.seen && !Holds(st.pending, a.id)
    ensures var (next, outcome) := Add(st, a, limits);
            Accounted(next, lane) == Accounted(st, lane) + (if outcome == Added && a.lane == lane then 1 else 0)
  {
    CountedAccounts(st, a.lane, lane);
    EnqueueAccounts(Counted(st, a.lane), a, limits.pending, lane);
  }

  /** Each add that does not raise puts its arrival into exactly one of the counted places. */
  lemma AddBalances<Id(!new)>(st: State<Id>, a: Arrival<Id>, limits: Limits, lane: Lane)
    ensures var (next, outcome) := Add(st, a, limits);
            && next.Of(lane).increments == st.Of(lane).increments + (if a.lane == lane then 1 else 0)
            && Accounted(next, lane) == Accounted(st, lane) + (if outcome == Added && a.lane == lane then 1 else 0)
  {
    if a.id !in st.seen {
      if Holds(st.pending, a.id) {
        PairAccounts(st, a, limits, lane);
      } else {
        NewArrivalAccounts(st, a, limits, lane);
      }
    }
  }

  /**
    After any history, with any limits: on each lane, the increments are the duplicates, the
    evictions, what is still pending, the pairs and the adds that raised; pairs and seen
    identities correspond; nothing is both seen and pending; and both tables are bounded.
   */
  lemma {:induction false} Conservation<Id(!new)>(events: seq<Arrival<Id>>, limits: Limits)
    ensures Consistent(Run(events, limits).st, limits)
    ensures Balanced(Run(events, limits), Lan) && Balanced(Run(events, limits), Public)
  {
    if events != [] {
      var prefix, a := events[..|events| - 1], events[|events| - 1];
      Conservation(prefix, limits);
      var before := Run(prefix, limits);
      AddKeepsConsistent(before.st, a, limits);
      AddBalances(before.st, a, limits, Lan);
      AddBalances(before.st, a, limits, Public);
    }
  }

  /** The positions of the pending arrivals in the history: oldest first, so eviction takes the oldest. */
  ghost predicate InArrivalOrder<Id(!new)>(pending: seq<Arrival<Id>>, events: seq<Arrival<Id>>, at: seq<nat>) {
    && |at| == |pending|
    && (forall i :: 0 <= i < |at| ==> at[i] < |events| && events[at[i]] == pending[i])
    && (forall i, j :: 0 <= i < j < |at| ==> at[i] < at[j])
  }

  lemma OrderWithout<Id(!new)>(pending: seq<Arrival<Id>>, events: seq<Arrival<Id>>, at: seq<nat>, k: nat)
    requires InArrivalOrder(pending, events, at) && k < |pending|
    ensures InArrivalOrder(pending[..k] + pending[k + 1..], events, at[..k] + at[k + 1..])
  {
  }

  lemma OrderAppend<Id(!new)>(pending: seq<Arrival<Id>>, events: seq<Arrival<Id>>, at: seq<nat>, a: Arrival<Id>)
    requires InArrivalOrder(pending, events, at)
    ensures InArrivalOrder(pending, events + [a], at)
    ensures InArrivalOrder(pending + [a], events + [a], at + [|events|])
  {
  }

  lemma EnqueueKeepsOrder<Id(!new)>(events: seq<Arrival<Id>>, st: State<Id>, a: Arrival<Id>, limit: int,
                                    before: seq<nat>)
    returns (at: seq<nat>)
    requires InArrivalOrder(st.pending, events, before)
    ensures InArrivalOrder(Enqueue(st, a, limit).0.pending, events + [a], at)
  {
    OrderAppend(st.pending, events, before, a);
    if |st.pending| < limit {
      at := before + [|events|];
    } else if st.pending == [] {
      at := before;
    } else {
      OrderWithout(st.pending, events, before, 0);
      assert st.pending[..0] + st.pending[1..] == st.pending[1..];
      assert before[..0] + before[1..] == before[1..];
      OrderAppend(st.pending[1..], events, before[1..], a);
      at := before[1..] + [|events|];
    }
  }

  lemma AddKeepsOrder<Id(!new)>(events: seq<Arrival<Id>>, st: State<Id>, a: Arrival<Id>, limits: Limits,
                                before: seq<nat>)
    returns (at: seq<nat>)
    requires InArrivalOrder(st.pending, events, before)
    ensures InArrivalOrder(Add(st, a, limits).0.pending, events + [a], at)
  {
    at := before;
    if a.id !in st.seen && !Holds(st.pending, a.id) {
      at := EnqueueKeepsOrder(events, Counted(st, a.lane), a, limits.pending, before);
    } else {
      OrderAppend(st.pending, events, before, a);
      if a.id !in st.seen {
        var k := IndexOf(st.pending, a.id);
        if st.pending[k].lane != a.lane && |st.deltas| < limits.pairs {
          at := before[..k] + before[k + 1..];
          OrderWithout(st.pending, events + [a], before, k);
        }
      }
    }
  }

  lemma {:induction false} PendingIsOldestFirst<Id(!new)>(events: seq<Arrival<Id>>, limits: Limits)
    returns (at: seq<nat>)
    ensures InArrivalOrder(Run(events, limits).st.pending, events, at)
  {
    if events == [] {
      at := [];
    } else {
      var n := |events| - 1;
      var before := PendingIsOldestFirst(events[..n], limits);
      at := AddKeepsOrder(events[..n], Run(events[..n], limits).st, events[n], limits, before);
      assert events == events[..n] + [events[n]];
    }
  }
}
