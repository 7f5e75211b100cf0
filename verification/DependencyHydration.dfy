/**
  The dependency hydration of a dynamic generation: starting from the configured markets, read
  catalog rows until every outcome-pair dependency is loaded, within a budget
  (scripts/prepare_polymarket_dynamic_generation.py).
 */
module DependencyHydration {
  import opened Wrappers
  import opened Reachability

  const MAX_DEPENDENCY_MARKETS := 1024
  const MAX_ROW_BYTES := 1048576

  /** A catalog row as the index and the catalog file give it; `dependencies` are its outcome pairs' markets. */
  datatype Row<Id> = Row(size: int, hashMatches: bool, parses: bool, marketId: Id, dependencies: set<Id>)

  datatype Error<Id> =
    | BudgetExceeded
    | MissingRow(id: Id)
    | RowByteCap(id: Id)
    | HashDiffers(id: Id)
    | Unparsable(id: Id)
    | IdentityDiffers(id: Id)

  function CheckRow<Id(==)>(catalog: map<Id, Row<Id>>, id: Id): Option<Error<Id>> {
    if id !in catalog then Some(MissingRow(id))
    else if !(0 < catalog[id].size <= MAX_ROW_BYTES) then Some(RowByteCap(id))
    else if !catalog[id].hashMatches then Some(HashDiffers(id))
    else if !catalog[id].parses then Some(Unparsable(id))
    else if catalog[id].marketId != id then Some(IdentityDiffers(id))
    else None
  }

  /** The row of a market is in the catalog, of a size within the cap, unaltered, readable, and this market's. */
  ghost predicate GoodRow<Id(!new)>(catalog: map<Id, Row<Id>>, id: Id) {
    && id in catalog && 0 < catalog[id].size <= 1048576
    && catalog[id].hashMatches && catalog[id].parses && catalog[id].marketId == id
  }

  /** The first fault of a row, in the order in which a row is read. */
  ghost predicate HasFault<Id(!new)>(catalog: map<Id, Row<Id>>, error: Error<Id>) {
    match error
    case BudgetExceeded => false
    case MissingRow(id) => id !in catalog
    case RowByteCap(id) => id in catalog && (catalog[id].size <= 0 || catalog[id].size > 1048576)
    case HashDiffers(id) => id in catalog && 0 < catalog[id].size <= 1048576 && !catalog[id].hashMatches
    case Unparsable(id) => id in catalog && catalog[id].hashMatches && !catalog[id].parses
    case IdentityDiffers(id) =>
      id in catalog && catalog[id].hashMatches && catalog[id].parses && catalog[id].marketId != id
  }

  function FaultyMarket<Id>(error: Error<Id>): Option<Id> {
    match error
    case BudgetExceeded => None
    case MissingRow(id) => Some(id)
    case RowByteCap(id) => Some(id)
    case HashDiffers(id) => Some(id)
    case Unparsable(id) => Some(id)
    case IdentityDiffers(id) => Some(id)
  }

  lemma CheckRowFinds<Id(!new)>(catalog: map<Id, Row<Id>>, id: Id)
    ensures CheckRow(catalog, id).None? <==> GoodRow(catalog, id)
    ensures CheckRow(catalog, id).Some? ==>
              HasFault(catalog, CheckRow(catalog, id).value) && FaultyMarket(CheckRow(catalog, id).value) == Some(id)
  {
  }

  /** The markets an acceptable row pulls in. */
  function Next<Id(==)>(catalog: map<Id, Row<Id>>, id: Id): set<Id> {
    if CheckRow(catalog, id).None? then catalog[id].dependencies else {}
  }

  ghost function Universe<Id(!new)>(seeds: set<Id>, catalog: map<Id, Row<Id>>): set<Id> {
    seeds + set id, d | id in catalog && d in catalog[id].dependencies :: d
  }

  ghost function Step<Id(!new)>(catalog: map<Id, Row<Id>>): Id -> set<Id> {
    id => Next(catalog, id)
  }

  /** The least set that contains the seeds and, with an acceptable row, its dependencies. */
  ghost function Needed<Id(!new)>(seeds: set<Id>, catalog: map<Id, Row<Id>>): set<Id> {
    Closure(Universe(seeds, catalog), seeds, Step(catalog))
  }

  lemma NeededIsLeast<Id(!new)>(seeds: set<Id>, catalog: map<Id, Row<Id>>)
    ensures Closed(seeds, Step(catalog), Universe(seeds, catalog))
    ensures Closed(seeds, Step(catalog), Needed(seeds, catalog))
    ensures forall S :: Closed(seeds, Step(catalog), S) ==> Needed(seeds, catalog) <= S
  {
    ClosureIsClosed(Universe(seeds, catalog), seeds, Step(catalog));
    forall S | Closed(seeds, Step(catalog), S) ensures Needed(seeds, catalog) <= S {
      ClosureIsLeast(Universe(seeds, catalog), seeds, Step(catalog), S);
    }
  }

  lemma OneMore<T>(a: set<T>, x: T, b: set<T>)
    requires a <= b && x in b && x !in a
    ensures |a| < |b|
  {
    assert b == (a + {x}) + (b - a - {x});
    assert |a + {x}| == |a| + 1;
  }

  /** Loading one market turns its part of the frontier from pending to loaded and adds its dependencies. */
  lemma FrontierGrows<T>(pending: set<T>, keys: set<T>, x: T, deps: set<T>, unloaded: set<T>)
    requires x in pending && unloaded + (keys + {x}) == deps + (keys + {x})
    ensures (pending - {x} + unloaded) + (keys + {x}) == (pending + keys) + deps
  {
    forall y ensures y in (pending - {x} + unloaded) + (keys + {x}) <==> y in (pending + keys) + deps {
      assert y in unloaded + (keys + {x}) <==> y in deps + (keys + {x});
    }
  }

  // ---------- the state of the loop ----------

  ghost predicate Loaded<Id(!new)>(catalog: map<Id, Row<Id>>, frontier: set<Id>, markets: map<Id, Row<Id>>) {
    forall id :: id in markets ==>
      CheckRow(catalog, id).None? && markets[id] == catalog[id] && catalog[id].dependencies <= frontier
  }

  /** `frontier` is everything found so far: loaded or still pending. */
  ghost predicate Progress<Id(!new)>(seeds: set<Id>, catalog: map<Id, Row<Id>>, frontier: set<Id>,
                                     markets: map<Id, Row<Id>>, needed: set<Id>) {
    seeds <= frontier <= needed && markets.Keys <= frontier && Loaded(catalog, frontier, markets)
  }

  lemma LoadProgresses<Id(!new)>(seeds: set<Id>, catalog: map<Id, Row<Id>>, frontier: set<Id>,
                                 markets: map<Id, Row<Id>>, id: Id, needed: set<Id>)
    requires Progress(seeds, catalog, frontier, markets, needed) && id in frontier && CheckRow(catalog, id).None?
    requires catalog[id].dependencies <= needed
    ensures Progress(seeds, catalog, frontier + catalog[id].dependencies, markets[id := catalog[id]], needed)
    ensures markets[id := catalog[id]].Keys == markets.Keys + {id}
  {
  }

  function Unloaded<Id(==)>(ids: set<Id>, markets: map<Id, Row<Id>>): (r: set<Id>)
    ensures r + markets.Keys == ids + markets.Keys
  {
    set d | d in ids && d !in markets
  }

  /** A set of markets that contains the dependencies of its members. */
  ghost predicate Bounds<Id(!new)>(catalog: map<Id, Row<Id>>, needed: set<Id>) {
    forall id :: id in needed && CheckRow(catalog, id).None? ==> catalog[id].dependencies <= needed
  }

  /**
    The loop, inside any set that contains the seeds and its own dependencies; any pending market may be taken next.
   */
  method Explore<Id(==,!new)>(seeds: set<Id>, catalog: map<Id, Row<Id>>, limit: nat, ghost needed: set<Id>)
    returns (r: Result<map<Id, Row<Id>>, Error<Id>>)
    requires seeds <= needed && Bounds(catalog, needed)
    ensures r.Success? ==> Progress(seeds, catalog, r.value.Keys, r.value, needed) && |r.value.Keys| <= limit
    ensures r == Failure(BudgetExceeded) ==> |needed| > limit
    ensures r.Failure? && !r.error.BudgetExceeded? ==>
              exists id :: id in needed && CheckRow(catalog, id) == Some(r.error)
  {
    var pending := seeds;
    var markets: map<Id, Row<Id>> := map[];
    while pending != {}
      invariant Progress(seeds, catalog, pending + markets.Keys, markets, needed) && |markets.Keys| <= limit
      decreases needed - markets.Keys, pending
    {
      var mid :| mid in pending;
      ghost var before, keys := pending, markets.Keys;
      pending := pending - {mid};
      if mid in markets {
        assert pending + keys == before + keys;
      } else {
        if |markets.Keys| >= limit {
          OneMore(markets.Keys, mid, needed);
          return Failure(BudgetExceeded);
        }
        var problem := CheckRow(catalog, mid);
        if problem.Some? {
          return Failure(problem.value);
        }
        LoadProgresses(seeds, catalog, before + keys, markets, mid, needed);
        markets := markets[mid := catalog[mid]];
        FrontierGrows(before, keys, mid, catalog[mid].dependencies, Unloaded(catalog[mid].dependencies, markets));
        pending := pending + Unloaded(catalog[mid].dependencies, markets);
      }
    }
    AllLoaded(seeds, catalog, pending, markets, needed);
    r := Success(markets);
  }

  lemma AllLoaded<Id(!new)>(seeds: set<Id>, catalog: map<Id, Row<Id>>, pending: set<Id>, markets: map<Id, Row<Id>>,
                            needed: set<Id>)
    requires Progress(seeds, catalog, pending + markets.Keys, markets, needed) && pending == {}
    ensures Progress(seeds, catalog, markets.Keys, markets, needed)
  {
    assert pending + markets.Keys == markets.Keys;
  }

  lemma NeededBounds<Id(!new)>(seeds: set<Id>, catalog: map<Id, Row<Id>>)
    ensures seeds <= Needed(seeds, catalog) && Bounds(catalog, Needed(seeds, catalog))
  {
    NeededIsLeast(seeds, catalog);
    forall id | id in Needed(seeds, catalog) && CheckRow(catalog, id).None?
      ensures catalog[id].dependencies <= Needed(seeds, catalog)
    {
      assert Step(catalog)(id) <= Needed(seeds, catalog);
    }
  }

  lemma NothingPending<Id(!new)>(seeds: set<Id>, catalog: map<Id, Row<Id>>, markets: map<Id, Row<Id>>)
    requires Progress(seeds, catalog, markets.Keys, markets, Needed(seeds, catalog))
    ensures markets.Keys == Needed(seeds, catalog)
  {
    forall id | id in markets.Keys ensures Step(catalog)(id) <= markets.Keys {
      assert catalog[id].dependencies <= markets.Keys;
    }
    assert Closed(seeds, Step(catalog), markets.Keys);
    NeededIsLeast(seeds, catalog);
  }

  /**
    Hydration succeeds exactly if all needed markets have good rows and are no more than 1024, and then with
    exactly their rows; otherwise it reports the budget only when more markets are needed than it allows, or else a
    needed market with the first fault of its row.
   */
  method Hydrate<Id(==,!new)>(seeds: set<Id>, catalog: map<Id, Row<Id>>)
    returns (r: Result<map<Id, Row<Id>>, Error<Id>>)
    ensures r.Success? <==>
              |Needed(seeds, catalog)| <= 1024 && forall id :: id in Needed(seeds, catalog) ==> GoodRow(catalog, id)
    ensures r.Success? ==>
              r.value.Keys == Needed(seeds, catalog)
              && forall id :: id in r.value ==> id in catalog && r.value[id] == catalog[id]
    ensures r == Failure(BudgetExceeded) ==> |Needed(seeds, catalog)| > 1024
    ensures r.Failure? && r.error != BudgetExceeded ==>
              HasFault(catalog, r.error) && FaultyMarket(r.error).Some?
              && FaultyMarket(r.error).value in Needed(seeds, catalog)
  {
    NeededBounds(seeds, catalog);
    r := Explore(seeds, catalog, MAX_DEPENDENCY_MARKETS, Needed(seeds, catalog));
    forall id
      ensures CheckRow(catalog, id).None? <==> GoodRow(catalog, id)
      ensures CheckRow(catalog, id).Some? ==>
                HasFault(catalog, CheckRow(catalog, id).value) && FaultyMarket(CheckRow(catalog, id).value) == Some(id)
    {
      CheckRowFinds(catalog, id);
    }
    if r.Success? {
      NothingPending(seeds, catalog, r.value);
    } else if r.error != BudgetExceeded {
      ghost var id :| id in Needed(seeds, catalog) && CheckRow(catalog, id) == Some(r.error);
      CheckRowFinds(catalog, id);
    }
  }

  /** A market is needed exactly when a chain of dependencies leads to it from a configured market. */
  lemma NeededIsReachable<Id(!new)>(seeds: set<Id>, catalog: map<Id, Row<Id>>, id: Id)
    ensures id in Needed(seeds, catalog) <==> Reaches(seeds, Step(catalog), id)
  {
    NeededIsLeast(seeds, catalog);
    ClosureIsReachable(Universe(seeds, catalog), seeds, Step(catalog), id);
  }
}
