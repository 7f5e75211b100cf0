/**
  The boundary validator of the recovery test: it takes its counts from the scope document and, unlike the
  live one, does not count a market's outcomes (scripts/verify_polymarket_stream_recovery_stability.py).
 */
module RecoveryBoundary {
  import opened Wrappers
  import opened Distinct
  import opened Boundary

  /** The scope document; the schema, status and identity tests of both documents are one flag. */
  datatype Scope = Scope(
    marketCount: int, tokenCount: int, minimum: int, target: int,
    activeIds: seq<string>, quarantinedIds: seq<string>)

  datatype Full = Full(
    headersMatch: bool, universeIds: seq<string>, unresolvedGaps: int, cursors: Cursors,
    catalogRevision: string, stateDigest: string, markets: seq<Market>, books: seq<Book>)

  const MAXIMUM_MARKETS := 250

  function UnmatchedIn(increment: Option<string>, outcomes: seq<string>, index: Index): seq<string> {
    if outcomes == [] then []
    else
      var last := outcomes[|outcomes| - 1];
      UnmatchedIn(increment, outcomes[..|outcomes| - 1], index)
      + if last !in index || index[last].tick != increment then [last] else []
  }

  function UnmatchedOf(markets: seq<Market>, index: Index): seq<string> {
    if markets == [] then []
    else
      var last := markets[|markets| - 1];
      UnmatchedOf(markets[..|markets| - 1], index) + UnmatchedIn(last.increment, last.outcomes, index)
  }

  predicate CountsFit(scope: Scope) {
    0 < scope.minimum <= scope.marketCount <= scope.target <= MAXIMUM_MARKETS
        && scope.tokenCount == 2 * scope.marketCount
  }

  predicate ActiveFits(scope: Scope, full: Full) {
    && |full.universeIds| == scope.marketCount
    && ToSet(scope.activeIds) == ToSet(full.universeIds)
    && ToSet(scope.activeIds) * ToSet(scope.quarantinedIds) == {}
  }

  predicate BooksMatch(scope: Scope, full: Full) {
    && |full.markets| == scope.marketCount && |full.books| == scope.tokenCount
    && |ToSet(TokensOf(full.markets))| == scope.tokenCount
    && UnmatchedOf(full.markets, IndexOf(full.books)) == []
  }

  predicate Passes(scope: Scope, full: Full) {
    && full.headersMatch && CountsFit(scope) && ActiveFits(scope, full) && BooksMatch(scope, full)
    && BadRevisionsOf(full.markets) == [] && full.unresolvedGaps == 0 && |CursorSet(full.cursors)| == 1
    && Digest(full.catalogRevision) && Digest(full.stateDigest)
  }

  // ---------- the program ----------

  method CheckMarkets(markets: seq<Market>, index: Index)
    returns (tokens: seq<string>, unmatched: seq<string>, badRevisions: seq<string>)
    ensures tokens == TokensOf(markets) && unmatched == UnmatchedOf(markets, index)
    ensures badRevisions == BadRevisionsOf(markets)
  {
    tokens, unmatched, badRevisions := [], [], [];
    var k := 0;
    while k < |markets|
      invariant 0 <= k <= |markets|
      invariant tokens == TokensOf(markets[..k]) && unmatched == UnmatchedOf(markets[..k], index)
      invariant badRevisions == BadRevisionsOf(markets[..k])
    {
      var m := markets[k];
      assert markets[..k + 1][..k] == markets[..k];
      if !Digest(m.revision) {
        badRevisions := badRevisions + [m.id];
      }
      var here := CheckOutcomes(m, index);
      tokens, unmatched := tokens + m.outcomes, unmatched + here;
      k := k + 1;
    }
    assert markets[..k] == markets;
  }

  method CheckOutcomes(m: Market, index: Index) returns (unmatched: seq<string>)
    ensures unmatched == UnmatchedIn(m.increment, m.outcomes, index)
  {
    unmatched := [];
    var k := 0;
    while k < |m.outcomes|
      invariant 0 <= k <= |m.outcomes| && unmatched == UnmatchedIn(m.increment, m.outcomes[..k], index)
    {
      assert m.outcomes[..k + 1][..k] == m.outcomes[..k];
      var token := m.outcomes[k];
      if token !in index || m.increment != index[token].tick {
        unmatched := unmatched + [token];
      }
      k := k + 1;
    }
    assert m.outcomes[..k] == m.outcomes;
  }

  method Validate(scope: Scope, full: Full) returns (passed: bool, unmatched: nat)
    ensures passed <==> Passes(scope, full)
    ensures unmatched == |UnmatchedOf(full.markets, IndexOf(full.books))|
  {
    var index := ByToken(full.books);
    var tokens, mismatches, badRevisions := CheckMarkets(full.markets, index);
    unmatched := |mismatches|;
    var booksMatch :=
      && |full.markets| == scope.marketCount
      && |full.books| == scope.tokenCount
      && |ToSet(tokens)| == scope.tokenCount
      && mismatches == [];
    assert booksMatch == BooksMatch(scope, full);
    passed :=
      && full.headersMatch
      && CountsFit(scope)
      && ActiveFits(scope, full)
      && booksMatch
      && badRevisions == []
      && full.unresolvedGaps == 0
      && |CursorSet(full.cursors)| == 1
      && Digest(full.catalogRevision)
      && Digest(full.stateDigest);
  }

  // ---------- what passing means ----------

  lemma {:induction false} NoneUnmatchedIn(increment: Option<string>, outcomes: seq<string>, index: Index)
    ensures UnmatchedIn(increment, outcomes, index) == [] <==>
            forall t :: t in outcomes ==> t in index && index[t].tick == increment
  {
    if outcomes != [] {
      var head, last := outcomes[..|outcomes| - 1], outcomes[|outcomes| - 1];
      NoneUnmatchedIn(increment, head, index);
      assert outcomes == head + [last];
    }
  }

  lemma {:induction false} NoneUnmatched(markets: seq<Market>, index: Index)
    ensures UnmatchedOf(markets, index) == [] <==>
            && MismatchOf(markets, index) == []
            && forall t :: t in TokensOf(markets) ==> t in index
  {
    if markets != [] {
      var head, last := markets[..|markets| - 1], markets[|markets| - 1];
      NoneUnmatched(head, index);
      NoneUnmatchedIn(last.increment, last.outcomes, index);
      NoneMismatchIn(last.increment, last.outcomes, index);
    }
  }

  /**
    The book tests hold exactly when the counts are as announced, books and outcome tokens correspond one to
    one, and their ticks agree.
   */
  lemma BooksMatchIsBijection(scope: Scope, full: Full)
    ensures BooksMatch(scope, full) <==>
            && |full.markets| == scope.marketCount && |full.books| == scope.tokenCount
            && OneToOne(TokensOf(full.markets), full.books) && TicksAgree(full.markets, full.books)
  {
    var tokens := TokensOf(full.markets);
    NoneUnmatched(full.markets, IndexOf(full.books));
    if BooksMatch(scope, full) {
      Pigeonhole(tokens, full.books);
      TicksThroughIndex(full.markets, full.books);
    }
    if OneToOne(tokens, full.books) {
      OneToOneCounts(tokens, full.books);
      TicksThroughIndex(full.markets, full.books);
    }
  }

  /** When the tests hold, no token is used twice exactly if there are two outcomes per market in total. */
  lemma DistinctIffTwoPerMarket(scope: Scope, full: Full)
    requires CountsFit(scope) && BooksMatch(scope, full)
    ensures NoDuplicates(TokensOf(full.markets)) <==> |TokensOf(full.markets)| == 2 * |full.markets|
  {
    SizeTestFindsDuplicates(TokensOf(full.markets));
  }

  ghost predicate AtMostTwoOutcomes(markets: seq<Market>) {
    forall m :: m in markets ==> |m.outcomes| <= 2
  }

  /** Markets with at most two outcomes have two per market in total exactly if each has two. */
  lemma {:induction false} TotalOfAtMostTwo(markets: seq<Market>)
    requires AtMostTwoOutcomes(markets)
    ensures |TokensOf(markets)| <= 2 * |markets|
    ensures |TokensOf(markets)| == 2 * |markets| <==> TwoOutcomes(markets)
  {
    if markets != [] {
      var head, last := markets[..|markets| - 1], markets[|markets| - 1];
      assert forall m :: m in markets <==> m in head || m == last;
      TotalOfAtMostTwo(head);
    }
  }

  /** When the tests hold, every market is binary exactly if none has more than two outcomes, which no test checks. */
  lemma BinaryIffAtMostTwo(scope: Scope, full: Full)
    requires CountsFit(scope) && BooksMatch(scope, full)
    ensures TwoOutcomes(full.markets) <==> AtMostTwoOutcomes(full.markets)
  {
    if AtMostTwoOutcomes(full.markets) {
      TotalOfAtMostTwo(full.markets);
    }
  }

  lemma TokensOfTwo(m1: Market, m2: Market)
    ensures TokensOf([m1, m2]) == m1.outcomes + m2.outcomes
  {
    assert [m1, m2][..1] == [m1] && [m1][..0] == [];
    assert TokensOf([m1]) == [] + m1.outcomes;
  }

  lemma SameTicks(markets: seq<Market>, books: seq<Book>, tick: Option<string>)
    requires forall m :: m in markets ==> m.increment == tick
    requires forall b :: b in books ==> b.tick == tick
    ensures TicksAgree(markets, books)
  {
  }

  lemma FourDistinct(a: string, b: string, c: string, d: string)
    requires a != b && a != c && a != d && b != c && b != d && c != d
    ensures NoDuplicates([a, b, c, d])
  {
  }

  // ---------- a boundary that passes and is not binary ----------

  function Zeros(n: nat): string {
    seq(n, _ => '0')
  }

  lemma ZerosAreDigest()
    ensures Digest(Zeros(64))
  {
  }

  /** Market 1 with one outcome, market 2 with three. */
  function SkewedMarkets(): seq<Market> {
    var fee := Fee("", false, false, "", false);
    [Market("1", None, Zeros(64), fee, ["a"]), Market("2", None, Zeros(64), fee, ["b", "c", "d"])]
  }

  function SkewedScope(): Scope {
    Scope(2, 4, 1, 2, ["1", "2"], [])
  }

  function SkewedFull(): Full {
    var one: Option<int> := Some(1);
    Full(true, ["1", "2"], 0, Cursors(one, one, one, one, one, one, one), Zeros(64), Zeros(64), SkewedMarkets(),
         [Book("a", None), Book("b", None), Book("c", None), Book("d", None)])
  }

  lemma SkewedBooksMatch()
    ensures BooksMatch(SkewedScope(), SkewedFull())
  {
    var markets, books := SkewedMarkets(), SkewedFull().books;
    TokensOfTwo(markets[0], markets[1]);
    assert BookTokens(books) == ["a", "b", "c", "d"] == TokensOf(markets);
    FourDistinct("a", "b", "c", "d");
    SameTicks(markets, books, None);
    BooksMatchIsBijection(SkewedScope(), SkewedFull());
  }

  lemma SkewedFactsFit()
    ensures BadRevisionsOf(SkewedMarkets()) == []
  {
    ZerosAreDigest();
    NoBadFacts(SkewedMarkets());
  }

  lemma SkewedActiveFits()
    ensures ActiveFits(SkewedScope(), SkewedFull())
  {
    var none: seq<string> := [];
    assert ToSet(none) == {};
  }

  lemma SkewedIsNotBinary()
    ensures !TwoOutcomes(SkewedMarkets())
  {
    assert SkewedMarkets()[0] in SkewedMarkets();
  }

  lemma SkewedCursorsAreOne()
    ensures |CursorSet(SkewedFull().cursors)| == 1
  {
    OneCursor(SkewedFull().cursors);
  }

  lemma PassesWhen(scope: Scope, full: Full)
    requires full.headersMatch && CountsFit(scope) && ActiveFits(scope, full) && BooksMatch(scope, full)
    requires BadRevisionsOf(full.markets) == [] && full.unresolvedGaps == 0 && |CursorSet(full.cursors)| == 1
    requires full.catalogRevision == full.stateDigest == Zeros(64)
    ensures Passes(scope, full)
  {
    ZerosAreDigest();
  }

  /** The validator accepts a boundary of two markets of which one has one outcome and the other three. */
  lemma SkewedBoundaryPasses()
    ensures Passes(SkewedScope(), SkewedFull()) && !TwoOutcomes(SkewedFull().markets)
  {
    SkewedBooksMatch();
    SkewedFactsFit();
    SkewedActiveFits();
    SkewedCursorsAreOne();
    SkewedIsNotBinary();
    PassesWhen(SkewedScope(), SkewedFull());
  }

  /** Active markets of a passing boundary are listed once exactly if the scope has as many ids; none is quarantined. */
  lemma ActiveMarketsAreDistinct(scope: Scope, full: Full)
    requires ActiveFits(scope, full)
    ensures NoDuplicates(full.universeIds) <==> |ToSet(scope.activeIds)| == scope.marketCount
    ensures forall id :: id in full.universeIds ==> id in scope.activeIds && id !in scope.quarantinedIds
  {
    SizeTestFindsDuplicates(full.universeIds);
    forall id | id in full.universeIds
      ensures id in scope.activeIds && id !in scope.quarantinedIds
    {
      assert id in ToSet(scope.activeIds);
      assert id !in ToSet(scope.activeIds) * ToSet(scope.quarantinedIds);
    }
  }

  // ---------- all tests together ----------

  /** As many active markets as announced, the same ids in both documents, none of them quarantined. */
  ghost predicate ActiveAcceptable(scope: Scope, full: Full) {
    && |full.universeIds| == scope.marketCount
    && (forall id :: id in full.universeIds <==> id in scope.activeIds)
    && (forall id :: id in scope.activeIds ==> id !in scope.quarantinedIds)
  }

  lemma SameSetIff(xs: seq<string>, ys: seq<string>, a: set<string>, b: set<string>)
    requires (forall x :: x in a <==> x in xs) && forall y :: y in b <==> y in ys
    ensures a == b <==> forall id :: id in ys <==> id in xs
  {
  }

  lemma DisjointIff(xs: seq<string>, ys: seq<string>, a: set<string>, b: set<string>)
    requires (forall x :: x in a <==> x in xs) && forall y :: y in b <==> y in ys
    ensures a * b == {} <==> forall id :: id in xs ==> id !in ys
  {
    if a * b == {} {
      forall id | id in xs ensures id !in ys { assert id in a && id !in a * b; }
    }
  }

  lemma ActiveIff(scope: Scope, full: Full)
    ensures ActiveFits(scope, full) <==> ActiveAcceptable(scope, full)
  {
    SameSetIff(scope.activeIds, full.universeIds, ToSet(scope.activeIds), ToSet(full.universeIds));
    DisjointIff(scope.activeIds, scope.quarantinedIds, ToSet(scope.activeIds), ToSet(scope.quarantinedIds));
  }

  lemma RevisionsIff(markets: seq<Market>)
    ensures BadRevisionsOf(markets) == [] <==> forall m :: m in markets ==> IsSha256(m.revision)
  {
    NoBadFacts(markets);
    forall m: Market ensures Digest(m.revision) <==> IsSha256(m.revision) { DigestIsSha256(m.revision); }
  }

  /** The tests of the header, the scope's counts and the document's facts. */
  ghost predicate HeadAcceptable(scope: Scope, full: Full) {
    && full.headersMatch && full.unresolvedGaps == 0 && SameCursor(full.cursors)
    && IsSha256(full.catalogRevision) && IsSha256(full.stateDigest)
    && 0 < scope.minimum <= scope.marketCount <= scope.target <= 250
    && scope.tokenCount == 2 * scope.marketCount
    && forall m :: m in full.markets ==> IsSha256(m.revision)
  }

  lemma HeadIff(scope: Scope, full: Full)
    ensures HeadAcceptable(scope, full) <==>
            && full.headersMatch && CountsFit(scope) && BadRevisionsOf(full.markets) == []
            && full.unresolvedGaps == 0 && |CursorSet(full.cursors)| == 1
            && Digest(full.catalogRevision) && Digest(full.stateDigest)
  {
    OneCursorIsSame(full.cursors);
    RevisionsIff(full.markets);
    DigestIsSha256(full.catalogRevision);
    DigestIsSha256(full.stateDigest);
  }

  /** As many markets and books as announced, one book for each token, with equal ticks. */
  ghost predicate BooksAcceptable(scope: Scope, full: Full) {
    && |full.markets| == scope.marketCount && |full.books| == scope.tokenCount
    && OneToOne(TokensOf(full.markets), full.books) && TicksAgree(full.markets, full.books)
  }

  /** All tests of the validator together accept exactly these boundaries. */
  lemma PassesExactlyAcceptable(scope: Scope, full: Full)
    ensures Passes(scope, full) <==>
            HeadAcceptable(scope, full) && ActiveAcceptable(scope, full) && BooksAcceptable(scope, full)
  {
    HeadIff(scope, full);
    ActiveIff(scope, full);
    BooksMatchIsBijection(scope, full);
  }
}
