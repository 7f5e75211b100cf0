/**
  The validator of a live full-sync boundary: counting tests over markets, outcomes and books that together
  say more than each of them (scripts/verify_polymarket_live_stability.py). Payloads are already parsed.
 */
module Boundary {
  import opened Wrappers
  import opened Distinct

  datatype Book = Book(token: string, tick: Option<string>)

  datatype Fee = Fee(revision: string, makerText: bool, takerText: bool, status: string, provenance: bool)

  datatype Market = Market(id: string, increment: Option<string>, revision: string, fee: Fee, outcomes: seq<string>)

  /** The seven cursors that must be one. */
  datatype Cursors = Cursors(
    boundary: Option<int>, projection: Option<int>, generation: Option<int>,
    published: Option<int>, persisted: Option<int>, checkpoint: Option<int>, checkpointPersisted: Option<int>)

  /** A full-sync payload; universeValid stands for the tests of the dynamic universe document. */
  datatype Payload = Payload(
    schema: string, scopeId: string, ready: bool, gaps: int, status: string, relations: nat,
    universeValid: bool, cursors: Cursors, catalogRevision: string, stateDigest: string,
    markets: seq<Market>, books: seq<Book>)

  datatype Report = Report(
    passed: bool, markets: nat, books: nat, tokens: nat,
    missing: seq<string>, mismatches: seq<string>, badRevisions: seq<string>, badFees: seq<string>)

  type Index = map<string, Book>

  // ---------- the tests ----------

  predicate HexDigit(c: char) {
    '0' <= c <= '9' || 'a' <= c <= 'f'
  }

  predicate Digest(s: string) {
    |s| == 64 && forall i :: 0 <= i < |s| ==> HexDigit(s[i])
  }

  predicate FeeFits(fee: Fee) {
    Digest(fee.revision) && fee.makerText && fee.takerText && fee.provenance
    && (fee.status == "executable" || fee.status == "informational_only")
  }

  /** Books by token; a later book replaces an earlier one of the same token. */
  function IndexOf(books: seq<Book>): Index {
    if books == [] then map[]
    else IndexOf(books[..|books| - 1])[books[|books| - 1].token := books[|books| - 1]]
  }

  function TokensOf(markets: seq<Market>): seq<string> {
    if markets == [] then [] else TokensOf(markets[..|markets| - 1]) + markets[|markets| - 1].outcomes
  }

  function MissingIn(outcomes: seq<string>, index: Index): seq<string> {
    if outcomes == [] then []
    else
      var last := outcomes[|outcomes| - 1];
      MissingIn(outcomes[..|outcomes| - 1], index) + if last in index then [] else [last]
  }

  function MismatchIn(increment: Option<string>, outcomes: seq<string>, index: Index): seq<string> {
    if outcomes == [] then []
    else
      var last := outcomes[|outcomes| - 1];
      MismatchIn(increment, outcomes[..|outcomes| - 1], index)
      + if last in index && index[last].tick != increment then [last] else []
  }

  function MissingOf(markets: seq<Market>, index: Index): seq<string> {
    if markets == [] then []
    else
      var last := markets[|markets| - 1];
      MissingOf(markets[..|markets| - 1], index)
      + (if |last.outcomes| != 2 then [last.id] else []) + MissingIn(last.outcomes, index)
  }

  function MismatchOf(markets: seq<Market>, index: Index): seq<string> {
    if markets == [] then []
    else
      var last := markets[|markets| - 1];
      MismatchOf(markets[..|markets| - 1], index) + MismatchIn(last.increment, last.outcomes, index)
  }

  function BadRevisionsOf(markets: seq<Market>): seq<string> {
    if markets == [] then []
    else
      var last := markets[|markets| - 1];
      BadRevisionsOf(markets[..|markets| - 1]) + if Digest(last.revision) then [] else [last.id]
  }

  function BadFeesOf(markets: seq<Market>): seq<string> {
    if markets == [] then []
    else
      var last := markets[|markets| - 1];
      BadFeesOf(markets[..|markets| - 1]) + if FeeFits(last.fee) then [] else [last.id]
  }

  function CursorSet(c: Cursors): set<Option<int>> {
    {c.boundary, c.projection, c.generation, c.published, c.persisted, c.checkpoint, c.checkpointPersisted}
  }

  /** The counting tests over markets, outcomes and books. */
  predicate BooksFit(markets: seq<Market>, books: seq<Book>, count: nat) {
    && |markets| == count && |books| == count * 2 && |ToSet(TokensOf(markets))| == count * 2
    && MismatchOf(markets, IndexOf(books)) == [] && MissingOf(markets, IndexOf(books)) == []
  }

  predicate RestFits(p: Payload, scopeId: string, relations: int) {
    && p.schema == "marketcow.polymarket" + ".live.v4" && p.scopeId == scopeId && p.ready && p.gaps == 0
    && p.status == "ready" && p.relations == relations && p.universeValid
    && BadRevisionsOf(p.markets) == [] && BadFeesOf(p.markets) == []
    && |CursorSet(p.cursors)| == 1 && Digest(p.catalogRevision) && Digest(p.stateDigest)
  }

  // ---------- the program ----------

  method ByToken(books: seq<Book>) returns (index: Index)
    ensures index == IndexOf(books)
  {
    index := map[];
    var k := 0;
    while k < |books|
      invariant 0 <= k <= |books| && index == IndexOf(books[..k])
    {
      assert books[..k + 1][..k] == books[..k];
      index := index[books[k].token := books[k]];
      k := k + 1;
    }
    assert books[..k] == books;
  }

  method CheckOutcomes(m: Market, index: Index) returns (missing: seq<string>, mismatches: seq<string>)
    ensures missing == MissingIn(m.outcomes, index) && mismatches == MismatchIn(m.increment, m.outcomes, index)
  {
    missing, mismatches := [], [];
    var k := 0;
    while k < |m.outcomes|
      invariant 0 <= k <= |m.outcomes|
      invariant missing == MissingIn(m.outcomes[..k], index)
      invariant mismatches == MismatchIn(m.increment, m.outcomes[..k], index)
    {
      assert m.outcomes[..k + 1][..k] == m.outcomes[..k];
      var token := m.outcomes[k];
      if token !in index {
        missing := missing + [token];
      } else if m.increment != index[token].tick {
        mismatches := mismatches + [token];
      }
      k := k + 1;
    }
    assert m.outcomes[..k] == m.outcomes;
  }

  method CheckMarkets(markets: seq<Market>, index: Index)
    returns (tokens: seq<string>, missing: seq<string>, mismatches: seq<string>, badRevisions: seq<string>,
             badFees: seq<string>)
    ensures tokens == TokensOf(markets) && missing == MissingOf(markets, index)
        && mismatches == MismatchOf(markets, index)
    ensures badRevisions == BadRevisionsOf(markets) && badFees == BadFeesOf(markets)
  {
    tokens, missing, mismatches, badRevisions, badFees := [], [], [], [], [];
    var k := 0;
    while k < |markets|
      invariant 0 <= k <= |markets|
      invariant tokens == TokensOf(markets[..k])
      invariant missing == MissingOf(markets[..k], index)
      invariant mismatches == MismatchOf(markets[..k], index)
      invariant badRevisions == BadRevisionsOf(markets[..k]) && badFees == BadFeesOf(markets[..k])
    {
      var m := markets[k];
      assert markets[..k + 1][..k] == markets[..k];
      if !Digest(m.revision) {
        badRevisions := badRevisions + [m.id];
      }
      if !FeeFits(m.fee) {
        badFees := badFees + [m.id];
      }
      if |m.outcomes| != 2 {
        missing := missing + [m.id];
      }
      var absent, different := CheckOutcomes(m, index);
      tokens, missing, mismatches := tokens + m.outcomes, missing + absent, mismatches + different;
      k := k + 1;
    }
    assert markets[..k] == markets;
  }

  method Validate(p: Payload, scopeId: string, count: nat, relations: int) returns (r: Report)
    ensures r.passed <==> BooksFit(p.markets, p.books, count) && RestFits(p, scopeId, relations)
    ensures r.markets == |p.markets| && r.books == |p.books| && r.tokens == |ToSet(TokensOf(p.markets))|
    ensures r.missing == MissingOf(p.markets, IndexOf(p.books))
    ensures r.mismatches == MismatchOf(p.markets, IndexOf(p.books))
    ensures r.badRevisions == BadRevisionsOf(p.markets) && r.badFees == BadFeesOf(p.markets)
  {
    var index := ByToken(p.books);
    var tokens, missing, mismatches, badRevisions, badFees := CheckMarkets(p.markets, index);
    var passed :=
      && p.schema == "marketcow.polymarket" + ".live.v4"
      && p.scopeId == scopeId
      && p.ready
      && p.gaps == 0
      && p.status == "ready"
      && |p.markets| == count
      && |p.books| == count * 2
      && |ToSet(tokens)| == count * 2
      && p.relations == relations
      && mismatches == []
      && missing == []
      && badRevisions == []
      && badFees == []
      && p.universeValid
      && |CursorSet(p.cursors)| == 1
      && Digest(p.catalogRevision)
      && Digest(p.stateDigest);
    r := Report(passed, |p.markets|, |p.books|, |ToSet(tokens)|, missing, mismatches, badRevisions, badFees);
  }

  // ---------- what passing means ----------

  function BookTokens(books: seq<Book>): seq<string> {
    seq(|books|, i requires 0 <= i < |books| => books[i].token)
  }

  /** Every book is the one of exactly one outcome token, and every outcome token has exactly one book. */
  ghost predicate OneToOne(tokens: seq<string>, books: seq<Book>) {
    NoDuplicates(BookTokens(books)) && ToSet(BookTokens(books)) == ToSet(tokens)
  }

  /** Wherever a market's outcome has a book, the book's tick is the market's increment. */
  ghost predicate TicksAgree(markets: seq<Market>, books: seq<Book>) {
    forall m, b :: m in markets && b in books && b.token in m.outcomes ==> b.tick == m.increment
  }

  ghost predicate TwoOutcomes(markets: seq<Market>) {
    forall m :: m in markets ==> |m.outcomes| == 2
  }

  lemma {:induction false} IndexedBook(books: seq<Book>, token: string)
    ensures token in IndexOf(books) <==> token in BookTokens(books)
    ensures token in IndexOf(books) ==> IndexOf(books)[token] in books && IndexOf(books)[token].token == token
  {
    if books != [] {
      var head, last := books[..|books| - 1], books[|books| - 1];
      IndexedBook(head, token);
      assert books == head + [last];
      assert BookTokens(books) == BookTokens(head) + [last.token];
    }
  }

  /** Without repeated tokens the index holds every book. */
  lemma DistinctBookIsIndexed(books: seq<Book>, b: Book)
    requires NoDuplicates(BookTokens(books)) && b in books
    ensures b.token in IndexOf(books) && IndexOf(books)[b.token] == b
  {
    var i: nat :| i < |books| && books[i] == b;
    assert BookTokens(books)[i] == b.token;
    IndexedBook(books, b.token);
    var j: nat :| j < |books| && books[j] == IndexOf(books)[b.token];
    assert BookTokens(books)[j] == b.token;
  }

  lemma {:induction false} TokenOfMarket(markets: seq<Market>, token: string)
    ensures token in TokensOf(markets) <==> exists m :: m in markets && token in m.outcomes
  {
    if markets != [] {
      var head, last := markets[..|markets| - 1], markets[|markets| - 1];
      TokenOfMarket(head, token);
      assert markets == head + [last];
    }
  }

  lemma {:induction false} NoneMissingIn(outcomes: seq<string>, index: Index)
    ensures MissingIn(outcomes, index) == [] <==> forall t :: t in outcomes ==> t in index
  {
    if outcomes != [] {
      var head, last := outcomes[..|outcomes| - 1], outcomes[|outcomes| - 1];
      NoneMissingIn(head, index);
      assert outcomes == head + [last];
    }
  }

  lemma {:induction false} NoneMismatchIn(increment: Option<string>, outcomes: seq<string>, index: Index)
    ensures MismatchIn(increment, outcomes, index) == [] <==>
            forall t :: t in outcomes && t in index ==> index[t].tick == increment
  {
    if outcomes != [] {
      var head, last := outcomes[..|outcomes| - 1], outcomes[|outcomes| - 1];
      NoneMismatchIn(increment, head, index);
      assert outcomes == head + [last];
    }
  }

  predicate Complete(m: Market, index: Index) {
    |m.outcomes| == 2 && MissingIn(m.outcomes, index) == []
  }

  lemma {:induction false} AllComplete(markets: seq<Market>, index: Index)
    ensures MissingOf(markets, index) == [] <==> forall m :: m in markets ==> Complete(m, index)
  {
    if markets != [] {
      var head, last := markets[..|markets| - 1], markets[|markets| - 1];
      AllComplete(head, index);
      assert forall m :: m in markets <==> m in head || m == last;
      var faults := if |last.outcomes| != 2 then [last.id] else [];
      assert MissingOf(markets, index) == MissingOf(head, index) + faults + MissingIn(last.outcomes, index);
      assert Complete(last, index) <==> faults == [] && MissingIn(last.outcomes, index) == [];
    }
  }

  lemma NoneMissing(markets: seq<Market>, index: Index)
    ensures MissingOf(markets, index) == [] <==>
            TwoOutcomes(markets) && forall t :: t in TokensOf(markets) ==> t in index
  {
    AllComplete(markets, index);
    forall m
      ensures Complete(m, index) <==> |m.outcomes| == 2 && forall t :: t in m.outcomes ==> t in index
    {
      NoneMissingIn(m.outcomes, index);
    }
    forall t
      ensures t in TokensOf(markets) <==> exists m :: m in markets && t in m.outcomes
    {
      TokenOfMarket(markets, t);
    }
  }

  lemma {:induction false} NoneMismatched(markets: seq<Market>, index: Index)
    ensures MismatchOf(markets, index) == [] <==>
            forall m, t :: m in markets && t in m.outcomes && t in index ==> index[t].tick == m.increment
  {
    if markets != [] {
      var head, last := markets[..|markets| - 1], markets[|markets| - 1];
      NoneMismatched(head, index);
      NoneMismatchIn(last.increment, last.outcomes, index);
      assert markets == head + [last];
    }
  }

  lemma {:induction false} TwoEach(markets: seq<Market>)
    requires TwoOutcomes(markets)
    ensures |TokensOf(markets)| == 2 * |markets|
  {
    if markets != [] {
      var head, last := markets[..|markets| - 1], markets[|markets| - 1];
      assert markets == head + [last];
      assert last in markets && forall m :: m in head ==> m in markets;
      TwoEach(head);
    }
  }

  lemma SubsetOfSameSize<T>(small: set<T>, large: set<T>)
    requires small <= large && |small| >= |large|
    ensures small == large
  {
    assert small + (large - small) == large;
  }

  /** As many distinct tokens as books, each with a book, leaves no room for a second book of any token. */
  lemma Pigeonhole(tokens: seq<string>, books: seq<Book>)
    requires forall t :: t in tokens ==> t in IndexOf(books)
    requires |ToSet(tokens)| == |books|
    ensures OneToOne(tokens, books)
  {
    var names := BookTokens(books);
    forall t | t in tokens
      ensures t in names
    {
      IndexedBook(books, t);
    }
    assert ToSet(tokens) <= ToSet(names);
    assert |ToSet(names)| <= |names| == |books|;
    SubsetOfSameSize(ToSet(tokens), ToSet(names));
    SizeTestFindsDuplicates(names);
  }

  lemma TicksThroughIndex(markets: seq<Market>, books: seq<Book>)
    requires NoDuplicates(BookTokens(books))
    ensures TicksAgree(markets, books) <==> MismatchOf(markets, IndexOf(books)) == []
  {
    var index := IndexOf(books);
    NoneMismatched(markets, index);
    forall b | b in books
      ensures b.token in index && index[b.token] == b
    {
      DistinctBookIsIndexed(books, b);
    }
    forall t | t in index
      ensures index[t] in books && index[t].token == t
    {
      IndexedBook(books, t);
    }
  }

  /**
    The counting tests hold exactly when all markets have two outcomes, no token is used twice, books and outcome
    tokens correspond one to one, and their ticks agree; no test compares two books.
   */
  lemma BooksFitIsBijection(markets: seq<Market>, books: seq<Book>, count: nat)
    ensures BooksFit(markets, books, count) <==>
            && |markets| == count && TwoOutcomes(markets) && NoDuplicates(TokensOf(markets))
            && OneToOne(TokensOf(markets), books) && TicksAgree(markets, books)
  {
    var tokens := TokensOf(markets);
    NoneMissing(markets, IndexOf(books));
    SizeTestFindsDuplicates(tokens);
    if |markets| == count && TwoOutcomes(markets) {
      TwoEach(markets);
      if BooksFit(markets, books, count) {
        Pigeonhole(tokens, books);
        TicksThroughIndex(markets, books);
      } else if NoDuplicates(tokens) && OneToOne(tokens, books) {
        OneToOneCounts(tokens, books);
        TicksThroughIndex(markets, books);
      }
    }
  }

  lemma OneToOneCounts(tokens: seq<string>, books: seq<Book>)
    requires OneToOne(tokens, books)
    ensures |ToSet(tokens)| == |books| && forall t :: t in tokens ==> t in IndexOf(books)
  {
    SizeTestFindsDuplicates(BookTokens(books));
    forall t | t in tokens
      ensures t in IndexOf(books)
    {
      assert t in ToSet(tokens);
      IndexedBook(books, t);
    }
  }

  /** All seven cursors of a boundary that passes are the boundary cursor. */
  lemma OneCursor(c: Cursors)
    ensures |CursorSet(c)| == 1 <==> forall v :: v in CursorSet(c) ==> v == c.boundary
  {
    if |CursorSet(c)| == 1 {
      SubsetOfSameSize({c.boundary}, CursorSet(c));
    }
    assert (forall v :: v in CursorSet(c) ==> v == c.boundary) ==> CursorSet(c) == {c.boundary};
  }

  /** The two lists of bad facts are empty exactly when every market's facts are well formed. */
  lemma {:induction false} NoBadFacts(markets: seq<Market>)
    ensures BadRevisionsOf(markets) == [] <==> forall m :: m in markets ==> Digest(m.revision)
    ensures BadFeesOf(markets) == [] <==> forall m :: m in markets ==> FeeFits(m.fee)
  {
    if markets != [] {
      var head, last := markets[..|markets| - 1], markets[|markets| - 1];
      NoBadFacts(head);
      assert markets == head + [last];
    }
  }

  /** 64 lower-case hexadecimal digits. */
  ghost predicate IsSha256(s: string) {
    |s| == 64 && forall c :: c in s ==> c in "0123456789abcdef"
  }

  lemma DigestIsSha256(s: string)
    ensures Digest(s) <==> IsSha256(s)
  {
    if Digest(s) {
      forall c | c in s ensures c in "0123456789abcdef" {
        var i :| 0 <= i < |s| && s[i] == c;
        assert HexDigit(s[i]);
        HexDigits(c);
      }
    }
    if IsSha256(s) {
      forall i | 0 <= i < |s| ensures HexDigit(s[i]) {
        assert s[i] in s;
        HexDigits(s[i]);
      }
    }
  }

  lemma HexDigits(c: char)
    ensures HexDigit(c) <==> c in "0123456789abcdef"
  {
    var digits := "0123456789abcdef";
    if '0' <= c <= '9' { assert digits[c as int - '0' as int] == c; }
    if 'a' <= c <= 'f' { assert digits[10 + c as int - 'a' as int] == c; }
  }

  /** The facts of a market that a reader relies on. */
  ghost predicate SoundMarket(m: Market) {
    && |m.outcomes| == 2 && IsSha256(m.revision) && IsSha256(m.fee.revision)
    && m.fee.makerText && m.fee.takerText && m.fee.provenance
    && (m.fee.status == "executable" || m.fee.status == "informational_only")
  }

  ghost predicate SameCursor(c: Cursors) {
    c.boundary == c.projection == c.generation == c.published == c.persisted == c.checkpoint == c.checkpointPersisted
  }

  /** A boundary fit for use: ready, complete, at one cursor, with sound markets and one book for each token. */
  ghost predicate Sound(p: Payload, scopeId: string, count: nat, relations: int) {
    && p.ready && p.gaps == 0 && p.status == "ready" && p.scopeId == scopeId && p.relations == relations
    && p.schema == "marketcow.polymarket" + ".live.v4" && p.universeValid
    && SameCursor(p.cursors) && IsSha256(p.catalogRevision) && IsSha256(p.stateDigest)
    && |p.markets| == count && (forall m :: m in p.markets ==> SoundMarket(m))
    && NoDuplicates(TokensOf(p.markets)) && OneToOne(TokensOf(p.markets), p.books) && TicksAgree(p.markets, p.books)
  }

  lemma OneCursorIsSame(c: Cursors)
    ensures |CursorSet(c)| == 1 <==> SameCursor(c)
  {
    OneCursor(c);
  }

  lemma FactsAreSound(markets: seq<Market>)
    ensures BadRevisionsOf(markets) == [] && BadFeesOf(markets) == [] && TwoOutcomes(markets) <==>
            forall m :: m in markets ==> SoundMarket(m)
  {
    NoBadFacts(markets);
    forall m: Market ensures Digest(m.revision) <==> IsSha256(m.revision) { DigestIsSha256(m.revision); }
    forall m: Market ensures Digest(m.fee.revision) <==> IsSha256(m.fee.revision) { DigestIsSha256(m.fee.revision); }
  }

  /** All tests of the validator together accept exactly the sound boundaries. */
  lemma AcceptsExactlySound(p: Payload, scopeId: string, count: nat, relations: int)
    ensures BooksFit(p.markets, p.books, count) && RestFits(p, scopeId, relations) <==>
            Sound(p, scopeId, count, relations)
  {
    BooksFitIsBijection(p.markets, p.books, count);
    OneCursorIsSame(p.cursors);
    FactsAreSound(p.markets);
    DigestIsSha256(p.catalogRevision);
    DigestIsSha256(p.stateDigest);
  }
}
