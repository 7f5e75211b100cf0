/**
  What deduplication reports as reclaimed: never less than the bytes it releases, and exactly those if and only
  if each replaced file had no other path.
 */
module DeduplicationSaving {
  import opened Wrappers
  import opened Deduplication
  import opened DeduplicationSafety

  function InUse(links: Links): set<Inode> {
    set p | p in links :: links[p]
  }

  ghost function Blocks(disk: Disk, inodes: set<Inode>): nat
    decreases |inodes|
  {
    if inodes == {} then 0
    else
      var i :| i in inodes;
      disk(i).blocks + Blocks(disk, inodes - {i})
  }

  lemma {:induction false} BlocksWithout(disk: Disk, inodes: set<Inode>, i: Inode)
    requires i in inodes
    ensures Blocks(disk, inodes) == disk(i).blocks + Blocks(disk, inodes - {i})
    decreases |inodes|
  {
    var j :| j in inodes && Blocks(disk, inodes) == disk(j).blocks + Blocks(disk, inodes - {j});
    if j != i {
      BlocksWithout(disk, inodes - {j}, i);
      BlocksWithout(disk, inodes - {i}, j);
      assert inodes - {j} - {i} == inodes - {i} - {j};
    }
  }

  /** The bytes allocated to files that still have a link. */
  ghost function Allocated(disk: Disk, links: Links): nat {
    Blocks(disk, InUse(links)) * 512
  }

  /** What a relink counts as saved although another link still holds the old inode. */
  ghost function OverstatedOne(disk: Disk, links: Links, source: Path, p: Path): nat {
    var one := RelinkOne(disk, links, source, p);
    if one.error.None? && p in links && links[p] in InUse(one.links) then one.saved else 0
  }

  ghost function OverstatedAll(disk: Disk, links: Links, source: Path, paths: seq<Path>): nat
    decreases |paths|
  {
    if paths == [] then 0
    else
      var one := RelinkOne(disk, links, source, paths[0]);
      OverstatedOne(disk, links, source, paths[0])
      + if one.error.Some? then 0 else OverstatedAll(disk, one.links, source, paths[1..])
  }

  ghost function Overstated(disk: Disk, checks: Checks, links: Links, groups: seq<Group>): nat
    decreases |groups|
  {
    if groups == [] then 0
    else
      var paths := groups[0].paths;
      var one := ShareGroup(disk, checks, links, paths);
      (if GroupError(disk, checks, links, paths).Some? || paths == [] then 0
       else OverstatedAll(disk, links, paths[0], paths[1..]))
      + if one.error.Some? then 0 else Overstated(disk, checks, one.links, groups[1..])
  }

  lemma InUseAfterRelink(links: Links, source: Path, p: Path)
    requires source in links && p in links && links[p] != links[source]
    ensures InUse(links[p := links[source]]) == InUse(links)
         || InUse(links[p := links[source]]) == InUse(links) - {links[p]}
  {
    var after := links[p := links[source]];
    forall i | i in InUse(after)
      ensures i in InUse(links)
    {
      var q :| q in after && after[q] == i;
    }
    forall i | i in InUse(links) && i != links[p]
      ensures i in InUse(after)
    {
      var q :| q in links && links[q] == i;
      assert q in after && after[q] == i;
    }
  }

  lemma RelinkOneAccounts(disk: Disk, links: Links, source: Path, p: Path)
    ensures var one := RelinkOne(disk, links, source, p);
            Allocated(disk, links) + OverstatedOne(disk, links, source, p) == Allocated(disk, one.links) + one.saved
  {
    var one := RelinkOne(disk, links, source, p);
    if one.links != links {
      InUseAfterRelink(links, source, p);
      assert links[p] in InUse(links);
      BlocksWithout(disk, InUse(links), links[p]);
    } else if one.error.None? {
      assert p in links && links[source] == links[p];
    }
  }

  lemma {:induction false} RelinkAllAccounts(disk: Disk, links: Links, source: Path, paths: seq<Path>)
    ensures var run := RelinkAll(disk, links, source, paths);
            Allocated(disk, links) + OverstatedAll(disk, links, source, paths) == Allocated(disk, run.links) + run.saved
    decreases |paths|
  {
    if paths != [] {
      RelinkOneAccounts(disk, links, source, paths[0]);
      var one := RelinkOne(disk, links, source, paths[0]);
      if one.error.None? {
        RelinkAllAccounts(disk, one.links, source, paths[1..]);
      }
    }
  }

  lemma {:induction false} ShareAllAccounts(disk: Disk, checks: Checks, links: Links, groups: seq<Group>)
    ensures var run := ShareAll(disk, checks, links, groups);
            Allocated(disk, links) + Overstated(disk, checks, links, groups) == Allocated(disk, run.links) + run.saved
    decreases |groups|
  {
    if groups != [] {
      var paths := groups[0].paths;
      if GroupError(disk, checks, links, paths).None? && paths != [] {
        RelinkAllAccounts(disk, links, paths[0], paths[1..]);
      }
      var one := ShareGroup(disk, checks, links, paths);
      if one.error.None? {
        ShareAllAccounts(disk, checks, one.links, groups[1..]);
      }
    }
  }

  /** However a run ends, the report is never less than the bytes really released. */
  lemma SavingCoversReleased(disk: Disk, checks: Checks, links: Links, entries: seq<Entry>)
    ensures var run := Deduplicated(disk, checks, links, entries);
            run.saved >= Allocated(disk, links) - Allocated(disk, run.links)
  {
    ShareAllAccounts(disk, checks, links, Grouped(PathsOf(entries)));
  }

  // ---------- exactly when the report is right ----------

  /** Relinking the path adds to the report. */
  predicate Counted(disk: Disk, links: Links, source: Path, p: Path) {
    source in links && p in links && links[p] != links[source] && disk(links[p]).blocks > 0
  }

  /** No other path is on the same inode. */
  ghost predicate SoleLink(links: Links, p: Path) {
    p in links && forall q :: q in links && q != p ==> links[q] != links[p]
  }

  ghost predicate SoleIfCounted(disk: Disk, links: Links, source: Path, p: Path) {
    Counted(disk, links, source, p) ==> SoleLink(links, p)
  }

  ghost predicate AllSole(disk: Disk, links: Links, source: Path, paths: seq<Path>) {
    forall p :: p in paths ==> SoleIfCounted(disk, links, source, p)
  }

  lemma OneIsExact(disk: Disk, links: Links, source: Path, p: Path)
    requires RelinkOne(disk, links, source, p).error.None?
    ensures OverstatedOne(disk, links, source, p) == 0 <==> SoleIfCounted(disk, links, source, p)
  {
    var after := RelinkOne(disk, links, source, p).links;
    if links[p] != links[source] {
      if SoleLink(links, p) {
        assert forall q :: q in after ==> after[q] != links[p];
      } else {
        var q :| q in links && q != p && links[q] == links[p];
        assert q in after && after[q] == links[p];
      }
    }
  }

  /** After an exact relink, what the other members need is what they needed before. */
  lemma ExactRelinkKeepsOthers(disk: Disk, links: Links, source: Path, p: Path, q: Path)
    requires RelinkOne(disk, links, source, p).error.None? && SoleIfCounted(disk, links, source, p)
    ensures var after := RelinkOne(disk, links, source, p).links;
            SoleIfCounted(disk, after, source, q) <==> SoleIfCounted(disk, links, source, q)
  {
    var after := RelinkOne(disk, links, source, p).links;
    if q != p && Counted(disk, links, source, q) {
      assert after[q] == links[q] && after[source] == links[source];
      if !SoleLink(links, q) {
        var r :| r in links && r != q && links[r] == links[q];
        assert SoleLink(links, p) || !Counted(disk, links, source, p);
        assert r != p;
        assert r in after && after[r] == links[r];
      }
    }
  }

  lemma {:induction false} RelinkAllIsExact(disk: Disk, links: Links, source: Path, paths: seq<Path>)
    requires RelinkAll(disk, links, source, paths).error.None?
    ensures OverstatedAll(disk, links, source, paths) == 0 <==> AllSole(disk, links, source, paths)
    decreases |paths|
  {
    if paths != [] {
      var p, rest := paths[0], paths[1..];
      assert forall q :: q in paths <==> q == p || q in rest;
      var one := RelinkOne(disk, links, source, p);
      OneIsExact(disk, links, source, p);
      RelinkAllIsExact(disk, one.links, source, rest);
      if SoleIfCounted(disk, links, source, p) {
        forall q
          ensures SoleIfCounted(disk, one.links, source, q) <==> SoleIfCounted(disk, links, source, q)
        {
          ExactRelinkKeepsOthers(disk, links, source, p, q);
        }
      }
    }
  }

  lemma GroupIsExact(disk: Disk, checks: Checks, links: Links, paths: seq<Path>)
    requires paths != [] && ShareGroup(disk, checks, links, paths).error.None?
    ensures OverstatedAll(disk, links, paths[0], paths[1..]) == 0 <==> AllSole(disk, links, paths[0], paths)
  {
    RelinkAllIsExact(disk, links, paths[0], paths[1..]);
    assert forall q :: q in paths <==> q == paths[0] || q in paths[1..];
  }

  /** An exactly counted group neither gives a path of another group a companion nor takes one away. */
  lemma ExactGroupKeepsSole(disk: Disk, links: Links, mid: Links, paths: seq<Path>, p: Path)
    requires paths != [] && GroupMoved(links, mid, paths) && AllSole(disk, links, paths[0], paths)
    requires p in links && p !in paths && disk(links[p]).blocks > 0
    ensures SoleLink(mid, p) <==> SoleLink(links, p)
  {
    assert mid[p] == links[p] && paths[0] in paths;
    if !SoleLink(links, p) {
      var q :| q in links && q != p && links[q] == links[p];
      assert mid[q] == links[q] by {
        if mid[q] != links[q] { assert q in paths && !SoleLink(links, q) && Counted(disk, links, paths[0], q); }
      }
    }
    if !SoleLink(mid, p) {
      var q :| q in mid && q != p && mid[q] == mid[p];
      assert links[q] == links[p] || (paths[0] in links && links[paths[0]] == links[p]);
    }
  }

  lemma OtherGroupSole(disk: Disk, links: Links, mid: Links, first: Group, other: Group)
    requires first.paths != [] && other.paths != [] && forall p :: p in other.paths ==> p !in first.paths
    requires GroupMoved(links, mid, first.paths) && AllSole(disk, links, first.paths[0], first.paths)
    ensures AllSole(disk, links, other.paths[0], other.paths) <==> AllSole(disk, mid, other.paths[0], other.paths)
  {
    var source := other.paths[0];
    assert source in other.paths;
    forall p | p in other.paths
      ensures SoleIfCounted(disk, links, source, p) <==> SoleIfCounted(disk, mid, source, p)
    {
      if Counted(disk, links, source, p) { ExactGroupKeepsSole(disk, links, mid, first.paths, p); }
    }
  }

  ghost predicate GroupsSole(disk: Disk, links: Links, groups: seq<Group>) {
    forall g :: g in groups && g.paths != [] ==> AllSole(disk, links, g.paths[0], g.paths)
  }

  lemma {:induction false} ShareAllIsExact(disk: Disk, checks: Checks, links: Links, groups: seq<Group>)
    requires WellKeyed(groups) && ShareAll(disk, checks, links, groups).error.None?
    ensures Overstated(disk, checks, links, groups) == 0 <==> GroupsSole(disk, links, groups)
    decreases |groups|
  {
    if groups != [] {
      var first, rest := groups[0], groups[1..];
      assert first in groups;
      assert WellKeyed(rest) by { assert forall g :: g in rest ==> g in groups; }
      var mid := ShareGroup(disk, checks, links, first.paths).links;
      GroupIsExact(disk, checks, links, first.paths);
      ShareAllIsExact(disk, checks, mid, rest);
      if AllSole(disk, links, first.paths[0], first.paths) {
        ShareGroupMoves(disk, checks, links, first.paths);
        RestIsSole(disk, links, mid, groups);
      }
    }
  }

  lemma RestIsSole(disk: Disk, links: Links, mid: Links, groups: seq<Group>)
    requires WellKeyed(groups) && groups != [] && groups[0] in groups
    requires GroupMoved(links, mid, groups[0].paths) && AllSole(disk, links, groups[0].paths[0], groups[0].paths)
    ensures GroupsSole(disk, mid, groups[1..]) <==> GroupsSole(disk, links, groups)
  {
    forall g | g in groups[1..]
      ensures g.paths != []
      ensures AllSole(disk, links, g.paths[0], g.paths) <==> AllSole(disk, mid, g.paths[0], g.paths)
    {
      OtherKey(groups, g);
      OtherGroupSole(disk, links, mid, groups[0], g);
    }
    assert forall g :: g in groups <==> g == groups[0] || g in groups[1..];
  }

  /** Every listed file that is replaced and occupies blocks has no other path anywhere. */
  ghost predicate ReplacedAreSole(disk: Disk, links: Links, listing: seq<Path>) {
    forall p :: p in listing ==> SoleIfCounted(disk, links, SourceOf(listing, p), p)
  }

  lemma SolePerGroup(disk: Disk, links: Links, groups: seq<Group>, listing: seq<Path>)
    requires Partition(groups, listing)
    ensures GroupsSole(disk, links, groups) <==> ReplacedAreSole(disk, links, listing)
  {
    PartitionIsWellKeyed(groups, listing);
    if GroupsSole(disk, links, groups) {
      forall p | p in listing
        ensures SoleIfCounted(disk, links, SourceOf(listing, p), p)
      {
        assert Listed(groups, p);
        var g :| g in groups && p in g.paths;
        assert AllSole(disk, links, g.paths[0], g.paths);
      }
    }
  }

  /** A run that ends normally reports exactly the released bytes if and only if each replaced file had one path. */
  lemma SavingIsExactIff(disk: Disk, checks: Checks, links: Links, entries: seq<Entry>)
    requires Deduplicated(disk, checks, links, entries).error.None?
    ensures var run := Deduplicated(disk, checks, links, entries);
            run.saved == Allocated(disk, links) - Allocated(disk, run.links)
            <==> ReplacedAreSole(disk, links, PathsOf(entries))
  {
    var groups := Grouped(PathsOf(entries));
    GroupedIsPartition(PathsOf(entries));
    PartitionIsWellKeyed(groups, PathsOf(entries));
    ShareAllAccounts(disk, checks, links, groups);
    ShareAllIsExact(disk, checks, links, groups);
    SolePerGroup(disk, links, groups, PathsOf(entries));
  }

  // ---------- a run that overstates ----------

  const KEPT := Path("one", "catalogs", "x.jsonl")
  const REPLACED := Path("two", "catalogs", "x.jsonl")
  const UNLISTED := Path("three", "other", "x.jsonl")

  /** Two copies of one empty file, one block each; the second copy has another path that is not listed. */
  function TwoCopies(): Links {
    map[KEPT := 0, REPLACED := 1, UNLISTED := 1]
  }

  function OneBlockEach(): Disk {
    (i: Inode) => File([], 1, 0)
  }

  lemma SourceOfPair(a: Path, b: Path)
    requires KeyOf(a) == KeyOf(b)
    ensures SourceOf([a, b], a) == SourceOf([a, b], b) == a
  {
    assert [a, b][..1] == [a] && [a][..0] == [];
    assert Matching([a], KeyOf(a)) == [a];
    assert Matching([a, b], KeyOf(a)) == [a, b];
  }

  lemma CopiesFit(checks: Checks)
    requires checks.changed == {}
    ensures Fits(OneBlockEach(), checks, TwoCopies(), [KEPT, REPLACED])
  {
    SourceOfPair(KEPT, REPLACED);
    assert |PendingName(KEPT).name| == |PendingName(REPLACED).name| > |"x.jsonl"|;
    assert PendingName(REPLACED) !in TwoCopies();
    assert MemberFits(OneBlockEach(), checks, TwoCopies(), KEPT, KEPT);
    assert MemberFits(OneBlockEach(), checks, TwoCopies(), KEPT, REPLACED);
  }

  /** The run over both copies ends normally and reports more than it releases, whatever the digest function. */
  lemma OverstatingRun(checks: Checks)
    requires checks.changed == {}
    ensures var run := Deduplicated(OneBlockEach(), checks, TwoCopies(), [Entry(KEPT, true), Entry(REPLACED, true)]);
            && run.error.None?
            && run.saved > Allocated(OneBlockEach(), TwoCopies()) - Allocated(OneBlockEach(), run.links)
  {
    var entries := [Entry(KEPT, true), Entry(REPLACED, true)];
    assert PathsOf(entries) == [KEPT, REPLACED];
    CopiesFit(checks);
    RunSharesListing(OneBlockEach(), checks, TwoCopies(), entries);
    SavingCoversReleased(OneBlockEach(), checks, TwoCopies(), entries);
    SavingIsExactIff(OneBlockEach(), checks, TwoCopies(), entries);
    SourceOfPair(KEPT, REPLACED);
    ReplacedIsNotSole();
    assert REPLACED in [KEPT, REPLACED];
  }

  lemma ReplacedIsNotSole()
    ensures !SoleIfCounted(OneBlockEach(), TwoCopies(), KEPT, REPLACED)
  {
    assert UNLISTED in TwoCopies() && UNLISTED != REPLACED;
  }
}
