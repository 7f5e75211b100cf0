/**
  What deduplication preserves: every path keeps its bytes, every group ends on one inode, no temporary
  remains, and the reported saving accounts for the released blocks.
 */
module DeduplicationSafety {
  import opened Wrappers
  import opened Deduplication

  // ---------- one group ----------

  /** What a relink needs, tested before the run. */
  predicate CanLink(disk: Disk, links: Links, source: Path, p: Path) {
    && source in links && p in links
    && (links[p] == links[source]
        || (&& disk(links[p]).device == disk(links[source]).device
            && Path(p.root, p.directory, p.name + ".dedup" + "-pending") !in links))
  }

  predicate AllLink(disk: Disk, links: Links, source: Path, paths: seq<Path>) {
    forall p :: p in paths ==> CanLink(disk, links, source, p)
  }

  /** Each path is where it was or on the source's inode, and no path appears or disappears. */
  ghost predicate MovedOnto(links: Links, after: Links, source: Path, paths: seq<Path>) {
    && source in links && after.Keys == links.Keys
    && after[source] == links[source]
    && (forall p :: p in links && p !in paths ==> after[p] == links[p])
    && (forall p :: p in links && p in paths ==> after[p] == links[p] || after[p] == links[source])
  }

  lemma AllLinkAfterOne(disk: Disk, links: Links, source: Path, paths: seq<Path>)
    requires paths != [] && source in links && RelinkOne(disk, links, source, paths[0]).error.None?
    ensures MovedOnto(links, RelinkOne(disk, links, source, paths[0]).links, source, [paths[0]])
    ensures AllLink(disk, links, source, paths)
       <==> AllLink(disk, RelinkOne(disk, links, source, paths[0]).links, source, paths[1..])
  {
    var after := RelinkOne(disk, links, source, paths[0]).links;
    assert paths == [paths[0]] + paths[1..];
    assert CanLink(disk, links, source, paths[0]);
    forall p | p != paths[0]
      ensures CanLink(disk, links, source, p) <==> CanLink(disk, after, source, p)
    {
    }
    assert CanLink(disk, after, source, paths[0]);
  }

  /** A group is relinked exactly when each of its members can be, and then all of them are. */
  lemma {:induction false} RelinkAllMoves(disk: Disk, links: Links, source: Path, paths: seq<Path>)
    requires source in links
    ensures var run := RelinkAll(disk, links, source, paths);
            && MovedOnto(links, run.links, source, paths)
            && (run.error.None? <==> AllLink(disk, links, source, paths))
            && (run.error.None? ==> forall p :: p in paths ==> p in links && run.links[p] == links[source])
    decreases |paths|
  {
    if paths != [] {
      var one := RelinkOne(disk, links, source, paths[0]);
      if one.error.Some? {
        assert paths[0] in paths && !CanLink(disk, links, source, paths[0]);
      } else {
        AllLinkAfterOne(disk, links, source, paths);
        RelinkAllMoves(disk, one.links, source, paths[1..]);
        MovedInTurn(links, one.links, RelinkAll(disk, one.links, source, paths[1..]).links, source, paths);
        FirstStays(disk, links, source, paths);
      }
    }
  }

  lemma MovedInTurn(links: Links, mid: Links, after: Links, source: Path, paths: seq<Path>)
    requires paths != [] && MovedOnto(links, mid, source, [paths[0]]) && MovedOnto(mid, after, source, paths[1..])
    ensures MovedOnto(links, after, source, paths)
  {
    assert paths == [paths[0]] + paths[1..];
    forall p | p in links && p !in paths
      ensures after[p] == links[p]
    {
      assert p !in paths[1..] && p !in [paths[0]];
    }
    forall p | p in links && p in paths
      ensures after[p] == links[p] || after[p] == links[source]
    {
      assert p in mid;
      assert mid[p] == links[p] || mid[p] == links[source];
      assert after[p] == mid[p] || after[p] == links[source];
    }
  }

  lemma FirstStays(disk: Disk, links: Links, source: Path, paths: seq<Path>)
    requires paths != [] && source in links
    requires var one := RelinkOne(disk, links, source, paths[0]);
             && one.error.None? && MovedOnto(links, one.links, source, [paths[0]])
             && MovedOnto(one.links, RelinkAll(disk, one.links, source, paths[1..]).links, source, paths[1..])
    ensures paths[0] in links
    ensures RelinkAll(disk, RelinkOne(disk, links, source, paths[0]).links, source, paths[1..]).links[paths[0]] ==
        links[source]
  {
  }

  // ---------- all groups ----------

  /** What the whole run needs of one group, tested before the run. */
  predicate GroupFits(disk: Disk, checks: Checks, links: Links, paths: seq<Path>) {
    forall p :: p in paths ==>
                  && CanLink(disk, links, paths[0], p) && p !in checks.changed
                  && Digest(disk, checks, links, p) == Digest(disk, checks, links, paths[0])
  }

  ghost predicate GroupMoved(links: Links, after: Links, paths: seq<Path>) {
    && after.Keys == links.Keys
    && (forall p :: p in links && p !in paths ==> after[p] == links[p])
    && (forall p :: p in links && p in paths ==>
        after[p] == links[p] || (paths[0] in links && after[p] == links[paths[0]]))
  }

  ghost predicate OnFirst(links: Links, after: Links, paths: seq<Path>) {
    forall p :: p in paths ==> p in after && paths[0] in links && after[p] == links[paths[0]]
  }

  lemma ShareGroupMoves(disk: Disk, checks: Checks, links: Links, paths: seq<Path>)
    requires paths != []
    ensures var run := ShareGroup(disk, checks, links, paths);
            && GroupMoved(links, run.links, paths)
            && (run.error.None? <==> GroupFits(disk, checks, links, paths))
            && (run.error.None? ==> OnFirst(links, run.links, paths))
  {
    if GroupError(disk, checks, links, paths).None? {
      assert paths[0] in links;
      RelinkAllMoves(disk, links, paths[0], paths[1..]);
      assert paths == [paths[0]] + paths[1..];
      assert CanLink(disk, links, paths[0], paths[0]);
      assert GroupFits(disk, checks, links, paths) <==> AllLink(disk, links, paths[0], paths[1..]);
    } else {
      RefusedGroup(disk, checks, links, paths);
    }
  }

  lemma RefusedGroup(disk: Disk, checks: Checks, links: Links, paths: seq<Path>)
    requires paths != [] && GroupError(disk, checks, links, paths).Some?
    ensures !GroupFits(disk, checks, links, paths)
  {
    if p :| p in paths && p !in links {
      assert !CanLink(disk, links, paths[0], p);
    }
  }

  /** The groups the listing produces: nonempty, one key each, no key twice. */
  ghost predicate WellKeyed(groups: seq<Group>) {
    && DistinctKeys(groups)
    && forall g :: g in groups ==> g.paths != [] && forall p :: p in g.paths ==> KeyOf(p) == g.key
  }

  ghost predicate AllFit(disk: Disk, checks: Checks, links: Links, groups: seq<Group>) {
    forall g :: g in groups ==> GroupFits(disk, checks, links, g.paths)
  }

  /** Paths of other keys are left alone, so what the other groups need is not changed by one group's run. */
  lemma OthersUnaffected(disk: Disk, checks: Checks, links: Links, after: Links, first: Group, other: Group)
    requires other.paths != [] && other.key != first.key
    requires forall p :: p in first.paths ==> KeyOf(p) == first.key
    requires forall p :: p in other.paths ==> KeyOf(p) == other.key
    requires GroupMoved(links, after, first.paths)
    ensures GroupFits(disk, checks, links, other.paths) <==> GroupFits(disk, checks, after, other.paths)
    ensures forall p :: p in other.paths ==> (p in links <==> p in after) && (p in links ==> after[p] == links[p])
  {
    forall p | p in other.paths
      ensures (p in links <==> p in after) && (p in links ==> after[p] == links[p])
    {
      assert KeyOf(p) == other.key;
      assert p !in first.paths;
    }
    assert other.paths[0] in other.paths;
  }

  /** The run's effect: unlisted paths stay, listed ones stay or move to their group's first inode. */
  ghost predicate AllMoved(links: Links, after: Links, groups: seq<Group>) {
    && after.Keys == links.Keys
    && (forall p :: p in links && !Listed(groups, p) ==> after[p] == links[p])
    && (forall g, p :: g in groups && p in g.paths && p in links ==>
                         after[p] == links[p] || (g.paths[0] in links && after[p] == links[g.paths[0]]))
  }

  ghost predicate Listed(groups: seq<Group>, p: Path) {
    exists g :: g in groups && p in g.paths
  }

  ghost predicate AllOnFirst(links: Links, after: Links, groups: seq<Group>) {
    forall g :: g in groups ==> OnFirst(links, after, g.paths)
  }

  lemma {:induction false} ShareAllMoves(disk: Disk, checks: Checks, links: Links, groups: seq<Group>)
    requires WellKeyed(groups)
    ensures var run := ShareAll(disk, checks, links, groups);
            && AllMoved(links, run.links, groups)
            && (run.error.None? <==> AllFit(disk, checks, links, groups))
            && (run.error.None? ==> AllOnFirst(links, run.links, groups))
    decreases |groups|
  {
    if groups != [] {
      var first, rest := groups[0], groups[1..];
      assert first in groups;
      assert WellKeyed(rest) by { assert forall g :: g in rest ==> g in groups; }
      var one := ShareGroup(disk, checks, links, first.paths);
      ShareGroupMoves(disk, checks, links, first.paths);
      if one.error.Some? {
        MovedFirstOnly(links, one.links, groups);
      } else {
        ShareAllMoves(disk, checks, one.links, rest);
        var after := ShareAll(disk, checks, one.links, rest).links;
        MovedFirstThenRest(links, one.links, after, groups);
        FitFirstThenRest(disk, checks, links, one.links, groups);
        if AllFit(disk, checks, one.links, rest) {
          OnFirstThenRest(links, one.links, after, groups);
        }
      }
    }
  }

  lemma OtherKey(groups: seq<Group>, g: Group)
    requires WellKeyed(groups) && groups != [] && g in groups[1..]
    ensures g in groups && g.key != groups[0].key && g.paths != []
    ensures forall p :: p in g.paths ==> p !in groups[0].paths
  {
    assert groups[0] in groups;
    forall p | p in g.paths
      ensures p !in groups[0].paths
    {
      assert KeyOf(p) == g.key;
    }
  }

  lemma MovedFirstOnly(links: Links, mid: Links, groups: seq<Group>)
    requires WellKeyed(groups) && groups != [] && GroupMoved(links, mid, groups[0].paths)
    ensures AllMoved(links, mid, groups)
  {
    assert groups[0] in groups;
    forall g, p | g in groups && p in g.paths && p in links
      ensures mid[p] == links[p] || (g.paths[0] in links && mid[p] == links[g.paths[0]])
    {
      if g != groups[0] {
        assert groups == [groups[0]] + groups[1..];
        OtherKey(groups, g);
      }
    }
  }

  lemma MovedFirstThenRest(links: Links, mid: Links, after: Links, groups: seq<Group>)
    requires WellKeyed(groups) && groups != []
    requires GroupMoved(links, mid, groups[0].paths) && AllMoved(mid, after, groups[1..])
    ensures AllMoved(links, after, groups)
  {
    forall p | p in links && !Listed(groups, p)
      ensures after[p] == links[p]
    {
      UnlistedStays(links, mid, after, groups, p);
    }
    forall g, p | g in groups && p in g.paths && p in links
      ensures after[p] == links[p] || (g.paths[0] in links && after[p] == links[g.paths[0]])
    {
      MemberMoves(links, mid, after, groups, g, p);
    }
  }

  lemma UnlistedStays(links: Links, mid: Links, after: Links, groups: seq<Group>, p: Path)
    requires groups != [] && p in links && !Listed(groups, p)
    requires GroupMoved(links, mid, groups[0].paths) && AllMoved(mid, after, groups[1..])
    ensures p in after && after[p] == links[p]
  {
    assert groups[0] in groups;
    assert forall g :: g in groups[1..] ==> g in groups;
  }

  lemma MemberMoves(links: Links, mid: Links, after: Links, groups: seq<Group>, g: Group, p: Path)
    requires WellKeyed(groups) && groups != [] && g in groups && p in g.paths && p in links
    requires GroupMoved(links, mid, groups[0].paths) && AllMoved(mid, after, groups[1..])
    ensures p in after
    ensures after[p] == links[p] || (g.paths[0] in links && after[p] == links[g.paths[0]])
  {
    if g in groups[1..] {
      OtherKey(groups, g);
      LaterMemberMoves(links, mid, after, groups[0].paths, groups[1..], g, p);
    } else {
      assert groups == [groups[0]] + groups[1..];
      UnlistedElsewhere(groups, p);
      FirstMemberMoves(links, mid, after, groups[0].paths, groups[1..], p);
    }
  }

  lemma LaterMemberMoves(links: Links, mid: Links, after: Links, first: seq<Path>, rest: seq<Group>, g: Group, p: Path)
    requires g in rest && p in g.paths && p in links && forall q :: q in g.paths ==> q !in first
    requires GroupMoved(links, mid, first) && AllMoved(mid, after, rest)
    ensures p in after
    ensures after[p] == links[p] || (g.paths[0] in links && after[p] == links[g.paths[0]])
  {
    assert g.paths[0] in g.paths && p in mid && mid[p] == links[p];
  }

  lemma FirstMemberMoves(links: Links, mid: Links, after: Links, first: seq<Path>, rest: seq<Group>, p: Path)
    requires p in first && p in links && !Listed(rest, p)
    requires GroupMoved(links, mid, first) && AllMoved(mid, after, rest)
    ensures p in after
    ensures after[p] == links[p] || (first[0] in links && after[p] == links[first[0]])
  {
    assert p in mid && after[p] == mid[p];
  }

  lemma UnlistedElsewhere(groups: seq<Group>, p: Path)
    requires WellKeyed(groups) && groups != [] && p in groups[0].paths
    ensures !Listed(groups[1..], p)
  {
    forall g | g in groups[1..]
      ensures p !in g.paths
    {
      OtherKey(groups, g);
    }
  }

  lemma FitFirstThenRest(disk: Disk, checks: Checks, links: Links, mid: Links, groups: seq<Group>)
    requires WellKeyed(groups) && groups != []
    requires GroupMoved(links, mid, groups[0].paths) && GroupFits(disk, checks, links, groups[0].paths)
    ensures AllFit(disk, checks, links, groups) <==> AllFit(disk, checks, mid, groups[1..])
  {
    assert groups == [groups[0]] + groups[1..];
    assert groups[0] in groups;
    forall g | g in groups[1..]
      ensures GroupFits(disk, checks, links, g.paths) <==> GroupFits(disk, checks, mid, g.paths)
    {
      OtherKey(groups, g);
      OthersUnaffected(disk, checks, links, mid, groups[0], g);
    }
  }

  lemma OnFirstThenRest(links: Links, mid: Links, after: Links, groups: seq<Group>)
    requires WellKeyed(groups) && groups != []
    requires GroupMoved(links, mid, groups[0].paths) && OnFirst(links, mid, groups[0].paths)
    requires AllMoved(mid, after, groups[1..]) && AllOnFirst(mid, after, groups[1..])
    ensures AllOnFirst(links, after, groups)
  {
    assert groups == [groups[0]] + groups[1..];
    forall g | g in groups
      ensures OnFirst(links, after, g.paths)
    {
      if g in groups[1..] {
        OtherKey(groups, g);
        assert g.paths[0] in g.paths;
      } else {
        forall p | p in g.paths
          ensures p in after && g.paths[0] in links && after[p] == links[g.paths[0]]
        {
          UnlistedElsewhere(groups, p);
        }
      }
    }
  }

  // ---------- digests and bytes ----------

  ghost predicate KeepsDigests(disk: Disk, checks: Checks, links: Links, after: Links) {
    && after.Keys == links.Keys
    && forall p :: p in links ==> Digest(disk, checks, after, p) == Digest(disk, checks, links, p)
  }

  lemma GroupKeepsDigests(disk: Disk, checks: Checks, links: Links, paths: seq<Path>)
    requires paths != []
    ensures KeepsDigests(disk, checks, links, ShareGroup(disk, checks, links, paths).links)
  {
    ShareGroupMoves(disk, checks, links, paths);
    var after := ShareGroup(disk, checks, links, paths).links;
    if GroupError(disk, checks, links, paths).None? {
      forall p | p in links
        ensures Digest(disk, checks, after, p) == Digest(disk, checks, links, p)
      {
        assert p in paths ==> Digest(disk, checks, links, p) == Digest(disk, checks, links, paths[0]);
      }
    }
  }

  lemma {:induction false} ShareAllKeepsDigests(disk: Disk, checks: Checks, links: Links, groups: seq<Group>)
    requires forall g :: g in groups ==> g.paths != []
    ensures KeepsDigests(disk, checks, links, ShareAll(disk, checks, links, groups).links)
    decreases |groups|
  {
    if groups != [] {
      GroupKeepsDigests(disk, checks, links, groups[0].paths);
      var one := ShareGroup(disk, checks, links, groups[0].paths);
      if one.error.None? {
        ShareAllKeepsDigests(disk, checks, one.links, groups[1..]);
      }
    }
  }

  // ---------- from groups back to the listing ----------

  /** The first listed path with the same directory and name. */
  function SourceOf(listing: seq<Path>, p: Path): Path {
    var group := Matching(listing, KeyOf(p));
    if group == [] then p else group[0]
  }

  lemma {:induction false} MatchingMembers(listing: seq<Path>, key: Key)
    ensures forall p :: p in Matching(listing, key) <==> p in listing && KeyOf(p) == key
  {
    if listing != [] {
      var head := listing[..|listing| - 1];
      MatchingMembers(head, key);
      assert listing == head + [listing[|listing| - 1]];
    }
  }

  /** The source of a listed path is the first listed path below its root in the same directory and of the same name. */
  lemma {:induction false} SourceIsFirstNamesake(listing: seq<Path>, p: Path)
    requires p in listing
    ensures exists i :: 0 <= i < |listing| && SourceOf(listing, p) == listing[i] && IsNamesake(listing[i], p)
                     && forall j :: 0 <= j < i ==> !IsNamesake(listing[j], p)
  {
    var head, last := listing[..|listing| - 1], listing[|listing| - 1];
    assert listing == head + [last];
    MatchingMembers(head, KeyOf(p));
    if q :| q in head && IsNamesake(q, p) {
      SourceIsFirstNamesake(head, q);
      var i :| 0 <= i < |head| && SourceOf(head, q) == head[i] && IsNamesake(head[i], q)
            && forall j :: 0 <= j < i ==> !IsNamesake(head[j], q);
      assert KeyOf(q) == KeyOf(p);
      assert SourceOf(listing, p) == SourceOf(head, q) == listing[i];
      assert forall j :: 0 <= j < i ==> listing[j] == head[j];
    } else {
      NoneMatching(head, KeyOf(p));
      assert SourceOf(listing, p) == last == listing[|listing| - 1];
      assert forall j :: 0 <= j < |head| ==> listing[j] == head[j] && head[j] in head;
    }
  }

  predicate IsNamesake(q: Path, p: Path) {
    q.directory == p.directory && q.name == p.name
  }

  lemma PartitionIsWellKeyed(groups: seq<Group>, listing: seq<Path>)
    requires Partition(groups, listing)
    ensures WellKeyed(groups)
    ensures forall g, p :: g in groups && p in g.paths ==> p in listing && g.paths[0] == SourceOf(listing, p)
    ensures forall p :: Listed(groups, p) <==> p in listing
  {
    forall g | g in groups
      ensures forall p :: p in g.paths <==> p in listing && KeyOf(p) == g.key
    {
      MatchingMembers(listing, g.key);
    }
    forall p | p in listing
      ensures Listed(groups, p)
    {
      HasKeyIsMembership(groups, KeyOf(p));
      var g :| g in groups && g.key == KeyOf(p);
      assert p in g.paths;
    }
  }

  /** What a successful run needs of the listed files, tested before the run. */
  ghost predicate Fits(disk: Disk, checks: Checks, links: Links, listing: seq<Path>) {
    forall p :: p in listing ==> MemberFits(disk, checks, links, SourceOf(listing, p), p)
  }

  predicate MemberFits(disk: Disk, checks: Checks, links: Links, source: Path, p: Path) {
    && CanLink(disk, links, source, p) && p !in checks.changed
    && Digest(disk, checks, links, p) == Digest(disk, checks, links, source)
  }

  /** Every listed path on the inode its group's first path had; every other path where it was. */
  function Shared(links: Links, listing: seq<Path>): Links {
    map p | p in links :: SharedInode(links, listing, p)
  }

  function SharedInode(links: Links, listing: seq<Path>, p: Path): Inode
    requires p in links
  {
    if p in listing && SourceOf(listing, p) in links then links[SourceOf(listing, p)] else links[p]
  }

  lemma FitsPerGroup(disk: Disk, checks: Checks, links: Links, groups: seq<Group>, listing: seq<Path>)
    requires Partition(groups, listing)
    ensures AllFit(disk, checks, links, groups) <==> Fits(disk, checks, links, listing)
  {
    PartitionIsWellKeyed(groups, listing);
    if AllFit(disk, checks, links, groups) {
      forall p | p in listing
        ensures MemberFits(disk, checks, links, SourceOf(listing, p), p)
      {
        assert Listed(groups, p);
        var g :| g in groups && p in g.paths;
        assert GroupFits(disk, checks, links, g.paths);
      }
    }
    if Fits(disk, checks, links, listing) {
      forall g | g in groups
        ensures GroupFits(disk, checks, links, g.paths)
      {
        forall p | p in g.paths
          ensures CanLink(disk, links, g.paths[0], p)
          ensures Digest(disk, checks, links, p) == Digest(disk, checks, links, g.paths[0])
        {
          assert MemberFits(disk, checks, links, SourceOf(listing, p), p);
        }
      }
    }
  }

  predicate AllRegular(entries: seq<Entry>) {
    forall e :: e in entries ==> e.regular
  }

  /** A run ends normally exactly when every listed file fits, and then exactly the listed paths are shared. */
  lemma RunSharesListing(disk: Disk, checks: Checks, links: Links, entries: seq<Entry>)
    ensures var run := Deduplicated(disk, checks, links, entries);
            && (run.error.None? <==> AllRegular(entries) && Fits(disk, checks, links, PathsOf(entries)))
            && (run.error.None? ==> run.links == Shared(links, PathsOf(entries)))
  {
    var listing := PathsOf(entries);
    var groups := Grouped(listing);
    if AllRegular(entries) {
      GroupedIsPartition(listing);
      PartitionIsWellKeyed(groups, listing);
      ShareAllMoves(disk, checks, links, groups);
      FitsPerGroup(disk, checks, links, groups, listing);
      var after := ShareAll(disk, checks, links, groups).links;
      if AllOnFirst(links, after, groups) {
        OnFirstIsShared(links, after, groups, listing);
      }
    }
  }

  lemma OnFirstIsShared(links: Links, after: Links, groups: seq<Group>, listing: seq<Path>)
    requires AllMoved(links, after, groups) && AllOnFirst(links, after, groups)
    requires forall p :: Listed(groups, p) <==> p in listing
    requires forall g, p :: g in groups && p in g.paths ==> g.paths != [] && g.paths[0] == SourceOf(listing, p)
    ensures after == Shared(links, listing)
  {
    forall p | p in links
      ensures p in after && after[p] == SharedInode(links, listing, p)
    {
      if Listed(groups, p) {
        var g :| g in groups && p in g.paths;
        ListedIsShared(links, after, g.paths, listing, p);
      }
    }
    SharedWhenEachIs(links, after, listing);
  }

  lemma ListedIsShared(links: Links, after: Links, paths: seq<Path>, listing: seq<Path>, p: Path)
    requires p in links && p in listing && p in paths && paths[0] == SourceOf(listing, p)
    requires OnFirst(links, after, paths)
    ensures p in after && after[p] == SharedInode(links, listing, p)
  {
  }

  lemma SharedWhenEachIs(links: Links, after: Links, listing: seq<Path>)
    requires after.Keys == links.Keys && forall p :: p in links ==> after[p] == SharedInode(links, listing, p)
    ensures after == Shared(links, listing)
  {
  }

  /** No two different contents on the disk have the same digest. */
  ghost predicate CollisionFree(disk: Disk, checks: Checks) {
    forall i, j :: checks.hash(disk(i).content) == checks.hash(disk(j).content) ==> disk(i).content == disk(j).content
  }

  ghost predicate SameBytes(disk: Disk, links: Links, after: Links) {
    after.Keys == links.Keys && forall p :: p in links ==> disk(after[p]).content == disk(links[p]).content
  }

  /** However the run ends, no temporary remains, and without digest collisions every path reads as before. */
  lemma RunPreservesBytes(disk: Disk, checks: Checks, links: Links, entries: seq<Entry>)
    ensures KeepsDigests(disk, checks, links, Deduplicated(disk, checks, links, entries).links)
    ensures CollisionFree(disk, checks) ==> SameBytes(disk, links, Deduplicated(disk, checks, links, entries).links)
  {
    var listing := PathsOf(entries);
    var after := Deduplicated(disk, checks, links, entries).links;
    GroupedIsPartition(listing);
    ShareAllKeepsDigests(disk, checks, links, Grouped(listing));
    if CollisionFree(disk, checks) {
      forall p | p in links
        ensures disk(after[p]).content == disk(links[p]).content
      {
        assert Digest(disk, checks, after, p) == Digest(disk, checks, links, p);
      }
    }
  }

  /** The listed files of each group hold the same bytes. */
  ghost predicate GroupsAgree(disk: Disk, links: Links, listing: seq<Path>) {
    forall p :: p in listing && p in links && SourceOf(listing, p) in links ==>
                  disk(links[SourceOf(listing, p)]).content == disk(links[p]).content
  }

  /** With collisions, a run that ends normally preserves every path's bytes exactly when each group agrees. */
  lemma BytesSurviveExactly(disk: Disk, checks: Checks, links: Links, entries: seq<Entry>)
    requires Deduplicated(disk, checks, links, entries).error.None?
    ensures SameBytes(disk, links, Deduplicated(disk, checks, links, entries).links)
       <==> GroupsAgree(disk, links, PathsOf(entries))
  {
    RunSharesListing(disk, checks, links, entries);
  }

  // ---------- repeated and interrupted runs ----------

  lemma SourceOfSource(listing: seq<Path>, p: Path)
    requires p in listing
    ensures SourceOf(listing, p) in listing && SourceOf(listing, SourceOf(listing, p)) == SourceOf(listing, p)
  {
    MatchingMembers(listing, KeyOf(p));
    assert p in Matching(listing, KeyOf(p));
    assert Matching(listing, KeyOf(p))[0] in Matching(listing, KeyOf(p));
  }

  lemma {:induction false} NothingToRelink(disk: Disk, links: Links, source: Path, paths: seq<Path>)
    requires source in links && forall p :: p in paths ==> p in links && links[p] == links[source]
    ensures RelinkAll(disk, links, source, paths) == Outcome(links, 0, None)
    decreases |paths|
  {
    if paths != [] {
      assert paths[0] in paths;
      NothingToRelink(disk, links, source, paths[1..]);
    }
  }

  lemma {:induction false} NothingToShare(disk: Disk, checks: Checks, links: Links, groups: seq<Group>)
    requires forall g :: g in groups ==> g.paths != [] && OnFirst(links, links, g.paths)
    requires forall g, p :: g in groups && p in g.paths ==> p !in checks.changed
    ensures ShareAll(disk, checks, links, groups) == Outcome(links, 0, None)
    decreases |groups|
  {
    if groups != [] {
      var paths := groups[0].paths;
      assert groups[0] in groups && paths[0] in paths;
      assert paths == [paths[0]] + paths[1..];
      NothingToRelink(disk, links, paths[0], paths[1..]);
      assert forall p :: p in paths ==> Digest(disk, checks, links, p) == Digest(disk, checks, links, paths[0]);
      assert forall p :: p in paths ==> p !in checks.changed;
      NothingToShare(disk, checks, links, groups[1..]);
    }
  }

  /** A second run over the same files, none changed while it looks, has nothing to do and reports nothing saved. */
  lemma SecondRunIsIdle(disk: Disk, checks: Checks, again: Checks, links: Links, entries: seq<Entry>)
    requires Deduplicated(disk, checks, links, entries).error.None?
    requires forall p :: p in PathsOf(entries) ==> p !in again.changed
    ensures var after := Deduplicated(disk, checks, links, entries).links;
            Deduplicated(disk, again, after, entries) == Outcome(after, 0, None)
  {
    var listing := PathsOf(entries);
    var after := Deduplicated(disk, checks, links, entries).links;
    RunSharesListing(disk, checks, links, entries);
    GroupedIsPartition(listing);
    PartitionIsWellKeyed(Grouped(listing), listing);
    forall g | g in Grouped(listing)
      ensures g.paths != [] && OnFirst(after, after, g.paths)
    {
      forall p | p in g.paths
        ensures p in after && g.paths[0] in after && after[p] == after[g.paths[0]]
      {
        SourceOfSource(listing, p);
        assert MemberFits(disk, checks, links, SourceOf(listing, p), p);
      }
    }
    NothingToShare(disk, again, after, Grouped(listing));
  }

  /** The state between the temporary link and the rename. */
  function Interrupted(links: Links, source: Path, p: Path): Links {
    if source in links then links[PendingName(p) := links[source]] else links
  }

  /** A path whose temporary exists and which is not on its source's inode. */
  ghost predicate Stuck(links: Links, source: Path, p: Path) {
    source in links && p in links && PendingName(p) in links && links[p] != links[source]
  }

  lemma {:induction false} RelinkAllLeavesPending(disk: Disk, links: Links, source: Path, paths: seq<Path>, p: Path)
    requires p in links && PendingName(p) in links
    ensures var after := RelinkAll(disk, links, source, paths).links;
            p in after && after[p] == links[p] && PendingName(p) in after
    decreases |paths|
  {
    if paths != [] {
      var one := RelinkOne(disk, links, source, paths[0]);
      if one.error.None? { RelinkAllLeavesPending(disk, one.links, source, paths[1..], p); }
    }
  }

  lemma {:induction false} ShareAllLeavesPending(disk: Disk, checks: Checks, links: Links, groups: seq<Group>, p: Path)
    requires p in links && PendingName(p) in links
    ensures var after := ShareAll(disk, checks, links, groups).links;
            p in after && after[p] == links[p] && PendingName(p) in after
    decreases |groups|
  {
    if groups != [] {
      var paths := groups[0].paths;
      if paths != [] { RelinkAllLeavesPending(disk, links, paths[0], paths[1..], p); }
      var one := ShareGroup(disk, checks, links, paths);
      if one.error.None? { ShareAllLeavesPending(disk, checks, one.links, groups[1..], p); }
    }
  }

  /** The first path of a group never moves. */
  lemma SourceStays(disk: Disk, checks: Checks, links: Links, listing: seq<Path>, p: Path)
    requires p in listing && SourceOf(listing, p) in links
    ensures var source, after := SourceOf(listing, p), ShareAll(disk, checks, links, Grouped(listing)).links;
            source in after && after[source] == links[source]
  {
    var groups := Grouped(listing);
    GroupedIsPartition(listing);
    PartitionIsWellKeyed(groups, listing);
    ShareAllMoves(disk, checks, links, groups);
    SourceOfSource(listing, p);
    assert Listed(groups, SourceOf(listing, p));
  }

  /** A run over files of which one is stuck fails and leaves it stuck. */
  lemma StuckRunFails(disk: Disk, checks: Checks, links: Links, entries: seq<Entry>, p: Path)
    requires p in PathsOf(entries) && Stuck(links, SourceOf(PathsOf(entries), p), p)
    ensures var run := Deduplicated(disk, checks, links, entries);
            run.error.Some? && Stuck(run.links, SourceOf(PathsOf(entries), p), p)
  {
    var listing := PathsOf(entries);
    RunSharesListing(disk, checks, links, entries);
    assert !MemberFits(disk, checks, links, SourceOf(listing, p), p);
    SourceStays(disk, checks, links, listing, p);
    ShareAllLeavesPending(disk, checks, links, Grouped(listing), p);
  }

  datatype Rerun = Rerun(checks: Checks, entries: seq<Entry>)

  function LinksAfter(disk: Disk, links: Links, runs: seq<Rerun>): Links
    decreases |runs|
  {
    if runs == [] then links
    else LinksAfter(disk, Deduplicated(disk, runs[0].checks, links, runs[0].entries).links, runs[1..])
  }

  /** The run lists a path, with a given first path of the same name before it. */
  predicate Covers(run: Rerun, source: Path, p: Path) {
    p in PathsOf(run.entries) && SourceOf(PathsOf(run.entries), p) == source
  }

  lemma {:induction false} StuckForever(disk: Disk, links: Links, source: Path, p: Path, runs: seq<Rerun>, last: Rerun)
    requires Stuck(links, source, p) && Covers(last, source, p) && forall r :: r in runs ==> Covers(r, source, p)
    ensures Deduplicated(disk, last.checks, LinksAfter(disk, links, runs), last.entries).error.Some?
    decreases |runs|
  {
    if runs == [] {
      StuckRunFails(disk, last.checks, links, last.entries, p);
    } else {
      var run := runs[0];
      assert run in runs && forall r :: r in runs[1..] ==> r in runs;
      StuckRunFails(disk, run.checks, links, run.entries, p);
      StuckForever(disk, Deduplicated(disk, run.checks, links, run.entries).links, source, p, runs[1..], last);
    }
  }

  /** A run cut off between link and rename leaves a temporary that makes every later run over these files fail. */
  lemma InterruptedRunIsStuck(disk: Disk, links: Links, source: Path, p: Path, later: seq<Rerun>, last: Rerun)
    requires source in links && p in links && links[p] != links[source]
    requires PendingName(p) != p && PendingName(p) != source
    requires Covers(last, source, p) && forall r :: r in later ==> Covers(r, source, p)
    ensures var cut := Interrupted(links, source, p);
            Deduplicated(disk, last.checks, LinksAfter(disk, cut, later), last.entries).error.Some?
  {
    StuckForever(disk, Interrupted(links, source, p), source, p, later, last);
  }
}
