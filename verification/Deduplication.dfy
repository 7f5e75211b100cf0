/**
  Hard-link deduplication of immutable catalog files, over a file system of paths, inodes and file
  contents (scripts/deduplicate_immutable_catalogs.py).
 */
module Deduplication {
  import opened Wrappers

  type Bytes = seq<bv8>
  type Inode = nat

  datatype Path = Path(root: string, directory: string, name: string)

  /** The key under which a file is grouped: its directory below the root, and its name. */
  datatype Key = Key(directory: string, name: string)

  datatype File = File(content: Bytes, blocks: nat, device: nat)

  /** What each inode holds; deduplication never writes to a file. */
  type Disk = Inode -> File

  /** The digest function, and the paths whose file turns out to have changed when looked at a second time. */
  datatype Checks = Checks(hash: Bytes -> string, changed: set<Path>)

  type Links = map<Path, Inode>

  datatype Entry = Entry(path: Path, regular: bool)
  datatype Group = Group(key: Key, paths: seq<Path>)

  datatype Error = NotRegular | Missing | ContentDiffers | FileChanged | CrossDevice | PendingExists

  datatype Outcome = Outcome(links: Links, saved: nat, error: Option<Error>)

  const SECTOR: nat := 512

  function KeyOf(p: Path): Key {
    Key(p.directory, p.name)
  }

  function PendingName(p: Path): Path {
    p.(name := p.name + ".dedup" + "-pending")
  }

  // ---------- grouping ----------

  function Place(groups: seq<Group>, p: Path): seq<Group> {
    if groups == [] then [Group(KeyOf(p), [p])]
    else if groups[0].key == KeyOf(p) then [groups[0].(paths := groups[0].paths + [p])] + groups[1..]
    else [groups[0]] + Place(groups[1..], p)
  }

  function Grouped(listing: seq<Path>): seq<Group> {
    if listing == [] then [] else Place(Grouped(listing[..|listing| - 1]), listing[|listing| - 1])
  }

  function PathsOf(entries: seq<Entry>): seq<Path> {
    seq(|entries|, i requires 0 <= i < |entries| => entries[i].path)
  }

  /** The listed paths with one key, in listing order. */
  function Matching(listing: seq<Path>, key: Key): seq<Path> {
    if listing == [] then []
    else
      var rest := Matching(listing[..|listing| - 1], key);
      var last := listing[|listing| - 1];
      if KeyOf(last) == key then rest + [last] else rest
  }

  // ---------- relinking ----------

  function RelinkOne(disk: Disk, links: Links, source: Path, p: Path): Outcome {
    if source !in links || p !in links then Outcome(links, 0, Some(Missing))
    else if links[source] == links[p] then Outcome(links, 0, None)
    else if disk(links[source]).device != disk(links[p]).device then Outcome(links, 0, Some(CrossDevice))
    else if PendingName(p) in links then Outcome(links, 0, Some(PendingExists))
    else Outcome(links[p := links[source]], disk(links[p]).blocks * SECTOR, None)
  }

  function RelinkAll(disk: Disk, links: Links, source: Path, paths: seq<Path>): Outcome
    decreases |paths|
  {
    if paths == [] then Outcome(links, 0, None)
    else
      var one := RelinkOne(disk, links, source, paths[0]);
      if one.error.Some? then one
      else
        var rest := RelinkAll(disk, one.links, source, paths[1..]);
        Outcome(rest.links, one.saved + rest.saved, rest.error)
  }

  function Digest(disk: Disk, checks: Checks, links: Links, p: Path): string {
    if p in links then checks.hash(disk(links[p]).content) else ""
  }

  /** The checks made on a whole group before anything in it is relinked. */
  function GroupError(disk: Disk, checks: Checks, links: Links, paths: seq<Path>): Option<Error> {
    if exists p :: p in paths && p !in links then Some(Missing)
    else if exists p :: p in paths && Digest(disk, checks, links, p) != Digest(disk, checks, links, paths[0]) then
      Some(ContentDiffers)
    else if exists p :: p in paths && p in checks.changed then Some(FileChanged)
    else None
  }

  function ShareGroup(disk: Disk, checks: Checks, links: Links, paths: seq<Path>): Outcome {
    var error := GroupError(disk, checks, links, paths);
    if error.Some? then Outcome(links, 0, error)
    else if paths == [] then Outcome(links, 0, None)
    else RelinkAll(disk, links, paths[0], paths[1..])
  }

  function ShareAll(disk: Disk, checks: Checks, links: Links, groups: seq<Group>): Outcome
    decreases |groups|
  {
    if groups == [] then Outcome(links, 0, None)
    else
      var one := ShareGroup(disk, checks, links, groups[0].paths);
      if one.error.Some? then one
      else
        var rest := ShareAll(disk, checks, one.links, groups[1..]);
        Outcome(rest.links, one.saved + rest.saved, rest.error)
  }

  predicate AnyIrregular(entries: seq<Entry>) {
    exists e :: e in entries && !e.regular
  }

  function Deduplicated(disk: Disk, checks: Checks, links: Links, entries: seq<Entry>): Outcome {
    if AnyIrregular(entries) then Outcome(links, 0, Some(NotRegular))
    else ShareAll(disk, checks, links, Grouped(PathsOf(entries)))
  }

  // ---------- the program ----------

  class Deduplicator {
    var links: Links
    const disk: Disk
    const checks: Checks

    constructor (links: Links, disk: Disk, checks: Checks)
      ensures this.links == links && this.disk == disk && this.checks == checks
    {
      this.links, this.disk, this.checks := links, disk, checks;
    }

    /** Points one path at the source's inode: a link under a temporary name, then a rename over the path. */
    method Relink(source: Path, p: Path, before: File) returns (saved: nat, error: Option<Error>)
      requires p in links ==> before.device == disk(links[p]).device && before.blocks == disk(links[p]).blocks
      modifies this
      ensures Outcome(links, saved, error) == RelinkOne(disk, old(links), source, p)
    {
      saved := 0;
      if source !in links || p !in links {
        return 0, Some(Missing);
      }
      if links[source] == links[p] {
        return 0, None;
      }
      if disk(links[source]).device != before.device {
        return 0, Some(CrossDevice);
      }
      var temporary := PendingName(p);
      if temporary in links {
        return 0, Some(PendingExists);
      }
      links := links[temporary := links[source]];
      links := (links - {temporary})[p := links[temporary]];
      assert links == old(links)[p := old(links)[source]];
      return before.blocks * SECTOR, None;
    }

    /** Checks one group, then relinks its members to its first; file facts are those read at the start. */
    method Share(paths: seq<Path>) returns (saved: nat, error: Option<Error>)
      modifies this
      ensures Outcome(links, saved, error) == ShareGroup(disk, checks, old(links), paths)
    {
      saved, error := 0, GroupError(disk, checks, links, paths);
      if error.Some? || paths == [] {
        return;
      }
      var start := links;
      var verified := seq(|paths|, i requires 0 <= i < |paths| => disk(start[paths[i]]));
      var source := paths[0];
      var k := 1;
      while k < |paths|
        invariant 1 <= k <= |paths| && links.Keys == start.Keys
        invariant forall p :: p in start ==> links[p] == start[p] || links[p] == links[source]
        invariant error.None?
        invariant RelinkAll(disk, start, source, paths[1..]) ==
                  Plus(saved, RelinkAll(disk, links, source, paths[k..]))
        decreases |paths| - k
      {
        assert paths[k..][1..] == paths[k + 1..];
        ghost var was, spent := links, saved;
        var more;
        more, error := RelinkVerified(source, paths[k], verified[k], start);
        saved := saved + more;
        if error.Some? {
          assert Plus(spent, RelinkAll(disk, was, source, paths[k..])) == Outcome(links, saved, error);
          return;
        }
        k := k + 1;
      }
    }

    method RelinkVerified(source: Path, p: Path, before: File, ghost start: Links)
      returns (saved: nat, error: Option<Error>)
      requires p in start && p in links && source in links && links.Keys == start.Keys
      requires before == disk(start[p]) && (links[p] == start[p] || links[p] == links[source])
      modifies this
      ensures Outcome(links, saved, error) == RelinkOne(disk, old(links), source, p)
      ensures links.Keys == old(links).Keys && links[source] == old(links)[source]
      ensures forall q :: q in links ==> links[q] == old(links)[q] || links[q] == links[source]
    {
      if links[source] == links[p] {
        return 0, None;
      }
      saved, error := Relink(source, p, before);
    }

    method Collect(entries: seq<Entry>) returns (groups: seq<Group>, error: Option<Error>)
      ensures AnyIrregular(entries) <==> error.Some?
      ensures error.Some? ==> error.value == NotRegular
      ensures error.None? ==> groups == Grouped(PathsOf(entries))
    {
      groups, error := [], None;
      var k := 0;
      while k < |entries|
        invariant 0 <= k <= |entries| && error.None?
        invariant forall e :: e in entries[..k] ==> e.regular
        invariant groups == Grouped(PathsOf(entries[..k]))
      {
        if !entries[k].regular {
          error := Some(NotRegular);
          return;
        }
        assert PathsOf(entries[..k + 1])[..k] == PathsOf(entries[..k]);
        groups := Place(groups, entries[k].path);
        k := k + 1;
      }
      assert entries[..k] == entries;
    }

    /** Shares the groups in order, stopping at the first error. */
    method ShareGroups(groups: seq<Group>) returns (saved: nat, error: Option<Error>)
      modifies this
      ensures Outcome(links, saved, error) == ShareAll(disk, checks, old(links), groups)
    {
      saved, error := 0, None;
      var k := 0;
      while k < |groups|
        invariant 0 <= k <= |groups| && error.None?
        invariant ShareAll(disk, checks, old(links), groups) == Plus(saved, ShareAll(disk, checks, links, groups[k..]))
      {
        assert groups[k..][1..] == groups[k + 1..];
        var more;
        more, error := Share(groups[k].paths);
        saved := saved + more;
        if error.Some? {
          return;
        }
        k := k + 1;
      }
    }

    method Deduplicate(entries: seq<Entry>) returns (saved: nat, error: Option<Error>)
      modifies this
      ensures Outcome(links, saved, error) == Deduplicated(disk, checks, old(links), entries)
    {
      var groups;
      groups, error := Collect(entries);
      if error.Some? {
        return 0, error;
      }
      saved, error := ShareGroups(groups);
    }
  }

  function Plus(saved: nat, outcome: Outcome): Outcome {
    outcome.(saved := saved + outcome.saved)
  }

  // ---------- what grouping does ----------

  ghost predicate DistinctKeys(groups: seq<Group>) {
    forall i, j :: 0 <= i < j < |groups| ==> groups[i].key != groups[j].key
  }

  /** Every group is exactly the listed paths of its key, in order, and no listed path is left out. */
  ghost predicate Partition(groups: seq<Group>, listing: seq<Path>) {
    && DistinctKeys(groups)
    && (forall g :: g in groups ==> g.paths != [] && g.paths == Matching(listing, g.key))
    && (forall p :: p in listing ==> HasKey(groups, KeyOf(p)))
  }

  predicate HasKey(groups: seq<Group>, key: Key) {
    groups != [] && (groups[0].key == key || HasKey(groups[1..], key))
  }

  lemma {:induction false} HasKeyIsMembership(groups: seq<Group>, key: Key)
    ensures HasKey(groups, key) <==> exists g :: g in groups && g.key == key
  {
    if groups != [] {
      HasKeyIsMembership(groups[1..], key);
      assert groups == [groups[0]] + groups[1..];
    }
  }

  lemma {:induction false} PlaceKeys(groups: seq<Group>, p: Path, key: Key)
    ensures HasKey(Place(groups, p), key) <==> HasKey(groups, key) || key == KeyOf(p)
  {
    if groups != [] {
      PlaceKeys(groups[1..], p, key);
    }
  }

  lemma {:induction false} PlaceDistinct(groups: seq<Group>, p: Path)
    requires DistinctKeys(groups)
    ensures DistinctKeys(Place(groups, p))
  {
    if groups != [] && groups[0].key != KeyOf(p) {
      PlaceDistinct(groups[1..], p);
      PlaceKeys(groups[1..], p, groups[0].key);
      HasKeyIsMembership(groups[1..], groups[0].key);
      HasKeyIsMembership(Place(groups[1..], p), groups[0].key);
      assert forall g :: g in groups[1..] ==> g.key != groups[0].key;
    }
  }

  /** A path joins the group of its key; a new key starts a group at the end; nothing else changes. */
  lemma {:induction false} PlaceMembers(groups: seq<Group>, p: Path, g: Group)
    requires DistinctKeys(groups) && g in Place(groups, p)
    ensures g.key != KeyOf(p) ==> g in groups
    ensures g.key == KeyOf(p) && HasKey(groups, g.key) ==>
              exists was :: was in groups && was.key == g.key && g.paths == was.paths + [p]
    ensures g.key == KeyOf(p) && !HasKey(groups, g.key) ==> g.paths == [p]
  {
    if groups != [] {
      assert groups == [groups[0]] + groups[1..];
      HasKeyIsMembership(groups[1..], g.key);
      if groups[0].key != KeyOf(p) && g != groups[0] {
        PlaceMembers(groups[1..], p, g);
      }
    }
  }

  lemma MatchingLast(listing: seq<Path>, p: Path, key: Key)
    ensures Matching(listing + [p], key) == Matching(listing, key) + (if KeyOf(p) == key then [p] else [])
  {
    assert (listing + [p])[..|listing|] == listing;
  }

  lemma {:induction false} NoneMatching(listing: seq<Path>, key: Key)
    requires forall p :: p in listing ==> KeyOf(p) != key
    ensures Matching(listing, key) == []
  {
    if listing != [] {
      NoneMatching(listing[..|listing| - 1], key);
    }
  }

  lemma {:induction false} GroupedIsPartition(listing: seq<Path>)
    ensures Partition(Grouped(listing), listing)
  {
    if listing != [] {
      var head, last := listing[..|listing| - 1], listing[|listing| - 1];
      GroupedIsPartition(head);
      assert listing == head + [last];
      PlacePartition(Grouped(head), head, last);
    }
  }

  lemma PlacePartition(groups: seq<Group>, listing: seq<Path>, p: Path)
    requires Partition(groups, listing)
    ensures Partition(Place(groups, p), listing + [p])
  {
    PlaceDistinct(groups, p);
    forall q | q in listing + [p]
      ensures HasKey(Place(groups, p), KeyOf(q))
    {
      PlaceKeys(groups, p, KeyOf(q));
    }
    forall g | g in Place(groups, p)
      ensures g.paths != [] && g.paths == Matching(listing + [p], g.key)
    {
      PlacedGroup(groups, listing, p, g);
    }
  }

  lemma PlacedGroup(groups: seq<Group>, listing: seq<Path>, p: Path, g: Group)
    requires Partition(groups, listing) && g in Place(groups, p)
    ensures g.paths != [] && g.paths == Matching(listing + [p], g.key)
  {
    PlaceMembers(groups, p, g);
    MatchingLast(listing, p, g.key);
    if g.key == KeyOf(p) && !HasKey(groups, g.key) {
      NoneMatching(listing, g.key);
    }
  }
}
