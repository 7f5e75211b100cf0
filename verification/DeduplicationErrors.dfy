/** What the error of a deduplication run says: a fault that the listed files had before the run. */
module DeduplicationErrors {
  import opened Wrappers
  import opened Deduplication
  import opened DeduplicationSafety

  /** The two states agree on everything a fault is about: which paths exist, their devices and their digests. */
  ghost predicate SameFacts(disk: Disk, checks: Checks, x: Links, y: Links) {
    && x.Keys == y.Keys
    && forall p :: p in x ==>
         disk(x[p]).device == disk(y[p]).device && Digest(disk, checks, x, p) == Digest(disk, checks, y, p)
  }

  /** What an error claims about a listed path and the source of its group. */
  ghost predicate HasFault(disk: Disk, checks: Checks, links: Links, source: Path, p: Path, error: Error) {
    match error
    case NotRegular => false
    case Missing => source !in links || p !in links
    case ContentDiffers => Digest(disk, checks, links, p) != Digest(disk, checks, links, source)
    case FileChanged => p in checks.changed
    case CrossDevice => source in links && p in links && disk(links[source]).device != disk(links[p]).device
    case PendingExists => p.(name := p.name + ".dedup" + "-pending") in links
  }

  lemma SameFactsSameFaults(disk: Disk, checks: Checks, x: Links, y: Links, source: Path, p: Path, error: Error)
    requires SameFacts(disk, checks, x, y)
    ensures HasFault(disk, checks, x, source, p, error) <==> HasFault(disk, checks, y, source, p, error)
  {
  }

  ghost predicate SameDigests(disk: Disk, checks: Checks, links: Links, source: Path, paths: seq<Path>) {
    forall p :: p in paths ==> Digest(disk, checks, links, p) == Digest(disk, checks, links, source)
  }

  lemma RelinkKeepsFacts(disk: Disk, checks: Checks, links: Links, source: Path, p: Path)
    requires Digest(disk, checks, links, p) == Digest(disk, checks, links, source)
    ensures var one := RelinkOne(disk, links, source, p);
            && SameFacts(disk, checks, links, one.links)
            && (one.error.Some? ==> HasFault(disk, checks, links, source, p, one.error.value))
  {
  }

  lemma {:induction false} RelinkAllFaults(disk: Disk, checks: Checks, links: Links, source: Path, paths: seq<Path>)
    requires source in links && (forall p :: p in paths ==> p in links)
    requires SameDigests(disk, checks, links, source, paths)
    ensures var run := RelinkAll(disk, links, source, paths);
            && SameFacts(disk, checks, links, run.links)
            && (run.error.Some? ==>
                  exists p :: p in paths && HasFault(disk, checks, links, source, p, run.error.value))
    decreases |paths|
  {
    if paths != [] {
      var p, one := paths[0], RelinkOne(disk, links, source, paths[0]);
      assert p in paths && forall q :: q in paths[1..] ==> q in paths;
      RelinkKeepsFacts(disk, checks, links, source, p);
      if one.error.None? {
        RelinkAllFaults(disk, checks, one.links, source, paths[1..]);
        var error := RelinkAll(disk, links, source, paths).error;
        if error.Some? {
          var q :| q in paths[1..] && HasFault(disk, checks, one.links, source, q, error.value);
          SameFactsSameFaults(disk, checks, links, one.links, source, q, error.value);
        }
      }
    }
  }

  lemma ShareGroupFaults(disk: Disk, checks: Checks, links: Links, paths: seq<Path>)
    requires paths != []
    ensures var run := ShareGroup(disk, checks, links, paths);
            && SameFacts(disk, checks, links, run.links)
            && (run.error.Some? ==>
                  exists p :: p in paths && HasFault(disk, checks, links, paths[0], p, run.error.value))
  {
    if GroupError(disk, checks, links, paths).None? {
      assert paths[0] in paths && forall p :: p in paths[1..] ==> p in paths;
      RelinkAllFaults(disk, checks, links, paths[0], paths[1..]);
    }
  }

  lemma {:induction false} ShareAllFaults(disk: Disk, checks: Checks, links: Links, groups: seq<Group>)
    requires forall g :: g in groups ==> g.paths != []
    ensures var error := ShareAll(disk, checks, links, groups).error;
            error.Some? ==> exists g, p ::
              g in groups && p in g.paths && HasFault(disk, checks, links, g.paths[0], p, error.value)
    decreases |groups|
  {
    if groups != [] {
      var first, rest := groups[0], groups[1..];
      assert first in groups && forall g :: g in rest ==> g in groups;
      ShareGroupFaults(disk, checks, links, first.paths);
      var one := ShareGroup(disk, checks, links, first.paths);
      var error := ShareAll(disk, checks, links, groups).error;
      if one.error.None? {
        ShareAllFaults(disk, checks, one.links, rest);
        if error.Some? {
          var g, p :| g in rest && p in g.paths && HasFault(disk, checks, one.links, g.paths[0], p, error.value);
          SameFactsSameFaults(disk, checks, links, one.links, g.paths[0], p, error.value);
        }
      } else {
        var p :| p in first.paths && HasFault(disk, checks, links, first.paths[0], p, one.error.value);
        assert error == one.error;
      }
    }
  }

  /**
    A run that stops with an error stops for a fault that was there before it: an entry that is no regular file,
    or a listed path that is missing, on another device or blocked, or differs in content from the first listed
    file of its directory and name, or changed while it was read.
   */
  lemma ErrorsAreFaults(disk: Disk, checks: Checks, links: Links, entries: seq<Entry>)
    ensures var error, listing := Deduplicated(disk, checks, links, entries).error, PathsOf(entries);
            && (error == Some(NotRegular) <==> exists e :: e in entries && !e.regular)
            && (error.Some? && error.value != NotRegular ==>
                  exists p :: p in listing && HasFault(disk, checks, links, SourceOf(listing, p), p, error.value))
  {
    var error, listing := Deduplicated(disk, checks, links, entries).error, PathsOf(entries);
    if !AnyIrregular(entries) {
      GroupedIsPartition(listing);
      PartitionIsWellKeyed(Grouped(listing), listing);
      ShareAllFaults(disk, checks, links, Grouped(listing));
      if error.Some? {
        var g, p :| g in Grouped(listing) && p in g.paths
                 && HasFault(disk, checks, links, g.paths[0], p, error.value);
        assert g.paths[0] == SourceOf(listing, p);
      }
    }
  }
}
