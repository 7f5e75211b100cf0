/**
  The release garbage collector: mark every release that a service unit names, directly or
  through JSON files inside releases, then sweep the rest (scripts/deploy_u1_marketcow.py).
 */
module ReleaseCollector {
  import opened Wrappers
  import opened Reachability

  /** A path below the releases directory, as its parts. */
  type Path = seq<string>

  /** A text, as the release paths that occur in it. */
  type Text = seq<Path>

  predicate EndsWith(s: string, suffix: string) {
    |s| >= |suffix| && s[|s| - |suffix|..] == suffix
  }

  predicate IsJson(p: Path) {
    p != [] && |p[|p| - 1]| > |".json"| && EndsWith(p[|p| - 1], ".json")
  }

  function Names(text: Text): set<string> {
    set p | p in text && p != [] :: p[0]
  }

  /** The existing JSON files a text refers to. */
  function JsonRefs(text: Text, files: map<Path, Text>): set<Path> {
    set p | p in text && IsJson(p) && p in files
  }

  // ---------- mark ----------

  ghost function Seeds(units: seq<Text>, files: map<Path, Text>): set<Path> {
    set p | p in files && exists k :: 0 <= k < |units| && p in JsonRefs(units[k], files)
  }

  ghost function Follow(files: map<Path, Text>): Path -> set<Path> {
    p => if p in files then JsonRefs(files[p], files) else {}
  }

  /** The JSON files found from the unit texts through existing JSON files. */
  ghost function Reached(units: seq<Text>, files: map<Path, Text>): set<Path> {
    Closure(files.Keys, Seeds(units, files), Follow(files))
  }

  /** A text the scan must read: a unit text, or the text of a reached file. */
  ghost predicate Relevant(text: Text, units: seq<Text>, files: map<Path, Text>) {
    (exists k :: 0 <= k < |units| && units[k] == text)
        || (exists p :: p in Reached(units, files) && p in files && files[p] == text)
  }

  ghost predicate IsProtected(name: string, units: seq<Text>, files: map<Path, Text>) {
    exists text :: Relevant(text, units, files) && name in Names(text)
  }

  lemma ReachedIsLeast(units: seq<Text>, files: map<Path, Text>)
    ensures Closed(Seeds(units, files), Follow(files), Reached(units, files))
    ensures Reached(units, files) <= files.Keys
    ensures forall S :: Closed(Seeds(units, files), Follow(files), S) ==> Reached(units, files) <= S
  {
    assert Closed(Seeds(units, files), Follow(files), files.Keys);
    ClosureIsClosed(files.Keys, Seeds(units, files), Follow(files));
    forall S | Closed(Seeds(units, files), Follow(files), S) ensures Reached(units, files) <= S {
      ClosureIsLeast(files.Keys, Seeds(units, files), Follow(files), S);
    }
  }

  /** Scanning one text: its names, and the files it adds to those already seen. */
  method ScanText(text: Text, files: map<Path, Text>, seen: set<Path>) returns (names: set<string>, found: seq<Path>)
    ensures names == Names(text)
    ensures forall p :: p in found <==> p in JsonRefs(text, files) && p !in seen
    ensures forall p :: p in found ==> p in files
    ensures forall i, j :: 0 <= i < j < |found| ==> found[i] != found[j]
  {
    names, found := {}, [];
    var k := 0;
    while k < |text|
      invariant 0 <= k <= |text| && names == Names(text[..k])
      invariant forall p :: p in found <==> p in JsonRefs(text[..k], files) && p !in seen
      invariant forall i, j :: 0 <= i < j < |found| ==> found[i] != found[j]
    {
      var candidate := text[k];
      assert text[..k + 1] == text[..k] + [candidate];
      if candidate != [] {
        names := names + {candidate[0]};
      }
      if IsJson(candidate) && candidate in files && candidate !in seen && candidate !in found {
        found := found + [candidate];
      }
      k := k + 1;
    }
    assert text[..k] == text;
  }

  /** What the scan has established after reading the first i texts. */
  ghost predicate Scanned(units: seq<Text>, files: map<Path, Text>, order: seq<Path>, texts: seq<Text>, i: nat,
                          marked: set<string>) {
    && |texts| == |units| + |order| && i <= |texts|
    && texts[..|units|] == units
    && (forall k :: 0 <= k < |order| ==> order[k] in files && texts[|units| + k] == files[order[k]])
    && (forall k, l :: 0 <= k < l < |order| ==> order[k] != order[l])
    && (forall p :: p in order ==> p in Reached(units, files))
    && (forall k :: 0 <= k < i ==> forall p :: p in JsonRefs(texts[k], files) ==> p in order)
    && (forall n :: n in marked <==> exists k :: 0 <= k < i && n in Names(texts[k]))
  }

  lemma {:induction false} DistinctFits(order: seq<Path>, files: map<Path, Text>)
    requires forall p :: p in order ==> p in files
    requires forall k, l :: 0 <= k < l < |order| ==> order[k] != order[l]
    ensures |order| <= |files.Keys|
  {
    if order != [] {
      var n := |order| - 1;
      var last := order[n];
      forall p | p in order[..n] ensures p in files - {last} {}
      DistinctFits(order[..n], files - {last});
      assert (files - {last}).Keys == files.Keys - {last};
      assert files.Keys == (files.Keys - {last}) + {last};
    }
  }

  lemma UnitOrFound(units: seq<Text>, files: map<Path, Text>, order: seq<Path>, texts: seq<Text>, i: nat,
                    marked: set<string>, k: nat)
    requires Scanned(units, files, order, texts, i, marked) && k < |texts|
    ensures Relevant(texts[k], units, files)
    ensures JsonRefs(texts[k], files) <= Reached(units, files)
  {
    ReachedIsLeast(units, files);
    if k < |units| {
      assert units[k] == texts[..|units|][k];
      assert JsonRefs(units[k], files) <= Seeds(units, files);
    } else {
      var p := order[k - |units|];
      assert p in order;
      assert Follow(files)(p) == JsonRefs(files[p], files);
    }
  }

  lemma ScanStep(units: seq<Text>, files: map<Path, Text>, order: seq<Path>, texts: seq<Text>, i: nat,
                 marked: set<string>, names: set<string>, found: seq<Path>, texts': seq<Text>)
    requires Scanned(units, files, order, texts, i, marked) && i < |texts|
    requires names == Names(texts[i])
    requires forall p :: p in found <==> p in JsonRefs(texts[i], files) && p !in order
    requires forall k, l :: 0 <= k < l < |found| ==> found[k] != found[l]
    requires |texts'| == |texts| + |found| && texts'[..|texts|] == texts
    requires forall k :: 0 <= k < |found| ==> found[k] in files && texts'[|texts| + k] == files[found[k]]
    ensures Scanned(units, files, order + found, texts', i + 1, marked + names)
  {
    var order' := order + found;
    UnitOrFound(units, files, order, texts, i, marked, i);
    assert forall k :: 0 <= k < |texts| ==> texts'[k] == texts'[..|texts|][k] == texts[k];
    assert texts'[..|units|] == texts[..|units|];
    forall k | 0 <= k < |order'| ensures order'[k] in files && texts'[|units| + k] == files[order'[k]] {
      if k < |order| {
        assert texts'[|units| + k] == texts[|units| + k];
      } else {
        assert order'[k] == found[k - |order|];
        assert texts'[|texts| + (k - |order|)] == files[found[k - |order|]];
      }
    }
    forall k, l | 0 <= k < l < |order'| ensures order'[k] != order'[l] {
      if l >= |order| { assert order'[l] in found; if k < |order| { assert order'[k] in order; } }
    }
    forall n ensures n in marked + names <==> exists k :: 0 <= k < i + 1 && n in Names(texts'[k]) {
      if n in marked { var k :| 0 <= k < i && n in Names(texts[k]); assert n in Names(texts'[k]); }
      if n in names { assert n in Names(texts'[i]); }
    }
  }

  lemma ScanComplete(units: seq<Text>, files: map<Path, Text>, order: seq<Path>, texts: seq<Text>, marked: set<string>)
    requires Scanned(units, files, order, texts, |texts|, marked)
    ensures forall n :: n in marked <==> IsProtected(n, units, files)
  {
    ReachedIsLeast(units, files);
    var S := set p | p in order;
    AllSeen(units, files, order, texts, marked);
    assert Reached(units, files) <= S;
    forall n ensures n in marked <==> IsProtected(n, units, files) {
      if n in marked {
        var k :| 0 <= k < |texts| && n in Names(texts[k]);
        UnitOrFound(units, files, order, texts, |texts|, marked, k);
      }
      if IsProtected(n, units, files) {
        var text :| Relevant(text, units, files) && n in Names(text);
        RelevantIsRead(units, files, order, texts, marked, text);
      }
    }
  }

  lemma AllSeen(units: seq<Text>, files: map<Path, Text>, order: seq<Path>, texts: seq<Text>, marked: set<string>)
    requires Scanned(units, files, order, texts, |texts|, marked)
    ensures Closed(Seeds(units, files), Follow(files), set p | p in order)
    ensures Reached(units, files) <= set p | p in order
  {
    var S := set p | p in order;
    forall p | p in Seeds(units, files) ensures p in S {
      var k :| 0 <= k < |units| && p in JsonRefs(units[k], files);
      assert texts[k] == texts[..|units|][k];
      assert p in JsonRefs(texts[k], files);
    }
    forall p, q | p in S && q in Follow(files)(p) ensures q in S {
      var k :| 0 <= k < |order| && order[k] == p;
      assert q in JsonRefs(texts[|units| + k], files);
    }
    ReachedIsLeast(units, files);
  }

  lemma RelevantIsRead(units: seq<Text>, files: map<Path, Text>, order: seq<Path>, texts: seq<Text>,
                       marked: set<string>, text: Text)
    requires Scanned(units, files, order, texts, |texts|, marked) && Relevant(text, units, files)
    ensures exists k :: 0 <= k < |texts| && texts[k] == text
  {
    AllSeen(units, files, order, texts, marked);
    if k :| 0 <= k < |units| && units[k] == text {
      assert texts[k] == texts[..|units|][k];
    } else {
      var p :| p in Reached(units, files) && p in files && files[p] == text;
      var k :| 0 <= k < |order| && order[k] == p;
      assert texts[|units| + k] == text;
    }
  }

  function TextsOf(paths: seq<Path>, files: map<Path, Text>): (r: seq<Text>)
    requires forall p :: p in paths ==> p in files
    ensures |r| == |paths| && forall k :: 0 <= k < |r| ==> r[k] == files[paths[k]]
  {
    seq(|paths|, k requires 0 <= k < |paths| => files[paths[k]])
  }

  method AppendFound(texts: seq<Text>, seen: set<Path>, found: seq<Path>, files: map<Path, Text>)
    returns (longer: seq<Text>, all: set<Path>)
    requires forall p :: p in found ==> p in files
    ensures longer == texts + TextsOf(found, files)
    ensures all == seen + set p | p in found
  {
    longer, all := texts, seen;
    var k := 0;
    while k < |found|
      invariant 0 <= k <= |found|
      invariant |longer| == |texts| + k && longer[..|texts|] == texts
      invariant forall j :: 0 <= j < k ==> longer[|texts| + j] == files[found[j]]
      invariant all == seen + set p | p in found[..k]
    {
      assert found[..k + 1] == found[..k] + [found[k]];
      longer := longer + [files[found[k]]];
      all := all + {found[k]};
      k := k + 1;
    }
    assert found[..k] == found;
  }

  function Members(order: seq<Path>): set<Path> {
    set p | p in order
  }

  lemma MembersAdd(order: seq<Path>, found: seq<Path>)
    ensures Members(order) + (set p | p in found) == Members(order + found)
  {
  }

  lemma ScannedFits(units: seq<Text>, files: map<Path, Text>, order: seq<Path>, texts: seq<Text>, i: nat,
                    marked: set<string>)
    requires Scanned(units, files, order, texts, i, marked)
    ensures i <= |texts| <= |units| + |files.Keys|
  {
    DistinctFits(order, files);
  }

  /** Reads one text: marks its names and appends the new files that it mentions. */
  method ScanNext(units: seq<Text>, files: map<Path, Text>, texts: seq<Text>, seen: set<Path>, marked: set<string>,
                  i: nat, ghost order: seq<Path>)
    returns (longer: seq<Text>, all: set<Path>, names: set<string>, ghost next: seq<Path>)
    requires Scanned(units, files, order, texts, i, marked) && i < |texts| && seen == Members(order)
    ensures Scanned(units, files, next, longer, i + 1, names) && all == Members(next)
  {
    var here, found := ScanText(texts[i], files, seen);
    longer, all := AppendFound(texts, seen, found, files);
    ScanStep(units, files, order, texts, i, marked, here, found, longer);
    MembersAdd(order, found);
    next := order + found;
    names := marked + here;
  }

  lemma NothingScanned(units: seq<Text>, files: map<Path, Text>)
    ensures Scanned(units, files, [], units, 0, {}) && Members([]) == {}
  {
    assert units[..|units|] == units;
  }

  /** Scans the texts while files that they mention are appended to them. */
  method ReferencedReleases(units: seq<Text>, files: map<Path, Text>) returns (marked: set<string>)
    ensures forall n :: n in marked <==> IsProtected(n, units, files)
  {
    marked := {};
    var texts := units;
    var seen: set<Path> := {};
    ghost var order: seq<Path> := [];
    var i := 0;
    NothingScanned(units, files);
    while i < |texts|
      invariant Scanned(units, files, order, texts, i, marked) && seen == Members(order)
      decreases |units| + |files.Keys| - i
    {
      ScannedFits(units, files, order, texts, i, marked);
      texts, seen, marked, order := ScanNext(units, files, texts, seen, marked, i, order);
      i := i + 1;
    }
    ScanComplete(units, files, order, texts, marked);
  }

  /** The files read are exactly those to which a chain of mentions leads from a unit text. */
  lemma ReachedByMentions(units: seq<Text>, files: map<Path, Text>, p: Path)
    ensures p in Reached(units, files) <==> Reaches(Seeds(units, files), Follow(files), p)
  {
    assert Closed(Seeds(units, files), Follow(files), files.Keys);
    ClosureIsReachable(files.Keys, Seeds(units, files), Follow(files), p);
  }

  // ---------- sweep ----------

  datatype Kind = Plain | Symlink

  /** An entry of the releases directory: a real directory with its children, a link to one, or anything else. */
  datatype Node = RealDir(children: map<string, Kind>) | Link(target: string) | OtherNode

  predicate BuildOutput(name: string) {
    name == "source" || name == "source-complete" || name == "target" || (|name| >= 7 && name[..7] == "target-")
  }

  function Pruned(children: map<string, Kind>): map<string, Kind> {
    map c | c in children && !BuildOutput(c) :: children[c]
  }

  /** What the sweep leaves of one entry; None when it is removed. */
  function SweptNode(name: string, node: Node, marked: set<string>): Option<Node> {
    match node
    case OtherNode => Some(node)
    case Link(_) => Some(node)
    case RealDir(children) => if name in marked then Some(RealDir(Pruned(children))) else None
  }

  function Swept(releases: map<string, Node>, marked: set<string>): map<string, Node> {
    map n | n in releases && SweptNode(n, releases[n], marked).Some? :: SweptNode(n, releases[n], marked).value
  }

  /** remove_owned refuses symbolic links, so a linked build output stops the sweep. */
  predicate Unsafe(node: Node) {
    node.RealDir? && exists c :: c in node.children && BuildOutput(c) && node.children[c] == Symlink
  }

  /** One release has lost some of its build outputs and nothing else. */
  ghost predicate PartlyPruned(before: map<string, Node>, after: map<string, Node>, name: string)
    requires name in before && before[name].RealDir?
  {
    exists kept: map<string, Kind> ::
      && after == before[name := RealDir(kept)]
      && kept.Keys <= before[name].children.Keys
      && forall c :: c in before[name].children && !BuildOutput(c) ==> c in kept && kept[c] == before[name].children[c]
  }

  class Releases {
    var entries: map<string, Node>

    constructor (entries: map<string, Node>)
      ensures this.entries == entries
    {
      this.entries := entries;
    }

    /** Removes the build outputs of one protected release, stopping at a link. */
    method PruneRelease(name: string) returns (ok: bool)
      requires name in entries && entries[name].RealDir?
      modifies this
      ensures ok <==> !Unsafe(old(entries)[name])
      ensures ok ==> entries == old(entries)[name := RealDir(Pruned(old(entries)[name].children))]
      ensures !ok ==> PartlyPruned(old(entries), entries, name)
    {
      var children := entries[name].children;
      var todo, kept := children.Keys, children;
      while todo != {}
        invariant todo <= children.Keys && kept.Keys <= children.Keys
        invariant entries == old(entries)[name := RealDir(kept)]
        invariant forall c :: c in kept ==> kept[c] == children[c]
        invariant forall c :: c in children && !BuildOutput(c) ==> c in kept
        invariant forall c :: c in todo ==> c in kept
        invariant forall c :: c in kept && BuildOutput(c) ==> c in todo
        invariant forall c :: c in children && BuildOutput(c) && c !in todo ==> children[c] != Symlink
        decreases todo
      {
        var child :| child in todo;
        todo := todo - {child};
        if BuildOutput(child) {
          if children[child] == Symlink {
            return false;
          }
          kept := kept - {child};
          entries := entries[name := RealDir(kept)];
        }
      }
      assert kept == Pruned(children);
      ok := true;
    }

    /** Treats one entry of the listing. */
    method SweepEntry(name: string, marked: set<string>) returns (ok: bool)
      requires name in entries
      modifies this
      ensures ok <==> !(name in marked && Unsafe(old(entries)[name]))
      ensures ok ==> match SweptNode(name, old(entries)[name], marked)
                     case None => entries == old(entries) - {name}
                     case Some(node) => entries == old(entries)[name := node]
      ensures !ok ==> PartlyPruned(old(entries), entries, name)
    {
      ok := true;
      if entries[name].RealDir? {
        if name !in marked {
          entries := entries - {name};
        } else {
          ok := PruneRelease(name);
        }
      }
    }

    /**
      Sweeps the entries in the order of the listing. It completes exactly when no protected
      release has a linked build output, and then leaves exactly the swept entries; in no case
      does it lose a marked release, or a child of one that is not a build output.
     */
    method CleanupPreviousVersions(listing: seq<string>, marked: set<string>) returns (ok: bool)
      requires forall n :: n in listing <==> n in entries
      requires forall i, j :: 0 <= i < j < |listing| ==> listing[i] != listing[j]
      modifies this
      ensures ok <==> forall n :: n in old(entries) && n in marked ==> !Unsafe(old(entries)[n])
      ensures ok ==> entries == Swept(old(entries), marked)
      ensures Spares(old(entries), entries, marked)
    {
      ghost var before := entries;
      var k := 0;
      NothingSwept(before, marked);
      while k < |listing|
        invariant 0 <= k <= |listing|
        invariant forall j :: 0 <= j < k && listing[j] in marked ==> !Unsafe(before[listing[j]])
        invariant entries == SweptPart(before, marked, listing[..k])
      {
        var name := listing[k];
        SweepOne(before, marked, listing[..k], name);
        assert listing[..k + 1] == listing[..k] + [name];
        ghost var mid := entries;
        ok := SweepEntry(name, marked);
        if !ok {
          PartSpares(before, marked, listing[..k], mid);
          PartialPruneSpares(before, marked, mid, name, entries);
          return;
        }
        k := k + 1;
      }
      assert listing[..k] == listing;
      AllSwept(before, marked, listing);
      PartSpares(before, marked, listing, entries);
      ok := true;
    }
  }

  /** The entries when the names in `done` have been swept and the others not yet. */
  ghost function SweptPart(releases: map<string, Node>, marked: set<string>, done: seq<string>): map<string, Node> {
    map n | n in releases && (n in done ==> SweptNode(n, releases[n], marked).Some?) ::
      if n in done then SweptNode(n, releases[n], marked).value else releases[n]
  }

  /** Everything marked, and everything that is not a real directory, is still there, up to build outputs. */
  ghost predicate Spares(before: map<string, Node>, after: map<string, Node>, marked: set<string>) {
    && after.Keys <= before.Keys
    && (forall n :: n in before && !before[n].RealDir? ==> n in after && after[n] == before[n])
    && (forall n :: n in before && before[n].RealDir? && n in marked ==>
          && n in after && after[n].RealDir?
          && forall c :: c in before[n].children && !BuildOutput(c) ==>
              c in after[n].children && after[n].children[c] == before[n].children[c])
  }

  lemma NothingSwept(releases: map<string, Node>, marked: set<string>)
    ensures SweptPart(releases, marked, []) == releases
  {
  }

  lemma AllSwept(releases: map<string, Node>, marked: set<string>, listing: seq<string>)
    requires forall n :: n in listing <==> n in releases
    ensures SweptPart(releases, marked, listing) == Swept(releases, marked)
  {
  }

  /** What the next entry looks like, and how the swept part changes when it is treated. */
  lemma SweepOne(releases: map<string, Node>, marked: set<string>, done: seq<string>, name: string)
    requires name !in done && name in releases
    ensures var part, longer := SweptPart(releases, marked, done), SweptPart(releases, marked, done + [name]);
            && name in part && part[name] == releases[name]
            && match SweptNode(name, releases[name], marked)
               case None => longer == part - {name}
               case Some(node) => longer == part[name := node]
  {
    var part, longer := SweptPart(releases, marked, done), SweptPart(releases, marked, done + [name]);
    assert forall n :: n in done + [name] <==> n in done || n == name;
    match SweptNode(name, releases[name], marked)
    case None => assert longer == part - {name};
    case Some(node) => assert longer == part[name := node];
  }

  lemma PartSpares(before: map<string, Node>, marked: set<string>, done: seq<string>, after: map<string, Node>)
    requires after == SweptPart(before, marked, done)
    ensures Spares(before, after, marked)
  {
  }

  lemma PartialPruneSpares(before: map<string, Node>, marked: set<string>, mid: map<string, Node>, name: string,
                           after: map<string, Node>)
    requires Spares(before, mid, marked) && name in before && before[name].RealDir? && name in mid
        && mid[name] == before[name]
    requires PartlyPruned(mid, after, name)
    ensures Spares(before, after, marked)
  {
  }
}
