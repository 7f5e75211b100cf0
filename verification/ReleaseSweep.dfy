/**
  What the release garbage collector keeps and removes, in terms of file names and mentions only
  (scripts/deploy_u1_marketcow.py).
 */
module ReleaseSweep {
  import opened Wrappers
  import opened Reachability
  import opened ReleaseCollector
  import opened ReleaseReferences

  // ---------- names ----------

  /** The last part of the path is a nonempty stem with the extension .json. */
  ghost predicate JsonNamed(p: Path) {
    exists d: Path, stem: string :: stem != "" && p == d + [stem + ".json"]
  }

  lemma IsJsonIff(p: Path)
    ensures IsJson(p) <==> JsonNamed(p)
  {
    if IsJson(p) {
      var d, last := p[..|p| - 1], p[|p| - 1];
      var stem := last[..|last| - |".json"|];
      assert last == stem + ".json";
      assert p == d + [stem + ".json"];
    }
    if d: Path, stem: string :| stem != "" && p == d + [stem + ".json"] {
      assert p[|p| - 1] == stem + ".json";
    }
  }

  /** The children of a protected release that are removed. */
  ghost predicate Removable(name: string) {
    name == "source" || name == "source-complete" || name == "target" || exists x: string :: name == "target-" + x
  }

  lemma BuildOutputIff(name: string)
    ensures BuildOutput(name) <==> Removable(name)
  {
    if |name| >= 7 && name[..7] == "target-" { assert name == "target-" + name[7..]; }
    if x: string :| name == "target-" + x { assert name[..7] == "target-"; }
  }

  // ---------- mentions ----------

  /** Existing JSON files, the first mentioned by a unit and each of the others by the one before it. */
  ghost predicate MentionChain(units: seq<Text>, files: map<Path, Text>, chain: seq<Path>) {
    && chain != []
    && (forall i :: 0 <= i < |chain| ==> chain[i] in files && JsonNamed(chain[i]))
    && (exists k :: 0 <= k < |units| && chain[0] in units[k])
    && (forall i :: 0 <= i < |chain| - 1 ==> chain[i] in files && chain[i + 1] in files[chain[i]])
  }

  /** Some path in the text begins with this name. */
  ghost predicate Mentions(text: Text, name: string) {
    exists p :: p in text && p != [] && p[0] == name
  }

  /** A unit, or the file at the end of a chain of mentions, has a path that begins with this name. */
  ghost predicate Named(name: string, units: seq<Text>, files: map<Path, Text>) {
    || (exists k :: 0 <= k < |units| && Mentions(units[k], name))
    || (exists chain :: MentionChain(units, files, chain) && Mentions(files[chain[|chain| - 1]], name))
  }

  lemma MentionsIff(text: Text, name: string)
    ensures name in Names(text) <==> Mentions(text, name)
  {
  }

  lemma JsonRefsIff(text: Text, files: map<Path, Text>, p: Path)
    ensures p in JsonRefs(text, files) <==> p in text && p in files && JsonNamed(p)
  {
    IsJsonIff(p);
  }

  lemma ChainIff(units: seq<Text>, files: map<Path, Text>, chain: seq<Path>)
    ensures Chain(Seeds(units, files), Follow(files), chain) <==> MentionChain(units, files, chain)
  {
    if Chain(Seeds(units, files), Follow(files), chain) { ChainIsMention(units, files, chain); }
    if MentionChain(units, files, chain) { MentionIsChain(units, files, chain); }
  }

  lemma ChainIsMention(units: seq<Text>, files: map<Path, Text>, chain: seq<Path>)
    requires Chain(Seeds(units, files), Follow(files), chain)
    ensures MentionChain(units, files, chain)
  {
    var k :| 0 <= k < |units| && chain[0] in JsonRefs(units[k], files);
    JsonRefsIff(units[k], files, chain[0]);
    forall i | 0 <= i < |chain| ensures chain[i] in files && JsonNamed(chain[i]) {
      if i > 0 {
        assert chain[(i - 1) + 1] in Follow(files)(chain[i - 1]);
        JsonRefsIff(files[chain[i - 1]], files, chain[i]);
      }
    }
    forall i | 0 <= i < |chain| - 1 ensures chain[i] in files && chain[i + 1] in files[chain[i]] {
      assert chain[i + 1] in Follow(files)(chain[i]);
    }
  }

  lemma MentionIsChain(units: seq<Text>, files: map<Path, Text>, chain: seq<Path>)
    requires MentionChain(units, files, chain)
    ensures Chain(Seeds(units, files), Follow(files), chain)
  {
    var k :| 0 <= k < |units| && chain[0] in units[k];
    JsonRefsIff(units[k], files, chain[0]);
    forall i | 0 <= i < |chain| - 1 ensures chain[i + 1] in Follow(files)(chain[i]) {
      JsonRefsIff(files[chain[i]], files, chain[i + 1]);
    }
  }

  lemma ReachedIff(units: seq<Text>, files: map<Path, Text>, p: Path)
    ensures p in Reached(units, files) <==>
            exists chain :: MentionChain(units, files, chain) && chain[|chain| - 1] == p
  {
    ReachedByMentions(units, files, p);
    forall chain
      ensures Chain(Seeds(units, files), Follow(files), chain) <==> MentionChain(units, files, chain)
    {
      ChainIff(units, files, chain);
    }
  }

  /** A name is protected exactly if a unit, or the end of a chain of existing JSON files from a unit, mentions it. */
  lemma ProtectedIffNamed(name: string, units: seq<Text>, files: map<Path, Text>)
    ensures IsProtected(name, units, files) <==> Named(name, units, files)
  {
    if text :| Relevant(text, units, files) && name in Names(text) {
      MentionsIff(text, name);
      if k :| 0 <= k < |units| && units[k] == text {
        assert Mentions(units[k], name);
      } else {
        var p :| p in Reached(units, files) && p in files && files[p] == text;
        ReachedIff(units, files, p);
      }
    }
    if k :| 0 <= k < |units| && Mentions(units[k], name) {
      MentionsIff(units[k], name);
      assert Relevant(units[k], units, files);
    } else if chain :| MentionChain(units, files, chain) && Mentions(files[chain[|chain| - 1]], name) {
      var p := chain[|chain| - 1];
      ReachedIff(units, files, p);
      MentionsIff(files[p], name);
      assert Relevant(files[p], units, files);
    }
  }

  // ---------- the sweep ----------

  /**
    What a completed sweep leaves: a real release exactly if it is named, without exactly the build outputs, and
    with everything else in it; all other entries as they are.
   */
  lemma SweepLeavesExactly(units: seq<Text>, files: map<Path, Text>, releases: map<string, Node>, marked: set<string>,
                           n: string)
    requires Marks(marked, units, files)
    ensures var swept := Swept(releases, marked);
            && (n in swept <==> n in releases && (releases[n].RealDir? ==> Named(n, units, files)))
            && (n in swept && !releases[n].RealDir? ==> swept[n] == releases[n])
            && (n in swept && releases[n].RealDir? ==>
                  && swept[n].RealDir?
                  && forall c :: c in swept[n].children <==> c in releases[n].children && !Removable(c))
            && (n in swept && releases[n].RealDir? ==>
                  forall c :: c in swept[n].children ==> swept[n].children[c] == releases[n].children[c])
  {
    ProtectedIffNamed(n, units, files);
    forall c ensures BuildOutput(c) <==> Removable(c) { BuildOutputIff(c); }
  }
}
