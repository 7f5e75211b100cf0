/**
  What the release garbage collector means for the services: which references and which unit files survive it,
  and which do not (scripts/deploy_u1_marketcow.py).
 */
module ReleaseReferences {
  import opened Wrappers
  import opened Reachability
  import opened ReleaseCollector

  ghost predicate Marks(marked: set<string>, units: seq<Text>, files: map<Path, Text>) {
    forall n :: n in marked <==> IsProtected(n, units, files)
  }

  /**
    Mark and sweep together: what any unit, or any file reached from one, names inside a
    release survives the sweep unless it is a build output, and no unprotected release survives.
   */
  lemma ReferencesSurvive(units: seq<Text>, files: map<Path, Text>, releases: map<string, Node>, marked: set<string>,
                          text: Text, p: Path)
    requires Marks(marked, units, files)
    requires Relevant(text, units, files) && p in text && p != [] && p[0] in releases && releases[p[0]].RealDir?
    ensures p[0] in Swept(releases, marked)
    ensures |p| >= 2 && p[1] in releases[p[0]].children && !BuildOutput(p[1]) ==>
              p[1] in Swept(releases, marked)[p[0]].children
    ensures forall n :: n in Swept(releases, marked) && releases[n].RealDir? ==> IsProtected(n, units, files)
  {
    assert p[0] in Names(text);
    assert IsProtected(p[0], units, files);
  }

  // ---------- where a reference leads ----------

  /** A path without its "." and ".." parts; None when it leaves the releases directory. */
  function Collapse(p: Path, above: Path): Option<Path>
    decreases |p|
  {
    if p == [] then Some(above)
    else if p[0] == "." then Collapse(p[1..], above)
    else if p[0] != ".." then Collapse(p[1..], above + [p[0]])
    else if above == [] then None
    else Collapse(p[1..], above[..|above| - 1])
  }

  /** The entry that a path leads into, through at most one link. */
  function LeadsTo(releases: map<string, Node>, p: Path): Option<string> {
    var plain := Collapse(p, []);
    if plain.None? || plain.value == [] then None
    else
      var name := plain.value[0];
      Some(if name in releases && releases[name].Link? then releases[name].target else name)
  }

  /**
    A release that some relevant text refers to, by whatever path, survives exactly if some relevant text names
    it as the first part of a path; a reference that starts with the release's own name is enough.
   */
  lemma ReferencedReleaseSurvivesIff(units: seq<Text>, files: map<Path, Text>, releases: map<string, Node>,
                                     marked: set<string>, text: Text, p: Path, n: string)
    requires Marks(marked, units, files) && Relevant(text, units, files) && p in text && p != []
    requires LeadsTo(releases, p) == Some(n) && n in releases && releases[n].RealDir?
    ensures n in Swept(releases, marked) <==> IsProtected(n, units, files)
    ensures p[0] == n ==> n in Swept(releases, marked)
  {
    if p[0] == n { ReferencesSurvive(units, files, releases, marked, text, p); }
  }

  lemma ProtectedByOneText(text: Text, n: string)
    ensures IsProtected(n, [text], map[]) <==> n in Names(text)
  {
    var files: map<Path, Text> := map[];
    ReachedIsLeast([text], files);
    assert [text][0] == text;
    assert Relevant(text, [text], files);
  }

  /** A release named only through a link, or only behind "..", is removed although a unit refers to it. */
  lemma IndirectReferenceIsSwept(marked: set<string>, text: Text)
    requires text == [["current", "run"]] || text == [["old", "..", "r", "run"]]
    requires Marks(marked, [text], map[])
    ensures var releases := map["r" := RealDir(map["run" := Plain]), "current" := Link("r")];
            LeadsTo(releases, text[0]) == Some("r") && "r" !in Swept(releases, marked)
  {
    ProtectedByOneText(text, "r");
    var releases := map["r" := RealDir(map["run" := Plain]), "current" := Link("r")];
    LinkLeads(releases);
    DotsLead(releases);
  }

  lemma CollapseDown(name: string, rest: Path, above: Path)
    requires name != "." && name != ".."
    ensures Collapse([name] + rest, above) == Collapse(rest, above + [name])
  {
    assert ([name] + rest)[1..] == rest;
  }

  lemma CollapseUp(rest: Path, above: Path, name: string)
    ensures Collapse([".."] + rest, above + [name]) == Collapse(rest, above)
  {
    assert ([".."] + rest)[1..] == rest && (above + [name])[..|above|] == above;
  }

  lemma LinkLeads(releases: map<string, Node>)
    requires "current" in releases && releases["current"] == Link("r")
    ensures LeadsTo(releases, ["current", "run"]) == Some("r")
  {
    CollapseDown("current", ["run"], []);
    CollapseDown("run", [], ["current"]);
    assert ["current", "run"] == ["current"] + ["run"] && ["run"] == ["run"] + [] && [] + ["current"] == ["current"];
  }

  lemma DotsLead(releases: map<string, Node>)
    requires "r" in releases && releases["r"].RealDir?
    ensures LeadsTo(releases, ["old", "..", "r", "run"]) == Some("r")
  {
    CollapseDown("old", ["..", "r", "run"], []);
    CollapseUp(["r", "run"], [], "old");
    CollapseDown("r", ["run"], []);
    CollapseDown("run", [], ["r"]);
    assert ["old", "..", "r", "run"] == ["old"] + ["..", "r", "run"] && ["..", "r", "run"] == [".."] + ["r", "run"];
    assert ["r", "run"] == ["r"] + ["run"] && ["run"] == ["run"] + [];
    assert [] + ["old"] == ["old"] && [] + ["r"] == ["r"];
  }

  // ---------- unit files ----------

  /** A service unit: its text and, when it is a link into a release, the path of the file itself. */
  datatype Unit = Unit(text: Text, home: Option<Path>)

  function TextsOfUnits(units: seq<Unit>): seq<Text> {
    seq(|units|, i requires 0 <= i < |units| => units[i].text)
  }

  /** The entry and, in a real directory, the child that a path goes through still exist. */
  predicate Present(entries: map<string, Node>, p: Path) {
    && p != [] && p[0] in entries
    && (entries[p[0]].RealDir? && |p| >= 2 ==> p[1] in entries[p[0]].children)
  }

  ghost predicate AllPresent(entries: map<string, Node>, units: seq<Unit>) {
    forall u :: u in units && u.home.Some? ==> Present(entries, u.home.value)
  }

  /** The home is in no real release, or in one that some relevant text names and outside its build outputs. */
  ghost predicate Safe(units: seq<Unit>, files: map<Path, Text>, releases: map<string, Node>, home: Path)
    requires Present(releases, home)
  {
    releases[home[0]].RealDir? ==>
      IsProtected(home[0], TextsOfUnits(units), files) && (|home| >= 2 ==> !BuildOutput(home[1]))
  }

  lemma HomeSurvivesIff(units: seq<Unit>, files: map<Path, Text>, releases: map<string, Node>, marked: set<string>,
                        home: Path)
    requires Marks(marked, TextsOfUnits(units), files) && Present(releases, home)
    ensures Present(Swept(releases, marked), home) <==> Safe(units, files, releases, home)
  {
    assert home[0] in marked <==> IsProtected(home[0], TextsOfUnits(units), files);
  }

  /** The sweep leaves every unit file exactly if each one that lies in a release is safe. */
  lemma UnitFilesSurviveIff(units: seq<Unit>, files: map<Path, Text>, releases: map<string, Node>, marked: set<string>)
    requires Marks(marked, TextsOfUnits(units), files) && AllPresent(releases, units)
    ensures AllPresent(Swept(releases, marked), units) <==>
            forall u :: u in units && u.home.Some? ==> Safe(units, files, releases, u.home.value)
  {
    forall u | u in units && u.home.Some?
      ensures Present(Swept(releases, marked), u.home.value) <==> Safe(units, files, releases, u.home.value)
    {
      HomeSurvivesIff(units, files, releases, marked, u.home.value);
    }
  }

  /** A unit file in a release that no text names is removed with the release. */
  lemma UnnamedUnitIsSwept(marked: set<string>)
    requires var unit := Unit([], Some(["r", "units", "u.service"])); Marks(marked, TextsOfUnits([unit]), map[])
    ensures var unit := Unit([], Some(["r", "units", "u.service"]));
            var releases := map["r" := RealDir(map["units" := Plain])];
            AllPresent(releases, [unit]) && !AllPresent(Swept(releases, marked), [unit])
  {
    var unit := Unit([], Some(["r", "units", "u.service"]));
    assert TextsOfUnits([unit]) == [[]];
    ProtectedByOneText([], "r");
    assert unit in [unit];
  }
}
