/**
  The plan of the production launcher: which components are selected and which
  services, in which order and with which start dependencies, are handed to the
  supervisor (ops/launchd/run-production.py).
 */
module ProductionPlan {
  import opened Wrappers
  import opened Distinct

  datatype Component = Discovery | Rust | Api | Controller | Activator | Btc

  /** A child process: its name, the loopback port it announces itself on, and what it waits for. */
  datatype Service<N> = Service(name: N, readyPort: Option<int>, startAfter: seq<N>, required: bool)

  datatype PlanError =
    | BadComponents
    | MissingDependency(dependent: Component)
    | BadBinance
    | BadHome
    | NotLoopback
    | PortOutOfRange
    | PortsCollide
    | NotConfigured

  /** What the environment file says, once its numbers and paths have been read. */
  datatype Settings = Settings(
    components: string,
    binanceConfigured: bool,
    binancePort: int,
    binanceBytes: int,
    homeAbsolute: bool,
    hostLoopback: bool,
    apiPort: int,
    rustPort: int,
    discoveryPort: int,
    configured: set<Component>)   // components whose own paths, ids and tokens are acceptable

  const DEFAULT_COMPONENTS: set<Component> := {Discovery, Rust, Api, Controller, Activator}

  // ---------- component selection ----------

  function Label(c: Component): string {
    match c
    case Discovery => "polymarket-discovery-collector"
    case Rust => "polymarket-rust-data-plane"
    case Api => "unified-api"
    case Controller => "polymarket-opportunity-controller"
    case Activator => "polymarket-universe-activator"
    case Btc => "binance-btc"
  }

  function Recognise(name: string): Option<Component> {
    if name == Label(Discovery) then Some(Discovery)
    else if name == Label(Rust) then Some(Rust)
    else if name == Label(Api) then Some(Api)
    else if name == Label(Controller) then Some(Controller)
    else if name == Label(Activator) then Some(Activator)
    else if name == Label(Btc) then Some(Btc)
    else None
  }

  lemma RecogniseInvertsLabel(c: Component)
    ensures Recognise(Label(c)) == Some(c)
  {
    assert |Label(Discovery)| == 30 && |Label(Rust)| == 26 && |Label(Api)| == 11;
    assert |Label(Controller)| == 33 && |Label(Activator)| == 29 && |Label(Btc)| == 11;
    assert Label(Api)[0] == 'u' && Label(Btc)[0] == 'b';
  }

  /** Splits at every separator, keeping empty pieces. */
  function Split(s: string, sep: char): (parts: seq<string>)
    ensures |parts| >= 1
  {
    if s == "" then [""]
    else
      var rest := Split(s[1..], sep);
      if s[0] == sep then [""] + rest else [[s[0]] + rest[0]] + rest[1..]
  }

  function Join(parts: seq<string>, sep: char): string
    requires |parts| >= 1
  {
    if |parts| == 1 then parts[0] else parts[0] + [sep] + Join(parts[1..], sep)
  }

  lemma {:induction false} SplitWhole(s: string, sep: char)
    requires sep !in s
    ensures Split(s, sep) == [s]
  {
    if s != "" {
      SplitWhole(s[1..], sep);
      assert s == [s[0]] + s[1..];
    }
  }

  lemma {:induction false} SplitHead(head: string, tail: string, sep: char)
    requires sep !in head
    ensures Split(head + [sep] + tail, sep) == [head] + Split(tail, sep)
  {
    var s := head + [sep] + tail;
    if head == "" {
      assert s[1..] == tail;
    } else {
      SplitHead(head[1..], tail, sep);
      assert s[1..] == head[1..] + [sep] + tail;
      assert head == [head[0]] + head[1..];
    }
  }

  lemma {:induction false} SplitInvertsJoin(parts: seq<string>, sep: char)
    requires |parts| >= 1
    requires forall p :: p in parts ==> sep !in p
    ensures Split(Join(parts, sep), sep) == parts
  {
    if |parts| == 1 {
      SplitWhole(parts[0], sep);
    } else {
      SplitInvertsJoin(parts[1..], sep);
      SplitHead(parts[0], Join(parts[1..], sep), sep);
    }
  }

  lemma JoinIsLong(parts: seq<string>, sep: char)
    requires |parts| >= 1
    ensures |Join(parts, sep)| >= |parts[0]|
  {
  }

  function RecogniseAll(names: seq<string>): (r: Option<seq<Component>>)
    ensures r.Some? ==> |r.value| == |names| && forall i :: 0 <= i < |names| ==> Recognise(names[i]) == Some(r.value[i])
    ensures r.None? ==> exists i :: 0 <= i < |names| && Recognise(names[i]).None?
  {
    if names == [] then Some([])
    else
      var head, rest := Recognise(names[0]), RecogniseAll(names[1..]);
      if head.Some? && rest.Some? then Some([head.value] + rest.value) else None
  }

  function Admit(components: seq<Component>): Result<set<Component>, PlanError> {
    var selected := ToSet(components);
    if |selected| != |components| then Failure(BadComponents)
    else if Controller in selected && !({Api, Rust} <= selected) then Failure(MissingDependency(Controller))
    else if Activator in selected && !({Api, Rust} <= selected) then Failure(MissingDependency(Activator))
    else Success(selected)
  }

  function SelectedComponents(value: string): Result<set<Component>, PlanError> {
    if value == "all" then Success(DEFAULT_COMPONENTS)
    else
      match RecogniseAll(Split(value, ','))
      case None => Failure(BadComponents)
      case Some(components) => Admit(components)
  }

  function Labels(components: seq<Component>): seq<string> {
    seq(|components|, i requires 0 <= i < |components| => Label(components[i]))
  }

  lemma {:induction false} RecogniseLabels(components: seq<Component>)
    ensures RecogniseAll(Labels(components)) == Some(components)
  {
    var names := Labels(components);
    forall i | 0 <= i < |names| ensures Recognise(names[i]) == Some(components[i]) {
      RecogniseInvertsLabel(components[i]);
    }
    var r := RecogniseAll(names);
    assert r.Some?;
    assert r.value == components;
  }

  /** No component name contains the separator, so a list of names is read back as it was written. */
  lemma LabelsHaveNoComma(c: Component)
    ensures ',' !in Label(c) && |Label(c)| > 3
  {
  }

  /** Written with commas and read back, a list of components is itself. */
  lemma NamesReadBack(components: seq<Component>)
    requires |components| >= 1
    ensures Join(Labels(components), ',') != "all"
    ensures RecogniseAll(Split(Join(Labels(components), ','), ',')) == Some(components)
  {
    var names := Labels(components);
    forall p | p in names ensures ',' !in p {
      var i :| 0 <= i < |names| && names[i] == p;
      LabelsHaveNoComma(components[i]);
    }
    LabelsHaveNoComma(components[0]);
    JoinIsLong(names, ',');
    SplitInvertsJoin(names, ',');
    RecogniseLabels(components);
  }

  lemma AdmittedExactly(components: seq<Component>)
    ensures Admit(components).Success? <==>
            && NoDuplicates(components)
            && (Controller in components || Activator in components ==> Api in components && Rust in components)
    ensures Admit(components).Success? ==> Admit(components).value == ToSet(components)
  {
    SizeTestFindsDuplicates(components);
  }

  /**
    A comma-separated list of component names is accepted exactly when no name is repeated and
    both dependents come with the API and the data plane; the selection is then the set of the
    named components, whatever their order.
   */
  lemma SelectionOfNames(components: seq<Component>)
    requires |components| >= 1
    ensures var r := SelectedComponents(Join(Labels(components), ','));
            && (r.Success? <==>
                && NoDuplicates(components)
                && (Controller in components || Activator in components ==> Api in components && Rust in components))
            && (r.Success? ==> forall c :: c in r.value <==> c in components)
  {
    NamesReadBack(components);
    AdmittedExactly(components);
    assert SelectedComponents(Join(Labels(components), ',')) == Admit(components);
  }

  /** Any accepted selection is closed under the dependencies the launcher declares. */
  lemma SelectionIsClosed(value: string)
    requires SelectedComponents(value).Success?
    ensures var selected := SelectedComponents(value).value;
            Controller in selected || Activator in selected ==> Api in selected && Rust in selected
  {
    if value != "all" {
      var components := RecogniseAll(Split(value, ',')).value;
      assert Admit(components).Success?;
    }
  }

  // ---------- the services ----------

  predicate InPortRange(port: int) { 1 <= port <= 65535 }

  /** The order in which the services are written down. */
  const ORDER: seq<Component> := [Discovery, Rust, Api, Controller, Activator, Btc]

  function MakeService(c: Component, selected: set<Component>, s: Settings): Service<Component> {
    match c
    case Discovery => Service(Discovery, Some(s.discoveryPort), [], false)
    case Rust => Service(Rust, Some(s.rustPort), [], true)
    case Api => Service(Api, Some(s.apiPort), if Rust in selected then [Rust] else [], true)
    case Controller => Service(Controller, None, [Api], true)
    case Activator => Service(Activator, None, [Api], true)
    case Btc => Service(Btc, Some(s.binancePort), [], true)
  }

  function Selection(order: seq<Component>, selected: set<Component>): seq<Component> {
    if order == [] then []
    else (if order[0] in selected then [order[0]] else []) + Selection(order[1..], selected)
  }

  function Services(chosen: seq<Component>, selected: set<Component>, s: Settings): (plan: seq<Service<Component>>)
    ensures |plan| == |chosen| && forall i :: 0 <= i < |plan| ==> plan[i] == MakeService(chosen[i], selected, s)
  {
    seq(|chosen|, i requires 0 <= i < |chosen| => MakeService(chosen[i], selected, s))
  }

  function SelectedPort(c: Component, port: int, selected: set<Component>): seq<int> {
    if c in selected then [port] else []
  }

  function Ports(selected: set<Component>, s: Settings): seq<int> {
    SelectedPort(Api, s.apiPort, selected) + SelectedPort(Rust, s.rustPort, selected)
    + SelectedPort(Discovery, s.discoveryPort, selected) + SelectedPort(Btc, s.binancePort, selected)
  }

  predicate BadPort(port: int, ports: seq<int>) {
    port in ports && !InPortRange(port)
  }

  function CheckedServices(selected: set<Component>, s: Settings): Result<seq<Service<Component>>, PlanError> {
    if Btc in selected && (!s.binanceConfigured || !InPortRange(s.binancePort) || s.binanceBytes <= 0) then
      Failure(BadBinance)
    else if selected == {Btc} then Success([MakeService(Btc, selected, s)])
    else if !s.homeAbsolute then Failure(BadHome)
    else if !s.hostLoopback then Failure(NotLoopback)
    else
      var ports := Ports(selected, s);
      if BadPort(s.apiPort, ports) || BadPort(s.rustPort, ports) || BadPort(s.discoveryPort, ports) then
        Failure(PortOutOfRange)
      else if |ToSet(ports)| != |ports| then Failure(PortsCollide)
      else if !(selected - {Btc, Api} <= s.configured) then Failure(NotConfigured)
      else Success(Services(Selection(ORDER, selected), selected, s))
  }

  function BuildServices(s: Settings): Result<seq<Service<Component>>, PlanError> {
    match SelectedComponents(s.components)
    case Failure(e) => Failure(e)
    case Success(selected) => CheckedServices(selected, s)
  }

  // ---------- what the supervisor relies on ----------

  ghost predicate DistinctNames<N(!new)>(plan: seq<Service<N>>) {
    forall i, j :: 0 <= i < j < |plan| ==> plan[i].name != plan[j].name
  }

  /** A service that others may wait for: it is required and announces itself on a port. */
  ghost predicate Awaitable<N>(s: Service<N>) { s.required && s.readyPort.Some? }

  ghost predicate DependenciesEarlier<N(!new)>(plan: seq<Service<N>>) {
    forall i, d :: 0 <= i < |plan| && d in plan[i].startAfter ==>
      exists j :: 0 <= j < i && plan[j].name == d && Awaitable(plan[j])
  }

  ghost predicate DistinctPorts<N(!new)>(plan: seq<Service<N>>) {
    && (forall i :: 0 <= i < |plan| && plan[i].readyPort.Some? ==> InPortRange(plan[i].readyPort.value))
    && (forall i, j :: 0 <= i < j < |plan| && plan[i].readyPort.Some? && plan[j].readyPort.Some? ==>
          plan[i].readyPort != plan[j].readyPort)
  }

  ghost predicate Ranked<N(!new)>(plan: seq<Service<N>>, rank: N -> nat) {
    forall i, d :: 0 <= i < |plan| && d in plan[i].startAfter ==> rank(d) < rank(plan[i].name)
  }

  /** Height of a component in the start order: the data plane, then the API, then its two clients. */
  function Height(c: Component): nat {
    match c
    case Api => 1
    case Controller => 2
    case Activator => 2
    case _ => 0
  }

  function Position(c: Component): nat {
    match c
    case Discovery => 0
    case Rust => 1
    case Api => 2
    case Controller => 3
    case Activator => 4
    case Btc => 5
  }

  ghost predicate Ascending(xs: seq<Component>) {
    forall i, j :: 0 <= i < j < |xs| ==> Position(xs[i]) < Position(xs[j])
  }

  /** Filtering keeps the written order and loses no selected component. */
  lemma {:induction false} SelectionKeepsOrder(order: seq<Component>, selected: set<Component>)
    requires Ascending(order)
    ensures Ascending(Selection(order, selected))
    ensures forall c :: c in Selection(order, selected) <==> c in order && c in selected
  {
    if order != [] {
      var c, rest := order[0], order[1..];
      AscendingTail(order);
      SelectionKeepsOrder(rest, selected);
      if c in selected { AscendingCons(c, Selection(rest, selected)); }
    }
  }

  lemma AscendingTail(order: seq<Component>)
    requires order != [] && Ascending(order)
    ensures Ascending(order[1..]) && forall c :: c in order[1..] ==> Position(order[0]) < Position(c)
    ensures forall c :: c in order <==> c == order[0] || c in order[1..]
  {
    var rest := order[1..];
    assert forall i :: 0 <= i < |rest| ==> rest[i] == order[i + 1];
  }

  lemma AscendingCons(c: Component, rest: seq<Component>)
    requires Ascending(rest) && forall d :: d in rest ==> Position(c) < Position(d)
    ensures Ascending([c] + rest)
  {
  }

  function PortOf(c: Component, s: Settings): Option<int> {
    MakeService(c, {}, s).readyPort
  }

  /** Equal ports of two selected components show up as a duplicate in the list that is checked. */
  lemma PortsApart(selected: set<Component>, s: Settings, c: Component, d: Component)
    requires NoDuplicates(Ports(selected, s))
    requires c in selected && d in selected && c != d && PortOf(c, s).Some?
    ensures PortOf(c, s) != PortOf(d, s)
  {
    if PortOf(d, s).Some? {
      var i := PortIndex(selected, s, c);
      var j := PortIndex(selected, s, d);
    }
  }

  function PortPlace(c: Component, selected: set<Component>): nat {
    (if c != Api && Api in selected then 1 else 0)
    + (if c in {Discovery, Btc} && Rust in selected then 1 else 0)
    + (if c == Btc && Discovery in selected then 1 else 0)
  }

  lemma PortIndex(selected: set<Component>, s: Settings, c: Component) returns (i: nat)
    requires c in selected && PortOf(c, s).Some?
    ensures i == PortPlace(c, selected)
    ensures i < |Ports(selected, s)| && Ports(selected, s)[i] == PortOf(c, s).value
  {
    i := PortPlace(c, selected);
  }

  ghost predicate Startable(plan: seq<Service<Component>>, selected: set<Component>) {
    && (forall c :: c in selected <==> exists i :: 0 <= i < |plan| && plan[i].name == c)
    && DistinctNames(plan)
    && DependenciesEarlier(plan)
    && DistinctPorts(plan)
    && Ranked(plan, Height)
    && (forall i :: 0 <= i < |plan| ==> Height(plan[i].name) <= 2)
  }

  /**
    Every plan that is built starts exactly the selected components, each once; every start
    dependency comes earlier in the plan, is required and has a port to wait for; no two
    services share a port; and a client is at most two steps away from a root.
   */
  lemma BuiltPlanIsStartable(s: Settings)
    requires BuildServices(s).Success?
    ensures SelectedComponents(s.components).Success?
    ensures Startable(BuildServices(s).value, SelectedComponents(s.components).value)
  {
    SelectionIsClosed(s.components);
    var selected := SelectedComponents(s.components).value;
    CheckedPlanIsStartable(selected, s);
  }

  lemma ChosenInOrder(selected: set<Component>)
    ensures Ascending(Selection(ORDER, selected))
    ensures forall c :: c in Selection(ORDER, selected) <==> c in selected
  {
    SelectionKeepsOrder(ORDER, selected);
    forall c: Component ensures c in ORDER { assert c == ORDER[Position(c)]; }
  }

  lemma CheckedPlanIsStartable(selected: set<Component>, s: Settings)
    requires CheckedServices(selected, s).Success?
    requires Controller in selected || Activator in selected ==> Api in selected && Rust in selected
    ensures Startable(CheckedServices(selected, s).value, selected)
  {
    if selected == {Btc} {
      assert CheckedServices(selected, s).value[0].name == Btc;
    } else {
      ChosenInOrder(selected);
      PortsAreChecked(selected, s);
      ChosenPlan(Selection(ORDER, selected), selected, s);
    }
  }

  lemma ChosenPlan(chosen: seq<Component>, selected: set<Component>, s: Settings)
    requires Ascending(chosen) && forall c :: c in chosen <==> c in selected
    requires Controller in selected || Activator in selected ==> Api in selected && Rust in selected
    requires PortsInRange(selected, s) && NoDuplicates(Ports(selected, s))
    ensures Startable(Services(chosen, selected, s), selected)
  {
    ChosenNames(chosen, selected, s);
    ChosenDependencies(chosen, selected, s);
    ChosenPorts(chosen, selected, s);
  }

  lemma ChosenNames(chosen: seq<Component>, selected: set<Component>, s: Settings)
    requires Ascending(chosen) && forall c :: c in chosen <==> c in selected
    ensures var plan := Services(chosen, selected, s);
            && (forall c :: c in selected <==> exists i :: 0 <= i < |plan| && plan[i].name == c)
            && DistinctNames(plan)
  {
    var plan := Services(chosen, selected, s);
    assert forall i :: 0 <= i < |plan| ==> plan[i].name == chosen[i];
    forall c | c in selected ensures exists i :: 0 <= i < |plan| && plan[i].name == c {
      var i :| 0 <= i < |chosen| && chosen[i] == c;
      assert plan[i].name == c;
    }
  }

  lemma ChosenDependencies(chosen: seq<Component>, selected: set<Component>, s: Settings)
    requires Ascending(chosen) && forall c :: c in chosen <==> c in selected
    requires Controller in selected || Activator in selected ==> Api in selected && Rust in selected
    ensures DependenciesEarlier(Services(chosen, selected, s)) && Ranked(Services(chosen, selected, s), Height)
  {
    var plan := Services(chosen, selected, s);
    forall i, d | 0 <= i < |plan| && d in plan[i].startAfter
      ensures exists j :: 0 <= j < i && plan[j].name == d && Awaitable(plan[j])
    {
      assert chosen[i] in chosen;
      assert d in chosen && Position(d) < Position(chosen[i]);
      var j :| 0 <= j < |chosen| && chosen[j] == d;
      assert j < i && plan[j].name == d && Awaitable(plan[j]);
    }
  }

  lemma ChosenPorts(chosen: seq<Component>, selected: set<Component>, s: Settings)
    requires Ascending(chosen) && forall c :: c in chosen <==> c in selected
    requires PortsInRange(selected, s) && NoDuplicates(Ports(selected, s))
    ensures DistinctPorts(Services(chosen, selected, s))
  {
    var plan := Services(chosen, selected, s);
    forall i, j | 0 <= i < j < |plan| && plan[i].readyPort.Some? ensures plan[i].readyPort != plan[j].readyPort {
      ChosenPortsApart(chosen, selected, s, i, j);
    }
    forall i | 0 <= i < |plan| && plan[i].readyPort.Some? ensures InPortRange(plan[i].readyPort.value) {
      assert chosen[i] in chosen && plan[i].readyPort == PortOf(chosen[i], s);
    }
  }

  lemma ChosenPortsApart(chosen: seq<Component>, selected: set<Component>, s: Settings, i: nat, j: nat)
    requires Ascending(chosen) && forall c :: c in chosen <==> c in selected
    requires NoDuplicates(Ports(selected, s)) && i < j < |chosen|
    requires PortOf(chosen[i], s).Some?
    ensures PortOf(chosen[i], s) != PortOf(chosen[j], s)
    ensures MakeService(chosen[i], selected, s).readyPort == PortOf(chosen[i], s)
    ensures MakeService(chosen[j], selected, s).readyPort == PortOf(chosen[j], s)
  {
    assert chosen[i] in chosen && chosen[j] in chosen;
    PortsApart(selected, s, chosen[i], chosen[j]);
  }

  lemma PortIsChecked(selected: set<Component>, s: Settings, c: Component)
    requires CheckedServices(selected, s).Success? && selected != {Btc}
    requires c in selected && PortOf(c, s).Some?
    ensures InPortRange(PortOf(c, s).value)
  {
    if c != Btc {
      var p := PortOf(c, s).value;
      var i := PortIndex(selected, s, c);
      assert p in Ports(selected, s);
    }
  }

  ghost predicate PortsInRange(selected: set<Component>, s: Settings) {
    forall c :: c in selected && PortOf(c, s).Some? ==> InPortRange(PortOf(c, s).value)
  }

  lemma PortsAreChecked(selected: set<Component>, s: Settings)
    requires CheckedServices(selected, s).Success? && selected != {Btc}
    ensures PortsInRange(selected, s) && NoDuplicates(Ports(selected, s))
  {
    SizeTestFindsDuplicates(Ports(selected, s));
    forall c | c in selected && PortOf(c, s).Some? ensures InPortRange(PortOf(c, s).value) {
      PortIsChecked(selected, s, c);
    }
  }
}
