/** What the launcher's plan contains, service by service, and when there is one (ops/launchd/run-production.py). */
module PlanShape {
  import opened Wrappers
  import opened Distinct
  import opened ProductionPlan

  // ---------- the services ----------

  /** What a service waits for, announces and means for the run. */
  ghost predicate AsWritten(x: Service<Component>, selected: set<Component>, s: Settings) {
    && (x.required <==> x.name != Discovery)
    && (x.name == Api ==> x.startAfter == (if Rust in selected then [Rust] else []) && x.readyPort == Some(s.apiPort))
    && (x.name == Controller || x.name == Activator ==> x.startAfter == [Api] && x.readyPort == None)
    && (x.name == Discovery ==> x.startAfter == [] && x.readyPort == Some(s.discoveryPort))
    && (x.name == Rust ==> x.startAfter == [] && x.readyPort == Some(s.rustPort))
    && (x.name == Btc ==> x.startAfter == [] && x.readyPort == Some(s.binancePort))
  }

  lemma ServiceIsAsWritten(c: Component, selected: set<Component>, s: Settings)
    ensures MakeService(c, selected, s).name == c && AsWritten(MakeService(c, selected, s), selected, s)
  {
  }

  ghost predicate InWrittenOrder(plan: seq<Service<Component>>) {
    forall i, j :: 0 <= i < j < |plan| ==> Position(plan[i].name) < Position(plan[j].name)
  }

  ghost predicate AllAsWritten(plan: seq<Service<Component>>, selected: set<Component>, s: Settings) {
    forall i :: 0 <= i < |plan| ==> AsWritten(plan[i], selected, s)
  }

  lemma ServicesAreAsWritten(chosen: seq<Component>, selected: set<Component>, s: Settings)
    requires Ascending(chosen)
    ensures InWrittenOrder(Services(chosen, selected, s)) && AllAsWritten(Services(chosen, selected, s), selected, s)
  {
    var plan := Services(chosen, selected, s);
    forall i | 0 <= i < |plan| ensures plan[i].name == chosen[i] && AsWritten(plan[i], selected, s) {
      ServiceIsAsWritten(chosen[i], selected, s);
    }
  }

  lemma CheckedPlanIsAsWritten(selected: set<Component>, s: Settings)
    requires CheckedServices(selected, s).Success?
    ensures InWrittenOrder(CheckedServices(selected, s).value)
    ensures AllAsWritten(CheckedServices(selected, s).value, selected, s)
  {
    if selected == {Btc} {
      ServicesAreAsWritten([Btc], selected, s);
      assert Services([Btc], selected, s) == [MakeService(Btc, selected, s)];
    } else {
      ChosenInOrder(selected);
      ServicesAreAsWritten(Selection(ORDER, selected), selected, s);
    }
  }

  /**
    Every plan that is built consists of exactly the selected components in the written order, and each service
    has exactly the flag, the dependencies and the port of its component.
   */
  lemma BuiltPlanIsAsWritten(s: Settings)
    requires BuildServices(s).Success?
    ensures SelectedComponents(s.components).Success?
    ensures var plan, selected := BuildServices(s).value, SelectedComponents(s.components).value;
            && (forall c :: c in selected <==> exists i :: 0 <= i < |plan| && plan[i].name == c)
            && InWrittenOrder(plan)
            && AllAsWritten(plan, selected, s)
  {
    BuiltPlanIsStartable(s);
    CheckedPlanIsAsWritten(SelectedComponents(s.components).value, s);
  }

  /** The default component list and ports, with acceptable paths, give these five services in this order. */
  lemma DefaultSettingsBuild(s: Settings)
    requires s.components == "all" && s.homeAbsolute && s.hostLoopback && DEFAULT_COMPONENTS <= s.configured
    requires s.apiPort == 8790 && s.rustPort == 8796 && s.discoveryPort == 8795
    ensures BuildServices(s) == Success([
      Service(Discovery, Some(8795), [], false),
      Service(Rust, Some(8796), [], true),
      Service(Api, Some(8790), [Rust], true),
      Service(Controller, None, [Api], true),
      Service(Activator, None, [Api], true)])
  {
    assert SelectedComponents(s.components) == Success(DEFAULT_COMPONENTS);
    DefaultChecks(DEFAULT_COMPONENTS, s);
    DefaultSelection();
    DefaultServices(DEFAULT_COMPONENTS, s);
  }

  lemma DefaultServices(selected: set<Component>, s: Settings)
    requires Rust in selected && s.apiPort == 8790 && s.rustPort == 8796 && s.discoveryPort == 8795
    ensures Services([Discovery, Rust, Api, Controller, Activator], selected, s) == [
      Service(Discovery, Some(8795), [], false),
      Service(Rust, Some(8796), [], true),
      Service(Api, Some(8790), [Rust], true),
      Service(Controller, None, [Api], true),
      Service(Activator, None, [Api], true)]
  {
  }

  lemma DefaultChecks(selected: set<Component>, s: Settings)
    requires Api in selected && Rust in selected && Discovery in selected && Btc !in selected
    requires s.homeAbsolute && s.hostLoopback && selected - {Btc, Api} <= s.configured
    requires s.apiPort == 8790 && s.rustPort == 8796 && s.discoveryPort == 8795
    ensures CheckedServices(selected, s) == Success(Services(Selection(ORDER, selected), selected, s))
  {
    assert selected != {Btc};
    DefaultPorts(selected, s);
  }

  lemma DefaultPorts(selected: set<Component>, s: Settings)
    requires Api in selected && Rust in selected && Discovery in selected && Btc !in selected
    requires s.apiPort != s.rustPort && s.apiPort != s.discoveryPort && s.rustPort != s.discoveryPort
    ensures |ToSet(Ports(selected, s))| == |Ports(selected, s)|
  {
    assert Ports(selected, s) == [s.apiPort, s.rustPort, s.discoveryPort];
    SizeTestFindsDuplicates(Ports(selected, s));
  }

  lemma DefaultSelection()
    ensures Selection(ORDER, DEFAULT_COMPONENTS) == [Discovery, Rust, Api, Controller, Activator]
  {
    assert ORDER[1..] == [Rust, Api, Controller, Activator, Btc]
        && ORDER[1..][1..] == [Api, Controller, Activator, Btc];
    assert [Api, Controller, Activator, Btc][1..] == [Controller, Activator, Btc];
    assert [Controller, Activator, Btc][1..] == [Activator, Btc] && [Activator, Btc][1..] == [Btc] && [Btc][1..] == [];
    assert Selection([Activator, Btc], DEFAULT_COMPONENTS) == [Activator];
    assert Selection([Api, Controller, Activator, Btc], DEFAULT_COMPONENTS) == [Api, Controller, Activator];
  }

  // ---------- when there is a plan ----------

  /** If both components are selected, their ports differ. */
  ghost predicate Apart(c: Component, p: int, d: Component, q: int, selected: set<Component>) {
    c in selected && d in selected ==> p != q
  }

  /** The selected components listen on valid ports, no two on the same one. */
  ghost predicate PortsUsable(selected: set<Component>, s: Settings) {
    && (Api in selected ==> 1 <= s.apiPort <= 65535)
    && (Rust in selected ==> 1 <= s.rustPort <= 65535)
    && (Discovery in selected ==> 1 <= s.discoveryPort <= 65535)
    && Apart(Api, s.apiPort, Rust, s.rustPort, selected)
    && Apart(Api, s.apiPort, Discovery, s.discoveryPort, selected)
    && Apart(Rust, s.rustPort, Discovery, s.discoveryPort, selected)
    && Apart(Api, s.apiPort, Btc, s.binancePort, selected)
    && Apart(Rust, s.rustPort, Btc, s.binancePort, selected)
    && Apart(Discovery, s.discoveryPort, Btc, s.binancePort, selected)
  }

  ghost predicate BinanceUsable(s: Settings) {
    s.binanceConfigured && 1 <= s.binancePort <= 65535 && s.binanceBytes > 0
  }

  /** What everything but the Binance worker alone needs. */
  ghost predicate StackUsable(selected: set<Component>, s: Settings) {
    && s.homeAbsolute && s.hostLoopback && PortsUsable(selected, s)
    && forall c :: c in selected && c != Btc && c != Api ==> c in s.configured
  }

  ghost predicate Usable(selected: set<Component>, s: Settings) {
    && (Btc in selected ==> BinanceUsable(s))
    && (selected != {Btc} ==> StackUsable(selected, s))
  }

  lemma PortListed(selected: set<Component>, s: Settings)
    ensures forall p :: p in Ports(selected, s) <==>
              || (Api in selected && p == s.apiPort) || (Rust in selected && p == s.rustPort)
              || (Discovery in selected && p == s.discoveryPort) || (Btc in selected && p == s.binancePort)
  {
  }

  lemma PortsInRangeIff(selected: set<Component>, s: Settings)
    requires Btc in selected ==> InPortRange(s.binancePort)
    ensures var ports := Ports(selected, s);
            !BadPort(s.apiPort, ports) && !BadPort(s.rustPort, ports) && !BadPort(s.discoveryPort, ports) <==>
            && (Api in selected ==> 1 <= s.apiPort <= 65535)
            && (Rust in selected ==> 1 <= s.rustPort <= 65535)
            && (Discovery in selected ==> 1 <= s.discoveryPort <= 65535)
  {
    PortListed(selected, s);
  }

  lemma TwoListsDistinct(xs: seq<int>, ys: seq<int>)
    ensures NoDuplicates(xs + ys) <==> NoDuplicates(xs) && NoDuplicates(ys) && forall x :: x in xs ==> x !in ys
  {
    var zs := xs + ys;
    if NoDuplicates(zs) {
      forall i, j | 0 <= i < j < |xs| ensures xs[i] != xs[j] { assert zs[i] != zs[j]; }
      forall i, j | 0 <= i < j < |ys| ensures ys[i] != ys[j] { assert zs[|xs| + i] != zs[|xs| + j]; }
      forall i, j | 0 <= i < |xs| && 0 <= j < |ys| ensures xs[i] != ys[j] { assert zs[i] != zs[|xs| + j]; }
    }
    if NoDuplicates(xs) && NoDuplicates(ys) && forall x :: x in xs ==> x !in ys {
      forall i, j | 0 <= i < j < |zs| ensures zs[i] != zs[j] {
        if i < |xs| <= j { assert zs[i] in xs && zs[j] == ys[j - |xs|]; }
      }
    }
  }

  lemma OnePort(c: Component, p: int, ys: seq<int>, d: Component, q: int, selected: set<Component>)
    ensures NoDuplicates(SelectedPort(d, q, selected))
    ensures (forall x :: x in SelectedPort(c, p, selected) ==> x !in SelectedPort(d, q, selected)) <==>
            Apart(c, p, d, q, selected)
    ensures (forall x :: x in ys + SelectedPort(c, p, selected) ==> x !in SelectedPort(d, q, selected)) <==>
            Apart(c, p, d, q, selected) && forall x :: x in ys ==> x !in SelectedPort(d, q, selected)
  {
    var xs := SelectedPort(c, p, selected);
    assert c in selected ==> p in xs && p in ys + xs;
    assert d in selected ==> q in SelectedPort(d, q, selected);
    assert forall x :: x in ys + xs <==> x in ys || x in xs;
  }

  lemma PortsDistinctIff(selected: set<Component>, s: Settings)
    ensures NoDuplicates(Ports(selected, s)) <==>
            && Apart(Api, s.apiPort, Rust, s.rustPort, selected)
            && Apart(Api, s.apiPort, Discovery, s.discoveryPort, selected)
            && Apart(Rust, s.rustPort, Discovery, s.discoveryPort, selected)
            && Apart(Api, s.apiPort, Btc, s.binancePort, selected)
            && Apart(Rust, s.rustPort, Btc, s.binancePort, selected)
            && Apart(Discovery, s.discoveryPort, Btc, s.binancePort, selected)
  {
    var a, r := SelectedPort(Api, s.apiPort, selected), SelectedPort(Rust, s.rustPort, selected);
    var d, b := SelectedPort(Discovery, s.discoveryPort, selected), SelectedPort(Btc, s.binancePort, selected);
    TwoListsDistinct(a, r);
    OnePort(Api, s.apiPort, [], Rust, s.rustPort, selected);
    TwoListsDistinct(a + r, d);
    OnePort(Api, s.apiPort, [], Discovery, s.discoveryPort, selected);
    OnePort(Rust, s.rustPort, a, Discovery, s.discoveryPort, selected);
    TwoListsDistinct(a + r + d, b);
    OnePort(Api, s.apiPort, [], Btc, s.binancePort, selected);
    OnePort(Rust, s.rustPort, a, Btc, s.binancePort, selected);
    OnePort(Discovery, s.discoveryPort, a + r, Btc, s.binancePort, selected);
    assert NoDuplicates(a);
  }

  lemma ConfiguredIff(selected: set<Component>, configured: set<Component>)
    ensures selected - {Btc, Api} <= configured <==>
            forall c :: c in selected && c != Btc && c != Api ==> c in configured
  {
    assert forall c :: c in selected - {Btc, Api} <==> c in selected && c != Btc && c != Api;
  }

  lemma StackIff(selected: set<Component>, s: Settings)
    requires selected != {Btc} && (Btc in selected ==> BinanceUsable(s))
    ensures CheckedServices(selected, s).Success? <==> StackUsable(selected, s)
  {
    PortsInRangeIff(selected, s);
    PortsDistinctIff(selected, s);
    SizeTestFindsDuplicates(Ports(selected, s));
    ConfiguredIff(selected, s.configured);
  }

  lemma CheckedServicesIff(selected: set<Component>, s: Settings)
    ensures CheckedServices(selected, s).Success? <==> Usable(selected, s)
  {
    if selected != {Btc} && (Btc in selected ==> BinanceUsable(s)) { StackIff(selected, s); }
  }

  /**
    There is a plan exactly if the component list is accepted, the Binance worker (if selected) has its settings,
    and, unless it is alone, the home directory is absolute, the host is a loopback address, the ports of the
    selected components are valid and different, and the selected components are configured.
   */
  lemma PlanExistsIff(s: Settings)
    ensures BuildServices(s).Success? <==>
            SelectedComponents(s.components).Success? && Usable(SelectedComponents(s.components).value, s)
  {
    if SelectedComponents(s.components).Success? {
      CheckedServicesIff(SelectedComponents(s.components).value, s);
    }
  }
}
