/** What a region holds after a spec was applied to it. */
module OnboardingOutcome {
  import opened Basics
  import opened Region
  import opened OnboardingApply
  import opened OnboardingDelete
  import opened OnboardingExtends
  import opened OnboardingRevalidate

  /** Each interface of the spec's router leads to a subnet with a gateway address. */
  ghost predicate InterfacesHaveGateways(r: State, spec: Spec) {
    spec.router.Some? && spec.router.value.name in r.routers ==>
      forall n :: n in r.routers[spec.router.value.name].interfaces ==> n in r.subnets && r.subnets[n].gateway.Some?
  }

  lemma {:induction false} GatewaysKept(p: Progress, spec: Spec, ops: seq<Op>)
    requires InterfacesHaveGateways(p.state, spec)
    ensures InterfacesHaveGateways(RunOps(p, spec, ops).state, spec)
    decreases |ops|
  {
    if ops != [] {
      GatewaysKept(Do(p, spec, ops[0]), spec, ops[1..]);
    }
  }

  /** The router the run made, or found, is the one the spec asks for. */
  ghost predicate RouterAsMade(r: State, spec: Spec) {
    spec.router.Some? && spec.router.value.name in r.routers ==>
      var router := r.routers[spec.router.value.name];
      router == RouterOf(spec).(interfaces := router.interfaces)
  }

  lemma {:induction false} RouterKept(p: Progress, spec: Spec, ops: seq<Op>)
    requires RouterAsMade(p.state, spec)
    ensures RouterAsMade(RunOps(p, spec, ops).state, spec)
    decreases |ops|
  {
    if ops != [] {
      RouterKept(Do(p, spec, ops[0]), spec, ops[1..]);
    }
  }

  /** Where the router's step and the attaching of a subnet stand among the steps. */
  lemma RouterSteps(spec: Spec, i: nat)
    requires spec.router.Some? && i < |spec.subnets|
    ensures |CoreOps(spec)| == 2 + 2 * |spec.subnets|
    ensures CoreOps(spec)[1 + |spec.subnets|] == MakeRouter
    ensures CoreOps(spec)[2 + |spec.subnets| + i] == Attach(spec.subnets[i].name)
  {
    assert RouterOps(spec)[1 + i] == Attaches(spec.subnets)[i];
  }

  lemma SameCoreSameDone(a: State, b: State, spec: Spec, op: Op)
    requires SameCore(a, b) && IsCore(op) && Done(a, spec, op)
    ensures Done(b, spec, op)
  {
    if op.Attach? {
      assert Attached(a, op.subnet) <==> Attached(b, op.subnet);
    }
  }

  /** A run to the end leaves every step of the core done. */
  lemma CoreStepDone(start: State, spec: Spec, k: nat)
    requires k < |CoreOps(spec)|
    ensures Done(Applied(start, spec), spec, CoreOps(spec)[k])
  {
    var core := CoreOps(spec);
    CoreWellPlaced(spec);
    PrefixDone(Progress(start, false), spec, core, |core|);
    assert core[..|core|] == core;
    assert Ops(spec)[..|Ops(spec)|] == Ops(spec);
    CutCore(start, spec, |Ops(spec)|);
    SameCoreSameDone(CoreCut(start, spec, |core|), Applied(start, spec), spec, core[k]);
  }

  lemma AllAttached(start: State, spec: Spec, i: nat)
    requires spec.router.Some? && i < |spec.subnets|
    ensures !CanAttach(Applied(start, spec), spec.router.value.name, spec.subnets[i].name)
  {
    RouterSteps(spec, i);
    CoreStepDone(start, spec, 2 + |spec.subnets| + i);
  }

  lemma RouterPresent(start: State, spec: Spec)
    requires spec.router.Some?
    ensures spec.router.value.name in Applied(start, spec).routers
  {
    assert CoreOps(spec)[1 + |spec.subnets|] == MakeRouter;
    CoreStepDone(start, spec, 1 + |spec.subnets|);
  }

  // ------------------------------------------------------ what the spec says

  /** What was there still is, but for interfaces of routers and rules of groups. */
  ghost predicate StillThere(was: State, r: State) {
    && (forall n :: n in was.networks ==> n in r.networks && r.networks[n] == was.networks[n])
    && (forall n :: n in was.subnets ==> n in r.subnets && r.subnets[n] == was.subnets[n])
    && (forall n :: n in was.routers ==> n in r.routers && r.routers[n].project == was.routers[n].project
                                           && r.routers[n].gateway == was.routers[n].gateway)
  }

  lemma StepKeeps(p: Progress, spec: Spec, op: Op)
    ensures StillThere(p.state, Do(p, spec, op).state)
  {
  }

  lemma StillThereAfter(a: State, b: State, c: State)
    requires StillThere(a, b) && StillThere(b, c)
    ensures StillThere(a, c)
  {
  }

  lemma {:induction false} FoundStays(p: Progress, spec: Spec, ops: seq<Op>)
    ensures StillThere(p.state, RunOps(p, spec, ops).state)
    decreases |ops|
  {
    if ops != [] {
      var next := Do(p, spec, ops[0]);
      StepKeeps(p, spec, ops[0]);
      FoundStays(next, spec, ops[1..]);
      StillThereAfter(p.state, next.state, RunOps(next, spec, ops[1..]).state);
    }
  }

  /** A subnet made from the spec's entry, field by field. */
  ghost predicate HasSubnet(r: State, spec: Spec, s: SubnetSpec) {
    && s.name in r.subnets
    && var made := r.subnets[s.name];
    && made.network == spec.network.name && made.project == spec.project
    && made.cidr == s.cidr && made.gateway == s.gateway && made.pools == s.pools
    && made.dns == s.dns && made.dhcp == s.dhcp
  }

  /** No earlier subnet of the spec has the name; a later one of it would be found and not made. */
  ghost predicate FirstOfName(spec: Spec, i: nat)
    requires i < |spec.subnets|
  {
    forall j :: 0 <= j < i ==> spec.subnets[j].name != spec.subnets[i].name
  }

  lemma {:induction false} SubnetsMade(p: Progress, spec: Spec, subnets: seq<SubnetSpec>, i: nat)
    requires i < |subnets| && subnets[i].name !in p.state.subnets
    requires forall j :: 0 <= j < i ==> subnets[j].name != subnets[i].name
    ensures HasSubnet(RunOps(p, spec, MakeSubnets(subnets)).state, spec, subnets[i])
    decreases i
  {
    var next := Do(p, spec, MakeSubnet(subnets[0]));
    assert MakeSubnets(subnets)[1..] == MakeSubnets(subnets[1..]);
    if i == 0 {
      FoundStays(next, spec, MakeSubnets(subnets[1..]));
    } else {
      SubnetsMade(next, spec, subnets[1..], i - 1);
    }
  }

  /** The steps in three parts: the network, the subnets, the rest. */
  lemma InParts(start: State, spec: Spec) returns (first: Progress, second: Progress, rest: seq<Op>)
    ensures first == Do(Progress(start, false), spec, MakeNetwork)
    ensures second == RunOps(first, spec, MakeSubnets(spec.subnets))
    ensures Applied(start, spec) == RunOps(second, spec, rest).state
  {
    var p := Progress(start, false);
    rest := RouterOps(spec) + GroupOps(spec);
    assert Ops(spec) == [MakeNetwork] + (MakeSubnets(spec.subnets) + rest);
    RunAppend(p, spec, [MakeNetwork], MakeSubnets(spec.subnets) + rest);
    first := RunOps(p, spec, [MakeNetwork]);
    assert [MakeNetwork][1..] == [];
    RunAppend(first, spec, MakeSubnets(spec.subnets), rest);
    second := RunOps(first, spec, MakeSubnets(spec.subnets));
  }

  /** The network apply leaves under the spec's name: the one found, or one with the fields of the spec. */
  lemma AppliedMakesNetwork(start: State, spec: Spec)
    ensures var networks, name := Applied(start, spec).networks, spec.network.name;
      && name in networks
      && (forall n :: n in networks && n !in start.networks ==> n == name)
      && (forall n :: n in start.networks ==> n in networks && networks[n] == start.networks[n])
      && (name !in start.networks ==>
            var made, asked := networks[name], spec.network;
            && made.project == spec.project && made.mtu == asked.mtu
            && made.shared == asked.shared && made.portSecurity == asked.portSecurity && !made.external
            && made.providerType == (if asked.providerType == Some("") then None else asked.providerType)
            && made.physnet == (if asked.physnet == Some("") then None else asked.physnet)
            && made.segment == (if asked.segment == Some(0) then None else asked.segment))
  {
    var first, second, rest := InParts(start, spec);
    FoundStays(first, spec, MakeSubnets(spec.subnets));
    FoundStays(second, spec, rest);
    AppliedExtends(start, spec);
  }

  /** The subnets: those found, and for each new name the fields of the spec's first entry of that name. */
  lemma AppliedMakesSubnets(start: State, spec: Spec)
    ensures var subnets := Applied(start, spec).subnets;
      && (forall n :: n in start.subnets ==> n in subnets && subnets[n] == start.subnets[n])
      && (forall n :: n in subnets && n !in start.subnets ==>
            exists i :: 0 <= i < |spec.subnets| && spec.subnets[i].name == n)
      && (forall i :: 0 <= i < |spec.subnets| && FirstOfName(spec, i) && spec.subnets[i].name !in start.subnets ==>
            HasSubnet(Applied(start, spec), spec, spec.subnets[i]))
  {
    var first, second, rest := InParts(start, spec);
    AppliedExtends(start, spec);
    FoundStays(second, spec, rest);
    forall i | 0 <= i < |spec.subnets| && FirstOfName(spec, i) && spec.subnets[i].name !in start.subnets
      ensures HasSubnet(Applied(start, spec), spec, spec.subnets[i])
    {
      SubnetsMade(first, spec, spec.subnets, i);
    }
    forall n | n in Applied(start, spec).subnets && n !in start.subnets
      ensures exists i :: 0 <= i < |spec.subnets| && spec.subnets[i].name == n
    {
      assert MadeFrom(n, Applied(start, spec).subnets[n], spec);
    }
  }

  /** The router and the security group: found, or made with the spec's gateway and with exactly its rules. */
  lemma AppliedMakesRouterAndGroup(start: State, spec: Spec)
    ensures spec.router.Some? ==>
      var routers, asked := Applied(start, spec).routers, spec.router.value;
      && asked.name in routers
      && (asked.name in start.routers ==>
            routers[asked.name].project == start.routers[asked.name].project
            && routers[asked.name].gateway == start.routers[asked.name].gateway)
      && (asked.name !in start.routers ==>
            routers[asked.name].project == spec.project
            && routers[asked.name].gateway == (if asked.external == "" then None else Some(asked.external)))
    ensures Applied(start, spec).groups ==
      if spec.group.None? || spec.group.value.name in start.groups then start.groups
      else start.groups[spec.group.value.name := Group(spec.project, spec.group.value.rules)]
  {
    FoundStays(Progress(start, false), spec, Ops(spec));
    if spec.router.Some? {
      RouterPresent(start, spec);
      if spec.router.value.name !in start.routers {
        RouterKept(Progress(start, false), spec, Ops(spec));
      }
    }
    assert Ops(spec)[..|Ops(spec)|] == Ops(spec);
    CutGroups(start, spec, |Ops(spec)|);
    if spec.group.Some? {
      assert spec.group.value.rules[..|spec.group.value.rules|] == spec.group.value.rules;
    }
  }

  /** No router from before can hold one of the spec's new subnets. */
  lemma OnlyOwnRouter(start: State, r: State, spec: Spec, i: nat)
    requires Sound(start) && Absent(start, spec) && Extends(start, r, spec) && spec.router.Some? && i < |spec.subnets|
    ensures Attached(r, spec.subnets[i].name) ==> HasInterface(r, spec.router.value.name, spec.subnets[i].name)
  {
    var s := spec.subnets[i].name;
    assert s in SubnetNames(spec);
    forall n | n in r.routers && n != spec.router.value.name ensures s !in r.routers[n].interfaces {
      assert n in r.routers - RouterNames(spec);
      assert n in start.routers && start.routers[n] == r.routers[n];
    }
  }

  /**
   Applied to a region with none of its names, a spec with distinct subnet names gives the router
   an interface on exactly those of its subnets that have a gateway. The others are skipped
   without complaint: an attach that raises is not an error to the script.
   */
  lemma RouterServesGatewayedSubnets(start: State, spec: Spec)
    requires Sound(start) && Absent(start, spec) && NamesDistinct(spec) && spec.router.Some?
    ensures var r := Applied(start, spec);
      && spec.router.value.name in r.routers
      && r.routers[spec.router.value.name].gateway ==
         (if spec.router.value.external == "" then None else Some(spec.router.value.external))
      && forall i :: 0 <= i < |spec.subnets| ==>
           (spec.subnets[i].name in r.routers[spec.router.value.name].interfaces <==> spec.subnets[i].gateway.Some?)
  {
    var r := Applied(start, spec);
    var router := spec.router.value.name;
    GatewaysKept(Progress(start, false), spec, Ops(spec));
    RouterKept(Progress(start, false), spec, Ops(spec));
    AppliedExtends(start, spec);
    RouterPresent(start, spec);
    forall i | 0 <= i < |spec.subnets|
      ensures spec.subnets[i].name in r.routers[router].interfaces <==> spec.subnets[i].gateway.Some?
    {
      AppliedMakesSubnets(start, spec);
      assert FirstOfName(spec, i) && spec.subnets[i].name in SubnetNames(spec);
      AllAttached(start, spec, i);
      OnlyOwnRouter(start, r, spec, i);
    }
  }
}
