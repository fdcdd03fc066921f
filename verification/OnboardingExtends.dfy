/** What apply may make of a region: the region as it was plus objects of the spec, tied only to one another. */
module OnboardingExtends {
  import opened Region
  import opened OnboardingApply

  function SubnetNames(spec: Spec): set<string> {
    set i | 0 <= i < |spec.subnets| :: spec.subnets[i].name
  }

  function RouterNames(spec: Spec): set<string> {
    if spec.router.Some? then {spec.router.value.name} else {}
  }

  function GroupNames(spec: Spec): set<string> {
    if spec.group.Some? then {spec.group.value.name} else {}
  }

  /** The region holds none of the spec's names. */
  ghost predicate Absent(r: State, spec: Spec) {
    && spec.network.name !in r.networks
    && SubnetNames(spec) !! r.subnets.Keys
    && (spec.router.Some? ==> spec.router.value.name !in r.routers)
    && (spec.group.Some? ==> spec.group.value.name !in r.groups)
  }

  ghost predicate MadeFrom(name: string, subnet: Subnet, spec: Spec) {
    exists i :: 0 <= i < |spec.subnets| && spec.subnets[i].name == name && subnet == SubnetOf(spec, spec.subnets[i])
  }

  /** `r` is `start` plus objects made from the spec; only a router or group of the spec's own name may have changed. */
  ghost predicate Extends(start: State, r: State, spec: Spec) {
    && r.projects == start.projects
    && (forall n :: n in start.networks ==> n in r.networks && r.networks[n] == start.networks[n])
    && (forall n :: n in r.networks && n !in start.networks ==> n == spec.network.name)
    && (forall n :: n in start.subnets ==> n in r.subnets && r.subnets[n] == start.subnets[n])
    && (forall n :: n in r.subnets && n !in start.subnets ==> MadeFrom(n, r.subnets[n], spec))
    && r.routers - RouterNames(spec) == start.routers - RouterNames(spec)
    && (forall n :: n in r.routers && n !in start.routers ==>
          r.routers[n].interfaces <= SubnetNames(spec) * r.subnets.Keys)
    && r.groups - GroupNames(spec) == start.groups - GroupNames(spec)
  }

  /** On a region without the spec's names, taking those names away again gives the region back. */
  lemma ExtendsApart(start: State, r: State, spec: Spec)
    requires Absent(start, spec) && Extends(start, r, spec)
    ensures r.projects == start.projects
    ensures r.networks - {spec.network.name} == start.networks
    ensures r.subnets - SubnetNames(spec) == start.subnets
    ensures r.routers - RouterNames(spec) == start.routers
    ensures r.groups - GroupNames(spec) == start.groups
    ensures forall n :: n in RouterNames(spec) && n in r.routers ==>
      r.routers[n].interfaces <= SubnetNames(spec) * r.subnets.Keys
  {
    assert start.routers - RouterNames(spec) == start.routers;
    assert start.groups - GroupNames(spec) == start.groups;
    forall n | n in r.subnets && n !in start.subnets ensures n in SubnetNames(spec) {
      assert MadeFrom(n, r.subnets[n], spec);
    }
  }

  ghost predicate FromSpec(spec: Spec, op: Op) {
    match op
    case MakeSubnet(s) => exists i :: 0 <= i < |spec.subnets| && spec.subnets[i] == s
    case Attach(subnet) => subnet in SubnetNames(spec)
    case _ => true
  }

  lemma RemoveAfterAdd<T>(m: map<string, T>, name: string, value: T, names: set<string>)
    requires name in names
    ensures m[name := value] - names == m - names
  {
  }

  lemma StepExtends(start: State, p: Progress, spec: Spec, op: Op)
    requires Extends(start, p.state, spec) && FromSpec(spec, op)
    ensures Extends(start, Do(p, spec, op).state, spec)
  {
    var r := p.state;
    match op
    case MakeNetwork =>
    case MakeSubnet(s) =>
      var i :| 0 <= i < |spec.subnets| && spec.subnets[i] == s;
      assert MadeFrom(s.name, SubnetOf(spec, s), spec);
    case MakeRouter =>
      if spec.router.Some? {
        RemoveAfterAdd(r.routers, spec.router.value.name, RouterOf(spec), RouterNames(spec));
      }
    case Attach(subnet) =>
      if spec.router.Some? && CanAttach(r, spec.router.value.name, subnet) {
        var name := spec.router.value.name;
        var widened := r.routers[name].(interfaces := r.routers[name].interfaces + {subnet});
        RemoveAfterAdd(r.routers, name, widened, RouterNames(spec));
      }
    case MakeGroup =>
      if spec.group.Some? {
        RemoveAfterAdd(r.groups, spec.group.value.name, Group(spec.project, []), GroupNames(spec));
      }
    case AddRule(rule) =>
      if spec.group.Some? && spec.group.value.name in r.groups {
        var g := spec.group.value.name;
        RemoveAfterAdd(r.groups, g, r.groups[g].(rules := r.groups[g].rules + [rule]), GroupNames(spec));
      }
  }

  lemma {:induction false} RunExtends(start: State, p: Progress, spec: Spec, ops: seq<Op>)
    requires Extends(start, p.state, spec) && forall i :: 0 <= i < |ops| ==> FromSpec(spec, ops[i])
    ensures Extends(start, RunOps(p, spec, ops).state, spec)
    decreases |ops|
  {
    if ops != [] {
      StepExtends(start, p, spec, ops[0]);
      RunExtends(start, Do(p, spec, ops[0]), spec, ops[1..]);
    }
  }

  ghost predicate AllFromSpec(spec: Spec, ops: seq<Op>) {
    forall i :: 0 <= i < |ops| ==> FromSpec(spec, ops[i])
  }

  lemma OpsFromSpec(spec: Spec)
    ensures AllFromSpec(spec, Ops(spec))
  {
    forall i | 0 <= i < |spec.subnets|
      ensures FromSpec(spec, MakeSubnets(spec.subnets)[i]) && FromSpec(spec, Attaches(spec.subnets)[i])
    {
      assert MakeSubnets(spec.subnets)[i] == MakeSubnet(spec.subnets[i]);
      assert Attaches(spec.subnets)[i] == Attach(spec.subnets[i].name);
    }
    assert AllFromSpec(spec, RouterOps(spec));
    assert AllFromSpec(spec, CoreOps(spec));
    assert AllFromSpec(spec, GroupOps(spec));
  }

  lemma CutExtends(start: State, before: State, spec: Spec, k: nat)
    requires Extends(start, before, spec) && k <= |Ops(spec)|
    ensures Extends(start, Cut(before, spec, k), spec)
  {
    OpsFromSpec(spec);
    RunExtends(start, Progress(before, false), spec, Ops(spec)[..k]);
  }

  lemma {:induction false} InterruptedExtends(start: State, spec: Spec, stops: seq<nat>)
    requires forall i :: 0 <= i < |stops| ==> stops[i] <= |Ops(spec)|
    ensures Extends(start, Interrupted(start, spec, stops), spec)
    decreases |stops|
  {
    if stops != [] {
      var front := stops[..|stops| - 1];
      InterruptedExtends(start, spec, front);
      CutExtends(start, Interrupted(start, spec, front), spec, stops[|stops| - 1]);
    }
  }

  lemma AppliedExtends(start: State, spec: Spec)
    ensures Extends(start, Applied(start, spec), spec)
    ensures forall i :: 0 <= i < |spec.subnets| ==> spec.subnets[i].name in Applied(start, spec).subnets
  {
    var core := CoreOps(spec);
    CoreWellPlaced(spec);
    PrefixDone(Progress(start, false), spec, core, |core|);
    assert core[..|core|] == core;
    assert Ops(spec)[..|Ops(spec)|] == Ops(spec);
    assert Extends(start, start, spec);
    CutExtends(start, start, spec, |Ops(spec)|);
    CutCore(start, spec, |Ops(spec)|);
    forall i | 0 <= i < |spec.subnets| ensures spec.subnets[i].name in Applied(start, spec).subnets {
      assert core[1 + i] == MakeSubnet(spec.subnets[i]);
      assert Done(CoreCut(start, spec, |core|), spec, core[1 + i]);
    }
  }
}
