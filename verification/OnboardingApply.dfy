/**
 Applying a spec as a list of small steps, each of which looks before it creates. Stopping after
 any step and starting over converges, except for the rules of a security group.
 */
module OnboardingApply {
  import opened Basics
  import opened Region

  datatype Op =
    | MakeNetwork
    | MakeSubnet(s: SubnetSpec)
    | MakeRouter
    | Attach(subnet: string)
    | MakeGroup
    | AddRule(rule: Rule)

  /** The region, and whether this run created the security group (only then does it add rules). */
  datatype Progress = Progress(state: State, ownGroup: bool)

  /** An empty text or a segment of 0 is not passed on. */
  function NetworkOf(spec: Spec): Network {
    var n := spec.network;
    var providerType := if n.providerType == Some("") then None else n.providerType;
    var physnet := if n.physnet == Some("") then None else n.physnet;
    var segment := if n.segment == Some(0) then None else n.segment;
    Network(spec.project, providerType, physnet, segment, n.mtu, n.shared, n.portSecurity, false)
  }

  function SubnetOf(spec: Spec, s: SubnetSpec): Subnet {
    Subnet(spec.network.name, spec.project, s.cidr, s.gateway, s.pools, s.dns, s.dhcp)
  }

  function RouterOf(spec: Spec): Router
    requires spec.router.Some?
  {
    var external := spec.router.value.external;
    Router(spec.project, if external == "" then None else Some(external), {})
  }

  function WithInterface(r: State, router: string, subnet: string): State
    requires router in r.routers
  {
    var was := r.routers[router];
    r.(routers := r.routers[router := was.(interfaces := was.interfaces + {subnet})])
  }

  /** One step: find, and create only what is not found. An attach that raises is skipped. */
  function Do(p: Progress, spec: Spec, op: Op): Progress {
    var r := p.state;
    match op
    case MakeNetwork =>
      if spec.network.name in r.networks then p
      else p.(state := r.(networks := r.networks[spec.network.name := NetworkOf(spec)]))
    case MakeSubnet(s) =>
      if s.name in r.subnets then p
      else p.(state := r.(subnets := r.subnets[s.name := SubnetOf(spec, s)]))
    case MakeRouter =>
      if spec.router.None? || spec.router.value.name in r.routers then p
      else p.(state := r.(routers := r.routers[spec.router.value.name := RouterOf(spec)]))
    case Attach(subnet) =>
      if spec.router.Some? && CanAttach(r, spec.router.value.name, subnet)
      then p.(state := WithInterface(r, spec.router.value.name, subnet))
      else p
    case MakeGroup =>
      if spec.group.None? || spec.group.value.name in r.groups then Progress(r, false)
      else Progress(r.(groups := r.groups[spec.group.value.name := Group(spec.project, [])]), true)
    case AddRule(rule) =>
      if p.ownGroup && spec.group.Some? && spec.group.value.name in r.groups then
        var group := r.groups[spec.group.value.name];
        p.(state := r.(groups := r.groups[spec.group.value.name := group.(rules := group.rules + [rule])]))
      else p
  }

  function RunOps(p: Progress, spec: Spec, ops: seq<Op>): Progress
    decreases |ops|
  {
    if ops == [] then p else RunOps(Do(p, spec, ops[0]), spec, ops[1..])
  }

  function MakeSubnets(subnets: seq<SubnetSpec>): seq<Op> {
    seq(|subnets|, i requires 0 <= i < |subnets| => MakeSubnet(subnets[i]))
  }

  function Attaches(subnets: seq<SubnetSpec>): seq<Op> {
    seq(|subnets|, i requires 0 <= i < |subnets| => Attach(subnets[i].name))
  }

  function AddRules(rules: seq<Rule>): seq<Op> {
    seq(|rules|, i requires 0 <= i < |rules| => AddRule(rules[i]))
  }

  function RouterOps(spec: Spec): seq<Op> {
    if spec.router.None? then [] else [MakeRouter] + Attaches(spec.subnets)
  }

  /** Network, subnets, router, interfaces. */
  function CoreOps(spec: Spec): seq<Op> {
    [MakeNetwork] + MakeSubnets(spec.subnets) + RouterOps(spec)
  }

  function GroupOps(spec: Spec): seq<Op> {
    if spec.group.None? then [] else [MakeGroup] + AddRules(spec.group.value.rules)
  }

  function Ops(spec: Spec): seq<Op> {
    CoreOps(spec) + GroupOps(spec)
  }

  /** The region a run leaves that is cut short after `k` steps. */
  function Cut(start: State, spec: Spec, k: nat): State
    requires k <= |Ops(spec)|
  {
    RunOps(Progress(start, false), spec, Ops(spec)[..k]).state
  }

  function Applied(start: State, spec: Spec): State {
    RunOps(Progress(start, false), spec, Ops(spec)).state
  }

  // ------------------------------------------------------------- convergence

  predicate IsCore(op: Op) {
    !op.MakeGroup? && !op.AddRule?
  }

  /** What a step would create is there already. */
  ghost predicate Done(r: State, spec: Spec, op: Op) {
    match op
    case MakeNetwork => spec.network.name in r.networks
    case MakeSubnet(s) => s.name in r.subnets
    case MakeRouter => spec.router.Some? && spec.router.value.name in r.routers
    case Attach(subnet) =>
      && spec.router.Some? && spec.router.value.name in r.routers && subnet in r.subnets
      && !CanAttach(r, spec.router.value.name, subnet)
    case MakeGroup => spec.group.Some? && spec.group.value.name in r.groups
    case AddRule(_) => false
  }

  lemma DoneStays(p: Progress, spec: Spec, op: Op, earlier: Op)
    requires Done(p.state, spec, earlier)
    ensures Done(Do(p, spec, op).state, spec, earlier)
  {
    if earlier.Attach? && Attached(p.state, earlier.subnet) {
      var n :| n in p.state.routers && earlier.subnet in p.state.routers[n].interfaces;
      var after := Do(p, spec, op).state;
      assert n in after.routers && earlier.subnet in after.routers[n].interfaces;
    }
  }

  /** An attach comes after the steps that make its router and its subnet. */
  ghost predicate WellPlaced(ops: seq<Op>, spec: Spec) {
    && (forall i :: 0 <= i < |ops| ==> IsCore(ops[i]))
    && (forall i :: 0 <= i < |ops| && ops[i].MakeRouter? ==> spec.router.Some?)
    && (forall i :: 0 <= i < |ops| && ops[i].Attach? ==>
          && (exists j :: 0 <= j < i && ops[j].MakeRouter?)
          && (exists j :: 0 <= j < i && ops[j].MakeSubnet? && ops[j].s.name == ops[i].subnet))
  }

  lemma CoreWellPlaced(spec: Spec)
    ensures WellPlaced(CoreOps(spec), spec)
  {
    var ops := CoreOps(spec);
    var n := |spec.subnets|;
    forall i | 0 <= i < |ops| && ops[i].Attach?
      ensures exists j :: 0 <= j < i && ops[j].MakeRouter?
      ensures exists j :: 0 <= j < i && ops[j].MakeSubnet? && ops[j].s.name == ops[i].subnet
    {
      assert ops[1 + n].MakeRouter?;
      var k := i - n - 2;
      assert ops[i] == Attach(spec.subnets[k].name);
      assert ops[1 + k] == MakeSubnet(spec.subnets[k]);
    }
  }

  ghost predicate AllDone(r: State, spec: Spec, ops: seq<Op>) {
    forall i :: 0 <= i < |ops| ==> Done(r, spec, ops[i])
  }

  lemma {:induction false} RunAppend(p: Progress, spec: Spec, a: seq<Op>, b: seq<Op>)
    ensures RunOps(p, spec, a + b) == RunOps(RunOps(p, spec, a), spec, b)
    decreases |a|
  {
    if a == [] {
      assert a + b == b;
    } else {
      assert (a + b)[1..] == a[1..] + b;
      RunAppend(Do(p, spec, a[0]), spec, a[1..], b);
    }
  }

  /** Running the first `k` steps leaves all of them done. */
  lemma {:induction false} PrefixDone(p: Progress, spec: Spec, ops: seq<Op>, k: nat)
    requires WellPlaced(ops, spec) && k <= |ops|
    ensures AllDone(RunOps(p, spec, ops[..k]).state, spec, ops[..k])
  {
    if k > 0 {
      PrefixDone(p, spec, ops, k - 1);
      var before := RunOps(p, spec, ops[..k - 1]);
      var op := ops[k - 1];
      assert ops[..k] == ops[..k - 1] + [op];
      RunAppend(p, spec, ops[..k - 1], [op]);
      assert RunOps(before, spec, [op]) == Do(before, spec, op) by {
        assert [op][1..] == [];
      }
      forall i | 0 <= i < k - 1 ensures Done(Do(before, spec, op).state, spec, ops[i]) {
        assert ops[..k - 1][i] == ops[i];
        DoneStays(before, spec, op, ops[i]);
      }
      StepDone(before, spec, ops, k - 1);
    }
  }

  lemma StepDone(before: Progress, spec: Spec, ops: seq<Op>, k: nat)
    requires WellPlaced(ops, spec) && k < |ops| && AllDone(before.state, spec, ops[..k])
    ensures Done(Do(before, spec, ops[k]).state, spec, ops[k])
  {
    if ops[k].Attach? {
      var i :| 0 <= i < k && ops[i].MakeRouter?;
      var j :| 0 <= j < k && ops[j].MakeSubnet? && ops[j].s.name == ops[k].subnet;
      assert Done(before.state, spec, ops[..k][i]) && Done(before.state, spec, ops[..k][j]);
      var name := spec.router.value.name;
      var after := Do(before, spec, ops[k]).state;
      if CanAttach(before.state, name, ops[k].subnet) {
        assert name in after.routers && ops[k].subnet in after.routers[name].interfaces;
      }
    }
  }

  /** Steps that are done do nothing. */
  lemma {:induction false} DoneIsIdle(p: Progress, spec: Spec, ops: seq<Op>)
    requires AllDone(p.state, spec, ops) && forall i :: 0 <= i < |ops| ==> IsCore(ops[i])
    ensures RunOps(p, spec, ops) == p
    decreases |ops|
  {
    if ops != [] {
      assert Done(p.state, spec, ops[0]);
      assert Do(p, spec, ops[0]) == p;
      DoneIsIdle(p, spec, ops[1..]);
    }
  }

  function Max(j: nat, k: nat): nat {
    if j > k then j else k
  }

  /** Starting over from step `j` and stopping at step `k` is having stopped at the later of the two. */
  lemma Restart(p: Progress, spec: Spec, j: nat, k: nat)
    requires j <= |CoreOps(spec)| && k <= |CoreOps(spec)|
    ensures RunOps(RunOps(p, spec, CoreOps(spec)[..j]), spec, CoreOps(spec)[..k]) ==
      RunOps(p, spec, CoreOps(spec)[..Max(j, k)])
  {
    var ops := CoreOps(spec);
    CoreWellPlaced(spec);
    PrefixDone(p, spec, ops, j);
    var mid := RunOps(p, spec, ops[..j]);
    if k <= j {
      forall i | 0 <= i < k ensures Done(mid.state, spec, ops[..k][i]) {
        assert ops[..k][i] == ops[..j][i];
      }
      DoneIsIdle(mid, spec, ops[..k]);
    } else {
      assert ops[..k] == ops[..j] + ops[j..k];
      RunAppend(mid, spec, ops[..j], ops[j..k]);
      DoneIsIdle(mid, spec, ops[..j]);
      RunAppend(p, spec, ops[..j], ops[j..k]);
    }
  }

  /** Equal but for security groups. */
  ghost predicate SameCore(a: State, b: State) {
    a.projects == b.projects && a.networks == b.networks && a.subnets == b.subnets && a.routers == b.routers
  }

  lemma StepAlike(p: Progress, q: Progress, spec: Spec, op: Op)
    requires SameCore(p.state, q.state)
    ensures SameCore(Do(p, spec, op).state, Do(q, spec, op).state)
  {
    if op.Attach? {
      assert Attached(p.state, op.subnet) <==> Attached(q.state, op.subnet);
    }
  }

  lemma {:induction false} CoreAlike(p: Progress, q: Progress, spec: Spec, ops: seq<Op>)
    requires SameCore(p.state, q.state)
    ensures SameCore(RunOps(p, spec, ops).state, RunOps(q, spec, ops).state)
    decreases |ops|
  {
    if ops != [] {
      StepAlike(p, q, spec, ops[0]);
      CoreAlike(Do(p, spec, ops[0]), Do(q, spec, ops[0]), spec, ops[1..]);
    }
  }

  lemma {:induction false} GroupLeavesCore(p: Progress, spec: Spec, ops: seq<Op>)
    requires forall i :: 0 <= i < |ops| ==> !IsCore(ops[i])
    ensures SameCore(RunOps(p, spec, ops).state, p.state)
    decreases |ops|
  {
    if ops != [] {
      GroupLeavesCore(Do(p, spec, ops[0]), spec, ops[1..]);
    }
  }

  lemma {:induction false} CoreLeavesGroups(p: Progress, spec: Spec, ops: seq<Op>)
    requires forall i :: 0 <= i < |ops| ==> IsCore(ops[i])
    ensures RunOps(p, spec, ops).state.groups == p.state.groups && RunOps(p, spec, ops).ownGroup == p.ownGroup
    decreases |ops|
  {
    if ops != [] {
      CoreLeavesGroups(Do(p, spec, ops[0]), spec, ops[1..]);
    }
  }

  function CorePart(spec: Spec, k: nat): nat {
    if k < |CoreOps(spec)| then k else |CoreOps(spec)|
  }

  ghost function CoreCut(start: State, spec: Spec, k: nat): State
    requires k <= |CoreOps(spec)|
  {
    RunOps(Progress(start, false), spec, CoreOps(spec)[..k]).state
  }

  lemma GroupIsNotCore(spec: Spec)
    ensures forall i :: 0 <= i < |GroupOps(spec)| ==> !IsCore(GroupOps(spec)[i])
  {
    forall i | 0 <= i < |GroupOps(spec)| ensures !IsCore(GroupOps(spec)[i]) {
      if i > 0 {
        assert GroupOps(spec)[i] == AddRules(spec.group.value.rules)[i - 1];
      }
    }
  }

  lemma CutCore(start: State, spec: Spec, k: nat)
    requires k <= |Ops(spec)|
    ensures SameCore(Cut(start, spec, k), CoreCut(start, spec, CorePart(spec, k)))
  {
    var core := CoreOps(spec);
    if k > |core| {
      var rest := GroupOps(spec)[..k - |core|];
      assert Ops(spec)[..k] == core + rest && core[..|core|] == core;
      GroupIsNotCore(spec);
      RunAppend(Progress(start, false), spec, core, rest);
      GroupLeavesCore(RunOps(Progress(start, false), spec, core), spec, rest);
    } else {
      assert Ops(spec)[..k] == core[..k];
    }
  }

  /** The region after runs cut short at each of `stops` in turn. */
  ghost function Interrupted(start: State, spec: Spec, stops: seq<nat>): State
    requires forall i :: 0 <= i < |stops| ==> stops[i] <= |Ops(spec)|
  {
    if stops == [] then start
    else Cut(Interrupted(start, spec, stops[..|stops| - 1]), spec, stops[|stops| - 1])
  }

  lemma {:induction false} InterruptedIsCut(start: State, spec: Spec, stops: seq<nat>) returns (j: nat)
    requires forall i :: 0 <= i < |stops| ==> stops[i] <= |Ops(spec)|
    ensures j <= |CoreOps(spec)| && SameCore(Interrupted(start, spec, stops), CoreCut(start, spec, j))
  {
    if stops == [] {
      j := 0;
    } else {
      var front, k := stops[..|stops| - 1], stops[|stops| - 1];
      var before := Interrupted(start, spec, front);
      var i := InterruptedIsCut(start, spec, front);
      j := Max(i, CorePart(spec, k));
      RestartCut(start, before, spec, i, k);
    }
  }

  lemma RestartCut(start: State, before: State, spec: Spec, i: nat, k: nat)
    requires k <= |Ops(spec)| && i <= |CoreOps(spec)| && SameCore(before, CoreCut(start, spec, i))
    ensures SameCore(Cut(before, spec, k), CoreCut(start, spec, Max(i, CorePart(spec, k))))
  {
    var c := CorePart(spec, k);
    var mid := RunOps(Progress(start, false), spec, CoreOps(spec)[..i]);
    CutCore(before, spec, k);
    CoreAlike(Progress(before, false), mid, spec, CoreOps(spec)[..c]);
    Restart(Progress(start, false), spec, i, c);
  }

  /**
   Re-running is safe: after any number of runs, each cut short after any step, one run to the end
   gives the networks, subnets, routers and interfaces of a single uninterrupted run.
   */
  lemma ApplyConverges(start: State, spec: Spec, stops: seq<nat>)
    requires forall i :: 0 <= i < |stops| ==> stops[i] <= |Ops(spec)|
    ensures SameCore(Applied(Interrupted(start, spec, stops), spec), Applied(start, spec))
  {
    var before := Interrupted(start, spec, stops);
    var j := InterruptedIsCut(start, spec, stops);
    var n := |Ops(spec)|;
    assert Ops(spec)[..n] == Ops(spec);
    RestartCut(start, before, spec, j, n);
    CutCore(start, spec, n);
    assert Max(j, CorePart(spec, n)) == CorePart(spec, n);
  }

  // --------------------------------------------------------- security groups

  lemma {:induction false} RulesAdded(p: Progress, spec: Spec, rules: seq<Rule>)
    requires p.ownGroup && spec.group.Some? && spec.group.value.name in p.state.groups
    ensures var g := spec.group.value.name;
      var was := p.state.groups[g];
      RunOps(p, spec, AddRules(rules)).state
        == p.state.(groups := p.state.groups[g := was.(rules := was.rules + rules)])
    decreases |rules|
  {
    var g := spec.group.value.name;
    var was := p.state.groups[g];
    if rules == [] {
      assert was.(rules := was.rules + []) == was;
      assert p.state.groups[g := was] == p.state.groups;
    } else {
      var next := Do(p, spec, AddRule(rules[0]));
      assert AddRules(rules)[1..] == AddRules(rules[1..]);
      RulesAdded(next, spec, rules[1..]);
      assert was.rules + rules == (was.rules + [rules[0]]) + rules[1..];
    }
  }

  lemma {:induction false} RulesSkipped(p: Progress, spec: Spec, rules: seq<Rule>)
    requires !p.ownGroup
    ensures RunOps(p, spec, AddRules(rules)) == p
    decreases |rules|
  {
    if rules != [] {
      assert AddRules(rules)[1..] == AddRules(rules[1..]);
      RulesSkipped(p, spec, rules[1..]);
    }
  }

  /** The security groups after the first `k` of the group steps. */
  ghost function GroupsCut(groups: map<string, Group>, spec: Spec, k: nat): map<string, Group>
    requires k <= |GroupOps(spec)|
  {
    if k == 0 || spec.group.value.name in groups then groups
    else groups[spec.group.value.name := Group(spec.project, spec.group.value.rules[..k - 1])]
  }

  lemma GroupSteps(p: Progress, spec: Spec, k: nat)
    requires k <= |GroupOps(spec)| && !p.ownGroup
    ensures RunOps(p, spec, GroupOps(spec)[..k]).state == p.state.(groups := GroupsCut(p.state.groups, spec, k))
  {
    if k > 0 {
      var rules := spec.group.value.rules[..k - 1];
      assert GroupOps(spec)[..k] == [MakeGroup] + AddRules(rules);
      RunAppend(p, spec, [MakeGroup], AddRules(rules));
      assert [MakeGroup][1..] == [];
      assert RunOps(p, spec, [MakeGroup]) == Do(p, spec, MakeGroup);
      var made := Do(p, spec, MakeGroup);
      if made.ownGroup {
        RulesAdded(made, spec, rules);
        assert [] + rules == rules;
      } else {
        RulesSkipped(made, spec, rules);
      }
    }
  }

  function GroupPart(spec: Spec, k: nat): nat {
    if k > |CoreOps(spec)| then k - |CoreOps(spec)| else 0
  }

  lemma CutGroups(start: State, spec: Spec, k: nat)
    requires k <= |Ops(spec)|
    ensures Cut(start, spec, k).groups == GroupsCut(start.groups, spec, GroupPart(spec, k))
  {
    var core := CoreOps(spec);
    CoreWellPlaced(spec);
    if k > |core| {
      var rest := GroupOps(spec)[..k - |core|];
      assert Ops(spec)[..k] == core + rest;
      RunAppend(Progress(start, false), spec, core, rest);
      CoreLeavesGroups(Progress(start, false), spec, core);
      GroupSteps(RunOps(Progress(start, false), spec, core), spec, k - |core|);
    } else {
      assert Ops(spec)[..k] == core[..k];
      CoreLeavesGroups(Progress(start, false), spec, core[..k]);
    }
  }

  /** How far into the security group's steps the first of the runs got that came to them; 0 if none did. */
  function FirstReach(spec: Spec, stops: seq<nat>): nat
    decreases |stops|
  {
    if stops == [] then 0
    else
      var earlier := FirstReach(spec, stops[..|stops| - 1]);
      if earlier > 0 then earlier else GroupPart(spec, stops[|stops| - 1])
  }

  lemma {:induction false} InterruptedGroups(start: State, spec: Spec, stops: seq<nat>)
    requires forall i :: 0 <= i < |stops| ==> stops[i] <= |Ops(spec)|
    ensures FirstReach(spec, stops) <= |GroupOps(spec)|
    ensures Interrupted(start, spec, stops).groups == GroupsCut(start.groups, spec, FirstReach(spec, stops))
    decreases |stops|
  {
    if stops != [] {
      var front, k := stops[..|stops| - 1], stops[|stops| - 1];
      InterruptedGroups(start, spec, front);
      CutGroups(Interrupted(start, spec, front), spec, k);
    }
  }

  /** The run that created the group was cut short before its last rule. */
  predicate CutBetweenRules(start: State, spec: Spec, stops: seq<nat>) {
    && spec.group.Some? && spec.group.value.name !in start.groups
    && 0 < FirstReach(spec, stops) < |GroupOps(spec)|
  }

  /**
   Exactly when cut runs can be repaired by running again: after any number of them the whole
   region converges, security group and all, unless the run that created the group was cut short
   before adding its last rule.
   */
  lemma WholeRegionConvergesIff(start: State, spec: Spec, stops: seq<nat>)
    requires forall i :: 0 <= i < |stops| ==> stops[i] <= |Ops(spec)|
    ensures Applied(Interrupted(start, spec, stops), spec) == Applied(start, spec)
      <==> !CutBetweenRules(start, spec, stops)
  {
    var n := |Ops(spec)|;
    var mid := Interrupted(start, spec, stops);
    assert Ops(spec)[..n] == Ops(spec);
    ApplyConverges(start, spec, stops);
    InterruptedGroups(start, spec, stops);
    CutGroups(mid, spec, n);
    CutGroups(start, spec, n);
    if spec.group.Some? && spec.group.value.name !in start.groups {
      var g := spec.group.value;
      assert Applied(start, spec).groups[g.name].rules == g.rules;
      if CutBetweenRules(start, spec, stops) {
        assert Applied(mid, spec).groups[g.name].rules == g.rules[..FirstReach(spec, stops) - 1];
      }
    }
  }

  /** A further run of the same spec changes nothing at all. */
  lemma ApplyIsIdempotent(start: State, spec: Spec)
    ensures Applied(Applied(start, spec), spec) == Applied(start, spec)
  {
    var n := |Ops(spec)|;
    assert Ops(spec)[..n] == Ops(spec);
    assert [n][..0] == [];
    assert Interrupted(start, spec, []) == start && Interrupted(start, spec, [n]) == Applied(start, spec);
    assert FirstReach(spec, []) == 0 && FirstReach(spec, [n]) == GroupPart(spec, n);
    WholeRegionConvergesIff(start, spec, [n]);
  }
}
