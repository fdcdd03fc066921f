/** The pre-flight checks, and what an answer without FAIL rows means in terms of addresses. */
module OnboardingValidate {
  import opened Basics
  import opened Cidr
  import opened Region

  datatype Problem =
    | ProjectMissing
    | PhysnetMissing
    | SegmentMissing
    | SegmentOutOfRange
    | VlanInUse(network: string)
    | MtuExceedsPeers
    | BadCidr(subnet: string)
    | OverlapsSubnet(subnet: string, existing: string)
    | GatewayOutside(subnet: string)
    | PoolOutside(subnet: string)
    | PoolReversed(subnet: string)
    | PoolHoldsGateway(subnet: string)
    | ExternalMissing
    | NotExternal
    | AllPassed

  /** The row's status is FAIL. */
  predicate Fails(p: Problem) {
    p != MtuExceedsPeers && p != AllPassed
  }

  predicate HasFail(problems: seq<Problem>) {
    exists i :: 0 <= i < |problems| && Fails(problems[i])
  }

  /** None of these rows is a warning or the final OK. */
  predicate OnlyFails(problems: seq<Problem>) {
    forall i :: 0 <= i < |problems| ==> Fails(problems[i])
  }

  predicate IsVlan(spec: NetworkSpec) {
    spec.providerType == Some("vlan")
  }

  predicate NeedsPhysnet(spec: NetworkSpec) {
    spec.providerType == Some("vlan") || spec.providerType == Some("flat")
  }

  predicate NoPhysnet(spec: NetworkSpec) {
    spec.physnet == None || spec.physnet == Some("")
  }

  // ------------------------------------------------------------- the meaning

  ghost predicate ProviderOk(spec: NetworkSpec) {
    && (NeedsPhysnet(spec) ==> !NoPhysnet(spec))
    && (IsVlan(spec) ==> spec.segment.Some? && 1 <= spec.segment.value <= 4094)
  }

  predicate SameVlan(spec: NetworkSpec, net: Network) {
    net.physnet == spec.physnet && net.segment == spec.segment
  }

  /** No other network uses the VLAN on this physical network. */
  ghost predicate VlanFree(r: State, spec: NetworkSpec) {
    IsVlan(spec) && spec.segment.Some? ==> forall n :: n in r.networks && n != spec.name ==>
      !SameVlan(spec, r.networks[n])
  }

  /** No address of the block belongs to a differently named subnet of the project. */
  ghost predicate AddressesFree(r: State, project: string, name: string, block: Block) {
    forall n :: n in r.subnets && n != name && r.subnets[n].project == project ==>
      var other := ParseLoose(r.subnets[n].cidr);
      other.Some? ==> !Share(block, other.value)
  }

  predicate InPool(a: Address, pool: Pool) {
    a.v6 == pool.start.v6 && a.v6 == pool.end.v6 && pool.start.value <= a.value <= pool.end.value
  }

  /** A pool has addresses, all inside the block and none the gateway. */
  ghost predicate PoolOk(pool: Pool, block: Block, gateway: Option<Address>) {
    && (exists a :: InPool(a, pool))
    && (forall a :: InPool(a, pool) ==> Member(a, block) && Some(a) != gateway)
  }

  ghost predicate SubnetOk(r: State, project: string, s: SubnetSpec) {
    && ParseStrict(s.cidr).Some?
    && var block := ParseStrict(s.cidr).value;
    && AddressesFree(r, project, s.name, block)
    && (s.gateway.Some? ==> Member(s.gateway.value, block))
    && (forall i :: 0 <= i < |s.pools| ==> PoolOk(s.pools[i], block, s.gateway))
  }

  ghost predicate ExternalOk(r: State, router: Option<RouterSpec>) {
    router.Some? && router.value.external != "" ==>
      router.value.external in r.networks && r.networks[router.value.external].external
  }

  /** The spec may be applied to the region. */
  ghost predicate Admissible(r: State, spec: Spec) {
    && spec.project in r.projects
    && ProviderOk(spec.network)
    && VlanFree(r, spec.network)
    && (forall i :: 0 <= i < |spec.subnets| ==> SubnetOk(r, spec.project, spec.subnets[i]))
    && ExternalOk(r, spec.router)
  }

  /** The spec asks for a larger MTU than any network on its physical network has. */
  ghost predicate MtuTooLarge(r: State, spec: NetworkSpec) {
    && spec.mtu != 0
    && (exists n :: n in r.networks && r.networks[n].physnet == spec.physnet && r.networks[n].mtu != 0)
    && (forall n :: n in r.networks && r.networks[n].physnet == spec.physnet ==> spec.mtu > r.networks[n].mtu)
  }

  // --------------------------------------------------- the rows, one by one

  predicate BothInside(pool: Pool, block: Block) {
    Member(pool.start, block) && Member(pool.end, block)
  }

  /** The rows a pool of the named subnet is due. */
  ghost predicate PoolDue(pool: Pool, block: Block, gateway: Option<Address>, name: string, p: Problem) {
    match p
    case PoolOutside(n) => n == name && !BothInside(pool, block)
    case PoolReversed(n) => n == name && BothInside(pool, block) && pool.start.value > pool.end.value
    case PoolHoldsGateway(n) =>
      n == name && BothInside(pool, block) && gateway.Some? && InPool(gateway.value, pool)
    case _ => false
  }

  /** Comparing the gateway with the pool's ends raises: they are of different families. */
  ghost predicate PoolBreaks(pool: Pool, block: Block, gateway: Option<Address>) {
    && BothInside(pool, block) && pool.start.value <= pool.end.value
    && gateway.Some? && gateway.value.v6 != block.v6
  }

  /** A differently named subnet of the project shares an address with the block. */
  ghost predicate Clashes(r: State, project: string, name: string, block: Block, other: string) {
    && other in r.subnets && other != name && r.subnets[other].project == project
    && ParseLoose(r.subnets[other].cidr).Some? && Share(block, ParseLoose(r.subnets[other].cidr).value)
  }

  ghost predicate SubnetDue(r: State, project: string, s: SubnetSpec, p: Problem) {
    var parsed := ParseStrict(s.cidr);
    match p
    case BadCidr(n) => n == s.name && parsed.None?
    case OverlapsSubnet(n, other) =>
      n == s.name && parsed.Some? && Clashes(r, project, s.name, parsed.value, other)
    case GatewayOutside(n) =>
      n == s.name && parsed.Some? && s.gateway.Some? && !Member(s.gateway.value, parsed.value)
    case _ =>
      parsed.Some? && exists k :: 0 <= k < |s.pools| && PoolDue(s.pools[k], parsed.value, s.gateway, s.name, p)
  }

  ghost predicate SubnetBreaks(s: SubnetSpec) {
    ParseStrict(s.cidr).Some? &&
    exists k :: 0 <= k < |s.pools| && PoolBreaks(s.pools[k], ParseStrict(s.cidr).value, s.gateway)
  }

  ghost predicate ProviderDue(net: NetworkSpec, p: Problem) {
    match p
    case PhysnetMissing =>
      (net.providerType == Some("vlan") || net.providerType == Some("flat"))
      && (net.physnet == None || net.physnet == Some(""))
    case SegmentMissing => net.providerType == Some("vlan") && net.segment == None
    case SegmentOutOfRange =>
      net.providerType == Some("vlan") && net.segment.Some? && (net.segment.value < 1 || net.segment.value > 4094)
    case _ => false
  }

  ghost predicate VlanDue(r: State, net: NetworkSpec, p: Problem) {
    && p.VlanInUse? && net.providerType == Some("vlan") && net.segment.Some?
    && p.network in r.networks && p.network != net.name
    && r.networks[p.network].physnet == net.physnet && r.networks[p.network].segment == net.segment
  }

  ghost predicate RouterDue(r: State, router: Option<RouterSpec>, p: Problem) {
    && router.Some? && router.value.external != ""
    && match p
       case ExternalMissing => router.value.external !in r.networks
       case NotExternal => router.value.external in r.networks && !r.networks[router.value.external].external
       case _ => false
  }

  ghost predicate SomeSubnetDue(r: State, spec: Spec, p: Problem) {
    exists i :: 0 <= i < |spec.subnets| && SubnetDue(r, spec.project, spec.subnets[i], p)
  }

  /** The rows of a spec whose project exists, each with its own condition. */
  ghost predicate Due(r: State, spec: Spec, p: Problem) {
    || ProviderDue(spec.network, p)
    || VlanDue(r, spec.network, p)
    || (p == MtuExceedsPeers && MtuTooLarge(r, spec.network))
    || SomeSubnetDue(r, spec, p)
    || RouterDue(r, spec.router, p)
  }

  // -------------------------------------------------------------- the script

  /** A listing holds every object once, under its name. */
  ghost predicate ListsAll<T(!new)>(listing: seq<(string, T)>, objects: map<string, T>) {
    && (forall i :: 0 <= i < |listing| ==> listing[i].0 in objects && objects[listing[i].0] == listing[i].1)
    && (forall n :: n in objects ==> (n, objects[n]) in listing)
  }

  method ListOf<T(!new)>(objects: map<string, T>) returns (listing: seq<(string, T)>)
    ensures ListsAll(listing, objects)
  {
    listing := [];
    var left := objects.Keys;
    while left != {}
      invariant left <= objects.Keys
      invariant forall i :: 0 <= i < |listing| ==> listing[i].0 in objects && objects[listing[i].0] == listing[i].1
      invariant forall n :: n in objects && n !in left ==> (n, objects[n]) in listing
      decreases left
    {
      var n :| n in left;
      listing := listing + [(n, objects[n])];
      left := left - {n};
    }
  }

  method CheckProvider(spec: NetworkSpec) returns (problems: seq<Problem>)
    ensures problems == [] <==> ProviderOk(spec)
    ensures OnlyFails(problems)
    ensures forall p :: p in problems <==> ProviderDue(spec, p)
  {
    problems := [];
    if NeedsPhysnet(spec) && NoPhysnet(spec) {
      problems := problems + [PhysnetMissing];
    }
    if IsVlan(spec) {
      if spec.segment == None {
        problems := problems + [SegmentMissing];
      } else if !(1 <= spec.segment.value <= 4094) {
        problems := problems + [SegmentOutOfRange];
      }
    }
  }

  method CheckVlan(ghost r: State, listing: seq<(string, Network)>, spec: NetworkSpec) returns (problems: seq<Problem>)
    requires ListsAll(listing, r.networks)
    ensures problems == [] <==> VlanFree(r, spec)
    ensures OnlyFails(problems)
    ensures forall p :: p in problems <==> VlanDue(r, spec, p)
  {
    problems := [];
    if IsVlan(spec) && spec.segment != None {
      for i := 0 to |listing|
        invariant OnlyFails(problems)
        invariant forall p :: p in problems <==>
          p.VlanInUse? && exists k :: 0 <= k < i && listing[k].0 == p.network && p.network != spec.name
                                        && SameVlan(spec, listing[k].1)
      {
        if listing[i].0 == spec.name {
          continue;
        }
        if SameVlan(spec, listing[i].1) {
          problems := problems + [VlanInUse(listing[i].0)];
        }
      }
      forall p ensures p in problems <==>
        p.VlanInUse? && p.network in r.networks && p.network != spec.name && SameVlan(spec, r.networks[p.network])
      {
        if p.VlanInUse? && p.network in r.networks {
          assert (p.network, r.networks[p.network]) in listing;
        }
      }
      if problems == [] {
        forall n | n in r.networks && n != spec.name ensures !SameVlan(spec, r.networks[n]) {
          assert VlanInUse(n) !in problems;
        }
      } else {
        assert problems[0] in problems;
      }
    }
  }

  method CheckMtu(ghost r: State, listing: seq<(string, Network)>, spec: NetworkSpec) returns (problems: seq<Problem>)
    requires ListsAll(listing, r.networks)
    ensures problems == if MtuTooLarge(r, spec) then [MtuExceedsPeers] else []
  {
    problems := [];
    if spec.mtu != 0 {
      var peers: seq<nat> := [];
      var largest: nat := 0;
      ghost var at := 0;
      for i := 0 to |listing|
        invariant peers == [] <==>
          forall k :: 0 <= k < i && listing[k].1.physnet == spec.physnet ==> listing[k].1.mtu == 0
        invariant forall k :: 0 <= k < i && listing[k].1.physnet == spec.physnet ==> listing[k].1.mtu <= largest
        invariant peers != [] ==>
          0 <= at < i && listing[at].1.physnet == spec.physnet && listing[at].1.mtu == largest > 0
      {
        if listing[i].1.physnet == spec.physnet && listing[i].1.mtu != 0 {
          if peers == [] || listing[i].1.mtu > largest {
            largest, at := listing[i].1.mtu, i;
          }
          peers := peers + [listing[i].1.mtu];
        }
      }
      assert forall n :: n in r.networks ==> (n, r.networks[n]) in listing;
      if peers != [] && spec.mtu > largest {
        problems := [MtuExceedsPeers];
      }
    }
  }

  method CheckOverlaps(ghost r: State, listing: seq<(string, Subnet)>, project: string, s: SubnetSpec, block: Block)
    returns (problems: seq<Problem>)
    requires ListsAll(listing, r.subnets) && block.size >= 1
    ensures problems == [] <==> AddressesFree(r, project, s.name, block)
    ensures OnlyFails(problems)
    ensures forall p :: p in problems <==>
      p.OverlapsSubnet? && p.subnet == s.name && Clashes(r, project, s.name, block, p.existing)
  {
    problems := [];
    for i := 0 to |listing|
      invariant OnlyFails(problems)
      invariant forall p :: p in problems <==>
        p.OverlapsSubnet? && p.subnet == s.name &&
        exists k :: 0 <= k < i && listing[k].0 == p.existing && !FreeOf(listing[k], project, s.name, block)
    {
      if listing[i].0 == s.name {
        continue;
      }
      var other := ParseLoose(listing[i].1.cidr);
      if other == None {
        continue;
      }
      OverlapsIsSharing(block, other.value);
      if Overlaps(block, other.value) && listing[i].1.project == project {
        problems := problems + [OverlapsSubnet(s.name, listing[i].0)];
      }
    }
    forall p ensures p in problems <==>
      p.OverlapsSubnet? && p.subnet == s.name && Clashes(r, project, s.name, block, p.existing)
    {
      if p.OverlapsSubnet? && p.existing in r.subnets {
        assert (p.existing, r.subnets[p.existing]) in listing;
      }
    }
    ClashesOnly(r, project, s.name, block, problems);
  }

  /** The block is free exactly when nothing clashes with it. */
  lemma ClashesOnly(r: State, project: string, name: string, block: Block, problems: seq<Problem>)
    requires forall p :: p in problems <==>
      p.OverlapsSubnet? && p.subnet == name && Clashes(r, project, name, block, p.existing)
    ensures problems == [] <==> AddressesFree(r, project, name, block)
  {
    if problems != [] {
      assert problems[0] in problems;
    } else {
      forall n | n in r.subnets ensures !Clashes(r, project, name, block, n) {
        assert OverlapsSubnet(name, n) !in problems;
      }
    }
  }

  ghost predicate FreeOf(entry: (string, Subnet), project: string, name: string, block: Block) {
    entry.0 != name && entry.1.project == project ==>
      var other := ParseLoose(entry.1.cidr);
      other.Some? ==> !Share(block, other.value)
  }

  /** One pool. Comparing addresses of different families raises; `crashed` says so. */
  method CheckPool(pool: Pool, block: Block, gateway: Option<Address>, name: string)
    returns (problems: seq<Problem>, crashed: bool)
    ensures crashed <==> PoolBreaks(pool, block, gateway)
    ensures !crashed ==> (problems == [] <==> PoolOk(pool, block, gateway))
    ensures !crashed ==> forall p :: p in problems <==> PoolDue(pool, block, gateway, name, p)
    ensures OnlyFails(problems)
  {
    problems, crashed := [], false;
    if !Member(pool.start, block) || !Member(pool.end, block) {
      problems := [PoolOutside(name)];
      assert InPool(pool.start, pool) ==> InPool(pool.end, pool);
    } else if pool.start.value > pool.end.value {
      problems := [PoolReversed(name)];
    } else {
      assert InPool(pool.start, pool) && InPool(pool.end, pool);
      if gateway.Some? {
        if gateway.value.v6 != pool.start.v6 {
          crashed := true;
        } else if pool.start.value <= gateway.value.value <= pool.end.value {
          problems := [PoolHoldsGateway(name)];
          assert InPool(gateway.value, pool);
        }
      }
    }
  }

  method CheckSubnet(ghost r: State, listing: seq<(string, Subnet)>, project: string, s: SubnetSpec)
    returns (problems: seq<Problem>, crashed: bool)
    requires ListsAll(listing, r.subnets)
    ensures crashed ==> !SubnetOk(r, project, s)
    ensures crashed <==> SubnetBreaks(s)
    ensures !crashed ==> (problems == [] <==> SubnetOk(r, project, s))
    ensures !crashed ==> forall p :: p in problems <==> SubnetDue(r, project, s, p)
    ensures OnlyFails(problems)
  {
    crashed := false;
    var parsed := ParseStrict(s.cidr);
    if parsed == None {
      return [BadCidr(s.name)], false;
    }
    var block := parsed.value;
    problems := CheckOverlaps(r, listing, project, s, block);
    if s.gateway.Some? && !Member(s.gateway.value, block) {
      problems := problems + [GatewayOutside(s.name)];
    }
    ghost var before := problems;
    for i := 0 to |s.pools|
      invariant OnlyFails(problems)
      invariant problems == [] <==> before == [] && forall k :: 0 <= k < i ==> PoolOk(s.pools[k], block, s.gateway)
      invariant forall k :: 0 <= k < i ==> !PoolBreaks(s.pools[k], block, s.gateway)
      invariant forall p :: p in problems <==>
        p in before || exists k :: 0 <= k < i && PoolDue(s.pools[k], block, s.gateway, s.name, p)
    {
      var more, broke := CheckPool(s.pools[i], block, s.gateway, s.name);
      if broke {
        return problems, true;
      }
      problems := problems + more;
    }
  }

  method CheckRouter(r: State, router: Option<RouterSpec>) returns (problems: seq<Problem>)
    ensures problems == [] <==> ExternalOk(r, router)
    ensures OnlyFails(problems)
    ensures forall p :: p in problems <==> RouterDue(r, router, p)
  {
    problems := [];
    if router.Some? && router.value.external != "" {
      if router.value.external !in r.networks {
        problems := [ExternalMissing];
      } else if !r.networks[router.value.external].external {
        problems := [NotExternal];
      }
    }
  }

  method CheckSubnets(r: State, spec: Spec) returns (problems: seq<Problem>, crashed: bool)
    ensures crashed ==> exists i :: 0 <= i < |spec.subnets| && !SubnetOk(r, spec.project, spec.subnets[i])
    ensures crashed <==> exists i :: 0 <= i < |spec.subnets| && SubnetBreaks(spec.subnets[i])
    ensures !crashed ==>
      (problems == [] <==> forall i :: 0 <= i < |spec.subnets| ==> SubnetOk(r, spec.project, spec.subnets[i]))
    ensures !crashed ==> forall p :: p in problems <==> SomeSubnetDue(r, spec, p)
    ensures OnlyFails(problems)
  {
    problems, crashed := [], false;
    var existing := ListOf(r.subnets);
    for i := 0 to |spec.subnets|
      invariant OnlyFails(problems)
      invariant problems == [] <==> forall k :: 0 <= k < i ==> SubnetOk(r, spec.project, spec.subnets[k])
      invariant forall k :: 0 <= k < i ==> !SubnetBreaks(spec.subnets[k])
      invariant forall p :: p in problems <==>
        exists k :: 0 <= k < i && SubnetDue(r, spec.project, spec.subnets[k], p)
    {
      var more, broke := CheckSubnet(r, existing, spec.project, spec.subnets[i]);
      if broke {
        return problems, true;
      }
      problems := problems + more;
    }
  }

  lemma FailsAdd(a: seq<Problem>, b: seq<Problem>)
    ensures HasFail(a + b) <==> HasFail(a) || HasFail(b)
  {
    if HasFail(a) {
      var i :| 0 <= i < |a| && Fails(a[i]);
      assert Fails((a + b)[i]);
    }
    if HasFail(b) {
      var i :| 0 <= i < |b| && Fails(b[i]);
      assert Fails((a + b)[|a| + i]);
    }
    if HasFail(a + b) {
      var i :| 0 <= i < |a + b| && Fails((a + b)[i]);
      assert i < |a| ==> Fails(a[i]);
      assert i >= |a| ==> Fails(b[i - |a|]);
    }
  }

  lemma AllDue(r: State, spec: Spec, a: seq<Problem>, b: seq<Problem>, c: seq<Problem>, d: seq<Problem>,
               e: seq<Problem>)
    requires forall p :: p in a <==> ProviderDue(spec.network, p)
    requires forall p :: p in b <==> VlanDue(r, spec.network, p)
    requires c == if MtuTooLarge(r, spec.network) then [MtuExceedsPeers] else []
    requires forall p :: p in d <==> SomeSubnetDue(r, spec, p)
    requires forall p :: p in e <==> RouterDue(r, spec.router, p)
    ensures forall p :: p in a + b + c + d + e <==> Due(r, spec, p)
  {
    forall p ensures p in a + b + c + d + e <==> Due(r, spec, p) {
      assert p in a + b + c + d + e <==> p in a || p in b || p in c || p in d || p in e;
    }
  }

  /**
   Every check, before anything is created. Each row is there exactly when it is due, and there is
   a FAIL row exactly when the spec is not admissible; "all passed" when there is no row to report.
   The run raises exactly on addresses of mixed families, which never hides an admissible spec.
   */
  method Validate(r: State, spec: Spec) returns (problems: seq<Problem>, crashed: bool)
    ensures crashed <==>
      spec.project in r.projects && exists i :: 0 <= i < |spec.subnets| && SubnetBreaks(spec.subnets[i])
    ensures spec.project !in r.projects ==> problems == [ProjectMissing]
    ensures !crashed && spec.project in r.projects ==>
      forall p :: p != AllPassed ==> (p in problems <==> Due(r, spec, p))
    ensures crashed ==> !Admissible(r, spec)
    ensures !crashed ==> (HasFail(problems) <==> !Admissible(r, spec))
    ensures !crashed && spec.project in r.projects ==> (MtuExceedsPeers in problems <==> MtuTooLarge(r, spec.network))
    ensures !crashed ==> (problems == [AllPassed] <==> Admissible(r, spec) && !MtuTooLarge(r, spec.network))
  {
    crashed := false;
    if spec.project !in r.projects {
      problems := [ProjectMissing];
      assert Fails(problems[0]);
      return;
    }
    var networks := ListOf(r.networks);
    var provider := CheckProvider(spec.network);
    var vlan := CheckVlan(r, networks, spec.network);
    var mtu := CheckMtu(r, networks, spec.network);
    var subnets, broke := CheckSubnets(r, spec);
    if broke {
      return provider + vlan + mtu + subnets, true;
    }
    var router := CheckRouter(r, spec.router);
    problems := provider + vlan + mtu + subnets + router;
    CountFails(provider, vlan, mtu, subnets, router);
    AllDue(r, spec, provider, vlan, mtu, subnets, router);
    if problems == [] {
      problems := [AllPassed];
    }
  }

  lemma CountFails(a: seq<Problem>, b: seq<Problem>, c: seq<Problem>, d: seq<Problem>, e: seq<Problem>)
    requires c == [] || c == [MtuExceedsPeers]
    requires OnlyFails(a) && OnlyFails(b) && OnlyFails(d) && OnlyFails(e)
    ensures HasFail(a + b + c + d + e) <==> a != [] || b != [] || d != [] || e != []
    ensures MtuExceedsPeers in a + b + c + d + e <==> c != []
    ensures AllPassed !in a + b + c + d + e
  {
    FailsAdd(a, b);
    FailsAdd(a + b, c);
    FailsAdd(a + b + c, d);
    FailsAdd(a + b + c + d, e);
    assert a != [] ==> Fails(a[0]);
    assert b != [] ==> Fails(b[0]);
    assert d != [] ==> Fails(d[0]);
    assert e != [] ==> Fails(e[0]);
  }
}
