/** The OpenStack region the onboarding script works on, and the network spec it works from. */
module Region {
  import opened Basics
  import opened Cidr

  datatype Pool = Pool(start: Address, end: Address)

  datatype SubnetSpec = SubnetSpec(
    name: string, cidr: CidrText, gateway: Option<Address>, pools: seq<Pool>, dns: seq<string>, dhcp: bool)

  datatype NetworkSpec = NetworkSpec(
    name: string, providerType: Option<string>, physnet: Option<string>, segment: Option<int>, mtu: nat,
    shared: bool, portSecurity: bool)

  /** `external` is "" when the spec gives the router no external network. */
  datatype RouterSpec = RouterSpec(name: string, external: string)

  datatype Rule = Rule(direction: string, protocol: Option<string>, port: Option<int>, remote: Option<string>)

  datatype GroupSpec = GroupSpec(name: string, rules: seq<Rule>)

  datatype Spec = Spec(
    project: string, network: NetworkSpec, subnets: seq<SubnetSpec>,
    router: Option<RouterSpec>, group: Option<GroupSpec>)

  /** An MTU of 0 stands for none. */
  datatype Network = Network(project: string, providerType: Option<string>, physnet: Option<string>,
                             segment: Option<int>, mtu: nat, shared: bool, portSecurity: bool, external: bool)

  datatype Subnet = Subnet(network: string, project: string, cidr: CidrText, gateway: Option<Address>,
                           pools: seq<Pool>, dns: seq<string>, dhcp: bool)

  datatype Router = Router(project: string, gateway: Option<string>, interfaces: set<string>)

  datatype Group = Group(project: string, rules: seq<Rule>)

  /** Objects by name; references between them are names too, so equality here is equality up to ids. */
  datatype State = State(
    projects: set<string>,
    networks: map<string, Network>,
    subnets: map<string, Subnet>,
    routers: map<string, Router>,
    groups: map<string, Group>)

  predicate Attached(r: State, subnet: string) {
    exists n :: n in r.routers && subnet in r.routers[n].interfaces
  }

  /** Attaching takes the subnet's gateway address for the router's port, so it works once and needs one. */
  predicate CanAttach(r: State, router: string, subnet: string) {
    router in r.routers && subnet in r.subnets && r.subnets[subnet].gateway.Some? && !Attached(r, subnet)
  }

  /** Nothing dangles. */
  ghost predicate Sound(r: State) {
    && (forall n :: n in r.subnets ==> r.subnets[n].network in r.networks)
    && (forall n, s :: n in r.routers && s in r.routers[n].interfaces ==> s in r.subnets)
    && (forall n :: n in r.routers && r.routers[n].gateway.Some? ==> r.routers[n].gateway.value in r.networks)
  }
}
