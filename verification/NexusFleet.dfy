/**
 Bare metal machines as the Network Cloud API reports them, the health rules, the
 scope filters and the rack headroom check.
 */
module NexusFleet {
  import opened Text
  import opened Ordering

  datatype PowerState = On | Off | OtherPower(text: string)

  datatype CordonStatus = Uncordoned | Cordoned | NoCordonStatus | OtherCordon(text: string)

  datatype DetailedStatus = Available | Provisioned | OtherStatus(text: string)

  datatype HardwareValidation = NoResult | Pass | OtherResult(text: string)

  datatype Machine = Machine(
    clusterId: string,
    rackId: string,
    slot: int,
    power: PowerState,
    cordon: CordonStatus,
    ready: bool,
    detailed: DetailedStatus,
    hardware: HardwareValidation)

  /** The fleet, keyed by machine name. */
  type Fleet = map<string, Machine>

  datatype Problem = NotReady | BadDetailedStatus | NotPoweredOn | IsCordoned | HardwareNotPassed

  /** What "healthy" means: ready, in a good detailed status, on, not cordoned, hardware not failing. */
  predicate Healthy(m: Machine) {
    && m.ready
    && (m.detailed == Available || m.detailed == Provisioned)
    && m.power == On
    && (m.cordon == Uncordoned || m.cordon == NoCordonStatus)
    && (m.hardware == NoResult || m.hardware == Pass)
  }

  method HealthSummary(m: Machine) returns (problems: seq<Problem>)
    ensures problems == [] <==> Healthy(m)
    ensures NotReady in problems <==> !m.ready
    ensures BadDetailedStatus in problems <==> m.detailed.OtherStatus?
    ensures NotPoweredOn in problems <==> m.power != On
    ensures IsCordoned in problems <==> m.cordon.Cordoned? || m.cordon.OtherCordon?
    ensures HardwareNotPassed in problems <==> m.hardware.OtherResult?
  {
    problems := [];
    if !m.ready {
      problems := problems + [NotReady];
    }
    if m.detailed != Available && m.detailed != Provisioned {
      problems := problems + [BadDetailedStatus];
    }
    if m.power != On {
      problems := problems + [NotPoweredOn];
    }
    if m.cordon != Uncordoned && m.cordon != NoCordonStatus {
      problems := problems + [IsCordoned];
    }
    if m.hardware != NoResult && m.hardware != Pass {
      problems := problems + [HardwareNotPassed];
    }
  }

  /** The last path segment of the rack id, "-" when there is none. */
  function RackName(m: Machine): string {
    LastSegment(if m.rackId == "" then "-" else m.rackId)
  }

  /** Scope options; an empty string or list means the option was not given. */
  datatype Scope = Scope(cluster: string, rack: string, machines: seq<string>)

  const EVERYTHING := Scope("", "", [])

  predicate InCluster(m: Machine, scope: Scope) {
    scope.cluster == "" || LastSegment(m.clusterId) == scope.cluster
  }

  predicate InRack(m: Machine, scope: Scope) {
    scope.rack == "" || Contains(Lower(m.rackId), Lower(scope.rack))
  }

  predicate Wanted(name: string, scope: Scope) {
    scope.machines == [] || exists i :: 0 <= i < |scope.machines| && Lower(scope.machines[i]) == Lower(name)
  }

  predicate InScope(name: string, m: Machine, scope: Scope) {
    InCluster(m, scope) && InRack(m, scope) && Wanted(name, scope)
  }

  /** One entry of an API listing. */
  datatype Listed = Listed(name: string, machine: Machine)

  /** The listing API returns every machine once, in an order of its own. */
  ghost predicate Lists(listing: seq<Listed>, fleet: Fleet) {
    && (forall i, j :: 0 <= i < j < |listing| ==> listing[i].name != listing[j].name)
    && (forall i :: 0 <= i < |listing| ==> listing[i].name in fleet && listing[i].machine == fleet[listing[i].name])
    && (forall n :: n in fleet ==> Listed(n, fleet[n]) in listing)
  }

  /** Rack first, then slot. */
  predicate RackSlotLe(a: Listed, b: Listed) {
    var ra, rb := RackName(a.machine), RackName(b.machine);
    StringLe(ra, rb) && (ra != rb || a.machine.slot <= b.machine.slot)
  }

  lemma RackSlotOrder()
    ensures TotalPreorder(RackSlotLe)
  {
    forall a: Listed, b: Listed ensures RackSlotLe(a, b) || RackSlotLe(b, a) {
      StringLeTotal(RackName(a.machine), RackName(b.machine));
    }
    forall a: Listed, b: Listed, c: Listed | RackSlotLe(a, b) && RackSlotLe(b, c) ensures RackSlotLe(a, c) {
      var ra, rb, rc := RackName(a.machine), RackName(b.machine), RackName(c.machine);
      StringLeTransitive(ra, rb, rc);
      if ra == rc {
        StringLeAntisymmetric(ra, rb);
      }
    }
  }

  /** The machines in scope, in rack and slot order. */
  function Scoped(listing: seq<Listed>, scope: Scope): seq<Listed> {
    StableSort(Filter(listing, (l: Listed) => InScope(l.name, l.machine, scope)), RackSlotLe)
  }

  function Names(listing: seq<Listed>): seq<string> {
    seq(|listing|, i requires 0 <= i < |listing| => listing[i].name)
  }

  method ListMachines(listing: seq<Listed>, scope: Scope) returns (machines: seq<Listed>)
    ensures machines == Scoped(listing, scope)
  {
    var inCluster := (l: Listed) => InCluster(l.machine, scope);
    var inRack := (l: Listed) => InRack(l.machine, scope);
    var wanted := (l: Listed) => Wanted(l.name, scope);
    machines := listing;
    if scope.cluster != "" {
      machines := Filter(machines, inCluster);
    } else {
      FilterAll(machines, inCluster);
    }
    if scope.rack != "" {
      machines := Filter(machines, inRack);
    } else {
      FilterAll(machines, inRack);
    }
    if scope.machines != [] {
      machines := Filter(machines, wanted);
    } else {
      FilterAll(machines, wanted);
    }
    ghost var both := (l: Listed) => inCluster(l) && inRack(l);
    FilterTwice(listing, inCluster, inRack, both);
    FilterTwice(listing, both, wanted, (l: Listed) => InScope(l.name, l.machine, scope));
    machines := StableSort(machines, RackSlotLe);
  }

  lemma ScopedMembers(listing: seq<Listed>, fleet: Fleet, scope: Scope)
    requires Lists(listing, fleet)
    ensures var machines := Scoped(listing, scope);
      && (forall l :: l in machines <==> l in listing && InScope(l.name, l.machine, scope))
      && (forall l :: l in machines ==> l.name in fleet && l.machine == fleet[l.name])
  {
    var p := (l: Listed) => InScope(l.name, l.machine, scope);
    FilterElements(listing, p);
    SortElements(Filter(listing, p), RackSlotLe);
  }

  lemma ScopedDistinct(listing: seq<Listed>, fleet: Fleet, scope: Scope)
    requires Lists(listing, fleet)
    ensures Distinct(Scoped(listing, scope))
  {
    var p := (l: Listed) => InScope(l.name, l.machine, scope);
    assert Distinct(listing) by {
      forall i, j | 0 <= i < j < |listing| ensures listing[i] != listing[j] {
        assert listing[i].name != listing[j].name;
      }
    }
    FilterOnce(listing, p);
    SortOnce(Filter(listing, p), RackSlotLe);
  }

  /** What the driver gets to work through: the fleet's machines in scope, once each, by rack and slot. */
  lemma ScopedIsExact(listing: seq<Listed>, fleet: Fleet, scope: Scope)
    requires Lists(listing, fleet)
    ensures var machines := Scoped(listing, scope);
      && SortedBy(machines, RackSlotLe)
      && Distinct(Names(machines))
      && (forall n :: n in Names(machines) <==> n in fleet && InScope(n, fleet[n], scope))
      && (forall i :: 0 <= i < |machines| ==>
           machines[i].name in fleet && machines[i].machine == fleet[machines[i].name])
  {
    var machines := Scoped(listing, scope);
    var names := Names(machines);
    RackSlotOrder();
    SortSorted(Filter(listing, (l: Listed) => InScope(l.name, l.machine, scope)), RackSlotLe);
    ScopedMembers(listing, fleet, scope);
    ScopedDistinct(listing, fleet, scope);
    forall n | n in names ensures n in fleet && InScope(n, fleet[n], scope) {
      var i :| 0 <= i < |names| && names[i] == n;
      assert machines[i] in machines;
    }
    forall n | n in fleet && InScope(n, fleet[n], scope) ensures n in names {
      assert Listed(n, fleet[n]) in machines;
      var i :| 0 <= i < |machines| && machines[i] == Listed(n, fleet[n]);
      assert names[i] == n;
    }
    forall i, j | 0 <= i < j < |names| ensures names[i] != names[j] {
      assert machines[i] in machines && machines[j] in machines;
      assert machines[i] != machines[j];
    }
  }

  /**
   The scope options, each on its own: --cluster wants the last segment of the cluster id, --rack takes
   any text that stands in the rack id, --machine lists names; case matters to --cluster only.
   */
  lemma SelectedIff(listing: seq<Listed>, fleet: Fleet, scope: Scope, name: string)
    requires Lists(listing, fleet)
    ensures name in Names(Scoped(listing, scope)) <==>
      && name in fleet
      && (scope.cluster == "" || LastSegment(fleet[name].clusterId) == scope.cluster)
      && (scope.rack == "" || exists a, b :: Lower(fleet[name].rackId) == a + Lower(scope.rack) + b)
      && (scope.machines == [] || exists i :: 0 <= i < |scope.machines| && Lower(scope.machines[i]) == Lower(name))
  {
    ScopedIsExact(listing, fleet, scope);
    if name in fleet {
      ContainsIs(Lower(fleet[name].rackId), Lower(scope.rack));
    }
  }

  /** The order of the machines: by the last segment of the rack id, as text, then by slot. */
  lemma ScopedInOrder(listing: seq<Listed>, fleet: Fleet, scope: Scope, i: nat, j: nat)
    requires Lists(listing, fleet) && i < j < |Scoped(listing, scope)|
    ensures var a, b := Scoped(listing, scope)[i].machine, Scoped(listing, scope)[j].machine;
      var ra := if a.rackId == "" then "-" else LastSegment(a.rackId);
      var rb := if b.rackId == "" then "-" else LastSegment(b.rackId);
      Before(ra, rb) && (ra == rb ==> a.slot <= b.slot)
  {
    ScopedIsExact(listing, fleet, scope);
    var a, b := Scoped(listing, scope)[i], Scoped(listing, scope)[j];
    assert RackSlotLe(a, b);
    StringLeIs(RackName(a.machine), RackName(b.machine));
    assert "-"[..0] == "";
  }

  /** The healthy machines in scope and in the rack, the target left out. */
  ghost function HealthyInRack(fleet: Fleet, scope: Scope, rack: string, target: string): set<string> {
    set n | n in fleet && n != target && InScope(n, fleet[n], scope) && RackName(fleet[n]) == rack && Healthy(fleet[n])
  }

  /** Those that share the target's rack. */
  ghost function HealthyOthers(fleet: Fleet, scope: Scope, target: string): set<string>
    requires target in fleet
  {
    HealthyInRack(fleet, scope, RackName(fleet[target]), target)
  }

  ghost predicate Headroom(fleet: Fleet, scope: Scope, target: string, floor: int) {
    && target in fleet
    && InScope(target, fleet[target], scope)
    && |HealthyOthers(fleet, scope, target)| >= floor
  }

  predicate Spare(l: Listed, rack: string, target: string) {
    RackName(l.machine) == rack && l.name != target && Healthy(l.machine)
  }

  /** Counting list entries counts machines, because each is listed once. */
  lemma SparesCounted(listing: seq<Listed>, fleet: Fleet, scope: Scope, target: string)
    requires Lists(listing, fleet) && target in fleet
    ensures |Filter(Scoped(listing, scope), (l: Listed) => Spare(l, RackName(fleet[target]), target))|
      == |HealthyOthers(fleet, scope, target)|
  {
    var machines := Scoped(listing, scope);
    var spare := (l: Listed) => Spare(l, RackName(fleet[target]), target);
    var spares := Filter(machines, spare);
    ScopedMembers(listing, fleet, scope);
    ScopedDistinct(listing, fleet, scope);
    FilterElements(machines, spare);
    FilterOnce(machines, spare);
    var names := Names(spares);
    assert Distinct(names) by {
      forall i, j | 0 <= i < j < |names| ensures names[i] != names[j] {
        assert spares[i] in machines && spares[j] in machines && spares[i] != spares[j];
      }
    }
    DistinctSize(names);
    forall n | n in names ensures n in HealthyOthers(fleet, scope, target) {
      var i :| 0 <= i < |names| && names[i] == n;
      assert spares[i] in machines;
    }
    forall n | n in HealthyOthers(fleet, scope, target) ensures n in names {
      assert Listed(n, fleet[n]) in spares;
      var i :| 0 <= i < |spares| && spares[i] == Listed(n, fleet[n]);
      assert names[i] == n;
    }
    assert (set n | n in names) == HealthyOthers(fleet, scope, target);
  }

  method HealthyPeers(peers: seq<Listed>, rack: string, target: string) returns (others: seq<Listed>)
    ensures others == Filter(peers, (l: Listed) => Spare(l, rack, target))
  {
    ghost var spare := (l: Listed) => Spare(l, rack, target);
    others := [];
    for i := 0 to |peers|
      invariant others == Filter(peers[..i], spare)
    {
      var problems := HealthSummary(peers[i].machine);
      assert peers[..i + 1] == peers[..i] + [peers[i]];
      FilterAppend(peers[..i], [peers[i]], spare);
      if RackName(peers[i].machine) == rack && peers[i].name != target && problems == [] {
        others := others + [peers[i]];
      }
    }
    assert peers[..|peers|] == peers;
  }

  /** Looks the target up among the machines in scope, then counts the healthy neighbours in its rack. */
  method RackHasHeadroom(listing: seq<Listed>, ghost fleet: Fleet, scope: Scope, target: string, floor: int)
    returns (ok: bool)
    requires Lists(listing, fleet)
    ensures ok <==> Headroom(fleet, scope, target, floor)
  {
    var peers := ListMachines(listing, scope);
    var at := 0;
    while at < |peers| && peers[at].name != target
      invariant 0 <= at <= |peers|
      invariant forall i :: 0 <= i < at ==> peers[i].name != target
    {
      at := at + 1;
    }
    TargetFound(listing, fleet, scope, target);
    if at == |peers| {
      return false;
    }
    assert peers[at] in peers;
    var others := HealthyPeers(peers, RackName(peers[at].machine), target);
    SparesCounted(listing, fleet, scope, target);
    ok := |others| >= floor;
  }

  lemma TargetFound(listing: seq<Listed>, fleet: Fleet, scope: Scope, target: string)
    requires Lists(listing, fleet)
    ensures target in fleet && InScope(target, fleet[target], scope) ==>
      exists i :: 0 <= i < |Scoped(listing, scope)| && Scoped(listing, scope)[i].name == target
    ensures forall l :: l in Scoped(listing, scope) && l.name == target ==>
      target in fleet && l == Listed(target, fleet[target]) && InScope(target, fleet[target], scope)
  {
    ScopedMembers(listing, fleet, scope);
    if target in fleet && InScope(target, fleet[target], scope) {
      assert Listed(target, fleet[target]) in Scoped(listing, scope);
    }
  }

  /** The check is conservative: what a narrow scope can spare, the whole fleet can spare. */
  lemma HeadroomWidens(fleet: Fleet, scope: Scope, target: string, floor: int)
    requires Headroom(fleet, scope, target, floor)
    ensures Headroom(fleet, EVERYTHING, target, floor)
  {
    SubsetSize(HealthyOthers(fleet, scope, target), HealthyOthers(fleet, EVERYTHING, target));
  }

  /** A scope holding no more machines of the rack than the floor never passes, however healthy the rack is. */
  lemma SmallScopeNeverPasses(fleet: Fleet, scope: Scope, target: string, floor: int, peers: set<string>)
    requires target in fleet && target in peers
    requires forall n | n in fleet && InScope(n, fleet[n], scope) ::
      RackName(fleet[n]) == RackName(fleet[target]) ==> n in peers
    requires |peers| <= floor
    ensures !Headroom(fleet, scope, target, floor)
  {
    SubsetSize(HealthyOthers(fleet, scope, target), peers - {target});
  }
}
