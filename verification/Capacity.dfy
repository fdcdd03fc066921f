/** Host capacity from Placement, and the two gates that rest on it: N hosts down at once, and one host drained. */
module Capacity {
  import opened Text
  import opened Ordering
  import opened Sums

  // ---------------------------------------------------------- host capacity

  /** One resource class of a provider. */
  datatype Entry = Entry(total: real, reserved: real, ratio: real, used: real)

  const EMPTY_CLASS := Entry(0.0, 0.0, 1.0, 0.0)

  type Provider = map<string, Entry>

  datatype Hypervisor = Hypervisor(
    name: string, up: bool, enabled: bool, vcpus: real, vcpusUsed: real, memory: real, memoryUsed: real)

  datatype Host = Host(vcpuTotal: real, vcpuUsed: real, memTotal: real, memUsed: real)

  /** Schedulable capacity: (total - reserved) * ratio. */
  function Usable(e: Entry): real {
    (e.total - e.reserved) * e.ratio
  }

  function ClassOf(p: Provider, name: string): Entry {
    if name in p then p[name] else EMPTY_CLASS
  }

  /** Placement's figures if it has any for the host, else the hypervisor's own. */
  function HostOf(hv: Hypervisor, capacity: map<string, Provider>): Host {
    if hv.name in capacity && capacity[hv.name] != map[] then
      var vcpu, mem := ClassOf(capacity[hv.name], "VCPU"), ClassOf(capacity[hv.name], "MEMORY_MB");
      Host(Usable(vcpu), vcpu.used, Usable(mem), mem.used)
    else
      Host(hv.vcpus, hv.vcpusUsed, hv.memory, hv.memoryUsed)
  }

  /** Of a resource class: what is not reserved, times the allocation ratio; what is used; nothing if it is missing. */
  ghost predicate IsClass(p: Provider, name: string, total: real, used: real) {
    if name in p then total == (p[name].total - p[name].reserved) * p[name].ratio && used == p[name].used
    else total == 0.0 && used == 0.0
  }

  lemma ClassSpelled(p: Provider, name: string, total: real, used: real)
    requires total == Usable(ClassOf(p, name)) && used == ClassOf(p, name).used
    ensures IsClass(p, name, total, used)
  {
    if name !in p {
      assert ClassOf(p, name) == EMPTY_CLASS;
    }
  }

  /** A host's figures: Placement's for it, class by class, or the hypervisor's own when Placement has none. */
  lemma FiguresSpelled(hv: Hypervisor, capacity: map<string, Provider>)
    ensures var h := HostOf(hv, capacity);
      if hv.name in capacity && capacity[hv.name] != map[] then
        && IsClass(capacity[hv.name], "VCPU", h.vcpuTotal, h.vcpuUsed)
        && IsClass(capacity[hv.name], "MEMORY_MB", h.memTotal, h.memUsed)
      else
        h.vcpuTotal == hv.vcpus && h.vcpuUsed == hv.vcpusUsed && h.memTotal == hv.memory && h.memUsed == hv.memoryUsed
  {
    if hv.name in capacity && capacity[hv.name] != map[] {
      var h := HostOf(hv, capacity);
      ClassSpelled(capacity[hv.name], "VCPU", h.vcpuTotal, h.vcpuUsed);
      ClassSpelled(capacity[hv.name], "MEMORY_MB", h.memTotal, h.memUsed);
    }
  }

  /** The listed names, each where it first appears. */
  function NamesOf(hypervisors: seq<Hypervisor>): (names: seq<string>)
    ensures forall i :: 0 <= i < |hypervisors| ==> hypervisors[i].name in names
    decreases |hypervisors|
  {
    if hypervisors == [] then []
    else
      var front, last := hypervisors[..|hypervisors| - 1], hypervisors[|hypervisors| - 1];
      assert hypervisors == front + [last];
      if last.name in NamesOf(front) then NamesOf(front) else NamesOf(front) + [last.name]
  }

  /** Per-host figures under the host's name; a name listed twice keeps the later figures. */
  function Figures(hypervisors: seq<Hypervisor>, capacity: map<string, Provider>): (figures: map<string, Host>)
    ensures forall n :: n in figures <==> n in NamesOf(hypervisors)
    decreases |hypervisors|
  {
    if hypervisors == [] then map[]
    else
      var front, last := hypervisors[..|hypervisors| - 1], hypervisors[|hypervisors| - 1];
      Figures(front, capacity)[last.name := HostOf(last, capacity)]
  }

  /** Each name once, and no others. */
  lemma {:induction false} NamesAreListed(hypervisors: seq<Hypervisor>)
    ensures Distinct(NamesOf(hypervisors))
    ensures forall n :: n in NamesOf(hypervisors) ==> exists i :: 0 <= i < |hypervisors| && hypervisors[i].name == n
    decreases |hypervisors|
  {
    if hypervisors != [] {
      var front, last := hypervisors[..|hypervisors| - 1], hypervisors[|hypervisors| - 1];
      NamesAreListed(front);
      forall n | n in NamesOf(hypervisors) ensures exists i :: 0 <= i < |hypervisors| && hypervisors[i].name == n {
        if n in NamesOf(front) {
          var i :| 0 <= i < |front| && front[i].name == n;
          assert hypervisors[i].name == n;
        } else {
          assert hypervisors[|hypervisors| - 1].name == n;
        }
      }
    }
  }

  lemma OtherFiguresStay(hypervisors: seq<Hypervisor>, capacity: map<string, Provider>, name: string)
    requires hypervisors != [] && hypervisors[|hypervisors| - 1].name != name
    requires name in Figures(hypervisors[..|hypervisors| - 1], capacity)
    ensures name in Figures(hypervisors, capacity)
    ensures Figures(hypervisors, capacity)[name] == Figures(hypervisors[..|hypervisors| - 1], capacity)[name]
  {
  }

  /** A host's figures are those of the last entry of its name. */
  lemma {:induction false} LastFiguresCount(hypervisors: seq<Hypervisor>, capacity: map<string, Provider>, i: nat)
    requires i < |hypervisors|
    requires forall j :: i < j < |hypervisors| ==> hypervisors[j].name != hypervisors[i].name
    ensures var figures := Figures(hypervisors, capacity);
      hypervisors[i].name in figures && figures[hypervisors[i].name] == HostOf(hypervisors[i], capacity)
    decreases |hypervisors|
  {
    var n := |hypervisors| - 1;
    if i < n {
      var front := hypervisors[..n];
      assert forall j :: 0 <= j < n ==> front[j] == hypervisors[j];
      LastFiguresCount(front, capacity, i);
      OtherFiguresStay(hypervisors, capacity, front[i].name);
    }
  }

  method HostCapacity(hypervisors: seq<Hypervisor>, capacity: map<string, Provider>)
    returns (result: map<string, Host>, names: seq<string>)
    ensures result == Figures(hypervisors, capacity) && names == NamesOf(hypervisors)
  {
    result, names := map[], [];
    for k := 0 to |hypervisors|
      invariant result == Figures(hypervisors[..k], capacity) && names == NamesOf(hypervisors[..k])
    {
      var hv := hypervisors[k];
      assert hypervisors[..k + 1][..k] == hypervisors[..k] && hypervisors[..k + 1][k] == hv;
      if hv.name !in names {
        names := names + [hv.name];
      }
      result := result[hv.name := HostOf(hv, capacity)];
    }
    assert hypervisors[..|hypervisors|] == hypervisors;
  }

  function VcpuFree(h: Host): real { h.vcpuTotal - h.vcpuUsed }

  function MemFree(h: Host): real { h.memTotal - h.memUsed }

  function VcpuUsed(h: Host): real { h.vcpuUsed }

  function MemUsed(h: Host): real { h.memUsed }

  function VcpuTotal(h: Host): real { h.vcpuTotal }

  function MemTotal(h: Host): real { h.memTotal }

  // ------------------------------------------------------------- drain of N

  /** `xs[:n]` */
  function Take<T>(xs: seq<T>, n: int): seq<T> {
    if n >= 0 then (if n <= |xs| then xs[..n] else xs)
    else if |xs| + n >= 0 then xs[..|xs| + n] else []
  }

  /** `xs[n:]` */
  function Drop<T>(xs: seq<T>, n: int): seq<T> {
    if n >= 0 then (if n <= |xs| then xs[n..] else [])
    else if |xs| + n >= 0 then xs[|xs| + n..] else xs
  }

  /** Most memory in use first; equal hosts keep the listing's order. */
  function ByLoad(hosts: seq<Host>): seq<Host> {
    StableSort(hosts, (a, b) => AtLeast(MemUsed, a, b))
  }

  /** What the victims use fits into what the survivors have free, in total. */
  predicate Fits(victims: seq<Host>, survivors: seq<Host>) {
    && Sum(VcpuFree, survivors) >= Sum(VcpuUsed, victims)
    && Sum(MemFree, survivors) >= Sum(MemUsed, victims)
  }

  /** The capacity check of the upgrade gate on the hosts reporting up. */
  predicate GatePasses(hosts: seq<Host>, evacuate: int) {
    hosts != [] && Fits(Take(ByLoad(hosts), evacuate), Drop(ByLoad(hosts), evacuate))
  }

  /** The figures of each hypervisor listed, looked up by name. */
  function HostsOf(hypervisors: seq<Hypervisor>, capacity: map<string, Provider>): seq<Host> {
    seq(|hypervisors|, i requires 0 <= i < |hypervisors| => Figures(hypervisors, capacity)[hypervisors[i].name])
  }

  /** The check on what the API lists: only hosts reporting up count, and there must be one. */
  predicate CheckCapacity(hypervisors: seq<Hypervisor>, capacity: map<string, Provider>, evacuate: int) {
    GatePasses(HostsOf(Filter(hypervisors, (hv: Hypervisor) => hv.up), capacity), evacuate)
  }

  /** A choice of hosts to take down, and the rest. */
  ghost predicate Split(hosts: seq<Host>, victims: seq<Host>, survivors: seq<Host>) {
    multiset(victims) + multiset(survivors) == multiset(hosts)
  }

  lemma TakeDropSplit(hosts: seq<Host>, n: int)
    ensures Split(hosts, Take(ByLoad(hosts), n), Drop(ByLoad(hosts), n))
  {
    LargestFirst(MemUsed, hosts);
    var sorted := ByLoad(hosts);
    assert sorted == Take(sorted, n) + Drop(sorted, n);
    assert multiset(sorted) == multiset(Take(sorted, n)) + multiset(Drop(sorted, n));
  }

  lemma SumSplit(f: Host -> real, hosts: seq<Host>, victims: seq<Host>, survivors: seq<Host>)
    requires Split(hosts, victims, survivors)
    ensures Sum(f, hosts) == Sum(f, victims) + Sum(f, survivors)
  {
    assert multiset(victims + survivors) == multiset(hosts);
    SumSameElements(f, hosts, victims + survivors);
    SumAppend(f, victims, survivors);
  }

  /** Survivors' free less victims' used is everything's free less victims' total, whoever the victims are. */
  lemma DrainBalance(hosts: seq<Host>, victims: seq<Host>, survivors: seq<Host>)
    requires Split(hosts, victims, survivors)
    ensures Sum(VcpuFree, survivors) - Sum(VcpuUsed, victims) == Sum(VcpuFree, hosts) - Sum(VcpuTotal, victims)
    ensures Sum(MemFree, survivors) - Sum(MemUsed, victims) == Sum(MemFree, hosts) - Sum(MemTotal, victims)
  {
    SumSplit(VcpuFree, hosts, victims, survivors);
    SumSplit(MemFree, hosts, victims, survivors);
    SumOfSums(VcpuFree, VcpuUsed, VcpuTotal, victims);
    SumOfSums(MemFree, MemUsed, MemTotal, victims);
  }

  lemma FitsByTotals(hosts: seq<Host>, victims: seq<Host>, survivors: seq<Host>)
    requires Split(hosts, victims, survivors)
    ensures Fits(victims, survivors) <==>
      Sum(VcpuTotal, victims) <= Sum(VcpuFree, hosts) && Sum(MemTotal, victims) <= Sum(MemFree, hosts)
  {
    DrainBalance(hosts, victims, survivors);
  }

  /** The gate's victims need the most memory that any N hosts could need. */
  lemma VictimsNeedMost(hosts: seq<Host>, n: nat, victims: seq<Host>, survivors: seq<Host>)
    requires n <= |hosts| && Split(hosts, victims, survivors) && |victims| == n
    ensures Sum(MemUsed, victims) <= Sum(MemUsed, Take(ByLoad(hosts), n))
  {
    LargestFirst(MemUsed, hosts);
    assert multiset(victims) <= multiset(ByLoad(hosts));
    TopIsLargest(MemUsed, ByLoad(hosts), victims);
  }

  /** Whatever N hosts go down, the others can take the load. */
  ghost predicate EveryChoiceFits(hosts: seq<Host>, n: nat) {
    forall victims, survivors :: Split(hosts, victims, survivors) && |victims| == n ==> Fits(victims, survivors)
  }

  function TopTotal(f: Host -> real, hosts: seq<Host>, n: nat): real
  {
    Sum(f, Take(StableSort(hosts, (a, b) => AtLeast(f, a, b)), n))
  }

  lemma TopTotalIsLargest(f: Host -> real, hosts: seq<Host>, victims: seq<Host>, survivors: seq<Host>)
    requires Split(hosts, victims, survivors)
    ensures Sum(f, victims) <= TopTotal(f, hosts, |victims|)
  {
    LargestFirst(f, hosts);
    var sorted := StableSort(hosts, (a, b) => AtLeast(f, a, b));
    assert multiset(victims) <= multiset(sorted);
    TopIsLargest(f, sorted, victims);
  }

  lemma TopIsAChoice(f: Host -> real, hosts: seq<Host>, n: nat) returns (victims: seq<Host>, survivors: seq<Host>)
    requires n <= |hosts|
    ensures Split(hosts, victims, survivors) && |victims| == n && Sum(f, victims) == TopTotal(f, hosts, n)
  {
    LargestFirst(f, hosts);
    var sorted := StableSort(hosts, (a, b) => AtLeast(f, a, b));
    victims, survivors := sorted[..n], sorted[n..];
    assert sorted == victims + survivors;
  }

  /**
   For hosts of any sizes: every choice of N fits exactly when the N largest hosts' totals fit, resource by
   resource.
   */
  lemma EveryChoiceIff(hosts: seq<Host>, n: nat)
    requires n <= |hosts|
    ensures EveryChoiceFits(hosts, n) <==>
      TopTotal(VcpuTotal, hosts, n) <= Sum(VcpuFree, hosts) && TopTotal(MemTotal, hosts, n) <= Sum(MemFree, hosts)
  {
    var v1, s1 := TopIsAChoice(VcpuTotal, hosts, n);
    var v2, s2 := TopIsAChoice(MemTotal, hosts, n);
    FitsByTotals(hosts, v1, s1);
    FitsByTotals(hosts, v2, s2);
    if TopTotal(VcpuTotal, hosts, n) <= Sum(VcpuFree, hosts) && TopTotal(MemTotal, hosts, n) <= Sum(MemFree, hosts) {
      forall victims, survivors | Split(hosts, victims, survivors) && |victims| == n ensures Fits(victims, survivors) {
        FitsByTotals(hosts, victims, survivors);
        TopTotalIsLargest(VcpuTotal, hosts, victims, survivors);
        TopTotalIsLargest(MemTotal, hosts, victims, survivors);
      }
    }
  }

  ghost predicate EqualSizes(hosts: seq<Host>) {
    forall h, k :: h in hosts && k in hosts ==> h.vcpuTotal == k.vcpuTotal && h.memTotal == k.memTotal
  }

  lemma PartOf(hosts: seq<Host>, victims: seq<Host>, survivors: seq<Host>)
    requires Split(hosts, victims, survivors)
    ensures forall h :: h in victims ==> h in hosts
  {
    forall h | h in victims ensures h in hosts {
      assert h in multiset(victims);
      assert h in multiset(hosts);
    }
  }

  /** On hosts of one size only the number of victims matters. */
  lemma SameCountSameFit(hosts: seq<Host>, v1: seq<Host>, s1: seq<Host>, v2: seq<Host>, s2: seq<Host>)
    requires hosts != [] && EqualSizes(hosts) && Split(hosts, v1, s1) && Split(hosts, v2, s2) && |v1| == |v2|
    ensures Fits(v1, s1) <==> Fits(v2, s2)
  {
    PartOf(hosts, v1, s1);
    PartOf(hosts, v2, s2);
    SumOfEquals(VcpuTotal, v1, v2, hosts[0].vcpuTotal);
    SumOfEquals(MemTotal, v1, v2, hosts[0].memTotal);
    FitsByTotals(hosts, v1, s1);
    FitsByTotals(hosts, v2, s2);
  }

  /** On hosts of one size the gate is exact: it passes if and only if any N hosts may go down at once. */
  lemma GateIsExact(hosts: seq<Host>, n: nat)
    requires hosts != [] && n <= |hosts| && EqualSizes(hosts)
    ensures GatePasses(hosts, n) <==> EveryChoiceFits(hosts, n)
  {
    var worst, rest := Take(ByLoad(hosts), n), Drop(ByLoad(hosts), n);
    TakeDropSplit(hosts, n);
    LargestFirst(MemUsed, hosts);
    assert |worst| == n;
    if Fits(worst, rest) {
      forall victims, survivors | Split(hosts, victims, survivors) && |victims| == n ensures Fits(victims, survivors) {
        SameCountSameFit(hosts, worst, rest, victims, survivors);
      }
    }
  }

  /** The same on what the API lists: hosts that are down neither leave nor receive. */
  lemma CheckCapacityIsExact(hypervisors: seq<Hypervisor>, capacity: map<string, Provider>, n: nat)
    requires var up := HostsOf(Filter(hypervisors, (hv: Hypervisor) => hv.up), capacity);
             n <= |up| && EqualSizes(up)
    ensures var up := HostsOf(Filter(hypervisors, (hv: Hypervisor) => hv.up), capacity);
            CheckCapacity(hypervisors, capacity, n) <==> up != [] && EveryChoiceFits(up, n)
  {
    var up := HostsOf(Filter(hypervisors, (hv: Hypervisor) => hv.up), capacity);
    if up != [] {
      GateIsExact(up, n);
    }
  }

  lemma OneMoreVictim(f: Host -> real, sorted: seq<Host>, n: nat)
    requires n < |sorted| && f(sorted[n]) >= 0.0
    ensures Sum(f, Take(sorted, n)) <= Sum(f, Take(sorted, n + 1))
  {
    assert Take(sorted, n + 1) == Take(sorted, n) + [sorted[n]];
    SumLast(f, Take(sorted, n), sorted[n]);
  }

  /** Passing for N + 1 hosts implies passing for N, for hosts of any nonnegative sizes. */
  lemma GateIsMonotone(hosts: seq<Host>, n: nat)
    requires n < |hosts|
    requires forall h :: h in hosts ==> h.vcpuTotal >= 0.0 && h.memTotal >= 0.0
    ensures GatePasses(hosts, n + 1) ==> GatePasses(hosts, n)
  {
    var sorted := ByLoad(hosts);
    SortElements(hosts, (a, b) => AtLeast(MemUsed, a, b));
    assert sorted[n] in hosts;
    OneMoreVictim(VcpuTotal, sorted, n);
    OneMoreVictim(MemTotal, sorted, n);
    TakeDropSplit(hosts, n);
    TakeDropSplit(hosts, n + 1);
    FitsByTotals(hosts, Take(sorted, n), Drop(sorted, n));
    FitsByTotals(hosts, Take(sorted, n + 1), Drop(sorted, n + 1));
  }

  /**
   On mixed sizes "worst case" is not the worst: the most loaded host can be drained, the larger,
   less loaded one cannot.
   */
  lemma MixedSizesMislead()
    ensures var big, small := Host(0.0, 0.0, 100.0, 10.0), Host(0.0, 0.0, 20.0, 15.0);
      GatePasses([big, small], 1) && !EveryChoiceFits([big, small], 1)
  {
    var big, small := Host(0.0, 0.0, 100.0, 10.0), Host(0.0, 0.0, 20.0, 15.0);
    var hosts := [big, small];
    assert hosts[1..] == [small] && [small][1..] == [];
    var le := (a: Host, b: Host) => AtLeast(MemUsed, a, b);
    assert StableSort([small], le) == [small];
    assert Insert(big, [small], le) == [small] + Insert(big, [], le);
    assert ByLoad(hosts) == [small, big];
    assert Take([small, big], 1) == [small] && Drop([small, big], 1) == [big];
    assert [big][1..] == [];
    assert Sum(MemUsed, [big]) == 10.0 + Sum(MemUsed, []);
    assert Sum(MemFree, [small]) == 5.0 + Sum(MemFree, []);
    assert Split(hosts, [big], [small]) by {
      assert hosts == [big] + [small];
    }
    assert !Fits([big], [small]);
  }

  // ------------------------------------------------------------ drain of one

  const MIGRATABLE := {"active", "paused"}

  datatype Server = Server(id: string, name: string, project: string, vmState: string, flavor: string)

  datatype Action = LiveMigrate | ColdMigrate | Skip(state: string)

  datatype PlanRow = PlanRow(instance: string, name: string, project: string, vmState: string, flavor: string,
                             action: Action, migratable: bool)

  datatype Flavor = Flavor(vcpus: nat, ram: nat)

  /** What the plan says of an instance, in any case of its state. */
  ghost predicate Planned(s: Server, row: PlanRow) {
    var state := Lower(s.vmState);
    && row.instance == s.id && row.name == s.name && row.project == s.project
    && row.vmState == state && row.flavor == s.flavor
    && (row.action == LiveMigrate <==> state == "active" || state == "paused")
    && (row.action == ColdMigrate <==> state == "shutoff")
    && (row.action.Skip? ==> row.action.state == state)
    && (row.migratable <==> state == "active" || state == "paused")
  }

  method Plan(servers: seq<Server>) returns (rows: seq<PlanRow>)
    ensures |rows| == |servers|
    ensures forall i :: 0 <= i < |rows| ==> Planned(servers[i], rows[i])
  {
    rows := [];
    for i := 0 to |servers|
      invariant |rows| == i
      invariant forall k :: 0 <= k < i ==> Planned(servers[k], rows[k])
    {
      var s := servers[i];
      var state := Lower(s.vmState);
      var action := Skip(state);
      if state in MIGRATABLE {
        action := LiveMigrate;
      } else if state == "shutoff" {
        action := ColdMigrate;
      }
      rows := rows + [PlanRow(s.id, s.name, s.project, state, s.flavor, action, action == LiveMigrate)];
    }
  }

  /** What a plan row counts for: nothing if it stays, or if its flavor is gone. */
  function VcpuNeed(flavors: map<string, Flavor>): PlanRow -> real {
    (row: PlanRow) => if row.migratable && row.flavor in flavors then flavors[row.flavor].vcpus as real else 0.0
  }

  function RamNeed(flavors: map<string, Flavor>): PlanRow -> real {
    (row: PlanRow) => if row.migratable && row.flavor in flavors then flavors[row.flavor].ram as real else 0.0
  }

  predicate DrainAllowed(rows: seq<PlanRow>, flavors: map<string, Flavor>, others: seq<Host>) {
    && Sum(VcpuFree, others) >= Sum(VcpuNeed(flavors), rows)
    && Sum(MemFree, others) >= Sum(RamNeed(flavors), rows)
  }

  /** The hosts a drain may use: up, enabled, not the one being drained. */
  function Targets(hypervisors: seq<Hypervisor>, host: string): seq<Hypervisor> {
    Filter(hypervisors, (hv: Hypervisor) => hv.name != host && hv.up && hv.enabled)
  }

  /** The figures of all the hosts listed, each name once. */
  function EntriesOf(hypervisors: seq<Hypervisor>, capacity: map<string, Provider>): seq<Host> {
    var names := NamesOf(hypervisors);
    seq(|names|, i requires 0 <= i < |names| => Figures(hypervisors, capacity)[names[i]])
  }

  /** The check on what the API lists. */
  predicate DrainCheck(rows: seq<PlanRow>, flavors: map<string, Flavor>, hypervisors: seq<Hypervisor>,
                       host: string, capacity: map<string, Provider>) {
    DrainAllowed(rows, flavors, EntriesOf(Targets(hypervisors, host), capacity))
  }

  /** Add up what is needed, row by row. */
  method Needed(rows: seq<PlanRow>, flavors: map<string, Flavor>) returns (vcpu: real, mem: real)
    ensures vcpu == Sum(VcpuNeed(flavors), rows) && mem == Sum(RamNeed(flavors), rows)
  {
    vcpu, mem := 0.0, 0.0;
    for i := 0 to |rows|
      invariant vcpu == Sum(VcpuNeed(flavors), rows[..i])
      invariant mem == Sum(RamNeed(flavors), rows[..i])
    {
      assert rows[..i + 1] == rows[..i] + [rows[i]];
      SumLast(VcpuNeed(flavors), rows[..i], rows[i]);
      SumLast(RamNeed(flavors), rows[..i], rows[i]);
      if !rows[i].migratable {
        continue;
      }
      if rows[i].flavor !in flavors {
        continue;
      }
      vcpu := vcpu + flavors[rows[i].flavor].vcpus as real;
      mem := mem + flavors[rows[i].flavor].ram as real;
    }
    assert rows[..|rows|] == rows;
  }

  /** Add up what is free, name by name. */
  method FreeOf(entries: map<string, Host>, names: seq<string>, ghost hosts: seq<Host>) returns (vcpu: real, mem: real)
    requires |hosts| == |names|
    requires forall i :: 0 <= i < |names| ==> names[i] in entries && entries[names[i]] == hosts[i]
    ensures vcpu == Sum(VcpuFree, hosts) && mem == Sum(MemFree, hosts)
  {
    vcpu, mem := 0.0, 0.0;
    for i := 0 to |names|
      invariant vcpu == Sum(VcpuFree, hosts[..i]) && mem == Sum(MemFree, hosts[..i])
    {
      assert hosts[..i + 1] == hosts[..i] + [hosts[i]];
      SumLast(VcpuFree, hosts[..i], hosts[i]);
      SumLast(MemFree, hosts[..i], hosts[i]);
      var entry := entries[names[i]];
      vcpu := vcpu + (entry.vcpuTotal - entry.vcpuUsed);
      mem := mem + (entry.memTotal - entry.memUsed);
    }
    assert hosts[..|hosts|] == hosts;
  }

  /** The rough check: what the instances that will be moved need in all against what the others have free in all. */
  method CapacityAvailable(rows: seq<PlanRow>, flavors: map<string, Flavor>, hypervisors: seq<Hypervisor>,
                           host: string, capacity: map<string, Provider>) returns (ok: bool)
    ensures ok == DrainCheck(rows, flavors, hypervisors, host, capacity)
  {
    var neededVcpu, neededMem := Needed(rows, flavors);
    var entries, names := HostCapacity(Targets(hypervisors, host), capacity);
    var freeVcpu, freeMem := FreeOf(entries, names, EntriesOf(Targets(hypervisors, host), capacity));
    ok := freeVcpu >= neededVcpu && freeMem >= neededMem;
  }

  // ------------------------------------------------- what the drain compares

  /** The entry counts for its host: not the one drained, up, enabled, and the last such entry of its name. */
  ghost predicate Receives(hypervisors: seq<Hypervisor>, host: string, i: int) {
    && 0 <= i < |hypervisors|
    && hypervisors[i].name != host && hypervisors[i].up && hypervisors[i].enabled
    && forall k :: i < k < |hypervisors| && hypervisors[k].name == hypervisors[i].name ==>
         !hypervisors[k].up || !hypervisors[k].enabled
  }

  /** The amounts of the entries that count, 0 for the others. */
  ghost function Shares(hypervisors: seq<Hypervisor>, host: string, capacity: map<string, Provider>,
                        f: Host -> real): seq<real> {
    seq(|hypervisors|, i requires 0 <= i < |hypervisors| =>
      if Receives(hypervisors, host, i) then f(HostOf(hypervisors[i], capacity)) else 0.0)
  }

  lemma TargetsAppend(xs: seq<Hypervisor>, ys: seq<Hypervisor>, host: string)
    ensures Targets(xs + ys, host) == Targets(xs, host) + Targets(ys, host)
  {
    FilterAppend(xs, ys, (hv: Hypervisor) => hv.name != host && hv.up && hv.enabled);
  }

  lemma TargetsOneMore(front: seq<Hypervisor>, last: Hypervisor, host: string)
    ensures Targets(front + [last], host) ==
      Targets(front, host) + if last.name != host && last.up && last.enabled then [last] else []
  {
    TargetsAppend(front, [last], host);
    FilterOne(last, (hv: Hypervisor) => hv.name != host && hv.up && hv.enabled);
  }

  lemma ReceivesOneMore(front: seq<Hypervisor>, last: Hypervisor, host: string, i: nat)
    requires i < |front|
    ensures Receives(front + [last], host, i) <==>
      Receives(front, host, i) && !(last.name == front[i].name && last.up && last.enabled)
  {
    var all := front + [last];
    assert all[|front|] == last;
    assert forall k :: 0 <= k < |front| ==> all[k] == front[k];
  }

  /** A host that counts has its figures from the entry that counts. */
  lemma {:induction false} FiguresFrom(hypervisors: seq<Hypervisor>, host: string, capacity: map<string, Provider>,
                                       name: string) returns (i: nat)
    requires name in NamesOf(Targets(hypervisors, host))
    ensures Receives(hypervisors, host, i) && hypervisors[i].name == name
    ensures Figures(Targets(hypervisors, host), capacity)[name] == HostOf(hypervisors[i], capacity)
    decreases |hypervisors|
  {
    var n := |hypervisors| - 1;
    var front, last := hypervisors[..n], hypervisors[n];
    assert hypervisors == front + [last];
    TargetsOneMore(front, last, host);
    var before, targets := Targets(front, host), Targets(hypervisors, host);
    if last.name != host && last.up && last.enabled {
      assert targets[..|targets| - 1] == before && targets[|targets| - 1] == last;
      if last.name == name {
        return n;
      }
    } else {
      assert targets == before;
    }
    i := FiguresFrom(front, host, capacity, name);
    ReceivesOneMore(front, last, host, i);
  }

  /** Listing one more host: its name is new. */
  lemma EntryAdded(before: seq<Hypervisor>, last: Hypervisor, capacity: map<string, Provider>)
    requires last.name !in NamesOf(before)
    ensures EntriesOf(before + [last], capacity) == EntriesOf(before, capacity) + [HostOf(last, capacity)]
  {
    var all := before + [last];
    assert all[..|all| - 1] == before && all[|all| - 1] == last;
    assert NamesOf(all) == NamesOf(before) + [last.name];
    assert Figures(all, capacity) == Figures(before, capacity)[last.name := HostOf(last, capacity)];
  }

  /** Listing one more host: its figures replace those kept under its name. */
  lemma EntryReplaced(before: seq<Hypervisor>, last: Hypervisor, capacity: map<string, Provider>, k: nat)
    requires k < |NamesOf(before)| && NamesOf(before)[k] == last.name
    ensures EntriesOf(before + [last], capacity) == EntriesOf(before, capacity)[k := HostOf(last, capacity)]
  {
    var all := before + [last];
    assert all[..|all| - 1] == before && all[|all| - 1] == last;
    assert NamesOf(all) == NamesOf(before);
    assert Figures(all, capacity) == Figures(before, capacity)[last.name := HostOf(last, capacity)];
    NamesAreListed(before);
  }

  /** The shares when one more entry is listed: an earlier one of its name no longer counts if this one does. */
  lemma SharesOneMore(front: seq<Hypervisor>, last: Hypervisor, host: string, capacity: map<string, Provider>,
                      f: Host -> real)
    ensures var all := front + [last];
      var used := last.name != host && last.up && last.enabled;
      && |Shares(all, host, capacity, f)| == |front| + 1
      && Shares(all, host, capacity, f)[|front|] == (if used then f(HostOf(last, capacity)) else 0.0)
      && forall i :: 0 <= i < |front| ==>
           Shares(all, host, capacity, f)[i] ==
             if used && front[i].name == last.name then 0.0 else Shares(front, host, capacity, f)[i]
  {
    var all := front + [last];
    assert all[|front|] == last;
    forall i | 0 <= i < |front|
      ensures Receives(all, host, i) <==>
        Receives(front, host, i) && !(last.name == front[i].name && last.up && last.enabled)
    {
      ReceivesOneMore(front, last, host, i);
    }
    assert forall i :: 0 <= i < |front| ==> all[i] == front[i];
    assert Receives(all, host, |front|) <==> last.name != host && last.up && last.enabled;
  }

  lemma ListedTargets(hypervisors: seq<Hypervisor>, host: string, i: nat)
    requires Receives(hypervisors, host, i)
    ensures hypervisors[i].name in NamesOf(Targets(hypervisors, host))
  {
    FilterElements(hypervisors, (hv: Hypervisor) => hv.name != host && hv.up && hv.enabled);
    assert hypervisors[i] in Targets(hypervisors, host);
  }

  /** Summing the figures kept by name is summing over the entries that count. */
  lemma {:induction false} SharesAddUp(hypervisors: seq<Hypervisor>, host: string, capacity: map<string, Provider>,
                                       f: Host -> real)
    ensures Sum(f, EntriesOf(Targets(hypervisors, host), capacity)) == Total(Shares(hypervisors, host, capacity, f))
    decreases |hypervisors|
  {
    if hypervisors != [] {
      var n := |hypervisors| - 1;
      var front, last := hypervisors[..n], hypervisors[n];
      assert hypervisors == front + [last];
      SharesAddUp(front, host, capacity, f);
      TargetsOneMore(front, last, host);
      var targets := Targets(front, host);
      if last.name == host || !last.up || !last.enabled {
        assert targets + [] == targets;
        SharesOneMore(front, last, host, capacity, f);
        AddedTo(Shares(front, host, capacity, f), Shares(hypervisors, host, capacity, f), 0.0);
      } else if last.name in NamesOf(targets) {
        ShareReplaced(front, last, host, capacity, f);
      } else {
        ShareAdded(front, last, host, capacity, f);
      }
    }
  }

  lemma AddedTo(xs: seq<real>, ys: seq<real>, y: real)
    requires |ys| == |xs| + 1 && ys[|xs|] == y && forall i :: 0 <= i < |xs| ==> ys[i] == xs[i]
    ensures Total(ys) == Total(xs) + y
  {
    assert ys == xs + [y];
    SumLast((x: real) => x, xs, y);
  }

  lemma ShareAdded(front: seq<Hypervisor>, last: Hypervisor, host: string, capacity: map<string, Provider>,
                   f: Host -> real)
    requires last.name != host && last.up && last.enabled && last.name !in NamesOf(Targets(front, host))
    requires Sum(f, EntriesOf(Targets(front, host), capacity)) == Total(Shares(front, host, capacity, f))
    ensures Sum(f, EntriesOf(Targets(front, host) + [last], capacity)) ==
      Total(Shares(front + [last], host, capacity, f))
  {
    var now := HostOf(last, capacity);
    forall i | Receives(front, host, i) ensures front[i].name != last.name {
      ListedTargets(front, host, i);
    }
    SharesOneMore(front, last, host, capacity, f);
    AddedTo(Shares(front, host, capacity, f), Shares(front + [last], host, capacity, f), f(now));
    EntryAdded(Targets(front, host), last, capacity);
    SumLast(f, EntriesOf(Targets(front, host), capacity), now);
  }

  lemma ShareReplaced(front: seq<Hypervisor>, last: Hypervisor, host: string, capacity: map<string, Provider>,
                      f: Host -> real)
    requires last.name != host && last.up && last.enabled && last.name in NamesOf(Targets(front, host))
    requires Sum(f, EntriesOf(Targets(front, host), capacity)) == Total(Shares(front, host, capacity, f))
    ensures Sum(f, EntriesOf(Targets(front, host) + [last], capacity)) ==
      Total(Shares(front + [last], host, capacity, f))
  {
    var targets, shares := Targets(front, host), Shares(front, host, capacity, f);
    var now := HostOf(last, capacity);
    var at := FiguresFrom(front, host, capacity, last.name);
    var k :| 0 <= k < |NamesOf(targets)| && NamesOf(targets)[k] == last.name;
    EntryReplaced(targets, last, capacity, k);
    SumReplaced(f, EntriesOf(targets, capacity), k, now);
    OnlyOneReceives(front, host, at);
    SharesOneMore(front, last, host, capacity, f);
    AddedTo(shares[at := 0.0], Shares(front + [last], host, capacity, f), f(now));
    SumReplaced((x: real) => x, shares, at, 0.0);
  }

  lemma OnlyOneReceives(hypervisors: seq<Hypervisor>, host: string, at: nat)
    requires Receives(hypervisors, host, at)
    ensures forall i :: Receives(hypervisors, host, i) && hypervisors[i].name == hypervisors[at].name ==> i == at
  {
  }

  /** What a row counts for: `amount` of its flavor if it will be moved and the flavor is known, else nothing. */
  ghost predicate Counts(rows: seq<PlanRow>, flavors: map<string, Flavor>, amount: Flavor -> real, need: seq<real>) {
    |need| == |rows| && forall i :: 0 <= i < |rows| ==>
      need[i] == if rows[i].migratable && rows[i].flavor in flavors then amount(flavors[rows[i].flavor]) else 0.0
  }

  lemma {:induction false} NeedsAddUp(rows: seq<PlanRow>, f: PlanRow -> real, need: seq<real>)
    requires |need| == |rows| && forall i :: 0 <= i < |rows| ==> need[i] == f(rows[i])
    ensures Sum(f, rows) == Total(need)
  {
    if rows != [] {
      NeedsAddUp(rows[1..], f, need[1..]);
    }
  }

  lemma SharesAlike(hypervisors: seq<Hypervisor>, host: string, capacity: map<string, Provider>,
                    f: Host -> real, g: Host -> real)
    requires forall h :: f(h) == g(h)
    ensures Shares(hypervisors, host, capacity, f) == Shares(hypervisors, host, capacity, g)
  {
    forall i | 0 <= i < |hypervisors|
      ensures Shares(hypervisors, host, capacity, f)[i] == Shares(hypervisors, host, capacity, g)[i]
    {
      assert f(HostOf(hypervisors[i], capacity)) == g(HostOf(hypervisors[i], capacity));
    }
  }

  /**
   What the pre-flight compares, spelled out: the vCPUs and the memory of the known flavors of the rows that
   will be moved with what is free on the entries that count.
   */
  lemma DrainSpelled(rows: seq<PlanRow>, flavors: map<string, Flavor>, hypervisors: seq<Hypervisor>, host: string,
                     capacity: map<string, Provider>, vcpu: seq<real>, ram: seq<real>)
    requires Counts(rows, flavors, (f: Flavor) => f.vcpus as real, vcpu)
    requires Counts(rows, flavors, (f: Flavor) => f.ram as real, ram)
    ensures DrainCheck(rows, flavors, hypervisors, host, capacity) <==>
      && Total(Shares(hypervisors, host, capacity, (h: Host) => h.vcpuTotal - h.vcpuUsed)) >= Total(vcpu)
      && Total(Shares(hypervisors, host, capacity, (h: Host) => h.memTotal - h.memUsed)) >= Total(ram)
  {
    NeedsAddUp(rows, VcpuNeed(flavors), vcpu);
    NeedsAddUp(rows, RamNeed(flavors), ram);
    SharesAddUp(hypervisors, host, capacity, VcpuFree);
    SharesAddUp(hypervisors, host, capacity, MemFree);
    SharesAlike(hypervisors, host, capacity, VcpuFree, (h: Host) => h.vcpuTotal - h.vcpuUsed);
    SharesAlike(hypervisors, host, capacity, MemFree, (h: Host) => h.memTotal - h.memUsed);
  }

  /** The host drained, hosts that are down and hosts that are disabled have no part in the verdict. */
  lemma BystandersDoNotCount(rows: seq<PlanRow>, flavors: map<string, Flavor>, before: seq<Hypervisor>, x: Hypervisor,
                             after: seq<Hypervisor>, host: string, capacity: map<string, Provider>)
    requires x.name == host || !x.up || !x.enabled
    ensures DrainCheck(rows, flavors, before + [x] + after, host, capacity) <==>
      DrainCheck(rows, flavors, before + after, host, capacity)
  {
    TargetsAppend(before + [x], after, host);
    TargetsOneMore(before, x, host);
    TargetsAppend(before, after, host);
    assert Targets(before, host) + [] == Targets(before, host);
  }

  // ------------------------------------------------------- drains that can be

  /** The demand an instance brings to host `h` under an assignment of instances to host numbers. */
  function Load(demand: seq<real>, at: seq<nat>, h: nat): real
    requires |demand| == |at|
  {
    if demand == [] then 0.0 else (if at[0] == h then demand[0] else 0.0) + Load(demand[1..], at[1..], h)
  }

  function LoadBelow(demand: seq<real>, at: seq<nat>, n: nat): real
    requires |demand| == |at|
  {
    if n == 0 then 0.0 else LoadBelow(demand, at, n - 1) + Load(demand, at, n - 1)
  }

  function Total(xs: seq<real>): real {
    Sum((x: real) => x, xs)
  }

  lemma {:induction false} NoInstancesNoLoad(n: nat)
    ensures LoadBelow([], [], n) == 0.0
  {
    if n > 0 {
      NoInstancesNoLoad(n - 1);
    }
  }

  lemma {:induction false} LoadOfFirst(demand: seq<real>, at: seq<nat>, n: nat)
    requires |demand| == |at| && demand != []
    ensures LoadBelow(demand, at, n) == (if at[0] < n then demand[0] else 0.0) + LoadBelow(demand[1..], at[1..], n)
  {
    if n > 0 {
      LoadOfFirst(demand, at, n - 1);
    }
  }

  /** Summing host by host is summing instance by instance, those that bring nothing left out or not. */
  lemma {:induction false} LoadsAddUp(demand: seq<real>, at: seq<nat>, n: nat)
    requires |demand| == |at| && forall i :: 0 <= i < |at| ==> at[i] < n || demand[i] == 0.0
    ensures LoadBelow(demand, at, n) == Total(demand)
  {
    if demand == [] {
      NoInstancesNoLoad(n);
    } else {
      LoadOfFirst(demand, at, n);
      LoadsAddUp(demand[1..], at[1..], n);
    }
  }

  lemma {:induction false} UnusedHasNoLoad(demand: seq<real>, at: seq<nat>, h: nat)
    requires |demand| == |at| && forall i :: 0 <= i < |at| ==> at[i] == h ==> demand[i] == 0.0
    ensures Load(demand, at, h) == 0.0
  {
    if demand != [] {
      UnusedHasNoLoad(demand[1..], at[1..], h);
    }
  }

  lemma {:induction false} BelowFree(demand: seq<real>, at: seq<nat>, free: seq<real>, n: nat)
    requires |demand| == |at| && n <= |free|
    requires forall h :: 0 <= h < n ==> Load(demand, at, h) <= free[h]
    ensures LoadBelow(demand, at, n) <= Total(free[..n])
  {
    if n > 0 {
      BelowFree(demand, at, free, n - 1);
      assert free[..n] == free[..n - 1] + [free[n - 1]];
      SumLast((x: real) => x, free[..n - 1], free[n - 1]);
    } else {
      assert free[..0] == [];
    }
  }

  /**
   The real demands behind a plan: known flavors ask for what they say, unknown ones for any amount, and rows
   that stay for nothing.
   */
  ghost predicate Demands(rows: seq<PlanRow>, flavors: map<string, Flavor>, amount: Flavor -> real, demand: seq<real>) {
    |demand| == |rows| && forall i :: 0 <= i < |rows| ==>
      if !rows[i].migratable then demand[i] == 0.0
      else if rows[i].flavor in flavors then demand[i] == amount(flavors[rows[i].flavor])
      else demand[i] >= 0.0
  }

  /** Every host that takes instances has, by its own figures, room for all it takes. */
  ghost predicate RoomEverywhere(rows: seq<PlanRow>, demand: seq<real>, at: seq<nat>, hypervisors: seq<Hypervisor>,
                                 capacity: map<string, Provider>, free: Host -> real)
    requires |demand| == |at| == |rows|
  {
    forall i :: 0 <= i < |rows| && rows[i].migratable ==>
      at[i] < |hypervisors| && Load(demand, at, at[i]) <= free(HostOf(hypervisors[at[i]], capacity))
  }

  lemma {:induction false} SmallerTotal(small: seq<real>, large: seq<real>)
    requires |small| == |large| && forall i :: 0 <= i < |small| ==> small[i] <= large[i]
    ensures Total(small) <= Total(large)
  {
    if small != [] {
      SmallerTotal(small[1..], large[1..]);
    }
  }

  /** If there is room for every instance somewhere, total demand is within the total that counts. */
  lemma RoomMeansTotal(rows: seq<PlanRow>, demand: seq<real>, at: seq<nat>, hypervisors: seq<Hypervisor>, host: string,
                       capacity: map<string, Provider>, free: Host -> real)
    requires |demand| == |at| == |rows|
    requires forall i :: 0 <= i < |rows| ==> if rows[i].migratable then Receives(hypervisors, host, at[i])
                                             else demand[i] == 0.0
    requires forall h :: Receives(hypervisors, host, h) ==> free(HostOf(hypervisors[h], capacity)) >= 0.0
    requires RoomEverywhere(rows, demand, at, hypervisors, capacity, free)
    ensures Total(demand) <= Total(Shares(hypervisors, host, capacity, free))
  {
    var shares := Shares(hypervisors, host, capacity, free);
    forall h | 0 <= h < |shares| ensures Load(demand, at, h) <= shares[h] {
      if !exists i :: 0 <= i < |rows| && rows[i].migratable && at[i] == h {
        UnusedHasNoLoad(demand, at, h);
      }
    }
    LoadsAddUp(demand, at, |shares|);
    BelowFree(demand, at, shares, |shares|);
    assert shares[..|shares|] == shares;
  }

  lemma DemandsCover(rows: seq<PlanRow>, flavors: map<string, Flavor>, amount: Flavor -> real, demand: seq<real>)
    returns (need: seq<real>)
    requires Demands(rows, flavors, amount, demand)
    ensures Counts(rows, flavors, amount, need) && Total(need) <= Total(demand)
  {
    need := seq(|rows|, i requires 0 <= i < |rows| =>
      if rows[i].migratable && rows[i].flavor in flavors then amount(flavors[rows[i].flavor]) else 0.0);
    SmallerTotal(need, demand);
  }

  /**
   The pre-flight never refuses a drain that can be done: if the instances to be moved can be assigned to
   listed hosts other than the one drained, up and enabled, so that each has room for all it is given, and no
   such host starts overcommitted, it passes.
   */
  lemma FeasibleDrainAllowed(rows: seq<PlanRow>, flavors: map<string, Flavor>, hypervisors: seq<Hypervisor>,
                             host: string, capacity: map<string, Provider>,
                             vcpu: seq<real>, ram: seq<real>, at: seq<nat>)
    requires Demands(rows, flavors, (f: Flavor) => f.vcpus as real, vcpu)
    requires Demands(rows, flavors, (f: Flavor) => f.ram as real, ram) && |at| == |rows|
    requires forall i :: 0 <= i < |rows| && rows[i].migratable ==> Receives(hypervisors, host, at[i])
    requires forall h :: Receives(hypervisors, host, h) ==>
      var figures := HostOf(hypervisors[h], capacity);
      figures.vcpuTotal >= figures.vcpuUsed && figures.memTotal >= figures.memUsed
    requires RoomEverywhere(rows, vcpu, at, hypervisors, capacity, (h: Host) => h.vcpuTotal - h.vcpuUsed)
    requires RoomEverywhere(rows, ram, at, hypervisors, capacity, (h: Host) => h.memTotal - h.memUsed)
    ensures DrainCheck(rows, flavors, hypervisors, host, capacity)
  {
    var vcpuNeed := DemandsCover(rows, flavors, (f: Flavor) => f.vcpus as real, vcpu);
    var ramNeed := DemandsCover(rows, flavors, (f: Flavor) => f.ram as real, ram);
    RoomMeansTotal(rows, vcpu, at, hypervisors, host, capacity, (h: Host) => h.vcpuTotal - h.vcpuUsed);
    RoomMeansTotal(rows, ram, at, hypervisors, host, capacity, (h: Host) => h.memTotal - h.memUsed);
    DrainSpelled(rows, flavors, hypervisors, host, capacity, vcpuNeed, ramNeed);
  }

  /** The converse fails: one instance of size 2, two other hosts with 1 free each. */
  lemma FragmentationFoolsDrain()
    ensures var flavors := map["f" := Flavor(2, 2)];
      var rows := [PlanRow("i", "vm", "p", "active", "f", LiveMigrate, true)];
      var hypervisors := [Hypervisor("a", true, true, 1.0, 0.0, 1.0, 0.0),
                          Hypervisor("b", true, true, 1.0, 0.0, 1.0, 0.0)];
      && DrainCheck(rows, flavors, hypervisors, "h", map[])
      && forall at: seq<nat> :: |at| == 1 ==>
           !RoomEverywhere(rows, [2.0], at, hypervisors, map[], (h: Host) => h.memTotal - h.memUsed)
  {
    var flavors := map["f" := Flavor(2, 2)];
    var rows := [PlanRow("i", "vm", "p", "active", "f", LiveMigrate, true)];
    var a, b := Hypervisor("a", true, true, 1.0, 0.0, 1.0, 0.0), Hypervisor("b", true, true, 1.0, 0.0, 1.0, 0.0);
    BothReceive(a, b, (h: Host) => h.vcpuTotal - h.vcpuUsed);
    BothReceive(a, b, (h: Host) => h.memTotal - h.memUsed);
    OneAndTwo();
    DrainSpelled(rows, flavors, [a, b], "h", map[], [2.0], [2.0]);
    forall at: seq<nat> | |at| == 1
      ensures !RoomEverywhere(rows, [2.0], at, [a, b], map[], (h: Host) => h.memTotal - h.memUsed)
    {
      assert rows[0].migratable;
      AloneLoads(at);
    }
  }

  lemma BothReceive(a: Hypervisor, b: Hypervisor, f: Host -> real)
    requires a.name == "a" && b.name == "b" && a.up && a.enabled && b.up && b.enabled
    ensures Shares([a, b], "h", map[], f) == [f(HostOf(a, map[])), f(HostOf(b, map[]))]
  {
    assert Receives([a, b], "h", 0) && Receives([a, b], "h", 1);
  }

  lemma AloneLoads(at: seq<nat>)
    requires |at| == 1
    ensures Load([2.0], at, at[0]) == 2.0
  {
    assert [2.0][1..] == [];
    assert Load([2.0], at, at[0]) == 2.0 + Load([], at[1..], at[0]);
  }

  lemma OneAndTwo()
    ensures Total([2.0]) == 2.0 && Total([1.0, 1.0]) == 2.0
  {
    assert [2.0][1..] == [] && [1.0][1..] == [] && [1.0, 1.0][1..] == [1.0];
    assert Total([1.0]) == 1.0 + Total([]);
    assert Total([1.0, 1.0]) == 1.0 + Total([1.0]);
  }
}
