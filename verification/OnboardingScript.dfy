/** The onboarding command itself: validate, then create or delete call by call. */
module OnboardingScript {
  import opened Basics
  import opened Region
  import opened OnboardingValidate
  import opened OnboardingApply
  import opened OnboardingDelete
  import opened OnboardingOutcome

  datatype Status = Created | Exists | AttachedNow | Skipped

  datatype Row = Row(op: Op, status: Status)

  /** The row a step reports, if any. */
  function RowOf(p: Progress, spec: Spec, op: Op): seq<Row> {
    var r := p.state;
    match op
    case MakeNetwork => [Row(op, if spec.network.name in r.networks then Exists else Created)]
    case MakeSubnet(s) => [Row(op, if s.name in r.subnets then Exists else Created)]
    case MakeRouter =>
      if spec.router.None? then []
      else [Row(op, if spec.router.value.name in r.routers then Exists else Created)]
    case Attach(subnet) =>
      if spec.router.None? then []
      else [Row(op, if CanAttach(r, spec.router.value.name, subnet) then AttachedNow else Skipped)]
    case MakeGroup =>
      if spec.group.None? then []
      else [Row(op, if spec.group.value.name in r.groups then Exists else Created)]
    case AddRule(_) => if p.ownGroup then [Row(op, Created)] else []
  }

  function RowsOf(p: Progress, spec: Spec, ops: seq<Op>): seq<Row>
    decreases |ops|
  {
    if ops == [] then [] else RowOf(p, spec, ops[0]) + RowsOf(Do(p, spec, ops[0]), spec, ops[1..])
  }

  lemma {:induction false} RowsAppend(p: Progress, spec: Spec, a: seq<Op>, b: seq<Op>)
    ensures RowsOf(p, spec, a + b) == RowsOf(p, spec, a) + RowsOf(RunOps(p, spec, a), spec, b)
    decreases |a|
  {
    if a == [] {
      assert a + b == b;
    } else {
      assert (a + b)[1..] == a[1..] + b;
      RowsAppend(Do(p, spec, a[0]), spec, a[1..], b);
    }
  }

  predicate ChangesNothing(row: Row) {
    row.status == Exists || row.status == Skipped
  }

  /** A step's row says CREATED or ATTACHED exactly when the step changes the region. */
  lemma RowsTellChanges(p: Progress, spec: Spec, op: Op)
    requires p.ownGroup ==> spec.group.Some? && spec.group.value.name in p.state.groups
    ensures (exists row :: row in RowOf(p, spec, op) && (row.status == Created || row.status == AttachedNow)) <==>
      Do(p, spec, op).state != p.state
  {
    var was, r := p.state, Do(p, spec, op).state;
    var rows := RowOf(p, spec, op);
    if rows != [] {
      assert rows == [rows[0]] && rows[0] in rows;
    }
    match op
    case Attach(subnet) =>
      if spec.router.Some? && CanAttach(was, spec.router.value.name, subnet) {
        assert subnet in r.routers[spec.router.value.name].interfaces;
      }
    case AddRule(rule) =>
      if p.ownGroup {
        var g := spec.group.value.name;
        assert |r.groups[g].rules| == |was.groups[g].rules| + 1;
      }
    case _ =>
  }

  lemma {:induction false} IdleRows(p: Progress, spec: Spec, ops: seq<Op>)
    requires !p.ownGroup
    requires forall i :: 0 <= i < |ops| ==> Done(p.state, spec, ops[i]) || ops[i].AddRule?
    ensures forall i :: 0 <= i < |RowsOf(p, spec, ops)| ==> ChangesNothing(RowsOf(p, spec, ops)[i])
    decreases |ops|
  {
    if ops != [] {
      var q := Do(p, spec, ops[0]);
      assert Done(p.state, spec, ops[0]) || ops[0].AddRule?;
      assert q == p;
      assert forall i :: 0 <= i < |RowOf(p, spec, ops[0])| ==> ChangesNothing(RowOf(p, spec, ops[0])[i]);
      IdleRows(p, spec, ops[1..]);
    }
  }

  lemma GroupDone(start: State, spec: Spec)
    ensures spec.group.Some? ==> spec.group.value.name in Applied(start, spec).groups
  {
    assert Ops(spec)[..|Ops(spec)|] == Ops(spec);
    CutGroups(start, spec, |Ops(spec)|);
  }

  /** A second run reports only EXISTS and SKIPPED rows. */
  lemma RerunCreatesNothing(start: State, spec: Spec)
    ensures var rows := RowsOf(Progress(Applied(start, spec), false), spec, Ops(spec));
      forall i :: 0 <= i < |rows| ==> ChangesNothing(rows[i])
  {
    var ops, core := Ops(spec), CoreOps(spec);
    var r := Applied(start, spec);
    GroupDone(start, spec);
    forall i | 0 <= i < |ops| ensures Done(r, spec, ops[i]) || ops[i].AddRule? {
      if i < |core| {
        CoreStepDone(start, spec, i);
      }
    }
    IdleRows(Progress(r, false), spec, ops);
  }

  /** The networking API; `log` holds the region after each call that changed it. */
  class Neutron {
    var state: State
    ghost var log: seq<State>

    constructor (state: State)
      ensures this.state == state && log == []
    {
      this.state := state;
      log := [];
    }

    method CreateNetwork(name: string, net: Network)
      modifies this
      ensures state == old(state).(networks := old(state).networks[name := net]) && log == old(log) + [state]
    {
      state := state.(networks := state.networks[name := net]);
      log := log + [state];
    }

    method CreateSubnet(name: string, subnet: Subnet)
      modifies this
      ensures state == old(state).(subnets := old(state).subnets[name := subnet]) && log == old(log) + [state]
    {
      state := state.(subnets := state.subnets[name := subnet]);
      log := log + [state];
    }

    method CreateRouter(name: string, router: Router)
      modifies this
      ensures state == old(state).(routers := old(state).routers[name := router]) && log == old(log) + [state]
    {
      state := state.(routers := state.routers[name := router]);
      log := log + [state];
    }

    /** Raises, here `!ok`, when the subnet cannot be attached. */
    method AddInterface(router: string, subnet: string) returns (ok: bool)
      requires router in state.routers
      modifies this
      ensures ok == CanAttach(old(state), router, subnet)
      ensures ok ==> state == WithInterface(old(state), router, subnet) && log == old(log) + [state]
      ensures !ok ==> state == old(state) && log == old(log)
    {
      ok := CanAttach(state, router, subnet);
      if ok {
        state := WithInterface(state, router, subnet);
        log := log + [state];
      }
    }

    method CreateGroup(name: string, group: Group)
      modifies this
      ensures state == old(state).(groups := old(state).groups[name := group]) && log == old(log) + [state]
    {
      state := state.(groups := state.groups[name := group]);
      log := log + [state];
    }

    method RemoveInterface(router: string, subnet: string) returns (ok: bool)
      modifies this`state
      ensures ok == HasInterface(old(state), router, subnet)
      ensures state == Detached(old(state), router, subnet)
    {
      ok := HasInterface(state, router, subnet);
      state := Detached(state, router, subnet);
    }

    method RemoveRouter(router: string) returns (ok: bool)
      modifies this`state
      ensures ok == RouterFree(old(state), router)
      ensures state == if ok then old(state).(routers := old(state).routers - {router}) else old(state)
    {
      ok := RouterFree(state, router);
      if ok {
        state := state.(routers := state.routers - {router});
      }
    }

    method RemoveSubnet(subnet: string) returns (ok: bool)
      modifies this`state
      ensures ok == SubnetFree(old(state), subnet)
      ensures state == if ok then old(state).(subnets := old(state).subnets - {subnet}) else old(state)
    {
      ok := SubnetFree(state, subnet);
      if ok {
        state := state.(subnets := state.subnets - {subnet});
      }
    }

    method RemoveNetwork(network: string) returns (ok: bool)
      modifies this`state
      ensures ok == NetworkFree(old(state), network)
      ensures state == if ok then old(state).(networks := old(state).networks - {network}) else old(state)
    {
      ok := NetworkFree(state, network);
      if ok {
        state := state.(networks := state.networks - {network});
      }
    }

    method RemoveGroup(group: string)
      modifies this`state
      ensures state == old(state).(groups := old(state).groups - {group})
    {
      state := state.(groups := state.groups - {group});
    }
  }

  /** The run of `ops` so far: `k` steps done, their rows reported, and others have only seen cuts of it. */
  ghost predicate Reached(conn: Neutron, spec: Spec, ops: seq<Op>, start: State, seen: nat, k: nat, ownGroup: bool,
                          rows: seq<Row>)
    reads conn
  {
    && k <= |ops|
    && Progress(conn.state, ownGroup) == RunOps(Progress(start, false), spec, ops[..k])
    && rows == RowsOf(Progress(start, false), spec, ops[..k])
    && seen <= |conn.log|
    && forall i :: seen <= i < |conn.log| ==> IsCutOf(conn.log[i], start, spec, ops)
  }

  ghost predicate IsCutOf(r: State, start: State, spec: Spec, ops: seq<Op>) {
    exists k :: 0 <= k <= |ops| && r == RunOps(Progress(start, false), spec, ops[..k]).state
  }

  ghost predicate IsCut(r: State, start: State, spec: Spec) {
    exists k :: 0 <= k <= |Ops(spec)| && r == Cut(start, spec, k)
  }

  lemma NextStep(start: State, spec: Spec, ops: seq<Op>, k: nat)
    requires k < |ops|
    ensures var p := RunOps(Progress(start, false), spec, ops[..k]);
      && RunOps(Progress(start, false), spec, ops[..k + 1]) == Do(p, spec, ops[k])
      && RowsOf(Progress(start, false), spec, ops[..k + 1]) ==
         RowsOf(Progress(start, false), spec, ops[..k]) + RowOf(p, spec, ops[k])
      && IsCutOf(Do(p, spec, ops[k]).state, start, spec, ops)
  {
    assert ops[..k + 1] == ops[..k] + [ops[k]];
    RunAppend(Progress(start, false), spec, ops[..k], [ops[k]]);
    RowsAppend(Progress(start, false), spec, ops[..k], [ops[k]]);
    RunOne(RunOps(Progress(start, false), spec, ops[..k]), spec, ops[k]);
  }

  lemma RunOne(p: Progress, spec: Spec, op: Op)
    ensures RunOps(p, spec, [op]) == Do(p, spec, op)
    ensures RowsOf(p, spec, [op]) == RowOf(p, spec, op)
  {
    assert [op][1..] == [];
    assert RowsOf(Do(p, spec, op), spec, []) == [];
    assert RowOf(p, spec, op) + [] == RowOf(p, spec, op);
  }

  /** One step on the live region: look, then create only what is missing. */
  method Perform(conn: Neutron, spec: Spec, op: Op, ownGroup: bool) returns (own: bool, rows: seq<Row>)
    modifies conn
    ensures Progress(conn.state, own) == Do(Progress(old(conn.state), ownGroup), spec, op)
    ensures rows == RowOf(Progress(old(conn.state), ownGroup), spec, op)
    ensures conn.log == old(conn.log) || conn.log == old(conn.log) + [conn.state]
  {
    own, rows := ownGroup, [];
    match op {
      case MakeNetwork =>
        if spec.network.name in conn.state.networks {
          rows := [Row(op, Exists)];
        } else {
          conn.CreateNetwork(spec.network.name, NetworkOf(spec));
          rows := [Row(op, Created)];
        }
      case MakeSubnet(s) =>
        if s.name in conn.state.subnets {
          rows := [Row(op, Exists)];
        } else {
          conn.CreateSubnet(s.name, SubnetOf(spec, s));
          rows := [Row(op, Created)];
        }
      case MakeRouter =>
        if spec.router.Some? {
          if spec.router.value.name in conn.state.routers {
            rows := [Row(op, Exists)];
          } else {
            conn.CreateRouter(spec.router.value.name, RouterOf(spec));
            rows := [Row(op, Created)];
          }
        }
      case Attach(subnet) =>
        if spec.router.Some? {
          var ok := false;
          if spec.router.value.name in conn.state.routers {
            ok := conn.AddInterface(spec.router.value.name, subnet);
          }
          rows := [Row(op, if ok then AttachedNow else Skipped)];
        }
      case MakeGroup =>
        if spec.group.Some? {
          own := spec.group.value.name !in conn.state.groups;
          if own {
            conn.CreateGroup(spec.group.value.name, Group(spec.project, []));
          }
          rows := [Row(op, if own then Created else Exists)];
        } else {
          own := false;
        }
      case AddRule(rule) =>
        if ownGroup {
          if spec.group.Some? && spec.group.value.name in conn.state.groups {
            var group := conn.state.groups[spec.group.value.name];
            conn.CreateGroup(spec.group.value.name, group.(rules := group.rules + [rule]));
          }
          rows := [Row(op, Created)];
        }
    }
  }

  method Advance(conn: Neutron, spec: Spec, ghost ops: seq<Op>, ghost start: State, ghost seen: nat, ghost k: nat,
                 op: Op, ownGroup: bool, rows: seq<Row>) returns (own: bool, more: seq<Row>)
    requires Reached(conn, spec, ops, start, seen, k, ownGroup, rows)
    requires k < |ops| && ops[k] == op
    modifies conn
    ensures Reached(conn, spec, ops, start, seen, k + 1, own, more)
    ensures IsCore(op) ==> own == ownGroup
  {
    NextStep(start, spec, ops, k);
    own, more := Perform(conn, spec, op, ownGroup);
    more := rows + more;
  }

  method ApplySubnets(conn: Neutron, spec: Spec, ghost ops: seq<Op>, ghost start: State, ghost seen: nat,
                      before: seq<Row>)
    returns (rows: seq<Row>, createdSubnets: seq<string>)
    requires Reached(conn, spec, ops, start, seen, 1, false, before)
    requires |ops| >= 1 + |spec.subnets|
    requires forall i :: 0 <= i < |spec.subnets| ==> ops[1 + i] == MakeSubnet(spec.subnets[i])
    modifies conn
    ensures Reached(conn, spec, ops, start, seen, 1 + |spec.subnets|, false, rows)
    ensures |createdSubnets| == |spec.subnets|
    ensures forall i :: 0 <= i < |createdSubnets| ==> createdSubnets[i] == spec.subnets[i].name
  {
    rows, createdSubnets := before, [];
    var own := false;
    for i := 0 to |spec.subnets|
      invariant !own && Reached(conn, spec, ops, start, seen, 1 + i, false, rows)
      invariant |createdSubnets| == i && forall j :: 0 <= j < i ==> createdSubnets[j] == spec.subnets[j].name
    {
      own, rows := Advance(conn, spec, ops, start, seen, 1 + i, MakeSubnet(spec.subnets[i]), own, rows);
      createdSubnets := createdSubnets + [spec.subnets[i].name];
    }
  }

  /** The router, found or created, then its interfaces; `at` is where these steps stand. */
  method ApplyRouter(conn: Neutron, spec: Spec, ghost ops: seq<Op>, ghost start: State, ghost seen: nat, ghost at: nat,
                     createdSubnets: seq<string>, before: seq<Row>) returns (rows: seq<Row>)
    requires Reached(conn, spec, ops, start, seen, at, false, before)
    requires at + 1 + |createdSubnets| <= |ops| && ops[at] == MakeRouter
    requires forall i :: 0 <= i < |createdSubnets| ==> ops[at + 1 + i] == Attach(createdSubnets[i])
    modifies conn
    ensures Reached(conn, spec, ops, start, seen, at + 1 + |createdSubnets|, false, rows)
  {
    var own := false;
    own, rows := Advance(conn, spec, ops, start, seen, at, MakeRouter, own, before);
    for i := 0 to |createdSubnets|
      invariant !own && Reached(conn, spec, ops, start, seen, at + 1 + i, false, rows)
    {
      own, rows := Advance(conn, spec, ops, start, seen, at + 1 + i, Attach(createdSubnets[i]), own, rows);
    }
  }

  /** The security group, and its rules if this run created it. */
  method ApplyGroup(conn: Neutron, spec: Spec, ghost ops: seq<Op>, ghost start: State, ghost seen: nat, ghost at: nat,
                    rules: seq<Rule>, before: seq<Row>) returns (own: bool, rows: seq<Row>)
    requires Reached(conn, spec, ops, start, seen, at, false, before)
    requires at + 1 + |rules| <= |ops| && ops[at] == MakeGroup
    requires forall i :: 0 <= i < |rules| ==> ops[at + 1 + i] == AddRule(rules[i])
    modifies conn
    ensures Reached(conn, spec, ops, start, seen, at + 1 + |rules|, own, rows)
  {
    own, rows := Advance(conn, spec, ops, start, seen, at, MakeGroup, false, before);
    for i := 0 to |rules|
      invariant Reached(conn, spec, ops, start, seen, at + 1 + i, own, rows)
    {
      own, rows := Advance(conn, spec, ops, start, seen, at + 1 + i, AddRule(rules[i]), own, rows);
    }
  }

  /** The steps of `ops` in order, on the live region. */
  method ApplyOps(conn: Neutron, spec: Spec, ghost ops: seq<Op>) returns (rows: seq<Row>)
    requires LaidOut(spec, ops)
    modifies conn
    ensures conn.state == RunOps(Progress(old(conn.state), false), spec, ops).state
    ensures rows == RowsOf(Progress(old(conn.state), false), spec, ops)
    ensures |old(conn.log)| <= |conn.log|
    ensures forall i :: |old(conn.log)| <= i < |conn.log| ==> IsCutOf(conn.log[i], old(conn.state), spec, ops)
  {
    ghost var start, seen := conn.state, |conn.log|;
    ghost var at := 1 + |spec.subnets|;
    assert ops[..0] == [];
    var own := false;
    own, rows := Advance(conn, spec, ops, start, seen, 0, MakeNetwork, own, []);
    var createdSubnets;
    rows, createdSubnets := ApplySubnets(conn, spec, ops, start, seen, rows);
    if spec.router.Some? {
      rows := ApplyRouter(conn, spec, ops, start, seen, at, createdSubnets, rows);
      at := at + 1 + |spec.subnets|;
    }
    if spec.group.Some? {
      own, rows := ApplyGroup(conn, spec, ops, start, seen, at, spec.group.value.rules, rows);
    }
    assert ops[..|ops|] == ops;
  }

  /** Create what the spec lists, in dependency order. Every state others can see is a cut of this run. */
  method ApplySpec(conn: Neutron, spec: Spec) returns (rows: seq<Row>)
    modifies conn
    ensures conn.state == Applied(old(conn.state), spec)
    ensures rows == RowsOf(Progress(old(conn.state), false), spec, Ops(spec))
    ensures |old(conn.log)| <= |conn.log|
    ensures forall i :: |old(conn.log)| <= i < |conn.log| ==> IsCut(conn.log[i], old(conn.state), spec)
  {
    OpsLaidOut(spec);
    rows := ApplyOps(conn, spec, Ops(spec));
    forall i | |old(conn.log)| <= i < |conn.log| ensures IsCut(conn.log[i], old(conn.state), spec) {
      var k :| 0 <= k <= |Ops(spec)|
        && conn.log[i] == RunOps(Progress(old(conn.state), false), spec, Ops(spec)[..k]).state;
      assert conn.log[i] == Cut(old(conn.state), spec, k);
    }
  }

  /** Where each step of the spec stands. */
  ghost predicate LaidOut(spec: Spec, ops: seq<Op>) {
    var n := |spec.subnets|;
    var core := 1 + n + (if spec.router.Some? then 1 + n else 0);
    && |ops| == core + (if spec.group.Some? then 1 + |spec.group.value.rules| else 0)
    && ops[0] == MakeNetwork
    && (forall i :: 0 <= i < n ==> ops[1 + i] == MakeSubnet(spec.subnets[i]))
    && (spec.router.Some? ==> ops[1 + n] == MakeRouter)
    && (spec.router.Some? ==> forall i :: 0 <= i < n ==> ops[2 + n + i] == Attach(spec.subnets[i].name))
    && (spec.group.Some? ==> ops[core] == MakeGroup)
    && (spec.group.Some? ==> forall i :: 0 <= i < |spec.group.value.rules| ==>
         ops[core + 1 + i] == AddRule(spec.group.value.rules[i]))
  }

  lemma RouterLaidOut(spec: Spec)
    requires spec.router.Some?
    ensures |RouterOps(spec)| == 1 + |spec.subnets| && RouterOps(spec)[0] == MakeRouter
    ensures forall i :: 0 <= i < |spec.subnets| ==> RouterOps(spec)[1 + i] == Attach(spec.subnets[i].name)
  {
    forall i | 0 <= i < |spec.subnets| ensures RouterOps(spec)[1 + i] == Attach(spec.subnets[i].name) {
      assert RouterOps(spec)[1 + i] == Attaches(spec.subnets)[i];
    }
  }

  lemma SecondPart<T>(x: T, b: seq<T>, c: seq<T>, i: nat)
    requires i < |b|
    ensures ([x] + b + c)[1 + i] == b[i]
  {
  }

  lemma ThirdPart<T>(x: T, b: seq<T>, c: seq<T>, i: nat)
    requires i < |c|
    ensures ([x] + b + c)[1 + |b| + i] == c[i]
  {
  }

  lemma AttachLaidOut(spec: Spec, i: nat)
    requires spec.router.Some? && i < |spec.subnets|
    ensures |CoreOps(spec)| == 2 + 2 * |spec.subnets|
    ensures CoreOps(spec)[2 + |spec.subnets| + i] == Attach(spec.subnets[i].name)
  {
    RouterLaidOut(spec);
    ThirdPart(MakeNetwork, MakeSubnets(spec.subnets), RouterOps(spec), 1 + i);
  }

  lemma CoreLaidOut(spec: Spec)
    ensures var n := |spec.subnets|;
      && |CoreOps(spec)| == 1 + n + (if spec.router.Some? then 1 + n else 0)
      && CoreOps(spec)[0] == MakeNetwork
      && (forall i :: 0 <= i < n ==> CoreOps(spec)[1 + i] == MakeSubnet(spec.subnets[i]))
      && (spec.router.Some? ==> CoreOps(spec)[1 + n] == MakeRouter)
      && (spec.router.Some? ==> forall i :: 0 <= i < n ==> CoreOps(spec)[2 + n + i] == Attach(spec.subnets[i].name))
  {
    forall i | 0 <= i < |spec.subnets| ensures CoreOps(spec)[1 + i] == MakeSubnet(spec.subnets[i]) {
      SecondPart(MakeNetwork, MakeSubnets(spec.subnets), RouterOps(spec), i);
    }
    if spec.router.Some? {
      RouterLaidOut(spec);
      ThirdPart(MakeNetwork, MakeSubnets(spec.subnets), RouterOps(spec), 0);
      forall i | 0 <= i < |spec.subnets|
        ensures CoreOps(spec)[2 + |spec.subnets| + i] == Attach(spec.subnets[i].name)
      {
        AttachLaidOut(spec, i);
      }
    }
  }

  lemma GroupLaidOut(spec: Spec)
    requires spec.group.Some?
    ensures |GroupOps(spec)| == 1 + |spec.group.value.rules| && GroupOps(spec)[0] == MakeGroup
    ensures forall i :: 0 <= i < |spec.group.value.rules| ==>
      GroupOps(spec)[1 + i] == AddRule(spec.group.value.rules[i])
  {
    forall i | 0 <= i < |spec.group.value.rules| ensures GroupOps(spec)[1 + i] == AddRule(spec.group.value.rules[i]) {
      assert GroupOps(spec)[1 + i] == AddRules(spec.group.value.rules)[i];
    }
  }

  lemma OpsLaidOut(spec: Spec)
    ensures LaidOut(spec, Ops(spec))
  {
    CoreLaidOut(spec);
    if spec.group.Some? {
      GroupLaidOut(spec);
    }
    JoinedLaidOut(spec, CoreOps(spec), GroupOps(spec));
  }

  lemma JoinedLaidOut(spec: Spec, core: seq<Op>, group: seq<Op>)
    requires LaidOut(spec.(group := None), core)
    requires spec.group.None? ==> group == []
    requires spec.group.Some? ==> |group| == 1 + |spec.group.value.rules| && group[0] == MakeGroup
    requires spec.group.Some? ==> forall i :: 0 <= i < |spec.group.value.rules| ==>
      group[1 + i] == AddRule(spec.group.value.rules[i])
    ensures LaidOut(spec, core + group)
  {
    var all := core + group;
    assert forall i :: 0 <= i < |core| ==> all[i] == core[i];
    if spec.group.Some? {
      assert all[|core|] == group[0];
      forall i | 0 <= i < |spec.group.value.rules| ensures all[|core| + 1 + i] == AddRule(spec.group.value.rules[i]) {
        assert all[|core| + 1 + i] == group[1 + i];
      }
    }
  }

  /** Tear down in reverse dependency order; `ok` is false when a call was refused and the script raised. */
  method DeleteSpec(conn: Neutron, spec: Spec) returns (ok: bool)
    modifies conn`state
    ensures (if ok then Gone(conn.state) else Refused(conn.state)) == Delete(old(conn.state), spec)
  {
    ghost var start := conn.state;
    if spec.router.Some? && spec.router.value.name in conn.state.routers {
      var router := spec.router.value.name;
      assert spec.subnets[0..] == spec.subnets;
      for i := 0 to |spec.subnets|
        invariant DetachedAll(conn.state, router, spec.subnets[i..]) == DetachedAll(start, router, spec.subnets)
        invariant conn.state.subnets == start.subnets
      {
        if spec.subnets[i].name in conn.state.subnets {
          var _ := conn.RemoveInterface(router, spec.subnets[i].name);
        }
        assert spec.subnets[i..][1..] == spec.subnets[i + 1..];
      }
      var removed := conn.RemoveRouter(router);
      if !removed {
        return false;
      }
    }
    ghost var a := conn.state;
    assert DeleteRouter(start, spec) == Gone(a);
    assert spec.subnets[0..] == spec.subnets;
    for i := 0 to |spec.subnets|
      invariant DeleteSubnets(conn.state, spec.subnets[i..]) == DeleteSubnets(a, spec.subnets)
    {
      assert spec.subnets[i..][1..] == spec.subnets[i + 1..];
      if spec.subnets[i].name in conn.state.subnets {
        var removed := conn.RemoveSubnet(spec.subnets[i].name);
        if !removed {
          return false;
        }
      }
    }
    if spec.network.name in conn.state.networks {
      var removed := conn.RemoveNetwork(spec.network.name);
      if !removed {
        return false;
      }
    }
    if spec.group.Some? && spec.group.value.name in conn.state.groups {
      conn.RemoveGroup(spec.group.value.name);
    } else if spec.group.Some? {
      assert conn.state.groups - {spec.group.value.name} == conn.state.groups;
    }
    return true;
  }

  datatype Exit = Exit(code: int) | RaisedError

  /**
   The command: nothing is created or deleted unless the spec is admissible, --delete included; a
   dry run changes nothing, and neither does a deletion that is not confirmed, which exits 0.
   */
  method Onboard(conn: Neutron, spec: Spec, validateOnly: bool, delete: bool, dryRun: bool, confirmed: bool)
    returns (exit: Exit)
    modifies conn
    ensures !Admissible(old(conn.state), spec) ==> conn.state == old(conn.state) && exit != Exit(0)
    ensures Admissible(old(conn.state), spec) && (validateOnly || dryRun || (delete && !confirmed)) ==>
      conn.state == old(conn.state) && exit == Exit(0)
    ensures Admissible(old(conn.state), spec) && !validateOnly && !dryRun && !delete ==>
      conn.state == Applied(old(conn.state), spec) && exit == Exit(0)
    ensures Admissible(old(conn.state), spec) && !validateOnly && !dryRun && delete && confirmed ==>
      Delete(old(conn.state), spec) == if exit == Exit(0) then Gone(conn.state) else Refused(conn.state)
  {
    var problems, crashed := Validate(conn.state, spec);
    if crashed {
      return RaisedError;
    }
    var failed := HasFail(problems);
    if failed || validateOnly {
      return Exit(if failed then 2 else 0);
    }
    if dryRun {
      return Exit(0);
    }
    if delete {
      if !confirmed {
        return Exit(0);
      }
      var ok := DeleteSpec(conn, spec);
      return if ok then Exit(0) else RaisedError;
    }
    var _ := ApplySpec(conn, spec);
    return Exit(0);
  }
}
