/** Deleting a spec takes back what applying it made, from wherever applying it stopped. */
module OnboardingDelete {
  import opened Basics
  import opened Region
  import opened OnboardingApply
  import opened OnboardingExtends

  predicate HasInterface(r: State, router: string, subnet: string) {
    router in r.routers && subnet in r.routers[router].interfaces
  }

  /** Detaching what is not attached raises, and the script shrugs it off. */
  function Detached(r: State, router: string, subnet: string): State {
    if HasInterface(r, router, subnet) then
      r.(routers := r.routers[router := r.routers[router].(interfaces := r.routers[router].interfaces - {subnet})])
    else r
  }

  function DetachedAll(r: State, router: string, subnets: seq<SubnetSpec>): State
    decreases |subnets|
  {
    if subnets == [] then r
    else
      var next := if subnets[0].name in r.subnets then Detached(r, router, subnets[0].name) else r;
      DetachedAll(next, router, subnets[1..])
  }

  /** The API refuses a router that still has interfaces. */
  predicate RouterFree(r: State, router: string) {
    router in r.routers && r.routers[router].interfaces == {}
  }

  /** The API refuses a subnet that is still attached. */
  predicate SubnetFree(r: State, subnet: string) {
    subnet in r.subnets && !Attached(r, subnet)
  }

  /** The API refuses a network that still has subnets or serves as a router's gateway. */
  predicate NetworkFree(r: State, network: string) {
    && network in r.networks
    && (forall n :: n in r.subnets ==> r.subnets[n].network != network)
    && (forall n :: n in r.routers ==> r.routers[n].gateway != Some(network))
  }

  /** On a sound region the API refuses exactly the removals that would leave something dangling. */
  lemma RefusedIffDangling(r: State, name: string)
    requires Sound(r)
    ensures name in r.networks ==>
      (NetworkFree(r, name) <==> Sound(r.(networks := r.networks - {name})))
    ensures name in r.subnets ==>
      (SubnetFree(r, name) <==> Sound(r.(subnets := r.subnets - {name})))
  {
    if name in r.subnets && !SubnetFree(r, name) {
      var n :| n in r.routers && name in r.routers[n].interfaces;
      var after := r.(subnets := r.subnets - {name});
      assert n in after.routers && name in after.routers[n].interfaces && name !in after.subnets;
    }
  }

  /** A teardown either goes through, or is stopped by a refusal. */
  datatype Teardown = Gone(state: State) | Refused(state: State)

  function DeleteRouter(r: State, spec: Spec): Teardown {
    if spec.router.None? || spec.router.value.name !in r.routers then Gone(r)
    else
      var d := DetachedAll(r, spec.router.value.name, spec.subnets);
      if RouterFree(d, spec.router.value.name)
      then Gone(d.(routers := d.routers - {spec.router.value.name}))
      else Refused(d)
  }

  function DeleteSubnets(r: State, subnets: seq<SubnetSpec>): Teardown
    decreases |subnets|
  {
    if subnets == [] then Gone(r)
    else if subnets[0].name !in r.subnets then DeleteSubnets(r, subnets[1..])
    else if !SubnetFree(r, subnets[0].name) then Refused(r)
    else DeleteSubnets(r.(subnets := r.subnets - {subnets[0].name}), subnets[1..])
  }

  function DeleteNetwork(r: State, spec: Spec): Teardown {
    if spec.network.name !in r.networks then Gone(r)
    else if !NetworkFree(r, spec.network.name) then Refused(r)
    else Gone(r.(networks := r.networks - {spec.network.name}))
  }

  function DeleteGroup(r: State, spec: Spec): State {
    if spec.group.None? then r else r.(groups := r.groups - {spec.group.value.name})
  }

  /** Reverse dependency order: interfaces and router, subnets, network, security group. */
  function Delete(r: State, spec: Spec): Teardown {
    var a := DeleteRouter(r, spec);
    if a.Refused? then a else
    var b := DeleteSubnets(a.state, spec.subnets);
    if b.Refused? then b else
    var c := DeleteNetwork(b.state, spec);
    if c.Refused? then c else
    Gone(DeleteGroup(c.state, spec))
  }

  // -------------------------------------------------------------------- undo

  /** Detaching every subnet of the spec empties the router and touches nothing else. */
  lemma {:induction false} DetachesAll(r: State, router: string, subnets: seq<SubnetSpec>)
    requires router in r.routers
    ensures var d := DetachedAll(r, router, subnets);
      && d.projects == r.projects && d.networks == r.networks && d.subnets == r.subnets && d.groups == r.groups
      && router in d.routers && d.routers - {router} == r.routers - {router}
      && d.routers[router].interfaces <= r.routers[router].interfaces
      && (forall i :: 0 <= i < |subnets| && subnets[i].name in r.subnets ==>
           subnets[i].name !in d.routers[router].interfaces)
    decreases |subnets|
  {
    if subnets != [] {
      var next := if subnets[0].name in r.subnets then Detached(r, router, subnets[0].name) else r;
      assert next.routers - {router} == r.routers - {router};
      DetachesAll(next, router, subnets[1..]);
    }
  }

  lemma RouterGoes(start: State, r: State, spec: Spec)
    requires Absent(start, spec) && Extends(start, r, spec)
    ensures var a := DeleteRouter(r, spec);
      a.Gone? && a.state.routers == start.routers && a.state.projects == r.projects
      && a.state.networks == r.networks && a.state.subnets == r.subnets && a.state.groups == r.groups
  {
    ExtendsApart(start, r, spec);
    if spec.router.Some? {
      var name := spec.router.value.name;
      if name in r.routers {
        DetachesAll(r, name, spec.subnets);
        var d := DetachedAll(r, name, spec.subnets);
        forall s | s in SubnetNames(spec) * r.subnets.Keys ensures s !in d.routers[name].interfaces {
          var i :| 0 <= i < |spec.subnets| && spec.subnets[i].name == s;
        }
        assert d.routers[name].interfaces == {};
      } else {
        assert r.routers - {name} == r.routers;
      }
    } else {
      assert r.routers - {} == r.routers;
    }
  }

  /** No subnet of these is attached any more, so each can go. */
  lemma {:induction false} SubnetsGo(r: State, subnets: seq<SubnetSpec>)
    requires forall i :: 0 <= i < |subnets| ==> !Attached(r, subnets[i].name)
    ensures var b := DeleteSubnets(r, subnets);
      && b.Gone?
      && b.state == r.(subnets := b.state.subnets)
      && b.state.subnets == r.subnets - (set i | 0 <= i < |subnets| :: subnets[i].name)
    decreases |subnets|
  {
    var names := set i | 0 <= i < |subnets| :: subnets[i].name;
    if subnets == [] {
      assert r.subnets - names == r.subnets;
    } else {
      var head := subnets[0].name;
      var rest := set i | 0 <= i < |subnets[1..]| :: subnets[1..][i].name;
      assert names == {head} + rest by {
        forall n | n in names ensures n in {head} + rest {
          var i :| 0 <= i < |subnets| && subnets[i].name == n;
          if i > 0 {
            assert subnets[1..][i - 1].name == n;
          }
        }
        forall n | n in rest ensures n in names {
          var i :| 0 <= i < |subnets[1..]| && subnets[1..][i].name == n;
          assert subnets[i + 1].name == n;
        }
      }
      var next := if head in r.subnets then r.(subnets := r.subnets - {head}) else r;
      forall i | 0 <= i < |subnets[1..]| ensures !Attached(next, subnets[1..][i].name) {
        assert !Attached(r, subnets[i + 1].name);
        assert next.routers == r.routers;
      }
      SubnetsGo(next, subnets[1..]);
      assert next.subnets - rest == r.subnets - names;
    }
  }

  lemma NamesUnattached(start: State, r: State, spec: Spec)
    requires Sound(start) && Absent(start, spec) && r.routers == start.routers
    ensures forall i :: 0 <= i < |spec.subnets| ==> !Attached(r, spec.subnets[i].name)
  {
    forall i | 0 <= i < |spec.subnets| ensures !Attached(r, spec.subnets[i].name) {
      assert spec.subnets[i].name in SubnetNames(spec);
    }
  }

  lemma NetworkGoes(start: State, r: State, spec: Spec)
    requires Sound(start) && spec.network.name !in start.networks
    requires r.networks - {spec.network.name} == start.networks
    requires r.subnets == start.subnets && r.routers == start.routers
    ensures DeleteNetwork(r, spec) == Gone(r.(networks := start.networks))
  {
    if spec.network.name !in r.networks {
      assert r.networks - {spec.network.name} == r.networks;
    }
  }

  /**
   From any region that is `start` plus parts of the spec, deleting the spec gives `start` back, and nothing
   is refused.
   */
  lemma DeleteRestores(start: State, r: State, spec: Spec)
    requires Sound(start) && Absent(start, spec) && Extends(start, r, spec)
    ensures Delete(r, spec) == Gone(start)
  {
    ExtendsApart(start, r, spec);
    RouterGoes(start, r, spec);
    var a := DeleteRouter(r, spec).state;
    NamesUnattached(start, a, spec);
    SubnetsGo(a, spec.subnets);
    var b := DeleteSubnets(a, spec.subnets).state;
    assert b.subnets == start.subnets;
    NetworkGoes(start, b, spec);
    assert spec.group.None? ==> r.groups - {} == r.groups;
  }

  /**
   Delete undoes apply, whole or cut short: on a sound region with none of the spec's names, after
   any number of interrupted runs, deletion restores the region exactly. Every call meets its
   preconditions: the router has no interfaces, no subnet is attached, the network is empty.
   */
  lemma DeleteUndoesApply(start: State, spec: Spec, stops: seq<nat>)
    requires Sound(start) && Absent(start, spec)
    requires forall i :: 0 <= i < |stops| ==> stops[i] <= |Ops(spec)|
    ensures Delete(Interrupted(start, spec, stops), spec) == Gone(start)
    ensures Delete(Applied(start, spec), spec) == Gone(start)
  {
    InterruptedExtends(start, spec, stops);
    DeleteRestores(start, Interrupted(start, spec, stops), spec);
    AppliedExtends(start, spec);
    DeleteRestores(start, Applied(start, spec), spec);
  }

  // --------------------------------------------------- deletes cut short

  /** The teardown call by call. */
  datatype Undo = Detach(subnet: string) | DropRouter | DropSubnet(subnet: string) | DropNetwork | DropGroup

  function UndoOne(r: State, spec: Spec, op: Undo): Teardown {
    match op
    case Detach(subnet) =>
      if spec.router.Some? && spec.router.value.name in r.routers && subnet in r.subnets
      then Gone(Detached(r, spec.router.value.name, subnet))
      else Gone(r)
    case DropRouter =>
      if spec.router.None? || spec.router.value.name !in r.routers then Gone(r)
      else if !RouterFree(r, spec.router.value.name) then Refused(r)
      else Gone(r.(routers := r.routers - {spec.router.value.name}))
    case DropSubnet(subnet) =>
      if subnet !in r.subnets then Gone(r)
      else if !SubnetFree(r, subnet) then Refused(r)
      else Gone(r.(subnets := r.subnets - {subnet}))
    case DropNetwork => DeleteNetwork(r, spec)
    case DropGroup => Gone(DeleteGroup(r, spec))
  }

  function Undone(r: State, spec: Spec, ops: seq<Undo>): Teardown
    decreases |ops|
  {
    if ops == [] then Gone(r)
    else
      var first := UndoOne(r, spec, ops[0]);
      if first.Refused? then first else Undone(first.state, spec, ops[1..])
  }

  function Detaches(subnets: seq<SubnetSpec>): seq<Undo> {
    seq(|subnets|, i requires 0 <= i < |subnets| => Detach(subnets[i].name))
  }

  function DropSubnets(subnets: seq<SubnetSpec>): seq<Undo> {
    seq(|subnets|, i requires 0 <= i < |subnets| => DropSubnet(subnets[i].name))
  }

  function UndoOps(spec: Spec): seq<Undo> {
    Detaches(spec.subnets) + [DropRouter] + DropSubnets(spec.subnets) + [DropNetwork, DropGroup]
  }

  lemma {:induction false} UndoneAppend(r: State, spec: Spec, a: seq<Undo>, b: seq<Undo>)
    ensures var first := Undone(r, spec, a);
      Undone(r, spec, a + b) == if first.Refused? then first else Undone(first.state, spec, b)
    decreases |a|
  {
    if a == [] {
      assert a + b == b;
    } else {
      assert (a + b)[1..] == a[1..] + b;
      UndoneAppend(UndoOne(r, spec, a[0]).state, spec, a[1..], b);
    }
  }

  lemma UndoneOne(r: State, spec: Spec, op: Undo)
    ensures Undone(r, spec, [op]) == UndoOne(r, spec, op)
  {
    assert [op][1..] == [];
  }

  lemma {:induction false} DetachesUndone(r: State, spec: Spec, subnets: seq<SubnetSpec>)
    ensures Undone(r, spec, Detaches(subnets)) ==
      Gone(if spec.router.Some? && spec.router.value.name in r.routers
           then DetachedAll(r, spec.router.value.name, subnets) else r)
    decreases |subnets|
  {
    if subnets != [] {
      assert Detaches(subnets)[1..] == Detaches(subnets[1..]);
      DetachesUndone(UndoOne(r, spec, Detach(subnets[0].name)).state, spec, subnets[1..]);
    }
  }

  lemma {:induction false} SubnetsUndone(r: State, spec: Spec, subnets: seq<SubnetSpec>)
    ensures Undone(r, spec, DropSubnets(subnets)) == DeleteSubnets(r, subnets)
    decreases |subnets|
  {
    if subnets != [] {
      assert DropSubnets(subnets)[1..] == DropSubnets(subnets[1..]);
      SubnetsUndone(UndoOne(r, spec, DropSubnet(subnets[0].name)).state, spec, subnets[1..]);
    }
  }

  lemma {:induction false} RouterThere(r: State, router: string, subnets: seq<SubnetSpec>)
    requires router in r.routers
    ensures router in DetachedAll(r, router, subnets).routers
    decreases |subnets|
  {
    DetachesAll(r, router, subnets);
  }

  lemma RouterUndone(r: State, spec: Spec)
    ensures Undone(r, spec, Detaches(spec.subnets) + [DropRouter]) == DeleteRouter(r, spec)
  {
    DetachesUndone(r, spec, spec.subnets);
    UndoneAppend(r, spec, Detaches(spec.subnets), [DropRouter]);
    UndoneOne(Undone(r, spec, Detaches(spec.subnets)).state, spec, DropRouter);
    if spec.router.Some? && spec.router.value.name in r.routers {
      RouterThere(r, spec.router.value.name, spec.subnets);
    }
  }

  lemma LastUndone(r: State, spec: Spec)
    ensures var c := DeleteNetwork(r, spec);
      Undone(r, spec, [DropNetwork, DropGroup]) == if c.Refused? then c else Gone(DeleteGroup(c.state, spec))
  {
    assert [DropNetwork, DropGroup][1..] == [DropGroup];
    UndoneOne(DeleteNetwork(r, spec).state, spec, DropGroup);
  }

  /** The teardown is its calls, one after the other. */
  lemma DeleteIsUndone(r: State, spec: Spec)
    ensures Delete(r, spec) == Undone(r, spec, UndoOps(spec))
  {
    var router, subnets := Detaches(spec.subnets) + [DropRouter], DropSubnets(spec.subnets);
    var last := [DropNetwork, DropGroup];
    RouterUndone(r, spec);
    UndoneAppend(r, spec, router + subnets, last);
    UndoneAppend(r, spec, router, subnets);
    var a := DeleteRouter(r, spec);
    if a.Gone? {
      SubnetsUndone(a.state, spec, spec.subnets);
      LastUndone(DeleteSubnets(a.state, spec.subnets).state, spec);
    }
  }

  lemma RouterUndoExtends(start: State, r: State, spec: Spec, op: Undo)
    requires Absent(start, spec) && Extends(start, r, spec) && (op.Detach? || op.DropRouter?)
    ensures Extends(start, UndoOne(r, spec, op).state, spec)
  {
    var after := UndoOne(r, spec, op).state;
    assert after.routers - RouterNames(spec) == r.routers - RouterNames(spec);
  }

  lemma SubnetUndoExtends(start: State, r: State, spec: Spec, subnet: string)
    requires Absent(start, spec) && Extends(start, r, spec) && subnet in SubnetNames(spec)
    ensures Extends(start, UndoOne(r, spec, DropSubnet(subnet)).state, spec)
  {
    if SubnetFree(r, subnet) {
      forall n | n in r.routers && n !in start.routers
        ensures r.routers[n].interfaces <= SubnetNames(spec) * (r.subnets.Keys - {subnet})
      {
        assert subnet !in r.routers[n].interfaces;
      }
    }
  }

  /** What is taken away was not there at the start. */
  lemma UndoExtends(start: State, r: State, spec: Spec, op: Undo)
    requires Absent(start, spec) && Extends(start, r, spec) && OfSpec(spec, op)
    ensures Extends(start, UndoOne(r, spec, op).state, spec)
  {
    match op
    case Detach(_) => RouterUndoExtends(start, r, spec, op);
    case DropRouter => RouterUndoExtends(start, r, spec, op);
    case DropSubnet(subnet) => SubnetUndoExtends(start, r, spec, subnet);
    case DropNetwork =>
    case DropGroup =>
      assert UndoOne(r, spec, op).state.groups - GroupNames(spec) == r.groups - GroupNames(spec);
  }

  ghost predicate OfSpec(spec: Spec, op: Undo) {
    op.DropSubnet? ==> op.subnet in SubnetNames(spec)
  }

  lemma {:induction false} UndoneExtends(start: State, r: State, spec: Spec, ops: seq<Undo>)
    requires Absent(start, spec) && Extends(start, r, spec)
    requires forall i :: 0 <= i < |ops| ==> OfSpec(spec, ops[i])
    ensures Extends(start, Undone(r, spec, ops).state, spec)
    decreases |ops|
  {
    if ops != [] {
      UndoExtends(start, r, spec, ops[0]);
      UndoneExtends(start, UndoOne(r, spec, ops[0]).state, spec, ops[1..]);
    }
  }

  /** A run of the script that creates or deletes, cut short after so many calls. */
  datatype Run = ApplyRun(calls: nat) | DeleteRun(calls: nat)

  ghost predicate Possible(spec: Spec, run: Run) {
    run.calls <= if run.ApplyRun? then |Ops(spec)| else |UndoOps(spec)|
  }

  ghost function RunOn(r: State, spec: Spec, run: Run): State
    requires Possible(spec, run)
  {
    if run.ApplyRun? then Cut(r, spec, run.calls) else Undone(r, spec, UndoOps(spec)[..run.calls]).state
  }

  /** The region after runs of either kind, each cut short somewhere. */
  ghost function RunsOn(r: State, spec: Spec, runs: seq<Run>): State
    requires forall i :: 0 <= i < |runs| ==> Possible(spec, runs[i])
    decreases |runs|
  {
    if runs == [] then r else RunsOn(RunOn(r, spec, runs[0]), spec, runs[1..])
  }

  lemma RunExtendsToo(start: State, r: State, spec: Spec, run: Run)
    requires Absent(start, spec) && Extends(start, r, spec) && Possible(spec, run)
    ensures Extends(start, RunOn(r, spec, run), spec)
  {
    if run.ApplyRun? {
      CutExtends(start, r, spec, run.calls);
    } else {
      forall i | 0 <= i < |UndoOps(spec)| ensures OfSpec(spec, UndoOps(spec)[i]) {
        var k := i - |spec.subnets| - 1;
        if 0 <= k < |spec.subnets| {
          assert UndoOps(spec)[i] == DropSubnets(spec.subnets)[k];
        }
      }
      UndoneExtends(start, r, spec, UndoOps(spec)[..run.calls]);
    }
  }

  lemma {:induction false} RunsExtend(start: State, r: State, spec: Spec, runs: seq<Run>)
    requires Absent(start, spec) && Extends(start, r, spec)
    requires forall i :: 0 <= i < |runs| ==> Possible(spec, runs[i])
    ensures Extends(start, RunsOn(r, spec, runs), spec)
    decreases |runs|
  {
    if runs != [] {
      RunExtendsToo(start, r, spec, runs[0]);
      RunsExtend(start, RunOn(r, spec, runs[0]), spec, runs[1..]);
    }
  }

  /**
   Deletes may be cut short too: on a sound region with none of the spec's names, after any runs
   that create or delete, in any order and each cut after any call, one deletion to the end
   restores the region exactly and no call of it is refused.
   */
  lemma DeleteUndoesRuns(start: State, spec: Spec, runs: seq<Run>)
    requires Sound(start) && Absent(start, spec)
    requires forall i :: 0 <= i < |runs| ==> Possible(spec, runs[i])
    ensures Delete(RunsOn(start, spec, runs), spec) == Gone(start)
  {
    RunsExtend(start, start, spec, runs);
    DeleteRestores(start, RunsOn(start, spec, runs), spec);
  }
}
