/** Validating again on a region the spec was applied to, in full or in part: exactly when it still finds no fault. */
module OnboardingRevalidate {
  import opened Basics
  import opened Cidr
  import opened Region
  import opened OnboardingValidate
  import opened OnboardingApply
  import opened OnboardingExtends

  ghost predicate NamesDistinct(spec: Spec) {
    forall i, j :: 0 <= i < j < |spec.subnets| ==> spec.subnets[i].name != spec.subnets[j].name
  }

  ghost function BlockOf(s: SubnetSpec): Block
    requires ParseStrict(s.cidr).Some?
  {
    ParseStrict(s.cidr).value
  }

  /** Two subnets of the spec, not both in the region before, share no address. */
  ghost predicate OwnDisjoint(start: State, spec: Spec)
    requires forall i :: 0 <= i < |spec.subnets| ==> ParseStrict(spec.subnets[i].cidr).Some?
  {
    forall i, j :: 0 <= i < |spec.subnets| && 0 <= j < |spec.subnets| && i != j
      && !(spec.subnets[i].name in start.subnets && spec.subnets[j].name in start.subnets)
      ==> !Share(BlockOf(spec.subnets[i]), BlockOf(spec.subnets[j]))
  }

  /** No subnet of the spec shares an address with another one of the spec that was made since `start`. */
  ghost predicate NoClash(start: State, r: State, spec: Spec)
    requires forall i :: 0 <= i < |spec.subnets| ==> ParseStrict(spec.subnets[i].cidr).Some?
  {
    forall i, j :: 0 <= i < |spec.subnets| && 0 <= j < |spec.subnets| && i != j
      && spec.subnets[j].name in r.subnets && spec.subnets[j].name !in start.subnets
      ==> !Share(BlockOf(spec.subnets[i]), BlockOf(spec.subnets[j]))
  }

  lemma AllBlocksParse(r: State, spec: Spec)
    requires Admissible(r, spec)
    ensures forall i :: 0 <= i < |spec.subnets| ==> ParseStrict(spec.subnets[i].cidr).Some?
  {
    forall i | 0 <= i < |spec.subnets| ensures ParseStrict(spec.subnets[i].cidr).Some? {
      assert SubnetOk(r, spec.project, spec.subnets[i]);
    }
  }

  /** Among the objects of `r`, only the spec's own new subnets can take addresses that were free before. */
  lemma StillFree(start: State, r: State, spec: Spec, i: nat)
    requires Admissible(start, spec) && Extends(start, r, spec) && i < |spec.subnets|
    requires ParseStrict(spec.subnets[i].cidr).Some?
    requires forall j | 0 <= j < |spec.subnets| && spec.subnets[j].name != spec.subnets[i].name
      && spec.subnets[j].name in r.subnets && spec.subnets[j].name !in start.subnets ::
      ParseStrict(spec.subnets[j].cidr).Some? && !Share(BlockOf(spec.subnets[i]), BlockOf(spec.subnets[j]))
    ensures SubnetOk(r, spec.project, spec.subnets[i])
  {
    var s := spec.subnets[i];
    assert SubnetOk(start, spec.project, s);
    forall n | n in r.subnets && n != s.name && r.subnets[n].project == spec.project
      ensures var other := ParseLoose(r.subnets[n].cidr); other.Some? ==> !Share(BlockOf(s), other.value)
    {
      if n !in start.subnets {
        var j :| 0 <= j < |spec.subnets| && spec.subnets[j].name == n
          && r.subnets[n] == SubnetOf(spec, spec.subnets[j]);
        ParsedIsAligned(spec.subnets[j].cidr);
      }
    }
  }

  lemma ClashFound(start: State, r: State, spec: Spec, i: nat, j: nat)
    requires Admissible(start, spec) && Extends(start, r, spec) && NamesDistinct(spec)
    requires i < |spec.subnets| && j < |spec.subnets| && i != j
    requires ParseStrict(spec.subnets[i].cidr).Some? && ParseStrict(spec.subnets[j].cidr).Some?
    requires spec.subnets[j].name in r.subnets && spec.subnets[j].name !in start.subnets
    requires Share(BlockOf(spec.subnets[i]), BlockOf(spec.subnets[j]))
    ensures !SubnetOk(r, spec.project, spec.subnets[i])
  {
    var n := spec.subnets[j].name;
    var k :| 0 <= k < |spec.subnets| && spec.subnets[k].name == n && r.subnets[n] == SubnetOf(spec, spec.subnets[k]);
    assert k == j;
    ParsedIsAligned(spec.subnets[j].cidr);
  }

  lemma RestStaysOk(start: State, r: State, spec: Spec)
    requires Admissible(start, spec) && Extends(start, r, spec)
    ensures spec.project in r.projects && ProviderOk(spec.network) && VlanFree(r, spec.network)
      && ExternalOk(r, spec.router)
  {
  }

  lemma SharedBothWays(x: Block, y: Block)
    ensures Share(x, y) <==> Share(y, x)
  {
  }

  /** On a region with some of the spec's objects made since `start`, exactly when it is still admissible. */
  lemma AdmissibleIff(start: State, r: State, spec: Spec)
    requires Admissible(start, spec) && NamesDistinct(spec) && Extends(start, r, spec)
    ensures forall i :: 0 <= i < |spec.subnets| ==> ParseStrict(spec.subnets[i].cidr).Some?
    ensures Admissible(r, spec) <==> NoClash(start, r, spec)
  {
    AllBlocksParse(start, spec);
    RestStaysOk(start, r, spec);
    if NoClash(start, r, spec) {
      forall i | 0 <= i < |spec.subnets| ensures SubnetOk(r, spec.project, spec.subnets[i]) {
        StillFree(start, r, spec, i);
      }
    } else {
      var i, j :| 0 <= i < |spec.subnets| && 0 <= j < |spec.subnets| && i != j
        && spec.subnets[j].name in r.subnets && spec.subnets[j].name !in start.subnets
        && Share(BlockOf(spec.subnets[i]), BlockOf(spec.subnets[j]));
      ClashFound(start, r, spec, i, j);
    }
  }

  /**
   What validation finds when the command is run again after runs cut short anywhere: the spec is
   admissible if and only if none of its subnets shares an address with another one of them that
   those runs created.
   */
  lemma InterruptedAdmissibleIff(start: State, spec: Spec, stops: seq<nat>)
    requires Admissible(start, spec) && NamesDistinct(spec)
    requires forall i :: 0 <= i < |stops| ==> stops[i] <= |Ops(spec)|
    ensures forall i :: 0 <= i < |spec.subnets| ==> ParseStrict(spec.subnets[i].cidr).Some?
    ensures Admissible(Interrupted(start, spec, stops), spec) <==> NoClash(start, Interrupted(start, spec, stops), spec)
  {
    InterruptedExtends(start, spec, stops);
    AdmissibleIff(start, Interrupted(start, spec, stops), spec);
  }

  /**
   Validation is stable across apply exactly when the spec does not clash with itself: given an
   admissible spec with distinct subnet names, it is admissible on the region apply leaves if and
   only if no two of its subnets, one of them new, share an address.
   */
  lemma RevalidatesIff(start: State, spec: Spec)
    requires Admissible(start, spec) && NamesDistinct(spec)
    ensures forall i :: 0 <= i < |spec.subnets| ==> ParseStrict(spec.subnets[i].cidr).Some?
    ensures Admissible(Applied(start, spec), spec) <==> OwnDisjoint(start, spec)
  {
    AppliedExtends(start, spec);
    AdmissibleIff(start, Applied(start, spec), spec);
    forall i, j | 0 <= i < |spec.subnets| && 0 <= j < |spec.subnets|
      ensures Share(BlockOf(spec.subnets[i]), BlockOf(spec.subnets[j]))
         <==> Share(BlockOf(spec.subnets[j]), BlockOf(spec.subnets[i]))
    {
      SharedBothWays(BlockOf(spec.subnets[i]), BlockOf(spec.subnets[j]));
    }
  }

  /** The region after runs of the whole command, each of which validates first and is cut short at its stop. */
  ghost function Commanded(start: State, spec: Spec, stops: seq<nat>): State
    requires forall i :: 0 <= i < |stops| ==> stops[i] <= |Ops(spec)|
  {
    if stops == [] then start
    else
      var before := Commanded(start, spec, stops[..|stops| - 1]);
      if Admissible(before, spec) then Cut(before, spec, stops[|stops| - 1]) else before
  }

  /** Refused runs change nothing, so the region is what some of the runs alone would have left. */
  lemma {:induction false} CommandedIsInterrupted(start: State, spec: Spec, stops: seq<nat>) returns (done: seq<nat>)
    requires forall i :: 0 <= i < |stops| ==> stops[i] <= |Ops(spec)|
    ensures forall i :: 0 <= i < |done| ==> done[i] <= |Ops(spec)|
    ensures Commanded(start, spec, stops) == Interrupted(start, spec, done)
    decreases |stops|
  {
    if stops == [] {
      done := [];
    } else {
      var k := stops[|stops| - 1];
      done := CommandedIsInterrupted(start, spec, stops[..|stops| - 1]);
      if Admissible(Commanded(start, spec, stops[..|stops| - 1]), spec) {
        assert (done + [k])[..|done|] == done;
        done := done + [k];
      }
    }
  }

  /** A rerun of the command that is not refused gives the region of an uninterrupted run, security group apart. */
  lemma AcceptedRerunConverges(start: State, spec: Spec, stops: seq<nat>)
    requires forall i :: 0 <= i < |stops| ==> stops[i] <= |Ops(spec)|
    ensures SameCore(Applied(Commanded(start, spec, stops), spec), Applied(start, spec))
  {
    var done := CommandedIsInterrupted(start, spec, stops);
    ApplyConverges(start, spec, done);
  }

  /**
   "Re-running is safe", of the command as a whole: however it was cut short before, a further run
   is accepted, if and only if no two of the spec's subnets, one of them new, share an address.
   */
  lemma RerunIsAcceptedIff(start: State, spec: Spec)
    requires Admissible(start, spec) && NamesDistinct(spec)
    ensures forall i :: 0 <= i < |spec.subnets| ==> ParseStrict(spec.subnets[i].cidr).Some?
    ensures (forall stops: seq<nat> | (forall i :: 0 <= i < |stops| ==> stops[i] <= |Ops(spec)|) ::
              Admissible(Commanded(start, spec, stops), spec))
      <==> OwnDisjoint(start, spec)
  {
    AllBlocksParse(start, spec);
    if OwnDisjoint(start, spec) {
      forall stops: seq<nat> | forall i :: 0 <= i < |stops| ==> stops[i] <= |Ops(spec)|
        ensures Admissible(Commanded(start, spec, stops), spec)
      {
        var done := CommandedIsInterrupted(start, spec, stops);
        InterruptedAdmissibleIff(start, spec, done);
      }
    } else {
      var n := |Ops(spec)|;
      assert Ops(spec)[..n] == Ops(spec);
      assert [n][..0] == [] && Commanded(start, spec, []) == start;
      assert Commanded(start, spec, [n]) == Applied(start, spec);
      RevalidatesIff(start, spec);
    }
  }

  const BLOCK24 := CidrText(false, 0, 24)

  const SELF_CLASH := Spec("p",
    NetworkSpec("n", None, None, None, 0, false, true),
    [SubnetSpec("a", BLOCK24, None, [], [], true), SubnetSpec("b", BLOCK24, None, [], [], true)],
    None, None)

  lemma BlockParses()
    ensures ParseStrict(BLOCK24).Some? && Share(ParseStrict(BLOCK24).value, ParseStrict(BLOCK24).value)
  {
    assert Pow2(32) >= 1 && SizeOf(BLOCK24) >= 1;
    assert 0 % SizeOf(BLOCK24) == 0;
    assert Member(Address(false, 0), ParseStrict(BLOCK24).value);
  }

  /**
   A spec whose two subnets are the same block passes validation, and never again: neither once it
   is applied nor if the run stopped after its first subnet.
   */
  lemma SelfClashPassesOnce()
    ensures var start := State({"p"}, map[], map[], map[], map[]);
      && Admissible(start, SELF_CLASH)
      && !Admissible(Applied(start, SELF_CLASH), SELF_CLASH)
      && |Ops(SELF_CLASH)| >= 2 && !Admissible(Cut(start, SELF_CLASH, 2), SELF_CLASH)
  {
    var start := State({"p"}, map[], map[], map[], map[]);
    BlockParses();
    assert SubnetOk(start, "p", SELF_CLASH.subnets[0]) && SubnetOk(start, "p", SELF_CLASH.subnets[1]);
    RevalidatesIff(start, SELF_CLASH);
    assert BlockOf(SELF_CLASH.subnets[0]) == BlockOf(SELF_CLASH.subnets[1]);
    CutExtends(start, start, SELF_CLASH, 2);
    AdmissibleIff(start, Cut(start, SELF_CLASH, 2), SELF_CLASH);
    FirstSubnetMade(start);
  }

  lemma FirstSubnetMade(start: State)
    requires "n" !in start.networks
    ensures |Ops(SELF_CLASH)| >= 2 && "a" in Cut(start, SELF_CLASH, 2).subnets
  {
    var core := CoreOps(SELF_CLASH);
    CoreWellPlaced(SELF_CLASH);
    PrefixDone(Progress(start, false), SELF_CLASH, core, 2);
    CutCore(start, SELF_CLASH, 2);
    assert core[..2][1] == MakeSubnet(SELF_CLASH.subnets[0]);
  }
}
